# Genetic path-finding dots, modelled in Dafny

This project models the evolutionary engine of a small C++ genetic algorithm
(`genetic_algorithm_new.cpp`). A population of 600 "dots" starts in the top-left
cell of a 30 x 30 grid with three rectangular obstacles. The dots try to reach
the bottom-right cell. The model covers:

- the walls and obstacles;
- how a dot moves, follows, extends or mutates its path, and dies;
- the score of a dot;
- the best-dot fold;
- when a generation is done;
- roulette-wheel reproduction of the next generation.

Everything is a pure function over immutable values. A dot is a `Dot` datatype
and a population is a `seq<Dot>`. Every random draw of the source is an explicit
parameter:

- a `Dir` stands for `rand() % 4`;
- a `mutate` flag stands for the entropy test `r < entropy*100`;
- a `nat` stands for the `rand()` value that the child loop reduces modulo the
  fitness sum.

The expanded obstacle list is passed to the move functions as `cells`.
`Grid.Obstacles` is the configured list.

Modules, leaves first:

- `Grid` (`grid.dfy`): grid size, start and goal cells, obstacle rectangles,
  `makeObstacles`, `inBounds` and `inObstacle`.
- `Dots` (`dot.dfy`): directions, the dot, `moveRand`, `movePath` and `score`.
- `Population` (`population.dfy`): the source's `Set` with `movePathAll`,
  `moveRandAll` and `bestDot`.
- `Environment` (`environment.dfy`): `dotsLeft`, `done` and `hasWon`, plus the
  generation loop `while (!e.done()) e.stepPath();`.
- `Evolution` (`evolution.dfy`): the child-making loop of `main`, i.e. fitness,
  the fitness sum, the roulette scan and the children.

Some behaviour of the code is easy to misread:

- A child starts with `mc = 0` and the whole path of its parent. So the
  invariant a dot keeps is `mc <= |path|`.
- A winner that reaches the goal on its last allowed move scores exactly 500.
- `bestDot` starts from a running best score of 0, not from the first dot's
  score. The result is therefore not always a maximum (see Findings).
- The roulette scan moves on while the running sum is strictly below the
  target. Target 0 therefore always selects dot 0, even when dot 0 has zero
  fitness. `Evolution.RouletteInterval` states the exact interval of targets
  that selects each dot. Because targets run from 0 to `scoreSum - 1`, the
  first dot is chosen for one target more than its fitness, the last dot with
  positive fitness for one fewer, and every other dot for exactly its fitness.

## Model

| member | source | states |
|---|---|---|
| `Grid.MakeObstacles` | genetic_algorithm_new.cpp:60-67 | A cell is in the expanded list iff some configured rectangle covers it, i.e. `o.x <= x < o.x+o.w` and `o.y <= y < o.y+o.h`. |
| `Grid.RectCells` | genetic_algorithm_new.cpp:63-65 | The nested loops over one rectangle produce exactly (rows x columns) cells, and these are exactly the covered cells. |
| `Grid.InObstacle` | genetic_algorithm_new.cpp:128-133 | The scan that compares both coordinates is true iff the cell occurs in the obstacle list. |
| `Grid.ObstacleIffCovered` | genetic_algorithm_new.cpp:60-67 | The collision test against the expanded list agrees with the rectangles themselves. |
| `Grid.EndpointsLegal` | genetic_algorithm_new.cpp:46-57 | With the configured rectangles, START and GOAL are on the grid and free of obstacles. |
| `Dots.Shift` | genetic_algorithm_new.cpp:92-95 | Every move goes to one of the four neighbouring cells: one coordinate changes by exactly one and the other is kept. |
| `Dots.StepOffGrid` | genetic_algorithm_new.cpp:123-127 | A step from a cell on the grid leaves it iff it crosses the edge the cell lies on: up from row 0, down from the last row, left from column 0, right from the last column. These are the steps `inBounds` rejects. |
| `Dots.WinnerInert` | genetic_algorithm_new.cpp:77-79 | A dot on the goal (`hasWon`) is left unchanged by both `moveRand` and `movePath`. |
| `Dots.DirOf` | genetic_algorithm_new.cpp:80-86 | Each code 0..3 selects the direction whose code it is (0 up, 1 down, 2 left, 3 right). |
| `Dots.Opposite` | genetic_algorithm_new.cpp:82-85 | The undo move paired with each direction returns every cell to itself. |
| `Dots.Attempt` | genetic_algorithm_new.cpp:114-117 | If the target cell is legal, the dot moves there and its alive flag is unchanged. Otherwise it stays where it was and dies. Move count and path are untouched. |
| `Dots.MoveRand` | genetic_algorithm_new.cpp:78-91 | A dead dot, a dot out of moves (`mc >= LIFESPAN`) or a winning dot is unchanged. Otherwise `mc` grows by one, the drawn direction is appended to the path, and position and alive flag follow the legality of the target cell. |
| `Dots.MovePath` | genetic_algorithm_new.cpp:96-122 | A dead dot, a dot out of moves or a winning dot is unchanged in every field. An active dot's `mc` grows by exactly one. |
| `Dots.MovePathBookkeeping` | genetic_algorithm_new.cpp:99-111 | A used-up path (`mc >= |path|`) gets the drawn direction appended. Otherwise the length is kept and every entry other than `p[mc]` is kept. `p[mc]` becomes the drawn direction when `mutate` holds; without it the path is unchanged. |
| `Dots.MovePathStep` | genetic_algorithm_new.cpp:113-120 | The step taken is the direction the new path records at the old `mc`. It reaches the target cell when that cell is legal; otherwise the dot stays put and dies. |
| `Dots.MovePathKeepsLegal` | genetic_algorithm_new.cpp:96-133 | A dot on a legal cell with `mc <= LIFESPAN` and `mc <= |path|` keeps all three after `movePath`. |
| `Dots.MoveRandKeepsLegal` | genetic_algorithm_new.cpp:78-91 | The same invariant for `moveRand`. |
| `Dots.WinnerScore` | genetic_algorithm_new.cpp:139 | The winner's score is at least 500, and at most 1500 when `mc <= LIFESPAN`. |
| `Dots.Score` | genetic_algorithm_new.cpp:136-144 | Every score is non-negative. A winner scores at least 500, and at most 1500 with `mc <= LIFESPAN`. |
| `Dots.NonWinnerScore` | genetic_algorithm_new.cpp:142 | Because GOAL is (W-1, H-1), a non-winner scores `((x+1)^2 + (y+1)^2) * 100 div (W^2 + H^2)`. |
| `Dots.NonWinnerBelowHundred` | genetic_algorithm_new.cpp:142 | A non-winner on the grid scores below 100. |
| `Dots.WinnerOutscoresNonWinner` | genetic_algorithm_new.cpp:136-143 | Every winner outscores every non-winner on the grid. |
| `Dots.ScoreAtMost1500` | genetic_algorithm_new.cpp:136-143 | Every reachable dot scores between 0 and 1500. |
| `Dots.ObstacleBounce` | genetic_algorithm_new.cpp:83 | With the configured layout, a dot at (x, 1) with 0 <= x < 12 that moves down hits the rectangle below it. It stays at (x, 1), dies, and records the move with `mc = 1`. |
| `Population.MovePathAll` | genetic_algorithm_new.cpp:163-166 | Each dot takes its own `movePath` step. The population keeps its size and order. |
| `Population.MoveRandAll` | genetic_algorithm_new.cpp:159-162 | Each dot takes its own `moveRand` step. The population keeps its size and order. |
| `Population.MovePathAllKeepsLegal` | genetic_algorithm_new.cpp:163-166 | A tick keeps every dot well formed and on a legal cell. |
| `Population.BestDot` | genetic_algorithm_new.cpp:167-185 | On a non-empty population the index is in range. The chosen dot scores at least as much as every later dot. A later dot with the same nonzero score has at least as many moves. If all scores are 0 the result is 0. An empty population gives 0. |
| `Population.TieKeepsFewerMoves` | genetic_algorithm_new.cpp:167-185 | Of two dots with the same nonzero score, `bestDot` returns the second iff it has made strictly fewer moves than the first. |
| `Population.BestDotMissesMaximum` | genetic_algorithm_new.cpp:168-182 | As written, for dots scoring 5 then 3 the fold returns index 1. |
| `Population.BestFromMaximum` | genetic_algorithm_new.cpp:172-182 | When the running best score starts equal to the current best dot's score, the fold ends on a maximum. No dot with the same nonzero score has fewer moves. |
| `Population.BestDotFixed` | genetic_algorithm_new.cpp:167-185 | With the running best score initialised to dot 0's score, the result has the highest score. Among equal nonzero maxima it has the fewest moves. |
| `Environment.DotsLeft` | genetic_algorithm_new.cpp:279-284 | True iff some dot is alive. |
| `Environment.Done` | genetic_algorithm_new.cpp:295-304 | When `done()` holds, no dot is alive with moves left and off the goal. `Environment.DoneIffNoneActive` adds the converse. |
| `Environment.DoneIffNoneActive` | genetic_algorithm_new.cpp:295-304 | `done()` holds iff no dot is alive with moves left and off the goal. |
| `Environment.AnyWon` | genetic_algorithm_new.cpp:309-314 | True iff some dot stands on the goal. |
| `Environment.DoneIsFixpoint` | genetic_algorithm_new.cpp:163-166 | Once `done()` holds, a further `movePathAll` changes nothing. |
| `Environment.RunGeneration` | genetic_algorithm_new.cpp:383-384 | The loop `while (!done()) stepPath()` keeps the population's size. Its partners `RunGenerationKeepsLegal` and `GenerationEndsWithinLifespan` state the invariant and termination. |
| `Environment.RunGenerationKeepsLegal` | genetic_algorithm_new.cpp:383-384 | Running a generation keeps every dot well formed and on a legal cell. |
| `Environment.GenerationEndsWithinLifespan` | genetic_algorithm_new.cpp:383-384 | From any population, the loop `while (!done()) stepPath()` reaches `done()` within LIFESPAN ticks. |
| `Environment.InitialPopulation` | genetic_algorithm_new.cpp:354-356 | The first population has `n` dots, legal whenever START is legal. With `n > 0` it is not done. |
| `Evolution.Fitness` | genetic_algorithm_new.cpp:416 | Fitness (the squared score) is non-negative, and it is positive iff the score is. |
| `Evolution.ScoreSum` | genetic_algorithm_new.cpp:414-416 | The fitness sum is non-negative. |
| `Evolution.ZeroScoreSum` | genetic_algorithm_new.cpp:414-416 | The fitness sum is zero iff every dot has zero fitness. |
| `Evolution.Pick` | genetic_algorithm_new.cpp:419-427 | Resumed at dot `i` with the running sum of the dots before it, the scan stops at the least index at or after `i` whose running sum reaches the target, or runs off the end when none does. |
| `Evolution.ChooseParent` | genetic_algorithm_new.cpp:418-427 | For `0 <= target < scoreSum`, the scan stops at the least index whose running sum reaches the target, and that index is in range. A positive target picks a dot with positive fitness. Target 0 picks dot 0. |
| `Evolution.SlotsDisjoint` | genetic_algorithm_new.cpp:418-427 | No target lies in the selection slots of two different dots, because the running fitness sum never decreases. |
| `Evolution.RouletteInterval` | genetic_algorithm_new.cpp:418-427 | Dot `i` is chosen iff `Cum(i-1) < target <= Cum(i)`, or `target <= Cum(0)` for dot 0, where `Cum(i)` is the running fitness sum up to dot `i`. |
| `Evolution.Reproduce` | genetic_algorithm_new.cpp:410-430 | There is one child per draw; the source draws NUM_DOTS times. Every child is alive at START with `mc = 0` and carries a copy of the path of the parent chosen for `rand() % scoreSum`. That parent has positive fitness whenever the target is positive. |
| `Evolution.NextGeneration` | genetic_algorithm_new.cpp:417-430 | With NUM_DOTS draws the loop makes exactly NUM_DOTS children. Each is alive at START with `mc = 0` and the path of some parent, which has positive fitness whenever its target is positive. |
| `Evolution.ChildrenReady` | genetic_algorithm_new.cpp:428-429 | A non-empty set of children is legal whenever START is, and it is not done. |
| `Evolution.ScoreSumFitsInt` | genetic_algorithm_new.cpp:414-422 | With at most NUM_DOTS reachable dots, the fitness sum and every running sum fit in a 32-bit `int`. |
| `Evolution.ZeroScoreSumReachable` | genetic_algorithm_new.cpp:414-418 | A population where every dot first moves up is done with fitness sum 0, so `rand() % scoreSum` can divide by zero. |

## Findings

| source | as written | input that shows it | evidently intended | confidence | as-written member | corrected member |
|---|---|---|---|---|---|---|
| genetic_algorithm_new.cpp:168 | `highScore` starts at 0. The first iteration compares dot 0 with itself and does not raise `highScore` in either branch: the tie branch leaves it alone, and when dot 0 scores 0 the quotient is NaN and `0 > 0` fails. Any later dot with a positive, non-tied score then replaces dot 0, even one with a lower score. | Two dots on row 0 at (9, 0) and (7, 0), scoring 5 and 3: `bestDot` returns 1. | The comment "return index of dot with highest score" describes the intent: start `highScore` at dot 0's score, so the result is a maximum. | high; not executed | `Population.BestDotMissesMaximum` (about `Population.BestDot`) | `Population.BestDotFixed` |

Only rendering and the "Fastest" report consume `bestDot`. Neither is part of
this model, so nothing else here depends on which variant is used.

## Left out

- Rendering and user interaction are not modelled, because they are I/O: ncurses
  set-up and tear-down, `draw`, `displayPrompt`, the display modes, key
  handling, the `resize` call and the "Fastest" line.
- `Map::makeMap` is not modelled. It only layers characters for display.
- `Environment::stepRand` and `stepPath` are modelled only by the population
  moves they call. The map rebuild they also do is rendering.
- The debug file, `srand` seeding and `rand()` itself are not modelled. Every
  draw is a parameter instead.
- The outer loops over NUM_GENERATIONS generations and repeated runs are not
  modelled. They only chain `RunGeneration` and `Reproduce`, and add I/O.
- `Environment.RunGeneration` takes a finite list of ticks. Each tick is one
  row of draws, with one draw per dot. Running out of ticks stands for the
  loop not having finished. `Environment.GenerationEndsWithinLifespan` shows
  that LIFESPAN ticks always suffice.
- `Dots.WinnerScore`: the source computes `pow` on doubles. The model uses
  exact arithmetic, `500 + (1000 * (LIFESPAN - mc)^2) div LIFESPAN^2`, and its
  contract states only the range [500, 1500]. C does not require `pow` to be
  correctly rounded, so the model does not claim the source's exact value;
  with correctly rounded double arithmetic the two agree at every move count
  from 0 to LIFESPAN.
- The mutation test `r < entropy*100` is a floating-point comparison. The
  `mutate` flag replaces it.
- `Evolution.Reproduce` requires a positive fitness sum. With a zero sum the
  source evaluates `rand() % 0`, which is undefined behaviour;
  `Evolution.ZeroScoreSumReachable` shows such a population can occur.
- 32-bit wrap-around is not modelled. `Evolution.ScoreSumFitsInt` shows the
  sums stay below `INT_MAX` for the configured population, and every other
  quantity is far smaller.
- Paths hold the `Dir` enumeration rather than `int`. The `default: break`
  branch for codes outside 0..3 cannot be reached, because every stored code
  comes from `rand() % 4`.
- Trivial accessors have no members of their own. `loc`, `moveCount`,
  `isAlive` and `path` are fields of `Dot`; `kill` is `d.(alive := false)`;
  `pathSize` is `|d.path|`; `Set::size`, `dotAt` and `setVec` are `|v|`,
  `v[i]` and replacing the sequence.
