/**
 One dot: a position, an alive flag, a move count and the path of directions
 it has taken or inherited. A dot moves only while it is alive, has moves left
 and has not reached the goal; a step onto a wall or an obstacle is undone and
 kills the dot. Random draws are parameters: `dir` stands for `rand() % 4` and
 `mutate` for the entropy test that decides whether a path entry is redrawn.
 */
module Dots {
  import opened Grid

  const Lifespan: int := 3 * (Width + Height)

  /** A move direction; the source stores it as the integer `Code`. */
  datatype Dir = Up | Down | Left | Right

  function Code(d: Dir): (c: int)
    ensures 0 <= c < 4
  {
    match d
    case Up => 0
    case Down => 1
    case Left => 2
    case Right => 3
  }

  /**
   The direction a `rand() % 4` code selects. The moves take a `Dir` directly;
   this only records how the source decodes a stored code.
   */
  function DirOf(c: int): (d: Dir)
    requires 0 <= c < 4
    ensures Code(d) == c
  {
    if c == 0 then Up else if c == 1 then Down else if c == 2 then Left else Right
  }

  /** moveUp, moveDown, moveLeft, moveRight. */
  function Shift(l: Location, d: Dir): (r: Location)
    ensures (r.x == l.x && (r.y == l.y + 1 || r.y == l.y - 1))
         || (r.y == l.y && (r.x == l.x + 1 || r.x == l.x - 1))
  {
    match d
    case Up => l.(y := l.y - 1)
    case Down => l.(y := l.y + 1)
    case Left => l.(x := l.x - 1)
    case Right => l.(x := l.x + 1)
  }

  /** The move used to undo a step that hit something. */
  function Opposite(d: Dir): (r: Dir)
    ensures forall l :: Shift(Shift(l, d), r) == l
  {
    match d
    case Up => Down
    case Down => Up
    case Left => Right
    case Right => Left
  }

  datatype Dot = Dot(pos: Location, alive: bool, mc: nat, path: seq<Dir>)

  /**
   A step from a cell on the grid leaves the grid exactly when it crosses the
   edge the cell lies on.
   */
  lemma StepOffGrid(l: Location, d: Dir)
    requires InBounds(l)
    ensures !InBounds(Shift(l, d)) <==>
              || (d == Up && l.y == 0) || (d == Down && l.y == Height - 1)
              || (d == Left && l.x == 0) || (d == Right && l.x == Width - 1)
  {
  }

  /** The one random input of a path-following move. */
  datatype Draw = Draw(dir: Dir, mutate: bool)

  /** A dot created at `l` carrying path `p`: alive, no moves taken yet. */
  function NewDot(l: Location, p: seq<Dir>): Dot {
    Dot(l, true, 0, p)
  }

  /** hasWon: the dot stands on the goal cell. */
  predicate HasWon(d: Dot) {
    d.pos.x == Goal.x && d.pos.y == Goal.y
  }

  /** The guard both movers share: alive, moves left, not at the goal. */
  predicate Active(d: Dot) {
    d.alive && d.mc < Lifespan && !HasWon(d)
  }

  /** The shape every reachable dot has. */
  predicate Wf(d: Dot) {
    InBounds(d.pos) && d.mc <= Lifespan && d.mc <= |d.path|
  }

  /**
   Step one cell in direction `dir`; a step off the grid or onto an obstacle is
   undone with the opposite step and kills the dot.
   */
  function Attempt(d: Dot, dir: Dir, cells: seq<Location>): (r: Dot)
    ensures r.mc == d.mc && r.path == d.path
    ensures Legal(Shift(d.pos, dir), cells) ==> r.pos == Shift(d.pos, dir) && r.alive == d.alive
    ensures !Legal(Shift(d.pos, dir), cells) ==> r.pos == d.pos && !r.alive
  {
    var moved := d.(pos := Shift(d.pos, dir));
    if !InBounds(moved.pos) || InObstacle(moved.pos, cells) then
      moved.(pos := Shift(moved.pos, Opposite(dir)), alive := false)
    else
      moved
  }

  /** moveRand: an active dot steps in direction `dir` and records it. */
  function MoveRand(d: Dot, dir: Dir, cells: seq<Location>): (r: Dot)
    ensures !Active(d) ==> r == d
    ensures Active(d) ==> r.mc == d.mc + 1 && r.path == d.path + [dir]
    ensures Active(d) && Legal(Shift(d.pos, dir), cells) ==>
              r.pos == Shift(d.pos, dir) && r.alive
    ensures Active(d) && !Legal(Shift(d.pos, dir), cells) ==>
              r.pos == d.pos && !r.alive
  {
    if Active(d) then
      var m := Attempt(d, dir, cells);
      m.(path := m.path + [dir], mc := m.mc + 1)
    else
      d
  }

  /**
   movePath: an active dot that has used up its path draws a new direction and
   appends it; otherwise it redraws entry `mc` when `mutate` holds, or follows
   it. It then steps in the direction now recorded at `mc`.
   */
  function MovePath(d: Dot, draw: Draw, cells: seq<Location>): (r: Dot)
    ensures !Active(d) ==> r == d
    ensures Active(d) ==> r.mc == d.mc + 1
  {
    if Active(d) then
      var dir := if d.mc >= |d.path| then draw.dir
                 else if draw.mutate then draw.dir
                 else d.path[d.mc];
      var p := if d.mc >= |d.path| then d.path + [dir]
               else if draw.mutate then d.path[d.mc := dir]
               else d.path;
      var m := Attempt(d.(path := p), dir, cells);
      m.(mc := m.mc + 1)
    else
      d
  }

  /**
   The path bookkeeping of an active movePath: an exhausted path grows by the
   drawn direction; otherwise the length is kept and only entry `mc` may
   change, to the drawn direction, and only when `mutate` holds.
   */
  lemma MovePathBookkeeping(d: Dot, draw: Draw, cells: seq<Location>)
    requires Active(d)
    ensures var r := MovePath(d, draw, cells);
            && (d.mc >= |d.path| ==> r.path == d.path + [draw.dir])
            && (d.mc < |d.path| ==>
                  && |r.path| == |d.path|
                  && (forall i :: 0 <= i < |d.path| && i != d.mc ==> r.path[i] == d.path[i])
                  && (draw.mutate ==> r.path[d.mc] == draw.dir)
                  && (!draw.mutate ==> r.path == d.path))
  {
  }

  /**
   An active movePath on a dot with `mc <= |path|` steps in the direction the
   new path records at the old `mc`: onto the target cell when it is legal,
   otherwise it stays put and dies.
   */
  lemma MovePathStep(d: Dot, draw: Draw, cells: seq<Location>)
    requires Active(d) && d.mc <= |d.path|
    ensures var r := MovePath(d, draw, cells);
            var target := Shift(d.pos, r.path[d.mc]);
            && (Legal(target, cells) ==> r.pos == target && r.alive)
            && (!Legal(target, cells) ==> r.pos == d.pos && !r.alive)
  {
  }

  function Sq(n: int): (r: int)
    ensures r >= 0
  {
    n * n
  }

  /** The conversion of a quotient with a positive denominator to `int` (toward zero). */
  function TruncDiv(a: int, b: int): int
    requires b > 0
  {
    if a >= 0 then a / b else -((-a) / b)
  }

  lemma SqBound(n: int, m: int)
    requires 0 <= n <= m
    ensures Sq(n) <= Sq(m)
  {
  }

  lemma RemainingLifeBound(mc: nat)
    ensures mc <= Lifespan ==> Sq(Lifespan - mc) <= Sq(Lifespan)
  {
    if mc <= Lifespan {
      SqBound(Lifespan - mc, Lifespan);
    }
  }

  /**
   The winning score `500 + ((LIFESPAN - mc) / LIFESPAN)^2 * 1000`, computed in
   exact arithmetic and truncated.
   */
  function WinnerScore(mc: nat): (s: int)
    ensures s >= 500
    ensures mc <= Lifespan ==> s <= 1500
  {
    var num := 1000 * Sq(Lifespan - mc);
    RemainingLifeBound(mc);
    500 + TruncDiv(num, Sq(Lifespan))
  }

  /**
   score: a winner scores from its move count, anyone else from how close it
   got, the latter as a truncated percentage of the squared grid diagonal.
   */
  function Score(d: Dot): (s: int)
    ensures s >= 0
    ensures HasWon(d) ==> 500 <= s && (d.mc <= Lifespan ==> s <= 1500)
  {
    if HasWon(d) then WinnerScore(d.mc)
    else
      var dx, dy := Width - (Goal.x - d.pos.x), Height - (Goal.y - d.pos.y);
      assert dx == d.pos.x + 1 && dy == d.pos.y + 1;
      TruncDiv((Sq(dx) + Sq(dy)) * 100, Sq(Width) + Sq(Height))
  }

  /**
   Since the goal is the bottom-right cell, a non-winner's score is the squared
   distance of (x + 1, y + 1) from the origin, as a percentage of the squared
   grid diagonal, rounded down.
   */
  lemma NonWinnerScore(d: Dot)
    requires !HasWon(d)
    ensures Score(d) == (Sq(d.pos.x + 1) + Sq(d.pos.y + 1)) * 100 / (Sq(Width) + Sq(Height))
  {
  }

  /** A dot on the grid that has not won scores below 100. */
  lemma NonWinnerBelowHundred(d: Dot)
    requires InBounds(d.pos) && !HasWon(d)
    ensures Score(d) < 100
  {
    var x, y := d.pos.x + 1, d.pos.y + 1;
    SqBound(x, Width);
    SqBound(y, Height);
    if x < Width {
      SqBound(x, Width - 1);
    } else {
      SqBound(y, Height - 1);
    }
    assert Sq(x) + Sq(y) < Sq(Width) + Sq(Height);
    NonWinnerScore(d);
  }

  /** Every winner outscores every dot on the grid that has not won. */
  lemma WinnerOutscoresNonWinner(w: Dot, d: Dot)
    requires HasWon(w) && InBounds(d.pos) && !HasWon(d)
    ensures Score(w) > Score(d)
  {
    NonWinnerBelowHundred(d);
  }

  /** Every well-formed dot scores at most 1500. */
  lemma ScoreAtMost1500(d: Dot)
    requires Wf(d)
    ensures 0 <= Score(d) <= 1500
  {
    if !HasWon(d) {
      NonWinnerBelowHundred(d);
    }
  }

  /** A move keeps a dot well formed and keeps it off walls and obstacles. */
  lemma MovePathKeepsLegal(d: Dot, draw: Draw, cells: seq<Location>)
    requires Wf(d) && Legal(d.pos, cells)
    ensures Wf(MovePath(d, draw, cells)) && Legal(MovePath(d, draw, cells).pos, cells)
  {
    if Active(d) {
      MovePathBookkeeping(d, draw, cells);
      MovePathStep(d, draw, cells);
    }
  }

  lemma MoveRandKeepsLegal(d: Dot, dir: Dir, cells: seq<Location>)
    requires Wf(d) && Legal(d.pos, cells)
    ensures Wf(MoveRand(d, dir, cells)) && Legal(MoveRand(d, dir, cells).pos, cells)
  {
  }

  /** A dot on the goal never moves again, whichever mover is applied. */
  lemma WinnerInert(d: Dot, draw: Draw, dir: Dir, cells: seq<Location>)
    requires HasWon(d)
    ensures MovePath(d, draw, cells) == d && MoveRand(d, dir, cells) == d
  {
  }

  /**
   With the configured layout, a dot in row 1 above the rectangle covering
   columns 0 to 11 of rows 2 to 7 that steps down runs into it: it stays where
   it was, dies, and still records the move.
   */
  lemma ObstacleBounce(x: int)
    requires 0 <= x < 12
    ensures var d := MoveRand(NewDot(Location(x, 1), []), Down, Obstacles);
            d.pos == Location(x, 1) && !d.alive && d.mc == 1 && d.path == [Down]
  {
    CellBelowBlocked(x);
    BlockedStep(Location(x, 1), Down, Obstacles);
  }

  /** A fresh dot whose first step is blocked stays put, dies and records the step. */
  lemma BlockedStep(l: Location, dir: Dir, cells: seq<Location>)
    requires !HasWon(NewDot(l, [])) && !Legal(Shift(l, dir), cells)
    ensures var d := MoveRand(NewDot(l, []), dir, cells);
            d.pos == l && !d.alive && d.mc == 1 && d.path == [dir]
  {
  }

  /** The cells of row 2 in columns 0 to 11 belong to the third configured rectangle. */
  lemma CellBelowBlocked(x: int)
    requires 0 <= x < 12
    ensures !Legal(Shift(Location(x, 1), Down), Obstacles)
  {
    ObstacleIffCovered(Location(x, 2), ObstacleData);
    assert Covers(ObstacleData[2], Location(x, 2));
  }
}
