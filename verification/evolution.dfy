/**
 Making the next generation (the child loop of `main`): fitness is the squared
 score, summed in an `int`; each child picks a parent by scanning the running
 fitness sum against `rand() % scoreSum`, and starts afresh at the start cell
 with a copy of the parent's path. The `rand()` values are parameters.
 */
module Evolution {
  import opened Grid
  import opened Dots
  import opened Population
  import opened Environment

  const NumDots: int := 600

  /** The largest value of the source's 32-bit `int`. */
  const IntMax: int := 0x7fff_ffff

  function Fitness(d: Dot): (f: int)
    ensures f >= 0
    ensures f > 0 <==> Score(d) > 0
  {
    var s := Score(d);
    SqPositive(s);
    Sq(s)
  }

  lemma SqPositive(n: int)
    requires n >= 0
    ensures Sq(n) > 0 <==> n > 0
  {
    if n > 0 {
      SqBound(1, n);
    }
  }

  /** scoreSum: the fitness of all dots, accumulated front to back. */
  function ScoreSum(v: seq<Dot>): (s: int)
    ensures s >= 0
  {
    if |v| == 0 then 0 else ScoreSum(v[..|v| - 1]) + Fitness(v[|v| - 1])
  }

  /** cumulScoreSum once dot `k` has been added. */
  function Cum(v: seq<Dot>, k: nat): int
    requires k < |v|
  {
    ScoreSum(v[..k + 1])
  }

  lemma CumStep(v: seq<Dot>, k: nat)
    requires 0 < k < |v|
    ensures Cum(v, k) == Cum(v, k - 1) + Fitness(v[k])
  {
    assert v[..k + 1][..k] == v[..k];
  }

  lemma CumFirst(v: seq<Dot>)
    requires 0 < |v|
    ensures Cum(v, 0) == Fitness(v[0])
  {
    var w := v[..1];
    assert |w| == 1 && w[0] == v[0];
    assert w[..|w| - 1] == [];
    assert ScoreSum(w) == ScoreSum([]) + Fitness(w[0]);
  }

  lemma CumLast(v: seq<Dot>)
    requires 0 < |v|
    ensures Cum(v, |v| - 1) == ScoreSum(v)
  {
    assert v[..|v|] == v;
  }

  lemma CumAt(v: seq<Dot>, k: nat)
    requires k < |v|
    ensures Cum(v, k) == (if k == 0 then 0 else Cum(v, k - 1)) + Fitness(v[k])
  {
    if k == 0 { CumFirst(v); } else { CumStep(v, k); }
  }

  /** The running sum never decreases along the scan. */
  lemma {:induction false} CumMonotone(v: seq<Dot>, a: nat, b: nat)
    requires a <= b < |v|
    decreases b - a
    ensures Cum(v, a) <= Cum(v, b)
  {
    if a < b {
      CumStep(v, b);
      CumMonotone(v, a, b - 1);
    }
  }

  /**
   The scan from dot `i` on, with the running sum `cum` of the dots before it:
   move on while the sum including the current dot is below `target`.
   */
  function Pick(v: seq<Dot>, target: int, i: nat, cum: int): (r: nat)
    requires i <= |v|
    requires i == 0 ==> cum == 0
    requires 0 < i ==> cum == Cum(v, i - 1)
    requires forall k :: 0 <= k < i ==> Cum(v, k) < target
    decreases |v| - i
    ensures i <= r <= |v|
    ensures forall k :: 0 <= k < r ==> Cum(v, k) < target
    ensures r < |v| ==> target <= Cum(v, r)
  {
    if i == |v| then i
    else
      var next := cum + Fitness(v[i]);
      CumAt(v, i);
      if next < target then Pick(v, target, i + 1, next) else i
  }

  /**
   The parent chosen for `target`: the first dot whose running fitness sum
   reaches `target`. It always exists, and it has positive fitness unless
   `target` is 0, which always selects the first dot.
   */
  function ChooseParent(v: seq<Dot>, target: int): (r: nat)
    requires 0 <= target < ScoreSum(v)
    ensures r < |v|
    ensures target <= Cum(v, r)
    ensures forall k :: 0 <= k < r ==> Cum(v, k) < target
    ensures target > 0 ==> Fitness(v[r]) > 0
    ensures target == 0 ==> r == 0
  {
    var r := Pick(v, target, 0, 0);
    ScanStopsOnPositive(v, target, r);
    r
  }

  lemma ScanStopsOnPositive(v: seq<Dot>, target: int, r: nat)
    requires 0 <= target < ScoreSum(v) && r == Pick(v, target, 0, 0)
    ensures r < |v| && (target > 0 ==> Fitness(v[r]) > 0)
  {
    if r == |v| {
      CumLast(v);
      assert false;
    }
    if r == 0 {
      CumFirst(v);
    } else {
      CumStep(v, r);
    }
  }

  /** `target` falls in the slot of dot `i`: (Cum(i - 1), Cum(i)], or [0, Cum(0)] for i = 0. */
  predicate InSlot(v: seq<Dot>, target: int, i: nat)
    requires i < |v|
  {
    (i == 0 || Cum(v, i - 1) < target) && target <= Cum(v, i)
  }

  /**
   The targets that select dot `i` are exactly those in its slot. Since targets
   stop at scoreSum - 1, the first dot gets one target more than its fitness, the
   last dot with positive fitness one fewer, and every other dot its fitness.
   */
  lemma RouletteInterval(v: seq<Dot>, target: int, i: nat)
    requires 0 <= target < ScoreSum(v) && i < |v|
    ensures ChooseParent(v, target) == i <==> InSlot(v, target, i)
  {
    var r := ChooseParent(v, target);
    if r != i {
      SlotsDisjoint(v, target, r, i);
    }
  }

  /** No target lies in the slots of two different dots. */
  lemma SlotsDisjoint(v: seq<Dot>, target: int, r: nat, i: nat)
    requires r < |v| && i < |v| && r != i && InSlot(v, target, r)
    ensures !InSlot(v, target, i)
  {
    if r < i {
      CumMonotone(v, r, i - 1);
    } else {
      CumMonotone(v, i, r - 1);
    }
  }

  /** A dot of the next generation: alive at the start cell with a copy of `p`. */
  function Child(p: seq<Dir>): Dot {
    NewDot(Start, p)
  }

  /**
   The child loop: one child per `rand()` value, each a fresh dot carrying the
   path of the parent chosen for `rand() % scoreSum`.
   */
  function Reproduce(v: seq<Dot>, raws: seq<nat>): (r: seq<Dot>)
    requires ScoreSum(v) > 0
    ensures |r| == |raws|
    ensures forall k :: 0 <= k < |r| ==>
              && r[k].alive && r[k].pos == Start && r[k].mc == 0 && Wf(r[k])
              && r[k].path == v[ChooseParent(v, raws[k] % ScoreSum(v))].path
    ensures forall k :: 0 <= k < |r| ==>
              exists j :: 0 <= j < |v| && r[k].path == v[j].path
                          && (raws[k] % ScoreSum(v) > 0 ==> Fitness(v[j]) > 0)
  {
    if |raws| == 0 then []
    else
      var j := ChooseParent(v, raws[0] % ScoreSum(v));
      [Child(v[j].path)] + Reproduce(v, raws[1..])
  }

  /** The child loop as the source runs it: exactly NUM_DOTS children. */
  function NextGeneration(v: seq<Dot>, raws: seq<nat>): (r: seq<Dot>)
    requires ScoreSum(v) > 0 && |raws| == NumDots
    ensures |r| == NumDots
    ensures forall k :: 0 <= k < NumDots ==>
              && r[k].alive && r[k].pos == Start && r[k].mc == 0 && Wf(r[k])
              && exists j :: 0 <= j < |v| && r[k].path == v[j].path
                             && (raws[k] % ScoreSum(v) > 0 ==> Fitness(v[j]) > 0)
  {
    Reproduce(v, raws)
  }

  /** The children of a generation form a population ready to run. */
  lemma ChildrenReady(v: seq<Dot>, raws: seq<nat>, cells: seq<Location>)
    requires ScoreSum(v) > 0 && |raws| > 0 && Legal(Start, cells)
    ensures AllLegal(Reproduce(v, raws), cells)
    ensures !Done(Reproduce(v, raws))
  {
    var r := Reproduce(v, raws);
    assert Active(r[0]);
    DoneIffNoneActive(r);
  }

  lemma FitnessAtMost(d: Dot)
    requires Wf(d)
    ensures Fitness(d) <= 1500 * 1500
  {
    ScoreAtMost1500(d);
    SqBound(Score(d), 1500);
  }

  lemma {:induction false} ScoreSumBound(v: seq<Dot>)
    requires forall i :: 0 <= i < |v| ==> Wf(v[i])
    ensures ScoreSum(v) <= |v| * (1500 * 1500)
  {
    if |v| > 0 {
      FitnessAtMost(v[|v| - 1]);
      ScoreSumBound(v[..|v| - 1]);
    }
  }

  /**
   For a population of NUM_DOTS well-formed dots the fitness sum, and hence
   every running sum of the scan, fits in a 32-bit `int`.
   */
  lemma ScoreSumFitsInt(v: seq<Dot>)
    requires |v| <= NumDots && forall i :: 0 <= i < |v| ==> Wf(v[i])
    ensures ScoreSum(v) <= IntMax
    ensures forall k :: 0 <= k < |v| ==> 0 <= Cum(v, k) <= IntMax
  {
    ScoreSumBound(v);
    forall k | 0 <= k < |v|
      ensures Cum(v, k) <= ScoreSum(v)
    {
      CumMonotone(v, k, |v| - 1);
      CumLast(v);
    }
  }

  /** The fitness sum is zero exactly when every dot has zero fitness. */
  lemma {:induction false} ZeroScoreSum(v: seq<Dot>)
    ensures ScoreSum(v) == 0 <==> forall i :: 0 <= i < |v| ==> Fitness(v[i]) == 0
  {
    if |v| > 0 {
      var w := v[..|v| - 1];
      ZeroScoreSum(w);
      assert forall i :: 0 <= i < |w| ==> w[i] == v[i];
    }
  }

  /** A fresh dot whose first move goes up dies at the start cell with score 0. */
  lemma FirstMoveUpDies(cells: seq<Location>)
    ensures MovePath(NewDot(Start, []), Draw(Up, false), cells) == Dot(Start, false, 1, [Up])
    ensures Score(Dot(Start, false, 1, [Up])) == 0
  {
    assert !InBounds(Shift(Start, Up));
    NonWinnerScore(Dot(Start, false, 1, [Up]));
  }

  /**
   A reachable population with zero fitness sum: every first-generation dot
   first tries to move up, dies at the start cell and scores 0. The child
   loop then computes `rand() % 0`.
   */
  lemma ZeroScoreSumReachable(n: nat, cells: seq<Location>)
    ensures var w := MovePathAll(InitialPopulation(n), seq(n, _ => Draw(Up, false)), cells);
            Done(w) && ScoreSum(w) == 0
  {
    var v := InitialPopulation(n);
    var draws := seq(n, _ => Draw(Up, false));
    var w := MovePathAll(v, draws, cells);
    var dead := Dot(Start, false, 1, [Up]);
    forall i | 0 <= i < n
      ensures w[i] == dead
    {
      assert v[i] == NewDot(Start, []) && draws[i] == Draw(Up, false);
      FirstMoveUpDies(cells);
    }
    assert Score(dead) == 0 by {
      FirstMoveUpDies(cells);
    }
    DoneIffNoneActive(w);
    ZeroScoreSum(w);
  }
}
