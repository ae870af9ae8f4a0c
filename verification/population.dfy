/**
 The ordered collection of dots (the source's `Set`): batch moves and the
 best-dot fold. A population step draws one random input per dot.
 */
module Population {
  import opened Grid
  import opened Dots

  /** movePathAll: every dot takes one path-following move with its own draw. */
  function MovePathAll(v: seq<Dot>, draws: seq<Draw>, cells: seq<Location>): (r: seq<Dot>)
    requires |draws| == |v|
    ensures |r| == |v|
    ensures forall i :: 0 <= i < |v| ==> r[i] == MovePath(v[i], draws[i], cells)
  {
    if |v| == 0 then []
    else [MovePath(v[0], draws[0], cells)] + MovePathAll(v[1..], draws[1..], cells)
  }

  /** moveRandAll: every dot takes one random move with its own direction. */
  function MoveRandAll(v: seq<Dot>, dirs: seq<Dir>, cells: seq<Location>): (r: seq<Dot>)
    requires |dirs| == |v|
    ensures |r| == |v|
    ensures forall i :: 0 <= i < |v| ==> r[i] == MoveRand(v[i], dirs[i], cells)
  {
    if |v| == 0 then []
    else [MoveRand(v[0], dirs[0], cells)] + MoveRandAll(v[1..], dirs[1..], cells)
  }

  /** Every dot of the population is well formed and on a legal cell. */
  predicate AllLegal(v: seq<Dot>, cells: seq<Location>) {
    forall i :: 0 <= i < |v| ==> Wf(v[i]) && Legal(v[i].pos, cells)
  }

  lemma MovePathAllKeepsLegal(v: seq<Dot>, draws: seq<Draw>, cells: seq<Location>)
    requires |draws| == |v|
    ensures AllLegal(v, cells) ==> AllLegal(MovePathAll(v, draws, cells), cells)
  {
    var r := MovePathAll(v, draws, cells);
    if AllLegal(v, cells) {
      forall i | 0 <= i < |v|
        ensures Wf(r[i]) && Legal(r[i].pos, cells)
      {
        MovePathKeepsLegal(v[i], draws[i], cells);
      }
    }
  }

  /**
   The test `score(i)/score(best)` lies in [1/threshold, threshold] with
   threshold 1.0. With integer scores the quotient is exactly 1 iff the scores
   are equal; a zero divisor yields infinity or NaN, which fails the test.
   */
  predicate Tie(s: int, best: int) {
    best != 0 && s == best
  }

  /**
   Every dot with index in [lo, hi) scores at most as much as dot `best` and,
   on a tie, has made at least as many moves.
   */
  predicate Dominates(v: seq<Dot>, best: nat, lo: int, hi: int)
    requires best < |v| && 0 <= lo && hi <= |v|
  {
    forall j :: lo <= j < hi ==>
      Score(v[j]) <= Score(v[best]) && (Tie(Score(v[j]), Score(v[best])) ==> v[best].mc <= v[j].mc)
  }

  /**
   The fold of bestDot from index `i` on, with running `high` score and current
   `best` index.
   */
  function BestFrom(v: seq<Dot>, i: nat, high: int, best: nat): (r: nat)
    requires i <= |v| && best < |v| && (best < i || best == 0)
    requires high == Score(v[best]) || (best == 0 && high == 0)
    requires Dominates(v, best, best + 1, i)
    decreases |v| - i
    ensures best <= r < |v|
    ensures Dominates(v, r, r + 1, |v|)
    ensures (forall j :: i <= j < |v| ==> Score(v[j]) == 0) && high == 0 ==> r == best
  {
    if i == |v| then best
    else
      var s := Score(v[i]);
      if Tie(s, Score(v[best])) then
        if v[i].mc < v[best].mc then BestFrom(v, i + 1, s, i)
        else BestFrom(v, i + 1, high, best)
      else if s > high then BestFrom(v, i + 1, s, i)
      else BestFrom(v, i + 1, high, best)
  }

  /**
   bestDot as written: `highScore` starts at 0 rather than at the first dot's
   score, so the result need not be a maximum. It scores at least as much as
   every later dot, and a later dot with the same nonzero score has made at
   least as many moves.
   */
  function BestDot(v: seq<Dot>): (r: nat)
    ensures |v| > 0 ==> r < |v|
    ensures |v| == 0 ==> r == 0
    ensures forall j :: r < j < |v| ==> Score(v[j]) <= Score(v[r])
    ensures forall j :: r < j < |v| && Tie(Score(v[j]), Score(v[r])) ==> v[j].mc >= v[r].mc
    ensures (forall j :: 0 <= j < |v| ==> Score(v[j]) == 0) ==> r == 0
  {
    if |v| == 0 then 0 else BestFrom(v, 0, 0, 0)
  }

  /**
   Of two dots with the same nonzero score, bestDot picks the second exactly
   when it has made strictly fewer moves.
   */
  lemma TieKeepsFewerMoves(a: Dot, b: Dot)
    requires Score(a) == Score(b) && Score(a) != 0
    ensures BestDot([a, b]) == 1 <==> b.mc < a.mc
  {
    var v := [a, b];
    assert BestFrom(v, 0, 0, 0) == BestFrom(v, 1, 0, 0);
    if b.mc < a.mc {
      assert BestFrom(v, 1, 0, 0) == BestFrom(v, 2, Score(b), 1);
    } else {
      assert BestFrom(v, 1, 0, 0) == BestFrom(v, 2, 0, 0);
    }
  }

  /** Two dots off the goal on row 0, scoring 5 and 3 (cells (9, 0) and (7, 0)). */
  function FiveThenThree(): seq<Dot> {
    [NewDot(Location(9, 0), []), NewDot(Location(7, 0), [])]
  }

  /** bestDot as written picks the second dot although the first scores higher. */
  lemma BestDotMissesMaximum()
    ensures Score(FiveThenThree()[0]) == 5 && Score(FiveThenThree()[1]) == 3
    ensures BestDot(FiveThenThree()) == 1
  {
    var v := FiveThenThree();
    assert Score(v[0]) == 5;
    assert Score(v[1]) == 3;
    assert BestFrom(v, 2, 3, 1) == 1;
    assert BestFrom(v, 1, 0, 0) == BestFrom(v, 2, 3, 1);
    assert BestFrom(v, 0, 0, 0) == BestFrom(v, 1, 0, 0);
  }

  lemma DominatesShrink(v: seq<Dot>, best: nat, lo: int, lo': int, hi: int)
    requires best < |v| && 0 <= lo <= lo' && hi <= |v|
    requires Dominates(v, best, lo, hi)
    ensures Dominates(v, best, lo', hi)
  {
  }

  /** The fold keeps `best` at index `i`: the invariant grows by one index. */
  lemma DominatesKeep(v: seq<Dot>, best: nat, i: nat)
    requires best < |v| && i < |v| && Dominates(v, best, 0, i)
    requires Score(v[i]) <= Score(v[best])
    requires Tie(Score(v[i]), Score(v[best])) ==> v[best].mc <= v[i].mc
    ensures Dominates(v, best, 0, i + 1)
  {
  }

  /** The fold moves `best` to index `i`, which dominates everything before it. */
  lemma DominatesSwitch(v: seq<Dot>, best: nat, i: nat)
    requires best < |v| && i < |v| && Dominates(v, best, 0, i)
    requires Score(v[i]) > Score(v[best]) || (Tie(Score(v[i]), Score(v[best])) && v[i].mc < v[best].mc)
    ensures Dominates(v, i, 0, i + 1)
  {
  }

  /**
   The fold started with `high` equal to the current best's score keeps the
   maximum, and among maximal nonzero scores the smallest move count.
   */
  lemma {:induction false} BestFromMaximum(v: seq<Dot>, i: nat, best: nat)
    requires i <= |v| && best < |v| && (best < i || best == 0)
    requires Dominates(v, best, 0, i)
    decreases |v| - i
    ensures Dominates(v, BestFrom(v, i, Score(v[best]), best), 0, |v|)
  {
    DominatesShrink(v, best, 0, best + 1, i);
    if i < |v| {
      var s, sb := Score(v[i]), Score(v[best]);
      if (Tie(s, sb) && v[i].mc < v[best].mc) || (!Tie(s, sb) && s > sb) {
        assert BestFrom(v, i, sb, best) == BestFrom(v, i + 1, s, i);
        DominatesSwitch(v, best, i);
        BestFromMaximum(v, i + 1, i);
      } else {
        assert BestFrom(v, i, sb, best) == BestFrom(v, i + 1, sb, best);
        DominatesKeep(v, best, i);
        BestFromMaximum(v, i + 1, best);
      }
    }
  }

  /**
   bestDot with `highScore` initialised to the first dot's score: the result
   has the highest score, and no dot with the same nonzero score has fewer moves.
   */
  function BestDotFixed(v: seq<Dot>): (r: nat)
    ensures |v| > 0 ==> r < |v|
    ensures forall j :: 0 <= j < |v| ==> Score(v[j]) <= Score(v[r])
    ensures forall j :: 0 <= j < |v| && Tie(Score(v[j]), Score(v[r])) ==> v[r].mc <= v[j].mc
  {
    if |v| == 0 then 0
    else
      BestFromMaximum(v, 0, 0);
      BestFrom(v, 0, Score(v[0]), 0)
  }
}
