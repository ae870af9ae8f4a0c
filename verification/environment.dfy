/**
 One generation (the source's `Environment`): the population is stepped with
 movePathAll until `done` holds. The per-tick draws are parameters.
 */
module Environment {
  import opened Grid
  import opened Dots
  import opened Population

  /** The scan of dotsLeft from index `i` on. */
  function AliveFrom(v: seq<Dot>, i: nat): (r: bool)
    requires i <= |v|
    decreases |v| - i
    ensures r <==> exists j :: i <= j < |v| && v[j].alive
  {
    if i == |v| then false
    else if v[i].alive then true
    else AliveFrom(v, i + 1)
  }

  /** dotsLeft: some dot is still alive. */
  function DotsLeft(v: seq<Dot>): (r: bool)
    ensures r <==> exists j :: 0 <= j < |v| && v[j].alive
  {
    AliveFrom(v, 0)
  }

  /** The second scan of done from index `i` on: no remaining dot can move. */
  function NoneActiveFrom(v: seq<Dot>, i: nat): (r: bool)
    requires i <= |v|
    decreases |v| - i
    ensures r <==> forall j :: i <= j < |v| ==> !Active(v[j])
  {
    if i == |v| then true
    else if v[i].alive && v[i].mc < Lifespan && !HasWon(v[i]) then false
    else NoneActiveFrom(v, i + 1)
  }

  /**
   done: all dots are dead, or every living dot has used its lifespan or
   reached the goal.
   */
  predicate Done(v: seq<Dot>)
    ensures Done(v) ==> forall j :: 0 <= j < |v| ==> !Active(v[j])
  {
    if !DotsLeft(v) then true else NoneActiveFrom(v, 0)
  }

  /** A generation is done exactly when no dot can move any more. */
  lemma DoneIffNoneActive(v: seq<Dot>)
    ensures Done(v) <==> forall j :: 0 <= j < |v| ==> !Active(v[j])
  {
    if !DotsLeft(v) {
      assert forall j :: 0 <= j < |v| ==> !v[j].alive;
    }
  }

  /** Environment::hasWon: some dot stands on the goal. */
  function AnyWon(v: seq<Dot>): (r: bool)
    ensures r <==> exists j :: 0 <= j < |v| && HasWon(v[j])
  {
    WonFrom(v, 0)
  }

  function WonFrom(v: seq<Dot>, i: nat): (r: bool)
    requires i <= |v|
    decreases |v| - i
    ensures r <==> exists j :: i <= j < |v| && HasWon(v[j])
  {
    if i == |v| then false
    else if HasWon(v[i]) then true
    else WonFrom(v, i + 1)
  }

  /** Once a generation is done a further tick changes nothing. */
  lemma DoneIsFixpoint(v: seq<Dot>, draws: seq<Draw>, cells: seq<Location>)
    requires |draws| == |v| && Done(v)
    ensures MovePathAll(v, draws, cells) == v
  {
    DoneIffNoneActive(v);
    var r := MovePathAll(v, draws, cells);
    assert forall i :: 0 <= i < |v| ==> r[i] == v[i];
  }

  /** After `t` ticks every dot has stopped or has made at least `t` moves. */
  predicate Progressed(v: seq<Dot>, t: int) {
    forall j :: 0 <= j < |v| ==> !Active(v[j]) || v[j].mc >= t
  }

  lemma TickProgresses(v: seq<Dot>, draws: seq<Draw>, cells: seq<Location>, t: int)
    requires |draws| == |v| && Progressed(v, t)
    ensures Progressed(MovePathAll(v, draws, cells), t + 1)
  {
  }

  /** One row of draws per tick, one draw per dot in each row. */
  predicate TicksFit(ticks: seq<seq<Draw>>, n: nat) {
    forall k :: 0 <= k < |ticks| ==> |ticks[k]| == n
  }

  /**
   The generation loop: while not done, tick once with the next row of draws.
   Running out of draws stands for the caller stopping early.
   */
  function RunGeneration(v: seq<Dot>, ticks: seq<seq<Draw>>, cells: seq<Location>): (r: seq<Dot>)
    requires TicksFit(ticks, |v|)
    decreases |ticks|
    ensures |r| == |v|
  {
    if Done(v) || |ticks| == 0 then v
    else RunGeneration(MovePathAll(v, ticks[0], cells), ticks[1..], cells)
  }

  /** A generation keeps every dot well formed and on a legal cell. */
  lemma {:induction false} RunGenerationKeepsLegal(v: seq<Dot>, ticks: seq<seq<Draw>>, cells: seq<Location>)
    requires TicksFit(ticks, |v|) && AllLegal(v, cells)
    decreases |ticks|
    ensures AllLegal(RunGeneration(v, ticks, cells), cells)
  {
    if !Done(v) && |ticks| > 0 {
      var w := MovePathAll(v, ticks[0], cells);
      MovePathAllKeepsLegal(v, ticks[0], cells);
      RunGenerationKeepsLegal(w, ticks[1..], cells);
    }
  }

  lemma {:induction false} RunProgresses(v: seq<Dot>, ticks: seq<seq<Draw>>, cells: seq<Location>, t: int)
    requires TicksFit(ticks, |v|)
    requires Progressed(v, t) && t + |ticks| >= Lifespan
    decreases |ticks|
    ensures Done(RunGeneration(v, ticks, cells))
  {
    if |ticks| == 0 {
      DoneIffNoneActive(v);
    } else if !Done(v) {
      var w := MovePathAll(v, ticks[0], cells);
      TickProgresses(v, ticks[0], cells, t);
      assert RunGeneration(v, ticks, cells) == RunGeneration(w, ticks[1..], cells);
      RunProgresses(w, ticks[1..], cells, t + 1);
    }
  }

  /** Any population is done after at most LIFESPAN ticks. */
  lemma GenerationEndsWithinLifespan(v: seq<Dot>, ticks: seq<seq<Draw>>, cells: seq<Location>)
    requires TicksFit(ticks, |v|)
    requires |ticks| >= Lifespan
    ensures Done(RunGeneration(v, ticks, cells))
  {
    RunProgresses(v, ticks, cells, 0);
  }

  /** The first population: `n` dots at the start cell with empty paths. */
  function InitialPopulation(n: nat): (r: seq<Dot>)
    ensures |r| == n
    ensures forall i :: 0 <= i < n ==> r[i].alive && r[i].pos == Start && r[i].mc == 0 && r[i].path == []
    ensures forall cells :: Legal(Start, cells) ==> AllLegal(r, cells)
    ensures n > 0 ==> !Done(r)
  {
    var r := seq(n, _ => NewDot(Start, []));
    DoneIffNoneActive(r);
    assert n > 0 ==> Active(r[0]);
    r
  }
}
