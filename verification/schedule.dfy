/** Round-level interleavings of the workers of `main`. The threads run
    concurrently and the semaphore only orders their additions into Y_avgs,
    so the rounds of different workers can come in any order; the rounds of
    one worker come in its own order 0, 1, 2, ... A schedule lists, step by
    step, the worker whose next round runs. The main result is that every
    schedule that gives each worker all its rounds ends in the same state as
    the whole runs composed one after another (`Engine.RunAll`). */
module Schedule {
  import opened Worker
  import opened Engine
  import opened Partitioner

  /** done[k] is the number of rounds worker k has finished. */
  predicate Progress(cfg: Config, ss: seq<Span>, done: seq<nat>) {
    |done| == |ss| && forall k :: 0 <= k < |done| ==> done[k] <= Iters(cfg)
  }

  /** Runs the schedule from the state st with the progress done. An entry
      naming a worker that does not exist or has finished its rounds does
      nothing. The result is the final state and the final progress. */
  function Interleave(cfg: Config, ss: seq<Span>, sched: seq<nat>, st: State, done: seq<nat>): (res: (State, seq<nat>))
    requires Valid(cfg, st) && AllFit(ss, cfg.p) && Progress(cfg, ss, done)
    ensures Valid(cfg, res.0) && |res.0.avgs| == |st.avgs| && Progress(cfg, ss, res.1)
    decreases |sched|
  {
    if |sched| == 0 then (st, done)
    else
      var k := sched[0];
      if k < |ss| && done[k] < Iters(cfg) then
        Interleave(cfg, ss, sched[1..], Round(cfg, ss[k], st, done[k]), done[k := done[k] + 1])
      else
        Interleave(cfg, ss, sched[1..], st, done)
  }

  /** How many updates element i has received: the rounds finished by the
      workers whose interval holds i. */
  function Updates(ss: seq<Span>, done: seq<nat>, i: int): nat
    requires |done| == |ss|
    decreases |ss|
  {
    if |ss| == 0 then 0
    else (if Covers(ss[0], i) then done[0] else 0) + Updates(ss[1..], done[1..], i)
  }

  /** What the workers have added to slot q so far: the round-q contribution
      of every worker that has finished round q, each counted from y0. */
  function Contributed(cfg: Config, y0: seq<real>, ss: seq<Span>, done: seq<nat>, q: nat): real
    requires 0 < cfg.p && |y0| == |cfg.x| == cfg.p && AllFit(ss, cfg.p) && |done| == |ss|
    decreases |ss|
  {
    if |ss| == 0 then 0.0
    else
      (if q < done[0] then Contribution(cfg, y0, ss[0], q) else 0.0)
      + Contributed(cfg, y0, ss[1..], done[1..], q)
  }

  /** The state that the progress done determines, whatever the order of
      the rounds that led there. */
  predicate Reached(cfg: Config, ss: seq<Span>, st0: State, done: seq<nat>, st: State)
    requires Valid(cfg, st0) && AllFit(ss, cfg.p) && |done| == |ss|
  {
    && |st.y| == |st0.y|
    && |st.avgs| == |st0.avgs|
    && (forall i :: 0 <= i < |st.y| ==> st.y[i] == st0.y[i] + Gain(cfg, i, Updates(ss, done, i)))
    && (forall q :: 0 <= q < |st.avgs| ==> st.avgs[q] == st0.avgs[q] + Contributed(cfg, st0.y, ss, done, q))
  }

  /** One more round of worker k is one more update of the elements of its
      interval and of no other element. */
  lemma {:induction false} UpdatesStep(ss: seq<Span>, done: seq<nat>, k: int, i: int)
    requires |done| == |ss| && 0 <= k < |ss|
    ensures Updates(ss, done[k := done[k] + 1], i) == Updates(ss, done, i) + (if Covers(ss[k], i) then 1 else 0)
    decreases |ss|
  {
    var done' := done[k := done[k] + 1];
    if k > 0 {
      assert done'[1..] == done[1..][k - 1 := done[k] + 1];
      UpdatesStep(ss[1..], done[1..], k - 1, i);
    } else {
      assert done'[1..] == done[1..];
    }
  }

  /** With pairwise disjoint intervals, an element of worker k's interval
      has received exactly worker k's rounds. */
  lemma {:induction false} UpdatesInOwnInterval(ss: seq<Span>, done: seq<nat>, k: int, i: int)
    requires |done| == |ss| && PairwiseDisjoint(ss) && 0 <= k < |ss| && Covers(ss[k], i)
    ensures Updates(ss, done, i) == done[k]
    decreases |ss|
  {
    if k == 0 {
      UpdatesOutside(ss[1..], done[1..], i) by {
        forall l | 0 <= l < |ss[1..]|
          ensures !Covers(ss[1..][l], i)
        {
          assert Disjoint(ss[0], ss[l + 1]);
        }
      }
    } else {
      assert Disjoint(ss[0], ss[k]);
      TailDisjoint(ss);
      UpdatesInOwnInterval(ss[1..], done[1..], k - 1, i);
    }
  }

  /** An element no worker's interval holds has received no update. */
  lemma {:induction false} UpdatesOutside(ss: seq<Span>, done: seq<nat>, i: int)
    requires |done| == |ss| && forall l :: 0 <= l < |ss| ==> !Covers(ss[l], i)
    ensures Updates(ss, done, i) == 0
    decreases |ss|
  {
    if |ss| > 0 {
      UpdatesOutside(ss[1..], done[1..], i);
    }
  }

  /** Finishing round done[k] of worker k adds that round's contribution to
      slot done[k] and nothing to any other slot. */
  lemma {:induction false} ContributedStep(cfg: Config, y0: seq<real>, ss: seq<Span>, done: seq<nat>, k: int, q: nat)
    requires 0 < cfg.p && |y0| == |cfg.x| == cfg.p && AllFit(ss, cfg.p) && |done| == |ss| && 0 <= k < |ss|
    ensures Contributed(cfg, y0, ss, done[k := done[k] + 1], q) ==
            Contributed(cfg, y0, ss, done, q) + (if q == done[k] then Contribution(cfg, y0, ss[k], q) else 0.0)
    decreases |ss|
  {
    var done' := done[k := done[k] + 1];
    if k > 0 {
      assert done'[1..] == done[1..][k - 1 := done[k] + 1];
      ContributedStep(cfg, y0, ss[1..], done[1..], k - 1, q);
    } else {
      assert done'[1..] == done[1..];
    }
  }

  /** The next round of worker k, run from a reached state, sums exactly
      the values its round done[k] sums when counted from y0. */
  lemma RoundSumFromReached(cfg: Config, ss: seq<Span>, st0: State, done: seq<nat>, st: State, k: int)
    requires Valid(cfg, st0) && AllFit(ss, cfg.p) && PairwiseDisjoint(ss) && Progress(cfg, ss, done)
    requires Reached(cfg, ss, st0, done, st) && 0 <= k < |ss|
    ensures Fits(ss[k], cfg.p)
    ensures SumRange(Advance(cfg, st.y, ss[k], 1), ss[k].lo, ss[k].hi) / (cfg.p as real) ==
            Contribution(cfg, st0.y, ss[k], done[k])
  {
    var s := ss[k];
    assert Fits(s, cfg.p);
    var u, v := Advance(cfg, st.y, s, 1), Advance(cfg, st0.y, s, done[k] + 1);
    forall j | s.lo <= j < s.hi
      ensures u[j] == v[j]
    {
      UpdatesInOwnInterval(ss, done, k, j);
      GainAdd(cfg, j, done[k], 1);
    }
    SumRangeFrame(u, v, s.lo, s.hi);
  }

  /** Running worker k's next round from a reached state reaches the state
      of the progress with that round counted. */
  lemma ReachedStep(cfg: Config, ss: seq<Span>, st0: State, done: seq<nat>, st: State, k: int)
    requires Valid(cfg, st0) && Valid(cfg, st) && AllFit(ss, cfg.p) && PairwiseDisjoint(ss) && Progress(cfg, ss, done)
    requires Reached(cfg, ss, st0, done, st) && 0 <= k < |ss| && done[k] < Iters(cfg)
    ensures Reached(cfg, ss, st0, done[k := done[k] + 1], Round(cfg, ss[k], st, done[k]))
  {
    var s, r := ss[k], done[k];
    var done' := done[k := r + 1];
    var st' := Round(cfg, s, st, r);
    RoundEffect(cfg, s, st, r);
    RoundSumFromReached(cfg, ss, st0, done, st, k);
    forall i | 0 <= i < |st'.y|
      ensures st'.y[i] == st0.y[i] + Gain(cfg, i, Updates(ss, done', i))
    {
      UpdatesStep(ss, done, k, i);
      GainAdd(cfg, i, Updates(ss, done, i), 1);
    }
    forall q | 0 <= q < |st'.avgs|
      ensures st'.avgs[q] == st0.avgs[q] + Contributed(cfg, st0.y, ss, done', q)
    {
      ContributedStep(cfg, st0.y, ss, done, k, q);
    }
  }

  /** Whatever the order of the rounds, the state a schedule reaches is the
      one its final progress determines. */
  lemma {:induction false} InterleaveReached(cfg: Config, ss: seq<Span>, sched: seq<nat>, st0: State, st: State, done: seq<nat>)
    requires Valid(cfg, st0) && Valid(cfg, st) && AllFit(ss, cfg.p) && PairwiseDisjoint(ss) && Progress(cfg, ss, done)
    requires Reached(cfg, ss, st0, done, st)
    ensures Reached(cfg, ss, st0, Interleave(cfg, ss, sched, st, done).1, Interleave(cfg, ss, sched, st, done).0)
    decreases |sched|
  {
    if |sched| > 0 {
      var k := sched[0];
      if k < |ss| && done[k] < Iters(cfg) {
        ReachedStep(cfg, ss, st0, done, st, k);
        InterleaveReached(cfg, ss, sched[1..], st0, Round(cfg, ss[k], st, done[k]), done[k := done[k] + 1]);
      } else {
        InterleaveReached(cfg, ss, sched[1..], st0, st, done);
      }
    }
  }

  /** A schedule that names worker k at least m more times gives it m more
      rounds, up to its total. */
  lemma {:induction false} InterleaveProgress(cfg: Config, ss: seq<Span>, sched: seq<nat>, st: State, done: seq<nat>)
    requires Valid(cfg, st) && AllFit(ss, cfg.p) && Progress(cfg, ss, done)
    ensures forall k :: 0 <= k < |ss| ==>
              Interleave(cfg, ss, sched, st, done).1[k] == Min(Iters(cfg), done[k] + multiset(sched)[k])
    decreases |sched|
  {
    var res := Interleave(cfg, ss, sched, st, done);
    if |sched| > 0 {
      var k0 := sched[0];
      assert sched == [k0] + sched[1..];
      assert multiset(sched) == multiset{k0} + multiset(sched[1..]);
      if k0 < |ss| && done[k0] < Iters(cfg) {
        InterleaveProgress(cfg, ss, sched[1..], Round(cfg, ss[k0], st, done[k0]), done[k0 := done[k0] + 1]);
      } else {
        InterleaveProgress(cfg, ss, sched[1..], st, done);
      }
    }
  }

  /** With every worker at its last round, each element of some interval
      has received all the rounds and every other element none. */
  lemma UpdatesWhenFinished(ss: seq<Span>, done: seq<nat>, n: nat, i: int)
    requires |done| == |ss| && PairwiseDisjoint(ss) && forall k :: 0 <= k < |ss| ==> done[k] == n
    ensures Updates(ss, done, i) == if AnyCovers(ss, i) then n else 0
  {
    if AnyCovers(ss, i) {
      var k :| 0 <= k < |ss| && Covers(ss[k], i);
      UpdatesInOwnInterval(ss, done, k, i);
    } else {
      UpdatesOutside(ss, done, i);
    }
  }

  /** With every worker at its last round, slot q holds one contribution
      per worker for every round there is and nothing otherwise. */
  lemma {:induction false} ContributedWhenFinished(cfg: Config, y0: seq<real>, ss: seq<Span>, done: seq<nat>, q: nat)
    requires 0 < cfg.p && |y0| == |cfg.x| == cfg.p && AllFit(ss, cfg.p) && |done| == |ss|
    requires forall k :: 0 <= k < |ss| ==> done[k] == Iters(cfg)
    ensures Contributed(cfg, y0, ss, done, q) ==
            if q < Iters(cfg) then TotalContribution(cfg, y0, ss, q) else 0.0
    decreases |ss|
  {
    if |ss| > 0 {
      ContributedWhenFinished(cfg, y0, ss[1..], done[1..], q);
    }
  }

  /** Every round-level schedule that names each worker at least max_iters
      times, started with no rounds done, ends in the same state as the whole
      worker runs composed one after another: the interleavings the threads
      and the semaphore allow do not change the result in exact arithmetic. */
  lemma InterleaveMatchesRunAll(cfg: Config, ss: seq<Span>, sched: seq<nat>, st: State)
    requires Valid(cfg, st) && AllFit(ss, cfg.p) && PairwiseDisjoint(ss)
    requires forall k :: 0 <= k < |ss| ==> multiset(sched)[k] >= Iters(cfg)
    ensures Interleave(cfg, ss, sched, st, seq(|ss|, _ => 0)).0 == RunAll(cfg, ss, st)
  {
    var zero: seq<nat> := seq(|ss|, _ => 0);
    forall i | 0 <= i < |st.y|
      ensures Updates(ss, zero, i) == 0
    {
      UpdatesWhenFinished(ss, zero, 0, i);
    }
    forall q: nat
      ensures Contributed(cfg, st.y, ss, zero, q) == 0.0
    {
      ContributedNone(cfg, st.y, ss, zero, q);
    }
    InterleaveReached(cfg, ss, sched, st, st, zero);
    InterleaveProgress(cfg, ss, sched, st, zero);
    var res := Interleave(cfg, ss, sched, st, zero);
    var all := RunAll(cfg, ss, st);
    RunAllY(cfg, ss, st);
    RunAllAvgs(cfg, ss, st);
    forall i | 0 <= i < |all.y|
      ensures res.0.y[i] == all.y[i]
    {
      UpdatesWhenFinished(ss, res.1, Iters(cfg), i);
    }
    forall q | 0 <= q < |all.avgs|
      ensures res.0.avgs[q] == all.avgs[q]
    {
      ContributedWhenFinished(cfg, st.y, ss, res.1, q);
    }
  }

  /** With no round done, nothing has been contributed. */
  lemma {:induction false} ContributedNone(cfg: Config, y0: seq<real>, ss: seq<Span>, done: seq<nat>, q: nat)
    requires 0 < cfg.p && |y0| == |cfg.x| == cfg.p && AllFit(ss, cfg.p) && |done| == |ss|
    requires forall k :: 0 <= k < |ss| ==> done[k] == 0
    ensures Contributed(cfg, y0, ss, done, q) == 0.0
    decreases |ss|
  {
    if |ss| > 0 {
      ContributedNone(cfg, y0, ss[1..], done[1..], q);
    }
  }
}
