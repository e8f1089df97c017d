/** One worker of the iterative SAXPY program (`funcionSaxpy`): for each of
    `max_iters` rounds it updates Y[j] += a * X[j] over its index interval,
    sums the updated values, and adds that sum divided by p into the round's
    slot of Y_avgs.

    Doubles are modelled by exact reals. The semaphore around the Y_avgs
    update is modelled as a plain addition: the engine composes whole worker
    runs one after another, and the schedule module interleaves whole
    rounds. */
module Worker {

  /** What every worker reads and never writes: X, a, the vector size p and
      the iteration count max_iters. */
  datatype Config = Config(x: seq<real>, a: real, p: int, maxIters: int)

  /** What the workers write: Y and the per-round averages Y_avgs. */
  datatype State = State(y: seq<real>, avgs: seq<real>)

  /** The half-open interval [lo, hi) the worker's inner loop visits:
      `for (segundo = ini; segundo < end; segundo++)`. */
  datatype Span = Span(lo: int, hi: int)

  predicate Covers(s: Span, i: int) {
    s.lo <= i < s.hi
  }

  /** Every index the inner loop visits is a valid index of a vector of
      length p (an interval with hi <= lo visits nothing). */
  predicate Fits(s: Span, p: int) {
    s.hi <= s.lo || (0 <= s.lo && s.hi <= p)
  }

  /** No index is visited by both intervals. */
  predicate Disjoint(s: Span, t: Span) {
    s.hi <= s.lo || t.hi <= t.lo || s.hi <= t.lo || t.hi <= s.lo
  }

  /** X and Y have p elements and Y_avgs has a slot for every round. */
  predicate Valid(cfg: Config, st: State) {
    && 0 < cfg.p
    && |cfg.x| == cfg.p
    && |st.y| == cfg.p
    && cfg.maxIters <= |st.avgs|
  }

  /** Number of rounds the loop `primero < max_iters` runs. */
  function Iters(cfg: Config): nat {
    if cfg.maxIters < 0 then 0 else cfg.maxIters
  }

  /** What k updates add to element i: k * a * X[i]. */
  function Gain(cfg: Config, i: int, k: int): (g: real)
    requires 0 <= i < |cfg.x|
  {
    (k as real) * cfg.a * cfg.x[i]
  }

  /** k updates followed by m updates add what k + m updates add. */
  lemma GainAdd(cfg: Config, i: int, k: int, m: int)
    requires 0 <= i < |cfg.x|
    ensures Gain(cfg, i, k) + Gain(cfg, i, m) == Gain(cfg, i, k + m)
  {
    assert (k as real) * cfg.a + (m as real) * cfg.a == ((k + m) as real) * cfg.a;
  }

  /** At least one update of an element with a * X[i] != 0 changes it. */
  lemma GainNonZero(cfg: Config, i: int, k: int)
    requires 0 <= i < |cfg.x| && 1 <= k && cfg.a * cfg.x[i] != 0.0
    ensures Gain(cfg, i, k) != 0.0
  {
    assert (k as real) * (cfg.a * cfg.x[i]) != 0.0;
  }

  /** Sum of s[lo], ..., s[hi - 1]. */
  function SumRange(s: seq<real>, lo: int, hi: int): real
    requires hi <= lo || (0 <= lo && hi <= |s|)
    decreases hi - lo
  {
    if hi <= lo then 0.0 else s[lo] + SumRange(s, lo + 1, hi)
  }

  /** Reference definition: Y after k complete updates of the interval s,
      where every visited element has gained k * a * X[i] and every other
      element is unchanged. */
  function Advance(cfg: Config, y: seq<real>, s: Span, k: nat): (y': seq<real>)
    requires |y| == |cfg.x|
    ensures |y'| == |y|
  {
    seq(|y|, i requires 0 <= i < |y| =>
      if Covers(s, i) then y[i] + Gain(cfg, i, k) else y[i])
  }

  /** Reference definition: what a worker on interval s adds to Y_avgs[q]
      when it starts from Y = y: the sum, over its interval, of Y just after
      the update of round q, divided by p. */
  function Contribution(cfg: Config, y: seq<real>, s: Span, q: nat): real
    requires 0 < cfg.p && |y| == |cfg.x| == cfg.p && Fits(s, cfg.p)
  {
    SumRange(Advance(cfg, y, s, q + 1), s.lo, s.hi) / (cfg.p as real)
  }

  /** `Y[segundo] + a * X[segundo]`: the new value of one element in one
      round. */
  function Bumped(cfg: Config, y: seq<real>, j: int): (v: real)
    requires 0 <= j < |y| == |cfg.x|
  {
    y[j] + cfg.a * cfg.x[j]
  }

  /** The inner loop of one round, continued from index j up to hi with the
      running `total`. */
  function Sweep(cfg: Config, y: seq<real>, j: int, hi: int, total: real): (res: (seq<real>, real))
    requires |y| == |cfg.x|
    requires hi <= j || (0 <= j && hi <= |y|)
    ensures |res.0| == |y|
    decreases hi - j
  {
    if hi <= j then (y, total)
    else
      var y' := y[j := Bumped(cfg, y, j)];
      Sweep(cfg, y', j + 1, hi, total + y'[j])
  }

  /** The inner loop updates every visited element exactly once, leaves
      every other element alone, and adds the UPDATED values to the total. */
  lemma {:induction false} SweepEffect(cfg: Config, y: seq<real>, j: int, hi: int, total: real)
    requires |y| == |cfg.x|
    requires hi <= j || (0 <= j && hi <= |y|)
    ensures forall i :: 0 <= i < |y| ==>
              Sweep(cfg, y, j, hi, total).0[i] == (if j <= i < hi then Bumped(cfg, y, i) else y[i])
    ensures Sweep(cfg, y, j, hi, total).1 == total + SumRange(Sweep(cfg, y, j, hi, total).0, j, hi)
    decreases hi - j
  {
    if j < hi {
      var y' := y[j := Bumped(cfg, y, j)];
      SweepEffect(cfg, y', j + 1, hi, total + y'[j]);
      var res := Sweep(cfg, y', j + 1, hi, total + y'[j]);
      assert Sweep(cfg, y, j, hi, total) == res;
      assert res.0[j] == y'[j];
      assert SumRange(res.0, j, hi) == res.0[j] + SumRange(res.0, j + 1, hi);
    }
  }

  /** Round r of a worker on interval s: the sweep starting from total = 0,
      then `Y_avgs[r] += total / p`. */
  function Round(cfg: Config, s: Span, st: State, r: int): (st': State)
    requires Valid(cfg, st) && Fits(s, cfg.p) && 0 <= r < |st.avgs|
    ensures Valid(cfg, st') && |st'.avgs| == |st.avgs|
  {
    var (y', total) := Sweep(cfg, st.y, s.lo, s.hi, 0.0);
    State(y', st.avgs[r := st.avgs[r] + total / (cfg.p as real)])
  }

  /** One round updates the interval once and adds the sum of the updated
      interval, divided by p, to slot r and to no other slot. */
  lemma RoundEffect(cfg: Config, s: Span, st: State, r: int)
    requires Valid(cfg, st) && Fits(s, cfg.p) && 0 <= r < |st.avgs|
    ensures Round(cfg, s, st, r).y == Advance(cfg, st.y, s, 1)
    ensures Round(cfg, s, st, r).avgs[r] ==
            st.avgs[r] + SumRange(Advance(cfg, st.y, s, 1), s.lo, s.hi) / (cfg.p as real)
    ensures forall q :: 0 <= q < |st.avgs| && q != r ==> Round(cfg, s, st, r).avgs[q] == st.avgs[q]
  {
    SweepEffect(cfg, st.y, s.lo, s.hi, 0.0);
    var y' := Sweep(cfg, st.y, s.lo, s.hi, 0.0).0;
    assert forall i :: 0 <= i < |y'| ==> y'[i] == Advance(cfg, st.y, s, 1)[i];
  }

  /** Updating k times and then m times is updating k + m times. */
  lemma AdvanceTwice(cfg: Config, y: seq<real>, s: Span, k: nat, m: nat)
    requires |y| == |cfg.x|
    ensures Advance(cfg, Advance(cfg, y, s, k), s, m) == Advance(cfg, y, s, k + m)
  {
    var lhs := Advance(cfg, Advance(cfg, y, s, k), s, m);
    var rhs := Advance(cfg, y, s, k + m);
    forall i | 0 <= i < |y|
      ensures lhs[i] == rhs[i]
    {
      if Covers(s, i) {
        GainAdd(cfg, i, k, m);
      }
    }
  }

  /** Counting contributions from the state after one round shifts them by
      one round. */
  lemma ContributionShift(cfg: Config, y: seq<real>, s: Span, k: nat)
    requires 0 < cfg.p && |y| == |cfg.x| == cfg.p && Fits(s, cfg.p)
    ensures Contribution(cfg, Advance(cfg, y, s, 1), s, k) == Contribution(cfg, y, s, k + 1)
  {
    AdvanceTwice(cfg, y, s, 1, k + 1);
  }

  /** Rounds r, r + 1, ..., max_iters - 1 of one worker. */
  function Rounds(cfg: Config, s: Span, st: State, r: int): (st': State)
    requires Valid(cfg, st) && Fits(s, cfg.p) && 0 <= r
    ensures Valid(cfg, st') && |st'.avgs| == |st.avgs|
    decreases cfg.maxIters - r
  {
    if cfg.maxIters <= r then st
    else Rounds(cfg, s, Round(cfg, s, st, r), r + 1)
  }

  /** Rounds r.. of a worker update the interval once per remaining round
      and give slot q the contribution of round q, counted from the state
      at round r. */
  lemma {:induction false} RoundsEffect(cfg: Config, s: Span, st: State, r: int)
    requires Valid(cfg, st) && Fits(s, cfg.p) && 0 <= r
    ensures Rounds(cfg, s, st, r).y == Advance(cfg, st.y, s, if r < cfg.maxIters then cfg.maxIters - r else 0)
    ensures forall q :: 0 <= q < |st.avgs| ==>
              Rounds(cfg, s, st, r).avgs[q] ==
              (if r <= q < cfg.maxIters then st.avgs[q] + Contribution(cfg, st.y, s, q - r) else st.avgs[q])
    decreases cfg.maxIters - r
  {
    if cfg.maxIters <= r {
      assert st.y == Advance(cfg, st.y, s, 0);
    } else {
      var st1 := Round(cfg, s, st, r);
      RoundEffect(cfg, s, st, r);
      RoundsEffect(cfg, s, st1, r + 1);
      AdvanceTwice(cfg, st.y, s, 1, cfg.maxIters - r - 1);
      var fin := Rounds(cfg, s, st1, r + 1);
      assert Rounds(cfg, s, st, r) == fin;
      forall q | 0 <= q < |st.avgs|
        ensures fin.avgs[q] ==
                (if r <= q < cfg.maxIters then st.avgs[q] + Contribution(cfg, st.y, s, q - r) else st.avgs[q])
      {
        if r < q < cfg.maxIters {
          ContributionShift(cfg, st.y, s, q - r - 1);
        }
      }
    }
  }

  /** `funcionSaxpy`: the whole run of one worker on interval s. X and a
      are part of the configuration, which the worker never returns, so
      they cannot be written. */
  function Run(cfg: Config, s: Span, st: State): (st': State)
    requires Valid(cfg, st) && Fits(s, cfg.p)
    ensures Valid(cfg, st') && |st'.avgs| == |st.avgs|
  {
    Rounds(cfg, s, st, 0)
  }

  /** The effect of one worker run: each visited element has gained
      max_iters * a * X[i], every other element of Y is unchanged, Y_avgs[q]
      has received exactly one contribution for each round q < max_iters,
      and no other slot changed. */
  lemma RunEffect(cfg: Config, s: Span, st: State)
    requires Valid(cfg, st) && Fits(s, cfg.p)
    ensures forall i :: 0 <= i < |st.y| ==>
              Run(cfg, s, st).y[i] ==
              (if Covers(s, i) then st.y[i] + Gain(cfg, i, Iters(cfg)) else st.y[i])
    ensures forall q :: 0 <= q < |st.avgs| ==>
              Run(cfg, s, st).avgs[q] ==
              (if q < cfg.maxIters then st.avgs[q] + Contribution(cfg, st.y, s, q) else st.avgs[q])
  {
    RoundsEffect(cfg, s, st, 0);
  }

  /** Y after m rounds in which EVERY index is updated. */
  function AllUpdated(cfg: Config, y: seq<real>, m: nat): (y': seq<real>)
    requires |y| == |cfg.x|
    ensures |y'| == |y|
  {
    seq(|y|, i requires 0 <= i < |y| => y[i] + Gain(cfg, i, m))
  }

  /** The round-q contribution of a worker is the sum over its interval of Y
      right after that round's update, divided by p: each element has then
      gained (q + 1) * a * X[i]. */
  lemma ContributionIsRoundSum(cfg: Config, y: seq<real>, s: Span, q: nat)
    requires 0 < cfg.p && |y| == |cfg.x| == cfg.p && Fits(s, cfg.p)
    ensures Contribution(cfg, y, s, q) == SumRange(AllUpdated(cfg, y, q + 1), s.lo, s.hi) / (cfg.p as real)
  {
    SumRangeFrame(Advance(cfg, y, s, q + 1), AllUpdated(cfg, y, q + 1), s.lo, s.hi);
  }

  /** SumRange reads only the elements of [lo, hi). */
  lemma {:induction false} SumRangeFrame(s: seq<real>, t: seq<real>, lo: int, hi: int)
    requires hi <= lo || (0 <= lo && hi <= |s| && hi <= |t|)
    requires forall i :: lo <= i < hi ==> s[i] == t[i]
    ensures SumRange(s, lo, hi) == SumRange(t, lo, hi)
    decreases hi - lo
  {
    if lo < hi {
      SumRangeFrame(s, t, lo + 1, hi);
    }
  }

  /** A worker's contributions depend only on the elements of Y it visits. */
  lemma ContributionFrame(cfg: Config, y1: seq<real>, y2: seq<real>, s: Span, q: nat)
    requires 0 < cfg.p && |y1| == |y2| == |cfg.x| == cfg.p && Fits(s, cfg.p)
    requires forall i :: Covers(s, i) && 0 <= i < cfg.p ==> y1[i] == y2[i]
    ensures Contribution(cfg, y1, s, q) == Contribution(cfg, y2, s, q)
  {
    SumRangeFrame(Advance(cfg, y1, s, q + 1), Advance(cfg, y2, s, q + 1), s.lo, s.hi);
  }

  /** Splitting [lo, hi) at mid splits the sum. */
  lemma {:induction false} SumRangeSplit(s: seq<real>, lo: int, mid: int, hi: int)
    requires 0 <= lo <= mid <= hi <= |s|
    ensures SumRange(s, lo, hi) == SumRange(s, lo, mid) + SumRange(s, mid, hi)
    decreases mid - lo
  {
    if lo < mid {
      SumRangeSplit(s, lo + 1, mid, hi);
    }
  }
}
