/** The iteration engine of `main`: one worker per partition range, started
    together and joined at the end. As a modelling choice, the threads are
    whole worker runs composed one after another. The lemmas below show, in
    exact arithmetic, that any order of whole runs gives the same result
    (`RunAllReorder`) and that a round of one worker and a round of another
    commute (`RoundsCommute`); they do not derive the result of an arbitrary
    round-level schedule from these steps. */
module Engine {
  import opened Partitioner
  import opened Worker

  predicate AllFit(ss: seq<Span>, p: int) {
    forall k :: 0 <= k < |ss| ==> Fits(ss[k], p)
  }

  predicate PairwiseDisjoint(ss: seq<Span>) {
    forall k, l :: 0 <= k < l < |ss| ==> Disjoint(ss[k], ss[l])
  }

  predicate AnyCovers(ss: seq<Span>, i: int) {
    exists k :: 0 <= k < |ss| && Covers(ss[k], i)
  }

  /** The workers ss[0], ss[1], ... run to completion one after another. */
  function RunAll(cfg: Config, ss: seq<Span>, st: State): (st': State)
    requires Valid(cfg, st) && AllFit(ss, cfg.p)
    ensures Valid(cfg, st') && |st'.avgs| == |st.avgs|
    decreases |ss|
  {
    if |ss| == 0 then st else RunAll(cfg, ss[1..], Run(cfg, ss[0], st))
  }

  /** Sum of the round-q contributions of all workers, each counted from the
      initial Y: one term per worker. */
  function TotalContribution(cfg: Config, y: seq<real>, ss: seq<Span>, q: nat): real
    requires 0 < cfg.p && |y| == |cfg.x| == cfg.p && AllFit(ss, cfg.p)
    decreases |ss|
  {
    if |ss| == 0 then 0.0 else Contribution(cfg, y, ss[0], q) + TotalContribution(cfg, y, ss[1..], q)
  }

  /** The total contribution reads only the elements some worker visits. */
  lemma {:induction false} TotalContributionFrame(cfg: Config, y1: seq<real>, y2: seq<real>, ss: seq<Span>, q: nat)
    requires 0 < cfg.p && |y1| == |y2| == |cfg.x| == cfg.p && AllFit(ss, cfg.p)
    requires forall k, i :: 0 <= k < |ss| && Covers(ss[k], i) && 0 <= i < cfg.p ==> y1[i] == y2[i]
    ensures TotalContribution(cfg, y1, ss, q) == TotalContribution(cfg, y2, ss, q)
    decreases |ss|
  {
    if |ss| > 0 {
      ContributionFrame(cfg, y1, y2, ss[0], q);
      TotalContributionFrame(cfg, y1, y2, ss[1..], q);
    }
  }

  /** Dropping the first worker keeps the others pairwise disjoint. */
  lemma TailDisjoint(ss: seq<Span>)
    requires |ss| > 0 && PairwiseDisjoint(ss)
    ensures PairwiseDisjoint(ss[1..])
  {
    var rest := ss[1..];
    forall k, l | 0 <= k < l < |rest|
      ensures Disjoint(rest[k], rest[l])
    {
      assert rest[k] == ss[k + 1] && rest[l] == ss[l + 1];
    }
  }

  /** An index is visited by some worker iff the first worker or one of
      the others visits it; with disjoint workers, not both. */
  lemma AnyCoversSplit(ss: seq<Span>, i: int)
    requires |ss| > 0 && PairwiseDisjoint(ss)
    ensures AnyCovers(ss, i) <==> Covers(ss[0], i) || AnyCovers(ss[1..], i)
    ensures !(Covers(ss[0], i) && AnyCovers(ss[1..], i))
  {
    var rest := ss[1..];
    if AnyCovers(rest, i) {
      var k :| 0 <= k < |rest| && Covers(rest[k], i);
      assert rest[k] == ss[k + 1];
      assert Disjoint(ss[0], ss[k + 1]);
    }
    if AnyCovers(ss, i) && !Covers(ss[0], i) {
      var k :| 0 <= k < |ss| && Covers(ss[k], i);
      assert rest[k - 1] == ss[k];
    }
  }

  /** The final Y after running pairwise disjoint workers: every index some
      worker visits has gained max_iters * a * X[i], every other index is
      unchanged. */
  lemma {:induction false} RunAllY(cfg: Config, ss: seq<Span>, st: State)
    requires Valid(cfg, st) && AllFit(ss, cfg.p) && PairwiseDisjoint(ss)
    ensures forall i :: 0 <= i < |st.y| ==>
              RunAll(cfg, ss, st).y[i] ==
              (if AnyCovers(ss, i) then st.y[i] + Gain(cfg, i, Iters(cfg)) else st.y[i])
    decreases |ss|
  {
    if |ss| > 0 {
      var st1 := Run(cfg, ss[0], st);
      RunEffect(cfg, ss[0], st);
      var rest := ss[1..];
      TailDisjoint(ss);
      RunAllY(cfg, rest, st1);
      var final := RunAll(cfg, rest, st1);
      assert final == RunAll(cfg, ss, st);
      forall i | 0 <= i < |st.y|
        ensures final.y[i] ==
                (if AnyCovers(ss, i) then st.y[i] + Gain(cfg, i, Iters(cfg)) else st.y[i])
      {
        AnyCoversSplit(ss, i);
      }
    }
  }

  /** The final Y_avgs after running pairwise disjoint workers: Y_avgs[q]
      has received exactly one contribution from each worker for each round
      q < max_iters, and no other slot changed. */
  lemma {:induction false} RunAllAvgs(cfg: Config, ss: seq<Span>, st: State)
    requires Valid(cfg, st) && AllFit(ss, cfg.p) && PairwiseDisjoint(ss)
    ensures forall q :: 0 <= q < |st.avgs| ==>
              RunAll(cfg, ss, st).avgs[q] ==
              (if q < cfg.maxIters then st.avgs[q] + TotalContribution(cfg, st.y, ss, q) else st.avgs[q])
    decreases |ss|
  {
    if |ss| > 0 {
      var st1 := Run(cfg, ss[0], st);
      RunEffect(cfg, ss[0], st);
      var rest := ss[1..];
      TailDisjoint(ss);
      RunAllAvgs(cfg, rest, st1);
      var final := RunAll(cfg, rest, st1);
      assert final == RunAll(cfg, ss, st);
      forall q | 0 <= q < |st.avgs|
        ensures final.avgs[q] ==
                (if q < cfg.maxIters then st.avgs[q] + TotalContribution(cfg, st.y, ss, q) else st.avgs[q])
      {
        if q < cfg.maxIters {
          forall k, i | 0 <= k < |rest| && Covers(rest[k], i) && 0 <= i < cfg.p
            ensures st1.y[i] == st.y[i]
          {
            assert Disjoint(ss[0], ss[k + 1]);
          }
          TotalContributionFrame(cfg, st1.y, st.y, rest, q);
        }
      }
    }
  }

  /** Two workers on disjoint intervals can run in either order: the final Y
      and, in exact arithmetic, the final Y_avgs are the same. */
  lemma RunCommutes(cfg: Config, s: Span, t: Span, st: State)
    requires Valid(cfg, st) && Fits(s, cfg.p) && Fits(t, cfg.p) && Disjoint(s, t)
    ensures Run(cfg, t, Run(cfg, s, st)) == Run(cfg, s, Run(cfg, t, st))
  {
    var st1, st2 := Run(cfg, s, st), Run(cfg, t, st);
    var ab, ba := Run(cfg, t, st1), Run(cfg, s, st2);
    RunEffect(cfg, s, st);
    RunEffect(cfg, t, st);
    RunEffect(cfg, t, st1);
    RunEffect(cfg, s, st2);
    forall i | 0 <= i < |ab.y|
      ensures ab.y[i] == ba.y[i]
    {
    }
    forall q | 0 <= q < |ab.avgs|
      ensures ab.avgs[q] == ba.avgs[q]
    {
      if q < cfg.maxIters {
        ContributionFrame(cfg, st1.y, st.y, t, q);
        ContributionFrame(cfg, st2.y, st.y, s, q);
      }
    }
  }

  /** One round of each of two workers on disjoint intervals can happen in
      either order, whichever Y_avgs slots the two rounds add to: this is the
      step the semaphore leaves open between two workers' rounds. */
  lemma RoundsCommute(cfg: Config, s: Span, t: Span, st: State, r: int, r2: int)
    requires Valid(cfg, st) && Fits(s, cfg.p) && Fits(t, cfg.p) && Disjoint(s, t)
    requires 0 <= r < |st.avgs| && 0 <= r2 < |st.avgs|
    ensures Round(cfg, t, Round(cfg, s, st, r), r2) == Round(cfg, s, Round(cfg, t, st, r2), r)
  {
    var st1, st2 := Round(cfg, s, st, r), Round(cfg, t, st, r2);
    var ab, ba := Round(cfg, t, st1, r2), Round(cfg, s, st2, r);
    RoundEffect(cfg, s, st, r);
    RoundEffect(cfg, t, st, r2);
    RoundEffect(cfg, t, st1, r2);
    RoundEffect(cfg, s, st2, r);
    forall i | 0 <= i < |ab.y|
      ensures ab.y[i] == ba.y[i]
    {
    }
    SumRangeFrame(Advance(cfg, st1.y, t, 1), Advance(cfg, st.y, t, 1), t.lo, t.hi);
    SumRangeFrame(Advance(cfg, st2.y, s, 1), Advance(cfg, st.y, s, 1), s.lo, s.hi);
    forall q | 0 <= q < |ab.avgs|
      ensures ab.avgs[q] == ba.avgs[q]
    {
    }
  }

  /** Running [s] + rest is running s, then rest. */
  lemma RunAllPrepend(cfg: Config, s: Span, rest: seq<Span>, st: State)
    requires Valid(cfg, st) && Fits(s, cfg.p) && AllFit(rest, cfg.p)
    ensures AllFit([s] + rest, cfg.p)
    ensures RunAll(cfg, [s] + rest, st) == RunAll(cfg, rest, Run(cfg, s, st))
  {
    assert ([s] + rest)[1..] == rest;
  }

  /** The sequence identities behind moving position i to the front. */
  lemma MovedShape(ss: seq<Span>, i: int, p: int)
    requires 0 < i < |ss| && AllFit(ss, p)
    ensures AllFit(ss[1..i] + ss[i + 1..], p)
    ensures [ss[i]] + ss[..i] + ss[i + 1..] == [ss[i]] + ([ss[0]] + (ss[1..i] + ss[i + 1..]))
    ensures [ss[1..][i - 1]] + ss[1..][..i - 1] + ss[1..][i..] == [ss[i]] + (ss[1..i] + ss[i + 1..])
  {
    var others := ss[1..i] + ss[i + 1..];
    forall k | 0 <= k < |others|
      ensures Fits(others[k], p)
    {
      assert others[k] == if k < i - 1 then ss[k + 1] else ss[k + 2];
    }
    var rest := ss[1..];
    assert rest[i - 1] == ss[i] && rest[..i - 1] == ss[1..i] && rest[i..] == ss[i + 1..];
    assert ss[..i] == [ss[0]] + ss[1..i];
  }

  /** Running the worker in position i first leaves the result unchanged. */
  lemma {:induction false} RunAllMoveToFront(cfg: Config, ss: seq<Span>, i: int, st: State)
    requires Valid(cfg, st) && AllFit(ss, cfg.p) && PairwiseDisjoint(ss) && 0 <= i < |ss|
    ensures AllFit([ss[i]] + ss[..i] + ss[i + 1..], cfg.p)
    ensures RunAll(cfg, [ss[i]] + ss[..i] + ss[i + 1..], st) == RunAll(cfg, ss, st)
    decreases i
  {
    if i == 0 {
      assert [ss[i]] + ss[..i] + ss[i + 1..] == ss;
    } else {
      var rest := ss[1..];
      TailDisjoint(ss);
      var st0 := Run(cfg, ss[0], st);
      RunAllMoveToFront(cfg, rest, i - 1, st0);
      var others := ss[1..i] + ss[i + 1..];
      MovedShape(ss, i, cfg.p);
      RunCommutes(cfg, ss[0], ss[i], st);
      RunAllPrepend(cfg, ss[i], others, st0);
      RunAllPrepend(cfg, ss[0], others, Run(cfg, ss[i], st));
      RunAllPrepend(cfg, ss[i], [ss[0]] + others, st);
      calc {
        RunAll(cfg, ss, st);
        RunAll(cfg, rest, st0);
        RunAll(cfg, [ss[i]] + others, st0);
        RunAll(cfg, others, Run(cfg, ss[i], Run(cfg, ss[0], st)));
        RunAll(cfg, others, Run(cfg, ss[0], Run(cfg, ss[i], st)));
        RunAll(cfg, [ss[0]] + others, Run(cfg, ss[i], st));
        RunAll(cfg, [ss[i]] + ([ss[0]] + others), st);
      }
    }
  }

  /** Removing one worker keeps the others pairwise disjoint. */
  lemma RemoveDisjoint(ss: seq<Span>, i: int)
    requires 0 <= i < |ss| && PairwiseDisjoint(ss)
    ensures PairwiseDisjoint(ss[..i] + ss[i + 1..])
  {
    var others := ss[..i] + ss[i + 1..];
    forall k, l | 0 <= k < l < |others|
      ensures Disjoint(others[k], others[l])
    {
      var k' := if k < i then k else k + 1;
      var l' := if l < i then l else l + 1;
      assert others[k] == ss[k'] && others[l] == ss[l'];
    }
  }

  /** A rearrangement of intervals that fit fits too. */
  lemma ReorderFits(ss: seq<Span>, order: seq<Span>, p: int)
    requires AllFit(ss, p) && multiset(order) == multiset(ss)
    ensures AllFit(order, p)
  {
    forall k | 0 <= k < |order|
      ensures Fits(order[k], p)
    {
      assert order[k] in multiset(ss);
    }
  }

  /** Removing position i removes one occurrence of its element. */
  lemma RemoveMultiset(ss: seq<Span>, i: int)
    requires 0 <= i < |ss|
    ensures multiset(ss[..i] + ss[i + 1..]) == multiset(ss) - multiset{ss[i]}
  {
    assert ss == ss[..i] + [ss[i]] + ss[i + 1..];
  }

  /** Schedule independence: the workers may run in ANY order (any
      rearrangement of the same intervals) with the same final Y and, in
      exact arithmetic, the same final Y_avgs. */
  lemma {:induction false} RunAllReorder(cfg: Config, ss: seq<Span>, order: seq<Span>, st: State)
    requires Valid(cfg, st) && AllFit(ss, cfg.p) && PairwiseDisjoint(ss)
    requires multiset(order) == multiset(ss)
    ensures AllFit(order, cfg.p)
    ensures RunAll(cfg, order, st) == RunAll(cfg, ss, st)
    decreases |order|
  {
    ReorderFits(ss, order, cfg.p);
    if |order| == 0 {
      assert |ss| == |multiset(ss)|;
    } else {
      var i := FindFirst(order, ss);
      RunAllMoveToFront(cfg, ss, i, st);
      var others := ss[..i] + ss[i + 1..];
      assert ([ss[i]] + ss[..i] + ss[i + 1..])[1..] == others;
      RemoveDisjoint(ss, i);
      var st1 := Run(cfg, order[0], st);
      RunAllReorder(cfg, others, order[1..], st1);
    }
  }

  /** A position of ss[0] in a rearrangement of ss; removing it leaves a
      rearrangement of ss[1..]. */
  lemma FindFirst(ss: seq<Span>, order: seq<Span>) returns (i: int)
    requires |ss| > 0 && multiset(order) == multiset(ss)
    ensures 0 <= i < |order| && order[i] == ss[0]
    ensures multiset(order[..i] + order[i + 1..]) == multiset(ss[1..])
  {
    assert ss[0] in multiset(order);
    i :| 0 <= i < |order| && order[i] == ss[0];
    calc {
      multiset(order[..i] + order[i + 1..]);
      { RemoveMultiset(order, i); }
      multiset(order) - multiset{ss[0]};
      multiset(ss) - multiset{ss[0]};
      { RemoveMultiset(ss, 0); }
      multiset(ss[..0] + ss[1..]);
      { assert ss[..0] + ss[1..] == ss[1..]; }
      multiset(ss[1..]);
    }
  }

  /** The intervals the workers actually visit: `ini <= segundo < end`,
      where `end` is the partitioner's INCLUSIVE end. */
  function AsWrittenSpans(ps: seq<Param>): (ss: seq<Span>)
    ensures |ss| == |ps|
    ensures forall k, i :: 0 <= k < |ps| ==>
              (Covers(ss[k], i) <==> ps[k].ini as int <= i < ps[k].end as int)
  {
    seq(|ps|, k requires 0 <= k < |ps| => Span(ps[k].ini as int, ps[k].end as int))
  }

  /** The intervals the partition describes: `ini <= segundo <= end`. */
  function IntendedSpans(ps: seq<Param>): (ss: seq<Span>)
    ensures |ss| == |ps|
    ensures forall k, i :: 0 <= k < |ps| ==>
              (Covers(ss[k], i) <==> ps[k].ini as int <= i <= ps[k].end as int)
  {
    seq(|ps|, k requires 0 <= k < |ps| => Span(ps[k].ini as int, ps[k].end as int + 1))
  }

  /** Both readings of the partition give intervals that fit in [0, p) and
      are pairwise disjoint. */
  lemma PartitionSpansWellFormed(p: int32, n: int32)
    requires 0 < p && 0 < n
    ensures AllFit(AsWrittenSpans(Ranges(p, n)), p as int) && PairwiseDisjoint(AsWrittenSpans(Ranges(p, n)))
    ensures AllFit(IntendedSpans(Ranges(p, n)), p as int) && PairwiseDisjoint(IntendedSpans(Ranges(p, n)))
  {
    forall k, l | 0 <= k < l < n as int
      ensures Ranges(p, n)[l].end < Ranges(p, n)[k].ini
    {
      RangesOrdered(p, n, k, l);
    }
  }

  /** The whole parallel section of `main` as written: partition, then run
      one worker per range. */
  function Saxpy(cfg: Config, nThreads: int32, st: State): (st': State)
    requires Valid(cfg, st) && cfg.p <= INT_MAX && 0 < nThreads
    ensures Valid(cfg, st') && |st'.avgs| == |st.avgs|
  {
    PartitionSpansWellFormed(cfg.p as int32, nThreads);
    RunAll(cfg, AsWrittenSpans(Ranges(cfg.p as int32, nThreads)), st)
  }

  /** The same section with the worker loop bound corrected to `<= end`. */
  function SaxpyIntended(cfg: Config, nThreads: int32, st: State): (st': State)
    requires Valid(cfg, st) && cfg.p <= INT_MAX && 0 < nThreads
    ensures Valid(cfg, st') && |st'.avgs| == |st.avgs|
  {
    PartitionSpansWellFormed(cfg.p as int32, nThreads);
    RunAll(cfg, IntendedSpans(Ranges(cfg.p as int32, nThreads)), st)
  }

  /** i is the inclusive end of a non-empty partition range. */
  predicate IsRangeEnd(ps: seq<Param>, i: int) {
    exists k :: 0 <= k < |ps| && ps[k].ini as int <= i == ps[k].end as int
  }

  /** Final Y as written: an index is updated max_iters times unless it is
      the last index of its range, which is never updated. */
  lemma SaxpyFinalY(cfg: Config, nThreads: int32, st: State)
    requires Valid(cfg, st) && cfg.p <= INT_MAX && 0 < nThreads
    ensures forall i :: 0 <= i < cfg.p ==>
              Saxpy(cfg, nThreads, st).y[i] ==
              (if IsRangeEnd(Ranges(cfg.p as int32, nThreads), i) then st.y[i]
               else st.y[i] + Gain(cfg, i, Iters(cfg)))
  {
    var ps := Ranges(cfg.p as int32, nThreads);
    var ss := AsWrittenSpans(ps);
    PartitionSpansWellFormed(cfg.p as int32, nThreads);
    RunAllY(cfg, ss, st);
    forall i | 0 <= i < cfg.p
      ensures AnyCovers(ss, i) <==> !IsRangeEnd(ps, i)
    {
      var k := RangesCover(cfg.p as int32, nThreads, i);
      if i == ps[k].end as int {
        assert IsRangeEnd(ps, i);
        forall l | 0 <= l < |ss|
          ensures !Covers(ss[l], i)
        {
          if Covers(ss[l], i) {
            RangesDisjoint(cfg.p as int32, nThreads, i, k, l);
          }
        }
      } else {
        assert Covers(ss[k], i);
        forall l | 0 <= l < |ps|
          ensures !(ps[l].ini as int <= i == ps[l].end as int)
        {
          if ps[l].ini as int <= i == ps[l].end as int {
            RangesDisjoint(cfg.p as int32, nThreads, i, k, l);
          }
        }
      }
    }
  }

  /** The Y_avgs of the program as written: each slot q < max_iters receives
      one contribution from every worker, and no other slot changes. */
  lemma SaxpyAvgs(cfg: Config, nThreads: int32, st: State)
    requires Valid(cfg, st) && cfg.p <= INT_MAX && 0 < nThreads
    ensures forall q :: 0 <= q < |st.avgs| ==>
              Saxpy(cfg, nThreads, st).avgs[q] ==
              (if q < cfg.maxIters
               then st.avgs[q] + TotalContribution(cfg, st.y, AsWrittenSpans(Ranges(cfg.p as int32, nThreads)), q)
               else st.avgs[q])
  {
    PartitionSpansWellFormed(cfg.p as int32, nThreads);
    RunAllAvgs(cfg, AsWrittenSpans(Ranges(cfg.p as int32, nThreads)), st);
  }

  /** Ten elements on three threads: indices 3, 6 and 9 keep their initial
      value whatever X, Y, a and max_iters are; every other index is
      updated max_iters times. */
  lemma TenElementsThreeThreads(cfg: Config, st: State)
    requires Valid(cfg, st) && cfg.p == 10
    ensures forall i :: 0 <= i < 10 ==>
              Saxpy(cfg, 3, st).y[i] ==
              (if i == 3 || i == 6 || i == 9 then st.y[i]
               else st.y[i] + Gain(cfg, i, Iters(cfg)))
  {
    var ps := Ranges(cfg.p as int32, 3);
    assert ps == Ranges(10, 3);
    TenElementsThreeThreadsRanges();
    SaxpyFinalY(cfg, 3, st);
    forall i | 0 <= i < 10
      ensures IsRangeEnd(ps, i) <==> i == 3 || i == 6 || i == 9
    {
      if i == 3 || i == 6 || i == 9 {
        var k := if i == 3 then 2 else if i == 6 then 1 else 0;
        assert ps[k].ini as int <= i == ps[k].end as int;
      } else {
        forall k | 0 <= k < |ps|
          ensures ps[k].end as int != i
        {
        }
      }
    }
  }

  /** Arithmetic mean of a non-empty vector. */
  function Mean(s: seq<real>): real
    requires |s| > 0
  {
    SumRange(s, 0, |s|) / (|s| as real)
  }

  /** Dividing two parts by p and adding is dividing the whole by p. */
  lemma DivideSum(a: real, b: real, p: real)
    requires p > 0.0
    ensures a / p + b / p == (a + b) / p
  {
  }

  /** ss[k] is the interval [b[m - 1 - k], b[m - k]) for m = |ss|: the
      intervals, read from the last slot down, tile [0, b[m]) in order. */
  predicate TilesDownward(ss: seq<Span>, b: seq<int>) {
    && |b| == |ss| + 1
    && b[0] == 0
    && (forall t :: 0 <= t < |ss| ==> b[t] <= b[t + 1])
    && (forall k :: 0 <= k < |ss| ==> ss[k] == Span(b[|ss| - 1 - k], b[|ss| - k]))
  }

  /** A worker on [lo, hi) extends the fully updated prefix sum over
      [0, lo) to [0, hi). */
  lemma ExtendPrefix(cfg: Config, y: seq<real>, lo: int, hi: int, q: nat)
    requires 0 < cfg.p && |y| == |cfg.x| == cfg.p && 0 <= lo <= hi <= cfg.p
    ensures Contribution(cfg, y, Span(lo, hi), q) + SumRange(AllUpdated(cfg, y, q + 1), 0, lo) / (cfg.p as real) ==
            SumRange(AllUpdated(cfg, y, q + 1), 0, hi) / (cfg.p as real)
  {
    var g := AllUpdated(cfg, y, q + 1);
    ContributionIsRoundSum(cfg, y, Span(lo, hi), q);
    SumRangeSplit(g, 0, lo, hi);
    DivideSum(SumRange(g, 0, lo), SumRange(g, lo, hi), cfg.p as real);
  }

  /** Workers whose intervals tile [0, b[m - k]) downward together
      contribute the sum of the fully updated Y over that prefix. */
  lemma {:induction false} TiledContribution(cfg: Config, y: seq<real>, ss: seq<Span>, b: seq<int>, k: int, q: nat)
    requires 0 < cfg.p && |y| == |cfg.x| == cfg.p && AllFit(ss, cfg.p)
    requires TilesDownward(ss, b) && b[|ss|] <= cfg.p && 0 <= k <= |ss|
    ensures AllFit(ss[k..], cfg.p)
    ensures 0 <= b[|ss| - k] <= cfg.p
    ensures TotalContribution(cfg, y, ss[k..], q) ==
            SumRange(AllUpdated(cfg, y, q + 1), 0, b[|ss| - k]) / (cfg.p as real)
    decreases |ss| - k
  {
    if k < |ss| {
      var t := |ss| - 1 - k;
      TiledContribution(cfg, y, ss, b, k + 1, q);
      assert ss[k..][1..] == ss[k + 1..];
      assert ss[k] == Span(b[t], b[t + 1]);
      ExtendPrefix(cfg, y, b[t], b[t + 1], q);
      assert TotalContribution(cfg, y, ss[k..], q) ==
             Contribution(cfg, y, ss[k], q) + TotalContribution(cfg, y, ss[k + 1..], q);
    } else {
      assert ss[k..] == [];
    }
  }

  /** Start indices of the ranges in construction order. */
  function Starts(p: int32, n: int32): (b: seq<int>)
    requires 0 < p && 0 < n
    ensures |b| == n as int + 1
  {
    seq(n as int + 1, t requires 0 <= t <= n as int => StartOf(p as int, n as int, t))
  }

  /** The corrected intervals tile [0, p) downward from the last slot. */
  lemma IntendedSpansTile(p: int32, n: int32)
    requires 0 < p && 0 < n
    ensures TilesDownward(IntendedSpans(Ranges(p, n)), Starts(p, n))
    ensures Starts(p, n)[n] == p as int
  {
    var b := Starts(p, n);
    StartAfterLast(p as int, n as int);
    forall t | 0 <= t < n as int
      ensures b[t] <= b[t + 1]
    {
      StartMonotone(p as int, n as int, t, t + 1);
    }
  }

  /** Corrected program, final Y: every index has gained max_iters * a * X[i],
      whatever the thread count. */
  lemma SaxpyIntendedFinalY(cfg: Config, nThreads: int32, st: State)
    requires Valid(cfg, st) && cfg.p <= INT_MAX && 0 < nThreads
    ensures SaxpyIntended(cfg, nThreads, st).y == AllUpdated(cfg, st.y, Iters(cfg))
  {
    var ss := IntendedSpans(Ranges(cfg.p as int32, nThreads));
    PartitionSpansWellFormed(cfg.p as int32, nThreads);
    forall i | 0 <= i < cfg.p
      ensures AnyCovers(ss, i)
    {
      IntendedSpansCover(cfg.p as int32, nThreads, i);
    }
    RunAllCoveringY(cfg, ss, st);
  }

  /** Pairwise disjoint workers that together visit every index update all
      of Y max_iters times. */
  lemma RunAllCoveringY(cfg: Config, ss: seq<Span>, st: State)
    requires Valid(cfg, st) && AllFit(ss, cfg.p) && PairwiseDisjoint(ss)
    requires forall i :: 0 <= i < cfg.p ==> AnyCovers(ss, i)
    ensures RunAll(cfg, ss, st).y == AllUpdated(cfg, st.y, Iters(cfg))
  {
    RunAllY(cfg, ss, st);
    var fin := RunAll(cfg, ss, st).y;
    AllUpdatedByElement(cfg, st.y, fin, Iters(cfg));
  }

  /** A vector that agrees with m full updates at every index is the vector
      of m full updates. */
  lemma AllUpdatedByElement(cfg: Config, y: seq<real>, y': seq<real>, m: nat)
    requires |y| == |cfg.x| == |y'|
    requires forall i :: 0 <= i < |y| ==> y'[i] == y[i] + Gain(cfg, i, m)
    ensures y' == AllUpdated(cfg, y, m)
  {
  }

  /** Every index of [0, p) is visited by some corrected worker. */
  lemma IntendedSpansCover(p: int32, n: int32, i: int)
    requires 0 < p && 0 < n && 0 <= i < p as int
    ensures AnyCovers(IntendedSpans(Ranges(p, n)), i)
  {
    var k := RangesCover(p, n, i);
    assert Covers(IntendedSpans(Ranges(p, n))[k], i);
  }

  /** Corrected program, Y_avgs: slot q < max_iters receives exactly the
      mean of Y just after round q (the program starts every slot at 0);
      other slots are unchanged. */
  lemma SaxpyIntendedAvgs(cfg: Config, nThreads: int32, st: State)
    requires Valid(cfg, st) && cfg.p <= INT_MAX && 0 < nThreads
    ensures forall q :: 0 <= q < |st.avgs| ==>
              SaxpyIntended(cfg, nThreads, st).avgs[q] ==
              (if q < cfg.maxIters then st.avgs[q] + Mean(AllUpdated(cfg, st.y, q + 1)) else st.avgs[q])
  {
    var ss := IntendedSpans(Ranges(cfg.p as int32, nThreads));
    PartitionSpansWellFormed(cfg.p as int32, nThreads);
    RunAllAvgs(cfg, ss, st);
    IntendedSpansTile(cfg.p as int32, nThreads);
    forall q: nat | q < cfg.maxIters
      ensures TotalContribution(cfg, st.y, ss, q) == Mean(AllUpdated(cfg, st.y, q + 1))
    {
      TiledContribution(cfg, st.y, ss, Starts(cfg.p as int32, nThreads), 0, q);
      assert ss[0..] == ss;
    }
  }

  /** Corrected program: the thread count does not change the result at all
      in exact arithmetic, neither Y nor Y_avgs. */
  lemma SaxpyIntendedThreadCountInvariant(cfg: Config, n1: int32, n2: int32, st: State)
    requires Valid(cfg, st) && cfg.p <= INT_MAX && 0 < n1 && 0 < n2
    ensures SaxpyIntended(cfg, n1, st) == SaxpyIntended(cfg, n2, st)
  {
    SaxpyIntendedFinalY(cfg, n1, st);
    SaxpyIntendedFinalY(cfg, n2, st);
    SaxpyIntendedAvgs(cfg, n1, st);
    SaxpyIntendedAvgs(cfg, n2, st);
    assert SaxpyIntended(cfg, n1, st).avgs == SaxpyIntended(cfg, n2, st).avgs;
  }

  /** Workers whose intervals are all empty contribute nothing. */
  lemma {:induction false} EmptySpansContributeNothing(cfg: Config, y: seq<real>, ss: seq<Span>, q: nat)
    requires 0 < cfg.p && |y| == |cfg.x| == cfg.p && AllFit(ss, cfg.p)
    requires forall k :: 0 <= k < |ss| ==> ss[k].hi <= ss[k].lo
    ensures TotalContribution(cfg, y, ss, q) == 0.0
    decreases |ss|
  {
    if |ss| > 0 {
      EmptySpansContributeNothing(cfg, y, ss[1..], q);
    }
  }

  /** As written, with no more elements than threads every range holds at
      most one index, so the worker loop `segundo < end` visits none. */
  lemma AsWrittenSpansEmptyWhenFewElements(p: int32, n: int32)
    requires 0 < p && 0 < n && p <= n
    ensures forall k :: 0 <= k < n as int ==> AsWrittenSpans(Ranges(p, n))[k].hi <= AsWrittenSpans(Ranges(p, n))[k].lo
  {
    var ps := Ranges(p, n);
    RangesAtMostOneWhenFewElements(p, n);
    assert forall k :: 0 <= k < n as int ==> Size(ps[k]) <= 1;
  }

  /** Workers that visit nothing leave the state as it was. */
  lemma RunAllEmpty(cfg: Config, ss: seq<Span>, st: State)
    requires Valid(cfg, st) && AllFit(ss, cfg.p) && PairwiseDisjoint(ss)
    requires forall k :: 0 <= k < |ss| ==> ss[k].hi <= ss[k].lo
    ensures RunAll(cfg, ss, st) == st
  {
    RunAllY(cfg, ss, st);
    RunAllAvgs(cfg, ss, st);
    forall q: nat
      ensures TotalContribution(cfg, st.y, ss, q) == 0.0
    {
      EmptySpansContributeNothing(cfg, st.y, ss, q);
    }
    assert RunAll(cfg, ss, st).y == st.y;
    assert RunAll(cfg, ss, st).avgs == st.avgs;
  }

  /** As written, with no more elements than threads the whole parallel
      section leaves Y and Y_avgs as they were. */
  lemma SaxpyIdleWhenFewElements(cfg: Config, nThreads: int32, st: State)
    requires Valid(cfg, st) && cfg.p <= nThreads as int
    ensures Saxpy(cfg, nThreads, st) == st
  {
    var ss := AsWrittenSpans(Ranges(cfg.p as int32, nThreads));
    AsWrittenSpansEmptyWhenFewElements(cfg.p as int32, nThreads);
    PartitionSpansWellFormed(cfg.p as int32, nThreads);
    RunAllEmpty(cfg, ss, st);
  }

  /** As written, one thread on two elements updates index 0 max_iters
      times: its single range [0, 1] visits index 0 only. */
  lemma OneThreadTwoElements(cfg: Config, st: State)
    requires Valid(cfg, st) && cfg.p == 2
    ensures Saxpy(cfg, 1, st).y[0] == st.y[0] + Gain(cfg, 0, Iters(cfg))
  {
    SaxpyFinalY(cfg, 1, st);
    var ps := Ranges(cfg.p as int32, 1);
    OneThreadRange(cfg.p as int32);
    assert ps == [Param(0, 1)];
    assert !IsRangeEnd(ps, 0);
  }

  /** As written, the final Y depends on the thread count: with two
      elements, one thread updates index 0 while two threads update
      nothing. */
  lemma SaxpyDependsOnThreadCount(cfg: Config, st: State)
    requires Valid(cfg, st) && cfg.p == 2 && 1 <= cfg.maxIters && cfg.a * cfg.x[0] != 0.0
    ensures Saxpy(cfg, 1, st).y[0] != Saxpy(cfg, 2, st).y[0]
  {
    var g := Gain(cfg, 0, Iters(cfg));
    GainNonZero(cfg, 0, Iters(cfg));
    SaxpyIdleWhenFewElements(cfg, 2, st);
    assert Saxpy(cfg, 2, st).y[0] == st.y[0];
    OneThreadTwoElements(cfg, st);
    assert Saxpy(cfg, 1, st).y[0] == st.y[0] + g;
  }
}
