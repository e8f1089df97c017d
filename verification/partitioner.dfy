/** The static work partitioner of the iterative SAXPY program: the loop in
    `main` that splits the vector [0, p) into `n_threads` contiguous ranges
    before the workers are started.

    The loop builds the ranges from the last slot of `args` down to slot 0.
    "Step t" below is the t-th range the loop builds (t = 0 is stored in slot
    n_threads - 1); the first `p % n_threads` steps hand out one extra
    element. Each `param_t` holds an INCLUSIVE range [ini, end]. */
module Partitioner {

  /** The platform's C `int`. Every intermediate the partition loop computes
      is stored in an `int32`, so the verifier checks that none overflows. */
  newtype int32 = x: int | -0x8000_0000 <= x < 0x8000_0000

  const INT_MAX: int := 0x7fff_ffff

  /** `param_t`: the inclusive index range [ini, end] of one worker.
      An empty range has end == ini - 1. */
  datatype Param = Param(ini: int32, end: int32)

  /** Number of indices in an inclusive range. */
  function Size(r: Param): int {
    r.end as int - r.ini as int + 1
  }

  function Min(a: int, b: int): int {
    if a <= b then a else b
  }

  function Max(a: int, b: int): int {
    if a <= b then b else a
  }

  /** Reference definition: the size of the range built at step t. */
  function SizeOf(p: int, n: int, t: int): nat
    requires 0 < p && 0 < n
  {
    if t < p % n then p / n + 1 else p / n
  }

  /** Reference definition: the first index of the range built at step t,
      that is, the sizes of all earlier steps added up. */
  function StartOf(p: int, n: int, t: int): nat
    requires 0 < p && 0 < n && 0 <= t
    decreases t
  {
    if t == 0 then 0 else StartOf(p, n, t - 1) + SizeOf(p, n, t - 1)
  }

  /** Each step starts right after the previous one. */
  lemma StartStep(p: int, n: int, t: int)
    requires 0 < p && 0 < n && 0 <= t
    ensures StartOf(p, n, t + 1) == StartOf(p, n, t) + SizeOf(p, n, t)
  {
  }

  /** Closed form of the start of step t: t whole chunks plus one extra
      element for every earlier step that still had part of the remainder
      to hand out. */
  lemma {:induction false} StartClosedForm(p: int, n: int, t: int)
    requires 0 < p && 0 < n && 0 <= t
    ensures StartOf(p, n, t) == t * (p / n) + Min(t, p % n)
    decreases t
  {
    if t > 0 {
      StartClosedForm(p, n, t - 1);
      assert t * (p / n) == (t - 1) * (p / n) + p / n;
    }
  }

  /** After all n steps exactly p indices have been handed out. */
  lemma StartAfterLast(p: int, n: int)
    requires 0 < p && 0 < n
    ensures StartOf(p, n, n) == p
  {
    StartClosedForm(p, n, n);
    assert n * (p / n) + p % n == p;
  }

  /** Start indices never decrease from one step to a later one. */
  lemma {:induction false} StartMonotone(p: int, n: int, t: int, u: int)
    requires 0 < p && 0 < n && 0 <= t <= u
    ensures StartOf(p, n, t) <= StartOf(p, n, u)
    decreases u - t
  {
    if t < u {
      StartStep(p, n, t);
      StartMonotone(p, n, t + 1, u);
    }
  }

  /** Every step starts inside [0, p]. */
  lemma StartBounds(p: int, n: int, t: int)
    requires 0 < p && 0 < n && 0 <= t <= n
    ensures 0 <= StartOf(p, n, t) <= p
  {
    StartMonotone(p, n, 0, t);
    StartMonotone(p, n, t, n);
    StartAfterLast(p, n);
  }

  /** The range stored in `args[k]`: it is built at step n - 1 - k. */
  function RangeAt(p: int32, n: int32, k: int): (r: Param)
    requires 0 < p && 0 < n && 0 <= k < n as int
    ensures 0 <= r.ini as int <= p as int
    ensures -1 <= r.end as int < p as int
  {
    var t := n as int - 1 - k;
    StartStep(p as int, n as int, t);
    StartBounds(p as int, n as int, t);
    StartBounds(p as int, n as int, t + 1);
    Param(StartOf(p as int, n as int, t) as int32, (StartOf(p as int, n as int, t + 1) - 1) as int32)
  }

  /** Reference definition of the whole partition, slot by slot. */
  function Ranges(p: int32, n: int32): (rs: seq<Param>)
    requires 0 < p && 0 < n
    ensures |rs| == n as int
  {
    seq(n as int, k requires 0 <= k < n as int => RangeAt(p, n, k))
  }

  /** The partition loop of `main`, run with the C `int` arithmetic of the
      source: `chunk`, `rest`, `ini`, `end`, `aux` and `n` are all `int32`,
      so the verifier checks every intermediate against overflow.
      The loop `while (aux--)` is written as a test of `aux != 0` followed by
      the decrement; the final post-decrement to -1 is never read. */
  method Partition(p: int32, nThreads: int32) returns (args: seq<Param>)
    requires 0 < p && 0 < nThreads
    ensures args == Ranges(p, nThreads)
    ensures forall k :: 0 <= k < |args| ==> 0 <= args[k].ini <= p && -1 <= args[k].end < p
  {
    ghost var P, N := p as int, nThreads as int;
    var chunk := p / nThreads;
    var rest := p % nThreads;
    var ini: int32 := 0;
    var end: int32 := 0;
    var aux := nThreads;
    var n: int32;
    args := seq(nThreads as int, _ => Param(0, 0));
    while aux != 0
      invariant 0 <= aux <= nThreads
      invariant |args| == N
      invariant chunk as int == P / N
      invariant ini as int == StartOf(P, N, N - aux as int)
      invariant rest as int == Max(P % N - (N - aux as int), 0)
      invariant forall k :: aux as int <= k < N ==> args[k] == RangeAt(p, nThreads, k)
    {
      ghost var t := N - aux as int;
      StartStep(P, N, t);
      StartBounds(P, N, t);
      StartBounds(P, N, t + 1);
      aux := aux - 1;
      if rest != 0 {
        n := chunk + 1;
        rest := rest - 1;
      } else {
        n := chunk;
      }
      end := ini + n - 1;
      args := args[aux := Param(ini, end)];
      ini := end + 1;
    }
    StartAfterLast(P, N);
  }

  /** The ranges tile [0, p - 1]: the range built first starts at 0, each
      later one starts right after the previous one's inclusive end, and the
      range built last ends at p - 1. */
  lemma RangesTile(p: int32, n: int32)
    requires 0 < p && 0 < n
    ensures Ranges(p, n)[n - 1].ini == 0
    ensures Ranges(p, n)[0].end as int == p as int - 1
    ensures forall k :: 0 <= k < n as int - 1 ==>
              Ranges(p, n)[k].ini as int == Ranges(p, n)[k + 1].end as int + 1
  {
    StartAfterLast(p as int, n as int);
  }

  /** Balance: in construction order, the first p % n ranges hold p / n + 1
      indices and the others p / n; so the highest p % n slots are the
      larger ones. */
  lemma RangesBalanced(p: int32, n: int32)
    requires 0 < p && 0 < n
    ensures forall k :: 0 <= k < n as int ==>
              Size(Ranges(p, n)[k]) == (if n as int - 1 - k < p as int % n as int then p as int / n as int + 1 else p as int / n as int)
    ensures forall k :: 0 <= k < n as int ==>
              (Size(Ranges(p, n)[k]) == p as int / n as int + 1 <==> k >= n as int - p as int % n as int)
  {
    forall k | 0 <= k < n as int
      ensures Size(Ranges(p, n)[k]) == SizeOf(p as int, n as int, n as int - 1 - k)
    {
      StartStep(p as int, n as int, n as int - 1 - k);
    }
  }

  /** With no more elements than threads, no range holds more than one
      element. */
  lemma RangesAtMostOneWhenFewElements(p: int32, n: int32)
    requires 0 < p && 0 < n && p <= n
    ensures forall k :: 0 <= k < n as int ==> Size(Ranges(p, n)[k]) <= 1
  {
    var d, r := p as int / n as int, p as int % n as int;
    assert d == 0 || (d == 1 && r == 0) by {
      if p < n {
        assert d == 0;
      } else {
        assert d == 1 && r == 0;
      }
    }
    RangesBalanced(p, n);
  }

  /** Sum of the sizes of a sequence of inclusive ranges. */
  function TotalSize(rs: seq<Param>): int {
    if |rs| == 0 then 0 else Size(rs[0]) + TotalSize(rs[1..])
  }

  /** The slots k..n-1 hold the ranges of steps 0..n-1-k. */
  lemma {:induction false} SuffixSize(p: int32, n: int32, k: int)
    requires 0 < p && 0 < n && 0 <= k <= n as int
    ensures TotalSize(Ranges(p, n)[k..]) == StartOf(p as int, n as int, n as int - k)
    decreases n as int - k
  {
    var rs := Ranges(p, n);
    if k < n as int {
      SuffixSize(p, n, k + 1);
      assert rs[k..][1..] == rs[k + 1..];
      StartStep(p as int, n as int, n as int - 1 - k);
    }
  }

  /** The range sizes sum to p. */
  lemma RangesSizesSum(p: int32, n: int32)
    requires 0 < p && 0 < n
    ensures TotalSize(Ranges(p, n)) == p as int
  {
    SuffixSize(p, n, 0);
    assert Ranges(p, n)[0..] == Ranges(p, n);
    StartAfterLast(p as int, n as int);
  }

  /** A range in a higher slot was built earlier, so it lies entirely below
      every range in a lower slot. */
  lemma RangesOrdered(p: int32, n: int32, k: int, l: int)
    requires 0 < p && 0 < n && 0 <= k < l < n as int
    ensures Ranges(p, n)[l].end < Ranges(p, n)[k].ini
  {
    StartMonotone(p as int, n as int, n as int - l, n as int - 1 - k);
  }

  /** Every index of [0, p) lies in the inclusive range of some slot. */
  lemma RangesCover(p: int32, n: int32, j: int) returns (k: int)
    requires 0 < p && 0 < n && 0 <= j < p as int
    ensures 0 <= k < n as int
    ensures Ranges(p, n)[k].ini as int <= j <= Ranges(p, n)[k].end as int
  {
    var rs := Ranges(p, n);
    StartAfterLast(p as int, n as int);
    k := n as int - 1;
    while rs[k].end as int < j
      invariant 0 <= k < n as int
      invariant rs[k].ini as int <= j
      decreases k
    {
      if k == 0 {
        assert false;
      }
      k := k - 1;
    }
  }

  /** No index lies in the inclusive ranges of two different slots. */
  lemma RangesDisjoint(p: int32, n: int32, j: int, k: int, l: int)
    requires 0 < p && 0 < n && 0 <= k < n as int && 0 <= l < n as int
    requires Ranges(p, n)[k].ini as int <= j <= Ranges(p, n)[k].end as int
    requires Ranges(p, n)[l].ini as int <= j <= Ranges(p, n)[l].end as int
    ensures k == l
  {
    if l < k {
      RangesOrdered(p, n, l, k);
    } else if k < l {
      RangesOrdered(p, n, k, l);
    }
  }

  /** With fewer elements than threads the chunk is 0 and step t starts at
      min(t, p). */
  lemma {:induction false} StartWhenFewElements(p: int, n: int, t: int)
    requires 0 < p < n && 0 <= t
    ensures StartOf(p, n, t) == Min(t, p)
    decreases t
  {
    if t > 0 {
      StartWhenFewElements(p, n, t - 1);
      FewElementsChunk(p, n);
    }
  }

  /** With fewer elements than threads the chunk is 0 and the remainder is
      every element. */
  lemma FewElementsChunk(p: int, n: int)
    requires 0 < p < n
    ensures p / n == 0 && p % n == p
  {
  }

  /** With fewer elements than threads the chunk is 0: the first p ranges
      built hold one index each, and the remaining ones (the lowest slots)
      are empty, starting at p and ending at p - 1. */
  lemma RangesWhenFewElements(p: int32, n: int32)
    requires 0 < p < n
    ensures forall k :: 0 <= k < n as int - p as int ==>
              Ranges(p, n)[k].ini == p && Ranges(p, n)[k].end as int == Ranges(p, n)[k].ini as int - 1
    ensures forall k :: n as int - p as int <= k < n as int ==>
              Ranges(p, n)[k].ini == Ranges(p, n)[k].end
  {
    forall k | 0 <= k < n as int
      ensures Ranges(p, n)[k].ini as int == Min(n as int - 1 - k, p as int)
      ensures Ranges(p, n)[k].end as int == Min(n as int - k, p as int) - 1
    {
      StartWhenFewElements(p as int, n as int, n as int - 1 - k);
      StartWhenFewElements(p as int, n as int, n as int - k);
    }
  }

  /** Ten elements on three threads: the ranges are [7, 9], [4, 6] and
      [0, 3] in slots 0, 1 and 2. */
  lemma TenElementsThreeThreadsRanges()
    ensures Ranges(10, 3) == [Param(7, 9), Param(4, 6), Param(0, 3)]
  {
    var rs := Ranges(10, 3);
    assert 10 / 3 == 3 && 10 % 3 == 1;
    var s0, s1, s2, s3 := StartOf(10, 3, 0), StartOf(10, 3, 1), StartOf(10, 3, 2), StartOf(10, 3, 3);
    assert s0 == 0 && s1 == 4 && s2 == 7 && s3 == 10;
    assert rs[0].ini as int == s2 && rs[0].end as int == s3 - 1;
    assert rs[1].ini as int == s1 && rs[1].end as int == s2 - 1;
    assert rs[2].ini as int == s0 && rs[2].end as int == s1 - 1;
  }

  /** With one thread the single range is [0, p - 1]. */
  lemma OneThreadRange(p: int32)
    requires 0 < p
    ensures Ranges(p, 1) == [Param(0, p - 1)]
  {
    var rs := Ranges(p, 1);
    assert p as int / 1 == p as int && p as int % 1 == 0;
    var s0, s1 := StartOf(p as int, 1, 0), StartOf(p as int, 1, 1);
    assert s0 == 0 && s1 == p as int;
    assert rs[0].ini as int == s0 && rs[0].end as int == s1 - 1;
  }
}
