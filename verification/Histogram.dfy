/** The stress harness's histogram arithmetic, over exact reals. */
module Histogram {
  datatype Bucket = Bucket(bound: real, count: int)

  const SECOND: real := 1_000_000_000.0

  // ---------------------------------------------------------- insertion sort

  ghost predicate SortedTo(s: seq<Bucket>, n: int) {
    forall i, j :: 0 <= i < j < n <= |s| ==> s[i].bound <= s[j].bound
  }

  /** Sorted up to n, leaving position k out of account. */
  ghost predicate SortedBut(s: seq<Bucket>, n: int, k: int) {
    forall i, j :: 0 <= i < j < n <= |s| && i != k && j != k ==> s[i].bound <= s[j].bound
  }

  method Swap(a: array<Bucket>, j: nat)
    requires 0 < j < a.Length
    modifies a
    ensures a[..] == old(a[..])[j - 1 := old(a[j])][j := old(a[j - 1])]
    ensures multiset(a[..]) == multiset(old(a[..]))
  {
    a[j - 1], a[j] := a[j], a[j - 1];
  }

  /** Carry element i down to its place among the i sorted ones before it. */
  method Sink(a: array<Bucket>, i: nat)
    requires i < a.Length && SortedTo(a[..], i)
    modifies a
    ensures SortedTo(a[..], i + 1) && multiset(a[..]) == multiset(old(a[..]))
  {
    var j := i;
    while j > 0 && a[j - 1].bound > a[j].bound
      invariant 0 <= j <= i
      invariant SortedBut(a[..], i + 1, j) && forall k :: j < k <= i ==> a[j].bound <= a[k].bound
      invariant multiset(a[..]) == multiset(old(a[..]))
    {
      Swap(a, j);
      j := j - 1;
    }
  }

  /** The in-place sort: a sorted permutation. */
  method SortBuckets(a: array<Bucket>)
    modifies a
    ensures SortedTo(a[..], a.Length) && multiset(a[..]) == multiset(old(a[..]))
  {
    var i := 1;
    while i < a.Length
      invariant 1 <= i && SortedTo(a[..], if i <= a.Length then i else a.Length)
      invariant multiset(a[..]) == multiset(old(a[..]))
    {
      Sink(a, i);
      i := i + 1;
    }
  }

  // ------------------------------------------------------------- quantiles

  /** A sorted cumulative series with non-negative bounds. */
  predicate Series(bs: seq<Bucket>) {
    && (forall i :: 0 <= i < |bs| ==> 0.0 <= bs[i].bound && 0 <= bs[i].count)
    && (forall i, j :: 0 <= i < j < |bs| ==> bs[i].bound <= bs[j].bound && bs[i].count <= bs[j].count)
  }

  /** The first bucket whose count reaches the target, or the length. */
  function Reach(bs: seq<Bucket>, target: real): (i: nat)
    ensures i <= |bs|
    ensures forall j :: 0 <= j < i ==> (bs[j].count as real) < target
    ensures i < |bs| ==> bs[i].count as real >= target
  {
    if bs == [] || bs[0].count as real >= target then 0 else 1 + Reach(bs[1..], target)
  }

  function LowerBound(bs: seq<Bucket>, i: nat): real
    requires i <= |bs|
  {
    if i == 0 then 0.0 else bs[i - 1].bound
  }

  function CountBelow(bs: seq<Bucket>, i: nat): int
    requires i <= |bs|
  {
    if i == 0 then 0 else bs[i - 1].count
  }

  /** The share a / b of a width. */
  function Share(a: real, b: real, width: real): real
    requires b > 0.0
  {
    a / b * width
  }

  /** Linear interpolation inside bucket i. */
  function Inside(bs: seq<Bucket>, i: nat, target: real): real
    requires i < |bs|
  {
    var countIn := (bs[i].count - CountBelow(bs, i)) as real;
    if countIn <= 0.0 then bs[i].bound
    else LowerBound(bs, i) + Share(target - CountBelow(bs, i) as real, countIn, bs[i].bound - LowerBound(bs, i))
  }

  function EstimateAt(bs: seq<Bucket>, target: real): real
    requires bs != []
  {
    var i := Reach(bs, target);
    if i == |bs| then bs[|bs| - 1].bound else Inside(bs, i, target)
  }

  /** The estimated quantile in seconds. */
  function Estimate(bs: seq<Bucket>, total: int, q: real): real
    requires bs != []
  {
    EstimateAt(bs, total as real * q)
  }

  /** Conversion to an integer, toward zero. */
  function Truncate(x: real): int { if x >= 0.0 then x.Floor else -((-x).Floor) }

  function ToNanoseconds(seconds: real): int { Truncate(seconds * SECOND) }

  /** Indexing an empty bucket list panics. */
  datatype Quantile = Nanoseconds(value: int) | Panic

  method DurationQuantile(bs: seq<Bucket>, total: int, q: real) returns (r: Quantile)
    ensures total == 0 ==> r == Nanoseconds(0)
    ensures total != 0 && bs == [] ==> r == Panic
    ensures total != 0 && bs != [] ==> r == Nanoseconds(ToNanoseconds(Estimate(bs, total, q)))
  {
    if total == 0 {
      return Nanoseconds(0);
    }
    if bs == [] {
      return Panic;
    }
    var seconds := Interpolate(bs, total as real * q);
    return Nanoseconds(ToNanoseconds(seconds));
  }

  /** The loop over the buckets. */
  method Interpolate(bs: seq<Bucket>, target: real) returns (seconds: real)
    requires bs != []
    ensures seconds == EstimateAt(bs, target)
  {
    var prevBound, prevCount := 0.0, 0;
    for i := 0 to |bs|
      invariant forall j :: 0 <= j < i ==> (bs[j].count as real) < target
      invariant prevBound == LowerBound(bs, i) && prevCount == CountBelow(bs, i)
    {
      var b := bs[i];
      if b.count as real >= target {
        var width := b.bound - prevBound;
        var countIn := (b.count - prevCount) as real;
        if countIn <= 0.0 {
          return b.bound;
        }
        var frac := (target - prevCount as real) / countIn;
        return prevBound + frac * width;
      }
      prevBound := b.bound;
      prevCount := b.count;
    }
    return bs[|bs| - 1].bound;
  }

  lemma ShareBounded(a: real, b: real, w: real)
    requires 0.0 <= a <= b && b > 0.0 && w >= 0.0
    ensures 0.0 <= Share(a, b, w) <= w
  {
    Scaled(a / b, w);
  }

  lemma Scaled(f: real, w: real)
    requires 0.0 <= f <= 1.0 && w >= 0.0
    ensures 0.0 <= f * w <= w
  {
    assert (1.0 - f) * w >= 0.0;
    assert (1.0 - f) * w == w - f * w;
  }

  lemma ShareMonotone(a: real, a': real, b: real, w: real)
    requires a <= a' && b > 0.0 && w >= 0.0
    ensures Share(a, b, w) <= Share(a', b, w)
  {
    assert a / b <= a' / b;
  }

  lemma Targets(total: int, q: real, q': real)
    requires total >= 0 && 0.0 <= q <= q'
    ensures 0.0 <= total as real * q <= total as real * q'
  {
  }

  lemma Bracketed(bs: seq<Bucket>, target: real)
    requires Series(bs) && bs != [] && target >= 0.0
    ensures var i := Reach(bs, target);
      i < |bs| ==> LowerBound(bs, i) <= EstimateAt(bs, target) <= bs[i].bound
  {
    var i := Reach(bs, target);
    if i < |bs| {
      BucketBrackets(bs, i, target);
    }
  }

  lemma BucketBrackets(bs: seq<Bucket>, i: nat, target: real)
    requires Series(bs) && i < |bs|
    requires CountBelow(bs, i) as real <= target <= bs[i].count as real
    ensures LowerBound(bs, i) <= Inside(bs, i, target) <= bs[i].bound
  {
    RealDifference(bs[i].count, CountBelow(bs, i));
    if bs[i].count > CountBelow(bs, i) {
      ShareBounded(target - CountBelow(bs, i) as real, (bs[i].count - CountBelow(bs, i)) as real,
                   bs[i].bound - LowerBound(bs, i));
    }
  }

  lemma RealDifference(a: int, b: int)
    ensures (a - b) as real == a as real - b as real
    ensures a > b <==> (a - b) as real > 0.0
  {
  }

  /** The estimate lies between the bounds of the first bucket whose count reaches
      q times the total. */
  lemma EstimateBracketed(bs: seq<Bucket>, total: int, q: real)
    requires Series(bs) && bs != [] && total >= 0 && q >= 0.0
    ensures var i := Reach(bs, total as real * q);
      i < |bs| ==> LowerBound(bs, i) <= Estimate(bs, total, q) <= bs[i].bound
  {
    Targets(total, q, q);
    Bracketed(bs, total as real * q);
  }

  /** Bucket i is the first whose count reaches the target. */
  predicate FirstReaching(bs: seq<Bucket>, target: real, i: nat) {
    i < |bs| && bs[i].count as real >= target && forall j :: 0 <= j < i ==> (bs[j].count as real) < target
  }

  /** The estimate in numbers.  It divides the first bucket that reaches q times the
      total in the proportion in which that target divides the bucket's own count; an
      empty bucket gives its upper bound, and no such bucket the last bound. */
  lemma EstimateExactly(bs: seq<Bucket>, total: int, q: real, i: nat)
    requires bs != []
    ensures var e, target := Estimate(bs, total, q), total as real * q;
      && (FirstReaching(bs, target, i) ==>
          var lower := if i == 0 then 0.0 else bs[i - 1].bound;
          var below := if i == 0 then 0 else bs[i - 1].count;
          if bs[i].count <= below then e == bs[i].bound
          else (e - lower) * (bs[i].count - below) as real == (target - below as real) * (bs[i].bound - lower))
      && ((forall j :: 0 <= j < |bs| ==> (bs[j].count as real) < target) ==> e == bs[|bs| - 1].bound)
  {
    var target := total as real * q;
    if FirstReaching(bs, target, i) {
      assert Reach(bs, target) == i;
      if bs[i].count > CountBelow(bs, i) {
        RealDifference(bs[i].count, CountBelow(bs, i));
        Proportion(target - CountBelow(bs, i) as real, (bs[i].count - CountBelow(bs, i)) as real,
                   bs[i].bound - LowerBound(bs, i));
      }
    }
  }

  lemma Proportion(a: real, b: real, w: real)
    requires b > 0.0
    ensures Share(a, b, w) * b == a * w
  {
    assert a / b * w * b == a / b * b * w;
  }

  /** The conversion to nanoseconds drops the fraction, toward zero. */
  lemma NanosecondsExactly(seconds: real)
    ensures var n := ToNanoseconds(seconds) as real;
      if seconds >= 0.0 then n <= seconds * 1_000_000_000.0 < n + 1.0
      else n - 1.0 < seconds * 1_000_000_000.0 <= n
  {
  }

  lemma ReachMonotone(bs: seq<Bucket>, t: real, t': real)
    requires t <= t'
    ensures Reach(bs, t) <= Reach(bs, t')
  {
  }

  lemma InsideMonotone(bs: seq<Bucket>, i: nat, t: real, t': real)
    requires Series(bs) && i < |bs| && t <= t'
    ensures Inside(bs, i, t) <= Inside(bs, i, t')
  {
    var countIn := (bs[i].count - CountBelow(bs, i)) as real;
    if countIn > 0.0 {
      var below := CountBelow(bs, i) as real;
      ShareMonotone(t - below, t' - below, countIn, bs[i].bound - LowerBound(bs, i));
    }
  }

  lemma EstimateAtMonotone(bs: seq<Bucket>, t: real, t': real)
    requires Series(bs) && bs != [] && 0.0 <= t <= t'
    ensures EstimateAt(bs, t) <= EstimateAt(bs, t')
  {
    ReachMonotone(bs, t, t');
    var i, i' := Reach(bs, t), Reach(bs, t');
    Bracketed(bs, t);
    Bracketed(bs, t');
    if i == i' < |bs| {
      InsideMonotone(bs, i, t, t');
    }
  }

  /** A larger quantile never gives a smaller estimate, in seconds or nanoseconds. */
  lemma EstimateMonotone(bs: seq<Bucket>, total: int, q: real, q': real)
    requires Series(bs) && bs != [] && total >= 0 && 0.0 <= q <= q'
    ensures Estimate(bs, total, q) <= Estimate(bs, total, q')
    ensures ToNanoseconds(Estimate(bs, total, q)) <= ToNanoseconds(Estimate(bs, total, q'))
  {
    Targets(total, q, q');
    EstimateAtMonotone(bs, total as real * q, total as real * q');
    NanosecondsMonotone(Estimate(bs, total, q), Estimate(bs, total, q'));
  }

  lemma NanosecondsMonotone(a: real, b: real)
    requires a <= b
    ensures ToNanoseconds(a) <= ToNanoseconds(b)
  {
    TruncateMonotone(a * SECOND, b * SECOND);
  }

  lemma TruncateMonotone(x: real, y: real)
    requires x <= y
    ensures Truncate(x) <= Truncate(y)
  {
  }

  // ----------------------------------------------------------------- diffs

  /** What bucket i itself has counted. */
  function Own(bs: seq<Bucket>, i: nat): int
    requires i < |bs|
  {
    bs[i].count - CountBelow(bs, i)
  }

  datatype Snapshot = Snapshot(buckets: seq<Bucket>, sum: real, count: int)

  /** out is after - before, bucket by bucket, for series of equal length. */
  predicate IsDiff(before: seq<Bucket>, after: seq<Bucket>, out: seq<Bucket>) {
    && |before| == |after| == |out|
    && forall i :: 0 <= i < |out| ==> out[i].bound == after[i].bound && out[i].count == after[i].count - before[i].count
  }

  /** The difference of two scrapes; when the series differ in length the buckets are
      those of the later one as they stand. */
  method DiffHistogram(before: Snapshot, after: Snapshot) returns (out: Snapshot)
    ensures out.sum == after.sum - before.sum && out.count == after.count - before.count
    ensures if |before.buckets| == |after.buckets| then IsDiff(before.buckets, after.buckets, out.buckets)
            else out.buckets == after.buckets
  {
    if |before.buckets| != |after.buckets| {
      return Snapshot(after.buckets, after.sum - before.sum, after.count - before.count);
    }
    var buckets := DiffBuckets(before.buckets, after.buckets);
    return Snapshot(buckets, after.sum - before.sum, after.count - before.count);
  }

  method DiffBuckets(before: seq<Bucket>, after: seq<Bucket>) returns (out: seq<Bucket>)
    requires |before| == |after|
    ensures IsDiff(before, after, out)
  {
    out := [];
    for i := 0 to |after|
      invariant IsDiff(before[..i], after[..i], out)
    {
      out := out + [Bucket(after[i].bound, after[i].count - before[i].count)];
    }
    assert before[..|before|] == before && after[..|after|] == after;
  }

  /** The difference of two scrapes is again a series exactly when no bucket's own
      count has gone down. */
  lemma DiffIsSeries(before: seq<Bucket>, after: seq<Bucket>, out: seq<Bucket>)
    requires IsDiff(before, after, out) && Series(after)
    ensures Series(out) <==> forall i :: 0 <= i < |out| ==> Own(before, i) <= Own(after, i)
  {
    if forall i :: 0 <= i < |out| ==> Own(before, i) <= Own(after, i) {
      forall i, j | 0 <= i <= j < |out| ensures 0 <= out[i].count <= out[j].count {
        DiffGrows(before, after, out, 0, i);
        DiffGrows(before, after, out, i, j);
      }
    }
    if Series(out) {
      forall i | 0 <= i < |out| ensures Own(before, i) <= Own(after, i) {
        assert i > 0 ==> out[i - 1].count <= out[i].count;
      }
    }
  }

  lemma {:induction false} DiffGrows(before: seq<Bucket>, after: seq<Bucket>, out: seq<Bucket>, i: nat, j: nat)
    requires IsDiff(before, after, out) && i <= j < |out|
    requires forall k :: 0 <= k < |out| ==> Own(before, k) <= Own(after, k)
    ensures out[i].count <= out[j].count && 0 <= out[0].count
    decreases j - i
  {
    assert Own(before, 0) <= Own(after, 0);
    if i < j {
      DiffGrows(before, after, out, i, j - 1);
      assert Own(before, j) <= Own(after, j);
    }
  }
}
