/** The log-linear latency histogram (crates/bowst-telemetry/src/histogram.rs): which values share a
    bucket, what a reported percentile says about the values recorded, and what merging does. */
module Histograms {
  import opened Common
  import opened Remainders

  const SUB_BUCKETS: nat := 32
  const BUCKETS: nat := 1920

  // ---------------------------------------------------------------- buckets

  /** The position of the highest set bit, `63 - leading_zeros`. */
  function Top(v: nat): nat
    requires v >= 1
  {
    if v < 2 then 0 else 1 + Top(v / 2)
  }

  function BucketOf(v: u64): nat {
    if v < SUB_BUCKETS then v
    else
      TopBounds(v);
      SubInRange(v);
      var shift := Top(v) - 5;
      var sub := v / Pow2(shift) - SUB_BUCKETS;
      (shift + 1) * SUB_BUCKETS + sub
  }

  function SaturatingU64(n: nat): u64 {
    if n > U64_MAX then U64_MAX else n
  }

  function UpperBound(index: nat): u64 {
    if index >= BUCKETS then U64_MAX
    else if index < SUB_BUCKETS then index
    else
      var shift := index / SUB_BUCKETS - 1;
      SaturatingU64((SUB_BUCKETS + index % SUB_BUCKETS) * Pow2(shift) % TWO_64 + (Pow2(shift) - 1))
  }

  /** Where bucket `index` starts. */
  function LowerBound(index: nat): nat {
    if index < SUB_BUCKETS then index else (SUB_BUCKETS + index % SUB_BUCKETS) * Pow2(index / SUB_BUCKETS - 1)
  }

  lemma {:induction false} TopIs(v: nat, t: nat)
    requires v >= 1
    ensures Top(v) == t <==> Pow2(t) <= v < Pow2(t + 1)
  {
    if v < 2 {
      if t > 0 { Pow2Grows(0, t); }
    } else if t > 0 {
      TopIs(v / 2, t - 1);
      assert Pow2(t) == 2 * Pow2(t - 1) && Pow2(t + 1) == 2 * Pow2(t);
    } else {
      assert Pow2(1) == 2 * Pow2(0);
    }
  }

  lemma {:induction false} TopMonotone(a: nat, b: nat)
    requires 1 <= a <= b
    ensures Top(a) <= Top(b)
  {
    if a >= 2 {
      TopMonotone(a / 2, b / 2);
    }
  }

  lemma TopBounds(v: u64)
    requires v >= SUB_BUCKETS
    ensures 5 <= Top(v) <= 63
  {
    TopMonotone(32, v);
    assert Top(4) == 2 && Top(32) == Top(4) + 3;
    TopMonotone(v, U64_MAX);
    WordIsPow2();
    TopIs(U64_MAX, 63);
  }

  /** `v / d == q`, stated without division. */
  lemma QuotientIs(v: nat, d: nat, q: nat)
    requires d > 0
    ensures v / d == q <==> q * d <= v < (q + 1) * d
  {
    var r := v / d;
    assert r * d <= v < r * d + d;
    assert (q + 1) * d == q * d + d;
    if q < r { assert (q + 1) * d <= r * d; }
    if q > r { assert (r + 1) * d <= q * d; assert (r + 1) * d == r * d + d; }
  }

  /** The numbers from `32 * 2^s` up to `64 * 2^s` are the ones whose highest bit is `s + 5`. */
  lemma TopOfGroup(v: nat, s: nat)
    requires v >= 1
    ensures Top(v) == s + 5 <==> 32 * Pow2(s) <= v < 64 * Pow2(s)
  {
    TopIs(v, s + 5);
    Pow2Sum(5, s);
    Pow2Sum(6, s);
    assert Pow2(5) == 32 && Pow2(6) == 64 by { assert Pow2(3) == 8; }
  }

  // ---------------------------------------------------------------- the buckets partition the values

  lemma GroupFits(s: nat, m: nat)
    requires s <= 58 && m <= 64
    ensures m * Pow2(s) <= TWO_64
  {
    MulMono(m, 64, Pow2(s));
    Pow2Sum(6, s);
    assert Pow2(6) == 64 by { assert Pow2(3) == 8; }
    WordIsPow2();
    if s < 58 { Pow2Grows(s + 6, 64); }
  }

  /** Bucket `index` of the higher groups runs from `m * 2^s` to just below `(m + 1) * 2^s`. */
  lemma Bounds(index: nat)
    requires SUB_BUCKETS <= index < BUCKETS
    ensures var s, m := index / SUB_BUCKETS - 1, SUB_BUCKETS + index % SUB_BUCKETS;
            && LowerBound(index) == m * Pow2(s)
            && UpperBound(index) == (m + 1) * Pow2(s) - 1
            && (m + 1) * Pow2(s) == m * Pow2(s) + Pow2(s)
  {
    var s, m := index / SUB_BUCKETS - 1, SUB_BUCKETS + index % SUB_BUCKETS;
    assert (m + 1) * Pow2(s) == m * Pow2(s) + Pow2(s);
    GroupFits(s, m + 1);
    Small(m * Pow2(s), TWO_64);
  }

  lemma GroupAndSub(s: nat, sub: nat)
    requires sub < SUB_BUCKETS
    ensures ((s + 1) * SUB_BUCKETS + sub) / SUB_BUCKETS == s + 1 && ((s + 1) * SUB_BUCKETS + sub) % SUB_BUCKETS == sub
  {
  }

  lemma QuotientRange(v: nat, d: nat, m: nat)
    requires d > 0 && m * d <= v < (m + 1) * d && 32 * d <= v < 64 * d
    ensures 32 <= m < 64
  {
    if m < 32 { MulMono(m + 1, 32, d); }
    if m >= 64 { MulMono(64, m, d); }
  }

  lemma SubInRange(v: u64)
    requires v >= SUB_BUCKETS && Top(v) >= 5
    ensures 32 <= v / Pow2(Top(v) - 5) < 64
  {
    TopOfGroup(v, Top(v) - 5);
    QuotientBetween(v, Pow2(Top(v) - 5));
  }

  lemma QuotientBetween(v: nat, d: nat)
    requires d > 0 && 32 * d <= v < 64 * d
    ensures 32 <= v / d < 64
  {
    QuotientIs(v, d, v / d);
    QuotientRange(v, d, v / d);
  }

  /** A value of the higher groups, its power of two and its place in it. */
  lemma InItsGroup(v: u64) returns (s: nat, m: nat)
    requires v >= SUB_BUCKETS
    ensures s <= 58 && 32 <= m < 64 && m * Pow2(s) <= v < (m + 1) * Pow2(s)
    ensures BucketOf(v) == (s + 1) * SUB_BUCKETS + (m - SUB_BUCKETS)
  {
    TopBounds(v);
    SubInRange(v);
    s := Top(v) - 5;
    m := v / Pow2(s);
    QuotientIs(v, Pow2(s), m);
  }

  lemma GroupBounds(s: nat, m: nat, index: nat)
    requires s <= 58 && 32 <= m < 64 && index == (s + 1) * SUB_BUCKETS + (m - SUB_BUCKETS)
    ensures index < BUCKETS && LowerBound(index) == m * Pow2(s) && UpperBound(index) == (m + 1) * Pow2(s) - 1
    ensures UpperBound(index) == m * Pow2(s) + Pow2(s) - 1
  {
    GroupAndSub(s, m - SUB_BUCKETS);
    assert index / SUB_BUCKETS - 1 == s && SUB_BUCKETS + index % SUB_BUCKETS == m;
    Bounds(index);
  }

  /** A value's bucket holds it. */
  lemma InItsBucket(v: u64)
    ensures BucketOf(v) < BUCKETS && LowerBound(BucketOf(v)) <= v <= UpperBound(BucketOf(v))
  {
    if v >= SUB_BUCKETS {
      var s, m := InItsGroup(v);
      GroupBounds(s, m, BucketOf(v));
    }
  }

  lemma SameGroup(index: nat)
    requires SUB_BUCKETS <= index && index % SUB_BUCKETS < SUB_BUCKETS - 1
    ensures (index + 1) / SUB_BUCKETS == index / SUB_BUCKETS && (index + 1) % SUB_BUCKETS == index % SUB_BUCKETS + 1
  {
  }

  lemma NextGroup(index: nat)
    requires SUB_BUCKETS <= index && index % SUB_BUCKETS == SUB_BUCKETS - 1
    ensures (index + 1) / SUB_BUCKETS == index / SUB_BUCKETS + 1 && (index + 1) % SUB_BUCKETS == 0
  {
  }

  /** Each bucket starts right where the one before it ends. */
  lemma Contiguous(index: nat)
    requires index + 1 < BUCKETS
    ensures LowerBound(index + 1) == UpperBound(index) + 1
  {
    if index >= SUB_BUCKETS {
      Bounds(index);
      if index % SUB_BUCKETS == SUB_BUCKETS - 1 {
        NextGroup(index);
        Doubled(index / SUB_BUCKETS - 1);
      } else {
        SameGroup(index);
      }
    } else if index + 1 == SUB_BUCKETS {
      assert LowerBound(32) == 32;
    }
  }

  lemma Doubled(s: nat)
    ensures 64 * Pow2(s) == 32 * Pow2(s + 1)
  {
  }

  lemma Ends()
    ensures LowerBound(0) == 0 && UpperBound(BUCKETS - 1) == U64_MAX
  {
    Bounds(BUCKETS - 1);
    WordIsPow2();
    Pow2Sum(6, 58);
    assert Pow2(6) == 64 by { assert Pow2(3) == 8; }
  }

  lemma {:induction false} LowerGrows(i: nat, j: nat)
    requires i < j < BUCKETS
    ensures UpperBound(i) < LowerBound(j)
    decreases j
  {
    Contiguous(j - 1);
    if i < j - 1 {
      LowerGrows(i, j - 1);
      NotEmpty(j - 1);
    }
  }

  lemma NotEmpty(i: nat)
    requires i < BUCKETS
    ensures LowerBound(i) <= UpperBound(i)
  {
    if i >= SUB_BUCKETS { Bounds(i); }
  }

  /** The buckets partition the 64-bit values: a value is in exactly the bucket whose bounds hold it. */
  lemma Partition(v: u64, index: nat)
    requires index < BUCKETS
    ensures BucketOf(v) < BUCKETS && (BucketOf(v) == index <==> LowerBound(index) <= v <= UpperBound(index))
  {
    InItsBucket(v);
    var b := BucketOf(v);
    if b < index { LowerGrows(b, index); }
    if b > index { LowerGrows(index, b); }
  }

  /** Larger values never go to earlier buckets: being at or below a bucket's upper bound is being in
      that bucket or an earlier one. */
  lemma Monotone(v: u64, index: nat)
    requires index < BUCKETS
    ensures BucketOf(v) <= index <==> v <= UpperBound(index)
  {
    InItsBucket(v);
    var b := BucketOf(v);
    if b < index {
      LowerGrows(b, index);
      NotEmpty(index);
    }
    if b > index { LowerGrows(index, b); }
  }

  lemma BucketMonotone(a: u64, b: u64)
    requires a <= b
    ensures BucketOf(a) <= BucketOf(b) < BUCKETS
  {
    InItsBucket(b);
    Monotone(a, BucketOf(b));
  }

  /** The end of a value's bucket overstates it by at most a 32nd. */
  lemma OverstatesLittle(v: u64)
    ensures UpperBound(BucketOf(v)) <= v + v / 32
  {
    if v >= SUB_BUCKETS {
      var s, m := InItsGroup(v);
      GroupBounds(s, m, BucketOf(v));
      MulMono(32, m, Pow2(s));
    }
  }

  // ---------------------------------------------------------------- recording and merging

  datatype Hist = Hist(counts: seq<u64>, count: u64, sum: u64, max: u64, min: u64)

  function Empty(): Hist {
    Hist(seq(BUCKETS, i => 0), 0, 0, 0, U64_MAX)
  }

  predicate Sized(h: Hist) {
    |h.counts| == BUCKETS
  }

  function Record(h: Hist, v: u64): (r: Hist)
    requires Sized(h)
    ensures Sized(r)
  {
    InItsBucket(v);
    var b := BucketOf(v);
    Hist(h.counts[b := SatAdd(h.counts[b], 1)], SatAdd(h.count, 1), SatAdd(h.sum, v), Max(h.max, v), Min(h.min, v))
  }

  function MergedCounts(a: seq<u64>, b: seq<u64>): (r: seq<u64>)
    requires |a| == |b|
    ensures |r| == |a|
    ensures forall i :: 0 <= i < |r| ==> r[i] == SatAdd(a[i], b[i])
  {
    seq(|a|, i requires 0 <= i < |a| => SatAdd(a[i], b[i]))
  }

  function Merge(a: Hist, b: Hist): Hist
    requires Sized(a) && Sized(b)
  {
    Hist(MergedCounts(a.counts, b.counts), SatAdd(a.count, b.count), SatAdd(a.sum, b.sum), Max(a.max, b.max),
        Min(a.min, b.min))
  }

  function RecordAll(values: seq<u64>): (h: Hist)
    ensures Sized(h)
  {
    if values == [] then Empty() else Record(RecordAll(values[..|values| - 1]), values[|values| - 1])
  }

  /** How many values are in bucket `b`. */
  function CountIn(values: seq<u64>, b: nat): nat {
    if values == [] then 0
    else CountIn(values[..|values| - 1], b) + if BucketOf(values[|values| - 1]) == b then 1 else 0
  }

  function Sum(values: seq<u64>): nat {
    if values == [] then 0 else Sum(values[..|values| - 1]) + values[|values| - 1]
  }

  function Largest(values: seq<u64>): u64 {
    if values == [] then 0 else Max(Largest(values[..|values| - 1]), values[|values| - 1])
  }

  function Smallest(values: seq<u64>): u64 {
    if values == [] then U64_MAX else Min(Smallest(values[..|values| - 1]), values[|values| - 1])
  }

  /** The histogram of `values`, stated outright: what each counter holds, cut off at its width. */
  ghost predicate Describes(h: Hist, values: seq<u64>) {
    && Sized(h)
    && (forall i :: 0 <= i < BUCKETS ==> h.counts[i] == SaturatingU64(CountIn(values, i)))
    && h.count == SaturatingU64(|values|) && h.sum == SaturatingU64(Sum(values))
    && h.max == Largest(values) && h.min == Smallest(values)
  }

  /** However many values are recorded, every counter holds its exact total, cut off at 64 bits. */
  lemma {:induction false} RecordsAll(values: seq<u64>)
    ensures Describes(RecordAll(values), values)
  {
    if values != [] {
      var before, v := values[..|values| - 1], values[|values| - 1];
      RecordsAll(before);
      InItsBucket(v);
      forall i | 0 <= i < BUCKETS
        ensures RecordAll(values).counts[i] == SaturatingU64(CountIn(values, i))
      {
        assert RecordAll(before).counts[i] == SaturatingU64(CountIn(before, i));
      }
    }
  }

  lemma {:induction false} Appends(a: seq<u64>, b: seq<u64>, i: nat)
    ensures CountIn(a + b, i) == CountIn(a, i) + CountIn(b, i) && Sum(a + b) == Sum(a) + Sum(b)
    ensures Largest(a + b) == Max(Largest(a), Largest(b)) && Smallest(a + b) == Min(Smallest(a), Smallest(b))
    decreases |b|
  {
    if b == [] {
      assert a + b == a;
    } else {
      Appends(a, b[..|b| - 1], i);
      assert (a + b)[..|a + b| - 1] == a + b[..|b| - 1];
    }
  }

  /** A description leaves no freedom. */
  lemma SameDescription(h: Hist, k: Hist, values: seq<u64>)
    requires Describes(h, values) && Describes(k, values)
    ensures h == k
  {
    assert h.counts == k.counts;
  }

  /** Merging two histograms is having recorded both lists of values in one, saturation included. */
  lemma MergeIsRecordingBoth(a: seq<u64>, b: seq<u64>)
    ensures Merge(RecordAll(a), RecordAll(b)) == RecordAll(a + b)
  {
    var m := Merge(RecordAll(a), RecordAll(b));
    RecordsAll(a);
    RecordsAll(b);
    RecordsAll(a + b);
    Appends(a, b, 0);
    forall i | 0 <= i < BUCKETS ensures m.counts[i] == SaturatingU64(CountIn(a + b, i)) {
      Appends(a, b, i);
    }
    SameDescription(m, RecordAll(a + b), a + b);
  }

  // ---------------------------------------------------------------- percentiles

  const MILLION: nat := 1_000_000

  /** `rank_for`: the rank, counted from 1, of the value at `ppm` parts per million. */
  function RankFor(count: u64, ppm: nat): u64 {
    Max(SaturatingU64((count * ppm + (MILLION - 1)) / MILLION), 1)
  }

  /** The scan of `value_at_ppm`: the first bucket at which `rank` values have been seen. */
  function Scan(counts: seq<u64>, rank: u64, i: nat, seen: u64): Option<nat>
    requires i <= |counts|
    decreases |counts| - i
  {
    if i == |counts| then None
    else
      var seen' := SatAdd(seen, counts[i]);
      if seen' >= rank then Some(i) else Scan(counts, rank, i + 1, seen')
  }

  function ReportFor(h: Hist, found: Option<nat>): u64 {
    if found.Some? then Min(UpperBound(found.value), h.max) else h.max
  }

  function ValueAt(h: Hist, ppm: nat): u64
    requires Sized(h)
  {
    if h.count == 0 then 0 else ReportFor(h, Scan(h.counts, RankFor(h.count, Min(ppm, MILLION)), 0, 0))
  }

  /** The rank is the least that reaches the share asked for, and never more than there are values. */
  lemma RankIsLeast(count: u64, ppm: nat, k: nat)
    requires 1 <= count && ppm <= MILLION && k >= 1
    ensures k >= RankFor(count, ppm) <==> k * MILLION >= count * ppm
    ensures RankFor(count, ppm) <= count
  {
    MulMono(ppm, MILLION, count);
    RoundsUp(count * ppm, k);
    RoundsUp(count * ppm, count);
  }

  lemma RoundsUp(n: nat, k: nat)
    ensures k >= (n + (MILLION - 1)) / MILLION <==> k * MILLION >= n
  {
  }

  /** How many values are at most `x`. */
  function CountAtMost(values: seq<u64>, x: int): nat {
    if values == [] then 0
    else CountAtMost(values[..|values| - 1], x) + if values[|values| - 1] <= x then 1 else 0
  }

  /** `x` is the `k`-th smallest of `values`: fewer than `k` are smaller, and `k` are no larger. */
  predicate IsKth(values: seq<u64>, k: nat, x: u64) {
    CountAtMost(values, x - 1) < k <= CountAtMost(values, x)
  }

  lemma {:induction false} CountsGrow(values: seq<u64>, x: int, y: int)
    requires x <= y
    ensures CountAtMost(values, x) <= CountAtMost(values, y) <= |values|
  {
    if values != [] {
      CountsGrow(values[..|values| - 1], x, y);
    }
  }

  lemma {:induction false} CountsEnds(values: seq<u64>)
    ensures CountAtMost(values, -1) == 0 && CountAtMost(values, U64_MAX) == |values|
  {
    if values != [] {
      CountsEnds(values[..|values| - 1]);
    }
  }

  /** There is a `k`-th smallest value for every `k` up to the number of values. */
  lemma KthExists(values: seq<u64>, k: nat) returns (x: u64)
    requires 1 <= k <= |values|
    ensures IsKth(values, k, x)
  {
    CountsEnds(values);
    x := KthUpTo(values, k, U64_MAX);
  }

  lemma {:induction false} KthUpTo(values: seq<u64>, k: nat, top: u64) returns (x: u64)
    requires 1 <= k <= CountAtMost(values, top)
    ensures IsKth(values, k, x)
    decreases top
  {
    CountsEnds(values);
    if CountAtMost(values, top - 1) < k {
      x := top;
    } else {
      x := KthUpTo(values, k, top - 1);
    }
  }

  lemma {:induction false} AtMostLargest(values: seq<u64>, x: u64)
    requires CountAtMost(values, x - 1) < CountAtMost(values, x)
    ensures x <= Largest(values)
  {
    if values[|values| - 1] != x {
      AtMostLargest(values[..|values| - 1], x);
    }
  }

  lemma {:induction false} CountAtLargest(values: seq<u64>, x: u64)
    requires x >= Largest(values)
    ensures CountAtMost(values, x) == |values|
  {
    if values != [] {
      CountAtLargest(values[..|values| - 1], x);
    }
  }

  /** The values up to the end of a bucket are those of the bucket and those before it. */
  lemma {:induction false} CountsByBucket(values: seq<u64>, b: nat)
    requires b < BUCKETS
    ensures CountAtMost(values, UpperBound(b)) == CountAtMost(values, LowerBound(b) - 1) + CountIn(values, b)
  {
    if values != [] {
      CountsByBucket(values[..|values| - 1], b);
      NotEmpty(b);
      Partition(values[|values| - 1], b);
    }
  }

  function Prefix(counts: seq<u64>, i: nat): nat
    requires i <= |counts|
  {
    if i == 0 then 0 else Prefix(counts, i - 1) + counts[i - 1]
  }

  lemma {:induction false} PrefixGrows(counts: seq<u64>, i: nat, j: nat)
    requires i <= j <= |counts|
    ensures Prefix(counts, i) <= Prefix(counts, j)
    decreases j
  {
    if i < j {
      PrefixGrows(counts, i, j - 1);
    }
  }

  /** What the scan has seen before bucket `b` is how many values come before it. */
  lemma {:induction false} PrefixCounts(h: Hist, values: seq<u64>, b: nat)
    requires Describes(h, values) && |values| <= U64_MAX && b < BUCKETS
    ensures Prefix(h.counts, b) == CountAtMost(values, LowerBound(b) - 1)
    ensures Prefix(h.counts, b + 1) == CountAtMost(values, UpperBound(b))
  {
    CountsByBucket(values, b);
    CountsGrow(values, UpperBound(b), U64_MAX);
    assert h.counts[b] == SaturatingU64(CountIn(values, b));
    if b == 0 {
      CountsEnds(values);
    } else {
      PrefixCounts(h, values, b - 1);
      Contiguous(b - 1);
    }
  }

  lemma {:induction false} ScanFinds(counts: seq<u64>, rank: u64, i: nat, b: nat)
    requires i <= b < |counts| && Prefix(counts, b) < rank <= Prefix(counts, b + 1) <= U64_MAX
    ensures 0 <= Prefix(counts, i) <= U64_MAX && Scan(counts, rank, i, Prefix(counts, i)) == Some(b)
    decreases b - i
  {
    PrefixGrows(counts, i, b);
    if i < b {
      PrefixGrows(counts, i + 1, b);
      ScanFinds(counts, rank, i + 1, b);
    }
  }

  /** Which bucket a percentile is read from: that of the exact value of that rank. */
  lemma FindsKth(h: Hist, values: seq<u64>, rank: u64, x: u64)
    requires Describes(h, values) && |values| <= U64_MAX && IsKth(values, rank, x)
    ensures Scan(h.counts, rank, 0, 0) == Some(BucketOf(x))
  {
    var b := BucketOf(x);
    InItsBucket(x);
    PrefixCounts(h, values, b);
    CountsGrow(values, LowerBound(b) - 1, x - 1);
    CountsGrow(values, x, UpperBound(b));
    CountsGrow(values, UpperBound(b), U64_MAX);
    ScanFinds(h.counts, rank, 0, b);
  }

  /** A reported percentile is never below the exact value of its rank, overstates it by at most a
      32nd, and never exceeds the largest value recorded. */
  lemma PercentileBounds(values: seq<u64>, ppm: nat, x: u64)
    requires values != [] && |values| <= U64_MAX && IsKth(values, RankFor(|values|, Min(ppm, MILLION)), x)
    ensures var reported := ValueAt(RecordAll(values), ppm);
            && x <= reported <= x + x / 32 && reported <= Largest(values)
            && reported == Min(UpperBound(BucketOf(x)), Largest(values))
  {
    RecordsAll(values);
    FindsKth(RecordAll(values), values, RankFor(|values|, Min(ppm, MILLION)), x);
    InItsBucket(x);
    OverstatesLittle(x);
    AtMostLargest(values, x);
  }

  /** With nothing recorded, every percentile and the largest value are 0. */
  lemma PercentileOfNone(ppm: nat)
    ensures ValueAt(RecordAll([]), ppm) == 0 && RecordAll([]).max == 0
  {
  }

  /** At least the share asked for of the values recorded is at or below the reported percentile. */
  lemma PercentileShare(values: seq<u64>, ppm: nat)
    requires values != [] && |values| <= U64_MAX
    ensures CountAtMost(values, ValueAt(RecordAll(values), ppm)) * MILLION >= |values| * Min(ppm, MILLION)
  {
    var share := Min(ppm, MILLION);
    var rank := RankFor(|values|, share);
    RankIsLeast(|values|, share, rank);
    var x := KthExists(values, rank);
    PercentileBounds(values, ppm, x);
    CountsGrow(values, x, ValueAt(RecordAll(values), ppm));
    RankIsLeast(|values|, share, CountAtMost(values, ValueAt(RecordAll(values), ppm)));
  }

  // ---------------------------------------------------------------- the histogram itself

  class LatencyHistogram {
    const counts: array<u64>
    var count: u64
    var sum: u64
    var max: u64
    var min: u64

    ghost predicate Valid()
      reads this
    {
      counts.Length == BUCKETS
    }

    ghost function State(): Hist
      reads this, counts
    {
      Hist(counts[..], count, sum, max, min)
    }

    constructor ()
      ensures Valid() && fresh(counts) && State() == Empty()
    {
      counts := new u64[BUCKETS](i => 0);
      count, sum, max, min := 0, 0, 0, U64_MAX;
      new;
      assert counts[..] == Empty().counts;
    }

    method RecordValue(nanos: u64)
      requires Valid()
      modifies this, counts
      ensures Valid() && State() == Record(old(State()), nanos)
    {
      InItsBucket(nanos);
      var slot := BucketOf(nanos);
      counts[slot] := SatAdd(counts[slot], 1);
      count := SatAdd(count, 1);
      sum := SatAdd(sum, nanos);
      max := Max(max, nanos);
      min := Min(min, nanos);
    }

    method ValueAtPpm(ppm: nat) returns (value: u64)
      requires Valid()
      ensures value == ValueAt(State(), ppm)
    {
      if count == 0 {
        return 0;
      }
      var rank := RankFor(count, Min(ppm, MILLION));
      var seen: u64 := 0;
      var index := 0;
      while index < counts.Length
        invariant 0 <= index <= counts.Length
        invariant Scan(counts[..], rank, index, seen) == Scan(counts[..], rank, 0, 0)
      {
        seen := SatAdd(seen, counts[index]);
        if seen >= rank {
          return Min(UpperBound(index), max);
        }
        index := index + 1;
      }
      return max;
    }

    method MergeFrom(other: LatencyHistogram)
      requires Valid() && other.Valid() && other != this && other.counts != counts
      modifies this, counts
      ensures Valid() && State() == Merge(old(State()), old(other.State()))
    {
      var i := 0;
      while i < counts.Length
        invariant 0 <= i <= counts.Length
        invariant forall j :: 0 <= j < i ==> counts[j] == SatAdd(old(counts[j]), other.counts[j])
        invariant forall j :: i <= j < counts.Length ==> counts[j] == old(counts[j])
        invariant unchanged(this)
      {
        counts[i] := SatAdd(counts[i], other.counts[i]);
        i := i + 1;
      }
      assert counts[..] == MergedCounts(old(counts[..]), other.counts[..]);
      count := SatAdd(count, other.count);
      sum := SatAdd(sum, other.sum);
      max := Max(max, other.max);
      min := Min(min, other.min);
    }

    method Reset()
      requires Valid()
      modifies this, counts
      ensures Valid() && State() == Empty()
    {
      var i := 0;
      while i < counts.Length
        invariant 0 <= i <= counts.Length
        invariant forall j :: 0 <= j < i ==> counts[j] == 0
      {
        counts[i] := 0;
        i := i + 1;
      }
      count, sum, max, min := 0, 0, 0, U64_MAX;
      assert counts[..] == Empty().counts;
    }
  }
}
