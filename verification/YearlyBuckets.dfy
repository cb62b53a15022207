/**
 * The plan's yearly date buckets and the bucket halving, on time values in milliseconds.
 * A range is half-open: the `created_at` filter excludes its end.
 */
module YearlyBuckets {
  import opened Numbers
  import opened UtcCalendar

  datatype Range = Range(start: int, end: int) {
    function Width(): int { end - start }

    predicate Contains(t: int) { start <= t < end }
  }

  /** Buckets from `cursor` on, as the loop pushes them. */
  function BucketsFrom(cursor: int, max: int): seq<Range>
    decreases max - cursor
  {
    if cursor > max then []
    else
      var next := NextYearStart(cursor);
      [Range(cursor, if next > max then max + 1000 else next)] + BucketsFrom(next, max)
  }

  method GenerateYearlyBuckets(min: int, max: int) returns (buckets: seq<Range>)
    ensures buckets == BucketsFrom(min, max)
  {
    buckets := [];
    if min > max {
      return;
    }
    var cursor := min;
    while cursor <= max
      invariant buckets + BucketsFrom(cursor, max) == BucketsFrom(min, max)
      decreases max - cursor
    {
      var nextYear := NextYearStart(cursor);
      var end := if nextYear > max then max + 1000 else nextYear;
      assert BucketsFrom(cursor, max) == [Range(cursor, end)] + BucketsFrom(nextYear, max);
      buckets := buckets + [Range(cursor, end)];
      cursor := nextYear;
    }
  }

  /** Non-empty ranges laid end to end from `start` to `end`. */
  ghost predicate Tiles(buckets: seq<Range>, start: int, end: int) {
    && |buckets| > 0 && buckets[0].start == start && buckets[|buckets| - 1].end == end
    && (forall i :: 0 <= i < |buckets| ==> buckets[i].start < buckets[i].end)
    && (forall i :: 0 <= i < |buckets| - 1 ==> buckets[i].end == buckets[i + 1].start)
  }

  /** The buckets tile [min, max + 1 s), whatever the years involved. */
  lemma {:induction false} BucketsTile(min: int, max: int)
    requires min <= max
    ensures Tiles(BucketsFrom(min, max), min, max + 1000)
    decreases max - min
  {
    var next := NextYearStart(min);
    if next <= max {
      BucketsTile(next, max);
    }
  }

  lemma NothingAfterMax(min: int, max: int)
    ensures min > max <==> BucketsFrom(min, max) == []
  {
  }

  /** Every instant of a tiled span lies in exactly one tile. */
  lemma {:induction false} TilesCover(buckets: seq<Range>, start: int, end: int, t: int) returns (i: nat)
    requires Tiles(buckets, start, end) && start <= t < end
    ensures i < |buckets| && buckets[i].Contains(t)
    ensures forall j :: 0 <= j < |buckets| && buckets[j].Contains(t) ==> j == i
  {
    if t < buckets[0].end {
      i := 0;
      LaterTilesStartLater(buckets, start, end);
    } else {
      assert |buckets| > 1;
      var k := TilesCover(buckets[1..], buckets[1].start, end, t);
      i := k + 1;
      forall j | 0 <= j < |buckets| && buckets[j].Contains(t) ensures j == i {
        if j > 0 {
          assert buckets[1..][j - 1].Contains(t);
        }
      }
    }
  }

  lemma {:induction false} LaterTilesStartLater(buckets: seq<Range>, start: int, end: int)
    requires Tiles(buckets, start, end)
    ensures forall j :: 0 < j < |buckets| ==> buckets[0].end <= buckets[j].start
  {
    if |buckets| > 1 {
      LaterTilesStartLater(buckets[1..], buckets[1].start, end);
      forall j | 0 < j < |buckets| ensures buckets[0].end <= buckets[j].start {
        if j > 1 {
          assert buckets[1..][j - 1] == buckets[j];
        }
      }
    }
  }

  /** A year boundary that `Date.UTC` would misread as 19xx lies between the two instants. */
  predicate CrossesTwoDigitYear(min: int, max: int) {
    var low, high := YearFromTime(min) + 1, YearFromTime(max);
    low <= high && low <= 99 && high >= 0
  }

  function YearsTouched(min: int, max: int): int {
    YearFromTime(max) - YearFromTime(min) + 1
  }

  /** One bucket per UTC year touched, exactly unless a two-digit year boundary is crossed. */
  lemma {:induction false} OneBucketPerYear(min: int, max: int)
    requires min <= max
    ensures |BucketsFrom(min, max)| <= YearsTouched(min, max)
    ensures |BucketsFrom(min, max)| == YearsTouched(min, max) <==> !CrossesTwoDigitYear(min, max)
    ensures !CrossesTwoDigitYear(min, max) ==> forall i :: 0 <= i < |BucketsFrom(min, max)| ==>
              YearFromTime(BucketsFrom(min, max)[i].start) == YearFromTime(min) + i
    decreases max - min
  {
    var next := NextYearStart(min);
    NextYearIsNext(min);
    LaterTimesHaveLaterYears(min, max);
    if next <= max {
      LaterTimesHaveLaterYears(next, max);
      OneBucketPerYear(next, max);
    } else {
      NothingAfterMax(next, max);
      LastBucketYear(min, max);
    }
  }

  lemma LastBucketYear(min: int, max: int)
    requires min <= max < NextYearStart(min)
    ensures YearFromTime(min) == YearFromTime(max) || CrossesTwoDigitYear(min, max)
  {
    var y := YearFromTime(min) + 1;
    LaterTimesHaveLaterYears(min, max);
    if !(0 <= y <= 99) {
      NextYearIsNext(min);
      if YearFromTime(max) >= y {
        if YearFromTime(max) > y { YearsAreOrdered(y, YearFromTime(max)); }
      }
    }
  }

  /** The widest bucket: a leap year plus the extra second at the end. */
  const MAX_BUCKET_MS := 366 * MS_PER_DAY + 999

  lemma {:induction false} BucketsAreAtMostAYear(min: int, max: int)
    requires min <= max && !CrossesTwoDigitYear(min, max)
    ensures forall b :: b in BucketsFrom(min, max) ==> b.Width() <= MAX_BUCKET_MS
    decreases max - min
  {
    var next := NextYearStart(min);
    NextYearIsNext(min);
    LaterTimesHaveLaterYears(min, max);
    if next <= max {
      LaterTimesHaveLaterYears(next, max);
      BucketsAreAtMostAYear(next, max);
    } else {
      NothingAfterMax(next, max);
      var y := YearFromTime(min);
      LastBucketYear(min, max);
      YearLength(y);
    }
  }

  // ----- Halving -----

  function HalveDateRange(r: Range): (Range, Range) {
    var mid := r.start + (r.end - r.start) / 2;
    (Range(r.start, mid), Range(mid, r.end))
  }

  predicate CanSplitDateRange(r: Range) {
    r.end - r.start > 1
  }

  /** Both halves are non-empty and tile the range exactly when it can be split. */
  lemma HalvesTile(r: Range)
    requires r.start < r.end
    ensures var (left, right) := HalveDateRange(r);
            Tiles([left, right], r.start, r.end) <==> CanSplitDateRange(r)
  {
  }

  /** The descendant reached by a path of left (false) and right (true) halves. */
  function Descendant(r: Range, path: seq<bool>): Range {
    if path == [] then r
    else
      var parent := Descendant(r, path[..|path| - 1]);
      if path[|path| - 1] then HalveDateRange(parent).1 else HalveDateRange(parent).0
  }

  /** `w <= ceil(n / 2^d)`, without division. */
  predicate WithinHalvings(w: int, n: int, d: nat) {
    (w - 1) * Pow2(d) < n
  }

  lemma HalvingKeepsTheBound(r: Range, n: int, d: nat)
    requires r.start < r.end && WithinHalvings(r.Width(), n, d)
    ensures WithinHalvings(HalveDateRange(r).0.Width(), n, d + 1)
    ensures WithinHalvings(HalveDateRange(r).1.Width(), n, d + 1)
  {
    var p, w := Pow2(d), r.Width();
    var l, rt := w / 2, w - w / 2;
    assert 2 * (rt - 1) <= w - 1 && 2 * (l - 1) <= w - 1;
    Monotone(2 * (rt - 1), w - 1, p);
    Monotone(2 * (l - 1), w - 1, p);
    assert (rt - 1) * (2 * p) == (2 * (rt - 1)) * p;
    assert (l - 1) * (2 * p) == (2 * (l - 1)) * p;
  }

  /** At depth d a descendant of a range of width n is at most ceil(n / 2^d) wide. */
  lemma {:induction false} DescendantWidth(r: Range, path: seq<bool>)
    requires r.start < r.end
    requires forall k :: 0 <= k < |path| ==> CanSplitDateRange(Descendant(r, path[..k]))
    ensures Descendant(r, path).start < Descendant(r, path).end
    ensures WithinHalvings(Descendant(r, path).Width(), r.Width(), |path|)
  {
    if path != [] {
      var n := |path| - 1;
      forall k | 0 <= k < n ensures CanSplitDateRange(Descendant(r, path[..n][..k])) {
        assert path[..n][..k] == path[..k];
      }
      DescendantWidth(r, path[..n]);
      HalvingKeepsTheBound(Descendant(r, path[..n]), r.Width(), n);
    }
  }

  /** A range still splittable at depth d had a yearly ancestor more than 2^d wide, so d <= 34. */
  lemma SplitDepth(w: int, d: nat)
    requires w > 1 && WithinHalvings(w, MAX_BUCKET_MS, d)
    ensures d <= 34
  {
    if d >= 35 {
      Pow2Grows(35, d);
      Pow2At35();
      Monotone(1, w - 1, Pow2(d));
    }
  }

  lemma Pow2At35()
    ensures Pow2(35) == 34359738368
  {
    Pow2Adds(5);
    Pow2Adds(10);
    Pow2Adds(15);
    Pow2Adds(20);
    Pow2Adds(25);
    Pow2Adds(30);
    Pow2Adds(0);
  }

  lemma Pow2Adds(n: nat)
    ensures Pow2(n + 5) == 32 * Pow2(n)
  {
    assert Pow2(n + 5) == 2 * Pow2(n + 4) == 4 * Pow2(n + 3) == 8 * Pow2(n + 2) == 16 * Pow2(n + 1);
  }
}
