/**
 * The legacy adapter's slice assembler: four independent cursors, one per point family,
 * each advanced by its own batch size on every iteration, until every cursor has reached
 * its family's point count. Iteration k reads, for family t, the window [k*B_t, k*B_t + B_t).
 */
module SliceAssembly {
  import opened PointStore

  /** The header every slice of a measurement carries: measurement id, device id and vehicle. */
  datatype Header = Header(id: int, deviceId: string, vehicle: string)

  /** One upload payload: the header plus one point array per family. */
  datatype Slice = Slice(header: Header, points: PerType<seq<Row>>)

  /**
   * The loop terminates only for positive batch sizes. The adapter's constructor stores the four
   * sizes unchecked, so positivity is a precondition of every operation below.
   */
  predicate ValidBatches(b: PerType<int>) {
    b.geo > 0 && b.acc > 0 && b.rot > 0 && b.dir > 0
  }

  /** The smallest number of windows of size `b` that together reach `n`. */
  function CeilDiv(n: nat, b: int): (q: nat)
    requires b > 0
    ensures n <= q * b
    ensures q == 0 || (q - 1) * b < n
    ensures q == 0 <==> n == 0
  {
    if n == 0 then 0
    else if n <= b then 1
    else
      var q' := CeilDiv(n - b, b);
      assert (q' + 1) * b == q' * b + b;
      q' + 1
  }

  function Max(x: nat, y: nat): nat {
    if x < y then y else x
  }

  /** The number of slices the loop builds: the largest per-family window count. */
  function SliceCount(counts: PerType<nat>, b: PerType<int>): (n: nat)
    requires ValidBatches(b)
    ensures forall t: PointType :: CeilDiv(counts.Of(t), b.Of(t)) <= n
    ensures exists t: PointType :: CeilDiv(counts.Of(t), b.Of(t)) == n
    ensures n == 0 <==> counts == PerType(0, 0, 0, 0)
  {
    var n := Max(Max(CeilDiv(counts.geo, b.geo), CeilDiv(counts.acc, b.acc)),
                 Max(CeilDiv(counts.rot, b.rot), CeilDiv(counts.dir, b.dir)));
    assert CeilDiv(counts.Of(Geo), b.Of(Geo)) == n || CeilDiv(counts.Of(Acceleration), b.Of(Acceleration)) == n
        || CeilDiv(counts.Of(Rotation), b.Of(Rotation)) == n || CeilDiv(counts.Of(Direction), b.Of(Direction)) == n;
    n
  }

  /** The four cursors at the start of iteration `k`: every cursor has advanced k times. */
  function CursorsAt(k: nat, b: PerType<int>): PerType<int> {
    PerType(k * b.geo, k * b.acc, k * b.rot, k * b.dir)
  }

  /** One step of the for-loop update: every cursor advances by its batch size, exhausted or not. */
  function Advance(c: PerType<int>, b: PerType<int>): PerType<int> {
    PerType(c.geo + b.geo, c.acc + b.acc, c.rot + b.rot, c.dir + b.dir)
  }

  /** The for-loop condition: some family's cursor is still below that family's count. */
  predicate AnyBelow(c: PerType<int>, counts: PerType<nat>) {
    c.geo < counts.geo || c.acc < counts.acc || c.rot < counts.rot || c.dir < counts.dir
  }

  lemma MulMonotone(x: int, y: int, b: int)
    requires x <= y && b > 0
    ensures x * b <= y * b
  {
  }

  /** A cursor that advanced k times is below n exactly while k is below n's window count. */
  lemma BelowIffBeforeCeil(k: nat, n: nat, b: int)
    requires b > 0
    ensures k * b < n <==> k < CeilDiv(n, b)
  {
    var q := CeilDiv(n, b);
    if k < q {
      MulMonotone(k, q - 1, b);
    } else {
      MulMonotone(q, k, b);
    }
  }

  /** The loop condition at iteration k holds exactly while k is below the slice count. */
  lemma GuardIffBeforeSliceCount(k: nat, counts: PerType<nat>, b: PerType<int>)
    requires ValidBatches(b)
    ensures AnyBelow(CursorsAt(k, b), counts) <==> k < SliceCount(counts, b)
  {
    BelowIffBeforeCeil(k, counts.geo, b.geo);
    BelowIffBeforeCeil(k, counts.acc, b.acc);
    BelowIffBeforeCeil(k, counts.rot, b.rot);
    BelowIffBeforeCeil(k, counts.dir, b.dir);
    assert forall t: PointType :: CeilDiv(counts.Of(t), b.Of(t)) <= SliceCount(counts, b);
    var n := SliceCount(counts, b);
    var t :| CeilDiv(counts.Of(t), b.Of(t)) == n;
  }

  /** Advancing the cursors of iteration k yields the cursors of iteration k + 1. */
  lemma AdvanceIsNextIteration(k: nat, b: PerType<int>)
    ensures Advance(CursorsAt(k, b), b) == CursorsAt(k + 1, b)
  {
  }

  /**
   * The for-loop of syncMeasurement, run for its cursors only: it records the cursors of every
   * iteration. It builds exactly SliceCount slices, and iteration k starts from k*B_t for every family.
   */
  method PlanSlices(counts: PerType<nat>, b: PerType<int>) returns (starts: seq<PerType<int>>)
    requires ValidBatches(b)
    ensures |starts| == SliceCount(counts, b)
    ensures forall k :: 0 <= k < |starts| ==> starts[k] == CursorsAt(k, b)
  {
    var cursors := PerType(0, 0, 0, 0);
    starts := [];
    while AnyBelow(cursors, counts)
      invariant |starts| <= SliceCount(counts, b)
      invariant cursors == CursorsAt(|starts|, b)
      invariant forall k :: 0 <= k < |starts| ==> starts[k] == CursorsAt(k, b)
      decreases SliceCount(counts, b) - |starts|
    {
      GuardIffBeforeSliceCount(|starts|, counts, b);
      AdvanceIsNextIteration(|starts|, b);
      starts := starts + [cursors];
      cursors := Advance(cursors, b);
    }
    GuardIffBeforeSliceCount(|starts|, counts, b);
  }

  /** With a non-positive batch size and at least one point of that family, the loop condition never fails. */
  lemma NonPositiveBatchNeverTerminates(counts: PerType<nat>, b: PerType<int>, t: PointType, k: nat)
    requires b.Of(t) <= 0 && counts.Of(t) > 0
    ensures AnyBelow(CursorsAt(k, b), counts)
  {
  }

  function Clamp(x: int, n: nat): (c: nat)
    ensures c <= n
  {
    if x < 0 then 0 else if x > n then n else x
  }

  /**
   * The windowed query [start, start + batch) over one family's points of the measurement.
   * A short last page is returned as is; a window at or past the end is empty.
   */
  function Window<T>(pts: seq<T>, start: int, batch: int): (w: seq<T>)
    requires batch > 0
    ensures |w| <= batch
    ensures 0 <= start ==> forall i :: 0 <= i < |w| ==> start + i < |pts| && w[i] == pts[start + i]
    ensures 0 <= start && start + batch <= |pts| ==> |w| == batch
    ensures 0 <= start <= |pts| ==> |w| == Min(batch, |pts| - start)
    ensures start >= |pts| ==> w == []
  {
    pts[Clamp(start, |pts|)..Clamp(start + batch, |pts|)]
  }

  /**
   * fillMeasurementSlice: the template header with the four arrays of the iteration's windows.
   * Each array is bounded by its family's batch size.
   */
  function FillSlice(template: Header, pts: PerType<seq<Row>>, c: PerType<int>, b: PerType<int>): (s: Slice)
    requires ValidBatches(b)
    ensures s.header == template
    ensures forall t: PointType :: |s.points.Of(t)| <= b.Of(t)
  {
    Slice(template, PerType(Window(pts.geo, c.geo, b.geo), Window(pts.acc, c.acc, b.acc),
                            Window(pts.rot, c.rot, b.rot), Window(pts.dir, c.dir, b.dir)))
  }

  /** The slices of iterations 0 .. n-1, in order. */
  function Slices(template: Header, pts: PerType<seq<Row>>, b: PerType<int>, n: nat): (r: seq<Slice>)
    requires ValidBatches(b)
    ensures |r| == n
  {
    if n == 0 then [] else Slices(template, pts, b, n - 1) + [FillSlice(template, pts, CursorsAt(n - 1, b), b)]
  }

  /** The family-t arrays of `slices`, concatenated in slice order. */
  function Flatten(slices: seq<Slice>, t: PointType): seq<Row> {
    if |slices| == 0 then [] else Flatten(slices[..|slices| - 1], t) + slices[|slices| - 1].points.Of(t)
  }

  /** The windows 0 .. n-1 of size `b` over `pts`, concatenated. */
  function Uploaded<T>(pts: seq<T>, b: int, n: nat): seq<T>
    requires b > 0
  {
    if n == 0 then [] else Uploaded(pts, b, n - 1) + Window(pts, (n - 1) * b, b)
  }

  function Min(x: int, y: int): int {
    if x < y then x else y
  }

  /** The first n windows read exactly the first n*b points, each once and in order. */
  lemma {:induction false} UploadedIsPrefix<T>(pts: seq<T>, b: int, n: nat)
    requires b > 0
    ensures Uploaded(pts, b, n) == pts[..Min(n * b, |pts|)]
  {
    if n > 0 {
      UploadedIsPrefix(pts, b, n - 1);
      assert n * b == (n - 1) * b + b;
      MulMonotone(0, n - 1, b);
      var lo := Min((n - 1) * b, |pts|);
      var hi := Min(n * b, |pts|);
      assert Window(pts, (n - 1) * b, b) == pts[lo..hi];
      assert pts[..lo] + pts[lo..hi] == pts[..hi];
    }
  }

  /** Once the window count is reached, the windows have read every point exactly once. */
  lemma WindowsCoverAllPoints<T>(pts: seq<T>, b: int, n: nat)
    requires b > 0 && n >= CeilDiv(|pts|, b)
    ensures Uploaded(pts, b, n) == pts
  {
    UploadedIsPrefix(pts, b, n);
    MulMonotone(CeilDiv(|pts|, b), n, b);
  }

  /** The family-t arrays of the first n slices are the first n windows of family t. */
  lemma {:induction false} FlattenSlices(template: Header, pts: PerType<seq<Row>>, b: PerType<int>, n: nat, t: PointType)
    requires ValidBatches(b)
    ensures Flatten(Slices(template, pts, b, n), t) == Uploaded(pts.Of(t), b.Of(t), n)
  {
    if n > 0 {
      var r := Slices(template, pts, b, n);
      assert r[..n - 1] == Slices(template, pts, b, n - 1);
      FlattenSlices(template, pts, b, n - 1, t);
      assert CursorsAt(n - 1, b).Of(t) == (n - 1) * b.Of(t);
    }
  }

  /** The per-family point counts of a measurement's point lists. */
  function Counts(pts: PerType<seq<Row>>): PerType<nat> {
    PerType(|pts.geo|, |pts.acc|, |pts.rot|, |pts.dir|)
  }

  /**
   * Across all slices of a measurement, each family's arrays, concatenated, are exactly that
   * family's points: none read twice, none skipped, order kept.
   */
  lemma SlicesCoverEveryPoint(template: Header, pts: PerType<seq<Row>>, b: PerType<int>, t: PointType)
    requires ValidBatches(b)
    ensures Flatten(Slices(template, pts, b, SliceCount(Counts(pts), b)), t) == pts.Of(t)
  {
    var n := SliceCount(Counts(pts), b);
    FlattenSlices(template, pts, b, n, t);
    assert Counts(pts).Of(t) == |pts.Of(t)|;
    WindowsCoverAllPoints(pts.Of(t), b.Of(t), n);
  }

  /** Index i lies in the window of iteration k for batch size b. */
  predicate InWindow(i: int, k: nat, b: int) {
    k * b <= i < k * b + b
  }

  /** The iteration whose family-t window holds index i. */
  function ReadingIteration(i: nat, b: PerType<int>, t: PointType): (k: nat)
    requires ValidBatches(b)
    ensures InWindow(i, k, b.Of(t))
  {
    var bt := b.Of(t);
    QuotientWindow(i, bt);
    i / bt
  }

  /**
   * Every index below a family's count is read by exactly one iteration, and that iteration is
   * one the loop performs.
   */
  lemma IndexReadByExactlyOneSlice(counts: PerType<nat>, b: PerType<int>, t: PointType, i: nat)
    requires ValidBatches(b) && i < counts.Of(t)
    ensures ReadingIteration(i, b, t) < SliceCount(counts, b)
    ensures forall j: nat :: InWindow(i, j, b.Of(t)) ==> j == ReadingIteration(i, b, t)
  {
    var bt := b.Of(t);
    var k := ReadingIteration(i, b, t);
    BelowIffBeforeCeil(k, counts.Of(t), bt);
    assert CeilDiv(counts.Of(t), bt) <= SliceCount(counts, b);
    forall j: nat | InWindow(i, j, bt)
      ensures j == k
    {
      WindowsDisjoint(i, j, k, bt);
    }
  }

  /** The window of iteration i / b contains index i. */
  lemma QuotientWindow(i: nat, b: int)
    requires b > 0
    ensures InWindow(i, i / b, b)
  {
  }

  /** Windows of different iterations share no index. */
  lemma WindowsDisjoint(i: int, j: nat, k: nat, b: int)
    requires b > 0 && InWindow(i, j, b) && InWindow(i, k, b)
    ensures j == k
  {
    if j < k {
      assert (j + 1) * b == j * b + b;
      MulMonotone(j + 1, k, b);
    } else if j > k {
      assert (k + 1) * b == k * b + b;
      MulMonotone(k + 1, j, b);
    }
  }

  /**
   * A family whose window count is already reached is still queried, at an offset at or past
   * its count, and contributes an empty array to the slice.
   */
  lemma ExhaustedFamilyContributesNothing(template: Header, pts: PerType<seq<Row>>, b: PerType<int>, k: nat, t: PointType)
    requires ValidBatches(b) && k >= CeilDiv(|pts.Of(t)|, b.Of(t))
    ensures CursorsAt(k, b).Of(t) >= |pts.Of(t)|
    ensures FillSlice(template, pts, CursorsAt(k, b), b).points.Of(t) == []
  {
    BelowIffBeforeCeil(k, |pts.Of(t)|, b.Of(t));
  }

  /** Worked case: 250 GPS points, GPS batch size 100, nothing else: three slices holding 100, 100 and 50 GPS points. */
  lemma GpsOnlyExample(template: Header, pts: PerType<seq<Row>>, b: PerType<int>)
    requires ValidBatches(b) && b.geo == 100
    requires |pts.geo| == 250 && pts.acc == [] && pts.rot == [] && pts.dir == []
    ensures SliceCount(Counts(pts), b) == 3
    ensures var s := Slices(template, pts, b, 3);
      && |s[0].points.geo| == 100 && |s[1].points.geo| == 100 && |s[2].points.geo| == 50
      && forall k :: 0 <= k < 3 ==> s[k].points.acc == [] && s[k].points.rot == [] && s[k].points.dir == []
  {
    assert CeilDiv(250, 100) == 3 by {
      assert CeilDiv(50, 100) == 1;
      assert CeilDiv(150, 100) == 2;
    }
    assert CeilDiv(0, b.acc) == 0 && CeilDiv(0, b.rot) == 0 && CeilDiv(0, b.dir) == 0;
    var s := Slices(template, pts, b, 3);
    var s2 := Slices(template, pts, b, 2);
    var s1 := Slices(template, pts, b, 1);
    assert s == s2 + [FillSlice(template, pts, CursorsAt(2, b), b)];
    assert s2 == s1 + [FillSlice(template, pts, CursorsAt(1, b), b)];
    assert s1 == [FillSlice(template, pts, CursorsAt(0, b), b)];
    assert CursorsAt(1, b).geo == 100 && CursorsAt(2, b).geo == 200 && CursorsAt(0, b).geo == 0;
    assert |Window(pts.geo, 200, 100)| == 50;
  }

  // ---- The cursors as the Java code declares them: 32-bit ints, compared against 64-bit counts ----

  const IntMin: int := -0x8000_0000
  const IntMax: int := 0x7fff_ffff

  /** Java int addition: the mathematical sum wrapped into [IntMin, IntMax]. */
  function WrapInt(x: int): (r: int)
    ensures IntMin <= r <= IntMax
    ensures IntMin <= x <= IntMax ==> r == x
  {
    (x - IntMin) % 0x1_0000_0000 + IntMin
  }

  /** The int cursor of one family after k iterations of `cursor += batch`. */
  function Int32CursorAt(k: nat, batch: int): int {
    if k == 0 then 0 else WrapInt(Int32CursorAt(k - 1, batch) + batch)
  }

  /** Below the wrap point the int cursor is the mathematical cursor k*2. */
  lemma {:induction false} Int32CursorExactBeforeWrap(k: nat)
    requires k < 0x4000_0000
    ensures Int32CursorAt(k, 2) == 2 * k
  {
    if k > 0 {
      Int32CursorExactBeforeWrap(k - 1);
    }
  }

  /**
   * As written, with 2147483647 GPS points and GPS batch size 2, the cursor that starts iteration
   * 2^30 has wrapped to -2147483648: that iteration queries a window at a negative offset.
   */
  lemma Int32CursorWrapsNegative()
    ensures Int32CursorAt(0x4000_0000, 2) == IntMin
    ensures Int32CursorAt(0x4000_0000, 2) < 2147483647
  {
    Int32CursorExactBeforeWrap(0x3fff_ffff);
    assert Int32CursorAt(0x4000_0000, 2) == WrapInt(IntMax + 1);
    WrapPastMax();
  }

  /** One past the largest int wraps to the smallest. */
  lemma WrapPastMax()
    ensures WrapInt(IntMax + 1) == IntMin
  {
  }

  /**
   * As written, with 2147483647 GPS points and GPS batch size 2, the GPS cursor stays even and
   * therefore below 2147483647 forever: the loop condition never fails and the loop never exits.
   */
  lemma {:induction false} Int32LoopNeverExits(k: nat)
    ensures Int32CursorAt(k, 2) % 2 == 0
    ensures Int32CursorAt(k, 2) < 2147483647
  {
    if k > 0 {
      Int32LoopNeverExits(k - 1);
      var c := Int32CursorAt(k - 1, 2);
      if c + 2 > IntMax {
        assert c + 2 == IntMax + 1;
        WrapPastMax();
      }
    }
  }
}
