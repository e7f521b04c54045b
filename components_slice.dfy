/** The grid-scan component detector of the components slice, its summary
    statistics and the slice's reducers. Seeds are taken every 10 pixels; from
    each seed a box grows along the seed's row and column while the colour stays
    close to the seed's, and the pixels it covers are marked so that later seeds
    inside it are skipped. */
module ComponentsSlice {
  import opened Wrappers
  import opened Text
  import opened Colors
  import opened Raster
  import opened Sorting
  import opened Tally
  import opened JsMath
  import opened Values

  // ---------------------------------------------------------------------------
  // Colour similarity and run growth

  /** `isColorSimilar`: the mean absolute channel difference is at most `threshold`.
      Only the colour channels take part; the alpha channel is not an input. */
  predicate IsColorSimilar(c: Rgb, d: Rgb, threshold: int)
  {
    (Abs(c.r - d.r) + Abs(c.g - d.g) + Abs(c.b - d.b)) as real / 3.0 <= threshold as real
  }

  /** Similarity is the integer test `|dr| + |dg| + |db| <= 3 * threshold`; it is
      reflexive for any non-negative threshold and symmetric. */
  lemma SimilarityProps(c: Rgb, d: Rgb, threshold: int)
    ensures IsColorSimilar(c, d, threshold) <==> Abs(c.r - d.r) + Abs(c.g - d.g) + Abs(c.b - d.b) <= 3 * threshold
    ensures threshold >= 0 ==> IsColorSimilar(c, c, threshold)
    ensures IsColorSimilar(c, d, threshold) == IsColorSimilar(d, c, threshold)
  {
  }

  /** `Math.min(start + 200, size) - start`: how far a run may grow from `start`. */
  function RunCap(start: nat, size: nat): int
  {
    if start + 200 <= size then 200 else size - start
  }

  /** The pixel `j` steps right of the seed is similar to the seed. */
  predicate SimilarAlongRow(data: seq<byte>, w: nat, h: nat, sx: nat, sy: nat, j: nat)
    requires IsImage(data, w, h) && sx + j < w && sy < h
  {
    IsColorSimilar(PixelColor(data, w, h, sx, sy), PixelColor(data, w, h, sx + j, sy), 30)
  }

  /** The pixel `j` steps below the seed is similar to the seed. */
  predicate SimilarAlongColumn(data: seq<byte>, w: nat, h: nat, sx: nat, sy: nat, j: nat)
    requires IsImage(data, w, h) && sx < w && sy + j < h
  {
    IsColorSimilar(PixelColor(data, w, h, sx, sy), PixelColor(data, w, h, sx, sy + j), 30)
  }

  /** The length of the run along row `sy` whose pixels are similar to the seed,
      counted on from offset `k`, up to the cap. */
  function RowRunFrom(data: seq<byte>, w: nat, h: nat, sx: nat, sy: nat, k: nat): (n: nat)
    requires IsImage(data, w, h) && sx < w && sy < h && k <= RunCap(sx, w)
    ensures k <= n <= RunCap(sx, w)
    decreases RunCap(sx, w) - k
  {
    if k < RunCap(sx, w) && SimilarAlongRow(data, w, h, sx, sy, k)
    then RowRunFrom(data, w, h, sx, sy, k + 1)
    else k
  }

  /** The same run down column `sx`. */
  function ColumnRunFrom(data: seq<byte>, w: nat, h: nat, sx: nat, sy: nat, k: nat): (n: nat)
    requires IsImage(data, w, h) && sx < w && sy < h && k <= RunCap(sy, h)
    ensures k <= n <= RunCap(sy, h)
    decreases RunCap(sy, h) - k
  {
    if k < RunCap(sy, h) && SimilarAlongColumn(data, w, h, sx, sy, k)
    then ColumnRunFrom(data, w, h, sx, sy, k + 1)
    else k
  }

  function RowRun(data: seq<byte>, w: nat, h: nat, sx: nat, sy: nat): nat
    requires IsImage(data, w, h) && sx < w && sy < h
  {
    RowRunFrom(data, w, h, sx, sy, 0)
  }

  function ColumnRun(data: seq<byte>, w: nat, h: nat, sx: nat, sy: nat): nat
    requires IsImage(data, w, h) && sx < w && sy < h
  {
    ColumnRunFrom(data, w, h, sx, sy, 0)
  }

  /** The row run covers only pixels similar to the seed and stops at the first
      dissimilar one or at the cap; it holds at least the seed itself. */
  lemma {:induction false} RowRunFromProps(data: seq<byte>, w: nat, h: nat, sx: nat, sy: nat, k: nat)
    requires IsImage(data, w, h) && sx < w && sy < h && k <= RunCap(sx, w)
    ensures var n := RowRunFrom(data, w, h, sx, sy, k);
      (forall j :: k <= j < n ==> SimilarAlongRow(data, w, h, sx, sy, j)) &&
      (n < RunCap(sx, w) ==> !SimilarAlongRow(data, w, h, sx, sy, n))
    decreases RunCap(sx, w) - k
  {
    if k < RunCap(sx, w) && SimilarAlongRow(data, w, h, sx, sy, k) {
      RowRunFromProps(data, w, h, sx, sy, k + 1);
    }
  }

  lemma {:induction false} ColumnRunFromProps(data: seq<byte>, w: nat, h: nat, sx: nat, sy: nat, k: nat)
    requires IsImage(data, w, h) && sx < w && sy < h && k <= RunCap(sy, h)
    ensures var n := ColumnRunFrom(data, w, h, sx, sy, k);
      (forall j :: k <= j < n ==> SimilarAlongColumn(data, w, h, sx, sy, j)) &&
      (n < RunCap(sy, h) ==> !SimilarAlongColumn(data, w, h, sx, sy, n))
    decreases RunCap(sy, h) - k
  {
    if k < RunCap(sy, h) && SimilarAlongColumn(data, w, h, sx, sy, k) {
      ColumnRunFromProps(data, w, h, sx, sy, k + 1);
    }
  }

  /** Both runs hold the seed and stay within the cap: between 1 and
      `min(200, size - start)`. */
  lemma RunBounds(data: seq<byte>, w: nat, h: nat, sx: nat, sy: nat)
    requires IsImage(data, w, h) && sx < w && sy < h
    ensures 1 <= RowRun(data, w, h, sx, sy) <= RunCap(sx, w)
    ensures 1 <= ColumnRun(data, w, h, sx, sy) <= RunCap(sy, h)
  {
    var seed := PixelColor(data, w, h, sx, sy);
    SimilarityProps(seed, seed, 30);
    assert SimilarAlongRow(data, w, h, sx, sy, 0);
    assert SimilarAlongColumn(data, w, h, sx, sy, 0);
  }

  // ---------------------------------------------------------------------------
  // Marking a box as visited

  /** Position `p` lies in the rows `y0 .. y - 1` of columns `x0 .. x1 - 1`, or in
      row `y` before column `x`: the part of a box a row-by-row scan has covered. */
  predicate ScannedPart(w: nat, p: nat, x0: int, x1: int, y0: int, y: int, x: int)
    requires w > 0
  {
    (x0 <= Col(w, p) < x1 && y0 <= Row(w, p) < y) || (Row(w, p) == y && x0 <= Col(w, p) < x)
  }

  predicate MarkedUpTo(v: seq<bool>, v0: seq<bool>, w: nat, x0: int, x1: int, y0: int, y: int, x: int)
    requires w > 0 && |v| == |v0|
  {
    forall p :: 0 <= p < |v| ==> v[p] == (v0[p] || ScannedPart(w, p, x0, x1, y0, y, x))
  }

  /** Marking pixel `(x, y)` extends the covered part by one pixel. */
  lemma MarkPixel(v: seq<bool>, v0: seq<bool>, w: nat, h: nat, x0: int, x1: int, y0: int, y: nat, x: nat)
    requires w > 0 && |v| == w * h && |v0| == |v| && x < w && y < h && x0 <= x
    requires MarkedUpTo(v, v0, w, x0, x1, y0, y, x)
    ensures Idx(w, x, y) < |v|
    ensures MarkedUpTo(v[Idx(w, x, y) := true], v0, w, x0, x1, y0, y, x + 1)
  {
    IdxInRange(w, h, x, y);
    ColRowOfIdx(w, x, y);
    var q := Idx(w, x, y);
    var v' := v[q := true];
    forall p | 0 <= p < |v'| ensures v'[p] == (v0[p] || ScannedPart(w, p, x0, x1, y0, y, x + 1)) {
      IdxOfColRow(w, h, p);
      if p != q {
        assert !(Row(w, p) == y && Col(w, p) == x);
      }
    }
  }

  /** Covering row `y` up to `x1` is covering the rows before `y + 1`. */
  lemma NextRow(v: seq<bool>, v0: seq<bool>, w: nat, x0: int, x1: int, y0: int, y: int)
    requires w > 0 && |v| == |v0| && y0 <= y
    requires MarkedUpTo(v, v0, w, x0, x1, y0, y, x1)
    ensures MarkedUpTo(v, v0, w, x0, x1, y0, y + 1, x0)
  {
  }

  /** `v` is `v0` with the pixels of the box, if any, marked. */
  predicate Remarked(v: seq<bool>, v0: seq<bool>, w: nat, region: Option<Region>)
  {
    |v| == |v0| &&
    forall p :: 0 <= p < |v| ==> v[p] == (v0[p] || (region.Some? && w > 0 && Contains(region.value, Col(w, p), Row(w, p))))
  }

  lemma NothingRemarked(v: seq<bool>, w: nat)
    ensures Remarked(v, v, w, None)
  {
  }

  /** `detectRectangularRegion`: nothing for a seed with `alpha < 128`; otherwise the
      box spanned by the row run and the column run, when both reach 20 pixels, with
      all its pixels marked visited. Pixels outside the box keep their marks. */
  method DetectRectangularRegion(data: seq<byte>, sx: nat, sy: nat, w: nat, h: nat, visited: array<bool>)
    returns (region: Option<Region>)
    requires IsImage(data, w, h) && sx < w && sy < h && visited.Length == w * h
    modifies visited
    ensures region.Some? <==>
      Alpha(data, w, h, sx, sy) >= 128 && RowRun(data, w, h, sx, sy) >= 20 && ColumnRun(data, w, h, sx, sy) >= 20
    ensures region.Some? ==> region.value == Region(sx, sy, RowRun(data, w, h, sx, sy), ColumnRun(data, w, h, sx, sy))
    ensures Remarked(visited[..], old(visited[..]), w, region)
  {
    IdxInRange(w, h, sx, sy);
    ChannelInRange(data, w, h, sx, sy);
    var startColor := PixelColor(data, w, h, sx, sy);
    var startAlpha := Alpha(data, w, h, sx, sy);
    if startAlpha < 128 {
      NothingRemarked(visited[..], w);
      return None;
    }
    var maxWidth := MeasureRowRun(data, w, h, sx, sy, startColor);
    var maxHeight := MeasureColumnRun(data, w, h, sx, sy, startColor);
    if maxWidth >= 20 && maxHeight >= 20 {
      MarkBox(visited, sx, sy, maxWidth, maxHeight, w, h);
      return Some(Region(sx, sy, maxWidth, maxHeight));
    }
    NothingRemarked(visited[..], w);
    return None;
  }

  /** The first scan of `detectRectangularRegion`: right along the seed row while
      the pixels stay similar to the seed, at most 200 pixels. */
  method MeasureRowRun(data: seq<byte>, w: nat, h: nat, sx: nat, sy: nat, startColor: Rgb) returns (maxWidth: nat)
    requires IsImage(data, w, h) && sx < w && sy < h && startColor == PixelColor(data, w, h, sx, sy)
    ensures maxWidth == RowRun(data, w, h, sx, sy)
  {
    maxWidth := 0;
    var x := sx;
    var xEnd := if sx + 200 <= w then sx + 200 else w;
    while x < xEnd
      invariant sx <= x <= xEnd && maxWidth == x - sx
      invariant RowRunFrom(data, w, h, sx, sy, x - sx) == RowRun(data, w, h, sx, sy)
    {
      var color := PixelColor(data, w, h, x, sy);
      RowRunStep(data, w, h, sx, sy, x - sx);
      if IsColorSimilar(startColor, color, 30) {
        maxWidth := x - sx + 1;
      } else {
        break;
      }
      x := x + 1;
    }
  }

  lemma RowRunStep(data: seq<byte>, w: nat, h: nat, sx: nat, sy: nat, k: nat)
    requires IsImage(data, w, h) && sx + k < w && sy < h && k < RunCap(sx, w)
    ensures RowRunFrom(data, w, h, sx, sy, k) ==
      if SimilarAlongRow(data, w, h, sx, sy, k) then RowRunFrom(data, w, h, sx, sy, k + 1) else k
  {
  }

  /** The second scan: down the seed column the same way. */
  method MeasureColumnRun(data: seq<byte>, w: nat, h: nat, sx: nat, sy: nat, startColor: Rgb) returns (maxHeight: nat)
    requires IsImage(data, w, h) && sx < w && sy < h && startColor == PixelColor(data, w, h, sx, sy)
    ensures maxHeight == ColumnRun(data, w, h, sx, sy)
  {
    maxHeight := 0;
    var y := sy;
    var yEnd := if sy + 200 <= h then sy + 200 else h;
    while y < yEnd
      invariant sy <= y <= yEnd && maxHeight == y - sy
      invariant ColumnRunFrom(data, w, h, sx, sy, y - sy) == ColumnRun(data, w, h, sx, sy)
    {
      var color := PixelColor(data, w, h, sx, y);
      ColumnRunStep(data, w, h, sx, sy, y - sy);
      if IsColorSimilar(startColor, color, 30) {
        maxHeight := y - sy + 1;
      } else {
        break;
      }
      y := y + 1;
    }
  }

  lemma ColumnRunStep(data: seq<byte>, w: nat, h: nat, sx: nat, sy: nat, k: nat)
    requires IsImage(data, w, h) && sx < w && sy + k < h && k < RunCap(sy, h)
    ensures ColumnRunFrom(data, w, h, sx, sy, k) ==
      if SimilarAlongColumn(data, w, h, sx, sy, k) then ColumnRunFrom(data, w, h, sx, sy, k + 1) else k
  {
  }

  /** The marking loops of `detectRectangularRegion`: every pixel of the box (that
      lies in the image) becomes visited, and nothing else changes. */
  method MarkBox(visited: array<bool>, sx: nat, sy: nat, bw: nat, bh: nat, w: nat, h: nat)
    requires visited.Length == w * h && sx < w && sy < h && sx + bw <= w && sy + bh <= h
    modifies visited
    ensures Remarked(visited[..], old(visited[..]), w, Some(Region(sx, sy, bw, bh)))
  {
    ghost var v0 := visited[..];
    var y := sy;
    while y < sy + bh
      invariant sy <= y <= sy + bh
      invariant MarkedUpTo(visited[..], v0, w, sx, sx + bw, sy, y, sx)
    {
      var x := sx;
      while x < sx + bw
        invariant sx <= x <= sx + bw
        invariant MarkedUpTo(visited[..], v0, w, sx, sx + bw, sy, y, x)
      {
        if x < w && y < h {
          MarkPixel(visited[..], v0, w, h, sx, sx + bw, sy, y, x);
          ghost var before := visited[..];
          visited[y * w + x] := true;
          assert visited[..] == before[Idx(w, x, y) := true];
        }
        x := x + 1;
      }
      NextRow(visited[..], v0, w, sx, sx + bw, sy, y);
      y := y + 1;
    }
    assert v0 == old(visited[..]);
  }

  // ---------------------------------------------------------------------------
  // The grid scan

  /** A seed of the grid scan: every 10 pixels, strictly before the last 20 columns
      and rows. */
  predicate GridSeed(x: int, y: int, w: nat, h: nat)
  {
    0 <= x && 0 <= y && x % 10 == 0 && y % 10 == 0 && x < w - 20 && y < h - 20
  }

  /** `detectRectangularRegion` returns a box for pixel `(x, y)`: it is opaque enough
      and both of its runs reach 20 pixels. */
  predicate Grows(data: seq<byte>, w: nat, h: nat, x: int, y: int)
    requires IsImage(data, w, h)
  {
    0 <= x < w && 0 <= y < h &&
    Alpha(data, w, h, x, y) >= 128 && RowRun(data, w, h, x, y) >= 20 && ColumnRun(data, w, h, x, y) >= 20
  }

  /** A box of the grid scan: grown from a grid seed that grows, it spans the seed's
      row run and column run. */
  predicate GridRegion(r: Region, data: seq<byte>, w: nat, h: nat)
    requires IsImage(data, w, h)
  {
    GridSeed(r.x, r.y, w, h) && Grows(data, w, h, r.x, r.y) &&
    r.width == RowRun(data, w, h, r.x, r.y) && r.height == ColumnRun(data, w, h, r.x, r.y)
  }

  /** Seed `(x, y)` comes before seed `(x', y')` in row-by-row scan order. */
  predicate ScanBefore(x: int, y: int, x': int, y': int)
  {
    y < y' || (y == y' && x < x')
  }

  /** Pixel `(x, y)` lies in one of the boxes. */
  predicate InAnyBox(regions: seq<Region>, x: int, y: int)
  {
    exists i :: 0 <= i < |regions| && Contains(regions[i], x, y)
  }

  lemma InAnyBoxAppend(regions: seq<Region>, r: Region)
    ensures forall x, y :: InAnyBox(regions + [r], x, y) <==> InAnyBox(regions, x, y) || Contains(r, x, y)
  {
    var rs := regions + [r];
    forall x, y ensures InAnyBox(rs, x, y) <==> InAnyBox(regions, x, y) || Contains(r, x, y) {
      if InAnyBox(regions, x, y) {
        var i :| 0 <= i < |regions| && Contains(regions[i], x, y);
        assert rs[i] == regions[i];
      }
      if Contains(r, x, y) {
        assert rs[|regions|] == r;
      }
      if InAnyBox(rs, x, y) {
        var i :| 0 <= i < |rs| && Contains(rs[i], x, y);
        if i < |regions| {
          assert rs[i] == regions[i];
        }
      }
    }
  }

  /** The found boxes, in scan order of their seeds, none seeded inside an earlier one,
      all seeded before `(x, y)`; and every grid seed before `(x, y)` that grows lies in
      one of them. */
  ghost predicate ScanState(regions: seq<Region>, data: seq<byte>, w: nat, h: nat, x: int, y: int)
    requires IsImage(data, w, h)
  {
    (forall i :: 0 <= i < |regions| ==> GridRegion(regions[i], data, w, h) && ScanBefore(regions[i].x, regions[i].y, x, y)) &&
    InScanOrder(regions) && SeededOutside(regions) &&
    (forall sx, sy :: GridSeed(sx, sy, w, h) && ScanBefore(sx, sy, x, y) && Grows(data, w, h, sx, sy) ==> InAnyBox(regions, sx, sy))
  }

  /** Every pixel of every found box is marked. */
  predicate Covers(v: seq<bool>, w: nat, regions: seq<Region>)
  {
    forall i, p :: 0 <= i < |regions| && 0 <= p < |v| && w > 0 && Contains(regions[i], Col(w, p), Row(w, p)) ==> v[p]
  }

  /** Every marked pixel lies in a found box. */
  predicate MarksWithin(v: seq<bool>, w: nat, regions: seq<Region>)
  {
    forall p :: 0 <= p < |v| && v[p] ==> w > 0 && InAnyBox(regions, Col(w, p), Row(w, p))
  }

  /** Marks are only added, so found boxes stay covered, and a new box is covered too. */
  lemma CoversAfterDetect(v0: seq<bool>, v1: seq<bool>, w: nat, regions: seq<Region>, region: Option<Region>)
    requires Covers(v0, w, regions) && Remarked(v1, v0, w, region)
    ensures Covers(v1, w, regions)
    ensures region.Some? ==> Covers(v1, w, regions + [region.value])
  {
    if region.Some? {
      var rs := regions + [region.value];
      forall i, p | 0 <= i < |rs| && 0 <= p < |v1| && w > 0 && Contains(rs[i], Col(w, p), Row(w, p))
        ensures v1[p]
      {
        if i < |regions| {
          assert rs[i] == regions[i];
        }
      }
    }
  }

  /** Marks are only added inside the new box, if any. */
  lemma MarksWithinAfterDetect(v0: seq<bool>, v1: seq<bool>, w: nat, regions: seq<Region>, region: Option<Region>)
    requires MarksWithin(v0, w, regions) && Remarked(v1, v0, w, region)
    ensures region.None? ==> MarksWithin(v1, w, regions)
    ensures region.Some? ==> MarksWithin(v1, w, regions + [region.value])
  {
    if region.Some? {
      InAnyBoxAppend(regions, region.value);
    }
  }

  /** An unmarked seed lies in no found box. */
  lemma SeedOutside(v: seq<bool>, w: nat, h: nat, regions: seq<Region>, x: nat, y: nat)
    requires |v| == w * h && x < w && y < h && Covers(v, w, regions)
    requires Idx(w, x, y) < |v| && !v[Idx(w, x, y)]
    ensures forall i :: 0 <= i < |regions| ==> !Contains(regions[i], x, y)
  {
    ColRowOfIdx(w, x, y);
  }

  /** A marked seed lies in a found box. */
  lemma SeedInside(v: seq<bool>, w: nat, h: nat, regions: seq<Region>, x: nat, y: nat)
    requires |v| == w * h && x < w && y < h && MarksWithin(v, w, regions)
    requires Idx(w, x, y) < |v| && v[Idx(w, x, y)]
    ensures InAnyBox(regions, x, y)
  {
    ColRowOfIdx(w, x, y);
  }

  /** The grid seeds before the one after `(x, y)` in its row are `(x, y)` itself and
      those before it. */
  lemma SeedsBeforeNext(x: int, y: int, sx: int, sy: int, w: nat, h: nat)
    requires GridSeed(sx, sy, w, h) && x % 10 == 0 && ScanBefore(sx, sy, x + 10, y)
    ensures ScanBefore(sx, sy, x, y) || (sx == x && sy == y)
  {
  }

  /** The grid seeds before the start of the next grid row are those of this row and
      the rows before it. */
  lemma SeedsBeforeNextRow(y: int, sx: int, sy: int, w: nat, h: nat)
    requires GridSeed(sx, sy, w, h) && y % 10 == 0 && ScanBefore(sx, sy, 0, y + 10)
    ensures sy <= y
  {
  }

  /** Passing a seed that is already covered, or that does not grow, keeps the scan state. */
  lemma ScanSkip(regions: seq<Region>, data: seq<byte>, w: nat, h: nat, x: int, y: int)
    requires IsImage(data, w, h) && ScanState(regions, data, w, h, x, y) && x % 10 == 0
    requires GridSeed(x, y, w, h) && Grows(data, w, h, x, y) ==> InAnyBox(regions, x, y)
    ensures ScanState(regions, data, w, h, x + 10, y)
  {
    forall sx, sy | GridSeed(sx, sy, w, h) && ScanBefore(sx, sy, x + 10, y) && Grows(data, w, h, sx, sy)
      ensures InAnyBox(regions, sx, sy)
    {
      SeedsBeforeNext(x, y, sx, sy, w, h);
    }
  }

  /** Appending the box grown from seed `(x, y)` keeps the scan state. */
  lemma ScanAppend(regions: seq<Region>, r: Region, data: seq<byte>, w: nat, h: nat, x: int, y: int)
    requires IsImage(data, w, h) && ScanState(regions, data, w, h, x, y) && x % 10 == 0
    requires GridRegion(r, data, w, h) && r.x == x && r.y == y
    requires forall i :: 0 <= i < |regions| ==> !Contains(regions[i], x, y)
    ensures ScanState(regions + [r], data, w, h, x + 10, y)
  {
    var rs := regions + [r];
    InAnyBoxAppend(regions, r);
    SeededOutsideAppend(regions, r);
    InScanOrderAppend(regions, r);
    forall sx, sy | GridSeed(sx, sy, w, h) && ScanBefore(sx, sy, x + 10, y) && Grows(data, w, h, sx, sy)
      ensures InAnyBox(rs, sx, sy)
    {
      SeedsBeforeNext(x, y, sx, sy, w, h);
    }
    assert forall i :: 0 <= i < |rs| ==> rs[i] == if i < |regions| then regions[i] else r;
  }

  lemma SeededOutsideAppend(regions: seq<Region>, r: Region)
    requires SeededOutside(regions) && forall i :: 0 <= i < |regions| ==> !Contains(regions[i], r.x, r.y)
    ensures SeededOutside(regions + [r])
  {
    var rs := regions + [r];
    forall i, j | 0 <= i < j < |rs| ensures !Contains(rs[i], rs[j].x, rs[j].y) {
      if j == |regions| {
        assert rs[i] == regions[i];
      } else {
        assert rs[i] == regions[i] && rs[j] == regions[j];
      }
    }
  }

  lemma InScanOrderAppend(regions: seq<Region>, r: Region)
    requires InScanOrder(regions) && forall i :: 0 <= i < |regions| ==> ScanBefore(regions[i].x, regions[i].y, r.x, r.y)
    ensures InScanOrder(regions + [r])
  {
    var rs := regions + [r];
    forall i, j | 0 <= i < j < |rs| ensures ScanBefore(rs[i].x, rs[i].y, rs[j].x, rs[j].y) {
      if j == |regions| {
        assert rs[i] == regions[i];
      } else {
        assert rs[i] == regions[i] && rs[j] == regions[j];
      }
    }
  }

  /** One row of seeds of `findComponentRegions`: seeds every 10 pixels strictly
      before the last 20 columns; the boxes found are only ever appended to. */
  method ScanRow(data: seq<byte>, w: nat, h: nat, y: nat, visited: array<bool>, regions: seq<Region>)
    returns (regions': seq<Region>)
    requires IsImage(data, w, h) && y < h && visited.Length == w * h && y % 10 == 0 && y + 20 < h
    requires ScanState(regions, data, w, h, 0, y)
    requires Covers(visited[..], w, regions) && MarksWithin(visited[..], w, regions)
    modifies visited
    ensures ScanState(regions', data, w, h, 0, y + 10)
    ensures Covers(visited[..], w, regions') && MarksWithin(visited[..], w, regions')
    ensures |regions| <= |regions'| && regions'[..|regions|] == regions
  {
    regions' := regions;
    var minSize := 20;
    var x := 0;
    while x < w - minSize
      invariant 0 <= x && x % 10 == 0
      invariant ScanState(regions', data, w, h, x, y)
      invariant Covers(visited[..], w, regions') && MarksWithin(visited[..], w, regions')
      invariant |regions| <= |regions'| && regions'[..|regions|] == regions
    {
      ghost var before := regions';
      regions' := VisitSeed(data, w, h, x, y, visited, regions');
      PrefixTrans(regions, before, regions', Region(x, y, RowRun(data, w, h, x, y), ColumnRun(data, w, h, x, y)));
      x := x + 10;
    }
    ScanStateNextRow(regions', data, w, h, x, y);
  }

  /** The body of the seed loop of `findComponentRegions` for seed `(x, y)`: an
      unmarked seed is grown into a box, kept when both sides reach 20 pixels, and its
      pixels are marked; the found boxes stay exactly the marked pixels. */
  method VisitSeed(data: seq<byte>, w: nat, h: nat, x: nat, y: nat, visited: array<bool>, regions: seq<Region>)
    returns (regions': seq<Region>)
    requires IsImage(data, w, h) && GridSeed(x, y, w, h) && visited.Length == w * h
    requires ScanState(regions, data, w, h, x, y)
    requires Covers(visited[..], w, regions) && MarksWithin(visited[..], w, regions)
    modifies visited
    ensures ScanState(regions', data, w, h, x + 10, y)
    ensures Covers(visited[..], w, regions') && MarksWithin(visited[..], w, regions')
    ensures regions' == regions || regions' == regions + [Region(x, y, RowRun(data, w, h, x, y), ColumnRun(data, w, h, x, y))]
  {
    var minSize := 20;
    regions' := regions;
    IdxInRange(w, h, x, y);
    var index := y * w + x;
    if !visited[index] {
      SeedOutside(visited[..], w, h, regions, x, y);
      ghost var v0 := visited[..];
      var region := DetectRectangularRegion(data, x, y, w, h, visited);
      CoversAfterDetect(v0, visited[..], w, regions, region);
      MarksWithinAfterDetect(v0, visited[..], w, regions, region);
      if region.Some? && region.value.width >= minSize && region.value.height >= minSize {
        ScanAppend(regions, region.value, data, w, h, x, y);
        regions' := regions + [region.value];
      } else {
        ScanSkip(regions, data, w, h, x, y);
      }
    } else {
      SeedInside(visited[..], w, h, regions, x, y);
      ScanSkip(regions, data, w, h, x, y);
    }
  }

  lemma PrefixTrans<T>(a: seq<T>, b: seq<T>, c: seq<T>, x: T)
    requires |a| <= |b| && b[..|a|] == a
    requires c == b || c == b + [x]
    ensures |a| <= |c| && c[..|a|] == a
  {
    if c != b {
      assert c[..|a|] == b[..|a|];
    }
  }

  lemma ScanStateNextRow(regions: seq<Region>, data: seq<byte>, w: nat, h: nat, x: int, y: int)
    requires IsImage(data, w, h) && ScanState(regions, data, w, h, x, y) && x >= w - 20 && y % 10 == 0
    ensures ScanState(regions, data, w, h, 0, y + 10)
  {
    forall sx, sy | GridSeed(sx, sy, w, h) && ScanBefore(sx, sy, 0, y + 10) && Grows(data, w, h, sx, sy)
      ensures InAnyBox(regions, sx, sy)
    {
      SeedsBeforeNextRow(y, sx, sy, w, h);
    }
  }

  /** The outcome of the grid scan: grid boxes, in scan order of their seeds, none
      seeded inside an earlier one, and every grid seed that grows lies in one of
      them. */
  ghost predicate GridScan(regions: seq<Region>, data: seq<byte>, w: nat, h: nat)
    requires IsImage(data, w, h)
  {
    (forall i :: 0 <= i < |regions| ==> GridRegion(regions[i], data, w, h)) &&
    InScanOrder(regions) && SeededOutside(regions) &&
    (forall x, y :: GridSeed(x, y, w, h) && Grows(data, w, h, x, y) ==> InAnyBox(regions, x, y))
  }

  /** The boxes come in scan order of their seeds. */
  predicate InScanOrder(regions: seq<Region>)
  {
    forall i, j :: 0 <= i < j < |regions| ==> ScanBefore(regions[i].x, regions[i].y, regions[j].x, regions[j].y)
  }

  /** No box is seeded inside an earlier one. */
  predicate SeededOutside(regions: seq<Region>)
  {
    forall i, j :: 0 <= i < j < |regions| ==> !Contains(regions[i], regions[j].x, regions[j].y)
  }

  /** `findComponentRegions`: seeds on the 10-pixel grid, row by row, strictly before
      the last 20 columns and rows; the result is the grid scan of the image. */
  method FindComponentRegions(data: seq<byte>, w: nat, h: nat) returns (regions: seq<Region>)
    requires IsImage(data, w, h)
    ensures GridScan(regions, data, w, h)
  {
    regions := [];
    var visited := new bool[w * h](_ => false);
    var y := 0;
    while y < h - 20
      invariant 0 <= y && y % 10 == 0
      invariant ScanState(regions, data, w, h, 0, y)
      invariant Covers(visited[..], w, regions) && MarksWithin(visited[..], w, regions)
    {
      regions := ScanRow(data, w, h, y, visited, regions);
      y := y + 10;
    }
  }

  /** Seed `(x, y)` lies in box `b` only when `b`'s seed comes before it or is it. */
  lemma ContainedAfterSeed(b: Region, x: int, y: int)
    requires Contains(b, x, y)
    ensures !ScanBefore(x, y, b.x, b.y)
  {
  }

  /** With the first `k` boxes shared, the `k`-th box of `a` has a `k`-th box in `b`
      whose seed is not after it. */
  lemma NextSeedCovered(a: seq<Region>, b: seq<Region>, k: nat)
    requires k < |a| && k <= |b| && a[..k] == b[..k] && InAnyBox(b, a[k].x, a[k].y)
    requires SeededOutside(a) && InScanOrder(b)
    ensures k < |b| && !ScanBefore(a[k].x, a[k].y, b[k].x, b[k].y)
  {
    var j :| 0 <= j < |b| && Contains(b[j], a[k].x, a[k].y);
    ContainedAfterSeed(b[j], a[k].x, a[k].y);
  }

  /** Each box of one grid scan lies in a box of any other. */
  lemma SeedsInOtherScan(a: seq<Region>, b: seq<Region>, data: seq<byte>, w: nat, h: nat)
    requires IsImage(data, w, h) && GridScan(a, data, w, h) && GridScan(b, data, w, h)
    ensures forall k :: 0 <= k < |a| ==> InAnyBox(b, a[k].x, a[k].y)
  {
    forall k | 0 <= k < |a| ensures InAnyBox(b, a[k].x, a[k].y) {
      assert GridRegion(a[k], data, w, h);
    }
  }

  /** A grid box is determined by its seed. */
  lemma SameSeedSameBox(r: Region, r': Region, data: seq<byte>, w: nat, h: nat)
    requires IsImage(data, w, h) && GridRegion(r, data, w, h) && GridRegion(r', data, w, h)
    requires r.x == r'.x && r.y == r'.y
    ensures r == r'
  {
  }

  /** Two grid scans that share their first `k` boxes share the next one too. */
  lemma NextBoxShared(a: seq<Region>, b: seq<Region>, data: seq<byte>, w: nat, h: nat, k: nat)
    requires IsImage(data, w, h) && SeededOutside(a) && SeededOutside(b) && InScanOrder(a) && InScanOrder(b)
    requires forall i :: 0 <= i < |a| ==> GridRegion(a[i], data, w, h)
    requires forall i :: 0 <= i < |b| ==> GridRegion(b[i], data, w, h)
    requires k <= |a| && k <= |b| && a[..k] == b[..k] && (k < |a| || k < |b|)
    requires k < |a| ==> InAnyBox(b, a[k].x, a[k].y)
    requires k < |b| ==> InAnyBox(a, b[k].x, b[k].y)
    ensures k < |a| && k < |b| && a[..k + 1] == b[..k + 1]
  {
    if k < |a| {
      NextSeedCovered(a, b, k);
    }
    NextSeedCovered(b, a, k);
    SameSeedSameBox(a[k], b[k], data, w, h);
    assert a[..k + 1] == a[..k] + [a[k]] && b[..k + 1] == b[..k] + [b[k]];
  }

  /** Two lists of grid boxes, each covering the other's seeds, that share their
      first `k` boxes are equal. */
  lemma {:induction false} SharedFrom(a: seq<Region>, b: seq<Region>, data: seq<byte>, w: nat, h: nat, k: nat)
    requires IsImage(data, w, h) && SeededOutside(a) && SeededOutside(b) && InScanOrder(a) && InScanOrder(b)
    requires forall i :: 0 <= i < |a| ==> GridRegion(a[i], data, w, h)
    requires forall i :: 0 <= i < |b| ==> GridRegion(b[i], data, w, h)
    requires forall i :: 0 <= i < |a| ==> InAnyBox(b, a[i].x, a[i].y)
    requires forall i :: 0 <= i < |b| ==> InAnyBox(a, b[i].x, b[i].y)
    requires k <= |a| && k <= |b| && a[..k] == b[..k]
    ensures a == b
    decreases |a| + |b| - 2 * k
  {
    if k < |a| || k < |b| {
      NextBoxShared(a, b, data, w, h, k);
      SharedFrom(a, b, data, w, h, k + 1);
    } else {
      assert a == a[..k] && b == b[..k];
    }
  }

  /** The grid scan is determined by the image: two lists that both satisfy `GridScan`
      are the same list. */
  lemma GridScanUnique(a: seq<Region>, b: seq<Region>, data: seq<byte>, w: nat, h: nat)
    requires IsImage(data, w, h) && GridScan(a, data, w, h) && GridScan(b, data, w, h)
    ensures a == b
  {
    SeedsInOtherScan(a, b, data, w, h);
    SeedsInOtherScan(b, a, data, w, h);
    SharedFrom(a, b, data, w, h, 0);
  }

  // ---------------------------------------------------------------------------
  // Colour sampling

  /** The colour read at pixel `(x, y)` of a buffer `width` pixels wide, if the
      guard `index < data.length - 3` lets it through. */
  function SampleAt(data: seq<byte>, width: nat, x: nat, y: nat): seq<Rgb>
  {
    var i := (y * width + x) * 4;
    if i < |data| - 3 then [Rgb(data[i], data[i + 1], data[i + 2])] else []
  }

  /** `Math.min(start + size, start + window)`: where sampling along one side stops. */
  function WindowEnd(start: int, size: int, window: nat): int
  {
    if size <= window then start + size else start + window
  }

  /** The colours read along row `y`, from column `x` on, every `stride` columns. */
  function RowSamples(data: seq<byte>, width: nat, r: Region, stride: nat, window: nat, x: nat, y: nat): seq<Rgb>
    requires stride >= 1
    decreases WindowEnd(r.x, r.width, window) - x
  {
    if x < WindowEnd(r.x, r.width, window)
    then SampleAt(data, width, x, y) + RowSamples(data, width, r, stride, window, x + stride, y)
    else []
  }

  /** The colours read from row `y` on, every `stride` rows. */
  function GridSamples(data: seq<byte>, width: nat, r: Region, stride: nat, window: nat, y: nat): seq<Rgb>
    requires stride >= 1 && r.x >= 0
    decreases WindowEnd(r.y, r.height, window) - y
  {
    if y < WindowEnd(r.y, r.height, window)
    then RowSamples(data, width, r, stride, window, r.x, y) + GridSamples(data, width, r, stride, window, y + stride)
    else []
  }

  /** The colours the two nested sampling loops read, in the order they read them. */
  function Samples(data: seq<byte>, width: nat, r: Region, stride: nat, window: nat): seq<Rgb>
    requires stride >= 1 && r.x >= 0 && r.y >= 0
  {
    GridSamples(data, width, r, stride, window, r.y)
  }

  /** `origin + i * stride`: the `i`-th sampled coordinate along one axis. */
  function GridPoint(origin: int, i: nat, stride: nat): int
  {
    origin + i * stride
  }

  lemma GridPointNext(origin: int, i: nat, stride: nat)
    ensures GridPoint(origin, i + 1, stride) == GridPoint(origin, i, stride) + stride
  {
    assert (i + 1) * stride == i * stride + stride;
  }

  /** The sample `i` steps right and `j` steps down from the box's corner lies inside
      the window (at most `window` pixels on a side, clipped to the box), the index
      guard lets it through, and it reads colour `c`. */
  predicate SampledAt(data: seq<byte>, width: nat, r: Region, stride: nat, window: nat, c: Rgb, i: nat, j: nat)
  {
    var x, y := GridPoint(r.x, i, stride), GridPoint(r.y, j, stride);
    0 <= x < WindowEnd(r.x, r.width, window) && 0 <= y < WindowEnd(r.y, r.height, window) &&
    SampleAt(data, width, x, y) == [c]
  }

  lemma {:induction false} RowSamplesSound(data: seq<byte>, width: nat, r: Region, stride: nat, window: nat, i: nat, j: nat)
    requires stride >= 1 && r.x >= 0 && r.y >= 0
    requires GridPoint(r.y, j, stride) < WindowEnd(r.y, r.height, window)
    ensures GridPoint(r.x, i, stride) >= 0 && GridPoint(r.y, j, stride) >= 0
    ensures forall c :: c in RowSamples(data, width, r, stride, window, GridPoint(r.x, i, stride), GridPoint(r.y, j, stride)) ==>
      exists i' :: SampledAt(data, width, r, stride, window, c, i', j)
    decreases WindowEnd(r.x, r.width, window) - GridPoint(r.x, i, stride)
  {
    var x, y := GridPoint(r.x, i, stride), GridPoint(r.y, j, stride);
    if x < WindowEnd(r.x, r.width, window) {
      GridPointNext(r.x, i, stride);
      RowSamplesSound(data, width, r, stride, window, i + 1, j);
      var rest := RowSamples(data, width, r, stride, window, GridPoint(r.x, i + 1, stride), y);
      assert RowSamples(data, width, r, stride, window, x, y) == SampleAt(data, width, x, y) + rest;
      forall c | c in RowSamples(data, width, r, stride, window, x, y)
        ensures exists i' :: SampledAt(data, width, r, stride, window, c, i', j)
      {
        if c in SampleAt(data, width, x, y) {
          assert SampledAt(data, width, r, stride, window, c, i, j);
        } else {
          assert c in rest;
        }
      }
    }
  }

  lemma {:induction false} GridSamplesSound(data: seq<byte>, width: nat, r: Region, stride: nat, window: nat, j: nat)
    requires stride >= 1 && r.x >= 0 && r.y >= 0
    ensures GridPoint(r.y, j, stride) >= 0
    ensures forall c :: c in GridSamples(data, width, r, stride, window, GridPoint(r.y, j, stride)) ==>
      exists i', j' :: SampledAt(data, width, r, stride, window, c, i', j')
    decreases WindowEnd(r.y, r.height, window) - GridPoint(r.y, j, stride)
  {
    var y := GridPoint(r.y, j, stride);
    if y < WindowEnd(r.y, r.height, window) {
      GridPointNext(r.y, j, stride);
      GridSamplesSound(data, width, r, stride, window, j + 1);
      RowSamplesSound(data, width, r, stride, window, 0, j);
      assert GridPoint(r.x, 0, stride) == r.x;
    }
  }

  /** Every colour sampled is read from a pixel of the sampling grid: a whole number
      of strides from the box's corner along both axes, inside a window at most
      `window` pixels on a side clipped to the box, and let through by the index
      guard. */
  lemma SamplesSound(data: seq<byte>, width: nat, r: Region, stride: nat, window: nat)
    requires stride >= 1 && r.x >= 0 && r.y >= 0
    ensures forall c :: c in Samples(data, width, r, stride, window) ==>
      exists i, j :: SampledAt(data, width, r, stride, window, c, i, j)
  {
    GridSamplesSound(data, width, r, stride, window, 0);
    assert GridPoint(r.y, 0, stride) == r.y;
  }

  lemma SampleStep(colors: seq<Entry>, data: seq<byte>, width: nat, x: nat, y: nat, rest: seq<Rgb>)
    ensures Histogram(colors, SampleAt(data, width, x, y) + rest) ==
      Histogram(if SampleAt(data, width, x, y) == [] then colors else Increment(colors, SampleAt(data, width, x, y)[0]), rest)
  {
    var one := SampleAt(data, width, x, y);
    HistogramAppend(colors, one, rest);
    if one != [] {
      assert one[1..] == [];
    }
  }

  /** The nested sampling loops shared by `extractDominantColor` and
      `extractColorPalette`: rows and columns from the box's corner, every `stride`
      pixels, while inside both the box and the window, counting the colour of each
      pixel the index guard lets through. The counts are the histogram of the
      samples, in first-seen order. */
  method SampleColors(data: seq<byte>, width: nat, r: Region, stride: nat, window: nat)
    returns (colors: seq<Entry>)
    requires stride >= 1 && r.x >= 0 && r.y >= 0
    ensures colors == Histogram([], Samples(data, width, r, stride, window))
  {
    colors := [];
    ghost var counted := Histogram([], Samples(data, width, r, stride, window));
    var y: nat := r.y;
    while y < r.y + r.height && y < r.y + window
      invariant Histogram(colors, GridSamples(data, width, r, stride, window, y)) == counted
      decreases WindowEnd(r.y, r.height, window) - y
    {
      WindowGuard(y, r.y, r.height, window);
      GridHistogramStep(colors, data, width, r, stride, window, y);
      colors := SampleRow(data, width, r, stride, window, y, colors);
      y := y + stride;
    }
    GridSamplesStep(data, width, r, stride, window, y);
  }

  /** One step of the grid's samples: the current row's samples, then the rest;
      nothing once past the window. */
  lemma GridSamplesStep(data: seq<byte>, width: nat, r: Region, stride: nat, window: nat, y: nat)
    requires stride >= 1 && r.x >= 0
    ensures y < WindowEnd(r.y, r.height, window) ==>
      GridSamples(data, width, r, stride, window, y) ==
      RowSamples(data, width, r, stride, window, r.x, y) + GridSamples(data, width, r, stride, window, y + stride)
    ensures y >= WindowEnd(r.y, r.height, window) ==> GridSamples(data, width, r, stride, window, y) == []
  {
  }

  /** The source's two loop bounds together are the window's end. */
  lemma WindowGuard(i: int, start: int, size: int, window: nat)
    ensures (i < start + size && i < start + window) == (i < WindowEnd(start, size, window))
  {
  }

  /** Counting the samples from row `y` on is counting the current row's, then the rest. */
  lemma GridHistogramStep(colors: seq<Entry>, data: seq<byte>, width: nat, r: Region, stride: nat, window: nat, y: nat)
    requires stride >= 1 && r.x >= 0 && y < WindowEnd(r.y, r.height, window)
    ensures Histogram(colors, GridSamples(data, width, r, stride, window, y)) ==
      Histogram(Histogram(colors, RowSamples(data, width, r, stride, window, r.x, y)), GridSamples(data, width, r, stride, window, y + stride))
  {
    GridSamplesStep(data, width, r, stride, window, y);
    HistogramAppend(colors, RowSamples(data, width, r, stride, window, r.x, y), GridSamples(data, width, r, stride, window, y + stride));
  }

  /** The inner sampling loop: one row of the window, counted on top of `colors`. */
  method SampleRow(data: seq<byte>, width: nat, r: Region, stride: nat, window: nat, y: nat, colors: seq<Entry>)
    returns (colors': seq<Entry>)
    requires stride >= 1 && r.x >= 0
    ensures colors' == Histogram(colors, RowSamples(data, width, r, stride, window, r.x, y))
  {
    colors' := colors;
    var x: nat := r.x;
    while x < r.x + r.width && x < r.x + window
      invariant Histogram(colors', RowSamples(data, width, r, stride, window, x, y)) ==
        Histogram(colors, RowSamples(data, width, r, stride, window, r.x, y))
      decreases WindowEnd(r.x, r.width, window) - x
    {
      RowSamplesStep(data, width, r, stride, window, x, y);
      var sample := SampleAt(data, width, x, y);
      SampleStep(colors', data, width, x, y, RowSamples(data, width, r, stride, window, x + stride, y));
      if sample != [] {
        colors' := Increment(colors', sample[0]);
      }
      x := x + stride;
    }
    RowSamplesStep(data, width, r, stride, window, x, y);
  }

  /** One step of the row's samples: the current pixel's sample, then the rest;
      nothing once past the window. */
  lemma RowSamplesStep(data: seq<byte>, width: nat, r: Region, stride: nat, window: nat, x: nat, y: nat)
    requires stride >= 1
    ensures x < WindowEnd(r.x, r.width, window) ==>
      RowSamples(data, width, r, stride, window, x, y) ==
      SampleAt(data, width, x, y) + RowSamples(data, width, r, stride, window, x + stride, y)
    ensures x >= WindowEnd(r.x, r.width, window) ==> RowSamples(data, width, r, stride, window, x, y) == []
  {
  }

  /** Entry `i` is the first entry with the largest count, and that count is positive. */
  predicate IsFirstMax(counts: seq<Entry>, i: nat)
  {
    i < |counts| && counts[i].count > 0 &&
    (forall j :: 0 <= j < i ==> counts[j].count < counts[i].count) &&
    (forall j :: i < j < |counts| ==> counts[j].count <= counts[i].count)
  }

  /** The fallback of `extractDominantColor`. */
  const Gray := "rgb(128,128,128)"

  /** The scan for the dominant colour over the map's entries in insertion order:
      a count replaces the best so far only when strictly larger, so the first entry
      with the largest count wins; with no positive count the fallback stays. */
  method DominantEntry(counts: seq<Entry>) returns (dominant: string)
    ensures (forall j :: 0 <= j < |counts| ==> counts[j].count == 0) ==> dominant == Gray
    ensures (exists j :: 0 <= j < |counts| && counts[j].count > 0) ==>
      exists i: nat :: IsFirstMax(counts, i) && dominant == RgbString(counts[i].color)
  {
    dominant := Gray;
    var maxCount := 0;
    ghost var best := -1;
    for k := 0 to |counts|
      invariant best == -1 ==> maxCount == 0 && dominant == Gray && forall j :: 0 <= j < k ==> counts[j].count == 0
      invariant best != -1 ==> 0 <= best < k && maxCount == counts[best].count > 0
      invariant best != -1 ==> dominant == RgbString(counts[best].color)
      invariant best != -1 ==> forall j :: 0 <= j < best ==> counts[j].count < maxCount
      invariant best != -1 ==> forall j :: best < j < k ==> counts[j].count <= maxCount
    {
      if counts[k].count > maxCount {
        maxCount := counts[k].count;
        dominant := RgbString(counts[k].color);
        best := k;
      }
    }
    if best != -1 {
      assert IsFirstMax(counts, best);
    }
  }

  /** `c` is the most frequent colour of `s`, and among equally frequent colours the
      one seen first. */
  predicate MostFrequentFirst(s: seq<Rgb>, c: Rgb)
  {
    c in s &&
    (forall d :: d in s ==> multiset(s)[d] <= multiset(s)[c]) &&
    (forall k :: 0 <= k < |s| && s[k] != c && multiset(s)[s[k]] == multiset(s)[c] ==> c in s[..k])
  }

  /** At most one colour is the most frequent and first seen. */
  lemma MostFrequentFirstUnique(s: seq<Rgb>, c: Rgb, d: Rgb)
    requires MostFrequentFirst(s, c) && MostFrequentFirst(s, d)
    ensures c == d
  {
    if c != d {
      var kc :| 0 <= kc < |s| && s[kc] == c && c !in s[..kc] by {
        FirstOccurrence(s, c);
      }
    }
  }

  lemma {:induction false} FirstOccurrence(s: seq<Rgb>, c: Rgb)
    requires c in s
    ensures exists k :: 0 <= k < |s| && s[k] == c && c !in s[..k]
  {
    if s[0] == c {
      assert s[..0] == [];
    } else {
      FirstOccurrence(s[1..], c);
      var k :| 0 <= k < |s[1..]| && s[1..][k] == c && c !in s[1..][..k];
      assert s[..k + 1] == [s[0]] + s[1..][..k];
    }
  }

  /** The first entry with the largest count in the histogram of `s` is the most
      frequent colour of `s`, the first seen among ties; the histogram of a
      non-empty list has one, and that of an empty list has no entries. */
  lemma FirstMaxOfHistogram(s: seq<Rgb>)
    ensures s == [] ==> Histogram([], s) == []
    ensures s != [] ==> exists j :: 0 <= j < |Histogram([], s)| && Histogram([], s)[j].count > 0
    ensures forall i: nat :: IsFirstMax(Histogram([], s), i) ==> MostFrequentFirst(s, Histogram([], s)[i].color)
  {
    var h := Histogram([], s);
    HistogramProps([], s);
    if s != [] {
      assert s[0] in Colours(h);
    }
    forall i: nat | IsFirstMax(h, i) ensures MostFrequentFirst(s, h[i].color) {
      var c := h[i].color;
      CountOfEntry(h, i);
      assert c in Colours(h);
      forall d | d in s ensures multiset(s)[d] <= multiset(s)[c] {
        assert d in Colours(h);
        var j :| 0 <= j < |h| && h[j].color == d;
        CountOfEntry(h, j);
      }
      forall k | 0 <= k < |s| && s[k] != c && multiset(s)[s[k]] == multiset(s)[c] ensures c in s[..k] {
        assert s[k] in Colours(h);
        var j :| 0 <= j < |h| && h[j].color == s[k];
        CountOfEntry(h, j);
        assert j != i;
        FirstSeenFirst(s, k, i, j);
      }
    }
  }

  /** `d` names the most frequent colour of `s`, the first seen among ties, or is the
      fallback when `s` is empty. */
  ghost predicate DominantOf(s: seq<Rgb>, d: string)
  {
    (s == [] ==> d == Gray) && (s != [] ==> exists c :: MostFrequentFirst(s, c) && d == RgbString(c))
  }

  /** `extractDominantColor`: samples every second pixel of at most the first 50 rows
      and columns of the box, with no alpha filter, and returns the most frequent
      colour, the first seen among ties, or `rgb(128,128,128)` when nothing was
      sampled. */
  method ExtractDominantColor(data: seq<byte>, r: Region, width: nat) returns (dominant: string)
    requires r.x >= 0 && r.y >= 0
    ensures DominantOf(Samples(data, width, r, 2, 50), dominant)
  {
    ghost var samples := Samples(data, width, r, 2, 50);
    var colors := SampleColors(data, width, r, 2, 50);
    dominant := DominantEntry(colors);
    FirstMaxOfHistogram(samples);
    if samples != [] {
      var i: nat :| IsFirstMax(colors, i) && dominant == RgbString(colors[i].color);
      assert MostFrequentFirst(samples, colors[i].color);
    }
  }

  /** `extractColorPalette`: samples every third pixel of at most the first 30 rows
      and columns of the box and returns the texts of the three most frequent
      colours, most frequent first (see `Tally.TopTextsColours` and
      `Tally.TopTextsRanked`). */
  method ExtractColorPalette(data: seq<byte>, r: Region, width: nat) returns (palette: seq<string>)
    requires r.x >= 0 && r.y >= 0
    ensures palette == TopTexts(Samples(data, width, r, 3, 30), 3)
  {
    var colors := SampleColors(data, width, r, 3, 30);
    var ranked := SortDesc(colors, CountKey);
    var top := if |ranked| <= 3 then ranked else ranked[..3];
    palette := seq(|top|, i requires 0 <= i < |top| => RgbString(top[i].color));
  }

  // ---------------------------------------------------------------------------
  // Per-box estimates

  /** `estimateBorderRadius`: 8 for boxes narrower than 100 and lower than 50, else 12
      for boxes narrower than 200 and lower than 100, else 16. */
  function EstimateBorderRadius(r: Region): (radius: nat)
    ensures radius == 8 <==> r.width < 100 && r.height < 50
    ensures radius == 12 <==> !(r.width < 100 && r.height < 50) && r.width < 200 && r.height < 100
    ensures radius == 16 <==> !(r.width < 200 && r.height < 100)
  {
    if r.width < 100 && r.height < 50 then 8
    else if r.width < 200 && r.height < 100 then 12
    else 16
  }

  /** A box at least as wide and as high as another never gets a smaller radius. */
  lemma EstimateBorderRadiusMonotone(r: Region, q: Region)
    requires r.width <= q.width && r.height <= q.height
    ensures EstimateBorderRadius(r) <= EstimateBorderRadius(q)
  {
  }

  /** The bonus for a typical aspect ratio: `0.5 < w / h < 10`. */
  predicate TypicalRatio(r: Region) { r.height < 2 * r.width && r.width < 10 * r.height }

  /** The bonus for a typical area: `400 < w * h < 50000`. */
  predicate TypicalArea(r: Region) { 400 < Area(r) < 50000 }

  /** The bonus for a box large enough to hold text: `w > 30 && h > 20`. */
  predicate RoomyBox(r: Region) { r.width > 30 && r.height > 20 }

  function Bonus(b: bool, amount: real): real
  {
    if b then amount else 0.0
  }

  /** `calculateRegionConfidence`: 0.5, plus 0.2 for a typical aspect ratio, plus 0.2
      for a typical area, plus 0.1 for a roomy box, capped at 1.0. The score stays in
      `[0.5, 1.0]`; it is 1.0 exactly when all three bonuses apply and 0.5 exactly
      when none does. */
  function CalculateRegionConfidence(r: Region): (confidence: real)
    requires r.height > 0
    ensures confidence == 0.5 + Bonus(TypicalRatio(r), 0.2) + Bonus(TypicalArea(r), 0.2) + Bonus(RoomyBox(r), 0.1)
    ensures 0.5 <= confidence <= 1.0
    ensures confidence == 1.0 <==> TypicalRatio(r) && TypicalArea(r) && RoomyBox(r)
    ensures confidence == 0.5 <==> !TypicalRatio(r) && !TypicalArea(r) && !RoomyBox(r)
  {
    RatioCompare(r.width, r.height, 1, 2);
    RatioCompare(r.width, r.height, 10, 1);
    var aspectRatio := r.width as real / r.height as real;
    var area := r.width * r.height;
    var c0 := 0.5;
    var c1 := if aspectRatio > 0.5 && aspectRatio < 10.0 then c0 + 0.2 else c0;
    var c2 := if area > 400 && area < 50000 then c1 + 0.2 else c1;
    var c3 := if r.width > 30 && r.height > 20 then c2 + 0.1 else c2;
    MinReal(c3, 1.0)
  }

  /** Rules of `classifyRegion`, with the aspect ratio `w / h` compared by
      cross-multiplying with the (positive) height. */
  predicate GridButtonRule(r: Region)
  {
    2 * r.width > 3 * r.height && r.width < 6 * r.height && Area(r) < 20000 && r.height < 60
  }

  predicate GridCardRule(r: Region) { Area(r) > 15000 && r.width < 3 * r.height }

  predicate GridInputRule(r: Region) { r.width > 3 * r.height && r.height < 50 }

  predicate GridNavRule(r: Region) { r.width > 2 * r.height && r.height < 40 }

  /** `classifyRegion`: the first rule that matches, in the order button, card, input,
      navigation item, else container. */
  function ClassifyRegion(r: Region): (t: string)
    requires r.height > 0
    ensures t == "button" <==> GridButtonRule(r)
    ensures t == "card" <==> !GridButtonRule(r) && GridCardRule(r)
    ensures t == "input" <==> !GridButtonRule(r) && !GridCardRule(r) && GridInputRule(r)
    ensures t == "nav-item" <==> !GridButtonRule(r) && !GridCardRule(r) && !GridInputRule(r) && GridNavRule(r)
    ensures t == "container" <==>
      !GridButtonRule(r) && !GridCardRule(r) && !GridInputRule(r) && !GridNavRule(r)
  {
    RatioCompare(r.width, r.height, 3, 2);
    RatioCompare(r.width, r.height, 6, 1);
    RatioCompare(r.width, r.height, 3, 1);
    RatioCompare(r.width, r.height, 2, 1);
    var aspectRatio := r.width as real / r.height as real;
    var area := r.width * r.height;
    if aspectRatio > 1.5 && aspectRatio < 6.0 && area < 20000 && r.height < 60 then "button"
    else if area > 15000 && aspectRatio < 3.0 then "card"
    else if aspectRatio > 3.0 && r.height < 50 then "input"
    else if aspectRatio > 2.0 && r.height < 40 then "nav-item"
    else "container"
  }

  // ---------------------------------------------------------------------------
  // Components

  datatype GridProperties = GridProperties(width: int, height: int, borderRadius: nat, padding: Padding)

  /** A component found by the grid scan. */
  datatype GridComponent = GridComponent(
    id: string,
    kind: string,
    bounds: Region,
    properties: GridProperties,
    colors: ColorSummary,
    hasText: bool,
    confidence: real)

  /** `detected_${index}`. */
  function ComponentId(index: nat): string
  {
    "detected_" + NatToString(index)
  }

  /** Different positions get different ids. */
  lemma ComponentIdInjective(i: nat, j: nat)
    requires ComponentId(i) == ComponentId(j)
    ensures i == j
  {
    assert NatToString(i) == ComponentId(i)[9..];
    assert NatToString(j) == ComponentId(j)[9..];
    NatToStringInjective(i, j);
  }

  /** `c` is the component `analyzeImageForComponents` builds for box `r` at position
      `index` of the box list. */
  ghost predicate DescribesRegion(data: seq<byte>, width: nat, c: GridComponent, r: Region, index: nat)
  {
    r.x >= 0 && r.y >= 0 && r.height > 0 &&
    c.id == ComponentId(index) && c.bounds == r && c.kind == ClassifyRegion(r) &&
    c.properties == GridProperties(r.width, r.height, EstimateBorderRadius(r), Padding(8, 12, 8, 12)) &&
    DominantOf(Samples(data, width, r, 2, 50), c.colors.dominant) &&
    c.colors.palette == TopTexts(Samples(data, width, r, 3, 30), 3) &&
    c.hasText == (r.width > 50 && r.height > 20) &&
    c.confidence == CalculateRegionConfidence(r)
  }

  /** The body of the `forEach` in `analyzeImageForComponents` for one box. */
  method DescribeRegion(data: seq<byte>, width: nat, r: Region, index: nat) returns (c: GridComponent)
    requires r.x >= 0 && r.y >= 0 && r.height > 0
    ensures DescribesRegion(data, width, c, r, index)
  {
    var dominant := ExtractDominantColor(data, r, width);
    var palette := ExtractColorPalette(data, r, width);
    c := GridComponent(
      ComponentId(index),
      ClassifyRegion(r),
      r,
      GridProperties(r.width, r.height, EstimateBorderRadius(r), Padding(8, 12, 8, 12)),
      ColorSummary(dominant, palette),
      r.width > 50 && r.height > 20,
      CalculateRegionConfidence(r));
  }

  ghost predicate DescribesRegions(data: seq<byte>, width: nat, components: seq<GridComponent>, regions: seq<Region>)
  {
    |components| == |regions| &&
    forall i :: 0 <= i < |components| ==> DescribesRegion(data, width, components[i], regions[i], i)
  }

  /** `components.filter((c) => c.confidence > 0.3)`. */
  function Confident(components: seq<GridComponent>): (kept: seq<GridComponent>)
    ensures |kept| <= |components|
    ensures forall i :: 0 <= i < |kept| ==> kept[i].confidence > 0.3
  {
    if components == [] then []
    else (if components[0].confidence > 0.3 then [components[0]] else []) + Confident(components[1..])
  }

  /** A list whose confidences all exceed 0.3 passes the filter unchanged; since a
      box's confidence is never below 0.5, the filter never removes anything. */
  lemma {:induction false} ConfidentKeepsAll(components: seq<GridComponent>)
    requires forall i :: 0 <= i < |components| ==> components[i].confidence > 0.3
    ensures Confident(components) == components
  {
    if components != [] {
      ConfidentKeepsAll(components[1..]);
    }
  }

  /** `analyzeImageForComponents`: one component per box of the grid scan, in scan
      order, with id `detected_<position>`; the confidence filter keeps them all. */
  method AnalyzeImageForComponents(data: seq<byte>, w: nat, h: nat) returns (components: seq<GridComponent>)
    requires IsImage(data, w, h)
    ensures exists regions :: DescribesRegions(data, w, components, regions) && GridScan(regions, data, w, h)
  {
    var regions := FindComponentRegions(data, w, h);
    GridRegionsDescribable(regions, data, w, h);
    var built := DescribeAll(data, w, regions);
    AllConfident(data, w, built, regions);
    ConfidentKeepsAll(built);
    components := Confident(built);
  }

  /** The `map` of `analyzeImageForComponents`: one component per box, in order. */
  method DescribeAll(data: seq<byte>, w: nat, regions: seq<Region>) returns (built: seq<GridComponent>)
    requires forall i :: 0 <= i < |regions| ==> regions[i].x >= 0 && regions[i].y >= 0 && regions[i].height > 0
    ensures DescribesRegions(data, w, built, regions)
  {
    built := [];
    for index := 0 to |regions|
      invariant |built| == index
      invariant forall i :: 0 <= i < index ==> DescribesRegion(data, w, built[i], regions[i], i)
    {
      var r := regions[index];
      var c := DescribeRegion(data, w, r, index);
      built := built + [c];
    }
  }

  lemma GridRegionsDescribable(regions: seq<Region>, data: seq<byte>, w: nat, h: nat)
    requires IsImage(data, w, h) && GridScan(regions, data, w, h)
    ensures forall i :: 0 <= i < |regions| ==> regions[i].x >= 0 && regions[i].y >= 0 && regions[i].height > 0
  {
    forall i | 0 <= i < |regions| ensures regions[i].x >= 0 && regions[i].y >= 0 && regions[i].height > 0 {
      assert GridRegion(regions[i], data, w, h);
    }
  }

  lemma AllConfident(data: seq<byte>, w: nat, built: seq<GridComponent>, regions: seq<Region>)
    requires DescribesRegions(data, w, built, regions)
    ensures forall i :: 0 <= i < |built| ==> built[i].confidence > 0.3
  {
    forall i | 0 <= i < |built| ensures built[i].confidence > 0.3 {
      assert DescribesRegion(data, w, built[i], regions[i], i);
    }
  }

  /** Ids of the components are pairwise different. */
  lemma ComponentIdsDistinct(data: seq<byte>, width: nat, components: seq<GridComponent>, regions: seq<Region>)
    requires DescribesRegions(data, width, components, regions)
    ensures forall i, j :: 0 <= i < j < |components| ==> components[i].id != components[j].id
  {
    forall i, j | 0 <= i < j < |components| ensures components[i].id != components[j].id {
      assert DescribesRegion(data, width, components[i], regions[i], i);
      assert DescribesRegion(data, width, components[j], regions[j], j);
      if components[i].id == components[j].id {
        ComponentIdInjective(i, j);
      }
    }
  }

  // ---------------------------------------------------------------------------
  // Summary statistics

  function Kinds(components: seq<GridComponent>): seq<string>
  {
    seq(|components|, i requires 0 <= i < |components| => components[i].kind)
  }

  /** `counts[k] || 0`. */
  function CountFor(counts: Dict<nat>, k: string): nat
  {
    var v := Lookup(counts, k);
    if v.Some? then v.value else 0
  }

  function SumCounts(counts: Dict<nat>): nat
  {
    if counts == [] then 0 else counts[0].1 + SumCounts(counts[1..])
  }

  /** Writing `v` under an existing or new key changes the sum by the difference. */
  lemma {:induction false} SumCountsStore(counts: Dict<nat>, k: string, v: nat)
    requires DistinctKeys(counts)
    ensures SumCounts(Store(counts, k, v)) + CountFor(counts, k) == SumCounts(counts) + v
  {
    if counts != [] {
      if counts[0].0 != k {
        assert DistinctKeys(counts[1..]);
        SumCountsStore(counts[1..], k, v);
        assert Store(counts, k, v)[1..] == Store(counts[1..], k, v);
      } else {
        KeysCons(counts);
        assert DistinctKeys(counts[1..]);
        assert k !in Keys(counts[1..]);
        SumCountsNoKey(counts[1..], k);
      }
    }
  }

  lemma SumCountsNoKey(counts: Dict<nat>, k: string)
    requires k !in Keys(counts)
    ensures CountFor(counts, k) == 0
  {
  }

  /** `counts` holds, for each kind in `kinds`, the number of times it occurs, and
      nothing else; its counts add up to the length of `kinds`. */
  ghost predicate CountsOf(counts: Dict<nat>, kinds: seq<string>)
  {
    DistinctKeys(counts) &&
    (forall k :: CountFor(counts, k) == multiset(kinds)[k]) &&
    (forall k :: k in Keys(counts) <==> k in kinds) &&
    SumCounts(counts) == |kinds|
  }

  /** One `counts[k] = (counts[k] || 0) + 1` counts one more `k`. */
  lemma CountsOfStep(counts: Dict<nat>, kinds: seq<string>, k: string)
    requires CountsOf(counts, kinds)
    ensures CountsOf(Store<nat>(counts, k, CountFor(counts, k) + 1), kinds + [k])
  {
    var v: nat := CountFor(counts, k) + 1;
    var counts' := Store<nat>(counts, k, v);
    SumCountsStore(counts, k, v);
    StoreKeys<nat>(counts, k, v);
    StoreDistinct<nat>(counts, k, v);
    CountForStep(counts, kinds, k);
    assert forall x :: x in kinds + [k] <==> x in kinds || x == k;
  }

  lemma CountForStep(counts: Dict<nat>, kinds: seq<string>, k: string)
    requires forall k' :: CountFor(counts, k') == multiset(kinds)[k']
    ensures forall k' :: CountFor(Store<nat>(counts, k, CountFor(counts, k) + 1), k') == multiset(kinds + [k])[k']
  {
    var v: nat := CountFor(counts, k) + 1;
    forall k' ensures CountFor(Store<nat>(counts, k, v), k') == multiset(kinds + [k])[k'] {
      LookupStore<nat>(counts, k, v, k');
    }
  }

  /** `getComponentTypeCounts`: for each component, `counts[type] = (counts[type] || 0) + 1`.
      Each type is counted exactly as often as it occurs, only occurring types get a
      key, and the counts add up to the number of components. */
  method TypeCounts(components: seq<GridComponent>) returns (counts: Dict<nat>)
    ensures CountsOf(counts, Kinds(components))
  {
    counts := [];
    for i := 0 to |components|
      invariant CountsOf(counts, Kinds(components)[..i])
    {
      var k := components[i].kind;
      assert Kinds(components)[..i + 1] == Kinds(components)[..i] + [k];
      CountsOfStep(counts, Kinds(components)[..i], k);
      counts := Store<nat>(counts, k, CountFor(counts, k) + 1);
    }
    assert Kinds(components)[..|components|] == Kinds(components);
  }

  datatype Size = Size(width: int, height: int)

  function SumWidths(components: seq<GridComponent>): int
  {
    if components == [] then 0 else components[0].bounds.width + SumWidths(components[1..])
  }

  function SumHeights(components: seq<GridComponent>): int
  {
    if components == [] then 0 else components[0].bounds.height + SumHeights(components[1..])
  }

  /** `calculateAverageComponentSize`: `{0, 0}` for no components, else the rounded
      means of the box widths and heights. */
  function AverageSize(components: seq<GridComponent>): (size: Size)
    ensures components == [] ==> size == Size(0, 0)
  {
    if |components| == 0 then Size(0, 0)
    else
      Size(Round(SumWidths(components) as real / |components| as real),
           Round(SumHeights(components) as real / |components| as real))
  }

  lemma {:induction false} SumWidthsBetween(components: seq<GridComponent>, lo: int, hi: int)
    requires forall i :: 0 <= i < |components| ==> lo <= components[i].bounds.width <= hi
    ensures lo * |components| <= SumWidths(components) <= hi * |components|
  {
    if components != [] {
      SumWidthsBetween(components[1..], lo, hi);
    }
  }

  lemma {:induction false} SumHeightsBetween(components: seq<GridComponent>, lo: int, hi: int)
    requires forall i :: 0 <= i < |components| ==> lo <= components[i].bounds.height <= hi
    ensures lo * |components| <= SumHeights(components) <= hi * |components|
  {
    if components != [] {
      SumHeightsBetween(components[1..], lo, hi);
    }
  }

  /** The average lies between the smallest and the largest box: with every side
      between 20 and 200, as the grid scan guarantees, so is the average. */
  lemma AverageSizeBetween(components: seq<GridComponent>, lo: int, hi: int)
    requires components != []
    requires forall i :: 0 <= i < |components| ==>
      lo <= components[i].bounds.width <= hi && lo <= components[i].bounds.height <= hi
    ensures lo <= AverageSize(components).width <= hi
    ensures lo <= AverageSize(components).height <= hi
  {
    SumWidthsBetween(components, lo, hi);
    SumHeightsBetween(components, lo, hi);
    RoundedMeanBetween(SumWidths(components), |components|, lo, hi);
    RoundedMeanBetween(SumHeights(components), |components|, lo, hi);
  }

  /** A total between `lo * n` and `hi * n` has a rounded mean between `lo` and `hi`. */
  lemma RoundedMeanBetween(total: int, n: nat, lo: int, hi: int)
    requires n > 0 && lo * n <= total <= hi * n
    ensures lo <= Round(total as real / n as real) <= hi
  {
    assert (lo * n) as real == lo as real * n as real;
    assert (hi * n) as real == hi as real * n as real;
    MeanBetween(total as real, n as real, lo as real, hi as real);
    RoundBetween(total as real / n as real, lo, hi);
  }

  function SumConfidence(components: seq<GridComponent>): real
  {
    if components == [] then 0.0 else components[0].confidence + SumConfidence(components[1..])
  }

  /** `calculateDetectionConfidence`: 0 for no components, else the mean confidence
      times 100. */
  function DetectionConfidence(components: seq<GridComponent>): (percent: real)
    ensures components == [] ==> percent == 0.0
  {
    if |components| == 0 then 0.0
    else SumConfidence(components) / |components| as real * 100.0
  }

  lemma {:induction false} SumConfidenceBetween(components: seq<GridComponent>, lo: real, hi: real)
    requires forall i :: 0 <= i < |components| ==> lo <= components[i].confidence <= hi
    ensures lo * |components| as real <= SumConfidence(components) <= hi * |components| as real
  {
    if components != [] {
      SumConfidenceBetween(components[1..], lo, hi);
    }
  }

  /** With every confidence in `[0.5, 1.0]`, as every box's is, the detection
      confidence lies in `[50, 100]`. */
  lemma DetectionConfidenceBetween(components: seq<GridComponent>)
    requires components != []
    requires forall i :: 0 <= i < |components| ==> 0.5 <= components[i].confidence <= 1.0
    ensures 50.0 <= DetectionConfidence(components) <= 100.0
  {
    var n := |components| as real;
    SumConfidenceBetween(components, 0.5, 1.0);
    MeanBetween(SumConfidence(components), n, 0.5, 1.0);
  }

  // ---------------------------------------------------------------------------
  // The analysis thunk and the slice state

  datatype Analysis = Analysis(
    totalComponents: nat,
    componentTypes: Dict<nat>,
    averageSize: Size,
    detectionConfidence: real)

  datatype AnalysisPayload = AnalysisPayload(components: seq<GridComponent>, analysis: Analysis)

  /** A grid box's sides lie between 20 and 200. */
  lemma GridRegionSides(r: Region, data: seq<byte>, w: nat, h: nat)
    requires IsImage(data, w, h) && GridRegion(r, data, w, h)
    ensures 20 <= r.width <= 200 && 20 <= r.height <= 200
  {
  }

  /** The `analyzeComponents` thunk on a readable canvas: the components of
      `analyzeImageForComponents` with their count, their per-type counts, their
      average size and their detection confidence. With at least one component the
      average sides lie between 20 and 200 and the confidence between 50 and 100. */
  method AnalyzeComponents(data: seq<byte>, w: nat, h: nat) returns (payload: AnalysisPayload)
    requires IsImage(data, w, h)
    ensures exists regions :: DescribesRegions(data, w, payload.components, regions) && GridScan(regions, data, w, h)
    ensures payload.analysis.totalComponents == |payload.components|
    ensures CountsOf(payload.analysis.componentTypes, Kinds(payload.components))
    ensures payload.analysis.averageSize == AverageSize(payload.components)
    ensures payload.analysis.detectionConfidence == DetectionConfidence(payload.components)
    ensures payload.components != [] ==>
      20 <= payload.analysis.averageSize.width <= 200 && 20 <= payload.analysis.averageSize.height <= 200 &&
      50.0 <= payload.analysis.detectionConfidence <= 100.0
  {
    var components := AnalyzeImageForComponents(data, w, h);
    var types := TypeCounts(components);
    payload := AnalysisPayload(components,
      Analysis(|components|, types, AverageSize(components), DetectionConfidence(components)));
    if components != [] {
      ghost var regions :| DescribesRegions(data, w, components, regions) && GridScan(regions, data, w, h);
      forall i | 0 <= i < |components|
        ensures 20 <= components[i].bounds.width <= 200 && 20 <= components[i].bounds.height <= 200
        ensures 0.5 <= components[i].confidence <= 1.0
      {
        assert DescribesRegion(data, w, components[i], regions[i], i);
        GridRegionSides(regions[i], data, w, h);
      }
      AverageSizeBetween(components, 20, 200);
      DetectionConfidenceBetween(components);
    }
  }

  /** The components slice of the store. */
  class ComponentsState {
    var detectedComponents: seq<GridComponent>
    var selectedComponent: Option<GridComponent>
    var analysis: Option<Analysis>
    var isAnalyzing: bool
    var error: Option<string>

    /** While an analysis runs, no error is shown. */
    predicate Valid()
      reads this
    {
      isAnalyzing ==> error.None?
    }

    /** The initial state: nothing detected, selected or analysed, idle, no error. */
    constructor()
      ensures detectedComponents == [] && selectedComponent.None? && analysis.None?
      ensures !isAnalyzing && error.None?
      ensures Valid()
    {
      detectedComponents := [];
      selectedComponent := None;
      analysis := None;
      isAnalyzing := false;
      error := None;
    }

    /** `selectComponent`: the payload becomes the selection; nothing else changes. */
    method SelectComponent(payload: Option<GridComponent>)
      requires Valid()
      modifies this
      ensures selectedComponent == payload
      ensures detectedComponents == old(detectedComponents) && analysis == old(analysis)
      ensures isAnalyzing == old(isAnalyzing) && error == old(error)
      ensures Valid()
    {
      selectedComponent := payload;
    }

    /** `clearComponents`: empties the list, the selection and the analysis, and keeps
        the progress flag and the error. */
    method ClearComponents()
      requires Valid()
      modifies this
      ensures detectedComponents == [] && selectedComponent.None? && analysis.None?
      ensures isAnalyzing == old(isAnalyzing) && error == old(error)
      ensures Valid()
    {
      detectedComponents := [];
      selectedComponent := None;
      analysis := None;
    }

    /** `analyzeComponents.pending`: busy, and any earlier error is cleared. */
    method AnalyzePending()
      requires Valid()
      modifies this
      ensures isAnalyzing && error.None?
      ensures detectedComponents == old(detectedComponents) && selectedComponent == old(selectedComponent)
      ensures analysis == old(analysis)
      ensures Valid()
    {
      isAnalyzing := true;
      error := None;
    }

    /** `analyzeComponents.fulfilled`: idle, with the payload's components and
        analysis; the selection and the error stay. */
    method AnalyzeFulfilled(payload: AnalysisPayload)
      requires Valid()
      modifies this
      ensures !isAnalyzing
      ensures detectedComponents == payload.components && analysis == Some(payload.analysis)
      ensures selectedComponent == old(selectedComponent) && error == old(error)
      ensures Valid()
    {
      isAnalyzing := false;
      detectedComponents := payload.components;
      analysis := Some(payload.analysis);
    }

    /** `analyzeComponents.rejected`: idle, with the error's message; the components,
        the selection and the analysis stay. */
    method AnalyzeRejected(message: string)
      requires Valid()
      modifies this
      ensures !isAnalyzing && error == Some(message)
      ensures detectedComponents == old(detectedComponents) && selectedComponent == old(selectedComponent)
      ensures analysis == old(analysis)
      ensures Valid()
    {
      isAnalyzing := false;
      error := Some(message);
    }
  }
}
