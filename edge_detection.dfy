/** The edge-based component detector: a Sobel edge map over the RGBA buffer, a
    4-connected flood fill that turns edge pixels into bounding boxes, and the
    per-region measurements and rule-based classifier applied to each box. */
module EdgeDetection {
  import opened Wrappers
  import opened Text
  import opened Colors
  import opened Raster
  import opened Sorting
  import opened Tally
  import opened JsMath

  // ---------------------------------------------------------------------------
  // Sobel edge map

  const SobelX: seq<int> := [-1, 0, 1, -2, 0, 2, -1, 0, 1]
  const SobelY: seq<int> := [-1, -2, -1, 0, 0, 0, 1, 2, 1]

  /** Three times the grey level `(r + g + b) / 3` of pixel `(x, y)`: the sum of its
      colour channels. Working with three times the grey level keeps the
      gradients integral. */
  function Gray3(data: seq<byte>, w: nat, h: nat, x: nat, y: nat): int
    requires IsImage(data, w, h) && x < w && y < h
  {
    ChannelInRange(data, w, h, x, y);
    var i := 4 * Idx(w, x, y);
    (data[i] as int) + (data[i + 1] as int) + (data[i + 2] as int)
  }

  /** The first `n` taps of a 3x3 kernel around interior pixel `(x, y)`; tap `i`
      weighs the neighbour at offset `(i % 3 - 1, i / 3 - 1)`. */
  function KernelSum(data: seq<byte>, w: nat, h: nat, x: nat, y: nat, kernel: seq<int>, n: nat): int
    requires IsImage(data, w, h) && 1 <= x < w - 1 && 1 <= y < h - 1
    requires |kernel| == 9 && n <= 9
  {
    if n == 0 then 0
    else KernelSum(data, w, h, x, y, kernel, n - 1) +
         Gray3(data, w, h, x + (n - 1) % 3 - 1, y + (n - 1) / 3 - 1) * kernel[n - 1]
  }

  /** Interior pixel `(x, y)` is an edge: with `gx`, `gy` three times the Sobel
      gradients, `sqrt((gx/3)^2 + (gy/3)^2) > 50`, stated without the root. */
  predicate IsEdge(data: seq<byte>, w: nat, h: nat, x: nat, y: nat)
    requires IsImage(data, w, h) && 1 <= x < w - 1 && 1 <= y < h - 1
  {
    var gx := KernelSum(data, w, h, x, y, SobelX, 9);
    var gy := KernelSum(data, w, h, x, y, SobelY, 9);
    gx * gx + gy * gy > 22500
  }

  /** The edge-map entry at position `p`: 255 on interior edge pixels, 0 elsewhere,
      including the one-pixel frame that the scan never visits. */
  function EdgeAt(data: seq<byte>, w: nat, h: nat, p: nat): (v: byte)
    requires IsImage(data, w, h) && p < w * h
    ensures v == 0 || v == 255
    ensures Col(w, p) == 0 || Col(w, p) == w - 1 || Row(w, p) == 0 || Row(w, p) == h - 1 ==> v == 0
  {
    var x, y := Col(w, p), Row(w, p);
    if 1 <= x < w - 1 && 1 <= y < h - 1 && IsEdge(data, w, h, x, y) then 255 else 0
  }

  /** The squared threshold agrees with the source's test on the magnitude: for the
      real gradients `px = gx/3`, `py = gy/3` and their magnitude `m`,
      `m > 50` exactly when `gx^2 + gy^2 > 22500`. */
  lemma EdgeThreshold(gx: int, gy: int, m: real)
    requires m >= 0.0
    requires m * m == (gx as real / 3.0) * (gx as real / 3.0) + (gy as real / 3.0) * (gy as real / 3.0)
    ensures m > 50.0 <==> gx * gx + gy * gy > 22500
  {
    var s := (gx * gx + gy * gy) as real;
    assert m * m == s / 9.0;
    if m > 50.0 {
      MulStrict(50.0, m);
    } else {
      MulWeak(m, 50.0);
    }
  }

  lemma MulStrict(a: real, b: real)
    requires 0.0 <= a < b
    ensures a * a < b * b
  {
    var d := b - a;
    assert b * b == a * a + 2.0 * a * d + d * d;
    assert d * d > 0.0;
    assert a * d >= 0.0;
  }

  lemma MulWeak(a: real, b: real)
    requires 0.0 <= a <= b
    ensures a * a <= b * b
  {
    assert a * a <= a * b;
    assert a * b <= b * b;
  }

  /** The inner nine-tap loop: both gradient sums at interior pixel `(x, y)`. */
  method KernelSums(data: seq<byte>, w: nat, h: nat, x: nat, y: nat) returns (gx: int, gy: int)
    requires IsImage(data, w, h) && 1 <= x < w - 1 && 1 <= y < h - 1
    ensures gx == KernelSum(data, w, h, x, y, SobelX, 9)
    ensures gy == KernelSum(data, w, h, x, y, SobelY, 9)
  {
    gx, gy := 0, 0;
    for i := 0 to 9
      invariant gx == KernelSum(data, w, h, x, y, SobelX, i)
      invariant gy == KernelSum(data, w, h, x, y, SobelY, i)
    {
      var offsetX := i % 3 - 1;
      var offsetY := i / 3 - 1;
      var gray := Gray3(data, w, h, x + offsetX, y + offsetY);
      gx := gx + gray * SobelX[i];
      gy := gy + gray * SobelY[i];
    }
  }

  /** One pass of the row loop: the interior pixels of row `y` get their edge
      values, and the rest of the map is left alone. */
  method EdgeRow(data: seq<byte>, w: nat, h: nat, y: nat, edges: array<byte>)
    requires IsImage(data, w, h) && 1 <= y < h - 1 && edges.Length == w * h
    modifies edges
    ensures forall p :: 0 <= p < w * h ==>
      edges[p] == if y * w + 1 <= p < y * w + w - 1 then EdgeAt(data, w, h, p) else old(edges[p])
  {
    var x := 1;
    while x < w - 1
      invariant 1 <= x && (x == 1 || x <= w - 1)
      invariant forall p :: 0 <= p < w * h ==>
        edges[p] == if y * w + 1 <= p < y * w + x then EdgeAt(data, w, h, p) else old(edges[p])
    {
      var gx, gy := KernelSums(data, w, h, x, y);
      IdxInRange(w, h, x, y);
      EdgeAtInterior(data, w, h, x, y);
      edges[y * w + x] := if gx * gx + gy * gy > 22500 then 255 else 0;
      x := x + 1;
    }
  }

  /** `detectEdges`: a fresh `width * height` map whose every entry is the edge
      value of its pixel, so every entry is 0 or 255 and the frame stays 0. */
  method DetectEdges(data: seq<byte>, w: nat, h: nat) returns (edges: array<byte>)
    requires IsImage(data, w, h)
    ensures fresh(edges) && edges.Length == w * h
    ensures forall p :: 0 <= p < w * h ==> edges[p] == EdgeAt(data, w, h, p)
  {
    edges := new byte[w * h](_ => 0);
    var y := 1;
    while y < h - 1
      invariant 1 <= y && (y == 1 || y <= h - 1)
      invariant forall p :: 0 <= p < w * h ==>
        edges[p] == if p < Idx(w, 0, y) then EdgeAt(data, w, h, p) else 0
    {
      EdgeRow(data, w, h, y, edges);
      FrameColumns(data, w, h, y);
      assert Idx(w, 0, y + 1) == y * w + w;
      y := y + 1;
    }
    forall p | Idx(w, 0, y) <= p < w * h ensures EdgeAt(data, w, h, p) == 0 {
      RowAtLeast(w, h, p, y);
    }
  }

  lemma RowAtLeast(w: nat, h: nat, p: nat, y: nat)
    requires y * w <= p < w * h
    ensures w > 0 && Row(w, p) >= y
  {
    IdxOfColRow(w, h, p);
    var r, c := Row(w, p), Col(w, p);
    assert r * w + c == p;
    if r < y {
      MulMono(r + 1, y, w);
    }
  }

  /** The first and last pixels of row `y` lie on the frame. */
  lemma FrameColumns(data: seq<byte>, w: nat, h: nat, y: nat)
    requires IsImage(data, w, h) && y < h
    ensures forall p :: y * w <= p < y * w + w && p < w * h && !(y * w + 1 <= p < y * w + w - 1) ==>
      EdgeAt(data, w, h, p) == 0
  {
    forall p | y * w <= p < y * w + w && p < w * h && !(y * w + 1 <= p < y * w + w - 1)
      ensures EdgeAt(data, w, h, p) == 0
    {
      FramePixel(data, w, h, p - y * w, y);
    }
  }

  lemma FramePixel(data: seq<byte>, w: nat, h: nat, x: nat, y: nat)
    requires IsImage(data, w, h) && y < h && x < w && (x == 0 || x == w - 1)
    ensures Idx(w, x, y) < w * h && EdgeAt(data, w, h, Idx(w, x, y)) == 0
  {
    IdxInRange(w, h, x, y);
    ColRowOfIdx(w, x, y);
  }

  lemma EdgeAtInterior(data: seq<byte>, w: nat, h: nat, x: nat, y: nat)
    requires IsImage(data, w, h) && 1 <= x < w - 1 && 1 <= y < h - 1
    ensures Idx(w, x, y) < w * h
    ensures EdgeAt(data, w, h, Idx(w, x, y)) == if IsEdge(data, w, h, x, y) then 255 else 0
  {
    IdxInRange(w, h, x, y);
    ColRowOfIdx(w, x, y);
  }

  // ---------------------------------------------------------------------------
  // Flood fill and bounding boxes

  /** A stack entry `{ x, y }`; neighbours of border pixels fall outside the image. */
  datatype Point = Point(x: int, y: int)

  /** A flood-fill result: its bounding box and the number of pixels it marked. */
  datatype Blob = Blob(box: Region, pixelCount: nat)

  function BlobArea(b: Blob): int
  {
    Area(b.box)
  }

  /** `floodFill`: pops pixels off an explicit stack, marks each unvisited in-bounds
      edge pixel (value 255), grows the bounding box around it and pushes its four
      neighbours. `marked` is the set of positions it marked. */
  method FloodFill(edges: array<byte>, visited: array<bool>, sx: nat, sy: nat, w: nat, h: nat)
    returns (box: Region, pixelCount: nat, ghost marked: set<nat>, ghost rowAtMinX: nat, ghost rowAtMaxX: nat, ghost colAtMinY: nat, ghost colAtMaxY: nat)
    requires edges.Length == w * h && visited.Length == w * h && sx < w && sy < h
    modifies visited
    ensures Tracks(visited[..], old(visited[..]), edges[..], marked)
    ensures forall p :: p in marked ==> w > 0 && Contains(box, Col(w, p), Row(w, p))
    ensures pixelCount == |marked|
    ensures InsideImage(box, w, h) && Contains(box, sx, sy)
    ensures Idx(w, sx, sy) < w * h
    ensures !old(visited[Idx(w, sx, sy)]) && edges[Idx(w, sx, sy)] == 255 ==> Idx(w, sx, sy) in marked
    ensures Attained(w, marked + {Idx(w, sx, sy)}, box.x, Right(box), box.y, Bottom(box), rowAtMinX, rowAtMaxX, colAtMinY, colAtMaxY)
  {
    PixelsInRange(w, h);
    ghost var start := Idx(w, sx, sy);
    ColRowOfIdx(w, sx, sy);
    ghost var v0 := visited[..];
    var stack := [Point(sx, sy)];
    var minX, maxX, minY, maxY := sx, sx, sy, sy;
    rowAtMinX, rowAtMaxX, colAtMinY, colAtMaxY := sy, sy, sx, sx;
    pixelCount := 0;
    marked := {};
    ghost var first := true;
    while |stack| > 0
      invariant Tracks(visited[..], v0, edges[..], marked)
      invariant Extent(w, h, marked, sx, sy, minX, maxX, minY, maxY, rowAtMinX, rowAtMaxX, colAtMinY, colAtMaxY)
      invariant pixelCount == |marked| <= visited.Length
      invariant first ==> stack == [Point(sx, sy)] && marked == {}
      invariant !first ==> (!v0[start] && edges[start] == 255 ==> start in marked)
      decreases visited.Length - |marked|, |stack|
    {
      var pt := stack[|stack| - 1];
      stack := stack[..|stack| - 1];
      first := false;
      if pt.x < 0 || pt.x >= w || pt.y < 0 || pt.y >= h ||
         visited[Idx(w, pt.x, pt.y)] || edges[Idx(w, pt.x, pt.y)] != 255 {
        continue;
      }
      marked, minX, maxX, minY, maxY, rowAtMinX, rowAtMaxX, colAtMinY, colAtMaxY :=
        Absorb(edges, visited, pt.x, pt.y, w, h, sx, sy, v0, marked,
               minX, maxX, minY, maxY, rowAtMinX, rowAtMaxX, colAtMinY, colAtMaxY);
      pixelCount := pixelCount + 1;
      stack := stack + [Point(pt.x + 1, pt.y), Point(pt.x - 1, pt.y), Point(pt.x, pt.y + 1), Point(pt.x, pt.y - 1)];
    }
    box := Region(minX, minY, maxX - minX + 1, maxY - minY + 1);
    BoxedContains(w, marked, minX, maxX, minY, maxY);
    AttainedBox(w, marked + {start}, minX, maxX, minY, maxY, rowAtMinX, rowAtMaxX, colAtMinY, colAtMaxY);
  }

  /** Marks the unvisited edge pixel `(x, y)` and grows the box `[x0, x1] x [y0, y1]`
      around it, moving the witness of each side it pushes out. */
  method Absorb(edges: array<byte>, visited: array<bool>, x: nat, y: nat, w: nat, h: nat, sx: nat, sy: nat,
                ghost v0: seq<bool>, ghost marked: set<nat>,
                x0: nat, x1: nat, y0: nat, y1: nat, ghost r0: nat, ghost r1: nat, ghost c0: nat, ghost c1: nat)
    returns (ghost marked': set<nat>, x0': nat, x1': nat, y0': nat, y1': nat,
             ghost r0': nat, ghost r1': nat, ghost c0': nat, ghost c1': nat)
    requires edges.Length == w * h && visited.Length == w * h && x < w && y < h
    requires Tracks(visited[..], v0, edges[..], marked)
    requires Extent(w, h, marked, sx, sy, x0, x1, y0, y1, r0, r1, c0, c1)
    requires Idx(w, x, y) < w * h && !visited[Idx(w, x, y)] && edges[Idx(w, x, y)] == 255
    modifies visited
    ensures marked' == marked + {Idx(w, x, y)} && Idx(w, x, y) !in marked
    ensures Tracks(visited[..], v0, edges[..], marked') && |marked'| <= visited.Length
    ensures Extent(w, h, marked', sx, sy, x0', x1', y0', y1', r0', r1', c0', c1')
  {
    marked' := MarkVisited(edges, visited, Idx(w, x, y), v0, marked);
    x0' := if x < x0 then x else x0;
    x1' := if x > x1 then x else x1;
    y0' := if y < y0 then y else y0;
    y1' := if y > y1 then y else y1;
    r0' := if x < x0 then y else r0;
    r1' := if x > x1 then y else r1;
    c0' := if y < y0 then x else c0;
    c1' := if y > y1 then x else c1;
    ExtentGrow(w, h, marked, sx, sy, x, y, x0, x1, y0, y1, r0, r1, c0, c1);
  }

  /** The flood fill's box `[x0, x1] x [y0, y1]`: inside the image, around the
      start `(sx, sy)` and every marked pixel, each side reached by one of them. */
  ghost predicate Extent(w: nat, h: nat, marked: set<nat>, sx: nat, sy: nat,
                         x0: int, x1: int, y0: int, y1: int, r0: nat, r1: nat, c0: nat, c1: nat)
  {
    0 <= x0 <= sx <= x1 < w && 0 <= y0 <= sy <= y1 < h &&
    Boxed(w, marked, x0, x1, y0, y1) &&
    Attained(w, marked + {Idx(w, sx, sy)}, x0, x1, y0, y1, r0, r1, c0, c1)
  }

  lemma ExtentGrow(w: nat, h: nat, marked: set<nat>, sx: nat, sy: nat, x: nat, y: nat,
                   x0: int, x1: int, y0: int, y1: int, r0: nat, r1: nat, c0: nat, c1: nat)
    requires x < w && y < h && Extent(w, h, marked, sx, sy, x0, x1, y0, y1, r0, r1, c0, c1)
    ensures Extent(w, h, marked + {Idx(w, x, y)}, sx, sy,
      if x < x0 then x else x0, if x > x1 then x else x1, if y < y0 then y else y0, if y > y1 then y else y1,
      if x < x0 then y else r0, if x > x1 then y else r1, if y < y0 then x else c0, if y > y1 then x else c1)
  {
    BoundsGrow(w, marked, Idx(w, sx, sy), x, y, x0, x1, y0, y1, r0, r1, c0, c1);
  }

  /** Each side of the box `[x0, x1] x [y0, y1]` is reached by a pixel of `s`: the
      ones in rows `r0`, `r1` at its first and last column, and the ones in columns
      `c0`, `c1` at its first and last row. */
  ghost predicate Attained(w: nat, s: set<nat>, x0: int, x1: int, y0: int, y1: int, r0: nat, r1: nat, c0: nat, c1: nat)
  {
    0 <= x0 && 0 <= x1 && 0 <= y0 && 0 <= y1 &&
    Idx(w, x0, r0) in s && Idx(w, x1, r1) in s && Idx(w, c0, y0) in s && Idx(w, c1, y1) in s
  }

  /** The last column and the last row of a box. */
  function Right(box: Region): int
  {
    box.x + box.width - 1
  }

  function Bottom(box: Region): int
  {
    box.y + box.height - 1
  }

  /** `box` is the bounding box of the positions `s` in a `w`-wide image: it holds
      each of them, and each of its four sides is reached by one of them. */
  ghost predicate TightBox(w: nat, s: set<nat>, box: Region)
  {
    w > 0 && 0 <= box.x && 0 <= box.y && 1 <= box.width && 1 <= box.height &&
    (forall p :: p in s ==> Contains(box, Col(w, p), Row(w, p))) &&
    (exists y: nat :: Idx(w, box.x, y) in s) &&
    (exists y: nat :: Idx(w, Right(box), y) in s) &&
    (exists x: nat :: Idx(w, x, box.y) in s) &&
    (exists x: nat :: Idx(w, x, Bottom(box)) in s)
  }

  lemma AttainedBox(w: nat, s: set<nat>, x0: int, x1: int, y0: int, y1: int, r0: nat, r1: nat, c0: nat, c1: nat)
    requires Attained(w, s, x0, x1, y0, y1, r0, r1, c0, c1)
    ensures var box := Region(x0, y0, x1 - x0 + 1, y1 - y0 + 1);
      Attained(w, s, box.x, Right(box), box.y, Bottom(box), r0, r1, c0, c1)
  {
  }

  lemma BoxedContains(w: nat, marked: set<nat>, x0: int, x1: int, y0: int, y1: int)
    requires Boxed(w, marked, x0, x1, y0, y1)
    ensures forall p :: p in marked ==> w > 0 && Contains(Region(x0, y0, x1 - x0 + 1, y1 - y0 + 1), Col(w, p), Row(w, p))
  {
  }

  /** `visited[index] = true` for an unvisited edge pixel: it joins the marked set. */
  method MarkVisited(edges: array<byte>, visited: array<bool>, index: nat, ghost v0: seq<bool>, ghost marked: set<nat>)
    returns (ghost marked': set<nat>)
    requires Tracks(visited[..], v0, edges[..], marked) && index < visited.Length
    requires !visited[index] && edges[index] == 255
    modifies visited
    ensures marked' == marked + {index} && index !in marked
    ensures Tracks(visited[..], v0, edges[..], marked') && |marked'| <= visited.Length
  {
    ghost var before := visited[..];
    visited[index] := true;
    assert visited[..] == before[index := true];
    TracksMark(before, v0, edges[..], marked, index);
    marked' := marked + {index};
    PositionsBound(marked', visited.Length);
  }

  /** The flood fill's bookkeeping: `v` is the original flags `v0` with exactly the
      positions in `marked` set, and each of those was unvisited and an edge. */
  ghost predicate Tracks(v: seq<bool>, v0: seq<bool>, e: seq<byte>, marked: set<nat>)
  {
    |v| == |v0| == |e| &&
    (forall p :: 0 <= p < |v| ==> (v[p] <==> v0[p] || p in marked)) &&
    (forall p :: p in marked ==> p < |v| && !v0[p] && e[p] == 255)
  }

  lemma TracksMark(v: seq<bool>, v0: seq<bool>, e: seq<byte>, marked: set<nat>, index: nat)
    requires Tracks(v, v0, e, marked) && index < |v| && !v[index] && e[index] == 255
    ensures index !in marked
    ensures Tracks(v[index := true], v0, e, marked + {index})
  {
  }

  /** Every position in `marked` lies in the box `[x0, x1] x [y0, y1]`. */
  predicate Boxed(w: nat, marked: set<nat>, x0: int, x1: int, y0: int, y1: int)
  {
    w > 0 && forall p :: p in marked ==> x0 <= Col(w, p) <= x1 && y0 <= Row(w, p) <= y1
  }

  /** Growing the box around a newly marked pixel `(x, y)` keeps it around every
      marked pixel, and each side stays reached by a marked pixel or the start. */
  lemma BoundsGrow(w: nat, marked: set<nat>, start: nat, x: nat, y: nat,
                   x0: int, x1: int, y0: int, y1: int, r0: nat, r1: nat, c0: nat, c1: nat)
    requires x < w && Boxed(w, marked, x0, x1, y0, y1)
    requires Attained(w, marked + {start}, x0, x1, y0, y1, r0, r1, c0, c1)
    ensures Boxed(w, marked + {Idx(w, x, y)},
      if x < x0 then x else x0, if x > x1 then x else x1, if y < y0 then y else y0, if y > y1 then y else y1)
    ensures Attained(w, marked + {Idx(w, x, y)} + {start},
      if x < x0 then x else x0, if x > x1 then x else x1, if y < y0 then y else y0, if y > y1 then y else y1,
      if x < x0 then y else r0, if x > x1 then y else r1, if y < y0 then x else c0, if y > y1 then x else c1)
  {
    ColRowOfIdx(w, x, y);
  }

  /** A box the edge detector keeps: larger than 20 pixels both ways, inside the
      image, and holding at least one edge pixel. */
  predicate KeptBlob(b: Blob, w: nat, h: nat)
  {
    b.box.width > 20 && b.box.height > 20 && InsideImage(b.box, w, h) && b.pixelCount >= 1
  }

  /** One flood fill of the scan: the blob it returned, the positions it marked and
      the position it started from. */
  datatype Fill = Fill(blob: Blob, pixels: set<nat>, seed: nat)

  /** A fill over the edge map `e`: it marked its seed and only edge pixels at or
      after the seed, counted them, and boxed them inside the image. */
  ghost predicate IsFill(w: nat, h: nat, e: seq<byte>, f: Fill)
  {
    f.seed in f.pixels && f.blob.pixelCount == |f.pixels| && InsideImage(f.blob.box, w, h) &&
    (forall p :: p in f.pixels ==> f.seed <= p < |e| && e[p] == 255)
  }

  /** The box of a fill is the tight bounding box of its pixels. */
  ghost predicate Tight(w: nat, f: Fill)
  {
    TightBox(w, f.pixels, f.blob.box)
  }

  ghost predicate AllTight(w: nat, fills: seq<Fill>)
  {
    forall i {:trigger Tight(w, fills[i])} :: 0 <= i < |fills| ==> Tight(w, fills[i])
  }

  lemma AllTightAppend(w: nat, fills: seq<Fill>, f: Fill)
    requires AllTight(w, fills) && Tight(w, f)
    ensures AllTight(w, fills + [f])
  {
    var fs := fills + [f];
    forall i | 0 <= i < |fs| ensures Tight(w, fs[i]) {
      if i < |fills| {
        assert fs[i] == fills[i];
      }
    }
  }

  /** Every position some fill marked. */
  function Union(fills: seq<Fill>): set<nat>
  {
    if fills == [] then {} else Union(fills[..|fills| - 1]) + fills[|fills| - 1].pixels
  }

  lemma {:induction false} InUnion(fills: seq<Fill>)
    ensures forall p :: p in Union(fills) <==> exists i :: 0 <= i < |fills| && p in fills[i].pixels
  {
    if fills != [] {
      var init := fills[..|fills| - 1];
      InUnion(init);
      forall p ensures p in Union(fills) <==> exists i :: 0 <= i < |fills| && p in fills[i].pixels {
        if p in Union(init) {
          var i :| 0 <= i < |init| && p in init[i].pixels;
          assert fills[i] == init[i];
        } else if exists i :: 0 <= i < |fills| && p in fills[i].pixels {
          var i :| 0 <= i < |fills| && p in fills[i].pixels;
          if i < |init| {
            assert init[i] == fills[i];
          }
        }
      }
    }
  }

  /** The blobs the scan keeps, in scan order: those larger than 20 pixels both ways. */
  function Kept(fills: seq<Fill>): seq<Blob>
  {
    if fills == [] then []
    else
      var b := fills[|fills| - 1].blob;
      Kept(fills[..|fills| - 1]) + (if b.box.width > 20 && b.box.height > 20 then [b] else [])
  }

  lemma KeptAppend(fills: seq<Fill>, f: Fill)
    ensures Kept(fills + [f]) ==
      Kept(fills) + (if f.blob.box.width > 20 && f.blob.box.height > 20 then [f.blob] else [])
  {
    assert (fills + [f])[..|fills|] == fills;
  }

  lemma {:induction false} KeptAreKeptBlobs(w: nat, h: nat, e: seq<byte>, fills: seq<Fill>)
    requires forall i :: 0 <= i < |fills| ==> IsFill(w, h, e, fills[i])
    ensures forall b :: b in Kept(fills) ==> KeptBlob(b, w, h)
  {
    if fills != [] {
      KeptAreKeptBlobs(w, h, e, fills[..|fills| - 1]);
      var f := fills[|fills| - 1];
      assert IsFill(w, h, e, f);
      assert |f.pixels| >= 1 by {
        assert f.seed in f.pixels;
      }
    }
  }

  /** The fills partition the edge pixels of `e`: each one a fill, in increasing
      seed order, pairwise disjoint, and together exactly the edge pixels. */
  ghost predicate Partition(w: nat, h: nat, e: seq<byte>, fills: seq<Fill>)
  {
    (forall i :: 0 <= i < |fills| ==> IsFill(w, h, e, fills[i])) &&
    (forall i, j :: 0 <= i < j < |fills| ==> fills[i].seed < fills[j].seed && fills[i].pixels !! fills[j].pixels) &&
    (forall p :: 0 <= p < |e| ==> (e[p] == 255 <==> p in Union(fills))) &&
    AllTight(w, fills)
  }

  /** The scan before position `upto`: the fills so far, each seeded before `upto`,
      the visited flags `v` exactly their pixels, and every edge pixel before `upto`
      visited. */
  ghost predicate Scanned(w: nat, h: nat, e: seq<byte>, v: seq<bool>, fills: seq<Fill>, upto: nat)
  {
    |v| == |e| && FillsBefore(w, h, e, fills, upto) && InSeedOrder(fills) &&
    VisitedAre(v, fills) && EdgesVisited(e, v, upto) && AllTight(w, fills)
  }

  ghost predicate FillsBefore(w: nat, h: nat, e: seq<byte>, fills: seq<Fill>, upto: nat)
  {
    forall i :: 0 <= i < |fills| ==> IsFill(w, h, e, fills[i]) && fills[i].seed < upto
  }

  /** Seeds increase along the scan and no two fills share a pixel. */
  predicate InSeedOrder(fills: seq<Fill>)
  {
    forall i, j :: 0 <= i < j < |fills| ==> fills[i].seed < fills[j].seed && fills[i].pixels !! fills[j].pixels
  }

  predicate VisitedAre(v: seq<bool>, fills: seq<Fill>)
  {
    forall p :: 0 <= p < |v| ==> (v[p] <==> p in Union(fills))
  }

  predicate EdgesVisited(e: seq<byte>, v: seq<bool>, upto: nat)
  {
    forall p :: 0 <= p < upto && p < |v| && p < |e| && e[p] == 255 ==> v[p]
  }

  lemma ScannedStart(w: nat, h: nat, e: seq<byte>, v: seq<bool>)
    requires |v| == |e| && forall p :: 0 <= p < |v| ==> !v[p]
    ensures Scanned(w, h, e, v, [], 0)
  {
  }

  lemma ScannedSkip(w: nat, h: nat, e: seq<byte>, v: seq<bool>, fills: seq<Fill>, upto: nat)
    requires Scanned(w, h, e, v, fills, upto) && upto < |v| && (v[upto] || e[upto] != 255)
    ensures Scanned(w, h, e, v, fills, upto + 1)
  {
  }

  /** The whole scan partitions the edge pixels. */
  lemma ScannedDone(w: nat, h: nat, e: seq<byte>, v: seq<bool>, fills: seq<Fill>)
    requires Scanned(w, h, e, v, fills, |e|)
    ensures Partition(w, h, e, fills)
  {
    InUnion(fills);
  }

  /** A fill from the unvisited edge pixel the scan has reached extends the scan
      past it. */
  lemma ScannedFill(w: nat, h: nat, e: seq<byte>, v0: seq<bool>, v1: seq<bool>, fills: seq<Fill>, x: nat, y: nat, f: Fill)
    requires FilledFrom(w, h, e, v0, v1, x, y, f) && Scanned(w, h, e, v0, fills, f.seed)
    ensures Scanned(w, h, e, v1, fills + [f], f.seed + 1)
  {
    var upto := f.seed;
    FillAfterSeed(e, v0, f, upto);
    assert IsFill(w, h, e, f);
    FillsBeforeAppend(w, h, e, fills, f, upto);
    AllTightAppend(w, fills, f);
    InSeedOrderAppend(v0, fills, f, upto);
    VisitedAppend(v0, v1, fills, f);
    EdgesVisitedStep(e, v0, v1, f.pixels, upto);
  }

  lemma EdgesVisitedStep(e: seq<byte>, v0: seq<bool>, v1: seq<bool>, marked: set<nat>, upto: nat)
    requires EdgesVisited(e, v0, upto) && Tracks(v1, v0, e, marked) && upto in marked
    ensures EdgesVisited(e, v1, upto + 1)
  {
  }

  /** Every pixel a fill from `upto` marks was unvisited, so none lies before it. */
  lemma FillAfterSeed(e: seq<byte>, v0: seq<bool>, f: Fill, upto: nat)
    requires EdgesVisited(e, v0, upto) && |v0| == |e|
    requires forall p :: p in f.pixels ==> p < |e| && !v0[p] && e[p] == 255
    ensures forall p :: p in f.pixels ==> upto <= p
  {
  }

  lemma FillsBeforeAppend(w: nat, h: nat, e: seq<byte>, fills: seq<Fill>, f: Fill, upto: nat)
    requires FillsBefore(w, h, e, fills, upto) && IsFill(w, h, e, f) && f.seed == upto
    ensures FillsBefore(w, h, e, fills + [f], upto + 1)
  {
    var fs := fills + [f];
    forall i | 0 <= i < |fs| ensures IsFill(w, h, e, fs[i]) && fs[i].seed < upto + 1 {
      if i < |fills| {
        assert fs[i] == fills[i];
      }
    }
  }

  lemma InSeedOrderAppend(v0: seq<bool>, fills: seq<Fill>, f: Fill, upto: nat)
    requires InSeedOrder(fills) && VisitedAre(v0, fills) && f.seed == upto
    requires forall i :: 0 <= i < |fills| ==> fills[i].seed < upto
    requires forall p :: p in f.pixels ==> p < |v0| && !v0[p]
    ensures InSeedOrder(fills + [f])
  {
    InUnion(fills);
    var fs := fills + [f];
    forall i | 0 <= i < |fills| ensures fills[i].pixels !! f.pixels {
      forall p | p in fills[i].pixels ensures p !in f.pixels {
        assert p in Union(fills);
      }
    }
    forall i, j | 0 <= i < j < |fs| ensures fs[i].seed < fs[j].seed && fs[i].pixels !! fs[j].pixels {
      assert fs[i] == fills[i];
      if j < |fills| {
        assert fs[j] == fills[j];
      }
    }
  }

  lemma VisitedAppend(v0: seq<bool>, v1: seq<bool>, fills: seq<Fill>, f: Fill)
    requires VisitedAre(v0, fills)
    requires |v1| == |v0| && forall p :: 0 <= p < |v1| ==> (v1[p] <==> v0[p] || p in f.pixels)
    ensures VisitedAre(v1, fills + [f])
  {
    assert (fills + [f])[..|fills|] == fills;
  }

  /** One step of the scan at `(x, y)`: flood-fill from it when it is an unvisited
      edge pixel, and keep the blob when it is larger than 20 pixels both ways. */
  method VisitPixel(edges: array<byte>, visited: array<bool>, x: nat, y: nat, w: nat, h: nat,
                    found: seq<Blob>, ghost fills: seq<Fill>)
    returns (found': seq<Blob>, ghost fills': seq<Fill>)
    requires edges.Length == w * h && visited.Length == w * h && x < w && y < h
    requires Scanned(w, h, edges[..], visited[..], fills, y * w + x) && found == Kept(fills)
    modifies visited
    ensures Scanned(w, h, edges[..], visited[..], fills', y * w + x + 1) && found' == Kept(fills')
  {
    IdxInRange(w, h, x, y);
    var index := y * w + x;
    if !visited[index] && edges[index] == 255 {
      found', fills' := FillAndKeep(edges, visited, x, y, w, h, found, fills);
    } else {
      ScannedSkip(w, h, edges[..], visited[..], fills, index);
      found', fills' := found, fills;
    }
  }

  /** The flood fill from the unvisited edge pixel `(x, y)`, its blob kept when it
      is larger than 20 pixels both ways. */
  method FillAndKeep(edges: array<byte>, visited: array<bool>, x: nat, y: nat, w: nat, h: nat,
                     found: seq<Blob>, ghost fills: seq<Fill>)
    returns (found': seq<Blob>, ghost fills': seq<Fill>)
    requires edges.Length == w * h && visited.Length == w * h && x < w && y < h
    requires y * w + x < w * h && !visited[y * w + x] && edges[y * w + x] == 255
    requires Scanned(w, h, edges[..], visited[..], fills, y * w + x) && found == Kept(fills)
    modifies visited
    ensures Scanned(w, h, edges[..], visited[..], fills', y * w + x + 1) && found' == Kept(fills')
  {
    ghost var v0 := visited[..];
    ghost var e := edges[..];
    var blob, f := FillFrom(edges, visited, x, y, w, h);
    assert edges[..] == e;
    ScannedFill(w, h, e, v0, visited[..], fills, x, y, f);
    found' := if blob.box.width > 20 && blob.box.height > 20 then found + [blob] else found;
    fills' := fills + [f];
    KeptAppend(fills, f);
  }

  /** A fill from the position `(x, y)`: seeded there, marking exactly the pixels by
      which `v1` extends `v0`, all of them edge pixels unvisited in `v0`, counted and
      tightly boxed inside the image. */
  ghost predicate FilledFrom(w: nat, h: nat, e: seq<byte>, v0: seq<bool>, v1: seq<bool>, x: nat, y: nat, f: Fill)
  {
    x < w && f.seed == Idx(w, x, y) && f.seed < |v0| && Tracks(v1, v0, e, f.pixels) &&
    f.seed in f.pixels && f.blob.pixelCount == |f.pixels| && InsideImage(f.blob.box, w, h) && Tight(w, f)
  }

  /** `floodFill` from the unvisited edge pixel `(x, y)`, with the positions it
      marked. */
  method FillFrom(edges: array<byte>, visited: array<bool>, x: nat, y: nat, w: nat, h: nat)
    returns (blob: Blob, ghost f: Fill)
    requires edges.Length == w * h && visited.Length == w * h && x < w && y < h
    requires y * w + x < w * h && !visited[y * w + x] && edges[y * w + x] == 255
    modifies visited
    ensures f.blob == blob && FilledFrom(w, h, edges[..], old(visited[..]), visited[..], x, y, f)
  {
    var box, count, marked, r0, r1, c0, c1 := FloodFill(edges, visited, x, y, w, h);
    blob := Blob(box, count);
    f := Fill(blob, marked, y * w + x);
    TightFromFill(w, h, marked, box, x, y, r0, r1, c0, c1);
  }

  /** A flood-fill box around its marked pixels, each side reached by one of them
      or the start, is their tight bounding box once the start is marked. */
  lemma TightFromFill(w: nat, h: nat, s: set<nat>, box: Region, sx: nat, sy: nat, r0: nat, r1: nat, c0: nat, c1: nat)
    requires forall p :: p in s ==> w > 0 && Contains(box, Col(w, p), Row(w, p))
    requires InsideImage(box, w, h) && Idx(w, sx, sy) in s
    requires Attained(w, s + {Idx(w, sx, sy)}, box.x, Right(box), box.y, Bottom(box), r0, r1, c0, c1)
    ensures TightBox(w, s, box)
  {
    assert s + {Idx(w, sx, sy)} == s;
  }

  /** `findRectangularRegions`: scans the edge map row by row, flood-fills from every
      unvisited edge pixel, keeps the boxes larger than 20 pixels both ways and
      sorts them by non-increasing area. `fills` are the scan's flood fills in
      order: they partition the edge pixels, and the result is the kept blobs
      among them, sorted. */
  method FindRectangularRegions(edges: array<byte>, w: nat, h: nat) returns (rects: seq<Blob>, ghost fills: seq<Fill>)
    requires edges.Length == w * h
    ensures Partition(w, h, edges[..], fills)
    ensures rects == SortDesc(Kept(fills), BlobArea)
    ensures forall i :: 0 <= i < |rects| ==> KeptBlob(rects[i], w, h)
    ensures SortedDesc(rects, BlobArea)
  {
    var visited := new bool[w * h](_ => false);
    var found: seq<Blob> := [];
    fills := [];
    ScannedStart(w, h, edges[..], visited[..]);
    for y := 0 to h
      invariant Scanned(w, h, edges[..], visited[..], fills, y * w) && found == Kept(fills)
    {
      for x := 0 to w
        invariant Scanned(w, h, edges[..], visited[..], fills, y * w + x) && found == Kept(fills)
      {
        found, fills := VisitPixel(edges, visited, x, y, w, h, found, fills);
      }
      assert y * w + w == (y + 1) * w;
    }
    assert h * w == w * h;
    ScannedDone(w, h, edges[..], visited[..], fills);
    rects := SortDesc(found, BlobArea);
    SortDescProps(found, BlobArea);
    KeptAreKeptBlobs(w, h, edges[..], fills);
    forall i | 0 <= i < |rects| ensures KeptBlob(rects[i], w, h) {
      assert rects[i] in multiset(found);
    }
  }
}
