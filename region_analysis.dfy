/** The per-region analysis of the edge-based detector: measurements taken on a
    region's own RGBA buffer (corner radius, padding, border), its colour
    histogram, the brightness helpers, the estimated interaction states and the
    rule-based classifier. */
module RegionAnalysis {
  import opened Wrappers
  import opened Text
  import opened Colors
  import opened Raster
  import opened Sorting
  import opened Tally
  import opened JsMath

  // ---------------------------------------------------------------------------
  // Measurements on a region's own pixel buffer

  predicate Opaque(data: seq<byte>, w: nat, h: nat, x: nat, y: nat)
    requires IsImage(data, w, h) && x < w && y < h
  {
    Alpha(data, w, h, x, y) > 128
  }

  /** Coordinate of the `r`-th diagonal step from a corner: inward from 0, or
      inward from the far side otherwise. */
  function CornerStep(start: int, r: nat, size: nat): int
  {
    if start == 0 then r else size - 1 - r
  }

  /** `r <= Math.min(20, width / 4, height / 4)`. */
  predicate WithinCap(w: nat, h: nat, r: nat)
  {
    r <= 20 && 4 * r <= w && 4 * r <= h
  }

  /** The `r`-th diagonal pixel from the corner lies in the region and is opaque. */
  predicate CornerHit(data: seq<byte>, w: nat, h: nat, sx: int, sy: int, r: nat)
    requires IsImage(data, w, h)
  {
    var x, y := CornerStep(sx, r, w), CornerStep(sy, r, h);
    0 <= x < w && 0 <= y < h && Opaque(data, w, h, x, y)
  }

  /** The first step `r' >= r` within the cap whose diagonal pixel is opaque, or 0. */
  function CornerRadiusFrom(data: seq<byte>, w: nat, h: nat, sx: int, sy: int, r: nat): nat
    requires IsImage(data, w, h) && r >= 1
    decreases 21 - r
  {
    if !WithinCap(w, h, r) then 0
    else if CornerHit(data, w, h, sx, sy, r) then r
    else CornerRadiusFrom(data, w, h, sx, sy, r + 1)
  }

  /** The corner reading is 0 or the first step within the cap whose diagonal pixel
      is opaque; a reading of 0 means no step within the cap hits one. */
  lemma {:induction false} CornerRadiusFirstHit(data: seq<byte>, w: nat, h: nat, sx: int, sy: int, r: nat)
    requires IsImage(data, w, h) && r >= 1
    ensures var radius := CornerRadiusFrom(data, w, h, sx, sy, r);
      radius == 0 || (r <= radius && WithinCap(w, h, radius) && CornerHit(data, w, h, sx, sy, radius))
    ensures var radius := CornerRadiusFrom(data, w, h, sx, sy, r);
      forall k :: r <= k && WithinCap(w, h, k) && (radius == 0 || k < radius) ==> !CornerHit(data, w, h, sx, sy, k)
    decreases 21 - r
  {
    if WithinCap(w, h, r) && !CornerHit(data, w, h, sx, sy, r) {
      CornerRadiusFirstHit(data, w, h, sx, sy, r + 1);
    }
  }

  lemma CornerRadiusStep(data: seq<byte>, w: nat, h: nat, sx: int, sy: int, r: nat, x: int, y: int, hit: bool)
    requires IsImage(data, w, h) && r >= 1 && WithinCap(w, h, r)
    requires x == CornerStep(sx, r, w) && y == CornerStep(sy, r, h)
    requires hit <==> 0 <= x < w && 0 <= y < h && Opaque(data, w, h, x, y)
    ensures hit == CornerHit(data, w, h, sx, sy, r)
    ensures CornerRadiusFrom(data, w, h, sx, sy, r) ==
      if CornerHit(data, w, h, sx, sy, r) then r else CornerRadiusFrom(data, w, h, sx, sy, r + 1)
  {
  }

  /** `measureCornerRadius`: the first diagonal step from the corner, within the
      cap, that reaches an opaque pixel; 0 when there is none. */
  method MeasureCornerRadius(data: seq<byte>, sx: int, sy: int, w: nat, h: nat) returns (radius: nat)
    requires IsImage(data, w, h)
    ensures radius == CornerRadiusFrom(data, w, h, sx, sy, 1)
  {
    var r := 1;
    while WithinCap(w, h, r)
      invariant 1 <= r <= 21
      invariant CornerRadiusFrom(data, w, h, sx, sy, r) == CornerRadiusFrom(data, w, h, sx, sy, 1)
      decreases 21 - r
    {
      var x := if sx == 0 then r else w - 1 - r;
      var y := if sy == 0 then r else h - 1 - r;
      var hit := false;
      if 0 <= x < w && 0 <= y < h {
        hit := Alpha(data, w, h, x, y) > 128;
      }
      CornerRadiusStep(data, w, h, sx, sy, r, x, y, hit);
      if hit {
        return r;
      }
      r := r + 1;
    }
    return 0;
  }

  /** The four corners in the order top-left, top-right, bottom-left, bottom-right. */
  function Corners(w: nat, h: nat): seq<(int, int)>
  {
    [(0, 0), (w - 1, 0), (0, h - 1), (w - 1, h - 1)]
  }

  /** Sum and number of the nonzero readings. */
  function NonzeroTotal(readings: seq<nat>): nat
  {
    if readings == [] then 0 else NonzeroTotal(readings[..|readings| - 1]) + readings[|readings| - 1]
  }

  function NonzeroCount(readings: seq<nat>): nat
  {
    if readings == [] then 0
    else NonzeroCount(readings[..|readings| - 1]) + (if readings[|readings| - 1] > 0 then 1 else 0)
  }

  /** The rounded mean of the nonzero readings, or 0 when every reading is 0. */
  function MeanRadius(readings: seq<nat>): int
  {
    var n := NonzeroCount(readings);
    if n > 0 then Round(NonzeroTotal(readings) as real / n as real) else 0
  }

  /** Readings of at most 20 give a mean of at most 20, and a nonzero mean exactly
      when some reading is nonzero. */
  lemma {:induction false} MeanRadiusBounds(readings: seq<nat>)
    requires forall i :: 0 <= i < |readings| ==> readings[i] <= 20
    ensures 0 <= MeanRadius(readings) <= 20
    ensures MeanRadius(readings) > 0 <==> exists i :: 0 <= i < |readings| && readings[i] > 0
  {
    TotalBound(readings);
    var n := NonzeroCount(readings);
    if n > 0 {
      var t := NonzeroTotal(readings) as real;
      MeanBetween(t, n as real, 1.0, 20.0);
      RoundBetween(t / n as real, 1, 20);
    }
  }

  lemma {:induction false} TotalBound(readings: seq<nat>)
    requires forall i :: 0 <= i < |readings| ==> readings[i] <= 20
    ensures NonzeroCount(readings) <= NonzeroTotal(readings) <= 20 * NonzeroCount(readings)
    ensures NonzeroCount(readings) > 0 <==> exists i :: 0 <= i < |readings| && readings[i] > 0
  {
    if readings != [] {
      var init := readings[..|readings| - 1];
      TotalBound(init);
      if exists i :: 0 <= i < |init| && init[i] > 0 {
        var i :| 0 <= i < |init| && init[i] > 0;
        assert readings[i] > 0;
      }
      if exists i :: 0 <= i < |readings| && readings[i] > 0 {
        var i :| 0 <= i < |readings| && readings[i] > 0;
        if i < |init| {
          assert init[i] > 0;
        }
      }
    }
  }

  /** The four corner readings, in corner order. */
  function CornerReadings(data: seq<byte>, w: nat, h: nat): (readings: seq<nat>)
    requires IsImage(data, w, h)
    ensures |readings| == 4
  {
    var c := Corners(w, h);
    seq(4, i requires 0 <= i < 4 => CornerRadiusFrom(data, w, h, c[i].0, c[i].1, 1))
  }

  /** `detectBorderRadius`: the rounded mean of the nonzero corner readings. */
  method DetectBorderRadius(data: seq<byte>, w: nat, h: nat) returns (radius: int)
    requires IsImage(data, w, h)
    ensures radius == MeanRadius(CornerReadings(data, w, h))
    ensures 0 <= radius <= 20
  {
    var corners := Corners(w, h);
    var total, valid := 0, 0;
    ghost var readings: seq<nat> := [];
    for k := 0 to 4
      invariant |readings| == k
      invariant forall i :: 0 <= i < k ==> readings[i] == CornerRadiusFrom(data, w, h, corners[i].0, corners[i].1, 1)
      invariant forall i :: 0 <= i < k ==> readings[i] <= 20
      invariant total == NonzeroTotal(readings) && valid == NonzeroCount(readings)
    {
      var r := MeasureCornerRadius(data, corners[k].0, corners[k].1, w, h);
      CornerRadiusFirstHit(data, w, h, corners[k].0, corners[k].1, 1);
      assert (readings + [r])[..k] == readings;
      readings := readings + [r];
      if r > 0 {
        total := total + r;
        valid := valid + 1;
      }
    }
    radius := if valid > 0 then Round(total as real / valid as real) else 0;
    assert readings == CornerReadings(data, w, h);
    MeanRadiusBounds(readings);
  }

  /** A row or column of the region holding an opaque pixel. */
  predicate RowHasContent(data: seq<byte>, w: nat, h: nat, y: nat)
    requires IsImage(data, w, h) && y < h
  {
    exists x :: 0 <= x < w && Opaque(data, w, h, x, y)
  }

  predicate ColumnHasContent(data: seq<byte>, w: nat, h: nat, x: nat)
    requires IsImage(data, w, h) && x < w
  {
    exists y :: 0 <= y < h && Opaque(data, w, h, x, y)
  }

  /** `measurePadding`: `top` is the first row holding an opaque pixel and `left`
      the first such column (0 when there is none); `right` and `bottom` repeat
      `top`. */
  predicate PaddingOf(data: seq<byte>, w: nat, h: nat, pad: Padding)
    requires IsImage(data, w, h)
  {
    pad.right == pad.top && pad.bottom == pad.top &&
    ((exists y :: 0 <= y < h && RowHasContent(data, w, h, y)) ==>
      pad.top < h && RowHasContent(data, w, h, pad.top) &&
      forall y :: 0 <= y < pad.top ==> !RowHasContent(data, w, h, y)) &&
    (!(exists y :: 0 <= y < h && RowHasContent(data, w, h, y)) ==> pad.top == 0) &&
    ((exists x :: 0 <= x < w && ColumnHasContent(data, w, h, x)) ==>
      pad.left < w && ColumnHasContent(data, w, h, pad.left) &&
      forall x :: 0 <= x < pad.left ==> !ColumnHasContent(data, w, h, x)) &&
    (!(exists x :: 0 <= x < w && ColumnHasContent(data, w, h, x)) ==> pad.left == 0)
  }

  method MeasurePadding(data: seq<byte>, w: nat, h: nat) returns (pad: Padding)
    requires IsImage(data, w, h)
    ensures PaddingOf(data, w, h, pad)
  {
    var topPadding, leftPadding := 0, 0;
    var y := 0;
    while y < h
      invariant y <= h
      invariant forall y' :: 0 <= y' < y ==> !RowHasContent(data, w, h, y')
    {
      var hasContent := false;
      var x := 0;
      while x < w
        invariant x <= w && !hasContent
        invariant forall x' :: 0 <= x' < x ==> !Opaque(data, w, h, x', y)
      {
        ChannelInRange(data, w, h, x, y);
        var alpha := data[(y * w + x) * 4 + 3];
        if alpha > 128 {
          assert Opaque(data, w, h, x, y);
          hasContent := true;
          break;
        }
        x := x + 1;
      }
      assert hasContent <==> RowHasContent(data, w, h, y);
      if hasContent {
        topPadding := y;
        break;
      }
      y := y + 1;
    }
    assert topPadding > 0 || y == h || RowHasContent(data, w, h, 0);
    var x := 0;
    while x < w
      invariant x <= w
      invariant forall x' :: 0 <= x' < x ==> !ColumnHasContent(data, w, h, x')
    {
      var hasContent := false;
      var y := 0;
      while y < h
        invariant y <= h && !hasContent
        invariant forall y' :: 0 <= y' < y ==> !Opaque(data, w, h, x, y')
      {
        ChannelInRange(data, w, h, x, y);
        var alpha := data[(y * w + x) * 4 + 3];
        if alpha > 128 {
          assert Opaque(data, w, h, x, y);
          hasContent := true;
          break;
        }
        y := y + 1;
      }
      assert hasContent <==> ColumnHasContent(data, w, h, x);
      if hasContent {
        leftPadding := x;
        break;
      }
      x := x + 1;
    }
    pad := Padding(topPadding, topPadding, topPadding, leftPadding);
  }

  // ---------------------------------------------------------------------------
  // Border

  datatype Border = Border(width: nat, color: string, style: string)

  /** Two colours differ by strictly less than 10 in every channel. */
  predicate Near(c: Rgb, d: Rgb)
  {
    Abs(c.r - d.r) < 10 && Abs(c.g - d.g) < 10 && Abs(c.b - d.b) < 10
  }

  /** Every pixel of the top row is near the first one. */
  predicate TopRowUniform(data: seq<byte>, w: nat, h: nat)
    requires IsImage(data, w, h) && h >= 1
  {
    forall x :: 0 <= x < w ==> Near(PixelColor(data, w, h, x, 0), PixelColor(data, w, h, 0, 0))
  }

  /** `detectBorder`: a one-pixel solid border in the colour of the first pixel when
      the whole top row is near that colour, and none otherwise. On an image with
      no rows every channel read is `undefined`, every comparison fails, and there
      is no border. */
  predicate BorderOf(data: seq<byte>, w: nat, h: nat, border: Option<Border>)
    requires IsImage(data, w, h) && w >= 1
  {
    (border.Some? <==> h >= 1 && TopRowUniform(data, w, h)) &&
    (border.Some? ==> border.value == Border(1, RgbString(PixelColor(data, w, h, 0, 0)), "solid"))
  }

  method DetectBorder(data: seq<byte>, w: nat, h: nat) returns (border: Option<Border>)
    requires IsImage(data, w, h) && w >= 1
    ensures BorderOf(data, w, h, border)
  {
    if h == 0 {
      return None;
    }
    var edgePixels: seq<Rgb> := [];
    for x := 0 to w
      invariant |edgePixels| == x
      invariant forall i :: 0 <= i < x ==> edgePixels[i] == PixelColor(data, w, h, i, 0)
    {
      ChannelInRange(data, w, h, x, 0);
      var index := x * 4;
      edgePixels := edgePixels + [Rgb(data[index], data[index + 1], data[index + 2])];
    }
    var first := edgePixels[0];
    var hasBorder := true;
    var i := 0;
    while i < w
      invariant i <= w
      invariant hasBorder <==> forall j :: 0 <= j < i ==> Near(edgePixels[j], first)
    {
      if !Near(edgePixels[i], first) {
        hasBorder := false;
      }
      i := i + 1;
    }
    border := if hasBorder then Some(Border(1, RgbString(first), "solid")) else None;
  }

  // ---------------------------------------------------------------------------
  // Colours of a region

  /** The colours of the opaque pixels (`alpha > 128`) among the first `n` pixels of
      the buffer, in pixel order. */
  function OpaqueColors(data: seq<byte>, n: nat): (s: seq<Rgb>)
    requires 4 * n <= |data|
    ensures |s| <= n
    ensures forall i :: 0 <= i < |s| ==> IsByteColor(s[i])
  {
    if n == 0 then []
    else
      var i := 4 * (n - 1);
      OpaqueColors(data, n - 1) +
        (if data[i + 3] > 128 then [Rgb(data[i], data[i + 1], data[i + 2])] else [])
  }

  lemma OpaqueColorsStep(data: seq<byte>, k: nat)
    requires 4 * k + 4 <= |data|
    ensures OpaqueColors(data, k + 1) == OpaqueColors(data, k) +
      (if data[4 * k + 3] > 128 then [Rgb(data[4 * k], data[4 * k + 1], data[4 * k + 2])] else [])
  {
  }

  /** Pixel `p` of the buffer is opaque and has colour `c`. */
  predicate OpaquePixelOf(data: seq<byte>, p: nat, c: Rgb)
    requires 4 * p + 3 < |data|
  {
    data[4 * p + 3] > 128 && c == Rgb(data[4 * p], data[4 * p + 1], data[4 * p + 2])
  }

  /** Only opaque pixels are counted, and every opaque pixel is. */
  lemma {:induction false} OpaqueColorsMembers(data: seq<byte>, n: nat, c: Rgb)
    requires 4 * n <= |data|
    ensures c in OpaqueColors(data, n) <==> exists p :: 0 <= p < n && OpaquePixelOf(data, p, c)
  {
    if n > 0 {
      OpaqueColorsMembers(data, n - 1, c);
      var i := 4 * (n - 1);
      var last: seq<Rgb> := if data[i + 3] > 128 then [Rgb(data[i], data[i + 1], data[i + 2])] else [];
      assert OpaqueColors(data, n) == OpaqueColors(data, n - 1) + last;
      assert c in last <==> OpaquePixelOf(data, n - 1, c);
      if c in OpaqueColors(data, n - 1) {
        var p :| 0 <= p < n - 1 && OpaquePixelOf(data, p, c);
        assert p < n;
      }
      if c !in OpaqueColors(data, n) {
        forall p | 0 <= p < n ensures !OpaquePixelOf(data, p, c) {
          if p < n - 1 {
            assert !(exists q :: 0 <= q < n - 1 && OpaquePixelOf(data, q, c));
          }
        }
      }
    }
  }

  const White: string := "rgb(255,255,255)"

  /** The colour summary of a list of colours: the texts of the five most frequent
      colours, and the first of them as the dominant colour (white when the list is
      empty). */
  function Summarize(s: seq<Rgb>): ColorSummary
  {
    var ranked := Ranked(s);
    ColorSummary(if |ranked| > 0 then RgbString(ranked[0].color) else White, TopTexts(s, 5))
  }

  /** The palette holds at most five distinct colours of the list, each occurring in
      it, in non-increasing order of occurrence; a colour left out occurs no more
      often than the last one kept, and then the palette is full. */
  lemma PaletteProps(s: seq<Rgb>)
    ensures Summarize(s).palette == TopTexts(s, 5)
    ensures |Summarize(s).palette| <= 5
    ensures forall i :: 0 <= i < |Summarize(s).palette| ==>
      MatchRgb(Summarize(s).palette[i]).Some? && MatchRgb(Summarize(s).palette[i]).value in s
    ensures forall i, j :: 0 <= i < j < |Summarize(s).palette| ==>
      Summarize(s).palette[i] != Summarize(s).palette[j]
    ensures forall i, j :: 0 <= i < j < |Summarize(s).palette| ==>
      multiset(s)[MatchRgb(Summarize(s).palette[i]).value] >=
      multiset(s)[MatchRgb(Summarize(s).palette[j]).value]
    ensures forall c :: c in s && RgbString(c) !in Summarize(s).palette ==>
      |Summarize(s).palette| == 5 && multiset(s)[c] <= multiset(s)[MatchRgb(Summarize(s).palette[4]).value]
  {
    TopTextsColours(s, 5);
    TopTextsRanked(s, 5);
  }

  /** The dominant colour is white exactly when there is no colour; otherwise it is
      the first colour of the palette and occurs at least as often as any colour. */
  lemma DominantProps(s: seq<Rgb>)
    ensures s == [] ==> Summarize(s).dominant == White && Summarize(s).palette == []
    ensures s != [] ==> |Summarize(s).palette| >= 1 && Summarize(s).dominant == Summarize(s).palette[0]
    ensures s != [] ==> MatchRgb(Summarize(s).dominant).Some?
    ensures s != [] ==> forall c :: c in s ==>
      multiset(s)[c] <= multiset(s)[MatchRgb(Summarize(s).dominant).value]
  {
    var ranked := Ranked(s);
    RankedProps(s);
    if s != [] {
      assert s[0] in s;
      RgbStringParses(ranked[0].color);
      forall c | c in s ensures multiset(s)[c] <= multiset(s)[ranked[0].color] {
        var i :| 0 <= i < |ranked| && ranked[i].color == c;
        if i > 0 {
          assert CountKey(ranked[0]) >= CountKey(ranked[i]);
        }
      }
    } else {
      assert |Histogram([], s)| == 0;
      SortDescProps(Histogram([], s), CountKey);
    }
  }

  /** `analyzeRegionColors`: counts the colours of the opaque pixels in a `Map`, in
      order of first appearance, sorts the entries by non-increasing count and
      keeps the first five. */
  method AnalyzeRegionColors(data: seq<byte>) returns (colors: ColorSummary)
    requires |data| % 4 == 0
    ensures colors == Summarize(OpaqueColors(data, |data| / 4))
  {
    var counts: seq<Entry> := [];
    var i := 0;
    ghost var k := 0;
    while i < |data|
      invariant i == 4 * k && 4 * k <= |data|
      invariant counts == Histogram([], OpaqueColors(data, k))
    {
      var r, g, b, a := data[i], data[i + 1], data[i + 2], data[i + 3];
      OpaqueColorsStep(data, k);
      if a > 128 {
        HistogramSnoc([], OpaqueColors(data, k), Rgb(r, g, b));
        counts := Increment(counts, Rgb(r, g, b));
      } else {
        assert OpaqueColors(data, k + 1) == OpaqueColors(data, k);
      }
      i := i + 4;
      k := k + 1;
    }
    assert k == |data| / 4;
    var sortedColors := SortDesc(counts, CountKey);
    var top := if |sortedColors| <= 5 then sortedColors else sortedColors[..5];
    colors := ColorSummary(
      if |sortedColors| > 0 then RgbString(sortedColors[0].color) else White,
      seq(|top|, j requires 0 <= j < |top| => RgbString(top[j].color)));
  }

  // ---------------------------------------------------------------------------
  // Brightness

  /** Weighted brightness `(299 r + 587 g + 114 b) / 1000` of a colour. */
  function Luma(c: Rgb): real
  {
    (299 * c.r + 587 * c.g + 114 * c.b) as real / 1000.0
  }

  /** `getBrightness`: the brightness of the first `rgb(r,g,b)` in the text, or 128
      when there is none. */
  function Brightness(color: string): real
  {
    match MatchRgb(color)
    case None => 128.0
    case Some(c) => Luma(c)
  }

  /** Brightness lies between 0 and 255 for any text naming a byte colour or none,
      is exact on formatted colours, and is the level itself on greys. */
  lemma BrightnessProps(color: string, c: Rgb, v: nat)
    ensures MatchRgb(color).None? ==> Brightness(color) == 128.0
    ensures MatchRgb(color).None? || IsByteColor(MatchRgb(color).value) ==>
      0.0 <= Brightness(color) <= 255.0
    ensures Brightness(RgbString(c)) == Luma(c)
    ensures Brightness(RgbString(Rgb(v, v, v))) == v as real
  {
    RgbStringParses(c);
    RgbStringParses(Rgb(v, v, v));
  }

  /** One channel of `adjustBrightness`: scaled by `1 + factor`, clamped to
      `[0, 255]` and rounded. */
  function AdjustChannel(v: nat, factor: real): (n: nat)
    ensures n <= 255
  {
    var x := MaxReal(0.0, MinReal(255.0, v as real + v as real * factor));
    RoundBetween(x, 0, 255);
    Round(x)
  }

  /** A non-positive factor never raises a channel, and a non-negative factor never
      lowers a channel that is already a byte; a zero factor keeps a byte. */
  lemma AdjustChannelDirection(v: nat, factor: real)
    ensures factor <= 0.0 ==> AdjustChannel(v, factor) <= v
    ensures factor >= 0.0 && v <= 255 ==> AdjustChannel(v, factor) >= v
    ensures factor == 0.0 && v <= 255 ==> AdjustChannel(v, factor) == v
  {
    var x := MaxReal(0.0, MinReal(255.0, v as real + v as real * factor));
    if factor <= 0.0 {
      assert v as real * factor <= 0.0 by { ScaleSign(v as real, factor); }
      assert x <= v as real;
    }
    if factor >= 0.0 && v <= 255 {
      assert v as real * factor >= 0.0;
      assert x >= v as real;
    }
  }

  lemma ScaleSign(a: real, f: real)
    requires a >= 0.0 && f <= 0.0
    ensures a * f <= 0.0
  {
    assert a * (-f) >= 0.0;
  }

  /** `adjustBrightness`: every channel of the first `rgb(r,g,b)` in the text scaled,
      clamped and rounded; text without one is returned as it is. */
  function AdjustBrightness(color: string, factor: real): string
  {
    match MatchRgb(color)
    case None => color
    case Some(c) =>
      RgbString(Rgb(AdjustChannel(c.r, factor), AdjustChannel(c.g, factor), AdjustChannel(c.b, factor)))
  }

  /** Channel-wise order on colours. */
  predicate NoBrighter(c: Rgb, d: Rgb)
  {
    c.r <= d.r && c.g <= d.g && c.b <= d.b
  }

  /** The adjusted text reads back as a byte colour; a non-positive factor darkens
      every channel, a non-negative one lightens every channel of a byte colour, and
      text without a colour comes back unchanged. */
  lemma AdjustBrightnessProps(color: string, factor: real)
    ensures MatchRgb(color).None? ==> AdjustBrightness(color, factor) == color
    ensures MatchRgb(color).Some? ==>
      var d := MatchRgb(AdjustBrightness(color, factor));
      d.Some? && IsByteColor(d.value) &&
      (factor <= 0.0 ==> NoBrighter(d.value, MatchRgb(color).value)) &&
      (factor >= 0.0 && IsByteColor(MatchRgb(color).value) ==> NoBrighter(MatchRgb(color).value, d.value))
  {
    if MatchRgb(color).Some? {
      var c := MatchRgb(color).value;
      var adjusted := Rgb(AdjustChannel(c.r, factor), AdjustChannel(c.g, factor), AdjustChannel(c.b, factor));
      RgbStringParses(adjusted);
      AdjustChannelDirection(c.r, factor);
      AdjustChannelDirection(c.g, factor);
      AdjustChannelDirection(c.b, factor);
    }
  }

  // ---------------------------------------------------------------------------
  // Interaction states

  datatype StateStyle = StateStyle(backgroundColor: string, brightness: real)

  datatype ComponentStates = ComponentStates(default: StateStyle, hover: StateStyle, active: StateStyle)

  /** `detectComponentStates`: the dominant colour at rest; on hover 10% darker or
      lighter, whichever moves away from the middle; when pressed 20% darker. */
  function DetectComponentStates(rect: Region, colors: ColorSummary): ComponentStates
  {
    var dominant := colors.dominant;
    var b := Brightness(dominant);
    ComponentStates(
      StateStyle(dominant, b),
      StateStyle(AdjustBrightness(dominant, if b > 128.0 then -0.1 else 0.1),
                 if b > 128.0 then b - 25.0 else b + 25.0),
      StateStyle(AdjustBrightness(dominant, -0.2), MaxReal(0.0, b - 50.0)))
  }

  /** The resting state shows the dominant colour; hover moves the brightness 25
      towards the middle's other side and the colour the same way; the pressed state
      is never brighter, in brightness or in any channel, and never negative. */
  lemma StatesProps(rect: Region, colors: ColorSummary)
    ensures var st := DetectComponentStates(rect, colors);
      var b := Brightness(colors.dominant);
      st.default == StateStyle(colors.dominant, b) &&
      (b > 128.0 ==> st.hover.brightness == b - 25.0) &&
      (b <= 128.0 ==> st.hover.brightness == b + 25.0) &&
      0.0 <= st.active.brightness && st.active.brightness <= MaxReal(0.0, b) &&
      (b >= 50.0 ==> st.active.brightness == b - 50.0) &&
      (b < 50.0 ==> st.active.brightness == 0.0)
    ensures var st := DetectComponentStates(rect, colors);
      var m := MatchRgb(colors.dominant);
      m.Some? && IsByteColor(m.value) ==>
        var hover := MatchRgb(st.hover.backgroundColor);
        var active := MatchRgb(st.active.backgroundColor);
        hover.Some? && active.Some? && NoBrighter(active.value, m.value) &&
        (Brightness(colors.dominant) > 128.0 ==> NoBrighter(hover.value, m.value)) &&
        (Brightness(colors.dominant) <= 128.0 ==> NoBrighter(m.value, hover.value))
    ensures var st := DetectComponentStates(rect, colors);
      MatchRgb(colors.dominant).None? ==>
        st.hover.backgroundColor == colors.dominant && st.active.backgroundColor == colors.dominant
  {
    var b := Brightness(colors.dominant);
    AdjustBrightnessProps(colors.dominant, if b > 128.0 then -0.1 else 0.1);
    AdjustBrightnessProps(colors.dominant, -0.2);
  }

  // ---------------------------------------------------------------------------
  // Shadow and measurements

  datatype Shadow = Shadow(offsetX: int, offsetY: int, blurRadius: int, color: string)

  /** `detectShadow`: a fixed soft shadow. */
  function DetectShadow(rect: Region, data: seq<byte>): Shadow
  {
    Shadow(0, 2, 4, "rgba(0,0,0,0.1)")
  }

  /** The shadow does not depend on the region or its pixels. */
  lemma ShadowIgnoresInput(r1: Region, d1: seq<byte>, r2: Region, d2: seq<byte>)
    ensures DetectShadow(r1, d1) == DetectShadow(r2, d2)
  {
  }

  datatype Measurements = Measurements(width: int, height: int, borderRadius: int, padding: Padding,
                                       shadow: Shadow, border: Option<Border>)

  /** `measureComponentProperties`: the box's size with the corner radius, padding,
      shadow and border measured on the region's own buffer. */
  predicate MeasuredAs(rect: Region, data: seq<byte>, w: nat, h: nat, m: Measurements)
    requires IsImage(data, w, h) && w >= 1
  {
    m.width == rect.width && m.height == rect.height &&
    m.borderRadius == MeanRadius(CornerReadings(data, w, h)) &&
    PaddingOf(data, w, h, m.padding) && m.shadow == DetectShadow(rect, data) &&
    BorderOf(data, w, h, m.border)
  }

  method MeasureComponentProperties(rect: Region, data: seq<byte>, w: nat, h: nat) returns (m: Measurements)
    requires IsImage(data, w, h) && w >= 1
    ensures MeasuredAs(rect, data, w, h, m) && 0 <= m.borderRadius <= 20
  {
    var borderRadius := DetectBorderRadius(data, w, h);
    var padding := MeasurePadding(data, w, h);
    var shadow := DetectShadow(rect, data);
    var border := DetectBorder(data, w, h);
    m := Measurements(rect.width, rect.height, borderRadius, padding, shadow, border);
  }

  // ---------------------------------------------------------------------------
  // Classification

  /** The rules of `classifyComponentType`, with the aspect-ratio comparisons
      multiplied out by the (positive) height. */
  predicate ButtonRule(r: Region, hasText: bool)
  {
    2 * r.width > 3 * r.height && r.width < 5 * r.height && Area(r) < 15000 && hasText
  }

  predicate CardRule(r: Region, borderRadius: int)
  {
    Area(r) > 20000 && borderRadius > 4
  }

  predicate InputRule(r: Region, borderRadius: int)
  {
    r.width > 3 * r.height && r.height < 60 && borderRadius < 8
  }

  predicate NavItemRule(r: Region, hasText: bool)
  {
    hasText && r.height < 50 && r.width > 2 * r.height
  }

  /** `classifyComponentType`: the first rule that matches, in the order button,
      card, input, navigation item, else unknown. The colours do not take part. */
  function ClassifyComponentType(rect: Region, colors: ColorSummary, hasText: bool, m: Measurements): (t: string)
    requires rect.height > 0
    ensures t == "button" <==> ButtonRule(rect, hasText)
    ensures t == "card" <==> !ButtonRule(rect, hasText) && CardRule(rect, m.borderRadius)
    ensures t == "input" <==>
      !ButtonRule(rect, hasText) && !CardRule(rect, m.borderRadius) && InputRule(rect, m.borderRadius)
    ensures t == "nav-item" <==>
      !ButtonRule(rect, hasText) && !CardRule(rect, m.borderRadius) && !InputRule(rect, m.borderRadius) &&
      NavItemRule(rect, hasText)
    ensures t == "unknown" <==>
      !ButtonRule(rect, hasText) && !CardRule(rect, m.borderRadius) && !InputRule(rect, m.borderRadius) &&
      !NavItemRule(rect, hasText)
  {
    RatioCompare(rect.width, rect.height, 3, 2);
    RatioCompare(rect.width, rect.height, 5, 1);
    RatioCompare(rect.width, rect.height, 3, 1);
    RatioCompare(rect.width, rect.height, 2, 1);
    var aspectRatio := rect.width as real / rect.height as real;
    var area := rect.width * rect.height;
    if aspectRatio > 1.5 && aspectRatio < 5.0 && area < 15000 && hasText then "button"
    else if area > 20000 && m.borderRadius > 4 then "card"
    else if aspectRatio > 3.0 && rect.height < 60 && m.borderRadius < 8 then "input"
    else if hasText && rect.height < 50 && aspectRatio > 2.0 then "nav-item"
    else "unknown"
  }

  /** A detected component: the box, its measurements, colours, text flag and states. */
  datatype DetectedComponent = DetectedComponent(id: string, kind: string, bounds: Region,
                                                 properties: Measurements, colors: ColorSummary,
                                                 hasText: bool, states: ComponentStates)

  /** `analyzeComponentRegion` on the region's own buffer (`w` by `h`, the box's
      size), with the text-detection verdict and the identifier supplied. */
  /** The pixel buffer read back for a box: its own width and height. */
  predicate RegionBuffer(r: Region, data: seq<byte>)
  {
    r.width >= 1 && r.height >= 1 && IsImage(data, r.width, r.height)
  }

  /** What `analyzeComponentRegion` makes of a box and its buffer: the box, text
      flag and id, the opaque-colour summary, the measurements, the classifier's
      type and the derived states. */
  predicate AnalyzedAs(rect: Region, data: seq<byte>, hasText: bool, id: string, c: DetectedComponent)
    requires RegionBuffer(rect, data)
  {
    c.bounds == rect && c.hasText == hasText && c.id == id &&
    c.colors == Summarize(OpaqueColors(data, rect.width * rect.height)) &&
    MeasuredAs(rect, data, rect.width, rect.height, c.properties) &&
    c.kind == ClassifyComponentType(rect, c.colors, hasText, c.properties) &&
    c.states == DetectComponentStates(rect, c.colors)
  }

  method AnalyzeComponentRegion(rect: Region, data: seq<byte>, w: nat, h: nat, hasText: bool, id: string)
    returns (c: DetectedComponent)
    requires IsImage(data, w, h) && w == rect.width && h == rect.height && w >= 1 && h >= 1
    ensures RegionBuffer(rect, data) && AnalyzedAs(rect, data, hasText, id, c)
  {
    assert |data| / 4 == w * h;
    var colors := AnalyzeRegionColors(data);
    var measurements := MeasureComponentProperties(rect, data, w, h);
    var kind := ClassifyComponentType(rect, colors, hasText, measurements);
    c := DetectedComponent(id, kind, rect, measurements, colors, hasText, DetectComponentStates(rect, colors));
  }

  /** The first `n` components are the analyses of the first `n` boxes with their
      buffers, text flags and identifiers. */
  predicate AnalyzedPrefix(components: seq<DetectedComponent>, rects: seq<Region>, buffers: seq<seq<byte>>,
                           texts: seq<bool>, ids: seq<string>, n: nat)
    requires n <= |components|
  {
    forall j {:trigger components[j]} :: 0 <= j < n ==> AnalyzedAt(components[j], rects, buffers, texts, ids, j)
  }

  predicate AnalyzedAt(c: DetectedComponent, rects: seq<Region>, buffers: seq<seq<byte>>,
                       texts: seq<bool>, ids: seq<string>, j: nat)
  {
    j < |rects| && j < |buffers| && j < |texts| && j < |ids| &&
    RegionBuffer(rects[j], buffers[j]) && AnalyzedAs(rects[j], buffers[j], texts[j], ids[j], c)
  }

  lemma AnalyzedAppend(components: seq<DetectedComponent>, c: DetectedComponent, rects: seq<Region>,
                       buffers: seq<seq<byte>>, texts: seq<bool>, ids: seq<string>)
    requires AnalyzedPrefix(components, rects, buffers, texts, ids, |components|)
    requires AnalyzedAt(c, rects, buffers, texts, ids, |components|)
    ensures AnalyzedPrefix(components + [c], rects, buffers, texts, ids, |components| + 1)
  {
    var cs := components + [c];
    forall j | 0 <= j < |cs| ensures AnalyzedAt(cs[j], rects, buffers, texts, ids, j) {
      if j < |components| {
        assert cs[j] == components[j];
      }
    }
  }

  /** `classifyComponents`: one component per box, in the order of the boxes, each
      the analysis of that box's buffer. */
  method ClassifyComponents(rects: seq<Region>, buffers: seq<seq<byte>>, texts: seq<bool>, ids: seq<string>)
    returns (components: seq<DetectedComponent>)
    requires |buffers| == |rects| && |texts| == |rects| && |ids| == |rects|
    requires forall i :: 0 <= i < |rects| ==> RegionBuffer(rects[i], buffers[i])
    ensures |components| == |rects|
    ensures AnalyzedPrefix(components, rects, buffers, texts, ids, |rects|)
  {
    components := [];
    for i := 0 to |rects|
      invariant |components| == i
      invariant AnalyzedPrefix(components, rects, buffers, texts, ids, i)
    {
      assert RegionBuffer(rects[i], buffers[i]);
      var c := AnalyzeComponentRegion(rects[i], buffers[i], rects[i].width, rects[i].height, texts[i], ids[i]);
      AnalyzedAppend(components, c, rects, buffers, texts, ids);
      components := components + [c];
    }
  }
}
