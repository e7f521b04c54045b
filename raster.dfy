/** Pixel buffers. `ImageData.data` is a flat `Uint8ClampedArray` holding four bytes
    (red, green, blue, alpha) per pixel, row after row; pixel `(x, y)` of a
    `width`-wide image starts at byte `4 * (y * width + x)`. */
module Raster {
  import opened Colors

  type byte = x: int | 0 <= x < 256

  /** Position of pixel `(x, y)` in a row-major buffer of `w` columns. */
  function Idx(w: nat, x: nat, y: nat): nat
  {
    y * w + x
  }

  lemma IdxInRange(w: nat, h: nat, x: nat, y: nat)
    requires x < w && y < h
    ensures Idx(w, x, y) < w * h
  {
    calc {
      y * w + x;
    < y * w + w;
    == (y + 1) * w;
    <= { MulMono(y + 1, h, w); } h * w;
    }
  }

  lemma PixelsInRange(w: nat, h: nat)
    ensures forall x: nat, y: nat :: x < w && y < h ==> Idx(w, x, y) < w * h
  {
    forall x: nat, y: nat | x < w && y < h ensures Idx(w, x, y) < w * h {
      IdxInRange(w, h, x, y);
    }
  }

  lemma MulMono(a: nat, b: nat, c: nat)
    requires a <= b
    ensures a * c <= b * c
  {
  }

  /** Distinct pixels have distinct positions. */
  lemma IdxInjective(w: nat, x1: nat, y1: nat, x2: nat, y2: nat)
    requires x1 < w && x2 < w && Idx(w, x1, y1) == Idx(w, x2, y2)
    ensures x1 == x2 && y1 == y2
  {
    if y1 < y2 {
      MulMono(y1 + 1, y2, w);
    } else if y2 < y1 {
      MulMono(y2 + 1, y1, w);
    }
  }

  /** Column and row of position `p` in a row-major buffer of `w` columns
      (`p % w` and `p / w`), by repeated subtraction of whole rows. */
  function Col(w: nat, p: nat): nat
    requires w > 0
    decreases p
  {
    if p < w then p else Col(w, p - w)
  }

  function Row(w: nat, p: nat): nat
    requires w > 0
    decreases p
  {
    if p < w then 0 else 1 + Row(w, p - w)
  }

  lemma {:induction false} ColRowOfIdx(w: nat, x: nat, y: nat)
    requires x < w
    ensures Col(w, Idx(w, x, y)) == x && Row(w, Idx(w, x, y)) == y
  {
    if y > 0 {
      assert Idx(w, x, y) - w == Idx(w, x, y - 1);
      ColRowOfIdx(w, x, y - 1);
    }
  }

  lemma {:induction false} IdxOfColRow(w: nat, h: nat, p: nat)
    requires w > 0 && p < w * h
    ensures Col(w, p) < w && Row(w, p) < h && Idx(w, Col(w, p), Row(w, p)) == p
    decreases p
  {
    if p >= w {
      assert p - w < w * (h - 1);
      IdxOfColRow(w, h - 1, p - w);
    }
  }

  /** A set of positions below `n` has at most `n` elements. */
  lemma {:induction false} PositionsBound(a: set<nat>, n: nat)
    requires forall p :: p in a ==> p < n
    ensures |a| <= n
  {
    if n == 0 {
      assert a == {};
    } else {
      var b := a - {n - 1};
      PositionsBound(b, n - 1);
      if n - 1 in a {
        assert a == b + {n - 1};
      } else {
        assert a == b;
      }
    }
  }

  /** `data` is the buffer of a `w` by `h` image. */
  predicate IsImage(data: seq<byte>, w: nat, h: nat)
  {
    |data| == 4 * (w * h)
  }

  /** A pixel inside the image and its four channels. */
  lemma ChannelInRange(data: seq<byte>, w: nat, h: nat, x: nat, y: nat)
    requires IsImage(data, w, h) && x < w && y < h
    ensures 4 * Idx(w, x, y) + 3 < |data|
  {
    IdxInRange(w, h, x, y);
  }

  /** An axis-aligned box: the shape both component detectors report. */
  datatype Region = Region(x: int, y: int, width: int, height: int)

  predicate InsideImage(r: Region, w: nat, h: nat)
  {
    0 <= r.x && 0 <= r.y && 1 <= r.width && 1 <= r.height &&
    r.x + r.width <= w && r.y + r.height <= h
  }

  predicate Contains(r: Region, x: int, y: int)
  {
    r.x <= x < r.x + r.width && r.y <= y < r.y + r.height
  }

  function Area(r: Region): int
  {
    r.width * r.height
  }

  /** Inner spacing of a box, as CSS lists it. */
  datatype Padding = Padding(top: nat, right: nat, bottom: nat, left: nat)

  /** The alpha channel of pixel `(x, y)`. */
  function Alpha(data: seq<byte>, w: nat, h: nat, x: nat, y: nat): byte
    requires IsImage(data, w, h) && x < w && y < h
  {
    ChannelInRange(data, w, h, x, y);
    data[4 * Idx(w, x, y) + 3]
  }

  /** The colour channels of pixel `(x, y)`. */
  function PixelColor(data: seq<byte>, w: nat, h: nat, x: nat, y: nat): Rgb
    requires IsImage(data, w, h) && x < w && y < h
  {
    ChannelInRange(data, w, h, x, y);
    var i := 4 * Idx(w, x, y);
    Rgb(data[i], data[i + 1], data[i + 2])
  }
}
