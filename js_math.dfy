/** The `Math` functions the detectors use, over exact numbers. */
module JsMath {

  /** `Math.round`: the nearest integer, halves rounding up. */
  function Round(x: real): (n: int)
    ensures n as real - 0.5 <= x < n as real + 0.5
  {
    (x + 0.5).Floor
  }

  /** The rounding is the unique integer within half a unit. */
  lemma RoundUnique(x: real, n: int)
    requires n as real - 0.5 <= x < n as real + 0.5
    ensures Round(x) == n
  {
  }

  /** Rounding keeps a value between two integers between them. */
  lemma RoundBetween(x: real, lo: int, hi: int)
    requires lo as real <= x <= hi as real
    ensures lo <= Round(x) <= hi
  {
  }

  function Abs(n: int): nat
  {
    if n < 0 then -n else n
  }

  function MaxReal(a: real, b: real): real
  {
    if a >= b then a else b
  }

  function MinReal(a: real, b: real): real
  {
    if a <= b then a else b
  }

  /** A total between `lo * n` and `hi * n` gives a mean between `lo` and `hi`. */
  lemma MeanBetween(t: real, n: real, lo: real, hi: real)
    requires n > 0.0 && lo * n <= t <= hi * n
    ensures lo <= t / n <= hi
  {
    var q := t / n;
    assert q * n == t;
  }

  /** Comparing `w / h` with `n / d` is comparing `d * w` with `n * h`. */
  lemma RatioCompare(w: int, h: int, n: int, d: int)
    requires h > 0 && d > 0
    ensures w as real / h as real > n as real / d as real <==> d * w > n * h
    ensures w as real / h as real < n as real / d as real <==> d * w < n * h
  {
    var q := w as real / h as real;
    assert q * h as real == w as real;
    var t := n as real / d as real;
    assert t * d as real == n as real;
    assert q > t <==> q * (h * d) as real > t * (h * d) as real;
    assert q < t <==> q * (h * d) as real < t * (h * d) as real;
  }
}
