/** Colour strings. Both detectors key their colour counts by the text
    `rgb(r,g,b)`, and both the brightness helpers and the validator read colours
    back out of text with the regular expression `/rgb\((\d+),(\d+),(\d+)\)/`
    (unanchored, first match) or from `#RRGGBB` hex notation. */
module Colors {
  import opened Wrappers
  import opened Text

  /** An exact RGB triple. Channels read out of text are not clamped, so they are
      natural numbers rather than bytes. */
  datatype Rgb = Rgb(r: nat, g: nat, b: nat)

  predicate IsByteColor(c: Rgb) { c.r < 256 && c.g < 256 && c.b < 256 }

  /** The template literal `rgb(${r},${g},${b})`. */
  function RgbString(c: Rgb): string
  {
    "rgb(" + (NatToString(c.r) + ("," + (NatToString(c.g) + ("," + (NatToString(c.b) + ")")))))
  }

  /** Length of the maximal run of digits starting at `i` (a greedy `\d+`). */
  function DigitRun(s: string, i: nat): (k: nat)
    requires i <= |s|
    ensures i + k <= |s|
    ensures forall j :: i <= j < i + k ==> IsDigit(s[j])
    ensures i + k == |s| || !IsDigit(s[i + k])
    decreases |s| - i
  {
    if i < |s| && IsDigit(s[i]) then 1 + DigitRun(s, i + 1) else 0
  }

  /** A greedy `(\d+)` at the start of `t` followed by the character `delim`: the
      number read and the text after `delim`. */
  function NumberThen(t: string, delim: char): (r: Option<(nat, string)>)
    ensures r.Some? ==> |r.value.1| < |t|
  {
    var k := DigitRun(t, 0);
    if k > 0 && k < |t| && t[k] == delim then Some((DigitsValue(t[..k]), t[k + 1..]))
    else None
  }

  /** The regular expression `rgb\((\d+),(\d+),(\d+)\)` tried at the start of `t`.
      A digit run can only be followed by `,` or `)` when it is maximal, so the
      greedy match needs no backtracking. */
  function MatchRgbPrefix(t: string): Option<Rgb>
  {
    if StartsWith(t, "rgb(") then
      var red := NumberThen(t[4..], ',');
      if red.None? then None
      else
        var green := NumberThen(red.value.1, ',');
        if green.None? then None
        else
          var blue := NumberThen(green.value.1, ')');
          if blue.None? then None
          else Some(Rgb(red.value.0, green.value.0, blue.value.0))
    else None
  }

  /** The same regular expression tried at position `i` of `s`. */
  function MatchRgbAt(s: string, i: nat): Option<Rgb>
  {
    if i <= |s| then MatchRgbPrefix(s[i..]) else None
  }

  /** The first match at or after `from`. */
  function FindRgb(s: string, from: nat): Option<Rgb>
    decreases |s| - from
  {
    if from > |s| then None
    else if MatchRgbAt(s, from).Some? then MatchRgbAt(s, from)
    else FindRgb(s, from + 1)
  }

  /** The search finds the leftmost match, and finds none only when no position
      matches. */
  lemma {:induction false} FindRgbLeftmost(s: string, from: nat)
    ensures FindRgb(s, from).None? ==> forall i :: from <= i <= |s| ==> MatchRgbAt(s, i).None?
    ensures FindRgb(s, from).Some? ==> exists i :: from <= i <= |s| && MatchRgbAt(s, i) == FindRgb(s, from) &&
                                        forall j :: from <= j < i ==> MatchRgbAt(s, j).None?
    decreases |s| - from
  {
    if from > |s| {
    } else if MatchRgbAt(s, from).Some? {
      assert MatchRgbAt(s, from) == FindRgb(s, from);
    } else {
      var m := MatchRgbAt(s, from);
      assert FindRgb(s, from) == FindRgb(s, from + 1);
      FindRgbLeftmost(s, from + 1);
      if FindRgb(s, from).Some? {
        var i :| from + 1 <= i <= |s| && MatchRgbAt(s, i) == FindRgb(s, from) &&
                 forall j :: from + 1 <= j < i ==> MatchRgbAt(s, j).None?;
        assert forall j :: from <= j < i ==> MatchRgbAt(s, j).None? by {
          assert m.None?;
        }
      }
    }
  }

  /** `s.match(/rgb\((\d+),(\d+),(\d+)\)/)`, reduced to the three captured numbers. */
  function MatchRgb(s: string): Option<Rgb>
  {
    FindRgb(s, 0)
  }

  lemma {:induction false} DigitRunOf(s: string, i: nat, d: string)
    requires AllDigits(d) && i + |d| <= |s| && s[i..i + |d|] == d
    requires i + |d| == |s| || !IsDigit(s[i + |d|])
    ensures DigitRun(s, i) == |d|
    decreases |d|
  {
    if d != [] {
      assert s[i] == d[0];
      assert s[i + 1..i + 1 + |d[1..]|] == d[1..];
      DigitRunOf(s, i + 1, d[1..]);
    }
  }

  lemma ReadNumber(d: string, delim: char, y: string)
    requires AllDigits(d) && |d| >= 1 && !IsDigit(delim)
    ensures NumberThen(d + ([delim] + y), delim) == Some((DigitsValue(d), y))
  {
    var t := d + ([delim] + y);
    assert t[..|d|] == d;
    assert t[|d|] == delim;
    assert t[|d| + 1..] == y;
    DigitRunOf(t, 0, d);
  }

  /** Reading a formatted colour back gives the colour: the rgb-text keys used for
      counting identify colours exactly. */
  lemma RgbStringParses(c: Rgb)
    ensures MatchRgb(RgbString(c)) == Some(c)
  {
    var d1, d2, d3 := NatToString(c.r), NatToString(c.g), NatToString(c.b);
    var t3 := d3 + ([')'] + []);
    var t2 := d2 + ([','] + t3);
    var t1 := d1 + ([','] + t2);
    var s := RgbString(c);
    assert s == "rgb(" + t1;
    assert s[4..] == t1;
    ReadNumber(d1, ',', t2);
    ReadNumber(d2, ',', t3);
    ReadNumber(d3, ')', []);
    DigitsValueOfNatToString(c.r);
    DigitsValueOfNatToString(c.g);
    DigitsValueOfNatToString(c.b);
    assert s[0..] == s;
    assert MatchRgbAt(s, 0) == Some(c);
  }

  /** Distinct colours have distinct texts. */
  lemma RgbStringInjective(c: Rgb, d: Rgb)
    requires RgbString(c) == RgbString(d)
    ensures c == d
  {
    RgbStringParses(c);
    RgbStringParses(d);
  }

  predicate IsHexDigit(ch: char)
  {
    '0' <= ch <= '9' || 'a' <= ch <= 'f' || 'A' <= ch <= 'F'
  }

  function HexValue(ch: char): (v: nat)
    requires IsHexDigit(ch)
    ensures v < 16
  {
    if '0' <= ch <= '9' then (ch as int) - ('0' as int)
    else if 'a' <= ch <= 'f' then (ch as int) - ('a' as int) + 10
    else (ch as int) - ('A' as int) + 10
  }
}
