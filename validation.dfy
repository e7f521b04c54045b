/** The accuracy check of the test-case module: each expected component of a
    fixture is matched to the first extracted component of the same type (and,
    when the fixture gives a position, within 50 pixels of it), and its expected
    properties are compared with the extracted ones — numbers by relative
    deviation, colours by distance in RGB space, other strings without regard to
    ASCII case, anything else by strict equality. */
module Validation {
  import opened Wrappers
  import opened Text
  import opened Colors
  import opened Raster
  import opened Values

  // ---------------------------------------------------------------------------
  // `parseInt(s, 16)`

  predicate AllHex(s: string) { forall i :: 0 <= i < |s| ==> IsHexDigit(s[i]) }

  /** Length of the maximal run of hex digits starting at `i`. */
  function HexRun(s: string, i: nat): (k: nat)
    requires i <= |s|
    ensures i + k <= |s|
    ensures AllHex(s[i..i + k])
    ensures i + k == |s| || !IsHexDigit(s[i + k])
    decreases |s| - i
  {
    if i < |s| && IsHexDigit(s[i]) then
      var k := HexRun(s, i + 1);
      assert s[i..i + 1 + k] == [s[i]] + s[i + 1..i + 1 + k];
      1 + k
    else 0
  }

  function HexDigitsValue(s: string): nat
    requires AllHex(s)
  {
    if s == [] then 0 else HexDigitsValue(s[..|s| - 1]) * 16 + HexValue(s[|s| - 1])
  }

  /** `parseInt(s, 16)`: leading whitespace is skipped, then an optional sign, then
      an optional `0x`/`0X` prefix, then the longest run of hex digits; with no digit
      the result is NaN, written `None`. */
  function ParseIntHex(s: string): Option<int>
  {
    var t := DropSpaces(s);
    var negative := t != [] && t[0] == '-';
    var u := if t != [] && (t[0] == '-' || t[0] == '+') then t[1..] else t;
    var v := if |u| >= 2 && u[0] == '0' && (u[1] == 'x' || u[1] == 'X') then u[2..] else u;
    var k := HexRun(v, 0);
    if k == 0 then None
    else
      var n: int := HexDigitsValue(v[..k]);
      if negative then Some(-n) else Some(n)
  }

  /** Two hex digits read as the byte they spell. */
  lemma ParseTwoHexDigits(a: char, b: char)
    requires IsHexDigit(a) && IsHexDigit(b)
    ensures ParseIntHex([a, b]) == Some(16 * HexValue(a) + HexValue(b))
  {
    var s := [a, b];
    assert !IsJsSpace(a);
    assert DropSpaces(s) == s;
    assert !(s[0] == '-' || s[0] == '+');
    assert !(s[1] == 'x' || s[1] == 'X');
    assert HexRun(s, 2) == 0;
    assert HexRun(s, 1) == 1;
    assert HexRun(s, 0) == 2;
    assert s[..2] == s;
    assert s[..1] == [a];
    assert [a][..0] == [];
    assert HexDigitsValue([a]) == HexValue(a);
    assert HexDigitsValue(s) == HexDigitsValue([a]) * 16 + HexValue(b);
  }

  /** `s.slice(from, to)` for `0 <= from <= to`: clipped to the string. */
  function JsSlice(s: string, from: nat, to: nat): (r: string)
    requires from <= to
    ensures |r| <= to - from
  {
    if to <= |s| then s[from..to] else if from <= |s| then s[from..] else []
  }

  // ---------------------------------------------------------------------------
  // Colours

  /** The three channels `parseColor` returns; a channel is `None` when `parseInt`
      gave NaN. */
  datatype Channels = Channels(r: Option<int>, g: Option<int>, b: Option<int>)

  predicate AllChannels(c: Channels) { c.r.Some? && c.g.Some? && c.b.Some? }

  /** `parseColor`: a `#` string gives the three two-character hex slices after the
      `#` (each possibly NaN); otherwise the first `rgb(r,g,b)` match gives its three
      numbers; anything else gives `null`. */
  function ParseColor(color: string): Option<Channels>
  {
    if StartsWith(color, "#") then
      var hex := color[1..];
      Some(Channels(ParseIntHex(JsSlice(hex, 0, 2)), ParseIntHex(JsSlice(hex, 2, 4)), ParseIntHex(JsSlice(hex, 4, 6))))
    else
      var m := MatchRgb(color);
      if m.Some? then Some(Channels(Some(m.value.r), Some(m.value.g), Some(m.value.b))) else None
  }

  /** `#RRGGBB` with six hex digits reads as its three bytes `r`, `g`, `b`. */
  lemma ParseHexColor(s: string, r: int, g: int, b: int)
    requires |s| >= 7 && s[0] == '#'
    requires IsHexDigit(s[1]) && IsHexDigit(s[2]) && IsHexDigit(s[3])
    requires IsHexDigit(s[4]) && IsHexDigit(s[5]) && IsHexDigit(s[6])
    requires r == 16 * HexValue(s[1]) + HexValue(s[2])
    requires g == 16 * HexValue(s[3]) + HexValue(s[4])
    requires b == 16 * HexValue(s[5]) + HexValue(s[6])
    ensures ParseColor(s) == Some(Channels(Some(r), Some(g), Some(b)))
  {
    assert StartsWith(s, "#");
    HashChannel(s, 0, r);
    HashChannel(s, 2, g);
    HashChannel(s, 4, b);
    HashColor(s, r, g, b);
  }

  /** A `#` text whose three slices read as `r`, `g` and `b` parses to them. */
  lemma HashColor(s: string, r: int, g: int, b: int)
    requires StartsWith(s, "#")
    requires ParseIntHex(JsSlice(s[1..], 0, 2)) == Some(r)
    requires ParseIntHex(JsSlice(s[1..], 2, 4)) == Some(g)
    requires ParseIntHex(JsSlice(s[1..], 4, 6)) == Some(b)
    ensures ParseColor(s) == Some(Channels(Some(r), Some(g), Some(b)))
  {
  }

  /** The channel read from the hex digits at `i + 1` and `i + 2`. */
  lemma HashChannel(s: string, i: nat, v: int)
    requires StartsWith(s, "#") && i + 3 <= |s| && IsHexDigit(s[i + 1]) && IsHexDigit(s[i + 2])
    requires v == 16 * HexValue(s[i + 1]) + HexValue(s[i + 2])
    ensures ParseIntHex(JsSlice(s[1..], i, i + 2)) == Some(v)
  {
    ParseHexPair(s[1..], i);
  }

  lemma ParseHexPair(hex: string, i: nat)
    requires i + 2 <= |hex| && IsHexDigit(hex[i]) && IsHexDigit(hex[i + 1])
    ensures ParseIntHex(JsSlice(hex, i, i + 2)) == Some(16 * HexValue(hex[i]) + HexValue(hex[i + 1]))
  {
    SliceTwo(hex, i);
    ParseTwoHexDigits(hex[i], hex[i + 1]);
  }

  lemma SliceTwo(s: string, i: nat)
    requires i + 2 <= |s|
    ensures JsSlice(s, i, i + 2) == [s[i], s[i + 1]]
  {
  }

  /** A formatted `rgb(r,g,b)` text reads back as its three channels. */
  lemma ParseRgbColor(c: Rgb)
    ensures ParseColor(RgbString(c)) == Some(Channels(Some(c.r), Some(c.g), Some(c.b)))
  {
    var text := RgbString(c);
    RgbStringParses(c);
    assert text[0] == 'r';
    RgbBranch(text);
  }

  /** A text not starting with `#` parses by its first `rgb(r,g,b)` match. */
  lemma RgbBranch(color: string)
    requires color != [] && color[0] != '#'
    ensures ParseColor(color) ==
      var m := MatchRgb(color);
      if m.Some? then Some(Channels(Some(m.value.r), Some(m.value.g), Some(m.value.b))) else None
  {
    assert !StartsWith(color, "#");
  }

  function Square(n: int): nat
  {
    if n < 0 then (-n) * (-n) else n * n
  }

  /** Squared distance between two fully parsed colours. */
  function ChannelDistance(c: Channels, d: Channels): nat
    requires AllChannels(c) && AllChannels(d)
  {
    Square(c.r.value - d.r.value) + Square(c.g.value - d.g.value) + Square(c.b.value - d.b.value)
  }

  /** `(1 - distance / sqrt(3 * 255^2)) * 100 >= 100 - tolerance` with the square
      roots squared away: `d2` is the squared distance and `195075 = 3 * 255^2`
      (see `SimilaritySqrtForm`). */
  predicate Similar(d2: nat, tolerance: real)
  {
    tolerance >= 0.0 && tolerance * tolerance * 195075.0 >= 10000.0 * d2 as real
  }

  lemma SquareMono(x: real, y: real)
    requires x >= 0.0 && y >= 0.0
    ensures x >= y <==> x * x >= y * y
  {
    if x >= y {
      assert x * x >= x * y;
      assert x * y >= y * y;
    } else {
      MulStrict(y - x, y + x);
      assert (y - x) * (y + x) == y * y - x * x;
    }
  }

  lemma MulStrict(a: real, b: real)
    requires a > 0.0 && b > 0.0
    ensures a * b > 0.0
  {
  }

  /** The squared form is the source's comparison: for any `d` and `m` that are the
      square roots of the squared distance and of `3 * 255^2`, the similarity test
      holds exactly when `Similar` does. */
  lemma SimilaritySqrtForm(d2: nat, tolerance: real, d: real, m: real)
    requires d >= 0.0 && m > 0.0 && d * d == d2 as real && m * m == 195075.0
    ensures (1.0 - d / m) * 100.0 >= 100.0 - tolerance <==> Similar(d2, tolerance)
  {
    var q := d / m;
    assert q * m == d;
    assert (1.0 - q) * 100.0 >= 100.0 - tolerance <==> tolerance >= 100.0 * q;
    assert tolerance >= 100.0 * q <==> tolerance * m >= 100.0 * d by {
      assert (100.0 * q) * m == 100.0 * d;
    }
    if tolerance >= 0.0 {
      SquareMono(tolerance * m, 100.0 * d);
      assert (tolerance * m) * (tolerance * m) == tolerance * tolerance * 195075.0;
      assert (100.0 * d) * (100.0 * d) == 10000.0 * d2 as real;
    } else {
      assert tolerance * m < 0.0;
    }
  }

  /** `compareColors`: if either side does not parse, the two strings must be equal;
      if a channel is NaN the comparison fails; otherwise the colours must be
      similar within the tolerance. */
  function CompareColors(color1: string, color2: string, tolerance: real): bool
  {
    var p1 := ParseColor(color1);
    var p2 := ParseColor(color2);
    if p1.None? || p2.None? then color1 == color2
    else if !AllChannels(p1.value) || !AllChannels(p2.value) then false
    else Similar(ChannelDistance(p1.value, p2.value), tolerance)
  }

  // ---------------------------------------------------------------------------
  // Properties

  /** `===` between two plain data values. Arrays and objects compare by
      reference, and a fixture never shares one with a detection, so they are never
      strictly equal here. */
  predicate StrictEq(x: Value, y: Value)
  {
    match (x, y)
    case (Num(a), Num(b)) => a == b
    case (Str(a), Str(b)) => a == b
    case (Bool(a), Bool(b)) => a == b
    case (Null, Null) => true
    case (Undef, Undef) => true
    case _ => false
  }

  function AbsReal(x: real): real { if x < 0.0 then -x else x }

  predicate IsColorText(s: string) { StartsWith(s, "#") || StartsWith(s, "rgb") }

  /** `validateProperty`: numbers pass when the deviation relative to the expected
      value, in percent, is within the tolerance (an expected 0 makes the deviation
      NaN or infinite, which never passes); colour texts go to `compareColors`;
      other strings compare without regard to ASCII case; anything else strictly. */
  function ValidateProperty(expected: Value, actual: Value, tolerance: real): (valid: bool)
    ensures expected.Num? && actual.Num? && expected.n > 0.0 ==>
      (valid <==> 100.0 * AbsReal(expected.n - actual.n) <= tolerance * expected.n)
    ensures expected.Num? && actual.Num? && expected.n == 0.0 ==> !valid
    ensures expected.Str? && actual.Str? && !IsColorText(expected.s) ==>
      (valid <==> Lower(expected.s) == Lower(actual.s))
    ensures !(expected.Num? && actual.Num?) && !(expected.Str? && actual.Str?) ==> (valid <==> StrictEq(expected, actual))
  {
    if expected.Num? && actual.Num? then
      if expected.n == 0.0 then false
      else
        var deviation := AbsReal(expected.n - actual.n) / expected.n * 100.0;
        assert expected.n > 0.0 ==> (deviation <= tolerance <==> 100.0 * AbsReal(expected.n - actual.n) <= tolerance * expected.n) by {
          if expected.n > 0.0 {
            var q := AbsReal(expected.n - actual.n) / expected.n;
            assert q * expected.n == AbsReal(expected.n - actual.n);
          }
        }
        deviation <= tolerance
    else if expected.Str? && actual.Str? then
      if IsColorText(expected.s) then CompareColors(expected.s, actual.s, tolerance)
      else Lower(expected.s) == Lower(actual.s)
    else StrictEq(expected, actual)
  }

  /** `calculateDeviation`: the relative deviation in percent for two numbers
      (`None` when the expected number is 0 and the result is NaN or infinite), else
      0 for strictly equal values and 100 otherwise. */
  function CalculateDeviation(expected: Value, actual: Value): (deviation: Option<real>)
    ensures deviation.None? <==> expected.Num? && actual.Num? && expected.n == 0.0
    ensures !(expected.Num? && actual.Num?) ==> deviation == Some(if StrictEq(expected, actual) then 0.0 else 100.0)
    ensures expected.Num? && actual.Num? && expected.n > 0.0 ==> deviation.value >= 0.0
  {
    if expected.Num? && actual.Num? then
      if expected.n == 0.0 then None
      else Some(AbsReal(expected.n - actual.n) / expected.n * 100.0)
    else Some(if StrictEq(expected, actual) then 0.0 else 100.0)
  }

  /** The examples of the numeric rule: 108 against 100 passes at tolerance 10, 112
      fails, and 10 against 12 deviates by 50/3 percent and fails. */
  lemma NumericExamples()
    ensures ValidateProperty(Num(100.0), Num(108.0), 10.0)
    ensures !ValidateProperty(Num(100.0), Num(112.0), 10.0)
    ensures CalculateDeviation(Num(12.0), Num(10.0)) == Some(50.0 / 3.0)
    ensures !ValidateProperty(Num(12.0), Num(10.0), 10.0)
  {
  }

  /** A colour that parses fully matches itself exactly when the tolerance is not
      negative. */
  lemma IdenticalColors(s: string, tolerance: real)
    requires IsColorText(s) && ParseColor(s).Some? && AllChannels(ParseColor(s).value)
    ensures ValidateProperty(Str(s), Str(s), tolerance) <==> tolerance >= 0.0
  {
  }

  /** The largest squared distance is similar only at a tolerance of 100 or more. */
  lemma SimilarAtMaximum(tolerance: real)
    ensures Similar(195075, tolerance) <==> tolerance >= 100.0
  {
    if tolerance >= 0.0 {
      SquareMono(tolerance, 100.0);
    }
  }

  /** `#` followed by six copies of `d`. */
  predicate Uniform(s: string, d: char)
  {
    |s| == 7 && s[0] == '#' && forall i :: 1 <= i < 7 ==> s[i] == d
  }

  /** Black (`#000000`) against white (`#FFFFFF`) passes only at a tolerance of 100
      or more. */
  lemma BlackWhite(black: string, white: string, tolerance: real)
    requires Uniform(black, '0') && Uniform(white, 'F')
    ensures ValidateProperty(Str(black), Str(white), tolerance) <==> tolerance >= 100.0
  {
    var p1 := Channels(Some(0), Some(0), Some(0));
    var p2 := Channels(Some(255), Some(255), Some(255));
    assert IsColorText(black) && ParseColor(black) == Some(p1) by {
      UniformParses(black, '0');
      assert 17 * HexValue('0') == 0;
    }
    assert ParseColor(white) == Some(p2) by {
      UniformParses(white, 'F');
      assert 17 * HexValue('F') == 255;
    }
    ExtremesCompare(black, white, tolerance);
  }

  /** A colour text that parses to black against one that parses to white. */
  lemma ExtremesCompare(black: string, white: string, tolerance: real)
    requires IsColorText(black)
    requires ParseColor(black) == Some(Channels(Some(0), Some(0), Some(0)))
    requires ParseColor(white) == Some(Channels(Some(255), Some(255), Some(255)))
    ensures ValidateProperty(Str(black), Str(white), tolerance) <==> tolerance >= 100.0
  {
    var p1 := Channels(Some(0), Some(0), Some(0));
    var p2 := Channels(Some(255), Some(255), Some(255));
    var d := ChannelDistance(p1, p2);
    assert d == 195075 by {
      assert Square(0 - 255) == 65025;
    }
    CompareParsed(black, white, p1, p2, tolerance);
    SimilarAtMaximum(tolerance);
    ColorTextGoesToCompare(black, white, tolerance);
  }

  /** `#dddddd` is a colour text and parses to the grey with both hex digits `d`. */
  lemma UniformParses(s: string, d: char)
    requires Uniform(s, d) && IsHexDigit(d)
    ensures IsColorText(s)
    ensures ParseColor(s) == Some(Channels(Some(17 * HexValue(d)), Some(17 * HexValue(d)), Some(17 * HexValue(d))))
  {
    assert s[..1] == "#";
    assert s[1] == d && s[2] == d && s[3] == d && s[4] == d && s[5] == d && s[6] == d;
    var v := 17 * HexValue(d);
    ParseHexColor(s, v, v, v);
  }

  /** A colour text is compared as a colour. */
  lemma ColorTextGoesToCompare(e: string, a: string, tolerance: real)
    requires IsColorText(e)
    ensures ValidateProperty(Str(e), Str(a), tolerance) == CompareColors(e, a, tolerance)
  {
  }

  /** Two fully parsed colours compare by their squared distance. */
  lemma CompareParsed(c1: string, c2: string, p1: Channels, p2: Channels, tolerance: real)
    requires ParseColor(c1) == Some(p1) && ParseColor(c2) == Some(p2)
    requires AllChannels(p1) && AllChannels(p2)
    ensures CompareColors(c1, c2, tolerance) == Similar(ChannelDistance(p1, p2), tolerance)
  {
  }

  /** When either side of a colour comparison does not parse, the comparison is
      plain string equality. */
  lemma ColorFallback(e: string, a: string, tolerance: real)
    requires IsColorText(e) && (ParseColor(e).None? || ParseColor(a).None?)
    ensures ValidateProperty(Str(e), Str(a), tolerance) <==> e == a
  {
  }

  /** `getNestedProperty`: `path.split('.')` applied key by key with `?.[key]`. */
  function GetNestedProperty(obj: Value, path: string): Value
  {
    GetPath(obj, Split(path, '.'))
  }

  /** A path without a dot is one property lookup; a dotted path looks up its first
      segment and continues with the rest. */
  lemma GetNestedPropertySteps(obj: Value, key: string, rest: string)
    requires '.' !in key
    ensures GetNestedProperty(obj, key) == Prop(obj, key)
    ensures GetNestedProperty(obj, key + "." + rest) == GetNestedProperty(Prop(obj, key), rest)
  {
    assert Split(key, '.') == [key];
    assert [key][1..] == [];
    assert GetPath(obj, [key]) == GetPath(Prop(obj, key), []);
    var path := key + "." + rest;
    assert '.' in path by { assert path[|key|] == '.'; }
    assert IndexOf(path, '.') == |key| by {
      assert path[|key|] == '.';
      forall j | 0 <= j < |key| ensures path[j] != '.' {
        assert path[j] == key[j];
      }
      IndexOfFirst(path, '.', |key|);
    }
    assert path[..|key|] == key;
    assert path[|key| + 1..] == rest;
  }

  // ---------------------------------------------------------------------------
  // Fixtures and matching

  /** A component a fixture expects: its type, optionally the state it shows and
      its position, the properties expected of it and per-property tolerances
      (`tolerance || {}`: a fixture without tolerances has none). */
  datatype ExpectedComponent = ExpectedComponent(
    kind: string,
    state: Option<string>,
    bounds: Option<Region>,
    properties: Dict<Value>,
    tolerance: Dict<real>)

  /** A component the detector reported: its type, its box and its property bag. */
  datatype Extracted = Extracted(kind: string, bounds: Region, properties: Value)

  datatype Viewport = Viewport(width: nat, height: nat, kind: string)

  datatype TestCase = TestCase(
    id: string,
    name: string,
    description: string,
    imagePath: string,
    viewport: Viewport,
    expectedComponents: seq<ExpectedComponent>)

  /** The test of `findMatchingComponent`: the same type and, when the fixture gives
      a position, less than 50 pixels away along each axis. */
  predicate Matches(expected: ExpectedComponent, c: Extracted)
  {
    c.kind == expected.kind &&
    (expected.bounds.Some? ==>
      -50 < c.bounds.x - expected.bounds.value.x < 50 && -50 < c.bounds.y - expected.bounds.value.y < 50)
  }

  /** `findMatchingComponent`: `extracted.find(...)` with the test above. */
  function FindMatchingComponent(expected: ExpectedComponent, extracted: seq<Extracted>): Option<Extracted>
  {
    if extracted == [] then None
    else if Matches(expected, extracted[0]) then Some(extracted[0])
    else FindMatchingComponent(expected, extracted[1..])
  }

  /** The search gives the first matching component, and nothing only when none
      matches. */
  lemma {:induction false} FindMatchingFirst(expected: ExpectedComponent, extracted: seq<Extracted>)
    ensures FindMatchingComponent(expected, extracted).None? <==>
      forall i :: 0 <= i < |extracted| ==> !Matches(expected, extracted[i])
    ensures FindMatchingComponent(expected, extracted).Some? ==>
      exists i :: 0 <= i < |extracted| && extracted[i] == FindMatchingComponent(expected, extracted).value &&
        Matches(expected, extracted[i]) && forall j :: 0 <= j < i ==> !Matches(expected, extracted[j])
  {
    if extracted != [] && !Matches(expected, extracted[0]) {
      FindMatchingFirst(expected, extracted[1..]);
      if FindMatchingComponent(expected, extracted).Some? {
        var i :| 0 <= i < |extracted[1..]| && extracted[1..][i] == FindMatchingComponent(expected, extracted).value &&
          Matches(expected, extracted[1..][i]) && forall j :: 0 <= j < i ==> !Matches(expected, extracted[1..][j]);
        assert extracted[i + 1] == extracted[1..][i];
        forall j | 0 <= j < i + 1 ensures !Matches(expected, extracted[j]) {
          if j > 0 {
            assert extracted[j] == extracted[1..][j - 1];
          }
        }
      }
    }
  }

  // ---------------------------------------------------------------------------
  // Validating one component

  /** `tolerances[property] || 10`: a missing or zero tolerance is 10. */
  function ToleranceFor(tolerances: Dict<real>, property: string): (t: real)
    ensures t != 0.0
    ensures Lookup(tolerances, property).Some? && Lookup(tolerances, property).value != 0.0 ==>
      t == Lookup(tolerances, property).value
    ensures Lookup(tolerances, property).None? || Lookup(tolerances, property).value == 0.0 ==> t == 10.0
  {
    var t := Lookup(tolerances, property);
    if t.Some? && t.value != 0.0 then t.value else 10.0
  }

  datatype PropertyValidation = PropertyValidation(
    expected: Value,
    actual: Value,
    tolerance: real,
    valid: bool,
    deviation: Option<real>)

  /** The record kept for one expected property. */
  function ValidationOf(entry: (string, Value), actual: Extracted, tolerances: Dict<real>): PropertyValidation
  {
    var value := GetNestedProperty(actual.properties, entry.0);
    var tolerance := ToleranceFor(tolerances, entry.0);
    PropertyValidation(entry.1, value, tolerance, ValidateProperty(entry.1, value, tolerance),
                       CalculateDeviation(entry.1, value))
  }

  /** The outcome for one expected component: validated against a match, or not
      detected. */
  datatype Detail =
    | Validated(expected: ExpectedComponent, actual: Extracted, passed: bool,
                propertyValidations: Dict<PropertyValidation>)
    | NotDetected(expected: ExpectedComponent, reason: string)

  function DetailPassed(d: Detail): bool
  {
    d.Validated? && d.passed
  }

  /** Every expected property of `expected` validates against `actual`. */
  predicate AllValid(props: Dict<Value>, actual: Extracted, tolerances: Dict<real>)
  {
    forall j :: 0 <= j < |props| ==> ValidationOf(props[j], actual, tolerances).valid
  }

  /** `d` is the record `validateComponentProperties` makes: it passes exactly when
      every expected property validates, it holds one record per property name, and
      (with the property names distinct, as in any object) each record is that
      property's validation. */
  predicate ValidationFor(d: Detail, expected: ExpectedComponent, actual: Extracted, tolerances: Dict<real>)
  {
    d.Validated? && d.expected == expected && d.actual == actual &&
    (d.passed <==> AllValid(expected.properties, actual, tolerances)) &&
    Keys(d.propertyValidations) == Keys(expected.properties) &&
    (DistinctKeys(expected.properties) ==>
      forall j :: 0 <= j < |expected.properties| ==>
        Lookup(d.propertyValidations, expected.properties[j].0) ==
          Some(ValidationOf(expected.properties[j], actual, tolerances)))
  }

  predicate RecordsFor(records: Dict<PropertyValidation>, props: Dict<Value>, n: nat, actual: Extracted,
                       tolerances: Dict<real>)
    requires n <= |props|
  {
    Keys(records) == Keys(props[..n]) &&
    (DistinctKeys(props) ==>
      forall j :: 0 <= j < n ==> Lookup(records, props[j].0) == Some(ValidationOf(props[j], actual, tolerances)))
  }

  lemma RecordsForStep(records: Dict<PropertyValidation>, props: Dict<Value>, n: nat, actual: Extracted,
                       tolerances: Dict<real>)
    requires n < |props| && RecordsFor(records, props, n, actual, tolerances)
    ensures RecordsFor(Store(records, props[n].0, ValidationOf(props[n], actual, tolerances)), props, n + 1,
                       actual, tolerances)
  {
    var v := ValidationOf(props[n], actual, tolerances);
    var records' := Store(records, props[n].0, v);
    StoreShape(records, props[n].0, v);
    assert props[..n + 1] == props[..n] + [props[n]];
    KeysSnoc(props[..n], props[n]);
    if DistinctKeys(props) {
      forall j | 0 <= j < n + 1 ensures Lookup(records', props[j].0) == Some(ValidationOf(props[j], actual, tolerances)) {
        LookupStore(records, props[n].0, v, props[j].0);
      }
    }
  }

  /** `validateComponentProperties`: one record per expected property, each
      comparing the expected value with the value at that path of the component's
      properties under that property's tolerance; the component passes when every
      property does. */
  method ValidateComponentProperties(expected: ExpectedComponent, actual: Extracted, tolerances: Dict<real>)
    returns (validation: Detail)
    ensures ValidationFor(validation, expected, actual, tolerances)
  {
    var props := expected.properties;
    var passed := true;
    var records: Dict<PropertyValidation> := [];
    for n := 0 to |props|
      invariant passed <==> forall j :: 0 <= j < n ==> ValidationOf(props[j], actual, tolerances).valid
      invariant RecordsFor(records, props, n, actual, tolerances)
    {
      var (property, expectedValue) := props[n];
      var actualValue := GetNestedProperty(actual.properties, property);
      var tolerance := ToleranceFor(tolerances, property);
      var isValid := ValidateProperty(expectedValue, actualValue, tolerance);
      RecordsForStep(records, props, n, actual, tolerances);
      records := Store(records, property,
        PropertyValidation(expectedValue, actualValue, tolerance, isValid, CalculateDeviation(expectedValue, actualValue)));
      if !isValid {
        passed := false;
      }
    }
    assert props[..|props|] == props;
    validation := Validated(expected, actual, passed, records);
  }

  // ---------------------------------------------------------------------------
  // Validating a test case

  datatype TestResult = TestResult(testCaseId: string, passed: nat, failed: nat, accuracy: real, details: seq<Detail>)

  const NotDetectedReason := "Component not detected"

  /** `d` is the detail `validateTestCase` records for `expected`: a validation
      against the first match, or "not detected" when nothing matches. */
  predicate DetailFor(d: Detail, expected: ExpectedComponent, extracted: seq<Extracted>)
  {
    var m := FindMatchingComponent(expected, extracted);
    (m.None? ==> d == NotDetected(expected, NotDetectedReason)) &&
    (m.Some? ==> ValidationFor(d, expected, m.value, expected.tolerance))
  }

  predicate DetailsFor(details: seq<Detail>, expected: seq<ExpectedComponent>, extracted: seq<Extracted>)
  {
    |details| == |expected| &&
    forall i :: 0 <= i < |details| ==> DetailFor(details[i], expected[i], extracted)
  }

  /** How many details passed. */
  function PassedCount(details: seq<Detail>): nat
  {
    if details == [] then 0
    else PassedCount(details[..|details| - 1]) + (if DetailPassed(details[|details| - 1]) then 1 else 0)
  }

  /** `total > 0 ? passed / total * 100 : 0`. */
  function Accuracy(passed: nat, total: nat): real
  {
    if total > 0 then passed as real / total as real * 100.0 else 0.0
  }

  /** The accuracy is a percentage; it is 100 exactly when every component passed and
      0 exactly when none did. */
  lemma AccuracyBounds(passed: nat, total: nat)
    requires passed <= total
    ensures 0.0 <= Accuracy(passed, total) <= 100.0
    ensures total > 0 ==> (Accuracy(passed, total) == 100.0 <==> passed == total)
    ensures Accuracy(passed, total) == 0.0 <==> passed == 0
  {
    if total > 0 {
      var q := passed as real / total as real;
      assert q * total as real == passed as real;
    }
  }

  lemma {:induction false} PassedCountBound(details: seq<Detail>)
    ensures PassedCount(details) <= |details|
  {
    if details != [] {
      PassedCountBound(details[..|details| - 1]);
    }
  }

  lemma DetailsAppend(details: seq<Detail>, expected: seq<ExpectedComponent>, extracted: seq<Extracted>, d: Detail, n: nat)
    requires n < |expected| && DetailsFor(details, expected[..n], extracted)
    requires DetailFor(d, expected[n], extracted)
    ensures DetailsFor(details + [d], expected[..n + 1], extracted)
    ensures PassedCount(details + [d]) == PassedCount(details) + (if DetailPassed(d) then 1 else 0)
  {
    assert (details + [d])[..|details|] == details;
  }

  /** `results` is what `validateTestCase` reports for `testCase`: the test case's
      id, one detail per expected component in order, the passed and failed counts
      adding up to the number of expected components, and the accuracy. */
  predicate ResultFor(results: TestResult, testCase: TestCase, extracted: seq<Extracted>)
  {
    results.testCaseId == testCase.id &&
    DetailsFor(results.details, testCase.expectedComponents, extracted) &&
    results.passed == PassedCount(results.details) &&
    results.passed + results.failed == |testCase.expectedComponents| &&
    results.accuracy == Accuracy(results.passed, |testCase.expectedComponents|)
  }

  /** A reported accuracy is a percentage. */
  lemma ResultAccuracy(results: TestResult, testCase: TestCase, extracted: seq<Extracted>)
    requires ResultFor(results, testCase, extracted)
    ensures 0.0 <= results.accuracy <= 100.0
    ensures results.accuracy == 100.0 <==> testCase.expectedComponents != [] && results.failed == 0
  {
    AccuracyBounds(results.passed, |testCase.expectedComponents|);
  }

  /** `validateTestCase`: one detail per expected component, in order; each passes
      or fails, and the accuracy is the passed share in percent (0 with no expected
      components). Matched components are not used up: every expected component is
      matched against the whole list. */
  method ValidateTestCase(testCase: TestCase, extracted: seq<Extracted>) returns (results: TestResult)
    ensures ResultFor(results, testCase, extracted)
  {
    var expected := testCase.expectedComponents;
    var passed: nat := 0;
    var failed: nat := 0;
    var details: seq<Detail> := [];
    for n := 0 to |expected|
      invariant DetailsFor(details, expected[..n], extracted)
      invariant passed == PassedCount(details) && passed + failed == n
    {
      var e := expected[n];
      var matching := FindMatchingComponent(e, extracted);
      var d: Detail;
      if matching.Some? {
        d := ValidateComponentProperties(e, matching.value, e.tolerance);
        if d.passed {
          passed := passed + 1;
        } else {
          failed := failed + 1;
        }
      } else {
        failed := failed + 1;
        d := NotDetected(e, NotDetectedReason);
      }
      DetailsAppend(details, expected, extracted, d, n);
      details := details + [d];
    }
    assert expected[..|expected|] == expected;
    var total := passed + failed;
    var accuracy := if total > 0 then passed as real / total as real * 100.0 else 0.0;
    results := TestResult(testCase.id, passed, failed, accuracy, details);
  }

  /** Two expected components of the same type that give no position are matched to
      the same detected component: matching never uses a component up. */
  lemma {:induction false} SameMatchWithoutBounds(e1: ExpectedComponent, e2: ExpectedComponent, extracted: seq<Extracted>)
    requires e1.kind == e2.kind && e1.bounds.None? && e2.bounds.None?
    ensures FindMatchingComponent(e1, extracted) == FindMatchingComponent(e2, extracted)
  {
    if extracted != [] {
      SameMatchWithoutBounds(e1, e2, extracted[1..]);
    }
  }

  // ---------------------------------------------------------------------------
  // The fixture

  function Component(kind: string, state: Option<string>, properties: Dict<Value>, tolerance: Dict<real>): ExpectedComponent
  {
    ExpectedComponent(kind, state, None, properties, tolerance)
  }

  /** The three test cases the application ships with. */
  const TestCases: seq<TestCase> := [
    TestCase("desktop_components", "Desktop Multi-Component Interface",
      "Various UI components on desktop viewport", "/test-images/desktop-components.png",
      Viewport(1920, 1080, "desktop"),
      [ Component("button", None,
          [ ("backgroundColor", Str("#3B82F6")), ("color", Str("#FFFFFF")), ("borderRadius", Num(8.0)),
            ("paddingX", Num(16.0)), ("paddingY", Num(8.0)), ("fontSize", Num(14.0)), ("fontWeight", Num(500.0)) ],
          [ ("backgroundColor", 10.0), ("borderRadius", 25.0), ("padding", 20.0), ("fontSize", 15.0) ]),
        Component("card", None,
          [ ("backgroundColor", Str("#FFFFFF")), ("borderRadius", Num(12.0)), ("padding", Num(24.0)),
            ("shadow", Str("0 4px 6px rgba(0,0,0,0.1)")), ("border", Str("1px solid #E5E7EB")) ],
          []) ]),
    TestCase("button_states", "Button State Variations",
      "Default, hover, and active button states", "/test-images/button-states.png",
      Viewport(800, 400, "tablet"),
      [ Component("button", Some("default"), [ ("backgroundColor", Str("#3B82F6")), ("color", Str("#FFFFFF")) ], []),
        Component("button", Some("hover"), [ ("backgroundColor", Str("#2563EB")), ("color", Str("#FFFFFF")) ], []),
        Component("button", Some("active"), [ ("backgroundColor", Str("#1D4ED8")), ("color", Str("#FFFFFF")) ], []) ]),
    TestCase("mobile_layout", "Mobile Responsive Layout",
      "Components adapted for mobile viewport", "/test-images/mobile-layout.png",
      Viewport(375, 667, "mobile"),
      [ Component("button", None, [ ("width", Str("100%")), ("paddingY", Num(12.0)), ("fontSize", Num(16.0)) ], []),
        Component("input", None,
          [ ("width", Str("100%")), ("paddingX", Num(12.0)), ("paddingY", Num(8.0)), ("borderRadius", Num(6.0)) ],
          []) ])
  ]

  /** In the button-states fixture all three expected buttons are compared with the
      same detected button, whatever the detector reports. */
  lemma ButtonStatesShareMatch(extracted: seq<Extracted>)
    ensures FindMatchingComponent(TestCases[1].expectedComponents[0], extracted) ==
            FindMatchingComponent(TestCases[1].expectedComponents[1], extracted)
    ensures FindMatchingComponent(TestCases[1].expectedComponents[1], extracted) ==
            FindMatchingComponent(TestCases[1].expectedComponents[2], extracted)
  {
    var e := TestCases[1].expectedComponents;
    SameMatchWithoutBounds(e[0], e[1], extracted);
    SameMatchWithoutBounds(e[1], e[2], extracted);
  }

  /** The fixture's identifiers are distinct, so looking a test case up by id is
      unambiguous. */
  lemma TestCaseIdsDistinct()
    ensures forall i, j :: 0 <= i < j < |TestCases| ==> TestCases[i].id != TestCases[j].id
  {
  }
}
