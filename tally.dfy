/** Colour histograms. Both detectors count colours in a JavaScript `Map` keyed by
    the text `rgb(r,g,b)`: `counts.set(c, (counts.get(c) || 0) + 1)`. A `Map`
    iterates in first-insertion order, so the histogram is a list of entries in
    the order each colour was first seen. Keys are kept as `Rgb` triples, which
    `Colors.RgbStringInjective` shows to be interchangeable with their texts. */
module Tally {
  import opened Wrappers
  import opened Colors
  import opened Sorting

  datatype Entry = Entry(color: Rgb, count: nat)

  /** The colours reported for a region: a dominant colour and a short palette, both
      as `rgb(r,g,b)` texts. */
  datatype ColorSummary = ColorSummary(dominant: string, palette: seq<string>)

  /** One `set(c, (get(c) || 0) + 1)`. */
  function Increment(counts: seq<Entry>, c: Rgb): seq<Entry>
  {
    if counts == [] then [Entry(c, 1)]
    else if counts[0].color == c then [Entry(c, counts[0].count + 1)] + counts[1..]
    else [counts[0]] + Increment(counts[1..], c)
  }

  /** Counting every colour of `s`, front to back, on top of `acc`. */
  function Histogram(acc: seq<Entry>, s: seq<Rgb>): seq<Entry>
    decreases |s|
  {
    if s == [] then acc else Histogram(Increment(acc, s[0]), s[1..])
  }

  /** `counts.get(c) || 0`. */
  function CountOf(counts: seq<Entry>, c: Rgb): nat
  {
    if counts == [] then 0
    else if counts[0].color == c then counts[0].count
    else CountOf(counts[1..], c)
  }

  predicate DistinctColors(counts: seq<Entry>)
  {
    forall i, j :: 0 <= i < j < |counts| ==> counts[i].color != counts[j].color
  }

  predicate PositiveCounts(counts: seq<Entry>)
  {
    forall i :: 0 <= i < |counts| ==> counts[i].count >= 1
  }

  function Colours(counts: seq<Entry>): set<Rgb>
  {
    set i | 0 <= i < |counts| :: counts[i].color
  }

  function Total(counts: seq<Entry>): nat
  {
    if counts == [] then 0 else counts[0].count + Total(counts[1..])
  }

  lemma ColoursCons(counts: seq<Entry>)
    requires counts != []
    ensures Colours(counts) == {counts[0].color} + Colours(counts[1..])
  {
    forall x | x in Colours(counts) ensures x in {counts[0].color} + Colours(counts[1..]) {
      var i :| 0 <= i < |counts| && counts[i].color == x;
      if i > 0 {
        assert counts[1..][i - 1].color == x;
      }
    }
    forall x | x in Colours(counts[1..]) ensures x in Colours(counts) {
      var i :| 0 <= i < |counts[1..]| && counts[1..][i].color == x;
      assert counts[i + 1].color == x;
    }
  }

  /** One count adds one to the counted colour, keeps the others, keeps colours
      distinct and counts positive, and adds the colour to the keys. */
  lemma IncrementProps(counts: seq<Entry>, c: Rgb)
    ensures forall d :: CountOf(Increment(counts, c), d) == CountOf(counts, d) + (if d == c then 1 else 0)
    ensures Colours(Increment(counts, c)) == Colours(counts) + {c}
    ensures DistinctColors(counts) ==> DistinctColors(Increment(counts, c))
    ensures PositiveCounts(counts) ==> PositiveCounts(Increment(counts, c))
    ensures Total(Increment(counts, c)) == Total(counts) + 1
  {
    IncrementCounts(counts, c);
    IncrementColours(counts, c);
    if DistinctColors(counts) {
      IncrementDistinct(counts, c);
    }
    IncrementPositive(counts, c);
  }

  lemma {:induction false} IncrementCounts(counts: seq<Entry>, c: Rgb)
    ensures forall d :: CountOf(Increment(counts, c), d) == CountOf(counts, d) + (if d == c then 1 else 0)
    ensures Total(Increment(counts, c)) == Total(counts) + 1
  {
    if counts != [] && counts[0].color != c {
      IncrementCounts(counts[1..], c);
      assert Increment(counts, c)[1..] == Increment(counts[1..], c);
    }
  }

  lemma {:induction false} IncrementColours(counts: seq<Entry>, c: Rgb)
    ensures Colours(Increment(counts, c)) == Colours(counts) + {c}
  {
    var r := Increment(counts, c);
    ColoursCons(r);
    if counts != [] {
      ColoursCons(counts);
      if counts[0].color == c {
        assert r[1..] == counts[1..];
      } else {
        IncrementColours(counts[1..], c);
        assert r[1..] == Increment(counts[1..], c);
      }
    }
  }

  lemma {:induction false} IncrementDistinct(counts: seq<Entry>, c: Rgb)
    requires DistinctColors(counts)
    ensures DistinctColors(Increment(counts, c))
  {
    var r := Increment(counts, c);
    if counts != [] && counts[0].color != c {
      assert DistinctColors(counts[1..]);
      IncrementDistinct(counts[1..], c);
      IncrementColours(counts[1..], c);
      assert r[1..] == Increment(counts[1..], c);
      ColoursCons(counts);
      forall i, j | 0 <= i < j < |r| ensures r[i].color != r[j].color {
        if i == 0 {
          assert r[j].color == r[1..][j - 1].color;
          assert r[j].color in Colours(r[1..]);
        }
      }
    }
  }

  lemma {:induction false} IncrementPositive(counts: seq<Entry>, c: Rgb)
    ensures PositiveCounts(counts) ==> PositiveCounts(Increment(counts, c))
  {
    if counts != [] && counts[0].color != c {
      IncrementPositive(counts[1..], c);
      assert Increment(counts, c)[1..] == Increment(counts[1..], c);
    }
  }

  /** The histogram adds to `acc` every colour exactly as often as it occurs in `s`,
      keeps colours distinct and counts positive, and its counts grow by `|s|`. */
  lemma {:induction false} HistogramProps(acc: seq<Entry>, s: seq<Rgb>)
    ensures forall c :: CountOf(Histogram(acc, s), c) == CountOf(acc, c) + multiset(s)[c]
    ensures forall c :: c in Colours(Histogram(acc, s)) <==> c in Colours(acc) || c in s
    ensures DistinctColors(acc) ==> DistinctColors(Histogram(acc, s))
    ensures PositiveCounts(acc) ==> PositiveCounts(Histogram(acc, s))
    ensures Total(Histogram(acc, s)) == Total(acc) + |s|
    decreases |s|
  {
    if s != [] {
      IncrementProps(acc, s[0]);
      HistogramProps(Increment(acc, s[0]), s[1..]);
      assert s == [s[0]] + s[1..];
    }
  }

  /** Counting `a` and then `b` is counting `a + b`. */
  lemma {:induction false} HistogramAppend(acc: seq<Entry>, a: seq<Rgb>, b: seq<Rgb>)
    ensures Histogram(acc, a + b) == Histogram(Histogram(acc, a), b)
    decreases |a|
  {
    if a == [] {
      assert a + b == b;
    } else {
      assert (a + b)[0] == a[0];
      assert (a + b)[1..] == a[1..] + b;
      HistogramAppend(Increment(acc, a[0]), a[1..], b);
    }
  }

  /** Counting one more colour at the end is one more increment. */
  lemma HistogramSnoc(acc: seq<Entry>, a: seq<Rgb>, c: Rgb)
    ensures Histogram(acc, a + [c]) == Increment(Histogram(acc, a), c)
  {
    HistogramAppend(acc, a, [c]);
    assert [c][1..] == [];
  }

  /** In a histogram with distinct colours, each entry's count is the count looked up
      for its colour. */
  lemma {:induction false} CountOfEntry(counts: seq<Entry>, i: nat)
    requires DistinctColors(counts) && i < |counts|
    ensures CountOf(counts, counts[i].color) == counts[i].count
  {
    if i > 0 {
      assert DistinctColors(counts[1..]);
      CountOfEntry(counts[1..], i - 1);
    }
  }

  function CountKey(e: Entry): int
  {
    e.count
  }

  /** `Array.from(counts.entries()).sort((a, b) => b[1] - a[1])` over the histogram
      of `s`. */
  function Ranked(s: seq<Rgb>): seq<Entry>
  {
    SortDesc(Histogram([], s), CountKey)
  }

  /** The first `k` entries of the ranking (`slice(0, k)`). */
  function Top(s: seq<Rgb>, k: nat): seq<Entry>
  {
    var r := Ranked(s);
    if |r| <= k then r else r[..k]
  }

  /** The ranking lists each colour of `s` once, with its exact number of
      occurrences, in non-increasing order of count. */
  lemma RankedProps(s: seq<Rgb>)
    ensures DistinctColors(Ranked(s))
    ensures forall i :: 0 <= i < |Ranked(s)| ==>
      Ranked(s)[i].color in s && Ranked(s)[i].count == multiset(s)[Ranked(s)[i].color]
    ensures forall c :: c in s ==> exists i :: 0 <= i < |Ranked(s)| && Ranked(s)[i].color == c
    ensures SortedDesc(Ranked(s), CountKey)
  {
    var h := Histogram([], s);
    HistogramProps([], s);
    SortDescProps(h, CountKey);
    PermutedDistinct(h, Ranked(s));
    PermutedCounts(s, h, Ranked(s));
    PermutedCovers(s, h, Ranked(s));
  }

  lemma PermutedDistinct(h: seq<Entry>, r: seq<Entry>)
    requires DistinctColors(h) && multiset(r) == multiset(h)
    ensures DistinctColors(r)
  {
    forall i, j | 0 <= i < j < |r| ensures r[i].color != r[j].color {
      DistinctSorted(h, r, i, j);
    }
  }

  lemma PermutedCounts(s: seq<Rgb>, h: seq<Entry>, r: seq<Entry>)
    requires DistinctColors(h) && multiset(r) == multiset(h)
    requires forall c :: CountOf(h, c) == multiset(s)[c]
    requires forall c :: c in Colours(h) <==> c in s
    ensures forall i :: 0 <= i < |r| ==> r[i].color in s && r[i].count == multiset(s)[r[i].color]
  {
    forall i | 0 <= i < |r| ensures r[i].color in s && r[i].count == multiset(s)[r[i].color] {
      assert r[i] in multiset(h);
      var m :| 0 <= m < |h| && h[m] == r[i];
      assert r[i].color in Colours(h);
      CountOfEntry(h, m);
    }
  }

  lemma PermutedCovers(s: seq<Rgb>, h: seq<Entry>, r: seq<Entry>)
    requires multiset(r) == multiset(h)
    requires forall c :: c in Colours(h) <==> c in s
    ensures forall c :: c in s ==> exists i :: 0 <= i < |r| && r[i].color == c
  {
    forall c | c in s ensures exists i :: 0 <= i < |r| && r[i].color == c {
      assert c in Colours(h);
      var m :| 0 <= m < |h| && h[m].color == c;
      assert h[m] in multiset(r);
      var i :| 0 <= i < |r| && r[i] == h[m];
    }
  }

  /** The top `k` holds at most `k` distinct colours, each occurring in `s` and
      carrying its exact number of occurrences, in non-increasing order of count;
      a colour of `s` that is left out occurs no more often than the last one kept. */
  lemma TopProps(s: seq<Rgb>, k: nat)
    requires k >= 1
    ensures |Top(s, k)| <= k
    ensures DistinctColors(Top(s, k))
    ensures forall i :: 0 <= i < |Top(s, k)| ==>
      Top(s, k)[i].color in s && Top(s, k)[i].count == multiset(s)[Top(s, k)[i].color]
    ensures forall i, j :: 0 <= i < j < |Top(s, k)| ==> Top(s, k)[i].count >= Top(s, k)[j].count
    ensures forall c :: c in s && c !in Colours(Top(s, k)) ==>
      |Top(s, k)| == k && multiset(s)[c] <= Top(s, k)[k - 1].count
  {
    RankedProps(s);
    var r := Ranked(s);
    PrefixProps(s, r, Top(s, k), k);
  }

  /** What `TopProps` says, for the first `k` entries `t` of any list `r` with the
      properties of the ranking. */
  lemma PrefixProps(s: seq<Rgb>, r: seq<Entry>, t: seq<Entry>, k: nat)
    requires k >= 1 && t == (if |r| <= k then r else r[..k])
    requires DistinctColors(r) && SortedDesc(r, CountKey)
    requires forall i :: 0 <= i < |r| ==> r[i].color in s && r[i].count == multiset(s)[r[i].color]
    requires forall c :: c in s ==> exists i :: 0 <= i < |r| && r[i].color == c
    ensures DistinctColors(t)
    ensures forall i :: 0 <= i < |t| ==> t[i].color in s && t[i].count == multiset(s)[t[i].color]
    ensures forall i, j :: 0 <= i < j < |t| ==> t[i].count >= t[j].count
    ensures forall c :: c in s && c !in Colours(t) ==> |t| == k && multiset(s)[c] <= t[k - 1].count
  {
    assert forall i :: 0 <= i < |t| ==> t[i] == r[i];
    forall i, j | 0 <= i < j < |t| ensures t[i].count >= t[j].count {
      assert CountKey(r[i]) >= CountKey(r[j]);
    }
    forall c | c in s && c !in Colours(t)
      ensures |t| == k && multiset(s)[c] <= t[k - 1].count
    {
      var i :| 0 <= i < |r| && r[i].color == c;
      LeftOutAfterPrefix(r, t, k, i);
    }
  }

  /** An entry of `r` whose colour is not among the first `k` lies after them, and
      the prefix then has `k` entries. */
  lemma LeftOutAfterPrefix(r: seq<Entry>, t: seq<Entry>, k: nat, i: nat)
    requires k >= 1 && t == (if |r| <= k then r else r[..k]) && SortedDesc(r, CountKey)
    requires i < |r| && r[i].color !in Colours(t)
    ensures |t| == k && r[i].count <= t[k - 1].count
  {
    assert forall j :: 0 <= j < |t| ==> t[j] == r[j] && t[j].color in Colours(t);
    assert CountKey(r[k - 1]) >= CountKey(r[i]);
  }

  /** A permutation of a list with distinct colours has distinct colours. */
  lemma DistinctSorted(h: seq<Entry>, r: seq<Entry>, i: nat, j: nat)
    requires DistinctColors(h) && multiset(r) == multiset(h) && i < j < |r|
    ensures r[i].color != r[j].color
  {
    assert r[i] in multiset(h) && r[j] in multiset(h);
    var a :| 0 <= a < |h| && h[a] == r[i];
    var b :| 0 <= b < |h| && h[b] == r[j];
    OnceInDistinct(h, a);
    EqualPairCountsTwice(r, i, j);
  }

  lemma EqualPairCountsTwice<T>(r: seq<T>, i: nat, j: nat)
    requires i < j < |r|
    ensures r[i] == r[j] ==> multiset(r)[r[i]] >= 2
  {
    var rest := r[..i] + r[i + 1..];
    assert r == r[..i] + [r[i]] + r[i + 1..];
    assert rest[j - 1] == r[j];
    assert multiset(r) == multiset(rest) + multiset{r[i]};
  }

  lemma OnceInDistinct(h: seq<Entry>, a: nat)
    requires DistinctColors(h) && a < |h|
    ensures multiset(h)[h[a]] == 1
  {
    var x := h[a];
    assert h == h[..a] + [x] + h[a + 1..];
    assert x !in h[..a];
    assert forall m :: a + 1 <= m < |h| ==> h[m] != x;
    assert x !in h[a + 1..];
    assert multiset(h) == multiset(h[..a]) + multiset{x} + multiset(h[a + 1..]);
  }

  /** The texts `rgb(r,g,b)` of the first `k` colours of the ranking
      (`slice(0, k).map(([color]) => color)`). */
  function TopTexts(s: seq<Rgb>, k: nat): seq<string>
  {
    var top := Top(s, k);
    seq(|top|, i requires 0 <= i < |top| => RgbString(top[i].color))
  }

  /** Each text reads back as the corresponding colour of the top `k`. */
  lemma TopTextsParse(s: seq<Rgb>, k: nat)
    ensures |TopTexts(s, k)| == |Top(s, k)|
    ensures forall i :: 0 <= i < |Top(s, k)| ==>
      TopTexts(s, k)[i] == RgbString(Top(s, k)[i].color) && MatchRgb(TopTexts(s, k)[i]) == Some(Top(s, k)[i].color)
  {
    var top := Top(s, k);
    forall i | 0 <= i < |top| ensures MatchRgb(RgbString(top[i].color)) == Some(top[i].color) {
      RgbStringParses(top[i].color);
    }
  }

  /** At most `k` texts, pairwise different, each naming a colour of the list. */
  lemma TopTextsColours(s: seq<Rgb>, k: nat)
    requires k >= 1
    ensures |TopTexts(s, k)| <= k
    ensures forall i :: 0 <= i < |TopTexts(s, k)| ==>
      MatchRgb(TopTexts(s, k)[i]).Some? && MatchRgb(TopTexts(s, k)[i]).value in s
    ensures forall i, j :: 0 <= i < j < |TopTexts(s, k)| ==> TopTexts(s, k)[i] != TopTexts(s, k)[j]
  {
    var top := Top(s, k);
    var p := TopTexts(s, k);
    TopProps(s, k);
    TopTextsParse(s, k);
    forall i, j | 0 <= i < j < |p| ensures p[i] != p[j] {
      if p[i] == p[j] {
        RgbStringInjective(top[i].color, top[j].color);
      }
    }
  }

  /** The texts come in non-increasing order of occurrence, and a colour left out
      occurs no more often than the last one kept, which only happens once `k`
      texts are kept. */
  lemma TopTextsRanked(s: seq<Rgb>, k: nat)
    requires k >= 1
    ensures forall i, j :: 0 <= i < j < |TopTexts(s, k)| ==>
      multiset(s)[MatchRgb(TopTexts(s, k)[i]).value] >= multiset(s)[MatchRgb(TopTexts(s, k)[j]).value]
    ensures forall c :: c in s && RgbString(c) !in TopTexts(s, k) ==>
      |TopTexts(s, k)| == k && multiset(s)[c] <= multiset(s)[MatchRgb(TopTexts(s, k)[k - 1]).value]
  {
    TopProps(s, k);
    TopTextsParse(s, k);
  }

  /** Counting keeps the entries where they are and adds a new colour at the end. */
  lemma {:induction false} IncrementShape(counts: seq<Entry>, c: Rgb)
    ensures |Increment(counts, c)| == if c in Colours(counts) then |counts| else |counts| + 1
    ensures forall i :: 0 <= i < |counts| ==> Increment(counts, c)[i].color == counts[i].color
    ensures c !in Colours(counts) ==> Increment(counts, c)[|counts|].color == c
  {
    if counts != [] {
      ColoursCons(counts);
      if counts[0].color != c {
        IncrementShape(counts[1..], c);
        var r := Increment(counts, c);
        assert r[1..] == Increment(counts[1..], c);
      }
    }
  }

  lemma {:induction false} HistogramKeepsOrder(acc: seq<Entry>, s: seq<Rgb>)
    ensures |Histogram(acc, s)| >= |acc|
    ensures forall i :: 0 <= i < |acc| ==> Histogram(acc, s)[i].color == acc[i].color
    decreases |s|
  {
    if s != [] {
      IncrementShape(acc, s[0]);
      HistogramKeepsOrder(Increment(acc, s[0]), s[1..]);
    }
  }

  /** A histogram lists colours in the order they are first seen: every entry before
      the entry of `s[k]` names a colour seen before position `k`. */
  lemma FirstSeenFirst(s: seq<Rgb>, k: nat, i: nat, j: nat)
    requires k < |s| && i < j < |Histogram([], s)| && Histogram([], s)[j].color == s[k]
    ensures Histogram([], s)[i].color in s[..k]
  {
    var h := Histogram([], s);
    var a := s[..k];
    var ha := Histogram([], a);
    var ha1 := Increment(ha, s[k]);
    assert s[..k + 1] == a + [s[k]];
    HistogramSnoc([], a, s[k]);
    assert s == s[..k + 1] + s[k + 1..];
    HistogramAppend([], s[..k + 1], s[k + 1..]);
    HistogramKeepsOrder(ha1, s[k + 1..]);
    IncrementShape(ha, s[k]);
    IncrementProps(ha, s[k]);
    HistogramProps([], s);
    HistogramProps([], a);
    assert s[k] in Colours(ha1);
    var t :| 0 <= t < |ha1| && ha1[t].color == s[k];
    assert h[t].color == s[k];
    assert t == j;
    assert i < |ha|;
    assert h[i].color == ha[i].color;
    assert ha[i].color in Colours(ha);
  }
}
