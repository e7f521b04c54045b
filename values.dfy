/** JavaScript values as the style and validation code sees them: numbers,
    strings, booleans, `null`, `undefined`, arrays and plain objects. An object is
    an ordered dictionary: its entries in insertion order, which is the order
    `Object.entries` lists them in. */
module Values {
  import opened Wrappers
  import opened Text

  /** An ordered dictionary from property names to values. */
  type Dict<V> = seq<(string, V)>

  datatype Value =
    | Num(n: real)
    | Str(s: string)
    | Bool(b: bool)
    | Null
    | Undef
    | Arr(items: seq<Value>)
    | Obj(fields: Dict<Value>)

  function Keys<V>(d: Dict<V>): set<string>
  {
    set i | 0 <= i < |d| :: d[i].0
  }

  lemma KeysCons<V>(d: Dict<V>)
    requires d != []
    ensures Keys(d) == {d[0].0} + Keys(d[1..])
  {
    forall x | x in Keys(d) ensures x in {d[0].0} + Keys(d[1..]) {
      var i :| 0 <= i < |d| && d[i].0 == x;
      if i > 0 {
        assert d[1..][i - 1].0 == x;
      }
    }
    forall x | x in Keys(d[1..]) ensures x in Keys(d) {
      var i :| 0 <= i < |d[1..]| && d[1..][i].0 == x;
      assert d[i + 1].0 == x;
    }
  }

  lemma KeysSnoc<V>(d: Dict<V>, e: (string, V))
    ensures Keys(d + [e]) == Keys(d) + {e.0}
  {
    var d' := d + [e];
    forall x | x in Keys(d') ensures x in Keys(d) + {e.0} {
      var i :| 0 <= i < |d'| && d'[i].0 == x;
      if i < |d| {
        assert d[i].0 == x;
      }
    }
    forall x | x in Keys(d) ensures x in Keys(d') {
      var i :| 0 <= i < |d| && d[i].0 == x;
      assert d'[i].0 == x;
    }
    assert d'[|d|].0 == e.0;
  }

  predicate DistinctKeys<V>(d: Dict<V>)
  {
    forall i, j :: 0 <= i < j < |d| ==> d[i].0 != d[j].0
  }

  /** `d[k]`: the value stored under `k`, if any. */
  function Lookup<V(==)>(d: Dict<V>, k: string): (r: Option<V>)
    ensures r.Some? <==> k in Keys(d)
    ensures r.Some? ==> exists i :: 0 <= i < |d| && d[i] == (k, r.value)
  {
    if d == [] then None
    else if d[0].0 == k then Some(d[0].1)
    else
      var r := Lookup(d[1..], k);
      KeysCons(d);
      if r.Some? then
        var i :| 0 <= i < |d[1..]| && d[1..][i] == (k, r.value);
        assert d[i + 1] == (k, r.value);
        r
      else r
  }

  /** `d[k] = v`: an existing key keeps its place, a new key goes last. */
  function Store<V(==)>(d: Dict<V>, k: string, v: V): Dict<V>
  {
    if d == [] then [(k, v)]
    else if d[0].0 == k then [(k, v)] + d[1..]
    else [d[0]] + Store(d[1..], k, v)
  }

  /** Reading after writing sees the new value under `k` and nothing else changed. */
  lemma {:induction false} LookupStore<V>(d: Dict<V>, k: string, v: V, k': string)
    ensures Lookup(Store(d, k, v), k') == if k' == k then Some(v) else Lookup(d, k')
  {
    if d != [] && d[0].0 != k {
      LookupStore(d[1..], k, v, k');
      assert Store(d, k, v)[1..] == Store(d[1..], k, v);
    }
  }

  /** Writing adds `k` to the keys, keeps the existing keys in place, and adds an
      entry only when `k` was new. */
  lemma StoreShape<V>(d: Dict<V>, k: string, v: V)
    ensures Keys(Store(d, k, v)) == Keys(d) + {k}
    ensures k in Keys(d) ==> |Store(d, k, v)| == |d|
    ensures k !in Keys(d) ==> Store(d, k, v) == d + [(k, v)]
    ensures forall i :: 0 <= i < |d| ==> Store(d, k, v)[i].0 == d[i].0
    ensures DistinctKeys(d) ==> DistinctKeys(Store(d, k, v))
  {
    StoreKeys(d, k, v);
    StorePlaces(d, k, v);
    if DistinctKeys(d) {
      StoreDistinct(d, k, v);
    }
  }

  lemma {:induction false} StoreKeys<V>(d: Dict<V>, k: string, v: V)
    ensures Keys(Store(d, k, v)) == Keys(d) + {k}
  {
    var r := Store(d, k, v);
    KeysCons(r);
    if d == [] {
      assert r[1..] == [];
    } else {
      KeysCons(d);
      if d[0].0 == k {
        assert r[1..] == d[1..];
      } else {
        StoreKeys(d[1..], k, v);
        assert r[1..] == Store(d[1..], k, v);
      }
    }
  }

  lemma {:induction false} StorePlaces<V>(d: Dict<V>, k: string, v: V)
    ensures k in Keys(d) ==> |Store(d, k, v)| == |d|
    ensures k !in Keys(d) ==> Store(d, k, v) == d + [(k, v)]
    ensures forall i :: 0 <= i < |d| ==> Store(d, k, v)[i].0 == d[i].0
  {
    if d != [] {
      KeysCons(d);
      if d[0].0 != k {
        StorePlaces(d[1..], k, v);
        assert Store(d, k, v)[1..] == Store(d[1..], k, v);
      }
    }
  }

  lemma {:induction false} StoreDistinct<V>(d: Dict<V>, k: string, v: V)
    requires DistinctKeys(d)
    ensures DistinctKeys(Store(d, k, v))
  {
    if d != [] && d[0].0 != k {
      KeysCons(d);
      StoreDistinct(d[1..], k, v);
      StoreKeys(d[1..], k, v);
      var r := Store(d, k, v);
      assert r[1..] == Store(d[1..], k, v);
      KeysCons(r);
      forall i, j | 0 <= i < j < |r| ensures r[i].0 != r[j].0 {
        if i == 0 {
          assert r[j].0 in Keys(r[1..]);
        } else {
          assert r[i].0 == r[1..][i - 1].0 && r[j].0 == r[1..][j - 1].0;
        }
      }
    } else if d != [] {
      var r := Store(d, k, v);
      assert r[1..] == d[1..];
      forall i, j | 0 <= i < j < |r| ensures r[i].0 != r[j].0 {
        assert r[j].0 == d[j].0;
        if i > 0 {
          assert r[i].0 == d[i].0;
        }
      }
    }
  }

  /** JavaScript truthiness (NaN is not a modelled number). */
  predicate Truthy(v: Value)
  {
    match v
    case Num(n) => n != 0.0
    case Str(s) => s != ""
    case Bool(b) => b
    case Null => false
    case Undef => false
    case Arr(_) => true
    case Obj(_) => true
  }

  /** A canonical array index: the decimal text of a natural number. */
  function IndexKey(key: string): Option<nat>
  {
    if key != [] && AllDigits(key) && (key == "0" || key[0] != '0') then Some(DigitsValue(key))
    else None
  }

  /** `v?.[key]` on a plain data value: an object's own entry, an array's or a
      string's `length` and indexed elements; `undefined` otherwise. */
  function Prop(v: Value, key: string): Value
  {
    match v
    case Obj(fields) =>
      var r := Lookup(fields, key);
      if r.Some? then r.value else Undef
    case Arr(items) =>
      if key == "length" then Num(|items| as real)
      else
        var i := IndexKey(key);
        if i.Some? && i.value < |items| then items[i.value] else Undef
    case Str(s) =>
      if key == "length" then Num(|s| as real)
      else
        var i := IndexKey(key);
        if i.Some? && i.value < |s| then Str([s[i.value]]) else Undef
    case _ => Undef
  }

  /** `x || {}`. */
  function OrEmpty(v: Value): (r: Value)
    ensures Truthy(r)
    ensures Truthy(v) ==> r == v
  {
    if Truthy(v) then v else Obj([])
  }

  /** A value with no `undefined` anywhere inside it. */
  predicate NoUndef(v: Value)
  {
    match v
    case Undef => false
    case Arr(items) => forall i :: 0 <= i < |items| ==> NoUndef(items[i])
    case Obj(fields) => forall i :: 0 <= i < |fields| ==> NoUndef(fields[i].1)
    case _ => true
  }

  function WithoutUndef(fields: Dict<Value>): (r: Dict<Value>)
  {
    if fields == [] then []
    else (if fields[0].1.Undef? then [] else [fields[0]]) + WithoutUndef(fields[1..])
  }

  /** `JSON.parse(JSON.stringify(v))` for a JSON-shaped value: object entries holding
      `undefined` are dropped, array elements holding it become `null`, and
      everything else is copied. */
  function JsonClone(v: Value): Value
  {
    match v
    case Arr(items) =>
      Arr(seq(|items|, i requires 0 <= i < |items| =>
        if items[i].Undef? then Null else JsonClone(items[i])))
    case Obj(fields) =>
      Obj(WithoutUndef(seq(|fields|, i requires 0 <= i < |fields| => (fields[i].0, JsonClone(fields[i].1)))))
    case _ => v
  }

  lemma {:induction false} WithoutUndefKeepsDefined(fields: Dict<Value>)
    requires forall i :: 0 <= i < |fields| ==> !fields[i].1.Undef?
    ensures WithoutUndef(fields) == fields
  {
    if fields != [] {
      WithoutUndefKeepsDefined(fields[1..]);
    }
  }

  lemma {:induction false} WithoutUndefRemovesUndef(fields: Dict<Value>)
    requires forall i :: 0 <= i < |fields| ==> fields[i].1.Undef? || NoUndef(fields[i].1)
    ensures forall i :: 0 <= i < |WithoutUndef(fields)| ==> NoUndef(WithoutUndef(fields)[i].1)
  {
    if fields != [] {
      WithoutUndefRemovesUndef(fields[1..]);
      var rest := WithoutUndef(fields[1..]);
      var head: Dict<Value> := if fields[0].1.Undef? then [] else [fields[0]];
      assert WithoutUndef(fields) == head + rest;
      forall i | 0 <= i < |head + rest| ensures NoUndef((head + rest)[i].1) {
        if i >= |head| {
          assert (head + rest)[i] == rest[i - |head|];
        }
      }
    }
  }

  /** A value without `undefined` survives the JSON round trip unchanged: the copy
      is equal to the original. */
  lemma {:induction false} JsonCloneIdentity(v: Value)
    requires NoUndef(v)
    ensures JsonClone(v) == v
  {
    match v
    case Arr(items) =>
      forall i | 0 <= i < |items| ensures JsonClone(items[i]) == items[i] {
        JsonCloneIdentity(items[i]);
      }
      assert JsonClone(v).items == items;
    case Obj(fields) =>
      var mapped := seq(|fields|, i requires 0 <= i < |fields| => (fields[i].0, JsonClone(fields[i].1)));
      forall i | 0 <= i < |fields| ensures mapped[i] == fields[i] {
        JsonCloneIdentity(fields[i].1);
      }
      assert mapped == fields;
      WithoutUndefKeepsDefined(fields);
    case _ =>
  }

  /** The copy never holds `undefined`. */
  lemma {:induction false} JsonCloneHasNoUndef(v: Value)
    requires !v.Undef?
    ensures NoUndef(JsonClone(v))
  {
    match v
    case Arr(items) =>
      var c := JsonClone(v).items;
      forall i | 0 <= i < |items| ensures NoUndef(c[i]) {
        if !items[i].Undef? {
          JsonCloneHasNoUndef(items[i]);
        }
      }
    case Obj(fields) =>
      var mapped := seq(|fields|, i requires 0 <= i < |fields| => (fields[i].0, JsonClone(fields[i].1)));
      forall i | 0 <= i < |fields| ensures mapped[i].1.Undef? || NoUndef(mapped[i].1) {
        if !fields[i].1.Undef? {
          JsonCloneHasNoUndef(fields[i].1);
        }
      }
      WithoutUndefRemovesUndef(mapped);
    case _ =>
  }

  /** Copying a copy changes nothing. */
  lemma JsonCloneIdempotent(v: Value)
    requires !v.Undef?
    ensures JsonClone(JsonClone(v)) == JsonClone(v)
  {
    JsonCloneHasNoUndef(v);
    JsonCloneIdentity(JsonClone(v));
  }

  /** Every entry after a write is either the new entry or one that was there. */
  lemma {:induction false} StoreEntries<V>(d: Dict<V>, k: string, v: V)
    ensures forall i :: 0 <= i < |Store(d, k, v)| ==> Store(d, k, v)[i] == (k, v) || Store(d, k, v)[i] in d
  {
    if d != [] && d[0].0 != k {
      StoreEntries(d[1..], k, v);
      var r := Store(d, k, v);
      forall i | 0 <= i < |r| ensures r[i] == (k, v) || r[i] in d {
        if i > 0 {
          assert r[i] == Store(d[1..], k, v)[i - 1];
        }
      }
    }
  }

  /** Writing each entry of `entries` in turn, as `entries.forEach(... d[k] = v)`. */
  function StoreAll<V(==)>(d: Dict<V>, entries: Dict<V>): Dict<V>
  {
    if entries == [] then d
    else
      var last := entries[|entries| - 1];
      Store(StoreAll(d, entries[..|entries| - 1]), last.0, last.1)
  }

  /** The value of the last entry under `k`. */
  function LastFor<V>(entries: Dict<V>, k: string): Option<V>
  {
    if entries == [] then None
    else if entries[|entries| - 1].0 == k then Some(entries[|entries| - 1].1)
    else LastFor(entries[..|entries| - 1], k)
  }

  /** After the writes a key holds the last value written under it, and a key never
      written keeps its value. */
  lemma {:induction false} LookupStoreAll<V>(d: Dict<V>, entries: Dict<V>, k: string)
    ensures Lookup(StoreAll(d, entries), k) == if LastFor(entries, k).Some? then LastFor(entries, k) else Lookup(d, k)
  {
    if entries != [] {
      var last := entries[|entries| - 1];
      LookupStoreAll(d, entries[..|entries| - 1], k);
      LookupStore(StoreAll(d, entries[..|entries| - 1]), last.0, last.1, k);
    }
  }

  /** `outer[id]`, or a fresh `{}` when there is none: the nested dictionary a
      two-level write goes into. */
  function EntryOf<V(==)>(outer: Dict<Dict<V>>, id: string): Dict<V>
  {
    var e := Lookup(outer, id);
    if e.Some? then e.value else []
  }

  /** `if (!outer[id]) outer[id] = {}; outer[id][key] = v` for a dictionary of
      dictionaries (a present entry is an object, so always truthy). */
  function StoreIn<V(==)>(outer: Dict<Dict<V>>, id: string, key: string, v: V): Dict<Dict<V>>
  {
    Store(outer, id, Store(EntryOf(outer, id), key, v))
  }

  /** A two-level write sets exactly the one nested entry: every other entry of that
      dictionary and every other dictionary keep their values. */
  lemma LookupStoreIn<V>(outer: Dict<Dict<V>>, id: string, key: string, v: V, id': string, key': string)
    ensures EntryOf(StoreIn(outer, id, key, v), id') ==
      if id' == id then Store(EntryOf(outer, id), key, v) else EntryOf(outer, id')
    ensures Lookup(EntryOf(StoreIn(outer, id, key, v), id'), key') ==
      if id' == id && key' == key then Some(v) else Lookup(EntryOf(outer, id'), key')
  {
    LookupStore(outer, id, Store(EntryOf(outer, id), key, v), id');
    LookupStore(EntryOf(outer, id), key, v, key');
  }

  /** `keys.reduce((current, key) => current?.[key], v)`. */
  function GetPath(v: Value, keys: seq<string>): Value
    decreases |keys|
  {
    if keys == [] then v else GetPath(Prop(v, keys[0]), keys[1..])
  }

  /** Once a step gives `undefined`, the rest of the path does too. */
  lemma {:induction false} GetPathUndefined(keys: seq<string>)
    ensures GetPath(Undef, keys) == Undef
  {
    if keys != [] {
      GetPathUndefined(keys[1..]);
    }
  }

  /** Writing `a` and then `b` is writing `a + b`. */
  lemma {:induction false} StoreAllAppend<V>(d: Dict<V>, a: Dict<V>, b: Dict<V>)
    ensures StoreAll(StoreAll(d, a), b) == StoreAll(d, a + b)
  {
    if b == [] {
      assert a + b == a;
    } else {
      StoreAllAppend(d, a, b[..|b| - 1]);
      assert (a + b)[..|a + b| - 1] == a + b[..|b| - 1];
    }
  }

  /** Each write adds at most one entry. */
  lemma {:induction false} StoreAllSize<V>(d: Dict<V>, entries: Dict<V>)
    ensures |StoreAll(d, entries)| <= |d| + |entries|
  {
    if entries != [] {
      var last := entries[|entries| - 1];
      StoreAllSize(d, entries[..|entries| - 1]);
      StoreShape(StoreAll(d, entries[..|entries| - 1]), last.0, last.1);
    }
  }

  /** In a dictionary with distinct keys, each entry is what its key looks up. */
  lemma {:induction false} LookupDistinct<V>(d: Dict<V>, i: nat)
    requires i < |d|
    requires forall j, k :: 0 <= j < k < |d| ==> d[j].0 != d[k].0
    ensures Lookup(d, d[i].0) == Some(d[i].1)
  {
    if i > 0 {
      LookupDistinct(d[1..], i - 1);
    }
  }
}
