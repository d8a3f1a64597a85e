/**
 A stored object seen twice: as the JSON that CEL rules compare, and as the Go value it decodes to.
 The schema is any tree of Go types. Decoding forgets whether a field of a value type was written out with
 its zero value and how a parsed scalar (a duration, a quantity, an instant) was spelled; CEL equality forgets
 the order of a list whose items are keyed (x-kubernetes-list-type: map) and the spelling of an instant
 (format: date-time).
 */
module GoSchema {
  import opened Prelude
  import opened Json

  datatype Schema =
    | Scalar(zero: Json)
    | Parsed(zero: Json, read: Json -> Json)
    | Instant(zero: Json, read: Json -> Json)
    | Pointer(target: Schema)
    | Struct(fields: Fields)
    | Slice(item: Schema)
    | Keyed(item: Schema, key: string)
    | Dict(item: Schema)

  datatype Fields = NoFields | Field(name: string, schema: Schema, rest: Fields)

  function Member(fields: map<string, Json>, key: string): Option<Json> {
    if key in fields then Some(fields[key]) else None
  }

  // ---------- well-formed schemas and documents ----------

  predicate HasScalar(fs: Fields, key: string) {
    fs.Field? && ((fs.name == key && fs.schema.Scalar?) || HasScalar(fs.rest, key))
  }

  /** Items of a keyed list are structs, and their key is an ordinary scalar. */
  predicate Sound(s: Schema) {
    match s
    case Scalar(_) => true
    case Parsed(_, _) => true
    case Instant(_, _) => true
    case Pointer(target) => Sound(target)
    case Struct(fs) => SoundFields(fs)
    case Slice(item) => Sound(item)
    case Keyed(item, key) => Sound(item) && item.Struct? && HasScalar(item.fields, key)
    case Dict(item) => Sound(item)
  }

  predicate SoundFields(fs: Fields) {
    fs.Field? ==> Sound(fs.schema) && SoundFields(fs.rest)
  }

  predicate Declares(fs: Fields, key: string) {
    fs.Field? && (fs.name == key || Declares(fs.rest, key))
  }

  predicate DistinctKeys(items: seq<Json>, key: string) {
    && (forall i :: 0 <= i < |items| ==> items[i].Object? && key in items[i].fields)
    && (forall i, j :: 0 <= i < j < |items| ==> items[i].fields[key] != items[j].fields[key])
  }

  /** What the API server stores: typed by the schema, without unknown fields, keys of keyed lists unique. */
  predicate WellTyped(s: Schema, j: Json) {
    match s
    case Scalar(_) => !j.Null?
    case Parsed(_, _) => !j.Null?
    case Instant(_, _) => !j.Null?
    case Pointer(target) => WellTyped(target, j)
    case Struct(fs) =>
      j.Object? && (forall key :: key in j.fields ==> Declares(fs, key)) && WellTypedFields(fs, j.fields)
    case Slice(item) => j.Array? && forall i :: 0 <= i < |j.items| ==> WellTyped(item, j.items[i])
    case Keyed(item, key) =>
      j.Array? && DistinctKeys(j.items, key) && forall i :: 0 <= i < |j.items| ==> WellTyped(item, j.items[i])
    case Dict(item) => j.Object? && forall key :: key in j.fields ==> WellTyped(item, j.fields[key])
  }

  predicate WellTypedFields(fs: Fields, m: map<string, Json>) {
    fs.Field? ==> (fs.name in m ==> WellTyped(fs.schema, m[fs.name])) && WellTypedFields(fs.rest, m)
  }

  predicate Typed(s: Schema, a: Option<Json>) {
    a.Some? ==> WellTyped(s, a.value)
  }

  // ---------- the Go value ----------

  datatype Go =
    | Nil
    | Value(j: Json)
    | Ref(target: Go)
    | Record(parts: seq<Go>)
    | List(items: seq<Go>)
    | Table(entries: map<string, Go>)

  /** encoding/json: an absent field leaves the zero value of its type. */
  function Decode(s: Schema, a: Option<Json>): Go
    decreases s, 0
  {
    match s
    case Scalar(zero) => Value(if a.Some? then a.value else zero)
    case Parsed(zero, read) => Value(if a.Some? then read(a.value) else zero)
    case Instant(zero, read) => Value(if a.Some? then read(a.value) else zero)
    case Pointer(target) => if a.Some? then Ref(Decode(target, a)) else Nil
    case Struct(fs) => Record(DecodeFields(fs, if a.Some? && a.value.Object? then a.value.fields else map[]))
    case Slice(item) => DecodeItems(item, a)
    case Keyed(item, _) => DecodeItems(item, a)
    case Dict(item) =>
      if a.Some? && a.value.Object? then
        Table(map key | key in a.value.fields :: Decode(item, Some(a.value.fields[key])))
      else Nil
  }

  function DecodeItems(item: Schema, a: Option<Json>): Go
    decreases item, 1
  {
    if a.Some? && a.value.Array? then
      List(seq(|a.value.items|, i requires 0 <= i < |a.value.items| => Decode(item, Some(a.value.items[i]))))
    else Nil
  }

  function DecodeFields(fs: Fields, m: map<string, Json>): seq<Go> {
    if fs.NoFields? then [] else [Decode(fs.schema, Member(m, fs.name))] + DecodeFields(fs.rest, m)
  }

  // ---------- what decoding forgets ----------

  datatype Spelling =
    | Usual
    | Written(j: Json)
    | Parts(parts: seq<Spelling>)
    | PartsByKey(entries: map<string, Spelling>)

  /** A parsed scalar is written in its usual form, and is not a zero written out. */
  function Form(zero: Json, read: Json -> Json, j: Json): Spelling {
    if j == zero || read(j) != j then Written(j) else Usual
  }

  /**
   How a document is written where the Go value does not show it: zeros written out and unusual spellings.
   The spelling of instants, which CEL does not see either, is told only with `stamps`.
   */
  function SpellingOf(s: Schema, a: Option<Json>, stamps: bool): Spelling
    decreases s, 0
  {
    if a.None? then Usual
    else
      match s
      case Scalar(zero) => if a.value == zero then Written(a.value) else Usual
      case Parsed(zero, read) => Form(zero, read, a.value)
      case Instant(zero, read) =>
        if stamps then Form(zero, read, a.value) else if read(a.value) == zero then Written(zero) else Usual
      case Pointer(target) => SpellingOf(target, a, stamps)
      case Struct(fs) => Parts(SpellingOfFields(fs, if a.value.Object? then a.value.fields else map[], stamps))
      case Slice(item) => SpellingOfItems(item, a.value, stamps)
      case Keyed(item, _) => SpellingOfItems(item, a.value, stamps)
      case Dict(item) =>
        if a.value.Object? then
          PartsByKey(map key | key in a.value.fields :: SpellingOf(item, Some(a.value.fields[key]), stamps))
        else Usual
  }

  function SpellingOfItems(item: Schema, j: Json, stamps: bool): Spelling
    decreases item, 1
  {
    if j.Array? then
      Parts(seq(|j.items|, i requires 0 <= i < |j.items| => SpellingOf(item, Some(j.items[i]), stamps)))
    else Usual
  }

  function SpellingOfFields(fs: Fields, m: map<string, Json>, stamps: bool): seq<Spelling> {
    if fs.NoFields? then []
    else [SpellingOf(fs.schema, Member(m, fs.name), stamps)] + SpellingOfFields(fs.rest, m, stamps)
  }

  // ---------- CEL equality ----------

  /** has(a) == has(b) && (!has(a) || a == b), with the equality the schema gives. */
  predicate Same(s: Schema, a: Option<Json>, b: Option<Json>)
    decreases s, 1
  {
    a.Some? == b.Some? && (a.Some? && b.Some? ==> CelEqual(s, a.value, b.value))
  }

  predicate SameKey(x: Json, y: Json, key: string) {
    x.Object? && y.Object? && Member(x.fields, key) == Member(y.fields, key)
  }

  predicate CelEqual(s: Schema, x: Json, y: Json)
    decreases s, 0
  {
    match s
    case Scalar(_) => x == y
    case Parsed(_, _) => x == y
    case Instant(_, read) => read(x) == read(y)
    case Pointer(target) => CelEqual(target, x, y)
    case Struct(fs) => x.Object? && y.Object? && SameFields(fs, x.fields, y.fields)
    case Slice(item) =>
      && x.Array? && y.Array? && |x.items| == |y.items|
      && forall i :: 0 <= i < |x.items| ==> CelEqual(item, x.items[i], y.items[i])
    case Keyed(item, key) =>
      && x.Array? && y.Array? && |x.items| == |y.items|
      && forall i :: 0 <= i < |x.items| ==> HasCounterpart(item, key, x.items[i], y.items)
    case Dict(item) =>
      && x.Object? && y.Object? && x.fields.Keys == y.fields.Keys
      && forall key :: key in x.fields ==> CelEqual(item, x.fields[key], y.fields[key])
  }

  predicate HasCounterpart(item: Schema, key: string, x: Json, ys: seq<Json>)
    decreases item, 1
  {
    exists j :: 0 <= j < |ys| && SameKey(x, ys[j], key) && CelEqual(item, x, ys[j])
  }

  predicate SameFields(fs: Fields, m: map<string, Json>, n: map<string, Json>)
    decreases fs, 0
  {
    fs.Field? ==> Same(fs.schema, Member(m, fs.name), Member(n, fs.name)) && SameFields(fs.rest, m, n)
  }

  // ---------- CEL equality on runs ----------

  lemma {:induction false} CelReflexive(s: Schema, x: Json)
    requires WellTyped(s, x)
    ensures CelEqual(s, x, x)
    decreases s
  {
    match s
    case Scalar(_) =>
    case Parsed(_, _) =>
    case Instant(_, _) =>
    case Pointer(target) => CelReflexive(target, x);
    case Struct(fs) => FieldsReflexive(fs, x.fields);
    case Slice(item) =>
      forall i | 0 <= i < |x.items|
        ensures CelEqual(item, x.items[i], x.items[i])
      {
        CelReflexive(item, x.items[i]);
      }
    case Keyed(item, key) =>
      forall i | 0 <= i < |x.items|
        ensures HasCounterpart(item, key, x.items[i], x.items)
      {
        CelReflexive(item, x.items[i]);
        assert SameKey(x.items[i], x.items[i], key);
      }
    case Dict(item) =>
      forall key | key in x.fields
        ensures CelEqual(item, x.fields[key], x.fields[key])
      {
        CelReflexive(item, x.fields[key]);
      }
  }

  lemma {:induction false} FieldsReflexive(fs: Fields, m: map<string, Json>)
    requires WellTypedFields(fs, m)
    ensures SameFields(fs, m, m)
    decreases fs
  {
    if fs.Field? {
      if fs.name in m {
        CelReflexive(fs.schema, m[fs.name]);
      }
      FieldsReflexive(fs.rest, m);
    }
  }

  lemma {:induction false} CelTransitive(s: Schema, x: Json, y: Json, z: Json)
    requires CelEqual(s, x, y) && CelEqual(s, y, z)
    ensures CelEqual(s, x, z)
    decreases s, 0
  {
    match s
    case Scalar(_) =>
    case Parsed(_, _) =>
    case Instant(_, _) =>
    case Pointer(target) => CelTransitive(target, x, y, z);
    case Struct(fs) => FieldsTransitive(fs, x.fields, y.fields, z.fields);
    case Slice(item) =>
      forall i | 0 <= i < |x.items|
        ensures CelEqual(item, x.items[i], z.items[i])
      {
        CelTransitive(item, x.items[i], y.items[i], z.items[i]);
      }
    case Keyed(item, key) =>
      forall i | 0 <= i < |x.items|
        ensures HasCounterpart(item, key, x.items[i], z.items)
      {
        CounterpartTransitive(item, key, x.items[i], y.items, z.items);
      }
    case Dict(item) =>
      forall key | key in x.fields
        ensures CelEqual(item, x.fields[key], z.fields[key])
      {
        CelTransitive(item, x.fields[key], y.fields[key], z.fields[key]);
      }
  }

  lemma {:induction false} CounterpartTransitive(item: Schema, key: string, x: Json, ys: seq<Json>, zs: seq<Json>)
    requires HasCounterpart(item, key, x, ys)
    requires forall j :: 0 <= j < |ys| ==> HasCounterpart(item, key, ys[j], zs)
    ensures HasCounterpart(item, key, x, zs)
    decreases item, 1
  {
    var j :| 0 <= j < |ys| && SameKey(x, ys[j], key) && CelEqual(item, x, ys[j]);
    assert HasCounterpart(item, key, ys[j], zs);
    var k :| 0 <= k < |zs| && SameKey(ys[j], zs[k], key) && CelEqual(item, ys[j], zs[k]);
    CelTransitive(item, x, ys[j], zs[k]);
    assert SameKey(x, zs[k], key);
  }

  lemma {:induction false} FieldsTransitive(
      fs: Fields, m: map<string, Json>, n: map<string, Json>, o: map<string, Json>)
    requires SameFields(fs, m, n) && SameFields(fs, n, o)
    ensures SameFields(fs, m, o)
    decreases fs, 0
  {
    if fs.Field? {
      if fs.name in m {
        CelTransitive(fs.schema, m[fs.name], n[fs.name], o[fs.name]);
      }
      FieldsTransitive(fs.rest, m, n, o);
    }
  }

  lemma SameTransitive(s: Schema, a: Option<Json>, b: Option<Json>, c: Option<Json>)
    requires Same(s, a, b) && Same(s, b, c)
    ensures Same(s, a, c)
  {
    if a.Some? {
      CelTransitive(s, a.value, b.value, c.value);
    }
  }

  lemma SameReflexive(s: Schema, a: Option<Json>)
    requires Typed(s, a)
    ensures Same(s, a, a)
  {
    if a.Some? {
      CelReflexive(s, a.value);
    }
  }

  // ---------- the two comparisons together ----------

  /** Two maps that agree on every declared field are equal. */
  lemma EqualByFields(fs: Fields, m: map<string, Json>, n: map<string, Json>)
    requires forall key :: key in m ==> Declares(fs, key)
    requires forall key :: key in n ==> Declares(fs, key)
    requires forall key :: Declares(fs, key) ==> Member(m, key) == Member(n, key)
    ensures m == n
  {
    forall key
      ensures key in m <==> key in n
      ensures key in m ==> key in n && m[key] == n[key]
    {
      if key in m || key in n {
        assert Member(m, key) == Member(n, key);
      }
    }
  }

  lemma ItemsDecoded(item: Schema, xs: seq<Json>, ys: seq<Json>, i: nat)
    requires DecodeItems(item, Some(Array(xs))) == DecodeItems(item, Some(Array(ys)))
    requires i < |xs| || i < |ys|
    ensures |xs| == |ys| && Decode(item, Some(xs[i])) == Decode(item, Some(ys[i]))
  {
    var dx, dy := DecodeItems(item, Some(Array(xs))), DecodeItems(item, Some(Array(ys)));
    assert |dx.items| == |xs| && |dy.items| == |ys|;
    assert dx.items[i] == Decode(item, Some(xs[i]));
    assert dy.items[i] == Decode(item, Some(ys[i]));
  }

  /** The key of a keyed item can be read off its Go value. */
  lemma {:induction false} KeyIsDecoded(fs: Fields, key: string, m: map<string, Json>, n: map<string, Json>)
    requires HasScalar(fs, key) && key in m && key in n
    requires DecodeFields(fs, m) == DecodeFields(fs, n)
    ensures m[key] == n[key]
    decreases fs
  {
    assert DecodeFields(fs, m)[0] == DecodeFields(fs, n)[0];
    assert DecodeFields(fs, m)[1..] == DecodeFields(fs, n)[1..];
    if !(fs.name == key && fs.schema.Scalar?) {
      KeyIsDecoded(fs.rest, key, m, n);
    }
  }

  lemma SameKeySamePlace(item: Schema, key: string, xs: seq<Json>, ys: seq<Json>, i: nat)
    requires i < |xs| && i < |ys| && DistinctKeys(xs, key) && DistinctKeys(ys, key)
    requires HasCounterpart(item, key, xs[i], ys) && xs[i].fields[key] == ys[i].fields[key]
    ensures CelEqual(item, xs[i], ys[i])
  {
    var j :| 0 <= j < |ys| && SameKey(xs[i], ys[j], key) && CelEqual(item, xs[i], ys[j]);
    assert ys[j].fields[key] == xs[i].fields[key];
    assert j == i;
  }

  /** With equal Go values, the counterpart of a keyed item is the one in the same place. */
  lemma KeyedInPlace(item: Schema, key: string, xs: seq<Json>, ys: seq<Json>)
    requires Sound(Keyed(item, key)) && |xs| == |ys|
    requires DistinctKeys(xs, key) && DistinctKeys(ys, key)
    requires forall i :: 0 <= i < |xs| ==> HasCounterpart(item, key, xs[i], ys)
    requires DecodeItems(item, Some(Array(xs))) == DecodeItems(item, Some(Array(ys)))
    ensures forall i :: 0 <= i < |xs| ==> CelEqual(item, xs[i], ys[i])
  {
    forall i | 0 <= i < |xs|
      ensures CelEqual(item, xs[i], ys[i])
    {
      ItemsDecoded(item, xs, ys, i);
      KeyIsDecoded(item.fields, key, xs[i].fields, ys[i].fields);
      SameKeySamePlace(item, key, xs, ys, i);
    }
  }

  /** Documents that CEL finds equal and that decode to equal Go values are spelled alike, instants aside. */
  lemma {:induction false} EqualIsSpelledAlike(s: Schema, a: Option<Json>, b: Option<Json>)
    requires Sound(s) && Typed(s, a) && Typed(s, b)
    requires Same(s, a, b) && Decode(s, a) == Decode(s, b)
    ensures SpellingOf(s, a, false) == SpellingOf(s, b, false)
    decreases s, 1
  {
    if a.Some? {
      match s
      case Scalar(_) =>
      case Parsed(_, _) =>
      case Instant(_, _) =>
      case Pointer(target) => EqualIsSpelledAlike(target, a, b);
      case Struct(fs) => EqualFieldsAreSpelledAlike(fs, a.value.fields, b.value.fields);
      case Slice(item) => EqualItemsAreSpelledAlike(item, a.value.items, b.value.items);
      case Keyed(item, key) =>
        KeyedInPlace(item, key, a.value.items, b.value.items);
        EqualItemsAreSpelledAlike(item, a.value.items, b.value.items);
      case Dict(item) => EqualEntriesAreSpelledAlike(item, a.value.fields, b.value.fields);
    }
  }

  lemma {:induction false} EqualFieldsAreSpelledAlike(fs: Fields, m: map<string, Json>, n: map<string, Json>)
    requires SoundFields(fs) && WellTypedFields(fs, m) && WellTypedFields(fs, n)
    requires SameFields(fs, m, n) && DecodeFields(fs, m) == DecodeFields(fs, n)
    ensures SpellingOfFields(fs, m, false) == SpellingOfFields(fs, n, false)
    decreases fs, 0
  {
    if fs.Field? {
      assert DecodeFields(fs, m)[0] == DecodeFields(fs, n)[0];
      assert DecodeFields(fs, m)[1..] == DecodeFields(fs, n)[1..];
      EqualIsSpelledAlike(fs.schema, Member(m, fs.name), Member(n, fs.name));
      EqualFieldsAreSpelledAlike(fs.rest, m, n);
    }
  }

  lemma {:induction false} EqualItemsAreSpelledAlike(item: Schema, xs: seq<Json>, ys: seq<Json>)
    requires Sound(item) && |xs| == |ys|
    requires forall i :: 0 <= i < |xs| ==> WellTyped(item, xs[i]) && WellTyped(item, ys[i])
    requires forall i :: 0 <= i < |xs| ==> CelEqual(item, xs[i], ys[i])
    requires DecodeItems(item, Some(Array(xs))) == DecodeItems(item, Some(Array(ys)))
    ensures SpellingOfItems(item, Array(xs), false) == SpellingOfItems(item, Array(ys), false)
    decreases item, 2
  {
    forall i | 0 <= i < |xs|
      ensures SpellingOf(item, Some(xs[i]), false) == SpellingOf(item, Some(ys[i]), false)
    {
      ItemsDecoded(item, xs, ys, i);
      EqualIsSpelledAlike(item, Some(xs[i]), Some(ys[i]));
    }
  }

  lemma EntriesDecoded(item: Schema, m: map<string, Json>, n: map<string, Json>, key: string)
    requires Decode(Dict(item), Some(Object(m))) == Decode(Dict(item), Some(Object(n)))
    requires key in m || key in n
    ensures key in m && key in n && Decode(item, Some(m[key])) == Decode(item, Some(n[key]))
  {
    var dm, dn := Decode(Dict(item), Some(Object(m))), Decode(Dict(item), Some(Object(n)));
    assert dm.entries.Keys == m.Keys && dn.entries.Keys == n.Keys;
    assert key in dm.entries && key in dn.entries;
    assert dm.entries[key] == Decode(item, Some(m[key]));
    assert dn.entries[key] == Decode(item, Some(n[key]));
  }

  lemma {:induction false} EqualEntriesAreSpelledAlike(item: Schema, m: map<string, Json>, n: map<string, Json>)
    requires Sound(item) && m.Keys == n.Keys
    requires forall key :: key in m ==> WellTyped(item, m[key]) && WellTyped(item, n[key])
    requires forall key :: key in m ==> CelEqual(item, m[key], n[key])
    requires Decode(Dict(item), Some(Object(m))) == Decode(Dict(item), Some(Object(n)))
    ensures SpellingOf(Dict(item), Some(Object(m)), false) == SpellingOf(Dict(item), Some(Object(n)), false)
    decreases item, 2
  {
    var sm, sn := SpellingOf(Dict(item), Some(Object(m)), false), SpellingOf(Dict(item), Some(Object(n)), false);
    assert sm.entries.Keys == m.Keys && sn.entries.Keys == n.Keys;
    forall key | key in m
      ensures sm.entries[key] == sn.entries[key]
    {
      EntriesDecoded(item, m, n, key);
      EqualIsSpelledAlike(item, Some(m[key]), Some(n[key]));
    }
    assert sm.entries == sn.entries;
  }

  /** Items that decode alike and are CEL-equal in place are counterparts by key. */
  lemma InPlaceIsKeyed(item: Schema, key: string, xs: seq<Json>, ys: seq<Json>)
    requires Sound(Keyed(item, key)) && |xs| == |ys| && DistinctKeys(xs, key) && DistinctKeys(ys, key)
    requires DecodeItems(item, Some(Array(xs))) == DecodeItems(item, Some(Array(ys)))
    requires forall i :: 0 <= i < |xs| ==> CelEqual(item, xs[i], ys[i])
    ensures CelEqual(Keyed(item, key), Array(xs), Array(ys))
  {
    forall i | 0 <= i < |xs|
      ensures HasCounterpart(item, key, xs[i], ys)
    {
      ItemsDecoded(item, xs, ys, i);
      KeyIsDecoded(item.fields, key, xs[i].fields, ys[i].fields);
      assert SameKey(xs[i], ys[i], key);
    }
  }

  /** Documents that decode to equal Go values and are spelled alike, instants aside, are CEL-equal. */
  lemma {:induction false} SpelledAlikeIsEqual(s: Schema, a: Option<Json>, b: Option<Json>)
    requires Sound(s) && Typed(s, a) && Typed(s, b)
    requires Decode(s, a) == Decode(s, b) && SpellingOf(s, a, false) == SpellingOf(s, b, false)
    ensures Same(s, a, b)
    decreases s, 1
  {
    match s
    case Scalar(_) =>
    case Parsed(_, _) =>
    case Instant(_, _) =>
    case Pointer(target) =>
      if a.Some? && b.Some? {
        SpelledAlikeIsEqual(target, a, b);
      }
    case Struct(fs) =>
      if a.Some? && b.Some? {
        FieldsSpelledAlikeAreEqual(fs, a.value.fields, b.value.fields);
      }
    case Slice(item) =>
      if a.Some? && b.Some? {
        ItemsSpelledAlikeAreEqual(item, a.value.items, b.value.items);
      }
    case Keyed(item, key) =>
      if a.Some? && b.Some? {
        ItemsSpelledAlikeAreEqual(item, a.value.items, b.value.items);
        InPlaceIsKeyed(item, key, a.value.items, b.value.items);
      }
    case Dict(item) =>
      if a.Some? && b.Some? {
        EntriesSpelledAlikeAreEqual(item, a.value.fields, b.value.fields);
      }
  }

  lemma {:induction false} FieldsSpelledAlikeAreEqual(fs: Fields, m: map<string, Json>, n: map<string, Json>)
    requires SoundFields(fs) && WellTypedFields(fs, m) && WellTypedFields(fs, n)
    requires DecodeFields(fs, m) == DecodeFields(fs, n)
    requires SpellingOfFields(fs, m, false) == SpellingOfFields(fs, n, false)
    ensures SameFields(fs, m, n)
    decreases fs, 0
  {
    if fs.Field? {
      assert DecodeFields(fs, m)[0] == DecodeFields(fs, n)[0];
      assert DecodeFields(fs, m)[1..] == DecodeFields(fs, n)[1..];
      assert SpellingOfFields(fs, m, false)[0] == SpellingOfFields(fs, n, false)[0];
      assert SpellingOfFields(fs, m, false)[1..] == SpellingOfFields(fs, n, false)[1..];
      SpelledAlikeIsEqual(fs.schema, Member(m, fs.name), Member(n, fs.name));
      FieldsSpelledAlikeAreEqual(fs.rest, m, n);
    }
  }

  lemma ItemsSpelled(item: Schema, xs: seq<Json>, ys: seq<Json>, i: nat, stamps: bool)
    requires SpellingOfItems(item, Array(xs), stamps) == SpellingOfItems(item, Array(ys), stamps)
    requires i < |xs| || i < |ys|
    ensures |xs| == |ys| && SpellingOf(item, Some(xs[i]), stamps) == SpellingOf(item, Some(ys[i]), stamps)
  {
    var sx, sy := SpellingOfItems(item, Array(xs), stamps), SpellingOfItems(item, Array(ys), stamps);
    assert |sx.parts| == |xs| && |sy.parts| == |ys|;
    assert sx.parts[i] == SpellingOf(item, Some(xs[i]), stamps);
    assert sy.parts[i] == SpellingOf(item, Some(ys[i]), stamps);
  }

  lemma {:induction false} ItemsSpelledAlikeAreEqual(item: Schema, xs: seq<Json>, ys: seq<Json>)
    requires Sound(item)
    requires forall i :: 0 <= i < |xs| ==> WellTyped(item, xs[i])
    requires forall i :: 0 <= i < |ys| ==> WellTyped(item, ys[i])
    requires DecodeItems(item, Some(Array(xs))) == DecodeItems(item, Some(Array(ys)))
    requires SpellingOfItems(item, Array(xs), false) == SpellingOfItems(item, Array(ys), false)
    ensures |xs| == |ys| && forall i :: 0 <= i < |xs| ==> CelEqual(item, xs[i], ys[i])
    decreases item, 2
  {
    if xs != [] || ys != [] {
      ItemsDecoded(item, xs, ys, 0);
    }
    forall i | 0 <= i < |xs|
      ensures CelEqual(item, xs[i], ys[i])
    {
      ItemsDecoded(item, xs, ys, i);
      ItemsSpelled(item, xs, ys, i, false);
      SpelledAlikeIsEqual(item, Some(xs[i]), Some(ys[i]));
    }
  }

  lemma {:induction false} EntriesSpelledAlikeAreEqual(item: Schema, m: map<string, Json>, n: map<string, Json>)
    requires Sound(item)
    requires forall key :: key in m ==> WellTyped(item, m[key])
    requires forall key :: key in n ==> WellTyped(item, n[key])
    requires Decode(Dict(item), Some(Object(m))) == Decode(Dict(item), Some(Object(n)))
    requires SpellingOf(Dict(item), Some(Object(m)), false) == SpellingOf(Dict(item), Some(Object(n)), false)
    ensures CelEqual(Dict(item), Object(m), Object(n))
    decreases item, 2
  {
    var sm, sn := SpellingOf(Dict(item), Some(Object(m)), false), SpellingOf(Dict(item), Some(Object(n)), false);
    forall key | key in m || key in n
      ensures key in m && key in n && CelEqual(item, m[key], n[key])
    {
      EntriesDecoded(item, m, n, key);
      assert sm.entries[key] == SpellingOf(item, Some(m[key]), false);
      assert sn.entries[key] == SpellingOf(item, Some(n[key]), false);
      SpelledAlikeIsEqual(item, Some(m[key]), Some(n[key]));
    }
    assert m.Keys == n.Keys;
  }

  /** For equal Go values, CEL agrees exactly when the two documents are spelled alike, instants aside. */
  lemma EqualValuesCompare(s: Schema, a: Option<Json>, b: Option<Json>)
    requires Sound(s) && Typed(s, a) && Typed(s, b) && Decode(s, a) == Decode(s, b)
    ensures Same(s, a, b) <==> SpellingOf(s, a, false) == SpellingOf(s, b, false)
  {
    if Same(s, a, b) {
      EqualIsSpelledAlike(s, a, b);
    }
    if SpellingOf(s, a, false) == SpellingOf(s, b, false) {
      SpelledAlikeIsEqual(s, a, b);
    }
  }

  // ---------- what the Go value and the spelling determine ----------

  /** The Go value and the whole spelling, instants included, determine the document. */
  lemma {:induction false} Determined(s: Schema, a: Option<Json>, b: Option<Json>)
    requires Typed(s, a) && Typed(s, b)
    requires Decode(s, a) == Decode(s, b) && SpellingOf(s, a, true) == SpellingOf(s, b, true)
    ensures a == b
    decreases s, 1
  {
    match s
    case Scalar(_) =>
    case Parsed(_, _) =>
    case Instant(_, _) =>
    case Pointer(target) =>
      if a.Some? && b.Some? {
        Determined(target, a, b);
      }
    case Struct(fs) =>
      if a.Some? && b.Some? {
        FieldsDetermined(fs, a.value.fields, b.value.fields);
        EqualByFields(fs, a.value.fields, b.value.fields);
      }
    case Slice(item) =>
      if a.Some? && b.Some? {
        ItemsDetermined(item, a.value.items, b.value.items);
      }
    case Keyed(item, _) =>
      if a.Some? && b.Some? {
        ItemsDetermined(item, a.value.items, b.value.items);
      }
    case Dict(item) =>
      if a.Some? && b.Some? {
        EntriesDetermined(item, a.value.fields, b.value.fields);
      }
  }

  lemma {:induction false} FieldsDetermined(fs: Fields, m: map<string, Json>, n: map<string, Json>)
    requires WellTypedFields(fs, m) && WellTypedFields(fs, n)
    requires DecodeFields(fs, m) == DecodeFields(fs, n)
    requires SpellingOfFields(fs, m, true) == SpellingOfFields(fs, n, true)
    ensures forall key :: Declares(fs, key) ==> Member(m, key) == Member(n, key)
    decreases fs, 0
  {
    if fs.Field? {
      assert DecodeFields(fs, m)[0] == DecodeFields(fs, n)[0];
      assert DecodeFields(fs, m)[1..] == DecodeFields(fs, n)[1..];
      assert SpellingOfFields(fs, m, true)[0] == SpellingOfFields(fs, n, true)[0];
      assert SpellingOfFields(fs, m, true)[1..] == SpellingOfFields(fs, n, true)[1..];
      Determined(fs.schema, Member(m, fs.name), Member(n, fs.name));
      FieldsDetermined(fs.rest, m, n);
    }
  }

  lemma {:induction false} ItemsDetermined(item: Schema, xs: seq<Json>, ys: seq<Json>)
    requires forall i :: 0 <= i < |xs| ==> WellTyped(item, xs[i])
    requires forall i :: 0 <= i < |ys| ==> WellTyped(item, ys[i])
    requires DecodeItems(item, Some(Array(xs))) == DecodeItems(item, Some(Array(ys)))
    requires SpellingOfItems(item, Array(xs), true) == SpellingOfItems(item, Array(ys), true)
    ensures xs == ys
    decreases item, 2
  {
    if xs == [] && ys == [] {
      return;
    }
    ItemsDecoded(item, xs, ys, 0);
    forall i | 0 <= i < |xs|
      ensures xs[i] == ys[i]
    {
      ItemsDecoded(item, xs, ys, i);
      ItemsSpelled(item, xs, ys, i, true);
      Determined(item, Some(xs[i]), Some(ys[i]));
    }
  }

  lemma {:induction false} EntriesDetermined(item: Schema, m: map<string, Json>, n: map<string, Json>)
    requires forall key :: key in m ==> WellTyped(item, m[key])
    requires forall key :: key in n ==> WellTyped(item, n[key])
    requires Decode(Dict(item), Some(Object(m))) == Decode(Dict(item), Some(Object(n)))
    requires SpellingOf(Dict(item), Some(Object(m)), true) == SpellingOf(Dict(item), Some(Object(n)), true)
    ensures m == n
    decreases item, 2
  {
    var sm, sn := SpellingOf(Dict(item), Some(Object(m)), true), SpellingOf(Dict(item), Some(Object(n)), true);
    forall key | key in m || key in n
      ensures key in m && key in n && m[key] == n[key]
    {
      EntriesDecoded(item, m, n, key);
      assert sm.entries[key] == SpellingOf(item, Some(m[key]), true);
      assert sn.entries[key] == SpellingOf(item, Some(n[key]), true);
      Determined(item, Some(m[key]), Some(n[key]));
    }
  }

  // ---------- schemas without instants ----------

  predicate Timeless(s: Schema) {
    match s
    case Scalar(_) => true
    case Parsed(_, _) => true
    case Instant(_, _) => false
    case Pointer(target) => Timeless(target)
    case Struct(fs) => TimelessFields(fs)
    case Slice(item) => Timeless(item)
    case Keyed(item, _) => Timeless(item)
    case Dict(item) => Timeless(item)
  }

  predicate TimelessFields(fs: Fields) {
    fs.Field? ==> Timeless(fs.schema) && TimelessFields(fs.rest)
  }

  /** Without instants, the spelling that CEL sees is the whole spelling. */
  lemma {:induction false} NoStamps(s: Schema, a: Option<Json>)
    requires Timeless(s)
    ensures SpellingOf(s, a, true) == SpellingOf(s, a, false)
    decreases s, 0
  {
    if a.Some? {
      match s
      case Scalar(_) =>
      case Parsed(_, _) =>
      case Pointer(target) => NoStamps(target, a);
      case Struct(fs) => NoStampsInFields(fs, if a.value.Object? then a.value.fields else map[]);
      case Slice(item) => NoStampsInItems(item, a.value);
      case Keyed(item, _) => NoStampsInItems(item, a.value);
      case Dict(item) =>
        if a.value.Object? {
          forall key | key in a.value.fields
            ensures SpellingOf(item, Some(a.value.fields[key]), true) ==
                    SpellingOf(item, Some(a.value.fields[key]), false)
          {
            NoStamps(item, Some(a.value.fields[key]));
          }
        }
    }
  }

  lemma {:induction false} NoStampsInItems(item: Schema, j: Json)
    requires Timeless(item)
    ensures SpellingOfItems(item, j, true) == SpellingOfItems(item, j, false)
    decreases item, 1
  {
    if j.Array? {
      forall i | 0 <= i < |j.items|
        ensures SpellingOf(item, Some(j.items[i]), true) == SpellingOf(item, Some(j.items[i]), false)
      {
        NoStamps(item, Some(j.items[i]));
      }
    }
  }

  lemma {:induction false} NoStampsInFields(fs: Fields, m: map<string, Json>)
    requires TimelessFields(fs)
    ensures SpellingOfFields(fs, m, true) == SpellingOfFields(fs, m, false)
    decreases fs, 0
  {
    if fs.Field? {
      NoStamps(fs.schema, Member(m, fs.name));
      NoStampsInFields(fs.rest, m);
    }
  }

  /**
   Documents that CEL finds equal and that decode to equal Go values are identical exactly if their instants
   are spelled alike; without instants, they are identical.
   */
  lemma ComparisonsMeet(s: Schema, a: Option<Json>, b: Option<Json>)
    requires Sound(s) && Typed(s, a) && Typed(s, b)
    requires Same(s, a, b) && Decode(s, a) == Decode(s, b)
    ensures a == b <==> SpellingOf(s, a, true) == SpellingOf(s, b, true)
    ensures Timeless(s) ==> a == b
  {
    if SpellingOf(s, a, true) == SpellingOf(s, b, true) {
      Determined(s, a, b);
    }
    if Timeless(s) {
      EqualIsSpelledAlike(s, a, b);
      NoStamps(s, a);
      NoStamps(s, b);
      Determined(s, a, b);
    }
  }

  // ---------- schemas without keyed lists ----------

  predicate Ordered(s: Schema) {
    match s
    case Scalar(_) => true
    case Parsed(_, _) => true
    case Instant(_, _) => true
    case Pointer(target) => Ordered(target)
    case Struct(fs) => OrderedFields(fs)
    case Slice(item) => Ordered(item)
    case Keyed(_, _) => false
    case Dict(item) => Ordered(item)
  }

  predicate OrderedFields(fs: Fields) {
    fs.Field? ==> Ordered(fs.schema) && OrderedFields(fs.rest)
  }

  /** Without keyed lists, CEL-equal documents decode to equal Go values. */
  lemma {:induction false} EqualDecodesAlike(s: Schema, x: Json, y: Json)
    requires Ordered(s) && CelEqual(s, x, y)
    ensures Decode(s, Some(x)) == Decode(s, Some(y))
    decreases s
  {
    match s
    case Scalar(_) =>
    case Parsed(_, _) =>
    case Instant(_, _) =>
    case Pointer(target) => EqualDecodesAlike(target, x, y);
    case Struct(fs) => EqualFieldsDecodeAlike(fs, x.fields, y.fields);
    case Slice(item) =>
      forall i | 0 <= i < |x.items|
        ensures Decode(item, Some(x.items[i])) == Decode(item, Some(y.items[i]))
      {
        EqualDecodesAlike(item, x.items[i], y.items[i]);
      }
    case Dict(item) =>
      forall key | key in x.fields
        ensures Decode(item, Some(x.fields[key])) == Decode(item, Some(y.fields[key]))
      {
        EqualDecodesAlike(item, x.fields[key], y.fields[key]);
      }
  }

  lemma {:induction false} EqualFieldsDecodeAlike(fs: Fields, m: map<string, Json>, n: map<string, Json>)
    requires OrderedFields(fs) && SameFields(fs, m, n)
    ensures DecodeFields(fs, m) == DecodeFields(fs, n)
    decreases fs
  {
    if fs.Field? {
      if fs.name in m {
        EqualDecodesAlike(fs.schema, m[fs.name], n[fs.name]);
      }
      EqualFieldsDecodeAlike(fs.rest, m, n);
    }
  }

  // ---------- schemas without either ----------

  predicate Exact(s: Schema) {
    match s
    case Scalar(_) => true
    case Parsed(_, _) => true
    case Instant(_, _) => false
    case Pointer(target) => Exact(target)
    case Struct(fs) => ExactFields(fs)
    case Slice(item) => Exact(item)
    case Keyed(_, _) => false
    case Dict(item) => Exact(item)
  }

  predicate ExactFields(fs: Fields) {
    fs.Field? ==> Exact(fs.schema) && ExactFields(fs.rest)
  }

  /** Without keyed lists and instants, CEL equality is identity of the documents. */
  lemma {:induction false} ExactIsIdentity(s: Schema, x: Json, y: Json)
    requires Exact(s) && WellTyped(s, x) && WellTyped(s, y) && CelEqual(s, x, y)
    ensures x == y
    decreases s, 0
  {
    match s
    case Scalar(_) =>
    case Parsed(_, _) =>
    case Pointer(target) => ExactIsIdentity(target, x, y);
    case Struct(fs) =>
      ExactFieldsAgree(fs, x.fields, y.fields);
      EqualByFields(fs, x.fields, y.fields);
    case Slice(item) =>
      forall i | 0 <= i < |x.items|
        ensures x.items[i] == y.items[i]
      {
        ExactIsIdentity(item, x.items[i], y.items[i]);
      }
    case Dict(item) =>
      forall key | key in x.fields
        ensures x.fields[key] == y.fields[key]
      {
        ExactIsIdentity(item, x.fields[key], y.fields[key]);
      }
      assert x.fields == y.fields;
  }

  lemma {:induction false} ExactFieldsAgree(fs: Fields, m: map<string, Json>, n: map<string, Json>)
    requires ExactFields(fs) && WellTypedFields(fs, m) && WellTypedFields(fs, n) && SameFields(fs, m, n)
    ensures forall key :: Declares(fs, key) ==> Member(m, key) == Member(n, key)
    decreases fs, 0
  {
    if fs.Field? {
      if fs.name in m {
        ExactIsIdentity(fs.schema, m[fs.name], n[fs.name]);
      }
      ExactFieldsAgree(fs.rest, m, n);
    }
  }

  /** A keyed list of plain items that keeps its keys in order is the same list. */
  lemma SameKeysSameList(item: Schema, key: string, xs: seq<Json>, ys: seq<Json>)
    requires Exact(item) && WellTyped(Keyed(item, key), Array(xs)) && WellTyped(Keyed(item, key), Array(ys))
    requires CelEqual(Keyed(item, key), Array(xs), Array(ys))
    requires forall i :: 0 <= i < |xs| ==> xs[i].fields[key] == ys[i].fields[key]
    ensures xs == ys
  {
    forall i | 0 <= i < |xs|
      ensures xs[i] == ys[i]
    {
      SameKeySamePlace(item, key, xs, ys, i);
      ExactIsIdentity(item, xs[i], ys[i]);
    }
  }

  lemma {:induction false} DistinctInside<T>(xs: seq<T>, ys: seq<T>)
    requires forall i, j :: 0 <= i < j < |xs| ==> xs[i] != xs[j]
    requires forall i :: 0 <= i < |xs| ==> xs[i] in ys
    ensures multiset(xs) <= multiset(ys)
  {
    if xs != [] {
      var n := |xs| - 1;
      DistinctInside(xs[..n], ys);
      assert xs == xs[..n] + [xs[n]];
      assert xs[n] !in xs[..n];
      assert multiset(ys)[xs[n]] > 0;
    }
  }

  function KeysOf(items: seq<Json>, key: string): (keys: seq<Json>)
    requires DistinctKeys(items, key)
    ensures |keys| == |items| && forall i :: 0 <= i < |items| ==> keys[i] == items[i].fields[key]
  {
    seq(|items|, i requires 0 <= i < |items| => items[i].fields[key])
  }

  lemma SameSizeInside<T>(xs: seq<T>, ys: seq<T>)
    requires |xs| == |ys|
    requires forall i, j :: 0 <= i < j < |xs| ==> xs[i] != xs[j]
    requires forall i :: 0 <= i < |xs| ==> xs[i] in ys
    ensures multiset(xs) == multiset(ys)
  {
    DistinctInside(xs, ys);
    assert |multiset(ys) - multiset(xs)| == 0;
  }

  /**
   CEL-equal keyed lists have the same keys, in some order; without keyed lists and instants in their items,
   they are rearrangements of each other.
   */
  lemma KeyedIsRearranged(item: Schema, key: string, xs: seq<Json>, ys: seq<Json>)
    requires WellTyped(Keyed(item, key), Array(xs)) && WellTyped(Keyed(item, key), Array(ys))
    requires CelEqual(Keyed(item, key), Array(xs), Array(ys))
    ensures multiset(KeysOf(xs, key)) == multiset(KeysOf(ys, key))
    ensures Exact(item) ==> multiset(xs) == multiset(ys)
  {
    forall i | 0 <= i < |xs|
      ensures KeysOf(xs, key)[i] in KeysOf(ys, key)
      ensures Exact(item) ==> xs[i] in ys
    {
      assert HasCounterpart(item, key, xs[i], ys);
      var j :| 0 <= j < |ys| && SameKey(xs[i], ys[j], key) && CelEqual(item, xs[i], ys[j]);
      assert KeysOf(ys, key)[j] == KeysOf(xs, key)[i];
      if Exact(item) {
        ExactIsIdentity(item, xs[i], ys[j]);
      }
    }
    SameSizeInside(KeysOf(xs, key), KeysOf(ys, key));
    if Exact(item) {
      SameSizeInside(xs, ys);
    }
  }

  /** Such a schema is sound. */
  lemma {:induction false} ExactIsSound(s: Schema)
    requires Exact(s)
    ensures Sound(s) && Timeless(s)
    decreases s
  {
    match s
    case Scalar(_) =>
    case Parsed(_, _) =>
    case Pointer(target) => ExactIsSound(target);
    case Struct(fs) => ExactFieldsAreSound(fs);
    case Slice(item) => ExactIsSound(item);
    case Dict(item) => ExactIsSound(item);
  }

  lemma {:induction false} ExactFieldsAreSound(fs: Fields)
    requires ExactFields(fs)
    ensures SoundFields(fs) && TimelessFields(fs)
    decreases fs
  {
    if fs.Field? {
      ExactIsSound(fs.schema);
      ExactFieldsAreSound(fs.rest);
    }
  }

  // ---------- records with one instant ----------

  /** Every field compares exactly but `key`, which is an instant. */
  predicate OneInstant(fs: Fields, key: string) {
    fs.Field? ==> (if fs.name == key then fs.schema.Instant? else Exact(fs.schema)) && OneInstant(fs.rest, key)
  }

  lemma {:induction false} ExactIsOrdered(s: Schema)
    requires Exact(s)
    ensures Ordered(s)
    decreases s
  {
    match s
    case Scalar(_) =>
    case Parsed(_, _) =>
    case Pointer(target) => ExactIsOrdered(target);
    case Struct(fs) => ExactFieldsAreOrdered(fs);
    case Slice(item) => ExactIsOrdered(item);
    case Dict(item) => ExactIsOrdered(item);
  }

  lemma {:induction false} OneInstantIsOrdered(fs: Fields, key: string)
    requires OneInstant(fs, key)
    ensures OrderedFields(fs) && SoundFields(fs)
    decreases fs
  {
    if fs.Field? {
      if fs.name != key {
        ExactIsOrdered(fs.schema);
        ExactIsSound(fs.schema);
      }
      OneInstantIsOrdered(fs.rest, key);
    }
  }

  lemma {:induction false} ExactFieldsAreOrdered(fs: Fields)
    requires ExactFields(fs)
    ensures OrderedFields(fs)
    decreases fs
  {
    if fs.Field? {
      ExactIsOrdered(fs.schema);
      ExactFieldsAreOrdered(fs.rest);
    }
  }

  /** CEL-equal records with one instant agree on every other field. */
  lemma {:induction false} OthersAgree(fs: Fields, key: string, m: map<string, Json>, n: map<string, Json>)
    requires OneInstant(fs, key) && WellTypedFields(fs, m) && WellTypedFields(fs, n) && SameFields(fs, m, n)
    ensures forall k :: Declares(fs, k) && k != key ==> Member(m, k) == Member(n, k)
    decreases fs
  {
    if fs.Field? {
      if fs.name in m && fs.name != key {
        ExactIsIdentity(fs.schema, m[fs.name], n[fs.name]);
      }
      OthersAgree(fs.rest, key, m, n);
    }
  }

  /**
   CEL-equal records with one instant decode to equal Go values, and they are the same document exactly if
   the instant is spelled alike.
   */
  lemma OneInstantCompares(fs: Fields, key: string, x: Json, y: Json)
    requires OneInstant(fs, key) && WellTyped(Struct(fs), x) && WellTyped(Struct(fs), y) && CelEqual(Struct(fs), x, y)
    ensures Decode(Struct(fs), Some(x)) == Decode(Struct(fs), Some(y))
    ensures x == y <==> Member(x.fields, key) == Member(y.fields, key)
  {
    OneInstantIsOrdered(fs, key);
    EqualDecodesAlike(Struct(fs), x, y);
    OthersAgree(fs, key, x.fields, y.fields);
    if Member(x.fields, key) == Member(y.fields, key) {
      EqualByFields(fs, x.fields, y.fields);
    }
  }

  /** The field reads both spellings as one instant. */
  predicate SameInstant(fs: Fields, key: string, x: Json, y: Json) {
    fs.Field? ==>
      && (fs.name == key && fs.schema.Instant? ==> fs.schema.read(x) == fs.schema.read(y))
      && SameInstant(fs.rest, key, x, y)
  }

  lemma {:induction false} SameInstantSymmetric(fs: Fields, key: string, x: Json, y: Json)
    requires SameInstant(fs, key, x, y)
    ensures SameInstant(fs, key, y, x)
    decreases fs
  {
    if fs.Field? {
      SameInstantSymmetric(fs.rest, key, x, y);
    }
  }

  /** Respelling the instant gives a CEL-equal record. */
  lemma {:induction false} RespelledFields(fs: Fields, key: string, m: map<string, Json>, stamp: Json)
    requires OneInstant(fs, key) && WellTypedFields(fs, m) && key in m && !stamp.Null?
    requires SameInstant(fs, key, m[key], stamp)
    ensures WellTypedFields(fs, m[key := stamp]) && SameFields(fs, m[key := stamp], m)
    decreases fs
  {
    if fs.Field? {
      var n := m[key := stamp];
      if fs.name != key {
        assert Member(n, fs.name) == Member(m, fs.name);
        SameReflexive(fs.schema, Member(m, fs.name));
      }
      RespelledFields(fs.rest, key, m, stamp);
    }
  }

  lemma {:induction false} EqualHasSameInstant(fs: Fields, key: string, m: map<string, Json>, n: map<string, Json>)
    requires OneInstant(fs, key) && SameFields(fs, m, n) && key in m && key in n
    ensures SameInstant(fs, key, m[key], n[key])
    decreases fs
  {
    if fs.Field? {
      if fs.name == key {
        assert CelEqual(fs.schema, m[key], n[key]);
      }
      EqualHasSameInstant(fs.rest, key, m, n);
    }
  }

  /** `m` is `n`, but for another spelling of the instant at `key`. */
  ghost predicate Respelled(fs: Fields, key: string, m: map<string, Json>, n: map<string, Json>) {
    && (forall k :: k != key ==> Member(m, k) == Member(n, k))
    && (key in m <==> key in n)
    && (key in m && key in n ==> SameInstant(fs, key, m[key], n[key]))
  }

  lemma {:induction false} StampIsWritten(fs: Fields, key: string, m: map<string, Json>)
    requires OneInstant(fs, key) && WellTypedFields(fs, m) && Declares(fs, key) && key in m
    ensures !m[key].Null?
    decreases fs
  {
    if fs.name != key {
      StampIsWritten(fs.rest, key, m);
    }
  }

  lemma {:induction false} KeyStays(fs: Fields, key: string, m: map<string, Json>, n: map<string, Json>)
    requires SameFields(fs, m, n) && Declares(fs, key)
    ensures key in m <==> key in n
    decreases fs
  {
    if fs.name != key {
      KeyStays(fs.rest, key, m, n);
    }
  }

  lemma EqualMaps(m: map<string, Json>, n: map<string, Json>)
    requires forall key :: Member(m, key) == Member(n, key)
    ensures m == n
  {
    forall key
      ensures key in m <==> key in n
      ensures key in m && key in n ==> m[key] == n[key]
    {
      assert Member(m, key) == Member(n, key);
    }
  }

  /** CEL finds records with one instant equal exactly if at most the instant is spelled differently. */
  lemma OneInstantIsRespelled(fs: Fields, key: string, x: Json, y: Json)
    requires OneInstant(fs, key) && WellTyped(Struct(fs), x) && WellTyped(Struct(fs), y)
    ensures CelEqual(Struct(fs), x, y) <==> Respelled(fs, key, x.fields, y.fields)
  {
    var m, n := x.fields, y.fields;
    if CelEqual(Struct(fs), x, y) {
      OthersAgree(fs, key, m, n);
      forall k | k != key
        ensures Member(m, k) == Member(n, k)
      {
        assert !Declares(fs, k) ==> k !in m && k !in n;
      }
      if key in m || key in n {
        KeyStays(fs, key, m, n);
        EqualHasSameInstant(fs, key, m, n);
      }
    }
    if Respelled(fs, key, m, n) {
      if key in m {
        StampIsWritten(fs, key, m);
        SameInstantSymmetric(fs, key, m[key], n[key]);
        RespelledFields(fs, key, n, m[key]);
        EqualMaps(m, n[key := m[key]]);
      } else {
        EqualMaps(m, n);
        FieldsReflexive(fs, n);
      }
    }
  }
}
