/** The tool fingerprint's hash input, and the canonical form of a parameter schema that makes
    it independent of object-key order. */
module Fingerprint {
  import opened Results
  import opened Keys

  datatype Atom = Null | Bool(truth: bool) | Number(number: real) | Text(text: Key)

  /** A JSON value as a JavaScript engine holds it; an object's entries in enumeration order. */
  datatype Json = Scalar(atom: Atom) | Arr(items: seq<Json>) | Obj(entries: seq<Entry<Json>>)

  /** The key whose assignment reaches the prototype setter and creates no own property. */
  const PROTO: Key := [95, 95, 112, 114, 111, 116, 111, 95, 95]

  // ----- an object under construction -----

  predicate HasKey<V>(out: seq<Entry<V>>, key: Key) {
    exists i :: 0 <= i < |out| && out[i].key == key
  }

  /** Puts a new array index after the smaller ones and before everything else. */
  function InsertIndex<V>(out: seq<Entry<V>>, e: Entry<V>): seq<Entry<V>> {
    if out != [] && IsIndex(out[0].key) && DigitsValue(out[0].key) < DigitsValue(e.key) then
      [out[0]] + InsertIndex(out[1..], e)
    else [e] + out
  }

  /** `out[key] = value` on a plain object. */
  function Assign<V>(out: seq<Entry<V>>, e: Entry<V>): seq<Entry<V>> {
    if e.key == PROTO then out
    else if HasKey(out, e.key) then
      seq(|out|, i requires 0 <= i < |out| => if out[i].key == e.key then e else out[i])
    else if IsIndex(e.key) then InsertIndex(out, e)
    else out + [e]
  }

  function Filled<V>(es: seq<Entry<V>>): seq<Entry<V>> {
    if es == [] then [] else Assign(Filled(es[..|es| - 1]), es[|es| - 1])
  }

  function Canon(v: Json): Json {
    match v
    case Scalar(_) => v
    case Arr(items) => Arr(seq(|items|, i requires 0 <= i < |items| => Canon(items[i])))
    case Obj(es) =>
      Obj(Filled(SortedByKey(seq(|es|, i requires 0 <= i < |es| => Entry(es[i].key, Canon(es[i].value))))))
  }

  // ----- the code -----

  method Canonicalize(value: Json) returns (out: Json)
    ensures out == Canon(value)
    decreases value, 1
  {
    match value {
      case Scalar(_) => out := value;
      case Arr(items) =>
        out := CanonicalizeItems(value);
      case Obj(es) =>
        var sorted := SortedByKey(es);
        var filled: seq<Entry<Json>> := [];
        for k := 0 to |sorted|
          invariant filled == Filled(MapValues(sorted[..k], Canon))
        {
          ghost var i := SortTakes(es, k);
          assert sorted[k].value == es[i].value;
          var canonical := Canonicalize(sorted[k].value);
          filled := Assign(filled, Entry(sorted[k].key, canonical));
          FillStep(sorted, k);
        }
        CanonOfObject(es);
        assert sorted[..|sorted|] == sorted;
        out := Obj(filled);
    }
  }

  /** `value.map(canonicalize)`. */
  method CanonicalizeItems(value: Json) returns (out: Json)
    requires value.Arr?
    ensures out == Canon(value)
    decreases value, 0
  {
    var mapped: seq<Json> := [];
    for k := 0 to |value.items|
      invariant mapped == Each(value.items[..k], Canon)
    {
      var item := Canonicalize(value.items[k]);
      EachStep(value.items, k, Canon);
      mapped := mapped + [item];
    }
    CanonOfArray(value.items);
    assert value.items[..|value.items|] == value.items;
    out := Arr(mapped);
  }

  function Each<V, W>(xs: seq<V>, f: V -> W): seq<W> {
    seq(|xs|, i requires 0 <= i < |xs| => f(xs[i]))
  }

  lemma EachStep<V, W>(xs: seq<V>, k: nat, f: V -> W)
    requires k < |xs|
    ensures Each(xs[..k + 1], f) == Each(xs[..k], f) + [f(xs[k])]
  {
  }

  lemma CanonOfArray(items: seq<Json>)
    ensures Canon(Arr(items)) == Arr(Each(items, Canon))
  {
    assert Canon(Arr(items)).items == Each(items, Canon);
  }

  lemma FillStep(sorted: seq<Entry<Json>>, k: nat)
    requires k < |sorted|
    ensures Filled(MapValues(sorted[..k + 1], Canon))
         == Assign(Filled(MapValues(sorted[..k], Canon)), Entry(sorted[k].key, Canon(sorted[k].value)))
  {
    var now := MapValues(sorted[..k + 1], Canon);
    assert now[..k] == MapValues(sorted[..k], Canon);
  }

  lemma {:induction false} CanonOfObject(es: seq<Entry<Json>>)
    ensures Canon(Obj(es)) == Obj(Filled(MapValues(SortedByKey(es), Canon)))
  {
    SortMaps(es, Canon);
    assert MapValues(es, Canon) == seq(|es|, i requires 0 <= i < |es| => Entry(es[i].key, Canon(es[i].value)));
  }

  lemma SortTakes<V>(es: seq<Entry<V>>, k: nat) returns (i: nat)
    requires k < |SortedByKey(es)|
    ensures i < |es| && es[i] == SortedByKey(es)[k]
  {
    SortIsOrdered(es);
    assert SortedByKey(es)[k] in multiset(es);
    i :| 0 <= i < |es| && es[i] == SortedByKey(es)[k];
  }

  // ----- what a value means, apart from key order -----

  datatype Meaning = Plain(atom: Atom) | List(parts: seq<Meaning>) | Record(fields: map<Key, Meaning>)

  function AsMap<V>(es: seq<Entry<V>>): map<Key, V> {
    if es == [] then map[] else AsMap(es[..|es| - 1])[es[|es| - 1].key := es[|es| - 1].value]
  }

  /** The value up to key order; properties whose key is in `skip` do not matter, at any depth. */
  function MeaningOf(v: Json, skip: set<Key>): Meaning {
    match v
    case Scalar(a) => Plain(a)
    case Arr(items) => List(seq(|items|, i requires 0 <= i < |items| => MeaningOf(items[i], skip)))
    case Obj(es) =>
      Record(AsMap(seq(|es|, i requires 0 <= i < |es| => Entry(es[i].key, MeaningOf(es[i].value, skip)))) - skip)
  }

  predicate DistinctKeys<V>(es: seq<Entry<V>>) {
    forall i, j :: 0 <= i < j < |es| ==> es[i].key != es[j].key
  }

  /** An object holds a key once. */
  predicate Valid(v: Json) {
    match v
    case Scalar(_) => true
    case Arr(items) => forall i :: 0 <= i < |items| ==> Valid(items[i])
    case Obj(es) => DistinctKeys(es) && forall i :: 0 <= i < |es| ==> Valid(es[i].value)
  }

  predicate ProtoFree(v: Json) {
    match v
    case Scalar(_) => true
    case Arr(items) => forall i :: 0 <= i < |items| ==> ProtoFree(items[i])
    case Obj(es) => forall i :: 0 <= i < |es| ==> es[i].key != PROTO && ProtoFree(es[i].value)
  }

  ghost predicate Tabulates<V>(es: seq<Entry<V>>, m: map<Key, V>) {
    && (forall i :: 0 <= i < |es| ==> es[i].key in m && m[es[i].key] == es[i].value)
    && (forall k :: k in m ==> HasKey(es, k))
  }

  lemma {:induction false} AsMapHolds<V>(es: seq<Entry<V>>)
    requires DistinctKeys(es)
    ensures Tabulates(es, AsMap(es))
  {
    if es != [] {
      var front := es[..|es| - 1];
      AsMapHolds(front);
      forall k | k in AsMap(es) ensures HasKey(es, k) {
        if k == es[|es| - 1].key {
          assert es[|es| - 1].key == k;
        } else {
          assert HasKey(front, k);
          var i :| 0 <= i < |front| && front[i].key == k;
          assert es[i].key == k;
        }
      }
    }
  }

  // ----- what the filled object holds, and in which order -----

  /** The property assignments take: all but the prototype key, each where the enumeration
      order puts it. */
  ghost predicate Fills<V>(es: seq<Entry<V>>, out: seq<Entry<V>>) {
    && InEnumOrder(out)
    && (forall i :: 0 <= i < |out| ==> out[i].key != PROTO && out[i] in multiset(es))
    && (forall i :: 0 <= i < |es| ==> es[i].key != PROTO ==> es[i] in multiset(out))
  }

  lemma {:induction false} InsertIndexAdds<V>(out: seq<Entry<V>>, e: Entry<V>)
    ensures multiset(InsertIndex(out, e)) == multiset(out) + multiset{e}
  {
    if out != [] {
      InsertIndexAdds(out[1..], e);
      assert out == [out[0]] + out[1..];
    }
  }

  lemma {:induction false} InsertIndexFits<V>(out: seq<Entry<V>>, e: Entry<V>)
    requires InEnumOrder(out) && !HasKey(out, e.key) && IsIndex(e.key)
    ensures InEnumOrder(InsertIndex(out, e))
  {
    if out != [] {
      var head, tail := out[0], out[1..];
      assert head.key != e.key;
      if IsIndex(head.key) && DigitsValue(head.key) < DigitsValue(e.key) {
        TailInOrder(out, e.key);
        InsertIndexFits(tail, e);
        InsertIndexAdds(tail, e);
        HeadInOrder(out, e, InsertIndex(tail, e));
      } else {
        IndexComesBefore(e.key, head.key);
        forall i | 0 <= i < |out| ensures EnumBefore(e.key, out[i].key) {
          if i > 0 { EnumTransitive(e.key, out[0].key, out[i].key); }
        }
      }
    }
  }

  lemma TailInOrder<V>(out: seq<Entry<V>>, key: Key)
    requires out != [] && InEnumOrder(out) && !HasKey(out, key)
    ensures InEnumOrder(out[1..]) && !HasKey(out[1..], key)
  {
    assert forall i :: 0 <= i < |out[1..]| ==> out[1..][i] == out[i + 1];
  }

  lemma HeadInOrder<V>(out: seq<Entry<V>>, e: Entry<V>, put: seq<Entry<V>>)
    requires out != [] && InEnumOrder(out) && EnumBefore(out[0].key, e.key)
    requires InEnumOrder(put) && multiset(put) == multiset(out[1..]) + multiset{e}
    ensures InEnumOrder([out[0]] + put)
  {
    forall i | 0 <= i < |put| ensures EnumBefore(out[0].key, put[i].key) {
      BeforeAll(out, e, put, i);
    }
  }

  lemma BeforeAll<V>(out: seq<Entry<V>>, e: Entry<V>, put: seq<Entry<V>>, i: nat)
    requires out != [] && InEnumOrder(out) && EnumBefore(out[0].key, e.key)
    requires i < |put| && multiset(put) == multiset(out[1..]) + multiset{e}
    ensures EnumBefore(out[0].key, put[i].key)
  {
    assert put[i] in multiset(put);
    if put[i] != e {
      assert put[i] in multiset(out[1..]);
      var k :| 0 <= k < |out[1..]| && out[1..][k] == put[i];
      assert out[k + 1] == put[i];
    }
  }

  lemma {:induction false} AssignFits<V>(es: seq<Entry<V>>, out: seq<Entry<V>>, e: Entry<V>)
    requires Fills(es, out)
    requires forall i :: 0 <= i < |es| ==> KeyLess(es[i].key, e.key)
    ensures Fills(es + [e], Assign(out, e))
  {
    forall i | 0 <= i < |out| ensures KeyLess(out[i].key, e.key) && out[i].key != e.key {
      var k :| 0 <= k < |es| && es[k] == out[i];
      KeyOrder(out[i].key, e.key);
    }
    var result := Assign(out, e);
    assert multiset(es + [e]) == multiset(es) + multiset{e};
    if e.key != PROTO {
      if IsIndex(e.key) {
        InsertIndexFits(out, e);
        InsertIndexAdds(out, e);
      } else {
        assert multiset(out + [e]) == multiset(out) + multiset{e};
      }
      assert multiset(result) == multiset(out) + multiset{e};
      forall i | 0 <= i < |result| ensures result[i].key != PROTO && result[i] in multiset(es + [e]) {
        assert result[i] in multiset(result);
        if result[i] != e {
          assert result[i] in multiset(out);
          var k :| 0 <= k < |out| && out[k] == result[i];
        }
      }
    }
  }

  predicate StrictlySorted<V>(es: seq<Entry<V>>) {
    forall i, j :: 0 <= i < j < |es| ==> KeyLess(es[i].key, es[j].key)
  }

  lemma DistinctIsStrict<V>(es: seq<Entry<V>>)
    requires DistinctKeys(es) && InKeyOrder(es)
    ensures StrictlySorted(es)
  {
    forall i, j | 0 <= i < j < |es| ensures KeyLess(es[i].key, es[j].key) {
      assert es[i].key != es[j].key;
      KeyOrder(es[i].key, es[j].key);
    }
  }

  /** Assigning the properties in key order fills the object as its enumeration order has it. */
  lemma {:induction false} FilledFits<V>(es: seq<Entry<V>>)
    requires StrictlySorted(es)
    ensures Fills(es, Filled(es))
  {
    if es != [] {
      var front, e := es[..|es| - 1], es[|es| - 1];
      assert es == front + [e];
      FilledFits(front);
      AssignFits(front, Filled(front), e);
    }
  }

  lemma {:induction false} PlacedDistinct<V>(sorted: seq<Entry<V>>, e: Entry<V>)
    requires DistinctKeys(sorted) && !HasKey(sorted, e.key)
    ensures DistinctKeys(Placed(sorted, e))
  {
    if sorted != [] && KeyLess(e.key, sorted[|sorted| - 1].key) {
      var front, last := sorted[..|sorted| - 1], sorted[|sorted| - 1];
      assert forall i :: 0 <= i < |front| ==> front[i] == sorted[i];
      PlacedDistinct(front, e);
      PlacedAdds(front, e);
      var placed := Placed(front, e);
      forall i | 0 <= i < |placed| ensures placed[i].key != last.key {
        assert placed[i] in multiset(placed);
        if placed[i] != e {
          assert placed[i] in multiset(front);
          var k :| 0 <= k < |front| && front[k] == placed[i];
          assert sorted[k].key != sorted[|sorted| - 1].key;
        }
      }
    }
  }

  lemma {:induction false} SortDistinct<V>(es: seq<Entry<V>>)
    requires DistinctKeys(es)
    ensures DistinctKeys(SortedByKey(es))
  {
    if es != [] {
      var front, e := es[..|es| - 1], es[|es| - 1];
      SortDistinct(front);
      var sorted := SortedByKey(front);
      forall i | 0 <= i < |sorted| ensures sorted[i].key != e.key {
        var k := SortTakes(front, i);
        assert es[k].key != es[|es| - 1].key;
      }
      PlacedDistinct(sorted, e);
    }
  }

  /** The canonical object holds exactly the canonical properties that are not the prototype's. */
  lemma {:induction false} CanonFills(es: seq<Entry<Json>>)
    requires DistinctKeys(es)
    ensures Fills(MapValues(es, Canon), Canon(Obj(es)).entries)
  {
    var mapped := MapValues(es, Canon);
    var sorted := SortedByKey(mapped);
    assert Canon(Obj(es)) == Obj(Filled(sorted)) by {
      CanonOfObject(es);
      SortMaps(es, Canon);
    }
    SortDistinct(mapped);
    SortIsOrdered(mapped);
    DistinctIsStrict(sorted);
    FilledFits(sorted);
    FillsPermuted(sorted, mapped, Filled(sorted));
  }

  lemma FillsPermuted<V>(a: seq<Entry<V>>, b: seq<Entry<V>>, out: seq<Entry<V>>)
    requires Fills(a, out) && multiset(a) == multiset(b)
    ensures Fills(b, out)
  {
    forall i | 0 <= i < |b| && b[i].key != PROTO ensures b[i] in multiset(out) {
      assert b[i] in multiset(a);
      var k :| 0 <= k < |a| && a[k] == b[i];
    }
  }

  lemma EnumOrderIsDistinct<V>(out: seq<Entry<V>>)
    requires InEnumOrder(out)
    ensures DistinctKeys(out)
  {
    forall i, j | 0 <= i < j < |out| ensures out[i].key != out[j].key {
      KeyOrder(out[i].key, out[j].key);
      assert EnumBefore(out[i].key, out[j].key);
    }
  }

  lemma SourceOf<V>(es: seq<Entry<V>>, out: seq<Entry<V>>, i: nat) returns (k: nat)
    requires Fills(es, out) && i < |out|
    ensures k < |es| && es[k] == out[i] && out[i].key != PROTO
  {
    assert out[i] in multiset(es);
    k :| 0 <= k < |es| && es[k] == out[i];
  }

  lemma TargetOf<V>(es: seq<Entry<V>>, out: seq<Entry<V>>, k: nat) returns (i: nat)
    requires Fills(es, out) && k < |es| && es[k].key != PROTO
    ensures i < |out| && out[i] == es[k]
  {
    assert es[k] in multiset(out);
    i :| 0 <= i < |out| && out[i] == es[k];
  }

  /** Both lists hold the same properties, but for the prototype's in `b`. */
  ghost predicate Agree<V>(a: seq<Entry<V>>, b: seq<Entry<V>>) {
    && (forall i {:trigger multiset(b)[a[i]]} :: 0 <= i < |a| ==> a[i].key != PROTO && a[i] in multiset(b))
    && (forall i {:trigger multiset(a)[b[i]]} :: 0 <= i < |b| ==> b[i].key != PROTO ==> b[i] in multiset(a))
  }

  lemma EntryIsTabulated<V>(es: seq<Entry<V>>, m: map<Key, V>, e: Entry<V>)
    requires Tabulates(es, m) && e in multiset(es)
    ensures e.key in m && m[e.key] == e.value
  {
    var i :| 0 <= i < |es| && es[i] == e;
  }

  lemma SameMap<V>(a: seq<Entry<V>>, ma: map<Key, V>, b: seq<Entry<V>>, mb: map<Key, V>)
    requires Tabulates(a, ma) && Tabulates(b, mb) && Agree(a, b)
    ensures ma == mb - {PROTO}
  {
    forall k | k in ma ensures k != PROTO && k in mb && ma[k] == mb[k] {
      var i :| 0 <= i < |a| && a[i].key == k;
      assert a[i] in multiset(b);
      EntryIsTabulated(b, mb, a[i]);
    }
    forall k | k in mb && k != PROTO ensures k in ma {
      var j :| 0 <= j < |b| && b[j].key == k;
      assert b[j] in multiset(a);
      EntryIsTabulated(a, ma, b[j]);
    }
  }

  lemma FilledHas<V, W, M>(es: seq<Entry<V>>, f: V -> W, out: seq<Entry<W>>, g: W -> M, h: V -> M, i: nat)
    requires Fills(MapValues(es, f), out) && i < |out|
    requires forall k :: 0 <= k < |es| ==> g(f(es[k].value)) == h(es[k].value)
    ensures MapValues(out, g)[i].key != PROTO && MapValues(out, g)[i] in multiset(MapValues(es, h))
  {
    var k := SourceOf(MapValues(es, f), out, i);
    assert MapValues(out, g)[i] == MapValues(es, h)[k];
  }

  lemma FilledGets<V, W, M>(es: seq<Entry<V>>, f: V -> W, out: seq<Entry<W>>, g: W -> M, h: V -> M, k: nat)
    requires Fills(MapValues(es, f), out) && k < |es| && es[k].key != PROTO
    requires g(f(es[k].value)) == h(es[k].value)
    ensures MapValues(es, h)[k] in multiset(MapValues(out, g))
  {
    var i := TargetOf(MapValues(es, f), out, k);
    assert MapValues(out, g)[i] == MapValues(es, h)[k];
  }

  lemma FilledMap<V, W, M>(es: seq<Entry<V>>, f: V -> W, out: seq<Entry<W>>, g: W -> M, h: V -> M)
    requires DistinctKeys(es) && DistinctKeys(out) && Fills(MapValues(es, f), out)
    requires forall k :: 0 <= k < |es| ==> g(f(es[k].value)) == h(es[k].value)
    ensures AsMap(MapValues(out, g)) == AsMap(MapValues(es, h)) - {PROTO}
  {
    var a, b := MapValues(out, g), MapValues(es, h);
    assert Agree(a, b) by {
      forall i | 0 <= i < |a| ensures a[i].key != PROTO && a[i] in multiset(b) { FilledHas(es, f, out, g, h, i); }
      forall k | 0 <= k < |b| && b[k].key != PROTO ensures b[k] in multiset(a) { FilledGets(es, f, out, g, h, k); }
    }
    AsMapHolds(a);
    AsMapHolds(b);
    SameMap(a, AsMap(a), b, AsMap(b));
  }

  function Skipping(skip: set<Key>): Json -> Meaning {
    (v: Json) => MeaningOf(v, skip)
  }

  function Meanings(es: seq<Entry<Json>>, skip: set<Key>): seq<Entry<Meaning>> {
    MapValues(es, Skipping(skip))
  }

  lemma MeaningOfObject(es: seq<Entry<Json>>, skip: set<Key>)
    ensures MeaningOf(Obj(es), skip) == Record(AsMap(Meanings(es, skip)) - skip)
  {
    assert Meanings(es, skip)
        == seq(|es|, i requires 0 <= i < |es| => Entry(es[i].key, MeaningOf(es[i].value, skip)));
  }

  /** Canonicalizing keeps a value's meaning except for properties named `__proto__`, which
      are lost at every depth. */
  lemma {:induction false} CanonKeeps(v: Json)
    requires Valid(v)
    ensures Valid(Canon(v))
    ensures MeaningOf(Canon(v), {}) == MeaningOf(v, {PROTO})
  {
    match v {
      case Scalar(_) =>
      case Arr(items) =>
        forall i | 0 <= i < |items| { CanonKeeps(items[i]); }
      case Obj(es) =>
        var out := Canon(v).entries;
        CanonFills(es);
        EnumOrderIsDistinct(out);
        forall i | 0 <= i < |es| { CanonKeeps(es[i].value); }
        assert Valid(Obj(out)) by {
          forall i | 0 <= i < |out| ensures Valid(out[i].value) { var k := SourceOf(MapValues(es, Canon), out, i); }
        }
        FilledMap(es, Canon, out, Skipping({}), Skipping({PROTO}));
        MeaningOfObject(out, {});
        MeaningOfObject(es, {PROTO});
        assert AsMap(Meanings(out, {})) - {} == AsMap(Meanings(out, {}));
    }
  }

  lemma {:induction false} CanonDetermined(a: Json, b: Json)
    requires Valid(a) && Valid(b) && MeaningOf(a, {PROTO}) == MeaningOf(b, {PROTO})
    ensures Canon(a) == Canon(b)
    decreases a, 1
  {
    match a {
      case Scalar(_) =>
      case Arr(items) =>
        forall i | 0 <= i < |items| ensures Canon(items[i]) == Canon(b.items[i]) {
          assert MeaningOf(items[i], {PROTO}) == MeaningOf(a, {PROTO}).parts[i];
          assert MeaningOf(b.items[i], {PROTO}) == MeaningOf(b, {PROTO}).parts[i];
          CanonDetermined(items[i], b.items[i]);
        }
        assert |items| == |MeaningOf(a, {PROTO}).parts| == |b.items|;
      case Obj(es) =>
        var outA, outB := Canon(a).entries, Canon(b).entries;
        CanonFills(es);
        CanonFills(b.entries);
        forall i | 0 <= i < |outA| ensures outA[i] in outB { PropertyDetermined(a, b, i, true); }
        forall i | 0 <= i < |outB| ensures outB[i] in outA { PropertyDetermined(a, b, i, false); }
        EnumOrderIsUnique(outA, outB);
    }
  }

  lemma Partner<V>(a: seq<Entry<V>>, ma: map<Key, V>, b: seq<Entry<V>>, mb: map<Key, V>, k: nat) returns (l: nat)
    requires Tabulates(a, ma) && Tabulates(b, mb) && ma - {PROTO} == mb - {PROTO}
    requires k < |a| && a[k].key != PROTO
    ensures l < |b| && b[l] == a[k]
  {
    var key := a[k].key;
    assert key in ma - {PROTO} && (ma - {PROTO})[key] == a[k].value;
    assert key in mb - {PROTO} && (mb - {PROTO})[key] == mb[key];
    l :| 0 <= l < |b| && b[l].key == key;
  }

  /** One canonical property of the one object is a canonical property of the other. */
  lemma {:induction false} PropertyDetermined(a: Json, b: Json, i: nat, forth: bool)
    requires Valid(a) && Valid(b) && a.Obj? && b.Obj? && MeaningOf(a, {PROTO}) == MeaningOf(b, {PROTO})
    requires i < |Canon(if forth then a else b).entries|
    ensures Canon(if forth then a else b).entries[i] in Canon(if forth then b else a).entries
    decreases a, 0
  {
    var x, y := if forth then a else b, if forth then b else a;
    var k, l := SameProperty(x, y, i);
    if forth {
      CanonDetermined(x.entries[k].value, y.entries[l].value);
    } else {
      CanonDetermined(y.entries[l].value, x.entries[k].value);
    }
    CanonFills(y.entries);
    var t := TargetOf(MapValues(y.entries, Canon), Canon(y).entries, l);
  }

  lemma SameProperty(x: Json, y: Json, i: nat) returns (k: nat, l: nat)
    requires Valid(x) && Valid(y) && x.Obj? && y.Obj? && MeaningOf(x, {PROTO}) == MeaningOf(y, {PROTO})
    requires i < |Canon(x).entries|
    ensures k < |x.entries| && Canon(x).entries[i] == Entry(x.entries[k].key, Canon(x.entries[k].value))
    ensures l < |y.entries| && y.entries[l].key == x.entries[k].key != PROTO
    ensures MeaningOf(y.entries[l].value, {PROTO}) == MeaningOf(x.entries[k].value, {PROTO})
  {
    k := CanonSource(x.entries, i);
    l := SameMeaning(x.entries, y.entries, k);
  }

  lemma CanonSource(es: seq<Entry<Json>>, i: nat) returns (k: nat)
    requires DistinctKeys(es) && i < |Canon(Obj(es)).entries|
    ensures k < |es| && es[k].key != PROTO
    ensures Canon(Obj(es)).entries[i] == Entry(es[k].key, Canon(es[k].value))
  {
    CanonFills(es);
    k := SourceOf(MapValues(es, Canon), Canon(Obj(es)).entries, i);
  }

  lemma SameMeaning(a: seq<Entry<Json>>, b: seq<Entry<Json>>, k: nat) returns (l: nat)
    requires DistinctKeys(a) && DistinctKeys(b) && MeaningOf(Obj(a), {PROTO}) == MeaningOf(Obj(b), {PROTO})
    requires k < |a| && a[k].key != PROTO
    ensures l < |b| && b[l].key == a[k].key
    ensures MeaningOf(b[l].value, {PROTO}) == MeaningOf(a[k].value, {PROTO})
  {
    var ma, mb := Meanings(a, {PROTO}), Meanings(b, {PROTO});
    MeaningOfObject(a, {PROTO});
    MeaningOfObject(b, {PROTO});
    AsMapHolds(ma);
    AsMapHolds(mb);
    l := Partner(ma, AsMap(ma), mb, AsMap(mb), k);
    assert mb[l] == ma[k];
  }

  /** Two values share a canonical form exactly when they agree up to key order, `__proto__`
      properties aside. */
  lemma CanonicalIff(a: Json, b: Json)
    requires Valid(a) && Valid(b)
    ensures Canon(a) == Canon(b) <==> MeaningOf(a, {PROTO}) == MeaningOf(b, {PROTO})
  {
    CanonKeeps(a);
    CanonKeeps(b);
    if MeaningOf(a, {PROTO}) == MeaningOf(b, {PROTO}) {
      CanonDetermined(a, b);
    }
  }

  lemma {:induction false} SkippingIsHarmless(v: Json)
    requires Valid(v)
    ensures MeaningOf(v, {PROTO}) == MeaningOf(v, {}) <==> ProtoFree(v)
  {
    match v {
      case Scalar(_) =>
      case Arr(items) =>
        var skipped, full := MeaningOf(v, {PROTO}).parts, MeaningOf(v, {}).parts;
        forall i | 0 <= i < |items| ensures skipped[i] == full[i] <==> ProtoFree(items[i]) {
          SkippingIsHarmless(items[i]);
        }
        if ProtoFree(v) { assert skipped == full; }
      case Obj(es) =>
        forall i | 0 <= i < |es| { SkippingIsHarmless(es[i].value); }
        SkippingInObject(es);
    }
  }

  lemma SkippingInObject(es: seq<Entry<Json>>)
    requires DistinctKeys(es)
    requires forall i :: 0 <= i < |es| ==>
      (MeaningOf(es[i].value, {PROTO}) == MeaningOf(es[i].value, {}) <==> ProtoFree(es[i].value))
    ensures MeaningOf(Obj(es), {PROTO}) == MeaningOf(Obj(es), {}) <==> ProtoFree(Obj(es))
  {
    MeaningOfObject(es, {PROTO});
    MeaningOfObject(es, {});
    if ProtoFree(Obj(es)) {
      SkipsNothing(es);
    }
    if MeaningOf(Obj(es), {PROTO}) == MeaningOf(Obj(es), {}) {
      KeepsEverything(es);
    }
  }

  lemma SkipsNothing(es: seq<Entry<Json>>)
    requires DistinctKeys(es)
    requires forall i :: 0 <= i < |es| ==>
      es[i].key != PROTO && MeaningOf(es[i].value, {PROTO}) == MeaningOf(es[i].value, {})
    ensures AsMap(Meanings(es, {PROTO})) - {PROTO} == AsMap(Meanings(es, {})) - {}
  {
    var a := Meanings(es, {PROTO});
    assert a == Meanings(es, {});
    AsMapHolds(a);
    NothingSkipped(a, AsMap(a));
    assert AsMap(a) - {} == AsMap(a);
  }

  lemma KeepsEverything(es: seq<Entry<Json>>)
    requires DistinctKeys(es)
    requires AsMap(Meanings(es, {PROTO})) - {PROTO} == AsMap(Meanings(es, {})) - {}
    ensures forall i :: 0 <= i < |es| ==>
      es[i].key != PROTO && MeaningOf(es[i].value, {PROTO}) == MeaningOf(es[i].value, {})
  {
    var a, b := Meanings(es, {PROTO}), Meanings(es, {});
    AsMapHolds(a);
    AsMapHolds(b);
    forall i | 0 <= i < |es|
      ensures es[i].key != PROTO && MeaningOf(es[i].value, {PROTO}) == MeaningOf(es[i].value, {})
    {
      EqualWhereKept(a, AsMap(a), b, AsMap(b), i);
      assert a[i].value == MeaningOf(es[i].value, {PROTO}) && b[i].value == MeaningOf(es[i].value, {});
    }
  }

  lemma NothingSkipped<V>(es: seq<Entry<V>>, m: map<Key, V>)
    requires Tabulates(es, m) && forall i :: 0 <= i < |es| ==> es[i].key != PROTO
    ensures m - {PROTO} == m
  {
    assert PROTO !in m;
  }

  lemma EqualWhereKept<V>(a: seq<Entry<V>>, ma: map<Key, V>, b: seq<Entry<V>>, mb: map<Key, V>, i: nat)
    requires Tabulates(a, ma) && Tabulates(b, mb) && ma - {PROTO} == mb - {}
    requires i < |a| && i < |b| && a[i].key == b[i].key
    ensures a[i].key != PROTO && a[i].value == b[i].value
  {
    assert b[i].key in mb - {} && (mb - {})[b[i].key] == b[i].value;
    assert (ma - {PROTO})[a[i].key] == ma[a[i].key];
  }

  /** Canonicalizing preserves a value up to key order exactly when no object in it has a
      `__proto__` key. */
  lemma {:induction false} CanonPreservesIff(v: Json)
    requires Valid(v)
    ensures MeaningOf(Canon(v), {}) == MeaningOf(v, {}) <==> ProtoFree(v)
  {
    CanonKeeps(v);
    SkippingIsHarmless(v);
  }

  lemma CanonIdempotent(v: Json)
    requires Valid(v)
    ensures Canon(Canon(v)) == Canon(v)
  {
    CanonKeeps(v);
    CanonIsProtoFree(v);
    SkippingIsHarmless(Canon(v));
    CanonDetermined(Canon(v), v);
  }

  lemma {:induction false} CanonIsProtoFree(v: Json)
    requires Valid(v)
    ensures ProtoFree(Canon(v))
  {
    match v {
      case Scalar(_) =>
      case Arr(items) =>
        forall i | 0 <= i < |items| { CanonIsProtoFree(items[i]); }
      case Obj(es) =>
        var out := Canon(v).entries;
        CanonFills(es);
        forall i | 0 <= i < |es| { CanonIsProtoFree(es[i].value); }
        forall i | 0 <= i < |out| ensures out[i].key != PROTO && ProtoFree(out[i].value) {
          var k := SourceOf(MapValues(es, Canon), out, i);
        }
    }
  }

  /** The prototype key is dropped whatever it holds, so this object and the empty one share a
      canonical form though they differ. */
  lemma ProtoIsLost(a: Atom)
    ensures var v := Obj([Entry([95, 95, 112, 114, 111, 116, 111, 95, 95], Scalar(a))]); // __proto__
      Valid(v) && Canon(v) == Canon(Obj([])) && MeaningOf(v, {}) != MeaningOf(Obj([]), {})
  {
    var es := [Entry(PROTO, Scalar(a))];
    CanonPreservesIff(Obj(es));
    assert MeaningOf(Obj(es), {PROTO}) == MeaningOf(Obj([]), {PROTO}) by {
      MeaningOfObject(es, {PROTO});
      MeaningOfObject([], {PROTO});
      assert Meanings(es, {PROTO})[..0] == [];
    }
    CanonicalIff(Obj(es), Obj([]));
    CanonPreservesIff(Obj([]));
  }

  // ----- the hash input -----

  /** A tool definition; no name stands for a missing function as well. */
  datatype Tool = Tool(name: Option<Key>, parameters: Option<Json>)

  const PIPE: Key := [124]
  const COLON: Key := [58]
  const UNDEFINED: Key := [117, 110, 100, 101, 102, 105, 110, 101, 100]

  function Named(tools: seq<Tool>): seq<Entry<Option<Json>>> {
    if tools == [] then []
    else
      Named(tools[..|tools| - 1])
      + var t := tools[|tools| - 1]; if t.name.Some? then [Entry(t.name.value, t.parameters)] else []
  }

  function CanonParameters(p: Option<Json>): Option<Json> {
    match p
    case None => None
    case Some(v) => Some(Canon(v))
  }

  /** The named tools in name order with canonical schemas. */
  function CanonicalTools(tools: seq<Tool>): seq<Entry<Option<Json>>> {
    MapValues(SortedByKey(Named(tools)), CanonParameters)
  }

  /** The text of a schema; an absent one prints as undefined. */
  function ParametersText(p: Option<Json>, stringify: Json -> Key): Key {
    if p.Some? then stringify(p.value) else UNDEFINED
  }

  function Line(t: Entry<Option<Json>>, stringify: Json -> Key): Key {
    t.key + COLON + ParametersText(t.value, stringify)
  }

  function Joined(tools: seq<Entry<Option<Json>>>, stringify: Json -> Key): Key {
    if tools == [] then []
    else if |tools| == 1 then Line(tools[0], stringify)
    else Line(tools[0], stringify) + PIPE + Joined(tools[1..], stringify)
  }

  /** What is hashed; none stands for the fixed answer "empty". */
  function HashInput(tools: Option<seq<Tool>>, stringify: Json -> Key): Option<Key> {
    if tools == None || tools.value == [] || Named(tools.value) == [] then None
    else Some(Joined(CanonicalTools(tools.value), stringify))
  }

  /** What is hashed for two tools given out of order beside one without a name: name, colon and
      schema text of each, in name order, a bar in between; an absent schema reads "undefined". */
  lemma TwoToolsHashed(x: Key, y: Key, schema: Json, unnamed: Option<Json>, stringify: Json -> Key)
    requires KeyLess(x, y)
    ensures HashInput(Some([Tool(Some(y), Some(schema)), Tool(None, unnamed), Tool(Some(x), None)]), stringify)
         == Some(x + [58] + [117, 110, 100, 101, 102, 105, 110, 101, 100] + [124] + (y + [58] + stringify(Canon(schema))))
  {
    var tools := [Tool(Some(y), Some(schema)), Tool(None, unnamed), Tool(Some(x), None)];
    TwoCanonical(x, y, schema, unnamed);
    JoinedTwo(Entry(x, None), Entry(y, Some(Canon(schema))), stringify);
  }

  lemma TwoCanonical(x: Key, y: Key, schema: Json, unnamed: Option<Json>)
    requires KeyLess(x, y)
    ensures var tools := [Tool(Some(y), Some(schema)), Tool(None, unnamed), Tool(Some(x), None)];
      Named(tools) != [] && CanonicalTools(tools) == [Entry(x, None), Entry(y, Some(Canon(schema)))]
  {
    NamedThree(Tool(Some(y), Some(schema)), Tool(None, unnamed), Tool(Some(x), None));
    SortedTwo(Entry(x, None), Entry(y, Some(schema)));
    MapTwo(Entry(x, None), Entry(y, Some(schema)), CanonParameters);
  }

  lemma MapTwo<V, W>(a: Entry<V>, b: Entry<V>, f: V -> W)
    ensures MapValues([a, b], f) == [Entry(a.key, f(a.value)), Entry(b.key, f(b.value))]
  {
  }

  lemma JoinedTwo(a: Entry<Option<Json>>, b: Entry<Option<Json>>, stringify: Json -> Key)
    ensures Joined([a, b], stringify) == Line(a, stringify) + [124] + Line(b, stringify)
  {
    assert [a, b][1..] == [b];
    assert Joined([b], stringify) == Line(b, stringify);
  }

  lemma NamedThree(t1: Tool, t2: Tool, t3: Tool)
    requires t1.name.Some? && t2.name == None && t3.name.Some?
    ensures Named([t1, t2, t3]) == [Entry(t1.name.value, t1.parameters), Entry(t3.name.value, t3.parameters)]
  {
    assert [t1, t2, t3][..2] == [t1, t2] && [t1, t2][..1] == [t1] && [t1][..0] == [];
    assert Named([t1]) == [Entry(t1.name.value, t1.parameters)];
    assert Named([t1, t2]) == Named([t1]);
  }

  lemma SortedTwo<V>(a: Entry<V>, b: Entry<V>)
    requires KeyLess(a.key, b.key)
    ensures SortedByKey([b, a]) == [a, b]
  {
    assert [b, a][..1] == [b] && [b][..0] == [];
    assert SortedByKey([b]) == [b];
    assert Placed([], a) == [a];
  }

  function ParametersMeaning(p: Option<Json>): Option<Meaning> {
    match p
    case None => None
    case Some(v) => Some(MeaningOf(v, {PROTO}))
  }

  /** The named tools up to key order in their schemas. */
  function Logical(tools: seq<Tool>): seq<Entry<Option<Meaning>>> {
    MapValues(Named(tools), ParametersMeaning)
  }

  predicate ValidTools(tools: seq<Tool>) {
    forall i :: 0 <= i < |tools| ==> tools[i].parameters.Some? ==> Valid(tools[i].parameters.value)
  }

  predicate ValidEntries(es: seq<Entry<Option<Json>>>) {
    forall i :: 0 <= i < |es| ==> es[i].value.Some? ==> Valid(es[i].value.value)
  }

  lemma {:induction false} NamedIsValid(tools: seq<Tool>)
    requires ValidTools(tools)
    ensures ValidEntries(Named(tools))
  {
    if tools != [] {
      NamedIsValid(tools[..|tools| - 1]);
    }
  }

  lemma SortedIsValid(es: seq<Entry<Option<Json>>>)
    requires ValidEntries(es)
    ensures ValidEntries(SortedByKey(es))
  {
    var sorted := SortedByKey(es);
    forall k | 0 <= k < |sorted| ensures sorted[k].value.Some? ==> Valid(sorted[k].value.value) {
      var i := SortTakes(es, k);
    }
  }

  /** On valid lists the canonical form and the meaning distinguish the same entries. */
  lemma CanonicalAsMeaning(a: seq<Entry<Option<Json>>>, b: seq<Entry<Option<Json>>>)
    requires ValidEntries(a) && ValidEntries(b)
    ensures MapValues(a, CanonParameters) == MapValues(b, CanonParameters)
       <==> MapValues(a, ParametersMeaning) == MapValues(b, ParametersMeaning)
  {
    var ca, cb := MapValues(a, CanonParameters), MapValues(b, CanonParameters);
    var ma, mb := MapValues(a, ParametersMeaning), MapValues(b, ParametersMeaning);
    if |a| == |b| {
      forall i | 0 <= i < |a| ensures ca[i] == cb[i] <==> ma[i] == mb[i] {
        var p, q := a[i].value, b[i].value;
        if p.Some? && q.Some? {
          CanonicalIff(p.value, q.value);
        }
        assert CanonParameters(p) == CanonParameters(q) <==> ParametersMeaning(p) == ParametersMeaning(q);
      }
      if ma == mb {
        assert forall i :: 0 <= i < |a| ==> ma[i] == mb[i];
        assert ca == cb;
      }
      if ca == cb {
        assert forall i :: 0 <= i < |a| ==> ca[i] == cb[i];
        assert ma == mb;
      }
    } else {
      assert |ca| != |cb| && |ma| != |mb|;
    }
  }

  lemma CanonicalToolsAsMeaning(a: seq<Tool>, b: seq<Tool>)
    requires ValidTools(a) && ValidTools(b)
    ensures CanonicalTools(a) == CanonicalTools(b) <==> SortedByKey(Logical(a)) == SortedByKey(Logical(b))
  {
    NamedIsValid(a);
    NamedIsValid(b);
    SortedIsValid(Named(a));
    SortedIsValid(Named(b));
    CanonicalAsMeaning(SortedByKey(Named(a)), SortedByKey(Named(b)));
    SortMaps(Named(a), ParametersMeaning);
    SortMaps(Named(b), ParametersMeaning);
  }

  /** The same logical tools, in any order and with schema keys in any order, give the same
      hash input, provided that no name stands for two different schemas. */
  lemma FingerprintIgnoresOrder(a: seq<Tool>, b: seq<Tool>, stringify: Json -> Key)
    requires ValidTools(a) && ValidTools(b) && KeyDecides(Logical(a))
    requires multiset(Logical(a)) == multiset(Logical(b))
    ensures HashInput(Some(a), stringify) == HashInput(Some(b), stringify)
  {
    SameLogicalSameCanonical(a, b);
    assert |Named(a)| == |multiset(Logical(a))| == |multiset(Logical(b))| == |Named(b)|;
  }

  lemma SameLogicalSameCanonical(a: seq<Tool>, b: seq<Tool>)
    requires ValidTools(a) && ValidTools(b) && KeyDecides(Logical(a))
    requires multiset(Logical(a)) == multiset(Logical(b))
    ensures CanonicalTools(a) == CanonicalTools(b)
  {
    var la, lb := Logical(a), Logical(b);
    var sa, sb := SortedByKey(la), SortedByKey(lb);
    SortIsOrdered(la);
    SortIsOrdered(lb);
    assert KeyDecides(sa) by {
      forall i, j | 0 <= i < |sa| && 0 <= j < |sa| && sa[i].key == sa[j].key ensures sa[i] == sa[j] {
        var k := SortTakes(la, i);
        var l := SortTakes(la, j);
      }
    }
    OrderedIsUnique(sa, sb);
    CanonicalToolsAsMeaning(a, b);
  }
}
