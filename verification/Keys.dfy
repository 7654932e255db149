/** JavaScript property keys: their UTF-16 order, and the order in which an ordinary object
    enumerates them. */
module Keys {
  type CodeUnit = x: int | 0 <= x < 0x10000
  type Key = seq<CodeUnit>

  datatype Entry<+V> = Entry(key: Key, value: V)

  predicate KeyLess(a: Key, b: Key) {
    b != [] && (a == [] || a[0] < b[0] || (a[0] == b[0] && KeyLess(a[1..], b[1..])))
  }

  function CompareBytewise(a: Key, b: Key): (order: int)
    ensures order < 0 <==> KeyLess(a, b)
    ensures order == 0 <==> a == b
    ensures order > 0 <==> KeyLess(b, a)
  {
    KeyOrder(a, b);
    if KeyLess(a, b) then -1 else if KeyLess(b, a) then 1 else 0
  }

  /** Exactly one of less, equal and greater holds. */
  lemma {:induction false} KeyOrder(a: Key, b: Key)
    ensures !(KeyLess(a, b) && KeyLess(b, a))
    ensures a == b ==> !KeyLess(a, b)
    ensures KeyLess(a, b) || a == b || KeyLess(b, a)
  {
    if a != [] && b != [] && a[0] == b[0] {
      KeyOrder(a[1..], b[1..]);
      assert a == [a[0]] + a[1..] && b == [b[0]] + b[1..];
    }
  }

  lemma {:induction false} KeyLessTransitive(a: Key, b: Key, c: Key)
    requires KeyLess(a, b) && KeyLess(b, c)
    ensures KeyLess(a, c)
  {
    if a != [] && a[0] == b[0] && b[0] == c[0] {
      KeyLessTransitive(a[1..], b[1..], c[1..]);
    }
  }

  /** Up to position `n` both keys are the same, and there the first ends or holds the smaller unit. */
  predicate LessAt(a: Key, b: Key, n: nat) {
    n <= |a| && n < |b| && a[..n] == b[..n] && (n == |a| || a[n] < b[n])
  }

  lemma SameBeginning(a: Key, b: Key, n: nat)
    ensures 0 < n <= |a| && n <= |b| && a[..n] == b[..n] ==> a[0] == b[0]
  {
    assert 0 < n <= |a| ==> a[..n][0] == a[0];
    assert 0 < n <= |b| ==> b[..n][0] == b[0];
  }

  /** The order goes by the first code unit in which the keys differ; a beginning comes first. */
  lemma {:induction false} KeyLessIff(a: Key, b: Key)
    ensures KeyLess(a, b) <==> exists n :: LessAt(a, b, n)
  {
    if a != [] && b != [] && a[0] == b[0] {
      KeyLessIff(a[1..], b[1..]);
      forall n: nat | LessAt(a[1..], b[1..], n) ensures LessAt(a, b, n + 1) {
        assert a[..n + 1] == [a[0]] + a[1..][..n] && b[..n + 1] == [b[0]] + b[1..][..n];
      }
      forall n: nat | LessAt(a, b, n) ensures n > 0 && LessAt(a[1..], b[1..], n - 1) {
        assert a[1..][..n - 1] == a[..n][1..] && b[1..][..n - 1] == b[..n][1..];
      }
    } else {
      forall n: nat ensures LessAt(a, b, n) ==> n == 0 { SameBeginning(a, b, n); }
      assert KeyLess(a, b) <==> LessAt(a, b, 0);
    }
  }

  // ----- a stable sort by key -----

  /** Inserts after every entry whose key is not greater. */
  function Placed<V>(sorted: seq<Entry<V>>, e: Entry<V>): seq<Entry<V>> {
    if sorted == [] || !KeyLess(e.key, sorted[|sorted| - 1].key) then sorted + [e]
    else Placed(sorted[..|sorted| - 1], e) + [sorted[|sorted| - 1]]
  }

  function SortedByKey<V>(es: seq<Entry<V>>): seq<Entry<V>> {
    if es == [] then [] else Placed(SortedByKey(es[..|es| - 1]), es[|es| - 1])
  }

  predicate InKeyOrder<V>(es: seq<Entry<V>>) {
    forall i, j :: 0 <= i < j < |es| ==> !KeyLess(es[j].key, es[i].key)
  }

  lemma {:induction false} PlacedAdds<V>(sorted: seq<Entry<V>>, e: Entry<V>)
    ensures multiset(Placed(sorted, e)) == multiset(sorted) + multiset{e}
  {
    if sorted != [] && KeyLess(e.key, sorted[|sorted| - 1].key) {
      var front := sorted[..|sorted| - 1];
      assert sorted == front + [sorted[|sorted| - 1]];
      PlacedAdds(front, e);
    }
  }

  lemma NotLessThanLast<V>(sorted: seq<Entry<V>>, key: Key, i: nat)
    requires InKeyOrder(sorted) && i < |sorted|
    requires !KeyLess(key, sorted[|sorted| - 1].key)
    ensures !KeyLess(key, sorted[i].key)
  {
    var last := sorted[|sorted| - 1].key;
    if KeyLess(key, sorted[i].key) {
      KeyOrder(sorted[i].key, last);
      if sorted[i].key != last { KeyLessTransitive(key, sorted[i].key, last); }
    }
  }

  lemma {:induction false} PlacedIsOrdered<V>(sorted: seq<Entry<V>>, e: Entry<V>)
    requires InKeyOrder(sorted)
    ensures InKeyOrder(Placed(sorted, e))
  {
    if sorted == [] {
    } else if KeyLess(e.key, sorted[|sorted| - 1].key) {
      var last := sorted[|sorted| - 1];
      var front := sorted[..|sorted| - 1];
      PlacedIsOrdered(front, e);
      PlacedAdds(front, e);
      KeyOrder(e.key, last.key);
      var placed := Placed(front, e);
      forall i | 0 <= i < |placed| ensures !KeyLess(last.key, placed[i].key) {
        assert placed[i] in multiset(placed);
        if placed[i] != e {
          assert placed[i] in multiset(front);
          var k :| 0 <= k < |front| && front[k] == placed[i];
          assert sorted[k] == front[k] && sorted[|sorted| - 1] == last;
        }
      }
    } else {
      forall i | 0 <= i < |sorted| ensures !KeyLess(e.key, sorted[i].key) {
        NotLessThanLast(sorted, e.key, i);
      }
    }
  }

  lemma {:induction false} SortIsOrdered<V>(es: seq<Entry<V>>)
    ensures InKeyOrder(SortedByKey(es))
    ensures multiset(SortedByKey(es)) == multiset(es)
  {
    if es != [] {
      assert es == es[..|es| - 1] + [es[|es| - 1]];
      SortIsOrdered(es[..|es| - 1]);
      PlacedAdds(SortedByKey(es[..|es| - 1]), es[|es| - 1]);
      PlacedIsOrdered(SortedByKey(es[..|es| - 1]), es[|es| - 1]);
    }
  }

  function WithKey<V>(es: seq<Entry<V>>, key: Key): seq<Entry<V>> {
    if es == [] then []
    else WithKey(es[..|es| - 1], key) + if es[|es| - 1].key == key then [es[|es| - 1]] else []
  }

  lemma {:induction false} WithKeyAppend<V>(a: seq<Entry<V>>, b: seq<Entry<V>>, key: Key)
    ensures WithKey(a + b, key) == WithKey(a, key) + WithKey(b, key)
    decreases |b|
  {
    if b == [] {
      assert a + b == a;
    } else {
      assert a + b == (a + b[..|b| - 1]) + [b[|b| - 1]];
      WithKeyAppend(a, b[..|b| - 1], key);
    }
  }

  lemma PlaceBeforeLast<V>(placed: seq<Entry<V>>, front: seq<Entry<V>>, e: Entry<V>, last: Entry<V>, key: Key)
    requires WithKey(placed, key) == WithKey(front, key) + WithKey([e], key) && e.key != last.key
    ensures WithKey(placed + [last], key) == WithKey(front + [last], key) + WithKey([e], key)
  {
    WithKeyAppend(placed, [last], key);
    WithKeyAppend(front, [last], key);
    assert WithKey([e], key) == [] || WithKey([last], key) == [];
  }

  lemma {:induction false} PlacedIsStable<V>(sorted: seq<Entry<V>>, e: Entry<V>, key: Key)
    ensures WithKey(Placed(sorted, e), key) == WithKey(sorted, key) + WithKey([e], key)
  {
    if sorted != [] && KeyLess(e.key, sorted[|sorted| - 1].key) {
      var last := sorted[|sorted| - 1];
      var front := sorted[..|sorted| - 1];
      PlacedIsStable(front, e, key);
      KeyOrder(e.key, last.key);
      PlaceBeforeLast(Placed(front, e), front, e, last, key);
      assert sorted == front + [last];
    } else {
      WithKeyAppend(sorted, [e], key);
    }
  }

  /** The sort is stable: entries with one key keep their order. */
  lemma {:induction false} SortIsStable<V>(es: seq<Entry<V>>, key: Key)
    ensures WithKey(SortedByKey(es), key) == WithKey(es, key)
  {
    if es != [] {
      var front := es[..|es| - 1];
      SortIsStable(front, key);
      PlacedIsStable(SortedByKey(front), es[|es| - 1], key);
      WithKeyAppend(front, [es[|es| - 1]], key);
      assert es == front + [es[|es| - 1]];
    }
  }

  /** Any two same-key entries are the same entry. */
  ghost predicate KeyDecides<V>(es: seq<Entry<V>>) {
    forall i, j :: 0 <= i < |es| && 0 <= j < |es| && es[i].key == es[j].key ==> es[i] == es[j]
  }

  lemma SameHead<V>(a: seq<Entry<V>>, b: seq<Entry<V>>)
    requires InKeyOrder(a) && InKeyOrder(b) && KeyDecides(a)
    requires a != [] && b != [] && a[0] in b && b[0] in a
    ensures a[0] == b[0]
  {
    KeyOrder(a[0].key, b[0].key);
  }

  /** Where equal keys mean equal entries, an ordered list is determined by its contents. */
  lemma {:induction false} OrderedIsUnique<V>(a: seq<Entry<V>>, b: seq<Entry<V>>)
    requires InKeyOrder(a) && InKeyOrder(b) && KeyDecides(a)
    requires multiset(a) == multiset(b)
    ensures a == b
  {
    assert |a| == |multiset(a)| == |multiset(b)| == |b|;
    if a != [] {
      assert a[0] == b[0] by {
        assert a[0] in multiset(b) && b[0] in multiset(a);
        SameHead(a, b);
      }
      var ta, tb := a[1..], b[1..];
      assert multiset(ta) == multiset(tb) by {
        assert a == [a[0]] + ta && b == [b[0]] + tb;
        assert multiset(ta) == multiset(a) - multiset{a[0]};
        assert multiset(tb) == multiset(b) - multiset{b[0]};
      }
      OrderedIsUnique(ta, tb);
    }
  }

  function MapValues<V, W>(es: seq<Entry<V>>, f: V -> W): seq<Entry<W>> {
    seq(|es|, i requires 0 <= i < |es| => Entry(es[i].key, f(es[i].value)))
  }

  lemma {:induction false} PlacedMaps<V, W>(sorted: seq<Entry<V>>, e: Entry<V>, f: V -> W)
    ensures MapValues(Placed(sorted, e), f) == Placed(MapValues(sorted, f), Entry(e.key, f(e.value)))
  {
    if sorted != [] {
      var front := sorted[..|sorted| - 1];
      PlacedMaps(front, e, f);
      assert MapValues(sorted, f)[..|sorted| - 1] == MapValues(front, f);
    }
  }

  /** The sort looks at keys only. */
  lemma {:induction false} SortMaps<V, W>(es: seq<Entry<V>>, f: V -> W)
    ensures MapValues(SortedByKey(es), f) == SortedByKey(MapValues(es, f))
  {
    if es != [] {
      var front := es[..|es| - 1];
      SortMaps(front, f);
      PlacedMaps(SortedByKey(front), es[|es| - 1], f);
      assert MapValues(es, f)[..|es| - 1] == MapValues(front, f);
    }
  }

  // ----- the enumeration order of an object -----

  const INDEX_LIMIT: nat := 0xFFFF_FFFF

  function IndexKey(n: nat): Key {
    if n < 10 then [48 + n] else IndexKey(n / 10) + [48 + n % 10]
  }

  function DigitsValue(k: Key): int {
    if k == [] then 0 else DigitsValue(k[..|k| - 1]) * 10 + k[|k| - 1] as int - 48
  }

  /** An array index: the decimal rendering, without leading zeros, of a number below 2^32 - 1. */
  predicate IsIndex(k: Key) {
    var n := DigitsValue(k);
    0 <= n < INDEX_LIMIT && k == IndexKey(n)
  }

  lemma {:induction false} IndexKeyIsIndex(n: nat)
    ensures DigitsValue(IndexKey(n)) == n
    ensures IsIndex(IndexKey(n)) <==> n < 4294967295
  {
    if n >= 10 {
      IndexKeyIsIndex(n / 10);
      assert IndexKey(n)[..|IndexKey(n)| - 1] == IndexKey(n / 10);
      assert n / 10 * 10 + n % 10 == n;
    } else {
      assert DigitsValue([48 + n][..0]) == 0;
    }
  }

  /** Array indices come first, ascending; given a bytewise insertion order the rest follow bytewise. */
  predicate EnumBefore(a: Key, b: Key) {
    if IsIndex(a) then IsIndex(b) ==> DigitsValue(a) < DigitsValue(b)
    else !IsIndex(b) && KeyLess(a, b)
  }

  lemma EnumTransitive(a: Key, b: Key, c: Key)
    requires EnumBefore(a, b) && EnumBefore(b, c)
    ensures EnumBefore(a, c)
  {
    if !IsIndex(a) { KeyLessTransitive(a, b, c); }
  }

  /** An array index comes before every other key that is not a smaller array index. */
  lemma IndexComesBefore(index: Key, key: Key)
    requires IsIndex(index) && index != key && !(IsIndex(key) && DigitsValue(key) < DigitsValue(index))
    ensures EnumBefore(index, key)
  {
  }

  predicate InEnumOrder<V>(es: seq<Entry<V>>) {
    forall i, j :: 0 <= i < j < |es| ==> EnumBefore(es[i].key, es[j].key)
  }

  lemma {:induction false} EnumOrderIsUnique<V>(a: seq<Entry<V>>, b: seq<Entry<V>>)
    requires InEnumOrder(a) && InEnumOrder(b)
    requires forall e :: e in a <==> e in b
    ensures a == b
  {
    assert b != [] ==> b[0] in a;
    if a != [] {
      assert a[0] in b;
      KeyOrder(a[0].key, b[0].key);
      assert a[0] == b[0];
      forall e ensures e in a[1..] <==> e in b[1..] {
        KeyOrder(a[0].key, a[0].key);
        assert e in a <==> e == a[0] || e in a[1..];
        assert e in b <==> e == b[0] || e in b[1..];
      }
      EnumOrderIsUnique(a[1..], b[1..]);
    }
  }
}
