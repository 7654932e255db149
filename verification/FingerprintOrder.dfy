/** When the order of the tools shows in the tool fingerprint. */
module FingerprintOrder {
  import opened Results
  import opened Keys
  import opened Fingerprint

  // ----- permuted tools -----

  lemma {:induction false} NamedAppend(a: seq<Tool>, b: seq<Tool>)
    ensures Named(a + b) == Named(a) + Named(b)
    decreases |b|
  {
    if b == [] {
      assert a + b == a;
    } else {
      assert (a + b)[..|a + b| - 1] == a + b[..|b| - 1];
      NamedAppend(a, b[..|b| - 1]);
    }
  }

  /** A permutation of `front + [last]` is a permutation of `front` with `last` put in somewhere. */
  lemma CutOut<T>(front: seq<T>, last: T, b: seq<T>) returns (u: seq<T>, w: seq<T>)
    requires multiset(front + [last]) == multiset(b)
    ensures b == u + ([last] + w) && multiset(u + w) == multiset(front)
  {
    assert last in multiset(front + [last]);
    var k :| 0 <= k < |b| && b[k] == last;
    u, w := b[..k], b[k + 1..];
    assert b == u + ([last] + w);
    assert multiset(b) == multiset(u) + multiset{last} + multiset(w);
    assert multiset(u + w) == multiset(b) - multiset{last};
    assert multiset(front) == multiset(front + [last]) - multiset{last};
  }

  /** The named tools with something computed from each schema. */
  function Mapped<V>(tools: seq<Tool>, f: Option<Json> -> V): seq<Entry<V>> {
    MapValues(Named(tools), f)
  }

  lemma MappedAppend<V>(a: seq<Tool>, b: seq<Tool>, f: Option<Json> -> V)
    ensures Mapped(a + b, f) == Mapped(a, f) + Mapped(b, f)
  {
    NamedAppend(a, b);
  }

  lemma MappedMiddle<V>(u: seq<Tool>, t: Tool, w: seq<Tool>, f: Option<Json> -> V)
    ensures multiset(Mapped(u + ([t] + w), f)) == multiset(Mapped(u + w, f)) + multiset(Mapped([t], f))
  {
    MappedAppend(u, [t] + w, f);
    MappedAppend([t], w, f);
    MappedAppend(u, w, f);
  }

  lemma {:induction false} MappedPermutes<V>(a: seq<Tool>, b: seq<Tool>, f: Option<Json> -> V)
    requires multiset(a) == multiset(b)
    ensures multiset(Mapped(a, f)) == multiset(Mapped(b, f))
    decreases |a|
  {
    if a == [] {
      assert |b| == |multiset(b)| == |multiset(a)| == 0;
    } else {
      var front, last := a[..|a| - 1], a[|a| - 1];
      assert a == front + [last];
      var u, w := CutOut(front, last, b);
      MappedPermutes(front, u + w, f);
      MappedMiddle(u, last, w, f);
      MappedAppend(front, [last], f);
    }
  }

  lemma LogicalAppend(a: seq<Tool>, b: seq<Tool>)
    ensures Logical(a + b) == Logical(a) + Logical(b)
  {
    NamedAppend(a, b);
  }

  lemma PermutedIsValid(a: seq<Tool>, b: seq<Tool>)
    requires ValidTools(a) && multiset(b) == multiset(a)
    ensures ValidTools(b)
  {
    forall k | 0 <= k < |b| ensures b[k].parameters.Some? ==> Valid(b[k].parameters.value) {
      assert b[k] in multiset(a);
    }
  }

  function KeyOnly(p: Option<Json>): bool {
    true
  }

  /** The names in the canonical list, in its order. */
  lemma NamesAreSorted(tools: seq<Tool>)
    ensures var names, canonical := SortedByKey(Mapped(tools, KeyOnly)), CanonicalTools(tools);
      |names| == |canonical| && forall i :: 0 <= i < |names| ==> names[i].key == canonical[i].key
  {
    SortMaps(Named(tools), KeyOnly);
  }

  lemma NamesDecide(es: seq<Entry<bool>>)
    requires forall i :: 0 <= i < |es| ==> es[i].value
    ensures KeyDecides(es)
  {
  }

  lemma {:induction false} PermutedNames(ka: seq<Entry<bool>>, kb: seq<Entry<bool>>)
    requires multiset(ka) == multiset(kb) && forall i :: 0 <= i < |ka| ==> ka[i].value
    ensures SortedByKey(ka) == SortedByKey(kb)
  {
    var sa, sb := SortedByKey(ka), SortedByKey(kb);
    SortIsOrdered(ka);
    SortIsOrdered(kb);
    forall k | 0 <= k < |sa| ensures sa[k].value {
      var i := SortTakes(ka, k);
    }
    NamesDecide(sa);
    OrderedIsUnique(sa, sb);
  }

  /** Whatever the order of the tools, the same names stand in the same places. */
  lemma SameNames(a: seq<Tool>, b: seq<Tool>)
    requires multiset(a) == multiset(b)
    ensures |CanonicalTools(a)| == |CanonicalTools(b)|
    ensures forall i :: 0 <= i < |CanonicalTools(a)| ==> CanonicalTools(a)[i].key == CanonicalTools(b)[i].key
  {
    MappedPermutes(a, b, KeyOnly);
    assert forall i :: 0 <= i < |Named(a)| ==> Mapped(a, KeyOnly)[i].value == KeyOnly(Named(a)[i].value);
    PermutedNames(Mapped(a, KeyOnly), Mapped(b, KeyOnly));
    NamesAreSorted(a);
    NamesAreSorted(b);
  }

  // ----- two schemas for one name -----

  lemma {:induction false} LogicalSource(a: seq<Tool>, x: nat) returns (i: nat)
    requires x < |Logical(a)|
    ensures i < |a| && Logical([a[i]]) == [Logical(a)[x]]
  {
    var front, last := a[..|a| - 1], [a[|a| - 1]];
    assert a == front + last;
    LogicalAppend(front, last);
    if x < |Logical(front)| {
      i := LogicalSource(front, x);
    } else {
      i := |a| - 1;
      assert |Logical(last)| == 1;
    }
  }

  /** Two tools that give one name different schemas. */
  lemma {:induction false} ConflictIsNamed(a: seq<Tool>)
      returns (i: nat, j: nat, p: Entry<Option<Meaning>>, q: Entry<Option<Meaning>>)
    requires !KeyDecides(Logical(a))
    ensures i < j < |a| && Logical([a[i]]) == [p] && Logical([a[j]]) == [q]
    ensures p.key == q.key && p != q
  {
    var front, last := a[..|a| - 1], [a[|a| - 1]];
    assert a == front + last;
    LogicalAppend(front, last);
    if !KeyDecides(Logical(front)) {
      i, j, p, q := ConflictIsNamed(front);
    } else {
      var lf, la := Logical(front), Logical(a);
      var x, y :| 0 <= x < |la| && 0 <= y < |la| && la[x].key == la[y].key && la[x] != la[y];
      j := |a| - 1;
      assert |Logical(last)| <= 1;
      q := la[|la| - 1];
      var z := if x < y then x else y;
      p := la[z];
      i := LogicalSource(front, z);
    }
  }

  /** Swapping the two conflicting tools changes the canonical list. */
  lemma ConflictShows(a: seq<Tool>) returns (b: seq<Tool>)
    requires ValidTools(a) && !KeyDecides(Logical(a))
    ensures multiset(b) == multiset(a) && CanonicalTools(b) != CanonicalTools(a)
  {
    var i, j, p, q := ConflictIsNamed(a);
    var u, v, w := a[..i], a[i + 1..j], a[j + 1..];
    b := u + ([a[j]] + (v + ([a[i]] + w)));
    assert a == u + ([a[i]] + (v + ([a[j]] + w)));
    assert multiset(b) == multiset(a);
    PermutedIsValid(a, b);
    ConflictPosition(u, a[i], v + ([a[j]] + w), p);
    ConflictPosition(u, a[j], v + ([a[i]] + w), q);
    if SortedByKey(Logical(a)) == SortedByKey(Logical(b)) {
      SortIsStable(Logical(a), p.key);
      SortIsStable(Logical(b), p.key);
      assert false;
    }
    CanonicalToolsAsMeaning(a, b);
  }

  lemma ConflictPosition(u: seq<Tool>, t: Tool, rest: seq<Tool>, p: Entry<Option<Meaning>>)
    requires Logical([t]) == [p]
    ensures var found := WithKey(Logical(u + ([t] + rest)), p.key);
            var before := |WithKey(Logical(u), p.key)|;
      before < |found| && found[before] == p
  {
    LogicalAppend(u, [t] + rest);
    LogicalAppend([t], rest);
    WithKeyAppend(Logical(u), [p] + Logical(rest), p.key);
    WithKeyAppend([p], Logical(rest), p.key);
    assert WithKey([p], p.key) == [p] by { assert [p][..0] == []; }
  }

  // ----- from the canonical list to the hashed text -----

  /** No schema's text begins the text of a different one: true of the JSON text of objects,
      which is what parameters are, for braces balance only at the end. */
  ghost predicate TextsApart(tools: seq<Tool>, stringify: Json -> Key) {
    forall i, j :: 0 <= i < |tools| && 0 <= j < |tools|
      ==> Apart(CanonParameters(tools[i].parameters), CanonParameters(tools[j].parameters), stringify)
  }

  ghost predicate Apart(p: Option<Json>, q: Option<Json>, stringify: Json -> Key) {
    p != q ==> !(ParametersText(p, stringify) <= ParametersText(q, stringify))
  }

  lemma {:induction false} NamedSource(tools: seq<Tool>, k: nat) returns (i: nat)
    requires k < |Named(tools)|
    ensures i < |tools| && tools[i].parameters == Named(tools)[k].value
  {
    var front := tools[..|tools| - 1];
    if k < |Named(front)| {
      i := NamedSource(front, k);
    } else {
      i := |tools| - 1;
    }
  }

  lemma CanonicalSource(tools: seq<Tool>, k: nat) returns (i: nat)
    requires k < |CanonicalTools(tools)|
    ensures i < |tools| && CanonParameters(tools[i].parameters) == CanonicalTools(tools)[k].value
  {
    var n := SortTakes(Named(tools), k);
    i := NamedSource(tools, n);
  }

  /** Of two texts that begin alike, one begins with the other. */
  lemma OneIsPrefix(s: Key, x: Key, t: Key, y: Key)
    requires s + x == t + y
    ensures s <= t || t <= s
    ensures s == t ==> x == y
  {
    if |s| <= |t| {
      assert s == (s + x)[..|s|] == (t + y)[..|s|] == t[..|s|];
    } else {
      assert t == (t + y)[..|t|] == (s + x)[..|t|] == s[..|t|];
    }
    assert x == (s + x)[|s|..] && y == (t + y)[|t|..];
  }

  function Rest(tools: seq<Entry<Option<Json>>>, stringify: Json -> Key): Key
    requires tools != []
  {
    if |tools| == 1 then [] else PIPE + Joined(tools[1..], stringify)
  }

  lemma Regroup(x: Key, y: Key, z: Key)
    ensures (x + y) + z == x + (y + z)
    ensures z == [] ==> (x + y) + z == x + y
  {
  }

  lemma JoinedParts(tools: seq<Entry<Option<Json>>>, stringify: Json -> Key)
    requires tools != []
    ensures Joined(tools, stringify)
         == (tools[0].key + COLON) + (ParametersText(tools[0].value, stringify) + Rest(tools, stringify))
  {
    var head, text, rest := tools[0].key + COLON, ParametersText(tools[0].value, stringify), Rest(tools, stringify);
    Regroup(head, text, rest);
    if |tools| > 1 {
      Regroup(Line(tools[0], stringify), PIPE, Joined(tools[1..], stringify));
    }
  }

  /** With the same names in the same places and texts that are apart, the joined text
      determines the list. */
  lemma {:induction false} JoinedDetermines(a: seq<Entry<Option<Json>>>, b: seq<Entry<Option<Json>>>, stringify: Json -> Key)
    requires |a| == |b| && forall i :: 0 <= i < |a| ==> a[i].key == b[i].key
    requires forall i :: 0 <= i < |a| ==> Apart(a[i].value, b[i].value, stringify) && Apart(b[i].value, a[i].value, stringify)
    requires Joined(a, stringify) == Joined(b, stringify)
    ensures a == b
  {
    if a != [] {
      var head := a[0].key + COLON;
      var s, t := ParametersText(a[0].value, stringify), ParametersText(b[0].value, stringify);
      var x, y := Rest(a, stringify), Rest(b, stringify);
      JoinedParts(a, stringify);
      JoinedParts(b, stringify);
      OneIsPrefix(head, s + x, head, t + y);
      OneIsPrefix(s, x, t, y);
      assert a[0] == b[0];
      if |a| > 1 {
        OneIsPrefix(PIPE, Joined(a[1..], stringify), PIPE, Joined(b[1..], stringify));
        JoinedDetermines(a[1..], b[1..], stringify);
      }
      assert a == [a[0]] + a[1..] && b == [b[0]] + b[1..];
    }
  }

  lemma SameTextSameTools(a: seq<Tool>, b: seq<Tool>, stringify: Json -> Key)
    requires multiset(a) == multiset(b) && TextsApart(a, stringify)
    requires HashInput(Some(a), stringify) == HashInput(Some(b), stringify)
    ensures CanonicalTools(a) == CanonicalTools(b)
  {
    var ca, cb := CanonicalTools(a), CanonicalTools(b);
    SameNames(a, b);
    forall k | 0 <= k < |ca|
      ensures Apart(ca[k].value, cb[k].value, stringify) && Apart(cb[k].value, ca[k].value, stringify)
    {
      var i := CanonicalSource(a, k);
      var l := CanonicalSource(b, k);
      assert b[l] in multiset(a);
      var j :| 0 <= j < |a| && a[j] == b[l];
    }
    SortIsOrdered(Named(a));
    assert |SortedByKey(Named(a))| == |multiset(Named(a))| == |Named(a)|;
    if Named(a) != [] {
      JoinedDetermines(ca, cb, stringify);
    }
  }

  /** Where a name is given two schemas, some reordering of the tools changes what is hashed. */
  lemma ConflictChangesHashInput(a: seq<Tool>, stringify: Json -> Key) returns (b: seq<Tool>)
    requires ValidTools(a) && TextsApart(a, stringify) && !KeyDecides(Logical(a))
    ensures multiset(b) == multiset(a) && HashInput(Some(b), stringify) != HashInput(Some(a), stringify)
  {
    b := ConflictShows(a);
    if HashInput(Some(b), stringify) == HashInput(Some(a), stringify) {
      SameTextSameTools(a, b, stringify);
    }
  }

  ghost predicate OrderDoesNotShow(a: seq<Tool>, stringify: Json -> Key) {
    forall b: seq<Tool> :: multiset(b) == multiset(a) ==> HashInput(Some(b), stringify) == HashInput(Some(a), stringify)
  }

  /** Reordering the tools never changes what is hashed exactly when no name is given two
      different schemas. */
  lemma OrderDoesNotShowIff(a: seq<Tool>, stringify: Json -> Key)
    requires ValidTools(a) && TextsApart(a, stringify)
    ensures OrderDoesNotShow(a, stringify) <==> KeyDecides(Logical(a))
  {
    if KeyDecides(Logical(a)) {
      forall b: seq<Tool> | multiset(b) == multiset(a)
        ensures HashInput(Some(b), stringify) == HashInput(Some(a), stringify)
      {
        MappedPermutes(a, b, ParametersMeaning);
        PermutedIsValid(a, b);
        FingerprintIgnoresOrder(a, b, stringify);
      }
    } else {
      var b := ConflictChangesHashInput(a, stringify);
    }
  }
}
