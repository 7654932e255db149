/** The assembler under arbitrary deliveries: parts of the request, foreign or damaged parts
    that bear its id, and everything else. The first word counts. */
module RequestConflicts {
  import opened Results
  import opened Base64
  import opened Utf8
  import opened RequestSplit
  import opened RequestAssembler
  import opened RequestDelivery

  predicate Claims(p: Part, id: string) {
    p.requestId == id && ValidMetadata(p)
  }

  predicate ClaimsIndex(p: Part, id: string, n: nat, i: nat) {
    Claims(p, id) && p.count == n && p.index == i
  }

  /** The count that the first valid delivery of the id states. */
  function FirstCount(ds: seq<Part>, id: string): Option<nat> {
    if ds == [] then None
    else
      var before, last := FirstCount(ds[..|ds| - 1], id), ds[|ds| - 1];
      if before.Some? then before else if Claims(last, id) then Some(last.count) else None
  }

  /** For each index the data of the first valid delivery of the id with count `n`. */
  function FirstData(ds: seq<Part>, id: string, n: nat): map<nat, string> {
    if ds == [] then map[]
    else
      var before, last := FirstData(ds[..|ds| - 1], id, n), ds[|ds| - 1];
      if Claims(last, id) && last.count == n && last.index !in before then before[last.index := last.data] else before
  }

  lemma {:induction false} FirstCountExact(ds: seq<Part>, id: string)
    ensures FirstCount(ds, id) == None <==> forall k :: 0 <= k < |ds| ==> !Claims(ds[k], id)
    ensures FirstCount(ds, id).Some? ==>
      exists k :: 0 <= k < |ds| && Claims(ds[k], id) && ds[k].count == FirstCount(ds, id).value
        && forall j :: 0 <= j < k ==> !Claims(ds[j], id)
  {
    if ds != [] {
      var front := ds[..|ds| - 1];
      FirstCountExact(front, id);
      if FirstCount(front, id).Some? {
        var k :| 0 <= k < |front| && Claims(front[k], id) && front[k].count == FirstCount(front, id).value
          && forall j :: 0 <= j < k ==> !Claims(front[j], id);
        assert ds[k] == front[k];
        forall j | 0 <= j < k ensures !Claims(ds[j], id) { assert front[j] == ds[j]; }
      } else {
        forall j | 0 <= j < |front| ensures !Claims(ds[j], id) { assert front[j] == ds[j]; }
      }
    }
  }

  lemma {:induction false} FirstDataExact(ds: seq<Part>, id: string, n: nat, i: nat)
    ensures i !in FirstData(ds, id, n) <==> forall k :: 0 <= k < |ds| ==> !ClaimsIndex(ds[k], id, n, i)
    ensures i in FirstData(ds, id, n) ==>
      exists k :: 0 <= k < |ds| && ClaimsIndex(ds[k], id, n, i) && ds[k].data == FirstData(ds, id, n)[i]
        && forall j :: 0 <= j < k ==> !ClaimsIndex(ds[j], id, n, i)
  {
    if ds != [] {
      var front := ds[..|ds| - 1];
      FirstDataExact(front, id, n, i);
      if i in FirstData(front, id, n) {
        var k :| 0 <= k < |front| && ClaimsIndex(front[k], id, n, i) && front[k].data == FirstData(front, id, n)[i]
          && forall j :: 0 <= j < k ==> !ClaimsIndex(front[j], id, n, i);
        assert ds[k] == front[k];
        forall j | 0 <= j < k ensures !ClaimsIndex(ds[j], id, n, i) { assert front[j] == ds[j]; }
      } else {
        forall j | 0 <= j < |front| ensures !ClaimsIndex(ds[j], id, n, i) { assert front[j] == ds[j]; }
      }
    }
  }

  lemma {:induction false} NothingBeforeFirst(ds: seq<Part>, id: string, n: nat)
    requires FirstCount(ds, id) == None
    ensures FirstData(ds, id, n) == map[]
  {
    if ds != [] {
      NothingBeforeFirst(ds[..|ds| - 1], id, n);
    }
  }

  lemma {:induction false} IndicesBelowCount(ds: seq<Part>, id: string, n: nat)
    ensures forall i :: i in FirstData(ds, id, n) ==> i < n
  {
    if ds != [] {
      IndicesBelowCount(ds[..|ds| - 1], id, n);
    }
  }

  /** The assembly that a run of arbitrary deliveries leaves under an id. */
  ghost function Claimed(ds: seq<Part>, id: string): Option<Assembly> {
    match FirstCount(ds, id)
    case None => None
    case Some(n) => Some(Assembly(n, FirstData(ds, id, n), |FirstData(ds, id, n)| == n))
  }

  /** What a valid delivery does to it. */
  lemma ClaimStep(front: seq<Part>, last: Part, id: string)
    requires Claims(last, id)
    ensures var before, after := Claimed(front, id), Claimed(front + [last], id);
      && (before.Some? ==> WellFormed(before.value)) && after.Some? && WellFormed(after.value)
      && Receive(before, last).0 == after.value
      && (Receive(before, last).1.Ok? && Receive(before, last).1.value.Some?
          <==> !(before.Some? && before.value.completed) && after.value.completed && Text(after.value).Some?)
  {
    var ds := front + [last];
    assert ds[..|ds| - 1] == front;
    if FirstCount(front, id) == None { NothingBeforeFirst(front, id, last.count); }
    var n := FirstCount(ds, id).value;
    IndicesBelowCount(front, id, n);
    IndicesBelowCount(ds, id, n);
    ReceiveClaim(n, FirstData(front, id, n), FirstCount(front, id).Some?, last);
  }

  /** The text of an assembly that has all its parts. */
  ghost function Text(a: Assembly): Option<seq<CodePoint>>
    requires WellFormed(a)
  {
    if |a.parts| == a.count then
      AllPresent(a);
      DecodeText(JoinedFrom(a, 0))
    else None
  }

  lemma ReceiveClaim(n: nat, parts: map<nat, string>, known: bool, p: Part)
    requires ValidMetadata(p) && forall i :: i in parts ==> i < n
    requires !known ==> n == p.count && parts == map[]
    ensures var before := if known then Some(Assembly(n, parts, |parts| == n)) else None;
            var more := if p.count == n && p.index !in parts then parts[p.index := p.data] else parts;
            var after := Assembly(n, more, |more| == n);
      && WellFormed(after)
      && Receive(before, p).0 == after
      && (Receive(before, p).1.Ok? && Receive(before, p).1.value.Some?
          <==> !(before.Some? && before.value.completed) && after.completed && Text(after).Some?)
  {
    var more := if p.count == n && p.index !in parts then parts[p.index := p.data] else parts;
    if |parts| == n {
      AllPresent(Assembly(n, parts, true));
    }
    if p.count == n && p.index in parts && parts[p.index] == p.data {
      assert parts[p.index := p.data] == parts;
    }
    if |more| == n {
      AllPresent(Assembly(n, more, false));
      SameJoined(Assembly(n, more, false), Assembly(n, more, true), 0);
    }
  }

  lemma {:induction false} SameJoined(a: Assembly, b: Assembly, i: nat)
    requires a.count == b.count && a.parts == b.parts && i <= a.count
    requires forall k :: i <= k < a.count ==> k in a.parts
    ensures JoinedFrom(a, i) == JoinedFrom(b, i)
    decreases a.count - i
  {
    if i < a.count {
      SameJoined(a, b, i + 1);
    }
  }

  /** Over any run whatever: the first valid delivery of an id fixes the count, the first one at
      each index its data, and the assembly is completed exactly when every index is taken. */
  lemma {:induction false} AssemblyIs(ds: seq<Part>, id: string)
    requires id != ""
    ensures Lookup(After(ds), id) == Claimed(ds, id)
  {
    if ds != [] {
      var front, last := ds[..|ds| - 1], ds[|ds| - 1];
      assert ds == front + [last];
      AssemblyIs(front, id);
      if Claims(last, id) {
        ClaimStep(front, last, id);
      }
    }
  }

  /** Over any run whatever an id is answered with a text at most once: once if its assembly was
      completed with bytes that are a text. */
  lemma {:induction false} AnsweredAtMostOnce(ds: seq<Part>, id: string)
    requires id != ""
    ensures Claimed(ds, id).Some? ==> WellFormed(Claimed(ds, id).value)
    ensures Completions(ds, id)
      == if Claimed(ds, id).Some? && Claimed(ds, id).value.completed && Text(Claimed(ds, id).value).Some? then 1 else 0
  {
    if ds != [] {
      var front, last := ds[..|ds| - 1], ds[|ds| - 1];
      assert ds == front + [last];
      AnsweredAtMostOnce(front, id);
      AssemblyIs(front, id);
      if Claims(last, id) {
        ClaimStep(front, last, id);
        if Claimed(front, id).Some? && Claimed(front, id).value.completed {
          CompletedStays(front, last, id);
        }
      }
    }
  }

  lemma CompletedStays(front: seq<Part>, last: Part, id: string)
    requires Claims(last, id) && Claimed(front, id).Some? && Claimed(front, id).value.completed
    ensures Claimed(front + [last], id) == Claimed(front, id)
  {
    var ds := front + [last];
    assert ds[..|ds| - 1] == front;
    var n := FirstCount(front, id).value;
    IndicesBelowCount(front, id, n);
    AllPresent(Assembly(n, FirstData(front, id, n), true));
  }

  /** The request's own parts come first: the first valid delivery of the id states their
      count, and the first one at each index bears their data. */
  ghost predicate OwnPartsFirst(ds: seq<Part>, ps: seq<Part>, id: string) {
    && FirstCount(ds, id) == Some(|ps|)
    && forall i: nat :: i < |ps| ==> i in FirstData(ds, id, |ps|) && FirstData(ds, id, |ps|)[i] == ps[i].data
  }

  /** The request's assembly with all its parts. */
  ghost function Whole(ps: seq<Part>): Assembly {
    Assembly(|ps|, map i: nat | i < |ps| :: ps[i].data, true)
  }

  lemma WholeIsWhole(ps: seq<Part>)
    ensures WellFormed(Whole(ps)) && |Whole(ps).parts| == |ps|
  {
    AllPresent(Whole(ps));
  }

  /** Exactly once among arbitrary deliveries: the assembler ends up with the whole request,
      and has answered with its text once, exactly when the request's own parts came first. */
  lemma {:induction false} ExactlyOnceIff(ds: seq<Part>, ps: seq<Part>, id: string)
    requires AreParts(ps, id) && DecodeText(Flatten(Payloads(ps))).Some?
    ensures Lookup(After(ds), id) == Some(Whole(ps)) && Completions(ds, id) == 1 <==> OwnPartsFirst(ds, ps, id)
  {
    AssemblyIs(ds, id);
    IndicesBelowCount(ds, id, |ps|);
    WholeIsWhole(ps);
    if OwnPartsFirst(ds, ps, id) {
      assert FirstData(ds, id, |ps|) == Whole(ps).parts;
      AnsweredAtMostOnce(ds, id);
      TextOfWhole(Whole(ps), ps);
    }
  }

  lemma TextOfWhole(a: Assembly, ps: seq<Part>)
    requires a.count == |ps| == |a.parts| && WellFormed(a)
    requires forall k: nat :: k < |ps| ==> k in a.parts && a.parts[k] == ps[k].data
    ensures Text(a) == DecodeText(Flatten(Payloads(ps)))
  {
    AllPresent(a);
    JoinedIsPayload(a, ps, 0);
    assert Payloads(ps)[0..] == Payloads(ps);
  }

  // ----- what every delivery is answered -----

  /** The bytes that the data of `n` parts carry, in index order. */
  ghost function Carried(n: nat, data: map<nat, string>): seq<Byte> {
    Flatten(seq(n, i => if i in data then Decode(data[i]) else []))
  }

  lemma {:induction false} JoinedIsCarried(a: Assembly, i: nat)
    requires i <= a.count && forall k :: 0 <= k < a.count ==> k in a.parts
    ensures JoinedFrom(a, i) == Flatten(seq(a.count, k => if k in a.parts then Decode(a.parts[k]) else [])[i..])
    decreases a.count - i
  {
    var chunks := seq(a.count, k => if k in a.parts then Decode(a.parts[k]) else []);
    if i < a.count {
      JoinedIsCarried(a, i + 1);
      assert chunks[i..] == [chunks[i]] + chunks[i + 1..];
    }
  }

  lemma ReceiveAnswer(n: nat, held: map<nat, string>, known: bool, p: Part)
    requires ValidMetadata(p) && forall i :: i in held ==> i < n
    requires !known ==> n == p.count && held == map[]
    ensures var more := held[p.index := p.data];
      Receive(if known then Some(Assembly(n, held, |held| == n)) else None, p).1
      == if n != p.count then Err(ConflictingCount)
         else if p.index in held && held[p.index] != p.data then Err(ConflictingPart)
         else if p.index in held || |more| < n then Ok(None)
         else Decoded(Carried(n, more))
  {
    var more := held[p.index := p.data];
    if n == p.count {
      AllPresent(Assembly(n, held, true));
      AllPresent(Assembly(n, more, false));
      SubsetCardinality(more.Keys, n);
      assert |more.Keys| == |more|;
      if p.index in held && held[p.index] == p.data {
        assert more == held;
      } else if |more| == n {
        JoinedIsCarried(Assembly(n, more, false), 0);
      }
    }
  }

  /** The answer to any delivery after any run, by what came before it under its id: malformed
      metadata, a count other than the first one stated, data other than the first at that
      index, nothing while parts are missing or for a repetition, and on the delivery that fills
      the last gap the text, unless the bytes are none. */
  lemma AnswerExact(ds: seq<Part>, p: Part)
    ensures Answer(ds, p)
      == if p.version != 1 || p.requestId == "" || p.index < 0 || p.index >= p.count then Err(InvalidMetadata)
         else
           var count, held := FirstCount(ds, p.requestId), FirstData(ds, p.requestId, p.count);
           if count.Some? && count.value != p.count then Err(ConflictingCount)
           else if p.index in held && held[p.index] != p.data then Err(ConflictingPart)
           else if p.index in held || |held[p.index := p.data]| < p.count then Ok(None)
           else
             match DecodeText(Carried(p.count, held[p.index := p.data]))
             case None => Err(InvalidUtf8)
             case Some(text) => Ok(Some(text))
  {
    var id := p.requestId;
    if ValidMetadata(p) {
      AssemblyIs(ds, id);
      var count := FirstCount(ds, id);
      if count == None {
        NothingBeforeFirst(ds, id, p.count);
        ReceiveAnswer(p.count, map[], false, p);
      } else {
        IndicesBelowCount(ds, id, count.value);
        ReceiveAnswer(count.value, FirstData(ds, id, count.value), true, p);
      }
    }
  }
}
