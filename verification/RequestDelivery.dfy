/** Whole runs of the assembler: exactly-once reassembly under reordering, duplication and
    interleaving. */
module RequestDelivery {
  import opened Results
  import opened Base64
  import opened Utf8
  import opened RequestSplit
  import opened RequestAssembler

  /** The assembler's map after a run of deliveries. */
  ghost function After(ds: seq<Part>): (m: map<string, Assembly>)
    ensures AllWellFormed(m)
  {
    if ds == [] then map[]
    else
      AddKeepsWellFormed(After(ds[..|ds| - 1]), ds[|ds| - 1]);
      AddTo(After(ds[..|ds| - 1]), ds[|ds| - 1]).0
  }

  /** What `add` answers to `p` after the run. */
  ghost function Answer(ds: seq<Part>, p: Part): Outcome {
    AddTo(After(ds), p).1
  }

  /** The deliveries that carry a given request id. */
  function Own(ds: seq<Part>, id: string): seq<Part> {
    if ds == [] then []
    else
      var last := ds[|ds| - 1];
      Own(ds[..|ds| - 1], id) + if last.requestId == id then [last] else []
  }

  lemma {:induction false} AssemblyIsLocal(ds: seq<Part>, id: string)
    ensures Lookup(After(ds), id) == Lookup(After(Own(ds, id)), id)
  {
    if ds != [] {
      var front, last := ds[..|ds| - 1], ds[|ds| - 1];
      AssemblyIsLocal(front, id);
      if last.requestId == id {
        var own := Own(ds, id);
        assert own[..|own| - 1] == Own(front, id) && own[|own| - 1] == last;
      } else {
        assert Own(ds, id) == Own(front, id);
      }
    }
  }

  /** The answers to one request's parts depend on that request's own deliveries alone. */
  lemma AnswersAreLocal(ds: seq<Part>, p: Part)
    ensures Answer(ds, p) == Answer(Own(ds, p.requestId), p)
  {
    AssemblyIsLocal(ds, p.requestId);
  }

  // ----- the parts of one request -----

  ghost predicate AreParts(ps: seq<Part>, id: string) {
    && ps != [] && id != ""
    && forall i :: 0 <= i < |ps| ==> ps[i].version == 1 && ps[i].requestId == id && ps[i].index == i && ps[i].count == |ps|
  }

  /** Every delivery under this id is one of the parts; any other delivery may be anything. */
  ghost predicate Delivers(ds: seq<Part>, ps: seq<Part>, id: string) {
    forall d :: d in ds && d.requestId == id ==> d in ps
  }

  ghost function Seen(ds: seq<Part>, id: string): set<int> {
    set d | d in ds && d.requestId == id :: d.index
  }

  ghost function Held(ps: seq<Part>, seen: set<int>): map<nat, string> {
    map i: nat | i in seen && i < |ps| :: ps[i].data
  }

  lemma SeenMore(ds: seq<Part>, p: Part, id: string)
    ensures Seen(ds + [p], id) == Seen(ds, id) + if p.requestId == id then {p.index} else {}
  {
  }

  lemma SeenAreIndices(ds: seq<Part>, ps: seq<Part>, id: string)
    requires AreParts(ps, id) && Delivers(ds, ps, id)
    ensures forall i :: i in Seen(ds, id) ==> 0 <= i < |ps|
  {
  }

  lemma HeldCount(ps: seq<Part>, seen: set<int>)
    requires forall i :: i in seen ==> 0 <= i < |ps|
    ensures |Held(ps, seen)| == |seen|
  {
    SameCardinality(Held(ps, seen).Keys, seen);
  }

  lemma {:induction false} SameCardinality(s: set<nat>, t: set<int>)
    requires forall i :: i in t <==> i >= 0 && i in s
    ensures |s| == |t|
  {
    if s == {} {
      assert forall i :: i in t ==> i in s;
      assert t == {};
    } else {
      var i :| i in s;
      SameCardinality(s - {i}, t - {i});
    }
  }

  lemma {:induction false} JoinedIsPayload(a: Assembly, ps: seq<Part>, i: nat)
    requires a.count == |ps| && i <= |ps|
    requires forall k: nat :: k < |ps| ==> k in a.parts && a.parts[k] == ps[k].data
    ensures JoinedFrom(a, i) == Flatten(Payloads(ps)[i..])
    decreases |ps| - i
  {
    if i < |ps| {
      JoinedIsPayload(a, ps, i + 1);
      assert Payloads(ps)[i..][1..] == Payloads(ps)[i + 1..];
    }
  }

  /** What receiving a part of the request does when exactly the parts `seen` are held. */
  lemma {:induction false} ReceiveStep(ps: seq<Part>, id: string, seen: set<int>, i: nat, before: Option<Assembly>)
    requires AreParts(ps, id) && i < |ps| && forall k :: k in seen ==> 0 <= k < |ps|
    requires before == if seen == {} then None else Some(Assembly(|ps|, Held(ps, seen), |seen| == |ps|))
    ensures ValidMetadata(ps[i]) && (before.Some? ==> WellFormed(before.value))
    ensures Receive(before, ps[i]).0 == Assembly(|ps|, Held(ps, seen + {i}), |seen + {i}| == |ps|)
    ensures Receive(before, ps[i]).1
      == if |seen| == |ps| || |seen + {i}| != |ps| then Ok(None)
         else Decoded(Flatten(Payloads(ps)))
  {
    var more := seen + {i};
    HeldCount(ps, seen);
    HeldCount(ps, more);
    assert Held(ps, more) == Held(ps, seen)[i := ps[i].data];
    SubsetCardinality(Held(ps, seen).Keys, |ps|);
    SubsetCardinality(Held(ps, more).Keys, |ps|);
    if |seen| == |ps| {
      assert i in Held(ps, seen).Keys;
      assert more == seen;
    } else if |more| == |ps| {
      var a := Assembly(|ps|, Held(ps, more), false);
      AllPresent(a);
      assert Payloads(ps)[0..] == Payloads(ps);
      JoinedIsPayload(a, ps, 0);
    }
  }

  /** After any run the request's assembly holds exactly the parts seen so far, and is
      completed exactly when that is all of them. */
  lemma {:induction false} AssemblyAfter(ds: seq<Part>, ps: seq<Part>, id: string)
    requires AreParts(ps, id) && Delivers(ds, ps, id)
    ensures var seen := Seen(ds, id);
      Lookup(After(ds), id) == if seen == {} then None else Some(Assembly(|ps|, Held(ps, seen), |seen| == |ps|))
  {
    if ds != [] {
      var front, last := ds[..|ds| - 1], ds[|ds| - 1];
      assert ds == front + [last];
      SeenMore(front, last, id);
      AssemblyAfter(front, ps, id);
      SeenAreIndices(front, ps, id);
      if last.requestId == id {
        var i :| 0 <= i < |ps| && ps[i] == last;
        ReceiveStep(ps, id, Seen(front, id), i, Lookup(After(front), id));
      }
    }
  }

  /** A part is answered with the request's text exactly when it is the last one missing. */
  lemma {:induction false} AnswerToPart(ds: seq<Part>, ps: seq<Part>, id: string, i: nat)
    requires AreParts(ps, id) && Delivers(ds, ps, id) && i < |ps|
    ensures Answer(ds, ps[i])
      == if |Seen(ds, id)| == |ps| || |Seen(ds, id) + {i}| != |ps| then Ok(None)
         else Decoded(Flatten(Payloads(ps)))
  {
    AssemblyAfter(ds, ps, id);
    SeenAreIndices(ds, ps, id);
    ReceiveStep(ps, id, Seen(ds, id), i, Lookup(After(ds), id));
  }

  /** The number of deliveries of a request that were answered with a text. */
  ghost function Completions(ds: seq<Part>, id: string): nat {
    if ds == [] then 0
    else
      var front, last := ds[..|ds| - 1], ds[|ds| - 1];
      Completions(front, id)
      + if last.requestId == id && Completes(front, last) then 1 else 0
  }

  ghost predicate Completes(front: seq<Part>, last: Part) {
    Answer(front, last).Ok? && Answer(front, last).value.Some?
  }

  /** A delivered part completes its request exactly when it is the first to make it whole. */
  lemma {:induction false} CompletesWhenWhole(front: seq<Part>, last: Part, ps: seq<Part>, id: string)
    requires AreParts(ps, id) && Delivers(front, ps, id) && DecodeText(Flatten(Payloads(ps))).Some?
    requires last in ps
    ensures Completes(front, last) <==> |Seen(front, id)| < |ps| == |Seen(front, id) + {last.index}|
    ensures |Seen(front, id)| == |ps| ==> Seen(front, id) + {last.index} == Seen(front, id)
  {
    var i :| 0 <= i < |ps| && ps[i] == last;
    var seen := Seen(front, id);
    SeenAreIndices(front, ps, id);
    AnswerToPart(front, ps, id, i);
    HeldCount(ps, seen);
    SubsetCardinality(Held(ps, seen).Keys, |ps|);
    if |seen| == |ps| {
      AllSeen(ps, seen);
      assert seen + {i} == seen;
    }
  }

  /** Exactly once: over any run, a request whose parts have all arrived was answered with a
      text once; one still missing a part never was. */
  lemma {:induction false} ExactlyOnce(ds: seq<Part>, ps: seq<Part>, id: string)
    requires AreParts(ps, id) && Delivers(ds, ps, id) && DecodeText(Flatten(Payloads(ps))).Some?
    ensures Completions(ds, id) == if |Seen(ds, id)| == |ps| then 1 else 0
  {
    if ds != [] {
      var front, last := ds[..|ds| - 1], ds[|ds| - 1];
      assert ds == front + [last];
      SeenMore(front, last, id);
      ExactlyOnce(front, ps, id);
      if last.requestId == id {
        CompletesWhenWhole(front, last, ps, id);
        SeenIsSubset(front, ps, id);
      }
    }
  }

  lemma SeenIsSubset(ds: seq<Part>, ps: seq<Part>, id: string)
    requires AreParts(ps, id) && Delivers(ds, ps, id)
    ensures |Seen(ds, id)| <= |ps|
  {
    SeenAreIndices(ds, ps, id);
    HeldCount(ps, Seen(ds, id));
    SubsetCardinality(Held(ps, Seen(ds, id)).Keys, |ps|);
  }

  lemma AllSeen(ps: seq<Part>, seen: set<int>)
    requires (forall k :: k in seen ==> 0 <= k < |ps|) && |seen| == |ps|
    ensures forall k :: 0 <= k < |ps| ==> k in seen
  {
    HeldCount(ps, seen);
    SubsetCardinality(Held(ps, seen).Keys, |ps|);
    forall k | 0 <= k < |ps|
      ensures k in seen
    {
      var n: nat := k;
      assert n in Held(ps, seen).Keys;
    }
  }

  /** The parts `splitInferenceRequest` returns are the parts of one request. */
  lemma {:induction false} SplitGivesParts(payload: seq<Byte>, id: string, capacity: nat)
    requires capacity >= 1 && id != ""
    ensures var ps := PartsOf(payload, id, capacity, PartCount(|payload|, capacity));
      AreParts(ps, id) && Flatten(Payloads(ps)) == payload
  {
    DataPartitions(payload, id, capacity);
  }

  /** What a request's text is when it comes back: unpaired surrogates are replaced and a
      leading byte order mark is dropped. */
  function ReturnedText(payload: seq<CodePoint>): seq<CodePoint> {
    RepairedText(if payload != [] && payload[0] == BYTE_ORDER_MARK then payload[1..] else payload)
  }

  /** Deliver the parts of a payload in any order: the delivery that completes the request
      is answered with the payload, iff it has no unpaired surrogate and no leading mark. */
  lemma {:induction false} RequestRoundTrip(payload: seq<CodePoint>, ps: seq<Part>, id: string, ds: seq<Part>, i: nat)
    requires AreParts(ps, id) && Flatten(Payloads(ps)) == EncodeText(payload)
    requires Delivers(ds, ps, id) && i < |ps| && |Seen(ds, id)| < |ps| == |Seen(ds, id) + {i}|
    ensures Answer(ds, ps[i]) == Ok(Some(ReturnedText(payload)))
    ensures Answer(ds, ps[i]) == Ok(Some(payload))
      <==> !(payload != [] && payload[0] == BYTE_ORDER_MARK) && forall c :: c in payload ==> !IsSurrogate(c)
  {
    AnswerToPart(ds, ps, id, i);
    TextRoundTrip(payload);
  }

  /** The payload that consists of a byte order mark alone comes back empty. */
  lemma ByteOrderMarkIsLost()
    ensures ReturnedText([BYTE_ORDER_MARK]) == []
    ensures DecodeText(EncodeText([BYTE_ORDER_MARK])) == Some([])
  {
    TextRoundTrip([BYTE_ORDER_MARK]);
    assert [BYTE_ORDER_MARK][1..] == [];
  }
}
