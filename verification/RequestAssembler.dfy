/** Reassembling request parts that arrive in any order, repeated, and mixed with the parts
    of other requests. */
module RequestAssembler {
  import opened Results
  import opened Base64
  import opened Utf8
  import opened RequestSplit

  datatype Assembly = Assembly(count: nat, parts: map<nat, string>, completed: bool)

  datatype AddError = InvalidMetadata | ConflictingCount | ConflictingPart | InvalidUtf8

  /** Nothing yet, or the text of the request that this delivery completed. */
  type Outcome = Result<Option<seq<CodePoint>>, AddError>

  predicate ValidMetadata(p: Part) {
    p.version == 1 && p.requestId != "" && p.count >= 1 && 0 <= p.index < p.count
  }

  ghost predicate WellFormed(a: Assembly) {
    forall i :: i in a.parts ==> i < a.count
  }

  ghost predicate AllWellFormed(m: map<string, Assembly>) {
    forall id :: id in m ==> WellFormed(m[id])
  }

  function JoinedFrom(a: Assembly, i: nat): seq<Byte>
    requires forall k :: i <= k < a.count ==> k in a.parts
    requires i <= a.count
    decreases a.count - i
  {
    if i == a.count then [] else Decode(a.parts[i]) + JoinedFrom(a, i + 1)
  }

  /** The request's text, or the decoder's error. */
  function Decoded(bytes: seq<Byte>): Outcome {
    var text := DecodeText(bytes);
    if text.Some? then Ok(text) else Err(InvalidUtf8)
  }

  /** What a request's assembly becomes on a valid part, and what `add` answers. */
  ghost function Receive(before: Option<Assembly>, p: Part): (Assembly, Outcome)
    requires ValidMetadata(p) && (before.Some? ==> WellFormed(before.value))
  {
    var a := if before.Some? then before.value else Assembly(p.count, map[], false);
    if a.count != p.count then (a, Err(ConflictingCount))
    else if p.index in a.parts && a.parts[p.index] != p.data then (a, Err(ConflictingPart))
    else if a.completed then (a, Ok(None))
    else
      var a' := a.(parts := a.parts[p.index := p.data]);
      if |a'.parts| != a'.count then (a', Ok(None))
      else
        AllPresent(a');
        (a'.(completed := true), Decoded(JoinedFrom(a', 0)))
  }

  ghost function Lookup(m: map<string, Assembly>, id: string): Option<Assembly> {
    if id in m then Some(m[id]) else None
  }

  ghost function AddTo(m: map<string, Assembly>, p: Part): (map<string, Assembly>, Outcome)
    requires AllWellFormed(m)
  {
    if !ValidMetadata(p) then (m, Err(InvalidMetadata))
    else
      var r := Receive(Lookup(m, p.requestId), p);
      (m[p.requestId := r.0], r.1)
  }

  lemma {:induction false} SubsetCardinality(s: set<nat>, n: nat)
    requires forall i :: i in s ==> i < n
    ensures |s| <= n
    ensures |s| == n <==> forall i: nat :: i < n ==> i in s
  {
    if n == 0 {
      assert s == {};
    } else {
      var rest := s - {n - 1};
      SubsetCardinality(rest, n - 1);
      if n - 1 in s {
        assert s == rest + {n - 1};
        assert forall i: nat :: i < n - 1 ==> (i in rest <==> i in s);
      } else {
        assert s == rest;
      }
    }
  }

  /** As many parts as the count means every index below it. */
  lemma AllPresent(a: Assembly)
    requires WellFormed(a)
    ensures |a.parts| == a.count <==> forall i: nat :: i < a.count ==> i in a.parts
  {
    assert |a.parts| == |a.parts.Keys|;
    SubsetCardinality(a.parts.Keys, a.count);
  }

  lemma AddKeepsWellFormed(m: map<string, Assembly>, p: Part)
    requires AllWellFormed(m)
    ensures AllWellFormed(AddTo(m, p).0)
  {
  }

  class InferenceRequestPartAssembler {
    var assemblies: map<string, Assembly>

    constructor ()
      ensures assemblies == map[]
    {
      assemblies := map[];
    }

    method Add(part: Part) returns (r: Outcome)
      requires AllWellFormed(assemblies)
      modifies this
      ensures AllWellFormed(assemblies)
      ensures (assemblies, r) == AddTo(old(assemblies), part)
    {
      AddKeepsWellFormed(assemblies, part);
      if part.version != 1 || part.requestId == "" || part.count < 1 || part.index < 0 || part.index >= part.count {
        return Err(InvalidMetadata);
      }
      var assembly: Assembly;
      if part.requestId in assemblies {
        assembly := assemblies[part.requestId];
      } else {
        assembly := Assembly(part.count, map[], false);
        assemblies := assemblies[part.requestId := assembly];
      }
      assert assemblies == old(assemblies)[part.requestId := assembly];
      if assembly.count != part.count { return Err(ConflictingCount); }
      if part.index in assembly.parts && assembly.parts[part.index] != part.data { return Err(ConflictingPart); }
      if assembly.completed { return Ok(None); }
      assembly := assembly.(parts := assembly.parts[part.index := part.data]);
      assemblies := assemblies[part.requestId := assembly];
      assert assemblies == old(assemblies)[part.requestId := assembly];
      if |assembly.parts| != assembly.count { return Ok(None); }
      AllPresent(assembly);
      var joined := Join(assembly);
      assemblies := assemblies[part.requestId := assembly.(completed := true)];
      assert assemblies == old(assemblies)[part.requestId := assembly.(completed := true)];
      r := Decoded(joined);
    }
  }

  /** Decodes the parts in index order into one buffer. */
  method Join(assembly: Assembly) returns (bytes: seq<Byte>)
    requires forall i: nat :: i < assembly.count ==> i in assembly.parts
    ensures bytes == JoinedFrom(assembly, 0)
  {
    var chunks: seq<seq<Byte>> := [];
    var length := 0;
    for index := 0 to assembly.count
      invariant Flatten(chunks) + JoinedFrom(assembly, index) == JoinedFrom(assembly, 0)
      invariant length == |Flatten(chunks)|
    {
      var chunk := Decode(assembly.parts[index]);
      FlattenSnoc(chunks, chunk);
      Regroup(Flatten(chunks), chunk, JoinedFrom(assembly, index + 1));
      chunks := chunks + [chunk];
      length := length + |chunk|;
    }
    bytes := CopyChunks(chunks, length);
  }

  lemma Regroup(a: seq<Byte>, b: seq<Byte>, c: seq<Byte>)
    ensures (a + b) + c == a + (b + c)
  {
  }

  method CopyChunks(chunks: seq<seq<Byte>>, length: nat) returns (bytes: seq<Byte>)
    requires length == |Flatten(chunks)|
    ensures bytes == Flatten(chunks)
  {
    var joined := new Byte[length](_ => 0);
    var offset := 0;
    for k := 0 to |chunks|
      invariant offset == |Flatten(chunks[..k])| <= length
      invariant joined[..offset] == Flatten(chunks[..k])
    {
      var chunk := chunks[k];
      assert chunks[..k + 1] == chunks[..k] + [chunk];
      FlattenSnoc(chunks[..k], chunk);
      FlattenPrefix(chunks, k + 1);
      ghost var done := joined[..offset];
      forall i | offset <= i < offset + |chunk| {
        joined[i] := chunk[i - offset];
      }
      assert joined[..offset] == done;
      assert joined[offset..offset + |chunk|] == chunk;
      assert joined[..offset + |chunk|] == joined[..offset] + joined[offset..offset + |chunk|];
      offset := offset + |chunk|;
    }
    assert chunks[..|chunks|] == chunks;
    bytes := joined[..];
    assert joined[..] == joined[..length];
  }

  lemma {:induction false} FlattenPrefix(chunks: seq<seq<Byte>>, k: nat)
    requires k <= |chunks|
    ensures |Flatten(chunks[..k])| <= |Flatten(chunks)|
    decreases |chunks| - k
  {
    if k == |chunks| {
      assert chunks[..k] == chunks;
    } else {
      FlattenPrefix(chunks, k + 1);
      assert chunks[..k + 1] == chunks[..k] + [chunks[k]];
      FlattenSnoc(chunks[..k], chunks[k]);
    }
  }
}
