/** Aggregating a model's stream of chunks into one response. */
module StreamChunks {
  import opened Results
  import opened ToolCallDrafts

  datatype Usage = Usage(inputTokens: nat, outputTokens: nat, cacheWrite: Option<nat>, cacheRead: Option<nat>, estimated: bool)

  datatype Chunk =
    | TextChunk(content: string)
    | ThinkingChunk(content: string, signature: string)
    | ToolUseStart(id: string, name: string)
    | ToolUseArgs(id: string, partialJson: string)
    | ToolUseEnd(id: string)
    | Done(usage: Usage)
    | ErrorChunk
    | Heartbeat

  datatype Response = Response(
    textContent: string,
    thinking: Option<string>,
    thinkingSignature: Option<string>,
    toolCalls: seq<Call>,
    usage: Usage)

  const NO_USAGE := Usage(0, 0, None, None, false)

  /** JSON.parse of a call's arguments: none when it throws, else whether the parsed object
      has no keys. */
  type ArgsParser = string -> Option<bool>

  predicate Concerns(c: Chunk, id: string) {
    (c.ToolUseStart? || c.ToolUseArgs? || c.ToolUseEnd?) && c.id == id
  }

  // ----- what a call's arguments and name are -----

  /** The last position below `n` where `id` was started, or -1. */
  function LastStart(chunks: seq<Chunk>, n: nat, id: string): (r: int)
    requires n <= |chunks|
    ensures -1 <= r < n
    ensures r >= 0 ==> chunks[r].ToolUseStart?
  {
    if n == 0 then -1
    else if chunks[n - 1].ToolUseStart? && chunks[n - 1].id == id then n - 1
    else LastStart(chunks, n - 1, id)
  }

  /** The fragments of `id` in `chunks[lo..hi]`, joined. */
  function Fragments(chunks: seq<Chunk>, lo: nat, hi: nat, id: string): string
    requires lo <= hi <= |chunks|
  {
    if lo == hi then ""
    else
      Fragments(chunks, lo, hi - 1, id)
      + if chunks[hi - 1].ToolUseArgs? && chunks[hi - 1].id == id then chunks[hi - 1].partialJson else ""
  }

  /** The fragments of `id` since its last start. */
  function ArgsAt(chunks: seq<Chunk>, n: nat, id: string): string
    requires n <= |chunks|
  {
    Fragments(chunks, LastStart(chunks, n, id) + 1, n, id)
  }

  function NameAt(chunks: seq<Chunk>, n: nat, id: string): string
    requires n <= |chunks|
  {
    var s := LastStart(chunks, n, id);
    if s >= 0 then chunks[s].name else id
  }

  function MakeCall(id: string, name: string, args: string, parse: ArgsParser): Call {
    var full := if args != "" then args else "{}";
    match parse(full)
    case None => Call(id, name, full, true, true)
    case Some(noKeys) => Call(id, name, full, noKeys, false)
  }

  function CallsUpTo(chunks: seq<Chunk>, n: nat, parse: ArgsParser): seq<Call>
    requires n <= |chunks|
  {
    if n == 0 then []
    else
      var c := chunks[n - 1];
      CallsUpTo(chunks, n - 1, parse)
      + if c.ToolUseEnd? then [MakeCall(c.id, NameAt(chunks, n - 1, c.id), ArgsAt(chunks, n - 1, c.id), parse)] else []
  }

  function TextUpTo(chunks: seq<Chunk>, n: nat): string
    requires n <= |chunks|
  {
    if n == 0 then "" else TextUpTo(chunks, n - 1) + if chunks[n - 1].TextChunk? then chunks[n - 1].content else ""
  }

  function ThinkingUpTo(chunks: seq<Chunk>, n: nat): string
    requires n <= |chunks|
  {
    if n == 0 then "" else ThinkingUpTo(chunks, n - 1) + if chunks[n - 1].ThinkingChunk? then chunks[n - 1].content else ""
  }

  function SignatureUpTo(chunks: seq<Chunk>, n: nat): Option<string>
    requires n <= |chunks|
  {
    if n == 0 then None
    else if chunks[n - 1].ThinkingChunk? && chunks[n - 1].signature != "" then Some(chunks[n - 1].signature)
    else SignatureUpTo(chunks, n - 1)
  }

  function UsageUpTo(chunks: seq<Chunk>, n: nat): Usage
    requires n <= |chunks|
  {
    if n == 0 then NO_USAGE else if chunks[n - 1].Done? then chunks[n - 1].usage else UsageUpTo(chunks, n - 1)
  }

  /** Arguments and name, folded one chunk at a time. */
  lemma ArgsStep(chunks: seq<Chunk>, n: nat, id: string)
    requires n < |chunks|
    ensures ArgsAt(chunks, n + 1, id)
         == if !Concerns(chunks[n], id) || chunks[n].ToolUseEnd? then ArgsAt(chunks, n, id)
            else if chunks[n].ToolUseStart? then ""
            else ArgsAt(chunks, n, id) + chunks[n].partialJson
    ensures NameAt(chunks, n + 1, id) == if Concerns(chunks[n], id) && chunks[n].ToolUseStart? then chunks[n].name
                                         else NameAt(chunks, n, id)
  {
  }

  function GetOr(m: map<string, string>, id: string, default: string): string {
    if id in m then m[id] else default
  }

  /** What the accumulators hold after `n` chunks. */
  ghost predicate Tracks(chunks: seq<Chunk>, n: nat, args: map<string, string>, names: map<string, string>)
    requires n <= |chunks|
  {
    forall id :: GetOr(args, id, "") == ArgsAt(chunks, n, id) && GetOr(names, id, id) == NameAt(chunks, n, id)
  }

  function NextArgs(c: Chunk, args: map<string, string>): map<string, string> {
    match c
    case ToolUseStart(id, _) => args[id := ""]
    case ToolUseArgs(id, partialJson) => args[id := GetOr(args, id, "") + partialJson]
    case _ => args
  }

  function NextNames(c: Chunk, names: map<string, string>): map<string, string> {
    if c.ToolUseStart? then names[c.id := c.name] else names
  }

  lemma TrackStep(chunks: seq<Chunk>, n: nat, args: map<string, string>, names: map<string, string>)
    requires n < |chunks| && Tracks(chunks, n, args, names)
    ensures Tracks(chunks, n + 1, NextArgs(chunks[n], args), NextNames(chunks[n], names))
  {
    var args', names' := NextArgs(chunks[n], args), NextNames(chunks[n], names);
    forall id
      ensures GetOr(args', id, "") == ArgsAt(chunks, n + 1, id) && GetOr(names', id, id) == NameAt(chunks, n + 1, id)
    {
      ArgsStep(chunks, n, id);
      assert GetOr(args, id, "") == ArgsAt(chunks, n, id) && GetOr(names, id, id) == NameAt(chunks, n, id);
    }
  }

  /** `parseStreamChunks`. */
  method ParseStreamChunks(chunks: seq<Chunk>, parse: ArgsParser) returns (r: Response)
    ensures var calls := CallsUpTo(chunks, |chunks|, parse); var thinking := ThinkingUpTo(chunks, |chunks|);
      r == Response(TextUpTo(chunks, |chunks|), if thinking == "" then None else Some(thinking),
                    SignatureUpTo(chunks, |chunks|), Kept(calls, |calls|), UsageUpTo(chunks, |chunks|))
  {
    var textContent, thinkingContent := "", "";
    var thinkingSignature: Option<string> := None;
    var toolCalls: seq<Call> := [];
    var argsAccumulator: map<string, string> := map[];
    var nameMap: map<string, string> := map[];
    var usage := NO_USAGE;
    for i := 0 to |chunks|
      invariant textContent == TextUpTo(chunks, i) && thinkingContent == ThinkingUpTo(chunks, i)
      invariant thinkingSignature == SignatureUpTo(chunks, i) && usage == UsageUpTo(chunks, i)
      invariant toolCalls == CallsUpTo(chunks, i, parse)
      invariant Tracks(chunks, i, argsAccumulator, nameMap)
    {
      TrackStep(chunks, i, argsAccumulator, nameMap);
      match chunks[i] {
        case TextChunk(content) =>
          textContent := textContent + content;
        case ThinkingChunk(content, signature) =>
          thinkingContent := thinkingContent + content;
          if signature != "" { thinkingSignature := Some(signature); }
        case ToolUseStart(id, name) =>
          argsAccumulator := argsAccumulator[id := ""];
          nameMap := nameMap[id := name];
        case ToolUseArgs(id, partialJson) =>
          var existing := GetOr(argsAccumulator, id, "");
          argsAccumulator := argsAccumulator[id := existing + partialJson];
        case ToolUseEnd(id) =>
          var args := GetOr(argsAccumulator, id, "");
          var name := GetOr(nameMap, id, id);
          toolCalls := toolCalls + [MakeCall(id, name, args, parse)];
        case Done(u) =>
          usage := u;
        case _ =>
      }
    }
    var thinking := if thinkingContent == "" then None else Some(thinkingContent);
    var kept := DropSupersededToolCallDrafts(toolCalls);
    r := Response(textContent, thinking, thinkingSignature, kept, usage);
  }

  // ----- other ids do not matter -----

  /** The chunks among the first `n` that concern `id`. */
  function Own(chunks: seq<Chunk>, n: nat, id: string): seq<Chunk>
    requires n <= |chunks|
  {
    if n == 0 then [] else Own(chunks, n - 1, id) + if Concerns(chunks[n - 1], id) then [chunks[n - 1]] else []
  }

  function CallsOf(calls: seq<Call>, id: string): seq<Call> {
    if calls == [] then []
    else CallsOf(calls[..|calls| - 1], id) + if calls[|calls| - 1].id == id then [calls[|calls| - 1]] else []
  }

  lemma {:induction false} PrefixSame(a: seq<Chunk>, b: seq<Chunk>, n: nat, id: string)
    requires n <= |a| && a <= b
    ensures ArgsAt(b, n, id) == ArgsAt(a, n, id) && NameAt(b, n, id) == NameAt(a, n, id)
  {
    if n > 0 {
      assert a[n - 1] == b[n - 1];
      assert ArgsAt(b, n - 1, id) == ArgsAt(a, n - 1, id) && NameAt(b, n - 1, id) == NameAt(a, n - 1, id) by {
        PrefixSame(a, b, n - 1, id);
      }
      ArgsStep(a, n - 1, id);
      ArgsStep(b, n - 1, id);
    }
  }

  lemma {:induction false} CallsPrefix(a: seq<Chunk>, b: seq<Chunk>, n: nat, parse: ArgsParser)
    requires n <= |a| && a <= b
    ensures CallsUpTo(b, n, parse) == CallsUpTo(a, n, parse)
  {
    if n > 0 {
      CallsPrefix(a, b, n - 1, parse);
      if a[n - 1].ToolUseEnd? {
        PrefixSame(a, b, n - 1, a[n - 1].id);
      }
    }
  }

  lemma ArgsSnoc(before: seq<Chunk>, c: Chunk, id: string)
    ensures var all := before + [c];
      && ArgsAt(all, |all|, id)
         == (if !Concerns(c, id) || c.ToolUseEnd? then ArgsAt(before, |before|, id)
             else if c.ToolUseStart? then ""
             else ArgsAt(before, |before|, id) + c.partialJson)
      && NameAt(all, |all|, id)
         == (if Concerns(c, id) && c.ToolUseStart? then c.name else NameAt(before, |before|, id))
  {
    var all := before + [c];
    assert all[|before|] == c;
    PrefixSame(before, all, |before|, id);
    ArgsStep(all, |before|, id);
  }

  lemma {:induction false} OwnSame(chunks: seq<Chunk>, n: nat, id: string)
    requires n <= |chunks|
    ensures var own := Own(chunks, n, id);
      ArgsAt(own, |own|, id) == ArgsAt(chunks, n, id) && NameAt(own, |own|, id) == NameAt(chunks, n, id)
  {
    if n > 0 {
      OwnSame(chunks, n - 1, id);
      ArgsStep(chunks, n - 1, id);
      var before, c := Own(chunks, n - 1, id), chunks[n - 1];
      if Concerns(c, id) {
        assert Own(chunks, n, id) == before + [c];
        ArgsSnoc(before, c, id);
      } else {
        assert Own(chunks, n, id) == before;
      }
    }
  }

  lemma CallsOfSnoc(calls: seq<Call>, c: Call, id: string)
    ensures CallsOf(calls + [c], id) == if c.id == id then CallsOf(calls, id) + [c] else CallsOf(calls, id)
  {
    assert (calls + [c])[..|calls|] == calls;
  }

  /** One more own chunk adds the same call to the own calls as to all calls. */
  lemma OwnCallStep(chunks: seq<Chunk>, n: nat, id: string, parse: ArgsParser)
    requires n < |chunks| && Concerns(chunks[n], id)
    ensures var before, own := Own(chunks, n, id), Own(chunks, n + 1, id);
      CallsUpTo(own, |own|, parse) == CallsUpTo(before, |before|, parse)
        + if chunks[n].ToolUseEnd? then [MakeCall(id, NameAt(chunks, n, id), ArgsAt(chunks, n, id), parse)] else []
  {
    var before, own := Own(chunks, n, id), Own(chunks, n + 1, id);
    assert own == before + [chunks[n]] && own[|before|] == chunks[n];
    CallsPrefix(before, own, |before|, parse);
    PrefixSame(before, own, |before|, id);
    OwnSame(chunks, n, id);
  }

  /** The calls parsed for one id depend only on that id's chunks, in their order: nothing
      another id streams in between can change them. */
  lemma {:induction false} OtherIdsDoNotMatter(chunks: seq<Chunk>, n: nat, id: string, parse: ArgsParser)
    requires n <= |chunks|
    ensures var own := Own(chunks, n, id);
      CallsOf(CallsUpTo(chunks, n, parse), id) == CallsUpTo(own, |own|, parse)
  {
    if n > 0 {
      OtherIdsDoNotMatter(chunks, n - 1, id, parse);
      var c, calls := chunks[n - 1], CallsUpTo(chunks, n - 1, parse);
      if Concerns(c, id) {
        OwnCallStep(chunks, n - 1, id, parse);
      } else {
        assert Own(chunks, n, id) == Own(chunks, n - 1, id);
      }
      if c.ToolUseEnd? {
        CallsOfSnoc(calls, MakeCall(c.id, NameAt(chunks, n - 1, c.id), ArgsAt(chunks, n - 1, c.id), parse), id);
      } else {
        assert CallsUpTo(chunks, n, parse) == calls;
      }
    }
  }

  // ----- what the response holds -----

  /** Text and thinking are collected in the order in which they are streamed. */
  lemma {:induction false} TextConcat(a: seq<Chunk>, b: seq<Chunk>)
    ensures TextUpTo(a + b, |a + b|) == TextUpTo(a, |a|) + TextUpTo(b, |b|)
    ensures ThinkingUpTo(a + b, |a + b|) == ThinkingUpTo(a, |a|) + ThinkingUpTo(b, |b|)
  {
    if b == [] {
      assert a + b == a;
    } else {
      var front, last := b[..|b| - 1], b[|b| - 1];
      TextConcat(a, front);
      assert a + b == a + front + [last] && b == front + [last];
      TextSnoc(a + front, last);
      TextSnoc(front, last);
    }
  }

  lemma TextSnoc(a: seq<Chunk>, c: Chunk)
    ensures TextUpTo(a + [c], |a| + 1) == TextUpTo(a, |a|) + if c.TextChunk? then c.content else ""
    ensures ThinkingUpTo(a + [c], |a| + 1) == ThinkingUpTo(a, |a|) + if c.ThinkingChunk? then c.content else ""
  {
    TextPrefix(a, [c], |a|);
    assert (a + [c])[|a|] == c;
  }

  lemma {:induction false} TextPrefix(a: seq<Chunk>, b: seq<Chunk>, n: nat)
    requires n <= |a|
    ensures TextUpTo(a + b, n) == TextUpTo(a, n) && ThinkingUpTo(a + b, n) == ThinkingUpTo(a, n)
  {
    if n > 0 {
      TextPrefix(a, b, n - 1);
      assert (a + b)[n - 1] == a[n - 1];
    }
  }

  /** A text chunk adds its text to the text, a thinking chunk to the thinking, no other chunk
      adds to either. */
  lemma TextOfOne(c: Chunk)
    ensures TextUpTo([c], 1) == match c case TextChunk(content) => content case _ => ""
    ensures ThinkingUpTo([c], 1) == match c case ThinkingChunk(content, _) => content case _ => ""
  {
    assert TextUpTo([c], 0) == "" && ThinkingUpTo([c], 0) == "";
  }

  /** The signature is the last one streamed that is not empty. */
  lemma {:induction false} SignatureExact(chunks: seq<Chunk>, n: nat, k: int)
    requires n <= |chunks| && -1 <= k < n
    requires k >= 0 ==> chunks[k].ThinkingChunk? && chunks[k].signature != ""
    requires forall j :: k < j < n && chunks[j].ThinkingChunk? ==> chunks[j].signature == ""
    ensures SignatureUpTo(chunks, n) == if k >= 0 then Some(chunks[k].signature) else None
  {
    if n > 0 && n - 1 > k {
      SignatureExact(chunks, n - 1, k);
    }
  }

  /** The usage is that of the last chunk that ends a response. */
  lemma {:induction false} UsageExact(chunks: seq<Chunk>, n: nat, k: int)
    requires n <= |chunks| && -1 <= k < n
    requires k >= 0 ==> chunks[k].Done?
    requires forall j :: k < j < n ==> !chunks[j].Done?
    ensures UsageUpTo(chunks, n) == if k >= 0 then chunks[k].usage else Usage(0, 0, None, None, false)
  {
    if n > 0 && n - 1 > k {
      UsageExact(chunks, n - 1, k);
    }
  }

  /** A parsed call carries the streamed arguments, an empty object when there are none, and is
      truncated exactly when they do not parse. */
  lemma CallExact(id: string, name: string, args: string, parse: ArgsParser)
    ensures var call := MakeCall(id, name, args, parse);
      && call.id == id && call.name == name
      && call.argsJson == (if args == "" then "{}" else args)
      && (call.truncated <==> parse(call.argsJson) == None)
      && (!call.truncated ==> parse(call.argsJson) == Some(call.noInputKeys))
  {
  }

  function Joined(fragments: seq<string>): string {
    if fragments == [] then "" else fragments[0] + Joined(fragments[1..])
  }

  function ArgsChunks(id: string, fragments: seq<string>): seq<Chunk> {
    seq(|fragments|, i requires 0 <= i < |fragments| => ToolUseArgs(id, fragments[i]))
  }

  lemma {:induction false} JoinedSnoc(fragments: seq<string>, last: string)
    ensures Joined(fragments + [last]) == Joined(fragments) + last
  {
    if fragments == [] {
      assert fragments + [last] == [last];
    } else {
      JoinedSnoc(fragments[1..], last);
      assert (fragments + [last])[1..] == fragments[1..] + [last];
    }
  }

  lemma {:induction false} StreamedArgs(before: seq<Chunk>, id: string, name: string, fragments: seq<string>, parse: ArgsParser)
    ensures var all := before + [ToolUseStart(id, name)] + ArgsChunks(id, fragments);
      && ArgsAt(all, |all|, id) == Joined(fragments)
      && NameAt(all, |all|, id) == name
      && CallsUpTo(all, |all|, parse) == CallsUpTo(before, |before|, parse)
  {
    var started := before + [ToolUseStart(id, name)];
    if fragments == [] {
      assert started + ArgsChunks(id, fragments) == started;
      ArgsSnoc(before, ToolUseStart(id, name), id);
      CallsSnoc(before, ToolUseStart(id, name), parse);
    } else {
      var front, last := fragments[..|fragments| - 1], fragments[|fragments| - 1];
      StreamedArgs(before, id, name, front, parse);
      assert started + ArgsChunks(id, fragments) == started + ArgsChunks(id, front) + [ToolUseArgs(id, last)];
      ArgsSnoc(started + ArgsChunks(id, front), ToolUseArgs(id, last), id);
      CallsSnoc(started + ArgsChunks(id, front), ToolUseArgs(id, last), parse);
      JoinedSnoc(front, last);
      assert front + [last] == fragments;
    }
  }

  /** Only the end of a call adds one. */
  lemma CallsSnoc(before: seq<Chunk>, c: Chunk, parse: ArgsParser)
    ensures CallsUpTo(before + [c], |before| + 1, parse) == CallsUpTo(before, |before|, parse)
      + if c.ToolUseEnd? then [MakeCall(c.id, NameAt(before, |before|, c.id), ArgsAt(before, |before|, c.id), parse)] else []
  {
    var all := before + [c];
    assert all[|before|] == c;
    CallsPrefix(before, all, |before|, parse);
    if c.ToolUseEnd? {
      PrefixSame(before, all, |before|, c.id);
    }
  }

  /** A call streamed from its start to its end is added with the name it was started with and
      its fragments joined in order. */
  lemma StreamedCall(before: seq<Chunk>, id: string, name: string, fragments: seq<string>, parse: ArgsParser)
    ensures var all := before + [ToolUseStart(id, name)] + ArgsChunks(id, fragments) + [ToolUseEnd(id)];
      CallsUpTo(all, |all|, parse) == CallsUpTo(before, |before|, parse) + [MakeCall(id, name, Joined(fragments), parse)]
  {
    var open := before + [ToolUseStart(id, name)] + ArgsChunks(id, fragments);
    StreamedArgs(before, id, name, fragments, parse);
    CallsSnoc(open, ToolUseEnd(id), parse);
  }
}
