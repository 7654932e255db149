/** Converting the rows that arrived since the last turn into messages for a warm frame. */
module DeltaRows {
  import opened Results
  import opened Messages
  import opened ToolPairs
  import Annotation

  /** A purge row is an instruction over the whole history: only a cold frame can follow it. */
  predicate DeltaRequiresColdReassembly(rows: seq<Row>) {
    exists i :: 0 <= i < |rows| && rows[i].role.Purge?
  }

  function ToMsg(row: Row): Msg {
    Msg(
      if row.role.Alert? then Developer else row.role,
      if row.role.Alert? then "[system alert] " + row.content else row.content,
      row.blocks,
      row.modelId,
      if row.hostOrigin != "" then Some(row.hostOrigin) else None,
      row.toolName)
  }

  function ConvertDbRowToLLMMessage(row: Row, previousRole: Option<Role>, toolCallSeen: bool): Option<Msg> {
    if row.role.Purge? || row.role.System? then None
    else if row.role.ToolResult?
            && previousRole != Some(ToolCall)
            && !(previousRole == Some(ToolResult) && toolCallSeen) then None
    else Some(ToMsg(row))
  }

  // ----- which rows survive -----

  /** A row that conversion looks at. */
  predicate Passes(row: Row) {
    !IsYardClientBookkeepingRow(row) && !row.role.Purge? && !row.role.System?
  }

  /** Nothing but results was looked at since the tool_call at `j`. */
  ghost predicate OnlyResultsSince(rows: seq<Row>, j: nat, n: nat)
    requires j < n <= |rows|
  {
    rows[j].role.ToolCall? && forall k :: j < k < n && Passes(rows[k]) ==> rows[k].role.ToolResult?
  }

  ghost predicate OpenRun(rows: seq<Row>, n: nat)
    requires n <= |rows|
  {
    exists j :: 0 <= j < n && OnlyResultsSince(rows, j, n)
  }

  /** A row becomes a message unless it is skipped, or is a result outside every open run. */
  ghost predicate Survives(rows: seq<Row>, i: nat)
    requires i < |rows|
  {
    Passes(rows[i]) && (rows[i].role.ToolResult? ==> OpenRun(rows, i))
  }

  ghost function Surviving(rows: seq<Row>, n: nat): seq<Msg>
    requires n <= |rows|
  {
    if n == 0 then [] else Surviving(rows, n - 1) + if Survives(rows, n - 1) then [ToMsg(rows[n - 1])] else []
  }

  lemma OpenRunStep(rows: seq<Row>, n: nat)
    requires n < |rows|
    ensures OpenRun(rows, n + 1)
      <==> (rows[n].role.ToolCall? || (OpenRun(rows, n) && (Passes(rows[n]) ==> rows[n].role.ToolResult?)))
  {
    if rows[n].role.ToolCall? {
      assert OnlyResultsSince(rows, n, n + 1);
    }
    if OpenRun(rows, n + 1) {
      var j :| 0 <= j < n + 1 && OnlyResultsSince(rows, j, n + 1);
      assert j < n ==> OnlyResultsSince(rows, j, n);
    }
    if OpenRun(rows, n) && (Passes(rows[n]) ==> rows[n].role.ToolResult?) {
      var j :| 0 <= j < n && OnlyResultsSince(rows, j, n);
      assert OnlyResultsSince(rows, j, n + 1);
    }
  }

  /** `convertDeltaMessages`: exactly the surviving rows, in order. */
  method ConvertDeltaMessages(rows: seq<Row>) returns (messages: seq<Msg>)
    ensures messages == Surviving(rows, |rows|)
  {
    messages := [];
    var lastRole: Option<Role> := None;
    var toolCallSeen := false;
    for i := 0 to |rows|
      invariant messages == Surviving(rows, i)
      invariant (lastRole == Some(ToolCall) || lastRole == Some(ToolResult)) == OpenRun(rows, i)
      invariant OpenRun(rows, i) ==> toolCallSeen
    {
      OpenRunStep(rows, i);
      var row := rows[i];
      if IsYardClientBookkeepingRow(row) { continue; }
      var msg := ConvertDbRowToLLMMessage(row, lastRole, toolCallSeen);
      if msg.Some? {
        messages := messages + [msg.value];
        lastRole := Some(msg.value.role);
        if msg.value.role.ToolCall? {
          toolCallSeen := true;
        } else if !msg.value.role.ToolResult? {
          toolCallSeen := false;
        }
      }
    }
  }

  // ----- what the converted messages look like -----

  /** Every result belongs to a run of results that starts right after a call. */
  ghost predicate ResultsFollowCall(msgs: seq<Msg>) {
    forall p :: 0 <= p < |msgs| && msgs[p].role.ToolResult? ==> InRun(msgs, p)
  }

  ghost predicate InRun(msgs: seq<Msg>, p: nat)
    requires p <= |msgs|
  {
    exists q :: 0 <= q < p && msgs[q].role.ToolCall? && forall k :: q < k < p ==> msgs[k].role.ToolResult?
  }

  /** An open run of rows is an open run of messages. */
  lemma {:induction false} RunsCarryOver(rows: seq<Row>, n: nat)
    requires n <= |rows|
    ensures var out := Surviving(rows, n);
      ResultsFollowCall(out) && (OpenRun(rows, n) <==> InRun(out, |out|))
  {
    if n > 0 {
      RunsCarryOver(rows, n - 1);
      OpenRunStep(rows, n - 1);
      var front, out := Surviving(rows, n - 1), Surviving(rows, n);
      forall p | 0 <= p <= |front|
        ensures InRun(out, p) == InRun(front, p)
      {
        InRunPrefix(front, out, p);
      }
      if out != front {
        InRunSnoc(front, ToMsg(rows[n - 1]));
        assert forall p :: 0 <= p < |front| ==> out[p] == front[p];
      }
    }
  }

  lemma InRunPrefix(front: seq<Msg>, out: seq<Msg>, p: nat)
    requires front <= out && p <= |front|
    ensures InRun(out, p) == InRun(front, p)
  {
    if InRun(out, p) {
      var q :| 0 <= q < p && out[q].role.ToolCall? && forall k :: q < k < p ==> out[k].role.ToolResult?;
      assert front[q].role.ToolCall? && forall k :: q < k < p ==> front[k] == out[k];
    }
    if InRun(front, p) {
      var q :| 0 <= q < p && front[q].role.ToolCall? && forall k :: q < k < p ==> front[k].role.ToolResult?;
      assert out[q].role.ToolCall? && forall k :: q < k < p ==> front[k] == out[k];
    }
  }

  lemma InRunSnoc(front: seq<Msg>, m: Msg)
    ensures InRun(front + [m], |front| + 1) <==> (m.role.ToolCall? || (m.role.ToolResult? && InRun(front, |front|)))
  {
    var out := front + [m];
    InRunPrefix(front, out, |front|);
    if m.role.ToolCall? {
      assert out[|front|].role.ToolCall?;
    }
    if InRun(out, |out|) && !m.role.ToolCall? {
      var q :| 0 <= q < |out| && out[q].role.ToolCall? && forall k :: q < k < |out| ==> out[k].role.ToolResult?;
      assert q < |front|;
      assert out[|front|] == m;
    }
    if m.role.ToolResult? && InRun(out, |front|) {
      var q :| 0 <= q < |front| && out[q].role.ToolCall? && forall k :: q < k < |front| ==> out[k].role.ToolResult?;
      assert forall k :: q < k < |out| ==> out[k].role.ToolResult?;
    }
  }

  // ----- merging with the remembered turn -----

  /** Scanning converted rows in a window left open: no result can answer it. */
  lemma {:induction false} OpenWindowStaysOpen(stored: seq<Msg>, delta: seq<Msg>, n: nat)
    requires n <= |delta| && ResultsFollowCall(delta) && Waiting(After(stored, |stored|))
    ensures var s := After(stored + delta, |stored| + n);
      s.Orphan? || (s == After(stored, |stored|) && forall i :: 0 <= i < n ==> !Closes(delta[i]))
  {
    if n == 0 {
      AfterPrefix(stored, delta, |stored|);
    } else {
      OpenWindowStaysOpen(stored, delta, n - 1);
      assert (stored + delta)[|stored| + n - 1] == delta[n - 1];
      if delta[n - 1].role.ToolResult? {
        assert InRun(delta, n - 1);
        var q :| 0 <= q < n - 1 && delta[q].role.ToolCall? && forall k :: q < k < n - 1 ==> delta[k].role.ToolResult?;
        assert Closes(delta[q]);
      }
    }
  }

  /** A call left pending at the turn boundary always forces the cold path: whatever rows
      arrive, even its own results, the merge is reported as orphaned. */
  lemma {:induction false} PendingCallBails(stored: seq<Msg>, rows: seq<Row>)
    requires Waiting(After(stored, |stored|))
    ensures Orphaned(stored + Surviving(rows, |rows|))
  {
    RunsCarryOver(rows, |rows|);
    var delta := Surviving(rows, |rows|);
    OpenWindowStaysOpen(stored, delta, |delta|);
    assert |stored + delta| == |stored| + |delta|;
  }

  /** Where nothing is pending, the new messages are scanned as if they stood alone. */
  lemma {:induction false} ClosedWindowRestarts(stored: seq<Msg>, delta: seq<Msg>, n: nat)
    requires n <= |delta| && !Orphaned(stored)
    ensures After(stored + delta, |stored| + n) == After(delta, n)
  {
    if n == 0 {
      AfterPrefix(stored, delta, |stored|);
    } else {
      ClosedWindowRestarts(stored, delta, n - 1);
      assert (stored + delta)[|stored| + n - 1] == delta[n - 1];
    }
  }

  /** A merge is well paired exactly when the remembered messages and the new ones each are. */
  lemma MergedIff(stored: seq<Msg>, rows: seq<Row>)
    ensures WellPaired(stored + Surviving(rows, |rows|)) <==> WellPaired(stored) && WellPaired(Surviving(rows, |rows|))
  {
    var delta := Surviving(rows, |rows|);
    ScanExact(stored);
    ScanExact(delta);
    ScanExact(stored + delta);
    if !Orphaned(stored) {
      ClosedWindowRestarts(stored, delta, |delta|);
      assert |stored + delta| == |stored| + |delta|;
    } else if Waiting(After(stored, |stored|)) {
      PendingCallBails(stored, rows);
    } else {
      AfterPrefix(stored, delta, |stored|);
      OrphanSticks(stored + delta, |stored|, |stored + delta|);
    }
  }

  /** A delta is well paired when every call in it is answered and no result comes after the
      results of its call are all in. */
  lemma AnsweredDeltaPairs(rows: seq<Row>)
    requires var out := Surviving(rows, |rows|);
      && (forall k, j :: 0 <= k < j <= |out| && out[k].role.ToolCall? && WindowEnds(out, k, j) ==> Answered(out, k, j))
      && (forall k, r :: (0 <= k < r < |out| && out[k].role.ToolCall? && out[r].role.ToolResult? && SameWindow(out, k, r)
                          ==> !Answered(out, k, r)))
    ensures WellPaired(Surviving(rows, |rows|))
  {
    var out := Surviving(rows, |rows|);
    RunsCarryOver(rows, |rows|);
    forall r | 0 <= r < |out| && out[r].role.ToolResult?
      ensures InOpenWindow(out, r)
    {
      assert InRun(out, r);
      var q :| 0 <= q < r && out[q].role.ToolCall? && forall k :: q < k < r ==> out[k].role.ToolResult?;
      assert SameWindow(out, q, r);
    }
  }

  /** Which rows become messages: none for the context pipeline alone and no bookkeeping result,
      every other row that is no result, and a result right after a call. */
  lemma WhichSurvive(rows: seq<Row>, i: nat)
    requires i < |rows|
    ensures rows[i].role in {Purge, System} ==> !Survives(rows, i)
    ensures rows[i].role == ToolResult && "yard-client-" <= rows[i].toolName ==> !Survives(rows, i)
    ensures rows[i].role !in {Purge, System, ToolResult} ==> Survives(rows, i)
    ensures rows[i].role == ToolResult && !("yard-client-" <= rows[i].toolName) && i > 0 && rows[i - 1].role == ToolCall ==> Survives(rows, i)
    ensures rows[i].role == ToolResult && i > 0 && rows[i - 1].role in {User, Assistant, Developer, Alert} ==> !Survives(rows, i)
  {
    if i > 0 && rows[i].role == ToolResult {
      OpenRunStep(rows, i - 1);
    }
  }

  /** What a surviving row becomes. */
  lemma SurvivorBecomes(rows: seq<Row>, i: nat)
    requires i < |rows| && Survives(rows, i)
    ensures |Surviving(rows, i + 1)| == |Surviving(rows, i)| + 1 && Surviving(rows, i) <= Surviving(rows, i + 1)
    ensures var row, m := rows[i], Surviving(rows, i + 1)[|Surviving(rows, i)|];
      && (row.role == Alert ==> m.role == Developer && m.content == "[system alert] " + row.content)
      && (row.role != Alert ==> m.role == row.role && m.content == row.content)
      && m.blocks == row.blocks && m.toolUseId == row.toolName && m.modelId == row.modelId
      && (row.hostOrigin == "" <==> m.hostOrigin == None)
      && (m.hostOrigin.Some? ==> m.hostOrigin.value == row.hostOrigin)
  {
  }

  /** The warm path and the cold one turn a row into the same message exactly when its text is
      rendered as stored, its host is known, and its tool name is the id that annotation gives it. */
  lemma WarmMatchesCold(st: Annotation.State, row: Row, known: set<string>, render: Row -> string)
    requires Annotation.LlmRole(row.role)
    ensures Annotation.RowMsg(st, row, known, render) == ToMsg(row)
      <==> render(row) == row.content && row.hostOrigin != "" && row.toolName == Annotation.ToolUseId(st, row, known)
  {
  }

  lemma {:induction false} ConvertedIsUnmarked(rows: seq<Row>, n: nat)
    requires n <= |rows| && forall i :: 0 <= i < n ==> !rows[i].role.Cache?
    ensures forall m :: m in Surviving(rows, n) ==> !m.role.Cache?
  {
    if n > 0 {
      ConvertedIsUnmarked(rows, n - 1);
    }
  }
}
