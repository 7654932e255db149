/** Stage 5 annotation: a thread's stored rows become wire messages.
    Most rows yield exactly one message; an assistant row whose model differs from
    the previous assistant's is preceded by an injected developer message; a row
    whose role the model does not know yields nothing. */
module Annotation {
  import opened Results
  import opened Messages

  const MODEL_SWITCH_CAP := 3

  /** What the annotation loop carries from one row to the next. */
  datatype State = State(lastModel: string, lastCallId: string, switches: nat)

  const Start := State("", "", 0)

  predicate LlmRole(role: Role) {
    !role.Alert? && !role.Purge? && !role.Cache?
  }

  /** The block ids that any tool_call row of the window declares. */
  function KnownIds(rows: seq<Row>): set<string> {
    set row, block | row in rows && row.role.ToolCall? && block in row.blocks && block.id != "" :: block.id
  }

  lemma KnownIdsExact(rows: seq<Row>, id: string)
    ensures id in KnownIds(rows) <==>
      exists i, j :: 0 <= i < |rows| && 0 <= j < |rows[i].blocks| && rows[i].role == ToolCall && rows[i].blocks[j].id == id != ""
  {
    if id in KnownIds(rows) {
      var row, block :| row in rows && row.role.ToolCall? && block in row.blocks && block.id != "" && block.id == id;
      var i :| 0 <= i < |rows| && rows[i] == row;
      var j :| 0 <= j < |row.blocks| && row.blocks[j] == block;
      assert rows[i].blocks[j].id == id;
    }
  }

  predicate SwitchesModel(st: State, row: Row) {
    && row.role.Assistant?
    && row.modelId != ""
    && st.lastModel != ""
    && st.lastModel != row.modelId
    && st.switches < MODEL_SWITCH_CAP
  }

  function Next(st: State, row: Row): State {
    if !LlmRole(row.role) then st
    else State(
      if row.role.Assistant? && row.modelId != "" then row.modelId else st.lastModel,
      if !row.role.ToolCall? then st.lastCallId else if row.blocks == [] then "" else row.blocks[0].id,
      st.switches + if SwitchesModel(st, row) then 1 else 0)
  }

  /** The id a tool_result falls back to when no known tool_use carries its name. */
  function FallbackId(st: State, row: Row): string {
    if st.lastCallId != "" then st.lastCallId else "synthetic-" + row.id
  }

  function ToolUseId(st: State, row: Row, known: set<string>): string {
    if !row.role.ToolResult? then ""
    else if row.toolName != "" && row.toolName in known then row.toolName
    else FallbackId(st, row)
  }

  function SwitchMsg(st: State, row: Row): Msg {
    Text(Developer, "Model switched from " + st.lastModel + " to " + row.modelId)
  }

  function RowMsg(st: State, row: Row, known: set<string>, render: Row -> string): Msg {
    Msg(row.role, render(row), row.blocks, row.modelId, Some(row.hostOrigin), ToolUseId(st, row, known))
  }

  /** The messages one row contributes. */
  function Emit(st: State, row: Row, known: set<string>, render: Row -> string): seq<Msg> {
    if !LlmRole(row.role) then []
    else if SwitchesModel(st, row) then [SwitchMsg(st, row), RowMsg(st, row, known, render)]
    else [RowMsg(st, row, known, render)]
  }

  function StateAt(rows: seq<Row>, n: nat): State
    requires n <= |rows|
  {
    if n == 0 then Start else Next(StateAt(rows, n - 1), rows[n - 1])
  }

  /** The messages of the first `n` rows, tool ids being resolved against `known`. */
  function Emitted(rows: seq<Row>, n: nat, known: set<string>, render: Row -> string): seq<Msg>
    requires n <= |rows|
  {
    if n == 0 then [] else Emitted(rows, n - 1, known, render) + Emit(StateAt(rows, n - 1), rows[n - 1], known, render)
  }

  /** `annotateMessages`: ids are collected over the whole window before the fold starts. */
  function Annotate(rows: seq<Row>, render: Row -> string): seq<Msg> {
    Emitted(rows, |rows|, KnownIds(rows), render)
  }

  /** How the codec recognises a message that consumed no row. */
  predicate Injected(m: Msg) {
    m.role.Developer? && m.hostOrigin == None
  }

  /** The number of row-derived messages. */
  function RowDerived(msgs: seq<Msg>): nat {
    if msgs == [] then 0 else RowDerived(msgs[..|msgs| - 1]) + if Injected(msgs[|msgs| - 1]) then 0 else 1
  }

  lemma {:induction false} RowDerivedConcat(a: seq<Msg>, b: seq<Msg>)
    ensures RowDerived(a + b) == RowDerived(a) + RowDerived(b)
  {
    if b == [] {
      assert a + b == a;
    } else {
      assert (a + b)[..|a + b| - 1] == a + b[..|b| - 1];
      RowDerivedConcat(a, b[..|b| - 1]);
    }
  }

  lemma RowDerivedStep(msgs: seq<Msg>, i: nat)
    requires i < |msgs|
    ensures RowDerived(msgs[..i + 1]) == RowDerived(msgs[..i]) + if Injected(msgs[i]) then 0 else 1
  {
    assert msgs[..i + 1][..i] == msgs[..i];
  }

  lemma {:induction false} RowDerivedMonotone(msgs: seq<Msg>, i: nat, j: nat)
    requires i <= j <= |msgs|
    ensures RowDerived(msgs[..i]) <= RowDerived(msgs[..j])
    decreases j - i
  {
    if i < j {
      RowDerivedStep(msgs, i);
      RowDerivedMonotone(msgs, i + 1, j);
    }
  }

  /** Annotating a longer window only appends, as long as the known ids are the same. */
  lemma {:induction false} EmittedPrefix(rows: seq<Row>, k: nat, n: nat, known: set<string>, render: Row -> string)
    requires k <= n <= |rows|
    ensures Emitted(rows, k, known, render) <= Emitted(rows, n, known, render)
    decreases n
  {
    if k < n {
      EmittedPrefix(rows, k, n - 1, known, render);
    }
  }

  /** Only the first `n` rows matter to `StateAt` and `Emitted`. */
  lemma {:induction false} EmittedLocal(rows: seq<Row>, other: seq<Row>, n: nat, known: set<string>, render: Row -> string)
    requires n <= |rows| && n <= |other| && rows[..n] == other[..n]
    ensures StateAt(rows, n) == StateAt(other, n)
    ensures Emitted(rows, n, known, render) == Emitted(other, n, known, render)
  {
    if n > 0 {
      assert rows[..n - 1] == rows[..n][..n - 1] == other[..n][..n - 1] == other[..n - 1];
      assert rows[n - 1] == rows[..n][n - 1] == other[..n][n - 1] == other[n - 1];
      EmittedLocal(rows, other, n - 1, known, render);
    }
  }

  function LlmRows(rows: seq<Row>, n: nat): (count: nat)
    requires n <= |rows|
    ensures count <= n
  {
    if n == 0 then 0 else LlmRows(rows, n - 1) + if LlmRole(rows[n - 1].role) then 1 else 0
  }

  lemma EmitRowDerived(st: State, row: Row, known: set<string>, render: Row -> string)
    ensures RowDerived(Emit(st, row, known, render)) == if LlmRole(row.role) then 1 else 0
  {
    var e := Emit(st, row, known, render);
    if LlmRole(row.role) {
      assert !Injected(e[|e| - 1]);
      if SwitchesModel(st, row) {
        assert e[..1] == [SwitchMsg(st, row)];
        assert RowDerived([SwitchMsg(st, row)]) == 0;
      } else {
        assert e[..0] == [];
      }
    }
  }

  lemma AppendRowDerived(a: seq<Msg>, st: State, row: Row, known: set<string>, render: Row -> string)
    ensures RowDerived(a + Emit(st, row, known, render)) == RowDerived(a) + if LlmRole(row.role) then 1 else 0
  {
    RowDerivedConcat(a, Emit(st, row, known, render));
    EmitRowDerived(st, row, known, render);
  }

  /** Injected messages consume no row: row-derived messages count the known-role rows. */
  lemma {:induction false} EmittedRowDerived(rows: seq<Row>, n: nat, known: set<string>, render: Row -> string)
    requires n <= |rows|
    ensures RowDerived(Emitted(rows, n, known, render)) == LlmRows(rows, n)
  {
    if n > 0 {
      var st, row := StateAt(rows, n - 1), rows[n - 1];
      var before, emitted := Emitted(rows, n - 1, known, render), Emit(st, row, known, render);
      assert RowDerived(before) == LlmRows(rows, n - 1) by { EmittedRowDerived(rows, n - 1, known, render); }
      assert RowDerived(before + emitted) == RowDerived(before) + if LlmRole(row.role) then 1 else 0 by {
        AppendRowDerived(before, st, row, known, render);
      }
      assert Emitted(rows, n, known, render) == before + emitted;
    }
  }

  /** All of the first `n` rows were counted exactly when all have a known role. */
  lemma {:induction false} LlmRowsFull(rows: seq<Row>, n: nat)
    requires n <= |rows|
    ensures LlmRows(rows, n) <= n
    ensures LlmRows(rows, n) == n <==> forall k :: 0 <= k < n ==> LlmRole(rows[k].role)
  {
    if n > 0 {
      LlmRowsFull(rows, n - 1);
    }
  }

  /** The first emitted message always stands for a row. */
  lemma {:induction false} FirstIsRowDerived(rows: seq<Row>, n: nat, known: set<string>, render: Row -> string)
    requires n <= |rows|
    ensures var e := Emitted(rows, n, known, render);
      if e == [] then StateAt(rows, n) == Start else !Injected(e[0])
  {
    if n > 0 {
      FirstIsRowDerived(rows, n - 1, known, render);
    }
  }

  lemma LastOfEmit(st: State, row: Row, known: set<string>, render: Row -> string)
    ensures var e := Emit(st, row, known, render); e != [] ==> !Injected(e[|e| - 1])
  {
  }

  /** Whatever was emitted ends with the message of a row. */
  lemma {:induction false} LastIsRowDerived(rows: seq<Row>, n: nat, known: set<string>, render: Row -> string)
    requires n <= |rows|
    ensures var e := Emitted(rows, n, known, render); e != [] ==> !Injected(e[|e| - 1])
  {
    if n > 0 {
      LastIsRowDerived(rows, n - 1, known, render);
      LastOfEmit(StateAt(rows, n - 1), rows[n - 1], known, render);
    }
  }

  lemma AppendAgrees(a1: seq<Msg>, e1: seq<Msg>, a2: seq<Msg>, e2: seq<Msg>)
    requires |a1| == |a2| && |e1| == |e2|
    ensures a1 + e1 == a2 + e2 <==> a1 == a2 && e1 == e2
  {
    if a1 + e1 == a2 + e2 {
      assert (a1 + e1)[..|a1|] == a1 && (a2 + e2)[..|a2|] == a2;
      assert (a1 + e1)[|a1|..] == e1 && (a2 + e2)[|a2|..] == e2;
    }
  }

  lemma EmitAgrees(st: State, row: Row, k1: set<string>, k2: set<string>, render: Row -> string)
    ensures |Emit(st, row, k1, render)| == |Emit(st, row, k2, render)|
    ensures Emit(st, row, k1, render) == Emit(st, row, k2, render)
      <==> (LlmRole(row.role) ==> ToolUseId(st, row, k1) == ToolUseId(st, row, k2))
  {
    var e1, e2 := Emit(st, row, k1, render), Emit(st, row, k2, render);
    if LlmRole(row.role) {
      assert e1[|e1| - 1] == RowMsg(st, row, k1, render);
      assert e2[|e2| - 1] == RowMsg(st, row, k2, render);
    }
  }

  /** The two ways of resolving ids agree on a window exactly when they agree row by row. */
  lemma {:induction false} EmittedAgrees(rows: seq<Row>, n: nat, k1: set<string>, k2: set<string>, render: Row -> string)
    requires n <= |rows|
    ensures |Emitted(rows, n, k1, render)| == |Emitted(rows, n, k2, render)|
    ensures Emitted(rows, n, k1, render) == Emitted(rows, n, k2, render)
      <==> forall k :: 0 <= k < n && LlmRole(rows[k].role)
             ==> ToolUseId(StateAt(rows, k), rows[k], k1) == ToolUseId(StateAt(rows, k), rows[k], k2)
  {
    if n > 0 {
      var st, row := StateAt(rows, n - 1), rows[n - 1];
      var a1, a2 := Emitted(rows, n - 1, k1, render), Emitted(rows, n - 1, k2, render);
      var e1, e2 := Emit(st, row, k1, render), Emit(st, row, k2, render);
      EmittedAgrees(rows, n - 1, k1, k2, render);
      EmitAgrees(st, row, k1, k2, render);
      AppendAgrees(a1, e1, a2, e2);
    }
  }

  // ----- what the loop carries -----

  /** The last row of the first `n` that `p` picks, counted from one; zero when there is none. */
  function LastOf(rows: seq<Row>, n: nat, p: Row -> bool): (k: nat)
    requires n <= |rows|
    ensures k <= n && (k > 0 ==> p(rows[k - 1])) && forall j :: k <= j < n ==> !p(rows[j])
  {
    if n == 0 then 0 else if p(rows[n - 1]) then n else LastOf(rows, n - 1, p)
  }

  predicate Named(row: Row) {
    row.role == Assistant && row.modelId != ""
  }

  /** The model of the latest assistant row naming one, "" when there is none. */
  function LatestModel(rows: seq<Row>, n: nat): string
    requires n <= |rows|
  {
    var k := LastOf(rows, n, Named);
    if k == 0 then "" else rows[k - 1].modelId
  }

  lemma {:induction false} CarriedModel(rows: seq<Row>, n: nat)
    requires n <= |rows|
    ensures StateAt(rows, n).lastModel == LatestModel(rows, n)
  {
    if n > 0 {
      CarriedModel(rows, n - 1);
    }
  }

  predicate IsCall(row: Row) {
    row.role == ToolCall
  }

  /** The id of the latest tool_call row's first block, "" when there is none. */
  function LatestCallId(rows: seq<Row>, n: nat): string
    requires n <= |rows|
  {
    var k := LastOf(rows, n, IsCall);
    if k == 0 || rows[k - 1].blocks == [] then "" else rows[k - 1].blocks[0].id
  }

  lemma {:induction false} CarriedCall(rows: seq<Row>, n: nat)
    requires n <= |rows|
    ensures StateAt(rows, n).lastCallId == LatestCallId(rows, n)
  {
    if n > 0 {
      CarriedCall(rows, n - 1);
    }
  }

  /** Row `k` is an assistant row whose model differs from the one before it. */
  predicate ChangesModel(rows: seq<Row>, k: nat)
    requires k < |rows|
  {
    Named(rows[k]) && LatestModel(rows, k) != "" && LatestModel(rows, k) != rows[k].modelId
  }

  function Changes(rows: seq<Row>, n: nat): nat
    requires n <= |rows|
  {
    if n == 0 then 0 else Changes(rows, n - 1) + if ChangesModel(rows, n - 1) then 1 else 0
  }

  lemma SwitchesIff(rows: seq<Row>, n: nat)
    requires n < |rows|
    ensures SwitchesModel(StateAt(rows, n), rows[n]) <==> ChangesModel(rows, n) && StateAt(rows, n).switches < 3
  {
    CarriedModel(rows, n);
  }

  /** A switch is announced for the first three model changes and no others. */
  lemma {:induction false} SwitchesCapped(rows: seq<Row>, n: nat)
    requires n <= |rows|
    ensures StateAt(rows, n).switches == if Changes(rows, n) <= 3 then Changes(rows, n) else 3
  {
    if n > 0 {
      SwitchesCapped(rows, n - 1);
      SwitchesIff(rows, n - 1);
    }
  }

  /** What a row of a wire role becomes: its own message, preceded for each of the first three
      model changes by a note naming both models. */
  lemma RowBecomes(rows: seq<Row>, k: nat, known: set<string>, render: Row -> string)
    requires k < |rows| && rows[k].role !in {Alert, Purge, Cache}
    ensures Emitted(rows, k, known, render) <= Emitted(rows, k + 1, known, render)
    ensures var row, e := rows[k], Emitted(rows, k + 1, known, render)[|Emitted(rows, k, known, render)|..];
            var callId := LatestCallId(rows, k);
            var own := Msg(row.role, render(row), row.blocks, row.modelId, Some(row.hostOrigin),
                           if row.role != ToolResult then ""
                           else if row.toolName != "" && row.toolName in known then row.toolName
                           else if callId != "" then callId
                           else "synthetic-" + row.id);
      if ChangesModel(rows, k) && Changes(rows, k) < 3
      then e == [Text(Developer, "Model switched from " + LatestModel(rows, k) + " to " + row.modelId), own]
      else e == [own]
  {
    CarriedModel(rows, k);
    CarriedCall(rows, k);
    SwitchesIff(rows, k);
    SwitchesCapped(rows, k);
  }

  /** A row of another role becomes nothing. */
  lemma RowSkipped(rows: seq<Row>, k: nat, known: set<string>, render: Row -> string)
    requires k < |rows| && rows[k].role in {Alert, Purge, Cache}
    ensures Emitted(rows, k + 1, known, render) == Emitted(rows, k, known, render)
  {
  }
}
