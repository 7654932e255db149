/** Tool calls and their results: the one-pass orphan detector against its declarative
    meaning, and the conversion of delta rows. */
module ToolPairs {
  import opened Results
  import opened Messages

  /** The tool_use ids a call waits for. */
  function Declared(m: Msg): set<string> {
    set block | block in m.blocks && block.isToolUse && block.id != "" :: block.id
  }

  /** A message that closes the window of the call before it. */
  predicate Closes(m: Msg) {
    !m.role.ToolResult? && !m.role.Cache? && !m.role.Developer?
  }

  // ----- what well-paired means -----

  /** Before position `j`, the call at `k` has a result, and every id it declared is answered. */
  ghost predicate Answered(msgs: seq<Msg>, k: nat, j: nat)
    requires k < j <= |msgs|
  {
    && (exists r :: k < r < j && msgs[r].role.ToolResult?)
    && (forall id :: id in Declared(msgs[k]) ==> AnsweredId(msgs, k, j, id))
  }

  ghost predicate AnsweredId(msgs: seq<Msg>, k: nat, j: nat, id: string)
    requires k < j <= |msgs|
  {
    exists r :: k < r < j && msgs[r].role.ToolResult? && msgs[r].toolUseId == id
  }

  /** No message strictly between `k` and `j` closes the window of `k`. */
  ghost predicate SameWindow(msgs: seq<Msg>, k: nat, j: nat)
    requires k < j <= |msgs|
  {
    forall i :: k < i < j ==> !Closes(msgs[i])
  }

  /** The window of `k` ends at `j`: there is a closing message, or the list ends. */
  ghost predicate WindowEnds(msgs: seq<Msg>, k: nat, j: nat)
    requires k < j <= |msgs|
  {
    SameWindow(msgs, k, j) && (j < |msgs| ==> Closes(msgs[j]))
  }

  /** Every call is answered by the end of its window, and every result falls into the
      window of a call that is not answered yet. */
  ghost predicate WellPaired(msgs: seq<Msg>) {
    && (forall k, j :: 0 <= k < j <= |msgs| && msgs[k].role.ToolCall? && WindowEnds(msgs, k, j) ==> Answered(msgs, k, j))
    && (forall r :: 0 <= r < |msgs| && msgs[r].role.ToolResult? ==> InOpenWindow(msgs, r))
  }

  ghost predicate InOpenWindow(msgs: seq<Msg>, r: nat)
    requires r <= |msgs|
  {
    exists k :: 0 <= k < r && msgs[k].role.ToolCall? && SameWindow(msgs, k, r) && !Answered(msgs, k, r)
  }

  // ----- the scan -----

  datatype Scan = Orphan | Scan(pending: set<string>, active: bool)

  predicate Waiting(s: Scan) {
    s.Scan? && (s.pending != {} || s.active)
  }

  function Next(s: Scan, m: Msg): Scan {
    if s.Orphan? then Orphan
    else if m.role.ToolCall? then if Waiting(s) then Orphan else Scan(Declared(m), true)
    else if m.role.ToolResult? then
      if !s.active then Orphan
      else
        var pending := if m.toolUseId != "" then s.pending - {m.toolUseId} else s.pending;
        Scan(pending, pending != {})
    else if m.role.Cache? || m.role.Developer? then s
    else if Waiting(s) then Orphan
    else Scan({}, false)
  }

  function After(msgs: seq<Msg>, n: nat): Scan
    requires n <= |msgs|
  {
    if n == 0 then Scan({}, false) else Next(After(msgs, n - 1), msgs[n - 1])
  }

  predicate Orphaned(msgs: seq<Msg>) {
    var s := After(msgs, |msgs|);
    s.Orphan? || Waiting(s)
  }

  lemma {:induction false} OrphanSticks(msgs: seq<Msg>, m: nat, n: nat)
    requires m <= n <= |msgs| && After(msgs, m).Orphan?
    ensures After(msgs, n).Orphan?
    decreases n
  {
    if m < n {
      OrphanSticks(msgs, m, n - 1);
    }
  }

  /** `hasOrphanedToolCall`: true iff the list is not well paired. */
  method HasOrphanedToolCall(messages: seq<Msg>) returns (orphaned: bool)
    ensures orphaned == Orphaned(messages)
    ensures orphaned <==> !WellPaired(messages)
  {
    ScanExact(messages);
    var pending: set<string> := {};
    var inActiveToolCall := false;
    for i := 0 to |messages|
      invariant After(messages, i) == Scan(pending, inActiveToolCall)
    {
      var msg := messages[i];
      if msg.role.ToolCall? {
        if pending != {} || inActiveToolCall {
          OrphanSticks(messages, i + 1, |messages|);
          return true;
        }
        pending := set block | block in msg.blocks && block.isToolUse && block.id != "" :: block.id;
        inActiveToolCall := true;
        continue;
      }
      if msg.role.ToolResult? {
        if !inActiveToolCall {
          OrphanSticks(messages, i + 1, |messages|);
          return true;
        }
        if msg.toolUseId != "" { pending := pending - {msg.toolUseId}; }
        if pending == {} { inActiveToolCall := false; }
        continue;
      }
      if msg.role.Cache? || msg.role.Developer? { continue; }
      if pending != {} || inActiveToolCall {
        OrphanSticks(messages, i + 1, |messages|);
        return true;
      }
      pending := {};
      inActiveToolCall := false;
    }
    return pending != {} || inActiveToolCall;
  }

  // ----- the scan computes the meaning -----

  /** The last closing position below `n`, or -1. */
  function Opener(msgs: seq<Msg>, n: nat): (k: int)
    requires n <= |msgs|
    ensures -1 <= k < n
    ensures k >= 0 ==> Closes(msgs[k])
    ensures forall i :: k < i < n ==> !Closes(msgs[i])
  {
    if n == 0 then -1 else if Closes(msgs[n - 1]) then n - 1 else Opener(msgs, n - 1)
  }

  /** Some call is open and unanswered just before position `n`. */
  ghost predicate Unanswered(msgs: seq<Msg>, n: nat)
    requires n <= |msgs|
  {
    var k := Opener(msgs, n);
    k >= 0 && msgs[k].role.ToolCall? && !Answered(msgs, k, n)
  }

  /** The ids of call `k` still unanswered before `n`. */
  ghost function Missing(msgs: seq<Msg>, k: nat, n: nat): set<string>
    requires k < n <= |msgs|
  {
    set id | id in Declared(msgs[k]) && !AnsweredId(msgs, k, n, id)
  }

  /** What the scan's variables mean. */
  ghost predicate Faithful(msgs: seq<Msg>, n: nat, s: Scan)
    requires n <= |msgs| && s.Scan?
  {
    var k := Opener(msgs, n);
    && s.active == Unanswered(msgs, n)
    && (s.pending == if Unanswered(msgs, n) then Missing(msgs, k, n) else {})
  }

  /** Position `n` breaks no rule: a result needs an unanswered call, a closing message none. */
  ghost predicate Allowed(msgs: seq<Msg>, n: nat)
    requires n < |msgs|
  {
    && (msgs[n].role.ToolResult? ==> Unanswered(msgs, n))
    && (Closes(msgs[n]) ==> !Unanswered(msgs, n))
  }

  lemma AnsweredGrows(msgs: seq<Msg>, k: nat, n: nat)
    requires k < n < |msgs|
    ensures forall id :: AnsweredId(msgs, k, n + 1, id)
              <==> (AnsweredId(msgs, k, n, id) || (msgs[n].role.ToolResult? && msgs[n].toolUseId == id))
    ensures Answered(msgs, k, n) ==> Answered(msgs, k, n + 1)
  {
    forall id
      ensures AnsweredId(msgs, k, n + 1, id)
              <==> (AnsweredId(msgs, k, n, id) || (msgs[n].role.ToolResult? && msgs[n].toolUseId == id))
    {
      if AnsweredId(msgs, k, n, id) {
        var r :| k < r < n && msgs[r].role.ToolResult? && msgs[r].toolUseId == id;
        assert AnsweredId(msgs, k, n + 1, id);
      }
    }
  }

  lemma FreshCall(msgs: seq<Msg>, n: nat)
    requires n < |msgs| && msgs[n].role.ToolCall?
    ensures Unanswered(msgs, n + 1) && Missing(msgs, n, n + 1) == Declared(msgs[n])
  {
    assert Opener(msgs, n + 1) == n;
  }

  lemma ResultStep(msgs: seq<Msg>, n: nat)
    requires n < |msgs| && msgs[n].role.ToolResult? && Unanswered(msgs, n)
    ensures var k := Opener(msgs, n);
      && Opener(msgs, n + 1) == k
      && Missing(msgs, k, n + 1) == Missing(msgs, k, n) - {msgs[n].toolUseId}
      && (Unanswered(msgs, n + 1) <==> Missing(msgs, k, n + 1) != {})
  {
    var k := Opener(msgs, n);
    AnsweredGrows(msgs, k, n);
    assert k < n < n + 1 && msgs[n].role.ToolResult?;
    if Missing(msgs, k, n + 1) == {} {
      forall id | id in Declared(msgs[k])
        ensures AnsweredId(msgs, k, n + 1, id)
      {
        assert id !in Missing(msgs, k, n + 1);
      }
    }
  }

  lemma QuietStep(msgs: seq<Msg>, n: nat)
    requires n < |msgs| && !Closes(msgs[n]) && !msgs[n].role.ToolResult?
    ensures Opener(msgs, n + 1) == Opener(msgs, n)
    ensures Unanswered(msgs, n + 1) == Unanswered(msgs, n)
    ensures Unanswered(msgs, n) ==> Missing(msgs, Opener(msgs, n), n + 1) == Missing(msgs, Opener(msgs, n), n)
  {
    var k := Opener(msgs, n);
    if k >= 0 {
      AnsweredGrows(msgs, k, n);
    }
  }

  lemma {:induction false} ScanFaithful(msgs: seq<Msg>, n: nat)
    requires n <= |msgs|
    ensures var s := After(msgs, n);
      if s.Orphan? then exists i :: 0 <= i < n && !Allowed(msgs, i)
      else Faithful(msgs, n, s) && forall i :: 0 <= i < n ==> Allowed(msgs, i)
  {
    if n > 0 {
      ScanFaithful(msgs, n - 1);
      if After(msgs, n - 1).Scan? {
        StepFaithful(msgs, n - 1, After(msgs, n - 1));
      }
    }
  }

  lemma StepFaithful(msgs: seq<Msg>, n: nat, s: Scan)
    requires n < |msgs| && s.Scan? && Faithful(msgs, n, s)
    ensures Next(s, msgs[n]).Orphan? <==> !Allowed(msgs, n)
    ensures Next(s, msgs[n]).Scan? ==> Faithful(msgs, n + 1, Next(s, msgs[n]))
  {
    assert Waiting(s) == Unanswered(msgs, n);
    if msgs[n].role.ToolCall? {
      FreshCall(msgs, n);
    } else if msgs[n].role.ToolResult? {
      if Unanswered(msgs, n) {
        ResultStep(msgs, n);
        assert "" !in Declared(msgs[Opener(msgs, n)]);
      }
    } else if !Closes(msgs[n]) {
      QuietStep(msgs, n);
    } else {
      assert Opener(msgs, n + 1) == n;
    }
  }

  /** Rule by rule and window by window are the same thing. */
  lemma RulesAreMeaning(msgs: seq<Msg>)
    ensures WellPaired(msgs)
      <==> (!Unanswered(msgs, |msgs|) && forall i :: 0 <= i < |msgs| ==> Allowed(msgs, i))
  {
    if WellPaired(msgs) {
      forall i | 0 <= i <= |msgs| && (i < |msgs| ==> Closes(msgs[i]))
        ensures !Unanswered(msgs, i)
      {
        var k := Opener(msgs, i);
        if k >= 0 && msgs[k].role.ToolCall? {
          assert WindowEnds(msgs, k, i);
        }
      }
      forall i | 0 <= i < |msgs| && msgs[i].role.ToolResult?
        ensures Unanswered(msgs, i)
      {
        assert InOpenWindow(msgs, i);
        var k :| 0 <= k < i && msgs[k].role.ToolCall? && SameWindow(msgs, k, i) && !Answered(msgs, k, i);
        assert Opener(msgs, i) == k;
      }
    }
    if !Unanswered(msgs, |msgs|) && forall i :: 0 <= i < |msgs| ==> Allowed(msgs, i) {
      forall k, j | 0 <= k < j <= |msgs| && msgs[k].role.ToolCall? && WindowEnds(msgs, k, j)
        ensures Answered(msgs, k, j)
      {
        assert Opener(msgs, j) == k;
        assert j < |msgs| ==> Allowed(msgs, j);
      }
      forall r | 0 <= r < |msgs| && msgs[r].role.ToolResult?
        ensures InOpenWindow(msgs, r)
      {
        assert Allowed(msgs, r);
        var k := Opener(msgs, r);
        assert SameWindow(msgs, k, r);
      }
    }
  }

  /** The one-pass detector is exact. */
  lemma ScanExact(msgs: seq<Msg>)
    ensures Orphaned(msgs) <==> !WellPaired(msgs)
  {
    ScanFaithful(msgs, |msgs|);
    RulesAreMeaning(msgs);
  }

  // ----- cache and developer messages are invisible -----

  predicate Invisible(m: Msg) {
    m.role.Cache? || m.role.Developer?
  }

  function Visible(msgs: seq<Msg>, n: nat): seq<Msg>
    requires n <= |msgs|
  {
    if n == 0 then []
    else Visible(msgs, n - 1) + if Invisible(msgs[n - 1]) then [] else [msgs[n - 1]]
  }

  lemma {:induction false} AfterPrefix(a: seq<Msg>, b: seq<Msg>, n: nat)
    requires n <= |a|
    ensures After(a + b, n) == After(a, n)
  {
    if n > 0 {
      AfterPrefix(a, b, n - 1);
    }
  }

  lemma {:induction false} ScanSeesVisible(msgs: seq<Msg>, n: nat)
    requires n <= |msgs|
    ensures var v := Visible(msgs, n); After(v, |v|) == After(msgs, n)
  {
    if n > 0 {
      ScanSeesVisible(msgs, n - 1);
      var v, m := Visible(msgs, n - 1), msgs[n - 1];
      if Invisible(m) {
        assert Visible(msgs, n) == v;
      } else {
        AfterPrefix(v, [m], |v|);
        assert Visible(msgs, n) == v + [m] && (v + [m])[|v|] == m;
      }
    }
  }

  /** Lists that differ only in where cache and developer messages sit get the same verdict. */
  lemma {:induction false} InvisibleDoNotMatter(a: seq<Msg>, b: seq<Msg>)
    requires Visible(a, |a|) == Visible(b, |b|)
    ensures Orphaned(a) == Orphaned(b) && WellPaired(a) == WellPaired(b)
  {
    ScanSeesVisible(a, |a|);
    ScanSeesVisible(b, |b|);
    ScanExact(a);
    ScanExact(b);
  }

  lemma {:induction false} VisibleConcat(a: seq<Msg>, b: seq<Msg>, n: nat)
    requires n <= |b|
    ensures Visible(a + b, |a| + n) == Visible(a, |a|) + Visible(b, n)
  {
    if n > 0 {
      VisibleConcat(a, b, n - 1);
      assert (a + b)[|a| + n - 1] == b[n - 1];
    } else {
      VisiblePrefix(a, b, |a|);
    }
  }

  lemma {:induction false} VisiblePrefix(a: seq<Msg>, b: seq<Msg>, n: nat)
    requires n <= |a|
    ensures Visible(a + b, n) == Visible(a, n)
  {
    if n > 0 {
      VisiblePrefix(a, b, n - 1);
    }
  }

  /** A call that the next turn follows at once is orphaned, whatever comes before and after. */
  lemma TurnClosesCall(before: seq<Msg>, call: Msg, turn: Msg, after: seq<Msg>)
    requires call.role == ToolCall && turn.role in {User, Assistant, System, ToolCall}
    ensures !WellPaired(before + [call, turn] + after)
  {
    var msgs, k := before + [call, turn] + after, |before|;
    assert msgs[k] == call && msgs[k + 1] == turn;
    assert WindowEnds(msgs, k, k + 1);
    assert !Answered(msgs, k, k + 1);
  }
}
