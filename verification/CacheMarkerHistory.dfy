/** What the markers leave alone: the history with markers erased, the previous tip's byte
    position, and the anchor of a user turn. */
module CacheMarkerHistory {
  import opened Results
  import opened Messages
  import opened CacheMarkers
  import opened CacheMarkerRuns

  function Erase(msgs: seq<Msg>): seq<Msg> {
    if msgs == [] then [] else (if msgs[0].role.Cache? then [] else [msgs[0]]) + Erase(msgs[1..])
  }

  lemma {:induction false} EraseConcat(a: seq<Msg>, b: seq<Msg>)
    ensures Erase(a + b) == Erase(a) + Erase(b)
  {
    if a == [] {
      assert a + b == b;
    } else {
      assert (a + b)[1..] == a[1..] + b;
      EraseConcat(a[1..], b);
    }
  }

  lemma {:induction false} EraseUnmarked(msgs: seq<Msg>)
    requires Unmarked(msgs)
    ensures Erase(msgs) == msgs
  {
    if msgs != [] {
      EraseUnmarked(msgs[1..]);
    }
  }

  lemma EraseSnoc(front: seq<Msg>, last: Msg)
    ensures Erase(front + [last]) == if last.role.Cache? then Erase(front) else Erase(front) + [last]
  {
    EraseConcat(front, [last]);
    assert [last][1..] == [];
    assert Erase(front) + [] == Erase(front);
  }

  lemma EraseAround(a: seq<Msg>, b: seq<Msg>)
    ensures Erase(a + [MARKER] + b) == Erase(a + b)
  {
    EraseSnoc(a, MARKER);
    EraseConcat(a + [MARKER], b);
    EraseConcat(a, b);
  }

  lemma {:induction false} EraseInsert(msgs: seq<Msg>, at: nat)
    requires at <= |msgs|
    ensures Erase(Insert(msgs, at, MARKER)) == Erase(msgs)
  {
    var a, b := msgs[..at], msgs[at..];
    assert msgs == a + b;
    assert Insert(msgs, at, MARKER) == a + [MARKER] + b;
    EraseAround(a, b);
  }

  lemma ErasePlaced(msgs: seq<Msg>, disabled: bool)
    ensures Erase(WithMarker(msgs, disabled)) == Erase(msgs)
  {
    if PlaceIndex(msgs, disabled).Some? {
      EraseInsert(msgs, MarkerIndex(msgs));
    }
  }

  lemma {:induction false} EraseRetained(msgs: seq<Msg>, b: nat, keep: set<int>)
    requires b <= |msgs|
    ensures Erase(RetainFrom(msgs, b, keep)) == Erase(msgs[b..])
    decreases |msgs| - b
  {
    if b < |msgs| {
      EraseRetained(msgs, b + 1, keep);
      EraseConcat(if Dropped(msgs, b, keep) then [] else [msgs[b]], RetainFrom(msgs, b + 1, keep));
      assert Erase([msgs[b]]) == if msgs[b].role.Cache? then [] else [msgs[b]];
      assert msgs[b..][1..] == msgs[b + 1..];
    }
  }

  /** Refreshing the markers of a frame never touches its history. */
  lemma EraseRefreshed(msgs: seq<Msg>, f: int, disabled: bool)
    ensures Erase(Refreshed(msgs, f, disabled)) == Erase(msgs)
  {
    var keep := if disabled then {f} else {f, LastRolling(msgs, |msgs|, f)};
    EraseRetained(msgs, 0, keep);
    assert msgs[0..] == msgs;
    ErasePlaced(RetainFrom(msgs, 0, keep), false);
  }

  lemma {:induction false} EraseReplaced(msgs: seq<Msg>, content: string)
    ensures Erase(ReplaceLastDeveloper(msgs, content)) == ReplaceLastDeveloper(Erase(msgs), content)
  {
    if msgs != [] {
      var front, last := msgs[..|msgs| - 1], msgs[|msgs| - 1];
      assert msgs == front + [last];
      EraseSnoc(front, last);
      EraseSnoc(front, Text(Developer, content));
      EraseReplaced(front, content);
      EraseSnoc(ReplaceLastDeveloper(front, content), last);
      if !last.role.Cache? {
        assert Erase(msgs)[..|Erase(msgs)| - 1] == Erase(front);
      }
    }
  }

  lemma EraseDropTail(msgs: seq<Msg>)
    requires EndsUnmarked(msgs)
    ensures Erase(DropTail(msgs)) == DropTail(Erase(msgs))
  {
    if msgs != [] {
      var front, last := msgs[..|msgs| - 1], msgs[|msgs| - 1];
      assert msgs == front + [last];
      EraseSnoc(front, last);
      assert Erase(msgs)[..|Erase(msgs)| - 1] == Erase(front);
    }
  }

  // ----- the loop without markers -----

  /** The same loop, with no caching at all: frame and remembered messages. */
  datatype Plain = Plain(frame: seq<Msg>, cached: Option<seq<Msg>>)

  function PlainStep(p: Plain, e: Event): Plain {
    match e
    case Cold(assembled, _) => Plain(assembled, Some(assembled))
    case Warm(delta, tail, _) =>
      var kept := if p.cached.Some? then DropTail(p.cached.value) else [];
      var frame := kept + delta + [Text(Developer, tail)];
      Plain(frame, Some(frame))
    case ToolRound(call, results) => p.(frame := p.frame + Round(call, results))
    case RefreshTail(content) => p.(frame := ReplaceLastDeveloper(p.frame, content))
    case RefreshMarkers(_) => p
    case ForgetTurn => p.(cached := None)
  }

  function Forget(loop: Loop): Plain {
    Plain(Erase(loop.frame), if loop.cached.Some? then Some(Erase(loop.cached.value.messages)) else None)
  }

  lemma EraseWarm(turn: Turn, delta: seq<Msg>, tail: string, disabled: bool)
    requires EndsUnmarked(turn.messages) && Unmarked(delta)
    ensures Erase(WarmFrame(turn, delta, tail, disabled)) == DropTail(Erase(turn.messages)) + delta + [Text(Developer, tail)]
  {
    var kept := RetainFrom(turn.messages, 0, {turn.fixedIdx});
    EraseRetained(turn.messages, 0, {turn.fixedIdx});
    RetainKeepsEnd(turn.messages, 0, {turn.fixedIdx});
    assert turn.messages[0..] == turn.messages;
    EraseDropTail(kept);
    EraseConcat(DropTail(kept), delta);
    EraseUnmarked(delta);
    ErasePlaced(DropTail(kept) + delta, disabled);
    EraseSnoc(WithMarker(DropTail(kept) + delta, disabled), Text(Developer, tail));
  }

  lemma StepForgets(loop: Loop, e: Event, estimate: Msg -> nat)
    requires Inv(loop) && Enabled(loop, e)
    ensures Forget(Step(loop, e, estimate)) == PlainStep(Forget(loop), e)
  {
    match e {
      case Cold(assembled, disabled) =>
        StableInRange(assembled, estimate, disabled);
        EraseUnmarked(assembled);
        var p := StableIndex(assembled, estimate, disabled);
        if p.At? {
          EraseInsert(assembled, p.index);
        }
      case Warm(delta, tail, disabled) =>
        EraseWarm(loop.cached.value, delta, tail, disabled);
      case ToolRound(call, results) =>
        EraseConcat(loop.frame, Round(call, results));
        EraseUnmarked(Round(call, results));
      case RefreshTail(content) =>
        EraseReplaced(loop.frame, content);
      case RefreshMarkers(disabled) =>
        EraseRefreshed(loop.frame, loop.FixedIdx(), disabled);
      case ForgetTurn =>
    }
  }

  function PlainAfter(events: seq<Event>): Plain {
    if events == [] then Plain([], None)
    else PlainStep(PlainAfter(events[..|events| - 1]), events[|events| - 1])
  }

  /** Over any run, erasing the markers gives exactly the run of the loop without caching:
      markers never add, lose, reorder or alter a message. */
  lemma {:induction false} RunForgets(events: seq<Event>, estimate: Msg -> nat)
    requires IsRun(events, estimate)
    ensures Forget(After(events, estimate)) == PlainAfter(events)
  {
    if events != [] {
      RunForgets(events[..|events| - 1], estimate);
      RunKeepsInv(events[..|events| - 1], estimate);
      StepForgets(After(events[..|events| - 1], estimate), events[|events| - 1], estimate);
    }
  }

  // ----- breakpoints in history coordinates -----

  /** How many history messages precede position `k`. */
  function Coordinate(msgs: seq<Msg>, k: nat): nat
    requires k <= |msgs|
  {
    |Erase(msgs[..k])|
  }

  /** Some marker sits right before history message `c`. */
  ghost predicate Breakpoint(msgs: seq<Msg>, c: nat) {
    exists k :: 0 <= k < |msgs| && msgs[k].role.Cache? && Coordinate(msgs, k) == c
  }

  lemma BreakpointAt(msgs: seq<Msg>, a: seq<Msg>, m: Msg, b: seq<Msg>)
    requires msgs == a + [m] + b && m.role.Cache?
    ensures Breakpoint(msgs, |Erase(a)|)
  {
    assert msgs[..|a|] == a && msgs[|a|] == m;
    assert Coordinate(msgs, |a|) == |Erase(a)|;
  }

  lemma {:induction false} RetainSplit(msgs: seq<Msg>, k: nat, keep: set<int>, b: nat)
    requires b <= k <= |msgs|
    ensures RetainFrom(msgs, b, keep) == RetainFrom(msgs[..k], b, keep) + RetainFrom(msgs, k, keep)
    decreases k - b
  {
    if b < k {
      RetainSplit(msgs, k, keep, b + 1);
    }
  }

  /** A kept marker stays a breakpoint. */
  lemma {:induction false} RetainKeepsBreakpoint(msgs: seq<Msg>, k: nat, keep: set<int>)
    requires k < |msgs| && msgs[k].role.Cache? && k in keep
    ensures Breakpoint(RetainFrom(msgs, 0, keep), Coordinate(msgs, k))
  {
    var a := RetainFrom(msgs[..k], 0, keep);
    RetainSplit(msgs, k, keep, 0);
    EraseRetained(msgs[..k], 0, keep);
    assert msgs[..k][0..] == msgs[..k];
    var rest := RetainFrom(msgs, k + 1, keep);
    assert RetainFrom(msgs, 0, keep) == a + [msgs[k]] + rest;
    BreakpointAt(RetainFrom(msgs, 0, keep), a, msgs[k], rest);
  }

  lemma InsertShifts(msgs: seq<Msg>, at: nat, k: nat)
    requires at <= k < |msgs|
    ensures var r := Insert(msgs, at, MARKER);
      k + 1 < |r| && r[k + 1] == msgs[k] && Coordinate(r, k + 1) == Coordinate(msgs, k)
  {
    var r := Insert(msgs, at, MARKER);
    assert r[..k + 1] == Insert(msgs[..k], at, MARKER);
    EraseInsert(msgs[..k], at);
  }

  /** Splicing a marker in keeps every breakpoint and adds its own. */
  lemma InsertKeepsBreakpoint(msgs: seq<Msg>, at: nat, c: nat)
    requires at <= |msgs|
    ensures Breakpoint(msgs, c) ==> Breakpoint(Insert(msgs, at, MARKER), c)
    ensures Breakpoint(Insert(msgs, at, MARKER), Coordinate(msgs, at))
  {
    var r := Insert(msgs, at, MARKER);
    BreakpointAt(r, msgs[..at], MARKER, msgs[at..]);
    if Breakpoint(msgs, c) {
      var k :| 0 <= k < |msgs| && msgs[k].role.Cache? && Coordinate(msgs, k) == c;
      if k < at {
        assert r[..k] == msgs[..k] && r[k] == msgs[k];
        assert Coordinate(r, k) == c;
      } else {
        InsertShifts(msgs, at, k);
      }
    }
  }

  lemma {:induction false} LastRollingFinds(msgs: seq<Msg>, n: nat, f: int)
    requires n <= |msgs|
    ensures var p := LastRolling(msgs, n, f); p >= 0 ==> msgs[p].role.Cache? && p != f
  {
    if n > 0 {
      LastRollingFinds(msgs, n - 1, f);
    }
  }

  /** The previous tip keeps its byte position as a breakpoint, and a list ending in a
      message that is neither a marker nor developer text gets its new tip before that one. */
  lemma RefreshMovesTip(msgs: seq<Msg>, f: int, p: nat)
    requires EndsUnmarked(msgs) && |Erase(msgs)| >= 2 && !msgs[|msgs| - 1].role.Developer?
    requires p < |msgs| && p == LastRolling(msgs, |msgs|, f)
    ensures Breakpoint(Refreshed(msgs, f, false), Coordinate(msgs, p))
    ensures Breakpoint(Refreshed(msgs, f, false), |Erase(msgs)| - 1)
  {
    var front := EvictionKeepsTip(msgs, f, p);
    TipBeforeLast(front, msgs[|msgs| - 1], Coordinate(msgs, p));
  }

  lemma EvictionKeepsTip(msgs: seq<Msg>, f: int, p: nat) returns (front: seq<Msg>)
    requires EndsUnmarked(msgs) && p < |msgs| && p == LastRolling(msgs, |msgs|, f)
    ensures var kept := RetainFrom(msgs, 0, {f, p});
      kept == front + [msgs[|msgs| - 1]] && Breakpoint(kept, Coordinate(msgs, p)) && Erase(kept) == Erase(msgs)
  {
    var keep := {f, p};
    var kept := RetainFrom(msgs, 0, keep);
    assert Erase(kept) == Erase(msgs) by {
      EraseRetained(msgs, 0, keep);
      assert msgs[0..] == msgs;
    }
    assert Breakpoint(kept, Coordinate(msgs, p)) by {
      LastRollingFinds(msgs, |msgs|, f);
      RetainKeepsBreakpoint(msgs, p, keep);
    }
    assert kept != [] && kept[|kept| - 1] == msgs[|msgs| - 1] by {
      RetainKeepsEnd(msgs, 0, keep);
    }
    front := kept[..|kept| - 1];
  }

  lemma {:induction false} TipBeforeLast(front: seq<Msg>, last: Msg, c: nat)
    requires !last.role.Cache? && !last.role.Developer? && |Erase(front + [last])| >= 2
    requires Breakpoint(front + [last], c)
    ensures Breakpoint(WithMarker(front + [last], false), c)
    ensures Breakpoint(WithMarker(front + [last], false), |Erase(front + [last])| - 1)
  {
    var msgs := front + [last];
    EraseSnoc(front, last);
    assert msgs[..|front|] == front;
    InsertKeepsBreakpoint(msgs, |front|, c);
    assert front != [];
    assert WithMarker(msgs, false) == Insert(msgs, |front|, MARKER);
  }

  lemma {:induction false} EraseRoles(a: seq<Msg>, b: seq<Msg>)
    requires |a| == |b| && forall k :: 0 <= k < |a| ==> a[k].role == b[k].role
    ensures |Erase(a)| == |Erase(b)|
  {
    if a != [] {
      EraseRoles(a[1..], b[1..]);
    }
  }

  lemma {:induction false} LastRollingRoles(a: seq<Msg>, b: seq<Msg>, n: nat, f: int)
    requires n <= |a| && n <= |b| && forall k :: 0 <= k < n ==> a[k].role == b[k].role
    ensures LastRolling(a, n, f) == LastRolling(b, n, f)
  {
    if n > 0 {
      LastRollingRoles(a, b, n - 1, f);
    }
  }

  lemma {:induction false} LastRollingSkips(msgs: seq<Msg>, n: nat, f: int)
    requires n <= |msgs| && forall k :: n <= k < |msgs| ==> !msgs[k].role.Cache?
    ensures LastRolling(msgs, |msgs|, f) == LastRolling(msgs, n, f)
    decreases |msgs|
  {
    if n < |msgs| {
      var front := msgs[..|msgs| - 1];
      LastRollingSkips(front, n, f);
      LastRollingRoles(front, msgs, |front|, f);
      LastRollingRoles(front, msgs, n, f);
    }
  }

  /** One inner turn: a tool round is appended, the developer tail refreshed in place, the
      markers refreshed. The previous tip stays a breakpoint at its old byte position, and
      the new tip lies strictly after it. */
  lemma {:induction false} InnerTurnAdvancesTip(frame: seq<Msg>, f: int, p: nat, call: Msg, results: seq<Msg>, content: string)
    requires EndsUnmarked(frame) && IsToolRound(call, results)
    requires p < |frame| && p == LastRolling(frame, |frame|, f)
    ensures var grown := ReplaceLastDeveloper(frame + Round(call, results), content);
            var tip := |Erase(frame)| + |results|;
      && Breakpoint(Refreshed(grown, f, false), Coordinate(frame, p))
      && Breakpoint(Refreshed(grown, f, false), tip)
      && Coordinate(frame, p) < tip
  {
    var round := Round(call, results);
    var longer := frame + round;
    var grown := ReplaceLastDeveloper(longer, content);
    ReplaceKeepsRoles(longer, content);
    assert longer[|longer| - 1] == round[|round| - 1] == results[|results| - 1];
    GrownHistory(frame, round, grown);
    TipStays(frame, round, grown, f);
    RefreshMovesTip(grown, f, p);
    EraseRoles(grown[..p], frame[..p]);
    CoordinateInside(frame, p);
  }

  lemma GrownHistory(frame: seq<Msg>, round: seq<Msg>, grown: seq<Msg>)
    requires Unmarked(round) && |grown| == |frame + round|
    requires forall k :: 0 <= k < |grown| ==> grown[k].role == (frame + round)[k].role
    ensures |Erase(grown)| == |Erase(frame)| + |round|
  {
    EraseRoles(frame + round, grown);
    EraseConcat(frame, round);
    EraseUnmarked(round);
  }

  lemma TipStays(frame: seq<Msg>, round: seq<Msg>, grown: seq<Msg>, f: int)
    requires Unmarked(round) && |grown| == |frame + round|
    requires forall k :: 0 <= k < |grown| ==> grown[k].role == (frame + round)[k].role
    ensures LastRolling(grown, |grown|, f) == LastRolling(frame, |frame|, f)
  {
    LastRollingRoles(frame + round, grown, |grown|, f);
    LastRollingSkips(frame + round, |frame|, f);
    LastRollingRoles(frame, frame + round, |frame|, f);
  }

  lemma CoordinateInside(msgs: seq<Msg>, k: nat)
    requires k <= |msgs|
    ensures Coordinate(msgs, k) <= |Erase(msgs)|
  {
    EraseConcat(msgs[..k], msgs[k..]);
    assert msgs == msgs[..k] + msgs[k..];
  }

  // ----- the tip over runs -----

  /** How far into the history the newest rolling marker reaches; -1 without one. */
  function TipOf(msgs: seq<Msg>, f: int): int {
    var p := LastRolling(msgs, |msgs|, f);
    if p < 0 then -1 else Coordinate(msgs, p)
  }

  lemma NewTip(front: seq<Msg>, last: Msg, f: int)
    requires !last.role.Cache? && !last.role.Developer? && front != [] && f < |front|
    ensures TipOf(WithMarker(front + [last], false), f) == |Erase(front)|
  {
    var r := WithMarker(front + [last], false);
    assert r == front + [MARKER, last];
    assert LastRolling(r, |r| - 1, f) == |front|;
    assert r[..|front|] == front;
  }

  lemma SameRolesSameFixed(a: seq<Msg>, b: seq<Msg>, f: int)
    requires |a| <= |b| && FixedFirst(a, f) && forall k :: 0 <= k < |a| ==> a[k].role == b[k].role
    ensures FixedFirst(b, f)
  {
  }

  /** One inner turn on a frame with or without a rolling marker: the refreshed frame's tip
      lies before the last result, strictly after the old one, which stays a breakpoint. */
  lemma {:induction false} InnerTurnTip(frame: seq<Msg>, f: int, call: Msg, results: seq<Msg>, content: string)
    requires EndsUnmarked(frame) && FixedFirst(frame, f) && IsToolRound(call, results)
    ensures var after := Refreshed(ReplaceLastDeveloper(frame + Round(call, results), content), f, false);
      && TipOf(frame, f) < TipOf(after, f) == |Erase(frame)| + |results|
      && (TipOf(frame, f) >= 0 ==> Breakpoint(after, TipOf(frame, f)))
  {
    var longer := frame + Round(call, results);
    var grown := ReplaceLastDeveloper(longer, content);
    var p := LastRolling(frame, |frame|, f);
    ReplaceKeepsRoles(longer, content);
    GrownHistory(frame, Round(call, results), grown);
    SameRolesSameFixed(frame, grown, f);
    assert longer[|longer| - 1] == results[|results| - 1];
    RefreshedTip(grown, f);
    if p >= 0 {
      InnerTurnAdvancesTip(frame, f, p, call, results, content);
      CoordinateInside(frame, p);
    }
  }

  lemma TipOfKept(kept: seq<Msg>, f: int)
    requires FixedFirst(kept, f) && |Erase(kept)| >= 2
    requires !kept[|kept| - 1].role.Cache? && !kept[|kept| - 1].role.Developer?
    ensures TipOf(WithMarker(kept, false), f) == |Erase(kept)| - 1
  {
    var front, last := kept[..|kept| - 1], kept[|kept| - 1];
    assert kept == front + [last];
    EraseSnoc(front, last);
    NewTip(front, last, f);
  }

  lemma RefreshedTip(msgs: seq<Msg>, f: int)
    requires FixedFirst(msgs, f) && |Erase(msgs)| >= 2
    requires !msgs[|msgs| - 1].role.Cache? && !msgs[|msgs| - 1].role.Developer?
    ensures TipOf(Refreshed(msgs, f, false), f) == |Erase(msgs)| - 1
  {
    var keep := {f, LastRolling(msgs, |msgs|, f)};
    var kept := RetainFrom(msgs, 0, keep);
    assert Erase(kept) == Erase(msgs) by {
      EraseRetained(msgs, 0, keep);
      assert msgs[0..] == msgs;
    }
    assert kept != [] && kept[|kept| - 1] == msgs[|msgs| - 1] by { RetainKeepsEnd(msgs, 0, keep); }
    assert FixedFirst(kept, f) by { RetainKeepsFixed(msgs, f, keep); }
    TipOfKept(kept, f);
  }

  datatype Inner = Inner(call: Msg, results: seq<Msg>, content: string)

  /** What the loop does between two model calls of one turn. */
  function Steps(t: Inner): seq<Event> {
    [ToolRound(t.call, t.results), RefreshTail(t.content), RefreshMarkers(false)]
  }

  ghost function Turned(loop: Loop, t: Inner, estimate: Msg -> nat): Loop
    requires IsToolRound(t.call, t.results)
  {
    Step(Step(Step(loop, ToolRound(t.call, t.results), estimate), RefreshTail(t.content), estimate),
         RefreshMarkers(false), estimate)
  }

  ghost predicate AreRounds(ts: seq<Inner>) {
    forall k :: 0 <= k < |ts| ==> IsToolRound(ts[k].call, ts[k].results)
  }

  ghost function TurnedAll(loop: Loop, ts: seq<Inner>, estimate: Msg -> nat): Loop
    requires AreRounds(ts)
  {
    if ts == [] then loop else Turned(TurnedAll(loop, ts[..|ts| - 1], estimate), ts[|ts| - 1], estimate)
  }

  /** One more inner turn moves the tip forward and keeps the old one as a breakpoint: also the
      first one after a cold frame, which has no tip yet. */
  lemma {:induction false} TurnAdvances(loop: Loop, t: Inner, estimate: Msg -> nat)
    requires Inv(loop) && IsToolRound(t.call, t.results)
    ensures var after := Turned(loop, t, estimate); var f := loop.FixedIdx();
      && Inv(after) && after.FixedIdx() == f
      && TipOf(loop.frame, f) < TipOf(after.frame, f) == |Erase(loop.frame)| + |t.results|
      && (TipOf(loop.frame, f) >= 0 ==> Breakpoint(after.frame, TipOf(loop.frame, f)))
  {
    var e1, e2, e3 := ToolRound(t.call, t.results), RefreshTail(t.content), RefreshMarkers(false);
    var s1 := Step(loop, e1, estimate);
    var s2 := Step(s1, e2, estimate);
    StepKeepsInv(loop, e1, estimate);
    StepKeepsInv(s1, e2, estimate);
    StepKeepsInv(s2, e3, estimate);
    InnerTurnTip(loop.frame, loop.FixedIdx(), t.call, t.results, t.content);
  }

  lemma {:induction false} TurnsKeepInv(loop: Loop, ts: seq<Inner>, estimate: Msg -> nat)
    requires Inv(loop) && AreRounds(ts)
    ensures Inv(TurnedAll(loop, ts, estimate)) && TurnedAll(loop, ts, estimate).FixedIdx() == loop.FixedIdx()
  {
    if ts != [] {
      TurnsKeepInv(loop, ts[..|ts| - 1], estimate);
      TurnAdvances(TurnedAll(loop, ts[..|ts| - 1], estimate), ts[|ts| - 1], estimate);
    }
  }

  lemma {:induction false} TurnsAdvance(loop: Loop, ts: seq<Inner>, i: nat, estimate: Msg -> nat)
    requires Inv(loop) && AreRounds(ts) && i < |ts|
    ensures TipOf(TurnedAll(loop, ts[..i], estimate).frame, loop.FixedIdx())
          < TipOf(TurnedAll(loop, ts, estimate).frame, loop.FixedIdx())
    decreases |ts|
  {
    var front := ts[..|ts| - 1];
    TurnsKeepInv(loop, front, estimate);
    TurnAdvances(TurnedAll(loop, front, estimate), ts[|ts| - 1], estimate);
    if i < |front| {
      TurnsAdvance(loop, front, i, estimate);
      assert front[..i] == ts[..i];
    }
  }

  function AllSteps(ts: seq<Inner>): seq<Event> {
    if ts == [] then [] else AllSteps(ts[..|ts| - 1]) + Steps(ts[|ts| - 1])
  }

  lemma AfterOneMore(events: seq<Event>, e: Event, estimate: Msg -> nat)
    requires IsRun(events, estimate) && Enabled(After(events, estimate), e)
    ensures IsRun(events + [e], estimate) && After(events + [e], estimate) == Step(After(events, estimate), e, estimate)
  {
    assert (events + [e])[..|events|] == events;
  }

  lemma {:induction false} AfterTurn(events: seq<Event>, t: Inner, estimate: Msg -> nat)
    requires IsRun(events, estimate) && IsToolRound(t.call, t.results)
    ensures IsRun(events + Steps(t), estimate)
    ensures After(events + Steps(t), estimate) == Turned(After(events, estimate), t, estimate)
  {
    var e1, e2, e3 := ToolRound(t.call, t.results), RefreshTail(t.content), RefreshMarkers(false);
    AfterOneMore(events, e1, estimate);
    AfterOneMore(events + [e1], e2, estimate);
    AfterOneMore(events + [e1] + [e2], e3, estimate);
    assert events + [e1] + [e2] + [e3] == events + Steps(t);
  }

  lemma Regroup(a: seq<Event>, b: seq<Event>, c: seq<Event>)
    ensures a + (b + c) == (a + b) + c
  {
  }

  lemma {:induction false} AfterTurns(events: seq<Event>, ts: seq<Inner>, estimate: Msg -> nat)
    requires IsRun(events, estimate) && AreRounds(ts)
    ensures IsRun(events + AllSteps(ts), estimate)
    ensures After(events + AllSteps(ts), estimate) == TurnedAll(After(events, estimate), ts, estimate)
  {
    if ts == [] {
      assert events + AllSteps(ts) == events;
    } else {
      var front, last := ts[..|ts| - 1], ts[|ts| - 1];
      AfterTurns(events, front, estimate);
      AfterTurn(events + AllSteps(front), last, estimate);
      Regroup(events, AllSteps(front), Steps(last));
    }
  }

  /** Over any run and any inner turns that follow it, the tip only moves forward. */
  lemma {:induction false} TipsAdvance(events: seq<Event>, ts: seq<Inner>, i: nat, estimate: Msg -> nat)
    requires IsRun(events, estimate) && AreRounds(ts) && i < |ts|
    ensures IsRun(events + AllSteps(ts[..i]), estimate) && IsRun(events + AllSteps(ts), estimate)
    ensures var early, late := After(events + AllSteps(ts[..i]), estimate), After(events + AllSteps(ts), estimate);
            var f := After(events, estimate).FixedIdx();
      early.FixedIdx() == late.FixedIdx() == f && TipOf(early.frame, f) < TipOf(late.frame, f)
  {
    var loop := After(events, estimate);
    RunKeepsInv(events, estimate);
    AfterTurns(events, ts[..i], estimate);
    AfterTurns(events, ts, estimate);
    TurnsKeepInv(loop, ts[..i], estimate);
    TurnsKeepInv(loop, ts, estimate);
    TurnsAdvance(loop, ts, i, estimate);
  }

  // ----- the anchor of a user turn -----

  ghost predicate NoUser(msgs: seq<Msg>) {
    forall m :: m in msgs ==> !m.role.User?
  }

  lemma {:induction false} LatestUserStays(msgs: seq<Msg>, more: seq<Msg>, n: nat)
    requires n <= |msgs| + |more| && NoUser(more)
    ensures LatestUser(msgs + more, n) == LatestUser(msgs, if n < |msgs| then n else |msgs|)
  {
    if n > 0 {
      LatestUserStays(msgs, more, n - 1);
      if n > |msgs| {
        assert (msgs + more)[n - 1] == more[n - 1 - |msgs|];
      }
    }
  }

  lemma {:induction false} CountsStay(msgs: seq<Msg>, more: seq<Msg>, end: nat, estimate: Msg -> nat)
    requires end <= |msgs|
    ensures CountedBefore(msgs + more, end) == CountedBefore(msgs, end)
    ensures TokensBefore(msgs + more, end, estimate) == TokensBefore(msgs, end, estimate)
  {
    if end > 0 {
      CountsStay(msgs, more, end - 1, estimate);
    }
  }

  lemma {:induction false} LatestUserIsUser(msgs: seq<Msg>, n: nat)
    requires n <= |msgs|
    ensures LatestUser(msgs, n) >= 0 ==> msgs[LatestUser(msgs, n)].role.User?
  {
    if n > 0 {
      LatestUserIsUser(msgs, n - 1);
    }
  }

  /** The turn's anchor is settled: what follows the latest user message cannot move it. */
  predicate Settled(msgs: seq<Msg>) {
    var user := LatestUser(msgs, |msgs|);
    user > 0 && (user < |msgs| - 1 || CountedBefore(msgs, user) > 0)
  }

  /** When a list gets a stable marker at all. Before a user message that is not first: when
      something that reaches the wire precedes it, or anything follows it. With the only user
      message first: when anything but developer text follows it. Without a user message: when
      something that reaches the wire comes before the end. */
  predicate Anchorable(msgs: seq<Msg>) {
    var user := LatestUser(msgs, |msgs|);
    if user > 0 then user < |msgs| - 1 || exists k :: 0 <= k < user && Counts(msgs[k])
    else if user == 0 then exists k :: 1 <= k < |msgs| && !msgs[k].role.Developer?
    else exists k :: 0 <= k < |msgs| - 1 && Counts(msgs[k])
  }

  lemma {:induction false} CountedIff(msgs: seq<Msg>, end: nat)
    requires end <= |msgs|
    ensures CountedBefore(msgs, end) > 0 <==> exists k :: 0 <= k < end && Counts(msgs[k])
  {
    if end > 0 {
      CountedIff(msgs, end - 1);
    }
  }

  lemma {:induction false} LastNonDeveloperIs(msgs: seq<Msg>, n: nat)
    requires n <= |msgs|
    ensures var i := LastNonDeveloper(msgs, n);
      && (i >= 0 ==> !msgs[i].role.Developer?)
      && forall k :: i < k < n ==> msgs[k].role.Developer?
  {
    if n > 0 {
      LastNonDeveloperIs(msgs, n - 1);
    }
  }

  lemma {:induction false} LatestUserIsLast(msgs: seq<Msg>, n: nat)
    requires n <= |msgs|
    ensures forall k :: LatestUser(msgs, n) < k < n ==> !msgs[k].role.User?
  {
    if n > 0 {
      LatestUserIsLast(msgs, n - 1);
    }
  }

  /** The index of a marker that trails the list: before the last message, or right after the
      last one that is not developer text. */
  function Trailing(msgs: seq<Msg>): nat
    requires msgs != []
  {
    var i := LastNonDeveloper(msgs, |msgs|);
    if i == |msgs| - 1 then i else i + 1
  }

  /** Where the stable marker of a list that can be anchored goes: before the latest user
      message when something that reaches the wire precedes it, right after it when nothing
      does, and without a user message behind the first to the end of the list. */
  ghost function AnchorIndex(msgs: seq<Msg>): nat
    requires msgs != []
  {
    var user := LatestUser(msgs, |msgs|);
    if user <= 0 then Trailing(msgs)
    else if exists k :: 0 <= k < user && Counts(msgs[k]) then user
    else user + 1
  }

  /** A marker is placed exactly on the lists that can be anchored, and at that index. */
  lemma PlacedIff(msgs: seq<Msg>, estimate: Msg -> nat)
    ensures Anchorable(msgs) ==> 0 < AnchorIndex(msgs) < |msgs|
    ensures StableIndex(msgs, estimate, false)
         == if Anchorable(msgs) then At(AnchorIndex(msgs), TokensBefore(msgs, AnchorIndex(msgs), estimate)) else NoAnchor
  {
    var user := LatestUser(msgs, |msgs|);
    if user > 0 {
      PlacedAtUser(msgs, estimate);
    } else if user == 0 {
      PlacedAtStart(msgs, estimate);
    } else if |msgs| >= 2 {
      PlacedWithoutUser(msgs, estimate);
    }
    StableInRange(msgs, estimate, false);
  }

  lemma PlacedAtUser(msgs: seq<Msg>, estimate: Msg -> nat)
    requires LatestUser(msgs, |msgs|) > 0
    ensures Anchorable(msgs) ==> AnchorIndex(msgs) < |msgs|
    ensures StableIndex(msgs, estimate, false)
         == if Anchorable(msgs) then At(AnchorIndex(msgs), TokensBefore(msgs, AnchorIndex(msgs), estimate)) else NoAnchor
  {
    var user := LatestUser(msgs, |msgs|);
    LatestUserIsUser(msgs, |msgs|);
    CountedIff(msgs, user);
    if user < |msgs| - 1 {
      assert Counts(msgs[user]);
      CountedIff(msgs, user + 1);
    }
  }

  /** With the only user message first, the marker trails the end of the list. */
  lemma PlacedAtStart(msgs: seq<Msg>, estimate: Msg -> nat)
    requires LatestUser(msgs, |msgs|) == 0
    ensures StableIndex(msgs, estimate, false)
         == if Anchorable(msgs) then At(Trailing(msgs), TokensBefore(msgs, Trailing(msgs), estimate)) else NoAnchor
  {
    LatestUserIsUser(msgs, |msgs|);
    LatestUserIsLast(msgs, |msgs|);
    LastNonDeveloperIs(msgs, |msgs|);
    if |msgs| >= 2 {
      LastNonDeveloperIs(msgs, |msgs| - 1);
      if MarkerIndex(msgs) > 0 { CountedOnce(msgs, MarkerIndex(msgs)); }
    }
  }

  lemma PlacedWithoutUser(msgs: seq<Msg>, estimate: Msg -> nat)
    requires LatestUser(msgs, |msgs|) < 0 && |msgs| >= 2
    ensures StableIndex(msgs, estimate, false)
         == if Anchorable(msgs) then At(Trailing(msgs), TokensBefore(msgs, Trailing(msgs), estimate)) else NoAnchor
  {
    LatestUserIsLast(msgs, |msgs|);
    LastNonDeveloperIs(msgs, |msgs|);
    LastNonDeveloperIs(msgs, |msgs| - 1);
    var at := MarkerIndex(msgs);
    assert at == Trailing(msgs);
    CountedIff(msgs, at);
    if at + 1 < |msgs| { CountedIff(msgs, at + 1); }
    assert forall k :: at <= k < |msgs| - 1 ==> !Counts(msgs[k]);
  }

  /** A user message followed by developer text alone: the fallback points at the user message
      itself, at index zero, and no marker is placed. */
  lemma UserThenDeveloperGetsNone(user: Msg, tail: seq<Msg>, estimate: Msg -> nat)
    requires user.role.User? && forall k :: 0 <= k < |tail| ==> tail[k].role.Developer?
    ensures StableIndex([user] + tail, estimate, false) == NoAnchor
  {
    var msgs := [user] + tail;
    assert LatestUser(msgs, |msgs|) == 0 by {
      LatestUserIsLast(msgs, |msgs|);
      LatestUserIsUser(msgs, |msgs|);
      assert msgs[0].role.User?;
    }
    PlacedAtStart(msgs, estimate);
  }

  /** The fixed marker and its token position survive every append of non-user messages iff
      the anchor is settled. */
  lemma StableAnchorExact(msgs: seq<Msg>, estimate: Msg -> nat)
    ensures Settled(msgs)
      <==> (forall more: seq<Msg> :: NoUser(more)
              ==> StableIndex(msgs + more, estimate, false) == StableIndex(msgs, estimate, false))
  {
    if Settled(msgs) {
      forall more: seq<Msg> | NoUser(more)
        ensures StableIndex(msgs + more, estimate, false) == StableIndex(msgs, estimate, false)
      {
        AnchorStays(msgs, more, estimate);
      }
    } else if LatestUser(msgs, |msgs|) > 0 {
      var more := [Text(Assistant, "")];
      AnchorAppears(msgs, more, estimate);
      assert NoUser(more);
    } else {
      var more := [Text(Assistant, ""), Text(Assistant, "")];
      assert NoUser(more);
      UnanchoredDrifts(msgs, more, estimate);
    }
  }

  lemma PlacedBeforeLast(msgs: seq<Msg>, estimate: Msg -> nat)
    requires |msgs| >= 2 && LatestUser(msgs, |msgs|) <= 0
    requires msgs[|msgs| - 1].role.Assistant? && msgs[|msgs| - 2].role.Assistant?
    ensures StableIndex(msgs, estimate, false) == At(|msgs| - 1, TokensBefore(msgs, |msgs| - 1, estimate))
  {
    assert CountedBefore(msgs, |msgs| - 1) > 0;
  }

  lemma LaterPlace(msgs: seq<Msg>, all: seq<Msg>, estimate: Msg -> nat)
    requires |all| == |msgs| + 2 && LatestUser(all, |all|) <= 0
    requires all[|all| - 1].role.Assistant? && all[|all| - 2].role.Assistant?
    ensures StableIndex(all, estimate, false) != StableIndex(msgs, estimate, false)
  {
    PlacedBeforeLast(all, estimate);
    StableInRange(msgs, estimate, false);
  }

  /** Without a user message behind the first, appending two assistant messages moves the marker. */
  lemma {:induction false} UnanchoredDrifts(msgs: seq<Msg>, more: seq<Msg>, estimate: Msg -> nat)
    requires LatestUser(msgs, |msgs|) <= 0
    requires |more| == 2 && more[0].role.Assistant? && more[1].role.Assistant? && NoUser(more)
    ensures StableIndex(msgs + more, estimate, false) != StableIndex(msgs, estimate, false)
  {
    LatestUserStays(msgs, more, |msgs + more|);
    LaterPlace(msgs, msgs + more, estimate);
  }

  lemma AnchorStays(msgs: seq<Msg>, more: seq<Msg>, estimate: Msg -> nat)
    requires Settled(msgs) && NoUser(more)
    ensures StableIndex(msgs + more, estimate, false) == StableIndex(msgs, estimate, false)
  {
    var user := LatestUser(msgs, |msgs|);
    LatestUserStays(msgs, more, |msgs| + |more|);
    CountsStay(msgs, more, user, estimate);
    if user < |msgs| - 1 {
      CountsStay(msgs, more, user + 1, estimate);
    }
  }

  /** The unsettled case: nothing that reaches the wire precedes the user message and nothing
      follows it, so no marker is placed until something does. */
  lemma AnchorAppears(msgs: seq<Msg>, more: seq<Msg>, estimate: Msg -> nat)
    requires LatestUser(msgs, |msgs|) > 0 && !Settled(msgs)
    requires more != [] && NoUser(more)
    ensures StableIndex(msgs, estimate, false) == NoAnchor
    ensures StableIndex(msgs + more, estimate, false) == At(|msgs|, estimate(msgs[|msgs| - 1]))
  {
    var user, all := LatestUser(msgs, |msgs|), msgs + more;
    assert msgs[user].role.User? by { LatestUserIsUser(msgs, |msgs|); }
    assert LatestUser(all, |all|) == user by { LatestUserStays(msgs, more, |all|); }
    assert CountedBefore(all, user) == 0 && TokensBefore(all, user, estimate) == 0 by {
      CountsStay(msgs, more, user, estimate);
      NoCountNoTokens(msgs, user, estimate);
    }
    assert all[user] == msgs[user];
    assert CountedBefore(all, user + 1) == 1 && TokensBefore(all, user + 1, estimate) == estimate(msgs[user]);
  }

  lemma {:induction false} NoCountNoTokens(msgs: seq<Msg>, end: nat, estimate: Msg -> nat)
    requires end <= |msgs| && CountedBefore(msgs, end) == 0
    ensures TokensBefore(msgs, end, estimate) == 0
  {
    if end > 0 {
      NoCountNoTokens(msgs, end - 1, estimate);
    }
  }

  /** With the only user message first there is no anchor: whatever non-user messages are
      appended, developer text at the end included, the marker moves past the old list as soon
      as one of them is not developer text. */
  lemma {:induction false} AnchorAtStartDrifts(msgs: seq<Msg>, more: seq<Msg>, estimate: Msg -> nat)
    requires LatestUser(msgs, |msgs|) == 0 && NoUser(more)
    requires exists k :: 0 <= k < |more| && !more[k].role.Developer?
    ensures var all := msgs + more; var p := StableIndex(all, estimate, false);
      p == At(Trailing(all), TokensBefore(all, Trailing(all), estimate)) && p.index >= |msgs|
    ensures var before := StableIndex(msgs, estimate, false); before.At? ==> before.index < |msgs|
  {
    var all := msgs + more;
    assert LatestUser(all, |all|) == 0 by { LatestUserStays(msgs, more, |all|); }
    var k :| 0 <= k < |more| && !more[k].role.Developer?;
    assert !all[|msgs| + k].role.Developer?;
    LastNonDeveloperIs(all, |all|);
    PlacedAtStart(all, estimate);
    StableInRange(msgs, estimate, false);
  }

  lemma {:induction false} CountedOnce(msgs: seq<Msg>, end: nat)
    requires 0 < end <= |msgs| && Counts(msgs[0])
    ensures CountedBefore(msgs, end) > 0
  {
    if end > 1 {
      CountedOnce(msgs, end - 1);
    }
  }
}
