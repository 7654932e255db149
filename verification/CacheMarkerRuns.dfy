/** The agent loop as the driver of the markers: cold and warm frames, tool rounds, and the
    refresh at every inner turn, over whole runs. */
module CacheMarkerRuns {
  import opened Results
  import opened Messages
  import opened CacheMarkers

  /** What is remembered of a prepared frame. */
  datatype Turn = Turn(messages: seq<Msg>, fixedIdx: int)

  /** The frame being sent, and the remembered turn. */
  datatype Loop = Loop(frame: seq<Msg>, cached: Option<Turn>) {
    /** The fixed marker's remembered index, or -1. */
    function FixedIdx(): int {
      if cached.Some? then cached.value.fixedIdx else -1
    }
  }

  datatype Event =
    | Cold(assembled: seq<Msg>, disabled: bool)
    | Warm(delta: seq<Msg>, tail: string, disabled: bool)
    | ToolRound(call: Msg, results: seq<Msg>)
    | RefreshTail(content: string)
    | RefreshMarkers(disabled: bool)
    | ForgetTurn

  ghost predicate Unmarked(msgs: seq<Msg>) {
    forall m :: m in msgs ==> !m.role.Cache?
  }

  /** A tool call and at least one result. */
  ghost predicate IsToolRound(call: Msg, results: seq<Msg>) {
    call.role.ToolCall? && results != [] && forall m :: m in results ==> m.role.ToolResult?
  }

  /** Assembled history and delta rows carry no markers; warm needs a remembered turn. */
  ghost predicate Enabled(loop: Loop, e: Event) {
    match e
    case Cold(assembled, _) => Unmarked(assembled)
    case Warm(delta, _, _) => loop.cached.Some? && Unmarked(delta)
    case ToolRound(call, results) => IsToolRound(call, results)
    case _ => true
  }

  function Round(call: Msg, results: seq<Msg>): seq<Msg> {
    [call] + results
  }

  function DropTail(msgs: seq<Msg>): seq<Msg> {
    if msgs != [] && msgs[|msgs| - 1].role.Developer? then msgs[..|msgs| - 1] else msgs
  }

  /** The last developer message is replaced, wherever it sits. */
  function ReplaceLastDeveloper(msgs: seq<Msg>, content: string): seq<Msg> {
    if msgs == [] then []
    else
      var front, last := msgs[..|msgs| - 1], msgs[|msgs| - 1];
      if last.role.Developer? then front + [Text(Developer, content)]
      else ReplaceLastDeveloper(front, content) + [last]
  }

  /** A developer message that ends the list gets the new text. */
  lemma LastDeveloperReplaced(front: seq<Msg>, last: Msg, content: string)
    ensures ReplaceLastDeveloper(front + [last], content)
         == if last.role == Developer then front + [Text(Developer, content)]
            else ReplaceLastDeveloper(front, content) + [last]
  {
    assert (front + [last])[..|front|] == front;
  }

  /** Messages of other roles behind it stay as they are. */
  lemma {:induction false} OthersStay(before: seq<Msg>, after: seq<Msg>, content: string)
    requires forall i :: 0 <= i < |after| ==> after[i].role != Developer
    ensures ReplaceLastDeveloper(before + after, content) == ReplaceLastDeveloper(before, content) + after
  {
    if after == [] {
      assert before + after == before;
    } else {
      var front, last := after[..|after| - 1], after[|after| - 1];
      var replaced := ReplaceLastDeveloper(before, content);
      assert ReplaceLastDeveloper(before + front, content) == replaced + front by { OthersStay(before, front, content); }
      assert before + after == before + front + [last] && replaced + after == replaced + front + [last];
      LastDeveloperReplaced(before + front, last, content);
    }
  }

  function ColdFrame(assembled: seq<Msg>, estimate: Msg -> nat, disabled: bool): Turn {
    StableInRange(assembled, estimate, disabled);
    match StableIndex(assembled, estimate, disabled)
    case At(index, _) => Turn(Insert(assembled, index, MARKER), index)
    case _ => Turn(assembled, -1)
  }

  /** What of the remembered turn goes into a warm frame. */
  function WarmBase(turn: Turn): seq<Msg> {
    DropTail(RetainFrom(turn.messages, 0, {turn.fixedIdx}))
  }

  function WarmFrame(turn: Turn, delta: seq<Msg>, tail: string, disabled: bool): seq<Msg> {
    WithMarker(WarmBase(turn) + delta, disabled) + [Text(Developer, tail)]
  }

  ghost function Step(loop: Loop, e: Event, estimate: Msg -> nat): Loop
    requires Enabled(loop, e)
  {
    match e
    case Cold(assembled, disabled) =>
      var turn := ColdFrame(assembled, estimate, disabled);
      Loop(turn.messages, Some(turn))
    case Warm(delta, tail, disabled) =>
      var frame := WarmFrame(loop.cached.value, delta, tail, disabled);
      Loop(frame, Some(loop.cached.value.(messages := frame)))
    case ToolRound(call, results) => loop.(frame := loop.frame + Round(call, results))
    case RefreshTail(content) => loop.(frame := ReplaceLastDeveloper(loop.frame, content))
    case RefreshMarkers(disabled) => loop.(frame := Refreshed(loop.frame, loop.FixedIdx(), disabled))
    case ForgetTurn => loop.(cached := None)
  }

  // ----- the invariant -----

  /** A remembered index holds a marker, and every other marker sits after it. */
  ghost predicate FixedFirst(msgs: seq<Msg>, f: int) {
    f >= 0 ==> f < |msgs| && msgs[f].role.Cache? && forall k :: 0 <= k < f ==> !msgs[k].role.Cache?
  }

  /** No marker sits at the very end. */
  ghost predicate EndsUnmarked(msgs: seq<Msg>) {
    msgs != [] ==> !msgs[|msgs| - 1].role.Cache?
  }

  function Markers(msgs: seq<Msg>): nat {
    if msgs == [] then 0 else (if msgs[0].role.Cache? then 1 else 0) + Markers(msgs[1..])
  }

  function Allowance(f: int, rolling: nat): nat {
    (if f >= 0 then 1 else 0) + rolling
  }

  /** With the system breakpoint a request never carries more than four: the frame holds at
      most three, and at most two besides the fixed one while that one is remembered. */
  ghost predicate Inv(loop: Loop) {
    && FixedFirst(loop.frame, loop.FixedIdx())
    && EndsUnmarked(loop.frame)
    && Markers(loop.frame) <= (if loop.cached.Some? then Allowance(loop.FixedIdx(), 2) else 3)
    && (loop.cached.Some? ==>
          && FixedFirst(loop.cached.value.messages, loop.FixedIdx())
          && EndsUnmarked(loop.cached.value.messages))
  }

  lemma {:induction false} MarkersConcat(a: seq<Msg>, b: seq<Msg>)
    ensures Markers(a + b) == Markers(a) + Markers(b)
  {
    if a == [] {
      assert a + b == b;
    } else {
      assert (a + b)[1..] == a[1..] + b;
      MarkersConcat(a[1..], b);
    }
  }

  lemma {:induction false} UnmarkedCount(msgs: seq<Msg>)
    requires Unmarked(msgs)
    ensures Markers(msgs) == 0
  {
    if msgs != [] {
      UnmarkedCount(msgs[1..]);
    }
  }

  lemma {:induction false} InsertCounts(msgs: seq<Msg>, at: nat)
    requires at <= |msgs|
    ensures Markers(Insert(msgs, at, MARKER)) == Markers(msgs) + 1
  {
    MarkersConcat(msgs[..at], [MARKER]);
    MarkersConcat(msgs[..at] + [MARKER], msgs[at..]);
    MarkersConcat(msgs[..at], msgs[at..]);
    assert msgs == msgs[..at] + msgs[at..];
    assert [MARKER][1..] == [];
  }

  /** At most the kept positions survive as markers. */
  lemma {:induction false} RetainCounts(msgs: seq<Msg>, b: nat, x: int, y: int)
    requires b <= |msgs|
    ensures Markers(RetainFrom(msgs, b, {x, y})) <= (if x >= b then 1 else 0) + (if y >= b && y != x then 1 else 0)
    decreases |msgs| - b
  {
    if b < |msgs| {
      RetainCounts(msgs, b + 1, x, y);
      MarkersConcat(if Dropped(msgs, b, {x, y}) then [] else [msgs[b]], RetainFrom(msgs, b + 1, {x, y}));
      assert [msgs[b]][1..] == [];
    }
  }

  /** Eviction leaves everything up to a first, kept marker where it is. */
  lemma RetainKeepsFixed(msgs: seq<Msg>, f: int, keep: set<int>)
    requires FixedFirst(msgs, f) && f in keep
    ensures FixedFirst(RetainFrom(msgs, 0, keep), f)
  {
    if f >= 0 {
      RetainedBlock(msgs, 0, f + 1, keep);
    }
  }

  lemma {:induction false} RetainKeepsEnd(msgs: seq<Msg>, b: nat, keep: set<int>)
    requires b <= |msgs| && EndsUnmarked(msgs)
    ensures var r := RetainFrom(msgs, b, keep);
      b < |msgs| ==> r != [] && r[|r| - 1] == msgs[|msgs| - 1]
    decreases |msgs| - b
  {
    if b < |msgs| {
      RetainKeepsEnd(msgs, b + 1, keep);
    }
  }

  lemma {:induction false} LastNonDeveloperAfter(msgs: seq<Msg>, n: nat, f: int)
    requires 0 <= f < n <= |msgs| && !msgs[f].role.Developer?
    ensures LastNonDeveloper(msgs, n) >= f
  {
    if msgs[n - 1].role.Developer? {
      LastNonDeveloperAfter(msgs, n - 1, f);
    }
  }

  /** A new marker never lands before the fixed one. */
  lemma PlacedAfterFixed(msgs: seq<Msg>, f: int)
    requires msgs != [] && FixedFirst(msgs, f)
    ensures MarkerIndex(msgs) >= f
  {
    if f >= 0 && msgs[|msgs| - 1].role.Developer? {
      LastNonDeveloperAfter(msgs, |msgs| - 1, f);
    }
  }

  lemma PlacingKeeps(msgs: seq<Msg>, f: int, disabled: bool)
    requires FixedFirst(msgs, f)
    ensures FixedFirst(WithMarker(msgs, disabled), f)
    ensures EndsUnmarked(msgs) ==> EndsUnmarked(WithMarker(msgs, disabled))
    ensures Markers(WithMarker(msgs, disabled)) <= Markers(msgs) + 1
  {
    if PlaceIndex(msgs, disabled).Some? {
      PlacedAfterFixed(msgs, f);
      InsertCounts(msgs, MarkerIndex(msgs));
    }
  }

  lemma {:induction false} ReplaceKeepsRoles(msgs: seq<Msg>, content: string)
    ensures var r := ReplaceLastDeveloper(msgs, content);
      |r| == |msgs| && forall k :: 0 <= k < |msgs| ==> r[k].role == msgs[k].role
  {
    if msgs != [] && !msgs[|msgs| - 1].role.Developer? {
      ReplaceKeepsRoles(msgs[..|msgs| - 1], content);
    }
  }

  lemma {:induction false} SameRolesSameMarkers(a: seq<Msg>, b: seq<Msg>)
    requires |a| == |b| && forall k :: 0 <= k < |a| ==> a[k].role == b[k].role
    ensures Markers(a) == Markers(b)
  {
    if a != [] {
      SameRolesSameMarkers(a[1..], b[1..]);
    }
  }

  lemma {:induction false} RefreshKeeps(msgs: seq<Msg>, f: int, disabled: bool)
    requires FixedFirst(msgs, f) && EndsUnmarked(msgs)
    ensures var r := Refreshed(msgs, f, disabled);
      FixedFirst(r, f) && EndsUnmarked(r) && Markers(r) <= Allowance(f, 2)
  {
    var keep := if disabled then {f} else {f, LastRolling(msgs, |msgs|, f)};
    var kept := RetainFrom(msgs, 0, keep);
    RetainKeepsFixed(msgs, f, keep);
    RetainKeepsEnd(msgs, 0, keep);
    if disabled {
      assert {f} == {f, f};
      RetainCounts(msgs, 0, f, f);
    } else {
      RetainCounts(msgs, 0, f, LastRolling(msgs, |msgs|, f));
      PlacingKeeps(kept, f, false);
    }
  }

  lemma DropTailKeeps(msgs: seq<Msg>, f: int)
    requires FixedFirst(msgs, f)
    ensures FixedFirst(DropTail(msgs), f) && Markers(DropTail(msgs)) == Markers(msgs)
  {
    var base := DropTail(msgs);
    if base != msgs {
      var last := msgs[|msgs| - 1];
      assert msgs == base + [last];
      MarkersConcat(base, [last]);
      assert [last][1..] == [];
    }
  }

  lemma AppendKeeps(msgs: seq<Msg>, more: seq<Msg>, f: int)
    requires FixedFirst(msgs, f) && Unmarked(more)
    ensures FixedFirst(msgs + more, f) && Markers(msgs + more) == Markers(msgs)
    ensures more != [] ==> EndsUnmarked(msgs + more)
  {
    MarkersConcat(msgs, more);
    UnmarkedCount(more);
  }

  lemma {:induction false} WarmKeeps(turn: Turn, delta: seq<Msg>, tail: string, disabled: bool)
    requires FixedFirst(turn.messages, turn.fixedIdx) && Unmarked(delta)
    ensures var r := WarmFrame(turn, delta, tail, disabled);
      FixedFirst(r, turn.fixedIdx) && EndsUnmarked(r) && Markers(r) <= Allowance(turn.fixedIdx, 1)
  {
    var f := turn.fixedIdx;
    var kept := RetainFrom(turn.messages, 0, {f});
    RetainKeepsFixed(turn.messages, f, {f});
    assert {f} == {f, f};
    RetainCounts(turn.messages, 0, f, f);
    DropTailKeeps(kept, f);
    AppendKeeps(DropTail(kept), delta, f);
    PlacingKeeps(DropTail(kept) + delta, f, disabled);
    AppendKeeps(WithMarker(DropTail(kept) + delta, disabled), [Text(Developer, tail)], f);
  }

  lemma ColdKeeps(assembled: seq<Msg>, estimate: Msg -> nat, disabled: bool)
    requires Unmarked(assembled)
    ensures var turn := ColdFrame(assembled, estimate, disabled);
      && FixedFirst(turn.messages, turn.fixedIdx) && EndsUnmarked(turn.messages)
      && Markers(turn.messages) <= Allowance(turn.fixedIdx, 0)
  {
    StableInRange(assembled, estimate, disabled);
    UnmarkedCount(assembled);
    match StableIndex(assembled, estimate, disabled) {
      case At(index, _) =>
        InsertCounts(assembled, index);
      case _ =>
    }
  }

  lemma {:induction false} StepKeepsInv(loop: Loop, e: Event, estimate: Msg -> nat)
    requires Inv(loop) && Enabled(loop, e)
    ensures Inv(Step(loop, e, estimate))
  {
    match e {
      case Cold(assembled, disabled) =>
        ColdKeeps(assembled, estimate, disabled);
      case Warm(delta, tail, disabled) =>
        WarmKeeps(loop.cached.value, delta, tail, disabled);
      case ToolRound(call, results) =>
        AppendKeeps(loop.frame, Round(call, results), loop.FixedIdx());
      case RefreshTail(content) =>
        ReplaceKeepsRoles(loop.frame, content);
        SameRolesSameMarkers(loop.frame, ReplaceLastDeveloper(loop.frame, content));
      case RefreshMarkers(disabled) =>
        RefreshKeeps(loop.frame, loop.FixedIdx(), disabled);
      case ForgetTurn =>
    }
  }

  // ----- runs -----

  const START := Loop([], None)

  ghost predicate IsRun(events: seq<Event>, estimate: Msg -> nat)
    decreases |events|, 0
  {
    events != [] ==>
      && IsRun(events[..|events| - 1], estimate)
      && Enabled(After(events[..|events| - 1], estimate), events[|events| - 1])
  }

  ghost function After(events: seq<Event>, estimate: Msg -> nat): Loop
    requires IsRun(events, estimate)
    decreases |events|, 1
  {
    if events == [] then START
    else Step(After(events[..|events| - 1], estimate), events[|events| - 1], estimate)
  }

  /** Over any run: the remembered index holds a marker, all others sit after it, and there
      are never more than four breakpoints with the system one. */
  lemma {:induction false} RunKeepsInv(events: seq<Event>, estimate: Msg -> nat)
    requires IsRun(events, estimate)
    ensures Inv(After(events, estimate))
    ensures 1 + Markers(After(events, estimate).frame) <= 4
  {
    if events != [] {
      RunKeepsInv(events[..|events| - 1], estimate);
      StepKeepsInv(After(events[..|events| - 1], estimate), events[|events| - 1], estimate);
    }
  }
}
