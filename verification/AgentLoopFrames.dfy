/** The agent loop object: how frames are prepared and kept between turns, in place. */
module AgentLoopFrames {
  import opened Results
  import opened Messages
  import opened CacheMarkers
  import opened CacheMarkerRuns
  import ToolPairs
  import DeltaRows

  method WithoutRolling(messages: seq<Msg>, fixedCacheIdx: int) returns (kept: seq<Msg>)
    ensures kept == RetainFrom(messages, 0, {fixedCacheIdx})
  {
    kept := [];
    for i := 0 to |messages|
      invariant kept + RetainFrom(messages, i, {fixedCacheIdx}) == RetainFrom(messages, 0, {fixedCacheIdx})
    {
      var message := messages[i];
      if message.role.Cache? && i != fixedCacheIdx { continue; }
      assert kept + ([message] + RetainFrom(messages, i + 1, {fixedCacheIdx}))
          == kept + [message] + RetainFrom(messages, i + 1, {fixedCacheIdx});
      kept := kept + [message];
    }
  }

  /** What became of a warm attempt. */
  datatype WarmPath = Sent | PurgeMessage | OrphanedToolCall | BudgetExceeded

  ghost function Delta(rows: seq<Row>): seq<Msg> {
    DeltaRows.Surviving(rows, |rows|)
  }

  ghost function WarmDecision(turn: Turn, rows: seq<Row>, fitsBudget: bool): WarmPath {
    if DeltaRows.DeltaRequiresColdReassembly(rows) then PurgeMessage
    else if !ToolPairs.WellPaired(WarmBase(turn) + Delta(rows)) then OrphanedToolCall
    else if !fitsBudget then BudgetExceeded
    else Sent
  }

  lemma MarkerIsInvisible(msgs: seq<Msg>, disabled: bool)
    ensures var placed := WithMarker(msgs, disabled); ToolPairs.Visible(placed, |placed|) == ToolPairs.Visible(msgs, |msgs|)
  {
    if PlaceIndex(msgs, disabled).Some? {
      var a, b := msgs[..MarkerIndex(msgs)], msgs[MarkerIndex(msgs)..];
      ToolPairs.VisibleConcat(a, [MARKER], 1);
      ToolPairs.VisibleConcat(a + [MARKER], b, |b|);
      ToolPairs.VisibleConcat(a, b, |b|);
      assert ToolPairs.Visible([MARKER], 1) == [];
      assert a + b == msgs;
    }
  }

  /** Neither a marker nor the developer tail changes which calls are answered. */
  lemma MarkersKeepPairing(msgs: seq<Msg>, tail: string, disabled: bool)
    ensures ToolPairs.WellPaired(WithMarker(msgs, disabled) + [Text(Developer, tail)]) == ToolPairs.WellPaired(msgs)
  {
    var placed, last := WithMarker(msgs, disabled), [Text(Developer, tail)];
    MarkerIsInvisible(msgs, disabled);
    ToolPairs.VisibleConcat(placed, last, 1);
    assert ToolPairs.Visible(last, 1) == [];
    ToolPairs.InvisibleDoNotMatter(placed + last, msgs);
  }

  class AgentLoop {
    var frame: MessageList
    var cached: Option<Turn>

    constructor ()
      ensures State() == START && fresh(frame)
    {
      frame := new MessageList([]);
      cached := None;
    }

    ghost function State(): Loop
      reads this, frame
    {
      Loop(frame.items, cached)
    }

    /** The cold path of `prepareFrame`: a fresh assembly gets its fixed marker. */
    method PrepareFrameCold(assembled: seq<Msg>, estimate: Msg -> nat, disabled: bool)
      requires Enabled(State(), Cold(assembled, disabled))
      modifies this
      ensures fresh(frame)
      ensures State() == Step(old(State()), Cold(assembled, disabled), estimate)
    {
      var messages := new MessageList(assembled);
      var fixedPlacement := messages.PlaceStableCacheMarker(estimate, disabled);
      StableInRange(assembled, estimate, disabled);
      var fixedCacheIdx := if fixedPlacement.At? then fixedPlacement.index else -1;
      frame := messages;
      cached := Some(Turn(messages.items, fixedCacheIdx));
    }

    /** The warm path of `prepareFrame`: the remembered messages without their rolling
        markers and tail, then the new rows, a rolling marker and a fresh tail. It bails,
        forgetting the turn, on a purge row, on a list that is not well paired, and when the
        result exceeds the token budget. A frame it does send is well paired. */
    method PrepareFrameWarm(deltaRows: seq<Row>, tail: string, disabled: bool, fitsBudget: bool, ghost estimate: Msg -> nat)
      returns (path: WarmPath)
      requires cached.Some? && forall row :: row in deltaRows ==> !row.role.Cache?
      modifies this
      ensures path == WarmDecision(old(cached.value), deltaRows, fitsBudget)
      ensures path.Sent? ==>
        && fresh(frame)
        && Enabled(old(State()), Warm(Delta(deltaRows), tail, disabled))
        && State() == Step(old(State()), Warm(Delta(deltaRows), tail, disabled), estimate)
        && ToolPairs.WellPaired(frame.items)
      ensures !path.Sent? ==> frame == old(frame) && State() == Step(old(State()), ForgetTurn, estimate)
    {
      var turn := cached.value;
      var deltaMessages := DeltaRows.ConvertDeltaMessages(deltaRows);
      DeltaRows.ConvertedIsUnmarked(deltaRows, |deltaRows|);
      var kept := WithoutRolling(turn.messages, turn.fixedIdx);
      if kept != [] && kept[|kept| - 1].role.Developer? {
        kept := kept[..|kept| - 1];
      }
      var merged := kept + deltaMessages;
      if DeltaRows.DeltaRequiresColdReassembly(deltaRows) {
        cached := None;
        return PurgeMessage;
      }
      var orphaned := ToolPairs.HasOrphanedToolCall(merged);
      if orphaned {
        cached := None;
        return OrphanedToolCall;
      }
      var storedMessages := new MessageList(merged);
      var rollingPlacement := storedMessages.MaybePlaceCacheMarker(Rolling, disabled);
      storedMessages.items := storedMessages.items + [Text(Developer, tail)];
      if !fitsBudget {
        cached := None;
        return BudgetExceeded;
      }
      MarkersKeepPairing(merged, tail, disabled);
      frame := storedMessages;
      cached := Some(turn.(messages := storedMessages.items));
      path := Sent;
    }

    /** A tool call and its results are pushed onto the frame. */
    method PersistToolMessages(call: Msg, results: seq<Msg>, ghost estimate: Msg -> nat)
      requires Enabled(State(), ToolRound(call, results))
      modifies frame
      ensures frame == old(frame) && cached == old(cached)
      ensures State() == Step(old(State()), ToolRound(call, results), estimate)
    {
      frame.items := frame.items + [call];
      for i := 0 to |results|
        invariant frame == old(frame) && cached == old(cached)
        invariant frame.items == old(frame.items) + Round(call, results)[..i + 1]
      {
        frame.items := frame.items + [results[i]];
      }
      assert Round(call, results)[..|results| + 1] == Round(call, results);
    }

    /** `prepareTurn` after the first turn: possibly forget the turn state because the model
        changed, refresh the developer tail in place, refresh the rolling markers. */
    method PrepareTurn(modelChanged: bool, content: string, disabled: bool, ghost estimate: Msg -> nat)
      modifies this, frame
      ensures frame == old(frame)
      ensures var s0 := if modelChanged then Step(old(State()), ForgetTurn, estimate) else old(State());
        State() == Step(Step(s0, RefreshTail(content), estimate), RefreshMarkers(disabled), estimate)
    {
      if modelChanged { cached := None; }
      RefreshVolatileTail(content);
      var fixedIdx := if cached.Some? then cached.value.fixedIdx else -1;
      var placement := frame.RefreshInnerLoopRollingMarker(fixedIdx, disabled);
    }

    method RefreshVolatileTail(content: string)
      modifies frame
      ensures frame.items == ReplaceLastDeveloper(old(frame.items), content)
    {
      ghost var was := frame.items;
      var i := |frame.items|;
      assert was[..i] == was && was[i..] == [];
      while i > 0 && !frame.items[i - 1].role.Developer?
        invariant 0 <= i <= |was| && frame.items == was
        invariant ReplaceLastDeveloper(was, content) == ReplaceLastDeveloper(was[..i], content) + was[i..]
      {
        i := i - 1;
        assert was[..i + 1][..i] == was[..i];
        assert [was[i]] + was[i + 1..] == was[i..];
      }
      if i > 0 {
        frame.items := frame.items[i - 1 := Text(Developer, content)];
        assert was[..i][..i - 1] == was[..i - 1];
      } else {
        assert was[..0] == [] && was[0..] == was;
      }
    }
  }
}
