/** Placement, eviction and refreshing of prompt-cache markers in a message list. */
module CacheMarkers {
  import opened Results
  import opened Messages

  const MARKER := Text(Cache, "")

  datatype Kind = Fixed | Rolling

  datatype Reason = CapabilityDisabled | TooShort

  datatype Placement = Placed(kind: Kind, index: nat) | Skipped(kind: Kind, reason: Reason)

  function Insert(msgs: seq<Msg>, at: nat, m: Msg): seq<Msg>
    requires at <= |msgs|
  {
    msgs[..at] + [m] + msgs[at..]
  }

  function Remove(msgs: seq<Msg>, at: nat): seq<Msg>
    requires at < |msgs|
  {
    msgs[..at] + msgs[at + 1..]
  }

  /** The last non-developer position below `n`, or -1. */
  function LastNonDeveloper(msgs: seq<Msg>, n: nat): (r: int)
    requires n <= |msgs|
    ensures -1 <= r < n
  {
    if n == 0 then -1 else if msgs[n - 1].role.Developer? then LastNonDeveloper(msgs, n - 1) else n - 1
  }

  /** The last user position below `n`, or -1. */
  function LatestUser(msgs: seq<Msg>, n: nat): (r: int)
    requires n <= |msgs|
    ensures -1 <= r < n
  {
    if n == 0 then -1 else if msgs[n - 1].role.User? then n - 1 else LatestUser(msgs, n - 1)
  }

  /** Where a marker goes so that the merge of trailing developer messages into a user
      message does not touch the cached prefix. */
  function MarkerIndex(msgs: seq<Msg>): (r: nat)
    requires msgs != []
    ensures r < |msgs|
  {
    var last := |msgs| - 1;
    if !msgs[last].role.Developer? then last
    else
      var i := LastNonDeveloper(msgs, last);
      if i >= 0 && msgs[i].role.User? then i else i + 1
  }

  /** The splice index of `maybePlaceCacheMarker`, if it places a marker at all. */
  function PlaceIndex(msgs: seq<Msg>, disabled: bool): Option<nat> {
    if disabled || |msgs| < 2 || MarkerIndex(msgs) == 0 then None else Some(MarkerIndex(msgs))
  }

  function WithMarker(msgs: seq<Msg>, disabled: bool): seq<Msg> {
    match PlaceIndex(msgs, disabled)
    case None => msgs
    case Some(at) => Insert(msgs, at, MARKER)
  }

  // ----- the stable anchor -----

  predicate Counts(m: Msg) {
    !m.role.Cache? && !m.role.Developer?
  }

  function TokensBefore(msgs: seq<Msg>, end: nat, estimate: Msg -> nat): nat
    requires end <= |msgs|
  {
    if end == 0 then 0
    else TokensBefore(msgs, end - 1, estimate) + if Counts(msgs[end - 1]) then estimate(msgs[end - 1]) else 0
  }

  function CountedBefore(msgs: seq<Msg>, end: nat): nat
    requires end <= |msgs|
  {
    if end == 0 then 0 else CountedBefore(msgs, end - 1) + if Counts(msgs[end - 1]) then 1 else 0
  }

  datatype StablePlacement = At(index: nat, positionTokens: nat) | NoAnchor | Disabled

  function StableIndex(msgs: seq<Msg>, estimate: Msg -> nat, disabled: bool): StablePlacement {
    if disabled then Disabled
    else if |msgs| < 2 then NoAnchor
    else
      var user := LatestUser(msgs, |msgs|);
      var at := if user <= 0 then MarkerIndex(msgs) else user;
      if at == 0 then NoAnchor
      else if CountedBefore(msgs, at) > 0 then At(at, TokensBefore(msgs, at, estimate))
      else if at + 1 >= |msgs| || CountedBefore(msgs, at + 1) == 0 then NoAnchor
      else At(at + 1, TokensBefore(msgs, at + 1, estimate))
  }

  // ----- eviction -----

  predicate Dropped(msgs: seq<Msg>, k: nat, keep: set<int>)
    requires k < |msgs|
  {
    msgs[k].role.Cache? && k !in keep
  }

  /** The messages from `b` on, without the markers whose positions are not in `keep`. */
  function RetainFrom(msgs: seq<Msg>, b: nat, keep: set<int>): seq<Msg>
    requires b <= |msgs|
    decreases |msgs| - b
  {
    if b == |msgs| then []
    else (if Dropped(msgs, b, keep) then [] else [msgs[b]]) + RetainFrom(msgs, b + 1, keep)
  }

  /** The last marker below `n` that is not the fixed one, or -1. */
  function LastRolling(msgs: seq<Msg>, n: nat, fixedIdx: int): (r: int)
    requires n <= |msgs|
    ensures -1 <= r < n
  {
    if n == 0 then -1
    else if msgs[n - 1].role.Cache? && n - 1 != fixedIdx then n - 1
    else LastRolling(msgs, n - 1, fixedIdx)
  }

  /** `refreshInnerLoopRollingMarker`: keep the fixed marker and the previous tip, drop older
      ones, place a new tip; without caching drop all but the fixed one. */
  function Refreshed(msgs: seq<Msg>, fixedIdx: int, disabled: bool): seq<Msg> {
    if disabled then RetainFrom(msgs, 0, {fixedIdx})
    else WithMarker(RetainFrom(msgs, 0, {fixedIdx, LastRolling(msgs, |msgs|, fixedIdx)}), false)
  }

  // ----- the code -----

  method ComputeCacheMarkerIndex(messages: seq<Msg>) returns (r: nat)
    requires messages != []
    ensures r == MarkerIndex(messages)
  {
    var lastIdx := |messages| - 1;
    if !messages[lastIdx].role.Developer? { return lastIdx; }
    var i := lastIdx - 1;
    while i >= 0 && messages[i].role.Developer?
      invariant -1 <= i < lastIdx
      invariant LastNonDeveloper(messages, i + 1) == LastNonDeveloper(messages, lastIdx)
    {
      i := i - 1;
    }
    if i >= 0 && messages[i].role.User? { return i; }
    return i + 1;
  }

  method ComputePositionTokens(messages: seq<Msg>, end: nat, estimate: Msg -> nat)
    returns (positionTokens: nat, nonDevPrecedingCount: nat)
    requires end <= |messages|
    ensures positionTokens == TokensBefore(messages, end, estimate)
    ensures nonDevPrecedingCount == CountedBefore(messages, end)
  {
    positionTokens, nonDevPrecedingCount := 0, 0;
    for i := 0 to end
      invariant positionTokens == TokensBefore(messages, i, estimate)
      invariant nonDevPrecedingCount == CountedBefore(messages, i)
    {
      var m := messages[i];
      if m.role.Cache? || m.role.Developer? { continue; }
      positionTokens := positionTokens + estimate(m);
      nonDevPrecedingCount := nonDevPrecedingCount + 1;
    }
  }

  method ComputeStableCacheMarkerPlacement(messages: seq<Msg>, estimate: Msg -> nat, disabled: bool)
    returns (r: StablePlacement)
    ensures r == StableIndex(messages, estimate, disabled)
  {
    if disabled { return Disabled; }
    if |messages| < 2 { return NoAnchor; }
    var insertAt := |messages| - 1;
    while insertAt >= 0 && !messages[insertAt].role.User?
      invariant -1 <= insertAt < |messages|
      invariant LatestUser(messages, insertAt + 1) == LatestUser(messages, |messages|)
    {
      insertAt := insertAt - 1;
    }
    if insertAt <= 0 {
      insertAt := ComputeCacheMarkerIndex(messages);
    }
    if insertAt <= 0 { return NoAnchor; }
    var positionTokens, nonDevPrecedingCount := ComputePositionTokens(messages, insertAt, estimate);
    if nonDevPrecedingCount == 0 {
      var advanced := insertAt + 1;
      if advanced >= |messages| { return NoAnchor; }
      var advancedTokens, advancedCount := ComputePositionTokens(messages, advanced, estimate);
      if advancedCount == 0 { return NoAnchor; }
      insertAt, positionTokens := advanced, advancedTokens;
    }
    r := At(insertAt, positionTokens);
  }

  /** A message list that markers are spliced into and out of. */
  class MessageList {
    var items: seq<Msg>

    constructor (items: seq<Msg>)
      ensures this.items == items
    {
      this.items := items;
    }

    method MaybePlaceCacheMarker(kind: Kind, disabled: bool) returns (p: Placement)
      modifies this
      ensures items == WithMarker(old(items), disabled)
      ensures match PlaceIndex(old(items), disabled)
              case Some(at) => p == Placed(kind, at)
              case None => p == Skipped(kind, if disabled then CapabilityDisabled else TooShort)
    {
      if disabled { return Skipped(kind, CapabilityDisabled); }
      if |items| < 2 { return Skipped(kind, TooShort); }
      var insertAt := ComputeCacheMarkerIndex(items);
      if insertAt == 0 { return Skipped(kind, TooShort); }
      items := Insert(items, insertAt, MARKER);
      p := Placed(kind, insertAt);
    }

    method PlaceStableCacheMarker(estimate: Msg -> nat, disabled: bool) returns (p: StablePlacement)
      modifies this
      ensures p == StableIndex(old(items), estimate, disabled)
      ensures items == if p.At? then Insert(old(items), p.index, MARKER) else old(items)
    {
      p := ComputeStableCacheMarkerPlacement(items, estimate, disabled);
      if p.At? {
        StableInRange(items, estimate, disabled);
        items := Insert(items, p.index, MARKER);
      }
    }

    method RefreshInnerLoopRollingMarker(fixedCacheIdx: int, disabled: bool) returns (p: Placement)
      modifies this
      ensures items == Refreshed(old(items), fixedCacheIdx, disabled)
      ensures var kept := RetainFrom(old(items), 0, {fixedCacheIdx, LastRolling(old(items), |old(items)|, fixedCacheIdx)});
              match PlaceIndex(kept, disabled)
              case Some(at) => p == Placed(Rolling, at)
              case None => p == Skipped(Rolling, if disabled then CapabilityDisabled else TooShort)
    {
      var rollingIdxs: seq<nat> := [];
      for i := 0 to |items|
        invariant items == old(items)
        invariant RollingList(items, i, fixedCacheIdx, rollingIdxs)
      {
        if items[i].role.Cache? && i != fixedCacheIdx {
          rollingIdxs := rollingIdxs + [i];
        }
      }
      if disabled {
        Evict(rollingIdxs, fixedCacheIdx, |rollingIdxs|, {fixedCacheIdx});
        return Skipped(Rolling, CapabilityDisabled);
      }
      LastOfRolling(items, |items|, fixedCacheIdx, rollingIdxs);
      Evict(rollingIdxs, fixedCacheIdx, if rollingIdxs == [] then 0 else |rollingIdxs| - 1,
            {fixedCacheIdx, LastRolling(items, |items|, fixedCacheIdx)});
      p := MaybePlaceCacheMarker(Rolling, false);
    }

    /** Splices out the first `n` of the listed markers, highest first. */
    method Evict(rollingIdxs: seq<nat>, fixedCacheIdx: int, n: nat, ghost keep: set<int>)
      requires RollingList(items, |items|, fixedCacheIdx, rollingIdxs) && n <= |rollingIdxs|
      requires fixedCacheIdx in keep && forall j :: 0 <= j < |rollingIdxs| ==> (rollingIdxs[j] in keep <==> j >= n)
      modifies this
      ensures items == RetainFrom(old(items), 0, keep)
    {
      ghost var was := items;
      ghost var b := |was|;
      var i := n;
      while i > 0
        invariant 0 <= i <= n
        invariant b == if i == n then |was| else rollingIdxs[i]
        invariant items == was[..b] + RetainFrom(was, b, keep)
      {
        i := i - 1;
        NothingBetween(was, fixedCacheIdx, rollingIdxs, n, keep, i + 1);
        EvictOne(was, rollingIdxs[i], b, keep);
        items := Remove(items, rollingIdxs[i]);
        b := rollingIdxs[i];
      }
      NothingBetween(was, fixedCacheIdx, rollingIdxs, n, keep, 0);
      RetainedBlock(was, 0, b, keep);
    }
  }

  /** `idxs` lists, in ascending order, the markers below `n` other than the fixed one. */
  ghost predicate RollingList(msgs: seq<Msg>, n: nat, fixedIdx: int, idxs: seq<nat>)
    requires n <= |msgs|
  {
    && (forall j, k :: 0 <= j < k < |idxs| ==> idxs[j] < idxs[k])
    && (forall j :: 0 <= j < |idxs| ==> idxs[j] < n && msgs[idxs[j]].role.Cache? && idxs[j] != fixedIdx)
    && (forall k: nat :: k < n && msgs[k].role.Cache? && k != fixedIdx ==> k in idxs)
  }

  lemma {:induction false} LastOfRolling(msgs: seq<Msg>, n: nat, fixedIdx: int, idxs: seq<nat>)
    requires n <= |msgs| && RollingList(msgs, n, fixedIdx, idxs)
    ensures LastRolling(msgs, n, fixedIdx) == if idxs == [] then -1 else idxs[|idxs| - 1]
  {
    if n > 0 {
      if msgs[n - 1].role.Cache? && n - 1 != fixedIdx {
        assert n - 1 in idxs;
      } else {
        LastOfRolling(msgs, n - 1, fixedIdx, idxs);
      }
    }
  }

  /** Between two neighbours of the list no marker is dropped. */
  lemma NothingBetween(msgs: seq<Msg>, fixedIdx: int, idxs: seq<nat>, n: nat, keep: set<int>, i: nat)
    requires RollingList(msgs, |msgs|, fixedIdx, idxs) && i <= n <= |idxs|
    requires fixedIdx in keep && forall j :: 0 <= j < |idxs| ==> (idxs[j] in keep <==> j >= n)
    ensures var lo := if i == 0 then 0 else idxs[i - 1] + 1; var hi := if i == n then |msgs| else idxs[i];
      lo <= hi <= |msgs| && forall k :: lo <= k < hi ==> !Dropped(msgs, k, keep)
  {
    var lo := if i == 0 then 0 else idxs[i - 1] + 1;
    var hi := if i == n then |msgs| else idxs[i];
    assert forall j :: 0 <= j < |idxs| && lo <= idxs[j] < hi ==> j >= n;
    assert forall k: nat :: k < |msgs| && Dropped(msgs, k, keep) ==> k in idxs;
  }

  /** Splicing out a dropped marker moves the boundary between untouched and filtered down to it. */
  lemma EvictOne(was: seq<Msg>, at: nat, b: nat, keep: set<int>)
    requires at < b <= |was| && Dropped(was, at, keep)
    requires forall k :: at < k < b ==> !Dropped(was, k, keep)
    ensures Remove(was[..b] + RetainFrom(was, b, keep), at) == was[..at] + RetainFrom(was, at, keep)
  {
    RetainedBlock(was, at + 1, b, keep);
    RemoveInside(was, at, b, RetainFrom(was, b, keep));
    assert RetainFrom(was, at, keep) == RetainFrom(was, at + 1, keep);
  }

  lemma RemoveInside(was: seq<Msg>, at: nat, b: nat, rest: seq<Msg>)
    requires at < b <= |was|
    ensures Remove(was[..b] + rest, at) == was[..at] + (was[at + 1..b] + rest)
  {
  }

  lemma {:induction false} RetainedBlock(msgs: seq<Msg>, x: nat, y: nat, keep: set<int>)
    requires x <= y <= |msgs| && forall k :: x <= k < y ==> !Dropped(msgs, k, keep)
    ensures RetainFrom(msgs, x, keep) == msgs[x..y] + RetainFrom(msgs, y, keep)
    decreases y - x
  {
    if x < y {
      RetainedBlock(msgs, x + 1, y, keep);
    }
  }

  /** A stable marker is spliced strictly inside the list, some message that reaches the
      wire precedes it, and its reported position is the token sum of those messages. */
  lemma StableInRange(msgs: seq<Msg>, estimate: Msg -> nat, disabled: bool)
    ensures var p := StableIndex(msgs, estimate, disabled);
      p.At? ==>
        && 1 <= p.index < |msgs|
        && CountedBefore(msgs, p.index) > 0
        && p.positionTokens == TokensBefore(msgs, p.index, estimate)
  {
  }

  /** A position is a sum: the tokens before it in a list cut in two are those of the first
      piece and those before it in the second. */
  lemma {:induction false} TokensAddUp(a: seq<Msg>, b: seq<Msg>, n: nat, estimate: Msg -> nat)
    requires n <= |b|
    ensures TokensBefore(a + b, |a| + n, estimate) == TokensBefore(a, |a|, estimate) + TokensBefore(b, n, estimate)
    ensures CountedBefore(a + b, |a| + n) == CountedBefore(a, |a|) + CountedBefore(b, n)
  {
    if n > 0 {
      TokensAddUp(a, b, n - 1, estimate);
      assert (a + b)[|a| + n - 1] == b[n - 1];
    } else {
      TokensOfPrefix(a, b, |a|, estimate);
    }
  }

  lemma {:induction false} TokensOfPrefix(a: seq<Msg>, b: seq<Msg>, n: nat, estimate: Msg -> nat)
    requires n <= |a|
    ensures TokensBefore(a + b, n, estimate) == TokensBefore(a, n, estimate)
    ensures CountedBefore(a + b, n) == CountedBefore(a, n)
  {
    if n > 0 {
      TokensOfPrefix(a, b, n - 1, estimate);
    }
  }

  /** Markers and developer text weigh nothing, any other message its estimate. */
  lemma TokensOfOne(m: Msg, estimate: Msg -> nat)
    ensures TokensBefore([m], 1, estimate) == if m.role in {Cache, Developer} then 0 else estimate(m)
    ensures CountedBefore([m], 1) == if m.role in {Cache, Developer} then 0 else 1
  {
    assert TokensBefore([m], 0, estimate) == 0 && CountedBefore([m], 0) == 0;
  }

  /** Where a marker trails a list whose last message that is not developer text stands at `i`:
      before the last message of the list, or before a user message that only developer text
      follows, or else right after it. */
  lemma {:induction false} MarkerIndexExact(msgs: seq<Msg>, i: int)
    requires msgs != [] && -1 <= i < |msgs| && forall k :: i < k < |msgs| ==> msgs[k].role == Developer
    requires i >= 0 ==> msgs[i].role != Developer
    ensures MarkerIndex(msgs) == if i == |msgs| - 1 || (i >= 0 && msgs[i].role == User) then i else i + 1
  {
    if i < |msgs| - 1 {
      LastNonDeveloperAt(msgs, |msgs| - 1, i);
    }
  }

  lemma {:induction false} LastNonDeveloperAt(msgs: seq<Msg>, n: nat, i: int)
    requires -1 <= i < n <= |msgs| && forall k :: i < k < n ==> msgs[k].role.Developer?
    requires i >= 0 ==> !msgs[i].role.Developer?
    ensures LastNonDeveloper(msgs, n) == i
  {
    if n - 1 > i {
      LastNonDeveloperAt(msgs, n - 1, i);
    }
  }
}
