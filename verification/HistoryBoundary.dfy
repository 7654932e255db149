/** Where a truncated history starts. */
module HistoryBoundary {
  import opened Messages

  /** The tokens of the suffix that starts at `i`. */
  function Suffix(counts: seq<int>, i: nat): int
    requires i <= |counts|
    decreases |counts| - i
  {
    if i == |counts| then 0 else counts[i] + Suffix(counts, i + 1)
  }

  // ----- the code -----

  method FindHistoryBoundary(history: seq<Msg>, counts: seq<int>, budget: int) returns (start: nat)
    requires |counts| == |history|
    ensures start == Boundary(history, Scan(counts, budget))
  {
    var n := |history|;
    var accumulated := 0;
    start := n;
    var i := n - 1;
    while i >= 0
      invariant -1 <= i < n && start == i + 1
      invariant accumulated == Suffix(counts, start) && StopFrom(counts, budget, start) == Scan(counts, budget)
    {
      if accumulated + counts[i] > budget { break; }
      accumulated := accumulated + counts[i];
      start := i;
      i := i - 1;
    }
    start := if start < Floor(n) then start else Floor(n);
    var preAdvance := start;
    while start < n && !history[start].role.User?
      invariant preAdvance <= start <= n
      invariant FirstUser(history, start) == FirstUser(history, preAdvance)
    {
      start := start + 1;
    }
    if start >= n {
      i := n - 1;
      while i >= 0
        invariant -1 <= i < n
        invariant LastUserBelow(history, i + 1) == LastUserBelow(history, n)
      {
        if history[i].role.User? { return i; }
        i := i - 1;
      }
      start := preAdvance;
      while start < n && history[start].role.ToolResult?
        invariant preAdvance <= start <= n
        invariant FirstNonResult(history, start) == FirstNonResult(history, preAdvance)
      {
        start := start + 1;
      }
    }
  }

  /** At least the last two messages are considered. */
  function Floor(n: nat): nat {
    if n < 2 then 0 else n - 2
  }

  predicate IsWireLegalHistoryOpener(history: seq<Msg>, start: nat) {
    start >= |history| ||
    var role := history[start].role;
    role.User? || role.Developer? || role.System? || role.Assistant? || role.ToolCall?
  }

  // ----- its steps -----

  /** The backward fill from `i`: how far it extends before a suffix would exceed the budget. */
  function StopFrom(counts: seq<int>, budget: int, i: nat): nat
    requires i <= |counts|
  {
    if i == 0 || Suffix(counts, i - 1) > budget then i else StopFrom(counts, budget, i - 1)
  }

  function Scan(counts: seq<int>, budget: int): nat {
    StopFrom(counts, budget, |counts|)
  }

  function FirstUser(history: seq<Msg>, i: nat): nat
    requires i <= |history|
    decreases |history| - i
  {
    if i == |history| || history[i].role.User? then i else FirstUser(history, i + 1)
  }

  /** One more than the last user message below `i`; zero when there is none. */
  function LastUserBelow(history: seq<Msg>, i: nat): nat
    requires i <= |history|
  {
    if i == 0 || history[i - 1].role.User? then i else LastUserBelow(history, i - 1)
  }

  function FirstNonResult(history: seq<Msg>, i: nat): nat
    requires i <= |history|
    decreases |history| - i
  {
    if i == |history| || !history[i].role.ToolResult? then i else FirstNonResult(history, i + 1)
  }

  function PreAdvance(n: nat, scan: nat): nat {
    if scan < Floor(n) then scan else Floor(n)
  }

  function Boundary(history: seq<Msg>, scan: nat): nat {
    var pre := PreAdvance(|history|, scan);
    if FirstUser(history, pre) < |history| then FirstUser(history, pre)
    else if LastUserBelow(history, |history|) > 0 then LastUserBelow(history, |history|) - 1
    else FirstNonResult(history, pre)
  }

  // ----- what the steps find -----

  predicate HasUser(history: seq<Msg>) {
    exists i :: 0 <= i < |history| && history[i].role.User?
  }

  lemma {:induction false} StopFromExact(counts: seq<int>, budget: int, i: nat)
    requires i <= |counts|
    ensures var s := StopFrom(counts, budget, i);
      && s <= i
      && (s > 0 ==> Suffix(counts, s - 1) > budget)
      && forall k :: s <= k < i ==> Suffix(counts, k) <= budget
  {
    if i > 0 && Suffix(counts, i - 1) <= budget {
      StopFromExact(counts, budget, i - 1);
    }
  }

  lemma {:induction false} FirstUserExact(history: seq<Msg>, i: nat)
    requires i <= |history|
    ensures var u := FirstUser(history, i);
      && i <= u <= |history|
      && (u < |history| ==> history[u].role.User?)
      && forall k :: i <= k < u ==> !history[k].role.User?
    decreases |history| - i
  {
    if i < |history| && !history[i].role.User? {
      FirstUserExact(history, i + 1);
    }
  }

  lemma {:induction false} LastUserExact(history: seq<Msg>, i: nat)
    requires i <= |history|
    ensures var u := LastUserBelow(history, i);
      && u <= i
      && (u > 0 ==> history[u - 1].role.User?)
      && forall k :: u <= k < i ==> !history[k].role.User?
  {
    if i > 0 && !history[i - 1].role.User? {
      LastUserExact(history, i - 1);
    }
  }

  lemma {:induction false} FirstNonResultExact(history: seq<Msg>, i: nat)
    requires i <= |history|
    ensures var u := FirstNonResult(history, i);
      && i <= u <= |history|
      && (u < |history| ==> !history[u].role.ToolResult?)
      && forall k :: i <= k < u ==> history[k].role.ToolResult?
    decreases |history| - i
  {
    if i < |history| && history[i].role.ToolResult? {
      FirstNonResultExact(history, i + 1);
    }
  }

  // ----- the promises -----

  /** With a user message somewhere, `b` is the first one at or after `pre`, or else the last
      of all; without any, `b` is the first message from `pre` on that is not a tool result. */
  ghost predicate OpensAt(history: seq<Msg>, pre: nat, b: nat) {
    && b <= |history|
    && if HasUser(history) then
         && b < |history| && history[b].role.User?
         && (if pre <= b then forall k :: pre <= k < b ==> !history[k].role.User?
             else forall k :: b < k < |history| ==> !history[k].role.User?)
       else
         && pre <= b
         && (b < |history| ==> !history[b].role.ToolResult?)
         && forall k :: pre <= k < b ==> history[k].role.ToolResult?
  }

  /** The boundary is sought from where the fill stopped, but from no later than the last two
      messages. */
  lemma BoundaryOpens(history: seq<Msg>, scan: nat)
    ensures var pre := if scan + 2 <= |history| then scan else if |history| < 2 then 0 else |history| - 2;
      OpensAt(history, pre, Boundary(history, scan))
  {
    var pre := PreAdvance(|history|, scan);
    FirstUserExact(history, pre);
    LastUserExact(history, |history|);
    FirstNonResultExact(history, pre);
  }

  /** The opener is wire-legal unless a history without user messages starts, past leading
      tool results, with a role the wire does not know. */
  lemma OpenerIsLegal(history: seq<Msg>, scan: nat)
    ensures var b := Boundary(history, scan);
      && b <= |history|
      && (IsWireLegalHistoryOpener(history, b) <==>
            (b == |history| || HasUser(history)
             || !(history[b].role.Cache? || history[b].role.Alert? || history[b].role.Purge?)))
  {
    BoundaryOpens(history, scan);
  }

  lemma {:induction false} ScanAntitone(counts: seq<int>, low: int, high: int)
    requires low <= high
    ensures Scan(counts, high) <= Scan(counts, low)
  {
    StopFromExact(counts, low, |counts|);
    StopFromExact(counts, high, |counts|);
  }

  /** A larger budget never moves the boundary later. */
  lemma BoundaryAntitone(history: seq<Msg>, counts: seq<int>, low: int, high: int)
    requires |counts| == |history| && low <= high
    ensures Boundary(history, Scan(counts, high)) <= Boundary(history, Scan(counts, low))
  {
    ScanAntitone(counts, low, high);
    var early, late := PreAdvance(|history|, Scan(counts, high)), PreAdvance(|history|, Scan(counts, low));
    FirstUserExact(history, early);
    FirstUserExact(history, late);
    LastUserExact(history, |history|);
    FirstNonResultExact(history, early);
    FirstNonResultExact(history, late);
  }

  ghost predicate NonNegative(counts: seq<int>) {
    forall i :: 0 <= i < |counts| ==> counts[i] >= 0
  }

  lemma {:induction false} SuffixMonotone(counts: seq<int>, i: nat, j: nat)
    requires NonNegative(counts) && i <= j <= |counts|
    ensures 0 <= Suffix(counts, j) <= Suffix(counts, i)
    decreases |counts| - i
  {
    if i < j {
      SuffixMonotone(counts, i + 1, j);
    } else if i < |counts| {
      SuffixMonotone(counts, i + 1, j + 1);
    }
  }

  /** The tokens of a suffix add up: those of its first part and those of the rest. */
  lemma {:induction false} SuffixAddsUp(a: seq<int>, b: seq<int>, i: nat)
    requires i <= |a|
    ensures Suffix(a + b, i) == Suffix(a, i) + Suffix(b, 0)
    ensures forall x :: Suffix([x], 0) == x
    decreases |a| - i
  {
    if i < |a| {
      SuffixAddsUp(a, b, i + 1);
    } else {
      SuffixShift(a, b, 0);
    }
    forall x ensures Suffix([x], 0) == x {
      assert Suffix([x], 1) == 0;
    }
  }

  lemma {:induction false} SuffixShift(a: seq<int>, b: seq<int>, i: nat)
    requires i <= |b|
    ensures Suffix(a + b, |a| + i) == Suffix(b, i)
    decreases |b| - i
  {
    if i < |b| {
      SuffixShift(a, b, i + 1);
    }
  }

  /** The fill keeps the longest suffix that fits. */
  lemma ScanIsLongest(counts: seq<int>, budget: int, i: nat)
    requires NonNegative(counts) && budget >= 0 && i <= |counts|
    ensures Suffix(counts, i) <= budget <==> Scan(counts, budget) <= i
  {
    var scan := Scan(counts, budget);
    StopFromExact(counts, budget, |counts|);
    if i < scan {
      SuffixMonotone(counts, i, scan - 1);
    }
  }

  /** The kept suffix fits the budget exactly when the boundary is not before the fill's
      start; it can be before it only through the two-message floor or the last-user fallback. */
  lemma KeptFits(history: seq<Msg>, counts: seq<int>, budget: int)
    requires |counts| == |history| && NonNegative(counts) && budget >= 0
    ensures var scan := Scan(counts, budget); var b := Boundary(history, scan);
      && b <= |history|
      && (Suffix(counts, b) <= budget <==> scan <= b)
      && (b < scan ==> |history| < scan + 2 || forall k :: scan <= k < |history| ==> !history[k].role.User?)
  {
    var scan := Scan(counts, budget);
    BoundaryOpens(history, scan);
    StopFromExact(counts, budget, |counts|);
    ScanIsLongest(counts, budget, Boundary(history, scan));
    FirstUserExact(history, PreAdvance(|history|, scan));
  }

  /** Whatever the signs of the counts, a boundary at or after the fill's start fits. */
  lemma KeptFitsAnyCounts(history: seq<Msg>, counts: seq<int>, budget: int)
    requires |counts| == |history|
    ensures var scan := Scan(counts, budget); var b := Boundary(history, scan);
      scan <= b < |history| ==> Suffix(counts, b) <= budget
  {
    StopFromExact(counts, budget, |counts|);
  }
}
