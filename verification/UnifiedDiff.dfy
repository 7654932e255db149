/** Hunk grouping of an edit script, the unified format it is printed in, and a patch
    applier that reads the format back. */
module UnifiedDiff {
  import opened Results
  import opened Decimal
  import opened Lines
  import opened EditScript

  const CONTEXT := 3

  datatype Hunk = Hunk(oldStart: nat, oldCount: nat, newStart: nat, newCount: nat, lines: seq<Change>)

  /** A group of changes: from its first changed line to just past its last one. */
  datatype Span = Span(first: nat, stop: nat) {
    function Start(): nat {
      if first < CONTEXT then 0 else first - CONTEXT
    }

    function End(n: nat): nat {
      if stop + CONTEXT < n then stop + CONTEXT else n
    }
  }

  /** The first changed position at or after `i`, or the end. */
  function NextChange(c: seq<Change>, i: nat): (r: nat)
    requires i <= |c|
    ensures i <= r <= |c|
    decreases |c| - i
  {
    if i < |c| && c[i].Keep? then NextChange(c, i + 1) else i
  }

  /** Where the group that contains position `i` stops. */
  function GroupEnd(c: seq<Change>, i: nat): (r: nat)
    requires i <= |c|
    ensures i <= r <= |c|
    decreases |c| - i
  {
    if i == |c| then i
    else if !c[i].Keep? then GroupEnd(c, i + 1)
    else
      var n := NextChange(c, i);
      if n < |c| && n - i <= CONTEXT * 2 then GroupEnd(c, n + 1) else i
  }

  ghost predicate InBounds(c: seq<Change>, spans: seq<Span>) {
    forall span :: span in spans ==> span.first < span.stop <= |c|
  }

  function SpansFrom(c: seq<Change>, ci: nat): (spans: seq<Span>)
    requires ci <= |c|
    ensures InBounds(c, spans)
    decreases |c| - ci
  {
    var first := NextChange(c, ci);
    if first == |c| then []
    else
      NextChangeFinds(c, ci);
      var span := Span(first, GroupEnd(c, first));
      [span] + SpansFrom(c, span.End(|c|))
  }

  function HunkAt(c: seq<Change>, s: nat, e: nat): Hunk
    requires s <= e <= |c|
  {
    Hunk(1 + |Old(c[..s])|, |Old(c[s..e])|, 1 + |New(c[..s])|, |New(c[s..e])|, c[s..e])
  }

  ghost function HunksOf(c: seq<Change>, spans: seq<Span>): seq<Hunk>
    requires InBounds(c, spans)
  {
    if spans == [] then []
    else
      assert spans[0] in spans;
      [HunkAt(c, spans[0].Start(), spans[0].End(|c|))] + HunksOf(c, spans[1..])
  }

  // ----- the grouping loops -----

  method FindGroupEnd(changes: seq<Change>, ci: nat) returns (hunkEnd: nat)
    requires ci <= |changes|
    ensures hunkEnd == GroupEnd(changes, ci)
  {
    hunkEnd := ci;
    while hunkEnd < |changes|
      invariant ci <= hunkEnd <= |changes|
      invariant GroupEnd(changes, hunkEnd) == GroupEnd(changes, ci)
    {
      if !changes[hunkEnd].Keep? {
        hunkEnd := hunkEnd + 1;
        continue;
      }
      var nextChange := hunkEnd;
      while nextChange < |changes| && changes[nextChange].Keep?
        invariant hunkEnd <= nextChange <= |changes|
        invariant NextChange(changes, nextChange) == NextChange(changes, hunkEnd)
      {
        nextChange := nextChange + 1;
      }
      if nextChange < |changes| && nextChange - hunkEnd <= CONTEXT * 2 {
        hunkEnd := nextChange + 1;
      } else {
        break;
      }
    }
  }

  method BuildHunk(changes: seq<Change>, hunkStart: nat, hunkEnd: nat) returns (hunk: Hunk)
    requires hunkStart <= hunkEnd <= |changes|
    ensures hunk == HunkAt(changes, hunkStart, hunkEnd)
  {
    var oldStart, newStart := 1, 1;
    for k := 0 to hunkStart
      invariant oldStart == 1 + |Old(changes[..k])| && newStart == 1 + |New(changes[..k])|
    {
      OneMore(changes, 0, k);
      if changes[k].Keep? || changes[k].Del? { oldStart := oldStart + 1; }
      if changes[k].Keep? || changes[k].Add? { newStart := newStart + 1; }
    }
    var oldCount, newCount := 0, 0;
    var hunkLines := [];
    for k := hunkStart to hunkEnd
      invariant hunkLines == changes[hunkStart..k]
      invariant oldCount == |Old(changes[hunkStart..k])| && newCount == |New(changes[hunkStart..k])|
    {
      OneMore(changes, hunkStart, k);
      var c := changes[k];
      hunkLines := hunkLines + [c];
      match c {
        case Keep(_) =>
          oldCount := oldCount + 1;
          newCount := newCount + 1;
        case Del(_) =>
          oldCount := oldCount + 1;
        case Add(_) =>
          newCount := newCount + 1;
      }
    }
    hunk := Hunk(oldStart, oldCount, newStart, newCount, hunkLines);
  }

  method FindChange(changes: seq<Change>, from: nat) returns (ci: nat)
    requires from <= |changes|
    ensures ci == NextChange(changes, from)
  {
    ci := from;
    while ci < |changes| && changes[ci].Keep?
      invariant from <= ci <= |changes|
      invariant NextChange(changes, ci) == NextChange(changes, from)
    {
      ci := ci + 1;
    }
  }

  /** The hunk around the group that starts at changed line `ci`, and where it ends. */
  method NextHunk(changes: seq<Change>, ci: nat) returns (hunk: Hunk, hunkEnd: nat)
    requires ci < |changes| && !changes[ci].Keep?
    ensures var span := Span(ci, GroupEnd(changes, ci));
      hunkEnd == span.End(|changes|) && span.Start() <= hunkEnd && hunk == HunkAt(changes, span.Start(), hunkEnd)
  {
    var hunkStart := if ci < CONTEXT then 0 else ci - CONTEXT;
    hunkEnd := FindGroupEnd(changes, ci);
    hunkEnd := if |changes| < hunkEnd + CONTEXT then |changes| else hunkEnd + CONTEXT;
    hunk := BuildHunk(changes, hunkStart, hunkEnd);
  }

  method GroupHunks(changes: seq<Change>) returns (hunks: seq<Hunk>)
    ensures hunks == HunksOf(changes, SpansFrom(changes, 0))
  {
    hunks := [];
    var ci := 0;
    ghost var all := HunksOf(changes, SpansFrom(changes, 0));
    while ci < |changes|
      invariant 0 <= ci <= |changes|
      invariant hunks + HunksOf(changes, SpansFrom(changes, ci)) == all
    {
      ghost var before := ci;
      ci := FindChange(changes, ci);
      if ci >= |changes| { break; }
      HunksRound(changes, before);
      NextChangeFinds(changes, before);
      var hunk, hunkEnd := NextHunk(changes, ci);
      Associate(hunks, hunk, HunksOf(changes, SpansFrom(changes, hunkEnd)));
      hunks := hunks + [hunk];
      ci := hunkEnd;
    }
  }

  lemma OneMore(c: seq<Change>, s: nat, k: nat)
    requires s <= k < |c|
    ensures c[s..k + 1] == c[s..k] + [c[k]]
    ensures |Old(c[s..k + 1])| == |Old(c[s..k])| + if c[k].Add? then 0 else 1
    ensures |New(c[s..k + 1])| == |New(c[s..k])| + if c[k].Del? then 0 else 1
  {
    assert c[s..k + 1] == c[s..k] + [c[k]];
    OldConcat(c[s..k], [c[k]]);
    NewConcat(c[s..k], [c[k]]);
  }

  lemma {:induction false} OldConcat(x: seq<Change>, y: seq<Change>)
    ensures Old(x + y) == Old(x) + Old(y)
  {
    if x == [] {
      assert x + y == y;
    } else {
      var tail := x[1..] + y;
      assert x + y == [x[0]] + tail;
      assert (x + y)[1..] == tail;
      assert Old(tail) == Old(x[1..]) + Old(y) by { OldConcat(x[1..], y); }
    }
  }

  lemma {:induction false} NewConcat(x: seq<Change>, y: seq<Change>)
    ensures New(x + y) == New(x) + New(y)
  {
    if x == [] {
      assert x + y == y;
    } else {
      var tail := x[1..] + y;
      assert x + y == [x[0]] + tail;
      assert (x + y)[1..] == tail;
      assert New(tail) == New(x[1..]) + New(y) by { NewConcat(x[1..], y); }
    }
  }

  // ----- the layout of the hunks -----

  lemma {:induction false} NextChangeFinds(c: seq<Change>, i: nat)
    requires i <= |c|
    ensures var r := NextChange(c, i);
      && (r < |c| ==> !c[r].Keep? && GroupEnd(c, r) > r)
      && (forall k :: i <= k < r ==> c[k].Keep?)
      && (forall k :: i <= k <= r ==> NextChange(c, k) == r)
    decreases |c| - i
  {
    if i < |c| && c[i].Keep? {
      NextChangeFinds(c, i + 1);
    }
  }

  /** Some line among the seven from `i` on changed. */
  ghost predicate ChangeWithinSeven(c: seq<Change>, i: nat) {
    exists k :: i <= k < i + 7 && k < |c| && !c[k].Keep?
  }

  /** A group ends on a changed line, is followed by more than six kept lines or the end,
      and nowhere inside it are seven kept lines in a row. */
  lemma {:induction false} GroupEndFinds(c: seq<Change>, i: nat)
    requires 0 < i <= |c| && !c[i - 1].Keep?
    ensures var g := GroupEnd(c, i);
      && !c[g - 1].Keep?
      && (g < |c| ==> c[g].Keep?)
      && (NextChange(c, g) == |c| || NextChange(c, g) > g + 6)
      && (forall p :: i - 1 <= p && p + 7 <= g ==> ChangeWithinSeven(c, p))
    decreases |c| - i
  {
    var g := GroupEnd(c, i);
    if i < |c| {
      NextChangeFinds(c, i);
      var n := NextChange(c, i);
      if n < |c| && n - i <= 6 {
        GroupEndFinds(c, n + 1);
        assert GroupEnd(c, n + 1) == g;
        forall p | i - 1 <= p && p + 7 <= g
          ensures ChangeWithinSeven(c, p)
        {
          if p == i - 1 {
            assert !c[i - 1].Keep?;
          } else if p < n {
            assert !c[n].Keep?;
          }
        }
      }
    }
  }

  /** Where the first hunk can start when scanning resumes at `ci`. */
  ghost predicate Resumable(c: seq<Change>, ci: nat)
    requires ci <= |c|
  {
    ci == 0 || NextChange(c, ci) == |c| || NextChange(c, ci) > ci + CONTEXT
  }

  /** Nowhere inside the span are seven kept lines in a row. */
  ghost predicate Dense(c: seq<Change>, span: Span) {
    forall p :: span.first <= p && p + 7 <= span.stop ==> ChangeWithinSeven(c, p)
  }

  ghost predicate GoodSpan(c: seq<Change>, span: Span) {
    && span.first < span.stop <= |c|
    && !c[span.first].Keep?
    && !c[span.stop - 1].Keep?
    && Dense(c, span)
    && (NextChange(c, span.stop) == |c| || NextChange(c, span.stop) > span.stop + 6)
  }

  ghost predicate Covered(spans: seq<Span>, i: nat) {
    exists k :: 0 <= k < |spans| && spans[k].first <= i < spans[k].stop
  }

  /** One round of the grouping loop. */
  lemma SpansRound(c: seq<Change>, ci: nat)
    requires ci <= |c| && NextChange(c, ci) < |c|
    ensures var first := NextChange(c, ci); var span := Span(first, GroupEnd(c, first)); var e := span.End(|c|);
      && GoodSpan(c, span) && ci <= first
      && span.stop <= e <= |c| && Resumable(c, e)
      && NextChange(c, e) == NextChange(c, span.stop)
      && (forall k :: ci <= k < first ==> c[k].Keep?)
      && (forall k :: span.stop <= k < e ==> c[k].Keep?)
      && SpansFrom(c, ci) == [span] + SpansFrom(c, e)
      && SpansFrom(c, ci)[1..] == SpansFrom(c, e)
  {
    NextChangeFinds(c, ci);
    var first := NextChange(c, ci);
    assert GroupEnd(c, first) == GroupEnd(c, first + 1);
    GroupEndFinds(c, first + 1);
    NextChangeFinds(c, GroupEnd(c, first));
  }

  lemma HunksRound(c: seq<Change>, ci: nat)
    requires ci <= |c| && NextChange(c, ci) < |c|
    ensures var first := NextChange(c, ci); var span := Span(first, GroupEnd(c, first)); var e := span.End(|c|);
      && span.Start() <= e && ci < e <= |c|
      && HunksOf(c, SpansFrom(c, ci)) == [HunkAt(c, span.Start(), e)] + HunksOf(c, SpansFrom(c, e))
  {
    SpansRound(c, ci);
  }

  lemma {:induction false} SpansGood(c: seq<Change>, ci: nat)
    requires ci <= |c|
    ensures forall k :: 0 <= k < |SpansFrom(c, ci)| ==> GoodSpan(c, SpansFrom(c, ci)[k]) && ci <= SpansFrom(c, ci)[k].first
    decreases |c| - ci
  {
    if NextChange(c, ci) < |c| {
      SpansRound(c, ci);
      SpansGood(c, SpansFrom(c, ci)[0].End(|c|));
    }
  }

  /** More than six kept lines lie between any two groups. */
  ghost predicate Apart(spans: seq<Span>) {
    forall k, l :: 0 <= k < l < |spans| ==> spans[k].stop + 6 < spans[l].first
  }

  lemma ApartCons(span: Span, spans: seq<Span>)
    requires Apart(spans) && forall l :: 0 <= l < |spans| ==> span.stop + 6 < spans[l].first
    ensures Apart([span] + spans)
  {
  }

  lemma {:induction false} SpansApart(c: seq<Change>, ci: nat)
    requires ci <= |c|
    ensures Apart(SpansFrom(c, ci))
    decreases |c| - ci
  {
    if NextChange(c, ci) < |c| {
      SpansRound(c, ci);
      var span := SpansFrom(c, ci)[0];
      var e := span.End(|c|);
      var rest := SpansFrom(c, e);
      SpansApart(c, e);
      forall l | 0 <= l < |rest|
        ensures span.stop + 6 < rest[l].first
      {
        NextSpanStarts(c, e, l);
        assert NextChange(c, e) == NextChange(c, span.stop);
      }
      ApartCons(span, rest);
    }
  }

  /** No group starts before the next change. */
  lemma NextSpanStarts(c: seq<Change>, ci: nat, k: nat)
    requires ci <= |c| && k < |SpansFrom(c, ci)|
    ensures NextChange(c, ci) <= SpansFrom(c, ci)[k].first && NextChange(c, ci) < |c|
  {
    SpansGood(c, ci);
    NextChangeFinds(c, ci);
    var first := SpansFrom(c, ci)[k].first;
    assert GoodSpan(c, SpansFrom(c, ci)[k]) && ci <= first;
    assert !c[first].Keep?;
  }

  lemma {:induction false} SpansCover(c: seq<Change>, ci: nat, i: nat)
    requires ci <= i < |c| && !c[i].Keep?
    ensures Covered(SpansFrom(c, ci), i)
    decreases |c| - ci
  {
    NextChangeFinds(c, ci);
    SpansRound(c, ci);
    var spans := SpansFrom(c, ci);
    if i < spans[0].stop {
      assert spans[0].first <= i < spans[0].stop;
    } else {
      var rest := SpansFrom(c, spans[0].End(|c|));
      SpansCover(c, spans[0].End(|c|), i);
      var k :| 0 <= k < |rest| && rest[k].first <= i < rest[k].stop;
      assert spans[k + 1] == rest[k];
    }
  }

  lemma AllCovered(c: seq<Change>)
    ensures forall i {:trigger Covered(SpansFrom(c, 0), i)} :: 0 <= i < |c| && !c[i].Keep? ==> Covered(SpansFrom(c, 0), i)
  {
    forall i | 0 <= i < |c| && !c[i].Keep?
      ensures Covered(SpansFrom(c, 0), i)
    {
      SpansCover(c, 0, i);
    }
  }

  function Min(x: nat, y: nat): nat {
    if x <= y then x else y
  }

  ghost predicate WellLaidOut(c: seq<Change>, spans: seq<Span>) {
    && (forall span :: span in spans ==> GoodSpan(c, span))
    && Apart(spans)
    && (forall i {:trigger Covered(spans, i)} :: 0 <= i < |c| && !c[i].Keep? ==> Covered(spans, i))
    && (forall span, i :: span in spans && span.first - 3 <= i < span.stop + 3 && 0 <= i < |c| && !c[i].Keep?
          ==> span.first <= i < span.stop)
  }

  /** The context of a span reaches no other span's changes. */
  lemma ChangeInItsSpan(spans: seq<Span>, k: nat, l: nat, i: nat)
    requires Apart(spans) && k < |spans| && l < |spans|
    requires spans[k].first - 3 <= i < spans[k].stop + 3 && spans[l].first <= i < spans[l].stop
    ensures k == l
  {
  }

  lemma GoodSpansLayOut(c: seq<Change>, spans: seq<Span>)
    requires forall k :: 0 <= k < |spans| ==> GoodSpan(c, spans[k])
    requires Apart(spans)
    requires forall i {:trigger Covered(spans, i)} :: 0 <= i < |c| && !c[i].Keep? ==> Covered(spans, i)
    ensures WellLaidOut(c, spans)
  {
    forall span, i | span in spans && span.first - 3 <= i < span.stop + 3 && 0 <= i < |c| && !c[i].Keep?
      ensures span.first <= i < span.stop
    {
      var k :| 0 <= k < |spans| && spans[k] == span;
      assert Covered(spans, i);
      var l :| 0 <= l < |spans| && spans[l].first <= i < spans[l].stop;
      ChangeInItsSpan(spans, k, l, i);
    }
  }

  /** The hunk is the group with the three lines before and after it, or as many as there are. */
  ghost predicate HasThreeAround(c: seq<Change>, span: Span, hunk: Hunk) {
    && span.first < span.stop <= |c|
    && hunk == HunkAt(c, span.first - Min(3, span.first), span.stop + Min(3, |c| - span.stop))
  }

  ghost predicate ThreeAround(c: seq<Change>, spans: seq<Span>, hunks: seq<Hunk>) {
    |hunks| == |spans| && forall k :: 0 <= k < |spans| ==> HasThreeAround(c, spans[k], hunks[k])
  }

  lemma OneMoreAround(c: seq<Change>, span: Span, spans: seq<Span>, hunk: Hunk, hunks: seq<Hunk>)
    requires HasThreeAround(c, span, hunk) && ThreeAround(c, spans, hunks)
    ensures ThreeAround(c, [span] + spans, [hunk] + hunks)
  {
    forall k | 0 <= k <= |spans|
      ensures HasThreeAround(c, ([span] + spans)[k], ([hunk] + hunks)[k])
    {
      if k > 0 {
        assert ([span] + spans)[k] == spans[k - 1] && ([hunk] + hunks)[k] == hunks[k - 1];
      }
    }
  }

  lemma {:induction false} HunksAround(c: seq<Change>, spans: seq<Span>)
    requires InBounds(c, spans)
    ensures ThreeAround(c, spans, HunksOf(c, spans))
  {
    if spans != [] {
      assert spans[0] in spans;
      HunksAround(c, spans[1..]);
      var span := spans[0];
      OneMoreAround(c, span, spans[1..], HunkAt(c, span.Start(), span.End(|c|)), HunksOf(c, spans[1..]));
      assert spans == [spans[0]] + spans[1..];
    }
  }

  /** Layout of the hunks of a script: the groups lie in order, more than six kept lines apart,
      and cover every changed line exactly once; kept lines inside a group come in runs of at
      most six. Each hunk adds to its group three kept lines on each side, or as many as the
      script has there. */
  lemma {:induction false} HunkLayout(c: seq<Change>)
    ensures WellLaidOut(c, SpansFrom(c, 0))
    ensures ThreeAround(c, SpansFrom(c, 0), HunksOf(c, SpansFrom(c, 0)))
  {
    SpansGood(c, 0);
    SpansApart(c, 0);
    AllCovered(c);
    GoodSpansLayOut(c, SpansFrom(c, 0));
    HunksAround(c, SpansFrom(c, 0));
  }
}
