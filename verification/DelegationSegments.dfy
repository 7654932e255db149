/** The delegation segment codec: a producer host compresses the confirmed-synced
    prefix of an assembled message list into one range pointer, and a consumer host
    rebuilds the list from its own replica of the thread. */
module DelegationSegments {
  import opened Results
  import opened Messages
  import opened Annotation

  const HARD_LIMIT := 100000

  datatype Segment =
    | Range(threadId: string, anchorCreatedAt: int, count: nat)
    | Inline(message: Msg)

  /** R-UD10: a range points past the rows the consumer holds. */
  datatype ResolveError = PrefixMissing(threadId: string, expected: nat, present: nat)

  /** A replica: per thread its live rows, oldest first (created_at, then rowid). */
  type Replica = map<string, seq<Row>>

  function DropBookkeeping(rows: seq<Row>): seq<Row> {
    if rows == [] then []
    else (if IsYardClientBookkeepingRow(rows[0]) then [] else [rows[0]]) + DropBookkeeping(rows[1..])
  }

  /** The newest HARD_LIMIT rows of a thread, oldest first, without bookkeeping rows. */
  function LoadRowsAsc(db: Replica, threadId: string): seq<Row> {
    var table := if threadId in db then db[threadId] else [];
    DropBookkeeping(if |table| <= HARD_LIMIT then table else table[|table| - HARD_LIMIT..])
  }

  function UpTo(rows: seq<Row>, anchor: int): seq<Row> {
    if rows == [] then []
    else (if rows[0].createdAt <= anchor then [rows[0]] else []) + UpTo(rows[1..], anchor)
  }

  function Inlined(msgs: seq<Msg>): seq<Segment> {
    seq(|msgs|, i requires 0 <= i < |msgs| => Inline(msgs[i]))
  }

  lemma {:induction false} DropConcat(a: seq<Row>, b: seq<Row>)
    ensures DropBookkeeping(a + b) == DropBookkeeping(a) + DropBookkeeping(b)
  {
    if a == [] {
      assert a + b == b;
    } else {
      assert (a + b)[1..] == a[1..] + b;
      DropConcat(a[1..], b);
    }
  }

  /** Wherever it stands, a client's bookkeeping result is left out and any other row kept. */
  lemma BookkeepingIsDropped(before: seq<Row>, row: Row, after: seq<Row>)
    ensures DropBookkeeping(before + [row] + after)
         == if row.role == ToolResult && "yard-client-" <= row.toolName then DropBookkeeping(before + after)
            else DropBookkeeping(before) + [row] + DropBookkeeping(after)
  {
    DropConcat(before + [row], after);
    DropConcat(before, [row]);
    DropConcat(before, after);
  }

  /** Rows older than the newest hundred thousand do not matter. */
  lemma LoadsNewest(threadId: string, older: seq<Row>, newest: seq<Row>)
    requires |newest| == 100000
    ensures LoadRowsAsc(map[threadId := older + newest], threadId) == LoadRowsAsc(map[threadId := newest], threadId)
         == DropBookkeeping(newest)
  {
    var table := older + newest;
    assert table[|table| - 100000..] == newest && newest[0..] == newest;
  }

  // ----- the covered run -----

  /** Message `i` of the producer may join the range: its bytes are what the consumer
      will annotate, and the row behind it, if there is one, is confirmed-synced. */
  predicate Joins(producer: seq<Msg>, annotated: seq<Msg>, rows: seq<Row>, coverable: Row -> bool, i: nat)
    requires i < |producer| && i < |annotated|
  {
    && producer[i] == annotated[i]
    && (Injected(annotated[i])
        || (var cursor := RowDerived(annotated[..i]); cursor < |rows| && coverable(rows[cursor])))
  }

  /** The run grown from position `i` on. */
  function RunFrom(producer: seq<Msg>, annotated: seq<Msg>, rows: seq<Row>, coverable: Row -> bool, i: nat): nat
    requires i <= |producer| && i <= |annotated|
    decreases |producer| - i
  {
    if i < |producer| && i < |annotated| && Joins(producer, annotated, rows, coverable, i)
    then RunFrom(producer, annotated, rows, coverable, i + 1)
    else i
  }

  /** The number of leading producer messages that the range covers. */
  function RunLength(producer: seq<Msg>, rows: seq<Row>, render: Row -> string, coverable: Row -> bool): nat {
    RunFrom(producer, Annotate(rows, render), rows, coverable, 0)
  }

  /** The number of rows those messages consumed. */
  function RunRows(producer: seq<Msg>, rows: seq<Row>, render: Row -> string, coverable: Row -> bool): nat {
    var r := RunLength(producer, rows, render, coverable);
    RunIsLongest(producer, Annotate(rows, render), rows, coverable, 0);
    RowDerived(Annotate(rows, render)[..r])
  }

  /** A range over the first `count` rows for `r` covered messages, the rest inline. */
  function RangeThenInline(threadId: string, rows: seq<Row>, producer: seq<Msg>, r: nat, count: nat): seq<Segment>
    requires r <= |producer| && (r > 0 ==> 0 < count <= |rows|)
  {
    if r == 0 then Inlined(producer)
    else [Range(threadId, rows[count - 1].createdAt, count)] + Inlined(producer[r..])
  }

  /** The segments of a producer list. */
  function Segments(threadId: string, rows: seq<Row>, producer: seq<Msg>, render: Row -> string, coverable: Row -> bool)
    : seq<Segment>
  {
    RunBounds(producer, rows, render, coverable);
    RangeThenInline(threadId, rows, producer, RunLength(producer, rows, render, coverable),
                    RunRows(producer, rows, render, coverable))
  }

  /** The producer's walk: the run's length and the rows it consumed. */
  method CoveredRun(producerMessages: seq<Msg>, annotatedRows: seq<Msg>, rows: seq<Row>, isRangeCoverable: Row -> bool)
    returns (runLen: nat, rowCursor: nat)
    ensures runLen <= |producerMessages| && runLen <= |annotatedRows|
    ensures runLen == RunFrom(producerMessages, annotatedRows, rows, isRangeCoverable, 0)
    ensures rowCursor == RowDerived(annotatedRows[..runLen])
    ensures producerMessages[..runLen] == annotatedRows[..runLen]
    ensures runLen < |producerMessages| && runLen < |annotatedRows| ==>
      || producerMessages[runLen] != annotatedRows[runLen]
      || (!Injected(annotatedRows[runLen]) && (rowCursor >= |rows| || !isRangeCoverable(rows[rowCursor])))
  {
    runLen, rowCursor := 0, 0;
    var limit := if |producerMessages| < |annotatedRows| then |producerMessages| else |annotatedRows|;
    for i := 0 to limit
      invariant runLen == i && rowCursor == RowDerived(annotatedRows[..i])
      invariant producerMessages[..i] == annotatedRows[..i]
      invariant RunFrom(producerMessages, annotatedRows, rows, isRangeCoverable, i)
             == RunFrom(producerMessages, annotatedRows, rows, isRangeCoverable, 0)
    {
      var annotated := annotatedRows[i];
      if producerMessages[i] != annotated { break; }
      RowDerivedStep(annotatedRows, i);
      if !Injected(annotated) {
        if rowCursor >= |rows| { break; }
        if !isRangeCoverable(rows[rowCursor]) { break; }
        rowCursor := rowCursor + 1;
      }
      runLen := i + 1;
    }
  }

  /** PRODUCER. */
  method SegmentAssembledMessages(db: Replica, threadId: string, producerMessages: seq<Msg>, render: Row -> string,
                                  isRangeCoverable: Row -> bool)
    returns (segments: seq<Segment>)
    ensures segments == Segments(threadId, LoadRowsAsc(db, threadId), producerMessages, render, isRangeCoverable)
  {
    var rows := LoadRowsAsc(db, threadId);
    var annotatedRows := Annotate(rows, render);
    var runLen, rowCursor := CoveredRun(producerMessages, annotatedRows, rows, isRangeCoverable);
    if runLen == 0 {
      segments := Inlined(producerMessages);
      return;
    }
    RunCountPositive(rows, render, runLen);
    segments := InlineFrom([Range(threadId, rows[rowCursor - 1].createdAt, rowCursor)], producerMessages, runLen);
  }

  /** The tail loop. */
  method InlineFrom(range: seq<Segment>, producerMessages: seq<Msg>, runLen: nat) returns (segments: seq<Segment>)
    requires runLen <= |producerMessages|
    ensures segments == range + Inlined(producerMessages[runLen..])
  {
    segments := range;
    for i := runLen to |producerMessages|
      invariant segments == range + Inlined(producerMessages[runLen..i])
    {
      assert producerMessages[runLen..i + 1] == producerMessages[runLen..i] + [producerMessages[i]];
      InlinedSnoc(range, producerMessages[runLen..i], producerMessages[i]);
      segments := segments + [Inline(producerMessages[i])];
    }
    assert producerMessages[runLen..|producerMessages|] == producerMessages[runLen..];
  }

  lemma InlinedSnoc(range: seq<Segment>, msgs: seq<Msg>, m: Msg)
    ensures range + Inlined(msgs + [m]) == range + Inlined(msgs) + [Inline(m)]
  {
  }

  /** What a segment list means on a replica. */
  function Resolve(segments: seq<Segment>, db: Replica, render: Row -> string): Result<seq<Msg>, ResolveError> {
    if segments == [] then Ok([])
    else
      match Resolve(segments[..|segments| - 1], db, render)
      case Err(e) => Err(e)
      case Ok(out) =>
        match segments[|segments| - 1]
        case Inline(m) => Ok(out + [m])
        case Range(threadId, anchor, count) =>
          var present := UpTo(LoadRowsAsc(db, threadId), anchor);
          if |present| < count then Err(PrefixMissing(threadId, count, |present|))
          else Ok(out + Annotate(present[..count], render))
  }

  lemma {:induction false} ResolveStopsAtError(segments: seq<Segment>, n: nat, db: Replica, render: Row -> string)
    requires n <= |segments| && Resolve(segments[..n], db, render).Err?
    ensures Resolve(segments, db, render) == Resolve(segments[..n], db, render)
  {
    if n == |segments| {
      assert segments[..n] == segments;
    } else {
      assert segments[..|segments| - 1][..n] == segments[..n];
      ResolveStopsAtError(segments[..|segments| - 1], n, db, render);
    }
  }

  /** CONSUMER. */
  method ResolveSegments(segments: seq<Segment>, db: Replica, render: Row -> string)
    returns (r: Result<seq<Msg>, ResolveError>)
    ensures r == Resolve(segments, db, render)
  {
    var out: seq<Msg> := [];
    for i := 0 to |segments|
      invariant Resolve(segments[..i], db, render) == Ok(out)
    {
      assert segments[..i + 1][..i] == segments[..i];
      match segments[i] {
        case Inline(message) =>
          out := out + [message];
        case Range(threadId, anchor, count) =>
          var upToAnchor := UpTo(LoadRowsAsc(db, threadId), anchor);
          if |upToAnchor| < count {
            ResolveStopsAtError(segments, i + 1, db, render);
            return Err(PrefixMissing(threadId, count, |upToAnchor|));
          }
          out := out + Annotate(upToAnchor[..count], render);
      }
    }
    assert segments[..|segments|] == segments;
    r := Ok(out);
  }

  // ----- facts about the run -----

  /** A non-empty run consumed at least one row, so its anchor row exists. */
  lemma RunCountPositive(rows: seq<Row>, render: Row -> string, r: nat)
    requires 0 < r <= |Annotate(rows, render)|
    ensures 0 < RowDerived(Annotate(rows, render)[..r]) <= |rows|
  {
    var a := Annotate(rows, render);
    FirstIsRowDerived(rows, |rows|, KnownIds(rows), render);
    EmittedRowDerived(rows, |rows|, KnownIds(rows), render);
    RowDerivedStep(a, 0);
    RowDerivedMonotone(a, 1, r);
    RowDerivedMonotone(a, r, |a|);
    assert a[..|a|] == a;
  }

  /** The run is the longest: all its messages join, and the next one, if any, does not. */
  lemma {:induction false} RunIsLongest(producer: seq<Msg>, annotated: seq<Msg>, rows: seq<Row>, coverable: Row -> bool,
                                        i: nat)
    requires i <= |producer| && i <= |annotated|
    ensures var r := RunFrom(producer, annotated, rows, coverable, i);
      && i <= r <= |producer| && r <= |annotated|
      && (forall k :: i <= k < r ==> Joins(producer, annotated, rows, coverable, k))
      && (r < |producer| && r < |annotated| ==> !Joins(producer, annotated, rows, coverable, r))
    decreases |producer| - i
  {
    if i < |producer| && i < |annotated| && Joins(producer, annotated, rows, coverable, i) {
      RunIsLongest(producer, annotated, rows, coverable, i + 1);
    }
  }

  /** A leading run that cannot grow is the run. */
  lemma {:induction false} RunIs(producer: seq<Msg>, annotated: seq<Msg>, rows: seq<Row>, coverable: Row -> bool,
                                 i: nat, r: nat)
    requires i <= r <= |producer| && r <= |annotated|
    requires forall k :: i <= k < r ==> Joins(producer, annotated, rows, coverable, k)
    requires r < |producer| && r < |annotated| ==> !Joins(producer, annotated, rows, coverable, r)
    ensures RunFrom(producer, annotated, rows, coverable, i) == r
    decreases r - i
  {
    if i < r {
      assert Joins(producer, annotated, rows, coverable, i);
      RunIs(producer, annotated, rows, coverable, i + 1, r);
    }
  }

  lemma RunBounds(producer: seq<Msg>, rows: seq<Row>, render: Row -> string, coverable: Row -> bool)
    ensures var r := RunLength(producer, rows, render, coverable);
      && r <= |producer| && r <= |Annotate(rows, render)|
      && producer[..r] == Annotate(rows, render)[..r]
      && RunRows(producer, rows, render, coverable) <= |rows|
      && (r > 0 <==> RunRows(producer, rows, render, coverable) > 0)
  {
    var a := Annotate(rows, render);
    var r := RunFrom(producer, a, rows, coverable, 0);
    RunIsLongest(producer, a, rows, coverable, 0);
    forall i | 0 <= i < r
      ensures producer[i] == a[i]
    {
      assert Joins(producer, a, rows, coverable, i);
    }
    if r > 0 {
      RunCountPositive(rows, render, r);
    }
  }

  lemma {:induction false} CountedRowsCoverable(producer: seq<Msg>, annotated: seq<Msg>, rows: seq<Row>,
                                                coverable: Row -> bool, r: nat, k: nat)
    requires r <= |producer| && r <= |annotated|
    requires forall i :: 0 <= i < r ==> Joins(producer, annotated, rows, coverable, i)
    requires k < RowDerived(annotated[..r])
    ensures k < |rows| && coverable(rows[k])
    decreases r
  {
    RowDerivedStep(annotated, r - 1);
    assert Joins(producer, annotated, rows, coverable, r - 1);
    if k < RowDerived(annotated[..r - 1]) {
      CountedRowsCoverable(producer, annotated, rows, coverable, r - 1, k);
    }
  }

  /** The gate accepted every row the range counts. */
  lemma EveryCountedRowIsCoverable(producer: seq<Msg>, rows: seq<Row>, render: Row -> string, coverable: Row -> bool, k: nat)
    requires k < RunRows(producer, rows, render, coverable)
    ensures k < |rows| && coverable(rows[k])
  {
    var a := Annotate(rows, render);
    RunIsLongest(producer, a, rows, coverable, 0);
    CountedRowsCoverable(producer, a, rows, coverable, RunFrom(producer, a, rows, coverable, 0), k);
  }

  /** What stops the run: different bytes, or a row-derived message whose row is missing or
      refused by the gate. Nothing else does. */
  lemma RunIsMaximal(producer: seq<Msg>, rows: seq<Row>, render: Row -> string, coverable: Row -> bool)
    ensures var r, a := RunLength(producer, rows, render, coverable), Annotate(rows, render);
      && r <= |producer| && r <= |a| && producer[..r] == a[..r]
      && RunRows(producer, rows, render, coverable) == RowDerived(a[..r])
      && (r < |producer| && r < |a| ==>
            || producer[r] != a[r]
            || (!Injected(a[r]) && (RowDerived(a[..r]) >= |rows| || !coverable(rows[RowDerived(a[..r])]))))
  {
    RunBounds(producer, rows, render, coverable);
    RunIsLongest(producer, Annotate(rows, render), rows, coverable, 0);
  }

  lemma {:induction false} AllRowDerived(rows: seq<Row>, render: Row -> string)
    requires forall k :: 0 <= k < |rows| ==> rows[k].role !in {Alert, Purge, Cache}
    ensures RowDerived(Annotate(rows, render)) == |rows|
  {
    EmittedRowDerived(rows, |rows|, KnownIds(rows), render);
    LlmRowsFull(rows, |rows|);
  }

  /** When the producer's list starts with the whole annotated thread, the range counts
      exactly the leading rows the gate accepts. */
  lemma CountIsConfirmedPrefix(rows: seq<Row>, tail: seq<Msg>, render: Row -> string, coverable: Row -> bool)
    requires forall k :: 0 <= k < |rows| ==> rows[k].role !in {Alert, Purge, Cache}
    ensures var count := RunRows(Annotate(rows, render) + tail, rows, render, coverable);
      && count <= |rows|
      && (forall k :: 0 <= k < count ==> coverable(rows[k]))
      && (count < |rows| ==> !coverable(rows[count]))
      && (count == |rows| ==> RunLength(Annotate(rows, render) + tail, rows, render, coverable) == |Annotate(rows, render)|)
  {
    var a := Annotate(rows, render);
    var producer := a + tail;
    var r, count := RunLength(producer, rows, render, coverable), RunRows(producer, rows, render, coverable);
    RunIsMaximal(producer, rows, render, coverable);
    RunBounds(producer, rows, render, coverable);
    forall k | 0 <= k < count ensures coverable(rows[k]) {
      EveryCountedRowIsCoverable(producer, rows, render, coverable, k);
    }
    AllRowDerived(rows, render);
    if r == |a| {
      assert a[..r] == a;
    } else {
      assert producer[r] == a[r];
      RowDerivedStep(a, r);
      RowDerivedMonotone(a, r + 1, |a|);
      assert a[..|a|] == a;
    }
  }

  /** A fully confirmed thread travels as one range over all its rows; what the producer
      appended follows inline. */
  lemma FullySyncedIsOneRange(threadId: string, rows: seq<Row>, tail: seq<Msg>, render: Row -> string, coverable: Row -> bool)
    requires rows != [] && forall k :: 0 <= k < |rows| ==> rows[k].role !in {Alert, Purge, Cache}
    requires forall k :: 0 <= k < |rows| ==> coverable(rows[k])
    ensures var range := Range(threadId, rows[|rows| - 1].createdAt, |rows|);
      && Segments(threadId, rows, Annotate(rows, render) + tail, render, coverable) == [range] + Inlined(tail)
      && Segments(threadId, rows, Annotate(rows, render), render, coverable) == [range]
  {
    var a := Annotate(rows, render);
    CountIsConfirmedPrefix(rows, tail, render, coverable);
    CountIsConfirmedPrefix(rows, [], render, coverable);
    assert a + [] == a;
    assert (a + tail)[|a|..] == tail && a[|a|..] == [];
    AllRowDerived(rows, render);
    assert a != [];
    var range := Range(threadId, rows[|rows| - 1].createdAt, |rows|);
    assert [range] + Inlined([]) == [range];
  }

  // ----- when the range reproduces the bytes -----

  /** Row `k` is a tool_result naming a tool_use that only a row at or after `count`
      declares, and no fallback happens to give it that same name. */
  predicate ResolvedByLaterRow(rows: seq<Row>, count: nat, k: nat)
    requires k < count <= |rows|
  {
    && rows[k].role.ToolResult?
    && rows[k].toolName != ""
    && rows[k].toolName in KnownIds(rows)
    && rows[k].toolName !in KnownIds(rows[..count])
    && rows[k].toolName != FallbackId(StateAt(rows, k), rows[k])
  }

  /** The condition under which `count` rows annotate, alone, to the `r` covered messages:
      the run does not end on an injected message, no covered row is of a role that
      annotation skips, and no covered tool_result is resolved by a row left out. */
  predicate RangeFaithful(rows: seq<Row>, producer: seq<Msg>, r: nat, count: nat)
    requires r <= |producer| && count <= |rows|
  {
    && (r > 0 ==> !Injected(producer[r - 1]))
    && (forall k :: 0 <= k < count ==> LlmRole(rows[k].role))
    && (forall k :: 0 <= k < count ==> !ResolvedByLaterRow(rows, count, k))
  }

  lemma KnownIdsGrow(rows: seq<Row>, count: nat)
    requires count <= |rows|
    ensures KnownIds(rows[..count]) <= KnownIds(rows)
  {
    forall id | id in KnownIds(rows[..count])
      ensures id in KnownIds(rows)
    {
      var row, block :| row in rows[..count] && row.role.ToolCall? && block in row.blocks && block.id == id;
      assert row in rows;
    }
  }

  lemma LateResolution(rows: seq<Row>, count: nat, k: nat)
    requires k < count <= |rows|
    ensures ToolUseId(StateAt(rows, k), rows[k], KnownIds(rows))
            != ToolUseId(StateAt(rows, k), rows[k], KnownIds(rows[..count]))
      <==> ResolvedByLaterRow(rows, count, k)
  {
    KnownIdsGrow(rows, count);
  }

  /** Two prefixes with equally many row-derived messages that both end on one are equal. */
  lemma SameCountSameLength(msgs: seq<Msg>, x: nat, y: nat)
    requires 0 < x <= |msgs| && 0 < y <= |msgs|
    requires RowDerived(msgs[..x]) == RowDerived(msgs[..y])
    requires !Injected(msgs[x - 1]) && !Injected(msgs[y - 1])
    ensures x == y
  {
    if x < y {
      RowDerivedMonotone(msgs, x, y - 1);
      RowDerivedStep(msgs, y - 1);
    } else if y < x {
      RowDerivedMonotone(msgs, y, x - 1);
      RowDerivedStep(msgs, x - 1);
    }
  }

  lemma {:induction false} RangeBytes(rows: seq<Row>, count: nat, render: Row -> string)
    requires count <= |rows|
    ensures Annotate(rows[..count], render) == Emitted(rows, count, KnownIds(rows[..count]), render)
    ensures Annotate(rows[..count], render) == Emitted(rows, count, KnownIds(rows), render)
      <==> forall k :: 0 <= k < count && LlmRole(rows[k].role) ==> !ResolvedByLaterRow(rows, count, k)
  {
    EmittedLocal(rows, rows[..count], count, KnownIds(rows[..count]), render);
    EmittedAgrees(rows, count, KnownIds(rows), KnownIds(rows[..count]), render);
    forall k | 0 <= k < count
      ensures ToolUseId(StateAt(rows, k), rows[k], KnownIds(rows))
              != ToolUseId(StateAt(rows, k), rows[k], KnownIds(rows[..count]))
        <==> ResolvedByLaterRow(rows, count, k)
    {
      LateResolution(rows, count, k);
    }
  }

  /** `count` rows cover exactly the leading messages of the whole annotation that end on
      the last of those rows. */
  lemma {:induction false} CoveredPrefix(rows: seq<Row>, render: Row -> string, r: nat, b: seq<Msg>)
    requires 0 < r <= |Annotate(rows, render)|
    requires RowDerived(Annotate(rows, render)[..r]) <= |rows|
    requires b == Emitted(rows, RowDerived(Annotate(rows, render)[..r]), KnownIds(rows), render)
    ensures b <= Annotate(rows, render)
    ensures |b| == r
      <==> (!Injected(Annotate(rows, render)[r - 1])
            && forall k :: 0 <= k < RowDerived(Annotate(rows, render)[..r]) ==> LlmRole(rows[k].role))
  {
    var a := Annotate(rows, render);
    var count := RowDerived(a[..r]);
    EmittedPrefix(rows, count, |rows|, KnownIds(rows), render);
    assert b == a[..|b|];
    EmittedRowDerived(rows, count, KnownIds(rows), render);
    LlmRowsFull(rows, count);
    LastIsRowDerived(rows, count, KnownIds(rows), render);
    RunCountPositive(rows, render, r);
    if |b| != r && LlmRows(rows, count) == count && !Injected(a[r - 1]) {
      SameCountSameLength(a, |b|, r);
    }
  }

  /** Annotating just the counted rows gives back the covered bytes iff the range is faithful. */
  lemma RangeBytesExact(rows: seq<Row>, render: Row -> string, r: nat)
    requires 0 < r <= |Annotate(rows, render)|
    requires RowDerived(Annotate(rows, render)[..r]) <= |rows|
    ensures Annotate(rows[..RowDerived(Annotate(rows, render)[..r])], render) == Annotate(rows, render)[..r]
      <==> RangeFaithful(rows, Annotate(rows, render), r, RowDerived(Annotate(rows, render)[..r]))
  {
    var a := Annotate(rows, render);
    var count := RowDerived(a[..r]);
    var b := Emitted(rows, count, KnownIds(rows), render);
    var w := Annotate(rows[..count], render);
    assert |w| == |b| by {
      RangeBytes(rows, count, render);
      EmittedAgrees(rows, count, KnownIds(rows), KnownIds(rows[..count]), render);
    }
    CoveredPrefix(rows, render, r, b);
    assert b == a[..|b|];
    RangeBytes(rows, count, render);
  }

  // ----- the consumer's side -----

  lemma {:induction false} UpToKeepsPrefix(rows: seq<Row>, n: nat, anchor: int)
    requires n <= |rows|
    requires forall k :: 0 <= k < n ==> rows[k].createdAt <= anchor
    ensures n <= |UpTo(rows, anchor)| && UpTo(rows, anchor)[..n] == rows[..n]
  {
    if n > 0 {
      UpToKeepsPrefix(rows[1..], n - 1, anchor);
      assert UpTo(rows, anchor) == [rows[0]] + UpTo(rows[1..], anchor);
      assert rows[..n] == [rows[0]] + rows[1..][..n - 1];
    }
  }

  lemma {:induction false} ResolveInlined(head: seq<Segment>, tail: seq<Msg>, db: Replica, render: Row -> string)
    requires Resolve(head, db, render).Ok?
    ensures Resolve(head + Inlined(tail), db, render) == Ok(Resolve(head, db, render).value + tail)
  {
    var all := head + Inlined(tail);
    if tail == [] {
      assert all == head;
      assert Resolve(head, db, render).value + tail == Resolve(head, db, render).value;
    } else {
      var front, last := tail[..|tail| - 1], tail[|tail| - 1];
      assert all[..|all| - 1] == head + Inlined(front);
      assert all[|all| - 1] == Inline(last);
      ResolveInlined(head, front, db, render);
      assert Resolve(head, db, render).value + front + [last] == Resolve(head, db, render).value + tail by {
        assert tail == front + [last];
      }
    }
  }

  lemma ResolveRange(threadId: string, anchor: int, count: nat, rows: seq<Row>, db: Replica, render: Row -> string)
    requires count <= |rows| && count <= |LoadRowsAsc(db, threadId)|
    requires LoadRowsAsc(db, threadId)[..count] == rows[..count]
    requires forall k :: 0 <= k < count ==> rows[k].createdAt <= anchor
    ensures Resolve([Range(threadId, anchor, count)], db, render) == Ok(Annotate(rows[..count], render))
  {
    var theirs := LoadRowsAsc(db, threadId);
    assert forall k :: 0 <= k < count ==> theirs[k] == theirs[..count][k] == rows[..count][k] == rows[k];
    UpToKeepsPrefix(theirs, count, anchor);
    var range := [Range(threadId, anchor, count)];
    assert range[..|range| - 1] == [];
    assert Resolve(range[..|range| - 1], db, render) == Ok([]);
    var window := UpTo(theirs, anchor)[..count];
    assert window == rows[..count];
    assert Resolve(range, db, render) == Ok([] + Annotate(window, render));
    assert [] + Annotate(window, render) == Annotate(window, render);
  }

  /** The rows are in the order in which the query returns them. */
  ghost predicate SortedByCreation(rows: seq<Row>) {
    forall i, j :: 0 <= i < j < |rows| ==> rows[i].createdAt <= rows[j].createdAt
  }

  /** A consumer whose leading rows are the `count` covered ones; later rows may be anything. */
  ghost predicate SharesLeadingRows(rows: seq<Row>, consumerRows: seq<Row>, count: nat) {
    count <= |rows| && count <= |consumerRows| && consumerRows[..count] == rows[..count]
  }

  /** What resolving on such a consumer yields: the annotation of the counted rows, then the tail. */
  lemma ResolveRangeThenInline(threadId: string, rows: seq<Row>, producer: seq<Msg>, r: nat, count: nat,
                               consumer: Replica, render: Row -> string)
    requires r <= |producer| && (r > 0 ==> 0 < count <= |rows|)
    requires SortedByCreation(rows) && SharesLeadingRows(rows, LoadRowsAsc(consumer, threadId), count)
    ensures Resolve(RangeThenInline(threadId, rows, producer, r, count), consumer, render)
         == Ok(if r == 0 then producer else Annotate(rows[..count], render) + producer[r..])
  {
    if r == 0 {
      ResolveInlined([], producer, consumer, render);
      assert [] + Inlined(producer) == Inlined(producer);
      assert [] + producer == producer;
    } else {
      var anchor := rows[count - 1].createdAt;
      ResolveRange(threadId, anchor, count, rows, consumer, render);
      ResolveInlined([Range(threadId, anchor, count)], producer[r..], consumer, render);
    }
  }

  lemma SplitEquality(producer: seq<Msg>, r: nat, out: seq<Msg>)
    requires r <= |producer|
    ensures out + producer[r..] == producer <==> out == producer[..r]
  {
    assert producer == producer[..r] + producer[r..];
    if out + producer[r..] == producer {
      assert |out| == r;
      assert out == (out + producer[r..])[..r];
    }
  }

  /** For a run of `r` messages over `count` rows: the counted rows and the tail make up the
      producer's list iff the range is faithful. */
  lemma CoveredBytesExact(rows: seq<Row>, producer: seq<Msg>, render: Row -> string, r: nat, count: nat)
    requires 0 < r <= |producer| && r <= |Annotate(rows, render)| && producer[..r] == Annotate(rows, render)[..r]
    requires count == RowDerived(Annotate(rows, render)[..r]) && count <= |rows|
    ensures Annotate(rows[..count], render) + producer[r..] == producer <==> RangeFaithful(rows, producer, r, count)
  {
    var a, window := Annotate(rows, render), Annotate(rows[..count], render);
    assert window == a[..r] <==> RangeFaithful(rows, a, r, count) by { RangeBytesExact(rows, render, r); }
    assert producer[r - 1] == a[r - 1] by { assert producer[..r][r - 1] == a[..r][r - 1]; }
    assert window + producer[r..] == producer <==> window == a[..r] by { SplitEquality(producer, r, window); }
  }

  /** Round trip. Whatever the producer's list and gate, resolving the emitted segments
      never raises R-UD10, and gives back the producer's bytes iff the range is faithful. */
  lemma RoundTripExact(threadId: string, rows: seq<Row>, producer: seq<Msg>, render: Row -> string,
                       coverable: Row -> bool, consumer: Replica)
    requires SortedByCreation(rows)
    requires SharesLeadingRows(rows, LoadRowsAsc(consumer, threadId), RunRows(producer, rows, render, coverable))
    ensures RunLength(producer, rows, render, coverable) <= |producer|
    ensures RunRows(producer, rows, render, coverable) <= |rows|
    ensures Resolve(Segments(threadId, rows, producer, render, coverable), consumer, render).Ok?
    ensures Resolve(Segments(threadId, rows, producer, render, coverable), consumer, render) == Ok(producer)
      <==> RangeFaithful(rows, producer, RunLength(producer, rows, render, coverable),
                         RunRows(producer, rows, render, coverable))
  {
    RunBounds(producer, rows, render, coverable);
    var r := RunLength(producer, rows, render, coverable);
    var count := RunRows(producer, rows, render, coverable);
    ResolveRangeThenInline(threadId, rows, producer, r, count, consumer, render);
    if r > 0 {
      CoveredBytesExact(rows, producer, render, r, count);
    }
  }

  /** On threads without skipped roles whose tool_results follow the call they name, the
      only thing that can go wrong is a run ending on an injected message. */
  lemma RoundTripOnOrderlyThreads(threadId: string, rows: seq<Row>, producer: seq<Msg>, render: Row -> string,
                                  coverable: Row -> bool, consumer: Replica)
    requires SortedByCreation(rows)
    requires SharesLeadingRows(rows, LoadRowsAsc(consumer, threadId), RunRows(producer, rows, render, coverable))
    requires forall k :: 0 <= k < |rows| ==> LlmRole(rows[k].role)
    requires forall k :: (0 <= k < |rows| && rows[k].role.ToolResult? && rows[k].toolName in KnownIds(rows)
                          ==> rows[k].toolName in KnownIds(rows[..k]))
    ensures RunLength(producer, rows, render, coverable) <= |producer|
    ensures Resolve(Segments(threadId, rows, producer, render, coverable), consumer, render) == Ok(producer)
      <==> (RunLength(producer, rows, render, coverable) > 0
            ==> !Injected(producer[RunLength(producer, rows, render, coverable) - 1]))
  {
    RoundTripExact(threadId, rows, producer, render, coverable, consumer);
    RunBounds(producer, rows, render, coverable);
    var count := RunRows(producer, rows, render, coverable);
    forall k | 0 <= k < count
      ensures !ResolvedByLaterRow(rows, count, k)
    {
      KnownIdsGrow(rows[..count], k);
      assert rows[..count][..k] == rows[..k];
    }
  }
}
