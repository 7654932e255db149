/** The codec's documented law, that resolving the emitted segments gives back the
    producer's messages, fails on each of these threads. The first three break one clause
    of `RangeFaithful` each; in the last, the consumer holds the rows in another order. */
module DelegationCounterexamples {
  import opened Results
  import opened Messages
  import opened Annotation
  import opened DelegationSegments

  function Plain(row: Row): string {
    row.content
  }

  predicate OnlyX(row: Row) { row.id == "m1" }

  predicate OnlyResult(row: Row) { row.id == "m4" }

  predicate Anything(row: Row) { true }

  const ASK := Row("m0", User, "hello", [], "", "", 0, "a")
  const AGAIN := Row("m6", User, "again", [], "", "", 0, "a")
  const REPLY_X := Row("m1", Assistant, "one", [], "x", "", 1, "a")
  const REPLY_Y := Row("m2", Assistant, "two", [], "y", "", 2, "a")
  const NOTICE := Row("m3", Alert, "failed", [], "", "", 0, "a")
  const RESULT := Row("m4", ToolResult, "done", [], "", "call-1", 0, "a")
  const CALL := Row("m5", ToolCall, "", [Block(true, "call-1")], "", "", 1, "a")

  lemma Annotate2(r0: Row, r1: Row)
    ensures var known := KnownIds([r0, r1]);
      Annotate([r0, r1], Plain) == Emit(Start, r0, known, Plain) + Emit(Next(Start, r0), r1, known, Plain)
  {
    var rows, known := [r0, r1], KnownIds([r0, r1]);
    assert StateAt(rows, 1) == Next(Start, r0);
    assert Emitted(rows, 1, known, Plain) == Emit(Start, r0, known, Plain);
  }

  lemma Annotate1(r0: Row)
    ensures Annotate([r0], Plain) == Emit(Start, r0, KnownIds([r0]), Plain)
  {
    assert Emitted([r0], 0, KnownIds([r0]), Plain) == [];
    assert StateAt([r0], 0) == Start;
  }

  lemma TwoRowsLoad(rows: seq<Row>)
    requires |rows| == 2 && !IsYardClientBookkeepingRow(rows[0]) && !IsYardClientBookkeepingRow(rows[1])
    ensures LoadRowsAsc(map["t" := rows], "t") == rows
  {
    assert DropBookkeeping(rows[1..][1..]) == [];
    assert DropBookkeeping(rows[1..]) == [rows[1]];
    assert rows == [rows[0]] + [rows[1]];
  }

  /** What is resolved when `r` messages over `count` of two rows are covered. */
  lemma Resolved(rows: seq<Row>, gate: Row -> bool, r: nat, count: nat)
    requires |rows| == 2 && rows[0].createdAt <= rows[1].createdAt
    requires !IsYardClientBookkeepingRow(rows[0]) && !IsYardClientBookkeepingRow(rows[1])
    requires var producer := Annotate(rows, Plain);
      && 0 < r <= |producer| && 0 < count <= 2 && RowDerived(producer[..r]) == count
      && (forall k :: 0 <= k < r ==> Joins(producer, producer, rows, gate, k))
      && (r < |producer| ==> !Joins(producer, producer, rows, gate, r))
    ensures var producer := Annotate(rows, Plain);
      Resolve(Segments("t", rows, producer, Plain, gate), map["t" := rows], Plain)
      == Ok(Annotate(rows[..count], Plain) + producer[r..])
  {
    var producer := Annotate(rows, Plain);
    RunIs(producer, producer, rows, gate, 0, r);
    TwoRowsLoad(rows);
    ResolveRangeThenInline("t", rows, producer, r, count, map["t" := rows], Plain);
  }

  lemma TwoReplies()
    ensures var producer := Annotate([REPLY_X, REPLY_Y], Plain);
      && |producer| == 3 && !Injected(producer[0]) && Injected(producer[1]) && !Injected(producer[2])
      && Annotate([REPLY_X], Plain) == [producer[0]]
  {
    Annotate2(REPLY_X, REPLY_Y);
    Annotate1(REPLY_X);
  }

  /** The model switched at a row that is not yet synced: the injected message joins the
      run, its row does not, and the message is lost. */
  lemma TrailingSwitchIsLost()
    ensures var rows := [REPLY_X, REPLY_Y]; var producer := Annotate(rows, Plain);
      && |producer| == 3
      && Resolve(Segments("t", rows, producer, Plain, OnlyX), map["t" := rows], Plain)
         == Ok([producer[0], producer[2]])
  {
    var rows := [REPLY_X, REPLY_Y];
    var producer := Annotate(rows, Plain);
    TwoReplies();
    RowDerivedStep(producer, 0);
    RowDerivedStep(producer, 1);
    Resolved(rows, OnlyX, 2, 1);
    assert rows[..1] == [REPLY_X];
    assert producer[2..] == [producer[2]];
    assert [producer[0]] + [producer[2]] == [producer[0], producer[2]];
  }

  /** An alert row yields no message but sits among the loaded rows, so the one counted
      row is the alert and the user's message is lost. */
  lemma SkippedRowShiftsTheRange()
    ensures var rows := [NOTICE, ASK]; var producer := Annotate(rows, Plain);
      |producer| == 1 && Resolve(Segments("t", rows, producer, Plain, Anything), map["t" := rows], Plain) == Ok([])
  {
    var rows := [NOTICE, ASK];
    var producer := Annotate(rows, Plain);
    Annotate2(NOTICE, ASK);
    Annotate1(NOTICE);
    assert |producer| == 1 && !Injected(producer[0]);
    RowDerivedStep(producer, 0);
    Resolved(rows, Anything, 1, 1);
    assert rows[..1] == [NOTICE];
    assert producer[1..] == [];
  }

  /** A tool_result that precedes its call: annotated with the call it gets the call's id,
      without it a synthetic one. */
  lemma LaterCallChangesTheBytes()
    ensures var rows := [RESULT, CALL]; var producer := Annotate(rows, Plain);
            var resolved := Resolve(Segments("t", rows, producer, Plain, OnlyResult), map["t" := rows], Plain);
      && |producer| == 2 && producer[0].toolUseId == "call-1"
      && resolved == Ok([producer[0].(toolUseId := "synthetic-m4"), producer[1]])
  {
    var rows := [RESULT, CALL];
    var producer := Annotate(rows, Plain);
    assert CALL in rows && Block(true, "call-1") in CALL.blocks;
    assert "call-1" in KnownIds(rows);
    Annotate2(RESULT, CALL);
    assert |producer| == 2 && !Injected(producer[0]) && !Injected(producer[1]);
    RowDerivedStep(producer, 0);
    RowDerivedStep(producer, 1);
    Resolved(rows, OnlyResult, 1, 1);
    assert rows[..1] == [RESULT];
    assert producer[1..] == [producer[1]];
    var alone := producer[0].(toolUseId := "synthetic-m4");
    assert Annotate([RESULT], Plain) == [alone] by {
      Annotate1(RESULT);
      assert KnownIds([RESULT]) == {};
      assert "synthetic-" + "m4" == "synthetic-m4";
    }
    assert [alone] + [producer[1]] == [alone, producer[1]];
  }

  lemma TwoQuestions()
    ensures var producer := Annotate([ASK, AGAIN], Plain);
      && |producer| == 2 && !Injected(producer[0]) && !Injected(producer[1]) && producer[0] != producer[1]
      && Annotate([AGAIN, ASK], Plain) == [producer[1], producer[0]]
  {
    Annotate2(ASK, AGAIN);
    Annotate2(AGAIN, ASK);
  }

  /** Two rows created at one instant that the hosts received in different orders: each host
      breaks the tie by its own rowid, so the consumer swaps the messages. */
  lemma TiedRowsMaySwap()
    ensures var rows, theirs := [ASK, AGAIN], [AGAIN, ASK]; var producer := Annotate(rows, Plain);
      && |producer| == 2 && producer[0] != producer[1]
      && Resolve(Segments("t", rows, producer, Plain, Anything), map["t" := theirs], Plain) == Ok([producer[1], producer[0]])
  {
    var rows, theirs := [ASK, AGAIN], [AGAIN, ASK];
    var producer := Annotate(rows, Plain);
    TwoQuestions();
    RowDerivedStep(producer, 0);
    RowDerivedStep(producer, 1);
    assert RowDerived(producer[..2]) == 2;
    RunIs(producer, producer, rows, Anything, 0, 2);
    assert Segments("t", rows, producer, Plain, Anything) == [Range("t", 0, 2)];
    TwoRowsLoad(theirs);
    ResolveRange("t", 0, 2, theirs, map["t" := theirs], Plain);
    assert theirs[..2] == theirs && producer[2..] == [];
  }
}
