/** The confirmed-watermark gate of a delegated inference, and the delivery guarantee it
    buys: whichever candidate host answers, it holds the rows behind the range. */
module DelegationGate {
  import opened Results
  import opened Messages
  import opened Annotation
  import opened DelegationSegments

  /** A hybrid logical clock reading; only its order matters. */
  type Hlc = nat

  const HLC_ZERO: Hlc := 0

  function MinWatermark(watermarks: seq<Hlc>): Hlc {
    if watermarks == [] then HLC_ZERO
    else if |watermarks| == 1 then watermarks[0]
    else
      var m := MinWatermark(watermarks[..|watermarks| - 1]);
      if watermarks[|watermarks| - 1] < m then watermarks[|watermarks| - 1] else m
  }

  lemma {:induction false} MinWatermarkIsLeast(watermarks: seq<Hlc>, h: nat)
    requires h < |watermarks|
    ensures MinWatermark(watermarks) <= watermarks[h]
    ensures MinWatermark(watermarks) in watermarks
  {
    if |watermarks| > 1 {
      var front := watermarks[..|watermarks| - 1];
      MinWatermarkIsLeast(front, if h < |front| then h else 0);
      assert forall w :: w in front ==> w in watermarks;
      assert h < |front| ==> front[h] == watermarks[h];
    }
  }

  /** A row is coverable when its latest change is at or below the least watermark; a row
      the change log does not know is not. */
  function IsRangeCoverable(latestHlcByRow: map<string, Hlc>, watermarks: seq<Hlc>): Row -> bool {
    var min := MinWatermark(watermarks);
    (row: Row) => row.id in latestHlcByRow && latestHlcByRow[row.id] <= min
  }

  /** Every row a range counts is confirmed on every candidate host. */
  lemma CoveredRowsConfirmedEverywhere(rows: seq<Row>, producer: seq<Msg>, render: Row -> string,
                                       latest: map<string, Hlc>, watermarks: seq<Hlc>, k: nat, h: nat)
    requires k < RunRows(producer, rows, render, IsRangeCoverable(latest, watermarks)) && h < |watermarks|
    ensures k < |rows| && rows[k].id in latest && latest[rows[k].id] <= watermarks[h]
  {
    EveryCountedRowIsCoverable(producer, rows, render, IsRangeCoverable(latest, watermarks), k);
    MinWatermarkIsLeast(watermarks, h);
  }

  /** Without a candidate host only rows changed at HLC zero could be covered. */
  lemma NoHostCoversNothing(rows: seq<Row>, producer: seq<Msg>, render: Row -> string, latest: map<string, Hlc>)
    requires forall id :: id in latest ==> latest[id] > HLC_ZERO
    ensures RunRows(producer, rows, render, IsRangeCoverable(latest, [])) == 0
  {
    var gate := IsRangeCoverable(latest, []);
    if RunRows(producer, rows, render, gate) > 0 {
      EveryCountedRowIsCoverable(producer, rows, render, gate, 0);
    }
  }

  // ----- what a candidate host holds -----

  /** Rows carry primary keys, so a table lists none twice. */
  ghost predicate NoRepeats(rows: seq<Row>) {
    forall i, j :: 0 <= i < j < |rows| ==> rows[i] != rows[j]
  }

  /** Of two rows that both lists hold, the first among the first `count` rows of `a`, `b` holds
      them in the same order. Rows created at one instant are ordered by the local rowid, so
      nothing else makes this so. */
  ghost predicate SameOrder(a: seq<Row>, b: seq<Row>, count: nat) {
    forall i, j, p, q {:trigger a[i], a[j], b[p], b[q]} ::
      0 <= i < j < |a| && i < count && 0 <= p < |b| && 0 <= q < |b| && b[p] == a[i] && b[q] == a[j] ==> p < q
  }

  lemma {:induction false} KeptRows(table: seq<Row>)
    ensures forall row :: row in DropBookkeeping(table) <==> row in table && !IsYardClientBookkeepingRow(row)
  {
    if table != [] {
      KeptRows(table[1..]);
      assert table == [table[0]] + table[1..];
    }
  }

  lemma {:induction false} KeptDistinct(table: seq<Row>)
    requires NoRepeats(table)
    ensures NoRepeats(DropBookkeeping(table))
  {
    if table != [] {
      var tail, kept := table[1..], DropBookkeeping(table[1..]);
      KeptDistinct(tail);
      KeptRows(tail);
      assert forall i :: 0 <= i < |kept| ==> kept[i] in tail;
      assert forall i :: 0 <= i < |tail| ==> tail[i] == table[i + 1];
    }
  }

  lemma {:induction false} KeptSorted(table: seq<Row>)
    requires SortedByCreation(table)
    ensures SortedByCreation(DropBookkeeping(table))
  {
    if table != [] {
      var tail, kept := table[1..], DropBookkeeping(table[1..]);
      KeptSorted(tail);
      KeptRows(tail);
      assert forall i :: 0 <= i < |kept| ==> kept[i] in tail;
      assert forall i :: 0 <= i < |tail| ==> tail[i] == table[i + 1];
    }
  }

  lemma OrderCarriesOver(rows: seq<Row>, theirs: seq<Row>, count: nat, k: nat, i: nat, p: nat, q: nat)
    requires SameOrder(rows, theirs, count)
    requires k < count && k < |rows| && i < |rows| && p < |theirs| && q < |theirs| && theirs[p] == rows[k] && theirs[q] == rows[i]
    ensures k < i ==> p < q
  {
  }

  /** What makes the first `count` rows of both lists the same: `theirs` holds them, in the same
      order, and nothing else as early as they are. */
  ghost predicate AgreeUpTo(rows: seq<Row>, theirs: seq<Row>, count: nat) {
    && count <= |rows| && NoRepeats(rows) && NoRepeats(theirs) && SortedByCreation(theirs)
    && SameOrder(rows, theirs, count)
    && forall i :: 0 <= i < count ==> rows[i] in theirs && NoneBefore(rows, theirs, rows[i].createdAt)
  }

  ghost predicate NoneBefore(rows: seq<Row>, theirs: seq<Row>, instant: int) {
    forall row :: row in theirs && row.createdAt <= instant ==> row in rows
  }

  /** The row after an agreeing prefix does not occur in it. */
  lemma NotInPrefix(rows: seq<Row>, theirs: seq<Row>, k: nat, q: nat)
    requires NoRepeats(rows) && k < |rows| && k <= |theirs| && theirs[..k] == rows[..k]
    requires q < |theirs| && theirs[q] == rows[k]
    ensures k <= q
  {
    forall i | 0 <= i < k ensures theirs[i] == rows[i] {
      assert theirs[..k][i] == rows[..k][i];
    }
  }

  lemma Finds(rows: seq<Row>, row: Row) returns (i: nat)
    requires row in rows
    ensures i < |rows| && rows[i] == row
  {
    i :| 0 <= i < |rows| && rows[i] == row;
  }

  /** The row after an agreeing prefix agrees too. */
  lemma OrderedNext(rows: seq<Row>, theirs: seq<Row>, count: nat, k: nat)
    requires AgreeUpTo(rows, theirs, count) && k < count && k <= |theirs| && theirs[..k] == rows[..k]
    ensures k < |theirs| && theirs[k] == rows[k]
  {
    var q := Finds(theirs, rows[k]);
    NotInPrefix(rows, theirs, k, q);
    assert theirs[k] in rows by {
      assert NoneBefore(rows, theirs, rows[k].createdAt);
      assert theirs[k] in theirs && theirs[k].createdAt <= theirs[q].createdAt;
    }
    var i := Finds(rows, theirs[k]);
    NotInPrefix(theirs, rows, k, i);
    OrderCarriesOver(rows, theirs, count, k, i, q, k);
  }

  lemma {:induction false} OrderedPrefixUnique(rows: seq<Row>, theirs: seq<Row>, count: nat, k: nat)
    requires AgreeUpTo(rows, theirs, count) && k <= count
    ensures k <= |theirs| && theirs[..k] == rows[..k]
  {
    if k > 0 {
      OrderedPrefixUnique(rows, theirs, count, k - 1);
      OrderedNext(rows, theirs, count, k - 1);
    }
  }

  /** What the gate and the sync protocol give: the host holds every row changed at or before
      its own confirmed watermark. */
  ghost predicate HoldsUpTo(hostTable: seq<Row>, table: seq<Row>, latest: map<string, Hlc>, watermark: Hlc) {
    forall row :: row in table && row.id in latest && latest[row.id] <= watermark ==> row in hostTable
  }

  /** The counted rows are among the rows a candidate host loads. */
  lemma HostLoadsCountedRows(threadId: string, table: seq<Row>, hostTable: seq<Row>, producer: seq<Msg>,
                             render: Row -> string, latest: map<string, Hlc>, watermarks: seq<Hlc>, h: nat, k: nat)
    requires h < |watermarks| && |hostTable| <= HARD_LIMIT && HoldsUpTo(hostTable, table, latest, watermarks[h])
    requires k < RunRows(producer, LoadRowsAsc(map[threadId := table], threadId), render, IsRangeCoverable(latest, watermarks))
    ensures k < |LoadRowsAsc(map[threadId := table], threadId)|
    ensures LoadRowsAsc(map[threadId := table], threadId)[k] in LoadRowsAsc(map[threadId := hostTable], threadId)
  {
    var rows := LoadRowsAsc(map[threadId := table], threadId);
    CoveredRowsConfirmedEverywhere(rows, producer, render, latest, watermarks, k, h);
    LoadedAreStored(threadId, table, rows[k]);
    KeptRows(hostTable);
  }

  lemma LoadedAreStored(threadId: string, table: seq<Row>, row: Row)
    requires row in LoadRowsAsc(map[threadId := table], threadId)
    ensures row in table && !IsYardClientBookkeepingRow(row)
  {
    KeptRows(if |table| <= HARD_LIMIT then table else table[|table| - HARD_LIMIT..]);
  }

  lemma SuffixShape(rows: seq<Row>, from: nat)
    requires from <= |rows| && NoRepeats(rows) && SortedByCreation(rows)
    ensures NoRepeats(rows[from..]) && SortedByCreation(rows[from..])
  {
    assert forall i :: 0 <= i < |rows[from..]| ==> rows[from..][i] == rows[from + i];
  }

  lemma LoadedShape(threadId: string, table: seq<Row>)
    requires NoRepeats(table) && SortedByCreation(table)
    ensures var rows := LoadRowsAsc(map[threadId := table], threadId); NoRepeats(rows) && SortedByCreation(rows)
  {
    var older := if |table| <= HARD_LIMIT then 0 else |table| - HARD_LIMIT;
    SuffixShape(table, older);
    KeptDistinct(table[older..]);
    KeptSorted(table[older..]);
    assert table[0..] == table;
  }

  /** All of them are among those up to the anchor. */
  lemma {:induction false} CountedRowsUpTo(threadId: string, table: seq<Row>, hostTable: seq<Row>, producer: seq<Msg>,
                                           render: Row -> string, latest: map<string, Hlc>, watermarks: seq<Hlc>, h: nat)
    requires h < |watermarks| && |hostTable| <= HARD_LIMIT && HoldsUpTo(hostTable, table, latest, watermarks[h])
    requires NoRepeats(table) && SortedByCreation(table)
    ensures var rows := LoadRowsAsc(map[threadId := table], threadId);
            var count := RunRows(producer, rows, render, IsRangeCoverable(latest, watermarks));
      && count <= |rows| && NoRepeats(rows[..count])
      && (count > 0 ==> forall k :: 0 <= k < count ==>
            rows[..count][k] in UpTo(LoadRowsAsc(map[threadId := hostTable], threadId), rows[count - 1].createdAt))
  {
    var rows := LoadRowsAsc(map[threadId := table], threadId);
    var theirs := LoadRowsAsc(map[threadId := hostTable], threadId);
    var gate := IsRangeCoverable(latest, watermarks);
    var count := RunRows(producer, rows, render, gate);
    RunBounds(producer, rows, render, gate);
    LoadedShape(threadId, table);
    forall k | 0 <= k < count ensures rows[k] in UpTo(theirs, rows[count - 1].createdAt) {
      HostLoadsCountedRows(threadId, table, hostTable, producer, render, latest, watermarks, h, k);
      UpToHolds(theirs, rows[count - 1].createdAt, rows[k]);
    }
  }

  /** R-UD10 is never raised: whatever else a candidate host holds, and in whatever order it
      stores rows, it finds as many rows up to the anchor as the range counts. */
  lemma NoCandidateHostLacksARow(threadId: string, table: seq<Row>, hostTable: seq<Row>, producer: seq<Msg>,
                                 render: Row -> string, latest: map<string, Hlc>, watermarks: seq<Hlc>, h: nat)
    requires h < |watermarks| && |hostTable| <= HARD_LIMIT && HoldsUpTo(hostTable, table, latest, watermarks[h])
    requires NoRepeats(table) && SortedByCreation(table)
    ensures var rows := LoadRowsAsc(map[threadId := table], threadId);
            var segments := Segments(threadId, rows, producer, render, IsRangeCoverable(latest, watermarks));
      Resolve(segments, map[threadId := hostTable], render).Ok?
  {
    var rows := LoadRowsAsc(map[threadId := table], threadId);
    var theirs := LoadRowsAsc(map[threadId := hostTable], threadId);
    var gate := IsRangeCoverable(latest, watermarks);
    var r, count := RunLength(producer, rows, render, gate), RunRows(producer, rows, render, gate);
    RunBounds(producer, rows, render, gate);
    LoadedShape(threadId, table);
    if r == 0 {
      ResolveInlined([], producer, map[threadId := hostTable], render);
      assert [] + Inlined(producer) == Inlined(producer);
    } else {
      var anchor := rows[count - 1].createdAt;
      CountedRowsUpTo(threadId, table, hostTable, producer, render, latest, watermarks, h);
      DistinctFit(rows[..count], UpTo(theirs, anchor));
      ResolvesTo(threadId, anchor, count, map[threadId := hostTable], render, producer[r..], UpTo(theirs, anchor)[..count]);
    }
  }

  lemma {:induction false} UpToHolds(rows: seq<Row>, anchor: int, row: Row)
    requires row in rows && row.createdAt <= anchor
    ensures row in UpTo(rows, anchor)
  {
    if row != rows[0] {
      UpToHolds(rows[1..], anchor, row);
    }
  }

  /** Distinct elements of a list are at most as many as the list is long. */
  lemma {:induction false} DistinctFit(some: seq<Row>, all: seq<Row>)
    requires NoRepeats(some) && forall i :: 0 <= i < |some| ==> some[i] in all
    ensures |some| <= |all|
  {
    if some != [] {
      var front, last := some[..|some| - 1], some[|some| - 1];
      var k :| 0 <= k < |all| && all[k] == last;
      var rest := all[..k] + all[k + 1..];
      forall i | 0 <= i < |front| ensures front[i] in rest {
        assert some[i] in all && some[i] != some[|some| - 1];
        var j :| 0 <= j < |all| && all[j] == some[i];
        assert rest[if j < k then j else j - 1] == front[i];
      }
      DistinctFit(front, rest);
    }
  }

  lemma {:induction false} HostAgrees(threadId: string, table: seq<Row>, hostTable: seq<Row>, producer: seq<Msg>,
                                      render: Row -> string, latest: map<string, Hlc>, watermarks: seq<Hlc>, h: nat)
    requires h < |watermarks| && |table| <= HARD_LIMIT && |hostTable| <= HARD_LIMIT
    requires NoRepeats(table) && SortedByCreation(table) && NoRepeats(hostTable) && SortedByCreation(hostTable)
    requires HoldsUpTo(hostTable, table, latest, watermarks[h])
    requires var rows := LoadRowsAsc(map[threadId := table], threadId);
      SameOrder(rows, LoadRowsAsc(map[threadId := hostTable], threadId),
                RunRows(producer, rows, render, IsRangeCoverable(latest, watermarks)))
    requires var rows := LoadRowsAsc(map[threadId := table], threadId);
             var count := RunRows(producer, rows, render, IsRangeCoverable(latest, watermarks));
      0 < count <= |rows| ==> forall row :: row in hostTable && row.createdAt <= rows[count - 1].createdAt ==> row in table
    ensures var rows := LoadRowsAsc(map[threadId := table], threadId);
      AgreeUpTo(rows, LoadRowsAsc(map[threadId := hostTable], threadId),
                RunRows(producer, rows, render, IsRangeCoverable(latest, watermarks)))
  {
    var rows := LoadRowsAsc(map[threadId := table], threadId);
    var theirs := LoadRowsAsc(map[threadId := hostTable], threadId);
    var gate := IsRangeCoverable(latest, watermarks);
    var count := RunRows(producer, rows, render, gate);
    RunBounds(producer, rows, render, gate);
    LoadedShape(threadId, table);
    LoadedShape(threadId, hostTable);
    KeptRows(table);
    KeptRows(hostTable);
    forall k | 0 <= k < count ensures rows[k] in theirs && NoneBefore(rows, theirs, rows[k].createdAt) {
      HostLoadsCountedRows(threadId, table, hostTable, producer, render, latest, watermarks, h, k);
      assert rows[k].createdAt <= rows[count - 1].createdAt;
    }
  }

  /** Delivery. Take any candidate host that holds every row of the thread changed at or
      before its own confirmed watermark, in the same order, and whose other rows sort after
      the range. It resolves the segments to the producer's bytes iff the range is faithful. */
  lemma {:induction false} EveryCandidateHostResolves(threadId: string, table: seq<Row>, hostTable: seq<Row>, producer: seq<Msg>,
                                   render: Row -> string, latest: map<string, Hlc>, watermarks: seq<Hlc>, h: nat)
    requires h < |watermarks| && |table| <= HARD_LIMIT && |hostTable| <= HARD_LIMIT
    requires NoRepeats(table) && SortedByCreation(table) && NoRepeats(hostTable) && SortedByCreation(hostTable)
    requires HoldsUpTo(hostTable, table, latest, watermarks[h])
    requires var rows := LoadRowsAsc(map[threadId := table], threadId);
      SameOrder(rows, LoadRowsAsc(map[threadId := hostTable], threadId),
                RunRows(producer, rows, render, IsRangeCoverable(latest, watermarks)))
    requires var rows := LoadRowsAsc(map[threadId := table], threadId);
             var count := RunRows(producer, rows, render, IsRangeCoverable(latest, watermarks));
      0 < count <= |rows| ==> forall row :: row in hostTable && row.createdAt <= rows[count - 1].createdAt ==> row in table
    ensures var rows := LoadRowsAsc(map[threadId := table], threadId);
            var gate := IsRangeCoverable(latest, watermarks);
            var resolved := Resolve(Segments(threadId, rows, producer, render, gate), map[threadId := hostTable], render);
      && RunLength(producer, rows, render, gate) <= |producer| && RunRows(producer, rows, render, gate) <= |rows|
      && resolved.Ok?
      && (resolved == Ok(producer) <==> RangeFaithful(rows, producer, RunLength(producer, rows, render, gate),
                                                      RunRows(producer, rows, render, gate)))
  {
    var rows := LoadRowsAsc(map[threadId := table], threadId);
    var theirs := LoadRowsAsc(map[threadId := hostTable], threadId);
    var gate := IsRangeCoverable(latest, watermarks);
    var count := RunRows(producer, rows, render, gate);
    assert SortedByCreation(rows) by { LoadedShape(threadId, table); }
    assert count <= |theirs| && theirs[..count] == rows[..count] by {
      HostAgrees(threadId, table, hostTable, producer, render, latest, watermarks, h);
      OrderedPrefixUnique(rows, theirs, count, count);
    }
    RoundTripExact(threadId, rows, producer, render, gate, map[threadId := hostTable]);
  }

  lemma {:induction false} UpToIsPrefix(rows: seq<Row>, anchor: int)
    requires SortedByCreation(rows)
    ensures UpTo(rows, anchor) <= rows
  {
    if rows != [] {
      UpToIsPrefix(rows[1..], anchor);
      if rows[0].createdAt > anchor {
        NothingUpTo(rows, anchor);
      }
      assert rows == [rows[0]] + rows[1..];
    }
  }

  lemma {:induction false} NothingUpTo(rows: seq<Row>, anchor: int)
    requires forall i :: 0 <= i < |rows| ==> rows[i].createdAt > anchor
    ensures UpTo(rows, anchor) == []
  {
    if rows != [] {
      NothingUpTo(rows[1..], anchor);
    }
  }

  /** Whatever the order in which a candidate host holds its rows: it resolves to the
      producer's list exactly when nothing is covered or the first rows it loads, as many as
      the range counts, annotate to the covered bytes. So a tie swap shows in the bytes only. */
  lemma {:induction false} HostBytesDecide(threadId: string, table: seq<Row>, hostTable: seq<Row>, producer: seq<Msg>,
                                           render: Row -> string, latest: map<string, Hlc>, watermarks: seq<Hlc>, h: nat)
    requires h < |watermarks| && |hostTable| <= HARD_LIMIT && HoldsUpTo(hostTable, table, latest, watermarks[h])
    requires NoRepeats(table) && SortedByCreation(table) && NoRepeats(hostTable) && SortedByCreation(hostTable)
    ensures var rows := LoadRowsAsc(map[threadId := table], threadId);
            var theirs := LoadRowsAsc(map[threadId := hostTable], threadId);
            var gate := IsRangeCoverable(latest, watermarks);
            var r, count := RunLength(producer, rows, render, gate), RunRows(producer, rows, render, gate);
      && r <= |producer| && count <= |theirs|
      && (Resolve(Segments(threadId, rows, producer, render, gate), map[threadId := hostTable], render) == Ok(producer)
          <==> r == 0 || Annotate(theirs[..count], render) == producer[..r])
  {
    var rows := LoadRowsAsc(map[threadId := table], threadId);
    var theirs := LoadRowsAsc(map[threadId := hostTable], threadId);
    var gate, db := IsRangeCoverable(latest, watermarks), map[threadId := hostTable];
    var r, count := RunLength(producer, rows, render, gate), RunRows(producer, rows, render, gate);
    RunBounds(producer, rows, render, gate);
    LoadedShape(threadId, table);
    LoadedShape(threadId, hostTable);
    if r == 0 {
      ResolveInlined([], producer, db, render);
      assert [] + Inlined(producer) == Inlined(producer) && [] + producer == producer;
    } else {
      var anchor := rows[count - 1].createdAt;
      CountedRowsUpTo(threadId, table, hostTable, producer, render, latest, watermarks, h);
      FirstRowsFill(rows[..count], theirs, anchor);
      ResolvesTo(threadId, anchor, count, db, render, producer[r..], theirs[..count]);
      SplitEquality(producer, r, Annotate(theirs[..count], render));
    }
  }

  lemma FirstRowsFill(counted: seq<Row>, theirs: seq<Row>, anchor: int)
    requires NoRepeats(counted) && SortedByCreation(theirs)
    requires forall i :: 0 <= i < |counted| ==> counted[i] in UpTo(theirs, anchor)
    ensures |counted| <= |UpTo(theirs, anchor)| && |counted| <= |theirs|
    ensures UpTo(theirs, anchor)[..|counted|] == theirs[..|counted|]
  {
    DistinctFit(counted, UpTo(theirs, anchor));
    UpToIsPrefix(theirs, anchor);
  }

  lemma ResolvesTo(threadId: string, anchor: int, count: nat, db: Replica, render: Row -> string, tail: seq<Msg>, window: seq<Row>)
    requires count <= |UpTo(LoadRowsAsc(db, threadId), anchor)|
    requires window == UpTo(LoadRowsAsc(db, threadId), anchor)[..count]
    ensures Resolve([Range(threadId, anchor, count)] + Inlined(tail), db, render) == Ok(Annotate(window, render) + tail)
  {
    var range := [Range(threadId, anchor, count)];
    assert range[..|range| - 1] == [];
    assert Resolve(range[..|range| - 1], db, render) == Ok([]);
    assert [] + Annotate(window, render) == Annotate(window, render);
    ResolveInlined(range, tail, db, render);
  }
}
