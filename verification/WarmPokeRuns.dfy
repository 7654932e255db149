/** Runs of the poke driver beside everything else that touches its tables, and what they
    achieve: a cache that never lapses while the thread stays worth it. */
module WarmPokeRuns {
  import opened Results
  import opened WarmPoke

  /** What happens to the tables the selection reads. A changed row is any rewrite of one row:
      a task that runs, is soft-deleted, has `no_history` set or cleared, or moves to another
      thread; a message that is redacted, tombstoned or restored. */
  datatype Event =
    | Posted(message: MessageRow)
    | Scheduled(task: Task)
    | MessageChanged(index: nat, message: MessageRow)
    | TaskChanged(index: nat, task: Task)
    | Took(turn: Turn)
    | Scanned(now: int, targets: seq<string>, pokeTurns: seq<Turn>)

  function PokeRows(targets: seq<string>, now: int): seq<MessageRow> {
    seq(|targets|, i requires 0 <= i < |targets| => MessageRow(targets[i], "developer", now, false, true))
  }

  /** Poke rows come from scans only, and a scan records a poke and a cache-active turn for
      each selected thread it is said to poke. */
  predicate Enabled(db: Db, o: Settings, e: Event) {
    match e
    case Posted(m) => !m.isPoke
    case Scheduled(_) => true
    case MessageChanged(k, _) => k < |db.messages|
    case TaskChanged(k, _) => k < |db.tasks|
    case Took(_) => true
    case Scanned(now, targets, pokeTurns) =>
      && (forall i :: 0 <= i < |targets| ==> Selected(db, o, now, targets[i]))
      && (forall i, j :: 0 <= i < j < |targets| ==> targets[i] != targets[j])
      && |pokeTurns| == |targets|
      && forall i :: 0 <= i < |targets| ==>
           pokeTurns[i].threadId == targets[i] && pokeTurns[i].createdAt == now && CacheActive(pokeTurns[i])
  }

  function Apply(db: Db, e: Event): Db {
    match e
    case Posted(m) => db.(messages := db.messages + [m])
    case Scheduled(task) => db.(tasks := db.tasks + [task])
    case MessageChanged(k, m) => if k < |db.messages| then db.(messages := db.messages[k := m]) else db
    case TaskChanged(k, task) => if k < |db.tasks| then db.(tasks := db.tasks[k := task]) else db
    case Took(turn) => db.(turns := db.turns + [turn])
    case Scanned(now, targets, pokeTurns) =>
      db.(messages := db.messages + PokeRows(targets, now), turns := db.turns + pokeTurns)
  }

  function After(db: Db, events: seq<Event>): Db
    decreases |events|
  {
    if events == [] then db else After(Apply(db, events[0]), events[1..])
  }

  // ----- the queries on a grown table -----

  lemma {:induction false} PokesAppend(xs: seq<MessageRow>, ys: seq<MessageRow>, t: string, a: int)
    ensures PokesSince(xs + ys, t, a) == PokesSince(xs, t, a) + PokesSince(ys, t, a)
    decreases |ys|
  {
    if ys == [] {
      assert xs + ys == xs;
    } else {
      assert (xs + ys)[..|xs + ys| - 1] == xs + ys[..|ys| - 1];
      PokesAppend(xs, ys[..|ys| - 1], t, a);
    }
  }

  /** A scan pokes a thread at most once, and only when it selected it. */
  lemma {:induction false} ScanPokesOnce(targets: seq<string>, now: int, t: string, a: int)
    requires forall i, j :: 0 <= i < j < |targets| ==> targets[i] != targets[j]
    ensures PokesSince(PokeRows(targets, now), t, a) == if t in targets && now > a then 1 else 0
  {
    if targets != [] {
      var front := targets[..|targets| - 1];
      ScanPokesOnce(front, now, t, a);
      assert PokeRows(targets, now)[..|targets| - 1] == PokeRows(front, now);
      assert t in front ==> t != targets[|targets| - 1];
      assert targets == front + [targets[|targets| - 1]];
    }
  }

  lemma {:induction false} UserAnchorAppend(xs: seq<MessageRow>, ys: seq<MessageRow>, t: string, a: int)
    requires forall i :: 0 <= i < |ys| ==> ys[i].role != "user"
    ensures UserAnchor(xs + ys, t, a) == UserAnchor(xs, t, a)
    decreases |ys|
  {
    if ys == [] {
      assert xs + ys == xs;
    } else {
      assert (xs + ys)[..|xs + ys| - 1] == xs + ys[..|ys| - 1];
      UserAnchorAppend(xs, ys[..|ys| - 1], t, a);
    }
  }

  lemma OneRow(m: MessageRow, t: string, a: int)
    ensures UserAnchor([m], t, a)
         == if m.threadId == t && m.role == "user" && !m.deleted && m.createdAt > a then Some(m.createdAt) else None
    ensures PokesSince([m], t, a)
         == if m.threadId == t && m.role == "developer" && !m.deleted && m.createdAt > a && m.isPoke then 1 else 0
  {
    assert [m][..0] == [];
  }

  // ----- the chain of turns -----

  function TurnTimes(turns: seq<Turn>, t: string): seq<int> {
    if turns == [] then []
    else
      TurnTimes(turns[..|turns| - 1], t)
      + if turns[|turns| - 1].threadId == t then [turns[|turns| - 1].createdAt] else []
  }

  /** From the `start`th turn of the thread on, each turn follows the one before it within
      the cache's lifetime. */
  ghost predicate Unbroken(times: seq<int>, start: nat, ttl: int) {
    start < |times| && forall i {:trigger times[i]} :: start < i < |times| ==> times[i] - times[i - 1] < ttl
  }

  /** At `clock`, within the period that began with the scan at `scan`: the chain is unbroken,
      and the latest turn's cache outlives the period. */
  ghost predicate StaysWarm(db: Db, o: Settings, t: string, start: nat, scan: int, clock: int)
    requires t in o.policies
  {
    var turn := LatestTurn(db.turns, t);
    var times := TurnTimes(db.turns, t);
    && turn.Some? && CacheActive(turn.value)
    && scan <= clock <= scan + o.scanInterval && turn.value.createdAt <= clock
    && scan + o.scanInterval < turn.value.createdAt + o.policies[t].ttl
    && Unbroken(times, start, o.policies[t].ttl)
    && times[|times| - 1] == turn.value.createdAt
  }

  /** A run on the driver's timetable, on which the thread's gates are open at each scan and
      its own turns use the cache. */
  ghost predicate OnTimetable(db: Db, o: Settings, t: string, scan: int, clock: int, events: seq<Event>)
    decreases |events|
  {
    events == [] ||
    var e := events[0];
    Enabled(db, o, e) &&
    match e
    case Scanned(now, targets, _) =>
      now == scan + o.scanInterval && GatesOpen(db, o, now, t) && (Selected(db, o, now, t) ==> t in targets)
      && OnTimetable(Apply(db, e), o, t, now, now, events[1..])
    case Took(turn) =>
      if turn.threadId == t then
        clock <= turn.createdAt <= scan + o.scanInterval && CacheActive(turn)
        && OnTimetable(Apply(db, e), o, t, scan, turn.createdAt, events[1..])
      else OnTimetable(Apply(db, e), o, t, scan, clock, events[1..])
    case _ => OnTimetable(Apply(db, e), o, t, scan, clock, events[1..])
  }

  lemma AppendTurn(turns: seq<Turn>, turn: Turn, t: string)
    ensures TurnTimes(turns + [turn], t) == TurnTimes(turns, t) + if turn.threadId == t then [turn.createdAt] else []
    ensures turn.threadId != t ==> LatestTurn(turns + [turn], t) == LatestTurn(turns, t)
    ensures turn.threadId == t && (LatestTurn(turns, t) == None || LatestTurn(turns, t).value.createdAt <= turn.createdAt)
      ==> LatestTurn(turns + [turn], t) == Some(turn)
  {
    assert (turns + [turn])[..|turns|] == turns;
  }

  lemma {:induction false} OtherTurns(turns: seq<Turn>, more: seq<Turn>, t: string)
    requires forall i :: 0 <= i < |more| ==> more[i].threadId != t
    ensures TurnTimes(turns + more, t) == TurnTimes(turns, t)
    ensures LatestTurn(turns + more, t) == LatestTurn(turns, t)
    decreases |more|
  {
    if more == [] {
      assert turns + more == turns;
    } else {
      var front, last := more[..|more| - 1], more[|more| - 1];
      OtherTurns(turns, front, t);
      assert turns + more == (turns + front) + [last];
      AppendTurn(turns + front, last, t);
    }
  }

  ghost predicate NoneOf(turns: seq<Turn>, t: string) {
    forall i :: 0 <= i < |turns| ==> turns[i].threadId != t
  }

  /** A batch with one turn of the thread. */
  lemma OneTurn(turns: seq<Turn>, u: seq<Turn>, turn: Turn, w: seq<Turn>, t: string)
    requires turn.threadId == t && NoneOf(u, t) && NoneOf(w, t)
    requires LatestTurn(turns, t) == None || LatestTurn(turns, t).value.createdAt <= turn.createdAt
    ensures TurnTimes(turns + (u + [turn] + w), t) == TurnTimes(turns, t) + [turn.createdAt]
    ensures LatestTurn(turns + (u + [turn] + w), t) == Some(turn)
  {
    assert turns + (u + [turn] + w) == ((turns + u) + [turn]) + w;
    OtherTurns(turns, u, t);
    AppendTurn(turns + u, turn, t);
    OtherTurns((turns + u) + [turn], w, t);
  }

  /** A turn within the period carries the chain on. */
  lemma TurnKeepsWarm(db: Db, o: Settings, t: string, start: nat, scan: int, clock: int, turn: Turn)
    requires t in o.policies && o.scanInterval < o.policies[t].ttl
    requires StaysWarm(db, o, t, start, scan, clock)
    requires turn.threadId == t && CacheActive(turn) && clock <= turn.createdAt <= scan + o.scanInterval
    ensures StaysWarm(Apply(db, Took(turn)), o, t, start, scan, turn.createdAt)
  {
    AppendTurn(db.turns, turn, t);
  }

  lemma ChainGrows(times: seq<int>, start: nat, ttl: int, now: int)
    requires Unbroken(times, start, ttl) && now - times[|times| - 1] < ttl
    ensures Unbroken(times + [now], start, ttl)
  {
  }

  lemma ScanTurns(db: Db, o: Settings, t: string, e: Event) returns (k: nat)
    requires e.Scanned? && Enabled(db, o, e) && t in e.targets
    ensures k < |e.pokeTurns| && e.pokeTurns[k].threadId == t
    ensures NoneOf(e.pokeTurns[..k], t) && NoneOf(e.pokeTurns[k + 1..], t)
  {
    k :| 0 <= k < |e.targets| && e.targets[k] == t;
    assert NoneOf(e.pokeTurns[..k], t) by {
      forall i | 0 <= i < k ensures e.pokeTurns[i].threadId != t { assert e.targets[i] != e.targets[k]; }
    }
    assert NoneOf(e.pokeTurns[k + 1..], t) by {
      forall i | k < i < |e.targets| ensures e.pokeTurns[i].threadId != t { assert e.targets[k] != e.targets[i]; }
    }
  }

  lemma {:induction false} ScanKeepsWarm(db: Db, o: Settings, t: string, start: nat, scan: int, clock: int, e: Event)
    requires t in o.policies && 0 < o.scanInterval < o.policies[t].ttl
    requires StaysWarm(db, o, t, start, scan, clock) && Enabled(db, o, e)
    requires e.Scanned? && e.now == scan + o.scanInterval && GatesOpen(db, o, e.now, t)
    requires Selected(db, o, e.now, t) ==> t in e.targets
    ensures StaysWarm(Apply(db, e), o, t, start, e.now, e.now)
  {
    if t in e.targets {
      var k := ScanTurns(db, o, t, e);
      assert e.pokeTurns == e.pokeTurns[..k] + [e.pokeTurns[k]] + e.pokeTurns[k + 1..];
      OneTurn(db.turns, e.pokeTurns[..k], e.pokeTurns[k], e.pokeTurns[k + 1..], t);
      ChainGrows(TurnTimes(db.turns, t), start, o.policies[t].ttl, e.now);
    } else {
      assert !InWindow(db, o, e.now, t);
      assert NoneOf(e.pokeTurns, t);
      OtherTurns(db.turns, e.pokeTurns, t);
    }
  }

  /** At each scan of a run the thread is warm. */
  ghost predicate WarmAtScans(db: Db, o: Settings, t: string, events: seq<Event>)
    requires t in o.policies
    decreases |events|
  {
    events != [] ==>
      && (events[0].Scanned? ==> PredictedWarm(db, t, o.policies[t].ttl, events[0].now))
      && WarmAtScans(Apply(db, events[0]), o, t, events[1..])
  }

  /** The scan and the clock after one event of a run. */
  function ScanAfter(scan: int, e: Event): int {
    if e.Scanned? then e.now else scan
  }

  function ClockAfter(t: string, clock: int, e: Event): int {
    if e.Scanned? then e.now else if e.Took? && e.turn.threadId == t then e.turn.createdAt else clock
  }

  lemma EventKeepsWarm(db: Db, o: Settings, t: string, start: nat, scan: int, clock: int, events: seq<Event>)
    requires t in o.policies && 0 < o.scanInterval < o.policies[t].ttl
    requires StaysWarm(db, o, t, start, scan, clock) && OnTimetable(db, o, t, scan, clock, events) && events != []
    ensures var e := events[0]; var scan', clock' := ScanAfter(scan, e), ClockAfter(t, clock, e);
      && StaysWarm(Apply(db, e), o, t, start, scan', clock')
      && OnTimetable(Apply(db, e), o, t, scan', clock', events[1..])
      && clock <= clock'
      && (e.Scanned? ==> PredictedWarm(db, t, o.policies[t].ttl, e.now))
  {
    var e := events[0];
    if e.Scanned? {
      ScanKeepsWarm(db, o, t, start, scan, clock, e);
    } else if e.Took? && e.turn.threadId == t {
      TurnKeepsWarm(db, o, t, start, scan, clock, e.turn);
    } else if e.Took? {
      AppendTurn(db.turns, e.turn, t);
    }
  }

  /** While a thread's gates stay open, its cache never lapses: successive turns are less than
      the cache's lifetime apart, and the latest one is still warm at each scan and at the end. */
  lemma {:induction false} RunStaysWarm(
    db: Db, o: Settings, t: string, start: nat, scan: int, clock: int, events: seq<Event>)
      returns (lastScan: int, lastClock: int)
    requires t in o.policies && 0 < o.scanInterval < o.policies[t].ttl
    requires StaysWarm(db, o, t, start, scan, clock) && OnTimetable(db, o, t, scan, clock, events)
    ensures StaysWarm(After(db, events), o, t, start, lastScan, lastClock)
    ensures lastClock >= clock
    ensures PredictedWarm(After(db, events), t, o.policies[t].ttl, lastClock)
    ensures WarmAtScans(db, o, t, events)
    decreases |events|
  {
    if events == [] {
      lastScan, lastClock := scan, clock;
    } else {
      var e := events[0];
      EventKeepsWarm(db, o, t, start, scan, clock, events);
      lastScan, lastClock :=
        RunStaysWarm(Apply(db, e), o, t, start, ScanAfter(scan, e), ClockAfter(t, clock, e), events[1..]);
    }
  }

  /** Any cache-active turn starts a chain, wherever it falls between two scans. */
  lemma TurnStartsChain(db: Db, o: Settings, t: string, scan: int, turn: Turn)
    requires t in o.policies && 0 < o.scanInterval < o.policies[t].ttl
    requires turn.threadId == t && CacheActive(turn) && scan <= turn.createdAt <= scan + o.scanInterval
    requires LatestTurn(db.turns, t).Some? ==> LatestTurn(db.turns, t).value.createdAt <= turn.createdAt
    ensures StaysWarm(Apply(db, Took(turn)), o, t, |TurnTimes(db.turns, t)|, scan, turn.createdAt)
  {
    AppendTurn(db.turns, turn, t);
  }

  /** A cache-active turn of the thread, its latest, between the scan at `scan` and the next. */
  ghost predicate Starts(db: Db, o: Settings, t: string, scan: int, turn: Turn) {
    && turn.threadId == t && CacheActive(turn) && scan <= turn.createdAt <= scan + o.scanInterval
    && (LatestTurn(db.turns, t).Some? ==> LatestTurn(db.turns, t).value.createdAt <= turn.createdAt)
  }

  /** Whenever a turn has warmed the cache, every later scan finds it warm, for as long as the
      gates stay open. */
  ghost predicate NeverLapses(o: Settings, t: string)
    requires t in o.policies
  {
    forall db, scan, turn, events :: Starts(db, o, t, scan, turn)
      && OnTimetable(Apply(db, Took(turn)), o, t, scan, turn.createdAt, events)
      ==> WarmAtScans(Apply(db, Took(turn)), o, t, events)
  }

  /** For a backend that is poked at all, that holds exactly when the scan period is shorter
      than the cache's lifetime. */
  lemma NeverLapsesIff(o: Settings, t: string)
    requires t in o.policies && o.policies[t].maxPokes > 0 && o.scanInterval > 0
    ensures NeverLapses(o, t) <==> o.scanInterval < o.policies[t].ttl
  {
    if o.scanInterval < o.policies[t].ttl {
      forall db, scan, turn, events |
        Starts(db, o, t, scan, turn) && OnTimetable(Apply(db, Took(turn)), o, t, scan, turn.createdAt, events)
        ensures WarmAtScans(Apply(db, Took(turn)), o, t, events)
      {
        TurnStartsChain(db, o, t, scan, turn);
        var lastScan, lastClock :=
          RunStaysWarm(Apply(db, Took(turn)), o, t, |TurnTimes(db.turns, t)|, scan, turn.createdAt, events);
      }
    } else {
      LongPeriodLapses(o, t);
    }
  }

  /** A turn at the instant of a scan is cold at the next one when the period is too long. */
  lemma LongPeriodLapses(o: Settings, t: string)
    requires t in o.policies && o.policies[t].maxPokes > 0 && o.scanInterval > 0
    requires o.scanInterval >= o.policies[t].ttl
    ensures !NeverLapses(o, t)
  {
    var now := o.scanInterval;
    var ask := MessageRow(t, "user", now - o.activeWindow + 1, false, false);
    var db, turn, scanned := Db([ask], [], [], [], {}), Turn(t, 0, Some(1), None), Scanned(now, [], []);
    var warmed := Apply(db, Took(turn));
    assert LatestTurn(warmed.turns, t) == Some(turn) by { AppendTurn([], turn, t); }
    assert GatesOpen(warmed, o, now, t) by {
      OneRow(ask, t, now - o.activeWindow);
      OneRow(ask, t, ask.createdAt);
    }
    assert Enabled(warmed, o, scanned);
    assert [scanned][1..] == [];
    assert OnTimetable(Apply(warmed, scanned), o, t, now, now, []);
    assert OnTimetable(warmed, o, t, 0, 0, [scanned]);
    assert Starts(db, o, t, 0, turn);
    assert !PredictedWarm(warmed, t, o.policies[t].ttl, now);
    assert !WarmAtScans(warmed, o, t, [scanned]);
  }

  /** A user message that is recent enough for the first two scans. */
  function Ask(o: Settings, t: string): MessageRow {
    MessageRow(t, "user", 2 * o.scanInterval - o.activeWindow + 1, false, false)
  }

  /** A thread with that message and one cache-active turn. */
  function Asked(o: Settings, t: string, at: int): Db {
    Db([Ask(o, t)], [], [Turn(t, at, Some(1), None)], [], {})
  }

  /** The first scan pokes it. */
  function FirstPoke(o: Settings, t: string): Event {
    Scanned(o.scanInterval, [t], [Turn(t, o.scanInterval, Some(1), None)])
  }

  lemma AskedGates(o: Settings, t: string, at: int, now: int)
    requires t in o.policies && o.policies[t].maxPokes > 0 && now <= 2 * o.scanInterval
    ensures GatesOpen(Asked(o, t, at), o, now, t)
    ensures LatestTurn(Asked(o, t, at).turns, t) == Some(Turn(t, at, Some(1), None))
  {
    OneRow(Ask(o, t), t, now - o.activeWindow);
    OneRow(Ask(o, t), t, Ask(o, t).createdAt);
    var turn := Turn(t, at, Some(1), None);
    AppendTurn([], turn, t);
    assert [] + [turn] == [turn];
  }

  lemma {:induction false} PokedGates(o: Settings, t: string, at: int)
    requires t in o.policies && o.policies[t].maxPokes > 1 && at <= o.scanInterval && o.scanInterval > 0
    ensures var poked := Apply(Asked(o, t, at), FirstPoke(o, t));
      && GatesOpen(poked, o, 2 * o.scanInterval, t)
      && LatestTurn(poked.turns, t) == Some(FirstPoke(o, t).pokeTurns[0])
  {
    var ask, rows := Ask(o, t), PokeRows([t], o.scanInterval);
    var poked := Apply(Asked(o, t, at), FirstPoke(o, t));
    assert Anchor(poked, t, 2 * o.scanInterval - o.activeWindow) == Some(ask.createdAt) by {
      OneRow(ask, t, 2 * o.scanInterval - o.activeWindow);
      UserAnchorAppend([ask], rows, t, 2 * o.scanInterval - o.activeWindow);
    }
    assert PokesSince(poked.messages, t, ask.createdAt) <= 1 by {
      OneRow(ask, t, ask.createdAt);
      PokesAppend([ask], rows, t, ask.createdAt);
      ScanPokesOnce([t], o.scanInterval, t, ask.createdAt);
    }
    AskedGates(o, t, at, o.scanInterval);
    AppendTurn(Asked(o, t, at).turns, FirstPoke(o, t).pokeTurns[0], t);
  }

  /** A period of exactly the lifetime: a turn between two scans is poked by the second, but
      the third, with the gates open, finds the poke's own turn just gone cold. */
  lemma {:induction false} PeriodOfTheLifetime(o: Settings, t: string, at: int)
    requires t in o.policies && o.policies[t].maxPokes > 1 && 0 < at <= o.scanInterval == o.policies[t].ttl
    ensures var db := Asked(o, t, at); var poked := Apply(db, FirstPoke(o, t)); var next := 2 * o.scanInterval;
      && Enabled(db, o, FirstPoke(o, t))
      && GatesOpen(poked, o, next, t) && !Selected(poked, o, next, t)
      && !PredictedWarm(poked, t, o.policies[t].ttl, next)
  {
    AskedGates(o, t, at, o.scanInterval);
    PokedGates(o, t, at);
  }
}
