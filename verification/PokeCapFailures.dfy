/** Runs from an empty database on which the cap on warm pokes is exceeded: one poke is allowed,
    two are made after the only real activity that is left. */
module PokeCapFailures {
  import opened Results
  import opened WarmPoke
  import opened WarmPokeRuns
  import opened PokeCap

  function OnePoke(t: string): Settings {
    Settings(map[t := Policy(10, 1)], 6, 100)
  }

  function User(t: string, at: int): MessageRow {
    MessageRow(t, "user", at, false, false)
  }

  function Warming(t: string, at: int): Turn {
    Turn(t, at, Some(1), None)
  }

  function Poked(t: string, now: int): Event {
    Scanned(now, [t], [Warming(t, now)])
  }

  /** A question, an answer, and the one poke that is allowed. */
  function Opening(t: string): seq<Event> {
    [Posted(User(t, 1)), Took(Warming(t, 2)), Poked(t, 10)]
  }

  function PokeRow(t: string, now: int): MessageRow {
    MessageRow(t, "developer", now, false, true)
  }

  /** The state that the opening leads to. */
  function Opened(t: string): State {
    State(Db([User(t, 1), PokeRow(t, 10)], [], [Warming(t, 2), Warming(t, 10)], [], {}), [Poke(t, 10)])
  }

  // ----- putting runs together -----

  lemma {:induction false} Continue(s: State, o: Settings, a: seq<Event>, b: seq<Event>)
    requires IsRunOf(s, o, a) && IsRunOf(Played(s, a), o, b)
    ensures IsRunOf(s, o, a + b) && Played(s, a + b) == Played(Played(s, a), b)
    decreases |a|
  {
    if a == [] {
      assert a + b == b;
    } else {
      assert (a + b)[1..] == a[1..] + b;
      Continue(Step(s, a[0]), o, a[1..], b);
    }
  }

  lemma OneEvent(s: State, o: Settings, e: Event)
    requires Enabled(s.db, o, e)
    ensures IsRunOf(s, o, [e]) && Played(s, [e]) == Step(s, e)
  {
    assert [e][1..] == [];
  }

  /** One more event at the end of a run. */
  lemma OneMore(s: State, o: Settings, events: seq<Event>, e: Event)
    requires IsRunOf(s, o, events) && Enabled(Played(s, events).db, o, e)
    ensures IsRunOf(s, o, events + [e]) && Played(s, events + [e]) == Step(Played(s, events), e)
  {
    OneEvent(Played(s, events), o, e);
    Continue(s, o, events, [e]);
  }

  lemma Selects(db: Db, t: string, now: int, last: int, turn: Turn)
    requires LastActivity(db, t) == Some(last) && now - 100 < last && PokesSince(db.messages, t, last) == 0
    requires LatestTurn(db.turns, t) == Some(turn) && CacheActive(turn) && 4 <= now - turn.createdAt < 10
    requires db.threads == []
    ensures Selected(db, OnePoke(t), now, t) && Enabled(db, OnePoke(t), Poked(t, now))
  {
    AnchorIsLast(db, t, now - 100);
  }

  lemma OpeningRuns(t: string)
    ensures IsRunOf(Empty({}), OnePoke(t), Opening(t)) && Played(Empty({}), Opening(t)) == Opened(t)
  {
    var o, ask, turn := OnePoke(t), User(t, 1), Warming(t, 2);
    var s0 := Empty({});
    var s1 := State(Db([ask], [], [], [], {}), []);
    var s2 := State(Db([ask], [], [turn], [], {}), []);
    assert Step(s0, Posted(ask)) == s1 && Step(s1, Took(turn)) == s2;
    OneEvent(s0, o, Posted(ask));
    OneMore(s0, o, [Posted(ask)], Took(turn));
    NewestOne(ask, Asking(t));
    OneRow(ask, t, 1);
    AppendTurn([], turn, t);
    assert [] + [turn] == [turn];
    Selects(s2.db, t, 10, 1, turn);
    assert Step(s2, Poked(t, 10)) == Opened(t);
    OneMore(s0, o, [Posted(ask)] + [Took(turn)], Poked(t, 10));
    assert [Posted(ask)] + [Took(turn)] + [Poked(t, 10)] == Opening(t);
  }

  lemma OpenedFacts(t: string)
    ensures var db := Opened(t).db;
      && Newest(db.messages, Asking(t)) == Some(1) && LatestTurn(db.turns, t) == Some(Warming(t, 10))
      && forall a :: PokesSince(db.messages, t, a) == if a < 10 then 1 else 0
  {
    var ask, poke := User(t, 1), PokeRow(t, 10);
    assert [ask, poke] == [ask] + [poke];
    NewestAppend([ask], [poke], Asking(t));
    NewestOne(ask, Asking(t));
    NewestOne(poke, Asking(t));
    forall a ensures PokesSince([ask, poke], t, a) == if a < 10 then 1 else 0 {
      PokesAppend([ask], [poke], t, a);
      OneRow(ask, t, a);
      OneRow(poke, t, a);
    }
    AppendTurn([], Warming(t, 2), t);
    AppendTurn([Warming(t, 2)], Warming(t, 10), t);
    assert [] + [Warming(t, 2)] == [Warming(t, 2)];
    assert [Warming(t, 2)] + [Warming(t, 10)] == [Warming(t, 2), Warming(t, 10)];
  }

  lemma TwoMade(t: string)
    ensures MadeAfter([Poke(t, 10), Poke(t, 16)], t, Some(1)) == 2
  {
    assert [Poke(t, 10)] + [Poke(t, 16)] == [Poke(t, 10), Poke(t, 16)];
    MadeAppend([Poke(t, 10)], [Poke(t, 16)], t, Some(1));
    assert [Poke(t, 10)][..0] == [] && [Poke(t, 16)][..0] == [];
  }

  // ----- the failures -----

  /** The poke's row is redacted: the next scan does not see it and pokes again. */
  function AfterRedaction(t: string): seq<Event> {
    Opening(t) + [MessageChanged(1, Redacted(PokeRow(t, 10)))] + [Poked(t, 16)]
  }

  lemma RedactedPokeIsRepeated(t: string)
    ensures IsRunOf(Empty({}), OnePoke(t), AfterRedaction(t))
    ensures !Capped(Played(Empty({}), AfterRedaction(t)), OnePoke(t), t)
  {
    var o, ask, hidden := OnePoke(t), User(t, 1), Redacted(PokeRow(t, 10));
    var redact := MessageChanged(1, hidden);
    OpeningRuns(t);
    OpenedFacts(t);
    OneMore(Empty({}), o, Opening(t), redact);
    var s := Step(Opened(t), redact);
    assert s.db.messages == [ask] + [hidden];
    NewestAppend([ask], [hidden], Asking(t));
    NewestOne(ask, Asking(t));
    NewestOne(hidden, Asking(t));
    PokesAppend([ask], [hidden], t, 1);
    OneRow(ask, t, 1);
    OneRow(hidden, t, 1);
    Selects(s.db, t, 16, 1, Warming(t, 10));
    OneMore(Empty({}), o, Opening(t) + [redact], Poked(t, 16));
    ScanKeepsActivity(s.db, Poked(t, 16), t);
    assert Step(s, Poked(t, 16)).made == [Poke(t, 10), Poke(t, 16)];
    TwoMade(t);
  }

  /** After the opening, activity that the second poke follows and that is then taken back. */
  lemma TwoPeriods(t: string, db: Db)
    requires LastActivity(db, t) == Some(12) && PokesSince(db.messages, t, 12) == 0
    requires LatestTurn(db.turns, t) == Some(Warming(t, 10)) && db.threads == []
    ensures Enabled(db, OnePoke(t), Poked(t, 16))
    ensures LastActivity(Apply(db, Poked(t, 16)), t) == Some(12)
  {
    Selects(db, t, 16, 12, Warming(t, 10));
    ScanKeepsActivity(db, Poked(t, 16), t);
  }

  function Cron(t: string, lastRunAt: Option<int>): Task {
    Task(Some(t), true, false, lastRunAt)
  }

  /** A task of the thread runs between two pokes. */
  function AroundTask(t: string): seq<Event> {
    Opening(t) + [Scheduled(Cron(t, None))] + [TaskChanged(0, Cron(t, Some(12)))] + [Poked(t, 16)]
  }

  /** The state in which the second poke is made. */
  function Rested(t: string): State {
    State(Opened(t).db.(tasks := [Cron(t, Some(12))]), Opened(t).made)
  }

  lemma RestedRuns(t: string)
    ensures var events := Opening(t) + [Scheduled(Cron(t, None))] + [TaskChanged(0, Cron(t, Some(12)))];
      IsRunOf(Empty({}), OnePoke(t), events) && Played(Empty({}), events) == Rested(t)
  {
    var schedule, ran := Scheduled(Cron(t, None)), TaskChanged(0, Cron(t, Some(12)));
    OpeningRuns(t);
    OneMore(Empty({}), OnePoke(t), Opening(t), schedule);
    OneMore(Empty({}), OnePoke(t), Opening(t) + [schedule], ran);
    assert Step(Step(Opened(t), schedule), ran) == Rested(t);
  }

  lemma AroundTaskRuns(t: string)
    ensures IsRunOf(Empty({}), OnePoke(t), AroundTask(t))
    ensures var s := Played(Empty({}), AroundTask(t));
      s.db.tasks == [Cron(t, Some(12))] && s.made == [Poke(t, 10), Poke(t, 16)] && Newest(s.db.messages, Asking(t)) == Some(1)
  {
    var events := Opening(t) + [Scheduled(Cron(t, None))] + [TaskChanged(0, Cron(t, Some(12)))];
    RestedRuns(t);
    OpenedFacts(t);
    assert LastActivity(Rested(t).db, t) == Some(12) by { NewestOne(Cron(t, Some(12)), Running(t)); }
    TwoPeriods(t, Rested(t).db);
    OneMore(Empty({}), OnePoke(t), events, Poked(t, 16));
    ScanKeepsMessages(t, Opened(t).db);
    assert Step(Rested(t), Poked(t, 16)).made == [Poke(t, 10), Poke(t, 16)];
  }

  /** Then its connector is detached, which soft-deletes the task, or its `no_history` is
      cleared: the two periods become one. */
  lemma LostTaskMergesPeriods(t: string, task: Task)
    requires task == Cron(t, Some(12)).(deleted := true) || task == Cron(t, Some(12)).(noHistory := false)
    ensures IsRunOf(Empty({}), OnePoke(t), AroundTask(t) + [TaskChanged(0, task)])
    ensures !Capped(Played(Empty({}), AroundTask(t) + [TaskChanged(0, task)]), OnePoke(t), t)
  {
    AroundTaskRuns(t);
    OneMore(Empty({}), OnePoke(t), AroundTask(t), TaskChanged(0, task));
    var end := Step(Played(Empty({}), AroundTask(t)), TaskChanged(0, task));
    assert end.db.tasks == [task] && end.made == [Poke(t, 10), Poke(t, 16)];
    NewestOne(task, Running(t));
    TwoMade(t);
  }

  lemma ScanKeepsMessages(t: string, db: Db)
    ensures Newest(db.messages + PokeRows([t], 16), Asking(t)) == Newest(db.messages, Asking(t))
  {
    NewestAppend(db.messages, PokeRows([t], 16), Asking(t));
    NoneAsking(PokeRows([t], 16), t);
  }

  /** A second question between the pokes, tombstoned when the database is restored to a point
      before it. */
  function AfterRestore(t: string): seq<Event> {
    Opening(t) + [Posted(User(t, 12))] + [Poked(t, 16)] + [MessageChanged(2, User(t, 12).(deleted := true))]
  }

  lemma RestoreMergesPeriods(t: string)
    ensures IsRunOf(Empty({}), OnePoke(t), AfterRestore(t))
    ensures !Capped(Played(Empty({}), AfterRestore(t)), OnePoke(t), t)
  {
    var o, start := OnePoke(t), Empty({});
    var again, gone := User(t, 12), User(t, 12).(deleted := true);
    OpeningRuns(t);
    OpenedFacts(t);
    OneMore(start, o, Opening(t), Posted(again));
    var s := Step(Opened(t), Posted(again));
    var before := Opened(t).db.messages;
    assert s.db.messages == before + [again];
    NewestAppend(before, [again], Asking(t));
    NewestOne(again, Asking(t));
    PokesAppend(before, [again], t, 12);
    OneRow(again, t, 12);
    TwoPeriods(t, s.db);
    OneMore(start, o, Opening(t) + [Posted(again)], Poked(t, 16));
    var s' := Step(s, Poked(t, 16));
    OneMore(start, o, Opening(t) + [Posted(again)] + [Poked(t, 16)], MessageChanged(2, gone));
    var end := Step(s', MessageChanged(2, gone));
    assert end.db.messages == before + ([gone] + PokeRows([t], 16));
    NewestAppend(before, [gone] + PokeRows([t], 16), Asking(t));
    NewestAppend([gone], PokeRows([t], 16), Asking(t));
    NewestOne(gone, Asking(t));
    NoneAsking(PokeRows([t], 16), t);
    assert end.made == [Poke(t, 10), Poke(t, 16)];
    TwoMade(t);
  }
}
