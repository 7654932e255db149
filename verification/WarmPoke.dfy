/** Selecting the threads whose prompt cache is about to lapse. Timestamps are milliseconds. */
module WarmPoke {
  import opened Results

  datatype MessageRow = MessageRow(threadId: string, role: string, createdAt: int, deleted: bool, isPoke: bool)
  datatype Task = Task(threadId: Option<string>, noHistory: bool, deleted: bool, lastRunAt: Option<int>)
  datatype Turn = Turn(threadId: string, createdAt: int, cacheRead: Option<int>, cacheWrite: Option<int>)
  datatype Thread = Thread(id: string, clientTool: bool, deleted: bool)
  datatype Policy = Policy(ttl: int, maxPokes: int)

  datatype Db = Db(messages: seq<MessageRow>, tasks: seq<Task>, turns: seq<Turn>, threads: seq<Thread>, live: set<string>)

  /** The driver's settings; `policies` lacks a thread whose backend does not cache. */
  datatype Settings = Settings(policies: map<string, Policy>, scanInterval: int, activeWindow: int)

  // ----- the queries -----

  function Later(a: Option<int>, b: Option<int>): Option<int> {
    if a == None then b else if b == None || a.value >= b.value then a else b
  }

  predicate IsActivity(m: MessageRow, threadId: string, cutoff: int) {
    m.role == "user" && !m.deleted && m.createdAt > cutoff && m.threadId == threadId
  }

  /** The thread's newest user message after the cutoff. */
  function UserAnchor(messages: seq<MessageRow>, threadId: string, cutoff: int): Option<int> {
    if messages == [] then None
    else
      var m := messages[|messages| - 1];
      Later(UserAnchor(messages[..|messages| - 1], threadId, cutoff),
            if IsActivity(m, threadId, cutoff) then Some(m.createdAt) else None)
  }

  predicate IsRun(t: Task, threadId: string, cutoff: int) {
    t.noHistory && !t.deleted && t.threadId == Some(threadId) && t.lastRunAt.Some? && t.lastRunAt.value > cutoff
  }

  /** The newest run after the cutoff of a task that keeps no history. */
  function CronAnchor(tasks: seq<Task>, threadId: string, cutoff: int): Option<int> {
    if tasks == [] then None
    else
      var t := tasks[|tasks| - 1];
      Later(CronAnchor(tasks[..|tasks| - 1], threadId, cutoff),
            if IsRun(t, threadId, cutoff) then t.lastRunAt else None)
  }

  function UserThreads(db: Db, cutoff: int): map<string, int> {
    map t | t in (set m <- db.messages :: m.threadId) && UserAnchor(db.messages, t, cutoff).Some?
      :: UserAnchor(db.messages, t, cutoff).value
  }

  function CronThreads(db: Db, cutoff: int): map<string, int> {
    map t | t in (set k <- db.tasks | k.threadId.Some? :: k.threadId.value) && CronAnchor(db.tasks, t, cutoff).Some?
      :: CronAnchor(db.tasks, t, cutoff).value
  }

  function LatestTurn(turns: seq<Turn>, threadId: string): Option<Turn> {
    if turns == [] then None
    else
      var last := turns[|turns| - 1];
      var best := LatestTurn(turns[..|turns| - 1], threadId);
      if last.threadId == threadId && (best == None || last.createdAt >= best.value.createdAt) then Some(last) else best
  }

  predicate IsPokeSince(m: MessageRow, threadId: string, anchor: int) {
    m.threadId == threadId && m.role == "developer" && !m.deleted && m.createdAt > anchor && m.isPoke
  }

  function PokesSince(messages: seq<MessageRow>, threadId: string, anchor: int): nat {
    if messages == [] then 0
    else
      PokesSince(messages[..|messages| - 1], threadId, anchor)
      + if IsPokeSince(messages[|messages| - 1], threadId, anchor) then 1 else 0
  }

  predicate CacheActive(turn: Turn) {
    (turn.cacheRead.Some? && turn.cacheRead.value > 0) || (turn.cacheWrite.Some? && turn.cacheWrite.value > 0)
  }

  predicate PredictedWarm(db: Db, threadId: string, ttl: int, now: int) {
    var turn := LatestTurn(db.turns, threadId);
    turn.Some? && CacheActive(turn.value) && now - turn.value.createdAt < ttl
  }

  predicate Abandoned(db: Db, threadId: string) {
    (exists t <- db.threads :: t.id == threadId && !t.deleted && t.clientTool) && threadId !in db.live
  }

  // ----- the code -----

  method SelectWarmPokeTargets(db: Db, o: Settings, now: int) returns (targets: seq<string>)
    ensures forall t :: t in targets <==> Selected(db, o, now, t)
    ensures forall i, j :: 0 <= i < j < |targets| ==> targets[i] != targets[j]
  {
    var cutoff := now - o.activeWindow;
    var candidates := UserThreads(db, cutoff);
    var crons := CronThreads(db, cutoff);
    var rest := crons.Keys;
    while rest != {}
      invariant rest <= crons.Keys
      invariant forall t ::
        Lookup(candidates, t) == Later(Lookup(UserThreads(db, cutoff), t), if t in rest then None else Lookup(crons, t))
      decreases rest
    {
      var t :| t in rest;
      if t !in candidates || crons[t] > candidates[t] { candidates := candidates[t := crons[t]]; }
      rest := rest - {t};
    }
    forall t ensures Lookup(candidates, t) == Anchor(db, t, cutoff) { QueriesFindAnchors(db, t, cutoff); }

    targets := [];
    rest := candidates.Keys;
    while rest != {}
      invariant rest <= candidates.Keys
      invariant forall t :: t in targets <==> t in candidates && t !in rest && Selected(db, o, now, t)
      invariant forall i, j :: 0 <= i < j < |targets| ==> targets[i] != targets[j]
      decreases rest
    {
      var t :| t in rest;
      rest := rest - {t};
      var anchor := candidates[t];
      assert Anchor(db, t, cutoff) == Some(anchor);
      if t !in o.policies { continue; }
      var policy := o.policies[t];
      var turn := LatestTurn(db.turns, t);
      if turn == None { continue; }
      if !PredictedWarm(db, t, policy.ttl, now) { continue; }
      var msSinceTurn := now - turn.value.createdAt;
      if msSinceTurn < policy.ttl - o.scanInterval { continue; }
      if PokesSince(db.messages, t, anchor) >= policy.maxPokes { continue; }
      if Abandoned(db, t) { continue; }
      targets := targets + [t];
    }
  }

  function Lookup(m: map<string, int>, t: string): Option<int> {
    if t in m then Some(m[t]) else None
  }

  /** The last real activity after the cutoff. */
  function Anchor(db: Db, t: string, cutoff: int): Option<int> {
    Later(UserAnchor(db.messages, t, cutoff), CronAnchor(db.tasks, t, cutoff))
  }

  // ----- which threads are poked -----

  /** Everything but the time since the last turn speaks for a poke. */
  predicate GatesOpen(db: Db, o: Settings, now: int, t: string) {
    var anchor := Anchor(db, t, now - o.activeWindow);
    anchor.Some? && t in o.policies
    && PokesSince(db.messages, t, anchor.value) < o.policies[t].maxPokes
    && !Abandoned(db, t)
  }

  /** The latest turn used the cache, which would lapse before the next scan but has not yet. */
  predicate InWindow(db: Db, o: Settings, now: int, t: string)
    requires t in o.policies
  {
    var turn := LatestTurn(db.turns, t);
    turn.Some? && CacheActive(turn.value)
    && o.policies[t].ttl - o.scanInterval <= now - turn.value.createdAt < o.policies[t].ttl
  }

  predicate Selected(db: Db, o: Settings, now: int, t: string) {
    GatesOpen(db, o, now, t) && InWindow(db, o, now, t)
  }

  lemma {:induction false} UserAnchorHasRow(messages: seq<MessageRow>, t: string, cutoff: int)
    requires UserAnchor(messages, t, cutoff).Some?
    ensures exists m :: m in messages && m.threadId == t
  {
    var front, last := messages[..|messages| - 1], messages[|messages| - 1];
    if IsActivity(last, t, cutoff) {
      assert last in messages;
    } else {
      UserAnchorHasRow(front, t, cutoff);
      var m :| m in front && m.threadId == t;
      assert m in messages;
    }
  }

  lemma {:induction false} CronAnchorHasRow(tasks: seq<Task>, t: string, cutoff: int)
    requires CronAnchor(tasks, t, cutoff).Some?
    ensures exists k :: k in tasks && k.threadId == Some(t)
  {
    var front, last := tasks[..|tasks| - 1], tasks[|tasks| - 1];
    if IsRun(last, t, cutoff) {
      assert last in tasks;
    } else {
      CronAnchorHasRow(front, t, cutoff);
      var k :| k in front && k.threadId == Some(t);
      assert k in tasks;
    }
  }

  lemma QueriesFindAnchors(db: Db, t: string, cutoff: int)
    ensures Later(Lookup(UserThreads(db, cutoff), t), Lookup(CronThreads(db, cutoff), t)) == Anchor(db, t, cutoff)
  {
    if UserAnchor(db.messages, t, cutoff).Some? { UserAnchorHasRow(db.messages, t, cutoff); }
    if CronAnchor(db.tasks, t, cutoff).Some? { CronAnchorHasRow(db.tasks, t, cutoff); }
  }

  // ----- what the queries and the session gate say -----

  /** A thread is anchored at its latest activity after the cutoff: a user message that is not
      deleted, or a run of a task that keeps no history and is not deleted. */
  lemma {:induction false} UserAnchorExact(messages: seq<MessageRow>, t: string, cutoff: int)
    ensures UserAnchor(messages, t, cutoff).Some? ==>
      exists m ::
        && m in messages && m.role == "user" && !m.deleted && m.threadId == t
        && m.createdAt == UserAnchor(messages, t, cutoff).value > cutoff
    ensures forall m ::
      m in messages && m.role == "user" && !m.deleted && m.threadId == t && m.createdAt > cutoff
      ==> UserAnchor(messages, t, cutoff).Some? && m.createdAt <= UserAnchor(messages, t, cutoff).value
  {
    if messages != [] {
      var front, last := messages[..|messages| - 1], messages[|messages| - 1];
      UserAnchorExact(front, t, cutoff);
      assert forall m :: m in messages <==> m in front || m == last;
    }
  }

  lemma {:induction false} CronAnchorExact(tasks: seq<Task>, t: string, cutoff: int)
    ensures CronAnchor(tasks, t, cutoff).Some? ==>
      exists k ::
        && k in tasks && k.noHistory && !k.deleted && k.threadId == Some(t)
        && k.lastRunAt == CronAnchor(tasks, t, cutoff) && k.lastRunAt.value > cutoff
    ensures forall k ::
      k in tasks && k.noHistory && !k.deleted && k.threadId == Some(t) && k.lastRunAt.Some? && k.lastRunAt.value > cutoff
      ==> CronAnchor(tasks, t, cutoff).Some? && k.lastRunAt.value <= CronAnchor(tasks, t, cutoff).value
  {
    if tasks != [] {
      var front, last := tasks[..|tasks| - 1], tasks[|tasks| - 1];
      CronAnchorExact(front, t, cutoff);
      assert forall k :: k in tasks <==> k in front || k == last;
    }
  }

  lemma AnchorIsLatest(db: Db, t: string, cutoff: int)
    ensures Anchor(db, t, cutoff).Some? <==> UserAnchor(db.messages, t, cutoff).Some? || CronAnchor(db.tasks, t, cutoff).Some?
    ensures var a := Anchor(db, t, cutoff);
      a.Some? ==>
        && a in {UserAnchor(db.messages, t, cutoff), CronAnchor(db.tasks, t, cutoff)}
        && (UserAnchor(db.messages, t, cutoff).Some? ==> UserAnchor(db.messages, t, cutoff).value <= a.value)
        && (CronAnchor(db.tasks, t, cutoff).Some? ==> CronAnchor(db.tasks, t, cutoff).value <= a.value)
  {
  }

  /** The turn looked at is the thread's latest. */
  lemma {:induction false} LatestTurnExact(turns: seq<Turn>, t: string)
    ensures LatestTurn(turns, t).Some? ==> LatestTurn(turns, t).value in turns && LatestTurn(turns, t).value.threadId == t
    ensures forall turn ::
      turn in turns && turn.threadId == t
      ==> LatestTurn(turns, t).Some? && turn.createdAt <= LatestTurn(turns, t).value.createdAt
  {
    if turns != [] {
      var front, last := turns[..|turns| - 1], turns[|turns| - 1];
      LatestTurnExact(front, t);
      assert forall turn :: turn in turns <==> turn in front || turn == last;
    }
  }

  /** Where the other gates are open, a thread is selected exactly when its latest turn read or
      wrote the cache, less than a lifetime ago but no less than a lifetime save one scan. */
  lemma SelectedWindow(db: Db, o: Settings, now: int, t: string)
    requires GatesOpen(db, o, now, t)
    ensures Selected(db, o, now, t) <==>
      match LatestTurn(db.turns, t)
      case None => false
      case Some(Turn(_, at, read, write)) =>
        && ((read.Some? && read.value > 0) || (write.Some? && write.value > 0))
        && at + o.policies[t].ttl - o.scanInterval <= now < at + o.policies[t].ttl
  {
  }

  /** A thread served by client tools is poked only while its session is live; whether a session
      is live matters to no other thread. */
  lemma LivenessMatters(db: Db, o: Settings, now: int, t: string, live: set<string>)
    ensures (exists row :: row in db.threads && row.id == t && !row.deleted && row.clientTool)
      ==> (Selected(db.(live := live), o, now, t) <==> t in live && Selected(db.(live := {t}), o, now, t))
    ensures (forall row :: row in db.threads && row.id == t ==> row.deleted || !row.clientTool)
      ==> (Selected(db.(live := live), o, now, t) <==> Selected(db, o, now, t))
  {
  }

  lemma MulMonotone(a: int, b: int, n: int)
    requires a <= b && n > 0
    ensures a * n <= b * n
  {
  }

  /** With scans every `period` from `first` on, exactly one falls into the last period before
      a turn's cache lapses, and it does not precede the turn. */
  lemma {:induction false} ExactlyOneScan(first: int, period: int, ttl: int, turn: int, k: int)
    requires 0 < period <= ttl
    ensures var only := (turn + ttl - 1 - first) / period;
      && (turn + ttl - period <= first + k * period < turn + ttl <==> k == only)
      && first + only * period >= turn
  {
    var x := turn + ttl - 1 - first;
    var only := x / period;
    assert x == only * period + x % period;
    if k < only {
      MulMonotone(k, only - 1, period);
      assert (only - 1) * period == only * period - period;
    } else if k > only {
      MulMonotone(only + 1, k, period);
      assert (only + 1) * period == only * period + period;
    }
  }
}
