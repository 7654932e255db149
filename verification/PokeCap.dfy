/** The cap on warm pokes: how many were made since a thread's last real activity, over runs in
    which rows may also be rewritten behind the driver's back. */
module PokeCap {
  import opened Results
  import opened WarmPoke
  import opened WarmPokeRuns

  /** A poke that was made, whatever becomes of its row. */
  datatype Poke = Poke(threadId: string, at: int)

  datatype State = State(db: Db, made: seq<Poke>)

  function MadeBy(e: Event): seq<Poke> {
    if e.Scanned? then seq(|e.targets|, i requires 0 <= i < |e.targets| => Poke(e.targets[i], e.now)) else []
  }

  function Step(s: State, e: Event): State {
    State(Apply(s.db, e), s.made + MadeBy(e))
  }

  function Empty(live: set<string>): State {
    State(Db([], [], [], [], live), [])
  }

  // ----- the last real activity -----

  function Newest<T>(xs: seq<T>, f: T -> Option<int>): Option<int> {
    if xs == [] then None else Later(Newest(xs[..|xs| - 1], f), f(xs[|xs| - 1]))
  }

  /** A live user message is activity of its thread. */
  function Asking(t: string): MessageRow -> Option<int> {
    (m: MessageRow) => if m.role == "user" && !m.deleted && m.threadId == t then Some(m.createdAt) else None
  }

  /** So is the last run of a live task of the thread that keeps no history. */
  function Running(t: string): Task -> Option<int> {
    (k: Task) => if k.noHistory && !k.deleted && k.threadId == Some(t) then k.lastRunAt else None
  }

  function LastActivity(db: Db, t: string): Option<int> {
    Later(Newest(db.messages, Asking(t)), Newest(db.tasks, Running(t)))
  }

  predicate IsAfter(at: int, last: Option<int>) {
    last == None || at > last.value
  }

  /** The pokes of a thread made after `last`, or ever. */
  function MadeAfter(made: seq<Poke>, t: string, last: Option<int>): nat {
    if made == [] then 0
    else
      MadeAfter(made[..|made| - 1], t, last)
      + if made[|made| - 1].threadId == t && IsAfter(made[|made| - 1].at, last) then 1 else 0
  }

  function Cap(o: Settings, t: string): nat {
    if t in o.policies && o.policies[t].maxPokes > 0 then o.policies[t].maxPokes else 0
  }

  /** Since its last real activity the thread was poked at most as often as its policy allows. */
  predicate Capped(s: State, o: Settings, t: string) {
    MadeAfter(s.made, t, LastActivity(s.db, t)) <= Cap(o, t)
  }

  // ----- when an event breaks the cap -----

  function Without<T>(xs: seq<T>, k: nat): seq<T>
    requires k < |xs|
  {
    xs[..k] + xs[k + 1..]
  }

  /** What is left of a thread's activity when one message is rewritten. */
  function LastAfterMessage(db: Db, t: string, k: nat, m: MessageRow): Option<int>
    requires k < |db.messages|
  {
    Later(LastActivity(db.(messages := Without(db.messages, k)), t), Asking(t)(m))
  }

  function LastAfterTask(db: Db, t: string, k: nat, task: Task): Option<int>
    requires k < |db.tasks|
  {
    Later(LastActivity(db.(tasks := Without(db.tasks, k)), t), Running(t)(task))
  }

  /** What to check before an event. Rewriting a row: that the pokes made after what is then the
      last activity are within the cap. A poke: that it is not one too many. */
  predicate Safe(s: State, o: Settings, t: string, e: Event)
    requires Enabled(s.db, o, e)
  {
    match e
    case MessageChanged(k, m) => MadeAfter(s.made, t, LastAfterMessage(s.db, t, k, m)) <= Cap(o, t)
    case TaskChanged(k, task) => MadeAfter(s.made, t, LastAfterTask(s.db, t, k, task)) <= Cap(o, t)
    case Scanned(now, targets, _) =>
      t in targets && IsAfter(now, LastActivity(s.db, t)) ==> MadeAfter(s.made, t, LastActivity(s.db, t)) < Cap(o, t)
    case _ => true
  }

  lemma {:induction false} NewestAppend<T>(xs: seq<T>, ys: seq<T>, f: T -> Option<int>)
    ensures Newest(xs + ys, f) == Later(Newest(xs, f), Newest(ys, f))
    decreases |ys|
  {
    if ys == [] {
      assert xs + ys == xs;
    } else {
      assert (xs + ys)[..|xs + ys| - 1] == xs + ys[..|ys| - 1];
      NewestAppend(xs, ys[..|ys| - 1], f);
    }
  }

  lemma NewestOne<T>(x: T, f: T -> Option<int>)
    ensures Newest([x], f) == f(x)
  {
    assert [x][..0] == [];
  }

  lemma NewestChange<T>(xs: seq<T>, k: nat, x: T, f: T -> Option<int>)
    requires k < |xs|
    ensures Newest(xs[k := x], f) == Later(Newest(Without(xs, k), f), f(x))
  {
    var u, w := xs[..k], xs[k + 1..];
    assert xs[k := x] == u + ([x] + w);
    NewestAppend(u, [x] + w, f);
    NewestAppend([x], w, f);
    NewestAppend(u, w, f);
    NewestOne(x, f);
  }

  lemma {:induction false} MadeAppend(xs: seq<Poke>, ys: seq<Poke>, t: string, last: Option<int>)
    ensures MadeAfter(xs + ys, t, last) == MadeAfter(xs, t, last) + MadeAfter(ys, t, last)
    decreases |ys|
  {
    if ys == [] {
      assert xs + ys == xs;
    } else {
      assert (xs + ys)[..|xs + ys| - 1] == xs + ys[..|ys| - 1];
      MadeAppend(xs, ys[..|ys| - 1], t, last);
    }
  }

  lemma {:induction false} MadeAntitone(made: seq<Poke>, t: string, a: Option<int>, b: Option<int>)
    requires Later(a, b) == b
    ensures MadeAfter(made, t, b) <= MadeAfter(made, t, a)
  {
    if made != [] {
      MadeAntitone(made[..|made| - 1], t, a, b);
    }
  }

  /** A scan pokes a thread once if it is a target, and not at all otherwise. */
  lemma {:induction false} MadeOnce(targets: seq<string>, now: int, made: seq<Poke>, t: string, last: Option<int>)
    requires forall i, j :: 0 <= i < j < |targets| ==> targets[i] != targets[j]
    requires |made| == |targets| && forall i :: 0 <= i < |targets| ==> made[i] == Poke(targets[i], now)
    ensures MadeAfter(made, t, last) == if t in targets && IsAfter(now, last) then 1 else 0
  {
    if targets != [] {
      var front := targets[..|targets| - 1];
      MadeOnce(front, now, made[..|made| - 1], t, last);
      assert targets == front + [targets[|targets| - 1]];
    }
  }

  lemma ScanKeepsActivity(db: Db, e: Event, t: string)
    requires e.Scanned?
    ensures LastActivity(Apply(db, e), t) == LastActivity(db, t)
  {
    NewestAppend(db.messages, PokeRows(e.targets, e.now), Asking(t));
    NoneAsking(PokeRows(e.targets, e.now), t);
  }

  lemma {:induction false} NoneAsking(xs: seq<MessageRow>, t: string)
    requires forall i :: 0 <= i < |xs| ==> xs[i].role != "user"
    ensures Newest(xs, Asking(t)) == None
  {
    if xs != [] {
      NoneAsking(xs[..|xs| - 1], t);
    }
  }

  lemma ScanCappedIff(s: State, o: Settings, t: string, e: Event)
    requires e.Scanned? && Enabled(s.db, o, e) && Capped(s, o, t)
    ensures Capped(Step(s, e), o, t) <==> Safe(s, o, t, e)
  {
    var last := LastActivity(s.db, t);
    ScanKeepsActivity(s.db, e, t);
    MadeAppend(s.made, MadeBy(e), t, last);
    MadeOnce(e.targets, e.now, MadeBy(e), t, last);
  }

  lemma AppendKeepsCap(s: State, o: Settings, t: string, e: Event)
    requires (e.Posted? || e.Scheduled? || e.Took?) && Capped(s, o, t)
    ensures Capped(Step(s, e), o, t)
  {
    assert s.made + [] == s.made;
    var before, after := LastActivity(s.db, t), LastActivity(Apply(s.db, e), t);
    if e.Posted? {
      NewestAppend(s.db.messages, [e.message], Asking(t));
    } else if e.Scheduled? {
      NewestAppend(s.db.tasks, [e.task], Running(t));
    }
    assert Later(before, after) == after;
    MadeAntitone(s.made, t, before, after);
  }

  lemma ChangedMessage(db: Db, t: string, k: nat, m: MessageRow)
    requires k < |db.messages|
    ensures LastActivity(db.(messages := db.messages[k := m]), t) == LastAfterMessage(db, t, k, m)
  {
    NewestChange(db.messages, k, m, Asking(t));
  }

  lemma ChangedTask(db: Db, t: string, k: nat, task: Task)
    requires k < |db.tasks|
    ensures LastActivity(db.(tasks := db.tasks[k := task]), t) == LastAfterTask(db, t, k, task)
  {
    NewestChange(db.tasks, k, task, Running(t));
  }

  /** Whatever happens next, the cap survives it exactly when the check before it passes. */
  lemma StepCappedIff(s: State, o: Settings, t: string, e: Event)
    requires Enabled(s.db, o, e) && Capped(s, o, t)
    ensures Capped(Step(s, e), o, t) <==> Safe(s, o, t, e)
  {
    if e.Scanned? {
      ScanCappedIff(s, o, t, e);
    } else if e.MessageChanged? {
      assert s.made + [] == s.made;
      ChangedMessage(s.db, t, e.index, e.message);
    } else if e.TaskChanged? {
      assert s.made + [] == s.made;
      ChangedTask(s.db, t, e.index, e.task);
    } else {
      AppendKeepsCap(s, o, t, e);
    }
  }

  /** A task that stops counting, because it is soft-deleted, keeps history or moves to another
      thread: the cap survives exactly when it holds since the last activity of the others. */
  lemma LostTaskIff(s: State, o: Settings, t: string, k: nat, task: Task)
    requires k < |s.db.tasks| && Capped(s, o, t)
    requires task.deleted || !task.noHistory || task.threadId != Some(t)
    ensures Capped(Step(s, TaskChanged(k, task)), o, t)
      <==> MadeAfter(s.made, t, LastActivity(s.db.(tasks := Without(s.db.tasks, k)), t)) <= Cap(o, t)
  {
    StepCappedIff(s, o, t, TaskChanged(k, task));
    assert Running(t)(task) == None;
  }

  /** So it is for a message that is tombstoned. */
  lemma LostMessageIff(s: State, o: Settings, t: string, k: nat, m: MessageRow)
    requires k < |s.db.messages| && Capped(s, o, t) && m.deleted
    ensures Capped(Step(s, MessageChanged(k, m)), o, t)
      <==> MadeAfter(s.made, t, LastActivity(s.db.(messages := Without(s.db.messages, k)), t)) <= Cap(o, t)
  {
    StepCappedIff(s, o, t, MessageChanged(k, m));
    assert Asking(t)(m) == None;
  }

  /** What redaction does to a row: its text no longer bears the poke's mark. */
  function Redacted(m: MessageRow): MessageRow {
    m.(isPoke := false)
  }

  /** Redaction never breaks the cap at once: it takes no activity back. */
  lemma RedactionKeepsCap(s: State, o: Settings, t: string, k: nat)
    requires k < |s.db.messages| && Capped(s, o, t)
    ensures Capped(Step(s, MessageChanged(k, Redacted(s.db.messages[k]))), o, t)
  {
    var m := s.db.messages[k];
    StepCappedIff(s, o, t, MessageChanged(k, Redacted(m)));
    ReplaceWithSelf(s.db.messages, k, Asking(t));
    assert Asking(t)(Redacted(m)) == Asking(t)(m);
  }

  /** It hides a poke from the next scan: that one breaks the cap exactly when it pokes a thread
      that was already poked as often as allowed. */
  lemma ScanBreaksIff(s: State, o: Settings, t: string, e: Event)
    requires e.Scanned? && Enabled(s.db, o, e) && Capped(s, o, t) && t in e.targets
    ensures !Capped(Step(s, e), o, t)
      <==> IsAfter(e.now, LastActivity(s.db, t)) && MadeAfter(s.made, t, LastActivity(s.db, t)) == Cap(o, t)
  {
    ScanCappedIff(s, o, t, e);
  }

  // ----- over runs -----

  predicate IsRunOf(s: State, o: Settings, events: seq<Event>)
    decreases |events|
  {
    events == [] || (Enabled(s.db, o, events[0]) && IsRunOf(Step(s, events[0]), o, events[1..]))
  }

  function Played(s: State, events: seq<Event>): State
    decreases |events|
  {
    if events == [] then s else Played(Step(s, events[0]), events[1..])
  }

  /** The cap holds in every state of the run. */
  predicate AlwaysCapped(s: State, o: Settings, t: string, events: seq<Event>)
    decreases |events|
  {
    Capped(s, o, t) && (events == [] || AlwaysCapped(Step(s, events[0]), o, t, events[1..]))
  }

  predicate AlwaysSafe(s: State, o: Settings, t: string, events: seq<Event>)
    requires IsRunOf(s, o, events)
    decreases |events|
  {
    events == [] || (Safe(s, o, t, events[0]) && AlwaysSafe(Step(s, events[0]), o, t, events[1..]))
  }

  /** Over any run the cap holds throughout exactly when every check along the way passes. */
  lemma {:induction false} RunCappedIff(s: State, o: Settings, t: string, events: seq<Event>)
    requires IsRunOf(s, o, events) && Capped(s, o, t)
    ensures AlwaysCapped(s, o, t, events) <==> AlwaysSafe(s, o, t, events)
    decreases |events|
  {
    if events != [] {
      StepCappedIff(s, o, t, events[0]);
      if Safe(s, o, t, events[0]) {
        RunCappedIff(Step(s, events[0]), o, t, events[1..]);
      }
    }
  }

  // ----- runs without interference -----

  predicate IsPokeRow(m: MessageRow, t: string) {
    m.threadId == t && m.role == "developer" && !m.deleted && m.isPoke
  }

  /** A rewrite that neither takes activity of the thread back nor hides a poke of it. */
  predicate Tame(db: Db, t: string, e: Event) {
    match e
    case MessageChanged(k, m) =>
      k < |db.messages| ==>
        && Later(Asking(t)(db.messages[k]), Asking(t)(m)) == Asking(t)(m)
        && (IsPokeRow(db.messages[k], t) ==> IsPokeRow(m, t) && m.createdAt == db.messages[k].createdAt)
    case TaskChanged(k, task) =>
      k < |db.tasks| ==> Later(Running(t)(db.tasks[k]), Running(t)(task)) == Running(t)(task)
    case _ => true
  }

  predicate AlwaysTame(s: State, t: string, events: seq<Event>)
    decreases |events|
  {
    events == [] || (Tame(s.db, t, events[0]) && AlwaysTame(Step(s, events[0]), t, events[1..]))
  }

  /** The selection sees a row for every poke made. */
  ghost predicate AllSeen(s: State, t: string) {
    forall a :: MadeAfter(s.made, t, Some(a)) <= PokesSince(s.db.messages, t, a)
  }

  lemma PokesChange(xs: seq<MessageRow>, k: nat, m: MessageRow, t: string, a: int)
    requires k < |xs| && (IsPokeRow(xs[k], t) ==> IsPokeRow(m, t) && m.createdAt == xs[k].createdAt)
    ensures PokesSince(xs, t, a) <= PokesSince(xs[k := m], t, a)
  {
    var u, w := xs[..k], xs[k + 1..];
    assert xs == u + ([xs[k]] + w) && xs[k := m] == u + ([m] + w);
    PokesAppend(u, [xs[k]] + w, t, a);
    PokesAppend(u, [m] + w, t, a);
    PokesAppend([xs[k]], w, t, a);
    PokesAppend([m], w, t, a);
    OneRow(xs[k], t, a);
    OneRow(m, t, a);
  }

  /** A scan adds a row for each poke it makes. */
  lemma ScanIsSeen(xs: seq<MessageRow>, e: Event, t: string, a: int)
    requires e.Scanned? && forall i, j :: 0 <= i < j < |e.targets| ==> e.targets[i] != e.targets[j]
    ensures PokesSince(xs + PokeRows(e.targets, e.now), t, a) == PokesSince(xs, t, a) + MadeAfter(MadeBy(e), t, Some(a))
  {
    PokesAppend(xs, PokeRows(e.targets, e.now), t, a);
    ScanPokesOnce(e.targets, e.now, t, a);
    MadeOnce(e.targets, e.now, MadeBy(e), t, Some(a));
  }

  lemma TameKeepsSeen(s: State, o: Settings, t: string, e: Event)
    requires AllSeen(s, t) && Enabled(s.db, o, e) && Tame(s.db, t, e)
    ensures AllSeen(Step(s, e), t)
  {
    forall a ensures MadeAfter(Step(s, e).made, t, Some(a)) <= PokesSince(Step(s, e).db.messages, t, a) {
      MadeAppend(s.made, MadeBy(e), t, Some(a));
      match e {
        case Posted(m) => PokesAppend(s.db.messages, [m], t, a);
        case MessageChanged(k, m) => PokesChange(s.db.messages, k, m, t, a);
        case Scanned(now, targets, _) => ScanIsSeen(s.db.messages, e, t, a);
        case _ =>
      }
    }
  }

  function Recent(last: Option<int>, cutoff: int): Option<int> {
    if last.Some? && last.value > cutoff then last else None
  }

  lemma {:induction false} UserAnchorIsNewest(xs: seq<MessageRow>, t: string, cutoff: int)
    ensures UserAnchor(xs, t, cutoff) == Recent(Newest(xs, Asking(t)), cutoff)
  {
    if xs != [] {
      UserAnchorIsNewest(xs[..|xs| - 1], t, cutoff);
    }
  }

  lemma {:induction false} CronAnchorIsNewest(xs: seq<Task>, t: string, cutoff: int)
    ensures CronAnchor(xs, t, cutoff) == Recent(Newest(xs, Running(t)), cutoff)
  {
    if xs != [] {
      CronAnchorIsNewest(xs[..|xs| - 1], t, cutoff);
    }
  }

  /** The anchor of a candidate is its last activity. */
  lemma AnchorIsLast(db: Db, t: string, cutoff: int)
    ensures Anchor(db, t, cutoff) == Recent(LastActivity(db, t), cutoff)
  {
    UserAnchorIsNewest(db.messages, t, cutoff);
    CronAnchorIsNewest(db.tasks, t, cutoff);
  }

  /** While every poke is seen, the driver's own gate is the check. */
  lemma SeenScanIsSafe(s: State, o: Settings, t: string, e: Event)
    requires e.Scanned? && AllSeen(s, t) && Enabled(s.db, o, e)
    ensures Safe(s, o, t, e)
  {
    if t in e.targets {
      assert Selected(s.db, o, e.now, t);
      var last := LastActivity(s.db, t);
      AnchorIsLast(s.db, t, e.now - o.activeWindow);
      assert MadeAfter(s.made, t, Some(last.value)) <= PokesSince(s.db.messages, t, last.value);
    }
  }

  /** A rewrite that takes no activity back leaves the last one no earlier. */
  lemma TameMessageIsLater(db: Db, t: string, k: nat, m: MessageRow)
    requires k < |db.messages| && Later(Asking(t)(db.messages[k]), Asking(t)(m)) == Asking(t)(m)
    ensures Later(LastActivity(db, t), LastAfterMessage(db, t, k, m)) == LastAfterMessage(db, t, k, m)
  {
    ReplaceWithSelf(db.messages, k, Asking(t));
  }

  lemma TameTaskIsLater(db: Db, t: string, k: nat, task: Task)
    requires k < |db.tasks| && Later(Running(t)(db.tasks[k]), Running(t)(task)) == Running(t)(task)
    ensures Later(LastActivity(db, t), LastAfterTask(db, t, k, task)) == LastAfterTask(db, t, k, task)
  {
    ReplaceWithSelf(db.tasks, k, Running(t));
  }

  lemma TameIsSafe(s: State, o: Settings, t: string, e: Event)
    requires Capped(s, o, t) && AllSeen(s, t) && Enabled(s.db, o, e) && Tame(s.db, t, e)
    ensures Safe(s, o, t, e)
  {
    match e {
      case Scanned(_, _, _) => SeenScanIsSafe(s, o, t, e);
      case MessageChanged(k, m) =>
        TameMessageIsLater(s.db, t, k, m);
        MadeAntitone(s.made, t, LastActivity(s.db, t), LastAfterMessage(s.db, t, k, m));
      case TaskChanged(k, task) =>
        TameTaskIsLater(s.db, t, k, task);
        MadeAntitone(s.made, t, LastActivity(s.db, t), LastAfterTask(s.db, t, k, task));
      case _ =>
    }
  }

  lemma ReplaceWithSelf<T>(xs: seq<T>, k: nat, f: T -> Option<int>)
    requires k < |xs|
    ensures Newest(xs, f) == Later(Newest(Without(xs, k), f), f(xs[k]))
  {
    NewestChange(xs, k, xs[k], f);
    assert xs[k := xs[k]] == xs;
  }

  /** Over any run without interference, whatever tasks run and messages arrive, pokes since the
      last real activity never exceed the cap. */
  lemma {:induction false} TameRunIsCapped(s: State, o: Settings, t: string, events: seq<Event>)
    requires IsRunOf(s, o, events) && AlwaysTame(s, t, events) && Capped(s, o, t) && AllSeen(s, t)
    ensures AlwaysCapped(s, o, t, events)
    decreases |events|
  {
    if events != [] {
      TameIsSafe(s, o, t, events[0]);
      StepCappedIff(s, o, t, events[0]);
      TameKeepsSeen(s, o, t, events[0]);
      TameRunIsCapped(Step(s, events[0]), o, t, events[1..]);
    }
  }

  /** So it is from an empty database on. */
  lemma PokesAreCapped(o: Settings, t: string, live: set<string>, events: seq<Event>)
    requires IsRunOf(Empty(live), o, events) && AlwaysTame(Empty(live), t, events)
    ensures AlwaysCapped(Empty(live), o, t, events)
  {
    TameRunIsCapped(Empty(live), o, t, events);
  }
}
