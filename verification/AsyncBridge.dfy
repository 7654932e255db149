/** The bridge from a push source to a pulling consumer: a queue, and a wake-up that the
    consumer arms when it finds nothing to do. Producer callbacks and stretches of consumer
    code between two suspensions interleave in any order. */
module AsyncBridge {
  import opened Results

  /** Where the consumer is: about to test its loop condition, suspended at a yield, waiting
      on the armed promise, resolved but not yet resumed, finished, or thrown. */
  datatype Pc<+E> = Testing | Yielding | Waiting | Woken | Finished | Failed(error: E)

  /** The bridge's variables, and three pieces of history: what was emitted, what was
      yielded, and whether an error arrived after the consumer had been woken by a value. */
  datatype State<V, E> = State(
    queue: seq<Option<V>>,
    completed: bool,
    error: Option<E>,
    armed: bool,
    pc: Pc<E>,
    emitted: seq<Option<V>>,
    yielded: seq<V>,
    errorOvertook: bool)

  /** `None` stands for JavaScript's undefined, as a value and as an error. */
  datatype Event<V, E> = Next(value: Option<V>) | Error(error: Option<E>) | Complete | Consume

  function Initial<V, E>(): State<V, E> {
    State([], false, None, false, Testing, [], [], false)
  }

  /** An observable is silent after it has completed or failed; the consumer runs unless it
      waits or is finished. */
  predicate Enabled<V, E>(s: State<V, E>, e: Event<V, E>) {
    match e
    case Consume => s.pc.Testing? || s.pc.Yielding? || s.pc.Woken?
    case _ => !s.completed
  }

  /** `wake?.(); wake = undefined`. */
  function Notified<V, E>(s: State<V, E>): State<V, E> {
    if s.armed then s.(armed := false, pc := Woken) else s
  }

  function Consumed<V, E>(s: State<V, E>): State<V, E> {
    match s.pc
    case Yielding => s.(pc := Testing)
    case Woken => s.(pc := if s.error.Some? then Failed(s.error.value) else Testing)
    case Testing =>
      if s.queue != [] then
        var value := s.queue[0];
        if value.Some? then s.(queue := s.queue[1..], pc := Yielding, yielded := s.yielded + [value.value])
        else s.(queue := s.queue[1..])
      else if !s.completed then s.(armed := true, pc := Waiting)
      else s.(pc := if s.error.Some? then Failed(s.error.value) else Finished)
    case _ => s
  }

  function Step<V, E>(s: State<V, E>, e: Event<V, E>): State<V, E> {
    match e
    case Next(value) => Notified(s.(queue := s.queue + [value], emitted := s.emitted + [value]))
    case Error(error) =>
      Notified(s.(error := error, completed := true, errorOvertook := error.Some? && s.pc.Woken?))
    case Complete => Notified(s.(completed := true))
    case Consume => Consumed(s)
  }

  function Defined<V>(values: seq<Option<V>>): seq<V> {
    if values == [] then [] else (if values[0].Some? then [values[0].value] else []) + Defined(values[1..])
  }

  // ----- the code -----

  class Bridge<V(==), E(==)> {
    var queue: seq<Option<V>>
    var completed: bool
    var error: Option<E>
    var wake: bool
    var pc: Pc<E>
    ghost var emitted: seq<Option<V>>
    ghost var yielded: seq<V>
    ghost var errorOvertook: bool

    constructor ()
      ensures Current() == Initial()
    {
      queue, completed, error, wake, pc := [], false, None, false, Testing;
      emitted, yielded, errorOvertook := [], [], false;
    }

    ghost function Current(): State<V, E>
      reads this
    {
      State(queue, completed, error, wake, pc, emitted, yielded, errorOvertook)
    }

    method Notify()
      modifies this
      ensures Current() == Notified(old(Current()))
    {
      if wake { pc := Woken; }
      wake := false;
    }

    method OnNext(value: Option<V>)
      modifies this
      ensures Current() == Step(old(Current()), Next(value))
    {
      queue := queue + [value];
      emitted := emitted + [value];
      Notify();
    }

    method OnError(err: Option<E>)
      modifies this
      ensures Current() == Step(old(Current()), Error(err))
    {
      error := err;
      completed := true;
      errorOvertook := err.Some? && pc.Woken?;
      Notify();
    }

    method OnComplete()
      modifies this
      ensures Current() == Step(old(Current()), Complete)
    {
      completed := true;
      Notify();
    }

    /** Runs the consumer until it next suspends, or once around its loop when an undefined
        value is skipped. */
    method Run() returns (produced: Option<V>)
      requires pc.Testing? || pc.Yielding? || pc.Woken?
      modifies this
      ensures Current() == Step(old(Current()), Consume)
      ensures yielded == old(yielded) + if produced.Some? then [produced.value] else []
    {
      produced := None;
      if pc.Yielding? {
        pc := Testing;
      } else if pc.Woken? {
        pc := if error.Some? then Failed(error.value) else Testing;
      } else if !completed || |queue| > 0 {
        if |queue| > 0 {
          var value := queue[0];
          queue := queue[1..];
          if value.Some? {
            produced := value;
            yielded := yielded + [value.value];
            pc := Yielding;
          }
        } else {
          wake := true;
          pc := Waiting;
        }
      } else {
        pc := if error.Some? then Failed(error.value) else Finished;
      }
    }
  }

  // ----- every interleaving -----

  ghost predicate Inv<V, E>(s: State<V, E>) {
    && (s.armed <==> s.pc.Waiting?)
    && (s.pc.Waiting? ==> s.queue == [] && !s.completed)
    && (s.pc.Woken? ==> s.queue != [] || s.completed)
    && (s.error.Some? ==> s.completed)
    && Defined(s.emitted) == s.yielded + Defined(s.queue)
    && (s.pc.Finished? ==> s.completed && s.queue == [] && s.error == None)
    && (s.pc.Failed? ==> s.completed && s.error == Some(s.pc.error))
    && (s.errorOvertook ==> s.error.Some? && (s.pc.Woken? || s.pc.Failed?))
    && (s.error.Some? && (s.pc.Woken? || s.pc.Failed?) ==> (s.errorOvertook <==> s.queue != []))
  }

  ghost predicate IsRun<V, E>(events: seq<Event<V, E>>)
    decreases |events|, 0
  {
    events != [] ==>
      IsRun(events[..|events| - 1]) && Enabled(After(events[..|events| - 1]), events[|events| - 1])
  }

  ghost function After<V, E>(events: seq<Event<V, E>>): State<V, E>
    decreases |events|, 1
  {
    if events == [] then Initial() else Step(After(events[..|events| - 1]), events[|events| - 1])
  }

  lemma {:induction false} DefinedSnoc<V>(values: seq<Option<V>>, v: Option<V>)
    ensures Defined(values + [v]) == Defined(values) + if v.Some? then [v.value] else []
  {
    if values == [] {
      assert values + [v] == [v] && [v][1..] == [];
    } else {
      DefinedSnoc(values[1..], v);
      assert (values + [v])[1..] == values[1..] + [v];
    }
  }

  lemma {:induction false} StepKeepsInv<V, E>(s: State<V, E>, e: Event<V, E>)
    requires Inv(s) && Enabled(s, e)
    ensures Inv(Step(s, e))
  {
    match e {
      case Next(value) =>
        DefinedSnoc(s.queue, value);
        DefinedSnoc(s.emitted, value);
      case Consume =>
        if s.pc.Testing? && s.queue != [] {
          assert Defined(s.queue) == (if s.queue[0].Some? then [s.queue[0].value] else []) + Defined(s.queue[1..]);
        }
      case _ =>
    }
  }

  lemma {:induction false} RunKeepsInv<V, E>(events: seq<Event<V, E>>)
    requires IsRun(events)
    ensures Inv(After(events))
  {
    if events != [] {
      RunKeepsInv(events[..|events| - 1]);
      StepKeepsInv(After(events[..|events| - 1]), events[|events| - 1]);
    }
  }

  /** No lost wake-up: in every interleaving the consumer waits only while the source is open
      and nothing is queued. What it has yielded is an in-order prefix of the defined values
      emitted, and all of them once it finishes. */
  lemma {:induction false} NoLostWakeup<V, E>(events: seq<Event<V, E>>)
    requires IsRun(events)
    ensures var s := After(events);
      && (s.pc.Waiting? ==> s.armed && s.queue == [] && !s.completed && s.yielded == Defined(s.emitted))
      && s.yielded <= Defined(s.emitted)
      && (s.pc.Finished? ==> s.yielded == Defined(s.emitted))
  {
    RunKeepsInv(events);
  }

  /** When the consumer throws, values were discarded exactly if the error arrived between
      the wake-up for a value and the consumer's resumption. */
  lemma {:induction false} ErrorDiscardsExactly<V, E>(events: seq<Event<V, E>>)
    requires IsRun(events) && After(events).pc.Failed?
    ensures var s := After(events);
      && (s.queue != [] <==> s.errorOvertook)
      && Defined(s.emitted) == s.yielded + Defined(s.queue)
  {
    RunKeepsInv(events);
  }

  /** A value is lost this way: the consumer waits, a value and an error arrive, it resumes. */
  lemma ErrorOvertakesValue(v: int, e: int)
    ensures var events := [Consume, Next(Some(v)), Error(Some(e)), Consume];
            var s := After<int, int>(events);
      IsRun(events) && s.pc == Failed(e) && s.yielded == [] && Defined(s.emitted) == [v]
  {
    var e1: seq<Event<int, int>> := [Consume];
    var e2 := e1 + [Next(Some(v))];
    var e3 := e2 + [Error(Some(e))];
    var e4 := e3 + [Consume];
    assert e1[..0] == [] && e2[..1] == e1 && e3[..2] == e2 && e4[..3] == e3;
    assert After(e1) == Step(Initial(), Consume);
    assert IsRun(e1);
    assert IsRun(e2);
    assert IsRun(e3);
    assert e4 == [Consume, Next(Some(v)), Error(Some(e)), Consume];
  }

  // ----- the history is the run's -----

  function ValuesOf<V, E>(events: seq<Event<V, E>>): seq<Option<V>> {
    if events == [] then []
    else
      var last := events[|events| - 1];
      ValuesOf(events[..|events| - 1]) + if last.Next? then [last.value] else []
  }

  lemma StepRecords<V, E>(s: State<V, E>, e: Event<V, E>)
    ensures Step(s, e).emitted == s.emitted + if e.Next? then [e.value] else []
    ensures Step(s, e).completed == (s.completed || e.Error? || e.Complete?)
    ensures Step(s, e).error == if e.Error? then e.error else s.error
    ensures Step(s, e).errorOvertook == if e.Error? then e.error.Some? && s.pc.Woken? else s.errorOvertook
  {
  }

  lemma {:induction false} EmittedExact<V, E>(events: seq<Event<V, E>>)
    requires IsRun(events)
    ensures After(events).emitted == ValuesOf(events)
  {
    if events != [] {
      var front, last := events[..|events| - 1], events[|events| - 1];
      EmittedExact(front);
      StepRecords(After(front), last);
    }
  }

  predicate Ends<V, E>(events: seq<Event<V, E>>, k: nat)
    requires k < |events|
  {
    events[k].Error? || events[k].Complete?
  }

  lemma {:induction false} EndedExact<V, E>(events: seq<Event<V, E>>)
    requires IsRun(events)
    ensures After(events).completed <==> exists k :: 0 <= k < |events| && Ends(events, k)
  {
    if events != [] {
      var front, last := events[..|events| - 1], events[|events| - 1];
      EndedExact(front);
      StepRecords(After(front), last);
      assert forall k :: 0 <= k < |front| ==> Ends(front, k) == Ends(events, k);
      assert Ends(events, |front|) == (last.Error? || last.Complete?);
    }
  }

  /** What a run records: every value the source pushed, in order, whether the source has ended,
      and the error it ended with. */
  lemma {:induction false} HistoryExact<V, E>(events: seq<Event<V, E>>, k: nat)
    requires IsRun(events) && k < |events| && events[k].Error?
    ensures After(events).emitted == ValuesOf(events)
    ensures After(events).completed && After(events).error == events[k].error
    ensures After(events).errorOvertook == (events[k].error.Some? && After(events[..k]).pc.Woken?)
  {
    EmittedExact(events);
    var front, last := events[..|events| - 1], events[|events| - 1];
    StepRecords(After(front), last);
    if k < |front| {
      HistoryExact(front, k);
      assert front[..k] == events[..k];
    } else {
      assert front == events[..k];
    }
  }

  lemma {:induction false} NoErrorRecorded<V, E>(events: seq<Event<V, E>>)
    requires IsRun(events) && forall k :: 0 <= k < |events| ==> !events[k].Error?
    ensures After(events).error == None && !After(events).errorOvertook
  {
    if events != [] {
      NoErrorRecorded(events[..|events| - 1]);
      StepRecords(After(events[..|events| - 1]), events[|events| - 1]);
    }
  }

  // ----- once the source has ended, the consumer ends -----

  function Remaining<V, E>(s: State<V, E>): nat {
    match s.pc
    case Testing => 2 * |s.queue| + 1
    case Yielding => 2 * |s.queue| + 2
    case Woken => 2 * |s.queue| + 2
    case _ => 0
  }

  /** The state after `n` consumer steps. */
  function Drained<V, E>(s: State<V, E>, n: nat): State<V, E>
    decreases n
  {
    if n == 0 then s else Drained(Consumed(s), n - 1)
  }

  ghost predicate Ending<V, E>(s: State<V, E>, t: State<V, E>) {
    && t.emitted == s.emitted
    && (s.error == None ==> t.pc.Finished? && t.yielded == Defined(s.emitted))
    && (s.error.Some? ==> t.pc == Failed(s.error.value))
    && (s.error.Some? && !s.errorOvertook ==> t.yielded == Defined(s.emitted))
  }

  lemma SettledIsEnding<V, E>(s: State<V, E>)
    requires Inv(s) && s.completed && Remaining(s) == 0
    ensures (s.pc.Finished? || s.pc.Failed?) && Ending(s, s)
  {
    if s.queue == [] {
      assert s.yielded + Defined(s.queue) == s.yielded;
    }
  }

  lemma ConsumedCountsDown<V, E>(s: State<V, E>)
    requires Inv(s) && s.completed && Remaining(s) > 0
    ensures var next := Consumed(s);
      && Remaining(next) < Remaining(s)
      && next.completed && next.emitted == s.emitted && next.error == s.error
      && (s.errorOvertook || !next.errorOvertook)
  {
  }

  /** With no further producer events the consumer of an ended source terminates: it finishes
      with every value yielded, or throws the source's error. */
  lemma {:induction false} EndedSourceDrains<V, E>(s: State<V, E>)
    requires Inv(s) && s.completed
    ensures Ending(s, Drained(s, Remaining(s)))
    ensures Drained(s, Remaining(s)).pc.Finished? || Drained(s, Remaining(s)).pc.Failed?
    decreases Remaining(s)
  {
    if Remaining(s) == 0 {
      SettledIsEnding(s);
    } else {
      var next := Consumed(s);
      assert Inv(next) by { StepKeepsInv(s, Consume); }
      ConsumedCountsDown(s);
      EndedSourceDrains(next);
      var rest := Remaining(s) - 1 - Remaining(next);
      SettledStays(Drained(next, Remaining(next)), rest);
      DrainedSplit(next, Remaining(next), rest);
      assert Drained(s, Remaining(s)) == Drained(next, Remaining(s) - 1);
    }
  }

  lemma {:induction false} SettledStays<V, E>(s: State<V, E>, n: nat)
    requires s.pc.Finished? || s.pc.Failed?
    ensures Drained(s, n) == s
    decreases n
  {
    if n > 0 {
      SettledStays(Consumed(s), n - 1);
    }
  }

  lemma {:induction false} DrainedSplit<V, E>(s: State<V, E>, m: nat, n: nat)
    ensures Drained(s, m + n) == Drained(Drained(s, m), n)
    decreases m
  {
    if m > 0 {
      DrainedSplit(Consumed(s), m - 1, n);
    }
  }
}
