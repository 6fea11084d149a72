/**
 The circuit breaker told from the events of a run alone.  A log notes for every step of
 every request what the request saw: the counter and the time of the last failure, which
 the log itself determines, the clock, and whether the response failed.
 */
module BreakerLog {
  import opened CircuitBreaker

  // One step of request `i`.
  datatype Obs = Obs(i: nat, counter: int, last: int, now: int, failed: bool)

  // The steps of one request.
  function Saw(log: seq<Obs>, i: nat): seq<Obs> {
    if log == [] then []
    else
      var o := log[|log| - 1];
      Saw(log[..|log| - 1], i) + if o.i == i then [o] else []
  }

  // ---------- What a request makes of what it saw ----------

  // Its first step finds the counter at the threshold.
  predicate Open(s: Settings, saw: seq<Obs>) {
    saw != [] && saw[0].counter >= s.threshold
  }

  // Its second then finds the last failure too recent.
  predicate Barred(s: Settings, saw: seq<Obs>) {
    Open(s, saw) && |saw| >= 2 && saw[1].now - saw[1].last < s.recovery
  }

  // The step that takes the response: an open breaker is read and lowered before.
  function Reply(s: Settings, saw: seq<Obs>): nat {
    if Open(s, saw) then 3 else 1
  }

  predicate Answered(s: Settings, saw: seq<Obs>) {
    |saw| > Reply(s, saw) && !Barred(s, saw)
  }

  predicate Failed(s: Settings, saw: seq<Obs>) {
    Answered(s, saw) && saw[Reply(s, saw)].failed
  }

  // The next step stores the time of the failure.
  predicate Stores(s: Settings, saw: seq<Obs>) {
    |saw| == Reply(s, saw) + 1 && Failed(s, saw)
  }

  // What the next step does to the counter: an open breaker is lowered if the counter is
  // still the one seen first, a failure counts up, and a success counts down once, unless
  // the counter is zero, when two readings in a row agree.
  function EffectOf(s: Settings, saw: seq<Obs>, o: Obs): seq<Effect> {
    if saw == [] || Barred(s, saw) then []
    else if Open(s, saw) && |saw| == 2 then if o.counter == saw[0].counter then [HalfOpen] else []
    else if |saw| == Reply(s, saw) then if o.failed then [Failure] else []
    else if |saw| < Reply(s, saw) || Failed(s, saw) then []
    else if (|saw| - Reply(s, saw)) % 2 == 1 then if o.counter <= 0 then [Success] else []
    else if o.counter == saw[|saw| - 1].counter then [Success] else []
  }

  // ---------- What a run makes of its events ----------

  function Effects(s: Settings, log: seq<Obs>): seq<Effect> {
    if log == [] then []
    else
      var front, o := log[..|log| - 1], log[|log| - 1];
      Effects(s, front) + EffectOf(s, Saw(front, o.i), o)
  }

  // The clock at the last step that stored one; 0 before any.
  function LastStore(s: Settings, log: seq<Obs>): int {
    if log == [] then 0
    else
      var front, o := log[..|log| - 1], log[|log| - 1];
      if Stores(s, Saw(front, o.i)) then o.now else LastStore(s, front)
  }

  function Tell(s: Settings, log: seq<Obs>, e: Event): seq<Obs> {
    if e.Arrive? then log
    else log + [Obs(e.i, Walk(s, Effects(s, log)), LastStore(s, log), e.now, e.failed)]
  }

  function TellAll(s: Settings, log: seq<Obs>, events: seq<Event>): seq<Obs>
    decreases |events|
  {
    if events == [] then log else TellAll(s, Tell(s, log, events[0]), events[1..])
  }

  // ---------- The log is right ----------

  // Where a request stands after what it saw.
  ghost predicate Stands(s: Settings, saw: seq<Obs>, t: Thread) {
    match t
    case Start => saw == []
    case Loaded(c) => |saw| == 1 && Open(s, saw) && saw[0].counter == c
    case Trying(c) => |saw| == 2 && Open(s, saw) && !Barred(s, saw) && saw[0].counter == c
    case Serving => |saw| == Reply(s, saw) && !Barred(s, saw)
    case Storing => Stores(s, saw)
    case Releasing => Answered(s, saw) && !Failed(s, saw) && (|saw| - Reply(s, saw)) % 2 == 1
    case Decrementing(seen) =>
      && Answered(s, saw) && !Failed(s, saw) && (|saw| - Reply(s, saw)) % 2 == 0
      && seen == saw[|saw| - 1].counter
    case Rejected => |saw| == 2 && Barred(s, saw)
    case Done(failed) =>
      && Answered(s, saw) && failed == Failed(s, saw)
      && if failed then |saw| == Reply(s, saw) + 2 else |saw| >= Reply(s, saw) + 2
  }

  lemma StepStands(s: Settings, saw: seq<Obs>, t: Thread, o: Obs)
    requires Stands(s, saw, t) && !t.Rejected? && !t.Done?
    ensures var m := Step(s, o.counter, o.last, t, o.now, o.failed);
            && Stands(s, saw + [o], m.thread) && m.effects == EffectOf(s, saw, o)
            && m.lastFailure == if Stores(s, saw) then o.now else o.last
  {
    var more := saw + [o];
    assert forall k | 0 <= k < |saw| :: more[k] == saw[k];
    assert more[|saw|] == o;
  }

  lemma SawNext(log: seq<Obs>, o: Obs, i: nat)
    ensures Saw(log + [o], i) == Saw(log, i) + if o.i == i then [o] else []
  {
    assert (log + [o])[..|log|] == log;
  }

  lemma LogNext(s: Settings, log: seq<Obs>, o: Obs)
    ensures Effects(s, log + [o]) == Effects(s, log) + EffectOf(s, Saw(log, o.i), o)
    ensures LastStore(s, log + [o]) == if Stores(s, Saw(log, o.i)) then o.now else LastStore(s, log)
  {
    assert (log + [o])[..|log|] == log;
  }

  ghost predicate AllStand(s: Settings, threads: seq<Thread>, log: seq<Obs>) {
    && (forall i | 0 <= i < |threads| :: Stands(s, Saw(log, i), threads[i]))
    && (forall i: nat | i >= |threads| :: Saw(log, i) == [])
  }

  lemma AllStandNext(s: Settings, threads: seq<Thread>, log: seq<Obs>, o: Obs, t: Thread)
    requires AllStand(s, threads, log) && o.i < |threads| && Stands(s, Saw(log, o.i) + [o], t)
    ensures AllStand(s, threads[o.i := t], log + [o])
  {
    forall i: nat ensures Saw(log + [o], i) == if o.i == i then Saw(log, i) + [o] else Saw(log, i) {
      SawNext(log, o, i);
    }
  }

  ghost predicate Told(s: Settings, st: State, log: seq<Obs>) {
    st.lastFailure == LastStore(s, log) && st.effects == Effects(s, log) && AllStand(s, st.threads, log)
  }

  lemma StepTold(s: Settings, st: State, e: Event, log: seq<Obs>)
    requires Inv(s, st) && Told(s, st, log) && Enabled(st, e)
    ensures Told(s, Next(s, st, e), Tell(s, log, e))
  {
    if e.Run? {
      var o := Obs(e.i, st.counter, st.lastFailure, e.now, e.failed);
      StepStands(s, Saw(log, e.i), st.threads[e.i], o);
      LogNext(s, log, o);
      AllStandNext(s, st.threads, log, o, Step(s, o.counter, o.last, st.threads[e.i], o.now, o.failed).thread);
    }
  }

  lemma {:induction false} RunTold(s: Settings, st: State, events: seq<Event>, log: seq<Obs>)
    requires Inv(s, st) && Told(s, st, log) && IsRun(s, st, events)
    ensures Told(s, After(s, st, events), TellAll(s, log, events))
    decreases |events|
  {
    if events != [] {
      StepTold(s, st, events[0], log);
      StepKeepsInv(s, st, events[0]);
      RunTold(s, Next(s, st, events[0]), events[1..], Tell(s, log, events[0]));
    }
  }

  lemma LogRight(s: Settings, events: seq<Event>)
    requires IsRun(s, Initial(), events)
    ensures Told(s, After(s, Initial(), events), TellAll(s, [], events))
  {
    RunTold(s, Initial(), events, []);
  }

  // In every interleaving the counter is the greatest suffix sum of the effects that the
  // log gives, and the time of the last failure is the clock of the last step that stored
  // one.
  lemma CounterFromEvents(s: Settings, events: seq<Event>)
    requires IsRun(s, Initial(), events)
    ensures var st, log := After(s, Initial(), events), TellAll(s, [], events);
            && GreatestSuffix(s, Effects(s, log), st.counter) && st.counter >= 0
            && st.lastFailure == LastStore(s, log)
  {
    LogRight(s, events);
    CounterClosedForm(s, events);
  }

  // In every interleaving a request is rejected if and only if it found the counter at or
  // above the threshold and then the clock less than the recovery time after the last
  // failure, and it is done if and only if it got its response and has recorded it.
  lemma FateExactly(s: Settings, events: seq<Event>, i: nat)
    requires IsRun(s, Initial(), events) && i < |After(s, Initial(), events).threads|
    ensures var t, saw := After(s, Initial(), events).threads[i], Saw(TellAll(s, [], events), i);
            && (t.Rejected? <==> |saw| >= 2 && saw[0].counter >= s.threshold && saw[1].now - saw[1].last < s.recovery)
            && (t == Done(true) <==> Failed(s, saw) && |saw| == Reply(s, saw) + 2)
            && (t == Done(false) ==> Answered(s, saw) && !saw[Reply(s, saw)].failed)
  {
    LogRight(s, events);
  }
}
