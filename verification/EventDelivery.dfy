/**
 What the callers of the event bus can rely on, told from the steps of a run alone: an
 observer that sees only the steps, and not the bus, knows which events are accepted, who
 is subscribed, and who must be called.  The bus never gets stuck on the way.
 */
module EventDelivery {
  import opened EventBus

  // ---------- The observer ----------

  // `active` gives the topic of every subscription that has not been ended, by the number
  // of the subscription; `workers` counts the dispatchers, and likewise the handlers.
  datatype Seen = Seen(
    started: bool, stopped: bool, subscribing: seq<string>, publishing: seq<seq<string>>,
    workers: nat, waiting: int, joins: nat, active: map<nat, string>, accepted: seq<seq<string>>)

  function Nothing(): Seen {
    Seen(false, false, [], [], 0, 0, 0, map[], [])
  }

  // A publisher or subscriber gets past its check exactly when the bus is started, and an
  // event is accepted exactly when fewer than 1000 wait.
  function Watch(o: Seen, s: Step): Seen {
    match s
    case StartBus => if o.started then o else o.(started := true, workers := o.workers + 10)
    case StopBus => o.(started := false, stopped := o.stopped || o.started)
    case SubscribeCheck(topic) => if o.started && topic != "" then o.(subscribing := o.subscribing + [topic]) else o
    case Subscribe(p) =>
      if p >= |o.subscribing| then o
      else
        o.(subscribing := o.subscribing[..p] + o.subscribing[p + 1..], joins := o.joins + 1,
           active := o.active[o.joins + 1 := o.subscribing[p]])
    case Unsubscribe(client) => o.(active := o.active - {client})
    case PublishCheck(topics) => if o.started then o.(publishing := o.publishing + [topics]) else o
    case PublishSend(p) =>
      if p >= |o.publishing| then o
      else
        var left := o.publishing[..p] + o.publishing[p + 1..];
        if o.waiting < 1000 then
          o.(publishing := left, waiting := o.waiting + 1, accepted := o.accepted + [o.publishing[p]])
        else o.(publishing := left)
    case Take(_) => o.(waiting := o.waiting - 1)
    case _ => o
  }

  function WatchAll(o: Seen, steps: seq<Step>): Seen
    decreases |steps|
  {
    if steps == [] then o else WatchAll(Watch(o, steps[0]), steps[1..])
  }

  ghost predicate SeesSubscribers(x: Subscribers, o: Seen) {
    && x.listeners.lastClient == o.joins
    && (forall c :: c in x.closures <==> 1 <= c <= o.joins)
    && x.active.Keys == o.active.Keys
    && (forall c | c in x.active :: x.active[c].topic == o.active[c])
  }

  ghost predicate Sees(b: Bus, o: Seen) {
    && b.started == o.started && b.cancelled == o.stopped
    && b.subscribing == o.subscribing && b.publishing == o.publishing
    && |b.flow.dispatchers| == |b.flow.handlers| == o.workers
    && |b.flow.queue| == o.waiting && b.flow.accepted == o.accepted
    && SeesSubscribers(b.subs, o)
  }

  lemma {:induction false} WorkersAdded(f: Flow, n: nat)
    ensures |WithWorkers(f, n).dispatchers| == |f.dispatchers| + n && |WithWorkers(f, n).handlers| == |f.handlers| + n
    decreases n
  {
    if n > 0 {
      WorkersAdded(f, n - 1);
    }
  }

  lemma WorkerSeen(b: Bus, s: Step, o: Seen)
    requires (ByDispatcher(s) || ByHandler(s)) && Enabled(b, s) && Sees(b, o)
    ensures Sees(Next(b, s), Watch(o, s))
  {
  }

  lemma SubscribersSeen(b: Bus, s: Step, o: Seen)
    requires (s.Subscribe? || s.Unsubscribe?) && Enabled(b, s) && Sees(b, o)
    ensures SeesSubscribers(CallerNext(b, s).subs, Watch(o, s))
  {
  }

  lemma CallerSeen(b: Bus, s: Step, o: Seen)
    requires !ByDispatcher(s) && !ByHandler(s) && Enabled(b, s) && Sees(b, o)
    ensures Sees(CallerNext(b, s), Watch(o, s))
  {
    if s.StartBus? {
      WorkersAdded(b.flow, NUMBER_OF_WORKERS);
      WorkersOnly(b.flow, NUMBER_OF_WORKERS);
    } else if s.Subscribe? || s.Unsubscribe? {
      SubscribersSeen(b, s, o);
    }
  }

  lemma {:induction false} RunSeen(b: Bus, steps: seq<Step>, o: Seen)
    requires IsRun(b, steps) && Sees(b, o)
    ensures Sees(After(b, steps), WatchAll(o, steps))
    decreases |steps|
  {
    if steps != [] {
      if ByDispatcher(steps[0]) || ByHandler(steps[0]) {
        WorkerSeen(b, steps[0], o);
      } else {
        CallerSeen(b, steps[0], o);
      }
      RunSeen(Next(b, steps[0]), steps[1..], Watch(o, steps[0]));
    }
  }

  // After every run the bus has accepted exactly what the observer says, in that order,
  // and whether it is started, who waits to publish and who is subscribed are known to it.
  lemma AcceptedExactly(steps: seq<Step>)
    requires IsRun(NewBus(), steps)
    ensures Sees(After(NewBus(), steps), WatchAll(Nothing(), steps))
  {
    RunSeen(NewBus(), steps, Nothing());
  }

  // No caller is ever blocked: the bus lets exactly those publish and subscribe that got
  // past the check, and every closure that was handed out be called.
  lemma CallersNeverBlocked(steps: seq<Step>, s: Step)
    requires IsRun(NewBus(), steps) && !ByDispatcher(s) && !ByHandler(s)
    ensures var o := WatchAll(Nothing(), steps);
            Enabled(After(NewBus(), steps), s)
            <==> && (s.Subscribe? ==> s.p < |o.subscribing|) && (s.PublishSend? ==> s.p < |o.publishing|)
                 && (s.Unsubscribe? ==> 1 <= s.client <= o.joins)
  {
    RunSeen(NewBus(), steps, Nothing());
  }

  // ---------- Who is called ----------

  // No subscription is ended twice.
  predicate EndedOnce(o: Seen, steps: seq<Step>)
    decreases |steps|
  {
    steps != [] ==>
      (steps[0].Unsubscribe? ==> steps[0].client in o.active) && EndedOnce(Watch(o, steps[0]), steps[1..])
  }

  lemma {:induction false} OnceSeen(b: Bus, steps: seq<Step>, o: Seen)
    requires IsRun(b, steps) && Sees(b, o) && EndedOnce(o, steps)
    ensures CalledOnce(b, steps)
    decreases |steps|
  {
    if steps != [] {
      if ByDispatcher(steps[0]) || ByHandler(steps[0]) {
        WorkerSeen(b, steps[0], o);
      } else {
        CallerSeen(b, steps[0], o);
      }
      OnceSeen(Next(b, steps[0]), steps[1..], Watch(o, steps[0]));
    }
  }

  // The observer knows the subscribers of a plan.
  lemma {:induction false} PlanSeen(b: Bus, steps: seq<Step>, o: Seen, k: nat, id: nat, plan: Plan)
    requires Sees(b, o) && DispatchedAt(b, steps, k, id, plan)
    ensures k < |steps| && steps[k].Dispatch? && SeesSubscribers(plan.subs, WatchAll(o, steps[..k]))
    decreases k
  {
    if k > 0 {
      if ByDispatcher(steps[0]) || ByHandler(steps[0]) {
        WorkerSeen(b, steps[0], o);
      } else {
        CallerSeen(b, steps[0], o);
      }
      PlanSeen(Next(b, steps[0]), steps[1..], Watch(o, steps[0]), k - 1, id, plan);
      assert steps[..k][1..] == steps[1..][..k - 1];
    }
  }

  // When a bus that was never stopped is at rest, every event that the observer saw
  // accepted was dispatched at some step, every subscriber it knew as active then has been
  // called as often as the topic occurs in the event, and nobody else has been.
  lemma Delivered(steps: seq<Step>, id: nat) returns (k: nat)
    requires IsRun(NewBus(), steps) && EndedOnce(Nothing(), steps)
    requires !WatchAll(Nothing(), steps).stopped && AtRest(After(NewBus(), steps).flow)
    requires id < |WatchAll(Nothing(), steps).accepted|
    ensures k < |steps| && id in After(NewBus(), steps).flow.plans
    ensures DispatchedAt(NewBus(), steps, k, id, After(NewBus(), steps).flow.plans[id])
    ensures var active, topics := WatchAll(Nothing(), steps[..k]).active, WatchAll(Nothing(), steps).accepted[id];
            forall c :: Called(After(NewBus(), steps).flow, id)[c]
                        == if c in active then multiset(topics)[active[c]] else 0
  {
    RunSeen(NewBus(), steps, Nothing());
    OnceSeen(NewBus(), steps, Nothing());
    AllDelivered(steps, id);
    NewBusInv();
    k := PlannedAtDispatch(NewBus(), steps, id);
    var plan := After(NewBus(), steps).flow.plans[id];
    PlanSeen(NewBus(), steps, Nothing(), k, id, plan);
    forall c ensures c in plan.subs.active <==> c in WatchAll(Nothing(), steps[..k]).active {
      assert c in plan.subs.active.Keys <==> c in WatchAll(Nothing(), steps[..k]).active.Keys;
    }
    forall c {
      DeliveredToActive(steps, id, c);
    }
  }

  // ---------- The bus never gets stuck ----------

  function Sum<T>(items: seq<T>, weight: T -> nat): nat {
    if items == [] then 0 else Sum(items[..|items| - 1], weight) + weight(items[|items| - 1])
  }

  lemma {:induction false} SumUpdate<T>(items: seq<T>, i: nat, x: T, weight: T -> nat)
    requires i < |items|
    ensures Sum(items[i := x], weight) == Sum(items, weight) - weight(items[i]) + weight(x)
  {
    var n := |items| - 1;
    if i == n {
      assert items[i := x][..n] == items[..n];
    } else {
      assert items[i := x][..n] == items[..n][i := x];
      SumUpdate(items[..n], i, x, weight);
    }
  }

  function HoldsEvent(d: Dispatcher): nat {
    if d.Holding? then 1 else 0
  }

  function HoldsJobs(d: Dispatcher): nat {
    if d.Sending? then |d.jobs| else 0
  }

  function IsSending(d: Dispatcher): nat {
    if d.Sending? then 1 else 0
  }

  function IsRunning(h: Handler): nat {
    if h.Running? then 1 else 0
  }

  // How much is left to do, the most remote part first.
  datatype Backlog = Backlog(queued: nat, held: nat, unsent: nat, jobs: nat, busy: nat)

  function WorkLeft(f: Flow): Backlog {
    Backlog(|f.queue|, Sum(f.dispatchers, HoldsEvent), Sum(f.dispatchers, HoldsJobs), |f.jobs|,
            Sum(f.dispatchers, IsSending) + Sum(f.handlers, IsRunning))
  }

  predicate Less(a: Backlog, b: Backlog) {
    || a.queued < b.queued
    || (a.queued == b.queued
        && (|| a.held < b.held
            || (a.held == b.held
                && (|| a.unsent < b.unsent
                    || (a.unsent == b.unsent && (a.jobs < b.jobs || (a.jobs == b.jobs && a.busy < b.busy)))))))
  }

  // A step that a worker takes on the way to rest.
  predicate IsWork(s: Step) {
    s.Take? || s.Dispatch? || s.Send? || s.EndDispatch? || s.Grab? || s.Finish?
  }

  lemma {:induction false} Listed(m: multiset<nat>) returns (clients: seq<nat>)
    ensures multiset(clients) == m
    decreases |m|
  {
    if m == multiset{} {
      clients := [];
    } else {
      var c :| c in m;
      var rest := Listed(m - multiset{c});
      clients := rest + [c];
      assert m == m - multiset{c} + multiset{c};
    }
  }

  // Every such step of a dispatcher leaves less to do...
  lemma DispatcherWorks(f: Flow, subs: Subscribers, s: Step)
    requires IsWork(s) && ByDispatcher(s) && DispatcherEnabled(f, subs, false, s)
    ensures Less(WorkLeft(DispatcherNext(f, subs, false, s)), WorkLeft(f))
  {
    var x := DispatcherNext(f, subs, false, s).dispatchers[s.d];
    SumUpdate(f.dispatchers, s.d, x, HoldsEvent);
    SumUpdate(f.dispatchers, s.d, x, HoldsJobs);
    SumUpdate(f.dispatchers, s.d, x, IsSending);
  }

  // ... and every step of a handler.
  lemma HandlerWorks(f: Flow, s: Step)
    requires IsWork(s) && ByHandler(s) && HandlerEnabled(f, false, s)
    ensures Less(WorkLeft(HandlerNext(f, false, s)), WorkLeft(f))
  {
    SumUpdate(f.handlers, s.h, HandlerNext(f, false, s).handlers[s.h], IsRunning);
  }

  // Unless the bus is at rest, some worker can take a step.
  lemma WorkerFree(b: Bus) returns (s: Step)
    requires Inv(b) && !b.cancelled && b.flow.dispatchers != [] && b.flow.handlers != [] && !AtRest(b.flow)
    ensures IsWork(s) && Enabled(b, s)
  {
    var f := b.flow;
    if h: nat :| h < |f.handlers| && f.handlers[h].Running? {
      s := Finish(h);
    } else if f.jobs != [] {
      s := Grab(0);
    } else if d: nat :| d < |f.dispatchers| && !f.dispatchers[d].Resting? {
      if f.dispatchers[d].Holding? {
        var clients := Listed(Matching(b.subs.listeners, f.dispatchers[d].msg.topics));
        s := Dispatch(d, clients);
      } else if f.dispatchers[d].jobs != [] {
        s := Send(d);
      } else {
        s := EndDispatch(d);
      }
    } else {
      s := Take(0);
    }
  }

  lemma WorkDone(b: Bus, s: Step)
    requires Inv(b) && !b.cancelled && b.flow.dispatchers != [] && b.flow.handlers != [] && IsWork(s) && Enabled(b, s)
    ensures var b' := Next(b, s);
            && Inv(b') && !b'.cancelled && b'.flow.dispatchers != [] && b'.flow.handlers != []
            && Less(WorkLeft(b'.flow), WorkLeft(b.flow))
  {
    StepKeepsInv(b, s);
    if ByDispatcher(s) {
      DispatcherWorks(b.flow, b.subs, s);
    } else {
      HandlerWorks(b.flow, s);
    }
  }

  // Whatever state it is in, a started bus that was not stopped comes to rest when its
  // workers go on: there is always a step for one of them, and each leaves less to do.
  lemma {:induction false} Drains(b: Bus) returns (steps: seq<Step>)
    requires Inv(b) && !b.cancelled && b.flow.dispatchers != [] && b.flow.handlers != []
    ensures IsRun(b, steps) && forall i | 0 <= i < |steps| :: IsWork(steps[i])
    ensures AtRest(After(b, steps).flow)
    decreases WorkLeft(b.flow).queued, WorkLeft(b.flow).held, WorkLeft(b.flow).unsent, WorkLeft(b.flow).jobs,
              WorkLeft(b.flow).busy
  {
    if AtRest(b.flow) {
      steps := [];
    } else {
      var s := WorkerFree(b);
      WorkDone(b, s);
      var rest := Drains(Next(b, s));
      steps := [s] + rest;
      assert steps[1..] == rest;
    }
  }

  // Wherever events are accepted there are workers.
  ghost predicate Staffed(o: Seen) {
    o.started || o.stopped || o.publishing != [] || o.accepted != [] ==> o.workers >= 10
  }

  lemma {:induction false} WatchStaffed(o: Seen, steps: seq<Step>)
    requires Staffed(o)
    ensures Staffed(WatchAll(o, steps))
    decreases |steps|
  {
    if steps != [] {
      WatchStaffed(Watch(o, steps[0]), steps[1..]);
    }
  }

  // Nobody publishes, subscribes, starts or stops while the workers go on.
  lemma {:induction false} WorkWatched(o: Seen, steps: seq<Step>)
    requires forall i | 0 <= i < |steps| :: IsWork(steps[i])
    ensures WatchAll(o, steps).accepted == o.accepted && WatchAll(o, steps).stopped == o.stopped
    ensures EndedOnce(o, steps)
    decreases |steps|
  {
    if steps != [] {
      WorkWatched(Watch(o, steps[0]), steps[1..]);
    }
  }

  lemma {:induction false} Continued(b: Bus, a: seq<Step>, c: seq<Step>, o: Seen)
    requires IsRun(b, a) && IsRun(After(b, a), c)
    ensures IsRun(b, a + c) && After(b, a + c) == After(After(b, a), c)
    ensures WatchAll(o, a + c) == WatchAll(WatchAll(o, a), c)
    ensures EndedOnce(o, a + c) <==> EndedOnce(o, a) && EndedOnce(WatchAll(o, a), c)
    decreases |a|
  {
    if a == [] {
      assert a + c == c;
    } else {
      assert (a + c)[1..] == a[1..] + c;
      Continued(Next(b, a[0]), a[1..], c, Watch(o, a[0]));
    }
  }

  // From every point of every run of a bus that was not stopped, its workers alone can
  // bring about that every accepted event is delivered: called for it are exactly the
  // subscribers that are active when it is dispatched, as often as their topic occurs.
  lemma Deliverable(steps: seq<Step>, id: nat) returns (more: seq<Step>, k: nat)
    requires IsRun(NewBus(), steps) && EndedOnce(Nothing(), steps) && !WatchAll(Nothing(), steps).stopped
    requires id < |WatchAll(Nothing(), steps).accepted|
    ensures IsRun(NewBus(), steps + more) && k < |steps + more| && forall i | 0 <= i < |more| :: IsWork(more[i])
    ensures var active := WatchAll(Nothing(), (steps + more)[..k]).active;
            var topics := WatchAll(Nothing(), steps).accepted[id];
            forall c :: Called(After(NewBus(), steps + more).flow, id)[c]
                        == if c in active then multiset(topics)[active[c]] else 0
  {
    var o := WatchAll(Nothing(), steps);
    NewBusInv();
    RunKeepsInv(NewBus(), steps);
    RunSeen(NewBus(), steps, Nothing());
    WatchStaffed(Nothing(), steps);
    more := Drains(After(NewBus(), steps));
    WorkWatched(o, more);
    Continued(NewBus(), steps, more, Nothing());
    k := Delivered(steps + more, id);
  }
}
