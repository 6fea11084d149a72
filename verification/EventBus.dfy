/**
 The event bus: published events wait in a bounded queue, dispatchers turn each of
 them into one job per registered listener, and handlers run the jobs from a second
 bounded queue.  Publishers, dispatchers and handlers interleave freely.
 */
module EventBus {
  import opened Options

  const EVENT_QUEUE_SIZE := 1000
  const HANDLER_QUEUE_SIZE := 5000
  const NUMBER_OF_WORKERS := 10

  // ---------- Subscriptions ----------

  // The listeners of a topic are held in a table of their own; an unsubscribe closure
  // remembers its table.
  datatype Listeners = Listeners(tables: map<nat, set<nat>>, byTopic: map<string, nat>, nextTable: nat, lastClient: nat)

  datatype Subscription = Subscription(topic: string, table: nat, client: nat)

  function TableOf(l: Listeners, table: nat): set<nat> {
    if table in l.tables then l.tables[table] else {}
  }

  function Of(l: Listeners, topic: string): set<nat> {
    if topic in l.byTopic then TableOf(l, l.byTopic[topic]) else {}
  }

  function Subscribed(l: Listeners, topic: string): (Listeners, Subscription) {
    var client := l.lastClient + 1;
    var table := if topic in l.byTopic then l.byTopic[topic] else l.nextTable;
    var clients := if topic in l.byTopic && table in l.tables then l.tables[table] else {};
    (Listeners(l.tables[table := clients + {client}], l.byTopic[topic := table],
               if topic in l.byTopic then l.nextTable else l.nextTable + 1, client),
     Subscription(topic, table, client))
  }

  function Unsubscribed(l: Listeners, s: Subscription): Listeners {
    var left := TableOf(l, s.table) - {s.client};
    l.(tables := l.tables[s.table := left], byTopic := if left == {} then l.byTopic - {s.topic} else l.byTopic)
  }

  // Every registered topic has a table of its own.
  ghost predicate Separate(l: Listeners) {
    && (forall t | t in l.byTopic :: l.byTopic[t] in l.tables && l.tables[l.byTopic[t]] != {})
    && (forall t, u | t in l.byTopic && u in l.byTopic && l.byTopic[t] == l.byTopic[u] :: t == u)
    && (forall k | k in l.tables :: k < l.nextTable)
  }

  // It holds the clients of the active subscriptions to the topic and no others.
  ghost predicate Tracks(l: Listeners, active: map<nat, Subscription>) {
    && Separate(l)
    && (forall c | c in active ::
          var s := active[c];
          s.client == c <= l.lastClient && s.topic in l.byTopic && l.byTopic[s.topic] == s.table)
    && (forall t, c :: c in Of(l, t) <==> c in active && active[c].topic == t)
  }

  lemma SubscribeSeparate(l: Listeners, topic: string)
    requires Separate(l)
    ensures var (l', s) := Subscribed(l, topic);
            && Separate(l')
            && forall t :: Of(l', t) == if t == topic then Of(l, t) + {s.client} else Of(l, t)
  {
    var (l', s) := Subscribed(l, topic);
    assert s.client in l'.tables[s.table];
    forall t ensures Of(l', t) == if t == topic then Of(l, t) + {s.client} else Of(l, t) {
      assert t in l.byTopic && t != topic ==> l.byTopic[t] != s.table;
    }
  }

  // While every closure is called at most once, a subscription adds one listener and
  // an unsubscription removes that one, whatever the order.
  lemma SubscribeTracks(l: Listeners, active: map<nat, Subscription>, topic: string)
    requires Tracks(l, active)
    ensures var (l', s) := Subscribed(l, topic);
            && s.client !in active && Tracks(l', active[s.client := s])
            && forall t :: Of(l', t) == if t == topic then Of(l, t) + {s.client} else Of(l, t)
  {
    SubscribeSeparate(l, topic);
  }

  lemma UnsubscribeTracks(l: Listeners, active: map<nat, Subscription>, client: nat)
    requires Tracks(l, active) && client in active
    ensures var s := active[client];
            && Tracks(Unsubscribed(l, s), active - {client})
            && forall t :: Of(Unsubscribed(l, s), t) == if t == s.topic then Of(l, t) - {client} else Of(l, t)
  {
    var s := active[client];
    var l' := Unsubscribed(l, s);
    forall t ensures Of(l', t) == if t == s.topic then Of(l, t) - {client} else Of(l, t) {
      assert t in l.byTopic && t != s.topic ==> l.byTopic[t] != s.table;
    }
    forall c | c in active && c != client ensures active[c].topic in l'.byTopic {
      if active[c].topic == s.topic {
        assert c in Of(l, s.topic) && c in l.tables[s.table] - {client};
      }
    }
  }

  // Calling a closure a second time takes the listeners of its topic away exactly when
  // the table it remembers is empty.
  lemma SecondUnsubscribe(l: Listeners, s: Subscription, t: string)
    requires s.client !in TableOf(l, s.table)
    ensures Of(Unsubscribed(l, s), t) == if t == s.topic && TableOf(l, s.table) == {} then {} else Of(l, t)
  {
  }

  function NoListeners(): Listeners {
    Listeners(map[], map[], 0, 0)
  }

  // It happens: the closure of a first subscriber, called again, takes a second one away.
  lemma ListenerDropped(topic: string)
    ensures var (l1, a) := Subscribed(NoListeners(), topic);
            var (l2, b) := Subscribed(Unsubscribed(l1, a), topic);
            Of(l2, topic) == {b.client} && Of(Unsubscribed(l2, a), topic) == {}
  {
    var (l1, a) := Subscribed(NoListeners(), topic);
    assert TableOf(l1, a.table) - {a.client} == {};
  }

  class Registry {
    var l: Listeners

    constructor ()
      ensures Tracks(l, map[]) && forall t :: Of(l, t) == {}
    {
      l := NoListeners();
    }

    // `None` when the bus is not started, the topic is empty or there is no handler.
    method Subscribe(started: bool, topic: string, hasHandler: bool) returns (s: Option<Subscription>)
      modifies this
      ensures s.Some? <==> started && topic != "" && hasHandler
      ensures if s.Some? then (l, s.value) == Subscribed(old(l), topic) else l == old(l)
    {
      if !started || topic == "" || !hasHandler {
        return None;
      }
      var table;
      if topic in l.byTopic {
        table := l.byTopic[topic];
      } else {
        table := l.nextTable;
        l := l.(tables := l.tables[table := {}], byTopic := l.byTopic[topic := table], nextTable := table + 1);
      }
      var client := l.lastClient + 1;
      var clients := if table in l.tables then l.tables[table] else {};
      l := l.(tables := l.tables[table := clients + {client}], lastClient := client);
      s := Some(Subscription(topic, table, client));
      assert l.byTopic == old(l).byTopic[topic := table];
      assert l.tables == old(l).tables[table := clients + {client}];
    }

    method Unsubscribe(s: Subscription)
      requires s.table in l.tables
      modifies this
      ensures l == Unsubscribed(old(l), s)
    {
      l := l.(tables := l.tables[s.table := l.tables[s.table] - {s.client}]);
      if l.tables[s.table] == {} {
        l := l.(byTopic := l.byTopic - {s.topic});
      }
    }
  }

  // ---------- Dispatch ----------

  // Every listener of every topic occurrence, with multiplicity.
  ghost function Matching(l: Listeners, topics: seq<string>): multiset<nat> {
    if topics == [] then multiset{}
    else Matching(l, topics[..|topics| - 1]) + multiset(Of(l, topics[|topics| - 1]))
  }

  method AppendAll(clients: seq<nat>, more: set<nat>) returns (r: seq<nat>)
    ensures multiset(r) == multiset(clients) + multiset(more)
  {
    r := clients;
    var pending := more;
    while pending != {}
      invariant pending <= more
      invariant multiset(r) == multiset(clients) + multiset(more - pending)
      decreases pending
    {
      var client :| client in pending;
      var rest := pending - {client};
      assert more - rest == (more - pending) + {client};
      r, pending := r + [client], rest;
    }
    assert more - {} == more;
  }

  method CollectHandlers(l: Listeners, topics: seq<string>) returns (clients: seq<nat>)
    ensures multiset(clients) == Matching(l, topics)
  {
    clients := [];
    var i := 0;
    while i < |topics|
      invariant 0 <= i <= |topics|
      invariant multiset(clients) == Matching(l, topics[..i])
    {
      clients := AppendAll(clients, Of(l, topics[i]));
      assert topics[..i + 1][..i] == topics[..i];
      i := i + 1;
    }
    assert topics[..i] == topics;
  }

  // ---------- The bus ----------

  // An accepted event, numbered in the order of acceptance.
  datatype Message = Message(id: nat, topics: seq<string>)

  // The `index`-th job of an event.
  datatype Job = Job(event: nat, index: nat, client: nat)

  datatype Dispatcher = Resting | Holding(msg: Message) | Sending(jobs: seq<Job>) | Gone

  datatype Handler = Waiting | Running(job: Job) | Left

  // The tables, the unsubscribe closures handed out, and the subscriptions whose closure
  // has not been called.
  datatype Subscribers = Subscribers(
    listeners: Listeners, closures: map<nat, Subscription>, active: map<nat, Subscription>)

  function Joined(x: Subscribers, topic: string): Subscribers {
    var (l, s) := Subscribed(x.listeners, topic);
    Subscribers(l, x.closures[s.client := s], x.active[s.client := s])
  }

  function Parted(x: Subscribers, client: nat): Subscribers
    requires client in x.closures
  {
    Subscribers(Unsubscribed(x.listeners, x.closures[client]), x.closures, x.active - {client})
  }

  // How an event was dispatched: the subscribers at that time, and the clients for
  // which jobs were made, in order.
  datatype Plan = Plan(subs: Subscribers, clients: seq<nat>)

  // Events and jobs on their way, and where they went.
  datatype Flow = Flow(
    queue: seq<Message>, jobs: seq<Job>, dispatchers: seq<Dispatcher>, handlers: seq<Handler>,
    accepted: seq<seq<string>>, plans: map<nat, Plan>, ran: seq<Job>, discarded: seq<Job>)

  datatype Bus = Bus(
    started: bool, cancelled: bool, subs: Subscribers,
    subscribing: seq<string>,        // subscribers that have seen the bus started
    publishing: seq<seq<string>>,    // publishers that have
    flow: Flow)

  datatype Step =
    | StartBus
    | StopBus
    | SubscribeCheck(topic: string)
    | Subscribe(p: nat)
    | Unsubscribe(client: nat)
    | PublishCheck(topics: seq<string>)
    | PublishSend(p: nat)
    | Take(d: nat)
    | Dispatch(d: nat, clients: seq<nat>)
    | Send(d: nat)
    | Discard(d: nat)
    | EndDispatch(d: nat)
    | ExitDispatcher(d: nat)
    | Grab(h: nat)
    | Finish(h: nat)
    | ExitHandler(h: nat)

  predicate ByDispatcher(s: Step) {
    s.Take? || s.Dispatch? || s.Send? || s.Discard? || s.EndDispatch? || s.ExitDispatcher?
  }

  predicate ByHandler(s: Step) {
    s.Grab? || s.Finish? || s.ExitHandler?
  }

  ghost predicate DispatcherEnabled(f: Flow, subs: Subscribers, cancelled: bool, s: Step)
    requires ByDispatcher(s)
  {
    && s.d < |f.dispatchers|
    && var x := f.dispatchers[s.d];
       match s
       case Take(_) => x.Resting? && f.queue != []
       case Dispatch(_, clients) => x.Holding? && multiset(clients) == Matching(subs.listeners, x.msg.topics)
       case Send(_) => x.Sending? && x.jobs != [] && |f.jobs| < HANDLER_QUEUE_SIZE
       case Discard(_) => x.Sending? && x.jobs != [] && cancelled
       case EndDispatch(_) => x == Sending([])
       case ExitDispatcher(_) => x.Resting? && cancelled
  }

  predicate HandlerEnabled(f: Flow, cancelled: bool, s: Step)
    requires ByHandler(s)
  {
    && s.h < |f.handlers|
    && match s
       case Grab(h) => f.handlers[h].Waiting? && f.jobs != []
       case Finish(h) => f.handlers[h].Running?
       case ExitHandler(h) => f.handlers[h].Waiting? && cancelled
  }

  ghost predicate Enabled(b: Bus, s: Step) {
    if ByDispatcher(s) then DispatcherEnabled(b.flow, b.subs, b.cancelled, s)
    else if ByHandler(s) then HandlerEnabled(b.flow, b.cancelled, s)
    else
      match s
      case Subscribe(p) => p < |b.subscribing|
      case Unsubscribe(client) => client in b.subs.closures
      case PublishSend(p) => p < |b.publishing|
      case _ => true
  }

  function JobsOf(id: nat, clients: seq<nat>): seq<Job> {
    seq(|clients|, i requires 0 <= i < |clients| => Job(id, i, clients[i]))
  }

  ghost function DispatcherNext(f: Flow, subs: Subscribers, cancelled: bool, s: Step): Flow
    requires ByDispatcher(s) && DispatcherEnabled(f, subs, cancelled, s)
  {
    var x := f.dispatchers[s.d];
    match s
    case Take(d) => f.(queue := f.queue[1..], dispatchers := f.dispatchers[d := Holding(f.queue[0])])
    case Dispatch(d, clients) =>
      f.(dispatchers := f.dispatchers[d := Sending(JobsOf(x.msg.id, clients))],
         plans := f.plans[x.msg.id := Plan(subs, clients)])
    case Send(d) => f.(jobs := f.jobs + [x.jobs[0]], dispatchers := f.dispatchers[d := Sending(x.jobs[1..])])
    case Discard(d) =>
      f.(discarded := f.discarded + [x.jobs[0]], dispatchers := f.dispatchers[d := Sending(x.jobs[1..])])
    case EndDispatch(d) => f.(dispatchers := f.dispatchers[d := Resting])
    case ExitDispatcher(d) => f.(dispatchers := f.dispatchers[d := Gone])
  }

  function HandlerNext(f: Flow, cancelled: bool, s: Step): Flow
    requires ByHandler(s) && HandlerEnabled(f, cancelled, s)
  {
    match s
    case Grab(h) => f.(jobs := f.jobs[1..], handlers := f.handlers[h := Running(f.jobs[0])])
    case Finish(h) => f.(ran := f.ran + [f.handlers[h].job], handlers := f.handlers[h := Waiting])
    case ExitHandler(h) => f.(handlers := f.handlers[h := Left])
  }

  // The workers that a start adds.
  function WithWorkers(f: Flow, n: nat): Flow
    decreases n
  {
    if n == 0 then f
    else
      var more := WithWorkers(f, n - 1);
      more.(dispatchers := more.dispatchers + [Resting], handlers := more.handlers + [Waiting])
  }

  // An event is accepted unless the queue is full.
  function Accepting(f: Flow, topics: seq<string>): Flow {
    if |f.queue| < EVENT_QUEUE_SIZE then
      f.(queue := f.queue + [Message(|f.accepted|, topics)], accepted := f.accepted + [topics])
    else f
  }

  function Without<T>(s: seq<T>, i: nat): seq<T>
    requires i < |s|
  {
    s[..i] + s[i + 1..]
  }

  ghost function CallerNext(b: Bus, s: Step): Bus
    requires !ByDispatcher(s) && !ByHandler(s) && Enabled(b, s)
  {
    match s
    case StartBus => if b.started then b else b.(started := true, flow := WithWorkers(b.flow, NUMBER_OF_WORKERS))
    case StopBus => if b.started then b.(started := false, cancelled := true) else b
    case SubscribeCheck(topic) => if b.started && topic != "" then b.(subscribing := b.subscribing + [topic]) else b
    case Subscribe(p) => b.(subscribing := Without(b.subscribing, p), subs := Joined(b.subs, b.subscribing[p]))
    case Unsubscribe(client) => b.(subs := Parted(b.subs, client))
    case PublishCheck(topics) => if b.started then b.(publishing := b.publishing + [topics]) else b
    case PublishSend(p) => b.(publishing := Without(b.publishing, p), flow := Accepting(b.flow, b.publishing[p]))
  }

  ghost function Next(b: Bus, s: Step): Bus
    requires Enabled(b, s)
  {
    if ByDispatcher(s) then b.(flow := DispatcherNext(b.flow, b.subs, b.cancelled, s))
    else if ByHandler(s) then b.(flow := HandlerNext(b.flow, b.cancelled, s))
    else CallerNext(b, s)
  }

  // ---------- Where events and jobs are ----------

  ghost function InQueue(queue: seq<Message>, id: nat): nat {
    if queue == [] then 0 else InQueue(queue[..|queue| - 1], id) + One(queue[|queue| - 1].id == id)
  }

  ghost function One(b: bool): nat {
    if b then 1 else 0
  }

  ghost function Held(d: Dispatcher, id: nat): nat {
    One(d.Holding? && d.msg.id == id)
  }

  ghost function ToSend(d: Dispatcher, j: Job): nat {
    if d.Sending? then multiset(d.jobs)[j] else 0
  }

  ghost function AllHeld(ds: seq<Dispatcher>, id: nat): nat {
    if ds == [] then 0 else AllHeld(ds[..|ds| - 1], id) + Held(ds[|ds| - 1], id)
  }

  ghost function AllToSend(ds: seq<Dispatcher>, j: Job): nat {
    if ds == [] then 0 else AllToSend(ds[..|ds| - 1], j) + ToSend(ds[|ds| - 1], j)
  }

  ghost function AllRunning(hs: seq<Handler>, j: Job): nat {
    if hs == [] then 0 else AllRunning(hs[..|hs| - 1], j) + One(hs[|hs| - 1] == Running(j))
  }

  // How often an accepted event is present: waiting, held by a dispatcher, or
  // dispatched.
  ghost function Presence(f: Flow, id: nat): nat {
    InQueue(f.queue, id) + AllHeld(f.dispatchers, id) + One(id in f.plans)
  }

  // How often a job is present: to be sent, queued, running, run or discarded.
  ghost function JobPresence(f: Flow, j: Job): nat {
    AllToSend(f.dispatchers, j) + multiset(f.jobs)[j] + AllRunning(f.handlers, j) + multiset(f.ran)[j]
    + multiset(f.discarded)[j]
  }

  predicate Planned(f: Flow, j: Job) {
    j.event in f.plans && j.index < |f.plans[j.event].clients| && f.plans[j.event].clients[j.index] == j.client
  }

  predicate Known(f: Flow, msg: Message) {
    msg.id < |f.accepted| && f.accepted[msg.id] == msg.topics
  }

  // An event was dispatched to those who listened to its topics.
  ghost predicate Fair(f: Flow, id: nat)
    requires id in f.plans
  {
    id < |f.accepted| && multiset(f.plans[id].clients) == Matching(f.plans[id].subs.listeners, f.accepted[id])
  }

  // Every event and every job is in one place.
  ghost predicate Counted(f: Flow) {
    && (forall id: nat :: Presence(f, id) == One(id < |f.accepted|))
    && (forall j: Job :: JobPresence(f, j) == One(Planned(f, j)))
  }

  // Queues are bounded, events are known and dispatched fairly, and workers and jobs
  // go away only after a stop.
  ghost predicate Ordered(f: Flow, cancelled: bool) {
    && |f.queue| <= EVENT_QUEUE_SIZE && |f.jobs| <= HANDLER_QUEUE_SIZE
    && (forall id | id in f.plans :: Fair(f, id))
    && (forall i | 0 <= i < |f.queue| :: Known(f, f.queue[i]))
    && (forall d | 0 <= d < |f.dispatchers| :: f.dispatchers[d].Holding? ==> Known(f, f.dispatchers[d].msg))
    && (!cancelled ==>
          && f.discarded == []
          && (forall d | 0 <= d < |f.dispatchers| :: !f.dispatchers[d].Gone?)
          && (forall h | 0 <= h < |f.handlers| :: !f.handlers[h].Left?))
  }

  ghost predicate FlowInv(f: Flow, cancelled: bool) {
    Counted(f) && Ordered(f, cancelled)
  }

  ghost predicate Inv(b: Bus) {
    FlowInv(b.flow, b.cancelled)
  }

  // ---------- Every step keeps the invariant ----------

  lemma {:induction false} DispatcherUpdate(ds: seq<Dispatcher>, d: nat, x: Dispatcher, id: nat, j: Job)
    requires d < |ds|
    ensures AllHeld(ds[d := x], id) == AllHeld(ds, id) - Held(ds[d], id) + Held(x, id)
    ensures AllToSend(ds[d := x], j) == AllToSend(ds, j) - ToSend(ds[d], j) + ToSend(x, j)
    decreases |ds|
  {
    var n := |ds| - 1;
    if d == n {
      assert ds[d := x][..n] == ds[..n];
    } else {
      assert ds[d := x][..n] == ds[..n][d := x];
      DispatcherUpdate(ds[..n], d, x, id, j);
    }
  }

  lemma {:induction false} HandlerUpdate(hs: seq<Handler>, h: nat, x: Handler, j: Job)
    requires h < |hs|
    ensures AllRunning(hs[h := x], j) == AllRunning(hs, j) - One(hs[h] == Running(j)) + One(x == Running(j))
    decreases |hs|
  {
    var n := |hs| - 1;
    if h == n {
      assert hs[h := x][..n] == hs[..n];
    } else {
      assert hs[h := x][..n] == hs[..n][h := x];
      HandlerUpdate(hs[..n], h, x, j);
    }
  }

  // Workers that have just started hold nothing, and nothing else changes.
  lemma {:induction false} WorkersHoldNothing(f: Flow, n: nat, id: nat, j: Job)
    ensures Presence(WithWorkers(f, n), id) == Presence(f, id)
    ensures JobPresence(WithWorkers(f, n), j) == JobPresence(f, j)
    decreases n
  {
    if n > 0 {
      var more := WithWorkers(f, n - 1);
      WorkersHoldNothing(f, n - 1, id, j);
      assert (more.dispatchers + [Resting])[..|more.dispatchers|] == more.dispatchers;
      assert (more.handlers + [Waiting])[..|more.handlers|] == more.handlers;
    }
  }

  lemma {:induction false} WorkersOnly(f: Flow, n: nat)
    ensures var f' := WithWorkers(f, n);
            && f' == f.(dispatchers := f'.dispatchers, handlers := f'.handlers)
            && f.dispatchers <= f'.dispatchers && f.handlers <= f'.handlers
            && (forall d | |f.dispatchers| <= d < |f'.dispatchers| :: f'.dispatchers[d].Resting?)
            && (forall h | |f.handlers| <= h < |f'.handlers| :: f'.handlers[h].Waiting?)
    decreases n
  {
    if n > 0 {
      WorkersOnly(f, n - 1);
    }
  }

  lemma {:induction false} QueueTake(queue: seq<Message>, id: nat)
    requires queue != []
    ensures InQueue(queue, id) == One(queue[0].id == id) + InQueue(queue[1..], id)
    decreases |queue|
  {
    var n := |queue| - 1;
    if n > 0 {
      QueueTake(queue[..n], id);
      assert queue[1..][..n - 1] == queue[..n][1..];
    } else {
      assert queue[..0] == [] && queue[1..] == [];
    }
  }

  lemma HeadCount(jobs: seq<Job>, j: Job)
    requires jobs != []
    ensures multiset(jobs)[j] == One(jobs[0] == j) + multiset(jobs[1..])[j]
  {
    assert jobs == [jobs[0]] + jobs[1..];
  }

  lemma {:induction false} FreshJobs(id: nat, clients: seq<nat>, j: Job)
    ensures multiset(JobsOf(id, clients))[j]
            == One(j.event == id && j.index < |clients| && clients[j.index] == j.client)
    decreases |clients|
  {
    if clients != [] {
      var n := |clients| - 1;
      FreshJobs(id, clients[..n], j);
      assert JobsOf(id, clients) == JobsOf(id, clients[..n]) + [Job(id, n, clients[n])];
    }
  }

  // No event is lost or dispatched twice by a dispatcher.
  lemma DispatchersKeepEvents(f: Flow, subs: Subscribers, cancelled: bool, s: Step, id: nat)
    requires ByDispatcher(s) && DispatcherEnabled(f, subs, cancelled, s)
    requires s.Dispatch? ==> f.dispatchers[s.d].msg.id !in f.plans
    ensures Presence(DispatcherNext(f, subs, cancelled, s), id) == Presence(f, id)
  {
    DispatcherUpdate(f.dispatchers, s.d, DispatcherNext(f, subs, cancelled, s).dispatchers[s.d], id, Job(0, 0, 0));
    if s.Take? {
      QueueTake(f.queue, id);
    }
  }

  // An event in the hands of a dispatcher has not been dispatched before.
  lemma HeldNotPlanned(f: Flow, d: nat)
    requires d < |f.dispatchers| && f.dispatchers[d].Holding? && Presence(f, f.dispatchers[d].msg.id) <= 1
    ensures f.dispatchers[d].msg.id !in f.plans
  {
    DispatcherUpdate(f.dispatchers, d, Resting, f.dispatchers[d].msg.id, Job(0, 0, 0));
  }

  // A dispatch makes the jobs of its plan.
  lemma DispatchMakesJobs(f: Flow, d: nat, plan: Plan, j: Job)
    requires d < |f.dispatchers| && f.dispatchers[d].Holding? && f.dispatchers[d].msg.id !in f.plans
    ensures var id := f.dispatchers[d].msg.id;
            var f' := f.(dispatchers := f.dispatchers[d := Sending(JobsOf(id, plan.clients))],
                        plans := f.plans[id := plan]);
            JobPresence(f', j) - One(Planned(f', j)) == JobPresence(f, j) - One(Planned(f, j))
  {
    var id := f.dispatchers[d].msg.id;
    DispatcherUpdate(f.dispatchers, d, Sending(JobsOf(id, plan.clients)), 0, j);
    FreshJobs(id, plan.clients, j);
  }

  // No job is lost, duplicated or made up by a dispatcher...
  lemma DispatchersKeepJobs(f: Flow, subs: Subscribers, cancelled: bool, s: Step, j: Job)
    requires ByDispatcher(s) && DispatcherEnabled(f, subs, cancelled, s) && JobPresence(f, j) == One(Planned(f, j))
    requires s.Dispatch? ==> f.dispatchers[s.d].msg.id !in f.plans
    ensures var f' := DispatcherNext(f, subs, cancelled, s); JobPresence(f', j) == One(Planned(f', j))
  {
    if s.Dispatch? {
      DispatchMakesJobs(f, s.d, Plan(subs, s.clients), j);
    } else {
      DispatcherUpdate(f.dispatchers, s.d, DispatcherNext(f, subs, cancelled, s).dispatchers[s.d], 0, j);
      if s.Send? || s.Discard? {
        HeadCount(f.dispatchers[s.d].jobs, j);
      }
    }
  }

  // ... nor by a handler.
  lemma HandlersKeepJobs(f: Flow, cancelled: bool, s: Step, j: Job)
    requires ByHandler(s) && HandlerEnabled(f, cancelled, s)
    ensures JobPresence(HandlerNext(f, cancelled, s), j) == JobPresence(f, j)
  {
    HandlerUpdate(f.handlers, s.h, HandlerNext(f, cancelled, s).handlers[s.h], j);
    if s.Grab? {
      HeadCount(f.jobs, j);
    }
  }

  lemma DispatchFair(f: Flow, subs: Subscribers, cancelled: bool, s: Step, id: nat)
    requires Ordered(f, cancelled) && s.Dispatch? && DispatcherEnabled(f, subs, cancelled, s)
    requires id in DispatcherNext(f, subs, cancelled, s).plans
    ensures Fair(DispatcherNext(f, subs, cancelled, s), id)
  {
    assert id in f.plans ==> Fair(f, id);
  }

  lemma DispatcherKeepsOrder(f: Flow, subs: Subscribers, cancelled: bool, s: Step)
    requires Ordered(f, cancelled) && ByDispatcher(s) && DispatcherEnabled(f, subs, cancelled, s)
    ensures Ordered(DispatcherNext(f, subs, cancelled, s), cancelled)
  {
    var f' := DispatcherNext(f, subs, cancelled, s);
    forall id | id in f'.plans ensures Fair(f', id) {
      if s.Dispatch? {
        DispatchFair(f, subs, cancelled, s, id);
      } else {
        assert f'.plans == f.plans && Fair(f, id);
      }
    }
  }

  lemma DispatcherKeepsInv(f: Flow, subs: Subscribers, cancelled: bool, s: Step)
    requires FlowInv(f, cancelled) && ByDispatcher(s) && DispatcherEnabled(f, subs, cancelled, s)
    ensures FlowInv(DispatcherNext(f, subs, cancelled, s), cancelled)
  {
    var f' := DispatcherNext(f, subs, cancelled, s);
    if s.Dispatch? {
      HeldNotPlanned(f, s.d);
    }
    forall id: nat ensures Presence(f', id) == One(id < |f'.accepted|) {
      DispatchersKeepEvents(f, subs, cancelled, s, id);
    }
    forall j: Job ensures JobPresence(f', j) == One(Planned(f', j)) {
      DispatchersKeepJobs(f, subs, cancelled, s, j);
    }
    DispatcherKeepsOrder(f, subs, cancelled, s);
  }

  lemma HandlerKeepsInv(f: Flow, cancelled: bool, s: Step)
    requires FlowInv(f, cancelled) && ByHandler(s) && HandlerEnabled(f, cancelled, s)
    ensures FlowInv(HandlerNext(f, cancelled, s), cancelled)
  {
    var f' := HandlerNext(f, cancelled, s);
    forall id: nat ensures Presence(f', id) == One(id < |f'.accepted|) {
      assert Presence(f', id) == Presence(f, id);
    }
    forall j: Job ensures JobPresence(f', j) == One(Planned(f', j)) {
      HandlersKeepJobs(f, cancelled, s, j);
      assert Planned(f', j) == Planned(f, j);
    }
  }

  lemma WorkersKeepInv(f: Flow, cancelled: bool, n: nat)
    requires FlowInv(f, cancelled)
    ensures FlowInv(WithWorkers(f, n), cancelled)
  {
    var f' := WithWorkers(f, n);
    WorkersOnly(f, n);
    forall id: nat ensures Presence(f', id) == One(id < |f'.accepted|) {
      WorkersHoldNothing(f, n, id, Job(0, 0, 0));
    }
    forall j: Job ensures JobPresence(f', j) == One(Planned(f', j)) {
      WorkersHoldNothing(f, n, 0, j);
    }
  }

  lemma AcceptingKeepsOrder(f: Flow, cancelled: bool, topics: seq<string>)
    requires Ordered(f, cancelled)
    ensures Ordered(Accepting(f, topics), cancelled)
  {
    var f' := Accepting(f, topics);
    forall id | id in f'.plans ensures Fair(f', id) {
      assert Fair(f, id);
    }
  }

  lemma AcceptingKeepsInv(f: Flow, cancelled: bool, topics: seq<string>)
    requires FlowInv(f, cancelled)
    ensures FlowInv(Accepting(f, topics), cancelled)
  {
    var f' := Accepting(f, topics);
    AcceptingKeepsOrder(f, cancelled, topics);
    forall id: nat ensures Presence(f', id) == One(id < |f'.accepted|) {
      assert (f.queue + [Message(|f.accepted|, topics)])[..|f.queue|] == f.queue;
      assert Presence(f, id) == One(id < |f.accepted|);
    }
    forall j: Job ensures JobPresence(f', j) == One(Planned(f', j)) {
      assert JobPresence(f', j) == JobPresence(f, j) && Planned(f', j) == Planned(f, j);
    }
  }

  lemma StepKeepsInv(b: Bus, s: Step)
    requires Inv(b) && Enabled(b, s)
    ensures Inv(Next(b, s))
  {
    if ByDispatcher(s) {
      DispatcherKeepsInv(b.flow, b.subs, b.cancelled, s);
    } else if ByHandler(s) {
      HandlerKeepsInv(b.flow, b.cancelled, s);
    } else {
      CallerKeepsInv(b, s);
    }
  }

  lemma CallerKeepsInv(b: Bus, s: Step)
    requires Inv(b) && !ByDispatcher(s) && !ByHandler(s) && Enabled(b, s)
    ensures Inv(CallerNext(b, s))
  {
    if s.StartBus? {
      WorkersKeepInv(b.flow, b.cancelled, NUMBER_OF_WORKERS);
    } else if s.PublishSend? {
      AcceptingKeepsInv(b.flow, b.cancelled, b.publishing[s.p]);
    }
  }

  // ---------- Runs ----------

  ghost predicate IsRun(b: Bus, steps: seq<Step>)
    decreases |steps|
  {
    steps != [] ==> Enabled(b, steps[0]) && IsRun(Next(b, steps[0]), steps[1..])
  }

  ghost function After(b: Bus, steps: seq<Step>): Bus
    requires IsRun(b, steps)
    decreases |steps|
  {
    if steps == [] then b else After(Next(b, steps[0]), steps[1..])
  }

  function NewBus(): Bus {
    Bus(false, false, Subscribers(NoListeners(), map[], map[]), [], [], Flow([], [], [], [], [], map[], [], []))
  }

  // In every interleaving the queues keep their bounds, every accepted event is in one
  // place, its jobs are one for each matching topic occurrence and listener at the time
  // of its dispatch, each job is in one place, so that it runs at most once, and
  // nothing is discarded before the bus is stopped.
  lemma {:induction false} RunKeepsInv(b: Bus, steps: seq<Step>)
    requires Inv(b) && IsRun(b, steps)
    ensures Inv(After(b, steps))
    decreases |steps|
  {
    if steps != [] {
      StepKeepsInv(b, steps[0]);
      RunKeepsInv(Next(b, steps[0]), steps[1..]);
    }
  }

  lemma NewBusInv()
    ensures Inv(NewBus())
  {
  }

  // ---------- Who was called ----------

  // The jobs of one event.
  function JobsFor(jobs: seq<Job>, id: nat): seq<Job> {
    if jobs == [] then []
    else
      var last := jobs[|jobs| - 1];
      JobsFor(jobs[..|jobs| - 1], id) + if last.event == id then [last] else []
  }

  function ClientsOf(jobs: seq<Job>): seq<nat> {
    seq(|jobs|, i requires 0 <= i < |jobs| => jobs[i].client)
  }

  // The clients whose handlers have run for an event, with multiplicity.
  function Called(f: Flow, id: nat): multiset<nat> {
    multiset(ClientsOf(JobsFor(f.ran, id)))
  }

  lemma {:induction false} JobsForCount(jobs: seq<Job>, id: nat, j: Job)
    ensures multiset(JobsFor(jobs, id))[j] == if j.event == id then multiset(jobs)[j] else 0
  {
    if jobs != [] {
      var n := |jobs| - 1;
      JobsForCount(jobs[..n], id, j);
      assert jobs == jobs[..n] + [jobs[n]];
    }
  }

  lemma ClientsSplit(a: seq<Job>, b: seq<Job>)
    ensures ClientsOf(a + b) == ClientsOf(a) + ClientsOf(b)
  {
  }

  lemma Cancel<T>(m: multiset<T>, k: multiset<T>, x: T)
    requires m + multiset{x} <= k + multiset{x}
    ensures m <= k
  {
    forall y ensures m[y] <= k[y] {
      assert (m + multiset{x})[y] <= (k + multiset{x})[y];
    }
  }

  // The same jobs, in whatever order, call the same clients.
  lemma {:induction false} ClientsMonotone(a: seq<Job>, b: seq<Job>)
    requires multiset(a) <= multiset(b)
    ensures multiset(ClientsOf(a)) <= multiset(ClientsOf(b))
  {
    if a != [] {
      var n := |a| - 1;
      assert a == a[..n] + [a[n]];
      assert a[n] in multiset(a);
      var i :| 0 <= i < |b| && b[i] == a[n];
      var rest := b[..i] + b[i + 1..];
      assert b == b[..i] + [b[i]] + b[i + 1..];
      Cancel(multiset(a[..n]), multiset(rest), a[n]);
      ClientsMonotone(a[..n], rest);
      ClientsSplit(a[..n], [a[n]]);
      ClientsSplit(b[..i], b[i + 1..]);
      ClientsSplit(b[..i] + [b[i]], b[i + 1..]);
      ClientsSplit(b[..i], [b[i]]);
    }
  }

  lemma ClientsBack(id: nat, clients: seq<nat>)
    ensures ClientsOf(JobsOf(id, clients)) == clients
  {
  }

  // The jobs of an event that have run are among those of its plan.
  lemma RanPlanned(f: Flow, cancelled: bool, id: nat)
    requires FlowInv(f, cancelled) && id in f.plans
    ensures multiset(JobsFor(f.ran, id)) <= multiset(JobsOf(id, f.plans[id].clients))
  {
    forall j ensures multiset(JobsFor(f.ran, id))[j] <= multiset(JobsOf(id, f.plans[id].clients))[j] {
      JobsForCount(f.ran, id, j);
      FreshJobs(id, f.plans[id].clients, j);
      assert JobPresence(f, j) == One(Planned(f, j));
    }
  }

  lemma NoneRan(f: Flow, cancelled: bool, id: nat)
    requires FlowInv(f, cancelled) && id !in f.plans
    ensures Called(f, id) == multiset{}
  {
    forall j ensures multiset(JobsFor(f.ran, id))[j] == 0 {
      JobsForCount(f.ran, id, j);
      assert JobPresence(f, j) == One(Planned(f, j));
    }
    assert multiset(JobsFor(f.ran, id)) == multiset{};
    assert |JobsFor(f.ran, id)| == 0;
  }

  lemma CalledPlanned(f: Flow, cancelled: bool, id: nat)
    requires FlowInv(f, cancelled) && id in f.plans
    ensures id < |f.accepted| && Called(f, id) <= Matching(f.plans[id].subs.listeners, f.accepted[id])
  {
    assert Fair(f, id);
    RanPlanned(f, cancelled, id);
    ClientsMonotone(JobsFor(f.ran, id), JobsOf(id, f.plans[id].clients));
    ClientsBack(id, f.plans[id].clients);
  }

  // At every moment of every run, no job has run twice, and the handlers that have run
  // for an event are among those that listened to its topics when it was dispatched, once
  // for each occurrence.
  lemma JobRunsAtMostOnce(steps: seq<Step>, id: nat)
    requires IsRun(NewBus(), steps)
    ensures var f := After(NewBus(), steps).flow;
            if id in f.plans then
              id < |f.accepted| && Called(f, id) <= Matching(f.plans[id].subs.listeners, f.accepted[id])
            else Called(f, id) == multiset{}
    ensures forall j :: multiset(After(NewBus(), steps).flow.ran)[j] <= 1
  {
    NewBusInv();
    RunKeepsInv(NewBus(), steps);
    var b := After(NewBus(), steps);
    forall j ensures multiset(b.flow.ran)[j] <= 1 {
      assert JobPresence(b.flow, j) == One(Planned(b.flow, j));
    }
    if id in b.flow.plans {
      CalledPlanned(b.flow, b.cancelled, id);
    } else {
      NoneRan(b.flow, b.cancelled, id);
    }
  }

  lemma CallerPlans(b: Bus, s: Step)
    requires !ByDispatcher(s) && !ByHandler(s) && Enabled(b, s)
    ensures CallerNext(b, s).flow.plans == b.flow.plans
  {
    if s.StartBus? {
      WorkersOnly(b.flow, NUMBER_OF_WORKERS);
    }
  }

  // Only a dispatch makes a plan, from the subscribers of that moment...
  lemma StepPlans(b: Bus, s: Step)
    requires Enabled(b, s)
    ensures Next(b, s).flow.plans
            == if s.Dispatch? then b.flow.plans[b.flow.dispatchers[s.d].msg.id := Plan(b.subs, s.clients)]
               else b.flow.plans
  {
    if !ByDispatcher(s) && !ByHandler(s) {
      CallerPlans(b, s);
    }
  }

  // ... and nothing changes it.
  lemma StepKeepsPlans(b: Bus, s: Step, id: nat)
    requires Inv(b) && Enabled(b, s) && id in b.flow.plans
    ensures id in Next(b, s).flow.plans && Next(b, s).flow.plans[id] == b.flow.plans[id]
  {
    StepPlans(b, s);
    if s.Dispatch? {
      assert Presence(b.flow, b.flow.dispatchers[s.d].msg.id) <= 1;
      HeldNotPlanned(b.flow, s.d);
    }
  }

  lemma {:induction false} RunKeepsPlans(b: Bus, steps: seq<Step>, id: nat)
    requires Inv(b) && IsRun(b, steps) && id in b.flow.plans
    ensures id in After(b, steps).flow.plans && After(b, steps).flow.plans[id] == b.flow.plans[id]
    decreases |steps|
  {
    if steps != [] {
      StepKeepsPlans(b, steps[0], id);
      StepKeepsInv(b, steps[0]);
      RunKeepsPlans(Next(b, steps[0]), steps[1..], id);
    }
  }

  // Step `k` dispatches the event, with that plan.
  ghost predicate DispatchedAt(b: Bus, steps: seq<Step>, k: nat, id: nat, plan: Plan)
    decreases |steps|
  {
    && k < |steps| && Enabled(b, steps[0])
    && if k == 0 then
         && steps[0].Dispatch? && b.flow.dispatchers[steps[0].d].msg.id == id
         && plan == Plan(b.subs, steps[0].clients)
       else DispatchedAt(Next(b, steps[0]), steps[1..], k - 1, id, plan)
  }

  // Every plan shows the subscribers as they were at the step that dispatched its event.
  lemma {:induction false} PlannedAtDispatch(b: Bus, steps: seq<Step>, id: nat) returns (k: nat)
    requires Inv(b) && IsRun(b, steps) && id !in b.flow.plans && id in After(b, steps).flow.plans
    ensures DispatchedAt(b, steps, k, id, After(b, steps).flow.plans[id])
    decreases |steps|
  {
    var next := Next(b, steps[0]);
    StepKeepsInv(b, steps[0]);
    if id in next.flow.plans {
      StepPlans(b, steps[0]);
      RunKeepsPlans(next, steps[1..], id);
      k := 0;
    } else {
      var i := PlannedAtDispatch(next, steps[1..], id);
      k := i + 1;
    }
  }

  // Nothing waits and no worker is busy.
  ghost predicate AtRest(f: Flow) {
    && f.queue == [] && f.jobs == []
    && (forall d | 0 <= d < |f.dispatchers| :: f.dispatchers[d].Resting?)
    && (forall h | 0 <= h < |f.handlers| :: f.handlers[h].Waiting?)
  }

  lemma {:induction false} NothingUnderWay(ds: seq<Dispatcher>, hs: seq<Handler>, id: nat, j: Job)
    requires forall d | 0 <= d < |ds| :: ds[d].Resting?
    requires forall h | 0 <= h < |hs| :: hs[h].Waiting?
    ensures AllHeld(ds, id) == 0 && AllToSend(ds, j) == 0 && AllRunning(hs, j) == 0
    decreases |ds| + |hs|
  {
    if ds != [] {
      NothingUnderWay(ds[..|ds| - 1], hs, id, j);
    } else if hs != [] {
      NothingUnderWay(ds, hs[..|hs| - 1], id, j);
    }
  }

  lemma RestDispatched(f: Flow, id: nat)
    requires FlowInv(f, false) && AtRest(f) && id < |f.accepted|
    ensures id in f.plans
  {
    NothingUnderWay(f.dispatchers, f.handlers, id, Job(0, 0, 0));
    assert Presence(f, id) == One(id < |f.accepted|);
  }

  lemma RestRan(f: Flow, id: nat)
    requires FlowInv(f, false) && AtRest(f) && id in f.plans
    ensures multiset(JobsOf(id, f.plans[id].clients)) <= multiset(JobsFor(f.ran, id))
  {
    forall j ensures multiset(JobsOf(id, f.plans[id].clients))[j] <= multiset(JobsFor(f.ran, id))[j] {
      JobsForCount(f.ran, id, j);
      FreshJobs(id, f.plans[id].clients, j);
      NothingUnderWay(f.dispatchers, f.handlers, 0, j);
      assert JobPresence(f, j) == One(Planned(f, j));
    }
  }

  // When a bus that was never stopped has come to rest, every accepted event has been
  // dispatched, and the handlers that ran for it are exactly those that listened to its
  // topics at that time, once for each occurrence.
  lemma AllDelivered(steps: seq<Step>, id: nat)
    requires IsRun(NewBus(), steps)
    requires var b := After(NewBus(), steps); !b.cancelled && AtRest(b.flow) && id < |b.flow.accepted|
    ensures var f := After(NewBus(), steps).flow;
            id in f.plans && Called(f, id) == Matching(f.plans[id].subs.listeners, f.accepted[id])
  {
    NewBusInv();
    RunKeepsInv(NewBus(), steps);
    var f := After(NewBus(), steps).flow;
    RestDispatched(f, id);
    CalledPlanned(f, false, id);
    assert Fair(f, id);
    RestRan(f, id);
    ClientsMonotone(JobsOf(id, f.plans[id].clients), JobsFor(f.ran, id));
    ClientsBack(id, f.plans[id].clients);
  }

  // ---------- Delivery to the active subscriptions ----------

  // No closure is called a second time.
  ghost predicate CalledOnce(b: Bus, steps: seq<Step>)
    requires IsRun(b, steps)
    decreases |steps|
  {
    steps != [] ==>
      (steps[0].Unsubscribe? ==> steps[0].client in b.subs.active) && CalledOnce(Next(b, steps[0]), steps[1..])
  }

  ghost predicate Sound(x: Subscribers) {
    Tracks(x.listeners, x.active) && forall c | c in x.active :: c in x.closures && x.closures[c] == x.active[c]
  }

  lemma JoinedSound(x: Subscribers, topic: string)
    requires Sound(x)
    ensures Sound(Joined(x, topic))
  {
    SubscribeTracks(x.listeners, x.active, topic);
  }

  lemma PartedSound(x: Subscribers, client: nat)
    requires Sound(x) && client in x.active
    ensures Sound(Parted(x, client))
  {
    UnsubscribeTracks(x.listeners, x.active, client);
  }

  ghost predicate AllSound(b: Bus) {
    Sound(b.subs) && forall id | id in b.flow.plans :: Sound(b.flow.plans[id].subs)
  }

  lemma StepSubscribers(b: Bus, s: Step)
    requires Enabled(b, s)
    ensures Next(b, s).subs
            == if s.Subscribe? then Joined(b.subs, b.subscribing[s.p])
               else if s.Unsubscribe? then Parted(b.subs, s.client) else b.subs
  {
  }

  lemma StepKeepsSound(b: Bus, s: Step)
    requires AllSound(b) && Enabled(b, s) && (s.Unsubscribe? ==> s.client in b.subs.active)
    ensures AllSound(Next(b, s))
  {
    StepPlans(b, s);
    StepSubscribers(b, s);
    if s.Subscribe? {
      JoinedSound(b.subs, b.subscribing[s.p]);
    } else if s.Unsubscribe? {
      PartedSound(b.subs, s.client);
    }
  }

  lemma {:induction false} RunKeepsSound(b: Bus, steps: seq<Step>)
    requires AllSound(b) && IsRun(b, steps) && CalledOnce(b, steps)
    ensures AllSound(After(b, steps))
    decreases |steps|
  {
    if steps != [] {
      StepKeepsSound(b, steps[0]);
      RunKeepsSound(Next(b, steps[0]), steps[1..]);
    }
  }

  // A listener matches as often as the topic it subscribed to occurs.
  lemma {:induction false} MatchingActive(l: Listeners, active: map<nat, Subscription>, topics: seq<string>, c: nat)
    requires Tracks(l, active)
    ensures Matching(l, topics)[c] == if c in active then multiset(topics)[active[c].topic] else 0
  {
    if topics != [] {
      var n := |topics| - 1;
      MatchingActive(l, active, topics[..n], c);
      assert topics == topics[..n] + [topics[n]];
      assert c in Of(l, topics[n]) <==> c in active && active[c].topic == topics[n];
    }
  }

  // While no closure is called twice, every subscriber that was active when an accepted
  // event was dispatched is called as often as its topic occurs in the event, and nobody
  // else is called.
  lemma DeliveredToActive(steps: seq<Step>, id: nat, c: nat)
    requires IsRun(NewBus(), steps) && CalledOnce(NewBus(), steps)
    requires var b := After(NewBus(), steps); !b.cancelled && AtRest(b.flow) && id < |b.flow.accepted|
    ensures var f := After(NewBus(), steps).flow;
            && id in f.plans
            && var active := f.plans[id].subs.active;
               Called(f, id)[c] == if c in active then multiset(f.accepted[id])[active[c].topic] else 0
  {
    AllDelivered(steps, id);
    assert AllSound(NewBus());
    RunKeepsSound(NewBus(), steps);
    var f := After(NewBus(), steps).flow;
    MatchingActive(f.plans[id].subs.listeners, f.plans[id].subs.active, f.accepted[id], c);
  }
}
