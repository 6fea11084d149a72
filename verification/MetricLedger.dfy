/**
 What the metrics owe to their reports, told from the events of a run alone: a ledger
 that sees only the events knows which names are registered, for which server, and which
 reports count.
 */
module MetricLedger {
  import opened Options
  import opened MetricNames
  import opened Metrics

  // The registered names with their servers, and the reports that found their name.
  datatype Ledger = Ledger(owners: map<string, string>, received: seq<Report>)

  function NewLedger(): Ledger {
    Ledger(map["global" := "global"], [])
  }

  // A chain of names, nearest first, is registered up to the first that already is.
  function Enter(owners: map<string, string>, serverId: string, chain: seq<string>): map<string, string> {
    if chain == [] || chain[0] in owners then owners else Enter(owners, serverId, chain[1..])[chain[0] := serverId]
  }

  function Strike(owners: map<string, string>, serverId: string): map<string, string> {
    map n | n in owners && (owners[n] != serverId || n == "global") :: owners[n]
  }

  ghost function Note(l: Ledger, e: Event): Ledger {
    match e
    case Receive(_, r) => if r.name in l.owners then l.(received := l.received + [r]) else l
    case Apply(_) => l
    case Register(serverId, name) => l.(owners := Enter(l.owners, serverId, Ancestors(name)))
    case Remove(serverId) => l.(owners := Strike(l.owners, serverId))
  }

  ghost function NoteAll(l: Ledger, events: seq<Event>): Ledger
    decreases |events|
  {
    if events == [] then l else NoteAll(Note(l, events[0]), events[1..])
  }

  // ---------- The ledger is right ----------

  ghost function OwnersOf(g: Registry): map<string, string>
    requires WellFormed(g)
  {
    map n | n in g.byName :: g.nodes[g.byName[n]].serverId
  }

  function ReportsOf(accepted: seq<(Report, nat)>): seq<Report> {
    seq(|accepted|, i requires 0 <= i < |accepted| => accepted[i].0)
  }

  ghost predicate Agrees(st: State, l: Ledger)
    requires Good(st)
  {
    OwnersOf(st.g) == l.owners && ReportsOf(st.accepted) == l.received
  }

  lemma AddNodeOwners(g: Registry, serverId: string, name: string, parent: Option<nat>)
    requires WellFormed(g) && name !in g.byName && WellFormed(AddNode(g, serverId, name, parent))
    ensures OwnersOf(AddNode(g, serverId, name, parent)) == OwnersOf(g)[name := serverId]
  {
    AddedOwner(g.nodes, g.byName, Node(serverId, name, parent));
  }

  lemma AddedOwner(nodes: seq<Node>, byName: map<string, nat>, node: Node)
    requires forall n | n in byName :: byName[n] < |nodes|
    ensures var more, names := nodes + [node], byName[node.name := |nodes|];
            (map n | n in names :: more[names[n]].serverId)
            == (map n | n in byName :: nodes[byName[n]].serverId)[node.name := node.serverId]
  {
  }

  lemma EnterNext(owners: map<string, string>, serverId: string, name: string)
    requires name !in owners
    ensures Enter(owners, serverId, Ancestors(name))
            == (if Parent(name) == "" then owners
                else Enter(owners, serverId, Ancestors(Parent(name))))[name := serverId]
  {
    assert Ancestors(name)[1..] == if Parent(name) == "" then [] else Ancestors(Parent(name));
  }

  lemma {:induction false} TrackOwners(g: Registry, serverId: string, name: string)
    requires WellFormed(g)
    ensures WellFormed(Track(g, serverId, name))
    ensures OwnersOf(Track(g, serverId, name)) == Enter(OwnersOf(g), serverId, Ancestors(name))
    decreases Rank(name)
  {
    TrackWellFormed(g, serverId, name);
    if name !in g.byName {
      EnterNext(OwnersOf(g), serverId, name);
      if Parent(name) == "" {
        AddNodeOwners(g, serverId, name, None);
      } else {
        ParentRank(name);
        TrackOwners(g, serverId, Parent(name));
        TrackAddsAncestorsOnly(g, serverId, Parent(name), name);
        var g1 := Track(g, serverId, Parent(name));
        AddNodeOwners(g1, serverId, name, Some(g1.byName[Parent(name)]));
      }
    }
  }

  lemma StepAgrees(st: State, e: Event, l: Ledger)
    requires Good(st) && Enabled(st, e) && Agrees(st, l) && Good(Next(st, e))
    ensures Agrees(Next(st, e), Note(l, e))
  {
    match e
    case Receive(_, r) =>
      assert r.name in st.g.byName <==> r.name in OwnersOf(st.g);
    case Register(serverId, name) => TrackOwners(st.g, serverId, name);
    case Remove(serverId) =>
      assert OwnersOf(Removed(st.g, serverId)) == Strike(OwnersOf(st.g), serverId);
    case Apply(_) =>
  }

  lemma {:induction false} RunAgrees(st: State, events: seq<Event>, l: Ledger)
    requires Good(st) && Run(st, events) && Agrees(st, l)
    ensures Agrees(After(st, events), NoteAll(l, events))
    decreases |events|
  {
    if events != [] {
      NextGood(st, events[0]);
      StepAgrees(st, events[0], l);
      RunAgrees(Next(st, events[0]), events[1..], Note(l, events[0]));
    }
  }

  // After every run, with registrations, removals and workers in any order, the names that
  // are registered and the reports that were taken, in order, are those of the ledger.
  lemma LedgerExactly(workers: nat, events: seq<Event>)
    requires Run(Start(workers), events)
    ensures Agrees(After(Start(workers), events), NoteAll(NewLedger(), events))
  {
    RunAgrees(Start(workers), events, NewLedger());
  }

  // ---------- The totals of the ledger ----------

  // What the reports add to the global metric...
  ghost function GlobalWorth(reports: seq<Report>, f: Field): int {
    if reports == [] then 0
    else
      var last := reports[|reports| - 1];
      GlobalWorth(reports[..|reports| - 1], f) + if Orphan(last.name) then 0 else Weight(f, last)
  }

  // ... and to the metric of a name.
  ghost function NamedWorth(reports: seq<Report>, name: string, f: Field): int {
    if reports == [] then 0
    else
      var last := reports[|reports| - 1];
      NamedWorth(reports[..|reports| - 1], name, f) + if name in Ancestors(last.name) then Weight(f, last) else 0
  }

  lemma {:induction false} SameWorth(accepted: seq<(Report, nat)>, name: string, f: Field)
    ensures AcceptedTotal(accepted, f) == GlobalWorth(ReportsOf(accepted), f)
    ensures CreditByName(accepted, name, f) == NamedWorth(ReportsOf(accepted), name, f)
  {
    if accepted != [] {
      var n := |accepted| - 1;
      SameWorth(accepted[..n], name, f);
      assert ReportsOf(accepted)[..n] == ReportsOf(accepted[..n]);
    }
  }

  // When all workers are idle, every counter of the global metric is the total of exactly
  // the reports that came in under a name registered at that moment, whatever was removed;
  // only names with a leading separator escape it.
  lemma GlobalFromEvents(workers: nat, events: seq<Event>, f: Field)
    requires Run(Start(workers), events) && AllIdle(After(Start(workers), events))
    ensures Read(After(Start(workers), events).g.totals[0], f) == GlobalWorth(NoteAll(NewLedger(), events).received, f)
  {
    GlobalTotal(workers, events, f);
    LedgerExactly(workers, events);
    SameWorth(After(Start(workers), events).accepted, "", f);
  }

  // Without removals so it is with every registered name and its descendants.
  lemma NamedFromEvents(workers: nat, events: seq<Event>, name: string, f: Field)
    requires Run(Start(workers), events) && AllIdle(After(Start(workers), events))
    requires forall i | 0 <= i < |events| :: !events[i].Remove?
    requires name in NoteAll(NewLedger(), events).owners
    ensures var g := After(Start(workers), events).g;
            && name in g.byName
            && Read(g.totals[g.byName[name]], f) == NamedWorth(NoteAll(NewLedger(), events).received, name, f)
  {
    var st := After(Start(workers), events);
    LedgerExactly(workers, events);
    assert name in OwnersOf(st.g);
    TotalsByName(workers, events, name, f);
    IdleInFlight(st.g.nodes, st.workers, st.g.byName[name], f);
    SameWorth(st.accepted, name, f);
  }

  // ---------- Workers finish ----------

  // A worker that goes on alone brings its report to the node it is at and all above, as
  // the update of a single report does.
  lemma {:induction false} WorkerFinishes(st: State, w: nat) returns (events: seq<Event>)
    requires Good(st) && w < |st.workers| && st.workers[w].Busy?
    ensures Run(st, events) && forall i | 0 <= i < |events| :: events[i] == Apply(w)
    ensures After(st, events)
            == st.(g := RollUp(st.g, st.workers[w].at, st.workers[w].report), workers := st.workers[w := Idle])
    decreases st.workers[w].at
  {
    var Busy(r, i) := st.workers[w];
    NextGood(st, Apply(w));
    var next := Next(st, Apply(w));
    var parent := st.g.nodes[i].parent;
    if parent.None? {
      events := [Apply(w)];
      assert Run(next, []) && events[1..] == [];
    } else {
      var rest := WorkerFinishes(next, w);
      events := [Apply(w)] + rest;
      assert events[1..] == rest;
      assert next.workers[w := Idle] == st.workers[w := Idle];
    }
  }

  // One report run alone does to the registry what updating the metrics does.
  lemma ReportAlone(st: State, w: nat, r: Report) returns (events: seq<Event>)
    requires Good(st) && w < |st.workers| && st.workers[w].Idle?
    ensures Run(st, events) && events != [] && events[0] == Receive(w, r)
    ensures forall i | 1 <= i < |events| :: events[i] == Apply(w)
    ensures var end := After(st, events);
            && end.workers == st.workers
            && end.g == if r.name in st.g.byName then RollUp(st.g, st.g.byName[r.name], r) else st.g
  {
    NextGood(st, Receive(w, r));
    var next := Next(st, Receive(w, r));
    if r.name in st.g.byName {
      var rest := WorkerFinishes(next, w);
      events := [Receive(w, r)] + rest;
      assert events[1..] == rest;
      assert next.workers[w := Idle] == st.workers;
    } else {
      events := [Receive(w, r)];
      assert events[1..] == [] && Run(next, []);
    }
  }

  lemma {:induction false} Continued(st: State, a: seq<Event>, b: seq<Event>)
    requires Good(st) && Run(st, a) && Run(After(st, a), b)
    ensures Run(st, a + b) && After(st, a + b) == After(After(st, a), b)
    decreases |a|
  {
    if a == [] {
      assert a + b == b;
    } else {
      assert (a + b)[1..] == a[1..] + b;
      NextGood(st, a[0]);
      Continued(Next(st, a[0]), a[1..], b);
    }
  }

  predicate OnlyApply(events: seq<Event>) {
    forall i | 0 <= i < |events| :: events[i].Apply?
  }

  lemma WorkerIdles(st: State, w: nat) returns (events: seq<Event>)
    requires Good(st) && w < |st.workers|
    ensures Run(st, events) && OnlyApply(events) && After(st, events).workers == st.workers[w := Idle]
  {
    if st.workers[w].Idle? {
      events := [];
    } else {
      events := WorkerFinishes(st, w);
    }
  }

  // From every state the workers can finish what they have taken.
  lemma {:induction false} WorkersFinish(st: State, n: nat) returns (events: seq<Event>)
    requires Good(st) && n <= |st.workers|
    ensures Run(st, events) && OnlyApply(events)
    ensures var end := After(st, events);
            |end.workers| == |st.workers| && forall w | 0 <= w < n :: end.workers[w].Idle?
    decreases n
  {
    if n == 0 {
      events := [];
    } else {
      var first := WorkersFinish(st, n - 1);
      var last := WorkerIdles(After(st, first), n - 1);
      events := first + last;
      Continued(st, first, last);
    }
  }

  lemma {:induction false} ApplyNotesNothing(l: Ledger, events: seq<Event>)
    requires OnlyApply(events)
    ensures NoteAll(l, events) == l
  {
    if events != [] {
      ApplyNotesNothing(l, events[1..]);
    }
  }

  lemma {:induction false} NoteAllSplit(l: Ledger, a: seq<Event>, b: seq<Event>)
    ensures NoteAll(l, a + b) == NoteAll(NoteAll(l, a), b)
    decreases |a|
  {
    if a == [] {
      assert a + b == b;
    } else {
      assert (a + b)[1..] == a[1..] + b;
      NoteAllSplit(Note(l, a[0]), a[1..], b);
    }
  }

  // From every point of every run the workers alone can bring the global metric to the
  // total of the ledger.
  lemma GlobalReached(workers: nat, events: seq<Event>, f: Field) returns (more: seq<Event>)
    requires Run(Start(workers), events)
    ensures OnlyApply(more) && Run(Start(workers), events + more)
    ensures Read(After(Start(workers), events + more).g.totals[0], f)
            == GlobalWorth(NoteAll(NewLedger(), events).received, f)
  {
    var st := After(Start(workers), events);
    more := WorkersFinish(st, |st.workers|);
    Continued(Start(workers), events, more);
    NoteAllSplit(NewLedger(), events, more);
    ApplyNotesNothing(NoteAll(NewLedger(), events), more);
    GlobalFromEvents(workers, events + more, f);
  }
}
