/**
 Hierarchical connection metrics.  Workers take reports from a channel and add each
 report to the metric it names and then, one node at a time, to every ancestor.
 Nodes are numbered in the order of their creation, so a removed node keeps its
 number and stays reachable from its children.
 */
module Metrics {
  import opened Options
  import opened Integers
  import opened MetricNames
  import Rings

  datatype Report = Report(
    name: string, latencyMs: int, bytesSent: int, bytesReceived: int,
    is2xx: bool, is3xx: bool, is4xx: bool, is5xx: bool,
    timedOut: bool, blocked: bool, blockedBy: string)

  datatype Totals = Totals(
    requests: int, errors: int, latencyMs: int, timeouts: int, sent: int, received: int,
    r2xx: int, r3xx: int, r4xx: int, r5xx: int, blocked: int, blockedBy: map<string, int>)

  const Zero := Totals(0, 0, 0, 0, 0, 0, 0, 0, 0, 0, 0, map[])

  // The additive counters.
  datatype Field =
    | Requests | Errors | LatencyMs | Timeouts | Sent | Received
    | Status2xx | Status3xx | Status4xx | Status5xx | Blocked | BlockedBy(middleware: string)

  function Read(t: Totals, f: Field): int {
    match f
    case Requests => t.requests
    case Errors => t.errors
    case LatencyMs => t.latencyMs
    case Timeouts => t.timeouts
    case Sent => t.sent
    case Received => t.received
    case Status2xx => t.r2xx
    case Status3xx => t.r3xx
    case Status4xx => t.r4xx
    case Status5xx => t.r5xx
    case Blocked => t.blocked
    case BlockedBy(mw) => if mw in t.blockedBy then t.blockedBy[mw] else 0
  }

  function One(b: bool): int {
    if b then 1 else 0
  }

  // What one report is worth: the first status class that is set counts.
  function Weight(f: Field, r: Report): int {
    match f
    case Requests => 1
    case Errors => One(r.is5xx && !r.is2xx && !r.is3xx && !r.is4xx)
    case LatencyMs => r.latencyMs
    case Timeouts => One(r.timedOut)
    case Sent => r.bytesSent
    case Received => r.bytesReceived
    case Status2xx => One(r.is2xx)
    case Status3xx => One(r.is3xx && !r.is2xx)
    case Status4xx => One(r.is4xx && !r.is2xx && !r.is3xx)
    case Status5xx => One(r.is5xx && !r.is2xx && !r.is3xx && !r.is4xx)
    case Blocked => One(r.blocked)
    case BlockedBy(mw) => One(r.blocked && r.blockedBy != "" && r.blockedBy == mw)
  }

  // The totals once a report has been added.
  function AddReport(t: Totals, r: Report): Totals {
    Totals(
      t.requests + 1, t.errors + Weight(Errors, r), t.latencyMs + r.latencyMs, t.timeouts + One(r.timedOut),
      t.sent + r.bytesSent, t.received + r.bytesReceived,
      t.r2xx + Weight(Status2xx, r), t.r3xx + Weight(Status3xx, r), t.r4xx + Weight(Status4xx, r),
      t.r5xx + Weight(Status5xx, r), t.blocked + One(r.blocked),
      if r.blocked && r.blockedBy != "" then t.blockedBy[r.blockedBy := Read(t, BlockedBy(r.blockedBy)) + 1]
      else t.blockedBy)
  }

  lemma AddReportReads(t: Totals, r: Report, f: Field)
    ensures Read(AddReport(t, r), f) == Read(t, f) + Weight(f, r)
  {
    match f
    case BlockedBy(mw) => assert r.blocked && r.blockedBy == mw != "" ==> mw in AddReport(t, r).blockedBy;
    case _ =>
  }

  const LATENCY_BUFFER_SIZE := 1000

  // The percentile of the latencies that a ring keeps.
  function Percentile(latencies: seq<int>, p: real): int
    requires p >= 0.0
  {
    Rings.PercentileOf(Rings.Last(latencies, LATENCY_BUFFER_SIZE), p)
  }

  // An accumulated metric, updated in place under its own lock; only an accumulating one
  // has a ring of latencies.
  class Metric {
    var t: Totals
    var averageMs: int
    var p50Ms: int
    var p95Ms: int
    var p99Ms: int
    const latencies: Rings.LatencyRing?

    ghost predicate Valid()
      reads this, latencies, if latencies != null then {latencies.data} else {}
    {
      t.requests >= 0 && (latencies != null ==> latencies.Valid() && latencies.cap == LATENCY_BUFFER_SIZE)
    }

    constructor ()
      ensures Valid() && t == Zero && averageMs == 0 && latencies != null && latencies.history == []
      ensures fresh(latencies) && fresh(latencies.data)
    {
      t, averageMs, p50Ms, p95Ms, p99Ms := Zero, 0, 0, 0, 0;
      latencies := new Rings.LatencyRing(LATENCY_BUFFER_SIZE);
    }

    // A metric that only reports.
    constructor Snapshot(t: Totals, averageMs: int, p50Ms: int, p95Ms: int, p99Ms: int)
      ensures this.t == t && this.averageMs == averageMs && latencies == null
      ensures this.p50Ms == p50Ms && this.p95Ms == p95Ms && this.p99Ms == p99Ms
    {
      this.t, this.averageMs, this.p50Ms, this.p95Ms, this.p99Ms := t, averageMs, p50Ms, p95Ms, p99Ms;
      latencies := null;
    }

    method CountStatus(r: Report)
      modifies this`t
      ensures t == old(t).(r2xx := old(t).r2xx + Weight(Status2xx, r), r3xx := old(t).r3xx + Weight(Status3xx, r),
                           r4xx := old(t).r4xx + Weight(Status4xx, r), r5xx := old(t).r5xx + Weight(Status5xx, r),
                           errors := old(t).errors + Weight(Errors, r))
    {
      if r.is2xx {
        t := t.(r2xx := t.r2xx + 1);
      } else if r.is3xx {
        t := t.(r3xx := t.r3xx + 1);
      } else if r.is4xx {
        t := t.(r4xx := t.r4xx + 1);
      } else if r.is5xx {
        t := t.(r5xx := t.r5xx + 1, errors := t.errors + 1);
      }
    }

    method CountReport(r: Report)
      modifies this`t
      ensures t == AddReport(old(t), r)
    {
      t := t.(requests := t.requests + 1, latencyMs := t.latencyMs + r.latencyMs,
              sent := t.sent + r.bytesSent, received := t.received + r.bytesReceived);
      CountStatus(r);
      if r.timedOut {
        t := t.(timeouts := t.timeouts + 1);
      }
      if r.blocked {
        t := t.(blocked := t.blocked + 1);
        if r.blockedBy != "" {
          var n := if r.blockedBy in t.blockedBy then t.blockedBy[r.blockedBy] else 0;
          t := t.(blockedBy := t.blockedBy[r.blockedBy := n + 1]);
        }
      }
    }

    method AddRequestMetric(r: Report)
      requires Valid()
      modifies this, latencies, if latencies != null then {latencies.data} else {}
      ensures Valid() && t == AddReport(old(t), r) && averageMs == Quotient(t.latencyMs, t.requests)
      ensures latencies != null ==> latencies.history == old(latencies.history) + [r.latencyMs]
      ensures p50Ms == old(p50Ms) && p95Ms == old(p95Ms) && p99Ms == old(p99Ms)
    {
      CountReport(r);
      averageMs := Quotient(t.latencyMs, t.requests);
      if latencies != null {
        latencies.Add(r.latencyMs);
      }
    }

    method CopyCounts() returns (counts: map<string, int>)
      ensures counts == t.blockedBy
    {
      counts := map[];
      var pending := t.blockedBy.Keys;
      while pending != {}
        invariant pending <= t.blockedBy.Keys && counts.Keys == t.blockedBy.Keys - pending
        invariant forall mw | mw in counts :: counts[mw] == t.blockedBy[mw]
        decreases pending
      {
        var mw :| mw in pending;
        counts, pending := counts[mw := t.blockedBy[mw]], pending - {mw};
      }
    }

    // A copy reports the percentiles and does not accumulate.
    method Copy() returns (cp: Metric)
      requires Valid()
      ensures fresh(cp) && cp.Valid() && cp.t == t && cp.averageMs == averageMs && cp.latencies == null
      ensures cp.p50Ms <= cp.p95Ms <= cp.p99Ms
      ensures if latencies != null then
                && cp.p50Ms == Percentile(latencies.history, 50.0) && cp.p95Ms == Percentile(latencies.history, 95.0)
                && cp.p99Ms == Percentile(latencies.history, 99.0)
              else cp.p50Ms == cp.p95Ms == cp.p99Ms == 0
    {
      var counts := CopyCounts();
      var p50, p95, p99 := 0, 0, 0;
      if latencies != null {
        p50 := latencies.Percentile(50.0);
        p95 := latencies.Percentile(95.0);
        p99 := latencies.Percentile(99.0);
        Rings.PercentileMonotone(Rings.Last(latencies.history, LATENCY_BUFFER_SIZE), 50.0, 95.0);
        Rings.PercentileMonotone(Rings.Last(latencies.history, LATENCY_BUFFER_SIZE), 95.0, 99.0);
      }
      cp := new Metric.Snapshot(t.(blockedBy := counts), averageMs, p50, p95, p99);
    }
  }

  // ---------- The manager ----------

  datatype Node = Node(serverId: string, name: string, parent: Option<nat>)

  // The registered metrics: all nodes ever created, their totals, and the names
  // that are currently registered.
  datatype Registry = Registry(nodes: seq<Node>, totals: seq<Totals>, byName: map<string, nat>)

  function AddNode(g: Registry, serverId: string, name: string, parent: Option<nat>): Registry {
    Registry(g.nodes + [Node(serverId, name, parent)], g.totals + [Zero], g.byName[name := |g.nodes|])
  }

  // Registering a name creates the missing ancestors first.
  ghost function Track(g: Registry, serverId: string, name: string): (g': Registry)
    ensures name in g'.byName && g.byName.Keys <= g'.byName.Keys
    decreases Rank(name)
  {
    if name in g.byName then g
    else if Parent(name) == "" then AddNode(g, serverId, name, None)
    else
      ParentRank(name);
      var g1 := Track(g, serverId, Parent(name));
      AddNode(g1, serverId, name, Some(g1.byName[Parent(name)]))
  }

  predicate Kept(g: Registry, serverId: string, name: string)
    requires WellFormed(g) && name in g.byName
  {
    g.nodes[g.byName[name]].serverId != serverId || name == GLOBAL
  }

  function Removed(g: Registry, serverId: string): Registry
    requires WellFormed(g)
  {
    g.(byName := map n | n in g.byName && Kept(g, serverId, n) :: g.byName[n])
  }

  // A node hangs under an older node, which has its parent name.
  predicate Parented(nodes: seq<Node>) {
    forall i | 0 <= i < |nodes| ::
      var p := nodes[i].parent;
      if p.None? then Parent(nodes[i].name) == ""
      else p.value < i && nodes[p.value].name == Parent(nodes[i].name) != ""
  }

  // Names lead to nodes of that name.
  predicate Named(g: Registry) {
    forall n | n in g.byName :: g.byName[n] < |g.nodes| && g.nodes[g.byName[n]].name == n
  }

  // The global metric is the first node, the only one of its name.
  predicate WellFormed(g: Registry) {
    && |g.nodes| == |g.totals| > 0
    && GLOBAL in g.byName && g.byName[GLOBAL] == 0 && g.nodes[0].name == GLOBAL
    && (forall i | 0 < i < |g.nodes| :: g.nodes[i].name != GLOBAL)
    && Named(g) && Parented(g.nodes)
  }

  function InitialRegistry(): (g: Registry)
    ensures WellFormed(g)
  {
    var g := Registry([Node(GLOBAL, GLOBAL, None)], [Zero], map[GLOBAL := 0]);
    assert Parent(GLOBAL) == "" by { ParentMissing(GLOBAL); }
    g
  }

  // Registering a name adds no name of higher rank.
  lemma {:induction false} TrackAddsAncestorsOnly(g: Registry, serverId: string, name: string, other: string)
    requires other !in g.byName && Rank(name) < Rank(other)
    ensures other !in Track(g, serverId, name).byName
    decreases Rank(name)
  {
    if name !in g.byName && Parent(name) != "" {
      ParentRank(name);
      TrackAddsAncestorsOnly(g, serverId, Parent(name), other);
    }
  }

  lemma AddedParented(nodes: seq<Node>, node: Node)
    requires Parented(nodes)
    requires if node.parent.None? then Parent(node.name) == ""
             else node.parent.value < |nodes| && nodes[node.parent.value].name == Parent(node.name) != ""
    ensures Parented(nodes + [node])
  {
    assert forall i | 0 <= i < |nodes| :: (nodes + [node])[i] == nodes[i];
  }

  lemma AddNodeWellFormed(g: Registry, serverId: string, name: string)
    requires WellFormed(g) && name !in g.byName && (Parent(name) == "" || Parent(name) in g.byName)
    ensures WellFormed(AddNode(g, serverId, name, if Parent(name) == "" then None else Some(g.byName[Parent(name)])))
  {
    var parent := if Parent(name) == "" then None else Some(g.byName[Parent(name)]);
    var g' := AddNode(g, serverId, name, parent);
    AddedParented(g.nodes, Node(serverId, name, parent));
    assert Named(g');
  }

  lemma {:induction false} TrackWellFormed(g: Registry, serverId: string, name: string)
    requires WellFormed(g)
    ensures WellFormed(Track(g, serverId, name))
    ensures g.nodes <= Track(g, serverId, name).nodes
    decreases Rank(name)
  {
    if name !in g.byName {
      if Parent(name) == "" {
        AddNodeWellFormed(g, serverId, name);
      } else {
        ParentRank(name);
        TrackWellFormed(g, serverId, Parent(name));
        var g1 := Track(g, serverId, Parent(name));
        TrackAddsAncestorsOnly(g, serverId, Parent(name), name);
        AddNodeWellFormed(g1, serverId, name);
      }
    }
  }

  class ConnectionMetricsManager {
    var g: Registry

    constructor ()
      ensures g == InitialRegistry()
    {
      g := InitialRegistry();
    }

    method TrackMetricsForConnection(serverId: string, name: string)
      requires WellFormed(g)
      modifies this
      ensures WellFormed(g) && g == Track(old(g), serverId, name)
      decreases Rank(name)
    {
      TrackWellFormed(g, serverId, name);
      if name in g.byName {
        return;
      }
      var parentName := Parent(name);
      var parent := None;
      if parentName != "" {
        if parentName !in g.byName {
          ParentRank(name);
          TrackMetricsForConnection(serverId, parentName);
        }
        parent := Some(g.byName[parentName]);
      }
      g := AddNode(g, serverId, name, parent);
    }

    method RemoveMetricsForServer(serverId: string)
      requires WellFormed(g)
      modifies this
      ensures WellFormed(g) && g == Removed(old(g), serverId)
    {
      var pending, byName := g.byName.Keys, g.byName;
      while pending != {}
        invariant pending <= g.byName.Keys && g == old(g)
        invariant byName.Keys <= g.byName.Keys && forall n | n in byName :: byName[n] == g.byName[n]
        invariant forall n | n in g.byName :: n in byName <==> n in pending || Kept(g, serverId, n)
        decreases pending
      {
        var name :| name in pending;
        if g.nodes[byName[name]].serverId == serverId && name != GLOBAL {
          byName := byName - {name};
        }
        pending := pending - {name};
      }
      assert byName == Removed(g, serverId).byName;
      g := g.(byName := byName);
    }

    // One report by a single worker: the named node, then its ancestors.
    method UpdateConnectionMetrics(r: Report)
      requires WellFormed(g)
      modifies this
      ensures WellFormed(g)
      ensures g == if r.name in old(g).byName then RollUp(old(g), old(g).byName[r.name], r) else old(g)
    {
      if r.name !in g.byName {
        return;
      }
      var i := g.byName[r.name];
      ghost var target := RollUp(g, i, r);
      g := AddAt(g, i, r);
      var cur := g.nodes[i].parent;
      while cur.Some?
        invariant WellFormed(g) && (cur.Some? ==> 0 <= cur.value < |g.nodes|)
        invariant target == if cur.Some? then RollUp(g, cur.value, r) else g
        decreases if cur.Some? then cur.value + 1 else 0
      {
        i := cur.value;
        g := AddAt(g, i, r);
        cur := g.nodes[i].parent;
      }
    }
  }

  function AddAt(g: Registry, i: nat, r: Report): (g': Registry)
    requires WellFormed(g) && i < |g.nodes|
    ensures WellFormed(g')
  {
    g.(totals := g.totals[i := AddReport(g.totals[i], r)])
  }

  // The registry when a report has been added to node `i` and its ancestors.
  function RollUp(g: Registry, i: nat, r: Report): Registry
    requires WellFormed(g) && i < |g.nodes|
    decreases i
  {
    var g1 := AddAt(g, i, r);
    if g.nodes[i].parent.None? then g1 else RollUp(g1, g.nodes[i].parent.value, r)
  }

  // Exactly the nodes of the chain receive the report, each of them once.
  lemma {:induction false} RollUpExactly(g: Registry, i: nat, r: Report)
    requires WellFormed(g) && i < |g.nodes|
    ensures var g' := RollUp(g, i, r);
            && g'.nodes == g.nodes && g'.byName == g.byName && |g'.totals| == |g.totals|
            && forall a | 0 <= a < |g.nodes| ::
                 g'.totals[a] == if OnChain(g.nodes, i, a) then AddReport(g.totals[a], r) else g.totals[a]
    decreases i
  {
    if g.nodes[i].parent.Some? {
      var p := g.nodes[i].parent.value;
      RollUpExactly(AddAt(g, i, r), p, r);
      ChainDescends(g.nodes, p, i);
    }
  }

  lemma ChainDescends(nodes: seq<Node>, i: nat, a: nat)
    requires Tree(nodes) && i < |nodes|
    requires a > i
    ensures !OnChain(nodes, i, a)
    decreases i
  {
  }

  predicate Tree(nodes: seq<Node>) {
    forall k | 0 <= k < |nodes| :: nodes[k].parent.Some? ==> nodes[k].parent.value < k
  }

  // Node `a` is node `i` or one of its ancestors.
  predicate OnChain(nodes: seq<Node>, i: nat, a: nat)
    requires Tree(nodes) && i < |nodes|
    decreases i
  {
    a == i || (nodes[i].parent.Some? && OnChain(nodes, nodes[i].parent.value, a))
  }

  // ---------- Interleavings ----------

  // A worker is idle, or holds a report that it will next add to node `at`.
  datatype Worker = Idle | Busy(report: Report, at: nat)

  // `accepted` records every report that found its node, with that node.
  datatype State = State(g: Registry, workers: seq<Worker>, accepted: seq<(Report, nat)>)

  datatype Event =
    | Receive(w: nat, report: Report)
    | Apply(w: nat)
    | Register(serverId: string, name: string)
    | Remove(serverId: string)

  // The accepted reports know where they were registered.
  ghost predicate Placed(g: Registry, accepted: seq<(Report, nat)>) {
    forall i | 0 <= i < |accepted| :: accepted[i].1 < |g.nodes| && g.nodes[accepted[i].1].name == accepted[i].0.name
  }

  ghost predicate Good(st: State) {
    && WellFormed(st.g)
    && (forall w | 0 <= w < |st.workers| :: st.workers[w].Busy? ==> st.workers[w].at < |st.g.nodes|)
    && Placed(st.g, st.accepted)
  }

  predicate Enabled(st: State, e: Event) {
    match e
    case Receive(w, _) => w < |st.workers| && st.workers[w].Idle?
    case Apply(w) => w < |st.workers| && st.workers[w].Busy?
    case Register(_, _) => true
    case Remove(_) => true
  }

  ghost function Next(st: State, e: Event): State
    requires Good(st) && Enabled(st, e)
  {
    match e
    case Receive(w, r) =>
      if r.name !in st.g.byName then st
      else
        var i := st.g.byName[r.name];
        st.(workers := st.workers[w := Busy(r, i)], accepted := st.accepted + [(r, i)])
    case Apply(w) =>
      var Busy(r, i) := st.workers[w];
      var parent := st.g.nodes[i].parent;
      st.(g := AddAt(st.g, i, r), workers := st.workers[w := if parent.Some? then Busy(r, parent.value) else Idle])
    case Register(serverId, name) => st.(g := Track(st.g, serverId, name))
    case Remove(serverId) => st.(g := Removed(st.g, serverId))
  }

  lemma NextGood(st: State, e: Event)
    requires Good(st) && Enabled(st, e)
    ensures Good(Next(st, e))
    ensures st.g.nodes <= Next(st, e).g.nodes
  {
    if e.Register? {
      TrackWellFormed(st.g, e.serverId, e.name);
      var nodes := Track(st.g, e.serverId, e.name).nodes;
      assert forall i | 0 <= i < |st.g.nodes| :: nodes[i] == st.g.nodes[i];
    }
  }

  // What a report that is to be added to node `i` and above contributes to node `a`.
  ghost function Share(nodes: seq<Node>, a: nat, f: Field, r: Report, i: nat): int
    requires Tree(nodes) && i < |nodes|
  {
    if OnChain(nodes, i, a) then Weight(f, r) else 0
  }

  // The total still on its way to node `a`.
  ghost function InFlight(nodes: seq<Node>, workers: seq<Worker>, a: nat, f: Field): int
    requires Tree(nodes) && forall w | 0 <= w < |workers| :: workers[w].Busy? ==> workers[w].at < |nodes|
  {
    if workers == [] then 0
    else
      var last := workers[|workers| - 1];
      InFlight(nodes, workers[..|workers| - 1], a, f)
      + if last.Busy? then Share(nodes, a, f, last.report, last.at) else 0
  }

  // The total of the accepted reports named at node `a` or below.
  ghost function Credit(nodes: seq<Node>, accepted: seq<(Report, nat)>, a: nat, f: Field): int
    requires Tree(nodes) && forall i | 0 <= i < |accepted| :: accepted[i].1 < |nodes|
  {
    if accepted == [] then 0
    else
      var last := accepted[|accepted| - 1];
      Credit(nodes, accepted[..|accepted| - 1], a, f) + Share(nodes, a, f, last.0, last.1)
  }

  ghost predicate Conserved(st: State, a: nat, f: Field)
    requires Good(st) && a < |st.g.nodes|
  {
    Read(st.g.totals[a], f) + InFlight(st.g.nodes, st.workers, a, f) == Credit(st.g.nodes, st.accepted, a, f)
  }

  lemma {:induction false} InFlightUpdate(nodes: seq<Node>, workers: seq<Worker>, w: nat, to: Worker, a: nat, f: Field)
    requires Tree(nodes) && forall k | 0 <= k < |workers| :: workers[k].Busy? ==> workers[k].at < |nodes|
    requires w < |workers| && (to.Busy? ==> to.at < |nodes|)
    ensures InFlight(nodes, workers[w := to], a, f)
            == InFlight(nodes, workers, a, f)
               - (if workers[w].Busy? then Share(nodes, a, f, workers[w].report, workers[w].at) else 0)
               + (if to.Busy? then Share(nodes, a, f, to.report, to.at) else 0)
    decreases |workers|
  {
    var n := |workers| - 1;
    if w == n {
      assert workers[w := to][..n] == workers[..n];
    } else {
      assert workers[w := to][..n] == workers[..n][w := to];
      InFlightUpdate(nodes, workers[..n], w, to, a, f);
    }
  }

  // New nodes do not change the chains of old ones.
  lemma ChainStable(nodes: seq<Node>, more: seq<Node>, i: nat, a: nat)
    requires Tree(nodes) && Tree(more) && nodes <= more && i < |nodes|
    ensures OnChain(more, i, a) <==> OnChain(nodes, i, a)
    decreases i
  {
    assert more[i] == nodes[i];
  }

  lemma {:induction false} InFlightStable(nodes: seq<Node>, more: seq<Node>, workers: seq<Worker>, a: nat, f: Field)
    requires Tree(nodes) && Tree(more) && nodes <= more
    requires forall k | 0 <= k < |workers| :: workers[k].Busy? ==> workers[k].at < |nodes|
    ensures InFlight(more, workers, a, f) == InFlight(nodes, workers, a, f)
    ensures a >= |nodes| ==> InFlight(more, workers, a, f) == 0
    decreases |workers|
  {
    if workers != [] {
      var n := |workers| - 1;
      InFlightStable(nodes, more, workers[..n], a, f);
      if workers[n].Busy? {
        ChainStable(nodes, more, workers[n].at, a);
        if a >= |nodes| { ChainDescends(nodes, workers[n].at, a); }
      }
    }
  }

  lemma {:induction false} CreditStable(nodes: seq<Node>, more: seq<Node>, accepted: seq<(Report, nat)>,
                                        a: nat, f: Field)
    requires Tree(nodes) && Tree(more) && nodes <= more
    requires forall i | 0 <= i < |accepted| :: accepted[i].1 < |nodes|
    ensures Credit(more, accepted, a, f) == Credit(nodes, accepted, a, f)
    ensures a >= |nodes| ==> Credit(more, accepted, a, f) == 0
    decreases |accepted|
  {
    if accepted != [] {
      var n := |accepted| - 1;
      CreditStable(nodes, more, accepted[..n], a, f);
      ChainStable(nodes, more, accepted[n].1, a);
      if a >= |nodes| { ChainDescends(nodes, accepted[n].1, a); }
    }
  }

  // The totals of existing nodes are kept, and new nodes start at zero.
  lemma {:induction false} TrackTotals(g: Registry, serverId: string, name: string)
    requires WellFormed(g)
    ensures var g' := Track(g, serverId, name);
            g.totals <= g'.totals && forall a | |g.totals| <= a < |g'.totals| :: g'.totals[a] == Zero
    decreases Rank(name)
  {
    if name !in g.byName && Parent(name) != "" {
      ParentRank(name);
      TrackTotals(g, serverId, Parent(name));
    }
  }

  lemma ReceiveConserves(st: State, w: nat, r: Report, a: nat, f: Field)
    requires Good(st) && Enabled(st, Receive(w, r)) && a < |st.g.nodes| && Conserved(st, a, f)
    requires Good(Next(st, Receive(w, r)))
    ensures Conserved(Next(st, Receive(w, r)), a, f)
  {
    if r.name in st.g.byName {
      var i := st.g.byName[r.name];
      InFlightUpdate(st.g.nodes, st.workers, w, Busy(r, i), a, f);
      assert (st.accepted + [(r, i)])[..|st.accepted|] == st.accepted;
    }
  }

  lemma ApplyConserves(st: State, w: nat, a: nat, f: Field)
    requires Good(st) && Enabled(st, Apply(w)) && a < |st.g.nodes| && Conserved(st, a, f)
    requires Good(Next(st, Apply(w)))
    ensures Conserved(Next(st, Apply(w)), a, f)
  {
    var Busy(r, i) := st.workers[w];
    var parent := st.g.nodes[i].parent;
    var to := if parent.Some? then Busy(r, parent.value) else Idle;
    InFlightUpdate(st.g.nodes, st.workers, w, to, a, f);
    AddReportReads(st.g.totals[i], r, f);
    if a == i && parent.Some? {
      ChainDescends(st.g.nodes, parent.value, i);
    }
  }

  lemma RegisterConserves(st: State, serverId: string, name: string, a: nat, f: Field)
    requires Good(st) && Good(Next(st, Register(serverId, name))) && a < |Track(st.g, serverId, name).nodes|
    requires a < |st.g.nodes| ==> Conserved(st, a, f)
    ensures Conserved(Next(st, Register(serverId, name)), a, f)
  {
    var g' := Track(st.g, serverId, name);
    TrackWellFormed(st.g, serverId, name);
    TrackTotals(st.g, serverId, name);
    InFlightStable(st.g.nodes, g'.nodes, st.workers, a, f);
    CreditStable(st.g.nodes, g'.nodes, st.accepted, a, f);
  }

  lemma StepConserves(st: State, e: Event, a: nat, f: Field)
    requires Good(st) && Enabled(st, e) && Good(Next(st, e)) && a < |Next(st, e).g.nodes|
    requires a < |st.g.nodes| ==> Conserved(st, a, f)
    ensures Conserved(Next(st, e), a, f)
  {
    match e
    case Receive(w, r) => ReceiveConserves(st, w, r, a, f);
    case Apply(w) => ApplyConserves(st, w, a, f);
    case Register(serverId, name) => RegisterConserves(st, serverId, name, a, f);
    case Remove(_) =>
  }

  ghost predicate Run(st: State, events: seq<Event>)
    requires Good(st)
    decreases |events|
  {
    events != [] ==> Enabled(st, events[0]) && (NextGood(st, events[0]); Run(Next(st, events[0]), events[1..]))
  }

  ghost function After(st: State, events: seq<Event>): (st': State)
    requires Good(st) && Run(st, events)
    ensures Good(st')
    decreases |events|
  {
    if events == [] then st
    else
      NextGood(st, events[0]);
      After(Next(st, events[0]), events[1..])
  }

  ghost predicate AllConserved(st: State)
    requires Good(st)
  {
    forall a: nat, f: Field | a < |st.g.nodes| :: Conserved(st, a, f)
  }

  // In every interleaving, with registrations and removals anywhere, each counter of
  // each node equals the total of the accepted reports named at the node or below,
  // less what workers have yet to bring to it.
  lemma {:induction false} Conservation(st: State, events: seq<Event>)
    requires Good(st) && AllConserved(st) && Run(st, events)
    ensures AllConserved(After(st, events))
    decreases |events|
  {
    if events != [] {
      NextGood(st, events[0]);
      var next := Next(st, events[0]);
      forall a: nat, f: Field | a < |next.g.nodes| ensures Conserved(next, a, f) {
        StepConserves(st, events[0], a, f);
      }
      Conservation(next, events[1..]);
    }
  }

  function Start(workers: nat): (st: State)
    ensures Good(st)
  {
    State(InitialRegistry(), seq(workers, _ => Idle), [])
  }

  lemma {:induction false} IdleInFlight(nodes: seq<Node>, workers: seq<Worker>, a: nat, f: Field)
    requires Tree(nodes) && forall w | 0 <= w < |workers| :: workers[w].Idle?
    ensures InFlight(nodes, workers, a, f) == 0
    decreases |workers|
  {
    if workers != [] {
      IdleInFlight(nodes, workers[..|workers| - 1], a, f);
    }
  }

  lemma StartConserved(workers: nat)
    ensures AllConserved(Start(workers))
  {
    var st := Start(workers);
    forall a: nat, f: Field | a < |st.g.nodes| ensures Conserved(st, a, f) {
      IdleInFlight(st.g.nodes, st.workers, a, f);
    }
  }

  // ---------- The global metric ----------

  lemma {:induction false} ReachesGlobal(g: Registry, i: nat)
    requires WellFormed(g) && i < |g.nodes|
    ensures OnChain(g.nodes, i, 0) <==> GLOBAL in Ancestors(g.nodes[i].name)
    decreases i
  {
    var name := g.nodes[i].name;
    if g.nodes[i].parent.Some? {
      ReachesGlobal(g, g.nodes[i].parent.value);
      ParentMissing(GLOBAL);
      assert Ancestors(name) == [name] + Ancestors(Parent(name));
    } else {
      assert Ancestors(name) == [name];
    }
  }

  // The total of all accepted reports whose name is not cut down to nothing.
  ghost function AcceptedTotal(accepted: seq<(Report, nat)>, f: Field): int {
    if accepted == [] then 0
    else
      var last := accepted[|accepted| - 1].0;
      AcceptedTotal(accepted[..|accepted| - 1], f) + if Orphan(last.name) then 0 else Weight(f, last)
  }

  lemma GlobalShare(g: Registry, i: nat, r: Report, f: Field)
    requires WellFormed(g) && i < |g.nodes| && g.nodes[i].name == r.name
    ensures Share(g.nodes, 0, f, r, i) == if Orphan(r.name) then 0 else Weight(f, r)
  {
    ReachesGlobal(g, i);
    RollsUpToGlobal(r.name);
  }

  lemma {:induction false} GlobalCredit(g: Registry, accepted: seq<(Report, nat)>, f: Field)
    requires WellFormed(g) && Placed(g, accepted)
    ensures Credit(g.nodes, accepted, 0, f) == AcceptedTotal(accepted, f)
  {
    if accepted != [] {
      var n := |accepted| - 1;
      GlobalCredit(g, accepted[..n], f);
      GlobalShare(g, accepted[n].1, accepted[n].0, f);
    }
  }

  predicate AllIdle(st: State) {
    forall w | 0 <= w < |st.workers| :: st.workers[w].Idle?
  }

  lemma GlobalAtRest(st: State, f: Field)
    requires Good(st) && AllConserved(st) && AllIdle(st)
    ensures Read(st.g.totals[0], f) == AcceptedTotal(st.accepted, f)
  {
    assert Conserved(st, 0, f);
    IdleInFlight(st.g.nodes, st.workers, 0, f);
    GlobalCredit(st.g, st.accepted, f);
  }

  // When no report is in flight the global metric holds the total of every accepted
  // report, whatever was removed in between; only reports whose name starts with a
  // separator escape it.
  lemma GlobalTotal(workers: nat, events: seq<Event>, f: Field)
    requires Run(Start(workers), events) && AllIdle(After(Start(workers), events))
    ensures var st := After(Start(workers), events);
            GLOBAL in st.g.byName && Read(st.g.totals[st.g.byName[GLOBAL]], f) == AcceptedTotal(st.accepted, f)
  {
    StartConserved(workers);
    Conservation(Start(workers), events);
    GlobalAtRest(After(Start(workers), events), f);
  }

  // ---------- By name, without removals ----------

  ghost predicate NothingRemoved(g: Registry) {
    forall i | 0 <= i < |g.nodes| :: g.nodes[i].name in g.byName && g.byName[g.nodes[i].name] == i
  }

  lemma {:induction false} ChainIsAncestry(g: Registry, i: nat, a: nat)
    requires WellFormed(g) && NothingRemoved(g) && i < |g.nodes| && a < |g.nodes|
    ensures OnChain(g.nodes, i, a) <==> g.nodes[a].name in Ancestors(g.nodes[i].name)
    decreases i
  {
    var name := g.nodes[i].name;
    if g.nodes[i].parent.Some? {
      ChainIsAncestry(g, g.nodes[i].parent.value, a);
      assert Ancestors(name) == [name] + Ancestors(Parent(name));
    } else {
      assert Ancestors(name) == [name];
    }
  }

  ghost function CreditByName(accepted: seq<(Report, nat)>, name: string, f: Field): int {
    if accepted == [] then 0
    else
      var last := accepted[|accepted| - 1].0;
      CreditByName(accepted[..|accepted| - 1], name, f) + if name in Ancestors(last.name) then Weight(f, last) else 0
  }

  lemma NamedShare(g: Registry, i: nat, a: nat, r: Report, f: Field)
    requires WellFormed(g) && NothingRemoved(g) && i < |g.nodes| && a < |g.nodes| && g.nodes[i].name == r.name
    ensures Share(g.nodes, a, f, r, i) == if g.nodes[a].name in Ancestors(r.name) then Weight(f, r) else 0
  {
    ChainIsAncestry(g, i, a);
  }

  lemma {:induction false} CreditMatchesNames(g: Registry, accepted: seq<(Report, nat)>, a: nat, f: Field)
    requires WellFormed(g) && Placed(g, accepted) && NothingRemoved(g) && a < |g.nodes|
    ensures Credit(g.nodes, accepted, a, f) == CreditByName(accepted, g.nodes[a].name, f)
  {
    if accepted != [] {
      var n := |accepted| - 1;
      CreditMatchesNames(g, accepted[..n], a, f);
      NamedShare(g, accepted[n].1, a, accepted[n].0, f);
    }
  }

  lemma {:induction false} TrackKeepsNames(g: Registry, serverId: string, name: string)
    requires WellFormed(g) && NothingRemoved(g)
    ensures NothingRemoved(Track(g, serverId, name))
    decreases Rank(name)
  {
    if name !in g.byName && Parent(name) != "" {
      ParentRank(name);
      TrackWellFormed(g, serverId, Parent(name));
      TrackKeepsNames(g, serverId, Parent(name));
      TrackAddsAncestorsOnly(g, serverId, Parent(name), name);
    }
  }

  lemma {:induction false} RunKeepsNames(st: State, events: seq<Event>)
    requires Good(st) && NothingRemoved(st.g) && Run(st, events)
    requires forall i | 0 <= i < |events| :: !events[i].Remove?
    ensures NothingRemoved(After(st, events).g)
    decreases |events|
  {
    if events != [] {
      NextGood(st, events[0]);
      if events[0].Register? {
        TrackKeepsNames(st.g, events[0].serverId, events[0].name);
      }
      RunKeepsNames(Next(st, events[0]), events[1..]);
    }
  }

  lemma NamedTotal(st: State, name: string, f: Field)
    requires Good(st) && NothingRemoved(st.g) && name in st.g.byName && AllConserved(st)
    ensures var a := st.g.byName[name];
            Read(st.g.totals[a], f) + InFlight(st.g.nodes, st.workers, a, f) == CreditByName(st.accepted, name, f)
  {
    assert Conserved(st, st.g.byName[name], f);
    CreditMatchesNames(st.g, st.accepted, st.g.byName[name], f);
  }

  // Without removals, the counters of a registered name and the reports still on
  // their way to it add up to the reports accepted under it and its descendants.
  lemma TotalsByName(workers: nat, events: seq<Event>, name: string, f: Field)
    requires Run(Start(workers), events)
    requires forall i | 0 <= i < |events| :: !events[i].Remove?
    requires name in After(Start(workers), events).g.byName
    ensures var st := After(Start(workers), events);
            var a := st.g.byName[name];
            Read(st.g.totals[a], f) + InFlight(st.g.nodes, st.workers, a, f) == CreditByName(st.accepted, name, f)
  {
    StartConserved(workers);
    Conservation(Start(workers), events);
    RunKeepsNames(Start(workers), events);
    NamedTotal(After(Start(workers), events), name, f);
  }
}
