/**
 The life of the HTTP servers: they are added stopped, started, stopped, deleted, and
 edited either by swapping the handler of the live server or by rebuilding it.
 Interface addresses, handler building, and the success of binding and of shutting
 down come from the environment.
 */
module ProxyLifecycle {
  import opened Options

  datatype Tls = Tls(useAcme: bool, cert: string, key: string)

  // A listener configuration; `routes` stands for the routes and the default target.
  datatype Listener = Listener(
    port: int, bindV4: bool, bindV6: bool, iface: string, tls: Option<Tls>, disableHttp2: bool,
    readTimeout: int, readHeaderTimeout: int, writeTimeout: int, idleTimeout: int, routes: string)

  // What a handler chain shows of itself.
  datatype Chain = Chain(handler: string, backends: seq<string>, routes: seq<string>, middlewares: seq<string>)

  datatype Kind = Http | Https(useAcme: bool, key: string, cert: string)

  datatype Server = Server(
    kind: Kind, bindPort: int, ipv4: string, ipv6: string, disableHttp2: bool,
    readTimeout: int, readHeaderTimeout: int, writeTimeout: int, idleTimeout: int,
    chain: Chain, current: Listener,
    chainLive: bool,     // the context of the handler chain has not been cancelled
    isStarted: bool)

  datatype Env = Env(addresses: string -> Option<(string, string)>, chain: (int, string) -> Option<Chain>)

  const SECOND := 1_000_000_000

  function OrDefault(t: int, default: int): int {
    if t == 0 then default else t
  }

  function WithDefaults(c: Listener): Listener {
    c.(readTimeout := OrDefault(c.readTimeout, 30 * SECOND),
       readHeaderTimeout := OrDefault(c.readHeaderTimeout, 10 * SECOND),
       writeTimeout := OrDefault(c.writeTimeout, 30 * SECOND),
       idleTimeout := OrDefault(c.idleTimeout, 120 * SECOND))
  }

  function BindAddresses(env: Env, iface: string): Option<(string, string)> {
    if iface == "" then Some(("0.0.0.0", "::")) else env.addresses(iface)
  }

  function KindOf(tls: Option<Tls>): Kind {
    if tls.None? then Http else Https(tls.value.useAcme, tls.value.key, tls.value.cert)
  }

  // A new server for a configuration, or `None` when it cannot be built.
  function Build(env: Env, conf: Listener): Option<Server> {
    var c := WithDefaults(conf);
    var ips := BindAddresses(env, c.iface);
    if ips.None? || (c.bindV4 && ips.value.0 == "") || (c.bindV6 && ips.value.1 == "") then None
    else
      var chain := env.chain(c.port, c.routes);
      if chain.None? then None
      else Some(Server(KindOf(c.tls), c.port, ips.value.0, ips.value.1, c.disableHttp2,
                       c.readTimeout, c.readHeaderTimeout, c.writeTimeout, c.idleTimeout,
                       chain.value, c, true, false))
  }

  // Whether a new configuration needs more than a new handler.
  predicate RestartNeeded(s: Server, conf: Listener)
    requires s.kind.Https? ==> s.current.tls.Some?
  {
    var cur := s.current;
    || cur.bindV4 != conf.bindV4 || cur.bindV6 != conf.bindV6 || cur.iface != conf.iface || cur.port != conf.port
    || cur.readTimeout != conf.readTimeout || cur.readHeaderTimeout != conf.readHeaderTimeout
    || cur.writeTimeout != conf.writeTimeout || cur.idleTimeout != conf.idleTimeout
    || cur.disableHttp2 != conf.disableHttp2
    || (if s.kind.Http? then conf.tls.Some?
        else
          || conf.tls.None? || cur.tls.value.useAcme != conf.tls.value.useAcme
          || cur.tls.value.cert != conf.tls.value.cert || cur.tls.value.key != conf.tls.value.key)
  }

  datatype State = State(started: map<int, Server>, stopped: map<int, Server>)

  // ---------- What each operation does ----------
  // The second component tells whether the operation reported success.

  function Started(st: State, port: int, bound: bool): (State, bool) {
    if port <= 0 || port in st.started || port !in st.stopped || !bound then (st, false)
    else (State(st.started[port := st.stopped[port].(isStarted := true)], st.stopped - {port}), true)
  }

  // Shutting down cancels the chain even when it reports an error.
  function Shut(s: Server): Server {
    s.(chainLive := false, isStarted := false)
  }

  function Stopped(st: State, port: int, clean: bool): (State, bool) {
    if port <= 0 || port in st.stopped || port !in st.started then (st, false)
    else if !clean then (st.(started := st.started[port := Shut(st.started[port])]), false)
    else (State(st.started - {port}, st.stopped[port := Shut(st.started[port])]), true)
  }

  function Deleted(st: State, port: int, clean: bool): (State, bool) {
    if port <= 0 then (st, false)
    else if port in st.stopped then (st.(stopped := st.stopped - {port}), true)
    else if port !in st.started then (st, false)
    else if !clean then (st.(started := st.started[port := Shut(st.started[port])]), false)
    else (st.(started := st.started - {port}), true)
  }

  function Added(env: Env, st: State, conf: Listener): (State, bool) {
    var server := Build(env, conf);
    if server.None? then (st, false) else (st.(stopped := st.stopped[conf.port := server.value]), true)
  }

  function Swapped(s: Server, conf: Listener, chain: Chain): Server {
    s.(chain := chain, current := conf, chainLive := true)
  }

  function HotSwapped(env: Env, st: State, port: int, conf: Listener): (State, bool) {
    if port !in st.started && port !in st.stopped then (st, false)
    else
      var s := if port in st.started then st.started[port] else st.stopped[port];
      if s.current == conf then (st, true)
      else
        var chain := env.chain(conf.port, conf.routes);
        if chain.None? then (st, false)
        else if port in st.started then (st.(started := st.started[port := Swapped(s, conf, chain.value)]), true)
        else (st.(stopped := st.stopped[port := Swapped(s, conf, chain.value)]), true)
  }

  // What the environment answers during one edit.
  datatype Luck = Luck(stopClean: bool, deleteClean: bool, bound: bool)

  // Stop and delete...
  function Cleared(st: State, port: int, luck: Luck): (State, bool) {
    var halted := if port in st.started then Stopped(st, port, luck.stopClean) else (st, true);
    if !halted.1 then halted else Deleted(halted.0, port, luck.deleteClean)
  }

  // ... then add and start again.
  function Rebuilt(env: Env, st: State, port: int, conf: Listener, luck: Luck): (State, bool) {
    var gone := Cleared(st, port, luck);
    if !gone.1 then gone
    else
      var remade := Added(env, gone.0, conf);
      if !remade.1 || port !in st.started then remade else Started(remade.0, port, luck.bound)
  }

  function Edited(env: Env, st: State, port: int, conf: Listener, luck: Luck): (State, bool)
    requires Inv(env, st)
  {
    if port !in st.started && port !in st.stopped then (st, false)
    else
      var s := if port in st.started then st.started[port] else st.stopped[port];
      if RestartNeeded(s, conf) then Rebuilt(env, st, port, conf, luck) else HotSwapped(env, st, port, conf)
  }

  // ---------- The invariant ----------

  function Pristine(s: Server): Server {
    s.(chainLive := true, isStarted := false)
  }

  // Apart from its two flags, a server is what building its configuration would give.
  predicate Agrees(env: Env, port: int, s: Server) {
    s.current.port == port && Build(env, s.current) == Some(Pristine(s))
  }

  predicate Inv(env: Env, st: State) {
    && st.started.Keys !! st.stopped.Keys
    && (forall p | p in st.started :: Agrees(env, p, st.started[p]))
    && (forall p | p in st.stopped :: Agrees(env, p, st.stopped[p]) && !st.stopped[p].isStarted)
  }

  lemma DefaultsOnce(c: Listener)
    ensures WithDefaults(WithDefaults(c)) == WithDefaults(c)
  {
  }

  lemma BuildAgrees(env: Env, conf: Listener)
    requires Build(env, conf).Some?
    ensures Agrees(env, conf.port, Build(env, conf).value)
  {
    DefaultsOnce(conf);
  }

  // A swap is allowed only when nothing but the handler differs.
  lemma SwapAgrees(env: Env, port: int, s: Server, conf: Listener)
    requires Agrees(env, port, s) && !RestartNeeded(s, conf) && env.chain(conf.port, conf.routes).Some?
    ensures Build(env, conf) == Some(Pristine(Swapped(s, conf, env.chain(conf.port, conf.routes).value)))
    ensures Agrees(env, port, Swapped(s, conf, env.chain(conf.port, conf.routes).value))
  {
    assert WithDefaults(s.current) == s.current;
    assert WithDefaults(conf) == conf;
    assert conf.tls == s.current.tls;
  }

  lemma SwapKeepsInv(env: Env, st: State, port: int, conf: Listener)
    requires Inv(env, st) && (port in st.started || port in st.stopped)
    requires !RestartNeeded(if port in st.started then st.started[port] else st.stopped[port], conf)
    ensures Inv(env, HotSwapped(env, st, port, conf).0)
  {
    var s := if port in st.started then st.started[port] else st.stopped[port];
    if env.chain(conf.port, conf.routes).Some? {
      SwapAgrees(env, port, s, conf);
    }
  }

  // Adding keeps the invariant exactly when the port is not that of a started server.
  lemma AddKeepsInv(env: Env, st: State, conf: Listener)
    requires Inv(env, st) && Build(env, conf).Some?
    ensures Inv(env, Added(env, st, conf).0) <==> conf.port !in st.started
  {
    BuildAgrees(env, conf);
    var st' := Added(env, st, conf).0;
    assert conf.port in st'.stopped;
  }

  lemma StartKeepsInv(env: Env, st: State, port: int, bound: bool)
    requires Inv(env, st)
    ensures Inv(env, Started(st, port, bound).0)
  {
  }

  lemma StopKeepsInv(env: Env, st: State, port: int, clean: bool)
    requires Inv(env, st)
    ensures Inv(env, Stopped(st, port, clean).0)
  {
  }

  lemma DeleteKeepsInv(env: Env, st: State, port: int, clean: bool)
    requires Inv(env, st)
    ensures Inv(env, Deleted(st, port, clean).0)
  {
  }

  lemma ClearKeepsInv(env: Env, st: State, port: int, luck: Luck)
    requires Inv(env, st)
    ensures Inv(env, Cleared(st, port, luck).0)
  {
    StopKeepsInv(env, st, port, luck.stopClean);
    var st1 := if port in st.started then Stopped(st, port, luck.stopClean).0 else st;
    DeleteKeepsInv(env, st1, port, luck.deleteClean);
  }

  // A cleared port is in neither map, and nothing else has changed.
  lemma ClearResult(st: State, port: int, luck: Luck)
    requires st.started.Keys !! st.stopped.Keys && Cleared(st, port, luck).1
    ensures Cleared(st, port, luck).0 == State(st.started - {port}, st.stopped - {port})
  {
    if port in st.started {
      assert st.stopped[port := Shut(st.started[port])] - {port} == st.stopped - {port};
    } else {
      assert st.started - {port} == st.started;
    }
  }

  lemma RebuildKeepsInv(env: Env, st: State, port: int, conf: Listener, luck: Luck)
    requires Inv(env, st) && (conf.port == port || conf.port !in st.started)
    ensures Inv(env, Rebuilt(env, st, port, conf, luck).0)
  {
    ClearKeepsInv(env, st, port, luck);
    var gone := Cleared(st, port, luck);
    if gone.1 && Build(env, conf).Some? {
      ClearResult(st, port, luck);
      AddKeepsInv(env, gone.0, conf);
      StartKeepsInv(env, Added(env, gone.0, conf).0, port, luck.bound);
    }
  }

  // ---------- The running proxy ----------

  class Torii {
    const env: Env
    var started: map<int, Server>
    var stopped: map<int, Server>

    ghost function Now(): State reads this { State(started, stopped) }

    constructor (env: Env)
      ensures this.env == env && Now() == State(map[], map[]) && Inv(env, Now())
    {
      this.env, started, stopped := env, map[], map[];
    }

    method StartHttpProxy(port: int, bound: bool) returns (ok: bool)
      modifies this
      ensures (Now(), ok) == Started(old(Now()), port, bound)
    {
      if port <= 0 || port in started || port !in stopped {
        return false;
      }
      var server := stopped[port];
      if !bound {
        return false;
      }
      server := server.(isStarted := true);
      started := started[port := server];
      stopped := stopped - {port};
      return true;
    }

    method StopHttpProxy(port: int, clean: bool) returns (ok: bool)
      modifies this
      ensures (Now(), ok) == Stopped(old(Now()), port, clean)
    {
      if port <= 0 || port in stopped || port !in started {
        return false;
      }
      var server := started[port].(chainLive := false, isStarted := false);
      if !clean {
        started := started[port := server];
        return false;
      }
      stopped := stopped[port := server];
      started := started - {port};
      return true;
    }

    method DeleteHttpProxy(port: int, clean: bool) returns (ok: bool)
      modifies this
      ensures (Now(), ok) == Deleted(old(Now()), port, clean)
    {
      if port <= 0 {
        return false;
      }
      if port in stopped {
        stopped := stopped - {port};
        return true;
      }
      if port !in started {
        return false;
      }
      if !clean {
        started := started[port := started[port].(chainLive := false, isStarted := false)];
        return false;
      }
      started := started - {port};
      return true;
    }

    method AddHttpServer(conf: Listener) returns (ok: bool)
      modifies this
      ensures (Now(), ok) == Added(env, old(Now()), conf)
    {
      var server := Build(env, conf);
      if server.None? {
        return false;
      }
      stopped := stopped[conf.port := server.value];
      return true;
    }

    method HotSwapHandler(port: int, conf: Listener) returns (ok: bool)
      modifies this
      ensures (Now(), ok) == HotSwapped(env, old(Now()), port, conf)
    {
      if port !in started && port !in stopped {
        return false;
      }
      var server := if port in started then started[port] else stopped[port];
      if server.current == conf {
        return true;
      }
      var chain := env.chain(conf.port, conf.routes);
      if chain.None? {
        return false;
      }
      server := server.(chain := chain.value, chainLive := true);
      server := server.(current := conf);
      if port in started {
        started := started[port := server];
      } else {
        stopped := stopped[port := server];
      }
      return true;
    }

    method EditProxy(port: int, conf: Listener, luck: Luck) returns (ok: bool)
      requires Inv(env, Now())
      modifies this
      ensures (Now(), ok) == Edited(env, old(Now()), port, conf, luck)
    {
      if port !in started && port !in stopped {
        return false;
      }
      var server := if port in started then started[port] else stopped[port];
      if RestartNeeded(server, conf) {
        var wasStarted := port in started;
        if wasStarted {
          ok := StopHttpProxy(port, luck.stopClean);
          if !ok { return; }
        }
        ok := DeleteHttpProxy(port, luck.deleteClean);
        if !ok { return; }
        ok := AddHttpServer(conf);
        if !ok { return; }
        if wasStarted {
          ok := StartHttpProxy(port, luck.bound);
        }
        return;
      }
      ok := HotSwapHandler(port, conf);
    }
  }

  // ---------- Runs ----------

  datatype Command =
    | Add(conf: Listener)
    | Start(port: int, bound: bool)
    | Stop(port: int, clean: bool)
    | Delete(port: int, clean: bool)
    | Edit(port: int, conf: Listener, luck: Luck)

  // A listener is added only at a port that no started server holds.
  predicate Allowed(st: State, c: Command) {
    match c
    case Add(conf) => conf.port !in st.started
    case Edit(port, conf, _) => conf.port == port || conf.port !in st.started
    case _ => true
  }

  function Next(env: Env, st: State, c: Command): State
    requires Inv(env, st)
  {
    match c
    case Add(conf) => Added(env, st, conf).0
    case Start(port, bound) => Started(st, port, bound).0
    case Stop(port, clean) => Stopped(st, port, clean).0
    case Delete(port, clean) => Deleted(st, port, clean).0
    case Edit(port, conf, luck) => Edited(env, st, port, conf, luck).0
  }

  lemma NextKeepsInv(env: Env, st: State, c: Command)
    requires Inv(env, st) && Allowed(st, c)
    ensures Inv(env, Next(env, st, c))
  {
    match c
    case Add(conf) => if Build(env, conf).Some? { AddKeepsInv(env, st, conf); }
    case Start(port, bound) => StartKeepsInv(env, st, port, bound);
    case Stop(port, clean) => StopKeepsInv(env, st, port, clean);
    case Delete(port, clean) => DeleteKeepsInv(env, st, port, clean);
    case Edit(port, conf, luck) =>
      if port in st.started || port in st.stopped {
        if RestartNeeded(if port in st.started then st.started[port] else st.stopped[port], conf) {
          RebuildKeepsInv(env, st, port, conf, luck);
        } else {
          SwapKeepsInv(env, st, port, conf);
        }
      }
  }

  ghost predicate IsRun(env: Env, st: State, commands: seq<Command>)
    requires Inv(env, st)
    decreases |commands|
  {
    commands != [] ==>
      && Allowed(st, commands[0])
      && (NextKeepsInv(env, st, commands[0]); IsRun(env, Next(env, st, commands[0]), commands[1..]))
  }

  // In every run, whatever the environment does, no port is both started and stopped
  // and the runtime settings of every server are those of its configuration.
  ghost function After(env: Env, st: State, commands: seq<Command>): (st': State)
    requires Inv(env, st) && IsRun(env, st, commands)
    ensures Inv(env, st')
    decreases |commands|
  {
    if commands == [] then st
    else
      NextKeepsInv(env, st, commands[0]);
      After(env, Next(env, st, commands[0]), commands[1..])
  }

  // ---------- Hot swap against rebuild ----------

  // The rebuilt server, whatever it was before.
  lemma RebuildResult(env: Env, st: State, port: int, conf: Listener, luck: Luck)
    requires Inv(env, st) && conf.port == port && (port in st.started || port in st.stopped)
    requires Rebuilt(env, st, port, conf, luck).1
    ensures Build(env, conf).Some?
    ensures Rebuilt(env, st, port, conf, luck).0
            == if port in st.started then st.(started := st.started[port := Build(env, conf).value.(isStarted := true)])
               else st.(stopped := st.stopped[port := Build(env, conf).value])
  {
    ClearResult(st, port, luck);
    Refilled(st, port, Build(env, conf).value);
  }

  lemma Refilled(st: State, port: int, server: Server)
    requires st.started.Keys !! st.stopped.Keys
    ensures (st.stopped - {port})[port := server] == st.stopped[port := server]
    ensures (st.started - {port})[port := server.(isStarted := true)] == st.started[port := server.(isStarted := true)]
    ensures port !in st.started ==> st.started - {port} == st.started
    ensures port in st.started ==> (st.stopped - {port})[port := server] - {port} == st.stopped
  {
  }

  // A successful edit leaves exactly the state of a successful rebuild, except when
  // the configuration is unchanged and the server's chain has been cancelled, or when
  // a failed shutdown has left it unmarked.
  lemma EditRefinesRebuild(env: Env, st: State, port: int, conf: Listener, luck: Luck)
    requires Inv(env, st) && conf.port == port && (port in st.started || port in st.stopped)
    requires Edited(env, st, port, conf, luck).1 && Rebuilt(env, st, port, conf, luck).1
    ensures var s := if port in st.started then st.started[port] else st.stopped[port];
            Edited(env, st, port, conf, luck) == Rebuilt(env, st, port, conf, luck)
            <==> || RestartNeeded(s, conf)
                 || (if port in st.started then s.isStarted && (s.chainLive || s.current != conf)
                     else s.chainLive || s.current != conf)
  {
    var s := if port in st.started then st.started[port] else st.stopped[port];
    RebuildResult(env, st, port, conf, luck);
    if !RestartNeeded(s, conf) {
      var edited := if s.current == conf then s else Swapped(s, conf, env.chain(conf.port, conf.routes).value);
      if s.current != conf {
        SwapAgrees(env, port, s, conf);
      }
      assert Build(env, conf).value == Pristine(edited);
      if port in st.started {
        assert Edited(env, st, port, conf, luck).0 == st.(started := st.started[port := edited]);
        SlotEqual(st.started, port, edited, Pristine(edited).(isStarted := true));
      } else {
        assert Edited(env, st, port, conf, luck).0 == st.(stopped := st.stopped[port := edited]);
        SlotEqual(st.stopped, port, edited, Pristine(edited));
      }
    }
  }

  lemma SlotEqual(m: map<int, Server>, port: int, a: Server, b: Server)
    ensures m[port := a] == m[port := b] <==> a == b
  {
    assert m[port := a][port] == a && m[port := b][port] == b;
  }

  // Starting a server that was stopped before serves it with a cancelled chain.
  lemma RestartedChainCancelled(env: Env, st: State, port: int)
    requires Inv(env, st) && port > 0 && port in st.started
    ensures var st1 := Stopped(st, port, true).0;
            var st2 := Started(st1, port, true).0;
            && Started(st1, port, true).1 && port in st2.started
            && st2.started[port] == st.started[port].(chainLive := false, isStarted := true)
            && st2.started.Keys == st.started.Keys && st2.stopped == st.stopped
  {
  }

  // ---------- Every server runs as it is configured ----------

  // The running settings, one by one, are those of the configuration in force.
  ghost predicate RunsAsConfigured(env: Env, s: Server) {
    var c := s.current;
    && s.bindPort == c.port && s.disableHttp2 == c.disableHttp2
    && s.readTimeout == c.readTimeout && s.readHeaderTimeout == c.readHeaderTimeout
    && s.writeTimeout == c.writeTimeout && s.idleTimeout == c.idleTimeout
    && (c.tls.None? ==> s.kind == Http)
    && (c.tls.Some? ==>
          && s.kind.Https? && s.kind.useAcme == c.tls.value.useAcme
          && s.kind.key == c.tls.value.key && s.kind.cert == c.tls.value.cert)
    && (c.iface == "" ==> s.ipv4 == "0.0.0.0" && s.ipv6 == "::")
    && (c.iface != "" ==> env.addresses(c.iface) == Some((s.ipv4, s.ipv6)))
    && (c.bindV4 ==> s.ipv4 != "") && (c.bindV6 ==> s.ipv6 != "")
    && env.chain(c.port, c.routes) == Some(s.chain)
    && c.readTimeout != 0 && c.readHeaderTimeout != 0 && c.writeTimeout != 0 && c.idleTimeout != 0
  }

  // The configuration in force is the given one, with 30, 10, 30 and 120 seconds for
  // timeouts that were left out.
  predicate InForce(current: Listener, conf: Listener) {
    && current.port == conf.port && current.bindV4 == conf.bindV4 && current.bindV6 == conf.bindV6
    && current.iface == conf.iface && current.tls == conf.tls && current.disableHttp2 == conf.disableHttp2
    && current.routes == conf.routes
    && current.readTimeout == (if conf.readTimeout == 0 then 30_000_000_000 else conf.readTimeout)
    && current.readHeaderTimeout == (if conf.readHeaderTimeout == 0 then 10_000_000_000 else conf.readHeaderTimeout)
    && current.writeTimeout == (if conf.writeTimeout == 0 then 30_000_000_000 else conf.writeTimeout)
    && current.idleTimeout == (if conf.idleTimeout == 0 then 120_000_000_000 else conf.idleTimeout)
  }

  lemma AgreesRuns(env: Env, port: int, s: Server)
    requires Agrees(env, port, s)
    ensures RunsAsConfigured(env, s) && s.bindPort == port
  {
  }

  // In every run every server, started or stopped, runs with exactly the settings of its
  // configuration, on the port it is filed under; a stopped one is not marked as started.
  lemma AllRunAsConfigured(env: Env, commands: seq<Command>, port: int)
    requires IsRun(env, State(map[], map[]), commands)
    ensures var st := After(env, State(map[], map[]), commands);
            && (port in st.started ==>
                  RunsAsConfigured(env, st.started[port]) && st.started[port].bindPort == port && port !in st.stopped)
            && (port in st.stopped ==>
                  RunsAsConfigured(env, st.stopped[port]) && st.stopped[port].bindPort == port
                  && !st.stopped[port].isStarted)
  {
    var st := After(env, State(map[], map[]), commands);
    if port in st.started {
      AgreesRuns(env, port, st.started[port]);
    }
    if port in st.stopped {
      AgreesRuns(env, port, st.stopped[port]);
    }
  }

  // The addresses of the interface are known, they are there where they are asked for,
  // and the routes can be served.
  predicate CanServe(env: Env, conf: Listener) {
    && (conf.iface == "" || (
          && env.addresses(conf.iface).Some?
          && (conf.bindV4 ==> env.addresses(conf.iface).value.0 != "")
          && (conf.bindV6 ==> env.addresses(conf.iface).value.1 != "")))
    && env.chain(conf.port, conf.routes).Some?
  }

  // Adding succeeds exactly for a configuration that can be served; the new server then
  // waits, stopped, with that configuration in force and a live chain.
  lemma AddedExactly(env: Env, st: State, conf: Listener)
    ensures Added(env, st, conf).1 <==> CanServe(env, conf)
    ensures Added(env, st, conf).1 ==>
              var st' := Added(env, st, conf).0;
              && conf.port in st'.stopped && st'.started == st.started
              && st'.stopped - {conf.port} == st.stopped - {conf.port}
              && var s := st'.stopped[conf.port];
                 RunsAsConfigured(env, s) && InForce(s.current, conf) && s.chainLive && !s.isStarted
    ensures !Added(env, st, conf).1 ==> Added(env, st, conf).0 == st
  {
    if Build(env, conf).Some? {
      BuildAgrees(env, conf);
      AgreesRuns(env, conf.port, Build(env, conf).value);
    }
  }

  // ---------- When an edit swaps, and when it succeeds ----------

  // Without the routes.
  function Frame(conf: Listener): Listener {
    conf.(routes := "")
  }

  // A restart is needed exactly when something else than the routes differs from the
  // configuration in force.
  lemma RestartExactly(env: Env, port: int, s: Server, conf: Listener)
    requires Agrees(env, port, s)
    ensures RestartNeeded(s, conf) <==> Frame(s.current) != Frame(conf)
  {
    if !RestartNeeded(s, conf) {
      assert s.current.tls == conf.tls;
    }
  }

  // An edit of a listener that is there succeeds if and only if nothing has changed, or
  // the routes alone have and can be served, or a restart is needed, the configuration can
  // be served, and a started server shuts down and binds again.
  lemma EditSucceedsExactly(env: Env, st: State, port: int, conf: Listener, luck: Luck)
    requires Inv(env, st) && port > 0 && conf.port == port && (port in st.started || port in st.stopped)
    ensures var s := if port in st.started then st.started[port] else st.stopped[port];
            Edited(env, st, port, conf, luck).1
            <==> if Frame(s.current) != Frame(conf)
                 then CanServe(env, conf) && (port in st.started ==> luck.stopClean && luck.bound)
                 else s.current == conf || env.chain(conf.port, conf.routes).Some?
  {
    var s := if port in st.started then st.started[port] else st.stopped[port];
    RestartExactly(env, port, s, conf);
    if RestartNeeded(s, conf) {
      RebuildSucceeds(env, st, port, conf, luck);
    }
  }

  lemma RebuildSucceeds(env: Env, st: State, port: int, conf: Listener, luck: Luck)
    requires Inv(env, st) && port > 0 && conf.port == port && (port in st.started || port in st.stopped)
    ensures Rebuilt(env, st, port, conf, luck).1
            <==> CanServe(env, conf) && (port in st.started ==> luck.stopClean && luck.bound)
  {
    var gone := Cleared(st, port, luck);
    assert gone.1 <==> (port in st.started ==> luck.stopClean);
    if gone.1 {
      ClearResult(st, port, luck);
      AddedExactly(env, gone.0, conf);
    }
  }

  // After a successful edit the listener is where it was, with the new configuration in
  // force, and runs with exactly its settings; no other listener has changed.
  lemma EditedExactly(env: Env, st: State, port: int, conf: Listener, luck: Luck)
    requires Inv(env, st) && conf.port == port && (port in st.started || port in st.stopped)
    requires Edited(env, st, port, conf, luck).1
    ensures var st' := Edited(env, st, port, conf, luck).0;
            && (port in st'.started <==> port in st.started) && (port in st'.stopped <==> port in st.stopped)
            && st'.started - {port} == st.started - {port} && st'.stopped - {port} == st.stopped - {port}
            && var s := if port in st'.started then st'.started[port] else st'.stopped[port];
               RunsAsConfigured(env, s) && InForce(s.current, conf)
  {
    var s := if port in st.started then st.started[port] else st.stopped[port];
    if RestartNeeded(s, conf) {
      RebuildResult(env, st, port, conf, luck);
      AddedExactly(env, st, conf);
      Replaced(st, port, Build(env, conf).value.(isStarted := true), Build(env, conf).value);
    } else {
      SwapRuns(env, port, s, conf);
      var s' := if s.current == conf then s else Swapped(s, conf, env.chain(conf.port, conf.routes).value);
      Replaced(st, port, s', s');
    }
  }

  lemma SwapRuns(env: Env, port: int, s: Server, conf: Listener)
    requires Agrees(env, port, s) && !RestartNeeded(s, conf)
    requires s.current == conf || env.chain(conf.port, conf.routes).Some?
    ensures var s' := if s.current == conf then s else Swapped(s, conf, env.chain(conf.port, conf.routes).value);
            RunsAsConfigured(env, s') && InForce(s'.current, conf)
  {
    AgreesRuns(env, port, s);
    if s.current != conf {
      SwapAgrees(env, port, s, conf);
      AgreesRuns(env, port, Swapped(s, conf, env.chain(conf.port, conf.routes).value));
    }
  }

  lemma Replaced(st: State, port: int, a: Server, b: Server)
    ensures st.started[port := a] - {port} == st.started - {port}
    ensures st.stopped[port := b] - {port} == st.stopped - {port}
    ensures port in st.started ==> st.started[port := st.started[port]] == st.started
    ensures port in st.stopped ==> st.stopped[port := st.stopped[port]] == st.stopped
  {
  }
}
