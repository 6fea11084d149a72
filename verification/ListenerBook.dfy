/**
 The life of the listeners told from the commands alone: a book that knows no servers,
 only which configuration is in force at which port, whether it runs, and whether its
 handler chain is live.
 */
module ListenerBook {
  import opened Options
  import opened ProxyLifecycle

  // `live` tells whether the handler chain has not been cancelled.
  datatype Entry = Entry(conf: Listener, running: bool, live: bool)

  type Book = map<int, Entry>

  // The configuration with its timeouts filled in.
  function Filled(conf: Listener): Listener {
    conf.(readTimeout := if conf.readTimeout == 0 then 30_000_000_000 else conf.readTimeout,
          readHeaderTimeout := if conf.readHeaderTimeout == 0 then 10_000_000_000 else conf.readHeaderTimeout,
          writeTimeout := if conf.writeTimeout == 0 then 30_000_000_000 else conf.writeTimeout,
          idleTimeout := if conf.idleTimeout == 0 then 120_000_000_000 else conf.idleTimeout)
  }

  function EditBook(env: Env, book: Book, port: int, conf: Listener, luck: Luck): Book
    requires port in book
  {
    var e := book[port];
    if Frame(e.conf) == Frame(conf) then
      if e.conf == conf || env.chain(conf.port, conf.routes).None? then book
      else book[port := e.(conf := conf, live := true)]
    else if port <= 0 then book
    else if e.running && !luck.stopClean then book[port := e.(live := false)]
    else if !CanServe(env, conf) then book - {port}
    else (book - {port})[conf.port := Entry(Filled(conf), e.running && conf.port == port && luck.bound, true)]
  }

  function BookNext(env: Env, book: Book, c: Command): Book {
    match c
    case Add(conf) => if CanServe(env, conf) then book[conf.port := Entry(Filled(conf), false, true)] else book
    case Start(port, bound) =>
      if port > 0 && port in book && bound then book[port := book[port].(running := true)] else book
    case Stop(port, clean) =>
      if port <= 0 || port !in book || !book[port].running then book
      else book[port := book[port].(running := !clean, live := false)]
    case Delete(port, clean) =>
      if port <= 0 || port !in book then book
      else if book[port].running && !clean then book[port := book[port].(live := false)]
      else book - {port}
    case Edit(port, conf, luck) => if port in book then EditBook(env, book, port, conf, luck) else book
  }

  function BookAfter(env: Env, book: Book, commands: seq<Command>): Book
    decreases |commands|
  {
    if commands == [] then book else BookAfter(env, BookNext(env, book, commands[0]), commands[1..])
  }

  // ---------- The book is right ----------

  ghost predicate Shows(st: State, book: Book) {
    && (forall p :: p in book <==> p in st.started || p in st.stopped)
    && (forall p | p in st.started ::
          p in book && book[p] == Entry(st.started[p].current, true, st.started[p].chainLive))
    && (forall p | p in st.stopped ::
          p in book && book[p] == Entry(st.stopped[p].current, false, st.stopped[p].chainLive))
  }

  lemma AddShown(env: Env, st: State, book: Book, conf: Listener)
    requires Inv(env, st) && Shows(st, book) && conf.port !in st.started
    ensures Shows(Added(env, st, conf).0, BookNext(env, book, Add(conf)))
  {
    AddedExactly(env, st, conf);
    if CanServe(env, conf) {
      var s := Added(env, st, conf).0.stopped[conf.port];
      assert s.current == Filled(conf);
    }
  }

  lemma MoveShown(env: Env, st: State, book: Book, c: Command)
    requires Inv(env, st) && Shows(st, book) && (c.Start? || c.Stop? || c.Delete?)
    ensures Shows(Next(env, st, c), BookNext(env, book, c))
  {
  }

  // A change of the routes alone shows as the new configuration.
  lemma SwapShown(env: Env, st: State, book: Book, port: int, conf: Listener, luck: Luck)
    requires Inv(env, st) && Shows(st, book) && port in book && Frame(book[port].conf) == Frame(conf)
    ensures Shows(Edited(env, st, port, conf, luck).0, EditBook(env, book, port, conf, luck))
  {
    var s := if port in st.started then st.started[port] else st.stopped[port];
    RestartExactly(env, port, s, conf);
    AgreesRuns(env, port, s);
  }

  lemma RebuildShown(env: Env, st: State, book: Book, port: int, conf: Listener, luck: Luck)
    requires Inv(env, st) && Shows(st, book) && port in book && Frame(book[port].conf) != Frame(conf)
    requires conf.port == port || conf.port !in st.started
    ensures Shows(Edited(env, st, port, conf, luck).0, EditBook(env, book, port, conf, luck))
  {
    var s := if port in st.started then st.started[port] else st.stopped[port];
    RestartExactly(env, port, s, conf);
    var gone := Cleared(st, port, luck);
    assert gone.1 <==> port > 0 && (port in st.started ==> luck.stopClean);
    if gone.1 {
      ClearResult(st, port, luck);
      ClearKeepsInv(env, st, port, luck);
      AddShown(env, gone.0, book - {port}, conf);
    }
  }

  lemma StepShown(env: Env, st: State, book: Book, c: Command)
    requires Inv(env, st) && Shows(st, book) && Allowed(st, c)
    ensures Shows(Next(env, st, c), BookNext(env, book, c))
  {
    match c
    case Add(conf) => AddShown(env, st, book, conf);
    case Edit(port, conf, luck) =>
      if port in book {
        if Frame(book[port].conf) == Frame(conf) {
          SwapShown(env, st, book, port, conf, luck);
        } else {
          RebuildShown(env, st, book, port, conf, luck);
        }
      }
    case _ => MoveShown(env, st, book, c);
  }

  lemma {:induction false} RunShown(env: Env, st: State, book: Book, commands: seq<Command>)
    requires Inv(env, st) && Shows(st, book) && IsRun(env, st, commands)
    ensures Shows(After(env, st, commands), BookAfter(env, book, commands))
    decreases |commands|
  {
    if commands != [] {
      NextKeepsInv(env, st, commands[0]);
      StepShown(env, st, book, commands[0]);
      RunShown(env, Next(env, st, commands[0]), BookNext(env, book, commands[0]), commands[1..]);
    }
  }

  // After every run, whatever the environment did, the listeners that are there, which of
  // them run, whether their chains are live, and the configuration in force of each are
  // those of the book, and each server runs with exactly the settings of that configuration.
  lemma BookExactly(env: Env, commands: seq<Command>, port: int)
    requires IsRun(env, State(map[], map[]), commands)
    ensures var st, book := After(env, State(map[], map[]), commands), BookAfter(env, map[], commands);
            && (port in st.started <==> port in book && book[port].running)
            && (port in st.stopped <==> port in book && !book[port].running)
            && (port in book ==>
                  var s := if book[port].running then st.started[port] else st.stopped[port];
                  && s.current == book[port].conf && s.chainLive == book[port].live
                  && RunsAsConfigured(env, s) && s.bindPort == port)
  {
    RunShown(env, State(map[], map[]), map[], commands);
    AllRunAsConfigured(env, commands, port);
  }
}
