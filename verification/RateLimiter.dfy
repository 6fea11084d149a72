/**
 Per-client rate limiting: one token bucket per client, kept in the expiring cache.
 The bucket is the documented behaviour of golang.org/x/time/rate.
 */
module RateLimiter {
  import opened Options
  import opened EvictCache

  datatype Policy = Policy(rate: real, burst: int) {
    // What the limiter's constructor checks.
    predicate Valid() {
      rate > 0.0 && burst > 0
    }
  }

  datatype Bucket = Bucket(tokens: real, last: int)

  function Level(p: Policy, b: Bucket, now: int): real {
    var refilled := b.tokens + p.rate * (now - b.last) as real;
    if refilled < p.burst as real then refilled else p.burst as real
  }

  function Fresh(p: Policy, now: int): Bucket {
    Bucket(p.burst as real, now)
  }

  function Take(p: Policy, b: Bucket, now: int): (Bucket, bool) {
    var level := Level(p, b, now);
    if level >= 1.0 then (Bucket(level - 1.0, now), true) else (Bucket(level, now), false)
  }

  // The cache when the client's bucket has been looked up, or created full on a miss.
  function Lookup(s: Settings, p: Policy, m: Contents<Bucket>, client: string,
                  checkAt: int, touchAt: int, allowAt: int, victim: string): (m': Contents<Bucket>)
    ensures client in m'
  {
    var (m1, hit) := Get(s, m, client, checkAt, touchAt);
    if hit.Some? then m1 else Put(s, m1, client, Fresh(p, allowAt), touchAt, victim)
  }

  // One decision over the expiring cache: look the bucket up and take a token.
  function Admit(s: Settings, p: Policy, m: Contents<Bucket>, client: string,
                 checkAt: int, touchAt: int, allowAt: int, victim: string): (Contents<Bucket>, bool)
  {
    var found := Lookup(s, p, m, client, checkAt, touchAt, allowAt, victim);
    var (b, ok) := Take(p, found[client].value, allowAt);
    (found[client := found[client].(value := b)], ok)
  }

  class TokenBucket {
    var tokens: real
    var last: int

    constructor (p: Policy, now: int)
      ensures Value() == Fresh(p, now)
    {
      tokens, last := p.burst as real, now;
    }

    ghost function Value(): Bucket reads this { Bucket(tokens, last) }

    method Allow(p: Policy, now: int) returns (ok: bool)
      modifies this
      ensures (Value(), ok) == Take(p, old(Value()), now)
    {
      tokens := tokens + p.rate * (now - last) as real;
      if tokens >= p.burst as real {
        tokens := p.burst as real;
      }
      assert tokens == Level(p, old(Value()), now);
      last := now;
      ok := tokens >= 1.0;
      if ok {
        tokens := tokens - 1.0;
      }
    }
  }

  // The values of the buckets that a cache points to.
  ghost function Values(m: Contents<TokenBucket>): set<TokenBucket> {
    set k | k in m :: m[k].value
  }

  ghost function View(m: Contents<TokenBucket>): Contents<Bucket>
    reads Values(m)
  {
    map k | k in m :: Entry(m[k].value.Value(), m[k].readAt)
  }

  // Every client has a bucket of its own.
  ghost predicate Separate(m: Contents<TokenBucket>) {
    forall j, k | j in m && k in m && m[j].value == m[k].value :: j == k
  }

  lemma ViewPut(s: Settings, m: Contents<TokenBucket>, key: string, b: TokenBucket, now: int, victim: string)
    requires VictimAllowed(s, m, victim)
    ensures View(Put(s, m, key, b, now, victim)) == Put(s, View(m), key, b.Value(), now, victim)
    ensures VictimAllowed(s, View(m), victim)
  {
    assert View(m).Keys == m.Keys;
  }

  lemma SeparatePut(s: Settings, m: Contents<TokenBucket>, key: string, b: TokenBucket, now: int, victim: string)
    requires Separate(m) && b !in Values(m)
    ensures Separate(Put(s, m, key, b, now, victim))
    ensures Values(Put(s, m, key, b, now, victim)) <= Values(m) + {b}
  {
    assert forall k | k in m :: m[k].value in Values(m);
  }

  lemma ViewGet(s: Settings, m: Contents<TokenBucket>, key: string, t: int, t': int)
    ensures View(Get(s, m, key, t, t').0) == Get(s, View(m), key, t, t').0
    ensures Get(s, m, key, t, t').1.Some? <==> Get(s, View(m), key, t, t').1.Some?
  {
  }

  class Limiter {
    const policy: Policy
    const clients: Cache<TokenBucket>

    ghost predicate Valid() reads clients { Separate(clients.cache) }

    ghost function State(): Contents<Bucket>
      reads clients, Values(clients.cache)
    {
      View(clients.cache)
    }

    constructor (policy: Policy, settings: Settings)
      ensures Valid() && State() == map[] && clients.settings == settings && this.policy == policy && fresh(clients)
    {
      this.policy := policy;
      clients := new Cache(settings);
    }

    method Find(key: string, checkAt: int, touchAt: int) returns (found: Option<TokenBucket>)
      requires Valid()
      modifies clients
      ensures Valid() && Values(clients.cache) <= old(Values(clients.cache))
      ensures State() == Get(clients.settings, old(State()), key, checkAt, touchAt).0
      ensures found.Some? <==> Get(clients.settings, old(State()), key, checkAt, touchAt).1.Some?
      ensures found.Some? ==> key in clients.cache && clients.cache[key].value == found.value
    {
      ghost var m := clients.cache;
      found := clients.GetValue(key, checkAt, touchAt);
      ViewGet(clients.settings, m, key, checkAt, touchAt);
    }

    method Create(key: string, touchAt: int, allowAt: int) returns (bucket: TokenBucket, ghost victim: string)
      requires Valid()
      modifies clients
      ensures Valid() && key in clients.cache && clients.cache[key].value == bucket && fresh(bucket)
      ensures Values(clients.cache) <= old(Values(clients.cache)) + {bucket}
      ensures VictimAllowed(clients.settings, old(State()), victim)
      ensures State() == Put(clients.settings, old(State()), key, Fresh(policy, allowAt), touchAt, victim)
    {
      ghost var m := clients.cache;
      bucket := new TokenBucket(policy, allowAt);
      victim := clients.CacheValue(key, bucket, touchAt);
      ViewPut(clients.settings, m, key, bucket, touchAt, victim);
      SeparatePut(clients.settings, m, key, bucket, touchAt, victim);
    }

    method FindOrCreate(key: string, checkAt: int, touchAt: int, allowAt: int)
      returns (bucket: TokenBucket, ghost victim: string)
      requires Valid()
      modifies clients
      ensures Valid() && key in clients.cache && clients.cache[key].value == bucket
      ensures bucket in old(Values(clients.cache)) || fresh(bucket)
      ensures Values(clients.cache) <= old(Values(clients.cache)) + {bucket}
      ensures var (m, hit) := Get(clients.settings, old(State()), key, checkAt, touchAt);
              hit.None? ==> VictimAllowed(clients.settings, m, victim)
      ensures State() == Lookup(clients.settings, policy, old(State()), key, checkAt, touchAt, allowAt, victim)
    {
      victim := "";
      var hit := Find(key, checkAt, touchAt);
      if hit.Some? {
        bucket := hit.value;
      } else {
        bucket, victim := Create(key, touchAt, allowAt);
      }
    }

    method TakeToken(key: string, bucket: TokenBucket, now: int) returns (ok: bool)
      requires Valid() && key in clients.cache && clients.cache[key].value == bucket
      modifies bucket
      ensures var (b, granted) := Take(policy, old(bucket.Value()), now);
              ok == granted && State() == old(State())[key := Entry(b, clients.cache[key].readAt)]
    {
      ok := bucket.Allow(policy, now);
    }

    // The decision for a request whose client address is known; `None` when it
    // could not be extracted.
    method AllowClient(client: Option<string>, checkAt: int, touchAt: int, allowAt: int)
      returns (allowed: bool, ghost victim: string)
      requires Valid()
      modifies clients, Values(clients.cache)
      ensures Valid() && fresh(Values(clients.cache) - old(Values(clients.cache)))
      ensures client.None? ==> !allowed && State() == old(State())
      ensures client.Some? ==>
                var (m, hit) := Get(clients.settings, old(State()), client.value, checkAt, touchAt);
                hit.None? ==> VictimAllowed(clients.settings, m, victim)
      ensures client.Some? ==>
                (State(), allowed)
                == Admit(clients.settings, policy, old(State()), client.value, checkAt, touchAt, allowAt, victim)
    {
      if client.None? {
        return false, "";
      }
      var bucket;
      bucket, victim := FindOrCreate(client.value, checkAt, touchAt, allowAt);
      allowed := TakeToken(client.value, bucket, allowAt);
    }

    method Reset(client: Option<string>)
      requires Valid()
      modifies clients
      ensures Valid() && State() == if client.Some? then old(State()) - {client.value} else old(State())
    {
      if client.Some? {
        clients.Evict(client.value);
      }
    }
  }

  // ---------- Runs ----------

  datatype Call =
    | Allow(client: string, checkAt: int, touchAt: int, allowAt: int, victim: string)
    | Unidentified(at: int)
    | Reset(client: string, at: int)
    | Sweep(at: int)
  {
    function Begin(): int {
      if Allow? then checkAt else at
    }
    function End(): int {
      if Allow? then allowAt else at
    }
  }

  // Calls run one after the other, and a call reads its bucket at most `lag` after
  // it touched the cache entry.
  ghost predicate WellTimed(lag: int, now: int, calls: seq<Call>)
    decreases |calls|
  {
    calls != [] ==>
      var c := calls[0];
      && now <= c.Begin()
      && (c.Allow? ==> c.checkAt <= c.touchAt <= c.allowAt <= c.touchAt + lag)
      && WellTimed(lag, c.End(), calls[1..])
  }

  function Clients(calls: seq<Call>): set<string> {
    set i | 0 <= i < |calls| && calls[i].Allow? :: calls[i].client
  }

  function Next(s: Settings, p: Policy, m: Contents<Bucket>, c: Call): (Contents<Bucket>, seq<bool>) {
    match c
    case Allow(client, t, t', t'', victim) => var r := Admit(s, p, m, client, t, t', t'', victim); (r.0, [r.1])
    case Unidentified(_) => (m, [false])
    case Reset(client, _) => (m - {client}, [])
    case Sweep(t) => (Live(s.ttl, m, t), [])
  }

  function After(s: Settings, p: Policy, m: Contents<Bucket>, calls: seq<Call>): Contents<Bucket>
    decreases |calls|
  {
    if calls == [] then m else After(s, p, Next(s, p, m, calls[0]).0, calls[1..])
  }

  function Decisions(s: Settings, p: Policy, m: Contents<Bucket>, calls: seq<Call>): seq<bool>
    decreases |calls|
  {
    if calls == [] then [] else Next(s, p, m, calls[0]).1 + Decisions(s, p, Next(s, p, m, calls[0]).0, calls[1..])
  }

  // The ideal limiter: one bucket per client that is never forgotten, full until
  // first used; a reset refills it.
  type Ideal = map<string, Bucket>

  function IdealNext(p: Policy, ideal: Ideal, c: Call): (Ideal, seq<bool>) {
    match c
    case Allow(client, _, _, t, _) =>
      var (b, ok) := Take(p, if client in ideal then ideal[client] else Fresh(p, t), t);
      (ideal[client := b], [ok])
    case Unidentified(_) => (ideal, [false])
    case Reset(client, _) => (ideal - {client}, [])
    case Sweep(_) => (ideal, [])
  }

  function IdealAfter(p: Policy, ideal: Ideal, calls: seq<Call>): Ideal
    decreases |calls|
  {
    if calls == [] then ideal else IdealAfter(p, IdealNext(p, ideal, calls[0]).0, calls[1..])
  }

  function IdealDecisions(p: Policy, ideal: Ideal, calls: seq<Call>): seq<bool>
    decreases |calls|
  {
    if calls == [] then []
    else IdealNext(p, ideal, calls[0]).1 + IdealDecisions(p, IdealNext(p, ideal, calls[0]).0, calls[1..])
  }

  // ---------- The limiter refines the ideal one ----------

  // A bucket that is not touched until its entry has expired has refilled.
  ghost predicate RefillsInTime(s: Settings, p: Policy, lag: int) {
    p.rate * (s.ttl + 1 - lag) as real >= p.burst as real
  }

  ghost predicate Full(p: Policy, b: Bucket, now: int) {
    Level(p, b, now) == p.burst as real
  }

  lemma ProductGrows(rate: real, a: int, b: int)
    requires rate > 0.0 && a <= b
    ensures rate * a as real <= rate * b as real
  {
    assert rate * (b - a) as real >= 0.0;
    assert rate * b as real == rate * a as real + rate * (b - a) as real;
  }

  lemma StaysFull(p: Policy, b: Bucket, now: int, later: int)
    requires p.Valid() && Full(p, b, now) && now <= later
    ensures Full(p, b, later)
  {
    ProductGrows(p.rate, now - b.last, later - b.last);
  }

  lemma ForgottenIsFull(s: Settings, p: Policy, lag: int, e: Entry<Bucket>, now: int)
    requires p.Valid() && RefillsInTime(s, p, lag)
    requires e.value.tokens >= 0.0 && e.value.last <= e.readAt + lag && Expired(s.ttl, e, now)
    ensures Full(p, e.value, now)
  {
    ProductGrows(p.rate, s.ttl + 1 - lag, now - e.value.last);
  }

  lemma LevelNonNegative(p: Policy, b: Bucket, now: int)
    requires p.Valid() && b.tokens >= 0.0 && b.last <= now
    ensures Level(p, b, now) >= 0.0
  {
    ProductGrows(p.rate, 0, now - b.last);
  }

  ghost predicate Tracks(s: Settings, p: Policy, lag: int, now: int, m: Contents<Bucket>, ideal: Ideal) {
    && (forall c | c in m ::
          c in ideal && ideal[c] == m[c].value && m[c].value.tokens >= 0.0
          && m[c].value.last <= now && m[c].value.last <= m[c].readAt + lag)
    && (forall c | c in ideal && c !in m :: Full(p, ideal[c], now))
  }

  lemma TracksLater(s: Settings, p: Policy, lag: int, now: int, later: int, m: Contents<Bucket>, ideal: Ideal)
    requires p.Valid() && now <= later && Tracks(s, p, lag, now, m, ideal)
    ensures Tracks(s, p, lag, later, m, ideal)
  {
    forall c | c in ideal && c !in m ensures Full(p, ideal[c], later) {
      StaysFull(p, ideal[c], now, later);
    }
  }

  // With room for every client, a miss evicts nothing.
  lemma MissKeepsOthers(s: Settings, p: Policy, keys: set<string>, m: Contents<Bucket>, c: Call)
    requires c.Allow? && Get(s, m, c.client, c.checkAt, c.touchAt).1.None?
    requires m.Keys <= keys && c.client in keys && |keys| <= s.maxEntries
    ensures Lookup(s, p, m, c.client, c.checkAt, c.touchAt, c.allowAt, c.victim)
            == m[c.client := Entry(Fresh(p, c.allowAt), c.touchAt)]
  {
    var m1 := Get(s, m, c.client, c.checkAt, c.touchAt).0;
    assert m1 == m - {c.client};
    NoEviction(m1.Keys, c.client, keys);
  }

  // On a miss the ideal bucket is full, or has never been used.
  lemma MissIsFull(s: Settings, p: Policy, lag: int, now: int, m: Contents<Bucket>, ideal: Ideal, c: Call)
    requires p.Valid() && RefillsInTime(s, p, lag) && Tracks(s, p, lag, now, m, ideal)
    requires c.Allow? && now <= c.checkAt <= c.touchAt <= c.allowAt
    requires Get(s, m, c.client, c.checkAt, c.touchAt).1.None?
    ensures c.client in ideal ==> Full(p, ideal[c.client], c.allowAt)
  {
    if c.client in m {
      ForgottenIsFull(s, p, lag, m[c.client], c.checkAt);
      StaysFull(p, m[c.client].value, c.checkAt, c.allowAt);
    } else if c.client in ideal {
      StaysFull(p, ideal[c.client], now, c.allowAt);
    }
  }

  // A lookup leaves the other entries alone and finds a bucket that behaves as the
  // ideal one.
  lemma LookupTracks(s: Settings, p: Policy, lag: int, keys: set<string>, now: int,
                     m: Contents<Bucket>, ideal: Ideal, c: Call)
    requires p.Valid() && RefillsInTime(s, p, lag) && Tracks(s, p, lag, now, m, ideal)
    requires c.Allow? && now <= c.checkAt <= c.touchAt <= c.allowAt
    requires m.Keys <= keys && c.client in keys && |keys| <= s.maxEntries
    ensures var found := Lookup(s, p, m, c.client, c.checkAt, c.touchAt, c.allowAt, c.victim);
            && found == m[c.client := found[c.client]] && found[c.client].readAt == c.touchAt
            && Take(p, found[c.client].value, c.allowAt)
               == Take(p, if c.client in ideal then ideal[c.client] else Fresh(p, c.allowAt), c.allowAt)
            && Level(p, found[c.client].value, c.allowAt) >= 0.0
  {
    if Get(s, m, c.client, c.checkAt, c.touchAt).1.None? {
      MissKeepsOthers(s, p, keys, m, c);
      MissIsFull(s, p, lag, now, m, ideal, c);
      assert Full(p, Fresh(p, c.allowAt), c.allowAt);
    } else {
      LevelNonNegative(p, m[c.client].value, c.allowAt);
    }
  }

  lemma AdmitTracks(s: Settings, p: Policy, lag: int, keys: set<string>, now: int,
                    m: Contents<Bucket>, ideal: Ideal, c: Call)
    requires p.Valid() && RefillsInTime(s, p, lag) && Tracks(s, p, lag, now, m, ideal)
    requires c.Allow? && now <= c.checkAt <= c.touchAt <= c.allowAt <= c.touchAt + lag
    requires m.Keys <= keys && c.client in keys && |keys| <= s.maxEntries
    ensures Next(s, p, m, c).1 == IdealNext(p, ideal, c).1
    ensures Tracks(s, p, lag, c.allowAt, Next(s, p, m, c).0, IdealNext(p, ideal, c).0)
    ensures Next(s, p, m, c).0.Keys <= keys
  {
    LookupTracks(s, p, lag, keys, now, m, ideal, c);
    TracksLater(s, p, lag, now, c.allowAt, m, ideal);
    var found := Lookup(s, p, m, c.client, c.checkAt, c.touchAt, c.allowAt, c.victim);
    var (b, _) := Take(p, found[c.client].value, c.allowAt);
    assert Next(s, p, m, c).0 == m[c.client := Entry(b, c.touchAt)];
    assert IdealNext(p, ideal, c).0 == ideal[c.client := b];
  }

  lemma NoEviction(others: set<string>, k: string, keys: set<string>)
    requires k !in others && others <= keys && k in keys
    ensures |others| < |keys|
  {
    assert keys == (keys - others) + others;
    assert k in keys - others;
  }

  lemma StepTracks(s: Settings, p: Policy, lag: int, keys: set<string>, now: int,
                   m: Contents<Bucket>, ideal: Ideal, c: Call)
    requires p.Valid() && RefillsInTime(s, p, lag) && Tracks(s, p, lag, now, m, ideal)
    requires WellTimed(lag, now, [c])
    requires m.Keys <= keys && (c.Allow? ==> c.client in keys) && |keys| <= s.maxEntries
    ensures Next(s, p, m, c).1 == IdealNext(p, ideal, c).1
    ensures Tracks(s, p, lag, c.End(), Next(s, p, m, c).0, IdealNext(p, ideal, c).0)
    ensures Next(s, p, m, c).0.Keys <= keys
  {
    if c.Allow? {
      AdmitTracks(s, p, lag, keys, now, m, ideal, c);
    } else {
      TracksLater(s, p, lag, now, c.at, m, ideal);
      if c.Sweep? {
        forall k | k in m && k !in Live(s.ttl, m, c.at) ensures Full(p, ideal[k], c.at) {
          ForgottenIsFull(s, p, lag, m[k], c.at);
        }
      }
    }
  }

  // When the last of the calls ends.
  function Ends(now: int, calls: seq<Call>): int
    decreases |calls|
  {
    if calls == [] then now else Ends(calls[0].End(), calls[1..])
  }

  // Every sequential run, under every sweep schedule, decides as the ideal limiter.
  lemma {:induction false} RefinesIdeal(s: Settings, p: Policy, lag: int, keys: set<string>, now: int,
                                        m: Contents<Bucket>, ideal: Ideal, calls: seq<Call>)
    requires p.Valid() && RefillsInTime(s, p, lag) && Tracks(s, p, lag, now, m, ideal)
    requires WellTimed(lag, now, calls)
    requires m.Keys + Clients(calls) <= keys && |keys| <= s.maxEntries
    ensures Decisions(s, p, m, calls) == IdealDecisions(p, ideal, calls)
    ensures Tracks(s, p, lag, Ends(now, calls), After(s, p, m, calls), IdealAfter(p, ideal, calls))
    ensures After(s, p, m, calls).Keys <= keys
    decreases |calls|
  {
    if calls != [] {
      var c := calls[0];
      assert c.Allow? ==> c.client in Clients(calls);
      assert Clients(calls[1..]) <= Clients(calls);
      StepTracks(s, p, lag, keys, now, m, ideal, c);
      RefinesIdeal(s, p, lag, keys, c.End(), Next(s, p, m, c).0, IdealNext(p, ideal, c).0, calls[1..]);
    }
  }

  // ---------- The rate is kept ----------

  // How many of the decisions grant a request of the client.
  function GrantedTo(calls: seq<Call>, decisions: seq<bool>, client: string): nat
    decreases |calls|
  {
    if calls == [] then 0
    else
      var c := calls[0];
      if !c.Allow? && !c.Unidentified? then GrantedTo(calls[1..], decisions, client)
      else if decisions == [] then 0
      else (if c.Allow? && c.client == client && decisions[0] then 1 else 0)
           + GrantedTo(calls[1..], decisions[1..], client)
  }

  function Available(p: Policy, ideal: Ideal, client: string, now: int): real {
    if client in ideal then Level(p, ideal[client], now) else p.burst as real
  }

  // What a bucket gains between two times.
  function Yield(p: Policy, from: int, to: int): real {
    p.rate * (to - from) as real
  }

  lemma YieldSplit(p: Policy, a: int, b: int, c: int)
    ensures Yield(p, a, c) == Yield(p, a, b) + Yield(p, b, c)
  {
    assert (c - a) as real == (b - a) as real + (c - b) as real;
  }

  lemma LevelGrows(p: Policy, b: Bucket, now: int, later: int)
    requires p.Valid() && now <= later
    ensures Level(p, b, now) <= Level(p, b, later) <= Level(p, b, now) + Yield(p, now, later)
    ensures Yield(p, now, later) >= 0.0
  {
    ProductGrows(p.rate, 0, later - now);
    YieldSplit(p, b.last, now, later);
  }

  // What a call grants to the client.
  function Used(p: Policy, ideal: Ideal, c: Call, client: string): nat {
    if c.Allow? && c.client == client && IdealNext(p, ideal, c).1[0] then 1 else 0
  }

  // A call uses up what it grants.
  lemma StepUses(p: Policy, now: int, ideal: Ideal, c: Call, client: string)
    requires p.Valid() && now <= c.End() && !(c.Reset? && c.client == client)
    requires Available(p, ideal, client, now) >= 0.0
    ensures Available(p, IdealNext(p, ideal, c).0, client, c.End()) >= 0.0
    ensures Used(p, ideal, c, client) as real + Available(p, IdealNext(p, ideal, c).0, client, c.End())
            <= Available(p, ideal, client, now) + Yield(p, now, c.End())
  {
    LevelGrows(p, if client in ideal then ideal[client] else Fresh(p, now), now, c.End());
  }

  lemma FirstDecision(calls: seq<Call>, first: seq<bool>, rest: seq<bool>, client: string)
    requires calls != [] && |first| == if calls[0].Allow? || calls[0].Unidentified? then 1 else 0
    ensures GrantedTo(calls, first + rest, client)
            == (if calls[0].Allow? && calls[0].client == client && first[0] then 1 else 0)
               + GrantedTo(calls[1..], rest, client)
  {
    if first == [] {
      assert first + rest == rest;
    } else {
      assert (first + rest)[1..] == rest;
    }
  }

  lemma GrantedStep(p: Policy, ideal: Ideal, calls: seq<Call>, client: string)
    requires calls != []
    ensures GrantedTo(calls, IdealDecisions(p, ideal, calls), client)
            == Used(p, ideal, calls[0], client)
               + GrantedTo(calls[1..], IdealDecisions(p, IdealNext(p, ideal, calls[0]).0, calls[1..]), client)
  {
    var next := IdealNext(p, ideal, calls[0]);
    FirstDecision(calls, next.1, IdealDecisions(p, next.0, calls[1..]), client);
  }

  lemma {:induction false} IdealRate(p: Policy, lag: int, now: int, ideal: Ideal, calls: seq<Call>, client: string)
    requires p.Valid() && WellTimed(lag, now, calls) && Available(p, ideal, client, now) >= 0.0
    requires forall i | 0 <= i < |calls| :: !(calls[i].Reset? && calls[i].client == client)
    ensures GrantedTo(calls, IdealDecisions(p, ideal, calls), client) as real
            <= Available(p, ideal, client, now) + Yield(p, now, Ends(now, calls))
    decreases |calls|
  {
    if calls != [] {
      var c := calls[0];
      StepUses(p, now, ideal, c, client);
      IdealRate(p, lag, c.End(), IdealNext(p, ideal, c).0, calls[1..], client);
      YieldSplit(p, now, c.End(), Ends(now, calls));
      GrantedStep(p, ideal, calls, client);
    }
  }

  lemma StretchKept(s: Settings, p: Policy, lag: int, keys: set<string>, now: int,
                    m: Contents<Bucket>, ideal: Ideal, calls: seq<Call>, client: string)
    requires p.Valid() && RefillsInTime(s, p, lag) && Tracks(s, p, lag, now, m, ideal)
    requires WellTimed(lag, now, calls)
    requires m.Keys + Clients(calls) <= keys && |keys| <= s.maxEntries
    requires forall i | 0 <= i < |calls| :: !(calls[i].Reset? && calls[i].client == client)
    ensures GrantedTo(calls, Decisions(s, p, m, calls), client) as real
            <= p.burst as real + Yield(p, now, Ends(now, calls))
  {
    RefinesIdeal(s, p, lag, keys, now, m, ideal, calls);
    if client in m {
      LevelNonNegative(p, m[client].value, now);
    }
    IdealRate(p, lag, now, ideal, calls, client);
  }

  lemma {:induction false} WellTimedSplit(lag: int, now: int, a: seq<Call>, b: seq<Call>)
    requires WellTimed(lag, now, a + b)
    ensures WellTimed(lag, now, a) && WellTimed(lag, Ends(now, a), b)
    decreases |a|
  {
    if a == [] {
      assert a + b == b;
    } else {
      assert (a + b)[1..] == a[1..] + b;
      WellTimedSplit(lag, a[0].End(), a[1..], b);
    }
  }

  lemma ClientsOfParts(a: seq<Call>, b: seq<Call>)
    ensures Clients(a) <= Clients(a + b) && Clients(b) <= Clients(a + b)
  {
    forall x | x in Clients(a) ensures x in Clients(a + b) {
      var i :| 0 <= i < |a| && a[i].Allow? && a[i].client == x;
      assert (a + b)[i] == a[i];
    }
    forall x | x in Clients(b) ensures x in Clients(a + b) {
      var i :| 0 <= i < |b| && b[i].Allow? && b[i].client == x;
      assert (a + b)[|a| + i] == b[i];
    }
  }

  // In every stretch without a reset of every run of a new limiter, however its cache
  // expires and sweeps, a client is granted at most its burst and what its rate yields
  // in that time.
  lemma RateKept(s: Settings, p: Policy, lag: int, now: int, before: seq<Call>, stretch: seq<Call>, client: string)
    requires p.Valid() && RefillsInTime(s, p, lag) && WellTimed(lag, now, before + stretch)
    requires |Clients(before + stretch)| <= s.maxEntries
    requires forall i | 0 <= i < |stretch| :: !(stretch[i].Reset? && stretch[i].client == client)
    ensures var start := Ends(now, before);
            GrantedTo(stretch, Decisions(s, p, After(s, p, map[], before), stretch), client) as real
            <= p.burst as real + Yield(p, start, Ends(start, stretch))
  {
    var keys := Clients(before + stretch);
    WellTimedSplit(lag, now, before, stretch);
    ClientsOfParts(before, stretch);
    RefinesIdeal(s, p, lag, keys, now, map[], map[], before);
    StretchKept(s, p, lag, keys, Ends(now, before), After(s, p, map[], before),
                IdealAfter(p, map[], before), stretch, client);
  }

  // ---------- The condition is exact ----------
  // One client spends its burst at time 0 and asks for another burst at the moment
  // its entry expires.

  function Batch(t: int, n: nat): seq<Call> {
    if n == 0 then [] else [Allow("client", t, t, t, "")] + Batch(t, n - 1)
  }

  lemma {:induction false} DecisionsSplit(s: Settings, p: Policy, m: Contents<Bucket>, a: seq<Call>, b: seq<Call>)
    ensures Decisions(s, p, m, a + b) == Decisions(s, p, m, a) + Decisions(s, p, After(s, p, m, a), b)
    decreases |a|
  {
    if a == [] {
      assert a + b == b;
    } else {
      assert (a + b)[1..] == a[1..] + b;
      DecisionsSplit(s, p, Next(s, p, m, a[0]).0, a[1..], b);
    }
  }

  lemma {:induction false} IdealDecisionsSplit(p: Policy, ideal: Ideal, a: seq<Call>, b: seq<Call>)
    ensures IdealDecisions(p, ideal, a + b)
            == IdealDecisions(p, ideal, a) + IdealDecisions(p, IdealAfter(p, ideal, a), b)
    decreases |a|
  {
    if a == [] {
      assert a + b == b;
    } else {
      assert (a + b)[1..] == a[1..] + b;
      IdealDecisionsSplit(p, IdealNext(p, ideal, a[0]).0, a[1..], b);
    }
  }

  // The tokens that the limiter, with its cache, would grant the client at once.
  ghost function Grant(s: Settings, p: Policy, m: Contents<Bucket>, t: int): real {
    if "client" in m && !Expired(s.ttl, m["client"], t) then Level(p, m["client"].value, t) else p.burst as real
  }

  lemma GrantedOne(s: Settings, p: Policy, m: Contents<Bucket>, t: int)
    requires p.Valid() && Grant(s, p, m, t) >= 1.0 && m.Keys <= {"client"} && s.maxEntries >= 1
    ensures var (m', d) := Next(s, p, m, Allow("client", t, t, t, ""));
            && d == [true] && m'.Keys == {"client"} && m'["client"].readAt == t
            && (Grant(s, p, m', t) == Grant(s, p, m, t) - 1.0 || Grant(s, p, m', t) == p.burst as real)
  {
    var c := Allow("client", t, t, t, "");
    var found := Lookup(s, p, m, "client", t, t, t, "");
    if Get(s, m, "client", t, t).1.None? {
      MissKeepsOthers(s, p, {"client"}, m, c);
      assert found["client"] == Entry(Fresh(p, t), t);
    } else {
      assert found == m["client" := Entry(m["client"].value, t)];
    }
    assert found.Keys == {"client"} && found["client"].readAt == t;
    assert Level(p, found["client"].value, t) == Grant(s, p, m, t);
    var b := Take(p, found["client"].value, t).0;
    assert Level(p, b, t) == b.tokens;
  }

  lemma {:induction false} BatchGranted(s: Settings, p: Policy, m: Contents<Bucket>, t: int, n: nat)
    requires p.Valid() && n <= p.burst && n as real <= Grant(s, p, m, t)
    requires m.Keys <= {"client"} && s.maxEntries >= 1
    ensures |Decisions(s, p, m, Batch(t, n))| == n
    ensures forall i | 0 <= i < n :: Decisions(s, p, m, Batch(t, n))[i]
    ensures After(s, p, m, Batch(t, n)).Keys <= {"client"}
    ensures n > 0 ==> var m' := After(s, p, m, Batch(t, n)); "client" in m' && m'["client"].readAt == t
    decreases n
  {
    if n > 0 {
      GrantedOne(s, p, m, t);
      assert Batch(t, n)[1..] == Batch(t, n - 1);
      var m' := Next(s, p, m, Allow("client", t, t, t, "")).0;
      BatchGranted(s, p, m', t, n - 1);
      assert Decisions(s, p, m, Batch(t, n)) == [true] + Decisions(s, p, m', Batch(t, n - 1));
      if n == 1 {
        assert After(s, p, m', Batch(t, 0)) == m';
      }
    }
  }

  lemma {:induction false} IdealBatch(p: Policy, ideal: Ideal, t: int, n: nat)
    requires p.Valid() && "client" in ideal && Level(p, ideal["client"], t) >= 0.0
    ensures |IdealDecisions(p, ideal, Batch(t, n))| == n
    ensures n as real <= Level(p, ideal["client"], t) ==>
              var i' := IdealAfter(p, ideal, Batch(t, n));
              "client" in i' && (n > 0 ==> i'["client"] == Bucket(Level(p, ideal["client"], t) - n as real, t))
    ensures n as real > Level(p, ideal["client"], t) ==>
              exists i | 0 <= i < n :: !IdealDecisions(p, ideal, Batch(t, n))[i]
    decreases n
  {
    if n > 0 {
      var c := Allow("client", t, t, t, "");
      assert Batch(t, n)[1..] == Batch(t, n - 1);
      var next := IdealNext(p, ideal, c).0;
      var (b, ok) := Take(p, ideal["client"], t);
      assert next["client"] == b;
      IdealBatch(p, next, t, n - 1);
      assert Level(p, b, t) == b.tokens;
      var rest := IdealDecisions(p, next, Batch(t, n - 1));
      assert IdealDecisions(p, ideal, Batch(t, n)) == [ok] + rest;
      if n as real > Level(p, ideal["client"], t) {
        if ok {
          var i :| 0 <= i < n - 1 && !rest[i];
          assert !IdealDecisions(p, ideal, Batch(t, n))[i + 1];
        } else {
          assert !IdealDecisions(p, ideal, Batch(t, n))[0];
        }
      }
    }
  }

  lemma ClientsSplit(calls: seq<Call>)
    requires calls != [] && calls[0].Allow?
    ensures Clients(calls) == {calls[0].client} + Clients(calls[1..])
  {
    forall x | x in Clients(calls) ensures x in {calls[0].client} + Clients(calls[1..]) {
      var i :| 0 <= i < |calls| && calls[i].Allow? && calls[i].client == x;
      assert i > 0 ==> calls[1..][i - 1] == calls[i];
    }
    forall x | x in Clients(calls[1..]) ensures x in Clients(calls) {
      var i :| 0 <= i < |calls| - 1 && calls[1..][i].Allow? && calls[1..][i].client == x;
      assert calls[1..][i] == calls[i + 1];
    }
  }

  lemma {:induction false} BatchWellTimed(now: int, t: int, n: nat, rest: seq<Call>)
    requires now <= t && WellTimed(0, t, rest) && Clients(rest) <= {"client"}
    ensures WellTimed(0, now, Batch(t, n) + rest)
    ensures Clients(Batch(t, n) + rest) <= {"client"}
    decreases n
  {
    if n == 0 {
      assert Batch(t, n) + rest == rest;
      Earlier(now, t, rest);
    } else {
      BatchWellTimed(t, t, n - 1, rest);
      assert (Batch(t, n) + rest)[1..] == Batch(t, n - 1) + rest;
      ClientsSplit(Batch(t, n) + rest);
    }
  }

  lemma Earlier(now: int, t: int, calls: seq<Call>)
    requires now <= t && WellTimed(0, t, calls)
    ensures WellTimed(0, now, calls)
  {
  }

  // Expiry never shows in the decisions of runs in which a call reads its bucket at most
  // `lag` after it touched the cache entry.
  ghost predicate Faithful(s: Settings, p: Policy, lag: int) {
    forall now: int, calls: seq<Call> | WellTimed(lag, now, calls) && |Clients(calls)| <= s.maxEntries ::
      Decisions(s, p, map[], calls) == IdealDecisions(p, map[], calls)
  }

  lemma BothBurstsGranted(s: Settings, p: Policy, gap: int)
    requires p.Valid() && s.maxEntries >= 1 && gap > s.ttl
    ensures var d := Decisions(s, p, map[], Batch(0, p.burst) + Batch(gap, p.burst));
            |d| == 2 * p.burst && forall i | 0 <= i < |d| :: d[i]
  {
    var n: nat := p.burst;
    BatchGranted(s, p, map[], 0, n);
    BatchGranted(s, p, After(s, p, map[], Batch(0, n)), gap, n);
    DecisionsSplit(s, p, map[], Batch(0, n), Batch(gap, n));
  }

  lemma FirstBurstSpends(p: Policy)
    requires p.Valid()
    ensures var spent := IdealAfter(p, map[], Batch(0, p.burst)); "client" in spent && spent["client"] == Bucket(0.0, 0)
  {
    var n: nat := p.burst;
    var start := IdealNext(p, map[], Allow("client", 0, 0, 0, "")).0;
    assert Batch(0, n)[1..] == Batch(0, n - 1);
    assert start["client"] == Bucket(n as real - 1.0, 0);
    assert Level(p, start["client"], 0) == n as real - 1.0;
    IdealBatch(p, start, 0, n - 1);
    if n == 1 {
      assert IdealAfter(p, start, Batch(0, 0)) == start;
    }
  }

  lemma SecondBurstDeniedIdeally(p: Policy, gap: int)
    requires p.Valid() && gap >= 0 && p.rate * gap as real < p.burst as real
    ensures var d := IdealDecisions(p, map[], Batch(0, p.burst) + Batch(gap, p.burst));
            exists i | 0 <= i < |d| :: !d[i]
  {
    FirstBurstSpends(p);
    var first, second := Batch(0, p.burst), Batch(gap, p.burst);
    var spent := IdealAfter(p, map[], first);
    assert Level(p, spent["client"], gap) == p.rate * gap as real;
    ProductGrows(p.rate, 0, gap);
    IdealBatch(p, spent, gap, p.burst);
    IdealDecisionsSplit(p, map[], first, second);
    var d0, d1 := IdealDecisions(p, map[], first), IdealDecisions(p, spent, second);
    var i :| 0 <= i < p.burst && !d1[i];
    assert !(d0 + d1)[|d0| + i];
  }

  lemma BurstsWellTimed(gap: nat, n: nat)
    ensures WellTimed(0, 0, Batch(0, n) + Batch(gap, n))
    ensures Clients(Batch(0, n) + Batch(gap, n)) <= {"client"}
  {
    BatchWellTimed(gap, gap, n, []);
    assert Batch(gap, n) + [] == Batch(gap, n);
    Earlier(0, gap, Batch(gap, n));
    BatchWellTimed(0, 0, n, Batch(gap, n));
  }

  lemma SomeDenied(d: seq<bool>, e: seq<bool>)
    requires (forall i | 0 <= i < |d| :: d[i]) && (exists i | 0 <= i < |e| :: !e[i])
    ensures d != e
  {
  }

  lemma Disagreement(s: Settings, p: Policy) returns (calls: seq<Call>)
    requires p.Valid() && s.maxEntries >= 1 && !RefillsInTime(s, p, 0)
    ensures WellTimed(0, 0, calls) && |Clients(calls)| <= s.maxEntries
    ensures Decisions(s, p, map[], calls) != IdealDecisions(p, map[], calls)
  {
    var gap := if s.ttl + 1 > 0 then s.ttl + 1 else 0;
    calls := Batch(0, p.burst) + Batch(gap, p.burst);
    assert Decisions(s, p, map[], calls) != IdealDecisions(p, map[], calls) by {
      BothBurstsGranted(s, p, gap);
      SecondBurstDeniedIdeally(p, gap);
      SomeDenied(Decisions(s, p, map[], calls), IdealDecisions(p, map[], calls));
    }
    BurstsWellTimed(gap, p.burst);
    NoMore(Clients(calls), {"client"});
  }

  lemma NoMore(a: set<string>, b: set<string>)
    requires a <= b
    ensures |a| <= |b|
  {
    assert b == a + (b - a);
  }

  lemma {:induction false} WellTimedWithin(lag: int, now: int, calls: seq<Call>)
    requires lag >= 0 && WellTimed(0, now, calls)
    ensures WellTimed(lag, now, calls)
    decreases |calls|
  {
    if calls != [] {
      WellTimedWithin(lag, calls[0].End(), calls[1..]);
    }
  }

  // Expiry never shows if a bucket refills within the time to live less the lag...
  lemma FaithfulWithin(s: Settings, p: Policy, lag: int)
    requires p.Valid() && RefillsInTime(s, p, lag)
    ensures Faithful(s, p, lag)
  {
    forall now: int, calls: seq<Call> | WellTimed(lag, now, calls) && |Clients(calls)| <= s.maxEntries
      ensures Decisions(s, p, map[], calls) == IdealDecisions(p, map[], calls)
    {
      RefinesIdeal(s, p, lag, Clients(calls), now, map[], map[], calls);
    }
  }

  // ... and, for every lag, only if it refills within the time to live.
  lemma FaithfulOnly(s: Settings, p: Policy, lag: int)
    requires p.Valid() && s.maxEntries >= 1 && lag >= 0 && Faithful(s, p, lag)
    ensures p.rate * (s.ttl + 1) as real >= p.burst as real
  {
    if !RefillsInTime(s, p, 0) {
      var calls := Disagreement(s, p);
      WellTimedWithin(lag, 0, calls);
    }
  }

  // Without a lag the two meet.
  lemma FaithfulExactly(s: Settings, p: Policy)
    requires p.Valid() && s.maxEntries >= 1
    ensures Faithful(s, p, 0) <==> p.rate * (s.ttl + 1) as real >= p.burst as real
  {
    if RefillsInTime(s, p, 0) {
      FaithfulWithin(s, p, 0);
    } else {
      var calls := Disagreement(s, p);
    }
  }
}
