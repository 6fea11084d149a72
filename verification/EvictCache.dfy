/**
 The touch-TTL cache: entries expire when they have not been read for longer than
 a time to live, a periodic sweep deletes the expired ones, and an insertion into a
 full cache first deletes an entry that was read least recently.

 Every operation of the source runs under one mutex, so a run of the cache is a
 sequence of operations.  Clock readings are parameters.
 */
module EvictCache {
  import opened Options

  datatype Settings = Settings(maxEntries: int, ttl: int)

  datatype Entry<V> = Entry(value: V, readAt: int)

  type Contents<V> = map<string, Entry<V>>

  predicate Expired<V>(ttl: int, e: Entry<V>, now: int) {
    now - e.readAt > ttl
  }

  ghost predicate IsOldest<V>(m: Contents<V>, key: string) {
    key in m && forall k | k in m :: m[key].readAt <= m[k].readAt
  }

  // The key that `evictOldest` deletes: any least recently read one, since the
  // iteration order of the map settles ties.
  ghost predicate VictimAllowed<V>(s: Settings, m: Contents<V>, victim: string) {
    |m| >= s.maxEntries && m != map[] ==> IsOldest(m, victim)
  }

  function Put<V>(s: Settings, m: Contents<V>, key: string, value: V, now: int, victim: string): Contents<V> {
    (if |m| >= s.maxEntries then m - {victim} else m)[key := Entry(value, now)]
  }

  function Get<V>(s: Settings, m: Contents<V>, key: string, checkAt: int, touchAt: int): (Contents<V>, Option<V>) {
    if key !in m then (m, None)
    else if Expired(s.ttl, m[key], checkAt) then (m - {key}, None)
    else (m[key := m[key].(readAt := touchAt)], Some(m[key].value))
  }

  function Live<V>(ttl: int, m: Contents<V>, now: int): Contents<V> {
    map k | k in m && !Expired(ttl, m[k], now) :: m[k]
  }

  class Cache<V> {
    const settings: Settings
    var cache: Contents<V>

    constructor (settings: Settings)
      ensures this.settings == settings && cache == map[]
    {
      this.settings := settings;
      cache := map[];
    }

    method CacheValue(key: string, value: V, now: int) returns (ghost victim: string)
      modifies this
      ensures VictimAllowed(settings, old(cache), victim)
      ensures cache == Put(settings, old(cache), key, value, now, victim)
    {
      victim := "";
      if |cache| >= settings.maxEntries {
        victim := EvictOldest();
      }
      cache := cache[key := Entry(value, now)];
    }

    method EvictOldest() returns (ghost victim: string)
      modifies this
      ensures old(cache) != map[] ==> IsOldest(old(cache), victim)
      ensures cache == old(cache) - {victim}
    {
      var oldestKey, oldestTime, first := "", 0, true;
      var pending := cache.Keys;
      while pending != {}
        invariant pending <= cache.Keys
        invariant first <==> pending == cache.Keys
        invariant !first ==> oldestKey in cache - pending && oldestTime == cache[oldestKey].readAt
        invariant forall k | k in cache.Keys - pending :: oldestTime <= cache[k].readAt
        invariant cache == old(cache)
        decreases pending
      {
        var key :| key in pending;
        if first || cache[key].readAt < oldestTime {
          oldestKey, oldestTime, first := key, cache[key].readAt, false;
        }
        pending := pending - {key};
      }
      victim := oldestKey;
      if !first {
        cache := cache - {oldestKey};
      }
    }

    method GetValue(key: string, checkAt: int, touchAt: int) returns (r: Option<V>)
      modifies this
      ensures (cache, r) == Get(settings, old(cache), key, checkAt, touchAt)
    {
      if key !in cache {
        return None;
      }
      var entry := cache[key];
      if Expired(settings.ttl, entry, checkAt) {
        cache := cache - {key};
        return None;
      }
      cache := cache[key := entry.(readAt := touchAt)];
      return Some(entry.value);
    }

    method Evict(key: string)
      modifies this
      ensures cache == old(cache) - {key}
    {
      if key in cache {
        cache := cache - {key};
      }
    }

    method DeleteEntry(key: string) returns (found: bool)
      modifies this
      ensures found <==> key in old(cache)
      ensures cache == old(cache) - {key}
    {
      found := key in cache;
      if found {
        cache := cache - {key};
      }
    }

    method Sweep(now: int)
      modifies this
      ensures cache == Live(settings.ttl, old(cache), now)
    {
      var cutoff := now - settings.ttl;
      var pending := cache.Keys;
      while pending != {}
        invariant pending <= cache.Keys <= old(cache).Keys
        invariant forall k | k in cache :: cache[k] == old(cache)[k]
        invariant forall k | k in old(cache).Keys - pending :: k in cache <==> old(cache)[k].readAt >= cutoff
        decreases pending
      {
        var key :| key in pending;
        if cache[key].readAt < cutoff {
          cache := cache - {key};
        }
        pending := pending - {key};
      }
    }
  }

  // ---------- Runs ----------

  // An operation with its clock readings and, for an insertion, the key that the
  // map's iteration order selected for eviction.
  datatype Op<V> =
    | OpPut(key: string, value: V, at: int, victim: string)
    | OpGet(key: string, checkAt: int, touchAt: int)
    | OpDrop(key: string, at: int)
    | OpSweep(at: int)
  {
    function Begin(): int {
      if OpGet? then checkAt else at
    }
    function End(): int {
      if OpGet? then touchAt else at
    }
  }

  // The clock never runs backwards along the run.
  ghost predicate Paced<V>(now: int, ops: seq<Op<V>>)
    decreases |ops|
  {
    ops == [] || (now <= ops[0].Begin() <= ops[0].End() && Paced(ops[0].End(), ops[1..]))
  }

  function Step<V>(s: Settings, m: Contents<V>, op: Op<V>): Contents<V> {
    match op
    case OpPut(k, v, t, victim) => Put(s, m, k, v, t, victim)
    case OpGet(k, t, t') => Get(s, m, k, t, t').0
    case OpDrop(k, _) => m - {k}
    case OpSweep(t) => Live(s.ttl, m, t)
  }

  function After<V>(s: Settings, m: Contents<V>, ops: seq<Op<V>>): Contents<V>
    decreases |ops|
  {
    if ops == [] then m else After(s, Step(s, m, ops[0]), ops[1..])
  }

  // A lookup answers; the other operations are silent.
  function Answer<V>(s: Settings, m: Contents<V>, op: Op<V>): seq<Option<V>> {
    if op.OpGet? then [Get(s, m, op.key, op.checkAt, op.touchAt).1] else []
  }

  function Answers<V>(s: Settings, m: Contents<V>, ops: seq<Op<V>>): seq<Option<V>>
    decreases |ops|
  {
    if ops == [] then [] else Answer(s, m, ops[0]) + Answers(s, Step(s, m, ops[0]), ops[1..])
  }

  ghost predicate Allowed<V>(s: Settings, m: Contents<V>, ops: seq<Op<V>>)
    decreases |ops|
  {
    ops != [] ==>
    && (ops[0].OpPut? ==> VictimAllowed(s, m, ops[0].victim))
    && Allowed(s, Step(s, m, ops[0]), ops[1..])
  }

  // ---------- The reference cache ----------
  // It forgets expired entries by itself, has no sweep, and evicts only when the
  // number of live entries has reached the capacity.

  function Capacity(s: Settings): int {
    if s.maxEntries >= 1 then s.maxEntries else 1
  }

  function RefStep<V>(s: Settings, r: Contents<V>, op: Op<V>): Contents<V> {
    var live := Live(s.ttl, r, op.Begin());
    match op
    case OpPut(k, v, t, victim) => (if |live| >= Capacity(s) then live - {victim} else live)[k := Entry(v, t)]
    case OpGet(k, _, t) => if k in live then live[k := live[k].(readAt := t)] else live
    case OpDrop(k, _) => live - {k}
    case OpSweep(_) => r
  }

  function RefAnswer<V>(s: Settings, r: Contents<V>, op: Op<V>): seq<Option<V>> {
    var live := Live(s.ttl, r, op.Begin());
    if !op.OpGet? then [] else if op.key in live then [Some(live[op.key].value)] else [None]
  }

  function RefAnswers<V>(s: Settings, r: Contents<V>, ops: seq<Op<V>>): seq<Option<V>>
    decreases |ops|
  {
    if ops == [] then [] else RefAnswer(s, r, ops[0]) + RefAnswers(s, RefStep(s, r, ops[0]), ops[1..])
  }

  ghost predicate RefVictimAllowed<V>(s: Settings, r: Contents<V>, op: Op<V>) {
    op.OpPut? ==>
      var live := Live(s.ttl, r, op.at);
      |live| >= Capacity(s) ==> IsOldest(live, op.victim)
  }

  ghost predicate RefAllowed<V>(s: Settings, r: Contents<V>, ops: seq<Op<V>>)
    decreases |ops|
  {
    ops != [] ==>
    && RefVictimAllowed(s, r, ops[0])
    && RefAllowed(s, RefStep(s, r, ops[0]), ops[1..])
  }

  // ---------- Sweep transparency ----------

  lemma LiveLater<V>(ttl: int, m: Contents<V>, now: int, later: int)
    requires now <= later
    ensures Live(ttl, Live(ttl, m, now), later) == Live(ttl, m, later)
  {
    assert forall k | k in m :: Expired(ttl, m[k], now) ==> Expired(ttl, m[k], later);
  }

  lemma SubmapSize<V>(a: Contents<V>, b: Contents<V>)
    requires a.Keys <= b.Keys
    ensures |a| <= |b|
    ensures a.Keys < b.Keys ==> |a| < |b|
  {
    var rest := b.Keys - a.Keys;
    assert b.Keys == a.Keys + rest;
  }

  // Eviction deletes an expired entry whenever there is one.
  lemma EvictionSparesLive<V>(s: Settings, m: Contents<V>, now: int, victim: string)
    requires |m| <= Capacity(s) && VictimAllowed(s, m, victim)
    ensures var live := Live(s.ttl, m, now);
            Live(s.ttl, if |m| >= s.maxEntries then m - {victim} else m, now)
            == if |live| >= Capacity(s) then live - {victim} else live
    ensures var live := Live(s.ttl, m, now);
            |live| >= Capacity(s) ==> IsOldest(live, victim)
    ensures |m - {victim}| < Capacity(s) || |m| < s.maxEntries
  {
    var live := Live(s.ttl, m, now);
    SubmapSize(live, m);
    SubmapSize(m - {victim}, m);
    if live.Keys == m.Keys {
      assert live == m;
    } else if m != map[] && |m| >= s.maxEntries {
      var dead :| dead in m && dead !in live;
      assert m[victim].readAt <= m[dead].readAt;
      assert Live(s.ttl, m - {victim}, now) == live;
    }
  }

  lemma PutTracks<V>(s: Settings, m: Contents<V>, key: string, value: V, now: int, victim: string)
    requires |m| <= Capacity(s) && VictimAllowed(s, m, victim)
    ensures var live := Live(s.ttl, m, now);
            Live(s.ttl, Put(s, m, key, value, now, victim), now)
            == Live(s.ttl, (if |live| >= Capacity(s) then live - {victim} else live)[key := Entry(value, now)], now)
    ensures |Put(s, m, key, value, now, victim)| <= Capacity(s)
  {
    EvictionSparesLive(s, m, now, victim);
    var live := Live(s.ttl, m, now);
    var kept := if |m| >= s.maxEntries then m - {victim} else m;
    var refKept := if |live| >= Capacity(s) then live - {victim} else live;
    assert Live(s.ttl, kept, now) == refKept;
    assert Put(s, m, key, value, now, victim).Keys == kept.Keys + {key};
    assert |kept.Keys + {key}| <= |kept.Keys| + 1;
    var e := Entry(value, now);
    LiveUpdate(s.ttl, kept, key, e, now);
    LiveUpdate(s.ttl, refKept, key, e, now);
    LiveLater(s.ttl, kept, now, now);
  }

  lemma LiveUpdate<V>(ttl: int, m: Contents<V>, key: string, e: Entry<V>, now: int)
    ensures Live(ttl, m[key := e], now)
            == if Expired(ttl, e, now) then Live(ttl, m, now) - {key} else Live(ttl, m, now)[key := e]
  {
  }

  lemma LiveWithout<V>(ttl: int, m: Contents<V>, key: string, now: int)
    ensures Live(ttl, m - {key}, now) == Live(ttl, m, now) - {key}
  {
  }

  lemma GetTracks<V>(s: Settings, m: Contents<V>, r: Contents<V>, key: string, t: int, t': int)
    requires Live(s.ttl, m, t) == Live(s.ttl, r, t) && t <= t'
    ensures var live := Live(s.ttl, r, t);
            && Live(s.ttl, Get(s, m, key, t, t').0, t') == Live(s.ttl, RefStep(s, r, OpGet(key, t, t')), t')
            && Get(s, m, key, t, t').1 == if key in live then Some(live[key].value) else None
    ensures |Get(s, m, key, t, t').0| <= |m|
  {
    LiveLater(s.ttl, m, t, t');
    var live := Live(s.ttl, m, t);
    SubmapSize(m - {key}, m);
    if key in live {
      LiveUpdate(s.ttl, m, key, m[key].(readAt := t'), t');
      LiveUpdate(s.ttl, live, key, m[key].(readAt := t'), t');
      assert m[key := m[key].(readAt := t')].Keys == m.Keys;
    } else {
      LiveWithout(s.ttl, m, key, t);
      assert live - {key} == live;
      LiveLater(s.ttl, m - {key}, t, t');
    }
  }

  lemma DropTracks<V>(s: Settings, m: Contents<V>, key: string, t: int)
    ensures Live(s.ttl, m - {key}, t) == Live(s.ttl, Live(s.ttl, m, t) - {key}, t)
    ensures |m - {key}| <= |m|
  {
    SubmapSize(m - {key}, m);
    LiveWithout(s.ttl, m, key, t);
    LiveLater(s.ttl, m - {key}, t, t);
  }

  // One operation keeps the cache and the reference cache in step.
  lemma StepTracks<V>(s: Settings, m: Contents<V>, r: Contents<V>, now: int, op: Op<V>)
    requires Live(s.ttl, m, now) == Live(s.ttl, r, now) && |m| <= Capacity(s)
    requires now <= op.Begin() <= op.End()
    requires op.OpPut? ==> VictimAllowed(s, m, op.victim)
    ensures Live(s.ttl, Step(s, m, op), op.End()) == Live(s.ttl, RefStep(s, r, op), op.End())
    ensures |Step(s, m, op)| <= Capacity(s)
    ensures Answer(s, m, op) == RefAnswer(s, r, op)
    ensures RefVictimAllowed(s, r, op)
  {
    var t := op.Begin();
    LiveLater(s.ttl, m, now, t);
    LiveLater(s.ttl, r, now, t);
    match op
    case OpPut(k, v, _, victim) =>
      PutTracks(s, m, k, v, t, victim);
      EvictionSparesLive(s, m, t, victim);
    case OpGet(k, _, t') =>
      GetTracks(s, m, r, k, t, t');
    case OpDrop(k, _) =>
      DropTracks(s, m, k, t);
    case OpSweep(_) =>
      LiveLater(s.ttl, m, t, t);
      SubmapSize(Live(s.ttl, m, t), m);
  }

  // Every run, under every sweep schedule, answers each lookup as the reference
  // cache does, and never holds more entries than the capacity.
  lemma {:induction false} SweepTransparency<V>(s: Settings, m: Contents<V>, r: Contents<V>, now: int, ops: seq<Op<V>>)
    requires Live(s.ttl, m, now) == Live(s.ttl, r, now) && |m| <= Capacity(s)
    requires Paced(now, ops) && Allowed(s, m, ops)
    ensures Answers(s, m, ops) == RefAnswers(s, r, ops)
    ensures RefAllowed(s, r, ops)
    ensures |After(s, m, ops)| <= Capacity(s)
    decreases |ops|
  {
    if ops != [] {
      StepTracks(s, m, r, now, ops[0]);
      SweepTransparency(s, Step(s, m, ops[0]), RefStep(s, r, ops[0]), ops[0].End(), ops[1..]);
    }
  }

  // ---------- Independence of the sweep schedule ----------

  function WithoutSweeps<V>(ops: seq<Op<V>>): seq<Op<V>> {
    if ops == [] then []
    else (if ops[0].OpSweep? then [] else [ops[0]]) + WithoutSweeps(ops[1..])
  }

  function Call<V>(op: Op<V>): Op<V> {
    if op.OpPut? then op.(victim := "") else op
  }

  // What the callers did: the operations without sweeps and without the victims.
  function Calls<V>(ops: seq<Op<V>>): seq<Op<V>> {
    if ops == [] then []
    else (if ops[0].OpSweep? then [] else [Call(ops[0])]) + Calls(ops[1..])
  }

  ghost predicate NoSweeps<V>(ops: seq<Op<V>>) {
    ops != [] ==> !ops[0].OpSweep? && NoSweeps(ops[1..])
  }

  lemma {:induction false} RefIgnoresSweeps<V>(s: Settings, r: Contents<V>, ops: seq<Op<V>>)
    ensures RefAnswers(s, r, ops) == RefAnswers(s, r, WithoutSweeps(ops))
    ensures RefAllowed(s, r, ops) <==> RefAllowed(s, r, WithoutSweeps(ops))
    ensures Calls(WithoutSweeps(ops)) == Calls(ops)
    ensures NoSweeps(WithoutSweeps(ops))
    decreases |ops|
  {
    if ops != [] {
      RefIgnoresSweeps(s, RefStep(s, r, ops[0]), ops[1..]);
      var rest := WithoutSweeps(ops[1..]);
      if !ops[0].OpSweep? {
        assert WithoutSweeps(ops) == [ops[0]] + rest;
        assert WithoutSweeps(ops)[1..] == rest;
      } else {
        assert WithoutSweeps(ops) == rest;
      }
    }
  }

  // Touch times are pairwise distinct: each is later than everything before it.
  ghost predicate DistinctTouches<V>(now: int, calls: seq<Op<V>>)
    decreases |calls|
  {
    calls != [] ==>
    && now <= calls[0].End() && (calls[0].OpPut? || calls[0].OpGet? ==> now < calls[0].End())
    && DistinctTouches(calls[0].End(), calls[1..])
  }

  ghost predicate DistinctTimes<V>(now: int, r: Contents<V>) {
    && (forall k | k in r :: r[k].readAt <= now)
    && (forall j, k | j in r && k in r && r[j].readAt == r[k].readAt :: j == k)
  }

  // With distinct touch times there is one oldest entry, hence one next state.
  lemma RefStepDetermined<V>(s: Settings, r: Contents<V>, now: int, x: Op<V>, y: Op<V>)
    requires Call(x) == Call(y)
    requires now <= x.End() && (x.OpPut? || x.OpGet? ==> now < x.End()) && DistinctTimes(now, r)
    requires RefVictimAllowed(s, r, x) && RefVictimAllowed(s, r, y)
    ensures RefStep(s, r, x) == RefStep(s, r, y) && RefAnswer(s, r, x) == RefAnswer(s, r, y)
    ensures DistinctTimes(x.End(), RefStep(s, r, x))
  {
    if x.OpPut? {
      var live := Live(s.ttl, r, x.at);
      if |live| >= Capacity(s) {
        assert live[x.victim].readAt == live[y.victim].readAt;
      }
    }
  }

  lemma {:induction false} RefDetermined<V>(s: Settings, r: Contents<V>, now: int, a: seq<Op<V>>, b: seq<Op<V>>)
    requires NoSweeps(a) && NoSweeps(b)
    requires Calls(a) == Calls(b) && DistinctTouches(now, a) && DistinctTimes(now, r)
    requires RefAllowed(s, r, a) && RefAllowed(s, r, b)
    ensures RefAnswers(s, r, a) == RefAnswers(s, r, b)
    decreases |a|
  {
    if a != [] && b != [] {
      assert Call(a[0]) == Calls(a)[0] == Calls(b)[0] == Call(b[0]);
      assert Calls(a[1..]) == Calls(a)[1..] == Calls(b)[1..] == Calls(b[1..]);
      RefStepDetermined(s, r, now, a[0], b[0]);
      RefDetermined(s, RefStep(s, r, a[0]), a[0].End(), a[1..], b[1..]);
    }
  }

  // Two runs of a fresh cache in which callers do the same things at the same,
  // pairwise distinct, times give the same answers whatever was swept, and when.
  lemma SweepScheduleIrrelevant<V>(s: Settings, now: int, a: seq<Op<V>>, b: seq<Op<V>>)
    requires Paced(now, a) && Paced(now, b)
    requires Allowed(s, map[], a) && Allowed(s, map[], b)
    requires Calls(a) == Calls(b) && DistinctTouches(now, WithoutSweeps(a))
    ensures Answers(s, map[], a) == Answers(s, map[], b)
  {
    var empty: Contents<V> := map[];
    SweepTransparency(s, empty, empty, now, a);
    SweepTransparency(s, empty, empty, now, b);
    RefIgnoresSweeps(s, empty, a);
    RefIgnoresSweeps(s, empty, b);
    RefDetermined(s, empty, now, WithoutSweeps(a), WithoutSweeps(b));
  }

  // ---------- One key ----------

  // What the cache owes to the history of one key, while it never has to evict: the value
  // last written, and when it was last written or read in time.
  function Owed<V>(ttl: int, owed: Option<(V, int)>, key: string, op: Op<V>): Option<(V, int)> {
    match op
    case OpPut(k, v, t, _) => if k == key then Some((v, t)) else owed
    case OpGet(k, t, t') =>
      if k != key || owed.None? then owed
      else if t - owed.value.1 <= ttl then Some((owed.value.0, t')) else None
    case OpDrop(k, _) => if k == key then None else owed
    case OpSweep(_) => owed
  }

  function OwedAfter<V>(ttl: int, owed: Option<(V, int)>, key: string, ops: seq<Op<V>>): Option<(V, int)>
    decreases |ops|
  {
    if ops == [] then owed else OwedAfter(ttl, Owed(ttl, owed, key, ops[0]), key, ops[1..])
  }

  // The entry is there as it is owed, unless its time has run out.
  ghost predicate Pays<V>(ttl: int, now: int, m: Contents<V>, key: string, owed: Option<(V, int)>) {
    if key in m then owed == Some((m[key].value, m[key].readAt))
    else owed.None? || now - owed.value.1 > ttl
  }

  // The keys that are ever written.
  function Written<V>(ops: seq<Op<V>>): set<string> {
    set i | 0 <= i < |ops| && ops[i].OpPut? :: ops[i].key
  }

  lemma StepPays<V>(s: Settings, now: int, m: Contents<V>, key: string, owed: Option<(V, int)>, op: Op<V>)
    requires Pays(s.ttl, now, m, key, owed) && now <= op.Begin() <= op.End()
    requires op.OpPut? ==> |m| < s.maxEntries
    ensures Pays(s.ttl, op.End(), Step(s, m, op), key, Owed(s.ttl, owed, key, op))
  {
  }

  lemma WrittenRest<V>(ops: seq<Op<V>>)
    requires ops != []
    ensures Written(ops[1..]) <= Written(ops) && (ops[0].OpPut? ==> ops[0].key in Written(ops))
  {
    forall k | k in Written(ops[1..]) ensures k in Written(ops) {
      var i :| 0 <= i < |ops[1..]| && ops[1..][i].OpPut? && ops[1..][i].key == k;
      assert ops[i + 1].OpPut? && ops[i + 1].key == k;
    }
  }

  lemma FewKeys(a: set<string>, b: set<string>)
    requires a <= b
    ensures |a| <= |b|
  {
    assert b == a + (b - a);
  }

  lemma {:induction false} RunPays<V>(s: Settings, now: int, m: Contents<V>, keys: set<string>, key: string,
                                      owed: Option<(V, int)>, ops: seq<Op<V>>)
    requires Pays(s.ttl, now, m, key, owed) && Paced(now, ops)
    requires m.Keys + Written(ops) <= keys && |keys| < s.maxEntries
    ensures Pays(s.ttl, Ends(now, ops), After(s, m, ops), key, OwedAfter(s.ttl, owed, key, ops))
    decreases |ops|
  {
    if ops != [] {
      WrittenRest(ops);
      FewKeys(m.Keys, keys);
      StepPays(s, now, m, key, owed, ops[0]);
      RunPays(s, ops[0].End(), Step(s, m, ops[0]), keys, key, Owed(s.ttl, owed, key, ops[0]), ops[1..]);
    }
  }

  function Ends<V>(now: int, ops: seq<Op<V>>): int
    decreases |ops|
  {
    if ops == [] then now else Ends(ops[0].End(), ops[1..])
  }

  // While fewer keys are written than the cache holds, a lookup after any run, under any
  // sweeps, answers with a value if and only if the key was last written with it, not
  // dropped since, and read or written again each time before more than the time to live
  // had passed.
  lemma LookupExactly<V>(s: Settings, now: int, ops: seq<Op<V>>, key: string, checkAt: int, touchAt: int)
    requires Paced(now, ops) && Ends(now, ops) <= checkAt && |Written(ops)| < s.maxEntries
    ensures var owed: Option<(V, int)> := OwedAfter(s.ttl, None, key, ops);
            Get(s, After(s, map[], ops), key, checkAt, touchAt).1
            == if owed.Some? && checkAt - owed.value.1 <= s.ttl then Some(owed.value.0) else None
  {
    RunPays(s, now, map[], Written(ops), key, None, ops);
  }
}
