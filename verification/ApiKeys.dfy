/**
 API-key checks: a cache in front of the key table.  Keys are referred to by their
 HMAC; every check reads the clock once.
 */
module ApiKeys {
  import opened Options
  import opened Text
  import opened EvictCache

  // A row of the key table: an alias, comma-separated scopes and an optional expiry time.
  datatype Row = Row(alias: string, scopes: string, expires: Option<int>)

  type Table = map<string, Row>

  predicate AliasTaken(table: Table, alias: string) {
    exists k :: k in table && table[k].alias == alias
  }

  // Keys and aliases are unique columns: a row that repeats one is refused.
  function Stored(table: Table, key: string, row: Row): Table {
    if key in table || AliasTaken(table, row.alias) then table else table[key := row]
  }

  function Removed(table: Table, alias: string): Table {
    map k | k in table && table[k].alias != alias :: table[k]
  }

  datatype CachedKey = CachedKey(scopes: set<string>, expires: Option<int>)

  predicate Lapsed(expires: Option<int>, now: int) {
    expires.Some? && now > expires.value
  }

  function TrimmedSet(parts: seq<string>): set<string> {
    if parts == [] then {}
    else
      var last := Trim(parts[|parts| - 1]);
      TrimmedSet(parts[..|parts| - 1]) + (if last != "" then {last} else {})
  }

  function Unmarshal(csv: string): set<string> {
    TrimmedSet(Split(csv, ','))
  }

  lemma {:induction false} TrimmedSetMember(parts: seq<string>, x: string)
    ensures x in TrimmedSet(parts) <==> x != "" && exists i :: 0 <= i < |parts| && x == Trim(parts[i])
  {
    if parts != [] {
      var front := parts[..|parts| - 1];
      TrimmedSetMember(front, x);
      assert forall i | 0 <= i < |front| :: front[i] == parts[i];
    }
  }

  ghost predicate Enumerates(parts: seq<string>, scopes: set<string>) {
    forall x :: x in parts <==> x in scopes
  }

  method MarshalScopes(scopes: set<string>) returns (csv: string, ghost parts: seq<string>)
    ensures Enumerates(parts, scopes) && csv == Join(parts, ',')
  {
    var collected, pending := [], scopes;
    while pending != {}
      invariant pending <= scopes && Enumerates(collected, scopes - pending)
      decreases pending
    {
      var scope :| scope in pending;
      collected, pending := collected + [scope], pending - {scope};
    }
    csv, parts := Join(collected, ','), collected;
  }

  method CollectTrimmed(parts: seq<string>) returns (scopes: set<string>)
    ensures scopes == TrimmedSet(parts)
  {
    scopes := {};
    var i := 0;
    while i < |parts|
      invariant 0 <= i <= |parts|
      invariant scopes == TrimmedSet(parts[..i])
    {
      assert parts[..i + 1][..i] == parts[..i];
      var trimmed := Trim(parts[i]);
      if trimmed != "" {
        scopes := scopes + {trimmed};
      }
      i := i + 1;
    }
    assert parts[..i] == parts;
  }

  method UnmarshalScopes(csv: string) returns (scopes: set<string>)
    ensures scopes == Unmarshal(csv)
  {
    if csv == "" {
      return {};
    }
    scopes := CollectTrimmed(Split(csv, ','));
  }

  predicate CleanScope(scope: string) {
    scope != "" && Trimmed(scope) && ',' !in scope
  }

  lemma UnmarshalClean(csv: string, x: string)
    requires x in Unmarshal(csv)
    ensures CleanScope(x)
  {
    var pieces := Split(csv, ',');
    TrimmedSetMember(pieces, x);
    var i :| 0 <= i < |pieces| && x == Trim(pieces[i]);
    TrimResult(pieces[i]);
  }

  lemma CleanScopesSurvive(parts: seq<string>, x: string)
    requires forall i | 0 <= i < |parts| :: CleanScope(parts[i])
    ensures x in Unmarshal(Join(parts, ',')) <==> x in parts
  {
    var pieces := Split(Join(parts, ','), ',');
    TrimmedSetMember(pieces, x);
    if parts == [] {
      assert pieces == [""];
      TrimResult("");
    } else {
      SplitJoin(parts, ',');
      forall i | 0 <= i < |parts| ensures Trim(parts[i]) == parts[i] {
        TrimResult(parts[i]);
      }
    }
  }

  // In whatever order the scopes were written, reading them back gives the same
  // scopes if and only if every one of them is clean.
  lemma ScopesRoundTrip(parts: seq<string>, scopes: set<string>)
    requires Enumerates(parts, scopes)
    ensures Unmarshal(Join(parts, ',')) == scopes <==> forall x | x in scopes :: CleanScope(x)
  {
    var csv := Join(parts, ',');
    forall x | x in Unmarshal(csv) ensures CleanScope(x) {
      UnmarshalClean(csv, x);
    }
    if forall x | x in scopes :: CleanScope(x) {
      forall i | 0 <= i < |parts| ensures CleanScope(parts[i]) {
        assert parts[i] in scopes;
      }
      forall x ensures x in Unmarshal(csv) <==> x in scopes {
        CleanScopesSurvive(parts, x);
      }
    }
  }

  // The answer of the key table.
  predicate TableAnswer(table: Table, key: string, scope: string, now: int) {
    key in table && !Lapsed(table[key].expires, now) && scope in Unmarshal(table[key].scopes)
  }

  function Warm(row: Row): CachedKey {
    CachedKey(Unmarshal(row.scopes), row.expires)
  }

  // A check through the cache: the new cache and the answer.
  function Check(s: Settings, m: Contents<CachedKey>, table: Table, key: string,
                 scope: string, now: int, victim: string)
    : (Contents<CachedKey>, bool)
  {
    var (m1, hit) := Get(s, m, key, now, now);
    if hit.Some? then
      if Lapsed(hit.value.expires, now) then (m1 - {key}, false) else (m1, scope in hit.value.scopes)
    else if TableAnswer(table, key, scope, now) then
      (Put(s, m1, key, Warm(table[key]), now, victim), true)
    else (m1, false)
  }

  class ApiKeyService {
    const hash: string -> string
    const cache: Cache<CachedKey>
    var table: Table

    constructor (hash: string -> string, settings: Settings)
      ensures this.hash == hash && cache.settings == settings && cache.cache == map[] && table == map[] && fresh(cache)
    {
      this.hash, table := hash, map[];
      cache := new Cache(settings);
    }

    method IsKeyValidForScope(rawKey: string, scope: string, now: int) returns (valid: bool, ghost victim: string)
      modifies cache
      ensures (cache.cache, valid)
              == Check(cache.settings, old(cache.cache), table, hash(rawKey), scope, now, victim)
    {
      victim := "";
      var key := hash(rawKey);
      var entry := cache.GetValue(key, now, now);
      if entry.Some? {
        if Lapsed(entry.value.expires, now) {
          cache.Evict(key);
          return false, victim;
        }
        return scope in entry.value.scopes, victim;
      }
      if key in table && !Lapsed(table[key].expires, now) {
        var allowed := UnmarshalScopes(table[key].scopes);
        valid := scope in allowed;
      } else {
        valid := false;
      }
      if valid {
        var scopes := UnmarshalScopes(table[key].scopes);
        victim := cache.CacheValue(key, CachedKey(scopes, table[key].expires), now);
      }
    }

    method NewApiKey(alias: string, key: string, scopes: set<string>, expires: Option<int>)
      returns (ok: bool, ghost parts: seq<string>)
      modifies this
      ensures ok <==> key !in old(table) && !AliasTaken(old(table), alias)
      ensures Enumerates(parts, scopes)
      ensures table == if ok then old(table)[key := Row(alias, Join(parts, ','), expires)] else old(table)
      ensures table == Stored(old(table), key, Row(alias, Join(parts, ','), expires))
    {
      var csv;
      csv, parts := MarshalScopes(scopes);
      ok := key !in table && !AliasTaken(table, alias);
      if ok {
        table := table[key := Row(alias, csv, expires)];
      }
    }

    // Deletion reaches the table only: the cache keeps what it has.
    method DeleteApiKey(alias: string)
      modifies this
      ensures table == Removed(old(table), alias)
    {
      table := map k | k in table && table[k].alias != alias :: table[k];
    }
  }

  // ---------- Runs ----------

  datatype Op =
    | Ask(key: string, scope: string, at: int, victim: string)
    | Create(key: string, row: Row)
    | Sweep(at: int)
    | Delete(alias: string)

  function CacheNext(s: Settings, m: Contents<CachedKey>, table: Table, op: Op): Contents<CachedKey> {
    match op
    case Ask(key, scope, t, victim) => Check(s, m, table, key, scope, t, victim).0
    case Sweep(t) => Live(s.ttl, m, t)
    case _ => m
  }

  function TableNext(table: Table, op: Op): Table {
    match op
    case Create(key, row) => Stored(table, key, row)
    case Delete(alias) => Removed(table, alias)
    case _ => table
  }

  function After(s: Settings, m: Contents<CachedKey>, table: Table, ops: seq<Op>): (Contents<CachedKey>, Table)
    decreases |ops|
  {
    if ops == [] then (m, table)
    else After(s, CacheNext(s, m, table, ops[0]), TableNext(table, ops[0]), ops[1..])
  }

  function Answer(s: Settings, m: Contents<CachedKey>, table: Table, op: Op): seq<bool> {
    if op.Ask? then [Check(s, m, table, op.key, op.scope, op.at, op.victim).1] else []
  }

  function Answers(s: Settings, m: Contents<CachedKey>, table: Table, ops: seq<Op>): seq<bool>
    decreases |ops|
  {
    if ops == [] then []
    else
      Answer(s, m, table, ops[0]) + Answers(s, CacheNext(s, m, table, ops[0]), TableNext(table, ops[0]), ops[1..])
  }

  // What the key table alone would answer at the same instants.
  function Reply(table: Table, op: Op): seq<bool> {
    if op.Ask? then [TableAnswer(table, op.key, op.scope, op.at)] else []
  }

  function TableAnswers(table: Table, ops: seq<Op>): seq<bool>
    decreases |ops|
  {
    if ops == [] then [] else Reply(table, ops[0]) + TableAnswers(TableNext(table, ops[0]), ops[1..])
  }

  // Every cached key that is still in the table is cached as it stands there.
  ghost predicate Coherent(m: Contents<CachedKey>, table: Table) {
    forall k | k in m && k in table :: m[k].value == Warm(table[k])
  }

  // The cache grants a scope that the table does not.
  predicate Stale(s: Settings, m: Contents<CachedKey>, table: Table, key: string, scope: string, now: int) {
    && key !in table && key in m && !Expired(s.ttl, m[key], now)
    && !Lapsed(m[key].value.expires, now) && scope in m[key].value.scopes
  }

  lemma CheckCached(s: Settings, m: Contents<CachedKey>, table: Table, key: string,
                    scope: string, now: int, victim: string)
    requires key in m && !Expired(s.ttl, m[key], now)
    ensures Check(s, m, table, key, scope, now, victim)
            == if Lapsed(m[key].value.expires, now) then (m - {key}, false)
               else (m[key := m[key].(readAt := now)], scope in m[key].value.scopes)
  {
    assert m[key := m[key].(readAt := now)] - {key} == m - {key};
  }

  lemma CheckMissed(s: Settings, m: Contents<CachedKey>, table: Table, key: string,
                    scope: string, now: int, victim: string)
    requires key !in m || Expired(s.ttl, m[key], now)
    ensures Check(s, m, table, key, scope, now, victim).1 == TableAnswer(table, key, scope, now)
    ensures var m' := Check(s, m, table, key, scope, now, victim).0;
            && (forall k | k in m' && k != key :: k in m && m'[k] == m[k])
            && (key in m' ==> key in table && m'[key].value == Warm(table[key]))
  {
  }

  // A check answers differently from the table exactly for a key that is gone from it
  // but still cached, has not lapsed and grants the scope.
  lemma StaleCheck(s: Settings, m: Contents<CachedKey>, table: Table, key: string,
                   scope: string, now: int, victim: string)
    requires Coherent(m, table)
    ensures Check(s, m, table, key, scope, now, victim).1 != TableAnswer(table, key, scope, now)
            <==> Stale(s, m, table, key, scope, now)
    ensures Coherent(Check(s, m, table, key, scope, now, victim).0, table)
    ensures Check(s, m, table, key, scope, now, victim).0.Keys <= m.Keys + (if key in table then {key} else {})
  {
    if key in m && !Expired(s.ttl, m[key], now) {
      CheckCached(s, m, table, key, scope, now, victim);
    } else {
      CheckMissed(s, m, table, key, scope, now, victim);
    }
  }

  lemma StepAgrees(s: Settings, m: Contents<CachedKey>, table: Table, op: Op)
    requires Coherent(m, table) && m.Keys <= table.Keys && !op.Delete?
    ensures Answer(s, m, table, op) == Reply(table, op)
    ensures var m', table' := CacheNext(s, m, table, op), TableNext(table, op);
            Coherent(m', table') && m'.Keys <= table'.Keys
  {
    if op.Ask? {
      StaleCheck(s, m, table, op.key, op.scope, op.at, op.victim);
    }
  }

  // Without deletions every check, across expiry, eviction, sweeps and warming,
  // answers as the table would.
  lemma {:induction false} CacheAgreesWithTable(s: Settings, m: Contents<CachedKey>, table: Table, ops: seq<Op>)
    requires Coherent(m, table) && m.Keys <= table.Keys
    requires forall i | 0 <= i < |ops| :: !ops[i].Delete?
    ensures Answers(s, m, table, ops) == TableAnswers(table, ops)
    decreases |ops|
  {
    if ops != [] {
      StepAgrees(s, m, table, ops[0]);
      CacheAgreesWithTable(s, CacheNext(s, m, table, ops[0]), TableNext(table, ops[0]), ops[1..]);
    }
  }

  // In every run no two keys share an alias.
  ghost predicate AliasesUnique(table: Table) {
    forall j, k | j in table && k in table && table[j].alias == table[k].alias :: j == k
  }

  lemma {:induction false} RunKeepsAliases(s: Settings, m: Contents<CachedKey>, table: Table, ops: seq<Op>)
    requires AliasesUnique(table)
    ensures AliasesUnique(After(s, m, table, ops).1)
    decreases |ops|
  {
    if ops != [] {
      RunKeepsAliases(s, CacheNext(s, m, table, ops[0]), TableNext(table, ops[0]), ops[1..]);
    }
  }

  // ---------- Runs with deletions ----------

  // The keys deleted from a table in a run.
  function Deleted(table: Table, ops: seq<Op>): set<string>
    decreases |ops|
  {
    if ops == [] then {}
    else (table.Keys - TableNext(table, ops[0]).Keys) + Deleted(TableNext(table, ops[0]), ops[1..])
  }

  // No key is created again after it was deleted.
  ghost predicate FreshKeys(gone: set<string>, table: Table, ops: seq<Op>)
    decreases |ops|
  {
    ops != [] ==>
      var next := TableNext(table, ops[0]);
      && (ops[0].Create? ==> ops[0].key !in gone)
      && FreshKeys(gone + (table.Keys - next.Keys), next, ops[1..])
  }

  // What is cached is in the table or was deleted from it, and what was deleted is gone.
  ghost predicate Tracked(m: Contents<CachedKey>, table: Table, gone: set<string>) {
    Coherent(m, table) && m.Keys <= table.Keys + gone && gone !! table.Keys
  }

  lemma StepTracked(s: Settings, m: Contents<CachedKey>, table: Table, gone: set<string>, op: Op)
    requires Tracked(m, table, gone) && (op.Create? ==> op.key !in gone)
    ensures var m', table' := CacheNext(s, m, table, op), TableNext(table, op);
            Tracked(m', table', gone + (table.Keys - table'.Keys))
  {
    if op.Ask? {
      StaleCheck(s, m, table, op.key, op.scope, op.at, op.victim);
    }
  }

  lemma {:induction false} RunTracked(s: Settings, m: Contents<CachedKey>, table: Table,
                                      gone: set<string>, ops: seq<Op>)
    requires Tracked(m, table, gone) && FreshKeys(gone, table, ops)
    ensures var end := After(s, m, table, ops); Tracked(end.0, end.1, gone + Deleted(table, ops))
    decreases |ops|
  {
    if ops == [] {
      assert gone + {} == gone;
    } else {
      var next := TableNext(table, ops[0]);
      var more := table.Keys - next.Keys;
      StepTracked(s, m, table, gone, ops[0]);
      RunTracked(s, CacheNext(s, m, table, ops[0]), next, gone + more, ops[1..]);
      assert gone + more + Deleted(next, ops[1..]) == gone + (more + Deleted(next, ops[1..]));
    }
  }

  // After every run, with deletions, in which no deleted key comes back, a check answers
  // differently from the table if and only if the key was deleted in the run, and is
  // still cached, has not lapsed and grants the scope.
  lemma StaleExactly(s: Settings, ops: seq<Op>, key: string, scope: string, now: int, victim: string)
    requires FreshKeys({}, map[], ops)
    ensures var (m, table) := After(s, map[], map[], ops);
            Check(s, m, table, key, scope, now, victim).1 != TableAnswer(table, key, scope, now)
            <==> && key in Deleted(map[], ops) && key in m && !Expired(s.ttl, m[key], now)
                 && !Lapsed(m[key].value.expires, now) && scope in m[key].value.scopes
  {
    RunTracked(s, map[], map[], {}, ops);
    var end := After(s, map[], map[], ops);
    StaleCheck(s, end.0, end.1, key, scope, now, victim);
  }

  // ---------- A deleted key can be used for ever ----------

  function Asks(key: string, scope: string, times: seq<int>): seq<Op> {
    seq(|times|, i requires 0 <= i < |times| => Ask(key, scope, times[i], ""))
  }

  // Each time comes no more than the time to live after the one before.
  ghost predicate KeptWarm(ttl: int, last: int, times: seq<int>)
    decreases |times|
  {
    times != [] ==> times[0] - last <= ttl && KeptWarm(ttl, times[0], times[1..])
  }

  lemma {:induction false} UsedOn(s: Settings, m: Contents<CachedKey>, table: Table, key: string,
                                  scope: string, times: seq<int>)
    requires key !in table && key in m && m[key].value.expires.None? && scope in m[key].value.scopes
    requires KeptWarm(s.ttl, m[key].readAt, times)
    ensures Answers(s, m, table, Asks(key, scope, times)) == seq(|times|, _ => true)
    ensures TableAnswers(table, Asks(key, scope, times)) == seq(|times|, _ => false)
    decreases |times|
  {
    if times != [] {
      var ops := Asks(key, scope, times);
      assert ops[1..] == Asks(key, scope, times[1..]);
      CheckCached(s, m, table, key, scope, times[0], "");
      UsedOn(s, m[key := m[key].(readAt := times[0])], table, key, scope, times[1..]);
    }
  }

  lemma FirstAnswer(s: Settings, m: Contents<CachedKey>, table: Table, op: Op, ops: seq<Op>)
    ensures Answers(s, m, table, [op] + ops)
            == Answer(s, m, table, op) + Answers(s, CacheNext(s, m, table, op), TableNext(table, op), ops)
    ensures TableAnswers(table, [op] + ops) == Reply(table, op) + TableAnswers(TableNext(table, op), ops)
  {
    assert ([op] + ops)[1..] == ops;
  }

  lemma FirstUse(s: Settings, key: string, row: Row, scope: string, t: int)
    requires row.expires.None? && scope in Unmarshal(row.scopes)
    ensures Check(s, map[], map[key := row], key, scope, t, "") == (map[key := Entry(Warm(row), t)], true)
  {
    assert Put(s, map[], key, Warm(row), t, "") == map[key := Entry(Warm(row), t)];
  }

  lemma UsedAfterDeletion(s: Settings, key: string, row: Row, scope: string, t: int, times: seq<int>)
    requires row.expires.None? && scope in Unmarshal(row.scopes) && KeptWarm(s.ttl, t, times)
    ensures var ops := [Delete(row.alias)] + Asks(key, scope, times);
            && Answers(s, map[key := Entry(Warm(row), t)], map[key := row], ops) == seq(|times|, _ => true)
            && TableAnswers(map[key := row], ops) == seq(|times|, _ => false)
  {
    var m: Contents<CachedKey> := map[key := Entry(Warm(row), t)];
    FirstAnswer(s, m, map[key := row], Delete(row.alias), Asks(key, scope, times));
    assert Removed(map[key := row], row.alias) == map[];
    UsedOn(s, m, map[], key, scope, times);
  }

  lemma UsedAfterFirst(s: Settings, key: string, row: Row, scope: string, t: int, times: seq<int>)
    requires row.expires.None? && scope in Unmarshal(row.scopes) && KeptWarm(s.ttl, t, times)
    ensures var ops := [Ask(key, scope, t, "")] + ([Delete(row.alias)] + Asks(key, scope, times));
            && Answers(s, map[], map[key := row], ops) == [true] + seq(|times|, _ => true)
            && TableAnswers(map[key := row], ops) == [true] + seq(|times|, _ => false)
  {
    FirstAnswer(s, map[], map[key := row], Ask(key, scope, t, ""), [Delete(row.alias)] + Asks(key, scope, times));
    FirstUse(s, key, row, scope, t);
    UsedAfterDeletion(s, key, row, scope, t, times);
  }

  // Create, ask, delete, and ask again in time: every answer is yes, where the table
  // says no.
  lemma DeletedKeyUsable(s: Settings, key: string, row: Row, scope: string, t: int, times: seq<int>)
    requires row.expires.None? && scope in Unmarshal(row.scopes) && KeptWarm(s.ttl, t, times)
    ensures var ops := [Create(key, row)] +
                  ([Ask(key, scope, t, "")] + ([Delete(row.alias)] + Asks(key, scope, times)));
            && Answers(s, map[], map[], ops) == [true] + seq(|times|, _ => true)
            && TableAnswers(map[], ops) == [true] + seq(|times|, _ => false)
  {
    var rest := [Ask(key, scope, t, "")] + ([Delete(row.alias)] + Asks(key, scope, times));
    FirstAnswer(s, map[], map[], Create(key, row), rest);
    UsedAfterFirst(s, key, row, scope, t, times);
  }

  // ---------- Every grant has a reason ----------

  function Made(ops: seq<Op>): set<(string, Row)> {
    set i | 0 <= i < |ops| && ops[i].Create? :: (ops[i].key, ops[i].row)
  }

  // Rows and cached keys stem from rows that were created for that very key.
  ghost predicate Sourced(m: Contents<CachedKey>, table: Table, made: set<(string, Row)>) {
    && (forall k | k in table :: (k, table[k]) in made)
    && (forall k | k in m :: exists row :: (k, row) in made && m[k].value == Warm(row))
  }

  lemma CheckSourced(s: Settings, m: Contents<CachedKey>, table: Table, made: set<(string, Row)>, op: Op)
    requires Sourced(m, table, made) && op.Ask?
    ensures Sourced(Check(s, m, table, op.key, op.scope, op.at, op.victim).0, table, made)
  {
    if op.key in m && !Expired(s.ttl, m[op.key], op.at) {
      CheckCached(s, m, table, op.key, op.scope, op.at, op.victim);
    } else {
      CheckMissed(s, m, table, op.key, op.scope, op.at, op.victim);
    }
  }

  lemma StepSourced(s: Settings, m: Contents<CachedKey>, table: Table, made: set<(string, Row)>, op: Op)
    requires Sourced(m, table, made) && (op.Create? ==> (op.key, op.row) in made)
    ensures Sourced(CacheNext(s, m, table, op), TableNext(table, op), made)
  {
    if op.Ask? {
      CheckSourced(s, m, table, made, op);
    }
  }

  lemma MadeRest(ops: seq<Op>)
    requires ops != []
    ensures Made(ops[1..]) <= Made(ops) && (ops[0].Create? ==> (ops[0].key, ops[0].row) in Made(ops))
  {
    forall x | x in Made(ops[1..]) ensures x in Made(ops) {
      var i :| 0 <= i < |ops[1..]| && ops[1..][i].Create? && (ops[1..][i].key, ops[1..][i].row) == x;
      assert ops[i + 1].Create? && (ops[i + 1].key, ops[i + 1].row) == x;
    }
  }

  lemma {:induction false} RunSourced(s: Settings, m: Contents<CachedKey>, table: Table, made: set<(string, Row)>,
                                      ops: seq<Op>)
    requires Sourced(m, table, made) && Made(ops) <= made
    ensures var end := After(s, m, table, ops); Sourced(end.0, end.1, made)
    decreases |ops|
  {
    if ops != [] {
      MadeRest(ops);
      StepSourced(s, m, table, made, ops[0]);
      RunSourced(s, CacheNext(s, m, table, ops[0]), TableNext(table, ops[0]), made, ops[1..]);
    }
  }

  // In every run, deletions and all, a check is granted only if a row was created for the
  // key that lists the scope and does not end before the check.
  lemma GrantedInLife(s: Settings, ops: seq<Op>, key: string, scope: string, now: int, victim: string)
    requires var end := After(s, map[], map[], ops); Check(s, end.0, end.1, key, scope, now, victim).1
    ensures exists row :: && (key, row) in Made(ops) && scope in Unmarshal(row.scopes)
                          && (row.expires.Some? ==> now <= row.expires.value)
  {
    RunSourced(s, map[], map[], Made(ops), ops);
    var end := After(s, map[], map[], ops);
    if key in end.0 && !Expired(s.ttl, end.0[key], now) {
      CheckCached(s, end.0, end.1, key, scope, now, victim);
      var row :| (key, row) in Made(ops) && end.0[key].value == Warm(row);
    } else {
      CheckMissed(s, end.0, end.1, key, scope, now, victim);
    }
  }

  // And without deletions a key whose row is there, lists the scope and has not ended is
  // granted.
  lemma GrantedWhileAlive(s: Settings, ops: seq<Op>, key: string, scope: string, now: int, victim: string)
    requires forall i | 0 <= i < |ops| :: !ops[i].Delete?
    requires var table := After(s, map[], map[], ops).1;
             && key in table && scope in Unmarshal(table[key].scopes)
             && (table[key].expires.Some? ==> now <= table[key].expires.value)
    ensures var end := After(s, map[], map[], ops); Check(s, end.0, end.1, key, scope, now, victim).1
  {
    KeysKept(s, map[], map[], ops);
    var end := After(s, map[], map[], ops);
    StaleCheck(s, end.0, end.1, key, scope, now, victim);
  }

  lemma {:induction false} KeysKept(s: Settings, m: Contents<CachedKey>, table: Table, ops: seq<Op>)
    requires Coherent(m, table) && m.Keys <= table.Keys
    requires forall i | 0 <= i < |ops| :: !ops[i].Delete?
    ensures var end := After(s, m, table, ops); Coherent(end.0, end.1) && end.0.Keys <= end.1.Keys
    decreases |ops|
  {
    if ops != [] {
      StepAgrees(s, m, table, ops[0]);
      KeysKept(s, CacheNext(s, m, table, ops[0]), TableNext(table, ops[0]), ops[1..]);
    }
  }
}
