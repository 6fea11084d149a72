/**
 The law a limiter keeps, without buckets or tokens: a request is granted exactly when
 granting it leaves no stretch of time, from any earlier grant to now, with more grants
 than the burst and what the rate yields in that stretch.
 */
module RateLaw {
  import opened EvictCache
  import opened RateLimiter

  // So many grants may lie between two times.
  predicate Within(p: Policy, n: int, from: int, to: int) {
    n as real <= p.burst as real + p.rate * (to - from) as real
  }

  // Granting at `t` keeps the law, after grants at the given times.
  ghost predicate Fits(p: Policy, grants: seq<int>, t: int) {
    forall j | 0 <= j < |grants| :: Within(p, |grants| - j + 1, grants[j], t)
  }

  // When each client was granted a request, since the start or its last reset.
  type Book = map<string, seq<int>>

  function Grants(book: Book, client: string): seq<int> {
    if client in book then book[client] else []
  }

  ghost function LawNext(p: Policy, book: Book, c: Call): (Book, seq<bool>) {
    match c
    case Allow(client, _, _, t, _) =>
      if Fits(p, Grants(book, client), t) then (book[client := Grants(book, client) + [t]], [true]) else (book, [false])
    case Unidentified(_) => (book, [false])
    case Reset(client, _) => (book - {client}, [])
    case Sweep(_) => (book, [])
  }

  ghost function LawAfter(p: Policy, book: Book, calls: seq<Call>): Book
    decreases |calls|
  {
    if calls == [] then book else LawAfter(p, LawNext(p, book, calls[0]).0, calls[1..])
  }

  ghost function LawDecisions(p: Policy, book: Book, calls: seq<Call>): seq<bool>
    decreases |calls|
  {
    if calls == [] then []
    else LawNext(p, book, calls[0]).1 + LawDecisions(p, LawNext(p, book, calls[0]).0, calls[1..])
  }

  // ---------- Room for grants ----------

  function Least(a: real, b: real): real {
    if a < b then a else b
  }

  // How many more grants would fit.
  function Room(p: Policy, grants: seq<int>, t: int): real {
    if grants == [] then p.burst as real
    else Least(p.burst as real + Yield(p, grants[0], t) - |grants| as real, Room(p, grants[1..], t))
  }

  lemma FitsFirst(p: Policy, grants: seq<int>, t: int)
    requires grants != []
    ensures Fits(p, grants, t) <==> Within(p, |grants| + 1, grants[0], t) && Fits(p, grants[1..], t)
  {
    var rest := grants[1..];
    if Fits(p, grants, t) {
      forall j | 0 <= j < |rest| ensures Within(p, |rest| - j + 1, rest[j], t) {
        assert Within(p, |grants| - (j + 1) + 1, grants[j + 1], t);
      }
    }
    if Within(p, |grants| + 1, grants[0], t) && Fits(p, rest, t) {
      forall j | 0 <= j < |grants| ensures Within(p, |grants| - j + 1, grants[j], t) {
        assert j > 0 ==> Within(p, |rest| - (j - 1) + 1, rest[j - 1], t);
      }
    }
  }

  lemma {:induction false} FitsRoom(p: Policy, grants: seq<int>, t: int)
    requires p.Valid()
    ensures Fits(p, grants, t) <==> Room(p, grants, t) >= 1.0
  {
    if grants != [] {
      FitsFirst(p, grants, t);
      FitsRoom(p, grants[1..], t);
    }
  }

  // Room grows with time up to the burst...
  lemma {:induction false} RoomLater(p: Policy, grants: seq<int>, t: int, later: int)
    requires p.Valid() && t <= later
    ensures Room(p, grants, later) == Least(p.burst as real, Room(p, grants, t) + Yield(p, t, later))
  {
    ProductGrows(p.rate, 0, later - t);
    if grants != [] {
      RoomLater(p, grants[1..], t, later);
      YieldSplit(p, grants[0], t, later);
    }
  }

  // ... and a grant takes one away.
  lemma {:induction false} RoomAfterGrant(p: Policy, grants: seq<int>, t: int, later: int)
    requires p.Valid() && t <= later
    ensures Room(p, grants + [t], later) == Least(p.burst as real, Room(p, grants, t) - 1.0 + Yield(p, t, later))
  {
    var more := grants + [t];
    if grants == [] {
      assert more[1..] == [];
    } else {
      assert more[1..] == grants[1..] + [t];
      RoomAfterGrant(p, grants[1..], t, later);
      YieldSplit(p, grants[0], t, later);
    }
  }

  // ---------- Buckets keep the law ----------

  ghost predicate Accounts(p: Policy, b: Bucket, grants: seq<int>) {
    forall t | t >= b.last :: Level(p, b, t) == Room(p, grants, t)
  }

  lemma LevelLater(p: Policy, tokens: real, t: int, later: int)
    ensures Level(p, Bucket(tokens, t), later) == Least(p.burst as real, tokens + Yield(p, t, later))
  {
  }

  lemma GrantAccounts(p: Policy, grants: seq<int>, t: int)
    requires p.Valid()
    ensures Accounts(p, Bucket(Room(p, grants, t) - 1.0, t), grants + [t])
  {
    forall later | later >= t
      ensures Level(p, Bucket(Room(p, grants, t) - 1.0, t), later) == Room(p, grants + [t], later)
    {
      LevelLater(p, Room(p, grants, t) - 1.0, t, later);
      RoomAfterGrant(p, grants, t, later);
    }
  }

  // A denial leaves the level as it is at every later time.
  lemma DenialAccounts(p: Policy, grants: seq<int>, t: int)
    requires p.Valid()
    ensures Accounts(p, Bucket(Room(p, grants, t), t), grants)
  {
    forall later | later >= t
      ensures Level(p, Bucket(Room(p, grants, t), t), later) == Room(p, grants, later)
    {
      LevelLater(p, Room(p, grants, t), t, later);
      RoomLater(p, grants, t, later);
    }
  }

  // A token is there exactly when the grant fits.
  lemma TakeKeepsLaw(p: Policy, b: Bucket, grants: seq<int>, t: int)
    requires p.Valid() && b.last <= t && Accounts(p, b, grants)
    ensures Take(p, b, t).1 <==> Fits(p, grants, t)
    ensures Take(p, b, t).0.last == t
    ensures Accounts(p, Take(p, b, t).0, if Fits(p, grants, t) then grants + [t] else grants)
  {
    FitsRoom(p, grants, t);
    assert Level(p, b, t) == Room(p, grants, t);
    GrantAccounts(p, grants, t);
    DenialAccounts(p, grants, t);
  }

  ghost predicate Balanced(p: Policy, now: int, ideal: Ideal, book: Book) {
    && ideal.Keys == book.Keys
    && forall c | c in ideal :: ideal[c].last <= now && Accounts(p, ideal[c], book[c])
  }

  lemma FreshAccounts(p: Policy, t: int)
    requires p.Valid()
    ensures Accounts(p, Fresh(p, t), [])
  {
    forall later | later >= t ensures Level(p, Fresh(p, t), later) == Room(p, [], later) {
      ProductGrows(p.rate, 0, later - t);
    }
  }

  lemma StepBalanced(p: Policy, lag: int, now: int, ideal: Ideal, book: Book, c: Call)
    requires p.Valid() && Balanced(p, now, ideal, book) && WellTimed(lag, now, [c])
    ensures IdealNext(p, ideal, c).1 == LawNext(p, book, c).1
    ensures Balanced(p, c.End(), IdealNext(p, ideal, c).0, LawNext(p, book, c).0)
  {
    if c.Allow? {
      var b := if c.client in ideal then ideal[c.client] else Fresh(p, c.allowAt);
      FreshAccounts(p, c.allowAt);
      TakeKeepsLaw(p, b, Grants(book, c.client), c.allowAt);
    }
  }

  lemma {:induction false} IdealKeepsLaw(p: Policy, lag: int, now: int, ideal: Ideal, book: Book, calls: seq<Call>)
    requires p.Valid() && Balanced(p, now, ideal, book) && WellTimed(lag, now, calls)
    ensures IdealDecisions(p, ideal, calls) == LawDecisions(p, book, calls)
    decreases |calls|
  {
    if calls != [] {
      StepBalanced(p, lag, now, ideal, book, calls[0]);
      IdealKeepsLaw(p, lag, calls[0].End(), IdealNext(p, ideal, calls[0]).0, LawNext(p, book, calls[0]).0, calls[1..]);
    }
  }

  // Every run of a new limiter, however its cache expires and sweeps, decides exactly as
  // the law says, if buckets refill within the time to live and the clients fit.
  lemma LawKept(s: Settings, p: Policy, lag: int, now: int, calls: seq<Call>)
    requires p.Valid() && RefillsInTime(s, p, lag) && WellTimed(lag, now, calls)
    requires |Clients(calls)| <= s.maxEntries
    ensures Decisions(s, p, map[], calls) == LawDecisions(p, map[], calls)
  {
    RefinesIdeal(s, p, lag, Clients(calls), now, map[], map[], calls);
    IdealKeepsLaw(p, lag, now, map[], map[], calls);
  }

  // ---------- What a client can count on ----------

  // The last grant kept the law.
  ghost predicate LastFits(p: Policy, grants: seq<int>) {
    grants != [] && Fits(p, grants[..|grants| - 1], grants[|grants| - 1])
  }

  lemma FitsAgain(p: Policy, grants: seq<int>, t: int)
    requires p.Valid() && LastFits(p, grants) && p.rate * (t - grants[|grants| - 1]) as real >= 1.0
    ensures Fits(p, grants, t)
  {
    var n := |grants| - 1;
    forall j | 0 <= j < |grants| ensures Within(p, |grants| - j + 1, grants[j], t) {
      if j < n {
        assert Within(p, n - j + 1, grants[..n][j], grants[n]);
        YieldSplit(p, grants[j], grants[n], t);
      }
    }
  }

  lemma {:induction false} LawKeepsFits(p: Policy, book: Book, calls: seq<Call>)
    requires forall c | c in book :: LastFits(p, book[c])
    ensures forall c | c in LawAfter(p, book, calls) :: LastFits(p, LawAfter(p, book, calls)[c])
    decreases |calls|
  {
    if calls != [] {
      var c := calls[0];
      if c.Allow? {
        var g := Grants(book, c.client);
        assert (g + [c.allowAt])[..|g|] == g;
      }
      LawKeepsFits(p, LawNext(p, book, c).0, calls[1..]);
    }
  }

  lemma {:induction false} LawSplit(p: Policy, book: Book, calls: seq<Call>, c: Call)
    ensures LawDecisions(p, book, calls + [c])
            == LawDecisions(p, book, calls) + LawNext(p, LawAfter(p, book, calls), c).1
    decreases |calls|
  {
    if calls == [] {
      assert calls + [c] == [c] && [c][1..] == [];
    } else {
      assert (calls + [c])[1..] == calls[1..] + [c];
      LawSplit(p, LawNext(p, book, calls[0]).0, calls[1..], c);
    }
  }

  // A request that comes as long after the client's last granted one as the rate takes for
  // one token is granted, whatever was denied in between; so is a client's first.
  lemma GrantedInTime(s: Settings, p: Policy, lag: int, now: int, calls: seq<Call>, c: Call)
    requires p.Valid() && RefillsInTime(s, p, lag) && c.Allow? && WellTimed(lag, now, calls + [c])
    requires |Clients(calls + [c])| <= s.maxEntries
    requires Rested(p, Grants(LawAfter(p, map[], calls), c.client), c.allowAt)
    ensures Decisions(s, p, map[], calls + [c]) == Decisions(s, p, map[], calls) + [true]
  {
    LawKept(s, p, lag, now, calls + [c]);
    WellTimedSplit(lag, now, calls, [c]);
    ClientsOfParts(calls, [c]);
    NoMore(Clients(calls), Clients(calls + [c]));
    LawKept(s, p, lag, now, calls);
    LawSplit(p, map[], calls, c);
    LawKeepsFits(p, map[], calls);
    RestedFits(p, LawAfter(p, map[], calls), c);
  }

  ghost predicate Rested(p: Policy, grants: seq<int>, t: int) {
    grants != [] ==> p.rate * (t - grants[|grants| - 1]) as real >= 1.0
  }

  lemma RestedFits(p: Policy, book: Book, c: Call)
    requires p.Valid() && c.Allow? && Rested(p, Grants(book, c.client), c.allowAt)
    requires forall k | k in book :: LastFits(p, book[k])
    ensures LawNext(p, book, c).1 == [true]
  {
    if c.client in book {
      FitsAgain(p, book[c.client], c.allowAt);
    }
  }
}
