/**
 ACME domain planning and certificate lookup: the supplied host names are reduced to
 the names that need a certificate, grouped into requests, issued, and found again by
 the server name of a TLS handshake.
 Issuance is decided by the environment; domain names are ASCII.
 */
module Acme {
  import opened Options
  import opened Text

  // A certificate, the names it was issued for, and whether it is due for renewal.
  datatype Cert = Cert(names: seq<string>, stale: bool)

  predicate IsWildcard(d: string) {
    HasPrefix(d, "*.")
  }

  // Everything after the first dot, when the dot is not the first character.
  function ParentOf(d: string): Option<string> {
    var dot := Index(d, ".");
    if dot > 0 then Some(d[dot + 1..]) else None
  }

  // ---------- Planning ----------

  // The names in lower case, each once, in the order of their first occurrence.
  function Unique(names: seq<string>): seq<string> {
    if names == [] then []
    else
      var front, last := Unique(names[..|names| - 1]), Lower(names[|names| - 1]);
      if last in front then front else front + [last]
  }

  lemma {:induction false} UniqueExactly(names: seq<string>)
    ensures forall d :: d in Unique(names) <==> exists i :: 0 <= i < |names| && Lower(names[i]) == d
    ensures forall i, j | 0 <= i < j < |Unique(names)| :: Unique(names)[i] != Unique(names)[j]
  {
    if names != [] {
      var n := |names| - 1;
      UniqueExactly(names[..n]);
      forall d ensures d in Unique(names) <==> exists i :: 0 <= i < |names| && Lower(names[i]) == d {
        if d in Unique(names) {
          if d in Unique(names[..n]) {
            var i :| 0 <= i < n && Lower(names[..n][i]) == d;
            assert Lower(names[i]) == d;
          } else {
            assert Lower(names[n]) == d;
          }
        }
        if i :| 0 <= i < |names| && Lower(names[i]) == d {
          if i < n {
            assert Lower(names[..n][i]) == d;
          }
        }
      }
    }
  }

  // A concrete name that a wildcard of the list covers.
  predicate Covered(list: seq<string>, d: string) {
    !IsWildcard(d) && ParentOf(d).Some? && "*." + ParentOf(d).value in list
  }

  function Uncovered(list: seq<string>, names: seq<string>): seq<string> {
    if names == [] then []
    else
      var last := names[|names| - 1];
      Uncovered(list, names[..|names| - 1]) + if Covered(list, last) then [] else [last]
  }

  // The names for which certificates are wanted.
  function Plan(supplied: seq<string>): seq<string> {
    Uncovered(Unique(supplied), Unique(supplied))
  }

  method Deduplicate(names: seq<string>) returns (unique: seq<string>)
    ensures unique == Unique(names)
  {
    unique := [];
    var seen: set<string> := {};
    for i := 0 to |names|
      invariant unique == Unique(names[..i])
      invariant forall d :: d in seen <==> d in unique
    {
      TakeNext(names, i);
      var d := Lower(names[i]);
      if d !in seen {
        seen := seen + {d};
        unique := unique + [d];
      }
    }
    TakeAll(names);
  }

  method WildcardParents(unique: seq<string>) returns (parents: set<string>)
    ensures forall p :: p in parents <==> "*." + p in unique
  {
    parents := {};
    for i := 0 to |unique|
      invariant forall p :: p in parents <==> "*." + p in unique[..i]
    {
      var d := unique[i];
      TakeNext(unique, i);
      if IsWildcard(d) {
        assert d == "*." + d[2..];
        forall p ensures d == "*." + p <==> p == d[2..] {
          assert ("*." + p)[2..] == p;
        }
        parents := parents + {d[2..]};
      }
    }
    TakeAll(unique);
  }

  method IsCovered(ghost unique: seq<string>, parents: set<string>, d: string) returns (covered: bool)
    requires forall p :: p in parents <==> "*." + p in unique
    ensures covered <==> Covered(unique, d)
  {
    if IsWildcard(d) {
      return false;
    }
    var dot := Index(d, ".");
    covered := dot > 0 && d[dot + 1..] in parents;
  }

  method ResolveDomains(supplied: seq<string>) returns (result: seq<string>)
    ensures result == Plan(supplied)
  {
    var unique := Deduplicate(supplied);
    var parents := WildcardParents(unique);
    result := [];
    for i := 0 to |unique|
      invariant result == Uncovered(unique, unique[..i])
    {
      TakeNext(unique, i);
      var covered := IsCovered(unique, parents, unique[i]);
      if !covered {
        result := result + [unique[i]];
      }
    }
    TakeAll(unique);
  }

  lemma {:induction false} UncoveredExactly(list: seq<string>, names: seq<string>, d: string)
    ensures d in Uncovered(list, names) <==> d in names && !Covered(list, d)
  {
    if names != [] {
      var n := |names| - 1;
      UncoveredExactly(list, names[..n], d);
      assert names == names[..n] + [names[n]];
    }
  }

  // The plan keeps exactly the supplied names, in lower case, that no supplied wildcard
  // covers, so no planned name is covered by a planned wildcard.
  lemma PlanExactly(supplied: seq<string>, d: string)
    ensures d in Plan(supplied) <==> d in Unique(supplied) && !Covered(Unique(supplied), d)
    ensures d in Plan(supplied) ==> !Covered(Plan(supplied), d)
  {
    UncoveredExactly(Unique(supplied), Unique(supplied), d);
    if d in Plan(supplied) && Covered(Plan(supplied), d) {
      UncoveredExactly(Unique(supplied), Unique(supplied), "*." + ParentOf(d).value);
    }
  }

  // ---------- Grouping into requests ----------

  // Names with the same key share a request; a name without a key has its own.
  function GroupKey(d: string): Option<string> {
    if IsWildcard(d) then None else ParentOf(d)
  }

  function Singles(names: seq<string>): seq<seq<string>> {
    if names == [] then []
    else
      var last := names[|names| - 1];
      Singles(names[..|names| - 1]) + if GroupKey(last).None? then [[last]] else []
  }

  // The keys in the order of their first occurrence.
  function Order(names: seq<string>): seq<string> {
    if names == [] then []
    else
      var front, key := Order(names[..|names| - 1]), GroupKey(names[|names| - 1]);
      front + if key.Some? && key.value !in front then [key.value] else []
  }

  function Members(names: seq<string>, key: string): seq<string> {
    if names == [] then []
    else
      var last := names[|names| - 1];
      Members(names[..|names| - 1], key) + if GroupKey(last) == Some(key) then [last] else []
  }

  function Grouped(names: seq<string>): seq<seq<string>> {
    seq(|Order(names)|, i requires 0 <= i < |Order(names)| => Members(names, Order(names)[i]))
  }

  function Batches(names: seq<string>): seq<seq<string>> {
    Singles(names) + Grouped(names)
  }

  // The groups as the loop over the names builds them.
  ghost predicate GroupsOf(groups: map<string, seq<string>>, names: seq<string>) {
    forall k :: (if k in groups then groups[k] else []) == Members(names, k)
  }

  lemma GroupsGrow(groups: map<string, seq<string>>, names: seq<string>, d: string)
    requires GroupsOf(groups, names)
    ensures GroupKey(d).None? ==> GroupsOf(groups, names + [d])
    ensures GroupKey(d).Some? ==>
              var key := GroupKey(d).value;
              GroupsOf(groups[key := (if key in groups then groups[key] else []) + [d]], names + [d])
  {
    assert (names + [d])[..|names|] == names;
  }

  // The key is the text after the first dot.
  lemma KeyByDot(d: string)
    ensures var dot := Index(d, ".");
            if IsWildcard(d) || dot <= 0 then GroupKey(d) == None else GroupKey(d) == Some(d[dot + 1..])
  {
  }

  lemma NextName(names: seq<string>, d: string)
    ensures Singles(names + [d]) == Singles(names) + if GroupKey(d).None? then [[d]] else []
    ensures Order(names + [d])
            == Order(names) +
                 if GroupKey(d).Some? && GroupKey(d).value !in Order(names) then [GroupKey(d).value] else []
  {
    assert (names + [d])[..|names|] == names;
  }

  method CollectGroups(names: seq<string>)
    returns (singles: seq<seq<string>>, order: seq<string>, groups: map<string, seq<string>>)
    ensures singles == Singles(names) && order == Order(names) && GroupsOf(groups, names)
    ensures forall k :: k in groups <==> k in order
  {
    singles, order, groups := [], [], map[];
    for i := 0 to |names|
      invariant singles == Singles(names[..i]) && order == Order(names[..i]) && GroupsOf(groups, names[..i])
      invariant forall k :: k in groups <==> k in order
    {
      var d := names[i];
      GroupsGrow(groups, names[..i], d);
      NextName(names[..i], d);
      KeyByDot(d);
      TakeNext(names, i);
      var dot := Index(d, ".");
      if IsWildcard(d) || dot <= 0 {
        singles := singles + [[d]];
      } else {
        var parent := d[dot + 1..];
        if parent !in groups {
          order := order + [parent];
        }
        groups := groups[parent := (if parent in groups then groups[parent] else []) + [d]];
      }
    }
    TakeAll(names);
  }

  lemma GroupFor(groups: map<string, seq<string>>, names: seq<string>, i: nat)
    requires GroupsOf(groups, names) && i < |Order(names)| && Order(names)[i] in groups
    ensures Grouped(names)[i] == groups[Order(names)[i]]
  {
  }

  method GroupDomainBatches(names: seq<string>) returns (batches: seq<seq<string>>)
    ensures batches == Batches(names)
  {
    var singles, order, groups := CollectGroups(names);
    batches := singles;
    for i := 0 to |order|
      invariant batches == singles + Grouped(names)[..i]
    {
      assert order[i] in groups;
      GroupFor(groups, names, i);
      batches := batches + [groups[order[i]]];
      TakeNext(Grouped(names), i);
    }
    TakeAll(Grouped(names));
  }

  function Flatten(batches: seq<seq<string>>): seq<string> {
    if batches == [] then [] else Flatten(batches[..|batches| - 1]) + batches[|batches| - 1]
  }

  lemma {:induction false} FlattenConcat(a: seq<seq<string>>, b: seq<seq<string>>)
    ensures Flatten(a + b) == Flatten(a) + Flatten(b)
    decreases |b|
  {
    if b == [] {
      assert a + b == a;
    } else {
      assert (a + b)[..|a| + |b| - 1] == a + b[..|b| - 1];
      FlattenConcat(a, b[..|b| - 1]);
    }
  }

  lemma {:induction false} FlattenGrows(batches: seq<seq<string>>, k: nat, d: string)
    requires k < |batches|
    ensures multiset(Flatten(batches[k := batches[k] + [d]])) == multiset(Flatten(batches)) + multiset{d}
    decreases |batches|
  {
    var n := |batches| - 1;
    var grown := batches[k := batches[k] + [d]];
    if k == n {
      assert grown[..n] == batches[..n];
    } else {
      assert grown[..n] == batches[..n][k := batches[k] + [d]];
      FlattenGrows(batches[..n], k, d);
    }
  }

  lemma {:induction false} OrderDistinct(names: seq<string>)
    ensures forall i, j | 0 <= i < j < |Order(names)| :: Order(names)[i] != Order(names)[j]
    ensures forall k :: k in Order(names) <==> Members(names, k) != []
  {
    if names != [] {
      OrderDistinct(names[..|names| - 1]);
    }
  }

  lemma MembersStep(front: seq<string>, d: string, k: string)
    ensures Members(front + [d], k) == if GroupKey(d) == Some(k) then Members(front, k) + [d] else Members(front, k)
  {
    assert (front + [d])[..|front|] == front;
  }

  lemma OrderStep(front: seq<string>, d: string)
    ensures var key := GroupKey(d);
            Order(front + [d])
            == if key.Some? && key.value !in Order(front) then Order(front) + [key.value] else Order(front)
  {
    assert (front + [d])[..|front|] == front;
  }

  // One more name changes no group but that of its key.
  lemma GroupedAt(front: seq<string>, d: string, i: nat)
    requires i < |Order(front)|
    ensures i < |Order(front + [d])|
    ensures Grouped(front + [d])[i]
            == if GroupKey(d) == Some(Order(front)[i]) then Grouped(front)[i] + [d] else Grouped(front)[i]
  {
    OrderStep(front, d);
    MembersStep(front, d, Order(front)[i]);
  }

  lemma GroupedSame(front: seq<string>, d: string)
    requires GroupKey(d).None?
    ensures Grouped(front + [d]) == Grouped(front)
  {
    OrderStep(front, d);
    forall i | 0 <= i < |Order(front)| ensures Grouped(front + [d])[i] == Grouped(front)[i] {
      GroupedAt(front, d, i);
    }
  }

  lemma GroupedLonger(front: seq<string>, d: string, k: nat)
    requires k < |Order(front)| && GroupKey(d) == Some(Order(front)[k])
    ensures Grouped(front + [d]) == Grouped(front)[k := Grouped(front)[k] + [d]]
  {
    OrderStep(front, d);
    OrderDistinct(front);
    forall i | 0 <= i < |Order(front)|
      ensures Grouped(front + [d])[i] == Grouped(front)[k := Grouped(front)[k] + [d]][i] {
      GroupedAt(front, d, i);
    }
  }

  lemma GroupedMore(front: seq<string>, d: string)
    requires GroupKey(d).Some? && GroupKey(d).value !in Order(front)
    ensures Grouped(front + [d]) == Grouped(front) + [[d]]
  {
    OrderStep(front, d);
    OrderDistinct(front);
    MembersStep(front, d, GroupKey(d).value);
    forall i | 0 <= i < |Order(front)| ensures Grouped(front + [d])[i] == Grouped(front)[i] {
      GroupedAt(front, d, i);
    }
  }

  lemma FlattenSnoc(batches: seq<seq<string>>, b: seq<string>)
    ensures Flatten(batches + [b]) == Flatten(batches) + b
  {
    assert (batches + [b])[..|batches|] == batches;
  }

  lemma GroupedStep(front: seq<string>, d: string)
    ensures multiset(Flatten(Grouped(front + [d])))
            == multiset(Flatten(Grouped(front))) + if GroupKey(d).Some? then multiset{d} else multiset{}
  {
    if GroupKey(d).None? {
      GroupedSame(front, d);
    } else if k: nat :| k < |Order(front)| && Order(front)[k] == GroupKey(d).value {
      GroupedLonger(front, d, k);
      FlattenGrows(Grouped(front), k, d);
    } else {
      GroupedMore(front, d);
      FlattenSnoc(Grouped(front), [d]);
    }
  }

  lemma SinglesStep(front: seq<string>, d: string)
    ensures multiset(Flatten(Singles(front + [d])))
            == multiset(Flatten(Singles(front))) + if GroupKey(d).None? then multiset{d} else multiset{}
  {
    assert (front + [d])[..|front|] == front;
    if GroupKey(d).None? {
      FlattenSnoc(Singles(front), [d]);
    } else {
      assert Singles(front) + [] == Singles(front);
    }
  }

  lemma BatchesMultiset(names: seq<string>)
    ensures multiset(Flatten(Batches(names))) == multiset(Flatten(Singles(names))) + multiset(Flatten(Grouped(names)))
  {
    FlattenConcat(Singles(names), Grouped(names));
  }

  lemma PartitionStep(front: seq<string>, d: string)
    ensures multiset(Flatten(Batches(front + [d]))) == multiset(Flatten(Batches(front))) + multiset{d}
  {
    BatchesMultiset(front);
    BatchesMultiset(front + [d]);
    GroupedStep(front, d);
    SinglesStep(front, d);
  }

  // The requests partition the names.
  lemma {:induction false} BatchesPartition(names: seq<string>)
    ensures multiset(Flatten(Batches(names))) == multiset(names)
  {
    if names == [] {
      assert Batches(names) == [];
    } else {
      var front, d := names[..|names| - 1], names[|names| - 1];
      TakeNext(names, |names| - 1);
      BatchesPartition(front);
      PartitionStep(front, d);
    }
  }

  lemma {:induction false} SinglesShape(names: seq<string>, i: nat)
    requires i < |Singles(names)|
    ensures |Singles(names)[i]| == 1 && GroupKey(Singles(names)[i][0]).None?
  {
    var n := |names| - 1;
    if i < |Singles(names[..n])| {
      SinglesShape(names[..n], i);
    }
  }

  lemma {:induction false} MembersShape(names: seq<string>, key: string, j: nat)
    requires j < |Members(names, key)|
    ensures GroupKey(Members(names, key)[j]) == Some(key)
  {
    var n := |names| - 1;
    if j < |Members(names[..n], key)| {
      MembersShape(names[..n], key, j);
    }
  }

  // A request is a single name without a key, or all the names of one key; two requests
  // never share a key.
  lemma BatchShape(names: seq<string>, a: nat, b: nat)
    requires a < |Batches(names)| && b < |Batches(names)|
    ensures var x, y := Batches(names)[a], Batches(names)[b];
            && x != [] && y != []
            && (forall i | 0 <= i < |x| :: GroupKey(x[i]) == GroupKey(x[0]))
            && (GroupKey(x[0]).None? ==> |x| == 1)
            && (a != b ==> GroupKey(x[0]).None? || GroupKey(x[0]) != GroupKey(y[0]))
  {
    OneBatchShape(names, a);
    OneBatchShape(names, b);
    OrderDistinct(names);
  }

  lemma OneBatchShape(names: seq<string>, a: nat)
    requires a < |Batches(names)|
    ensures var x := Batches(names)[a];
            && x != [] && (forall i | 0 <= i < |x| :: GroupKey(x[i]) == GroupKey(x[0]))
            && (a < |Singles(names)| ==> GroupKey(x[0]).None? && |x| == 1)
            && (a >= |Singles(names)| ==> GroupKey(x[0]) == Some(Order(names)[a - |Singles(names)|]))
  {
    var x := Batches(names)[a];
    if a < |Singles(names)| {
      SinglesShape(names, a);
    } else {
      var key := Order(names)[a - |Singles(names)|];
      OrderDistinct(names);
      assert x == Members(names, key);
      forall i | 0 <= i < |x| ensures GroupKey(x[i]) == Some(key) {
        MembersShape(names, key, i);
      }
    }
  }

  // ---------- Issuance ----------

  type Cache = map<string, Cert>

  function Need(cache: Cache, planned: seq<string>): seq<string> {
    if planned == [] then []
    else
      var d := planned[|planned| - 1];
      Need(cache, planned[..|planned| - 1]) + if d !in cache || cache[d].stale then [d] else []
  }

  // The cache once a certificate for all names of a request has been obtained.
  function Issued(cache: Cache, batch: seq<string>): Cache {
    Filed(cache, batch, Cert(batch, false))
  }

  function Filed(cache: Cache, names: seq<string>, cert: Cert): Cache {
    cache + map d | d in names :: cert
  }

  lemma FiledNext(cache: Cache, names: seq<string>, d: string, cert: Cert)
    ensures Filed(cache, names + [d], cert) == Filed(cache, names, cert)[d := cert]
  {
  }

  // The cache after a pass over the requests, of which the environment grants some.
  function IssueAll(cache: Cache, batches: seq<seq<string>>, grants: seq<string> -> bool): Cache {
    if batches == [] then cache
    else
      var before, last := IssueAll(cache, batches[..|batches| - 1], grants), batches[|batches| - 1];
      if grants(last) then Issued(before, last) else before
  }

  class LegoAcmeManager {
    var certCache: Cache

    method ObtainCertificate(batch: seq<string>, granted: bool) returns (ok: bool)
      modifies this
      ensures ok == granted && certCache == if ok then Issued(old(certCache), batch) else old(certCache)
    {
      if !granted {
        return false;
      }
      for i := 0 to |batch|
        invariant certCache == Filed(old(certCache), batch[..i], Cert(batch, false))
      {
        TakeNext(batch, i);
        FiledNext(old(certCache), batch[..i], batch[i], Cert(batch, false));
        certCache := certCache[batch[i] := Cert(batch, false)];
      }
      TakeAll(batch);
      return true;
    }

    method CollectNeed(planned: seq<string>) returns (need: seq<string>)
      ensures need == Need(certCache, planned)
    {
      need := [];
      for i := 0 to |planned|
        invariant need == Need(certCache, planned[..i])
      {
        TakeNext(planned, i);
        var d := planned[i];
        if d !in certCache || certCache[d].stale {
          need := need + [d];
        }
      }
      TakeAll(planned);
    }

    method EnsureCertificates(supplied: seq<string>, grants: seq<string> -> bool) returns (ok: bool)
      modifies this
      ensures var batches := Batches(Need(old(certCache), Plan(supplied)));
              && certCache == IssueAll(old(certCache), batches, grants)
              && (ok <==> forall i | 0 <= i < |batches| :: grants(batches[i]))
    {
      var planned := ResolveDomains(supplied);
      var need := CollectNeed(planned);
      var batches := GroupDomainBatches(need);
      ok := IssueBatches(batches, grants);
    }

    method IssueBatches(batches: seq<seq<string>>, grants: seq<string> -> bool) returns (ok: bool)
      modifies this
      ensures certCache == IssueAll(old(certCache), batches, grants)
      ensures ok <==> forall i | 0 <= i < |batches| :: grants(batches[i])
    {
      ok := true;
      for i := 0 to |batches|
        invariant certCache == IssueAll(old(certCache), batches[..i], grants)
        invariant ok <==> forall j | 0 <= j < i :: grants(batches[j])
      {
        TakeNext(batches, i);
        var done := ObtainCertificate(batches[i], grants(batches[i]));
        ok := ok && done;
      }
      TakeAll(batches);
    }

    method GetCertificate(serverName: string) returns (cert: Option<Cert>)
      ensures cert == Lookup(certCache, serverName)
    {
      var name := Lower(serverName);
      if name in certCache {
        return Some(certCache[name]);
      }
      var dot := Index(name, ".");
      if dot > 0 && "*." + name[dot + 1..] in certCache {
        return Some(certCache["*." + name[dot + 1..]]);
      }
      return None;
    }
  }

  // The certificate presented for a name in lower case...
  function Presented(cache: Cache, name: string): Option<Cert> {
    if name in cache then Some(cache[name])
    else
      var parent := ParentOf(name);
      if parent.Some? && "*." + parent.value in cache then Some(cache["*." + parent.value]) else None
  }

  // ... and for a server name.
  function Lookup(cache: Cache, serverName: string): Option<Cert> {
    Presented(cache, Lower(serverName))
  }

  lemma {:induction false} NeedExactly(cache: Cache, planned: seq<string>, d: string)
    ensures d in Need(cache, planned) <==> d in planned && (d !in cache || cache[d].stale)
  {
    if planned != [] {
      var n := |planned| - 1;
      NeedExactly(cache, planned[..n], d);
      assert planned == planned[..n] + [planned[n]];
    }
  }

  // Some granted request names the domain.
  ghost predicate Granted(batches: seq<seq<string>>, grants: seq<string> -> bool, d: string) {
    exists i :: 0 <= i < |batches| && grants(batches[i]) && d in batches[i]
  }

  lemma GrantedStep(batches: seq<seq<string>>, grants: seq<string> -> bool, d: string)
    requires batches != []
    ensures var n := |batches| - 1;
            Granted(batches, grants, d) <==> Granted(batches[..n], grants, d) || (grants(batches[n]) && d in batches[n])
  {
    var n := |batches| - 1;
    if Granted(batches[..n], grants, d) {
      var i :| 0 <= i < n && grants(batches[..n][i]) && d in batches[..n][i];
      assert grants(batches[i]) && d in batches[i];
    }
    if Granted(batches, grants, d) {
      var i :| 0 <= i < |batches| && grants(batches[i]) && d in batches[i];
      assert i < n ==> grants(batches[..n][i]) && d in batches[..n][i];
    }
  }

  // A pass gives a current certificate to every name of a granted request and leaves
  // every other name as it was.
  lemma {:induction false} IssueAllExactly(cache: Cache, batches: seq<seq<string>>,
                                             grants: seq<string> -> bool, d: string)
    ensures var after := IssueAll(cache, batches, grants);
            if Granted(batches, grants, d) then d in after && !after[d].stale && d in after[d].names
            else (d in after <==> d in cache) && (d in cache ==> after[d] == cache[d])
    decreases |batches|
  {
    if batches != [] {
      IssueAllExactly(cache, batches[..|batches| - 1], grants, d);
      GrantedStep(batches, grants, d);
    }
  }

  // Every cached certificate names the domain it is cached under.
  ghost predicate Sound(cache: Cache) {
    forall d | d in cache :: d in cache[d].names
  }

  lemma {:induction false} FlattenMember(batches: seq<seq<string>>, d: string)
    ensures d in Flatten(batches) <==> exists i :: 0 <= i < |batches| && d in batches[i]
  {
    if batches != [] {
      var n := |batches| - 1;
      FlattenMember(batches[..n], d);
      if d in Flatten(batches[..n]) {
        var i :| 0 <= i < n && d in batches[..n][i];
        assert d in batches[i];
      }
      if exists i :: 0 <= i < |batches| && d in batches[i] {
        var i :| 0 <= i < |batches| && d in batches[i];
        assert i < n ==> d in batches[..n][i];
      }
    }
  }

  // The requests of a pass name exactly the planned names without a current certificate.
  lemma RequestedExactly(cache: Cache, supplied: seq<string>, d: string)
    ensures var batches := Batches(Need(cache, Plan(supplied)));
            (exists i :: 0 <= i < |batches| && d in batches[i])
            <==> d in Plan(supplied) && (d !in cache || cache[d].stale)
  {
    var need := Need(cache, Plan(supplied));
    NeedExactly(cache, Plan(supplied), d);
    BatchesPartition(need);
    assert d in Flatten(Batches(need)) <==> d in multiset(Flatten(Batches(need)));
    assert d in need <==> d in multiset(need);
    FlattenMember(Batches(need), d);
  }

  // After any pass, whatever is granted, a name has a new, current certificate if its
  // request was granted, which happens only to planned names that need one, and every
  // other name is left as it was.
  lemma PassExactly(cache: Cache, supplied: seq<string>, grants: seq<string> -> bool, d: string)
    ensures var batches := Batches(Need(cache, Plan(supplied)));
            var after := IssueAll(cache, batches, grants);
            && (Granted(batches, grants, d) ==>
                  && d in Plan(supplied) && (d !in cache || cache[d].stale)
                  && d in after && !after[d].stale && d in after[d].names)
            && (!Granted(batches, grants, d) ==> (d in after <==> d in cache) && (d in cache ==> after[d] == cache[d]))
  {
    var batches := Batches(Need(cache, Plan(supplied)));
    IssueAllExactly(cache, batches, grants, d);
    if Granted(batches, grants, d) {
      RequestedExactly(cache, supplied, d);
    }
  }

  // When everything was granted, exactly the planned names have current certificates
  // that name them.
  lemma FullPass(cache: Cache, supplied: seq<string>, grants: seq<string> -> bool, d: string)
    requires Sound(cache)
    requires var batches := Batches(Need(cache, Plan(supplied))); forall i | 0 <= i < |batches| :: grants(batches[i])
    ensures var after := IssueAll(cache, Batches(Need(cache, Plan(supplied))), grants);
            if d in Plan(supplied) then d in after && !after[d].stale && d in after[d].names
            else (d in after <==> d in cache) && (d in cache ==> after[d] == cache[d])
  {
    var batches := Batches(Need(cache, Plan(supplied)));
    PassExactly(cache, supplied, grants, d);
    RequestedExactly(cache, supplied, d);
    if exists i :: 0 <= i < |batches| && d in batches[i] {
      var i :| 0 <= i < |batches| && d in batches[i];
      assert grants(batches[i]) && Granted(batches, grants, d);
    }
  }

  // ---------- Coverage ----------

  // A certificate is good for a name that it lists, or whose first label a listed
  // wildcard stands for (section 6.4.3 of RFC 6125).
  ghost predicate GoodFor(cert: Cert, name: string) {
    name in cert.names || (ParentOf(name).Some? && "*." + ParentOf(name).value in cert.names)
  }

  ghost predicate Passed(cache: Cache, supplied: seq<string>, grants: seq<string> -> bool, after: Cache) {
    var batches := Batches(Need(cache, Plan(supplied)));
    Sound(cache) && after == IssueAll(cache, batches, grants) && forall i | 0 <= i < |batches| :: grants(batches[i])
  }

  // A certificate is presented that is good for the name.  It is current unless the name
  // is covered by a wildcard while a certificate of its own, due for renewal, is still
  // cached: that one is presented and never renewed.
  ghost predicate Served(cache: Cache, supplied: seq<string>, after: Cache, name: string) {
    var cert := Presented(after, name);
    && cert.Some? && GoodFor(cert.value, name)
    && (cert.value.stale <==> Covered(Unique(supplied), name) && name in cache && cache[name].stale)
  }

  lemma PlannedServed(cache: Cache, supplied: seq<string>, grants: seq<string> -> bool, after: Cache, name: string)
    requires Passed(cache, supplied, grants, after) && name in Plan(supplied)
    ensures Served(cache, supplied, after, name)
  {
    FullPass(cache, supplied, grants, name);
    PlanExactly(supplied, name);
  }

  lemma CoveredServed(cache: Cache, supplied: seq<string>, grants: seq<string> -> bool, after: Cache, name: string)
    requires Passed(cache, supplied, grants, after) && Covered(Unique(supplied), name)
    ensures Served(cache, supplied, after, name)
  {
    var wild := "*." + ParentOf(name).value;
    PlanExactly(supplied, name);
    PlanExactly(supplied, wild);
    FullPass(cache, supplied, grants, name);
    FullPass(cache, supplied, grants, wild);
  }

  // So it is with every supplied name...
  lemma SuppliedNameServed(cache: Cache, supplied: seq<string>, grants: seq<string> -> bool, after: Cache, i: nat)
    requires Passed(cache, supplied, grants, after) && i < |supplied|
    ensures Served(cache, supplied, after, Lower(supplied[i]))
  {
    var name := Lower(supplied[i]);
    UniqueExactly(supplied);
    assert name in Unique(supplied);
    PlanExactly(supplied, name);
    if Covered(Unique(supplied), name) {
      CoveredServed(cache, supplied, grants, after, name);
    } else {
      PlannedServed(cache, supplied, grants, after, name);
    }
  }

  // ... and every single-label child of a supplied wildcard.
  lemma WildcardChildServed(cache: Cache, supplied: seq<string>, grants: seq<string> -> bool, after: Cache,
                            i: nat, first: string, parent: string)
    requires Passed(cache, supplied, grants, after) && i < |supplied| && Lower(supplied[i]) == "*." + Lower(parent)
    requires first != "" && '.' !in first
    ensures Served(cache, supplied, after, Lower(first + "." + parent))
  {
    var name, wild := Lower(first + "." + parent), "*." + Lower(parent);
    ChildParent(first, parent);
    UniqueExactly(supplied);
    assert wild in Unique(supplied);
    if IsWildcard(name) {
      WildcardForm(name);
      SuppliedNameServed(cache, supplied, grants, after, i);
    } else {
      CoveredServed(cache, supplied, grants, after, name);
    }
  }

  lemma WildcardForm(name: string)
    requires IsWildcard(name)
    ensures ParentOf(name).Some? && name == "*." + ParentOf(name).value
  {
    assert name[1..2] == "." && name[0..1][0] == '*';
    assert OccursAt(name, ".", 1) && !OccursAt(name, ".", 0);
    assert Index(name, ".") == 1;
    assert name == name[..2] + name[2..];
  }

  lemma ChildParent(first: string, parent: string)
    requires first != "" && '.' !in first
    ensures ParentOf(Lower(first + "." + parent)) == Some(Lower(parent))
  {
    var name := Lower(first + "." + parent);
    var n := |first|;
    assert forall i | 0 <= i < n :: name[i] == LowerChar(first[i]) && first[i] != '.';
    assert name[n] == '.' && name[n..n + 1] == ".";
    assert OccursAt(name, ".", n);
    forall j | OccursAt(name, ".", j) ensures j >= n {
      assert name[j] == name[j..j + 1][0] == '.';
    }
    assert name[n + 1..] == Lower(parent);
  }
}
