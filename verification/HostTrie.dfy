/**
 The trie that routes a request to the handler of its host name, one label a level and
 the top-level domain first.  A label that is missing falls back to the wildcard beside
 it, and the walk never goes back to try another way.
 */
module HostTrie {
  import opened Options
  import opened Text
  import TrustedProxy

  // A domain name: a label below a parent domain.
  datatype Domain = Top | Sub(parent: Domain, name: string)

  predicate Above(p: Domain, q: Domain) {
    p == q || (q.Sub? && Above(p, q.parent))
  }

  function Depth(p: Domain): nat {
    if p.Top? then 0 else 1 + Depth(p.parent)
  }

  // The labels in writing order.
  function Labels(p: Domain): (parts: seq<string>)
    ensures |parts| == Depth(p)
  {
    if p.Top? then [] else [p.name] + Labels(p.parent)
  }

  function Written(p: Domain): string {
    Join(Labels(p), '.')
  }

  // The domain that the first `n` labels reach from the top.
  function DomainOf(tokens: seq<string>, n: nat): Domain
    requires n <= |tokens|
  {
    if n == 0 then Top else Sub(DomainOf(tokens, n - 1), tokens[n - 1])
  }

  predicate Plain(p: Domain) {
    p.Sub? && '.' !in p.name && (p.parent.Top? || Plain(p.parent))
  }

  lemma {:induction false} LabelsOf(tokens: seq<string>, n: nat)
    requires n <= |tokens|
    ensures Labels(DomainOf(tokens, n)) == Reversed(tokens[..n])
  {
    if n > 0 {
      LabelsOf(tokens, n - 1);
      TakeNext(tokens, n - 1);
      ReversedSnoc(tokens[..n - 1], tokens[n - 1]);
    }
  }

  lemma {:induction false} LabelsInjective(p: Domain, q: Domain)
    requires Labels(p) == Labels(q)
    ensures p == q
  {
    if p.Sub? && q.Sub? {
      assert Labels(p)[0] == p.name && Labels(q)[0] == q.name;
      assert Labels(p)[1..] == Labels(p.parent) && Labels(q)[1..] == Labels(q.parent);
      LabelsInjective(p.parent, q.parent);
    }
  }

  lemma {:induction false} PlainLabels(p: Domain, i: nat)
    requires Plain(p) && i < |Labels(p)|
    ensures '.' !in Labels(p)[i]
  {
    if i > 0 {
      PlainLabels(p.parent, i - 1);
    }
  }

  lemma {:induction false} PlainDomainOf(tokens: seq<string>, n: nat)
    requires 1 <= n <= |tokens| && forall i | 0 <= i < |tokens| :: '.' !in tokens[i]
    ensures Plain(DomainOf(tokens, n))
  {
    if n > 1 {
      PlainDomainOf(tokens, n - 1);
    }
  }

  // A domain can be read back from the way it is written.
  lemma SplitWritten(p: Domain)
    requires Plain(p)
    ensures Split(Written(p), '.') == Labels(p)
  {
    forall i | 0 <= i < |Labels(p)| ensures '.' !in Labels(p)[i] {
      PlainLabels(p, i);
    }
    SplitJoin(Labels(p), '.');
  }

  lemma WrittenInjective(p: Domain, q: Domain)
    requires Plain(p) && Plain(q) && Written(p) == Written(q)
    ensures p == q
  {
    SplitWritten(p);
    SplitWritten(q);
    LabelsInjective(p, q);
  }

  // ---------- Reading host names ----------

  function Undotted(host: string): string {
    if host != "" && host[|host| - 1] == '.' then host[..|host| - 1] else host
  }

  // A host name without port and final dot, in lower case.
  function Normal(host: string): string {
    var split := TrustedProxy.SplitHostPort(host);
    Lower(Undotted(if split.Some? then split.value.host else host))
  }

  predicate Bare(s: string) {
    ':' !in s && '[' !in s && ']' !in s
  }

  lemma PortSplit(host: string, port: string)
    requires Bare(host) && Bare(port)
    ensures TrustedProxy.SplitHostPort(host) == None
    ensures TrustedProxy.SplitHostPort(host + ":" + port) == Some(TrustedProxy.HostPort(host, port))
  {
    var s := host + ":" + port;
    TrustedProxy.LastIndexOfJoin(host, port);
    assert s[..|host|] == host && s[|host| + 1..] == port;
  }

  lemma PortIgnored(host: string, port: string)
    requires Bare(host) && Bare(port)
    ensures Normal(host) == Normal(host + ":" + port) == Lower(Undotted(host))
  {
    PortSplit(host, port);
  }

  // A port, a final dot and the case of letters do not matter.
  lemma SpellingIgnored(host: string, port: string)
    requires Bare(host) && Bare(port) && Undotted(host) == host
    ensures Normal(host) == Normal(host + ":" + port) == Lower(host)
    ensures Normal(host + ".") == Normal(host + "." + ":" + port) == Lower(host)
    ensures Normal(Lower(host)) == Lower(host)
  {
    PortIgnored(host, port);
    assert Undotted(host + ".") == host;
    PortIgnored(host + ".", port);
    LowerBare(host);
    PortIgnored(Lower(host), port);
  }

  lemma LowerBare(host: string)
    requires Bare(host) && Undotted(host) == host
    ensures Bare(Lower(host)) && Undotted(Lower(host)) == Lower(host) && Lower(Lower(host)) == Lower(host)
  {
    forall c | c in Lower(host) ensures c != ':' && c != '[' && c != ']' {
      var i :| 0 <= i < |host| && Lower(host)[i] == c;
      assert host[i] in host;
    }
  }

  // The domain that a text names.
  function TextDomain(text: string): Domain {
    var tokens := Reversed(Split(text, '.'));
    DomainOf(tokens, |tokens|)
  }

  function HostDomain(host: string): Domain {
    TextDomain(Normal(host))
  }

  lemma ReadWritten(text: string)
    ensures Plain(TextDomain(text)) && Written(TextDomain(text)) == text
  {
    var parts := Split(text, '.');
    var tokens := Reversed(parts);
    LabelsOf(tokens, |tokens|);
    TakeAll(tokens);
    ReversedTwice(parts);
    JoinSplit(text, '.');
    PlainDomainOf(tokens, |tokens|);
  }

  // The domain of a host is the one that reads as its normal form.
  lemma HostWritten(host: string)
    ensures Plain(HostDomain(host)) && Written(HostDomain(host)) == Normal(host)
  {
    ReadWritten(Normal(host));
  }

  // Hosts share a domain exactly when they share the normal form.
  lemma SameDomain(a: string, b: string)
    ensures HostDomain(a) == HostDomain(b) <==> Normal(a) == Normal(b)
  {
    HostWritten(a);
    HostWritten(b);
  }

  // One more label in front names a domain below.
  lemma SubDomain(host: string, x: string, rest: string)
    requires '.' !in x && Normal(host) == x + "." + Normal(rest)
    ensures HostDomain(host) == Sub(HostDomain(rest), x)
  {
    HostWritten(host);
    HostWritten(rest);
    var d := Sub(HostDomain(rest), x);
    var parts := Labels(d);
    assert parts[1..] == Labels(HostDomain(rest));
    assert Written(d) == x + ['.'] + Written(HostDomain(rest));
    WrittenInjective(HostDomain(host), d);
  }

  method ReverseInPlace(a: array<string>)
    modifies a
    ensures a[..] == Reversed(old(a[..]))
  {
    var i, j := 0, a.Length - 1;
    while i < j
      invariant 0 <= i <= a.Length && j == a.Length - 1 - i
      invariant forall k | 0 <= k < i || j < k < a.Length :: a[k] == old(a[a.Length - 1 - k])
      invariant forall k | i <= k <= j :: a[k] == old(a[k])
    {
      a[i], a[j] := a[j], a[i];
      i, j := i + 1, j - 1;
    }
  }

  // The labels of a host, the top-level domain first.
  method ReverseAndTokenizeHost(host: string) returns (tokens: seq<string>)
    ensures |tokens| >= 1 && DomainOf(tokens, |tokens|) == HostDomain(host)
  {
    var parts := Split(Normal(host), '.');
    var a := new string[|parts|](i requires 0 <= i < |parts| => parts[i]);
    assert a[..] == parts;
    ReverseInPlace(a);
    tokens := a[..];
  }

  // ---------- The table a trie stands for ----------

  type Handler = nat

  // The handler last inserted for each domain; it may be no handler.
  type Table = map<Domain, Option<Handler>>

  ghost predicate HasNode(t: Table, p: Domain) {
    p == Top || exists k :: k in t && Above(p, k)
  }

  function Entry(t: Table, p: Domain): Option<Handler> {
    if p in t then t[p] else None
  }

  // The domain at which the walk for a host ends: each label itself if there is a
  // node for it, otherwise the wildcard.
  ghost function Reached(t: Table, host: Domain): Option<Domain> {
    if host.Top? then Some(Top)
    else
      var up := Reached(t, host.parent);
      if up.None? then None
      else if HasNode(t, Sub(up.value, host.name)) then Some(Sub(up.value, host.name))
      else if HasNode(t, Sub(up.value, "*")) then Some(Sub(up.value, "*"))
      else None
  }

  ghost function Lookup(t: Table, host: Domain): Option<Handler> {
    var r := Reached(t, host);
    if r.Some? then Entry(t, r.value) else None
  }

  // A pattern matches label by label, with as many labels.
  predicate Matches(pattern: Domain, host: Domain) {
    if pattern.Top? || host.Top? then pattern == host
    else (pattern.name == host.name || pattern.name == "*") && Matches(pattern.parent, host.parent)
  }

  // Of two patterns for a host, `p` has the host's own label where, from the top, they
  // first differ.
  predicate Sooner(p: Domain, q: Domain, host: Domain) {
    p.Sub? && q.Sub? && host.Sub?
    && if p.parent == q.parent then p.name == host.name && q.name != host.name
       else Sooner(p.parent, q.parent, host.parent)
  }

  lemma {:induction false} AboveTransitive(p: Domain, q: Domain, r: Domain)
    requires Above(p, q) && Above(q, r)
    ensures Above(p, r)
  {
    if q != r {
      AboveTransitive(p, q, r.parent);
    }
  }

  lemma NodeAbove(t: Table, p: Domain, q: Domain)
    requires HasNode(t, q) && Above(p, q)
    ensures HasNode(t, p)
  {
    if q != Top {
      var k :| k in t && Above(q, k);
      AboveTransitive(p, q, k);
    }
  }

  lemma ParentNode(t: Table, p: Domain)
    requires p.Sub? && HasNode(t, p)
    ensures HasNode(t, p.parent)
  {
    assert Above(p.parent, p.parent);
    NodeAbove(t, p.parent, p);
  }

  lemma EntryNode(t: Table, p: Domain)
    requires p in t
    ensures HasNode(t, p)
  {
    assert Above(p, p);
  }

  // The walk ends at a node that matches the host.
  lemma {:induction false} ReachedMatches(t: Table, host: Domain)
    ensures var r := Reached(t, host); r.Some? ==> HasNode(t, r.value) && Matches(r.value, host)
  {
    if host.Sub? {
      ReachedMatches(t, host.parent);
    }
  }

  // It is the first of all matching nodes: from the top, each label of the host goes
  // before the wildcard.
  lemma {:induction false} ReachedFirst(t: Table, host: Domain, p: Domain)
    requires HasNode(t, p) && Matches(p, host) && Reached(t, host).Some?
    ensures p == Reached(t, host).value || Sooner(Reached(t, host).value, p, host)
  {
    if host.Sub? {
      ParentNode(t, p);
      ReachedFirst(t, host.parent, p.parent);
      ReachedMatches(t, host.parent);
    }
  }

  // A handler that is found belongs to an inserted pattern that matches the host, and
  // no matching domain with a node goes before it.
  lemma LookupMatches(t: Table, host: Domain)
    requires Lookup(t, host).Some?
    ensures exists k :: k in t && Matches(k, host) && t[k] == Lookup(t, host)
                        && forall p | HasNode(t, p) && Matches(p, host) && p != k :: Sooner(k, p, host)
  {
    var k := Reached(t, host).value;
    ReachedMatches(t, host);
    forall p | HasNode(t, p) && Matches(p, host) && p != k ensures Sooner(k, p, host) {
      ReachedFirst(t, host, p);
    }
  }

  lemma {:induction false} ReachedNode(t: Table, p: Domain)
    requires HasNode(t, p)
    ensures Reached(t, p) == Some(p)
  {
    if p.Sub? {
      ParentNode(t, p);
      ReachedNode(t, p.parent);
    }
  }

  // An inserted host always gets its own handler.
  lemma ExactWins(t: Table, host: Domain)
    requires host in t
    ensures Lookup(t, host) == t[host]
  {
    EntryNode(t, host);
    ReachedNode(t, host);
  }

  // A node is where the walk for a host ends if and only if at each of its labels it has
  // the host's own one, or there is no node for that.
  ghost predicate Taken(t: Table, k: Domain, host: Domain) {
    k.Sub? && host.Sub? ==>
      && (k.name == host.name || !HasNode(t, Sub(k.parent, host.name)))
      && Taken(t, k.parent, host.parent)
  }

  lemma {:induction false} ReachedExactly(t: Table, k: Domain, host: Domain)
    requires HasNode(t, k) && Matches(k, host)
    ensures Reached(t, host) == Some(k) <==> Taken(t, k, host)
  {
    if host.Sub? {
      ParentNode(t, k);
      ReachedExactly(t, k.parent, host.parent);
    }
  }

  // So a pattern with wildcards anywhere serves a host it matches exactly then.
  lemma PatternServes(t: Table, k: Domain, host: Domain)
    requires k in t && Matches(k, host) && Taken(t, k, host)
    ensures Lookup(t, host) == t[k]
  {
    EntryNode(t, k);
    ReachedExactly(t, k, host);
  }

  // And a host is not found exactly when every pattern that matches it is passed by, or
  // has no handler.
  lemma NotFoundExactly(t: Table, host: Domain)
    ensures Lookup(t, host) == None <==>
            forall k | k in t && Matches(k, host) :: t[k].None? || !Taken(t, k, host)
  {
    forall k | k in t && Matches(k, host) && Taken(t, k, host) ensures Lookup(t, host) == t[k] {
      PatternServes(t, k, host);
    }
    if Lookup(t, host).Some? {
      var k := Reached(t, host).value;
      ReachedMatches(t, host);
      ReachedExactly(t, k, host);
      assert k in t && Matches(k, host) && t[k].Some? && Taken(t, k, host);
    }
  }

  // A wildcard serves a label exactly when no inserted host has that label there, or
  // lies below it; otherwise only that very host can.
  lemma WildcardServes(t: Table, d: Domain, x: string)
    requires Sub(d, "*") in t
    ensures Lookup(t, Sub(d, x)) == if HasNode(t, Sub(d, x)) then Entry(t, Sub(d, x)) else t[Sub(d, "*")]
  {
    EntryNode(t, Sub(d, "*"));
    ParentNode(t, Sub(d, "*"));
    ReachedNode(t, d);
  }

  // The same for host names as they are written: "*.rest" and "x.rest".
  lemma WildcardHostServes(t: Table, pattern: string, host: string, rest: string, x: string)
    requires Normal(pattern) == "*." + Normal(rest) && HostDomain(pattern) in t
    requires '.' !in x && Normal(host) == x + "." + Normal(rest)
    ensures Lookup(t, HostDomain(host)) ==
            if HasNode(t, HostDomain(host)) then Entry(t, HostDomain(host)) else t[HostDomain(pattern)]
  {
    SubDomain(host, x, rest);
    assert Normal(pattern) == "*" + "." + Normal(rest);
    SubDomain(pattern, "*", rest);
    WildcardServes(t, HostDomain(rest), x);
  }

  // A pattern matches only hosts with as many labels, so a wildcard serves neither its
  // own domain nor anything two labels below.
  lemma {:induction false} SameDepth(p: Domain, host: Domain)
    requires Matches(p, host)
    ensures Depth(p) == Depth(host)
  {
    if p.Sub? && host.Sub? {
      SameDepth(p.parent, host.parent);
    }
  }

  // Without going back a match can be missed: the wildcard of a domain does not serve a
  // name below which another host was inserted.
  lemma MatchMissed(d: Domain, x: string, y: string, h: Handler)
    requires x != "*"
    ensures var t: Table := map[Sub(d, "*") := Some(h), Sub(Sub(d, x), y) := Some(h)];
            Matches(Sub(d, "*"), Sub(d, x)) && Lookup(t, Sub(d, x)) == None
  {
    var t: Table := map[Sub(d, "*") := Some(h), Sub(Sub(d, x), y) := Some(h)];
    WildcardServes(t, d, x);
    assert Above(Sub(d, x), Sub(Sub(d, x), y)) && Sub(Sub(d, x), y) in t;
    assert Depth(Sub(Sub(d, x), y)) != Depth(Sub(d, x));
    MatchesSelf(d);
  }

  lemma {:induction false} MatchesSelf(d: Domain)
    ensures Matches(d, d)
  {
    if d.Sub? {
      MatchesSelf(d.parent);
    }
  }

  lemma InsertedNode(t: Table, key: Domain, h: Option<Handler>, p: Domain)
    ensures HasNode(t[key := h], p) <==> HasNode(t, p) || Above(p, key)
  {
    if HasNode(t, p) && p != Top {
      var k :| k in t && Above(p, k);
      assert k in t[key := h];
    }
    assert key in t[key := h];
    assert p == Top ==> HasNode(t, p);
  }

  // The table after a history of insertions.
  function Inserted(history: seq<(Domain, Option<Handler>)>): Table {
    if history == [] then map[]
    else
      var last := history[|history| - 1];
      Inserted(history[..|history| - 1])[last.0 := last.1]
  }

  // Only inserted domains have an entry, and it is the one inserted last.
  lemma {:induction false} LatestEntry(history: seq<(Domain, Option<Handler>)>, d: Domain)
    returns (i: int)
    ensures d !in Inserted(history) ==> i == -1 && forall j | 0 <= j < |history| :: history[j].0 != d
    ensures d in Inserted(history) ==>
              && 0 <= i < |history| && history[i] == (d, Inserted(history)[d])
              && forall j | i < j < |history| :: history[j].0 != d
  {
    if history == [] {
      i := -1;
    } else {
      var n := |history| - 1;
      if history[n].0 == d {
        i := n;
      } else {
        i := LatestEntry(history[..n], d);
        assert forall j | 0 <= j < n :: history[..n][j] == history[j];
      }
    }
  }

  // After any history an inserted domain gets the handler inserted last.
  lemma LatestInserted(history: seq<(Domain, Option<Handler>)>, i: nat)
    requires i < |history| && forall j | i < j < |history| :: history[j].0 != history[i].0
    ensures Lookup(Inserted(history), history[i].0) == history[i].1
  {
    var k := LatestEntry(history, history[i].0);
    ExactWins(Inserted(history), history[i].0);
  }

  // There are nodes for the table and on the way to a domain.
  ghost predicate Built(t: Table, keys: set<Domain>, path: Domain) {
    forall p :: p in keys <==> HasNode(t, p) || Above(p, path)
  }

  lemma BuiltStep(t: Table, keys: set<Domain>, path: Domain, x: string)
    requires Built(t, keys, path)
    ensures Built(t, keys + {Sub(path, x)}, Sub(path, x))
  {
  }

  // ---------- Listing the hosts ----------

  // The label that leads from a domain towards one below it.
  function NextLabel(p: Domain, q: Domain): string
    requires Above(p, q) && p != q
  {
    if q.parent == p then q.name else NextLabel(p, q.parent)
  }

  lemma AboveDeeper(p: Domain, q: Domain)
    requires Above(p, q)
    ensures Depth(p) <= Depth(q) && (Depth(p) == Depth(q) ==> p == q)
  {
  }

  lemma {:induction false} NextLabelMeans(p: Domain, q: Domain, x: string)
    ensures Above(Sub(p, x), q) <==> Above(p, q) && p != q && NextLabel(p, q) == x
  {
    if q.Sub? {
      if Above(p, q.parent) {
        AboveDeeper(p, q.parent);
      }
      if Above(Sub(p, x), q.parent) {
        AboveDeeper(Sub(p, x), q.parent);
      }
      NextLabelMeans(p, q.parent, x);
    }
  }

  // What is listed of the live domains: those below a domain and behind one of the labels.
  predicate Below(live: set<Domain>, path: Domain, done: set<string>, p: Domain) {
    p in live && Above(path, p) && (p == path || NextLabel(path, p) in done)
  }

  // The lines are the found domains as written.
  ghost predicate Lists(lines: seq<string>, found: seq<Domain>) {
    |lines| == |found| && forall i | 0 <= i < |lines| :: lines[i] == Written(found[i])
  }

  predicate Distinct<T(==)>(s: seq<T>) {
    forall i, j | 0 <= i < j < |s| :: s[i] != s[j]
  }

  lemma DistinctConcat<T>(a: seq<T>, b: seq<T>)
    requires Distinct(a) && Distinct(b) && forall x | x in b :: x !in a
    ensures Distinct(a + b)
  {
    forall i, j | 0 <= i < |a| && |a| <= j < |a + b| ensures (a + b)[i] != (a + b)[j] {
      assert (a + b)[j] == b[j - |a|] && b[j - |a|] in b;
    }
  }

  lemma AddBelow(live: set<Domain>, path: Domain, done: set<string>, part: string,
                 lines: seq<string>, found: seq<Domain>, more: seq<string>, below: seq<Domain>)
    requires part !in done && Lists(lines, found) && Lists(more, below) && Distinct(found) && Distinct(below)
    requires forall p :: p in found <==> Below(live, path, done, p)
    requires forall p :: p in below <==> Below(live, path, {part}, p) && p != path
    ensures Lists(lines + more, found + below) && Distinct(found + below)
    ensures forall p :: p in found + below <==> Below(live, path, done + {part}, p)
  {
    DistinctConcat(found, below);
  }

  lemma BehindChild(live: set<Domain>, path: Domain, part: string, p: Domain)
    ensures p in live && Above(Sub(path, part), p) <==> Below(live, path, {part}, p) && p != path
  {
    NextLabelMeans(path, p, part);
  }

  lemma {:induction false} DeepEnough(s: set<Domain>) returns (bound: nat)
    ensures forall p | p in s :: Depth(p) <= bound
  {
    if s == {} {
      bound := 0;
    } else {
      var p :| p in s;
      bound := DeepEnough(s - {p});
      if bound < Depth(p) {
        bound := Depth(p);
      }
    }
  }

  // ---------- The linked trie ----------

  class TrieNode {
    var children: map<string, TrieNode>
    var handler: Option<Handler>

    constructor ()
      ensures children == map[] && handler == None
    {
      children, handler := map[], None;
    }

    ghost function Child(x: string): TrieNode?
      reads this`children
    {
      if x in children then children[x] else null
    }
  }

  // `nodes` names every node of the trie by its domain.
  ghost predicate Linked(root: TrieNode, nodes: map<Domain, TrieNode>)
    reads nodes.Values`children
  {
    && Top in nodes && nodes[Top] == root
    && Named(nodes)
    && (forall p, x | p in nodes ::
          nodes[p].Child(x) == if Sub(p, x) in nodes then nodes[Sub(p, x)] else null)
  }

  // A node has one name, and a parent.
  ghost predicate Named(nodes: map<Domain, TrieNode>) {
    && (forall p, q | p in nodes && q in nodes && nodes[p] == nodes[q] :: p == q)
    && (forall p | p in nodes :: p.Sub? ==> p.parent in nodes)
  }

  lemma NamedExtended(nodes: map<Domain, TrieNode>, path: Domain, x: string, child: TrieNode)
    requires Named(nodes) && path in nodes && child !in nodes.Values
    ensures Named(nodes[Sub(path, x) := child])
  {
    assert forall p | p in nodes :: nodes[p] in nodes.Values;
  }

  lemma {:induction false} AbovePresent(root: TrieNode, nodes: map<Domain, TrieNode>, p: Domain, q: Domain)
    requires Linked(root, nodes) && q in nodes && Above(p, q)
    ensures p in nodes
  {
    if p != q {
      AbovePresent(root, nodes, p, q.parent);
    }
  }

  lemma ChildNode(root: TrieNode, nodes: map<Domain, TrieNode>, p: Domain, x: string)
    requires Linked(root, nodes) && p in nodes && x in nodes[p].children
    ensures Sub(p, x) in nodes && nodes[Sub(p, x)] == nodes[p].children[x]
  {
    assert nodes[p].Child(x) == if Sub(p, x) in nodes then nodes[Sub(p, x)] else null;
  }

  // The domains that a walk along the labels passes.
  ghost predicate Trail(tokens: seq<string>, trail: seq<Domain>) {
    && |trail| == |tokens| + 1 && trail[0] == Top
    && forall i | 0 <= i < |tokens| :: trail[i + 1] == Sub(trail[i], tokens[i])
  }

  ghost function Domains(tokens: seq<string>): (trail: seq<Domain>)
    ensures Trail(tokens, trail) && trail[|tokens|] == DomainOf(tokens, |tokens|)
  {
    seq(|tokens| + 1, i requires 0 <= i <= |tokens| => DomainOf(tokens, i))
  }

  class HostTrie {
    const root: TrieNode
    ghost var nodes: map<Domain, TrieNode>
    ghost var table: Table

    // The trie while an insertion has built the way to `path`.
    ghost predicate Walking(path: Domain)
      reads this, nodes.Values
    {
      && Linked(root, nodes) && path in nodes
      && Built(table, nodes.Keys, path)
      && (forall p | p in nodes :: nodes[p].handler == Entry(table, p))
    }

    ghost predicate Valid()
      reads this, nodes.Values
    {
      && Linked(root, nodes)
      && (forall p :: p in nodes <==> HasNode(table, p))
      && (forall p | p in nodes :: nodes[p].handler == Entry(table, p))
      && (forall p | p in table :: Plain(p))
    }

    constructor ()
      ensures Valid() && table == map[] && fresh(nodes.Values)
    {
      root := new TrieNode();
      new;
      nodes, table := map[Top := root], map[];
    }

    method Descend(ghost path: Domain, node: TrieNode, part: string) returns (child: TrieNode)
      requires Linked(root, nodes) && path in nodes && nodes[path] == node
      modifies this`nodes, node`children
      ensures Linked(root, nodes) && Sub(path, part) in nodes && nodes[Sub(path, part)] == child
      ensures Sub(path, part) in old(nodes) ==> nodes == old(nodes)
      ensures Sub(path, part) !in old(nodes) ==>
                fresh(child) && child.handler == None && nodes == old(nodes)[Sub(path, part) := child]
    {
      assert node.Child(part) == if Sub(path, part) in nodes then nodes[Sub(path, part)] else null;
      if part in node.children {
        child := node.children[part];
      } else {
        child := AddChild(path, node, part);
      }
    }

    method AddChild(ghost path: Domain, node: TrieNode, part: string) returns (child: TrieNode)
      requires Linked(root, nodes) && path in nodes && nodes[path] == node && Sub(path, part) !in nodes
      modifies this`nodes, node`children
      ensures Linked(root, nodes)
      ensures fresh(child) && child.handler == None && nodes == old(nodes)[Sub(path, part) := child]
    {
      child := new TrieNode();
      NamedExtended(nodes, path, part, child);
      node.children := node.children[part := child];
      ghost var more := nodes[Sub(path, part) := child];
      forall p, x | p in more ensures more[p].Child(x) == if Sub(p, x) in more then more[Sub(p, x)] else null {
        assert p in nodes && p != path ==> nodes[p] != node;
      }
      nodes := more;
    }

    method Advance(ghost path: Domain, node: TrieNode, part: string) returns (child: TrieNode)
      requires Walking(path) && nodes[path] == node
      modifies this`nodes, node`children
      ensures Walking(Sub(path, part)) && nodes[Sub(path, part)] == child
      ensures forall x | x in nodes.Values :: x in old(nodes.Values) || fresh(x)
    {
      if Sub(path, part) in table {
        EntryNode(table, Sub(path, part));
      }
      BuiltStep(table, nodes.Keys, path, part);
      child := Descend(path, node, part);
      assert nodes.Keys == old(nodes.Keys) + {Sub(path, part)};
    }

    // Builds the way that the labels name.
    method Walk(tokens: seq<string>, ghost trail: seq<Domain>) returns (node: TrieNode)
      requires Walking(Top) && Trail(tokens, trail)
      modifies this`nodes, nodes.Values
      ensures Walking(trail[|tokens|]) && nodes[trail[|tokens|]] == node
      ensures forall x | x in nodes.Values :: x in old(nodes.Values) || fresh(x)
    {
      var i := 0;
      node := root;
      while i < |tokens|
        invariant 0 <= i <= |tokens|
        invariant forall x | x in nodes.Values :: x in old(nodes.Values) || fresh(x)
        invariant Walking(trail[i]) && nodes[trail[i]] == node
      {
        node := Advance(trail[i], node, tokens[i]);
        i := i + 1;
      }
    }

    method SetHandler(ghost key: Domain, node: TrieNode, handler: Option<Handler>)
      requires Walking(key) && nodes[key] == node
      modifies node`handler
      ensures Linked(root, nodes)
      ensures forall p | p in nodes :: nodes[p].handler == Entry(table[key := handler], p)
    {
      node.handler := handler;
    }

    ghost method Record(key: Domain, handler: Option<Handler>)
      requires Linked(root, nodes) && Plain(key) && forall p | p in table :: Plain(p)
      requires Built(table, nodes.Keys, key)
      requires forall p | p in nodes :: nodes[p].handler == Entry(table[key := handler], p)
      modifies this`table
      ensures Valid() && table == old(table)[key := handler]
    {
      forall p ensures p in nodes <==> HasNode(table[key := handler], p) {
        InsertedNode(table, key, handler, p);
      }
      table := table[key := handler];
    }

    method Insert(tokens: seq<string>, handler: Option<Handler>)
      requires Valid() && Plain(DomainOf(tokens, |tokens|))
      modifies this, nodes.Values
      ensures Valid() && table == old(table)[DomainOf(tokens, |tokens|) := handler]
      ensures forall x | x in nodes.Values :: x in old(nodes.Values) || fresh(x)
    {
      ghost var trail := Domains(tokens);
      var node := Walk(tokens, trail);
      SetHandler(trail[|tokens|], node, handler);
      Record(trail[|tokens|], handler);
    }

    method InsertHost(host: string, handler: Option<Handler>)
      requires Valid()
      modifies this, nodes.Values
      ensures Valid() && table == old(table)[HostDomain(host) := handler]
      ensures forall x | x in nodes.Values :: x in old(nodes.Values) || fresh(x)
    {
      HostWritten(host);
      var tokens := ReverseAndTokenizeHost(host);
      Insert(tokens, handler);
    }

    method Contains(host: string) returns (handler: Option<Handler>)
      requires Valid()
      ensures handler == Lookup(table, HostDomain(host))
    {
      var tokens := ReverseAndTokenizeHost(host);
      handler := Find(tokens, Domains(tokens));
    }

    lemma StepMeaning(host: Domain, at: Domain, x: string)
      requires Valid() && Reached(table, host) == Some(at) && at in nodes
      ensures var children := nodes[at].children;
              var part := if x in children then x else "*";
              if part in children
              then
                && Reached(table, Sub(host, x)) == Some(Sub(at, part))
                && Sub(at, part) in nodes && nodes[Sub(at, part)] == children[part]
              else Reached(table, Sub(host, x)) == None
    {
      var node := nodes[at];
      assert node.Child(x) == if Sub(at, x) in nodes then nodes[Sub(at, x)] else null;
      assert node.Child("*") == if Sub(at, "*") in nodes then nodes[Sub(at, "*")] else null;
    }

    // The walk has arrived at the domain that answers for the host.
    lemma Arrived(host: Domain, at: Domain)
      requires Valid() && Reached(table, host) == Some(at) && at in nodes
      ensures Lookup(table, host) == nodes[at].handler
    {
    }

    // The empty walk finds nothing.
    lemma NothingAtTop()
      requires Valid()
      ensures Lookup(table, Top) == None
    {
      assert !Plain(Top);
    }

    method Find(tokens: seq<string>, ghost trail: seq<Domain>) returns (handler: Option<Handler>)
      requires Valid() && Trail(tokens, trail)
      ensures handler == Lookup(table, trail[|tokens|])
    {
      var node, i := root, 0;
      ghost var at := Top;
      NothingAtTop();
      while i < |tokens|
        invariant 0 <= i <= |tokens| && (i == |tokens| ==> |tokens| == 0)
        invariant Reached(table, trail[i]) == Some(at)
        invariant at in nodes && nodes[at] == node
      {
        StepMeaning(trail[i], at, tokens[i]);
        var part := if tokens[i] in node.children then tokens[i] else "*";
        if part !in node.children {
          Stuck(table, tokens, trail, i + 1, |tokens|);
          return None;
        }
        node, at := node.children[part], Sub(at, part);
        if i == |tokens| - 1 {
          Arrived(trail[i + 1], at);
          return node.handler;
        }
        i := i + 1;
      }
      return None;
    }

    // The live domains are those with a handler.
    ghost predicate Live(live: set<Domain>)
      reads this, nodes.Values
    {
      && Linked(root, nodes)
      && (forall p :: p in live <==> p in nodes && nodes[p].handler.Some?)
    }

    // The live hosts below a node, depth first.
    method Collect(ghost path: Domain, tokens: seq<string>, node: TrieNode, ghost live: set<Domain>, ghost bound: nat)
      returns (lines: seq<string>, ghost found: seq<Domain>)
      requires Live(live) && path in nodes && nodes[path] == node && Labels(path) == Reversed(tokens)
      requires forall p | p in nodes :: Depth(p) <= bound
      ensures Lists(lines, found) && Distinct(found)
      ensures forall p :: p in found <==> p in live && Above(path, p)
      decreases bound - Depth(path)
    {
      lines, found := Own(path, tokens, node, live);
      var left := node.children.Keys;
      ghost var done: set<string> := {};
      while left != {}
        invariant left <= node.children.Keys && done == node.children.Keys - left
        invariant Lists(lines, found) && Distinct(found)
        invariant forall p :: p in found <==> Below(live, path, done, p)
        decreases left
      {
        var part :| part in left;
        left := left - {part};
        var more, below := Visit(path, tokens, node, part, live, bound);
        AddBelow(live, path, done, part, lines, found, more, below);
        lines, found, done := lines + more, found + below, done + {part};
      }
      assert done == node.children.Keys;
      AllBelow(live, path, done);
    }

    // The host of the node itself, if it is live.
    method Own(ghost path: Domain, tokens: seq<string>, node: TrieNode, ghost live: set<Domain>)
      returns (lines: seq<string>, ghost found: seq<Domain>)
      requires Live(live) && path in nodes && nodes[path] == node && Labels(path) == Reversed(tokens)
      ensures Lists(lines, found) && Distinct(found)
      ensures forall p :: p in found <==> Below(live, path, {}, p)
    {
      lines, found := [], [];
      if node.handler.Some? {
        lines, found := [Join(Reversed(tokens), '.')], [path];
      }
    }

    // Every live domain below a node lies behind one of its children.
    lemma AllBelow(live: set<Domain>, path: Domain, done: set<string>)
      requires Live(live) && path in nodes && done == nodes[path].children.Keys
      ensures forall p | p in live && Above(path, p) :: Below(live, path, done, p)
    {
      forall p | p in live && Above(path, p) && p != path ensures NextLabel(path, p) in done {
        var x := NextLabel(path, p);
        NextLabelMeans(path, p, x);
        AbovePresent(root, nodes, Sub(path, x), p);
        assert nodes[path].Child(x) == nodes[Sub(path, x)];
      }
    }

    method Visit(ghost path: Domain, tokens: seq<string>, node: TrieNode, part: string, ghost live: set<Domain>,
                 ghost bound: nat)
      returns (lines: seq<string>, ghost found: seq<Domain>)
      requires Live(live) && path in nodes && nodes[path] == node && Labels(path) == Reversed(tokens)
      requires part in node.children && forall p | p in nodes :: Depth(p) <= bound
      ensures Lists(lines, found) && Distinct(found)
      ensures forall p :: p in found <==> Below(live, path, {part}, p) && p != path
      decreases bound - Depth(path), 0
    {
      ChildNode(root, nodes, path, part);
      ReversedSnoc(tokens, part);
      lines, found := Collect(Sub(path, part), tokens + [part], node.children[part], live, bound);
      forall p ensures p in found <==> Below(live, path, {part}, p) && p != path {
        BehindChild(live, path, part, p);
      }
    }

    // Lists every host that has a handler exactly once, in normal form.
    method GetAllHosts() returns (lines: seq<string>)
      requires Valid()
      ensures Distinct(lines)
      ensures forall line :: line in lines <==> exists p :: p in table && table[p].Some? && Written(p) == line
    {
      ghost var bound := DeepEnough(nodes.Keys);
      ghost var live := set p | p in nodes && nodes[p].handler.Some?;
      ghost var found;
      lines, found := Collect(Top, [], root, live, bound);
      TableLines(live, lines, found);
    }

    lemma TableLines(live: set<Domain>, lines: seq<string>, found: seq<Domain>)
      requires Valid() && Live(live) && Lists(lines, found) && Distinct(found)
      requires forall p :: p in found <==> p in live && Above(Top, p)
      ensures Distinct(lines)
      ensures forall line :: line in lines <==> exists p :: p in table && table[p].Some? && Written(p) == line
    {
      forall p ensures p in found <==> p in table && table[p].Some? {
        TopAbove(p);
        if p in table { EntryNode(table, p); }
      }
      WrittenLines(lines, found);
    }

    method HasAnyEntry() returns (any: bool)
      requires Valid()
      ensures any <==> table != map[]
    {
      any := root.children != map[];
      if table != map[] {
        var k :| k in table;
        var x := TopLabel(k);
        assert Sub(Top, x) in nodes && root.Child(x) == nodes[Sub(Top, x)];
      } else {
        forall x ensures x !in root.children {
          assert root.Child(x) == if Sub(Top, x) in nodes then nodes[Sub(Top, x)] else null;
        }
      }
    }
  }

  lemma TopAbove(p: Domain)
    ensures Above(Top, p)
  {
  }

  lemma WrittenLines(lines: seq<string>, found: seq<Domain>)
    requires Lists(lines, found) && Distinct(found) && forall p | p in found :: Plain(p)
    ensures Distinct(lines)
    ensures forall line :: line in lines <==> exists p :: p in found && Written(p) == line
  {
    forall i, j | 0 <= i < j < |lines| ensures lines[i] != lines[j] {
      if lines[i] == lines[j] {
        WrittenInjective(found[i], found[j]);
      }
    }
  }

  lemma TopLabel(p: Domain) returns (x: string)
    requires p.Sub?
    ensures Above(Sub(Top, x), p)
  {
    if p.parent.Top? {
      x := p.name;
    } else {
      x := TopLabel(p.parent);
    }
  }

  // Once the walk has no way on it stays so.
  lemma {:induction false} Stuck(t: Table, tokens: seq<string>, trail: seq<Domain>, i: nat, n: nat)
    requires Trail(tokens, trail) && i <= n <= |tokens| && Reached(t, trail[i]) == None
    ensures Reached(t, trail[n]) == None
  {
    if i < n {
      Stuck(t, tokens, trail, i, n - 1);
    }
  }
}
