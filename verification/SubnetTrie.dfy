/**
 A binary trie of address prefixes.  Insertion stops at a broader prefix that is
 already present and cuts off everything below a new one, so that only the
 broadest inserted prefixes remain.
 */
module SubnetTrie {
  import opened Bytes

  // A bit string, as the way from the root of the trie.
  datatype Path = Root | Step(parent: Path, bit: bool)

  predicate Prefix(p: Path, q: Path) {
    p == q || (q.Step? && Prefix(p, q.parent))
  }

  function PathOf(bits: seq<bool>, n: nat): Path
    requires n <= |bits|
  {
    if n == 0 then Root else Step(PathOf(bits, n - 1), bits[n - 1])
  }

  function Length(p: Path): nat {
    if p.Root? then 0 else 1 + Length(p.parent)
  }

  lemma PrefixTransitive(p: Path, q: Path, r: Path)
    requires Prefix(p, q) && Prefix(q, r)
    ensures Prefix(p, r)
  {
  }

  lemma PrefixShorter(p: Path, q: Path)
    requires Prefix(p, q)
    ensures Length(p) <= Length(q) && (Length(p) == Length(q) ==> p == q)
  {
  }

  lemma PrefixAntisymmetric(p: Path, q: Path)
    requires Prefix(p, q) && Prefix(q, p)
    ensures p == q
  {
    PrefixShorter(p, q);
    PrefixShorter(q, p);
  }

  lemma PrefixComparable(p: Path, q: Path, m: Path)
    requires Prefix(p, m) && Prefix(q, m)
    ensures Prefix(p, q) || Prefix(q, p)
  {
  }

  lemma RootPrefix(p: Path)
    ensures Prefix(Root, p)
  {
  }

  // The prefixes of a path of bits are its initial segments.
  lemma {:induction false} PrefixOfBits(bits: seq<bool>, n: nat, q: Path)
    requires n <= |bits|
    ensures Prefix(q, PathOf(bits, n)) <==> Length(q) <= n && q == PathOf(bits, Length(q))
    ensures Length(PathOf(bits, n)) == n
  {
    if n > 0 {
      PrefixOfBits(bits, n - 1, q);
      if q == PathOf(bits, n) {
        PrefixOfBits(bits, n - 1, q.parent);
      }
    }
  }

  lemma InitialSegment(bits: seq<bool>, i: nat, n: nat)
    requires i <= n <= |bits|
    ensures Prefix(PathOf(bits, i), PathOf(bits, n))
  {
    PrefixOfBits(bits, n, PathOf(bits, i));
    PrefixOfBits(bits, i, Root);
  }

  // ---------- The abstract trie ----------

  // A prefix of the set that no shorter prefix of the set covers.
  ghost predicate Broadest(s: set<Path>, p: Path) {
    p in s && forall q | q in s && Prefix(q, p) :: q == p
  }

  // The paths at which the trie of a set of prefixes has a node.
  ghost predicate HasNode(s: set<Path>, p: Path) {
    p == Root || exists m :: Broadest(s, m) && Prefix(p, m)
  }

  ghost predicate Covers(s: set<Path>, address: Path) {
    exists p :: p in s && Prefix(p, address)
  }

  lemma {:induction false} BroadestBelow(s: set<Path>, p: Path) returns (m: Path)
    requires p in s
    ensures Broadest(s, m) && Prefix(m, p)
    decreases Length(p)
  {
    if Broadest(s, p) {
      m := p;
    } else {
      var q :| q in s && Prefix(q, p) && q != p;
      PrefixShorter(q, p);
      m := BroadestBelow(s, q);
      PrefixTransitive(m, q, p);
    }
  }

  // Adding a covered prefix changes nothing.
  lemma CoveredPrefix(s: set<Path>, p: Path, m: Path, q: Path)
    requires Broadest(s, m) && Prefix(m, p)
    ensures Broadest(s + {p}, q) <==> Broadest(s, q)
  {
    if Broadest(s, q) && Prefix(p, q) {
      PrefixTransitive(m, p, q);
      PrefixAntisymmetric(p, q);
    }
  }

  lemma CoveredShape(s: set<Path>, p: Path, m: Path, q: Path)
    requires Broadest(s, m) && Prefix(m, p)
    ensures HasNode(s + {p}, q) <==> HasNode(s, q)
  {
    forall x ensures Broadest(s + {p}, x) <==> Broadest(s, x) {
      CoveredPrefix(s, p, m, x);
    }
  }

  // Adding an uncovered prefix replaces the prefixes below it.
  lemma UncoveredPrefix(s: set<Path>, p: Path, q: Path)
    requires !Covers(s, p)
    ensures Broadest(s + {p}, q) <==> q == p || (Broadest(s, q) && !Prefix(p, q))
  {
  }

  lemma UncoveredShape(s: set<Path>, key: Path, p: Path)
    requires !Covers(s, key)
    ensures HasNode(s + {key}, p) <==> Prefix(p, key) || (HasNode(s, p) && !Prefix(key, p))
  {
    UncoveredPrefix(s, key, key);
    RootPrefix(key);
    if HasNode(s, p) && p != Root && !Prefix(key, p) {
      var m :| Broadest(s, m) && Prefix(p, m);
      if Prefix(key, m) {
        PrefixComparable(p, key, m);
      }
      UncoveredPrefix(s, key, m);
    }
    if HasNode(s + {key}, p) && p != Root {
      var m :| Broadest(s + {key}, m) && Prefix(p, m);
      UncoveredPrefix(s, key, m);
      if Prefix(key, p) {
        PrefixTransitive(key, p, m);
      }
    }
  }

  // Every prefix of the set that covers the address is longer than `i` bits.
  ghost predicate NoneWithin(s: set<Path>, all: seq<bool>, i: nat) {
    forall p | p in s && Prefix(p, PathOf(all, |all|)) :: Length(p) > i
  }

  lemma NoEmptyPrefix(s: set<Path>, all: seq<bool>)
    requires Root !in s
    ensures NoneWithin(s, all, 0)
  {
  }

  lemma NothingBelow(s: set<Path>, all: seq<bool>, i: nat)
    requires i < |all| && NoneWithin(s, all, i) && !HasNode(s, PathOf(all, i + 1))
    ensures !Covers(s, PathOf(all, |all|))
  {
    var address := PathOf(all, |all|);
    if Covers(s, address) {
      var p :| p in s && Prefix(p, address);
      var m := BroadestBelow(s, p);
      PrefixTransitive(m, p, address);
      PrefixOfBits(all, |all|, m);
      PrefixOfBits(all, Length(m), PathOf(all, i + 1));
      PrefixOfBits(all, i + 1, Root);
    }
  }

  lemma CoveredHere(s: set<Path>, all: seq<bool>, i: nat)
    requires i <= |all| && PathOf(all, i) in s
    ensures Covers(s, PathOf(all, |all|))
  {
    InitialSegment(all, i, |all|);
  }

  lemma PassedBy(s: set<Path>, all: seq<bool>, i: nat)
    requires i < |all| && NoneWithin(s, all, i) && !Broadest(s, PathOf(all, i + 1))
    ensures NoneWithin(s, all, i + 1)
  {
    var address := PathOf(all, |all|);
    forall p | p in s && Prefix(p, address) ensures Length(p) > i + 1 {
      PrefixOfBits(all, |all|, p);
      if Length(p) == i + 1 {
        var m := BroadestBelow(s, p);
        PrefixTransitive(m, p, address);
        PrefixShorter(m, p);
      }
    }
  }

  lemma NoneLeft(s: set<Path>, all: seq<bool>)
    requires NoneWithin(s, all, |all|)
    ensures !Covers(s, PathOf(all, |all|))
  {
    forall p | p in s ensures !Prefix(p, PathOf(all, |all|)) {
      PrefixOfBits(all, |all|, p);
    }
  }

  // ---------- The linked trie ----------

  class TrieNode {
    var zero: TrieNode?
    var one: TrieNode?
    var terminal: bool

    constructor ()
      ensures zero == null && one == null && !terminal
    {
      zero, one, terminal := null, null, false;
    }

    function Child(b: bool): TrieNode?
      reads this
    {
      if b then one else zero
    }
  }

  // `nodes` names every node of the trie by the path that leads to it.
  ghost predicate Linked(root: TrieNode, nodes: map<Path, TrieNode>)
    reads nodes.Values
  {
    && Root in nodes && nodes[Root] == root
    && (forall p, q | p in nodes && q in nodes && nodes[p] == nodes[q] :: p == q)
    && (forall p | p in nodes :: p.Step? ==> p.parent in nodes)
    && (forall p, b | p in nodes ::
          nodes[p].Child(b) == if Step(p, b) in nodes then nodes[Step(p, b)] else null)
  }

  class BitTrie {
    const root: TrieNode
    ghost var nodes: map<Path, TrieNode>
    // The prefixes inserted since the last insertion of the empty one.
    ghost var prefixes: set<Path>

    ghost predicate Valid()
      reads this, nodes.Values
    {
      && Linked(root, nodes)
      && Root !in prefixes
      && (forall p :: p in nodes <==> HasNode(prefixes, p))
      && (forall p | p in nodes && p != Root :: nodes[p].terminal <==> Broadest(prefixes, p))
    }

    constructor ()
      ensures Valid() && prefixes == {} && fresh(nodes.Values)
    {
      root := new TrieNode();
      new;
      nodes, prefixes := map[Root := root], {};
    }

    // The child for a bit, created when it is missing.
    method Descend(ghost path: Path, node: TrieNode, b: bool) returns (child: TrieNode)
      requires Linked(root, nodes) && path in nodes && nodes[path] == node
      modifies this`nodes, node
      ensures Linked(root, nodes) && Step(path, b) in nodes && nodes[Step(path, b)] == child
      ensures node.terminal == old(node.terminal)
      ensures Step(path, b) in old(nodes) ==> nodes == old(nodes)
      ensures Step(path, b) !in old(nodes) ==>
                fresh(child) && !child.terminal && nodes == old(nodes)[Step(path, b) := child]
    {
      if node.Child(b) == null {
        child := new TrieNode();
        if b {
          node.one := child;
        } else {
          node.zero := child;
        }
        nodes := nodes[Step(path, b) := child];
      } else {
        child := node.Child(b);
      }
    }

    // Marks a node and cuts off everything below it.
    method Seal(ghost path: Path, node: TrieNode)
      requires Linked(root, nodes) && path in nodes && nodes[path] == node
      modifies this`nodes, node
      ensures Linked(root, nodes) && node.terminal
      ensures nodes == map p | p in old(nodes) && (Prefix(path, p) ==> p == path) :: old(nodes)[p]
    {
      ghost var kept := map p | p in nodes && (Prefix(path, p) ==> p == path) :: nodes[p];
      node.terminal := true;
      node.zero, node.one := null, null;
      assert Root in kept by {
        RootPrefix(path);
        if Prefix(path, Root) { PrefixAntisymmetric(path, Root); }
      }
      forall p | p in kept && p.Step? ensures p.parent in kept {
        if p == path && Prefix(path, path.parent) { PrefixShorter(path, path.parent); }
      }
      forall b ensures Prefix(path, Step(path, b)) && Step(path, b) != path {
        assert Length(Step(path, b)) == Length(path) + 1 && Prefix(path, path);
      }
      nodes := kept;
    }

    // The trie while an insertion has walked down to `path`, creating nodes.
    ghost predicate Walking(path: Path)
      reads this, nodes.Values
    {
      && Linked(root, nodes) && Root !in prefixes && path in nodes
      && (forall p :: p in nodes <==> HasNode(prefixes, p) || Prefix(p, path))
      && (forall p | p in nodes && p != Root :: nodes[p].terminal <==> Broadest(prefixes, p))
    }

    method Advance(ghost path: Path, node: TrieNode, b: bool) returns (child: TrieNode)
      requires Walking(path) && nodes[path] == node
      modifies this`nodes, node
      ensures Walking(Step(path, b)) && nodes[Step(path, b)] == child
      ensures child.terminal <==> Broadest(prefixes, Step(path, b))
      ensures forall x | x in nodes.Values :: x in old(nodes.Values) || fresh(x)
    {
      child := Descend(path, node, b);
      assert !HasNode(prefixes, Step(path, b)) ==> !Broadest(prefixes, Step(path, b)) by {
        assert Prefix(Step(path, b), Step(path, b));
      }
    }

    // A broader prefix is already there.
    ghost method KeepCovered(key: Path, m: Path)
      requires Walking(m) && Broadest(prefixes, m) && Prefix(m, key)
      modifies this`prefixes
      ensures Valid() && prefixes == old(prefixes) + {key} && nodes == old(nodes)
    {
      assert key != Root by { if key == Root { PrefixAntisymmetric(m, Root) by { RootPrefix(m); } } }
      forall p ensures HasNode(prefixes + {key}, p) <==> HasNode(prefixes, p) {
        CoveredShape(prefixes, key, m, p);
      }
      forall p ensures Broadest(prefixes + {key}, p) <==> Broadest(prefixes, p) {
        CoveredPrefix(prefixes, key, m, p);
      }
      prefixes := prefixes + {key};
    }

    // The walk has built the way to a prefix that nothing covers.
    method Finish(ghost key: Path, node: TrieNode)
      requires Walking(key) && nodes[key] == node
      requires forall p | p != Root && Prefix(p, key) :: !Broadest(prefixes, p)
      modifies this, node
      ensures Valid() && nodes.Values <= old(nodes.Values)
      ensures prefixes == if key == Root then {} else old(prefixes) + {key}
    {
      assert !Covers(prefixes, key) by {
        if Covers(prefixes, key) {
          var q :| q in prefixes && Prefix(q, key);
          var m := BroadestBelow(prefixes, q);
          PrefixTransitive(m, q, key);
        }
      }
      Seal(key, node);
      if key == Root {
        forall p ensures p in nodes <==> p == Root {
          RootPrefix(p);
        }
        prefixes := {};
      } else {
        forall p
          ensures HasNode(prefixes + {key}, p) <==> Prefix(p, key) || (HasNode(prefixes, p) && !Prefix(key, p))
          ensures Broadest(prefixes + {key}, p) <==> p == key || (Broadest(prefixes, p) && !Prefix(key, p))
          ensures Prefix(p, key) && Prefix(key, p) ==> p == key
        {
          UncoveredShape(prefixes, key, p);
          UncoveredPrefix(prefixes, key, p);
          if Prefix(p, key) && Prefix(key, p) { PrefixAntisymmetric(p, key); }
        }
        prefixes := prefixes + {key};
      }
    }

    // Walks down the first `n` bits, creating nodes, but no further than a prefix
    // that is already there.
    method Walk(all: seq<bool>, n: nat) returns (node: TrieNode, i: nat, covered: bool)
      requires Walking(Root) && n <= |all|
      modifies this`nodes, nodes.Values
      ensures i <= n && Walking(PathOf(all, i)) && nodes[PathOf(all, i)] == node
      ensures covered ==> Broadest(prefixes, PathOf(all, i))
      ensures !covered ==> i == n && forall p | p != Root && Prefix(p, PathOf(all, n)) :: !Broadest(prefixes, p)
      ensures forall x | x in nodes.Values :: x in old(nodes.Values) || fresh(x)
    {
      node, i := root, 0;
      while i < n
        invariant 0 <= i <= n
        invariant forall x | x in nodes.Values :: x in old(nodes.Values) || fresh(x)
        invariant Walking(PathOf(all, i)) && nodes[PathOf(all, i)] == node
        invariant forall p | p != Root && Prefix(p, PathOf(all, i)) :: !Broadest(prefixes, p)
      {
        node := Advance(PathOf(all, i), node, all[i]);
        i := i + 1;
        if node.terminal {
          return node, i, true;
        }
      }
      covered := false;
    }

    // Inserts the prefix that consists of the first `n` bits of an address.
    method Insert(all: seq<bool>, n: nat)
      requires Valid() && n <= |all|
      modifies this, nodes.Values
      ensures Valid() && forall x | x in nodes.Values :: x in old(nodes.Values) || fresh(x)
      ensures prefixes == if n == 0 then {} else old(prefixes) + {PathOf(all, n)}
    {
      assert forall p :: Prefix(p, Root) ==> p == Root;
      var node, i, covered := Walk(all, n);
      if covered {
        InitialSegment(all, i, n);
        KeepCovered(PathOf(all, n), PathOf(all, i));
      } else {
        Finish(PathOf(all, n), node);
      }
    }

    lemma ChildMeaning(path: Path, b: bool)
      requires Valid() && path in nodes
      ensures var child := nodes[path].Child(b);
              if child == null then !HasNode(prefixes, Step(path, b))
              else Step(path, b) in nodes && nodes[Step(path, b)] == child
                   && (child.terminal <==> Broadest(prefixes, Step(path, b)))
    {
    }

    lemma StepMeaning(all: seq<bool>, i: nat)
      requires Valid() && i < |all| && PathOf(all, i) in nodes && NoneWithin(prefixes, all, i)
      ensures var child := nodes[PathOf(all, i)].Child(all[i]);
              if child == null then !Covers(prefixes, PathOf(all, |all|))
              else if child.terminal then Covers(prefixes, PathOf(all, |all|))
              else PathOf(all, i + 1) in nodes && nodes[PathOf(all, i + 1)] == child && NoneWithin(prefixes, all, i + 1)
    {
      var child := nodes[PathOf(all, i)].Child(all[i]);
      ChildMeaning(PathOf(all, i), all[i]);
      if child == null {
        NothingBelow(prefixes, all, i);
      } else if child.terminal {
        CoveredHere(prefixes, all, i + 1);
      } else {
        PassedBy(prefixes, all, i);
      }
    }

    // Whether some inserted prefix agrees with the address on its leading bits.
    method Contains(all: seq<bool>) returns (found: bool)
      requires Valid()
      ensures found <==> Covers(prefixes, PathOf(all, |all|))
    {
      var node, i := root, 0;
      assert NoneWithin(prefixes, all, 0) by { NoEmptyPrefix(prefixes, all); }
      while i < |all|
        invariant 0 <= i <= |all|
        invariant PathOf(all, i) in nodes && nodes[PathOf(all, i)] == node
        invariant NoneWithin(prefixes, all, i)
      {
        var child := node.Child(all[i]);
        StepMeaning(all, i);
        if child == null {
          return false;
        }
        if child.terminal {
          return true;
        }
        node, i := child, i + 1;
      }
      NoneLeft(prefixes, all);
      return false;
    }

    method IsEmpty() returns (empty: bool)
      requires Valid()
      ensures empty <==> prefixes == {}
    {
      empty := root.zero == null && root.one == null;
      if prefixes != {} {
        var p :| p in prefixes;
        var m := BroadestBelow(prefixes, p);
        FirstStep(m);
      } else {
        assert root.zero == root.Child(false) && root.one == root.Child(true);
      }
    }
  }

  lemma FirstStep(m: Path)
    requires m != Root
    ensures exists b :: Prefix(Step(Root, b), m)
  {
    if m.parent != Root {
      FirstStep(m.parent);
      var b :| Prefix(Step(Root, b), m.parent);
      assert Prefix(Step(Root, b), m);
    } else {
      assert Prefix(Step(Root, m.bit), m);
    }
  }

  // ---------- Addresses and prefixes ----------

  datatype Address = V4(raw: seq<byte>) | V6(raw: seq<byte>) {
    predicate Valid() {
      |raw| == if V4? then 4 else 16
    }
  }

  datatype Cidr = Cidr(addr: Address, bits: nat) {
    predicate Valid() {
      addr.Valid() && bits <= 8 * |addr.raw|
    }
  }

  function Key(c: Cidr): Path
    requires c.Valid()
  {
    PathOf(Bits(c.addr.raw), c.bits)
  }

  ghost predicate AllValid(history: seq<Cidr>) {
    forall i | 0 <= i < |history| :: history[i].Valid()
  }

  // The prefixes that count, by address family.
  datatype Families = Families(v4: set<Path>, v6: set<Path>) {
    function Of(addr: Address): set<Path> {
      if addr.V4? then v4 else v6
    }
  }

  // Inserting a prefix of length 0 empties the trie of its family.
  function Inserted(f: Families, c: Cidr): Families
    requires c.Valid()
  {
    var s := if c.bits == 0 then {} else f.Of(c.addr) + {Key(c)};
    if c.addr.V4? then f.(v4 := s) else f.(v6 := s)
  }

  function AfterHistory(history: seq<Cidr>): Families
    requires AllValid(history)
  {
    if history == [] then Families({}, {})
    else Inserted(AfterHistory(history[..|history| - 1]), history[|history| - 1])
  }

  // Inserting into the trie of one family leaves that of the other alone.
  method InsertBeside(t: BitTrie, other: BitTrie, bits: seq<bool>, n: nat)
    requires t.Valid() && other.Valid() && t != other && t.nodes.Values !! other.nodes.Values && n <= |bits|
    modifies t, t.nodes.Values
    ensures t.Valid() && other.Valid() && t.nodes.Values !! other.nodes.Values
    ensures t.prefixes == if n == 0 then {} else old(t.prefixes) + {PathOf(bits, n)}
    ensures other.prefixes == old(other.prefixes) && other.nodes == old(other.nodes)
    ensures forall x | x in t.nodes.Values :: x in old(t.nodes.Values) || fresh(x)
  {
    t.Insert(bits, n);
  }

  class SubnetTrie {
    const v4: BitTrie
    const v6: BitTrie

    ghost predicate Valid()
      reads v4, v6, v4.nodes.Values, v6.nodes.Values
    {
      v4.Valid() && v6.Valid() && v4 != v6 && v4.nodes.Values !! v6.nodes.Values
    }

    ghost function State(): Families
      reads v4, v6
    {
      Families(v4.prefixes, v6.prefixes)
    }

    constructor ()
      ensures Valid() && State() == AfterHistory([])
      ensures fresh(v4) && fresh(v6) && fresh(v4.nodes.Values) && fresh(v6.nodes.Values)
    {
      v4 := new BitTrie();
      v6 := new BitTrie();
    }

    method Insert(c: Cidr)
      requires Valid() && c.Valid()
      modifies v4, v6, v4.nodes.Values, v6.nodes.Values
      ensures Valid() && State() == Inserted(old(State()), c)
      ensures forall x | x in v4.nodes.Values :: x in old(v4.nodes.Values) || fresh(x)
      ensures forall x | x in v6.nodes.Values :: x in old(v6.nodes.Values) || fresh(x)
    {
      var bits := Bits(c.addr.raw);
      if c.addr.V4? {
        InsertBeside(v4, v6, bits, c.bits);
      } else {
        InsertBeside(v6, v4, bits, c.bits);
      }
    }

    method InsertIP(addr: Address)
      requires Valid() && addr.Valid()
      modifies v4, v6, v4.nodes.Values, v6.nodes.Values
      ensures Valid() && State() == Inserted(old(State()), Cidr(addr, 8 * |addr.raw|))
      ensures forall x | x in v4.nodes.Values :: x in old(v4.nodes.Values) || fresh(x)
      ensures forall x | x in v6.nodes.Values :: x in old(v6.nodes.Values) || fresh(x)
    {
      Insert(Cidr(addr, if addr.V6? then 128 else 32));
    }

    method Contains(addr: Address) returns (found: bool)
      requires Valid() && addr.Valid()
      ensures found <==> Contained(State(), addr)
    {
      var bits := Bits(addr.raw);
      if addr.V4? {
        found := v4.Contains(bits);
      } else {
        found := v6.Contains(bits);
      }
    }

    method IsEmpty() returns (empty: bool)
      requires Valid()
      ensures empty <==> State() == AfterHistory([])
    {
      var e4 := v4.IsEmpty();
      var e6 := v6.IsEmpty();
      empty := e4 && e6;
    }
  }

  ghost predicate Contained(f: Families, addr: Address) {
    Covers(f.Of(addr), PathOf(Bits(addr.raw), 8 * |addr.raw|))
  }

  // A prefix matches an address when the two numbers agree on their leading bits
  // (section 3.1 of RFC 4632).
  predicate Matches(c: Cidr, addr: Address)
    requires c.Valid() && addr.Valid()
  {
    && c.addr.V6? == addr.V6?
    && var low := Pow2(8 * |addr.raw| - c.bits); BigEndian(c.addr.raw) / low == BigEndian(addr.raw) / low
  }

  lemma {:induction false} PathsAgree(a: seq<bool>, b: seq<bool>, n: nat)
    requires n <= |a| && n <= |b|
    ensures PathOf(a, n) == PathOf(b, n) <==> a[..n] == b[..n]
  {
    if n > 0 {
      PathsAgree(a, b, n - 1);
      assert a[..n] == a[..n - 1] + [a[n - 1]] && b[..n] == b[..n - 1] + [b[n - 1]];
    }
  }

  lemma AgreeNumerically(a: seq<bool>, b: seq<bool>, n: nat)
    requires |a| == |b| && n <= |a|
    ensures a[..n] == b[..n] <==> Number(a) / Pow2(|a| - n) == Number(b) / Pow2(|a| - n)
  {
    NumberTake(a, n);
    NumberTake(b, n);
    if Number(a[..n]) == Number(b[..n]) {
      NumberInjective(a[..n], b[..n]);
    }
  }

  // Agreement on the walk down the trie is agreement of the numbers.
  lemma KeyMatches(c: Cidr, addr: Address)
    requires c.Valid() && addr.Valid() && c.addr.V6? == addr.V6?
    ensures Prefix(Key(c), PathOf(Bits(addr.raw), 8 * |addr.raw|)) <==> Matches(c, addr)
  {
    var a, b, n := Bits(c.addr.raw), Bits(addr.raw), c.bits;
    PrefixOfBits(b, |b|, Key(c));
    PrefixOfBits(a, n, Root);
    PathsAgree(a, b, n);
    AgreeNumerically(a, b, n);
    BitsDenote(c.addr.raw);
    BitsDenote(addr.raw);
  }

  // Insertion `i` still counts: it is not empty and no empty prefix of its family
  // was inserted later.
  ghost predicate Effective(history: seq<Cidr>, i: nat) {
    && i < |history| && history[i].bits > 0
    && forall j | i < j < |history| && history[j].addr.V6? == history[i].addr.V6? :: history[j].bits > 0
  }

  lemma {:induction false} CountsOnly(history: seq<Cidr>, addr: Address, p: Path) returns (i: nat)
    requires AllValid(history) && p in AfterHistory(history).Of(addr)
    ensures Effective(history, i) && history[i].addr.V6? == addr.V6? && Key(history[i]) == p
  {
    var n := |history| - 1;
    if history[n].addr.V6? == addr.V6? && Key(history[n]) == p {
      i := n;
    } else {
      i := CountsOnly(history[..n], addr, p);
    }
  }

  lemma {:induction false} CountsAll(history: seq<Cidr>, i: nat)
    requires AllValid(history) && Effective(history, i)
    ensures Key(history[i]) in AfterHistory(history).Of(history[i].addr)
  {
    var n := |history| - 1;
    if i < n {
      assert Effective(history[..n], i);
      CountsAll(history[..n], i);
    }
  }

  // After any history of insertions, an address is contained if and only if a prefix
  // that still counts matches it.
  lemma ContainedExactly(history: seq<Cidr>, addr: Address)
    requires AllValid(history) && addr.Valid()
    ensures Contained(AfterHistory(history), addr)
            <==> exists i: nat :: Effective(history, i) && Matches(history[i], addr)
  {
    if Contained(AfterHistory(history), addr) {
      var p :| p in AfterHistory(history).Of(addr) && Prefix(p, PathOf(Bits(addr.raw), 8 * |addr.raw|));
      var i := CountsOnly(history, addr, p);
      KeyMatches(history[i], addr);
    }
    if i: nat :| Effective(history, i) && Matches(history[i], addr) {
      KeyMatches(history[i], addr);
      CountsAll(history, i);
    }
  }

  // With prefixes of length at least 1 every inserted prefix counts.
  lemma ContainedPlainly(history: seq<Cidr>, addr: Address)
    requires AllValid(history) && addr.Valid() && forall i | 0 <= i < |history| :: history[i].bits > 0
    ensures Contained(AfterHistory(history), addr) <==> exists i: nat :: i < |history| && Matches(history[i], addr)
    ensures AfterHistory(history) == AfterHistory([]) <==> history == []
  {
    ContainedExactly(history, addr);
    assert forall i: nat | i < |history| :: Effective(history, i);
    if history != [] {
      CountsAll(history, 0);
    }
  }

  // The set of prefixes, hence the trie, does not depend on the order of insertion.
  lemma OrderIrrelevant(a: seq<Cidr>, b: seq<Cidr>)
    requires AllValid(a) && AllValid(b)
    requires forall i | 0 <= i < |a| :: a[i].bits > 0
    requires forall c :: c in a <==> c in b
    ensures AfterHistory(a) == AfterHistory(b)
  {
    forall i | 0 <= i < |b| ensures b[i].bits > 0 {
      assert b[i] in a;
    }
    forall addr: Address, p ensures p in AfterHistory(a).Of(addr) <==> p in AfterHistory(b).Of(addr) {
      if p in AfterHistory(a).Of(addr) { Counted(a, b, addr, p); }
      if p in AfterHistory(b).Of(addr) { Counted(b, a, addr, p); }
    }
    assert AfterHistory(a).Of(V4([])) == AfterHistory(b).Of(V4([]));
    assert AfterHistory(a).Of(V6([])) == AfterHistory(b).Of(V6([]));
  }

  lemma Counted(a: seq<Cidr>, b: seq<Cidr>, addr: Address, p: Path)
    requires AllValid(a) && AllValid(b) && p in AfterHistory(a).Of(addr)
    requires forall i | 0 <= i < |b| :: b[i].bits > 0
    requires forall c | c in a :: c in b
    ensures p in AfterHistory(b).Of(addr)
  {
    var i := CountsOnly(a, addr, p);
    assert a[i] in b;
    var j: nat :| j < |b| && b[j] == a[i];
    CountsAll(b, j);
  }

  // The nodes of a trie and their marks, apart from the root's, which is never read.
  ghost function Shape(t: BitTrie): map<Path, bool>
    reads t, t.nodes.Values
  {
    map p | p in t.nodes && p != Root :: t.nodes[p].terminal
  }

  lemma SamePrefixesSameShape(t: BitTrie, u: BitTrie)
    requires t.Valid() && u.Valid() && t.prefixes == u.prefixes
    ensures Shape(t) == Shape(u)
  {
    assert Shape(t).Keys == Shape(u).Keys;
  }
}
