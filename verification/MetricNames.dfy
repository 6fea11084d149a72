/**
 Names of connection metrics.  A name encodes a port, an optional host and an
 optional path; its parent in the metric hierarchy is recovered by string search.
 */
module MetricNames {
  import opened Text

  const PATH := "-path-"
  const HOST := "-host-"
  const GLOBAL := "global"

  function BuildConnectionName(prefix: string, port: string, host: string, path: string): string {
    var base := prefix + "-port-" + port;
    var withHost := if host != "" then base + HOST + host else base;
    if path != "" then withHost + PATH + path else withHost
  }

  // The name of the parent metric; "" when there is none.
  function Parent(name: string): string {
    var path := Index(name, PATH);
    if path != -1 then name[..path]
    else
      var host := Index(name, HOST);
      if host != -1 then name[..host] else if name == GLOBAL then "" else GLOBAL
  }

  // How many ancestors a name can have at most.
  ghost function Rank(name: string): nat {
    if Occurs(name, PATH) then 3 else if Occurs(name, HOST) then 2 else if name != GLOBAL then 1 else 0
  }

  lemma CutBefore(name: string, sub: string, k: nat)
    requires k <= |name|
    ensures Occurs(name[..k], sub) ==> Occurs(name, sub)
    ensures Index(name, sub) == k && sub != "" ==> !Occurs(name[..k], sub)
  {
    forall j | OccursAt(name[..k], sub, j) ensures OccursAt(name, sub, j) {
      assert name[..k][j..j + |sub|] == name[j..j + |sub|];
    }
  }

  lemma ParentRank(name: string)
    ensures Parent(name) != "" ==> Rank(Parent(name)) < Rank(name)
    ensures name != GLOBAL ==> Rank(name) > 0
  {
    var path, host := Index(name, PATH), Index(name, HOST);
    if path != -1 {
      CutBefore(name, PATH, path);
    } else if host != -1 {
      CutBefore(name, PATH, host);
      CutBefore(name, HOST, host);
    } else {
      assert forall i :: !OccursAt(GLOBAL, PATH, i) && !OccursAt(GLOBAL, HOST, i) by {
        assert GLOBAL[0..6] == GLOBAL;
      }
    }
  }

  // The name and its ancestors, nearest first.
  ghost function Ancestors(name: string): (r: seq<string>)
    ensures 1 <= |r| <= Rank(name) + 1 && r[0] == name
    decreases Rank(name)
  {
    ParentRank(name);
    [name] + if Parent(name) == "" then [] else Ancestors(Parent(name))
  }

  // Registration of any name whatsoever visits at most three ancestors.
  lemma AtMostThreeAncestors(name: string)
    ensures |Ancestors(name)| <= 4
  {
    assert Rank(name) <= 3;
  }

  function BeforePath(name: string): string {
    var path := Index(name, PATH);
    if path == -1 then name else name[..path]
  }

  // Cutting at a separator leaves nothing: the derived parent is empty.
  predicate Orphan(name: string) {
    PATH <= name || HOST <= BeforePath(name)
  }

  lemma IndexZero(name: string, sub: string)
    requires |sub| > 0
    ensures Index(name, sub) == 0 <==> sub <= name
  {
    if sub <= name {
      assert OccursAt(name, sub, 0);
    }
  }

  lemma ParentMissing(name: string)
    ensures Parent(name) == "" <==> name == GLOBAL || PATH <= name || (Index(name, PATH) == -1 && HOST <= name)
  {
    IndexZero(name, PATH);
    IndexZero(name, HOST);
    assert Index(GLOBAL, PATH) == -1 && Index(GLOBAL, HOST) == -1 by {
      assert forall i :: !OccursAt(GLOBAL, PATH, i) && !OccursAt(GLOBAL, HOST, i) by {
        assert GLOBAL[0..6] == GLOBAL;
      }
    }
  }

  // A metric rolls up into the global one if and only if no separator is found at
  // the very start of its name.
  lemma RollsUpToGlobal(name: string)
    ensures GLOBAL in Ancestors(name) <==> !Orphan(name)
  {
    ParentMissing(name);
    var path := Index(name, PATH);
    if path > 0 {
      var host := name[..path];
      CutBefore(name, PATH, path);
      assert Index(host, PATH) == -1;
      assert !(PATH <= name) by { IndexZero(name, PATH); }
      HostLevelRollsUp(host);
      assert Ancestors(name) == [name] + Ancestors(host);
      assert name != GLOBAL;
    } else if path == 0 {
      assert Ancestors(name) == [name];
      IndexZero(name, PATH);
      assert name[0] == PATH[0] && GLOBAL[0] == 'g';
    } else {
      HostLevelRollsUp(name);
      IndexZero(name, PATH);
    }
  }

  lemma HostLevelRollsUp(name: string)
    requires Index(name, PATH) == -1
    ensures GLOBAL in Ancestors(name) <==> !(HOST <= name)
  {
    IndexZero(name, HOST);
    ParentMissing(name);
    var host := Index(name, HOST);
    if host > 0 {
      var port := name[..host];
      CutBefore(name, HOST, host);
      CutBefore(name, PATH, host);
      assert Index(port, HOST) == -1 && Index(port, PATH) == -1;
      PortLevelRollsUp(port);
      assert Ancestors(name) == [name] + Ancestors(port);
    } else if host == 0 {
      assert Ancestors(name) == [name];
      assert name[0] == HOST[0] && GLOBAL[0] == 'g';
    } else {
      PortLevelRollsUp(name);
    }
  }

  lemma PortLevelRollsUp(name: string)
    requires Index(name, PATH) == -1 && Index(name, HOST) == -1
    ensures GLOBAL in Ancestors(name)
  {
    if name != GLOBAL {
      assert Ancestors(name) == [name] + Ancestors(GLOBAL);
      assert Ancestors(GLOBAL)[0] == GLOBAL;
    }
  }

  // ---------- Built names ----------

  ghost predicate NoDash(s: string) {
    forall i | 0 <= i < |s| :: s[i] != '-'
  }

  // A port is printed in decimal, possibly with a sign.
  ghost predicate PortText(s: string) {
    forall i | 0 <= i < |s| :: '0' <= s[i] <= '9' || s[i] == '-'
  }

  lemma OccurrenceChars(name: string, sub: string, j: int, i: nat)
    requires OccursAt(name, sub, j) && i < |sub|
    ensures name[j + i] == sub[i]
  {
    assert name[j..j + |sub|][i] == name[j + i];
  }

  // Where a separator can first occur in a built name.
  lemma NoEarlySeparator(prefix: string, port: string, rest: string, sub: string, j: int)
    requires NoDash(prefix) && PortText(port) && (sub == PATH || sub == HOST)
    requires OccursAt(prefix + "-port-" + port + rest, sub, j)
    requires rest == "" || rest[0] == '-'
    ensures j >= |prefix| + 6 + |port|
  {
    var name := prefix + "-port-" + port + rest;
    OccurrenceChars(name, sub, j, 0);
    OccurrenceChars(name, sub, j, 1);
    OccurrenceChars(name, sub, j, 2);
  }

  lemma PortParent(prefix: string, port: string)
    requires NoDash(prefix) && PortText(port)
    ensures Parent(BuildConnectionName(prefix, port, "", "")) == GLOBAL
  {
    var name := BuildConnectionName(prefix, port, "", "");
    assert name == prefix + "-port-" + port + "";
    forall j ensures !OccursAt(name, PATH, j) && !OccursAt(name, HOST, j) {
      if OccursAt(name, PATH, j) { NoEarlySeparator(prefix, port, "", PATH, j); }
      if OccursAt(name, HOST, j) { NoEarlySeparator(prefix, port, "", HOST, j); }
    }
    assert name[|prefix|] == '-';
    assert forall i | 0 <= i < |GLOBAL| :: GLOBAL[i] != '-';
  }

  // An occurrence of "-path-" in a built host name, followed by nothing or by a
  // dash, lies inside the host between dashes.
  lemma PathInsideHost(prefix: string, port: string, host: string, rest: string, j: int)
    requires NoDash(prefix) && PortText(port) && (rest == "" || PATH <= rest)
    requires OccursAt(prefix + "-port-" + port + HOST + host + rest, PATH, j)
    requires j < |prefix| + 6 + |port| + 6 + |host|
    ensures Occurs("-" + host + "-", PATH)
  {
    var a, end := |prefix| + 6 + |port|, |prefix| + 6 + |port| + 6 + |host|;
    var name := prefix + "-port-" + port + HOST + host + rest;
    assert name == prefix + "-port-" + port + (HOST + host + rest);
    NoEarlySeparator(prefix, port, HOST + host + rest, PATH, j);
    AfterHostMark(prefix + "-port-" + port, host + rest, j) by {
      assert name == prefix + "-port-" + port + HOST + (host + rest);
    }
    if j + 6 > end {
      OccurrenceChars(name, PATH, j, end - j);
    }
    InsideDashes(name, host, a + 5, j);
  }

  lemma AfterHostMark(base: string, rest: string, j: int)
    requires OccursAt(base + HOST + rest, PATH, j) && j >= |base|
    ensures j >= |base| + 5
  {
    var name := base + HOST + rest;
    OccurrenceChars(name, PATH, j, 0);
    OccurrenceChars(name, PATH, j, 1);
    assert forall i | 0 <= i < 6 :: name[|base| + i] == HOST[i];
  }

  lemma InsideDashes(name: string, host: string, q: nat, j: int)
    requires OccursAt(name, PATH, j) && q <= j && j + 6 <= q + |host| + 2
    requires q + 1 + |host| <= |name| && name[q..q + 1 + |host|] == "-" + host
    ensures Occurs("-" + host + "-", PATH)
  {
    var inner := "-" + host + "-";
    forall i | 0 <= i < 6 ensures inner[j - q + i] == PATH[i] {
      OccurrenceChars(name, PATH, j, i);
      if j - q + i <= |host| {
        assert name[q..q + 1 + |host|][j - q + i] == name[j + i];
      } else {
        assert i == 5;
      }
    }
    assert inner[j - q..j - q + 6] == PATH;
    assert OccursAt(inner, PATH, j - q);
  }

  // Conversely an occurrence inside the host is one in the name.
  lemma PathFromHost(prefix: string, port: string, host: string, rest: string)
    requires Occurs("-" + host + "-", PATH) && PATH <= rest
    ensures exists j :: OccursAt(prefix + "-port-" + port + HOST + host + rest, PATH, j)
                        && j < |prefix| + 6 + |port| + 6 + |host|
  {
    var inner := "-" + host + "-";
    var i :| OccursAt(inner, PATH, i);
    var name := prefix + "-port-" + port + HOST + host + rest;
    var q := |prefix| + 6 + |port| + 5;
    assert name[q..q + |inner|] == inner by {
      assert name[q] == '-' && name[q + 1 + |host|] == rest[0];
      forall k | 0 <= k < |inner| ensures name[q + k] == inner[k] {
      }
    }
    assert name[q + i..q + i + 6] == inner[i..i + 6];
    assert OccursAt(name, PATH, q + i);
  }

  // The occurrences of "-path-" in a built host name are those in the dashed host.
  lemma HostOccurrences(prefix: string, port: string, host: string, j: int)
    requires NoDash(prefix) && PortText(port)
    ensures var q := |prefix| + 6 + |port| + 5;
            OccursAt(prefix + "-port-" + port + HOST + host, PATH, j) <==> j >= q && OccursAt("-" + host, PATH, j - q)
  {
    var base, name := prefix + "-port-" + port, prefix + "-port-" + port + HOST + host;
    var q := |base| + 5;
    if OccursAt(name, PATH, j) {
      assert name == base + (HOST + host);
      NoEarlySeparator(prefix, port, HOST + host, PATH, j);
      AfterHostMark(base, host, j);
    }
    assert name[q..] == "-" + host;
    if j >= q && j + 6 <= |name| {
      assert name[q..][j - q..j - q + 6] == name[j..j + 6];
    }
  }

  // The parent of a built host name is the built port name if and only if the dashed
  // host does not contain "-path-".
  lemma HostParent(prefix: string, port: string, host: string)
    requires NoDash(prefix) && PortText(port) && host != ""
    ensures Parent(BuildConnectionName(prefix, port, host, "")) == BuildConnectionName(prefix, port, "", "")
            <==> !Occurs("-" + host, PATH)
  {
    var base := prefix + "-port-" + port;
    var name := base + HOST + host;
    var q := |base| + 5;
    if Occurs("-" + host, PATH) {
      var i :| OccursAt("-" + host, PATH, i);
      HostOccurrences(prefix, port, host, q + i);
      HostOccurrences(prefix, port, host, Index(name, PATH));
      assert |Parent(name)| >= q;
    } else {
      forall j ensures !OccursAt(name, PATH, j) {
        HostOccurrences(prefix, port, host, j);
      }
      HostCut(prefix, port, host);
    }
  }

  lemma HostCut(prefix: string, port: string, host: string)
    requires NoDash(prefix) && PortText(port)
    ensures var base := prefix + "-port-" + port; Index(base + HOST + host, HOST) == |base|
  {
    var base := prefix + "-port-" + port;
    var name := base + HOST + host;
    assert name[|base|..|base| + 6] == HOST;
    assert OccursAt(name, HOST, |base|);
    assert name == base + (HOST + host);
    NoEarlySeparator(prefix, port, HOST + host, HOST, Index(name, HOST));
  }

  // The parent of a built path name is the built host name if and only if the host,
  // between dashes, does not contain "-path-".
  lemma PathParent(prefix: string, port: string, host: string, path: string)
    requires NoDash(prefix) && PortText(port) && host != "" && path != ""
    ensures Parent(BuildConnectionName(prefix, port, host, path)) == BuildConnectionName(prefix, port, host, "")
            <==> !Occurs("-" + host + "-", PATH)
  {
    var name := BuildConnectionName(prefix, port, host, path);
    var base := BuildConnectionName(prefix, port, host, "");
    var rest := PATH + path;
    assert name == prefix + "-port-" + port + HOST + host + rest;
    assert name[|base|..|base| + 6] == PATH;
    assert OccursAt(name, PATH, |base|);
    assert name[..|base|] == base;
    var j := Index(name, PATH);
    if j < |base| {
      PathInsideHost(prefix, port, host, rest, j);
      assert |name[..j]| < |base|;
    }
    if Occurs("-" + host + "-", PATH) {
      PathFromHost(prefix, port, host, rest);
    }
  }

  // A path name without a host hangs off the port.
  lemma HostlessPathParent(prefix: string, port: string, path: string)
    requires NoDash(prefix) && PortText(port) && path != ""
    ensures Parent(BuildConnectionName(prefix, port, "", path)) == BuildConnectionName(prefix, port, "", "")
  {
    var name := BuildConnectionName(prefix, port, "", path);
    var base := prefix + "-port-" + port;
    assert name == base + (PATH + path);
    assert name[|base|..|base| + 6] == PATH;
    assert OccursAt(name, PATH, |base|);
    NoEarlySeparator(prefix, port, PATH + path, PATH, Index(name, PATH));
    assert name[..|base|] == base;
  }

  // A path metric rolls up through its host and its port to the global metric, if and
  // only if the host, between dashes, does not contain "-path-".
  lemma BuiltAncestors(prefix: string, port: string, host: string, path: string)
    requires NoDash(prefix) && PortText(port) && host != "" && path != ""
    ensures Ancestors(BuildConnectionName(prefix, port, host, path))
            == [BuildConnectionName(prefix, port, host, path), BuildConnectionName(prefix, port, host, ""),
                BuildConnectionName(prefix, port, "", ""), GLOBAL]
            <==> !Occurs("-" + host + "-", PATH)
  {
    var pathName := BuildConnectionName(prefix, port, host, path);
    var hostName := BuildConnectionName(prefix, port, host, "");
    var portName := BuildConnectionName(prefix, port, "", "");
    PathParent(prefix, port, host, path);
    if Occurs("-" + host + "-", PATH) {
      SecondAncestor(pathName);
    } else {
      if Occurs("-" + host, PATH) { Undashed(host); }
      HostParent(prefix, port, host);
      PortParent(prefix, port);
      assert Parent(GLOBAL) == "" by { ParentMissing(GLOBAL); }
      ChainOfFour(pathName, hostName, portName);
    }
  }

  lemma Undashed(host: string)
    requires Occurs("-" + host, PATH)
    ensures Occurs("-" + host + "-", PATH)
  {
    var i :| OccursAt("-" + host, PATH, i);
    assert ("-" + host + "-")[i..i + 6] == ("-" + host)[i..i + 6];
    assert OccursAt("-" + host + "-", PATH, i);
  }

  lemma SecondAncestor(name: string)
    ensures |Ancestors(name)| >= 2 ==> Ancestors(name)[1] == Parent(name)
  {
  }

  // ---------- Names tell metrics apart ----------

  // What follows a port is nothing, or a dash and a letter.
  predicate Tail(a: string) {
    a == "" || (|a| >= 2 && a[0] == '-' && 'a' <= a[1] <= 'z')
  }

  lemma PortsDiffer(p: string, q: string, a: string, b: string)
    requires PortText(p) && PortText(q) && |p| < |q| && Tail(a) && Tail(b)
    ensures p + a != q + b
  {
    if a != "" {
      var k := |p| + 1;
      assert (p + a)[k] == a[1];
      assert k < |q + b| ==> (q + b)[k] == if k < |q| then q[k] else b[0];
    }
  }

  lemma PortsEqual(prefix: string, p: string, q: string, a: string, b: string)
    requires PortText(p) && PortText(q) && Tail(a) && Tail(b)
    requires prefix + "-port-" + p + a == prefix + "-port-" + q + b
    ensures p == q && a == b
  {
    var n := |prefix| + 6;
    var s, t := prefix + "-port-" + p + a, prefix + "-port-" + q + b;
    assert s[n..] == p + a && t[n..] == q + b;
    if |p| < |q| {
      PortsDiffer(p, q, a, b);
    } else if |q| < |p| {
      PortsDiffer(q, p, b, a);
    }
    assert (p + a)[..|p|] == p && (q + b)[..|q|] == q;
    assert (p + a)[|p|..] == a && (q + b)[|q|..] == b;
  }

  lemma NameForm(prefix: string, port: string, host: string, path: string)
    ensures BuildConnectionName(prefix, port, host, path) == prefix + "-port-" + port + Rest(host, path)
    ensures Tail(Rest(host, path))
  {
    RestTells(host, path);
  }

  // Two built names of one kind are the same only for the same port, host and path, for
  // hosts that do not contain "-path-" between dashes.
  lemma BuiltInjective(prefix: string, port: string, host: string, path: string,
                       port': string, host': string, path': string)
    requires NoDash(prefix) && PortText(port) && PortText(port')
    requires !Occurs("-" + host + "-", PATH) && !Occurs("-" + host' + "-", PATH)
    requires BuildConnectionName(prefix, port, host, path) == BuildConnectionName(prefix, port', host', path')
    ensures port == port' && host == host' && path == path'
  {
    NameForm(prefix, port, host, path);
    NameForm(prefix, port', host', path');
    PortsEqual(prefix, port, port', Rest(host, path), Rest(host', path'));
    RestInjective(host, path, host', path');
  }

  function Suffix(path: string): string {
    if path != "" then PATH + path else ""
  }

  function Rest(host: string, path: string): string {
    (if host != "" then HOST + host else "") + Suffix(path)
  }

  // Where the path begins.
  lemma PathStart(host: string, path: string)
    requires !Occurs("-" + host + "-", PATH)
    ensures Index("-" + host + Suffix(path), PATH) == if path != "" then 1 + |host| else -1
  {
    var s := "-" + host + Suffix(path);
    forall j | OccursAt(s, PATH, j) ensures path != "" && j >= 1 + |host| {
      if j < 1 + |host| {
        if j + 6 > 1 + |host| && path != "" {
          OccurrenceChars(s, PATH, j, 1 + |host| - j);
        }
        InsideDashes(s, host, 0, j);
      }
    }
    if path != "" {
      assert s[1 + |host|..1 + |host| + 6] == PATH;
      assert OccursAt(s, PATH, 1 + |host|);
    }
  }

  // A host and a path after it, between which the path begins where it is found.
  lemma HostPathInjective(host: string, path: string, host': string, path': string)
    requires !Occurs("-" + host + "-", PATH) && !Occurs("-" + host' + "-", PATH)
    requires host + Suffix(path) == host' + Suffix(path')
    ensures host == host' && path == path'
  {
    var s, s' := "-" + host + Suffix(path), "-" + host' + Suffix(path');
    assert s == "-" + (host + Suffix(path)) && s' == "-" + (host' + Suffix(path'));
    PathStart(host, path);
    PathStart(host', path');
    Cut(host, Suffix(path), host', Suffix(path'));
    SuffixInjective(path, path');
  }

  lemma Cut(a: string, b: string, c: string, d: string)
    requires a + b == c + d && |b| - |d| == |c| - |a|
    ensures |a| == |c| ==> a == c && b == d
  {
    assert (a + b)[..|a|] == a && (c + d)[..|c|] == c;
    assert (a + b)[|a|..] == b && (c + d)[|c|..] == d;
  }

  lemma SuffixInjective(path: string, path': string)
    requires Suffix(path) == Suffix(path')
    ensures path == path'
  {
    assert path != "" ==> Suffix(path)[6..] == path;
    assert path' != "" ==> Suffix(path')[6..] == path';
  }

  lemma RestTells(host: string, path: string)
    ensures Tail(Rest(host, path))
    ensures host != "" <==> |Rest(host, path)| >= 2 && Rest(host, path)[1] == 'h'
    ensures host != "" ==> Rest(host, path)[6..] == host + Suffix(path)
    ensures host == "" ==> Rest(host, path) == Suffix(path)
  {
  }

  lemma RestInjective(host: string, path: string, host': string, path': string)
    requires !Occurs("-" + host + "-", PATH) && !Occurs("-" + host' + "-", PATH)
    requires Rest(host, path) == Rest(host', path')
    ensures host == host' && path == path'
  {
    RestTells(host, path);
    RestTells(host', path');
    if host != "" {
      HostPathInjective(host, path, host', path');
    } else {
      SuffixInjective(path, path');
    }
  }

  lemma ChainOfFour(a: string, b: string, c: string)
    requires Parent(a) == b != "" && Parent(b) == c != "" && Parent(c) == GLOBAL && Parent(GLOBAL) == ""
    ensures Ancestors(a) == [a, b, c, GLOBAL]
  {
    assert Ancestors(GLOBAL) == [GLOBAL];
    assert Ancestors(c) == [c] + Ancestors(GLOBAL);
    assert Ancestors(b) == [b] + Ancestors(c);
    assert Ancestors(a) == [a] + Ancestors(b);
  }
}
