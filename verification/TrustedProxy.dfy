/**
 Resolution of the client address behind trusted proxies: the forwarding header is
 read from right to left, past the trusted proxies.
 Parsing and printing of addresses are parameters.
 */
module TrustedProxy {
  import opened Options
  import opened Text
  import opened SubnetTrie

  datatype HostPort = HostPort(host: string, port: string)

  function LastIndex(s: string, c: char): (r: int)
    ensures -1 <= r < |s|
    ensures r >= 0 ==> s[r] == c
    ensures forall i | r < i < |s| :: s[i] != c
  {
    if s == "" then -1 else if s[|s| - 1] == c then |s| - 1 else LastIndex(s[..|s| - 1], c)
  }

  // "host:port" or "[host]:port"; `None` for every malformed text.
  function SplitHostPort(s: string): Option<HostPort> {
    var colon := LastIndex(s, ':');
    if colon < 0 then None
    else if s[0] == '[' then
      var end := Index(s, "]");
      if end < 0 || end + 1 != colon || '[' in s[1..] || ']' in s[end + 1..] then None
      else Some(HostPort(if end >= 1 then s[1..end] else "", s[colon + 1..]))
    else if ':' in s[..colon] || '[' in s || ']' in s then None
    else Some(HostPort(s[..colon], s[colon + 1..]))
  }

  function JoinHostPort(host: string, port: string): string {
    if ':' in host then "[" + host + "]:" + port else host + ":" + port
  }

  lemma {:induction false} LastIndexOfJoin(x: string, p: string)
    requires ':' !in p
    ensures LastIndex(x + ":" + p, ':') == |x|
    decreases |p|
  {
    var s := x + ":" + p;
    var n := |s| - 1;
    if p == "" {
      assert s[n] == ':';
    } else {
      assert s[n] == p[|p| - 1] && p[|p| - 1] in p;
      assert s[..n] == x + ":" + p[..|p| - 1];
      LastIndexOfJoin(x, p[..|p| - 1]);
    }
  }

  predicate Plain(s: string) {
    '[' !in s && ']' !in s
  }

  lemma BracketedParts(host: string, port: string)
    requires Plain(host) && Plain(port) && ':' !in port
    ensures var s := "[" + host + "]:" + port;
            && LastIndex(s, ':') == |host| + 2 && Index(s, "]") == |host| + 1
            && s[0] == '[' && s[1..] == host + "]:" + port && s[1..|host| + 1] == host
            && s[|host| + 2..] == ":" + port && s[|host| + 3..] == port
  {
    var s := "[" + host + "]:" + port;
    assert s == ("[" + host + "]") + ":" + port;
    LastIndexOfJoin("[" + host + "]", port);
    assert s[|host| + 1..|host| + 2] == "]";
    assert OccursAt(s, "]", |host| + 1);
    forall k | 0 <= k <= |host| ensures s[k] != ']' {
      if k > 0 {
        assert s[k] == host[k - 1] && host[k - 1] in host;
      }
    }
    forall j | OccursAt(s, "]", j) ensures j >= |host| + 1 {
      assert s[j] == s[j..j + 1][0];
    }
  }

  lemma SplitBracketed(host: string, port: string)
    requires Plain(host) && Plain(port) && ':' !in port
    ensures SplitHostPort("[" + host + "]:" + port) == Some(HostPort(host, port))
  {
    BracketedParts(host, port);
    assert '[' !in host + "]:" + port && ']' !in ":" + port;
  }

  lemma SplitPlain(host: string, port: string)
    requires Plain(host) && Plain(port) && ':' !in host && ':' !in port
    ensures SplitHostPort(host + ":" + port) == Some(HostPort(host, port))
  {
    var s := host + ":" + port;
    LastIndexOfJoin(host, port);
    assert s[..|host|] == host && s[|host| + 1..] == port;
    assert s[0] == if host == "" then ':' else host[0];
    assert host != "" ==> host[0] in host;
    assert '[' !in s && ']' !in s;
  }

  // A joined host and port, of either family, are split into the same again.
  lemma SplitJoined(host: string, port: string)
    requires Plain(host) && Plain(port) && ':' !in port
    ensures SplitHostPort(JoinHostPort(host, port)) == Some(HostPort(host, port))
  {
    if ':' in host {
      SplitBracketed(host, port);
    } else {
      SplitPlain(host, port);
    }
  }

  // If what was joined can be split, the port is the one that was joined.
  lemma JoinKeepsPort(host: string, port: string)
    requires ':' !in port
    ensures SplitHostPort(JoinHostPort(host, port)).Some? ==> SplitHostPort(JoinHostPort(host, port)).value.port == port
  {
    var s := JoinHostPort(host, port);
    var x := if ':' in host then "[" + host + "]" else host;
    assert s == x + ":" + port;
    LastIndexOfJoin(x, port);
    assert s[|x| + 1..] == port;
  }

  // What the resolver knows: the trusted networks, if any, and how addresses read.
  datatype Net = Net(trusted: Option<Families>, parse: string -> Option<Address>, format: Address -> string)

  ghost predicate Trusted(net: Net, a: Address) {
    net.trusted.Some? && Contained(net.trusted.value, a)
  }

  // A header entry that is passed over.
  ghost predicate Skipped(net: Net, entry: string) {
    var c := Trim(entry);
    c == "" || (net.parse(c).Some? && Trusted(net, net.parse(c).value))
  }

  // The client address that an entry which is not passed over stands for.
  function ClientText(net: Net, entry: string): string {
    var c := Trim(entry);
    var a := net.parse(c);
    if a.Some? then net.format(a.value) else c
  }

  ghost function Pick(net: Net, parts: seq<string>, port: string): Option<string> {
    if parts == [] then None
    else
      var n := |parts| - 1;
      if Skipped(net, parts[n]) then Pick(net, parts[..n], port)
      else Some(JoinHostPort(ClientText(net, parts[n]), port))
  }

  datatype Request = Request(remoteAddr: string, forwarded: string)

  ghost function Resolve(net: Net, req: Request): string {
    var peer := SplitHostPort(req.remoteAddr);
    if peer.None? then req.remoteAddr
    else
      var addr := net.parse(peer.value.host);
      if addr.None? || !Trusted(net, addr.value) || req.forwarded == "" then req.remoteAddr
      else
        var parts := Split(req.forwarded, ',');
        var picked := Pick(net, parts, peer.value.port);
        if picked.Some? then picked.value
        else if Trim(parts[0]) != "" then JoinHostPort(Trim(parts[0]), peer.value.port)
        else req.remoteAddr
  }

  class Matcher {
    var trusted: SubnetTrie?
    const parse: string -> Option<Address>
    const format: Address -> string

    ghost predicate Valid()
      reads this,
            if trusted != null then {trusted.v4, trusted.v6} + trusted.v4.nodes.Values + trusted.v6.nodes.Values else {}
    {
      && (trusted != null ==> trusted.Valid())
      && forall s :: parse(s).Some? ==> parse(s).value.Valid()
    }

    ghost function View(): Net
      reads this, if trusted != null then {trusted.v4, trusted.v6} else {}
    {
      Net(if trusted == null then None else Some(trusted.State()), parse, format)
    }

    method IsTrusted(addr: Address) returns (r: bool)
      requires Valid() && addr.Valid()
      ensures r <==> Trusted(View(), addr)
    {
      if trusted == null {
        return false;
      }
      r := trusted.Contains(addr);
    }

    method ResolveRequest(req: Request) returns (resolved: string)
      requires Valid()
      ensures resolved == Resolve(View(), req)
    {
      var peer := SplitHostPort(req.remoteAddr);
      if peer.None? {
        return req.remoteAddr;
      }
      var addr := parse(peer.value.host);
      if addr.None? {
        return req.remoteAddr;
      }
      var ok := IsTrusted(addr.value);
      if !ok || req.forwarded == "" {
        return req.remoteAddr;
      }
      var parts := Split(req.forwarded, ',');
      var picked := PickClient(parts, peer.value.port);
      if picked.Some? {
        return picked.value;
      }
      var first := Trim(parts[0]);
      if first != "" {
        return JoinHostPort(first, peer.value.port);
      }
      return req.remoteAddr;
    }

    // The walk over the header entries from right to left.
    method PickClient(parts: seq<string>, port: string) returns (picked: Option<string>)
      requires Valid()
      ensures picked == Pick(View(), parts, port)
    {
      var i := |parts|;
      assert parts[..i] == parts;
      while i > 0
        invariant 0 <= i <= |parts|
        invariant Pick(View(), parts, port) == Pick(View(), parts[..i], port)
      {
        i := i - 1;
        assert parts[..i + 1][..i] == parts[..i];
        var candidate := Trim(parts[i]);
        if candidate != "" {
          var c := parse(candidate);
          if c.None? {
            return Some(JoinHostPort(candidate, port));
          }
          var passed := IsTrusted(c.value);
          if !passed {
            return Some(JoinHostPort(format(c.value), port));
          }
        }
      }
      return None;
    }
  }

  // ---------- Properties ----------

  // The peer is a proxy whose header is believed.
  ghost predicate TrustedPeer(net: Net, req: Request) {
    var peer := SplitHostPort(req.remoteAddr);
    peer.Some? && net.parse(peer.value.host).Some? && Trusted(net, net.parse(peer.value.host).value)
  }

  lemma {:induction false} PickRightmost(net: Net, parts: seq<string>, port: string, k: nat)
    requires k < |parts| && !Skipped(net, parts[k])
    requires forall j | k < j < |parts| :: Skipped(net, parts[j])
    ensures Pick(net, parts, port) == Some(JoinHostPort(ClientText(net, parts[k]), port))
    decreases |parts|
  {
    if k < |parts| - 1 {
      PickRightmost(net, parts[..|parts| - 1], port, k);
    }
  }

  lemma {:induction false} PickNone(net: Net, parts: seq<string>, port: string)
    requires forall j | 0 <= j < |parts| :: Skipped(net, parts[j])
    ensures Pick(net, parts, port) == None
    decreases |parts|
  {
    if parts != [] {
      PickNone(net, parts[..|parts| - 1], port);
    }
  }

  // Behind a trusted peer the answer is the rightmost entry that is neither blank
  // nor trusted.
  lemma ResolvesClient(net: Net, req: Request, k: nat)
    requires TrustedPeer(net, req) && k < |Split(req.forwarded, ',')| && !Skipped(net, Split(req.forwarded, ',')[k])
    requires forall j | k < j < |Split(req.forwarded, ',')| :: Skipped(net, Split(req.forwarded, ',')[j])
    ensures Resolve(net, req)
            == JoinHostPort(ClientText(net, Split(req.forwarded, ',')[k]), SplitHostPort(req.remoteAddr).value.port)
  {
    var parts := Split(req.forwarded, ',');
    PickRightmost(net, parts, SplitHostPort(req.remoteAddr).value.port, k);
    assert Split("", ',') == [""] && Trim("") == "";
  }

  // When every entry is blank or trusted it is the first entry, or the peer itself;
  // an untrusted peer is answered with its own address whatever it claims.
  lemma ResolvesPeer(net: Net, req: Request)
    requires TrustedPeer(net, req) ==>
               forall j | 0 <= j < |Split(req.forwarded, ',')| :: Skipped(net, Split(req.forwarded, ',')[j])
    ensures var first := Trim(Split(req.forwarded, ',')[0]);
            Resolve(net, req)
            == if TrustedPeer(net, req) && first != ""
               then JoinHostPort(first, SplitHostPort(req.remoteAddr).value.port)
               else req.remoteAddr
  {
    if TrustedPeer(net, req) {
      PickNone(net, Split(req.forwarded, ','), SplitHostPort(req.remoteAddr).value.port);
      assert Split("", ',') == [""] && Trim("") == "";
    }
  }

  lemma PickSnoc(net: Net, parts: seq<string>, entry: string, port: string)
    ensures Pick(net, parts + [entry], port)
            == if Skipped(net, entry) then Pick(net, parts, port) else Some(JoinHostPort(ClientText(net, entry), port))
  {
    assert (parts + [entry])[..|parts|] == parts;
  }

  lemma {:induction false} PickIgnoresFront(net: Net, front: seq<string>, tail: seq<string>, port: string, k: nat)
    requires k < |tail| && !Skipped(net, tail[k])
    ensures Pick(net, front + tail, port) == Pick(net, tail, port) && Pick(net, tail, port).Some?
    decreases |tail|
  {
    var n := |tail| - 1;
    assert tail == tail[..n] + [tail[n]] && front + tail == (front + tail[..n]) + [tail[n]];
    PickSnoc(net, tail[..n], tail[n], port);
    PickSnoc(net, front + tail[..n], tail[n], port);
    if k < n {
      PickIgnoresFront(net, front, tail[..n], port, k);
    }
  }

  // Whatever a client writes in front of a header that already names a client
  // changes nothing.
  lemma ForgedEntriesIgnored(net: Net, remoteAddr: string, forged: string, header: string)
    requires exists k :: 0 <= k < |Split(header, ',')| && !Skipped(net, Split(header, ',')[k])
    ensures Resolve(net, Request(remoteAddr, forged + "," + header)) == Resolve(net, Request(remoteAddr, header))
  {
    assert Split("", ',') == [""] && Trim("") == "";
    assert header != "";
    SplitConcat(forged, ',', header);
    var peer := SplitHostPort(remoteAddr);
    if peer.Some? {
      var k :| 0 <= k < |Split(header, ',')| && !Skipped(net, Split(header, ',')[k]);
      PickIgnoresFront(net, Split(forged, ','), Split(header, ','), peer.value.port, k);
    }
  }

  // Resolving the rewritten request again changes nothing, for every parser, printer
  // and set of trusted networks.
  lemma ResolveIdempotent(net: Net, req: Request)
    ensures var resolved := Resolve(net, req); Resolve(net, req.(remoteAddr := resolved)) == resolved
  {
    var resolved := Resolve(net, req);
    if resolved != req.remoteAddr {
      var port := SplitHostPort(req.remoteAddr).value.port;
      var parts := Split(req.forwarded, ',');
      var picked := Pick(net, parts, port);
      JoinKeepsPort(if picked.Some? then PickedHost(net, parts) else Trim(parts[0]), port);
      PickForm(net, parts, port);
    }
  }

  ghost function PickedHost(net: Net, parts: seq<string>): string {
    if parts == [] then ""
    else if Skipped(net, parts[|parts| - 1]) then PickedHost(net, parts[..|parts| - 1])
    else ClientText(net, parts[|parts| - 1])
  }

  lemma {:induction false} PickForm(net: Net, parts: seq<string>, port: string)
    ensures Pick(net, parts, port).Some? ==> Pick(net, parts, port).value == JoinHostPort(PickedHost(net, parts), port)
    decreases |parts|
  {
    if parts != [] {
      PickForm(net, parts[..|parts| - 1], port);
    }
  }
}
