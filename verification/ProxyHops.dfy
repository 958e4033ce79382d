/** robofleet/security.py: finding the tailnet client behind named proxy hops in an X-Forwarded-For chain. */
module ProxyHops {
  import opened OptionType
  import opened Text

  function Pow2(k: nat): (p: nat)
    ensures p > 0
  {
    if k == 0 then 1 else 2 * Pow2(k - 1)
  }

  datatype Family = V4 | V6

  function Bits(f: Family): nat {
    if f.V4? then 32 else 128
  }

  datatype AddrData = Addr(family: Family, value: nat)

  type Addr = a: AddrData | a.value < Pow2(Bits(a.family)) witness Loopback4()

  function Loopback4(): (a: AddrData)
    ensures a.value < Pow2(Bits(a.family))
  {
    Pow2Value32();
    Addr(V4, 0x7f00_0001)
  }

  function Loopback6(): (a: AddrData)
    ensures a.value < Pow2(Bits(a.family))
  {
    Addr(V6, 1)
  }

  lemma Pow2Value32()
    ensures Pow2(32) == 0x1_0000_0000 && Pow2(22) == 0x40_0000 && Pow2(20) == 0x10_0000
  {
    assert Pow2(8) == 256;
    assert Pow2(16) == 0x1_0000;
    assert Pow2(20) == 0x10_0000;
    assert Pow2(22) == 0x40_0000;
    assert Pow2(24) == 0x100_0000;
  }

  /** A network: addresses of one family that agree with `base` in their first `prefix` bits. */
  datatype Net = Net(base: Addr, prefix: nat)

  predicate InNet(a: Addr, net: Net) {
    && a.family == net.base.family && net.prefix <= Bits(a.family)
    && var block := Pow2(Bits(a.family) - net.prefix);
       a.value / block == net.base.value / block
  }

  /** 100.64.0.0/10 (RFC 6598, section 7) and 172.16.0.0/12. */
  function Tailnet(): Net {
    Pow2Value32();
    Net(Addr(V4, 0x6440_0000), 10)
  }

  function DockerPool(): Net {
    Pow2Value32();
    Net(Addr(V4, 0xac10_0000), 12)
  }

  /** The library's address parser. */
  type Parser = string -> Option<Addr>

  /** `_in_networks` */
  predicate InNetworks(parse: Parser, ip: string, nets: seq<Net>) {
    var a := parse(Strip(ip));
    a.Some? && exists i | 0 <= i < |nets| :: InNet(a.value, nets[i])
  }

  function Single(a: Addr): Net {
    Net(a, Bits(a.family))
  }

  function HopNets(parse: Parser, peers: seq<string>): seq<Net> {
    if peers == [] then [Single(Loopback4()), Single(Loopback6())]
    else
      var nets := HopNets(parse, peers[..|peers| - 1]);
      var peer := Strip(peers[|peers| - 1]);
      if peer == "" || parse(peer).None? then nets else nets + [Single(parse(peer).value)]
  }

  /** `_build_trusted_hop_networks`: loopback, and each configured peer as a single address; anything else is skipped. */
  method BuildTrustedHops(parse: Parser, setting: string) returns (nets: seq<Net>)
    ensures nets == HopNets(parse, SplitOn(setting, ','))
    ensures forall ip :: InNetworks(parse, ip, nets) <==> Hop(parse, setting, ip)
  {
    hide Strip, InNetworks, Hop;
    var peers := SplitOn(setting, ',');
    nets := [Single(Loopback4()), Single(Loopback6())];
    var i := 0;
    while i < |peers|
      invariant 0 <= i <= |peers|
      invariant nets == HopNets(parse, peers[..i])
    {
      assert peers[..i + 1][..i] == peers[..i];
      var peer := Strip(peers[i]);
      i := i + 1;
      if peer == "" {
        continue;
      }
      var addr := parse(peer);
      if addr.Some? {
        nets := nets + [Single(addr.value)];
      }
    }
    assert peers[..i] == peers;
    forall ip
      ensures InNetworks(parse, ip, nets) <==> Hop(parse, setting, ip)
    {
      HopMembership(parse, setting, ip);
    }
  }

  /** The operator named this address. */
  predicate Named(parse: Parser, peers: seq<string>, a: Addr) {
    exists i | 0 <= i < |peers| :: Strip(peers[i]) != "" && parse(Strip(peers[i])) == Some(a)
  }

  /** A recorded hop: loopback, or exactly an address the operator named. */
  predicate Hop(parse: Parser, setting: string, ip: string) {
    var a := parse(Strip(ip));
    a.Some? && (a.value == Loopback4() || a.value == Loopback6() || Named(parse, SplitOn(setting, ','), a.value))
  }

  /** A network as long as its family holds one address. */
  lemma SingleIsEquality(a: Addr, b: Addr)
    ensures InNet(a, Single(b)) <==> a == b
  {
    assert Pow2(0) == 1;
  }

  /** The tailnet range, as bounds: 100.64.0.0 to 100.127.255.255. */
  lemma TailnetBounds(a: Addr)
    ensures InNet(a, Tailnet()) <==> a.family == V4 && 0x6440_0000 <= a.value <= 0x647f_ffff
  {
    Pow2Value32();
  }

  /** Docker's pool, as bounds: 172.16.0.0 to 172.31.255.255. */
  lemma DockerPoolBounds(a: Addr)
    ensures InNet(a, DockerPool()) <==> a.family == V4 && 0xac10_0000 <= a.value <= 0xac1f_ffff
  {
    Pow2Value32();
  }

  predicate Covered(a: Addr, nets: seq<Net>) {
    exists i | 0 <= i < |nets| :: InNet(a, nets[i])
  }

  lemma CoveredSnoc(a: Addr, nets: seq<Net>, b: Addr)
    ensures Covered(a, nets + [Single(b)]) <==> Covered(a, nets) || a == b
  {
    hide InNet, Single;
    SingleIsEquality(a, b);
    var all := nets + [Single(b)];
    assert all[|nets|] == Single(b);
    assert forall i | 0 <= i < |nets| :: all[i] == nets[i];
  }

  lemma NamedSnoc(parse: Parser, peers: seq<string>, a: Addr)
    requires peers != []
    ensures var n := |peers| - 1;
            Named(parse, peers, a) <==>
            Named(parse, peers[..n], a) || (Strip(peers[n]) != "" && parse(Strip(peers[n])) == Some(a))
  {
    hide Strip;
    var n := |peers| - 1;
    assert forall i | 0 <= i < n :: peers[..n][i] == peers[i];
  }

  lemma {:induction false} HopNetsExact(parse: Parser, peers: seq<string>, a: Addr)
    ensures Covered(a, HopNets(parse, peers)) <==> a == Loopback4() || a == Loopback6() || Named(parse, peers, a)
  {
    hide Strip, InNet, Single, Covered, Named, Loopback4, Loopback6;
    if peers == [] {
      NothingCovered(parse, a);
      CoveredSnoc(a, [], Loopback4());
      CoveredSnoc(a, [Single(Loopback4())], Loopback6());
      assert [] + [Single(Loopback4())] == [Single(Loopback4())];
      assert [Single(Loopback4())] + [Single(Loopback6())] == [Single(Loopback4()), Single(Loopback6())];
    } else {
      var n := |peers| - 1;
      HopNetsExact(parse, peers[..n], a);
      NamedSnoc(parse, peers, a);
      var peer := Strip(peers[n]);
      if peer != "" && parse(peer).Some? {
        CoveredSnoc(a, HopNets(parse, peers[..n]), parse(peer).value);
      }
    }
  }

  lemma NothingCovered(parse: Parser, a: Addr)
    ensures !Covered(a, []) && !Named(parse, [], a)
  {
  }

  /** Membership in the hop networks comes down to equality with loopback or a configured address; no range gets in. */
  lemma HopMembership(parse: Parser, setting: string, ip: string)
    ensures InNetworks(parse, ip, HopNets(parse, SplitOn(setting, ','))) <==> Hop(parse, setting, ip)
  {
    hide Strip, InNet, SplitOn;
    var a := parse(Strip(ip));
    if a.Some? {
      HopNetsExact(parse, SplitOn(setting, ','), a.value);
    }
  }

  lemma NothingNonBlank()
    ensures NonBlank([]) == []
  {
  }

  lemma NonBlankStep(parts: seq<string>, head: seq<string>, rest: seq<string>)
    requires parts != [] && rest == parts[1..]
    requires head == if Strip(parts[0]) == "" then [] else [Strip(parts[0])]
    ensures NonBlank(parts) == head + NonBlank(rest)
  {
    hide Strip;
  }

  lemma {:induction false} NonBlankAppend(a: seq<string>, b: seq<string>)
    ensures NonBlank(a + b) == NonBlank(a) + NonBlank(b)
  {
    hide Strip, NonBlank;
    if a == [] {
      NothingNonBlank();
      assert a + b == b;
    } else {
      var rest := a[1..];
      var head := if Strip(a[0]) == "" then [] else [Strip(a[0])];
      NonBlankAppend(rest, b);
      NonBlankStep(a, head, rest);
      assert (a + b)[1..] == rest + b && (a + b)[0] == a[0];
      NonBlankStep(a + b, head, rest + b);
      assert head + (NonBlank(rest) + NonBlank(b)) == (head + NonBlank(rest)) + NonBlank(b);
    }
  }

  function ChainOf(forwardedFor: string): seq<string> {
    NonBlank(SplitOn(forwardedFor, ','))
  }

  /** Reading a written chain gives its entries without the white space, in order, and drops the empty ones. */
  lemma ChainReadsBack(entries: seq<(string, string, string)>)
    requires entries != [] && forall e | e in entries :: IsPadded(e)
    ensures ChainOf(JoinWith(PaddedParts(entries), ',')) == NamedEntries(entries)
  {
    hide SplitOn, JoinWith, NonBlank, IsPadded;
    ListReadsBack(entries);
  }

  predicate InTailnet(parse: Parser, ip: string) {
    InNetworks(parse, ip, [Tailnet()])
  }

  /** Position of the rightmost entry that is no hop; -1 when all are. */
  function Rightmost(parse: Parser, nets: seq<Net>, entries: seq<string>): (i: int)
    ensures -1 <= i < |entries|
  {
    var n := |entries| - 1;
    if entries == [] then -1
    else if InNetworks(parse, entries[n], nets) then Rightmost(parse, nets, entries[..n])
    else n
  }

  lemma {:induction false} RightmostIs(parse: Parser, nets: seq<Net>, entries: seq<string>)
    ensures var i := Rightmost(parse, nets, entries);
            && (i >= 0 ==> !InNetworks(parse, entries[i], nets))
            && (forall j | i < j < |entries| :: InNetworks(parse, entries[j], nets))
  {
    hide InNetworks;
    if entries != [] {
      var n := |entries| - 1;
      RightmostIs(parse, nets, entries[..n]);
      assert forall j | 0 <= j < n :: entries[..n][j] == entries[j];
    }
  }

  function ResolveChain(parse: Parser, nets: seq<Net>, entries: seq<string>): Option<string> {
    var i := Rightmost(parse, nets, entries);
    if 0 <= i < |entries| - 1 && InTailnet(parse, entries[i]) then Some(entries[i]) else None
  }

  function ResolveSpec(parse: Parser, nets: seq<Net>, forwardedFor: string): Option<string> {
    ResolveChain(parse, nets, ChainOf(forwardedFor))
  }

  lemma RightmostStep(parse: Parser, nets: seq<Net>, entries: seq<string>, i: nat)
    requires i < |entries|
    ensures Rightmost(parse, nets, entries[..i + 1]) ==
            if InNetworks(parse, entries[i], nets) then Rightmost(parse, nets, entries[..i]) else i
  {
    hide InNetworks;
    assert entries[..i + 1][..i] == entries[..i];
  }

  lemma RightmostNone(parse: Parser, nets: seq<Net>, entries: seq<string>)
    requires entries == []
    ensures Rightmost(parse, nets, entries) == -1
  {
  }

  /** The resolver and the gateways it has warned about. */
  class Resolver {
    const parse: Parser
    const setting: string
    const nets: seq<Net>
    var warned: set<string>
    var log: seq<string>

    /** One warning per gateway. */
    ghost predicate Valid()
      reads this
    {
      && (forall g :: g in warned <==> g in log)
      && (forall i, j | 0 <= i < j < |log| :: log[i] != log[j])
    }

    constructor (parse: Parser, setting: string, nets: seq<Net>)
      ensures Valid() && warned == {} && log == []
      ensures this.parse == parse && this.setting == setting && this.nets == nets
    {
      this.parse, this.setting, this.nets := parse, setting, nets;
      warned, log := {}, [];
    }

    /** Nothing is configured, and the chain looks like tailnet traffic behind an unnamed bridge gateway. */
    predicate Warns(rightmost: string, candidate: string) {
      && Strip(setting) == ""
      && InNetworks(parse, rightmost, [DockerPool()])
      && InTailnet(parse, candidate)
    }

    method WarnOnce(rightmost: string, candidate: string)
      requires Valid()
      modifies this
      ensures Valid()
      ensures log == old(log) + if Warns(rightmost, candidate) && rightmost !in old(log) then [rightmost] else []
    {
      hide Strip, InNetworks, InTailnet, DockerPool;
      if Strip(setting) != "" {
        return;
      }
      if !InNetworks(parse, rightmost, [DockerPool()]) {
        return;
      }
      if !InTailnet(parse, candidate) {
        return;
      }
      if rightmost in warned {
        return;
      }
      warned := warned + {rightmost};
      log := log + [rightmost];
    }

    /** `resolve_forwarded_client_ip` */
    method Resolve(forwardedFor: string) returns (r: Option<string>)
      requires Valid()
      modifies this
      ensures Valid()
      ensures r == ResolveSpec(parse, nets, forwardedFor)
      ensures var e := ChainOf(forwardedFor);
              var unnamed := |e| >= 2 && !InNetworks(parse, e[|e| - 1], nets) && Warns(e[|e| - 1], e[|e| - 2]);
              log == old(log) + if unnamed && e[|e| - 1] !in old(log) then [e[|e| - 1]] else []
    {
      hide InNetworks, Strip, NonBlank, SplitOn, Warns, Rightmost;
      var entries := ChainOf(forwardedFor);
      if |entries| < 2 {
        return None;
      }
      var idx := |entries| - 1;
      assert entries[..idx + 1] == entries;
      while idx >= 0 && InNetworks(parse, entries[idx], nets)
        invariant -1 <= idx < |entries|
        invariant unchanged(this)
        invariant Rightmost(parse, nets, entries) == Rightmost(parse, nets, entries[..idx + 1])
        invariant idx < |entries| - 1 ==> InNetworks(parse, entries[|entries| - 1], nets)
      {
        RightmostStep(parse, nets, entries, idx);
        idx := idx - 1;
      }
      if idx >= 0 {
        RightmostStep(parse, nets, entries, idx);
      } else {
        RightmostNone(parse, nets, entries[..0]);
      }
      if idx == |entries| - 1 {
        WarnOnce(entries[|entries| - 1], entries[|entries| - 2]);
        return None;
      }
      if idx < 0 {
        return None;
      }
      var candidate := entries[idx];
      if !InTailnet(parse, candidate) {
        return None;
      }
      return Some(candidate);
    }
  }

  /** When a gateway is warned about, on the addresses. */
  lemma WarnsExactly(resolver: Resolver, rightmost: string, candidate: string)
    ensures var gateway, client := resolver.parse(Strip(rightmost)), resolver.parse(Strip(candidate));
            resolver.Warns(rightmost, candidate) <==>
            && AllSpace(resolver.setting)
            && gateway.Some? && gateway.value.family == V4 && 0xac10_0000 <= gateway.value.value <= 0xac1f_ffff
            && client.Some? && client.value.family == V4 && 0x6440_0000 <= client.value.value <= 0x647f_ffff
  {
    hide Strip, InNet, DockerPool, Tailnet, AllSpace;
    var gateway, client := resolver.parse(Strip(rightmost)), resolver.parse(Strip(candidate));
    if gateway.Some? {
      DockerPoolBounds(gateway.value);
    }
    if client.Some? {
      TailnetBounds(client.value);
    }
    assert [DockerPool()][0] == DockerPool() && [Tailnet()][0] == Tailnet();
  }

  /** The answer, exactly: the one tailnet entry with nothing but hops, and at least one of them, to its right. */
  lemma ResolveExact(parse: Parser, nets: seq<Net>, entries: seq<string>, client: string)
    ensures ResolveChain(parse, nets, entries) == Some(client) <==>
            exists i | 0 <= i < |entries| - 1 ::
              && entries[i] == client && !InNetworks(parse, client, nets) && InTailnet(parse, client)
              && forall j | i < j < |entries| :: InNetworks(parse, entries[j], nets)
  {
    hide InNetworks;
    var k := Rightmost(parse, nets, entries);
    RightmostIs(parse, nets, entries);
    if i :| 0 <= i < |entries| - 1 && entries[i] == client && !InNetworks(parse, client, nets) && InTailnet(parse, client)
            && forall j | i < j < |entries| :: InNetworks(parse, entries[j], nets)
    {
      assert i == k;
    }
  }

  lemma {:induction false} RightmostPrepend(parse: Parser, nets: seq<Net>, x: seq<string>, entries: seq<string>)
    requires Rightmost(parse, nets, entries) >= 0
    ensures Rightmost(parse, nets, x + entries) == |x| + Rightmost(parse, nets, entries)
    decreases |entries|
  {
    hide InNetworks;
    var n := |entries| - 1;
    assert (x + entries)[|x| + n] == entries[n];
    if InNetworks(parse, entries[n], nets) {
      assert (x + entries)[..|x| + n] == x + entries[..n];
      RightmostPrepend(parse, nets, x, entries[..n]);
    }
  }

  /** What a client puts in front of a chain never changes the answer, unless every entry of that chain is a hop. */
  lemma PrependingChangesNothing(parse: Parser, nets: seq<Net>, forged: string, chain: string)
    requires Rightmost(parse, nets, ChainOf(chain)) >= 0
    ensures ResolveSpec(parse, nets, forged + "," + chain) == ResolveSpec(parse, nets, chain)
  {
    hide InNetworks, SplitOn, NonBlank;
    SplitAppend(forged, ',', chain);
    NonBlankAppend(SplitOn(forged, ','), SplitOn(chain, ','));
    RightmostPrepend(parse, nets, ChainOf(forged), ChainOf(chain));
  }

  /** In particular a chain that resolves keeps its answer. */
  lemma ResolvedStaysResolved(parse: Parser, nets: seq<Net>, forged: string, chain: string)
    requires ResolveSpec(parse, nets, chain).Some?
    ensures ResolveSpec(parse, nets, forged + "," + chain) == ResolveSpec(parse, nets, chain)
  {
    hide InNetworks, ChainOf;
    PrependingChangesNothing(parse, nets, forged, chain);
  }
}
