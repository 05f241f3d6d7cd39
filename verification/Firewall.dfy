/**
 The nftables ruleset, as rules with a packet semantics: within a chain the first rule that
 matches and decides is the verdict, and a counting rule lets the packet go on.
 */
module Firewall {
  import opened Basics
  import opened Results

  /** Addresses from `first` to `last`, which is what a prefix stands for. */
  datatype Range = Range(first: nat, last: nat) {
    predicate Contains(address: nat) {
      first <= address <= last
    }
  }

  function Prefix(a: nat, b: nat, c: nat, d: nat, bits: nat): Range
    requires bits <= 32
  {
    var first := ((a * 256 + b) * 256 + c) * 256 + d;
    Range(first, first + Pow2(32 - bits) - 1)
  }

  function Pow2(n: nat): (p: nat)
    ensures p > 0
  {
    if n == 0 then 1 else 2 * Pow2(n - 1)
  }

  datatype Protocol = Tcp | Udp | Other

  datatype Packet = Packet(
    fromTap: bool, toTap: bool, saddr: nat, daddr: nat, protocol: Protocol, dport: nat,
    established: bool, original: bool)

  datatype Match =
    | FromTap(yes: bool)
    | ToTap(yes: bool)
    | SourceIn(range: Range)
    | DestinationIn(ranges: seq<Range>)
    | TcpOnly
    | TcpPort(port: nat)
    | TcpOrUdpPort(port: nat)
    | Established
    | OriginalDirection

  datatype Action =
    | Accept
    | Reject(reset: bool)
    | Dnat(address: nat, port: nat)
    | Count(app: nat, received: bool)

  datatype Rule = Rule(matches: seq<Match>, action: Action)

  predicate Holds(m: Match, p: Packet) {
    match m
    case FromTap(yes) => p.fromTap == yes
    case ToTap(yes) => p.toTap == yes
    case SourceIn(range) => range.Contains(p.saddr)
    case DestinationIn(ranges) => exists i :: 0 <= i < |ranges| && ranges[i].Contains(p.daddr)
    case TcpOnly => p.protocol == Tcp
    case TcpPort(port) => p.protocol == Tcp && p.dport == port
    case TcpOrUdpPort(port) => p.protocol != Other && p.dport == port
    case Established => p.established
    case OriginalDirection => p.original
  }

  predicate Applies(r: Rule, p: Packet) {
    forall i :: 0 <= i < |r.matches| ==> Holds(r.matches[i], p)
  }

  /** The action of the first rule that matches and decides, if any. */
  function Verdict(rules: seq<Rule>, p: Packet): Option<Action> {
    if rules == [] then None
    else if Applies(rules[0], p) && !rules[0].action.Count? then Some(rules[0].action)
    else Verdict(rules[1..], p)
  }

  /** The counters a packet passes on its way to the verdict. */
  function Counted(rules: seq<Rule>, p: Packet): set<Action> {
    if rules == [] then {}
    else if !Applies(rules[0], p) then Counted(rules[1..], p)
    else if rules[0].action.Count? then {rules[0].action} + Counted(rules[1..], p)
    else {}
  }

  // The state the ruleset is rendered from.

  datatype Port = Port(host: nat, guest: nat, raw: bool)

  datatype Instance = Instance(app: nat, ports: seq<Port>, hostAddress: nat, guestAddress: nat)

  datatype State = State(instances: seq<Instance>, denied: seq<Range>)

  const METADATA: Range := Prefix(169, 254, 169, 254, 32)
  const GUEST_NETWORK: Range := Prefix(10, 201, 0, 0, 16)
  const LOOPBACK: Range := Prefix(127, 0, 0, 0, 8)
  const LOCALHOST: nat := 0x7F00_0001
  const PRIVATE: seq<Range> := [
    Prefix(10, 0, 0, 0, 8), Prefix(172, 16, 0, 0, 12), Prefix(192, 168, 0, 0, 16),
    Prefix(169, 254, 0, 0, 16), Prefix(127, 0, 0, 0, 8), Prefix(100, 64, 0, 0, 10)]

  function At(address: nat): Range {
    Range(address, address)
  }

  function To(range: Range): Match {
    DestinationIn([range])
  }

  function PortMatch(port: Port): Match {
    if port.raw then TcpOrUdpPort(port.host) else TcpPort(port.host)
  }

  // The chains.

  function DeniedEgress(denied: seq<Range>): seq<Rule> {
    if denied == [] then []
    else
      [Rule([FromTap(true), To(denied[0]), TcpOnly], Reject(true)), Rule([FromTap(true), To(denied[0])], Reject(false))]
      + DeniedEgress(denied[1..])
  }

  function ProxyOnlyPorts(address: nat, ports: seq<Port>): seq<Rule> {
    if ports == [] then []
    else
      (if ports[0].raw then []
       else [Rule([ToTap(true), To(At(address)), TcpPort(ports[0].guest), OriginalDirection], Reject(true))])
      + ProxyOnlyPorts(address, ports[1..])
  }

  function ProxyOnly(instances: seq<Instance>): seq<Rule> {
    if instances == [] then []
    else ProxyOnlyPorts(instances[0].guestAddress, instances[0].ports) + ProxyOnly(instances[1..])
  }

  function Isolation(): seq<Rule> {
    [Rule([Established], Accept),
     Rule([FromTap(true), To(METADATA)], Reject(false)),
     Rule([FromTap(true), ToTap(true)], Reject(false)),
     Rule([FromTap(true), To(GUEST_NETWORK)], Reject(false)),
     Rule([FromTap(true), DestinationIn(PRIVATE)], Reject(false))]
  }

  function ForwardChain(s: State): seq<Rule> {
    DeniedEgress(s.denied) + ProxyOnly(s.instances) + Isolation()
  }

  function InputChain(): seq<Rule> {
    [Rule([FromTap(true), Established], Accept), Rule([FromTap(true)], Reject(false))]
  }

  /** Where destinations are rewritten: on arrival from outside, and for what this host itself sends to loopback. */
  datatype NatHook = Arriving | Leaving

  function Guard(hook: NatHook): Match {
    if hook.Arriving? then FromTap(false) else To(At(LOCALHOST))
  }

  /** The proxy reaches every port from this host; from outside only the raw ones are carried. */
  predicate Carried(hook: NatHook, port: Port) {
    hook.Leaving? || port.raw
  }

  function NatPorts(hook: NatHook, address: nat, ports: seq<Port>): seq<Rule> {
    if ports == [] then []
    else
      (if Carried(hook, ports[0]) then [Rule([Guard(hook), PortMatch(ports[0])], Dnat(address, ports[0].guest))]
          else [])
      + NatPorts(hook, address, ports[1..])
  }

  function NatChain(hook: NatHook, instances: seq<Instance>): seq<Rule> {
    if instances == [] then []
    else NatPorts(hook, instances[0].guestAddress, instances[0].ports) + NatChain(hook, instances[1..])
  }

  datatype FilterHook = Forward | Input | Output

  /** The counting rules of one instance, in the chain that runs after the hook's own. */
  function TrafficRules(hook: FilterHook, i: Instance): seq<Rule> {
    match hook
    case Forward =>
      [Rule([FromTap(false), ToTap(true), To(At(i.guestAddress))], Count(i.app, true)),
       Rule([FromTap(true), ToTap(false), SourceIn(At(i.guestAddress))], Count(i.app, false))]
    case Input => [Rule([FromTap(true), SourceIn(At(i.guestAddress))], Count(i.app, false))]
    case Output => [Rule([SourceIn(LOOPBACK), To(At(i.guestAddress))], Count(i.app, true))]
  }

  function Traffic(hook: FilterHook, instances: seq<Instance>): seq<Rule> {
    if instances == [] then [] else TrafficRules(hook, instances[0]) + Traffic(hook, instances[1..])
  }

  function FilterChain(hook: FilterHook, s: State): seq<Rule> {
    match hook
    case Forward => ForwardChain(s)
    case Input => InputChain()
    case Output => []
  }

  /** What a hook counts: its own chain comes first, and what that rejects is never counted. */
  function HookCounts(hook: FilterHook, s: State, p: Packet): set<Action> {
    if Rejected(FilterChain(hook, s), p) then {} else Counted(Traffic(hook, s.instances), p)
  }

  // First match over concatenations.

  lemma {:induction false} VerdictConcat(a: seq<Rule>, b: seq<Rule>, p: Packet)
    ensures Verdict(a + b, p) == if Verdict(a, p).Some? then Verdict(a, p) else Verdict(b, p)
    decreases |a|
  {
    if a == [] {
      assert a + b == b;
    } else {
      assert (a + b)[1..] == a[1..] + b;
      VerdictConcat(a[1..], b, p);
    }
  }

  lemma ToHolds(range: Range, p: Packet)
    ensures Holds(To(range), p) <==> range.Contains(p.daddr)
  {
    var ranges := [range];
    assert ranges[0] == range;
  }

  lemma Applies2(a: Match, b: Match, action: Action, p: Packet)
    ensures Applies(Rule([a, b], action), p) <==> Holds(a, p) && Holds(b, p)
  {
    var r := Rule([a, b], action);
    assert r.matches[0] == a && r.matches[1] == b;
  }

  lemma Applies3(a: Match, b: Match, c: Match, action: Action, p: Packet)
    ensures Applies(Rule([a, b, c], action), p) <==> Holds(a, p) && Holds(b, p) && Holds(c, p)
  {
    var r := Rule([a, b, c], action);
    assert r.matches[0] == a && r.matches[1] == b && r.matches[2] == c;
  }

  lemma Applies4(a: Match, b: Match, c: Match, d: Match, action: Action, p: Packet)
    ensures Applies(Rule([a, b, c, d], action), p) <==> Holds(a, p) && Holds(b, p) && Holds(c, p) && Holds(d, p)
  {
    var r := Rule([a, b, c, d], action);
    assert r.matches[0] == a && r.matches[1] == b && r.matches[2] == c && r.matches[3] == d;
  }

  // What the forward hook means.

  predicate InAny(ranges: seq<Range>, address: nat) {
    exists i :: 0 <= i < |ranges| && ranges[i].Contains(address)
  }

  predicate IsProxyOnly(i: Instance, p: Packet) {
    p.daddr == i.guestAddress && exists k :: 0 <= k < |i.ports| && !i.ports[k].raw && i.ports[k].guest == p.dport
  }

  predicate ReachesProxyOnly(instances: seq<Instance>, p: Packet) {
    exists i :: 0 <= i < |instances| && IsProxyOnly(instances[i], p)
  }

  /** A guest reaching an address the host denies. */
  predicate Denied(s: State, p: Packet) {
    p.fromTap && InAny(s.denied, p.daddr)
  }

  /** A new flow to a guest's HTTP port by any way but the proxy's own connection. */
  predicate AroundProxy(s: State, p: Packet) {
    p.toTap && p.protocol == Tcp && p.original && ReachesProxyOnly(s.instances, p)
  }

  /** A guest opening a flow to the metadata endpoint, another guest or a private destination. */
  predicate OutOfBounds(p: Packet) {
    && !p.established && p.fromTap
    && (p.toTap || METADATA.Contains(p.daddr) || GUEST_NETWORK.Contains(p.daddr) || InAny(PRIVATE, p.daddr))
  }

  lemma {:induction false} DeniedVerdict(denied: seq<Range>, p: Packet)
    ensures Verdict(DeniedEgress(denied), p) ==
            if p.fromTap && InAny(denied, p.daddr) then Some(Reject(p.protocol == Tcp)) else None
  {
    if denied != [] {
      var rules := DeniedEgress(denied);
      DeniedVerdict(denied[1..], p);
      Applies3(FromTap(true), To(denied[0]), TcpOnly, Reject(true), p);
      Applies2(FromTap(true), To(denied[0]), Reject(false), p);
      ToHolds(denied[0], p);
      assert rules[2..] == DeniedEgress(denied[1..]);
      assert rules[1..][1..] == rules[2..];
      InAnySplit(denied, p.daddr);
    }
  }

  lemma InAnySplit(ranges: seq<Range>, address: nat)
    requires ranges != []
    ensures InAny(ranges, address) <==> ranges[0].Contains(address) || InAny(ranges[1..], address)
  {
    if InAny(ranges[1..], address) {
      var i :| 0 <= i < |ranges[1..]| && ranges[1..][i].Contains(address);
      assert ranges[i + 1].Contains(address);
    }
    if i :| 0 <= i < |ranges| && ranges[i].Contains(address) {
      assert i == 0 || ranges[1..][i - 1].Contains(address);
    }
  }

  predicate HasProxyPort(ports: seq<Port>, port: nat) {
    exists k :: 0 <= k < |ports| && !ports[k].raw && ports[k].guest == port
  }

  lemma {:induction false} ProxyPortsVerdict(address: nat, ports: seq<Port>, p: Packet)
    ensures Verdict(ProxyOnlyPorts(address, ports), p) ==
            if p.toTap && p.daddr == address && p.protocol == Tcp && p.original && HasProxyPort(ports, p.dport)
            then Some(Reject(true)) else None
    decreases |ports|
  {
    if ports != [] {
      var rules, rest := ProxyOnlyPorts(address, ports), ports[1..];
      ProxyPortsVerdict(address, rest, p);
      Applies4(ToTap(true), To(At(address)), TcpPort(ports[0].guest), OriginalDirection, Reject(true), p);
      ToHolds(At(address), p);
      assert ports[0].raw ==> rules == ProxyOnlyPorts(address, rest);
      assert !ports[0].raw ==> rules[1..] == ProxyOnlyPorts(address, rest);
      assert HasProxyPort(ports, p.dport) <==>
          (!ports[0].raw && ports[0].guest == p.dport) || HasProxyPort(rest, p.dport) by {
        assert forall k :: 0 < k < |ports| ==> ports[k] == rest[k - 1];
        assert forall k :: 0 <= k < |rest| ==> rest[k] == ports[k + 1];
      }
    }
  }

  lemma {:induction false} ProxyOnlyVerdict(instances: seq<Instance>, p: Packet)
    ensures Verdict(ProxyOnly(instances), p) ==
            if p.toTap && p.protocol == Tcp && p.original && ReachesProxyOnly(instances, p) then Some(Reject(true))
                else None
    decreases |instances|
  {
    if instances != [] {
      var first, rest := instances[0], instances[1..];
      ProxyPortsVerdict(first.guestAddress, first.ports, p);
      ProxyOnlyVerdict(rest, p);
      VerdictConcat(ProxyOnlyPorts(first.guestAddress, first.ports), ProxyOnly(rest), p);
      assert IsProxyOnly(first, p) <==> p.daddr == first.guestAddress && HasProxyPort(first.ports, p.dport);
      assert ReachesProxyOnly(instances, p) <==> IsProxyOnly(first, p) || ReachesProxyOnly(rest, p) by {
        assert forall i :: 0 < i < |instances| ==> instances[i] == rest[i - 1];
        assert forall i :: 0 <= i < |rest| ==> rest[i] == instances[i + 1];
      }
    }
  }

  lemma TapRuleVerdict(m: Match, rest: seq<Rule>, p: Packet)
    ensures Verdict([Rule([FromTap(true), m], Reject(false))] + rest, p) ==
            if p.fromTap && Holds(m, p) then Some(Reject(false)) else Verdict(rest, p)
  {
    var all := [Rule([FromTap(true), m], Reject(false))] + rest;
    Applies2(FromTap(true), m, Reject(false), p);
    assert all[1..] == rest;
  }

  lemma BoundsVerdict(p: Packet)
    ensures Verdict(Isolation()[1..], p) == if OutOfBounds(p.(established := false)) then Some(Reject(false)) else None
  {
    var rules := Isolation();
    TapRuleVerdict(To(METADATA), rules[2..], p);
    TapRuleVerdict(ToTap(true), rules[3..], p);
    TapRuleVerdict(To(GUEST_NETWORK), rules[4..], p);
    TapRuleVerdict(DestinationIn(PRIVATE), [], p);
    ToHolds(METADATA, p);
    ToHolds(GUEST_NETWORK, p);
    assert rules[1..] == [rules[1]] + rules[2..] && rules[2..] == [rules[2]] + rules[3..];
    assert rules[3..] == [rules[3]] + rules[4..] && rules[4..] == [rules[4]] + [];
  }

  lemma IsolationVerdict(p: Packet)
    ensures Verdict(Isolation(), p) ==
            if p.established then Some(Accept) else if OutOfBounds(p) then Some(Reject(false)) else None
  {
    var rules := Isolation();
    assert Applies(rules[0], p) <==> p.established by {
      assert rules[0].matches[0] == Established;
    }
    BoundsVerdict(p);
  }

  lemma Unroll(rules: seq<Rule>, p: Packet, k: nat)
    requires k < |rules|
    ensures Verdict(rules[k..], p) ==
            if Applies(rules[k], p) && !rules[k].action.Count? then Some(rules[k].action)
                else Verdict(rules[k + 1..], p)
  {
    assert rules[k..][0] == rules[k] && rules[k..][1..] == rules[k + 1..];
  }

  /** The verdict of the forward hook on every packet, for every set of instances and denied ranges. */
  lemma ForwardVerdict(s: State, p: Packet)
    ensures Verdict(ForwardChain(s), p) ==
            if Denied(s, p) then Some(Reject(p.protocol == Tcp))
            else if AroundProxy(s, p) then Some(Reject(true))
            else if p.established then Some(Accept)
            else if OutOfBounds(p) then Some(Reject(false))
            else None
  {
    DeniedVerdict(s.denied, p);
    ProxyOnlyVerdict(s.instances, p);
    IsolationVerdict(p);
    VerdictConcat(DeniedEgress(s.denied) + ProxyOnly(s.instances), Isolation(), p);
    VerdictConcat(DeniedEgress(s.denied), ProxyOnly(s.instances), p);
  }

  // Which addresses those are.

  function Dotted(a: nat, b: nat, c: nat, d: nat): nat {
    a * 0x100_0000 + b * 0x1_0000 + c * 0x100 + d
  }

  lemma {:induction false} Pow2Add(m: nat, n: nat)
    ensures Pow2(m + n) == Pow2(m) * Pow2(n)
    decreases m
  {
    if m > 0 {
      Pow2Add(m - 1, n);
      assert Pow2(m + n) == 2 * Pow2(m - 1 + n);
    }
  }

  lemma Powers()
    ensures Pow2(0) == 1 && Pow2(16) == 0x1_0000 && Pow2(20) == 0x10_0000 && Pow2(22) == 0x40_0000
    ensures Pow2(24) == 0x100_0000 && Pow2(32) == 0x1_0000_0000
  {
    assert Pow2(4) == 16;
    Pow2Add(4, 4);
    Pow2Add(8, 8);
    Pow2Add(16, 4);
    Pow2Add(20, 2);
    Pow2Add(16, 8);
    Pow2Add(16, 16);
  }

  /** A block of `size` addresses at a multiple of its size. */
  lemma BlockExactly(base: nat, size: nat, x: nat)
    requires size > 0 && base % size == 0
    ensures base <= x < base + size <==> x / size == base / size
  {
    var q := base / size;
    assert base == q * size;
    if base <= x < base + size {
      QuotientUnique(x, size, q, x - base);
    }
    if x / size == q {
      assert x == q * size + x % size;
    }
  }

  lemma BlockFits(base: nat, size: nat, count: nat)
    requires size > 0 && base % size == 0 && base < size * count
    ensures base + size <= size * count
  {
    var q := base / size;
    assert base == q * size;
    if q >= count {
      Times(count, q, size);
    } else {
      Times(q + 1, count, size);
      assert (q + 1) * size == q * size + size;
    }
  }

  lemma Times(a: nat, b: nat, size: nat)
    requires a <= b
    ensures a * size <= b * size
  {
    assert b * size == a * size + (b - a) * size;
  }

  /** A prefix of `bits` bits holds exactly the addresses that agree with its base in the first `bits` bits. */
  lemma PrefixExactly(a: nat, b: nat, c: nat, d: nat, bits: nat, address: nat)
    requires a < 256 && b < 256 && c < 256 && d < 256 && bits <= 32
    requires Dotted(a, b, c, d) % Pow2(32 - bits) == 0
    ensures Prefix(a, b, c, d, bits).Contains(address) <==>
            address / Pow2(32 - bits) == Dotted(a, b, c, d) / Pow2(32 - bits)
    ensures Prefix(a, b, c, d, bits).Contains(address) ==> address < 0x1_0000_0000
  {
    var size, base := Pow2(32 - bits), Dotted(a, b, c, d);
    Powers();
    Pow2Add(32 - bits, bits);
    BlockExactly(base, size, address);
    BlockFits(base, size, Pow2(bits));
  }

  lemma Figures()
    ensures METADATA == Range(0xA9FE_A9FE, 0xA9FE_A9FE) && GUEST_NETWORK == Range(0x0AC9_0000, 0x0AC9_FFFF)
    ensures LOOPBACK == Range(0x7F00_0000, 0x7FFF_FFFF)
    ensures PRIVATE == [
      Range(0x0A00_0000, 0x0AFF_FFFF), Range(0xAC10_0000, 0xAC1F_FFFF), Range(0xC0A8_0000, 0xC0A8_FFFF),
      Range(0xA9FE_0000, 0xA9FE_FFFF), Range(0x7F00_0000, 0x7FFF_FFFF), Range(0x6440_0000, 0x647F_FFFF)]
  {
    Powers();
  }

  lemma PrivateExactly(a: nat, b: nat, c: nat, d: nat)
    requires a < 256 && b < 256 && c < 256 && d < 256
    ensures InAny(PRIVATE, Dotted(a, b, c, d)) <==> IsPrivate(a, b)
  {
    Figures();
    var x := Dotted(a, b, c, d);
    assert PRIVATE[0].Contains(x) <==> a == 10;
    assert PRIVATE[1].Contains(x) <==> a == 172 && 16 <= b <= 31;
    assert PRIVATE[2].Contains(x) <==> a == 192 && b == 168;
    assert PRIVATE[3].Contains(x) <==> a == 169 && b == 254;
    assert PRIVATE[4].Contains(x) <==> a == 127;
    assert PRIVATE[5].Contains(x) <==> a == 100 && 64 <= b <= 127;
  }

  /** The other ranges the rules name, octet by octet. */
  lemma RangesExactly(a: nat, b: nat, c: nat, d: nat)
    requires a < 256 && b < 256 && c < 256 && d < 256
    ensures METADATA.Contains(Dotted(a, b, c, d)) <==> a == 169 && b == 254 && c == 169 && d == 254
    ensures GUEST_NETWORK.Contains(Dotted(a, b, c, d)) <==> a == 10 && b == 201
    ensures LOOPBACK.Contains(Dotted(a, b, c, d)) <==> a == 127
    ensures LOCALHOST == Dotted(127, 0, 0, 1)
  {
    Figures();
  }

  /** 10/8, 127/8, 192.168/16, 169.254/16, 172.16/12 and 100.64/10, by their first two octets. */
  predicate IsPrivate(a: nat, b: nat) {
    || a == 10
    || a == 127
    || (a == 192 && b == 168)
    || (a == 169 && b == 254)
    || (a == 172 && 16 <= b <= 31)
    || (a == 100 && 64 <= b <= 127)
  }

  /**
   What a guest may reach: a new flow of it that leaves by no other guest's device is refused
   exactly if the host denies its destination or that is a private one.
   */
  lemma GuestReaches(s: State, p: Packet, a: nat, b: nat, c: nat, d: nat)
    requires a < 256 && b < 256 && c < 256 && d < 256 && p.daddr == Dotted(a, b, c, d)
    requires p.fromTap && !p.toTap && !p.established
    ensures Rejected(ForwardChain(s), p) <==> InAny(s.denied, p.daddr) || IsPrivate(a, b)
  {
    RangesExactly(a, b, c, d);
    PrivateExactly(a, b, c, d);
    ForwardRejectsExactly(s, p);
  }

  /** Between guests nothing new is ever let through, and nothing to an address the host denies. */
  lemma GuestsApart(s: State, p: Packet)
    requires p.fromTap && ((p.toTap && !p.established) || InAny(s.denied, p.daddr))
    ensures Rejected(ForwardChain(s), p)
  {
    ForwardRejectsExactly(s, p);
  }

  predicate Rejected(rules: seq<Rule>, p: Packet) {
    Verdict(rules, p).Some? && Verdict(rules, p).value.Reject?
  }

  /** A forwarded packet is refused in exactly three cases. */
  lemma ForwardRejectsExactly(s: State, p: Packet)
    ensures Rejected(ForwardChain(s), p) <==> Denied(s, p) || AroundProxy(s, p) || OutOfBounds(p)
  {
    ForwardVerdict(s, p);
  }

  /** No guest ever opens a flow into this host. */
  lemma InputVerdict(p: Packet)
    ensures Verdict(InputChain(), p) ==
            if !p.fromTap then None else if p.established then Some(Accept) else Some(Reject(false))
  {
    var rules := InputChain();
    Applies2(FromTap(true), Established, Accept, p);
    assert Applies(rules[1], p) <==> p.fromTap by {
      assert rules[1].matches[0] == FromTap(true);
    }
    Unroll(rules, p, 0);
    Unroll(rules, p, 1);
    assert rules[0..] == rules && rules[2..] == [];
  }

  // Port forwarding.

  /** Some instance forwards the port to this place. */
  ghost predicate Forwards(hook: NatHook, instances: seq<Instance>, p: Packet, to: Action) {
    exists i, k :: ForwardsAt(hook, instances, i, k, p)
        && to == Dnat(instances[i].guestAddress, instances[i].ports[k].guest)
  }

  predicate ForwardsAt(hook: NatHook, instances: seq<Instance>, i: int, k: int, p: Packet) {
    && 0 <= i < |instances| && 0 <= k < |instances[i].ports|
    && Matches(hook, instances[i].ports[k], p)
  }

  predicate Matches(hook: NatHook, port: Port, p: Packet) {
    Carried(hook, port) && Holds(PortMatch(port), p)
  }

  /** No host port is used twice on the host. */
  ghost predicate DistinctHostPorts(instances: seq<Instance>) {
    forall i, k, j, m | 0 <= i < |instances| && 0 <= k < |instances[i].ports| && 0 <= j < |instances|
        && 0 <= m < |instances[j].ports| ::
      instances[i].ports[k].host == instances[j].ports[m].host ==> i == j && k == m
  }

  lemma NatPortsCons(hook: NatHook, address: nat, ports: seq<Port>, p: Packet)
    requires ports != []
    ensures Verdict(NatPorts(hook, address, ports), p) ==
            if Holds(Guard(hook), p) && Matches(hook, ports[0], p) then Some(Dnat(address, ports[0].guest))
            else Verdict(NatPorts(hook, address, ports[1..]), p)
  {
    var rules, rest := NatPorts(hook, address, ports), NatPorts(hook, address, ports[1..]);
    Applies2(Guard(hook), PortMatch(ports[0]), Dnat(address, ports[0].guest), p);
    assert Carried(hook, ports[0]) ==> rules[1..] == rest;
    assert !Carried(hook, ports[0]) ==> rules == rest;
  }

  lemma {:induction false} PortsDnat(hook: NatHook, address: nat, ports: seq<Port>, p: Packet, k: int)
    requires Holds(Guard(hook), p) && 0 <= k < |ports| && Matches(hook, ports[k], p)
    requires forall m :: 0 <= m < k ==> !Matches(hook, ports[m], p)
    ensures Verdict(NatPorts(hook, address, ports), p) == Some(Dnat(address, ports[k].guest))
    decreases |ports|
  {
    NatPortsCons(hook, address, ports, p);
    if k > 0 {
      PortsDnat(hook, address, ports[1..], p, k - 1);
    }
  }

  lemma {:induction false} PortsNoDnat(hook: NatHook, address: nat, ports: seq<Port>, p: Packet)
    requires Holds(Guard(hook), p) ==> forall m :: 0 <= m < |ports| ==> !Matches(hook, ports[m], p)
    ensures Verdict(NatPorts(hook, address, ports), p) == None
    decreases |ports|
  {
    if ports != [] {
      NatPortsCons(hook, address, ports, p);
      PortsNoDnat(hook, address, ports[1..], p);
    }
  }

  lemma FirstMatching(hook: NatHook, ports: seq<Port>, p: Packet, k: nat) returns (m: nat)
    requires k < |ports| && Matches(hook, ports[k], p)
    ensures m <= k && Matches(hook, ports[m], p)
    ensures forall i :: 0 <= i < m ==> !Matches(hook, ports[i], p)
  {
    m := 0;
    while !Matches(hook, ports[m], p)
      invariant m <= k
      invariant forall i :: 0 <= i < m ==> !Matches(hook, ports[i], p)
      decreases k - m
    {
      m := m + 1;
    }
  }

  lemma ForwardsLater(hook: NatHook, instances: seq<Instance>, p: Packet)
    requires instances != []
    ensures forall i, k :: ForwardsAt(hook, instances[1..], i, k, p) ==> ForwardsAt(hook, instances, i + 1, k, p)
    ensures forall i, k :: ForwardsAt(hook, instances, i, k, p) ==>
        i == 0 || ForwardsAt(hook, instances[1..], i - 1, k, p)
  {
    var rest := instances[1..];
    assert forall i :: 0 <= i < |rest| ==> rest[i] == instances[i + 1];
    assert forall i :: 0 < i < |instances| ==> instances[i] == rest[i - 1];
  }

  /** A packet is sent on to a guest exactly where some instance forwards its port. */
  lemma {:induction false} NatVerdict(hook: NatHook, instances: seq<Instance>, p: Packet)
    ensures Verdict(NatChain(hook, instances), p).Some? ==>
              Holds(Guard(hook), p) && Forwards(hook, instances, p, Verdict(NatChain(hook, instances), p).value)
    ensures Verdict(NatChain(hook, instances), p) == None ==>
              !Holds(Guard(hook), p) || forall i, k :: !ForwardsAt(hook, instances, i, k, p)
    decreases |instances|
  {
    if instances != [] {
      var first, rest := instances[0], instances[1..];
      VerdictConcat(NatPorts(hook, first.guestAddress, first.ports), NatChain(hook, rest), p);
      NatVerdict(hook, rest, p);
      ForwardsLater(hook, instances, p);
      if Holds(Guard(hook), p) && exists k :: ForwardsAt(hook, instances, 0, k, p) {
        var k :| ForwardsAt(hook, instances, 0, k, p);
        var m := FirstMatching(hook, first.ports, p, k);
        PortsDnat(hook, first.guestAddress, first.ports, p, m);
        assert ForwardsAt(hook, instances, 0, m, p);
      } else {
        forall m | 0 <= m < |first.ports| && Holds(Guard(hook), p) ensures !Matches(hook, first.ports[m], p) {
          assert !ForwardsAt(hook, instances, 0, m, p);
        }
        PortsNoDnat(hook, first.guestAddress, first.ports, p);
        if Verdict(NatChain(hook, rest), p).Some? {
          var i, k :| ForwardsAt(hook, rest, i, k, p) &&
            Verdict(NatChain(hook, rest), p).value == Dnat(rest[i].guestAddress, rest[i].ports[k].guest);
          assert ForwardsAt(hook, instances, i + 1, k, p) && rest[i] == instances[i + 1];
        }
      }
    }
  }

  /** What carries a packet to a guest: its protocol and port against those of a forwarded port. */
  predicate Reaches(port: Port, p: Packet) {
    p.dport == port.host && (p.protocol == Tcp || (port.raw && p.protocol == Udp))
  }

  /**
   What arrives from outside is rewritten exactly if it is for a raw port's host port, and what this
   host sends exactly if it is sent to 127.0.0.1 and for any port's host port.
   */
  lemma NatExactly(hook: NatHook, instances: seq<Instance>, p: Packet)
    ensures Verdict(NatChain(hook, instances), p).Some? <==>
            && (hook.Arriving? ==> !p.fromTap)
            && (hook.Leaving? ==> p.daddr == Dotted(127, 0, 0, 1))
            && exists i, k :: ForwardedAt(hook, instances, i, k, p)
    ensures Verdict(NatChain(hook, instances), p).Some? ==>
              exists i, k :: ForwardedAt(hook, instances, i, k, p)
                && Verdict(NatChain(hook, instances), p).value
                   == Dnat(instances[i].guestAddress, instances[i].ports[k].guest)
  {
    NatVerdict(hook, instances, p);
    ToHolds(At(LOCALHOST), p);
    forall i, k ensures ForwardsAt(hook, instances, i, k, p) <==> ForwardedAt(hook, instances, i, k, p) {
    }
    if Verdict(NatChain(hook, instances), p).Some? {
      var to := Verdict(NatChain(hook, instances), p).value;
      var i, k :| ForwardsAt(hook, instances, i, k, p)
          && to == Dnat(instances[i].guestAddress, instances[i].ports[k].guest);
      assert ForwardedAt(hook, instances, i, k, p);
    }
  }

  predicate ForwardedAt(hook: NatHook, instances: seq<Instance>, i: int, k: int, p: Packet) {
    && 0 <= i < |instances| && 0 <= k < |instances[i].ports|
    && Reaches(instances[i].ports[k], p) && (hook.Arriving? ==> instances[i].ports[k].raw)
  }

  /** With distinct host ports there is only one place a packet can be forwarded to. */
  lemma ForwardsOnce(hook: NatHook, instances: seq<Instance>, p: Packet, a: Action, b: Action)
    requires DistinctHostPorts(instances) && Forwards(hook, instances, p, a) && Forwards(hook, instances, p, b)
    ensures a == b
  {
    var i, k :| ForwardsAt(hook, instances, i, k, p)
        && a == Dnat(instances[i].guestAddress, instances[i].ports[k].guest);
    var j, m :| ForwardsAt(hook, instances, j, m, p)
        && b == Dnat(instances[j].guestAddress, instances[j].ports[m].guest);
    assert instances[i].ports[k].host == instances[j].ports[m].host;
  }

  // Counting.

  ghost predicate DistinctGuests(instances: seq<Instance>) {
    forall i, j :: 0 <= i < |instances| && 0 <= j < |instances| ==>
      instances[i].guestAddress == instances[j].guestAddress ==> i == j
  }

  /** The counter a packet belongs to at a hook, for one instance. */
  predicate CountsFor(hook: FilterHook, i: Instance, p: Packet, c: Action) {
    match hook
    case Forward =>
      || (!p.fromTap && p.toTap && p.daddr == i.guestAddress && c == Count(i.app, true))
      || (p.fromTap && !p.toTap && p.saddr == i.guestAddress && c == Count(i.app, false))
    case Input => p.fromTap && p.saddr == i.guestAddress && c == Count(i.app, false)
    case Output => LOOPBACK.Contains(p.saddr) && p.daddr == i.guestAddress && c == Count(i.app, true)
  }

  ghost predicate CountsForSome(hook: FilterHook, instances: seq<Instance>, p: Packet, c: Action) {
    exists i :: 0 <= i < |instances| && CountsFor(hook, instances[i], p, c)
  }

  lemma CountedCons(r: Rule, rest: seq<Rule>, p: Packet)
    requires r.action.Count?
    ensures Counted([r] + rest, p) == (if Applies(r, p) then {r.action} else {}) + Counted(rest, p)
  {
    assert ([r] + rest)[1..] == rest;
  }

  lemma InstanceCounted(hook: FilterHook, i: Instance, rest: seq<Rule>, p: Packet, c: Action)
    ensures c in Counted(TrafficRules(hook, i) + rest, p) <==> CountsFor(hook, i, p, c) || c in Counted(rest, p)
  {
    var rules := TrafficRules(hook, i);
    ToHolds(At(i.guestAddress), p);
    match hook {
      case Forward =>
        Applies3(FromTap(false), ToTap(true), To(At(i.guestAddress)), Count(i.app, true), p);
        Applies3(FromTap(true), ToTap(false), SourceIn(At(i.guestAddress)), Count(i.app, false), p);
        assert rules + rest == [rules[0]] + ([rules[1]] + rest);
        CountedCons(rules[1], rest, p);
        CountedCons(rules[0], [rules[1]] + rest, p);
      case Input =>
        Applies2(FromTap(true), SourceIn(At(i.guestAddress)), Count(i.app, false), p);
        CountedCons(rules[0], rest, p);
      case Output =>
        Applies2(SourceIn(LOOPBACK), To(At(i.guestAddress)), Count(i.app, true), p);
        CountedCons(rules[0], rest, p);
    }
  }

  lemma {:induction false} TrafficCounted(hook: FilterHook, instances: seq<Instance>, p: Packet, c: Action)
    ensures c in Counted(Traffic(hook, instances), p) <==> CountsForSome(hook, instances, p, c)
    decreases |instances|
  {
    if instances != [] {
      var rest := instances[1..];
      TrafficCounted(hook, rest, p, c);
      InstanceCounted(hook, instances[0], Traffic(hook, rest), p, c);
      assert forall i :: 0 < i < |instances| ==> instances[i] == rest[i - 1];
      assert forall i :: 0 <= i < |rest| ==> rest[i] == instances[i + 1];
    }
  }

  /** What a hook lets through: what the forward chain does not refuse, and no new flow into this host. */
  predicate LetThrough(hook: FilterHook, s: State, p: Packet) {
    match hook
    case Forward => !Denied(s, p) && !AroundProxy(s, p) && !OutOfBounds(p)
    case Input => p.fromTap ==> p.established
    case Output => true
  }

  /** A packet counts for an app exactly when the hook lets it through and it is to or from the app's guest. */
  lemma HookCountsExactly(hook: FilterHook, s: State, p: Packet, c: Action)
    ensures c in HookCounts(hook, s, p) <==> LetThrough(hook, s, p) && CountsForSome(hook, s.instances, p, c)
  {
    TrafficCounted(hook, s.instances, p, c);
    ForwardRejectsExactly(s, p);
    InputVerdict(p);
  }

  /** At every hook a packet is counted for at most one app, and one way only. */
  lemma CountedOnce(hook: FilterHook, s: State, p: Packet, c: Action, d: Action)
    requires DistinctGuests(s.instances)
    requires c in HookCounts(hook, s, p) && d in HookCounts(hook, s, p)
    ensures c == d
  {
    HookCountsExactly(hook, s, p, c);
    HookCountsExactly(hook, s, p, d);
  }

  // The order instances are listed in does not matter.

  lemma ReachesEitherWay(a: seq<Instance>, b: seq<Instance>, p: Packet)
    requires multiset(a) == multiset(b) && ReachesProxyOnly(a, p)
    ensures ReachesProxyOnly(b, p)
  {
    var i :| 0 <= i < |a| && IsProxyOnly(a[i], p);
    var j := SameMember(a, b, i);
  }

  lemma ForwardsEitherWay(hook: NatHook, a: seq<Instance>, b: seq<Instance>, p: Packet, to: Action)
    requires multiset(a) == multiset(b) && Forwards(hook, a, p, to)
    ensures Forwards(hook, b, p, to)
  {
    var i, k :| ForwardsAt(hook, a, i, k, p) && to == Dnat(a[i].guestAddress, a[i].ports[k].guest);
    var j := SameMember(a, b, i);
    assert ForwardsAt(hook, b, j, k, p);
  }

  lemma CountsEitherWay(hook: FilterHook, a: seq<Instance>, b: seq<Instance>, p: Packet, c: Action)
    requires multiset(a) == multiset(b) && CountsForSome(hook, a, p, c)
    ensures CountsForSome(hook, b, p, c)
  {
    var i :| 0 <= i < |a| && CountsFor(hook, a[i], p, c);
    var j := SameMember(a, b, i);
  }

  lemma DnatEitherWay(hook: NatHook, a: seq<Instance>, b: seq<Instance>, p: Packet)
    requires multiset(a) == multiset(b) && DistinctHostPorts(b) && Verdict(NatChain(hook, a), p).Some?
    ensures Verdict(NatChain(hook, b), p) == Verdict(NatChain(hook, a), p)
  {
    NatVerdict(hook, a, p);
    NatVerdict(hook, b, p);
    var to := Verdict(NatChain(hook, a), p).value;
    ForwardsEitherWay(hook, a, b, p, to);
    var i, k :| ForwardsAt(hook, b, i, k, p) && to == Dnat(b[i].guestAddress, b[i].ports[k].guest);
    ForwardsOnce(hook, b, p, to, Verdict(NatChain(hook, b), p).value);
  }

  lemma SameForward(a: State, b: State, p: Packet)
    requires a.denied == b.denied && multiset(a.instances) == multiset(b.instances)
    ensures Verdict(ForwardChain(a), p) == Verdict(ForwardChain(b), p)
  {
    ForwardVerdict(a, p);
    ForwardVerdict(b, p);
    if ReachesProxyOnly(a.instances, p) {
      ReachesEitherWay(a.instances, b.instances, p);
    }
    if ReachesProxyOnly(b.instances, p) {
      ReachesEitherWay(b.instances, a.instances, p);
    }
  }

  lemma SameLetThrough(hook: FilterHook, a: State, b: State, p: Packet)
    requires a.denied == b.denied && multiset(a.instances) == multiset(b.instances)
    ensures LetThrough(hook, a, p) <==> LetThrough(hook, b, p)
  {
    SameForward(a, b, p);
    ForwardRejectsExactly(a, p);
    ForwardRejectsExactly(b, p);
  }

  lemma SameCounts(hook: FilterHook, a: State, b: State, p: Packet)
    requires a.denied == b.denied && multiset(a.instances) == multiset(b.instances)
    ensures HookCounts(hook, a, p) == HookCounts(hook, b, p)
  {
    SameLetThrough(hook, a, b, p);
    forall c ensures c in HookCounts(hook, a, p) <==> c in HookCounts(hook, b, p) {
      HookCountsExactly(hook, a, p, c);
      HookCountsExactly(hook, b, p, c);
      if CountsForSome(hook, a.instances, p, c) {
        CountsEitherWay(hook, a.instances, b.instances, p, c);
      }
      if CountsForSome(hook, b.instances, p, c) {
        CountsEitherWay(hook, b.instances, a.instances, p, c);
      }
    }
  }

  /** Listing the same instances in another order changes no verdict, no target and no counter. */
  lemma OrderIrrelevant(a: State, b: State, p: Packet, rewriting: NatHook, filtering: FilterHook)
    requires a.denied == b.denied && multiset(a.instances) == multiset(b.instances)
    requires DistinctHostPorts(a.instances) && DistinctHostPorts(b.instances)
    ensures Verdict(ForwardChain(a), p) == Verdict(ForwardChain(b), p)
    ensures Verdict(NatChain(rewriting, a.instances), p) == Verdict(NatChain(rewriting, b.instances), p)
    ensures HookCounts(filtering, a, p) == HookCounts(filtering, b, p)
  {
    SameForward(a, b, p);
    SameCounts(filtering, a, b, p);
    if Verdict(NatChain(rewriting, a.instances), p).Some? {
      DnatEitherWay(rewriting, a.instances, b.instances, p);
    } else if Verdict(NatChain(rewriting, b.instances), p).Some? {
      DnatEitherWay(rewriting, b.instances, a.instances, p);
    }
  }
}
