/**
 Slots: what each app's slot reserves on the host, the ring they are handed out from, and growing
 the ring while the daemon runs. Whatever is allocated, released and reloaded, no two apps and no
 listener of the operator's ever share a port, an address or a device.
 */
module Capacity {
  import opened Basics
  import opened Results

  type App = nat

  const HOST_PORT_BASE: nat := 21_000
  const PORTS_PER_SLOT: nat := 8
  const ADDRESSES_PER_SLOT: nat := 4
  const MAX_PORT: nat := 65_535
  const ZEROFS_PROMETHEUS_PORT: nat := 9_091

  function MostAppsThePortsFit(): nat {
    (MAX_PORT - HOST_PORT_BASE + 1) / PORTS_PER_SLOT
  }

  function ReservedPortRange(maxApps: nat): (nat, nat)
    requires maxApps > 0
  {
    (HOST_PORT_BASE, HOST_PORT_BASE + maxApps * PORTS_PER_SLOT - 1)
  }

  function HostPortAt(slot: nat, index: nat): Option<nat> {
    if index >= PORTS_PER_SLOT then None
    else
      var port := HOST_PORT_BASE + slot * PORTS_PER_SLOT + index;
      if 0 < port <= MAX_PORT then Some(port) else None
  }

  /** The last two octets of an address in the guest network; the first two are fixed. */
  datatype Address = Address(third: nat, fourth: nat)

  function AddressAt(index: nat): Address {
    Address(index / 256, index % 256)
  }

  datatype Slot = Slot(slot: nat, hostPort: nat, hostAddress: Address, guestAddress: Address, mac: Address, device: nat)

  function DescribeSlot(slot: nat): Slot
    requires slot < MostAppsThePortsFit()
  {
    var base := slot * ADDRESSES_PER_SLOT;
    Slot(slot, HostPortAt(slot, 0).value, AddressAt(base + 1), AddressAt(base + 2), AddressAt(base + 2), slot)
  }

  /** Every port a slot reserves is a port, and belongs to that slot and place alone. */
  lemma PortsAreApart(s: nat, i: nat, t: nat, j: nat)
    requires s < MostAppsThePortsFit() && t < MostAppsThePortsFit() && i < PORTS_PER_SLOT && j < PORTS_PER_SLOT
    ensures HostPortAt(s, i).Some? && HostPortAt(t, j).Some?
    ensures HostPortAt(s, i) == HostPortAt(t, j) ==> s == t && i == j
  {
  }

  lemma ReservedExactly(maxApps: nat, port: nat)
    requires 0 < maxApps <= MostAppsThePortsFit()
    ensures ReservedPortRange(maxApps).1 <= MAX_PORT
    ensures ReservedPortRange(maxApps).0 <= port <= ReservedPortRange(maxApps).1 <==>
              exists s, i :: 0 <= s < maxApps && 0 <= i < PORTS_PER_SLOT && HostPortAt(s, i) == Some(port)
  {
    if ReservedPortRange(maxApps).0 <= port <= ReservedPortRange(maxApps).1 {
      var n := port - HOST_PORT_BASE;
      var s, i := n / PORTS_PER_SLOT, n % PORTS_PER_SLOT;
      assert HostPortAt(s, i) == Some(port);
    }
  }

  /** The two addresses of a slot are in the network, and no other slot has either. */
  lemma AddressesAreApart(s: nat, t: nat)
    requires s < MostAppsThePortsFit() && t < MostAppsThePortsFit()
    ensures
      var a, b := DescribeSlot(s), DescribeSlot(t);
      && a.hostAddress.third < 256 && a.hostAddress.fourth < 256 && a.guestAddress.third < 256
          && a.guestAddress.fourth < 256
      && a.hostAddress != b.guestAddress
      && (a.hostAddress == b.hostAddress ==> s == t)
      && (a.guestAddress == b.guestAddress ==> s == t)
      && (a.mac == b.mac ==> s == t)
      && (a.device == b.device ==> s == t)
  {
    AddressInjective(s * 4 + 1, t * 4 + 2);
    AddressInjective(s * 4 + 1, t * 4 + 1);
    AddressInjective(s * 4 + 2, t * 4 + 2);
  }

  lemma AddressInjective(x: nat, y: nat)
    ensures AddressAt(x) == AddressAt(y) ==> x == y
  {
  }

  /**
   A slot in figures: its eight ports follow one another from 21000 on, eight to a slot, and of its four
   addresses the second is the host's and the third the guest's.
   */
  lemma SlotExactly(slot: nat, index: nat)
    requires slot < MostAppsThePortsFit()
    ensures MostAppsThePortsFit() == 5567
    ensures
      var d := DescribeSlot(slot);
      && d.slot == slot && d.hostPort == 21_000 + 8 * slot && d.device == slot
      && d.hostAddress.third * 256 + d.hostAddress.fourth == 4 * slot + 1 && d.hostAddress.fourth < 256
      && d.guestAddress.third * 256 + d.guestAddress.fourth == 4 * slot + 2 && d.guestAddress.fourth < 256
      && d.mac == d.guestAddress
    ensures HostPortAt(slot, index) == if index < 8 then Some(21_000 + 8 * slot + index) else None
  {
  }

  // The ring of slots.

  /** The remainder as the machine takes it, with the sign of the dividend. */
  function TruncatedRemainder(a: int, n: int): int
    requires n > 0
  {
    if a >= 0 then a % n else -((-a) % n)
  }

  function Wrapped(offset: int, span: nat): (slot: nat)
    requires span > 0
    ensures slot < span
  {
    TruncatedRemainder(TruncatedRemainder(offset, span) + span, span)
  }

  lemma WrappedIsModulo(offset: int, span: nat)
    requires span > 0
    ensures Wrapped(offset, span) == offset % span
  {
    var r := TruncatedRemainder(offset, span);
    if offset >= 0 {
      assert r == offset % span;
      QuotientUnique(r + span, span, 1, r);
    } else {
      var m := (-offset) % span;
      assert r == -m;
      if m == 0 {
        QuotientUnique(offset, span, -((-offset) / span), 0);
        QuotientUnique(r + span, span, 1, 0);
      } else {
        QuotientUnique(offset, span, -((-offset) / span) - 1, span - m);
        QuotientUnique(r + span, span, 0, span - m);
      }
    }
  }

  function SlotAfter(cursor: int, step: nat, span: nat): nat
    requires span > 0
  {
    Wrapped(cursor + step, span)
  }

  ghost predicate IsHeld(assignments: map<App, nat>, slot: nat) {
    exists a :: a in assignments && assignments[a] == slot
  }

  /** Going once round the ring from any cursor meets every slot. */
  lemma RingMeets(cursor: int, span: nat, slot: nat) returns (step: nat)
    requires slot < span
    ensures step < span && SlotAfter(cursor, step, span) == slot
  {
    step := (slot - cursor) % span;
    assert slot - cursor == span * ((slot - cursor) / span) + step;
    var q := -((slot - cursor) / span);
    assert q * span == -(span * ((slot - cursor) / span));
    assert cursor + step == q * span + slot;
    QuotientUnique(cursor + step, span, q, slot);
    WrappedIsModulo(cursor + step, span);
  }

  /** Going up from the cursor, and on at 0 after the last slot, all those before this one are held. */
  ghost predicate FirstFree(assignments: map<App, nat>, cursor: int, span: nat, slot: nat)
    requires span > 0
  {
    exists step: nat ::
      && SlotAfter(cursor, step, span) == slot
      && forall k: nat :: k < step ==> IsHeld(assignments, SlotAfter(cursor, k, span))
  }

  class SlotAllocator {
    var assignments: map<App, nat>
    var cursor: int
    var limit: nat

    ghost predicate Valid()
      reads this
    {
      && 0 < limit <= MostAppsThePortsFit()
      && (forall a :: a in assignments ==> assignments[a] < limit)
      && (forall a, b :: a in assignments && b in assignments && assignments[a] == assignments[b] ==> a == b)
    }

    constructor (maxApps: nat)
      requires 0 < maxApps <= MostAppsThePortsFit()
      ensures Valid() && limit == maxApps && assignments == map[]
    {
      assignments, cursor, limit := map[], 0, maxApps;
    }

    method Grow(to: nat)
      requires Valid() && to <= MostAppsThePortsFit()
      modifies this`limit
      ensures Valid() && limit == if to > old(limit) then to else old(limit)
    {
      limit := if to > limit then to else limit;
    }

    /** The first slot round the ring from the cursor that no app holds. */
    method NextFree() returns (free: Option<nat>)
      requires Valid()
      ensures free.Some? ==> free.value < limit && forall a :: a in assignments ==> assignments[a] != free.value
      ensures free.None? ==> forall s: nat :: s < limit ==> IsHeld(assignments, s)
      ensures free.Some? ==> FirstFree(assignments, cursor, limit, free.value)
    {
      var taken := set a | a in assignments :: assignments[a];
      for step := 0 to limit
        invariant forall k: nat :: k < step ==> SlotAfter(cursor, k, limit) in taken
      {
        var slot := SlotAfter(cursor, step, limit);
        if slot !in taken {
          assert forall a :: a in assignments ==> assignments[a] in taken;
          return Some(slot);
        }
      }
      forall s: nat | s < limit ensures IsHeld(assignments, s) {
        var step := RingMeets(cursor, limit, s);
        assert SlotAfter(cursor, step, limit) in taken;
      }
      free := None;
    }

    /** An app keeps its slot; a new one gets a free slot, and is refused only if every slot is held. */
    method Allocate(app: App) returns (r: Result<Slot, nat>)
      requires Valid()
      modifies this`assignments, this`cursor
      ensures Valid()
      ensures r.Ok? ==> app in assignments && r.value == DescribeSlot(assignments[app])
      ensures r.Ok? ==> assignments == old(assignments)[app := assignments[app]]
      ensures app in old(assignments) ==> r.Ok? && assignments == old(assignments)
      ensures r.Ok? && app !in old(assignments) ==>
                && (forall a :: a in old(assignments) ==> old(assignments)[a] != assignments[app])
                && FirstFree(old(assignments), old(cursor), limit, assignments[app])
      ensures cursor == if r.Ok? && app !in old(assignments) then assignments[app] + 1 else old(cursor)
      ensures r.Err? ==> assignments == old(assignments) && app !in assignments && r.error == limit
      ensures r.Err? ==> forall s: nat :: s < limit ==> IsHeld(assignments, s)
    {
      if app in assignments {
        return Ok(DescribeSlot(assignments[app]));
      }
      var free := NextFree();
      if free.None? {
        return Err(limit);
      }
      assignments := assignments[app := free.value];
      cursor := free.value + 1;
      r := Ok(DescribeSlot(free.value));
    }

    method Release(app: App)
      requires Valid()
      modifies this`assignments
      ensures Valid() && assignments == old(assignments) - {app}
    {
      assignments := assignments - {app};
    }
  }

  // The configuration and its reload.

  /** The settings a reload compares; `rest` stands for all that are not named. */
  datatype Settings = Settings(
    maxApps: nat, httpPort: Option<nat>, metricsPort: Option<nat>, zeroFs: bool, rest: nat)

  predicate ListenerOk(port: nat, maxApps: nat)
    requires maxApps > 0
  {
    var (base, end) := ReservedPortRange(maxApps);
    0 < port <= MAX_PORT && !(base <= port <= end)
  }

  /** What the configuration's own checks let through. */
  predicate Accepted(c: Settings) {
    && 0 < c.maxApps <= MostAppsThePortsFit()
    && (c.httpPort.Some? ==> ListenerOk(c.httpPort.value, c.maxApps))
    && (c.metricsPort.Some? ==>
          ListenerOk(c.metricsPort.value, c.maxApps) && c.metricsPort != c.httpPort
          && (c.zeroFs ==> c.metricsPort.value != ZEROFS_PROMETHEUS_PORT))
  }

  /** The checks in figures, for the proxy's listener and the metrics one alike. */
  lemma AcceptedExactly(c: Settings)
    ensures Accepted(c) <==>
            && 1 <= c.maxApps <= 5567
            && (forall port :: c.httpPort == Some(port) || c.metricsPort == Some(port) ==>
                  1 <= port < 21_000 || 21_000 + 8 * c.maxApps <= port <= 65_535)
            && (c.metricsPort.Some? ==> c.metricsPort != c.httpPort && !(c.zeroFs && c.metricsPort == Some(9091)))
  {
    assert c.httpPort.Some? ==> c.httpPort == Some(c.httpPort.value);
    assert c.metricsPort.Some? ==> c.metricsPort == Some(c.metricsPort.value);
  }

  datatype Reply = Unchanged | Grown | RestartRequired | Rejected

  class Daemon {
    var configuration: Settings
    const program: nat
    const allocator: SlotAllocator
    // The settings the daemon came up with, which the export reader's device is taken from.
    ghost const initial: Settings

    constructor (configuration: Settings, program: nat)
      requires Accepted(configuration)
      ensures Safe() && this.configuration == configuration && initial == configuration && fresh(allocator)
      ensures allocator.assignments == map[]
    {
      this.configuration, this.program, this.initial := configuration, program, configuration;
      allocator := new SlotAllocator(configuration.maxApps);
    }

    ghost predicate Safe()
      reads this, allocator
    {
      && allocator.Valid()
      && Accepted(configuration)
      && allocator.limit == configuration.maxApps
      && initial.maxApps <= configuration.maxApps
      && configuration == initial.(maxApps := configuration.maxApps)
      && (configuration.zeroFs ==> configuration == initial)
    }

    /** One reload request; `next` is none if the configuration in it does not read at all. */
    method Reload(requestProgram: nat, inputsUnchanged: bool, next: Option<Settings>) returns (reply: Reply)
      requires Safe()
      modifies this`configuration, allocator
      ensures Safe()
      ensures allocator.assignments == old(allocator.assignments)
      ensures old(configuration.maxApps) <= configuration.maxApps
      ensures reply != Grown ==> configuration == old(configuration)
      ensures reply == Grown <==>
                && requestProgram == program && inputsUnchanged && next.Some? && Accepted(next.value)
                    && !old(configuration.zeroFs)
                && next.value == old(configuration).(maxApps := next.value.maxApps)
                    && next.value.maxApps > old(configuration.maxApps)
      ensures reply == Grown ==> configuration == next.value
    {
      if requestProgram != program || !inputsUnchanged {
        return RestartRequired;
      }
      if next.None? || !Accepted(next.value) {
        return Rejected;
      }
      var supported := configuration.(maxApps := next.value.maxApps);
      if supported != next.value || next.value.maxApps < configuration.maxApps {
        return RestartRequired;
      }
      if next.value == configuration {
        return Unchanged;
      }
      if next.value.zeroFs {
        return RestartRequired;
      }
      allocator.Grow(next.value.maxApps);
      configuration := next.value;
      reply := Grown;
    }
  }

  /** What happens to a daemon: a reload request, an app that needs a slot, an app that leaves. */
  datatype HostEvent =
    | Reloads(program: nat, inputsUnchanged: bool, next: Option<Settings>)
    | Arrives(app: App)
    | Leaves(app: App)

  /**
   Over any sequence of them the host stays safe, the limit only rises and all other settings stay. An
   app that never leaves keeps its slot, one that left and never came back has none.
   */
  method Lives(d: Daemon, events: seq<HostEvent>)
    requires d.Safe()
    modifies d, d.allocator
    ensures d.Safe()
    ensures old(d.configuration.maxApps) <= d.configuration.maxApps == d.allocator.limit
    ensures d.configuration == old(d.configuration).(maxApps := d.configuration.maxApps)
    ensures d.configuration.zeroFs ==> d.configuration == old(d.configuration)
    ensures forall a :: a in old(d.allocator.assignments) && Leaves(a) !in events ==>
                a in d.allocator.assignments && d.allocator.assignments[a] == old(d.allocator.assignments)[a]
    ensures forall a :: Leaves(a) in events && Arrives(a) !in events ==> a !in d.allocator.assignments
    ensures forall a :: a in d.allocator.assignments ==> a in old(d.allocator.assignments) || Arrives(a) in events
    ensures forall a, b, i, j ::
              && a in d.allocator.assignments && b in d.allocator.assignments && a != b
              && 0 <= i < PORTS_PER_SLOT && 0 <= j < PORTS_PER_SLOT ==>
              HostPortAt(d.allocator.assignments[a], i) != HostPortAt(d.allocator.assignments[b], j)
  {
    for k := 0 to |events|
      invariant d.Safe() && old(d.configuration.maxApps) <= d.configuration.maxApps
      invariant forall a :: a in old(d.allocator.assignments) && Leaves(a) !in events[..k] ==>
                  a in d.allocator.assignments && d.allocator.assignments[a] == old(d.allocator.assignments)[a]
      invariant forall a :: Leaves(a) in events[..k] && Arrives(a) !in events[..k] ==> a !in d.allocator.assignments
      invariant forall a :: a in d.allocator.assignments ==>
                  a in old(d.allocator.assignments) || Arrives(a) in events[..k]
    {
      assert events[..k + 1] == events[..k] + [events[k]];
      match events[k] {
        case Reloads(program, inputsUnchanged, next) => var reply := d.Reload(program, inputsUnchanged, next);
        case Arrives(app) => var slot := d.allocator.Allocate(app);
        case Leaves(app) => d.allocator.Release(app);
      }
    }
    assert events[..|events|] == events;
  }

  /** In any state reached: no listener's port is a slot's, and the export reader's device is no app's. */
  lemma SafeMeansApart(d: Daemon, app: App, index: nat)
    requires d.Safe() && app in d.allocator.assignments && index < PORTS_PER_SLOT
    ensures
      var port := HostPortAt(d.allocator.assignments[app], index);
      && port.Some? && port != d.configuration.httpPort && port != d.configuration.metricsPort
      && (d.configuration.zeroFs ==> DescribeSlot(d.allocator.assignments[app]).device != d.initial.maxApps)
  {
    var slot := d.allocator.assignments[app];
    assert HostPortAt(slot, index).Some?;
    ReservedExactly(d.configuration.maxApps, HostPortAt(slot, index).value);
  }

  /** Two apps never share a port, an address, a hardware address or a device. */
  lemma AppsAreApart(d: Daemon, a: App, b: App, i: nat, j: nat)
    requires d.Safe() && a in d.allocator.assignments && b in d.allocator.assignments && a != b
    requires i < PORTS_PER_SLOT && j < PORTS_PER_SLOT
    ensures
      var s, t := DescribeSlot(d.allocator.assignments[a]), DescribeSlot(d.allocator.assignments[b]);
      && HostPortAt(s.slot, i) != HostPortAt(t.slot, j)
      && s.hostAddress != t.hostAddress && s.guestAddress != t.guestAddress && s.hostAddress != t.guestAddress
      && s.mac != t.mac && s.device != t.device
  {
    var s, t := d.allocator.assignments[a], d.allocator.assignments[b];
    PortsAreApart(s, i, t, j);
    AddressesAreApart(s, t);
  }
}
