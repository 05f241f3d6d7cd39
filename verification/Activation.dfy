/**
 `nibrunnerd start`: asking systemd for the host's services, and certifying by a receipt which
 running activation of a unit was started with which inputs. Systemd may answer falsely or fail, and
 every interaction is recorded, so what holds of the record holds however the run is cut.
 */
module Activation {
  import opened Results
  import opened StartRecord

  datatype StartError = NeedsPermission | SystemdFailed | NoInvocation | StoreFailed | InputsChanged

  /** Everything outside the program's control in one interaction. */
  datatype Answer = Answer(
    lost: bool,                                   // the question whether a unit is active got no answer
    unreadable: bool,                             // the invocation ID could not be read
    unidentified: bool,                           // ... or was read as none
    done: Option<bool>,                           // how a command ended, if it did
    launches: bool,                               // whether a command that need not have started the unit did
    up: bool,                                     // whether the unit a command started is active after it
    stored: bool,                                 // whether a receipt could be written or removed
    reload: Result<Option<Applied>, StartError>)  // what the running daemon said to the configuration

  const SMOOTH: Answer := Answer(false, false, false, Some(true), true, true, true, Ok(Some(Unchanged)))

  // The plan.

  /** A planned unit: its inputs' digest and its receipt, both as read when the plan was made. */
  datatype Service = Service(unit: Unit, digest: Digest, applied: Option<Receipt>)

  function ServiceOf(u: Unit, w: World, files: Files): Service {
    Service(u, files(u), if u in w.receipts then Some(w.receipts[u]) else None)
  }

  function Plan(hostStorage: bool, zeroFs: bool, w: World, files: Files): seq<Service> {
    (if hostStorage then [ServiceOf(Ready, w, files)] else [])
    + (if zeroFs then [ServiceOf(ZeroFs, w, files), ServiceOf(Mount, w, files)] else [])
    + [ServiceOf(Daemon, w, files)]
  }

  predicate Pending(s: Service, invocation: Option<Invocation>) {
    invocation.None? || s.applied != Some(Receipt(s.digest, invocation.value))
  }

  ghost predicate ServiceOk(s: Service, files: Files) {
    s.digest == files(s.unit) && (s.applied.Some? && s.unit != Ready ==> Certifies(s.unit, s.applied.value))
  }

  ghost predicate Planned(plan: seq<Service>, u: Unit) {
    exists k :: 0 <= k < |plan| && plan[k].unit == u
  }

  ghost predicate Ordered(plan: seq<Service>) {
    forall j, k :: 0 <= j < |plan| && 0 <= k < |plan| && plan[j].unit == ZeroFs && plan[k].unit == Mount ==> j < k
  }

  ghost predicate Distinct(plan: seq<Service>) {
    forall j, k :: 0 <= j < k < |plan| ==> plan[j].unit != plan[k].unit
  }

  ghost predicate DaemonLast(plan: seq<Service>) {
    forall k :: 0 <= k < |plan| && plan[k].unit == Daemon ==> k == |plan| - 1
  }

  /** What the proofs use of a plan. */
  ghost predicate PlanOk(plan: seq<Service>, files: Files) {
    && (forall k :: 0 <= k < |plan| ==> ServiceOk(plan[k], files))
    && Distinct(plan)
    && Ordered(plan)
    && DaemonLast(plan)
    && (Planned(plan, ZeroFs) ==> Planned(plan, Mount))
  }

  /** The plan was made from this world. */
  ghost predicate PlannedFrom(plan: seq<Service>, w: World, files: Files) {
    forall k :: 0 <= k < |plan| ==> plan[k] == ServiceOf(plan[k].unit, w, files)
  }

  lemma PlanIsOk(hostStorage: bool, zeroFs: bool, w: World, files: Files)
    requires Sound(w)
    ensures PlanOk(Plan(hostStorage, zeroFs, w, files), files)
        && PlannedFrom(Plan(hostStorage, zeroFs, w, files), w, files)
  {
    var plan := Plan(hostStorage, zeroFs, w, files);
    if zeroFs {
      assert plan[if hostStorage then 2 else 1].unit == Mount;
    }
  }

  /** The units a host has: the daemon always, the others as it is configured. */
  predicate Configured(hostStorage: bool, zeroFs: bool, u: Unit) {
    match u
    case Ready => hostStorage
    case ZeroFs => zeroFs
    case Mount => zeroFs
    case Daemon => true
  }

  /** The order in which units need one another. */
  function Rank(u: Unit): nat {
    match u
    case Ready => 0
    case ZeroFs => 1
    case Mount => 2
    case Daemon => 3
  }

  /** A plan holds exactly the units the host has, each after those it needs, as the world and the files are. */
  lemma PlanExactly(hostStorage: bool, zeroFs: bool, w: World, files: Files)
    ensures
      var plan := Plan(hostStorage, zeroFs, w, files);
      && (forall u :: Planned(plan, u) <==> Configured(hostStorage, zeroFs, u))
      && (forall j, k :: 0 <= j < k < |plan| ==> Rank(plan[j].unit) < Rank(plan[k].unit))
      && (forall k :: 0 <= k < |plan| ==>
            && plan[k].digest == files(plan[k].unit)
            && (plan[k].applied.Some? <==> plan[k].unit in w.receipts)
            && (plan[k].applied.Some? ==> plan[k].applied.value == w.receipts[plan[k].unit]))
  {
    var plan := Plan(hostStorage, zeroFs, w, files);
    assert plan[|plan| - 1].unit == Daemon;
    if hostStorage {
      assert plan[0].unit == Ready;
    }
    if zeroFs {
      assert plan[|plan| - 2].unit == Mount && plan[|plan| - 3].unit == ZeroFs;
    }
  }

  /** The units to be started at boot: all but the storage preparation, which the mount of its storage starts. */
  function Enabling(plan: seq<Service>): seq<Unit> {
    if plan == [] then []
    else (if plan[0].unit == Ready then [] else [plan[0].unit]) + Enabling(plan[1..])
  }

  datatype Outcome = Started | Restarted | ReloadedOutcome | Running | Failed

  datatype Activated = Activated(unit: Unit, outcome: Outcome, invocation: Option<Invocation>)

  predicate AllUp(units: seq<Activated>) {
    forall k :: 0 <= k < |units| ==> units[k].outcome != Failed
  }

  /** Whether an unfinished unit is given a new process, or only asked to be there. */
  function VerbFor(u: Unit, pending: bool): Verb {
    if u != Ready && (pending || u == Daemon) then RestartVerb else StartVerb
  }

  ghost predicate SubReceipts(v: World, w: World) {
    forall u :: u in v.receipts ==> u in w.receipts && v.receipts[u] == w.receipts[u]
  }

  ghost predicate SameUnit(w: World, v: World, u: Unit) {
    && (u in v.active <==> u in w.active)
    && (u in v.latest <==> u in w.latest)
    && (u in w.latest && u in v.latest ==> v.latest[u] == w.latest[u])
  }

  /** The other units are as they were. */
  ghost predicate SameElsewhere(w: World, v: World, u: Unit) {
    forall x :: x != u ==>
      && (x in v.active <==> x in w.active)
      && (x in v.latest <==> x in w.latest)
      && (x in w.latest && x in v.latest ==> v.latest[x] == w.latest[x])
  }

  ghost predicate UpAs(w: World, a: Activated) {
    a.outcome != Failed && a.unit in w.active && a.unit in w.latest && a.invocation == Some(w.latest[a.unit])
  }

  ghost predicate UpWith(w: World, u: Unit, invocation: Option<Invocation>) {
    u in w.active && u in w.latest && invocation == Some(w.latest[u])
  }

  /** A unit that is active and whose current activation its receipt, as planned, already certifies. */
  ghost predicate Settled(w: World, s: Service) {
    s.unit in w.active && s.unit in w.latest && !Pending(s, Some(w.latest[s.unit]))
  }

  /** The unit may be brought up as it stands: it is not a held ZeroFS, or permission was given. */
  ghost predicate MayVisit(w: World, s: Service, restartZeroFs: bool) {
    restartZeroFs || s.unit != ZeroFs || ZeroFs !in w.active || Settled(w, s)
  }

  ghost predicate AllSettled(w: World, plan: seq<Service>) {
    forall k :: 0 <= k < |plan| ==> Settled(w, plan[k])
  }

  /** The storage preparation runs, if at all, with the inputs as they are, and its receipt does not lie. */
  ghost predicate ReadyCurrent(w: World, files: Files) {
    (Ready in w.active ==> UpToDate(w, Ready, files)) && ReadySound(w)
  }

  /** An invocation a unit may be certified for; of the storage preparation's only if it is current. */
  ghost predicate CertifiableAs(s: Service, invocation: Option<Invocation>, current: bool) {
    invocation.Some? && (s.unit == Ready ==> current) ==> Certifies(s.unit, Receipt(s.digest, invocation.value))
  }

  /** A unit is said to be started if it was not active, and to be restarted only if it was. */
  predicate SaysHow(wasActive: bool, a: Activated) {
    a.outcome != Failed ==> (a.outcome == Started <==> !wasActive) && (a.outcome == Restarted ==> wasActive)
  }

  predicate LeftRunning(a: Activated) {
    a.outcome == Running || a.outcome == ReloadedOutcome
  }

  ghost predicate AllSayHow(w0: World, units: seq<Activated>) {
    forall k :: 0 <= k < |units| ==> SaysHow(units[k].unit in w0.active, units[k])
  }

  /** A daemon left running was asked to take its configuration up, and this is what it said. */
  ghost predicate TakenUp(taken: Option<Applied>, a: Activated) {
    && (a.outcome == Running ==> taken == Some(Unchanged))
    && (a.outcome == ReloadedOutcome ==> taken == Some(Grown))
  }

  /** Units that are not planned keep their receipts. */
  ghost predicate SparesUnplanned(w: World, v: World, plan: seq<Service>) {
    forall u :: !Planned(plan, u) ==>
      (u in v.receipts <==> u in w.receipts) && (u in v.receipts ==> v.receipts[u] == w.receipts[u])
  }

  function Withdrawn(u: Unit): set<Unit> {
    if u == ZeroFs then {ZeroFs, Mount} else {u}
  }

  /** An invocation of the mount that the pass over the record lets be certified. */
  ghost predicate MountCleared(m: Monitor, invocation: Option<Invocation>) {
    invocation.Some? ==> !m.owed && (m.since.Some? ==> m.since.value <= invocation.value.serial)
  }

  /** No planned ZeroFS is running with inputs its receipt does not certify. */
  ghost predicate NoZeroFsHeld(w: World, plan: seq<Service>) {
    NoZeroFsHeldUpTo(w, plan, |plan|)
  }

  ghost predicate NoZeroFsHeldUpTo(w: World, plan: seq<Service>, n: nat)
    requires n <= |plan|
  {
    forall k :: 0 <= k < n && plan[k].unit == ZeroFs && ZeroFs in w.active ==> Settled(w, plan[k])
  }

  ghost predicate Untouched(w: World, v: World, plan: seq<Service>, from: nat) {
    forall k :: from <= k < |plan| ==> SameUnit(w, v, plan[k].unit)
  }

  ghost predicate UnplannedUntouched(w: World, v: World, plan: seq<Service>) {
    forall u :: !Planned(plan, u) ==> SameUnit(w, v, u)
  }

  lemma SparesNext(w: World, v: World, plan: seq<Service>, u: Unit)
    requires Planned(plan, u) && (u == ZeroFs ==> Planned(plan, Mount))
    requires v.receipts - Withdrawn(u) == w.receipts - Withdrawn(u)
    ensures SparesUnplanned(w, v, plan)
  {
    forall x | !Planned(plan, x)
      ensures (x in v.receipts <==> x in w.receipts) && (x in v.receipts ==> v.receipts[x] == w.receipts[x])
    {
      assert x in v.receipts <==> x in v.receipts - Withdrawn(u);
      assert x in w.receipts <==> x in w.receipts - Withdrawn(u);
    }
  }

  ghost predicate AllUpAs(w: World, units: seq<Activated>) {
    forall k :: 0 <= k < |units| ==> UpAs(w, units[k])
  }

  ghost predicate AllRunning(units: seq<Activated>) {
    forall k :: 0 <= k < |units| ==> units[k].outcome == Running
  }

  ghost predicate UnitsOf(plan: seq<Service>, units: seq<Activated>) {
    |units| <= |plan| && forall k :: 0 <= k < |units| ==> units[k].unit == plan[k].unit
  }

  /** A quiet visit leaves the units after it untouched and the ones before it up. */
  lemma UntouchedNext(w0: World, w: World, v: World, plan: seq<Service>, units: seq<Activated>, a: Activated)
    requires |units| < |plan| && UnitsOf(plan, units) && Distinct(plan)
    requires Untouched(w0, w, plan, |units|) && SameElsewhere(w, v, plan[|units|].unit)
    ensures Untouched(w0, v, plan, |units| + 1)
    ensures AllUpAs(w, units) && UpAs(v, a) ==> AllUpAs(v, units + [a])
  {
    forall k | |units| + 1 <= k < |plan| ensures SameUnit(w0, v, plan[k].unit) {
      assert SameUnit(w0, w, plan[k].unit);
      assert plan[|units|].unit != plan[k].unit;
    }
    if AllUpAs(w, units) {
      forall k | 0 <= k < |units| ensures UpAs(v, units[k]) {
        assert UpAs(w, units[k]);
        assert units[k].unit != plan[|units|].unit;
      }
    }
  }

  /** The units of the plan reached so far, in order, each fit to be certified. */
  ghost predicate Reaching(plan: seq<Service>, units: seq<Activated>, m: Monitor, current: bool) {
    && UnitsOf(plan, units)
    && (forall k :: 0 <= k < |units| ==> CertifiableAs(plan[k], units[k].invocation, current))
    && (forall k :: 0 <= k < |units| && plan[k].unit == Mount ==> MountCleared(m, units[k].invocation))
    && (forall k :: 0 <= k < |units| && plan[k].unit == Daemon ==> TakenUp(m.taken, units[k]))
    && (forall k :: 0 <= k < |units| && units[k].outcome == ReloadedOutcome ==> plan[k].unit == Daemon)
  }

  lemma ReachingNext(plan: seq<Service>, units: seq<Activated>, a: Activated, m: Monitor, now: Monitor, current: bool)
    requires |units| < |plan| && Reaching(plan, units, m, current) && Ordered(plan) && DaemonLast(plan)
    requires a.unit == Daemon ==> TakenUp(now.taken, a)
    requires a.outcome == ReloadedOutcome ==> a.unit == Daemon
    requires a.unit == plan[|units|].unit && CertifiableAs(plan[|units|], a.invocation, current)
    requires a.unit != ZeroFs && !m.owed ==> !now.owed
    requires a.unit != ZeroFs ==> now.since == m.since
    requires a.unit == Mount ==> MountCleared(now, a.invocation)
    ensures Reaching(plan, units + [a], now, current)
  {
    forall k | 0 <= k < |units| && plan[k].unit == Mount ensures MountCleared(now, units[k].invocation) {
      assert plan[|units|].unit != ZeroFs;
    }
  }

  /** An activation read back after a command that left the unit up to date. */
  lemma CertifiableAfter(s: Service, w: World, v: World, invocation: Option<Invocation>, files: Files, current: bool)
    requires Sane(v) && Drifts(w, v, files) && ServiceOk(s, files)
    requires s.unit != Ready ==> UpToDate(w, s.unit, files)
    requires invocation.Some? ==> s.unit in v.latest && invocation.value == v.latest[s.unit]
    requires invocation.Some? && s.unit == Ready && current ==> UpToDate(v, Ready, files)
    ensures CertifiableAs(s, invocation, current)
  {
  }

  /** What a mere look at a unit may change in the pass over the record. */
  ghost predicate Looked(m: Monitor, now: Monitor) {
    now == m.(seen := now.seen, up := now.up, confirmed := now.confirmed, readySound := now.readySound)
  }

  class Host {
    const files: Files
    const moves: nat -> seq<Move>
    const answers: nat -> Answer

    var world: World
    var clock: nat
    ghost var trace: seq<Entry>
    ghost var monitor: Monitor
    // Whether the storage preparation was current when the run began.
    ghost const current: bool

    constructor (world: World, files: Files, moves: nat -> seq<Move>, answers: nat -> Answer)
      ensures this.world == world && this.files == files && this.moves == moves && this.answers == answers
      ensures Begins()
    {
      this.world, this.files, this.moves, this.answers := world, files, moves, answers;
      clock, trace, monitor, current := 0, [], START, ReadyCurrent(world, files);
    }

    /** Before the first interaction. */
    ghost predicate Begins()
      reads this
    {
      trace == [] && monitor == START && (current <==> ReadyCurrent(world, files))
    }

    /** What any interaction must find, and the record up to it. */
    ghost predicate Tracked()
      reads this
    {
      && Sane(world) && Sound(world) && (current ==> ReadyCurrent(world, files))
      && Followed(monitor, trace) && monitor.sound && monitor.clean && (current ==> monitor.readySound)
    }

    ghost predicate Good()
      reads this
    {
      && Tracked()
      && Allowed(monitor.owed, monitor.since, monitor.commanded, world.receipts)
      && (monitor.since.Some? ==> monitor.since.value <= world.next)
    }

    /** Nobody else acts, every question is answered truthfully and every request carried out. */
    ghost predicate Quiet() {
      forall n: nat ::
        moves(n) == [] && answers(n).reload.Ok? && answers(n) == SMOOTH.(reload := answers(n).reload)
    }

    ghost predicate ReloadsUnchanged() {
      forall n: nat :: answers(n).reload == Ok(Some(Unchanged))
    }

    ghost method Record(event: Event)
      requires Tracked() && (monitor.since.Some? ==> monitor.since.value <= world.next)
      requires Allowed(Owed(monitor, event), Since(monitor, Entry(event, world)), Commanded(monitor, event),
          world.receipts)
      requires event.Wrote? ==> IsConfirmed(monitor, event.unit, event.invocation)
      requires event.Issued? ==> monitor.enabled.Some? && FitVerb(event.verb, event.unit)
      modifies this`trace, this`monitor
      ensures trace == old(trace) + [Entry(event, world)]
      ensures monitor == Observe(old(monitor), Entry(event, world)) && Good()
    {
      assert Same(trace, trace);
      ghost var more := trace + [Entry(event, world)];
      assert more[..|trace|] == trace;
      monitor, trace := Observe(monitor, Entry(event, world)), more;
      assert monitor == Fold(trace);
    }

    ghost method RecordSaw(u: Unit, yes: bool)
      requires Good()
      modifies this`trace, this`monitor
      ensures Good() && trace == old(trace) + [Entry(Saw(u, yes), world)]
      ensures Looked(old(monitor), monitor) && monitor.confirmed == old(monitor).confirmed - {u}
      ensures monitor.up == if yes then old(monitor).up + {u} else old(monitor).up - {u}
      ensures monitor.seen == if u == ZeroFs then Some(yes) else old(monitor).seen
    {
      Record(Saw(u, yes));
    }

    ghost method RecordAsked(u: Unit, answer: Option<Invocation>)
      requires Good()
      modifies this`trace, this`monitor
      ensures Good() && trace == old(trace) + [Entry(Asked(u, answer), world)]
      ensures Looked(old(monitor), monitor) && monitor.up == old(monitor).up && monitor.seen == old(monitor).seen
      ensures monitor.confirmed ==
              if u in monitor.up && answer.Some? then old(monitor).confirmed[u := answer.value]
              else old(monitor).confirmed - {u}
    {
      Record(Asked(u, answer));
    }

    ghost method RecordManager()
      requires Good()
      modifies this`trace, this`monitor
      ensures Good() && trace == old(trace) + [Entry(ManagerReloaded, world)]
      ensures monitor == old(monitor).(readySound := monitor.readySound, manager := true)
    {
      Record(ManagerReloaded);
    }

    ghost method RecordEnabled(units: seq<Unit>)
      requires Good()
      modifies this`trace, this`monitor
      ensures Good() && trace == old(trace) + [Entry(Enabled(units), world)]
      ensures
        var told := if old(monitor).enabled.None? && old(monitor).manager then Some(units) else old(monitor).enabled;
        monitor == old(monitor).(readySound := monitor.readySound, enabled := told)
    {
      Record(Enabled(units));
    }

    ghost method RecordTookUp(applied: Option<Applied>)
      requires Good()
      modifies this`trace, this`monitor
      ensures Good() && trace == old(trace) + [Entry(TookUp(applied), world)]
      ensures monitor == old(monitor).(readySound := monitor.readySound, taken := applied)
    {
      Record(TookUp(applied));
    }

    ghost method RecordDropped(u: Unit)
      requires Good()
      modifies this`trace, this`monitor
      ensures Good() && trace == old(trace) + [Entry(Dropped(u), world)]
      ensures monitor == old(monitor).(readySound := monitor.readySound)
    {
      Record(Dropped(u));
    }

    ghost method RecordIssued(verb: Verb, u: Unit)
      requires Good() && u !in world.receipts && (u == ZeroFs ==> Mount !in world.receipts)
      requires monitor.enabled.Some? && FitVerb(verb, u)
      modifies this`trace, this`monitor
      ensures Good() && trace == old(trace) + [Entry(Issued(verb, u), world)]
      ensures monitor.owed == Owed(old(monitor), Issued(verb, u))
          && (u != ZeroFs ==> monitor.since == old(monitor).since)
      ensures monitor.enabled == old(monitor).enabled && monitor.taken == old(monitor).taken
      ensures monitor.zeroFsClean <==> old(monitor).zeroFsClean && (u == ZeroFs ==> old(monitor).seen == Some(false))
    {
      Record(Issued(verb, u));
    }

    ghost method RecordWrote(u: Unit, invocation: Invocation)
      requires Tracked() && (monitor.since.Some? ==> monitor.since.value <= world.next)
      requires Allowed(monitor.owed, monitor.since, monitor.commanded - {u}, world.receipts)
      requires IsConfirmed(monitor, u, invocation)
      modifies this`trace, this`monitor
      ensures Good() && trace == old(trace) + [Entry(Wrote(u, invocation), world)] && Filed(old(monitor), monitor)
    {
      Record(Wrote(u, invocation));
    }

    /** Writes a receipt. */
    method Put(u: Unit, receipt: Receipt)
      requires Good()
      requires u != Ready || current ==> Certifies(u, receipt)
      requires u == Mount ==> MountCleared(monitor, Some(receipt.invocation))
      modifies this`world
      ensures world == old(world).(receipts := old(world.receipts)[u := receipt])
      ensures Tracked() && (monitor.since.Some? ==> monitor.since.value <= world.next)
      ensures Allowed(monitor.owed, monitor.since, monitor.commanded - {u}, world.receipts)
    {
      world := world.(receipts := world.receipts[u := receipt]);
    }

    method Discard(u: Unit)
      requires Good()
      modifies this`world
      ensures Good() && world == old(world).(receipts := old(world.receipts) - {u})
    {
      world := world.(receipts := world.receipts - {u});
    }

    /** Lets other actors move; returns what this interaction will meet. */
    method Meet() returns (answer: Answer)
      requires Good()
      modifies this`world, this`clock
      ensures Good() && Drifts(old(world), world, files)
      ensures exists n: nat :: answer == answers(n)
      ensures Quiet() ==> world == old(world)
    {
      answer := answers(clock);
      DisturbDrifts(world, moves(clock), files);
      world := Disturb(world, moves(clock), files);
      clock := clock + 1;
    }

    method IsActive(u: Unit) returns (yes: bool)
      requires Good()
      modifies this`world, this`clock, this`trace, this`monitor
      ensures Good() && Drifts(old(world), world, files)
      ensures trace == old(trace) + [Entry(Saw(u, yes), world)]
      ensures Looked(old(monitor), monitor) && monitor.confirmed == old(monitor).confirmed - {u}
      ensures monitor.up == if yes then old(monitor).up + {u} else old(monitor).up - {u}
      ensures monitor.seen == if u == ZeroFs then Some(yes) else old(monitor).seen
      ensures yes ==> u in world.active
      ensures Quiet() ==> world == old(world) && (yes <==> u in world.active)
    {
      var answer := Meet();
      yes := u in world.active && !answer.lost;
      RecordSaw(u, yes);
    }

    method InvocationId(u: Unit) returns (r: Result<Option<Invocation>, StartError>)
      requires Good()
      modifies this`world, this`clock, this`trace, this`monitor
      ensures Good() && Drifts(old(world), world, files)
      ensures trace == old(trace) + [Entry(Asked(u, if r.Ok? then r.value else None), world)]
      ensures Looked(old(monitor), monitor) && monitor.up == old(monitor).up && monitor.seen == old(monitor).seen
      ensures monitor.confirmed ==
              if u in monitor.up && r.Ok? && r.value.Some? then old(monitor).confirmed[u := r.value.value]
              else old(monitor).confirmed - {u}
      ensures r.Ok? && r.value.Some? ==> u in world.latest && r.value.value == world.latest[u]
      ensures Quiet() ==> world == old(world) && r == Ok(if u in world.latest then Some(world.latest[u]) else None)
    {
      var answer := Meet();
      if answer.unreadable {
        r := Err(SystemdFailed);
      } else if answer.unidentified || u !in world.latest {
        r := Ok(None);
      } else {
        r := Ok(Some(world.latest[u]));
      }
      RecordAsked(u, if r.Ok? then r.value else None);
    }

    /** `daemon-reload`, which starts nothing. */
    method ReloadManager() returns (r: Result<(), StartError>)
      requires Good()
      modifies this`world, this`clock, this`trace, this`monitor
      ensures Good() && Drifts(old(world), world, files)
      ensures trace == old(trace) + [Entry(ManagerReloaded, world)]
      ensures monitor == old(monitor).(readySound := monitor.readySound, manager := true)
      ensures Quiet() ==> world == old(world) && r.Ok?
    {
      var answer := Meet();
      r := if answer.done == Some(true) then Ok(()) else Err(SystemdFailed);
      RecordManager();
    }

    /** `enable`, which starts nothing either. */
    method Enable(units: seq<Unit>) returns (r: Result<(), StartError>)
      requires Good() && monitor.manager && monitor.enabled.None?
      modifies this`world, this`clock, this`trace, this`monitor
      ensures Good() && Drifts(old(world), world, files)
      ensures trace == old(trace) + [Entry(Enabled(units), world)]
      ensures monitor == old(monitor).(readySound := monitor.readySound, enabled := Some(units))
      ensures Quiet() ==> world == old(world) && r.Ok?
    {
      var answer := Meet();
      r := if answer.done == Some(true) then Ok(()) else Err(SystemdFailed);
      RecordEnabled(units);
    }

    /** A restart that reports success started the unit afresh; anything else may or may not have. */
    method Command(verb: Verb, u: Unit) returns (r: Result<bool, StartError>)
      requires Good() && u !in world.receipts && (u == ZeroFs ==> Mount !in world.receipts)
      requires monitor.enabled.Some? && FitVerb(verb, u)
      modifies this`world, this`clock, this`trace, this`monitor
      ensures Good() && Drifts(old(world), world, files)
      ensures trace == old(trace) + [Entry(Issued(verb, u), world)]
      ensures monitor.owed == Owed(old(monitor), Issued(verb, u))
          && (u != ZeroFs ==> monitor.since == old(monitor).since)
      ensures monitor.enabled == old(monitor).enabled && monitor.taken == old(monitor).taken
      ensures monitor.zeroFsClean <==> old(monitor).zeroFsClean && (u == ZeroFs ==> old(monitor).seen == Some(false))
      ensures verb == RestartVerb && r == Ok(true) ==>
                u in world.latest && world.latest[u].digest == files(u) && old(world).next <= world.latest[u].serial
      ensures Quiet() ==> r == Ok(true) && u in world.active && SameElsewhere(old(world), world, u)
      ensures Quiet() && verb == StartVerb && u in old(world.active) ==> world == old(world)
      ensures Quiet() && !(verb == StartVerb && u in old(world.active)) ==>
          world == Launch(old(world), u, files(u), true)
    {
      r := Carry(verb, u);
      RecordIssued(verb, u);
    }

    /** What systemd makes of the command. */
    method Carry(verb: Verb, u: Unit) returns (r: Result<bool, StartError>)
      requires Good()
      modifies this`world, this`clock
      ensures Good() && Drifts(old(world), world, files)
      ensures verb == RestartVerb && r == Ok(true) ==>
                u in world.latest && world.latest[u].digest == files(u) && old(world).next <= world.latest[u].serial
      ensures Quiet() ==> r == Ok(true) && u in world.active && SameElsewhere(old(world), world, u)
      ensures Quiet() && verb == StartVerb && u in old(world.active) ==> world == old(world)
      ensures Quiet() && !(verb == StartVerb && u in old(world.active)) ==>
          world == Launch(old(world), u, files(u), true)
    {
      var answer := Meet();
      if (verb == RestartVerb && answer.done == Some(true))
         || (answer.launches && (verb == RestartVerb || u !in world.active)) {
        Relaunch(u, answer.up);
      }
      r := if answer.done.None? then Err(SystemdFailed) else Ok(answer.done.value);
    }

    method Relaunch(u: Unit, up: bool)
      requires Good()
      modifies this`world
      ensures Good() && world == Launch(old(world), u, files(u), up)
      ensures forall w :: Drifts(w, old(world), files) ==> Drifts(w, world, files)
    {
      LaunchDrifts(world, u, files, up);
      ghost var before := world;
      world := Launch(world, u, files(u), up);
      forall w | Drifts(w, before, files) ensures Drifts(w, world, files) {
        DriftsOn(w, before, world, files);
      }
    }

    method Reload() returns (r: Result<Option<Applied>, StartError>)
      requires Good()
      modifies this`world, this`clock, this`trace, this`monitor
      ensures Good() && Drifts(old(world), world, files)
      ensures
        var taken := if r.Ok? then r.value else None;
        && trace == old(trace) + [Entry(TookUp(taken), world)]
        && monitor == old(monitor).(readySound := monitor.readySound, taken := taken)
      ensures Quiet() ==> world == old(world) && r.Ok?
      ensures ReloadsUnchanged() ==> r == Ok(Some(Unchanged))
    {
      var answer := Meet();
      r := answer.reload;
      RecordTookUp(if r.Ok? then r.value else None);
    }

    /** Removes a unit's receipt. */
    method Invalidate(u: Unit) returns (r: Result<(), StartError>)
      requires Good()
      modifies this`world, this`clock, this`trace, this`monitor
      ensures Good() && Drifts(old(world).(receipts := world.receipts), world, files)
      ensures world.receipts == if r.Ok? then old(world.receipts) - {u} else old(world.receipts)
      ensures trace == old(trace) + [Entry(Dropped(u), world)]
      ensures monitor == old(monitor).(readySound := monitor.readySound)
      ensures Quiet() ==> r.Ok? && world == old(world).(receipts := world.receipts)
    {
      var answer := Meet();
      if answer.stored {
        r := Ok(());
        Discard(u);
      } else {
        r := Err(StoreFailed);
      }
      RecordDropped(u);
    }

    /** Certifies an activation, unless the unit's inputs are no longer the planned ones. */
    method Certify(s: Service, invocation: Invocation) returns (r: Result<(), StartError>)
      requires Good()
      requires CertifiableAs(s, Some(invocation), current)
      requires s.unit == Mount ==> MountCleared(monitor, Some(invocation))
      requires IsConfirmed(monitor, s.unit, invocation)
      modifies this`world, this`clock, this`trace, this`monitor
      ensures Good() && Drifts(old(world).(receipts := world.receipts), world, files)
      ensures world.receipts ==
              if r.Ok? then old(world.receipts)[s.unit := Receipt(s.digest, invocation)] else old(world.receipts)
      ensures trace == old(trace) + [Entry(Wrote(s.unit, invocation), world)]
      ensures Filed(old(monitor), monitor)
      ensures Quiet() && s.digest == files(s.unit) ==> r.Ok? && world == old(world).(receipts := world.receipts)
    {
      var answer := Meet();
      if files(s.unit) != s.digest {
        r := Err(InputsChanged);
      } else if !answer.stored {
        r := Err(StoreFailed);
      } else {
        r := Ok(());
        Put(s.unit, Receipt(s.digest, invocation));
      }
      RecordWrote(s.unit, invocation);
    }

    /** Whether a planned ZeroFS may be left as it runs. */
    method Permits(s: Service) returns (r: Result<(), StartError>)
      requires Good() && s.unit == ZeroFs
      modifies this`world, this`clock, this`trace, this`monitor
      ensures Good() && world.receipts == old(world.receipts) && Looked(old(monitor), monitor)
      ensures Quiet() ==> world == old(world) && (r.Ok? <==> (ZeroFs in world.active ==> Settled(world, s)))
    {
      var active := IsActive(ZeroFs);
      if !active {
        return Ok(());
      }
      var id := InvocationId(ZeroFs);
      if id.Err? {
        return Err(id.error);
      }
      r := if Pending(s, id.value) then Err(NeedsPermission) else Ok(());
    }

    /** The look at ZeroFS before anything is touched. */
    method CheckPermission(plan: seq<Service>) returns (r: Result<(), StartError>)
      requires Good()
      modifies this`world, this`clock, this`trace, this`monitor
      ensures Good() && world.receipts == old(world.receipts) && Looked(old(monitor), monitor)
      ensures Quiet() ==> world == old(world) && (r.Ok? <==> NoZeroFsHeld(world, plan))
    {
      var k := 0;
      r := Ok(());
      while k < |plan| && r.Ok?
        invariant k <= |plan| && Good() && world.receipts == old(world.receipts) && Looked(old(monitor), monitor)
        invariant Quiet() ==> world == old(world) && (r.Ok? <==> NoZeroFsHeldUpTo(world, plan, k))
      {
        if plan[k].unit == ZeroFs {
          r := Permits(plan[k]);
        }
        k := k + 1;
      }
    }

    /** Removes the mount's receipt, wherever the plan has it. */
    method DropMount(plan: seq<Service>) returns (r: Result<(), StartError>)
      requires Good()
      modifies this`world, this`clock, this`trace, this`monitor
      ensures Good() && Drifts(old(world).(receipts := world.receipts), world, files)
      ensures monitor == old(monitor).(readySound := monitor.readySound)
      ensures world.receipts == old(world.receipts) || world.receipts == old(world.receipts) - {Mount}
      ensures r.Ok? && Planned(plan, Mount) ==> world.receipts == old(world.receipts) - {Mount}
      ensures Quiet() ==> r.Ok? && world == old(world).(receipts := world.receipts)
    {
      ghost var w0 := world;
      var j := 0;
      r := Ok(());
      while j < |plan| && r.Ok?
        invariant j <= |plan| && Good() && monitor == old(monitor).(readySound := monitor.readySound)
        invariant Drifts(w0.(receipts := world.receipts), world, files)
        invariant world.receipts == w0.receipts || world.receipts == w0.receipts - {Mount}
        invariant r.Ok? && Mount in world.receipts ==> forall i :: 0 <= i < j ==> plan[i].unit != Mount
        invariant Quiet() ==> r.Ok? && world == w0.(receipts := world.receipts)
      {
        r := DropIfMount(plan[j].unit, w0);
        j := j + 1;
      }
    }

    method DropIfMount(u: Unit, ghost w0: World) returns (r: Result<(), StartError>)
      requires Good() && Drifts(w0.(receipts := world.receipts), world, files)
      modifies this`world, this`clock, this`trace, this`monitor
      ensures Good() && Drifts(w0.(receipts := world.receipts), world, files)
      ensures monitor == old(monitor).(readySound := monitor.readySound)
      ensures world.receipts == if r.Ok? && u == Mount then old(world.receipts) - {Mount} else old(world.receipts)
      ensures Quiet() ==> r.Ok? && world == old(world).(receipts := world.receipts)
    {
      if u != Mount {
        return Ok(());
      }
      ghost var w := world;
      r := Invalidate(Mount);
      DriftsOn(w0.(receipts := world.receipts), w.(receipts := world.receipts), world, files);
    }

    /** Removes a unit's receipt, and the mount's with ZeroFS's. */
    method DropReceipts(plan: seq<Service>, unit: Unit) returns (r: Result<(), StartError>)
      requires Good() && (unit == ZeroFs ==> Planned(plan, Mount))
      modifies this`world, this`clock, this`trace, this`monitor
      ensures Good() && Drifts(old(world).(receipts := world.receipts), world, files)
      ensures SubReceipts(world, old(world)) && monitor == old(monitor).(readySound := monitor.readySound)
      ensures r.Ok? ==> world.receipts == old(world.receipts) - Withdrawn(unit)
      ensures world.receipts - Withdrawn(unit) == old(world.receipts) - Withdrawn(unit)
      ensures Quiet() ==> r.Ok? && world == old(world).(receipts := world.receipts)
    {
      r := Invalidate(unit);
      if r.Ok? && unit == ZeroFs {
        r := DropMount(plan);
      }
    }

    /** Reads back how a unit came up after a command that succeeded. */
    method ReadBack(s: Service, wasActive: bool, verb: Verb) returns (r: Result<Activated, StartError>)
      requires Good()
      modifies this`world, this`clock, this`trace, this`monitor
      ensures Good() && Drifts(old(world), world, files) && Looked(old(monitor), monitor)
      ensures r.Ok? ==> r.value.unit == s.unit && SaysHow(wasActive, r.value)
      ensures r.Ok? ==>
                r.value.outcome != ReloadedOutcome && (verb == RestartVerb ==> r.value.outcome != Running)
      ensures r.Ok? && r.value.invocation.Some? ==>
                s.unit in world.latest && r.value.invocation.value == world.latest[s.unit]
      ensures r.Ok? && r.value.invocation.Some? && s.unit == Ready && current ==> UpToDate(world, Ready, files)
      ensures Quiet() ==> world == old(world)
      ensures Quiet() && s.unit in world.active ==> r.Ok? && UpAs(world, r.value)
    {
      var up := IsActive(s.unit);
      if !up {
        return Ok(Activated(s.unit, Failed, None));
      }
      var id := InvocationId(s.unit);
      if id.Err? {
        return Err(id.error);
      }
      if id.value.None? {
        return Err(NoInvocation);
      }
      var outcome := if !wasActive then Started else if verb == RestartVerb then Restarted else Running;
      r := Ok(Activated(s.unit, outcome, id.value));
    }

    /** Issues the command for a unit and reads back how it came up. */
    method Bring(s: Service, wasActive: bool, pending: bool) returns (r: Result<Activated, StartError>)
      requires Good() && ServiceOk(s, files) && s.unit !in world.receipts
      requires s.unit == ZeroFs ==> Mount !in world.receipts
      requires s.unit != Ready && VerbFor(s.unit, pending) == StartVerb ==> UpToDate(world, s.unit, files)
      requires monitor.enabled.Some?
      modifies this`world, this`clock, this`trace, this`monitor
      ensures Good() && world.receipts == old(world.receipts)
      ensures monitor.enabled == old(monitor).enabled && monitor.taken == old(monitor).taken
      ensures r.Ok? ==> r.value.outcome != ReloadedOutcome && (s.unit == Daemon ==> r.value.outcome != Running)
      ensures r.Ok? ==> SaysHow(wasActive, r.value)
      ensures s.unit != ZeroFs ==> (!old(monitor).owed ==> !monitor.owed) && monitor.since == old(monitor).since
      ensures r.Ok? && s.unit == Mount && pending ==> MountCleared(monitor, r.value.invocation)
      ensures s.unit == Mount && pending ==> !monitor.owed
      ensures old(monitor).zeroFsClean && (s.unit == ZeroFs ==> old(monitor).seen == Some(false)) ==>
          monitor.zeroFsClean
      ensures r.Ok? ==> r.value.unit == s.unit && CertifiableAs(s, r.value.invocation, current)
      ensures Quiet() ==> r.Ok? && UpAs(world, r.value) && SameElsewhere(old(world), world, s.unit)
      ensures Quiet() && s.unit == Ready ==> ReadyKept(old(world), world, files)
    {
      var verb := VerbFor(s.unit, pending);
      var done := Command(verb, s.unit);
      if done.Err? {
        return Err(done.error);
      }
      if !done.value {
        return Ok(Activated(s.unit, Failed, None));
      }
      r := AfterCommand(s, wasActive, verb);
    }

    /** The same for what a successful command has left. */
    method AfterCommand(s: Service, wasActive: bool, verb: Verb) returns (r: Result<Activated, StartError>)
      requires Good() && ServiceOk(s, files)
      requires s.unit != Ready ==> UpToDate(world, s.unit, files)
      modifies this`world, this`clock, this`trace, this`monitor
      ensures Good() && world.receipts == old(world.receipts) && Looked(old(monitor), monitor)
      ensures r.Ok? ==> r.value.unit == s.unit && CertifiableAs(s, r.value.invocation, current)
      ensures r.Ok? ==> SaysHow(wasActive, r.value)
      ensures r.Ok? ==>
                r.value.outcome != ReloadedOutcome && (verb == RestartVerb ==> r.value.outcome != Running)
      ensures r.Ok? && r.value.invocation.Some? && s.unit in old(world).latest ==>
                old(world).latest[s.unit].serial <= r.value.invocation.value.serial
      ensures Quiet() ==> world == old(world)
      ensures Quiet() && s.unit in world.active ==> r.Ok? && UpAs(world, r.value)
    {
      ghost var w := world;
      r := ReadBack(s, wasActive, verb);
      if r.Ok? {
        CertifiableAfter(s, w, world, r.value.invocation, files, current);
      }
    }

    /** Whether a planned unit is active, and as what. */
    method Examine(s: Service) returns (active: bool, id: Result<Option<Invocation>, StartError>)
      requires Good() && ServiceOk(s, files)
      modifies this`world, this`clock, this`trace, this`monitor
      ensures Good() && world.receipts == old(world.receipts) && Looked(old(monitor), monitor)
      ensures s.unit == ZeroFs ==> monitor.seen == Some(active)
      ensures id.Ok? && !Pending(s, id.value) && (s.unit == Ready ==> active) ==> CertifiableAs(s, id.value, current)
      ensures id.Ok? && !Pending(s, id.value) && s.unit != Ready ==> UpToDate(world, s.unit, files)
      ensures Quiet() ==>
                && world == old(world) && (active <==> s.unit in world.active)
                && id == Ok(if s.unit in world.latest then Some(world.latest[s.unit]) else None)
    {
      active := IsActive(s.unit);
      id := InvocationId(s.unit);
    }

    /** Looks at a planned unit: whether it runs, as what, and whether it is due for a command. */
    method Inspect(s: Service, restartZeroFs: bool, mountDue: bool)
      returns (r: Result<Option<Invocation>, StartError>, wasActive: bool, pending: bool)
      requires Good() && ServiceOk(s, files)
      modifies this`world, this`clock, this`trace, this`monitor
      ensures Good() && world.receipts == old(world.receipts) && Looked(old(monitor), monitor)
      ensures r.Ok? && (s.unit == Ready ==> wasActive) && !pending ==> CertifiableAs(s, r.value, current)
      ensures r.Ok? && s.unit != Ready && !pending ==> UpToDate(world, s.unit, files)
      ensures r.Ok? && s.unit == ZeroFs ==>
                monitor.seen == Some(wasActive) && (wasActive && pending ==> restartZeroFs)
      ensures r.Ok? && s.unit == Mount && mountDue ==> pending
      ensures Quiet() ==> world == old(world) && (wasActive <==> s.unit in world.active)
      ensures Quiet() && MayVisit(world, s, restartZeroFs) ==> r.Ok?
      ensures Quiet() && r.Ok? && wasActive && !pending ==> UpWith(world, s.unit, r.value)
      ensures Quiet() && Settled(world, s) && !mountDue ==> r.Ok? && wasActive && !pending
    {
      wasActive, r := Examine(s);
      pending := true;
      if r.Ok? {
        pending := Pending(s, r.value) || (s.unit == Mount && mountDue);
        if s.unit == ZeroFs && pending && wasActive && !restartZeroFs {
          r := Err(NeedsPermission);
        }
      }
    }

    /** Leaves a unit as it runs, the daemon only if it takes its configuration up in place. */
    method Leave(u: Unit, invocation: Option<Invocation>) returns (r: Result<Option<Activated>, StartError>)
      requires Good() && (u != Ready ==> UpToDate(world, u, files))
      modifies this`world, this`clock, this`trace, this`monitor
      ensures Good() && world.receipts == old(world.receipts) && (u != Ready ==> UpToDate(world, u, files))
      ensures Looked(old(monitor).(taken := monitor.taken), monitor)
      ensures r.Ok? && r.value.Some? ==>
                && r.value.value.unit == u && r.value.value.invocation == invocation
                && (if u == Daemon then TakenUp(monitor.taken, r.value.value) && LeftRunning(r.value.value)
                    else r.value.value.outcome == Running)
      ensures u != Daemon ==> r.Ok? && r.value.Some?
      ensures Quiet() ==> world == old(world) && r.Ok?
      ensures Quiet() && ReloadsUnchanged() ==> r.value.Some? && r.value.value.outcome == Running
    {
      if u == Daemon {
        r := TakeUp(invocation);
      } else {
        r := Ok(Some(Activated(u, Running, invocation)));
      }
    }

    /** Asks the running daemon to take its configuration up in place. */
    method TakeUp(invocation: Option<Invocation>) returns (r: Result<Option<Activated>, StartError>)
      requires Good()
      modifies this`world, this`clock, this`trace, this`monitor
      ensures Good() && world.receipts == old(world.receipts) && Drifts(old(world), world, files)
      ensures Looked(old(monitor).(taken := monitor.taken), monitor)
      ensures r.Ok? && r.value.Some? ==> TakenUp(monitor.taken, r.value.value)
      ensures Quiet() ==> world == old(world) && r.Ok?
      ensures r.Ok? && r.value.Some? ==>
                r.value.value.unit == Daemon && r.value.value.invocation == invocation
                    && LeftRunning(r.value.value)
      ensures ReloadsUnchanged() ==> r.Ok? && r.value.Some? && r.value.value.outcome == Running
    {
      var answer := Reload();
      if answer.Err? {
        return Err(answer.error);
      }
      if answer.value.None? {
        return Ok(None);
      }
      var outcome := if answer.value.value == Unchanged then Running else ReloadedOutcome;
      r := Ok(Some(Activated(Daemon, outcome, invocation)));
    }

    /** The mount is due for a restart wherever the pass over the record says so, and uncertified then. */
    ghost predicate Due(mountDue: bool)
      reads this
    {
      (monitor.owed || monitor.since.Some? ==> mountDue) && (mountDue ==> Mount !in world.receipts)
    }

    /** Brings one planned unit up, or leaves it running if nothing it reads changed. */
    method Visit(plan: seq<Service>, s: Service, restartZeroFs: bool, mountDue: bool)
      returns (r: Result<Activated, StartError>, mountDueNow: bool)
      requires Good() && ServiceOk(s, files) && (s.unit == ZeroFs ==> Planned(plan, Mount)) && Due(mountDue)
      requires monitor.enabled.Some?
      modifies this`world, this`clock, this`trace, this`monitor
      ensures Good() && SubReceipts(world, old(world)) && Due(mountDueNow) && monitor.enabled == old(monitor).enabled
      ensures world.receipts - Withdrawn(s.unit) == old(world.receipts) - Withdrawn(s.unit)
      ensures r.Ok? && s.unit == Daemon ==> TakenUp(monitor.taken, r.value)
      ensures r.Ok? && s.unit != Daemon ==> r.value.outcome != ReloadedOutcome
      ensures Quiet() && r.Ok? ==> SaysHow(s.unit in old(world.active), r.value)
      ensures s.unit != ZeroFs ==> (!old(monitor).owed ==> !monitor.owed) && monitor.since == old(monitor).since
      ensures r.Ok? && s.unit == Mount ==> MountCleared(monitor, r.value.invocation)
      ensures !restartZeroFs && old(monitor).zeroFsClean ==> monitor.zeroFsClean
      ensures r.Ok? ==> r.value.unit == s.unit && CertifiableAs(s, r.value.invocation, current)
      ensures Quiet() ==> SameElsewhere(old(world), world, s.unit)
      ensures Quiet() && s.unit == Ready ==> ReadyKept(old(world), world, files)
      ensures Quiet() && MayVisit(old(world), s, restartZeroFs) ==> r.Ok? && UpAs(world, r.value)
      ensures Quiet() && Settled(old(world), s) && !mountDue && ReloadsUnchanged() ==>
                && r.Ok? && r.value.outcome == Running
                && world == old(world) && !mountDueNow && monitor.issued == old(monitor).issued
    {
      mountDueNow := mountDue;
      var id, wasActive, pending := Inspect(s, restartZeroFs, mountDue);
      if id.Err? {
        r := Err(id.error);
      } else {
        r, mountDueNow := LeaveOrRenew(plan, s, id.value, wasActive, pending, mountDue);
      }
    }

    /** Leaves an inspected unit as it runs, if it is not due and may stay so, and brings it up anew if not. */
    method LeaveOrRenew(
      plan: seq<Service>, s: Service, invocation: Option<Invocation>, wasActive: bool, pending: bool, mountDue: bool)
      returns (r: Result<Activated, StartError>, mountDueNow: bool)
      requires Good() && ServiceOk(s, files) && (s.unit == ZeroFs ==> Planned(plan, Mount)) && Due(mountDue)
      requires monitor.enabled.Some? && (s.unit == Mount && mountDue ==> pending)
      requires !pending && (s.unit == Ready ==> wasActive) ==> CertifiableAs(s, invocation, current)
      requires !pending && s.unit != Ready ==> UpToDate(world, s.unit, files)
      modifies this`world, this`clock, this`trace, this`monitor
      ensures Good() && SubReceipts(world, old(world)) && Due(mountDueNow) && monitor.enabled == old(monitor).enabled
      ensures world.receipts - Withdrawn(s.unit) == old(world.receipts) - Withdrawn(s.unit)
      ensures r.Ok? && s.unit == Daemon ==> TakenUp(monitor.taken, r.value)
      ensures r.Ok? && s.unit != Daemon ==> r.value.outcome != ReloadedOutcome
      ensures r.Ok? ==> SaysHow(wasActive, r.value)
      ensures s.unit != ZeroFs ==> (!old(monitor).owed ==> !monitor.owed) && monitor.since == old(monitor).since
      ensures r.Ok? && s.unit == Mount ==> MountCleared(monitor, r.value.invocation)
      ensures old(monitor).zeroFsClean
              && (s.unit == ZeroFs && (pending || !wasActive) ==> old(monitor).seen == Some(false)) ==>
                monitor.zeroFsClean
      ensures r.Ok? ==> r.value.unit == s.unit && CertifiableAs(s, r.value.invocation, current)
      ensures Quiet() ==> SameElsewhere(old(world), world, s.unit)
      ensures Quiet() && s.unit == Ready ==> ReadyKept(old(world), world, files)
      ensures Quiet() && (wasActive && !pending ==> UpWith(old(world), s.unit, invocation)) ==>
                r.Ok? && UpAs(world, r.value)
      ensures Quiet() && wasActive && !pending && !mountDue && ReloadsUnchanged() ==>
                && r.Ok? && r.value.outcome == Running
                && world == old(world) && !mountDueNow && monitor.issued == old(monitor).issued
    {
      mountDueNow := mountDue;
      var left: Result<Option<Activated>, StartError> := Ok(None);
      if wasActive && !pending {
        left := Leave(s.unit, invocation);
      }
      if left == Ok(None) {
        r, mountDueNow := Renew(plan, s, wasActive, pending, mountDue);
      } else {
        r := if left.Err? then Err(left.error) else Ok(left.value.value);
      }
    }

    /** Takes the receipts away and issues the command. */
    method Renew(plan: seq<Service>, s: Service, wasActive: bool, pending: bool, mountDue: bool)
      returns (r: Result<Activated, StartError>, mountDueNow: bool)
      requires Good() && ServiceOk(s, files) && (s.unit == ZeroFs ==> Planned(plan, Mount)) && Due(mountDue)
      requires s.unit == Mount && mountDue ==> pending
      requires s.unit != Ready && VerbFor(s.unit, pending) == StartVerb ==> UpToDate(world, s.unit, files)
      requires monitor.enabled.Some?
      modifies this`world, this`clock, this`trace, this`monitor
      ensures Good() && SubReceipts(world, old(world)) && Due(mountDueNow) && monitor.enabled == old(monitor).enabled
      ensures world.receipts - Withdrawn(s.unit) == old(world.receipts) - Withdrawn(s.unit)
      ensures r.Ok? && s.unit == Daemon ==> TakenUp(monitor.taken, r.value)
      ensures r.Ok? && s.unit != Daemon ==> r.value.outcome != ReloadedOutcome
      ensures r.Ok? ==> SaysHow(wasActive, r.value)
      ensures s.unit != ZeroFs ==> (!old(monitor).owed ==> !monitor.owed) && monitor.since == old(monitor).since
      ensures r.Ok? && s.unit == Mount ==> MountCleared(monitor, r.value.invocation)
      ensures old(monitor).zeroFsClean && (s.unit == ZeroFs ==> old(monitor).seen == Some(false)) ==>
                monitor.zeroFsClean
      ensures r.Ok? ==> r.value.unit == s.unit && CertifiableAs(s, r.value.invocation, current)
      ensures Quiet() ==> r.Ok? && UpAs(world, r.value) && SameElsewhere(old(world), world, s.unit)
      ensures Quiet() && s.unit == Ready ==> ReadyKept(old(world), world, files)
    {
      mountDueNow := mountDue;
      var dropped := DropReceipts(plan, s.unit);
      if dropped.Err? {
        return Err(dropped.error), mountDueNow;
      }
      if s.unit == ZeroFs {
        mountDueNow := true;
      }
      r := Bring(s, wasActive, pending);
    }

    /** Whether a unit that came up is still up, in the activation it was reported in. */
    method StillUp(a: Activated) returns (r: Result<bool, StartError>)
      requires Good()
      modifies this`world, this`clock, this`trace, this`monitor
      ensures Good() && world.receipts == old(world.receipts) && Looked(old(monitor), monitor)
      ensures monitor.confirmed - {a.unit} == old(monitor).confirmed - {a.unit}
      ensures r == Ok(true) ==> a.invocation.Some? && IsConfirmed(monitor, a.unit, a.invocation.value)
      ensures Quiet() ==> world == old(world)
      ensures Quiet() && a.outcome != Failed ==> r == Ok(UpAs(world, a))
    {
      var active := IsActive(a.unit);
      if !active || a.invocation.None? {
        return Ok(false);
      }
      var id := InvocationId(a.unit);
      r := if id.Err? then Err(id.error) else Ok(id.value == a.invocation);
    }

    /** Looks at a unit once more: one that went down or was restarted meanwhile has failed. */
    method LookAgain(a: Activated) returns (r: Result<Activated, StartError>)
      requires Good()
      modifies this`world, this`clock, this`trace, this`monitor
      ensures Good() && world.receipts == old(world.receipts) && Looked(old(monitor), monitor)
      ensures monitor.confirmed - {a.unit} == old(monitor).confirmed - {a.unit}
      ensures r.Ok? ==> r.value == a || r.value == a.(outcome := Failed)
      ensures r.Ok? && r.value.outcome != Failed ==>
                a.invocation.Some? && IsConfirmed(monitor, a.unit, a.invocation.value)
      ensures Quiet() ==> world == old(world) && r == Ok(if UpAs(world, a) then a else a.(outcome := Failed))
    {
      if a.outcome == Failed {
        return Ok(a);
      }
      var up := StillUp(a);
      r := if up.Err? then Err(up.error) else Ok(if up.value then a else a.(outcome := Failed));
    }

    /** The next of the units, those before it looked at again. */
    method RecheckNext(units: seq<Activated>, checked: seq<Activated>) returns (again: Result<Activated, StartError>)
      requires Good() && |checked| < |units| && AllConfirmed(monitor, checked)
      requires forall j, k :: 0 <= j < k < |units| ==> units[j].unit != units[k].unit
      requires forall j :: 0 <= j < |checked| ==> checked[j].unit == units[j].unit
      modifies this`world, this`clock, this`trace, this`monitor
      ensures Good() && world.receipts == old(world.receipts) && Looked(old(monitor), monitor)
      ensures
        var a := units[|checked|];
        && (again.Ok? ==> again.value == a || again.value == a.(outcome := Failed))
        && (again.Ok? ==> AllConfirmed(monitor, checked + [again.value]))
        && (Quiet() ==> world == old(world) && again == Ok(if UpAs(world, a) then a else a.(outcome := Failed)))
    {
      ghost var m := monitor;
      again := LookAgain(units[|checked|]);
      if again.Ok? {
        ConfirmedNext(m, monitor, checked, again.value);
      }
    }

    /** Looks at every unit once more. */
    method Recheck(units: seq<Activated>) returns (r: Result<seq<Activated>, StartError>)
      requires Good() && forall j, k :: 0 <= j < k < |units| ==> units[j].unit != units[k].unit
      modifies this`world, this`clock, this`trace, this`monitor
      ensures Good() && world.receipts == old(world.receipts) && Looked(old(monitor), monitor)
      ensures r.Ok? ==> |r.value| == |units|
      ensures r.Ok? ==> forall k :: 0 <= k < |units| ==>
                r.value[k] == units[k] || r.value[k] == units[k].(outcome := Failed)
      ensures r.Ok? ==> AllConfirmed(monitor, r.value)
      ensures Quiet() ==> world == old(world) && r.Ok?
      ensures Quiet() ==> forall k :: 0 <= k < |units| ==>
                r.value[k] == if UpAs(world, units[k]) then units[k] else units[k].(outcome := Failed)
    {
      var checked: seq<Activated> := [];
      var failed: Option<StartError> := None;
      ghost var w := world;
      while |checked| < |units| && failed.None?
        invariant Good() && world.receipts == old(world.receipts) && Looked(old(monitor), monitor)
        invariant |checked| <= |units| && (failed.None? ==> AllConfirmed(monitor, checked))
        invariant forall j :: 0 <= j < |checked| ==>
                    checked[j] == units[j] || checked[j] == units[j].(outcome := Failed)
        invariant Quiet() ==> world == w && failed.None?
        invariant Quiet() ==> forall j :: 0 <= j < |checked| ==>
                    checked[j] == if UpAs(w, units[j]) then units[j] else units[j].(outcome := Failed)
        decreases |units| - |checked|, failed.None?
      {
        var again := RecheckNext(units, checked);
        if again.Ok? {
          checked := checked + [again.value];
        } else {
          failed := Some(again.error);
        }
      }
      r := if failed.None? then Ok(checked) else Err(failed.value);
    }

    /** Writes or removes the receipt of a unit that was reached. */
    method File(s: Service, a: Activated) returns (r: Result<(), StartError>)
      requires Good() && ServiceOk(s, files) && CertifiableAs(s, a.invocation, current) && a.unit == s.unit
      requires s.unit == Mount ==> MountCleared(monitor, a.invocation)
      requires a.outcome != Failed && a.invocation.Some? ==> IsConfirmed(monitor, s.unit, a.invocation.value)
      modifies this`world, this`clock, this`trace, this`monitor
      ensures Good() && Filed(old(monitor), monitor)
      ensures world.receipts - {s.unit} == old(world.receipts) - {s.unit}
      ensures r.Ok? ==> ReceiptedAs(world, s, a)
      ensures Quiet() ==> r.Ok? && world == old(world).(receipts := world.receipts)
    {
      if a.invocation.Some? && a.outcome != Failed {
        r := Certify(s, a.invocation.value);
      } else {
        r := Invalidate(s.unit);
      }
    }

    /** The same for the `k`th unit, the ones before it done. */
    method FileNext(plan: seq<Service>, units: seq<Activated>, k: nat, ghost w0: World, ghost m0: Monitor)
        returns (r: Result<(), StartError>)
      requires Good() && Filed(m0, monitor)
      requires PlanOk(plan, files) && Reaching(plan, units, m0, current) && AllConfirmed(m0, units)
      requires k < |units| && ReceiptedUpTo(world, plan, units, k) && Elsewhere(w0, world, plan, |units|)
      modifies this`world, this`clock, this`trace, this`monitor
      ensures Good() && Filed(m0, monitor)
      ensures r.Ok? ==> ReceiptedUpTo(world, plan, units, k + 1)
      ensures Elsewhere(w0, world, plan, |units|)
      ensures Quiet() ==> r.Ok? && world == old(world).(receipts := world.receipts)
    {
      ghost var w := world;
      assert ServiceOk(plan[k], files);
      r := File(plan[k], units[k]);
      ElsewhereNext(w0, w, world, plan, k, |units|);
      if r.Ok? {
        ReceiptedNext(w, world, plan, units, k);
      }
    }

    /** Writes or removes the receipt of every unit that was reached. */
    method Settle(plan: seq<Service>, units: seq<Activated>) returns (r: Result<(), StartError>)
      requires Good() && PlanOk(plan, files) && Reaching(plan, units, monitor, current) && AllConfirmed(monitor, units)
      modifies this`world, this`clock, this`trace, this`monitor
      ensures Good() && Filed(old(monitor), monitor)
      ensures r.Ok? ==> Receipted(world, plan, units)
      ensures Elsewhere(old(world), world, plan, |units|)
      ensures Quiet() ==> r.Ok? && world == old(world).(receipts := world.receipts)
    {
      ghost var w0, m0 := world, monitor;
      var k := 0;
      r := Ok(());
      while k < |units| && r.Ok?
        invariant k <= |units| && Good() && Filed(m0, monitor)
        invariant Elsewhere(w0, world, plan, |units|) && (r.Ok? ==> ReceiptedUpTo(world, plan, units, k))
        invariant Quiet() ==> r.Ok? && world == w0.(receipts := world.receipts)
      {
        r := FileNext(plan, units, k, w0, m0);
        k := k + 1;
      }
    }

    /** Where the visits stand: the units reached are fit to be certified, and quiet runs are on their way. */
    ghost predicate OnTheWay(
      plan: seq<Service>, units: seq<Activated>, restartZeroFs: bool, mountDue: bool, w0: World, issued: bool)
      reads this
    {
      && Good() && SubReceipts(world, w0) && SparesUnplanned(w0, world, plan) && monitor.enabled.Some?
      && Reaching(plan, units, monitor, current) && Due(mountDue)
      && (Quiet() ==> Calmly(w0, world, plan, units, restartZeroFs, files))
      && (Quiet() && ReloadsUnchanged() ==> Still(w0, world, plan, units, mountDue, issued == monitor.issued))
      && AllUp(units)
    }

    /** One more visit: the unit joins those reached. */
    method VisitReaching(plan: seq<Service>, units: seq<Activated>, restartZeroFs: bool, mountDue: bool)
      returns (visited: Result<Activated, StartError>, due: bool)
      requires Good() && PlanOk(plan, files) && |units| < |plan|
      requires Reaching(plan, units, monitor, current) && Due(mountDue) && monitor.enabled.Some?
      modifies this`world, this`clock, this`trace, this`monitor
      ensures Good() && SubReceipts(world, old(world)) && monitor.enabled == old(monitor).enabled
      ensures SparesUnplanned(old(world), world, plan)
      ensures !restartZeroFs && old(monitor).zeroFsClean ==> monitor.zeroFsClean
      ensures visited.Ok? ==> Reaching(plan, units + [visited.value], monitor, current) && Due(due)
      ensures
        var s := plan[|units|];
        && (Quiet() ==> SameElsewhere(old(world), world, s.unit))
        && (visited.Ok? ==> visited.value.unit == s.unit)
        && (Quiet() && visited.Ok? ==> SaysHow(s.unit in old(world.active), visited.value))
        && (Quiet() && s.unit == Ready ==> ReadyKept(old(world), world, files))
        && (Quiet() && MayVisit(old(world), s, restartZeroFs) ==> visited.Ok? && UpAs(world, visited.value))
        && (Quiet() && Settled(old(world), s) && !mountDue && ReloadsUnchanged() ==>
              && visited.Ok? && visited.value.outcome == Running
              && world == old(world) && !due && monitor.issued == old(monitor).issued)
    {
      var s := plan[|units|];
      assert ServiceOk(s, files);
      ghost var m := monitor;
      ghost var w := world;
      visited, due := Visit(plan, s, restartZeroFs, mountDue);
      SparesNext(w, world, plan, s.unit);
      if visited.Ok? {
        ReachingNext(plan, units, visited.value, m, monitor, current);
      }
    }

    /** The same as a step of the whole pass, quiet runs included. */
    method VisitNext(
      plan: seq<Service>, units: seq<Activated>, restartZeroFs: bool, mountDue: bool, ghost w0: World,
          ghost issued: bool)
      returns (visited: Result<Activated, StartError>, due: bool)
      requires PlanOk(plan, files) && |units| < |plan|
      requires OnTheWay(plan, units, restartZeroFs, mountDue, w0, issued)
      modifies this`world, this`clock, this`trace, this`monitor
      ensures Good() && SubReceipts(world, w0) && SparesUnplanned(w0, world, plan)
      ensures monitor.enabled == old(monitor).enabled
      ensures !restartZeroFs && old(monitor).zeroFsClean ==> monitor.zeroFsClean
      ensures visited.Ok? ==> Reaching(plan, units + [visited.value], monitor, current) && Due(due)
      ensures Quiet() ==> Further(w0, world, plan, units, visited, restartZeroFs, files)
      ensures Quiet() && ReloadsUnchanged() ==>
                StillFurther(w0, world, plan, units, visited, due, issued == monitor.issued)
    {
      ghost var w, m := world, monitor;
      visited, due := VisitReaching(plan, units, restartZeroFs, mountDue);
      if Quiet() {
        CalmlyNext(w0, w, world, plan, units, visited, restartZeroFs, files);
      }
      if Quiet() && ReloadsUnchanged() {
        StillNext(w0, w, world, plan, units, visited, mountDue, due, issued == m.issued, issued == monitor.issued);
      }
    }

    /** Visits the planned units in order, up to the first that does not come up. */
    method VisitAll(plan: seq<Service>, restartZeroFs: bool) returns (r: Result<seq<Activated>, StartError>)
      requires Good() && PlanOk(plan, files) && !monitor.owed && monitor.since == None && monitor.enabled.Some?
      modifies this`world, this`clock, this`trace, this`monitor
      ensures Good() && SubReceipts(world, old(world)) && SparesUnplanned(old(world), world, plan)
      ensures monitor.enabled == old(monitor).enabled
      ensures Quiet() ==> UnplannedUntouched(old(world), world, plan) && (r.Ok? ==> AllSayHow(old(world), r.value))
      ensures !restartZeroFs && old(monitor).zeroFsClean ==> monitor.zeroFsClean
      ensures r.Ok? ==> Reaching(plan, r.value, monitor, current)
      ensures r.Ok? && AllUp(r.value) ==> |r.value| == |plan|
      ensures Quiet() && (restartZeroFs || NoZeroFsHeld(old(world), plan)) ==>
                r.Ok? && |r.value| == |plan| && AllUpAs(world, r.value)
      ensures Quiet() ==> ReadyKept(old(world), world, files)
      ensures Quiet() && ReloadsUnchanged() && AllSettled(old(world), plan) ==>
                r.Ok? && world == old(world) && monitor.issued == old(monitor).issued && AllRunning(r.value)
    {
      var units: seq<Activated> := [];
      var mountDue := false;
      ghost var w0, issued := world, monitor.issued;
      while |units| < |plan|
        invariant OnTheWay(plan, units, restartZeroFs, mountDue, w0, issued)
        invariant !restartZeroFs && old(monitor).zeroFsClean ==> monitor.zeroFsClean
        invariant monitor.enabled == old(monitor).enabled
        decreases |plan| - |units|
      {
        var visited, due := VisitNext(plan, units, restartZeroFs, mountDue, w0, issued);
        if visited.Err? {
          return Err(visited.error);
        }
        mountDue := due;
        units := units + [visited.value];
        if visited.value.outcome == Failed {
          assert units[|units| - 1] == visited.value;
          return Ok(units);
        }
      }
      r := Ok(units);
    }

    /** Every unit of the plan is up, and its receipt certifies the activation it is up as. */
    ghost predicate Converged(plan: seq<Service>)
      reads this
    {
      forall k :: 0 <= k < |plan| ==> Settled(world, ServiceOf(plan[k].unit, world, files))
    }

    /**
     The whole activation. Whatever other actors and systemd do, and wherever it is cut, no receipt
     but the storage preparation's ever lies, and that one does not if it was current at the start.
     A command takes a unit's receipt away until a new one is written, which happens only for an
     activation looked at again after the last command; a mount certified after a ZeroFS command was
     begun after it; and without permission ZeroFS is commanded only when last seen inactive. In a
     quiet host it converges, refuses a held ZeroFS before touching anything, does nothing at all
     where everything is settled, and certifies the storage preparation truly exactly when that was
     inactive or up to date.
     */
    method Activate(plan: seq<Service>, restartZeroFs: bool) returns (r: Result<seq<Activated>, StartError>)
      requires Sane(world) && Sound(world) && Begins() && PlanOk(plan, files) && PlannedFrom(plan, world, files)
      modifies this`world, this`clock, this`trace, this`monitor
      ensures AllSound(trace) && Sound(world) && Sane(world)
      ensures ReadyCurrent(old(world), files) ==> AllReadySound(trace) && ReadySound(world)
      ensures MountRule(trace) && ReceiptRule(trace) && WriteRule(trace)
      ensures PrepareRule(trace, Enabling(plan)) && VerbRule(trace)
      ensures r.Ok? ==> AllTakenUp(LastTaken(trace), r.value)
      ensures SparesUnplanned(old(world), world, plan) && (Quiet() ==> UnplannedUntouched(old(world), world, plan))
      ensures Quiet() && r.Ok? ==> AllSayHow(old(world), r.value)
      ensures !restartZeroFs ==> ZeroFsRule(trace)
      ensures r.Ok? ==> UnitsOf(plan, r.value) && Receipted(world, plan, r.value)
      ensures r.Ok? && AllUp(r.value) ==> |r.value| == |plan| && AllNamed(r.value)
      ensures Quiet() && r.Ok? && AllUp(r.value) ==> AllUpAs(world, r.value)
      ensures Quiet() && (restartZeroFs || NoZeroFsHeld(old(world), plan)) ==>
          r.Ok? && AllUp(r.value) && Converged(plan)
      ensures Quiet() && (restartZeroFs || NoZeroFsHeld(old(world), plan)) && Planned(plan, Ready) ==>
                && Ready in world.receipts
                && (Ready in old(world.active) ==>
                      world.receipts[Ready] == Receipt(files(Ready), old(world).latest[Ready]))
                && (Certifies(Ready, world.receipts[Ready]) <==>
                    (Ready in old(world.active) ==> UpToDate(old(world), Ready, files)))
      ensures Quiet() && !restartZeroFs && !NoZeroFsHeld(old(world), plan) ==>
                r.Err? && world == old(world) && NothingIssued(trace)
      ensures Quiet() && ReloadsUnchanged() && AllSettled(old(world), plan) ==>
                r.Ok? && AllRunning(r.value) && |r.value| == |plan| && NothingIssued(trace) && world == old(world)
    {
      ghost var w0 := world;
      r := Proceed(plan, restartZeroFs);
      assert Same(trace, trace);
      MonitorSees(trace);
      MonitorMeansMountRule(trace);
      MonitorMeansReceiptRule(trace);
      MonitorMeansWriteRule(trace);
      MonitorMeansPrepareRule(trace, Enabling(plan));
      MonitorTakes(trace);
      if Quiet() && r.Ok? && |r.value| == |plan| && AllUpAs(world, r.value) {
        ReceiptedIsSettled(world, plan, r.value, files);
        if Planned(plan, Ready) {
          ReadyReceipt(w0, world, plan, r.value, files);
        }
      }
    }

    /** What comes before the first unit: the permission check, then reloading and enabling the units. */
    method Prepare(plan: seq<Service>, restartZeroFs: bool) returns (r: Result<(), StartError>)
      requires Good() && monitor.enabled.None?
      modifies this`world, this`clock, this`trace, this`monitor
      ensures Good() && world.receipts == old(world.receipts)
      ensures monitor.enabled in {None, Some(Enabling(plan))} && (r.Ok? ==> monitor.enabled.Some?)
      ensures Looked(old(monitor).(manager := monitor.manager, enabled := monitor.enabled), monitor)
      ensures Quiet() ==> world == old(world) && (r.Ok? <==> restartZeroFs || NoZeroFsHeld(world, plan))
    {
      if !restartZeroFs {
        r := CheckPermission(plan);
        if r.Err? {
          return;
        }
      }
      r := Announce(Enabling(plan));
    }

    /** Systemd reads the unit files anew, and then has these units started at boot. */
    method Announce(units: seq<Unit>) returns (r: Result<(), StartError>)
      requires Good() && monitor.enabled.None?
      modifies this`world, this`clock, this`trace, this`monitor
      ensures Good() && world.receipts == old(world.receipts)
      ensures monitor.enabled == (if r.Ok? then Some(units) else monitor.enabled)
      ensures monitor.enabled in {None, Some(units)}
      ensures Looked(old(monitor).(manager := monitor.manager, enabled := monitor.enabled), monitor)
      ensures Quiet() ==> world == old(world) && r.Ok?
    {
      r := ReloadManager();
      if r.Ok? {
        r := Enable(units);
      }
    }

    method Proceed(plan: seq<Service>, restartZeroFs: bool) returns (r: Result<seq<Activated>, StartError>)
      requires Good() && !monitor.owed && monitor.since == None && !monitor.issued && monitor.zeroFsClean
      requires PlanOk(plan, files) && PlannedFrom(plan, world, files) && monitor.enabled.None?
      modifies this`world, this`clock, this`trace, this`monitor
      ensures Good() && SparesUnplanned(old(world), world, plan) && monitor.enabled in {None, Some(Enabling(plan))}
      ensures r.Ok? ==> AllTakenUp(monitor.taken, r.value)
      ensures Quiet() ==> UnplannedUntouched(old(world), world, plan) && (r.Ok? ==> AllSayHow(old(world), r.value))
      ensures !restartZeroFs ==> monitor.zeroFsClean
      ensures r.Ok? ==> UnitsOf(plan, r.value) && Receipted(world, plan, r.value)
      ensures r.Ok? && AllUp(r.value) ==> |r.value| == |plan| && AllNamed(r.value)
      ensures Quiet() && r.Ok? && AllUp(r.value) ==> AllUpAs(world, r.value)
      ensures Quiet() && (restartZeroFs || NoZeroFsHeld(old(world), plan)) ==>
                r.Ok? && |r.value| == |plan| && AllUpAs(world, r.value)
      ensures Quiet() ==> ReadyKept(old(world), world, files)
      ensures Quiet() && !restartZeroFs && !NoZeroFsHeld(old(world), plan) ==>
                r.Err? && world == old(world) && !monitor.issued
      ensures Quiet() && ReloadsUnchanged() && AllSettled(old(world), plan) ==>
                r.Ok? && AllRunning(r.value) && !monitor.issued && world == old(world)
    {
      ghost var w0 := world;
      var prepared := Prepare(plan, restartZeroFs);
      if prepared.Err? {
        return Err(prepared.error);
      }
      r := VisitAll(plan, restartZeroFs);
      if r.Err? {
        return;
      }
      ghost var units := r.value;
      r := Certified(plan, r.value);
      if Quiet() && ReloadsUnchanged() && AllSettled(w0, plan) {
        SameReceipts(w0, world, plan, r.value);
      }
    }

    /** The second look, and then the receipts. */
    method Certified(plan: seq<Service>, units: seq<Activated>) returns (r: Result<seq<Activated>, StartError>)
      requires Good() && PlanOk(plan, files) && Reaching(plan, units, monitor, current)
      modifies this`world, this`clock, this`trace, this`monitor
      ensures Good() && monitor.zeroFsClean == old(monitor).zeroFsClean && monitor.issued == old(monitor).issued
      ensures monitor.enabled == old(monitor).enabled && monitor.taken == old(monitor).taken
      ensures r.Ok? ==> AllTakenUp(monitor.taken, r.value)
      ensures r.Ok? ==> UnitsOf(plan, r.value) && |r.value| == |units| && Receipted(world, plan, r.value)
      ensures r.Ok? && AllUp(r.value) ==> AllUp(units) && AllNamed(r.value)
      ensures Quiet() ==> r.Ok? && world == old(world).(receipts := world.receipts)
      ensures Quiet() && AllUp(r.value) ==> AllUpAs(world, r.value)
      ensures r.Ok? ==> FailedAtMost(units, r.value)
      ensures Elsewhere(old(world), world, plan, |units|)
      ensures Quiet() && AllUpAs(old(world), units) ==> r.value == units
    {
      r := Recheck(units);
      if r.Ok? {
        StillReaching(plan, units, r.value, monitor, current);
        var settled := Settle(plan, r.value);
        if settled.Err? {
          r := Err(settled.error);
        }
      }
    }
  }

  /** The same units, but that some may be marked failed. */
  ghost predicate FailedAtMost(units: seq<Activated>, again: seq<Activated>) {
    |again| == |units| && forall k :: 0 <= k < |units| ==>
      again[k] == units[k] || again[k] == units[k].(outcome := Failed)
  }

  /** Every unit is known by the activation it is up as. */
  ghost predicate AllNamed(units: seq<Activated>) {
    forall k :: 0 <= k < |units| ==> units[k].invocation.Some?
  }

  /** Units marked failed at the second look are still the units reached. */
  lemma StillReaching(plan: seq<Service>, units: seq<Activated>, again: seq<Activated>, m: Monitor, current: bool)
    requires Reaching(plan, units, m, current) && |again| == |units|
    requires forall k :: 0 <= k < |units| ==> again[k] == units[k] || again[k] == units[k].(outcome := Failed)
    ensures Reaching(plan, again, m, current) && AllTakenUp(m.taken, again)
    ensures AllUp(again) ==> AllUp(units)
  {
    forall k | 0 <= k < |units|
      ensures again[k].unit == plan[k].unit && again[k].invocation == units[k].invocation
    {
    }
    if AllUp(again) {
      forall k | 0 <= k < |units| ensures units[k].outcome != Failed {
        assert again[k].outcome != Failed;
      }
    }
  }

  /** A daemon said to run as it did, or to have grown, said so itself; no other unit is said to have grown. */
  ghost predicate AllTakenUp(taken: Option<Applied>, units: seq<Activated>) {
    forall k :: 0 <= k < |units| ==>
      && (units[k].unit == Daemon ==> TakenUp(taken, units[k]))
      && (units[k].outcome == ReloadedOutcome ==> units[k].unit == Daemon)
  }

  /** Everything reached and not failed was looked at again since the last command. */
  ghost predicate AllConfirmed(m: Monitor, units: seq<Activated>) {
    forall k :: 0 <= k < |units| && units[k].outcome != Failed ==>
      units[k].invocation.Some? && IsConfirmed(m, units[k].unit, units[k].invocation.value)
  }

  lemma ConfirmedNext(m: Monitor, now: Monitor, checked: seq<Activated>, a: Activated)
    requires AllConfirmed(m, checked) && forall k :: 0 <= k < |checked| ==> checked[k].unit != a.unit
    requires now.confirmed - {a.unit} == m.confirmed - {a.unit}
    requires a.outcome != Failed ==> a.invocation.Some? && IsConfirmed(now, a.unit, a.invocation.value)
    ensures AllConfirmed(now, checked + [a])
  {
    forall k | 0 <= k < |checked| && checked[k].outcome != Failed
      ensures checked[k].invocation.Some? && IsConfirmed(now, checked[k].unit, checked[k].invocation.value)
    {
      assert checked[k].unit in m.confirmed - {a.unit};
    }
  }

  lemma ElsewhereNext(w0: World, w: World, v: World, plan: seq<Service>, k: nat, n: nat)
    requires k < n <= |plan| && Elsewhere(w0, w, plan, n) && v.receipts - {plan[k].unit} == w.receipts - {plan[k].unit}
    ensures Elsewhere(w0, v, plan, n)
  {
    forall u | forall j :: 0 <= j < n ==> plan[j].unit != u
      ensures u in v.receipts <==> u in w0.receipts
      ensures u in v.receipts && u in w0.receipts ==> v.receipts[u] == w0.receipts[u]
    {
      assert u != plan[k].unit;
      assert u in v.receipts <==> u in v.receipts - {plan[k].unit};
      assert u in w.receipts <==> u in w.receipts - {plan[k].unit};
    }
  }

  lemma ReceiptedNext(w: World, v: World, plan: seq<Service>, units: seq<Activated>, k: nat)
    requires k < |units| <= |plan| && Distinct(plan) && ReceiptedUpTo(w, plan, units, k)
    requires v.receipts - {plan[k].unit} == w.receipts - {plan[k].unit} && ReceiptedAs(v, plan[k], units[k])
    ensures ReceiptedUpTo(v, plan, units, k + 1)
  {
    forall j | 0 <= j < k ensures ReceiptedAs(v, plan[j], units[j]) {
      var u := plan[j].unit;
      assert ReceiptedAs(w, plan[j], units[j]);
      assert u != plan[k].unit;
      assert u in v.receipts <==> u in v.receipts - {plan[k].unit};
      assert u in w.receipts <==> u in w.receipts - {plan[k].unit};
    }
  }

  /** What writing and removing receipts may change in the pass over the record. */
  ghost predicate Filed(m: Monitor, now: Monitor) {
    now == m.(commanded := now.commanded, readySound := now.readySound)
  }

  /** The storage preparation is as it was if it was active, and up to date if it was not but is now. */
  ghost predicate ReadyKept(w: World, v: World, files: Files) {
    && (Ready in w.active ==> SameUnit(w, v, Ready))
    && (Ready !in w.active && Ready in v.active ==> Ready in v.latest && v.latest[Ready].digest == files(Ready))
  }

  /** How far a quiet run has come: what it has not reached is untouched, what it has is up. */
  ghost predicate Calmly(w0: World, w: World, plan: seq<Service>, units: seq<Activated>, restartZeroFs: bool,
      files: Files) {
    && |units| <= |plan|
    && Untouched(w0, w, plan, |units|) && UnplannedUntouched(w0, w, plan) && AllSayHow(w0, units)
    && ReadyKept(w0, w, files)
    && (restartZeroFs || NoZeroFsHeld(w0, plan) ==> AllUpAs(w, units))
  }

  /** The same after one more visit. */
  ghost predicate Further(
    w0: World, v: World, plan: seq<Service>, units: seq<Activated>, visited: Result<Activated, StartError>,
    restartZeroFs: bool, files: Files)
  {
    && ReadyKept(w0, v, files) && UnplannedUntouched(w0, v, plan)
    && (visited.Ok? ==> Calmly(w0, v, plan, units + [visited.value], restartZeroFs, files))
    && (restartZeroFs || NoZeroFsHeld(w0, plan) ==> visited.Ok? && visited.value.outcome != Failed)
  }

  lemma CalmlyNext(
    w0: World, w: World, v: World, plan: seq<Service>, units: seq<Activated>, visited: Result<Activated, StartError>,
    restartZeroFs: bool, files: Files)
    requires |units| < |plan| && UnitsOf(plan, units) && Distinct(plan)
    requires Calmly(w0, w, plan, units, restartZeroFs, files) && SameElsewhere(w, v, plan[|units|].unit)
    requires plan[|units|].unit == Ready ==> ReadyKept(w, v, files)
    requires visited.Ok? ==>
               visited.value.unit == plan[|units|].unit && SaysHow(plan[|units|].unit in w.active, visited.value)
    requires
      var s := plan[|units|];
      MayVisit(w, s, restartZeroFs) ==> visited.Ok? && UpAs(v, visited.value)
    ensures Further(w0, v, plan, units, visited, restartZeroFs, files)
  {
    var s := plan[|units|];
    assert SameUnit(w0, w, s.unit);
    assert s.unit != Ready ==> SameUnit(w, v, Ready);
    assert forall u :: !Planned(plan, u) ==> u != s.unit;
    if visited.Ok? {
      UntouchedNext(w0, w, v, plan, units, visited.value);
    }
  }

  /** A quiet run of a settled host has done nothing. */
  ghost predicate Still(w0: World, w: World, plan: seq<Service>, units: seq<Activated>, mountDue: bool,
      unissued: bool) {
    AllSettled(w0, plan) ==> w == w0 && !mountDue && unissued && AllRunning(units)
  }

  ghost predicate StillFurther(
    w0: World, v: World, plan: seq<Service>, units: seq<Activated>, visited: Result<Activated, StartError>,
    due: bool, unissued: bool)
  {
    && (visited.Ok? ==> Still(w0, v, plan, units + [visited.value], due, unissued))
    && (AllSettled(w0, plan) ==> visited.Ok? && visited.value.outcome == Running)
  }

  lemma StillNext(
    w0: World, w: World, v: World, plan: seq<Service>, units: seq<Activated>, visited: Result<Activated, StartError>,
    was: bool, due: bool, unissued: bool, unissuedNow: bool)
    requires |units| < |plan| && Still(w0, w, plan, units, was, unissued)
    requires Settled(w, plan[|units|]) && !was ==>
               visited.Ok? && visited.value.outcome == Running && v == w && !due && (unissued ==> unissuedNow)
    ensures StillFurther(w0, v, plan, units, visited, due, unissuedNow)
  {
  }

  /** Each reached unit has exactly the receipt its outcome calls for. */
  ghost predicate Receipted(w: World, plan: seq<Service>, units: seq<Activated>) {
    |units| <= |plan| && ReceiptedUpTo(w, plan, units, |units|)
  }

  ghost predicate ReceiptedUpTo(w: World, plan: seq<Service>, units: seq<Activated>, n: nat)
    requires n <= |units| <= |plan|
  {
    forall k :: 0 <= k < n ==> ReceiptedAs(w, plan[k], units[k])
  }

  ghost predicate ReceiptedAs(w: World, s: Service, a: Activated) {
    if a.outcome != Failed && a.invocation.Some?
    then s.unit in w.receipts && w.receipts[s.unit] == Receipt(s.digest, a.invocation.value)
    else s.unit !in w.receipts
  }

  ghost predicate Elsewhere(w: World, v: World, plan: seq<Service>, n: nat)
    requires n <= |plan|
  {
    forall u :: (forall k :: 0 <= k < n ==> plan[k].unit != u) ==>
      (u in v.receipts <==> u in w.receipts) && (u in v.receipts && u in w.receipts ==> v.receipts[u] == w.receipts[u])
  }

  /** Certifying what was already certified changes nothing. */
  lemma SameReceipts(w: World, v: World, plan: seq<Service>, units: seq<Activated>)
    requires |units| == |plan| && Receipted(v, plan, units) && AllUpAs(w, units) && UnitsOf(plan, units)
    requires AllSettled(w, plan)
    requires forall k :: 0 <= k < |plan| ==>
               plan[k].applied == if plan[k].unit in w.receipts then Some(w.receipts[plan[k].unit]) else None
    requires Elsewhere(w, v, plan, |plan|)
    ensures v.receipts == w.receipts
  {
    forall u ensures u in v.receipts <==> u in w.receipts
      ensures u in v.receipts && u in w.receipts ==> v.receipts[u] == w.receipts[u]
    {
      if k :| 0 <= k < |plan| && plan[k].unit == u {
        assert UpAs(w, units[k]) && Settled(w, plan[k]) && ReceiptedAs(v, plan[k], units[k]);
      }
    }
  }

  /** What a run left up and certified is settled in whatever plan is made from that world. */
  lemma ReceiptedIsSettled(w: World, plan: seq<Service>, units: seq<Activated>, files: Files)
    requires |units| == |plan| && PlanOk(plan, files) && UnitsOf(plan, units)
    requires Receipted(w, plan, units) && AllUpAs(w, units)
    ensures forall k :: 0 <= k < |plan| ==> Settled(w, ServiceOf(plan[k].unit, w, files))
  {
    forall k | 0 <= k < |plan| ensures Settled(w, ServiceOf(plan[k].unit, w, files)) {
      assert UpAs(w, units[k]) && ReceiptedAs(w, plan[k], units[k]) && ServiceOk(plan[k], files);
    }
  }

  /** The receipt a quiet run leaves for the storage preparation. */
  lemma ReadyReceipt(w0: World, w: World, plan: seq<Service>, units: seq<Activated>, files: Files)
    requires Sane(w0) && Sane(w) && |units| == |plan| && PlanOk(plan, files) && UnitsOf(plan, units)
        && Planned(plan, Ready)
    requires Receipted(w, plan, units) && AllUpAs(w, units) && ReadyKept(w0, w, files)
    ensures
      && Ready in w.receipts
      && (Ready in w0.active ==> w.receipts[Ready] == Receipt(files(Ready), w0.latest[Ready]))
      && (Certifies(Ready, w.receipts[Ready]) <==> (Ready in w0.active ==> UpToDate(w0, Ready, files)))
  {
    var k :| 0 <= k < |plan| && plan[k].unit == Ready;
    assert UpAs(w, units[k]) && ReceiptedAs(w, plan[k], units[k]) && ServiceOk(plan[k], files);
  }

  lemma SamePlan(hostStorage: bool, zeroFs: bool, before: World, after: World, files: Files, units: seq<Activated>)
    requires
      var plan := Plan(hostStorage, zeroFs, before, files);
      |units| == |plan| && PlanOk(plan, files) && UnitsOf(plan, units) && Receipted(after, plan, units)
          && AllUpAs(after, units)
    ensures AllSettled(after, Plan(hostStorage, zeroFs, after, files))
  {
    var first, plan := Plan(hostStorage, zeroFs, before, files), Plan(hostStorage, zeroFs, after, files);
    ReceiptedIsSettled(after, first, units, files);
    forall k | 0 <= k < |plan| ensures Settled(after, plan[k]) {
      assert plan[k] == ServiceOf(first[k].unit, after, files);
    }
  }

  lemma EnablingIs(hostStorage: bool, zeroFs: bool, w: World, files: Files)
    ensures Enabling(Plan(hostStorage, zeroFs, w, files)) == if zeroFs then [ZeroFs, Mount, Daemon] else [Daemon]
  {
    var daemon := [ServiceOf(Daemon, w, files)];
    var served := [ServiceOf(ZeroFs, w, files), ServiceOf(Mount, w, files)] + daemon;
    assert daemon[1..] == [] && served[1..] == [ServiceOf(Mount, w, files)] + daemon && served[1..][1..] == daemon;
    var plan := Plan(hostStorage, zeroFs, w, files);
    if hostStorage {
      assert plan[1..] == if zeroFs then served else daemon;
    } else {
      assert plan == if zeroFs then served else daemon;
    }
    assert Enabling(daemon) == [Daemon];
    assert zeroFs ==> Enabling(served) == [ZeroFs, Mount, Daemon];
  }

  /** What a start that came up entirely says and leaves. */
  ghost predicate CameUp(hostStorage: bool, zeroFs: bool, w: World, units: seq<Activated>) {
    && (forall u :: Configured(hostStorage, zeroFs, u) <==> exists k :: 0 <= k < |units| && units[k].unit == u)
    && (forall k :: 0 <= k < |units| ==>
          units[k].outcome != Failed && units[k].unit in w.receipts
          && units[k].invocation == Some(w.receipts[units[k].unit].invocation))
  }

  lemma AllUpMeansCameUp(hostStorage: bool, zeroFs: bool, w0: World, w: World, files: Files, units: seq<Activated>)
    requires
      var plan := Plan(hostStorage, zeroFs, w0, files);
      UnitsOf(plan, units) && |units| == |plan| && Receipted(w, plan, units) && AllUp(units)
          && AllNamed(units)
    ensures CameUp(hostStorage, zeroFs, w, units)
  {
    var plan := Plan(hostStorage, zeroFs, w0, files);
    PlanExactly(hostStorage, zeroFs, w0, files);
    forall u ensures Configured(hostStorage, zeroFs, u) <==> exists k :: 0 <= k < |units| && units[k].unit == u {
      if k :| 0 <= k < |plan| && plan[k].unit == u {
        assert units[k].unit == u;
      }
      if k :| 0 <= k < |units| && units[k].unit == u {
        assert plan[k].unit == u;
      }
    }
    forall k | 0 <= k < |units|
      ensures units[k].unit in w.receipts && units[k].invocation == Some(w.receipts[units[k].unit].invocation)
    {
      assert ReceiptedAs(w, plan[k], units[k]);
    }
  }

  /** A quiet start leaves every unit the host has running as certified, and every other as it was. */
  ghost predicate StartedQuietly(hostStorage: bool, zeroFs: bool, w0: World, w: World, files: Files) {
    forall u ::
      if Configured(hostStorage, zeroFs, u) then
        && u in w.active && u in w.latest && u in w.receipts && w.receipts[u] == Receipt(files(u), w.latest[u])
      else SameUnit(w0, w, u)
  }

  lemma QuietMeansStarted(hostStorage: bool, zeroFs: bool, w0: World, w: World, files: Files, units: seq<Activated>)
    requires
      var plan := Plan(hostStorage, zeroFs, w0, files);
      && UnitsOf(plan, units) && |units| == |plan| && Receipted(w, plan, units) && AllUpAs(w, units)
      && UnplannedUntouched(w0, w, plan)
    ensures StartedQuietly(hostStorage, zeroFs, w0, w, files)
  {
    var plan := Plan(hostStorage, zeroFs, w0, files);
    PlanExactly(hostStorage, zeroFs, w0, files);
    forall u | Configured(hostStorage, zeroFs, u)
      ensures u in w.active && u in w.latest && u in w.receipts && w.receipts[u] == Receipt(files(u), w.latest[u])
    {
      var k :| 0 <= k < |plan| && plan[k].unit == u;
      assert UpAs(w, units[k]) && ReceiptedAs(w, plan[k], units[k]);
    }
  }

  /**
   Starting a host: the units it has are those its configuration calls for, the daemon always among
   them. A start that says everything is up has certified each of them, and one that nobody disturbs
   leaves each running so, and the others, with their receipts, as they were.
   */
  method Start(host: Host, hostStorage: bool, zeroFs: bool, permission: bool)
    returns (r: Result<seq<Activated>, StartError>)
    requires Sane(host.world) && Sound(host.world) && host.Begins()
    modifies host
    ensures Sane(host.world) && Sound(host.world)
    ensures PrepareRule(host.trace, if zeroFs then [ZeroFs, Mount, Daemon] else [Daemon])
    ensures r.Ok? && AllUp(r.value) ==> CameUp(hostStorage, zeroFs, host.world, r.value)
    ensures forall u :: !Configured(hostStorage, zeroFs, u) ==>
              (u in host.world.receipts <==> u in old(host.world).receipts)
              && (u in host.world.receipts ==> host.world.receipts[u] == old(host.world).receipts[u])
    ensures host.Quiet() && r.Ok? && AllUp(r.value) ==>
              StartedQuietly(hostStorage, zeroFs, old(host.world), host.world, host.files)
  {
    PlanIsOk(hostStorage, zeroFs, host.world, host.files);
    PlanExactly(hostStorage, zeroFs, host.world, host.files);
    EnablingIs(hostStorage, zeroFs, host.world, host.files);
    ghost var w0 := host.world;
    r := host.Activate(Plan(hostStorage, zeroFs, host.world, host.files), permission);
    if r.Ok? && AllUp(r.value) {
      AllUpMeansCameUp(hostStorage, zeroFs, w0, host.world, host.files, r.value);
      if host.Quiet() {
        QuietMeansStarted(hostStorage, zeroFs, w0, host.world, host.files, r.value);
      }
    }
  }

  /**
   Starting a host twice. However the first run went, and whoever moved meanwhile: if it came up
   entirely and its units are still up as reported, a second start that nobody disturbs finds
   everything running and touches nothing.
   */
  method StartTwice(
    host: Host, hostStorage: bool, zeroFs: bool, permission: bool, again: bool, moves: nat -> seq<Move>,
        answers: nat -> Answer)
    returns (first: Result<seq<Activated>, StartError>, second: Host, r: Result<seq<Activated>, StartError>)
    requires Sane(host.world) && Sound(host.world) && host.Begins()
    modifies host
    ensures second.moves == moves && second.answers == answers && second.files == host.files
    ensures first.Ok? && AllUp(first.value) && AllUpAs(host.world, first.value) ==>
              second.Quiet() && second.ReloadsUnchanged() ==>
                r.Ok? && AllRunning(r.value) && NothingIssued(second.trace) && second.world == host.world
  {
    ghost var before := host.world;
    PlanIsOk(hostStorage, zeroFs, host.world, host.files);
    first := host.Activate(Plan(hostStorage, zeroFs, host.world, host.files), permission);
    second := new Host(host.world, host.files, moves, answers);
    if first.Ok? && AllUp(first.value) && AllUpAs(host.world, first.value) {
      SamePlan(hostStorage, zeroFs, before, host.world, host.files, first.value);
    }
    PlanIsOk(hostStorage, zeroFs, host.world, host.files);
    r := second.Activate(Plan(hostStorage, zeroFs, host.world, host.files), again);
  }

  /** A host on which the storage preparation runs with inputs 1 while its files now hold 2. */
  function StaleWorld(): World {
    World(map[], {Ready}, map[Ready := Invocation(0, Ready, 1)], 1)
  }

  /** The storage preparation's receipt can lie: nothing disturbs this run, and it certifies 2 for inputs 1. */
  method StaleReadyIsCertified() returns (host: Host)
    ensures Ready in host.world.receipts
    ensures host.world.receipts[Ready] == Receipt(2, Invocation(0, Ready, 1))
    ensures !Certifies(Ready, host.world.receipts[Ready])
  {
    var files: Files := u => 2;
    host := new Host(StaleWorld(), files, n => [], n => SMOOTH);
    PlanIsOk(true, false, host.world, files);
    var plan := Plan(true, false, host.world, files);
    assert plan[0].unit == Ready;
    var units := host.Activate(plan, true);
  }
}
