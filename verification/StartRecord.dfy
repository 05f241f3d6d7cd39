/**
 What `nibrunnerd start` sees and does, as a record of interactions. Other actors may stop and start
 units between any two of them, and a run may be cut anywhere: a cut is a prefix of the record. This
 module says what must hold of a record and proves that one pass over it, kept up while the run goes
 on, is enough to tell.
 */
module StartRecord {
  import opened Results

  /** The storage preparation, the ZeroFS server, the mount over it, and the daemon. */
  datatype Unit = Ready | ZeroFs | Mount | Daemon

  type Digest = nat

  /**
   One activation of a unit. The program only ever compares identities; the unit and the inputs
   its files held at that start are part of the identity here, so that what is true of an
   activation can be said of it.
   */
  datatype Invocation = Invocation(serial: nat, unit: Unit, digest: Digest)

  /** A receipt: the digest of a service's inputs, and the activation it certifies them for. */
  datatype Receipt = Receipt(digest: Digest, invocation: Invocation)

  datatype World = World(
    receipts: map<Unit, Receipt>,
    active: set<Unit>,
    latest: map<Unit, Invocation>,
    next: nat)

  /** The digest of each unit's input files, which stay as they are from the plan to the end. */
  type Files = Unit -> Digest

  datatype Move = Stops(unit: Unit) | Starts(unit: Unit)

  datatype Verb = StartVerb | RestartVerb

  /** What a running daemon made of a configuration it was asked to take up. */
  datatype Applied = Unchanged | Grown

  datatype Event =
    | Saw(unit: Unit, isActive: bool)
    | Asked(unit: Unit, answer: Option<Invocation>)
    | ManagerReloaded
    | Enabled(units: seq<Unit>)
    | Issued(verb: Verb, unit: Unit)
    | TookUp(applied: Option<Applied>)
    | Dropped(unit: Unit)
    | Wrote(unit: Unit, invocation: Invocation)

  datatype Entry = Entry(event: Event, world: World)

  // The world and what changes it.

  function Launch(w: World, u: Unit, digest: Digest, up: bool): World {
    w.(active := if up then w.active + {u} else w.active - {u},
       latest := w.latest[u := Invocation(w.next, u, digest)],
       next := w.next + 1)
  }

  function Moved(w: World, move: Move, files: Files): World {
    match move
    case Stops(u) => w.(active := w.active - {u})
    case Starts(u) => Launch(w, u, files(u), true)
  }

  function Disturb(w: World, moves: seq<Move>, files: Files): World
    decreases |moves|
  {
    if moves == [] then w else Disturb(Moved(w, moves[0], files), moves[1..], files)
  }

  ghost predicate Sane(w: World) {
    && (forall u :: u in w.latest ==> w.latest[u].unit == u && w.latest[u].serial < w.next)
    && (forall u :: u in w.active ==> u in w.latest)
  }

  /** A receipt names an activation of its unit, with the inputs it was started with. */
  predicate Certifies(u: Unit, r: Receipt) {
    r.invocation.unit == u && r.invocation.digest == r.digest
  }

  ghost predicate Sound(w: World) {
    forall u :: u in w.receipts && u != Ready ==> Certifies(u, w.receipts[u])
  }

  predicate ReadySound(w: World) {
    Ready in w.receipts ==> Certifies(Ready, w.receipts[Ready])
  }

  /** The unit's current activation, if any, was started with the inputs as they are. */
  ghost predicate UpToDate(w: World, u: Unit, files: Files) {
    u in w.latest ==> w.latest[u].digest == files(u)
  }

  /**
   Receipts stay, a unit's activation is the one it was or one begun since with the inputs as they
   are, and a unit that came up meanwhile did so in such an activation.
   */
  ghost predicate Drifts(w: World, v: World, files: Files) {
    && v.receipts == w.receipts
    && w.next <= v.next
    && (forall u :: u in w.latest ==> u in v.latest)
    && (forall u :: u in v.latest ==>
          (u in w.latest && v.latest[u] == w.latest[u])
              || (v.latest[u].digest == files(u) && w.next <= v.latest[u].serial))
    && (forall u :: u in v.active && u !in w.active ==> u in v.latest && v.latest[u].digest == files(u))
  }

  lemma {:induction false} DisturbDrifts(w: World, moves: seq<Move>, files: Files)
    requires Sane(w)
    ensures Sane(Disturb(w, moves, files)) && Drifts(w, Disturb(w, moves, files), files)
    decreases |moves|
  {
    if moves != [] {
      DisturbDrifts(Moved(w, moves[0], files), moves[1..], files);
    }
  }

  lemma DriftsOn(w: World, v: World, x: World, files: Files)
    requires Drifts(w, v, files) && Drifts(v, x, files)
    ensures Drifts(w, x, files)
  {
  }

  lemma LaunchDrifts(w: World, u: Unit, files: Files, up: bool)
    requires Sane(w)
    ensures Sane(Launch(w, u, files(u), up)) && Drifts(w, Launch(w, u, files(u), up), files)
  {
  }

  // What must hold of a record.

  ghost predicate AllSound(trace: seq<Entry>) {
    forall k :: 0 <= k < |trace| ==> Sound(trace[k].world)
  }

  ghost predicate AllReadySound(trace: seq<Entry>) {
    forall k :: 0 <= k < |trace| ==> ReadySound(trace[k].world)
  }

  ghost predicate IssuedFor(trace: seq<Entry>, k: int, u: Unit) {
    0 <= k < |trace| && trace[k].event.Issued? && trace[k].event.unit == u
  }

  ghost predicate MountRestartedWithin(trace: seq<Entry>, a: int, b: int) {
    exists c :: a < c <= b && 0 <= c < |trace| && trace[c].event == Issued(RestartVerb, Mount)
  }

  /** The mount's receipt, if there is one, is for an activation numbered `first` or later. */
  predicate MountBegunAfter(first: nat, receipts: map<Unit, Receipt>) {
    Mount in receipts ==> first <= receipts[Mount].invocation.serial
  }

  /**
   From a ZeroFS command on, the mount has no receipt until the mount itself has been restarted, and
   then only one for an activation begun after that command.
   */
  ghost predicate MountRule(trace: seq<Entry>) {
    forall a, b :: 0 <= a <= b < |trace| && IssuedFor(trace, a, ZeroFs) && Mount in trace[b].world.receipts ==>
      MountRestartedWithin(trace, a, b) && MountBegunAfter(trace[a].world.next, trace[b].world.receipts)
  }

  ghost predicate WroteWithin(trace: seq<Entry>, a: int, b: int, u: Unit) {
    exists c :: a < c <= b && 0 <= c < |trace| && trace[c].event.Wrote? && trace[c].event.unit == u
  }

  /** From a command for a unit on, the unit has no receipt until one is written. */
  ghost predicate ReceiptRule(trace: seq<Entry>) {
    forall a, b, u :: 0 <= a <= b < |trace| && IssuedFor(trace, a, u) && u in trace[b].world.receipts ==>
      WroteWithin(trace, a, b, u)
  }

  ghost predicate NoneIssuedAfter(trace: seq<Entry>, a: int) {
    forall k :: a < k < |trace| && 0 <= k ==> !trace[k].event.Issued?
  }

  ghost predicate SawUp(trace: seq<Entry>, a: int, u: Unit) {
    0 <= a < |trace| && trace[a].event == Saw(u, true) && NoneIssuedAfter(trace, a)
  }

  /** Since the last command of all, the unit was seen active and then named this activation. */
  ghost predicate Rechecked(trace: seq<Entry>, u: Unit, invocation: Invocation) {
    exists a, c :: SawUp(trace, a, u) && a < c < |trace| && trace[c].event == Asked(u, Some(invocation))
  }

  /** A receipt is only ever written for an activation that was looked at again after the last command. */
  ghost predicate WriteRule(trace: seq<Entry>) {
    forall b :: 0 <= b < |trace| && trace[b].event.Wrote? ==>
      Rechecked(trace[..b], trace[b].event.unit, trace[b].event.invocation)
  }

  /** The last look at ZeroFS before place `a`. */
  ghost function LastSeen(trace: seq<Entry>, a: nat): Option<bool>
    requires a <= |trace|
  {
    if a == 0 then None
    else if trace[a - 1].event.Saw? && trace[a - 1].event.unit == ZeroFs then Some(trace[a - 1].event.isActive)
    else LastSeen(trace, a - 1)
  }

  /** Every command for ZeroFS comes after a last look that found it inactive. */
  ghost predicate ZeroFsRule(trace: seq<Entry>) {
    forall a :: 0 <= a < |trace| && IssuedFor(trace, a, ZeroFs) ==> LastSeen(trace, a) == Some(false)
  }

  /** Before place `a` systemd read its unit files anew, and then was told to start these units at boot. */
  ghost predicate PreparedBefore(trace: seq<Entry>, a: int, units: seq<Unit>) {
    exists i, j :: 0 <= i < j < a <= |trace| && trace[i].event == ManagerReloaded && trace[j].event == Enabled(units)
  }

  /** No command comes before both. */
  ghost predicate PrepareRule(trace: seq<Entry>, units: seq<Unit>) {
    forall a :: 0 <= a < |trace| && trace[a].event.Issued? ==> PreparedBefore(trace, a, units)
  }

  /** The storage preparation is only ever started, and the daemon only ever restarted. */
  predicate FitVerb(verb: Verb, u: Unit) {
    (u == Ready ==> verb == StartVerb) && (u == Daemon ==> verb == RestartVerb)
  }

  ghost predicate VerbRule(trace: seq<Entry>) {
    forall a :: 0 <= a < |trace| && trace[a].event.Issued? ==> FitVerb(trace[a].event.verb, trace[a].event.unit)
  }

  /** The last answer of the daemon when asked to take its configuration up. */
  ghost function LastTaken(trace: seq<Entry>): Option<Applied> {
    if trace == [] then None
    else if trace[|trace| - 1].event.TookUp? then trace[|trace| - 1].event.applied
    else LastTaken(trace[..|trace| - 1])
  }

  ghost predicate NothingIssued(trace: seq<Entry>) {
    forall k :: 0 <= k < |trace| ==> !trace[k].event.Issued?
  }

  // One pass over it.

  /**
   Where a pass over the record stands. `owed`: ZeroFS was commanded and the mount not restarted
   since; `since`: what the world's next activation was at the latest such command; `commanded`: the
   units commanded and not certified since; `up` and `confirmed`: what was seen since the last command;
   `manager` and `enabled`: what systemd was told before the first one; `taken`: what the daemon last
   answered when asked to take its configuration up.
   */
  datatype Monitor = Monitor(
    sound: bool, readySound: bool, clean: bool,
    owed: bool, since: Option<nat>, commanded: set<Unit>,
    up: set<Unit>, confirmed: map<Unit, Invocation>,
    seen: Option<bool>, zeroFsClean: bool, issued: bool,
    manager: bool, enabled: Option<seq<Unit>>, taken: Option<Applied>)

  function Owed(m: Monitor, e: Event): bool {
    if e.Issued? && e.unit == ZeroFs then true else if e == Issued(RestartVerb, Mount) then false else m.owed
  }

  function Since(m: Monitor, e: Entry): Option<nat> {
    if !(e.event.Issued? && e.event.unit == ZeroFs) then m.since
    else if m.since.Some? && m.since.value > e.world.next then m.since
    else Some(e.world.next)
  }

  function Commanded(m: Monitor, e: Event): set<Unit> {
    if e.Issued? then m.commanded + {e.unit} else if e.Wrote? then m.commanded - {e.unit} else m.commanded
  }

  function Up(m: Monitor, e: Event): set<Unit> {
    if e.Issued? then {}
    else if !e.Saw? then m.up
    else if e.isActive then m.up + {e.unit}
    else m.up - {e.unit}
  }

  function Confirmed(m: Monitor, e: Event): map<Unit, Invocation> {
    if e.Issued? then map[]
    else if e.Saw? then m.confirmed - {e.unit}
    else if !e.Asked? then m.confirmed
    else if e.unit in m.up && e.answer.Some? then m.confirmed[e.unit := e.answer.value]
    else m.confirmed - {e.unit}
  }

  predicate IsConfirmed(m: Monitor, u: Unit, invocation: Invocation) {
    u in m.confirmed && m.confirmed[u] == invocation
  }

  /** What the receipts may be where a pass stands. */
  predicate Allowed(owed: bool, since: Option<nat>, commanded: set<Unit>, receipts: map<Unit, Receipt>) {
    && (owed ==> Mount !in receipts)
    && (since.Some? ==> MountBegunAfter(since.value, receipts))
    && commanded !! receipts.Keys
  }

  ghost function Observe(m: Monitor, e: Entry): Monitor {
    var owed, since, commanded := Owed(m, e.event), Since(m, e), Commanded(m, e.event);
    Monitor(
      m.sound && Sound(e.world),
      m.readySound && ReadySound(e.world),
      && m.clean
      && Allowed(owed, since, commanded, e.world.receipts)
      && (e.event.Wrote? ==> IsConfirmed(m, e.event.unit, e.event.invocation))
      && (e.event.Issued? ==> m.enabled.Some? && FitVerb(e.event.verb, e.event.unit)),
      owed, since, commanded,
      Up(m, e.event), Confirmed(m, e.event),
      if e.event.Saw? && e.event.unit == ZeroFs then Some(e.event.isActive) else m.seen,
      m.zeroFsClean && (e.event.Issued? && e.event.unit == ZeroFs ==> m.seen == Some(false)),
      m.issued || e.event.Issued?,
      m.manager || e.event.ManagerReloaded?,
      if m.enabled.None? && m.manager && e.event.Enabled? then Some(e.event.units) else m.enabled,
      if e.event.TookUp? then e.event.applied else m.taken)
  }

  const START: Monitor :=
    Monitor(true, true, true, false, None, {}, {}, map[], None, true, false, false, None, None)

  ghost function Fold(trace: seq<Entry>): Monitor {
    if trace == [] then START else Observe(Fold(trace[..|trace| - 1]), trace[|trace| - 1])
  }

  predicate Same<T(==)>(a: T, b: T) {
    a == b
  }

  /** The pass has seen exactly this record. Written so that the pass is unfolded only where it is asked for. */
  ghost predicate Followed(m: Monitor, trace: seq<Entry>) {
    forall t: seq<Entry> {:trigger Same(t, trace)} :: Same(t, trace) ==> m == Fold(t)
  }

  lemma {:induction false} LastSeenPrefix(trace: seq<Entry>, a: nat, b: nat)
    requires a <= b <= |trace|
    ensures LastSeen(trace[..b], a) == LastSeen(trace, a)
    decreases a
  {
    if a > 0 {
      assert trace[..b][a - 1] == trace[a - 1];
      LastSeenPrefix(trace, a - 1, b);
    }
  }

  lemma ZeroFsRuleStep(trace: seq<Entry>, n: nat)
    requires |trace| == n + 1
    ensures ZeroFsRule(trace) <==>
        ZeroFsRule(trace[..n]) && (IssuedFor(trace, n, ZeroFs) ==> LastSeen(trace, n) == Some(false))
  {
    var before := trace[..n];
    forall a: nat | a < n
      ensures IssuedFor(before, a, ZeroFs) <==> IssuedFor(trace, a, ZeroFs)
      ensures LastSeen(before, a) == LastSeen(trace, a)
    {
      LastSeenPrefix(trace, a, n);
    }
    if ZeroFsRule(trace) {
      forall a | 0 <= a < |before| && IssuedFor(before, a, ZeroFs) ensures LastSeen(before, a) == Some(false) {
        assert IssuedFor(trace, a, ZeroFs);
      }
    }
    if ZeroFsRule(before) && (IssuedFor(trace, n, ZeroFs) ==> LastSeen(trace, n) == Some(false)) {
      forall a | 0 <= a < |trace| && IssuedFor(trace, a, ZeroFs) ensures LastSeen(trace, a) == Some(false) {
        if a < n { assert IssuedFor(before, a, ZeroFs); }
      }
    }
  }

  /** The pass decides soundness at every entry, whether anything was issued, and the ZeroFS rule. */
  lemma {:induction false} MonitorSees(trace: seq<Entry>)
    ensures Fold(trace).seen == LastSeen(trace, |trace|)
    ensures Fold(trace).sound <==> AllSound(trace)
    ensures Fold(trace).readySound <==> AllReadySound(trace)
    ensures Fold(trace).issued <==> !NothingIssued(trace)
    ensures Fold(trace).zeroFsClean <==> ZeroFsRule(trace)
    decreases |trace|
  {
    if trace != [] {
      var n := |trace| - 1;
      MonitorSees(trace[..n]);
      LastSeenPrefix(trace, n, n);
      ZeroFsRuleStep(trace, n);
      assert forall k :: 0 <= k < n ==> trace[..n][k] == trace[k];
    }
  }

  // What comes before the first command.

  lemma {:induction false} MonitorManages(trace: seq<Entry>)
    requires Fold(trace).manager
    ensures exists i :: 0 <= i < |trace| && trace[i].event == ManagerReloaded
    decreases |trace|
  {
    var n := |trace| - 1;
    if trace[n].event != ManagerReloaded {
      MonitorManages(trace[..n]);
      var i :| 0 <= i < n && trace[..n][i].event == ManagerReloaded;
      assert trace[i] == trace[..n][i];
    }
  }

  lemma {:induction false} MonitorEnables(trace: seq<Entry>)
    requires Fold(trace).enabled.Some?
    ensures PreparedBefore(trace, |trace|, Fold(trace).enabled.value)
    decreases |trace|
  {
    var n := |trace| - 1;
    var before := trace[..n];
    if Fold(before).enabled.Some? {
      MonitorEnables(before);
      var i, j :| 0 <= i < j < n && before[i].event == ManagerReloaded
          && before[j].event == Enabled(Fold(trace).enabled.value);
      assert trace[i] == before[i] && trace[j] == before[j];
    } else {
      MonitorManages(before);
      var i :| 0 <= i < n && before[i].event == ManagerReloaded;
      assert trace[i] == before[i];
    }
  }

  /** The pass's verdict implies that every command came after both, and was of the fitting kind. */
  lemma {:induction false} MonitorMeansPrepareRule(trace: seq<Entry>, units: seq<Unit>)
    requires Fold(trace).clean && Fold(trace).enabled in {None, Some(units)}
    ensures PrepareRule(trace, units) && VerbRule(trace)
    decreases |trace|
  {
    if trace != [] {
      var n := |trace| - 1;
      var before := trace[..n];
      MonitorMeansPrepareRule(before, units);
      forall a | 0 <= a < |trace| && trace[a].event.Issued?
        ensures PreparedBefore(trace, a, units) && FitVerb(trace[a].event.verb, trace[a].event.unit)
      {
        if a < n {
          assert before[a] == trace[a];
        } else {
          MonitorEnables(before);
        }
        assert PreparedBefore(before, a, units);
        var i, j :| 0 <= i < j < a && before[i].event == ManagerReloaded && before[j].event == Enabled(units);
        assert trace[i] == before[i] && trace[j] == before[j];
      }
    }
  }

  lemma {:induction false} MonitorTakes(trace: seq<Entry>)
    ensures Fold(trace).taken == LastTaken(trace)
    decreases |trace|
  {
    if trace != [] {
      MonitorTakes(trace[..|trace| - 1]);
    }
  }

  // The mount.

  lemma {:induction false} MonitorOwes(trace: seq<Entry>)
    ensures !Fold(trace).owed ==>
              forall a :: IssuedFor(trace, a, ZeroFs) ==> MountRestartedWithin(trace, a, |trace| - 1)
    decreases |trace|
  {
    if trace != [] && !Fold(trace).owed {
      var n := |trace| - 1;
      var before := trace[..n];
      MonitorOwes(before);
      forall a | IssuedFor(trace, a, ZeroFs) ensures MountRestartedWithin(trace, a, n) {
        if trace[n].event != Issued(RestartVerb, Mount) {
          assert IssuedFor(before, a, ZeroFs);
          var c :| a < c <= n - 1 && 0 <= c < |before| && before[c].event == Issued(RestartVerb, Mount);
          assert trace[c] == before[c];
        }
      }
    }
  }

  lemma {:induction false} MonitorSince(trace: seq<Entry>, a: int)
    requires IssuedFor(trace, a, ZeroFs)
    ensures Fold(trace).since.Some? && trace[a].world.next <= Fold(trace).since.value
    decreases |trace|
  {
    var n := |trace| - 1;
    if a < n {
      assert IssuedFor(trace[..n], a, ZeroFs) && trace[..n][a] == trace[a];
      MonitorSince(trace[..n], a);
    }
  }

  lemma {:induction false} MonitorMeansMountRule(trace: seq<Entry>)
    requires Fold(trace).clean
    ensures MountRule(trace)
    decreases |trace|
  {
    if trace != [] {
      var n := |trace| - 1;
      var before := trace[..n];
      MonitorMeansMountRule(before);
      MonitorOwes(trace);
      forall a, b | 0 <= a <= b < |trace| && IssuedFor(trace, a, ZeroFs) && Mount in trace[b].world.receipts
        ensures MountRestartedWithin(trace, a, b) && MountBegunAfter(trace[a].world.next, trace[b].world.receipts)
      {
        if b < n {
          assert IssuedFor(before, a, ZeroFs) && before[a] == trace[a] && before[b] == trace[b];
          var c :| a < c <= b && 0 <= c < |before| && before[c].event == Issued(RestartVerb, Mount);
          assert trace[c] == before[c];
        } else {
          MonitorSince(trace, a);
        }
      }
    }
  }

  // Every unit's receipt.

  lemma {:induction false} MonitorCommands(trace: seq<Entry>, u: Unit)
    requires u !in Fold(trace).commanded
    ensures forall a :: IssuedFor(trace, a, u) ==> WroteWithin(trace, a, |trace| - 1, u)
    decreases |trace|
  {
    if trace != [] {
      var n := |trace| - 1;
      var before := trace[..n];
      forall a | IssuedFor(trace, a, u) ensures WroteWithin(trace, a, n, u) {
        if trace[n].event.Wrote? && trace[n].event.unit == u {
          assert a < n;
        } else {
          MonitorCommands(before, u);
          assert IssuedFor(before, a, u);
          var c :| a < c <= n - 1 && 0 <= c < |before| && before[c].event.Wrote? && before[c].event.unit == u;
          assert trace[c] == before[c];
        }
      }
    }
  }

  lemma {:induction false} MonitorMeansReceiptRule(trace: seq<Entry>)
    requires Fold(trace).clean
    ensures ReceiptRule(trace)
    decreases |trace|
  {
    if trace != [] {
      var n := |trace| - 1;
      var before := trace[..n];
      MonitorMeansReceiptRule(before);
      forall a, b, u | 0 <= a <= b < |trace| && IssuedFor(trace, a, u) && u in trace[b].world.receipts
        ensures WroteWithin(trace, a, b, u)
      {
        if b < n {
          assert IssuedFor(before, a, u) && before[b] == trace[b];
          var c :| a < c <= b && 0 <= c < |before| && before[c].event.Wrote? && before[c].event.unit == u;
          assert trace[c] == before[c];
        } else {
          MonitorCommands(trace, u);
        }
      }
    }
  }

  // The second look.

  lemma SawUpLater(trace: seq<Entry>, n: nat, a: int, u: Unit)
    requires |trace| == n + 1 && !trace[n].event.Issued? && SawUp(trace[..n], a, u)
    ensures SawUp(trace, a, u)
  {
    assert trace[..n][a] == trace[a];
    forall k | a < k < |trace| && 0 <= k ensures !trace[k].event.Issued? {
      if k < n { assert trace[..n][k] == trace[k]; }
    }
  }

  lemma {:induction false} MonitorUp(trace: seq<Entry>, u: Unit) returns (a: int)
    requires u in Fold(trace).up
    ensures SawUp(trace, a, u)
    decreases |trace|
  {
    var n := |trace| - 1;
    if trace[n].event == Saw(u, true) {
      a := n;
    } else {
      a := MonitorUp(trace[..n], u);
      SawUpLater(trace, n, a, u);
    }
  }

  lemma {:induction false} MonitorConfirms(trace: seq<Entry>, u: Unit)
    requires u in Fold(trace).confirmed
    ensures Rechecked(trace, u, Fold(trace).confirmed[u])
    decreases |trace|
  {
    var n := |trace| - 1;
    var before := trace[..n];
    if trace[n].event.Asked? && trace[n].event.unit == u {
      var a := MonitorUp(before, u);
      SawUpLater(trace, n, a, u);
    } else {
      var invocation := Fold(before).confirmed[u];
      MonitorConfirms(before, u);
      var a, c :| SawUp(before, a, u) && a < c < |before| && before[c].event == Asked(u, Some(invocation));
      SawUpLater(trace, n, a, u);
      assert trace[c] == before[c];
    }
  }

  lemma {:induction false} MonitorMeansWriteRule(trace: seq<Entry>)
    requires Fold(trace).clean
    ensures WriteRule(trace)
    decreases |trace|
  {
    if trace != [] {
      var n := |trace| - 1;
      var before := trace[..n];
      MonitorMeansWriteRule(before);
      forall b | 0 <= b < |trace| && trace[b].event.Wrote?
        ensures Rechecked(trace[..b], trace[b].event.unit, trace[b].event.invocation)
      {
        if b < n {
          assert before[b] == trace[b] && before[..b] == trace[..b];
        } else {
          MonitorConfirms(before, trace[n].event.unit);
        }
      }
    }
  }
}
