/**
 The daemon's shared locks and counts, under any interleaving of the tasks that use them: the one
 transition lock per app in a map that is pruned as it is used, and the running cron jobs.
 */
module SharedState {
  type App = nat
  type Task = nat
  type Lock = nat

  /** A task's reference to a lock: waiting for it, or holding its guard. */
  datatype Claim = Claim(app: App, lock: Lock, holds: bool)

  datatype Locks = Locks(table: map<App, Lock>, claims: map<Task, Claim>, next: Lock)

  datatype LockEvent =
    | Request(task: Task, app: App)  // the call, up to where it waits
    | Grant(task: Task)              // the lock is handed to a waiter
    | Leave(task: Task)              // a waiter is cancelled or a guard is dropped

  function Referenced(l: Locks): set<Lock> {
    set t | t in l.claims :: l.claims[t].lock
  }

  /** Entries whose lock nothing but the map refers to are dropped. */
  function Retain(l: Locks): Locks {
    l.(table := map a | a in l.table && l.table[a] in Referenced(l) :: l.table[a])
  }

  predicate IsHeld(l: Locks, lock: Lock) {
    exists t :: t in l.claims && l.claims[t].lock == lock && l.claims[t].holds
  }

  predicate Enabled(l: Locks, e: LockEvent) {
    match e
    case Request(task, app) => task !in l.claims
    case Grant(task) => task in l.claims && !l.claims[task].holds && !IsHeld(l, l.claims[task].lock)
    case Leave(task) => task in l.claims
  }

  function Step(l: Locks, e: LockEvent): Locks
    requires Enabled(l, e)
  {
    match e
    case Request(task, app) =>
      var kept := Retain(l);
      if app in kept.table then kept.(claims := kept.claims[task := Claim(app, kept.table[app], false)])
      else
        kept.(table := kept.table[app := l.next],
              claims := kept.claims[task := Claim(app, l.next, false)],
              next := l.next + 1)
    case Grant(task) => l.(claims := l.claims[task := l.claims[task].(holds := true)])
    case Leave(task) => l.(claims := l.claims - {task})
  }

  ghost predicate Runs(l: Locks, events: seq<LockEvent>)
    decreases |events|
  {
    events == [] || (Enabled(l, events[0]) && Runs(Step(l, events[0]), events[1..]))
  }

  ghost function After(l: Locks, events: seq<LockEvent>): Locks
    requires Runs(l, events)
    decreases |events|
  {
    if events == [] then l else After(Step(l, events[0]), events[1..])
  }

  /** Every claim is on the lock the map has for its app. */
  ghost predicate ClaimsMatch(table: map<App, Lock>, claims: map<Task, Claim>) {
    forall t :: t in claims ==> claims[t].app in table && table[claims[t].app] == claims[t].lock
  }

  /** Locks are numbered below `next`, and no two apps share one. */
  ghost predicate TableOk(table: map<App, Lock>, next: Lock) {
    && (forall a :: a in table ==> table[a] < next)
    && (forall a, b :: a in table && b in table && table[a] == table[b] ==> a == b)
  }

  /** No lock has two guards. */
  ghost predicate OneHolder(claims: map<Task, Claim>) {
    forall t, u :: t in claims && u in claims && claims[t].holds && claims[u].holds ==>
      claims[t].lock == claims[u].lock ==> t == u
  }

  ghost predicate LocksOk(l: Locks) {
    ClaimsMatch(l.table, l.claims) && TableOk(l.table, l.next) && OneHolder(l.claims)
  }

  lemma RetainKeeps(l: Locks)
    requires LocksOk(l)
    ensures LocksOk(Retain(l)) && Retain(l).claims == l.claims && Retain(l).next == l.next
  {
    forall t | t in l.claims ensures l.claims[t].app in Retain(l).table {
      assert l.claims[t].lock in Referenced(l);
    }
  }

  lemma WaitingKeeps(l: Locks, task: Task, app: App)
    requires LocksOk(l) && task !in l.claims && app in l.table
    ensures LocksOk(l.(claims := l.claims[task := Claim(app, l.table[app], false)]))
  {
  }

  lemma NewLockKeeps(l: Locks, app: App)
    requires LocksOk(l) && app !in l.table
    ensures LocksOk(l.(table := l.table[app := l.next], next := l.next + 1))
  {
  }

  lemma StepKeepsLocksOk(l: Locks, e: LockEvent)
    requires LocksOk(l) && Enabled(l, e)
    ensures LocksOk(Step(l, e))
  {
    match e {
      case Request(task, app) =>
        var kept := Retain(l);
        RetainKeeps(l);
        if app in kept.table {
          WaitingKeeps(kept, task, app);
        } else {
          NewLockKeeps(kept, app);
          WaitingKeeps(kept.(table := kept.table[app := l.next], next := l.next + 1), task, app);
        }
      case Grant(task) =>
        assert forall t :: t in l.claims && l.claims[t].holds ==> l.claims[t].lock != l.claims[task].lock;
      case Leave(task) =>
    }
  }

  lemma {:induction false} RunKeepsLocksOk(l: Locks, events: seq<LockEvent>)
    requires LocksOk(l) && Runs(l, events)
    ensures LocksOk(After(l, events))
    decreases |events|
  {
    if events != [] {
      StepKeepsLocksOk(l, events[0]);
      RunKeepsLocksOk(Step(l, events[0]), events[1..]);
    }
  }

  const NO_LOCKS: Locks := Locks(map[], map[], 0)

  /**
   Mutual exclusion: whatever the interleaving, two guards of one app are the same guard, and all
   that wait for or hold an app's lock refer to the one lock the map has for it.
   */
  lemma OneTransitionPerApp(events: seq<LockEvent>, t: Task, u: Task)
    requires Runs(NO_LOCKS, events)
    requires t in After(NO_LOCKS, events).claims && u in After(NO_LOCKS, events).claims
    requires After(NO_LOCKS, events).claims[t].app == After(NO_LOCKS, events).claims[u].app
    ensures
      var l := After(NO_LOCKS, events);
      && l.claims[t].app in l.table && l.claims[t].lock == l.claims[u].lock == l.table[l.claims[t].app]
      && (l.claims[t].holds && l.claims[u].holds ==> t == u)
  {
    RunKeepsLocksOk(NO_LOCKS, events);
  }

  /** After each call every entry of the map is in use: the map does not grow by every app ever moved. */
  lemma CallLeavesOnlyLiveEntries(l: Locks, task: Task, app: App)
    requires LocksOk(l) && task !in l.claims
    ensures
      var m := Step(l, Request(task, app));
      forall a :: a in m.table ==> exists t :: t in m.claims && m.claims[t].lock == m.table[a]
  {
    var m := Step(l, Request(task, app));
    forall a | a in m.table ensures exists t :: t in m.claims && m.claims[t].lock == m.table[a] {
      if a == app {
        assert m.claims[task].lock == m.table[a];
      } else {
        assert l.table[a] in Referenced(l);
        var t :| t in l.claims && l.claims[t].lock == l.table[a];
        assert m.claims[t] == l.claims[t];
      }
    }
  }

  /** A waiter can be granted exactly when nobody holds its app: pruning never strands it. */
  lemma WaiterCanBeGranted(l: Locks, t: Task)
    requires LocksOk(l) && t in l.claims && !l.claims[t].holds
    ensures
      Enabled(l, Grant(t)) <==> forall u :: u in l.claims && l.claims[u].app == l.claims[t].app ==> !l.claims[u].holds
  {
    forall u | u in l.claims ensures l.claims[u].lock == l.claims[t].lock <==> l.claims[u].app == l.claims[t].app {
      assert l.claims[u].app in l.table && l.claims[t].app in l.table;
    }
  }

  /** Some task waits for the app or holds it. */
  predicate InUse(l: Locks, app: App) {
    exists t :: t in l.claims && l.claims[t].app == app
  }

  lemma ReferencedIs(l: Locks, app: App)
    requires LocksOk(l) && app in l.table
    ensures l.table[app] in Referenced(l) <==> InUse(l, app)
  {
    if l.table[app] in Referenced(l) {
      var t :| t in l.claims && l.claims[t].lock == l.table[app];
      assert l.claims[t].app == app;
    }
    if InUse(l, app) {
      var t :| t in l.claims && l.claims[t].app == app;
      assert l.claims[t].lock == l.table[app];
    }
  }

  /**
   What asking for an app leaves: one more task, waiting for the lock the app's other tasks refer to,
   or for one no task has if there are none.
   */
  lemma RequestExactly(l: Locks, task: Task, app: App)
    requires LocksOk(l) && task !in l.claims
    ensures
      var m := Step(l, Request(task, app));
      && m.claims.Keys == l.claims.Keys + {task} && (forall t :: t in l.claims ==> m.claims[t] == l.claims[t])
      && m.claims[task].app == app && !m.claims[task].holds
      && (forall t :: t in l.claims ==> (l.claims[t].app == app <==> l.claims[t].lock == m.claims[task].lock))
  {
    var m := Step(l, Request(task, app));
    StepKeepsLocksOk(l, Request(task, app));
    assert app in m.table && m.table[app] == m.claims[task].lock;
    forall t | t in l.claims ensures l.claims[t].app == app <==> l.claims[t].lock == m.claims[task].lock {
      assert m.claims[t] == l.claims[t];
    }
  }

  /** The map then keeps its locks for the apps in use, and no others. */
  lemma TableExactly(l: Locks, task: Task, app: App, a: App)
    requires LocksOk(l) && task !in l.claims
    ensures a in Step(l, Request(task, app)).table <==> a == app || InUse(l, a)
  {
    if a in l.table {
      ReferencedIs(l, a);
    }
  }

  /** A grant makes the waiter a holder, a leave takes its one task away, and neither changes anything else. */
  lemma GrantAndLeaveExactly(l: Locks, task: Task, t: Task)
    requires task in l.claims
    ensures Enabled(l, Grant(task)) ==>
        var m := Step(l, Grant(task));
        && m.table == l.table && m.claims.Keys == l.claims.Keys
        && m.claims[task] == Claim(l.claims[task].app, l.claims[task].lock, true)
        && (t in l.claims && t != task ==> m.claims[t] == l.claims[t])
    ensures
      var m := Step(l, Leave(task));
      && m.table == l.table && m.claims.Keys == l.claims.Keys - {task}
      && (t in l.claims && t != task ==> m.claims[t] == l.claims[t])
  {
  }

  /** Whoever waits behind a holder can be granted once the holder leaves. */
  lemma NextInLine(l: Locks, holder: Task, waiter: Task)
    requires LocksOk(l) && holder in l.claims && waiter in l.claims
    requires l.claims[holder].app == l.claims[waiter].app && l.claims[holder].holds && !l.claims[waiter].holds
    ensures !Enabled(l, Grant(waiter)) && Enabled(Step(l, Leave(holder)), Grant(waiter))
  {
    WaiterCanBeGranted(l, waiter);
    StepKeepsLocksOk(l, Leave(holder));
    WaiterCanBeGranted(Step(l, Leave(holder)), waiter);
    assert l.claims[waiter].app in l.table;
  }

  // Cron runs.

  type Guard = nat

  datatype Cron = Cron(runs: map<App, nat>, guards: map<Guard, App>)

  function GuardsOf(c: Cron, app: App): set<Guard> {
    set g | g in c.guards && c.guards[g] == app
  }

  /** The count of an app is the number of its live guards, and an app without any has no entry. */
  ghost predicate CronOk(c: Cron) {
    && (forall a :: a in c.runs ==> c.runs[a] == |GuardsOf(c, a)| && c.runs[a] > 0)
    && (forall g :: g in c.guards ==> c.guards[g] in c.runs)
  }

  lemma CronRunningExactly(c: Cron, app: App)
    requires CronOk(c)
    ensures app in c.runs <==> exists g :: g in c.guards && c.guards[g] == app
  {
    if app in c.runs {
      var g :| g in GuardsOf(c, app);
    }
  }

  lemma GuardsOfAdded(c: Cron, guard: Guard, app: App, runs: map<App, nat>, a: App)
    requires guard !in c.guards
    ensures GuardsOf(Cron(runs, c.guards[guard := app]), a) == if a == app then GuardsOf(c, a) + {guard}
        else GuardsOf(c, a)
  {
  }

  lemma GuardAdded(c: Cron, guard: Guard, app: App, count: nat)
    requires CronOk(c) && guard !in c.guards && count == if app in c.runs then c.runs[app] else 0
    ensures CronOk(Cron(c.runs[app := count + 1], c.guards[guard := app]))
  {
    var d := Cron(c.runs[app := count + 1], c.guards[guard := app]);
    assert count == |GuardsOf(c, app)| by {
      CronRunningExactly(c, app);
    }
    forall a | a in d.runs ensures d.runs[a] == |GuardsOf(d, a)| && d.runs[a] > 0 {
      GuardsOfAdded(c, guard, app, d.runs, a);
    }
  }

  lemma GuardsOfDropped(c: Cron, guard: Guard, runs: map<App, nat>, a: App)
    requires guard in c.guards
    ensures GuardsOf(Cron(runs, c.guards - {guard}), a) ==
            if a == c.guards[guard] then GuardsOf(c, a) - {guard} else GuardsOf(c, a)
  {
  }

  lemma GuardDropped(c: Cron, guard: Guard)
    requires CronOk(c) && guard in c.guards
    ensures
      var app := c.guards[guard];
      && app in c.runs && c.runs[app] >= 1
      && CronOk(Cron(if c.runs[app] == 1 then c.runs - {app} else c.runs[app := c.runs[app] - 1], c.guards - {guard}))
  {
    var app := c.guards[guard];
    var d := Cron(if c.runs[app] == 1 then c.runs - {app} else c.runs[app := c.runs[app] - 1], c.guards - {guard});
    assert guard in GuardsOf(c, app);
    forall a | a in d.runs ensures d.runs[a] == |GuardsOf(d, a)| && d.runs[a] > 0 {
      GuardsOfDropped(c, guard, d.runs, a);
    }
    GuardsOfDropped(c, guard, d.runs, app);
    assert |GuardsOf(d, app)| == c.runs[app] - 1;
    forall g | g in d.guards ensures d.guards[g] in d.runs {
      if d.guards[g] == app {
        assert g in GuardsOf(d, app);
      }
    }
  }

  // Runs of cron guards.

  datatype CronEvent = Taken(guard: Guard, app: App) | Given(guard: Guard)

  predicate CronEnabled(c: Cron, e: CronEvent) {
    match e
    case Taken(guard, app) => guard !in c.guards
    case Given(guard) => guard in c.guards && c.guards[guard] in c.runs && c.runs[c.guards[guard]] > 0
  }

  function CronStep(c: Cron, e: CronEvent): Cron
    requires CronEnabled(c, e)
  {
    match e
    case Taken(guard, app) =>
      Cron(c.runs[app := (if app in c.runs then c.runs[app] else 0) + 1], c.guards[guard := app])
    case Given(guard) =>
      var app := c.guards[guard];
      Cron(if c.runs[app] == 1 then c.runs - {app} else c.runs[app := c.runs[app] - 1], c.guards - {guard})
  }

  /** Guards are taken once and given back by whoever holds them, in any order. */
  ghost predicate CronRuns(live: map<Guard, App>, events: seq<CronEvent>)
    decreases |events|
  {
    events == [] ||
    match events[0]
    case Taken(guard, app) => guard !in live && CronRuns(live[guard := app], events[1..])
    case Given(guard) => guard in live && CronRuns(live - {guard}, events[1..])
  }

  lemma CronStepKeeps(c: Cron, e: CronEvent)
    requires CronOk(c) && (if e.Taken? then e.guard !in c.guards else e.guard in c.guards)
    ensures CronEnabled(c, e) && CronOk(CronStep(c, e))
    ensures CronStep(c, e).guards == if e.Taken? then c.guards[e.guard := e.app] else c.guards - {e.guard}
  {
    match e {
      case Taken(guard, app) => GuardAdded(c, guard, app, if app in c.runs then c.runs[app] else 0);
      case Given(guard) => GuardDropped(c, guard);
    }
  }

  /**
   Over any interleaving of guards taken and given back: no count ever underflows, each count is the
   number of live guards of its app, and an app counts as running exactly while one of them is alive.
   */
  lemma {:induction false} CronRunKeeps(c: Cron, events: seq<CronEvent>) returns (d: Cron)
    requires CronOk(c) && CronRuns(c.guards, events)
    ensures CronReaches(c, events, d) && CronOk(d)
    ensures forall app :: app in d.runs <==> exists g :: g in d.guards && d.guards[g] == app
    decreases |events|
  {
    if events == [] {
      d := c;
      forall app ensures app in d.runs <==> exists g :: g in d.guards && d.guards[g] == app {
        CronRunningExactly(d, app);
      }
    } else {
      CronStepKeeps(c, events[0]);
      d := CronRunKeeps(CronStep(c, events[0]), events[1..]);
    }
  }

  ghost predicate CronReaches(c: Cron, events: seq<CronEvent>, d: Cron)
    decreases |events|
  {
    if events == [] then c == d
    else CronEnabled(c, events[0]) && CronReaches(CronStep(c, events[0]), events[1..], d)
  }

  class HostState {
    var locks: Locks
    var cron: Cron

    ghost predicate Valid()
      reads this
    {
      LocksOk(locks) && CronOk(cron)
    }

    constructor ()
      ensures Valid() && locks == NO_LOCKS && cron == Cron(map[], map[])
    {
      locks, cron := NO_LOCKS, Cron(map[], map[]);
    }

    /** The synchronous part of asking for an app's transition: prune, find or make the lock, wait. */
    method Transition(task: Task, app: App)
      requires Valid() && task !in locks.claims
      modifies this`locks
      ensures Valid() && locks == Step(old(locks), Request(task, app))
    {
      ghost var before := locks;
      var table := Prune();
      var next := locks.next;
      if app !in table {
        table, next := table[app := next], next + 1;
      }
      locks := Locks(table, locks.claims[task := Claim(app, table[app], false)], next);
      StepKeepsLocksOk(before, Request(task, app));
    }

    /** The entries something besides the map refers to. */
    method Prune() returns (table: map<App, Lock>)
      ensures table == Retain(locks).table
    {
      var inUse := set t | t in locks.claims :: locks.claims[t].lock;
      table := map a | a in locks.table && locks.table[a] in inUse :: locks.table[a];
    }

    method CronActivity(guard: Guard, app: App)
      requires Valid() && guard !in cron.guards
      modifies this`cron
      ensures Valid() && cron.guards == old(cron.guards)[guard := app]
      ensures cron == CronStep(old(cron), Taken(guard, app))
      ensures forall a :: a != app ==> (a in cron.runs <==> a in old(cron.runs))
    {
      var count := if app in cron.runs then cron.runs[app] else 0;
      GuardAdded(cron, guard, app, count);
      cron := Cron(cron.runs[app := count + 1], cron.guards[guard := app]);
    }

    /** Dropping a guard: its app has an entry and its count is positive, so nothing underflows. */
    method DropCronActivity(guard: Guard)
      requires Valid() && guard in cron.guards
      modifies this`cron
      ensures Valid() && cron.guards == old(cron.guards) - {guard}
      ensures CronEnabled(old(cron), Given(guard)) && cron == CronStep(old(cron), Given(guard))
    {
      var app := cron.guards[guard];
      GuardDropped(cron, guard);
      var runs := cron.runs;
      if app in runs {
        var count: nat := runs[app] - 1;
        runs := if count == 0 then runs - {app} else runs[app := count];
      }
      cron := Cron(runs, cron.guards - {guard});
    }

    method CronRunning(app: App) returns (running: bool)
      requires Valid()
      ensures running <==> exists g :: g in cron.guards && cron.guards[g] == app
    {
      CronRunningExactly(cron, app);
      running := app in cron.runs;
    }
  }
}
