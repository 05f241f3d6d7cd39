/**
 The guest's control loop: freezing the tenant under a lease for a snapshot, releasing it with a
 synchronized clock, and holding the volume's filesystem frozen while an export reads it. The host
 may drop the connection at any point, and any write or ioctl may fail.
 */
module FreezeControl {
  import opened Results

  const TENANT_LEASE_MS: nat := 30_000
  const MAX_HOLD_MS: nat := 900_000
  const FREEZE_WAIT_MS: nat := 3_000
  const POLL_MS: nat := 100
  const EVENTS_POLL_MS: nat := 10

  datatype Request = Nothing | FreezeTenant | ReleaseClock | FreezeVolume | Unknown

  /** What the host was told; a refusal may not have reached it. */
  datatype Reply = Silent | Refused | TenantHeld | ClockReleased | VolumeHeld

  /** What one interaction with the host, the kernel or the clock comes to. */
  datatype Luck = Luck(
    request: Request,  // what the host asks for
    time: nat,         // the host's time, sent with a release
    ok: bool,          // whether a step other than a thaw succeeds
    thaws: bool,       // whether a thaw succeeds
    frozen: bool,      // whether the tenant's group reports itself frozen
    gone: bool,        // whether the host has let go of the volume
    elapsed: nat)

  class Guest {
    const luck: nat -> Luck
    var step: nat
    var now: nat
    var lease: Option<nat>
    var tenantFrozen: bool
    var volumeFrozen: bool
    var clock: nat

    // A lost thaw that nothing has made good since: of the tenant with no lease recorded, or of the volume.
    ghost var stranded: bool
    ghost var stuck: bool
    // Whether a thaw was ever lost, and whether both were ever frozen at once.
    ghost var lost: bool
    ghost var coexisted: bool

    constructor (luck: nat -> Luck)
      ensures Valid() && !lost && !coexisted && lease == None && step == 0 && this.luck == luck
    {
      this.luck := luck;
      step, now, lease, tenantFrozen, volumeFrozen, clock := 0, 0, None, false, false, 0;
      stranded, stuck, lost, coexisted := false, false, false, false;
    }

    /** Every write and ioctl that thaws succeeds, whatever else fails. */
    ghost predicate ThawsSucceed() {
      forall n: nat :: luck(n).thaws
    }

    /**
     Between requests: the tenant is frozen without a lease exactly while a lost thaw of it stands, the
     volume is frozen exactly while a lost thaw of it stands, and nothing was ever lost if thaws succeed.
     */
    ghost predicate Valid()
      reads this
    {
      && (stranded <==> tenantFrozen && lease.None?)
      && (stuck <==> volumeFrozen)
      && (stranded || stuck || coexisted ==> lost)
      && (ThawsSucceed() ==> !lost)
      && (tenantFrozen && volumeFrozen ==> coexisted)
    }

    method Meet() returns (l: Luck)
      modifies this`step, this`now
      ensures l == luck(old(step)) && step == old(step) + 1 && now == old(now) + l.elapsed
    {
      l := luck(step);
      step, now := step + 1, now + l.elapsed;
    }

    /** Writes the tenant's freezer. A write that fails changes nothing, and a thaw makes good what was lost. */
    method WriteTenant(freeze: bool) returns (ok: bool)
      modifies this`step, this`now, this`tenantFrozen, this`coexisted, this`stranded
      ensures now >= old(now) && step == old(step) + 1
      ensures ok == if freeze then luck(old(step)).ok else luck(old(step)).thaws
      ensures tenantFrozen == if ok then freeze else old(tenantFrozen)
      ensures coexisted == (old(coexisted) || (tenantFrozen && volumeFrozen))
      ensures stranded == if ok && !freeze then false else old(stranded)
    {
      var l := Meet();
      ok := if freeze then l.ok else l.thaws;
      if ok {
        tenantFrozen := freeze;
        stranded := freeze && stranded;
      }
      coexisted := coexisted || (tenantFrozen && volumeFrozen);
    }

    method WriteVolume(freeze: bool) returns (ok: bool)
      modifies this`step, this`now, this`volumeFrozen, this`coexisted
      ensures now >= old(now) && step == old(step) + 1
      ensures ok == if freeze then luck(old(step)).ok else luck(old(step)).thaws
      ensures volumeFrozen == if ok then freeze else old(volumeFrozen)
      ensures coexisted == (old(coexisted) || (tenantFrozen && volumeFrozen))
    {
      var l := Meet();
      ok := if freeze then l.ok else l.thaws;
      if ok {
        volumeFrozen := freeze;
      }
      coexisted := coexisted || (tenantFrozen && volumeFrozen);
    }

    /** Undoes a freeze that did not come about; if that fails, nothing records it. */
    method GiveUp()
      requires tenantFrozen && (tenantFrozen && volumeFrozen ==> coexisted)
      modifies this`step, this`now, this`tenantFrozen, this`coexisted, this`stranded, this`lost
      ensures now >= old(now) && coexisted == old(coexisted) && step == old(step) + 1
      ensures tenantFrozen == !luck(old(step)).thaws
      ensures stranded <==> tenantFrozen && lease.None?
      ensures lost == (old(lost) || tenantFrozen)
    {
      var thawed := WriteTenant(false);
      stranded := !thawed && lease.None?;
      lost := lost || !thawed;
    }

    /** From the next step on, the freeze is written, the tenant's state unreadable and the thaw lost. */
    ghost predicate LosesThaw(at: nat) {
      luck(at).ok && !luck(at + 1).ok && !luck(at + 2).thaws
    }

    /** The look taken at this step is made, and finds the tenant's group frozen. */
    ghost predicate Reports(at: nat) {
      luck(at).ok && luck(at).frozen
    }

    ghost predicate FoundRunning(from: nat, to: nat) {
      forall n: nat :: from <= n < to ==> luck(n).ok && !luck(n).frozen
    }

    /**
     Freezes the tenant and waits until its group reports it frozen; it gives up on a look that fails, or
     after three seconds of looks that find it running, and thaws it again if that succeeds.
     */
    method FreezeTenantNow() returns (ok: bool)
      requires Valid()
      modifies this`step, this`now, this`tenantFrozen, this`coexisted, this`stranded, this`lost
      ensures now >= old(now) && step > old(step)
      ensures ok ==>
                && luck(old(step)).ok && step >= old(step) + 2 && Reports(step - 1)
                && FoundRunning(old(step) + 1, step - 1)
      ensures !ok && luck(old(step)).ok ==>
                && step >= old(step) + 3 && FoundRunning(old(step) + 1, step - 2) && !Reports(step - 2)
                && (!luck(step - 2).ok || now >= old(now) + 3_000)
      ensures luck(old(step)).ok && Reports(old(step) + 1) ==> ok && step == old(step) + 2
      ensures ok ==> tenantFrozen && lost == old(lost)
      ensures !ok ==> (stranded <==> tenantFrozen && lease.None?)
      ensures !ok && tenantFrozen ==> lost || old(tenantFrozen)
      ensures old(lost) ==> lost
      ensures (ThawsSucceed() ==> !lost) && (stranded ==> lost)
      ensures coexisted ==> old(coexisted) || volumeFrozen
      ensures (tenantFrozen && volumeFrozen) || old(coexisted) ==> coexisted
      ensures LosesThaw(old(step)) ==> !ok && tenantFrozen
    {
      var wrote := WriteTenant(true);
      if !wrote {
        return false;
      }
      var deadline := now + FREEZE_WAIT_MS;
      while true
        invariant tenantFrozen && lost == old(lost) && stranded == old(stranded) && now >= old(now)
        invariant coexisted <==> old(coexisted) || volumeFrozen
        invariant LosesThaw(old(step)) ==> step == old(step) + 1
        invariant step > old(step) && FoundRunning(old(step) + 1, step)
        decreases deadline - now
      {
        var l := Meet();
        if !l.ok {
          GiveUp();
          return false;
        }
        if l.frozen {
          return true;
        }
        if now >= deadline {
          GiveUp();
          return false;
        }
        now := now + EVENTS_POLL_MS;
      }
    }

    /** The host commits, the freeze is written, the first look finds the tenant frozen and the reply arrives. */
    ghost predicate FreezesAtOnce(at: nat) {
      luck(at).ok && luck(at + 1).ok && Reports(at + 2) && luck(at + 3).ok
    }

    /**
     The tenant freeze: once the host commits, the tenant is frozen and a lease recorded before the
     host is told, and a reply that does not arrive undoes it.
     */
    method AnswerFreeze() returns (reply: Reply, ghost heldAt: nat)
      requires Valid()
      modifies this`step, this`now, this`lease, this`tenantFrozen, this`coexisted, this`stranded, this`lost
      ensures Valid() && (old(lost) ==> lost)
      ensures reply in {Silent, Refused, TenantHeld}
      ensures step > old(step)
      ensures reply == TenantHeld ==>
                tenantFrozen && lease == Some(heldAt + 30_000) && old(now) <= heldAt <= now
      ensures reply == TenantHeld ==> step >= 2 && luck(old(step)).ok && Reports(step - 2) && luck(step - 1).ok
      ensures reply == Refused ==> lease == old(lease) && luck(step - 1).ok
      ensures reply == Silent ==> lease == old(lease) || lease == if tenantFrozen then Some(heldAt + 30_000) else None
      ensures FreezesAtOnce(old(step)) ==> reply == TenantHeld
      ensures !luck(old(step)).ok ==> reply != TenantHeld && tenantFrozen == old(tenantFrozen)
      ensures reply != TenantHeld && ThawsSucceed() && !old(tenantFrozen) ==> !tenantFrozen
      ensures old(lease).None? && luck(old(step)).ok && LosesThaw(old(step) + 1) ==> stranded
    {
      heldAt := now;
      var ok := false;
      var committed := Meet();
      if committed.ok {
        ok, heldAt := FreezeUnderLease();
      }
      reply := TellFreeze(ok);
    }

    /** Freezes the tenant, and once it is frozen records its lease. */
    method FreezeUnderLease() returns (ok: bool, ghost heldAt: nat)
      requires Valid()
      modifies this`step, this`now, this`lease, this`tenantFrozen, this`coexisted, this`stranded, this`lost
      ensures Valid() && (old(lost) ==> lost) && step > old(step)
      ensures ok ==> tenantFrozen && luck(old(step)).ok && step >= 2 && Reports(step - 1)
      ensures ok ==> lease == Some(heldAt + 30_000) && old(now) <= heldAt <= now
      ensures !ok ==> lease == old(lease)
      ensures luck(old(step)).ok && Reports(old(step) + 1) ==> ok && step == old(step) + 2
      ensures !ok && ThawsSucceed() && !old(tenantFrozen) ==> !tenantFrozen
      ensures old(lease).None? && LosesThaw(old(step)) ==> !ok && stranded
    {
      ok := FreezeTenantNow();
      heldAt := now;
      if ok {
        lease := Some(now + TENANT_LEASE_MS);
        stranded := false;
      }
    }

    /** Tells the host how its freeze went; one that worked but cannot be told is undone. */
    method TellFreeze(froze: bool) returns (reply: Reply)
      requires Valid() && (froze ==> tenantFrozen && lease.Some?)
      modifies this`step, this`now, this`lease, this`tenantFrozen, this`coexisted, this`stranded
      ensures Valid() && step > old(step) && now >= old(now)
      ensures (reply == Silent <==> !luck(old(step)).ok) && (reply == TenantHeld <==> froze && luck(old(step)).ok)
      ensures reply in {Silent, Refused, TenantHeld} && (reply != Silent ==> step == old(step) + 1)
      ensures reply == Silent && froze ==> tenantFrozen == !luck(old(step) + 1).thaws
      ensures reply == Silent && froze && tenantFrozen ==> lease == old(lease)
      ensures reply == Silent && froze && !tenantFrozen ==> lease == None
      ensures reply != Silent || !froze ==> tenantFrozen == old(tenantFrozen) && lease == old(lease)
    {
      var replied := Meet();
      if replied.ok {
        return if froze then TenantHeld else Refused;
      }
      reply := Silent;
      if froze {
        var thawed := WriteTenant(false);
        if thawed {
          lease := None;
        }
      }
    }

    /** The host's time arrives, it is set, the tenant is thawed and the host is told. */
    ghost predicate Releases(at: nat) {
      luck(at).ok && luck(at + 1).ok && luck(at + 2).thaws && luck(at + 3).ok
    }

    /** The release: the host's time is set before the tenant runs again, and only then is the lease given up. */
    method AnswerRelease() returns (reply: Reply, ghost time: nat)
      requires Valid()
      modifies this`step, this`now, this`lease, this`tenantFrozen, this`coexisted, this`stranded, this`clock
      ensures Valid() && step > old(step) && time == luck(old(step)).time
      ensures tenantFrozen ==> old(tenantFrozen)
      ensures old(tenantFrozen) && !tenantFrozen ==> clock == time
      ensures reply == ClockReleased <==> Releases(old(step))
      ensures reply == ClockReleased ==> lease == None && !tenantFrozen && clock == time
      ensures reply != ClockReleased ==> reply == Refused && lease == old(lease)
    {
      var sent := Meet();
      time := sent.time;
      if !sent.ok {
        return Refused, time;
      }
      var adjusted := Meet();
      if !adjusted.ok {
        return Refused, time;
      }
      clock := sent.time;
      var thawed := WriteTenant(false);
      if !thawed {
        return Refused, time;
      }
      var released := Meet();
      if !released.ok {
        return Refused, time;
      }
      lease := None;
      reply := ClockReleased;
    }

    ghost predicate StillThere(from: nat, to: nat) {
      forall n: nat :: from <= n < to ==> !luck(n).gone
    }

    /**
     Waits for the host to be done with the frozen volume: until the first look that finds it gone, or the
     first one 15 minutes later, with no more than a tenth of a second between two looks.
     */
    method HoldVolume()
      modifies this`step, this`now
      ensures now >= old(now) && step > old(step)
      ensures luck(step - 1).gone || now >= old(now) + 900_000
      ensures now <= old(now) + 900_000 + 100 + luck(step - 1).elapsed
      ensures StillThere(old(step), step - 1)
    {
      var deadline := now + MAX_HOLD_MS;
      while true
        invariant old(now) <= now <= old(now) + 900_000 + 100 && step >= old(step)
        invariant StillThere(old(step), step)
        decreases deadline - now
      {
        var l := Meet();
        if l.gone || now >= deadline {
          return;
        }
        now := now + POLL_MS;
      }
    }

    /** Tells the host of the frozen volume and, if that arrives, waits for it. */
    method TellAndHold() returns (told: bool, ghost toldAt: nat)
      modifies this`step, this`now
      ensures step > old(step) && old(now) <= toldAt <= now
      ensures told == luck(old(step)).ok
      ensures told ==> (luck(step - 1).gone || now >= toldAt + 900_000) && StillThere(old(step) + 1, step - 1)
    {
      var replied := Meet();
      told, toldAt := replied.ok, now;
      if told {
        HoldVolume();
      }
    }

    /**
     The volume freeze: ignored under a lease. Once the host is told, the volume stays frozen until a look
     finds the host gone or 15 minutes have passed, and whatever the host does it is undone before it returns.
     */
    method AnswerVolume() returns (reply: Reply, ghost toldFrozen: bool, ghost toldAt: nat, ghost last: nat)
      requires Valid()
      modifies this`step, this`now, this`volumeFrozen, this`coexisted, this`stuck, this`lost
      ensures Valid() && (old(lost) ==> lost)
      ensures reply in {Silent, Refused, VolumeHeld}
      ensures lease.Some? ==> reply == Silent && volumeFrozen == old(volumeFrozen)
      ensures lease.None? ==> (reply == Refused <==> !luck(old(step)).ok)
      ensures lease.None? ==> (reply == VolumeHeld <==> luck(old(step)).ok && luck(old(step) + 1).ok)
      ensures reply == VolumeHeld ==>
                && toldFrozen && toldAt >= old(now) && last + 2 == step
                && (luck(last).gone || now >= toldAt + 900_000)
                && StillThere(old(step) + 2, last)
      ensures step >= old(step)
      ensures ThawsSucceed() ==> !volumeFrozen
    {
      toldFrozen, toldAt, last := false, now, step;
      if lease.Some? {
        return Silent, toldFrozen, toldAt, last;
      }
      var froze := WriteVolume(true);
      if !froze {
        return Refused, toldFrozen, toldAt, last;
      }
      toldFrozen := volumeFrozen;
      var told;
      told, toldAt := TellAndHold();
      last := step - 1;
      reply := if told then VolumeHeld else Silent;
      var thawed := WriteVolume(false);
      stuck, lost := !thawed, lost || !thawed;
    }

    /** Answers one request. */
    method Answer() returns (asked: Request, reply: Reply)
      requires Valid()
      modifies this
      ensures Valid() && (old(lost) ==> lost) && asked == luck(old(step)).request && step > old(step)
      ensures asked == FreezeTenant && FreezesAtOnce(old(step) + 1) ==> reply == TenantHeld
      ensures asked == ReleaseClock ==> (reply == ClockReleased <==> Releases(old(step) + 1))
      ensures asked == FreezeVolume && lease.None? ==>
          (reply == VolumeHeld <==> luck(old(step) + 1).ok && luck(old(step) + 2).ok)
      ensures asked == FreezeTenant && old(lease).None? && luck(old(step) + 1).ok && LosesThaw(old(step) + 2) ==>
          stranded
      ensures reply == TenantHeld ==>
                asked == FreezeTenant && tenantFrozen && lease.Some? && lease.value >= old(now) + 30_000
      ensures reply == ClockReleased ==> asked == ReleaseClock && !tenantFrozen && lease == None
      ensures reply == VolumeHeld ==> asked == FreezeVolume && old(lease) == None
      ensures ThawsSucceed() ==> !volumeFrozen
      ensures asked != FreezeTenant && tenantFrozen ==> old(tenantFrozen)
      ensures asked != ReleaseClock && asked != FreezeTenant ==>
          tenantFrozen == old(tenantFrozen) && lease == old(lease)
    {
      var request := Meet();
      asked, reply := request.request, Silent;
      if asked == FreezeTenant {
        ghost var heldAt;
        reply, heldAt := AnswerFreeze();
      } else if asked == ReleaseClock {
        ghost var time;
        reply, time := AnswerRelease();
      } else if asked == FreezeVolume {
        ghost var toldFrozen, toldAt, last;
        reply, toldFrozen, toldAt, last := AnswerVolume();
      }
    }

    /**
     One turn of the loop: an expired lease is released, and the tenant with it, before a request is
     taken, unless thawing fails.
     */
    method Turn()
        returns (
          released: bool, asked: Request, reply: Reply, ghost checkedAt: nat, ghost askedAt: nat,
          ghost atRequest: Option<nat>, ghost frozenAtRequest: bool)
      requires Valid()
      modifies this
      ensures Valid() && (old(lost) ==> lost)
      ensures atRequest == old(lease) || atRequest == None
      ensures old(lease).Some? && checkedAt >= old(lease).value ==> (released <==> atRequest == None)
      ensures old(lease).Some? && atRequest == None ==> checkedAt >= old(lease).value && !frozenAtRequest
      ensures atRequest.Some? && released ==> checkedAt < atRequest.value
      ensures ThawsSucceed() ==> released && (frozenAtRequest ==> atRequest.Some?)
      ensures old(step) < askedAt < step && asked == luck(askedAt).request
      ensures asked == FreezeTenant && FreezesAtOnce(askedAt + 1) ==> reply == TenantHeld
      ensures asked == ReleaseClock ==> (reply == ClockReleased <==> Releases(askedAt + 1))
    {
      released := true;
      var l := Meet();
      checkedAt := now;
      if lease.Some? && now >= lease.value {
        released := WriteTenant(false);
        if released {
          lease := None;
        }
      }
      atRequest, frozenAtRequest, askedAt := lease, tenantFrozen, step;
      asked, reply := Answer();
    }

    /**
     Any number of turns: unless a thaw was lost, and so always if thawing succeeds, a frozen tenant
     has a lease, the volume is thawed and the two were never frozen at the same time. The tenant is
     frozen without a lease exactly while a lost thaw of it stands.
     */
    method Serve(turns: nat)
      requires Valid() && !coexisted
      modifies this
      ensures Valid() && step >= old(step) + 2 * turns
      ensures tenantFrozen && lease.None? <==> stranded
      ensures !lost || ThawsSucceed() ==> (tenantFrozen ==> lease.Some?) && !volumeFrozen && !coexisted
    {
      for turn := 0 to turns
        invariant Valid() && step >= old(step) + 2 * turn
      {
        var released, asked, reply, checkedAt, askedAt, atRequest, frozen := Turn();
      }
    }
  }

  /** A host that freezes the tenant when its state cannot be read and the thaw does not go through. */
  function Unlucky(n: nat): Luck {
    Luck(FreezeTenant, 0, n < 3, false, false, false, 0)
  }

  /** One such request leaves the tenant frozen with nothing to release it. */
  method TenantStranded() returns (guest: Guest)
    ensures guest.tenantFrozen && guest.lease == None
  {
    guest := new Guest(Unlucky);
    assert guest.LosesThaw(2);
    var asked, reply := guest.Answer();
  }
}
