/** The dead-man's switch of the firewall domain: Apply and Confirm of the RPC
    process, the independent revert timers, and boot recovery, all serialised by one
    file lock (internal/rpc/server.go, cmd/ghostd/main.go, internal/state/transaction.go).

    Every durable save, kernel change and timer command may succeed, fail, or be the
    last thing the process does. A failed or interrupted save leaves the old or the new
    record. Each method below runs with the lock held and returns where the lock is
    freed, whether by completion, by an error or by the death of the process, so what
    its contract says holds at every point where another holder can take over. */
module DeadMan {
  import opened Strings

  /** ghostd's own nft table, or its absence; never interpreted. */
  type Table = string

  type LeaseId = nat

  datatype Pending = Pending(applied: bool, id: LeaseId, deadline: nat, snapshot: Table, peer: string)

  datatype DomainState = DomainState(confirmed: Option<Table>, pending: Option<Pending>)

  /** How one step of a process ends. */
  datatype Outcome = Done | Failed | Crashed

  /** How a lease ends: by confirmation, by restoring its snapshot, or, when its timer
      could not be armed, before anything was changed. */
  datatype Ending = Confirmed | RolledBack | Withdrawn

  datatype Reply = Granted(id: LeaseId) | Ok | Refused | Error | Died

  class Host {
    var disk: DomainState    // the durable transaction record
    var live: Table          // the kernel's table
    var now: nat
    var serving: bool        // the RPC process is up
    var nextId: LeaseId      // lease identifiers are never reused

    ghost var settled: Table // what the host has last agreed to run
    ghost var booted: bool   // boot recovery completed since the last reboot
    ghost var ended: map<LeaseId, Ending>

    /** With no pending lease the live table is the settled one; with a pending lease
        its snapshot is. A host that has just rebooted runs whatever its boot gave it
        until recovery replays a confirmed table. */
    ghost predicate Safe()
      reads this
    {
      && (disk.pending.Some? ==> disk.pending.value.snapshot == settled)
      && (disk.pending.None? && (booted || disk.confirmed.None?) ==> live == settled)
      && (disk.confirmed.Some? ==> disk.confirmed.value == settled)
    }

    /** A pending lease has not ended, and ended leases are not minted again. */
    ghost predicate Fresh()
      reads this
    {
      && (disk.pending.Some? ==> disk.pending.value.id < nextId && disk.pending.value.id !in ended)
      && (forall id <- ended :: id < nextId)
      && (serving ==> booted)
    }

    /** A lease that has ended stays ended in the same way. */
    twostate predicate EndingsKept()
      reads this
    {
      forall id <- old(ended) :: id in ended && ended[id] == old(ended[id])
    }

    constructor (confirmed: Option<Table>, boot: Table)
      ensures Safe() && Fresh() && !serving && ended == map[]
    {
      disk := DomainState(confirmed, None);
      live := boot;
      now := 0;
      serving := false;
      nextId := 0;
      settled := if confirmed.Some? then confirmed.value else boot;
      booted := false;
      ended := map[];
    }

    // ---- Steps that can fail -------------------------------------------------

    method Save(d: DomainState, ghost how: Ending) returns (r: Outcome)
      modifies `disk, `ended
      ensures disk == d || disk == old(disk)
      ensures r.Done? ==> disk == d
      ensures ended == if old(disk).pending.Some? && disk.pending.None?
                       then old(ended)[old(disk).pending.value.id := how] else old(ended)
    {
      r := Failed;
      if * {
        if disk.pending.Some? && d.pending.None? {
          ended := ended[disk.pending.value.id := how];
        }
        disk := d;
        if * { r := Done; }
      }
      if * { r := Crashed; }
    }

    /** Loads a rendered table. A failed load may leave anything behind. */
    method Commit(target: Table) returns (r: Outcome)
      modifies `live
      ensures r.Done? ==> live == target
    {
      if * {
        live := target;
        r := Done;
      } else {
        var wreck: Table := *;
        live := wreck;
        r := Failed;
      }
      if * { r := Crashed; }
    }

    /** Replaces the table atomically; an absent blob means there is no baseline. */
    method Restore(snapshot: Option<Table>) returns (r: Outcome)
      modifies `live
      ensures snapshot.None? ==> live == old(live)
      ensures snapshot.Some? ==> live == snapshot.value || live == old(live)
      ensures r.Done? && snapshot.Some? ==> live == snapshot.value
    {
      if snapshot.None? {
        return Done;
      }
      r := Failed;
      if * {
        live := snapshot.value;
        if * { r := Done; }
      }
      if * { r := Crashed; }
    }

    method Arm() returns (r: Outcome)
    {
      if * { r := Done; } else if * { r := Failed; } else { r := Crashed; }
    }

    /** The clock moves while a process works. */
    method Elapse()
      modifies `now
      ensures now >= old(now)
    {
      var later :| later >= now;
      now := later;
    }

    // ---- Apply ---------------------------------------------------------------

    /** Before a new snapshot: an expired lease is rolled back, a live one refuses. */
    method RecoverExpired() returns (r: Outcome)
      requires Safe() && Fresh() && booted
      modifies `disk, `live, `ended
      ensures Safe() && Fresh() && EndingsKept()
      ensures disk.confirmed == old(disk).confirmed
      ensures r.Done? ==> disk.pending.None?
      ensures r.Done? && old(disk).pending.Some? ==>
                live == old(disk).pending.value.snapshot && now >= old(disk).pending.value.deadline
      ensures old(disk).pending.None? ==> r.Done? && disk == old(disk) && live == old(live)
      ensures old(disk).pending.Some? && now < old(disk).pending.value.deadline ==>
                r.Failed? && disk == old(disk) && live == old(live)
    {
      var d := disk;
      if d.pending.None? {
        return Done;
      }
      if now < d.pending.value.deadline {
        return Failed;
      }
      r := Restore(Some(d.pending.value.snapshot));
      if !r.Done? {
        return;
      }
      r := Save(d.(pending := None), RolledBack);
    }

    /** Records the lease, then arms its timer; before the first mutation. */
    method Begin(seconds: nat, snapshot: Table, peer: string) returns (r: Outcome, id: LeaseId)
      requires Safe() && Fresh() && booted && disk.pending.None?
      requires snapshot == live
      modifies `disk, `ended, `nextId
      ensures Safe() && Fresh() && EndingsKept()
      ensures disk.confirmed == old(disk).confirmed
      ensures r.Done? ==> disk.pending == Some(Pending(false, id, now + seconds, snapshot, peer))
      ensures r.Done? ==> id !in ended && id == old(nextId)
    {
      var d := disk;
      id := nextId;
      nextId := nextId + 1;
      d := d.(pending := Some(Pending(false, id, now + seconds, snapshot, peer)));
      r := Save(d, Withdrawn);
      if !r.Done? {
        return;
      }
      r := Arm();
      if r.Failed? {
        var saved := Save(d.(pending := None), Withdrawn);
        if saved.Crashed? { r := Crashed; }
      }
    }

    /** Only a completed mutation becomes confirmable. */
    method FinishApply() returns (r: Outcome)
      requires Safe() && Fresh() && disk.pending.Some?
      modifies `disk, `ended
      ensures Safe() && Fresh() && ended == old(ended)
      ensures disk == old(disk) || disk == old(disk).(pending := Some(old(disk).pending.value.(applied := true)))
      ensures r.Done? ==> disk.pending.value.applied
    {
      if * { return Failed; } // the deadline of the call passed
      var d := disk;
      r := Save(d.(pending := Some(d.pending.value.(applied := true))), Withdrawn);
    }

    method ApplyFirewall(target: Table, seconds: nat, peer: string) returns (r: Reply)
      requires Safe() && Fresh() && serving && seconds > 0
      modifies `disk, `live, `ended, `nextId, `serving
      ensures Safe() && Fresh() && EndingsKept()
      ensures serving == !r.Died?
      ensures r.Granted? ==> live == target && disk.pending.Some? && disk.pending.value.applied
                             && disk.pending.value.id == r.id && disk.pending.value.deadline == now + seconds
      ensures r.Granted? ==> r.id !in old(ended) && disk.confirmed == old(disk).confirmed
      ensures old(disk).pending.Some? && now < old(disk).pending.value.deadline ==>
                r.Refused? && disk == old(disk) && live == old(live)
    {
      var step := RecoverExpired();
      if !step.Done? {
        r := if step.Crashed? then Died else Refused;
        serving := !step.Crashed?;
        return;
      }
      var snapshot := live;
      var id;
      step, id := Begin(seconds, snapshot, peer);
      if step.Done? {
        step := Commit(target);
        if step.Done? {
          step := FinishApply();
        }
      }
      r := if step.Done? then Granted(id) else if step.Crashed? then Died else Error;
      serving := !step.Crashed?;
    }

    // ---- Confirm -------------------------------------------------------------

    /** The only step that changes what is settled: and only to the live table, for
        the pending lease named, applied in full, unexpired, from another peer. */
    method Confirm(id: LeaseId, peer: string) returns (r: Reply)
      requires Safe() && Fresh() && serving
      modifies `disk, `ended, `now, `settled, `serving
      ensures Safe() && Fresh() && EndingsKept()
      ensures serving == !r.Died?
      ensures settled != old(settled) || r.Ok? || disk != old(disk) ==>
                && old(disk).pending.Some?
                && old(disk).pending.value.id == id
                && old(disk).pending.value.applied
                && old(disk).pending.value.peer != peer
                && now < old(disk).pending.value.deadline
                && disk == DomainState(Some(live), None)
                && settled == live
                && id in ended && ended[id] == Confirmed
    {
      var d := disk;
      if d.pending.None? || d.pending.value.id != id || now >= d.pending.value.deadline
         || d.pending.value.peer == peer || !d.pending.value.applied
      {
        return Refused;
      }
      if * { return Error; } // the ruleset could not be read
      var owned := live;
      Elapse();
      if now >= d.pending.value.deadline {
        return Refused;
      }
      var step := Save(DomainState(Some(owned), None), Confirmed);
      if disk.pending.None? {
        settled := live;
      }
      r := if step.Done? then Ok else if step.Failed? then Error else Died;
      serving := !r.Died?;
    }

    // ---- Timers and boot -----------------------------------------------------

    /** recoverDomain: `lease` is a timer's own lease, or none at boot. */
    method RecoverDomain(lease: Option<LeaseId>) returns (r: Outcome)
      requires Safe() && Fresh()
      modifies `disk, `live, `ended
      ensures Safe() && Fresh() && EndingsKept()
      ensures r.Done? && lease.None? ==> disk.pending.None? && (disk.confirmed.Some? ==> live == disk.confirmed.value)
      ensures lease.Some? && (old(disk).pending.None? || old(disk).pending.value.id != lease.value) ==>
                r.Done? && disk == old(disk) && live == old(live) && ended == old(ended)
      ensures r.Done? && old(disk).pending.Some? && (lease.None? || old(disk).pending.value.id == lease.value) ==>
                disk == old(disk).(pending := None) && live == old(disk).pending.value.snapshot
      ensures disk != old(disk) ==>
                && old(disk).pending.Some? && disk == old(disk).(pending := None)
                && live == old(disk).pending.value.snapshot
                && old(disk).pending.value.id in ended && ended[old(disk).pending.value.id] == RolledBack
    {
      var d := disk;
      if d.pending.Some? && (lease.None? || d.pending.value.id == lease.value) {
        r := Restore(Some(d.pending.value.snapshot));
        if !r.Done? {
          return;
        }
        r := Save(d.(pending := None), RolledBack);
        return;
      }
      if lease.Some? {
        return Done;
      }
      r := Restore(d.confirmed);
    }

    /** One firing of a revert timer, at any time, for any lease: the record goes only with
        its table restored, and only for the timer's own lease. */
    method RunRevert(id: LeaseId) returns (r: Outcome)
      requires Safe() && Fresh()
      modifies `disk, `live, `ended
      ensures Safe() && Fresh() && EndingsKept()
      ensures id in old(ended) ==> disk == old(disk) && live == old(live) && ended == old(ended)
      ensures disk != old(disk) || (r.Done? && old(disk).pending.Some? && old(disk).pending.value.id == id) ==>
                && old(disk).pending.Some? && old(disk).pending.value.id == id
                && disk == old(disk).(pending := None) && live == old(disk).pending.value.snapshot
                && id in ended && ended[id] == RolledBack
    {
      r := RecoverDomain(Some(id));
    }

    /** The daemon starts: it serves only once recovery has completed. */
    method Boot()
      requires Safe() && Fresh()
      modifies `disk, `live, `ended, `serving, `booted
      ensures Safe() && Fresh() && EndingsKept()
      ensures serving ==> disk.pending.None?
      ensures serving && disk.confirmed.Some? ==> live == disk.confirmed.value
    {
      var step := RecoverDomain(None);
      serving := step.Done?;
      if step.Done? {
        booted := true;
      }
    }

    /** The machine restarts: the kernel table is lost, timers do not survive. */
    method Reboot(boot: Table)
      requires Safe() && Fresh()
      modifies `live, `serving, `booted, `settled
      ensures Safe() && Fresh() && ended == old(ended) && !serving
      ensures disk.pending.Some? || disk.confirmed.Some? ==> settled == old(settled)
    {
      live := boot;
      serving := false;
      booted := false;
      if disk.pending.None? && disk.confirmed.None? {
        settled := boot;
      }
    }

    // ---- Runs ----------------------------------------------------------------

    /** Any interleaving of any length of applies, confirmations, timer firings, daemon
        starts and deaths, and reboots. */
    method Run(steps: nat)
      requires Safe() && Fresh()
      modifies this
      ensures Safe() && Fresh() && EndingsKept()
    {
      for i := 0 to steps
        invariant Safe() && Fresh() && EndingsKept()
      {
        Elapse();
        var id: LeaseId, t: Table, peer: string, seconds: nat := *, *, *, *;
        if * {
          if serving && seconds > 0 { var _ := ApplyFirewall(t, seconds, peer); }
        } else if * {
          if serving { var _ := Confirm(id, peer); }
        } else if * {
          var _ := RunRevert(id);
        } else if * {
          Boot();
        } else if * {
          serving := false; // the daemon is killed
        } else {
          Reboot(t);
        }
      }
    }

    /** Timers firing at any times, for any leases, as often as they like, with anything in
        between: applies, confirmations, other firings, daemon starts and deaths, reboots.
        A firing changes record or table only for a lease that has not ended; and it ends
        a lease at most once, rolled back. */
    method FireLate(ids: seq<LeaseId>, gaps: seq<nat>) returns (ghost touched: set<nat>, ghost reverted: set<nat>)
      requires Safe() && Fresh() && |gaps| == |ids|
      modifies this
      ensures Safe() && Fresh() && EndingsKept()
      ensures forall i <- touched :: i < |ids| && ids[i] !in old(ended)
      ensures forall i <- reverted :: i in touched && ids[i] in ended && ended[ids[i]] == RolledBack
      ensures forall i, j | i in reverted && j in reverted && ids[i] == ids[j] :: i == j
    {
      touched, reverted := {}, {};
      for i := 0 to |ids|
        invariant Safe() && Fresh() && EndingsKept()
        invariant forall n <- touched :: n < i && ids[n] !in old(ended)
        invariant forall n <- reverted :: n in touched && ids[n] in ended && ended[ids[n]] == RolledBack
        invariant forall m, n | m in reverted && n in reverted && ids[m] == ids[n] :: m == n
      {
        Run(gaps[i]);
        ghost var disk0, live0, ended0, settled0 := disk, live, ended, settled;
        var _ := RunRevert(ids[i]);
        if disk != disk0 || live != live0 || ended != ended0 || settled != settled0 {
          touched := touched + {i};
          if disk != disk0 { reverted := reverted + {i}; }
        }
      }
    }
  }
}
