/** The takeover from a legacy dnsmasq: a journaled transaction between two allocators that
    may be cut short anywhere (internal/addressbook/handover.go, cmd/ghostd/dhcp_feature.go
    and dnsmasq_feature.go). Every durable write may fail with either value on disk, and the
    process may die between any two steps. */
module Handover {
  import opened Strings
  import opened Bindings
  import opened Configs
  import opened Database
  import opened LeaseText
  import opened LeaseFile
  import opened Import
  import opened Delegation
  import opened Handback
  import opened Standing
  import Ledger

  datatype Phase = Idle | Stopping | Snapshotted | Pending | RollingBack | RolledBack | Confirmed

  datatype Journal = Journal(phase: Phase, activated: bool, target: Config, previous: Config, snapshot: string,
                             deadline: int)

  /** Refused is an answer; Failed is a write, a bind or a unit that failed. */
  datatype Outcome = Done | Refused | Failed | Crashed

  predicate AtRest(p: Phase) {
    p == Idle || p == RolledBack
  }

  predicate NeedsRecovery(j: Journal, now: int) {
    j.phase == Stopping || j.phase == Snapshotted || j.phase == RollingBack || (j.phase == Pending && now >= j.deadline)
  }

  datatype Action =
    | TakeOver(target: Config, validated: bool, grace: int)
    | Verify(verified: bool)
    | GiveBack
    | Watch
    | Start
    | Die
    | Restarts
    | Legacy(text: string, exits: bool)
    | Serving(command: Ledger.Command)
    | Change(config: Config)

  /** Configurations have been validated, and so have commands. */
  ghost predicate Proper(a: Action) {
    match a
    case TakeOver(target, validated, _) => validated ==> Validated(target)
    case Serving(command) => Handled(command)
    case Change(c) => Validated(c)
    case _ => true
  }

  class Takeover {
    /** Whether two configurations are the same. */
    const same: (Config, Config) -> bool

    // On disk.
    var journal: Journal
    var disk: Config
    var db: Database
    // The legacy allocator: whether it may start at boot, whether it runs, its lease file.
    var masked: bool
    var running: bool
    var file: string
    // The daemon: whether it is up, and the configuration it serves.
    var up: bool
    var live: Config
    var now: int
    /** What the legacy allocator itself last wrote, or was last given. */
    ghost var wrote: string
    /** Whether the server identity is still the one the snapshot's import left. */
    ghost var sameServer: bool
    /** Whether all that was live at that import could be exported, and everything since was
        done by real clients under the target. */
    ghost var steady: bool

    /** The ledger and the clock. */
    ghost predicate LedgerOk()
      reads this
    {
      Sound(db) && 0 <= now && LastTime(db.events) <= now
    }

    ghost predicate Compares()
    {
      forall a, b :: same(a, b) <==> a == b
    }

    /** Scopes may be switched on: ghostd's right to serve is on disk, and the legacy
        allocator is stopped for good. */
    ghost predicate MayServe(j: Journal)
      reads this
    {
      j.activated && masked && !running
    }

    /** What holds at every moment, were j the journal. */
    ghost predicate SafeWith(j: Journal)
      reads this
    {
      && Validated(disk) && Validated(live) && (j.phase != Idle ==> Validated(j.target) && Validated(j.previous))
      && (up && AnyEnabled(live) ==> MayServe(j) && !AtRest(j.phase))
      && (AnyEnabled(disk) ==> MayServe(j) && !AtRest(j.phase))
      && (j.phase == Pending || j.phase == Confirmed ==> MayServe(j))
      && (!j.activated || AtRest(j.phase) ==> file == wrote)
      && (j.activated ==> Parses(j.target, j.snapshot))
      && (j.activated && !AtRest(j.phase) ==> Owed(j.target, j.snapshot, sameServer, steady, db, now))
    }

    ghost predicate Safe()
      reads this
    {
      LedgerOk() && SafeWith(journal) && Compares()
    }

    /** The legacy allocator never runs while ghostd has a scope switched on, and no scope
        is on unless the journal says so on disk. */
    ghost predicate OneAllocator()
      reads this
    {
      up && AnyEnabled(live) ==> !running && journal.activated
    }

    /** A host that runs the legacy allocator and serves nothing. */
    constructor (c: Config, db: Database, file: string, same: (Config, Config) -> bool)
      requires Validated(c) && !AnyEnabled(c) && Sound(db) && LastTime(db.events) <= 0
      requires forall a, b :: same(a, b) <==> a == b
      ensures Safe() && journal.phase == Idle && running && !up
    {
      this.same := same;
      journal := Journal(Idle, false, c, c, "", 0);
      disk, live := c, c;
      this.db, this.file, wrote := db, file, file;
      masked, running, up, now := false, true, false, 0;
      sameServer, steady := false, false;
    }

    // ---- Steps that can fail ---------------------------------------------------------------------

    method SaveJournal(j: Journal) returns (r: Outcome)
      requires Safe() && SafeWith(j) && up
      modifies `journal, `up
      ensures Safe()
      ensures journal == j || journal == old(journal)
      ensures r.Done? ==> journal == j
      ensures up == !r.Crashed? && !r.Refused?
    {
      r := Failed;
      if * {
        journal := j;
        if * { r := Done; }
      }
      if * { r, up := Crashed, false; }
    }

    /** Manager.Apply: binds, notes the change in the log, saves and only then switches. */
    method ApplyConfig(c: Config, save: bool) returns (r: Outcome)
      requires Safe() && up && Validated(c)
      modifies `disk, `live, `up, `db, `now
      ensures (AnyEnabled(c) ==> MayServe(journal) && !AtRest(journal.phase)) ==> Safe()
      ensures r.Done? ==> live == c && (save ==> disk == c)
      ensures !save ==> disk == old(disk)
      ensures db.leases == old(db.leases) && old(now) <= now
      ensures up == !r.Crashed? && !r.Refused?
    {
      r := Failed;
      if * {
        NoteChange();
        r := Switch(c, save);
      }
      if * { r, up := Crashed, false; }
    }

    /** Saves, if asked to, and switches. */
    method Switch(c: Config, save: bool) returns (r: Outcome)
      requires Safe() && Validated(c)
      modifies `disk, `live
      ensures (AnyEnabled(c) ==> MayServe(journal) && !AtRest(journal.phase)) ==> Safe()
      ensures r.Done? ==> live == c && (save ==> disk == c)
      ensures !save ==> disk == old(disk)
      ensures r.Done? || r.Failed?
    {
      r := Failed;
      if save {
        if * { disk := c; }
      }
      if * {
        if save { disk := c; }
        live := c;
        r := Done;
      }
    }

    /** NoteDNSConfig: an event without a binding. */
    method NoteChange()
      requires Safe()
      modifies `db, `now
      ensures Safe() && db.leases == old(db.leases) && old(now) <= now
    {
      SoundIs(db);
      db := Audit(db, "dns-config", now);
      SoundIs(db);
      Elapse();
      if journal.activated && !AtRest(journal.phase) {
        OwedLater(journal.target, journal.snapshot, sameServer, steady, old(db), old(now), db, now);
      }
    }

    /** Masks and stops the legacy allocator. */
    method StopLegacy() returns (r: Outcome)
      requires Safe() && up
      modifies `masked, `running, `up
      ensures Safe()
      ensures r.Done? ==> masked && !running
      ensures up == !r.Crashed? && !r.Refused?
    {
      r := Failed;
      if * {
        masked := true;
        if * {
          running := false;
          if * { r := Done; }
        }
      }
      if * { r, up := Crashed, false; }
    }

    /** Unmasks and starts the legacy allocator: with ghostd's scopes off, on disk too; with
        its own file as it wrote it if ghostd never was allowed to serve; and otherwise
        with everything handed back. */
    method StartLegacy(ghost m0: Bucket, ghost t0: int) returns (r: Outcome)
      requires Safe() && up && journal.phase == RollingBack
      requires !AnyEnabled(live) && !AnyEnabled(disk)
      requires !journal.activated ==> file == wrote
      requires journal.activated ==> Handed(journal.target, journal.snapshot, file, db.leases, m0, t0, now)
      modifies `masked, `running, `up, `wrote
      ensures Safe()
      ensures r.Done? ==> running && file == wrote
      ensures up == !r.Crashed? && !r.Refused?
    {
      r := Failed;
      if * {
        masked := false;
        if * {
          running, wrote := true, file;
          if * { r := Done; }
        }
      }
      if * { r, up := Crashed, false; }
    }

    method WriteLeases(text: string) returns (r: Outcome)
      requires Safe() && up && journal.phase == RollingBack && journal.activated
      modifies `file, `up
      ensures Safe()
      ensures r.Done? ==> file == text
      ensures up == !r.Crashed? && !r.Refused?
    {
      r := Failed;
      if * {
        file := text;
        if * { r := Done; }
      }
      if * { r, up := Crashed, false; }
    }

    /** A ledger transaction commits, or it does not. */
    method CommitLedger(tx: Database) returns (r: Outcome)
      requires Safe() && up && Sound(tx)
      requires journal.activated && !AtRest(journal.phase) ==>
                 Owed(journal.target, journal.snapshot, sameServer, steady, tx, now)
      modifies `db, `up, `now
      ensures Safe() && old(now) <= now
      ensures r.Done? ==> db == tx
      ensures up == !r.Crashed? && !r.Refused?
    {
      r := Failed;
      if * {
        db := tx;
        r := Done;
      }
      ghost var at := now;
      Elapse();
      if journal.activated && !AtRest(journal.phase) {
        OwedLater(journal.target, journal.snapshot, sameServer, steady, db, at, db, now);
      }
      if * { r, up := Crashed, false; }
    }

    /** Time passes. */
    method Pass()
      requires Safe()
      modifies `now
      ensures Safe() && old(now) <= now
    {
      Elapse();
      if journal.activated && !AtRest(journal.phase) {
        OwedLater(journal.target, journal.snapshot, sameServer, steady, db, old(now), db, now);
      }
    }

    method Elapse()
      requires 0 <= now
      modifies `now
      ensures old(now) <= now && LastTime(db.events) <= now
    {
      var t :| t >= now && t >= LastTime(db.events);
      now := t;
    }

    // ---- Takeover -----------------------------------------------------------------------------------

    /** Begin: recovery intent is on disk before the legacy allocator is stopped; whatever
        goes wrong after that is rolled back. */
    method Begin(target: Config, validated: bool, grace: int) returns (r: Outcome)
      requires Safe() && up && (validated ==> Validated(target))
      modifies this
      ensures Safe() && (up <==> !r.Crashed?)
      ensures r.Done? ==> journal.phase == Pending && live == target && disk == target
    {
      if !validated || grace < 30 || grace > 1800 || AnyEnabled(live) || !AtRest(journal.phase) {
        return Refused;
      }
      if * {
        return Refused; // the legacy configuration does not match, or delegations were not accepted
      }
      var j := Journal(Stopping, false, target, live, "", now + grace);
      r := SaveJournal(j);
      if !r.Done? {
        return r;
      }
      r, j := Advance(j);
      if !r.Done? && !r.Crashed? {
        var noted := SaveJournal(j);
        if noted.Crashed? {
          return Crashed;
        }
        var back := Rollback();
        if back.Crashed? {
          return Crashed;
        }
      }
    }

    /** The steps of a takeover; j' is the journal as far as it got in memory. */
    method Advance(j: Journal) returns (r: Outcome, j': Journal)
      requires Safe() && up && journal == j && j.phase == Stopping && !j.activated && !AnyEnabled(live)
               && !AnyEnabled(disk)
      modifies this
      ensures Safe() && (up <==> !r.Crashed?)
      ensures !r.Done? && !r.Crashed? ==> SafeWith(j') && !AtRest(j'.phase)
      ensures r.Done? ==> journal.phase == Pending && live == j.target && disk == j.target
    {
      r, j' := TakeSnapshot(j);
      if !r.Done? {
        return r, j';
      }
      r := ImportSnapshot(j');
      if !r.Done? {
        return r, j';
      }
      j' := j'.(activated := true);
      r := SaveJournal(j');
      if !r.Done? {
        return r, j';
      }
      r, j' := Activate(j');
    }

    /** Stops the legacy allocator and journals its lease file. */
    method TakeSnapshot(j: Journal) returns (r: Outcome, j': Journal)
      requires Safe() && up && journal == j && j.phase == Stopping && !j.activated && !AnyEnabled(live)
               && !AnyEnabled(disk)
      modifies `journal, `masked, `running, `up
      ensures Safe() && (up <==> !r.Crashed?)
      ensures !r.Done? && !r.Crashed? ==> SafeWith(j') && !AtRest(j'.phase)
      ensures r.Done? ==> journal == j' == j.(snapshot := file, phase := Snapshotted) && masked && !running
    {
      j' := j;
      r := StopLegacy();
      if !r.Done? {
        return r, j';
      }
      if * {
        return Failed, j'; // the lease file cannot be read
      }
      j' := j'.(snapshot := file, phase := Snapshotted);
      r := SaveJournal(j');
    }

    /** Switches the target's scopes on, ghostd's right to serve being on disk. */
    method Activate(j: Journal) returns (r: Outcome, j': Journal)
      requires Safe() && up && journal == j && j.phase == Snapshotted && MayServe(j)
      modifies `journal, `disk, `live, `up, `db, `now
      ensures Safe() && (up <==> !r.Crashed?)
      ensures !r.Done? && !r.Crashed? ==> SafeWith(j') && !AtRest(j'.phase)
      ensures r.Done? ==> journal.phase == Pending && live == j.target && disk == j.target
    {
      j' := j;
      r := ApplyConfig(j.target, true);
      if !r.Done? {
        return r, j';
      }
      j' := j.(phase := Pending);
      r := SaveJournal(j');
    }

    /** Parses the snapshot and imports it into the switched-off target. */
    method ImportSnapshot(j: Journal) returns (r: Outcome)
      requires Safe() && up && Validated(j.target) && !journal.activated
      modifies `db, `now, `up, `sameServer, `steady
      ensures Safe() && (up <==> !r.Crashed?)
      ensures r.Done? ==>
                Parses(j.target, j.snapshot) && Owed(j.target, j.snapshot, sameServer, steady, db, now) && sameServer
      ensures r.Done? ==> steady == old(Ready(j.target, db.leases, now))
    {
      var doc := ParseDnsmasq(j.target, j.snapshot);
      if doc.None? {
        return Refused;
      }
      ParseOff(j.target, j.snapshot);
      ParsesIs(j.target, j.snapshot);
      ValidatedOff(j.target);
      var tx, ok := ImportInto(Disabled(j.target), doc.value);
      if !ok {
        return Refused;
      }
      sameServer, steady := true, Ready(j.target, db.leases, now);
      SnapshotOwed(j.target, j.snapshot, steady, db, tx, now);
      ghost var at := now;
      r := CommitLedger(tx);
      OwedLater(j.target, j.snapshot, sameServer, steady, tx, at, tx, now);
    }

    /** One import, on a copy of the ledger. */
    method ImportInto(c: Config, doc: Document) returns (tx: Database, ok: bool)
      requires LedgerOk() && Validated(c)
      ensures ok <==> Imports(c, db, doc, now).Some?
      ensures ok ==> Sound(tx) && Imports(c, db, doc, now) == Some(tx.leases)
      ensures ok ==> tx.serverDuid == if doc.serverDuid != "" then Lower(Strip(doc.serverDuid)) else db.serverDuid
    {
      ValidatedIs(c);
      SoundIs(db);
      tx, ok := ImportDocument(c, db, doc, now);
      SoundIs(tx);
    }

    /** Confirm: a pending takeover within its deadline, once verified, is kept. */
    method Confirm(verified: bool) returns (r: Outcome)
      requires Safe() && up
      modifies this
      ensures Safe() && (up <==> !r.Crashed?)
      ensures r.Done? ==> journal.phase == Confirmed
      ensures journal.phase != old(journal.phase) ==>
                old(journal.phase) == Pending && journal.phase == Confirmed && verified
                && old(now) < old(journal.deadline)
    {
      if journal.phase == Confirmed {
        return Done;
      }
      if journal.phase != Pending || now >= journal.deadline || !verified {
        return Refused;
      }
      Pass();
      if now >= journal.deadline {
        return Refused;
      }
      r := SaveJournal(journal.(phase := Confirmed, deadline := 0));
      if r.Done? {
        r := Archive();
      }
    }

    /** The finished takeover is kept as history, which may fail. */
    method Archive() returns (r: Outcome)
      requires Safe() && up
      modifies `up
      ensures Safe() && (up <==> !r.Crashed?) && !r.Refused?
    {
      r := Done;
      if * { r := Failed; }
      if * { r, up := Crashed, false; }
    }

    // ---- Rollback --------------------------------------------------------------------------------------

    /** Why a rollback may be refused: the configuration was changed after the takeover was
        confirmed, or the ledger is no longer one the legacy allocator can be given. */
    ghost predicate MayRefuse(j: Journal, c: Config, at: int)
      reads this
    {
      || (j.phase == Confirmed && Disabled(c) != Disabled(j.target))
      || (j.activated && !(sameServer && steady && Settled(j.target, at)))
    }

    /** Rollback: scopes go off, the ledger goes back into the lease file if ghostd may have
        served, and only then is the legacy allocator started. It is not refused as long as
        the server identity was kept, everything was done by real clients under the target,
        and ends fit the lease file; and then the legacy allocator can read its file. */
    method Rollback() returns (r: Outcome)
      requires Safe() && up
      modifies `journal, `disk, `live, `up, `db, `now, `file, `masked, `running, `wrote
      ensures Safe() && (up <==> !r.Crashed?)
      ensures r.Done? ==> AtRest(journal.phase)
      ensures r.Done? && !AtRest(old(journal.phase)) ==> running && !AnyEnabled(live) && !AnyEnabled(disk)
      ensures r.Refused? ==> MayRefuse(old(journal), old(live), now)
      ensures r.Done? && !AtRest(old(journal.phase)) && old(journal.activated) ==>
                && HandedSince(old(journal), file, db.leases, old(db.leases), old(now), now)
                && (steady && Settled(old(journal.target), now) ==> Parses(old(journal.target), file))
    {
      var j := journal;
      if AtRest(j.phase) {
        return Done;
      }
      if j.phase == Confirmed && !same(Disabled(live), Disabled(j.target)) {
        return Refused;
      }
      r := Undo(j.(phase := RollingBack));
    }

    /** The steps of a rollback. */
    method Undo(j: Journal) returns (r: Outcome)
      requires Safe() && up && SafeWith(j) && j.phase == RollingBack
      modifies `journal, `disk, `live, `up, `db, `now, `file, `masked, `running, `wrote
      ensures Safe() && (up <==> !r.Crashed?)
      ensures r.Done? ==> journal.phase == RolledBack && running && !AnyEnabled(live) && !AnyEnabled(disk)
      ensures r.Refused? ==> j.activated && !(sameServer && steady && Settled(j.target, now))
      ensures r.Done? && j.activated ==>
                && HandedSince(j, file, db.leases, old(db.leases), old(now), now)
                && (steady && Settled(j.target, now) ==> Parses(j.target, file))
    {
      r := SwitchOff(j);
      if !r.Done? {
        return r;
      }
      r := GiveLegacy(j);
      if !r.Done? {
        return r;
      }
      r := SaveJournal(j.(phase := RolledBack, deadline := 0));
      if r.Done? {
        r := Archive();
      }
    }

    /** Hands the ledger back if ghostd may have served, and starts the legacy allocator. */
    method GiveLegacy(j: Journal) returns (r: Outcome)
      requires Safe() && up && journal == j && j.phase == RollingBack
      requires Validated(Disabled(j.target)) && Validated(Disabled(j.previous)) && !AnyEnabled(live)
               && !AnyEnabled(disk)
      modifies `disk, `live, `up, `db, `now, `file, `masked, `running, `wrote
      ensures Safe() && (up <==> !r.Crashed?)
      ensures r.Done? ==> running && !AnyEnabled(live) && !AnyEnabled(disk) && file == wrote
      ensures r.Refused? ==> j.activated && !(sameServer && steady && Settled(j.target, now))
      ensures r.Done? && j.activated ==>
                && HandedSince(j, file, db.leases, old(db.leases), old(now), now)
                && (steady && Settled(j.target, now) ==> Parses(j.target, file))
    {
      if j.activated {
        r := HandBack(j);
        if !r.Done? {
          return r;
        }
      }
      ghost var at := now;
      r := Restart(j, old(db.leases), old(now));
      if r.Done? && j.activated && steady && Settled(j.target, now) { SettledBefore(j.target, at, now); }
    }

    /** Journals the rollback and switches the target's scopes off. */
    method SwitchOff(j: Journal) returns (r: Outcome)
      requires Safe() && up && SafeWith(j) && j.phase == RollingBack
      modifies `journal, `disk, `live, `up, `db, `now
      ensures Safe() && (up <==> !r.Crashed?) && !r.Refused?
      ensures db.leases == old(db.leases) && old(now) <= now
      ensures r.Done? ==> journal == j && Validated(Disabled(j.target)) && Validated(Disabled(j.previous))
      ensures r.Done? ==> !AnyEnabled(live) && !AnyEnabled(disk)
    {
      r := SaveJournal(j);
      if !r.Done? {
        return r;
      }
      ValidatedOff(j.target);
      ValidatedOff(j.previous);
      r := ApplyConfig(Disabled(j.target), true);
    }

    /** Exports the ledger, with the snapshot's leases that nobody holds put back first, and
        ends the delegations the legacy allocator cannot serve. */
    method HandBack(j: Journal) returns (r: Outcome)
      requires Safe() && up && journal == j && j.phase == RollingBack && j.activated && Validated(Disabled(j.target))
      modifies `db, `now, `up, `file
      ensures Safe() && (up <==> !r.Crashed?) && old(now) <= now
      ensures r.Refused? ==> !(sameServer && steady && Settled(j.target, now))
      ensures r.Done? ==> Handed(j.target, j.snapshot, file, db.leases, old(db.leases), old(now), now)
      ensures r.Done? && steady && Settled(j.target, now) ==> Parses(j.target, file)
    {
      var text;
      r, text := Export(j);
      if !r.Done? {
        return r;
      }
      r := WriteLeases(text);
      if !r.Done? {
        return r;
      }
      ghost var m, at := db.leases, now;
      ghost var pools;
      r, pools := AbandonAll(j);
      if r.Done? {
        HandedLater(j.target, j.snapshot, file, m, db.leases, pools, old(db.leases), old(now), at, now);
        if steady && Settled(j.target, now) {
          ReadyReadable(j.target, j.snapshot, sameServer, file, db.leases, old(db), old(now), now);
        }
      }
    }

    /** The import cannot be refused while the server identity was kept, nor the export
        while what is live can be exported. */
    method Export(j: Journal) returns (r: Outcome, text: string)
      requires Safe() && up && journal == j && j.phase == RollingBack && j.activated && Validated(Disabled(j.target))
      modifies `db, `now, `up
      ensures Safe() && (up <==> !r.Crashed?) && old(now) <= now
      ensures r.Refused? ==> !(sameServer && steady && Settled(j.target, now))
      ensures r.Done? ==> Handed(j.target, j.snapshot, text, db.leases, old(db.leases), old(now), now)
    {
      text := "";
      var doc := ParseDnsmasq(j.target, j.snapshot);
      ParseOff(j.target, j.snapshot);
      ParsesIs(j.target, j.snapshot);
      var missing := MissingLeases(doc.value.leases, db.leases, now);
      var again := doc.value.(leases := missing);
      var tx, ok := ImportInto(Disabled(j.target), again);
      if !ok {
        if sameServer { TakenAgain(j.target, j.snapshot, sameServer, steady, db, now); }
        return Refused, text;
      }
      MissingOwed(j.target, j.snapshot, sameServer, steady, db, tx, now);
      r := CommitLedger(tx);
      if !r.Done? {
        return r, text;
      }
      var bs := ListBindings(db.leases, now);
      if steady && Settled(j.target, now) { ReadyPrints(j.target, j.snapshot, sameServer, steady, db, bs, now); }
      var printed := ExportDnsmasq(Disabled(j.target), db.serverDuid, bs);
      if printed.None? {
        return Refused, text;
      }
      text := printed.value;
      ExportedBack(j.target, old(db), j.snapshot, old(now), db, bs, now);
    }

    /** Leaves the previous configuration, switched off, and starts the legacy allocator. */
    method Restart(j: Journal, ghost m0: Bucket, ghost t0: int) returns (r: Outcome)
      requires Safe() && up && journal == j && j.phase == RollingBack && Validated(Disabled(j.previous))
      requires j.activated ==> Handed(j.target, j.snapshot, file, db.leases, m0, t0, now)
      modifies `disk, `live, `up, `db, `now, `masked, `running, `wrote
      ensures Safe() && (up <==> !r.Crashed?) && !r.Refused? && old(now) <= now && db.leases == old(db.leases)
      ensures r.Done? ==> running && !AnyEnabled(live) && !AnyEnabled(disk) && file == wrote
      ensures r.Done? && j.activated ==> Handed(j.target, j.snapshot, file, db.leases, m0, t0, now)
    {
      ghost var m, at := db.leases, now;
      r := ApplyConfig(Disabled(j.previous), true);
      if !r.Done? {
        return r;
      }
      if j.activated {
        HandedStill(j.target, j.snapshot, file, m, m0, t0, at, now);
      }
      r := StartLegacy(m0, t0);
    }

    method AbandonAll(j: Journal) returns (r: Outcome, ghost pools: set<string>)
      requires Safe() && up && journal == j && j.phase == RollingBack && j.activated
      modifies `db, `now, `up
      ensures Safe() && (up <==> !r.Crashed?) && !r.Refused? && old(now) <= now
      ensures r.Done? ==> forall k :: AbandonedAt(old(db.leases), db.leases, pools, k, old(now))
    {
      SoundIs(db);
      var delegating := set i | 0 <= i < |j.target.scopes| && j.target.scopes[i].delegable != [] ::
        j.target.scopes[i].id;
      pools := delegating;
      var tx, n := AbandonDelegations(db, delegating, now);
      SoundIs(tx);
      AbandonOwed(j.target, j.snapshot, sameServer, steady, db, tx, pools, now);
      r := CommitLedger(tx);
    }

    // ---- Recovery and boot ------------------------------------------------------------------------------

    /** recoverLegacyHandover: an interrupted or expired takeover, or with force any pending
        one, is rolled back. */
    method Recover(force: bool) returns (r: Outcome, rolledBack: bool)
      requires Safe() && up
      modifies this
      ensures Safe() && (up <==> !r.Crashed?)
      ensures r.Done? ==> (rolledBack <==> journal.phase == RolledBack)
      ensures r.Done? && old(NeedsRecovery(journal, now)) ==> AtRest(journal.phase)
      ensures AtRest(old(journal.phase)) || old(journal.phase) == Confirmed ==> journal == old(journal)
    {
      if (force && journal.phase == Pending) || NeedsRecovery(journal, now) {
        r := Rollback();
      } else {
        r := Done;
      }
      rolledBack := r.Done? && journal.phase == RolledBack;
    }

    /** The watcher: recover, then reload a configuration that changed on disk. */
    method Tick() returns (r: Outcome)
      requires Safe() && up
      modifies this
      ensures Safe() && (up <==> !r.Crashed?)
      ensures AtRest(old(journal.phase)) || old(journal.phase) == Confirmed ==> journal == old(journal)
    {
      Pass();
      var rolledBack;
      r, rolledBack := Recover(false);
      if r.Crashed? {
        return r;
      }
      if * {
        r := ApplyConfig(disk, false);
      }
    }

    /** startAddressbook: recovery comes before anything binds, and a pending takeover whose
        target cannot start is rolled back; one that was confirmed is kept. A boot that
        fails leaves nothing running. */
    method Boot() returns (r: Outcome)
      requires Safe() && !up
      modifies this
      ensures Safe() && (up <==> r.Done?)
      ensures r.Done? ==> live == disk
      ensures AtRest(old(journal.phase)) || old(journal.phase) == Confirmed ==> journal == old(journal)
    {
      up := true;
      live := disk.(scopes := []);
      NoScopes(disk);
      Pass();
      var rolledBack;
      r, rolledBack := Recover(false);
      if !r.Crashed? {
        r := Bind();
      }
    }

    /** Serves what is on disk, or else rolls a pending takeover back and serves that. */
    method Bind() returns (r: Outcome)
      requires Safe() && up
      modifies this
      ensures Safe() && (up <==> r.Done?)
      ensures r.Done? ==> live == disk
      ensures AtRest(old(journal.phase)) || old(journal.phase) == Confirmed ==> journal == old(journal)
    {
      r := ApplyConfig(disk, false);
      var rolledBack;
      if r.Failed? {
        r, rolledBack := Recover(true);
        if r.Done? && rolledBack {
          r := ApplyConfig(disk, false);
        } else if r.Done? {
          r := Failed;
        }
      }
      if !r.Done? {
        up := false;
      }
    }

    // ---- Everything else that happens -----------------------------------------------------------------------

    method Crash()
      requires Safe()
      modifies `up
      ensures Safe() && !up
    {
      up := false;
    }

    /** A reboot: the legacy allocator comes up unless it is masked. */
    method Reboot()
      requires Safe()
      modifies `up, `running
      ensures Safe() && !up && (running ==> !masked)
    {
      up, running := false, false;
      if !masked {
        running := *;
      }
    }

    /** The legacy allocator, while it runs, keeps its lease file; it may also exit. */
    method LegacyServes(text: string, exits: bool)
      requires Safe() && running
      modifies `file, `wrote, `running
      ensures Safe()
    {
      file, wrote, running := text, text, !exits;
    }

    /** One command of the running daemon, under the configuration it serves. */
    method Serve(command: Ledger.Command) returns (r: Outcome)
      requires Safe() && up && Handled(command)
      modifies `db, `up, `now, `sameServer, `steady
      ensures Safe() && (up <==> !r.Crashed?)
      ensures steady == (old(steady) && Faithful(journal.target, live, command))
    {
      var tx := Transact(live, command, db, now, journal.target, journal.snapshot, sameServer, steady);
      Note(sameServer && Keeps(db.serverDuid, tx.serverDuid), steady && Faithful(journal.target, live, command));
      r := CommitLedger(tx);
    }

    /** Less is known from here on of what is owed. */
    ghost method Note(same: bool, still: bool)
      requires Safe()
      requires journal.activated && !AtRest(journal.phase) ==>
                 Owed(journal.target, journal.snapshot, same, still, db, now)
      modifies `sameServer, `steady
      ensures Safe() && sameServer == same && steady == still
    {
      sameServer, steady := same, still;
    }

    /** A configuration change outside a takeover, refused while one is under way. Right
        after it the two allocators are apart exactly if it leaves the scopes off, or the
        journal says activated and the legacy is not running; that they stay so, whatever
        happens, it keeps exactly if a takeover was confirmed or it leaves the scopes off. */
    method Reconfigure(c: Config) returns (r: Outcome)
      requires Safe() && up && Validated(c)
      modifies `disk, `live, `up, `db, `now
      ensures up <==> !r.Crashed?
      ensures r.Done? ==> live == c && disk == c
      ensures r.Done? ==> (OneAllocator() <==> !AnyEnabled(c) || (journal.activated && !running))
      ensures journal.phase == Confirmed || !AnyEnabled(c) ==> Safe()
      ensures r.Done? ==> (Safe() <==> journal.phase == Confirmed || !AnyEnabled(c))
      ensures r.Refused? <==> !AtRest(journal.phase) && journal.phase != Confirmed
      ensures r.Refused? ==> Safe()
    {
      if !AtRest(journal.phase) && journal.phase != Confirmed {
        return Refused;
      }
      r := ApplyConfig(c, true);
    }

    /** One action, skipped when it cannot happen now. */
    method Perform(a: Action)
      requires Safe() && Proper(a)
      modifies this
      ensures Safe()
    {
      var r := Done;
      if up {
        match a
        case TakeOver(target, validated, grace) => r := Begin(target, validated, grace);
        case Verify(verified) => r := Confirm(verified);
        case GiveBack => r := Rollback();
        case Watch => r := Tick();
        case Serving(command) => r := Serve(command);
        case Change(c) =>
          if journal.phase == Confirmed || !AnyEnabled(c) {
            r := Reconfigure(c);
          }
        case _ =>
      } else if a.Start? {
        r := Boot();
      }
      if a.Die? {
        Crash();
      } else if a.Restarts? {
        Reboot();
      } else if a.Legacy? && running {
        LegacyServes(a.text, a.exits);
      }
    }

    /** In every run, whatever happens in whatever order, the legacy allocator never runs
        while ghostd has a scope switched on, and none is on unless the journal says so on
        disk. */
    method Run(actions: seq<Action>)
      requires Safe() && forall i | 0 <= i < |actions| :: Proper(actions[i])
      modifies this
      ensures Safe() && OneAllocator()
    {
      for i := 0 to |actions|
        invariant Safe()
      {
        Perform(actions[i]);
      }
    }
  }

  /** Everything was handed back, of the ledger as it was at some moment since. */
  ghost predicate HandedSince(j: Journal, file: string, m: Bucket, m0: Bucket, since: int, now: int) {
    exists t0 :: since <= t0 <= now && Handed(j.target, j.snapshot, file, m, m0, t0, now)
  }

  lemma NoScopes(c: Config)
    requires Validated(c)
    ensures Validated(c.(scopes := [])) && !AnyEnabled(c.(scopes := []))
  {
    ValidatedIs(c);
    var d := c.(scopes := []);
    forall x | d.parse(x).Some? ensures PlainAddress(x) && CanonicalAddr(d, d.parse(x).value) {
      assert CanonicalAddr(c, c.parse(x).value);
    }
    ValidatedIs(d);
  }
}
