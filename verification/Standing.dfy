/** Facts about a takeover that its machine carries along without looking into them: the
    ledger is in order, the snapshot can be imported again, what is live can be exported.
    Each is stated under a bound variable, so that only the lemma beside it unfolds it. */
module Standing {
  import opened Strings
  import opened Bindings
  import opened Configs
  import opened Database
  import opened LeaseText
  import opened LeaseFile
  import opened Import
  import opened Delegation
  import opened Handback
  import opened Exportability
  import opened Spelling
  import Ledger

  ghost predicate ValidAt(c: Config, n: int) {
    n == 0 ==> ValidConfig(c)
  }

  /** A validated configuration. */
  ghost predicate Validated(c: Config) {
    forall n :: ValidAt(c, n)
  }

  lemma ValidatedIs(c: Config)
    ensures Validated(c) <==> ValidConfig(c)
  {
    if Validated(c) { assert ValidAt(c, 0); }
    if ValidConfig(c) { forall n ensures ValidAt(c, n) {} }
  }

  lemma ValidatedOff(c: Config)
    requires Validated(c)
    ensures Validated(Disabled(c))
  {
    ValidatedIs(c);
    DisabledValid(c);
    ValidatedIs(Disabled(c));
  }

  ghost predicate SoundAt(db: Database, n: int) {
    n == 0 ==> Valid(db) && LowerHex(db.serverDuid) && |db.serverDuid| % 2 == 0
  }

  /** A ledger in order, and a server identity that prints. */
  ghost predicate Sound(db: Database) {
    forall n :: SoundAt(db, n)
  }

  lemma SoundIs(db: Database)
    ensures Sound(db) <==> Valid(db) && LowerHex(db.serverDuid) && |db.serverDuid| % 2 == 0
  {
    if Sound(db) { assert SoundAt(db, 0); }
    if Valid(db) && LowerHex(db.serverDuid) && |db.serverDuid| % 2 == 0 { forall n ensures SoundAt(db, n) {} }
  }

  ghost predicate ParsesAt(c: Config, text: string, n: int) {
    n == 0 ==> ParseText(Disabled(c), text).Some?
  }

  ghost predicate Parses(c: Config, text: string) {
    forall n :: ParsesAt(c, text, n)
  }

  lemma ParsesIs(c: Config, text: string)
    ensures Parses(c, text) <==> ParseText(Disabled(c), text).Some?
  {
    if Parses(c, text) { assert ParsesAt(c, text, 0); }
    if ParseText(Disabled(c), text).Some? { forall n ensures ParsesAt(c, text, n) {} }
  }

  ghost predicate HandedAt(c: Config, snapshot: string, file: string, m: Bucket, m0: Bucket, t0: int, now: int,
                           n: int) {
    n == 0 ==> HandedBack(Disabled(c), snapshot, file, m, m0, t0, now)
  }

  /** Everything is handed back (see HandedBack). */
  ghost predicate Handed(c: Config, snapshot: string, file: string, m: Bucket, m0: Bucket, t0: int, now: int) {
    forall n :: HandedAt(c, snapshot, file, m, m0, t0, now, n)
  }

  lemma HandedIs(c: Config, snapshot: string, file: string, m: Bucket, m0: Bucket, t0: int, now: int)
    ensures Handed(c, snapshot, file, m, m0, t0, now) <==> HandedBack(Disabled(c), snapshot, file, m, m0, t0, now)
  {
    if Handed(c, snapshot, file, m, m0, t0, now) { assert HandedAt(c, snapshot, file, m, m0, t0, now, 0); }
    if HandedBack(Disabled(c), snapshot, file, m, m0, t0, now) {
      forall n ensures HandedAt(c, snapshot, file, m, m0, t0, now, n) {}
    }
  }

  lemma HandedLater(c: Config, snapshot: string, file: string, m: Bucket, m': Bucket, pools: set<string>,
                    m0: Bucket, t0: int, at: int, now: int)
    requires Handed(c, snapshot, file, m, m0, t0, at) && at <= now && forall k :: AbandonedAt(m, m', pools, k, at)
    ensures Handed(c, snapshot, file, m', m0, t0, now)
  {
    HandedIs(c, snapshot, file, m, m0, t0, at);
    HandedBackLater(Disabled(c), snapshot, file, m, m', pools, m0, t0, at, now);
    HandedIs(c, snapshot, file, m', m0, t0, now);
  }

  lemma HandedStill(c: Config, snapshot: string, file: string, m: Bucket, m0: Bucket, t0: int, at: int, now: int)
    requires Handed(c, snapshot, file, m, m0, t0, at) && at <= now
    ensures Handed(c, snapshot, file, m, m0, t0, now)
  {
    forall k ensures AbandonedAt(m, m, {}, k, at) {
    }
    HandedLater(c, snapshot, file, m, m, {}, m0, t0, at, now);
  }

  /** The ledger after the snapshot's missing leases were imported, exported as a file. */
  lemma ExportedBack(c: Config, db0: Database, snapshot: string, t0: int, tx: Database, bs: seq<Binding>, at: int)
    requires Validated(Disabled(c)) && Sound(db0) && Sound(tx) && 0 <= t0 <= at
    requires ParseText(Disabled(c), snapshot).Some?
    requires var doc := ParseText(Disabled(c), snapshot).value;
             Imports(Disabled(c), db0, doc.(leases := Unheld(doc.leases, db0.leases, t0)), t0) == Some(tx.leases)
    requires Lists(bs, tx.leases, at) && ExportText(Disabled(c), tx.serverDuid, bs).Some?
    ensures Handed(c, snapshot, ExportText(Disabled(c), tx.serverDuid, bs).value, tx.leases, db0.leases, t0, at)
  {
    ValidatedIs(Disabled(c));
    SoundIs(db0);
    SoundIs(tx);
    ReimportHandsBack(Disabled(c), db0, snapshot, t0, tx.serverDuid, tx.leases, bs, at);
    HandedIs(c, snapshot, ExportText(Disabled(c), tx.serverDuid, bs).value, tx.leases, db0.leases, t0, at);
  }

  // ---- The snapshot was imported, and can be again ------------------------------------------------

  /** The snapshot's leases were once imported, and left this server identity. */
  ghost predicate TakenBy(c: Config, text: string, db0: Database, t0: int, duid: string, now: int) {
    var doc := ParseText(Disabled(c), text);
    && doc.Some? && Keyed(db0.leases) && 0 <= t0 <= now
    && Imports(Disabled(c), db0, doc.value, t0).Some? && SameServer(db0, doc.value, duid)
  }

  ghost predicate TakenAt(c: Config, text: string, duid: string, now: int, n: int) {
    n == 0 ==> exists db0, t0 :: TakenBy(c, text, db0, t0, duid, now)
  }

  ghost predicate Taken(c: Config, text: string, duid: string, now: int) {
    forall n :: TakenAt(c, text, duid, now, n)
  }

  lemma TakenIs(c: Config, text: string, db0: Database, t0: int, duid: string, now: int)
    requires TakenBy(c, text, db0, t0, duid, now)
    ensures Taken(c, text, duid, now)
  {
    forall n ensures TakenAt(c, text, duid, now, n) {
    }
  }

  /** A server identity, once there is one, stays. */
  predicate Keeps(duid: string, duid': string) {
    duid == "" || duid' == duid
  }

  lemma TakenLater(c: Config, text: string, duid: string, now: int, duid': string, later: int)
    requires Taken(c, text, duid, now) && Keeps(duid, duid') && now <= later
    ensures Taken(c, text, duid', later)
  {
    assert TakenAt(c, text, duid, now, 0);
    var db0, t0 :| TakenBy(c, text, db0, t0, duid, now);
    TakenIs(c, text, db0, t0, duid', later);
  }

  lemma ImportTakes(c: Config, text: string, db0: Database, tx: Database, now: int)
    requires Sound(db0) && 0 <= now && ParseText(Disabled(c), text).Some?
    requires var doc := ParseText(Disabled(c), text).value;
             && Imports(Disabled(c), db0, doc, now).Some?
             && tx.serverDuid == if doc.serverDuid != "" then Lower(Strip(doc.serverDuid)) else db0.serverDuid
    ensures Taken(c, text, tx.serverDuid, now)
  {
    SoundIs(db0);
    TakenIs(c, text, db0, now, tx.serverDuid, now);
  }

  // ---- What is live can be exported ----------------------------------------------------------------

  ghost predicate SettledAt(c: Config, now: int, n: int) {
    n == 0 ==> Located(Disabled(c)) && Roomy(Disabled(c), now)
  }

  /** The configuration's addresses are in their scopes, and its ends fit the lease file. */
  ghost predicate Settled(c: Config, now: int) {
    forall n :: SettledAt(c, now, n)
  }

  lemma SettledIs(c: Config, now: int)
    ensures Settled(c, now) <==> Located(Disabled(c)) && Roomy(Disabled(c), now)
  {
    if Settled(c, now) { assert SettledAt(c, now, 0); }
    if Located(Disabled(c)) && Roomy(Disabled(c), now) { forall n ensures SettledAt(c, now, n) {} }
  }

  lemma SettledBefore(c: Config, at: int, now: int)
    requires Settled(c, now) && 0 <= at <= now
    ensures Settled(c, at)
  {
    SettledIs(c, now);
    SettledIs(c, at);
  }

  ghost predicate ReadyAt(c: Config, m: Bucket, now: int, n: int) {
    n == 0 ==> (Settled(c, now) ==> AllExportable(Exporter(Disabled(c)), m, now))
  }

  /** In a settled configuration, everything live can be exported. */
  ghost predicate Ready(c: Config, m: Bucket, now: int) {
    forall n :: ReadyAt(c, m, now, n)
  }

  lemma ReadyIs(c: Config, m: Bucket, now: int)
    ensures Ready(c, m, now) <==> (Settled(c, now) ==> AllExportable(Exporter(Disabled(c)), m, now))
  {
    if Ready(c, m, now) { assert ReadyAt(c, m, now, 0); }
    if Settled(c, now) ==> AllExportable(Exporter(Disabled(c)), m, now) { forall n ensures ReadyAt(c, m, now, n) {} }
  }

  lemma ReadyLater(c: Config, m: Bucket, at: int, now: int)
    requires Ready(c, m, at) && 0 <= at <= now
    ensures Ready(c, m, now)
  {
    ReadyIs(c, m, at);
    ReadyIs(c, m, now);
    if Settled(c, now) {
      SettledBefore(c, at, now);
      ExportableLater(Exporter(Disabled(c)), m, at, now);
    }
  }

  /** An import of leases of the snapshot leaves everything live exportable. */
  lemma ReadyImport(c: Config, text: string, db: Database, doc: Document, m: Bucket, now: int)
    requires Validated(Disabled(c)) && Sound(db) && 0 <= now && ParseText(Disabled(c), text).Some?
    requires forall l <- doc.leases :: l in ParseText(Disabled(c), text).value.leases
    requires Imports(Disabled(c), db, doc, now) == Some(m) && Ready(c, db.leases, now)
    ensures Ready(c, m, now)
  {
    ReadyIs(c, db.leases, now);
    ReadyIs(c, m, now);
    if Settled(c, now) {
      ValidatedIs(Disabled(c));
      SoundIs(db);
      TextParsed(Disabled(c), text);
      ImportHolds(Disabled(c), db, doc, now);
      AddsKeeps(Exporter(Disabled(c)), db.leases, m, now);
    }
  }

  lemma ReadyAbandon(c: Config, m: Bucket, m': Bucket, pools: set<string>, now: int)
    requires Ready(c, m, now) && forall k :: AbandonedAt(m, m', pools, k, now)
    ensures Ready(c, m', now)
  {
    ReadyIs(c, m, now);
    ReadyIs(c, m', now);
    if Settled(c, now) { AbandonExportable(Disabled(c), m, m', pools, now); }
  }

  // ---- Both, as far as they are known to hold ----------------------------------------------------

  ghost predicate OwedAt(c: Config, text: string, same: bool, steady: bool, db: Database, now: int, n: int) {
    n == 0 ==> (same ==> Taken(c, text, db.serverDuid, now)) && (steady ==> Ready(c, db.leases, now))
  }

  /** With the same server identity the snapshot can be imported again, and with everything
      in order what is live can be exported. */
  ghost predicate Owed(c: Config, text: string, same: bool, steady: bool, db: Database, now: int) {
    forall n :: OwedAt(c, text, same, steady, db, now, n)
  }

  lemma OwedIs(c: Config, text: string, same: bool, steady: bool, db: Database, now: int)
    ensures Owed(c, text, same, steady, db, now) <==>
              (same ==> Taken(c, text, db.serverDuid, now)) && (steady ==> Ready(c, db.leases, now))
  {
    if Owed(c, text, same, steady, db, now) { assert OwedAt(c, text, same, steady, db, now, 0); }
    if (same ==> Taken(c, text, db.serverDuid, now)) && (steady ==> Ready(c, db.leases, now)) {
      forall n ensures OwedAt(c, text, same, steady, db, now, n) {}
    }
  }

  lemma OwedLater(c: Config, text: string, same: bool, steady: bool, db: Database, at: int, tx: Database, now: int)
    requires Owed(c, text, same, steady, db, at) && 0 <= at <= now
    requires tx.leases == db.leases && tx.serverDuid == db.serverDuid
    ensures Owed(c, text, same, steady, tx, now)
  {
    OwedIs(c, text, same, steady, db, at);
    OwedIs(c, text, same, steady, tx, now);
    if same { TakenLater(c, text, db.serverDuid, at, tx.serverDuid, now); }
    if steady { ReadyLater(c, db.leases, at, now); }
  }

  /** The snapshot was imported: from here on both are known. */
  lemma SnapshotOwed(c: Config, text: string, steady: bool, db: Database, tx: Database, now: int)
    requires Validated(Disabled(c)) && Sound(db) && 0 <= now && ParseText(Disabled(c), text).Some?
    requires var doc := ParseText(Disabled(c), text).value;
             && Imports(Disabled(c), db, doc, now) == Some(tx.leases)
             && tx.serverDuid == if doc.serverDuid != "" then Lower(Strip(doc.serverDuid)) else db.serverDuid
    requires steady ==> Ready(c, db.leases, now)
    ensures Owed(c, text, true, steady, tx, now)
  {
    ImportTakes(c, text, db, tx, now);
    if steady { ReadyImport(c, text, db, ParseText(Disabled(c), text).value, tx.leases, now); }
    OwedIs(c, text, true, steady, tx, now);
  }

  /** What the rollback imports again: the snapshot's leases that nobody holds. */
  function Missing(c: Config, text: string, db: Database, now: int): Option<Document> {
    var doc := ParseText(Disabled(c), text);
    if doc.None? then None else Some(doc.value.(leases := Unheld(doc.value.leases, db.leases, now)))
  }

  /** It is accepted, and leaves the server identity. */
  lemma TakenAgain(c: Config, text: string, same: bool, steady: bool, db: Database, now: int)
    requires Validated(Disabled(c)) && Owed(c, text, same, steady, db, now) && same
    ensures var again := Missing(c, text, db, now);
            && again.Some? && Imports(Disabled(c), db, again.value, now).Some?
            && (again.value.serverDuid != "" ==> db.serverDuid == Lower(Strip(again.value.serverDuid)))
  {
    OwedIs(c, text, same, steady, db, now);
    assert TakenAt(c, text, db.serverDuid, now, 0);
    var db0, t0 :| TakenBy(c, text, db0, t0, db.serverDuid, now);
    ValidatedIs(Disabled(c));
    TextParsed(Disabled(c), text);
    ReimportAccepted(Disabled(c), db0, t0, ParseText(Disabled(c), text).value, db, now);
  }

  lemma MissingOwed(c: Config, text: string, same: bool, steady: bool, db: Database, tx: Database, now: int)
    requires Validated(Disabled(c)) && Sound(db) && 0 <= now && Owed(c, text, same, steady, db, now)
    requires Missing(c, text, db, now).Some?
    requires var doc := Missing(c, text, db, now).value;
             && Imports(Disabled(c), db, doc, now) == Some(tx.leases)
             && tx.serverDuid == if doc.serverDuid != "" then Lower(Strip(doc.serverDuid)) else db.serverDuid
    ensures Owed(c, text, same, steady, tx, now)
  {
    OwedIs(c, text, same, steady, db, now);
    OwedIs(c, text, same, steady, tx, now);
    if same { TakenAgain(c, text, same, steady, db, now); }
    if steady { ReadyImport(c, text, db, Missing(c, text, db, now).value, tx.leases, now); }
  }

  lemma AbandonOwed(c: Config, text: string, same: bool, steady: bool, db: Database, tx: Database, pools: set<string>,
                  now: int)
    requires Owed(c, text, same, steady, db, now) && tx.serverDuid == db.serverDuid
    requires forall k :: AbandonedAt(db.leases, tx.leases, pools, k, now)
    ensures Owed(c, text, same, steady, tx, now)
  {
    OwedIs(c, text, same, steady, db, now);
    OwedIs(c, text, same, steady, tx, now);
    if steady { ReadyAbandon(c, db.leases, tx.leases, pools, now); }
  }

  /** A ledger that is ready is printed. */
  lemma ReadyPrints(c: Config, text: string, same: bool, steady: bool, tx: Database, bs: seq<Binding>, now: int)
    requires Validated(Disabled(c)) && Sound(tx) && Owed(c, text, same, steady, tx, now) && steady
    requires Settled(c, now) && Lists(bs, tx.leases, now)
    ensures ExportText(Disabled(c), tx.serverDuid, bs).Some?
  {
    OwedIs(c, text, same, steady, tx, now);
    ValidatedIs(Disabled(c));
    SoundIs(tx);
    ReadyIs(c, tx.leases, now);
    ExportReadable(Disabled(c), tx.leases, tx.serverDuid, bs, now);
  }

  /** What is handed back of a ledger that was ready can be read. */
  lemma ReadyReadable(c: Config, text: string, same: bool, file: string, m: Bucket, db0: Database, t0: int, now: int)
    requires Handed(c, text, file, m, db0.leases, t0, now) && Owed(c, text, same, true, db0, t0)
    requires Settled(c, now) && 0 <= t0 <= now
    ensures Parses(c, file)
  {
    OwedIs(c, text, same, true, db0, t0);
    HandedIs(c, text, file, m, db0.leases, t0, now);
    SettledBefore(c, t0, now);
    ReadyIs(c, db0.leases, t0);
    ParsesIs(c, file);
  }

  // ---- The daemon's own transactions --------------------------------------------------------------

  ghost predicate HandledAt(command: Ledger.Command, n: int) {
    n == 0 ==> Ledger.Handled(command)
  }

  /** What the handlers guarantee of a command. */
  ghost predicate Handled(command: Ledger.Command) {
    forall n :: HandledAt(command, n)
  }

  ghost predicate FaithfulAt(target: Config, c: Config, command: Ledger.Command, n: int) {
    n == 0 ==> Ledger.Faithful(Ledger.Step(c, command), Disabled(target))
  }

  /** A command of real clients, under the target whatever of it is switched on. */
  ghost predicate Faithful(target: Config, c: Config, command: Ledger.Command) {
    forall n :: FaithfulAt(target, c, command, n)
  }

  /** One command of the daemon, on a copy of the ledger. */
  method Transact(c: Config, command: Ledger.Command, db: Database, now: int, ghost target: Config, ghost text: string,
                  ghost same: bool, ghost steady: bool)
    returns (tx: Database)
    requires Validated(c) && Handled(command) && Sound(db) && 0 <= now && LastTime(db.events) <= now
    ensures Sound(tx)
    ensures Owed(target, text, same, steady, db, now) ==>
              var same', steady' := same && Keeps(db.serverDuid, tx.serverDuid), steady && Faithful(target, c, command);
              Owed(target, text, same', steady', db, now) && Owed(target, text, same', steady', tx, now)
  {
    tx := TransactSoundly(c, command, db, now, target);
    if Owed(target, text, same, steady, db, now) {
      var same', steady' := same && Keeps(db.serverDuid, tx.serverDuid), steady && Faithful(target, c, command);
      OwedIs(target, text, same, steady, db, now);
      OwedIs(target, text, same', steady', db, now);
      OwedIs(target, text, same', steady', tx, now);
      if same' { TakenLater(target, text, db.serverDuid, now, tx.serverDuid, now); }
    }
  }

  method TransactSoundly(c: Config, command: Ledger.Command, db: Database, now: int, ghost target: Config)
    returns (tx: Database)
    requires Validated(c) && Handled(command) && Sound(db) && 0 <= now && LastTime(db.events) <= now
    ensures Sound(tx)
    ensures Faithful(target, c, command) && Ready(target, db.leases, now) ==> Ready(target, tx.leases, now)
  {
    var s := Ledger.Step(c, command);
    ValidatedIs(c);
    SoundIs(db);
    assert HandledAt(command, 0);
    tx := Ledger.Transact(s, db, now);
    SoundIs(tx);
    if Faithful(target, c, command) && Ready(target, db.leases, now) {
      assert FaithfulAt(target, c, command, 0);
      StepReady(s, db, tx, now, target);
    }
  }

  lemma StepReady(s: Ledger.Step, db: Database, tx: Database, now: int, target: Config)
    requires Valid(db) && Valid(tx) && 0 <= now && Ledger.Proper(s) && Ledger.Effect(s, db, tx, now)
    requires Ledger.Faithful(s, Disabled(target)) && Ready(target, db.leases, now)
    ensures Ready(target, tx.leases, now)
  {
    Ledger.StepStaysExportable(s, db, tx, now, now, Disabled(target));
    SettledIs(target, now);
    ReadyIs(target, db.leases, now);
    ReadyIs(target, tx.leases, now);
  }
}
