/** The store: one ledger behind a clock that never runs backwards, every operation one
    transaction that commits or does not (internal/addressbook/store.go). */
module Ledger {
  import opened Strings
  import opened Bindings
  import opened Configs
  import opened Database
  import opened LeaseFile
  import opened Allocation
  import opened Delegation
  import opened Sweep
  import opened Import
  import opened Identity
  import opened LeaseText
  import opened Handback
  import opened Exportability
  import opened Prefixes
  import opened Spelling

  datatype Command =
    | Lease(scope: string, request: Request)
    | GiveUp(scope: string, client: string, ip: string, decline: bool)
    | Delegate(scope: string, ask: Ask)
    | GiveBack(scope: string, client: string)
    | Sweep
    | Take(doc: Document)
    | Hear(node: Node, sightings: Sightings)
    | Fix(changes: seq<Change>)
    | Abandon(pools: set<string>)
    | Identify(duid: string)

  /** A step of a run: a command under the configuration of that moment. */
  datatype Step = Step(config: Config, command: Command)

  /** What the handlers guarantee of a command: identities are validated, what is declined
      is a host address, and a generated server identity is a UUID. */
  ghost predicate Handled(command: Command) {
    match command
    case GiveUp(scope, _, ip, decline) => Label(scope) && (decline ==> Free('/', ip))
    case Delegate(_, ask) => ValidClient(ask.client) && Free('\0', ask.duid)
    case GiveBack(_, client) => ValidClient(client)
    case Hear(_, sightings) => Filed(sightings)
    case Identify(duid) => LowerHex(duid) && |duid| == 36 && duid[..4] == "0004"
    case _ => true
  }

  /** What a client asks for; the rest is done by the daemon and the operator. */
  predicate FromClient(command: Command) {
    command.Lease? || command.GiveUp? || command.Delegate? || command.GiveBack?
  }

  ghost predicate Proper(s: Step) {
    ValidConfig(s.config) && Handled(s.command)
  }

  /** The server identity after a command: an import brings one, and one is generated when
      it is asked for and there is none. */
  function ServerAfter(s: Step, db: Database, now: int): string {
    match s.command
    case Take(doc) =>
      if Imports(s.config, db, doc, now).Some? && doc.serverDuid != "" then Lower(Strip(doc.serverDuid))
      else db.serverDuid
    case Identify(duid) => if db.serverDuid == "" then duid else db.serverDuid
    case _ => db.serverDuid
  }

  /** What a command does to the bindings. */
  ghost predicate Effect(s: Step, db: Database, tx: Database, now: int) {
    var c, m, m' := s.config, db.leases, tx.leases;
    match s.command
    case Lease(scope, q) =>
      var r := Answer(c, m, db.associations, scope, q, now);
      m' == if r.Written? then m[KeyOf(r.binding) := r.binding] else m
    case GiveUp(scope, client, ip, decline) =>
      var b := Read(m, scope, ip);
      m' == if Releasable(b, client, now) then m[KeyOf(Ended(b, decline, now)) := Ended(b, decline, now)] else m
    case Delegate(scope, ask) =>
      var found := FindScope(c.scopes, scope);
      if found.None? then m' == m
      else var r := PrefixOutcomes(c, m, found.value, ask, now);
           m' == if r.Delegates? then m[KeyOf(r.binding) := r.binding] else m
    case GiveBack(scope, client) =>
      var found := FindScope(c.scopes, scope);
      if found.None? || Holdings(m, found.value, client, now) == {} then m' == m
      else
        var b := GivenBack(m, found.value, client, now);
        m' == m[KeyOf(b) := b] && Holdings(m', found.value, client, now) == {}
    case Sweep => SweptFrom(m, m', now)
    case Take(doc) =>
      var r := Imports(c, db, doc, now);
      m' == (if r.Some? then r.value else m) && NoNewDelegations(m, m')
    case Hear(node, sightings) => OwnersKept(m, m', now) && NoNewDelegations(m, m')
    case Fix(changes) =>
      var r := RepairAll(Checker(c, now), m, changes);
      m' == (if 1 <= |changes| <= 256 && r.Some? then r.value else m) && OwnersKept(m, m', now)
      && NoNewDelegations(m, m')
    case Abandon(pools) => forall k :: AbandonedAt(m, m', pools, k, now)
    case Identify(_) => m' == m
  }

  /** No address has two holders at once, anywhere in a log: while the interval an event
      opened is running, the next event on that address is of the same client and the
      address is not quarantined. */
  ghost predicate NoOverlap(events: seq<Event>) {
    forall i: nat, j: nat, k | Next(events, i, j, k) && Held(events[i].binding.value, events[j].time) ::
      events[j].binding.value.client == events[i].binding.value.client && events[i].binding.value.state != Declined
  }

  lemma ValidNoOverlap(db: Database)
    requires Valid(db)
    ensures NoOverlap(db.events)
  {
    forall i: nat, j: nat, k | Next(db.events, i, j, k) && Held(db.events[i].binding.value, db.events[j].time)
      ensures db.events[j].binding.value.client == db.events[i].binding.value.client
              && db.events[i].binding.value.state != Declined
    {
      IntervalsNeverOverlap(db.events, i, j, k);
    }
  }

  // ---- Delegations under a fixed pool ---------------------------------------------------------

  /** The step's configuration has the scope's delegable prefixes as they are, or not the
      scope at all. */
  predicate PoolFixed(c: Config, s: Scope) {
    var found := FindScope(c.scopes, s.id);
    found.None? || found.value.delegable == s.delegable
  }

  lemma SamePool(m: Bucket, s: Scope, s': Scope, now: int)
    requires FromPool(m, s, now) && s.id == s'.id && s.delegable == s'.delegable
    ensures FromPool(m, s', now)
  {
    forall k ensures FromPoolAt(m, s', k, now) {
      assert FromPoolAt(m, s, k, now);
    }
  }

  lemma OldStaysInPool(m: Bucket, m': Bucket, s: Scope, now: int, later: int)
    requires FromPool(m, s, now) && NoNewDelegations(m, m') && now <= later
    ensures FromPool(m', s, later)
  {
    forall k ensures FromPoolAt(m', s, k, later) {
      assert FromPoolAt(m, s, k, now) && OldDelegationAt(m, m', k);
    }
  }

  /** No other command makes a delegation. */
  lemma OnlyDelegateDelegates(s: Step, db: Database, tx: Database, now: int)
    requires Keyed(db.leases) && Proper(s) && Effect(s, db, tx, now) && !s.command.Delegate?
    ensures NoNewDelegations(db.leases, tx.leases)
  {
    if FromClient(s.command) {
      ClientsDelegateNone(s, db, tx, now);
    } else {
      OthersDelegateNone(s, db, tx, now);
    }
  }

  lemma ClientsDelegateNone(s: Step, db: Database, tx: Database, now: int)
    requires Keyed(db.leases) && Proper(s) && Effect(s, db, tx, now) && FromClient(s.command) && !s.command.Delegate?
    ensures NoNewDelegations(db.leases, tx.leases)
  {
    var c, m := s.config, db.leases;
    forall k ensures OldDelegationAt(m, m, k) {
    }
    match s.command
    case Lease(scope, q) =>
      var found := FindScope(c.scopes, scope);
      if found.Some? && Asked(found.value, q).Some? {
        LeaseNoDelegation(c, m, db.associations, found.value, Asked(found.value, q).value, now);
      }
    case GiveUp(scope, client, ip, decline) => GiveUpNoDelegation(m, scope, client, ip, decline, now);
    case GiveBack(scope, client) =>
      var found := FindScope(c.scopes, scope);
      if found.Some? && Holdings(m, found.value, client, now) != {} {
        WriteNoDelegation(m, GivenBack(m, found.value, client, now));
      }
  }

  lemma OthersDelegateNone(s: Step, db: Database, tx: Database, now: int)
    requires Effect(s, db, tx, now) && !FromClient(s.command)
    ensures NoNewDelegations(db.leases, tx.leases)
  {
    var m, m' := db.leases, tx.leases;
    forall k ensures OldDelegationAt(m, m, k) {
    }
    match s.command
    case Sweep => SweepNoDelegation(m, m', now);
    case Abandon(pools) => AbandonNoDelegation(m, m', pools, now);
    case _ =>
  }

  lemma SweepNoDelegation(m: Bucket, m': Bucket, now: int)
    requires SweptFrom(m, m', now)
    ensures NoNewDelegations(m, m')
  {
    forall k ensures OldDelegationAt(m, m', k) {
      assert SweptAt(m, m', k, now);
    }
  }

  lemma AbandonNoDelegation(m: Bucket, m': Bucket, pools: set<string>, now: int)
    requires forall k :: AbandonedAt(m, m', pools, k, now)
    ensures NoNewDelegations(m, m')
  {
    forall k ensures OldDelegationAt(m, m', k) {
      assert AbandonedAt(m, m', pools, k, now);
    }
  }

  lemma LeaseNoDelegation(c: Config, m: Bucket, a: map<string, Association>, s: Scope, q: Request, now: int)
    ensures var r := Outcomes(c, m, a, s, q, now); r.Written? ==> NoNewDelegations(m, m[KeyOf(r.binding) := r.binding])
  {
    var r := Outcomes(c, m, a, s, q, now);
    if r.Written? {
      var ip := Choice(m, s, q, now).value;
      GrantedFor(c, a, s, q, Read(m, s.id, ip), ip, now);
      WriteNoDelegation(m, r.binding);
    }
  }

  lemma GiveUpNoDelegation(m: Bucket, scope: string, client: string, ip: string, decline: bool, now: int)
    requires Keyed(m) && Free('/', scope) && (decline ==> Free('/', ip))
    ensures var b := Read(m, scope, ip);
            Releasable(b, client, now) ==>
              NoNewDelegations(m, m[KeyOf(Ended(b, decline, now)) := Ended(b, decline, now)])
  {
    var b := Read(m, scope, ip);
    if Releasable(b, client, now) {
      ReadKeyed(m, scope, ip);
      KeyInjective(b.scope, b.address, scope, ip);
      WriteNoDelegation(m, Ended(b, decline, now));
    }
  }

  /** A delegation comes from the pool of its scope. */
  lemma DelegateStaysInPool(st: Step, db: Database, tx: Database, now: int, s: Scope)
    requires Keyed(db.leases) && Proper(st) && Effect(st, db, tx, now) && st.command.Delegate?
    requires FromPool(db.leases, s, now) && PoolFixed(st.config, s)
    ensures FromPool(tx.leases, s, now)
  {
    var found, m := FindScope(st.config.scopes, st.command.scope), db.leases;
    if found.Some? {
      var r := PrefixOutcomes(st.config, m, found.value, st.command.ask, now);
      if r.Delegates? {
        RecordPlaced(st.config, m, found.value, st.command.ask, now);
        if found.value.id == s.id {
          SamePool(m, s, found.value, now);
          AllocationStaysInPool(m, found.value, st.command.ask, now, r.binding);
          SamePool(tx.leases, found.value, s, now);
        } else {
          forall k ensures FromPoolAt(tx.leases, s, k, now) {
            assert FromPoolAt(m, s, k, now);
          }
        }
      }
    }
  }

  lemma RecordPlaced(c: Config, m: Bucket, s: Scope, a: Ask, now: int)
    ensures var r := PrefixOutcomes(c, m, s, a, now);
            r.Delegates? ==> r.binding.scope == s.id && ChosenPrefix(m, s, a, now) == Some(r.binding.address)
  {
  }

  lemma StepStaysInPool(s: Step, db: Database, tx: Database, now: int, later: int, pool: Scope)
    requires Valid(db) && Proper(s) && (tx == db || Effect(s, db, tx, now)) && now <= later
    requires PoolFixed(s.config, pool) && FromPool(db.leases, pool, now)
    ensures FromPool(tx.leases, pool, later)
  {
    var m, m' := db.leases, tx.leases;
    forall k ensures OldDelegationAt(m, m, k) && OldDelegationAt(m', m', k) {
    }
    if tx == db {
      OldStaysInPool(m, m, pool, now, later);
    } else if s.command.Delegate? {
      DelegateStaysInPool(s, db, tx, now, pool);
      OldStaysInPool(m', m', pool, now, later);
    } else {
      OnlyDelegateDelegates(s, db, tx, now);
      OldStaysInPool(m, m', pool, now, later);
    }
  }

  // ---- What can be exported -------------------------------------------------------------------

  /** A step by real clients; addresses are asked for and imported as canonically spelled. */
  ghost predicate Plain(st: Step) {
    match st.command
    case Lease(scope, q) =>
      var found := FindScope(st.config.scopes, scope);
      found.Some? && Asked(found.value, q).Some? && Serves(found.value, Asked(found.value, q).value) ==>
        Genuine(st.config, found.value, Asked(found.value, q).value) && AsksSpelled(st.config, q)
    case Take(doc) => forall l <- doc.leases :: Printable(st.config, l)
    case _ => true
  }

  /** A plain step under configuration c, whatever of it is switched on. */
  ghost predicate Faithful(st: Step, c: Config) {
    Alike(st.config, c) && Plain(st)
  }

  /** Every operation leaves live bindings that can be exported. */
  lemma StepKeepsExportable(st: Step, db: Database, tx: Database, now: int)
    requires Valid(db) && Valid(tx) && Proper(st) && Plain(st) && Effect(st, db, tx, now)
    requires Located(st.config) && Roomy(st.config, now) && AllExportable(Exporter(st.config), db.leases, now)
    ensures AllExportable(Exporter(st.config), tx.leases, now)
  {
    if FromClient(st.command) {
      ClientKeepsExportable(st, db, tx, now);
    } else {
      OthersKeepExportable(st, db, tx, now);
    }
  }

  lemma ClientKeepsExportable(st: Step, db: Database, tx: Database, now: int)
    requires Valid(db) && Valid(tx) && Proper(st) && Plain(st) && Effect(st, db, tx, now) && FromClient(st.command)
    requires Located(st.config) && Roomy(st.config, now) && AllExportable(Exporter(st.config), db.leases, now)
    ensures AllExportable(Exporter(st.config), tx.leases, now)
  {
    var c, m := st.config, db.leases;
    match st.command
    case Lease(scope, q) =>
      var found := FindScope(c.scopes, scope);
      if found.Some? && Asked(found.value, q).Some? && Serves(found.value, Asked(found.value, q).value) {
        AllocateExportable(c, m, db.associations, found.value, Asked(found.value, q).value, now);
      }
    case GiveUp(scope, client, ip, decline) =>
      if Releasable(Read(m, scope, ip), client, now) { ReleaseExportable(c, m, scope, client, ip, decline, now); }
    case Delegate(scope, ask) =>
      var found := FindScope(c.scopes, scope);
      if found.Some? { DelegateExportable(c, m, found.value, ask, now); }
    case GiveBack(scope, client) =>
      var found := FindScope(c.scopes, scope);
      if found.Some? && Holdings(m, found.value, client, now) != {} {
        WriteExportable(c, m, GivenBack(m, found.value, client, now), now);
      }
  }

  lemma OthersKeepExportable(st: Step, db: Database, tx: Database, now: int)
    requires Valid(db) && Valid(tx) && Proper(st) && Plain(st) && Effect(st, db, tx, now) && !FromClient(st.command)
    requires Roomy(st.config, now) && AllExportable(Exporter(st.config), db.leases, now)
    ensures AllExportable(Exporter(st.config), tx.leases, now)
  {
    var c, m, m' := st.config, db.leases, tx.leases;
    match st.command
    case Sweep => SweepExportable(c, m, m', now);
    case Take(doc) =>
      ImportHolds(c, db, doc, now);
      if Imports(c, db, doc, now).Some? { AddsKeeps(Exporter(c), m, m', now); }
    case Hear(_, _) => AttributionExportable(c, m, m', now);
    case Fix(_) => AttributionExportable(c, m, m', now);
    case Abandon(pools) => AbandonExportable(c, m, m', pools, now);
    case Identify(_) =>
  }

  lemma DelegateExportable(c: Config, m: Bucket, s: Scope, a: Ask, now: int)
    requires AllExportable(Exporter(c), m, now)
    ensures var r := PrefixOutcomes(c, m, s, a, now);
            r.Delegates? ==> AllExportable(Exporter(c), m[KeyOf(r.binding) := r.binding], now)
  {
    var r := PrefixOutcomes(c, m, s, a, now);
    if r.Delegates? {
      assert !Exported(r.binding);
      WriteExportable(c, m, r.binding, now);
    }
  }

  // ---- Addresses as numbers --------------------------------------------------------------------

  /** Every address text of the step is the canonical one: reservations, requests, imports. */
  ghost predicate CanonicalTexts(st: Step) {
    && Located(st.config)
    && match st.command
       case Lease(_, q) => AsksSpelled(st.config, q)
       case Take(doc) => forall l <- doc.leases :: LeaseSpelled(st.config, l)
       case _ => true
  }

  /** Then what is held stays canonically spelled. */
  lemma StepKeepsSpelled(st: Step, db: Database, tx: Database, now: int)
    requires Valid(db) && Valid(tx) && Proper(st) && CanonicalTexts(st) && Effect(st, db, tx, now)
    requires AllSpelled(st.config, db.leases, now)
    ensures AllSpelled(st.config, tx.leases, now)
  {
    if FromClient(st.command) {
      ClientKeepsSpelled(st, db, tx, now);
    } else {
      OthersKeepSpelled(st, db, tx, now);
    }
  }

  lemma ClientKeepsSpelled(st: Step, db: Database, tx: Database, now: int)
    requires Valid(db) && Proper(st) && CanonicalTexts(st) && Effect(st, db, tx, now) && FromClient(st.command)
    requires AllSpelled(st.config, db.leases, now)
    ensures AllSpelled(st.config, tx.leases, now)
  {
    var c, m := st.config, db.leases;
    match st.command
    case Lease(scope, q) =>
      var found := FindScope(c.scopes, scope);
      if found.Some? && Asked(found.value, q).Some? && Serves(found.value, Asked(found.value, q).value) {
        AllocateSpelled(c, m, db.associations, found.value, Asked(found.value, q).value, now);
      }
    case GiveUp(scope, client, ip, decline) =>
      if Releasable(Read(m, scope, ip), client, now) { ReleaseSpelled(c, m, scope, client, ip, decline, now); }
    case Delegate(scope, ask) =>
      var found := FindScope(c.scopes, scope);
      if found.Some? { DelegateSpelled(c, m, found.value, ask, now); }
    case GiveBack(scope, client) =>
      var found := FindScope(c.scopes, scope);
      if found.Some? && Holdings(m, found.value, client, now) != {} {
        WriteSpelled(c, m, GivenBack(m, found.value, client, now), now);
      }
  }

  lemma DelegateSpelled(c: Config, m: Bucket, s: Scope, a: Ask, now: int)
    requires AllSpelled(c, m, now)
    ensures var r := PrefixOutcomes(c, m, s, a, now);
            r.Delegates? ==> AllSpelled(c, m[KeyOf(r.binding) := r.binding], now)
  {
    var r := PrefixOutcomes(c, m, s, a, now);
    if r.Delegates? {
      assert !Exported(r.binding);
      WriteSpelled(c, m, r.binding, now);
    }
  }

  lemma OthersKeepSpelled(st: Step, db: Database, tx: Database, now: int)
    requires Valid(db) && Valid(tx) && Proper(st) && CanonicalTexts(st) && Effect(st, db, tx, now)
    requires !FromClient(st.command)
    requires AllSpelled(st.config, db.leases, now)
    ensures AllSpelled(st.config, tx.leases, now)
  {
    var c, m, m' := st.config, db.leases, tx.leases;
    match st.command
    case Sweep => SweepSpelled(c, m, m', now);
    case Take(doc) => ImportSpelled(c, db, doc, now);
    case Hear(_, _) => AttributionSpelled(c, m, m', now);
    case Fix(_) => AttributionSpelled(c, m, m', now);
    case Abandon(pools) => AbandonSpelled(c, m, m', pools, now);
    case Identify(_) =>
  }

  // ---- What a step keeps ----------------------------------------------------------------------

  ghost predicate PoolKept(pool: Scope, m: Bucket, now: int, m': Bucket, later: int) {
    FromPool(m, pool, now) ==> FromPool(m', pool, later)
  }

  ghost predicate StaysExportable(c: Config, m: Bucket, now: int, m': Bucket, later: int) {
    Located(c) && Roomy(c, later) && AllExportable(Exporter(c), m, now) ==> AllExportable(Exporter(c), m', later)
  }

  lemma StaysExportableOn(c: Config, m: Bucket, t: int, m': Bucket, t': int, m'': Bucket, t'': int)
    requires 0 <= t' <= t''
    ensures StaysExportable(c, m, t, m', t') && StaysExportable(c, m', t', m'', t'') ==>
              StaysExportable(c, m, t, m'', t'')
  {
  }

  lemma StepStaysExportable(s: Step, db: Database, tx: Database, now: int, later: int, c: Config)
    requires Valid(db) && Valid(tx) && Proper(s) && (tx == db || Effect(s, db, tx, now)) && 0 <= now <= later
    requires Faithful(s, c)
    ensures StaysExportable(c, db.leases, now, tx.leases, later)
  {
    if Located(c) && Roomy(c, later) && AllExportable(Exporter(c), db.leases, now) {
      SettledAlike(s.config, c, now);
      ExportableAlike(s.config, c, db.leases, now);
      if tx != db { StepKeepsExportable(s, db, tx, now); }
      ExportableAlike(s.config, c, tx.leases, now);
      ExportableLater(Exporter(c), tx.leases, now, later);
    }
  }

  lemma StepKeeps(s: Step, db: Database, tx: Database, now: int, later: int, pool: Scope, c: Config)
    requires Valid(db) && Valid(tx) && Proper(s) && (tx == db || Effect(s, db, tx, now)) && 0 <= now <= later
    ensures PoolFixed(s.config, pool) ==> PoolKept(pool, db.leases, now, tx.leases, later)
    ensures Faithful(s, c) ==> StaysExportable(c, db.leases, now, tx.leases, later)
  {
    if PoolFixed(s.config, pool) && FromPool(db.leases, pool, now) {
      StepStaysInPool(s, db, tx, now, later, pool);
    }
    if Faithful(s, c) {
      StepStaysExportable(s, db, tx, now, later, c);
    }
  }

  /** The transaction of a command, on a copy of the ledger. */
  method Transact(s: Step, db: Database, clock: int) returns (tx: Database)
    requires Valid(db) && 0 <= clock && LastTime(db.events) <= clock && Proper(s)
    ensures Valid(tx) && db.events <= tx.events && Effect(s, db, tx, clock)
            && tx.serverDuid == ServerAfter(s, db, clock)
  {
    if FromClient(s.command) {
      tx := ForClient(s, db, clock);
    } else {
      tx := ForLedger(s, db, clock);
    }
  }

  /** What a client asks for. */
  method ForClient(s: Step, db: Database, clock: int) returns (tx: Database)
    requires Valid(db) && 0 <= clock && LastTime(db.events) <= clock && Proper(s)
    requires FromClient(s.command)
    ensures Valid(tx) && db.events <= tx.events && Effect(s, db, tx, clock) && tx.serverDuid == db.serverDuid
  {
    match s.command
    case Lease(scope, q) =>
      var r;
      tx, r := Allocate(s.config, db, scope, q, clock);
    case GiveUp(scope, client, ip, decline) =>
      var ok;
      tx, ok := Release(db, scope, client, ip, decline, clock);
      if decline { HostAddress(db.leases, scope, ip); }
    case Delegate(scope, ask) =>
      tx := db;
      var found := FindScope(s.config.scopes, scope);
      if found.Some? {
        var r;
        tx, r := AllocatePrefix(s.config, db, found.value, ask, clock);
      }
    case GiveBack(scope, client) =>
      tx := db;
      var found := FindScope(s.config.scopes, scope);
      if found.Some? {
        var ok;
        tx, ok := ReleasePrefix(db, found.value, client, clock);
      }
  }

  /** What the daemon and the operator do. */
  method ForLedger(s: Step, db: Database, clock: int) returns (tx: Database)
    requires Valid(db) && 0 <= clock && LastTime(db.events) <= clock && Proper(s)
    requires !FromClient(s.command)
    ensures Valid(tx) && db.events <= tx.events && Effect(s, db, tx, clock)
            && tx.serverDuid == ServerAfter(s, db, clock)
  {
    match s.command
    case Sweep =>
      var n;
      tx, n := Expire(db, clock);
    case Take(doc) =>
      var ok;
      tx, ok := ImportDocument(s.config, db, doc, clock);
    case Hear(node, sightings) =>
      var r;
      ghost var matches;
      tx, r, matches := Report(s.config, db, sightings, node, clock);
    case Fix(changes) =>
      var ok;
      tx, ok := Repair(s.config, db, changes, clock);
    case Abandon(pools) =>
      var n;
      tx, n := AbandonDelegations(db, pools, clock);
    case Identify(duid) =>
      tx := if db.serverDuid == "" then db.(serverDuid := duid) else db;
  }

  class Store {
    var db: Database
    var clock: int

    ghost predicate Ok()
      reads this
    {
      Valid(db) && 0 <= clock && LastTime(db.events) <= clock
    }

    constructor ()
      ensures Ok() && db.events == []
    {
      db := NewDatabase;
      clock := 0;
      new;
      NewValid();
    }

    /** A store opened on a ledger in order. */
    constructor Opened(db: Database, clock: int)
      requires Valid(db) && 0 <= clock && LastTime(db.events) <= clock
      ensures Ok() && this.db == db && this.clock == clock
    {
      this.db, this.clock := db, clock;
    }

    /** One step: the transaction commits, or fails and leaves the ledger; time passes. */
    method Perform(s: Step, ghost pool: Scope, ghost c: Config) returns (committed: bool)
      requires Ok() && Proper(s)
      modifies this
      ensures Ok() && old(clock) <= clock && old(db.events) <= db.events
      ensures committed ==> Effect(s, old(db), db, old(clock)) && db.serverDuid == ServerAfter(s, old(db), old(clock))
      ensures !committed ==> db == old(db)
      ensures PoolFixed(s.config, pool) ==> PoolKept(pool, old(db.leases), old(clock), db.leases, clock)
      ensures Faithful(s, c) ==> StaysExportable(c, old(db.leases), old(clock), db.leases, clock)
    {
      var tx := Transact(s, db, clock);
      committed := *;
      if committed {
        db := tx;
      }
      var t :| t >= clock && t >= LastTime(db.events);
      clock := t;
      StepKeeps(s, old(db), db, old(clock), clock, pool, c);
    }

    /** Over every run, under any configurations, with any commits failing: ownership
        intervals never overlap, no recorded event is ever changed, the indexes agree with
        the bindings and the bindings with the log. While a scope's pool stays fixed, its
        held delegations are prefixes of the pool; while the configuration does, but for
        which scopes are on, every live binding can be exported. */
    method Run(steps: seq<Step>, ghost pool: Scope, ghost c: Config)
      requires Ok() && forall i | 0 <= i < |steps| :: Proper(steps[i])
      modifies this
      ensures Ok() && old(clock) <= clock && old(db.events) <= db.events
      ensures NoOverlap(db.events)
      ensures (forall i | 0 <= i < |steps| :: PoolFixed(steps[i].config, pool)) ==>
                PoolKept(pool, old(db.leases), old(clock), db.leases, clock)
      ensures (forall i | 0 <= i < |steps| :: Faithful(steps[i], c)) ==>
                StaysExportable(c, old(db.leases), old(clock), db.leases, clock)
    {
      for i := 0 to |steps|
        invariant Ok() && old(clock) <= clock && old(db.events) <= db.events
        invariant (forall j | 0 <= j < i :: PoolFixed(steps[j].config, pool)) ==>
                    PoolKept(pool, old(db.leases), old(clock), db.leases, clock)
        invariant (forall j | 0 <= j < i :: Faithful(steps[j], c)) ==>
                    StaysExportable(c, old(db.leases), old(clock), db.leases, clock)
      {
        ghost var m, t := db.leases, clock;
        var _ := Perform(steps[i], pool, c);
        StaysExportableOn(c, old(db.leases), old(clock), m, t, db.leases, clock);
      }
      ValidNoOverlap(db);
    }

    /** Over every run under configurations that leave a scope's pool as prefixAt enumerates
        it, whatever else they change, the pool is served. */
    method RunPool(steps: seq<Step>, s: Scope, ghost pool: Prefix, ghost length: nat, ghost text: Prefix -> string)
      requires Ok() && ValidScope(s) && PoolTexts(s, pool, length, text) && FromPool(db.leases, s, clock)
      requires forall i | 0 <= i < |steps| :: Proper(steps[i]) && PoolFixed(steps[i].config, s)
      modifies this
      ensures Ok() && FromPool(db.leases, s, clock) && PoolServed(db.leases, s, pool, length, text, clock)
    {
      ghost var any: Config :| true;
      Run(steps, s, any);
      InOrderPoolServed(db, s, pool, length, text, clock);
    }

    /** Over every run under configurations of the same subnets, as long as reservations,
        requests and imports are of canonical texts: no address, as a number, has two
        holders. */
    method RunNumbers(steps: seq<Step>, ghost c: Config)
      requires Ok() && ValidConfig(c) && AllSpelled(c, db.leases, clock)
      requires forall i | 0 <= i < |steps| ::
                 Proper(steps[i]) && CanonicalTexts(steps[i]) && SameNets(steps[i].config, c)
      modifies this
      ensures Ok() && AllSpelled(c, db.leases, clock) && NumbersApart(c, db.leases, clock)
    {
      for i := 0 to |steps|
        invariant Ok() && AllSpelled(c, db.leases, clock)
      {
        ghost var db0, t0 := db, clock;
        ghost var any: Scope :| true;
        var committed := Perform(steps[i], any, c);
        if committed {
          SpelledElsewhere(c, steps[i].config, db0.leases, t0);
          StepKeepsSpelled(steps[i], db0, db, t0);
          SpelledElsewhere(steps[i].config, c, db.leases, t0);
        }
        SpelledLater(c, db.leases, t0, clock);
      }
      SpelledApart(c, db.leases, clock);
    }
  }
}
