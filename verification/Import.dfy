/** Importing leases into the ledger (internal/addressbook/allocate.go, ImportDocument, and
    dhcp6.go, adoptDUID). */
module Import {
  import opened Strings
  import opened Bindings
  import opened Configs
  import opened Database
  import opened LeaseText
  import opened LeaseFile

  datatype Step = Skip | Refuse | Put(binding: Binding)

  function ImportMac(l: ImportedLease): string {
    match ParseMac(l.mac) case Some(mac) => mac case None => ""
  }

  function ImportClient(s: Scope, l: ImportedLease): string {
    if s.is6 then "duid:" + Lower(Strip(l.duid)) + "/iaid:" + Lower(l.iaid)
    else if l.clientId != "" && l.clientId != "*" then "id:" + Lower(Strip(l.clientId))
    else "mac:" + ImportMac(l)
  }

  function ImportEnd(l: ImportedLease): int {
    if l.expiry == 0 then Forever else l.expiry
  }

  /** isQuarantineMarker: our own hold coming back. */
  predicate IsMarker(c: Config, s: Scope, l: ImportedLease) {
    if s.is6 then Lower(Strip(l.duid)) == MarkerDuid(c, s.id, l.address) else ImportMac(l) == MarkerMac
  }

  /** A lease a disabled scope can take: a usable address and a valid identity. */
  predicate Importable(c: Config, s: Scope, l: ImportedLease) {
    && l.expiry >= 0 && !s.enabled
    && (var ip := c.parse(l.address); ip.Some? && s.contains(ip.value.text) && ip.value.text !in s.edges)
    && l.address != s.server && l.address != s.router
    && (s.is6 || ParseMac(l.mac).Some?)
    && ValidClient(ImportClient(s, l))
  }

  function ImportRecord(c: Config, s: Scope, l: ImportedLease, prior: Binding, now: int): Binding {
    var client, end := ImportClient(s, l), ImportEnd(l);
    var dev := DeviceId(c, l.scope, client);
    var duid := if s.is6 && DuidClient(client) then DuidOf(client) else "";
    var iaid := if s.is6 then l.iaid else "";
    if IsMarker(c, s, l) then
      Binding(l.scope, l.address, client, ImportMac(l), dev, Declined, Imported, end,
              Info(now, 0, duid, iaid, dev, "", "quarantine restored from exported lease file", "", ""))
    else
      var base := Binding(l.scope, l.address, client, ImportMac(l), dev, Active, Imported, end,
                          Info(now, if s.is6 then end else 0, duid, iaid, dev, "", "", l.hostname, ""));
      var b := if prior.client == client && prior.state == Active && prior.end > now
               then base.(name := prior.name,
                          info := base.info.(device := prior.info.device, nodeId := prior.info.nodeId,
                                             evidence := prior.info.evidence, start := prior.info.start))
               else base;
      match FindReservation(s.reservations, client, b.mac)
      case None => b
      case Some(r) =>
        var d := FindDevice(c.devices, r.device);
        b.(name := d.name, info := b.info.(device := d.id, nodeId := d.nodeId, evidence := "inventory reservation"))
  }

  /** Whether a record goes in over what the ledger has at its address. */
  function Decide(prior: Binding, record: Binding, now: int): Step {
    if record.end <= now then Skip
    else if !Held(prior, now) then Put(record)
    else if record.state == Declined then
      if prior.state == Declined then Skip else Refuse
    else if prior.client == record.client && prior.state == Active && prior.end >= record.end then Skip
    else if prior.client != record.client || prior.state == Declined then Refuse
    else Put(record)
  }

  /** What importing one lease does to the ledger. */
  function ImportStep(c: Config, s: Scope, m: Bucket, l: ImportedLease, now: int): Step {
    var prior := Read(m, l.scope, l.address);
    if !Importable(c, s, l) then Refuse else Decide(prior, ImportRecord(c, s, l, prior, now), now)
  }

  /** One lease, its scope looked up; DHCPv6 leases need a server identity. */
  function StepFor(c: Config, m: Bucket, l: ImportedLease, duidKnown: bool, now: int): Step {
    var s := FindScope(c.scopes, l.scope);
    if s.None? || (l.duid != "" && !duidKnown) then Refuse else ImportStep(c, s.value, m, l, now)
  }

  function Stepper(c: Config, duidKnown: bool, now: int): (Bucket, ImportedLease) -> Step {
    (m: Bucket, l: ImportedLease) => StepFor(c, m, l, duidKnown, now)
  }

  /** The ledger after importing the leases in order; none when one is refused. */
  function ImportAll(step: (Bucket, ImportedLease) -> Step, m: Bucket, leases: seq<ImportedLease>): Option<Bucket>
    decreases |leases|
  {
    if leases == [] then Some(m)
    else match step(m, leases[0])
      case Refuse => None
      case Skip => ImportAll(step, m, leases[1..])
      case Put(b) => ImportAll(step, m[KeyOf(b) := b], leases[1..])
  }

  /** A record that may be put: well-formed, and taken from nobody. */
  ghost predicate PutFits(m: Bucket, b: Binding, now: int) {
    WellFormed(b) && b.origin == Imported && Lawful(m, b, now) && Respected(Read(m, b.scope, b.address), b, now)
  }

  // ---- The transaction ------------------------------------------------------------------

  lemma ImportRecordFor(c: Config, s: Scope, l: ImportedLease, prior: Binding, now: int)
    ensures var b := ImportRecord(c, s, l, prior, now);
            && b.scope == l.scope && b.address == l.address && b.client == ImportClient(s, l) && b.mac == ImportMac(l)
            && b.end == ImportEnd(l) && b.origin == Imported
            && b.state == if IsMarker(c, s, l) then Declined else Active
  {
  }

  lemma ImportRecordLabel(c: Config, s: Scope, l: ImportedLease, prior: Binding, now: int)
    requires ValidConfig(c) && s in c.scopes && ImportClient(s, l) != ""
    requires prior == NoBinding || WellFormed(prior)
    ensures Label(ImportRecord(c, s, l, prior, now).name)
  {
    DeviceIdLabel(c, l.scope, ImportClient(s, l));
  }

  /** What a held address keeps: its client, its quarantine, and a lease at least as long. */
  predicate Respected(b: Binding, x: Binding, now: int) {
    Held(b, now) ==>
      && Held(x, now) && x.client == b.client
      && (b.state == Declined ==> x == b)
      && (b.state == Active ==> x.state == Active && x.end >= b.end)
  }

  /** An offer is not yet a lease: importing the client's own lease over it may leave an
      earlier end. Nothing else held ever gets one. */
  lemma ImportShortens(prior: Binding, x: Binding, now: int)
    requires Held(prior, now) && (x.state == Active || x.state == Declined)
    ensures Decide(prior, x, now).Put? && x.end < prior.end <==>
              prior.state == Offered && x.state == Active && prior.client == x.client && now < x.end < prior.end
  {
  }

  lemma DecideLawful(m: Bucket, x: Binding, now: int)
    requires x.origin == Imported && (x.state == Active || x.state == Declined)
    requires Decide(Read(m, x.scope, x.address), x, now).Put?
    ensures Lawful(m, x, now) && Respected(Read(m, x.scope, x.address), x, now)
  {
  }

  lemma ImportWellFormed(c: Config, s: Scope, l: ImportedLease, prior: Binding, now: int)
    requires ValidConfig(c) && FindScope(c.scopes, l.scope) == Some(s) && Importable(c, s, l)
    requires prior == NoBinding || WellFormed(prior)
    ensures WellFormed(ImportRecord(c, s, l, prior, now))
  {
    ValidClientFree(ImportClient(s, l));
    ImportRecordFor(c, s, l, prior, now);
    ImportRecordLabel(c, s, l, prior, now);
    MacFree(l);
  }

  /** What is put is well-formed, and taken from nobody. */
  lemma PutLawful(c: Config, m: Bucket, l: ImportedLease, duidKnown: bool, now: int)
    requires ValidConfig(c) && Keyed(m) && 0 <= now
    requires StepFor(c, m, l, duidKnown, now).Put?
    ensures PutFits(m, StepFor(c, m, l, duidKnown, now).binding, now)
  {
    var s := FindScope(c.scopes, l.scope).value;
    var prior := Read(m, l.scope, l.address);
    ReadKeyed(m, l.scope, l.address);
    ImportWellFormed(c, s, l, prior, now);
    ImportRecordFor(c, s, l, prior, now);
    DecideLawful(m, ImportRecord(c, s, l, prior, now), now);
  }

  lemma MacFree(l: ImportedLease)
    ensures Free('\0', ImportMac(l))
  {
    ParseMacCanonical(l.mac);
    if ParseMac(l.mac).Some? { assert forall i | 0 <= i < 17 :: ImportMac(l)[i] != '\0'; }
  }

  /** adoptDUID: a changed server identity is refused while any DHCPv6 record exists. */
  predicate Adoptable(c: Config, db: Database, duid: string) {
    && LowerHex(Lower(Strip(duid))) && |Strip(duid)| % 2 == 0 && |Strip(duid)| >= 4
    && (forall i | 0 <= i < |c.scopes| :: !(c.scopes[i].is6 && c.scopes[i].enabled))
    && (db.serverDuid != "" && db.serverDuid != Lower(Strip(duid)) ==>
          forall k <- db.leases :: db.leases[k].info.duid == "")
  }

  predicate DuidKnown(db: Database, doc: Document) {
    doc.serverDuid != "" || db.serverDuid != ""
  }

  /** The ledger an import leaves; none when it is refused. */
  function Imports(c: Config, db: Database, doc: Document, now: int): Option<Bucket> {
    if |doc.leases| > 10000 || (doc.serverDuid != "" && !Adoptable(c, db, doc.serverDuid)) then None
    else ImportAll(Stepper(c, DuidKnown(db, doc), now), db.leases, doc.leases)
  }

  /** ImportDocument: all or nothing. */
  method ImportDocument(c: Config, tx: Database, doc: Document, now: int) returns (tx': Database, ok: bool)
    requires ValidConfig(c) && Valid(tx) && 0 <= now
    ensures Valid(tx') && tx.events <= tx'.events
    ensures ok <==> Imports(c, tx, doc, now).Some?
    ensures !ok ==> tx' == tx
    ensures NoNewDelegations(tx.leases, tx'.leases)
    ensures ok ==> && tx'.leases == Imports(c, tx, doc, now).value && AllRespected(tx.leases, tx'.leases, now)
                   && tx'.associations == tx.associations
                   && tx'.serverDuid == if doc.serverDuid != "" then Lower(Strip(doc.serverDuid)) else tx.serverDuid
  {
    if |doc.leases| > 10000 || (doc.serverDuid != "" && !Adoptable(c, tx, doc.serverDuid)) {
      return tx, false;
    }
    tx' := tx.(serverDuid := if doc.serverDuid != "" then Lower(Strip(doc.serverDuid)) else tx.serverDuid);
    var known := DuidKnown(tx, doc);
    forall m, l | Keyed(m) && Stepper(c, known, now)(m, l).Put?
      ensures PutFits(m, Stepper(c, known, now)(m, l).binding, now)
    {
      PutLawful(c, m, l, known, now);
    }
    var done;
    done, ok := ImportEach(Stepper(c, known, now), tx', doc.leases, now);
    tx' := if ok then done else tx;
  }

  predicate RespectedAt(m: Bucket, m': Bucket, k: string, now: int) {
    k in m ==> k in m' && Respected(m[k], m'[k], now)
  }

  /** No held address changed hands, lost its quarantine, or got a shorter lease. */
  ghost predicate AllRespected(m: Bucket, m': Bucket, now: int) {
    forall k :: RespectedAt(m, m', k, now)
  }

  lemma PutRespects(m: Bucket, m': Bucket, b: Binding, now: int)
    requires AllRespected(m, m', now) && PutFits(m', b, now)
    ensures AllRespected(m, m'[KeyOf(b) := b], now)
  {
    var m'' := m'[KeyOf(b) := b];
    forall k ensures RespectedAt(m, m'', k, now) {
      assert RespectedAt(m, m', k, now);
    }
  }

  /** The import loop, for any way of taking one lease. */
  method ImportEach(step: (Bucket, ImportedLease) -> Step, tx: Database, leases: seq<ImportedLease>, now: int)
    returns (tx': Database, ok: bool)
    requires Valid(tx)
    requires forall m, l | Keyed(m) && step(m, l).Put? :: PutFits(m, step(m, l).binding, now)
    ensures ok <==> ImportAll(step, tx.leases, leases).Some?
    ensures Valid(tx')
    ensures tx.events <= tx'.events && NoNewDelegations(tx.leases, tx'.leases)
    ensures ok ==> && tx'.leases == ImportAll(step, tx.leases, leases).value && AllRespected(tx.leases, tx'.leases, now)
                   && tx'.associations == tx.associations && tx'.serverDuid == tx.serverDuid
  {
    tx' := tx;
    forall k ensures OldDelegationAt(tx.leases, tx.leases, k) && RespectedAt(tx.leases, tx.leases, k, now) {
    }
    for i := 0 to |leases|
      invariant AllRespected(tx.leases, tx'.leases, now) && tx.events <= tx'.events
                && NoNewDelegations(tx.leases, tx'.leases)
      invariant Valid(tx') && tx'.associations == tx.associations && tx'.serverDuid == tx.serverDuid
      invariant ImportAll(step, tx.leases, leases) == ImportAll(step, tx'.leases, leases[i..])
    {
      assert leases[i..][0] == leases[i] && leases[i..][1..] == leases[i + 1..];
      match step(tx'.leases, leases[i])
      case Refuse => return tx', false;
      case Skip =>
      case Put(b) =>
        assert PutFits(tx'.leases, b, now);
        PutRespects(tx.leases, tx'.leases, b, now);
        WriteNoDelegation(tx'.leases, b);
        NoNewDelegationsOn(tx.leases, tx'.leases, tx'.leases[KeyOf(b) := b]);
        tx' := Save(tx', b, "import", now);
    }
    ok := true;
  }

  // ---- Importing what was exported ---------------------------------------------------------

  lemma StripHex(v: string)
    requires LowerHex(v)
    ensures Strip(v) == v && Lower(Strip(v)) == v
  {
    StripFree(v);
    LowerHexLower(v);
  }

  lemma IdClientValid(v: string)
    requires LowerHex(v) && 2 <= |v| <= 510 && |v| % 2 == 0
    ensures ValidClient("id:" + v)
  {
    var s := "id:" + v;
    HasPrefixStep(s, "duid:");
    HasPrefixStep(s, "mac:");
    assert s[..3] == "id:" && s[3..] == v;
  }

  lemma DuidClientValid(duid: string, iaid: string)
    requires LowerHex(duid) && 4 <= |duid| <= 256 && |duid| % 2 == 0 && LowerHex(iaid) && |iaid| == 8
    ensures ValidClient("duid:" + duid + "/iaid:" + iaid)
  {
    var v := "duid:" + duid + "/iaid:" + iaid;
    assert v[..5] == "duid:" && v[5..|v| - 14] == duid && v[|v| - 14..|v| - 8] == "/iaid:" && v[|v| - 8..] == iaid;
  }

  lemma IdClientReturns(client: string)
    requires ValidClient(client) && HasPrefix(client, "id:")
    ensures "id:" + Lower(Strip(ColonHex(client[3..]))) == client
    ensures ColonHex(client[3..]) != "" && ColonHex(client[3..]) != "*"
  {
    HasPrefixStep(client, "id:");
    HasPrefixStep(client, "duid:");
    HasPrefixStep(client, "mac:");
    ColonHexRoundTrip(client[3..]);
    LowerHexLower(client[3..]);
    assert client == "id:" + client[3..];
  }

  lemma DuidClientReturns(client: string)
    requires DuidClient(client)
    ensures "duid:" + Lower(Strip(DuidOf(client))) + "/iaid:" + Lower(IaidOf(client)) == client
  {
    StripHex(DuidOf(client));
    LowerHexLower(IaidOf(client));
    assert client == client[..5] + DuidOf(client) + client[|client| - 14..|client| - 8] + IaidOf(client);
  }

  /** The exported lease of a client comes back under the same identity ... */
  lemma ClientReturns(c: Config, s: Scope, b: Binding)
    requires Exportable(c, b) && b.state != Declined && s.is6 == c.parse(b.address).value.is6
    ensures ImportClient(s, LeaseOf(c, b)) == b.client
  {
    if s.is6 {
      DuidClientReturns(b.client);
    } else if HasPrefix(b.client, "id:") {
      IdClientReturns(b.client);
    } else {
      ExportMacReads(b);
    }
  }

  lemma StripMarker(h: string)
    requires LowerHex(h) && |h| % 2 == 0
    ensures Lower(Strip("ff:" + ColonHex(h))) == "ff" + h
  {
    assert Strip("ff:") == "ff";
    StripAppend("ff:", ColonHex(h));
    ColonHexRoundTrip(h);
    LowerHexLower("ff" + h);
  }

  /** ... and the identity of a quarantine is a valid one that no client has. */
  lemma Marker4Returns(c: Config, s: Scope, b: Binding)
    requires Exportable(c, b) && !s.is6 && !c.parse(b.address).value.is6
    ensures IsMarker(c, s, LeaseOf(c, b)) <==> b.state == Declined
    ensures b.state == Declined ==> ValidClient(ImportClient(s, LeaseOf(c, b)))
  {
    ExportMacReads(b);
    if b.state == Declined { QuarantineClient(HexText(b.address), ExportClient(b), Lower(Strip(ExportClient(b)))); }
  }

  lemma MarkerMacCanonical()
    ensures CanonicalMac(MarkerMac)
  {
  }

  lemma QuarantineClient(h: string, x: string, v: string)
    requires LowerHex(h) && 2 <= |h| <= 200 && |h| % 2 == 0 && x == "ff:" + ColonHex(h) && v == Lower(Strip(x))
    ensures ValidClient("id:" + v)
  {
    StripMarker(h);
    assert v == "ff" + h && LowerHex(v);
    IdClientValid(v);
  }

  lemma Marker6Returns(c: Config, s: Scope, b: Binding)
    requires ValidConfig(c) && Exportable(c, b) && s.is6 && c.parse(b.address).value.is6 && s.id == b.scope
    ensures IsMarker(c, s, LeaseOf(c, b)) <==> b.state == Declined
    ensures b.state == Declined ==> ValidClient(ImportClient(s, LeaseOf(c, b)))
  {
    var duid := MarkerDuid(c, b.scope, b.address);
    MarkerDuidHex(c, b.scope, b.address);
    StripHex(duid);
    StripHex(b.info.duid);
    LowerHexLower(Iaid(b));
    DuidClientValid(duid, Iaid(b));
  }

  predicate Usable(s: Scope, address: string) {
    s.contains(address) && address !in s.edges && address != s.server && address != s.router
  }

  /** A live binding of a scope that is switched off, where imports may write. */
  ghost predicate Placed(c: Config, b: Binding, now: int) {
    && Exportable(c, b) && Exported(b) && Held(b, now)
    && FindScope(c.scopes, b.scope) == ScopeOf(c.scopes, b.address)
    && !FindScope(c.scopes, b.scope).value.enabled && Usable(FindScope(c.scopes, b.scope).value, b.address)
  }

  /** x keeps b's address, its end and its holder; a quarantine stays one. */
  predicate Kept(b: Binding, x: Binding) {
    && x.scope == b.scope && x.address == b.address && x.end == b.end
    && if b.state == Declined then x.state == Declined else x.state == Active && x.client == b.client
  }

  /** The ledger at b's address: b itself, or nothing live. */
  predicate Fits(m: Bucket, b: Binding, now: int) {
    Read(m, b.scope, b.address) == b || !Held(Read(m, b.scope, b.address), now)
  }

  /** The import leaves, or puts, a record that keeps b. */
  predicate Lands(m: Bucket, b: Binding, step: Step) {
    match step
    case Skip => Kept(b, Read(m, b.scope, b.address))
    case Put(x) => Kept(b, x)
    case Refuse => false
  }

  lemma ExportImportable(c: Config, b: Binding, now: int)
    requires ValidConfig(c) && Placed(c, b, now) && 0 <= now
    ensures var s := FindScope(c.scopes, b.scope).value;
            var l := LeaseOf(c, b);
            && Importable(c, s, l) && ImportEnd(l) == b.end && (IsMarker(c, s, l) <==> b.state == Declined)
            && (b.state != Declined ==> ImportClient(s, l) == b.client)
  {
    var s := FindScope(c.scopes, b.scope).value;
    if s.is6 {
      Marker6Returns(c, s, b);
    } else {
      Marker4Returns(c, s, b);
      ExportMacReads(b);
    }
    if b.state != Declined {
      ClientReturns(c, s, b);
      if s.is6 { HasPrefixStep(b.client, "duid:"); }
    }
  }

  lemma ExportMacReads(b: Binding)
    requires CanonicalMac(b.mac)
    ensures ParseMac(ExportMac(b)) == Some(ExportMac(b))
  {
    MarkerMacCanonical();
    ParseMacCanonical(ExportMac(b));
  }

  lemma DecideLands(m: Bucket, b: Binding, x: Binding, now: int)
    requires Fits(m, b, now) && Held(b, now) && Kept(b, x)
    ensures Lands(m, b, Decide(Read(m, b.scope, b.address), x, now))
  {
  }

  /** Importing the exported lease of b, into a ledger that has b or has nothing live
      there, is never refused and never changes its address, end or holder. */
  lemma ExportLands(c: Config, m: Bucket, b: Binding, known: bool, now: int)
    requires ValidConfig(c) && Placed(c, b, now) && 0 <= now
    requires Fits(m, b, now) && (known || LeaseOf(c, b).duid == "")
    ensures Lands(m, b, StepFor(c, m, LeaseOf(c, b), known, now))
  {
    var s := FindScope(c.scopes, b.scope).value;
    var prior := Read(m, b.scope, b.address);
    ExportKept(c, b, prior, now);
    DecideLands(m, b, ImportRecord(c, s, LeaseOf(c, b), prior, now), now);
  }

  lemma ExportKept(c: Config, b: Binding, prior: Binding, now: int)
    requires ValidConfig(c) && Placed(c, b, now) && 0 <= now
    ensures var s := FindScope(c.scopes, b.scope).value;
            var l := LeaseOf(c, b);
            Importable(c, s, l) && l.scope == b.scope && l.address == b.address
            && Kept(b, ImportRecord(c, s, l, prior, now))
  {
    ExportImportable(c, b, now);
    ImportRecordFor(c, FindScope(c.scopes, b.scope).value, LeaseOf(c, b), prior, now);
  }

  ghost predicate AllLand(step: (Bucket, ImportedLease) -> Step, lease: Binding -> ImportedLease, b: Binding,
                          now: int) {
    forall m | Fits(m, b, now) :: Lands(m, b, step(m, lease(b)))
  }

  predicate KeptIn(m: Bucket, b: Binding) {
    KeyOf(b) in m && Kept(b, m[KeyOf(b)])
  }

  /** Nothing changed except where an exported binding of bs is. */
  ghost predicate OnlyAt(m: Bucket, m': Bucket, bs: seq<Binding>) {
    forall k | forall i | 0 <= i < |bs| :: KeyOf(bs[i]) != k :: (k in m <==> k in m') && (k in m ==> m[k] == m'[k])
  }

  lemma {:induction false} LeasesLand(step: (Bucket, ImportedLease) -> Step, lease: Binding -> ImportedLease,
                                      m: Bucket, bs: seq<Binding>, now: int)
    requires forall b <- bs | Exported(b) :: AllLand(step, lease, b, now)
    requires OneEach(bs) && forall b <- bs | Exported(b) :: Fits(m, b, now)
    ensures var r := ImportAll(step, m, LeasesOf(lease, bs));
            && r.Some? && OnlyAt(m, r.value, bs)
            && forall b <- bs | Exported(b) :: KeptIn(r.value, b)
    decreases |bs|
  {
    if bs != [] {
      var b := bs[0];
      var m1 := m;
      if Exported(b) {
        assert AllLand(step, lease, b, now) && Lands(m, b, step(m, lease(b)));
        var got := step(m, lease(b));
        if got.Put? { m1 := m[KeyOf(got.binding) := got.binding]; }
        assert KeptIn(m1, b);
        assert LeasesOf(lease, bs)[1..] == LeasesOf(lease, bs[1..]);
      }
      LeasesLand(step, lease, m1, bs[1..], now);
    }
  }

  /** The bindings can go back into the ledger: it is the one they came from, or has
      nothing live at their addresses. */
  ghost predicate Returnable(c: Config, db: Database, duid: string, bs: seq<Binding>, now: int) {
    && |bs| <= 10000 && OneEach(bs)
    && LowerHex(duid) && |duid| % 2 == 0 && (duid != "" ==> Adoptable(c, db, duid))
    && (forall b <- bs | Exported(b) :: Placed(c, b, now) && Fits(db.leases, b, now))
    && (duid == "" && db.serverDuid == "" ==> forall b <- bs | Exported(b) :: LeaseOf(c, b).duid == "")
  }

  lemma ExportAllLand(c: Config, b: Binding, known: bool, now: int)
    requires ValidConfig(c) && Placed(c, b, now) && 0 <= now && (known || LeaseOf(c, b).duid == "")
    ensures AllLand(Stepper(c, known, now), Leaser(c), b, now)
  {
    forall m | Fits(m, b, now) ensures Lands(m, b, Stepper(c, known, now)(m, Leaser(c)(b))) {
      ExportLands(c, m, b, known, now);
    }
  }

  lemma {:induction false} FewLeases(lease: Binding -> ImportedLease, bs: seq<Binding>)
    ensures |LeasesOf(lease, bs)| <= |bs|
  {
    if bs != [] { FewLeases(lease, bs[1..]); }
  }

  lemma DocumentLands(c: Config, db: Database, duid: string, bs: seq<Binding>, now: int)
    requires ValidConfig(c) && 0 <= now && Returnable(c, db, duid, bs, now)
    ensures var r := Imports(c, db, Document(LeasesOf(Leaser(c), bs), duid), now);
            r.Some? && OnlyAt(db.leases, r.value, bs) && forall b <- bs | Exported(b) :: KeptIn(r.value, b)
  {
    var known := DuidKnown(db, Document(LeasesOf(Leaser(c), bs), duid));
    forall b | b in bs && Exported(b) ensures AllLand(Stepper(c, known, now), Leaser(c), b, now) {
      ExportAllLand(c, b, known, now);
    }
    LeasesLand(Stepper(c, known, now), Leaser(c), db.leases, bs, now);
    FewLeases(Leaser(c), bs);
  }

  /** Exporting live bindings of scopes that are switched off, reading the file back and
      importing it: every one keeps its address, end and holder, quarantines stay
      quarantines, and nothing else changes. */
  lemma ExportImports(c: Config, db: Database, duid: string, bs: seq<Binding>, now: int)
    requires ValidConfig(c) && 0 <= now && Returnable(c, db, duid, bs, now)
    ensures ExportText(c, duid, bs).Some?
    ensures var doc := ParseText(c, ExportText(c, duid, bs).value);
            && doc.Some? && doc.value.serverDuid == duid && Imports(c, db, doc.value, now).Some?
            && var m := Imports(c, db, doc.value, now).value;
               OnlyAt(db.leases, m, bs) && forall b <- bs | Exported(b) :: KeptIn(m, b)
  {
    ExportParsesBack(c, duid, bs);
    DocumentLands(c, db, duid, bs, now);
  }
}
