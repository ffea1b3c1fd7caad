/** What a rollback hands back to the legacy allocator: every live binding, and every lease
    of the legacy's own snapshot whose address nobody holds now
    (internal/addressbook/handover.go, Rollback). */
module Handback {
  import opened Strings
  import opened Bindings
  import opened Configs
  import opened Database
  import opened LeaseText
  import opened LeaseFile
  import opened Import
  import opened Delegation
  import opened Spelling

  // ---- Parsing does not depend on what is switched on ------------------------------------------

  lemma {:induction false} ScopeOfOff(scopes: seq<Scope>, ip: string)
    ensures ScopeOf(Off(scopes), ip) ==
              match ScopeOf(scopes, ip) case None => None case Some(s) => Some(s.(enabled := false))
  {
    if scopes != [] {
      ScopeOfOff(scopes[1..], ip);
      assert forall i | 1 <= i < |scopes| :: Off(scopes)[i].contains(ip) == scopes[i].contains(ip);
    }
  }

  lemma ParseFieldsOff(c: Config, f: seq<string>)
    ensures ParseFields(Disabled(c), f) == ParseFields(c, f)
  {
    if |f| == 5 && c.parse(f[2]).Some? { ScopeOfOff(c.scopes, c.parse(f[2]).value.text); }
  }

  lemma {:induction false} ParseLinesAlike(p: string -> Line, q: string -> Line, lines: seq<string>, doc: Document)
    requires forall l :: p(l) == q(l)
    ensures ParseLines(p, lines, doc) == ParseLines(q, lines, doc)
    decreases |lines|
  {
    if lines != [] {
      match p(lines[0])
      case NoFields => ParseLinesAlike(p, q, lines[1..], doc);
      case Server(duid) => ParseLinesAlike(p, q, lines[1..], doc.(serverDuid := duid));
      case Lease(l) => ParseLinesAlike(p, q, lines[1..], doc.(leases := doc.leases + [l]));
      case Bad =>
    }
  }

  lemma ParseOff(c: Config, text: string)
    ensures ParseText(Disabled(c), text) == ParseText(c, text)
  {
    forall l ensures Parser(Disabled(c))(l) == Parser(c)(l) {
      ParseFieldsOff(c, Fields(l));
    }
    ParseLinesAlike(Parser(Disabled(c)), Parser(c), Split(text, '\n'), Document([], ""));
  }

  // ---- What a parsed lease looks like ------------------------------------------------------------

  predicate ParsedLease(c: Config, l: ImportedLease) {
    && c.parse(l.address).Some? && c.parse(l.address).value.text == l.address
    && ScopeOf(c.scopes, l.address).Some? && ScopeOf(c.scopes, l.address).value.id == l.scope
    && 0 <= l.expiry <= MaxInt64
    && (c.parse(l.address).value.is6 ==> |l.iaid| == 8 && LowerHex(l.iaid))
  }

  lemma FieldsParsed(c: Config, f: seq<string>)
    requires ValidConfig(c) && ParseFields(c, f).Lease?
    ensures ParsedLease(c, ParseFields(c, f).lease)
  {
    assert CanonicalAddr(c, c.parse(f[2]).value);
    ParseIntBound(f[0]);
    if c.parse(f[2]).value.is6 { HexPadHex(ParseUint32(f[1]).value, 8); }
  }

  lemma ParseIntBound(s: string)
    ensures ParseInt(s).Some? && ParseInt(s).value >= 0 ==> ParseInt(s).value <= MaxInt64
  {
  }

  lemma {:induction false} HexPadHex(n: nat, k: nat)
    ensures |HexPad(n, k)| == k && LowerHex(HexPad(n, k))
  {
    if k > 0 { HexPadHex(n / 16, k - 1); }
  }

  lemma {:induction false} LinesParsed(c: Config, parse: string -> Line, lines: seq<string>, doc: Document)
    requires forall l | parse(l).Lease? :: ParsedLease(c, parse(l).lease)
    requires forall l <- doc.leases :: ParsedLease(c, l)
    ensures var r := ParseLines(parse, lines, doc); r.Some? ==> forall l <- r.value.leases :: ParsedLease(c, l)
    decreases |lines|
  {
    if lines != [] {
      match parse(lines[0])
      case NoFields => LinesParsed(c, parse, lines[1..], doc);
      case Server(duid) => LinesParsed(c, parse, lines[1..], doc.(serverDuid := duid));
      case Lease(l) => LinesParsed(c, parse, lines[1..], doc.(leases := doc.leases + [l]));
      case Bad =>
    }
  }

  lemma TextParsed(c: Config, text: string)
    requires ValidConfig(c) && ParseText(c, text).Some?
    ensures forall l <- ParseText(c, text).value.leases :: ParsedLease(c, l)
  {
    forall l | Parser(c)(l).Lease? ensures ParsedLease(c, Parser(c)(l).lease) {
      FieldsParsed(c, Fields(l));
    }
    LinesParsed(c, Parser(c), Split(text, '\n'), Document([], ""));
  }

  // ---- What is imported can be exported ------------------------------------------------------------

  lemma ScopeFound(c: Config, l: ImportedLease)
    requires ValidConfig(c) && ParsedLease(c, l)
    ensures FindScope(c.scopes, l.scope) == ScopeOf(c.scopes, l.address)
    ensures FindScope(c.scopes, l.scope).value.is6 == c.parse(l.address).value.is6
  {
    var s := ScopeOf(c.scopes, l.address).value;
    var i :| 0 <= i < |c.scopes| && c.scopes[i] == s;
    FindScopeSelf(c.scopes, i);
    assert OneFamily(c, s);
  }

  /** The parts of a DHCPv6 identity come apart again. */
  lemma DuidParts(duid: string, iaid: string, client: string)
    requires client == "duid:" + duid + "/iaid:" + iaid && |iaid| == 8 && ValidClient(client)
    ensures DuidClient(client) && DuidOf(client) == duid && IaidOf(client) == iaid
  {
    HasPrefixStep(client, "duid:");
    assert client[..5] == "duid:";
    assert client[5..|client| - 14] == duid && client[|client| - 8..] == iaid;
  }

  /** The identity of a DHCPv6 lease that is valid has eight digits after the last slash. */
  lemma IaidEight(duid: string, iaid: string, client: string)
    requires client == "duid:" + duid + "/iaid:" + iaid && DuidClient(client)
    ensures |iaid| == 8
  {
    var n := |client|;
    var u, v, w, x := client[..5], client[5..n - 14], client[n - 14..n - 8], client[n - 8..];
    assert u == "duid:" && w == "/iaid:";
    assert u[0] == 'd' && u[1] == 'u' && u[2] == 'i' && u[3] == 'd' && u[4] == ':';
    assert w[1] == 'i' && w[2] == 'a' && w[3] == 'i' && w[4] == 'd' && w[5] == ':';
    forall i | 0 <= i < n && i != n - 14 ensures client[i] != '/' {
      if 5 <= i < n - 14 { assert v[i - 5] in v; }
      if n - 8 <= i { assert x[i - (n - 8)] in x; }
      if n - 14 < i < n - 8 { assert client[i] == w[i - (n - 14)]; }
    }
    assert client[5 + |duid|] == '/';
  }

  lemma Identity6(c: Config, s: Scope, l: ImportedLease, prior: Binding, now: int)
    requires s.is6 && ValidClient(ImportClient(s, l)) && s.id == l.scope
    ensures var b := ImportRecord(c, s, l, prior, now);
            && DuidClient(b.client) && b.info.duid == DuidOf(b.client) && Iaid(b) == IaidOf(b.client)
            && (b.state != Declined ==> b.info.duid != MarkerDuid(c, b.scope, b.address))
  {
    var client := ImportClient(s, l);
    HasPrefixStep(client, "duid:");
    assert client[..5] == "duid:";
    IaidEight(Lower(Strip(l.duid)), Lower(l.iaid), client);
    DuidParts(Lower(Strip(l.duid)), Lower(l.iaid), client);
    ImportRecordFor(c, s, l, prior, now);
    RecordIds(c, s, l, prior, now);
  }

  lemma RecordIds(c: Config, s: Scope, l: ImportedLease, prior: Binding, now: int)
    requires s.is6 && DuidClient(ImportClient(s, l))
    ensures var b := ImportRecord(c, s, l, prior, now);
            b.info.duid == DuidOf(ImportClient(s, l)) && b.info.iaid == l.iaid
  {
  }

  lemma Identity4(c: Config, s: Scope, l: ImportedLease, prior: Binding, now: int)
    requires !s.is6 && ParseMac(l.mac).Some? && ValidClient(ImportClient(s, l))
    ensures var b := ImportRecord(c, s, l, prior, now);
            && CanonicalMac(b.mac) && (b.state != Declined ==> b.mac != MarkerMac)
            && ValidClient(b.client) && !HasPrefix(b.client, "duid:")
            && (HasPrefix(b.client, "mac:") ==> b.client == "mac:" + b.mac)
  {
    ParseMacCanonical(l.mac);
    ImportRecordFor(c, s, l, prior, now);
    var client := ImportClient(s, l);
    HasPrefixStep(client, "duid:");
    HasPrefixStep(client, "mac:");
    HasPrefixStep(client, "id:");
  }

  /** What is imported can be exported exactly when its address is spelled canonically. */
  lemma ImportExportable(c: Config, l: ImportedLease, prior: Binding, now: int)
    requires ValidConfig(c) && l.expiry <= MaxInt64 && (prior == NoBinding || WellFormed(prior))
    requires FindScope(c.scopes, l.scope).Some? && Importable(c, FindScope(c.scopes, l.scope).value, l)
    ensures Exportable(c, ImportRecord(c, FindScope(c.scopes, l.scope).value, l, prior, now)) <==> Spelled(c, l.address)
  {
    var s := FindScope(c.scopes, l.scope).value;
    ImportRecordFor(c, s, l, prior, now);
    if Spelled(c, l.address) {
      ImportWellFormed(c, s, l, prior, now);
      SpelledPlaced(c, s, l.address);
      SpelledToken(c, l.address);
      if s.is6 { Identity6(c, s, l, prior, now); } else { Identity4(c, s, l, prior, now); }
    }
  }

  lemma SpelledToken(c: Config, address: string)
    requires ValidConfig(c) && Spelled(c, address)
    ensures Token(address) && |address| <= 100
  {
    assert CanonicalAddr(c, c.parse(address).value);
  }

  /** What an import puts is live and of a kind the lease file has a form for, and can be
      exported exactly when the imported text is the canonical one. */
  lemma PutExportable(c: Config, m: Bucket, l: ImportedLease, known: bool, now: int)
    requires ValidConfig(c) && Keyed(m) && l.expiry <= MaxInt64 && StepFor(c, m, l, known, now).Put?
    ensures var b := StepFor(c, m, l, known, now).binding;
            Held(b, now) && Exported(b) && (Exportable(c, b) <==> Spelled(c, l.address))
  {
    var s, prior := FindScope(c.scopes, l.scope).value, Read(m, l.scope, l.address);
    ReadKeyed(m, l.scope, l.address);
    ImportRecordFor(c, s, l, prior, now);
    ImportExportable(c, l, prior, now);
  }

  /** A lease whose record can be exported, if it is put at all: the address is spelled
      canonically, and the end is a time the source can hold. */
  predicate Printable(c: Config, l: ImportedLease) {
    LeaseSpelled(c, l) && l.expiry <= MaxInt64
  }

  predicate ExportableAt(exportable: Binding -> bool, m: Bucket, k: string, now: int) {
    k in m && Held(m[k], now) && Exported(m[k]) ==> exportable(m[k])
  }

  ghost predicate AllExportable(exportable: Binding -> bool, m: Bucket, now: int) {
    forall k :: ExportableAt(exportable, m, k, now)
  }

  ghost function Exporter(c: Config): Binding -> bool {
    (b: Binding) => Exportable(c, b)
  }

  // ---- What an import leaves held ---------------------------------------------------------------------

  /** The ledger holds a lease for its client at least as long as the lease says; our own
      quarantine marker as a quarantine. */
  predicate LeaseHeld(c: Config, m: Bucket, l: ImportedLease, now: int) {
    var found, x := FindScope(c.scopes, l.scope), Read(m, l.scope, l.address);
    found.Some? && ValidClient(ImportClient(found.value, l)) && Held(x, now) &&
    if IsMarker(c, found.value, l) then x.state == Declined
    else x.state == Active && x.client == ImportClient(found.value, l) && x.end >= ImportEnd(l)
  }

  function Keeper(c: Config, now: int): (Bucket, ImportedLease) -> bool {
    (m: Bucket, l: ImportedLease) => ImportEnd(l) > now ==> LeaseHeld(c, m, l, now)
  }

  /** Taking a lease leaves it held, and puts only what fits and can be exported again. */
  ghost predicate TakesWell(step: (Bucket, ImportedLease) -> Step, exportable: Binding -> bool,
                            held: (Bucket, ImportedLease) -> bool,
                            m: Bucket, l: ImportedLease, now: int)
  {
    match step(m, l)
    case Refuse => true
    case Skip => held(m, l)
    case Put(b) => PutFits(m, b, now) && exportable(b) && held(m[KeyOf(b) := b], l)
  }

  lemma RespectedOn(a: Bucket, b: Bucket, c: Bucket, now: int)
    requires AllRespected(a, b, now) && AllRespected(b, c, now)
    ensures AllRespected(a, c, now)
  {
    forall k ensures RespectedAt(a, c, k, now) {
      assert RespectedAt(a, b, k, now) && RespectedAt(b, c, k, now);
    }
  }

  predicate AddedAt(exportable: Binding -> bool, m: Bucket, m': Bucket, k: string) {
    k in m' ==> exportable(m'[k]) || (k in m && m'[k] == m[k])
  }

  /** Whatever was written can be exported. */
  ghost predicate AddsExportable(exportable: Binding -> bool, m: Bucket, m': Bucket) {
    forall k :: AddedAt(exportable, m, m', k)
  }

  lemma AddsOn(exportable: Binding -> bool, a: Bucket, b: Bucket, c: Bucket)
    requires AddsExportable(exportable, a, b) && AddsExportable(exportable, b, c)
    ensures AddsExportable(exportable, a, c)
  {
    forall k ensures AddedAt(exportable, a, c, k) {
      assert AddedAt(exportable, a, b, k) && AddedAt(exportable, b, c, k);
    }
  }

  lemma AddsKeeps(exportable: Binding -> bool, m: Bucket, m': Bucket, now: int)
    requires AddsExportable(exportable, m, m') && AllExportable(exportable, m, now)
    ensures AllExportable(exportable, m', now)
  {
    forall k ensures ExportableAt(exportable, m', k, now) {
      assert AddedAt(exportable, m, m', k) && ExportableAt(exportable, m, k, now);
    }
  }

  lemma PutKeeps(exportable: Binding -> bool, m: Bucket, b: Binding, now: int)
    requires Keyed(m) && PutFits(m, b, now) && exportable(b)
    ensures Keyed(m[KeyOf(b) := b]) && AllRespected(m, m[KeyOf(b) := b], now)
    ensures AddsExportable(exportable, m, m[KeyOf(b) := b])
  {
    var m' := m[KeyOf(b) := b];
    forall k ensures KeyedAt(m', k) {
      assert KeyedAt(m, k);
    }
    forall k ensures RespectedAt(m, m', k, now) {
    }
    forall k ensures AddedAt(exportable, m, m', k) {
    }
  }

  lemma {:induction false} ImportFold(step: (Bucket, ImportedLease) -> Step, exportable: Binding -> bool,
                                      held: (Bucket, ImportedLease) -> bool,
                                      m: Bucket, leases: seq<ImportedLease>, now: int)
    requires Keyed(m)
    requires forall x, l | Keyed(x) && l in leases :: TakesWell(step, exportable, held, x, l, now)
    requires forall x, y, l | AllRespected(x, y, now) && held(x, l) :: held(y, l)
    ensures var r := ImportAll(step, m, leases);
            r.Some? ==> && Keyed(r.value) && AllRespected(m, r.value, now)
                        && AddsExportable(exportable, m, r.value)
                        && forall l <- leases :: held(r.value, l)
    decreases |leases|
  {
    if leases == [] {
      forall k ensures RespectedAt(m, m, k, now) && AddedAt(exportable, m, m, k) {
      }
    } else {
      var l, rest := leases[0], leases[1..];
      assert TakesWell(step, exportable, held, m, l, now);
      match step(m, l)
      case Refuse =>
      case Skip =>
        ImportFold(step, exportable, held, m, rest, now);
      case Put(b) =>
        PutKeeps(exportable, m, b, now);
        var m1 := m[KeyOf(b) := b];
        ImportFold(step, exportable, held, m1, rest, now);
        if ImportAll(step, m1, rest).Some? {
          RespectedOn(m, m1, ImportAll(step, m1, rest).value, now);
          AddsOn(exportable, m, m1, ImportAll(step, m1, rest).value);
        }
    }
  }

  /** A holding that has what a record asks for. */
  predicate KeepsFor(prior: Binding, x: Binding) {
    if x.state == Declined then prior.state == Declined
    else prior.state == Active && prior.client == x.client && prior.end >= x.end
  }

  lemma DecideHolds(m: Bucket, x: Binding, now: int)
    requires x.state == Active || x.state == Declined
    ensures var prior := Read(m, x.scope, x.address);
            match Decide(prior, x, now)
            case Refuse => true
            case Skip => x.end > now ==> Held(prior, now) && KeepsFor(prior, x)
            case Put(b) => b == x && x.end > now
  {
  }

  /** x is what importing l records. */
  predicate Records(c: Config, s: Scope, l: ImportedLease, x: Binding) {
    && x.scope == l.scope && x.address == l.address && x.client == ImportClient(s, l) && x.end == ImportEnd(l)
    && x.state == if IsMarker(c, s, l) then Declined else Active
  }

  lemma SkipHolds(c: Config, s: Scope, m: Bucket, l: ImportedLease, x: Binding, now: int)
    requires FindScope(c.scopes, l.scope) == Some(s) && Records(c, s, l, x) && ValidClient(x.client)
    requires Decide(Read(m, l.scope, l.address), x, now).Skip?
    ensures Keeper(c, now)(m, l)
  {
    DecideHolds(m, x, now);
  }

  lemma PutHolds(c: Config, s: Scope, m: Bucket, l: ImportedLease, x: Binding, now: int)
    requires FindScope(c.scopes, l.scope) == Some(s) && Records(c, s, l, x) && ValidClient(x.client) && x.end > now
    ensures Keeper(c, now)(m[KeyOf(x) := x], l)
  {
  }

  lemma StepDecides(c: Config, m: Bucket, l: ImportedLease, known: bool, now: int)
    requires !StepFor(c, m, l, known, now).Refuse?
    ensures var found, prior := FindScope(c.scopes, l.scope), Read(m, l.scope, l.address);
            && found.Some? && Importable(c, found.value, l)
            && var x := ImportRecord(c, found.value, l, prior, now);
               Records(c, found.value, l, x) && StepFor(c, m, l, known, now) == Decide(prior, x, now)
  {
    ImportRecordFor(c, FindScope(c.scopes, l.scope).value, l, Read(m, l.scope, l.address), now);
  }

  lemma StepTakesWell(c: Config, m: Bucket, l: ImportedLease, known: bool, now: int)
    requires ValidConfig(c) && Keyed(m) && Printable(c, l) && 0 <= now
    ensures TakesWell(Stepper(c, known, now), Exporter(c), Keeper(c, now), m, l, now)
  {
    match StepFor(c, m, l, known, now)
    case Refuse =>
    case Skip =>
      StepDecides(c, m, l, known, now);
      var s, prior := FindScope(c.scopes, l.scope).value, Read(m, l.scope, l.address);
      SkipHolds(c, s, m, l, ImportRecord(c, s, l, prior, now), now);
    case Put(b) =>
      StepDecides(c, m, l, known, now);
      var s, prior := FindScope(c.scopes, l.scope).value, Read(m, l.scope, l.address);
      DecideHolds(m, b, now);
      PutHolds(c, s, m, l, b, now);
      PutLawful(c, m, l, known, now);
      ReadKeyed(m, l.scope, l.address);
      ImportExportable(c, l, prior, now);
  }

  lemma KeeperRespected(c: Config, x: Bucket, y: Bucket, l: ImportedLease, now: int)
    requires AllRespected(x, y, now) && Keeper(c, now)(x, l)
    ensures Keeper(c, now)(y, l)
  {
    assert RespectedAt(x, y, Key(l.scope, l.address), now);
  }

  /** After an import of such leases every unexpired one is held, nothing that was held
      was taken, and whatever was written can be exported again. */
  lemma ImportHolds(c: Config, db: Database, doc: Document, now: int)
    requires ValidConfig(c) && Keyed(db.leases) && 0 <= now
    requires forall l <- doc.leases :: Printable(c, l)
    ensures var r := Imports(c, db, doc, now);
            r.Some? ==> && AllRespected(db.leases, r.value, now)
                        && AddsExportable(Exporter(c), db.leases, r.value)
                        && forall l <- doc.leases | ImportEnd(l) > now :: LeaseHeld(c, r.value, l, now)
  {
    var known := DuidKnown(db, doc);
    forall m, l | Keyed(m) && l in doc.leases
      ensures TakesWell(Stepper(c, known, now), Exporter(c), Keeper(c, now), m, l, now)
    {
      StepTakesWell(c, m, l, known, now);
    }
    forall x, y, l | AllRespected(x, y, now) && Keeper(c, now)(x, l) ensures Keeper(c, now)(y, l) {
      KeeperRespected(c, x, y, l, now);
    }
    ImportFold(Stepper(c, known, now), Exporter(c), Keeper(c, now), db.leases, doc.leases, now);
    if Imports(c, db, doc, now).Some? {
      forall l | l in doc.leases && ImportEnd(l) > now ensures LeaseHeld(c, Imports(c, db, doc, now).value, l, now) {
        assert Keeper(c, now)(Imports(c, db, doc, now).value, l);
      }
    }
  }

  // ---- Importing the same leases again ---------------------------------------------------------------

  /** What an import asks of a lease whatever the ledger has. */
  predicate Admissible(c: Config, known: bool, l: ImportedLease) {
    var found := FindScope(c.scopes, l.scope);
    found.Some? && Importable(c, found.value, l) && (l.duid == "" || known)
  }

  lemma {:induction false} AllAdmitted(step: (Bucket, ImportedLease) -> Step, admissible: ImportedLease -> bool,
                                       m: Bucket, leases: seq<ImportedLease>)
    requires forall x, l | !step(x, l).Refuse? :: admissible(l)
    requires ImportAll(step, m, leases).Some?
    ensures forall l <- leases :: admissible(l)
    decreases |leases|
  {
    if leases != [] {
      match step(m, leases[0])
      case Refuse =>
      case Skip => AllAdmitted(step, admissible, m, leases[1..]);
      case Put(b) => AllAdmitted(step, admissible, m[KeyOf(b) := b], leases[1..]);
    }
  }

  lemma ImportAdmits(c: Config, db: Database, doc: Document, now: int)
    requires Imports(c, db, doc, now).Some?
    ensures forall l <- doc.leases :: Admissible(c, DuidKnown(db, doc), l)
  {
    var known := DuidKnown(db, doc);
    AllAdmitted(Stepper(c, known, now), (l: ImportedLease) => Admissible(c, known, l), db.leases, doc.leases);
  }

  predicate SameAddress(a: ImportedLease, b: ImportedLease) {
    Key(a.scope, a.address) == Key(b.scope, b.address)
  }

  /** Two leases that can both be taken: at different addresses, or one of them over, or for
      the same client, or both quarantines. */
  predicate Agree(c: Config, now: int, a: ImportedLease, b: ImportedLease) {
    var s, t := FindScope(c.scopes, a.scope), FindScope(c.scopes, b.scope);
    s.Some? && t.Some? && SameAddress(a, b) && ImportEnd(a) > now && ImportEnd(b) > now ==>
      && (IsMarker(c, s.value, a) <==> IsMarker(c, t.value, b))
      && (!IsMarker(c, s.value, a) ==> ImportClient(s.value, a) == ImportClient(t.value, b))
  }

  /** The leases of an import that was accepted agree with one another. */
  lemma ImportAgrees(c: Config, db: Database, doc: Document, now: int)
    requires ValidConfig(c) && Keyed(db.leases) && 0 <= now
    requires (forall l <- doc.leases :: Printable(c, l)) && Imports(c, db, doc, now).Some?
    ensures forall a <- doc.leases, b <- doc.leases :: Agree(c, now, a, b)
  {
    ImportHolds(c, db, doc, now);
    var m := Imports(c, db, doc, now).value;
    forall a, b | a in doc.leases && b in doc.leases ensures Agree(c, now, a, b) {
      if ImportEnd(a) > now && ImportEnd(b) > now { assert LeaseHeld(c, m, a, now) && LeaseHeld(c, m, b, now); }
    }
  }

  /** The ledger has nothing live at a lease's address, or what the lease itself asks for. */
  predicate Welcomes(c: Config, now: int, m: Bucket, l: ImportedLease) {
    var found, x := FindScope(c.scopes, l.scope), Read(m, l.scope, l.address);
    found.Some? && ImportEnd(l) > now && Held(x, now) ==>
      if IsMarker(c, found.value, l) then x.state == Declined
      else x.state == Active && x.client == ImportClient(found.value, l)
  }

  lemma WelcomeTaken(c: Config, m: Bucket, l: ImportedLease, known: bool, now: int)
    requires Admissible(c, known, l) && Welcomes(c, now, m, l)
    ensures !StepFor(c, m, l, known, now).Refuse?
  {
    ImportRecordFor(c, FindScope(c.scopes, l.scope).value, l, Read(m, l.scope, l.address), now);
  }

  lemma PutWelcomes(c: Config, m: Bucket, a: ImportedLease, b: ImportedLease, known: bool, now: int)
    requires Admissible(c, known, a) && StepFor(c, m, a, known, now).Put? && Agree(c, now, a, b)
             && Welcomes(c, now, m, b)
    ensures var x := StepFor(c, m, a, known, now).binding; Welcomes(c, now, m[KeyOf(x) := x], b)
  {
    ImportRecordFor(c, FindScope(c.scopes, a.scope).value, a, Read(m, a.scope, a.address), now);
  }

  lemma {:induction false} AllTaken(step: (Bucket, ImportedLease) -> Step, welcomes: (Bucket, ImportedLease) -> bool,
                                    m: Bucket, leases: seq<ImportedLease>)
    requires forall x, l | l in leases && welcomes(x, l) :: !step(x, l).Refuse?
    requires forall x, a, b | a in leases && b in leases && welcomes(x, b) && step(x, a).Put? ::
               welcomes(x[KeyOf(step(x, a).binding) := step(x, a).binding], b)
    requires forall l <- leases :: welcomes(m, l)
    ensures ImportAll(step, m, leases).Some?
    decreases |leases|
  {
    if leases != [] {
      assert leases[0] in leases && welcomes(m, leases[0]);
      match step(m, leases[0])
      case Refuse =>
      case Skip => AllTaken(step, welcomes, m, leases[1..]);
      case Put(x) => AllTaken(step, welcomes, m[KeyOf(x) := x], leases[1..]);
    }
  }

  lemma AgreeLater(c: Config, t: int, now: int, a: ImportedLease, b: ImportedLease)
    requires Agree(c, t, a, b) && t <= now
    ensures Agree(c, now, a, b)
  {
  }

  lemma LeasesTaken(c: Config, m: Bucket, leases: seq<ImportedLease>, known: bool, now: int)
    requires forall l <- leases :: Admissible(c, known, l) && !Held(Read(m, l.scope, l.address), now)
    requires forall a <- leases, b <- leases :: Agree(c, now, a, b)
    ensures ImportAll(Stepper(c, known, now), m, leases).Some?
  {
    var step, welcomes := Stepper(c, known, now), (x: Bucket, l: ImportedLease) => Welcomes(c, now, x, l);
    forall x, l | l in leases && welcomes(x, l) ensures !step(x, l).Refuse? {
      WelcomeTaken(c, x, l, known, now);
    }
    forall x, a, b | a in leases && b in leases && welcomes(x, b) && step(x, a).Put?
      ensures welcomes(x[KeyOf(step(x, a).binding) := step(x, a).binding], b)
    {
      assert Agree(c, now, a, b);
      PutWelcomes(c, x, a, b, known, now);
    }
    AllTaken(step, welcomes, m, leases);
  }

  /** Once a document was imported, importing later, into any ledger, those of its leases
      whose addresses nobody holds is refused only for the server identity. */
  lemma ReimportExactly(c: Config, db0: Database, t0: int, doc: Document, db: Database, now: int)
    requires ValidConfig(c) && Keyed(db0.leases) && 0 <= t0 <= now
    requires (forall l <- doc.leases :: Printable(c, l)) && Imports(c, db0, doc, t0).Some?
    ensures var missing := Unheld(doc.leases, db.leases, now);
            Imports(c, db, doc.(leases := missing), now).Some? <==>
              && (doc.serverDuid != "" ==> Adoptable(c, db, doc.serverDuid))
              && (DuidKnown(db, doc) || forall l <- missing :: l.duid == "")
  {
    var missing, known := Unheld(doc.leases, db.leases, now), DuidKnown(db, doc);
    var again := doc.(leases := missing);
    if Imports(c, db, again, now).Some? { ImportAdmits(c, db, again, now); }
    if known || forall l <- missing :: l.duid == "" {
      ImportAdmits(c, db0, doc, t0);
      ImportAgrees(c, db0, doc, t0);
      forall a, b | a in missing && b in missing ensures Agree(c, now, a, b) {
        AgreeLater(c, t0, now, a, b);
      }
      LeasesTaken(c, db.leases, missing, known, now);
      FewUnheld(doc.leases, db.leases, now);
    }
  }

  lemma {:induction false} FewUnheld(leases: seq<ImportedLease>, m: Bucket, now: int)
    ensures |Unheld(leases, m, now)| <= |leases|
  {
    if leases != [] { FewUnheld(leases[..|leases| - 1], m, now); }
  }

  /** The server identity a document's import left is still the one. */
  predicate SameServer(db0: Database, doc: Document, duid: string) {
    && (doc.serverDuid != "" ==> duid == Lower(Strip(doc.serverDuid)))
    && (DuidKnown(db0, doc) ==> duid != "")
  }

  /** So, with the server identity kept, it is never refused. */
  lemma ReimportAccepted(c: Config, db0: Database, t0: int, doc: Document, db: Database, now: int)
    requires ValidConfig(c) && Keyed(db0.leases) && 0 <= t0 <= now
    requires (forall l <- doc.leases :: Printable(c, l)) && Imports(c, db0, doc, t0).Some?
    requires SameServer(db0, doc, db.serverDuid)
    ensures Imports(c, db, doc.(leases := Unheld(doc.leases, db.leases, now)), now).Some?
  {
    ReimportExactly(c, db0, t0, doc, db, now);
    ImportAdmits(c, db0, doc, t0);
  }

  // ---- The lease file ----------------------------------------------------------------------------------

  /** The bindings of the ledger as a snapshot at an instant shows them. */
  ghost predicate Lists(bs: seq<Binding>, m: Bucket, at: int) {
    forall b :: b in bs <==> exists k <- m :: b == View(m[k], at)
  }

  predicate CoveredAt(exportable: Binding -> bool, lease: Binding -> ImportedLease, leases: seq<ImportedLease>,
                      m: Bucket, k: string, now: int)
  {
    k in m && Held(m[k], now) && Exported(m[k]) && exportable(m[k]) ==> lease(m[k]) in leases
  }

  /** Whenever the file parses, it has a lease for every live binding that can be exported. */
  ghost predicate Covers(c: Config, file: string, m: Bucket, now: int) {
    var doc := ParseText(c, file);
    doc.Some? ==> forall k :: CoveredAt(Exporter(c), Leaser(c), doc.value.leases, m, k, now)
  }

  /** Exporting a ledger covers it, binding by binding: one that cannot be exported does not
      take another's line away. */
  lemma ExportCovers(c: Config, m: Bucket, duid: string, bs: seq<Binding>, at: int)
    requires ValidConfig(c) && Lists(bs, m, at) && ExportText(c, duid, bs).Some?
    ensures Covers(c, ExportText(c, duid, bs).value, m, at)
  {
    var doc := ParseText(c, ExportText(c, duid, bs).value);
    if doc.Some? {
      forall k ensures CoveredAt(Exporter(c), Leaser(c), doc.value.leases, m, k, at) {
        if k in m && Held(m[k], at) && Exported(m[k]) && Exportable(c, m[k]) {
          assert View(m[k], at) == m[k];
          ExportIncludes(c, duid, bs, m[k]);
        }
      }
    }
  }

  /** A ledger whose live bindings can all be exported is written, to a file that parses. */
  lemma ExportReadable(c: Config, m: Bucket, duid: string, bs: seq<Binding>, at: int)
    requires ValidConfig(c) && LowerHex(duid) && |duid| % 2 == 0
    requires Lists(bs, m, at) && AllExportable(Exporter(c), m, at)
    ensures ExportText(c, duid, bs).Some? && ParseText(c, ExportText(c, duid, bs).value).Some?
  {
    forall b | b in bs && Exported(b) ensures Exportable(c, b) {
      var k :| k in m && b == View(m[k], at);
      assert ExportableAt(Exporter(c), m, k, at);
    }
    ExportParsesBack(c, duid, bs);
  }

  /** Time passing, and delegations ending, leave a covered ledger covered. */
  lemma CoversLater(c: Config, file: string, m: Bucket, m': Bucket, pools: set<string>, at: int, now: int)
    requires Covers(c, file, m, at) && at <= now && forall k :: AbandonedAt(m, m', pools, k, at)
    ensures Covers(c, file, m', now)
  {
    var doc := ParseText(c, file);
    if doc.Some? {
      forall k ensures CoveredAt(Exporter(c), Leaser(c), doc.value.leases, m', k, now) {
        assert CoveredAt(Exporter(c), Leaser(c), doc.value.leases, m, k, at);
        assert AbandonedAt(m, m', pools, k, at);
      }
    }
  }

  // ---- The legacy's own leases ----------------------------------------------------------------------------

  function Unheld(leases: seq<ImportedLease>, m: Bucket, now: int): (r: seq<ImportedLease>)
    ensures forall l :: l in r <==> l in leases && !Held(Read(m, l.scope, l.address), now)
  {
    if leases == [] then []
    else
      var l := leases[|leases| - 1];
      Unheld(leases[..|leases| - 1], m, now) + if Held(Read(m, l.scope, l.address), now) then [] else [l]
  }

  /** An entry of the file gives a lease back: same address, same client, at least as long. */
  predicate Returns(c: Config, s: Scope, l: ImportedLease, e: ImportedLease) {
    && e.scope == l.scope && e.address == l.address && ImportEnd(e) >= ImportEnd(l)
    && ImportClient(s, e) == ImportClient(s, l) && !IsMarker(c, s, e)
  }

  ghost predicate Returned(c: Config, file: string, l: ImportedLease) {
    var doc, found := ParseText(c, file), FindScope(c.scopes, l.scope);
    doc.Some? && found.Some? && exists e <- doc.value.leases :: Returns(c, found.value, l, e)
  }

  /** A client's lease that the ledger holds in an exportable binding is in a file that
      covers the ledger and parses. */
  lemma HeldReturned(c: Config, file: string, m: Bucket, l: ImportedLease, at: int, now: int)
    requires ValidConfig(c) && Keyed(m) && ParsedLease(c, l) && 0 <= at <= now
    requires LeaseHeld(c, m, l, at) && Exportable(c, Read(m, l.scope, l.address))
    requires Covers(c, file, m, now) && ParseText(c, file).Some?
    requires ImportEnd(l) > now && !IsMarker(c, FindScope(c.scopes, l.scope).value, l)
    ensures Returned(c, file, l)
  {
    var s, x, k := FindScope(c.scopes, l.scope).value, Read(m, l.scope, l.address), Key(l.scope, l.address);
    ScopeFound(c, l);
    assert KeyedAt(m, k);
    KeyInjective(x.scope, x.address, l.scope, l.address);
    ValidNotNeighbor(x.client);
    assert Exported(x) by { assert PlainAddress(l.address); }
    assert CoveredAt(Exporter(c), Leaser(c), ParseText(c, file).value.leases, m, k, now);
    ClientReturns(c, s, x);
    if s.is6 { Marker6Returns(c, s, x); } else { Marker4Returns(c, s, x); }
    assert Returns(c, s, l, LeaseOf(c, x));
  }

  /** A lease of the snapshot that is to come back: a client's, unexpired, at an address
      nobody held when the rollback began. */
  predicate Due(c: Config, l: ImportedLease, m0: Bucket, t0: int, now: int) {
    var found := FindScope(c.scopes, l.scope);
    !Held(Read(m0, l.scope, l.address), t0) && ImportEnd(l) > now && !(found.Some? && IsMarker(c, found.value, l))
  }

  ghost predicate DueReturned(c: Config, snapshot: string, file: string, m0: Bucket, t0: int, now: int) {
    var doc := ParseText(c, snapshot);
    doc.Some? ==> forall l <- doc.value.leases | Due(c, l, m0, t0, now) :: Returned(c, file, l)
  }

  /** An entry of the file is the marker of a quarantine until its end. */
  predicate Marks(c: Config, s: Scope, x: Binding, e: ImportedLease) {
    e.scope == x.scope && e.address == x.address && IsMarker(c, s, e) && ImportEnd(e) == x.end
  }

  ghost predicate Marked(c: Config, file: string, x: Binding) {
    var doc, found := ParseText(c, file), FindScope(c.scopes, x.scope);
    doc.Some? && found.Some? && exists e <- doc.value.leases :: Marks(c, found.value, x, e)
  }

  /** A quarantine that can be exported comes back as a marker, with its end. */
  lemma QuarantineMarked(c: Config, file: string, m: Bucket, k: string, now: int)
    requires ValidConfig(c) && 0 <= now && k in m && Held(m[k], now) && m[k].state == Declined
    requires Exported(m[k]) && Exportable(c, m[k]) && Covers(c, file, m, now) && ParseText(c, file).Some?
    ensures Marked(c, file, m[k])
  {
    var x, s := m[k], ScopeOf(c.scopes, m[k].address).value;
    var i :| 0 <= i < |c.scopes| && c.scopes[i] == s;
    FindScopeSelf(c.scopes, i);
    assert CoveredAt(Exporter(c), Leaser(c), ParseText(c, file).value.leases, m, k, now);
    LeaseMarks(c, s, x);
  }

  lemma LeaseMarks(c: Config, s: Scope, x: Binding)
    requires ValidConfig(c) && Exportable(c, x) && x.state == Declined && 0 < x.end
    requires ScopeOf(c.scopes, x.address) == Some(s)
    ensures Marks(c, s, x, LeaseOf(c, x))
  {
    if s.is6 { Marker6Returns(c, s, x); } else { Marker4Returns(c, s, x); }
  }

  predicate QuarantinedAt(exportable: Binding -> bool, m: Bucket, k: string, now: int) {
    k in m && Held(m[k], now) && m[k].state == Declined && Exported(m[k]) && exportable(m[k])
  }

  ghost predicate QuarantinesMarked(c: Config, file: string, m: Bucket, now: int) {
    forall k | QuarantinedAt(Exporter(c), m, k, now) :: Marked(c, file, m[k])
  }

  /** A quarantine of the snapshot that is to come back: its address was held by nobody when
      the rollback began, and is quarantined still. */
  predicate DueMarker(c: Config, l: ImportedLease, m: Bucket, m0: Bucket, t0: int, now: int) {
    var found := FindScope(c.scopes, l.scope);
    && found.Some? && IsMarker(c, found.value, l) && ImportEnd(l) > t0
    && !Held(Read(m0, l.scope, l.address), t0) && Held(Read(m, l.scope, l.address), now)
  }

  ghost predicate MarkersReturned(c: Config, snapshot: string, file: string, m: Bucket, m0: Bucket, t0: int, now: int) {
    var doc := ParseText(c, snapshot);
    doc.Some? ==>
      forall l <- doc.value.leases | DueMarker(c, l, m, m0, t0, now) ::
        var x := Read(m, l.scope, l.address);
        x.scope == l.scope && x.address == l.address && x.state == Declined && Marked(c, file, x)
  }

  lemma MarkerReturned(c: Config, file: string, m0: Bucket, m: Bucket, l: ImportedLease, t0: int, now: int)
    requires ValidConfig(c) && Keyed(m) && ParsedLease(c, l) && 0 <= t0 <= now
    requires AddsExportable(Exporter(c), m0, m) && LeaseHeld(c, m, l, t0)
    requires DueMarker(c, l, m, m0, t0, now) && Covers(c, file, m, now) && ParseText(c, file).Some?
    ensures var x := Read(m, l.scope, l.address);
            x.scope == l.scope && x.address == l.address && x.state == Declined && Marked(c, file, x)
  {
    var x, k := Read(m, l.scope, l.address), Key(l.scope, l.address);
    DueExportable(c, m0, m, l, t0);
    assert KeyedAt(m, k);
    KeyInjective(x.scope, x.address, l.scope, l.address);
    MarkerHost(x);
    QuarantineMarked(c, file, m, k, now);
  }

  /** A quarantine that is well-formed at a host address is not a sighting's. */
  lemma MarkerHost(x: Binding)
    requires WellFormed(x) && ValidClient(x.client) && Live(x) && Free('/', x.address)
    ensures Exported(x)
  {
    ValidNotNeighbor(x.client);
  }

  /** What the legacy allocator finds when it is started after ghostd has served. If every
      live binding at the start of the rollback could be exported, every one now can, and
      the file parses. And whenever the file parses, in it a lease for every live binding
      that can be exported, a quarantine's as its marker, and one for every lease and every
      quarantine of the legacy's own snapshot that is due. */
  ghost predicate HandedBack(c: Config, snapshot: string, file: string, m: Bucket, m0: Bucket, t0: int, now: int) {
    && (AllExportable(Exporter(c), m0, t0) ==> AllExportable(Exporter(c), m, now) && ParseText(c, file).Some?)
    && Covers(c, file, m, now)
    && (ParseText(c, file).Some? ==>
          && DueReturned(c, snapshot, file, m0, t0, now) && QuarantinesMarked(c, file, m, now)
          && MarkersReturned(c, snapshot, file, m, m0, t0, now))
  }

  lemma HandedBackLater(c: Config, snapshot: string, file: string, m: Bucket, m': Bucket, pools: set<string>,
                        m0: Bucket, t0: int, at: int, now: int)
    requires HandedBack(c, snapshot, file, m, m0, t0, at) && at <= now && forall k :: AbandonedAt(m, m', pools, k, at)
    ensures HandedBack(c, snapshot, file, m', m0, t0, now)
  {
    CoversLater(c, file, m, m', pools, at, now);
    if AllExportable(Exporter(c), m, at) {
      forall k ensures ExportableAt(Exporter(c), m', k, now) {
        assert AbandonedAt(m, m', pools, k, at) && ExportableAt(Exporter(c), m, k, at);
      }
    }
    if ParseText(c, file).Some? { MarkedLater(c, snapshot, file, m, m', pools, m0, t0, at, now); }
  }

  lemma MarkedLater(c: Config, snapshot: string, file: string, m: Bucket, m': Bucket, pools: set<string>,
                    m0: Bucket, t0: int, at: int, now: int)
    requires QuarantinesMarked(c, file, m, at) && MarkersReturned(c, snapshot, file, m, m0, t0, at)
    requires at <= now && forall k :: AbandonedAt(m, m', pools, k, at)
    ensures QuarantinesMarked(c, file, m', now) && MarkersReturned(c, snapshot, file, m', m0, t0, now)
  {
    forall k | QuarantinedAt(Exporter(c), m', k, now) ensures Marked(c, file, m'[k]) {
      assert AbandonedAt(m, m', pools, k, at);
      assert QuarantinedAt(Exporter(c), m, k, at);
    }
    var doc := ParseText(c, snapshot);
    if doc.Some? {
      forall l | l in doc.value.leases && DueMarker(c, l, m', m0, t0, now)
        ensures Read(m', l.scope, l.address) == Read(m, l.scope, l.address) && DueMarker(c, l, m, m0, t0, at)
      {
        assert AbandonedAt(m, m', pools, Key(l.scope, l.address), at);
      }
    }
  }

  /** A lease nobody held is, once imported, held by a binding that can be exported. */
  lemma DueExportable(c: Config, m0: Bucket, m: Bucket, l: ImportedLease, t0: int)
    requires AddsExportable(Exporter(c), m0, m) && LeaseHeld(c, m, l, t0) && !Held(Read(m0, l.scope, l.address), t0)
    ensures Exportable(c, Read(m, l.scope, l.address))
  {
    assert AddedAt(Exporter(c), m0, m, Key(l.scope, l.address));
  }

  /** Importing the snapshot's leases that nobody holds, then exporting the ledger. */
  lemma ReimportHandsBack(c: Config, db: Database, snapshot: string, t0: int, duid: string, m: Bucket,
                          bs: seq<Binding>, at: int)
    requires ValidConfig(c) && Keyed(db.leases) && 0 <= t0 <= at && LowerHex(duid) && |duid| % 2 == 0
    requires ParseText(c, snapshot).Some?
    requires var doc := ParseText(c, snapshot).value;
             Imports(c, db, doc.(leases := Unheld(doc.leases, db.leases, t0)), t0) == Some(m)
    requires Keyed(m) && Lists(bs, m, at)
    requires ExportText(c, duid, bs).Some?
    ensures HandedBack(c, snapshot, ExportText(c, duid, bs).value, m, db.leases, t0, at)
  {
    var doc := ParseText(c, snapshot).value;
    var missing := doc.(leases := Unheld(doc.leases, db.leases, t0));
    var file := ExportText(c, duid, bs).value;
    TextParsed(c, snapshot);
    ImportHolds(c, db, missing, t0);
    ExportCovers(c, m, duid, bs, at);
    if AllExportable(Exporter(c), db.leases, t0) {
      AddsKeeps(Exporter(c), db.leases, m, t0);
      ExportableLater(Exporter(c), m, t0, at);
      ExportReadable(c, m, duid, bs, at);
    }
    if ParseText(c, file).Some? {
      forall l | l in doc.leases && Due(c, l, db.leases, t0, at) ensures Returned(c, file, l) {
        DueExportable(c, db.leases, m, l, t0);
        HeldReturned(c, file, m, l, t0, at);
      }
      forall k | QuarantinedAt(Exporter(c), m, k, at) ensures Marked(c, file, m[k]) {
        QuarantineMarked(c, file, m, k, at);
      }
      forall l | l in doc.leases && DueMarker(c, l, m, db.leases, t0, at)
        ensures var x := Read(m, l.scope, l.address);
                x.scope == l.scope && x.address == l.address && x.state == Declined && Marked(c, file, x)
      {
        MarkerReturned(c, file, db.leases, m, l, t0, at);
      }
    }
  }

  lemma ExportableLater(exportable: Binding -> bool, m: Bucket, at: int, now: int)
    requires AllExportable(exportable, m, at) && at <= now
    ensures AllExportable(exportable, m, now)
  {
    forall k ensures ExportableAt(exportable, m, k, now) {
      assert ExportableAt(exportable, m, k, at);
    }
  }

  // ---- The steps of an export --------------------------------------------------------------------------

  /** The leases whose address is not live. */
  method MissingLeases(leases: seq<ImportedLease>, m: Bucket, now: int) returns (missing: seq<ImportedLease>)
    ensures missing == Unheld(leases, m, now)
  {
    missing := [];
    for i := 0 to |leases|
      invariant missing == Unheld(leases[..i], m, now)
    {
      assert leases[..i + 1][..i] == leases[..i];
      if !Held(Read(m, leases[i].scope, leases[i].address), now) {
        missing := missing + [leases[i]];
      }
    }
    assert leases[..|leases|] == leases;
  }

  /** The current snapshot's bindings, in key order. */
  method ListBindings(m: Bucket, now: int) returns (bs: seq<Binding>)
    ensures Lists(bs, m, now)
  {
    var keys := Sorted(m.Keys);
    bs := [];
    for i := 0 to |keys|
      invariant forall b :: b in bs <==> exists j | 0 <= j < i :: keys[j] in m && b == View(m[keys[j]], now)
    {
      assert keys[i] in keys;
      bs := bs + [View(m[keys[i]], now)];
    }
    forall k | k in m ensures View(m[k], now) in bs {
      assert k in keys;
      var j :| 0 <= j < |keys| && keys[j] == k;
    }
    forall b | b in bs ensures exists k <- m :: b == View(m[k], now) {
      var j :| 0 <= j < |keys| && keys[j] in m && b == View(m[keys[j]], now);
    }
  }
}
