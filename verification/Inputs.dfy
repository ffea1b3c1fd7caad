/** Inputs at which what the code is for does not hold, run from an empty ledger by the
    operations themselves. */
module Inputs {
  import opened Strings
  import opened Bindings
  import opened Configs
  import opened Database
  import opened Allocation
  import opened LeaseText
  import opened LeaseFile
  import opened Import
  import opened Handback
  import opened Spelling

  // ---- A small network ---------------------------------------------------------------------------

  /** The same address in two spellings, the first canonical. */
  predicate TwoSpellings(a: string, b: string) {
    && a != b && PlainAddress(a) && PlainAddress(b) && |a| <= 100 && forall x <- a :: x as int > 32 && x as int < 127
  }

  lemma CapitalsSpell(a: string, b: string)
    requires a == "2001:db8::5" && b == "2001:DB8::5"
    ensures TwoSpellings(a, b)
  {
    assert a[5] == 'd' && b[5] == 'D';
  }

  function ParseHost(a: string, b: string): string -> Option<Addr> {
    (x: string) => if x == a || x == b then Some(Addr(a, true)) else None
  }

  function Zeros(n: nat): (r: string)
    ensures |r| == n && LowerHex(r)
  {
    if n == 0 then "" else "0" + Zeros(n - 1)
  }

  /** One IPv6 scope of one address. */
  function Lan(a: string, b: string, on: bool, reservations: seq<Reservation>): Scope {
    Scope("lan", true, "", "", [a], (x: string) => x == a || x == b, [], (x: string) => x == a, {}, 3600, 1800, on,
          reservations)
  }

  function Site(a: string, b: string, on: bool, reservations: seq<Reservation>): Config {
    Config([Lan(a, b, on, reservations)], [Device("printer", "printer", "", {}, {})], (x: string) => Zeros(64),
           ParseHost(a, b))
  }

  lemma SiteValid(a: string, b: string, on: bool, reservations: seq<Reservation>)
    requires TwoSpellings(a, b)
    requires forall r <- reservations :: r.device == "printer" && (r.address == a || r.address == b)
    ensures ValidConfig(Site(a, b, on, reservations))
  {
    var c, s := Site(a, b, on, reservations), Lan(a, b, on, reservations);
    assert c.devices[0].id == "printer" && c.devices[0] in c.devices;
    SiteParses(c, a, b);
    LanValid(c, a, b, on, reservations);
    forall x ensures |c.digest(x)| == 64 && LowerHex(c.digest(x)) {
      var z := Zeros(64);
    }
  }

  lemma SiteParses(c: Config, a: string, b: string)
    requires TwoSpellings(a, b) && c.parse == ParseHost(a, b)
    ensures forall x :: c.parse(x).Some? ==> PlainAddress(x) && CanonicalAddr(c, c.parse(x).value)
  {
    assert CanonicalAddr(c, Addr(a, true));
  }

  lemma LanValid(c: Config, a: string, b: string, on: bool, reservations: seq<Reservation>)
    requires TwoSpellings(a, b) && c.parse == ParseHost(a, b)
    requires forall r <- reservations :: r.address == a || r.address == b
    ensures var s := Lan(a, b, on, reservations); ValidScope(s) && OneFamily(c, s) && Addressed(c, s)
  {
  }

  const ClientA := "duid:0001/iaid:00000001"
  const ClientB := "duid:0002/iaid:00000001"

  lemma ClientsValid()
    ensures ValidClient(ClientA) && HasPrefix(ClientA, "duid:") && ValidClient(ClientB) && HasPrefix(ClientB, "duid:")
  {
    assert ClientA[..5] == "duid:" && ClientA[5..9] == "0001";
    assert ClientA[9..15] == "/iaid:" && ClientA[15..] == "00000001";
    assert ClientB[..5] == "duid:" && ClientB[5..9] == "0002";
    assert ClientB[9..15] == "/iaid:" && ClientB[15..] == "00000001";
  }

  function Asks(client: string, address: string): Request {
    Request(client, "", "", address, true)
  }

  // ---- One address, two holders ---------------------------------------------------------------------

  lemma EmptyGrants(c: Config, a: map<string, Association>, s: Scope, q: Request)
    requires Permitted(s, q, q.requested) && q.commit && q.requested != "" && 60 <= s.leaseSeconds
    ensures var r := Outcomes(c, map[], a, s, q, 0);
            && r.Written? && r.binding.scope == s.id && r.binding.address == q.requested && r.binding.client == q.client
            && Held(r.binding, 0) && Exported(r.binding)
  {
    GrantedLive(c, a, s, q, NoBinding, q.requested, 0);
    GrantedHeld(c, a, s, q, NoBinding, q.requested, 0);
  }

  lemma NoReservation(s: Scope, client: string, address: string)
    requires forall r <- s.reservations :: r.client == ClientA
    requires client == ClientB
    ensures ReservationFor(s, Asks(client, address)).None?
  {
    assert ClientA[8] == '1' && ClientB[8] == '2' && |ClientA| == 23 && |"mac:" + ""| == 4;
  }

  /** The answer of the site's one scope. */
  lemma SiteAnswers(a: string, b: string, rs: seq<Reservation>, m: Bucket, x: map<string, Association>, q: Request)
    requires q.mac == "" && ValidClient(q.client) && HasPrefix(q.client, "duid:")
    ensures var c := Site(a, b, true, rs); Answer(c, m, x, "lan", q, 0) == Outcomes(c, m, x, Lan(a, b, true, rs), q, 0)
  {
    var c := Site(a, b, true, rs);
    assert FindScope(c.scopes, "lan") == Some(c.scopes[0]);
  }

  /** A reservation in capitals: its client and another are each granted the address. */
  method SpelledReservation(a: string, b: string) returns (tx: Database, r1: Outcome, r2: Outcome)
    requires TwoSpellings(a, b)
    ensures var c := Site(a, b, true, [Reservation(ClientA, b, "printer")]);
            && ValidConfig(c) && Valid(tx) && r1.Written? && r2.Written? && r1.binding.client != r2.binding.client
            && tx.leases == map[KeyOf(r1.binding) := r1.binding, KeyOf(r2.binding) := r2.binding]
            && !NumbersApart(c, tx.leases, 0)
  {
    tx, r1 := FirstHolder(a, b);
    tx, r2 := SecondHolder(a, b, [Reservation(ClientA, b, "printer")], tx, KeyOf(r1.binding));
  }

  method FirstHolder(a: string, b: string) returns (tx: Database, r: Outcome)
    requires TwoSpellings(a, b)
    ensures Valid(tx) && r.Written? && tx.leases == map[KeyOf(r.binding) := r.binding]
    ensures r.binding.scope == "lan" && r.binding.address == b && r.binding.client == ClientA
    ensures Held(r.binding, 0) && Exported(r.binding)
  {
    var rs := [Reservation(ClientA, b, "printer")];
    var q := Asks(ClientA, b);
    SiteValid(a, b, true, rs);
    ClientsValid();
    NewValid();
    tx, r := Allocate(Site(a, b, true, rs), NewDatabase, "lan", q, 0);
    SiteAnswers(a, b, rs, map[], map[], q);
    assert Permitted(Lan(a, b, true, rs), q, b);
    EmptyGrants(Site(a, b, true, rs), map[], Lan(a, b, true, rs), q);
  }

  /** Another client asks for the canonical text of what is held in the other spelling. */
  method SecondHolder(a: string, b: string, rs: seq<Reservation>, tx: Database, ghost k: string)
    returns (tx': Database, r: Outcome)
    requires TwoSpellings(a, b) && Valid(tx) && forall x <- rs :: x == Reservation(ClientA, b, "printer")
    requires tx.leases.Keys == {k} && Lets(tx.leases, k, 0) && tx.leases[k].scope == "lan" && tx.leases[k].address == b
    ensures var c := Site(a, b, true, rs);
            && ValidConfig(c) && Valid(tx') && r.Written? && r.binding.client == ClientB
            && Read(tx.leases, r.binding.scope, r.binding.address) == NoBinding
            && tx'.leases == tx.leases[KeyOf(r.binding) := r.binding] && !NumbersApart(c, tx'.leases, 0)
  {
    var c, s, q := Site(a, b, true, rs), Lan(a, b, true, rs), Asks(ClientB, a);
    SiteValid(a, b, true, rs);
    ClientsValid();
    SiteAnswers(a, b, rs, tx.leases, tx.associations, q);
    tx', r := Allocate(c, tx, "lan", q, 0);
    NoReservation(s, ClientB, a);
    assert KeyedAt(tx.leases, k);
    NotThere(tx.leases, k, "lan", b, a);
    TwoHolders(c, tx.leases, tx.associations, s, k, q, 0);
    GrantedFor(c, tx.associations, s, q, NoBinding, a, 0);
  }

  lemma NotThere(m: Bucket, k: string, scope: string, b: string, a: string)
    requires m.Keys == {k} && k == Key(scope, b) && a != b && Free('/', scope)
    ensures Read(m, scope, a) == NoBinding
  {
    if Key(scope, a) == k { KeyInjective(scope, a, scope, b); }
  }

  /** An import in capitals, reservations being none: the imported client and another. */
  method SpelledImport(a: string, b: string, l: ImportedLease) returns (tx: Database, ok: bool, r: Outcome)
    requires TwoSpellings(a, b) && l.scope == "lan" && l.address == b && l.expiry == 100
    requires l.duid == "0001" && l.iaid == "00000001"
    ensures var c := Site(a, b, true, []);
            && ValidConfig(c) && Located(c) && Valid(tx) && ok && r.Written?
            && Key("lan", b) in tx.leases && tx.leases[Key("lan", b)].client == ClientA && r.binding.client == ClientB
            && !NumbersApart(c, tx.leases, 0)
  {
    LeaseClient(Lan(a, b, false, []), l);
    var db := Started("00030001");
    var one;
    one, ok := ImportOne(a, b, l, db);
    tx, r := SecondHolder(a, b, [], one, Key("lan", b));
    HolderStays(one.leases, Key("lan", b), r.binding);
  }

  method Started(duid: string) returns (db: Database)
    ensures Valid(db) && db.leases == map[] && db.serverDuid == duid
  {
    NewValid();
    db := NewDatabase.(serverDuid := duid);
  }

  /** A write for one client leaves what another holds. */
  lemma HolderStays(m: Bucket, k: string, x: Binding)
    requires Keyed(m) && k in m && Held(m[k], 0) && (Read(m, x.scope, x.address) == NoBinding)
    ensures k in m[KeyOf(x) := x] && m[KeyOf(x) := x][k] == m[k]
  {
  }

  method ImportOne(a: string, b: string, l: ImportedLease, db: Database) returns (tx: Database, ok: bool)
    requires TwoSpellings(a, b) && l.scope == "lan" && l.address == b && l.expiry == 100
    requires ImportClient(Lan(a, b, false, []), l) == ClientA && |Lower(Strip(l.duid))| < 36
    requires Valid(db) && db.leases == map[] && db.serverDuid != ""
    ensures Valid(tx) && ok && tx.leases.Keys == {Key("lan", b)}
    ensures var x := tx.leases[Key("lan", b)];
            x.scope == "lan" && x.address == b && x.client == ClientA && Held(x, 0) && Exported(x)
  {
    SiteValid(a, b, false, []);
    ClientsValid();
    var doc := Document([l], "");
    ImportedAlone(a, b, l, db, doc);
    tx, ok := ImportDocument(Site(a, b, false, []), db, doc, 0);
  }

  lemma ImportedAlone(a: string, b: string, l: ImportedLease, db: Database, doc: Document)
    requires TwoSpellings(a, b) && l.scope == "lan" && l.address == b && l.expiry == 100
    requires var s := Lan(a, b, false, []);
             ImportClient(s, l) == ClientA && ValidClient(ClientA) && |Lower(Strip(l.duid))| < 36
    requires db.leases == map[] && db.serverDuid != "" && doc == Document([l], "")
    ensures var r := Imports(Site(a, b, false, []), db, doc, 0);
            && r.Some? && r.value.Keys == {Key("lan", b)}
            && var x := r.value[Key("lan", b)];
               x.scope == "lan" && x.address == b && x.client == ClientA && Held(x, 0) && Exported(x)
  {
    var c, s := Site(a, b, false, []), Lan(a, b, false, []);
    SiteValid(a, b, false, []);
    ImportRecordFor(c, s, l, NoBinding, 0);
    assert FindScope(c.scopes, "lan") == Some(s);
    MarkerDuidHex(c, s.id, l.address);
    OneLease(Stepper(c, true, 0), l, ImportRecord(c, s, l, NoBinding, 0));
  }

  lemma OneLease(step: (Bucket, ImportedLease) -> Step, l: ImportedLease, x: Binding)
    requires step(map[], l) == Put(x)
    ensures ImportAll(step, map[], [l]) == Some(map[KeyOf(x) := x])
  {
    assert [l][1..] == [];
    assert map[][KeyOf(x) := x] == map[KeyOf(x) := x];
  }

  lemma LeaseClient(s: Scope, l: ImportedLease)
    requires s.is6 && l.duid == "0001" && l.iaid == "00000001"
    ensures ImportClient(s, l) == ClientA && |Lower(Strip(l.duid))| < 36
  {
    assert LowerHex(l.duid) && LowerHex(l.iaid);
    HexClient(s, l);
    ClientText(l.duid, l.iaid);
  }

  lemma HexClient(s: Scope, l: ImportedLease)
    requires s.is6 && LowerHex(l.duid) && LowerHex(l.iaid)
    ensures ImportClient(s, l) == "duid:" + l.duid + "/iaid:" + l.iaid && Lower(Strip(l.duid)) == l.duid
  {
    StripHex(l.duid);
    LowerHexLower(l.iaid);
  }

  lemma ClientText(duid: string, iaid: string)
    requires duid == "0001" && iaid == "00000001"
    ensures "duid:" + duid + "/iaid:" + iaid == ClientA
  {
  }

  // ---- An offer cut short ------------------------------------------------------------------------------

  /** An offer of thirty seconds, and the same client's own lease that has ten left: the
      import puts the lease over the offer. */
  lemma OfferShortened(a: string, b: string, l: ImportedLease, offer: Binding)
    requires TwoSpellings(a, b) && l.scope == "lan" && l.address == a && l.expiry == 10
    requires l.duid == "0001" && l.iaid == "00000001"
    requires WellFormed(offer) && offer.scope == "lan" && offer.address == a && offer.client == ClientA
    requires offer.state == Offered && offer.end == 30
    ensures var m := map[KeyOf(offer) := offer];
            && Keyed(m) && Held(offer, 0)
            && var r := StepFor(Site(a, b, false, []), m, l, true, 0); r.Put? && r.binding.end < offer.end
  {
    var m := map[KeyOf(offer) := offer];
    forall k ensures KeyedAt(m, k) {
    }
    ClientsValid();
    LeaseClient(Lan(a, b, false, []), l);
    PutOverOffer(a, b, l, offer, m);
  }

  lemma PutOverOffer(a: string, b: string, l: ImportedLease, offer: Binding, m: Bucket)
    requires TwoSpellings(a, b) && l.scope == "lan" && l.address == a && l.expiry == 10
    requires ImportClient(Lan(a, b, false, []), l) == offer.client && ValidClient(offer.client)
    requires |Lower(Strip(l.duid))| < 36 && Read(m, "lan", a) == offer && offer.state == Offered && offer.end == 30
    ensures var r := StepFor(Site(a, b, false, []), m, l, true, 0); r.Put? && r.binding.end < offer.end
  {
    var c, s := Site(a, b, false, []), Lan(a, b, false, []);
    SiteValid(a, b, false, []);
    ImportRecordFor(c, s, l, offer, 0);
    assert FindScope(c.scopes, "lan") == Some(s);
    MarkerDuidHex(c, s.id, l.address);
  }

  // ---- A second import refused ------------------------------------------------------------------------

  /** A snapshot with a server identity was imported; by the time it is to be imported again
      the ledger has another, and a DHCPv6 record under it. */
  method ReimportRefused(c: Config, doc: Document, other: string, x: Binding) returns (db0: Database, db: Database)
    requires ValidConfig(c) && !AnyEnabled(c) && doc.leases == []
    requires LowerHex(doc.serverDuid) && |doc.serverDuid| >= 4 && |doc.serverDuid| % 2 == 0
    requires other != "" && other != doc.serverDuid && WellFormed(x) && x.origin != Delegated && x.info.duid != ""
    ensures Valid(db0) && Imports(c, db0, doc, 0).Some?
    ensures Valid(db) && Imports(c, db, doc.(leases := Unheld(doc.leases, db.leases, 0)), 0).None?
  {
    StripHex(doc.serverDuid);
    db0 := Started("");
    db := Recorded(other, x);
    assert KeyOf(x) in db.leases && !Adoptable(c, db, doc.serverDuid);
    assert Adoptable(c, db0, doc.serverDuid);
  }

  method Recorded(duid: string, x: Binding) returns (db: Database)
    requires WellFormed(x) && x.origin != Delegated
    ensures Valid(db) && db.serverDuid == duid && KeyOf(x) in db.leases && db.leases[KeyOf(x)] == x
  {
    db := Started(duid);
    assert Lawful(db.leases, x, 0);
    db := Save(db, x, "grant", 0);
  }
}
