/** Addresses as numbers and as texts. The ledger is keyed by texts, and so is ownership: it is
    ownership of addresses as long as every text is the canonical one
    (internal/addressbook/allocate.go, allowed, and store.go, bindingKey). */
module Spelling {
  import opened Strings
  import opened Bindings
  import opened Configs
  import opened Database
  import opened Allocation
  import opened LeaseFile
  import opened Delegation
  import opened Sweep
  import opened Import
  import opened Identity

  /** Reservations are written canonically, which validation does not ask: an IPv6 address
      may be given with capitals or leading zeros. */
  ghost predicate Located(c: Config) {
    forall s <- c.scopes :: ReservedAsSpelled(c, s)
  }

  ghost predicate ReservedAsSpelled(c: Config, s: Scope) {
    forall r <- s.reservations :: Spelled(c, r.address)
  }

  /** What a request asks for is spelled canonically. */
  predicate AsksSpelled(c: Config, q: Request) {
    c.parse(q.requested).Some? ==> c.parse(q.requested).value.text == q.requested
  }

  predicate LeaseSpelled(c: Config, l: ImportedLease) {
    c.parse(l.address).Some? ==> c.parse(l.address).value.text == l.address
  }

  /** An address of a scope's subnet. */
  predicate InNet(c: Config, scope: string, address: string) {
    var found := FindScope(c.scopes, scope);
    found.Some? && found.value.contains(address)
  }

  predicate SpelledIn(c: Config, b: Binding) {
    Spelled(c, b.address) && InNet(c, b.scope, b.address)
  }

  predicate SpelledAt(c: Config, m: Bucket, k: string, now: int) {
    k in m && Held(m[k], now) && Exported(m[k]) ==> SpelledIn(c, m[k])
  }

  /** Every held lease is spelled canonically, and of its scope's subnet. */
  ghost predicate AllSpelled(c: Config, m: Bucket, now: int) {
    forall k :: SpelledAt(c, m, k, now)
  }

  /** Two configurations with the same subnets; pools, reservations and which scopes are on
      may differ. */
  ghost predicate SameNets(c: Config, d: Config) {
    c.parse == d.parse && forall scope, x :: InNet(c, scope, x) <==> InNet(d, scope, x)
  }

  lemma SpelledElsewhere(c: Config, d: Config, m: Bucket, now: int)
    requires SameNets(c, d) && AllSpelled(c, m, now)
    ensures AllSpelled(d, m, now)
  {
    forall k ensures SpelledAt(d, m, k, now) {
      assert SpelledAt(c, m, k, now);
    }
  }

  // ---- One address, one holder -----------------------------------------------------------------

  lemma OneNet(c: Config, scope: string, scope': string, x: string)
    requires ValidConfig(c) && InNet(c, scope, x) && InNet(c, scope', x)
    ensures scope == scope'
  {
    var s, t := FindScope(c.scopes, scope).value, FindScope(c.scopes, scope').value;
    var i :| 0 <= i < |c.scopes| && c.scopes[i] == s;
    var j :| 0 <= j < |c.scopes| && c.scopes[j] == t;
    forall p, q | 0 <= p < q < |c.scopes| ensures !(c.scopes[p].contains(x) && c.scopes[q].contains(x)) {
      assert Separate(c.scopes[p], c.scopes[q]);
    }
  }

  predicate Lets(m: Bucket, k: string, now: int) {
    k in m && Held(m[k], now) && Exported(m[k])
  }

  predicate SameNumber(c: Config, a: string, b: string) {
    c.parse(a).Some? && c.parse(a) == c.parse(b)
  }

  predicate ApartAt(c: Config, m: Bucket, j: string, k: string, now: int) {
    Lets(m, j, now) && Lets(m, k, now) && SameNumber(c, m[j].address, m[k].address) ==> j == k
  }

  /** No address, as a number, has two holders. */
  ghost predicate NumbersApart(c: Config, m: Bucket, now: int) {
    forall j, k :: ApartAt(c, m, j, k, now)
  }

  lemma SpelledApart(c: Config, m: Bucket, now: int)
    requires ValidConfig(c) && Keyed(m) && AllSpelled(c, m, now)
    ensures NumbersApart(c, m, now)
  {
    forall j, k ensures ApartAt(c, m, j, k, now) {
      assert SpelledAt(c, m, j, now) && SpelledAt(c, m, k, now) && KeyedAt(m, j) && KeyedAt(m, k);
      if Lets(m, j, now) && Lets(m, k, now) && SameNumber(c, m[j].address, m[k].address) {
        OneNet(c, m[j].scope, m[k].scope, m[j].address);
      }
    }
  }

  /** A canonical address in the scope's own subnet and no other. */
  ghost predicate PlacedIn(c: Config, s: Scope, address: string) {
    && c.parse(address) == Some(Addr(address, s.is6))
    && var found := ScopeOf(c.scopes, address);
       found.Some? && found.value.id == s.id && found.value.is6 == s.is6
  }

  /** A canonical address of a scope is in that scope alone. */
  lemma SpelledPlaced(c: Config, s: Scope, ip: string)
    requires ValidConfig(c) && s in c.scopes && Spelled(c, ip) && s.contains(ip)
    ensures PlacedIn(c, s, ip)
  {
    var i :| 0 <= i < |c.scopes| && c.scopes[i] == s;
    assert OneFamily(c, s);
    ScopeOfAlone(c.scopes, i, ip);
  }

  lemma {:induction false} ScopeOfAlone(scopes: seq<Scope>, i: nat, ip: string)
    requires i < |scopes| && scopes[i].contains(ip)
    requires forall j, k | 0 <= j < k < |scopes| :: Separate(scopes[j], scopes[k])
    ensures ScopeOf(scopes, ip) == Some(scopes[i])
  {
    if i == 0 {
      forall j | 1 <= j < |scopes| ensures !scopes[j].contains(ip) {
        assert Separate(scopes[0], scopes[j]);
      }
    } else {
      assert Separate(scopes[0], scopes[i]);
      ScopeOfAlone(scopes[1..], i - 1, ip);
    }
  }

  // ---- What is chosen is spelled ------------------------------------------------------------------

  lemma PermittedOf(c: Config, s: Scope, q: Request, ip: string)
    requires ValidConfig(c) && s in c.scopes && Permitted(s, q, ip)
    ensures c.parse(ip).Some? && s.contains(c.parse(ip).value.text)
  {
    assert Addressed(c, s);
    match ReservationFor(s, q)
    case Some(r) => assert r in s.reservations;
    case None => assert s.spans(ip);
  }

  lemma OwnSpelled(c: Config, m: Bucket, s: Scope, q: Request, now: int, ip: string)
    requires Keyed(m) && AllSpelled(c, m, now) && ValidClient(q.client) && ip in Mine(m, s, q, now)
    ensures Spelled(c, ip)
  {
    var k :| k in m && OwnAddress(m[k], s, q, now) && m[k].address == ip;
    ValidNotNeighbor(q.client);
    assert KeyedAt(m, k) && SpelledAt(c, m, k, now);
  }

  /** Of a canonical request, canonical reservations and a ledger spelled canonically, the
      choice is. */
  lemma ChoiceSpelled(c: Config, m: Bucket, s: Scope, q: Request, now: int)
    requires ValidConfig(c) && s in c.scopes && ReservedAsSpelled(c, s) && AsksSpelled(c, q) && ValidClient(q.client)
    requires Keyed(m) && AllSpelled(c, m, now) && Choice(m, s, q, now).Some?
    ensures var ip := Choice(m, s, q, now).value; Spelled(c, ip) && s.contains(ip)
  {
    var ip, w := Choice(m, s, q, now).value, Wish(m, s, q, now);
    ChoiceAvailable(m, s, q, now);
    PermittedOf(c, s, q, ip);
    assert Addressed(c, s);
    if !q.commit && ReservationFor(s, q).None? && Mine(m, s, q, now) != {} { OwnSpelled(c, m, s, q, now, w); }
  }

  // ---- Every write keeps it ------------------------------------------------------------------------

  lemma WriteSpelled(c: Config, m: Bucket, b: Binding, now: int)
    requires AllSpelled(c, m, now) && (Held(b, now) && Exported(b) ==> SpelledIn(c, b))
    ensures AllSpelled(c, m[KeyOf(b) := b], now)
  {
    var m' := m[KeyOf(b) := b];
    forall k ensures SpelledAt(c, m', k, now) {
      assert SpelledAt(c, m, k, now);
    }
  }

  lemma AllocateSpelled(c: Config, m: Bucket, a: map<string, Association>, s: Scope, q: Request, now: int)
    requires ValidConfig(c) && Located(c) && s in c.scopes && Serves(s, q) && AsksSpelled(c, q)
    requires Keyed(m) && AllSpelled(c, m, now)
    ensures var r := Outcomes(c, m, a, s, q, now);
            r.Written? ==> AllSpelled(c, m[KeyOf(r.binding) := r.binding], now)
  {
    var r := Outcomes(c, m, a, s, q, now);
    if r.Written? {
      var ip := Choice(m, s, q, now).value;
      ChoiceSpelled(c, m, s, q, now);
      GrantedFor(c, a, s, q, Read(m, s.id, ip), ip, now);
      var i :| 0 <= i < |c.scopes| && c.scopes[i] == s;
      FindScopeSelf(c.scopes, i);
      WriteSpelled(c, m, r.binding, now);
    }
  }

  lemma ReleaseSpelled(c: Config, m: Bucket, scope: string, client: string, ip: string, decline: bool, now: int)
    requires Keyed(m) && AllSpelled(c, m, now) && Releasable(Read(m, scope, ip), client, now)
    ensures var b := Ended(Read(m, scope, ip), decline, now); AllSpelled(c, m[KeyOf(b) := b], now)
  {
    var b := Read(m, scope, ip);
    ReadKeyed(m, scope, ip);
    assert SpelledAt(c, m, Key(scope, ip), now);
    WriteSpelled(c, m, Ended(b, decline, now), now);
  }

  lemma AttributionSpelled(c: Config, m: Bucket, m': Bucket, now: int)
    requires Keyed(m') && OwnersKept(m, m', now) && AllSpelled(c, m, now)
    ensures AllSpelled(c, m', now)
  {
    forall k ensures SpelledAt(c, m', k, now) {
      assert OwnerKeptAt(m, m', k, now) && SpelledAt(c, m, k, now) && KeyedAt(m', k);
    }
  }

  lemma SweepSpelled(c: Config, m: Bucket, m': Bucket, now: int)
    requires SweptFrom(m, m', now) && AllSpelled(c, m, now)
    ensures AllSpelled(c, m', now)
  {
    forall k ensures SpelledAt(c, m', k, now) {
      assert SweptAt(m, m', k, now) && SpelledAt(c, m, k, now);
    }
  }

  lemma AbandonSpelled(c: Config, m: Bucket, m': Bucket, pools: set<string>, now: int)
    requires (forall k :: AbandonedAt(m, m', pools, k, now)) && AllSpelled(c, m, now)
    ensures AllSpelled(c, m', now)
  {
    forall k ensures SpelledAt(c, m', k, now) {
      assert AbandonedAt(m, m', pools, k, now) && SpelledAt(c, m, k, now);
    }
  }

  lemma SpelledLater(c: Config, m: Bucket, at: int, now: int)
    requires AllSpelled(c, m, at) && at <= now
    ensures AllSpelled(c, m, now)
  {
    forall k ensures SpelledAt(c, m, k, now) {
      assert SpelledAt(c, m, k, at);
    }
  }

  // ---- Imports ---------------------------------------------------------------------------------------

  lemma StepSpelled(c: Config, m: Bucket, l: ImportedLease, known: bool, now: int)
    requires LeaseSpelled(c, l) && StepFor(c, m, l, known, now).Put?
    ensures SpelledIn(c, StepFor(c, m, l, known, now).binding)
  {
    ImportRecordFor(c, FindScope(c.scopes, l.scope).value, l, Read(m, l.scope, l.address), now);
  }

  lemma {:induction false} ImportAllSpelled(c: Config, step: (Bucket, ImportedLease) -> Step, m: Bucket,
                                            leases: seq<ImportedLease>, now: int)
    requires forall x, l | l in leases && step(x, l).Put? :: SpelledIn(c, step(x, l).binding)
    requires AllSpelled(c, m, now)
    ensures var r := ImportAll(step, m, leases); r.Some? ==> AllSpelled(c, r.value, now)
    decreases |leases|
  {
    if leases != [] {
      match step(m, leases[0])
      case Refuse =>
      case Skip => ImportAllSpelled(c, step, m, leases[1..], now);
      case Put(b) =>
        WriteSpelled(c, m, b, now);
        ImportAllSpelled(c, step, m[KeyOf(b) := b], leases[1..], now);
    }
  }

  lemma ImportSpelled(c: Config, db: Database, doc: Document, now: int)
    requires (forall l <- doc.leases :: LeaseSpelled(c, l)) && AllSpelled(c, db.leases, now)
    ensures var r := Imports(c, db, doc, now); r.Some? ==> AllSpelled(c, r.value, now)
  {
    var known := DuidKnown(db, doc);
    forall m, l | l in doc.leases && Stepper(c, known, now)(m, l).Put?
      ensures SpelledIn(c, Stepper(c, known, now)(m, l).binding)
    {
      StepSpelled(c, m, l, known, now);
    }
    ImportAllSpelled(c, Stepper(c, known, now), db.leases, doc.leases, now);
  }

  // ---- One address, two holders ---------------------------------------------------------------------

  /** A reservation keeps its address from a client that has none exactly if it is spelled
      canonically. */
  lemma ReservedExactly(c: Config, s: Scope, r: Reservation, q: Request)
    requires ValidConfig(c) && s in c.scopes && r in s.reservations && ReservationFor(s, q).None?
    requires var t := c.parse(r.address).value.text;
             t in s.pool && t != s.server && t != s.router && forall x <- s.reservations | x != r :: x.address != t
    ensures Permitted(s, q, c.parse(r.address).value.text) <==> !Spelled(c, r.address)
  {
    assert Addressed(c, s) && ValidScope(s);
  }

  /** Whatever is held in another spelling, by a reservation, an import or a request: while
      nobody holds the canonical text, a client that is permitted to have it is given it,
      and the address has two holders. */
  lemma TwoHolders(c: Config, m: Bucket, a: map<string, Association>, s: Scope, k: string, q: Request, now: int)
    requires ValidConfig(c) && s in c.scopes && Keyed(m) && 0 <= now
    requires Lets(m, k, now) && c.parse(m[k].address).Some? && !Spelled(c, m[k].address)
    requires q.commit && q.requested == c.parse(m[k].address).value.text
    requires Permitted(s, q, q.requested) && !Held(Read(m, s.id, q.requested), now)
    ensures var r := Outcomes(c, m, a, s, q, now);
            && r.Written? && r.binding.address == q.requested && r.binding.client == q.client
            && var m' := m[KeyOf(r.binding) := r.binding]; Lets(m', k, now) && !NumbersApart(c, m', now)
  {
    var t := q.requested;
    PermittedPlain(s, q, t);
    assert CanonicalAddr(c, c.parse(m[k].address).value);
    var b := Granted(c, a, s, q, Read(m, s.id, t), t, now);
    GrantedLive(c, a, s, q, Read(m, s.id, t), t, now);
    GrantedHeld(c, a, s, q, Read(m, s.id, t), t, now);
    var m' := m[KeyOf(b) := b];
    assert KeyedAt(m, k);
    ReadKeyed(m, s.id, t);
    assert ValidScope(s);
    assert !ApartAt(c, m', k, KeyOf(b), now);
  }

  lemma GrantedHeld(c: Config, a: map<string, Association>, s: Scope, q: Request, prior: Binding, ip: string, now: int)
    requires 60 <= s.leaseSeconds
    ensures var b := Granted(c, a, s, q, prior, ip, now); b.end > now && Exported(b)
  {
    IdentifiedKeeps(c, a, s, q, prior, now, Fresh(c, s, q, ip, now));
  }
}
