/** What the ledger's own operations write can be exported: the premise of a rollback
    (internal/addressbook/allocate.go and dnsmasq.go). */
module Exportability {
  import opened Strings
  import opened Bindings
  import opened Configs
  import opened Database
  import opened LeaseText
  import opened LeaseFile
  import opened Allocation
  import opened Delegation
  import opened Sweep
  import opened Identity
  import opened Handback
  import opened Spelling

  /** A request of a real client: its hardware identity is its own, and nobody's is the
      quarantine's. */
  ghost predicate Genuine(c: Config, s: Scope, q: Request) {
    if s.is6 then DuidClient(q.client) && forall ip :: DuidOf(q.client) != MarkerDuid(c, s.id, ip)
    else q.mac != MarkerMac && (HasPrefix(q.client, "mac:") ==> q.client == "mac:" + q.mac)
  }

  /** Ends that fit the lease file's numbers. */
  predicate InTime(s: Scope, now: int) {
    0 <= now && now + s.leaseSeconds <= MaxInt64 && now + 600 <= MaxInt64
  }

  lemma GrantedIds(c: Config, a: map<string, Association>, s: Scope, q: Request, prior: Binding, ip: string, now: int)
    ensures var b, f := Granted(c, a, s, q, prior, ip, now), Fresh(c, s, q, ip, now);
            && b.scope == s.id && b.address == ip && b.client == q.client && b.mac == q.mac && b.state != Declined
            && b.info.duid == f.info.duid && b.info.iaid == f.info.iaid
            && (b.end == now + 30 || b.end == now + s.leaseSeconds)
  {
    var f := Fresh(c, s, q, ip, now);
    IdentifiedKeeps(c, a, s, q, prior, now, f);
    IdentifiedIds(c, a, s, q, prior, now, f);
  }

  lemma IdentifiedIds(c: Config, a: map<string, Association>, s: Scope, q: Request, prior: Binding, now: int,
                      base: Binding)
    ensures var b := Identified(c, a, s, q, prior, now, base);
            b.info.duid == base.info.duid && b.info.iaid == base.info.iaid
  {
  }

  lemma GrantedIaid(c: Config, a: map<string, Association>, s: Scope, q: Request, prior: Binding, ip: string, now: int)
    requires s.is6 && DuidClient(q.client)
    ensures var b := Granted(c, a, s, q, prior, ip, now); b.info.duid == DuidOf(q.client) && Iaid(b) == IaidOf(q.client)
  {
    GrantedIds(c, a, s, q, prior, ip, now);
    LowerHexLower(IaidOf(q.client));
  }

  /** What Allocate grants can be exported exactly when the address is written canonically
      and is in no other scope. */
  lemma GrantExportable(c: Config, a: map<string, Association>, s: Scope, q: Request, prior: Binding, ip: string,
                        now: int)
    requires ValidConfig(c) && s in c.scopes && Serves(s, q) && Permitted(s, q, ip)
    requires Genuine(c, s, q) && InTime(s, now)
    requires (prior == NoBinding || WellFormed(prior)) && forall x <- a :: Label(a[x].name)
    ensures Exportable(c, Granted(c, a, s, q, prior, ip, now)) <==> PlacedIn(c, s, ip)
  {
    assert ValidScope(s);
    PermittedPlain(s, q, ip);
    GrantedWellFormed(c, a, s, q, prior, ip, now);
    GrantedIds(c, a, s, q, prior, ip, now);
    if s.is6 { GrantedIaid(c, a, s, q, prior, ip, now); }
    if PlacedIn(c, s, ip) {
      SpelledToken(c, ip);
    }
    if Exportable(c, Granted(c, a, s, q, prior, ip, now)) { SameId(c, s, ScopeOf(c.scopes, ip).value); }
  }

  lemma SameId(c: Config, s: Scope, t: Scope)
    requires ValidConfig(c) && s in c.scopes && t in c.scopes && s.id == t.id
    ensures s == t
  {
    var i :| 0 <= i < |c.scopes| && c.scopes[i] == s;
    var j :| 0 <= j < |c.scopes| && c.scopes[j] == t;
    FindScopeSelf(c.scopes, i);
    FindScopeSelf(c.scopes, j);
  }

  /** One write that can be exported, or that the lease file does not carry. */
  lemma WriteExportable(c: Config, m: Bucket, b: Binding, now: int)
    requires AllExportable(Exporter(c), m, now)
    requires Held(b, now) && Exported(b) ==> Exportable(c, b)
    ensures AllExportable(Exporter(c), m[KeyOf(b) := b], now)
  {
    var m' := m[KeyOf(b) := b];
    forall k ensures ExportableAt(Exporter(c), m', k, now) {
      assert ExportableAt(Exporter(c), m, k, now);
    }
  }

  /** What can be exported is spelled canonically. */
  lemma ExportableSpelled(c: Config, m: Bucket, now: int)
    requires ValidConfig(c) && AllExportable(Exporter(c), m, now)
    ensures AllSpelled(c, m, now)
  {
    forall k ensures SpelledAt(c, m, k, now) {
      assert ExportableAt(Exporter(c), m, k, now);
      if k in m && Held(m[k], now) && Exported(m[k]) {
        var s := ScopeOf(c.scopes, m[k].address).value;
        var i :| 0 <= i < |c.scopes| && c.scopes[i] == s;
        FindScopeSelf(c.scopes, i);
      }
    }
  }

  lemma AllocateExportable(c: Config, m: Bucket, a: map<string, Association>, s: Scope, q: Request, now: int)
    requires ValidConfig(c) && Located(c) && s in c.scopes && Serves(s, q) && Genuine(c, s, q) && InTime(s, now)
    requires AsksSpelled(c, q) && Keyed(m) && (forall x <- a :: Label(a[x].name)) && AllExportable(Exporter(c), m, now)
    ensures var r := Outcomes(c, m, a, s, q, now);
            r.Written? ==> AllExportable(Exporter(c), m[KeyOf(r.binding) := r.binding], now)
  {
    var r := Outcomes(c, m, a, s, q, now);
    if r.Written? {
      var ip := Choice(m, s, q, now).value;
      ChoiceAvailable(m, s, q, now);
      ReadKeyed(m, s.id, ip);
      ExportableSpelled(c, m, now);
      ChoiceSpelled(c, m, s, q, now);
      SpelledPlaced(c, s, ip);
      GrantExportable(c, a, s, q, Read(m, s.id, ip), ip, now);
      WriteExportable(c, m, r.binding, now);
    }
  }

  /** A declined address stays exportable, as a quarantine. */
  lemma ReleaseExportable(c: Config, m: Bucket, scope: string, client: string, ip: string, decline: bool, now: int)
    requires Keyed(m) && AllExportable(Exporter(c), m, now) && 0 <= now && now + 600 <= MaxInt64
    requires Releasable(Read(m, scope, ip), client, now)
    ensures var b := Ended(Read(m, scope, ip), decline, now); AllExportable(Exporter(c), m[KeyOf(b) := b], now)
  {
    var b := Read(m, scope, ip);
    ReadKeyed(m, scope, ip);
    assert ExportableAt(Exporter(c), m, Key(scope, ip), now);
    WriteExportable(c, m, Ended(b, decline, now), now);
  }

  /** Attribution does not touch what an export prints of a holding. */
  lemma AttributionExportable(c: Config, m: Bucket, m': Bucket, now: int)
    requires Keyed(m') && OwnersKept(m, m', now) && AllExportable(Exporter(c), m, now)
    ensures AllExportable(Exporter(c), m', now)
  {
    forall k ensures ExportableAt(Exporter(c), m', k, now) {
      assert OwnerKeptAt(m, m', k, now) && ExportableAt(Exporter(c), m, k, now) && KeyedAt(m', k);
    }
  }

  lemma SweepExportable(c: Config, m: Bucket, m': Bucket, now: int)
    requires SweptFrom(m, m', now) && AllExportable(Exporter(c), m, now)
    ensures AllExportable(Exporter(c), m', now)
  {
    forall k ensures ExportableAt(Exporter(c), m', k, now) {
      assert SweptAt(m, m', k, now) && ExportableAt(Exporter(c), m, k, now);
    }
  }

  lemma AbandonExportable(c: Config, m: Bucket, m': Bucket, pools: set<string>, now: int)
    requires (forall k :: AbandonedAt(m, m', pools, k, now)) && AllExportable(Exporter(c), m, now)
    ensures AllExportable(Exporter(c), m', now)
  {
    forall k ensures ExportableAt(Exporter(c), m', k, now) {
      assert AbandonedAt(m, m', pools, k, now) && ExportableAt(Exporter(c), m, k, now);
    }
  }

  // ---- None of this depends on which scopes are on -----------------------------------------------

  /** Two configurations that differ only in which scopes are on. */
  ghost predicate Alike(c: Config, d: Config) {
    Disabled(c) == Disabled(d)
  }

  lemma ExportableOff(c: Config, b: Binding)
    ensures Exportable(Disabled(c), b) <==> Exportable(c, b)
  {
    ScopeOfOff(c.scopes, b.address);
  }

  lemma AllExportableOff(c: Config, m: Bucket, now: int)
    ensures AllExportable(Exporter(Disabled(c)), m, now) <==> AllExportable(Exporter(c), m, now)
  {
    forall k ensures ExportableAt(Exporter(Disabled(c)), m, k, now) <==> ExportableAt(Exporter(c), m, k, now) {
      if k in m { ExportableOff(c, m[k]); }
    }
  }

  lemma LocatedOff(c: Config)
    ensures Located(Disabled(c)) <==> Located(c)
  {
    forall i | 0 <= i < |c.scopes|
      ensures ReservedAsSpelled(Disabled(c), Off(c.scopes)[i]) <==> ReservedAsSpelled(c, c.scopes[i])
    {
    }
    forall i | 0 <= i < |c.scopes| ensures Off(c.scopes)[i] in Off(c.scopes) && c.scopes[i] in c.scopes {
    }
  }

  /** The lease file's numbers have room for every end the configuration can set. */
  ghost predicate Roomy(c: Config, now: int) {
    0 <= now && now + 600 <= MaxInt64 && forall s <- c.scopes :: now + s.leaseSeconds <= MaxInt64
  }

  lemma RoomyOff(c: Config, now: int)
    ensures Roomy(Disabled(c), now) <==> Roomy(c, now)
  {
    forall i | 0 <= i < |c.scopes|
      ensures Off(c.scopes)[i] == c.scopes[i].(enabled := false) && Off(c.scopes)[i] in Off(c.scopes)
    {
    }
  }

  lemma ExportableAlike(c: Config, d: Config, m: Bucket, now: int)
    requires Alike(c, d)
    ensures AllExportable(Exporter(c), m, now) <==> AllExportable(Exporter(d), m, now)
  {
    AllExportableOff(c, m, now);
    AllExportableOff(d, m, now);
  }

  lemma SettledAlike(c: Config, d: Config, now: int)
    requires Alike(c, d)
    ensures Located(c) && Roomy(c, now) <==> Located(d) && Roomy(d, now)
  {
    LocatedOff(c);
    LocatedOff(d);
    RoomyOff(c, now);
    RoomyOff(d, now);
  }
}
