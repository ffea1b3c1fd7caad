/** Address allocation (internal/addressbook/allocate.go, Allocate and Release). */
module Allocation {
  import opened Strings
  import opened Bindings
  import opened Configs
  import opened Database
  import opened Lookups

  /** A discover (commit false) or a request (commit true). */
  datatype Request = Request(client: string, mac: string, claimed: string, requested: string, commit: bool)

  datatype Outcome =
    | Rejected                               // not a request this authority serves
    | Unavailable                            // policy or occupation
    | Unchanged(binding: Binding)            // an active lease, offered again
    | Written(binding: Binding, kind: string)

  // ---- Policy -------------------------------------------------------------------

  function ReservationFor(s: Scope, q: Request): Option<Reservation> {
    FindReservation(s.reservations, q.client, q.mac)
  }

  /** allowed: a reserved client gets its address and nothing else, and nobody else gets it. */
  predicate Permitted(s: Scope, q: Request, ip: string) {
    && ip != s.server && ip != s.router
    && match ReservationFor(s, q)
       case Some(r) => r.address == ip
       case None => s.spans(ip) && forall r <- s.reservations :: r.address != ip
  }

  /** Permitted, and nobody else's: quarantined for everybody, its last client included. */
  predicate Available(m: Bucket, s: Scope, q: Request, ip: string, now: int) {
    Permitted(s, q, ip) && var b := Read(m, s.id, ip); !Held(b, now) || (b.client == q.client && b.state != Declined)
  }

  // ---- Which address ---------------------------------------------------------------

  predicate OwnAddress(b: Binding, s: Scope, q: Request, now: int) {
    && b.scope == s.id && b.client == q.client && b.origin != Delegated
    && Held(b, now) && b.state != Declined && Permitted(s, q, b.address)
  }

  /** The addresses the client holds in the scope and may keep. */
  ghost function Mine(m: Bucket, s: Scope, q: Request, now: int): set<string> {
    set k | k in m && OwnAddress(m[k], s, q, now) :: m[k].address
  }

  lemma SomeLast(xs: set<string>)
    requires xs != {}
    ensures exists x :: IsLast(x, xs)
  {
    var x := LastExists(xs);
  }

  ghost function LastOf(xs: set<string>): (x: string)
    requires xs != {}
    ensures IsLast(x, xs)
  {
    SomeLast(xs);
    var l :| IsLast(l, xs);
    l
  }

  /** The address tried first. A discover prefers the reservation, then what the client
      already holds (the last in key order), then its hint. */
  ghost function Wish(m: Bucket, s: Scope, q: Request, now: int): string {
    if q.commit then q.requested
    else match ReservationFor(s, q)
      case Some(r) => r.address
      case None => if Mine(m, s, q, now) != {} then LastOf(Mine(m, s, q, now)) else q.requested
  }

  /** The lowest available address of the pool, from position i on. */
  function FirstAvailable(m: Bucket, s: Scope, q: Request, now: int, i: nat): (r: Option<string>)
    requires i <= |s.pool|
    ensures r.Some? ==> r.value in s.pool && Available(m, s, q, r.value, now)
    ensures r.None? ==> forall j | i <= j < |s.pool| :: !Available(m, s, q, s.pool[j], now)
    decreases |s.pool| - i
  {
    if i == |s.pool| then None
    else if Available(m, s, q, s.pool[i], now) then Some(s.pool[i])
    else FirstAvailable(m, s, q, now, i + 1)
  }

  ghost function Choice(m: Bucket, s: Scope, q: Request, now: int): Option<string> {
    var w := Wish(m, s, q, now);
    if q.commit && q.requested == "" then None
    else if Available(m, s, q, w, now) then Some(w)
    else if q.commit || ReservationFor(s, q).Some? then None
    else FirstAvailable(m, s, q, now, 0)
  }

  // ---- Which record -----------------------------------------------------------------

  /** The identity a grant carries: the last lease's while it runs, outranked by a durable
      operator association, outranked by the inventory. */
  function Identified(c: Config, a: map<string, Association>, s: Scope, q: Request, prior: Binding, now: int,
                      base: Binding): Binding {
    var b := if prior.client == q.client && prior.end > now && prior.state != Declined
             then base.(name := prior.name,
                        info := base.info.(device := prior.info.device, start := prior.info.start,
                                           nodeId := prior.info.nodeId, evidence := prior.info.evidence))
             else base;
    var b := if q.client in a
             then var x := a[q.client];
                  b.(name := x.name,
                     info := b.info.(device := x.device, nodeId := x.nodeId,
                                     evidence := "operator repair: " + x.reason))
             else b;
    match ReservationFor(s, q)
    case None => b
    case Some(r) =>
      var d := FindDevice(c.devices, r.device);
      b.(name := d.name, info := b.info.(device := d.id, nodeId := d.nodeId, evidence := "inventory reservation"))
  }

  function Fresh(c: Config, s: Scope, q: Request, ip: string, now: int): Binding {
    var dev := DeviceId(c, s.id, q.client);
    var duid := if s.is6 && DuidClient(q.client) then DuidOf(q.client) else "";
    var iaid := if s.is6 && DuidClient(q.client) then IaidOf(q.client) else "";
    Binding(s.id, ip, q.client, q.mac, dev, Offered, if s.is6 then Dhcp6 else Dhcp4, now + 30,
            Info(now, 0, duid, iaid, dev, "", "", q.claimed, ""))
  }

  function Granted(c: Config, a: map<string, Association>, s: Scope, q: Request, prior: Binding, ip: string,
                   now: int): Binding {
    var b := Identified(c, a, s, q, prior, now, Fresh(c, s, q, ip, now));
    if !q.commit then b
    else b.(state := Active, end := now + s.leaseSeconds,
            info := b.info.(preferredEnd := if s.is6 then now + s.preferredSeconds else 0))
  }

  predicate Renewing(q: Request, prior: Binding, now: int) {
    prior.client == q.client && prior.state == Active && prior.end > now
  }

  /** What Allocate answers in an enabled scope, as a function of the ledger. */
  ghost function Outcomes(c: Config, m: Bucket, a: map<string, Association>, s: Scope, q: Request, now: int): Outcome {
    match Choice(m, s, q, now)
    case None => Unavailable
    case Some(ip) =>
      var prior := Read(m, s.id, ip);
      if !q.commit && Renewing(q, prior, now) then Unchanged(prior)
      else Written(Granted(c, a, s, q, prior, ip, now),
                   if !q.commit then "offer" else if Renewing(q, prior, now) then "renew" else "grant")
  }

  /** Requests Allocate takes: a valid identity of the scope's family and a canonical MAC. */
  predicate Serves(s: Scope, q: Request) {
    && s.enabled
    && ValidClient(q.client)
    && ((q.mac != "" || !s.is6) ==> CanonicalMac(q.mac))
    && (s.is6 <==> HasPrefix(q.client, "duid:"))
  }

  /** The request as it is served: its hardware address in canonical form, none when a
      hardware address is needed and cannot be read. */
  function Asked(s: Scope, q: Request): Option<Request> {
    if q.mac == "" && s.is6 then Some(q)
    else match ParseMac(q.mac)
      case None => None
      case Some(mac) => Some(q.(mac := mac))
  }

  /** What Allocate answers. */
  ghost function Answer(c: Config, m: Bucket, a: map<string, Association>, scopeId: string, q: Request,
                        now: int): Outcome {
    match FindScope(c.scopes, scopeId)
    case None => Rejected
    case Some(s) =>
      match Asked(s, q)
      case None => Rejected
      case Some(asked) => if Serves(s, asked) then Outcomes(c, m, a, s, asked, now) else Rejected
  }

  // ---- Properties of the choice ---------------------------------------------------------

  /** What is chosen is permitted by policy, free or the client's own, and not quarantined. */
  lemma ChoiceAvailable(m: Bucket, s: Scope, q: Request, now: int)
    ensures Choice(m, s, q, now).Some? ==> Available(m, s, q, Choice(m, s, q, now).value, now)
  {
  }

  /** A discover fails only when nothing the client may have is available, in the spelling
      of the pool or of its reservation. */
  lemma DiscoverComplete(m: Bucket, s: Scope, q: Request, now: int, ip: string)
    requires !q.commit && Choice(m, s, q, now).None?
    ensures Available(m, s, q, ip, now) ==> ReservationFor(s, q).None? && ip !in s.pool && ip != Wish(m, s, q, now)
  {
    assert ip in s.pool ==> exists j | 0 <= j < |s.pool| :: s.pool[j] == ip;
  }

  /** What was offered or granted is the client's until it ends. Its request for the address
      succeeds; and nobody else gets the address, whatever they ask for and whatever the
      scope's pool and reservations have become. */
  lemma GrantLasts(c: Config, m: Bucket, a: map<string, Association>, s: Scope, q: Request, now: int,
                   t: Scope, other: Request, later: int)
    requires ValidScope(s) && Outcomes(c, m, a, s, q, now).Written? && t.id == s.id
    requires later < Outcomes(c, m, a, s, q, now).binding.end
    ensures var b := Outcomes(c, m, a, s, q, now).binding;
            var m', again := m[KeyOf(b) := b], q.(requested := b.address, commit := true);
            && (other.client != q.client ==> Choice(m', t, other, later) != Some(b.address))
            && Outcomes(c, m', a, s, again, later).Written?
            && Outcomes(c, m', a, s, again, later).binding.address == b.address
  {
    var ip := Choice(m, s, q, now).value;
    var prior := Read(m, s.id, ip);
    var b := Granted(c, a, s, q, prior, ip, now);
    ChoiceAvailable(m, s, q, now);
    PermittedPlain(s, q, ip);
    GrantedLive(c, a, s, q, prior, ip, now);
    ChoiceAvailable(m[KeyOf(b) := b], t, other, later);
    HolderRenews(c, m[KeyOf(b) := b], a, s, q, b, later);
  }

  /** The holder's request for what it holds is granted. */
  lemma HolderRenews(c: Config, m: Bucket, a: map<string, Association>, s: Scope, q: Request, b: Binding, now: int)
    requires Read(m, s.id, b.address) == b && b.client == q.client && Held(b, now) && b.state != Declined
    requires Permitted(s, q, b.address) && b.address != ""
    ensures var r := Outcomes(c, m, a, s, q.(requested := b.address, commit := true), now);
            r.Written? && r.binding.address == b.address
  {
    GrantedFor(c, a, s, q.(requested := b.address, commit := true), b, b.address, now);
  }

  lemma GrantedLive(c: Config, a: map<string, Association>, s: Scope, q: Request, prior: Binding, ip: string, now: int)
    ensures var b := Granted(c, a, s, q, prior, ip, now);
            b.scope == s.id && b.address == ip && b.client == q.client && Live(b) && b.state != Declined
  {
    IdentifiedKeeps(c, a, s, q, prior, now, Fresh(c, s, q, ip, now));
  }

  /** Rediscovery is stable: a client that holds an address it may keep is offered one it holds. */
  lemma RediscoveryKeepsAddress(m: Bucket, s: Scope, q: Request, now: int, k: string)
    requires Keyed(m) && !q.commit
    requires k in m && OwnAddress(m[k], s, q, now)
    ensures Choice(m, s, q, now).Some? && Choice(m, s, q, now).value in Mine(m, s, q, now)
  {
    assert m[k].address in Mine(m, s, q, now);
    assert KeyedAt(m, k);
    match ReservationFor(s, q) {
      case Some(r) =>
        assert m[k].address == r.address;
        assert Read(m, s.id, r.address) == m[k];
      case None =>
        var w := LastOf(Mine(m, s, q, now));
        var j :| j in m && OwnAddress(m[j], s, q, now) && m[j].address == w;
        assert KeyedAt(m, j);
        assert Read(m, s.id, w) == m[j];
    }
  }

  /** Identity never touches what is allocated, to whom, or until when. */
  lemma IdentifiedKeeps(c: Config, a: map<string, Association>, s: Scope, q: Request, prior: Binding, now: int,
                        base: Binding)
    ensures var b := Identified(c, a, s, q, prior, now, base);
            b.(name := base.name, info := base.info) == base
  {
  }

  lemma IdentifiedLabel(c: Config, a: map<string, Association>, s: Scope, q: Request, prior: Binding, now: int,
                        base: Binding)
    requires ValidConfig(c) && s in c.scopes
    requires prior == NoBinding || WellFormed(prior)
    requires forall x <- a :: Label(a[x].name)
    requires Label(base.name) && q.client != ""
    ensures Label(Identified(c, a, s, q, prior, now, base).name)
  {
  }

  lemma FreshWellFormed(c: Config, s: Scope, q: Request, ip: string, now: int)
    requires ValidConfig(c) && s in c.scopes && Serves(s, q) && 0 <= now && PlainAddress(ip)
    ensures WellFormed(Fresh(c, s, q, ip, now)) && q.client != ""
  {
    ValidClientFree(q.client);
    DeviceIdLabel(c, s.id, q.client);
    if q.mac != "" { assert forall i | 0 <= i < |q.mac| :: q.mac[i] != '\0'; }
  }

  lemma GrantedWellFormed(c: Config, a: map<string, Association>, s: Scope, q: Request, prior: Binding,
                          ip: string, now: int)
    requires ValidConfig(c) && s in c.scopes && Serves(s, q) && 0 <= now && PlainAddress(ip)
    requires prior == NoBinding || WellFormed(prior)
    requires forall x <- a :: Label(a[x].name)
    ensures WellFormed(Granted(c, a, s, q, prior, ip, now))
  {
    FreshWellFormed(c, s, q, ip, now);
    IdentifiedKeeps(c, a, s, q, prior, now, Fresh(c, s, q, ip, now));
    IdentifiedLabel(c, a, s, q, prior, now, Fresh(c, s, q, ip, now));
  }

  lemma PermittedPlain(s: Scope, q: Request, ip: string)
    requires ValidScope(s) && Permitted(s, q, ip)
    ensures PlainAddress(ip)
  {
  }

  /** Writing an available address takes nothing from anybody. */
  lemma AvailableLawful(m: Bucket, s: Scope, q: Request, b: Binding, now: int)
    requires Available(m, s, q, b.address, now)
    requires b.scope == s.id && b.client == q.client && b.origin != Delegated
    ensures Lawful(m, b, now)
  {
  }

  lemma GrantedFor(c: Config, a: map<string, Association>, s: Scope, q: Request, prior: Binding, ip: string, now: int)
    ensures var b := Granted(c, a, s, q, prior, ip, now);
            b.scope == s.id && b.address == ip && b.client == q.client && b.origin != Delegated
  {
    IdentifiedKeeps(c, a, s, q, prior, now, Fresh(c, s, q, ip, now));
  }

  // ---- The transaction ---------------------------------------------------------------------

  ghost function Owned(mine: seq<Binding>, s: Scope, q: Request, now: int): set<string> {
    set b | b in mine && OwnAddress(b, s, q, now) :: b.address
  }

  /** The loop over a client's live bindings keeps the last address that qualifies. */
  method LastOwn(mine: seq<Binding>, s: Scope, q: Request, now: int) returns (candidate: string)
    requires forall i, j | 0 <= i < j < |mine| :: Less(mine[i].address, mine[j].address)
    ensures var own := Owned(mine, s, q, now); if own == {} then candidate == q.requested else IsLast(candidate, own)
  {
    candidate := q.requested;
    for i := 0 to |mine|
      invariant var own := Owned(mine[..i], s, q, now);
                if own == {} then candidate == q.requested else IsLast(candidate, own)
    {
      var b := mine[i];
      ghost var before := Owned(mine[..i], s, q, now);
      assert mine[..i + 1] == mine[..i] + [b];
      forall x | x in before ensures Less(x, b.address) {
        var y :| y in mine[..i] && y.address == x;
      }
      if OwnAddress(b, s, q, now) {
        candidate := b.address;
        assert Owned(mine[..i + 1], s, q, now) == before + {b.address};
      } else {
        assert Owned(mine[..i + 1], s, q, now) == before;
      }
    }
    assert mine[..|mine|] == mine;
  }

  method OwnCandidate(tx: Database, s: Scope, q: Request, now: int) returns (candidate: string)
    requires Consistent(tx) && Label(s.id) && ValidClient(q.client) && !q.commit
    ensures candidate == Wish(tx.leases, s, q, now)
  {
    ValidClientFree(q.client);
    var mine := LiveByClient(tx, s.id, q.client);
    candidate := LastOwn(mine, s, q, now);
    ghost var own := Mine(tx.leases, s, q, now);
    assert Owned(mine, s, q, now) == own by {
      forall x | x in own ensures x in Owned(mine, s, q, now) {
        var k :| k in tx.leases && OwnAddress(tx.leases[k], s, q, now) && tx.leases[k].address == x;
        assert KeyedAt(tx.leases, k);
        assert Stored(tx, tx.leases[k]);
      }
    }
    if own != {} {
      LastUnique(candidate, LastOf(own), own);
    }
    var r := ReservationFor(s, q);
    if r.Some? {
      candidate := r.value.address;
    }
  }

  method Choose(tx: Database, s: Scope, q: Request, now: int) returns (r: Option<string>)
    requires Consistent(tx) && Label(s.id) && ValidClient(q.client)
    ensures r == Choice(tx.leases, s, q, now)
  {
    var candidate := q.requested;
    if q.commit && candidate == "" {
      return None;
    }
    if !q.commit {
      candidate := OwnCandidate(tx, s, q, now);
    }
    if Available(tx.leases, s, q, candidate, now) {
      return Some(candidate);
    }
    if q.commit || ReservationFor(s, q).Some? {
      return None;
    }
    for i := 0 to |s.pool|
      invariant FirstAvailable(tx.leases, s, q, now, 0) == FirstAvailable(tx.leases, s, q, now, i)
    {
      if Available(tx.leases, s, q, s.pool[i], now) {
        return Some(s.pool[i]);
      }
    }
    return None;
  }

  method Allocate(c: Config, tx: Database, scopeId: string, asking: Request, now: int)
    returns (tx': Database, r: Outcome)
    requires ValidConfig(c) && Valid(tx) && 0 <= now
    ensures Valid(tx') && tx.events <= tx'.events && tx'.serverDuid == tx.serverDuid
    ensures r == Answer(c, tx.leases, tx.associations, scopeId, asking, now)
    ensures !r.Written? ==> tx' == tx
    ensures r.Written? ==> tx'.leases == tx.leases[KeyOf(r.binding) := r.binding] && tx'.associations == tx.associations
  {
    tx' := tx;
    var found := FindScope(c.scopes, scopeId);
    if found.None? {
      return tx, Rejected;
    }
    var s := found.value;
    var asked := Asked(s, asking);
    if asked.None? || !Serves(s, asked.value) {
      return tx, Rejected;
    }
    var q := asked.value;
    var choice := Choose(tx, s, q, now);
    if choice.None? {
      return tx, Unavailable;
    }
    var ip := choice.value;
    ChoiceAvailable(tx.leases, s, q, now);
    var prior := Read(tx.leases, s.id, ip);
    if !q.commit && Renewing(q, prior, now) {
      return tx, Unchanged(prior);
    }
    PermittedPlain(s, q, ip);
    ReadKeyed(tx.leases, s.id, ip);
    GrantedWellFormed(c, tx.associations, s, q, prior, ip, now);
    var b := Granted(c, tx.associations, s, q, prior, ip, now);
    GrantedFor(c, tx.associations, s, q, prior, ip, now);
    AvailableLawful(tx.leases, s, q, b, now);
    var kind := if !q.commit then "offer" else if Renewing(q, prior, now) then "renew" else "grant";
    tx' := Save(tx, b, kind, now);
    r := Written(b, kind);
  }

  // ---- Release and decline ---------------------------------------------------------------------

  function Ended(b: Binding, decline: bool, now: int): Binding {
    if decline then b.(state := Declined, end := now + 600) else b.(state := Released, end := now)
  }

  predicate Releasable(b: Binding, client: string, now: int) {
    b.client == client && b.end > now && (b.state == Active || b.state == Offered)
  }

  /** Release gives an address back; a decline quarantines it for ten minutes. Only the
      client holding it can do either. The ledger stays in order unless what is declined is
      a delegated prefix, which no handler does. */
  method Release(tx: Database, scope: string, client: string, ip: string, decline: bool, now: int)
    returns (tx': Database, ok: bool)
    requires Valid(tx) && 0 <= now
    ensures Consistent(tx') && tx.events <= tx'.events && tx'.serverDuid == tx.serverDuid
    ensures Valid(tx') <==> !(ok && decline && Read(tx.leases, scope, ip).origin == Delegated)
    ensures ok <==> Releasable(Read(tx.leases, scope, ip), client, now)
    ensures !ok ==> tx' == tx
    ensures ok ==> var b := Ended(Read(tx.leases, scope, ip), decline, now);
                   tx'.leases == tx.leases[KeyOf(b) := b] && tx'.associations == tx.associations
  {
    var b := Read(tx.leases, scope, ip);
    if !Releasable(b, client, now) {
      return tx, false;
    }
    ReadKeyed(tx.leases, scope, ip);
    b := Ended(b, decline, now);
    tx' := Save(tx, b, if decline then "decline" else "release", now);
    ok := true;
    assert b.origin == Delegated && decline ==> !LawfulAt(tx'.events, |tx.events|);
  }

  /** A host address of a scope is never a delegation. */
  lemma HostAddress(m: Bucket, scope: string, ip: string)
    requires Keyed(m) && Free('/', scope) && Free('/', ip)
    ensures Read(m, scope, ip).origin != Delegated
  {
    var b := Read(m, scope, ip);
    ReadKeyed(m, scope, ip);
    if b != NoBinding { KeyInjective(b.scope, b.address, scope, ip); }
  }
}
