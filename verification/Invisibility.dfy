/** The expiry sweep is invisible: running it first at the same instant changes no answer. */
module Invisibility {
  import opened Strings
  import opened Bindings
  import opened Configs
  import opened Database
  import opened Lookups
  import opened Allocation
  import opened Delegation
  import opened Sweep

  lemma ReadSwept(m: Bucket, m': Bucket, now: int, scope: string, address: string)
    requires SweptFrom(m, m', now)
    ensures var b, b' := Read(m, scope, address), Read(m', scope, address);
            b' == b || (Lapsed(b, now) && b' == b.(state := Expired))
  {
    assert SweptAt(m, m', Key(scope, address), now);
  }

  lemma AvailableSwept(m: Bucket, m': Bucket, now: int, s: Scope, q: Request, ip: string)
    requires SweptFrom(m, m', now)
    ensures Available(m', s, q, ip, now) <==> Available(m, s, q, ip, now)
  {
    ReadSwept(m, m', now, s.id, ip);
  }

  lemma MineSwept(m: Bucket, m': Bucket, now: int, s: Scope, q: Request)
    requires SweptFrom(m, m', now)
    ensures Mine(m', s, q, now) == Mine(m, s, q, now)
  {
    forall x | x in Mine(m, s, q, now) ensures x in Mine(m', s, q, now) {
      var k :| k in m && OwnAddress(m[k], s, q, now) && m[k].address == x;
      assert SweptAt(m, m', k, now);
    }
    forall x | x in Mine(m', s, q, now) ensures x in Mine(m, s, q, now) {
      var k :| k in m' && OwnAddress(m'[k], s, q, now) && m'[k].address == x;
      assert SweptAt(m, m', k, now);
    }
  }

  lemma {:induction false} FirstAvailableSwept(m: Bucket, m': Bucket, now: int, s: Scope, q: Request, i: nat)
    requires SweptFrom(m, m', now) && i <= |s.pool|
    ensures FirstAvailable(m', s, q, now, i) == FirstAvailable(m, s, q, now, i)
    decreases |s.pool| - i
  {
    if i < |s.pool| {
      AvailableSwept(m, m', now, s, q, s.pool[i]);
      FirstAvailableSwept(m, m', now, s, q, i + 1);
    }
  }

  lemma ChoiceSwept(m: Bucket, m': Bucket, now: int, s: Scope, q: Request)
    requires SweptFrom(m, m', now)
    ensures Choice(m', s, q, now) == Choice(m, s, q, now)
  {
    MineSwept(m, m', now, s, q);
    AvailableSwept(m, m', now, s, q, Wish(m, s, q, now));
    FirstAvailableSwept(m, m', now, s, q, 0);
  }

  /** Nothing of a lapsed record is carried into a grant. */
  lemma GrantedIgnoresLapsed(c: Config, a: map<string, Association>, s: Scope, q: Request, prior: Binding,
                             ip: string, now: int)
    requires prior.end <= now
    ensures Granted(c, a, s, q, prior.(state := Expired), ip, now) == Granted(c, a, s, q, prior, ip, now)
  {
  }

  /** Allocate answers the same, swept or not. */
  lemma AllocateSwept(c: Config, m: Bucket, m': Bucket, a: map<string, Association>, s: Scope, q: Request, now: int)
    requires SweptFrom(m, m', now)
    ensures Outcomes(c, m', a, s, q, now) == Outcomes(c, m, a, s, q, now)
  {
    ChoiceSwept(m, m', now, s, q);
    match Choice(m, s, q, now)
    case None =>
    case Some(ip) =>
      var prior := Read(m, s.id, ip);
      ReadSwept(m, m', now, s.id, ip);
      if Read(m', s.id, ip) != prior {
        GrantedIgnoresLapsed(c, a, s, q, prior, ip, now);
      }
  }

  lemma HoldingsSwept(m: Bucket, m': Bucket, now: int, s: Scope, client: string)
    requires SweptFrom(m, m', now)
    ensures Holdings(m', s, client, now) == Holdings(m, s, client, now)
  {
    forall x | x in Holdings(m, s, client, now) ensures x in Holdings(m', s, client, now) {
      var k :| k in m && HoldsPrefix(m[k], s, client, now) && m[k].address == x;
      assert SweptAt(m, m', k, now);
    }
    forall x | x in Holdings(m', s, client, now) ensures x in Holdings(m, s, client, now) {
      var k :| k in m' && HoldsPrefix(m'[k], s, client, now) && m'[k].address == x;
      assert SweptAt(m, m', k, now);
    }
  }

  lemma RoutersSwept(m: Bucket, m': Bucket, now: int, s: Scope, duid: string)
    requires SweptFrom(m, m', now)
    ensures Routers(m', s, duid, now) == Routers(m, s, duid, now)
  {
    forall x | x in Routers(m, s, duid, now) ensures x in Routers(m', s, duid, now) {
      var k :| k in m && SameDuid(m[k], s, duid, now) && m[k] == x;
      assert SweptAt(m, m', k, now);
    }
    forall x | x in Routers(m', s, duid, now) ensures x in Routers(m, s, duid, now) {
      var k :| k in m' && SameDuid(m'[k], s, duid, now) && m'[k] == x;
      assert SweptAt(m, m', k, now);
    }
  }

  lemma {:induction false} FirstFreeSwept(m: Bucket, m': Bucket, now: int, s: Scope, client: string, i: nat)
    requires SweptFrom(m, m', now) && i <= |s.delegable|
    ensures FirstFree(m', s, client, now, i) == FirstFree(m, s, client, now, i)
    decreases |s.delegable| - i
  {
    if i < |s.delegable| {
      ReadSwept(m, m', now, s.id, s.delegable[i]);
      FirstFreeSwept(m, m', now, s, client, i + 1);
    }
  }

  lemma ChosenPrefixSwept(m: Bucket, m': Bucket, now: int, s: Scope, a: Ask)
    requires SweptFrom(m, m', now)
    ensures ChosenPrefix(m', s, a, now) == ChosenPrefix(m, s, a, now)
  {
    HoldingsSwept(m, m', now, s, a.client);
    ReadSwept(m, m', now, s.id, a.hint);
    FirstFreeSwept(m, m', now, s, a.client, 0);
  }

  lemma PrefixRecordIgnoresLapsed(c: Config, s: Scope, a: Ask, router: Option<Binding>, prior: Binding,
                                  prefix: string, now: int)
    requires prior.end <= now
    ensures PrefixRecord(c, s, a, router, prior.(state := Expired), prefix, now) ==
              PrefixRecord(c, s, a, router, prior, prefix, now)
  {
  }

  /** AllocatePrefix answers the same, swept or not. */
  lemma AllocatePrefixSwept(c: Config, m: Bucket, m': Bucket, s: Scope, a: Ask, now: int)
    requires SweptFrom(m, m', now) && Keyed(m)
    ensures PrefixOutcomes(c, m', s, a, now) == PrefixOutcomes(c, m, s, a, now)
  {
    ChosenPrefixSwept(m, m', now, s, a);
    HoldingsSwept(m, m', now, s, a.client);
    RoutersSwept(m, m', now, s, a.duid);
    match ChosenPrefix(m, s, a, now)
    case None =>
    case Some(p) =>
      var prior, held := Read(m, s.id, p), Holdings(m, s, a.client, now);
      ReadSwept(m, m', now, s.id, p);
      if held != {} {
        var k :| k in m && HoldsPrefix(m[k], s, a.client, now) && m[k].address == p;
        assert KeyedAt(m, k);
        assert prior == m[k];
      }
      if Read(m', s.id, p) != prior {
        PrefixRecordIgnoresLapsed(c, s, a, Router(m, s, a.duid, now), prior, p, now);
      }
  }

  /** Release and decline succeed and write the same, swept or not. */
  lemma ReleaseSwept(m: Bucket, m': Bucket, now: int, scope: string, client: string, ip: string, decline: bool)
    requires SweptFrom(m, m', now)
    ensures var b, b' := Read(m, scope, ip), Read(m', scope, ip);
            (Releasable(b', client, now) <==> Releasable(b, client, now))
            && (Releasable(b, client, now) ==> Ended(b', decline, now) == Ended(b, decline, now))
  {
    ReadSwept(m, m', now, scope, ip);
  }

  /** A DNS lookup sees the same bindings, swept or not: whatever it filters by, it takes
      active bindings that have not ended. */
  lemma DnsSwept(db: Database, db': Database, now: int, b: Binding)
    requires Keyed(db.leases) && Keyed(db'.leases) && SweptFrom(db.leases, db'.leases, now)
    requires b.state == Active && b.end > now
    ensures Stored(db', b) <==> Stored(db, b)
  {
    assert SweptAt(db.leases, db'.leases, KeyOf(b), now);
    assert KeyedAt(db.leases, KeyOf(b)) && KeyedAt(db'.leases, KeyOf(b));
  }

  // ---- The operations themselves, run both ways ------------------------------------

  /** Allocate, directly and after a sweep at the same instant: one answer, and ledgers
      that differ at most by the sweep's marks. */
  method AllocateBothWays(c: Config, tx: Database, scope: string, q: Request, now: int)
    returns (direct: Outcome, after: Outcome, ghost m: Bucket, ghost m': Bucket)
    requires ValidConfig(c) && Valid(tx) && 0 <= now
    ensures after == direct
    ensures SweptFrom(m, m', now)
  {
    var left, right := tx, tx;
    left, direct := Allocate(c, tx, scope, q, now);
    var swept, n := Expire(tx, now);
    right, after := Allocate(c, swept, scope, q, now);
    var s := FindScope(c.scopes, scope);
    if s.Some? && Asked(s.value, q).Some? {
      AllocateSwept(c, tx.leases, swept.leases, tx.associations, s.value, Asked(s.value, q).value, now);
    }
    if direct.Written? {
      WriteSwept(tx.leases, swept.leases, now, direct.binding);
    }
    m, m' := left.leases, right.leases;
  }

  /** AllocatePrefix, with and without a sweep before it: the sweep's own events may carry a
      later second, so both run at the instant the clock reads after it. */
  method AllocatePrefixBothWays(c: Config, tx: Database, s: Scope, a: Ask, now: int)
    returns (later: int, direct: PrefixOutcome, after: PrefixOutcome, ghost m: Bucket, ghost m': Bucket)
    requires ValidConfig(c) && s in c.scopes && Valid(tx) && 0 <= now && LastTime(tx.events) <= now
    requires ValidClient(a.client) && Free('\0', a.duid)
    ensures now <= later && after == direct
    ensures SweptFrom(m, m', later)
  {
    var swept, n := Expire(tx, now);
    later :| later >= now && later >= LastTime(swept.events);
    var left, right := tx, swept;
    left, direct := AllocatePrefix(c, tx, s, a, later);
    right, after := AllocatePrefix(c, swept, s, a, later);
    forall k ensures SweptAt(tx.leases, swept.leases, k, later) {
      assert SweptAt(tx.leases, swept.leases, k, now);
    }
    AllocatePrefixSwept(c, tx.leases, swept.leases, s, a, later);
    if direct.Delegates? {
      WriteSwept(tx.leases, swept.leases, later, direct.binding);
    }
    m, m' := left.leases, right.leases;
  }

  /** Release, directly and after a sweep at the same instant. */
  method ReleaseBothWays(tx: Database, scope: string, client: string, ip: string, decline: bool, now: int)
    returns (direct: bool, after: bool, ghost m: Bucket, ghost m': Bucket)
    requires Valid(tx) && 0 <= now
    ensures after == direct
    ensures SweptFrom(m, m', now)
  {
    var left, right := tx, tx;
    left, direct := Release(tx, scope, client, ip, decline, now);
    var swept, n := Expire(tx, now);
    right, after := Release(swept, scope, client, ip, decline, now);
    ReleaseSwept(tx.leases, swept.leases, now, scope, client, ip, decline);
    if direct {
      WriteSwept(tx.leases, swept.leases, now, Ended(Read(tx.leases, scope, ip), decline, now));
    }
    m, m' := left.leases, right.leases;
  }

  /** A DNS lookup, directly and after a sweep at the same instant. */
  method DnsBothWays(tx: Database, scope: string, name: string, address: string, now: int)
    returns (direct: seq<Binding>, after: seq<Binding>)
    requires Valid(tx) && 0 <= now && Free('/', scope)
    ensures forall b :: b in after <==> b in direct
  {
    direct := DnsBindings(tx, scope, name, address, now);
    var swept, n := Expire(tx, now);
    after := DnsBindings(swept, scope, name, address, now);
    forall b: Binding | b.state == Active && b.end > now ensures Stored(swept, b) <==> Stored(tx, b) {
      DnsSwept(tx, swept, now, b);
    }
  }
}
