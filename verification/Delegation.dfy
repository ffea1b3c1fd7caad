/** Prefix delegation (internal/addressbook/pd.go, AllocatePrefix and releasePrefix). */
module Delegation {
  import opened Sets
  import opened Strings
  import opened Bindings
  import opened Configs
  import opened Database
  import opened Lookups
  import opened Allocation
  import opened Prefixes

  datatype Ask = Ask(client: string, duid: string, hint: string, via: string, commit: bool)

  datatype PrefixOutcome = Exhausted | Kept(binding: Binding) | Delegates(binding: Binding, kind: string)

  /** `free`: nobody else's active or offered prefix. */
  predicate PrefixFree(b: Binding, client: string, now: int) {
    !(b.end > now && (b.state == Active || b.state == Offered)) || b.client == client
  }

  predicate HoldsPrefix(b: Binding, s: Scope, client: string, now: int) {
    HeldDelegation(b, s.id, client, now) && b.state != Declined
  }

  /** The keys of the delegations a client holds in a scope. */
  ghost function Holdings(m: Bucket, s: Scope, client: string, now: int): set<string> {
    set k | k in m && HoldsPrefix(m[k], s, client, now) :: m[k].address
  }

  /** The lowest free delegable prefix, from position i on. */
  function FirstFree(m: Bucket, s: Scope, client: string, now: int, i: nat): (r: Option<string>)
    requires i <= |s.delegable|
    ensures r.Some? ==> r.value in s.delegable && PrefixFree(Read(m, s.id, r.value), client, now)
    ensures r.None? ==> forall j | i <= j < |s.delegable| :: !PrefixFree(Read(m, s.id, s.delegable[j]), client, now)
    decreases |s.delegable| - i
  {
    if i == |s.delegable| then None
    else if PrefixFree(Read(m, s.id, s.delegable[i]), client, now) then Some(s.delegable[i])
    else FirstFree(m, s, client, now, i + 1)
  }

  /** The held prefix, else a free hint of the pool, else the lowest free prefix. */
  ghost function ChosenPrefix(m: Bucket, s: Scope, a: Ask, now: int): Option<string> {
    var held := Holdings(m, s, a.client, now);
    if held != {} then Some(LastOf(held))
    else if a.hint in s.delegable && PrefixFree(Read(m, s.id, a.hint), a.client, now) then Some(a.hint)
    else FirstFree(m, s, a.client, now, 0)
  }

  /** The address of the same DHCPv6 client, whose device a delegation is attributed to. */
  predicate SameDuid(b: Binding, s: Scope, duid: string, now: int) {
    && HasPrefix(b.client, "duid:" + duid + "/")
    && b.scope == s.id && b.origin == Dhcp6 && b.info.duid == duid && b.state == Active && b.end > now
  }

  ghost function Routers(m: Bucket, s: Scope, duid: string, now: int): set<Binding> {
    set k | k in m && SameDuid(m[k], s, duid, now) :: m[k]
  }

  ghost predicate IsLastRouter(b: Binding, bs: set<Binding>) {
    b in bs && forall x <- bs :: x == b || Less(KeyIn(ByClient, x), KeyIn(ByClient, b))
  }

  ghost function Router(m: Bucket, s: Scope, duid: string, now: int): Option<Binding> {
    var bs := Routers(m, s, duid, now);
    if b :| IsLastRouter(b, bs) then Some(b) else None
  }

  function Attributed(router: Option<Binding>, a: Ask, prior: Binding, now: int, base: Binding): Binding {
    var b := if router.Some? && router.value.info.device != ""
             then base.(name := router.value.name,
                        info := base.info.(device := router.value.info.device, nodeId := router.value.info.nodeId,
                                           evidence := "delegated prefix; same DUID as " + router.value.address))
             else if prior.client == a.client && prior.info.device != "" && prior.end > now
             then base.(name := prior.name,
                        info := base.info.(device := prior.info.device, nodeId := prior.info.nodeId))
             else base;
    if prior.client == a.client && prior.end > now then b.(info := b.info.(start := prior.info.start)) else b
  }

  function PrefixRecord(c: Config, s: Scope, a: Ask, router: Option<Binding>, prior: Binding, prefix: string,
                        now: int): Binding {
    var dev := DeviceId(c, s.id, a.client);
    var base := Binding(s.id, prefix, a.client, "", dev, Offered, Delegated, now + 30,
                        Info(now, 0, a.duid, "", dev, "", "delegated prefix", "", a.via));
    var b := Attributed(router, a, prior, now, base);
    if !a.commit then b
    else b.(state := Active, end := now + s.leaseSeconds, info := b.info.(preferredEnd := now + s.preferredSeconds))
  }

  ghost function PrefixOutcomes(c: Config, m: Bucket, s: Scope, a: Ask, now: int): PrefixOutcome {
    match ChosenPrefix(m, s, a, now)
    case None => Exhausted
    case Some(p) =>
      var prior := Read(m, s.id, p);
      if !a.commit && Holdings(m, s, a.client, now) != {} && prior.state == Active then Kept(prior)
      else Delegates(PrefixRecord(c, s, a, Router(m, s, a.duid, now), prior, p, now),
                     if !a.commit then "offer"
                     else if prior.client == a.client && prior.state == Active && prior.end > now then "renew"
                     else "grant")
  }

  // ---- Properties of the choice -----------------------------------------------------

  /** Delegation fails only when the client holds nothing and every delegable prefix is
      held by somebody else. */
  lemma ExhaustedExact(m: Bucket, s: Scope, a: Ask, now: int, p: string)
    requires ChosenPrefix(m, s, a, now).None? && p in s.delegable
    ensures var b := Read(m, s.id, p); b.end > now && (b.state == Active || b.state == Offered) && b.client != a.client
    ensures Holdings(m, s, a.client, now) == {}
  {
    var j :| 0 <= j < |s.delegable| && s.delegable[j] == p;
    assert !PrefixFree(Read(m, s.id, s.delegable[j]), a.client, now);
  }

  /** `free` does not look at quarantines, and need not: no delegable prefix of a ledger in
      order is quarantined, so what it calls free is what nobody else holds. */
  lemma FreeIsUnheld(tx: Database, s: Scope, p: string, client: string, now: int)
    requires Valid(tx) && 0 <= now && LastTime(tx.events) <= now && ValidScope(s) && p in s.delegable
    ensures var b := Read(tx.leases, s.id, p);
            PrefixFree(b, client, now) <==> !Held(b, now) || b.client == client
  {
    var b := Read(tx.leases, s.id, p);
    ReadKeyed(tx.leases, s.id, p);
    DelegationsUnique(tx.events, now);
    if b != NoBinding { KeyInjective(b.scope, b.address, s.id, p); }
  }

  /** A delegation is the client's until it ends: it is what the client gets again, whatever
      it hints, and what nobody else gets, whatever the scope's pool has become. */
  lemma DelegationLasts(c: Config, m: Bucket, s: Scope, a: Ask, now: int, tx: Database, t: Scope, other: Ask,
                        later: int)
    requires Valid(tx) && 0 <= later && LastTime(tx.events) <= later && Label(s.id) && t.id == s.id
    requires PrefixOutcomes(c, m, s, a, now).Delegates? && later < PrefixOutcomes(c, m, s, a, now).binding.end
    requires var b := PrefixOutcomes(c, m, s, a, now).binding; tx.leases == m[KeyOf(b) := b]
    ensures var b := PrefixOutcomes(c, m, s, a, now).binding;
            ChosenPrefix(tx.leases, t, other, later) == Some(b.address) <==> other.client == a.client
  {
    var p := ChosenPrefix(m, s, a, now).value;
    var b := PrefixOutcomes(c, m, s, a, now).binding;
    RecordLive(c, s, a, Router(m, s, a.duid, now), Read(m, s.id, p), p, now);
    assert KeyOf(b) in tx.leases && tx.leases[KeyOf(b)] == b && HoldsPrefix(b, t, a.client, later);
    assert b.address in Holdings(tx.leases, t, a.client, later);
    if other.client == a.client {
      HoldingUnique(tx, t, a.client, later, b.address, LastOf(Holdings(tx.leases, t, a.client, later)));
    } else if Holdings(tx.leases, t, other.client, later) != {} {
      var x := LastOf(Holdings(tx.leases, t, other.client, later));
      var k :| k in tx.leases && HoldsPrefix(tx.leases[k], t, other.client, later) && tx.leases[k].address == x;
      assert KeyedAt(tx.leases, k);
    }
  }

  lemma RecordLive(c: Config, s: Scope, a: Ask, router: Option<Binding>, prior: Binding, prefix: string, now: int)
    ensures var b := PrefixRecord(c, s, a, router, prior, prefix, now);
            b.scope == s.id && b.address == prefix && b.client == a.client && Live(b) && b.state != Declined
            && b.origin == Delegated
  {
  }

  // ---- The delegations of a fixed pool -----------------------------------------------

  /** The scope's delegable texts are those of a validated pool, in order. */
  ghost predicate PoolTexts(s: Scope, pool: Prefix, length: nat, text: Prefix -> string) {
    && ValidPool(pool, length)
    && |s.delegable| == PoolSize(pool, length)
    && forall i | 0 <= i < |s.delegable| :: s.delegable[i] == text(Delegable(pool, length, i))
  }

  /** The texts of a pool's delegable prefixes, as the loop over prefixAt enumerates them. */
  method DelegableTexts(raw: seq<Byte>, pool: Prefix, length: nat, text: Prefix -> string) returns (texts: seq<string>)
    requires |raw| == 16 && pool.addr == Value(raw) && ValidPool(pool, length)
    ensures forall s: Scope | s.delegable == texts :: PoolTexts(s, pool, length, text)
  {
    texts := [];
    for i := 0 to PoolSize(pool, length)
      invariant |texts| == i && forall j | 0 <= j < i :: texts[j] == text(Delegable(pool, length, j))
    {
      var p := PoolPrefixAt(raw, pool, length, i);
      texts := texts + [text(Prefix(Value(p), length))];
    }
  }

  /** Every held delegation of the scope is one of its delegable prefixes. */
  ghost predicate FromPool(m: Bucket, s: Scope, now: int) {
    forall k :: FromPoolAt(m, s, k, now)
  }

  predicate FromPoolAt(m: Bucket, s: Scope, k: string, now: int) {
    k in m && m[k].origin == Delegated && m[k].scope == s.id && Held(m[k], now) ==> m[k].address in s.delegable
  }

  /** Under a fixed pool, different held delegations are disjoint address ranges. */
  lemma HeldDelegationsDisjoint(m: Bucket, s: Scope, pool: Prefix, length: nat, text: Prefix -> string, j: string,
                                k: string, now: int)
    returns (p: Prefix, q: Prefix)
    requires Keyed(m) && PoolTexts(s, pool, length, text) && FromPool(m, s, now)
    requires j in m && m[j].origin == Delegated && m[j].scope == s.id && Held(m[j], now)
    requires k in m && m[k].origin == Delegated && m[k].scope == s.id && Held(m[k], now)
    requires j != k
    ensures InPool(pool, length, p) && m[j].address == text(p)
    ensures InPool(pool, length, q) && m[k].address == text(q)
    ensures Disjoint(p, q)
  {
    assert KeyedAt(m, j) && KeyedAt(m, k) && FromPoolAt(m, s, j, now) && FromPoolAt(m, s, k, now);
    var i :| 0 <= i < |s.delegable| && s.delegable[i] == m[j].address;
    var n :| 0 <= n < |s.delegable| && s.delegable[n] == m[k].address;
    p, q := Delegable(pool, length, i), Delegable(pool, length, n);
    DelegableInPool(pool, length, i);
    DelegableInPool(pool, length, n);
    DelegableDisjoint(pool, length, i, n);
  }

  // ---- The transaction ---------------------------------------------------------------

  predicate DelegatedAt(m: Bucket, s: Scope, k: string, now: int) {
    k in m && m[k].origin == Delegated && m[k].scope == s.id && Held(m[k], now)
  }

  ghost predicate ApartAt(m: Bucket, s: Scope, pool: Prefix, length: nat, text: Prefix -> string, j: string, k: string,
                          now: int)
    requires pool.bits <= length <= 128
  {
    DelegatedAt(m, s, j, now) && DelegatedAt(m, s, k, now) && j != k ==>
      exists p, q :: && InPool(pool, length, p) && InPool(pool, length, q) && Disjoint(p, q)
                     && m[j].address == text(p) && m[k].address == text(q)
  }

  /** The pool is out of prefixes for a client: it holds none, and others hold all. */
  predicate OthersHoldAll(m: Bucket, s: Scope, client: string, now: int) {
    forall p <- s.delegable :: Held(Read(m, s.id, p), now) && Read(m, s.id, p).client != client
  }

  ghost predicate NoneLeftAt(m: Bucket, s: Scope, a: Ask, now: int) {
    ChosenPrefix(m, s, a, now).None? <==> Holdings(m, s, a.client, now) == {} && OthersHoldAll(m, s, a.client, now)
  }

  /** What a ledger in order says of a scope's pool: held delegations are disjoint prefixes
      of it, a client holds at most one, and a client that holds none gets one exactly
      unless others hold them all. */
  ghost predicate PoolServed(m: Bucket, s: Scope, pool: Prefix, length: nat, text: Prefix -> string, now: int)
    requires pool.bits <= length <= 128
  {
    && (forall j, k :: ApartAt(m, s, pool, length, text, j, k, now))
    && (forall client, x, y | x in Holdings(m, s, client, now) && y in Holdings(m, s, client, now) :: x == y)
    && (forall a :: NoneLeftAt(m, s, a, now))
  }

  lemma InOrderPoolServed(tx: Database, s: Scope, pool: Prefix, length: nat, text: Prefix -> string, now: int)
    requires Valid(tx) && 0 <= now && LastTime(tx.events) <= now && ValidScope(s)
    requires PoolTexts(s, pool, length, text) && FromPool(tx.leases, s, now)
    ensures PoolServed(tx.leases, s, pool, length, text, now)
  {
    var m := tx.leases;
    forall j, k ensures ApartAt(m, s, pool, length, text, j, k, now) {
      if DelegatedAt(m, s, j, now) && DelegatedAt(m, s, k, now) && j != k {
        var p, q := HeldDelegationsDisjoint(m, s, pool, length, text, j, k, now);
      }
    }
    forall client, x, y | x in Holdings(m, s, client, now) && y in Holdings(m, s, client, now) ensures x == y {
      HoldingUnique(tx, s, client, now, x, y);
    }
    forall a ensures NoneLeftAt(m, s, a, now) {
      forall p | p in s.delegable
        ensures PrefixFree(Read(m, s.id, p), a.client, now) <==>
                  !Held(Read(m, s.id, p), now) || Read(m, s.id, p).client == a.client
      {
        FreeIsUnheld(tx, s, p, a.client, now);
      }
      NoneFree(m, s, a, now);
    }
  }

  lemma NoneFree(m: Bucket, s: Scope, a: Ask, now: int)
    ensures ChosenPrefix(m, s, a, now).None? <==>
              && Holdings(m, s, a.client, now) == {}
              && forall p <- s.delegable :: !PrefixFree(Read(m, s.id, p), a.client, now)
  {
    if ChosenPrefix(m, s, a, now).None? {
      forall p | p in s.delegable ensures !PrefixFree(Read(m, s.id, p), a.client, now) {
        ExhaustedExact(m, s, a, now, p);
      }
    }
  }

  /** In a lawful ledger there is at most one holding. */
  lemma HoldingUnique(tx: Database, s: Scope, client: string, now: int, x: string, y: string)
    requires Valid(tx) && 0 <= now && LastTime(tx.events) <= now
    requires x in Holdings(tx.leases, s, client, now) && y in Holdings(tx.leases, s, client, now)
    ensures x == y
  {
    var m := tx.leases;
    var j :| j in m && HoldsPrefix(m[j], s, client, now) && m[j].address == x;
    var k :| k in m && HoldsPrefix(m[k], s, client, now) && m[k].address == y;
    DelegationsUnique(tx.events, now);
    assert HeldDelegation(m[j], s.id, client, now) && HeldDelegation(m[k], s.id, client, now);
  }

  /** The delegation a client holds, as the loop over its live bindings leaves it. */
  method HeldPrefix(tx: Database, s: Scope, client: string, now: int) returns (r: Option<Binding>)
    requires Valid(tx) && 0 <= now && LastTime(tx.events) <= now && Label(s.id) && ValidClient(client)
    ensures r.None? <==> Holdings(tx.leases, s, client, now) == {}
    ensures r.Some? ==> r.value.address == LastOf(Holdings(tx.leases, s, client, now))
    ensures r.Some? ==> r.value == Read(tx.leases, s.id, r.value.address) && HoldsPrefix(r.value, s, client, now)
  {
    ValidClientFree(client);
    var live := LiveByClient(tx, s.id, client);
    r := None;
    for i := 0 to |live|
      invariant r.None? ==> forall j | 0 <= j < i :: !HoldsPrefix(live[j], s, client, now)
      invariant r.Some? ==> HoldsPrefix(r.value, s, client, now) && r.value in live
    {
      if HoldsPrefix(live[i], s, client, now) {
        r := Some(live[i]);
      }
    }
    ghost var held := Holdings(tx.leases, s, client, now);
    if r.Some? {
      assert r.value.address in held;
      HoldingUnique(tx, s, client, now, r.value.address, LastOf(held));
    } else {
      forall x | x in held ensures false {
        var k :| k in tx.leases && HoldsPrefix(tx.leases[k], s, client, now);
        assert KeyedAt(tx.leases, k);
        assert Stored(tx, tx.leases[k]);
      }
    }
  }

  method FindRouter(tx: Database, s: Scope, duid: string, now: int) returns (r: Option<Binding>)
    requires Consistent(tx) && Free('\0', duid)
    ensures r == Router(tx.leases, s, duid, now)
  {
    var prefix := "duid:" + duid + "/";
    var same := LiveByClientPrefix(tx, prefix);
    r := LastSameDuid(same, s, duid, now);
    ghost var bs := Routers(tx.leases, s, duid, now);
    forall x | x in bs ensures x in same {
      var k :| k in tx.leases && SameDuid(tx.leases[k], s, duid, now) && tx.leases[k] == x;
      assert KeyedAt(tx.leases, k);
      assert Stored(tx, x);
    }
    if r.Some? {
      assert Stored(tx, r.value);
      RouterUnique(tx.leases, s, duid, now, r.value);
    }
  }

  /** The loop over bindings in key order keeps the last that matches. */
  method LastSameDuid(same: seq<Binding>, s: Scope, duid: string, now: int) returns (r: Option<Binding>)
    requires forall i, j | 0 <= i < j < |same| :: Less(KeyIn(ByClient, same[i]), KeyIn(ByClient, same[j]))
    ensures r.None? ==> forall x <- same :: !SameDuid(x, s, duid, now)
    ensures r.Some? ==> r.value in same && SameDuid(r.value, s, duid, now)
                        && forall x <- same | SameDuid(x, s, duid, now) ::
                          x == r.value || Less(KeyIn(ByClient, x), KeyIn(ByClient, r.value))
  {
    r := None;
    ghost var n := 0;
    for i := 0 to |same|
      invariant r.None? ==> forall j | 0 <= j < i :: !SameDuid(same[j], s, duid, now)
      invariant r.Some? ==> 0 <= n < i && r.value == same[n] && SameDuid(same[n], s, duid, now)
                            && forall j | n < j < i :: !SameDuid(same[j], s, duid, now)
    {
      if SameDuid(same[i], s, duid, now) {
        r := Some(same[i]);
        n := i;
      }
    }
  }

  lemma RouterUnique(m: Bucket, s: Scope, duid: string, now: int, b: Binding)
    requires IsLastRouter(b, Routers(m, s, duid, now))
    ensures Router(m, s, duid, now) == Some(b)
  {
    var r := Router(m, s, duid, now);
    LessTotal(KeyIn(ByClient, r.value), KeyIn(ByClient, b));
  }

  method ChoosePrefix(tx: Database, s: Scope, a: Ask, now: int) returns (r: Option<string>, held: Option<Binding>)
    requires Valid(tx) && 0 <= now && LastTime(tx.events) <= now && Label(s.id) && ValidClient(a.client)
    ensures r == ChosenPrefix(tx.leases, s, a, now)
    ensures held.Some? <==> Holdings(tx.leases, s, a.client, now) != {}
    ensures held.Some? ==> r == Some(held.value.address) && held.value == Read(tx.leases, s.id, held.value.address)
                           && HoldsPrefix(held.value, s, a.client, now)
  {
    held := HeldPrefix(tx, s, a.client, now);
    if held.Some? {
      return Some(held.value.address), held;
    }
    if a.hint in s.delegable && PrefixFree(Read(tx.leases, s.id, a.hint), a.client, now) {
      return Some(a.hint), held;
    }
    for i := 0 to |s.delegable|
      invariant FirstFree(tx.leases, s, a.client, now, 0) == FirstFree(tx.leases, s, a.client, now, i)
    {
      if PrefixFree(Read(tx.leases, s.id, s.delegable[i]), a.client, now) {
        return Some(s.delegable[i]), held;
      }
    }
    return None, held;
  }

  lemma AttributedKeeps(router: Option<Binding>, a: Ask, prior: Binding, now: int, base: Binding)
    requires Label(base.name)
    requires router.Some? ==> WellFormed(router.value)
    requires prior == NoBinding || WellFormed(prior)
    ensures var b := Attributed(router, a, prior, now, base);
            b.(name := base.name, info := base.info) == base && Label(b.name)
  {
  }

  lemma PrefixRecordWellFormed(c: Config, s: Scope, a: Ask, router: Option<Binding>, prior: Binding,
                               prefix: string, now: int)
    requires ValidConfig(c) && s in c.scopes && ValidClient(a.client) && 0 <= now
    requires '/' in prefix && Free('\0', prefix)
    requires router.Some? ==> WellFormed(router.value)
    requires prior == NoBinding || WellFormed(prior)
    ensures var b := PrefixRecord(c, s, a, router, prior, prefix, now);
            WellFormed(b) && b.scope == s.id && b.address == prefix && b.client == a.client && Live(b)
            && b.state != Declined && b.origin == Delegated
  {
    ValidClientFree(a.client);
    DeviceIdLabel(c, s.id, a.client);
    var dev := DeviceId(c, s.id, a.client);
    var base := Binding(s.id, prefix, a.client, "", dev, Offered, Delegated, now + 30,
                        Info(now, 0, a.duid, "", dev, "", "delegated prefix", "", a.via));
    AttributedKeeps(router, a, prior, now, base);
  }

  lemma RouterWellFormed(m: Bucket, s: Scope, duid: string, now: int)
    requires Keyed(m)
    ensures Router(m, s, duid, now).Some? ==> WellFormed(Router(m, s, duid, now).value)
  {
    var r := Router(m, s, duid, now);
    if r.Some? {
      var k :| k in m && m[k] == r.value;
      assert KeyedAt(m, k);
    }
  }

  /** A chosen prefix is the client's only delegation, and takes nothing from anybody. */
  lemma PrefixLawful(tx: Database, s: Scope, a: Ask, now: int, b: Binding)
    requires Valid(tx) && 0 <= now && LastTime(tx.events) <= now && ValidScope(s)
    requires ChosenPrefix(tx.leases, s, a, now) == Some(b.address)
    requires b.scope == s.id && b.client == a.client && b.state != Declined
    ensures '/' in b.address && Free('\0', b.address)
    ensures Lawful(tx.leases, b, now)
  {
    var m, held := tx.leases, Holdings(tx.leases, s, a.client, now);
    var prior := Read(m, s.id, b.address);
    DelegationsUnique(tx.events, now);
    if held != {} {
      var k :| k in m && HoldsPrefix(m[k], s, a.client, now) && m[k].address == b.address;
      assert KeyedAt(m, k);
      assert k == KeyOf(b);
    }
    ReadKeyed(m, s.id, b.address);
    if prior != NoBinding {
      KeyInjective(prior.scope, prior.address, s.id, b.address);
      assert KeyOf(b) in m && m[KeyOf(b)] == prior;
    }
    forall k | k in m && HeldDelegation(m[k], b.scope, b.client, now) ensures k == KeyOf(b) {
      assert m[k].address in held;
      HoldingUnique(tx, s, a.client, now, m[k].address, b.address);
      assert KeyedAt(m, k);
    }
  }

  /** AllocatePrefix: offers or grants one delegated prefix. */
  method AllocatePrefix(c: Config, tx: Database, s: Scope, a: Ask, now: int) returns (tx': Database, r: PrefixOutcome)
    requires ValidConfig(c) && s in c.scopes && Valid(tx) && 0 <= now && LastTime(tx.events) <= now
    requires ValidClient(a.client) && Free('\0', a.duid)
    ensures Valid(tx') && tx.events <= tx'.events && tx'.serverDuid == tx.serverDuid
    ensures r == PrefixOutcomes(c, tx.leases, s, a, now)
    ensures !r.Delegates? ==> tx' == tx
    ensures r.Delegates? ==>
              tx'.leases == tx.leases[KeyOf(r.binding) := r.binding] && tx'.associations == tx.associations
    ensures r.Delegates? ==> r.binding.scope == s.id && ChosenPrefix(tx.leases, s, a, now) == Some(r.binding.address)
  {
    var choice, held := ChoosePrefix(tx, s, a, now);
    if choice.None? {
      return tx, Exhausted;
    }
    var p := choice.value;
    var prior := Read(tx.leases, s.id, p);
    if !a.commit && held.Some? && held.value.state == Active {
      return tx, Kept(held.value);
    }
    var router := FindRouter(tx, s, a.duid, now);
    var b := PrefixRecord(c, s, a, router, prior, p, now);
    ghost var blank := Binding(s.id, p, a.client, "", "", Offered, Delegated, 0, NoInfo);
    PrefixLawful(tx, s, a, now, blank);
    ReadKeyed(tx.leases, s.id, p);
    RouterWellFormed(tx.leases, s, a.duid, now);
    PrefixRecordWellFormed(c, s, a, router, prior, p, now);
    PrefixLawful(tx, s, a, now, b);
    var kind := if !a.commit then "offer"
                else if prior.client == a.client && prior.state == Active && prior.end > now then "renew"
                else "grant";
    tx' := Save(tx, b, kind, now);
    r := Delegates(b, kind);
  }

  /** Allocation under a fixed pool stays in the pool. */
  lemma AllocationStaysInPool(m: Bucket, s: Scope, a: Ask, now: int, b: Binding)
    requires Keyed(m) && FromPool(m, s, now) && Label(s.id)
    requires ChosenPrefix(m, s, a, now) == Some(b.address) && b.scope == s.id
    ensures FromPool(m[KeyOf(b) := b], s, now)
  {
    var m', held := m[KeyOf(b) := b], Holdings(m, s, a.client, now);
    if held != {} {
      var k :| k in m && HoldsPrefix(m[k], s, a.client, now) && m[k].address == b.address;
      assert FromPoolAt(m, s, k, now);
    }
    forall k ensures FromPoolAt(m', s, k, now) {
      assert FromPoolAt(m, s, k, now);
    }
  }

  /** The delegation a client holds, ended. */
  ghost function GivenBack(m: Bucket, s: Scope, client: string, now: int): Binding
    requires Holdings(m, s, client, now) != {}
  {
    Read(m, s.id, LastOf(Holdings(m, s, client, now))).(state := Released, end := now)
  }

  /** releasePrefix: ends every delegation the client holds in the scope. */
  method ReleasePrefix(tx: Database, s: Scope, client: string, now: int) returns (tx': Database, ok: bool)
    requires Valid(tx) && 0 <= now && LastTime(tx.events) <= now && Label(s.id) && ValidClient(client)
    ensures Valid(tx') && tx.events <= tx'.events && tx'.serverDuid == tx.serverDuid
    ensures ok <==> Holdings(tx.leases, s, client, now) != {}
    ensures !ok ==> tx' == tx
    ensures ok ==> var b := GivenBack(tx.leases, s, client, now);
                   tx'.leases == tx.leases[KeyOf(b) := b] && Holdings(tx'.leases, s, client, now) == {}
  {
    var held := HeldPrefix(tx, s, client, now);
    if held.None? {
      return tx, false;
    }
    var b := held.value.(state := Released, end := now);
    ReadKeyed(tx.leases, s.id, b.address);
    tx' := Save(tx, b, "release", now);
    ok := true;
    forall x | x in Holdings(tx'.leases, s, client, now) ensures false {
      var k :| k in tx'.leases && HoldsPrefix(tx'.leases[k], s, client, now) && tx'.leases[k].address == x;
      assert k != KeyOf(b) && KeyedAt(tx.leases, k);
      assert x in Holdings(tx.leases, s, client, now);
      HoldingUnique(tx, s, client, now, x, b.address);
    }
  }

  // ---- Abandoning delegations --------------------------------------------------------------

  predicate Abandons(b: Binding, pools: set<string>, now: int) {
    b.origin == Delegated && b.scope in pools && b.end > now && (b.state == Active || b.state == Offered)
  }

  function Abandoned(b: Binding, now: int): Binding {
    b.(state := Released, end := now,
       info := b.info.(evidence := "abandoned: rolled back to the legacy allocator, which cannot serve delegations"))
  }

  predicate AbandonedAt(m: Bucket, m': Bucket, pools: set<string>, k: string, now: int) {
    && (k in m <==> k in m')
    && (k in m ==> m'[k] == if Abandons(m[k], pools, now) then Abandoned(m[k], now) else m[k])
  }

  /** The same, with the keys of todo still to be done. */
  predicate PartlyAt(m: Bucket, m': Bucket, todo: set<string>, pools: set<string>, k: string, now: int) {
    if k in todo then k in m && k in m' && m'[k] == m[k] else AbandonedAt(m, m', pools, k, now)
  }

  method AbandonOne(tx: Database, ghost m: Bucket, todo: set<string>, pools: set<string>, k: string,
                    now: int) returns (tx': Database)
    requires Valid(tx) && 0 <= now && k in todo && k in tx.leases && Abandons(tx.leases[k], pools, now)
    requires forall j :: PartlyAt(m, tx.leases, todo, pools, j, now)
    ensures Valid(tx') && tx.events <= tx'.events && tx'.associations == tx.associations
            && tx'.serverDuid == tx.serverDuid
    ensures forall j :: PartlyAt(m, tx'.leases, todo - {k}, pools, j, now)
  {
    assert KeyedAt(tx.leases, k);
    tx' := Save(tx, Abandoned(tx.leases[k], now), "release", now);
    forall j ensures PartlyAt(m, tx'.leases, todo - {k}, pools, j, now) {
      assert PartlyAt(m, tx.leases, todo, pools, j, now);
    }
  }

  /** abandonDelegations: every live delegation of the pools ends, and nothing else does. */
  method AbandonDelegations(tx: Database, pools: set<string>, now: int) returns (tx': Database, count: nat)
    requires Valid(tx) && 0 <= now
    ensures Valid(tx') && tx.events <= tx'.events && tx'.associations == tx.associations
            && tx'.serverDuid == tx.serverDuid
    ensures forall k :: AbandonedAt(tx.leases, tx'.leases, pools, k, now)
    ensures count == |set k | k in tx.leases && Abandons(tx.leases[k], pools, now)|
  {
    var live := set k | k in tx.leases && Abandons(tx.leases[k], pools, now);
    tx', count := tx, 0;
    var todo := live;
    while todo != {}
      invariant Valid(tx') && tx.events <= tx'.events && tx'.associations == tx.associations
                && tx'.serverDuid == tx.serverDuid
      invariant todo <= live && count + |todo| == |live|
      invariant forall k :: PartlyAt(tx.leases, tx'.leases, todo, pools, k, now)
      decreases |todo|
    {
      var k := Pick(todo);
      assert PartlyAt(tx.leases, tx'.leases, todo, pools, k, now);
      tx' := AbandonOne(tx', tx.leases, todo, pools, k, now);
      todo, count := todo - {k}, count + 1;
    }
    forall k ensures AbandonedAt(tx.leases, tx'.leases, pools, k, now) {
      assert PartlyAt(tx.leases, tx'.leases, todo, pools, k, now);
    }
  }
}
