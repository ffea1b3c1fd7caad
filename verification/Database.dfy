/** The ledger database: the binding bucket, its event log and its secondary indexes, and
    the one operation that writes them (internal/addressbook/store.go and index.go). */
module Database {
  import opened Strings
  import opened Bindings

  datatype IndexName = ByClient | ByMac | ByName | ByAddress

  /** A key of one of the four secondary index buckets. */
  datatype Entry = Entry(index: IndexName, key: string)

  datatype Association = Association(device: string, name: string, nodeId: string, reason: string)

  datatype Database = Database(
    leases: Bucket,
    events: seq<Event>,
    index: set<Entry>,
    expiry: set<(int, string)>,   // end time, binding key
    dns: map<string, string>,     // scope/name/address -> binding key
    associations: map<string, Association>,
    serverDuid: string)            // the DHCPv6 server identity, in hex; empty when none

  function Join3(a: string, b: string, c: string): string {
    Join(a, '\0', Join(b, '\0', c))
  }

  /** The index keys a binding has: none unless it is live. */
  function IndexEntries(b: Binding): seq<Entry> {
    if !Live(b) then []
    else
      [Entry(ByClient, Join3(b.client, b.scope, b.address))]
      + (if b.mac != "" then [Entry(ByMac, Join3(b.mac, b.scope, b.address))] else [])
      + (if b.state == Active && b.name != "" then [Entry(ByName, Join3(b.name, b.scope, b.address))] else [])
      + [Entry(ByAddress, Join(b.address, '\0', b.scope))]
  }

  function DnsKey(b: Binding): string {
    Join(b.scope, '/', Join(b.name, '/', b.address))
  }

  predicate Resolvable(b: Binding) {
    b.state == Active && b.origin != Delegated
  }

  // ---- What the indexes must be: derived from the bindings by a full scan ----

  ghost function Indexed(m: Bucket): set<Entry> {
    set k, e | k in m && e in IndexEntries(m[k]) :: e
  }

  ghost function Expiries(m: Bucket): set<(int, string)> {
    set k | k in m && Live(m[k]) :: (m[k].end, k)
  }

  predicate Resolves(dns: map<string, string>, m: Bucket, d: string) {
    d in dns ==> dns[d] in m && Resolvable(m[dns[d]]) && d == DnsKey(m[dns[d]])
  }

  predicate Resolved(dns: map<string, string>, m: Bucket, k: string) {
    k in m && Resolvable(m[k]) ==> DnsKey(m[k]) in dns && dns[DnsKey(m[k])] == k
  }

  ghost predicate DnsExact(dns: map<string, string>, m: Bucket) {
    (forall d :: Resolves(dns, m, d)) && (forall k :: Resolved(dns, m, k))
  }

  ghost predicate Consistent(db: Database) {
    && Keyed(db.leases)
    && db.index == Indexed(db.leases)
    && db.expiry == Expiries(db.leases)
    && DnsExact(db.dns, db.leases)
    && (forall c <- db.associations :: Label(db.associations[c].name))
  }

  /** The ledger invariant: the indexes agree with the bindings, the bindings are what the
      log replays to, and every write in the log was lawful at its time. */
  ghost predicate Valid(db: Database) {
    && Consistent(db)
    && db.leases == Replay(db.events)
    && Timely(db.events)
    && Exclusive(db.events)
  }

  // ---- Keys identify bindings ------------------------------------------------

  lemma Join3Injective(a: string, b: string, c: string, a': string, b': string, c': string)
    requires Free('\0', a) && Free('\0', b) && Free('\0', a') && Free('\0', b')
    requires Join3(a, b, c) == Join3(a', b', c')
    ensures a == a' && b == b' && c == c'
  {
    JoinInjective(a, a', '\0', Join(b, '\0', c), Join(b', '\0', c'));
    JoinInjective(b, b', '\0', c, c');
  }

  /** An index key belongs to one address of one scope. */
  lemma EntryIdentifies(b: Binding, b': Binding, e: Entry)
    requires WellFormed(b) && WellFormed(b')
    requires e in IndexEntries(b) && e in IndexEntries(b')
    ensures KeyOf(b) == KeyOf(b')
  {
    match e.index
    case ByClient => Join3Injective(b.client, b.scope, b.address, b'.client, b'.scope, b'.address);
    case ByMac => Join3Injective(b.mac, b.scope, b.address, b'.mac, b'.scope, b'.address);
    case ByName => Join3Injective(b.name, b.scope, b.address, b'.name, b'.scope, b'.address);
    case ByAddress => JoinInjective(b.address, b'.address, '\0', b.scope, b'.scope);
  }

  lemma DnsKeyIdentifies(b: Binding, b': Binding)
    requires WellFormed(b) && WellFormed(b') && DnsKey(b) == DnsKey(b')
    ensures KeyOf(b) == KeyOf(b') && b.name == b'.name
  {
    JoinInjective(b.scope, b'.scope, '/', Join(b.name, '/', b.address), Join(b'.name, '/', b'.address));
    JoinInjective(b.name, b'.name, '/', b.address, b'.address);
  }

  // ---- save -------------------------------------------------------------------

  function SetOf(s: seq<Entry>): set<Entry> {
    set e | e in s
  }

  lemma SetOfSnoc(s: seq<Entry>, i: nat)
    requires i < |s|
    ensures SetOf(s[..i + 1]) == SetOf(s[..i]) + {s[i]}
  {
    assert s[..i + 1] == s[..i] + [s[i]];
  }

  /** Moves a binding's index entries from its old value to its new one. */
  method Reindex(index: set<Entry>, prior: Binding, b: Binding) returns (index': set<Entry>)
    ensures index' == index - SetOf(IndexEntries(prior)) + SetOf(IndexEntries(b))
  {
    index' := index;
    var gone, added := IndexEntries(prior), IndexEntries(b);
    for i := 0 to |gone|
      invariant index' == index - SetOf(gone[..i])
    {
      index' := index' - {gone[i]};
      SetOfSnoc(gone, i);
    }
    assert gone[..|gone|] == gone && added[..|added|] == added;
    for i := 0 to |added|
      invariant index' == index - SetOf(gone) + SetOf(added[..i])
    {
      index' := index' + {added[i]};
      SetOfSnoc(added, i);
    }
  }

  lemma IndexedUpdate(m: Bucket, b: Binding)
    requires Keyed(m) && WellFormed(b)
    ensures Indexed(m[KeyOf(b) := b]) ==
              Indexed(m) - SetOf(IndexEntries(Read(m, b.scope, b.address))) + SetOf(IndexEntries(b))
  {
    var k, prior := KeyOf(b), Read(m, b.scope, b.address);
    var m' := m[k := b];
    forall e | e in Indexed(m')
      ensures e in Indexed(m) - SetOf(IndexEntries(prior)) + SetOf(IndexEntries(b))
    {
      var j :| j in m' && e in IndexEntries(m'[j]);
      assert KeyedAt(m, j) && KeyedAt(m, k);
      if j != k && e in IndexEntries(prior) { EntryIdentifies(m[j], prior, e); }
    }
    forall e | e in Indexed(m) - SetOf(IndexEntries(prior)) + SetOf(IndexEntries(b))
      ensures e in Indexed(m')
    {
      if e in IndexEntries(b) {
        assert m'[k] == b;
      } else {
        var j :| j in m && e in IndexEntries(m[j]);
        assert j != k && m'[j] == m[j];
      }
    }
  }

  ghost function DnsAfter(dns: map<string, string>, prior: Binding, b: Binding): map<string, string> {
    var kept := if prior.name != "" then dns - {DnsKey(prior)} else dns;
    if Resolvable(b) then kept[DnsKey(b) := KeyOf(b)] else kept
  }

  /** Two resolvable addresses never share a DNS key. */
  lemma DnsKeysApart(m: Bucket, j: string, b: Binding)
    requires Keyed(m) && WellFormed(b) && j in m && j != KeyOf(b)
    ensures DnsKey(m[j]) != DnsKey(b)
  {
    assert KeyedAt(m, j);
    if DnsKey(m[j]) == DnsKey(b) {
      DnsKeyIdentifies(m[j], b);
    }
  }

  lemma DnsUpdate(dns: map<string, string>, m: Bucket, b: Binding)
    requires Keyed(m) && WellFormed(b) && DnsExact(dns, m)
    ensures DnsExact(DnsAfter(dns, Read(m, b.scope, b.address), b), m[KeyOf(b) := b])
  {
    var k, prior := KeyOf(b), Read(m, b.scope, b.address);
    var dns', m' := DnsAfter(dns, prior, b), m[k := b];
    assert KeyedAt(m, k);
    forall d ensures Resolves(dns', m', d) {
      if d in dns' && !(Resolvable(b) && d == DnsKey(b)) {
        assert Resolves(dns, m, d) && dns'[d] == dns[d];
        assert dns[d] != k;
      }
    }
    forall j ensures Resolved(dns', m', j) {
      if j in m' && Resolvable(m'[j]) && j != k {
        assert Resolved(dns, m, j);
        DnsKeysApart(m, j, b);
        if k in m { DnsKeysApart(m, j, prior); }
      }
    }
  }

  function ExpiryEntry(b: Binding): set<(int, string)> {
    if Live(b) then {(b.end, KeyOf(b))} else {}
  }

  lemma ExpiriesUpdate(m: Bucket, b: Binding)
    requires Keyed(m)
    ensures Expiries(m[KeyOf(b) := b]) == Expiries(m) - ExpiryEntry(Read(m, b.scope, b.address)) + ExpiryEntry(b)
  {
    var k, m' := KeyOf(b), m[KeyOf(b) := b];
    var prior := Read(m, b.scope, b.address);
    assert KeyedAt(m, k);
    forall e | e in Expiries(m') ensures e in Expiries(m) - ExpiryEntry(prior) + ExpiryEntry(b) {
      if e.1 != k { assert m'[e.1] == m[e.1]; }
    }
    forall e | e in Expiries(m) - ExpiryEntry(prior) + ExpiryEntry(b) ensures e in Expiries(m') {
      if e in ExpiryEntry(b) {
        assert m'[k] == b;
      } else {
        assert e.1 in m && Live(m[e.1]) && e.0 == m[e.1].end;
        assert e.1 != k && m'[e.1] == m[e.1];
      }
      assert e == (m'[e.1].end, e.1);
    }
  }

  /** Removes the old name of an address and adds the new one. */
  method RewriteDns(dns: map<string, string>, prior: Binding, b: Binding) returns (dns': map<string, string>)
    ensures dns' == DnsAfter(dns, prior, b)
  {
    dns' := dns;
    if prior.name != "" {
      dns' := dns' - {DnsKey(prior)};
    }
    if Resolvable(b) {
      dns' := dns'[DnsKey(b) := KeyOf(b)];
    }
  }

  /** save: replaces a binding, moves its entries in every index, and appends the event,
      stamped by a clock that never runs backwards. */
  method Save(tx: Database, b: Binding, kind: string, now: int) returns (tx': Database)
    requires Consistent(tx) && WellFormed(b)
    ensures Consistent(tx')
    ensures tx'.leases == tx.leases[KeyOf(b) := b] && tx'.associations == tx.associations
            && tx'.serverDuid == tx.serverDuid
    ensures exists at :: at >= now && at >= LastTime(tx.events) && tx'.events == tx.events + [Event(at, kind, Some(b))]
    ensures Valid(tx) && Lawful(tx.leases, b, now) ==> Valid(tx')
  {
    var prior := Read(tx.leases, b.scope, b.address);
    var dns := RewriteDns(tx.dns, prior, b);
    var index := Reindex(tx.index, prior, b);
    var expiry := tx.expiry - ExpiryEntry(prior) + ExpiryEntry(b);
    var at :| at >= now && at >= LastTime(tx.events);
    tx' := Database(tx.leases[KeyOf(b) := b], tx.events + [Event(at, kind, Some(b))], index, expiry, dns,
                    tx.associations, tx.serverDuid);
    SavedConsistent(tx, tx', b);
    if Valid(tx) && Lawful(tx.leases, b, now) {
      LogExtended(tx, b, kind, now, at);
    }
  }

  lemma SavedConsistent(tx: Database, tx': Database, b: Binding)
    requires Consistent(tx) && WellFormed(b)
    requires tx'.leases == tx.leases[KeyOf(b) := b]
    requires tx'.index == tx.index - SetOf(IndexEntries(Read(tx.leases, b.scope, b.address))) + SetOf(IndexEntries(b))
    requires tx'.expiry == tx.expiry - ExpiryEntry(Read(tx.leases, b.scope, b.address)) + ExpiryEntry(b)
    requires tx'.dns == DnsAfter(tx.dns, Read(tx.leases, b.scope, b.address), b)
    requires tx'.associations == tx.associations
    ensures Consistent(tx')
  {
    forall k ensures KeyedAt(tx'.leases, k) {
      assert KeyedAt(tx.leases, k);
    }
    assert Indexed(tx'.leases) == tx'.index by { IndexedUpdate(tx.leases, b); }
    assert Expiries(tx'.leases) == tx'.expiry by { ExpiriesUpdate(tx.leases, b); }
    assert DnsExact(tx'.dns, tx'.leases) by { DnsUpdate(tx.dns, tx.leases, b); }
  }

  lemma LogExtended(tx: Database, b: Binding, kind: string, now: int, at: int)
    requires Valid(tx) && WellFormed(b) && Lawful(tx.leases, b, now) && at >= now && at >= LastTime(tx.events)
    ensures var events := tx.events + [Event(at, kind, Some(b))];
            Timely(events) && Exclusive(events) && Replay(events) == tx.leases[KeyOf(b) := b]
  {
    var e := Event(at, kind, Some(b));
    ReplaySnoc(tx.events, e);
    LawfulLater(tx.leases, b, now, at);
    ExclusiveSnoc(tx.events, e);
    TimelySnoc(tx.events, e);
  }

  /** audit: an event that carries no binding. */
  method Audit(tx: Database, kind: string, now: int) returns (tx': Database)
    requires Valid(tx)
    ensures Valid(tx') && exists at :: at >= now && tx'.events == tx.events + [Event(at, kind, None)]
    ensures tx' == tx.(events := tx'.events)
  {
    var at :| at >= now && at >= LastTime(tx.events);
    var e := Event(at, kind, None);
    tx' := tx.(events := tx.events + [e]);
    ReplaySnoc(tx.events, e);
    TimelySnoc(tx.events, e);
    ExclusiveSnoc(tx.events, e);
  }

  /** A new ledger. */
  const NewDatabase := Database(map[], [], {}, {}, map[], map[], "")

  lemma NewValid()
    ensures Valid(NewDatabase)
  {
    var m: Bucket, dns: map<string, string> := map[], map[];
    assert Indexed(m) == {} && Expiries(m) == {};
    forall k ensures KeyedAt(m, k) {
    }
    forall k ensures Resolves(dns, m, k) {
    }
    forall k ensures Resolved(dns, m, k) {
    }
  }
}
