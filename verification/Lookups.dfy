/** Reading the ledger through its indexes (internal/addressbook/index.go and the DNS
    lookup of store.go): each lookup returns exactly what filtering a full scan would. */
module Lookups {
  import opened Strings
  import opened Bindings
  import opened Database
  import Sets

  ghost predicate Stored(db: Database, b: Binding) {
    KeyedAt(db.leases, KeyOf(b)) && KeyOf(b) in db.leases && db.leases[KeyOf(b)] == b
  }

  lemma SplitEntry(b: Binding, e: Entry)
    requires WellFormed(b) && e in IndexEntries(b)
    ensures e.index == ByAddress ==> Split(e.key, '\0') == [b.address, b.scope]
    ensures e.index != ByAddress ==> |Split(e.key, '\0')| == 3 && Split(e.key, '\0')[1..] == [b.scope, b.address]
  {
    if e.index == ByAddress {
      SplitFree(b.scope, '\0');
      SplitJoin(b.address, '\0', b.scope);
    } else {
      SplitFree(b.address, '\0');
      SplitJoin(b.scope, '\0', b.address);
      var first := match e.index case ByClient => b.client case ByMac => b.mac case _ => b.name;
      SplitJoin(first, '\0', Join(b.scope, '\0', b.address));
    }
  }

  /** The key a live binding has in one index. */
  function KeyIn(index: IndexName, b: Binding): string {
    match index
    case ByClient => Join3(b.client, b.scope, b.address)
    case ByMac => Join3(b.mac, b.scope, b.address)
    case ByName => Join3(b.name, b.scope, b.address)
    case ByAddress => Join(b.address, '\0', b.scope)
  }

  predicate InIndex(index: IndexName, b: Binding) {
    && Live(b)
    && (index == ByMac ==> b.mac != "")
    && (index == ByName ==> b.state == Active && b.name != "")
  }

  lemma EntriesAre(index: IndexName, b: Binding)
    ensures forall e <- IndexEntries(b) | e.index == index :: InIndex(index, b) && e.key == KeyIn(index, b)
    ensures InIndex(index, b) ==> Entry(index, KeyIn(index, b)) in IndexEntries(b)
  {
  }

  /** The binding an index key names, re-read from the ledger. */
  function ReadEntry(m: Bucket, index: IndexName, key: string): Option<Binding> {
    var parts := Split(key, '\0');
    var b := if index == ByAddress && |parts| == 2 then Read(m, parts[1], parts[0])
             else if |parts| == 3 then Read(m, parts[1], parts[2])
             else NoBinding;
    if b.scope == "" || !Live(b) then None else Some(b)
  }

  lemma ReadEntryExact(db: Database, index: IndexName, key: string)
    requires Consistent(db) && Entry(index, key) in db.index
    ensures ReadEntry(db.leases, index, key).Some?
    ensures var b := ReadEntry(db.leases, index, key).value;
            Stored(db, b) && InIndex(index, b) && KeyIn(index, b) == key
  {
    var k :| k in db.leases && Entry(index, key) in IndexEntries(db.leases[k]);
    var b := db.leases[k];
    assert KeyedAt(db.leases, k);
    SplitEntry(b, Entry(index, key));
    EntriesAre(index, b);
    if index != ByAddress {
      var parts := Split(key, '\0');
      assert parts[1] == parts[1..][0] && parts[2] == parts[1..][1];
    }
  }

  ghost predicate Names(db: Database, index: IndexName, key: string, b: Binding) {
    Stored(db, b) && InIndex(index, b) && KeyIn(index, b) == key
  }

  /** Re-reads the binding of each key, dropping what is no longer live. */
  method ReadEntries(db: Database, index: IndexName, keys: seq<string>) returns (out: seq<Binding>)
    requires Consistent(db)
    requires forall k <- keys :: Entry(index, k) in db.index
    ensures |out| == |keys| && forall i | 0 <= i < |keys| :: Names(db, index, keys[i], out[i])
  {
    out := [];
    for i := 0 to |keys|
      invariant |out| == i && forall j | 0 <= j < i :: Names(db, index, keys[j], out[j])
    {
      ReadEntryExact(db, index, keys[i]);
      var b := ReadEntry(db.leases, index, keys[i]);
      if b.Some? {
        out := out + [b.value];
      }
    }
  }

  /** liveFromIndex: the live bindings under a key prefix of an index, in key order. */
  method LiveFromIndex(db: Database, index: IndexName, prefix: string) returns (out: seq<Binding>)
    requires Consistent(db)
    ensures forall b :: b in out <==> Stored(db, b) && InIndex(index, b) && HasPrefix(KeyIn(index, b), prefix)
    ensures forall i, j | 0 <= i < j < |out| :: Less(KeyIn(index, out[i]), KeyIn(index, out[j]))
  {
    var bucket := set e | e in db.index && e.index == index :: e.key;
    var keys := Scan(bucket, prefix);
    assert forall k <- keys :: k in bucket;
    out := ReadEntries(db, index, keys);
    forall b | Stored(db, b) && InIndex(index, b) && HasPrefix(KeyIn(index, b), prefix) ensures b in out {
      IndexHas(db, index, b);
      assert KeyIn(index, b) in keys;
      var i :| 0 <= i < |keys| && keys[i] == KeyIn(index, b);
      SameKeySameBinding(db, index, b, out[i]);
    }
  }

  lemma IndexHas(db: Database, index: IndexName, b: Binding)
    requires Consistent(db) && Stored(db, b) && InIndex(index, b)
    ensures Entry(index, KeyIn(index, b)) in db.index
  {
    EntriesAre(index, b);
  }

  lemma SameKeySameBinding(db: Database, index: IndexName, b: Binding, b': Binding)
    requires Consistent(db) && Stored(db, b) && Stored(db, b')
    requires InIndex(index, b) && InIndex(index, b') && KeyIn(index, b) == KeyIn(index, b')
    ensures b == b'
  {
    EntriesAre(index, b);
    EntriesAre(index, b');
    EntryIdentifies(b, b', Entry(index, KeyIn(index, b)));
  }

  /** The key prefix of everything a field value, and further fields, start. */
  function Prefix1(a: string): string {
    a + ['\0']
  }

  function Prefix2(a: string, b: string): string {
    a + ['\0'] + b + ['\0']
  }

  lemma Prefix2Exact(a: string, b: string, a': string, b': string, c': string)
    requires Free('\0', a) && Free('\0', b) && Free('\0', a') && Free('\0', b')
    ensures HasPrefix(Join3(a', b', c'), Prefix2(a, b)) <==> a == a' && b == b'
  {
    var k, p, q := Join3(a', b', c'), Prefix2(a, b), a + ['\0'];
    var k', p' := Join(b', '\0', c'), b + ['\0'];
    assert p == q + p';
    if a == a' && b == b' {
      assert k[..|p|] == p;
    }
    if HasPrefix(k, p) {
      assert k[..|q|] == k[..|p|][..|q|] == q;
      JoinHasPrefix(a, a', '\0', k');
      assert k == q + k';
      assert k'[..|p'|] == k[..|p|][|q|..] == p';
      JoinHasPrefix(b, b', '\0', c');
    }
  }

  /** liveByClient: a client's live bindings in one scope, by ascending address. */
  method LiveByClient(db: Database, scope: string, client: string) returns (out: seq<Binding>)
    requires Consistent(db) && Free('\0', scope) && Free('\0', client)
    ensures forall b :: b in out <==> Stored(db, b) && Live(b) && b.scope == scope && b.client == client
    ensures forall i, j | 0 <= i < j < |out| :: Less(out[i].address, out[j].address)
  {
    out := LiveFromIndex(db, ByClient, Prefix2(client, scope));
    forall b | Stored(db, b)
      ensures HasPrefix(KeyIn(ByClient, b), Prefix2(client, scope)) <==> b.client == client && b.scope == scope
    {
      Prefix2Exact(client, scope, b.client, b.scope, b.address);
    }
    forall i, j | 0 <= i < j < |out| ensures Less(out[i].address, out[j].address) {
      assert out[i] in out && out[j] in out;
      var p := Prefix2(client, scope);
      assert KeyIn(ByClient, out[i]) == p + out[i].address && KeyIn(ByClient, out[j]) == p + out[j].address;
      LessAppend(p, out[i].address, out[j].address);
    }
  }

  /** liveByClientPrefix: the live bindings of every client whose identity starts so. */
  method LiveByClientPrefix(db: Database, prefix: string) returns (out: seq<Binding>)
    requires Consistent(db) && Free('\0', prefix)
    ensures forall b :: b in out <==> Stored(db, b) && Live(b) && HasPrefix(b.client, prefix)
    ensures forall i, j | 0 <= i < j < |out| :: Less(KeyIn(ByClient, out[i]), KeyIn(ByClient, out[j]))
  {
    out := LiveFromIndex(db, ByClient, prefix);
    forall b | Stored(db, b) ensures HasPrefix(KeyIn(ByClient, b), prefix) <==> HasPrefix(b.client, prefix) {
      JoinShortPrefix(prefix, b.client, '\0', Join(b.scope, '\0', b.address));
    }
  }

  /** liveByMAC: a hardware address's live bindings. */
  method LiveByMac(db: Database, mac: string) returns (out: seq<Binding>)
    requires Consistent(db) && Free('\0', mac)
    ensures forall b :: b in out <==> Stored(db, b) && Live(b) && b.mac == mac && mac != ""
  {
    out := LiveFromIndex(db, ByMac, Prefix1(mac));
    forall b | Stored(db, b) ensures HasPrefix(KeyIn(ByMac, b), Prefix1(mac)) <==> b.mac == mac {
      JoinHasPrefix(mac, b.mac, '\0', Join(b.scope, '\0', b.address));
    }
  }

  /** liveByAddress: the live bindings at an address, across scopes. */
  method LiveByAddress(db: Database, address: string) returns (out: seq<Binding>)
    requires Consistent(db) && Free('\0', address)
    ensures forall b :: b in out <==> Stored(db, b) && Live(b) && b.address == address
  {
    out := LiveFromIndex(db, ByAddress, Prefix1(address));
    forall b | Stored(db, b) ensures HasPrefix(KeyIn(ByAddress, b), Prefix1(address)) <==> b.address == address {
      JoinHasPrefix(address, b.address, '\0', b.scope);
    }
  }

  /** activeByName: the active bindings carrying a name, across scopes. */
  method ActiveByName(db: Database, name: string) returns (out: seq<Binding>)
    requires Consistent(db) && Free('\0', name)
    ensures forall b :: b in out <==> Stored(db, b) && b.state == Active && b.name == name
  {
    var all := LiveFromIndex(db, ByName, Prefix1(name));
    out := [];
    for i := 0 to |all|
      invariant forall b :: b in out <==> b in all[..i] && b.state == Active && b.name == name
    {
      if all[i].state == Active && all[i].name == name {
        out := out + [all[i]];
      }
    }
    forall b | Stored(db, b) && b.name == name ensures HasPrefix(KeyIn(ByName, b), Prefix1(name)) {
      JoinHasPrefix(name, b.name, '\0', Join(b.scope, '\0', b.address));
    }
  }

  /** forEachLive: the expiry index visits exactly the live bindings. */
  method AllLive(db: Database) returns (out: seq<Binding>)
    requires Consistent(db)
    ensures forall b :: b in out <==> Stored(db, b) && Live(b)
  {
    out := [];
    var rest := db.expiry;
    while rest != {}
      invariant rest <= db.expiry
      invariant forall b :: b in out <==> Stored(db, b) && Live(b) && (b.end, KeyOf(b)) !in rest
    {
      var e := Sets.Pick(rest);
      rest := rest - {e};
      assert KeyedAt(db.leases, e.1);
      assert e.1 in db.leases && Live(db.leases[e.1]) && e == (db.leases[e.1].end, e.1);
      out := out + [db.leases[e.1]];
    }
    assert forall b | Stored(db, b) && Live(b) :: (b.end, KeyOf(b)) in db.expiry;
  }

  lemma DnsPrefixExact(scope: string, name: string, b: Binding)
    requires Free('/', scope) && WellFormed(b) && b.origin != Delegated
    ensures HasPrefix(DnsKey(b), scope + "/" + name + "/") <==> b.scope == scope && b.name == name
  {
    var k, p := DnsKey(b), scope + "/" + name + "/";
    var q, k', p' := scope + "/", Join(b.name, '/', b.address), name + "/";
    assert p == q + p';
    if b.scope == scope && b.name == name {
      assert k[..|p|] == p;
    }
    if HasPrefix(k, p) {
      assert k[..|q|] == k[..|p|][..|q|] == q;
      JoinHasPrefix(scope, b.scope, '/', k');
      assert k == q + k';
      assert k'[..|p'|] == k[..|p|][|q|..] == p';
      OneSlash(b.name, b.address, |name|);
      assert k'[|name|] == p'[|name|];
      assert k'[..|name|] == k'[..|p'|][..|name|] == name;
      assert k'[..|b.name|] == b.name;
    }
  }

  /** With no slash in name or address, the joined key has its only slash between them. */
  lemma OneSlash(name: string, address: string, i: nat)
    requires Free('/', name) && Free('/', address)
    ensures i < |Join(name, '/', address)| && Join(name, '/', address)[i] == '/' ==> i == |name|
  {
    var k := Join(name, '/', address);
    assert forall j | 0 <= j < |name| :: k[j] == name[j];
    assert forall j | |name| < j < |k| :: k[j] == address[j - |name| - 1];
  }

  /** DNSBindings: by exact address, or by name through the DNS index. */
  method DnsBindings(db: Database, scope: string, name: string, address: string, now: int) returns (out: seq<Binding>)
    requires Consistent(db) && Free('/', scope)
    ensures address != "" ==> forall b :: b in out <==>
              Stored(db, b) && b.state == Active && b.end > now && b.scope == scope && b.address == address
    ensures address == "" ==> forall b :: b in out <==>
              Stored(db, b) && b.state == Active && b.end > now && b.scope == scope && b.name == name
              && b.origin != Delegated
  {
    out := [];
    if address != "" {
      var b := Read(db.leases, scope, address);
      ReadKeyed(db.leases, scope, address);
      if b.state == Active && b.end > now {
        out := [b];
      }
      forall x | Stored(db, x) && KeyOf(x) == Key(scope, address) ensures x.scope == scope && x.address == address {
        KeyInjective(x.scope, x.address, scope, address);
      }
      return;
    }
    var keys := Scan(db.dns.Keys, scope + "/" + name + "/");
    for i := 0 to |keys|
      invariant forall b :: b in out <==> Stored(db, b) && Resolvable(b) && b.end > now && DnsKey(b) in keys[..i]
    {
      assert keys[i] in db.dns;
      var k := db.dns[keys[i]];
      assert Resolves(db.dns, db.leases, keys[i]) && KeyedAt(db.leases, k);
      var b := db.leases[k];
      if b.state == Active && b.end > now {
        out := out + [b];
      }
      forall x | Stored(db, x) && Resolvable(x) && DnsKey(x) == keys[i] ensures x == b {
        assert Resolved(db.dns, db.leases, KeyOf(x));
      }
    }
    forall b | Stored(db, b) && Resolvable(b)
      ensures DnsKey(b) in keys <==> b.scope == scope && b.name == name
    {
      assert Resolved(db.dns, db.leases, KeyOf(b));
      DnsPrefixExact(scope, name, b);
    }
  }
}
