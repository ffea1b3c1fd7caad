/** Attribution: joining a node's authenticated report of itself with the ledger
    (internal/addressbook/identity.go) and operator repairs (observations.go). Neither is
    ever a reason for an address to change hands. */
module Identity {
  import opened Strings
  import opened Bindings
  import opened Configs
  import opened Database
  import opened Lookups
  import opened LeaseText

  datatype Observation = Observation(scope: string, address: string, mac: string, origin: string, until: int)

  /** The sightings on file, under binding keys. */
  type Sightings = map<string, Observation>

  datatype Interface = Interface(mac: string, addresses: seq<string>)

  datatype Node = Node(id: string, dnsName: string, interfaces: seq<Interface>)

  ghost predicate Filed(obs: Sightings) {
    forall k <- obs :: && k == Key(obs[k].scope, obs[k].address)
                       && Label(obs[k].scope) && PlainAddress(obs[k].address) && Free('\0', obs[k].mac)
  }

  predicate ValidReport(c: Config, node: Node) {
    && node.id != "" && |node.interfaces| <= 64
    && forall f <- node.interfaces :: && ParseMac(f.mac).Some? && |f.addresses| <= 128
                                      && forall ip <- f.addresses :: c.parse(ip).Some?
  }

  // ---- Evidence ----------------------------------------------------------------------------

  /** A fresh sighting of a hardware address at an address. */
  predicate Sighted(obs: Sightings, scope: string, address: string, mac: string, now: int) {
    var k := Key(scope, address);
    k in obs && obs[k].until > now && obs[k].mac == mac
  }

  /** An active lease at a reported address, of the interface's own hardware address or
      where that one was sighted. */
  predicate LeaseEvidence(m: Bucket, obs: Sightings, mac: string, ip: string, b: Binding, now: int) {
    && KeyOf(b) in m && m[KeyOf(b)] == b && b.address == ip && b.state == Active && b.end > now
    && (b.mac == mac || Sighted(obs, b.scope, b.address, mac, now))
  }

  function NeighborRecord(c: Config, o: Observation, now: int): Binding {
    Binding(o.scope, o.address, "neighbor:" + o.mac, o.mac, "", Active, NeighborReport, o.until,
            Info(now, 0, "", "", DeviceId(c, o.scope, o.mac), "", "", "", ""))
  }

  /** A fresh sighting at a reported address of a scope that nobody holds. */
  predicate NeighborAt(c: Config, m: Bucket, obs: Sightings, s: Scope, mac: string, address: string, b: Binding,
                       now: int) {
    && s.contains(address) && Sighted(obs, s.id, address, mac, now)
    && !Held(Read(m, s.id, address), now)
    && b == NeighborRecord(c, obs[Key(s.id, address)], now)
  }

  predicate NeighborEvidence(c: Config, m: Bucket, obs: Sightings, mac: string, ip: string, b: Binding, now: int) {
    && c.parse(ip).Some?
    && exists i | 0 <= i < |c.scopes| :: NeighborAt(c, m, obs, c.scopes[i], mac, c.parse(ip).value.text, b, now)
  }

  predicate Evidence(c: Config, m: Bucket, obs: Sightings, mac: string, ip: string, b: Binding, now: int) {
    LeaseEvidence(m, obs, mac, ip, b, now) || NeighborEvidence(c, m, obs, mac, ip, b, now)
  }

  /** An interface's hardware address, in canonical form. */
  function MacOf(f: Interface): string {
    match ParseMac(f.mac) case Some(mac) => mac case None => ""
  }

  /** What a report joins: the bindings one of its interfaces gives evidence for. */
  predicate Joins(c: Config, m: Bucket, obs: Sightings, fs: seq<Interface>, b: Binding, now: int) {
    exists i, j | 0 <= i < |fs| && 0 <= j < |fs[i].addresses| ::
      Evidence(c, m, obs, MacOf(fs[i]), fs[i].addresses[j], b, now)
  }

  /** A binding as the ledger has it and somebody holds it, or the record of a sighting
      where nobody does. */
  predicate Candidate(c: Config, m: Bucket, obs: Sightings, b: Binding, now: int) {
    var k := KeyOf(b);
    if k in m && Held(m[k], now) then b == m[k] && b.state == Active
    else k in obs && obs[k].until > now && b == NeighborRecord(c, obs[k], now)
  }

  // ---- Collecting ---------------------------------------------------------------------------

  ghost predicate Collected(c: Config, m: Bucket, obs: Sightings, matches: seq<Binding>, now: int) {
    OneEach(matches) && forall b <- matches :: Candidate(c, m, obs, b, now)
  }

  /** Takes a candidate unless its address has been seen. */
  method Include(c: Config, ghost m: Bucket, ghost obs: Sightings, matches: seq<Binding>, b: Binding,
                 now: int) returns (matches': seq<Binding>)
    requires Collected(c, m, obs, matches, now) && Candidate(c, m, obs, b, now)
    ensures Collected(c, m, obs, matches', now)
    ensures forall x :: x in matches' <==> x in matches || x == b
  {
    matches' := matches;
    if forall i | 0 <= i < |matches| :: KeyOf(matches[i]) != KeyOf(b) {
      matches' := matches + [b];
    } else {
      var i :| 0 <= i < |matches| && KeyOf(matches[i]) == KeyOf(b);
      assert matches[i] in matches && matches[i] == b;
    }
  }

  method FromLeases(c: Config, tx: Database, obs: Sightings, mac: string, ip: string, matches: seq<Binding>, now: int)
    returns (matches': seq<Binding>)
    requires Consistent(tx) && Filed(obs) && Free('\0', ip) && Collected(c, tx.leases, obs, matches, now)
    ensures Collected(c, tx.leases, obs, matches', now)
    ensures forall b :: b in matches' <==> b in matches || LeaseEvidence(tx.leases, obs, mac, ip, b, now)
  {
    matches' := matches;
    var live := LiveByAddress(tx, ip);
    for i := 0 to |live|
      invariant Collected(c, tx.leases, obs, matches', now)
      invariant forall b :: b in matches' <==>
                  b in matches || (b in live[..i] && LeaseEvidence(tx.leases, obs, mac, ip, b, now))
    {
      var b := live[i];
      assert b in live && Stored(tx, b);
      if b.state == Active && b.end > now && (b.mac == mac || Sighted(obs, b.scope, b.address, mac, now)) {
        matches' := Include(c, tx.leases, obs, matches', b, now);
      }
    }
    forall b | LeaseEvidence(tx.leases, obs, mac, ip, b, now) ensures b in live {
      assert KeyedAt(tx.leases, KeyOf(b));
      assert Stored(tx, b);
    }
  }

  method FromSightings(c: Config, tx: Database, obs: Sightings, mac: string, ip: string, matches: seq<Binding>,
                       now: int)
    returns (matches': seq<Binding>)
    requires Filed(obs) && c.parse(ip).Some? && Collected(c, tx.leases, obs, matches, now)
    ensures Collected(c, tx.leases, obs, matches', now)
    ensures forall b :: b in matches' <==> b in matches || NeighborEvidence(c, tx.leases, obs, mac, ip, b, now)
  {
    matches' := matches;
    var address := c.parse(ip).value.text;
    for i := 0 to |c.scopes|
      invariant Collected(c, tx.leases, obs, matches', now)
      invariant forall b :: b in matches' <==>
                  b in matches || exists j | 0 <= j < i ::
                    NeighborAt(c, tx.leases, obs, c.scopes[j], mac, address, b, now)
    {
      var s := c.scopes[i];
      if s.contains(address) && Sighted(obs, s.id, address, mac, now) && !Held(Read(tx.leases, s.id, address), now) {
        var b := NeighborRecord(c, obs[Key(s.id, address)], now);
        matches' := Include(c, tx.leases, obs, matches', b, now);
      }
    }
  }

  /** The matches of a report: everything it has evidence for, once each. */
  method Collect(c: Config, tx: Database, obs: Sightings, node: Node, now: int) returns (matches: seq<Binding>)
    requires ValidConfig(c) && Consistent(tx) && Filed(obs) && ValidReport(c, node)
    ensures Collected(c, tx.leases, obs, matches, now)
    ensures forall b :: b in matches <==> Joins(c, tx.leases, obs, node.interfaces, b, now)
  {
    matches := [];
    var fs := node.interfaces;
    for i := 0 to |fs|
      invariant Collected(c, tx.leases, obs, matches, now)
      invariant forall b :: b in matches <==> Joins(c, tx.leases, obs, fs[..i], b, now)
    {
      assert fs[i] in fs;
      matches := FromAddresses(c, tx, obs, MacOf(fs[i]), fs[i].addresses, matches, now);
      JoinsSnoc(c, tx.leases, obs, fs, i, now);
    }
    assert fs[..|fs|] == fs;
  }

  /** The matches of one interface. */
  method FromAddresses(c: Config, tx: Database, obs: Sightings, mac: string, addresses: seq<string>,
                       matches: seq<Binding>, now: int)
    returns (matches': seq<Binding>)
    requires ValidConfig(c) && Consistent(tx) && Filed(obs) && Collected(c, tx.leases, obs, matches, now)
    requires forall ip <- addresses :: c.parse(ip).Some?
    ensures Collected(c, tx.leases, obs, matches', now)
    ensures forall b :: b in matches' <==>
              b in matches || exists n | 0 <= n < |addresses| :: Evidence(c, tx.leases, obs, mac, addresses[n], b, now)
  {
    matches' := matches;
    for j := 0 to |addresses|
      invariant Collected(c, tx.leases, obs, matches', now)
      invariant forall b :: b in matches' <==>
                  b in matches || exists n | 0 <= n < j :: Evidence(c, tx.leases, obs, mac, addresses[n], b, now)
    {
      var ip := addresses[j];
      assert ip in addresses && PlainAddress(ip);
      matches' := FromLeases(c, tx, obs, mac, ip, matches', now);
      matches' := FromSightings(c, tx, obs, mac, ip, matches', now);
    }
  }

  lemma JoinsSnoc(c: Config, m: Bucket, obs: Sightings, fs: seq<Interface>, i: nat, now: int)
    requires i < |fs|
    ensures forall b :: Joins(c, m, obs, fs[..i + 1], b, now) <==>
              Joins(c, m, obs, fs[..i], b, now) || exists n | 0 <= n < |fs[i].addresses| ::
                Evidence(c, m, obs, MacOf(fs[i]), fs[i].addresses[n], b, now)
  {
    var a, z := fs[..i], fs[..i + 1];
    assert z[i] == fs[i];
    forall b ensures Joins(c, m, obs, z, b, now) <==>
              Joins(c, m, obs, a, b, now) || exists n | 0 <= n < |fs[i].addresses| ::
                Evidence(c, m, obs, MacOf(fs[i]), fs[i].addresses[n], b, now)
    {
      if Joins(c, m, obs, z, b, now) {
        var x, y :| 0 <= x < |z| && 0 <= y < |z[x].addresses|
                    && Evidence(c, m, obs, MacOf(z[x]), z[x].addresses[y], b, now);
        if x < i { assert a[x] == z[x]; }
      }
      if Joins(c, m, obs, a, b, now) {
        var x, y :| 0 <= x < |a| && 0 <= y < |a[x].addresses|
                    && Evidence(c, m, obs, MacOf(a[x]), a[x].addresses[y], b, now);
        assert a[x] == z[x];
      }
    }
  }

  // ---- Settling on one device -----------------------------------------------------------------

  /** The declared device that is a node; validation lets a node be at most one. */
  function NodeDevice(devices: seq<Device>, id: string): (r: Option<Device>)
    ensures r.Some? ==> r.value in devices && HasNode(r.value, id)
    ensures r.None? ==> forall d <- devices :: !HasNode(d, id)
  {
    if devices == [] then None
    else if HasNode(devices[|devices| - 1], id) then Some(devices[|devices| - 1])
    else NodeDevice(devices[..|devices| - 1], id)
  }

  /** The binding belongs to another node, or to a device declared to be other nodes. */
  predicate Disputed(c: Config, node: Node, b: Binding) {
    var d := LookupDevice(c.devices, b.info.device);
    || (b.info.nodeId != "" && b.info.nodeId != node.id
        && (d.None? || !HasNode(d.value, b.info.nodeId) || !HasNode(d.value, node.id)))
    || (d.Some? && DeclaresNodes(d.value) && !HasNode(d.value, node.id))
  }

  /** The device is one the report must agree on: declared for the node, or for a match. */
  ghost predicate Claimed(c: Config, node: Node, matches: seq<Binding>, d: Device) {
    || NodeDevice(c.devices, node.id) == Some(d)
    || exists b <- matches :: LookupDevice(c.devices, b.info.device) == Some(d)
  }

  ghost predicate Agreed(c: Config, node: Node, matches: seq<Binding>) {
    && (forall b <- matches :: !Disputed(c, node, b))
    && (forall d, e | Claimed(c, node, matches, d) && Claimed(c, node, matches, e) :: d.id == e.id)
  }

  method Settle(c: Config, node: Node, matches: seq<Binding>) returns (ok: bool, device: Option<Device>)
    ensures ok <==> Agreed(c, node, matches)
    ensures ok && device.Some? ==> Claimed(c, node, matches, device.value) && device.value in c.devices
    ensures ok && device.None? ==> forall d :: !Claimed(c, node, matches, d)
  {
    device := NodeDevice(c.devices, node.id);
    for i := 0 to |matches|
      invariant Agreed(c, node, matches[..i])
      invariant device.Some? ==> Claimed(c, node, matches[..i], device.value) && device.value in c.devices
      invariant device.None? ==> forall d :: !Claimed(c, node, matches[..i], d)
    {
      var b := matches[i];
      ghost var all := matches[..i + 1];
      ClaimedSnoc(c, node, matches, i);
      var d := LookupDevice(c.devices, b.info.device);
      if Disputed(c, node, b) {
        return false, None;
      }
      if d.Some? {
        assert Claimed(c, node, all, d.value);
        if device.Some? && device.value.id != d.value.id {
          assert Claimed(c, node, all, device.value);
          AgreedInit(c, node, matches, i + 1);
          return false, None;
        }
        device := d;
      }
    }
    assert matches[..|matches|] == matches;
    ok := true;
  }

  lemma ClaimedSnoc(c: Config, node: Node, matches: seq<Binding>, i: nat)
    requires i < |matches|
    ensures matches[..i + 1] == matches[..i] + [matches[i]]
    ensures forall d :: Claimed(c, node, matches[..i + 1], d) <==>
              Claimed(c, node, matches[..i], d) || LookupDevice(c.devices, matches[i].info.device) == Some(d)
  {
    assert matches[..i + 1] == matches[..i] + [matches[i]];
  }

  lemma AgreedInit(c: Config, node: Node, matches: seq<Binding>, n: nat)
    requires n <= |matches|
    ensures Agreed(c, node, matches) ==> Agreed(c, node, matches[..n])
  {
    var init := matches[..n];
    forall d | Claimed(c, node, init, d) ensures Claimed(c, node, matches, d) {
    }
  }

  // ---- Naming ------------------------------------------------------------------------------

  /** The name a node brings along, unless the inventory has it. */
  function OwnName(c: Config, node: Node, device: string): string {
    var own := Split(node.dnsName, '.')[0];
    if !IsLabel(own) || own == "ns" then device
    else if exists i | 0 <= i < |c.devices| :: c.devices[i].name == own || own in c.devices[i].aliases then device
    else own
  }

  /** A live binding of another node's device carries the name. */
  predicate Contests(b: Binding, node: Node, device: string, name: string, now: int) {
    b.state == Active && b.name == name && b.info.device != device && b.info.nodeId != "" && b.info.nodeId != node.id
    && b.end > now
  }

  ghost predicate Contested(m: Bucket, node: Node, device: string, name: string, now: int) {
    exists k <- m :: Contests(m[k], node, device, name, now)
  }

  method ChooseName(c: Config, tx: Database, node: Node, now: int) returns (device: string, name: string)
    requires ValidConfig(c) && Consistent(tx)
    ensures device == DeviceId(c, "tailnet", node.id) && Label(name)
    ensures var own := OwnName(c, node, device);
            name == if Contested(tx.leases, node, device, own, now) then device else own
  {
    device := DeviceId(c, "tailnet", node.id);
    DeviceIdLabel(c, "tailnet", node.id);
    var own := OwnName(c, node, device);
    if IsLabel(own) { IsLabelLabel(own); }
    name := own;
    var holders := ActiveByName(tx, own);
    for i := 0 to |holders|
      invariant name == if exists j | 0 <= j < i :: Contests(holders[j], node, device, own, now) then device else own
    {
      if Contests(holders[i], node, device, own, now) {
        name := device;
      }
    }
    if exists j | 0 <= j < |holders| :: Contests(holders[j], node, device, own, now) {
      var j :| 0 <= j < |holders| && Contests(holders[j], node, device, own, now);
      assert holders[j] in holders && Stored(tx, holders[j]);
    }
    forall k | k in tx.leases && Contests(tx.leases[k], node, device, own, now) ensures tx.leases[k] in holders {
      assert KeyedAt(tx.leases, k);
      assert Stored(tx, tx.leases[k]);
    }
  }

  // ---- Writing the joins -----------------------------------------------------------------------

  /** The join's record: attribution, and for a sighting how long it lasts; nothing else. */
  function Attributed(obs: Sightings, node: Node, device: string, name: string, b: Binding, now: int): Binding {
    var k := KeyOf(b);
    var fresh' := b.origin == NeighborReport && k in obs && obs[k].mac == b.mac && obs[k].until > now;
    var evidence := if b.origin != NeighborReport then "authenticated self-report + active DHCP MAC/address"
                    else "authenticated self-report + fresh " + (if fresh' then obs[k].origin else "kernel-neighbor")
                         + " sighting (not a DHCP grant)";
    b.(name := name, end := if fresh' then obs[k].until else b.end,
       info := b.info.(device := device, nodeId := node.id, evidence := evidence))
  }

  function Attributor(obs: Sightings, node: Node, device: string, name: string, now: int): Binding -> Binding {
    (b: Binding) => Attributed(obs, node, device, name, b, now)
  }

  predicate Changes(b: Binding, x: Binding) {
    b.info.device != x.info.device || b.info.nodeId != x.info.nodeId || b.name != x.name || b.end != x.end
  }

  /** An operator assigned the binding to another node. */
  predicate Barred(node: Node, b: Binding) {
    HasPrefix(b.info.evidence, "operator repair:") && b.info.nodeId != node.id
  }

  /** x rewrites b in place: a host address, whose holder stays. */
  predicate InPlace(m: Bucket, b: Binding, x: Binding, now: int) {
    var prior := Read(m, b.scope, b.address);
    && x.scope == b.scope && x.address == b.address && x.origin != Delegated && WellFormed(x)
    && (Held(prior, now) ==> prior == b && b.state == Active && x.client == b.client)
    && (!Changes(b, x) ==> KeyOf(b) in m && m[KeyOf(b)] == b)
  }

  /** The ledger has the join where it changed anything, and b where it did not. */
  predicate JoinedIn(m: Bucket, b: Binding, x: Binding) {
    KeyOf(b) in m && m[KeyOf(b)] == if Changes(b, x) then x else b
  }

  predicate Same(m: Bucket, m': Bucket, k: string) {
    (k in m <==> k in m') && (k in m ==> m[k] == m'[k])
  }

  /** Saves one join; the ledger changes at its key only. */
  method WriteJoin(tx: Database, b: Binding, x: Binding, now: int) returns (tx': Database)
    requires Valid(tx) && InPlace(tx.leases, b, x, now)
    ensures Valid(tx') && tx.events <= tx'.events && tx'.associations == tx.associations
            && tx'.serverDuid == tx.serverDuid
    ensures JoinedIn(tx'.leases, b, x)
    ensures forall k | k != KeyOf(b) :: Same(tx.leases, tx'.leases, k)
    ensures NoNewDelegations(tx.leases, tx'.leases)
  {
    tx' := tx;
    if Changes(b, x) {
      tx' := Save(tx, x, "associate", now);
      WriteNoDelegation(tx.leases, x);
    } else {
      forall k ensures OldDelegationAt(tx.leases, tx.leases, k) {
      }
    }
  }

  /** Nothing changed but at the first i of the bindings. */
  ghost predicate Pending(m: Bucket, m': Bucket, bs: seq<Binding>, i: nat) {
    forall k | forall j | 0 <= j < i && j < |bs| :: KeyOf(bs[j]) != k :: Same(m, m', k)
  }

  lemma JoinStep(m: Bucket, before: Bucket, after: Bucket, bs: seq<Binding>, i: nat)
    requires i < |bs| && OneEach(bs) && Pending(m, before, bs, i)
    requires forall k | k != KeyOf(bs[i]) :: Same(before, after, k)
    ensures Pending(m, after, bs, i + 1)
    ensures forall j | 0 <= j < i :: Same(before, after, KeyOf(bs[j]))
  {
    forall k | forall j | 0 <= j < i + 1 :: KeyOf(bs[j]) != k ensures Same(m, after, k) {
      assert Same(m, before, k) && Same(before, after, k);
    }
  }

  method WriteJoins(tx: Database, matches: seq<Binding>, attribute: Binding -> Binding,
                    now: int) returns (tx': Database)
    requires Valid(tx) && OneEach(matches)
    requires forall b <- matches :: InPlace(tx.leases, b, attribute(b), now)
    ensures Valid(tx') && tx.events <= tx'.events && tx'.associations == tx.associations
            && tx'.serverDuid == tx.serverDuid
    ensures forall b <- matches :: JoinedIn(tx'.leases, b, attribute(b))
    ensures Pending(tx.leases, tx'.leases, matches, |matches|)
    ensures NoNewDelegations(tx.leases, tx'.leases)
  {
    tx' := tx;
    forall k ensures OldDelegationAt(tx.leases, tx.leases, k) {
    }
    for i := 0 to |matches|
      invariant NoNewDelegations(tx.leases, tx'.leases)
      invariant Valid(tx') && tx.events <= tx'.events && tx'.associations == tx.associations
                && tx'.serverDuid == tx.serverDuid
      invariant forall j | 0 <= j < i :: JoinedIn(tx'.leases, matches[j], attribute(matches[j]))
      invariant Pending(tx.leases, tx'.leases, matches, i)
    {
      var b, x := matches[i], attribute(matches[i]);
      assert b in matches && InPlace(tx.leases, b, x, now);
      assert Same(tx.leases, tx'.leases, KeyOf(b));
      ghost var before := tx'.leases;
      tx' := WriteJoin(tx', b, x, now);
      JoinStep(tx.leases, before, tx'.leases, matches, i);
      NoNewDelegationsOn(tx.leases, before, tx'.leases);
    }
  }

  /** The same holding: all that is not attribution. A mere sighting may last longer. */
  predicate SameHolding(b: Binding, x: Binding) {
    && x.scope == b.scope && x.address == b.address && x.client == b.client && x.mac == b.mac
    && x.state == b.state && x.origin == b.origin && x.info.duid == b.info.duid && x.info.iaid == b.info.iaid
    && (b.origin != NeighborReport ==> x.end == b.end)
  }

  predicate OwnerKeptAt(m: Bucket, m': Bucket, k: string, now: int) {
    && (k in m && Held(m[k], now) ==> k in m' && Held(m'[k], now) && SameHolding(m[k], m'[k]))
    && (k in m' && Held(m'[k], now) && m'[k].origin != NeighborReport ==> k in m && Held(m[k], now))
  }

  /** Attribution changes no holding and, sightings apart, makes none. */
  ghost predicate OwnersKept(m: Bucket, m': Bucket, now: int) {
    forall k :: OwnerKeptAt(m, m', k, now)
  }

  lemma CandidateInPlace(c: Config, m: Bucket, obs: Sightings, node: Node, device: string, name: string,
                         b: Binding, now: int)
    requires Keyed(m) && Filed(obs) && 0 <= now && Label(name)
    requires Candidate(c, m, obs, b, now) && Free('/', b.address)
    ensures InPlace(m, b, Attributed(obs, node, device, name, b, now), now)
  {
    var k := KeyOf(b);
    assert KeyedAt(m, k);
    if !(k in m && Held(m[k], now)) {
      assert b.name == "" && b.scope == obs[k].scope;
    }
  }

  lemma JoinsPlain(c: Config, m: Bucket, obs: Sightings, fs: seq<Interface>, b: Binding, now: int)
    requires ValidConfig(c) && Filed(obs) && Joins(c, m, obs, fs, b, now)
    requires forall f <- fs :: forall ip <- f.addresses :: c.parse(ip).Some?
    ensures Free('/', b.address)
  {
    var i, j :| 0 <= i < |fs| && 0 <= j < |fs[i].addresses|
                && Evidence(c, m, obs, MacOf(fs[i]), fs[i].addresses[j], b, now);
    assert fs[i] in fs && fs[i].addresses[j] in fs[i].addresses;
  }

  lemma JoinsKeepOwners(c: Config, m: Bucket, m': Bucket, obs: Sightings, node: Node, device: string,
                        name: string, matches: seq<Binding>, now: int)
    requires Collected(c, m, obs, matches, now) && Pending(m, m', matches, |matches|)
    requires forall b <- matches :: JoinedIn(m', b, Attributed(obs, node, device, name, b, now))
    ensures OwnersKept(m, m', now)
  {
    forall k ensures OwnerKeptAt(m, m', k, now) {
      if j :| 0 <= j < |matches| && KeyOf(matches[j]) == k {
        assert matches[j] in matches;
        assert Candidate(c, m, obs, matches[j], now)
               && JoinedIn(m', matches[j], Attributed(obs, node, device, name, matches[j], now));
      } else {
        assert Same(m, m', k);
      }
    }
  }

  // ---- Report ------------------------------------------------------------------------------------

  datatype ReportOutcome = Invalid | Conflict | Joined(device: string, name: string, bindings: seq<Binding>)

  /** The device and name a report's bindings get: the declared one it must agree on, or
      the node's own. */
  ghost predicate Named(c: Config, m: Bucket, node: Node, matches: seq<Binding>, device: string, name: string,
                        now: int) {
    if exists d :: Claimed(c, node, matches, d)
    then exists d :: Claimed(c, node, matches, d) && d in c.devices && device == d.id && name == d.name
    else device == DeviceId(c, "tailnet", node.id)
         && name == var own := OwnName(c, node, device); if Contested(m, node, device, own, now) then device else own
  }

  method Identify(c: Config, tx: Database, node: Node, matches: seq<Binding>, now: int) returns (ok: bool,
                  device: string, name: string)
    requires ValidConfig(c) && Consistent(tx)
    ensures ok <==> Agreed(c, node, matches)
    ensures ok ==> Label(name) && Named(c, tx.leases, node, matches, device, name, now)
  {
    var declared;
    ok, declared := Settle(c, node, matches);
    if ok && declared.Some? {
      return true, declared.value.id, declared.value.name;
    }
    device, name := ChooseName(c, tx, node, now);
  }

  /** The bindings are the joins of the matches, and in the ledger. */
  ghost predicate AllJoined(attribute: Binding -> Binding, matches: seq<Binding>, bindings: seq<Binding>, m: Bucket) {
    && |bindings| == |matches|
    && forall i | 0 <= i < |matches| :: bindings[i] == attribute(matches[i]) && JoinedIn(m, matches[i], bindings[i])
  }

  /** Report: all joins or none. A conflict is noted in the log. */
  method Report(c: Config, tx: Database, obs: Sightings, node: Node, now: int)
    returns (tx': Database, r: ReportOutcome, ghost matches: seq<Binding>)
    requires ValidConfig(c) && Valid(tx) && Filed(obs) && 0 <= now
    ensures Valid(tx') && tx.events <= tx'.events && tx'.associations == tx.associations
            && tx'.serverDuid == tx.serverDuid
    ensures OwnersKept(tx.leases, tx'.leases, now) && NoNewDelegations(tx.leases, tx'.leases)
    ensures r.Invalid? <==> !ValidReport(c, node)
    ensures r.Joined? || tx'.leases == tx.leases
    ensures !r.Invalid? ==> forall b :: b in matches <==> Joins(c, tx.leases, obs, node.interfaces, b, now)
    ensures !r.Invalid? ==> (r.Joined? <==> Agreed(c, node, matches) && forall b <- matches :: !Barred(node, b))
    ensures r.Joined? ==> && Named(c, tx.leases, node, matches, r.device, r.name, now)
                          && Pending(tx.leases, tx'.leases, matches, |matches|)
                          && AllJoined(Attributor(obs, node, r.device, r.name, now), matches, r.bindings, tx'.leases)
  {
    forall k ensures OldDelegationAt(tx.leases, tx.leases, k) {
    }
    if !ValidReport(c, node) {
      return tx, Invalid, [];
    }
    var found := Collect(c, tx, obs, node, now);
    matches := found;
    var ok, device, name := Identify(c, tx, node, found, now);
    if !ok || exists i | 0 <= i < |found| :: Barred(node, found[i]) {
      tx' := Audit(tx, "identity-conflict", now);
      return tx', Conflict, matches;
    }
    var bindings;
    tx', bindings := JoinAll(c, tx, obs, node, device, name, found, now);
    r := Joined(device, name, bindings);
  }

  method JoinAll(c: Config, tx: Database, obs: Sightings, node: Node, device: string, name: string,
                 matches: seq<Binding>, now: int)
    returns (tx': Database, bindings: seq<Binding>)
    requires ValidConfig(c) && Valid(tx) && Filed(obs) && 0 <= now && Label(name) && ValidReport(c, node)
    requires Collected(c, tx.leases, obs, matches, now)
    requires forall b <- matches :: Joins(c, tx.leases, obs, node.interfaces, b, now)
    ensures Valid(tx') && tx.events <= tx'.events && tx'.associations == tx.associations
            && tx'.serverDuid == tx.serverDuid
    ensures OwnersKept(tx.leases, tx'.leases, now) && NoNewDelegations(tx.leases, tx'.leases)
    ensures Pending(tx.leases, tx'.leases, matches, |matches|)
    ensures AllJoined(Attributor(obs, node, device, name, now), matches, bindings, tx'.leases)
  {
    var attribute := Attributor(obs, node, device, name, now);
    forall b | b in matches ensures InPlace(tx.leases, b, attribute(b), now) {
      JoinsPlain(c, tx.leases, obs, node.interfaces, b, now);
      CandidateInPlace(c, tx.leases, obs, node, device, name, b, now);
    }
    tx' := WriteJoins(tx, matches, attribute, now);
    JoinsKeepOwners(c, tx.leases, tx'.leases, obs, node, device, name, matches, now);
    bindings := seq(|matches|, i requires 0 <= i < |matches| => attribute(matches[i]));
  }

  // ---- Repair -----------------------------------------------------------------------------------

  datatype Remember = Leave | Persist | Forget

  datatype Change = Change(scope: string, address: string, client: string, expectedDevice: string,
                           device: string, name: string, nodeId: string, reason: string, remember: Remember)

  predicate ReasonGiven(reason: string) {
    |reason| <= 512 && exists i | 0 <= i < |reason| :: !Blank(reason[i])
  }

  /** The inventory has the name for another device, or the device under another name or
      as other nodes. */
  predicate AgainstInventory(d: Device, r: Change) {
    || ((d.name == r.name || r.name in d.aliases) && d.id != r.device)
    || (d.id == r.device && (d.name != r.name || (DeclaresNodes(d) && !HasNode(d, r.nodeId))))
  }

  /** Another live device has the name. */
  predicate NameHeld(b: Binding, r: Change, now: int) {
    b.state == Active && b.name == r.name && b.info.device != r.device && b.end > now
    && !(b.scope == r.scope && b.address == r.address)
  }

  /** The change still applies to the binding it was made for. */
  predicate Unmoved(b: Binding, r: Change, now: int) {
    b.client == r.client && b.info.device == r.expectedDevice && b.state == Active && b.end > now
  }

  predicate AgainstReservation(c: Config, b: Binding, r: Change) {
    var s := FindScope(c.scopes, b.scope);
    s.Some? && var x := FindReservation(s.value.reservations, b.client, b.mac); x.Some? && x.value.device != r.device
  }

  predicate Sound(c: Config, r: Change) {
    && IsLabel(r.device) && IsLabel(r.name) && r.name != "ns" && ReasonGiven(r.reason)
    && forall i | 0 <= i < |c.devices| :: !AgainstInventory(c.devices[i], r)
  }

  predicate Repairable(c: Config, m: Bucket, r: Change, now: int) {
    var b := Read(m, r.scope, r.address);
    && Sound(c, r) && (forall k <- m :: !NameHeld(m[k], r, now))
    && Unmoved(b, r, now) && !AgainstReservation(c, b, r)
  }

  function Repaired(b: Binding, r: Change): Binding {
    b.(name := r.name,
       info := b.info.(device := r.device, nodeId := r.nodeId, evidence := "operator repair: " + r.reason))
  }

  function Associate(a: map<string, Association>, r: Change): map<string, Association> {
    match r.remember
    case Leave => a
    case Persist => a[r.client := Association(r.device, r.name, r.nodeId, r.reason)]
    case Forget => a - {r.client}
  }

  function Checker(c: Config, now: int): (Bucket, Change) -> bool {
    (m: Bucket, r: Change) => Repairable(c, m, r, now)
  }

  /** The ledger after the changes in order; none when one does not apply. */
  function RepairAll(allowed: (Bucket, Change) -> bool, m: Bucket, changes: seq<Change>): Option<Bucket>
    decreases |changes|
  {
    if changes == [] then Some(m)
    else if !allowed(m, changes[0]) then None
    else
      var b := Repaired(Read(m, changes[0].scope, changes[0].address), changes[0]);
      RepairAll(allowed, m[KeyOf(b) := b], changes[1..])
  }

  function AssociateAll(a: map<string, Association>, changes: seq<Change>): map<string, Association> {
    if changes == [] then a else Associate(AssociateAll(a, changes[..|changes| - 1]), changes[|changes| - 1])
  }

  lemma AssociateSnoc(a: map<string, Association>, changes: seq<Change>, i: nat)
    requires i < |changes|
    ensures AssociateAll(a, changes[..i + 1]) == Associate(AssociateAll(a, changes[..i]), changes[i])
  {
    assert changes[..i + 1][..i] == changes[..i];
  }

  /** One change: an active binding keeps everything but its attribution. */
  method RepairOne(c: Config, tx: Database, r: Change, now: int) returns (tx': Database, ok: bool)
    requires ValidConfig(c) && Valid(tx) && 0 <= now
    ensures Valid(tx') && tx.events <= tx'.events && OwnersKept(tx.leases, tx'.leases, now)
            && NoNewDelegations(tx.leases, tx'.leases)
    ensures ok <==> Repairable(c, tx.leases, r, now)
    ensures ok ==> var b := Repaired(Read(tx.leases, r.scope, r.address), r);
                   && tx'.leases == tx.leases[KeyOf(b) := b] && tx'.associations == Associate(tx.associations, r)
                   && tx'.serverDuid == tx.serverDuid
  {
    forall k ensures OwnerKeptAt(tx.leases, tx.leases, k, now) && OldDelegationAt(tx.leases, tx.leases, k) {
    }
    if !Sound(c, r) {
      return tx, false;
    }
    IsLabelLabel(r.name);
    var taken := NameTaken(tx, r, now);
    var b := Read(tx.leases, r.scope, r.address);
    if taken || !Unmoved(b, r, now) || AgainstReservation(c, b, r) {
      return tx, false;
    }
    tx' := WriteRepair(tx, b, r, now);
    ok := true;
  }

  method WriteRepair(tx: Database, b: Binding, r: Change, now: int) returns (tx': Database)
    requires Valid(tx) && b == Read(tx.leases, r.scope, r.address) && b.state == Active && b.end > now && Label(r.name)
    ensures Valid(tx') && tx.events <= tx'.events && OwnersKept(tx.leases, tx'.leases, now)
            && NoNewDelegations(tx.leases, tx'.leases)
    ensures tx'.leases == tx.leases[KeyOf(Repaired(b, r)) := Repaired(b, r)]
            && tx'.associations == Associate(tx.associations, r)
    ensures tx'.serverDuid == tx.serverDuid
  {
    ReadKeyed(tx.leases, r.scope, r.address);
    tx' := Save(tx, Repaired(b, r), "identity-repair", now);
    tx' := tx'.(associations := Associate(tx.associations, r));
    forall k ensures OwnerKeptAt(tx.leases, tx'.leases, k, now) && OldDelegationAt(tx.leases, tx'.leases, k) {
    }
  }

  method NameTaken(tx: Database, r: Change, now: int) returns (taken: bool)
    requires Consistent(tx) && Label(r.name)
    ensures taken <==> exists k <- tx.leases :: NameHeld(tx.leases[k], r, now)
  {
    var holders := ActiveByName(tx, r.name);
    taken := exists i | 0 <= i < |holders| :: NameHeld(holders[i], r, now);
    if taken {
      var i :| 0 <= i < |holders| && NameHeld(holders[i], r, now);
      assert holders[i] in holders && Stored(tx, holders[i]);
    }
    forall k | k in tx.leases && NameHeld(tx.leases[k], r, now) ensures taken {
      assert KeyedAt(tx.leases, k);
      assert Stored(tx, tx.leases[k]);
      assert tx.leases[k] in holders;
    }
  }

  /** Repair: all changes or none. */
  method Repair(c: Config, tx: Database, changes: seq<Change>, now: int) returns (tx': Database, ok: bool)
    requires ValidConfig(c) && Valid(tx) && 0 <= now
    ensures Valid(tx') && tx.events <= tx'.events && OwnersKept(tx.leases, tx'.leases, now)
            && NoNewDelegations(tx.leases, tx'.leases)
    ensures ok <==> 1 <= |changes| <= 256 && RepairAll(Checker(c, now), tx.leases, changes).Some?
    ensures !ok ==> tx' == tx
    ensures ok ==> && tx'.leases == RepairAll(Checker(c, now), tx.leases, changes).value
                   && tx'.associations == AssociateAll(tx.associations, changes) && tx'.serverDuid == tx.serverDuid
  {
    forall k ensures OwnerKeptAt(tx.leases, tx.leases, k, now) && OldDelegationAt(tx.leases, tx.leases, k) {
    }
    if |changes| == 0 || |changes| > 256 {
      return tx, false;
    }
    tx' := tx;
    for i := 0 to |changes|
      invariant Valid(tx') && tx.events <= tx'.events && OwnersKept(tx.leases, tx'.leases, now)
                && NoNewDelegations(tx.leases, tx'.leases)
      invariant RepairAll(Checker(c, now), tx.leases, changes) == RepairAll(Checker(c, now), tx'.leases, changes[i..])
      invariant tx'.associations == AssociateAll(tx.associations, changes[..i]) && tx'.serverDuid == tx.serverDuid
    {
      ghost var before := tx'.leases;
      assert changes[i..][0] == changes[i] && changes[i..][1..] == changes[i + 1..];
      AssociateSnoc(tx.associations, changes, i);
      var done;
      tx', done := RepairOne(c, tx', changes[i], now);
      if !done {
        return tx, false;
      }
      OwnersKeptOn(tx.leases, before, tx'.leases, now);
      NoNewDelegationsOn(tx.leases, before, tx'.leases);
    }
    assert changes[..|changes|] == changes;
    ok := true;
  }

  lemma OwnersKeptOn(a: Bucket, b: Bucket, c: Bucket, now: int)
    requires OwnersKept(a, b, now) && OwnersKept(b, c, now)
    ensures OwnersKept(a, c, now)
  {
    forall k ensures OwnerKeptAt(a, c, k, now) {
      assert OwnerKeptAt(a, b, k, now) && OwnerKeptAt(b, c, k, now);
    }
  }
}
