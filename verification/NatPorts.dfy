/** The mDNS NAT: instances learned on a source interface, published under ports of a pool
    that every rule publishing on the same interface shares (internal/mdns/nat.go). */
module NatPorts {
  import opened Sets
  import opened Strings
  import opened Names

  /** An address; `mappable` tells an IPv4 address that is not loopback, link-local,
      multicast or unspecified. */
  datatype Ip = NoIp | Ip(text: string, mappable: bool)

  datatype Lifetime = Unset | Until(at: int)

  /** A host's announced addresses, as of one announcement. */
  datatype Host = Host(ips: seq<Ip>, until: int)

  datatype Instance = Instance(
    service: string, instance: string, txt: seq<string>, subtypes: set<string>,
    port: nat, host: string, ip: Ip, hostPort: int, expires: Lifetime)

  datatype Record =
    | Address(name: string, ip: Ip, ttl: nat)
    | Pointer(name: string, target: string, ttl: nat)
    | Service(name: string, target: string, port: nat, ttl: nat)
    | Text(name: string, txt: seq<string>, ttl: nat)

  type Instances = map<string, Instance>
  type Hosts = map<string, Host>
  type Used = map<int, string>

  /** The key an instance is deleted under. */
  function KeyFor(i: Instance): string {
    InstanceKey(i.instance, i.service)
  }

  /** What holds a pooled port: the source and the instance. */
  function Owner(from: string, i: Instance): string {
    Join(from, '|', KeyFor(i))
  }

  predicate Mine(from: string, owner: string) {
    HasPrefix(owner, from + "|")
  }

  lemma OwnerMine(from: string, i: Instance)
    ensures Mine(from, Owner(from, i))
  {
  }

  /** Sources have no bar in their names, so an owner tells its source and its instance;
      instances of one key on one source, though of two rules, are one owner. */
  lemma OwnerIdentifies(from: string, i: Instance, from': string, i': Instance)
    requires Free('|', from) && Free('|', from')
    ensures Owner(from, i) == Owner(from', i') <==> from == from' && KeyFor(i) == KeyFor(i')
  {
    if Owner(from, i) == Owner(from', i') { JoinInjective(from, from', '|', KeyFor(i), KeyFor(i')); }
  }

  lemma MineApart(from: string, from': string, owner: string)
    requires Free('|', from) && Free('|', from') && Mine(from, owner) && Mine(from', owner)
    ensures from == from'
  {
    var a, b := owner[|from| + 1..], owner[|from'| + 1..];
    assert owner == Join(from, '|', a);
    assert owner == Join(from', '|', b);
    JoinInjective(from, from', '|', a, b);
  }

  // ---- What a rule holds ---------------------------------------------------------------------

  /** An instance under its key; one with a port holds it in the pool, inside the range. */
  predicate Filed(from: string, lo: int, hi: int, used: Used, k: string, i: Instance) {
    && KeyFor(i) == k
    && (i.hostPort != 0 ==>
          && lo <= i.hostPort <= hi && i.ip != NoIp
          && i.hostPort in used && used[i.hostPort] == Owner(from, i))
  }

  predicate FiledAt(from: string, lo: int, hi: int, used: Used, insts: Instances, k: string) {
    k in insts ==> Filed(from, lo, hi, used, k, insts[k])
  }

  /** A port the source holds is held by one of its instances. */
  ghost predicate BackedAt(from: string, used: Used, insts: Instances, p: int) {
    p in used && Mine(from, used[p]) ==> p != 0 && exists k <- insts :: insts[k].hostPort == p
  }

  /** The pool has exactly the ports of the rule's instances, as far as the rule's source
      goes. */
  ghost predicate Holds(from: string, lo: int, hi: int, used: Used, insts: Instances) {
    && (forall k :: FiledAt(from, lo, hi, used, insts, k))
    && (forall p :: BackedAt(from, used, insts, p))
  }

  predicate OtherAt(from: string, used: Used, used': Used, p: int) {
    && ((p in used && !Mine(from, used[p])) <==> (p in used' && !Mine(from, used'[p])))
    && (p in used && !Mine(from, used[p]) ==> used'[p] == used[p])
  }

  /** The ports of other sources are as they were. */
  ghost predicate OthersKept(from: string, used: Used, used': Used) {
    forall p :: OtherAt(from, used, used', p)
  }

  lemma OthersKeptOn(from: string, a: Used, b: Used, c: Used)
    requires OthersKept(from, a, b) && OthersKept(from, b, c)
    ensures OthersKept(from, a, c)
  {
    forall p ensures OtherAt(from, a, c, p) {
      assert OtherAt(from, a, b, p) && OtherAt(from, b, c, p);
    }
  }

  /** Two instances of a rule never share a port. */
  lemma PortsApart(from: string, lo: int, hi: int, used: Used, insts: Instances, k: string, k': string)
    requires Free('|', from) && Holds(from, lo, hi, used, insts)
    requires k in insts && k' in insts && insts[k].hostPort == insts[k'].hostPort != 0
    ensures k == k'
  {
    assert FiledAt(from, lo, hi, used, insts, k) && FiledAt(from, lo, hi, used, insts, k');
    OwnerIdentifies(from, insts[k], from, insts[k']);
  }

  /** What one source does leaves what another holds alone. */
  lemma HoldsOn(from: string, from': string, lo: int, hi: int, used: Used, used': Used, insts: Instances)
    requires Free('|', from) && Free('|', from') && from != from'
    requires Holds(from, lo, hi, used, insts) && OthersKept(from', used, used')
    ensures Holds(from, lo, hi, used', insts)
  {
    forall k ensures FiledAt(from, lo, hi, used', insts, k) {
      assert FiledAt(from, lo, hi, used, insts, k);
      if k in insts && insts[k].hostPort != 0 {
        OwnerMine(from, insts[k]);
        if Mine(from', Owner(from, insts[k])) { MineApart(from, from', Owner(from, insts[k])); }
        assert OtherAt(from', used, used', insts[k].hostPort);
      }
    }
    forall p ensures BackedAt(from, used', insts, p) {
      if p in used' && Mine(from, used'[p]) {
        if Mine(from', used'[p]) { MineApart(from, from', used'[p]); }
        assert OtherAt(from', used, used', p);
        assert BackedAt(from, used, insts, p);
      }
    }
  }

  /** Freeing the port of an instance that is taken out, or loses it. */
  lemma ReleaseHolds(from: string, lo: int, hi: int, used: Used, insts: Instances, insts': Instances, k: string)
    requires Free('|', from) && Holds(from, lo, hi, used, insts) && k in insts && insts[k].hostPort != 0
    requires insts' - {k} == insts - {k} && (k in insts' ==> insts'[k].hostPort == 0 && KeyFor(insts'[k]) == k)
    ensures Holds(from, lo, hi, used - {insts[k].hostPort}, insts')
    ensures OthersKept(from, used, used - {insts[k].hostPort})
  {
    var p0 := insts[k].hostPort;
    var used' := used - {p0};
    assert FiledAt(from, lo, hi, used, insts, k);
    OwnerMine(from, insts[k]);
    forall j ensures FiledAt(from, lo, hi, used', insts', j) {
      assert FiledAt(from, lo, hi, used, insts, j);
      assert j != k ==> (j in insts' <==> j in insts - {k}) && (j in insts' <==> j in insts' - {k});
      if j in insts && j != k && insts[j].hostPort == p0 { PortsApart(from, lo, hi, used, insts, j, k); }
    }
    forall p ensures BackedAt(from, used', insts', p) {
      assert BackedAt(from, used, insts, p);
      if p in used' && Mine(from, used'[p]) {
        var j :| j in insts && insts[j].hostPort == p;
        assert j in insts - {k} && j in insts' - {k};
        assert insts'[j].hostPort == p;
      }
    }
    forall p ensures OtherAt(from, used, used', p) {
    }
  }

  /** Taking a free port for an instance that has none. */
  lemma TakeHolds(from: string, lo: int, hi: int, used: Used, insts: Instances, k: string, i: Instance)
    requires Free('|', from) && Holds(from, lo, hi, used, insts)
    requires k in insts && insts[k].hostPort == 0 && KeyFor(i) == k && i.ip != NoIp
    requires 0 < lo <= i.hostPort <= hi && (i.hostPort !in used || used[i.hostPort] == Owner(from, i))
    ensures Holds(from, lo, hi, used[i.hostPort := Owner(from, i)], insts[k := i])
    ensures OthersKept(from, used, used[i.hostPort := Owner(from, i)])
  {
    var p0 := i.hostPort;
    var used', insts' := used[p0 := Owner(from, i)], insts[k := i];
    OwnerMine(from, i);
    assert p0 !in used by {
      if p0 in used {
        assert BackedAt(from, used, insts, p0);
        var j :| j in insts && insts[j].hostPort == p0;
        assert FiledAt(from, lo, hi, used, insts, j);
        OwnerIdentifies(from, insts[j], from, i);
      }
    }
    forall j ensures FiledAt(from, lo, hi, used', insts', j) {
      assert FiledAt(from, lo, hi, used, insts, j);
    }
    forall p ensures BackedAt(from, used', insts', p) {
      assert BackedAt(from, used, insts, p);
      if p == p0 {
        assert insts'[k].hostPort == p0;
      } else if p in used && Mine(from, used[p]) {
        var j :| j in insts && insts[j].hostPort == p;
        assert j in insts' && insts'[j].hostPort == p;
      }
    }
    forall p ensures OtherAt(from, used, used', p) {
    }
  }

  // ---- Probing ----------------------------------------------------------------------------------

  function Probe(lo: int, size: int, start: int, k: int): int
    requires 0 < size
  {
    lo + (start + k) % size
  }

  predicate Probes(lo: int, size: int, start: int, k: int, p: int) {
    0 <= k < size && Probe(lo, size, start, k) == p
  }

  lemma ModShift(start: int, k: int, size: int)
    requires 0 < size && 0 <= start < size && 0 <= k < size
    ensures (start + k) % size == if start + k < size then start + k else start + k - size
  {
    if start + k >= size {
      assert start + k == size + (start + k - size);
    }
  }

  /** Probing visits every port of the range once. */
  lemma ProbeOnce(lo: int, size: int, start: int, p: int)
    requires 0 < size && 0 <= start < size && lo <= p < lo + size
    ensures exists k | 0 <= k < size :: Probe(lo, size, start, k) == p
    ensures forall j, k | Probes(lo, size, start, j, p) && Probes(lo, size, start, k, p) :: j == k
  {
    var k := if start <= p - lo then p - lo - start else p - lo - start + size;
    ModShift(start, k, size);
    assert Probe(lo, size, start, k) == p;
    forall j, k | Probes(lo, size, start, j, p) && Probes(lo, size, start, k, p) ensures j == k {
      ModShift(start, j, size);
      ModShift(start, k, size);
    }
  }

  /** Probing from a start, p is the first port that no other owner has. */
  ghost predicate FirstProbe(lo: int, size: int, start: int, used: Used, owner: string, p: int)
    requires 0 < size
  {
    exists k | 0 <= k < size ::
      && Probe(lo, size, start, k) == p && !TakenFrom(used, owner, p)
      && forall j | 0 <= j < k :: TakenFrom(used, owner, Probe(lo, size, start, j))
  }

  /** Taking it changes nothing for the same owner: it would find the same port again. */
  lemma FirstProbeAgain(lo: int, size: int, start: int, used: Used, owner: string, p: int, q: int)
    requires 0 < size && FirstProbe(lo, size, start, used, owner, p)
             && FirstProbe(lo, size, start, used[p := owner], owner, q)
    ensures q == p
  {
    var k :| 0 <= k < size && Probe(lo, size, start, k) == p && !TakenFrom(used, owner, p)
             && forall j | 0 <= j < k :: TakenFrom(used, owner, Probe(lo, size, start, j));
    var n :| 0 <= n < size && Probe(lo, size, start, n) == q && !TakenFrom(used[p := owner], owner, q)
             && forall j | 0 <= j < n :: TakenFrom(used[p := owner], owner, Probe(lo, size, start, j));
  }

  /** A port another owner has. */
  predicate TakenFrom(used: Used, owner: string, p: int) {
    p in used && used[p] != owner
  }

  // ---- Learning, on values -------------------------------------------------------------------------

  /** The class a name belongs to, "" when it has none: the last _tcp or _udp label with the
      underscored one before it. */
  function ClassOf(name: string): string {
    var labels := Split(TrimSuffix(Norm(name), "."), '.');
    if |labels| < 3 || labels[|labels| - 1] != "local" then "" else ClassIn(labels, |labels| - 2)
  }

  function ClassIn(labels: seq<string>, i: nat): string
    requires i < |labels|
  {
    if i == 0 then ""
    else if (labels[i] == "_tcp" || labels[i] == "_udp") && HasPrefix(labels[i - 1], "_")
    then labels[i - 1] + "." + labels[i]
    else ClassIn(labels, i - 1)
  }

  function Newcomer(name: string): Instance {
    Instance(ClassOf(name), DisplayName(name, ClassOf(name)), [], {}, 0, "", NoIp, 0, Unset)
  }

  predicate HasSub(s: string) {
    exists i | 0 <= i < |s| :: HasPrefix(s[i..], "._sub.")
  }

  function JoinNul(txt: seq<string>): string {
    if txt == [] then "" else if |txt| == 1 then txt[0] else txt[0] + ['\0'] + JoinNul(txt[1..])
  }

  datatype Update =
    | NoUpdate
    | Subtype(sub: string)
    | Location(host: string, port: nat, until: int)
    | Details(txt: seq<string>)

  /** What a record says of instances: nothing, a goodbye, or news of one, which is new
      when its key is not on file. */
  datatype Notice = Nothing | Goodbye(key: string) | About(key: string, newcomer: Instance, update: Update)

  function Meaning(allow: set<string>, rr: Record, now: int): Notice {
    match rr
    case Address(_, _, _) => Nothing
    case Pointer(name, target, ttl) =>
      if ClassOf(name) !in allow then Nothing
      else if ttl == 0 then Goodbye(Norm(target))
      else if ClassOf(target) !in allow then Nothing
      else About(Norm(target), Newcomer(target),
                 if HasSub(Norm(name)) then Subtype(Split(Norm(name), '.')[0]) else NoUpdate)
    case Service(name, target, port, ttl) =>
      if ttl == 0 then Goodbye(Norm(name))
      else if ClassOf(name) !in allow then Nothing
      else About(Norm(name), Newcomer(name), Location(Norm(target), port, now + ttl))
    case Text(name, txt, ttl) =>
      if ClassOf(name) !in allow then Nothing
      else About(Norm(name), Newcomer(name), if ttl > 0 then Details(txt) else NoUpdate)
  }

  function Updated(i: Instance, u: Update): Instance {
    match u
    case NoUpdate => i
    case Subtype(sub) => i.(subtypes := i.subtypes + {sub})
    case Location(host, port, until) => i.(host := host, port := port, expires := Until(until))
    case Details(txt) => if JoinNul(i.txt) == JoinNul(txt) then i else i.(txt := txt)
  }

  predicate IsNews(i: Instance, u: Update) {
    match u
    case NoUpdate => false
    case Subtype(sub) => sub !in i.subtypes
    case Location(host, port, _) => i.host != host || i.port != port
    case Details(txt) => JoinNul(i.txt) != JoinNul(txt)
  }

  function OnFile(insts: Instances, n: Notice): Instance
    requires n.About?
  {
    if n.key in insts then insts[n.key] else n.newcomer
  }

  /** The instances after a notice. A goodbye takes out what the instance's own key names. */
  function Heard(insts: Instances, n: Notice): Instances {
    match n
    case Nothing => insts
    case Goodbye(k) => if k in insts then insts - {KeyFor(insts[k])} else insts
    case About(k, _, u) => insts[k := Updated(OnFile(insts, n), u)]
  }

  predicate News(insts: Instances, n: Notice) {
    match n
    case Nothing => false
    case Goodbye(k) => k in insts
    case About(_, _, u) => IsNews(OnFile(insts, n), u)
  }

  /** A newcomer has no port yet ... */
  predicate Portless(n: Notice) {
    n.About? ==> n.newcomer.hostPort == 0
  }

  /** ... and is filed where it will be looked for. */
  predicate Agrees(n: Notice) {
    Portless(n) && (n.About? ==> KeyFor(n.newcomer) == n.key)
  }

  /** The names whose instances a record may introduce. */
  predicate NamesAgree(allow: set<string>, rr: Record) {
    match rr
    case Address(_, _, _) => true
    case Pointer(_, target, _) => ClassOf(target) in allow ==> RoundTrips(target, ClassOf(target))
    case Service(name, _, _, _) => ClassOf(name) in allow ==> RoundTrips(name, ClassOf(name))
    case Text(name, _, _) => ClassOf(name) in allow ==> RoundTrips(name, ClassOf(name))
  }

  lemma MeaningAgrees(allow: set<string>, rr: Record, now: int)
    requires NamesAgree(allow, rr)
    ensures Agrees(Meaning(allow, rr, now))
  {
  }

  /** A goodbye takes out the instance learned under a name exactly when the name ends in
      its class, as configured, and ".local.", and its instance part is clean. */
  lemma GoodbyeExactly(insts: Instances, name: string, i: Instance)
    requires ServiceClass(ClassOf(name)) && Norm(name) in insts && insts[Norm(name)] == i
    requires i.service == ClassOf(name) && i.instance == Newcomer(name).instance
    ensures Norm(name) !in Heard(insts, Goodbye(Norm(name)))
            <==> EndsIn(name, Tail(ClassOf(name))) && Clean(RawInstance(name, ClassOf(name)))
  {
    RoundTripsExactly(name, ClassOf(name));
  }

  datatype Mapping = NoMapping | Mapping(proto: string, port: int, target: Ip, targetPort: nat)

  function ProtoOf(service: string): string {
    if EndsIn(service, "._udp") then "udp" else "tcp"
  }

  predicate IsPublished(i: Instance) {
    i.hostPort != 0 && i.ip != NoIp
  }

  function MappingOf(i: Instance): Mapping {
    if IsPublished(i) then Mapping(ProtoOf(i.service), i.hostPort, i.ip, i.port) else NoMapping
  }

  function MappingAt(insts: Instances, k: string): Mapping {
    if k in insts then MappingOf(insts[k]) else NoMapping
  }

  ghost predicate SameMappings(a: Instances, b: Instances) {
    forall k :: MappingAt(a, k) == MappingAt(b, k)
  }

  /** What is no news changes no mapping. */
  lemma NoNews(insts: Instances, n: Notice)
    requires !News(insts, n) && Portless(n)
    ensures SameMappings(insts, Heard(insts, n))
  {
  }

  /** The pool after the port of an instance is released: only its owner frees it. */
  function Freed(from: string, used: Used, i: Instance): Used {
    if i.hostPort != 0 && i.hostPort in used && used[i.hostPort] == Owner(from, i) then used - {i.hostPort} else used
  }

  /** Only a goodbye touches the pool. */
  function FreedBy(from: string, used: Used, insts: Instances, n: Notice): Used {
    if n.Goodbye? && n.key in insts then Freed(from, used, insts[n.key]) else used
  }

  lemma FreedOthers(from: string, used: Used, i: Instance)
    ensures OthersKept(from, used, Freed(from, used, i))
  {
    OwnerMine(from, i);
    forall p ensures OtherAt(from, used, Freed(from, used, i), p) {
    }
  }

  /** A goodbye that misses its instance frees the port it owns and leaves it published
      there; the port may then go to any owner. */
  lemma MissedGoodbye(from: string, used: Used, insts: Instances, k: string, owner: string)
    requires k in insts && IsPublished(insts[k]) && KeyFor(insts[k]) != k
    requires insts[k].hostPort in used && used[insts[k].hostPort] == Owner(from, insts[k])
    ensures var insts', used' := Heard(insts, Goodbye(k)), FreedBy(from, used, insts, Goodbye(k));
            && MappingAt(insts', k) == MappingAt(insts, k) != NoMapping
            && insts'[k].hostPort !in used' && !TakenFrom(used', owner, insts'[k].hostPort)
  {
  }

  lemma UpdatedKeeps(i: Instance, u: Update)
    ensures var x := Updated(i, u);
            x.service == i.service && x.instance == i.instance && x.hostPort == i.hostPort && x.ip == i.ip
  {
  }

  /** Rewriting an instance but for its name and port. */
  lemma RewriteHolds(from: string, lo: int, hi: int, used: Used, insts: Instances, k: string, x: Instance)
    requires Holds(from, lo, hi, used, insts) && KeyFor(x) == k
    requires if k in insts then x.hostPort == insts[k].hostPort && x.ip == insts[k].ip else x.hostPort == 0
    ensures Holds(from, lo, hi, used, insts[k := x])
  {
    var insts' := insts[k := x];
    forall j ensures FiledAt(from, lo, hi, used, insts', j) {
      assert FiledAt(from, lo, hi, used, insts, j);
    }
    forall p ensures BackedAt(from, used, insts', p) {
      assert BackedAt(from, used, insts, p);
      if p in used && Mine(from, used[p]) {
        var j :| j in insts && insts[j].hostPort == p;
        assert j in insts' && insts'[j].hostPort == p;
      }
    }
  }

  lemma AboutHolds(from: string, lo: int, hi: int, used: Used, insts: Instances, n: Notice)
    requires Holds(from, lo, hi, used, insts) && Agrees(n) && n.About?
    ensures Holds(from, lo, hi, used, Heard(insts, n))
  {
    assert FiledAt(from, lo, hi, used, insts, n.key);
    UpdatedKeeps(OnFile(insts, n), n.update);
    RewriteHolds(from, lo, hi, used, insts, n.key, Updated(OnFile(insts, n), n.update));
  }

  function HeardAll(insts: Instances, allow: set<string>, rrs: seq<Record>, now: int): Instances {
    if rrs == [] then insts
    else Heard(HeardAll(insts, allow, rrs[..|rrs| - 1], now), Meaning(allow, rrs[|rrs| - 1], now))
  }

  // ---- Hosts ------------------------------------------------------------------------------------

  predicate Withdraws(rr: Record) {
    rr.Address? && rr.ip != NoIp && rr.ttl == 0
  }

  predicate Announces(rr: Record) {
    rr.Address? && rr.ip != NoIp && rr.ttl > 0
  }

  function Withdrawn(hosts: Hosts, rrs: seq<Record>): Hosts {
    if rrs == [] then hosts
    else
      var m, rr := Withdrawn(hosts, rrs[..|rrs| - 1]), rrs[|rrs| - 1];
      if Withdraws(rr) then m - {Norm(rr.name)} else m
  }

  /** The addresses of a message, by host: all of them, for as long as the longest lived. */
  function Announced(rrs: seq<Record>, now: int): Hosts {
    if rrs == [] then map[]
    else
      var m, rr := Announced(rrs[..|rrs| - 1], now), rrs[|rrs| - 1];
      if !Announces(rr) then m
      else WithAddress(m, Norm(rr.name), rr.ip, now + rr.ttl)
  }

  function WithAddress(m: Hosts, h: string, ip: Ip, until: int): Hosts {
    m[h := if h in m then Host(m[h].ips + [ip], if until > m[h].until then until else m[h].until)
           else Host([ip], until)]
  }

  /** The first announced address that can be mapped and is on the source's own network. */
  function MapTarget(subnets: seq<string -> bool>, ips: seq<Ip>): (r: Ip)
    ensures r != NoIp ==> r in ips && r.mappable && exists i | 0 <= i < |subnets| :: subnets[i](r.text)
  {
    if ips == [] then NoIp
    else if ips[0] != NoIp && ips[0].mappable && exists i | 0 <= i < |subnets| :: subnets[i](ips[0].text) then ips[0]
    else MapTarget(subnets, ips[1..])
  }

  /** Where an instance is to be mapped to now, if anywhere. */
  function Target(hosts: Hosts, subnets: seq<string -> bool>, i: Instance, now: int): Ip {
    if i.host in hosts && now < hosts[i.host].until && i.port != 0 then MapTarget(subnets, hosts[i.host].ips) else NoIp
  }

  function Aim(hosts: Hosts, subnets: seq<string -> bool>, now: int): Instance -> Ip {
    (i: Instance) => Target(hosts, subnets, i, now)
  }

  predicate LapsedAt(i: Instance, now: int) {
    i.expires.Until? && i.expires.at <= now
  }

  function LapsedKeys(insts: Instances, now: int): set<string> {
    set k | k in insts && LapsedAt(insts[k], now)
  }

  /** The keys under which the dropped instances are deleted. */
  function DeletedKeys(insts: Instances, dropped: set<string>): set<string> {
    set k | k in dropped && k in insts :: KeyFor(insts[k])
  }

  /** What a sweep leaves: lapsed instances are dropped, each deleting what its own key
      names, unless another's drop deleted them first. */
  ghost predicate SweptTo(insts: Instances, dropped: set<string>, insts': Instances, now: int) {
    && dropped <= LapsedKeys(insts, now) && insts' == insts - DeletedKeys(insts, dropped)
    && LapsedKeys(insts, now) <= dropped + DeletedKeys(insts, dropped)
  }

  /** No instance on file has this key. */
  predicate Unnamed(insts: Instances, k: string) {
    forall j <- insts :: KeyFor(insts[j]) != k
  }

  /** A lapsed instance filed under a key that names none is dropped and stays; so it is
      again, and is again dropped, at every later sweep. */
  lemma SweepMisses(insts: Instances, dropped: set<string>, insts': Instances, now: int, later: int, k: string)
    requires SweptTo(insts, dropped, insts', now) && k in LapsedKeys(insts, now) && Unnamed(insts, k) && now <= later
    ensures k in dropped && k in insts' && insts'[k] == insts[k]
    ensures k in LapsedKeys(insts', later) && Unnamed(insts', k)
  {
  }

  /** Among the withdrawn are exactly the instances of the keys that had a port. */
  ghost predicate WithdrawnOf(insts: Instances, gone: set<string>, tail: seq<Instance>, i: Instance) {
    i in tail <==> i.hostPort != 0 && exists k <- gone :: k in insts && insts[k] == i
  }

  ghost predicate AllWithdrawn(insts: Instances, gone: set<string>, tail: seq<Instance>) {
    forall i :: WithdrawnOf(insts, gone, tail, i)
  }

  function Unlapsed(insts: Instances, now: int): Instances {
    map k | k in insts && !LapsedAt(insts[k], now) :: insts[k]
  }

  function Lasting(hosts: Hosts, now: int): Hosts {
    map h | h in hosts && now < hosts[h].until :: hosts[h]
  }

  predicate Full(lo: int, hi: int, used: Used) {
    forall p | lo <= p <= hi :: p in used
  }

  /** What publishing does to one instance. */
  predicate PlacedAt(lo: int, hi: int, used: Used, was: Instance, i: Instance, target: Ip) {
    if target == NoIp then i == was
    else
      && i == was.(ip := target, hostPort := i.hostPort)
      && (was.hostPort != 0 ==> i.hostPort != 0)
      && (was.hostPort != 0 && was.ip == target ==> i == was)
      && (i.hostPort == 0 ==> Full(lo, hi, used))
  }

  predicate DoneAt(lo: int, hi: int, used: Used, start: Instances, insts: Instances, todo: set<string>,
                   aim: Instance -> Ip, k: string) {
    k in start ==>
      && k in insts
      && if k in todo then insts[k] == start[k] else PlacedAt(lo, hi, used, start[k], insts[k], aim(start[k]))
  }

  /** Publishing is done but for the instances of todo. */
  ghost predicate AllPlaced(lo: int, hi: int, used: Used, start: Instances, insts: Instances, todo: set<string>,
                            aim: Instance -> Ip) {
    forall k :: DoneAt(lo, hi, used, start, insts, todo, aim, k)
  }

  lemma PlaceStep(lo: int, hi: int, used: Used, used': Used, start: Instances, insts: Instances,
                  insts': Instances, todo: set<string>, k: string, aim: Instance -> Ip)
    requires AllPlaced(lo, hi, used, start, insts, todo, aim) && k in todo && k in start && k in insts && k in insts'
    requires insts' == insts[k := insts'[k]] && PlacedAt(lo, hi, used', start[k], insts'[k], aim(start[k]))
    requires Full(lo, hi, used) ==> Full(lo, hi, used')
    ensures AllPlaced(lo, hi, used', start, insts', todo - {k}, aim)
  {
    forall j ensures DoneAt(lo, hi, used', start, insts', todo - {k}, aim, j) {
      assert DoneAt(lo, hi, used, start, insts, todo, aim, j);
    }
  }

  class Ports {
    var used: Used

    constructor ()
      ensures used == map[]
    {
      used := map[];
    }
  }

  class NatRule {
    const from: string
    const lo: int
    const hi: int
    const allow: set<string>
    const hash: (string, Ip, nat) -> nat
    const pool: Ports
    var insts: Instances
    var hosts: Hosts
    var removed: seq<Instance>

    constructor (from: string, lo: int, hi: int, allow: set<string>, hash: (string, Ip, nat) -> nat, pool: Ports)
      ensures this.from == from && this.lo == lo && this.hi == hi && this.allow == allow && this.hash == hash
              && this.pool == pool
      ensures insts == map[] && hosts == map[] && removed == []
    {
      this.from, this.lo, this.hi, this.allow, this.hash, this.pool := from, lo, hi, allow, hash, pool;
      insts, hosts, removed := map[], map[], [];
    }

    ghost predicate Valid()
      reads this, pool
    {
      Free('|', from) && 0 < lo <= hi && Holds(from, lo, hi, pool.used, insts)
    }

    /** allocate: the first port, probing from a hashed start, that nobody else has. */
    method Allocate(i: Instance) returns (ok: bool, i': Instance)
      requires 0 < lo <= hi
      modifies pool
      ensures ok <==> exists p | lo <= p <= hi :: !TakenFrom(old(pool.used), Owner(from, i), p)
      ensures !ok ==> i' == i && pool.used == old(pool.used)
      ensures ok ==> && lo <= i'.hostPort <= hi && i' == i.(hostPort := i'.hostPort)
                     && FirstProbe(lo, hi - lo + 1, hash(from, i.ip, i.port) % (hi - lo + 1), old(pool.used),
                                   Owner(from, i), i'.hostPort)
                     && pool.used == old(pool.used)[i'.hostPort := Owner(from, i)]
    {
      var size := hi - lo + 1;
      var start := hash(from, i.ip, i.port) % size;
      var owner := Owner(from, i);
      for k := 0 to size
        invariant pool.used == old(pool.used)
        invariant forall j | 0 <= j < k :: TakenFrom(pool.used, owner, Probe(lo, size, start, j))
      {
        var p := Probe(lo, size, start, k);
        assert lo <= p <= hi by { ModShift(start, k, size); }
        if !TakenFrom(pool.used, owner, p) {
          assert FirstProbe(lo, size, start, pool.used, owner, p);
          pool.used := pool.used[p := owner];
          return true, i.(hostPort := p);
        }
      }
      forall p | lo <= p <= hi ensures TakenFrom(pool.used, owner, p) {
        ProbeOnce(lo, size, start, p);
        var k :| 0 <= k < size && Probe(lo, size, start, k) == p;
      }
      return false, i;
    }

    /** release: frees the port an instance holds. */
    method Release(i: Instance)
      modifies pool
      ensures pool.used == Freed(from, old(pool.used), i)
    {
      if i.hostPort != 0 && i.hostPort in pool.used && pool.used[i.hostPort] == Owner(from, i) {
        pool.used := pool.used - {i.hostPort};
      }
    }

    /** drop: withdraws an instance, deleting what its own key names. */
    method Drop(i: Instance)
      modifies this`insts, this`removed, pool
      ensures insts == old(insts) - {KeyFor(i)}
      ensures removed == if i.hostPort != 0 then old(removed) + [i] else old(removed)
      ensures pool.used == Freed(from, old(pool.used), i) && OthersKept(from, old(pool.used), pool.used)
    {
      if i.hostPort != 0 {
        Release(i);
        removed := removed + [i];
      }
      insts := insts - {KeyFor(i)};
      FreedOthers(from, old(pool.used), i);
    }

    /** Takes one notice. */
    method Notify(n: Notice) returns (news: bool)
      modifies this`insts, this`removed, pool
      ensures insts == Heard(old(insts), n) && news == News(old(insts), n)
      ensures removed == if n.Goodbye? && n.key in old(insts) && old(insts)[n.key].hostPort != 0
                         then old(removed) + [old(insts)[n.key]] else old(removed)
      ensures pool.used == FreedBy(from, old(pool.used), old(insts), n) && OthersKept(from, old(pool.used), pool.used)
      ensures old(Valid()) && Agrees(n) ==> Valid()
    {
      match n
      case Nothing =>
        news := false;
        SameOthers(from, pool.used);
      case Goodbye(k) =>
        news := k in insts;
        SameOthers(from, pool.used);
        if news {
          var i := insts[k];
          Drop(i);
          if old(Valid()) {
            DropHolds(from, lo, hi, old(pool.used), old(insts), k);
          }
        }
      case About(k, newcomer, u) =>
        SameOthers(from, pool.used);
        if Valid() && Agrees(n) {
          AboutHolds(from, lo, hi, pool.used, insts, n);
        }
        var i := if k in insts then insts[k] else newcomer;
        news := IsNews(i, u);
        insts := insts[k := Updated(i, u)];
    }

    /** Gives an instance a port for a target: the one it had is freed first, so in a rule
        in order an instance that moves always regains one, and one without a port fails
        only when others have every port of the range. */
    method Place(k: string, target: Ip) returns (ok: bool)
      requires 0 < lo <= hi && k in insts && target != NoIp
      requires insts[k].ip != target || insts[k].hostPort == 0
      modifies this`insts, pool
      ensures OthersKept(from, old(pool.used), pool.used)
      ensures k in insts && insts == old(insts)[k := insts[k]]
      ensures insts[k] == old(insts)[k].(ip := target, hostPort := insts[k].hostPort)
      ensures ok <==> insts[k].hostPort != 0
      ensures ok ==> var used, bare := Freed(from, old(pool.used), old(insts)[k]), insts[k].(hostPort := 0);
                     && lo <= insts[k].hostPort <= hi
                     && FirstProbe(lo, hi - lo + 1, hash(from, target, bare.port) % (hi - lo + 1), used,
                                   Owner(from, bare), insts[k].hostPort)
                     && pool.used == used[insts[k].hostPort := Owner(from, bare)]
      ensures Stranded(from, lo, hi, old(pool.used), old(insts)[k]) ==> !ok
      ensures !ok ==> && pool.used == Freed(from, old(pool.used), old(insts)[k])
                      && forall p | lo <= p <= hi :: TakenFrom(pool.used, Owner(from, insts[k]), p)
      ensures old(Valid()) ==> && Valid() && (old(insts)[k].hostPort != 0 ==> ok)
                               && (!ok ==> pool.used == old(pool.used) && Full(lo, hi, pool.used))
                               && (Full(lo, hi, old(pool.used)) ==> Full(lo, hi, pool.used))
    {
      ghost var used0, insts0 := pool.used, insts;
      var i := insts[k];
      Release(i);
      FreedOthers(from, used0, i);
      var bare := i.(hostPort := 0, ip := target);
      insts := insts[k := bare];
      ghost var used1, insts1 := pool.used, insts;
      if old(Valid()) {
        assert FiledAt(from, lo, hi, used0, insts0, k);
        BareHolds(from, lo, hi, used0, insts0, used1, insts1, k, bare);
      }
      var placed;
      ok, placed := Allocate(bare);
      insts := insts[k := placed];
      assert ok ==> !StrandedAt(from, lo, hi, used0, i, placed.hostPort);
      if ok {
        TakenOthers(from, used1, bare, placed.hostPort);
        OthersKeptOn(from, used0, used1, pool.used);
        if old(Valid()) {
          TakeHolds(from, lo, hi, used1, insts1, k, placed);
          assert placed.hostPort !in used1;
        }
      } else {
        assert insts == insts1;
        forall p | lo <= p <= hi ensures p in used1 {
          assert TakenFrom(used1, Owner(from, bare), p);
        }
        assert old(Valid()) && i.hostPort != 0 ==> i.hostPort in used1;
      }
    }

    /** Publishes what can be: every instance whose host's address is known now. */
    method Publish(aim: Instance -> Ip) returns (changed: bool)
      requires 0 < lo <= hi
      modifies this`insts, pool
      ensures OthersKept(from, old(pool.used), pool.used) && AllRemapped(old(insts), insts)
      ensures old(Valid()) ==> && Valid() && AllPlaced(lo, hi, pool.used, old(insts), insts, {}, aim)
                               && (!changed ==> SameMappings(old(insts), insts))
      ensures forall k | old(insts).Keys == {k} ::
                Loses(from, lo, hi, old(pool.used), old(insts)[k], aim(old(insts)[k]), insts[k], changed)
    {
      changed := false;
      var todo := insts.Keys;
      ghost var start, used0, valid := insts, pool.used, Valid();
      SameOthers(from, used0);
      while todo != {}
        invariant OthersKept(from, used0, pool.used) && AllRemapped(start, insts) && todo <= start.Keys
        invariant valid ==> Valid() && AllPlaced(lo, hi, pool.used, start, insts, todo, aim)
        invariant valid && !changed ==> SameMappings(start, insts)
        invariant todo == start.Keys ==> insts == start && pool.used == used0 && !changed
        invariant forall k | start.Keys == {k} && todo != start.Keys ::
                    Loses(from, lo, hi, used0, start[k], aim(start[k]), insts[k], changed)
        decreases |todo|
      {
        var k := Pick(todo);
        ghost var used1 := pool.used;
        var ok := PublishOne(k, aim, start, todo);
        changed := changed || ok;
        OthersKeptOn(from, used0, used1, pool.used);
        todo := todo - {k};
      }
    }

    method PublishOne(k: string, aim: Instance -> Ip, ghost start: Instances, ghost todo: set<string>)
      returns (ok: bool)
      requires 0 < lo <= hi && k in todo && k in start && AllRemapped(start, insts)
      modifies this`insts, pool
      ensures OthersKept(from, old(pool.used), pool.used) && AllRemapped(start, insts)
      ensures old(Valid()) && AllPlaced(lo, hi, old(pool.used), start, old(insts), todo, aim) ==>
                && Valid() && AllPlaced(lo, hi, pool.used, start, insts, todo - {k}, aim)
                && (!ok ==> MappingAt(insts, k) == MappingAt(old(insts), k) && insts == old(insts)[k := insts[k]])
      ensures Loses(from, lo, hi, old(pool.used), old(insts)[k], aim(old(insts)[k]), insts[k], ok)
    {
      ok := false;
      ghost var used1, insts1 := pool.used, insts;
      SameOthers(from, used1);
      assert Remapped(start[k], insts[k]);
      var target := aim(insts[k]);
      if target != NoIp && (insts[k].ip != target || insts[k].hostPort == 0) {
        ok := Place(k, target);
      }
      if old(Valid()) && AllPlaced(lo, hi, used1, start, insts1, todo, aim) {
        assert DoneAt(lo, hi, used1, start, insts1, todo, aim, k);
        PlaceStep(lo, hi, used1, pool.used, start, insts1, insts, todo, k, aim);
      }
    }

    /** One record: an address, or something about an instance. */
    method HearOne(rr: Record, announced: Hosts, now: int) returns (news: bool, announced': Hosts)
      modifies this, pool
      ensures OthersKept(from, old(pool.used), pool.used)
      ensures hosts == (if Withdraws(rr) then old(hosts) - {Norm(rr.name)} else old(hosts))
      ensures announced' ==
                if Announces(rr) then WithAddress(announced, Norm(rr.name), rr.ip, now + rr.ttl) else announced
      ensures insts == Heard(old(insts), Meaning(allow, rr, now))
      ensures news == News(old(insts), Meaning(allow, rr, now))
      ensures pool.used == FreedBy(from, old(pool.used), old(insts), Meaning(allow, rr, now))
      ensures !news ==> SameMappings(old(insts), insts) && removed == old(removed)
      ensures old(Valid()) && NamesAgree(allow, rr) ==> Valid()
    {
      announced' := announced;
      if Withdraws(rr) {
        hosts := hosts - {Norm(rr.name)};
      } else if Announces(rr) {
        announced' := WithAddress(announced, Norm(rr.name), rr.ip, now + rr.ttl);
      }
      var n := Meaning(allow, rr, now);
      if NamesAgree(allow, rr) { MeaningAgrees(allow, rr, now); }
      ghost var insts0 := insts;
      news := Notify(n);
      if !news { NoNews(insts0, n); }
    }

    /** The records of a message, in order. */
    method HearAll(rrs: seq<Record>, now: int) returns (changed: bool, announced: Hosts)
      modifies this, pool
      ensures OthersKept(from, old(pool.used), pool.used)
      ensures hosts == Withdrawn(old(hosts), rrs) && announced == Announced(rrs, now)
      ensures insts == HeardAll(old(insts), allow, rrs, now)
      ensures !changed ==> SameMappings(old(insts), insts) && removed == old(removed)
      ensures old(Valid()) && AllAgree(allow, rrs) ==> Valid()
      ensures OnlyAddresses(rrs) ==> !changed && pool.used == old(pool.used)
    {
      changed, announced := false, map[];
      SameOthers(from, pool.used);
      for i := 0 to |rrs|
        invariant OthersKept(from, old(pool.used), pool.used)
        invariant HeardSo(old(insts), old(hosts), allow, rrs[..i], now, insts, hosts, announced)
        invariant !changed ==> SameMappings(old(insts), insts) && removed == old(removed)
        invariant old(Valid()) && AllAgree(allow, rrs) ==> Valid()
        invariant OnlyAddresses(rrs) ==> !changed && pool.used == old(pool.used)
      {
        HeardSnoc(old(insts), old(hosts), allow, rrs, i, now, insts, hosts, announced);
        ghost var used1 := pool.used;
        var news;
        news, announced := HearOne(rrs[i], announced, now);
        changed := changed || news;
        OthersKeptOn(from, old(pool.used), used1, pool.used);
      }
      assert rrs[..|rrs|] == rrs;
    }

    /** learn: folds one message into the rule's state. Other sources' ports are untouched,
        whatever it says. When its names agree, and it reports no change, the mappings are
        as they were. */
    method Learn(rrs: seq<Record>, subnets: seq<string -> bool>, now: int) returns (changed: bool)
      requires 0 < lo <= hi
      modifies this, pool
      ensures OthersKept(from, old(pool.used), pool.used)
      ensures hosts == Withdrawn(old(hosts), rrs) + Announced(rrs, now)
      ensures AllRemapped(HeardAll(old(insts), allow, rrs, now), insts)
      ensures old(Valid()) && AllAgree(allow, rrs) ==>
                && Valid()
                && AllPlaced(lo, hi, pool.used, HeardAll(old(insts), allow, rrs, now), insts, {},
                             Aim(hosts, subnets, now))
                && (!changed ==> SameMappings(old(insts), insts) && removed == old(removed))
      ensures OnlyAddresses(rrs) ==>
                forall k | old(insts).Keys == {k} ::
                  && k in insts
                  && Loses(from, lo, hi, old(pool.used), old(insts)[k], Target(hosts, subnets, old(insts)[k], now),
                           insts[k], changed)
    {
      var announced;
      changed, announced := HearAll(rrs, now);
      hosts := hosts + announced;
      ghost var used1 := pool.used;
      var moved := Publish(Aim(hosts, subnets, now));
      changed := changed || moved;
      OthersKeptOn(from, old(pool.used), used1, pool.used);
      if OnlyAddresses(rrs) { AddressesHeard(old(insts), allow, rrs, now); }
    }

    /** expire: withdraws the instances whose records lapsed, and forgets lapsed hosts. In a
        rule in order exactly the lapsed instances go. */
    method Expire(now: int) returns (changed: bool, ghost dropped: set<string>, ghost gone: seq<Instance>)
      modifies this, pool
      ensures OthersKept(from, old(pool.used), pool.used)
      ensures hosts == Lasting(old(hosts), now) && (changed <==> LapsedKeys(old(insts), now) != {})
      ensures SweptTo(old(insts), dropped, insts, now)
      ensures removed == old(removed) + gone && AllWithdrawn(old(insts), dropped, gone)
      ensures old(Valid()) ==> Valid() && insts == Unlapsed(old(insts), now) && dropped == LapsedKeys(old(insts), now)
    {
      var lapsed := LapsedKeys(insts, now);
      changed := lapsed != {};
      dropped, gone := WithdrawAll(lapsed);
      hosts := Lasting(hosts, now);
      SweepDone(old(insts), dropped, gone, insts, now);
      if old(Valid()) { SweptExactly(from, lo, hi, old(pool.used), old(insts), dropped, insts, now); }
    }

    /** The loop over the instances on file: one that is deleted before its turn is not
        visited. */
    method WithdrawAll(keys: set<string>) returns (ghost dropped: set<string>, ghost gone: seq<Instance>)
      requires keys <= insts.Keys
      modifies this`insts, this`removed, pool
      ensures OthersKept(from, old(pool.used), pool.used) && removed == old(removed) + gone
      ensures Dropping(old(insts), dropped, gone, insts) && Left(old(insts), keys, {}, dropped)
      ensures old(Valid()) ==> Valid()
    {
      gone, dropped := [], {};
      var todo := keys;
      ghost var start, used0, removed0 := insts, pool.used, removed;
      NoneDropped(start, keys);
      SameOthers(from, used0);
      while todo != {}
        invariant OthersKept(from, used0, pool.used) && removed == removed0 + gone
        invariant Dropping(start, dropped, gone, insts) && Left(start, keys, todo, dropped)
        invariant old(Valid()) ==> Valid()
        decreases |todo|
      {
        var k := Pick(todo);
        ghost var used1 := pool.used;
        LeftStep(start, keys, todo, dropped, k, k in insts);
        dropped, gone := Visit(k, start, dropped, gone, removed0);
        OthersKeptOn(from, used0, used1, pool.used);
        todo := todo - {k};
      }
    }

    /** Drops an instance if it is still on file. */
    method Visit(k: string, ghost start: Instances, ghost dropped: set<string>, ghost gone: seq<Instance>,
                 ghost removed0: seq<Instance>)
      returns (ghost dropped': set<string>, ghost gone': seq<Instance>)
      requires k in start && Dropping(start, dropped, gone, insts) && removed == removed0 + gone
      modifies this`insts, this`removed, pool
      ensures OthersKept(from, old(pool.used), pool.used) && (old(Valid()) ==> Valid())
      ensures dropped' == (if k in old(insts) then dropped + {k} else dropped)
      ensures Dropping(start, dropped', gone', insts) && removed == removed0 + gone'
    {
      dropped', gone' := dropped, gone;
      SameOthers(from, pool.used);
      if k in insts {
        WithdrawnStep(start, dropped, k, gone);
        gone' := if start[k].hostPort != 0 then gone + [start[k]] else gone;
        DeletedSnoc(start, dropped, k);
        dropped' := dropped + {k};
        var news := Notify(Goodbye(k));
      }
    }

    /** Sweep after sweep, a lapsed instance filed under a key that names none stays, is
        withdrawn again, and is reported as a change again. */
    method Sweeps(times: seq<int>, ghost k: string) returns (changes: seq<bool>)
      requires forall i, j | 0 <= i < j < |times| :: times[i] <= times[j]
      requires times != [] ==> k in LapsedKeys(insts, times[0]) && Unnamed(insts, k) && insts[k].hostPort != 0
      modifies this, pool
      ensures |changes| == |times| && forall i | 0 <= i < |times| :: changes[i]
      ensures times != [] ==> && k in insts && insts[k] == old(insts)[k]
                              && multiset(removed)[insts[k]] >= multiset(old(removed))[insts[k]] + |times|
    {
      changes := [];
      for i := 0 to |times|
        invariant |changes| == i && forall j | 0 <= j < i :: changes[j]
        invariant k in old(insts) ==> times != [] ==> k in insts && insts[k] == old(insts)[k] && Unnamed(insts, k)
        invariant times != [] ==> multiset(removed)[old(insts)[k]] >= multiset(old(removed))[old(insts)[k]] + i
      {
        ghost var insts1, dropped, gone := insts, {}, [];
        var changed;
        changed, dropped, gone := Expire(times[i]);
        SweepMisses(insts1, dropped, insts, times[i], times[i], k);
        assert WithdrawnOf(insts1, dropped, gone, insts1[k]);
        changes := changes + [changed];
      }
    }

    /** published: the instances ready to be advertised, in the order of their keys. */
    method Published() returns (out: seq<Instance>)
      requires Valid()
      ensures forall i :: i in out <==> exists k <- insts :: insts[k] == i && IsPublished(i)
      ensures forall a, b | 0 <= a < b < |out| ::
                Less(KeyFor(out[a]), KeyFor(out[b])) && out[a].hostPort != out[b].hostPort
      ensures forall a | 0 <= a < |out| :: lo <= out[a].hostPort <= hi
    {
      var ready := set k | k in insts && IsPublished(insts[k]);
      var keys := Sorted(ready);
      out := seq(|keys|,
                 a requires 0 <= a < |keys| reads this => if keys[a] in insts then insts[keys[a]] else Newcomer(""));
      forall a | 0 <= a < |keys|
        ensures keys[a] in insts && out[a] == insts[keys[a]] && IsPublished(out[a])
        ensures KeyFor(out[a]) == keys[a] && lo <= out[a].hostPort <= hi
      {
        assert keys[a] in keys && FiledAt(from, lo, hi, pool.used, insts, keys[a]);
      }
      forall k | k in insts && IsPublished(insts[k]) ensures insts[k] in out {
        assert k in ready && k in keys;
        var a :| 0 <= a < |keys| && keys[a] == k;
        assert out[a] == insts[k];
      }
      forall a, b | 0 <= a < b < |out| ensures out[a].hostPort != out[b].hostPort {
        LessTotal(keys[a], keys[b]);
        if out[a].hostPort == out[b].hostPort { PortsApart(from, lo, hi, pool.used, insts, keys[a], keys[b]); }
      }
    }
  }

  predicate LeftAt(start: Instances, keys: set<string>, todo: set<string>, dropped: set<string>, k: string) {
    k in keys ==> k in todo || k in dropped || k in DeletedKeys(start, dropped)
  }

  /** Every key is still to do, dropped, or deleted by another's drop. */
  ghost predicate Left(start: Instances, keys: set<string>, todo: set<string>, dropped: set<string>) {
    todo <= keys && dropped <= keys && forall k :: LeftAt(start, keys, todo, dropped, k)
  }

  lemma SweepDone(start: Instances, dropped: set<string>, gone: seq<Instance>, insts: Instances, now: int)
    requires Dropping(start, dropped, gone, insts) && Left(start, LapsedKeys(start, now), {}, dropped)
    ensures SweptTo(start, dropped, insts, now) && AllWithdrawn(start, dropped, gone)
  {
    var keys := LapsedKeys(start, now);
    forall k | k in keys ensures k in dropped + DeletedKeys(start, dropped) {
      assert LeftAt(start, keys, {}, dropped, k);
    }
  }

  /** In a rule in order exactly the lapsed instances go. */
  lemma SweptExactly(from: string, lo: int, hi: int, used: Used, insts: Instances, dropped: set<string>,
                     insts': Instances, now: int)
    requires Holds(from, lo, hi, used, insts) && SweptTo(insts, dropped, insts', now)
    ensures insts' == Unlapsed(insts, now) && dropped == LapsedKeys(insts, now)
  {
    DeletesItself(from, lo, hi, used, insts, dropped);
    assert insts - LapsedKeys(insts, now) == Unlapsed(insts, now);
  }

  lemma NoneDropped(start: Instances, keys: set<string>)
    ensures Left(start, keys, keys, {}) && Dropping(start, {}, [], start)
  {
    forall k ensures LeftAt(start, keys, keys, {}, k) {
    }
    forall i ensures WithdrawnOf(start, {}, [], i) {
    }
  }

  lemma LeftStep(start: Instances, keys: set<string>, todo: set<string>, dropped: set<string>, k: string, here: bool)
    requires Left(start, keys, todo, dropped) && k in todo && (here || k in DeletedKeys(start, dropped))
    ensures Left(start, keys, todo - {k}, if here then dropped + {k} else dropped)
  {
    var dropped' := if here then dropped + {k} else dropped;
    forall j ensures LeftAt(start, keys, todo - {k}, dropped', j) {
      assert LeftAt(start, keys, todo, dropped, j);
    }
  }

  /** A sweep on its way: these were dropped, and with a port withdrawn. */
  ghost predicate Dropping(start: Instances, dropped: set<string>, gone: seq<Instance>, insts: Instances) {
    insts == start - DeletedKeys(start, dropped) && AllWithdrawn(start, dropped, gone)
  }

  lemma DeletedSnoc(insts: Instances, dropped: set<string>, k: string)
    requires k in insts
    ensures DeletedKeys(insts, dropped + {k}) == DeletedKeys(insts, dropped) + {KeyFor(insts[k])}
  {
  }

  lemma SameOthers(from: string, used: Used)
    ensures OthersKept(from, used, used)
  {
    forall p ensures OtherAt(from, used, used, p) {
    }
  }

  lemma TakenOthers(from: string, used: Used, i: Instance, p: int)
    requires !TakenFrom(used, Owner(from, i), p)
    ensures OthersKept(from, used, used[p := Owner(from, i)])
  {
    OwnerMine(from, i);
    var used' := used[p := Owner(from, i)];
    forall q ensures OtherAt(from, used, used', q) {
    }
  }

  /** All the ports an instance could be given, its own once freed among them, are others'. */
  ghost predicate Stranded(from: string, lo: int, hi: int, used: Used, i: Instance) {
    forall p :: StrandedAt(from, lo, hi, used, i, p)
  }

  predicate StrandedAt(from: string, lo: int, hi: int, used: Used, i: Instance, p: int) {
    lo <= p <= hi ==> TakenFrom(Freed(from, used, i), Owner(from, i), p)
  }

  /** An instance that has nowhere to go when it has to move loses its port, and nothing is
      reported. */
  ghost predicate Loses(from: string, lo: int, hi: int, used: Used, i: Instance, target: Ip, i': Instance,
                        changed: bool) {
    target != NoIp && (i.ip != target || i.hostPort == 0) && Stranded(from, lo, hi, used, i) ==>
      i' == i.(ip := target, hostPort := 0) && !changed
  }

  predicate OnlyAddresses(rrs: seq<Record>) {
    forall i | 0 <= i < |rrs| :: rrs[i].Address?
  }

  lemma {:induction false} AddressesHeard(insts: Instances, allow: set<string>, rrs: seq<Record>, now: int)
    requires OnlyAddresses(rrs)
    ensures HeardAll(insts, allow, rrs, now) == insts
  {
    if rrs != [] {
      assert rrs[|rrs| - 1].Address?;
      AddressesHeard(insts, allow, rrs[..|rrs| - 1], now);
    }
  }

  /** An instance but for where it is mapped. */
  predicate Remapped(was: Instance, i: Instance) {
    i == was.(ip := i.ip, hostPort := i.hostPort)
  }

  predicate AllRemapped(start: Instances, insts: Instances) {
    insts.Keys == start.Keys && forall k <- insts :: Remapped(start[k], insts[k])
  }

  predicate AllAgree(allow: set<string>, rrs: seq<Record>) {
    forall i | 0 <= i < |rrs| :: NamesAgree(allow, rrs[i])
  }

  /** In a rule in order every instance deletes itself. */
  lemma DeletesItself(from: string, lo: int, hi: int, used: Used, insts: Instances, keys: set<string>)
    requires Holds(from, lo, hi, used, insts) && keys <= insts.Keys
    ensures DeletedKeys(insts, keys) == keys
  {
    forall k | k in keys ensures KeyFor(insts[k]) == k {
      assert FiledAt(from, lo, hi, used, insts, k);
    }
  }

  /** Dropping an instance of a rule in order. */
  lemma DropHolds(from: string, lo: int, hi: int, used: Used, insts: Instances, k: string)
    requires Free('|', from) && Holds(from, lo, hi, used, insts) && k in insts
    ensures KeyFor(insts[k]) == k && Holds(from, lo, hi, Freed(from, used, insts[k]), insts - {k})
  {
    assert FiledAt(from, lo, hi, used, insts, k);
    if insts[k].hostPort != 0 {
      ReleaseHolds(from, lo, hi, used, insts, insts - {k}, k);
    } else {
      DropPortless(from, lo, hi, used, insts, k);
    }
  }

  lemma DropPortless(from: string, lo: int, hi: int, used: Used, insts: Instances, k: string)
    requires Holds(from, lo, hi, used, insts) && k in insts && insts[k].hostPort == 0
    ensures Holds(from, lo, hi, used, insts - {k})
  {
    var insts' := insts - {k};
    forall j ensures FiledAt(from, lo, hi, used, insts', j) {
      assert FiledAt(from, lo, hi, used, insts, j);
    }
    forall p ensures BackedAt(from, used, insts', p) {
      assert BackedAt(from, used, insts, p);
      if p in used && Mine(from, used[p]) {
        var j :| j in insts && insts[j].hostPort == p;
        assert j in insts' && insts'[j].hostPort == p;
      }
    }
  }

  /** Taking an instance's port away. */
  lemma BareHolds(from: string, lo: int, hi: int, used: Used, insts: Instances, used': Used, insts': Instances,
                  k: string, bare: Instance)
    requires Free('|', from) && Holds(from, lo, hi, used, insts) && k in insts
    requires bare.hostPort == 0 && KeyFor(bare) == k && insts' == insts[k := bare]
    requires used' == if insts[k].hostPort != 0 then used - {insts[k].hostPort} else used
    ensures Holds(from, lo, hi, used', insts') && OthersKept(from, used, used')
    ensures forall p | p in used' :: used'[p] != Owner(from, bare)
  {
    if insts[k].hostPort != 0 {
      assert insts' - {k} == insts - {k};
      ReleaseHolds(from, lo, hi, used, insts, insts', k);
    } else {
      forall j ensures FiledAt(from, lo, hi, used', insts', j) {
        assert FiledAt(from, lo, hi, used, insts, j);
      }
      forall p ensures BackedAt(from, used', insts', p) {
        assert BackedAt(from, used, insts, p);
        if p in used && Mine(from, used[p]) {
          var j :| j in insts && insts[j].hostPort == p;
          assert j in insts' && insts'[j].hostPort == p;
        }
      }
      forall p ensures OtherAt(from, used, used', p) {
      }
    }
    forall p | p in used' ensures used'[p] != Owner(from, bare) {
      PortlessOwnsNone(from, lo, hi, used', insts', k, p);
    }
  }

  /** An instance without a port owns none in the pool. */
  lemma PortlessOwnsNone(from: string, lo: int, hi: int, used: Used, insts: Instances, k: string, p: int)
    requires Free('|', from) && Holds(from, lo, hi, used, insts)
    requires k in insts && insts[k].hostPort == 0 && p in used
    ensures used[p] != Owner(from, insts[k])
  {
    if used[p] == Owner(from, insts[k]) {
      OwnerMine(from, insts[k]);
      assert BackedAt(from, used, insts, p);
      var j :| j in insts && insts[j].hostPort == p;
      assert FiledAt(from, lo, hi, used, insts, j) && FiledAt(from, lo, hi, used, insts, k);
      OwnerIdentifies(from, insts[j], from, insts[k]);
    }
  }

  /** The state a run of records leads to. */
  ghost predicate HeardSo(insts0: Instances, hosts0: Hosts, allow: set<string>, rrs: seq<Record>, now: int,
                          insts: Instances, hosts: Hosts, announced: Hosts) {
    && insts == HeardAll(insts0, allow, rrs, now)
    && hosts == Withdrawn(hosts0, rrs) && announced == Announced(rrs, now)
  }

  lemma HeardSnoc(insts0: Instances, hosts0: Hosts, allow: set<string>, rrs: seq<Record>, i: nat, now: int,
                  insts: Instances, hosts: Hosts, announced: Hosts)
    requires i < |rrs| && HeardSo(insts0, hosts0, allow, rrs[..i], now, insts, hosts, announced)
    ensures HeardSo(insts0, hosts0, allow, rrs[..i + 1], now,
                    Heard(insts, Meaning(allow, rrs[i], now)),
                    if Withdraws(rrs[i]) then hosts - {Norm(rrs[i].name)} else hosts,
                    if Announces(rrs[i]) then WithAddress(announced, Norm(rrs[i].name), rrs[i].ip, now + rrs[i].ttl)
                    else announced)
  {
    FoldsSnoc(insts0, hosts0, allow, rrs, i, now);
  }

  lemma FoldsSnoc(insts: Instances, hosts: Hosts, allow: set<string>, rrs: seq<Record>, i: nat, now: int)
    requires i < |rrs|
    ensures HeardAll(insts, allow, rrs[..i + 1], now) ==
              Heard(HeardAll(insts, allow, rrs[..i], now), Meaning(allow, rrs[i], now))
    ensures var so, rr := Withdrawn(hosts, rrs[..i]), rrs[i];
            Withdrawn(hosts, rrs[..i + 1]) == if Withdraws(rr) then so - {Norm(rr.name)} else so
    ensures var so, rr := Announced(rrs[..i], now), rrs[i];
            Announced(rrs[..i + 1], now) ==
              if Announces(rr) then WithAddress(so, Norm(rr.name), rr.ip, now + rr.ttl) else so
  {
    assert rrs[..i + 1][..i] == rrs[..i];
  }

  lemma WithdrawnStep(insts: Instances, gone: set<string>, k: string, tail: seq<Instance>)
    requires k in insts && AllWithdrawn(insts, gone, tail)
    ensures AllWithdrawn(insts, gone + {k}, if insts[k].hostPort != 0 then tail + [insts[k]] else tail)
  {
    var after := if insts[k].hostPort != 0 then tail + [insts[k]] else tail;
    forall i ensures WithdrawnOf(insts, gone + {k}, after, i) {
      assert WithdrawnOf(insts, gone, tail, i);
    }
  }

  /** An instance left without a port found every port of its range in another's hands. */
  lemma NoPortLeft(from: string, lo: int, hi: int, used: Used, insts: Instances, k: string)
    requires Free('|', from) && Holds(from, lo, hi, used, insts) && Full(lo, hi, used)
    requires k in insts && insts[k].hostPort == 0
    ensures forall p | lo <= p <= hi :: TakenFrom(used, Owner(from, insts[k]), p)
  {
    forall p | lo <= p <= hi ensures TakenFrom(used, Owner(from, insts[k]), p) {
      PortlessOwnsNone(from, lo, hi, used, insts, k, p);
    }
  }
}
