/** Several NAT rules on one pool, and how a configuration is resolved into them
    (internal/mdns/service.go, planRules, and nat.go). */
module NatFabric {
  import opened Strings
  import opened Names
  import opened NatPorts

  datatype Step =
    | Message(rule: nat, records: seq<Record>, subnets: seq<string -> bool>, now: int)
    | Lapse(rule: nat, now: int)

  /** The rules that publish on one interface. A rule is in good order while it is the only
      one of its source and the names announced to it agree; nothing is asked of the rest. */
  class Fabric {
    const pool: Ports
    const rules: seq<NatRule>

    constructor (pool: Ports, rules: seq<NatRule>)
      requires forall i | 0 <= i < |rules| ::
                 rules[i].pool == pool && rules[i].insts == map[] && 0 < rules[i].lo <= rules[i].hi
      requires forall i, j | 0 <= i < j < |rules| :: rules[i] != rules[j]
      requires pool.used == map[]
      ensures this.pool == pool && this.rules == rules && Ok(set i | 0 <= i < |this.rules| && Alone(i))
    {
      this.pool, this.rules := pool, rules;
      new;
      forall i | 0 <= i < |rules| && Alone(i) ensures rules[i].Valid() {
        EmptyHolds(rules[i].from, rules[i].lo, rules[i].hi);
      }
    }

    /** The only rule of its source, which has no bar in its name. */
    predicate Alone(i: int)
      requires 0 <= i < |rules|
    {
      && Free('|', rules[i].from)
      && forall j | 0 <= j < |rules| && j != i :: Free('|', rules[j].from) && rules[j].from != rules[i].from
    }

    ghost predicate Ok(good: set<int>)
      reads this, pool, rules
    {
      && (forall i | 0 <= i < |rules| :: rules[i].pool == pool && 0 < rules[i].lo <= rules[i].hi)
      && (forall i, j | 0 <= i < j < |rules| :: rules[i] != rules[j])
      && (forall i <- good :: 0 <= i < |rules| && Alone(i) && rules[i].Valid())
      && (forall p <- pool.used :: SomeoneHas(p))
    }

    ghost predicate SomeoneHas(p: int)
      reads this, pool, rules
      requires p in pool.used
    {
      exists i | 0 <= i < |rules| :: Mine(rules[i].from, pool.used[p])
    }

    /** An instance of one of the rules has the port. */
    ghost predicate Has(i: int, k: string, p: int)
      reads this, rules
    {
      0 <= i < |rules| && k in rules[i].insts && rules[i].insts[k].hostPort == p
    }

    ghost predicate Owns(i: int, p: int)
      reads this, pool, rules
    {
      0 <= i < |rules| && p in pool.used && Mine(rules[i].from, pool.used[p])
    }

    /** What the pool has for the good rules is exactly the ports their instances hold, each
        with its owner and inside its range; and it has nothing but what rules hold. */
    ghost predicate Exact(good: set<int>)
      reads this, pool, rules
    {
      && (forall i, p | i in good && Owns(i, p) ::
            p != 0 && exists k :: Has(i, k, p) && pool.used[p] == Owner(rules[i].from, rules[i].insts[k]))
      && (forall i, k, p | i in good && Has(i, k, p) && p != 0 ::
            p in pool.used && pool.used[p] == Owner(rules[i].from, rules[i].insts[k])
            && rules[i].lo <= p <= rules[i].hi)
      && (forall p <- pool.used :: exists i :: Owns(i, p))
    }

    /** No two instances, of whichever good rules, are published on the same port. */
    ghost predicate Apart(good: set<int>)
      reads this, rules
    {
      forall i, j, k, l, p | i in good && j in good && Has(i, k, p) && Has(j, l, p) && p != 0 :: i == j && k == l
    }

    lemma OkExact(good: set<int>)
      requires Ok(good)
      ensures Exact(good) && Apart(good)
    {
      forall i, k, p | i in good && Has(i, k, p) && p != 0
        ensures p in pool.used && pool.used[p] == Owner(rules[i].from, rules[i].insts[k])
                && rules[i].lo <= p <= rules[i].hi
      {
        assert rules[i].Valid();
        assert FiledAt(rules[i].from, rules[i].lo, rules[i].hi, pool.used, rules[i].insts, k);
      }
      forall i, p | i in good && Owns(i, p)
        ensures p != 0 && exists k :: Has(i, k, p) && pool.used[p] == Owner(rules[i].from, rules[i].insts[k])
      {
        assert rules[i].Valid();
        assert BackedAt(rules[i].from, pool.used, rules[i].insts, p);
        var k :| k in rules[i].insts && rules[i].insts[k].hostPort == p;
        assert Has(i, k, p);
      }
      forall p | p in pool.used ensures exists i :: Owns(i, p) {
        assert SomeoneHas(p);
        var i :| 0 <= i < |rules| && Mine(rules[i].from, pool.used[p]);
        assert Owns(i, p);
      }
      forall i, j, k, l, p | i in good && j in good && Has(i, k, p) && Has(j, l, p) && p != 0 ensures i == j && k == l {
        assert Alone(i);
        OwnerIdentifies(rules[i].from, rules[i].insts[k], rules[j].from, rules[j].insts[l]);
        PortsApart(rules[i].from, rules[i].lo, rules[i].hi, pool.used, rules[i].insts, k, l);
      }
    }

    /** A rule whose message names instances that do not agree is no longer in good order. */
    function After(good: set<int>, s: Step): set<int>
      requires s.rule < |rules|
    {
      if s.Message? && !AllAgree(rules[s.rule].allow, s.records) then good - {s.rule} else good
    }

    function AfterAll(good: set<int>, steps: seq<Step>): set<int>
      requires forall i | 0 <= i < |steps| :: steps[i].rule < |rules|
    {
      if steps == [] then good else After(AfterAll(good, steps[..|steps| - 1]), steps[|steps| - 1])
    }

    /** One step of one rule, whatever it is told, leaves the other good rules in order. */
    method Perform(s: Step, ghost good: set<int>)
      requires Ok(good) && s.rule < |rules|
      modifies pool, rules[s.rule]
      ensures Ok(After(good, s))
      ensures s.Lapse? && s.rule in good ==> rules[s.rule].insts == Unlapsed(old(rules[s.rule].insts), s.now)
      ensures s.Message? ==>
                AllRemapped(HeardAll(old(rules[s.rule].insts), rules[s.rule].allow, s.records, s.now),
                            rules[s.rule].insts)
    {
      var r := rules[s.rule];
      ghost var used0 := pool.used;
      assert forall i | 0 <= i < |rules| && i != s.rule :: rules[i] != r;
      if s.Message? {
        var changed := r.Learn(s.records, s.subnets, s.now);
      } else {
        ghost var dropped, gone;
        var changed;
        changed, dropped, gone := r.Expire(s.now);
      }
      forall i | i in After(good, s) ensures rules[i].Valid() {
        if i != s.rule {
          assert Alone(i);
          HoldsOn(rules[i].from, r.from, rules[i].lo, rules[i].hi, used0, pool.used, rules[i].insts);
        }
      }
      forall p | p in pool.used ensures SomeoneHas(p) {
        if !Mine(r.from, pool.used[p]) {
          assert OtherAt(r.from, used0, pool.used, p);
        }
      }
    }

    /** In every reachable state of rules sharing a pool, whatever the sources announce: for
        the rules whose own names agree the pool is exact, and all their published instances
        have different ports, each inside its rule's range. */
    method Run(steps: seq<Step>, ghost good: set<int>)
      requires Ok(good) && forall i | 0 <= i < |steps| :: steps[i].rule < |rules|
      modifies pool, rules
      ensures var still := AfterAll(good, steps); Ok(still) && Exact(still) && Apart(still)
    {
      for i := 0 to |steps|
        invariant Ok(AfterAll(good, steps[..i]))
      {
        assert steps[..i + 1][..i] == steps[..i];
        Perform(steps[i], AfterAll(good, steps[..i]));
      }
      assert steps[..|steps|] == steps;
      OkExact(AfterAll(good, steps));
    }

    /** Two rules of one source and range that learn the same instance are one owner: both
        are given the same port. */
    method SharedSource(i: nat, j: nat, n: Notice, target: Ip) returns (ok: bool)
      requires i < |rules| && j < |rules| && Ok({}) && i != j
      requires rules[i].from == rules[j].from && rules[i].lo == rules[j].lo && rules[i].hi == rules[j].hi
               && rules[i].hash == rules[j].hash
      requires n.About? && Portless(n) && n.key !in rules[i].insts && n.key !in rules[j].insts && target != NoIp
      modifies pool, rules[i], rules[j]
      ensures ok ==> && n.key in rules[i].insts && n.key in rules[j].insts
                     && rules[i].insts[n.key].hostPort == rules[j].insts[n.key].hostPort != 0 && !Apart({i, j})
      ensures ok <==>
                exists p | rules[i].lo <= p <= rules[i].hi ::
                  !TakenFrom(old(pool.used), Owner(rules[i].from, n.newcomer), p)
    {
      var a, b := rules[i], rules[j];
      assert a != b;
      var news := a.Notify(n);
      news := b.Notify(n);
      ghost var used, owner, size := pool.used, Owner(a.from, n.newcomer), a.hi - a.lo + 1;
      UpdatedKeeps(n.newcomer, n.update);
      assert KeyFor(a.insts[n.key]) == KeyFor(b.insts[n.key]) == KeyFor(n.newcomer);
      ok := a.Place(n.key, target);
      assert KeyFor(a.insts[n.key]) == KeyFor(n.newcomer);
      if ok {
        ghost var p := a.insts[n.key].hostPort;
        assert pool.used == used[p := owner] && !TakenFrom(used, owner, p) && !TakenFrom(used[p := owner], owner, p);
        var again := b.Place(n.key, target);
        assert KeyFor(b.insts[n.key]) == KeyFor(n.newcomer);
        FirstProbeAgain(a.lo, size, a.hash(a.from, target, a.insts[n.key].port) % size, used, owner, p,
                        b.insts[n.key].hostPort);
        assert Has(i, n.key, p) && Has(j, n.key, p);
      } else {
        forall p | a.lo <= p <= a.hi ensures TakenFrom(used, owner, p) {
          assert TakenFrom(pool.used, Owner(a.from, a.insts[n.key]), p);
        }
      }
    }
  }

  lemma EmptyHolds(from: string, lo: int, hi: int)
    ensures Holds(from, lo, hi, map[], map[])
  {
    var used: Used, insts: Instances := map[], map[];
    forall k ensures FiledAt(from, lo, hi, used, insts, k) {
    }
    forall p ensures BackedAt(from, used, insts, p) {
    }
  }

  // ---- Resolving a configuration ------------------------------------------------------------------

  /** A configured rule with its endpoints resolved to interfaces. */
  datatype Spec = Spec(froms: seq<string>, tos: seq<string>, lo: int, hi: int, allow: set<string>)

  datatype Edge = Edge(from: string, to: string, lo: int, hi: int, allow: set<string>)

  /** A domain is never its own peer. */
  function EdgesFrom(s: Spec, from: string, tos: seq<string>): seq<Edge> {
    if tos == [] then []
    else
      var to := tos[|tos| - 1];
      EdgesFrom(s, from, tos[..|tos| - 1]) + if from == to then [] else [Edge(from, to, s.lo, s.hi, s.allow)]
  }

  function EdgesOf(s: Spec, froms: seq<string>): seq<Edge> {
    if froms == [] then [] else EdgesOf(s, froms[..|froms| - 1]) + EdgesFrom(s, froms[|froms| - 1], s.tos)
  }

  function Expand(specs: seq<Spec>): seq<Edge> {
    if specs == [] then [] else Expand(specs[..|specs| - 1]) + EdgesOf(specs[|specs| - 1], specs[|specs| - 1].froms)
  }

  /** A rule for every edge, and one pool for every interface published on. */
  ghost predicate Planned(edges: seq<Edge>, nats: seq<NatRule>, pools: map<string, Ports>,
                          hash: (string, Ip, nat) -> nat)
    reads nats, pools.Values
  {
    && |nats| == |edges|
    && (forall i | 0 <= i < |edges| ::
          && edges[i].to in pools && nats[i].pool == pools[edges[i].to] && nats[i].insts == map[]
          && nats[i].from == edges[i].from && nats[i].lo == edges[i].lo && nats[i].hi == edges[i].hi
          && nats[i].allow == edges[i].allow && nats[i].hash == hash)
    && (forall a, b | a in pools && b in pools && pools[a] == pools[b] :: a == b)
    && (forall a <- pools :: pools[a].used == map[])
    && (forall i, j | 0 <= i < j < |nats| :: nats[i] != nats[j])
  }

  /** planRules: the NAT rules of a configuration. Rules share a pool exactly when they
      publish on the same interface. */
  method PlanRules(specs: seq<Spec>, hash: (string, Ip, nat) -> nat) returns (nats: seq<NatRule>,
                   pools: map<string, Ports>)
    ensures Planned(Expand(specs), nats, pools, hash)
    ensures (forall r <- nats :: fresh(r)) && forall a <- pools :: fresh(pools[a])
    ensures forall i, j | 0 <= i < |nats| && 0 <= j < |nats| ::
              nats[i].pool == nats[j].pool <==> Expand(specs)[i].to == Expand(specs)[j].to
  {
    nats, pools := [], map[];
    for i := 0 to |specs|
      invariant Planned(Expand(specs[..i]), nats, pools, hash)
      invariant (forall r <- nats :: fresh(r)) && forall a <- pools :: fresh(pools[a])
    {
      assert specs[..i + 1][..i] == specs[..i];
      nats, pools := PlanRule(Expand(specs[..i]), nats, pools, specs[i], hash);
    }
    assert specs[..|specs|] == specs;
  }

  /** One configured rule: every source with every destination. */
  method PlanRule(ghost edges: seq<Edge>, nats: seq<NatRule>, pools: map<string, Ports>, s: Spec,
                  hash: (string, Ip, nat) -> nat)
    returns (nats': seq<NatRule>, pools': map<string, Ports>)
    requires Planned(edges, nats, pools, hash)
    ensures Planned(edges + EdgesOf(s, s.froms), nats', pools', hash)
    ensures forall r <- nats' :: r in nats || fresh(r)
    ensures forall a <- pools' :: (a in pools && pools'[a] == pools[a]) || fresh(pools'[a])
  {
    nats', pools' := nats, pools;
    assert edges + [] == edges;
    for j := 0 to |s.froms|
      invariant Planned(edges + EdgesOf(s, s.froms[..j]), nats', pools', hash)
      invariant forall r <- nats' :: r in nats || fresh(r)
      invariant forall a <- pools' :: (a in pools && pools'[a] == pools[a]) || fresh(pools'[a])
    {
      assert s.froms[..j + 1][..j] == s.froms[..j];
      assert edges + EdgesOf(s, s.froms[..j + 1]) ==
               (edges + EdgesOf(s, s.froms[..j])) + EdgesFrom(s, s.froms[j], s.tos);
      nats', pools' := PlanSource(edges + EdgesOf(s, s.froms[..j]), nats', pools', s, s.froms[j], hash);
    }
    assert s.froms[..|s.froms|] == s.froms;
  }

  method PlanSource(ghost edges: seq<Edge>, nats: seq<NatRule>, pools: map<string, Ports>, s: Spec, from: string,
                    hash: (string, Ip, nat) -> nat)
    returns (nats': seq<NatRule>, pools': map<string, Ports>)
    requires Planned(edges, nats, pools, hash)
    ensures Planned(edges + EdgesFrom(s, from, s.tos), nats', pools', hash)
    ensures forall r <- nats' :: r in nats || fresh(r)
    ensures forall a <- pools' :: (a in pools && pools'[a] == pools[a]) || fresh(pools'[a])
  {
    nats', pools' := nats, pools;
    assert edges + [] == edges;
    for k := 0 to |s.tos|
      invariant Planned(edges + EdgesFrom(s, from, s.tos[..k]), nats', pools', hash)
      invariant forall r <- nats' :: r in nats || fresh(r)
      invariant forall a <- pools' :: (a in pools && pools'[a] == pools[a]) || fresh(pools'[a])
    {
      assert s.tos[..k + 1][..k] == s.tos[..k];
      ghost var so, e := edges + EdgesFrom(s, from, s.tos[..k]), Edge(from, s.tos[k], s.lo, s.hi, s.allow);
      if from != s.tos[k] {
        assert edges + EdgesFrom(s, from, s.tos[..k + 1]) == so + [e];
        nats', pools' := AddRule(so, nats', pools', Edge(from, s.tos[k], s.lo, s.hi, s.allow), hash);
      } else {
        assert edges + EdgesFrom(s, from, s.tos[..k + 1]) == so;
      }
    }
    assert s.tos[..|s.tos|] == s.tos;
  }

  method AddRule(ghost edges: seq<Edge>, nats: seq<NatRule>, pools: map<string, Ports>, e: Edge,
                 hash: (string, Ip, nat) -> nat)
    returns (nats': seq<NatRule>, pools': map<string, Ports>)
    requires Planned(edges, nats, pools, hash)
    ensures Planned(edges + [e], nats', pools', hash)
    ensures forall r <- nats' :: r in nats || fresh(r)
    ensures forall a <- pools' :: (a in pools && pools'[a] == pools[a]) || fresh(pools'[a])
  {
    pools' := pools;
    if e.to !in pools' {
      var p := new Ports();
      pools' := pools'[e.to := p];
    }
    var r := new NatRule(e.from, e.lo, e.hi, e.allow, hash, pools'[e.to]);
    nats' := nats + [r];
  }

  /** The rules on a pool have different sources exactly when no pair of interfaces was
      named twice. */
  lemma SourcesApart(edges: seq<Edge>, nats: seq<NatRule>, pools: map<string, Ports>, hash: (string, Ip, nat) -> nat)
    requires Planned(edges, nats, pools, hash)
    ensures (forall i, j | 0 <= i < j < |nats| && nats[i].pool == nats[j].pool :: nats[i].from != nats[j].from)
            <==> (forall i, j | 0 <= i < j < |edges| :: edges[i].from != edges[j].from || edges[i].to != edges[j].to)
  {
    forall i, j | 0 <= i < j < |edges| ensures nats[i].pool == nats[j].pool <==> edges[i].to == edges[j].to {
    }
  }

  /** Two configured rules may name the same pair of interfaces. */
  lemma PairTwice(from: string, to: string, lo: int, hi: int, allow: set<string>)
    requires from != to
    ensures var s, e := Spec([from], [to], lo, hi, allow), Edge(from, to, lo, hi, allow); Expand([s, s]) == [e, e]
  {
    var s, e := Spec([from], [to], lo, hi, allow), Edge(from, to, lo, hi, allow);
    assert EdgesFrom(s, from, []) == [];
    assert EdgesFrom(s, from, [to]) == [e] by { assert [to][..0] == []; }
    assert EdgesOf(s, [from]) == [e] by { assert [from][..0] == []; }
    assert Expand([s]) == [e] by { assert [s][..0] == []; }
    assert [s, s][..1] == [s];
  }

  /** Then the two rules are of one source and on one pool, and an instance both learn is
      published twice on one port. */
  method PairClashes(from: string, to: string, lo: int, hi: int, allow: set<string>, hash: (string, Ip, nat) -> nat,
                     n: Notice, target: Ip)
    returns (f: Fabric)
    requires from != to && 0 < lo <= hi && n.About? && Portless(n) && target != NoIp
    ensures |f.rules| == 2 && f.rules[0].from == f.rules[1].from && !f.Apart({0, 1})
  {
    var s := Spec([from], [to], lo, hi, allow);
    PairTwice(from, to, lo, hi, allow);
    var nats, pools := PlanRules([s, s], hash);
    assert Expand([s, s])[0] == Expand([s, s])[1] == Edge(from, to, lo, hi, allow);
    f := new Fabric(pools[to], nats);
    assert !TakenFrom(f.pool.used, Owner(f.rules[0].from, n.newcomer), lo);
    var ok := f.SharedSource(0, 1, n, target);
  }

  /** A mapping lost without a report: a goodbye missed its instance and freed its port, the
      port of a range of one went to another source's instance, and then the first one's
      host moved. Learn says nothing changed, and the instance is no longer mapped. */
  method LostSilently(a: NatRule, b: NatRule, k: string, j: string, target: Ip, host: string, ip: Ip, ttl: nat,
                      subnets: seq<string -> bool>, now: int)
    returns (changed: bool)
    requires a != b && a.pool == b.pool && 0 < a.lo == a.hi == b.lo == b.hi
    requires Free('|', a.from) && Free('|', b.from) && a.from != b.from
    requires a.insts.Keys == {k} && IsPublished(a.insts[k]) && KeyFor(a.insts[k]) != k && a.insts[k].hostPort == a.lo
    requires a.pool.used == map[a.lo := Owner(a.from, a.insts[k])]
    requires b.insts.Keys == {j} && b.insts[j].hostPort == 0 && target != NoIp
    requires a.insts[k].host == Norm(host) && a.insts[k].port != 0 && ttl > 0
    requires ip != NoIp && ip.mappable && ip != a.insts[k].ip && exists i | 0 <= i < |subnets| :: subnets[i](ip.text)
    modifies a, b, a.pool
    ensures !changed && MappingAt(old(a.insts), k) != NoMapping && MappingAt(a.insts, k) == NoMapping
  {
    LoseAndTake(a, b, k, j, target);
    OneAddress(host, ip, ttl, subnets, now);
    changed := a.Learn([Address(host, ip, ttl)], subnets, now);
  }

  /** The missed goodbye, and the port taken by the other. */
  method LoseAndTake(a: NatRule, b: NatRule, k: string, j: string, target: Ip)
    requires a != b && a.pool == b.pool && 0 < a.lo == a.hi == b.lo == b.hi
    requires Free('|', a.from) && Free('|', b.from) && a.from != b.from
    requires k in a.insts && KeyFor(a.insts[k]) != k && a.insts[k].hostPort == a.lo && a.insts.Keys == {k}
    requires a.pool.used == map[a.lo := Owner(a.from, a.insts[k])]
    requires j in b.insts && b.insts[j].hostPort == 0 && target != NoIp
    modifies a, b, a.pool
    ensures a.insts == old(a.insts) && a.hosts == old(a.hosts)
    ensures Stranded(a.from, a.lo, a.hi, a.pool.used, a.insts[k])
  {
    ghost var i, x := a.insts[k], b.insts[j];
    var news := a.Notify(Goodbye(k));
    assert a.insts == old(a.insts) && a.pool.used == map[];
    var ok := b.Place(j, target);
    assert KeyFor(b.insts[j]) == KeyFor(x);
    OwnerIdentifies(a.from, i, b.from, x);
    assert !TakenFrom(map[], Owner(b.from, b.insts[j]), b.lo);
    assert ok && b.insts[j].hostPort == a.lo;
    assert a.pool.used == map[a.lo := Owner(b.from, x)];
    forall p ensures StrandedAt(a.from, a.lo, a.hi, a.pool.used, i, p) {
    }
  }

  lemma OneAddress(host: string, ip: Ip, ttl: nat, subnets: seq<string -> bool>, now: int)
    requires ip != NoIp && ip.mappable && ttl > 0 && exists i | 0 <= i < |subnets| :: subnets[i](ip.text)
    ensures var hosts := Announced([Address(host, ip, ttl)], now);
            && OnlyAddresses([Address(host, ip, ttl)]) && Norm(host) in hosts
            && now < hosts[Norm(host)].until && MapTarget(subnets, hosts[Norm(host)].ips) == ip
  {
    var rr := Address(host, ip, ttl);
    assert [rr][..0] == [];
    assert Announced([rr], now) == WithAddress(map[], Norm(host), ip, now + ttl);
  }
}
