/** The directed mDNS relay: from the relay rules to every pair of domains a walk
    of rules connects (planRelays in internal/mdns/reflect.go). */
module Relays {
  import opened Strings
  import opened ClassSets
  import Sets

  /** One relay rule resolved to interface indexes. */
  datatype Rule = Rule(from: int, to: int, services: seq<string>)

  /** A rule as the walk sees it: an edge and the classes it allows. */
  datatype Edge = Edge(from: int, to: int, allow: ClassSet)

  /** The permission half of a pair's filter. */
  datatype Filter = Filter(all: bool, allow: set<string>)

  datatype Relay = Relay(from: int, to: int, f: Filter)

  function EdgesOf(rules: seq<Rule>): seq<Edge> {
    seq(|rules|, i requires 0 <= i < |rules| => Edge(rules[i].from, rules[i].to, ClassesOf(rules[i].services)))
  }

  function NewFilter(services: seq<string>): Filter {
    Filter("*" in services, set s | s in services && s != "*" :: Lower(s))
  }

  predicate FilterAllows(f: Filter, c: string) {
    f.all || c in f.allow
  }

  // ---- Meaning: walks of rules ----------------------------------------------

  /** `path` is a walk of edges from domain s to domain d, every one of which allows class c. */
  ghost predicate Walk(edges: seq<Edge>, path: seq<Edge>, s: int, d: int, c: string) {
    && path != []
    && path[0].from == s
    && path[|path| - 1].to == d
    && (forall i | 0 <= i < |path| :: path[i] in edges && Allows(path[i].allow, c))
    && (forall i | 0 < i < |path| :: path[i - 1].to == path[i].from)
  }

  ghost predicate Connected(edges: seq<Edge>, s: int, d: int, c: string) {
    exists path :: Walk(edges, path, s, d, c)
  }

  /** One pair of the planned relation lets class c through from s to d. */
  ghost predicate Relayed(out: seq<Relay>, s: int, d: int, c: string) {
    exists r <- out :: r.from == s && r.to == d && FilterAllows(r.f, c)
  }

  lemma ConnectedByEdge(edges: seq<Edge>, e: Edge, c: string)
    requires e in edges && Allows(e.allow, c)
    ensures Connected(edges, e.from, e.to, c)
  {
    assert Walk(edges, [e], e.from, e.to, c);
  }

  lemma ConnectedExtends(edges: seq<Edge>, s: int, e: Edge, c: string)
    requires Connected(edges, s, e.from, c)
    requires e in edges && Allows(e.allow, c)
    ensures Connected(edges, s, e.to, c)
  {
    var path :| Walk(edges, path, s, e.from, c);
    assert Walk(edges, path + [e], s, e.to, c);
  }

  /** A walk that comes back to its source adds nothing: the part after the last
      visit is a walk of its own that never returns there. */
  lemma {:induction false} WalkAvoidingSource(edges: seq<Edge>, path: seq<Edge>, s: int, d: int, c: string)
    requires Walk(edges, path, s, d, c) && s != d
    ensures exists p: seq<Edge> :: Walk(edges, p, s, d, c) && forall i | 0 <= i < |p| :: p[i].to != s
    decreases |path|
  {
    if k :| 0 <= k < |path| && path[k].to == s {
      assert Walk(edges, path[k + 1..], s, d, c);
      WalkAvoidingSource(edges, path[k + 1..], s, d, c);
    }
  }

  // ---- Termination: how much a map can still improve ------------------------

  type Best = map<int, ClassSet>

  ghost predicate Carries(best: Best, v: int, c: string) {
    v in best && Allows(best[v], c)
  }

  /** The edges name no class outside the finite set u. */
  ghost predicate Named(edges: seq<Edge>, u: set<string>) {
    forall e <- edges :: e.allow.classes <= u && Clean(e.allow)
  }

  ghost function Universe(edges: seq<Edge>): set<string> {
    if edges == [] then {} else edges[0].allow.classes + Universe(edges[1..])
  }

  lemma UniverseCovers(edges: seq<Edge>)
    ensures forall e <- edges :: e.allow.classes <= Universe(edges)
  {
  }

  ghost predicate Within(best: Best, u: set<string>) {
    forall v <- best :: best[v].classes <= u && !Empty(best[v]) && Clean(best[v])
  }

  /** How often the entry of one node can still be replaced. Replacing
      ["*", "x"] by plain "*" widens nothing, but is a replacement. */
  ghost function Rank(best: Best, v: int, u: set<string>): nat {
    if v !in best then |u| + 3 else Room(best[v], u)
  }

  ghost function Room(cs: ClassSet, u: set<string>): nat {
    if !cs.all then 2 + |u - cs.classes| else if cs.classes != {} then 1 else 0
  }

  /** The replacements still possible over the targets of the edges. */
  ghost function Potential(best: Best, edges: seq<Edge>, u: set<string>): nat {
    if edges == [] then 0 else Rank(best, edges[0].to, u) + Potential(best, edges[1..], u)
  }

  lemma StrictSubsetSize(a: set<string>, b: set<string>)
    requires a < b
    ensures |a| < |b|
  {
    var rest := b - a;
    assert b == a + rest && a !! rest;
    assert rest != {};
  }

  lemma RoomBound(cs: ClassSet, u: set<string>)
    ensures Room(cs, u) < |u| + 3
  {
    if u - cs.classes != u { StrictSubsetSize(u - cs.classes, u); }
  }

  lemma RoomDrops(was: ClassSet, o: ClassSet, u: set<string>)
    requires Union(was, o) != was && Union(was, o).classes <= u
    ensures Room(Union(was, o), u) < Room(was, u)
  {
    var cs := Union(was, o);
    if !was.all && !cs.all {
      assert was.classes < cs.classes;
      assert u - cs.classes < u - was.classes;
      StrictSubsetSize(u - cs.classes, u - was.classes);
    }
  }

  lemma RankDrops(best: Best, v: int, cs: ClassSet, u: set<string>)
    requires cs.classes <= u
    requires v in best ==> cs != best[v] && exists o :: cs == Union(best[v], o)
    ensures Rank(best[v := cs], v, u) < Rank(best, v, u)
  {
    if v in best {
      var o :| cs == Union(best[v], o);
      RoomDrops(best[v], o, u);
    } else {
      RoomBound(cs, u);
    }
  }

  lemma {:induction false} PotentialDrops(best: Best, v: int, cs: ClassSet, edges: seq<Edge>, u: set<string>)
    requires Rank(best[v := cs], v, u) < Rank(best, v, u)
    ensures Potential(best[v := cs], edges, u) <= Potential(best, edges, u)
    ensures (exists e <- edges :: e.to == v) ==> Potential(best[v := cs], edges, u) < Potential(best, edges, u)
  {
    if edges != [] {
      PotentialDrops(best, v, cs, edges[1..], u);
      assert edges[0].to != v ==> Rank(best[v := cs], edges[0].to, u) == Rank(best, edges[0].to, u);
      if e :| e in edges && e.to == v && edges[0].to != v {
        assert e in edges[1..];
      }
    }
  }

  // ---- The worklist ---------------------------------------------------------

  /** A node's entry was replaced by a wider one and the node queued; or nothing changed. */
  ghost predicate Improved(best: Best, queue: seq<int>, best': Best, queue': seq<int>, to: int, edges: seq<Edge>,
                           u: set<string>) {
    || (best' == best && queue' == queue)
    || (queue' == queue + [to] && Potential(best', edges, u) < Potential(best, edges, u)
        && best'.Keys == best.Keys + {to} && forall v <- best | v != to :: best'[v] == best[v])
  }

  /** Merges a class set into a node and queues the node when that improved it. */
  method Push(best: Best, queue: seq<int>, to: int, cs: ClassSet, ghost edges: seq<Edge>, ghost u: set<string>)
    returns (best': Best, queue': seq<int>)
    requires Within(best, u) && cs.classes <= u && Clean(cs)
    requires exists e <- edges :: e.to == to
    ensures Within(best', u)
    ensures forall v, c :: Carries(best', v, c) <==> Carries(best, v, c) || (v == to && Allows(cs, c))
    ensures Improved(best, queue, best', queue', to, edges, u)
  {
    best', queue' := best, queue;
    if !Empty(cs) {
      var merged := cs;
      if to in best {
        merged := Union(best[to], cs);
        if best[to] == merged {
          return;
        }
      }
      RankDrops(best, to, merged, u);
      PotentialDrops(best, to, merged, edges, u);
      best' := best[to := merged];
      queue' := queue + [to];
    }
  }

  /** Everything carried to v is carried on by an edge leaving it. */
  ghost predicate Passed(best: Best, v: int, e: Edge) {
    forall c :: Carries(best, v, c) && Allows(e.allow, c) ==> Carries(best, e.to, c)
  }

  /** The edges leaving v are done, or v is queued. */
  ghost predicate Settled(best: Best, queue: seq<int>, e: Edge) {
    e.from in queue || Passed(best, e.from, e)
  }

  /** What walks really carry: the fact "class c reaches node v". */
  type Fact = (int, string) -> bool

  /** The entries are facts. */
  ghost predicate Sound(best: Best, fact: Fact) {
    forall v, c | Carries(best, v, c) :: fact(v, c)
  }

  ghost predicate Extends(fact: Fact, edges: seq<Edge>) {
    forall e <- edges, c | fact(e.from, c) && Allows(e.allow, c) :: fact(e.to, c)
  }

  ghost predicate Seeded(best: Best, edges: seq<Edge>, source: int) {
    forall e <- edges, c | e.from == source && Allows(e.allow, c) :: Carries(best, e.to, c)
  }

  ghost predicate Grows(best: Best, best': Best) {
    forall v, c :: Carries(best, v, c) ==> Carries(best', v, c)
  }

  lemma StaySettled(best: Best, queue: seq<int>, best': Best, queue': seq<int>, to: int, edges: seq<Edge>,
                    u: set<string>)
    requires Improved(best, queue, best', queue', to, edges, u) && Grows(best, best')
    ensures forall e: Edge | Settled(best, queue, e) :: Settled(best', queue', e)
  {
    forall e: Edge | Settled(best, queue, e) ensures Settled(best', queue', e) {
      if e.from !in queue' {
        forall c | Carries(best', e.from, c) && Allows(e.allow, c) ensures Carries(best', e.to, c) {
          assert Carries(best, e.from, c);
          assert Carries(best, e.to, c);
        }
      }
    }
  }

  /** One edge carries its node's classes on. */
  method Relax(best: Best, queue: seq<int>, e: Edge, ghost edges: seq<Edge>, ghost u: set<string>, ghost fact: Fact)
    returns (best': Best, queue': seq<int>)
    requires Named(edges, u) && Extends(fact, edges) && Within(best, u) && Sound(best, fact)
    requires e in edges && e.from in best
    ensures Within(best', u) && Sound(best', fact) && Grows(best, best')
    ensures (best' == best && queue' == queue) || Potential(best', edges, u) < Potential(best, edges, u)
    ensures best.Keys <= best'.Keys
    ensures Settled(best', queue', e)
    ensures forall x: Edge | Settled(best, queue, x) :: Settled(best', queue', x)
  {
    var cs := Intersect(best[e.from], e.allow);
    best', queue' := Push(best, queue, e.to, cs, edges, u);
    forall v, c | Carries(best', v, c) ensures fact(v, c) {
      if !Carries(best, v, c) {
        assert Carries(best, e.from, c);
        assert fact(e.from, c);
      }
    }
    if e.from !in queue' {
      forall c | Carries(best', e.from, c) && Allows(e.allow, c) ensures Carries(best', e.to, c) {
        assert Carries(best, e.from, c) && Allows(cs, c);
      }
    }
    StaySettled(best, queue, best', queue', e.to, edges, u);
  }

  /** Hands a dequeued node's classes to every edge leaving it. */
  method PassOn(best: Best, queue: seq<int>, via: int, leaving: seq<Edge>, ghost edges: seq<Edge>,
                ghost u: set<string>, ghost fact: Fact)
    returns (best': Best, queue': seq<int>)
    requires Named(edges, u) && Extends(fact, edges) && Within(best, u) && Sound(best, fact) && via in best
    requires forall e <- leaving :: e in edges && e.from == via
    ensures Within(best', u) && Sound(best', fact) && Grows(best, best')
    ensures (best' == best && queue' == queue) || Potential(best', edges, u) < Potential(best, edges, u)
    ensures forall e <- leaving :: Settled(best', queue', e)
    ensures forall x: Edge | Settled(best, queue, x) :: Settled(best', queue', x)
  {
    best', queue' := best, queue;
    for k := 0 to |leaving|
      invariant Within(best', u) && Sound(best', fact) && Grows(best, best') && via in best'
      invariant (best' == best && queue' == queue) || Potential(best', edges, u) < Potential(best, edges, u)
      invariant forall j | 0 <= j < k :: Settled(best', queue', leaving[j])
      invariant forall x: Edge | Settled(best, queue, x) :: Settled(best', queue', x)
    {
      best', queue' := Relax(best', queue', leaving[k], edges, u, fact);
    }
  }

  /** The edges leaving the source start the walk. */
  method Seed(leaving: seq<Edge>, ghost edges: seq<Edge>, ghost u: set<string>, ghost fact: Fact)
    returns (best: Best, queue: seq<int>)
    requires Named(edges, u)
    requires forall e <- leaving :: e in edges
    requires forall e <- leaving, c | Allows(e.allow, c) :: fact(e.to, c)
    ensures Within(best, u) && Sound(best, fact)
    ensures forall v <- best :: v in queue
    ensures forall e <- leaving, c | Allows(e.allow, c) :: Carries(best, e.to, c)
  {
    best, queue := map[], [];
    for i := 0 to |leaving|
      invariant Within(best, u) && Sound(best, fact)
      invariant forall v <- best :: v in queue
      invariant forall j, c | 0 <= j < i && Allows(leaving[j].allow, c) :: Carries(best, leaving[j].to, c)
    {
      var e := leaving[i];
      ghost var before := best;
      best, queue := Push(best, queue, e.to, e.allow, edges, u);
      assert forall v, c | Carries(best, v, c) && !Carries(before, v, c) :: v == e.to && Allows(e.allow, c);
    }
  }

  /** Each node's edges, as the map from source interface to edges. */
  ghost predicate Grouped(byFrom: map<int, seq<Edge>>, edges: seq<Edge>) {
    && (forall v <- byFrom :: forall e <- byFrom[v] :: e in edges && e.from == v)
    && (forall e <- edges :: e.from in byFrom && e in byFrom[e.from])
  }

  method GroupByFrom(edges: seq<Edge>) returns (byFrom: map<int, seq<Edge>>)
    ensures Grouped(byFrom, edges)
  {
    byFrom := map[];
    for i := 0 to |edges|
      invariant Grouped(byFrom, edges[..i])
    {
      var e := edges[i];
      var before := if e.from in byFrom then byFrom[e.from] else [];
      byFrom := byFrom[e.from := before + [e]];
      assert edges[..i + 1] == edges[..i] + [e];
    }
    assert edges[..|edges|] == edges;
  }

  /** A closed map carries every class of every walk. */
  lemma {:induction false} WalkIsCarried(best: Best, edges: seq<Edge>, path: seq<Edge>, s: int, d: int, c: string)
    requires Seeded(best, edges, s)
    requires forall e <- edges :: Passed(best, e.from, e)
    requires Walk(edges, path, s, d, c)
    ensures Carries(best, d, c)
    decreases |path|
  {
    var e := path[|path| - 1];
    if |path| > 1 {
      var init := path[..|path| - 1];
      assert Walk(edges, init, s, e.from, c);
      WalkIsCarried(best, edges, init, s, e.from, c);
      assert Passed(best, e.from, e);
    }
  }

  /** The walk outward from one source, to the least fixpoint. */
  method Outward(byFrom: map<int, seq<Edge>>, source: int, ghost edges: seq<Edge>) returns (best: Best)
    requires Grouped(byFrom, edges) && source in byFrom
    requires forall e <- edges :: Clean(e.allow)
    ensures forall v, c :: Carries(best, v, c) <==> Connected(edges, source, v, c)
    ensures forall v <- best :: !Empty(best[v]) && Clean(best[v])
  {
    ghost var u := Universe(edges);
    UniverseCovers(edges);
    ghost var fact: Fact := (v, c) => Connected(edges, source, v, c);
    forall e, c | e in edges && fact(e.from, c) && Allows(e.allow, c) ensures fact(e.to, c) {
      ConnectedExtends(edges, source, e, c);
    }
    forall e, c | e in byFrom[source] && Allows(e.allow, c) ensures fact(e.to, c) {
      ConnectedByEdge(edges, e, c);
    }
    var queue;
    best, queue := Seed(byFrom[source], edges, u, fact);
    ghost var seed := best;
    while queue != []
      invariant Within(best, u) && Sound(best, fact) && Grows(seed, best)
      invariant forall e <- edges :: Settled(best, queue, e)
      decreases Potential(best, edges, u), |queue|
    {
      var via := queue[0];
      queue := queue[1..];
      assert forall e <- edges | e.from != via :: Settled(best, queue, e);
      if via in byFrom && via in best {
        best, queue := PassOn(best, queue, via, byFrom[via], edges, u, fact);
      }
    }
    assert Seeded(best, edges, source);
    forall v, c | Connected(edges, source, v, c) ensures Carries(best, v, c) {
      var path :| Walk(edges, path, source, v, c);
      WalkIsCarried(best, edges, path, source, v, c);
    }
  }

  // ---- The planned relation -------------------------------------------------

  predicate Before(a: Relay, b: Relay) {
    a.from < b.from || (a.from == b.from && a.to < b.to)
  }

  /** Ordered by source then destination, hence without a duplicate pair. */
  ghost predicate Ordered(s: seq<Relay>) {
    forall i, j | 0 <= i < j < |s| :: Before(s[i], s[j])
  }

  /** The classes as a rule lists them. The source also sorts them, which a filter ignores. */
  method Services(cs: ClassSet) returns (out: seq<string>)
    ensures cs.all ==> out == ["*"]
    ensures !cs.all ==> forall x :: x in out <==> x in cs.classes
  {
    if cs.all {
      return ["*"];
    }
    out := [];
    var rest := cs.classes;
    while rest != {}
      invariant rest <= cs.classes
      invariant forall x :: x in out <==> x in cs.classes && x !in rest
    {
      var k := Sets.Pick(rest);
      out := out + [k];
      rest := rest - {k};
    }
  }

  /** A pair's filter lets through exactly the classes its set allows. */
  method FilterFor(cs: ClassSet) returns (f: Filter)
    requires Clean(cs)
    ensures forall c :: FilterAllows(f, c) <==> Allows(cs, c)
  {
    var services := Services(cs);
    f := NewFilter(services);
    if !cs.all {
      forall s | s in services ensures s != "*" && Lower(s) == s {
        assert CleanName(s);
      }
    }
    assert cs.all ==> "*" in services;
  }

  method Insert(s: seq<Relay>, r: Relay) returns (t: seq<Relay>)
    requires Ordered(s)
    requires forall q <- s :: q.from != r.from || q.to != r.to
    ensures Ordered(t)
    ensures forall q :: q in t <==> q in s || q == r
  {
    var i := 0;
    while i < |s| && Before(s[i], r)
      invariant 0 <= i <= |s|
      invariant forall j | 0 <= j < i :: Before(s[j], r)
    {
      i := i + 1;
    }
    t := s[..i] + [r] + s[i..];
    assert i < |s| ==> Before(r, s[i]);
  }

  /** A relay of the plan is the source's own, to a node its walk reached. */
  ghost predicate FromBest(r: Relay, source: int, best: Best) {
    r.from == source && r.to != source && r.to in best && forall c :: FilterAllows(r.f, c) <==> Allows(best[r.to], c)
  }

  ghost predicate Planned(plan: seq<Relay>, source: int, d: int) {
    exists r <- plan :: r.from == source && r.to == d
  }

  /** The relays of one source added to the ordered plan. */
  method AddSource(out: seq<Relay>, source: int, best: Best) returns (plan: seq<Relay>)
    requires Ordered(out)
    requires forall r <- out :: r.from != source
    requires forall v <- best :: Clean(best[v])
    ensures Ordered(plan)
    ensures forall r <- out :: r in plan
    ensures forall r <- plan :: r in out || FromBest(r, source, best)
    ensures forall d <- best | d != source :: Planned(plan, source, d)
  {
    plan := out;
    var rest := best.Keys;
    while rest != {}
      invariant rest <= best.Keys && Ordered(plan)
      invariant forall r <- out :: r in plan
      invariant forall r <- plan :: r in out || (FromBest(r, source, best) && r.to !in rest)
      invariant forall d <- best | d != source && d !in rest :: Planned(plan, source, d)
    {
      var to := Sets.Pick(rest);
      rest := rest - {to};
      if to != source {
        var f := FilterFor(best[to]);
        ghost var before := plan;
        var r := Relay(source, to, f);
        plan := Insert(plan, r);
        assert r in plan;
        forall d | d in best && d != source && d !in rest && d != to ensures Planned(plan, source, d) {
          assert Planned(before, source, d);
        }
      }
    }
  }

  /** planRelays: a pair (s, d) of the plan lets class c through exactly when s and d
      differ and some walk of rules joins them with every rule on it allowing c. No
      pair is listed twice, none joins a domain to itself, and none is idle. */
  method PlanRelays(rules: seq<Rule>) returns (out: seq<Relay>)
    ensures forall s, d, c :: Relayed(out, s, d, c) <==> s != d && Connected(EdgesOf(rules), s, d, c)
    ensures Ordered(out)
    ensures forall r <- out :: r.from != r.to && exists c :: FilterAllows(r.f, c)
  {
    var edges := EdgesOf(rules);
    forall e | e in edges ensures Clean(e.allow) {
      var i :| 0 <= i < |rules| && e == edges[i];
      ClassesOfClean(rules[i].services);
    }
    var byFrom := GroupByFrom(edges);
    out := [];
    var rest := byFrom.Keys;
    while rest != {}
      invariant rest <= byFrom.Keys && Ordered(out)
      invariant forall r <- out ::
                  r.from in byFrom && r.from !in rest && r.from != r.to && exists c :: FilterAllows(r.f, c)
      invariant forall s, d, c :: Relayed(out, s, d, c) <==>
                  s in byFrom && s !in rest && s != d && Connected(edges, s, d, c)
    {
      var source := Sets.Pick(rest);
      rest := rest - {source};
      var best := Outward(byFrom, source, edges);
      ghost var before := out;
      out := AddSource(out, source, best);
      SourceAdded(before, out, source, best, edges);
    }
    forall s, d, c | Connected(edges, s, d, c) ensures s in byFrom {
      var path :| Walk(edges, path, s, d, c);
      assert path[0] in edges;
    }
  }

  lemma SourceAdded(out: seq<Relay>, plan: seq<Relay>, source: int, best: Best, edges: seq<Edge>)
    requires forall r <- out :: r.from != source
    requires forall r <- out :: r in plan
    requires forall r <- plan :: r in out || FromBest(r, source, best)
    requires forall d <- best | d != source :: Planned(plan, source, d)
    requires forall v, c :: Carries(best, v, c) <==> Connected(edges, source, v, c)
    requires forall v <- best :: !Empty(best[v])
    ensures forall s, d, c | s != source :: Relayed(plan, s, d, c) <==> Relayed(out, s, d, c)
    ensures forall d, c :: Relayed(plan, source, d, c) <==> d != source && Connected(edges, source, d, c)
    ensures forall r <- plan | r !in out :: exists c :: FilterAllows(r.f, c)
  {
    forall d, c | d != source && Carries(best, d, c) ensures Relayed(plan, source, d, c) {
      var r :| r in plan && r.from == source && r.to == d;
      assert FromBest(r, source, best);
    }
    forall d, c | Relayed(plan, source, d, c) ensures d != source && Carries(best, d, c) {
      var r :| r in plan && r.from == source && r.to == d && FilterAllows(r.f, c);
      assert FromBest(r, source, best);
    }
    forall r | r in plan && r !in out ensures exists c :: FilterAllows(r.f, c) {
      var c := NonEmptyAllowsSome(best[r.to]);
      assert FilterAllows(r.f, c);
    }
  }
}
