/** Bindings, the event log, and what it means for a log to keep ownership exclusive
    (internal/addressbook/store.go). */
module Bindings {
  import opened Strings

  datatype State = Absent | Offered | Active | Declined | Released | Expired

  datatype Origin = NoOrigin | Dhcp4 | Dhcp6 | Delegated | Imported | NeighborReport

  /** What a binding records beside ownership: attribution, and what the protocols need. */
  datatype Info = Info(
    start: int, preferredEnd: int, duid: string, iaid: string,
    device: string, nodeId: string, evidence: string, claimedName: string, via: string)

  datatype Binding = Binding(
    scope: string, address: string, client: string, mac: string, name: string,
    state: State, origin: Origin, end: int, info: Info)

  const NoInfo := Info(0, 0, "", "", "", "", "", "", "")

  /** What reading a missing key yields. */
  const NoBinding := Binding("", "", "", "", "", Absent, NoOrigin, 0, NoInfo)

  predicate Live(b: Binding) {
    b.state == Active || b.state == Offered || b.state == Declined
  }

  /** Live and not past its end. */
  predicate Held(b: Binding, now: int) {
    Live(b) && b.end > now
  }

  /** A lapsed live binding reads as expired. */
  function View(b: Binding, at: int): Binding {
    if Live(b) && b.end <= at then b.(state := Expired) else b
  }

  /** The fields of a stored binding: free of the separators the keys are joined with. A
      delegated prefix, and nothing else, has a slash in its address, and a sighting has a
      client of its own kind. */
  predicate WellFormed(b: Binding) {
    && b.scope != "" && b.name != "" && b.state != Absent && 0 <= b.end
    && Free('/', b.scope) && Free('/', b.name)
    && Free('\0', b.scope) && Free('\0', b.address) && Free('\0', b.client) && Free('\0', b.mac) && Free('\0', b.name)
    && (b.origin == Delegated <==> '/' in b.address)
    && (b.origin == NeighborReport ==> HasPrefix(b.client, "neighbor:"))
  }

  function Key(scope: string, address: string): string {
    Join(scope, '/', address)
  }

  function KeyOf(b: Binding): string {
    Key(b.scope, b.address)
  }

  type Bucket = map<string, Binding>

  predicate KeyedAt(m: Bucket, k: string) {
    k in m ==> k == KeyOf(m[k]) && WellFormed(m[k])
  }

  ghost predicate Keyed(m: Bucket) {
    forall k :: KeyedAt(m, k)
  }

  function Read(m: Bucket, scope: string, address: string): Binding {
    var k := Key(scope, address);
    if k in m then m[k] else NoBinding
  }

  lemma ReadKeyed(m: Bucket, scope: string, address: string)
    requires Keyed(m)
    ensures var b := Read(m, scope, address); b == NoBinding || (WellFormed(b) && KeyOf(b) == Key(scope, address))
  {
    assert KeyedAt(m, Key(scope, address));
  }

  lemma KeyInjective(scope: string, address: string, scope': string, address': string)
    requires Free('/', scope) && Free('/', scope')
    requires Key(scope, address) == Key(scope', address')
    ensures scope == scope' && address == address'
  {
    JoinInjective(scope, scope', '/', address, address');
  }

  /** No two of the bindings are at the same address. */
  ghost predicate OneEach(bs: seq<Binding>) {
    forall i, j | 0 <= i < j < |bs| :: KeyOf(bs[i]) != KeyOf(bs[j])
  }

  // ---- The event log --------------------------------------------------------

  /** An event; only lease events carry a binding (audits, sightings and configuration
      notes do not). Event i of the log has identifier i + 1. */
  datatype Event = Event(time: int, kind: string, binding: Option<Binding>)

  function Applied(m: Bucket, e: Event): Bucket {
    if e.binding.Some? then m[KeyOf(e.binding.value) := e.binding.value] else m
  }

  function Replay(events: seq<Event>): Bucket {
    if events == [] then map[] else Applied(Replay(events[..|events| - 1]), events[|events| - 1])
  }

  lemma ReplaySnoc(events: seq<Event>, e: Event)
    ensures Replay(events + [e]) == Applied(Replay(events), e)
  {
    assert (events + [e])[..|events|] == events;
  }

  predicate InOrder(events: seq<Event>, i: int, j: int) {
    0 <= i < j < |events| ==> events[i].time <= events[j].time
  }

  ghost predicate Timely(events: seq<Event>) {
    forall i, j :: InOrder(events, i, j)
  }

  function LastTime(events: seq<Event>): int {
    if events == [] then 0 else events[|events| - 1].time
  }

  // ---- Ownership ------------------------------------------------------------

  /** A held delegation of a client in a scope. */
  predicate HeldDelegation(b: Binding, scope: string, client: string, now: int) {
    b.origin == Delegated && Held(b, now) && b.scope == scope && b.client == client
  }

  /** Writing b over the ledger at an instant takes nothing from anybody: a held address
      stays with its client, a quarantine is not touched before it ends, and a client
      gets no second delegation in a scope, though one it holds may be rewritten. A
      delegation is never quarantined. */
  ghost predicate Lawful(m: Bucket, b: Binding, now: int) {
    var prior := Read(m, b.scope, b.address);
    && (Held(prior, now) ==> prior.client == b.client && prior.state != Declined)
    && (b.origin == Delegated ==> b.state != Declined)
    && (HeldDelegation(b, b.scope, b.client, now) ==>
          || (HeldDelegation(prior, b.scope, b.client, now) && b.end <= prior.end)
          || forall k <- m | HeldDelegation(m[k], b.scope, b.client, now) :: k == KeyOf(b))
  }

  lemma LawfulLater(m: Bucket, b: Binding, now: int, at: int)
    requires Lawful(m, b, now) && now <= at
    ensures Lawful(m, b, at)
  {
    forall k | k in m && HeldDelegation(m[k], b.scope, b.client, at)
      ensures HeldDelegation(m[k], b.scope, b.client, now)
    {
    }
  }

  ghost predicate LawfulAt(events: seq<Event>, j: int) {
    0 <= j < |events| && events[j].binding.Some? ==>
      && WellFormed(events[j].binding.value)
      && Lawful(Replay(events[..j]), events[j].binding.value, events[j].time)
  }

  /** Every write of a log was lawful when it was written. */
  ghost predicate Exclusive(events: seq<Event>) {
    forall j :: LawfulAt(events, j)
  }

  lemma ExclusiveSnoc(events: seq<Event>, e: Event)
    requires Exclusive(events)
    requires e.binding.Some? ==> WellFormed(e.binding.value) && Lawful(Replay(events), e.binding.value, e.time)
    ensures Exclusive(events + [e])
  {
    var all := events + [e];
    assert all[..|events|] == events;
    forall j ensures LawfulAt(all, j) {
      if 0 <= j < |events| {
        assert all[..j] == events[..j];
        assert LawfulAt(events, j);
      }
    }
  }

  lemma InitLawful(events: seq<Event>, n: nat)
    requires Exclusive(events) && Timely(events) && n <= |events|
    ensures Exclusive(events[..n]) && Timely(events[..n])
    ensures n < |events| ==> LastTime(events[..n]) <= events[n].time || n == 0
  {
    var init := events[..n];
    forall j ensures LawfulAt(init, j) {
      if 0 <= j < n {
        assert init[..j] == events[..j];
        assert LawfulAt(events, j);
      }
    }
    forall i, j ensures InOrder(init, i, j) {
      assert InOrder(events, i, j);
    }
    assert InOrder(events, n - 1, n);
  }

  lemma TimelySnoc(events: seq<Event>, e: Event)
    requires Timely(events) && (events == [] || LastTime(events) <= e.time)
    ensures Timely(events + [e])
  {
    var all, n := events + [e], |events|;
    forall i, j ensures InOrder(all, i, j) {
      assert InOrder(events, i, j) && InOrder(events, i, n - 1);
    }
  }

  ghost predicate OnKey(events: seq<Event>, i: int, k: string)
    requires 0 <= i < |events|
  {
    events[i].binding.Some? && KeyOf(events[i].binding.value) == k
  }

  /** j is the next event on the key of event i. */
  ghost predicate Next(events: seq<Event>, i: nat, j: nat, k: string) {
    i < j < |events| && OnKey(events, i, k) && OnKey(events, j, k) && forall n | i < n < j :: !OnKey(events, n, k)
  }

  lemma {:induction false} ReplayLast(events: seq<Event>, i: nat, k: string)
    requires i < |events| && OnKey(events, i, k)
    requires forall n | i < n < |events| :: !OnKey(events, n, k)
    ensures k in Replay(events) && Replay(events)[k] == events[i].binding.value
    decreases |events|
  {
    var n := |events| - 1;
    if i < n {
      assert !OnKey(events, n, k);
      forall j | i < j < n ensures !OnKey(events[..n], j, k) {
        assert !OnKey(events, j, k);
      }
      ReplayLast(events[..n], i, k);
    }
  }

  /** The log's ownership intervals never overlap: while the interval an event opens is
      running, the next event on that address is the same client's; and nothing follows
      a decline before its quarantine has ended. */
  lemma IntervalsNeverOverlap(events: seq<Event>, i: nat, j: nat, k: string)
    requires Exclusive(events) && Next(events, i, j, k)
    requires Held(events[i].binding.value, events[j].time)
    ensures events[j].binding.value.client == events[i].binding.value.client
    ensures events[i].binding.value.state != Declined
  {
    forall n | i < n < j ensures !OnKey(events[..j], n, k) {
      assert !OnKey(events, n, k);
    }
    assert OnKey(events[..j], i, k);
    ReplayLast(events[..j], i, k);
    assert LawfulAt(events, j);
  }

  /** In the ledger of a lawful log a client holds at most one delegation of a scope, and
      no delegation is quarantined. */
  lemma {:induction false} DelegationsUnique(events: seq<Event>, now: int)
    requires Exclusive(events) && Timely(events) && (events != [] ==> LastTime(events) <= now)
    ensures forall k <- Replay(events) | Replay(events)[k].origin == Delegated :: Replay(events)[k].state != Declined
    ensures forall j, k | j in Replay(events) && k in Replay(events) ::
              forall scope, client |
                && HeldDelegation(Replay(events)[j], scope, client, now)
                && HeldDelegation(Replay(events)[k], scope, client, now) :: j == k
    decreases |events|
  {
    if events != [] {
      var n := |events| - 1;
      var init, e := events[..n], events[n];
      InitLawful(events, n);
      DelegationsUnique(init, now);
      if e.binding.Some? {
        DelegationsUnique(init, e.time);
        assert LawfulAt(events, n);
        WriteKeepsUnique(Replay(init), e.binding.value, e.time, now);
      }
    }
  }

  /** One lawful write keeps delegations unique. */
  lemma WriteKeepsUnique(m: Bucket, b: Binding, at: int, now: int)
    requires Lawful(m, b, at) && at <= now
    requires forall j, k | j in m && k in m ::
               forall scope, client |
                 && HeldDelegation(m[j], scope, client, at)
                 && HeldDelegation(m[k], scope, client, at) :: j == k
    ensures HeldDelegation(b, b.scope, b.client, now) ==>
              forall j | j in m && HeldDelegation(m[j], b.scope, b.client, now) :: j == KeyOf(b)
  {
    forall j | HeldDelegation(b, b.scope, b.client, now) && j in m && HeldDelegation(m[j], b.scope, b.client, now)
      ensures j == KeyOf(b)
    {
      assert HeldDelegation(m[j], b.scope, b.client, at) && HeldDelegation(b, b.scope, b.client, at);
    }
  }

  // ---- Where delegations come from ----------------------------------------------

  /** A live delegation was there before, at least as long. */
  predicate OldDelegationAt(m: Bucket, m': Bucket, k: string) {
    k in m' && m'[k].origin == Delegated && Live(m'[k]) ==>
      && k in m && m[k].origin == Delegated && Live(m[k])
      && m[k].scope == m'[k].scope && m[k].address == m'[k].address && m'[k].end <= m[k].end
  }

  ghost predicate NoNewDelegations(m: Bucket, m': Bucket) {
    forall k :: OldDelegationAt(m, m', k)
  }

  lemma NoNewDelegationsOn(a: Bucket, b: Bucket, c: Bucket)
    requires NoNewDelegations(a, b) && NoNewDelegations(b, c)
    ensures NoNewDelegations(a, c)
  {
    forall k ensures OldDelegationAt(a, c, k) {
      assert OldDelegationAt(a, b, k) && OldDelegationAt(b, c, k);
    }
  }

  lemma WriteNoDelegation(m: Bucket, b: Binding)
    requires b.origin != Delegated || !Live(b)
    ensures NoNewDelegations(m, m[KeyOf(b) := b])
  {
    var m' := m[KeyOf(b) := b];
    forall k ensures OldDelegationAt(m, m', k) {
    }
  }
}
