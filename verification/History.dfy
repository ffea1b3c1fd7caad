/** Point-in-time snapshots, answered from the bindings now and from the event log for a
    past instant (internal/addressbook/store.go, Snapshot). */
module History {
  import opened Bindings
  import opened Database
  import opened Sweep
  import Sets

  /** The events stamped at or before an instant. */
  function Upto(events: seq<Event>, at: int): seq<Event> {
    if events == [] then []
    else
      var init, last := Upto(events[..|events| - 1], at), events[|events| - 1];
      if last.time <= at then init + [last] else init
  }

  predicate Matches(b: Binding, scope: string, ip: string) {
    (scope == "" || b.scope == scope) && (ip == "" || b.address == ip)
  }

  /** What a snapshot of a ledger at an instant shows. */
  ghost function Shown(m: Bucket, scope: string, ip: string, at: int): set<Binding> {
    set k | k in m && Matches(m[k], scope, ip) :: View(m[k], at)
  }

  /** The ledger a snapshot at an instant is taken of. */
  ghost function LedgerAt(db: Database, at: int, now: int): Bucket {
    if at == now then db.leases else Replay(Upto(db.events, at))
  }

  datatype SnapshotResult = Bindings(bindings: set<Binding>) | Negative | Future

  /** The matching bindings of a ledger, keyed. */
  ghost predicate Collected(states: Bucket, m: Bucket, scope: string, ip: string) {
    forall k :: CollectedAt(states, m, scope, ip, k)
  }

  predicate CollectedAt(states: Bucket, m: Bucket, scope: string, ip: string, k: string) {
    && (k in states <==> k in m && Matches(m[k], scope, ip))
    && (k in states ==> states[k] == m[k])
  }

  method CollectBindings(m: Bucket, scope: string, ip: string) returns (states: Bucket)
    ensures Collected(states, m, scope, ip)
  {
    states := map k | k in m && Matches(m[k], scope, ip) :: m[k];
    forall k ensures CollectedAt(states, m, scope, ip, k) {
    }
  }

  /** All bindings of a log are well-formed. */
  ghost predicate Formed(events: seq<Event>) {
    forall i :: FormedAt(events, i)
  }

  predicate FormedAt(events: seq<Event>, i: int) {
    0 <= i < |events| && events[i].binding.Some? ==> WellFormed(events[i].binding.value)
  }

  lemma ExclusiveFormed(events: seq<Event>)
    requires Exclusive(events)
    ensures Formed(events)
  {
    forall i ensures FormedAt(events, i) {
      assert LawfulAt(events, i);
    }
  }

  lemma AppliedKeyed(m: Bucket, e: Event)
    requires Keyed(m) && (e.binding.Some? ==> WellFormed(e.binding.value))
    ensures Keyed(Applied(m, e))
  {
    var m' := Applied(m, e);
    forall k ensures KeyedAt(m', k) {
      assert KeyedAt(m, k);
    }
  }

  /** Addresses of one key are matched alike. */
  lemma SameMatch(m: Bucket, b: Binding, scope: string, ip: string)
    requires Keyed(m) && WellFormed(b) && KeyOf(b) in m
    ensures Matches(m[KeyOf(b)], scope, ip) <==> Matches(b, scope, ip)
  {
    assert KeyedAt(m, KeyOf(b));
    var c := m[KeyOf(b)];
    KeyInjective(c.scope, c.address, b.scope, b.address);
  }

  lemma CollectOne(states: Bucket, m: Bucket, scope: string, ip: string, b: Binding)
    requires Keyed(m) && WellFormed(b) && Collected(states, m, scope, ip)
    ensures Collected(if Matches(b, scope, ip) then states[KeyOf(b) := b] else states, m[KeyOf(b) := b], scope, ip)
  {
    var k0, states', m' := KeyOf(b), if Matches(b, scope, ip) then states[KeyOf(b) := b] else states, m[KeyOf(b) := b];
    if k0 in m { SameMatch(m, b, scope, ip); }
    forall k ensures CollectedAt(states', m', scope, ip, k) {
      assert CollectedAt(states, m, scope, ip, k);
    }
  }

  lemma UptoSnoc(events: seq<Event>, i: nat, at: int)
    requires i < |events|
    ensures Upto(events[..i + 1], at) ==
              if events[i].time <= at then Upto(events[..i], at) + [events[i]] else Upto(events[..i], at)
  {
    assert events[..i + 1][..i] == events[..i];
  }

  /** The fold over the log, collecting as it goes: a later event on an address replaces
      an earlier one. */
  method CollectEvents(events: seq<Event>, scope: string, ip: string, at: int) returns (states: Bucket)
    requires Formed(events)
    ensures Collected(states, Replay(Upto(events, at)), scope, ip)
  {
    states := map[];
    ghost var m: Bucket := map[];
    assert Collected(states, m, scope, ip) by {
      forall k ensures CollectedAt(states, m, scope, ip, k) {
      }
    }
    assert Keyed(m) by {
      forall k ensures KeyedAt(m, k) {
      }
    }
    for i := 0 to |events|
      invariant m == Replay(Upto(events[..i], at)) && Keyed(m)
      invariant Collected(states, m, scope, ip)
    {
      var e := events[i];
      UptoSnoc(events, i, at);
      ReplaySnoc(Upto(events[..i], at), e);
      assert FormedAt(events, i);
      if e.time <= at {
        AppliedKeyed(m, e);
        if e.binding.Some? {
          var b := e.binding.value;
          CollectOne(states, m, scope, ip, b);
          if Matches(b, scope, ip) {
            states := states[KeyOf(b) := b];
          }
        }
        m := Applied(m, e);
      }
    }
    assert events[..|events|] == events;
  }

  /** Snapshot: zero asks for now; the future and negative instants are refused. */
  method Snapshot(db: Database, scope: string, ip: string, when: int, now: int) returns (r: SnapshotResult)
    requires Valid(db) && 0 <= now
    ensures var at := if when == 0 then now else when;
            r == if at < 0 then Negative
                 else if at > now then Future
                 else Bindings(Shown(LedgerAt(db, at, now), scope, ip, at))
  {
    var at := if when == 0 then now else when;
    if at < 0 {
      return Negative;
    }
    if at > now {
      return Future;
    }
    var states;
    if at == now {
      states := CollectBindings(db.leases, scope, ip);
    } else {
      ExclusiveFormed(db.events);
      states := CollectEvents(db.events, scope, ip, at);
    }
    ghost var m := LedgerAt(db, at, now);
    var out: set<Binding> := {};
    var rest := states.Keys;
    while rest != {}
      invariant rest <= states.Keys
      invariant out == set k | k in states && k !in rest :: View(states[k], at)
    {
      var k := Sets.Pick(rest);
      rest := rest - {k};
      out := out + {View(states[k], at)};
    }
    ShownCollected(states, m, scope, ip, at);
    r := Bindings(out);
  }

  lemma ShownCollected(states: Bucket, m: Bucket, scope: string, ip: string, at: int)
    requires Collected(states, m, scope, ip)
    ensures (set k | k in states :: View(states[k], at)) == Shown(m, scope, ip, at)
  {
    var left := set k | k in states :: View(states[k], at);
    forall b | b in left ensures b in Shown(m, scope, ip, at) {
      var k :| k in states && b == View(states[k], at);
      assert CollectedAt(states, m, scope, ip, k);
    }
    forall b | b in Shown(m, scope, ip, at) ensures b in left {
      var k :| k in m && Matches(m[k], scope, ip) && b == View(m[k], at);
      assert CollectedAt(states, m, scope, ip, k);
    }
  }

  // ---- The past does not change ----------------------------------------------------

  /** A log followed only by later events is what the log up to an instant was. */
  lemma {:induction false} UptoPast(events: seq<Event>, n: nat, at: int)
    requires n <= |events|
    requires forall i | 0 <= i < n :: events[i].time <= at
    requires forall i | n <= i < |events| :: events[i].time > at
    ensures Upto(events, at) == events[..n]
    decreases |events|
  {
    if events != [] {
      var m := |events| - 1;
      if n == |events| {
        UptoPast(events[..m], m, at);
        assert events[..n] == events[..m] + [events[m]];
      } else {
        UptoPast(events[..m], n, at);
        assert events[..m][..n] == events[..n];
      }
    }
  }

  lemma TimesBefore(events: seq<Event>, at: int)
    requires Timely(events) && (events == [] || LastTime(events) <= at)
    ensures forall i | 0 <= i < |events| :: events[i].time <= at
  {
    forall i | 0 <= i < |events| ensures events[i].time <= at {
      assert InOrder(events, i, |events| - 1);
    }
  }

  /** A snapshot of a past instant, whenever it is taken, shows what a current snapshot
      showed at that instant, once that second's last event was written. */
  lemma PastIsStable(db: Database, later: Database, t: int, now: int, scope: string, ip: string)
    requires Valid(db) && Valid(later) && t < now
    requires db.events <= later.events
    requires db.events == [] || LastTime(db.events) <= t
    requires forall i | |db.events| <= i < |later.events| :: later.events[i].time > t
    ensures LedgerAt(later, t, now) == LedgerAt(db, t, t) == db.leases
    ensures Shown(LedgerAt(later, t, now), scope, ip, t) == Shown(LedgerAt(db, t, t), scope, ip, t)
  {
    TimesBefore(db.events, t);
    assert forall i | 0 <= i < |db.events| :: later.events[i] == db.events[i];
    UptoPast(later.events, |db.events|, t);
    assert later.events[..|db.events|] == db.events;
  }

  // ---- The sweep does not show -------------------------------------------------------

  lemma ShownSwept(m: Bucket, m': Bucket, now: int, scope: string, ip: string, at: int)
    requires SweptFrom(m, m', now) && now <= at
    ensures Shown(m', scope, ip, at) == Shown(m, scope, ip, at)
  {
    forall b | b in Shown(m, scope, ip, at) ensures b in Shown(m', scope, ip, at) {
      var k :| k in m && Matches(m[k], scope, ip) && b == View(m[k], at);
      assert SweptAt(m, m', k, now);
    }
    forall b | b in Shown(m', scope, ip, at) ensures b in Shown(m, scope, ip, at) {
      var k :| k in m' && Matches(m'[k], scope, ip) && b == View(m'[k], at);
      assert SweptAt(m, m', k, now);
    }
  }

  /** Replaying any part of a sweep's log marks lapsed bindings and nothing else. */
  lemma {:induction false} ReplaySweep(events: seq<Event>, n: nat, now: int, at: int)
    requires n <= |events| && SweepLog(Replay(events[..n]), events, n, now)
    requires forall i | 0 <= i < n :: events[i].time <= at
    ensures SweptFrom(Replay(events[..n]), Replay(Upto(events, at)), now)
    decreases |events|
  {
    var m := Replay(events[..n]);
    if n == |events| {
      assert events[..n] == events;
      UptoPast(events, n, at);
      forall k ensures SweptAt(m, m, k, now) {
      }
    } else {
      var last := |events| - 1;
      var init, e := events[..last], events[last];
      assert init[..n] == events[..n];
      assert forall i | n <= i < |init| :: SweepEvent(m, init[i], now) by {
        forall i | n <= i < |init| ensures SweepEvent(m, init[i], now) {
          assert SweepEvent(m, events[i], now);
        }
      }
      ReplaySweep(init, n, now, at);
      assert SweepEvent(m, e, now);
      if e.time <= at {
        ReplaySnoc(Upto(init, at), e);
        var m1 := Replay(Upto(init, at));
        var m2 := Applied(m1, e);
        forall k ensures SweptAt(m, m2, k, now) {
          assert SweptAt(m, m1, k, now);
        }
      }
    }
  }

  /** A sweep changes the bindings of no snapshot: not of the instant it ran at, of no
      past instant, and of no later one. */
  lemma SweepNeverShows(db: Database, swept: Database, now: int, scope: string, ip: string, at: int)
    requires Valid(db) && Valid(swept) && (db.events == [] || LastTime(db.events) <= now)
    requires db.events <= swept.events && SweepLog(db.leases, swept.events, |db.events|, now)
    requires SweptFrom(db.leases, swept.leases, now)
    ensures Shown(LedgerAt(swept, now, now), scope, ip, now) == Shown(LedgerAt(db, now, now), scope, ip, now)
    ensures Shown(Replay(Upto(swept.events, at)), scope, ip, at) == Shown(Replay(Upto(db.events, at)), scope, ip, at)
  {
    var n := |db.events|;
    ShownSwept(db.leases, swept.leases, now, scope, ip, now);
    assert swept.events[..n] == db.events;
    if at < now {
      UptoDropsLater(swept.events, n, at);
    } else {
      TimesBefore(db.events, at);
      UptoPast(db.events, n, at);
      assert db.events[..n] == db.events;
      ReplaySweep(swept.events, n, now, at);
      ShownSwept(db.leases, Replay(Upto(swept.events, at)), now, scope, ip, at);
    }
  }

  lemma {:induction false} UptoDropsLater(events: seq<Event>, n: nat, at: int)
    requires n <= |events| && forall i | n <= i < |events| :: events[i].time > at
    ensures Upto(events, at) == Upto(events[..n], at)
    decreases |events|
  {
    if n < |events| {
      var m := |events| - 1;
      UptoDropsLater(events[..m], n, at);
      assert events[..m][..n] == events[..n];
    } else {
      assert events[..n] == events;
    }
  }
}
