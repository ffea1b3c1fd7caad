/** The warm standby (internal/addressbook/replicate.go, the event pages of store.go, and
    the paging loop of internal/replica/replica.go). */
module Replication {
  import opened Strings
  import opened Bindings
  import opened Configs
  import opened Database
  import opened Allocation
  import opened Delegation
  import opened Sweep
  import opened History
  import opened Invisibility
  import opened LeaseText
  import Ledger

  /** An event as it travels: event i of the leader's log has identifier i + 1. */
  datatype Numbered = Numbered(id: nat, event: Event)

  /** The leader's events with identifiers above `after`, at most `limit` of them. */
  function Page(log: seq<Event>, after: nat, limit: nat): seq<Numbered> {
    var n := if after >= |log| then 0 else if |log| - after < limit then |log| - after else limit;
    seq(n, i requires 0 <= i < n => Numbered(after + i + 1, log[after + i]))
  }

  /** Events: one page of the log, by the cursor loop. */
  method Events(log: seq<Event>, after: nat, limit: int) returns (r: Option<seq<Numbered>>)
    ensures r.Some? <==> 1 <= limit <= 1000
    ensures r.Some? ==> r.value == Page(log, after, limit)
  {
    if limit < 1 || limit > 1000 {
      return None;
    }
    var out: seq<Numbered> := [];
    var i := if after > |log| then |log| else if after > 0 then after - 1 else 0; // the first key not below `after`
    while i < |log| && |out| < limit
      invariant i <= |log| && |out| <= limit
      invariant |out| == if i <= after then 0 else i - after
      invariant forall j | 0 <= j < |out| :: out[j] == Numbered(after + j + 1, log[after + j])
    {
      if i + 1 > after {
        out := out + [Numbered(i + 1, log[i])];
      }
      i := i + 1;
    }
    assert out == Page(log, after, limit);
    r := Some(out);
  }

  /** A batch that is a run of the leader's log starting after event `from`. */
  ghost predicate RunOf(log: seq<Event>, from: nat, batch: seq<Numbered>) {
    from + |batch| <= |log| && forall i | 0 <= i < |batch| :: batch[i] == Numbered(from + i + 1, log[from + i])
  }

  function Max(a: nat, b: nat): nat {
    if a < b then b else a
  }

  /** The state of the leader that events do not carry. */
  datatype State = State(serverDuid: string, associations: map<string, Association>)

  ghost predicate Sound(state: State) {
    forall c <- state.associations :: Label(state.associations[c].name)
  }

  /** A server identity that decodes; an empty one is not copied. */
  predicate Decodes(duid: string) {
    LowerHex(Lower(Strip(duid))) && |Strip(duid)| % 2 == 0
  }

  /** The events from one position to another are stamped no later than an instant. */
  ghost predicate StampedBy(log: seq<Event>, from: nat, to: nat, now: int) {
    forall i | from <= i < to && i < |log| :: log[i].time <= now
  }

  /** A log that only grew, by events stamped no earlier than an instant. */
  ghost predicate GrownSince(events: seq<Event>, events': seq<Event>, at: int) {
    events <= events' && forall i | |events| <= i < |events'| :: events'[i].time >= at
  }

  /** What is lawful over a ledger is lawful over it swept. */
  lemma LawfulSwept(m: Bucket, m': Bucket, b: Binding, now: int)
    requires Lawful(m, b, now) && SweptFrom(m, m', now)
    ensures Lawful(m', b, now)
  {
    assert SweptAt(m, m', KeyOf(b), now);
    forall k | k in m' && HeldDelegation(m'[k], b.scope, b.client, now) ensures k in m && m[k] == m'[k] {
      assert SweptAt(m, m', k, now);
    }
  }

  /** ApplyReplicated: applies a batch in order, skipping what the cursor has passed, and
      copies the state events do not carry. For any batch that overlaps or continues what
      was applied before, the mirror is the fold of the leader's log up to the new cursor,
      apart from the mirror's own sweeps. It is a ledger in order as long as its clock is
      not behind the stamps it applies. */
  method ApplyReplicated(tx: Database, cursor: nat, batch: seq<Numbered>, state: State, now: int, ghost log: seq<Event>,
                         ghost from: nat)
    returns (tx': Database, cursor': nat, ok: bool)
    requires Consistent(tx) && Formed(log) && cursor <= |log| && Sound(state)
    requires SweptFrom(Replay(log[..cursor]), tx.leases, now)
    requires RunOf(log, from, batch) && from <= cursor
    ensures ok <==> state.serverDuid == "" || Decodes(state.serverDuid)
    ensures !ok ==> tx' == tx && cursor' == cursor
    ensures Consistent(tx') && cursor' <= |log| && SweptFrom(Replay(log[..cursor']), tx'.leases, now)
    ensures ok ==> && cursor' == Max(cursor, from + |batch|) && tx'.associations == state.associations
                   && tx'.serverDuid == if state.serverDuid != "" then Lower(Strip(state.serverDuid)) else tx.serverDuid
    ensures Valid(tx) && Exclusive(log) && StampedBy(log, cursor, cursor', now) ==> Valid(tx')
    ensures GrownSince(tx.events, tx'.events, now)
  {
    if state.serverDuid != "" && !Decodes(state.serverDuid) {
      return tx, cursor, false;
    }
    tx', cursor' := ApplyEvents(tx, cursor, batch, now, log, from);
    tx' := tx'.(associations := state.associations,
                serverDuid := if state.serverDuid != "" then Lower(Strip(state.serverDuid)) else tx'.serverDuid);
    ok := true;
  }

  method ApplyEvents(tx: Database, cursor: nat, batch: seq<Numbered>, now: int, ghost log: seq<Event>, ghost from: nat)
    returns (tx': Database, cursor': nat)
    requires Consistent(tx) && Formed(log) && cursor <= |log|
    requires SweptFrom(Replay(log[..cursor]), tx.leases, now)
    requires RunOf(log, from, batch) && from <= cursor
    ensures Consistent(tx') && tx'.serverDuid == tx.serverDuid
    ensures cursor' == Max(cursor, from + |batch|) && cursor' <= |log|
    ensures SweptFrom(Replay(log[..cursor']), tx'.leases, now)
    ensures Valid(tx) && Exclusive(log) && StampedBy(log, cursor, cursor', now) ==> Valid(tx')
    ensures GrownSince(tx.events, tx'.events, now)
  {
    tx', cursor' := tx, cursor;
    for i := 0 to |batch|
      invariant Consistent(tx') && tx'.serverDuid == tx.serverDuid
      invariant cursor' == Max(cursor, from + i) && cursor' <= |log|
      invariant SweptFrom(Replay(log[..cursor']), tx'.leases, now)
      invariant Valid(tx) && Exclusive(log) && StampedBy(log, cursor, cursor', now) ==> Valid(tx')
      invariant GrownSince(tx.events, tx'.events, now)
    {
      var ev := batch[i];
      if ev.id > cursor' {
        tx' := Mirror(tx', ev.event, now, log, cursor');
        cursor' := ev.id;
      }
    }
  }

  /** One event written to the mirror. */
  method Mirror(tx: Database, e: Event, now: int, ghost log: seq<Event>, ghost n: nat) returns (tx': Database)
    requires Consistent(tx) && Formed(log) && n < |log| && e == log[n]
    requires SweptFrom(Replay(log[..n]), tx.leases, now)
    ensures Consistent(tx') && tx'.serverDuid == tx.serverDuid
    ensures SweptFrom(Replay(log[..n + 1]), tx'.leases, now)
    ensures Valid(tx) && Exclusive(log) && e.time <= now ==> Valid(tx')
    ensures GrownSince(tx.events, tx'.events, now)
  {
    assert FormedAt(log, n);
    assert log[..n + 1] == log[..n] + [e];
    ReplaySnoc(log[..n], e);
    tx' := tx;
    if e.binding.Some? {
      if Exclusive(log) && e.time <= now {
        assert LawfulAt(log, n);
        LawfulLater(Replay(log[..n]), e.binding.value, e.time, now);
        LawfulSwept(Replay(log[..n]), tx.leases, e.binding.value, now);
      }
      tx' := Save(tx, e.binding.value, e.kind, now);
      WriteSwept(Replay(log[..n]), tx.leases, now, e.binding.value);
    }
  }

  /** The leader's log as successive requests see it: it only grows. */
  ghost predicate Growing(calls: seq<seq<Event>>, leader: seq<Event>) {
    && (forall i, j | 0 <= i < j < |calls| :: calls[i] <= calls[j])
    && (forall log <- calls :: log <= leader)
  }

  lemma PageContinues(log: seq<Event>, leader: seq<Event>, from: nat, batch: seq<Numbered>)
    requires log <= leader && RunOf(leader, from, batch) && from + |batch| <= |log|
    ensures RunOf(leader, from, batch + Page(log, from + |batch|, 1000))
  {
    var after := from + |batch|;
    var page := Page(log, after, 1000);
    assert forall j | 0 <= j < |page| ::
             page[j] == Numbered(after + j + 1, log[after + j]) && log[after + j] == leader[after + j];
  }

  /** The paging loop: a full page asks for the next one. `calls` is the leader's log as
      each request sees it; when they run out the sync has timed out. What was fetched
      continues the cursor without a gap, up to the end of the log one request saw. */
  method FetchAll(calls: seq<seq<Event>>, cursor: nat, ghost leader: seq<Event>) returns (ok: bool,
                  batch: seq<Numbered>)
    requires Growing(calls, leader) && forall log <- calls :: cursor <= |log|
    requires cursor <= |leader|
    ensures RunOf(leader, cursor, batch)
    ensures ok ==> exists log <- calls :: cursor + |batch| == |log|
  {
    batch := [];
    var after := cursor;
    for i := 0 to |calls|
      invariant after == cursor + |batch| && RunOf(leader, cursor, batch)
      invariant forall j | i <= j < |calls| :: after <= |calls[j]|
    {
      assert calls[i] in calls;
      var r := Events(calls[i], after, 1000);
      var page := r.value;
      PageContinues(calls[i], leader, cursor, batch);
      batch := batch + page;
      after := after + |page|;
      if |page| < 1000 {
        return true, batch;
      }
    }
    return false, batch;
  }

  class Follower {
    var db: Database
    var cursor: nat
    var clock: int
    /** Whether the standby's clock was never behind a stamp it applied. */
    ghost var abreast: bool

    /** The mirror is the fold of the leader's events up to the cursor, with some lapsed
        bindings already marked by the standby's own sweeps. */
    ghost predicate Mirrors(log: seq<Event>)
      reads this
    {
      && Consistent(db) && cursor <= |log| && 0 <= clock && SweptFrom(Replay(log[..cursor]), db.leases, clock)
      && (abreast && Exclusive(log) ==> Valid(db) && LastTime(db.events) <= clock)
    }

    constructor ()
      ensures forall log :: Mirrors(log)
      ensures cursor == 0 && abreast
    {
      db := NewDatabase;
      cursor := 0;
      clock := 0;
      abreast := true;
      new;
      NewValid();
      forall log: seq<Event> ensures Mirrors(log) {
        assert log[..0] == [];
        var m: Bucket := map[];
        forall k ensures SweptAt(m, m, k, 0) {
        }
      }
    }

    /** SyncOnce: fetches everything, then applies it in one transaction. A sync that fails
        anywhere changes nothing; one that succeeds has caught up with the leader. */
    method SyncOnce(calls: seq<seq<Event>>, state: State, ghost leader: seq<Event>) returns (ok: bool, ghost at: int)
      requires Mirrors(leader) && Formed(leader) && Sound(state)
      requires Growing(calls, leader) && forall log <- calls :: cursor <= |log|
      modifies this
      ensures Mirrors(leader) && old(clock) <= clock && cursor >= old(cursor)
      ensures GrownSince(old(db.events), db.events, old(clock))
      ensures !ok ==> db == old(db) && cursor == old(cursor) && abreast == old(abreast)
      ensures ok ==> && (exists log <- calls :: cursor == |log|) && db.associations == state.associations
                     && old(clock) <= at <= clock
                     && abreast == (old(abreast) && StampedBy(leader, old(cursor), cursor, at))
    {
      at := clock;
      var fetched, batch := FetchAll(calls, cursor, leader);
      if !fetched {
        return false, at;
      }
      if * {
        return false, at; // the snapshot or the state could not be read
      }
      Elapse(leader);
      at := clock;
      var tx, after;
      tx, after, ok := ApplyReplicated(db, cursor, batch, state, clock, leader, cursor);
      if ok {
        abreast := abreast && StampedBy(leader, cursor, after, clock);
        db, cursor := tx, after;
        Settle(leader);
      }
    }

    /** The standby's own clock. */
    method Elapse(ghost leader: seq<Event>)
      requires Mirrors(leader)
      modifies `clock
      ensures Mirrors(leader) && old(clock) <= clock
    {
      var later :| later >= clock;
      SweptLater(Replay(leader[..cursor]), db.leases, clock, later);
      clock := later;
    }

    /** The clock reads past what was just written. */
    method Settle(ghost leader: seq<Event>)
      requires Consistent(db) && cursor <= |leader| && 0 <= clock
               && SweptFrom(Replay(leader[..cursor]), db.leases, clock)
      requires abreast && Exclusive(leader) ==> Valid(db)
      modifies `clock
      ensures Mirrors(leader) && old(clock) <= clock
    {
      var later :| later >= clock && later >= LastTime(db.events);
      SweptLater(Replay(leader[..cursor]), db.leases, clock, later);
      clock := later;
    }

    /** The standby's own expiry sweep. */
    method Sweep(ghost leader: seq<Event>)
      requires Mirrors(leader)
      modifies `db, `clock
      ensures Mirrors(leader) && old(clock) <= clock && GrownSince(old(db.events), db.events, old(clock))
    {
      Elapse(leader);
      var swept, n := Expire(db, clock);
      SweptAgain(Replay(leader[..cursor]), db.leases, swept.leases, clock, clock);
      db := swept;
      Settle(leader);
    }

    /** Any interleaving of syncs, failed or not, and sweeps, while the leader goes on. */
    method Run(syncs: seq<(seq<seq<Event>>, State)>, ghost leader: seq<Event>)
      requires Mirrors(leader) && Formed(leader)
      requires forall x <- syncs :: Growing(x.0, leader) && Sound(x.1)
      modifies this
      ensures Mirrors(leader) && old(clock) <= clock && GrownSince(old(db.events), db.events, old(clock))
    {
      for i := 0 to |syncs|
        invariant Mirrors(leader) && old(clock) <= clock && GrownSince(old(db.events), db.events, old(clock))
      {
        if * {
          Sweep(leader);
        }
        var calls, state := syncs[i].0, syncs[i].1;
        assert syncs[i] in syncs;
        if forall log <- calls :: cursor <= |log| {
          ghost var at;
          var ok;
          ok, at := SyncOnce(calls, state, leader);
        }
      }
    }

    /** A past instant, shown by the standby at any later time as by the leader's log: when,
        by its clock at that instant, the standby had applied exactly the leader's events
        stamped until then. */
    method RunPast(syncs: seq<(seq<seq<Event>>, State)>, ghost leader: seq<Event>, t: int)
      requires Mirrors(leader) && Exclusive(leader) && Formed(leader) && abreast && clock <= t
      requires forall i | 0 <= i < |leader| :: leader[i].time <= t <==> i < cursor
      requires forall x <- syncs :: Growing(x.0, leader) && Sound(x.1)
      modifies this
      ensures Mirrors(leader)
      ensures forall scope, ip :: PastAlike(db.events, leader, scope, ip, t)
    {
      ghost var db0, cursor0, clock0 := db, cursor, clock;
      var later :| later > clock && later > t;
      SweptLater(Replay(leader[..cursor]), db.leases, clock, later);
      clock := later;
      Run(syncs, leader);
      forall scope, ip ensures PastAlike(db.events, leader, scope, ip, t) {
        PastShown(db0, cursor0, clock0, leader, db.events, scope, ip, t);
      }
    }

    /** Promotion: the standby's ledger becomes the authority's, and is one in order. */
    method Promote(ghost leader: seq<Event>) returns (s: Ledger.Store)
      requires Mirrors(leader) && Exclusive(leader) && abreast
      ensures s.Ok() && s.db == db && s.clock == clock
    {
      s := new Ledger.Store.Opened(db, clock);
    }
  }

  lemma SweptLater(m: Bucket, m': Bucket, now: int, later: int)
    requires SweptFrom(m, m', now) && now <= later
    ensures SweptFrom(m, m', later)
  {
    forall k ensures SweptAt(m, m', k, later) {
      assert SweptAt(m, m', k, now);
    }
  }

  lemma KeyedBeforeSweep(m: Bucket, m': Bucket, now: int)
    requires SweptFrom(m, m', now) && Keyed(m')
    ensures Keyed(m)
  {
    forall k ensures KeyedAt(m, k) {
      assert SweptAt(m, m', k, now) && KeyedAt(m', k);
    }
  }

  /** Two logs show the same of a past instant. */
  ghost predicate PastAlike(events: seq<Event>, leader: seq<Event>, scope: string, ip: string, t: int) {
    Shown(Replay(Upto(events, t)), scope, ip, t) == Shown(Replay(Upto(leader, t)), scope, ip, t)
  }

  lemma PastShown(db: Database, cursor: nat, clock: int, leader: seq<Event>, events: seq<Event>, scope: string,
                  ip: string, t: int)
    requires Valid(db) && LastTime(db.events) <= clock <= t && cursor <= |leader|
    requires SweptFrom(Replay(leader[..cursor]), db.leases, clock)
    requires GrownSince(db.events, events, t + 1)
    requires forall i | 0 <= i < |leader| :: leader[i].time <= t <==> i < cursor
    ensures PastAlike(events, leader, scope, ip, t)
  {
    TimesBefore(db.events, t);
    UptoPast(events, |db.events|, t);
    assert events[..|db.events|] == db.events;
    UptoPast(leader, cursor, t);
    ShownSwept(Replay(leader[..cursor]), db.leases, clock, scope, ip, t);
  }

  /** A log of one event and the mirror's: they show the same of an instant exactly when it
      is before both stamps or after both. */
  lemma PastExactly(b: Binding, kind: string, stamped: int, applied: int, t: int)
    requires WellFormed(b)
    ensures var leader, mirror := [Event(stamped, kind, Some(b))], [Event(applied, kind, Some(b))];
            PastAlike(mirror, leader, b.scope, b.address, t) <==> (stamped <= t <==> applied <= t)
  {
    ShownOfOne(b, kind, stamped, t);
    ShownOfOne(b, kind, applied, t);
  }

  lemma ShownOfOne(b: Binding, kind: string, at: int, t: int)
    ensures Shown(Replay(Upto([Event(at, kind, Some(b))], t)), b.scope, b.address, t) ==
              if at <= t then {View(b, t)} else {}
  {
    var e := Event(at, kind, Some(b));
    assert [e][..0] == [];
    assert Upto([e], t) == if at <= t then [e] else [];
    assert Replay([e]) == map[KeyOf(b) := b] by {
      ReplaySnoc([], e);
      assert [] + [e] == [e];
    }
    var m := Replay(Upto([e], t));
    if at <= t {
      assert m[KeyOf(b)] == b;
    }
  }

  predicate Has(m: Bucket, b: Binding) {
    KeyOf(b) in m && m[KeyOf(b)] == b
  }

  /** Promoted at any later instant, a standby shows now what the leader's log says, and
      grants, delegates, releases and resolves as the leader would have. */
  lemma PromotedAnswersAlike(f: Follower, leader: seq<Event>, now: int, c: Config, a: map<string, Association>,
                             s: Scope, q: Request, ask: Ask, scope: string, client: string, ip: string, decline: bool)
    requires f.Mirrors(leader) && f.clock <= now
    ensures var m, fold := f.db.leases, Replay(leader[..f.cursor]);
            && Shown(m, scope, ip, now) == Shown(fold, scope, ip, now)
            && Outcomes(c, m, a, s, q, now) == Outcomes(c, fold, a, s, q, now)
            && PrefixOutcomes(c, m, s, ask, now) == PrefixOutcomes(c, fold, s, ask, now)
            && (Releasable(Read(m, scope, ip), client, now) <==> Releasable(Read(fold, scope, ip), client, now))
            && (Releasable(Read(fold, scope, ip), client, now) ==>
                  Ended(Read(m, scope, ip), decline, now) == Ended(Read(fold, scope, ip), decline, now))
            && forall b: Binding | b.state == Active && b.end > now :: Has(m, b) <==> Has(fold, b)
  {
    var m, fold := f.db.leases, Replay(leader[..f.cursor]);
    ShownSwept(fold, m, f.clock, scope, ip, now);
    SweptLater(fold, m, f.clock, now);
    KeyedBeforeSweep(fold, m, now);
    AllocateSwept(c, fold, m, a, s, q, now);
    AllocatePrefixSwept(c, fold, m, s, ask, now);
    ReleaseSwept(fold, m, now, scope, client, ip, decline);
    forall b: Binding | b.state == Active && b.end > now ensures Has(m, b) <==> Has(fold, b) {
      assert SweptAt(fold, m, KeyOf(b), now);
    }
  }
}
