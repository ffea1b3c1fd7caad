/** The expiry sweep (internal/addressbook/allocate.go, Expire), and why nobody can tell
    whether it has run. */
module Sweep {
  import opened Bindings
  import opened Database

  predicate Lapsed(b: Binding, now: int) {
    Live(b) && b.end <= now
  }

  /** m' is m with some lapsed live bindings marked expired. */
  ghost predicate SweptFrom(m: Bucket, m': Bucket, now: int) {
    forall k :: SweptAt(m, m', k, now)
  }

  predicate SweptAt(m: Bucket, m': Bucket, k: string, now: int) {
    && (k in m <==> k in m')
    && (k in m ==> m'[k] == m[k] || (Lapsed(m[k], now) && m'[k] == m[k].(state := Expired)))
  }

  /** An event the sweep writes over ledger m. */
  ghost predicate SweepEvent(m: Bucket, e: Event, now: int) {
    && e.time >= now && e.binding.Some?
    && var k := KeyOf(e.binding.value); k in m && Lapsed(m[k], now) && e.binding.value == m[k].(state := Expired)
  }

  lemma EarliestExists(s: set<(int, string)>) returns (e: (int, string))
    requires s != {}
    ensures e in s && forall x <- s :: e.0 <= x.0
  {
    var a :| a in s;
    e := a;
    var rest := s - {a};
    if rest != {} {
      var m := EarliestExists(rest);
      if m.0 < a.0 { e := m; }
    }
    forall x | x in s ensures e.0 <= x.0 {
      assert x == a || x in rest;
    }
  }

  /** The due entries of the expiry index, oldest first, at most 1000 of them. */
  method Due(expiry: set<(int, string)>, now: int) returns (due: seq<(int, string)>)
    ensures |due| <= 1000
    ensures forall i, j | 0 <= i < j < |due| :: due[i] != due[j] && due[i].0 <= due[j].0
    ensures forall e <- due :: e in expiry && e.0 <= now
    ensures |due| < 1000 ==> forall e <- expiry | e.0 <= now :: e in due
    ensures forall e <- due, x <- expiry | x !in due :: e.0 <= x.0
  {
    due := [];
    var rest := expiry;
    while |due| < 1000 && rest != {}
      invariant |due| <= 1000 && rest <= expiry
      invariant forall x <- expiry :: x in rest <==> x !in due
      invariant forall e <- due :: e in expiry && e.0 <= now
      invariant forall i, j | 0 <= i < j < |due| :: due[i] != due[j] && due[i].0 <= due[j].0
      invariant forall e <- due, x <- rest :: e.0 <= x.0
      decreases rest
    {
      ghost var w := EarliestExists(rest);
      var k :| k in rest && forall x <- rest :: k.0 <= x.0;
      if k.0 > now {
        break;
      }
      due := due + [k];
      rest := rest - {k};
    }
  }

  /** The log from position n on is a sweep of ledger m. */
  ghost predicate SweepLog(m: Bucket, events: seq<Event>, n: nat, now: int) {
    n <= |events| && forall i | n <= i < |events| :: SweepEvent(m, events[i], now)
  }

  /** One due entry: a binding that moved on is left alone. */
  method ExpireOne(tx: Database, e: (int, string), now: int, ghost m: Bucket, ghost n: nat) returns (tx': Database)
    requires Consistent(tx) && SweptFrom(m, tx.leases, now) && e.1 in m && Lapsed(m[e.1], now) && m[e.1].end == e.0
    requires SweepLog(m, tx.events, n, now)
    ensures Consistent(tx') && (Valid(tx) ==> Valid(tx')) && tx'.associations == tx.associations
            && tx'.serverDuid == tx.serverDuid
    ensures SweptFrom(m, tx'.leases, now)
    ensures tx'.leases.Keys == tx.leases.Keys && e.1 in tx'.leases && tx'.leases[e.1].state == Expired
    ensures forall k <- tx.leases | k != e.1 :: tx'.leases[k] == tx.leases[k]
    ensures tx.events <= tx'.events && SweepLog(m, tx'.events, n, now)
  {
    tx' := tx;
    assert SweptAt(m, tx.leases, e.1, now) && KeyedAt(tx.leases, e.1);
    var b := tx.leases[e.1];
    if Live(b) && b.end == e.0 {
      tx' := Save(tx, b.(state := Expired), "expire", now);
      forall k ensures SweptAt(m, tx'.leases, k, now) {
        assert SweptAt(m, tx.leases, k, now);
      }
    }
  }

  method ExpireAll(tx: Database, due: seq<(int, string)>, now: int) returns (tx': Database)
    requires Consistent(tx)
    requires forall e <- due :: e.1 in tx.leases && Lapsed(tx.leases[e.1], now) && tx.leases[e.1].end == e.0
    ensures Consistent(tx') && (Valid(tx) ==> Valid(tx')) && tx'.associations == tx.associations
            && tx'.serverDuid == tx.serverDuid
    ensures SweptFrom(tx.leases, tx'.leases, now)
    ensures tx'.leases.Keys == tx.leases.Keys
    ensures forall e <- due :: tx'.leases[e.1].state == Expired
    ensures tx.events <= tx'.events && SweepLog(tx.leases, tx'.events, |tx.events|, now)
  {
    tx' := tx;
    for i := 0 to |due|
      invariant Consistent(tx') && (Valid(tx) ==> Valid(tx')) && tx'.associations == tx.associations
                && tx'.serverDuid == tx.serverDuid
      invariant SweptFrom(tx.leases, tx'.leases, now)
      invariant tx'.leases.Keys == tx.leases.Keys
      invariant forall j | 0 <= j < i :: tx'.leases[due[j].1].state == Expired
      invariant tx.events <= tx'.events && SweepLog(tx.leases, tx'.events, |tx.events|, now)
    {
      tx' := ExpireOne(tx', due[i], now, tx.leases, |tx.events|);
    }
  }

  /** Expire: marks what has lapsed, and nothing else. Only a full batch of 1000 can leave
      a lapsed live binding behind. */
  method Expire(tx: Database, now: int) returns (tx': Database, processed: nat)
    requires Consistent(tx) && 0 <= now
    ensures Consistent(tx') && (Valid(tx) ==> Valid(tx')) && tx'.associations == tx.associations
            && tx'.serverDuid == tx.serverDuid
    ensures SweptFrom(tx.leases, tx'.leases, now)
    ensures processed <= 1000
    ensures processed < 1000 ==> forall k <- tx'.leases :: !Lapsed(tx'.leases[k], now)
    ensures tx.events <= tx'.events && SweepLog(tx.leases, tx'.events, |tx.events|, now)
  {
    var due := Due(tx.expiry, now);
    DueAreLapsed(tx, due, now);
    tx' := ExpireAll(tx, due, now);
    processed := |due|;
    if processed < 1000 {
      forall k | k in tx'.leases ensures !Lapsed(tx'.leases[k], now) {
        assert SweptAt(tx.leases, tx'.leases, k, now);
      }
    }
  }

  lemma DueAreLapsed(tx: Database, due: seq<(int, string)>, now: int)
    requires Consistent(tx) && forall e <- due :: e in tx.expiry && e.0 <= now
    ensures forall e <- due :: e.1 in tx.leases && Lapsed(tx.leases[e.1], now) && tx.leases[e.1].end == e.0
    ensures (forall e <- tx.expiry | e.0 <= now :: e in due) ==>
              forall k <- tx.leases | Lapsed(tx.leases[k], now) :: exists e <- due :: e.1 == k
  {
    forall e | e in due ensures e.1 in tx.leases && Lapsed(tx.leases[e.1], now) && tx.leases[e.1].end == e.0 {
      DueIsLapsed(tx, e, now);
    }
    forall k | k in tx.leases && Lapsed(tx.leases[k], now) ensures (tx.leases[k].end, k) in tx.expiry {
    }
  }

  /** The expiry index has no stale entry: what it says is due has lapsed. */
  lemma DueIsLapsed(tx: Database, e: (int, string), now: int)
    requires Consistent(tx) && e in tx.expiry && e.0 <= now
    ensures e.1 in tx.leases && Lapsed(tx.leases[e.1], now) && tx.leases[e.1].end == e.0
  {
  }

  /** What an operation writes hides the sweep's mark at that key and keeps it elsewhere. */
  lemma WriteSwept(m: Bucket, m': Bucket, now: int, b: Binding)
    requires SweptFrom(m, m', now)
    ensures SweptFrom(m[KeyOf(b) := b], m'[KeyOf(b) := b], now)
  {
    var n, n' := m[KeyOf(b) := b], m'[KeyOf(b) := b];
    forall k ensures SweptAt(n, n', k, now) {
      assert SweptAt(m, m', k, now);
    }
  }

  /** Sweeping again, later, is sweeping once. */
  lemma SweptAgain(m: Bucket, m1: Bucket, m2: Bucket, now: int, later: int)
    requires SweptFrom(m, m1, now) && SweptFrom(m1, m2, later) && now <= later
    ensures SweptFrom(m, m2, later)
  {
    forall k ensures SweptAt(m, m2, k, later) {
      assert SweptAt(m, m1, k, now) && SweptAt(m1, m2, k, later);
    }
  }
}
