/** 128-bit addresses and the delegable prefixes of a pool (internal/addressbook/pd.go). */
module Prefixes {

  type Byte = n: int | 0 <= n < 256

  function Pow2(n: nat): (r: nat)
    ensures r > 0
  {
    if n == 0 then 1 else 2 * Pow2(n - 1)
  }

  lemma {:induction false} Pow2Add(a: nat, b: nat)
    ensures Pow2(a + b) == Pow2(a) * Pow2(b)
  {
    if a > 0 {
      Pow2Add(a - 1, b);
      assert 2 * Pow2(a - 1) * Pow2(b) == 2 * (Pow2(a - 1) * Pow2(b));
    }
  }

  /** The number a big-endian byte string denotes. */
  function Value(s: seq<Byte>): nat {
    if s == [] then 0 else Value(s[..|s| - 1]) * 256 + s[|s| - 1]
  }

  lemma {:induction false} ValueBound(s: seq<Byte>)
    ensures Value(s) < Pow2(8 * |s|)
  {
    if s != [] {
      ValueBound(s[..|s| - 1]);
      Pow2Add(8, 8 * (|s| - 1));
      assert Pow2(8) == 256;
    }
  }

  /** Replacing one byte moves the number by the difference at that byte's weight. */
  lemma {:induction false} ValueUpdate(s: seq<Byte>, k: nat, b: Byte)
    requires k < |s|
    ensures Value(s[k := b]) == Value(s) + (b - s[k]) * Pow2(8 * (|s| - 1 - k))
  {
    var t := s[k := b];
    var n := |s| - 1;
    if k == n {
      assert t[..n] == s[..n];
    } else {
      assert t[..n] == s[..n][k := b] && t[n] == s[n];
      ValueUpdate(s[..n], k, b);
      NextWeight(n - 1 - k);
      Scale(Value(s[..n]), b - s[k], Pow2(8 * (n - 1 - k)), s[n]);
    }
  }

  lemma NextWeight(n: nat)
    ensures Pow2(8 * (n + 1)) == 256 * Pow2(8 * n)
  {
    Pow2Add(8, 8 * n);
    assert Pow2(8) == 256;
  }

  lemma Scale(v: int, d: int, w: int, x: int)
    ensures (v + d * w) * 256 + x == v * 256 + x + d * (256 * w)
  {
    assert d * (256 * w) == 256 * (d * w);
  }

  /** The number the bytes and the carry pending at byte k stand for together. */
  ghost function Total(s: seq<Byte>, k: int, carry: nat): nat
    requires -1 <= k <= 15
    decreases 15 - k
  {
    if k == 15 then Value(s) + carry else Total(s, k + 1, 256 * carry)
  }

  lemma CarryWeight(c: nat, w: nat)
    ensures (256 * c) * w == c * (256 * w)
  {
  }

  lemma {:induction false} TotalClosed(s: seq<Byte>, k: int, carry: nat)
    requires -1 <= k <= 15
    ensures Total(s, k, carry) == Value(s) + carry * Pow2(8 * (15 - k))
    decreases 15 - k
  {
    if k < 15 {
      TotalClosed(s, k + 1, 256 * carry);
      NextWeight(14 - k);
      CarryWeight(carry, Pow2(8 * (14 - k)));
    }
  }

  lemma Distribute(a: int, b: int, w: int)
    ensures (a + b) * w == a * w + b * w
  {
  }

  /** Adding to byte k is adding to the carry pending there. */
  lemma ByteIsCarry(s: seq<Byte>, k: nat, b: Byte, carry: nat)
    requires k < |s| == 16 && carry + b - s[k] >= 0
    ensures Total(s[k := b], k, carry) == Total(s, k, carry + b - s[k])
  {
    TotalClosed(s[k := b], k, carry);
    TotalClosed(s, k, carry + b - s[k]);
    ValueUpdate(s, k, b);
    Distribute(carry, b - s[k], Pow2(8 * (15 - k)));
  }

  /** One round of the loop moves the carry on without changing the number. */
  lemma TotalKept(s: seq<Byte>, k: nat, carry: nat)
    requires |s| == 16 && k <= 15
    ensures var sum := s[k] + carry % 256;
            Total(s[k := sum % 256], k - 1, carry / 256 + sum / 256) == Total(s, k, carry)
  {
    var sum := s[k] + carry % 256;
    ByteIsCarry(s, k, sum % 256, 256 * (carry / 256 + sum / 256));
  }

  lemma MulAssociates(i: nat, a: nat, b: nat)
    ensures i * a * b == i * (a * b)
  {
  }

  function ShiftLeft(i: nat, n: nat): nat {
    i * Pow2(n)
  }

  lemma TotalAtStart(s: seq<Byte>, shift: nat, i: nat)
    requires shift <= 128
    ensures Total(s, 15 - shift / 8, ShiftLeft(i, shift % 8)) == Value(s) + ShiftLeft(i, shift)
  {
    TotalClosed(s, 15 - shift / 8, ShiftLeft(i, shift % 8));
    Pow2Add(shift % 8, 8 * (shift / 8));
    MulAssociates(i, Pow2(shift % 8), Pow2(8 * (shift / 8)));
  }

  lemma TotalAtEnd(s: seq<Byte>, k: int, carry: nat)
    requires |s| == 16 && -1 <= k <= 15
    requires k == -1 || carry == 0
    ensures Value(s) == Total(s, k, carry) % Pow2(8 * |s|)
  {
    TotalClosed(s, k, carry);
    ValueBound(s);
    RemainderOf(Value(s), if k == -1 then carry else 0, Pow2(8 * |s|));
  }

  lemma RemainderOf(r: nat, q: nat, m: nat)
    requires r < m
    ensures (r + q * m) % m == r
  {
    var t := r + q * m;
    var d := t / m - q;
    assert m * d == r - t % m by {
      assert m * (t / m) + t % m == t;
      assert m * d == m * (t / m) - m * q;
    }
    assert d >= 1 ==> m * d >= m;
    assert d <= -1 ==> m * d <= 0 - m;
  }

  lemma QuotientOf(r: nat, q: nat, m: nat)
    requires r < m
    ensures (r + q * m) / m == q
  {
    RemainderOf(r, q, m);
    var t := r + q * m;
    assert m * (t / m) + t % m == t;
    assert m * (t / m) == m * q;
  }

  /** The byte loop: adds a carry at byte k, on a copy of the address. */
  method AddCarry(addr: seq<Byte>, at: int, amount: nat) returns (out: seq<Byte>)
    requires |addr| == 16 && -1 <= at <= 15
    ensures |out| == 16 && Value(out) == Total(addr, at, amount) % Pow2(8 * |out|)
  {
    var raw := new Byte[16](j requires 0 <= j < 16 => addr[j]);
    assert raw[..] == addr;
    var k: int, carry: nat := at, amount;
    while k >= 0 && carry != 0
      invariant -1 <= k <= 15
      invariant Total(raw[..], k, carry) == Total(addr, at, amount)
      decreases k
    {
      ghost var before := raw[..];
      TotalKept(before, k, carry);
      var sum: nat := raw[k] + carry % 256;
      var low: Byte := sum % 256;
      raw[k] := low;
      assert raw[..] == before[k := low];
      carry := carry / 256 + sum / 256;
      k := k - 1;
    }
    out := raw[..];
    TotalAtEnd(out, k, carry);
  }

  /** prefixAt's address: the loop adds i times the size of a delegated prefix, modulo
      2^128. The 64-bit carry cannot overflow for i below 2^56. */
  method PrefixAt(addr: seq<Byte>, length: nat, i: nat) returns (out: seq<Byte>)
    requires |addr| == 16 && length <= 128 && i < 0x100_0000_0000_0000
    ensures |out| == 16
    ensures Value(out) == (Value(addr) + ShiftLeft(i, 128 - length)) % Pow2(8 * |out|)
  {
    var shift := 128 - length;
    TotalAtStart(addr, shift, i);
    out := AddCarry(addr, 15 - shift / 8, ShiftLeft(i, shift % 8));
  }

  // ---- The delegable prefixes of a pool -------------------------------------

  datatype Prefix = Prefix(addr: nat, bits: nat)

  /** How many addresses a prefix of this length spans. */
  function Size(bits: nat): nat
    requires bits <= 128
  {
    Pow2(128 - bits)
  }

  /** A prefix with no bit set below its length. */
  predicate Canonical(p: Prefix) {
    p.bits <= 128 && p.addr < Pow2(128) && p.addr % Size(p.bits) == 0
  }

  predicate Contains(pool: Prefix, a: nat)
    requires pool.bits <= 128
  {
    a / Size(pool.bits) == pool.addr / Size(pool.bits)
  }

  predicate InPool(pool: Prefix, length: nat, p: Prefix)
    requires pool.bits <= 128
  {
    p.bits == length && Canonical(p) && Contains(pool, p.addr)
  }

  /** What configuration validation guarantees of a delegation pool. */
  predicate ValidPool(pool: Prefix, length: nat) {
    Canonical(pool) && pool.bits < length <= 64 && length - pool.bits <= 16 && 32 <= length
  }

  function PoolSize(pool: Prefix, length: nat): nat
    requires pool.bits <= length
  {
    Pow2(length - pool.bits)
  }

  /** The i-th delegable prefix, by arithmetic. */
  function Delegable(pool: Prefix, length: nat, i: nat): Prefix
    requires length <= 128
  {
    Prefix(pool.addr + i * Size(length), length)
  }

  predicate Disjoint(p: Prefix, q: Prefix)
    requires p.bits <= 128 && q.bits <= 128
  {
    p.addr + Size(p.bits) <= q.addr || q.addr + Size(q.bits) <= p.addr
  }

  lemma MulLess(i: nat, n: nat, s: nat)
    requires i * s < n * s
    ensures i * s + s <= n * s
  {
    assert i >= n ==> i * s >= n * s;
    MulStep(i, n, s);
  }

  lemma MulStep(i: nat, n: nat, s: nat)
    requires i < n
    ensures i * s + s <= n * s
  {
    var d := n - i;
    assert n * s == i * s + d * s by { assert (i + d) * s == i * s + d * s; }
    assert d * s >= 1 * s;
  }

  lemma Regroup(q: nat, n: nat, s: nat, i: int)
    ensures q * (n * s) + i * s == (q * n + i) * s
  {
    assert q * (n * s) == (q * n) * s;
  }

  lemma DivisionOf(a: nat, m: nat)
    requires m > 0
    ensures a == a / m * m + a % m
  {
  }

  /** A pool is PoolSize times the delegated size, and ends within the address space. */
  lemma PoolSpan(pool: Prefix, length: nat)
    requires ValidPool(pool, length)
    ensures PoolSize(pool, length) * Size(length) == Size(pool.bits)
    ensures pool.addr == pool.addr / Size(pool.bits) * Size(pool.bits)
    ensures pool.addr + Size(pool.bits) <= Pow2(128)
  {
    Pow2Add(length - pool.bits, 128 - length);
    Pow2Add(pool.bits, 128 - pool.bits);
    DivisionOf(pool.addr, Size(pool.bits));
    MulLess(pool.addr / Size(pool.bits), Pow2(pool.bits), Size(pool.bits));
  }

  /** Every index names a delegable prefix of the pool ... */
  lemma DelegableInPool(pool: Prefix, length: nat, i: nat)
    requires ValidPool(pool, length) && i < PoolSize(pool, length)
    ensures InPool(pool, length, Delegable(pool, length, i))
  {
    PoolSpan(pool, length);
    BlockIndex(pool.addr, Size(pool.bits), PoolSize(pool, length), Size(length), i);
  }

  lemma BlockIndex(addr: nat, p: nat, n: nat, s: nat, i: nat)
    requires s > 0 && i < n && p == n * s && p > 0
    requires addr == addr / p * p
    ensures (addr + i * s) / p == addr / p && (addr + i * s) % s == 0
    ensures addr + i * s + s <= addr + p
  {
    IndexInSpan(addr / p, n, s, i);
  }

  /** Inside the q-th block of n units of s, the i-th unit starts on a unit boundary. */
  lemma IndexInSpan(q: nat, n: nat, s: nat, i: nat)
    requires s > 0 && i < n
    ensures n * s > 0
    ensures (q * (n * s) + i * s) / (n * s) == q
    ensures (q * (n * s) + i * s) % s == 0
    ensures i * s + s <= n * s
  {
    MulStep(i, n, s);
    QuotientOf(i * s, q, n * s);
    Regroup(q, n, s, i);
    RemainderOf(0, q * n + i, s);
  }

  /** ... and every delegable prefix has an index. */
  lemma PoolCovered(pool: Prefix, length: nat, d: Prefix) returns (i: nat)
    requires ValidPool(pool, length) && InPool(pool, length, d)
    ensures i < PoolSize(pool, length) && d == Delegable(pool, length, i)
  {
    PoolSpan(pool, length);
    i := UnitInSpan(pool.addr / Size(pool.bits), PoolSize(pool, length), Size(length), d.addr);
  }

  lemma UnitInSpan(q: nat, n: nat, s: nat, a: nat) returns (i: nat)
    requires s > 0 && n > 0 && n * s > 0
    requires a % s == 0 && a / (n * s) == q
    ensures i < n && a == q * (n * s) + i * s
  {
    var r, rest := a / s, a % (n * s);
    DivisionOf(a, s);
    DivisionOf(a, n * s);
    var k := r - q * n;
    Regroup(q, n, s, k);
    assert k * s == rest;
    assert k < 0 ==> k * s <= -1 * s;
    assert k >= n ==> k * s >= n * s;
    i := k;
  }

  /** Different indexes name disjoint ranges. */
  lemma DelegableDisjoint(pool: Prefix, length: nat, i: nat, j: nat)
    requires length <= 128 && i != j
    ensures Disjoint(Delegable(pool, length, i), Delegable(pool, length, j))
  {
    if i < j { MulStep(i, j, Size(length)); } else { MulStep(j, i, Size(length)); }
  }

  /** Two delegable prefixes of one pool are the same or disjoint. */
  lemma InPoolDisjoint(pool: Prefix, length: nat, p: Prefix, q: Prefix)
    requires ValidPool(pool, length) && InPool(pool, length, p) && InPool(pool, length, q)
    ensures p == q || Disjoint(p, q)
  {
    var i := PoolCovered(pool, length, p);
    var j := PoolCovered(pool, length, q);
    if i != j { DelegableDisjoint(pool, length, i, j); }
  }

  /** The carry loop, on a validated pool, yields exactly the i-th delegable prefix. */
  method PoolPrefixAt(raw: seq<Byte>, pool: Prefix, length: nat, i: nat) returns (out: seq<Byte>)
    requires |raw| == 16 && pool.addr == Value(raw)
    requires ValidPool(pool, length) && i < PoolSize(pool, length)
    ensures |out| == 16 && Prefix(Value(out), length) == Delegable(pool, length, i)
    ensures InPool(pool, length, Prefix(Value(out), length))
  {
    PoolSizeBound(pool, length);
    out := PrefixAt(raw, length, i);
    DelegableInPool(pool, length, i);
    RemainderOf(pool.addr + i * Size(length), 0, Pow2(8 * |out|));
  }

  lemma PoolSizeBound(pool: Prefix, length: nat)
    requires ValidPool(pool, length)
    ensures PoolSize(pool, length) <= 65536
  {
    Pow2Mono(length - pool.bits, 16);
    Pow2Add(8, 8);
    assert Pow2(8) == 256;
  }

  lemma {:induction false} Pow2Mono(a: nat, b: nat)
    requires a <= b
    ensures Pow2(a) <= Pow2(b)
  {
    Pow2Add(a, b - a);
    assert Pow2(a) * Pow2(b - a) >= Pow2(a) * 1;
  }
}
