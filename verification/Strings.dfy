/** Byte strings as bucket keys: their order, prefixes, and keys joined by a separator. */
module Strings {

  datatype Option<+T> = None | Some(value: T)

  /** The bucket order: bytewise lexicographic. */
  predicate Less(a: string, b: string) {
    if b == "" then false
    else if a == "" then true
    else a[0] < b[0] || (a[0] == b[0] && Less(a[1..], b[1..]))
  }

  lemma {:induction false} LessTotal(a: string, b: string)
    ensures a == b || Less(a, b) || Less(b, a)
    ensures !(Less(a, b) && Less(b, a)) && !Less(a, a)
  {
    if a != "" && b != "" {
      LessTotal(a[1..], b[1..]);
      assert a == [a[0]] + a[1..] && b == [b[0]] + b[1..];
      LessTotal(a[1..], a[1..]);
    } else if a != "" {
      LessTotal(a[1..], a[1..]);
    }
  }

  lemma {:induction false} LessTransitive(a: string, b: string, c: string)
    requires Less(a, b) && Less(b, c)
    ensures Less(a, c)
  {
    if a != "" && a[0] == b[0] && b[0] == c[0] {
      LessTransitive(a[1..], b[1..], c[1..]);
    }
  }

  /** Ascending and without repetition, as a cursor visits keys. */
  ghost predicate Ascending(s: seq<string>) {
    forall i, j | 0 <= i < j < |s| :: Less(s[i], s[j])
  }

  ghost predicate IsLast(x: string, s: set<string>) {
    x in s && forall y <- s :: y == x || Less(y, x)
  }

  lemma LastUnique(x: string, y: string, s: set<string>)
    requires IsLast(x, s) && IsLast(y, s)
    ensures x == y
  {
    LessTotal(x, y);
  }

  /** The last key of a bucket: what survives a loop that keeps the last match. */
  lemma {:induction false} LastExists(s: set<string>) returns (x: string)
    requires s != {}
    ensures IsLast(x, s)
  {
    var a :| a in s;
    var rest := s - {a};
    if rest == {} {
      x := a;
      forall y | y in s ensures y == a {
        assert y !in rest;
      }
    } else {
      var m := LastExists(rest);
      LessTotal(a, m);
      x := if Less(a, m) then m else a;
      forall y | y in s ensures y == x || Less(y, x) {
        if y != a && y != m {
          assert y in rest && Less(y, m);
          if x == a { LessTransitive(y, m, a); }
        }
      }
    }
  }

  predicate HasPrefix(s: string, p: string) {
    |p| <= |s| && s[..|p|] == p
  }

  /** A field that cannot be confused with what a separator joins it to. */
  predicate Free(sep: char, s: string) {
    sep !in s
  }

  predicate Digit(c: char) {
    '0' <= c <= '9'
  }

  /** An address text: what a host address, and no prefix, prints as. */
  predicate PlainAddress(a: string) {
    a != "" && Free('/', a) && Free('\0', a)
  }

  predicate Label(s: string) {
    s != "" && Free('/', s) && Free('\0', s)
  }

  function Join(a: string, sep: char, b: string): string {
    a + [sep] + b
  }

  /** The first separator of a joined key is where its first part ends. */
  ghost predicate IsFirst(k: string, sep: char, i: nat) {
    i < |k| && k[i] == sep && forall j | 0 <= j < i :: k[j] != sep
  }

  lemma JoinFirst(a: string, sep: char, b: string, i: nat)
    requires Free(sep, a) && IsFirst(Join(a, sep, b), sep, i)
    ensures i == |a|
  {
    var k := Join(a, sep, b);
    assert k[|a|] == sep;
    assert forall j | 0 <= j < |a| :: k[j] == a[j];
  }

  /** A joined key gives back its parts. */
  lemma JoinInjective(a: string, a': string, sep: char, b: string, b': string)
    requires Free(sep, a) && Free(sep, a')
    requires Join(a, sep, b) == Join(a', sep, b')
    ensures a == a' && b == b'
  {
    var k := Join(a, sep, b);
    assert forall j | 0 <= j < |a| :: k[j] == a[j];
    JoinFirst(a', sep, b', |a|);
    assert k[..|a|] == a && k[|a| + 1..] == b;
    assert k[..|a'|] == a' && k[|a'| + 1..] == b';
  }

  /** A joined key starts with "a, separator" exactly when its first part is a. */
  lemma JoinHasPrefix(a: string, a': string, sep: char, b': string)
    requires Free(sep, a) && Free(sep, a')
    ensures HasPrefix(Join(a', sep, b'), a + [sep]) <==> a == a'
  {
    var k := Join(a', sep, b');
    assert k[..|a'|] == a' && k[..|a'| + 1] == a' + [sep];
    if HasPrefix(k, a + [sep]) {
      var p := k[..|a| + 1];
      assert forall j | 0 <= j < |a| :: k[j] == p[j] == a[j];
      assert k[|a|] == p[|a|] == sep;
      JoinFirst(a', sep, b', |a|);
      assert k[..|a|] == p[..|a|] == a;
    }
  }

  /** A prefix without the separator lies inside the first part. */
  lemma JoinShortPrefix(p: string, a: string, sep: char, b: string)
    requires Free(sep, p) && Free(sep, a)
    ensures HasPrefix(Join(a, sep, b), p) <==> HasPrefix(a, p)
  {
    var k := Join(a, sep, b);
    assert |p| <= |a| ==> k[..|p|] == a[..|p|];
    assert k[|a|] == sep;
    assert |a| < |p| <= |k| ==> k[..|p|][|a|] == sep;
  }

  // ---- Splitting -------------------------------------------------------------

  /** The separator-delimited fields of a key. */
  function Split(s: string, sep: char): (r: seq<string>)
    ensures |r| > 0
  {
    if s == "" then [""]
    else
      var rest := Split(s[1..], sep);
      if s[0] == sep then [""] + rest else [[s[0]] + rest[0]] + rest[1..]
  }

  lemma {:induction false} SplitJoin(a: string, sep: char, b: string)
    requires Free(sep, a)
    ensures Split(Join(a, sep, b), sep) == [a] + Split(b, sep)
  {
    var k := Join(a, sep, b);
    if a == "" {
      assert k[1..] == b;
    } else {
      assert k[1..] == Join(a[1..], sep, b);
      SplitJoin(a[1..], sep, b);
      assert a == [a[0]] + a[1..];
    }
  }

  lemma {:induction false} SplitFree(a: string, sep: char)
    requires Free(sep, a)
    ensures Split(a, sep) == [a]
  {
    if a != "" {
      SplitFree(a[1..], sep);
      assert a == [a[0]] + a[1..];
    }
  }

  /** Splitting at a separator, whatever is on either side of it. */
  lemma {:induction false} SplitAppend(a: string, sep: char, b: string)
    ensures Split(a + [sep] + b, sep) == Split(a, sep) + Split(b, sep)
  {
    var k := a + [sep] + b;
    if a == "" {
      assert k[1..] == b;
    } else {
      assert k[1..] == a[1..] + [sep] + b;
      SplitAppend(a[1..], sep, b);
    }
  }

  // ---- Case ------------------------------------------------------------------

  function LowerChar(c: char): char {
    if 'A' <= c <= 'Z' then c - 'A' + 'a' else c
  }

  function Lower(s: string): (r: string)
    ensures |r| == |s|
    ensures forall i | 0 <= i < |s| :: r[i] == LowerChar(s[i])
  {
    if s == "" then "" else [LowerChar(s[0])] + Lower(s[1..])
  }

  lemma LowerIdempotent(s: string)
    ensures Lower(Lower(s)) == Lower(s)
  {
  }

  /** Only the wildcard lower-cases to the wildcard. */
  lemma LowerWildcard(s: string)
    ensures Lower(s) == "*" ==> s == "*"
  {
  }

  // ---- Cursors ---------------------------------------------------------------

  lemma HasPrefixStep(s: string, p: string)
    requires p != ""
    ensures HasPrefix(s, p) <==> s != "" && s[0] == p[0] && HasPrefix(s[1..], p[1..])
  {
    if |p| <= |s| {
      assert s[..|p|] == [s[0]] + s[1..][..|p| - 1];
      assert p == [p[0]] + p[1..];
    }
  }

  /** Keys under a prefix come after it ... */
  lemma {:induction false} PrefixNotAfter(k: string, p: string)
    requires HasPrefix(k, p)
    ensures !Less(k, p)
  {
    if p != "" {
      HasPrefixStep(k, p);
      PrefixNotAfter(k[1..], p[1..]);
    }
  }

  /** ... and form one block: past the first key outside it none is inside. */
  lemma {:induction false} PrefixBlock(a: string, b: string, p: string)
    requires !Less(a, p) && !HasPrefix(a, p) && Less(a, b)
    ensures !HasPrefix(b, p)
  {
    HasPrefixStep(a, p);
    HasPrefixStep(b, p);
    if a[0] == p[0] && a[0] == b[0] {
      PrefixBlock(a[1..], b[1..], p[1..]);
    }
  }

  lemma {:induction false} LessAppend(p: string, a: string, b: string)
    ensures Less(p + a, p + b) <==> Less(a, b)
  {
    if p == "" {
      assert p + a == a && p + b == b;
    } else {
      assert (p + a)[1..] == p[1..] + a && (p + b)[1..] == p[1..] + b;
      LessAppend(p[1..], a, b);
    }
  }

  /** A bucket's keys in cursor order. */
  method Sorted(keys: set<string>) returns (out: seq<string>)
    ensures Ascending(out)
    ensures forall k :: k in out <==> k in keys
  {
    out := [];
    var rest := keys;
    while rest != {}
      invariant rest <= keys && Ascending(out)
      invariant forall k :: k in out <==> k in keys && k !in rest
      invariant forall i, y | 0 <= i < |out| && y in rest :: Less(y, out[i])
    {
      ghost var last := LastExists(rest);
      var m :| m in rest && forall y <- rest :: y == m || Less(y, m);
      out := [m] + out;
      rest := rest - {m};
    }
  }

  /** The cursor loop: seek to the prefix, then visit while keys carry it. */
  method Scan(keys: set<string>, prefix: string) returns (out: seq<string>)
    ensures Ascending(out)
    ensures forall k :: k in out <==> k in keys && HasPrefix(k, prefix)
  {
    var all := Sorted(keys);
    var i := 0;
    while i < |all| && Less(all[i], prefix)
      invariant 0 <= i <= |all|
      invariant forall j | 0 <= j < i :: Less(all[j], prefix)
    {
      i := i + 1;
    }
    var lo := i;
    while i < |all| && HasPrefix(all[i], prefix)
      invariant lo <= i <= |all|
      invariant forall j | lo <= j < i :: HasPrefix(all[j], prefix)
    {
      i := i + 1;
    }
    out := all[lo..i];
    forall j | 0 <= j < |all| && HasPrefix(all[j], prefix) ensures lo <= j < i {
      PrefixNotAfter(all[j], prefix);
      if i < j {
        LessNotBefore(all, lo, i, prefix);
        PrefixBlock(all[i], all[j], prefix);
      }
    }
  }

  /** From the sought position on, no key lies before the prefix. */
  lemma LessNotBefore(all: seq<string>, lo: nat, i: nat, prefix: string)
    requires Ascending(all) && lo <= i < |all| && !Less(all[lo], prefix)
    ensures !Less(all[i], prefix)
  {
    if lo < i && Less(all[i], prefix) {
      LessTransitive(all[lo], all[i], prefix);
    }
  }
}
