/** DNS owner names in presentation form, and when the NAT's two ways of keying an instance
    agree (internal/mdns/advertise.go, norm; nat.go, unescapeKeepCase and natInstance.key). */
module Names {
  import opened Strings

  /** The value of a \DDD escape at the front, when there is one. */
  predicate DecimalEscape(s: string) {
    |s| > 3 && s[0] == '\\' && Digit(s[1]) && Digit(s[2]) && Digit(s[3]) && DecimalValue(s) < 256
  }

  function DecimalValue(s: string): int
    requires |s| > 3
  {
    (s[1] as int - '0' as int) * 100 + (s[2] as int - '0' as int) * 10 + (s[3] as int - '0' as int)
  }

  /** The first character a name stands for, and how much of the name it takes. */
  function Head(s: string): char
    requires s != ""
  {
    if DecimalEscape(s) then DecimalValue(s) as char else if s[0] == '\\' && |s| > 1 then s[1] else s[0]
  }

  function Width(s: string): (n: nat)
    requires s != ""
    ensures 1 <= n <= |s|
  {
    if DecimalEscape(s) then 4 else if s[0] == '\\' && |s| > 1 then 2 else 1
  }

  /** A name with its escapes undone; a backslash at the very end stands for itself. */
  function Unescape(s: string): string {
    if s == "" then "" else [Head(s)] + Unescape(s[Width(s)..])
  }

  /** The escape a name ends in is still open. */
  predicate Open(s: string) {
    s != "" && (s == "\\" || Open(s[Width(s)..]))
  }

  /** norm: unescaped, in lower case. */
  function Norm(name: string): string {
    Lower(Unescape(name))
  }

  predicate EndsIn(s: string, suffix: string) {
    |suffix| <= |s| && s[|s| - |suffix|..] == suffix
  }

  function TrimSuffix(s: string, suffix: string): (r: string)
    ensures s == if EndsIn(s, suffix) then r + suffix else r
  {
    if EndsIn(s, suffix) then s[..|s| - |suffix|] else s
  }

  /** The part of an owner name before its class, as written; the trims are exact. */
  function RawInstance(name: string, service: string): string {
    TrimSuffix(TrimSuffix(TrimSuffix(name, "."), ".local"), "." + service)
  }

  /** unescapeKeepCase: the instance's display name. */
  function DisplayName(name: string, service: string): string {
    Unescape(RawInstance(name, service))
  }

  function Tail(service: string): string {
    "." + service + ".local."
  }

  /** The key an instance is deleted under, made from its display name. */
  function InstanceKey(instance: string, service: string): string {
    Norm(instance + Tail(service))
  }

  /** Deleting an instance learned under a name looks where it was filed. */
  predicate RoundTrips(name: string, service: string) {
    InstanceKey(DisplayName(name, service), service) == Norm(name)
  }

  // ---- Unescaping a concatenation --------------------------------------------------------

  /** Text that no escape reaches into: it starts with a dot and has no backslash. */
  predicate Plain(t: string) {
    t != "" && t[0] == '.' && '\\' !in t
  }

  /** What a name contributes when more text follows: an open escape takes the next
      character, which stands for itself. */
  function Closed(s: string): string {
    if Open(s) && Unescape(s) != "" then Unescape(s)[..|Unescape(s)| - 1] else Unescape(s)
  }

  lemma {:induction false} UnescapePlain(t: string)
    requires '\\' !in t
    ensures Unescape(t) == t && !Open(t)
  {
    if t != "" { UnescapePlain(t[1..]); }
  }

  lemma {:induction false} OpenEnds(s: string)
    requires Open(s)
    ensures Unescape(s) != "" && Unescape(s)[|Unescape(s)| - 1] == '\\'
  {
    if s != "\\" { OpenEnds(s[Width(s)..]); }
  }

  /** Text starting with a dot completes no escape but an open one. */
  lemma HeadAppend(s: string, t: string)
    requires Plain(t) && s != "" && s != "\\"
    ensures Head(s + t) == Head(s) && Width(s + t) == Width(s)
  {
    if |s| <= 3 { assert (s + t)[|s|] == '.'; }
  }

  lemma EscapedDot(s: string, t: string)
    requires Plain(t) && |s| == 1 && s[0] == '\\'
    ensures Unescape(s + t) == t && !Open(s + t) && Closed(s) == ""
  {
    var all := s + t;
    assert Head(all) == '.' && Width(all) == 2 && all[2..] == t[1..];
    UnescapePlain(t[1..]);
    assert Unescape(s[1..]) == "";
  }

  lemma {:induction false} UnescapeAppend(s: string, t: string)
    requires Plain(t)
    ensures Unescape(s + t) == Closed(s) + t && !Open(s + t)
  {
    if s == "" {
      assert s + t == t;
      UnescapePlain(t);
    } else if |s| == 1 && s[0] == '\\' {
      EscapedDot(s, t);
    } else {
      var n := Width(s);
      HeadAppend(s, t);
      assert (s + t)[n..] == s[n..] + t;
      UnescapeAppend(s[n..], t);
      ClosedStep(s);
    }
  }

  lemma ClosedStep(s: string)
    requires s != "" && s != "\\"
    ensures Closed(s) == [Head(s)] + Closed(s[Width(s)..])
  {
    if Open(s) { OpenEnds(s[Width(s)..]); }
  }

  // ---- Lengths -----------------------------------------------------------------------------

  lemma {:induction false} LowerAppend(a: string, b: string)
    ensures Lower(a + b) == Lower(a) + Lower(b)
  {
    if a == "" { assert a + b == b; } else { assert (a + b)[1..] == a[1..] + b; LowerAppend(a[1..], b); }
  }

  lemma {:induction false} UnescapeShrinks(s: string)
    ensures |Unescape(s)| <= |s|
    ensures '\\' in s && !Open(s) ==> |Unescape(s)| < |s|
  {
    if s != "" { UnescapeShrinks(s[Width(s)..]); }
  }

  lemma ClosedLength(s: string)
    ensures '\\' !in s ==> Closed(s) == s && !Open(s)
    ensures '\\' in s ==> |Closed(s)| < |s|
  {
    UnescapeShrinks(s);
    if '\\' !in s { UnescapePlain(s); }
    if Open(s) { OpenEnds(s); }
  }

  lemma SplitsAlike(a: string, b: string, c: string, d: string)
    requires a + b == c + d && |a| == |c|
    ensures a == c && b == d
  {
    assert a == (a + b)[..|a|] && b == (a + b)[|a|..];
    assert c == (c + d)[..|c|] && d == (c + d)[|c|..];
  }

  /** A text whose lower case ends plainly does so itself, and nothing reaches into it. */
  lemma EndingOf(x: string, y: string, e: string, u: string, t: string)
    requires x == y + e && |y| == |u| && Lower(x) == u + t && Plain(t)
    ensures Lower(y) == u && Lower(e) == t
    ensures Unescape(x) == Closed(y) + e && !Open(x)
    ensures Lower(Unescape(x)) == Lower(Closed(y)) + t
  {
    LowerAppend(y, e);
    SplitsAlike(Lower(y), Lower(e), u, t);
    assert Plain(e);
    UnescapeAppend(y, e);
    LowerAppend(Closed(y), e);
  }

  /** Undoing the escapes of a text never leaves it short by exactly a plain ending. */
  lemma {:induction false} NeverLonger(x: string, t: string)
    requires Plain(t)
    ensures Lower(x) != Lower(Closed(x)) + t
    decreases |x|
  {
    var u := Lower(Closed(x));
    if Lower(x) == u + t {
      var y, e := x[..|u|], x[|u|..];
      EndingOf(x, y, e, u, t);
      NeverLonger(y, t);
    }
  }

  // ---- An escape left open ------------------------------------------------------------------

  lemma HeadBackslash(x: string, z: string)
    requires x != "" && x != "\\" && z == x + ['\\']
    ensures Head(z) == Head(x) && Width(z) == Width(x) && z[Width(x)..] == x[Width(x)..] + ['\\'] && |z| > 1
  {
    assert z[|x|] == '\\';
  }

  lemma {:induction false} AppendBackslash(x: string, z: string)
    requires !Open(x) && z == x + ['\\']
    ensures Unescape(z) == Unescape(x) + ['\\'] && Open(z)
  {
    if x == "" {
      OpenBackslash(z);
    } else {
      HeadBackslash(x, z);
      AppendBackslash(x[Width(x)..], z[Width(x)..]);
    }
  }

  lemma OpenBackslash(s: string)
    requires s == ['\\']
    ensures Unescape(s) == s && Open(s) && Closed(s) == ""
  {
    assert Unescape(s[1..]) == "";
  }

  lemma {:induction false} TwoBackslashes(p: string)
    requires '\\' !in p
    ensures Unescape(p + ['\\', '\\']) == p + ['\\'] && !Open(p + ['\\', '\\'])
  {
    var all := p + ['\\', '\\'];
    if p == "" {
      assert all == ['\\', '\\'] && all[2..] == "";
      assert Unescape(all[2..]) == "" && !Open(all[2..]);
    } else {
      assert all[1..] == p[1..] + ['\\', '\\'];
      TwoBackslashes(p[1..]);
    }
  }

  /** A backslash before the last two characters costs at least two. */
  lemma {:induction false} EarlyBackslash(s: string, j: nat)
    requires j < |s| - 2 && s[j] == '\\' && s[|s| - 1] == '\\'
    ensures |Closed(s)| <= |s| - 2
  {
    var n := Width(s);
    ClosedStep(s);
    UnescapeShrinks(s[n..]);
    if n == 2 {
      assert s[n..][|s| - 3] == '\\';
      ClosedLength(s[2..]);
    } else if n == 1 {
      EarlyBackslash(s[1..], j - 1);
    }
  }

  lemma LateBackslash(r: string, s: string)
    requires s == r + ['\\'] && (r == "" || '\\' !in r[..|r| - 1])
    ensures Closed(s) == r
  {
    if '\\' !in r {
      UnescapePlain(r);
      AppendBackslash(r, s);
    } else {
      var p := r[..|r| - 1];
      assert r == p + ['\\'] && s == p + ['\\', '\\'];
      TwoBackslashes(p);
    }
  }

  /** An open escape at the end of r comes back exactly when r has no other. */
  lemma OpenComesBack(r: string, s: string)
    requires s == r + ['\\']
    ensures Lower(Closed(s)) == Lower(r) <==> r == "" || '\\' !in r[..|r| - 1]
  {
    if r == "" || '\\' !in r[..|r| - 1] {
      LateBackslash(r, s);
    } else {
      var j :| 0 <= j < |r| - 1 && r[j] == '\\';
      EarlyBackslash(s, j);
    }
  }

  // ---- When the keys agree --------------------------------------------------------------------

  /** Nothing that lower-casing changes. */
  predicate Fixed(t: string) {
    forall i | 0 <= i < |t| :: LowerChar(t[i]) == t[i]
  }

  /** What a configured class looks like: lower case, no backslash, ending in _tcp or _udp. */
  predicate ServiceClass(service: string) {
    service != "" && Fixed(service) && '\\' !in service && service[|service| - 1] == 'p'
  }

  /** The instance part has no backslash left once its escapes are undone; where it ends in
      an open escape, none before its last two characters. */
  predicate Clean(raw: string) {
    var e := Unescape(raw);
    if Open(raw) then |e| < 2 || '\\' !in e[..|e| - 2] else '\\' !in e
  }

  lemma OpenSplits(s: string)
    requires Open(s)
    ensures Unescape(s) == Closed(s) + ['\\']
  {
    OpenEnds(s);
    var e := Unescape(s);
    assert e == e[..|e| - 1] + [e[|e| - 1]];
  }

  lemma CleanOpen(r: string, e: string)
    requires e == r + ['\\']
    ensures Lower(Closed(e)) == Lower(r) <==> |e| < 2 || '\\' !in e[..|e| - 2]
  {
    OpenComesBack(r, e);
    if r != "" { assert e[..|e| - 2] == r[..|r| - 1]; }
  }

  lemma CleanClosed(e: string)
    ensures Lower(Closed(e)) == Lower(e) <==> '\\' !in e
  {
    ClosedLength(e);
  }

  /** The raw part of a name, and the raw part of its key, side by side. */
  lemma CleanExactly(raw: string)
    ensures Lower(Closed(Unescape(raw))) == Lower(Closed(raw)) <==> Clean(raw)
  {
    var e := Unescape(raw);
    if Open(raw) {
      OpenSplits(raw);
      CleanOpen(Closed(raw), e);
    } else {
      CleanClosed(e);
    }
  }

  lemma NeverRaw(raw: string, t: string)
    requires Plain(t)
    ensures Lower(Closed(raw)) != Lower(Closed(Unescape(raw))) + t
  {
    if Open(raw) {
      OpenSplits(raw);
      NeverOpen(Closed(raw), Unescape(raw), t);
    } else {
      NeverLonger(Unescape(raw), t);
    }
  }

  lemma NeverOpen(r: string, s: string, t: string)
    requires s == r + ['\\'] && Plain(t)
    ensures Lower(r) != Lower(Closed(s)) + t
  {
    var u := Lower(Closed(s));
    if Lower(r) == u + t {
      var q, e := r[..|u|], r[|u|..];
      EndingOf(r, q, e, u, t);
      AppendBackslash(r, s);
      NeverLonger(q, t);
    }
  }

  lemma NameForm(raw: string, t: string)
    requires Plain(t) && Fixed(t)
    ensures Norm(raw + t) == Lower(Closed(raw)) + t
  {
    UnescapeAppend(raw, t);
    LowerAppend(Closed(raw), t);
    assert Lower(t) == t;
  }

  /** The two keys of a name, made of its raw part and what was trimmed from it. */
  predicate Agree(raw: string, t: string, tail: string) {
    Norm(Unescape(raw) + tail) == Norm(raw + t)
  }

  /** Nothing cut: the keys agree when the raw part is clean. */
  lemma WholeExactly(raw: string, tail: string)
    requires Plain(tail) && Fixed(tail)
    ensures Agree(raw, tail, tail) <==> Clean(raw)
  {
    NameForm(raw, tail);
    NameForm(Unescape(raw), tail);
    CleanExactly(raw);
    Cancel(Lower(Closed(Unescape(raw))), Lower(Closed(raw)), tail);
  }

  lemma Cancel(a: string, b: string, t: string)
    ensures a + t == b + t <==> a == b
  {
    if a + t == b + t { SplitsAlike(a, t, b, t); }
  }

  /** A name cut short of a plain beginning of the tail never agrees. */
  lemma CutNever(raw: string, cut: string, t: string)
    requires Plain(cut) && Plain(t) && Fixed(cut + t)
    ensures !Agree(raw, t, cut + t)
  {
    var a, b := Lower(Closed(raw)), Lower(Closed(Unescape(raw)));
    assert forall i | 0 <= i < |t| :: t[i] == (cut + t)[|cut| + i];
    NameForm(raw, t);
    NameForm(Unescape(raw), cut + t);
    NeverRaw(raw, cut);
    assert b + (cut + t) == (b + cut) + t;
    Cancel(a, b + cut, t);
  }

  /** Neither does one that was not cut at all but lacks the tail. */
  lemma UncutNever(raw: string, tail: string)
    requires Plain(tail) && Fixed(tail)
    ensures Norm(Unescape(raw) + tail) != Norm(raw)
  {
    NameForm(Unescape(raw), tail);
    NeverLonger(Unescape(raw), tail);
  }

  /** Nor one that ends otherwise than the tail. */
  lemma ApartNever(raw: string, t: string, tail: string, k: nat)
    requires Plain(t) && Fixed(t) && Plain(tail) && Fixed(tail)
    requires k < |t| && k < |tail| && t[|t| - 1 - k] != tail[|tail| - 1 - k]
    ensures !Agree(raw, t, tail)
  {
    NameForm(raw, t);
    NameForm(Unescape(raw), tail);
    EndsApart(Lower(Closed(raw)), t, Lower(Closed(Unescape(raw))), tail, k);
  }

  /** Two texts that end differently differ. */
  lemma EndsApart(a: string, t: string, b: string, u: string, k: nat)
    requires k < |t| && k < |u| && t[|t| - 1 - k] != u[|u| - 1 - k]
    ensures a + t != b + u
  {
    var x, y := a + t, b + u;
    assert x[|x| - 1 - k] == t[|t| - 1 - k];
    assert y[|y| - 1 - k] == u[|u| - 1 - k];
  }

  // ---- Trimming a name -------------------------------------------------------------------------

  /** The pieces of a tail, in the order they are trimmed from its end. */
  ghost predicate Pieces(cls: string, loc: string, dot: string, tail: string) {
    && tail == cls + loc + dot && Plain(cls) && Fixed(cls) && cls[|cls| - 1] == 'p'
    && loc == ".local" && dot == "."
  }

  lemma PiecesPlain(cls: string, loc: string, dot: string, tail: string)
    requires Pieces(cls, loc, dot, tail)
    ensures Plain(dot) && Fixed(dot) && Plain(loc) && Fixed(loc)
    ensures Plain(cls + loc) && Fixed(cls + loc) && Plain(cls + dot) && Fixed(cls + dot) && Plain(loc + dot)
            && Fixed(loc + dot)
    ensures Plain(tail) && Fixed(tail) && tail == cls + (loc + dot) && tail == (cls + loc) + dot
  {
    assert tail == cls + (loc + dot);
  }

  lemma DottedNever(name: string, n1: string, n2: string, raw: string, cls: string, loc: string, dot: string,
                    tail: string)
    requires Pieces(cls, loc, dot, tail) && name == n1 + dot && name != raw + tail
    requires n1 == n2 || n1 == n2 + loc
    requires n2 == raw || n2 == raw + cls
    ensures Norm(Unescape(raw) + tail) != Norm(name)
  {
    PiecesPlain(cls, loc, dot, tail);
    assert raw + cls + loc + dot == raw + tail;
    if n1 == n2 + loc && n2 == raw {
      assert name == raw + (loc + dot);
      CutNever(raw, cls, loc + dot);
    } else if n1 == n2 && n2 == raw + cls {
      assert name == raw + (cls + dot);
      ApartNever(raw, cls + dot, tail, 1);
    } else if n1 == n2 && n2 == raw {
      CutNever(raw, cls + loc, dot);
    }
  }

  lemma UndottedNever(name: string, n2: string, raw: string, cls: string, loc: string, dot: string, tail: string)
    requires Pieces(cls, loc, dot, tail)
    requires name == n2 || name == n2 + loc
    requires n2 == raw || n2 == raw + cls
    ensures Norm(Unescape(raw) + tail) != Norm(name)
  {
    PiecesPlain(cls, loc, dot, tail);
    if name == n2 + loc && n2 == raw + cls {
      assert name == raw + (cls + loc);
      ApartNever(raw, cls + loc, tail, 0);
    } else if name == n2 + loc {
      ApartNever(raw, loc, tail, 0);
    } else if n2 == raw + cls {
      ApartNever(raw, cls, tail, 0);
    } else {
      UncutNever(raw, tail);
    }
  }

  lemma TailPieces(service: string)
    requires ServiceClass(service)
    ensures Pieces("." + service, ".local", ".", Tail(service))
  {
  }

  lemma RawOfWhole(raw: string, cls: string, loc: string, dot: string)
    ensures TrimSuffix(TrimSuffix(TrimSuffix(raw + (cls + loc + dot), dot), loc), cls) == raw
  {
    var n2, n1 := raw + cls, raw + cls + loc;
    assert raw + (cls + loc + dot) == n1 + dot;
    assert TrimSuffix(n1 + dot, dot) == n1;
    assert TrimSuffix(n2 + loc, loc) == n2;
    assert TrimSuffix(raw + cls, cls) == raw;
  }

  /** The key an instance is deleted under is the one it was filed under exactly when its
      name ends in the class, as configured, and ".local.", and the instance before that
      is clean. */
  lemma RoundTripsExactly(name: string, service: string)
    requires ServiceClass(service)
    ensures RoundTrips(name, service) <==> EndsIn(name, Tail(service)) && Clean(RawInstance(name, service))
  {
    TailPieces(service);
    TrimExactly(name, "." + service, ".local", ".", Tail(service));
  }

  lemma TrimExactly(name: string, cls: string, loc: string, dot: string, tail: string)
    requires Pieces(cls, loc, dot, tail)
    ensures var raw := TrimSuffix(TrimSuffix(TrimSuffix(name, dot), loc), cls);
            Norm(Unescape(raw) + tail) == Norm(name) <==> EndsIn(name, tail) && Clean(raw)
  {
    var n1 := TrimSuffix(name, dot);
    var n2 := TrimSuffix(n1, loc);
    var raw := TrimSuffix(n2, cls);
    if EndsIn(name, tail) {
      RawOfWhole(TrimSuffix(name, tail), cls, loc, dot);
      PiecesPlain(cls, loc, dot, tail);
      WholeExactly(raw, tail);
    } else if EndsIn(name, dot) {
      DottedNever(name, n1, n2, raw, cls, loc, dot, tail);
    } else {
      UndottedNever(name, n2, raw, cls, loc, dot, tail);
    }
  }

  lemma UnescapeStep(s: string, rest: string)
    requires s != "" && s != "\\" && rest == s[Width(s)..]
    ensures Unescape(s) == [Head(s)] + Unescape(rest) && (Open(s) <==> Open(rest))
  {
  }

  /** An instance name with a backslash in it: the keys disagree. */
  lemma BackslashDisagrees(name: string, raw: string, service: string)
    requires ServiceClass(service) && raw == ['A', '\\', '\\', 'B'] && name == raw + Tail(service)
    ensures !RoundTrips(name, service)
  {
    UnescapeStep(raw, raw[1..]);
    UnescapeStep(raw[1..], raw[3..]);
    UnescapePlain(raw[3..]);
    var e := Unescape(raw);
    assert e == ['A'] + (['\\'] + raw[3..]) && e[1] == '\\';
    assert !Clean(raw);
    TailPieces(service);
    RawOfWhole(raw, "." + service, ".local", ".");
    RoundTripsExactly(name, service);
  }

  /** A class announced in upper case: the keys disagree. */
  lemma UpperCaseDisagrees(name: string, service: string)
    requires service == "_ipp._tcp" && name == "Printer._IPP._tcp.local."
    ensures !RoundTrips(name, service)
  {
    var tail := Tail(service);
    assert |tail| == 17 && tail[2] == 'i' && name[|name| - 17..][2] == 'I';
    assert !EndsIn(name, tail);
    RoundTripsExactly(name, service);
  }
}
