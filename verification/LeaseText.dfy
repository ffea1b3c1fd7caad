/** The text a lease file is made of: decimal and hex numbers, colon-separated hex,
    blank-separated fields and lines. Every printer has a parser that undoes it. */
module LeaseText {
  import opened Strings
  import opened Configs

  // ---- Numbers ---------------------------------------------------------------------

  function DigitChar(n: nat): char
    requires n < 10
  {
    '0' + n as char
  }

  function Dec(n: nat): (s: string)
    ensures s != "" && forall c <- s :: Digit(c)
  {
    if n < 10 then [DigitChar(n)] else Dec(n / 10) + [DigitChar(n % 10)]
  }

  function DecValue(s: string): nat
    requires forall c <- s :: Digit(c)
  {
    if s == "" then 0
    else
      var c := s[|s| - 1];
      assert Digit(c);
      DecValue(s[..|s| - 1]) * 10 + (c as int - '0' as int)
  }

  lemma {:induction false} DecRoundTrip(n: nat)
    ensures DecValue(Dec(n)) == n
  {
    var s := Dec(n);
    if n < 10 {
      assert s[..0] == "";
    } else {
      DecRoundTrip(n / 10);
      assert s[..|s| - 1] == Dec(n / 10);
    }
  }

  const MaxInt64: nat := 0x7fff_ffff_ffff_ffff

  /** ParseInt, base 10, 64 bits. */
  function ParseInt(s: string): Option<int> {
    var signed := s != "" && (s[0] == '-' || s[0] == '+');
    var body := if signed then s[1..] else s;
    if body == "" || exists c <- body :: !Digit(c) then None
    else
      var n: int := DecValue(body);
      if signed && s[0] == '-' then (if n <= MaxInt64 + 1 then Some(-n) else None)
      else if n <= MaxInt64 then Some(n) else None
  }

  /** ParseUint, base 10, 32 bits. */
  function ParseUint32(s: string): Option<nat> {
    if s == "" || exists c <- s :: !Digit(c) then None
    else if DecValue(s) < 0x1_0000_0000 then Some(DecValue(s)) else None
  }

  lemma ParseIntDec(n: nat)
    requires n <= MaxInt64
    ensures ParseInt(Dec(n)) == Some(n)
  {
    DecRoundTrip(n);
    assert Digit(Dec(n)[0]);
  }

  lemma ParseUintDec(n: nat)
    requires n < 0x1_0000_0000
    ensures ParseUint32(Dec(n)) == Some(n)
  {
    DecRoundTrip(n);
  }

  function HexChar(n: nat): (c: char)
    requires n < 16
    ensures HexDigit(c)
  {
    if n < 10 then '0' + n as char else 'a' + (n - 10) as char
  }

  function HexDigitValue(c: char): (n: nat)
    requires HexDigit(c)
    ensures n < 16 && HexChar(n) == c
  {
    if c <= '9' then (c - '0') as int else (c - 'a') as int + 10
  }

  function HexValue(s: string): nat
    requires LowerHex(s)
  {
    if s == "" then 0 else HexValue(s[..|s| - 1]) * 16 + HexDigitValue(s[|s| - 1])
  }

  /** n in hex, padded to k digits. */
  function HexPad(n: nat, k: nat): (s: string)
    ensures |s| == k && LowerHex(s)
  {
    if k == 0 then "" else HexPad(n / 16, k - 1) + [HexChar(n % 16)]
  }

  lemma SixteenTimes(v: nat, d: nat)
    requires d < 16
    ensures (v * 16 + d) / 16 == v && (v * 16 + d) % 16 == d
  {
  }

  lemma {:induction false} HexRoundTrip(s: string)
    requires LowerHex(s)
    ensures HexPad(HexValue(s), |s|) == s
  {
    if s != "" {
      var init, d := s[..|s| - 1], HexDigitValue(s[|s| - 1]);
      HexRoundTrip(init);
      SixteenTimes(HexValue(init), d);
      assert s == init + [s[|s| - 1]];
    }
  }

  function Pow16(k: nat): nat {
    if k == 0 then 1 else 16 * Pow16(k - 1)
  }

  lemma {:induction false} HexBound(s: string)
    requires LowerHex(s)
    ensures HexValue(s) < Pow16(|s|)
  {
    if s != "" { HexBound(s[..|s| - 1]); }
  }

  lemma HexValue8(s: string)
    requires LowerHex(s) && |s| == 8
    ensures HexValue(s) < 0x1_0000_0000
  {
    HexBound(s);
    assert Pow16(8) == 0x1_0000_0000;
  }

  // ---- Colon-separated hex ------------------------------------------------------------

  /** What colonHex prints: pairs of digits joined by colons; an odd last digit is lost. */
  function ColonHex(v: string): string {
    if |v| < 2 then "" else if |v| < 4 then v[..2] else v[..2] + ":" + ColonHex(v[2..])
  }

  /** ReplaceAll(":", ""). */
  function Strip(s: string): string {
    if s == "" then "" else if s[0] == ':' then Strip(s[1..]) else [s[0]] + Strip(s[1..])
  }

  lemma {:induction false} StripFree(s: string)
    requires ':' !in s
    ensures Strip(s) == s
  {
    if s != "" { StripFree(s[1..]); }
  }

  lemma {:induction false} StripAppend(a: string, b: string)
    ensures Strip(a + b) == Strip(a) + Strip(b)
  {
    if a == "" {
      assert a + b == b;
    } else {
      assert (a + b)[1..] == a[1..] + b;
      StripAppend(a[1..], b);
    }
  }

  /** Printing hex with colons and stripping them again gives it back. */
  lemma {:induction false} ColonHexRoundTrip(v: string)
    requires LowerHex(v) && |v| % 2 == 0
    ensures Strip(ColonHex(v)) == v
  {
    if |v| >= 2 {
      assert forall c <- v[..2] :: HexDigit(c);
      StripFree(v[..2]);
      assert v == v[..2] + v[2..];
      if |v| >= 4 {
        ColonHexRoundTrip(v[2..]);
        StripAppend(v[..2], ":" + ColonHex(v[2..]));
        assert (":" + ColonHex(v[2..]))[1..] == ColonHex(v[2..]);
        assert ColonHex(v) == v[..2] + (":" + ColonHex(v[2..]));
      } else {
        assert v[..2] == v;
      }
    }
  }

  /** colonHex's loop. */
  method PrintColonHex(value: string) returns (s: string)
    ensures s == ColonHex(value)
  {
    s := "";
    var i := 0;
    while i + 1 < |value|
      invariant 0 <= i <= |value| && (i == 0 ==> s == "")
      invariant ColonHex(value) == if i == 0 then ColonHex(value)
                                   else if i + 1 < |value| then s + ":" + ColonHex(value[i..]) else s
    {
      s := if i == 0 then value[..2] else s + ":" + value[i..i + 2];
      assert value[i..][2..] == value[i + 2..];
      assert value[i..][..2] == value[i..i + 2];
      i := i + 2;
    }
  }

  // ---- Fields ----------------------------------------------------------------------------

  predicate Blank(c: char) {
    c == ' ' || 9 <= c as int <= 13 || c as int == 0x85 || c as int == 0xa0
  }

  /** A token: printed as one field. */
  predicate Token(s: string) {
    s != "" && forall c <- s :: !Blank(c)
  }

  /** Fields: the maximal runs without blanks. */
  function Fields(s: string): seq<string> {
    if s == "" then []
    else if Blank(s[0]) then Fields(s[1..])
    else
      var rest := Fields(s[1..]);
      if |s| == 1 || Blank(s[1]) || rest == [] then [[s[0]]] + rest
      else [[s[0]] + rest[0]] + rest[1..]
  }

  function Unfields(fs: seq<string>): string {
    if fs == [] then "" else if |fs| == 1 then fs[0] else fs[0] + " " + Unfields(fs[1..])
  }

  /** A token followed by a blank, or by nothing, is the first field. */
  lemma {:induction false} FieldsToken(t: string, rest: string)
    requires Token(t) && (rest == "" || Blank(rest[0]))
    ensures Fields(t + rest) == [t] + Fields(rest)
  {
    var s := t + rest;
    assert s[1..] == t[1..] + rest;
    assert !Blank(t[0]);
    if |t| == 1 {
      assert t == [t[0]] && s[1..] == rest;
      assert rest != "" ==> s[1] == rest[0];
    } else {
      assert s[1] == t[1];
      FieldsToken(t[1..], rest);
      assert [s[0]] + t[1..] == t;
    }
  }

  lemma {:induction false} FieldsUnfields(fs: seq<string>)
    requires forall f <- fs :: Token(f)
    ensures Fields(Unfields(fs)) == fs
  {
    if |fs| == 1 {
      FieldsToken(fs[0], "");
      assert fs[0] + "" == fs[0];
    } else if |fs| > 1 {
      var rest := Unfields(fs[1..]);
      FieldsUnfields(fs[1..]);
      FieldsToken(fs[0], " " + rest);
      assert (" " + rest)[1..] == rest;
      assert fs[0] + " " + rest == fs[0] + (" " + rest);
      assert fs == [fs[0]] + fs[1..];
    }
  }

  lemma UnfieldsOneLine(fs: seq<string>)
    requires forall f <- fs :: Token(f)
    ensures Free('\n', Unfields(fs))
  {
    if fs != [] {
      assert Blank('\n') && Token(fs[0]);
      UnfieldsOneLine(fs[1..]);
    }
  }

  // ---- Lines ------------------------------------------------------------------------------

  /** Lines, each ended by a newline. */
  function Unlines(lines: seq<string>): string {
    if lines == [] then "" else lines[0] + "\n" + Unlines(lines[1..])
  }

  lemma {:induction false} SplitUnlines(lines: seq<string>)
    requires forall l <- lines :: Free('\n', l)
    ensures Split(Unlines(lines), '\n') == lines + [""]
  {
    if lines != [] {
      SplitUnlines(lines[1..]);
      assert Unlines(lines) == Join(lines[0], '\n', Unlines(lines[1..]));
      SplitJoin(lines[0], '\n', Unlines(lines[1..]));
    }
  }

  /** A line written is a line read, whatever the others are. */
  lemma {:induction false} UnlinesKeeps(lines: seq<string>, l: string)
    requires l in lines && Free('\n', l)
    ensures l in Split(Unlines(lines), '\n')
  {
    var rest := Unlines(lines[1..]);
    assert Unlines(lines) == lines[0] + ['\n'] + rest;
    SplitAppend(lines[0], '\n', rest);
    if lines[0] == l {
      SplitFree(l, '\n');
    } else {
      UnlinesKeeps(lines[1..], l);
    }
  }

  lemma {:induction false} LowerHexLower(v: string)
    requires LowerHex(v)
    ensures Lower(v) == v
  {
    if v != "" { assert HexDigit(v[0]); LowerHexLower(v[1..]); }
  }
}
