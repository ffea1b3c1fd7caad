/** The dnsmasq lease file: printed from the ledger, and parsed into leases to import
    (internal/addressbook/dnsmasq.go). */
module LeaseFile {
  import opened Strings
  import opened Bindings
  import opened Configs
  import opened LeaseText

  datatype ImportedLease = ImportedLease(
    scope: string, address: string, mac: string, clientId: string, hostname: string,
    duid: string, iaid: string, expiry: int)

  datatype Document = Document(leases: seq<ImportedLease>, serverDuid: string)

  /** An end the lease file writes as 0, meaning never. */
  const Forever: int := 253402300799

  const MarkerMac := "02:ff:ff:ff:ff:fe"

  /** The synthetic DHCPv6 identity of a quarantined address. */
  function MarkerDuid(c: Config, scope: string, address: string): string {
    "0004" + Take(c.digest(scope + "/" + address), 32)
  }

  // ---- Export -----------------------------------------------------------------------

  /** Live, and of a kind the lease file has a form for. */
  predicate Exported(b: Binding) {
    Live(b) && b.origin != NeighborReport && b.origin != Delegated
  }

  function HexText(s: string): (r: string)
    ensures |r| == 2 * |s| && LowerHex(r)
  {
    if s == "" then "" else [HexChar(s[0] as int / 16 % 16), HexChar(s[0] as int % 16)] + HexText(s[1..])
  }

  function ExportExpiry(b: Binding): int {
    if b.end == Forever then 0 else b.end
  }

  function ExportName(b: Binding): string {
    if IsLabel(b.name) then b.name else "*"
  }

  function ExportMac(b: Binding): string {
    if b.state == Declined then MarkerMac else b.mac
  }

  /** The client field: an unrelated identity for a quarantine, so that the declining
      client cannot renew it. */
  function ExportClient(b: Binding): string {
    if b.state == Declined then "ff:" + ColonHex(HexText(b.address))
    else if HasPrefix(b.client, "id:") then ColonHex(b.client[3..])
    else "*"
  }

  function ExportDuid(c: Config, b: Binding): string {
    if b.state == Declined then MarkerDuid(c, b.scope, b.address) else b.info.duid
  }

  /** A DHCPv6 identifier may have been recorded in either case. */
  function Iaid(b: Binding): string {
    Lower(b.info.iaid)
  }

  function ExportIaid(b: Binding): Option<nat> {
    if Iaid(b) != "" && LowerHex(Iaid(b)) && HexValue(Iaid(b)) < 0x1_0000_0000 then Some(HexValue(Iaid(b))) else None
  }

  /** The five fields of a binding's line; none when it cannot be printed. */
  function LineFields(c: Config, b: Binding): Option<seq<string>> {
    var ip := c.parse(b.address);
    if ip.None? || ExportExpiry(b) < 0 then None
    else if ip.value.is6 then
      var iaid := ExportIaid(b);
      if iaid.None? then None
      else Some([Dec(ExportExpiry(b)), Dec(iaid.value), b.address, ExportName(b), ColonHex(ExportDuid(c, b))])
    else Some([Dec(ExportExpiry(b)), ExportMac(b), b.address, ExportName(b), ExportClient(b)])
  }

  /** A binding's line as printed. */
  function PrintLine(c: Config, b: Binding): Option<string> {
    var f := LineFields(c, b);
    if f.None? then None else Some(Unfields(f.value))
  }

  function Printer(c: Config): Binding -> Option<string> {
    (b: Binding) => PrintLine(c, b)
  }

  /** The lines of the exported bindings; none when one cannot be printed. */
  function ExportLines(show: Binding -> Option<string>, bs: seq<Binding>): Option<seq<string>> {
    if bs == [] then Some([])
    else
      var rest := ExportLines(show, bs[1..]);
      if !Exported(bs[0]) then rest
      else
        var line := show(bs[0]);
        if line.None? || rest.None? then None else Some([line.value] + rest.value)
  }

  function DuidLines(duid: string): seq<string> {
    if duid == "" then [] else [Unfields(["duid", ColonHex(duid)])]
  }

  function TextOf(lines: seq<string>): string {
    if lines == [] then "\n" else Unlines(lines)
  }

  /** The lease file of the bindings: the server identity, then a line per live binding. */
  function ExportText(c: Config, duid: string, bs: seq<Binding>): Option<string> {
    var lines := ExportLines(Printer(c), bs);
    if lines.None? then None else Some(TextOf(DuidLines(duid) + lines.value))
  }

  /** ExportDNSmasq. */
  method ExportDnsmasq(c: Config, duid: string, bs: seq<Binding>) returns (r: Option<string>)
    ensures r == ExportText(c, duid, bs)
  {
    var lines := ExportAll(Printer(c), bs);
    r := if lines.None? then None else Some(TextOf(DuidLines(duid) + lines.value));
  }

  /** The export loop, for any way of printing a line. */
  method ExportAll(show: Binding -> Option<string>, bs: seq<Binding>) returns (r: Option<seq<string>>)
    ensures r == ExportLines(show, bs)
  {
    var lines: seq<string> := [];
    assert bs[0..] == bs;
    for i := 0 to |bs|
      invariant var all, rest := ExportLines(show, bs), ExportLines(show, bs[i..]);
                if rest.None? then all.None? else all.Some? && all.value == lines + rest.value
    {
      var b := bs[i];
      assert bs[i..][0] == b && bs[i..][1..] == bs[i + 1..];
      if Exported(b) {
        var line := show(b);
        if line.None? {
          return None;
        }
        lines := lines + [line.value];
      }
    }
    assert bs[|bs|..] == [] && lines + [] == lines && bs[0..] == bs;
    r := Some(lines);
  }

  // ---- Parse ------------------------------------------------------------------------

  datatype Line = NoFields | Server(duid: string) | Lease(lease: ImportedLease) | Bad

  /** The one scope an address belongs to; none when it has no scope or several. */
  function ScopeOf(scopes: seq<Scope>, ip: string): (r: Option<Scope>)
    ensures r.Some? ==> r.value in scopes && r.value.contains(ip)
  {
    if scopes == [] then None
    else if !scopes[0].contains(ip) then ScopeOf(scopes[1..], ip)
    else if exists i | 1 <= i < |scopes| :: scopes[i].contains(ip) then None
    else Some(scopes[0])
  }

  function ParseLine(c: Config, line: string): Line {
    ParseFields(c, Fields(line))
  }

  function ParseFields(c: Config, f: seq<string>): Line {
    if f == [] then NoFields
    else if |f| == 2 && f[0] == "duid" then Server(Strip(f[1]))
    else if |f| != 5 then Bad
    else
      var ip := c.parse(f[2]);
      var expiry := ParseInt(f[0]);
      if ip.None? || expiry.None? || expiry.value < 0 then Bad
      else
        var s := ScopeOf(c.scopes, ip.value.text);
        var host := if f[3] == "*" then "" else f[3];
        if s.None? then Bad
        else if ip.value.is6 then
          var iaid := ParseUint32(f[1]);
          if iaid.None? then Bad
          else Lease(ImportedLease(s.value.id, ip.value.text, "", "", host, Strip(f[4]), HexPad(iaid.value, 8),
                                   expiry.value))
        else Lease(ImportedLease(s.value.id, ip.value.text, f[1], f[4], host, "", "", expiry.value))
  }

  function Parser(c: Config): string -> Line {
    (line: string) => ParseLine(c, line)
  }

  /** The document of the lines, continuing one; none at the first bad line. */
  function ParseLines(parse: string -> Line, lines: seq<string>, doc: Document): Option<Document> {
    if lines == [] then Some(doc)
    else match parse(lines[0])
      case NoFields => ParseLines(parse, lines[1..], doc)
      case Server(duid) => ParseLines(parse, lines[1..], doc.(serverDuid := duid))
      case Lease(l) => ParseLines(parse, lines[1..], doc.(leases := doc.leases + [l]))
      case Bad => None
  }

  /** What a lease file says. */
  function ParseText(c: Config, text: string): Option<Document> {
    ParseLines(Parser(c), Split(text, '\n'), Document([], ""))
  }

  /** ParseDNSmasq: an unreadable line, or an address of no one scope, fails the file. */
  method ParseDnsmasq(c: Config, text: string) returns (r: Option<Document>)
    ensures r == ParseText(c, text)
  {
    r := ParseAll(Parser(c), Split(text, '\n'));
  }

  /** The parse loop, for any way of reading a line. */
  method ParseAll(parse: string -> Line, lines: seq<string>) returns (r: Option<Document>)
    ensures r == ParseLines(parse, lines, Document([], ""))
  {
    var doc := Document([], "");
    for i := 0 to |lines|
      invariant ParseLines(parse, lines, Document([], "")) == ParseLines(parse, lines[i..], doc)
    {
      assert lines[i..][0] == lines[i] && lines[i..][1..] == lines[i + 1..];
      match parse(lines[i])
      case NoFields =>
      case Server(duid) => doc := doc.(serverDuid := duid);
      case Lease(l) => doc := doc.(leases := doc.leases + [l]);
      case Bad => return None;
    }
    r := Some(doc);
  }

  // ---- Round trip ---------------------------------------------------------------------

  /** What a live binding of a validated configuration looks like: its address is in its own
      scope and no other, its identity is of the scope's family, and no real client uses
      the quarantine identity. */
  ghost predicate Exportable(c: Config, b: Binding) {
    && WellFormed(b) && b.end <= MaxInt64
    && Token(b.address) && |b.address| <= 100
    && c.parse(b.address).Some? && c.parse(b.address).value.text == b.address
    && ScopeOf(c.scopes, b.address).Some? && ScopeOf(c.scopes, b.address).value.id == b.scope
    && ScopeOf(c.scopes, b.address).value.is6 == c.parse(b.address).value.is6
    && if c.parse(b.address).value.is6
       then DuidClient(b.client) && b.info.duid == DuidOf(b.client) && Iaid(b) == IaidOf(b.client)
            && (b.state != Declined ==> b.info.duid != MarkerDuid(c, b.scope, b.address))
       else && CanonicalMac(b.mac) && (b.state != Declined ==> b.mac != MarkerMac)
            && ValidClient(b.client) && !HasPrefix(b.client, "duid:")
            && (HasPrefix(b.client, "mac:") ==> b.client == "mac:" + b.mac)
  }

  /** The lease a binding's line stands for. */
  function LeaseOf(c: Config, b: Binding): ImportedLease {
    var host := if IsLabel(b.name) then b.name else "";
    if c.parse(b.address).Some? && c.parse(b.address).value.is6
    then ImportedLease(b.scope, b.address, "", "", host, ExportDuid(c, b), Iaid(b), ExportExpiry(b))
    else ImportedLease(b.scope, b.address, ExportMac(b), ExportClient(b), host, "", "", ExportExpiry(b))
  }

  function Leaser(c: Config): Binding -> ImportedLease {
    (b: Binding) => LeaseOf(c, b)
  }

  function LeasesOf(lease: Binding -> ImportedLease, bs: seq<Binding>): seq<ImportedLease> {
    if bs == [] then []
    else if !Exported(bs[0]) then LeasesOf(lease, bs[1..])
    else [lease(bs[0])] + LeasesOf(lease, bs[1..])
  }

  lemma {:induction false} ColonHexToken(v: string)
    requires LowerHex(v) && |v| >= 2
    ensures Token(ColonHex(v))
  {
    assert forall c <- v[..2] :: c in v;
    assert forall c <- v[2..] :: c in v;
    if |v| >= 4 {
      ColonHexToken(v[2..]);
    }
  }

  lemma DecToken(n: nat)
    ensures Token(Dec(n))
  {
  }

  lemma MacToken(mac: string)
    requires CanonicalMac(mac)
    ensures Token(mac)
  {
    forall c | c in mac ensures !Blank(c) {
      var i :| 0 <= i < |mac| && mac[i] == c;
    }
  }

  lemma MarkerMacToken()
    ensures Token(MarkerMac)
  {
  }

  lemma ExportMacToken(b: Binding)
    requires CanonicalMac(b.mac)
    ensures Token(ExportMac(b))
  {
    MacToken(b.mac);
    MarkerMacToken();
  }

  lemma MarkerDuidHex(c: Config, scope: string, address: string)
    requires ValidConfig(c)
    ensures LowerHex(MarkerDuid(c, scope, address)) && |MarkerDuid(c, scope, address)| == 36
  {
    var h := c.digest(scope + "/" + address);
    assert |h| == 64 && LowerHex(h);
    assert forall x <- Take(h, 32) :: x in h;
  }

  lemma ExportDuidHex(c: Config, b: Binding)
    requires ValidConfig(c) && DuidClient(b.client) && b.info.duid == DuidOf(b.client)
    ensures var d := ExportDuid(c, b); LowerHex(d) && |d| >= 4 && |d| % 2 == 0
  {
    MarkerDuidHex(c, b.scope, b.address);
  }

  lemma ExportClientToken(b: Binding)
    requires ValidClient(b.client) && b.address != ""
    ensures Token(ExportClient(b))
  {
    ColonHexToken(HexText(b.address));
    if HasPrefix(b.client, "id:") {
      HasPrefixStep(b.client, "id:");
      HasPrefixStep(b.client, "duid:");
      HasPrefixStep(b.client, "mac:");
      ColonHexToken(b.client[3..]);
    }
  }

  lemma NameToken(b: Binding)
    ensures Token(ExportName(b)) && (ExportName(b) == "*" <==> !IsLabel(b.name))
  {
    if IsLabel(b.name) { assert LabelChar(b.name[0]); }
  }

  lemma Line4Tokens(c: Config, b: Binding)
    requires ValidConfig(c) && Exportable(c, b) && !c.parse(b.address).value.is6
    ensures LineFields(c, b).Some? && forall f <- LineFields(c, b).value :: Token(f)
  {
    DecToken(ExportExpiry(b));
    ExportMacToken(b);
    NameToken(b);
    ExportClientToken(b);
    Five(Dec(ExportExpiry(b)), ExportMac(b), b.address, ExportName(b), ExportClient(b));
  }

  lemma Five(a: string, b: string, c: string, d: string, e: string)
    requires Token(a) && Token(b) && Token(c) && Token(d) && Token(e)
    ensures forall f <- [a, b, c, d, e] :: Token(f)
  {
  }

  lemma Line6Tokens(c: Config, b: Binding)
    requires ValidConfig(c) && Exportable(c, b) && c.parse(b.address).value.is6
    ensures LineFields(c, b).Some? && forall f <- LineFields(c, b).value :: Token(f)
  {
    HexValue8(Iaid(b));
    DecToken(ExportExpiry(b));
    DecToken(HexValue(Iaid(b)));
    NameToken(b);
    ExportDuidHex(c, b);
    ColonHexToken(ExportDuid(c, b));
  }

  /** The fields of a binding's line parse to its lease: IPv4 ... */
  lemma Fields4ParseBack(c: Config, b: Binding)
    requires ValidConfig(c) && Exportable(c, b) && !c.parse(b.address).value.is6
    ensures LineFields(c, b).Some? && ParseFields(c, LineFields(c, b).value) == Lease(LeaseOf(c, b))
  {
    NameToken(b);
    ParseIntDec(ExportExpiry(b));
  }

  /** ... and IPv6. */
  lemma Fields6ParseBack(c: Config, b: Binding)
    requires ValidConfig(c) && Exportable(c, b) && c.parse(b.address).value.is6
    ensures LineFields(c, b).Some? && ParseFields(c, LineFields(c, b).value) == Lease(LeaseOf(c, b))
  {
    HexValue8(Iaid(b));
    HexRoundTrip(Iaid(b));
    NameToken(b);
    ExportDuidHex(c, b);
    ParseFields6(c, b.address, ExportExpiry(b), HexValue(Iaid(b)), ExportName(b), ExportDuid(c, b));
  }

  lemma ParseFields6(c: Config, address: string, expiry: nat, iaid: nat, name: string, duid: string)
    requires c.parse(address) == Some(Addr(address, true)) && ScopeOf(c.scopes, address).Some?
    requires expiry <= MaxInt64 && iaid < 0x1_0000_0000 && LowerHex(duid) && |duid| % 2 == 0
    ensures ParseFields(c, [Dec(expiry), Dec(iaid), address, name, ColonHex(duid)])
            == Lease(ImportedLease(ScopeOf(c.scopes, address).value.id, address, "", "",
                                   if name == "*" then "" else name,
                                   duid, HexPad(iaid, 8), expiry))
  {
    ParseIntDec(expiry);
    ParseUintDec(iaid);
    ColonHexRoundTrip(duid);
  }

  /** Printing a binding gives one line that reads back as its lease. */
  ghost predicate ReadsBack(show: Binding -> Option<string>, parse: string -> Line,
                            lease: Binding -> ImportedLease, b: Binding) {
    show(b).Some? && Free('\n', show(b).value) && parse(show(b).value) == Lease(lease(b))
  }

  lemma LineReadsBack(c: Config, b: Binding)
    requires ValidConfig(c) && Exportable(c, b)
    ensures ReadsBack(Printer(c), Parser(c), Leaser(c), b)
  {
    if c.parse(b.address).value.is6 {
      Line6Tokens(c, b);
      Fields6ParseBack(c, b);
    } else {
      Line4Tokens(c, b);
      Fields4ParseBack(c, b);
    }
    FieldsUnfields(LineFields(c, b).value);
    UnfieldsOneLine(LineFields(c, b).value);
  }

  /** Lines that read back one by one read back as a file. */
  lemma {:induction false} LinesReadBack(show: Binding -> Option<string>, parse: string -> Line,
                                         lease: Binding -> ImportedLease, bs: seq<Binding>, doc: Document)
    requires parse("") == NoFields
    requires forall b <- bs | Exported(b) :: ReadsBack(show, parse, lease, b)
    ensures ExportLines(show, bs).Some? && forall l <- ExportLines(show, bs).value :: Free('\n', l)
    ensures ParseLines(parse, ExportLines(show, bs).value + [""], doc) ==
              Some(doc.(leases := doc.leases + LeasesOf(lease, bs)))
  {
    if bs == [] {
      assert doc.leases + [] == doc.leases;
      assert [""][1..] == [] && [] + [""] == [""];
    } else if !Exported(bs[0]) {
      LinesReadBack(show, parse, lease, bs[1..], doc);
    } else {
      assert ReadsBack(show, parse, lease, bs[0]);
      var line, l := show(bs[0]).value, lease(bs[0]);
      LinesReadBack(show, parse, lease, bs[1..], doc.(leases := doc.leases + [l]));
      var rest := ExportLines(show, bs[1..]).value;
      assert ([line] + rest + [""])[1..] == rest + [""];
      assert doc.leases + [l] + LeasesOf(lease, bs[1..]) == doc.leases + ([l] + LeasesOf(lease, bs[1..]));
    }
  }

  lemma DuidLineParses(c: Config, duid: string)
    requires LowerHex(duid) && |duid| % 2 == 0 && duid != ""
    ensures ParseLine(c, Unfields(["duid", ColonHex(duid)])) == Server(duid)
    ensures Free('\n', Unfields(["duid", ColonHex(duid)]))
  {
    ColonHexToken(duid);
    assert Token("duid");
    PairLine("duid", ColonHex(duid));
    ColonHexRoundTrip(duid);
  }

  lemma PairLine(word: string, value: string)
    requires Token(word) && Token(value)
    ensures Fields(Unfields([word, value])) == [word, value] && Free('\n', Unfields([word, value]))
  {
    FieldsUnfields([word, value]);
    UnfieldsOneLine([word, value]);
  }

  /** A file of a server identity and lines that read back, as text. */
  lemma TextReadsBack(parse: string -> Line, duid: string, lines: seq<string>, leases: seq<ImportedLease>)
    requires parse("") == NoFields
    requires forall l <- lines :: Free('\n', l)
    requires duid != "" ==> Free('\n', DuidLines(duid)[0]) && parse(DuidLines(duid)[0]) == Server(duid)
    requires ParseLines(parse, lines + [""], Document([], duid)) == Some(Document(leases, duid))
    ensures ParseLines(parse, Split(TextOf(DuidLines(duid) + lines), '\n'), Document([], "")) ==
              Some(Document(leases, duid))
  {
    var all := DuidLines(duid) + lines;
    if all == [] {
      assert Split("\n", '\n') == ["", ""];
      assert ["", ""][1..] == [""] && lines + [""] == [""];
    } else {
      SplitUnlines(all);
      if duid == "" {
        assert all == lines;
      } else {
        assert (all + [""])[0] == DuidLines(duid)[0] && (all + [""])[1..] == lines + [""];
      }
    }
  }

  /** Parsing what was exported gives back the server identity and a lease for every
      exported binding, in order, and nothing else. */
  lemma ExportParsesBack(c: Config, duid: string, bs: seq<Binding>)
    requires ValidConfig(c) && LowerHex(duid) && |duid| % 2 == 0
    requires forall b <- bs | Exported(b) :: Exportable(c, b)
    ensures ExportText(c, duid, bs).Some?
    ensures ParseText(c, ExportText(c, duid, bs).value) == Some(Document(LeasesOf(Leaser(c), bs), duid))
  {
    forall b | b in bs && Exported(b) ensures ReadsBack(Printer(c), Parser(c), Leaser(c), b) {
      LineReadsBack(c, b);
    }
    assert Parser(c)("") == NoFields;
    LinesReadBack(Printer(c), Parser(c), Leaser(c), bs, Document([], duid));
    if duid != "" { DuidLineParses(c, duid); }
    var lines, leases := ExportLines(Printer(c), bs).value, LeasesOf(Leaser(c), bs);
    assert [] + leases == leases;
    TextReadsBack(Parser(c), duid, lines, leases);
  }

  // ---- One binding's line, whatever the others are -----------------------------------------------

  lemma {:induction false} LineIncluded(show: Binding -> Option<string>, bs: seq<Binding>, b: Binding)
    requires b in bs && Exported(b) && ExportLines(show, bs).Some?
    ensures show(b).Some? && show(b).value in ExportLines(show, bs).value
  {
    if bs[0] != b { LineIncluded(show, bs[1..], b); }
  }

  lemma {:induction false} LeaseIncluded(parse: string -> Line, lines: seq<string>, doc: Document, x: ImportedLease)
    requires x in doc.leases || exists l <- lines :: parse(l) == Lease(x)
    ensures var r := ParseLines(parse, lines, doc); r.Some? ==> x in r.value.leases
    decreases |lines|
  {
    if lines != [] {
      match parse(lines[0])
      case NoFields => LeaseIncluded(parse, lines[1..], doc, x);
      case Server(duid) => LeaseIncluded(parse, lines[1..], doc.(serverDuid := duid), x);
      case Lease(l) => LeaseIncluded(parse, lines[1..], doc.(leases := doc.leases + [l]), x);
      case Bad =>
    }
  }

  /** Whenever a written file can be read, an exportable binding's lease is in it: a line
      that reads as something else cannot take another binding's line away. */
  lemma ExportIncludes(c: Config, duid: string, bs: seq<Binding>, b: Binding)
    requires ValidConfig(c) && b in bs && Exported(b) && Exportable(c, b)
    requires ExportText(c, duid, bs).Some?
    ensures var doc := ParseText(c, ExportText(c, duid, bs).value); doc.Some? ==> LeaseOf(c, b) in doc.value.leases
  {
    LineReadsBack(c, b);
    LineIncluded(Printer(c), bs, b);
    var lines, l := DuidLines(duid) + ExportLines(Printer(c), bs).value, Printer(c)(b).value;
    UnlinesKeeps(lines, l);
    assert l in Split(TextOf(lines), '\n') && Parser(c)(l) == Lease(Leaser(c)(b));
    LeaseIncluded(Parser(c), Split(TextOf(lines), '\n'), Document([], ""), LeaseOf(c, b));
  }

  // ---- A binding that cannot be read back -------------------------------------------------------

  lemma {:induction false} BadLine(parse: string -> Line, lines: seq<string>, doc: Document, l: string)
    requires l in lines && parse(l) == Bad
    ensures ParseLines(parse, lines, doc).None?
    decreases |lines|
  {
    if lines[0] != l {
      match parse(lines[0])
      case NoFields => BadLine(parse, lines[1..], doc, l);
      case Server(duid) => BadLine(parse, lines[1..], doc.(serverDuid := duid), l);
      case Lease(x) => BadLine(parse, lines[1..], doc.(leases := doc.leases + [x]), l);
      case Bad =>
    }
  }

  /** One line that cannot be read takes the whole file with it. */
  lemma OneBadLine(c: Config, duid: string, bs: seq<Binding>, b: Binding)
    requires b in bs && Exported(b) && ExportText(c, duid, bs).Some?
    requires Printer(c)(b).Some? && Free('\n', Printer(c)(b).value) && Parser(c)(Printer(c)(b).value) == Bad
    ensures ParseText(c, ExportText(c, duid, bs).value).None?
  {
    LineIncluded(Printer(c), bs, b);
    var lines, l := DuidLines(duid) + ExportLines(Printer(c), bs).value, Printer(c)(b).value;
    UnlinesKeeps(lines, l);
    BadLine(Parser(c), Split(TextOf(lines), '\n'), Document([], ""), l);
  }

  lemma LineTokens(c: Config, b: Binding)
    requires ValidConfig(c) && Exportable(c, b)
    ensures LineFields(c, b).Some? && |LineFields(c, b).value| == 5 && forall f <- LineFields(c, b).value :: Token(f)
  {
    if c.parse(b.address).value.is6 { Line6Tokens(c, b); } else { Line4Tokens(c, b); }
  }

  /** Such is the line of a binding whose scope the configuration no longer has. */
  lemma RemovedUnreadable(d: Config, c: Config, duid: string, bs: seq<Binding>, b: Binding)
    requires ValidConfig(d) && Exportable(d, b) && c.parse == d.parse && c.digest == d.digest
    requires ScopeOf(c.scopes, b.address).None?
    requires b in bs && Exported(b) && ExportText(c, duid, bs).Some?
    ensures ParseText(c, ExportText(c, duid, bs).value).None?
  {
    LineTokens(d, b);
    SameLine(d, c, b);
    RemovedBad(d, c, b);
    PrintsBad(c, b, LineFields(d, b).value);
    OneBadLine(c, duid, bs, b);
  }

  lemma SameLine(d: Config, c: Config, b: Binding)
    requires c.parse == d.parse && c.digest == d.digest
    ensures LineFields(c, b) == LineFields(d, b)
  {
  }

  lemma PrintsBad(c: Config, b: Binding, f: seq<string>)
    requires LineFields(c, b) == Some(f) && |f| == 5 && (forall x <- f :: Token(x)) && ParseFields(c, f) == Bad
    ensures Printer(c)(b).Some? && Free('\n', Printer(c)(b).value) && Parser(c)(Printer(c)(b).value) == Bad
  {
    FieldsUnfields(f);
    UnfieldsOneLine(f);
  }

  lemma RemovedBad(d: Config, c: Config, b: Binding)
    requires ValidConfig(d) && Exportable(d, b) && c.parse == d.parse && ScopeOf(c.scopes, b.address).None?
    ensures LineFields(d, b).Some? && ParseFields(c, LineFields(d, b).value) == Bad
  {
    LineTokens(d, b);
    ParseIntDec(ExportExpiry(b));
  }
}
