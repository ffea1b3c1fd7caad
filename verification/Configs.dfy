/** Client identities, and the configuration facts the ledger relies on
    (internal/addressbook/config.go). */
module Configs {
  import opened Strings
  import opened Bindings

  predicate HexDigit(c: char) {
    '0' <= c <= '9' || 'a' <= c <= 'f'
  }

  predicate LowerHex(s: string) {
    forall c <- s :: HexDigit(c)
  }

  /** Six lower-case hex pairs joined by colons, as a hardware address prints. */
  predicate CanonicalMac(s: string) {
    |s| == 17 && forall i | 0 <= i < 17 :: if i % 3 == 2 then s[i] == ':' else HexDigit(s[i])
  }

  predicate AnyHex(c: char) {
    HexDigit(LowerChar(c))
  }

  /** Where digit d of a hardware address is in "0123.4567.89ab". */
  function DottedAt(i: nat): nat {
    var d := 2 * (i / 3) + i % 3;
    d + d / 4
  }

  predicate Paired(s: string) {
    && |s| == 17 && (s[2] == ':' || s[2] == '-')
    && forall i | 0 <= i < 17 :: if i % 3 == 2 then s[i] == s[2] else AnyHex(s[i])
  }

  /** A six-octet hardware address, read in any of its forms and written canonically: six
      pairs apart by colons or by dashes, or three fours apart by dots, in either case. */
  function ParseMac(s: string): Option<string> {
    if Paired(s) then
      Some(seq(17, i requires 0 <= i < 17 => if i % 3 == 2 then ':' else LowerChar(s[i])))
    else if |s| == 14 && forall i | 0 <= i < 14 :: if i % 5 == 4 then s[i] == '.' else AnyHex(s[i]) then
      Some(seq(17, i requires 0 <= i < 17 => if i % 3 == 2 then ':' else LowerChar(s[DottedAt(i)])))
    else None
  }

  /** What is read is canonical, and what is canonical reads as itself. */
  lemma ParseMacCanonical(s: string)
    ensures ParseMac(s).Some? ==> CanonicalMac(ParseMac(s).value)
    ensures CanonicalMac(s) ==> ParseMac(s) == Some(s)
  {
    if CanonicalMac(s) {
      assert s[2] == ':';
      forall i | 0 <= i < 17 ensures if i % 3 == 2 then s[i] == s[2] else AnyHex(s[i]) && LowerChar(s[i]) == s[i] {
      }
      assert ParseMac(s).value == s;
    }
    if |s| == 14 {
      forall i | 0 <= i < 17 && i % 3 != 2 ensures DottedAt(i) < 14 && DottedAt(i) % 5 != 4 {
        DottedDigit(i);
      }
    }
  }

  lemma DottedDigit(i: nat)
    requires i < 17 && i % 3 != 2
    ensures DottedAt(i) < 14 && DottedAt(i) % 5 != 4
  {
  }

  /** "duid:HEX/iaid:XXXXXXXX" */
  predicate DuidClient(s: string) {
    && |s| >= 23 && (|s| - 19) % 2 == 0 && |s| <= 275
    && s[..5] == "duid:"
    && s[|s| - 14..|s| - 8] == "/iaid:"
    && LowerHex(s[5..|s| - 14]) && LowerHex(s[|s| - 8..])
  }

  function DuidOf(s: string): string
    requires DuidClient(s)
  {
    s[5..|s| - 14]
  }

  function IaidOf(s: string): string
    requires DuidClient(s)
  {
    s[|s| - 8..]
  }

  predicate ValidClient(s: string) {
    if HasPrefix(s, "duid:") then DuidClient(s)
    else if HasPrefix(s, "mac:") then CanonicalMac(s[4..])
    else if HasPrefix(s, "id:") then 2 <= |s| - 3 <= 510 && (|s| - 3) % 2 == 0 && LowerHex(s[3..])
    else false
  }

  lemma ValidClientFree(s: string)
    requires ValidClient(s)
    ensures Free('\0', s) && s != ""
  {
    if HasPrefix(s, "duid:") {
      assert s == s[..5] + s[5..|s| - 14] + s[|s| - 14..|s| - 8] + s[|s| - 8..];
    } else if HasPrefix(s, "mac:") {
      assert s == s[..4] + s[4..];
      assert forall i | 0 <= i < 17 :: s[4..][i] != '\0';
    } else {
      assert s == s[..3] + s[3..];
    }
  }

  lemma ValidNotNeighbor(client: string)
    requires ValidClient(client)
    ensures !HasPrefix(client, "neighbor:")
  {
    HasPrefixStep(client, "neighbor:");
    HasPrefixStep(client, "duid:");
    HasPrefixStep(client, "mac:");
    HasPrefixStep(client, "id:");
  }

  /** A DNS label, as names and identifiers must be. */
  predicate LabelChar(c: char) {
    'a' <= c <= 'z' || '0' <= c <= '9'
  }

  predicate IsLabel(s: string) {
    && 1 <= |s| <= 63 && LabelChar(s[0]) && LabelChar(s[|s| - 1])
    && forall c <- s :: LabelChar(c) || c == '-'
  }

  lemma IsLabelLabel(s: string)
    requires IsLabel(s)
    ensures Label(s)
  {
  }

  datatype Reservation = Reservation(client: string, address: string, device: string)

  /** A declared device: its name and aliases, and the nodes that are it. */
  datatype Device = Device(id: string, name: string, nodeId: string, nodes: set<string>, aliases: set<string>)

  predicate HasNode(d: Device, id: string) {
    id != "" && (d.nodeId == id || id in d.nodes)
  }

  predicate DeclaresNodes(d: Device) {
    d.nodeId != "" || d.nodes != {}
  }

  /** A scope. `pool` lists the canonical texts of the addresses from Start to End in
      numeric order, `spans` tells their texts in any spelling, `delegable` lists the texts
      of the delegable prefixes (none without a delegation pool), and `contains` tells the
      addresses of the subnet. */
  datatype Scope = Scope(
    id: string, is6: bool, server: string, router: string,
    pool: seq<string>, spans: string -> bool, delegable: seq<string>, contains: string -> bool, edges: set<string>,
    leaseSeconds: int, preferredSeconds: int, enabled: bool, reservations: seq<Reservation>)

  /** A parsed host address: its canonical text and its family. */
  datatype Addr = Addr(text: string, is6: bool)

  /** `digest` stands for SHA-256 in hex, `parse` for the address parser on texts without an
      IPv6 zone. */
  datatype Config = Config(scopes: seq<Scope>, devices: seq<Device>, digest: string -> string,
                           parse: string -> Option<Addr>)

  function FindScope(scopes: seq<Scope>, id: string): (r: Option<Scope>)
    ensures r.Some? ==> r.value in scopes && r.value.id == id
    ensures r.None? ==> forall s <- scopes :: s.id != id
  {
    if scopes == [] then None else if scopes[0].id == id then Some(scopes[0]) else FindScope(scopes[1..], id)
  }

  function LookupDevice(devices: seq<Device>, id: string): (r: Option<Device>)
    ensures r.Some? ==> r.value in devices && r.value.id == id
    ensures r.None? ==> forall d <- devices :: d.id != id
  {
    if devices == [] then None else if devices[0].id == id then Some(devices[0]) else LookupDevice(devices[1..], id)
  }

  /** The device a reservation names; validation has checked that there is one. */
  function FindDevice(devices: seq<Device>, id: string): (r: Device)
    ensures (exists d <- devices :: d.id == id) ==> r in devices && r.id == id
  {
    var d := LookupDevice(devices, id);
    if d.Some? then d.value else Device("", "", "", {}, {})
  }

  function FindReservation(rs: seq<Reservation>, client: string, mac: string): (r: Option<Reservation>)
    ensures r.Some? ==> r.value in rs && (r.value.client == client || r.value.client == "mac:" + mac)
    ensures r.None? ==> forall x <- rs :: x.client != client && x.client != "mac:" + mac
  {
    if rs == [] then None
    else if rs[0].client == client || rs[0].client == "mac:" + mac then Some(rs[0])
    else FindReservation(rs[1..], client, mac)
  }

  ghost predicate ValidScope(s: Scope) {
    && Label(s.id)
    && (forall a <- s.pool :: PlainAddress(a) && s.spans(a))
    && (forall x | s.spans(x) :: PlainAddress(x))
    && (forall r <- s.reservations :: PlainAddress(r.address))
    && (forall p <- s.delegable :: '/' in p && Free('\0', p))
    && (forall i, j | 0 <= i < j < |s.delegable| :: s.delegable[i] != s.delegable[j])
    && 60 <= s.leaseSeconds
  }

  ghost predicate ValidConfig(c: Config) {
    && (forall s <- c.scopes ::
          ValidScope(s) && forall r <- s.reservations :: exists d <- c.devices :: d.id == r.device)
    && (forall i, j | 0 <= i < j < |c.scopes| :: c.scopes[i].id != c.scopes[j].id)
    && (forall d <- c.devices :: Label(d.id) && Label(d.name))
    && (forall x :: |c.digest(x)| == 64 && LowerHex(c.digest(x)))
    && (forall x :: c.parse(x).Some? ==> PlainAddress(x) && CanonicalAddr(c, c.parse(x).value))
    && (forall s <- c.scopes :: OneFamily(c, s) && Addressed(c, s))
    && (forall i, j | 0 <= i < j < |c.scopes| :: Separate(c.scopes[i], c.scopes[j]))
  }

  /** An address prints short, and reads back as itself. */
  ghost predicate CanonicalAddr(c: Config, ip: Addr) {
    c.parse(ip.text) == Some(ip) && |ip.text| <= 100 && forall x <- ip.text :: x as int > 32 && x as int < 127
  }

  /** A subnet has addresses of its own family only. */
  ghost predicate OneFamily(c: Config, s: Scope) {
    forall x | c.parse(x).Some? && s.contains(c.parse(x).value.text) :: c.parse(x).value.is6 == s.is6
  }

  /** The canonical spelling of an address. */
  predicate Spelled(c: Config, address: string) {
    c.parse(address).Some? && c.parse(address).value.text == address
  }

  /** The pool is of canonical texts of the subnet, and spanned in every spelling; the
      reservations are of the subnet, in whatever spelling they were written. */
  ghost predicate Addressed(c: Config, s: Scope) {
    && (forall a <- s.pool :: Spelled(c, a) && s.contains(a))
    && (forall x :: s.spans(x) <==> c.parse(x).Some? && c.parse(x).value.text in s.pool)
    && (forall r <- s.reservations :: c.parse(r.address).Some? && s.contains(c.parse(r.address).value.text))
  }

  /** No address is in two subnets. */
  ghost predicate Separate(s: Scope, t: Scope) {
    forall x :: !(s.contains(x) && t.contains(x))
  }

  // ---- Switching scopes off ---------------------------------------------------------------

  predicate AnyEnabled(c: Config) {
    exists i | 0 <= i < |c.scopes| :: c.scopes[i].enabled
  }

  function Off(scopes: seq<Scope>): (r: seq<Scope>)
    ensures |r| == |scopes| && forall i | 0 <= i < |r| :: r[i] == scopes[i].(enabled := false)
  {
    if scopes == [] then [] else [scopes[0].(enabled := false)] + Off(scopes[1..])
  }

  /** disabled: the configuration with every scope switched off. */
  function Disabled(c: Config): (r: Config)
    ensures !AnyEnabled(r)
  {
    c.(scopes := Off(c.scopes))
  }

  lemma DisabledValid(c: Config)
    requires ValidConfig(c)
    ensures ValidConfig(Disabled(c))
  {
    var d := Disabled(c);
    forall s | s in d.scopes
      ensures ValidScope(s) && OneFamily(d, s) && Addressed(d, s)
      ensures forall r <- s.reservations :: exists x <- d.devices :: x.id == r.device
    {
      var i :| 0 <= i < |d.scopes| && d.scopes[i] == s;
      assert c.scopes[i] in c.scopes && ValidScope(c.scopes[i]);
      assert OneFamily(c, c.scopes[i]) && Addressed(c, c.scopes[i]);
    }
    forall i, j | 0 <= i < j < |d.scopes| ensures Separate(d.scopes[i], d.scopes[j]) {
      assert Separate(c.scopes[i], c.scopes[j]);
    }
    forall x | d.parse(x).Some? ensures PlainAddress(x) && CanonicalAddr(d, d.parse(x).value) {
      assert CanonicalAddr(c, c.parse(x).value);
    }
  }

  lemma {:induction false} FindScopeOff(scopes: seq<Scope>, id: string)
    ensures FindScope(Off(scopes), id) ==
              match FindScope(scopes, id) case None => None case Some(s) => Some(s.(enabled := false))
  {
    if scopes != [] { FindScopeOff(scopes[1..], id); }
  }

  /** Scopes have different identifiers, so each is found by its own. */
  lemma {:induction false} FindScopeSelf(scopes: seq<Scope>, i: nat)
    requires i < |scopes| && forall j, k | 0 <= j < k < |scopes| :: scopes[j].id != scopes[k].id
    ensures FindScope(scopes, scopes[i].id) == Some(scopes[i])
  {
    if i > 0 {
      assert forall j, k | 0 <= j < k < |scopes[1..]| :: scopes[1..][j].id != scopes[1..][k].id;
      FindScopeSelf(scopes[1..], i - 1);
    }
  }

  function Take(s: string, n: nat): string {
    if |s| < n then s else s[..n]
  }

  function DeviceId(c: Config, scope: string, client: string): string {
    "device-" + Take(c.digest(scope + "/" + client), 16)
  }

  lemma DeviceIdLabel(c: Config, scope: string, client: string)
    requires ValidConfig(c)
    ensures Label(DeviceId(c, scope, client))
  {
    var h := c.digest(scope + "/" + client);
    assert LowerHex(h);
    assert forall x <- Take(h, 16) :: x in h;
  }
}
