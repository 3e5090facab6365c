/** The dict of `build_substitutions` (lab/render_topo.py:62-147) and the
    contexts of its snippets, as functions of the two subnets, the image tag and
    the files that are pasted in.  Keys are constructors; their texts are proved
    to be distinct names by length and a few characters, so both are dicts, and
    what they hold can be read off by key. */
module LabDict {
  import opened Text
  import opened RenderTopo
  import opened MgmtAddresses

  // ---- The arguments --------------------------------------------------------

  /** Two subnet texts and what `ip_network` reads from them; an empty text
      stands for the default subnet. */
  datatype Subnets = Subnets(subnet: string, base: nat, prefix: nat, subnet6: string, net6: seq<nat>, prefix6: nat) {
    /** The additions below do not overflow, and the texts are such as
        `ip_network` accepts, or empty. */
    predicate Valid() {
      && base + 54 < 0x1_0000_0000 && prefix <= 32
      && IsAddress(net6) && Next(net6).Some? && prefix6 <= 128
      && SubnetChars(subnet) && SubnetChars(subnet6)
    }
  }

  predicate SubnetChars(s: string) {
    forall i | 0 <= i < |s| :: IsHexChar(s[i]) || s[i] == ':' || s[i] == '.' || s[i] == '/'
  }

  predicate Plain(s: string) { '$' !in s && '\n' !in s && '"' !in s }

  datatype Role = Master | Slave

  /** The cEOS image tag and the files that are inlined. */
  datatype Lab = Lab(image: string, nets: Subnets, acl: string, macsec: Role -> string, daemon: Role -> string)

  // ---- Nodes ----------------------------------------------------------------

  /** In the order of `MGMT_HOST_SUFFIXES`. */
  datatype Node = Ceos1 | Ceos2 | Ceos3 | Host1 | Host2 | Host3 | Radius | Syslog | KmeA | KmeB | TestRunner

  function Rank(n: Node): (r: nat)
    ensures r < |MGMT_HOST_SUFFIXES|
  {
    match n
    case Ceos1 => 0
    case Ceos2 => 1
    case Ceos3 => 2
    case Host1 => 3
    case Host2 => 4
    case Host3 => 5
    case Radius => 6
    case Syslog => 7
    case KmeA => 8
    case KmeB => 9
    case TestRunner => 10
  }

  const NODES: seq<Node> := [Ceos1, Ceos2, Ceos3, Host1, Host2, Host3, Radius, Syslog, KmeA, KmeB, TestRunner]

  function NodeName(n: Node): string { MGMT_HOST_SUFFIXES[Rank(n)].0 }

  /** `mgmt_ips_for_subnet` and `mgmt_ipv6_ips_for_subnet`. */
  function Ip(n: Node, s: Subnets): string { Dotted(MgmtIpv4(s.base, NodeSuffix(Rank(n)))) }

  function Ip6(n: Node, s: Subnets): string
    requires s.Valid()
  {
    MgmtIpv6(s.net6, NodeSuffix(Rank(n)))
  }

  function Gateway(s: Subnets): string { Dotted(s.base + 1) }

  function Gateway6(s: Subnets): string
    requires s.Valid()
  {
    Format(Next(s.net6).value)
  }

  /** A node's two texts denote its network addresses plus its suffix in the table,
      the IPv6 one with the digits read as hexadecimal, if there is room. */
  lemma LabAddresses(n: Node, s: Subnets) returns (suffix: nat)
    requires s.Valid()
    ensures (NodeName(n), suffix) in MGMT_HOST_SUFFIXES && ReadDotted(Ip(n, s)) == s.base + suffix
    ensures HasSuffix(Parse(Ip6(n, s)), s.net6, suffix) <==> s.net6[7] == 0
  {
    hide Dotted, Parse, MgmtIpv6, ReadDotted, MgmtAddresses.Value, DigitsAsHex;
    suffix := NodeSuffix(Rank(n));
    assert MGMT_HOST_SUFFIXES[Rank(n)] == (NodeName(n), suffix);
    DottedRoundTrip(s.base + suffix);
    SuffixDigits(Rank(n));
    TwoDigitsExactly(s.net6, suffix);
  }

  /** The gateways' denote the addresses after the networks'. */
  lemma LabGateways(s: Subnets)
    requires s.Valid()
    ensures ReadDotted(Gateway(s)) == s.base + 1
    ensures Parse(Gateway6(s)).Some? && MgmtAddresses.Value(Parse(Gateway6(s)).value) == MgmtAddresses.Value(s.net6) + 1
  {
    hide Dotted, Parse, Format, ReadDotted, MgmtAddresses.Value;
    DottedRoundTrip(s.base + 1);
    GatewayIpv6(s.net6);
  }

  lemma RankDistinct(m: Node, n: Node)
    requires Rank(m) == Rank(n)
    ensures m == n
  {
  }

  /** No two nodes share a text, nor has one the gateway's; over IPv6 if there is
      room. */
  lemma LabAddressesDistinct(m: Node, n: Node, s: Subnets)
    requires s.Valid()
    ensures Ip(n, s) != Gateway(s) && (m != n ==> Ip(m, s) != Ip(n, s))
    ensures s.net6[7] == 0 ==> Ip6(n, s) != Gateway6(s) && (m != n ==> Ip6(m, s) != Ip6(n, s))
  {
    hide Dotted, Parse, MgmtIpv6, ReadDotted, MgmtAddresses.Value, DigitsAsHex, Format;
    var x, y := NodeSuffix(Rank(m)), NodeSuffix(Rank(n));
    DottedRoundTrip(s.base + x);
    DottedRoundTrip(s.base + y);
    SuffixDigits(Rank(n));
    LabGateways(s);
    TwoDigitsExactly(s.net6, y);
    if m != n {
      if Rank(m) == Rank(n) { RankDistinct(m, n); }
      SuffixesDistinct(Rank(m), Rank(n));
      if s.net6[7] == 0 { NodesIpv6(s.net6, Rank(m), Rank(n)); }
    }
  }

  lemma SuffixesDistinct(i: nat, j: nat)
    requires i < |MGMT_HOST_SUFFIXES| && j < |MGMT_HOST_SUFFIXES| && i != j
    ensures NodeSuffix(i) != NodeSuffix(j)
  {
  }

  lemma NodeAddress(n: Node, s: Subnets)
    ensures Ipv4Chars(Ip(n, s)) && '.' in Ip(n, s)
  {
    hide Dotted, Ipv4Chars;
    DottedChars(MgmtIpv4(s.base, NodeSuffix(Rank(n))));
  }

  lemma NodeAddress6(n: Node, s: Subnets)
    requires s.Valid()
    ensures Ipv6Chars(Ip6(n, s))
  {
    hide MgmtIpv6, Ipv6Chars;
    MgmtIpv6Chars(s.net6, NodeSuffix(Rank(n)));
  }

  lemma GatewayAddresses(s: Subnets)
    requires s.Valid()
    ensures Ipv4Chars(Gateway(s)) && Ipv6Chars(Gateway6(s))
  {
    hide Dotted, Format, Ipv4Chars, Ipv6Chars;
    DottedChars(s.base + 1);
    FormatChars(Next(s.net6).value);
  }

  lemma PlainAddresses(n: Node, s: Subnets)
    requires s.Valid()
    ensures Plain(Ip(n, s)) && Plain(Ip6(n, s)) && Plain(Gateway(s)) && Plain(Gateway6(s))
  {
    hide Ip, Ip6, Gateway, Gateway6;
    NodeAddress(n, s);
    NodeAddress6(n, s);
    GatewayAddresses(s);
  }

  lemma PlainNumber(n: nat)
    ensures Plain(Decimal(n))
  {
    hide Decimal;
    DecimalDigits(n);
  }

  // ---- The snippet contexts -------------------------------------------------

  const KME_A_PORT: nat := 8010
  const KME_B_PORT: nat := 8020
  const KME_SAE_ID: string := "25840139-0dd4-49ae-" + "ba1e-b86731601803"
  const KME_B_SAE_ID: string := "c565d5aa-8670-4446-" + "8471-b0e53e315d2a"
  const QUADRA_KEY_RX: string := "0001020304050607" + "08090a0b0c0d0e0f" + "1011121314151617" + "18191a1b1c1d1e1f"
  const QUADRA_KEY_TX: string := "2021222324252627" + "28292a2b2c2d2e2f" + "3031323334353637" + "38393a3b3c3d3e3f"
  const QUADRA_SC_RX_ID: string := "01:02:03:0a:0b:0c::1001"
  const QUADRA_SC_TX_ID: string := "01:02:03:0a:0b:0c::1002"

  datatype CtxKey =
    | APort | BPort | SaeId | BSaeId | KeyRx | KeyTx | ScRxId | ScTxId | IpKmeA | IpKmeB
    | MacsecProfile | MacsecIntf | PeerIp

  const CTX_KEYS: seq<CtxKey> := [
    APort, BPort, SaeId, BSaeId, KeyRx, KeyTx, ScRxId, ScTxId, IpKmeA, IpKmeB, MacsecProfile, MacsecIntf, PeerIp]

  function CtxText(k: CtxKey): string {
    match k
    case APort => "KME_A_PORT"
    case BPort => "KME_B_PORT"
    case SaeId => "KME_SAE_ID"
    case BSaeId => "KME_B_SAE_ID"
    case KeyRx => "QUADRA_KEY_RX"
    case KeyTx => "QUADRA_KEY_TX"
    case ScRxId => "QUADRA_SC_RX_ID"
    case ScTxId => "QUADRA_SC_TX_ID"
    case IpKmeA => "MGMT_IP_KME_A"
    case IpKmeB => "MGMT_IP_KME_B"
    case MacsecProfile => "QUADRA_MACSEC_PROFILE"
    case MacsecIntf => "QUADRA_MACSEC_INTF"
    case PeerIp => "QUADRA_PEER_IP"
  }

  function CtxValue(k: CtxKey, role: Role, s: Subnets): string {
    match k
    case APort => Decimal(KME_A_PORT)
    case BPort => Decimal(KME_B_PORT)
    case SaeId => KME_SAE_ID
    case BSaeId => KME_B_SAE_ID
    case KeyRx => QUADRA_KEY_RX
    case KeyTx => QUADRA_KEY_TX
    case ScRxId => QUADRA_SC_RX_ID
    case ScTxId => QUADRA_SC_TX_ID
    case IpKmeA => Ip(KmeA, s)
    case IpKmeB => Ip(KmeB, s)
    case MacsecProfile => if role.Master? then "quadra-master" else "quadra-slave"
    case MacsecIntf => if role.Master? then "Ethernet2" else "Ethernet1"
    case PeerIp => if role.Master? then "10.255.0.6" else "10.255.0.5"
  }

  /** `quadra_master_ctx` and `quadra_slave_ctx`. */
  function Context(role: Role, s: Subnets): (ctx: seq<(string, string)>)
    ensures |ctx| == |CTX_KEYS|
  {
    seq(|CTX_KEYS|, i requires 0 <= i < |CTX_KEYS| => (CtxText(CTX_KEYS[i]), CtxValue(CTX_KEYS[i], role, s)))
  }

  // ---- The dict -------------------------------------------------------------

  datatype Key =
    | CeosImage | MgmtSubnet | MgmtGateway | MgmtPrefix | MgmtIpv6Subnet | MgmtIpv6Gateway | MgmtIpv6Prefix
    | NodeIp(node: Node) | NodeIpv6(node: Node)
    | SaeClientIps | RadiusServerIp | SyslogIpv4 | SyslogIpv6 | ControlPlaneAcl
    | QuadraMacsec(role: Role) | QuadraDaemon(role: Role)

  function NodeKey(n: Node): string {
    match n
    case Ceos1 => "CEOS1_BOTH"
    case Ceos2 => "CEOS2_PQC"
    case Ceos3 => "CEOS3_QKD"
    case Host1 => "HOST1"
    case Host2 => "HOST2"
    case Host3 => "HOST3"
    case Radius => "RADIUS"
    case Syslog => "SYSLOG"
    case KmeA => "KME_A"
    case KmeB => "KME_B"
    case TestRunner => "TEST_RUNNER"
  }

  /** In capitals, with underscores. */
  function KeyChar(c: char): char { if c == '-' then '_' else if 'a' <= c <= 'z' then c - 32 as char else c }

  /** A node's key is its name in that form. */
  lemma KeyOfName(n: Node)
    ensures |NodeKey(n)| == |NodeName(n)| && forall i | 0 <= i < |NodeName(n)| :: NodeKey(n)[i] == KeyChar(NodeName(n)[i])
  {
  }

  function KeyText(k: Key): string {
    match k
    case CeosImage => "CEOS_IMAGE"
    case MgmtSubnet => "MGMT_SUBNET"
    case MgmtGateway => "MGMT_GATEWAY"
    case MgmtPrefix => "MGMT_PREFIX"
    case MgmtIpv6Subnet => "MGMT_IPV6_SUBNET"
    case MgmtIpv6Gateway => "MGMT_IPV6_GATEWAY"
    case MgmtIpv6Prefix => "MGMT_IPV6_PREFIX"
    case NodeIp(n) => "MGMT_IP_" + NodeKey(n)
    case NodeIpv6(n) => "MGMT_IPV6_" + NodeKey(n)
    case SaeClientIps => "KME_SAE_CLIENT_IPS"
    case RadiusServerIp => "RADIUS_SERVER_IP"
    case SyslogIpv4 => "SYSLOG_SERVER_IPV4"
    case SyslogIpv6 => "SYSLOG_SERVER_IPV6"
    case ControlPlaneAcl => "CONTROL_PLANE_ACL"
    case QuadraMacsec(role) => if role.Master? then "QUADRA_MACSEC_MASTER" else "QUADRA_MACSEC_SLAVE"
    case QuadraDaemon(role) => if role.Master? then "QUADRA_DAEMON_MASTER" else "QUADRA_DAEMON_SLAVE"
  }

  /** `KME_SAE_CLIENT_NODES`. */
  const SAE_CLIENTS: seq<Node> := [KmeA, Ceos1, Ceos3]

  function IpsOf(nodes: seq<Node>, s: Subnets): (ips: seq<string>)
    ensures |ips| == |nodes| && forall i | 0 <= i < |nodes| :: ips[i] == Ip(nodes[i], s)
  {
    seq(|nodes|, i requires 0 <= i < |nodes| => Ip(nodes[i], s))
  }

  function Ips6Of(nodes: seq<Node>, s: Subnets): (ips: seq<string>)
    requires s.Valid()
    ensures |ips| == |nodes| && forall i | 0 <= i < |nodes| :: ips[i] == Ip6(nodes[i], s)
  {
    seq(|nodes|, i requires 0 <= i < |nodes| => Ip6(nodes[i], s))
  }

  function Snippet(raw: string, role: Role, s: Subnets): string {
    StripNewlines(Fold(raw, Context(role, s)))
  }

  function Value(k: Key, lab: Lab): string
    requires lab.nets.Valid()
  {
    match k
    case CeosImage => lab.image
    case MgmtSubnet => lab.nets.subnet
    case MgmtGateway => Gateway(lab.nets)
    case MgmtPrefix => Decimal(lab.nets.prefix)
    case MgmtIpv6Subnet => lab.nets.subnet6
    case MgmtIpv6Gateway => Gateway6(lab.nets)
    case MgmtIpv6Prefix => Decimal(lab.nets.prefix6)
    case NodeIp(n) => Ip(n, lab.nets)
    case NodeIpv6(n) => Ip6(n, lab.nets)
    case SaeClientIps => Join(IpsOf(SAE_CLIENTS, lab.nets) + Ips6Of(SAE_CLIENTS, lab.nets), ',')
    case RadiusServerIp => Ip6(Radius, lab.nets)
    case SyslogIpv4 => Ip(Syslog, lab.nets)
    case SyslogIpv6 => Ip6(Syslog, lab.nets)
    case ControlPlaneAcl => StripNewlines(lab.acl)
    case QuadraMacsec(role) => Snippet(lab.macsec(role), role, lab.nets)
    case QuadraDaemon(role) => Snippet(lab.daemon(role), role, lab.nets)
  }

  const HEAD_KEYS: seq<Key> := [
    CeosImage, MgmtSubnet, MgmtGateway, MgmtPrefix, MgmtIpv6Subnet, MgmtIpv6Gateway, MgmtIpv6Prefix]
  const TAIL_KEYS: seq<Key> := [
    SaeClientIps, RadiusServerIp, SyslogIpv4, SyslogIpv6, ControlPlaneAcl,
    QuadraMacsec(Master), QuadraMacsec(Slave), QuadraDaemon(Master), QuadraDaemon(Slave)]

  /** The keys of the dict literal, in its order. */
  function KeyAt(i: nat): Key
    requires i < 38
  {
    if i < 7 then HEAD_KEYS[i]
    else if i < 18 then NodeIp(NODES[i - 7])
    else if i < 29 then NodeIpv6(NODES[i - 18])
    else TAIL_KEYS[i - 29]
  }

  function Place(k: Key): (i: nat)
    ensures i < 38
  {
    match k
    case CeosImage => 0
    case MgmtSubnet => 1
    case MgmtGateway => 2
    case MgmtPrefix => 3
    case MgmtIpv6Subnet => 4
    case MgmtIpv6Gateway => 5
    case MgmtIpv6Prefix => 6
    case NodeIp(n) => 7 + Rank(n)
    case NodeIpv6(n) => 18 + Rank(n)
    case SaeClientIps => 29
    case RadiusServerIp => 30
    case SyslogIpv4 => 31
    case SyslogIpv6 => 32
    case ControlPlaneAcl => 33
    case QuadraMacsec(role) => if role.Master? then 34 else 35
    case QuadraDaemon(role) => if role.Master? then 36 else 37
  }

  function Dict(lab: Lab): (subs: seq<(string, string)>)
    requires lab.nets.Valid()
    ensures |subs| == 38
    ensures forall i | 0 <= i < 38 :: subs[i] == (KeyText(KeyAt(i)), Value(KeyAt(i), lab))
  {
    seq(38, i requires 0 <= i < 38 => (KeyText(KeyAt(i)), Value(KeyAt(i), lab)))
  }

  // ---- The keys are distinct names ------------------------------------------

  /** Length, eighth and last character tell the names apart. */
  function Tag(s: string): (nat, char, char)
    requires |s| > 7
  {
    (|s|, s[7], s[|s| - 1])
  }

  function NodeTag(n: Node): (nat, char) {
    match n
    case Ceos1 => (10, 'H')
    case Ceos2 => (9, 'C')
    case Ceos3 => (9, 'D')
    case Host1 => (5, '1')
    case Host2 => (5, '2')
    case Host3 => (5, '3')
    case Radius => (6, 'S')
    case Syslog => (6, 'G')
    case KmeA => (5, 'A')
    case KmeB => (5, 'B')
    case TestRunner => (11, 'R')
  }

  function KeyTag(k: Key): (nat, char, char) {
    match k
    case CeosImage => (10, 'A', 'E')
    case MgmtSubnet => (11, 'B', 'T')
    case MgmtGateway => (12, 'T', 'Y')
    case MgmtPrefix => (11, 'E', 'X')
    case MgmtIpv6Subnet => (16, 'V', 'T')
    case MgmtIpv6Gateway => (17, 'V', 'Y')
    case MgmtIpv6Prefix => (16, 'V', 'X')
    case NodeIp(n) => (8 + NodeTag(n).0, '_', NodeTag(n).1)
    case NodeIpv6(n) => (10 + NodeTag(n).0, 'V', NodeTag(n).1)
    case SaeClientIps => (18, '_', 'S')
    case RadiusServerIp => (16, 'S', 'P')
    case SyslogIpv4 => (18, 'S', '4')
    case SyslogIpv6 => (18, 'S', '6')
    case ControlPlaneAcl => (17, '_', 'L')
    case QuadraMacsec(role) => if role.Master? then (20, 'M', 'R') else (19, 'M', 'E')
    case QuadraDaemon(role) => if role.Master? then (20, 'D', 'R') else (19, 'D', 'E')
  }

  lemma NodeKeyTag(n: Node)
    ensures IsName(NodeKey(n)) && (|NodeKey(n)|, NodeKey(n)[|NodeKey(n)| - 1]) == NodeTag(n)
  {
  }

  lemma NodeNames(n: Node)
    ensures IsName(KeyText(NodeIp(n))) && |KeyText(NodeIp(n))| > 7 && Tag(KeyText(NodeIp(n))) == KeyTag(NodeIp(n))
    ensures IsName(KeyText(NodeIpv6(n))) && |KeyText(NodeIpv6(n))| > 7 && Tag(KeyText(NodeIpv6(n))) == KeyTag(NodeIpv6(n))
  {
    hide NodeKey;
    NodeKeyTag(n);
  }

  lemma ManagementNames(k: Key)
    requires Place(k) < 7
    ensures IsName(KeyText(k)) && |KeyText(k)| > 7 && Tag(KeyText(k)) == KeyTag(k)
  {
  }

  lemma ServerNames(k: Key)
    requires k.RadiusServerIp? || k.SyslogIpv4? || k.SyslogIpv6?
    ensures IsName(KeyText(k)) && |KeyText(k)| > 7 && Tag(KeyText(k)) == KeyTag(k)
  {
  }

  lemma OtherNames(k: Key)
    requires k.SaeClientIps? || k.ControlPlaneAcl?
    ensures IsName(KeyText(k)) && |KeyText(k)| > 7 && Tag(KeyText(k)) == KeyTag(k)
  {
  }

  lemma SnippetNames(k: Key)
    requires k.QuadraMacsec? || k.QuadraDaemon?
    ensures IsName(KeyText(k)) && |KeyText(k)| > 7 && Tag(KeyText(k)) == KeyTag(k)
  {
  }

  lemma KeyNames(k: Key)
    ensures IsName(KeyText(k)) && |KeyText(k)| > 7 && Tag(KeyText(k)) == KeyTag(k)
  {
    hide KeyText, IsName, Tag, KeyTag;
    match k
    case NodeIp(n) => NodeNames(n);
    case NodeIpv6(n) => NodeNames(n);
    case QuadraMacsec(_) | QuadraDaemon(_) => SnippetNames(k);
    case RadiusServerIp | SyslogIpv4 | SyslogIpv6 => ServerNames(k);
    case SaeClientIps | ControlPlaneAcl => OtherNames(k);
    case _ => ManagementNames(k);
  }

  lemma KeyTextInjective(a: Key, b: Key)
    requires KeyText(a) == KeyText(b)
    ensures a == b
  {
    hide KeyText;
    KeyNames(a);
    KeyNames(b);
  }

  lemma PlaceOfKey(k: Key)
    ensures KeyAt(Place(k)) == k
  {
  }

  lemma KeyOfPlace(i: nat)
    requires i < 38
    ensures Place(KeyAt(i)) == i
  {
  }

  lemma DictIsDict(lab: Lab)
    requires lab.nets.Valid()
    ensures IsDict(Dict(lab)) && PlainKeys(Dict(lab))
  {
    hide Value, KeyText, KeyAt;
    forall i, j | 0 <= i < j < 38 ensures KeyText(KeyAt(i)) != KeyText(KeyAt(j)) {
      KeyOfPlace(i);
      KeyOfPlace(j);
      if KeyText(KeyAt(i)) == KeyText(KeyAt(j)) { KeyTextInjective(KeyAt(i), KeyAt(j)); }
    }
    forall i | 0 <= i < 38 ensures '}' !in KeyText(KeyAt(i)) { KeyNames(KeyAt(i)); }
  }

  /** What the dict holds, by key. */
  lemma DictHolds(k: Key, lab: Lab)
    requires lab.nets.Valid()
    ensures KeyText(k) in ToMap(Dict(lab)) && ToMap(Dict(lab))[KeyText(k)] == Value(k, lab)
  {
    hide Value, KeyText, ToMap, KeyAt;
    DictIsDict(lab);
    PlaceOfKey(k);
    assert Dict(lab)[Place(k)] == (KeyText(k), Value(k, lab));
    ItemToMap(Dict(lab), KeyText(k), Value(k, lab));
  }

  // ---- The contexts are dicts too -------------------------------------------

  function CtxTag(k: CtxKey): (nat, char, char, char, char) {
    match k
    case APort => (10, 'A', '_', 'R', 'T')
    case BPort => (10, 'B', '_', 'R', 'T')
    case SaeId => (10, 'S', 'A', 'I', 'D')
    case BSaeId => (12, 'B', 'A', 'I', 'D')
    case KeyRx => (13, 'R', 'E', 'R', 'X')
    case KeyTx => (13, 'R', 'E', 'T', 'X')
    case ScRxId => (15, 'R', 'R', 'I', 'D')
    case ScTxId => (15, 'R', 'T', 'I', 'D')
    case IpKmeA => (13, '_', 'K', '_', 'A')
    case IpKmeB => (13, '_', 'K', '_', 'B')
    case MacsecProfile => (21, 'R', 'O', 'L', 'E')
    case MacsecIntf => (18, 'R', '_', 'T', 'F')
    case PeerIp => (14, 'R', 'E', 'I', 'P')
  }

  function TagOf(s: string): (nat, char, char, char, char)
    requires |s| > 7
  {
    (|s|, s[4], s[|s| - 5], s[|s| - 2], s[|s| - 1])
  }

  function CtxRank(k: CtxKey): (i: nat)
    ensures i < 13
  {
    match k
    case APort => 0
    case BPort => 1
    case SaeId => 2
    case BSaeId => 3
    case KeyRx => 4
    case KeyTx => 5
    case ScRxId => 6
    case ScTxId => 7
    case IpKmeA => 8
    case IpKmeB => 9
    case MacsecProfile => 10
    case MacsecIntf => 11
    case PeerIp => 12
  }

  lemma KmeNames(k: CtxKey)
    requires CtxRank(k) < 4
    ensures IsName(CtxText(k)) && |CtxText(k)| > 7 && TagOf(CtxText(k)) == CtxTag(k)
  {
  }

  lemma ChannelNames(k: CtxKey)
    requires 4 <= CtxRank(k) < 8
    ensures IsName(CtxText(k)) && |CtxText(k)| > 7 && TagOf(CtxText(k)) == CtxTag(k)
  {
  }

  lemma RoleNames(k: CtxKey)
    requires 8 <= CtxRank(k)
    ensures IsName(CtxText(k)) && |CtxText(k)| > 7 && TagOf(CtxText(k)) == CtxTag(k)
  {
  }

  lemma CtxNames(k: CtxKey)
    ensures IsName(CtxText(k)) && |CtxText(k)| > 7 && TagOf(CtxText(k)) == CtxTag(k)
  {
    hide CtxText, IsName, TagOf, CtxTag;
    if CtxRank(k) < 4 { KmeNames(k); } else if CtxRank(k) < 8 { ChannelNames(k); } else { RoleNames(k); }
  }

  lemma CtxRanks(k: CtxKey, i: nat)
    requires i < 13
    ensures CTX_KEYS[CtxRank(k)] == k && CtxRank(CTX_KEYS[i]) == i
  {
  }

  lemma ContextIsDict(role: Role, s: Subnets)
    ensures IsDict(Context(role, s)) && PlainKeys(Context(role, s))
  {
    hide CtxValue, CtxText, CtxRank;
    forall i, j | 0 <= i < j < 13 ensures CtxText(CTX_KEYS[i]) != CtxText(CTX_KEYS[j]) {
      CtxRanks(CTX_KEYS[i], i);
      CtxRanks(CTX_KEYS[j], j);
      CtxNames(CTX_KEYS[i]);
      CtxNames(CTX_KEYS[j]);
    }
    forall i | 0 <= i < 13 ensures '}' !in CtxText(CTX_KEYS[i]) { CtxNames(CTX_KEYS[i]); }
  }

  lemma ContextHolds(k: CtxKey, role: Role, s: Subnets)
    ensures CtxText(k) in ToMap(Context(role, s)) && ToMap(Context(role, s))[CtxText(k)] == CtxValue(k, role, s)
  {
    hide CtxValue, CtxText, ToMap, CtxRank;
    ContextIsDict(role, s);
    CtxRanks(k, 0);
    assert Context(role, s)[CtxRank(k)] == (CtxText(k), CtxValue(k, role, s));
    ItemToMap(Context(role, s), CtxText(k), CtxValue(k, role, s));
  }

  lemma PlainSaeId()
    ensures '$' !in KME_SAE_ID
  {
  }

  lemma PlainBSaeId()
    ensures '$' !in KME_B_SAE_ID
  {
  }

  lemma PlainRxKey()
    ensures '$' !in QUADRA_KEY_RX
  {
  }

  lemma PlainTxKey()
    ensures '$' !in QUADRA_KEY_TX
  {
  }

  lemma PlainChannels()
    ensures '$' !in QUADRA_SC_RX_ID && '$' !in QUADRA_SC_TX_ID
  {
  }

  lemma PlainCtxValue(k: CtxKey, role: Role, s: Subnets)
    ensures '$' !in CtxValue(k, role, s)
  {
    hide Ip, Decimal;
    match k
    case APort => PlainNumber(KME_A_PORT);
    case BPort => PlainNumber(KME_B_PORT);
    case SaeId => PlainSaeId();
    case BSaeId => PlainBSaeId();
    case KeyRx => PlainRxKey();
    case KeyTx => PlainTxKey();
    case ScRxId | ScTxId => PlainChannels();
    case IpKmeA => NodeAddress(KmeA, s);
    case IpKmeB => NodeAddress(KmeB, s);
    case _ =>
  }

  lemma ContextPlain(role: Role, s: Subnets)
    ensures PlainValues(Context(role, s))
  {
    hide CtxValue, CtxText;
    ContextIsDict(role, s);
    forall i | 0 <= i < 13 ensures '$' !in CtxValue(CTX_KEYS[i], role, s) { PlainCtxValue(CTX_KEYS[i], role, s); }
  }

  // ---- The dict's values are plain ------------------------------------------

  /** A snippet that uses only names of its context. */
  predicate GoodSnippet(raw: string) {
    Clean(raw) && Names(raw) <= (set k: CtxKey | k in CTX_KEYS :: CtxText(k))
  }

  lemma {:induction false} ToMapKeys(subs: seq<(string, string)>, n: string)
    ensures n in ToMap(subs) <==> exists i :: 0 <= i < |subs| && subs[i].0 == n
  {
  }

  lemma SnippetKnown(raw: string, role: Role, s: Subnets)
    requires GoodSnippet(raw)
    ensures Names(raw) <= ToMap(Context(role, s)).Keys
  {
    hide ToMap, CtxText, Names;
    forall n | n in Names(raw) ensures n in ToMap(Context(role, s)) {
      var k: CtxKey :| k in CTX_KEYS && n == CtxText(k);
      ContextHolds(k, role, s);
    }
  }

  /** What a snippet contributes: its expansion, stripped, with no `$` left. */
  lemma SnippetText(raw: string, role: Role, s: Subnets)
    requires GoodSnippet(raw)
    ensures Snippet(raw, role, s) == StripNewlines(Expand(raw, ToMap(Context(role, s))))
    ensures '$' !in Snippet(raw, role, s)
  {
    hide ToMap, Names, Expand, Fold, PlainValues;
    var ctx := Context(role, s);
    ContextIsDict(role, s);
    ContextPlain(role, s);
    PlainUntangled(ctx);
    FoldIsExpand(raw, ctx);
    SnippetKnown(raw, role, s);
    ToMapPlain(ctx);
    var one := map["" := raw];
    StrippedPlain(one, ToMap(ctx));
    assert "" in one && one[""] == raw;
  }

  /** The files and the image tag that are pasted in. */
  ghost predicate ValidLab(lab: Lab) {
    && lab.nets.Valid() && Plain(lab.image) && '$' !in lab.acl
    && forall role: Role :: GoodSnippet(lab.macsec(role)) && GoodSnippet(lab.daemon(role))
  }

  predicate AllPlain(parts: seq<string>) { forall i | 0 <= i < |parts| :: Plain(parts[i]) }

  lemma {:induction false} JoinPlain(parts: seq<string>)
    requires parts != [] && AllPlain(parts)
    ensures Plain(Join(parts, ','))
  {
    if |parts| > 1 { JoinPlain(parts[1..]); }
  }

  lemma IpsPlain(nodes: seq<Node>, s: Subnets)
    requires s.Valid()
    ensures AllPlain(IpsOf(nodes, s)) && AllPlain(Ips6Of(nodes, s))
  {
    hide Ip, Ip6, Plain;
    forall i | 0 <= i < |nodes| ensures Plain(Ip(nodes[i], s)) && Plain(Ip6(nodes[i], s)) {
      PlainAddresses(nodes[i], s);
    }
  }

  lemma ClientsPlain(nodes: seq<Node>, s: Subnets)
    requires s.Valid() && nodes != []
    ensures Plain(Join(IpsOf(nodes, s) + Ips6Of(nodes, s), ','))
  {
    hide Ip, Ip6, Plain;
    IpsPlain(nodes, s);
    JoinPlain(IpsOf(nodes, s) + Ips6Of(nodes, s));
  }

  lemma StrippedIsPart(s: string)
    requires '$' !in s
    ensures '$' !in StripNewlines(s)
  {
    assert forall i | 0 <= i < |StripNewlines(s)| :: StripNewlines(s)[i] == s[i] && s[i] in s;
  }

  /** The keys whose values are one line: all but the inlined files. */
  predicate OneLine(k: Key) { !k.ControlPlaneAcl? && !k.QuadraMacsec? && !k.QuadraDaemon? }

  lemma PlainValue(k: Key, lab: Lab)
    requires ValidLab(lab)
    ensures '$' !in Value(k, lab) && (OneLine(k) ==> Plain(Value(k, lab)))
  {
    hide Value, Plain, ValidLab;
    match k
    case NodeIp(_) | NodeIpv6(_) | RadiusServerIp | SyslogIpv4 | SyslogIpv6 => PlainNodeValue(k, lab);
    case SaeClientIps | ControlPlaneAcl | QuadraMacsec(_) | QuadraDaemon(_) => PlainPastedValue(k, lab);
    case _ => PlainNetValue(k, lab);
  }

  lemma PlainNodeValue(k: Key, lab: Lab)
    requires ValidLab(lab) && (k.NodeIp? || k.NodeIpv6? || k.RadiusServerIp? || k.SyslogIpv4? || k.SyslogIpv6?)
    ensures lab.nets.Valid() && Plain(Value(k, lab)) && '$' !in Value(k, lab)
  {
    hide Ip, Ip6, GoodSnippet;
    match k
    case NodeIp(n) => PlainAddresses(n, lab.nets);
    case NodeIpv6(n) => PlainAddresses(n, lab.nets);
    case RadiusServerIp => PlainAddresses(Radius, lab.nets);
    case _ => PlainAddresses(Syslog, lab.nets);
  }

  lemma PlainPastedValue(k: Key, lab: Lab)
    requires ValidLab(lab) && (k.SaeClientIps? || k.ControlPlaneAcl? || k.QuadraMacsec? || k.QuadraDaemon?)
    ensures lab.nets.Valid() && '$' !in Value(k, lab) && (k.SaeClientIps? ==> Plain(Value(k, lab)))
  {
    hide *;
    NetsOf(lab);
    PastedValue(k, lab);
    match k
    case SaeClientIps => PlainClients(lab.nets);
    case ControlPlaneAcl => StrippedIsPart(lab.acl);
    case QuadraMacsec(role) => SnippetText(lab.macsec(role), role, lab.nets);
    case QuadraDaemon(role) => SnippetText(lab.daemon(role), role, lab.nets);
  }

  lemma PlainClients(s: Subnets)
    requires s.Valid()
    ensures var v := Join(IpsOf(SAE_CLIENTS, s) + Ips6Of(SAE_CLIENTS, s), ','); '$' !in v && Plain(v)
  {
    hide IpsOf, Ips6Of, Join;
    ClientsPlain(SAE_CLIENTS, s);
  }

  lemma PastedValue(k: Key, lab: Lab)
    requires ValidLab(lab)
    ensures lab.nets.Valid() && '$' !in lab.acl
    ensures forall role: Role :: GoodSnippet(lab.macsec(role)) && GoodSnippet(lab.daemon(role))
    ensures match k
      case SaeClientIps => Value(k, lab) == Join(IpsOf(SAE_CLIENTS, lab.nets) + Ips6Of(SAE_CLIENTS, lab.nets), ',')
      case ControlPlaneAcl => Value(k, lab) == StripNewlines(lab.acl)
      case QuadraMacsec(role) => Value(k, lab) == Snippet(lab.macsec(role), role, lab.nets)
      case QuadraDaemon(role) => Value(k, lab) == Snippet(lab.daemon(role), role, lab.nets)
      case _ => true
  {
    hide GoodSnippet, Snippet, StripNewlines, IpsOf, Ips6Of, Join;
  }

  lemma PlainNetValue(k: Key, lab: Lab)
    requires ValidLab(lab) && (k.CeosImage? || k.MgmtSubnet? || k.MgmtGateway? || k.MgmtPrefix?
                               || k.MgmtIpv6Subnet? || k.MgmtIpv6Gateway? || k.MgmtIpv6Prefix?)
    ensures lab.nets.Valid() && Plain(Value(k, lab)) && '$' !in Value(k, lab)
  {
    hide Gateway, Gateway6, Decimal, GoodSnippet;
    match k
    case MgmtGateway | MgmtIpv6Gateway => PlainAddresses(Radius, lab.nets);
    case MgmtPrefix => PlainNumber(lab.nets.prefix);
    case MgmtIpv6Prefix => PlainNumber(lab.nets.prefix6);
    case _ =>
  }

  lemma DictPlain(lab: Lab)
    requires ValidLab(lab)
    ensures IsDict(Dict(lab)) && PlainValues(Dict(lab))
  {
    hide Value, KeyText, KeyAt;
    DictIsDict(lab);
    forall i | 0 <= i < 38 ensures '$' !in Value(KeyAt(i), lab) { PlainValue(KeyAt(i), lab); }
  }

  /** Every placeholder of a template is a key of the dict. */
  ghost predicate Known(t: string) {
    forall n | n in Names(t) :: exists k: Key :: n == KeyText(k)
  }

  /** A clean template with known names renders to its expansion, whatever the
      subnets; any other name makes the code fail and is reported. */
  lemma DictRenders(t: string, lab: Lab)
    requires Clean(t) && ValidLab(lab)
    ensures var r := Outcome(Fold(t, Dict(lab)));
            if Known(t) then r == Ok(Expand(t, ToMap(Dict(lab))))
            else r.Unresolved? && forall n :: n in r.names <==> n in Names(t) && !exists k: Key :: n == KeyText(k)
  {
    hide Value, KeyText, ToMap, Names, Fold, Expand, Clean, PlainValues;
    DictPlain(lab);
    FoldMeaning(t, Dict(lab));
    forall n ensures n in ToMap(Dict(lab)) <==> exists k: Key :: n == KeyText(k) {
      ToMapKeys(Dict(lab), n);
      if k: Key :| n == KeyText(k) { DictHolds(k, lab); }
    }
  }

  lemma SharedKey(k: Key, c: CtxKey)
    requires KeyText(k) == CtxText(c)
    ensures (c.IpKmeA? && k == NodeIp(KmeA)) || (c.IpKmeB? && k == NodeIp(KmeB))
  {
    hide KeyText, CtxText, IsName;
    KeyNames(k);
    CtxNames(c);
  }

  /** A snippet's context and the dict agree on the names they share, as the
      two-stage theorem of RenderTopo asks. */
  lemma ContextAgrees(lab: Lab, role: Role)
    requires lab.nets.Valid()
    ensures Agree(ToMap(Dict(lab)), ToMap(Context(role, lab.nets)))
  {
    hide KeyText, CtxText, ToMap, Value, CtxValue;
    var base, ctx := ToMap(Dict(lab)), ToMap(Context(role, lab.nets));
    forall n | n in base && n in ctx ensures base[n] == ctx[n] {
      ToMapKeys(Dict(lab), n);
      ToMapKeys(Context(role, lab.nets), n);
      var i :| 0 <= i < 38 && Dict(lab)[i].0 == n;
      var j :| 0 <= j < |CTX_KEYS| && Context(role, lab.nets)[j].0 == n;
      SharedKey(KeyAt(i), CTX_KEYS[j]);
      DictHolds(KeyAt(i), lab);
      ContextHolds(CTX_KEYS[j], role, lab.nets);
      SharedValue(KeyAt(i), CTX_KEYS[j], lab, role);
    }
  }

  lemma SharedValue(k: Key, c: CtxKey, lab: Lab, role: Role)
    requires lab.nets.Valid() && ((c.IpKmeA? && k == NodeIp(KmeA)) || (c.IpKmeB? && k == NodeIp(KmeB)))
    ensures Value(k, lab) == CtxValue(c, role, lab.nets)
  {
  }

  // ---- A switch's snippets in one stage -------------------------------------

  function SnippetKeys(role: Role): set<string> { {KeyText(QuadraMacsec(role)), KeyText(QuadraDaemon(role))} }

  /** The raw snippets of one role. */
  function Raws(lab: Lab, role: Role): map<string, string> {
    map[KeyText(QuadraMacsec(role)) := lab.macsec(role), KeyText(QuadraDaemon(role)) := lab.daemon(role)]
  }

  function Without(subs: seq<(string, string)>, ks: set<string>): seq<(string, string)> {
    if subs == [] then []
    else
      var last := subs[|subs| - 1];
      Without(subs[..|subs| - 1], ks) + if last.0 in ks then [] else [last]
  }

  lemma ToMapSnoc(subs: seq<(string, string)>, x: (string, string))
    ensures ToMap(subs + [x]) == ToMap(subs)[x.0 := x.1]
  {
    assert (subs + [x])[..|subs + [x]| - 1] == subs;
  }

  lemma RemoveAfter(m: map<string, string>, k: string, v: string, ks: set<string>)
    ensures m[k := v] - ks == if k in ks then m - ks else (m - ks)[k := v]
  {
  }

  lemma {:induction false} WithoutMap(subs: seq<(string, string)>, ks: set<string>)
    ensures ToMap(Without(subs, ks)) == ToMap(subs) - ks
  {
    hide ToMap;
    if subs == [] {
      NoMap(ks);
    } else {
      var init, last := subs[..|subs| - 1], subs[|subs| - 1];
      WithoutMap(init, ks);
      assert subs == init + [last];
      ToMapSnoc(init, last);
      ToMapSnoc(Without(init, ks), last);
      RemoveAfter(ToMap(init), last.0, last.1, ks);
      assert Without(init, ks) + [] == Without(init, ks);
    }
  }

  lemma NoMap(ks: set<string>)
    ensures ToMap([]) == ToMap([]) - ks
  {
  }

  lemma {:induction false} WithoutIn(subs: seq<(string, string)>, ks: set<string>, x: (string, string))
    ensures x in Without(subs, ks) <==> x in subs && x.0 !in ks
  {
    if subs != [] {
      var init, last := subs[..|subs| - 1], subs[|subs| - 1];
      WithoutIn(init, ks, x);
      assert subs == init + [last];
    }
  }

  lemma LastIsNew(init: seq<(string, string)>, last: (string, string), x: (string, string))
    requires IsDict(init + [last]) && x in init
    ensures x.0 != last.0 && IsDict(init)
  {
    var j :| 0 <= j < |init| && init[j] == x;
    assert (init + [last])[j] == x && (init + [last])[|init|] == last;
    assert forall i | 0 <= i < |init| :: (init + [last])[i] == init[i];
  }

  lemma {:induction false} WithoutDict(subs: seq<(string, string)>, ks: set<string>)
    requires IsDict(subs)
    ensures IsDict(Without(subs, ks))
  {
    if subs != [] {
      var init, last := subs[..|subs| - 1], subs[|subs| - 1];
      WithoutDict(init, ks);
      var w := Without(init, ks);
      assert subs == init + [last];
      hide Without;
      forall i | 0 <= i < |w| ensures w[i].0 != last.0 {
        WithoutIn(init, ks, w[i]);
        LastIsNew(init, last, w[i]);
      }
      AddToDict(w, last);
      WithoutLast(subs, ks);
    }
  }

  lemma AddToDict(w: seq<(string, string)>, x: (string, string))
    requires IsDict(w) && forall i | 0 <= i < |w| :: w[i].0 != x.0
    ensures IsDict(w + [x])
  {
  }

  lemma WithoutLast(subs: seq<(string, string)>, ks: set<string>)
    requires subs != []
    ensures var w := Without(subs[..|subs| - 1], ks);
      Without(subs, ks) == w || Without(subs, ks) == w + [subs[|subs| - 1]]
  {
    var w := Without(subs[..|subs| - 1], ks);
    assert w + [] == w;
  }

  lemma WithoutItems(subs: seq<(string, string)>, ks: set<string>)
    requires IsDict(subs) && PlainValues(subs)
    ensures IsDict(Without(subs, ks)) && PlainValues(Without(subs, ks))
    ensures forall i | 0 <= i < |Without(subs, ks)| :: Without(subs, ks)[i].0 !in ks
  {
    hide Without;
    WithoutDict(subs, ks);
    var w := Without(subs, ks);
    forall i | 0 <= i < |w| ensures w[i].0 !in ks && '$' !in w[i].1 && '}' !in w[i].0 { WithoutIn(subs, ks, w[i]); }
  }

  /** One dict for the template with a role's snippets pasted in raw: the role's
      context, and the other entries of the lab's dict. */
  function OneDict(lab: Lab, role: Role): seq<(string, string)>
    requires lab.nets.Valid()
  {
    Without(Dict(lab), SnippetKeys(role) + ToMap(Context(role, lab.nets)).Keys) + Context(role, lab.nets)
  }

  lemma OneDictIs(lab: Lab, role: Role)
    requires ValidLab(lab)
    ensures IsDict(OneDict(lab, role)) && PlainValues(OneDict(lab, role))
    ensures ToMap(OneDict(lab, role)) == (ToMap(Dict(lab)) - SnippetKeys(role)) + ToMap(Context(role, lab.nets))
  {
    hide ToMap, Dict, Context, SnippetKeys, Without, ValidLab;
    var ctx := Context(role, lab.nets);
    var ks := SnippetKeys(role) + ToMap(ctx).Keys;
    NetsOf(lab);
    DictPlain(lab);
    ContextIsDict(role, lab.nets);
    ContextPlain(role, lab.nets);
    WithoutMap(Dict(lab), ks);
    WithoutItems(Dict(lab), ks);
    var w := Without(Dict(lab), ks);
    ToMapConcat(w, ctx);
    MapsJoin(ToMap(Dict(lab)), SnippetKeys(role), ToMap(ctx));
    forall i, j | 0 <= i < |w| && 0 <= j < |ctx| ensures w[i].0 != ctx[j].0 { ItemToMap(ctx, ctx[j].0, ctx[j].1); }
    JoinDicts(w, ctx);
  }

  lemma NetsOf(lab: Lab)
    requires ValidLab(lab)
    ensures lab.nets.Valid()
  {
  }

  lemma MapsJoin(m: map<string, string>, ks: set<string>, c: map<string, string>)
    ensures (m - (ks + c.Keys)) + c == (m - ks) + c
  {
  }

  lemma JoinDicts(a: seq<(string, string)>, b: seq<(string, string)>)
    requires IsDict(a) && PlainValues(a) && IsDict(b) && PlainValues(b)
    requires forall i, j | 0 <= i < |a| && 0 <= j < |b| :: a[i].0 != b[j].0
    ensures IsDict(a + b) && PlainValues(a + b)
  {
  }

  /** Every context value is there and ends on its line. */
  lemma CtxValueEnds(k: CtxKey, role: Role, s: Subnets)
    ensures CtxValue(k, role, s) != "" && CtxValue(k, role, s)[|CtxValue(k, role, s)| - 1] != '\n'
  {
    hide Ip, Decimal;
    DecimalDigits(KME_A_PORT);
    DecimalDigits(KME_B_PORT);
    NodeAddress(KmeA, s);
    NodeAddress(KmeB, s);
  }

  lemma {:induction false} SubstEnds(ps: seq<Piece>, m: map<string, string>)
    requires ps != [] && ps[|ps| - 1] != Lit('\n')
    requires forall k | k in m :: m[k] != "" && m[k][|m[k]| - 1] != '\n'
    ensures !EndsInNewline(Flatten(SubstPieces(ps, m)))
  {
    var init, last := ps[..|ps| - 1], ps[|ps| - 1];
    assert ps == init + [last];
    SubstConcat(init, [last], m);
    FlattenConcat(SubstPieces(init, m), SubstPieces([last], m));
    SubstCons(last, [], m);
    assert [last] + [] == [last] && SubstOne(last, m) + [] == SubstOne(last, m);
    if last.Ref? && last.name in m { FlattenLits(m[last.name]); } else { FlattenCons(last, []); }
  }

  lemma ScanLast(s: string)
    requires s != ""
    ensures Scan(s) != [] && (Scan(s)[|Scan(s)| - 1] == Lit('\n') ==> s[|s| - 1] == '\n')
  {
    hide Scan;
    var ps := Scan(s);
    if ps != [] {
      var init, last := ps[..|ps| - 1], ps[|ps| - 1];
      assert ps == init + [last];
      FlattenConcat(init, [last]);
      FlattenCons(last, []);
      assert [last] + [] == [last];
    }
  }

  /** So stripping commutes with rendering for the lab's snippets. */
  lemma SnippetStrips(raw: string, role: Role, s: Subnets)
    ensures !EndsInNewline(Expand(StripNewlines(raw), ToMap(Context(role, s))))
  {
    hide Scan, ToMap, CtxValue, CtxText;
    var body, m := StripNewlines(raw), ToMap(Context(role, s));
    forall k | k in m ensures m[k] != "" && m[k][|m[k]| - 1] != '\n' {
      ToMapKeys(Context(role, s), k);
      var i :| 0 <= i < |CTX_KEYS| && Context(role, s)[i].0 == k;
      ContextHolds(CTX_KEYS[i], role, s);
      CtxValueEnds(CTX_KEYS[i], role, s);
    }
    if body == "" {
      ScanEmpty();
    } else {
      ScanLast(body);
      SubstEnds(Scan(body), m);
    }
  }

  lemma RawsAlike(lab: Lab, role: Role)
    requires ValidLab(lab)
    ensures CleanSnippets(Raws(lab, role), ToMap(Context(role, lab.nets)).Keys)
    ensures StripsAlike(Raws(lab, role), ToMap(Context(role, lab.nets)))
    ensures Raws(lab, role).Keys == SnippetKeys(role)
  {
    hide ToMap, Context, KeyText, Clean, Names, Expand, StripNewlines, EndsInNewline;
    GoodRaws(lab, role);
    hide GoodSnippet, ValidLab;
    SnippetKnown(lab.macsec(role), role, lab.nets);
    SnippetKnown(lab.daemon(role), role, lab.nets);
    SnippetStrips(lab.macsec(role), role, lab.nets);
    SnippetStrips(lab.daemon(role), role, lab.nets);
  }

  lemma GoodRaws(lab: Lab, role: Role)
    requires ValidLab(lab)
    ensures GoodSnippet(lab.macsec(role)) && GoodSnippet(lab.daemon(role))
    ensures Clean(lab.macsec(role)) && Clean(lab.daemon(role))
  {
    hide Clean, Names;
  }

  lemma RawEntry(lab: Lab, role: Role, k: Key)
    requires ValidLab(lab) && (k == QuadraMacsec(role) || k == QuadraDaemon(role))
    ensures KeyText(k) in ToMap(Dict(lab))
    ensures var raw := if k.QuadraMacsec? then lab.macsec(role) else lab.daemon(role);
      ToMap(Dict(lab))[KeyText(k)] == StripNewlines(Expand(raw, ToMap(Context(role, lab.nets))))
  {
    hide ToMap, Dict, Context, KeyText, StripNewlines, Expand, Snippet;
    GoodRaws(lab, role);
    hide GoodSnippet, ValidLab;
    NetsOf(lab);
    DictHolds(k, lab);
    SnippetText(if k.QuadraMacsec? then lab.macsec(role) else lab.daemon(role), role, lab.nets);
  }

  lemma RawEntries(lab: Lab, role: Role)
    requires ValidLab(lab)
    ensures var m := ToMap(Dict(lab)); var r := Stripped(Rendereds(Raws(lab, role), ToMap(Context(role, lab.nets))));
      r.Keys == SnippetKeys(role) && forall k | k in r :: k in m && r[k] == m[k]
  {
    hide ToMap, Dict, Context, KeyText, StripNewlines, Expand, ValidLab;
    NetsOf(lab);
    RawEntry(lab, role, QuadraMacsec(role));
    RawEntry(lab, role, QuadraDaemon(role));
    KeysApart(role);
  }

  lemma MapSplits(m: map<string, string>, r: map<string, string>)
    requires forall k | k in r :: k in m && r[k] == m[k]
    ensures m == (m - r.Keys) + r
  {
  }

  /** The dict is the part without the role's snippets, with these put in. */
  lemma DictSplits(lab: Lab, role: Role)
    requires ValidLab(lab)
    ensures ToMap(Dict(lab)) == (ToMap(Dict(lab)) - SnippetKeys(role))
                                + Stripped(Rendereds(Raws(lab, role), ToMap(Context(role, lab.nets))))
  {
    hide *;
    NetsOf(lab);
    RawEntries(lab, role);
    MapSplits(ToMap(Dict(lab)), Stripped(Rendereds(Raws(lab, role), ToMap(Context(role, lab.nets)))));
  }

  lemma KeysApart(role: Role)
    ensures KeyText(QuadraMacsec(role)) != KeyText(QuadraDaemon(role))
  {
    hide KeyText;
    if KeyText(QuadraMacsec(role)) == KeyText(QuadraDaemon(role)) {
      KeyTextInjective(QuadraMacsec(role), QuadraDaemon(role));
    }
  }

  /** The lab's own path in one stage: rendering a template with the lab's dict is
      rendering once, with one dict, the template with the stripped raw snippets
      of a role pasted in.  The other role's snippets stay rendered values, since
      the two contexts differ. */
  lemma SwitchInOneStage(t: string, lab: Lab, role: Role)
    requires Clean(t) && Known(t) && ValidLab(lab)
    ensures Outcome(Fold(t, Dict(lab))) == Outcome(Fold(Inline(t, Stripped(Raws(lab, role))), OneDict(lab, role)))
    ensures Outcome(Fold(t, Dict(lab))).Ok?
  {
    hide *;
    NetsOf(lab);
    var ctx := ToMap(Context(role, lab.nets));
    var base := ToMap(Dict(lab)) - SnippetKeys(role);
    var raws := Raws(lab, role);
    RawsAlike(lab, role);
    StrippedSnippets(raws, ctx);
    DictSplits(lab, role);
    StrippedKeys(raws);
    BaseAgrees(lab, role);
    KnownByDict(t, lab, role);
    TwoStage(t, Stripped(raws), base, ctx);
    OneDictIs(lab, role);
    DictPlain(lab);
    FoldMeaning(t, Dict(lab));
    FoldMeaning(Inline(t, Stripped(raws)), OneDict(lab, role));
  }

  lemma StrippedKeys(raws: map<string, string>)
    ensures Stripped(raws).Keys == raws.Keys
  {
  }

  lemma BaseAgrees(lab: Lab, role: Role)
    requires lab.nets.Valid()
    ensures Agree(ToMap(Dict(lab)) - SnippetKeys(role), ToMap(Context(role, lab.nets)))
    ensures SnippetKeys(role) !! (ToMap(Dict(lab)) - SnippetKeys(role)).Keys
  {
    hide ToMap, Dict, Context, SnippetKeys;
    ContextAgrees(lab, role);
  }

  lemma KnownByDict(t: string, lab: Lab, role: Role)
    requires Known(t) && lab.nets.Valid()
    ensures Names(t) <= (ToMap(Dict(lab)) - SnippetKeys(role)).Keys + SnippetKeys(role)
  {
    hide ToMap, Dict, SnippetKeys, KeyText, Names;
    forall n | n in Names(t) ensures n in ToMap(Dict(lab)) {
      var k: Key :| n == KeyText(k);
      DictHolds(k, lab);
    }
  }
}
