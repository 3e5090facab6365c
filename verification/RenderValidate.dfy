/** Rendering and then validating a switch configuration (lab/render_topo.py,
    lab/topology_contract.py): what the validator looks for, computed from the
    two subnets, is what the template lines turn into. */
module RenderValidate {
  import opened Text
  import opened RenderTopo
  import opened LabDict
  import M = MgmtAddresses

  // ---- Template lines -------------------------------------------------------

  /** A template line: text without `$`, and placeholders. */
  datatype Seg = Txt(text: string) | Var(name: string)

  function SegText(s: Seg): string { if s.Txt? then s.text else Token(s.name) }

  function SegPieces(s: Seg): seq<Piece> { if s.Txt? then Lits(s.text) else [Ref(s.name)] }

  function SegValue(s: Seg, m: map<string, string>): string {
    if s.Txt? then s.text else if s.name in m then m[s.name] else Token(s.name)
  }

  function TextOf(line: seq<Seg>): string { if line == [] then "" else SegText(line[0]) + TextOf(line[1..]) }

  function PiecesOf(line: seq<Seg>): seq<Piece> { if line == [] then [] else SegPieces(line[0]) + PiecesOf(line[1..]) }

  function ValueOf(line: seq<Seg>, m: map<string, string>): string {
    if line == [] then "" else SegValue(line[0], m) + ValueOf(line[1..], m)
  }

  predicate GoodLine(line: seq<Seg>) {
    forall i | 0 <= i < |line| :: if line[i].Txt? then '$' !in line[i].text else IsName(line[i].name)
  }

  lemma SegMeaning(s: Seg, m: map<string, string>)
    requires if s.Txt? then '$' !in s.text else IsName(s.name)
    ensures CleanPieces(SegPieces(s)) && Flatten(SegPieces(s)) == SegText(s)
    ensures Flatten(SubstPieces(SegPieces(s), m)) == SegValue(s, m)
  {
    if s.Txt? {
      FlattenLits(s.text);
      SubstLits(s.text, m);
    } else {
      SubstCons(Ref(s.name), [], m);
      assert [Ref(s.name)] + [] == [Ref(s.name)];
      assert SubstPieces([], m) == [];
      FlattenCons(Ref(s.name), []);
      if s.name in m {
        FlattenLits(m[s.name]);
        assert Lits(m[s.name]) + [] == Lits(m[s.name]);
      }
    }
  }

  /** A line is the text of its pieces, and they expand to its value. */
  lemma {:induction false} LineMeaning(line: seq<Seg>, m: map<string, string>)
    requires GoodLine(line)
    ensures CleanPieces(PiecesOf(line)) && Flatten(PiecesOf(line)) == TextOf(line)
    ensures Flatten(SubstPieces(PiecesOf(line), m)) == ValueOf(line, m)
  {
    if line != [] {
      assert GoodLine(line[1..]);
      LineMeaning(line[1..], m);
      SegMeaning(line[0], m);
      FlattenConcat(SegPieces(line[0]), PiecesOf(line[1..]));
      SubstConcat(SegPieces(line[0]), PiecesOf(line[1..]), m);
      FlattenConcat(SubstPieces(SegPieces(line[0]), m), SubstPieces(PiecesOf(line[1..]), m));
    }
  }

  /** A template has a line. */
  ghost predicate HasLine(t: string, line: seq<Seg>) {
    exists a, b :: IsLine(t, line, a, b)
  }

  predicate IsLine(t: string, line: seq<Seg>, a: string, b: string) {
    t == a + (TextOf(line) + b) && (a == "" || a[|a| - 1] == '\n') && (b == "" || b[0] == '\n')
  }

  /** The value of a template line, and every part of it, is in the rendering. */
  lemma LineRendered(t: string, indent: string, demand: seq<Seg>, m: map<string, string>)
    requires Clean(t) && '$' !in indent && GoodLine(demand) && HasLine(t, [Txt(indent)] + demand)
    ensures Contains(Expand(t, m), ValueOf(demand, m))
  {
    hide Clean, Expand, CleanPieces, Contains;
    var line := [Txt(indent)] + demand;
    assert line[1..] == demand;
    assert GoodLine(line) by { assert forall i | 0 < i < |line| :: line[i] == demand[i - 1]; }
    LineMeaning(line, m);
    var a, b :| IsLine(t, line, a, b);
    LineLift(a, PiecesOf(line), b, m);
    Within(Expand(t, m), indent, ValueOf(demand, m));
  }

  lemma Within(s: string, x: string, p: string)
    requires Contains(s, x + p)
    ensures Contains(s, p)
  {
    var k := Find(s, x + p);
    assert s[k..k + |x + p|][|x|..] == s[k + |x|..k + |x| + |p|];
    ContainsAt(s, p, k + |x|);
  }

  // ---- All lines of a rendering ---------------------------------------------

  function LinesOf(ps: seq<Piece>): (ls: seq<seq<Piece>>)
    ensures ls != []
  {
    if ps == [] then [[]]
    else
      var rest := LinesOf(ps[1..]);
      if ps[0] == Lit('\n') then [[]] + rest else [[ps[0]] + rest[0]] + rest[1..]
  }

  function LineText(l: seq<Piece>, m: map<string, string>): string { Flatten(SubstPieces(l, m)) }

  function LineTexts(ls: seq<seq<Piece>>, m: map<string, string>): (texts: seq<string>)
    ensures |texts| == |ls| && forall i | 0 <= i < |ls| :: texts[i] == LineText(ls[i], m)
  {
    seq(|ls|, i requires 0 <= i < |ls| => LineText(ls[i], m))
  }

  lemma LineCons(p: Piece, l: seq<Piece>, m: map<string, string>)
    ensures LineText([p] + l, m) == LineText([p], m) + LineText(l, m)
  {
    SubstConcat([p], l, m);
    FlattenConcat(SubstPieces([p], m), SubstPieces(l, m));
  }

  lemma JoinExtend(x: string, parts: seq<string>)
    requires parts != []
    ensures Join([x + parts[0]] + parts[1..], '\n') == x + Join(parts, '\n')
  {
    var more := [x + parts[0]] + parts[1..];
    assert more[1..] == parts[1..];
    if |parts| > 1 {
      ConcatAssoc(x, parts[0], ['\n']);
      ConcatAssoc(x, parts[0] + ['\n'], Join(parts[1..], '\n'));
    }
  }

  lemma JoinBlank(parts: seq<string>)
    requires parts != []
    ensures Join([""] + parts, '\n') == "\n" + Join(parts, '\n')
  {
    assert ([""] + parts)[1..] == parts;
    assert "" + ['\n'] == "\n";
  }

  /** A rendering is the renderings of the template's lines. */
  lemma {:induction false} RenderedLines(ps: seq<Piece>, m: map<string, string>)
    ensures LineText(ps, m) == Join(LineTexts(LinesOf(ps), m), '\n')
  {
    hide LineText, Join;
    if ps == [] {
      assert LineTexts([[]], m) == [LineText([], m)];
      JoinOne(LineText([], m));
    } else {
      var p, rest := ps[0], LinesOf(ps[1..]);
      RenderedLines(ps[1..], m);
      assert ps == [p] + ps[1..];
      LineCons(p, ps[1..], m);
      if p == Lit('\n') {
        LineBreakText(m);
        JoinBlank(LineTexts(rest, m));
        assert LineTexts([[]] + rest, m) == [""] + LineTexts(rest, m);
      } else {
        LineCons(p, rest[0], m);
        JoinExtend(LineText([p], m), LineTexts(rest, m));
        TextsExtend(p, rest, m);
      }
    }
  }

  lemma JoinOne(x: string)
    ensures Join([x], '\n') == x
  {
  }

  lemma LineBreakText(m: map<string, string>)
    ensures LineText([Lit('\n')], m) == "\n" && LineText([], m) == ""
  {
    SubstCons(Lit('\n'), [], m);
    FlattenCons(Lit('\n'), []);
    assert [Lit('\n')] + [] == [Lit('\n')];
  }

  lemma TextsExtend(p: Piece, rest: seq<seq<Piece>>, m: map<string, string>)
    requires rest != [] && LineText([p] + rest[0], m) == LineText([p], m) + LineText(rest[0], m)
    ensures LineTexts([[p] + rest[0]] + rest[1..], m)
            == [LineText([p], m) + LineTexts(rest, m)[0]] + LineTexts(rest, m)[1..]
  {
    hide LineText;
  }

  /** A one-line text is in a rendering exactly when it is in the rendering of
      one of the template's lines, whatever the values are. */
  lemma RenderedContains(t: string, m: map<string, string>, p: string)
    requires p != "" && '\n' !in p
    ensures Contains(Expand(t, m), p) <==>
            exists i | 0 <= i < |LinesOf(Scan(t))| :: Contains(LineText(LinesOf(Scan(t))[i], m), p)
  {
    hide Contains, LineText, LinesOf, Scan;
    RenderedLines(Scan(t), m);
    WholeText(t, m);
    LinesContain(LineTexts(LinesOf(Scan(t)), m), p);
  }

  lemma WholeText(t: string, m: map<string, string>)
    ensures Expand(t, m) == LineText(Scan(t), m)
  {
  }

  // ---- The management lines of a switch -------------------------------------

  predicate IsSwitch(sw: Node) { sw.Ceos1? || sw.Ceos2? || sw.Ceos3? }

  /** The management part of `ceos_data_plane`. */
  datatype Plane = Plane(ip: string, gateway: string, ip6: string, gateway6: string)

  function CeosPlane(sw: Node, s: Subnets): Plane
    requires s.Valid()
  {
    Plane(Ip(sw, s) + "/" + M.Decimal(s.prefix), Gateway(s), Ip6(sw, s) + "/" + M.Decimal(s.prefix6), Gateway6(s))
  }

  /** The two snippets of a QuaDRA switch, and what is looked for in them. */
  datatype Kind = MacsecPart | DaemonPart
  datatype Part = ProfileName | RxKey | TxKey | MacsecPort | PeerAddress | KmeEndpoint | PeerSae | RecoveryKeys

  function KindOf(part: Part): Kind {
    if part.ProfileName? || part.RxKey? || part.TxKey? then MacsecPart else DaemonPart
  }

  /** The checks of `validate_ceos_configs` that depend on the subnets or look
      into a snippet. */
  datatype Check = Address | Route | Address6 | Route6 | Radsec | RadsecGroup | Syslog4 | Syslog6 | Quadra(part: Part)

  /** The snippets are in the configurations of the two QuaDRA switches. */
  predicate Applies(c: Check, sw: Node) { c.Quadra? ==> !sw.Ceos2? }

  /** `QUADRA_MACSEC_INTF` and `QUADRA_PEER_IP`. */
  function MacsecIntfOf(sw: Node): string { if sw.Ceos1? then "Ethernet2" else "Ethernet1" }
  function PeerIpOf(sw: Node): string { if sw.Ceos1? then "10.255.0.6" else "10.255.0.5" }

  function PartDemand(part: Part, sw: Node, s: Subnets): string {
    match part
    case ProfileName => "profile " + if sw.Ceos1? then "quadra-master" else "quadra-slave"
    case RxKey => "an 0 key " + QUADRA_KEY_RX
    case TxKey => "an 0 key " + QUADRA_KEY_TX
    case MacsecPort => "option macsec-intf value " + MacsecIntfOf(sw)
    case PeerAddress => "option peer value " + PeerIpOf(sw)
    case KmeEndpoint =>
      if sw.Ceos1? then "option kme value " + (Ip(KmeA, s) + ":" + M.Decimal(KME_A_PORT))
      else "option kme value " + (Ip(KmeB, s) + ":" + M.Decimal(KME_B_PORT))
    case PeerSae => "option peer-sae value " + if sw.Ceos1? then KME_B_SAE_ID else KME_SAE_ID
    case RecoveryKeys =>
      if sw.Ceos1? then "option recovery-keys value " + (QUADRA_KEY_RX + "," + QUADRA_KEY_TX)
      else "option recovery-keys value " + (QUADRA_KEY_TX + "," + QUADRA_KEY_RX)
  }

  function RoleOf(sw: Node): Role { if sw.Ceos1? then Master else Slave }

  /** The text a check looks for. */
  function Demand(c: Check, sw: Node, s: Subnets): string
    requires s.Valid()
  {
    match c
    case Address => "ip address " + CeosPlane(sw, s).ip
    case Route => "ip route vrf MGMT 0.0.0.0/0 " + CeosPlane(sw, s).gateway
    case Address6 => "ipv6 address " + CeosPlane(sw, s).ip6
    case Route6 => "ipv6 route vrf MGMT ::/0 " + CeosPlane(sw, s).gateway6
    case Radsec => "radius-server host " + Ip6(Radius, s) + " vrf MGMT tls ssl-profile RADSEC"
    case RadsecGroup => "server " + Ip6(Radius, s) + " tls vrf MGMT"
    case Syslog4 => "logging vrf MGMT host " + Ip(Syslog, s) + " 6514 protocol tls ssl-profile SYSLOG"
    case Syslog6 => "logging vrf MGMT host " + Ip6(Syslog, s) + " 6514 protocol tls ssl-profile SYSLOG"
    case Quadra(part) => PartDemand(part, sw, s)
  }

  function KeyVar(k: Key): Seg { Var(KeyText(k)) }

  /** The line of configs/ceos/ for it, after its indent; for a snippet's
      part, the line that the snippet is pasted in for. */
  function TemplateLine(c: Check, sw: Node): seq<Seg> {
    match c
    case Address => [Txt("ip address "), KeyVar(NodeIp(sw)), Txt("/"), KeyVar(MgmtPrefix)]
    case Route => [Txt("ip route vrf MGMT 0.0.0.0/0 "), KeyVar(MgmtGateway)]
    case Address6 => [Txt("ipv6 address "), KeyVar(NodeIpv6(sw)), Txt("/"), KeyVar(MgmtIpv6Prefix)]
    case Route6 => [Txt("ipv6 route vrf MGMT ::/0 "), KeyVar(MgmtIpv6Gateway)]
    case Radsec => [Txt("radius-server host "), KeyVar(RadiusServerIp), Txt(" vrf MGMT tls ssl-profile RADSEC")]
    case RadsecGroup => [Txt("server "), KeyVar(RadiusServerIp), Txt(" tls vrf MGMT")]
    case Syslog4 => [Txt("logging vrf MGMT host "), KeyVar(SyslogIpv4), Txt(" 6514 protocol tls ssl-profile SYSLOG")]
    case Syslog6 => [Txt("logging vrf MGMT host "), KeyVar(SyslogIpv6), Txt(" 6514 protocol tls ssl-profile SYSLOG")]
    case Quadra(part) => [KeyVar(SnippetKey(KindOf(part), RoleOf(sw)))]
  }

  function SnippetKey(kind: Kind, role: Role): Key {
    if kind.MacsecPart? then QuadraMacsec(role) else QuadraDaemon(role)
  }

  function RawSnippet(lab: Lab, kind: Kind, role: Role): string {
    if kind.MacsecPart? then lab.macsec(role) else lab.daemon(role)
  }

  /** The line of the snippet for a part, after its indent. */
  function PartLine(part: Part, role: Role): seq<Seg> {
    match part
    case ProfileName => [Txt("profile "), Var(CtxText(MacsecProfile))]
    case RxKey => [Txt("an 0 key "), Var(CtxText(KeyRx))]
    case TxKey => [Txt("an 0 key "), Var(CtxText(KeyTx))]
    case MacsecPort => [Txt("option macsec-intf value "), Var(CtxText(MacsecIntf))]
    case PeerAddress => [Txt("option peer value "), Var(CtxText(PeerIp))]
    case KmeEndpoint =>
      if role.Master?
      then [Txt("option kme value "), Var(CtxText(IpKmeA)), Txt(":"), Var(CtxText(APort))]
      else [Txt("option kme value "), Var(CtxText(IpKmeB)), Txt(":"), Var(CtxText(BPort))]
    case PeerSae => [Txt("option peer-sae value "), Var(CtxText(if role.Master? then BSaeId else SaeId))]
    case RecoveryKeys =>
      if role.Master?
      then [Txt("option recovery-keys value "), Var(CtxText(KeyRx)), Txt(","), Var(CtxText(KeyTx))]
      else [Txt("option recovery-keys value "), Var(CtxText(KeyTx)), Txt(","), Var(CtxText(KeyRx))]
  }

  function PartIndent(part: Part): string { if part.RxKey? || part.TxKey? then "         " else "   " }

  function Indent(c: Check): string {
    match c
    case Address | Address6 | RadsecGroup => "   "
    case _ => ""
  }

  /** A template of a switch: it has these lines, and any other text with known names. */
  ghost predicate SwitchTemplate(t: string, sw: Node) {
    && IsSwitch(sw) && Clean(t) && Known(t)
    && forall c: Check | Applies(c, sw) :: HasLine(t, [Txt(Indent(c))] + TemplateLine(c, sw))
  }

  /** A snippet's file: it has these lines, and any other text with names of its
      context. */
  ghost predicate SnippetTemplate(raw: string, kind: Kind, role: Role) {
    GoodSnippet(raw) &&
    forall part | KindOf(part) == kind :: HasLine(raw, [Txt(PartIndent(part))] + PartLine(part, role))
  }

  lemma TwoSegs(a: string, x: string, m: map<string, string>)
    requires x in m
    ensures ValueOf([Txt(a), Var(x)], m) == a + m[x]
  {
    assert [Txt(a), Var(x)][1..] == [Var(x)] && [Var(x)][1..] == [];
    assert ValueOf([Var(x)], m) == m[x] + ValueOf([], m);
  }

  lemma MoreSegs(a: string, x: string, rest: seq<Seg>, m: map<string, string>)
    requires x in m
    ensures ValueOf([Txt(a), Var(x)] + rest, m) == a + (m[x] + ValueOf(rest, m))
  {
    var l := [Txt(a), Var(x)] + rest;
    assert l[1..] == [Var(x)] + rest && l[1..][1..] == rest;
  }

  lemma PairSegs(a: string, x: string, mid: string, y: string, m: map<string, string>)
    requires x in m && y in m
    ensures ValueOf([Txt(a), Var(x), Txt(mid), Var(y)], m) == a + (m[x] + mid + m[y])
  {
    TwoSegs(mid, y, m);
    MoreSegs(a, x, [Txt(mid), Var(y)], m);
    assert [Txt(a), Var(x)] + [Txt(mid), Var(y)] == [Txt(a), Var(x), Txt(mid), Var(y)];
  }

  lemma AroundSeg(a: string, x: string, b: string, m: map<string, string>)
    requires x in m
    ensures ValueOf([Txt(a), Var(x), Txt(b)], m) == a + m[x] + b
  {
    MoreSegs(a, x, [Txt(b)], m);
    assert [Txt(b)][1..] == [];
    assert [Txt(a), Var(x)] + [Txt(b)] == [Txt(a), Var(x), Txt(b)];
  }

  predicate Gives(m: map<string, string>, k: Key, v: string) { KeyText(k) in m && m[KeyText(k)] == v }

  lemma AddressIsDemand(sw: Node, s: Subnets, m: map<string, string>)
    requires s.Valid() && IsSwitch(sw)
    requires Gives(m, NodeIp(sw), Ip(sw, s)) && Gives(m, MgmtPrefix, M.Decimal(s.prefix))
    requires Gives(m, NodeIpv6(sw), Ip6(sw, s)) && Gives(m, MgmtIpv6Prefix, M.Decimal(s.prefix6))
    ensures ValueOf(TemplateLine(Address, sw), m) == Demand(Address, sw, s)
    ensures ValueOf(TemplateLine(Address6, sw), m) == Demand(Address6, sw, s)
  {
    hide ValueOf, KeyText, Ip, Ip6, M.Decimal;
    PairSegs("ip address ", KeyText(NodeIp(sw)), "/", KeyText(MgmtPrefix), m);
    PairSegs("ipv6 address ", KeyText(NodeIpv6(sw)), "/", KeyText(MgmtIpv6Prefix), m);
  }

  lemma RouteIsDemand(sw: Node, s: Subnets, m: map<string, string>)
    requires s.Valid() && IsSwitch(sw)
    requires Gives(m, MgmtGateway, Gateway(s)) && Gives(m, MgmtIpv6Gateway, Gateway6(s))
    ensures ValueOf(TemplateLine(Route, sw), m) == Demand(Route, sw, s)
    ensures ValueOf(TemplateLine(Route6, sw), m) == Demand(Route6, sw, s)
  {
    hide ValueOf, KeyText, Gateway, Gateway6;
    TwoSegs("ip route vrf MGMT 0.0.0.0/0 ", KeyText(MgmtGateway), m);
    TwoSegs("ipv6 route vrf MGMT ::/0 ", KeyText(MgmtIpv6Gateway), m);
  }

  lemma ServerIsDemand(sw: Node, s: Subnets, m: map<string, string>)
    requires s.Valid() && IsSwitch(sw) && Gives(m, RadiusServerIp, Ip6(Radius, s))
    ensures ValueOf(TemplateLine(Radsec, sw), m) == Demand(Radsec, sw, s)
    ensures ValueOf(TemplateLine(RadsecGroup, sw), m) == Demand(RadsecGroup, sw, s)
  {
    hide ValueOf, KeyText, Ip6;
    AroundSeg("radius-server host ", KeyText(RadiusServerIp), " vrf MGMT tls ssl-profile RADSEC", m);
    AroundSeg("server ", KeyText(RadiusServerIp), " tls vrf MGMT", m);
  }

  lemma SyslogIsDemand(sw: Node, s: Subnets, m: map<string, string>)
    requires s.Valid() && IsSwitch(sw)
    requires Gives(m, SyslogIpv4, Ip(Syslog, s)) && Gives(m, SyslogIpv6, Ip6(Syslog, s))
    ensures ValueOf(TemplateLine(Syslog4, sw), m) == Demand(Syslog4, sw, s)
    ensures ValueOf(TemplateLine(Syslog6, sw), m) == Demand(Syslog6, sw, s)
  {
    hide ValueOf, KeyText, Ip, Ip6;
    AroundSeg("logging vrf MGMT host ", KeyText(SyslogIpv4), " 6514 protocol tls ssl-profile SYSLOG", m);
    AroundSeg("logging vrf MGMT host ", KeyText(SyslogIpv6), " 6514 protocol tls ssl-profile SYSLOG", m);
  }

  lemma DictGives(k: Key, lab: Lab)
    requires lab.nets.Valid()
    ensures Gives(ToMap(Dict(lab)), k, Value(k, lab))
  {
    hide KeyText, Value, ToMap, Dict;
    DictHolds(k, lab);
  }

  /** With the dict that the code builds from the subnets, the value of each
      template line is the text that the validator computes from them. */
  lemma LineIsDemand(c: Check, sw: Node, lab: Lab)
    requires IsSwitch(sw) && lab.nets.Valid() && !c.Quadra?
    ensures ValueOf(TemplateLine(c, sw), ToMap(Dict(lab))) == Demand(c, sw, lab.nets)
  {
    hide *;
    if c.Address? || c.Address6? { AddressFromDict(sw, lab); }
    else if c.Route? || c.Route6? { RouteFromDict(sw, lab); }
    else if c.Radsec? || c.RadsecGroup? { ServerFromDict(sw, lab); }
    else { SyslogFromDict(sw, lab); }
  }

  lemma AddressFromDict(sw: Node, lab: Lab)
    requires IsSwitch(sw) && lab.nets.Valid()
    ensures ValueOf(TemplateLine(Address, sw), ToMap(Dict(lab))) == Demand(Address, sw, lab.nets)
    ensures ValueOf(TemplateLine(Address6, sw), ToMap(Dict(lab))) == Demand(Address6, sw, lab.nets)
  {
    hide ValueOf, TemplateLine, Demand, ToMap, Dict, Gives, Ip, Ip6, IsSwitch, M.Decimal;
    DictGives(NodeIp(sw), lab);
    DictGives(MgmtPrefix, lab);
    DictGives(NodeIpv6(sw), lab);
    DictGives(MgmtIpv6Prefix, lab);
    AddressIsDemand(sw, lab.nets, ToMap(Dict(lab)));
  }

  lemma RouteFromDict(sw: Node, lab: Lab)
    requires IsSwitch(sw) && lab.nets.Valid()
    ensures ValueOf(TemplateLine(Route, sw), ToMap(Dict(lab))) == Demand(Route, sw, lab.nets)
    ensures ValueOf(TemplateLine(Route6, sw), ToMap(Dict(lab))) == Demand(Route6, sw, lab.nets)
  {
    hide ValueOf, TemplateLine, Demand, ToMap, Dict, Gives, Gateway, Gateway6, IsSwitch;
    DictGives(MgmtGateway, lab);
    DictGives(MgmtIpv6Gateway, lab);
    RouteIsDemand(sw, lab.nets, ToMap(Dict(lab)));
  }

  lemma ServerFromDict(sw: Node, lab: Lab)
    requires IsSwitch(sw) && lab.nets.Valid()
    ensures ValueOf(TemplateLine(Radsec, sw), ToMap(Dict(lab))) == Demand(Radsec, sw, lab.nets)
    ensures ValueOf(TemplateLine(RadsecGroup, sw), ToMap(Dict(lab))) == Demand(RadsecGroup, sw, lab.nets)
  {
    hide ValueOf, TemplateLine, Demand, ToMap, Dict, Gives, Ip6, IsSwitch;
    DictGives(RadiusServerIp, lab);
    ServerIsDemand(sw, lab.nets, ToMap(Dict(lab)));
  }

  lemma SyslogFromDict(sw: Node, lab: Lab)
    requires IsSwitch(sw) && lab.nets.Valid()
    ensures ValueOf(TemplateLine(Syslog4, sw), ToMap(Dict(lab))) == Demand(Syslog4, sw, lab.nets)
    ensures ValueOf(TemplateLine(Syslog6, sw), ToMap(Dict(lab))) == Demand(Syslog6, sw, lab.nets)
  {
    hide ValueOf, TemplateLine, Demand, ToMap, Dict, Gives, Ip, Ip6, IsSwitch;
    DictGives(SyslogIpv4, lab);
    DictGives(SyslogIpv6, lab);
    SyslogIsDemand(sw, lab.nets, ToMap(Dict(lab)));
  }

  /** The same for the lines of a snippet and the snippet's context. */
  lemma PartIsDemand(part: Part, sw: Node, s: Subnets)
    requires s.Valid() && (sw.Ceos1? || sw.Ceos3?)
    ensures ValueOf(PartLine(part, RoleOf(sw)), ToMap(Context(RoleOf(sw), s))) == PartDemand(part, sw, s)
  {
    hide *;
    match part
    case KmeEndpoint => KmeLineIsDemand(sw, s);
    case RecoveryKeys => KeysLineIsDemand(sw, s);
    case PeerSae => SaeLineIsDemand(sw, s);
    case RxKey | TxKey => SakLineIsDemand(part, sw, s);
    case _ => PeerLineIsDemand(part, sw, s);
  }

  lemma KmeLineIsDemand(sw: Node, s: Subnets)
    requires s.Valid() && (sw.Ceos1? || sw.Ceos3?)
    ensures ValueOf(PartLine(KmeEndpoint, RoleOf(sw)), ToMap(Context(RoleOf(sw), s))) == PartDemand(KmeEndpoint, sw, s)
  {
    hide ValueOf, CtxText, ToMap, Context;
    var role := RoleOf(sw);
    var m := ToMap(Context(role, s));
    ContextHolds(IpKmeA, role, s);
    ContextHolds(IpKmeB, role, s);
    ContextHolds(APort, role, s);
    ContextHolds(BPort, role, s);
    PairSegs("option kme value ", CtxText(IpKmeA), ":", CtxText(APort), m);
    PairSegs("option kme value ", CtxText(IpKmeB), ":", CtxText(BPort), m);
  }

  lemma KeysLineIsDemand(sw: Node, s: Subnets)
    requires s.Valid() && (sw.Ceos1? || sw.Ceos3?)
    ensures ValueOf(PartLine(RecoveryKeys, RoleOf(sw)), ToMap(Context(RoleOf(sw), s))) == PartDemand(RecoveryKeys, sw, s)
  {
    hide ValueOf, CtxText, ToMap, Context;
    var role := RoleOf(sw);
    var m := ToMap(Context(role, s));
    ContextHolds(KeyRx, role, s);
    ContextHolds(KeyTx, role, s);
    PairSegs("option recovery-keys value ", CtxText(KeyRx), ",", CtxText(KeyTx), m);
    PairSegs("option recovery-keys value ", CtxText(KeyTx), ",", CtxText(KeyRx), m);
  }

  lemma SaeLineIsDemand(sw: Node, s: Subnets)
    requires s.Valid() && (sw.Ceos1? || sw.Ceos3?)
    ensures ValueOf(PartLine(PeerSae, RoleOf(sw)), ToMap(Context(RoleOf(sw), s))) == PartDemand(PeerSae, sw, s)
  {
    hide ValueOf, CtxText, ToMap, Context;
    var role := RoleOf(sw);
    var k := if role.Master? then BSaeId else SaeId;
    ContextHolds(k, role, s);
    TwoSegs("option peer-sae value ", CtxText(k), ToMap(Context(role, s)));
  }

  lemma SakLineIsDemand(part: Part, sw: Node, s: Subnets)
    requires s.Valid() && (sw.Ceos1? || sw.Ceos3?) && (part.RxKey? || part.TxKey?)
    ensures ValueOf(PartLine(part, RoleOf(sw)), ToMap(Context(RoleOf(sw), s))) == PartDemand(part, sw, s)
  {
    hide ValueOf, CtxText, ToMap, Context;
    var role := RoleOf(sw);
    var k := if part.RxKey? then KeyRx else KeyTx;
    ContextHolds(k, role, s);
    TwoSegs("an 0 key ", CtxText(k), ToMap(Context(role, s)));
  }

  lemma PeerLineIsDemand(part: Part, sw: Node, s: Subnets)
    requires s.Valid() && (sw.Ceos1? || sw.Ceos3?) && (part.ProfileName? || part.MacsecPort? || part.PeerAddress?)
    ensures ValueOf(PartLine(part, RoleOf(sw)), ToMap(Context(RoleOf(sw), s))) == PartDemand(part, sw, s)
  {
    hide ValueOf, CtxText, ToMap, Context;
    var role := RoleOf(sw);
    var m := ToMap(Context(role, s));
    ContextHolds(MacsecProfile, role, s);
    ContextHolds(MacsecIntf, role, s);
    ContextHolds(PeerIp, role, s);
    TwoSegs("profile ", CtxText(MacsecProfile), m);
    TwoSegs("option macsec-intf value ", CtxText(MacsecIntf), m);
    TwoSegs("option peer value ", CtxText(PeerIp), m);
  }

  lemma ManagementTexts()
    ensures '$' !in "ip address " && '$' !in "/" && '$' !in "ipv6 address "
    ensures '$' !in "ip route vrf MGMT 0.0.0.0/0 " && '$' !in "ipv6 route vrf MGMT ::/0 "
  {
  }

  lemma ServerTexts()
    ensures '$' !in "radius-server host " && '$' !in " vrf MGMT tls ssl-profile RADSEC"
    ensures '$' !in "server " && '$' !in " tls vrf MGMT"
  {
  }

  lemma SyslogTexts()
    ensures '$' !in "logging vrf MGMT host " && '$' !in " 6514 protocol tls ssl-profile SYSLOG"
  {
  }

  lemma GoodSegs(a: string, x: string, b: string, y: string)
    requires '$' !in a && IsName(x) && '$' !in b && IsName(y)
    ensures GoodLine([Txt(a), Var(x)]) && GoodLine([Txt(a), Var(x), Txt(b)]) && GoodLine([Txt(a), Var(x), Txt(b), Var(y)])
  {
    hide IsName;
  }

  lemma GoodAddressLine(c: Check, sw: Node)
    requires c.Address? || c.Address6?
    ensures GoodLine(TemplateLine(c, sw))
  {
    hide IsName, KeyText, GoodLine;
    KeyNames(NodeIp(sw));
    KeyNames(MgmtPrefix);
    KeyNames(NodeIpv6(sw));
    KeyNames(MgmtIpv6Prefix);
    ManagementTexts();
    GoodSegs("ip address ", KeyText(NodeIp(sw)), "/", KeyText(MgmtPrefix));
    GoodSegs("ipv6 address ", KeyText(NodeIpv6(sw)), "/", KeyText(MgmtIpv6Prefix));
  }

  lemma GoodRouteLine(c: Check, sw: Node)
    requires c.Route? || c.Route6?
    ensures GoodLine(TemplateLine(c, sw))
  {
    hide IsName, KeyText, GoodLine;
    KeyNames(MgmtGateway);
    KeyNames(MgmtIpv6Gateway);
    ManagementTexts();
    GoodSegs("ip route vrf MGMT 0.0.0.0/0 ", KeyText(MgmtGateway), "/", KeyText(MgmtGateway));
    GoodSegs("ipv6 route vrf MGMT ::/0 ", KeyText(MgmtIpv6Gateway), "/", KeyText(MgmtGateway));
  }

  lemma GoodServerLine(c: Check, sw: Node)
    requires c.Radsec? || c.RadsecGroup?
    ensures GoodLine(TemplateLine(c, sw))
  {
    hide IsName, KeyText, GoodLine;
    var x := KeyText(RadiusServerIp);
    KeyNames(RadiusServerIp);
    ServerTexts();
    GoodSegs("radius-server host ", x, " vrf MGMT tls ssl-profile RADSEC", x);
    GoodSegs("server ", x, " tls vrf MGMT", x);
  }

  lemma GoodSyslogLine(c: Check, sw: Node)
    requires c.Syslog4? || c.Syslog6?
    ensures GoodLine(TemplateLine(c, sw))
  {
    hide IsName, KeyText, GoodLine;
    var x := KeyText(if c.Syslog4? then SyslogIpv4 else SyslogIpv6);
    KeyNames(SyslogIpv4);
    KeyNames(SyslogIpv6);
    SyslogTexts();
    GoodSegs("logging vrf MGMT host ", x, " 6514 protocol tls ssl-profile SYSLOG", x);
  }

  lemma GoodTemplateLine(c: Check, sw: Node)
    ensures GoodLine(TemplateLine(c, sw)) && '$' !in Indent(c)
  {
    hide IsName, KeyText, GoodLine;
    match c
    case Address | Address6 => GoodAddressLine(c, sw);
    case Route | Route6 => GoodRouteLine(c, sw);
    case Radsec | RadsecGroup => GoodServerLine(c, sw);
    case Syslog4 | Syslog6 => GoodSyslogLine(c, sw);
    case Quadra(part) =>
      var k := SnippetKey(KindOf(part), RoleOf(sw));
      KeyNames(k);
      GoodVar(KeyText(k));
  }

  lemma GoodVar(x: string)
    requires IsName(x)
    ensures GoodLine([Var(x)])
  {
    hide IsName;
  }

  lemma SnippetTexts()
    ensures '$' !in "profile " && '$' !in "an 0 key " && '$' !in "option macsec-intf value "
    ensures '$' !in "option peer value " && '$' !in "option kme value " && '$' !in "option peer-sae value "
    ensures '$' !in "option recovery-keys value " && '$' !in ":" && '$' !in ","
  {
  }

  lemma GoodPartLine(part: Part, role: Role)
    ensures GoodLine(PartLine(part, role)) && '$' !in PartIndent(part)
  {
    hide IsName, CtxText, GoodLine;
    SnippetTexts();
    forall k: CtxKey ensures IsName(CtxText(k)) { CtxNames(k); }
    GoodSegs("option kme value ", CtxText(IpKmeA), ":", CtxText(APort));
    GoodSegs("option kme value ", CtxText(IpKmeB), ":", CtxText(BPort));
    GoodSegs("option recovery-keys value ", CtxText(KeyRx), ",", CtxText(KeyTx));
    GoodSegs("option recovery-keys value ", CtxText(KeyTx), ",", CtxText(KeyRx));
    GoodSegs("profile ", CtxText(MacsecProfile), ",", CtxText(KeyRx));
    GoodSegs("option macsec-intf value ", CtxText(MacsecIntf), ",", CtxText(KeyRx));
    GoodSegs("option peer value ", CtxText(PeerIp), ",", CtxText(KeyRx));
    GoodSegs("option peer-sae value ", CtxText(SaeId), ",", CtxText(KeyRx));
    GoodSegs("option peer-sae value ", CtxText(BSaeId), ",", CtxText(KeyRx));
    GoodSegs("an 0 key ", CtxText(KeyRx), ",", CtxText(KeyRx));
    GoodSegs("an 0 key ", CtxText(KeyTx), ",", CtxText(KeyRx));
  }

  /** Whatever the subnets, and whatever else the templates hold: the rendered
      configuration of a switch passes every check that looks for a text which
      depends on the subnets or stands in a snippet, because `build_substitutions`
      and the validator compute the same. */
  lemma RenderedPasses(t: string, sw: Node, lab: Lab)
    requires SwitchTemplate(t, sw) && ValidLab(lab)
    requires forall kind, role :: SnippetTemplate(RawSnippet(lab, kind, role), kind, role)
    ensures var r := Outcome(Fold(t, Dict(lab)));
            r.Ok? && forall c: Check | Applies(c, sw) :: Contains(r.text, Demand(c, sw, lab.nets))
  {
    hide Contains, Demand, TemplateLine, Fold, Outcome, ToMap, Indent, HasLine, Clean, Expand, Dict, PartLine, SnippetTemplate, SwitchTemplate, RawSnippet;
    SwitchParts(t, sw);
    DictRenders(t, lab);
    var m := ToMap(Dict(lab));
    forall c: Check | Applies(c, sw) ensures Contains(Expand(t, m), Demand(c, sw, lab.nets)) {
      if c.Quadra? {
        RenderedPart(c.part, t, sw, lab);
      } else {
        GoodTemplateLine(c, sw);
        LineRendered(t, Indent(c), TemplateLine(c, sw), m);
        LineIsDemand(c, sw, lab);
      }
    }
  }

  lemma SwitchParts(t: string, sw: Node)
    requires SwitchTemplate(t, sw)
    ensures IsSwitch(sw) && Clean(t) && Known(t)
    ensures forall c: Check | Applies(c, sw) :: HasLine(t, [Txt(Indent(c))] + TemplateLine(c, sw))
  {
  }

  lemma RenderedPart(part: Part, t: string, sw: Node, lab: Lab)
    requires SwitchTemplate(t, sw) && ValidLab(lab) && (sw.Ceos1? || sw.Ceos3?)
    requires SnippetTemplate(RawSnippet(lab, KindOf(part), RoleOf(sw)), KindOf(part), RoleOf(sw))
    ensures Contains(Expand(t, ToMap(Dict(lab))), Demand(Quadra(part), sw, lab.nets))
  {
    hide *;
    var role, kind := RoleOf(sw), KindOf(part);
    var raw := RawSnippet(lab, kind, role);
    LabNets(lab);
    PartTemplates(part, t, sw, raw);
    SnippetEntry(lab, kind, role);
    PartIsDemand(part, sw, lab.nets);
    PartDemandEnds(part, sw, lab.nets);
    QuadraDemand(part, sw, lab.nets);
    SnippetRendered(t, KeyText(SnippetKey(kind, role)), raw, PartIndent(part), PartLine(part, role), ToMap(Dict(lab)),
                    ToMap(Context(role, lab.nets)));
  }

  lemma QuadraDemand(part: Part, sw: Node, s: Subnets)
    requires s.Valid()
    ensures Demand(Quadra(part), sw, s) == PartDemand(part, sw, s)
  {
  }

  lemma LabNets(lab: Lab)
    requires ValidLab(lab)
    ensures lab.nets.Valid()
  {
  }

  lemma PartTemplates(part: Part, t: string, sw: Node, raw: string)
    requires SwitchTemplate(t, sw) && (sw.Ceos1? || sw.Ceos3?) && SnippetTemplate(raw, KindOf(part), RoleOf(sw))
    ensures var q := KeyText(SnippetKey(KindOf(part), RoleOf(sw)));
            Clean(t) && IsName(q) && HasLine(t, [Txt("")] + [Var(q)])
    ensures Clean(raw) && GoodSnippet(raw) && '$' !in PartIndent(part) && GoodLine(PartLine(part, RoleOf(sw)))
    ensures HasLine(raw, [Txt(PartIndent(part))] + PartLine(part, RoleOf(sw)))
  {
    hide HasLine, KeyText, IsName, Clean, GoodLine, PartLine, PartIndent, SnippetKey, KindOf;
    GoodPartLine(part, RoleOf(sw));
    KeyNames(SnippetKey(KindOf(part), RoleOf(sw)));
    assert Applies(Quadra(part), sw);
  }

  lemma SnippetEntry(lab: Lab, kind: Kind, role: Role)
    requires lab.nets.Valid() && GoodSnippet(RawSnippet(lab, kind, role))
    ensures var m, q := ToMap(Dict(lab)), KeyText(SnippetKey(kind, role));
            q in m && m[q] == StripNewlines(Expand(RawSnippet(lab, kind, role), ToMap(Context(role, lab.nets))))
  {
    hide ToMap, Dict, KeyText, StripNewlines, Expand, Context, GoodSnippet;
    DictHolds(SnippetKey(kind, role), lab);
    SnippetText(RawSnippet(lab, kind, role), role, lab.nets);
  }

  lemma PartDemandEnds(part: Part, sw: Node, s: Subnets)
    requires s.Valid()
    ensures var d := PartDemand(part, sw, s); d != "" && d[|d| - 1] != '\n'
  {
    if part.KmeEndpoint? { KmeDemandEnds(sw, s); }
  }

  lemma KmeDemandEnds(sw: Node, s: Subnets)
    requires s.Valid()
    ensures var d := PartDemand(KmeEndpoint, sw, s); d != "" && d[|d| - 1] != '\n'
  {
    hide Ip;
    var port := if sw.Ceos1? then M.Decimal(KME_A_PORT) else M.Decimal(KME_B_PORT);
    M.DecimalDigits(KME_A_PORT);
    M.DecimalDigits(KME_B_PORT);
    LastOf("option kme value " + (Ip(if sw.Ceos1? then KmeA else KmeB, s) + ":"), port);
    ConcatAssoc("option kme value ", Ip(if sw.Ceos1? then KmeA else KmeB, s) + ":", port);
  }

  lemma LastOf(a: string, b: string)
    requires b != ""
    ensures a + b != "" && (a + b)[|a + b| - 1] == b[|b| - 1]
  {
  }

  // ---- The server that must not be there ------------------------------------

  /** What must not occur: a RADIUS server over IPv4. */
  function Legacy(s: Subnets): string { "radius-server host " + Ip(Radius, s) + " vrf MGMT" }

  /** No `ra` inside. */
  predicate NoRa(s: string) { forall i | 0 < i < |s| :: s[i - 1] != 'r' || s[i] != 'a' }

  lemma ServerText()
    ensures NoRa("adius-server host ")
  {
  }

  lemma ProfileText()
    ensures NoRa(" vrf MGMT tls ssl-profile RADSEC")
  {
  }

  lemma NoRaLater(a: string, x: string, b: string, k: nat)
    requires NoRa(a) && M.Ipv6Chars(x) && NoRa(b) && a != "" && a[|a| - 1] == ' ' && b != "" && b[0] == ' '
    requires 0 < k && k + 1 < |"r" + a + x + b|
    ensures ("r" + a + x + b)[k] != 'r' || ("r" + a + x + b)[k + 1] != 'a'
  {
    var s := "r" + a + x + b;
    if k < |a| {
      assert s[k] == a[k - 1] && s[k + 1] == a[k];
    } else if k == |a| {
      assert s[k] == a[k - 1];
    } else if k < 1 + |a| + |x| {
      assert s[k] == x[k - 1 - |a|];
    } else {
      var i := k - 1 - |a| - |x|;
      assert s[k] == b[i] && s[k + 1] == b[i + 1];
    }
  }

  lemma AtTwo(s: string, p: string, k: nat)
    requires At(s, p, k) && |p| >= 2
    ensures k + 1 < |s| && s[k] == p[0] && s[k + 1] == p[1]
  {
    assert s[k..k + |p|][0] == s[k] && s[k..k + |p|][1] == s[k + 1];
  }

  /** An IPv4 address and an IPv6 address in the same place differ. */
  lemma FamiliesDiffer(a: string, x: string, b: string, y: string, c: string)
    requires M.Ipv6Chars(x) && M.Ipv4Chars(y) && '.' in y && b != "" && b[0] == ' '
    ensures !(a + y + c <= a + x + b)
  {
    var i :| 0 <= i < |y| && y[i] == '.';
    var s, p := a + x + b, a + y + c;
    if i < |x| {
      assert s[|a| + i] == x[i] && p[|a| + i] == '.';
    } else {
      assert s[|a| + |x|] == ' ' && p[|a| + |x|] == y[|x|];
    }
  }

  lemma RadsecElsewhere(sw: Node, s: Subnets, k: nat)
    requires s.Valid() && k > 0
    ensures !At(Demand(Radsec, sw, s), Legacy(s), k)
  {
    hide Ip, Ip6, NoRa;
    var d, p := Demand(Radsec, sw, s), Legacy(s);
    NodeAddress6(Radius, s);
    ServerText();
    ProfileText();
    assert "r" + "adius-server host " == "radius-server host ";
    if k + 1 < |d| { NoRaLater("adius-server host ", Ip6(Radius, s), " vrf MGMT tls ssl-profile RADSEC", k); }
    if At(d, p, k) { AtTwo(d, p, k); }
  }

  /** An IPv6 server line never looks like an IPv4 one. */
  lemma RadsecNotLegacy(sw: Node, s: Subnets)
    requires s.Valid()
    ensures !Contains(Demand(Radsec, sw, s), Legacy(s))
  {
    hide Ip, Ip6, NoRa;
    var d, p := Demand(Radsec, sw, s), Legacy(s);
    NodeAddress(Radius, s);
    NodeAddress6(Radius, s);
    FamiliesDiffer("radius-server host ", Ip6(Radius, s), " vrf MGMT tls ssl-profile RADSEC", Ip(Radius, s), " vrf MGMT");
    forall k: nat ensures !At(d, p, k) {
      if k > 0 {
        RadsecElsewhere(sw, s, k);
      } else {
        assert d[..|d|] == d;
      }
    }
  }

  /** The check that no IPv4 RADIUS server is configured passes exactly when no
      other line of the template renders to a text with one: the RadSec line
      itself never trips it, whatever the subnets. */
  lemma LegacyAbsentExactly(t: string, sw: Node, lab: Lab)
    requires lab.nets.Valid() && IsSwitch(sw)
    ensures var m, ls := ToMap(Dict(lab)), LinesOf(Scan(t));
            !Contains(Expand(t, m), Legacy(lab.nets)) <==>
            forall i | 0 <= i < |ls| && ls[i] != PiecesOf(TemplateLine(Radsec, sw)) ::
              !Contains(LineText(ls[i], m), Legacy(lab.nets))
  {
    hide Contains, LineText, LinesOf, Scan, Legacy, TemplateLine, Demand, ToMap, Dict, Expand;
    var m := ToMap(Dict(lab));
    LegacyOneLine(lab.nets);
    RenderedContains(t, m, Legacy(lab.nets));
    RadsecLineText(sw, lab);
    RadsecNotLegacy(sw, lab.nets);
  }

  lemma RadsecLineText(sw: Node, lab: Lab)
    requires lab.nets.Valid() && IsSwitch(sw)
    ensures LineText(PiecesOf(TemplateLine(Radsec, sw)), ToMap(Dict(lab))) == Demand(Radsec, sw, lab.nets)
  {
    hide TemplateLine, Demand, ToMap, Dict, ValueOf;
    GoodTemplateLine(Radsec, sw);
    LineMeaning(TemplateLine(Radsec, sw), ToMap(Dict(lab)));
    LineIsDemand(Radsec, sw, lab);
  }

  lemma LegacyOneLine(s: Subnets)
    ensures Legacy(s) != "" && '\n' !in Legacy(s)
  {
    hide Ip;
    NodeAddress(Radius, s);
  }

  // ---- Texts made of lines --------------------------------------------------

  function LineStrings(lines: seq<seq<Seg>>): (texts: seq<string>)
    ensures |texts| == |lines| && forall i | 0 <= i < |lines| :: texts[i] == TextOf(lines[i])
  {
    seq(|lines|, i requires 0 <= i < |lines| => TextOf(lines[i]))
  }

  /** The text with these lines. */
  function Assemble(lines: seq<seq<Seg>>): string
    requires lines != []
  {
    Join(LineStrings(lines), '\n')
  }

  predicate GoodLines(lines: seq<seq<Seg>>) { forall i | 0 <= i < |lines| :: GoodLine(lines[i]) }

  function VarsOf(line: seq<Seg>): set<string> { set i | 0 <= i < |line| && line[i].Var? :: line[i].name }

  lemma {:induction false} LineNames(line: seq<Seg>)
    requires GoodLine(line)
    ensures PieceNames(PiecesOf(line)) <= VarsOf(line)
  {
    if line != [] {
      assert GoodLine(line[1..]);
      LineNames(line[1..]);
      NamesConcat(SegPieces(line[0]), PiecesOf(line[1..]));
      assert VarsOf(line[1..]) <= VarsOf(line) by {
        assert forall i | 0 <= i < |line[1..]| :: line[1..][i] == line[i + 1];
      }
      NamesOne(Ref(if line[0].Var? then line[0].name else ""));
    }
  }

  lemma LineIsClean(line: seq<Seg>)
    requires GoodLine(line)
    ensures Clean(TextOf(line)) && Names(TextOf(line)) <= VarsOf(line)
  {
    hide TextOf, PiecesOf;
    LineMeaning(line, map[]);
    ScanFlatten(PiecesOf(line));
    LineNames(line);
  }

  /** Such a text is a clean template with no other names, and has its lines. */
  lemma {:induction false} Assembled(lines: seq<seq<Seg>>, known: set<string>)
    requires lines != [] && GoodLines(lines) && forall i | 0 <= i < |lines| :: VarsOf(lines[i]) <= known
    ensures Clean(Assemble(lines)) && Names(Assemble(lines)) <= known
    ensures forall i | 0 <= i < |lines| :: HasLine(Assemble(lines), lines[i])
  {
    hide Clean, Names, TextOf, VarsOf, GoodLine;
    LineIsClean(lines[0]);
    if |lines| == 1 {
      assert LineStrings(lines) == [TextOf(lines[0])];
      assert IsLine(Assemble(lines), lines[0], "", "");
    } else {
      var rest := lines[1..];
      assert LineStrings(lines)[1..] == LineStrings(rest);
      Assembled(rest, known);
      var head, tail := TextOf(lines[0]), "\n" + Assemble(rest);
      assert Assemble(lines) == head + tail;
      LineBreakNames(Assemble(rest));
      SplitNames(head, tail);
      assert IsLine(Assemble(lines), lines[0], "", tail);
      forall i | 1 <= i < |lines| ensures HasLine(Assemble(lines), lines[i]) {
        assert HasLine(Assemble(rest), rest[i - 1]);
        LineFurtherDown(head, Assemble(rest), lines[i]);
      }
    }
  }

  lemma LineBreakNames(s: string)
    ensures Names("\n" + s) == Names(s) && (Clean(s) ==> Clean("\n" + s))
  {
    SplitNames("\n", s);
    BlankExpand("\n", map[]);
    BlankScan("\n");
  }

  lemma LineFurtherDown(head: string, s: string, line: seq<Seg>)
    requires HasLine(s, line)
    ensures HasLine(head + ("\n" + s), line)
  {
    var a, b :| IsLine(s, line, a, b);
    var more := head + ("\n" + a);
    assert head + ("\n" + s) == more + (TextOf(line) + b);
    assert IsLine(head + ("\n" + s), line, more, b);
  }

  /** The keys' names. */
  ghost predicate KeyVars(lines: seq<seq<Seg>>) {
    forall i | 0 <= i < |lines| :: forall n | n in VarsOf(lines[i]) :: exists k: Key :: n == KeyText(k)
  }

  /** Any text made of lines, as the files in configs/ceos/ are, is a template of
      a switch if the checked lines are among them. */
  lemma AssembledSwitch(lines: seq<seq<Seg>>, sw: Node)
    requires IsSwitch(sw) && lines != [] && GoodLines(lines) && KeyVars(lines)
    requires forall c: Check | Applies(c, sw) :: ([Txt(Indent(c))] + TemplateLine(c, sw)) in lines
    ensures SwitchTemplate(Assemble(lines), sw)
  {
    hide GoodLines, VarsOf, HasLine, Clean, Names, Assemble, TemplateLine, Indent, KeyText;
    var known := set i, n | 0 <= i < |lines| && n in VarsOf(lines[i]) :: n;
    forall i | 0 <= i < |lines| ensures VarsOf(lines[i]) <= known { }
    Assembled(lines, known);
  }

  /** And a text made of lines with names of the context is a snippet if its parts'
      lines are among them. */
  lemma AssembledSnippet(lines: seq<seq<Seg>>, kind: Kind, role: Role)
    requires lines != [] && GoodLines(lines)
    requires forall part | KindOf(part) == kind :: ([Txt(PartIndent(part))] + PartLine(part, role)) in lines
    requires forall i | 0 <= i < |lines| :: VarsOf(lines[i]) <= (set k: CtxKey | k in CTX_KEYS :: CtxText(k))
    ensures SnippetTemplate(Assemble(lines), kind, role)
  {
    hide GoodLines, VarsOf, HasLine, Clean, Names, Assemble, PartLine, PartIndent, CtxText;
    Assembled(lines, set k: CtxKey | k in CTX_KEYS :: CtxText(k));
  }

  function PartLines(parts: seq<Part>, role: Role): (lines: seq<seq<Seg>>)
    ensures |lines| == |parts|
    ensures forall i | 0 <= i < |parts| :: lines[i] == [Txt(PartIndent(parts[i]))] + PartLine(parts[i], role)
  {
    seq(|parts|, i requires 0 <= i < |parts| => [Txt(PartIndent(parts[i]))] + PartLine(parts[i], role))
  }

  const PARTS: seq<Part> := [ProfileName, RxKey, TxKey, MacsecPort, PeerAddress, KmeEndpoint, PeerSae, RecoveryKeys]

  /** For one, the text of just these lines, for either kind. */
  lemma BareSnippet(kind: Kind, role: Role)
    ensures SnippetTemplate(Assemble(PartLines(PARTS, role)), kind, role)
  {
    hide GoodLine, CtxText, SnippetTemplate, Assemble, PartLine, PartIndent, VarsOf;
    var lines := PartLines(PARTS, role);
    forall i | 0 <= i < |lines|
      ensures GoodLine(lines[i]) && VarsOf(lines[i]) <= (set k: CtxKey | k in CTX_KEYS :: CtxText(k))
    {
      GoodPartLine(PARTS[i], role);
      Indented(PartIndent(PARTS[i]), PartLine(PARTS[i], role));
      PartVars(PARTS[i], role);
    }
    forall part: Part ensures ([Txt(PartIndent(part))] + PartLine(part, role)) in lines { ListedPart(part, role); }
    AssembledSnippet(lines, kind, role);
  }

  lemma ListedPart(part: Part, role: Role)
    ensures ([Txt(PartIndent(part))] + PartLine(part, role)) in PartLines(PARTS, role)
  {
    hide PartLine, PartIndent;
    var i := match part
      case ProfileName => 0
      case RxKey => 1
      case TxKey => 2
      case MacsecPort => 3
      case PeerAddress => 4
      case KmeEndpoint => 5
      case PeerSae => 6
      case RecoveryKeys => 7;
    assert PARTS[i] == part;
    assert PartLines(PARTS, role)[i] == [Txt(PartIndent(part))] + PartLine(part, role);
  }

  lemma PartVars(part: Part, role: Role)
    ensures VarsOf([Txt(PartIndent(part))] + PartLine(part, role)) <= (set k: CtxKey | k in CTX_KEYS :: CtxText(k))
  {
    hide CtxText;
    forall k: CtxKey ensures k in CTX_KEYS { CtxRanks(k, 0); }
  }

  function CheckLines(sw: Node, cs: seq<Check>): (lines: seq<seq<Seg>>)
    ensures |lines| == |cs| && forall i | 0 <= i < |cs| :: lines[i] == [Txt(Indent(cs[i]))] + TemplateLine(cs[i], sw)
  {
    seq(|cs|, i requires 0 <= i < |cs| => [Txt(Indent(cs[i]))] + TemplateLine(cs[i], sw))
  }

  const CHECKS: seq<Check> := [Address, Route, Address6, Route6, Radsec, RadsecGroup, Syslog4, Syslog6, Quadra(ProfileName), Quadra(MacsecPort)]

  /** For one, the text of just these lines. */
  lemma BareTemplate(sw: Node)
    requires IsSwitch(sw)
    ensures SwitchTemplate(Assemble(CheckLines(sw, CHECKS)), sw)
  {
    hide TemplateLine, Indent, GoodLine, VarsOf, SwitchTemplate, KeyText;
    var lines := CheckLines(sw, CHECKS);
    forall i | 0 <= i < |lines| ensures GoodLine(lines[i]) {
      GoodTemplateLine(CHECKS[i], sw);
      Indented(Indent(CHECKS[i]), TemplateLine(CHECKS[i], sw));
    }
    forall i | 0 <= i < |lines| ensures forall n | n in VarsOf(lines[i]) :: exists k: Key :: n == KeyText(k) {
      CheckVars(CHECKS[i], sw);
    }
    forall c: Check ensures ([Txt(Indent(c))] + TemplateLine(c, sw)) in lines { ListedCheck(c, sw); }
    AssembledSwitch(lines, sw);
  }

  lemma Indented(indent: string, line: seq<Seg>)
    requires '$' !in indent && GoodLine(line)
    ensures GoodLine([Txt(indent)] + line)
  {
    var all := [Txt(indent)] + line;
    assert forall i | 0 < i < |all| :: all[i] == line[i - 1];
  }

  lemma CheckVars(c: Check, sw: Node)
    ensures forall n | n in VarsOf([Txt(Indent(c))] + TemplateLine(c, sw)) :: exists k: Key :: n == KeyText(k)
  {
    hide KeyText;
  }

  lemma ListedCheck(c: Check, sw: Node)
    ensures ([Txt(Indent(c))] + TemplateLine(c, sw)) in CheckLines(sw, CHECKS)
  {
    hide KeyText;
    var i := match c
      case Address => 0
      case Route => 1
      case Address6 => 2
      case Route6 => 3
      case Radsec => 4
      case RadsecGroup => 5
      case Syslog4 => 6
      case Syslog6 => 7
      case Quadra(part) => if KindOf(part).MacsecPart? then 8 else 9;
    assert c.Quadra? || CHECKS[i] == c;
    assert TemplateLine(CHECKS[i], sw) == TemplateLine(c, sw) && Indent(CHECKS[i]) == Indent(c);
    assert CheckLines(sw, CHECKS)[i] == [Txt(Indent(c))] + TemplateLine(c, sw);
  }

  // ---- Snippets -------------------------------------------------------------

  /** A line of a QuaDRA snippet reaches the switch configuration through both
      renderings and the stripping in between, whatever it looks like. */
  lemma SnippetRendered(t: string, q: string, raw: string, indent: string, demand: seq<Seg>,
                        m: map<string, string>, ctx: map<string, string>)
    requires Clean(t) && IsName(q) && HasLine(t, [Txt("")] + [Var(q)])
    requires Clean(raw) && '$' !in indent && GoodLine(demand) && HasLine(raw, [Txt(indent)] + demand)
    requires q in m && m[q] == StripNewlines(Expand(raw, ctx))
    requires ValueOf(demand, ctx) != "" && ValueOf(demand, ctx)[|ValueOf(demand, ctx)| - 1] != '\n'
    ensures Contains(Expand(t, m), ValueOf(demand, ctx))
  {
    hide Contains, Expand, HasLine, StripNewlines;
    var v := ValueOf(demand, ctx);
    LineRendered(raw, indent, demand, ctx);
    SurvivesStrip(Expand(raw, ctx), v);
    LineRendered(t, "", [Var(q)], m);
    OneVar(q, m);
    ContainsIn(Expand(t, m), m[q], v);
  }

  /** The access list's file is pasted in whole, up to line breaks at its end. */
  lemma AclRendered(t: string, lab: Lab, p: string)
    requires Clean(t) && lab.nets.Valid() && HasLine(t, [Txt("")] + [KeyVar(ControlPlaneAcl)])
    requires Contains(lab.acl, p) && p != "" && p[|p| - 1] != '\n'
    ensures Contains(Expand(t, ToMap(Dict(lab))), p)
  {
    hide Contains, Expand, HasLine, StripNewlines, ToMap, Dict, IsName, KeyText, GoodLine;
    var m, q := ToMap(Dict(lab)), KeyText(ControlPlaneAcl);
    DictHolds(ControlPlaneAcl, lab);
    SurvivesStrip(lab.acl, p);
    KeyNames(ControlPlaneAcl);
    GoodVar(q);
    LineRendered(t, "", [Var(q)], m);
    OneVar(q, m);
    ContainsIn(Expand(t, m), m[q], p);
  }

  /** The switches' image is the one asked for. */
  lemma ImageRendered(t: string, lab: Lab, indent: string)
    requires Clean(t) && lab.nets.Valid() && '$' !in indent && HasLine(t, [Txt(indent)] + [Txt("image: "), KeyVar(CeosImage)])
    ensures Contains(Expand(t, ToMap(Dict(lab))), "image: " + lab.image)
  {
    hide Contains, Expand, HasLine, ToMap, Dict, IsName, KeyText, GoodLine;
    var m, q := ToMap(Dict(lab)), KeyText(CeosImage);
    DictHolds(CeosImage, lab);
    KeyNames(CeosImage);
    assert '$' !in "image: ";
    GoodSegs("image: ", q, "image: ", q);
    LineRendered(t, indent, [Txt("image: "), Var(q)], m);
    TwoSegs("image: ", q, m);
  }

  lemma OneVar(q: string, m: map<string, string>)
    requires q in m
    ensures ValueOf([Var(q)], m) == m[q]
  {
    assert ValueOf([Var(q)], m) == m[q] + ValueOf([], m);
  }

  lemma SurvivesStrip(s: string, v: string)
    requires Contains(s, v) && v != "" && v[|v| - 1] != '\n'
    ensures Contains(StripNewlines(s), v)
  {
    var k := Find(s, v);
    var r := StripNewlines(s);
    assert s[k + |v| - 1] == s[k..k + |v|][|v| - 1];
    assert k + |v| <= |r|;
    SliceOfPrefix(s, |r|, k, k + |v|);
    ContainsAt(r, v, k);
  }

  lemma SliceOfPrefix(s: string, n: nat, a: nat, b: nat)
    requires a <= b <= n <= |s|
    ensures s[..n][a..b] == s[a..b]
  {
    var left, right := s[..n][a..b], s[a..b];
    forall k | 0 <= k < b - a ensures left[k] == right[k] { }
  }

  lemma ContainsIn(s: string, x: string, p: string)
    requires Contains(s, x) && Contains(x, p)
    ensures Contains(s, p)
  {
    var i, j := Find(s, x), Find(x, p);
    SliceOfSlice(s, i, i + |x|, j, |p|);
    ContainsAt(s, p, i + j);
  }

  lemma SliceOfSlice(s: string, a: nat, b: nat, j: nat, n: nat)
    requires a <= b <= |s| && j + n <= b - a
    ensures s[a..b][j..j + n] == s[a + j..a + j + n]
  {
    var left, right := s[a..b][j..j + n], s[a + j..a + j + n];
    forall k | 0 <= k < n ensures left[k] == right[k] { }
  }
}
