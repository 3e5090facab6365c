/** The rendered topology and the environment of the KMEs
    (lab/quantum-safe.clab.yml, lab/topology_contract.py).  The file is read as
    the nested block mappings it is made of: a path of keys, each level indented
    by two more spaces, leads to the text of a scalar.  Rendering keeps the keys,
    so looking a path up in the rendered file gives the rendered value, which is
    compared with what the validator computes from the same subnets. */
module Topology {
  import opened Text
  import opened RenderTopo
  import opened LabDict
  import opened RenderValidate
  import opened YamlScalars
  import M = MgmtAddresses

  // ---- Reading block mappings -----------------------------------------------

  function Depth(l: string): nat { if l != "" && l[0] == ' ' then 1 + Depth(l[1..]) else 0 }

  /** The line ends a block that is indented by more than `d`. */
  predicate Ends(l: string, d: nat) { l != "" && Depth(l) <= d }

  function Block(ls: seq<string>, d: nat): seq<string> {
    if ls == [] || Ends(ls[0], d) then [] else [ls[0]] + Block(ls[1..], d)
  }

  function Head(d: nat, key: string): string { Spaces(d) + key + ":" }

  /** The lines below a key that has a mapping as its value. */
  function Child(ls: seq<string>, d: nat, key: string): Option<seq<string>> {
    if ls == [] then None
    else if ls[0] == Head(d, key) then Some(Block(ls[1..], d))
    else Child(ls[1..], d, key)
  }

  /** The text of a scalar value. */
  function Scalar(ls: seq<string>, d: nat, key: string): Option<string> {
    if ls == [] then None
    else if StartsWith(ls[0], Head(d, key) + " ") then Some(ls[0][|Head(d, key) + " "|..])
    else Scalar(ls[1..], d, key)
  }

  /** `data[path[0]][path[1]]...`, each level indented by two. */
  function Lookup(ls: seq<string>, d: nat, path: seq<string>): Option<string>
    decreases |path|
  {
    if path == [] then None
    else if |path| == 1 then Scalar(ls, d, path[0])
    else
      match Child(ls, d, path[0])
      case None => None
      case Some(below) => Lookup(below, d + 2, path[1..])
  }

  /** The scalar at a path. */
  function Read(text: string, path: seq<string>): Option<Scalar> {
    match Lookup(Split(text, '\n'), 0, path)
    case None => None
    case Some(v) => Some(Resolve(v))
  }

  // ---- Rendering keeps the structure ----------------------------------------

  /** Placeholders are only in values. */
  ghost predicate KeyFirst(l: string) {
    '$' in l ==> exists j: nat :: KeyEnds(l, j)
  }

  predicate KeyEnds(l: string, j: nat) {
    j + 1 < |l| && l[j] == ':' && l[j + 1] == ' ' && '$' !in l[..j] && ':' !in l[..j]
  }

  predicate IsKey(key: string) { key != "" && key[0] != ' ' && ':' !in key }

  lemma {:induction false} ScanPlain(p: string, s: string)
    requires '$' !in p
    ensures Scan(p + s) == Lits(p) + Scan(s)
  {
    hide *;
    if p == "" {
      assert p + s == s;
      assert |Lits(p)| == 0;
      assert Lits(p) + Scan(s) == Scan(s);
    } else {
      PlainTail(p);
      NoHead(p[0], p[1..] + s);
      ScanPlain(p[1..], s);
      ConcatAssoc([p[0]], p[1..], s);
      ScanChar(p[0], p[1..] + s);
      PieceAssoc([Lit(p[0])], Lits(p[1..]), Scan(s));
    }
  }

  lemma ScanChar(c: char, t: string)
    requires !TokenHead([c] + t)
    ensures Scan([c] + t) == [Lit(c)] + Scan(t)
  {
    ScanCons(Lit(c), t);
  }

  lemma PlainTail(p: string)
    requires '$' !in p && p != ""
    ensures p[0] != '$' && '$' !in p[1..] && p == [p[0]] + p[1..] && Lits(p) == [Lit(p[0])] + Lits(p[1..])
  {
    hide Lits;
    assert p[0] in p;
    assert p == [p[0]] + p[1..];
    var all, tail := Lits(p), Lits(p[1..]);
    forall i | 0 <= i < |all| ensures all[i] == ([Lit(p[0])] + tail)[i] { }
  }

  lemma ExpandPlain(p: string, s: string, m: map<string, string>)
    requires '$' !in p
    ensures Expand(p + s, m) == p + Expand(s, m)
  {
    ScanPlain(p, s);
    SubstConcat(Lits(p), Scan(s), m);
    SubstLits(p, m);
    FlattenConcat(Lits(p), SubstPieces(Scan(s), m));
    FlattenLits(p);
  }

  lemma ExpandNothing(p: string, m: map<string, string>)
    requires '$' !in p
    ensures Expand(p, m) == p
  {
    ExpandPlain(p, "", m);
    assert p + "" == p;
    assert Expand("", m) == "";
  }

  /** A line with a placeholder, and its rendering, have the same key. */
  lemma LineShape(l: string, m: map<string, string>) returns (pre: string, rest: string)
    requires KeyFirst(l) && '$' in l
    ensures '$' !in pre && ':' !in pre && l == pre + (": " + rest) && Expand(l, m) == pre + (": " + Expand(rest, m))
  {
    hide Expand;
    var j: nat :| KeyEnds(l, j);
    pre, rest := l[..j], l[j + 2..];
    assert l == pre + (": " + rest);
    ExpandPlain(pre, ": " + rest, m);
    ExpandPlain(": ", rest, m);
  }

  lemma {:induction false} SpacesDepth(d: nat, x: string)
    requires x == "" || x[0] != ' '
    ensures Depth(Spaces(d) + x) == d
  {
    if d == 0 {
      assert Spaces(0) + x == x;
    } else {
      SpacesDepth(d - 1, x);
      assert (Spaces(d) + x)[1..] == Spaces(d - 1) + x;
    }
  }

  lemma {:induction false} DepthOfKey(pre: string, x: string, y: string)
    ensures Depth(pre + (": " + x)) == Depth(pre + (": " + y))
  {
    if pre == "" {
      assert pre + (": " + x) == ": " + x && pre + (": " + y) == ": " + y;
    } else {
      DepthOfKey(pre[1..], x, y);
      assert (pre + (": " + x))[1..] == pre[1..] + (": " + x);
      assert (pre + (": " + y))[1..] == pre[1..] + (": " + y);
    }
  }

  lemma EndsAlike(l: string, m: map<string, string>, d: nat)
    requires KeyFirst(l)
    ensures Ends(l, d) <==> Ends(Expand(l, m), d)
  {
    if '$' in l {
      var pre, rest := LineShape(l, m);
      DepthOfKey(pre, rest, Expand(rest, m));
    } else {
      ExpandNothing(l, m);
    }
  }

  lemma BeforeColon(pre: string, x: string)
    requires ':' !in pre
    ensures Split(pre + (":" + x), ':')[0] == pre
  {
    SplitPrefix(pre, ":" + x, ':');
    assert (":" + x)[0] == ':' && Split(":" + x, ':')[0] == "";
    assert pre + "" == pre;
  }

  /** A text has one place for its first colon. */
  lemma FirstColon(pre: string, x: string, k: string, y: string)
    requires ':' !in pre && ':' !in k && pre + (":" + x) == k + (":" + y)
    ensures pre == k && x == y
  {
    hide Split;
    BeforeColon(pre, x);
    BeforeColon(k, y);
    assert pre == k;
    assert (pre + (":" + x))[|pre| + 1..] == x;
    assert (pre + (":" + y))[|pre| + 1..] == y;
  }

  lemma HeadParts(d: nat, key: string)
    requires IsKey(key)
    ensures ':' !in Spaces(d) + key && Head(d, key) == (Spaces(d) + key) + (":" + "")
    ensures Head(d, key) + " " == (Spaces(d) + key) + ": "
  {
  }

  /** A key line with a value is no head of a mapping. */
  lemma ValueNoHead(pre: string, x: string, d: nat, key: string)
    requires IsKey(key) && ':' !in pre
    ensures pre + (": " + x) != Head(d, key)
  {
    HeadParts(d, key);
    if pre + (": " + x) == Head(d, key) {
      assert ": " + x == ":" + (" " + x);
      FirstColon(pre, " " + x, Spaces(d) + key, "");
    }
  }

  lemma HeadAlike(l: string, m: map<string, string>, d: nat, key: string)
    requires KeyFirst(l) && IsKey(key)
    ensures l == Head(d, key) <==> Expand(l, m) == Head(d, key)
  {
    if '$' in l {
      var pre, rest := LineShape(l, m);
      ValueNoHead(pre, rest, d, key);
      ValueNoHead(pre, Expand(rest, m), d, key);
    } else {
      ExpandNothing(l, m);
    }
  }

  /** A key line starts with exactly its own key. */
  lemma StartsWithKey(pre: string, x: string, d: nat, key: string)
    requires IsKey(key) && ':' !in pre
    ensures StartsWith(pre + (": " + x), Head(d, key) + " ") <==> pre == Spaces(d) + key
    ensures pre == Spaces(d) + key ==> (pre + (": " + x))[|Head(d, key) + " "|..] == x
  {
    hide Spaces, Head, IsKey;
    HeadParts(d, key);
    var s, h := pre + (": " + x), Head(d, key) + " ";
    if pre == Spaces(d) + key {
      assert s == h + x;
    } else if StartsWith(s, h) {
      var y := s[|h|..];
      assert s == h + y;
      assert s == pre + (":" + (" " + x)) && s == (Spaces(d) + key) + (":" + (" " + y));
      FirstColon(pre, " " + x, Spaces(d) + key, " " + y);
    }
  }

  lemma ScalarAlike(l: string, m: map<string, string>, d: nat, key: string)
    requires KeyFirst(l) && IsKey(key)
    ensures var h := Head(d, key) + " ";
            && (StartsWith(l, h) <==> StartsWith(Expand(l, m), h))
            && (StartsWith(l, h) ==> Expand(l, m)[|h|..] == Expand(l[|h|..], m))
  {
    var h := Head(d, key) + " ";
    if '$' in l {
      var pre, rest := LineShape(l, m);
      StartsWithKey(pre, rest, d, key);
      StartsWithKey(pre, Expand(rest, m), d, key);
    } else {
      ExpandNothing(l, m);
      if StartsWith(l, h) {
        assert forall i | |h| <= i < |l| :: l[|h|..][i - |h|] == l[i] && l[i] in l;
        ExpandNothing(l[|h|..], m);
      }
    }
  }

  // ---- Looking up in a rendering --------------------------------------------

  function Render(ls: seq<string>, m: map<string, string>): seq<string> {
    if ls == [] then [] else [Expand(ls[0], m)] + Render(ls[1..], m)
  }

  ghost predicate KeysFirst(ls: seq<string>) { forall i | 0 <= i < |ls| :: KeyFirst(ls[i]) }

  lemma {:induction false} BlockRendered(ls: seq<string>, m: map<string, string>, d: nat)
    requires KeysFirst(ls)
    ensures Block(Render(ls, m), d) == Render(Block(ls, d), m) && KeysFirst(Block(ls, d))
  {
    hide KeyFirst, Ends, Expand;
    if ls != [] {
      EndsAlike(ls[0], m, d);
      BlockRendered(ls[1..], m, d);
      RenderCons(ls[0], ls[1..], m);
      RenderCons(ls[0], Block(ls[1..], d), m);
    }
  }

  lemma RenderCons(l: string, ls: seq<string>, m: map<string, string>)
    ensures Render([l] + ls, m) == [Expand(l, m)] + Render(ls, m) && Render([l] + ls, m)[1..] == Render(ls, m)
  {
    assert ([l] + ls)[1..] == ls;
  }

  lemma {:induction false} ChildRendered(ls: seq<string>, m: map<string, string>, d: nat, key: string)
    requires KeysFirst(ls) && IsKey(key)
    ensures match Child(ls, d, key)
            case None => Child(Render(ls, m), d, key) == None
            case Some(below) => Child(Render(ls, m), d, key) == Some(Render(below, m)) && KeysFirst(below)
  {
    hide KeyFirst, Head, Expand, Block;
    if ls != [] {
      HeadAlike(ls[0], m, d, key);
      BlockRendered(ls[1..], m, d);
      ChildRendered(ls[1..], m, d, key);
      assert ls == [ls[0]] + ls[1..];
      RenderCons(ls[0], ls[1..], m);
    }
  }

  lemma {:induction false} ScalarRendered(ls: seq<string>, m: map<string, string>, d: nat, key: string)
    requires KeysFirst(ls) && IsKey(key)
    ensures match Scalar(ls, d, key)
            case None => Scalar(Render(ls, m), d, key) == None
            case Some(v) => Scalar(Render(ls, m), d, key) == Some(Expand(v, m))
  {
    hide KeyFirst, Head, Expand, StartsWith;
    if ls != [] {
      ScalarAlike(ls[0], m, d, key);
      ScalarRendered(ls[1..], m, d, key);
      assert ls == [ls[0]] + ls[1..];
      RenderCons(ls[0], ls[1..], m);
    }
  }

  predicate Keys(path: seq<string>) { forall i | 0 <= i < |path| :: IsKey(path[i]) }

  /** Looking a path up in the rendered lines gives the rendered value. */
  lemma {:induction false} LookupRendered(ls: seq<string>, m: map<string, string>, d: nat, path: seq<string>)
    requires KeysFirst(ls) && Keys(path)
    ensures match Lookup(ls, d, path)
            case None => Lookup(Render(ls, m), d, path) == None
            case Some(v) => Lookup(Render(ls, m), d, path) == Some(Expand(v, m))
    decreases |path|
  {
    hide KeysFirst, Child, Scalar, Expand;
    if |path| == 1 {
      ScalarRendered(ls, m, d, path[0]);
    } else if |path| > 1 {
      ChildRendered(ls, m, d, path[0]);
      var c := Child(ls, d, path[0]);
      if c.Some? { LookupRendered(c.value, m, d + 2, path[1..]); }
    }
  }

  // ---- The lines of a rendering ---------------------------------------------

  lemma {:induction false} ExpandLines(ls: seq<string>, m: map<string, string>)
    requires ls != []
    ensures Render(ls, m) != [] && Expand(Join(ls, '\n'), m) == Join(Render(ls, m), '\n')
  {
    hide Expand;
    assert ls == [ls[0]] + ls[1..];
    RenderCons(ls[0], ls[1..], m);
    if |ls| > 1 {
      ExpandLines(ls[1..], m);
      var tail := "\n" + Join(ls[1..], '\n');
      ConcatAssoc(ls[0], "\n", Join(ls[1..], '\n'));
      ExpandSplit(ls[0], tail, m);
      NewlineExpand(Join(ls[1..], '\n'), m);
      ConcatAssoc(Expand(ls[0], m), "\n", Join(Render(ls[1..], m), '\n'));
    }
  }

  lemma NewlineExpand(s: string, m: map<string, string>)
    ensures Expand("\n" + s, m) == "\n" + Expand(s, m)
  {
    ExpandPlain("\n", s, m);
  }

  /** The values of a template's names are one line each. */
  ghost predicate OneLineValues(names: set<string>, m: map<string, string>) {
    forall n | n in names && n in m :: '\n' !in m[n]
  }

  lemma {:induction false} SubstOneLine(ps: seq<Piece>, m: map<string, string>)
    requires OneLineValues(PieceNames(ps), m) && '\n' !in Flatten(ps)
    ensures '\n' !in Flatten(SubstPieces(ps, m))
  {
    if ps != [] {
      HeadNames(ps);
      SubstOneLine(ps[1..], m);
      FlattenConcat(SubstOne(ps[0], m), SubstPieces(ps[1..], m));
      if ps[0].Ref? && ps[0].name in m {
        FlattenLits(m[ps[0].name]);
      } else {
        FlattenCons(ps[0], []);
      }
    }
  }

  lemma {:induction false} RenderFree(ls: seq<string>, m: map<string, string>)
    requires Free(ls, '\n') && forall i | 0 <= i < |ls| :: OneLineValues(Names(ls[i]), m)
    ensures Free(Render(ls, m), '\n')
  {
    hide Expand, Names, OneLineValues;
    if ls != [] {
      LineFree(ls[0], m);
      RenderFree(ls[1..], m);
    }
  }

  lemma LineFree(l: string, m: map<string, string>)
    requires '\n' !in l && OneLineValues(Names(l), m)
    ensures '\n' !in Expand(l, m)
  {
    SubstOneLine(Scan(l), m);
  }

  lemma {:induction false} JoinNames(ls: seq<string>)
    requires ls != []
    ensures forall i | 0 <= i < |ls| :: Names(ls[i]) <= Names(Join(ls, '\n'))
  {
    hide Names;
    if |ls| > 1 {
      JoinNames(ls[1..]);
      var tail := "\n" + Join(ls[1..], '\n');
      ConcatAssoc(ls[0], "\n", Join(ls[1..], '\n'));
      SplitNames(ls[0], tail);
      LineBreakNames(Join(ls[1..], '\n'));
      assert forall i | 0 < i < |ls| :: ls[i] == ls[1..][i - 1];
    }
  }

  /** Splitting the rendering into lines gives the rendered lines. */
  lemma SplitRendered(t: string, m: map<string, string>)
    requires OneLineValues(Names(t), m)
    ensures Split(Expand(t, m), '\n') == Render(Split(t, '\n'), m)
  {
    hide Expand, Names, Split;
    var ls := Split(t, '\n');
    JoinSplit(t, '\n');
    JoinNames(ls);
    ExpandLines(ls, m);
    RenderFree(ls, m);
    SplitJoin(Render(ls, m), '\n');
  }

  // ---- What the validator demands -------------------------------------------

  const DEFAULT_MGMT_SUBNET: string := "172.20.127.0/24"
  const DEFAULT_MGMT_IPV6_SUBNET: string := "2001:db8:127::/64"

  predicate IsKme(n: Node) { n.KmeA? || n.KmeB? }

  /** The checks of `validate_topology` that depend on the subnets. */
  datatype Check =
    | Subnet4 | Gateway4 | Subnet6 | GatewayV6 | NodeV4(node: Node) | NodeV6(node: Node)
    | OtherKmes(node: Node) | ClientIps(node: Node)
  {
    predicate Valid() { (this.OtherKmes? || this.ClientIps?) ==> IsKme(node) }
  }

  function Path(c: Check): seq<string> {
    match c
    case Subnet4 => ["mgmt", "ipv4-subnet"]
    case Gateway4 => ["mgmt", "ipv4-gw"]
    case Subnet6 => ["mgmt", "ipv6-subnet"]
    case GatewayV6 => ["mgmt", "ipv6-gw"]
    case NodeV4(n) => ["topology", "nodes", NodeName(n), "mgmt-ipv4"]
    case NodeV6(n) => ["topology", "nodes", NodeName(n), "mgmt-ipv6"]
    case OtherKmes(n) => ["topology", "nodes", NodeName(n), "env", "OTHER_KMES"]
    case ClientIps(n) => ["topology", "nodes", NodeName(n), "env", "SAE_CLIENT_IPS"]
  }

  /** `KME_NODES`: the node to scan and its port. */
  function Peer(n: Node): (Node, nat) { if n.KmeA? then (KmeB, KME_B_PORT) else (KmeA, KME_A_PORT) }

  /** `kme_other_kmes`. */
  function OtherKmesUrl(ip: string, port: nat): string { "https://" + ip + ":" + M.Decimal(port) }

  /** `kme_sae_client_ips`: the clients' IPv4 addresses, then the IPv6 ones. */
  function SaeClientList(nodes: seq<Node>, s: Subnets): seq<string>
    requires s.Valid()
  {
    IpsOf(nodes, s) + Ips6Of(nodes, s)
  }

  function Expected(c: Check, s: Subnets): string
    requires s.Valid()
  {
    match c
    case Subnet4 => if s.subnet == "" then DEFAULT_MGMT_SUBNET else s.subnet
    case Gateway4 => Gateway(s)
    case Subnet6 => if s.subnet6 == "" then DEFAULT_MGMT_IPV6_SUBNET else s.subnet6
    case GatewayV6 => Gateway6(s)
    case NodeV4(n) => Ip(n, s)
    case NodeV6(n) => Ip6(n, s)
    case OtherKmes(n) => OtherKmesUrl(Ip(Peer(n).0, s), Peer(n).1)
    case ClientIps(_) => Join(SaeClientList(SAE_CLIENTS, s), ',')
  }

  /** What the template has as the value. */
  function Placeholder(c: Check): seq<Seg> {
    match c
    case Subnet4 => [Txt(""), KeyVar(MgmtSubnet)]
    case Gateway4 => [Txt(""), KeyVar(MgmtGateway)]
    case Subnet6 => [Txt(""), KeyVar(MgmtIpv6Subnet)]
    case GatewayV6 => [Txt(""), KeyVar(MgmtIpv6Gateway)]
    case NodeV4(n) => [Txt(""), KeyVar(NodeIp(n))]
    case NodeV6(n) => [Txt(""), KeyVar(NodeIpv6(n))]
    case OtherKmes(n) =>
      if n.KmeA? then [Txt("\"https://"), KeyVar(NodeIp(KmeB)), Txt(":8020\"")]
      else [Txt("\"https://"), KeyVar(NodeIp(KmeA)), Txt(":8010\"")]
    case ClientIps(_) => [Txt(""), KeyVar(SaeClientIps)]
  }

  ghost predicate OneLineNames(t: string) {
    forall n | n in Names(t) :: exists k: Key :: OneLine(k) && n == KeyText(k)
  }

  /** A topology template: placeholders for one-line values after keys, and the
      checked ones at their places, among any other text. */
  ghost predicate TopologyTemplate(t: string) {
    && Clean(t) && OneLineNames(t) && KeysFirst(Split(t, '\n'))
    && forall c: Check | c.Valid() :: Lookup(Split(t, '\n'), 0, Path(c)) == Some(TextOf(Placeholder(c)))
  }

  // ---- Both sides agree -----------------------------------------------------

  lemma MgmtKeys(c: Check)
    requires c.Subnet4? || c.Gateway4? || c.Subnet6? || c.GatewayV6?
    ensures Keys(Path(c))
  {
  }

  lemma NodeIsKey(n: Node)
    ensures IsKey(NodeName(n))
  {
  }

  lemma TopKeys()
    ensures IsKey("topology") && IsKey("nodes") && IsKey("mgmt-ipv4") && IsKey("mgmt-ipv6") && IsKey("env")
    ensures IsKey("OTHER_KMES") && IsKey("SAE_CLIENT_IPS")
  {
  }

  lemma PathKeys(c: Check)
    ensures Keys(Path(c))
  {
    hide IsKey, NodeName;
    match c
    case NodeV4(n) => NodeIsKey(n); TopKeys();
    case NodeV6(n) => NodeIsKey(n); TopKeys();
    case OtherKmes(n) => NodeIsKey(n); TopKeys();
    case ClientIps(n) => NodeIsKey(n); TopKeys();
    case _ => MgmtKeys(c);
  }

  /** The key whose value a check is about. */
  function KeyOf(c: Check): Key {
    match c
    case Subnet4 => MgmtSubnet
    case Gateway4 => MgmtGateway
    case Subnet6 => MgmtIpv6Subnet
    case GatewayV6 => MgmtIpv6Gateway
    case NodeV4(n) => NodeIp(n)
    case NodeV6(n) => NodeIpv6(n)
    case OtherKmes(n) => NodeIp(Peer(n).0)
    case ClientIps(_) => SaeClientIps
  }

  /** What the rendered placeholder reads as. */
  function Shown(c: Check, lab: Lab): string
    requires lab.nets.Valid()
  {
    match c
    case OtherKmes(n) => if n.KmeA? then "https://" + Ip(KmeB, lab.nets) + ":8020" else "https://" + Ip(KmeA, lab.nets) + ":8010"
    case _ => Value(KeyOf(c), lab)
  }

  lemma Ports()
    ensures M.Decimal(KME_A_PORT) == "8010" && M.Decimal(KME_B_PORT) == "8020"
  {
    assert M.Decimal(8) == "8" && M.Decimal(80) == "80" && M.Decimal(801) == "801" && M.Decimal(802) == "802";
  }

  /** The text that the code puts there is what the validator expects, except
      for an empty subnet argument, for which only the validator takes the default. */
  lemma ShownExactly(c: Check, lab: Lab)
    requires c.Valid() && lab.nets.Valid()
    ensures Shown(c, lab) == Expected(c, lab.nets) <==>
            (c.Subnet4? ==> lab.nets.subnet != "") && (c.Subnet6? ==> lab.nets.subnet6 != "")
  {
    hide Ip, Ip6, Gateway, Gateway6, M.Decimal, Join;
    Ports();
    if c.OtherKmes? {
      var ip := Ip(Peer(c.node).0, lab.nets);
      ConcatAssoc("https://" + ip, ":", if c.node.KmeA? then "8020" else "8010");
      assert ":" + "8020" == ":8020" && ":" + "8010" == ":8010";
    }
  }

  lemma NotQuoted(v: string)
    requires '"' !in v
    ensures Resolve(v) == if IsString(v) then Str(v) else Typed
  {
    hide IsString;
  }

  lemma Quoted(v: string)
    ensures Resolve("\"" + v + "\"") == Str(v)
  {
    hide IsString;
    var q := "\"" + v + "\"";
    assert q[1..|q| - 1] == v;
  }

  /** A text made of segments renders to their values. */
  lemma ExpandLine(line: seq<Seg>, m: map<string, string>)
    requires GoodLine(line)
    ensures Expand(TextOf(line), m) == ValueOf(line, m)
  {
    LineMeaning(line, m);
    ScanFlatten(PiecesOf(line));
  }

  /** What the scalar of a rendered placeholder is read as. */
  function Seen(c: Check, lab: Lab): Scalar
    requires lab.nets.Valid()
  {
    if c.OtherKmes? || IsString(Shown(c, lab)) then Str(Shown(c, lab)) else Typed
  }

  lemma PlainPlaceholder(c: Check, lab: Lab)
    requires ValidLab(lab) && !c.OtherKmes?
    ensures Resolve(Expand(TextOf(Placeholder(c)), ToMap(Dict(lab)))) == Seen(c, lab)
  {
    hide IsName, KeyText, Value, ToMap, Dict, Expand, ValueOf, TextOf, Resolve, IsString;
    var k := KeyOf(c);
    KeyNames(k);
    assert Placeholder(c) == [Txt(""), KeyVar(k)];
    ExpandLine(Placeholder(c), ToMap(Dict(lab)));
    DictHolds(k, lab);
    TwoSegs("", KeyText(k), ToMap(Dict(lab)));
    PlainValue(k, lab);
    NotQuoted(Value(k, lab));
    assert "" + Value(k, lab) == Value(k, lab);
  }

  lemma UrlTexts()
    ensures '$' !in "\"https://" && '$' !in ":8020\"" && '$' !in ":8010\""
  {
  }

  lemma UrlPlaceholder(n: Node, lab: Lab)
    requires ValidLab(lab) && IsKme(n)
    ensures Resolve(Expand(TextOf(Placeholder(OtherKmes(n))), ToMap(Dict(lab)))) == Seen(OtherKmes(n), lab)
  {
    hide IsName, KeyText, ToMap, Dict, Expand, ValueOf, TextOf, Resolve, IsString, Ip;
    var k := NodeIp(Peer(n).0);
    var ip := Ip(Peer(n).0, lab.nets);
    var port := if n.KmeA? then ":8020" else ":8010";
    KeyNames(k);
    UrlTexts();
    ExpandLine(Placeholder(OtherKmes(n)), ToMap(Dict(lab)));
    DictHolds(k, lab);
    assert ":8020" + "\"" == ":8020\"" && ":8010" + "\"" == ":8010\"";
    AroundSeg("\"https://", KeyText(k), port + "\"", ToMap(Dict(lab)));
    assert "\"https://" + ip + (port + "\"") == "\"" + ("https://" + ip + port) + "\"";
    Quoted("https://" + ip + port);
  }

  lemma Values(t: string, lab: Lab)
    requires ValidLab(lab) && OneLineNames(t)
    ensures OneLineValues(Names(t), ToMap(Dict(lab)))
  {
    hide Names, KeyText, Value, ToMap, Dict;
    forall n | n in Names(t) && n in ToMap(Dict(lab)) ensures '\n' !in ToMap(Dict(lab))[n] {
      var k: Key :| OneLine(k) && n == KeyText(k);
      DictHolds(k, lab);
      PlainValue(k, lab);
    }
  }

  /** A subnet argument is a string in the file, and the gateway's text is. */
  predicate Readable(c: Check, s: Subnets)
    requires s.Valid()
  {
    match c
    case Subnet4 => IsString(s.subnet)
    case Subnet6 => IsString(s.subnet6)
    case GatewayV6 => IsString(Gateway6(s))
    case _ => true
  }

  lemma NodeTexts(n: Node, s: Subnets)
    requires s.Valid()
    ensures IsString(Ip(n, s)) && IsString(Ip6(n, s)) && IsString(Gateway(s))
  {
    hide IsString, M.Dotted, M.MgmtIpv6;
    DottedIsString(M.MgmtIpv4(s.base, M.NodeSuffix(Rank(n))));
    DottedIsString(s.base + 1);
    M.SuffixDigits(Rank(n));
    NodeIsString(s.net6, M.NodeSuffix(Rank(n)));
  }

  lemma ClientsText(s: Subnets)
    requires s.Valid()
    ensures IsString(Join(SaeClientList(SAE_CLIENTS, s), ','))
  {
    hide Ip, Ip6, IsString;
    var parts := SaeClientList(SAE_CLIENTS, s);
    var v := Join(parts, ',');
    NodeTexts(Ceos3, s);
    NodeEnds(Ceos3, s);
    JoinEnd(parts, ',');
    assert parts[5] == Ip6(Ceos3, s);
    assert Join(parts, ',') == parts[0] + [','] + Join(parts[1..], ',');
    assert v[|parts[0]|] == ',';
    OddIsString(v, ',');
  }

  lemma NodeEnds(n: Node, s: Subnets)
    requires s.Valid()
    ensures Ip6(n, s) != "" && Ip6(n, s)[|Ip6(n, s)| - 1] != ':'
  {
    NodeTexts(n, s);
    hide Ip6;
  }

  /** A scalar of the rendered file is the string that the validator expects
      exactly if it is readable. */
  lemma SeenExactly(c: Check, lab: Lab)
    requires c.Valid() && lab.nets.Valid()
    ensures Seen(c, lab) == Str(Expected(c, lab.nets)) <==> Readable(c, lab.nets)
  {
    hide Ip, Ip6, Gateway, Gateway6, IsString, Join, M.Decimal;
    ShownExactly(c, lab);
    NotEmptyString(lab.nets.subnet);
    NotEmptyString(lab.nets.subnet6);
    match c
    case NodeV4(n) => NodeTexts(n, lab.nets);
    case NodeV6(n) => NodeTexts(n, lab.nets);
    case Gateway4 => NodeTexts(Radius, lab.nets);
    case ClientIps(_) => ClientsText(lab.nets);
    case _ =>
  }

  lemma NotEmptyString(v: string)
    ensures IsString(v) ==> v != ""
  {
  }

  /** Render and read back: every check of the rendered topology that depends on
      the subnets passes, except that a subnet argument, and the IPv6 gateway,
      must be texts that are read as strings. */
  lemma TopologyPasses(t: string, lab: Lab)
    requires TopologyTemplate(t) && ValidLab(lab)
    ensures var r := Outcome(Fold(t, Dict(lab)));
            r.Ok? && forall c: Check | c.Valid() ::
              Read(r.text, Path(c)) == Some(Str(Expected(c, lab.nets))) <==> Readable(c, lab.nets)
  {
    hide *;
    NetsOf(lab);
    var m := ToMap(Dict(lab));
    TemplateNames(t);
    DictRenders(t, lab);
    forall c: Check | c.Valid()
      ensures Read(Expand(t, m), Path(c)) == Some(Str(Expected(c, lab.nets))) <==> Readable(c, lab.nets)
    {
      ReadsSeen(t, lab, c);
      SeenExactly(c, lab);
    }
  }

  lemma TemplateNames(t: string)
    requires TopologyTemplate(t)
    ensures Clean(t) && Known(t)
  {
    hide Clean, OneLineNames;
    KnownNames(t);
  }

  /** With subnets written with their prefix, of at most 80 bits for IPv6, all
      checks pass. */
  lemma OrdinarySubnets(s: Subnets, c: Check)
    requires s.Valid() && '/' in s.subnet && '/' in s.subnet6 && M.IsNetwork(s.net6, s.prefix6) && s.prefix6 <= 80
    requires s.subnet[|s.subnet| - 1] != ':' && s.subnet6[|s.subnet6| - 1] != ':'
    ensures Readable(c, s)
  {
    hide IsString, M.Format;
    OddIsString(s.subnet, '/');
    OddIsString(s.subnet6, '/');
    WideGatewayIsString(s.net6, s.prefix6);
  }

  /** For one network the gateway is read as a number, and its check fails. */
  lemma GatewayNotString(s: Subnets)
    requires s.Valid() && s.net6 == [1, 2, 3, 4, 5, 6, 7, 8]
    ensures !Readable(GatewayV6, s)
  {
    hide IsString, M.Format, DecimalGroups;
    var g := [1, 2, 3, 4, 5, 6, 7, 9];
    EightUp();
    NineIsDecimal();
    AddressIsString(g);
  }

  lemma EightUp()
    ensures M.Next([1, 2, 3, 4, 5, 6, 7, 8]) == Some([1, 2, 3, 4, 5, 6, 7, 9])
  {
    var h, g := [1, 2, 3, 4, 5, 6, 7, 8], [1, 2, 3, 4, 5, 6, 7];
    assert h[..|h| - 1] == g;
    assert g + [8 + 1] == [1, 2, 3, 4, 5, 6, 7, 9];
  }

  lemma NineIsDecimal()
    ensures DecimalGroups([1, 2, 3, 4, 5, 6, 7, 9]) && M.IsAddress([1, 2, 3, 4, 5, 6, 7, 9])
  {
    hide M.Hex, M.LongestRun, M.ZeroRun, Sixty;
    var g := [1, 2, 3, 4, 5, 6, 7, 9];
    NoZeros(g, M.LongestRun(g));
    forall i | 0 <= i < 8 ensures Sixty(M.Hex(g[i])) { DigitHex(g[i]); }
    assert M.Hex(g[0]) == M.Hex(1) && Digits(M.Hex(1)) by { DigitHex(1); SixtyDigits(M.Hex(1)); }
  }

  lemma SixtyDigits(s: string)
    requires Sixty(s)
    ensures Digits(s)
  {
  }

  lemma NoZeros(g: seq<nat>, i: nat)
    requires |g| == 8 && 0 !in g && i <= 8
    ensures M.ZeroRun(g, i) == 0
  {
    if i < 8 { assert g[i] in g; }
  }

  lemma DigitHex(n: nat)
    requires n < 10
    ensures Sixty(M.Hex(n))
  {
  }

  lemma KnownNames(t: string)
    requires OneLineNames(t)
    ensures Known(t)
  {
  }

  lemma ReadsSeen(t: string, lab: Lab, c: Check)
    requires TopologyTemplate(t) && ValidLab(lab) && c.Valid()
    ensures Read(Expand(t, ToMap(Dict(lab))), Path(c)) == Some(Seen(c, lab))
  {
    hide Dict, ToMap, Expand, Path, Clean, OneLineNames, KeysFirst, Lookup, Split, Seen, Resolve, Placeholder, TextOf, Keys;
    var m := ToMap(Dict(lab));
    Values(t, lab);
    SplitRendered(t, m);
    PathKeys(c);
    LookupRendered(Split(t, '\n'), m, 0, Path(c));
    if c.OtherKmes? { UrlPlaceholder(c.node, lab); } else { PlainPlaceholder(c, lab); }
  }

  // ---- A topology template --------------------------------------------------

  /** A key with a mapping below it, or with a value. */
  datatype Line = Section(depth: nat, key: string) | Entry(depth: nat, key: string, value: seq<Seg>)

  function Segs(l: Line): seq<Seg> {
    match l
    case Section(d, key) => [Txt(Head(d, key))]
    case Entry(d, key, v) => [Txt(Head(d, key) + " ")] + v
  }

  function LineAsText(l: Line): string { TextOf(Segs(l)) }

  function Texts(ls: seq<Line>): (texts: seq<string>)
    ensures |texts| == |ls| && forall i | 0 <= i < |ls| :: texts[i] == LineAsText(ls[i])
  {
    seq(|ls|, i requires 0 <= i < |ls| => LineAsText(ls[i]))
  }

  function BlockOf(ls: seq<Line>, d: nat): seq<Line> {
    if ls == [] || ls[0].depth <= d then [] else [ls[0]] + BlockOf(ls[1..], d)
  }

  function ChildOf(ls: seq<Line>, d: nat, key: string): Option<seq<Line>> {
    if ls == [] then None
    else if ls[0] == Section(d, key) then Some(BlockOf(ls[1..], d))
    else ChildOf(ls[1..], d, key)
  }

  function EntryOf(ls: seq<Line>, d: nat, key: string): Option<seq<Seg>> {
    if ls == [] then None
    else if ls[0].Entry? && ls[0].depth == d && ls[0].key == key then Some(ls[0].value)
    else EntryOf(ls[1..], d, key)
  }

  function Get(ls: seq<Line>, d: nat, path: seq<string>): Option<seq<Seg>>
    decreases |path|
  {
    if path == [] then None
    else if |path| == 1 then EntryOf(ls, d, path[0])
    else
      match ChildOf(ls, d, path[0])
      case None => None
      case Some(below) => Get(below, d + 2, path[1..])
  }

  lemma SectionText(d: nat, key: string)
    ensures LineAsText(Section(d, key)) == Head(d, key)
  {
    assert TextOf([]) == "";
    assert TextOf([Txt(Head(d, key))]) == Head(d, key) + TextOf([]);
  }

  lemma EntryText(d: nat, key: string, v: seq<Seg>)
    ensures LineAsText(Entry(d, key, v)) == (Spaces(d) + key) + (": " + TextOf(v))
  {
    hide Spaces;
    assert Segs(Entry(d, key, v))[1..] == v;
    HeadValue(Spaces(d) + key, TextOf(v));
  }

  lemma HeadValue(k: string, v: string)
    ensures k + ":" + " " + v == k + (": " + v)
  {
  }

  lemma LineDepth(l: Line)
    requires IsKey(l.key)
    ensures LineAsText(l) != "" && Depth(LineAsText(l)) == l.depth
  {
    hide LineAsText, Spaces;
    var d, key := l.depth, l.key;
    if l.Section? {
      SectionText(d, key);
      ConcatAssoc(Spaces(d), key, ":");
      SpacesDepth(d, key + ":");
    } else {
      EntryText(d, key, l.value);
      ConcatAssoc(Spaces(d), key, ": " + TextOf(l.value));
      SpacesDepth(d, key + (": " + TextOf(l.value)));
    }
  }

  /** Equal heads have equal depths and keys. */
  lemma HeadInjective(d: nat, key: string, e: nat, other: string)
    requires IsKey(key) && IsKey(other)
    ensures Spaces(d) + key == Spaces(e) + other ==> d == e && key == other
  {
    SpacesDepth(d, key);
    SpacesDepth(e, other);
    if Spaces(d) + key == Spaces(e) + other {
      assert (Spaces(d) + key)[d..] == key && (Spaces(e) + other)[e..] == other;
    }
  }

  lemma SectionAlike(l: Line, d: nat, key: string)
    requires IsKey(l.key) && IsKey(key)
    ensures LineAsText(l) == Head(d, key) <==> l == Section(d, key)
  {
    hide LineAsText, Spaces;
    if l.Section? {
      SectionText(l.depth, l.key);
      HeadParts(l.depth, l.key);
      HeadParts(d, key);
      if LineAsText(l) == Head(d, key) {
        FirstColon(Spaces(l.depth) + l.key, "", Spaces(d) + key, "");
        HeadInjective(l.depth, l.key, d, key);
      }
    } else {
      EntryText(l.depth, l.key, l.value);
      HeadParts(l.depth, l.key);
      ValueNoHead(Spaces(l.depth) + l.key, TextOf(l.value), d, key);
    }
  }

  lemma EntryAlike(l: Line, d: nat, key: string)
    requires IsKey(l.key) && IsKey(key)
    ensures var h := Head(d, key) + " ";
            && (StartsWith(LineAsText(l), h) <==> l.Entry? && l.depth == d && l.key == key)
            && (StartsWith(LineAsText(l), h) ==> LineAsText(l)[|h|..] == TextOf(l.value))
  {
    hide LineAsText, Spaces, Head, IsKey;
    HeadParts(l.depth, l.key);
    if l.Section? {
      SectionText(l.depth, l.key);
      SectionNoEntry(l.depth, l.key, d, key);
    } else {
      EntryText(l.depth, l.key, l.value);
      StartsWithKey(Spaces(l.depth) + l.key, TextOf(l.value), d, key);
      HeadInjective(l.depth, l.key, d, key);
    }
  }

  lemma SectionNoEntry(e: nat, other: string, d: nat, key: string)
    requires IsKey(key) && IsKey(other)
    ensures !StartsWith(Head(e, other), Head(d, key) + " ")
  {
    hide Spaces, IsKey;
    HeadParts(d, key);
    HeadParts(e, other);
    var s, h := Head(e, other), Head(d, key) + " ";
    if StartsWith(s, h) {
      var y := s[|h|..];
      assert s == (Spaces(d) + key) + (":" + (" " + y));
      FirstColon(Spaces(e) + other, "", Spaces(d) + key, " " + y);
    }
  }

  ghost predicate KeyedLines(ls: seq<Line>) { forall i | 0 <= i < |ls| :: IsKey(ls[i].key) }

  lemma TextsCons(ls: seq<Line>)
    requires ls != []
    ensures Texts(ls)[0] == LineAsText(ls[0]) && Texts(ls)[1..] == Texts(ls[1..])
  {
  }

  lemma TextsPlus(l: Line, ls: seq<Line>)
    ensures Texts([l] + ls) == [LineAsText(l)] + Texts(ls)
  {
    hide LineAsText;
  }

  lemma {:induction false} BlockTexts(ls: seq<Line>, d: nat)
    requires KeyedLines(ls)
    ensures Block(Texts(ls), d) == Texts(BlockOf(ls, d)) && KeyedLines(BlockOf(ls, d))
  {
    hide LineAsText, IsKey, Depth, Texts;
    if ls == [] {
      assert |Texts(ls)| == 0;
    } else {
      LineDepth(ls[0]);
      TextsCons(ls);
      BlockTexts(ls[1..], d);
      TextsPlus(ls[0], BlockOf(ls[1..], d));
    }
  }

  lemma {:induction false} ChildTexts(ls: seq<Line>, d: nat, key: string)
    requires KeyedLines(ls) && IsKey(key)
    ensures match ChildOf(ls, d, key)
            case None => Child(Texts(ls), d, key) == None
            case Some(below) => Child(Texts(ls), d, key) == Some(Texts(below)) && KeyedLines(below)
  {
    hide LineAsText, IsKey, Head;
    if ls != [] {
      SectionAlike(ls[0], d, key);
      TextsCons(ls);
      BlockTexts(ls[1..], d);
      ChildTexts(ls[1..], d, key);
    }
  }

  lemma {:induction false} EntryTexts(ls: seq<Line>, d: nat, key: string)
    requires KeyedLines(ls) && IsKey(key)
    ensures match EntryOf(ls, d, key)
            case None => Scalar(Texts(ls), d, key) == None
            case Some(v) => Scalar(Texts(ls), d, key) == Some(TextOf(v))
  {
    hide LineAsText, IsKey, Head, StartsWith;
    if ls != [] {
      EntryAlike(ls[0], d, key);
      TextsCons(ls);
      EntryTexts(ls[1..], d, key);
    }
  }

  lemma {:induction false} GetTexts(ls: seq<Line>, d: nat, path: seq<string>)
    requires KeyedLines(ls) && Keys(path)
    ensures match Get(ls, d, path)
            case None => Lookup(Texts(ls), d, path) == None
            case Some(v) => Lookup(Texts(ls), d, path) == Some(TextOf(v))
    decreases |path|
  {
    hide KeyedLines, Child, Scalar, IsKey;
    if |path| == 1 {
      EntryTexts(ls, d, path[0]);
    } else if |path| > 1 {
      ChildTexts(ls, d, path[0]);
      var c := ChildOf(ls, d, path[0]);
      if c.Some? { GetTexts(c.value, d + 2, path[1..]); }
    }
  }

  // The lines of the file that hold the checked values.

  function MgmtLines(): seq<Line> {
    [Entry(2, "ipv4-subnet", Placeholder(Subnet4)), Entry(2, "ipv4-gw", Placeholder(Gateway4)),
     Entry(2, "ipv6-subnet", Placeholder(Subnet6)), Entry(2, "ipv6-gw", Placeholder(GatewayV6))]
  }

  function EnvLines(n: Node): seq<Line> {
    [Entry(8, "OTHER_KMES", Placeholder(OtherKmes(n))), Entry(8, "SAE_CLIENT_IPS", Placeholder(ClientIps(n)))]
  }

  function NodeLines(n: Node): seq<Line> {
    [Entry(6, "mgmt-ipv4", Placeholder(NodeV4(n))), Entry(6, "mgmt-ipv6", Placeholder(NodeV6(n)))]
    + (if IsKme(n) then [Section(6, "env")] + EnvLines(n) else [])
  }

  function NodesFrom(i: nat): seq<Line>
    requires i <= 11
    decreases 11 - i
  {
    if i == 11 then [] else [Section(4, NodeName(NODES[i]))] + NodeLines(NODES[i]) + NodesFrom(i + 1)
  }

  function TopologyLines(): seq<Line> {
    [Section(0, "mgmt")] + MgmtLines() + [Section(0, "topology"), Section(2, "nodes")] + NodesFrom(0)
  }

  lemma {:induction false} BlockDeep(a: seq<Line>, b: seq<Line>, d: nat)
    requires (forall i | 0 <= i < |a| :: a[i].depth > d) && (b == [] || b[0].depth <= d)
    ensures BlockOf(a + b, d) == a
  {
    if a == [] {
      assert a + b == b;
    } else {
      assert (a + b)[1..] == a[1..] + b;
      BlockDeep(a[1..], b, d);
    }
  }

  lemma {:induction false} ChildSkips(a: seq<Line>, b: seq<Line>, d: nat, key: string)
    requires forall i | 0 <= i < |a| :: a[i] != Section(d, key)
    ensures ChildOf(a + b, d, key) == ChildOf(b, d, key)
  {
    if a == [] {
      assert a + b == b;
    } else {
      assert (a + b)[1..] == a[1..] + b;
      ChildSkips(a[1..], b, d, key);
    }
  }

  lemma ChildHead(d: nat, key: string, rest: seq<Line>)
    ensures ChildOf([Section(d, key)] + rest, d, key) == Some(BlockOf(rest, d))
  {
    hide BlockOf;
    assert ([Section(d, key)] + rest)[1..] == rest;
  }

  lemma LinesAssoc(l: Line, a: seq<Line>, b: seq<Line>)
    ensures [l] + a + b == [l] + (a + b)
  {
  }

  lemma ChildHere(d: nat, key: string, a: seq<Line>, b: seq<Line>)
    requires (forall i | 0 <= i < |a| :: a[i].depth > d) && (b == [] || b[0].depth <= d)
    ensures ChildOf([Section(d, key)] + a + b, d, key) == Some(a)
  {
    hide *;
    BlockDeep(a, b, d);
    LinesAssoc(Section(d, key), a, b);
    ChildHead(d, key, a + b);
  }

  function NameTag(n: Node): (nat, char) {
    match n
    case Ceos1 => (10, 'h')
    case Ceos2 => (9, 'c')
    case Ceos3 => (9, 'd')
    case Host1 => (5, '1')
    case Host2 => (5, '2')
    case Host3 => (5, '3')
    case Radius => (6, 's')
    case Syslog => (6, 'g')
    case KmeA => (5, 'a')
    case KmeB => (5, 'b')
    case TestRunner => (11, 'r')
  }

  lemma NamesDiffer(m: Node, n: Node)
    requires NodeName(m) == NodeName(n)
    ensures m == n
  {
    hide NodeName;
    NameTagOf(m);
    NameTagOf(n);
  }

  lemma NameTagOf(n: Node)
    ensures NodeName(n) != "" && (|NodeName(n)|, NodeName(n)[|NodeName(n)| - 1]) == NameTag(n)
  {
  }

  lemma NodeAt(i: nat)
    requires i < 11
    ensures Rank(NODES[i]) == i
  {
  }

  lemma NodeOfRank(n: Node)
    ensures NODES[Rank(n)] == n
  {
  }

  lemma NodeLinesDeep(n: Node)
    ensures forall i | 0 <= i < |NodeLines(n)| :: NodeLines(n)[i].depth > 4
  {
    hide Placeholder;
  }

  /** The first section is the node's own. */
  lemma NodeHere(i: nat)
    requires i < 11
    ensures ChildOf(NodesFrom(i), 4, NodeName(NODES[i])) == Some(NodeLines(NODES[i]))
  {
    hide NodeName, NodeLines, ChildOf;
    NodeLinesDeep(NODES[i]);
    NextSection(i + 1);
    ChildHere(4, NodeName(NODES[i]), NodeLines(NODES[i]), NodesFrom(i + 1));
  }

  lemma NextSection(i: nat)
    requires i <= 11
    ensures NodesFrom(i) == [] || NodesFrom(i)[0].depth <= 4
  {
    hide NodeName, NodeLines;
  }

  /** Another node's section is passed over. */
  lemma NodePassed(i: nat, n: Node)
    requires i < 11 && NODES[i] != n
    ensures ChildOf(NodesFrom(i), 4, NodeName(n)) == ChildOf(NodesFrom(i + 1), 4, NodeName(n))
  {
    hide NodeName, NodeLines, ChildOf;
    var other := NODES[i];
    if NodeName(other) == NodeName(n) { NamesDiffer(other, n); }
    NodeLinesDeep(other);
    var front := [Section(4, NodeName(other))] + NodeLines(other);
    assert forall k | 0 < k < |front| :: front[k] == NodeLines(other)[k - 1];
    ChildSkips(front, NodesFrom(i + 1), 4, NodeName(n));
  }

  /** The section of each node is found, and is its own. */
  lemma {:induction false} NodeFound(i: nat, n: Node)
    requires i <= Rank(n)
    ensures ChildOf(NodesFrom(i), 4, NodeName(n)) == Some(NodeLines(n))
    decreases 11 - i
  {
    hide NodeName, NodeLines, ChildOf, NodesFrom;
    if i == Rank(n) {
      NodeOfRank(n);
      NodeHere(i);
    } else {
      NodeAt(i);
      NodePassed(i, n);
      NodeFound(i + 1, n);
    }
  }

  lemma {:induction false} NodesDeep(i: nat)
    requires i <= 11
    ensures forall k | 0 <= k < |NodesFrom(i)| :: NodesFrom(i)[k].depth > 2
    decreases 11 - i
  {
    hide NodeName, NodeLines;
    if i < 11 {
      NodesDeep(i + 1);
      NodeLinesDeep(NODES[i]);
    }
  }

  lemma MgmtFound()
    ensures ChildOf(TopologyLines(), 0, "mgmt") == Some(MgmtLines())
  {
    hide Placeholder, NodesFrom;
    var rest := [Section(0, "topology"), Section(2, "nodes")] + NodesFrom(0);
    assert TopologyLines() == [Section(0, "mgmt")] + MgmtLines() + rest;
    ChildHere(0, "mgmt", MgmtLines(), rest);
  }

  lemma NodesFound()
    ensures ChildOf(TopologyLines(), 0, "topology") == Some([Section(2, "nodes")] + NodesFrom(0))
    ensures ChildOf([Section(2, "nodes")] + NodesFrom(0), 2, "nodes") == Some(NodesFrom(0))
  {
    hide Placeholder, NodesFrom;
    var front, below := [Section(0, "mgmt")] + MgmtLines(), [Section(2, "nodes")] + NodesFrom(0);
    NodesDeep(0);
    assert "mgmt" != "topology";
    assert TopologyLines() == front + ([Section(0, "topology")] + below + []);
    ChildSkips(front, [Section(0, "topology")] + below + [], 0, "topology");
    ChildHere(0, "topology", below, []);
    ChildHere(2, "nodes", NodesFrom(0), []);
    assert [Section(2, "nodes")] + NodesFrom(0) + [] == below;
  }

  lemma GetDeep(ls: seq<Line>, d: nat, path: seq<string>, below: seq<Line>)
    requires |path| > 1 && ChildOf(ls, d, path[0]) == Some(below)
    ensures Get(ls, d, path) == Get(below, d + 2, path[1..])
  {
  }

  lemma MgmtCheckFound(c: Check)
    requires c.Subnet4? || c.Gateway4? || c.Subnet6? || c.GatewayV6?
    ensures Get(TopologyLines(), 0, Path(c)) == Some(Placeholder(c))
  {
    hide TopologyLines, Placeholder;
    MgmtFound();
    GetDeep(TopologyLines(), 0, Path(c), MgmtLines());
    assert Path(c)[1..] == [Path(c)[1]];
    MgmtEntry(c);
  }

  lemma MgmtEntry(c: Check)
    requires c.Subnet4? || c.Gateway4? || c.Subnet6? || c.GatewayV6?
    ensures EntryOf(MgmtLines(), 2, Path(c)[1]) == Some(Placeholder(c))
  {
    hide Placeholder;
    MgmtNames();
    assert MgmtLines()[1..][1..][1..] == [Entry(2, "ipv6-gw", Placeholder(GatewayV6))];
  }

  lemma MgmtNames()
    ensures "ipv4-subnet" != "ipv4-gw" && "ipv4-subnet"[3] != "ipv6-subnet"[3]
    ensures "ipv4-gw"[3] != "ipv6-gw"[3] && "ipv6-subnet" != "ipv6-gw" && "ipv4-gw" != "ipv6-subnet"
  {
  }

  lemma GetBelow(ls: seq<Line>, d: nat, k: string, tail: seq<string>, below: seq<Line>)
    requires tail != [] && ChildOf(ls, d, k) == Some(below)
    ensures Get(ls, d, [k] + tail) == Get(below, d + 2, tail)
  {
    assert ([k] + tail)[1..] == tail;
  }

  lemma PathParts(a: string, b: string, c: string, tail: seq<string>)
    ensures [a, b, c] + tail == [a] + ([b] + ([c] + tail))
  {
  }

  lemma NodeSection(n: Node, tail: seq<string>)
    requires tail != []
    ensures Get(TopologyLines(), 0, ["topology", "nodes", NodeName(n)] + tail) == Get(NodeLines(n), 6, tail)
  {
    hide TopologyLines, NodesFrom, NodeLines, NodeName, Get, ChildOf;
    NodesFound();
    NodeFound(0, n);
    PathParts("topology", "nodes", NodeName(n), tail);
    GetBelow(TopologyLines(), 0, "topology", ["nodes"] + ([NodeName(n)] + tail), [Section(2, "nodes")] + NodesFrom(0));
    GetBelow([Section(2, "nodes")] + NodesFrom(0), 2, "nodes", [NodeName(n)] + tail, NodesFrom(0));
    GetBelow(NodesFrom(0), 4, NodeName(n), tail, NodeLines(n));
  }

  lemma NodeCheckFound(n: Node)
    ensures Get(TopologyLines(), 0, Path(NodeV4(n))) == Some(Placeholder(NodeV4(n)))
    ensures Get(TopologyLines(), 0, Path(NodeV6(n))) == Some(Placeholder(NodeV6(n)))
  {
    hide TopologyLines, Placeholder, NodeName, NodeLines;
    NodeSection(n, ["mgmt-ipv4"]);
    NodeSection(n, ["mgmt-ipv6"]);
    NodeEntries(n);
    assert Path(NodeV4(n)) == ["topology", "nodes", NodeName(n)] + ["mgmt-ipv4"];
    assert Path(NodeV6(n)) == ["topology", "nodes", NodeName(n)] + ["mgmt-ipv6"];
  }

  lemma NodeEntries(n: Node)
    ensures EntryOf(NodeLines(n), 6, "mgmt-ipv4") == Some(Placeholder(NodeV4(n)))
    ensures EntryOf(NodeLines(n), 6, "mgmt-ipv6") == Some(Placeholder(NodeV6(n)))
  {
    hide Placeholder;
    assert "mgmt-ipv4"[8] != "mgmt-ipv6"[8];
    assert NodeLines(n)[1..][0] == Entry(6, "mgmt-ipv6", Placeholder(NodeV6(n)));
  }

  lemma EnvFound(n: Node)
    requires IsKme(n)
    ensures ChildOf(NodeLines(n), 6, "env") == Some(EnvLines(n))
  {
    hide Placeholder;
    var front := [Entry(6, "mgmt-ipv4", Placeholder(NodeV4(n))), Entry(6, "mgmt-ipv6", Placeholder(NodeV6(n)))];
    assert NodeLines(n) == front + ([Section(6, "env")] + EnvLines(n) + []);
    ChildSkips(front, [Section(6, "env")] + EnvLines(n) + [], 6, "env");
    ChildHere(6, "env", EnvLines(n), []);
  }

  lemma EnvCheckFound(n: Node)
    requires IsKme(n)
    ensures Get(TopologyLines(), 0, Path(OtherKmes(n))) == Some(Placeholder(OtherKmes(n)))
    ensures Get(TopologyLines(), 0, Path(ClientIps(n))) == Some(Placeholder(ClientIps(n)))
  {
    hide TopologyLines, Placeholder, NodeName, NodeLines;
    EnvFound(n);
    NodeSection(n, ["env", "OTHER_KMES"]);
    NodeSection(n, ["env", "SAE_CLIENT_IPS"]);
    GetDeep(NodeLines(n), 6, ["env", "OTHER_KMES"], EnvLines(n));
    GetDeep(NodeLines(n), 6, ["env", "SAE_CLIENT_IPS"], EnvLines(n));
    assert ["env", "OTHER_KMES"][1..] == ["OTHER_KMES"] && ["env", "SAE_CLIENT_IPS"][1..] == ["SAE_CLIENT_IPS"];
    assert "OTHER_KMES" != "SAE_CLIENT_IPS";
    assert Path(OtherKmes(n)) == ["topology", "nodes", NodeName(n)] + ["env", "OTHER_KMES"];
    assert Path(ClientIps(n)) == ["topology", "nodes", NodeName(n)] + ["env", "SAE_CLIENT_IPS"];
  }

  // The lines are clean.

  predicate GoodKey(key: string) { IsKey(key) && '$' !in key && '\n' !in key }

  ghost predicate GoodEntry(l: Line) {
    GoodKey(l.key) && (l.Entry? ==> exists c: Check :: l.value == Placeholder(c))
  }

  ghost predicate GoodEntries(ls: seq<Line>) { forall i | 0 <= i < |ls| :: GoodEntry(ls[i]) }

  lemma GoodName(n: Node)
    ensures GoodKey(NodeName(n))
  {
  }

  lemma MgmtKeysGood()
    ensures GoodKey("ipv4-subnet") && GoodKey("ipv4-gw") && GoodKey("ipv6-subnet") && GoodKey("ipv6-gw")
  {
  }

  lemma SectionKeysGood()
    ensures GoodKey("mgmt") && GoodKey("topology") && GoodKey("nodes") && GoodKey("env")
  {
  }

  lemma NodeKeysGood()
    ensures GoodKey("mgmt-ipv4") && GoodKey("mgmt-ipv6")
  {
  }

  lemma EnvKeysGood()
    ensures GoodKey("OTHER_KMES") && GoodKey("SAE_CLIENT_IPS")
  {
  }

  lemma GoodMgmtLines()
    ensures GoodEntries(MgmtLines()) && GoodEntry(Section(0, "mgmt"))
    ensures GoodEntry(Section(0, "topology")) && GoodEntry(Section(2, "nodes"))
  {
    hide Placeholder, GoodKey;
    MgmtKeysGood();
    SectionKeysGood();
  }

  lemma GoodNodeLines(n: Node)
    ensures GoodEntries(NodeLines(n)) && GoodEntry(Section(4, NodeName(n)))
  {
    hide Placeholder, NodeName, GoodKey;
    GoodName(n);
    SectionKeysGood();
    NodeKeysGood();
    EnvKeysGood();
  }

  lemma {:induction false} GoodNodes(i: nat)
    requires i <= 11
    ensures GoodEntries(NodesFrom(i))
    decreases 11 - i
  {
    hide GoodEntry, NodeLines, NodeName;
    if i < 11 {
      GoodNodes(i + 1);
      GoodNodeLines(NODES[i]);
    }
  }

  lemma GoodTopologyLines()
    ensures GoodEntries(TopologyLines())
  {
    hide GoodEntry, NodesFrom, MgmtLines;
    GoodMgmtLines();
    GoodNodes(0);
  }

  lemma GoodPlaceholder(c: Check)
    ensures GoodLine(Placeholder(c))
  {
    hide IsName, KeyText, GoodLine;
    var x := KeyText(KeyOf(c));
    KeyNames(KeyOf(c));
    UrlTexts();
    GoodSegs("", x, "", x);
    GoodSegs("\"https://", x, ":8020\"", x);
    GoodSegs("\"https://", x, ":8010\"", x);
  }

  lemma PlaceholderOneLine(c: Check)
    ensures '\n' !in TextOf(Placeholder(c))
  {
    hide IsName, KeyText, TextOf, Token;
    var x := KeyText(KeyOf(c));
    KeyNames(KeyOf(c));
    NameOneLine(x);
    UrlOneLine();
    PlaceholderText("\"https://", x, ":8020\"");
    PlaceholderText("\"https://", x, ":8010\"");
    PlaceholderText("", x, "");
  }

  lemma UrlOneLine()
    ensures '\n' !in "\"https://" && '\n' !in ":8020\"" && '\n' !in ":8010\""
  {
  }

  lemma PlaceholderVars(c: Check)
    ensures VarsOf(Placeholder(c)) <= {KeyText(KeyOf(c))} && OneLine(KeyOf(c))
  {
    hide KeyText;
  }

  lemma NameOneLine(x: string)
    requires IsName(x)
    ensures '\n' !in Token(x)
  {
  }

  lemma PlaceholderText(a: string, x: string, b: string)
    ensures TextOf([Txt(a), Var(x)]) == a + Token(x)
    ensures TextOf([Txt(a), Var(x), Txt(b)]) == a + (Token(x) + b)
  {
    assert [Txt(a), Var(x)][1..] == [Var(x)] && [Var(x)][1..] == [];
    assert [Txt(a), Var(x), Txt(b)][1..] == [Var(x), Txt(b)] && [Var(x), Txt(b)][1..] == [Txt(b)] && [Txt(b)][1..] == [];
    assert TextOf([Txt(b)]) == b + TextOf([]);
    assert TextOf([Var(x)]) == Token(x) + TextOf([]);
  }

  lemma SpacesPlain(d: nat)
    ensures '$' !in Spaces(d) && '\n' !in Spaces(d) && ':' !in Spaces(d)
  {
  }

  /** What makes the text of such a line fit for a topology template. */
  lemma EntryFacts(l: Line)
    requires GoodEntry(l)
    ensures GoodLine(Segs(l)) && '\n' !in LineAsText(l)
    ensures VarsOf(Segs(l)) == if l.Entry? then VarsOf(l.value) else {}
    ensures KeyFirst(LineAsText(l))
  {
    hide Placeholder, GoodLine, Spaces, TextOf;
    SpacesPlain(l.depth);
    if l.Section? {
      SectionText(l.depth, l.key);
      GoodTxt(Head(l.depth, l.key));
    } else {
      var c: Check :| l.value == Placeholder(c);
      GoodPlaceholder(c);
      PlaceholderOneLine(c);
      EntryText(l.depth, l.key, l.value);
      Indented(Head(l.depth, l.key) + " ", l.value);
      ValueVars(Head(l.depth, l.key) + " ", l.value);
      KeyLineFirst(Spaces(l.depth) + l.key, TextOf(l.value));
    }
  }

  lemma GoodTxt(a: string)
    requires '$' !in a
    ensures GoodLine([Txt(a)]) && VarsOf([Txt(a)]) == {}
  {
  }

  lemma ValueVars(a: string, v: seq<Seg>)
    ensures VarsOf([Txt(a)] + v) == VarsOf(v)
  {
    var all := [Txt(a)] + v;
    assert forall i | 0 <= i < |v| :: all[i + 1] == v[i];
    assert forall i | 0 < i < |all| :: all[i] == v[i - 1];
  }

  lemma KeyLineFirst(pre: string, v: string)
    requires '$' !in pre && ':' !in pre
    ensures KeyFirst(pre + (": " + v))
  {
    var l := pre + (": " + v);
    assert l[..|pre|] == pre;
    assert KeyEnds(l, |pre|);
  }

  function SegLines(ls: seq<Line>): (lines: seq<seq<Seg>>)
    ensures |lines| == |ls| && forall i | 0 <= i < |ls| :: lines[i] == Segs(ls[i])
  {
    seq(|ls|, i requires 0 <= i < |ls| => Segs(ls[i]))
  }

  ghost const ONE_LINE_NAMES: set<string> :=
    set i | 0 <= i < 38 && OneLine(KeyAt(i)) :: KeyText(KeyAt(i))

  lemma EntryKnown(l: Line)
    requires GoodEntry(l)
    ensures VarsOf(Segs(l)) <= ONE_LINE_NAMES
  {
    hide Placeholder, KeyText, VarsOf, Segs, KeyAt;
    EntryFacts(l);
    if l.Entry? {
      var c: Check :| l.value == Placeholder(c);
      PlaceholderVars(c);
      PlaceOfKey(KeyOf(c));
    }
  }

  /** The lines of a list, as one text. */
  lemma LinesText(ls: seq<Line>)
    requires ls != [] && GoodEntries(ls)
    ensures var t := Join(Texts(ls), '\n');
            Clean(t) && Names(t) <= ONE_LINE_NAMES && Split(t, '\n') == Texts(ls) && KeysFirst(Texts(ls))
    ensures KeyedLines(ls)
  {
    hide GoodEntry, Clean, Names, LineAsText, Segs, GoodLine, VarsOf, KeyFirst, IsKey;
    var lines := SegLines(ls);
    forall i | 0 <= i < |ls|
      ensures GoodLine(Segs(ls[i])) && '\n' !in LineAsText(ls[i]) && KeyFirst(LineAsText(ls[i]))
      ensures VarsOf(Segs(ls[i])) <= ONE_LINE_NAMES && IsKey(ls[i].key)
    {
      EntryFacts(ls[i]);
      EntryKnown(ls[i]);
      EntryIsKeyed(ls[i]);
    }
    Assembled(lines, ONE_LINE_NAMES);
    SameTexts(ls);
    SplitJoin(Texts(ls), '\n');
  }

  lemma EntryIsKeyed(l: Line)
    requires GoodEntry(l)
    ensures IsKey(l.key)
  {
  }

  lemma SameTexts(ls: seq<Line>)
    ensures LineStrings(SegLines(ls)) == Texts(ls)
  {
  }

  lemma CheckFound(c: Check)
    requires c.Valid()
    ensures Get(TopologyLines(), 0, Path(c)) == Some(Placeholder(c))
  {
    hide Get, TopologyLines, Path, Placeholder;
    match c
    case NodeV4(n) => NodeCheckFound(n);
    case NodeV6(n) => NodeCheckFound(n);
    case OtherKmes(n) => EnvCheckFound(n);
    case ClientIps(n) => EnvCheckFound(n);
    case _ => MgmtCheckFound(c);
  }

  /** The checked lines of the file alone are a topology template. */
  lemma BareTopology()
    ensures Texts(TopologyLines()) != [] && TopologyTemplate(Join(Texts(TopologyLines()), '\n'))
  {
    hide Get, TopologyLines, Path, Placeholder, Clean, Names, Split, KeysFirst, GoodEntries, KeyedLines, KeyAt, KeyText, Keys;
    NotEmpty();
    GoodTopologyLines();
    var ls := TopologyLines();
    var t := Join(Texts(ls), '\n');
    LinesText(ls);
    forall c: Check | c.Valid() ensures Lookup(Split(t, '\n'), 0, Path(c)) == Some(TextOf(Placeholder(c))) {
      CheckFound(c);
      PathKeys(c);
      GetTexts(ls, 0, Path(c));
    }
  }

  lemma NotEmpty()
    ensures TopologyLines() != []
  {
  }
}
