/** The lab's data plane (lab/topology_contract.py): links, interface addresses
    and static routes, followed by packets under longest-prefix match. */
module Routing {
  import opened Text
  import opened MgmtAddresses

  datatype Node = Ceos1 | Ceos2 | Ceos3 | Host1 | Host2 | Host3
  datatype End = End(node: Node, port: nat)

  const LINKS := [
    (End(Ceos1, 1), End(Ceos2, 1)),
    (End(Ceos1, 2), End(Ceos3, 1)),
    (End(Ceos1, 8), End(Host1, 1)),
    (End(Ceos2, 8), End(Host2, 1)),
    (End(Ceos3, 8), End(Host3, 1))
  ]

  function PeerIn(links: seq<(End, End)>, e: End): Option<End> {
    if links == [] then None
    else if links[0].0 == e then Some(links[0].1)
    else if links[0].1 == e then Some(links[0].0)
    else PeerIn(links[1..], e)
  }

  // ---- Addresses ------------------------------------------------------------

  datatype Family = V4 | V6

  /** An interface address or a destination, with its prefix length. */
  datatype Net = Net(addr: nat, len: nat)

  function Width(f: Family): nat { if f.V4? then 32 else 128 }

  predicate Covers(f: Family, n: Net, a: nat)
    requires n.len <= Width(f)
  {
    a / Pow(2, Width(f) - n.len) == n.addr / Pow(2, Width(f) - n.len)
  }

  function Dotted(a: nat, b: nat, c: nat, d: nat): nat { ((a * 256 + b) * 256 + c) * 256 + d }

  /** 2001:db8:x:: plus d. */
  function Doc(x: nat, d: nat): nat {
    ((0x2001 * 0x1_0000 + 0xdb8) * 0x1_0000 + x) * 0x1_0000_0000_0000_0000_0000 + d
  }

  /** As octets and as groups of 16 bits. */
  lemma DottedOctets(a: nat, b: nat, c: nat, d: nat)
    requires a < 256 && b < 256 && c < 256 && d < 256
    ensures Octets(Dotted(a, b, c, d)) == [a, b, c, d]
  {
    var v := Dotted(a, b, c, d);
    LowOctet((a * 256 + b) * 256 + c, d);
    LowOctet(a * 256 + b, c);
    LowOctet(a, b);
    DivTwice(v);
    DivTwice(v / 256);
  }

  lemma LowOctet(q: nat, r: nat)
    requires r < 256
    ensures (q * 256 + r) / 256 == q && (q * 256 + r) % 256 == r
  {
  }

  lemma DivTwice(v: nat)
    ensures v / 0x1_0000 == v / 256 / 256 && v / 0x100_0000 == v / 256 / 256 / 256
  {
  }

  lemma ValueMore(h: seq<nat>, v: nat)
    ensures Value(h + [v]) == Value(h) * 0x1_0000 + v
  {
    assert (h + [v])[..|h|] == h;
  }

  lemma DocGroups(x: nat, d: nat)
    ensures Value([0x2001, 0xdb8, x, 0, 0, 0, 0, d]) == Doc(x, d)
  {
    hide Value;
    var h := [0x2001, 0xdb8, x];
    ValueEmpty();
    ValueMore([], 0x2001);
    ValueMore([0x2001], 0xdb8);
    ValueMore([0x2001, 0xdb8], x);
    assert [] + [0x2001] == [0x2001] && [0x2001] + [0xdb8] == [0x2001, 0xdb8] && [0x2001, 0xdb8] + [x] == h;
    ValueMore(h, 0);
    ValueMore(h + [0], 0);
    ValueMore(h + [0] + [0], 0);
    ValueMore(h + [0] + [0] + [0], 0);
    ValueMore(h + [0] + [0] + [0] + [0], d);
    assert h + [0] + [0] + [0] + [0] + [d] == [0x2001, 0xdb8, x, 0, 0, 0, 0, d];
  }

  lemma ValueEmpty()
    ensures Value([]) == 0
  {
  }

  /** The interfaces of a node: port and address. */
  function Ifaces(f: Family, n: Node): seq<(nat, Net)> {
    match f
    case V4 => (
      match n
      case Ceos1 => [(1, Net(Dotted(10, 255, 0, 1), 30)), (2, Net(Dotted(10, 255, 0, 5), 30)),
                     (8, Net(Dotted(10, 0, 1, 254), 24))]
      case Ceos2 => [(1, Net(Dotted(10, 255, 0, 2), 30)), (8, Net(Dotted(10, 0, 2, 254), 24))]
      case Ceos3 => [(1, Net(Dotted(10, 255, 0, 6), 30)), (8, Net(Dotted(10, 0, 3, 254), 24))]
      case Host1 => [(1, Net(Dotted(10, 0, 1, 1), 24))]
      case Host2 => [(1, Net(Dotted(10, 0, 2, 1), 24))]
      case Host3 => [(1, Net(Dotted(10, 0, 3, 1), 24))])
    case V6 => (
      match n
      case Ceos1 => [(1, Net(Doc(0x255, 1), 126)), (2, Net(Doc(0x255, 5), 126)), (8, Net(Doc(1, 0xfe), 64))]
      case Ceos2 => [(1, Net(Doc(0x255, 2), 126)), (8, Net(Doc(2, 0xfe), 64))]
      case Ceos3 => [(1, Net(Doc(0x255, 6), 126)), (8, Net(Doc(3, 0xfe), 64))]
      case Host1 => [(1, Net(Doc(1, 1), 64))]
      case Host2 => [(1, Net(Doc(2, 1), 64))]
      case Host3 => [(1, Net(Doc(3, 1), 64))])
  }

  /** The static routes: destination and next hop; a host has its gateway. */
  function Statics(f: Family, n: Node): seq<(Net, nat)> {
    match f
    case V4 => (
      match n
      case Ceos1 => [(Net(Dotted(10, 0, 2, 0), 24), Dotted(10, 255, 0, 2)),
                     (Net(Dotted(10, 0, 3, 0), 24), Dotted(10, 255, 0, 6))]
      case Ceos2 => [(Net(Dotted(10, 0, 1, 0), 24), Dotted(10, 255, 0, 1)),
                     (Net(Dotted(10, 0, 3, 0), 24), Dotted(10, 255, 0, 1))]
      case Ceos3 => [(Net(Dotted(10, 0, 1, 0), 24), Dotted(10, 255, 0, 5)),
                     (Net(Dotted(10, 0, 2, 0), 24), Dotted(10, 255, 0, 5))]
      case Host1 => [(Net(0, 0), Dotted(10, 0, 1, 254))]
      case Host2 => [(Net(0, 0), Dotted(10, 0, 2, 254))]
      case Host3 => [(Net(0, 0), Dotted(10, 0, 3, 254))])
    case V6 => (
      match n
      case Ceos1 => [(Net(Doc(2, 0), 64), Doc(0x255, 2)), (Net(Doc(3, 0), 64), Doc(0x255, 6))]
      case Ceos2 => [(Net(Doc(1, 0), 64), Doc(0x255, 1)), (Net(Doc(3, 0), 64), Doc(0x255, 1))]
      case Ceos3 => [(Net(Doc(1, 0), 64), Doc(0x255, 5)), (Net(Doc(2, 0), 64), Doc(0x255, 5))]
      case Host1 => [(Net(0, 0), Doc(1, 0xfe))]
      case Host2 => [(Net(0, 0), Doc(2, 0xfe))]
      case Host3 => [(Net(0, 0), Doc(3, 0xfe))])
  }

  // ---- Forwarding -----------------------------------------------------------

  datatype Hop = Connected(port: nat) | Via(nexthop: nat)
  datatype Route = Route(dst: Net, hop: Hop)

  function ConnectedRoutes(ifaces: seq<(nat, Net)>): seq<Route> {
    seq(|ifaces|, i requires 0 <= i < |ifaces| => Route(ifaces[i].1, Connected(ifaces[i].0)))
  }

  function StaticRoutes(statics: seq<(Net, nat)>): seq<Route> {
    seq(|statics|, i requires 0 <= i < |statics| => Route(statics[i].0, Via(statics[i].1)))
  }

  predicate Fits(f: Family, table: seq<Route>) {
    forall r | r in table :: r.dst.len <= Width(f)
  }

  /** Longest-prefix match. */
  function Best(f: Family, table: seq<Route>, a: nat): Option<Route>
    requires Fits(f, table)
  {
    if table == [] then None
    else
      var rest := Best(f, table[1..], a);
      if Covers(f, table[0].dst, a) && (rest.None? || rest.value.dst.len <= table[0].dst.len)
      then Some(table[0]) else rest
  }

  lemma {:induction false} BestIsLongest(f: Family, table: seq<Route>, a: nat)
    requires Fits(f, table)
    ensures var b := Best(f, table, a);
      match b
      case None => forall r | r in table :: !Covers(f, r.dst, a)
      case Some(r) => r in table && Covers(f, r.dst, a) && forall q | q in table && Covers(f, q.dst, a) :: q.dst.len <= r.dst.len
  {
    if table != [] {
      assert forall r | r in table :: r == table[0] || r in table[1..];
      BestIsLongest(f, table[1..], a);
    }
  }

  lemma LengthsFit(f: Family, n: Node)
    ensures forall i | i in Ifaces(f, n) :: i.1.len <= Width(f)
    ensures forall r | r in Statics(f, n) :: r.0.len <= Width(f)
  {
    hide Dotted, Doc;
  }

  function Table(f: Family, n: Node): (t: seq<Route>)
    ensures Fits(f, t)
  {
    LengthsFit(f, n);
    hide Ifaces, Statics;
    ConnectedRoutes(Ifaces(f, n)) + StaticRoutes(Statics(f, n))
  }

  /** A node owns the addresses of its interfaces. */
  predicate Owns(f: Family, n: Node, a: nat) {
    exists i | i in Ifaces(f, n) :: i.1.addr == a
  }

  datatype Action =
    | Local              // one of the node's own addresses
    | OnLink(port: nat)  // in the subnet of an interface
    | Hand(next: Node)   // to the neighbour that answers for the next hop
    | Drop

  /** The port of the connected route to an address. */
  function PortTo(f: Family, n: Node, a: nat): Option<nat> {
    match Best(f, ConnectedRoutes(Ifaces(f, n)), a)
    case Some(Route(_, Connected(p))) => Some(p)
    case _ => None
  }

  /** Who is at the far end of a port, if it owns the address. */
  function Neighbour(f: Family, n: Node, p: nat, a: nat): Option<Node> {
    match PeerIn(LINKS, End(n, p))
    case Some(End(m, q)) =>
      if exists i | i in Ifaces(f, m) :: i.0 == q && i.1.addr == a then Some(m) else None
    case None => None
  }

  function Forward(f: Family, n: Node, a: nat): Action {
    if Owns(f, n, a) then Local
    else
      match Best(f, Table(f, n), a)
      case None => Drop
      case Some(Route(_, Connected(p))) => OnLink(p)
      case Some(Route(_, Via(nexthop))) =>
        match PortTo(f, n, nexthop)
        case None => Drop
        case Some(p) =>
          match Neighbour(f, n, p, nexthop)
          case None => Drop
          case Some(m) => Hand(m)
  }

  // ---- Which subnet an address is in ----------------------------------------

  datatype Zone = Site1 | Site2 | Site3 | Link12 | Link13 | Elsewhere

  function ZoneStart(f: Family, z: Zone): nat {
    match z
    case Site1 => if f.V4? then Dotted(10, 0, 1, 0) else Doc(1, 0)
    case Site2 => if f.V4? then Dotted(10, 0, 2, 0) else Doc(2, 0)
    case Site3 => if f.V4? then Dotted(10, 0, 3, 0) else Doc(3, 0)
    case Link12 => if f.V4? then Dotted(10, 255, 0, 0) else Doc(0x255, 0)
    case Link13 => if f.V4? then Dotted(10, 255, 0, 4) else Doc(0x255, 4)
    case Elsewhere => 0
  }

  function ZoneLen(f: Family, z: Zone): nat {
    match z
    case Site1 | Site2 | Site3 => if f.V4? then 24 else 64
    case Link12 | Link13 => if f.V4? then 30 else 126
    case Elsewhere => 0
  }

  function ZoneSize(f: Family, z: Zone): nat {
    match z
    case Site1 | Site2 | Site3 => if f.V4? then 256 else 0x1_0000_0000_0000_0000
    case Link12 | Link13 => 4
    case Elsewhere => 0
  }

  predicate In(f: Family, z: Zone, a: nat) {
    ZoneStart(f, z) <= a < ZoneStart(f, z) + ZoneSize(f, z)
  }

  function ZoneOf(f: Family, a: nat): Zone {
    if In(f, Site1, a) then Site1
    else if In(f, Site2, a) then Site2
    else if In(f, Site3, a) then Site3
    else if In(f, Link12, a) then Link12
    else if In(f, Link13, a) then Link13
    else Elsewhere
  }

  lemma Pow2Values()
    ensures Pow(2, 2) == 4 && Pow(2, 8) == 256 && Pow(2, 64) == 0x1_0000_0000_0000_0000
  {
    Pow2Of16();
    PowSplit(2, 16, 16);
    PowSplit(2, 32, 32);
  }

  lemma SameBlock(a: nat, q: nat, size: nat)
    requires size > 0
    ensures a / size == q <==> q * size <= a < q * size + size
  {
    var r := a / size;
    assert a == r * size + a % size;
    if r < q { MulUp(r + 1, q, size); } else if r > q { MulUp(q + 1, r, size); }
  }

  lemma MulUp(x: nat, y: nat, m: nat)
    requires x <= y
    ensures x * m <= y * m
  {
  }

  lemma CoverRange(f: Family, n: Net, a: nat, q: nat, size: nat)
    requires n.len <= Width(f) && Pow(2, Width(f) - n.len) == size && q * size <= n.addr < q * size + size
    ensures Covers(f, n, a) <==> q * size <= a < q * size + size
  {
    SameBlock(a, q, size);
    SameBlock(n.addr, q, size);
  }

  lemma ZoneAligned(f: Family, z: Zone)
    requires z != Elsewhere
    ensures ZoneLen(f, z) <= Width(f) && ZoneSize(f, z) == Pow(2, Width(f) - ZoneLen(f, z))
    ensures ZoneSize(f, z) > 0 && ZoneStart(f, z) == ZoneStart(f, z) / ZoneSize(f, z) * ZoneSize(f, z)
  {
    Pow2Values();
  }

  lemma ZoneIn(f: Family, z: Zone, a: nat)
    requires z != Elsewhere
    ensures ZoneOf(f, a) == z <==> ZoneStart(f, z) <= a < ZoneStart(f, z) + ZoneSize(f, z)
  {
    if f.V4? { ZoneIn4(z, a); } else { ZoneIn6(z, a); }
  }

  lemma ZoneIn4(z: Zone, a: nat)
    requires z != Elsewhere
    ensures ZoneOf(V4, a) == z <==> ZoneStart(V4, z) <= a < ZoneStart(V4, z) + ZoneSize(V4, z)
  {
  }

  lemma ZoneIn6(z: Zone, a: nat)
    requires z != Elsewhere
    ensures ZoneOf(V6, a) == z <==> ZoneStart(V6, z) <= a < ZoneStart(V6, z) + ZoneSize(V6, z)
  {
  }

  /** A prefix with its subnet's length covers just that subnet. */
  lemma ZoneCovers(f: Family, z: Zone, n: Net, a: nat)
    requires z != Elsewhere && n.len == ZoneLen(f, z) && ZoneOf(f, n.addr) == z
    ensures n.len <= Width(f) && (Covers(f, n, a) <==> ZoneOf(f, a) == z)
  {
    ZoneAligned(f, z);
    ZoneIn(f, z, n.addr);
    ZoneIn(f, z, a);
    hide *;
    CoverRange(f, n, a, ZoneStart(f, z) / ZoneSize(f, z), ZoneSize(f, z));
  }

  /** An interface address or static destination that names one subnet. */
  predicate Zoned(f: Family, n: Net) {
    ZoneOf(f, n.addr) != Elsewhere && n.len == ZoneLen(f, ZoneOf(f, n.addr))
  }

  ghost predicate OnePerZone(f: Family, table: seq<Route>) {
    && (forall r | r in table :: Zoned(f, r.dst))
    && (forall i, j | 0 <= i < j < |table| :: ZoneOf(f, table[i].dst.addr) != ZoneOf(f, table[j].dst.addr))
  }

  /** In such a table the longest match is the entry of the address's subnet. */
  lemma BestInZone(f: Family, table: seq<Route>, a: nat)
    requires OnePerZone(f, table) && Fits(f, table)
    ensures match Best(f, table, a)
      case None => forall i | 0 <= i < |table| :: ZoneOf(f, table[i].dst.addr) != ZoneOf(f, a)
      case Some(b) => forall i | 0 <= i < |table| && ZoneOf(f, table[i].dst.addr) == ZoneOf(f, a) :: b == table[i]
    ensures Best(f, table, a).Some? ==> exists i :: 0 <= i < |table| && ZoneOf(f, table[i].dst.addr) == ZoneOf(f, a)
  {
    hide ZoneOf, Covers, Best;
    BestIsLongest(f, table, a);
    forall r | r in table ensures Covers(f, r.dst, a) <==> ZoneOf(f, r.dst.addr) == ZoneOf(f, a) {
      ZoneCovers(f, ZoneOf(f, r.dst.addr), r.dst, a);
    }
    if Best(f, table, a).Some? {
      var b := Best(f, table, a).value;
      var k :| 0 <= k < |table| && table[k] == b;
      assert ZoneOf(f, table[k].dst.addr) == ZoneOf(f, a);
    } else {
      assert forall i | 0 <= i < |table| :: table[i] in table;
    }
  }

  // ---- The tables -----------------------------------------------------------

  lemma Addresses(f: Family)
    ensures f.V4? ==> forall x | x in {1, 2} :: ZoneOf(f, Dotted(10, 255, 0, x)) == Link12
    ensures f.V4? ==> forall x | x in {5, 6} :: ZoneOf(f, Dotted(10, 255, 0, x)) == Link13
    ensures f.V4? ==> forall x | x in {0, 1, 254} :: ZoneOf(f, Dotted(10, 0, 1, x)) == Site1
    ensures f.V4? ==> forall x | x in {0, 1, 254} :: ZoneOf(f, Dotted(10, 0, 2, x)) == Site2
    ensures f.V4? ==> forall x | x in {0, 1, 254} :: ZoneOf(f, Dotted(10, 0, 3, x)) == Site3
    ensures f.V6? ==> forall x | x in {1, 2} :: ZoneOf(f, Doc(0x255, x)) == Link12
    ensures f.V6? ==> forall x | x in {5, 6} :: ZoneOf(f, Doc(0x255, x)) == Link13
    ensures f.V6? ==> forall x | x in {0, 1, 0xfe} :: ZoneOf(f, Doc(1, x)) == Site1
    ensures f.V6? ==> forall x | x in {0, 1, 0xfe} :: ZoneOf(f, Doc(2, x)) == Site2
    ensures f.V6? ==> forall x | x in {0, 1, 0xfe} :: ZoneOf(f, Doc(3, x)) == Site3
  {
  }

  predicate Switch(n: Node) { n.Ceos1? || n.Ceos2? || n.Ceos3? }

  lemma TableZones(f: Family, n: Node)
    requires Switch(n)
    ensures OnePerZone(f, Table(f, n))
  {
    hide OnePerZone, Table;
    match n
    case Ceos1 => FirstZones(f);
    case Ceos2 => OtherZones(f, n);
    case _ => OtherZones(f, n);
  }

  lemma FirstZones(f: Family)
    ensures OnePerZone(f, Table(f, Ceos1))
  {
    hide ZoneOf, Dotted, Doc;
    Addresses(f);
  }

  lemma OtherZones(f: Family, n: Node)
    requires n.Ceos2? || n.Ceos3?
    ensures OnePerZone(f, Table(f, n))
  {
    hide ZoneOf, Dotted, Doc;
    Addresses(f);
  }

  /** What the tables come to, subnet by subnet. */
  function StepTo(n: Node, z: Zone): Action
    requires Switch(n)
  {
    match n
    case Ceos1 => (
      match z
      case Site1 => OnLink(8)
      case Link12 => OnLink(1)
      case Link13 => OnLink(2)
      case Site2 => Hand(Ceos2)
      case Site3 => Hand(Ceos3)
      case Elsewhere => Drop)
    case Ceos2 => (
      match z
      case Site2 => OnLink(8)
      case Link12 => OnLink(1)
      case Site1 | Site3 => Hand(Ceos1)
      case _ => Drop)
    case _ => (
      match z
      case Site3 => OnLink(8)
      case Link13 => OnLink(1)
      case Site1 | Site2 => Hand(Ceos1)
      case _ => Drop)
  }

  lemma ConnectedZones(f: Family, n: Node)
    requires Switch(n)
    ensures OnePerZone(f, ConnectedRoutes(Ifaces(f, n))) && Fits(f, ConnectedRoutes(Ifaces(f, n)))
  {
    hide ZoneOf, Ifaces, Statics;
    TableZones(f, n);
    var c := ConnectedRoutes(Ifaces(f, n));
    assert c == Table(f, n)[..|c|];
    assert forall i | 0 <= i < |c| :: c[i] == Table(f, n)[i];
  }

  lemma PortIs(f: Family, n: Node, x: nat, k: nat)
    requires Switch(n) && k < |Ifaces(f, n)| && ZoneOf(f, Ifaces(f, n)[k].1.addr) == ZoneOf(f, x)
    ensures PortTo(f, n, x) == Some(Ifaces(f, n)[k].0)
  {
    hide ZoneOf, Ifaces, Best;
    ConnectedZones(f, n);
    var c := ConnectedRoutes(Ifaces(f, n));
    BestInZone(f, c, x);
    assert c[k].dst == Ifaces(f, n)[k].1;
  }

  /** A next hop resolves to the neighbour whose interface has that address. */
  lemma NextHops(f: Family, n: Node, k: nat)
    requires Switch(n) && k < |Statics(f, n)|
    ensures PortTo(f, n, Statics(f, n)[k].1).Some?
    ensures Neighbour(f, n, PortTo(f, n, Statics(f, n)[k].1).value, Statics(f, n)[k].1) ==
      Some(if n != Ceos1 then Ceos1 else if k == 0 then Ceos2 else Ceos3)
  {
    hide ZoneOf, Dotted, Doc, PortTo, PeerIn;
    Addresses(f);
    var x := Statics(f, n)[k].1;
    var i := if n == Ceos1 then k else 0;
    PortIs(f, n, x, i);
    LinkEnds();
    var m, q := PeerIn(LINKS, End(n, Ifaces(f, n)[i].0)).value.node, if n == Ceos3 then 2 else 1;
    assert Ifaces(f, m)[q - 1].1.addr == x;
    assert Ifaces(f, m)[q - 1] in Ifaces(f, m);
  }

  lemma LinkEnds()
    ensures PeerIn(LINKS, End(Ceos1, 1)) == Some(End(Ceos2, 1)) && PeerIn(LINKS, End(Ceos2, 1)) == Some(End(Ceos1, 1))
    ensures PeerIn(LINKS, End(Ceos1, 2)) == Some(End(Ceos3, 1)) && PeerIn(LINKS, End(Ceos3, 1)) == Some(End(Ceos1, 2))
    ensures PeerIn(LINKS, End(Ceos1, 8)) == Some(End(Host1, 1)) && PeerIn(LINKS, End(Host1, 1)) == Some(End(Ceos1, 8))
    ensures PeerIn(LINKS, End(Ceos2, 8)) == Some(End(Host2, 1)) && PeerIn(LINKS, End(Host2, 1)) == Some(End(Ceos2, 8))
    ensures PeerIn(LINKS, End(Ceos3, 8)) == Some(End(Host3, 1)) && PeerIn(LINKS, End(Host3, 1)) == Some(End(Ceos3, 8))
  {
    var l1, l2, l3, l4 := LINKS[1..], LINKS[2..], LINKS[3..], LINKS[4..];
    assert l1[1..] == l2 && l2[1..] == l3 && l3[1..] == l4 && l4[1..] == [];
  }

  /** Two ends of a declared link. */
  predicate Linked(e: End, x: End) { (e, x) in LINKS || (x, e) in LINKS }

  lemma {:induction false} PeerListed(links: seq<(End, End)>, e: End)
    ensures match PeerIn(links, e)
      case Some(x) => (e, x) in links || (x, e) in links
      case None => forall x :: (e, x) !in links && (x, e) !in links
  {
    if links != [] {
      PeerListed(links[1..], e);
      assert links == [links[0]] + links[1..];
    }
  }

  lemma PeerExactly(e: End, x: End)
    ensures PeerIn(LINKS, e) == Some(x) <==> Linked(e, x)
  {
    hide PeerIn;
    PeerListed(LINKS, e);
    if Linked(e, x) { LinkedOnce(e, x, PeerIn(LINKS, e).value); }
  }

  /** An end is on one link. */
  lemma LinkedOnce(e: End, x: End, y: End)
    requires Linked(e, x) && Linked(e, y)
    ensures x == y
  {
  }

  /** A neighbour on a port answers for an address exactly if the link's far end is
      its interface and has that address. */
  lemma NeighbourExactly(f: Family, n: Node, p: nat, a: nat, m: Node)
    ensures Neighbour(f, n, p, a) == Some(m) <==>
      exists q: nat, len: nat :: Linked(End(n, p), End(m, q)) && (q, Net(a, len)) in Ifaces(f, m)
  {
    hide PeerIn, Linked, Ifaces;
    if Neighbour(f, n, p, a) == Some(m) {
      var e := PeerIn(LINKS, End(n, p)).value;
      PeerExactly(End(n, p), e);
      var i :| i in Ifaces(f, m) && i.0 == e.port && i.1.addr == a;
      assert i == (e.port, Net(a, i.1.len));
    }
    if q: nat, len: nat :| Linked(End(n, p), End(m, q)) && (q, Net(a, len)) in Ifaces(f, m) {
      PeerExactly(End(n, p), End(m, q));
      assert (q, Net(a, len)).0 == q;
    }
  }

  /** Every table, with its next hops resolved, does what the plan says. */
  lemma Step(f: Family, n: Node, a: nat)
    requires Switch(n)
    ensures Forward(f, n, a) == if Owns(f, n, a) then Local else StepTo(n, ZoneOf(f, a))
  {
    hide ZoneOf, Dotted, Doc, Best, Owns, PortTo, Neighbour;
    TableZones(f, n);
    BestInZone(f, Table(f, n), a);
    Addresses(f);
    var t := Table(f, n);
    var k := |Ifaces(f, n)|;
    assert |t| == k + 2 && k == if n == Ceos1 then 3 else 2;
    NextHops(f, n, 0);
    NextHops(f, n, 1);
    assert t[0].hop == Connected(1) && t[k - 1].hop == Connected(8) && t[1].hop == Connected(if n == Ceos1 then 2 else 8);
    assert t[k].hop == Via(Statics(f, n)[0].1) && t[k + 1].hop == Via(Statics(f, n)[1].1);
  }

  // ---- Packets --------------------------------------------------------------

  datatype Fate =
    | Arrived           // at the node itself
    | Sent(port: nat)   // onto the subnet of that port
    | Lost              // no route
    | Expired           // the hop limit ran out

  /** The nodes a packet visits, and how it ends there. */
  datatype Trip = Trip(nodes: seq<Node>, fate: Fate)

  /** A router passes a packet on only with a hop limit above one, and lowers
      it. */
  function Travel(f: Family, n: Node, a: nat, hops: nat): Trip
    decreases hops
  {
    hide Forward;
    match Forward(f, n, a)
    case Local => Trip([n], Arrived)
    case Drop => Trip([n], Lost)
    case OnLink(p) => Trip([n], if hops > 1 then Sent(p) else Expired)
    case Hand(m) =>
      if hops <= 1 then Trip([n], Expired)
      else
        var t := Travel(f, m, a, hops - 1);
        Trip([n] + t.nodes, t.fate)
  }

  /** The tree's path between two switches. */
  function Way(n: Node, m: Node): seq<Node> {
    if n == m then [n] else if n == Ceos1 || m == Ceos1 then [n, m] else [n, Ceos1, m]
  }

  function SwitchOf(h: Node): Node {
    match h
    case Host1 => Ceos1
    case Host2 => Ceos2
    case Host3 => Ceos3
    case n => n
  }

  function SiteOf(h: Node): Zone {
    match SwitchOf(h)
    case Ceos1 => Site1
    case Ceos2 => Site2
    case _ => Site3
  }

  // ---- Main results ---------------------------------------------------------

  /** What becomes of any packet at all, from any switch: it follows the tree to
      the switch of its subnet; with no subnet, or a link subnet that the
      switch is not on, the first switch has no route for it. */
  function Expected(n: Node, z: Zone): (seq<Node>, Fate)
    requires Switch(n)
  {
    match z
    case Site1 => (Way(n, Ceos1), Sent(8))
    case Site2 => (Way(n, Ceos2), Sent(8))
    case Site3 => (Way(n, Ceos3), Sent(8))
    case Link12 => ([n], if n == Ceos3 then Lost else Sent(1))
    case Link13 => ([n], if n == Ceos2 then Lost else if n == Ceos1 then Sent(2) else Sent(1))
    case Elsewhere => ([n], Lost)
  }

  lemma OwnZone(f: Family, n: Node, a: nat)
    requires Switch(n) && Owns(f, n, a)
    ensures ZoneOf(f, a) != Elsewhere
    ensures ZoneOf(f, a) in {Site1, Site2, Site3} ==> SiteOf(n) == ZoneOf(f, a)
    ensures ZoneOf(f, a) == Link12 ==> n != Ceos3
    ensures ZoneOf(f, a) == Link13 ==> n != Ceos2
  {
    hide ZoneOf, Dotted, Doc;
    Addresses(f);
  }

  /** No packet loops: with a hop limit above three, whatever its destination,
      it ends where the plan says after at most three different switches.  At
      the end it is for the switch itself when the switch owns the address. */
  lemma EveryPacketEnds(f: Family, n: Node, a: nat, hops: nat)
    requires Switch(n) && hops > 3
    ensures var t := Travel(f, n, a, hops);
      && t.nodes == Expected(n, ZoneOf(f, a)).0 && 1 <= |t.nodes| <= 3
      && (forall i, j | 0 <= i < j < |t.nodes| :: t.nodes[i] != t.nodes[j])
      && t.fate == if Owns(f, t.nodes[|t.nodes| - 1], a) then Arrived else Expected(n, ZoneOf(f, a)).1
  {
    hide ZoneOf, Owns, Forward, Travel, Expected, StepTo;
    var z := ZoneOf(f, a);
    PlanHolds(n, z);
    OneHop(f, n, a, hops);
    match StepTo(n, z)
    case Hand(m) => {
      PlanHolds(m, z);
      OneHop(f, m, a, hops - 1);
      match StepTo(m, z)
      case Hand(k) => {
        PlanHolds(k, z);
        OneHop(f, k, a, hops - 2);
      }
      case _ =>
    }
    case _ =>
  }

  /** Following the plan's steps gives the plan's path, and each step that hands
      over leaves a shorter one. */
  lemma PlanHolds(n: Node, z: Zone)
    requires Switch(n)
    ensures var (way, fate) := Expected(n, z);
      && 1 <= |way| <= 3 && way[0] == n && (forall i, j | 0 <= i < j < |way| :: way[i] != way[j])
      && match StepTo(n, z)
         case Hand(m) => Switch(m) && way[1..] == Expected(m, z).0 && fate == Expected(m, z).1 && |way| >= 2
         case OnLink(p) => way == [n] && fate == Sent(p)
         case _ => way == [n] && fate == Lost && StepTo(n, z).Drop?
  {
  }

  lemma OneHop(f: Family, n: Node, a: nat, hops: nat)
    requires Switch(n) && hops > 1
    ensures Travel(f, n, a, hops) ==
      match StepTo(n, ZoneOf(f, a))
      case Hand(m) => Trip([n] + Travel(f, m, a, hops - 1).nodes, Travel(f, m, a, hops - 1).fate)
      case OnLink(p) => Trip([n], if Owns(f, n, a) then Arrived else Sent(p))
      case _ => Trip([n], Lost)
    ensures Owns(f, n, a) ==> StepTo(n, ZoneOf(f, a)).OnLink?
  {
    hide ZoneOf, Owns, Forward;
    Step(f, n, a);
    if Owns(f, n, a) { OwnZone(f, n, a); }
  }

  /** And with fewer hops: what the hop limit cuts off.  A router that puts a packet
      on a link lowers the limit too. */
  lemma HopsExactly(f: Family, n: Node, a: nat, hops: nat)
    requires Switch(n) && hops > 0
    ensures var (way, fate) := Expected(n, ZoneOf(f, a));
      var end := if Owns(f, way[|way| - 1], a) then Arrived else fate;
      Travel(f, n, a, hops) ==
        if hops >= |way| + (if end.Sent? then 1 else 0) then Trip(way, end)
        else Trip(way[..if hops < |way| then hops else |way|], Expired)
    decreases hops
  {
    hide ZoneOf, Owns, Forward, Travel, Expected, StepTo;
    var z := ZoneOf(f, a);
    PlanHolds(n, z);
    if hops == 1 {
      LastHop(f, n, a);
    } else {
      OneHop(f, n, a, hops);
      if StepTo(n, z).Hand? { HopsExactly(f, StepTo(n, z).next, a, hops - 1); }
    }
  }

  lemma LastHop(f: Family, n: Node, a: nat)
    requires Switch(n)
    ensures Travel(f, n, a, 1) ==
      Trip([n], if Owns(f, n, a) then Arrived else if StepTo(n, ZoneOf(f, a)).Drop? then Lost else Expired)
    ensures Owns(f, n, a) ==> StepTo(n, ZoneOf(f, a)).OnLink?
  {
    hide ZoneOf, Owns, Forward;
    Step(f, n, a);
    if Owns(f, n, a) { OwnZone(f, n, a); }
  }

  predicate Host(n: Node) { n.Host1? || n.Host2? || n.Host3? }

  /** A host's packet: straight onto its own subnet, or to its gateway. */
  function SendFrom(f: Family, h: Node, a: nat, hops: nat): Trip {
    hide Forward;
    match Forward(f, h, a)
    case Local => Trip([], Arrived)
    case Drop => Trip([], Lost)
    case OnLink(p) => Trip([], Sent(p))
    case Hand(m) => Travel(f, m, a, hops)
  }

  lemma HostBest(f: Family, h: Node, a: nat)
    requires Host(h) && a < Pow(2, Width(f))
    ensures Best(f, Table(f, h), a).Some?
    ensures Best(f, Table(f, h), a).value.hop ==
      if ZoneOf(f, a) == SiteOf(h) then Connected(1) else Via(Statics(f, h)[0].1)
  {
    hide ZoneOf, Dotted, Doc, Best, Covers;
    Addresses(f);
    var t := Table(f, h);
    var own, default := t[0], t[1];
    BestIsLongest(f, t, a);
    ZoneCovers(f, SiteOf(h), own.dst, a);
    DefaultCovers(f, a);
    assert own in t && default in t && |t| == 2;
  }

  lemma HostGatewayPort(f: Family, h: Node)
    requires Host(h)
    ensures PortTo(f, h, Statics(f, h)[0].1) == Some(1)
  {
    hide ZoneOf, Dotted, Doc, Best, Covers;
    Addresses(f);
    var g := Statics(f, h)[0].1;
    var c := ConnectedRoutes(Ifaces(f, h));
    assert |c| == 1 && c[0] in c;
    BestIsLongest(f, c, g);
    ZoneCovers(f, SiteOf(h), c[0].dst, g);
  }

  /** A host reaches its own subnet directly and hands every other address to
      its switch. */
  lemma HostStep(f: Family, h: Node, a: nat)
    requires Host(h) && a < Pow(2, Width(f))
    ensures Forward(f, h, a) ==
      if Owns(f, h, a) then Local else if ZoneOf(f, a) == SiteOf(h) then OnLink(1) else Hand(SwitchOf(h))
  {
    hide ZoneOf, Best, Owns, Neighbour, PortTo, Ifaces, Statics;
    HostBest(f, h, a);
    HostGatewayPort(f, h);
    GatewayOf(f, h);
  }

  /** So what a host sends arrives at itself, goes onto its own subnet, or is
      routed from its switch on; nothing is lost at the host. */
  lemma HostSends(f: Family, h: Node, a: nat, hops: nat)
    requires Host(h) && a < Pow(2, Width(f))
    ensures SendFrom(f, h, a, hops) ==
      if Owns(f, h, a) then Trip([], Arrived) else if ZoneOf(f, a) == SiteOf(h) then Trip([], Sent(1))
      else Travel(f, SwitchOf(h), a, hops)
  {
    hide Forward, Owns, ZoneOf, Travel;
    HostStep(f, h, a);
  }

  lemma DefaultCovers(f: Family, a: nat)
    requires a < Pow(2, Width(f))
    ensures Covers(f, Net(0, 0), a)
  {
    SameBlock(a, 0, Pow(2, Width(f)));
    SameBlock(0, 0, Pow(2, Width(f)));
  }

  lemma GatewayOf(f: Family, h: Node)
    requires Host(h)
    ensures Neighbour(f, h, 1, Statics(f, h)[0].1) == Some(SwitchOf(h))
  {
    hide PeerIn, Dotted, Doc;
    LinkEnds();
    var s := Ifaces(f, SwitchOf(h));
    assert s[|s| - 1] in s;
  }

  /** The address a host is configured with. */
  function AddressOf(f: Family, h: Node): nat
    requires Host(h)
  {
    Ifaces(f, h)[0].1.addr
  }

  lemma HostAddress(f: Family, h: Node)
    requires Host(h)
    ensures ZoneOf(f, AddressOf(f, h)) == SiteOf(h)
    ensures Neighbour(f, SwitchOf(h), 8, AddressOf(f, h)) == Some(h)
  {
    hide ZoneOf, PeerIn, Dotted, Doc;
    Addresses(f);
    LinkEnds();
    assert Ifaces(f, h)[0] in Ifaces(f, h);
  }

  lemma NotOwned(f: Family, n: Node, h: Node)
    requires Host(h) && Switch(n)
    ensures !Owns(f, n, AddressOf(f, h))
  {
  }

  /** Any packet from a host to any address of another host's subnet gets
      there, over the tree's path of at most three switches: to the switch if
      it is the gateway address, else onto the subnet's link. */
  lemma ReachesSubnet(f: Family, from: Node, to: Node, a: nat, hops: nat)
    requires Host(from) && Host(to) && from != to && ZoneOf(f, a) == SiteOf(to) && hops > 3
    ensures var t := SendFrom(f, from, a, hops);
      && t.nodes == Way(SwitchOf(from), SwitchOf(to)) && |t.nodes| <= 3
      && t.fate == if Owns(f, SwitchOf(to), a) then Arrived else Sent(8)
  {
    hide ZoneOf, Owns, Forward, Travel;
    ZoneBelow(f, a);
    HostStep(f, from, a);
    if Owns(f, from, a) { HostOwnZone(f, from, a); }
    EveryPacketEnds(f, SwitchOf(from), a, hops);
  }

  lemma HostOwnZone(f: Family, h: Node, a: nat)
    requires Host(h) && Owns(f, h, a)
    ensures ZoneOf(f, a) == SiteOf(h)
  {
    hide ZoneOf, Dotted, Doc;
    Addresses(f);
  }

  lemma ZoneBelow(f: Family, a: nat)
    requires ZoneOf(f, a) != Elsewhere
    ensures a < Pow(2, Width(f))
  {
    WidthValues();
    hide Pow;
  }

  lemma WidthValues()
    ensures Pow(2, 32) == 0x1_0000_0000 && Pow(2, 128) == 0x1_0000_0000_0000_0000_0000_0000_0000_0000
  {
    hide Pow;
    Pow2Of16();
    PowSplit(2, 16, 16);
    PowSplit(2, 32, 32);
    PowSplit(2, 64, 64);
  }

  /** Hosts reach each other, and an answer takes the same switches back. */
  lemma HostsReachEachOther(f: Family, from: Node, to: Node, hops: nat)
    requires Host(from) && Host(to) && from != to && hops > 3
    ensures var way, back := Way(SwitchOf(from), SwitchOf(to)), Way(SwitchOf(to), SwitchOf(from));
      && SendFrom(f, from, AddressOf(f, to), hops) == Trip(way, Sent(8))
      && Neighbour(f, SwitchOf(to), 8, AddressOf(f, to)) == Some(to)
      && SendFrom(f, to, AddressOf(f, from), hops) == Trip(back, Sent(8))
      && |back| == |way| && forall i | 0 <= i < |way| :: back[i] == way[|way| - 1 - i]
  {
    hide ZoneOf, Owns, SendFrom, Neighbour, Ifaces;
    HostAddress(f, from);
    HostAddress(f, to);
    NotOwned(f, SwitchOf(from), from);
    NotOwned(f, SwitchOf(to), to);
    ReachesSubnet(f, from, to, AddressOf(f, to), hops);
    ReachesSubnet(f, to, from, AddressOf(f, from), hops);
  }

  /** The second switch has no route to the other link subnet: a packet from the
      second switch to an address there is dropped at once. */
  lemma FarLinkUnreachable(f: Family, a: nat, hops: nat)
    requires ZoneOf(f, a) == Link13
    ensures Travel(f, Ceos2, a, hops) == Trip([Ceos2], Lost)
  {
    hide ZoneOf, Owns, Forward;
    Step(f, Ceos2, a);
    if Owns(f, Ceos2, a) { OwnZone(f, Ceos2, a); }
  }
}
