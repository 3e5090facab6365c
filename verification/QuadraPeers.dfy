/** The two QuaDRA agents (lab/render_topo.py, configs/ceos/): the peer, port,
    identity and KME that the snippets configure, against the data plane, the
    certificates and the firewall of the same lab. */
module QuadraPeers {
  import opened Text
  import opened LabDict
  import V = RenderValidate
  import R = Routing
  import M = MgmtAddresses
  import F = KmeFirewall
  import A = KmeAllowlist
  import K = KmePki

  /** The switch that runs the agent, in the plans of management and data plane. */
  function SwitchOf(role: Role): Node { if role.Master? then Ceos1 else Ceos3 }
  function RouterOf(role: Role): R.Node { if role.Master? then R.Ceos1 else R.Ceos3 }
  function Other(role: Role): Role { if role.Master? then Slave else Master }

  /** The `option cert` of the daemon snippets. */
  function BundleOf(role: Role): K.Leaf { if role.Master? then K.Sae else K.SaeB }
  function PeerSaeKey(role: Role): CtxKey { if role.Master? then BSaeId else SaeId }
  function KmeOf(role: Role): Node { if role.Master? then KmeA else KmeB }

  lemma SmallDecimals()
    ensures M.Decimal(0) == "0" && M.Decimal(1) == "1" && M.Decimal(2) == "2" && M.Decimal(5) == "5" && M.Decimal(6) == "6"
    ensures M.Decimal(10) == "10" && M.Decimal(255) == "255"
  {
    assert M.Decimal(25) == "25";
  }

  lemma JoinFour(a: string, b: string, c: string, d: string)
    ensures Join([a, b, c, d], '.') == a + "." + b + "." + c + "." + d
  {
    assert [a, b, c, d][1..] == [b, c, d] && [b, c, d][1..] == [c, d] && [c, d][1..] == [d];
    assert Join([c, d], '.') == c + ['.'] + d;
    assert Join([b, c, d], '.') == b + ['.'] + Join([c, d], '.');
    assert Join([a, b, c, d], '.') == a + ['.'] + Join([b, c, d], '.');
  }

  lemma PeerOctets(x: nat)
    requires x < 256
    ensures M.Octets(R.Dotted(10, 255, 0, x)) == [10, 255, 0, x]
  {
  }

  lemma PeerText(x: nat)
    requires x == 5 || x == 6
    ensures M.Dotted(R.Dotted(10, 255, 0, x)) == if x == 5 then "10.255.0.5" else "10.255.0.6"
  {
    hide M.Decimal, M.Octets, Join;
    SmallDecimals();
    PeerOctets(x);
    var parts := M.Decimals(M.Octets(R.Dotted(10, 255, 0, x)));
    assert parts == ["10", "255", "0", M.Decimal(x)];
    JoinFour("10", "255", "0", M.Decimal(x));
  }

  /** The peer of each agent is the address of the other one's switch, at the far
      end of the link on the port that the agent protects; the switch sends there
      over that very port. */
  lemma PeersAreNeighbours(role: Role, s: Subnets) returns (port: nat, peer: nat)
    ensures CtxValue(MacsecIntf, role, s) == "Ethernet" + M.Decimal(port)
    ensures CtxValue(PeerIp, role, s) == M.Dotted(peer)
    ensures R.Neighbour(R.V4, RouterOf(role), port, peer) == Some(RouterOf(Other(role)))
    ensures R.Forward(R.V4, RouterOf(role), peer) == R.OnLink(port)
  {
    hide M.Dotted, M.Decimal, R.Forward, R.ZoneOf, R.Dotted, R.Neighbour, R.Owns;
    port := if role.Master? then 2 else 1;
    peer := R.Dotted(10, 255, 0, if role.Master? then 6 else 5);
    SmallDecimals();
    PeerText(5);
    PeerText(6);
    PeerLink(role);
    PeerZone(role);
    R.Step(R.V4, RouterOf(role), peer);
  }

  lemma PeerLink(role: Role)
    ensures R.Neighbour(R.V4, RouterOf(role), if role.Master? then 2 else 1, R.Dotted(10, 255, 0, if role.Master? then 6 else 5))
            == Some(RouterOf(Other(role)))
  {
    hide R.Dotted;
    R.LinkEnds();
    var ifaces := R.Ifaces(R.V4, RouterOf(Other(role)));
    assert ifaces[if role.Master? then 0 else 1] in ifaces;
  }

  lemma PeerZone(role: Role)
    ensures var a := R.Dotted(10, 255, 0, if role.Master? then 6 else 5);
      R.ZoneOf(R.V4, a) == R.Link13 && !R.Owns(R.V4, RouterOf(role), a)
  {
    hide R.ZoneOf;
    R.Addresses(R.V4);
  }

  /** After any history of the KME certificates, each agent expects of its peer
      the name in the certificate that the peer's bundle holds. */
  lemma IdentitiesMatch(role: Role, s: Subnets, events: seq<K.Event>)
    requires K.After(events).out.Some?
    ensures var e := K.After(events).out.value; var l := BundleOf(Other(role));
      l in e.bundles && e.bundles[l].crt.cn == CtxValue(PeerSaeKey(role), role, s)
  {
    hide K.After;
    K.HistorySound(events);
    var e := K.After(events).out.value;
    assert K.SoundLeaf(e, BundleOf(Other(role)));
    SaeNames();
  }

  lemma SaeNames()
    ensures K.NameOf(K.Sae) == KME_SAE_ID && K.NameOf(K.SaeB) == KME_B_SAE_ID
  {
  }

  /** The KME that an agent is pointed at answers its switch: the configured port
      is the KME's, and the allowlist of the KME's first start lets the switch's
      management address through. */
  lemma AgentReachesKme(role: Role, s: Subnets, p: F.Packet, covers: F.Covers)
    requires s.Valid() && p.tcp && p.port == A.EnvOf(KmeOf(role), s).port && covers(Ip(SwitchOf(role), s), p.from)
    ensures V.PartDemand(V.KmeEndpoint, SwitchOf(role), s) == "option kme value " + (Ip(KmeOf(role), s) + ":" + M.Decimal(p.port))
    ensures F.Accepted(F.AfterRun([], p.port, F.InFamily(F.Sources(A.EnvOf(KmeOf(role), s)), F.V4), true), p, covers)
  {
    hide Ip, Ip6, F.Accepted, F.AfterRun, F.InFamily, F.Sources, M.Decimal;
    A.LabAllowlist(KmeOf(role), s, p, covers);
    var four := IpsOf(SAE_CLIENTS, s);
    var all := four + [Ip(A.T.Peer(KmeOf(role)).0, s)];
    var i := if role.Master? then 1 else 2;
    assert SAE_CLIENTS[i] == SwitchOf(role);
    assert all[i] == four[i] && all[i] in all;
  }
}
