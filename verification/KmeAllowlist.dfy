/** From the rendered topology to the allowlist of the KME container: what
    docker/kme/entrypoint.sh makes of the environment that the lab gives it. */
module KmeAllowlist {
  import opened Text
  import opened LabDict
  import F = KmeFirewall
  import T = Topology
  import M = MgmtAddresses

  /** The environment of a KME container, as `kme_env_for_node` has it and as
      `T.TopologyPasses` says that the rendered topology has it. */
  function EnvOf(n: Node, s: Subnets): F.Env
    requires s.Valid()
  {
    F.Env(if n.KmeA? then KME_A_PORT else KME_B_PORT, T.Expected(T.ClientIps(n), s), "", T.Expected(T.OtherKmes(n), s))
  }

  predicate OneWordEach(parts: seq<string>) {
    forall i | 0 <= i < |parts| :: parts[i] != "" && forall k | 0 <= k < |parts[i]| :: !F.IsBreak(parts[i][k])
  }

  lemma {:induction false} WordEndsAt(p: string, rest: string, i: nat)
    requires i <= |p| && (forall k | 0 <= k < |p| :: !F.IsBreak(p[k])) && (rest == "" || F.IsBreak(rest[0]))
    ensures F.WordEnd(p + rest, i) == |p|
    decreases |p| - i
  {
    hide F.IsBreak;
    if i < |p| {
      assert (p + rest)[i] == p[i];
      WordEndsAt(p, rest, i + 1);
    } else if rest != "" {
      assert (p + rest)[i] == rest[0];
    }
  }

  lemma WordThen(p: string, rest: string)
    requires p != "" && (forall k | 0 <= k < |p| :: !F.IsBreak(p[k])) && (rest == "" || F.IsBreak(rest[0]))
    ensures F.Words(p + rest) == [p] + F.Words(rest)
  {
    hide F.IsBreak, F.WordEnd;
    WordEndsAt(p, rest, 0);
    var s := p + rest;
    assert s[0] == p[0] && s[..|p|] == p && s[|p|..] == rest;
  }

  /** Splitting at commas gives a comma-joined list back. */
  lemma {:induction false} WordsOfJoin(parts: seq<string>)
    requires parts != [] && OneWordEach(parts)
    ensures F.Words(Join(parts, ',')) == parts
  {
    hide F.WordEnd, F.IsBreak;
    if |parts| == 1 {
      F.OneWord(parts[0]);
    } else {
      WordsOfJoin(parts[1..]);
      var rest := Join(parts[1..], ',');
      CommaBreaks(rest);
      WordThen(parts[0], "," + rest);
      assert parts[0] + [','] + rest == parts[0] + ("," + rest);
      assert parts == [parts[0]] + parts[1..];
    }
  }

  lemma CommaBreaks(rest: string)
    ensures F.IsBreak(("," + rest)[0]) && F.Words("," + rest) == F.Words(rest)
  {
    assert ("," + rest)[1..] == rest;
  }

  lemma AddressWords(n: Node, s: Subnets)
    requires s.Valid()
    ensures OneWordEach([Ip(n, s)]) && OneWordEach([Ip6(n, s)])
    ensures F.FamilyOf(Ip(n, s)) == F.V4 && (forall k | 0 <= k < |Ip(n, s)| :: F.IsHostChar(Ip(n, s)[k]))
  {
    hide Ip, Ip6;
    NodeAddress(n, s);
    NodeAddress6(n, s);
    Ip6Shape(n, s);
  }

  lemma Ip6Shape(n: Node, s: Subnets)
    requires s.Valid()
    ensures Ip6(n, s) != "" && F.FamilyOf(Ip6(n, s)) == F.V6
  {
    M.FormatColon(s.net6);
    var suffix := M.Decimal(M.NodeSuffix(Rank(n)));
    assert ':' in M.Format(s.net6) + suffix by {
      var i :| 0 <= i < |M.Format(s.net6)| && M.Format(s.net6)[i] == ':';
      assert (M.Format(s.net6) + suffix)[i] == ':';
    }
  }

  lemma ClientWords(nodes: seq<Node>, s: Subnets)
    requires s.Valid()
    ensures OneWordEach(IpsOf(nodes, s) + Ips6Of(nodes, s))
  {
    hide Ip, Ip6, F.IsBreak;
    var parts := IpsOf(nodes, s) + Ips6Of(nodes, s);
    forall i | 0 <= i < |parts| ensures OneWordEach([parts[i]]) {
      AddressWords(nodes[if i < |nodes| then i else i - |nodes|], s);
    }
    forall i | 0 <= i < |parts| ensures parts[i] != "" && forall k | 0 <= k < |parts[i]| :: !F.IsBreak(parts[i][k]) {
      assert OneWordEach([parts[i]]);
      assert [parts[i]][0] == parts[i];
    }
  }

  lemma WordNotEmpty(w: string)
    requires OneWordEach([w])
    ensures w != ""
  {
    assert [w][0] == w;
  }

  /** A URL with a plain host gives that host. */
  lemma UrlHost(ip: string, port: nat)
    requires OneWordEach([ip]) && forall k | 0 <= k < |ip| :: F.IsHostChar(ip[k])
    ensures F.PeerHosts([T.OtherKmesUrl(ip, port)]) == [ip]
  {
    hide F.PeerHost, M.Decimal, F.IsHostChar, OneWordEach;
    WordNotEmpty(ip);
    F.PeerHostOfUrl(ip, M.Decimal(port));
  }

  lemma ExpectedUrl(n: Node, s: Subnets)
    requires s.Valid()
    ensures T.Expected(T.OtherKmes(n), s) == T.OtherKmesUrl(Ip(T.Peer(n).0, s), T.Peer(n).1)
  {
  }

  /** The peer's URL gives its IPv4 address. */
  lemma PeerSource(n: Node, s: Subnets)
    requires s.Valid() && T.IsKme(n)
    ensures F.PeerHosts(F.Words(T.Expected(T.OtherKmes(n), s))) == [Ip(T.Peer(n).0, s)]
  {
    hide *;
    ExpectedUrl(n, s);
    var ip, port := Ip(T.Peer(n).0, s), T.Peer(n).1;
    AddressWords(T.Peer(n).0, s);
    UrlWord(ip, port);
    UrlHost(ip, port);
  }

  lemma UrlWord(ip: string, port: nat)
    requires OneWordEach([ip])
    ensures F.Words(T.OtherKmesUrl(ip, port)) == [T.OtherKmesUrl(ip, port)]
  {
    var url, p := T.OtherKmesUrl(ip, port), M.Decimal(port);
    M.DecimalDigits(port);
    assert [ip][0] == ip;
    SchemeWord();
    forall k | 0 <= k < |url| ensures !F.IsBreak(url[k]) {
      if k < 8 { assert url[k] == "https://"[k]; }
      else if k < 8 + |ip| { assert url[k] == ip[k - 8]; }
      else if k > 8 + |ip| { assert url[k] == p[k - 9 - |ip|]; }
    }
    F.OneWord(url);
  }

  lemma SchemeWord()
    ensures forall k | 0 <= k < |"https://"| :: !F.IsBreak("https://"[k])
  {
  }

  /** Whatever the subnets: the sources that the entrypoint notes are the SAE
      clients, in both families, and the peer over IPv4. */
  lemma LabSources(n: Node, s: Subnets)
    requires s.Valid() && T.IsKme(n)
    ensures F.Sources(EnvOf(n, s)) == IpsOf(SAE_CLIENTS, s) + Ips6Of(SAE_CLIENTS, s) + [Ip(T.Peer(n).0, s)]
  {
    hide Ip, Ip6, F.Words, F.PeerHosts;
    ClientWords(SAE_CLIENTS, s);
    WordsOfJoin(IpsOf(SAE_CLIENTS, s) + Ips6Of(SAE_CLIENTS, s));
    PeerSource(n, s);
    ClientsListed(s);
  }

  lemma ClientsListed(s: Subnets)
    requires s.Valid()
    ensures Join(IpsOf(SAE_CLIENTS, s) + Ips6Of(SAE_CLIENTS, s), ',') != ""
  {
    hide Ip, Ip6;
    var parts := IpsOf(SAE_CLIENTS, s) + Ips6Of(SAE_CLIENTS, s);
    NodeAddress(KmeA, s);
    assert Join(parts, ',') == parts[0] + [','] + Join(parts[1..], ',');
  }

  lemma {:induction false} FamilyConcat(a: seq<string>, b: seq<string>, f: F.Family)
    ensures F.InFamily(a + b, f) == F.InFamily(a, f) + F.InFamily(b, f)
  {
    hide F.FamilyOf;
    if b == [] {
      assert a + b == a;
    } else {
      FamilyConcat(a, b[..|b| - 1], f);
      assert (a + b)[..|a + b| - 1] == a + b[..|b| - 1];
    }
  }

  lemma {:induction false} AllOfFamily(a: seq<string>, f: F.Family)
    requires forall i | 0 <= i < |a| :: F.FamilyOf(a[i]) == f
    ensures F.InFamily(a, f) == a
    ensures F.InFamily(a, if f == F.V4 then F.V6 else F.V4) == []
  {
    hide F.FamilyOf;
    if a != [] {
      AllOfFamily(a[..|a| - 1], f);
      assert a == a[..|a| - 1] + [a[|a| - 1]];
    }
  }

  /** By family. */
  lemma LabFamilies(n: Node, s: Subnets)
    requires s.Valid() && T.IsKme(n)
    ensures F.InFamily(F.Sources(EnvOf(n, s)), F.V4) == IpsOf(SAE_CLIENTS, s) + [Ip(T.Peer(n).0, s)]
    ensures F.InFamily(F.Sources(EnvOf(n, s)), F.V6) == Ips6Of(SAE_CLIENTS, s)
  {
    hide Ip, Ip6, F.InFamily, F.FamilyOf, F.Sources, EnvOf;
    LabSources(n, s);
    var four, six, peer := IpsOf(SAE_CLIENTS, s), Ips6Of(SAE_CLIENTS, s), Ip(T.Peer(n).0, s);
    forall i | 0 <= i < |SAE_CLIENTS| ensures F.FamilyOf(four[i]) == F.V4 && F.FamilyOf(six[i]) == F.V6 {
      AddressWords(SAE_CLIENTS[i], s);
      Ip6Shape(SAE_CLIENTS[i], s);
    }
    AddressWords(T.Peer(n).0, s);
    AllOfFamily(four, F.V4);
    AllOfFamily(six, F.V6);
    AllOfFamily([peer], F.V4);
    FamilyConcat(four, six, F.V4);
    FamilyConcat(four + six, [peer], F.V4);
    FamilyConcat(four, six, F.V6);
    FamilyConcat(four + six, [peer], F.V6);
    assert four + [] == four && [] + six == six && six + [] == six;
  }

  /** After the first start in the lab the KME's port answers, over IPv4, the SAE
      clients and the peer, over IPv6 the SAE clients, and nobody else. */
  lemma LabAllowlist(n: Node, s: Subnets, p: F.Packet, covers: F.Covers)
    requires s.Valid() && T.IsKme(n) && p.tcp && p.port == EnvOf(n, s).port
    ensures var src := F.Sources(EnvOf(n, s));
            && (F.Accepted(F.AfterRun([], p.port, F.InFamily(src, F.V4), true), p, covers) <==>
                F.CoveredBy(IpsOf(SAE_CLIENTS, s) + [Ip(T.Peer(n).0, s)], p.from, covers))
            && (F.Accepted(F.AfterRun([], p.port, F.InFamily(src, F.V6), true), p, covers) <==>
                F.CoveredBy(Ips6Of(SAE_CLIENTS, s), p.from, covers))
  {
    hide Ip, Ip6, F.InFamily, F.Sources, EnvOf, F.Accepted, F.CoveredBy, F.Stage;
    LabFamilies(n, s);
    var four, six := IpsOf(SAE_CLIENTS, s) + [Ip(T.Peer(n).0, s)], Ips6Of(SAE_CLIENTS, s);
    F.FreshStageExactly(p.port, four, |four|, p, covers);
    F.FreshStageExactly(p.port, six, |six|, p, covers);
    assert four[..|four|] == four && six[..|six|] == six;
  }
}
