/** The allowlist that the KME entrypoint builds (docker/kme/entrypoint.sh):
    a DROP rule appended to the INPUT chain of each address family, and ACCEPT
    rules inserted in front, evaluated first match first. */
module KmeFirewall {
  import opened Text

  // ---- The environment variables --------------------------------------------

  /** Unset variables are empty. */
  datatype Env = Env(port: nat, saeClientIps: string, saeClientIp: string, otherKmes: string)

  /** Commas become newlines, and the shell splits at white space. */
  predicate IsBreak(c: char) {
    c == ',' || c == ' ' || c == '\t' || c == '\n'
  }

  function WordEnd(s: string, i: nat): (j: nat)
    requires i <= |s|
    ensures i <= j <= |s|
    ensures forall k | i <= k < j :: !IsBreak(s[k])
    ensures j < |s| ==> IsBreak(s[j])
    decreases |s| - i
  {
    if i < |s| && !IsBreak(s[i]) then WordEnd(s, i + 1) else i
  }

  function Words(s: string): (ws: seq<string>)
    ensures forall i | 0 <= i < |ws| :: ws[i] != "" && forall k | 0 <= k < |ws[i]| :: !IsBreak(ws[i][k])
    decreases |s|
  {
    if s == "" then []
    else if IsBreak(s[0]) then Words(s[1..])
    else var j := WordEnd(s, 0); [s[..j]] + Words(s[j..])
  }

  predicate IsHostChar(c: char) { c != ':' && c != '/' }

  function HostEnd(s: string, i: nat): (j: nat)
    requires i <= |s|
    ensures i <= j <= |s|
    ensures forall k | i <= k < j :: IsHostChar(s[k])
    ensures j < |s| ==> !IsHostChar(s[j])
    decreases |s| - i
  {
    if i < |s| && IsHostChar(s[i]) then HostEnd(s, i + 1) else i
  }

  /** The length of `http://` or `https://` at `i` if a host follows, or 0. */
  function SchemeAt(s: string, i: nat): nat
    requires i <= |s|
  {
    if At(s, "https://", i) && HostEnd(s, i + 8) > i + 8 then 8
    else if At(s, "http://", i) && HostEnd(s, i + 7) > i + 7 then 7
    else 0
  }

  /** `sed -E 's|https?://([^:/]+).*|\1|'` from position `i` on. */
  function HostFrom(s: string, i: nat): string
    requires i <= |s|
    decreases |s| - i
  {
    var n := SchemeAt(s, i);
    if n > 0 then s[..i] + s[i + n..HostEnd(s, i + n)]
    else if i == |s| then s
    else HostFrom(s, i + 1)
  }

  function PeerHost(peer: string): string { HostFrom(peer, 0) }

  function PeerHosts(ws: seq<string>): (hosts: seq<string>)
    ensures |hosts| == |ws| && forall i | 0 <= i < |ws| :: hosts[i] == PeerHost(ws[i])
  {
    seq(|ws|, i requires 0 <= i < |ws| => PeerHost(ws[i]))
  }

  function Clients(env: Env): seq<string> {
    if env.saeClientIps != "" then Words(env.saeClientIps)
    else if env.saeClientIp != "" then [env.saeClientIp]
    else []
  }

  /** Every source the script notes, in the order of its loops. */
  function Sources(env: Env): seq<string> {
    Clients(env) + PeerHosts(Words(env.otherKmes))
  }

  /** The URL that the lab writes for a peer gives back its host. */
  lemma PeerHostOfUrl(host: string, port: string)
    requires host != "" && forall k | 0 <= k < |host| :: IsHostChar(host[k])
    ensures PeerHost("https://" + host + ":" + port) == host
  {
    var s := "https://" + host + ":" + port;
    assert forall k | 0 <= k < |host| :: s[8 + k] == host[k];
    assert s[8 + |host|] == ':';
    assert HostEnd(s, 8) == 8 + |host|;
    assert s[..8] == "https://";
    assert s[8..8 + |host|] == host;
  }

  /** A host is cut at its first `:` or `/`. */
  lemma PeerHostCut(head: string, c: char, tail: string)
    requires head != "" && !IsHostChar(c) && forall k | 0 <= k < |head| :: IsHostChar(head[k])
    ensures PeerHost("https://" + head + [c] + tail) == head
  {
    var s := "https://" + head + [c] + tail;
    assert forall k | 0 <= k < |head| :: s[8 + k] == head[k];
    assert s[8 + |head|] == c;
    assert HostEnd(s, 8) == 8 + |head|;
    assert s[..8] == "https://";
    assert s[8..8 + |head|] == head;
  }

  /** A match further on keeps the first character. */
  lemma {:induction false} HostFromKeeps(s: string, i: nat)
    requires 1 <= i <= |s|
    ensures HostFrom(s, i) != "" && HostFrom(s, i)[0] == s[0]
    decreases |s| - i
  {
    if SchemeAt(s, i) == 0 && i < |s| { HostFromKeeps(s, i + 1); }
  }

  /** Where a host starts with `:` or `/`, the scheme stays. */
  lemma PeerHostNone(host: string, port: string)
    requires host != "" && !IsHostChar(host[0])
    ensures PeerHost("https://" + host + ":" + port) != host
  {
    var s := "https://" + host + ":" + port;
    assert s[8] == host[0] && s[0] == 'h';
    assert HostEnd(s, 8) == 8;
    assert s[..7] != "http://" by { assert s[4] == 's'; }
    HostFromKeeps(s, 1);
  }

  /** Without any host behind it a scheme stays. */
  lemma PeerHostEmpty(rest: string)
    requires rest == "" || !IsHostChar(rest[0])
    requires forall k: nat | k > 0 :: !At("https://" + rest, "https://", k) && !At("https://" + rest, "http://", k)
    ensures PeerHost("https://" + rest) == "https://" + rest
  {
    var s := "https://" + rest;
    assert HostEnd(s, 8) == 8 by { if rest != "" { assert s[8] == rest[0]; } }
    assert s[..7] != "http://" by { assert s[4] == 's'; }
    HostFromOn(s, 1);
  }

  lemma {:induction false} HostFromOn(s: string, i: nat)
    requires i <= |s| && forall k: nat | k >= i :: !At(s, "https://", k) && !At(s, "http://", k)
    ensures HostFrom(s, i) == s
    decreases |s| - i
  {
    hide At;
    if i < |s| { HostFromOn(s, i + 1); }
  }

  function FirstBreak(host: string, i: nat): (j: nat)
    requires i <= |host|
    ensures i <= j <= |host| && (j < |host| ==> !IsHostChar(host[j]))
    ensures forall k | i <= k < j :: IsHostChar(host[k])
    decreases |host| - i
  {
    if i < |host| && IsHostChar(host[i]) then FirstBreak(host, i + 1) else i
  }

  /** A peer's URL gives back its host exactly when the host has no `:` and no `/`. */
  lemma PeerHostExactly(host: string, port: string)
    requires host != ""
    ensures PeerHost("https://" + host + ":" + port) == host <==> forall k | 0 <= k < |host| :: IsHostChar(host[k])
  {
    hide PeerHost;
    var j := FirstBreak(host, 0);
    if j == |host| {
      PeerHostOfUrl(host, port);
    } else if j == 0 {
      PeerHostNone(host, port);
    } else {
      PeerHostCut(host[..j], host[j], host[j + 1..] + ":" + port);
      SplitHost(host, j, port);
    }
  }

  lemma SplitHost(host: string, j: nat, port: string)
    requires j < |host|
    ensures "https://" + host[..j] + [host[j]] + (host[j + 1..] + ":" + port) == "https://" + host + ":" + port
  {
    assert host == host[..j] + ([host[j]] + host[j + 1..]);
  }

  /** So does a plain one of an `http` URL. */
  lemma PeerHostOfHttp(host: string, port: string)
    requires host != "" && forall k | 0 <= k < |host| :: IsHostChar(host[k])
    ensures PeerHost("http://" + host + ":" + port) == host
  {
    var s := "http://" + host + ":" + port;
    assert forall k | 0 <= k < |host| :: s[7 + k] == host[k];
    assert s[7 + |host|] == ':';
    assert HostEnd(s, 7) == 7 + |host|;
    assert s[..7] == "http://" && s[4] == ':';
    assert s[..8] != "https://" by { assert s[..8][4] == ':'; }
    assert s[7..7 + |host|] == host;
  }

  /** And a text without a scheme is taken as it is. */
  lemma PeerHostBare(s: string)
    requires forall k: nat :: !At(s, "https://", k) && !At(s, "http://", k)
    ensures PeerHost(s) == s
  {
    hide At;
    HostFromOn(s, 0);
  }

  /** Which sources there are: the words of SAE_CLIENT_IPS, or without any
      SAE_CLIENT_IP as a whole, and the hosts of the words of OTHER_KMES. */
  lemma SourcesExactly(env: Env, src: string)
    ensures src in Sources(env) <==>
      || (env.saeClientIps != "" && src in Words(env.saeClientIps))
      || (env.saeClientIps == "" && env.saeClientIp != "" && src == env.saeClientIp)
      || exists w | w in Words(env.otherKmes) :: src == PeerHost(w)
  {
    hide Words, PeerHost;
    var ws := Words(env.otherKmes);
    assert src in Sources(env) <==> src in Clients(env) || src in PeerHosts(ws);
    if w :| w in ws && src == PeerHost(w) {
      var i :| 0 <= i < |ws| && ws[i] == w;
      assert PeerHosts(ws)[i] == src;
    }
    if src in PeerHosts(ws) {
      var i :| 0 <= i < |ws| && PeerHosts(ws)[i] == src;
      assert ws[i] in ws;
    }
  }

  // ---- Chains ---------------------------------------------------------------

  datatype Family = V4 | V6

  /** `_is_ipv6`: a colon makes a source IPv6. */
  function FamilyOf(source: string): Family {
    if ':' in source then V6 else V4
  }

  datatype Decision = Accept | Drop | NoMatch

  /** A rule for TCP to `port`, from one source or from anywhere. */
  datatype Rule = Rule(port: nat, source: Option<string>, accept: bool)

  datatype Packet = Packet(tcp: bool, port: nat, from: nat)

  /** Which addresses a source (a host, an address or a prefix) covers. */
  type Covers = (string, nat) -> bool

  predicate Matches(r: Rule, p: Packet, covers: Covers) {
    p.tcp && p.port == r.port && (r.source.Some? ==> covers(r.source.value, p.from))
  }

  /** The target of the first matching rule, if any. */
  function Verdict(chain: seq<Rule>, p: Packet, covers: Covers): Decision {
    if chain == [] then NoMatch
    else if Matches(chain[0], p, covers) then (if chain[0].accept then Accept else Drop)
    else Verdict(chain[1..], p, covers)
  }

  /** The policy of an INPUT chain is ACCEPT. */
  predicate Accepted(chain: seq<Rule>, p: Packet, covers: Covers) {
    Verdict(chain, p, covers) != Drop
  }

  function DropRule(port: nat): Rule { Rule(port, None, false) }
  function AllowRule(port: nat, source: string): Rule { Rule(port, Some(source), true) }

  // ---- What the script leaves behind ----------------------------------------

  function InFamily(sources: seq<string>, f: Family): seq<string> {
    if sources == [] then []
    else
      var last := |sources| - 1;
      InFamily(sources[..last], f) + (if FamilyOf(sources[last]) == f then [sources[last]] else [])
  }

  /** ACCEPT rules for `sources`, the last one in front. */
  function Allowed(port: nat, sources: seq<string>): seq<Rule> {
    if sources == [] then []
    else [AllowRule(port, sources[|sources| - 1])] + Allowed(port, sources[..|sources| - 1])
  }

  /** The chain after the DROP rule and the inserts for `sources`. */
  function Stage(chain: seq<Rule>, port: nat, sources: seq<string>): seq<Rule> {
    Allowed(port, sources) + (chain + [DropRule(port)])
  }

  /** The chain of one family after a complete run. */
  function AfterRun(chain: seq<Rule>, port: nat, sources: seq<string>, canDrop: bool): seq<Rule> {
    if sources == [] || !canDrop then chain else Stage(chain, port, sources)
  }

  /** The tools take every source that the script hands them. */
  predicate AllTaken(env: Env, drop4: bool, drop6: bool, valid: set<string>) {
    forall k | 0 <= k < |Sources(env)| ::
      (if FamilyOf(Sources(env)[k]) == V4 then drop4 else drop6) ==> Sources(env)[k] in valid
  }

  class Firewall {
    var v4: seq<Rule>
    var v6: seq<Rule>

    constructor ()
      ensures v4 == [] && v6 == []
    {
      v4 := [];
      v6 := [];
    }

    /** `_allow_source` for a source whose family is restricted; `valid` tells
        which sources the tool takes.  A refused one ends the script (set -e). */
    method Allow(port: nat, source: string, valid: set<string>, wants4: bool, wants6: bool) returns (ok: bool)
      modifies this
      ensures ok == ((if FamilyOf(source) == V4 then wants4 else wants6) ==> source in valid)
      ensures ok ==> v4 == Front(port, source, V4, wants4) + old(v4) && v6 == Front(port, source, V6, wants6) + old(v6)
      ensures !ok ==> v4 == old(v4) && v6 == old(v6)
    {
      if FamilyOf(source) == V6 {
        if wants6 {
          if source !in valid { return false; }
          v6 := [AllowRule(port, source)] + v6;
        }
      } else {
        if wants4 {
          if source !in valid { return false; }
          v4 := [AllowRule(port, source)] + v4;
        }
      }
      return true;
    }

    /** The loops that call `_note_source`. */
    method Note(sources: seq<string>) returns (wants4: bool, wants6: bool)
      ensures wants4 <==> InFamily(sources, V4) != []
      ensures wants6 <==> InFamily(sources, V6) != []
    {
      wants4, wants6 := false, false;
      var i := 0;
      while i < |sources|
        invariant 0 <= i <= |sources|
        invariant wants4 <==> InFamily(sources[..i], V4) != []
        invariant wants6 <==> InFamily(sources[..i], V6) != []
      {
        assert sources[..i + 1][..i] == sources[..i];
        if FamilyOf(sources[i]) == V6 { wants6 := true; } else { wants4 := true; }
        i := i + 1;
      }
      assert sources[..i] == sources;
    }

    /** The loops that call `_allow_source`; `handled` sources were worked off. */
    method AllowAll(port: nat, sources: seq<string>, valid: set<string>, wants4: bool, wants6: bool)
      returns (ok: bool, handled: nat)
      modifies this
      ensures handled <= |sources|
      ensures v4 == Inserted(port, sources[..handled], V4, wants4) + old(v4)
      ensures v6 == Inserted(port, sources[..handled], V6, wants6) + old(v6)
      ensures ok ==> handled == |sources|
      ensures ok <==> forall k | 0 <= k < |sources| :: (if FamilyOf(sources[k]) == V4 then wants4 else wants6) ==> sources[k] in valid
    {
      hide Inserted, Front, FamilyOf;
      handled := 0;
      InsertedNone(port, V4, wants4);
      InsertedNone(port, V6, wants6);
      while handled < |sources|
        invariant handled <= |sources|
        invariant v4 == Inserted(port, sources[..handled], V4, wants4) + old(v4)
        invariant v6 == Inserted(port, sources[..handled], V6, wants6) + old(v6)
        invariant forall k | 0 <= k < handled :: (if FamilyOf(sources[k]) == V4 then wants4 else wants6) ==> sources[k] in valid
      {
        InsertedStep(port, sources, handled, V4, wants4, old(v4));
        InsertedStep(port, sources, handled, V6, wants6, old(v6));
        ok := Allow(port, sources[handled], valid, wants4, wants6);
        if !ok { return; }
        handled := handled + 1;
      }
      ok := true;
    }

    /** The whole script.  `drop4`, `drop6`: whether appending DROP works.  A
        script that stops half-way leaves the stage of the sources it handled. */
    method Configure(env: Env, drop4: bool, drop6: bool, valid: set<string>) returns (started: bool, handled: nat)
      modifies this
      ensures handled <= |Sources(env)| && (started ==> handled == |Sources(env)|)
      ensures v4 == if InFamily(Sources(env), V4) == [] || !drop4 then old(v4)
                    else Stage(old(v4), env.port, InFamily(Sources(env)[..handled], V4))
      ensures v6 == if InFamily(Sources(env), V6) == [] || !drop6 then old(v6)
                    else Stage(old(v6), env.port, InFamily(Sources(env)[..handled], V6))
      ensures started ==> v4 == AfterRun(old(v4), env.port, InFamily(Sources(env), V4), drop4)
      ensures started ==> v6 == AfterRun(old(v6), env.port, InFamily(Sources(env), V6), drop6)
      ensures started <==> AllTaken(env, drop4, drop6, valid)
    {
      var sources := Sources(env);
      var wants4, wants6 := Note(sources);
      wants4 := wants4 && drop4;
      wants6 := wants6 && drop6;
      if wants4 { v4 := v4 + [DropRule(env.port)]; }
      if wants6 { v6 := v6 + [DropRule(env.port)]; }
      started, handled := AllowAll(env.port, sources, valid, wants4, wants6);
      assert started ==> sources[..handled] == sources;
      forall k | 0 <= k < |sources| ensures InFamily(sources, FamilyOf(sources[k])) != [] {
        MemberInFamily(sources, k);
      }
    }
  }

  /** A word is one source. */
  lemma OneWord(s: string)
    requires s != "" && forall k | 0 <= k < |s| :: !IsBreak(s[k])
    ensures Words(s) == [s]
  {
    assert WordEnd(s, 0) == |s|;
    assert s[|s|..] == "" && s[..|s|] == s;
  }

  /** The characters between words. */
  const BREAKS := {',', ' ', '\t', '\n'}

  lemma {:induction false} WordsBroken(a: string, c: char, b: string)
    requires IsBreak(c)
    ensures Words(a + [c] + b) == Words(a) + Words(b)
    decreases |a|
  {
    var s := a + [c] + b;
    if a == "" {
      assert s == [c] + b && s[1..] == b;
    } else if IsBreak(a[0]) {
      assert s[1..] == a[1..] + [c] + b;
      WordsBroken(a[1..], c, b);
    } else {
      var j := WordEnd(a, 0);
      WordEndKeeps(a, c, b, 0);
      assert s[..j] == a[..j] && s[j..] == a[j..] + [c] + b;
      WordsBroken(a[j..], c, b);
    }
  }

  lemma {:induction false} WordEndKeeps(a: string, c: char, b: string, i: nat)
    requires IsBreak(c) && i <= |a|
    ensures WordEnd(a + [c] + b, i) == WordEnd(a, i)
    decreases |a| - i
  {
    var s := a + [c] + b;
    if i < |a| {
      assert s[i] == a[i];
      if !IsBreak(a[i]) { WordEndKeeps(a, c, b, i + 1); }
    } else {
      assert s[i] == c;
    }
  }

  /** Commas and white space separate words, and nothing else does. */
  lemma WordsExactly(a: string, c: char, b: string)
    ensures c in BREAKS ==> Words(a + [c] + b) == Words(a) + Words(b)
    ensures a != "" && (forall k | 0 <= k < |a| :: a[k] !in BREAKS) ==> Words(a) == [a]
    ensures Words("") == []
  {
    hide Words, WordEnd;
    if c in BREAKS { WordsBroken(a, c, b); }
    if a != "" && forall k | 0 <= k < |a| :: a[k] !in BREAKS {
      assert forall k | 0 <= k < |a| :: !IsBreak(a[k]);
      OneWord(a);
    }
    NoWords();
  }

  lemma NoWords()
    ensures Words("") == []
  {
  }

  /** A peer that is given as a bracketed IPv6 address is noted as the IPv4
      source `[` and the text up to its first colon.  No tool takes that, so if
      IPv4 can be restricted the simulator is not started. */
  lemma BracketedPeer(env: Env, head: string, tail: string, drop4: bool, drop6: bool, valid: set<string>)
    requires env.otherKmes == "https://[" + head + ":" + tail && (forall k | 0 <= k < |env.otherKmes| :: !IsBreak(env.otherKmes[k]))
    requires forall k | 0 <= k < |head| :: IsHostChar(head[k])
    ensures Sources(env) == Clients(env) + ["[" + head] && FamilyOf("[" + head) == V4
    ensures drop4 && "[" + head !in valid ==> !AllTaken(env, drop4, drop6, valid)
  {
    PeerHostCut("[" + head, ':', tail);
    assert "https://[" + head + ":" + tail == "https://" + ("[" + head) + [':'] + tail;
    OneWord(env.otherKmes);
    assert Sources(env)[|Clients(env)|] == "[" + head;
    assert forall k | 0 <= k < |"[" + head| :: ("[" + head)[k] != ':';
  }

  lemma {:induction false} MemberInFamily(sources: seq<string>, k: nat)
    requires k < |sources|
    ensures InFamily(sources, FamilyOf(sources[k])) != []
  {
    if k < |sources| - 1 { MemberInFamily(sources[..|sources| - 1], k); }
  }

  /** The rules inserted for the sources of one family. */
  function Inserted(port: nat, sources: seq<string>, f: Family, wants: bool): seq<Rule> {
    if wants then Allowed(port, InFamily(sources, f)) else []
  }

  /** The rule that one source adds. */
  function Front(port: nat, source: string, f: Family, wants: bool): seq<Rule> {
    if wants && FamilyOf(source) == f then [AllowRule(port, source)] else []
  }

  lemma InsertedNone(port: nat, f: Family, wants: bool)
    ensures Inserted(port, [], f, wants) == []
  {
  }

  lemma InsertedStep(port: nat, sources: seq<string>, i: nat, f: Family, wants: bool, chain: seq<Rule>)
    requires i < |sources|
    ensures Inserted(port, sources[..i + 1], f, wants) + chain ==
            Front(port, sources[i], f, wants) + (Inserted(port, sources[..i], f, wants) + chain)
  {
    assert sources[..i + 1][..i] == sources[..i];
    var before := InFamily(sources[..i], f);
    if FamilyOf(sources[i]) == f { AllowedSnoc(port, before, sources[i]); } else { assert before + [] == before; }
    assert Inserted(port, sources[..i + 1], f, wants) ==
           Front(port, sources[i], f, wants) + Inserted(port, sources[..i], f, wants);
  }

  lemma AllowedSnoc(port: nat, sources: seq<string>, source: string)
    ensures Allowed(port, sources + [source]) == [AllowRule(port, source)] + Allowed(port, sources)
  {
    assert (sources + [source])[..|sources|] == sources;
  }

  // ---- The allowlist --------------------------------------------------------

  predicate CoveredBy(sources: seq<string>, from: nat, covers: Covers) {
    exists k | 0 <= k < |sources| :: covers(sources[k], from)
  }

  lemma {:induction false} VerdictConcat(a: seq<Rule>, b: seq<Rule>, p: Packet, covers: Covers)
    ensures Verdict(a + b, p, covers) ==
            if Verdict(a, p, covers) != NoMatch then Verdict(a, p, covers) else Verdict(b, p, covers)
  {
    if a == [] {
      assert a + b == b;
    } else {
      VerdictConcat(a[1..], b, p, covers);
      assert (a + b)[1..] == a[1..] + b;
    }
  }

  lemma {:induction false} AllowedVerdict(port: nat, sources: seq<string>, p: Packet, covers: Covers)
    ensures Verdict(Allowed(port, sources), p, covers) ==
            if p.tcp && p.port == port && CoveredBy(sources, p.from, covers) then Accept else NoMatch
  {
    if sources != [] {
      var init, last := sources[..|sources| - 1], sources[|sources| - 1];
      AllowedVerdict(port, init, p, covers);
    }
  }

  /** On any chain: the port answers the sources and whoever the old rules
      accept explicitly; packets to other ports fare as before. */
  lemma StageExactly(chain: seq<Rule>, port: nat, sources: seq<string>, p: Packet, covers: Covers)
    ensures Accepted(Stage(chain, port, sources), p, covers) ==
            if p.tcp && p.port == port
            then CoveredBy(sources, p.from, covers) || Verdict(chain, p, covers) == Accept
            else Accepted(chain, p, covers)
  {
    AllowedVerdict(port, sources, p, covers);
    VerdictConcat(Allowed(port, sources), chain + [DropRule(port)], p, covers);
    VerdictConcat(chain, [DropRule(port)], p, covers);
  }

  /** A fresh chain is exactly the allowlist, at every moment after the DROP:
      after `k` inserts, it is the allowlist of the first `k` sources. */
  lemma FreshStageExactly(port: nat, sources: seq<string>, k: nat, p: Packet, covers: Covers)
    requires k <= |sources| && p.tcp && p.port == port
    ensures Accepted(Stage([], port, sources[..k]), p, covers) <==> CoveredBy(sources[..k], p.from, covers)
    ensures Accepted(Stage([], port, sources[..k]), p, covers) ==> Accepted(Stage([], port, sources), p, covers)
  {
    StageExactly([], port, sources[..k], p, covers);
    StageExactly([], port, sources, p, covers);
    if x :| 0 <= x < k && covers(sources[..k][x], p.from) { assert covers(sources[x], p.from); }
  }

  // ---- Restarts on a retained chain -----------------------------------------

  /** One start of the container, as one family sees it. */
  datatype Start = Start(sources: seq<string>, canDrop: bool)

  function Restricts(s: Start): bool { s.sources != [] && s.canDrop }

  function AfterStarts(port: nat, starts: seq<Start>): seq<Rule> {
    if starts == [] then []
    else
      var last := |starts| - 1;
      AfterRun(AfterStarts(port, starts[..last]), port, starts[last].sources, starts[last].canDrop)
  }

  /** The sources of all starts whose DROP was installed. */
  predicate EverAllowed(starts: seq<Start>, from: nat, covers: Covers) {
    exists i | 0 <= i < |starts| :: Restricts(starts[i]) && CoveredBy(starts[i].sources, from, covers)
  }

  predicate EverRestricted(starts: seq<Start>) {
    exists i | 0 <= i < |starts| :: Restricts(starts[i])
  }

  lemma EverSplit(starts: seq<Start>, from: nat, covers: Covers)
    requires starts != []
    ensures var init, last := starts[..|starts| - 1], starts[|starts| - 1];
            (EverAllowed(starts, from, covers) <==>
             EverAllowed(init, from, covers) || (Restricts(last) && CoveredBy(last.sources, from, covers))) &&
            (EverRestricted(starts) <==> EverRestricted(init) || Restricts(last))
  {
    var init := starts[..|starts| - 1];
    assert forall i | 0 <= i < |init| :: init[i] == starts[i];
    assert starts[|starts| - 1] == starts[|starts| - 1];
  }

  /** However often the container starts on the same chain, the port answers
      exactly the union of the lists of the starts that restricted it. */
  lemma {:induction false} StartsExactly(port: nat, starts: seq<Start>, p: Packet, covers: Covers)
    requires p.tcp && p.port == port
    ensures Verdict(AfterStarts(port, starts), p, covers) ==
            if EverAllowed(starts, p.from, covers) then Accept
            else if EverRestricted(starts) then Drop
            else NoMatch
  {
    if starts != [] {
      var init, last := starts[..|starts| - 1], starts[|starts| - 1];
      StartsExactly(port, init, p, covers);
      EverSplit(starts, p.from, covers);
      if Restricts(last) {
        var chain := AfterStarts(port, init);
        AllowedVerdict(port, last.sources, p, covers);
        VerdictConcat(Allowed(port, last.sources), chain + [DropRule(port)], p, covers);
        VerdictConcat(chain, [DropRule(port)], p, covers);
      }
    }
  }

  lemma {:induction false} OtherPortsOpen(port: nat, starts: seq<Start>, p: Packet, covers: Covers)
    requires !p.tcp || p.port != port
    ensures Accepted(AfterStarts(port, starts), p, covers)
  {
    if starts != [] {
      var init, last := starts[..|starts| - 1], starts[|starts| - 1];
      OtherPortsOpen(port, init, p, covers);
      StageExactly(AfterStarts(port, init), port, last.sources, p, covers);
    }
  }
}
