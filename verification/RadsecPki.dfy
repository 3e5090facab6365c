/** The RadSec certificate store and its caches (lab/gen_pki.py).  Keys are
    numbers handed out by openssl; a certificate records what it was issued for.
    A run may leave a cached certificate in place, so what a run exports is a
    question about all earlier runs. */
module RadsecPki {
  import opened Text

  type Key = nat

  datatype Usage = Authority | ServerAuth | ClientAuth

  /** The key certified, the key that signed, the common name, the IP SANs. */
  datatype Cert = Cert(key: Key, issuer: Key, cn: string, ips: seq<string>, usage: Usage)

  datatype Role = Eapi | Gnmi

  /** The leaf certificates the script keeps. */
  datatype Slot = Radius | Syslog | Switch(name: string, role: Role) | Client(name: string)

  /** One leaf's files in the work directory; key and certificate are made
      together, and a server's marker after them. */
  datatype Leaf = Leaf(key: Key, crt: Cert, marker: Option<string>)

  /** The work directory (`ca` is ca.crt with ca.key, made together), the
      exported files, and how many keys were generated so far. */
  datatype Store = Store(
    ca: Option<Cert>, work: map<Slot, Leaf>, outCa: Option<Cert>, out: map<Slot, (Key, Cert)>, issued: nat)

  const EMPTY := Store(None, map[], None, map[], 0)

  const CA_NAME := "quantum-safe-radsec-ca"

  /** The arguments of `generate_radsec_pki`; a dict is its list of items. */
  datatype Args = Args(
    radiusIps: seq<string>, syslogIps: Option<seq<string>>, hosts: seq<(string, string)>,
    ips: seq<(string, string)>, ips6: seq<(string, string)>)

  // ---- The arguments --------------------------------------------------------

  /** `dict.get`, with a missing entry and an empty one alike. */
  function Get(dict: seq<(string, string)>, k: string): string {
    if dict == [] then "" else if dict[0].0 == k then dict[0].1 else Get(dict[1..], k)
  }

  function Sans(args: Args, name: string): seq<string> {
    var a, b := Get(args.ips, name), Get(args.ips6, name);
    (if a == "" then [] else [a]) + if b == "" then [] else [b]
  }

  function SelfNamed(dict: seq<(string, string)>): (r: seq<(string, string)>)
    ensures |r| == |dict| && forall i | 0 <= i < |r| :: r[i] == (dict[i].0, dict[i].0)
  {
    if dict == [] then [] else [(dict[0].0, dict[0].0)] + SelfNamed(dict[1..])
  }

  function HostsOf(args: Args): seq<(string, string)> {
    if args.hosts != [] then args.hosts
    else if args.ips != [] then SelfNamed(args.ips)
    else [("ceos1-both", "ceos1-both"), ("ceos2-pqc", "ceos2-pqc")]
  }

  /** A dict lists this address, and not an empty one, for a name. */
  predicate Lists(dict: seq<(string, string)>, name: string, ip: string) { ip != "" && (name, ip) in dict }

  ghost predicate ListsNone(dict: seq<(string, string)>, name: string) { forall ip :: !Lists(dict, name, ip) }

  lemma {:induction false} GetListed(dict: seq<(string, string)>, name: string, ip: string)
    requires IsDict(dict) && ip != ""
    ensures Lists(dict, name, ip) <==> Get(dict, name) == ip
  {
    if dict != [] {
      var rest := dict[1..];
      GetListed(rest, name, ip);
      assert dict == [dict[0]] + rest;
    }
  }

  lemma NotListed(dict: seq<(string, string)>, name: string)
    requires IsDict(dict)
    ensures ListsNone(dict, name) <==> Get(dict, name) == ""
  {
    hide Get, Lists;
    if Get(dict, name) != "" { GetListed(dict, name, Get(dict, name)); }
    if ip :| Lists(dict, name, ip) {
      assert ip != "" by { ListedVisible(dict, name, ip); }
      GetListed(dict, name, ip);
    }
  }

  lemma ListedVisible(dict: seq<(string, string)>, name: string, ip: string)
    requires Lists(dict, name, ip)
    ensures ip != ""
  {
  }

  /** A switch's addresses are those that the two dicts list for it and that are
      not empty, IPv4 before IPv6. */
  lemma SansExactly(args: Args, name: string)
    requires IsDict(args.ips) && IsDict(args.ips6)
    ensures forall ip :: ip in Sans(args, name) <==> Lists(args.ips, name, ip) || Lists(args.ips6, name, ip)
    ensures forall a, b | Lists(args.ips, name, a) && Lists(args.ips6, name, b) :: Sans(args, name) == [a, b]
    ensures forall a | Lists(args.ips, name, a) && ListsNone(args.ips6, name) :: Sans(args, name) == [a]
    ensures forall b | ListsNone(args.ips, name) && Lists(args.ips6, name, b) :: Sans(args, name) == [b]
    ensures Sans(args, name) == [] <==> ListsNone(args.ips, name) && ListsNone(args.ips6, name)
  {
    NotListed(args.ips, name);
    NotListed(args.ips6, name);
    forall ip | ip != ""
      ensures Lists(args.ips, name, ip) <==> Get(args.ips, name) == ip
      ensures Lists(args.ips6, name, ip) <==> Get(args.ips6, name) == ip
    {
      GetListed(args.ips, name, ip);
      GetListed(args.ips6, name, ip);
    }
    hide Get, ListsNone;
  }

  /** The switches a run is for, with their client names: those it is given, else
      those with an IPv4 address, else the lab's two. */
  ghost predicate AsksFor(args: Args, name: string, cn: string) {
    if args.hosts != [] then (name, cn) in args.hosts
    else if args.ips != [] then cn == name && exists ip :: (name, ip) in args.ips
    else cn == name && (name == "ceos1-both" || name == "ceos2-pqc")
  }

  lemma {:induction false} SelfNames(dict: seq<(string, string)>, name: string, cn: string)
    ensures (name, cn) in SelfNamed(dict) <==> cn == name && exists ip :: (name, ip) in dict
  {
    if (name, cn) in SelfNamed(dict) {
      var i :| 0 <= i < |dict| && SelfNamed(dict)[i] == (name, cn);
      assert (name, dict[i].1) == dict[i];
    }
    if ip :| (name, ip) in dict {
      var i :| 0 <= i < |dict| && dict[i] == (name, ip);
      assert SelfNamed(dict)[i] == (name, name);
    }
  }

  lemma HostsExactly(args: Args, name: string, cn: string)
    ensures (name, cn) in HostsOf(args) <==> AsksFor(args, name, cn)
  {
    SelfNames(args.ips, name, cn);
  }

  /** An address as text: no comma and no white space. */
  predicate PlainIp(ip: string) {
    ',' !in ip && forall i | 0 <= i < |ip| :: !IsSpace(ip[i])
  }

  predicate PlainIps(ips: seq<string>) {
    ips != [] && forall i | 0 <= i < |ips| :: PlainIp(ips[i])
  }

  predicate PlainDict(dict: seq<(string, string)>) {
    IsDict(dict) && forall i | 0 <= i < |dict| :: PlainIp(dict[i].1)
  }

  /** What openssl and the caller's types ask of the arguments. */
  predicate Plain(args: Args) {
    && PlainIps(args.radiusIps) && (args.syslogIps.Some? ==> PlainIps(args.syslogIps.value))
    && IsDict(args.hosts) && PlainDict(args.ips) && PlainDict(args.ips6)
  }

  // ---- One certificate ------------------------------------------------------

  function EnsureCa(s: Store): (t: Store)
    ensures t.ca.Some?
  {
    if s.ca.Some? then s
    else s.(ca := Some(Cert(s.issued, s.issued, CA_NAME, [], Authority)), issued := s.issued + 1)
  }

  /** A fresh key and a certificate for it, signed by the work CA. */
  function Issue(s: Store, slot: Slot, cn: string, ips: seq<string>, usage: Usage, marker: Option<string>): Store
    requires s.ca.Some?
  {
    var crt := Cert(s.issued, s.ca.value.key, cn, ips, usage);
    s.(work := s.work[slot := Leaf(s.issued, crt, marker)], issued := s.issued + 1)
  }

  function ServerName(slot: Slot): string {
    match slot
    case Radius => "radius"
    case Syslog => "syslog"
    case Switch(name, _) => name
    case Client(name) => name
  }

  function MarkerKey(ips: seq<string>): string { if ips == [] then "" else Join(ips, ',') }

  predicate Cached(s: Store, slot: Slot, ips: seq<string>) {
    slot in s.work && s.work[slot].marker.Some? && Strip(s.work[slot].marker.value) == MarkerKey(ips)
  }

  /** `_generate_server_cert`, `_generate_syslog_server_cert` and the inline code
      for the RADIUS server, before the copying. */
  function EnsureServer(s: Store, slot: Slot, ips: seq<string>): (t: Store)
    requires s.ca.Some?
    ensures slot in t.work && t.ca == s.ca
  {
    if Cached(s, slot, ips) then s
    else Issue(s, slot, ServerName(slot), ips, ServerAuth, Some(MarkerKey(ips) + "\n"))
  }

  function EnsureClient(s: Store, name: string, cn: string): (t: Store)
    requires s.ca.Some?
    ensures Client(name) in t.work
  {
    if Client(name) in s.work then s else Issue(s, Client(name), cn, [], ClientAuth, None)
  }

  function Export(s: Store, slot: Slot): Store
    requires slot in s.work
  {
    s.(out := s.out[slot := (s.work[slot].key, s.work[slot].crt)])
  }

  function ExportCa(s: Store): Store { s.(outCa := s.ca) }

  // ---- What every step keeps ------------------------------------------------

  /** A work certificate pairs with its key, is signed by the work CA and named
      for its slot; a marker tells the SANs of its certificate. */
  predicate LeafOk(ca: Cert, slot: Slot, l: Leaf) {
    && l.crt.key == l.key && l.crt.issuer == ca.key
    && l.crt.usage == (if slot.Client? then ClientAuth else ServerAuth)
    && (if slot.Client? then l.crt.ips == [] else l.crt.cn == ServerName(slot))
    && (l.marker.Some? ==> PlainIps(l.crt.ips) && l.marker.value == MarkerKey(l.crt.ips) + "\n")
  }

  ghost predicate WorkInv(s: Store) {
    && (s.ca.Some? ==> s.ca.value.issuer == s.ca.value.key < s.issued && s.ca.value.usage == Authority)
    && forall slot | slot in s.work :: s.ca.Some? && LeafOk(s.ca.value, slot, s.work[slot])
  }

  /** Whatever is exported pairs and is signed by the exported CA. */
  ghost predicate OutInv(s: Store) {
    && (s.outCa.Some? ==> s.outCa == s.ca)
    && forall slot | slot in s.out ::
         s.outCa.Some? && s.out[slot].1.key == s.out[slot].0 && s.out[slot].1.issuer == s.outCa.value.key
  }

  ghost predicate Inv(s: Store) { WorkInv(s) && OutInv(s) }

  lemma {:induction false} JoinVisible(ips: seq<string>)
    requires PlainIps(ips)
    ensures forall i | 0 <= i < |Join(ips, ',')| :: !IsSpace(Join(ips, ',')[i])
  {
    if |ips| > 1 { JoinVisible(ips[1..]); }
  }

  lemma MarkerRead(ips: seq<string>)
    requires PlainIps(ips)
    ensures Strip(MarkerKey(ips) + "\n") == MarkerKey(ips)
  {
    JoinVisible(ips);
    var m := MarkerKey(ips);
    hide MarkerKey, RStrip, LStrip;
    RStripBlank(m, "\n");
  }

  /** Comma-joined address lists are equal only for equal lists. */
  lemma MarkerInjective(a: seq<string>, b: seq<string>)
    requires PlainIps(a) && PlainIps(b) && MarkerKey(a) == MarkerKey(b)
    ensures a == b
  {
    SplitJoin(a, ',');
    SplitJoin(b, ',');
  }

  /** So the marker test succeeds exactly when the cached certificate carries
      the SANs asked for. */
  lemma CachedExactly(s: Store, slot: Slot, ips: seq<string>)
    requires WorkInv(s) && PlainIps(ips)
    ensures Cached(s, slot, ips) <==> slot in s.work && s.work[slot].marker.Some? && s.work[slot].crt.ips == ips
  {
    hide MarkerKey, Strip, PlainIps;
    if slot in s.work && s.work[slot].marker.Some? {
      assert LeafOk(s.ca.value, slot, s.work[slot]);
      MarkerRead(s.work[slot].crt.ips);
      if MarkerKey(s.work[slot].crt.ips) == MarkerKey(ips) { MarkerInjective(s.work[slot].crt.ips, ips); }
    }
  }

  lemma EnsureCaKeeps(s: Store)
    requires Inv(s)
    ensures var t := EnsureCa(s); Inv(t) && t.work == s.work && t.out == s.out && t.outCa == s.outCa
  {
  }

  lemma EnsureServerKeeps(s: Store, slot: Slot, ips: seq<string>)
    requires Inv(s) && s.ca.Some? && PlainIps(ips) && !slot.Client?
    ensures var t := EnsureServer(s, slot, ips);
      && Inv(t) && t.ca == s.ca && t.outCa == s.outCa && t.out == s.out
      && slot in t.work && t.work[slot].marker.Some? && t.work[slot].crt.ips == ips
      && (forall q | q in s.work && q != slot :: q in t.work && t.work[q] == s.work[q])
  {
    CachedExactly(s, slot, ips);
    hide MarkerKey, Cached, PlainIps;
  }

  // ---- A whole run ----------------------------------------------------------

  function Clients(s: Store, hosts: seq<(string, string)>): (t: Store)
    requires s.ca.Some?
    ensures t.ca == s.ca
  {
    if hosts == [] then s
    else
      var k := |hosts| - 1;
      EnsureClient(Clients(s, hosts[..k]), hosts[k].0, hosts[k].1)
  }

  lemma {:induction false} ClientsKeep(s: Store, hosts: seq<(string, string)>)
    requires Inv(s) && s.ca.Some?
    ensures var t := Clients(s, hosts);
      && Inv(t) && t.outCa == s.outCa && t.out == s.out
      && (forall q | q in s.work :: q in t.work && t.work[q] == s.work[q])
      && (forall i | 0 <= i < |hosts| :: Client(hosts[i].0) in t.work)
  {
    if hosts != [] {
      var k := |hosts| - 1;
      ClientsKeep(s, hosts[..k]);
      assert forall i | 0 <= i < k :: hosts[i] == hosts[..k][i];
    }
  }

  function ExportClients(s: Store, hosts: seq<(string, string)>): (t: Store)
    requires forall i | 0 <= i < |hosts| :: Client(hosts[i].0) in s.work
    ensures t == s.(out := t.out)
  {
    if hosts == [] then s
    else
      var k := |hosts| - 1;
      Export(ExportClients(s, hosts[..k]), Client(hosts[k].0))
  }

  function Deploy(s: Store, slot: Slot, ips: seq<string>): Store
    requires s.ca.Some?
  {
    Export(EnsureServer(s, slot, ips), slot)
  }

  function DeployHost(s: Store, args: Args, name: string): (t: Store)
    requires s.ca.Some?
    ensures t.ca == s.ca
  {
    var ips := Sans(args, name);
    if ips == [] then s else Deploy(Deploy(s, Switch(name, Eapi), ips), Switch(name, Gnmi), ips)
  }

  function Servers(s: Store, args: Args, hosts: seq<(string, string)>): (t: Store)
    requires s.ca.Some?
    ensures t.ca == s.ca
  {
    if hosts == [] then s
    else
      var k := |hosts| - 1;
      DeployHost(Servers(s, args, hosts[..k]), args, hosts[k].0)
  }

  lemma MadeAll(s: Store, args: Args)
    requires Inv(s) && Plain(args)
    ensures var t := Clients(EnsureServer(EnsureCa(s), Radius, args.radiusIps), HostsOf(args));
      && Inv(t) && t.ca.Some? && Radius in t.work
      && forall i | 0 <= i < |HostsOf(args)| :: Client(HostsOf(args)[i].0) in t.work
  {
    EnsureCaKeeps(s);
    var s1 := EnsureCa(s);
    hide Inv, HostsOf, PlainIps, EnsureCa;
    PlainRadius(args);
    EnsureServerKeeps(s1, Radius, args.radiusIps);
    hide EnsureServer;
    ClientsKeep(EnsureServer(s1, Radius, args.radiusIps), HostsOf(args));
  }

  lemma {:induction false} ClientsPresent(s: Store, hosts: seq<(string, string)>)
    requires s.ca.Some?
    ensures var t := Clients(s, hosts);
      && (forall q | q in s.work :: q in t.work)
      && (forall i | 0 <= i < |hosts| :: Client(hosts[i].0) in t.work)
  {
    if hosts != [] {
      var k := |hosts| - 1;
      ClientsPresent(s, hosts[..k]);
      assert forall i | 0 <= i < k :: hosts[i] == hosts[..k][i];
    }
  }

  /** Up to the copying of the client certificates. */
  function Prepare(s: Store, args: Args): (t: Store)
    ensures t.ca.Some? && t.outCa == t.ca
  {
    hide HostsOf, EnsureServer, EnsureCa, Clients;
    var s2 := EnsureServer(EnsureCa(s), Radius, args.radiusIps);
    ClientsPresent(s2, HostsOf(args));
    ExportClients(Export(ExportCa(Clients(s2, HostsOf(args))), Radius), HostsOf(args))
  }

  lemma PrepareKeeps(s: Store, args: Args)
    requires Inv(s) && Plain(args)
    ensures Inv(Prepare(s, args))
  {
    MadeAll(s, args);
    hide Plain, HostsOf, EnsureServer, EnsureCa, Clients;
    var made := Clients(EnsureServer(EnsureCa(s), Radius, args.radiusIps), HostsOf(args));
    ExportClientsKeep(Export(ExportCa(made), Radius), HostsOf(args));
  }

  /** `generate_radsec_pki`, on any directory. */
  function Run(s: Store, args: Args): Store {
    var t := Servers(Prepare(s, args), args, HostsOf(args));
    if args.syslogIps.Some? then Deploy(t, Syslog, args.syslogIps.value) else t
  }

  // ---- What a run leaves ----------------------------------------------------

  predicate Exported(s: Store, slot: Slot) {
    slot in s.work && slot in s.out && s.out[slot] == (s.work[slot].key, s.work[slot].crt)
  }

  predicate Done(s: Store, slot: Slot, ips: seq<string>) {
    Exported(s, slot) && s.work[slot].marker.Some? && s.work[slot].crt.ips == ips
  }

  /** `t` has every leaf of `s`, other than those listed, as `s` has it. */
  ghost predicate Same(s: Store, t: Store, except: set<Slot>) {
    && (forall q | q in s.work && q !in except :: q in t.work && t.work[q] == s.work[q])
    && (forall q | q in s.out && q !in except :: q in t.out && t.out[q] == s.out[q])
  }

  lemma {:induction false} ExportClientsKeep(s: Store, hosts: seq<(string, string)>)
    requires Inv(s) && s.outCa.Some?
    requires forall i | 0 <= i < |hosts| :: Client(hosts[i].0) in s.work
    ensures var t := ExportClients(s, hosts);
      && Inv(t) && (forall i | 0 <= i < |hosts| :: Exported(t, Client(hosts[i].0)))
      && (forall q | q in s.out && !q.Client? :: q in t.out && t.out[q] == s.out[q])
  {
    if hosts != [] {
      var k := |hosts| - 1;
      ExportClientsKeep(s, hosts[..k]);
      assert forall i | 0 <= i < k :: hosts[i] == hosts[..k][i];
    }
  }

  lemma DeployKeeps(s: Store, slot: Slot, ips: seq<string>)
    requires Inv(s) && s.ca.Some? && s.outCa == s.ca && PlainIps(ips) && !slot.Client?
    ensures var t := Deploy(s, slot, ips);
      Inv(t) && t.ca == s.ca && t.outCa == s.outCa && Done(t, slot, ips) && Same(s, t, {slot})
  {
    EnsureServerKeeps(s, slot, ips);
    hide EnsureServer, Inv, PlainIps;
  }

  lemma SansPlain(args: Args, name: string)
    requires Plain(args) && Sans(args, name) != []
    ensures PlainIps(Sans(args, name))
  {
    GetPlain(args.ips, name);
    GetPlain(args.ips6, name);
  }

  lemma {:induction false} GetPlain(dict: seq<(string, string)>, k: string)
    requires PlainDict(dict)
    ensures PlainIp(Get(dict, k))
  {
    if dict != [] {
      assert dict[0].1 == dict[0].1;
      assert forall i | 0 <= i < |dict[1..]| :: dict[1..][i] == dict[i + 1];
      GetPlain(dict[1..], k);
    }
  }

  predicate HostDone(s: Store, args: Args, name: string) {
    var ips := Sans(args, name);
    ips == [] || (Done(s, Switch(name, Eapi), ips) && Done(s, Switch(name, Gnmi), ips))
  }

  lemma DeployHostKeeps(s: Store, args: Args, name: string)
    requires Inv(s) && s.ca.Some? && s.outCa == s.ca && Plain(args)
    ensures var t := DeployHost(s, args, name);
      && Inv(t) && t.outCa == s.outCa && HostDone(t, args, name)
      && Same(s, t, {Switch(name, Eapi), Switch(name, Gnmi)})
  {
    hide Inv, PlainIps, Deploy, Plain;
    var ips := Sans(args, name);
    if ips != [] {
      SansPlain(args, name);
      DeployKeeps(s, Switch(name, Eapi), ips);
      var t := Deploy(s, Switch(name, Eapi), ips);
      DeployKeeps(t, Switch(name, Gnmi), ips);
    }
  }

  lemma {:induction false} ServersKeep(s: Store, args: Args, hosts: seq<(string, string)>)
    requires Inv(s) && s.ca.Some? && s.outCa == s.ca && Plain(args) && IsDict(hosts)
    ensures var t := Servers(s, args, hosts);
      && Inv(t) && t.outCa == s.outCa
      && (forall i | 0 <= i < |hosts| :: HostDone(t, args, hosts[i].0))
      && (forall q | q in s.work && !q.Switch? :: q in t.work && t.work[q] == s.work[q])
      && (forall q | q in s.out && !q.Switch? :: q in t.out && t.out[q] == s.out[q])
  {
    hide Inv, Plain, DeployHost, Sans;
    if hosts != [] {
      var k := |hosts| - 1;
      ServersKeep(s, args, hosts[..k]);
      var p := Servers(s, args, hosts[..k]);
      DeployHostKeeps(p, args, hosts[k].0);
      var t := Servers(s, args, hosts);
      forall i | 0 <= i < k ensures HostDone(t, args, hosts[i].0) {
        assert hosts[i] == hosts[..k][i];
        assert hosts[i].0 != hosts[k].0;
      }
    }
  }

  /** Everything that the arguments ask for is there and exported. */
  ghost predicate Settled(s: Store, args: Args) {
    && s.ca.Some? && s.outCa == s.ca && Done(s, Radius, args.radiusIps)
    && (forall i | 0 <= i < |HostsOf(args)| :: Exported(s, Client(HostsOf(args)[i].0)) && HostDone(s, args, HostsOf(args)[i].0))
    && (args.syslogIps.Some? ==> Done(s, Syslog, args.syslogIps.value))
  }

  lemma HostsDict(args: Args)
    requires Plain(args)
    ensures IsDict(HostsOf(args))
  {
  }

  lemma PrepareDone(s: Store, args: Args)
    requires Inv(s) && Plain(args)
    ensures var t := Prepare(s, args); var hosts := HostsOf(args);
      Done(t, Radius, args.radiusIps) && forall i | 0 <= i < |hosts| :: Exported(t, Client(hosts[i].0))
  {
    PlainRadius(args);
    EnsureCaKeeps(s);
    MadeAll(s, args);
    hide Plain, HostsOf, Inv, PlainIps;
    var s1 := EnsureCa(s);
    EnsureServerKeeps(s1, Radius, args.radiusIps);
    hide EnsureServer, EnsureCa;
    var s2 := EnsureServer(s1, Radius, args.radiusIps);
    ClientsKeep(s2, HostsOf(args));
    hide Clients;
    var made := Clients(s2, HostsOf(args));
    ExportClientsKeep(Export(ExportCa(made), Radius), HostsOf(args));
  }

  lemma PlainRadius(args: Args)
    requires Plain(args)
    ensures PlainIps(args.radiusIps)
  {
  }

  /** A run leaves everything its arguments ask for, and the invariant. */
  lemma RunSettles(s: Store, args: Args)
    requires Inv(s) && Plain(args)
    ensures Inv(Run(s, args)) && Settled(Run(s, args), args)
  {
    hide HostsOf, Inv, PlainIps, Prepare, Servers, Deploy, HostDone;
    HostsDict(args);
    PrepareDone(s, args);
    PrepareKeeps(s, args);
    var p := Prepare(s, args);
    ServersKeep(p, args, HostsOf(args));
    var t := Servers(p, args, HostsOf(args));
    if args.syslogIps.Some? {
      DeployKeeps(t, Syslog, args.syslogIps.value);
      var u := Deploy(t, Syslog, args.syslogIps.value);
      forall i | 0 <= i < |HostsOf(args)| ensures HostDone(u, args, HostsOf(args)[i].0) {
        HostDoneStays(t, u, args, HostsOf(args)[i].0);
      }
    }
  }

  lemma HostDoneStays(s: Store, t: Store, args: Args, name: string)
    requires HostDone(s, args, name) && Same(s, t, {Syslog})
    ensures HostDone(t, args, name)
  {
  }

  // ---- Running again --------------------------------------------------------

  lemma ExportAgain(s: Store, slot: Slot)
    requires Exported(s, slot)
    ensures Export(s, slot) == s
  {
    assert s.out[slot := s.out[slot]] == s.out;
  }

  lemma DeployAgain(s: Store, slot: Slot, ips: seq<string>)
    requires Inv(s) && s.ca.Some? && PlainIps(ips) && Done(s, slot, ips)
    ensures EnsureServer(s, slot, ips) == s && Deploy(s, slot, ips) == s
  {
    CachedExactly(s, slot, ips);
    ExportAgain(s, slot);
  }

  lemma {:induction false} ClientsAgain(s: Store, hosts: seq<(string, string)>)
    requires s.ca.Some? && forall i | 0 <= i < |hosts| :: Exported(s, Client(hosts[i].0))
    requires forall i | 0 <= i < |hosts| :: Client(hosts[i].0) in s.work
    ensures Clients(s, hosts) == s && ExportClients(s, hosts) == s
  {
    if hosts != [] {
      var k := |hosts| - 1;
      assert forall i | 0 <= i < k :: hosts[i] == hosts[..k][i];
      ClientsAgain(s, hosts[..k]);
      assert Exported(s, Client(hosts[k].0));
      ExportAgain(s, Client(hosts[k].0));
    }
  }

  lemma {:induction false} ServersAgain(s: Store, args: Args, hosts: seq<(string, string)>)
    requires Inv(s) && s.ca.Some? && Plain(args)
    requires forall i | 0 <= i < |hosts| :: HostDone(s, args, hosts[i].0)
    ensures Servers(s, args, hosts) == s
  {
    hide Inv, Plain, PlainIps, Done, Deploy, Sans;
    if hosts != [] {
      var k := |hosts| - 1;
      assert forall i | 0 <= i < k :: hosts[i] == hosts[..k][i];
      ServersAgain(s, args, hosts[..k]);
      var name := hosts[k].0;
      var ips := Sans(args, name);
      assert HostDone(s, args, name);
      if ips != [] {
        SansPlain(args, name);
        DeployAgain(s, Switch(name, Eapi), ips);
        DeployAgain(s, Switch(name, Gnmi), ips);
      }
    }
  }

  /** A run over a directory that already has what is asked for changes nothing:
      no key is generated and every file keeps its contents. */
  lemma SettledRunIsIdle(s: Store, args: Args)
    requires Inv(s) && Plain(args) && Settled(s, args)
    ensures Run(s, args) == s
  {
    hide HostsOf, Inv, Plain, PlainIps, Deploy, HostDone, EnsureServer, Clients, ExportClients, Servers;
    var hosts := HostsOf(args);
    PlainRadius(args);
    DeployAgain(s, Radius, args.radiusIps);
    forall i | 0 <= i < |hosts| ensures Client(hosts[i].0) in s.work { assert Exported(s, Client(hosts[i].0)); }
    ClientsAgain(s, hosts);
    assert ExportCa(s) == s;
    ExportAgain(s, Radius);
    assert Prepare(s, args) == s;
    ServersAgain(s, args, hosts);
    if args.syslogIps.Some? {
      PlainSyslog(args);
      DeployAgain(s, Syslog, args.syslogIps.value);
    }
  }

  lemma PlainSyslog(args: Args)
    requires Plain(args) && args.syslogIps.Some?
    ensures PlainIps(args.syslogIps.value)
  {
  }

  // ---- Any sequence of runs -------------------------------------------------

  ghost predicate AllPlain(runs: seq<Args>) {
    forall i | 0 <= i < |runs| :: Plain(runs[i])
  }

  /** The directories after completed runs, starting from nothing. */
  ghost function After(runs: seq<Args>): (s: Store)
    requires AllPlain(runs)
    ensures Inv(s)
  {
    if runs == [] then EMPTY
    else
      var k := |runs| - 1;
      RunSettles(After(runs[..k]), runs[k]);
      Run(After(runs[..k]), runs[k])
  }

  /** A server's exported certificate has these addresses and this name,
      certifies the key next to it and is signed by the exported CA. */
  predicate Serves(s: Store, slot: Slot, name: string, ips: seq<string>) {
    s.outCa.Some? && slot in s.out &&
    s.out[slot].1 == Cert(s.out[slot].0, s.outCa.value.key, name, ips, ServerAuth)
  }

  /** Both certificates of a switch have exactly the addresses listed for it. */
  ghost predicate ServesListed(s: Store, args: Args, name: string, role: Role) {
    var slot := Switch(name, role);
    slot in s.out && Serves(s, slot, name, s.out[slot].1.ips) &&
    forall ip :: ip in s.out[slot].1.ips <==> Lists(args.ips, name, ip) || Lists(args.ips6, name, ip)
  }

  predicate ClientOut(s: Store, name: string) {
    Client(name) in s.out && s.out[Client(name)].1.usage == ClientAuth && s.out[Client(name)].1.ips == []
  }

  /** Whatever ran before, a run exports for each server a certificate with
      exactly this run's addresses, and everything exported, by this run or an
      earlier one, pairs with its key and is signed by the exported CA. */
  lemma ExportsWhatWasAsked(runs: seq<Args>, args: Args)
    requires AllPlain(runs + [args])
    ensures var s := After(runs + [args]);
      && OutInv(s) && s.outCa.Some? && Serves(s, Radius, "radius", args.radiusIps)
      && (args.syslogIps.Some? ==> Serves(s, Syslog, "syslog", args.syslogIps.value))
      && (forall name, cn | AsksFor(args, name, cn) :: ClientOut(s, name))
      && (forall name, cn, role | AsksFor(args, name, cn) ::
            ServesListed(s, args, name, role) || (ListsNone(args.ips, name) && ListsNone(args.ips6, name)))
    ensures var s := After(runs + [args]); var hosts := HostsOf(args);
      forall i, role | 0 <= i < |hosts| && Sans(args, hosts[i].0) != [] ::
        Serves(s, Switch(hosts[i].0, role), hosts[i].0, Sans(args, hosts[i].0))
  {
    hide HostsOf, Sans, Run, AsksFor, ServesListed, ListsNone, Serves, Lists;
    var s := After(runs + [args]);
    var hosts := HostsOf(args);
    assert (runs + [args])[..|runs|] == runs && (runs + [args])[|runs|] == args;
    RunSettles(After(runs), args);
    ServerCert(s, Radius, args.radiusIps);
    if args.syslogIps.Some? { ServerCert(s, Syslog, args.syslogIps.value); }
    forall i, role | 0 <= i < |hosts|
      ensures Sans(args, hosts[i].0) != [] ==> Serves(s, Switch(hosts[i].0, role), hosts[i].0, Sans(args, hosts[i].0))
    {
      if Sans(args, hosts[i].0) != [] { SwitchCert(s, args, i, role); }
    }
    forall name, cn | AsksFor(args, name, cn)
      ensures ClientOut(s, name)
      ensures forall role ::
        ServesListed(s, args, name, role) || (ListsNone(args.ips, name) && ListsNone(args.ips6, name))
    {
      HostsExactly(args, name, cn);
      var i :| 0 <= i < |hosts| && hosts[i] == (name, cn);
      ClientExported(s, args, i);
      forall role
        ensures ServesListed(s, args, name, role) || (ListsNone(args.ips, name) && ListsNone(args.ips6, name))
      {
        SwitchListed(s, args, i, role);
      }
    }
  }

  lemma SwitchCert(s: Store, args: Args, i: nat, role: Role)
    requires Inv(s) && Settled(s, args) && i < |HostsOf(args)| && Sans(args, HostsOf(args)[i].0) != []
    ensures var name := HostsOf(args)[i].0; Serves(s, Switch(name, role), name, Sans(args, name))
  {
    hide HostsOf, Sans, Serves;
    var name := HostsOf(args)[i].0;
    assert HostDone(s, args, name);
    assert role == Eapi || role == Gnmi;
    ServerCert(s, Switch(name, role), Sans(args, name));
  }

  lemma ClientExported(s: Store, args: Args, i: nat)
    requires Inv(s) && Settled(s, args) && i < |HostsOf(args)|
    ensures ClientOut(s, HostsOf(args)[i].0)
  {
    hide HostsOf, Sans;
    var slot := Client(HostsOf(args)[i].0);
    assert Exported(s, slot);
    assert LeafOk(s.ca.value, slot, s.work[slot]);
  }

  lemma SwitchListed(s: Store, args: Args, i: nat, role: Role)
    requires Inv(s) && Settled(s, args) && Plain(args) && i < |HostsOf(args)|
    ensures var name := HostsOf(args)[i].0;
      ServesListed(s, args, name, role) || (ListsNone(args.ips, name) && ListsNone(args.ips6, name))
  {
    var name := HostsOf(args)[i].0;
    SansExactly(args, name);
    hide HostsOf, Sans, Lists, ListsNone, Settled, Inv;
    if Sans(args, name) != [] { SwitchCert(s, args, i, role); }
  }

  lemma ServerCert(s: Store, slot: Slot, ips: seq<string>)
    requires Inv(s) && s.outCa == s.ca && s.ca.Some? && Done(s, slot, ips) && !slot.Client?
    ensures Serves(s, slot, ServerName(slot), ips)
  {
    assert LeafOk(s.ca.value, slot, s.work[slot]);
  }

  /** The CA and all leaves have keys of their own, all of them handed out. */
  ghost predicate KeysApart(s: Store) {
    && (s.ca.Some? ==> s.ca.value.key < s.issued)
    && (forall p | p in s.work :: s.work[p].key < s.issued && (s.ca.Some? ==> s.work[p].key != s.ca.value.key))
    && (forall p, q | p in s.work && q in s.work && p != q :: s.work[p].key != s.work[q].key)
  }

  lemma IssueApart(s: Store, slot: Slot, cn: string, ips: seq<string>, usage: Usage, marker: Option<string>)
    requires KeysApart(s) && s.ca.Some?
    ensures KeysApart(Issue(s, slot, cn, ips, usage, marker))
  {
  }

  lemma ServerApart(s: Store, slot: Slot, ips: seq<string>)
    requires KeysApart(s) && s.ca.Some?
    ensures KeysApart(EnsureServer(s, slot, ips)) && KeysApart(Deploy(s, slot, ips))
  {
    hide Issue, MarkerKey, Cached;
    IssueApart(s, slot, ServerName(slot), ips, ServerAuth, Some(MarkerKey(ips) + "\n"));
  }

  lemma {:induction false} ClientsApart(s: Store, hosts: seq<(string, string)>)
    requires KeysApart(s) && s.ca.Some?
    ensures KeysApart(Clients(s, hosts))
  {
    hide Issue, KeysApart;
    if hosts != [] {
      var k := |hosts| - 1;
      ClientsApart(s, hosts[..k]);
      IssueApart(Clients(s, hosts[..k]), Client(hosts[k].0), hosts[k].1, [], ClientAuth, None);
    }
  }

  lemma {:induction false} ServersApart(s: Store, args: Args, hosts: seq<(string, string)>)
    requires KeysApart(s) && s.ca.Some?
    ensures KeysApart(Servers(s, args, hosts))
  {
    hide Deploy, KeysApart, Sans;
    if hosts != [] {
      var k := |hosts| - 1;
      var t, ips := Servers(s, args, hosts[..k]), Sans(args, hosts[k].0);
      ServersApart(s, args, hosts[..k]);
      ServerApart(t, Switch(hosts[k].0, Eapi), ips);
      DeployCa(t, Switch(hosts[k].0, Eapi), ips);
      ServerApart(Deploy(t, Switch(hosts[k].0, Eapi), ips), Switch(hosts[k].0, Gnmi), ips);
    }
  }

  lemma CaApart(s: Store)
    requires KeysApart(s)
    ensures KeysApart(EnsureCa(s))
  {
  }

  lemma RunApart(s: Store, args: Args)
    requires KeysApart(s)
    ensures KeysApart(Run(s, args))
  {
    hide EnsureServer, EnsureCa, Clients, Servers, HostsOf, Deploy;
    var hosts := HostsOf(args);
    CaApart(s);
    ServerApart(EnsureCa(s), Radius, args.radiusIps);
    var t := EnsureServer(EnsureCa(s), Radius, args.radiusIps);
    ClientsApart(t, hosts);
    ClientsPresent(t, hosts);
    assert KeysApart(Prepare(s, args));
    hide Prepare, KeysApart;
    ServersApart(Prepare(s, args), args, hosts);
    if args.syslogIps.Some? { ServerApart(Servers(Prepare(s, args), args, hosts), Syslog, args.syslogIps.value); }
  }

  /** After any runs no two leaves share a key, and none has the CA's. */
  lemma {:induction false} NoSharedKeys(runs: seq<Args>)
    requires AllPlain(runs)
    ensures KeysApart(After(runs))
  {
    hide Run;
    if runs != [] {
      NoSharedKeys(runs[..|runs| - 1]);
      RunApart(After(runs[..|runs| - 1]), runs[|runs| - 1]);
    }
  }

  /** Repeating a run changes nothing. */
  lemma RepeatIssuesNothing(runs: seq<Args>, args: Args)
    requires AllPlain(runs) && Plain(args)
    ensures After(runs + [args, args]) == After(runs + [args])
  {
    hide Run, Plain, Settled;
    var once, twice := runs + [args], runs + [args, args];
    assert once[..|runs|] == runs && twice[..|once|] == once;
    RunSettles(After(runs), args);
    SettledRunIsIdle(After(once), args);
  }

  // ---- What the caches do not notice ----------------------------------------

  /** The common name a client certificate was first asked for. */
  function FirstCn(runs: seq<Args>, name: string): Option<string> {
    if runs == [] then None
    else
      var k := |runs| - 1;
      match FirstCn(runs[..k], name)
      case Some(cn) => Some(cn)
      case None => CnIn(HostsOf(runs[k]), name)
  }

  function CnIn(hosts: seq<(string, string)>, name: string): Option<string> {
    if hosts == [] then None
    else
      var k := |hosts| - 1;
      match CnIn(hosts[..k], name)
      case Some(cn) => Some(cn)
      case None => if hosts[k].0 == name then Some(hosts[k].1) else None
  }

  /** The cached common name of a client, if there is one. */
  function WorkCn(s: Store, name: string): Option<string> {
    if Client(name) in s.work then Some(s.work[Client(name)].crt.cn) else None
  }

  lemma {:induction false} ClientsCn(s: Store, hosts: seq<(string, string)>, name: string)
    requires s.ca.Some?
    ensures WorkCn(Clients(s, hosts), name) ==
      match WorkCn(s, name) { case Some(cn) => Some(cn) case None => CnIn(hosts, name) }
  {
    if hosts != [] { ClientsCn(s, hosts[..|hosts| - 1], name); }
  }

  lemma {:induction false} ServersCn(s: Store, args: Args, hosts: seq<(string, string)>, name: string)
    requires s.ca.Some?
    ensures WorkCn(Servers(s, args, hosts), name) == WorkCn(s, name)
  {
    if hosts != [] {
      ServersCn(s, args, hosts[..|hosts| - 1], name);
      hide Cached, MarkerKey, Sans;
    }
  }

  /** A client certificate is cached by its file alone: its name stays that of
      the first run that listed the client, whatever later runs ask for. */
  lemma ClientCnIsFirst(runs: seq<Args>, name: string)
    requires AllPlain(runs)
    ensures WorkCn(After(runs), name) == FirstCn(runs, name)
    decreases |runs|
  {
    if runs != [] {
      var k := |runs| - 1;
      ClientCnIsFirst(runs[..k], name);
      RunCn(After(runs[..k]), runs[k], name);
      hide Run;
    }
  }

  lemma RunCn(s: Store, args: Args, name: string)
    requires Inv(s) && Plain(args)
    ensures WorkCn(Run(s, args), name) ==
      match WorkCn(s, name) { case Some(cn) => Some(cn) case None => CnIn(HostsOf(args), name) }
  {
    hide Inv, Plain, HostsOf, Cached, MarkerKey, Clients, ExportClients, Servers;
    var s2 := EnsureServer(EnsureCa(s), Radius, args.radiusIps);
    ClientsCn(s2, HostsOf(args), name);
    var p := Prepare(s, args);
    ServersCn(p, args, HostsOf(args), name);
  }

  /** So the exported name is the one asked for exactly when the first run that
      listed the client asked for the same. */
  lemma ClientCnExactly(runs: seq<Args>, args: Args, i: nat)
    requires AllPlain(runs + [args]) && i < |HostsOf(args)|
    ensures var s := After(runs + [args]); var (name, cn) := HostsOf(args)[i];
      && Client(name) in s.out
      && (s.out[Client(name)].1.cn == cn <==> FirstCn(runs, name) in {None, Some(cn)})
  {
    hide HostsOf, Run, Plain;
    var (name, cn) := HostsOf(args)[i];
    var s := After(runs + [args]);
    assert (runs + [args])[..|runs|] == runs && (runs + [args])[|runs|] == args;
    assert Plain(args);
    RunSettles(After(runs), args);
    assert Exported(s, Client(name));
    ClientCnIsFirst(runs + [args], name);
    HostsDict(args);
    CnOfItem(HostsOf(args), i);
  }

  lemma {:induction false} CnOfItem(hosts: seq<(string, string)>, i: nat)
    requires IsDict(hosts) && i < |hosts|
    ensures CnIn(hosts, hosts[i].0) == Some(hosts[i].1)
  {
    var k := |hosts| - 1;
    if i < k { CnOfItem(hosts[..k], i); } else { CnAbsent(hosts[..k], hosts[k].0); }
  }

  lemma {:induction false} CnAbsent(hosts: seq<(string, string)>, name: string)
    requires forall i | 0 <= i < |hosts| :: hosts[i].0 != name
    ensures CnIn(hosts, name) == None
  {
    if hosts != [] { CnAbsent(hosts[..|hosts| - 1], name); }
  }

  /** The cached certificate has the addresses asked for. */
  predicate Current(s: Store, slot: Slot, ips: seq<string>) {
    slot in s.work && s.work[slot].marker.Some? && s.work[slot].crt.ips == ips
  }

  predicate AsIn(s: Store, t: Store, slot: Slot) {
    (slot in s.work <==> slot in t.work) && (slot in s.work ==> t.work[slot] == s.work[slot])
  }

  predicate SignedByNew(t: Store, slot: Slot) {
    t.ca.Some? && slot in t.work && t.work[slot].crt.issuer == t.ca.value.key
  }

  /** `t` has a CA made after everything in `s`. */
  predicate NewCa(s: Store, t: Store) { s.ca.Some? && t.ca.Some? && t.ca.value.key >= s.issued }

  /** After `slot` is seen to, its certificate is the new CA's exactly if it had
      to be made; other slots are left alone. */
  ghost predicate Touched(t: Store, u: Store, slot: Slot, anew: bool) {
    && u.ca == t.ca && u.outCa == t.outCa && slot in u.work && (SignedByNew(u, slot) <==> anew)
    && forall q: Slot | q != slot :: AsIn(t, u, q)
  }

  lemma OldIssuer(s: Store, t: Store, slot: Slot)
    requires Inv(s) && NewCa(s, t) && AsIn(s, t, slot) && slot in s.work
    ensures !SignedByNew(t, slot)
  {
    hide MarkerKey, PlainIps;
    assert LeafOk(s.ca.value, slot, s.work[slot]);
  }

  lemma ServerTouched(s: Store, t: Store, slot: Slot, ips: seq<string>)
    requires Inv(s) && NewCa(s, t) && AsIn(s, t, slot) && PlainIps(ips)
    ensures Touched(t, EnsureServer(t, slot, ips), slot, !Current(s, slot, ips))
  {
    CachedExactly(s, slot, ips);
    assert Cached(t, slot, ips) == Cached(s, slot, ips);
    hide Cached, MarkerKey, Inv, PlainIps;
    if slot in s.work { OldIssuer(s, t, slot); }
  }

  lemma ClientTouched(s: Store, t: Store, name: string, cn: string)
    requires Inv(s) && NewCa(s, t) && AsIn(s, t, Client(name))
    ensures Touched(t, EnsureClient(t, name, cn), Client(name), Client(name) !in s.work)
  {
    if Client(name) in s.work { OldIssuer(s, t, Client(name)); }
  }

  lemma {:induction false} ClientsOther(t: Store, hosts: seq<(string, string)>, q: Slot)
    requires t.ca.Some? && forall i | 0 <= i < |hosts| :: q != Client(hosts[i].0)
    ensures AsIn(t, Clients(t, hosts), q)
  {
    if hosts != [] {
      var k := |hosts| - 1;
      assert forall i | 0 <= i < k :: hosts[i] == hosts[..k][i];
      ClientsOther(t, hosts[..k], q);
    }
  }

  lemma {:induction false} ClientsAt(s: Store, t: Store, hosts: seq<(string, string)>, i: nat)
    requires Inv(s) && NewCa(s, t) && IsDict(hosts) && i < |hosts| && AsIn(s, t, Client(hosts[i].0))
    ensures SignedByNew(Clients(t, hosts), Client(hosts[i].0)) <==> Client(hosts[i].0) !in s.work
  {
    hide Inv;
    var k := |hosts| - 1;
    var v := Clients(t, hosts[..k]);
    if i == k {
      assert forall x | 0 <= x < k :: hosts[..k][x] == hosts[x] && hosts[x].0 != hosts[k].0;
      ClientsOther(t, hosts[..k], Client(hosts[k].0));
      ClientTouched(s, v, hosts[k].0, hosts[k].1);
    } else {
      assert hosts[..k][i] == hosts[i] && hosts[i].0 != hosts[k].0;
      ClientsAt(s, t, hosts[..k], i);
    }
  }

  /** The exported certificate is signed by the exported CA. */
  predicate SignedOut(t: Store, slot: Slot) {
    t.outCa.Some? && slot in t.out && t.out[slot].1.issuer == t.outCa.value.key
  }

  lemma DeployTouched(s: Store, t: Store, slot: Slot, ips: seq<string>)
    requires Inv(s) && NewCa(s, t) && t.outCa == t.ca && AsIn(s, t, slot) && PlainIps(ips)
    ensures var u := Deploy(t, slot, ips);
      && u.ca == t.ca && u.outCa == t.outCa && slot in u.out && (SignedOut(u, slot) <==> !Current(s, slot, ips))
      && (forall q: Slot | q != slot :: AsIn(t, u, q))
      && (forall q: Slot | q != slot :: (q in t.out <==> q in u.out) && (q in t.out ==> u.out[q] == t.out[q]))
  {
    ServerTouched(s, t, slot, ips);
    EnsureServerOut(t, slot, ips);
    hide EnsureServer, Inv, Current;
  }

  lemma EnsureServerOut(t: Store, slot: Slot, ips: seq<string>)
    requires t.ca.Some?
    ensures EnsureServer(t, slot, ips).out == t.out
  {
  }

  /** Neither file of a slot is touched. */
  predicate SlotAsIn(t: Store, u: Store, q: Slot) {
    AsIn(t, u, q) && (q in t.out <==> q in u.out) && (q in t.out ==> u.out[q] == t.out[q])
  }

  lemma DeployOther(t: Store, slot: Slot, ips: seq<string>, q: Slot)
    requires t.ca.Some? && q != slot
    ensures SlotAsIn(t, Deploy(t, slot, ips), q) && Deploy(t, slot, ips).outCa == t.outCa
  {
    hide Cached, MarkerKey;
  }

  lemma HostOther(t: Store, args: Args, name: string, q: Slot)
    requires t.ca.Some? && (q.Switch? ==> q.name != name)
    ensures SlotAsIn(t, DeployHost(t, args, name), q) && DeployHost(t, args, name).outCa == t.outCa
  {
    hide Deploy, Sans;
    var ips := Sans(args, name);
    if ips != [] {
      DeployOther(t, Switch(name, Eapi), ips, q);
      var v := Deploy(t, Switch(name, Eapi), ips);
      DeployCa(t, Switch(name, Eapi), ips);
      DeployOther(v, Switch(name, Gnmi), ips, q);
    }
  }

  lemma DeployCa(t: Store, slot: Slot, ips: seq<string>)
    requires t.ca.Some?
    ensures Deploy(t, slot, ips).ca == t.ca && Deploy(t, slot, ips).outCa == t.outCa
  {
    hide Cached, MarkerKey;
  }

  lemma HostTouched(s: Store, t: Store, args: Args, name: string, role: Role)
    requires Inv(s) && NewCa(s, t) && t.outCa == t.ca && Plain(args) && Sans(args, name) != []
    requires AsIn(s, t, Switch(name, Eapi)) && AsIn(s, t, Switch(name, Gnmi))
    ensures var u := DeployHost(t, args, name); var slot := Switch(name, role);
            slot in u.out && (SignedOut(u, slot) <==> !Current(s, slot, Sans(args, name)))
  {
    hide Deploy, Sans, Inv, Plain, Current, PlainIps;
    var ips := Sans(args, name);
    var v := Deploy(t, Switch(name, Eapi), ips);
    SansPlain(args, name);
    DeployTouched(s, t, Switch(name, Eapi), ips);
    DeployOther(t, Switch(name, Eapi), ips, Switch(name, Gnmi));
    DeployOther(v, Switch(name, Gnmi), ips, Switch(name, Eapi));
    DeployTouched(s, v, Switch(name, Gnmi), ips);
  }

  lemma {:induction false} ServersOther(t: Store, args: Args, hosts: seq<(string, string)>, q: Slot)
    requires t.ca.Some? && (q.Switch? ==> forall i | 0 <= i < |hosts| :: q.name != hosts[i].0)
    ensures SlotAsIn(t, Servers(t, args, hosts), q) && Servers(t, args, hosts).outCa == t.outCa
  {
    hide DeployHost;
    if hosts != [] {
      var k := |hosts| - 1;
      assert forall i | 0 <= i < k :: hosts[i] == hosts[..k][i];
      ServersOther(t, args, hosts[..k], q);
      HostOther(Servers(t, args, hosts[..k]), args, hosts[k].0, q);
    }
  }

  lemma {:induction false} ServersAt(s: Store, t: Store, args: Args, hosts: seq<(string, string)>, i: nat, role: Role)
    requires Inv(s) && NewCa(s, t) && t.outCa == t.ca && Plain(args) && IsDict(hosts) && i < |hosts|
    requires Sans(args, hosts[i].0) != [] && forall r :: AsIn(s, t, Switch(hosts[i].0, r))
    ensures var u := Servers(t, args, hosts); var slot := Switch(hosts[i].0, role);
            slot in u.out && (SignedOut(u, slot) <==> !Current(s, slot, Sans(args, hosts[i].0)))
  {
    hide DeployHost, Inv, Plain, Sans, Current;
    var k := |hosts| - 1;
    var v := Servers(t, args, hosts[..k]);
    var name := hosts[i].0;
    if i == k {
      assert forall x | 0 <= x < k :: hosts[..k][x] == hosts[x] && hosts[x].0 != name;
      ServersOther(t, args, hosts[..k], Switch(name, Eapi));
      ServersOther(t, args, hosts[..k], Switch(name, Gnmi));
      assert AsIn(s, t, Switch(name, Eapi)) && AsIn(s, t, Switch(name, Gnmi));
      HostTouched(s, v, args, name, role);
    } else {
      assert hosts[..k][i] == hosts[i] && hosts[i].0 != hosts[k].0;
      ServersAt(s, t, args, hosts[..k], i, role);
      HostOther(v, args, hosts[k].0, Switch(name, role));
      ServersOther(t, args, hosts[..k], Client(""));
    }
  }

  lemma {:induction false} ExportClientsOther(t: Store, hosts: seq<(string, string)>, q: Slot)
    requires !q.Client? && forall i | 0 <= i < |hosts| :: Client(hosts[i].0) in t.work
    ensures SlotAsIn(t, ExportClients(t, hosts), q)
  {
    if hosts != [] { ExportClientsOther(t, hosts[..|hosts| - 1], q); }
  }

  lemma {:induction false} ExportClientsAt(t: Store, hosts: seq<(string, string)>, i: nat)
    requires i < |hosts| && forall x | 0 <= x < |hosts| :: Client(hosts[x].0) in t.work
    ensures Exported(ExportClients(t, hosts), Client(hosts[i].0))
  {
    var k := |hosts| - 1;
    if i < k {
      assert hosts[..k][i] == hosts[i];
      ExportClientsAt(t, hosts[..k], i);
    }
  }

  /** The state before the servers of the switches: what is exported then. */
  lemma PrepareLost(s: Store, args: Args)
    requires Inv(s) && s.ca.Some? && Plain(args)
    ensures var p := Prepare(s.(ca := None), args); var hosts := HostsOf(args);
      && NewCa(s, p) && p.outCa == p.ca
      && Radius in p.out && (SignedOut(p, Radius) <==> !Current(s, Radius, args.radiusIps))
      && (forall q: Slot | q.Switch? || q.Syslog? :: AsIn(s, p, q))
      && (forall i | 0 <= i < |hosts| :: Client(hosts[i].0) in p.out
            && (SignedOut(p, Client(hosts[i].0)) <==> Client(hosts[i].0) !in s.work))
  {
    var r := EnsureCa(s.(ca := None));
    var hosts := HostsOf(args);
    assert NewCa(s, r) && forall q: Slot :: AsIn(s, r, q);
    HostsDict(args);
    PlainRadius(args);
    hide Inv, Plain, HostsOf, EnsureCa, Clients, ExportClients, PlainIps, Current;
    ServerTouched(s, r, Radius, args.radiusIps);
    hide EnsureServer;
    var s2 := EnsureServer(r, Radius, args.radiusIps);
    ClientsPresent(s2, hosts);
    var made := Clients(s2, hosts);
    var e := Export(ExportCa(made), Radius);
    ClientsOther(s2, hosts, Radius);
    ExportClientsOther(e, hosts, Radius);
    forall q: Slot | q.Switch? || q.Syslog? ensures AsIn(s, ExportClients(e, hosts), q) {
      ClientsOther(s2, hosts, q);
      assert AsIn(r, s2, q);
    }
    forall i | 0 <= i < |hosts|
      ensures Client(hosts[i].0) in ExportClients(e, hosts).out
      ensures SignedOut(ExportClients(e, hosts), Client(hosts[i].0)) <==> Client(hosts[i].0) !in s.work
    {
      assert AsIn(r, s2, Client(hosts[i].0));
      ClientsAt(s, s2, hosts, i);
      ExportClientsAt(e, hosts, i);
    }
  }

  /** No marker remembers the CA.  If ca.crt is deleted, the next run makes a new
      CA and exports it; of what that run exports, a server certificate is not
      signed by it exactly when the cached one has the addresses asked for, and a
      client certificate exactly when there is a cached one. */
  lemma LostCaLeavesStale(s: Store, args: Args)
    requires Inv(s) && s.ca.Some? && Plain(args)
    ensures var t := Run(s.(ca := None), args); var hosts := HostsOf(args);
      && Radius in t.out && (SignedOut(t, Radius) <==> !Current(s, Radius, args.radiusIps))
      && (args.syslogIps.Some? ==> Syslog in t.out && (SignedOut(t, Syslog) <==> !Current(s, Syslog, args.syslogIps.value)))
      && (forall i | 0 <= i < |hosts| :: Client(hosts[i].0) in t.out
            && (SignedOut(t, Client(hosts[i].0)) <==> Client(hosts[i].0) !in s.work))
      && (forall i, role | 0 <= i < |hosts| && Sans(args, hosts[i].0) != [] :: Switch(hosts[i].0, role) in t.out
            && (SignedOut(t, Switch(hosts[i].0, role)) <==> !Current(s, Switch(hosts[i].0, role), Sans(args, hosts[i].0))))
  {
    hide Inv, Plain, HostsOf, Prepare, Servers, Deploy, Current, Sans, SignedOut;
    var p, hosts := Prepare(s.(ca := None), args), HostsOf(args);
    PrepareLost(s, args);
    HostsDict(args);
    var u := Servers(p, args, hosts);
    var t := Run(s.(ca := None), args);
    ServersSigned(p, args, hosts, Radius);
    ServersOther(p, args, hosts, Syslog);
    LastSigned(s, u, args, Radius);
    forall i | 0 <= i < |hosts|
      ensures Client(hosts[i].0) in t.out && (SignedOut(t, Client(hosts[i].0)) <==> Client(hosts[i].0) !in s.work)
    {
      ServersSigned(p, args, hosts, Client(hosts[i].0));
      LastSigned(s, u, args, Client(hosts[i].0));
    }
    forall i, role | 0 <= i < |hosts| && Sans(args, hosts[i].0) != []
      ensures Switch(hosts[i].0, role) in t.out
      ensures SignedOut(t, Switch(hosts[i].0, role)) <==> !Current(s, Switch(hosts[i].0, role), Sans(args, hosts[i].0))
    {
      ServersAt(s, p, args, hosts, i, role);
      LastSigned(s, u, args, Switch(hosts[i].0, role));
    }
    if args.syslogIps.Some? {
      PlainSyslog(args);
      assert AsIn(s, u, Syslog);
      DeployTouched(s, u, Syslog, args.syslogIps.value);
    }
  }

  lemma ServersSigned(p: Store, args: Args, hosts: seq<(string, string)>, q: Slot)
    requires p.ca.Some? && !q.Switch?
    ensures var u := Servers(p, args, hosts);
      u.outCa == p.outCa && (q in u.out <==> q in p.out) && (SignedOut(u, q) <==> SignedOut(p, q))
  {
    hide Servers;
    ServersOther(p, args, hosts, q);
  }

  /** The syslog server's certificate comes last and leaves the others alone. */
  lemma LastSigned(s: Store, u: Store, args: Args, q: Slot)
    requires u.ca.Some? && q != Syslog
    ensures var t := if args.syslogIps.Some? then Deploy(u, Syslog, args.syslogIps.value) else u;
      (q in t.out <==> q in u.out) && (SignedOut(t, q) <==> SignedOut(u, q))
  {
    hide Deploy;
    if args.syslogIps.Some? { DeployOther(u, Syslog, args.syslogIps.value, q); }
  }

  /** In particular, if the lab is generated, ca.crt is lost, and the same is
      generated again, nothing that is exported fits the exported CA. */
  lemma LostCaRepeat(runs: seq<Args>, args: Args)
    requires AllPlain(runs + [args])
    ensures var t := Run(After(runs + [args]).(ca := None), args); var hosts := HostsOf(args);
      && !SignedOut(t, Radius) && (args.syslogIps.Some? ==> !SignedOut(t, Syslog))
      && (forall i | 0 <= i < |hosts| :: !SignedOut(t, Client(hosts[i].0)))
      && (forall i, role | 0 <= i < |hosts| && Sans(args, hosts[i].0) != [] :: !SignedOut(t, Switch(hosts[i].0, role)))
  {
    hide HostsOf, Sans, Run, SignedOut, Plain, Inv;
    var s := After(runs + [args]);
    assert (runs + [args])[..|runs|] == runs && (runs + [args])[|runs|] == args;
    assert Plain(args);
    RunSettles(After(runs), args);
    LostCaLeavesStale(s, args);
    forall i, role | 0 <= i < |HostsOf(args)| && Sans(args, HostsOf(args)[i].0) != []
      ensures Current(s, Switch(HostsOf(args)[i].0, role), Sans(args, HostsOf(args)[i].0))
    {
      assert HostDone(s, args, HostsOf(args)[i].0);
      assert role == Eapi || role == Gnmi;
    }
    assert forall i | 0 <= i < |HostsOf(args)| :: Exported(s, Client(HostsOf(args)[i].0));
  }

  /** What a list's entries split into at commas. */
  function Pieces(ips: seq<string>): seq<string> {
    if ips == [] then [] else Split(ips[0], ',') + Pieces(ips[1..])
  }

  lemma {:induction false} SplitMarker(ips: seq<string>)
    requires ips != []
    ensures Split(MarkerKey(ips), ',') == Pieces(ips)
  {
    if |ips| == 1 {
      assert Pieces(ips[1..]) == [];
    } else {
      SplitMarker(ips[1..]);
      SplitAround(ips[0], MarkerKey(ips[1..]), ',');
    }
  }

  /** The marker tells two lists apart exactly when their entries, split at
      commas, differ: lists with commas in entries can share one. */
  lemma MarkerExactly(a: seq<string>, b: seq<string>)
    requires a != [] && b != []
    ensures MarkerKey(a) == MarkerKey(b) <==> Pieces(a) == Pieces(b)
  {
    hide MarkerKey, Pieces;
    SplitMarker(a);
    SplitMarker(b);
    JoinSplit(MarkerKey(a), ',');
    JoinSplit(MarkerKey(b), ',');
  }

  // ---- The script -----------------------------------------------------------

  class PkiDir {
    var ca: Option<Cert>
    var work: map<Slot, Leaf>
    var outCa: Option<Cert>
    var out: map<Slot, (Key, Cert)>
    var issued: nat

    function State(): Store
      reads this
    {
      Store(ca, work, outCa, out, issued)
    }

    /** An empty directory. */
    constructor ()
      ensures State() == EMPTY && Inv(State())
    {
      ca, work, outCa, out, issued := None, map[], None, map[], 0;
    }

    method IssueLeaf(slot: Slot, cn: string, ips: seq<string>, usage: Usage, marker: Option<string>)
      requires ca.Some?
      modifies this
      ensures State() == Issue(old(State()), slot, cn, ips, usage, marker)
    {
      var key := issued;
      issued := issued + 1;
      work := work[slot := Leaf(key, Cert(key, ca.value.key, cn, ips, usage), marker)];
    }

    method ServerCert(slot: Slot, ips: seq<string>)
      requires ca.Some?
      modifies this
      ensures State() == EnsureServer(old(State()), slot, ips)
    {
      var markerKey := MarkerKey(ips);
      if slot in work && work[slot].marker.Some? && Strip(work[slot].marker.value) == markerKey {
        return;
      }
      IssueLeaf(slot, ServerName(slot), ips, ServerAuth, Some(markerKey + "\n"));
    }

    method Copy(slot: Slot)
      requires slot in work
      modifies this
      ensures State() == Export(old(State()), slot)
    {
      out := out[slot := (work[slot].key, work[slot].crt)];
    }

    method DeployServer(slot: Slot, ips: seq<string>)
      requires ca.Some?
      modifies this
      ensures State() == Deploy(old(State()), slot, ips)
    {
      hide EnsureServer;
      ServerCert(slot, ips);
      Copy(slot);
    }

    /** Makes what is missing or stale and copies everything out. */
    method Generate(args: Args)
      requires Inv(State()) && Plain(args)
      modifies this
      ensures State() == Run(old(State()), args)
      ensures Inv(State()) && Settled(State(), args)
    {
      RunSettles(State(), args);
      MadeAll(State(), args);
      hide Prepare, EnsureCa, Clients, ExportClients, Servers, Export, ExportCa, Inv, Plain, HostsOf, Settled, EnsureServer, Sans, Deploy, Issue;
      var hosts := HostsOf(args);
      MakeClients(args, hosts);
      CopyClients(args, hosts);
      CopyServers(args, hosts);
      if args.syslogIps.Some? {
        DeployServer(Syslog, args.syslogIps.value);
      }
    }

    /** The CA, the RADIUS server's certificate and the clients'. */
    method MakeClients(args: Args, hosts: seq<(string, string)>)
      modifies this
      ensures State() == Clients(EnsureServer(EnsureCa(old(State())), Radius, args.radiusIps), hosts)
    {
      hide EnsureServer;
      if ca.None? {
        ca := Some(Cert(issued, issued, CA_NAME, [], Authority));
        issued := issued + 1;
      }
      ServerCert(Radius, args.radiusIps);
      ghost var s := State();
      for i := 0 to |hosts|
        invariant s.ca.Some? && State() == Clients(s, hosts[..i])
      {
        assert hosts[..i + 1][..i] == hosts[..i];
        var (name, cn) := hosts[i];
        if Client(name) !in work {
          IssueLeaf(Client(name), cn, [], ClientAuth, None);
        }
      }
      assert hosts[..|hosts|] == hosts;
    }

    method CopyClients(args: Args, hosts: seq<(string, string)>)
      requires Radius in work && forall i | 0 <= i < |hosts| :: Client(hosts[i].0) in work
      modifies this
      ensures State() == ExportClients(Export(ExportCa(old(State())), Radius), hosts)
    {
      outCa := ca;
      Copy(Radius);
      ghost var s := State();
      for i := 0 to |hosts|
        invariant work == s.work && State() == ExportClients(s, hosts[..i])
      {
        assert hosts[..i + 1][..i] == hosts[..i];
        Copy(Client(hosts[i].0));
      }
      assert hosts[..|hosts|] == hosts;
    }

    method CopyServers(args: Args, hosts: seq<(string, string)>)
      requires ca.Some?
      modifies this
      ensures State() == Servers(old(State()), args, hosts)
    {
      ghost var s := State();
      for i := 0 to |hosts|
        invariant ca == s.ca && State() == Servers(s, args, hosts[..i])
      {
        hide Deploy, Sans;
        assert hosts[..i + 1][..i] == hosts[..i];
        var name := hosts[i].0;
        var ips := Sans(args, name);
        if ips != [] {
          DeployServer(Switch(name, Eapi), ips);
          DeployServer(Switch(name, Gnmi), ips);
        }
      }
      assert hosts[..|hosts|] == hosts;
    }
  }
}
