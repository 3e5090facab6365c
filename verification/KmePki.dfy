/** The KME certificate directory (lab/gen_kme_pki.py), on any contents the work
    directory may have.  A CA without Certificate Sign is thrown away with
    everything it signed; KME certificates are always made anew, SAE
    certificates only when their file is missing. */
module KmePki {
  import opened Text

  type Key = nat

  datatype CaCert = CaCert(key: Key, certSign: bool)

  /** The key certified, the key that signed, the common name, the IP SAN. */
  datatype Cert = Cert(key: Key, issuer: Key, cn: string, ip: string)

  datatype Leaf = KmeA | KmeB | Sae | SaeB

  /** A QuaDRA bundle: a key followed by a certificate. */
  datatype Bundle = Bundle(key: Key, crt: Cert)

  datatype Exports = Exports(ca: CaCert, keys: map<Leaf, Key>, crts: map<Leaf, Cert>, bundles: map<Leaf, Bundle>)

  datatype Store = Store(
    caKey: Option<Key>, caCrt: Option<CaCert>, keys: map<Leaf, Key>, crts: map<Leaf, Cert>,
    out: Option<Exports>, issued: nat)

  const EMPTY := Store(None, None, map[], map[], None, 0)

  const LEAVES := {KmeA, KmeB, Sae, SaeB}

  function NameOf(l: Leaf): string {
    match l
    case KmeA => "9b7703f1-9b6d-403d-b850-18a1b6fd6d8f"
    case KmeB => "ffb23f4d-5d5b-47e5-a8c5-fe9e47d646cd"
    case Sae => "25840139-0dd4-49ae-ba1e-b86731601803"
    case SaeB => "c565d5aa-8670-4446-8471-b0e53e315d2a"
  }

  // ---- The steps ------------------------------------------------------------

  predicate HasCertSign(s: Store) { s.caCrt.Some? && s.caCrt.value.certSign }

  /** Keeps a CA with Certificate Sign; otherwise empties the work directory and
      makes a new one. */
  function EnsureCa(s: Store): (t: Store)
    ensures HasCertSign(t)
  {
    if HasCertSign(s) then s
    else s.(caKey := Some(s.issued), caCrt := Some(CaCert(s.issued, true)), keys := map[], crts := map[],
            issued := s.issued + 1)
  }

  /** openssl signs only when the CA key is there and belongs to the CA. */
  predicate CanSign(s: Store) {
    s.caCrt.Some? && s.caKey == Some(s.caCrt.value.key)
  }

  function Issue(s: Store, l: Leaf, ip: string): Store
    requires s.caCrt.Some?
  {
    s.(keys := s.keys[l := s.issued],
       crts := s.crts[l := Cert(s.issued, s.caCrt.value.key, NameOf(l), ip)],
       issued := s.issued + 1)
  }

  function IssueSae(s: Store, l: Leaf): Store
    requires s.caCrt.Some?
  {
    if l in s.crts then s else Issue(s, l, "")
  }

  /** All four leaves, given a CA that can sign. */
  function IssueAll(s: Store, ipA: string, ipB: string): (t: Store)
    requires s.caCrt.Some?
    ensures t.caCrt == s.caCrt && t.caKey == s.caKey && t.out == s.out
    ensures LEAVES <= t.crts.Keys
  {
    IssueSae(IssueSae(Issue(Issue(s, KmeA, ipA), KmeB, ipB), Sae), SaeB)
  }

  function ExportAll(s: Store): Store
    requires s.caCrt.Some? && LEAVES <= s.crts.Keys && LEAVES <= s.keys.Keys
  {
    s.(out := Some(Exports(
      s.caCrt.value,
      map l | l in LEAVES :: s.keys[l],
      map l | l in LEAVES :: s.crts[l],
      map[Sae := Bundle(s.keys[Sae], s.crts[Sae]), SaeB := Bundle(s.keys[SaeB], s.crts[SaeB])])))
  }

  /** `generate_kme_pki`; `None` when openssl or the copying fails. */
  function Run(s: Store, ipA: string, ipB: string): Option<Store> {
    var t := EnsureCa(s);
    if !CanSign(t) then None
    else
      var u := IssueAll(t, ipA, ipB);
      if LEAVES <= u.keys.Keys then Some(ExportAll(u)) else None
  }

  // ---- One run, on any directory --------------------------------------------

  predicate Signed(e: Exports, l: Leaf) { l in e.crts && e.crts[l].issuer == e.ca.key }

  predicate Pairs(e: Exports, l: Leaf) { l in e.crts && l in e.keys && e.crts[l].key == e.keys[l] }

  /** A cached SAE certificate is kept, with whatever key file is there. */
  predicate Kept(s: Store, l: Leaf) {
    (l.Sae? || l.SaeB?) && HasCertSign(s) && l in s.crts
  }

  /** A leaf made anew in this run. */
  predicate Fresh(u: Store, l: Leaf, ip: string) {
    u.caCrt.Some? && l in u.keys && l in u.crts &&
    u.crts[l] == Cert(u.keys[l], u.caCrt.value.key, NameOf(l), ip)
  }

  predicate SameFiles(s: Store, u: Store, l: Leaf) {
    && (l in s.keys <==> l in u.keys) && (l in s.keys ==> u.keys[l] == s.keys[l])
    && (l in s.crts <==> l in u.crts) && (l in s.crts ==> u.crts[l] == s.crts[l])
  }

  lemma IssuedLeaf(t: Store, ipA: string, ipB: string, l: Leaf)
    requires t.caCrt.Some?
    ensures var u := IssueAll(t, ipA, ipB);
      if (l.Sae? || l.SaeB?) && l in t.crts then SameFiles(t, u, l)
      else Fresh(u, l, match l { case KmeA => ipA case KmeB => ipB case _ => "" })
  {
    hide NameOf;
  }

  lemma RunLeaf(s: Store, ipA: string, ipB: string, l: Leaf)
    ensures var u := IssueAll(EnsureCa(s), ipA, ipB);
      if Kept(s, l) then SameFiles(s, u, l)
      else Fresh(u, l, match l { case KmeA => ipA case KmeB => ipB case _ => "" })
  {
    hide IssueAll, Fresh, SameFiles;
    IssuedLeaf(EnsureCa(s), ipA, ipB, l);
  }

  /** A run completes exactly when its CA was just made or has its own key next
      to it, and no cached SAE certificate lacks its key file. */
  lemma CompletesExactly(s: Store, ipA: string, ipB: string)
    ensures Run(s, ipA, ipB).Some? <==>
      (HasCertSign(s) ==> CanSign(s)) && forall l | Kept(s, l) :: l in s.keys
  {
    hide IssueAll;
    var u := IssueAll(EnsureCa(s), ipA, ipB);
    forall l: Leaf ensures l in LEAVES && (l in u.keys <==> (Kept(s, l) ==> l in s.keys)) {
      RunLeaf(s, ipA, ipB, l);
    }
    assert LEAVES <= u.keys.Keys <==> forall l | l in LEAVES :: l in u.keys;
  }

  /** What a completed run exports: a CA with Certificate Sign; and each leaf
      is signed by it, and pairs with its key, exactly when it was made anew or
      the cached one was and did. */
  lemma ExportsExactly(s: Store, ipA: string, ipB: string, l: Leaf)
    requires Run(s, ipA, ipB).Some?
    ensures Run(s, ipA, ipB).value.out.Some?
    ensures var e := Run(s, ipA, ipB).value.out.value;
      && e.ca.certSign && l in e.crts && l in e.keys
      && (Signed(e, l) <==> (Kept(s, l) ==> s.crts[l].issuer == s.caCrt.value.key))
      && (Pairs(e, l) <==> (Kept(s, l) ==> l in s.keys && s.crts[l].key == s.keys[l]))
      && (l in {Sae, SaeB} ==> l in e.bundles && e.bundles[l] == Bundle(e.keys[l], e.crts[l]))
      && (if Kept(s, l) then e.crts[l] == s.crts[l]
          else e.crts[l] == Cert(e.keys[l], e.ca.key, NameOf(l), match l { case KmeA => ipA case KmeB => ipB case _ => "" }))
      && (l == KmeA ==> e.crts[l].ip == ipA && e.crts[l].cn == NameOf(KmeA))
      && (l == KmeB ==> e.crts[l].ip == ipB && e.crts[l].cn == NameOf(KmeB))
  {
    hide IssueAll, EnsureCa;
    RunLeaf(s, ipA, ipB, l);
    CaAfter(s);
  }

  lemma CaAfter(s: Store)
    ensures HasCertSign(s) ==> EnsureCa(s) == s
  {
  }

  // ---- Sequences of runs ----------------------------------------------------

  /** Between runs the work CA may be replaced by one without Certificate Sign,
      such as an older version of the script made, with or without a key.  Its keys
      then count as handed out too. */
  datatype Event = Generate(ipA: string, ipB: string) | Legacy(key: Key, keyFile: Option<Key>)

  function Next(s: Store, e: Event): Store {
    match e
    case Generate(ipA, ipB) => (match Run(s, ipA, ipB) case Some(t) => t case None => s)
    case Legacy(key, keyFile) =>
      s.(caCrt := Some(CaCert(key, false)), caKey := keyFile, issued := Above(s.issued, key, keyFile))
  }

  /** At least `n`, and above the keys. */
  function Above(n: Key, key: Key, keyFile: Option<Key>): (r: Key)
    ensures r >= n && r > key && (keyFile.Some? ==> r > keyFile.value)
  {
    var m := if key < n then n else key + 1;
    if keyFile.Some? && keyFile.value >= m then keyFile.value + 1 else m
  }

  function After(events: seq<Event>): Store {
    if events == [] then EMPTY else Next(After(events[..|events| - 1]), events[|events| - 1])
  }

  predicate WorkLeaf(s: Store, l: Leaf)
    requires s.caCrt.Some? && l in s.crts
  {
    l in s.keys && s.crts[l].key == s.keys[l] && s.crts[l].issuer == s.caCrt.value.key && s.crts[l].cn == NameOf(l)
  }

  /** With a usable CA every work certificate pairs, is signed by it and named for
      its leaf. */
  ghost predicate WorkInv(s: Store) {
    HasCertSign(s) ==> CanSign(s) && forall l | l in s.crts :: WorkLeaf(s, l)
  }

  predicate SoundLeaf(e: Exports, l: Leaf) {
    Signed(e, l) && Pairs(e, l) && e.crts[l].cn == NameOf(l) &&
    (l in {Sae, SaeB} ==> l in e.bundles && e.bundles[l] == Bundle(e.keys[l], e.crts[l]))
  }

  /** Everything exported is signed by the exported CA, which has Certificate
      Sign, pairs with its key and has its leaf's name; the bundles hold the same. */
  ghost predicate Sound(e: Exports) {
    e.ca.certSign && forall l: Leaf :: SoundLeaf(e, l)
  }

  lemma RunSound(s: Store, ipA: string, ipB: string)
    requires WorkInv(s)
    ensures Run(s, ipA, ipB).Some? && WorkInv(Run(s, ipA, ipB).value)
    ensures Run(s, ipA, ipB).value.out.Some? && Sound(Run(s, ipA, ipB).value.out.value)
  {
    CompletesExactly(s, ipA, ipB);
    forall l: Leaf ensures SoundLeaf(Run(s, ipA, ipB).value.out.value, l) { ExportsExactly(s, ipA, ipB, l); }
    RunWork(s, ipA, ipB);
    ExportsExactly(s, ipA, ipB, KmeA);
    hide Run, SoundLeaf, WorkInv;
  }

  lemma RunWork(s: Store, ipA: string, ipB: string)
    requires WorkInv(s) && Run(s, ipA, ipB).Some?
    ensures WorkInv(Run(s, ipA, ipB).value)
  {
    var t := Run(s, ipA, ipB).value;
    CaAfter(s);
    hide IssueAll, EnsureCa;
    forall l | l in t.crts ensures WorkLeaf(t, l) {
      RunLeaf(s, ipA, ipB, l);
      if Kept(s, l) { assert WorkLeaf(s, l); }
    }
  }

  /** In every such history each run completes and exports sound material. */
  lemma {:induction false} HistorySound(events: seq<Event>)
    ensures var s := After(events);
      && WorkInv(s) && (s.out.Some? ==> Sound(s.out.value))
      && (forall ipA, ipB :: Run(s, ipA, ipB).Some?)
      && (events != [] && events[|events| - 1].Generate? ==> s.out.Some?)
  {
    hide Run, WorkInv, Sound;
    if events == [] {
      EmptyInv();
    } else {
      var k := |events| - 1;
      HistorySound(events[..k]);
      var s := After(events[..k]);
      match events[k]
      case Generate(ipA, ipB) => RunSound(s, ipA, ipB);
      case Legacy(key, keyFile) => LegacyInv(s, key, keyFile);
    }
    var s := After(events);
    forall ipA, ipB ensures Run(s, ipA, ipB).Some? { RunSound(s, ipA, ipB); }
  }

  lemma EmptyInv()
    ensures WorkInv(EMPTY)
  {
  }

  lemma LegacyInv(s: Store, key: Key, keyFile: Option<Key>)
    ensures WorkInv(Next(s, Legacy(key, keyFile))) && Next(s, Legacy(key, keyFile)).out == s.out
  {
  }

  predicate KeysIssued(s: Store) {
    && (forall q | q in s.keys :: s.keys[q] < s.issued) && (forall q | q in s.crts :: s.crts[q].key < s.issued)
    && (s.caCrt.Some? ==> s.caCrt.value.key < s.issued) && (s.caKey.Some? ==> s.caKey.value < s.issued)
  }

  lemma RunIssued(s: Store, ipA: string, ipB: string)
    requires KeysIssued(s) && Run(s, ipA, ipB).Some?
    ensures KeysIssued(Run(s, ipA, ipB).value) && s.issued <= Run(s, ipA, ipB).value.issued
  {
    var t := EnsureCa(s);
    assert KeysIssued(t) && s.issued <= t.issued;
    IssuedIssued(t, ipA, ipB);
    hide IssueAll, EnsureCa;
  }

  lemma IssuedIssued(t: Store, ipA: string, ipB: string)
    requires t.caCrt.Some? && KeysIssued(t)
    ensures KeysIssued(IssueAll(t, ipA, ipB)) && t.issued <= IssueAll(t, ipA, ipB).issued
  {
    hide NameOf;
  }

  /** In every history all keys in the work directory were handed out before. */
  lemma {:induction false} HistoryIssued(events: seq<Event>)
    ensures KeysIssued(After(events))
  {
    hide Run;
    if events != [] {
      var k := |events| - 1;
      HistoryIssued(events[..k]);
      var s := After(events[..k]);
      if events[k].Generate? && Run(s, events[k].ipA, events[k].ipB).Some? {
        RunIssued(s, events[k].ipA, events[k].ipB);
      }
    }
  }

  /** After any history SAE clients keep their identity over the next run, and are
      given a new one exactly when the CA has to be replaced; a KME gets a new key
      every time. */
  lemma SaeStable(events: seq<Event>, ipA: string, ipB: string, l: Leaf)
    requires l in After(events).crts && l in After(events).keys
    ensures var s := After(events); var t := Run(s, ipA, ipB);
      && t.Some? && l in t.value.keys
      && (t.value.keys[l] == s.keys[l] <==> (l.Sae? || l.SaeB?) && HasCertSign(s))
  {
    hide After;
    var s := After(events);
    HistorySound(events);
    HistoryIssued(events);
    RunSound(s, ipA, ipB);
    SaeStableOn(s, ipA, ipB, l);
  }

  lemma SaeStableOn(s: Store, ipA: string, ipB: string, l: Leaf)
    requires WorkInv(s) && KeysIssued(s) && l in s.crts && l in s.keys
    ensures Run(s, ipA, ipB).Some? && l in Run(s, ipA, ipB).value.keys
    ensures Run(s, ipA, ipB).value.keys[l] == s.keys[l] <==> (l.Sae? || l.SaeB?) && HasCertSign(s)
  {
    RunSound(s, ipA, ipB);
    RunLeaf(s, ipA, ipB, l);
    if !Kept(s, l) { FreshKey(s, ipA, ipB, l); }
    hide IssueAll;
  }

  /** A leaf made anew has a key that was not there before. */
  lemma FreshKey(s: Store, ipA: string, ipB: string, l: Leaf)
    requires !Kept(s, l) && l in s.keys && KeysIssued(s)
    ensures l in IssueAll(EnsureCa(s), ipA, ipB).keys && IssueAll(EnsureCa(s), ipA, ipB).keys[l] != s.keys[l]
  {
    hide NameOf;
  }

  /** No file of the work directory is about this key. */
  predicate Unseen(s: Store, key: Key) {
    && (forall q | q in s.keys :: s.keys[q] != key) && (forall q | q in s.crts :: s.crts[q].key != key)
    && (s.caCrt.Some? ==> s.caCrt.value.key != key) && s.caKey != Some(key)
  }

  /** After any history the next run exports the CA that it finds if that has
      Certificate Sign, and otherwise one with a key never seen before. */
  lemma CaExactly(events: seq<Event>, ipA: string, ipB: string)
    ensures var s := After(events); var t := Run(s, ipA, ipB);
      && t.Some? && t.value.out.Some? && t.value.caCrt == Some(t.value.out.value.ca)
      && t.value.caKey == Some(t.value.out.value.ca.key)
      && if HasCertSign(s) then t.value.caCrt == s.caCrt else Unseen(s, t.value.out.value.ca.key)
  {
    hide After;
    HistorySound(events);
    HistoryIssued(events);
    RunSound(After(events), ipA, ipB);
    hide IssueAll, WorkInv, Sound;
  }

  /** All leaves have keys of their own, and none has the CA's. */
  ghost predicate KeysApart(s: Store) {
    && (forall p, q | p in s.keys && q in s.keys && p != q :: s.keys[p] != s.keys[q])
    && (s.caCrt.Some? ==> forall q | q in s.keys :: s.keys[q] != s.caCrt.value.key)
  }

  lemma FreshApart(s: Store, l: Leaf, ip: string)
    requires s.caCrt.Some? && KeysApart(s) && KeysIssued(s)
    ensures KeysApart(Issue(s, l, ip))
  {
    hide NameOf, KeysIssued;
    var t := Issue(s, l, ip);
    KeysBelow(s);
    forall p, q | p in t.keys && q in t.keys && p != q ensures t.keys[p] != t.keys[q] { }
  }

  lemma KeysBelow(s: Store)
    requires KeysIssued(s)
    ensures (forall q | q in s.keys :: s.keys[q] < s.issued) && (s.caCrt.Some? ==> s.caCrt.value.key < s.issued)
  {
  }

  lemma FreshIssued(s: Store, l: Leaf, ip: string)
    requires s.caCrt.Some? && KeysIssued(s)
    ensures KeysIssued(Issue(s, l, ip))
  {
    hide NameOf;
  }

  lemma IssueApart(s: Store, l: Leaf, ip: string)
    requires s.caCrt.Some? && KeysApart(s) && KeysIssued(s)
    ensures KeysApart(Issue(s, l, ip)) && KeysIssued(Issue(s, l, ip))
    ensures KeysApart(IssueSae(s, l)) && KeysIssued(IssueSae(s, l))
  {
    hide Issue, KeysApart, KeysIssued;
    FreshApart(s, l, ip);
    FreshIssued(s, l, ip);
    FreshApart(s, l, "");
    FreshIssued(s, l, "");
  }

  lemma RunApart(s: Store, ipA: string, ipB: string)
    requires KeysIssued(s) && (HasCertSign(s) ==> KeysApart(s)) && Run(s, ipA, ipB).Some?
    ensures KeysApart(Run(s, ipA, ipB).value)
  {
    var t := EnsureCa(s);
    IssueApart(t, KmeA, ipA);
    hide KeysApart, KeysIssued;
    var a := Issue(t, KmeA, ipA);
    IssueApart(a, KmeB, ipB);
    var b := Issue(a, KmeB, ipB);
    IssueApart(b, Sae, "");
    IssueApart(IssueSae(b, Sae), SaeB, "");
    assert KeysApart(IssueAll(t, ipA, ipB));
    hide IssueAll, EnsureCa;
    SameKeys(IssueAll(t, ipA, ipB), Run(s, ipA, ipB).value);
  }

  lemma SameKeys(s: Store, t: Store)
    requires KeysApart(s) && t.keys == s.keys && t.caCrt == s.caCrt
    ensures KeysApart(t)
  {
  }

  /** After any history with a usable CA no two leaves share a key. */
  lemma {:induction false} NoSharedKeys(events: seq<Event>)
    ensures HasCertSign(After(events)) ==> KeysApart(After(events))
  {
    if events != [] {
      hide Run, KeysApart;
      var k := |events| - 1;
      var s := After(events[..k]);
      NoSharedKeys(events[..k]);
      HistoryIssued(events[..k]);
      if events[k].Generate? && Run(s, events[k].ipA, events[k].ipB).Some? {
        RunApart(s, events[k].ipA, events[k].ipB);
      }
    }
  }

  /** A replacement CA that does have Certificate Sign goes unnoticed: the cached
      SAE certificates are exported next to a CA that did not sign them. */
  lemma CapableCaGoesUnnoticed(s: Store, ca: Key, ipA: string, ipB: string, l: Leaf)
    requires WorkInv(s) && HasCertSign(s) && (l.Sae? || l.SaeB?) && l in s.crts && ca != s.caCrt.value.key
    ensures var t := Run(s.(caCrt := Some(CaCert(ca, true)), caKey := Some(ca)), ipA, ipB);
      t.Some? && t.value.out.Some? && !Signed(t.value.out.value, l)
  {
    var r := s.(caCrt := Some(CaCert(ca, true)), caKey := Some(ca));
    CompletesExactly(r, ipA, ipB);
    ExportsExactly(r, ipA, ipB, l);
    hide Run;
  }

  // ---- The script -----------------------------------------------------------

  class KmeDir {
    var caKey: Option<Key>
    var caCrt: Option<CaCert>
    var keys: map<Leaf, Key>
    var crts: map<Leaf, Cert>
    var out: Option<Exports>
    var issued: nat

    function State(): Store
      reads this
    {
      Store(caKey, caCrt, keys, crts, out, issued)
    }

    /** Any work directory, with nothing exported yet. */
    constructor (work: Store)
      ensures State() == work.(out := None)
    {
      caKey, caCrt, keys, crts, out, issued := work.caKey, work.caCrt, work.keys, work.crts, None, work.issued;
    }

    method IssueCert(l: Leaf, ip: string)
      requires caCrt.Some?
      modifies this
      ensures State() == Issue(old(State()), l, ip)
    {
      var key := issued;
      issued := issued + 1;
      keys := keys[l := key];
      crts := crts[l := Cert(key, caCrt.value.key, NameOf(l), ip)];
    }

    method IssueSaeCert(l: Leaf)
      requires caCrt.Some?
      modifies this
      ensures State() == IssueSae(old(State()), l)
    {
      if l in crts {
        return;
      }
      IssueCert(l, "");
    }

    method PrepareCa()
      modifies this
      ensures State() == EnsureCa(old(State()))
    {
      if !(caCrt.Some? && caCrt.value.certSign) {
        keys, crts := map[], map[];
        caKey, caCrt := Some(issued), Some(CaCert(issued, true));
        issued := issued + 1;
      }
    }

    /** Fails when a command or a copy fails; the files are then unspecified. */
    method Generate(ipA: string, ipB: string) returns (failed: bool)
      modifies this
      ensures failed == Run(old(State()), ipA, ipB).None?
      ensures !failed ==> State() == Run(old(State()), ipA, ipB).value
    {
      hide EnsureCa, Issue, IssueSae;
      PrepareCa();
      if caKey != Some(caCrt.value.key) {
        return true;
      }
      IssueLeaves(ipA, ipB);
      if !(LEAVES <= keys.Keys) {
        return true;
      }
      CopyOut();
      return false;
    }

    method IssueLeaves(ipA: string, ipB: string)
      requires caCrt.Some?
      modifies this
      ensures State() == IssueAll(old(State()), ipA, ipB)
    {
      IssueCert(KmeA, ipA);
      IssueCert(KmeB, ipB);
      IssueSaeCert(Sae);
      IssueSaeCert(SaeB);
    }

    method CopyOut()
      requires caCrt.Some? && LEAVES <= crts.Keys && LEAVES <= keys.Keys
      modifies this
      ensures State() == ExportAll(old(State()))
    {
      var bundles := map[Sae := Bundle(keys[Sae], crts[Sae]), SaeB := Bundle(keys[SaeB], crts[SaeB])];
      out := Some(Exports(caCrt.value, map l | l in LEAVES :: keys[l], map l | l in LEAVES :: crts[l], bundles));
    }
  }
}
