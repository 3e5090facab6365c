/** The two MACsec snippets (configs/ceos/), rendered with the contexts that
    `build_substitutions` gives them, and what the QKD checks read from them.  A
    rendered snippet is shown to be, character for character, what the printer of
    SakProfiles prints for the profile that the snippet configures. */
module SakTemplates {
  import opened Text
  import opened RenderTopo
  import opened LabDict
  import opened RenderValidate
  import S = SakProfiles
  import T = Topology
  import M = MgmtAddresses

  const LAYOUT := S.Layout(3, 6, 9)

  // ---- The templates --------------------------------------------------------

  /** The names for a direction: the slave's are the master's exchanged. */
  function IdKey(role: Role, rx: bool): CtxKey { if role.Master? == rx then ScRxId else ScTxId }
  function SakKey(role: Role, rx: bool): CtxKey { if role.Master? == rx then KeyRx else KeyTx }

  function ProfileLine(): seq<Seg> { [Txt(Spaces(3) + "profile "), Var(CtxText(MacsecProfile))] }
  function IdLine(role: Role, rx: bool): seq<Seg> { [Txt(Spaces(9) + "identifier "), Var(CtxText(IdKey(role, rx)))] }
  function AnLine(role: Role, rx: bool): seq<Seg> { [Txt(Spaces(9) + "an 0 key "), Var(CtxText(SakKey(role, rx)))] }

  /** The lines of quadra-macsec-master.cfg.in and quadra-macsec-slave.cfg.in;
      the first is a comment, and the file ends with a line break. */
  function MacsecLines(role: Role, comment: string): seq<seq<Seg>> {
    [[Txt(comment)], [Txt("mac security")], ProfileLine()] + BodyLines(role)
  }

  function BodyLines(role: Role): seq<seq<Seg>> {
    [[Txt(Spaces(6) + "cipher aes256-gcm-xpn")], [Txt(Spaces(6) + "key source sak static")]]
    + ([[Txt(Spaces(6) + "secure channel rx")], IdLine(role, true), AnLine(role, true)]
       + [[Txt(Spaces(6) + "secure channel tx")], IdLine(role, false), AnLine(role, false), [Txt("")]])
  }

  // ---- Lines and what they render to ----------------------------------------

  function Values(lines: seq<seq<Seg>>, m: map<string, string>): (texts: seq<string>)
    ensures |texts| == |lines| && forall i | 0 <= i < |lines| :: texts[i] == ValueOf(lines[i], m)
  {
    seq(|lines|, i requires 0 <= i < |lines| => ValueOf(lines[i], m))
  }

  lemma {:induction false} RenderValues(lines: seq<seq<Seg>>, m: map<string, string>)
    requires GoodLines(lines)
    ensures T.Render(LineStrings(lines), m) == Values(lines, m)
  {
    hide GoodLine, ValueOf, TextOf, Expand;
    if lines != [] {
      assert GoodLine(lines[0]);
      T.ExpandLine(lines[0], m);
      RenderValues(lines[1..], m);
      assert LineStrings(lines) == [TextOf(lines[0])] + LineStrings(lines[1..]);
      T.RenderCons(TextOf(lines[0]), LineStrings(lines[1..]), m);
      assert Values(lines, m) == [ValueOf(lines[0], m)] + Values(lines[1..], m);
    }
  }

  /** A text made of lines renders to the lines' values. */
  lemma AssembledValue(lines: seq<seq<Seg>>, m: map<string, string>)
    requires lines != [] && GoodLines(lines)
    ensures Expand(Assemble(lines), m) == Join(Values(lines, m), '\n')
  {
    hide Expand, GoodLines;
    RenderValues(lines, m);
    T.ExpandLines(LineStrings(lines), m);
  }

  // ---- The printed profile --------------------------------------------------

  /** A channel's two field lines and what follows. */
  function FieldText(id: string, key: string, rest: string): string {
    Spaces(9) + "identifier " + id + ("\n" + (Spaces(9) + "an 0 key " + key + ("\n" + rest)))
  }

  function SettingText(rest: string): string {
    Spaces(6) + "cipher aes256-gcm-xpn" + ("\n" + (Spaces(6) + "key source sak static" + ("\n" + rest)))
  }

  function BodyText(p: S.Profile): string {
    SettingText(Spaces(6) + "secure channel rx" + ("\n" + FieldText(p.rx.id, p.rx.key,
      Spaces(6) + "secure channel tx" + ("\n" + FieldText(p.tx.id, p.tx.key, "")))))
  }

  lemma JoinStep(a: string, rest: seq<string>)
    requires rest != []
    ensures Join([a] + rest, '\n') == a + ("\n" + Join(rest, '\n'))
  {
    assert ([a] + rest)[1..] == rest;
    ConcatAssoc(a, "\n", Join(rest, '\n'));
  }

  lemma JoinBlankLine()
    ensures Join([""], '\n') == ""
  {
  }

  lemma JoinPair(a: string, b: string, rest: seq<string>)
    requires rest != []
    ensures Join([a, b] + rest, '\n') == a + ("\n" + (b + ("\n" + Join(rest, '\n'))))
  {
    JoinStep(b, rest);
    JoinStep(a, [b] + rest);
    assert [a] + ([b] + rest) == [a, b] + rest;
  }

  lemma JoinTriple(a: string, b: string, c: string, rest: seq<string>)
    requires rest != []
    ensures Join([a, b, c] + rest, '\n') == a + ("\n" + (b + ("\n" + (c + ("\n" + Join(rest, '\n'))))))
  {
    JoinPair(b, c, rest);
    JoinStep(a, [b, c] + rest);
    assert [a] + ([b, c] + rest) == [a, b, c] + rest;
  }

  /** The profile whose channels have these values. */
  function ProfileIn(role: Role, m: map<string, string>): S.Profile
    requires forall k: CtxKey :: CtxText(k) in m
  {
    S.Profile(
      S.Channel(m[CtxText(IdKey(role, true))], 0, m[CtxText(SakKey(role, true))], false),
      S.Channel(m[CtxText(IdKey(role, false))], 0, m[CtxText(SakKey(role, false))], false))
  }

  lemma OneTxt(a: string, m: map<string, string>)
    ensures ValueOf([Txt(a)], m) == a
  {
    assert ValueOf([Txt(a)], m) == a + ValueOf([], m);
  }

  lemma ChannelLines(role: Role, rx: bool, m: map<string, string>)
    requires forall k: CtxKey :: CtxText(k) in m
    ensures ValueOf(IdLine(role, rx), m) == Spaces(9) + "identifier " + m[CtxText(IdKey(role, rx))]
    ensures ValueOf(AnLine(role, rx), m) == Spaces(9) + "an 0 key " + m[CtxText(SakKey(role, rx))]
  {
    hide ValueOf, CtxText, Spaces;
    TwoSegs(Spaces(9) + "identifier ", CtxText(IdKey(role, rx)), m);
    TwoSegs(Spaces(9) + "an 0 key ", CtxText(SakKey(role, rx)), m);
  }

  lemma ValuesConcat(a: seq<seq<Seg>>, b: seq<seq<Seg>>, m: map<string, string>)
    ensures Values(a + b, m) == Values(a, m) + Values(b, m)
  {
    hide ValueOf;
  }

  lemma SettingValues(m: map<string, string>)
    ensures Values([[Txt(Spaces(6) + "cipher aes256-gcm-xpn")], [Txt(Spaces(6) + "key source sak static")]], m)
            == [Spaces(6) + "cipher aes256-gcm-xpn", Spaces(6) + "key source sak static"]
  {
    hide ValueOf, Spaces;
    OneTxt(Spaces(6) + "cipher aes256-gcm-xpn", m);
    OneTxt(Spaces(6) + "key source sak static", m);
  }

  lemma RxValues(role: Role, m: map<string, string>)
    requires forall k: CtxKey :: CtxText(k) in m
    ensures Values([[Txt(Spaces(6) + "secure channel rx")], IdLine(role, true), AnLine(role, true)], m)
            == [Spaces(6) + "secure channel rx", Spaces(9) + "identifier " + ProfileIn(role, m).rx.id,
                Spaces(9) + "an 0 key " + ProfileIn(role, m).rx.key]
  {
    hide ValueOf, Spaces, CtxText, IdLine, AnLine;
    OneTxt(Spaces(6) + "secure channel rx", m);
    ChannelLines(role, true, m);
  }

  lemma TxValues(role: Role, m: map<string, string>)
    requires forall k: CtxKey :: CtxText(k) in m
    ensures Values([[Txt(Spaces(6) + "secure channel tx")], IdLine(role, false), AnLine(role, false), [Txt("")]], m)
            == [Spaces(6) + "secure channel tx", Spaces(9) + "identifier " + ProfileIn(role, m).tx.id,
                Spaces(9) + "an 0 key " + ProfileIn(role, m).tx.key] + [""]
  {
    hide ValueOf, Spaces, CtxText, IdLine, AnLine;
    OneTxt(Spaces(6) + "secure channel tx", m);
    OneTxt("", m);
    ChannelLines(role, false, m);
  }

  lemma BodyValue(role: Role, m: map<string, string>)
    requires forall k: CtxKey :: CtxText(k) in m
    ensures Values(BodyLines(role), m) != [] && Join(Values(BodyLines(role), m), '\n') == BodyText(ProfileIn(role, m))
  {
    hide Values, Join, Spaces, IdLine, AnLine, CtxText, ProfileIn;
    var p := ProfileIn(role, m);
    var rx := [[Txt(Spaces(6) + "secure channel rx")], IdLine(role, true), AnLine(role, true)];
    var tx := [[Txt(Spaces(6) + "secure channel tx")], IdLine(role, false), AnLine(role, false), [Txt("")]];
    SettingValues(m);
    RxValues(role, m);
    TxValues(role, m);
    ValuesConcat(rx, tx, m);
    ValuesConcat([[Txt(Spaces(6) + "cipher aes256-gcm-xpn")], [Txt(Spaces(6) + "key source sak static")]], rx + tx, m);
    JoinBlankLine();
    JoinTriple(Spaces(6) + "secure channel tx", Spaces(9) + "identifier " + p.tx.id, Spaces(9) + "an 0 key " + p.tx.key, [""]);
    JoinTriple(Spaces(6) + "secure channel rx", Spaces(9) + "identifier " + p.rx.id, Spaces(9) + "an 0 key " + p.rx.key,
               Values(tx, m));
    JoinPair(Spaces(6) + "cipher aes256-gcm-xpn", Spaces(6) + "key source sak static", Values(rx + tx, m));
  }

  lemma Regrouped(a: string, b: string, c: string, d: string, e: string)
    ensures a + b + (c + (d + e)) == a + (b + c + d + e)
  {
    ConcatAssoc(a, b, c + (d + e));
    ConcatAssoc(b, c, d + e);
    ConcatAssoc(b + c, d, e);
  }

  lemma AnShape(x: string)
    ensures "an " + ("0" + (" key" + (" " + x))) == "an 0 key " + x
  {
    ConcatAssoc(" key", " ", x);
    ConcatAssoc("0", " key ", x);
    ConcatAssoc("an ", "0 key ", x);
    assert " key" + " " == " key " && "0" + " key " == "0 key " && "an " + "0 key " == "an 0 key ";
  }

  /** The printer of the round-trip theorems prints the same text. */
  lemma FieldsPrinted(c: S.Channel, z: string)
    requires c.an == 0 && !c.encrypted
    ensures S.Fields(LAYOUT, c, z) == "\n" + FieldText(c.id, c.key, z)
  {
    hide Spaces;
    var key, id := c.key, c.id;
    ZeroText(c);
    AnShape(key + ("\n" + z));
    Regrouped("\n", Spaces(9), "an 0 key ", key, "\n" + z);
    Regrouped("\n", Spaces(9), "identifier ", id, "\n" + (Spaces(9) + "an 0 key " + key + ("\n" + z)));
  }

  lemma ZeroText(c: S.Channel)
    requires c.an == 0 && !c.encrypted
    ensures M.Decimal(c.an) == "0" && S.KeyText(c) == c.key
  {
    assert "" + c.key == c.key;
  }

  lemma SettingsPrinted(rest: string)
    ensures "\n" + SettingText(Spaces(6) + rest) == S.Settings(LAYOUT) + rest
  {
    hide Spaces;
    S.SettingWords();
    var a, b, i := "cipher aes256-gcm-xpn", "key source sak static", Spaces(6);
    assert S.SettingLines(LAYOUT) == "" + ("\n" + (i + a + ("\n" + (i + b))));
    SettingShape(i + a, i + b, i, rest);
  }

  lemma SettingShape(a: string, b: string, i: string, rest: string)
    ensures "\n" + (a + ("\n" + (b + ("\n" + (i + rest))))) == ("" + ("\n" + (a + ("\n" + b)))) + ("\n" + i) + rest
  {
    ConcatAssoc("\n", i, rest);
    ConcatAssoc(b, "\n" + i, rest);
    ConcatAssoc("\n", b + ("\n" + i), rest);
    ConcatAssoc("\n", b, "\n" + i);
    ConcatAssoc(a, "\n" + b + ("\n" + i), rest);
    ConcatAssoc(a, "\n" + b, "\n" + i);
    ConcatAssoc("\n", a + ("\n" + b) + ("\n" + i), rest);
    ConcatAssoc("\n", a + ("\n" + b), "\n" + i);
  }

  lemma BodyPrinted(p: S.Profile)
    requires p.rx.an == 0 && !p.rx.encrypted && p.tx.an == 0 && !p.tx.encrypted
    ensures "\n" + BodyText(p) == S.Body(LAYOUT, p, "")
  {
    hide Spaces, S.Fields, FieldText, SettingText, S.Settings;
    var tx := S.ChannelText(LAYOUT, "tx", p.tx, "");
    FieldsPrinted(p.tx, "");
    ChannelShape("tx", FieldText(p.tx.id, p.tx.key, ""));
    FieldsPrinted(p.rx, Spaces(6) + tx);
    ChannelShape("rx", FieldText(p.rx.id, p.rx.key, Spaces(6) + tx));
    ConcatAssoc(Spaces(6), "secure channel tx", "\n" + FieldText(p.tx.id, p.tx.key, ""));
    ConcatAssoc(Spaces(6), "secure channel rx", "\n" + FieldText(p.rx.id, p.rx.key, Spaces(6) + tx));
    SettingsPrinted(S.ChannelText(LAYOUT, "rx", p.rx, Spaces(6) + tx));
  }

  lemma ChannelShape(dir: string, f: string)
    requires dir == "rx" || dir == "tx"
    ensures "secure channel " + (dir + ("\n" + f)) == (if dir == "rx" then "secure channel rx" else "secure channel tx") + ("\n" + f)
  {
    ConcatAssoc("secure channel ", dir, "\n" + f);
    assert "secure channel " + "rx" == "secure channel rx" && "secure channel " + "tx" == "secure channel tx";
  }

  // ---- What is read from the rendered snippets ------------------------------

  lemma ContextNames(role: Role, s: Subnets)
    ensures forall k: CtxKey :: CtxText(k) in ToMap(Context(role, s))
  {
    hide CtxText, ToMap, Context;
    forall k: CtxKey ensures CtxText(k) in ToMap(Context(role, s)) { ContextHolds(k, role, s); }
  }

  function Name(role: Role): string { if role.Master? then "quadra-master" else "quadra-slave" }

  /** What comes before the profile line. */
  function Front(comment: string): string { comment + ("\n" + ("mac security\n" + Spaces(3))) }

  predicate GoodComment(comment: string) { '$' !in comment && '\n' !in comment && !Contains(comment, "profile ") }

  lemma FixedTexts()
    ensures '$' !in "mac security" && '$' !in "profile " && '$' !in "identifier " && '$' !in "an 0 key "
    ensures '$' !in "cipher aes256-gcm-xpn" && '$' !in "key source sak static"
    ensures '$' !in "secure channel rx" && '$' !in "secure channel tx"
  {
  }

  lemma IndentedTxt(n: nat, a: string)
    requires '$' !in a
    ensures '$' !in Spaces(n) + a && GoodLine([Txt(Spaces(n) + a)])
  {
  }

  lemma IndentedVar(n: nat, a: string, x: string)
    requires '$' !in a && IsName(x)
    ensures GoodLine([Txt(Spaces(n) + a), Var(x)])
  {
  }

  lemma GoodChannelLines(role: Role, rx: bool)
    ensures GoodLine(IdLine(role, rx)) && GoodLine(AnLine(role, rx)) && GoodLine(ProfileLine())
  {
    hide GoodLine, CtxText, IsName;
    FixedTexts();
    CtxNames(IdKey(role, rx));
    CtxNames(SakKey(role, rx));
    CtxNames(MacsecProfile);
    IndentedVar(9, "identifier ", CtxText(IdKey(role, rx)));
    IndentedVar(9, "an 0 key ", CtxText(SakKey(role, rx)));
    IndentedVar(3, "profile ", CtxText(MacsecProfile));
  }

  lemma GoodMacsecLines(role: Role, comment: string)
    requires GoodComment(comment)
    ensures GoodLines(MacsecLines(role, comment))
  {
    hide GoodLine, IdLine, AnLine, ProfileLine, Contains, Spaces;
    FixedTexts();
    GoodChannelLines(role, true);
    GoodChannelLines(role, false);
    IndentedTxt(6, "cipher aes256-gcm-xpn");
    IndentedTxt(6, "key source sak static");
    IndentedTxt(6, "secure channel rx");
    IndentedTxt(6, "secure channel tx");
    T.GoodTxt(comment);
    T.GoodTxt("mac security");
    T.GoodTxt("");
  }

  /** A rendered snippet is a printed profile after its comment. */
  lemma SnippetPrinted(role: Role, comment: string, m: map<string, string>)
    requires GoodComment(comment) && forall k: CtxKey :: CtxText(k) in m
    ensures Expand(Assemble(MacsecLines(role, comment)), m) ==
            Front(comment) + (S.Profiles(LAYOUT, [(m[CtxText(MacsecProfile)], ProfileIn(role, m))]) + "")
  {
    hide GoodComment, GoodLines, Expand, Values, Join, BodyLines, CtxText, ProfileIn, Spaces, BodyText, S.Body, ValueOf;
    var name, p, lines := m[CtxText(MacsecProfile)], ProfileIn(role, m), MacsecLines(role, comment);
    GoodMacsecLines(role, comment);
    AssembledValue(lines, m);
    FrontValues(comment, m);
    ValuesConcat([[Txt(comment)], [Txt("mac security")], ProfileLine()], BodyLines(role), m);
    BodyValue(role, m);
    JoinTriple(comment, "mac security", Spaces(3) + "profile " + name, Values(BodyLines(role), m));
    PrintedOne(name, p, role, m);
    FrontShape(comment, name, BodyText(p));
  }

  lemma FrontValues(comment: string, m: map<string, string>)
    requires CtxText(MacsecProfile) in m
    ensures Values([[Txt(comment)], [Txt("mac security")], ProfileLine()], m)
            == [comment, "mac security", Spaces(3) + "profile " + m[CtxText(MacsecProfile)]]
  {
    hide ValueOf, CtxText, Spaces;
    OneTxt(comment, m);
    OneTxt("mac security", m);
    TwoSegs(Spaces(3) + "profile ", CtxText(MacsecProfile), m);
  }

  lemma PrintedOne(name: string, p: S.Profile, role: Role, m: map<string, string>)
    requires (forall k: CtxKey :: CtxText(k) in m) && p == ProfileIn(role, m)
    ensures S.Profiles(LAYOUT, [(name, p)]) + "" == "profile " + (name + ("\n" + BodyText(p)))
  {
    hide BodyText, S.Body, Spaces, CtxText;
    BodyPrinted(p);
    S.NoSpaces();
    assert S.Profiles(LAYOUT, []) == "";
    assert [(name, p)][1..] == [];
    assert S.Body(LAYOUT, p, "") + "" == S.Body(LAYOUT, p, "");
    var all := "profile " + (name + ("\n" + BodyText(p)));
    assert all + "" == all;
  }

  lemma FrontShape(comment: string, name: string, body: string)
    ensures comment + ("\n" + ("mac security" + ("\n" + (Spaces(3) + "profile " + name + ("\n" + body)))))
            == Front(comment) + ("profile " + (name + ("\n" + body)))
  {
    hide Spaces;
    var i, r := Spaces(3), "\n" + body;
    ConcatAssoc(i, "profile ", name);
    ConcatAssoc(i, "profile " + name, r);
    ConcatAssoc("profile ", name, r);
    var x := "profile " + (name + r);
    ConcatAssoc("mac security", "\n", i + x);
    assert "mac security" + "\n" == "mac security\n";
    ConcatAssoc("mac security\n", i, x);
    ConcatAssoc("\n", "mac security\n" + i, x);
    ConcatAssoc(comment, "\n" + ("mac security\n" + i), x);
  }

  lemma FrontLacks(comment: string)
    requires GoodComment(comment)
    ensures !Contains(Front(comment), "profile ")
  {
    hide Contains;
    S.ProfileLone();
    EmptyLacks("profile ");
    S.SpacesLack(3, "", "profile ");
    assert Spaces(3) + "" == Spaces(3);
    MacLacks();
    ContainsAround("mac security", '\n', Spaces(3), "profile ");
    assert "mac security\n" + Spaces(3) == "mac security" + (['\n'] + Spaces(3));
    ContainsAround(comment, '\n', "mac security\n" + Spaces(3), "profile ");
  }

  lemma MacLacks()
    ensures !Contains("mac security", "profile ")
  {
    CharLacks("mac security", "profile ");
  }

  lemma WordsOfIds()
    ensures S.Word(QUADRA_SC_RX_ID) && S.Word(QUADRA_SC_TX_ID)
  {
  }

  lemma WordOfRxKey()
    ensures S.Word(QUADRA_KEY_RX) && |QUADRA_KEY_RX| >= 2
  {
  }

  lemma WordOfTxKey()
    ensures S.Word(QUADRA_KEY_TX) && |QUADRA_KEY_TX| >= 2
  {
  }

  lemma WordOfName(role: Role)
    ensures S.Word(Name(role))
  {
  }

  /** The profile that the master's snippet configures. */
  function MasterProfile(): S.Profile {
    S.Profile(S.Channel(QUADRA_SC_RX_ID, 0, QUADRA_KEY_RX, false), S.Channel(QUADRA_SC_TX_ID, 0, QUADRA_KEY_TX, false))
  }

  function ProfileOf(role: Role): S.Profile { if role.Master? then MasterProfile() else S.Mirror(MasterProfile()) }

  lemma ContextProfile(role: Role, s: Subnets)
    requires forall k: CtxKey :: CtxText(k) in ToMap(Context(role, s))
    ensures ProfileIn(role, ToMap(Context(role, s))) == ProfileOf(role)
    ensures ToMap(Context(role, s))[CtxText(MacsecProfile)] == Name(role)
  {
    hide CtxText, ToMap, Context;
    ContextHolds(ScRxId, role, s);
    ContextHolds(ScTxId, role, s);
    ContextHolds(KeyRx, role, s);
    ContextHolds(KeyTx, role, s);
    ContextHolds(MacsecProfile, role, s);
  }

  lemma GoodOne(role: Role)
    ensures S.GoodSet([(Name(role), ProfileOf(role))])
    ensures |ProfileOf(role).rx.key| >= 2 && |ProfileOf(role).tx.key| >= 2
  {
    hide S.Word;
    WordsOfIds();
    WordOfRxKey();
    WordOfTxKey();
    WordOfName(role);
  }

  /** Each rendered snippet is read back as the profile it configures, whatever
      the subnets and the comment in front. */
  lemma SnippetParses(role: Role, s: Subnets, comment: string)
    requires GoodComment(comment)
    ensures S.ParseProfile(Expand(Assemble(MacsecLines(role, comment)), ToMap(Context(role, s))), Name(role))
            == S.Ok(ProfileOf(role))
  {
    hide *;
    ContextNames(role, s);
    SnippetPrinted(role, comment, ToMap(Context(role, s)));
    ContextProfile(role, s);
    GoodOne(role);
    FrontLacks(comment);
    NothingAfter();
    S.RoundTrip(Front(comment), LAYOUT, [(Name(role), ProfileOf(role))], "", 0);
  }

  lemma NothingAfter()
    ensures S.AfterLast("")
  {
  }

  /** The two snippets mirror each other, so what is read from them passes the
      checks of the channel identifiers, association numbers and keys. */
  lemma SnippetsMirror(s: Subnets, commentM: string, commentS: string)
    requires GoodComment(commentM) && GoodComment(commentS)
    ensures var m := S.ParseProfile(Expand(Assemble(MacsecLines(Master, commentM)), ToMap(Context(Master, s))), Name(Master));
            var v := S.ParseProfile(Expand(Assemble(MacsecLines(Slave, commentS)), ToMap(Context(Slave, s))), Name(Slave));
            m.Ok? && v.Ok? && v.value == S.Mirror(m.value) && S.Passes(m.value, v.value)
  {
    hide S.ParseProfile, Expand, Assemble, MacsecLines, ToMap, Context, GoodComment;
    SnippetParses(Master, s, commentM);
    SnippetParses(Slave, s, commentS);
  }
}
