/** Reading static SAK profiles from running-config (lab/test_macsec_qkd.py), in
    the layout of the QuaDRA templates.  The two regular expressions and the
    splitting are modelled on the text itself.  A printed configuration is a
    list of lines, each a list of words, and everything the parser looks for is
    a word followed by a space; so the proofs say where such a word can occur,
    line by line, and only then what is found there. */
module SakProfiles {
  import opened Text
  import M = MgmtAddresses

  // ---- The two regular expressions ------------------------------------------

  predicate IsDigit(c: char) { '0' <= c <= '9' }

  predicate AllDigits(s: string) { forall i | 0 <= i < |s| :: IsDigit(s[i]) }

  function TakeDigits(s: string): (d: string)
    ensures |d| <= |s| && AllDigits(d)
  {
    if s != "" && IsDigit(s[0]) then [s[0]] + TakeDigits(s[1..]) else ""
  }

  function TakeToken(s: string): string {
    if s != "" && !IsSpace(s[0]) then [s[0]] + TakeToken(s[1..]) else ""
  }

  function TakeLine(s: string): string {
    if s != "" && s[0] != '\n' then [s[0]] + TakeLine(s[1..]) else ""
  }

  /** IDENTIFIER_RE, `identifier\s+(\S+)`, at the front of a text. */
  function IdHead(s: string): Option<string> {
    if !StartsWith(s, "identifier") then None
    else
      var u := s[10..];
      var v := LStrip(u);
      if |v| == |u| || v == "" then None else Some(TakeToken(v))
  }

  /** The leftmost match. */
  function SearchId(s: string): Option<string> {
    if IdHead(s).Some? then IdHead(s) else if s == "" then None else SearchId(s[1..])
  }

  /** The last character that is no line break, past the first. */
  function LastNonBreak(s: string): Option<char> {
    if |s| <= 1 then None
    else if s[|s| - 1] != '\n' then Some(s[|s| - 1])
    else LastNonBreak(s[..|s| - 1])
  }

  /** `\s+(.+)` at the front: the rest of the line after the white space; with
      nothing but white space left, the matcher gives some of it back. */
  function RestHead(s: string): Option<string> {
    var v := LStrip(s);
    if |v| == |s| then None
    else if v != "" then Some(TakeLine(v))
    else match LastNonBreak(s) { case Some(c) => Some([c]) case None => None }
  }

  /** `(?:\s+(\d))?\s+(.+)` at the front: the digit, if any, and the rest. */
  function KeyHead(s: string): Option<(Option<char>, string)> {
    var v := LStrip(s);
    var flagged := if |v| < |s| && v != "" && IsDigit(v[0]) then RestHead(v[1..]) else None;
    if flagged.Some? then Some((Some(v[0]), flagged.value))
    else match RestHead(s) { case Some(r) => Some((None, r)) case None => None }
  }

  datatype KeyLine = KeyLine(an: nat, flag: Option<char>, key: string)

  /** `int` of decimal digits. */
  function ReadDecimal(s: string): nat
    requires AllDigits(s)
  {
    if s == "" then 0
    else
      var c := s[|s| - 1];
      assert IsDigit(c);
      ReadDecimal(s[..|s| - 1]) * 10 + (c - '0') as nat
  }

  /** SAK_KEY_LINE_RE, `an\s+(\d+)\s+key(?:\s+(\d))?\s+(.+)`, at the front. */
  function AnHead(s: string): Option<KeyLine> {
    if !StartsWith(s, "an") then None
    else
      var u := s[2..];
      var v := LStrip(u);
      var d := TakeDigits(v);
      if |v| == |u| || d == "" then None
      else
        var w := v[|d|..];
        var x := LStrip(w);
        if |x| == |w| || !StartsWith(x, "key") then None
        else match KeyHead(x[3..]) { case Some((flag, key)) => Some(KeyLine(ReadDecimal(d), flag, key)) case None => None }
  }

  function SearchAn(s: string): Option<KeyLine> {
    if AnHead(s).Some? then AnHead(s) else if s == "" then None else SearchAn(s[1..])
  }

  // ---- The parser -----------------------------------------------------------

  datatype Channel = Channel(id: string, an: nat, key: string, encrypted: bool)
  datatype Profile = Profile(rx: Channel, tx: Channel)

  datatype Parsed<T> =
    | Ok(value: T)
    | MissingProfile
    | NotStaticSak
    | WrongCipher
    | MissingChannel
    | IncompleteChannel

  const STOPS := ["profile ", "interface ", "daemon ", "dot1x ", "mac security\n"]

  /** `block.split(stop, 1)[0]` */
  function CutAt(s: string, stop: string): string {
    var i := Find(s, stop);
    if i == -1 then s else s[..i]
  }

  function CutAll(s: string, stops: seq<string>): string {
    if stops == [] then s else CutAt(CutAll(s, stops[..|stops| - 1]), stops[|stops| - 1])
  }

  function ProfileBlock(config: string, name: string): Option<string> {
    var marker := "profile " + name;
    var i := Find(config, marker);
    if i == -1 then None else Some(CutAll(config[i + |marker|..], STOPS))
  }

  function ReadChannel(section: string): Parsed<Channel> {
    match (SearchId(section), SearchAn(section))
    case (Some(id), Some(k)) =>
      Ok(Channel(id, k.an, Strip(k.key), k.flag == Some('7')))
    case _ => IncompleteChannel
  }

  function ParseChannel(block: string, direction: string): Parsed<Channel> {
    var marker := "secure channel " + direction;
    var i := Find(block, marker);
    if i == -1 then MissingChannel else ReadChannel(CutAt(block[i + |marker|..], "secure channel"))
  }

  /** `parse_static_sak_profile` */
  function ParseProfile(config: string, name: string): Parsed<Profile> {
    match ProfileBlock(config, name)
    case None => MissingProfile
    case Some(block) =>
      if !Contains(block, "key source sak static") then NotStaticSak
      else if !Contains(block, "cipher aes256-gcm-xpn") then WrongCipher
      else
        match (ParseChannel(block, "rx"), ParseChannel(block, "tx"))
        case (Ok(rx), Ok(tx)) => Ok(Profile(rx, tx))
        case (Ok(_), MissingChannel) => MissingChannel
        case (Ok(_), _) => IncompleteChannel
        case (MissingChannel, _) => MissingChannel
        case _ => IncompleteChannel
  }

  /** `_profile_config_block`, which narrows the block stop by stop. */
  method ProfileConfigBlock(config: string, name: string) returns (block: Option<string>)
    ensures block == ProfileBlock(config, name)
  {
    hide Find;
    var marker := "profile " + name;
    if !Contains(config, marker) {
      return None;
    }
    var b := config[Find(config, marker) + |marker|..];
    ghost var start := b;
    for i := 0 to |STOPS|
      invariant b == CutAll(start, STOPS[..i])
    {
      assert STOPS[..i + 1][..i] == STOPS[..i];
      if Contains(b, STOPS[i]) {
        b := b[..Find(b, STOPS[i])];
      }
    }
    assert STOPS[..|STOPS|] == STOPS;
    return Some(b);
  }

  // ---- The template layout --------------------------------------------------

  /** Indents of the profile line, of its settings and of a channel's fields. */
  datatype Layout = Layout(profile: nat, body: nat, field: nat)

  function KeyText(c: Channel): string { (if c.encrypted then "7 " else "") + c.key }

  /** What follows the word `key`. */
  function AfterKey(c: Channel, z: string): string { " " + (KeyText(c) + ("\n" + z)) }

  function AnText(c: Channel, z: string): string { "an " + (M.Decimal(c.an) + (" key" + AfterKey(c, z))) }

  /** A channel's two field lines; `z` is what comes after them. */
  function Fields(ly: Layout, c: Channel, z: string): string {
    "\n" + Spaces(ly.field) + ("identifier " + (c.id + ("\n" + Spaces(ly.field) + AnText(c, z))))
  }

  /** One visible word. */
  predicate Word(s: string) { s != "" && forall i | 0 <= i < |s| :: !IsSpace(s[i]) }

  predicate GoodChannel(c: Channel) { Word(c.id) && Word(c.key) }

  // ---- Matching the printed fields ------------------------------------------

  lemma {:induction false} TakeTokenIs(w: string, t: string)
    requires (forall i | 0 <= i < |w| :: !IsSpace(w[i])) && (t == "" || IsSpace(t[0]))
    ensures TakeToken(w + t) == w
  {
    if w == "" {
      assert w + t == t;
    } else {
      assert (w + t)[1..] == w[1..] + t;
      TakeTokenIs(w[1..], t);
    }
  }

  lemma {:induction false} TakeLineIs(w: string, t: string)
    requires '\n' !in w && (t == "" || t[0] == '\n')
    ensures TakeLine(w + t) == w
  {
    if w == "" {
      assert w + t == t;
    } else {
      assert (w + t)[1..] == w[1..] + t;
      assert '\n' !in w[1..];
      TakeLineIs(w[1..], t);
    }
  }

  lemma {:induction false} TakeDigitsIs(d: string, t: string)
    requires AllDigits(d) && (t == "" || !IsDigit(t[0]))
    ensures TakeDigits(d + t) == d
  {
    if d == "" {
      assert d + t == t;
    } else {
      assert (d + t)[1..] == d[1..] + t;
      assert IsDigit(d[0]) && AllDigits(d[1..]);
      TakeDigitsIs(d[1..], t);
    }
  }

  lemma {:induction false} DecimalReads(n: nat)
    ensures AllDigits(M.Decimal(n)) && M.Decimal(n) != "" && ReadDecimal(M.Decimal(n)) == n
  {
    var d := M.Decimal(n);
    if n >= 10 {
      DecimalReads(n / 10);
      assert d[..|d| - 1] == M.Decimal(n / 10);
    } else {
      assert d[..|d| - 1] == "";
    }
  }

  /** The search passes over text that has no first letter of the pattern. */
  lemma {:induction false} SearchIdSkips(a: string, b: string)
    requires 'i' !in a
    ensures SearchId(a + b) == SearchId(b)
  {
    if a == "" {
      assert a + b == b;
    } else {
      assert (a + b)[1..] == a[1..] + b && (a + b)[0] != 'i';
      assert 'i' !in a[1..];
      HeadLetter(a + b);
      SearchIdSkips(a[1..], b);
    }
  }

  lemma StartsAt(s: string, p: string, i: nat)
    requires StartsWith(s, p) && i < |p|
    ensures s[i] == p[i]
  {
    assert s[..|p|][i] == s[i];
  }

  lemma HeadLetter(s: string)
    requires s != ""
    ensures s[0] != 'i' ==> IdHead(s).None?
    ensures s[0] != 'a' || (|s| > 1 && s[1] != 'n') ==> AnHead(s).None?
  {
    hide LStrip, TakeToken, TakeDigits, KeyHead, StartsWith;
    if StartsWith(s, "identifier") { StartsAt(s, "identifier", 0); }
    if StartsWith(s, "an") {
      StartsAt(s, "an", 0);
      if |s| > 1 { StartsAt(s, "an", 1); }
    }
  }

  lemma {:induction false} SearchAnSkips(a: string, b: string)
    requires 'a' !in a
    ensures SearchAn(a + b) == SearchAn(b)
  {
    if a == "" {
      assert a + b == b;
    } else {
      assert (a + b)[1..] == a[1..] + b && (a + b)[0] != 'a';
      assert 'a' !in a[1..];
      HeadLetter(a + b);
      SearchAnSkips(a[1..], b);
    }
  }

  lemma WordVisible(w: string)
    requires Word(w)
    ensures '\n' !in w && ' ' !in w && Strip(w) == w && !IsSpace(w[0])
  {
  }

  lemma IdFound(w: string, t: string)
    requires Word(w) && t != "" && IsSpace(t[0])
    ensures IdHead("identifier " + (w + t)) == Some(w)
  {
    var s := "identifier " + (w + t);
    assert s == "identifier" + (" " + (w + t));
    assert s[..10] == "identifier" && s[10..] == " " + (w + t);
    LStripVisible(" ", w + t);
    TakeTokenIs(w, t);
  }

  /** An identifier that ends in the letters of `an` does not start a match: the
      next line does not go on with a digit. */
  lemma {:induction false} SearchAnSkipsWord(w: string, indent: string, t: string)
    requires Word(w) && Blank(indent) && indent != "" && indent[0] == '\n' && t != "" && t[0] == 'a'
    ensures SearchAn(w + (indent + t)) == SearchAn(indent + t)
  {
    hide LStrip, KeyHead, IsSpace;
    var s := w + (indent + t);
    assert s[1..] == w[1..] + (indent + t);
    NoAnHead(w, indent, t);
    if |w| > 1 {
      assert Word(w[1..]);
      SearchAnSkipsWord(w[1..], indent, t);
    } else {
      assert s[1..] == indent + t;
    }
  }

  lemma NoAnHead(w: string, indent: string, t: string)
    requires Word(w) && Blank(indent) && indent != "" && indent[0] == '\n' && t != "" && t[0] == 'a'
    ensures AnHead(w + (indent + t)).None?
  {
    hide LStrip, KeyHead;
    var s := w + (indent + t);
    if |w| == 1 {
      assert s[1] == '\n';
      HeadLetter(s);
    } else if |w| == 2 {
      assert s[2..] == indent + t;
      LStripVisible(indent, t);
      assert TakeDigits(t) == "";
    } else {
      assert s[2..][0] == w[2];
      FrontVisible(s[2..]);
    }
  }

  lemma FrontVisible(s: string)
    requires s != "" && !IsSpace(s[0])
    ensures LStrip(s) == s
  {
  }

  lemma AnHeadIs(s: string, v: string, d: string, x: string)
    requires StartsWith(s, "an") && LStrip(s[2..]) == v && |v| < |s| - 2
    requires TakeDigits(v) == d && d != "" && LStrip(v[|d|..]) == x && |x| < |v| - |d|
    requires StartsWith(x, "key") && KeyHead(x[3..]).Some?
    ensures AnHead(s) == Some(KeyLine(ReadDecimal(d), KeyHead(x[3..]).value.0, KeyHead(x[3..]).value.1))
  {
    hide LStrip, KeyHead, TakeDigits, ReadDecimal, StartsWith;
  }

  lemma NumberHead(d: string, tail: string)
    requires AllDigits(d) && d != "" && KeyHead(tail).Some?
    ensures AnHead("an" + " " + (d + (" key" + tail))) ==
      Some(KeyLine(ReadDecimal(d), KeyHead(tail).value.0, KeyHead(tail).value.1))
  {
    hide LStrip, KeyHead, AnHead, ReadDecimal, TakeDigits, StartsWith, IsSpace;
    var v := d + (" key" + tail);
    DigitFront(d, " key" + tail);
    SpacedFront("an", v);
    TakeDigitsIs(d, " key" + tail);
    KeyFront(d, tail);
    AnHeadIs("an" + " " + v, v, d, "key" + tail);
  }

  lemma DigitFront(d: string, t: string)
    requires AllDigits(d) && d != ""
    ensures !IsSpace((d + t)[0])
  {
    assert IsDigit(d[0]);
  }

  /** A key line is read as its number, its flag and its key. */
  lemma AnFound(c: Channel, z: string)
    requires KeyHead(AfterKey(c, z)).Some?
    ensures AnHead(AnText(c, z)) ==
      Some(KeyLine(c.an, KeyHead(AfterKey(c, z)).value.0, KeyHead(AfterKey(c, z)).value.1))
  {
    hide KeyHead, AfterKey, AnHead, ReadDecimal, M.Decimal;
    var d := M.Decimal(c.an);
    DecimalReads(c.an);
    NumberHead(d, AfterKey(c, z));
    assert AnText(c, z) == "an" + " " + (d + (" key" + AfterKey(c, z)));
  }

  lemma SpacedFront(a: string, v: string)
    requires v != "" && !IsSpace(v[0])
    ensures var s := a + " " + v; StartsWith(s, a) && LStrip(s[|a|..]) == v && |v| < |s| - |a|
  {
    hide LStrip, IsSpace;
    SpaceIs();
    var s := a + " " + v;
    assert s[..|a|] == a && s[|a|..] == " " + v;
    LStripVisible(" ", v);
  }

  lemma KeyFront(d: string, tail: string)
    ensures var v := d + (" key" + tail);
      && LStrip(v[|d|..]) == "key" + tail && |"key" + tail| < |v| - |d|
      && StartsWith("key" + tail, "key") && ("key" + tail)[3..] == tail
  {
    hide LStrip, IsSpace;
    SpaceIs();
    var v := d + (" key" + tail);
    assert v[|d|..] == " " + ("key" + tail);
    LStripVisible(" ", "key" + tail);
  }

  // ---- The key itself -------------------------------------------------------

  lemma RestFound(w: string, z: string)
    requires Word(w)
    ensures RestHead(" " + (w + ("\n" + z))) == Some(w)
  {
    WordVisible(w);
    LStripVisible(" ", w + ("\n" + z));
    TakeLineIs(w, "\n" + z);
  }

  lemma EncryptedKey(c: Channel, z: string)
    requires Word(c.key) && c.encrypted
    ensures KeyHead(AfterKey(c, z)) == Some((Some('7'), c.key))
  {
    hide LStrip, RestHead;
    var rest := " " + (c.key + ("\n" + z));
    assert AfterKey(c, z) == " " + ("7" + rest);
    LStripVisible(" ", "7" + rest);
    assert ("7" + rest)[1..] == rest;
    RestFound(c.key, z);
  }

  /** A plain key of one digit is taken for the key's type, and white space on
      the next line for the key. */
  predicate Swallowed(c: Channel, z: string) {
    !c.encrypted && |c.key| == 1 && IsDigit(c.key[0]) && LastNonBreak("\n" + z).Some?
  }

  lemma PlainKeyExactly(c: Channel, z: string)
    requires Word(c.key) && !c.encrypted && Blank(z)
    ensures KeyHead(AfterKey(c, z)).Some?
    ensures !Swallowed(c, z) ==> KeyHead(AfterKey(c, z)).value == (None, c.key)
    ensures Swallowed(c, z) ==> Blank(KeyHead(AfterKey(c, z)).value.1)
  {
    hide LStrip, LastNonBreak, RestHead, KeyHead, IsSpace, Word;
    assert AfterKey(c, z) == " " + (c.key + ("\n" + z));
    PlainKey(c.key, z);
  }

  lemma PlainKey(k: string, z: string)
    requires Word(k) && Blank(z)
    ensures var r := KeyHead(" " + (k + ("\n" + z)));
      if |k| == 1 && IsDigit(k[0]) && LastNonBreak("\n" + z).Some? then r.Some? && r.value.0.Some? && Blank(r.value.1)
      else r == Some((None, k))
  {
    hide LStrip, LastNonBreak, RestHead, KeyHead;
    var post := "\n" + z;
    var v := k + post;
    RestFound(k, z);
    assert v[0] == k[0];
    KeyHeadIs(v);
    if |k| >= 2 {
      var u := v[1..];
      assert u[0] == k[1];
      FrontVisible(u);
      RestFront(u);
    } else {
      assert v[1..] == post;
      RestBlank(post);
    }
  }

  lemma {:induction false} LastNonBreakIn(s: string)
    requires Blank(s) && LastNonBreak(s).Some?
    ensures IsSpace(LastNonBreak(s).value)
  {
    if s[|s| - 1] == '\n' { LastNonBreakIn(s[..|s| - 1]); }
  }

  lemma KeyHeadIs(v: string)
    requires v != "" && !IsSpace(v[0]) && RestHead(" " + v).Some?
    ensures KeyHead(" " + v) ==
      if IsDigit(v[0]) && RestHead(v[1..]).Some? then Some((Some(v[0]), RestHead(v[1..]).value))
      else Some((None, RestHead(" " + v).value))
  {
    hide RestHead, LStrip;
    LStripVisible(" ", v);
  }

  lemma RestFront(s: string)
    requires LStrip(s) == s
    ensures RestHead(s).None?
  {
  }

  lemma RestBlank(s: string)
    requires Blank(s) && s != ""
    ensures RestHead(s).Some? <==> LastNonBreak(s).Some?
    ensures RestHead(s).Some? ==> Blank(RestHead(s).value)
  {
    if LastNonBreak(s).Some? { LastNonBreakIn(s); }
    LStripVisible(s, "");
    assert s + "" == s;
  }

  lemma BlankStrips(s: string)
    requires Blank(s)
    ensures Strip(s) == ""
  {
    RStripBlank("", s);
    assert "" + s == s;
  }

  /** The two field lines are read back, except for a swallowed key. */
  lemma FieldsRead(ly: Layout, c: Channel, z: string)
    requires GoodChannel(c) && Blank(z)
    ensures ReadChannel(Fields(ly, c, z)).Ok?
    ensures ReadChannel(Fields(ly, c, z)) == Ok(c) <==> !Swallowed(c, z)
  {
    hide SearchId, SearchAn, KeyHead, AfterKey, Strip, Swallowed, AnText, Fields;
    FieldsId(ly, c, z);
    if c.encrypted { EncryptedKey(c, z); } else { PlainKeyExactly(c, z); }
    FieldsAn(ly, c, z);
    WordVisible(c.key);
    NotSwallowed(c, z);
    if Swallowed(c, z) { BlankStrips(KeyHead(AfterKey(c, z)).value.1); }
  }

  lemma NotSwallowed(c: Channel, z: string)
    ensures c.encrypted ==> !Swallowed(c, z)
  {
  }

  lemma FieldsId(ly: Layout, c: Channel, z: string)
    requires GoodChannel(c)
    ensures SearchId(Fields(ly, c, z)) == Some(c.id)
  {
    hide AnText, IdHead, LStrip;
    var post := "\n" + Spaces(ly.field) + AnText(c, z);
    SearchIdSkips("\n" + Spaces(ly.field), "identifier " + (c.id + post));
    IdFound(c.id, post);
  }

  lemma FieldsAn(ly: Layout, c: Channel, z: string)
    requires GoodChannel(c) && KeyHead(AfterKey(c, z)).Some?
    ensures SearchAn(Fields(ly, c, z)) ==
      Some(KeyLine(c.an, KeyHead(AfterKey(c, z)).value.0, KeyHead(AfterKey(c, z)).value.1))
  {
    hide AnText, AnHead, LStrip, KeyHead, AfterKey;
    var indent := "\n" + Spaces(ly.field);
    var t := AnText(c, z);
    assert indent + t == "\n" + Spaces(ly.field) + t;
    SearchAnSkips(indent, "identifier " + (c.id + (indent + t)));
    SearchAnSkips("identifier ", c.id + (indent + t));
    AnTextFront(c, z);
    SearchAnSkipsWord(c.id, indent, t);
    SearchAnSkips(indent, t);
    AnFound(c, z);
  }

  lemma AnTextFront(c: Channel, z: string)
    ensures AnText(c, z) != "" && AnText(c, z)[0] == 'a'
  {
  }

  // ---- What the patterns match, on any text ---------------------------------

  ghost predicate Gap1(w: string) { w != "" && Blank(w) }

  /** `identifier`, white space, and a word that ends there. */
  ghost predicate IdMatch(s: string, w: string, t: string, r: string) {
    s == "identifier" + w + t + r && Gap1(w) && Word(t) && (r == "" || IsSpace(r[0]))
  }

  lemma {:induction false} TokenIs(s: string)
    ensures TakeToken(s) <= s && (forall i | 0 <= i < |TakeToken(s)| :: !IsSpace(s[i]))
    ensures |TakeToken(s)| < |s| ==> IsSpace(s[|TakeToken(s)|])
  {
    if s != "" && !IsSpace(s[0]) {
      TokenIs(s[1..]);
      assert forall i | 0 < i < |s| :: s[1..][i - 1] == s[i];
    }
  }

  lemma IdExactly(s: string, t: string)
    ensures IdHead(s) == Some(t) <==> exists w, r :: IdMatch(s, w, t, r)
  {
    hide IdHead, IdMatch;
    if IdHead(s) == Some(t) { IdParts(s, t); }
    if w, r :| IdMatch(s, w, t, r) { IdJoined(s, w, t, r); }
  }

  /** White space at the front, and the rest. */
  lemma FrontSpace(u: string) returns (w: string)
    ensures u == w + LStrip(u) && Blank(w) && (w == "" <==> |LStrip(u)| == |u|)
    ensures LStrip(u) == "" || !IsSpace(LStrip(u)[0])
  {
    LStripIs(u);
    hide LStrip, IsSpace;
    w := u[..|u| - |LStrip(u)|];
  }

  lemma Behind(s: string, p: string)
    requires StartsWith(s, p)
    ensures |p| <= |s| && s == p + s[|p|..]
  {
  }

  lemma WordIs(v: string) returns (r: string)
    requires v != "" && !IsSpace(v[0])
    ensures v == TakeToken(v) + r && Word(TakeToken(v)) && (r == "" || IsSpace(r[0]))
  {
    TokenIs(v);
    hide IsSpace;
    r := v[|TakeToken(v)|..];
  }

  lemma IdParts(s: string, t: string)
    requires IdHead(s) == Some(t)
    ensures exists w, r :: IdMatch(s, w, t, r)
  {
    hide LStrip, TakeToken, IsSpace, StartsWith, Blank, Word;
    Behind(s, "identifier");
    var v := LStrip(s[10..]);
    var w := FrontSpace(s[10..]);
    var r := WordIs(v);
    assert "identifier" + (w + (t + r)) == "identifier" + w + t + r;
    assert IdMatch(s, w, t, r);
  }

  lemma IdJoined(s: string, w: string, t: string, r: string)
    requires IdMatch(s, w, t, r)
    ensures IdHead(s) == Some(t)
  {
    hide IsSpace, LStrip, TakeToken;
    var v := t + r;
    assert s == "identifier" + (w + v);
    assert s[..10] == "identifier" && s[10..] == w + v && v[0] == t[0];
    LStripVisible(w, v);
    TakeTokenIs(t, r);
  }

  /** The search takes the leftmost place where the pattern matches. */
  lemma {:induction false} IdLeftmost(s: string)
    ensures SearchId(s) == None <==> forall i: nat | i <= |s| :: IdHead(s[i..]) == None
    ensures forall i: nat | i <= |s| && IdHead(s[i..]).Some? && (forall j: nat | j < i :: IdHead(s[j..]) == None) ::
      SearchId(s) == IdHead(s[i..])
  {
    hide IdHead;
    assert s[0..] == s;
    if IdHead(s).None? && s != "" {
      IdLeftmost(s[1..]);
      assert forall i: nat | 0 < i <= |s| :: s[1..][i - 1..] == s[i..];
      assert forall i: nat | i <= |s| - 1 :: s[1..][i..] == s[i + 1..];
    }
  }

  lemma {:induction false} AnLeftmost(s: string)
    ensures SearchAn(s) == None <==> forall i: nat | i <= |s| :: AnHead(s[i..]) == None
    ensures forall i: nat | i <= |s| && AnHead(s[i..]).Some? && (forall j: nat | j < i :: AnHead(s[j..]) == None) ::
      SearchAn(s) == AnHead(s[i..])
  {
    hide AnHead;
    assert s[0..] == s;
    if AnHead(s).None? && s != "" {
      AnLeftmost(s[1..]);
      assert forall i: nat | 0 < i <= |s| :: s[1..][i - 1..] == s[i..];
      assert forall i: nat | i <= |s| - 1 :: s[1..][i..] == s[i + 1..];
    }
  }

  /** `an`, white space, digits, white space, `key`, and what the rest matches. */
  ghost predicate AnMatch(s: string, w: string, d: string, x: string, r: string, k: KeyLine) {
    && s == "an" + w + d + x + "key" + r && Gap1(w) && Gap1(x) && AllDigits(d) && d != ""
    && KeyHead(r) == Some((k.flag, k.key)) && k.an == ReadDecimal(d)
  }

  lemma {:induction false} DigitsAre(s: string)
    ensures TakeDigits(s) <= s
  {
    if s != "" && IsDigit(s[0]) { DigitsAre(s[1..]); }
  }

  lemma SpaceNoDigit(c: char)
    ensures !(IsSpace(c) && IsDigit(c))
  {
  }

  lemma AnExactly(s: string, k: KeyLine)
    ensures AnHead(s) == Some(k) <==> exists w, d, x, r :: AnMatch(s, w, d, x, r, k)
  {
    hide IsSpace, ReadDecimal, KeyHead;
    if AnHead(s) == Some(k) { AnParts(s, k); }
    if w, d, x, r :| AnMatch(s, w, d, x, r, k) { AnJoined(s, w, d, x, r, k); }
  }

  lemma AnParts(s: string, k: KeyLine)
    requires AnHead(s) == Some(k)
    ensures exists w, d, x, r :: AnMatch(s, w, d, x, r, k)
  {
    hide IsSpace, ReadDecimal, KeyHead, IsDigit, LStrip, TakeDigits, StartsWith, Blank;
    Behind(s, "an");
    var v := LStrip(s[2..]);
    var d := TakeDigits(v);
    var y := v[|d|..];
    var z := LStrip(y);
    var w := FrontSpace(s[2..]);
    DigitsAre(v);
    var x := FrontSpace(y);
    Behind(z, "key");
    AnTogether(w, d, x, z[3..]);
    assert AnMatch(s, w, d, x, z[3..], k);
  }

  lemma AnTogether(w: string, d: string, x: string, r: string)
    ensures "an" + (w + (d + (x + ("key" + r)))) == "an" + w + d + x + "key" + r
  {
  }

  lemma AnJoined(s: string, w: string, d: string, x: string, r: string, k: KeyLine)
    requires AnMatch(s, w, d, x, r, k)
    ensures AnHead(s) == Some(k)
  {
    var z := "key" + r;
    var y := x + z;
    var v := d + y;
    assert s == "an" + (w + v) && z[0] == 'k';
    SpaceNoDigit(d[0]);
    SpaceNoDigit(x[0]);
    SpaceIs();
    hide IsSpace, ReadDecimal, KeyHead, IsDigit;
    assert v[0] == d[0] && y[0] == x[0] && s[2..] == w + v;
    LStripVisible(w, v);
    TakeDigitsIs(d, y);
    assert v[|d|..] == y;
    LStripVisible(x, z);
    assert z[3..] == r;
    AnHeadIs(s, v, d, z);
  }

  /** The rest of the line after white space; of white space alone, its last
      character that is no line break. */
  ghost predicate RestMatch(s: string, w: string, t: string, r: string) {
    && s == w + t + r && Gap1(w) && t != ""
    && if Blank(s) then |t| == 1 && t[0] != '\n' && (forall i | 0 <= i < |r| :: r[i] == '\n')
       else !IsSpace(t[0]) && '\n' !in t && (r == "" || r[0] == '\n')
  }

  lemma {:induction false} LineIs(s: string)
    ensures TakeLine(s) <= s && '\n' !in TakeLine(s) && (|TakeLine(s)| < |s| ==> s[|TakeLine(s)|] == '\n')
  {
    if s != "" && s[0] != '\n' { LineIs(s[1..]); }
  }

  lemma {:induction false} LastIs(s: string, w: string, c: char, r: string)
    requires s == w + [c] + r && w != "" && c != '\n' && forall i | 0 <= i < |r| :: r[i] == '\n'
    ensures LastNonBreak(s) == Some(c)
  {
    if r != "" {
      assert s[|s| - 1] == r[|r| - 1];
      assert s[..|s| - 1] == w + [c] + r[..|r| - 1];
      LastIs(s[..|s| - 1], w, c, r[..|r| - 1]);
    }
  }

  lemma {:induction false} LastParts(s: string) returns (w: string, r: string)
    requires LastNonBreak(s).Some?
    ensures var c := LastNonBreak(s).value;
      s == w + [c] + r && w != "" && c != '\n' && forall i | 0 <= i < |r| :: r[i] == '\n'
  {
    if s[|s| - 1] != '\n' {
      w, r := s[..|s| - 1], "";
    } else {
      w, r := LastParts(s[..|s| - 1]);
      r := r + "\n";
    }
  }

  lemma RestExactly(s: string, t: string)
    ensures RestHead(s) == Some(t) <==> exists w, r :: RestMatch(s, w, t, r)
  {
    hide IsSpace;
    LStripIs(s);
    if RestHead(s) == Some(t) { RestParts(s, t); }
    if w, r :| RestMatch(s, w, t, r) { RestJoined(s, w, t, r); }
  }

  lemma RestParts(s: string, t: string)
    requires RestHead(s) == Some(t)
    ensures exists w, r :: RestMatch(s, w, t, r)
  {
    hide IsSpace, LStrip, TakeLine, LastNonBreak;
    var v := LStrip(s);
    var w := FrontSpace(s);
    if v != "" {
      LineIs(v);
      VisibleLine(v);
      var r := v[|t|..];
      assert v == t + r;
      assert !Blank(s) by { assert s[|w|] == v[0]; }
      assert RestMatch(s, w, t, r);
    } else {
      BlankRest(s, w);
      var u, r := LastParts(s);
      assert Blank(u) by { assert forall i | 0 <= i < |u| :: u[i] == s[i]; }
      assert RestMatch(s, u, t, r);
    }
  }

  lemma BlankRest(s: string, w: string)
    requires s == w + "" && Blank(w)
    ensures Blank(s)
  {
    assert s == w;
  }

  lemma VisibleLine(v: string)
    requires v != "" && !IsSpace(v[0])
    ensures TakeLine(v) != "" && TakeLine(v)[0] == v[0]
  {
  }

  lemma RestJoined(s: string, w: string, t: string, r: string)
    requires RestMatch(s, w, t, r)
    ensures RestHead(s) == Some(t)
  {
    hide IsSpace;
    if Blank(s) {
      assert t == [t[0]];
      LStripVisible(s, "");
      assert s + "" == s;
      LastIs(s, w, t[0], r);
    } else {
      assert s == w + (t + r) && (t + r)[0] == t[0];
      LStripVisible(w, t + r);
      TakeLineIs(t, r);
    }
  }

  /** White space and a digit, if white space and something more follow it. */
  ghost predicate Flagged(s: string, w: string, c: char, r: string) {
    s == w + [c] + r && Gap1(w) && IsDigit(c) && RestHead(r).Some?
  }

  lemma KeyExactly(s: string)
    ensures forall w, c, r | Flagged(s, w, c, r) :: KeyHead(s) == Some((Some(c), RestHead(r).value))
    ensures (forall w, c, r :: !Flagged(s, w, c, r)) ==>
      KeyHead(s) == match RestHead(s) { case Some(t) => Some((None, t)) case None => None }
  {
    hide RestHead, IsSpace;
    LStripIs(s);
    var v := LStrip(s);
    forall w, c, r | Flagged(s, w, c, r) ensures KeyHead(s) == Some((Some(c), RestHead(r).value)) {
      SpaceNoDigit(c);
      assert s == w + ([c] + r) && ([c] + r)[0] == c && ([c] + r)[1..] == r;
      LStripVisible(w, [c] + r);
    }
    if |v| < |s| && v != "" && IsDigit(v[0]) && RestHead(v[1..]).Some? {
      var w := s[..|s| - |v|];
      assert s == w + v && v == [v[0]] + v[1..];
      assert Flagged(s, w, v[0], v[1..]);
    }
  }

  // ---- Where a word followed by a space can occur ---------------------------

  predicate EndsIn(x: string, w: string) {
    |w| <= |x| && x[|x| - |w|..] == w
  }

  predicate Words(words: seq<string>) {
    words != [] && forall i | 0 <= i < |words| :: Word(words[i])
  }

  /** In a list of words, a word and a space occur only where an inner word ends
      in that word. */
  lemma {:induction false} WordsLack(words: seq<string>, w: string)
    requires Words(words) && Word(w) && forall i | 0 <= i < |words| - 1 :: !EndsIn(words[i], w)
    ensures !Contains(Join(words, ' '), w + " ")
  {
    var s, p := Join(words, ' '), w + " ";
    var x := words[0];
    WordVisible(x);
    WordVisible(w);
    if |words| == 1 {
      forall k: nat ensures !At(s, p, k) { NoSpaceNoMatch(x, w, k); }
    } else {
      var rest := Join(words[1..], ' ');
      assert forall i | 0 <= i < |words[1..]| :: words[1..][i] == words[i + 1];
      WordsLack(words[1..], w);
      assert s == (x + " ") + rest;
      forall k: nat ensures !At(s, p, k) {
        if k > |x| {
          AtSuffix(x + " ", rest, p, k - |x| - 1);
        } else {
          SpaceAfter(x, rest, w, k);
        }
      }
    }
  }

  lemma NoSpaceNoMatch(x: string, w: string, k: nat)
    requires ' ' !in x
    ensures !At(x, w + " ", k)
  {
    if k + |w| + 1 <= |x| { assert x[k..k + |w| + 1][|w|] == x[k + |w|]; }
  }

  lemma SpaceAfter(x: string, rest: string, w: string, k: nat)
    requires ' ' !in x && ' ' !in w && k <= |x| && !EndsIn(x, w)
    ensures !At((x + " ") + rest, w + " ", k)
  {
    var s, p := (x + " ") + rest, w + " ";
    if k + |p| <= |s| {
      var t := s[k..k + |p|];
      assert t[|w|] == s[k + |w|] && p[|w|] == ' ';
      if k + |w| > |x| {
        assert t[|x| - k] == s[|x|] == ' ' && p[|x| - k] == w[|x| - k];
      } else if k + |w| == |x| {
        assert t[..|w|] == x[|x| - |w|..] && p[..|w|] == w;
      } else {
        assert s[k + |w|] == x[k + |w|];
      }
    }
  }

  lemma {:induction false} SpacesLack(n: nat, t: string, p: string)
    requires p != "" && p[0] != ' ' && !Contains(t, p)
    ensures !Contains(Spaces(n) + t, p)
  {
    var s := Spaces(n) + t;
    forall k: nat ensures !At(s, p, k) {
      if k >= n {
        AtSuffix(Spaces(n), t, p, k - n);
      } else if k + |p| <= |s| {
        assert s[k..k + |p|][0] == s[k];
      }
    }
  }

  // ---- The printed profiles -------------------------------------------------

  function Line(n: nat, words: seq<string>): string
    requires words != []
  {
    Spaces(n) + Join(words, ' ')
  }

  function FieldsOf(ly: Layout, c: Channel, z: string): string {
    "" + ("\n" + (Line(ly.field, ["identifier", c.id]) + ("\n" + (Line(ly.field, KeyWords(c)) + ("\n" + z)))))
  }

  function KeyWords(c: Channel): seq<string> {
    ["an", M.Decimal(c.an), "key"] + (if c.encrypted then ["7", c.key] else [c.key])
  }

  lemma JoinTwo(a: string, b: string)
    ensures Join([a, b], ' ') == a + " " + b
  {
    assert [a, b][1..] == [b];
  }

  lemma JoinCons(a: string, rest: seq<string>)
    requires rest != []
    ensures Join([a] + rest, ' ') == a + (" " + Join(rest, ' '))
  {
    assert ([a] + rest)[1..] == rest;
  }

  lemma KeyLineText(c: Channel)
    ensures Join(KeyWords(c), ' ') == "an " + (M.Decimal(c.an) + (" key " + KeyText(c)))
  {
    var d := M.Decimal(c.an);
    hide M.Decimal, Join;
    var last := if c.encrypted then ["7", c.key] else [c.key];
    JoinTwo("7", c.key);
    JoinOne(c.key);
    JoinCons("key", last);
    JoinCons(d, ["key"] + last);
    JoinCons("an", [d] + (["key"] + last));
    assert KeyWords(c) == ["an"] + ([d] + (["key"] + last));
    assert Join(last, ' ') == KeyText(c);
  }

  lemma JoinOne(a: string)
    ensures Join([a], ' ') == a
  {
  }

  lemma FieldsAreLines(ly: Layout, c: Channel, z: string)
    ensures Fields(ly, c, z) == FieldsOf(ly, c, z)
  {
    hide M.Decimal, Join, Spaces;
    JoinTwo("identifier", c.id);
    KeyLineText(c);
    var k := Join(KeyWords(c), ' ');
    assert AnText(c, z) == k + ("\n" + z);
    var i := Spaces(ly.field);
    assert Join(["identifier", c.id], ' ') == "identifier " + c.id;
    assert Fields(ly, c, z) == "\n" + i + ("identifier " + (c.id + ("\n" + i + (k + ("\n" + z)))));
    assert FieldsOf(ly, c, z) == "" + ("\n" + ((i + ("identifier " + c.id)) + ("\n" + ((i + k) + ("\n" + z)))));
  }

  /** A word that ends none of a profile's words before a space, save those of
      the channel lines. */
  predicate Foreign(w: string) {
    && Word(w) && !IsDigit(w[|w| - 1]) && !EndsIn("cipher", w) && !EndsIn("key", w) && !EndsIn("source", w)
    && !EndsIn("sak", w) && !EndsIn("identifier", w) && !EndsIn("an", w)
  }

  lemma KeyWordsLack(c: Channel, w: string)
    requires GoodChannel(c) && Foreign(w)
    ensures Words(KeyWords(c)) && !Contains(Join(KeyWords(c), ' '), w + " ")
  {
    DecimalReads(c.an);
    var d := M.Decimal(c.an);
    hide M.Decimal, ReadDecimal, Join, Contains;
    assert Word("an") && Word("key");
    WordsLack(KeyWords(c), w);
  }

  lemma SpaceIs()
    ensures IsSpace(' ') && !IsSpace('k') && !IsDigit(' ') && Blank(" ")
  {
  }

  lemma FieldsLack(ly: Layout, c: Channel, z: string, w: string)
    requires GoodChannel(c) && Foreign(w) && !Contains(z, w + " ")
    ensures !Contains(Fields(ly, c, z), w + " ")
  {
    var p := w + " ";
    WordVisible(w);
    KeyWordsLack(c, w);
    IdLineLacks(c, w);
    hide Contains, Join, KeyWords, Word, Foreign;
    var i, k := Join(["identifier", c.id], ' '), Join(KeyWords(c), ' ');
    SpacesLack(ly.field, i, p);
    SpacesLack(ly.field, k, p);
    EmptyLacks(p);
    ContainsAround(Line(ly.field, KeyWords(c)), '\n', z, p);
    ContainsAround(Line(ly.field, ["identifier", c.id]), '\n', Line(ly.field, KeyWords(c)) + ("\n" + z), p);
    ContainsAround("", '\n', Line(ly.field, ["identifier", c.id]) + ("\n" + (Line(ly.field, KeyWords(c)) + ("\n" + z))), p);
    FieldsAreLines(ly, c, z);
  }

  lemma IdLineLacks(c: Channel, w: string)
    requires GoodChannel(c) && Foreign(w)
    ensures !Contains(Join(["identifier", c.id], ' '), w + " ")
  {
    hide Join, Contains;
    assert Word("identifier");
    WordsLack(["identifier", c.id], w);
  }

  // ---- The block of a profile -----------------------------------------------

  function ChannelText(ly: Layout, dir: string, c: Channel, z: string): string {
    "secure channel " + (dir + Fields(ly, c, z))
  }

  function SettingLines(ly: Layout): string {
    "" + ("\n" + (Line(ly.body, ["cipher", "aes256-gcm-xpn"]) +
      ("\n" + Line(ly.body, ["key", "source", "sak", "static"]))))
  }

  /** The settings before the channels. */
  function Settings(ly: Layout): string { SettingLines(ly) + ("\n" + Spaces(ly.body)) }

  /** Everything after the profile's name; `z` follows its last line. */
  function Body(ly: Layout, p: Profile, z: string): string {
    Settings(ly) + ChannelText(ly, "rx", p.rx, Spaces(ly.body) + ChannelText(ly, "tx", p.tx, z))
  }

  predicate GoodProfile(p: Profile) { GoodChannel(p.rx) && GoodChannel(p.tx) }

  lemma FieldsAppend(ly: Layout, c: Channel, z: string, t: string)
    ensures Fields(ly, c, z + t) == Fields(ly, c, z) + t
  {
    hide Spaces, M.Decimal, KeyText;
    var d, k, i := M.Decimal(c.an), KeyText(c), Spaces(ly.field);
    assert AfterKey(c, z + t) == AfterKey(c, z) + t;
    assert AnText(c, z + t) == AnText(c, z) + t;
    assert c.id + ("\n" + i + (AnText(c, z) + t)) == c.id + ("\n" + i + AnText(c, z)) + t;
  }

  lemma SettingsLack(ly: Layout, w: string)
    requires Foreign(w)
    ensures !Contains(SettingLines(ly), w + " ")
  {
    var p := w + " ";
    WordVisible(w);
    SettingLinesLack(w);
    hide Contains, Join, Word, Foreign, EndsIn;
    var a, b := ["cipher", "aes256-gcm-xpn"], ["key", "source", "sak", "static"];
    SpacesLack(ly.body, Join(a, ' '), p);
    SpacesLack(ly.body, Join(b, ' '), p);
    EmptyLacks(p);
    ContainsAround(Line(ly.body, a), '\n', Line(ly.body, b), p);
    ContainsAround("", '\n', Line(ly.body, a) + ("\n" + Line(ly.body, b)), p);
  }

  lemma SettingLinesLack(w: string)
    requires Foreign(w)
    ensures !Contains(Join(["cipher", "aes256-gcm-xpn"], ' '), w + " ")
    ensures !Contains(Join(["key", "source", "sak", "static"], ' '), w + " ")
  {
    hide Join, Contains, EndsIn;
    assert Word("cipher") && Word("aes256-gcm-xpn") && Word("key") && Word("source") && Word("sak") && Word("static");
    WordsLack(["cipher", "aes256-gcm-xpn"], w);
    WordsLack(["key", "source", "sak", "static"], w);
  }

  lemma {:induction false} ChannelLacks(ly: Layout, dir: string, c: Channel, z: string, w: string)
    requires GoodChannel(c) && Foreign(w) && !EndsIn("secure", w) && !EndsIn("channel", w) && Word(dir)
    requires !Contains(z, w + " ")
    ensures !Contains(ChannelText(ly, dir, c, z), w + " ")
  {
    var p := w + " ";
    WordVisible(w);
    ChannelLineLacks(dir, w);
    FieldsLack(ly, c, z, w);
    FieldsAreLines(ly, c, z);
    hide Contains, Word, Foreign, EndsIn, Line, Spaces;
    JoinThree("secure", "channel", dir);
    var rest := Line(ly.field, ["identifier", c.id]) + ("\n" + (Line(ly.field, KeyWords(c)) + ("\n" + z)));
    hide Join, KeyWords;
    assert Fields(ly, c, z) == "" + ("\n" + rest);
    ContainsAround("", '\n', rest, p);
    ContainsAround("secure channel " + dir, '\n', rest, p);
    assert ChannelText(ly, dir, c, z) == ("secure channel " + dir) + ("\n" + rest);
  }

  lemma JoinThree(a: string, b: string, c: string)
    ensures Join([a, b, c], ' ') == a + " " + b + " " + c
  {
    assert [a, b, c][1..] == [b, c];
    JoinTwo(b, c);
  }

  lemma ChannelLineLacks(dir: string, w: string)
    requires Word(w) && !EndsIn("secure", w) && !EndsIn("channel", w) && Word(dir)
    ensures !Contains("secure channel " + dir, w + " ")
  {
    hide Contains, EndsIn;
    assert Word("secure") && Word("channel");
    WordsLack(["secure", "channel", dir], w);
    JoinThree("secure", "channel", dir);
    assert "secure" + " " + "channel" + " " + dir == "secure channel " + dir;
  }

  /** A profile's block has no word that cuts it short. */
  lemma BodyLacks(ly: Layout, p: Profile, z: string, w: string)
    requires GoodProfile(p) && Foreign(w) && !EndsIn("secure", w) && !EndsIn("channel", w)
    requires !Contains(z, w + " ")
    ensures !Contains(Body(ly, p, z), w + " ")
  {
    hide Contains, Word, EndsIn, ChannelText, Settings, Foreign, Spaces, GoodChannel;
    RxTx();
    var q := w + " ";
    FirstVisible(w);
    ChannelLacks(ly, "tx", p.tx, z, w);
    var tx := ChannelText(ly, "tx", p.tx, z);
    SpacesLack(ly.body, tx, q);
    ChannelLacks(ly, "rx", p.rx, Spaces(ly.body) + tx, w);
    SettingsThen(ly, ChannelText(ly, "rx", p.rx, Spaces(ly.body) + tx), w);
  }

  lemma RxTx()
    ensures Word("rx") && Word("tx")
  {
  }

  lemma FirstVisible(w: string)
    requires Foreign(w)
    ensures w != "" && w[0] != ' ' && (w + " ")[0] != ' '
  {
    WordVisible(w);
  }

  lemma SettingsText(ly: Layout, t: string)
    ensures Settings(ly) + t == SettingLines(ly) + ("\n" + (Spaces(ly.body) + t))
  {
    hide SettingLines, Spaces;
  }

  /** The same for the settings and what follows their last indent. */
  lemma SettingsThen(ly: Layout, t: string, w: string)
    requires Foreign(w) && !Contains(t, w + " ")
    ensures !Contains(Settings(ly) + t, w + " ")
  {
    hide Contains, Foreign, Word, Settings, SettingLines, Spaces, EndsIn;
    FirstVisible(w);
    WordBreaks(w);
    SettingsLack(ly, w);
    SpacesLack(ly.body, t, w + " ");
    ContainsAround(SettingLines(ly), '\n', Spaces(ly.body) + t, w + " ");
    SettingsText(ly, t);
  }

  lemma WordBreaks(w: string)
    requires Foreign(w)
    ensures '\n' !in w + " "
  {
    WordVisible(w);
  }

  predicate Stopper(w: string) { Foreign(w) && !EndsIn("secure", w) && !EndsIn("channel", w) }

  /** A fixed word that is shorter, or ends in another letter. */
  predicate Apart(x: string, w: string) {
    |x| < |w| || (x != "" && w != "" && x[|x| - 1] != w[|w| - 1])
  }

  lemma ApartEnds(x: string, w: string)
    requires Apart(x, w)
    ensures !EndsIn(x, w)
  {
  }

  lemma StopperIf(w: string)
    requires Word(w) && !IsDigit(w[|w| - 1])
    requires Apart("cipher", w) && Apart("key", w) && Apart("source", w) && Apart("sak", w) && Apart("identifier", w)
    requires Apart("an", w) && Apart("secure", w) && Apart("channel", w)
    ensures Stopper(w)
  {
    hide EndsIn, Apart, Word;
    ApartEnds("cipher", w);
    ApartEnds("key", w);
    ApartEnds("source", w);
    ApartEnds("sak", w);
    ApartEnds("identifier", w);
    ApartEnds("an", w);
    ApartEnds("secure", w);
    ApartEnds("channel", w);
  }

  lemma Stoppers()
    ensures Stopper("profile") && Stopper("interface") && Stopper("daemon") && Stopper("dot1x") && Stopper("mac")
  {
    hide Stopper;
    StopperIf("profile");
    StopperIf("interface");
    StopperIf("daemon");
    StopperIf("dot1x");
    StopperIf("mac");
  }

  lemma SecureForeign()
    ensures Foreign("secure")
  {
  }

  // ---- Cutting out the block ------------------------------------------------

  lemma LongerLacks(s: string, p: string, q: string)
    requires !Contains(s, p)
    ensures !Contains(s, p + q)
  {
    forall k: nat ensures !At(s, p + q, k) {
      if At(s, p + q, k) { AtShorter(s, p, q, k); }
    }
  }

  lemma AtShorter(s: string, p: string, q: string, k: nat)
    requires At(s, p + q, k)
    ensures At(s, p, k)
  {
    assert (p + q)[..|p|] == p;
    assert s[k..k + |p + q|][..|p|] == s[k..k + |p|];
  }

  /** A block without stop words is not cut. */
  lemma StopsLack(ly: Layout, p: Profile, z: nat, i: nat)
    requires GoodProfile(p) && i < |STOPS|
    ensures !Contains(Body(ly, p, Spaces(z)), STOPS[i])
  {
    hide Contains, Body, GoodProfile, Stopper, Spaces;
    Stoppers();
    var w := ["profile", "interface", "daemon", "dot1x", "mac"][i];
    SpacesOnlyLack(z, w);
    BodyLacks2(ly, p, Spaces(z), w);
    assert i == 4 ==> w + " " == "mac ";
    if i == 4 { LongerLacks(Body(ly, p, Spaces(z)), "mac ", "security\n"); }
    assert STOPS[i] == if i == 4 then "mac " + "security\n" else w + " ";
  }

  lemma BodyLacks2(ly: Layout, p: Profile, z: string, w: string)
    requires GoodProfile(p) && Stopper(w) && !Contains(z, w + " ")
    ensures !Contains(Body(ly, p, z), w + " ")
  {
    BodyLacks(ly, p, z, w);
  }

  lemma SpacesOnlyLack(n: nat, w: string)
    requires Stopper(w)
    ensures !Contains(Spaces(n), w + " ")
  {
    FirstVisible(w);
    EmptyLacks(w + " ");
    SpacesLack(n, "", w + " ");
    assert Spaces(n) + "" == Spaces(n);
  }

  lemma {:induction false} CutNothing(s: string, stops: seq<string>)
    requires forall i | 0 <= i < |stops| :: !Contains(s, stops[i])
    ensures CutAll(s, stops) == s
  {
    if stops != [] {
      var k := |stops| - 1;
      assert forall i | 0 <= i < k :: stops[..k][i] == stops[i];
      CutNothing(s, stops[..k]);
    }
  }

  lemma {:induction false} CutFirst(x: string, y: string, stops: seq<string>)
    requires stops != [] && Lone(stops[0]) && forall i | 0 <= i < |stops| :: !Contains(x, stops[i])
    ensures CutAll(x + (stops[0] + y), stops) == x
  {
    var k := |stops| - 1;
    var s := x + (stops[0] + y);
    if k == 0 {
      assert stops[..0] == [] && CutAll(s, []) == s;
      FindPlanted(x, stops[0], y);
      assert s[..|x|] == x;
    } else {
      assert forall i | 0 <= i < k :: stops[..k][i] == stops[i];
      CutFirst(x, y, stops[..k]);
    }
  }

  lemma ProfileLone()
    ensures Lone("profile ")
  {
    LoneFirst("profile ", 'p', "rofile ");
  }

  // ---- One channel ----------------------------------------------------------

  lemma ChannelLone()
    ensures Lone("secure channel") && Lone("secure channel rx") && Lone("secure channel tx")
  {
    LoneFirst("secure channel", 's', "ecure channel");
    LoneFirst("secure channel rx", 's', "ecure channel rx");
    LoneFirst("secure channel tx", 's', "ecure channel tx");
  }

  /** Nothing but its own line looks like a channel's. */
  lemma FieldsNoChannel(ly: Layout, c: Channel, z: nat)
    requires GoodChannel(c)
    ensures !Contains(Fields(ly, c, Spaces(z)), "secure channel")
  {
    SecureForeign();
    hide Contains, Fields, Foreign, GoodChannel, Spaces;
    FieldsLackMore(ly, c, z, "secure", "channel");
    assert "secure" + " " + "channel" == "secure channel";
  }

  lemma FieldsLackMore(ly: Layout, c: Channel, z: nat, w: string, q: string)
    requires GoodChannel(c) && Foreign(w)
    ensures !Contains(Fields(ly, c, Spaces(z)), w + " " + q)
  {
    FirstVisible(w);
    hide Contains, Fields, Foreign, GoodChannel;
    EmptyLacks(w + " ");
    SpacesLack(z, "", w + " ");
    assert Spaces(z) + "" == Spaces(z);
    FieldsLack(ly, c, Spaces(z), w);
    LongerLacks(Fields(ly, c, Spaces(z)), w + " ", q);
  }

  lemma SettingsNoChannel(ly: Layout)
    ensures !Contains(Settings(ly), "secure channel")
  {
    SecureForeign();
    hide Contains, Foreign, Settings;
    SettingsLackMore(ly, "secure", "channel");
    assert "secure" + " " + "channel" == "secure channel";
  }

  lemma SettingsLackMore(ly: Layout, w: string, q: string)
    requires Foreign(w)
    ensures !Contains(Settings(ly), w + " " + q)
  {
    hide Contains, Foreign, Settings;
    EmptyLacks(w + " ");
    SettingsThen(ly, "", w);
    var a := Settings(ly);
    assert a + "" == a;
    LongerLacks(a, w + " ", q);
  }

  lemma ParseAt(a: string, dir: string, b: string, sec: string)
    requires Find(a + ("secure channel " + dir + b), "secure channel " + dir) == |a| && CutAt(b, "secure channel") == sec
    ensures ParseChannel(a + ("secure channel " + dir + b), dir) == ReadChannel(sec)
  {
    hide Find, ReadChannel, CutAt;
    AfterMarker(a, "secure channel " + dir, b);
  }

  lemma RxChannel(ly: Layout, p: Profile, z: nat)
    requires GoodProfile(p)
    ensures ParseChannel(Body(ly, p, Spaces(z)), "rx") == ReadChannel(Fields(ly, p.rx, Spaces(ly.body)))
  {
    hide Contains, Fields, Settings, Spaces, ReadChannel, Find, Lone, Body;
    ChannelLone();
    FieldsNoChannel(ly, p.rx, ly.body);
    SettingsNoChannel(ly);
    LongerLacks(Settings(ly), "secure channel", " rx");
    var marker := "secure channel " + "rx";
    assert marker == "secure channel rx" == "secure channel" + " rx";
    var sec := Fields(ly, p.rx, Spaces(ly.body));
    var tail := " tx" + Fields(ly, p.tx, Spaces(z));
    var b := sec + ("secure channel" + tail);
    BodyAtRx(ly, p, z);
    FindPlanted(Settings(ly), marker, b);
    CutChannel(sec, tail);
    ParseAt(Settings(ly), "rx", b, sec);
  }

  lemma BodyAtRx(ly: Layout, p: Profile, z: nat)
    ensures Body(ly, p, Spaces(z)) == Settings(ly) + ("secure channel rx" +
      (Fields(ly, p.rx, Spaces(ly.body)) + ("secure channel" + (" tx" + Fields(ly, p.tx, Spaces(z))))))
  {
    hide Fields, Settings, Spaces;
    var t := Fields(ly, p.tx, Spaces(z));
    var tx := ChannelText(ly, "tx", p.tx, Spaces(z));
    assert tx == "secure channel" + (" tx" + t);
    FieldsAppend(ly, p.rx, Spaces(ly.body), tx);
    var f := Fields(ly, p.rx, Spaces(ly.body)) + tx;
    assert "secure channel " + ("rx" + f) == "secure channel rx" + f;
  }

  lemma AfterMarker(a: string, m: string, b: string)
    ensures (a + (m + b))[|a| + |m|..] == b
  {
  }

  lemma CutChannel(sec: string, rest: string)
    requires !Contains(sec, "secure channel")
    ensures CutAt(sec + ("secure channel" + rest), "secure channel") == sec
  {
    ChannelLone();
    FindPlanted(sec, "secure channel", rest);
    assert (sec + ("secure channel" + rest))[..|sec|] == sec;
  }

  lemma TxChannel(ly: Layout, p: Profile, z: nat)
    requires GoodProfile(p)
    ensures ParseChannel(Body(ly, p, Spaces(z)), "tx") == ReadChannel(Fields(ly, p.tx, Spaces(z)))
  {
    hide Contains, Fields, Settings, Spaces, ReadChannel, Find, Body, Lone;
    ChannelLone();
    FieldsNoChannel(ly, p.tx, z);
    var marker := "secure channel " + "tx";
    assert marker == "secure channel tx";
    var pre := Settings(ly) + ("secure channel rx" + Fields(ly, p.rx, Spaces(ly.body)));
    var sec := Fields(ly, p.tx, Spaces(z));
    BodyAtTx(ly, p, z);
    NoTxBefore(ly, p);
    FindPlanted(pre, marker, sec);
    CutNone(sec, "secure channel");
    ParseAt(pre, "tx", sec, sec);
  }

  lemma CutNone(s: string, stop: string)
    requires !Contains(s, stop)
    ensures CutAt(s, stop) == s
  {
  }

  lemma BodyAtTx(ly: Layout, p: Profile, z: nat)
    ensures Body(ly, p, Spaces(z)) == (Settings(ly) + ("secure channel rx" + Fields(ly, p.rx, Spaces(ly.body)))) +
      ("secure channel tx" + Fields(ly, p.tx, Spaces(z)))
  {
    hide Fields, Settings, Spaces, Body;
    BodyAtRx(ly, p, z);
    var f, t := Fields(ly, p.rx, Spaces(ly.body)), Fields(ly, p.tx, Spaces(z));
    assert "secure channel" + (" tx" + t) == "secure channel tx" + t;
  }

  /** The rx line is not taken for the tx line. */
  lemma NoTxBefore(ly: Layout, p: Profile)
    requires GoodProfile(p)
    ensures !Contains(Settings(ly) + ("secure channel rx" + Fields(ly, p.rx, Spaces(ly.body))), "secure channel tx")
  {
    hide Fields, Settings, Spaces;
    ChannelLone();
    FieldsNoChannel(ly, p.rx, ly.body);
    SettingsNoChannel(ly);
    var a, f := Settings(ly), Fields(ly, p.rx, Spaces(ly.body));
    var marker := "secure channel tx";
    LongerLacks(a, "secure channel", " tx");
    LongerLacks(f, "secure channel", " tx");
    assert "secure channel" + " tx" == marker;
    NoTx(a, f);
  }

  lemma NoTx(a: string, f: string)
    requires !Contains(a, "secure channel tx") && !Contains(f, "secure channel tx") && Lone("secure channel tx")
    ensures !Contains(a + ("secure channel rx" + f), "secure channel tx")
  {
    var p, r := "secure channel tx", "secure channel rx";
    var s := a + (r + f);
    assert s == (a + r) + f;
    forall k: nat ensures !At(s, p, k) {
      if k + |p| <= |a| {
        AtPrefix(a, r + f, p, k);
      } else if k < |a| {
        AtUnbordered(s, p, k, |a|);
      } else if k < |a| + |r| {
        NotInRx(a, r, f, k - |a|);
      } else {
        AtSuffix(a + r, f, p, k - |a| - |r|);
      }
    }
  }

  lemma NotInRx(a: string, r: string, f: string, d: nat)
    requires r == "secure channel rx" && d < |r|
    ensures !At(a + (r + f), "secure channel tx", |a| + d)
  {
    var s, p := a + (r + f), "secure channel tx";
    if |a| + d + |p| <= |s| {
      var t := s[|a| + d..|a| + d + |p|];
      assert t[0] == r[d];
      if d == 0 { assert t[15] == r[15] == 'r' && p[15] == 't'; }
    }
  }

  // ---- One profile ----------------------------------------------------------

  lemma BlockSettings(ly: Layout, p: Profile, z: string)
    ensures Contains(Body(ly, p, z), "key source sak static") && Contains(Body(ly, p, z), "cipher aes256-gcm-xpn")
  {
    SettingWords();
    hide Contains, Spaces, Join, ChannelText;
    var a, b := Line(ly.body, ["cipher", "aes256-gcm-xpn"]), Line(ly.body, ["key", "source", "sak", "static"]);
    var rest := ChannelText(ly, "rx", p.rx, Spaces(ly.body) + ChannelText(ly, "tx", p.tx, z));
    ContainsSelf("cipher aes256-gcm-xpn");
    ContainsSelf("key source sak static");
    ContainsSuffix(Spaces(ly.body), "cipher aes256-gcm-xpn", "cipher aes256-gcm-xpn");
    ContainsSuffix(Spaces(ly.body), "key source sak static", "key source sak static");
    ContainsMid("", a, b, "cipher aes256-gcm-xpn");
    ContainsSuffix("" + ("\n" + a) + "\n", b, "key source sak static");
    assert SettingLines(ly) == "" + ("\n" + a) + "\n" + b;
    ContainsOn(ly, rest, "cipher aes256-gcm-xpn");
    ContainsOn(ly, rest, "key source sak static");
  }

  lemma SettingWords()
    ensures Join(["cipher", "aes256-gcm-xpn"], ' ') == "cipher aes256-gcm-xpn"
    ensures Join(["key", "source", "sak", "static"], ' ') == "key source sak static"
  {
    hide Join;
    JoinTwo("cipher", "aes256-gcm-xpn");
    JoinThree("source", "sak", "static");
    JoinCons("key", ["source", "sak", "static"]);
    assert ["key"] + ["source", "sak", "static"] == ["key", "source", "sak", "static"];
  }

  lemma ContainsMid(x: string, a: string, b: string, p: string)
    requires Contains(a, p)
    ensures Contains(x + ("\n" + a) + "\n" + b, p)
  {
    ContainsSuffix(x + "\n", a, p);
    ContainsPrefix(x + "\n" + a, "\n" + b, p);
    assert x + "\n" + a + ("\n" + b) == x + ("\n" + a) + "\n" + b;
  }

  lemma ContainsOn(ly: Layout, rest: string, p: string)
    requires Contains(SettingLines(ly), p)
    ensures Contains(Settings(ly) + rest, p)
  {
    hide Contains, SettingLines;
    ContainsPrefix(SettingLines(ly), "\n" + Spaces(ly.body), p);
    ContainsPrefix(Settings(ly), rest, p);
  }

  /** What a profile's channels parse to, given where the block ends. */
  lemma BlockParses(ly: Layout, p: Profile, z: nat)
    requires GoodProfile(p)
    ensures var b := Body(ly, p, Spaces(z));
      && Contains(b, "key source sak static") && Contains(b, "cipher aes256-gcm-xpn")
      && ParseChannel(b, "rx").Ok? && ParseChannel(b, "tx").Ok?
      && (ParseChannel(b, "rx") == Ok(p.rx) <==> !Swallowed(p.rx, Spaces(ly.body)))
      && (ParseChannel(b, "tx") == Ok(p.tx) <==> !Swallowed(p.tx, Spaces(z)))
  {
    hide Contains, ParseChannel, Body, ReadChannel, Fields, Swallowed, GoodChannel;
    BlockSettings(ly, p, Spaces(z));
    RxChannel(ly, p, z);
    TxChannel(ly, p, z);
    FieldsRead(ly, p.rx, Spaces(ly.body));
    FieldsRead(ly, p.tx, Spaces(z));
  }

  // ---- Any set of profiles --------------------------------------------------

  type Named = (string, Profile)

  /** What follows a profile's last line: the next profile's indent, or nothing. */
  function Gap(ly: Layout, ps: seq<Named>, i: nat): nat { if i + 1 < |ps| then ly.profile else 0 }

  function Profiles(ly: Layout, ps: seq<Named>): string {
    if ps == [] then ""
    else "profile " + (ps[0].0 + (Body(ly, ps[0].1, Spaces(Gap(ly, ps, 0))) + Profiles(ly, ps[1..])))
  }

  ghost predicate GoodSet(ps: seq<Named>) {
    && (forall i | 0 <= i < |ps| :: Word(ps[i].0) && GoodProfile(ps[i].1))
    && (forall i, j | 0 <= i < |ps| && 0 <= j < |ps| && i != j :: !(ps[i].0 <= ps[j].0))
  }

  lemma FindShift(x: string, y: string, p: string)
    requires Contains(y, p) && forall k: nat | k < |x| :: !At(x + y, p, k)
    ensures Find(x + y, p) == |x| + Find(y, p)
  {
    var q := Find(y, p);
    AtSuffix(x, y, p, q);
    forall k: nat | k < |x| + q ensures !At(x + y, p, k) {
      if k >= |x| { AtSuffix(x, y, p, k - |x|); }
    }
  }

  /** Text without the word `profile` hides no profile line. */
  lemma NoStart(x: string, y: string, name: string)
    requires !Contains(x, "profile ") && (y == "" || y[0] == 'p')
    ensures forall k: nat | k < |x| :: !At(x + y, "profile " + name, k)
  {
    ProfileLone();
    forall k: nat | k < |x| ensures !At(x + y, "profile " + name, k) {
      if At(x + y, "profile " + name, k) {
        AtShorter(x + y, "profile ", name, k);
        NoStartAt(x, y, k);
      }
    }
  }

  lemma NoStartAt(x: string, y: string, k: nat)
    requires !Contains(x, "profile ") && (y == "" || y[0] == 'p') && k < |x| && Lone("profile ")
    ensures !At(x + y, "profile ", k)
  {
    if k + 8 <= |x| {
      AtPrefix(x, y, "profile ", k);
    } else if y != "" {
      AtUnbordered(x + y, "profile ", k, |x|);
    }
  }

  lemma BodyFront(ly: Layout, p: Profile, z: string)
    ensures Body(ly, p, z) != "" && Body(ly, p, z)[0] == '\n'
  {
  }

  /** A profile line of another name is not taken for this one. */
  lemma OtherName(lit: string, other: string, rest: string, name: string)
    requires Word(name) && !(name <= other) && rest != "" && rest[0] == '\n'
    ensures !At(lit + (other + rest), lit + name, 0)
  {
    var s, m := lit + (other + rest), lit + name;
    WordVisible(name);
    if |m| <= |s| {
      var t := s[0..|m|];
      if |name| <= |other| {
        assert t[|lit|..] == other[..|name|] && m[|lit|..] == name;
      } else {
        assert t[|lit| + |other|] == '\n' && m[|lit| + |other|] == name[|other|];
      }
    }
  }

  lemma RestLacks(ly: Layout, name: string, p: Profile, z: nat)
    requires Word(name) && GoodProfile(p)
    ensures !Contains(name + Body(ly, p, Spaces(z)), "profile ")
  {
    hide Body, Contains, Word, GoodProfile, Spaces;
    WordVisible(name);
    BodyFront(ly, p, Spaces(z));
    NameLacks(name);
    StopsLack(ly, p, z, 0);
    assert STOPS[0] == "profile ";
    LineThen(name, Body(ly, p, Spaces(z)), "profile ");
  }

  lemma LineThen(x: string, b: string, p: string)
    requires p != "" && '\n' !in p && !Contains(x, p) && !Contains(b, p) && b != "" && b[0] == '\n'
    ensures !Contains(x + b, p)
  {
    hide Contains;
    var t := b[1..];
    assert b == "" + ("\n" + t);
    ContainsAround("", '\n', t, p);
    ContainsAround(x, '\n', t, p);
    assert x + b == x + ("\n" + t);
  }

  lemma NameLacks(name: string)
    requires ' ' !in name
    ensures !Contains(name, "profile ")
  {
    forall k: nat ensures !At(name, "profile ", k) {
      NoSpaceNoMatch(name, "profile", k);
      assert "profile" + " " == "profile ";
    }
  }

  lemma GoodTail(ps: seq<Named>)
    requires GoodSet(ps) && ps != []
    ensures GoodSet(ps[1..])
  {
    var t := ps[1..];
    assert forall i | 0 <= i < |t| :: t[i] == ps[i + 1];
    forall i, j | 0 <= i < |t| && 0 <= j < |t| && i != j ensures !(t[i].0 <= t[j].0) {
      assert t[i] == ps[i + 1] && t[j] == ps[j + 1];
    }
  }

  /** The block text that follows the marker of profile `i`. */
  function From(ly: Layout, ps: seq<Named>, i: nat): string
    requires i < |ps|
  {
    Body(ly, ps[i].1, Spaces(Gap(ly, ps, i))) + Profiles(ly, ps[i + 1..])
  }

  predicate FoundAt(text: string, p: string, rest: string) {
    var q := Find(text, p);
    q != -1 && q + |p| <= |text| && text[q + |p|..] == rest
  }

  lemma FoundLater(x: string, y: string, p: string, rest: string)
    requires FoundAt(y, p, rest) && forall k: nat | k < |x| :: !At(x + y, p, k)
    ensures FoundAt(x + y, p, rest)
  {
    FindShift(x, y, p);
    var q := Find(y, p);
    assert (x + y)[|x| + q + |p|..] == y[q + |p|..];
  }

  lemma {:induction false} FindProfile(ly: Layout, ps: seq<Named>, i: nat)
    requires GoodSet(ps) && i < |ps|
    ensures FoundAt(Profiles(ly, ps), "profile " + ps[i].0, From(ly, ps, i))
  {
    hide Body, Profiles, From, FoundAt, GoodSet;
    if i == 0 {
      FindHead(ly, ps);
    } else {
      GoodTail(ps);
      FindProfile(ly, ps[1..], i - 1);
      FromTail(ly, ps, i);
      FindPast(ly, ps, i);
    }
  }

  lemma FindHead(ly: Layout, ps: seq<Named>)
    requires ps != []
    ensures FoundAt(Profiles(ly, ps), "profile " + ps[0].0, From(ly, ps, 0))
  {
    hide Body, FoundAt;
    var marker := "profile " + ps[0].0;
    assert Profiles(ly, ps) == marker + From(ly, ps, 0);
    FoundFirst(marker, From(ly, ps, 0));
  }

  lemma FindPast(ly: Layout, ps: seq<Named>, i: nat)
    requires GoodSet(ps) && 0 < i < |ps|
    requires FoundAt(Profiles(ly, ps[1..]), "profile " + ps[i].0, From(ly, ps, i))
    ensures FoundAt(Profiles(ly, ps), "profile " + ps[i].0, From(ly, ps, i))
  {
    var rest := Profiles(ly, ps[1..]);
    var b := Body(ly, ps[0].1, Spaces(Gap(ly, ps, 0)));
    ProfilesSplit(ly, ps);
    hide Body, Profiles, From, FoundAt, Contains, GoodProfile, Word;
    RestLacks(ly, ps[0].0, ps[0].1, Gap(ly, ps, 0));
    BodyFront(ly, ps[0].1, Spaces(Gap(ly, ps, 0)));
    ProfilesFront(ly, ps[1..]);
    NoneInFirst(ps[0].0, b, rest, ps[i].0);
    FoundLater("profile " + (ps[0].0 + b), rest, "profile " + ps[i].0, From(ly, ps, i));
  }

  lemma ProfilesSplit(ly: Layout, ps: seq<Named>)
    requires ps != []
    ensures Profiles(ly, ps) ==
      ("profile " + (ps[0].0 + Body(ly, ps[0].1, Spaces(Gap(ly, ps, 0))))) + Profiles(ly, ps[1..])
  {
    hide Body;
    var b := Body(ly, ps[0].1, Spaces(Gap(ly, ps, 0)));
    var rest := Profiles(ly, ps[1..]);
    assert "profile " + (ps[0].0 + (b + rest)) == ("profile " + (ps[0].0 + b)) + rest;
  }

  lemma FoundFirst(p: string, rest: string)
    ensures FoundAt(p + rest, p, rest)
  {
    assert At(p + rest, p, 0);
  }

  lemma FromTail(ly: Layout, ps: seq<Named>, i: nat)
    requires 0 < i < |ps|
    ensures From(ly, ps[1..], i - 1) == From(ly, ps, i) && ps[1..][i - 1] == ps[i]
  {
    hide Body, Profiles;
    assert ps[1..][i..] == ps[i + 1..];
  }

  lemma ProfilesFront(ly: Layout, ps: seq<Named>)
    ensures Profiles(ly, ps) == "" || Profiles(ly, ps)[0] == 'p'
  {
    hide Body;
  }

  /** No marker of another profile starts in the first one's text. */
  lemma NoneInFirst(first: string, b: string, rest: string, name: string)
    requires Word(name) && !(name <= first) && b != "" && b[0] == '\n'
    requires !Contains(first + b, "profile ") && (rest == "" || rest[0] == 'p')
    ensures var x := "profile " + (first + b); forall k: nat | k < |x| :: !At(x + rest, "profile " + name, k)
  {
    hide Contains;
    var x, marker := "profile " + (first + b), "profile " + name;
    ProfileLone();
    NoStart(first + b, rest, name);
    OtherName("profile ", first, b + rest, name);
    assert x + rest == "profile " + (first + (b + rest)) == "profile " + ((first + b) + rest);
    forall k: nat | k < |x| ensures !At(x + rest, marker, k) {
      if k >= 8 {
        AtSuffix("profile ", (first + b) + rest, marker, k - 8);
      } else if k > 0 {
        InsideLiteral((first + b) + rest, name, k);
      }
    }
  }

  lemma InsideLiteral(t: string, name: string, k: nat)
    requires 0 < k < 8
    ensures !At("profile " + t, "profile " + name, k)
  {
    var s, m := "profile " + t, "profile " + name;
    if k + |m| <= |s| {
      assert s[k..k + |m|][0] == s[k] == "profile "[k];
      assert m[0] == 'p';
    }
  }

  // ---- What follows the last profile ----------------------------------------

  /** Nothing, or anything that starts with a stop word. */
  ghost predicate AfterLast(post: string) {
    post == "" || exists j :: 0 <= j < |STOPS| && STOPS[j] <= post
  }

  /** The first two letters tell `p` from what is at `k` in `q`. */
  predicate Differs(p: string, q: string, k: nat) {
    |p| > 1 && k < |q| && (p[0] != q[k] || (k + 1 < |q| && p[1] != q[k + 1]))
  }

  lemma DiffersNotAt(p: string, q: string, t: string, k: nat)
    requires Differs(p, q, k)
    ensures !At(q + t, p, k)
  {
    var s := q + t;
    if k + |p| <= |s| { assert s[k..k + |p|][0] == s[k] && s[k..k + |p|][1] == s[k + 1]; }
  }

  lemma StopsInProfile(i: nat, k: nat)
    requires i < |STOPS| && k < |STOPS[0]| && (k > 0 || i != 0)
    ensures Differs(STOPS[i], STOPS[0], k)
  {
  }

  lemma StopsInInterface(i: nat, k: nat)
    requires i < |STOPS| && k < |STOPS[1]| && (k > 0 || i != 1)
    ensures Differs(STOPS[i], STOPS[1], k)
  {
  }

  lemma StopsInDaemon(i: nat, k: nat)
    requires i < |STOPS| && k < |STOPS[2]| && (k > 0 || i != 2)
    ensures Differs(STOPS[i], STOPS[2], k)
  {
  }

  lemma StopsInDot1x(i: nat, k: nat)
    requires i < |STOPS| && k < |STOPS[3]| && (k > 0 || i != 3)
    ensures Differs(STOPS[i], STOPS[3], k)
  {
  }

  lemma StopsInMac(i: nat, k: nat)
    requires i < |STOPS| && k < |STOPS[4]| && (k > 0 || i != 4)
    ensures Differs(STOPS[i], STOPS[4], k)
  {
  }

  /** No stop word starts inside another. */
  lemma StopsDiffer(i: nat, j: nat, k: nat)
    requires i < |STOPS| && j < |STOPS| && k < |STOPS[j]| && (k > 0 || i != j)
    ensures Differs(STOPS[i], STOPS[j], k)
  {
    hide Differs;
    if j == 0 { StopsInProfile(i, k); }
    else if j == 1 { StopsInInterface(i, k); }
    else if j == 2 { StopsInDaemon(i, k); }
    else if j == 3 { StopsInDot1x(i, k); }
    else { StopsInMac(i, k); }
  }

  lemma StopBreak(i: nat)
    requires i < |STOPS|
    ensures STOPS[i] != "" && '\n' !in STOPS[i][..|STOPS[i]| - 1]
  {
  }

  /** A stop word does not run from one line into the next. */
  lemma NoCrossing(b: string, t: string, i: nat, k: nat)
    requires i < |STOPS| && !Contains(b, STOPS[i]) && b != "" && b[|b| - 1] == '\n' && k < |b|
    ensures !At(b + t, STOPS[i], k)
  {
    var s, p := b + t, STOPS[i];
    if k + |p| <= |b| {
      AtPrefix(b, t, p, k);
    } else if k + |p| <= |s| {
      StopBreak(i);
      assert s[k..k + |p|][|b| - 1 - k] == '\n';
      assert p[|b| - 1 - k] == p[..|p| - 1][|b| - 1 - k];
    }
  }

  /** Where the first `STOPS[i]` after a block can be. */
  lemma StopFound(b: string, t: string, i: nat, j: nat)
    requires i < |STOPS| && j < |STOPS| && !Contains(b, STOPS[i]) && b != "" && b[|b| - 1] == '\n'
    ensures var f := Find(b + (STOPS[j] + t), STOPS[i]);
            if i == j then f == |b| else f == -1 || f >= |b| + |STOPS[j]|
  {
    var s, p, q := b + (STOPS[j] + t), STOPS[i], STOPS[j];
    forall k: nat | k < |b| + |q| && (i != j || k != |b|) ensures !At(s, p, k) {
      if k < |b| {
        NoCrossing(b, q + t, i, k);
      } else {
        StopsDiffer(i, j, k - |b|);
        DiffersNotAt(p, q, t, k - |b|);
        AtSuffix(b, q + t, p, k - |b|);
      }
    }
    if i == j { AtSuffix(b, q + t, p, 0); }
  }

  /** The cuts leave the block, whatever the text after the stop word. */
  lemma {:induction false} CutAtStop(b: string, t: string, j: nat, n: nat) returns (u: string)
    requires j < |STOPS| && n <= |STOPS| && b != "" && b[|b| - 1] == '\n'
    requires forall i | 0 <= i < |STOPS| :: !Contains(b, STOPS[i])
    ensures CutAll(b + (STOPS[j] + t), STOPS[..n]) == if j < n then b else b + (STOPS[j] + u)
  {
    hide Contains, Find;
    u := t;
    if n > 0 {
      var v := CutAtStop(b, t, j, n - 1);
      assert STOPS[..n][..n - 1] == STOPS[..n - 1];
      if j < n - 1 {
        CutNone(b, STOPS[n - 1]);
      } else {
        StopFound(b, v, n - 1, j);
        u := CutBehind(b, STOPS[j], v, STOPS[n - 1]);
      }
    }
  }

  lemma CutBehind(b: string, q: string, v: string, p: string) returns (u: string)
    requires var f := Find(b + (q + v), p); f == |b| || f == -1 || f >= |b| + |q|
    requires q != ""
    ensures CutAt(b + (q + v), p) == if Find(b + (q + v), p) == |b| then b else b + (q + u)
  {
    var s := b + (q + v);
    var f := Find(s, p);
    u := v;
    if f == |b| {
      assert s[..f] == b;
    } else if f != -1 {
      u := v[..f - |b| - |q|];
      assert s[..f] == b + (q + u);
    }
  }

  lemma FoundBefore(x: string, post: string, p: string, rest: string)
    requires FoundAt(x, p, rest)
    ensures FoundAt(x + post, p, rest + post)
  {
    var k := FirstInPrefix(x, post, p);
    assert (x + post)[k + |p|..] == x[k + |p|..] + post;
  }

  lemma BodyEnds(ly: Layout, p: Profile)
    ensures Body(ly, p, Spaces(0)) != "" && Body(ly, p, Spaces(0))[|Body(ly, p, Spaces(0))| - 1] == '\n'
  {
    hide Spaces, M.Decimal, KeyText, Settings;
    assert Spaces(0) == "" by { NoSpaces(); }
    var c := p.tx;
    EndsBreak(" " + KeyText(c));
    var a := AfterKey(c, "");
    assert a == " " + KeyText(c) + "\n";
    EndsOn("an " + M.Decimal(c.an) + " key", a);
    assert AnText(c, "") == "an " + M.Decimal(c.an) + " key" + a;
    FieldsEnd(ly, c);
    var f := Fields(ly, c, "");
    EndsOn("secure channel tx", f);
    assert ChannelText(ly, "tx", c, "") == "secure channel tx" + f;
    BodyTail(ly, p);
  }

  lemma NoSpaces()
    ensures Spaces(0) == ""
  {
  }

  lemma EndsBreak(x: string)
    ensures (x + "\n")[|x + "\n"| - 1] == '\n'
  {
  }

  lemma EndsOn(a: string, b: string)
    requires b != ""
    ensures a + b != "" && (a + b)[|a + b| - 1] == b[|b| - 1]
  {
  }

  lemma FieldsEnd(ly: Layout, c: Channel)
    requires AnText(c, "") != ""
    ensures Fields(ly, c, "") != "" && Fields(ly, c, "")[|Fields(ly, c, "")| - 1] == AnText(c, "")[|AnText(c, "")| - 1]
  {
    hide AnText, Spaces;
    EndsOn("\n" + Spaces(ly.field), AnText(c, ""));
    EndsOn(c.id, "\n" + Spaces(ly.field) + AnText(c, ""));
    EndsOn("identifier ", c.id + ("\n" + Spaces(ly.field) + AnText(c, "")));
    EndsOn("\n" + Spaces(ly.field), "identifier " + (c.id + ("\n" + Spaces(ly.field) + AnText(c, ""))));
  }

  lemma BodyTail(ly: Layout, p: Profile)
    ensures var t := ChannelText(ly, "tx", p.tx, "");
            t != "" && Body(ly, p, "") != "" && Body(ly, p, "")[|Body(ly, p, "")| - 1] == t[|t| - 1]
  {
    hide Fields, Settings, Spaces;
    var t := ChannelText(ly, "tx", p.tx, "");
    FieldsAppend(ly, p.rx, Spaces(ly.body), t);
    EndsOn(Spaces(ly.body), t);
    EndsOn(Fields(ly, p.rx, Spaces(ly.body)), t);
    EndsOn("rx", Fields(ly, p.rx, Spaces(ly.body)) + t);
    EndsOn("secure channel ", "rx" + (Fields(ly, p.rx, Spaces(ly.body)) + t));
    EndsOn(Settings(ly), ChannelText(ly, "rx", p.rx, Spaces(ly.body) + t));
  }

  // ---- Main results ---------------------------------------------------------

  /** Printing any set of profiles and parsing the text by name gives exactly
      that profile's channels, unless a plain key of one digit is swallowed:
      whatever text without the word `profile` comes first, whatever follows from
      a stop word on, for any indents. */
  lemma ParsePrinted(pre: string, ly: Layout, ps: seq<Named>, post: string, i: nat)
    requires GoodSet(ps) && i < |ps| && !Contains(pre, "profile ") && AfterLast(post)
    ensures var r := ParseProfile(pre + (Profiles(ly, ps) + post), ps[i].0);
      && r.Ok?
      && (r.value.rx == ps[i].1.rx <==> !Swallowed(ps[i].1.rx, Spaces(ly.body)))
      && (r.value.tx == ps[i].1.tx <==> !Swallowed(ps[i].1.tx, Spaces(Gap(ly, ps, i))))
  {
    hide Contains, Body, Profiles, ParseChannel, Swallowed, GoodProfile, AfterLast;
    BlockFound(pre, ly, ps, post, i);
    BlockParses(ly, ps[i].1, Gap(ly, ps, i));
  }

  lemma BlockFound(pre: string, ly: Layout, ps: seq<Named>, post: string, i: nat)
    requires GoodSet(ps) && i < |ps| && !Contains(pre, "profile ") && AfterLast(post)
    ensures ProfileBlock(pre + (Profiles(ly, ps) + post), ps[i].0) == Some(Body(ly, ps[i].1, Spaces(Gap(ly, ps, i))))
  {
    hide Contains, Body, Profiles, CutAll, From, Find, AfterLast, GoodSet;
    MarkerFound(pre, ly, ps, post, i);
    BlockCut(ly, ps, post, i);
  }

  lemma MarkerFound(pre: string, ly: Layout, ps: seq<Named>, post: string, i: nat)
    requires GoodSet(ps) && i < |ps| && !Contains(pre, "profile ")
    ensures FoundAt(pre + (Profiles(ly, ps) + post), "profile " + ps[i].0, From(ly, ps, i) + post)
  {
    hide *;
    ProfilesFront(ly, ps);
    ProfilesNotEmpty(ly, ps);
    var marker, y := "profile " + ps[i].0, Profiles(ly, ps) + post;
    FindProfile(ly, ps, i);
    FoundBefore(Profiles(ly, ps), post, marker, From(ly, ps, i));
    NoStart(pre, y, ps[i].0);
    FoundLater(pre, y, marker, From(ly, ps, i) + post);
  }

  lemma ProfilesNotEmpty(ly: Layout, ps: seq<Named>)
    requires ps != []
    ensures Profiles(ly, ps) != ""
  {
    hide Body;
  }

  lemma BodyStops(ly: Layout, p: Profile, z: nat)
    requires GoodProfile(p)
    ensures forall j | 0 <= j < |STOPS| :: !Contains(Body(ly, p, Spaces(z)), STOPS[j])
  {
    hide *;
    forall j | 0 <= j < |STOPS| ensures !Contains(Body(ly, p, Spaces(z)), STOPS[j]) { StopsLack(ly, p, z, j); }
  }

  lemma GoodAt(ps: seq<Named>, i: nat)
    requires GoodSet(ps) && i < |ps|
    ensures GoodProfile(ps[i].1)
  {
    hide GoodProfile, Word;
  }

  lemma BlockCut(ly: Layout, ps: seq<Named>, post: string, i: nat)
    requires GoodSet(ps) && i < |ps| && AfterLast(post)
    ensures CutAll(From(ly, ps, i) + post, STOPS) == Body(ly, ps[i].1, Spaces(Gap(ly, ps, i)))
  {
    hide *;
    GoodAt(ps, i);
    BodyStops(ly, ps[i].1, Gap(ly, ps, i));
    if i + 1 < |ps| {
      CutBefore(ly, ps, post, i);
    } else {
      BodyEnds(ly, ps[i].1);
      LastFrom(ly, ps, i);
      CutLast(From(ly, ps, i), post);
    }
  }

  lemma LastFrom(ly: Layout, ps: seq<Named>, i: nat)
    requires i + 1 == |ps|
    ensures Gap(ly, ps, i) == 0 && From(ly, ps, i) == Body(ly, ps[i].1, Spaces(0))
  {
    hide Body, Spaces;
  }

  lemma FromNext(ly: Layout, ps: seq<Named>, i: nat) returns (t: string)
    requires i + 1 < |ps|
    ensures From(ly, ps, i) == Body(ly, ps[i].1, Spaces(Gap(ly, ps, i))) + ("profile " + t)
  {
    t := ps[i + 1].0 + (Body(ly, ps[i + 1].1, Spaces(Gap(ly, ps[i + 1..], 0))) + Profiles(ly, ps[i + 1..][1..]));
    hide Body, Spaces, Gap;
  }

  lemma AppendTo(b: string, p: string, t: string, post: string)
    ensures b + (p + t) + post == b + (p + (t + post))
  {
  }

  lemma CutBefore(ly: Layout, ps: seq<Named>, post: string, i: nat)
    requires i + 1 < |ps|
    requires forall j | 0 <= j < |STOPS| :: !Contains(Body(ly, ps[i].1, Spaces(Gap(ly, ps, i))), STOPS[j])
    ensures CutAll(From(ly, ps, i) + post, STOPS) == Body(ly, ps[i].1, Spaces(Gap(ly, ps, i)))
  {
    hide Body, Contains, CutAll, From, Lone, Spaces, Gap;
    var t := FromNext(ly, ps, i);
    var b := Body(ly, ps[i].1, Spaces(Gap(ly, ps, i)));
    AppendTo(b, "profile ", t, post);
    ProfileLone();
    CutFirst(b, t + post, STOPS);
  }

  lemma CutLast(b: string, post: string)
    requires b != "" && b[|b| - 1] == '\n' && AfterLast(post)
    requires forall i | 0 <= i < |STOPS| :: !Contains(b, STOPS[i])
    ensures CutAll(b + post, STOPS) == b
  {
    hide Contains, CutAll;
    if post == "" {
      assert b + post == b;
      CutNothing(b, STOPS);
    } else {
      var j :| 0 <= j < |STOPS| && STOPS[j] <= post;
      var t := post[|STOPS[j]|..];
      assert post == STOPS[j] + t;
      var u := CutAtStop(b, t, j, |STOPS|);
      assert STOPS[..|STOPS|] == STOPS;
    }
  }

  /** In particular the channels come back whenever every key has two characters
      or more. */
  lemma RoundTrip(pre: string, ly: Layout, ps: seq<Named>, post: string, i: nat)
    requires GoodSet(ps) && i < |ps| && !Contains(pre, "profile ") && AfterLast(post)
    requires |ps[i].1.rx.key| >= 2 && |ps[i].1.tx.key| >= 2
    ensures ParseProfile(pre + (Profiles(ly, ps) + post), ps[i].0) == Ok(ps[i].1)
  {
    hide Contains, ParseProfile, Profiles, AfterLast;
    ParsePrinted(pre, ly, ps, post, i);
  }

  /** A plain rx key of one digit never comes back, for any indent of the channel
      lines: another profile is read. */
  lemma OneDigitKeyLost(pre: string, ly: Layout, ps: seq<Named>, post: string, i: nat)
    requires GoodSet(ps) && i < |ps| && !Contains(pre, "profile ") && AfterLast(post)
    requires ly.body > 0 && !ps[i].1.rx.encrypted && |ps[i].1.rx.key| == 1 && IsDigit(ps[i].1.rx.key[0])
    ensures var r := ParseProfile(pre + (Profiles(ly, ps) + post), ps[i].0);
      r.Ok? && r.value.rx != ps[i].1.rx
  {
    hide Contains, ParseProfile, Profiles, AfterLast, GoodSet;
    ParsePrinted(pre, ly, ps, post, i);
    IndentNotBreak(ly.body);
  }

  lemma IndentNotBreak(n: nat)
    requires n > 0
    ensures LastNonBreak("\n" + Spaces(n)).Some?
  {
    var t := "\n" + Spaces(n);
    assert t[|t| - 1] == ' ';
  }

  /** When a configuration is refused, and with which error. */
  lemma RefusedExactly(config: string, name: string)
    ensures var r := ParseProfile(config, name); var b := ProfileBlock(config, name);
      && (r == MissingProfile <==> !Contains(config, "profile " + name))
      && (r == NotStaticSak <==> b.Some? && !Contains(b.value, "key source sak static"))
      && (r == WrongCipher <==>
            b.Some? && Contains(b.value, "key source sak static") && !Contains(b.value, "cipher aes256-gcm-xpn"))
      && (r.MissingChannel? || r.IncompleteChannel? || r.Ok? <==>
            b.Some? && Contains(b.value, "key source sak static") && Contains(b.value, "cipher aes256-gcm-xpn"))
      && (r.MissingChannel? ==>
            !Contains(b.value, "secure channel rx") ||
            (ParseChannel(b.value, "rx").Ok? && !Contains(b.value, "secure channel tx")))
      && (r.IncompleteChannel? ==>
            Contains(b.value, "secure channel rx") &&
            (ParseChannel(b.value, "rx").Ok? ==> Contains(b.value, "secure channel tx")))
      && (r.Ok? ==> Contains(b.value, "secure channel rx") && Contains(b.value, "secure channel tx"))
  {
    hide CutAll, CutAt, SearchId, SearchAn, Strip;
    assert "secure channel " + "rx" == "secure channel rx" && "secure channel " + "tx" == "secure channel tx";
  }

  // ---- Master and slave -----------------------------------------------------

  datatype Verdict = Accepted | ScMismatch | AnMismatch | KeyMismatch

  /** `assert_static_sak_peer_mapping`: the first check that fails. */
  function PeerMapping(master: Profile, slave: Profile): Verdict {
    if master.rx.id != slave.tx.id || master.tx.id != slave.rx.id then ScMismatch
    else if master.rx.an != slave.tx.an || master.tx.an != slave.rx.an then AnMismatch
    else Accepted
  }

  /** `assert_plain_sak_key_exchange` */
  function KeyExchange(master: Profile, slave: Profile): Verdict {
    if master.rx.key != slave.tx.key || master.tx.key != slave.rx.key then KeyMismatch else Accepted
  }

  predicate Passes(master: Profile, slave: Profile) {
    PeerMapping(master, slave) == Accepted && KeyExchange(master, slave) == Accepted
  }

  function Mirror(p: Profile): Profile { Profile(p.tx, p.rx) }

  predicate PlainKeys(p: Profile) { !p.rx.encrypted && !p.tx.encrypted }

  /** Printed configurations of a master and a slave, each among other profiles,
      pass both checks exactly when the slave's profile is the master's with rx
      and tx exchanged, as in the two templates. */
  lemma PairAcceptedExactly(preM: string, lyM: Layout, psM: seq<Named>, postM: string, m: nat,
                            preS: string, lyS: Layout, psS: seq<Named>, postS: string, s: nat)
    requires GoodSet(psM) && m < |psM| && !Contains(preM, "profile ") && AfterLast(postM)
    requires GoodSet(psS) && s < |psS| && !Contains(preS, "profile ") && AfterLast(postS)
    requires |psM[m].1.rx.key| >= 2 && |psM[m].1.tx.key| >= 2 && |psS[s].1.rx.key| >= 2 && |psS[s].1.tx.key| >= 2
    requires PlainKeys(psM[m].1) && PlainKeys(psS[s].1)
    ensures var rm := ParseProfile(preM + (Profiles(lyM, psM) + postM), psM[m].0);
      var rs := ParseProfile(preS + (Profiles(lyS, psS) + postS), psS[s].0);
      && rm.Ok? && rs.Ok?
      && (Passes(rm.value, rs.value) <==> psS[s].1 == Mirror(psM[m].1))
  {
    hide Contains, ParseProfile, Profiles, GoodSet, AfterLast;
    RoundTrip(preM, lyM, psM, postM, m);
    RoundTrip(preS, lyS, psS, postS, s);
  }
}
