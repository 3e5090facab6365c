/** Reading the Status table of `show daemon quadra` (lab/test_macsec_qkd.py). */
module QuadraStatus {
  import opened Text

  // ---- The field pattern ----------------------------------------------------

  predicate IsLetter(c: char) { 'a' <= c <= 'z' || 'A' <= c <= 'Z' }

  predicate IsKeyChar(c: char) { IsLetter(c) || '0' <= c <= '9' || c == ' ' }

  predicate GapAt(s: string, j: nat) {
    j + 1 < |s| && IsSpace(s[j]) && IsSpace(s[j + 1])
  }

  /** The shortest key: the first place at or after `j` with two blanks, reached
      over key characters only. */
  function KeyEnd(s: string, j: nat): (r: Option<nat>)
    ensures r.Some? ==> j <= r.value && GapAt(s, r.value)
    ensures r.Some? ==> forall i | j <= i < r.value :: IsKeyChar(s[i]) && !GapAt(s, i)
    ensures r.None? ==> forall k | j <= k && GapAt(s, k) :: exists i :: j <= i < k && !IsKeyChar(s[i])
    decreases |s| - j
  {
    if j + 1 >= |s| then None
    else if GapAt(s, j) then Some(j)
    else if IsKeyChar(s[j]) then KeyEnd(s, j + 1)
    else None
  }

  /** STATUS_FIELD_RE on a line without trailing white space: key and value. */
  function FieldMatch(s: string): Option<(string, string)> {
    if |s| < 2 || !IsLetter(s[0]) || !IsKeyChar(s[1]) then None
    else
      match KeyEnd(s, 2)
      case None => None
      case Some(j) => Some((s[..j], LStrip(s[j..])))
  }

  /** Key characters from a letter on, two or more; two or more blanks, the first
      such place past the second character; and the rest. */
  ghost predicate IsField(s: string, key: string, gap: string, value: string) {
    && s == key + gap + value && |key| >= 2 && IsLetter(key[0]) && (forall i | 0 <= i < |key| :: IsKeyChar(key[i]))
    && |gap| >= 2 && Text.Blank(gap) && (value == "" || !IsSpace(value[0]))
    && forall i | 2 <= i < |key| :: !GapAt(s, i)
  }

  /** The pattern matches exactly such lines. */
  lemma FieldExactly(s: string, key: string, value: string)
    ensures FieldMatch(s) == Some((key, value)) <==> exists gap :: IsField(s, key, gap, value)
  {
    hide IsSpace, IsLetter;
    if FieldMatch(s) == Some((key, value)) { FieldParts(s, key, value); }
    if gap :| IsField(s, key, gap, value) { FieldJoined(s, key, gap, value); }
  }

  lemma FieldParts(s: string, key: string, value: string)
    requires FieldMatch(s) == Some((key, value))
    ensures exists gap :: IsField(s, key, gap, value)
  {
    hide IsSpace, KeyEnd;
    var j := |key|;
    var rest := s[j..];
    LStripIs(rest);
    var gap := rest[..|rest| - |value|];
    LetterIsKey(s[0]);
    assert rest == gap + value && s == key + rest;
    TwoBlanks(rest, gap, value);
    assert IsField(s, key, gap, value);
  }

  lemma LetterIsKey(c: char)
    ensures IsLetter(c) ==> IsKeyChar(c)
  {
  }

  lemma TwoBlanks(rest: string, gap: string, value: string)
    requires rest == gap + value && GapAt(rest, 0) && (value == "" || !IsSpace(value[0]))
    ensures |gap| >= 2
  {
    hide IsSpace;
    assert forall i | |gap| <= i < |rest| :: rest[i] == value[i - |gap|];
  }

  lemma FieldJoined(s: string, key: string, gap: string, value: string)
    requires IsField(s, key, gap, value)
    ensures FieldMatch(s) == Some((key, value))
  {
    hide IsSpace, IsLetter, IsKeyChar;
    var k := |key|;
    assert s[k] == gap[0] && s[k + 1] == gap[1] && GapAt(s, k);
    assert forall i | 0 <= i < k :: s[i] == key[i];
    assert KeyEnd(s, 2) == Some(k);
    hide KeyEnd;
    assert s[..k] == key && s[k..] == gap + value;
    LStripVisible(gap, value);
  }

  // ---- The loop -------------------------------------------------------------

  datatype State = State(status: map<string, string>, current: Option<string>)

  datatype Line = Blank | Skipped | Field(key: string, value: string) | More(text: string) | Other

  /** What the loop takes a line for. */
  function Classify(line: string): Line {
    var stripped := RStrip(line);
    if stripped == "" then Blank
    else if StartsWith(stripped, "----") || (StartsWith(stripped, "Data ") && Contains(stripped, "Value")) then Skipped
    else
      match FieldMatch(stripped)
      case Some((key, value)) => Field(Lower(Strip(key)), Strip(value))
      case None => if StartsWith(line, " ") then More(Strip(stripped)) else Other
  }

  /** The current key always has an entry. */
  predicate Valid(st: State) { st.current.Some? ==> st.current.value in st.status }

  function Step(st: State, l: Line): (r: State)
    requires Valid(st)
    ensures Valid(r)
  {
    match l
    case Blank => st.(current := None)
    case Field(key, value) => State(st.status[key := value], Some(key))
    case More(text) =>
      if st.current.None? then st
      else st.(status := st.status[st.current.value := st.status[st.current.value] + " " + text])
    case _ => st
  }

  function Kinds(lines: seq<string>): seq<Line> {
    if lines == [] then [] else Kinds(lines[..|lines| - 1]) + [Classify(lines[|lines| - 1])]
  }

  function Fold(st: State, ls: seq<Line>): (r: State)
    requires Valid(st)
    ensures Valid(r)
  {
    if ls == [] then st else Step(Fold(st, ls[..|ls| - 1]), ls[|ls| - 1])
  }

  const START := State(map[], None)

  function AfterStatus(text: string): string {
    var i := Find(text, "Status:");
    if i == -1 then text else text[i + 7..]
  }

  function StatusOf(text: string): map<string, string> { Fold(START, Kinds(Split(AfterStatus(text), '\n'))).status }

  /** `parse_daemon_quadra_status`, for text whose only line break is '\n'. */
  method ParseDaemonQuadraStatus(text: string) returns (status: map<string, string>)
    ensures status == StatusOf(text)
  {
    hide FieldMatch, RStrip, LStrip, Lower, Split, Fold, Kinds, StartsWith, Strip;
    var section := text;
    if Contains(text, "Status:") {
      section := text[Find(text, "Status:") + 7..];
    }
    assert section == AfterStatus(text);
    var lines := Split(section, '\n');
    status := map[];
    var currentKey: Option<string> := None;
    KindsNone();
    FoldNone(START);
    assert lines[..0] == [];
    for i := 0 to |lines|
      invariant State(status, currentKey) == Fold(START, Kinds(lines[..i]))
    {
      var line := lines[i];
      assert lines[..i + 1] == lines[..i] + [line];
      KindsSnoc(lines[..i], line);
      FoldSnoc(START, Kinds(lines[..i]), Classify(line));
      var stripped := RStrip(line);
      if stripped == "" {
        currentKey := None;
        continue;
      }
      if StartsWith(stripped, "----") {
        continue;
      }
      if StartsWith(stripped, "Data ") && Contains(stripped, "Value") {
        continue;
      }
      var m := FieldMatch(stripped);
      if m.Some? {
        currentKey := Some(Lower(Strip(m.value.0)));
        status := status[currentKey.value := Strip(m.value.1)];
        continue;
      }
      if currentKey.Some? && StartsWith(line, " ") {
        status := status[currentKey.value := status[currentKey.value] + " " + Strip(stripped)];
      }
    }
    assert lines[..|lines|] == lines;
  }

  // ---- What the current key means -------------------------------------------

  /** Line `i` is the last field line, and no blank line has come since. */
  predicate OpenField(ls: seq<Line>, i: nat) {
    i < |ls| && ls[i].Field? && forall j | i < j < |ls| :: !ls[j].Field? && !ls[j].Blank?
  }

  /** At every point of the loop there is a current key exactly when a field line
      was read with no blank line since, and it is the key of the last one. */
  lemma {:induction false} CurrentKey(ls: seq<Line>)
    ensures Fold(START, ls).current.Some? <==> exists i :: OpenField(ls, i)
    ensures forall i: nat | OpenField(ls, i) :: Fold(START, ls).current == Some(ls[i].key)
  {
    if ls != [] {
      var k := |ls| - 1;
      var init := ls[..k];
      CurrentKey(init);
      match ls[k]
      case Field(_, _) =>
        assert OpenField(ls, k);
        assert forall i: nat :: OpenField(ls, i) ==> i == k;
      case Blank =>
        assert forall i: nat :: !OpenField(ls, i);
      case _ =>
        forall i: nat ensures OpenField(ls, i) <==> OpenField(init, i) {
          if OpenField(init, i) { assert forall j | i < j < k :: ls[j] == init[j]; }
          if OpenField(ls, i) && i < k { assert forall j | i < j < k :: init[j] == ls[j]; }
        }
    }
  }

  // ---- A printed table ------------------------------------------------------

  /** Text that fits on a line and starts and ends with a visible character. */
  predicate Visible(s: string) {
    s != "" && !IsSpace(s[0]) && !IsSpace(s[|s| - 1]) && '\n' !in s
  }

  /** At least two characters, starting with a letter, words apart by single
      spaces. */
  predicate GoodKey(k: string) {
    && |k| >= 2 && IsLetter(k[0]) && k[|k| - 1] != ' '
    && (forall i | 0 <= i < |k| :: IsKeyChar(k[i]))
    && (forall i: nat | i < |k| :: !GapAt(k, i))
  }

  datatype Wrap = Wrap(indent: nat, text: string)
  datatype Row = Row(key: string, gap: nat, value: string, wraps: seq<Wrap>)

  function RowLine(r: Row): string { r.key + Spaces(r.gap) + r.value }

  function WrapLine(w: Wrap): string { Spaces(w.indent) + w.text }

  predicate GoodWrap(w: Wrap) { w.indent > 0 && Visible(w.text) }

  predicate GoodRow(r: Row) {
    && GoodKey(r.key) && r.gap >= 2 && Visible(r.value)
    && forall i | 0 <= i < |r.wraps| :: GoodWrap(r.wraps[i])
  }

  predicate GoodRows(rows: seq<Row>) { forall i | 0 <= i < |rows| :: GoodRow(rows[i]) }

  /** The parser takes the row for the table's heading. */
  predicate LikeHeading(r: Row) { StartsWith(RowLine(r), "Data ") && Contains(RowLine(r), "Value") }

  function WrapLines(ws: seq<Wrap>): seq<string> {
    if ws == [] then [] else WrapLines(ws[..|ws| - 1]) + [WrapLine(ws[|ws| - 1])]
  }

  function RowLines(rows: seq<Row>): seq<string> {
    if rows == [] then []
    else
      var r := rows[|rows| - 1];
      RowLines(rows[..|rows| - 1]) + ([RowLine(r)] + WrapLines(r.wraps))
  }

  /** A value with its wrapped parts rejoined by single spaces. */
  function Rejoined(value: string, ws: seq<Wrap>): string {
    if ws == [] then value else Rejoined(value, ws[..|ws| - 1]) + " " + ws[|ws| - 1].text
  }

  /** What the table says; a key that comes twice has its last value. */
  function Meaning(rows: seq<Row>): map<string, string> {
    if rows == [] then map[]
    else
      var r := rows[|rows| - 1];
      Meaning(rows[..|rows| - 1])[Lower(r.key) := Rejoined(r.value, r.wraps)]
  }

  lemma KeyCharSpace(c: char)
    requires IsKeyChar(c)
    ensures IsSpace(c) <==> c == ' '
  {
  }

  /** The key of a row ends where the printed key does. */
  lemma RowKeyEnd(key: string, rest: string)
    requires GoodKey(key) && |rest| >= 2 && IsSpace(rest[0]) && IsSpace(rest[1])
    ensures KeyEnd(key + rest, 2) == Some(|key|)
  {
    hide IsSpace, IsKeyChar, KeyEnd;
    var s := key + rest;
    var k := |key|;
    assert GapAt(s, k);
    forall i | 2 <= i < k ensures IsKeyChar(s[i]) && !GapAt(s, i) {
      KeyCharSpace(key[i]);
      assert !GapAt(key, i) && s[i] == key[i];
      if i + 1 < k { assert s[i + 1] == key[i + 1]; }
    }
  }

  lemma FieldMatchIs(key: string, rest: string)
    requires GoodKey(key) && KeyEnd(key + rest, 2) == Some(|key|)
    ensures FieldMatch(key + rest) == Some((key, LStrip(rest)))
  {
    hide KeyEnd, LStrip, IsSpace;
    var s := key + rest;
    assert s[..|key|] == key && s[|key|..] == rest && s[0] == key[0] && s[1] == key[1];
  }

  lemma RowField(r: Row)
    requires GoodKey(r.key) && r.gap >= 2 && Visible(r.value)
    ensures FieldMatch(RowLine(r)) == Some((r.key, r.value))
  {
    hide FieldMatch, KeyEnd, LStrip, GoodKey;
    var rest := Spaces(r.gap) + r.value;
    assert RowLine(r) == r.key + rest;
    assert rest[0] == Spaces(r.gap)[0] && rest[1] == Spaces(r.gap)[1];
    RowKeyEnd(r.key, rest);
    FieldMatchIs(r.key, rest);
    LStripVisible(Spaces(r.gap), r.value);
  }

  lemma ClassifyField(s: string, key: string, value: string)
    requires s != "" && RStrip(s) == s && FieldMatch(s) == Some((key, value))
    requires !StartsWith(s, "----") && !(StartsWith(s, "Data ") && Contains(s, "Value"))
    ensures Classify(s) == Field(Lower(Strip(key)), Strip(value))
  {
    hide FieldMatch, Lower, Contains, RStrip, LStrip, StartsWith, Strip;
  }

  lemma RowEnds(r: Row)
    requires GoodKey(r.key) && Visible(r.value)
    ensures Trimmed(RowLine(r)) && Trimmed(r.key) && Trimmed(r.value)
    ensures RowLine(r) != "" && !StartsWith(RowLine(r), "----")
  {
    hide IsSpace;
    var s := RowLine(r);
    assert s[0] == r.key[0] && s[|s| - 1] == r.value[|r.value| - 1];
    KeyCharSpace(r.key[0]);
    KeyCharSpace(r.key[|r.key| - 1]);
  }

  predicate Trimmed(s: string) {
    s != "" && !IsSpace(s[0]) && !IsSpace(s[|s| - 1])
  }

  lemma StripTrimmed(s: string)
    requires Trimmed(s)
    ensures Strip(s) == s && RStrip(s) == s
  {
  }

  lemma RowIsField(r: Row)
    requires GoodRow(r)
    ensures Classify(RowLine(r)) == if LikeHeading(r) then Skipped else Field(Lower(r.key), r.value)
  {
    hide Classify, FieldMatch, Lower, Contains, RStrip, LStrip, StartsWith, Strip, RowLine, GoodKey, Visible, Trimmed;
    RowField(r);
    RowEnds(r);
    StripTrimmed(RowLine(r));
    StripTrimmed(r.key);
    StripTrimmed(r.value);
    if LikeHeading(r) { ClassifySkipped(RowLine(r)); } else { ClassifyField(RowLine(r), r.key, r.value); }
  }

  lemma ClassifySkipped(s: string)
    requires s != "" && RStrip(s) == s && StartsWith(s, "Data ") && Contains(s, "Value")
    ensures Classify(s) == Skipped
  {
    hide FieldMatch, Lower, Contains, RStrip, LStrip, StartsWith, Strip;
  }

  lemma ClassifyMore(s: string)
    requires s != "" && RStrip(s) == s && s[0] == ' '
    ensures Classify(s) == More(Strip(s))
  {
    hide Lower, Contains, RStrip, LStrip, Strip, KeyEnd;
    StartOf(s);
    assert s[..1] == " ";
  }

  lemma WrapIsMore(w: Wrap)
    requires GoodWrap(w)
    ensures Classify(WrapLine(w)) == More(w.text)
  {
    hide Classify, RStrip, LStrip;
    var s := WrapLine(w);
    assert s[|s| - 1] == w.text[|w.text| - 1] && s[0] == Spaces(w.indent)[0];
    RStripAll(s);
    LStripVisible(Spaces(w.indent), w.text);
    ClassifyMore(s);
  }

  lemma StartOf(s: string)
    requires s != "" && s[0] == ' '
    ensures !StartsWith(s, "----") && !StartsWith(s, "Data ")
  {
    if |s| >= 5 { assert s[..4][0] == ' ' && s[..5][0] == ' '; }
    if |s| >= 4 { assert s[..4][0] == ' '; }
  }

  lemma RStripAll(s: string)
    requires s != "" && !IsSpace(s[|s| - 1])
    ensures RStrip(s) == s
  {
  }

  lemma {:induction false} FoldConcat(st: State, a: seq<Line>, b: seq<Line>)
    requires Valid(st)
    ensures Fold(st, a + b) == Fold(Fold(st, a), b)
  {
    if b == [] {
      assert a + b == a;
    } else {
      var k := |b| - 1;
      FoldConcat(st, a, b[..k]);
      assert (a + b)[..|a + b| - 1] == a + b[..k];
    }
  }

  function Mores(ws: seq<Wrap>): (r: seq<Line>)
    ensures |r| == |ws| && forall i | 0 <= i < |r| :: r[i] == More(ws[i].text)
  {
    if ws == [] then [] else Mores(ws[..|ws| - 1]) + [More(ws[|ws| - 1].text)]
  }

  function RowKind(r: Row): Line { if LikeHeading(r) then Skipped else Field(Lower(r.key), r.value) }

  function RowKinds(rows: seq<Row>): seq<Line> {
    if rows == [] then []
    else
      var r := rows[|rows| - 1];
      RowKinds(rows[..|rows| - 1]) + ([RowKind(r)] + Mores(r.wraps))
  }

  /** Every printed line is taken for what it is, but for rows like headings. */
  lemma {:induction false} KindsOfRows(rows: seq<Row>)
    requires GoodRows(rows)
    ensures Kinds(RowLines(rows)) == RowKinds(rows)
  {
    hide RowKind, GoodRow;
    if rows != [] {
      var k := |rows| - 1;
      assert forall i | 0 <= i < k :: rows[..k][i] == rows[i];
      var r := rows[k];
      KindsOfRows(rows[..k]);
      KindsOfRow(r);
      KindsConcat(RowLines(rows[..k]), [RowLine(r)] + WrapLines(r.wraps));
    }
  }

  lemma KindsOfRow(r: Row)
    requires GoodRow(r)
    ensures Kinds([RowLine(r)] + WrapLines(r.wraps)) == [RowKind(r)] + Mores(r.wraps)
  {
    hide Classify, WrapLine, RowLine, WrapLines, Mores, LikeHeading;
    RowIsField(r);
    KindsOfWraps(r.wraps);
    KindsConcat([RowLine(r)], WrapLines(r.wraps));
    KindsSnoc([], RowLine(r));
    assert [] + [RowLine(r)] == [RowLine(r)];
  }

  lemma {:induction false} KindsOfWraps(ws: seq<Wrap>)
    requires forall i | 0 <= i < |ws| :: GoodWrap(ws[i])
    ensures Kinds(WrapLines(ws)) == Mores(ws)
  {
    hide Classify, GoodWrap, WrapLine, Kinds;
    if ws == [] {
      assert Kinds([]) == [] by { KindsNone(); }
    } else {
      var k := |ws| - 1;
      assert forall i | 0 <= i < k :: ws[..k][i] == ws[i];
      KindsOfWraps(ws[..k]);
      WrapIsMore(ws[k]);
      KindsSnoc(WrapLines(ws[..k]), WrapLine(ws[k]));
    }
  }

  lemma KindsNone()
    ensures Kinds([]) == []
  {
  }

  lemma {:induction false} KindsConcat(a: seq<string>, b: seq<string>)
    ensures Kinds(a + b) == Kinds(a) + Kinds(b)
  {
    hide Classify;
    if b == [] {
      assert a + b == a;
    } else {
      var k := |b| - 1;
      KindsConcat(a, b[..k]);
      assert (a + b)[..|a + b| - 1] == a + b[..k];
    }
  }

  lemma KindsSnoc(a: seq<string>, line: string)
    ensures Kinds(a + [line]) == Kinds(a) + [Classify(line)]
  {
    assert (a + [line])[..|a|] == a;
  }

  lemma {:induction false} WrapAt(ws: seq<Wrap>)
    ensures |WrapLines(ws)| == |ws| && forall i | 0 <= i < |ws| :: WrapLines(ws)[i] == WrapLine(ws[i])
  {
    if ws != [] { WrapAt(ws[..|ws| - 1]); }
  }

  lemma FoldSnoc(st: State, ls: seq<Line>, l: Line)
    requires Valid(st)
    ensures Fold(st, ls + [l]) == Step(Fold(st, ls), l)
  {
    assert (ls + [l])[..|ls|] == ls;
  }

  lemma StepMore(status: map<string, string>, key: string, value: string, text: string)
    ensures var st := State(status[key := value], Some(key));
      Step(st, More(text)) == State(status[key := value + " " + text], Some(key))
  {
  }

  lemma {:induction false} FoldWraps(st: State, ws: seq<Wrap>, key: string, value: string)
    requires Valid(st) && st.current == Some(key) && st.status[key] == value
    ensures Fold(st, Mores(ws)) == State(st.status[key := Rejoined(value, ws)], Some(key))
  {
    hide Step;
    if ws == [] {
      assert st.status[key := value] == st.status;
    } else {
      var k := |ws| - 1;
      FoldWraps(st, ws[..k], key, value);
      hide Fold;
      FoldSnoc(st, Mores(ws[..k]), More(ws[k].text));
      StepMore(st.status, key, Rejoined(value, ws[..k]), ws[k].text);
    }
  }

  // ---- What a printed table is read as --------------------------------------

  /** The row above takes over the wrapped lines of one that is dropped. */
  function Glued(r: Row, ws: seq<Wrap>): Row { r.(wraps := r.wraps + ws) }

  /** Rows like headings are dropped, and their wrapped lines go to the last row
      that was kept, if there is one. */
  function Merged(rows: seq<Row>): (m: seq<Row>)
    ensures |m| <= |rows|
  {
    if rows == [] then []
    else
      var r := rows[|rows| - 1];
      var m := Merged(rows[..|rows| - 1]);
      if !LikeHeading(r) then m + [r]
      else if m == [] then []
      else m[|m| - 1 := Glued(m[|m| - 1], r.wraps)]
  }

  lemma {:induction false} RejoinedMore(value: string, a: seq<Wrap>, b: seq<Wrap>)
    ensures Rejoined(value, a + b) == Rejoined(Rejoined(value, a), b)
  {
    if b == [] {
      assert a + b == a;
    } else {
      var k := |b| - 1;
      RejoinedMore(value, a, b[..k]);
      assert (a + b)[..|a + b| - 1] == a + b[..k];
    }
  }

  lemma {:induction false} FoldIdle(st: State, ws: seq<Wrap>)
    requires Valid(st) && st.current.None?
    ensures Fold(st, Mores(ws)) == st
  {
    if ws != [] {
      FoldIdle(st, ws[..|ws| - 1]);
      FoldSnoc(st, Mores(ws[..|ws| - 1]), More(ws[|ws| - 1].text));
    }
  }

  /** The state that a list of rows leaves behind. */
  function StateOf(rows: seq<Row>): State {
    State(Meaning(rows), if rows == [] then None else Some(Lower(rows[|rows| - 1].key)))
  }

  lemma MeaningSnoc(rows: seq<Row>, r: Row)
    ensures Meaning(rows + [r]) == Meaning(rows)[Lower(r.key) := Rejoined(r.value, r.wraps)]
  {
    assert (rows + [r])[..|rows|] == rows;
  }

  lemma LastEntry(rows: seq<Row>)
    requires rows != []
    ensures var r := rows[|rows| - 1];
      Lower(r.key) in Meaning(rows) && Meaning(rows)[Lower(r.key)] == Rejoined(r.value, r.wraps)
  {
  }

  /** Wrapped lines after the last row change its value alone. */
  lemma GluedMeaning(rows: seq<Row>, ws: seq<Wrap>)
    requires rows != []
    ensures var k := |rows| - 1; var r := rows[k];
      Meaning(rows[k := Glued(r, ws)]) ==
      Meaning(rows)[Lower(r.key) := Rejoined(Rejoined(r.value, r.wraps), ws)]
  {
    hide Lower, Rejoined;
    var k := |rows| - 1;
    var r := rows[k];
    RejoinedMore(r.value, r.wraps, ws);
    assert rows[k := Glued(r, ws)] == rows[..k] + [Glued(r, ws)] && rows == rows[..k] + [r];
    MeaningSnoc(rows[..k], r);
    MeaningSnoc(rows[..k], Glued(r, ws));
  }

  /** One more row, on what the rows before it left behind. */
  lemma FoldRow(m: seq<Row>, r: Row)
    ensures Valid(StateOf(m)) && Fold(StateOf(m), [RowKind(r)] + Mores(r.wraps)) ==
      StateOf(if !LikeHeading(r) then m + [r]
              else if m == [] then [] else m[|m| - 1 := Glued(m[|m| - 1], r.wraps)])
  {
    hide Lower, Mores, Rejoined, LikeHeading, Meaning;
    if m != [] { LastEntry(m); }
    var st := StateOf(m);
    FoldOne(st, RowKind(r));
    FoldConcat(st, [RowKind(r)], Mores(r.wraps));
    if !LikeHeading(r) {
      MeaningSnoc(m, r);
      FoldWraps(Step(st, RowKind(r)), r.wraps, Lower(r.key), r.value);
    } else if m == [] {
      FoldIdle(st, r.wraps);
    } else {
      var last := m[|m| - 1];
      GluedMeaning(m, r.wraps);
      FoldWraps(st, r.wraps, Lower(last.key), Rejoined(last.value, last.wraps));
    }
  }

  lemma FoldOne(st: State, l: Line)
    requires Valid(st)
    ensures Fold(st, [l]) == Step(st, l)
  {
    FoldSnoc(st, [], l);
    assert [] + [l] == [l];
  }

  lemma {:induction false} FoldRows(rows: seq<Row>)
    ensures Fold(START, RowKinds(rows)) == StateOf(Merged(rows))
  {
    hide RowKind, LikeHeading, Meaning, Lower, Mores;
    if rows == [] {
      NoRows();
    } else {
      var k := |rows| - 1;
      var r := rows[k];
      FoldRows(rows[..k]);
      FoldRow(Merged(rows[..k]), r);
      FoldConcat(START, RowKinds(rows[..k]), [RowKind(r)] + Mores(r.wraps));
    }
  }

  lemma NoRows()
    ensures StateOf([]) == START
  {
  }

  lemma FoldNone(st: State)
    requires Valid(st)
    ensures Fold(st, []) == st
  {
  }

  // ---- Lines that say nothing -----------------------------------------------

  lemma {:induction false} FoldClosed(st: State, ls: seq<Line>)
    requires Valid(st) && st.current.None? && forall i | 0 <= i < |ls| :: !ls[i].Field?
    ensures Fold(st, ls) == st
  {
    if ls != [] { FoldClosed(st, ls[..|ls| - 1]); }
  }

  /** A blank line closes the last field: nothing up to the next field is read. */
  lemma ClosedByBlank(ls: seq<Line>, more: seq<Line>)
    requires forall i | 0 <= i < |more| :: !more[i].Field?
    ensures Fold(START, ls + [Blank] + more).status == Fold(START, ls).status
  {
    FoldSnoc(START, ls, Blank);
    FoldConcat(START, ls + [Blank], more);
    FoldClosed(Fold(START, ls + [Blank]), more);
  }

  /** Rules, headings and other lines might as well not be there. */
  lemma IdleLine(a: seq<Line>, l: Line, b: seq<Line>)
    requires l.Skipped? || l.Other?
    ensures Fold(START, a + [l] + b) == Fold(START, a + b)
  {
    FoldSnoc(START, a, l);
    FoldConcat(START, a + [l], b);
    FoldConcat(START, a, b);
  }

  /** Without the word that opens the section the whole text is read. */
  lemma WholeText(lines: seq<string>)
    requires lines != [] && Free(lines, '\n') && !Contains(Join(lines, '\n'), "Status:")
    ensures StatusOf(Join(lines, '\n')) == Fold(START, Kinds(lines)).status
  {
    hide Kinds, Fold, Join, Split;
    SplitJoin(lines, '\n');
  }

  // ---- The round trip -------------------------------------------------------

  function Heading(gap: nat): string { "Data " + (Spaces(gap) + "Value") }

  /** The printed lines after "Status:", the last one ended by a line break. */
  function TableLines(gap: nat, rule: string, rows: seq<Row>): seq<string> {
    ["", Heading(gap), rule] + RowLines(rows) + [""]
  }

  lemma HeadingSkipped(gap: nat)
    ensures Classify(Heading(gap)).Skipped? && '\n' !in Heading(gap)
  {
    hide FieldMatch, Lower, RStrip, LStrip, Find, IsSpace;
    var s := Heading(gap);
    assert s[|s| - 5..] == "Value" && s[..5] == "Data ";
    assert At(s, "Value", |s| - 5);
    ContainsAt(s, "Value", |s| - 5);
    assert s[|s| - 1] == 'e';
    LetterVisible('e');
    RStripAll(s);
  }

  lemma LetterVisible(c: char)
    requires IsLetter(c)
    ensures !IsSpace(c)
  {
  }

  lemma RuleSkipped(rule: string)
    requires Trimmed(rule) && StartsWith(rule, "----")
    ensures Classify(rule).Skipped?
  {
    hide FieldMatch, Lower, RStrip, LStrip, Find, IsSpace, Contains;
    RStripAll(rule);
  }

  lemma {:induction false} RowLinesFree(rows: seq<Row>)
    requires GoodRows(rows)
    ensures Free(RowLines(rows), '\n')
  {
    if rows != [] {
      var k := |rows| - 1;
      assert forall i | 0 <= i < k :: rows[..k][i] == rows[i];
      RowLinesFree(rows[..k]);
      RowFree(rows[k]);
    }
  }

  lemma RowFree(r: Row)
    requires GoodRow(r)
    ensures Free([RowLine(r)] + WrapLines(r.wraps), '\n')
  {
    hide IsSpace;
    WrapAt(r.wraps);
    assert forall i | 0 <= i < |r.key| :: IsKeyChar(r.key[i]);
    assert '\n' !in RowLine(r);
    forall i | 0 <= i < |r.wraps| ensures '\n' !in WrapLine(r.wraps[i]) { assert GoodWrap(r.wraps[i]); }
  }

  lemma TableKinds(gap: nat, rule: string, rows: seq<Row>)
    requires Trimmed(rule) && StartsWith(rule, "----")
    requires GoodRows(rows)
    ensures Kinds(TableLines(gap, rule, rows)) == [Blank, Skipped, Skipped] + RowKinds(rows) + [Blank]
  {
    hide Classify, GoodRow, Trimmed, StartsWith, Heading, RowLines, RowKinds, Kinds;
    HeadingSkipped(gap);
    RuleSkipped(rule);
    BlankLine();
    KindsOfRows(rows);
    KindsOfHead(Heading(gap), rule);
    var head := ["", Heading(gap), rule];
    KindsSnoc(head + RowLines(rows), "");
    KindsConcat(head, RowLines(rows));
  }

  lemma KindsOfHead(h: string, rule: string)
    requires Classify(h).Skipped? && Classify(rule).Skipped? && Classify("").Blank?
    ensures Kinds(["", h, rule]) == [Blank, Skipped, Skipped]
  {
    hide Classify, Kinds;
    KindsNone();
    KindsSnoc([], "");
    KindsSnoc([""], h);
    KindsSnoc(["", h], rule);
    assert [] + [""] == [""] && [""] + [h] == ["", h] && ["", h] + [rule] == ["", h, rule];
  }

  lemma TableFree(gap: nat, rule: string, rows: seq<Row>)
    requires '\n' !in rule && GoodRows(rows)
    ensures Free(TableLines(gap, rule, rows), '\n')
  {
    hide Classify, GoodRow, RowLines;
    HeadingSkipped(gap);
    RowLinesFree(rows);
    hide Heading;
  }

  /** The output around a Status section with these lines. */
  function StatusText(pre: string, lines: seq<string>): string
    requires lines != []
  {
    pre + ("Status:" + Join(lines, '\n'))
  }

  lemma StatusOfText(pre: string, lines: seq<string>)
    requires lines != [] && !Contains(pre, "Status:") && Free(lines, '\n')
    ensures StatusOf(StatusText(pre, lines)) == Fold(START, Kinds(lines)).status
  {
    hide Contains, Find, Join, Split, Kinds, Fold, AfterStatus;
    var body := Join(lines, '\n');
    FindPlanted(pre, "Status:", body);
    AfterIs(pre, body);
    SplitJoin(lines, '\n');
  }

  /** Printing any table and parsing the text gives what its merged rows say:
      whatever stands before the word that opens the section, and for any column
      widths. */
  lemma StatusOfTable(pre: string, gap: nat, rule: string, rows: seq<Row>)
    requires !Contains(pre, "Status:") && Trimmed(rule) && StartsWith(rule, "----") && '\n' !in rule && GoodRows(rows)
    ensures StatusOf(StatusText(pre, TableLines(gap, rule, rows))) == Meaning(Merged(rows))
  {
    TableFree(gap, rule, rows);
    TableKinds(gap, rule, rows);
    hide Contains, GoodRows, Trimmed, StartsWith, TableLines, RowKinds, Meaning, Kinds, Fold, StatusText, StatusOf, Merged;
    StatusOfText(pre, TableLines(gap, rule, rows));
    FoldRows(rows);
    FoldTable(RowKinds(rows));
  }

  predicate NoHeading(rows: seq<Row>) { forall i | 0 <= i < |rows| :: !LikeHeading(rows[i]) }

  lemma {:induction false} MergedSame(rows: seq<Row>)
    requires NoHeading(rows)
    ensures Merged(rows) == rows
  {
    hide LikeHeading;
    if rows != [] {
      var k := |rows| - 1;
      assert forall i | 0 <= i < k :: rows[..k][i] == rows[i];
      MergedSame(rows[..k]);
    }
  }

  predicate DistinctKeys(rows: seq<Row>) {
    forall i, j | 0 <= i < j < |rows| :: Lower(rows[i].key) != Lower(rows[j].key)
  }

  lemma {:induction false} MeaningKeys(rows: seq<Row>, k: string)
    ensures k in Meaning(rows) <==> exists i :: 0 <= i < |rows| && Lower(rows[i].key) == k
  {
    hide Lower, Rejoined;
    if rows != [] {
      var n := |rows| - 1;
      MeaningKeys(rows[..n], k);
      assert forall i | 0 <= i < n :: rows[..n][i] == rows[i];
      if Lower(rows[n].key) == k { assert rows[n] == rows[n]; }
    }
  }

  /** Merged rows keep the keys of rows that do not look like headings. */
  lemma {:induction false} MergedKeys(rows: seq<Row>, i: nat) returns (j: nat)
    requires i < |Merged(rows)|
    ensures j < |rows| && !LikeHeading(rows[j]) && Merged(rows)[i].key == rows[j].key
  {
    hide LikeHeading;
    var k := |rows| - 1;
    var m := Merged(rows[..k]);
    if i < |m| {
      j := MergedKeys(rows[..k], i);
    } else {
      j := k;
    }
  }

  lemma HeadingLost(rows: seq<Row>, i: nat)
    requires DistinctKeys(rows) && i < |rows| && LikeHeading(rows[i])
    ensures Meaning(Merged(rows)) != Meaning(rows)
  {
    hide LikeHeading, Merged, Meaning, Lower;
    var k := Lower(rows[i].key);
    MeaningKeys(rows, k);
    MeaningKeys(Merged(rows), k);
    if n: nat :| n < |Merged(rows)| && Lower(Merged(rows)[n].key) == k {
      var j := MergedKeys(rows, n);
    }
  }

  lemma DataRateKey()
    ensures GoodKey("Data Rate")
  {
  }

  /** A row whose key starts with "Data " and whose value starts with "Value". */
  lemma HeadingLike(key: string, gap: nat, value: string)
    requires StartsWith(key, "Data ") && StartsWith(value, "Value")
    ensures LikeHeading(Row(key, gap, value, []))
  {
    var line := key + Spaces(gap) + value;
    assert line[..5] == key[..5];
    var k := |key| + gap;
    assert line[k..k + 5] == value[..5];
    ContainsAt(line, "Value", k);
  }

  /** For one, a data rate of "Value 3" is such a row. */
  lemma DataRateLost()
    ensures GoodRow(Row("Data Rate", 2, "Value 3", [])) && LikeHeading(Row("Data Rate", 2, "Value 3", []))
  {
    hide GoodKey, LikeHeading;
    DataRateKey();
    HeadingLike("Data Rate", 2, "Value 3");
  }

  /** A table comes back, keys in lower case and wrapped values rejoined by single
      spaces, if no row looks like the heading; and for tables with distinct keys
      only then. */
  lemma StatusRoundTrip(pre: string, gap: nat, rule: string, rows: seq<Row>)
    requires !Contains(pre, "Status:") && Trimmed(rule) && StartsWith(rule, "----") && '\n' !in rule && GoodRows(rows)
    ensures NoHeading(rows) ==> StatusOf(StatusText(pre, TableLines(gap, rule, rows))) == Meaning(rows)
    ensures DistinctKeys(rows) ==>
      (StatusOf(StatusText(pre, TableLines(gap, rule, rows))) == Meaning(rows) <==> NoHeading(rows))
  {
    hide Contains, GoodRows, Trimmed, StartsWith, TableLines, Meaning, StatusText, StatusOf, Merged, DistinctKeys, LikeHeading;
    StatusOfTable(pre, gap, rule, rows);
    if NoHeading(rows) {
      MergedSame(rows);
    } else if DistinctKeys(rows) {
      var i: nat :| i < |rows| && LikeHeading(rows[i]);
      HeadingLost(rows, i);
    }
  }

  lemma AfterIs(pre: string, body: string)
    requires Find(pre + ("Status:" + body), "Status:") == |pre|
    ensures AfterStatus(pre + ("Status:" + body)) == body
  {
    var t := pre + ("Status:" + body);
    assert t[|pre| + 7..] == body;
  }

  lemma BlankLine()
    ensures Classify("") == Blank
  {
  }

  lemma FoldTable(ls: seq<Line>)
    ensures Fold(START, [Blank, Skipped, Skipped] + ls + [Blank]).status == Fold(START, ls).status
  {
    var head := [Blank, Skipped, Skipped];
    assert head == [] + [Blank] + [Skipped] + [Skipped];
    FoldSnoc(START, [], Blank);
    FoldSnoc(START, [] + [Blank], Skipped);
    FoldSnoc(START, [] + [Blank] + [Skipped], Skipped);
    assert Fold(START, []) == START;
    FoldConcat(START, head, ls);
    FoldSnoc(START, head + ls, Blank);
  }
}
