/** Python's strings and dicts, as far as the modelled scripts use them.

    A text is a `string`; positions count from 0.  Searching (`find`, `in`),
    splitting, joining, stripping and lower-casing are functions with the
    meaning they have in Python, white space being what `str.isspace` takes for
    it and letters being ASCII.  The lemmas below are what the other modules
    need to reason about texts that are put together from parts: where a pattern
    can occur in them, and that it occurs nowhere else. */
module Text {

  datatype Option<+T> = None | Some(value: T)

  /** The items of a dict: keys are distinct. */
  predicate IsDict(items: seq<(string, string)>) {
    forall i, j | 0 <= i < j < |items| :: items[i].0 != items[j].0
  }

  // ---- Searching ------------------------------------------------------------

  /** `p` occurs in `s` at index `i`. */
  predicate At(s: string, p: string, i: nat) {
    i + |p| <= |s| && s[i..i + |p|] == p
  }

  /** The first occurrence of `p` in `s` at or after `i`, or -1. */
  function FindFrom(s: string, p: string, i: nat): (r: int)
    requires i <= |s|
    ensures r == -1 || i <= r <= |s|
    ensures r == -1 ==> forall k: nat :: i <= k ==> !At(s, p, k)
    ensures r != -1 ==> At(s, p, r) && forall k: nat :: i <= k < r ==> !At(s, p, k)
    decreases |s| - i
  {
    if i + |p| > |s| then -1
    else if At(s, p, i) then i
    else FindFrom(s, p, i + 1)
  }

  /** Python's `str.find`. */
  function Find(s: string, p: string): (r: int)
    ensures r == -1 || 0 <= r <= |s|
    ensures r == -1 ==> forall k: nat :: !At(s, p, k)
    ensures r != -1 ==> At(s, p, r) && forall k: nat :: k < r ==> !At(s, p, k)
  {
    FindFrom(s, p, 0)
  }

  /** Python's `s.startswith(p)`. */
  predicate StartsWith(s: string, p: string) { |p| <= |s| && s[..|p|] == p }

  function Spaces(n: nat): (r: string)
    ensures |r| == n && Blank(r) && forall i | 0 <= i < n :: r[i] == ' '
  {
    if n == 0 then "" else " " + Spaces(n - 1)
  }

  /** Python's `p in s`. */
  predicate Contains(s: string, p: string) {
    Find(s, p) != -1
  }

  lemma ContainsAt(s: string, p: string, i: nat)
    requires At(s, p, i)
    ensures Contains(s, p)
  {
  }

  // ---- Splitting and joining ------------------------------------------------

  /** Python's `sep.join(parts)` of a non-empty list. */
  function Join(parts: seq<string>, sep: char): string
    requires parts != []
  {
    if |parts| == 1 then parts[0] else parts[0] + [sep] + Join(parts[1..], sep)
  }

  /** Python's `s.split(sep)`. */
  function Split(s: string, sep: char): (parts: seq<string>)
    ensures parts != []
  {
    if s == "" then [""]
    else
      var rest := Split(s[1..], sep);
      if s[0] == sep then [""] + rest else [[s[0]] + rest[0]] + rest[1..]
  }

  predicate Free(parts: seq<string>, sep: char) {
    forall i | 0 <= i < |parts| :: sep !in parts[i]
  }

  /** A prefix without the separator belongs to the first part. */
  lemma {:induction false} SplitPrefix(p: string, s: string, sep: char)
    requires sep !in p
    ensures Split(p + s, sep) == [p + Split(s, sep)[0]] + Split(s, sep)[1..]
  {
    if p == "" {
      assert p + s == s;
      assert p + Split(s, sep)[0] == Split(s, sep)[0];
    } else {
      assert p[0] in p;
      assert (p + s)[1..] == p[1..] + s;
      SplitPrefix(p[1..], s, sep);
      assert [p[0]] + (p[1..] + Split(s, sep)[0]) == p + Split(s, sep)[0];
    }
  }

  /** Joining loses nothing when no part has the separator in it. */
  lemma {:induction false} SplitJoin(parts: seq<string>, sep: char)
    requires parts != [] && Free(parts, sep)
    ensures Split(Join(parts, sep), sep) == parts
  {
    if |parts| == 1 {
      SplitPrefix(parts[0], "", sep);
      assert parts[0] + "" == parts[0];
    } else {
      var rest := Join(parts[1..], sep);
      SplitJoin(parts[1..], sep);
      assert ([sep] + rest)[1..] == rest;
      assert Split([sep] + rest, sep) == [""] + parts[1..];
      SplitPrefix(parts[0], [sep] + rest, sep);
      assert parts[0] + [sep] + rest == parts[0] + ([sep] + rest);
      assert parts[0] + "" == parts[0];
      assert parts == [parts[0]] + parts[1..];
    }
  }

  /** Splitting loses nothing, and leaves no separator. */
  lemma {:induction false} JoinSplit(s: string, sep: char)
    ensures Join(Split(s, sep), sep) == s && Free(Split(s, sep), sep)
  {
    if s != "" {
      var rest := Split(s[1..], sep);
      JoinSplit(s[1..], sep);
      assert s == [s[0]] + s[1..];
      if s[0] == sep {
        assert ([""] + rest)[1..] == rest;
        assert "" + [sep] == [sep];
      } else {
        JoinGrow(s[0], rest, sep);
      }
    }
  }

  lemma JoinGrow(c: char, rest: seq<string>, sep: char)
    requires rest != []
    ensures Join([[c] + rest[0]] + rest[1..], sep) == [c] + Join(rest, sep)
  {
    var more := [[c] + rest[0]] + rest[1..];
    assert more[1..] == rest[1..];
    if |rest| > 1 {
      assert [c] + rest[0] + [sep] + Join(rest[1..], sep) == [c] + (rest[0] + [sep] + Join(rest[1..], sep));
    }
  }

  /** Text around a separator splits apart there. */
  lemma {:induction false} SplitAround(a: string, b: string, sep: char)
    ensures Split(a + [sep] + b, sep) == Split(a, sep) + Split(b, sep)
  {
    if a == "" {
      assert (a + [sep] + b)[1..] == b && (a + [sep] + b)[0] == sep;
    } else {
      var s := a + [sep] + b;
      assert s[1..] == a[1..] + [sep] + b && s[0] == a[0];
      SplitAround(a[1..], b, sep);
    }
  }

  // ---- Python's strip -------------------------------------------------------

  /** The characters that `str.strip` removes. */
  predicate IsSpace(c: char) {
    '\t' <= c <= '\r' || '\U{1c}' <= c <= ' ' || c == '\U{85}' || c == '\U{a0}' || c == '\U{1680}' ||
    '\U{2000}' <= c <= '\U{200a}' || c == '\U{2028}' || c == '\U{2029}' || c == '\U{202f}' ||
    c == '\U{205f}' || c == '\U{3000}'
  }

  predicate Blank(s: string) { forall i | 0 <= i < |s| :: IsSpace(s[i]) }

  /** Python's `s.rstrip()`. */
  function RStrip(s: string): string {
    if s != "" && IsSpace(s[|s| - 1]) then RStrip(s[..|s| - 1]) else s
  }

  /** Python's `s.lstrip()`. */
  function LStrip(s: string): string {
    if s != "" && IsSpace(s[0]) then LStrip(s[1..]) else s
  }

  /** Stripping removes the white space at that end, and no more. */
  lemma {:induction false} RStripIs(s: string)
    ensures RStrip(s) <= s && Blank(s[|RStrip(s)|..])
    ensures RStrip(s) == "" || !IsSpace(RStrip(s)[|RStrip(s)| - 1])
  {
    if s != "" && IsSpace(s[|s| - 1]) {
      var init := s[..|s| - 1];
      RStripIs(init);
      forall i | |RStrip(s)| <= i < |s| ensures IsSpace(s[i]) {
        if i < |s| - 1 { assert init[|RStrip(s)|..][i - |RStrip(s)|] == s[i]; }
      }
    }
  }

  lemma {:induction false} LStripIs(s: string)
    ensures |LStrip(s)| <= |s| && LStrip(s) == s[|s| - |LStrip(s)|..] && Blank(s[..|s| - |LStrip(s)|])
    ensures LStrip(s) == "" || !IsSpace(LStrip(s)[0])
  {
    if s != "" && IsSpace(s[0]) {
      var rest := s[1..];
      LStripIs(rest);
      var k := |rest| - |LStrip(s)|;
      assert s[k + 1..] == rest[k..];
      forall i | 0 <= i < k + 1 ensures IsSpace(s[i]) {
        if i > 0 { assert rest[..k][i - 1] == s[i]; }
      }
    }
  }

  lemma {:induction false} RStripBlank(s: string, w: string)
    requires Blank(w)
    ensures RStrip(s + w) == RStrip(s)
  {
    if w == "" {
      assert s + w == s;
    } else {
      assert (s + w)[..|s + w| - 1] == s + w[..|w| - 1];
      RStripBlank(s, w[..|w| - 1]);
    }
  }

  lemma {:induction false} LStripBlank(w: string, s: string)
    requires Blank(w)
    ensures LStrip(w + s) == LStrip(s)
  {
    if w == "" {
      assert w + s == s;
    } else {
      assert (w + s)[1..] == w[1..] + s;
      LStripBlank(w[1..], s);
    }
  }

  lemma StripTwice(s: string)
    ensures RStrip(RStrip(s)) == RStrip(s) && LStrip(LStrip(s)) == LStrip(s)
  {
  }

  lemma LStripVisible(w: string, v: string)
    requires Blank(w) && (v == "" || !IsSpace(v[0]))
    ensures LStrip(w + v) == v
  {
    LStripBlank(w, v);
  }

  /** Python's `s.strip()`. */
  function Strip(s: string): string { LStrip(RStrip(s)) }

  /** What is left has no white space at its ends, and only white space is gone. */
  lemma StripIs(s: string) returns (a: string, b: string)
    ensures s == a + Strip(s) + b && Blank(a) && Blank(b)
    ensures Strip(s) == "" || (!IsSpace(Strip(s)[0]) && !IsSpace(Strip(s)[|Strip(s)| - 1]))
  {
    RStripIs(s);
    LStripIs(RStrip(s));
    hide RStrip, LStrip, IsSpace;
    var r := RStrip(s);
    a, b := r[..|r| - |Strip(s)|], s[|r|..];
    assert r == a + Strip(s) && s == r + b;
    assert Strip(s) != "" ==> Strip(s)[|Strip(s)| - 1] == r[|r| - 1];
  }

  // ---- Searching in a text put together from parts --------------------------

  /** One line whose first character is not blank and does not recur. */
  predicate Lone(m: string) {
    m != "" && m[0] !in m[1..] && '\n' !in m && !IsSpace(m[0])
  }

  lemma LoneFirst(m: string, c: char, rest: string)
    requires m == [c] + rest && c !in rest && !IsSpace(c) && '\n' !in rest
    ensures Lone(m)
  {
    assert m[1..] == rest;
  }

  lemma AtPrefix(a: string, b: string, p: string, k: nat)
    requires k + |p| <= |a|
    ensures At(a + b, p, k) <==> At(a, p, k)
  {
    assert (a + b)[k..k + |p|] == a[k..k + |p|];
  }

  lemma AtSuffix(a: string, b: string, p: string, k: nat)
    ensures At(a + b, p, |a| + k) <==> At(b, p, k)
  {
    if k + |p| <= |b| { assert (a + b)[|a| + k..|a| + k + |p|] == b[k..k + |p|]; }
  }

  /** No occurrence that started earlier runs into a place that holds the
      pattern's first character, if that character does not recur. */
  lemma AtUnbordered(s: string, p: string, k: nat, x: nat)
    requires Lone(p) && x < |s| && s[x] == p[0] && k < x < k + |p|
    ensures !At(s, p, k)
  {
    if k + |p| <= |s| {
      assert s[k..k + |p|][x - k] == s[x];
      assert p[x - k] == p[1..][x - k - 1];
    }
  }

  /** A planted marker is the first occurrence if the text before has none. */
  lemma FindPlanted(a: string, p: string, b: string)
    requires Lone(p) && !Contains(a, p)
    ensures Find(a + (p + b), p) == |a|
  {
    var s := a + (p + b);
    AtSuffix(a, p + b, p, 0);
    assert At(p + b, p, 0);
    forall k: nat | k < |a| ensures !At(s, p, k) {
      if k + |p| <= |a| { AtPrefix(a, p + b, p, k); } else { AtUnbordered(s, p, k, |a|); }
    }
  }

  lemma ContainsSelf(p: string)
    ensures Contains(p, p)
  {
    ContainsAt(p, p, 0);
  }

  lemma ContainsPrefix(a: string, b: string, p: string)
    ensures Contains(a, p) ==> Contains(a + b, p)
  {
    if Contains(a, p) {
      var k := Find(a, p);
      AtPrefix(a, b, p, k);
      ContainsAt(a + b, p, k);
    }
  }

  lemma ContainsSuffix(a: string, b: string, p: string)
    ensures Contains(b, p) ==> Contains(a + b, p)
  {
    if Contains(b, p) {
      var k := Find(b, p);
      AtSuffix(a, b, p, k);
      ContainsAt(a + b, p, |a| + k);
    }
  }

  /** What surrounds a character outside the pattern can be searched apart. */
  lemma ContainsAround(a: string, c: char, b: string, p: string)
    requires p != "" && c !in p
    ensures Contains(a + ([c] + b), p) <==> Contains(a, p) || Contains(b, p)
  {
    hide Contains;
    var s := a + ([c] + b);
    ContainsPrefix(a, [c] + b, p);
    assert s == (a + [c]) + b;
    ContainsSuffix(a + [c], b, p);
    if !Contains(a, p) && !Contains(b, p) { ContainsAroundOnly(a, c, b, p); }
  }

  lemma ContainsAroundOnly(a: string, c: char, b: string, p: string)
    requires p != "" && c !in p && !Contains(a, p) && !Contains(b, p)
    ensures !Contains(a + ([c] + b), p)
  {
    var s := a + ([c] + b);
    assert s == (a + [c]) + b && s[|a|] == c;
    forall k: nat ensures !At(s, p, k) {
      if k + |p| <= |a| {
        AtPrefix(a, [c] + b, p, k);
      } else if k <= |a| {
      } else {
        AtSuffix(a + [c], b, p, k - |a| - 1);
      }
    }
  }

  lemma EmptyLacks(p: string)
    requires p != ""
    ensures !Contains("", p)
  {
    assert Find("", p) == -1;
  }

  lemma FirstInPrefix(a: string, b: string, p: string) returns (j: nat)
    requires Contains(a, p)
    ensures Find(a + b, p) == j == Find(a, p) && j + |p| <= |a|
  {
    j := Find(a, p);
    AtPrefix(a, b, p, j);
    forall k: nat | k < j ensures !At(a + b, p, k) { AtPrefix(a, b, p, k); }
  }

  /** A one-line text is found in joined lines exactly when it is in one. */
  lemma {:induction false} LinesContain(lines: seq<string>, p: string)
    requires lines != [] && p != "" && '\n' !in p
    ensures Contains(Join(lines, '\n'), p) <==> exists i | 0 <= i < |lines| :: Contains(lines[i], p)
  {
    hide Contains;
    if |lines| > 1 {
      LinesContain(lines[1..], p);
      ContainsAround(lines[0], '\n', Join(lines[1..], '\n'), p);
      assert Join(lines, '\n') == lines[0] + ("\n" + Join(lines[1..], '\n'));
      assert forall i | 0 <= i < |lines| - 1 :: lines[1..][i] == lines[i + 1];
      assert forall i | 0 < i < |lines| :: lines[i] == lines[1..][i - 1];
    }
  }

  lemma CharLacks(s: string, p: string)
    requires p != "" && p[0] !in s
    ensures !Contains(s, p)
  {
    forall k: nat ensures !At(s, p, k) {
      if k + |p| <= |s| { assert s[k..k + |p|][0] == s[k]; }
    }
  }

  // ---- Case -----------------------------------------------------------------

  function LowerChar(c: char): char {
    if 'A' <= c <= 'Z' then 'a' + (c - 'A') else c
  }

  /** Python's `s.lower()` on ASCII text. */
  function Lower(s: string): string {
    if s == "" then "" else [LowerChar(s[0])] + Lower(s[1..])
  }
  /** The same letter in either case, or the same character. */
  predicate SameLetter(c: char, d: char) {
    || c == d
    || ('A' <= c <= 'Z' && 'a' <= d <= 'z' && c - 'A' == d - 'a')
    || ('A' <= d <= 'Z' && 'a' <= c <= 'z' && d - 'A' == c - 'a')
  }

  lemma {:induction false} LowerAt(s: string)
    ensures |Lower(s)| == |s| && forall i | 0 <= i < |s| :: Lower(s)[i] == LowerChar(s[i])
  {
    if s != "" {
      LowerAt(s[1..]);
      assert forall i | 0 < i < |s| :: s[1..][i - 1] == s[i];
    }
  }

  /** Texts are equal in lower case exactly if they differ in nothing but case. */
  lemma LowerExactly(a: string, b: string)
    ensures Lower(a) == Lower(b) <==> |a| == |b| && forall i | 0 <= i < |a| :: SameLetter(a[i], b[i])
  {
    hide Lower, SameLetter, LowerChar;
    LowerAt(a);
    LowerAt(b);
    forall c: char, d: char ensures LowerChar(c) == LowerChar(d) <==> SameLetter(c, d) { SameLower(c, d); }
    if Lower(a) == Lower(b) {
      forall i | 0 <= i < |a| ensures SameLetter(a[i], b[i]) { assert Lower(a)[i] == Lower(b)[i]; }
    }
  }

  lemma SameLower(c: char, d: char)
    ensures LowerChar(c) == LowerChar(d) <==> SameLetter(c, d)
  {
  }

  /** Lower case has no capitals. */
  lemma {:induction false} LowerHasNoCapitals(s: string)
    ensures forall i | 0 <= i < |Lower(s)| :: !('A' <= Lower(s)[i] <= 'Z')
  {
    LowerAt(s);
  }
}
