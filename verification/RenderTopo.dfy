/** Placeholder substitution (lab/render_topo.py): a fold of `str.replace`
    over a dict, checked against one simultaneous left-to-right expansion. */
module RenderTopo {
  import opened Text

  // ---- The `${NAME}` syntax -------------------------------------------------

  predicate IsNameChar(c: char) {
    'A' <= c <= 'Z' || '0' <= c <= '9' || c == '_'
  }

  predicate IsName(n: string) {
    n != "" && forall i | 0 <= i < |n| :: IsNameChar(n[i])
  }

  function Token(n: string): string { "${" + n + "}" }

  /** The end of the longest run of name characters starting at `i`. */
  function NameEnd(s: string, i: nat): (j: nat)
    requires i <= |s|
    ensures i <= j <= |s|
    ensures forall k | i <= k < j :: IsNameChar(s[k])
    ensures j < |s| ==> !IsNameChar(s[j])
    decreases |s| - i
  {
    if i < |s| && IsNameChar(s[i]) then NameEnd(s, i + 1) else i
  }

  /** `s` starts with a match of the pattern `\$\{[A-Z0-9_]+\}`. */
  predicate TokenHead(s: string) {
    |s| >= 2 && s[0] == '$' && s[1] == '{' &&
    var j := NameEnd(s, 2);
    2 < j < |s| && s[j] == '}'
  }

  function HeadName(s: string): (n: string)
    requires TokenHead(s)
    ensures IsName(n) && |Token(n)| <= |s| && s[..|Token(n)|] == Token(n)
  {
    s[2..NameEnd(s, 2)]
  }

  // ---- Template text as a sequence of pieces --------------------------------

  datatype Piece = Lit(c: char) | Ref(name: string)

  function PieceText(p: Piece): string {
    match p
    case Lit(c) => [c]
    case Ref(n) => Token(n)
  }

  function Flatten(ps: seq<Piece>): string {
    if ps == [] then "" else PieceText(ps[0]) + Flatten(ps[1..])
  }

  /** The piece a text starts with; a `$` that starts no token is a literal. */
  function FirstOf(s: string): (p: Piece)
    requires s != ""
    ensures 0 < |PieceText(p)| <= |s| && s == PieceText(p) + s[|PieceText(p)|..]
    ensures p.Ref? ==> IsName(p.name)
  {
    if TokenHead(s) then Ref(HeadName(s)) else Lit(s[0])
  }

  /** Left-to-right tokenisation. */
  function Scan(s: string): (ps: seq<Piece>)
    ensures Flatten(ps) == s
    ensures forall i | 0 <= i < |ps| && ps[i].Ref? :: IsName(ps[i].name)
    decreases |s|
  {
    if s == "" then []
    else
      var p := FirstOf(s);
      var rest := Scan(s[|PieceText(p)|..]);
      FlattenCons(p, rest);
      [p] + rest
  }

  predicate CleanPieces(ps: seq<Piece>) {
    forall i | 0 <= i < |ps| :: (ps[i].Lit? ==> ps[i].c != '$') && (ps[i].Ref? ==> IsName(ps[i].name))
  }

  /** Every `$` of the text starts a `${NAME}` token. */
  predicate Clean(s: string) { CleanPieces(Scan(s)) }

  function PieceNames(ps: seq<Piece>): set<string> {
    set i | 0 <= i < |ps| && ps[i].Ref? :: ps[i].name
  }

  /** What `re.findall` of the token pattern yields, as a set. */
  function Names(s: string): set<string> { PieceNames(Scan(s)) }

  // ---- The reference meaning: one simultaneous expansion --------------------

  function Lits(s: string): (ps: seq<Piece>)
    ensures |ps| == |s| && forall i | 0 <= i < |s| :: ps[i] == Lit(s[i])
  {
    seq(|s|, i requires 0 <= i < |s| => Lit(s[i]))
  }

  function SubstOne(p: Piece, m: map<string, string>): seq<Piece> {
    if p.Ref? && p.name in m then Lits(m[p.name]) else [p]
  }

  function SubstPieces(ps: seq<Piece>, m: map<string, string>): seq<Piece> {
    if ps == [] then [] else SubstOne(ps[0], m) + SubstPieces(ps[1..], m)
  }

  /** Every token whose name is in `m` is replaced by its value, all at once. */
  function Expand(s: string, m: map<string, string>): string {
    Flatten(SubstPieces(Scan(s), m))
  }

  // ---- The code: a fold of str.replace --------------------------------------

  /** Python's `s.replace(pat, v)`: leftmost, non-overlapping. */
  function Replace(s: string, pat: string, v: string): string
    requires pat != ""
    decreases |s|
  {
    if |s| < |pat| then s
    else if pat <= s then v + Replace(s[|pat|..], pat, v)
    else [s[0]] + Replace(s[1..], pat, v)
  }

  function Fold(s: string, subs: seq<(string, string)>): string
    decreases |subs|
  {
    if subs == [] then s
    else
      var last := |subs| - 1;
      Replace(Fold(s, subs[..last]), Token(subs[last].0), subs[last].1)
  }

  function ToMap(subs: seq<(string, string)>): (m: map<string, string>)
    ensures m.Keys == set i | 0 <= i < |subs| :: subs[i].0
  {
    if subs == [] then map[]
    else
      var last := |subs| - 1;
      var m := ToMap(subs[..last])[subs[last].0 := subs[last].1];
      m
  }

  /** No value contains `$` and no key contains `}`. */
  predicate PlainValues(subs: seq<(string, string)>) {
    forall i | 0 <= i < |subs| :: '$' !in subs[i].1 && '}' !in subs[i].0
  }

  // ---- Proofs: pieces -------------------------------------------------------

  lemma {:induction false} FlattenConcat(a: seq<Piece>, b: seq<Piece>)
    ensures Flatten(a + b) == Flatten(a) + Flatten(b)
  {
    if a == [] {
      assert a + b == b;
    } else {
      FlattenConcat(a[1..], b);
      assert a + b == [a[0]] + (a[1..] + b);
      FlattenCons(a[0], a[1..] + b);
      ConcatAssoc(PieceText(a[0]), Flatten(a[1..]), Flatten(b));
    }
  }

  lemma ConcatAssoc(a: string, b: string, c: string)
    ensures (a + b) + c == a + (b + c)
  {
  }

  lemma FlattenCons(p: Piece, ps: seq<Piece>)
    ensures Flatten([p] + ps) == PieceText(p) + Flatten(ps)
  {
    assert ([p] + ps)[1..] == ps;
  }

  lemma {:induction false} FlattenLits(s: string)
    ensures Flatten(Lits(s)) == s
  {
    if s != "" {
      FlattenLits(s[1..]);
      assert Lits(s)[1..] == Lits(s[1..]);
    }
  }

  /** A name token in front of any text is what the pattern finds first. */
  lemma TokenIsHead(n: string, t: string)
    requires IsName(n)
    ensures TokenHead(Token(n) + t) && HeadName(Token(n) + t) == n
  {
    var s := Token(n) + t;
    assert s[2..2 + |n|] == n;
    assert s[2 + |n|] == '}';
    assert forall k | 2 <= k < 2 + |n| :: s[k] == n[k - 2] && IsNameChar(s[k]);
    assert NameEnd(s, 2) == 2 + |n|;
  }

  /** Tokenisation inverts flattening on clean pieces. */
  lemma {:induction false} ScanFlatten(ps: seq<Piece>)
    requires CleanPieces(ps)
    ensures Scan(Flatten(ps)) == ps
  {
    hide Scan, TokenHead;
    if ps == [] {
      ScanEmpty();
    } else {
      ScanFlatten(ps[1..]);
      assert ps == [ps[0]] + ps[1..];
      FlattenCons(ps[0], ps[1..]);
      if ps[0].Lit? { NoHead(ps[0].c, Flatten(ps[1..])); }
      ScanCons(ps[0], Flatten(ps[1..]));
    }
  }

  lemma ScanEmpty()
    ensures Scan("") == []
  {
  }

  lemma NoHead(c: char, t: string)
    requires c != '$'
    ensures !TokenHead([c] + t)
  {
  }

  // ---- Proofs: one replacement ----------------------------------------------

  /** A pattern that starts with `$` matches nowhere inside `$`-free text. */
  lemma {:induction false} ReplaceSkips(u: string, t: string, pat: string, v: string)
    requires pat != "" && pat[0] == '$' && '$' !in u
    ensures Replace(u + t, pat, v) == u + Replace(t, pat, v)
  {
    if u == "" {
      assert u + t == t;
    } else {
      ReplaceSkips(u[1..], t, pat, v);
      assert u[0] in u;
      assert u == [u[0]] + u[1..];
      ConcatAssoc([u[0]], u[1..], t);
      ConcatAssoc([u[0]], u[1..], Replace(t, pat, v));
    }
  }

  /** Two tokens agree on a prefix only if their names are equal. */
  lemma TokenPrefix(n: string, k: string, t: string)
    requires IsName(n) && '}' !in k
    requires Token(k) <= Token(n) + t
    ensures n == k
  {
    var s := Token(n) + t;
    var a := 2 + |n|;
    var b := 2 + |k|;
    assert s[a] == '}' && s[b] == Token(k)[b] == '}';
    assert forall i | 2 <= i < b :: s[i] == k[i - 2] && k[i - 2] in k;
    assert forall i | 2 <= i < a :: s[i] == n[i - 2] && IsNameChar(n[i - 2]);
    assert a == b;
    assert n == s[2..a] && k == Token(k)[2..b] == s[..|Token(k)|][2..b];
  }

  /** The first token is replaced when its name is the key. */
  lemma ReplaceHit(k: string, t: string, v: string)
    ensures Replace(Token(k) + t, Token(k), v) == v + Replace(t, Token(k), v)
  {
    var s := Token(k) + t;
    assert s[|Token(k)|..] == t;
  }

  /** A token with another name is copied unchanged. */
  lemma ReplaceMiss(n: string, k: string, t: string, v: string)
    requires IsName(n) && '}' !in k && n != k
    ensures Replace(Token(n) + t, Token(k), v) == Token(n) + Replace(t, Token(k), v)
  {
    var u := Token(n)[1..];
    assert Token(n) == ['$'] + u;
    ConcatAssoc(['$'], u, t);
    if Token(k) <= Token(n) + t { TokenPrefix(n, k, t); }
    ReplaceSkips(u, t, Token(k), v);
    ConcatAssoc(['$'], u, Replace(t, Token(k), v));
  }

  /** Where the pattern does not start, a character is copied. */
  lemma ReplaceCopies(c: char, t: string, pat: string, v: string)
    requires pat != "" && !(pat <= [c] + t)
    ensures Replace([c] + t, pat, v) == [c] + Replace(t, pat, v)
  {
    assert ([c] + t)[1..] == t;
  }

  /** No token of `k` starts at a literal `$` of the text. */
  predicate Inert(ps: seq<Piece>, k: string) {
    forall i | 0 <= i < |ps| ::
      (ps[i].Ref? ==> IsName(ps[i].name)) && (ps[i] == Lit('$') ==> !(Token(k) <= Flatten(ps[i..])))
  }

  lemma InertTail(ps: seq<Piece>, k: string)
    requires ps != [] && Inert(ps, k)
    ensures Inert(ps[1..], k)
  {
    forall i | 0 <= i < |ps[1..]| ensures ps[1..][i] == ps[i + 1] && ps[1..][i..] == ps[i + 1..] { }
  }

  lemma HeadInert(ps: seq<Piece>, k: string)
    requires ps != [] && Inert(ps, k) && ps[0].Lit?
    ensures !(Token(k) <= [ps[0].c] + Flatten(ps[1..]))
  {
    assert ps[0..] == ps;
    assert Flatten(ps) == [ps[0].c] + Flatten(ps[1..]);
    if ps[0].c != '$' { assert Token(k)[0] != ([ps[0].c] + Flatten(ps[1..]))[0]; }
  }

  /** One `replace` call substitutes exactly one name. */
  lemma {:induction false} ReplacePieces(ps: seq<Piece>, k: string, v: string)
    requires Inert(ps, k) && '}' !in k
    ensures Replace(Flatten(ps), Token(k), v) == Flatten(SubstPieces(ps, map[k := v]))
  {
    if ps != [] {
      var tail := Flatten(ps[1..]);
      var rest := SubstPieces(ps[1..], map[k := v]);
      InertTail(ps, k);
      ReplacePieces(ps[1..], k, v);
      match ps[0]
      case Lit(c) =>
        HeadInert(ps, k);
        ReplaceCopies(c, tail, Token(k), v);
        FlattenCons(ps[0], rest);
      case Ref(n) =>
        if n == k {
          ReplaceHit(k, tail, v);
          FlattenConcat(Lits(v), rest);
          FlattenLits(v);
        } else {
          ReplaceMiss(n, k, tail, v);
          FlattenCons(ps[0], rest);
        }
    }
  }

  /** Replacing a token by itself changes nothing. */
  lemma {:induction false} ReplaceSame(s: string, pat: string)
    requires pat != ""
    ensures Replace(s, pat, pat) == s
    decreases |s|
  {
    if |s| < |pat| {
    } else if pat <= s {
      ReplaceSame(s[|pat|..], pat);
    } else {
      ReplaceSame(s[1..], pat);
    }
  }

  // ---- Proofs: composing substitutions --------------------------------------

  lemma {:induction false} SubstConcat(a: seq<Piece>, b: seq<Piece>, m: map<string, string>)
    ensures SubstPieces(a + b, m) == SubstPieces(a, m) + SubstPieces(b, m)
  {
    if a == [] {
      assert a + b == b;
    } else {
      SubstConcat(a[1..], b, m);
      assert a + b == [a[0]] + (a[1..] + b);
      SubstCons(a[0], a[1..] + b, m);
      PieceAssoc(SubstOne(a[0], m), SubstPieces(a[1..], m), SubstPieces(b, m));
    }
  }

  lemma SubstCons(p: Piece, ps: seq<Piece>, m: map<string, string>)
    ensures SubstPieces([p] + ps, m) == SubstOne(p, m) + SubstPieces(ps, m)
  {
    assert ([p] + ps)[1..] == ps;
  }

  lemma {:induction false} SubstLits(s: string, m: map<string, string>)
    ensures SubstPieces(Lits(s), m) == Lits(s)
  {
    if s != "" {
      SubstLits(s[1..], m);
      assert Lits(s)[1..] == Lits(s[1..]);
    }
  }

  /** Substituting `m1` and then `m2` is one substitution in which `m1` wins. */
  lemma {:induction false} SubstTwice(ps: seq<Piece>, m1: map<string, string>, m2: map<string, string>)
    ensures SubstPieces(SubstPieces(ps, m1), m2) == SubstPieces(ps, m2 + m1)
  {
    if ps != [] {
      var head := SubstOne(ps[0], m1);
      SubstTwice(ps[1..], m1, m2);
      SubstConcat(head, SubstPieces(ps[1..], m1), m2);
      if ps[0].Ref? && ps[0].name in m1 {
        SubstLits(m1[ps[0].name], m2);
      }
    }
  }

  lemma {:induction false} SubstClean(ps: seq<Piece>, m: map<string, string>)
    requires CleanPieces(ps) && forall k | k in m :: '$' !in m[k]
    ensures CleanPieces(SubstPieces(ps, m))
    ensures PieceNames(SubstPieces(ps, m)) == PieceNames(ps) - m.Keys
  {
    if ps != [] {
      SubstClean(ps[1..], m);
      var head := SubstOne(ps[0], m);
      var tail := SubstPieces(ps[1..], m);
      assert PieceNames(ps) == PieceNames([ps[0]]) + PieceNames(ps[1..]) by {
        NamesConcat([ps[0]], ps[1..]);
        assert ps == [ps[0]] + ps[1..];
      }
      NamesConcat(head, tail);
      assert PieceNames(head) == PieceNames([ps[0]]) - m.Keys by {
        if ps[0].Ref? {
          assert [ps[0]][0] == ps[0];
        }
      }
    }
  }

  lemma NamesConcat(a: seq<Piece>, b: seq<Piece>)
    ensures PieceNames(a + b) == PieceNames(a) + PieceNames(b)
  {
    forall n | n in PieceNames(a) + PieceNames(b) ensures n in PieceNames(a + b) {
      if n in PieceNames(a) {
        var i :| 0 <= i < |a| && a[i].Ref? && a[i].name == n;
        assert (a + b)[i] == a[i];
      } else {
        var i :| 0 <= i < |b| && b[i].Ref? && b[i].name == n;
        assert (a + b)[|a| + i] == b[i];
      }
    }
    forall n | n in PieceNames(a + b) ensures n in PieceNames(a) + PieceNames(b) {
      var i :| 0 <= i < |a + b| && (a + b)[i].Ref? && (a + b)[i].name == n;
      if i < |a| { assert a[i] == (a + b)[i]; } else { assert b[i - |a|] == (a + b)[i]; }
    }
  }

  // ---- The main refinement --------------------------------------------------

  lemma PrefixDict(subs: seq<(string, string)>)
    requires IsDict(subs) && subs != []
    ensures IsDict(subs[..|subs| - 1])
    ensures subs[|subs| - 1].0 !in ToMap(subs[..|subs| - 1])
  {
    var init := subs[..|subs| - 1];
    forall i | 0 <= i < |init| ensures init[i].0 != subs[|subs| - 1].0 {
      assert init[i] == subs[i];
    }
  }

  lemma {:induction false} ToMapPlain(subs: seq<(string, string)>)
    requires PlainValues(subs)
    ensures forall k | k in ToMap(subs) :: '$' !in ToMap(subs)[k]
  {
    if subs != [] {
      ToMapPlain(subs[..|subs| - 1]);
    }
  }

  predicate Comparable(a: string, b: string) { a <= b || b <= a }

  /** From some `$` of `v` on, `v` and the token of `k` agree as far as both go. */
  predicate Meets(v: string, k: string) {
    exists i :: 0 <= i < |v| && v[i] == '$' && Comparable(v[i..], Token(k))
  }

  /** Once `a` is replaced, its value can become a token of `b`, which then is
      not replaced by itself. */
  predicate Tangled(a: (string, string), b: (string, string)) {
    a.0 != b.0 && b.1 != Token(b.0) && Meets(a.1, b.0)
  }

  predicate Untangled(subs: seq<(string, string)>) {
    forall a, b | a in subs && b in subs :: !Tangled(a, b)
  }

  predicate PlainKeys(subs: seq<(string, string)>) {
    forall i | 0 <= i < |subs| :: '}' !in subs[i].0
  }

  lemma PlainUntangled(subs: seq<(string, string)>)
    requires PlainValues(subs)
    ensures Untangled(subs) && PlainKeys(subs)
  {
    forall a, b | a in subs && b in subs ensures !Tangled(a, b) {
      assert forall i | 0 <= i < |a.1| :: a.1[i] in a.1;
    }
  }

  lemma PrefixOfConcat(t: string, x: string, y: string)
    requires t <= x + y
    ensures Comparable(t, x)
  {
    if |t| <= |x| { assert x[..|t|] == (x + y)[..|t|]; } else { assert t[..|x|] == (x + y)[..|x|]; }
  }

  ghost predicate FarFrom(m: map<string, string>, k: string) { forall x | x in m :: !Meets(m[x], k) }

  lemma InertConcat(w: string, rest: seq<Piece>, k: string)
    requires Inert(rest, k) && !Meets(w, k)
    ensures Inert(Lits(w) + rest, k)
  {
    var ps := Lits(w) + rest;
    forall i | 0 <= i < |ps| && ps[i] == Lit('$') ensures !(Token(k) <= Flatten(ps[i..])) {
      if i < |w| {
        assert ps[i..] == Lits(w[i..]) + rest;
        FlattenConcat(Lits(w[i..]), rest);
        FlattenLits(w[i..]);
        if Token(k) <= w[i..] + Flatten(rest) {
          PrefixOfConcat(Token(k), w[i..], Flatten(rest));
        }
      } else {
        assert ps[i..] == rest[i - |w|..];
      }
    }
  }

  lemma InertCons(p: Piece, rest: seq<Piece>, k: string)
    requires Inert(rest, k) && CleanPieces([p])
    ensures Inert([p] + rest, k)
  {
    assert [p][0] == p;
    var ps := [p] + rest;
    forall i | 0 < i < |ps| ensures ps[i] == rest[i - 1] && ps[i..] == rest[i - 1..] { }
  }

  lemma {:induction false} SubstInert(ps: seq<Piece>, m: map<string, string>, k: string)
    requires CleanPieces(ps) && FarFrom(m, k)
    ensures Inert(SubstPieces(ps, m), k)
  {
    hide Meets;
    if ps != [] {
      SubstInert(ps[1..], m, k);
      assert CleanPieces([ps[0]]);
      if ps[0].Ref? && ps[0].name in m {
        InertConcat(m[ps[0].name], SubstPieces(ps[1..], m), k);
      } else {
        InertCons(ps[0], SubstPieces(ps[1..], m), k);
      }
    }
  }

  lemma {:induction false} SubstSame(ps: seq<Piece>, m: map<string, string>, k: string)
    requires k !in m
    ensures Flatten(SubstPieces(ps, m[k := Token(k)])) == Flatten(SubstPieces(ps, m))
  {
    if ps != [] {
      var n := m[k := Token(k)];
      SubstSame(ps[1..], m, k);
      FlattenConcat(SubstOne(ps[0], m), SubstPieces(ps[1..], m));
      FlattenConcat(SubstOne(ps[0], n), SubstPieces(ps[1..], n));
      if ps[0] == Ref(k) {
        FlattenLits(Token(k));
        FlattenCons(ps[0], []);
      }
    }
  }

  /** One more key of the dict, on text already rendered with `m`. */
  lemma FoldStep(ps: seq<Piece>, m: map<string, string>, k: string, v: string)
    requires CleanPieces(ps) && '}' !in k && k !in m
    requires v == Token(k) || FarFrom(m, k)
    ensures Replace(Flatten(SubstPieces(ps, m)), Token(k), v) == Flatten(SubstPieces(ps, m[k := v]))
  {
    if v == Token(k) {
      ReplaceSame(Flatten(SubstPieces(ps, m)), v);
      SubstSame(ps, m, k);
    } else {
      SubstInert(ps, m, k);
      ReplacePieces(SubstPieces(ps, m), k, v);
      SubstTwice(ps, m, map[k := v]);
      assert map[k := v] + m == m[k := v];
    }
  }

  lemma PrefixApart(subs: seq<(string, string)>)
    requires IsDict(subs) && subs != [] && Untangled(subs)
    ensures Untangled(subs[..|subs| - 1])
    ensures subs[|subs| - 1].1 == Token(subs[|subs| - 1].0) ||
            FarFrom(ToMap(subs[..|subs| - 1]), subs[|subs| - 1].0)
  {
    hide Meets;
    var init, last := subs[..|subs| - 1], subs[|subs| - 1];
    PrefixDict(subs);
    forall x | x in ToMap(init) && last.1 != Token(last.0) ensures !Meets(ToMap(init)[x], last.0) {
      ToMapItem(init, x);
      assert (x, ToMap(init)[x]) in subs && last in subs;
      assert !Tangled((x, ToMap(init)[x]), last);
    }
  }

  /** The sequential fold over any dict whose values do not form tokens of other
      keys is one simultaneous expansion. */
  lemma {:induction false} FoldIsExpand(content: string, subs: seq<(string, string)>)
    requires Clean(content) && IsDict(subs) && Untangled(subs) && PlainKeys(subs)
    ensures Fold(content, subs) == Expand(content, ToMap(subs))
    decreases |subs|
  {
    hide Untangled, Meets;
    if subs == [] {
      SubstNothing(Scan(content));
    } else {
      var init := subs[..|subs| - 1];
      PrefixDict(subs);
      PrefixApart(subs);
      FoldIsExpand(content, init);
      FoldStep(Scan(content), ToMap(init), subs[|subs| - 1].0, subs[|subs| - 1].1);
    }
  }

  /** Expansion leaves exactly the tokens whose name the map does not know. */
  lemma ExpandNames(content: string, m: map<string, string>)
    requires Clean(content) && forall k | k in m :: '$' !in m[k]
    ensures Clean(Expand(content, m)) && Names(Expand(content, m)) == Names(content) - m.Keys
  {
    SubstClean(Scan(content), m);
    ScanFlatten(SubstPieces(Scan(content), m));
  }

  lemma {:induction false} SubstNothing(ps: seq<Piece>)
    ensures SubstPieces(ps, map[]) == ps
  {
    if ps != [] {
      SubstNothing(ps[1..]);
    }
  }

  /** The same items in some order. */
  ghost predicate Reorders(a: seq<(string, string)>, b: seq<(string, string)>) {
    IsDict(b) && forall k, v :: (k, v) in a <==> (k, v) in b
  }

  lemma ReorderedMap(a: seq<(string, string)>, b: seq<(string, string)>)
    requires IsDict(a) && Reorders(a, b)
    ensures ToMap(a) == ToMap(b)
  {
    forall k | k in ToMap(a) || k in ToMap(b)
      ensures k in ToMap(a) && k in ToMap(b) && ToMap(a)[k] == ToMap(b)[k]
    {
      if k in ToMap(a) { ToMapItem(a, k); ItemToMap(b, k, ToMap(a)[k]); }
      else { ToMapItem(b, k); ItemToMap(a, k, ToMap(b)[k]); }
    }
  }

  /** The order of such a dict does not matter. */
  lemma OrderIrrelevant(content: string, a: seq<(string, string)>, b: seq<(string, string)>)
    requires Clean(content) && IsDict(a) && Untangled(a) && PlainKeys(a) && Reorders(a, b)
    ensures Fold(content, a) == Fold(content, b)
  {
    forall i | 0 <= i < |b| ensures b[i] in a { assert (b[i].0, b[i].1) in b; }
    assert Untangled(b) && PlainKeys(b) by { hide Tangled; }
    FoldIsExpand(content, a);
    FoldIsExpand(content, b);
    ReorderedMap(a, b);
  }

  lemma {:induction false} ToMapItem(subs: seq<(string, string)>, k: string)
    requires k in ToMap(subs)
    ensures (k, ToMap(subs)[k]) in subs
  {
    var last := |subs| - 1;
    if subs[last].0 != k {
      ToMapItem(subs[..last], k);
    }
  }

  lemma {:induction false} ItemToMap(subs: seq<(string, string)>, k: string, v: string)
    requires IsDict(subs) && (k, v) in subs
    ensures k in ToMap(subs) && ToMap(subs)[k] == v
  {
    PrefixDict(subs);
    var last := |subs| - 1;
    if subs[last] != (k, v) {
      ItemToMap(subs[..last], k, v);
    }
  }

  lemma ScanCons(p: Piece, t: string)
    requires p.Lit? ==> !TokenHead([p.c] + t)
    requires p.Ref? ==> IsName(p.name)
    ensures Scan(PieceText(p) + t) == [p] + Scan(t)
  {
    var s := PieceText(p) + t;
    assert s[|PieceText(p)|..] == t;
    if p.Ref? { TokenIsHead(p.name, t); }
  }

  lemma AtTail(s: string, p: string, i: nat, step: nat)
    requires At(s, p, i) && step <= i && step <= |s|
    ensures At(s[step..], p, i - step)
  {
    assert s[step..][i - step..i - step + |p|] == s[i..i + |p|];
  }

  /** No token starts strictly inside another. */
  lemma TokenNotInside(h: string, t: string, n: string, i: nat)
    requires IsName(h) && At(Token(h) + t, Token(n), i) && i > 0
    ensures i >= |Token(h)|
  {
    var s := Token(h) + t;
    assert forall k | 1 <= k < |Token(h)| :: s[k] == Token(h)[1..][k - 1] && s[k] != '$';
    assert s[i] == Token(n)[0];
  }

  lemma NamesTail(p: Piece, t: string, n: string)
    requires p.Lit? ==> !TokenHead([p.c] + t)
    requires p.Ref? ==> IsName(p.name)
    requires n in Names(t)
    ensures n in Names(PieceText(p) + t)
  {
    ScanCons(p, t);
    NamesConcat([p], Scan(t));
  }

  /** The tokeniser misses no occurrence: every `${NAME}` anywhere in the text
      is reported by the final check of the code. */
  lemma {:induction false} NamesComplete(s: string, n: string, i: nat)
    requires IsName(n) && At(s, Token(n), i)
    ensures n in Names(s)
    decreases |s|
  {
    var p := FirstOf(s);
    var step := |PieceText(p)|;
    assert s == PieceText(p) + s[step..];
    if i == 0 {
      assert s == Token(n) + s[|Token(n)|..];
      TokenIsHead(n, s[|Token(n)|..]);
      assert Scan(s)[0] == Ref(n);
    } else {
      if TokenHead(s) { TokenNotInside(HeadName(s), s[step..], n, i); }
      AtTail(s, Token(n), i, step);
      NamesComplete(s[step..], n, i - step);
      NamesTail(p, s[step..], n);
    }
  }

  /** No `${NAME}` occurs anywhere. */
  ghost predicate NoToken(s: string) {
    forall n, i: nat :: IsName(n) ==> !At(s, Token(n), i)
  }

  lemma NoNameNoToken(s: string)
    requires Names(s) == {}
    ensures NoToken(s)
  {
    forall n, i: nat | IsName(n) ensures !At(s, Token(n), i) {
      if At(s, Token(n), i) { NamesComplete(s, n, i); }
    }
  }

  datatype Rendered = Ok(text: string) | Unresolved(names: set<string>)

  /** What a clean template must render to. */
  function Meaning(content: string, m: map<string, string>): Rendered {
    if Names(content) <= m.Keys then Ok(Expand(content, m)) else Unresolved(Names(content) - m.Keys)
  }

  /** The decision the code takes once all keys are replaced. */
  function Outcome(rendered: string): Rendered {
    if Names(rendered) == {} then Ok(rendered) else Unresolved(Names(rendered))
  }

  lemma FoldMeaning(content: string, subs: seq<(string, string)>)
    requires Clean(content) && IsDict(subs) && PlainValues(subs)
    ensures Outcome(Fold(content, subs)) == Meaning(content, ToMap(subs))
  {
    PlainUntangled(subs);
    FoldIsExpand(content, subs);
    ToMapPlain(subs);
    ExpandNames(content, ToMap(subs));
    SubsetDiff(Names(content), ToMap(subs).Keys);
  }

  lemma SubsetDiff(a: set<string>, b: set<string>)
    ensures a <= b <==> a - b == {}
  {
    assert forall x | x in a && x !in b :: x in a - b;
  }

  method SubstitutePlaceholders(content: string, subs: seq<(string, string)>) returns (r: Rendered)
    requires IsDict(subs)
    // Whatever the values are, a returned text has no token left in it.
    ensures r.Ok? ==> r.text == Fold(content, subs) && NoToken(r.text)
    // Clean templates and plain values: the expansion, or the unknown names.
    ensures Clean(content) && PlainValues(subs) ==> r == Meaning(content, ToMap(subs))
  {
    var rendered := content;
    var i := 0;
    while i < |subs|
      invariant 0 <= i <= |subs|
      invariant rendered == Fold(content, subs[..i])
    {
      assert subs[..i + 1][..i] == subs[..i];
      rendered := Replace(rendered, Token(subs[i].0), subs[i].1);
      i := i + 1;
    }
    assert subs[..i] == subs;
    r := Outcome(rendered);
    if r.Ok? { NoNameNoToken(rendered); }
    if Clean(content) && PlainValues(subs) { FoldMeaning(content, subs); }
  }

  // ---- When the order of the dict shows -------------------------------------

  function Except(subs: seq<(string, string)>, a: string, b: string): seq<(string, string)> {
    if subs == [] then []
    else if subs[0].0 == a || subs[0].0 == b then Except(subs[1..], a, b)
    else [subs[0]] + Except(subs[1..], a, b)
  }

  lemma {:induction false} ExceptItems(subs: seq<(string, string)>, a: string, b: string, x: (string, string))
    ensures x in Except(subs, a, b) <==> x in subs && x.0 != a && x.0 != b
  {
    if subs != [] {
      ExceptItems(subs[1..], a, b, x);
      assert x in subs <==> x == subs[0] || x in subs[1..];
    }
  }

  lemma {:induction false} ExceptDict(subs: seq<(string, string)>, a: string, b: string)
    requires IsDict(subs)
    ensures IsDict(Except(subs, a, b))
  {
    if subs != [] {
      ExceptDict(subs[1..], a, b);
      var rest := Except(subs[1..], a, b);
      forall i | 0 <= i < |rest| ensures rest[i].0 != subs[0].0 {
        ExceptItems(subs[1..], a, b, rest[i]);
        var j :| 0 <= j < |subs[1..]| && subs[1..][j] == rest[i];
        assert subs[j + 1] == rest[i];
      }
    }
  }

  /** `a` and `b` moved to the end of the dict, in this order. */
  lemma MovedToEnd(subs: seq<(string, string)>, a: (string, string), b: (string, string))
    requires IsDict(subs) && a in subs && b in subs && a.0 != b.0
    ensures Reorders(subs, Except(subs, a.0, b.0) + [a, b])
  {
    var rest := Except(subs, a.0, b.0);
    ExceptDict(subs, a.0, b.0);
    forall i | 0 <= i < |rest| ensures rest[i].0 != a.0 && rest[i].0 != b.0 { ExceptItems(subs, a.0, b.0, rest[i]); }
    forall k, v ensures (k, v) in subs <==> (k, v) in rest + [a, b] {
      ExceptItems(subs, a.0, b.0, (k, v));
      if k == a.0 { SameItem(subs, a, (k, v)); }
      if k == b.0 { SameItem(subs, b, (k, v)); }
    }
  }

  lemma SameItem(subs: seq<(string, string)>, a: (string, string), x: (string, string))
    requires IsDict(subs) && a in subs && x.0 == a.0
    ensures x in subs <==> x == a
  {
  }

  lemma FoldLastTwo(t: string, rest: seq<(string, string)>, a: (string, string), b: (string, string))
    ensures Fold(t, rest + [a, b]) == Replace(Replace(Fold(t, rest), Token(a.0), a.1), Token(b.0), b.1)
  {
    var subs := rest + [a, b];
    assert subs[..|subs| - 1] == rest + [a];
    assert (rest + [a])[..|rest + [a]| - 1] == rest;
  }

  /** Keys that are not in a text leave it as it is. */
  lemma {:induction false} FoldMisses(n: string, q: string, rest: seq<(string, string)>)
    requires IsName(n) && '$' !in q
    requires forall i | 0 <= i < |rest| :: '}' !in rest[i].0 && rest[i].0 != n
    ensures Fold(Token(n) + q, rest) == Token(n) + q
  {
    if rest != [] {
      var last := |rest| - 1;
      FoldMisses(n, q, rest[..last]);
      Misses(n, q, rest[last].0, rest[last].1);
    }
  }

  lemma ReplaceNone(q: string, pat: string, v: string)
    requires pat != "" && pat[0] == '$' && '$' !in q
    ensures Replace(q, pat, v) == q
  {
    ReplaceSkips(q, "", pat, v);
    assert q + "" == q;
  }

  lemma Misses(n: string, q: string, k: string, v: string)
    requires IsName(n) && '$' !in q && '}' !in k && k != n
    ensures Replace(Token(n) + q, Token(k), v) == Token(n) + q
  {
    ReplaceMiss(n, k, q, v);
    ReplaceNone(q, Token(k), v);
  }

  /** The number of replacements. */
  function Hits(s: string, pat: string): nat
    requires pat != ""
    decreases |s|
  {
    if |s| < |pat| then 0
    else if pat <= s then 1 + Hits(s[|pat|..], pat)
    else Hits(s[1..], pat)
  }

  lemma {:induction false} ReplaceLength(s: string, pat: string, v: string)
    requires pat != ""
    ensures |Replace(s, pat, v)| == |s| + Hits(s, pat) * (|v| - |pat|)
    decreases |s|
  {
    if |s| < |pat| {
    } else if pat <= s {
      ReplaceLength(s[|pat|..], pat, v);
      Distribute(Hits(s[|pat|..], pat), |v| - |pat|);
    } else {
      ReplaceLength(s[1..], pat, v);
    }
  }

  lemma Distribute(n: nat, d: int)
    ensures (1 + n) * d == d + n * d
  {
  }

  lemma NoWordBefore(w: string, pat: string, t: string)
    ensures w == "" ==> pat <= w + (pat + t)
  {
  }

  lemma {:induction false} HitsPositive(w: string, pat: string, t: string)
    requires pat != ""
    ensures Hits(w + (pat + t), pat) > 0
    decreases |w|
  {
    var s := w + (pat + t);
    if !(pat <= s) {
      NoWordBefore(w, pat, t);
      assert s[1..] == w[1..] + (pat + t);
      HitsPositive(w[1..], pat, t);
    }
  }

  /** A replacement by something else shows. */
  lemma {:induction false} ReplaceShows(s: string, pat: string, v: string)
    requires pat != "" && Hits(s, pat) > 0 && v != pat
    ensures Replace(s, pat, v) != s
    decreases |s|
  {
    ReplaceLength(s, pat, v);
    if |v| != |pat| {
      NonZeroProduct(Hits(s, pat), |v| - |pat|);
    } else if pat <= s {
      var r := v + Replace(s[|pat|..], pat, v);
      assert r[..|v|] == v && s[..|pat|] == pat;
    } else {
      ReplaceShows(s[1..], pat, v);
      var r := [s[0]] + Replace(s[1..], pat, v);
      assert r[1..] == Replace(s[1..], pat, v);
    }
  }

  lemma NonZeroProduct(n: nat, d: int)
    requires n > 0 && d != 0
    ensures n * d != 0
  {
  }

  lemma Rest(v: string, k: string) returns (q: string, t: string)
    requires v != "" && Comparable(v, Token(k)) && IsName(k)
    ensures '$' !in q && v + q == Token(k) + t
  {
    if Token(k) <= v {
      q, t := "", v[|Token(k)|..];
    } else {
      q, t := Token(k)[|v|..], "";
      forall j | 0 <= j < |q| ensures q[j] != '$' { TokenPlain(k, |v| + j); }
    }
  }

  lemma TokenPlain(k: string, j: nat)
    requires IsName(k) && 0 < j < |Token(k)|
    ensures Token(k)[j] != '$'
  {
  }

  /** The rest of a token whose beginning ends the value of `a`. */
  lemma Completion(v: string, k: string) returns (w: string, q: string, t: string)
    requires Meets(v, k) && IsName(k)
    ensures '$' !in q && v + q == w + (Token(k) + t)
  {
    var i :| 0 <= i < |v| && v[i] == '$' && Comparable(v[i..], Token(k));
    w := v[..i];
    q, t := Rest(v[i..], k);
    Regrouped(v, i, q, Token(k) + t);
  }

  lemma Regrouped(v: string, i: nat, q: string, x: string)
    requires i <= |v| && v[i..] + q == x
    ensures v + q == v[..i] + x
  {
    assert v == v[..i] + v[i..];
    ConcatAssoc(v[..i], v[i..], q);
  }

  /** A template and two orders of the dict that render it differently. */
  lemma TangledOrders(subs: seq<(string, string)>, a: (string, string), b: (string, string)) returns (t: string)
    requires IsDict(subs) && (forall i | 0 <= i < |subs| :: IsName(subs[i].0))
    requires a in subs && b in subs && Tangled(a, b)
    ensures Clean(t)
    ensures Fold(t, Except(subs, a.0, b.0) + [a, b]) != Fold(t, Except(subs, a.0, b.0) + [b, a])
  {
    hide Meets, Replace;
    var rest := Except(subs, a.0, b.0);
    var w, q, u := Completion(a.1, b.0);
    t := Token(a.0) + q;
    CleanOne(a.0, q);
    forall i | 0 <= i < |rest| ensures '}' !in rest[i].0 && rest[i].0 != a.0 { ExceptItems(subs, a.0, b.0, rest[i]); }
    FoldMisses(a.0, q, rest);
    FoldLastTwo(t, rest, a, b);
    FoldLastTwo(t, rest, b, a);
    Misses(a.0, q, b.0, b.1);
    ReplaceHit(a.0, q, a.1);
    ReplaceNone(q, Token(a.0), a.1);
    HitsPositive(w, Token(b.0), u);
    ReplaceShows(a.1 + q, Token(b.0), b.1);
  }

  lemma CleanOne(n: string, q: string)
    requires IsName(n) && '$' !in q
    ensures Clean(Token(n) + q)
  {
    FlattenCons(Ref(n), Lits(q));
    FlattenLits(q);
    assert forall i | 0 <= i < |q| :: q[i] in q;
    ScanFlatten([Ref(n)] + Lits(q));
  }

  /** No order of the dict shows in any clean template. */
  ghost predicate OrderFree(subs: seq<(string, string)>) {
    forall t, b :: Clean(t) && Reorders(subs, b) ==> Fold(t, b) == Fold(t, subs)
  }

  lemma TangledShows(subs: seq<(string, string)>, a: (string, string), b: (string, string))
    requires IsDict(subs) && (forall i | 0 <= i < |subs| :: IsName(subs[i].0))
    requires a in subs && b in subs && Tangled(a, b)
    ensures !OrderFree(subs)
  {
    hide Meets, Fold, Clean, Reorders, IsName, Except;
    var t := TangledOrders(subs, a, b);
    MovedToEnd(subs, a, b);
    MovedToEnd(subs, b, a);
    ExceptSwap(subs, a.0, b.0);
  }

  /** That is so exactly when no value, from a `$` on, agrees with the token of
      another key as far as both go. */
  lemma OrderShowsExactly(subs: seq<(string, string)>)
    requires IsDict(subs) && forall i | 0 <= i < |subs| :: IsName(subs[i].0)
    ensures OrderFree(subs) <==> Untangled(subs)
  {
    hide Tangled, Fold, Clean, Reorders;
    if Untangled(subs) {
      NameKeys(subs);
      forall t, b | Clean(t) && Reorders(subs, b) ensures Fold(t, b) == Fold(t, subs) { OrderIrrelevant(t, subs, b); }
    } else {
      var a, b :| a in subs && b in subs && Tangled(a, b);
      TangledShows(subs, a, b);
    }
  }

  lemma NameKeys(subs: seq<(string, string)>)
    requires forall i | 0 <= i < |subs| :: IsName(subs[i].0)
    ensures PlainKeys(subs)
  {
  }

  lemma {:induction false} ExceptSwap(subs: seq<(string, string)>, a: string, b: string)
    ensures Except(subs, a, b) == Except(subs, b, a)
  {
    if subs != [] { ExceptSwap(subs[1..], a, b); }
  }

  // ---- Two-stage rendering of the QuaDRA snippets ---------------------------

  /** Python's `s.rstrip("\n")`. */
  function StripNewlines(s: string): (r: string)
    ensures |r| <= |s| && r == s[..|r|]
    ensures r == "" || r[|r| - 1] != '\n'
    ensures forall i | |r| <= i < |s| :: s[i] == '\n'
  {
    if s != "" && s[|s| - 1] == '\n' then StripNewlines(s[..|s| - 1]) else s
  }

  /** `a` and `b` meet at a line break, which no token can straddle. */
  predicate LineJoin(a: string, b: string) {
    a == "" || b == "" || a[|a| - 1] == '\n' || b[0] == '\n'
  }

  lemma HeadStaysLeft(a: string, b: string)
    requires LineJoin(a, b) && a != "" && TokenHead(a + b)
    ensures TokenHead(a) && HeadName(a) == HeadName(a + b)
  {
    var n := HeadName(a + b);
    var k := |Token(n)|;
    assert forall i | 0 <= i < k :: (a + b)[i] == Token(n)[i] && (a + b)[i] != '\n';
    assert k <= |a| by {
      if b != "" && a[|a| - 1] == '\n' { assert (a + b)[|a| - 1] == '\n'; }
      if b != "" && b[0] == '\n' { assert (a + b)[|a|] == '\n'; }
    }
    assert a == Token(n) + a[k..] by { assert a[..k] == (a + b)[..k]; }
    TokenIsHead(n, a[k..]);
  }

  lemma HeadExtends(a: string, b: string)
    requires TokenHead(a)
    ensures TokenHead(a + b) && HeadName(a + b) == HeadName(a)
  {
    var n := HeadName(a);
    var t := a[|Token(n)|..];
    assert a == Token(n) + t;
    assert a + b == Token(n) + (t + b);
    TokenIsHead(n, t + b);
  }

  /** The first piece of `a` is that of `a + b` too. */
  lemma FirstPiece(a: string, b: string) returns (p: Piece, t: string)
    requires LineJoin(a, b) && a != ""
    ensures a == PieceText(p) + t && |t| < |a| && LineJoin(t, b)
    ensures Scan(a) == [p] + Scan(t) && Scan(a + b) == [p] + Scan(t + b)
  {
    hide Scan, Token, NameEnd;
    p := FirstOf(a);
    t := a[|PieceText(p)|..];
    assert a == PieceText(p) + t;
    if TokenHead(a) { HeadExtends(a, b); } else if TokenHead(a + b) { HeadStaysLeft(a, b); }
    ConcatAssoc(PieceText(p), t, b);
    hide TokenHead;
    ScanCons(p, t);
    ScanCons(p, t + b);
  }

  /** Text split at a line break tokenises piecewise. */
  lemma {:induction false} ScanSplit(a: string, b: string)
    requires LineJoin(a, b)
    ensures Scan(a + b) == Scan(a) + Scan(b)
    decreases |a|
  {
    if a == "" {
      assert a + b == b;
    } else {
      hide *;
      var p, t := FirstPiece(a, b);
      ScanSplit(t, b);
      PieceAssoc([p], Scan(t), Scan(b));
    }
  }

  lemma PieceAssoc(a: seq<Piece>, b: seq<Piece>, c: seq<Piece>)
    ensures (a + b) + c == a + (b + c)
  {
  }

  lemma CleanConcat(a: seq<Piece>, b: seq<Piece>)
    ensures CleanPieces(a + b) <==> CleanPieces(a) && CleanPieces(b)
  {
    if CleanPieces(a + b) {
      assert forall i | 0 <= i < |a| :: a[i] == (a + b)[i];
      assert forall i | 0 <= i < |b| :: b[i] == (a + b)[|a| + i];
    }
  }

  lemma SplitNames(a: string, b: string)
    requires LineJoin(a, b)
    ensures Names(a + b) == Names(a) + Names(b)
    ensures Clean(a + b) <==> Clean(a) && Clean(b)
  {
    ScanSplit(a, b);
    NamesConcat(Scan(a), Scan(b));
    CleanConcat(Scan(a), Scan(b));
  }

  lemma ExpandSplit(a: string, b: string, m: map<string, string>)
    requires LineJoin(a, b)
    ensures Expand(a + b, m) == Expand(a, m) + Expand(b, m)
  {
    ScanSplit(a, b);
    SubstConcat(Scan(a), Scan(b), m);
    FlattenConcat(SubstPieces(Scan(a), m), SubstPieces(Scan(b), m));
  }

  /** A whole template line appears, expanded, in the rendered text. */
  lemma LineLift(a: string, line: seq<Piece>, b: string, m: map<string, string>)
    requires Clean(a + (Flatten(line) + b)) && CleanPieces(line)
    requires a == "" || a[|a| - 1] == '\n'
    requires b == "" || b[0] == '\n'
    ensures Contains(Expand(a + (Flatten(line) + b), m), Flatten(SubstPieces(line, m)))
  {
    ExpandSplit(a, Flatten(line) + b, m);
    ExpandSplit(Flatten(line), b, m);
    SplitNames(a, Flatten(line) + b);
    SplitNames(Flatten(line), b);
    ScanFlatten(line);
    MiddleContained(Expand(a, m), Flatten(SubstPieces(line, m)), Expand(b, m));
  }

  lemma MiddleContained(x: string, mid: string, y: string)
    ensures Contains(x + (mid + y), mid)
  {
    assert (x + (mid + y))[|x|..|x| + |mid|] == mid;
    ContainsAt(x + (mid + y), mid, |x|);
  }

  /** `ps` with every reference to a snippet replaced by the snippet's pieces. */
  function Splice(ps: seq<Piece>, raws: map<string, string>): seq<Piece> {
    if ps == [] then [] else SpliceOne(ps[0], raws) + Splice(ps[1..], raws)
  }

  function SpliceOne(p: Piece, raws: map<string, string>): seq<Piece> {
    if p.Ref? && p.name in raws then Scan(raws[p.name]) else [p]
  }

  /** The template with the raw snippets pasted in place of their placeholders. */
  function Inline(t: string, raws: map<string, string>): string {
    Expand(t, raws)
  }

  ghost predicate CleanSnippets(raws: map<string, string>, known: set<string>) {
    forall q | q in raws :: Clean(raws[q]) && Names(raws[q]) <= known
  }

  lemma {:induction false} FlattenSplice(ps: seq<Piece>, raws: map<string, string>)
    ensures Flatten(Splice(ps, raws)) == Flatten(SubstPieces(ps, raws))
  {
    if ps != [] {
      FlattenSplice(ps[1..], raws);
      FlattenConcat(SpliceOne(ps[0], raws), Splice(ps[1..], raws));
      FlattenConcat(SubstOne(ps[0], raws), SubstPieces(ps[1..], raws));
      if ps[0].Ref? && ps[0].name in raws { FlattenLits(raws[ps[0].name]); }
    }
  }

  lemma {:induction false} SpliceNames(ps: seq<Piece>, raws: map<string, string>, known: set<string>)
    requires CleanPieces(ps) && CleanSnippets(raws, known)
    ensures CleanPieces(Splice(ps, raws))
    ensures PieceNames(Splice(ps, raws)) <= (PieceNames(ps) - raws.Keys) + known
  {
    hide Scan;
    if ps != [] {
      SpliceNames(ps[1..], raws, known);
      NamesConcat(SpliceOne(ps[0], raws), Splice(ps[1..], raws));
      HeadNames(ps);
      CleanConcat(SpliceOne(ps[0], raws), Splice(ps[1..], raws));
      assert CleanPieces([ps[0]]);
    }
  }

  lemma HeadNames(ps: seq<Piece>)
    requires ps != []
    ensures PieceNames(ps) == (if ps[0].Ref? then {ps[0].name} else {}) + PieceNames(ps[1..])
  {
    NamesConcat([ps[0]], ps[1..]);
    assert ps == [ps[0]] + ps[1..];
    NamesOne(ps[0]);
  }

  lemma NamesOne(p: Piece)
    ensures PieceNames([p]) == if p.Ref? then {p.name} else {}
  {
    assert [p][0] == p;
  }

  lemma InlineScan(t: string, raws: map<string, string>, known: set<string>)
    requires Clean(t) && CleanSnippets(raws, known)
    ensures Scan(Inline(t, raws)) == Splice(Scan(t), raws)
    ensures Clean(Inline(t, raws)) && Names(Inline(t, raws)) <= (Names(t) - raws.Keys) + known
  {
    FlattenSplice(Scan(t), raws);
    SpliceNames(Scan(t), raws, known);
    ScanFlatten(Splice(Scan(t), raws));
  }

  /** The two contexts give every name they share the same value. */
  predicate Agree(base: map<string, string>, ctx: map<string, string>) {
    forall k | k in base && k in ctx :: base[k] == ctx[k]
  }

  /** The snippets, rendered. */
  function Rendereds(raws: map<string, string>, ctx: map<string, string>): map<string, string> {
    map q | q in raws :: Expand(raws[q], ctx)
  }

  lemma {:induction false} SubstOverride(ps: seq<Piece>, base: map<string, string>, ctx: map<string, string>)
    requires PieceNames(ps) <= ctx.Keys
    ensures SubstPieces(ps, base + ctx) == SubstPieces(ps, ctx)
  {
    if ps != [] {
      HeadNames(ps);
      SubstOverride(ps[1..], base, ctx);
    }
  }

  lemma {:induction false} SpliceSubst(ps: seq<Piece>, raws: map<string, string>,
                                       base: map<string, string>, ctx: map<string, string>)
    requires PieceNames(ps) <= base.Keys + raws.Keys && CleanSnippets(raws, ctx.Keys)
    requires raws.Keys !! base.Keys && Agree(base, ctx)
    ensures Flatten(SubstPieces(Splice(ps, raws), base + ctx)) ==
            Flatten(SubstPieces(ps, base + Rendereds(raws, ctx)))
  {
    hide Scan, Rendereds, CleanSnippets;
    if ps != [] {
      var one, two := base + ctx, base + Rendereds(raws, ctx);
      HeadNames(ps);
      SpliceSubst(ps[1..], raws, base, ctx);
      SubstConcat(SpliceOne(ps[0], raws), Splice(ps[1..], raws), one);
      FlattenConcat(SubstPieces(SpliceOne(ps[0], raws), one), SubstPieces(Splice(ps[1..], raws), one));
      FlattenConcat(SubstOne(ps[0], two), SubstPieces(ps[1..], two));
      SpliceHead(ps[0], raws, base, ctx);
    }
  }

  lemma SpliceHead(p: Piece, raws: map<string, string>, base: map<string, string>, ctx: map<string, string>)
    requires (p.Ref? ==> p.name in base.Keys + raws.Keys) && CleanSnippets(raws, ctx.Keys)
    requires raws.Keys !! base.Keys && Agree(base, ctx)
    ensures Flatten(SubstPieces(SpliceOne(p, raws), base + ctx)) ==
            Flatten(SubstOne(p, base + Rendereds(raws, ctx)))
  {
    hide Scan;
    if p.Ref? && p.name in raws {
      SubstOverride(Scan(raws[p.name]), base, ctx);
      FlattenLits(Expand(raws[p.name], ctx));
    } else {
      var one, two := base + ctx, base + Rendereds(raws, ctx);
      assert p.Ref? ==> p.name in one && p.name in two && one[p.name] == two[p.name];
      SubstCons(p, [], one);
      assert [p] + [] == [p] && SubstOne(p, one) + [] == SubstOne(p, one);
    }
  }

  lemma {:induction false} StripBlank(s: string, nl: string)
    requires forall i | 0 <= i < |nl| :: nl[i] == '\n'
    ensures StripNewlines(s + nl) == StripNewlines(s)
  {
    if nl == "" {
      assert s + nl == s;
    } else {
      assert (s + nl)[..|s + nl| - 1] == s + nl[..|nl| - 1];
      StripBlank(s, nl[..|nl| - 1]);
    }
  }

  lemma {:induction false} BlankScan(nl: string)
    requires forall i | 0 <= i < |nl| :: nl[i] == '\n'
    ensures Scan(nl) == Lits(nl)
  {
    if nl != "" {
      BlankScan(nl[1..]);
      assert Lits(nl) == [Lit(nl[0])] + Lits(nl[1..]);
    }
  }

  lemma BlankExpand(nl: string, ctx: map<string, string>)
    requires forall i | 0 <= i < |nl| :: nl[i] == '\n'
    ensures Expand(nl, ctx) == nl && Names(nl) == {}
  {
    BlankScan(nl);
    SubstLits(nl, ctx);
    FlattenLits(nl);
  }

  lemma BlankTailExpand(body: string, nl: string, ctx: map<string, string>)
    requires forall i | 0 <= i < |nl| :: nl[i] == '\n'
    ensures Expand(body + nl, ctx) == Expand(body, ctx) + nl
  {
    ExpandSplit(body, nl, ctx);
    BlankExpand(nl, ctx);
  }

  lemma BlankTailNames(body: string, nl: string)
    requires forall i | 0 <= i < |nl| :: nl[i] == '\n'
    ensures Names(body + nl) == Names(body)
    ensures Clean(body + nl) ==> Clean(body)
  {
    SplitNames(body, nl);
    BlankExpand(nl, map[]);
  }

  lemma ExpandBody(raw: string, ctx: map<string, string>)
    requires Clean(raw)
    ensures Expand(raw, ctx) == Expand(StripNewlines(raw), ctx) + raw[|StripNewlines(raw)|..]
    ensures Clean(StripNewlines(raw)) && Names(StripNewlines(raw)) == Names(raw)
  {
    var body := StripNewlines(raw);
    var nl := raw[|body|..];
    assert raw == body + nl;
    BlankTailExpand(body, nl, ctx);
    BlankTailNames(body, nl);
  }

  predicate EndsInNewline(s: string) { s != "" && s[|s| - 1] == '\n' }

  /** Stripping the rendered snippet, as the code does, is rendering the
      stripped snippet exactly when that text does not itself end in a newline. */
  lemma StripExpand(raw: string, ctx: map<string, string>)
    requires Clean(raw)
    ensures StripNewlines(Expand(raw, ctx)) == Expand(StripNewlines(raw), ctx) <==>
            !EndsInNewline(Expand(StripNewlines(raw), ctx))
  {
    ExpandBody(raw, ctx);
    StripBlank(Expand(StripNewlines(raw), ctx), raw[|StripNewlines(raw)|..]);
  }

  /** Rendering the snippets and inlining them equals inlining them raw and
      rendering once, for every template the two-stage path accepts. */
  lemma TwoStage(t: string, raws: map<string, string>, base: map<string, string>, ctx: map<string, string>)
    requires Clean(t) && CleanSnippets(raws, ctx.Keys) && raws.Keys !! base.Keys && Agree(base, ctx)
    requires Names(t) <= base.Keys + raws.Keys
    ensures Meaning(Inline(t, raws), base + ctx) == Meaning(t, base + Rendereds(raws, ctx))
    ensures Clean(Inline(t, raws)) && Meaning(t, base + Rendereds(raws, ctx)).Ok?
  {
    InlineScan(t, raws, ctx.Keys);
    SpliceSubst(Scan(t), raws, base, ctx);
  }

  function Stripped(raws: map<string, string>): map<string, string> {
    map q | q in raws :: StripNewlines(raws[q])
  }

  /** No rendered snippet ends in a newline that was not the snippet's own. */
  ghost predicate StripsAlike(raws: map<string, string>, ctx: map<string, string>) {
    forall q | q in raws :: !EndsInNewline(Expand(StripNewlines(raws[q]), ctx))
  }

  lemma StrippedSnippet(raws: map<string, string>, ctx: map<string, string>, q: string)
    requires CleanSnippets(raws, ctx.Keys) && StripsAlike(raws, ctx) && q in raws
    ensures Clean(StripNewlines(raws[q])) && Names(StripNewlines(raws[q])) <= ctx.Keys
    ensures Expand(StripNewlines(raws[q]), ctx) == StripNewlines(Expand(raws[q], ctx))
  {
    hide Clean, Names, Expand, EndsInNewline;
    ExpandBody(raws[q], ctx);
    StripExpand(raws[q], ctx);
  }

  lemma StrippedSnippets(raws: map<string, string>, ctx: map<string, string>)
    requires CleanSnippets(raws, ctx.Keys) && StripsAlike(raws, ctx)
    ensures CleanSnippets(Stripped(raws), ctx.Keys)
    ensures Rendereds(Stripped(raws), ctx) == Stripped(Rendereds(raws, ctx))
  {
    hide Clean, Names, Expand, StripNewlines, StripsAlike;
    forall q | q in raws
      ensures Clean(StripNewlines(raws[q])) && Names(StripNewlines(raws[q])) <= ctx.Keys
      ensures Expand(StripNewlines(raws[q]), ctx) == StripNewlines(Expand(raws[q], ctx))
    {
      assert CleanSnippets(raws, ctx.Keys);
      StrippedSnippet(raws, ctx, q);
    }
  }

  /** The entries `build_substitutions` adds for the snippets: each rendered with
      the fold and stripped. */
  function SnippetItems(snippets: seq<(string, string)>, ctx: seq<(string, string)>): (items: seq<(string, string)>)
    ensures |items| == |snippets|
    ensures forall i | 0 <= i < |items| :: items[i] == (snippets[i].0, StripNewlines(Fold(snippets[i].1, ctx)))
  {
    seq(|snippets|, i requires 0 <= i < |snippets| => (snippets[i].0, StripNewlines(Fold(snippets[i].1, ctx))))
  }

  lemma SnippetItem(snippets: seq<(string, string)>, ctx: seq<(string, string)>, i: nat)
    requires IsDict(snippets) && PlainValues(ctx) && IsDict(ctx) && i < |snippets|
    requires CleanSnippets(ToMap(snippets), ToMap(ctx).Keys)
    ensures var q := snippets[i].0; var want := Stripped(Rendereds(ToMap(snippets), ToMap(ctx)));
      q in want && SnippetItems(snippets, ctx)[i] == (q, want[q])
  {
    hide Clean, Names, Expand, Fold, PlainValues, StripNewlines, ToMap, IsDict;
    PlainUntangled(ctx);
    ItemToMap(snippets, snippets[i].0, snippets[i].1);
    FoldIsExpand(snippets[i].1, ctx);
  }

  lemma SameItems(items: seq<(string, string)>, m: map<string, string>)
    requires IsDict(items) && m.Keys == ToMap(items).Keys
    requires forall i | 0 <= i < |items| :: items[i].0 in m && items[i].1 == m[items[i].0]
    ensures ToMap(items) == m
  {
    forall i | 0 <= i < |items| ensures ToMap(items)[items[i].0] == m[items[i].0] {
      ItemToMap(items, items[i].0, items[i].1);
    }
  }

  lemma MapOfSnippets(snippets: seq<(string, string)>, ctx: seq<(string, string)>)
    requires IsDict(snippets) && IsDict(ctx) && PlainValues(ctx)
    requires CleanSnippets(ToMap(snippets), ToMap(ctx).Keys)
    ensures IsDict(SnippetItems(snippets, ctx))
    ensures ToMap(SnippetItems(snippets, ctx)) == Stripped(Rendereds(ToMap(snippets), ToMap(ctx)))
  {
    hide Clean, Names, Expand, Fold, PlainValues, StripNewlines, ToMap, CleanSnippets;
    var items, want := SnippetItems(snippets, ctx), Stripped(Rendereds(ToMap(snippets), ToMap(ctx)));
    forall i | 0 <= i < |snippets| ensures items[i].0 in want && items[i].1 == want[items[i].0] {
      SnippetItem(snippets, ctx, i);
    }
    assert want.Keys == ToMap(snippets).Keys;
    assert ToMap(items).Keys == ToMap(snippets).Keys;
    SameItems(items, want);
  }

  lemma UpdateRight(m: map<string, string>, n: map<string, string>, k: string, v: string)
    ensures (m + n)[k := v] == m + n[k := v]
  {
  }

  lemma {:induction false} ToMapConcat(a: seq<(string, string)>, b: seq<(string, string)>)
    ensures ToMap(a + b) == ToMap(a) + ToMap(b)
  {
    if b == [] {
      assert a + b == a;
    } else {
      ToMapConcat(a, b[..|b| - 1]);
      assert (a + b)[..|a + b| - 1] == a + b[..|b| - 1];
      UpdateRight(ToMap(a), ToMap(b[..|b| - 1]), b[|b| - 1].0, b[|b| - 1].1);
    }
  }

  /** What a plain dict with plain values is read off its map. */
  lemma MapPlain(subs: seq<(string, string)>)
    requires IsDict(subs) && PlainKeys(subs) && forall k | k in ToMap(subs) :: '$' !in ToMap(subs)[k]
    ensures PlainValues(subs)
  {
    forall i | 0 <= i < |subs| ensures '$' !in subs[i].1 { ItemToMap(subs, subs[i].0, subs[i].1); }
  }

  lemma StrippedPlain(raws: map<string, string>, ctx: map<string, string>)
    requires CleanSnippets(raws, ctx.Keys) && forall k | k in ctx :: '$' !in ctx[k]
    ensures forall q | q in raws :: '$' !in StripNewlines(Expand(raws[q], ctx))
  {
    forall q | q in raws ensures '$' !in StripNewlines(Expand(raws[q], ctx)) {
      ExpandNames(raws[q], ctx);
      NoNameNoDollar(Scan(Expand(raws[q], ctx)));
      var r, e := StripNewlines(Expand(raws[q], ctx)), Expand(raws[q], ctx);
      assert forall i | 0 <= i < |r| :: r[i] == e[i] && e[i] in e;
    }
  }

  /** A clean text without names has no `$` at all. */
  lemma {:induction false} NoNameNoDollar(ps: seq<Piece>)
    requires CleanPieces(ps) && PieceNames(ps) == {}
    ensures '$' !in Flatten(ps)
  {
    if ps != [] {
      HeadNames(ps);
      NoNameNoDollar(ps[1..]);
    }
  }

  /** The whole path of the code, any number of snippets: rendering the template
      with the dict that has the rendered, stripped snippets in it is rendering,
      once and with one dict of both contexts, the template with the stripped raw
      snippets pasted in; neither fails. */
  lemma TwoStageStripped(t: string, snippets: seq<(string, string)>, base: seq<(string, string)>,
                         ctx: seq<(string, string)>, both: seq<(string, string)>)
    requires Clean(t) && IsDict(snippets) && PlainKeys(snippets)
    requires IsDict(base) && PlainValues(base) && IsDict(ctx) && PlainValues(ctx) && IsDict(both) && PlainValues(both)
    requires ToMap(both) == ToMap(base) + ToMap(ctx) && Agree(ToMap(base), ToMap(ctx))
    requires IsDict(base + SnippetItems(snippets, ctx)) && ToMap(snippets).Keys !! ToMap(base).Keys
    requires CleanSnippets(ToMap(snippets), ToMap(ctx).Keys) && StripsAlike(ToMap(snippets), ToMap(ctx))
    requires Names(t) <= ToMap(base).Keys + ToMap(snippets).Keys
    ensures Outcome(Fold(t, base + SnippetItems(snippets, ctx)))
            == Outcome(Fold(Inline(t, Stripped(ToMap(snippets))), both))
    ensures Outcome(Fold(t, base + SnippetItems(snippets, ctx))).Ok?
  {
    hide Clean, Names, Inline, Expand, Fold, Outcome, ToMap, PlainValues, StripsAlike, Meaning;
    var raws := ToMap(snippets);
    MapOfSnippets(snippets, ctx);
    ToMapConcat(base, SnippetItems(snippets, ctx));
    StrippedSnippets(raws, ToMap(ctx));
    TwoStage(t, Stripped(raws), ToMap(base), ToMap(ctx));
    StagePlain(snippets, base, ctx);
    FoldMeaning(t, base + SnippetItems(snippets, ctx));
    FoldMeaning(Inline(t, Stripped(raws)), both);
  }

  lemma StagePlain(snippets: seq<(string, string)>, base: seq<(string, string)>, ctx: seq<(string, string)>)
    requires IsDict(snippets) && PlainKeys(snippets) && PlainValues(base) && IsDict(ctx) && PlainValues(ctx)
    requires CleanSnippets(ToMap(snippets), ToMap(ctx).Keys)
    ensures PlainValues(base + SnippetItems(snippets, ctx))
  {
    var items := SnippetItems(snippets, ctx);
    MapOfSnippets(snippets, ctx);
    ToMapPlain(ctx);
    StrippedPlain(ToMap(snippets), ToMap(ctx));
    MapPlain(items);
  }
}
