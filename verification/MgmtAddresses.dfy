/** Management addresses (lab/topology_contract.py).  IPv6 addresses are built
    by gluing the decimal host suffix onto the text of the network address, so
    the address a node really gets is what the text parses back to.  Text form:
    RFC 5952 section 4.2; grammar: RFC 4291 section 2.2. */
module MgmtAddresses {
  import opened Text

  // ---- Digits ---------------------------------------------------------------

  function HexChar(d: nat): char
    requires d < 16
  {
    if d < 10 then '0' + d as char else 'a' + (d - 10) as char
  }

  predicate IsHexChar(c: char) {
    '0' <= c <= '9' || 'a' <= c <= 'f' || 'A' <= c <= 'F'
  }

  function CharValue(c: char): (d: nat)
    requires IsHexChar(c)
    ensures d < 16
  {
    if '0' <= c <= '9' then (c - '0') as nat
    else if 'a' <= c <= 'f' then 10 + (c - 'a') as nat
    else 10 + (c - 'A') as nat
  }

  predicate AllHex(s: string) {
    forall i | 0 <= i < |s| :: IsHexChar(s[i])
  }

  /** Lower-case hexadecimal without leading zeros. */
  function Hex(n: nat): string {
    if n < 16 then [HexChar(n)] else Hex(n / 16) + [HexChar(n % 16)]
  }

  /** `str(n)` of a non-negative number. */
  function Decimal(n: nat): string {
    if n < 10 then [HexChar(n)] else Decimal(n / 10) + [HexChar(n % 10)]
  }

  /** The number that hexadecimal digits denote. */
  function ReadHex(s: string): nat
    requires AllHex(s)
  {
    if s == "" then 0 else ReadHex(s[..|s| - 1]) * 16 + CharValue(s[|s| - 1])
  }

  /** The decimal digits of `n` read as hexadecimal ones: 54 becomes 0x54. */
  function DigitsAsHex(n: nat): nat {
    if n < 10 then n else DigitsAsHex(n / 10) * 16 + n % 10
  }

  function Pow(b: nat, e: nat): (r: nat)
    ensures b > 0 ==> r > 0
  {
    if e == 0 then 1 else b * Pow(b, e - 1)
  }

  lemma {:induction false} HexRoundTrip(n: nat)
    ensures AllHex(Hex(n)) && Hex(n) != "" && ReadHex(Hex(n)) == n
  {
    if n >= 16 {
      HexRoundTrip(n / 16);
      hide ReadHex, CharValue, HexChar, IsHexChar;
    } else {
      assert "" + [HexChar(n)] == [HexChar(n)];
    }
  }

  lemma {:induction false} HexLength(n: nat, w: nat)
    requires n < Pow(16, w) && w > 0
    ensures |Hex(n)| <= w
  {
    if n >= 16 {
      assert Pow(16, w) == 16 * Pow(16, w - 1);
      assert w > 1;
      HexLength(n / 16, w - 1);
    }
  }

  lemma {:induction false} DecimalReadsAs(n: nat)
    ensures AllHex(Decimal(n)) && Decimal(n) != "" && ReadHex(Decimal(n)) == DigitsAsHex(n)
  {
    if n >= 10 {
      DecimalReadsAs(n / 10);
      hide ReadHex, CharValue, HexChar, IsHexChar;
    } else {
      assert "" + [HexChar(n)] == [HexChar(n)];
    }
  }

  lemma {:induction false} DecimalLength(n: nat, w: nat)
    requires n < Pow(10, w) && w > 0
    ensures |Decimal(n)| <= w
  {
    if n >= 10 {
      assert Pow(10, w) == 10 * Pow(10, w - 1);
      assert w > 1;
      DecimalLength(n / 10, w - 1);
    }
  }

  /** Reading decimal digits as hexadecimal keeps the order of the numbers. */
  lemma {:induction false} DigitsAsHexMonotone(n: nat, m: nat)
    requires n < m
    ensures DigitsAsHex(n) < DigitsAsHex(m)
    decreases m
  {
    if m >= 10 {
      if n < 10 {
        DigitsAsHexPositive(m / 10);
      } else if n / 10 < m / 10 {
        DigitsAsHexMonotone(n / 10, m / 10);
      }
    }
  }

  lemma {:induction false} DigitsAsHexPositive(n: nat)
    requires n > 0
    ensures DigitsAsHex(n) > 0
  {
    if n >= 10 { DigitsAsHexPositive(n / 10); }
  }

  lemma {:induction false} ReadHexAppend(a: string, b: string)
    requires AllHex(a) && AllHex(b)
    ensures AllHex(a + b) && ReadHex(a + b) == ReadHex(a) * Pow(16, |b|) + ReadHex(b)
  {
    if b == "" {
      assert a + b == a;
    } else {
      var init, c := b[..|b| - 1], b[|b| - 1];
      ReadHexAppend(a, init);
      assert b == init + [c];
      AppendDigit(a, init, c, Pow(16, |init|));
    }
  }

  lemma AppendDigit(a: string, b: string, c: char, p: nat)
    requires AllHex(a) && AllHex(b) && AllHex(a + b) && IsHexChar(c)
    requires ReadHex(a + b) == ReadHex(a) * p + ReadHex(b)
    ensures AllHex(a + (b + [c])) && AllHex(b + [c])
    ensures ReadHex(a + (b + [c])) == ReadHex(a) * (16 * p) + ReadHex(b + [c])
  {
    ReadHexLast(a + b, c);
    ReadHexLast(b, c);
    assert a + (b + [c]) == (a + b) + [c];
    ShiftSum(ReadHex(a), p, ReadHex(b), CharValue(c));
  }

  lemma ReadHexLast(s: string, c: char)
    requires AllHex(s) && IsHexChar(c)
    ensures AllHex(s + [c]) && ReadHex(s + [c]) == ReadHex(s) * 16 + CharValue(c)
  {
    assert (s + [c])[..|s + [c]| - 1] == s;
  }

  lemma ShiftSum(x: nat, p: nat, y: nat, c: nat)
    ensures (x * p + y) * 16 + c == x * (16 * p) + (y * 16 + c)
  {
  }

  // ---- Lists joined at colons -----------------------------------------------

  predicate NoColon(parts: seq<string>) { Free(parts, ':') }

  /** Text appended to a joined list extends its last part. */
  lemma {:induction false} JoinAppend(parts: seq<string>, d: string)
    requires parts != []
    ensures Join(parts, ':') + d == Join(parts[|parts| - 1 := parts[|parts| - 1] + d], ':')
  {
    var last := |parts| - 1;
    var more := parts[last := parts[last] + d];
    if |parts| > 1 {
      JoinAppend(parts[1..], d);
      assert more[1..] == parts[1..][last - 1 := parts[1..][last - 1] + d];
    }
  }

  // ---- The canonical text of an address -------------------------------------

  /** Eight 16-bit groups. */
  predicate IsAddress(h: seq<nat>) {
    |h| == 8 && forall i | 0 <= i < 8 :: h[i] < 0x1_0000
  }

  function Hexes(h: seq<nat>): (parts: seq<string>)
    ensures |parts| == |h| && forall i | 0 <= i < |h| :: parts[i] == Hex(h[i])
  {
    seq(|h|, i requires 0 <= i < |h| => Hex(h[i]))
  }

  /** How many zero groups follow each other from `i` on. */
  function ZeroRun(h: seq<nat>, i: nat): (n: nat)
    requires i <= |h|
    ensures i + n <= |h|
    ensures forall k | i <= k < i + n :: h[k] == 0
    ensures i + n < |h| ==> h[i + n] != 0
    decreases |h| - i
  {
    if i < |h| && h[i] == 0 then 1 + ZeroRun(h, i + 1) else 0
  }

  function ZeroRuns(h: seq<nat>): (z: seq<nat>)
    ensures |z| == |h| + 1 && forall i | 0 <= i <= |h| :: z[i] == ZeroRun(h, i)
  {
    seq(|h| + 1, i requires 0 <= i <= |h| => ZeroRun(h, i))
  }

  /** Where the first greatest number at or after `i` is. */
  function FirstMax(z: seq<nat>, i: nat): (r: nat)
    requires i < |z|
    ensures i <= r < |z|
    decreases |z| - i
  {
    if i == |z| - 1 then i
    else
      var r := FirstMax(z, i + 1);
      if z[r] > z[i] then r else i
  }

  lemma {:induction false} FirstMaxIs(z: seq<nat>, i: nat, k: nat)
    requires i <= k < |z|
    ensures z[k] <= z[FirstMax(z, i)]
    ensures k < FirstMax(z, i) ==> z[k] < z[FirstMax(z, i)]
    decreases |z| - i
  {
    if k > i { FirstMaxIs(z, i + 1, k); }
  }

  /** Where the first of the longest zero runs starts. */
  function LongestRun(h: seq<nat>): (r: nat)
    ensures r <= |h|
  {
    FirstMax(ZeroRuns(h), 0)
  }

  lemma LongestRunIs(h: seq<nat>, k: nat)
    requires k <= |h|
    ensures ZeroRun(h, k) <= ZeroRun(h, LongestRun(h))
    ensures k < LongestRun(h) ==> ZeroRun(h, k) < ZeroRun(h, LongestRun(h))
  {
    hide ZeroRun;
    FirstMaxIs(ZeroRuns(h), 0, k);
  }

  /** The groups before `::`, or an empty part at the start of the text. */
  function Before(h: seq<nat>, at: nat): (parts: seq<string>)
    requires at <= |h|
    ensures parts != []
  {
    if at == 0 then [""] else Hexes(h[..at])
  }

  /** The groups after `::`, or an empty part at the end of the text. */
  function After(h: seq<nat>, from: nat): (parts: seq<string>)
    requires from <= |h|
    ensures parts != []
  {
    if from == |h| then [""] else Hexes(h[from..])
  }

  /** The parts between colons; `::` replaces the first longest run of at least
      two zero groups. */
  function Parts(h: seq<nat>): (parts: seq<string>)
    requires |h| == 8
    ensures parts != []
  {
    var at := LongestRun(h);
    var n := ZeroRun(h, at);
    if n <= 1 then Hexes(h) else Before(h, at) + [""] + After(h, at + n)
  }

  function Format(h: seq<nat>): string
    requires |h| == 8
  {
    Join(Parts(h), ':')
  }

  /** The text ends in `::`. */
  predicate EndsCompressed(h: seq<nat>)
    requires |h| == 8
  {
    var at := LongestRun(h);
    var n := ZeroRun(h, at);
    n >= 2 && at + n == 8
  }

  // ---- The grammar ----------------------------------------------------------

  predicate IsGroup(p: string) { 1 <= |p| <= 4 && AllHex(p) }

  predicate AllGroups(parts: seq<string>) {
    forall i | 0 <= i < |parts| :: IsGroup(parts[i])
  }

  function ReadAll(parts: seq<string>): (h: seq<nat>)
    requires AllGroups(parts)
    ensures |h| == |parts| && forall i | 0 <= i < |h| :: h[i] == ReadHex(parts[i])
  {
    seq(|parts|, i requires 0 <= i < |parts| => ReadHex(parts[i]))
  }

  /** The first empty part strictly inside at or after `i`, or the length. */
  function FirstGap(parts: seq<string>, i: nat): (g: nat)
    requires i <= |parts|
    ensures i <= g <= |parts|
    ensures forall k | i <= k < g && k < |parts| - 1 :: parts[k] != ""
    ensures g < |parts| ==> g < |parts| - 1 && parts[g] == ""
    decreases |parts| - i
  {
    if i >= |parts| - 1 then |parts|
    else if parts[i] == "" then i
    else FirstGap(parts, i + 1)
  }

  /** At either end of the text a `::` leaves one more empty part. */
  function Side(parts: seq<string>): seq<string> {
    if parts == [""] then [] else parts
  }

  function Zeros(n: nat): (z: seq<nat>)
    ensures |z| == n && forall i | 0 <= i < n :: z[i] == 0
  {
    seq(n, i => 0)
  }

  /** The groups on both sides of a `::`, which stands for at least one zero. */
  function Assemble(hi: seq<string>, lo: seq<string>): Option<seq<nat>> {
    if |hi| + |lo| <= 7 && AllGroups(hi) && AllGroups(lo)
    then Some(ReadAll(hi) + Zeros(8 - |hi| - |lo|) + ReadAll(lo))
    else None
  }

  /** Eight groups, or groups around one `::`. */
  function ReadParts(parts: seq<string>): Option<seq<nat>>
    requires parts != []
  {
    var gap := FirstGap(parts, 1);
    if gap == |parts| then
      if |parts| == 8 && AllGroups(parts) then Some(ReadAll(parts)) else None
    else Assemble(Side(parts[..gap]), Side(parts[gap + 1..]))
  }

  function Parse(text: string): Option<seq<nat>> {
    ReadParts(Split(text, ':'))
  }

  // ---- Appending a suffix to the canonical text -----------------------------

  lemma GroupOfHex(v: nat)
    requires v < 0x1_0000
    ensures IsGroup(Hex(v)) && ReadHex(Hex(v)) == v && ':' !in Hex(v)
  {
    HexRoundTrip(v);
    HexLength(v, 4);
  }

  lemma HexesAreGroups(h: seq<nat>)
    requires forall i | 0 <= i < |h| :: h[i] < 0x1_0000
    ensures AllGroups(Hexes(h)) && ReadAll(Hexes(h)) == h && NoColon(Hexes(h))
  {
    forall i | 0 <= i < |h|
      ensures IsGroup(Hexes(h)[i]) && ReadHex(Hexes(h)[i]) == h[i] && ':' !in Hexes(h)[i]
    {
      GroupOfHex(h[i]);
    }
  }

  /** The parts with `d` glued onto the last one. */
  function Glue(parts: seq<string>, d: string): (r: seq<string>)
    requires parts != []
    ensures |r| == |parts|
  {
    parts[|parts| - 1 := parts[|parts| - 1] + d]
  }

  lemma NoColonConcat(a: seq<string>, b: seq<string>)
    requires NoColon(a) && NoColon(b)
    ensures NoColon(a + b)
  {
  }

  lemma EndsPlain(h: seq<nat>, at: nat)
    requires at <= |h| && forall i | 0 <= i < |h| :: h[i] < 0x1_0000
    ensures NoColon(Before(h, at)) && NoColon(After(h, at)) && NoColon([""])
  {
    hide Hexes;
    HexesAreGroups(h[..at]);
    HexesAreGroups(h[at..]);
  }

  lemma PartsPlain(h: seq<nat>)
    requires IsAddress(h)
    ensures NoColon(Parts(h))
  {
    hide Hex, Hexes, NoColon, LongestRun, ZeroRun, Before, After;
    var at := LongestRun(h);
    var n := ZeroRun(h, at);
    if n <= 1 {
      HexesAreGroups(h);
    } else {
      EndsPlain(h, at);
      EndsPlain(h, at + n);
      NoColonConcat(Before(h, at), [""]);
      NoColonConcat(Before(h, at) + [""], After(h, at + n));
    }
  }

  lemma ParseGlued(h: seq<nat>, d: string)
    requires IsAddress(h) && AllHex(d)
    ensures Parse(Format(h) + d) == ReadParts(Glue(Parts(h), d))
  {
    hide ReadParts, Parts;
    PartsPlain(h);
    JoinAppend(Parts(h), d);
    NoColonGlue(Parts(h), d);
    SplitJoin(Glue(Parts(h), d), ':');
  }

  lemma NoColonGlue(parts: seq<string>, d: string)
    requires parts != [] && NoColon(parts) && AllHex(d)
    ensures NoColon(Glue(parts, d))
  {
  }

  /** The digits in front of which the suffix is written. */
  function LastGroup(h: seq<nat>): string
    requires |h| == 8
  {
    if EndsCompressed(h) then "" else Hex(h[7])
  }

  lemma GlueAt(parts: seq<string>, d: string, i: nat)
    requires i < |parts|
    ensures Glue(parts, d)[i] == if i == |parts| - 1 then parts[i] + d else parts[i]
  {
  }

  lemma ShortIsGroup(p: string)
    requires AllHex(p) && p != ""
    ensures IsGroup(p) <==> |p| <= 4
  {
    hide AllHex;
  }

  lemma HexJoins(a: string, b: string)
    requires AllHex(a) && AllHex(b)
    ensures AllHex(a + b)
  {
  }

  /** One part of the glued groups. */
  lemma GluedPart(g: seq<nat>, d: string, i: nat)
    requires AllHex(d) && i < |g| && g[i] < 0x1_0000
    ensures var p := Glue(Hexes(g), d)[i];
      && p == (if i == |g| - 1 then Hex(g[i]) + d else Hex(g[i])) && AllHex(p) && p != ""
      && (IsGroup(p) <==> i < |g| - 1 || |Hex(g[i]) + d| <= 4)
      && (i < |g| - 1 ==> ReadHex(p) == g[i])
  {
    hide Hex, ReadHex, AllHex, Glue, IsGroup;
    GlueAt(Hexes(g), d, i);
    GroupOfHex(g[i]);
    HexGroup(g[i]);
    if i == |g| - 1 {
      HexJoins(Hex(g[i]), d);
      ShortIsGroup(Hex(g[i]) + d);
    }
  }

  lemma HexGroup(v: nat)
    requires v < 0x1_0000
    ensures AllHex(Hex(v)) && Hex(v) != ""
  {
    hide Hex;
    GroupOfHex(v);
  }

  lemma AllGroupsIf(parts: seq<string>)
    requires parts != [] && forall i | 0 <= i < |parts| - 1 :: IsGroup(parts[i])
    ensures AllGroups(parts) <==> IsGroup(parts[|parts| - 1])
  {
    hide IsGroup;
  }

  /** Groups with `d` glued on stay groups iff the last one stays short. */
  lemma GluedGroups(g: seq<nat>, d: string)
    requires g != [] && AllHex(d) && forall i | 0 <= i < |g| :: g[i] < 0x1_0000
    ensures var last := Hex(g[|g| - 1]) + d;
            (AllGroups(Glue(Hexes(g), d)) <==> |last| <= 4) && AllHex(last)
    ensures |Hex(g[|g| - 1]) + d| <= 4 ==>
              ReadAll(Glue(Hexes(g), d)) == g[|g| - 1 := ReadHex(Hex(g[|g| - 1]) + d)]
  {
    hide Hex, ReadHex, AllHex, Glue, IsGroup, AllGroups;
    var glued, k := Glue(Hexes(g), d), |g| - 1;
    forall i | 0 <= i < k ensures IsGroup(glued[i]) && AllHex(glued[i]) && ReadHex(glued[i]) == g[i] { GluedPart(g, d, i); }
    GluedPart(g, d, k);
    AllGroupsIf(glued);
    if |Hex(g[k]) + d| <= 4 {
      var read, want := ReadAll(glued), g[k := ReadHex(Hex(g[k]) + d)];
      forall i | 0 <= i < |g| ensures read[i] == want[i] {
        if i == k { assert read[i] == ReadHex(glued[i]); } else { assert read[i] == ReadHex(glued[i]); }
      }
    }
  }

  /** Without `::`. */
  lemma ReadPlain(h: seq<nat>, d: string)
    requires IsAddress(h) && AllHex(d)
    ensures AllHex(Hex(h[7]) + d)
    ensures ReadParts(Glue(Hexes(h), d)) ==
            if |Hex(h[7]) + d| <= 4 then Some(h[7 := ReadHex(Hex(h[7]) + d)]) else None
  {
    GluedGroups(h, d);
    var parts := Glue(Hexes(h), d);
    forall i | 0 <= i < 8 ensures parts[i] != "" { GroupOfHex(h[i]); }
  }

  /** The parser finds the `::` between two sides without empty inner parts. */
  lemma ReadAround(hi: seq<string>, lo: seq<string>)
    requires hi != [] && lo != [] && forall i | 1 <= i < |hi| :: hi[i] != ""
    ensures ReadParts(hi + [""] + lo) == Assemble(Side(hi), Side(lo))
  {
    var parts := hi + [""] + lo;
    assert parts[..|hi|] == hi && parts[|hi| + 1..] == lo;
    GapAt(parts, |hi|);
  }

  lemma GapAt(parts: seq<string>, g: nat)
    requires 1 <= g < |parts| - 1 && parts[g] == ""
    requires forall i | 1 <= i < g :: parts[..g][i] != ""
    ensures FirstGap(parts, 1) == g
  {
    assert forall i | 1 <= i < g :: parts[i] == parts[..g][i];
  }

  lemma BeforeSide(h: seq<nat>, at: nat)
    requires IsAddress(h) && at <= 8
    ensures AllGroups(Side(Before(h, at))) && ReadAll(Side(Before(h, at))) == h[..at]
    ensures forall i | 1 <= i < |Before(h, at)| :: Before(h, at)[i] != ""
  {
    HexesAreGroups(h[..at]);
    if at == 1 { assert IsGroup(Hexes(h[..at])[0]); }
  }

  lemma ReadSides(h: seq<nat>, at: nat, lo: seq<string>)
    requires IsAddress(h) && at <= 8 && lo != [] && at + |Side(lo)| <= 7
    ensures ReadParts(Before(h, at) + [""] + lo) ==
            if AllGroups(Side(lo)) then Some(h[..at] + Zeros(8 - at - |Side(lo)|) + ReadAll(Side(lo))) else None
  {
    hide ReadParts, Assemble, Before, Hexes;
    BeforeSide(h, at);
    ReadAround(Before(h, at), lo);
    AssembleKnown(Side(Before(h, at)), Side(lo), h[..at]);
  }

  lemma AssembleKnown(hi: seq<string>, lo: seq<string>, a: seq<nat>)
    requires |a| + |lo| <= 7 && AllGroups(hi) && ReadAll(hi) == a
    ensures Assemble(hi, lo) ==
            if AllGroups(lo) then Some(a + Zeros(8 - |a| - |lo|) + ReadAll(lo)) else None
  {
  }

  /** Zeros between the front of `h` and its rewritten tail. */
  lemma Refill(h: seq<nat>, at: nat, n: nat, v: nat)
    requires |h| == 8 && at + n < 8 && forall i | at <= i < at + n :: h[i] == 0
    ensures h[..at] + Zeros(n) + h[at + n..][7 - at - n := v] == h[7 := v]
  {
  }

  lemma OneGroup(d: string)
    requires AllHex(d) && d != ""
    ensures AllGroups([d]) <==> |d| <= 4
    ensures |d| <= 4 ==> ReadAll([d]) == [ReadHex(d)]
    ensures Side([d]) == [d]
  {
    hide ReadHex, AllHex;
    assert [d][0] == d;
  }

  lemma GlueAfter(front: seq<string>, back: seq<string>, d: string)
    requires back != []
    ensures Glue(front + back, d) == front + Glue(back, d)
  {
  }

  /** With `::` at the end, the suffix stands alone after it. */
  lemma ReadAtEnd(h: seq<nat>, at: nat, d: string)
    requires IsAddress(h) && AllHex(d) && d != "" && at <= 6
    requires forall i | at <= i < 8 :: h[i] == 0
    ensures ReadParts(Before(h, at) + [""] + [d]) == if |d| <= 4 then Some(h[7 := ReadHex(d)]) else None
  {
    hide ReadParts, ReadHex, Before;
    OneGroup(d);
    ReadSides(h, at, [d]);
    if |d| <= 4 {
      Refill(h, at, 7 - at, ReadHex(d));
      assert h[7..][0 := ReadHex(d)] == [ReadHex(d)];
    }
  }

  /** With `::` further left, the suffix goes to the last group. */
  lemma ReadInside(h: seq<nat>, at: nat, n: nat, d: string)
    requires IsAddress(h) && AllHex(d) && n >= 2 && at + n < 8
    requires forall i | at <= i < at + n :: h[i] == 0
    ensures AllHex(Hex(h[7]) + d)
    ensures ReadParts(Before(h, at) + [""] + Glue(Hexes(h[at + n..]), d)) ==
            if |Hex(h[7]) + d| <= 4 then Some(h[7 := ReadHex(Hex(h[7]) + d)]) else None
  {
    hide ReadParts, ReadHex, Hex, Before;
    var g := h[at + n..];
    var lo := Glue(Hexes(g), d);
    assert g[|g| - 1] == h[7];
    GroupOfHex(h[7]);
    GluedGroups(g, d);
    assert lo[|lo| - 1] != "";
    assert Side(lo) == lo;
    ReadSides(h, at, lo);
    if |Hex(h[7]) + d| <= 4 { Refill(h, at, n, ReadHex(Hex(h[7]) + d)); }
  }

  lemma ReadCompressed(h: seq<nat>, at: nat, n: nat, g: string, d: string)
    requires IsAddress(h) && AllHex(d) && d != "" && n >= 2 && at + n <= 8
    requires forall i | at <= i < at + n :: h[i] == 0
    requires g == if at + n == 8 then "" else Hex(h[7])
    ensures AllHex(g + d)
    ensures ReadParts(Glue(Before(h, at) + [""] + After(h, at + n), d)) ==
            if |g + d| <= 4 then Some(h[7 := ReadHex(g + d)]) else None
  {
    GlueAfter(Before(h, at) + [""], After(h, at + n), d);
    if at + n == 8 {
      assert g + d == d;
      assert Glue([""], d) == [d] by { assert "" + d == d; }
      ReadAtEnd(h, at, d);
    } else {
      ReadInside(h, at, n, d);
    }
  }

  lemma ReadGlued(h: seq<nat>, g: string, d: string)
    requires IsAddress(h) && AllHex(d) && d != "" && g == LastGroup(h)
    ensures AllHex(g + d)
    ensures ReadParts(Glue(Parts(h), d)) == if |g + d| <= 4 then Some(h[7 := ReadHex(g + d)]) else None
  {
    hide ReadParts, Glue, Hexes, ReadHex, Before, After;
    var at := LongestRun(h);
    var n := ZeroRun(h, at);
    if n <= 1 {
      assert Parts(h) == Hexes(h) && g == Hex(h[7]);
      ReadPlain(h, d);
    } else {
      ReadCompressed(h, at, n, g, d);
    }
  }

  /** What gluing any hexadecimal digits onto the text of an address denotes. */
  lemma ParseAppend(h: seq<nat>, d: string)
    requires IsAddress(h) && AllHex(d) && d != ""
    ensures AllHex(LastGroup(h) + d)
    ensures Parse(Format(h) + d) ==
            if |LastGroup(h) + d| <= 4 then Some(h[7 := ReadHex(LastGroup(h) + d)]) else None
  {
    ParseGlued(h, d);
    ReadGlued(h, LastGroup(h), d);
  }

  lemma AfterSide(h: seq<nat>, from: nat)
    requires IsAddress(h) && from <= 8
    ensures AllGroups(Side(After(h, from))) && ReadAll(Side(After(h, from))) == h[from..]
    ensures |Side(After(h, from))| == 8 - from
  {
    HexesAreGroups(h[from..]);
    if from == 7 { assert IsGroup(Hexes(h[from..])[0]); }
  }

  lemma ReadPlainBack(h: seq<nat>)
    requires IsAddress(h)
    ensures ReadParts(Hexes(h)) == Some(h)
  {
    HexesAreGroups(h);
    forall i | 0 <= i < 8 ensures Hexes(h)[i] != "" { GroupOfHex(h[i]); }
  }

  lemma ReadCompressedBack(h: seq<nat>, at: nat, n: nat)
    requires IsAddress(h) && n >= 2 && at + n <= 8
    requires forall i | at <= i < at + n :: h[i] == 0
    ensures ReadParts(Before(h, at) + [""] + After(h, at + n)) == Some(h)
  {
    hide ReadParts, ReadHex, Hex, Before, After;
    AfterSide(h, at + n);
    ReadSides(h, at, After(h, at + n));
    RefillAll(h, at, n);
  }

  lemma RefillAll(h: seq<nat>, at: nat, n: nat)
    requires |h| == 8 && at + n <= 8 && forall i | at <= i < at + n :: h[i] == 0
    ensures h[..at] + Zeros(n) + h[at + n..] == h
  {
  }

  lemma PartsBack(h: seq<nat>)
    requires IsAddress(h)
    ensures ReadParts(Parts(h)) == Some(h)
  {
    hide ReadParts, Hexes, Before, After;
    var at := LongestRun(h);
    var n := ZeroRun(h, at);
    if n <= 1 { ReadPlainBack(h); } else { ReadCompressedBack(h, at, n); }
  }

  /** The text of an address parses back to the address. */
  lemma FormatRoundTrip(h: seq<nat>)
    requires IsAddress(h)
    ensures Parse(Format(h)) == Some(h)
  {
    hide ReadParts, Parts;
    PartsPlain(h);
    SplitJoin(Parts(h), ':');
    PartsBack(h);
  }

  // ---- Addresses as numbers -------------------------------------------------

  function Value(h: seq<nat>): nat {
    if h == [] then 0 else Value(h[..|h| - 1]) * 0x1_0000 + h[|h| - 1]
  }

  lemma ValueLast(h: seq<nat>, v: nat)
    requires |h| == 8
    ensures Value(h[7 := v]) - v == Value(h) - h[7]
  {
    assert h[7 := v][..7] == h[..7];
  }

  lemma {:induction false} PowPositive(b: nat, e: nat)
    requires b > 1 && e > 0
    ensures Pow(b, e) > 1
  {
    if e > 1 { PowPositive(b, e - 1); }
  }

  lemma AppendValue(h: seq<nat>, g: string, d: string)
    requires |h| == 8 && AllHex(g) && AllHex(d) && d != "" && ReadHex(g) == h[7]
    ensures AllHex(g + d)
    ensures Value(h[7 := ReadHex(g + d)]) == Value(h) + ReadHex(d) <==> h[7] == 0
  {
    ReadHexAppend(g, d);
    ValueLast(h, ReadHex(g + d));
    PowPositive(16, |d|);
    GrowsUnlessZero(h[7], Pow(16, |d|));
  }

  lemma LastGroupValue(h: seq<nat>)
    requires IsAddress(h)
    ensures AllHex(LastGroup(h)) && ReadHex(LastGroup(h)) == h[7]
  {
    GroupOfHex(h[7]);
  }

  /** The address a node gets is the network address plus the digits read as
      hexadecimal exactly when the last group of the network is zero and the
      digits still fit behind it: four after `::`, three after a written 0. */
  lemma AppendAddsExactly(h: seq<nat>, d: string)
    requires IsAddress(h) && AllHex(d) && d != ""
    ensures var a := Parse(Format(h) + d);
            (a.Some? && Value(a.value) == Value(h) + ReadHex(d)) <==>
            (h[7] == 0 && |d| <= if EndsCompressed(h) then 4 else 3)
  {
    ParseAppend(h, d);
    LastGroupValue(h);
    AppendValue(h, LastGroup(h), d);
    if h[7] == 0 { LastGroupLength(h); }
  }

  lemma LastGroupLength(h: seq<nat>)
    requires IsAddress(h) && h[7] == 0
    ensures |LastGroup(h)| == if EndsCompressed(h) then 0 else 1
  {
  }

  lemma GrowsUnlessZero(x: nat, p: nat)
    requires p > 1
    ensures x * p == x <==> x == 0
  {
  }

  // ---- Networks -------------------------------------------------------------

  /** `h` is a network address of prefix length `p`: its host bits are zero. */
  predicate IsNetwork(h: seq<nat>, p: nat) {
    IsAddress(h) && p <= 128 && Value(h) % Pow(2, 128 - p) == 0
  }

  /** `mgmt_ipv6_ip`: the text the code hands out for a host suffix. */
  function MgmtIpv6(h: seq<nat>, suffix: nat): string
    requires |h| == 8
  {
    Format(h) + Decimal(suffix)
  }

  /** `a` is the address of the node with that suffix: the network address plus
      the suffix digits read as hexadecimal. */
  predicate HasSuffix(a: Option<seq<nat>>, h: seq<nat>, suffix: nat) {
    a.Some? && Value(a.value) == Value(h) + DigitsAsHex(suffix)
  }

  lemma PowSplit(b: nat, m: nat, n: nat)
    ensures Pow(b, m + n) == Pow(b, m) * Pow(b, n)
  {
    if m > 0 {
      PowSplit(b, m - 1, n);
      assert Pow(b, m + n) == b * (Pow(b, m - 1) * Pow(b, n));
    }
  }

  lemma Pow2Of16()
    ensures Pow(2, 16) == 0x1_0000
  {
    assert Pow(2, 4) == 16;
    PowSplit(2, 4, 4);
    PowSplit(2, 8, 8);
  }

  /** A number below the base that makes a multiple of it is zero. */
  lemma LastDigitZero(x: int, y: int, b: nat, last: nat)
    requires last < b && x * b + last == y * b
    ensures last == 0 && x == y
  {
    assert (y - x) * b == last;
    MultipleBelow(y - x, b, last);
  }

  lemma MultipleBelow(d: int, b: nat, last: nat)
    requires d * b == last && last < b
    ensures d == 0
  {
    if d >= 1 { Monotone(1, d, b); }
    if d <= -1 { Monotone(d, -1, b); }
  }

  lemma Monotone(x: int, y: int, b: nat)
    requires x <= y
    ensures x * b <= y * b
  {
  }

  /** The last `k` groups of a multiple of 2^16k are zero. */
  lemma {:induction false} TailZero(h: seq<nat>, k: nat, e: nat, q: nat)
    requires k <= |h| && e >= 16 * k && Value(h) == q * Pow(2, e)
    requires forall i | 0 <= i < |h| :: h[i] < 0x1_0000
    ensures forall i | |h| - k <= i < |h| :: h[i] == 0
  {
    if k > 0 {
      var init, last := h[..|h| - 1], h[|h| - 1];
      var rest := Pow(2, e - 16);
      PowSplit(2, e - 16, 16);
      Pow2Of16();
      assert q * Pow(2, e) == (q * rest) * 0x1_0000 by { Regroup(q, rest, 0x1_0000); }
      LastDigitZero(Value(init), q * rest, 0x1_0000, last);
      TailZero(init, k - 1, e - 16, q);
    }
  }

  lemma Regroup(a: nat, b: nat, c: nat)
    ensures a * (b * c) == (a * b) * c
  {
  }

  /** Every IPv6 subnet with a prefix of at most 64 bits ends in `::`. */
  lemma WideSubnetEndsCompressed(h: seq<nat>, p: nat)
    requires IsNetwork(h, p) && p <= 64
    ensures EndsCompressed(h) && h[7] == 0
  {
    TailZero(h, 4, 128 - p, Value(h) / Pow(2, 128 - p));
    assert ZeroRun(h, 4) == 4;
    LongestRunIs(h, 4);
  }

  /** The main result for the lab: any subnet of prefix length at most 64 and
      any suffix of at most four digits. */
  lemma MgmtIpv6Parses(h: seq<nat>, p: nat, suffix: nat)
    requires IsNetwork(h, p) && p <= 64 && suffix < 10000
    ensures HasSuffix(Parse(MgmtIpv6(h, suffix)), h, suffix)
  {
    DecimalReadsAs(suffix);
    DecimalLength(suffix, 4) by { assert Pow(10, 4) == 10000; }
    WideSubnetEndsCompressed(h, p);
    AppendAddsExactly(h, Decimal(suffix));
  }

  /** Two-digit suffixes, for every network whatsoever: the address is right
      exactly when the last 16 bits of the network are zero. */
  lemma TwoDigitsExactly(h: seq<nat>, suffix: nat)
    requires IsAddress(h) && suffix < 100
    ensures HasSuffix(Parse(MgmtIpv6(h, suffix)), h, suffix) <==> h[7] == 0
  {
    DecimalReadsAs(suffix);
    DecimalLength(suffix, 2) by { assert Pow(10, 2) == 100; }
    AppendAddsExactly(h, Decimal(suffix));
  }

  lemma {:induction false} DigitsAsHexBound(n: nat, w: nat)
    requires n < Pow(10, w) && w > 0
    ensures DigitsAsHex(n) < Pow(16, w)
  {
    assert Pow(16, w) == 16 * Pow(16, w - 1) && Pow(10, w) == 10 * Pow(10, w - 1);
    if n < 10 {
    } else {
      DigitsAsHexBound(n / 10, w - 1);
    }
  }

  lemma SubnetSize(p: nat)
    requires p <= 112
    ensures Pow(2, 128 - p) >= 0x1_0000
  {
    PowSplit(2, 16, 112 - p);
    Pow2Of16();
    Monotone(1, Pow(2, 112 - p), 0x1_0000);
  }

  lemma FourDigitRange(m: nat, n: nat)
    requires 1 < m < n < 10000
    ensures 1 < DigitsAsHex(m) < DigitsAsHex(n) < 0x1_0000
  {
    DigitsAsHexMonotone(1, m);
    DigitsAsHexMonotone(m, n);
    DigitsAsHexBound(n, 4) by { assert Pow(10, 4) == 10000; }
    assert Pow(16, 4) == 0x1_0000;
  }

  /** The address lies in the subnet, differs from the gateway `::1`, and two
      suffixes never share an address. */
  lemma MgmtIpv6Distinct(h: seq<nat>, p: nat, m: nat, n: nat)
    requires IsNetwork(h, p) && p <= 64 && 1 < m < n < 10000
    ensures var a, b := Parse(MgmtIpv6(h, m)), Parse(MgmtIpv6(h, n));
            a.Some? && b.Some? &&
            Value(h) + 1 < Value(a.value) < Value(b.value) < Value(h) + Pow(2, 128 - p)
  {
    hide Parse, MgmtIpv6, Pow, DigitsAsHex;
    MgmtIpv6Parses(h, p, m);
    MgmtIpv6Parses(h, p, n);
    FourDigitRange(m, n);
    SubnetSize(p);
  }

  // ---- The lab's nodes ------------------------------------------------------

  const MGMT_HOST_SUFFIXES: seq<(string, nat)> := [
    ("ceos1-both", 11), ("ceos2-pqc", 12), ("ceos3-qkd", 13),
    ("host1", 21), ("host2", 22), ("host3", 23),
    ("radius", 50), ("syslog", 53), ("kme-a", 51), ("kme-b", 52), ("test-runner", 54)
  ]

  /** The address text is an address inside the subnet, past the gateway's. */
  ghost predicate UsableIpv6(h: seq<nat>, p: nat, text: string)
    requires p <= 128
  {
    Parse(text).Some? && Value(h) + 1 < Value(Parse(text).value) < Value(h) + Pow(2, 128 - p)
  }

  function NodeSuffix(i: nat): nat
    requires i < |MGMT_HOST_SUFFIXES|
  {
    MGMT_HOST_SUFFIXES[i].1
  }

  lemma SuffixDigits(i: nat)
    requires i < |MGMT_HOST_SUFFIXES|
    ensures 10 < NodeSuffix(i) < 55 && 1 < DigitsAsHex(NodeSuffix(i)) <= 0x54
  {
    DigitsAsHexMonotone(1, NodeSuffix(i));
    if NodeSuffix(i) < 54 { DigitsAsHexMonotone(NodeSuffix(i), 54); }
    assert DigitsAsHex(54) == 0x54;
  }

  lemma Pow2Of7()
    ensures Pow(2, 7) == 128 && Pow(2, 6) == 64
  {
    assert Pow(2, 3) == 8;
    assert Pow(2, 6) == 64;
  }

  lemma NodeInside(h: seq<nat>, p: nat, i: nat)
    requires IsAddress(h) && h[7] == 0 && p <= 121 && i < |MGMT_HOST_SUFFIXES|
    ensures UsableIpv6(h, p, MgmtIpv6(h, NodeSuffix(i)))
  {
    hide Parse, MgmtIpv6, Value, DigitsAsHex, Pow, NodeSuffix;
    SuffixDigits(i);
    TwoDigitsExactly(h, NodeSuffix(i));
    Pow2Of7();
    PowMonotone(2, 7, 128 - p);
  }

  /** In a subnet narrower than 16 bits the last group is a multiple of its size. */
  lemma LastGroupMultiple(h: seq<nat>, p: nat)
    requires IsNetwork(h, p) && h[7] != 0
    ensures Pow(2, 128 - p) <= h[7]
  {
    hide Pow;
    var s := Pow(2, 128 - p);
    var q := Value(h) / s;
    Quotient(Value(h), s);
    if p <= 112 {
      TailZero(h, 1, 128 - p, q);
    } else {
      PowSplit(2, 128 - p, p - 112);
      Pow2Of16();
      LastOfValue(h);
      DividesRest(s, Pow(2, p - 112), Value(h[..7]), q, h[7]);
    }
  }

  lemma Quotient(v: nat, s: nat)
    requires s > 0 && v % s == 0
    ensures v == v / s * s
  {
  }

  lemma LastOfValue(h: seq<nat>)
    requires |h| == 8
    ensures Value(h) == Value(h[..7]) * 0x1_0000 + h[7]
  {
  }

  lemma DividesRest(s: nat, r: nat, x: nat, q: nat, last: nat)
    requires s > 0 && s * r == 0x1_0000 && x * 0x1_0000 + last == q * s && last > 0
    ensures s <= last
  {
    assert x * 0x1_0000 == (x * r) * s by { Regroup(x, r, s); }
    assert (q - x * r) * s == last;
    if q - x * r < 1 { Monotone(q - x * r, 0, s); } else { Monotone(1, q - x * r, s); }
  }

  /** Behind a last group that is not zero the suffix leads out of the subnet. */
  lemma NodeOutside(h: seq<nat>, p: nat, n: nat)
    requires IsNetwork(h, p) && h[7] != 0 && 10 <= n < 100
    ensures !UsableIpv6(h, p, MgmtIpv6(h, n))
  {
    hide Parse, Value, ReadHex, Pow, Format, LastGroup, Decimal, HexChar;
    var d := Decimal(n);
    DecimalReadsAs(n);
    TwoDigits(n);
    ParseAppend(h, d);
    LastGroupValue(h);
    ReadHexAppend(LastGroup(h), d);
    Pow16Of2();
    ValueLast(h, ReadHex(LastGroup(h) + d));
    LastGroupMultiple(h, p);
  }

  lemma Pow16Of2()
    ensures Pow(16, 2) == 256
  {
  }

  lemma TwoDigits(n: nat)
    requires 10 <= n < 100
    ensures |Decimal(n)| == 2
  {
  }

  /** The suffix table fits an IPv6 network exactly when the last 16 bits of the
      network are zero and it is a /121 or wider. */
  lemma NodesIpv6Exactly(h: seq<nat>, p: nat)
    requires IsNetwork(h, p)
    ensures (forall i | 0 <= i < |MGMT_HOST_SUFFIXES| :: UsableIpv6(h, p, MgmtIpv6(h, NodeSuffix(i))))
            <==> h[7] == 0 && p <= 121
  {
    hide UsableIpv6, Value, MgmtIpv6, Pow;
    if h[7] == 0 && p <= 121 {
      forall i | 0 <= i < |MGMT_HOST_SUFFIXES| ensures UsableIpv6(h, p, MgmtIpv6(h, NodeSuffix(i))) {
        NodeInside(h, p, i);
      }
    } else {
      assert NodeSuffix(10) == 54;
      if h[7] != 0 { NodeOutside(h, p, 54); } else { LastNodeOutside(h, p); }
    }
  }

  lemma LastNodeOutside(h: seq<nat>, p: nat)
    requires IsAddress(h) && h[7] == 0 && 121 < p <= 128
    ensures !UsableIpv6(h, p, MgmtIpv6(h, 54))
  {
    hide Parse, MgmtIpv6, Value, Pow;
    TwoDigitsExactly(h, 54);
    assert DigitsAsHex(54) == 0x54;
    Pow2Of7();
    PowMonotone(2, 128 - p, 6);
  }

  /** Then no two nodes share an address. */
  lemma NodesIpv6(h: seq<nat>, i: nat, j: nat)
    requires IsAddress(h) && h[7] == 0
    requires i < |MGMT_HOST_SUFFIXES| && j < |MGMT_HOST_SUFFIXES| && i != j
    ensures Parse(MgmtIpv6(h, NodeSuffix(i))) != Parse(MgmtIpv6(h, NodeSuffix(j)))
  {
    hide Parse, MgmtIpv6, Value, DigitsAsHex;
    var m, n := NodeSuffix(i), NodeSuffix(j);
    SuffixDigits(i);
    SuffixDigits(j);
    TwoDigitsExactly(h, m);
    TwoDigitsExactly(h, n);
    if m < n { DigitsAsHexMonotone(m, n); } else { DigitsAsHexMonotone(n, m); }
  }

  /** `mgmt_ip`: in IPv4 the suffix is added as a number. */
  function MgmtIpv4(base: nat, suffix: nat): nat { base + suffix }

  /** Inside the subnet, and neither its network, gateway nor broadcast address. */
  predicate UsableIpv4(base: nat, p: nat, a: nat)
    requires p <= 32
  {
    base + 1 < a < base + Pow(2, 32 - p) - 1
  }

  lemma {:induction false} PowMonotone(b: nat, m: nat, n: nat)
    requires b > 0 && m <= n
    ensures Pow(b, m) <= Pow(b, n)
  {
    if m < n {
      PowMonotone(b, m, n - 1);
      Monotone(1, b, Pow(b, n - 1));
    }
  }

  // ---- Gateways and dotted text ---------------------------------------------

  /** `network_address + 1`, as groups; there is none after the last address. */
  function Next(h: seq<nat>): (r: Option<seq<nat>>)
    ensures r.Some? ==> |r.value| == |h|
  {
    if h == [] then None
    else
      var init, last := h[..|h| - 1], h[|h| - 1];
      if last < 0xFFFF then Some(init + [last + 1])
      else match Next(init) case None => None case Some(g) => Some(g + [0])
  }

  lemma {:induction false} NextValue(h: seq<nat>)
    requires forall i | 0 <= i < |h| :: h[i] < 0x1_0000
    ensures Next(h).Some? ==> Value(Next(h).value) == Value(h) + 1
    ensures Next(h).Some? ==> forall i | 0 <= i < |h| :: Next(h).value[i] < 0x1_0000
  {
    if h != [] {
      var init, last := h[..|h| - 1], h[|h| - 1];
      NextValue(init);
      if last < 0xFFFF {
        assert (init + [last + 1])[..|h| - 1] == init;
      } else if Next(init).Some? {
        assert (Next(init).value + [0])[..|h| - 1] == Next(init).value;
      }
    }
  }

  /** `mgmt_ipv6_gateway`: its text parses to the address after the network's. */
  lemma GatewayIpv6(h: seq<nat>)
    requires IsAddress(h) && Next(h).Some?
    ensures Parse(Format(Next(h).value)) == Next(h) && Value(Next(h).value) == Value(h) + 1
  {
    NextValue(h);
    FormatRoundTrip(Next(h).value);
  }

  /** The four octets of an IPv4 address. */
  function Octets(a: nat): (o: seq<nat>)
    ensures |o| == 4
  {
    [a / 0x100_0000, a / 0x1_0000 % 0x100, a / 0x100 % 0x100, a % 0x100]
  }

  function Decimals(o: seq<nat>): (parts: seq<string>)
    ensures |parts| == |o| && forall i | 0 <= i < |o| :: parts[i] == Decimal(o[i])
  {
    seq(|o|, i requires 0 <= i < |o| => Decimal(o[i]))
  }

  /** `str` of an IPv4 address. */
  function Dotted(a: nat): string { Join(Decimals(Octets(a)), '.') }

  /** The number that decimal digits denote. */
  function ReadDecimal(s: string): int {
    if s == "" then 0 else ReadDecimal(s[..|s| - 1]) * 10 + (s[|s| - 1] as int - '0' as int)
  }

  function ReadDotted(s: string): int {
    var parts := Split(s, '.');
    if |parts| == 4
    then ((ReadDecimal(parts[0]) * 0x100 + ReadDecimal(parts[1])) * 0x100 + ReadDecimal(parts[2])) * 0x100
         + ReadDecimal(parts[3])
    else -1
  }

  predicate AllDigits(s: string) { forall i | 0 <= i < |s| :: '0' <= s[i] <= '9' }

  lemma {:induction false} DecimalDigits(n: nat)
    ensures AllDigits(Decimal(n)) && ReadDecimal(Decimal(n)) == n && Decimal(n) != ""
  {
    var init := if n < 10 then "" else Decimal(n / 10);
    if n >= 10 { DecimalDigits(n / 10); }
    assert Decimal(n) == init + [HexChar(n % 10)];
    assert Decimal(n)[..|Decimal(n)| - 1] == init;
  }

  lemma OctetsValue(a: nat)
    ensures var o := Octets(a); ((o[0] * 0x100 + o[1]) * 0x100 + o[2]) * 0x100 + o[3] == a
  {
    assert a / 0x1_0000 == a / 0x100 / 0x100 && a / 0x100_0000 == a / 0x1_0000 / 0x100;
  }

  lemma OctetsDigits(a: nat)
    ensures Free(Decimals(Octets(a)), '.')
    ensures forall i | 0 <= i < 4 :: ReadDecimal(Decimals(Octets(a))[i]) == Octets(a)[i]
  {
    forall i | 0 <= i < 4
      ensures '.' !in Decimals(Octets(a))[i] && ReadDecimal(Decimals(Octets(a))[i]) == Octets(a)[i]
    {
      DecimalDigits(Octets(a)[i]);
    }
  }

  /** The text of an IPv4 address denotes it, so no two nodes share a text. */
  lemma DottedRoundTrip(a: nat)
    ensures ReadDotted(Dotted(a)) == a
  {
    hide Decimals, ReadDecimal;
    OctetsDigits(a);
    SplitJoin(Decimals(Octets(a)), '.');
    OctetsValue(a);
  }

  // ---- The characters of an address -----------------------------------------

  predicate Ipv4Chars(s: string) { forall i | 0 <= i < |s| :: '0' <= s[i] <= '9' || s[i] == '.' }

  predicate Ipv6Chars(s: string) { forall i | 0 <= i < |s| :: IsHexChar(s[i]) || s[i] == ':' }

  lemma {:induction false} JoinDigits(parts: seq<string>)
    requires parts != [] && forall i | 0 <= i < |parts| :: AllDigits(parts[i])
    ensures Ipv4Chars(Join(parts, '.'))
  {
    if |parts| > 1 { JoinDigits(parts[1..]); }
  }

  lemma DottedChars(a: nat)
    ensures Ipv4Chars(Dotted(a)) && '.' in Dotted(a)
  {
    var parts := Decimals(Octets(a));
    forall i | 0 <= i < 4 ensures AllDigits(parts[i]) { DecimalDigits(Octets(a)[i]); }
    JoinDigits(parts);
    assert Dotted(a)[|parts[0]|] == '.';
  }

  lemma {:induction false} JoinHex(parts: seq<string>)
    requires parts != [] && HexParts(parts)
    ensures Ipv6Chars(Join(parts, ':'))
  {
    if |parts| > 1 { JoinHex(parts[1..]); }
  }

  predicate HexParts(parts: seq<string>) { forall i | 0 <= i < |parts| :: AllHex(parts[i]) }

  lemma HexesHex(h: seq<nat>)
    ensures HexParts(Hexes(h))
  {
    forall i | 0 <= i < |h| ensures AllHex(Hexes(h)[i]) { HexRoundTrip(h[i]); }
  }

  lemma HexConcat(a: seq<string>, b: seq<string>)
    requires HexParts(a) && HexParts(b)
    ensures HexParts(a + b)
  {
    hide AllHex;
  }

  lemma SidesHex(h: seq<nat>, at: nat)
    requires at <= |h|
    ensures HexParts(Before(h, at)) && HexParts(After(h, at)) && HexParts([""])
  {
    HexesHex(h[..at]);
    HexesHex(h[at..]);
    hide Hexes, AllHex;
    EmptyHex();
  }

  lemma PartsHex(h: seq<nat>)
    requires |h| == 8
    ensures HexParts(Parts(h))
  {
    hide Hexes, HexParts, Before, After, ZeroRun, LongestRun;
    var at := LongestRun(h);
    HexesHex(h);
    SidesHex(h, at);
    SidesHex(h, at + ZeroRun(h, at));
    HexConcat(Before(h, at), [""]);
    HexConcat(Before(h, at) + [""], After(h, at + ZeroRun(h, at)));
  }

  lemma PartsMany(h: seq<nat>)
    requires |h| == 8
    ensures |Parts(h)| >= 3
  {
    hide Hexes, ZeroRun;
  }

  /** The text of an address has a colon. */
  lemma FormatColon(h: seq<nat>)
    requires |h| == 8
    ensures ':' in Format(h)
  {
    hide Parts;
    PartsMany(h);
    var parts := Parts(h);
    assert Join(parts, ':')[|parts[0]|] == ':';
  }

  lemma EmptyHex()
    ensures AllHex("")
  {
  }

  lemma FormatChars(h: seq<nat>)
    requires |h| == 8
    ensures Ipv6Chars(Format(h))
  {
    PartsHex(h);
    JoinHex(Parts(h));
  }

  lemma MgmtIpv6Chars(h: seq<nat>, suffix: nat)
    requires |h| == 8
    ensures Ipv6Chars(MgmtIpv6(h, suffix))
  {
    hide Format, Decimal;
    FormatChars(h);
    DecimalReadsAs(suffix);
  }

  /** The suffix table fits an IPv4 subnet exactly when it is a /26 or wider. */
  lemma NodesIpv4Exactly(base: nat, p: nat)
    requires p <= 32
    ensures (forall i | 0 <= i < |MGMT_HOST_SUFFIXES| ::
               UsableIpv4(base, p, MgmtIpv4(base, MGMT_HOST_SUFFIXES[i].1))) <==> p <= 26
  {
    assert Pow(2, 5) == 32 && Pow(2, 6) == 64 by { assert Pow(2, 3) == 8; }
    if p <= 26 {
      PowMonotone(2, 6, 32 - p);
    } else {
      PowMonotone(2, 32 - p, 5);
      assert !UsableIpv4(base, p, MgmtIpv4(base, MGMT_HOST_SUFFIXES[10].1));
    }
  }
  // ---- The canonical form ---------------------------------------------------

  predicate LowerHex(s: string) { forall i | 0 <= i < |s| :: '0' <= s[i] <= '9' || 'a' <= s[i] <= 'f' }

  /** A group is in lower case and has no leading zeros (sections 4.1 and 4.3 of
      RFC 5952). */
  lemma {:induction false} HexCanonical(n: nat)
    ensures Hex(n) != "" && LowerHex(Hex(n)) && (n > 0 ==> Hex(n)[0] != '0') && (n == 0 ==> Hex(n) == "0")
  {
    if n >= 16 { HexCanonical(n / 16); }
  }

  /** So has a decimal number, and a suffix, no leading zeros. */
  lemma {:induction false} DecimalCanonical(n: nat)
    ensures Decimal(n) != "" && AllDigits(Decimal(n)) && (n > 0 ==> Decimal(n)[0] != '0') && (n == 0 ==> Decimal(n) == "0")
  {
    if n >= 10 { DecimalCanonical(n / 10); }
  }

  /** `m` zero groups from `i` on. */
  predicate ZerosAt(h: seq<nat>, i: nat, m: nat) {
    i + m <= |h| && forall k | i <= k < i + m :: h[k] == 0
  }

  /** The first of the longest runs of zero groups. */
  ghost predicate FirstLongest(h: seq<nat>, at: nat, n: nat) {
    && ZerosAt(h, at, n) && (forall i: nat, m: nat | ZerosAt(h, i, m) :: m <= n)
    && forall i: nat | i < at :: !ZerosAt(h, i, n)
  }

  /** Parts between colons. */
  function Groups(parts: seq<string>): string { if parts == [] then "" else Join(parts, ':') }

  function Colons(h: seq<nat>): string { Groups(Hexes(h)) }

  lemma RunIs(h: seq<nat>, at: nat, n: nat)
    requires FirstLongest(h, at, n) && n > 0
    ensures LongestRun(h) == at && ZeroRun(h, at) == n
  {
    hide LongestRun;
    var r := LongestRun(h);
    assert ZerosAt(h, r, ZeroRun(h, r)) && ZerosAt(h, at, ZeroRun(h, at));
    LongestRunIs(h, at);
    assert ZeroRun(h, at) >= n by { ZerosCount(h, at, n); }
  }

  lemma ZerosCount(h: seq<nat>, i: nat, m: nat)
    requires ZerosAt(h, i, m)
    ensures ZeroRun(h, i) >= m
  {
    var k := i + ZeroRun(h, i);
    assert k < |h| ==> h[k] != 0;
  }

  lemma {:induction false} JoinTwo(a: seq<string>, b: seq<string>)
    requires a != [] && b != []
    ensures Join(a + b, ':') == Join(a, ':') + (":" + Join(b, ':'))
  {
    if |a| == 1 {
      assert (a + b)[1..] == b;
      assert Join(a + b, ':') == a[0] + [':'] + Join(b, ':');
    } else {
      JoinTwo(a[1..], b);
      assert (a + b)[1..] == a[1..] + b;
      assert Join(a + b, ':') == a[0] + [':'] + Join(a[1..] + b, ':');
      assert Join(a, ':') == a[0] + [':'] + Join(a[1..], ':');
    }
  }

  /** The text is the canonical one: groups between colons, and `::` for the first
      of the longest runs of at least two zero groups (section 4.2 of RFC 5952). */
  lemma Canonical(h: seq<nat>)
    requires IsAddress(h)
    ensures (forall i: nat :: !ZerosAt(h, i, 2)) ==> Format(h) == Colons(h)
    ensures forall at: nat, n: nat | n >= 2 && FirstLongest(h, at, n) ::
      Format(h) == Colons(h[..at]) + "::" + Colons(h[at + n..])
  {
    hide Format, Colons;
    if forall i: nat :: !ZerosAt(h, i, 2) { Uncompressed(h); }
    forall at: nat, n: nat | n >= 2 && FirstLongest(h, at, n)
      ensures Format(h) == Colons(h[..at]) + "::" + Colons(h[at + n..])
    {
      RunIs(h, at, n);
      Compressed(h, at, n);
    }
  }

  lemma Uncompressed(h: seq<nat>)
    requires |h| == 8 && forall i: nat :: !ZerosAt(h, i, 2)
    ensures Format(h) == Colons(h)
  {
    hide LongestRun, Join;
    assert !ZerosAt(h, LongestRun(h), 2);
  }

  lemma Compressed(h: seq<nat>, at: nat, n: nat)
    requires |h| == 8 && n >= 2 && LongestRun(h) == at && ZeroRun(h, at) == n
    ensures Format(h) == Colons(h[..at]) + "::" + Colons(h[at + n..])
  {
    hide LongestRun, ZeroRun;
    var a, b := Before(h, at), After(h, at + n);
    assert Join([""], ':') == "";
    assert Join(a, ':') == Colons(h[..at]) && Join(b, ':') == Colons(h[at + n..]);
    hide Join, Before, After;
    JoinTwo(a, [""]);
    JoinTwo(a + [""], b);
    assert Join(a, ':') + (":" + "") + (":" + Join(b, ':')) == Join(a, ':') + "::" + Join(b, ':');
  }
  // ---- The grammar, from the text -------------------------------------------

  predicate NoneEmpty(parts: seq<string>) { forall i | 0 <= i < |parts| :: parts[i] != "" }

  /** One `::` stands for at least one group (section 2.2 of RFC 4291): a text with
      it denotes an address exactly if there are at most seven groups around it,
      of one to four hexadecimal digits each. */
  lemma GapExactly(hi: seq<string>, lo: seq<string>)
    requires NoneEmpty(hi) && NoColon(hi) && NoneEmpty(lo) && NoColon(lo)
    ensures Parse(Groups(hi) + "::" + Groups(lo)) ==
      if |hi| + |lo| <= 7 && AllGroups(hi) && AllGroups(lo)
      then Some(ReadAll(hi) + Zeros(8 - |hi| - |lo|) + ReadAll(lo)) else None
  {
    hide *;
    GapSplit(hi, lo);
    SideSides(hi);
    SideSides(lo);
    ReadAround(Sided(hi), Sided(lo));
    ParseIs(Groups(hi) + "::" + Groups(lo));
    AssembleIs(hi, lo);
  }

  lemma ParseIs(text: string)
    ensures Parse(text) == ReadParts(Split(text, ':'))
  {
  }

  lemma AssembleIs(hi: seq<string>, lo: seq<string>)
    ensures Assemble(hi, lo) ==
      if |hi| + |lo| <= 7 && AllGroups(hi) && AllGroups(lo)
      then Some(ReadAll(hi) + Zeros(8 - |hi| - |lo|) + ReadAll(lo)) else None
  {
  }

  /** At either end of a text an empty side is one empty part. */
  function Sided(parts: seq<string>): seq<string> { if parts == [] then [""] else parts }

  lemma SideSides(parts: seq<string>)
    requires NoneEmpty(parts)
    ensures Side(Sided(parts)) == parts && Sided(parts) != [] && forall i | 1 <= i < |Sided(parts)| :: Sided(parts)[i] != ""
  {
    assert parts == [] || parts[0] != "";
  }

  lemma GapSplit(hi: seq<string>, lo: seq<string>)
    requires NoColon(hi) && NoColon(lo)
    ensures Split(Groups(hi) + "::" + Groups(lo), ':') == Sided(hi) + [""] + Sided(lo)
  {
    var a, b := Sided(hi), Sided(lo);
    EmptyGroups();
    hide Join, Split;
    JoinTwo(a, [""]);
    JoinTwo(a + [""], b);
    assert Join(a, ':') + (":" + "") + (":" + Join(b, ':')) == Groups(hi) + "::" + Groups(lo);
    SplitJoin(a + [""] + b, ':');
  }

  lemma EmptyGroups()
    ensures Join([""], ':') == ""
  {
  }

  /** Without it there must be eight. */
  lemma NoGapExactly(parts: seq<string>)
    requires parts != [] && NoneEmpty(parts) && NoColon(parts)
    ensures Parse(Groups(parts)) == if |parts| == 8 && AllGroups(parts) then Some(ReadAll(parts)) else None
  {
    hide AllGroups, ReadAll, Join, Split;
    SplitJoin(parts, ':');
  }
}
