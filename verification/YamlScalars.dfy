/** Which plain scalars of a YAML file are strings: YAML 1.1 gives some texts
    another type.  This is about texts of addresses and address lists, which have
    no signs, underscores or letters beyond `f`; of the implicit types only the
    empty null, integers and floats can then apply. */
module YamlScalars {
  import opened Text
  import opened MgmtAddresses

  predicate Digits(s: string) { s != "" && AllDigits(s) }

  predicate DecimalInt(v: string) { Digits(v) && (v == "0" || v[0] != '0') }

  predicate OctalInt(v: string) { |v| > 1 && v[0] == '0' && forall i | 1 <= i < |v| :: '0' <= v[i] <= '7' }

  predicate BinaryInt(v: string) {
    |v| > 2 && v[0] == '0' && v[1] == 'b' && forall i | 2 <= i < |v| :: v[i] == '0' || v[i] == '1'
  }

  /** One or two digits below 60. */
  predicate Sixty(s: string) { Digits(s) && (|s| == 1 || (|s| == 2 && s[0] <= '5')) }

  /** Digits, and after each colon digits below 60. */
  predicate Base60(v: string) {
    var parts := Split(v, ':');
    |parts| > 1 && Digits(parts[0]) && forall i | 1 <= i < |parts| :: Sixty(parts[i])
  }

  predicate Base60Int(v: string) { Base60(v) && v[0] != '0' }

  predicate FloatText(v: string) {
    var parts := Split(v, '.');
    |parts| == 2 && (parts[1] == "" || Digits(parts[1]))
    && (Digits(parts[0]) || Base60(parts[0]) || (parts[0] == "" && parts[1] != ""))
  }

  /** A scalar, and a string: no number, not empty, and not a key. */
  predicate IsString(v: string) {
    && v != "" && v[|v| - 1] != ':'
    && !DecimalInt(v) && !OctalInt(v) && !BinaryInt(v) && !Base60Int(v) && !FloatText(v)
  }

  datatype Scalar = Str(text: string) | Typed

  /** What a scalar in a file is read as. */
  function Resolve(raw: string): Scalar {
    if |raw| >= 2 && raw[0] == '"' && raw[|raw| - 1] == '"' then Str(raw[1..|raw| - 1])
    else if IsString(raw) then Str(raw)
    else Typed
  }

  // ---- Texts that are strings -----------------------------------------------

  /** Splitting drops only separators. */
  lemma {:induction false} SplitCovers(s: string, sep: char, c: char) returns (i: nat)
    requires c in s && c != sep
    ensures i < |Split(s, sep)| && c in Split(s, sep)[i]
  {
    var rest := Split(s[1..], sep);
    if s[0] == c {
      i := 0;
      assert ([s[0]] + rest[0])[0] == c;
    } else {
      i := SplitCovers(s[1..], sep, c);
      if s[0] == sep {
        i := i + 1;
      } else if i == 0 {
        assert exists k :: 0 <= k < |rest[0]| && rest[0][k] == c;
        var k :| 0 <= k < |rest[0]| && rest[0][k] == c;
        assert ([s[0]] + rest[0])[k + 1] == c;
      }
    }
  }

  predicate Odd(c: char) { !('0' <= c <= '9') && c != ':' && c != '.' && c != 'b' }

  lemma OddNotDigits(s: string, c: char)
    requires c in s && Odd(c)
    ensures !AllDigits(s)
  {
  }

  lemma OddNotBase60(s: string, c: char)
    requires c in s && Odd(c)
    ensures !Base60(s)
  {
    hide Split;
    var i := SplitCovers(s, ':', c);
    OddNotDigits(Split(s, ':')[i], c);
  }

  lemma OddNotFloat(s: string, c: char)
    requires c in s && Odd(c)
    ensures !FloatText(s)
  {
    hide Split, Base60;
    var i := SplitCovers(s, '.', c);
    var p := Split(s, '.')[i];
    OddNotDigits(p, c);
    OddNotBase60(p, c);
  }

  lemma OddNotInt(s: string, c: char)
    requires c in s && Odd(c)
    ensures !DecimalInt(s) && !OctalInt(s) && !BinaryInt(s)
  {
    OddNotDigits(s, c);
    var k :| 0 <= k < |s| && s[k] == c;
  }

  /** A slash or a comma makes a string, whatever stands around it. */
  lemma OddIsString(v: string, c: char)
    requires c in v && Odd(c) && v[|v| - 1] != ':'
    ensures IsString(v)
  {
    hide DecimalInt, OctalInt, BinaryInt, Base60, FloatText, Odd;
    OddNotInt(v, c);
    OddNotBase60(v, c);
    OddNotFloat(v, c);
  }

  lemma NoSeparator(s: string, sep: char)
    requires sep !in s
    ensures Split(s, sep) == [s]
  {
    SplitPrefix(s, "", sep);
    assert s + "" == s;
  }

  /** The dotted text of an IPv4 address: three dots. */
  lemma DottedIsString(a: nat)
    ensures IsString(Dotted(a))
  {
    hide Decimal, Split;
    var v := Dotted(a);
    DottedChars(a);
    var k :| 0 <= k < |v| && v[k] == '.';
    OctetsDigits(a);
    SplitJoin(Decimals(Octets(a)), '.');
    NoSeparator(v, ':');
  }

  lemma ColonNotNumber(v: string)
    requires Ipv6Chars(v) && ':' in v
    ensures !DecimalInt(v) && !OctalInt(v) && !BinaryInt(v) && !FloatText(v)
  {
    var k :| 0 <= k < |v| && v[k] == ':';
    NoSeparator(v, '.');
  }

  /** Of the parts of an address with `::` in it, one past the first is empty. */
  lemma EmptyPart(h: seq<nat>) returns (i: nat)
    requires |h| == 8 && ZeroRun(h, LongestRun(h)) > 1
    ensures 0 < i < |Parts(h)| - 1 && Parts(h)[i] == ""
  {
    hide Hexes;
    i := |Before(h, LongestRun(h))|;
  }

  /** A management address is a string: it has an empty part or a part of three
      characters or more. */
  lemma NodeIsString(h: seq<nat>, suffix: nat)
    requires IsAddress(h) && 10 <= suffix < 100
    ensures IsString(MgmtIpv6(h, suffix))
  {
    hide Decimal, Split, Parts, Glue, Format, Ipv6Chars, DecimalInt, OctalInt, BinaryInt, FloatText, NoColon, Hex;
    var d := Decimal(suffix);
    var v := MgmtIpv6(h, suffix);
    MgmtIpv6Chars(h, suffix);
    DecimalReadsAs(suffix);
    TwoDigits(suffix);
    FormatColon(h);
    ColonStays(Format(h), d);
    ColonNotNumber(v);
    GluedSplit(h, d);
    LastDigit(Format(h), suffix);
    NotSixty(h, d);
  }

  lemma ColonStays(a: string, d: string)
    requires ':' in a
    ensures ':' in a + d
  {
    var k :| 0 <= k < |a| && a[k] == ':';
    assert (a + d)[k] == ':';
  }

  lemma LastDigit(a: string, n: nat)
    ensures a + Decimal(n) != "" && (a + Decimal(n))[|a + Decimal(n)| - 1] != ':'
  {
    hide Decimal;
    DecimalDigits(n);
  }

  lemma GluedSplit(h: seq<nat>, d: string)
    requires IsAddress(h) && AllHex(d)
    ensures Split(Format(h) + d, ':') == Glue(Parts(h), d)
  {
    hide Parts, Glue;
    PartsPlain(h);
    JoinAppend(Parts(h), d);
    NoColonGlue(Parts(h), d);
    GlueIs(Parts(h), d);
    SplitJoin(Glue(Parts(h), d), ':');
  }

  lemma GlueIs(parts: seq<string>, d: string)
    requires parts != []
    ensures Glue(parts, d) == parts[|parts| - 1 := parts[|parts| - 1] + d]
  {
  }

  lemma NotSixty(h: seq<nat>, d: string)
    requires IsAddress(h) && |d| == 2
    ensures var parts := Glue(Parts(h), d); exists i :: 1 <= i < |parts| && !Sixty(parts[i])
  {
    var parts := Glue(Parts(h), d);
    if ZeroRun(h, LongestRun(h)) > 1 {
      var i := EmptyPart(h);
      GlueAt(Parts(h), d, i);
      assert !Sixty(parts[i]);
    } else {
      PlainParts(h);
      GlueAt(Parts(h), d, 7);
      GroupOfHex(h[7]);
      assert !Sixty(parts[7]);
    }
  }

  lemma PlainParts(h: seq<nat>)
    requires |h| == 8 && ZeroRun(h, LongestRun(h)) <= 1
    ensures Parts(h) == Hexes(h)
  {
  }

  // ---- Addresses that are numbers -------------------------------------------

  /** Eight groups written out, each a decimal number, all but the first below 60. */
  predicate DecimalGroups(h: seq<nat>)
    requires |h| == 8
  {
    && ZeroRun(h, LongestRun(h)) <= 1
    && h[0] != 0 && Digits(Hex(h[0])) && forall i | 1 <= i < 8 :: Sixty(Hex(h[i]))
  }

  /** All hexadecimal digits are decimal ones. */
  predicate LowDigits(n: nat) { n % 16 <= 9 && (n < 16 || LowDigits(n / 16)) }

  lemma {:induction false} DigitsExactly(n: nat)
    ensures Digits(Hex(n)) <==> LowDigits(n)
  {
    if n >= 16 {
      DigitsExactly(n / 16);
      HexRoundTrip(n / 16);
      DigitsMore(Hex(n / 16), HexChar(n % 16));
    } else {
      assert Hex(n)[0] == HexChar(n);
    }
  }

  lemma DigitsMore(s: string, c: char)
    requires s != ""
    ensures Digits(s + [c]) <==> Digits(s) && '0' <= c <= '9'
  {
    assert forall i | 0 <= i < |s| :: (s + [c])[i] == s[i];
    assert (s + [c])[|s|] == c;
  }

  lemma SixtyExactly(n: nat)
    ensures Sixty(Hex(n)) <==> n % 16 <= 9 && n / 16 <= 5
  {
    hide Digits;
    DigitsExactly(n);
    HexCanonical(n / 16);
    if n >= 16 {
      assert Hex(n) == Hex(n / 16) + [HexChar(n % 16)];
      if n >= 256 { HexCanonical(n / 256); }
    }
  }

  /** By the numbers: no run of zeros to shorten, and of the groups, all but the
      first written with two digits at most, the first of the two below six. */
  lemma DecimalGroupsExactly(h: seq<nat>)
    requires |h| == 8
    ensures DecimalGroups(h) <==>
      && (forall i: nat :: !ZerosAt(h, i, 2))
      && h[0] != 0 && LowDigits(h[0]) && forall i | 1 <= i < 8 :: h[i] % 16 <= 9 && h[i] / 16 <= 5
  {
    hide Sixty, Digits, Hex, LongestRun;
    DigitsExactly(h[0]);
    forall i | 0 <= i < 8 ensures Sixty(Hex(h[i])) <==> h[i] % 16 <= 9 && h[i] / 16 <= 5 { SixtyExactly(h[i]); }
    ShortRuns(h);
  }

  lemma ShortRuns(h: seq<nat>)
    requires |h| == 8
    ensures ZeroRun(h, LongestRun(h)) <= 1 <==> forall i: nat :: !ZerosAt(h, i, 2)
  {
    hide LongestRun;
    if ZeroRun(h, LongestRun(h)) > 1 { assert ZerosAt(h, LongestRun(h), 2); }
    if i: nat :| ZerosAt(h, i, 2) {
      ZerosCount(h, i, 2);
      LongestRunIs(h, i);
    }
  }

  /** A number is no string, in decimal or, with a zero in front, in octal. */
  lemma NumbersAreTyped(n: nat)
    ensures !IsString(Decimal(n)) && !IsString("0" + Decimal(n % 8))
  {
    DecimalCanonical(n);
    DecimalCanonical(n % 8);
    hide Base60Int, FloatText, BinaryInt;
    assert Decimal(n % 8) == [HexChar(n % 8)];
  }

  lemma PlainSplit(h: seq<nat>)
    requires IsAddress(h)
    ensures Split(Format(h), ':') == Parts(h)
  {
    hide Parts;
    PartsPlain(h);
    SplitJoin(Parts(h), ':');
  }

  /** The text of an address is a base-60 integer exactly in this case. */
  lemma Base60Exactly(h: seq<nat>)
    requires IsAddress(h)
    ensures Base60Int(Format(h)) <==> DecimalGroups(h)
  {
    hide Split, Parts, Hex, Sixty, Digits, Format;
    PlainSplit(h);
    PartsMany(h);
    FormatFront(h);
    if ZeroRun(h, LongestRun(h)) > 1 {
      var i := EmptyPart(h);
      assert !Sixty("") by { NotEmptySixty(); }
    } else {
      PlainParts(h);
      HexCanonical(h[0]);
    }
  }

  lemma NotEmptySixty()
    ensures !Sixty("")
  {
  }

  lemma FormatFront(h: seq<nat>)
    requires IsAddress(h)
    ensures Format(h) != "" && (ZeroRun(h, LongestRun(h)) <= 1 ==> Hex(h[0]) != "" && Format(h)[0] == Hex(h[0])[0])
  {
    FormatColon(h);
    if ZeroRun(h, LongestRun(h)) <= 1 {
      PlainParts(h);
      HexRoundTrip(h[0]);
      hide Hex;
      assert Format(h) == Hexes(h)[0] + [':'] + Join(Hexes(h)[1..], ':');
    }
  }

  lemma {:induction false} JoinEnd(parts: seq<string>, sep: char)
    requires |parts| > 1
    ensures Join(parts, sep) != ""
    ensures var last := parts[|parts| - 1];
      Join(parts, sep)[|Join(parts, sep)| - 1] == if last == "" then sep else last[|last| - 1]
  {
    if |parts| > 2 {
      JoinEnd(parts[1..], sep);
    } else {
      assert parts[1..] == [parts[1]];
    }
  }

  lemma LastPart(h: seq<nat>)
    requires |h| == 8
    ensures Parts(h)[|Parts(h)| - 1] == if EndsCompressed(h) then "" else Hex(h[7])
  {
    hide Hex, ZeroRun, LongestRun;
    var at := LongestRun(h);
    var rest := After(h, at + ZeroRun(h, at));
    if at + ZeroRun(h, at) < 8 { assert rest[|rest| - 1] == Hex(h[7]); }
  }

  lemma FormatEnd(h: seq<nat>)
    requires IsAddress(h)
    ensures Format(h) != "" && (Format(h)[|Format(h)| - 1] == ':' <==> EndsCompressed(h))
  {
    hide Parts, EndsCompressed, Hex;
    PartsMany(h);
    JoinEnd(Parts(h), ':');
    LastPart(h);
    GroupOfHex(h[7]);
  }

  /** An address text is a string exactly if it does not end in `::` and is no
      such number. */
  lemma AddressIsString(h: seq<nat>)
    requires IsAddress(h)
    ensures IsString(Format(h)) <==> !EndsCompressed(h) && !DecimalGroups(h)
  {
    hide Split, Parts, Format, DecimalGroups, Ipv6Chars, DecimalInt, OctalInt, BinaryInt, FloatText, Base60, EndsCompressed;
    FormatChars(h);
    FormatColon(h);
    FormatEnd(h);
    ColonNotNumber(Format(h));
    Base60Exactly(h);
  }

  /** So is the gateway of every network with a prefix of at most 80 bits. */
  lemma WideGatewayIsString(h: seq<nat>, p: nat)
    requires IsNetwork(h, p) && p <= 80
    ensures Next(h).Some? && IsString(Format(Next(h).value))
  {
    hide IsString, Format, Pow, IsAddress;
    NetworkTail(h, p);
    var g := h[..7] + [1];
    LastUp(h, g);
    TwoZeros(g);
    LongestRunIs(g, 5);
    NextAddress(h, g);
    AddressIsString(g);
  }

  lemma LastUp(h: seq<nat>, g: seq<nat>)
    requires |h| == 8 && h[7] == 0 && g == h[..7] + [1]
    ensures Next(h) == Some(g)
  {
  }

  lemma TwoZeros(g: seq<nat>)
    requires |g| == 8 && g[5] == 0 && g[6] == 0 && g[7] != 0
    ensures ZeroRun(g, 5) == 2
  {
    assert ZeroRun(g, 7) == 0;
    assert ZeroRun(g, 6) == 1;
  }

  lemma NextAddress(h: seq<nat>, g: seq<nat>)
    requires IsAddress(h) && g == h[..7] + [1]
    ensures IsAddress(g)
  {
  }

  lemma NetworkTail(h: seq<nat>, p: nat)
    requires IsNetwork(h, p) && p <= 80
    ensures IsAddress(h) && |h| == 8 && h[5] == 0 && h[6] == 0 && h[7] == 0
  {
    hide Pow;
    Quotient(Value(h), Pow(2, 128 - p));
    TailZero(h, 3, 128 - p, Value(h) / Pow(2, 128 - p));
  }
}
