/** The generated block in README.md and mkdocs.yml (scripts/site_config.py). */
module SiteConfig {
  import opened Text

  // ---- The code -------------------------------------------------------------

  datatype Result = Ok(text: string) | Failed

  const PURPOSE := "## Purpose\n"

  /** Where a text splits: before the first begin marker, after the next end. */
  function SplitMarked(content: string, begin: string, end: string): Option<(string, string)> {
    var i := Find(content, begin);
    if i == -1 then None
    else
      var rest := content[i + |begin|..];
      var j := Find(rest, end);
      if j == -1 then None else Some((content[..i], rest[j + |end|..]))
  }

  /** `_replace_marked_block`; `Failed` is a ValueError.  With both markers
      present but no end marker after the first begin, unpacking fails. */
  function ReplaceMarkedBlock(content: string, begin: string, end: string, block: string): Result {
    if Contains(content, begin) && Contains(content, end) then
      match SplitMarked(content, begin, end)
      case None => Failed
      case Some((before, after)) => Ok(RStrip(before) + "\n\n" + block + "\n" + LStrip(after))
    else if begin != "" && begin[0] == '#' then Ok(block + "\n\n" + LStrip(content))
    else
      var m := Find(content, PURPOSE);
      if m == -1 then Failed
      else Ok(content[..m] + (block + "\n\n" + PURPOSE) + content[m + |PURPOSE|..])
  }

  function WithNewline(s: string): string {
    if s != "" && s[|s| - 1] == '\n' then s else s + "\n"
  }

  /** `sync_readme` and `sync_mkdocs` as functions of the file's text. */
  function Synced(content: string, begin: string, end: string, block: string): Result {
    match ReplaceMarkedBlock(content, begin, end, block)
    case Ok(t) => Ok(WithNewline(t))
    case Failed => Failed
  }

  class File {
    var text: string
    var writes: nat

    constructor (text: string)
      ensures this.text == text && writes == 0
    {
      this.text := text;
      writes := 0;
    }

    /** Rewrites the block; `changed` is the returned flag. */
    method Sync(begin: string, end: string, block: string) returns (failed: bool, changed: bool)
      modifies this
      ensures failed == Synced(old(text), begin, end, block).Failed?
      ensures text == if failed then old(text) else Synced(old(text), begin, end, block).text
      ensures changed == (text != old(text))
      ensures writes == old(writes) + if changed then 1 else 0
    {
      hide ReplaceMarkedBlock;
      var replaced := ReplaceMarkedBlock(text, begin, end, block);
      if replaced.Failed? {
        return true, false;
      }
      var updated := replaced.text;
      if updated == "" || updated[|updated| - 1] != '\n' {
        updated := updated + "\n";
      }
      if updated == text {
        return false, false;
      }
      text := updated;
      writes := writes + 1;
      return false, true;
    }
  }

  // ---- Markers and blocks ---------------------------------------------------

  /** Both markers are lone lines with the same first character, and the end
      marker does not begin the begin marker.  Both pairs in the script are
      like this. */
  predicate Markers(begin: string, end: string) {
    Lone(begin) && Lone(end) && begin[0] == end[0] && !(end <= begin)
  }

  const README_BEGIN := "<!-- site-config:begin -->"
  const README_END := "<!-- site-config:end -->"
  const MKDOCS_BEGIN := "# site-config:begin"
  const MKDOCS_END := "# site-config:end"

  lemma ScriptMarkers()
    ensures Markers(README_BEGIN, README_END) && Markers(MKDOCS_BEGIN, MKDOCS_END)
  {
    ReadmeMarkers();
    MkdocsMarkers();
  }

  lemma ReadmeMarkers()
    ensures Markers(README_BEGIN, README_END)
  {
    hide Lone;
    ReadmeBegin();
    ReadmeEnd();
    Diverge(README_BEGIN, README_END, 17);
  }

  lemma ReadmeBegin()
    ensures Lone(README_BEGIN)
  {
    hide Lone;
    LoneFirst(README_BEGIN, '<', "!-- site-config:begin -->");
  }

  lemma ReadmeEnd()
    ensures Lone(README_END)
  {
    hide Lone;
    LoneFirst(README_END, '<', "!-- site-config:end -->");
  }

  lemma MkdocsMarkers()
    ensures Markers(MKDOCS_BEGIN, MKDOCS_END)
  {
    hide Lone;
    LoneFirst(MKDOCS_BEGIN, '#', " site-config:begin");
    LoneFirst(MKDOCS_END, '#', " site-config:end");
    Diverge(MKDOCS_BEGIN, MKDOCS_END, 14);
  }

  lemma Diverge(s: string, t: string, i: nat)
    requires i < |s| && i < |t| && s[i] != t[i]
    ensures !(t <= s)
  {
  }

  /** What the two block printers return, for some text between the markers. */
  function Block(begin: string, body: string, end: string): string {
    begin + "\n" + body + "\n" + end
  }

  /** An end marker is found in a text with a block only where it could be
      found in the text before, in the body, or at the block's end. */
  lemma FirstEnd(a: string, begin: string, body: string, end: string, z: string)
    requires Markers(begin, end) && !Contains(a, end) && !Contains(body, end)
    ensures Find(a + (Block(begin, body, end) + z), end) == |a + begin| + |body| + 2
  {
    var pre := (a + begin) + ("\n" + (body + ("\n" + "")));
    NoEndInBegin(a, begin, end);
    assert !Contains("", end) by { assert Find("", end) == -1; }
    ContainsAround(body, '\n', "", end);
    ContainsAround(a + begin, '\n', body + ("\n" + ""), end);
    FindPlanted(pre, end, z);
    assert a + (Block(begin, body, end) + z) == pre + (end + z);
  }

  lemma NoEndInBegin(a: string, begin: string, end: string)
    requires Markers(begin, end) && !Contains(a, end)
    ensures !Contains(a + begin, end)
  {
    var s := a + begin;
    forall k: nat ensures !At(s, end, k) {
      if k + |end| <= |a| {
        AtPrefix(a, begin, end, k);
      } else if k < |a| {
        AtUnbordered(s, end, k, |a|);
      } else {
        AtSuffix(a, begin, end, k - |a|);
        if k == |a| {
          if |end| <= |begin| { assert begin[..|end|] == begin[0..|end|]; }
        } else if k + |end| <= |s| {
          assert begin[k - |a|] == begin[1..][k - |a| - 1];
          assert s[k..k + |end|][0] == begin[k - |a|];
        }
      }
    }
  }

  // ---- Splitting a text at its block ----------------------------------------

  /** A text splits at its block exactly as it was put together, if the text
      before has no begin marker and the body no end marker. */
  lemma SplitAtBlock(a: string, begin: string, body: string, end: string, z: string)
    requires Markers(begin, end) && !Contains(a, begin) && !Contains(body, end)
    ensures SplitMarked(a + (Block(begin, body, end) + z), begin, end) == Some((a, z))
  {
    hide SplitMarked, Contains, Find;
    var rest := ("\n" + (body + ("\n" + ""))) + (end + z);
    var s := a + (begin + rest);
    assert a + (Block(begin, body, end) + z) == s;
    FindPlanted(a, begin, rest);
    NoEndInBody(body, end);
    FindPlanted("\n" + (body + ("\n" + "")), end, z);
    assert rest[|body| + 2 + |end|..] == z;
    SplitIs(a, begin, rest, end, |body| + 2);
  }

  lemma NoEndInBody(body: string, end: string)
    requires end != "" && '\n' !in end && !Contains(body, end)
    ensures !Contains("\n" + (body + ("\n" + "")), end)
  {
    assert !Contains("", end) by { assert Find("", end) == -1; }
    ContainsAround(body, '\n', "", end);
    ContainsAround("", '\n', body + ("\n" + ""), end);
    assert "" + ("\n" + (body + ("\n" + ""))) == "\n" + (body + ("\n" + ""));
  }

  /** With an end marker in the body the split comes too early: the block's own
      end marker stays in the text after it. */
  lemma SplitInBody(a: string, begin: string, body: string, end: string, z: string) returns (w: string)
    requires Markers(begin, end) && !Contains(a, begin) && Contains(body, end)
    ensures SplitMarked(a + (Block(begin, body, end) + z), begin, end) == Some((a, w + (end + z)))
  {
    hide SplitMarked, Contains, Find;
    var pre := "\n" + body;
    var post := "\n" + (end + z);
    var rest := pre + post;
    ContainsSuffix("\n", body, end);
    var j := FirstInPrefix(pre, post, end);
    w := pre[j + |end|..] + "\n";
    assert rest[j + |end|..] == w + (end + z);
    FindPlanted(a, begin, rest);
    SplitIs(a, begin, rest, end, j);
    assert a + (Block(begin, body, end) + z) == a + (begin + rest);
  }

  lemma SplitIs(a: string, begin: string, rest: string, end: string, j: nat)
    requires Find(a + (begin + rest), begin) == |a| && Find(rest, end) == j && j + |end| <= |rest|
    ensures SplitMarked(a + (begin + rest), begin, end) == Some((a, rest[j + |end|..]))
  {
    var s := a + (begin + rest);
    assert s[|a| + |begin|..] == rest && s[..|a|] == a;
  }

  // ---- Both markers present -------------------------------------------------

  /** A file's text with stripped text on both sides of the block. */
  function Around(x: string, block: string, y: string): string {
    x + "\n\n" + (block + ("\n" + y))
  }

  /** The text after the block, ending in a line break unless empty. */
  function Ending(y: string): string {
    if y == "" then "" else WithNewline(y)
  }

  lemma SplitFinds(s: string, begin: string, end: string)
    requires SplitMarked(s, begin, end).Some?
    ensures Contains(s, begin) && Contains(s, end)
  {
    var i: nat := Find(s, begin);
    var rest := s[i + |begin|..];
    assert s == s[..i + |begin|] + rest;
    ContainsSuffix(s[..i + |begin|], rest, end);
  }

  lemma BeforeLacks(s: string, begin: string, end: string)
    requires SplitMarked(s, begin, end).Some? && begin != ""
    ensures !Contains(SplitMarked(s, begin, end).value.0, begin)
  {
    var i: nat := Find(s, begin);
    var b := s[..i];
    assert s == b + s[i..];
    forall k: nat ensures !At(b, begin, k) {
      if k + |begin| <= i { AtPrefix(b, s[i..], begin, k); }
    }
  }

  lemma SyncMarked(s: string, begin: string, end: string, block: string, b: string, a: string)
    requires SplitMarked(s, begin, end) == Some((b, a))
    ensures Synced(s, begin, end, block) == Ok(Around(RStrip(b), block, Ending(LStrip(a))))
  {
    hide SplitMarked, Contains, RStrip, LStrip;
    SplitFinds(s, begin, end);
    var y := LStrip(a);
    var pre := RStrip(b) + "\n\n" + block + "\n";
    assert ReplaceMarkedBlock(s, begin, end, block) == Ok(pre + y);
    assert pre + y != "" && (pre + y)[|pre + y| - 1] == if y == "" then '\n' else y[|y| - 1];
    assert (pre + y) + "\n" == pre + (y + "\n");
    assert WithNewline(pre + y) == pre + Ending(y);
    assert pre + Ending(y) == Around(RStrip(b), block, Ending(y));
  }

  lemma StripBreaks(x: string)
    ensures RStrip(RStrip(x) + "\n\n") == RStrip(x)
  {
    hide RStrip;
    RStripBlank(RStrip(x), "\n\n");
    StripTwice(x);
  }

  lemma BreakBlank()
    ensures Blank("\n") && Blank("\n\n")
  {
  }

  lemma StripEnding(l: string)
    requires l == "" || !IsSpace(l[0])
    ensures LStrip("\n" + Ending(l)) == Ending(l) && Ending(Ending(l)) == Ending(l)
  {
    hide LStrip, IsSpace;
    assert Ending(l) == "" || Ending(l)[0] == l[0];
    BreakBlank();
    LStripVisible("\n", Ending(l));
  }

  lemma PrefixLacks(x: string, b: string, p: string)
    requires x <= b && !Contains(b, p)
    ensures !Contains(x, p)
  {
    assert b == x + b[|x|..];
    ContainsPrefix(x, b[|x|..], p);
  }

  lemma BreaksLack(x: string, p: string)
    requires Lone(p) && !Contains(x, p)
    ensures !Contains(x + "\n\n", p)
  {
    assert !Contains("", p) by { assert Find("", p) == -1; }
    assert "" + ("\n" + "") == "\n";
    ContainsAround("", '\n', "", p);
    ContainsAround(x, '\n', "\n", p);
    assert x + "\n\n" == x + ("\n" + "\n");
  }

  /** After a sync the text outside the markers is what it was, up to the white
      space next to them (and a final line break). */
  lemma SyncKeepsOutside(s: string, begin: string, end: string, body: string, b: string, a: string)
    requires Markers(begin, end) && !Contains(body, end) && SplitMarked(s, begin, end) == Some((b, a))
    ensures var r := Synced(s, begin, end, Block(begin, body, end));
      r.Ok? && SplitMarked(r.text, begin, end) == Some((RStrip(b) + "\n\n", "\n" + Ending(LStrip(a))))
  {
    hide SplitMarked, Contains, Find;
    SyncMarked(s, begin, end, Block(begin, body, end), b, a);
    BeforeLacks(s, begin, end);
    RStripIs(b);
    PrefixLacks(RStrip(b), b, begin);
    BreaksLack(RStrip(b), begin);
    SplitAtBlock(RStrip(b) + "\n\n", begin, body, end, "\n" + Ending(LStrip(a)));
  }

  /** A second sync with the same block changes nothing, exactly when no end
      marker hides in the body; otherwise each sync makes the file longer. */
  lemma SyncIdempotentExactly(s: string, begin: string, end: string, body: string)
    requires Markers(begin, end) && SplitMarked(s, begin, end).Some?
    ensures var block := Block(begin, body, end); var r := Synced(s, begin, end, block);
      r.Ok? && var r2 := Synced(r.text, begin, end, block);
      r2.Ok? && (r2.text == r.text <==> !Contains(body, end)) &&
      (Contains(body, end) ==> |r2.text| > |r.text| && SplitMarked(r.text, begin, end).Some?)
  {
    hide SplitMarked, Contains, Find, RStrip, LStrip, Synced, Block, Markers, Ending, Around;
    var (b, a) := SplitMarked(s, begin, end).value;
    var block := Block(begin, body, end);
    SyncMarked(s, begin, end, block, b, a);
    if Contains(body, end) {
      SyncGrows(s, begin, end, body, b, a);
    } else {
      SyncSettles(s, begin, end, body, b, a);
    }
  }

  lemma SyncSettles(s: string, begin: string, end: string, body: string, b: string, a: string)
    requires Markers(begin, end) && SplitMarked(s, begin, end) == Some((b, a)) && !Contains(body, end)
    ensures var block := Block(begin, body, end); var t := Around(RStrip(b), block, Ending(LStrip(a)));
      Synced(t, begin, end, block) == Ok(t)
  {
    hide SplitMarked, Contains, RStrip, LStrip, Synced, Block, Markers, Ending, Around;
    var block := Block(begin, body, end);
    var x, y := RStrip(b), Ending(LStrip(a));
    SyncMarked(s, begin, end, block, b, a);
    SyncKeepsOutside(s, begin, end, body, b, a);
    SyncMarked(Around(x, block, y), begin, end, block, x + "\n\n", "\n" + y);
    StripBreaks(b);
    LStripIs(a);
    StripEnding(LStrip(a));
  }

  lemma SyncGrows(s: string, begin: string, end: string, body: string, b: string, a: string)
    requires Markers(begin, end) && SplitMarked(s, begin, end) == Some((b, a)) && Contains(body, end)
    ensures var block := Block(begin, body, end); var t := Around(RStrip(b), block, Ending(LStrip(a)));
      SplitMarked(t, begin, end).Some? && Synced(t, begin, end, block).Ok? &&
      |Synced(t, begin, end, block).text| > |t|
  {
    hide SplitMarked, Contains, RStrip, LStrip, Synced, Block;
    var block := Block(begin, body, end);
    var x, y := RStrip(b), Ending(LStrip(a));
    var t := Around(x, block, y);
    BeforeLacks(s, begin, end);
    RStripIs(b);
    PrefixLacks(x, b, begin);
    BreaksLack(x, begin);
    var v := end + ("\n" + y);
    var w := SplitInBody(x + "\n\n", begin, body, end, "\n" + y);
    SyncMarked(t, begin, end, block, x + "\n\n", w + v);
    StripBreaks(b);
    StripKeeps(w, v);
    assert Synced(t, begin, end, block).text == Around(x, block, Ending(LStrip(w + v)));
  }

  /** Stripping never eats into a text that starts with a visible character. */
  lemma {:induction false} StripKeeps(w: string, v: string)
    requires v != "" && !IsSpace(v[0])
    ensures |LStrip(w + v)| >= |v|
  {
    if w == "" {
      assert w + v == v;
    } else if IsSpace(w[0]) {
      assert (w + v)[1..] == w[1..] + v;
      StripKeeps(w[1..], v);
    }
  }

  // ---- Markers missing ------------------------------------------------------

  predicate BothMarkers(s: string, begin: string, end: string) {
    Contains(s, begin) && Contains(s, end)
  }

  /** Without both markers a '#' block goes to the top of the file. */
  lemma HashInsert(s: string, begin: string, end: string, block: string)
    requires !BothMarkers(s, begin, end) && begin != "" && begin[0] == '#'
    ensures Synced(s, begin, end, block) == Ok("" + (block + ("\n\n" + Ending(LStrip(s)))))
  {
    hide Contains, LStrip;
    var y := LStrip(s);
    var pre := block + "\n\n";
    assert ReplaceMarkedBlock(s, begin, end, block) == Ok(pre + y);
    assert (pre + y)[|pre + y| - 1] == if y == "" then '\n' else y[|y| - 1];
    assert (pre + y) + "\n" == pre + (y + "\n");
    assert pre + Ending(y) == "" + (block + ("\n\n" + Ending(y)));
  }

  /** It settles with the second sync, never with the first: the second puts
      two line breaks above the block. */
  lemma HashSyncsTwice(s: string, begin: string, end: string, body: string)
    requires Markers(begin, end) && !Contains(body, end)
    requires !BothMarkers(s, begin, end) && begin[0] == '#'
    ensures var block := Block(begin, body, end); var r := Synced(s, begin, end, block);
      r.Ok? && SplitMarked(r.text, begin, end) == Some(("", "\n\n" + Ending(LStrip(s)))) &&
      var r2 := Synced(r.text, begin, end, block);
      r2 == Ok(Around("", block, Ending(LStrip(s)))) && r2 != r && Synced(r2.text, begin, end, block) == r2
  {
    hide SplitMarked, Contains, LStrip, Synced, BothMarkers;
    var block := Block(begin, body, end);
    var y := LStrip(s);
    var z := "\n\n" + Ending(y);
    HashInsert(s, begin, end, block);
    EmptyLacks(begin);
    SplitAtBlock("", begin, body, end, z);
    var t := "" + (block + z);
    SyncMarked(t, begin, end, block, "", z);
    SyncSettles(t, begin, end, body, "", z);
    LStripIs(s);
    LStripVisible("\n\n", Ending(y));
    StripEnding(y);
    assert t[0] == '#' && Around("", block, Ending(y))[0] == '\n';
  }

  /** Without both markers any other block goes before the Purpose heading. */
  lemma PurposeInsert(s: string, begin: string, end: string, block: string, m: nat)
    requires !BothMarkers(s, begin, end) && begin != "" && begin[0] != '#'
    requires Find(s, PURPOSE) == m && m + |PURPOSE| <= |s|
    ensures Synced(s, begin, end, block) ==
      Ok(s[..m] + (block + ("\n\n" + Ending(PURPOSE + s[m + |PURPOSE|..]))))
  {
    hide Contains, Find;
    var tail := s[m + |PURPOSE|..];
    var pre := s[..m] + (block + "\n\n");
    var t := s[..m] + (block + "\n\n" + PURPOSE) + tail;
    assert ReplaceMarkedBlock(s, begin, end, block) == Ok(t);
    assert t == pre + (PURPOSE + tail);
    assert t[|t| - 1] == (PURPOSE + tail)[|PURPOSE + tail| - 1];
    assert (pre + (PURPOSE + tail)) + "\n" == pre + ((PURPOSE + tail) + "\n");
    assert WithNewline(t) == pre + Ending(PURPOSE + tail);
    assert pre + Ending(PURPOSE + tail) == s[..m] + (block + ("\n\n" + Ending(PURPOSE + tail)));
  }

  /** A begin marker left over before the block catches the split. */
  lemma SplitAtOrphan(b: string, begin: string, mid: string, body: string, end: string, z: string)
    requires Markers(begin, end) && !Contains(b, begin) && !Contains(mid, end) && !Contains(body, end)
    ensures SplitMarked(b + (begin + (mid + (Block(begin, body, end) + z))), begin, end) == Some((b, z))
  {
    hide SplitMarked, Contains, Find;
    var rest := mid + (Block(begin, body, end) + z);
    FindPlanted(b, begin, rest);
    FirstEnd(mid, begin, body, end, z);
    SplitIs(b, begin, rest, end, |mid + begin| + |body| + 2);
    assert rest[|mid + begin| + |body| + 2 + |end|..] == z;
  }

  /** How much of the text before the Purpose heading the second sync keeps:
      only what stands before a left-over begin marker, if there is one. */
  function KeptBefore(s: string, begin: string, m: nat): string
    requires m <= |s|
  {
    if Contains(s[..m], begin) then s[..Find(s[..m], begin)] else s[..m]
  }

  lemma PurposeSplit(s: string, begin: string, end: string, body: string, m: nat, z: string)
    requires Markers(begin, end) && !Contains(body, end) && !BothMarkers(s, begin, end) && m <= |s|
    ensures SplitMarked(s[..m] + (Block(begin, body, end) + z), begin, end) == Some((KeptBefore(s, begin, m), z))
  {
    hide SplitMarked, Contains, Find, Block;
    var p := s[..m];
    if Contains(p, begin) {
      var i := OrphanAt(p, begin);
      var mid := p[i + |begin|..];
      assert KeptBefore(s, begin, m) == p[..i];
      assert s == p + s[m..];
      ContainsPrefix(p, s[m..], begin);
      assert p == p[..i + |begin|] + mid;
      ContainsSuffix(p[..i + |begin|], mid, end);
      ContainsPrefix(p, s[m..], end);
      SplitAtOrphan(p[..i], begin, mid, body, end, z);
      assert p + (Block(begin, body, end) + z) == p[..i] + (begin + (mid + (Block(begin, body, end) + z)));
    } else {
      SplitAtBlock(p, begin, body, end, z);
    }
  }

  lemma OrphanAt(p: string, begin: string) returns (i: nat)
    requires Contains(p, begin) && begin != ""
    ensures Find(p, begin) == i && i + |begin| <= |p| && p[i..i + |begin|] == begin
    ensures p == p[..i] + (begin + p[i + |begin|..]) && !Contains(p[..i], begin)
  {
    i := Find(p, begin);
    assert p == p[..i] + p[i..];
    var b := p[..i];
    forall k: nat ensures !At(b, begin, k) {
      if k + |begin| <= i { AtPrefix(b, p[i..], begin, k); }
    }
  }

  /** Before the Purpose heading the block settles with the second sync too.
      The text before the heading survives unless a begin marker without an end
      was left in it: then the second sync drops everything from that marker to
      the heading. */
  lemma PurposeSyncsTwice(s: string, begin: string, end: string, body: string)
    requires Markers(begin, end) && !Contains(body, end)
    requires !BothMarkers(s, begin, end) && begin[0] != '#' && Contains(s, PURPOSE)
    ensures var block := Block(begin, body, end); var m := Find(s, PURPOSE); var r := Synced(s, begin, end, block);
      r.Ok? && var r2 := Synced(r.text, begin, end, block);
      m + |PURPOSE| <= |s| &&
      r2 == Ok(Around(RStrip(KeptBefore(s, begin, m)), block, Ending(PURPOSE + s[m + |PURPOSE|..]))) &&
      Synced(r2.text, begin, end, block) == r2
  {
    var m: nat := Find(s, PURPOSE);
    assert m + |PURPOSE| <= |s|;
    hide SplitMarked, Contains, Find, LStrip, RStrip, Synced, BothMarkers, KeptBefore, Block, Ending, Around, PURPOSE;
    var block := Block(begin, body, end);
    var y := PURPOSE + s[m + |PURPOSE|..];
    var z := "\n\n" + Ending(y);
    PurposeInsert(s, begin, end, block, m);
    PurposeSplit(s, begin, end, body, m, z);
    var t := s[..m] + (block + z);
    PurposeStrip(s[m + |PURPOSE|..]);
    SyncMarked(t, begin, end, block, KeptBefore(s, begin, m), z);
    SyncSettles(t, begin, end, body, KeptBefore(s, begin, m), z);
  }

  lemma PurposeStrip(tail: string)
    ensures LStrip("\n\n" + Ending(PURPOSE + tail)) == Ending(PURPOSE + tail)
    ensures Ending(Ending(PURPOSE + tail)) == Ending(PURPOSE + tail)
  {
    var y := PURPOSE + tail;
    assert y[0] == '#' && Ending(y)[0] == '#';
    LStripVisible("\n\n", Ending(y));
  }

  // ---- Errors, and the check ------------------------------------------------

  /** A sync fails exactly when both markers are there but no end marker
      follows the first begin marker, or when one is missing and there is no
      place to insert the block. */
  lemma FailsExactly(s: string, begin: string, end: string, block: string)
    requires begin != ""
    ensures Synced(s, begin, end, block).Failed? <==>
      if BothMarkers(s, begin, end) then NoEndFrom(s, Find(s, begin) + |begin|, end)
      else begin[0] != '#' && !Contains(s, PURPOSE)
  {
    hide RStrip, LStrip, Find, NoEndFrom;
    if BothMarkers(s, begin, end) {
      NoSplitExactly(s, begin, end);
    }
  }

  ghost predicate NoEndFrom(s: string, i: int, end: string) {
    forall k: nat | k >= i :: !At(s, end, k)
  }

  lemma NoSplitExactly(s: string, begin: string, end: string)
    requires Contains(s, begin)
    ensures SplitMarked(s, begin, end).None? <==> NoEndFrom(s, Find(s, begin) + |begin|, end)
  {
    var i: nat := Find(s, begin);
    var pre, rest := s[..i + |begin|], s[i + |begin|..];
    assert s == pre + rest;
    if NoEndFrom(s, |pre|, end) {
      forall k: nat ensures !At(rest, end, k) {
        AtSuffix(pre, rest, end, k);
      }
    } else {
      var k: nat :| k >= |pre| && At(s, end, k);
      AtSuffix(pre, rest, end, k - |pre|);
      ContainsAt(rest, end, k - |pre|);
    }
  }

  /** A synced file ends in a line break. */
  lemma SyncedEnds(s: string, begin: string, end: string, block: string)
    requires Synced(s, begin, end, block).Ok?
    ensures var t := Synced(s, begin, end, block).text; t != "" && t[|t| - 1] == '\n'
  {
    hide ReplaceMarkedBlock;
  }

  /** What a successful sync leaves passes `readme_is_synced`. */
  lemma SyncedPassesCheck(s: string, begin: string, end: string, block: string)
    requires Synced(s, begin, end, block).Ok?
    ensures Contains(Synced(s, begin, end, block).text, block)
  {
    hide Contains, Find, SplitMarked, RStrip, LStrip;
    var t := ReplaceMarkedBlock(s, begin, end, block).text;
    var b, a := BlockIn(s, begin, end, block);
    ContainsSelf(block);
    ContainsPrefix(block, a, block);
    ContainsSuffix(b, block + a, block);
    ContainsPrefix(t, "\n", block);
  }

  lemma BlockIn(s: string, begin: string, end: string, block: string) returns (b: string, a: string)
    requires ReplaceMarkedBlock(s, begin, end, block).Ok?
    ensures ReplaceMarkedBlock(s, begin, end, block).text == b + (block + a)
  {
    hide Contains, SplitMarked, RStrip, LStrip;
    var t := ReplaceMarkedBlock(s, begin, end, block).text;
    if Contains(s, begin) && Contains(s, end) {
      var (before, after) := SplitMarked(s, begin, end).value;
      b, a := RStrip(before) + "\n\n", "\n" + LStrip(after);
    } else if begin != "" && begin[0] == '#' {
      b, a := "", "\n\n" + LStrip(s);
    } else {
      var m := Find(s, PURPOSE);
      b, a := s[..m], "\n\n" + PURPOSE + s[m + |PURPOSE|..];
    }
    assert t == b + (block + a);
  }

  // ---- The two blocks -------------------------------------------------------

  datatype Config = Config(
    host: string, org: string, name: string, branch: string, siteName: string, description: string, baseUrl: string)

  function Slug(c: Config): string { c.org + "/" + c.name }

  function RepoUrl(c: Config): string { "https://" + c.host + "/" + Slug(c) }

  function PagesUrl(c: Config): string {
    if c.baseUrl != "" && c.baseUrl[|c.baseUrl| - 1] == '/' then c.baseUrl else c.baseUrl + "/"
  }

  function Link(text: string, url: string): string { "[" + text + "](" + url + ")" }

  /** The lines between the markers of `readme_site_config_block`. */
  function ReadmeLines(c: Config): seq<string> {
    [ "**Documentation:** " + Link(PagesUrl(c), PagesUrl(c)) + " (GitHub Pages)",
      "",
      "## Documentation map",
      "",
      "| Topic | Location |",
      "|-------|----------|",
      "| Setup, Makefile variables, " + "troubleshooting | " + Link("Setup guide", PagesUrl(c) + "setup/") + " |",
      "| Per-service PQC " + "configuration | " + Link("Services", PagesUrl(c) + "services/") + " |",
      "| Live test suite " + "(`make test-lab`) | " + Link("Tests", PagesUrl(c) + "tests/") + " |" ]
  }

  const GENERATED := "#" + (" Generated from site.yaml" + (" \U{2014} run: " + "make sync-site-config"))

  /** The lines between the markers of `mkdocs_site_config_block`. */
  function MkdocsLines(c: Config): seq<string> {
    [ GENERATED,
      "site_name: " + c.siteName,
      "site_description: " + c.description,
      "site_url: " + PagesUrl(c),
      "repo_url: " + RepoUrl(c),
      "repo_name: " + Slug(c),
      "edit_uri: " + "edit/" + c.branch + "/docs/",
      "extra:",
      "  social:",
      "    - icon: fontawesome/brands/github",
      "      link: " + RepoUrl(c) ]
  }

  function PrintBlock(begin: string, lines: seq<string>, end: string): string { Join([begin] + lines + [end], '\n') }

  lemma {:induction false} JoinSnoc(lines: seq<string>, last: string)
    requires lines != []
    ensures Join(lines + [last], '\n') == Join(lines, '\n') + ("\n" + last)
  {
    if |lines| == 1 {
      assert (lines + [last])[1..] == [last];
    } else {
      JoinSnoc(lines[1..], last);
      assert (lines + [last])[1..] == lines[1..] + [last];
    }
  }

  /** A printed block is its markers around its lines. */
  lemma PrintedBlock(begin: string, lines: seq<string>, end: string)
    requires lines != []
    ensures PrintBlock(begin, lines, end) == Block(begin, Join(lines, '\n'), end)
  {
    hide Join;
    JoinSnoc([begin] + lines, end);
    JoinFirst(begin, lines);
    var body := Join(lines, '\n');
    assert begin + ("\n" + body) + ("\n" + end) == begin + "\n" + body + "\n" + end;
  }

  lemma JoinFirst(first: string, lines: seq<string>)
    requires lines != []
    ensures Join([first] + lines, '\n') == first + ("\n" + Join(lines, '\n'))
  {
    assert ([first] + lines)[1..] == lines;
  }

  lemma ReadmeTexts()
    ensures '<' !in "**Documentation:** " && '<' !in " (GitHub Pages)" && '<' !in "## Documentation map"
    ensures '<' !in "| Topic | Location |" && '<' !in "|-------|----------|" && '<' !in " |"
  {
  }

  lemma ReadmeRows()
    ensures '<' !in "| Setup, Makefile variables, " && '<' !in "troubleshooting | "
    ensures '<' !in "| Per-service PQC " && '<' !in "configuration | "
    ensures '<' !in "| Live test suite " && '<' !in "(`make test-lab`) | "
  {
  }

  lemma LinkTexts()
    ensures '<' !in "Setup guide" && '<' !in "setup/" && '<' !in "Services" && '<' !in "services/"
    ensures '<' !in "Tests" && '<' !in "tests/"
  {
  }

  lemma LinkLacks(text: string, url: string)
    requires '<' !in text && '<' !in url
    ensures '<' !in Link(text, url)
  {
    assert '<' !in "[" && '<' !in "](" && '<' !in ")";
  }

  lemma MkdocsTexts()
    ensures '#' !in "site_name: " && '#' !in "site_description: " && '#' !in "site_url: " && '#' !in "repo_url: "
    ensures '#' !in "repo_name: " && '#' !in "edit_uri: " && '#' !in "edit/" && '#' !in "/docs/"
  {
  }

  lemma MkdocsMoreTexts()
    ensures '#' !in "https://" && '#' !in "extra:" && '#' !in "  social:"
    ensures '#' !in "    - icon: fontawesome/brands/github" && '#' !in "      link: "
  {
  }

  /** The comment line starts like the markers, but only for two characters. */
  lemma GeneratedLacks()
    ensures !Contains(GENERATED, MKDOCS_END)
  {
    var rest := " Generated from site.yaml" + (" \U{2014} run: " + "make sync-site-config");
    assert '#' !in " Generated from site.yaml" && '#' !in " \U{2014} run: " && '#' !in "make sync-site-config";
    assert rest[1] == 'G' && MKDOCS_END[2] == 's';
    CommentLacks(rest, MKDOCS_END, 2);
  }

  lemma CommentLacks(rest: string, p: string, d: nat)
    requires '#' !in rest && |p| > d > 0 && p[0] == '#' && |rest| >= d && rest[d - 1] != p[d]
    ensures !Contains("#" + rest, p)
  {
    var s := "#" + rest;
    forall k: nat ensures !At(s, p, k) {
      if k + |p| <= |s| {
        var t := s[k..k + |p|];
        if k == 0 { assert t[d] == s[d] == rest[d - 1]; } else { assert t[0] == s[k] == rest[k - 1]; }
      }
    }
  }

  /** The README block hides no end marker if the base URL has no `<`. */
  lemma ReadmeBodyLacks(c: Config)
    requires '<' !in c.baseUrl
    ensures !Contains(Join(ReadmeLines(c), '\n'), README_END)
  {
    ReadmeTexts();
    ReadmeRows();
    LinkTexts();
    var lines, url := ReadmeLines(c), PagesUrl(c);
    assert README_END[0] == '<' && '<' !in url;
    LinkLacks(url, url);
    LinkLacks("Setup guide", url + "setup/");
    LinkLacks("Services", url + "services/");
    LinkLacks("Tests", url + "tests/");
    hide Link, Contains, PagesUrl;
    forall i | 0 <= i < |lines| ensures !Contains(lines[i], README_END) { CharLacks(lines[i], README_END); }
    LinesContain(lines, README_END);
  }

  /** The mkdocs block hides none if no field has a `#`. */
  lemma MkdocsBodyLacks(c: Config)
    requires '#' !in c.host && '#' !in c.org && '#' !in c.name && '#' !in c.branch
    requires '#' !in c.siteName && '#' !in c.description && '#' !in c.baseUrl
    ensures !Contains(Join(MkdocsLines(c), '\n'), MKDOCS_END)
  {
    MkdocsTexts();
    MkdocsMoreTexts();
    GeneratedLacks();
    var lines := MkdocsLines(c);
    assert MKDOCS_END[0] == '#' && '#' !in PagesUrl(c) && '#' !in Slug(c) && '#' !in RepoUrl(c);
    hide GENERATED, Contains;
    forall i | 0 <= i < |lines| ensures !Contains(lines[i], MKDOCS_END) {
      if i > 0 { CharLacks(lines[i], MKDOCS_END); }
    }
    LinesContain(lines, MKDOCS_END);
  }

  /** For such a configuration both files settle with one sync. */
  lemma ConfiguredSyncsSettle(c: Config, readme: string, mkdocs: string)
    requires '<' !in c.baseUrl
    requires '#' !in c.host && '#' !in c.org && '#' !in c.name && '#' !in c.branch
    requires '#' !in c.siteName && '#' !in c.description && '#' !in c.baseUrl
    requires SplitMarked(readme, README_BEGIN, README_END).Some? && SplitMarked(mkdocs, MKDOCS_BEGIN, MKDOCS_END).Some?
    ensures var block := PrintBlock(README_BEGIN, ReadmeLines(c), README_END);
      var r := Synced(readme, README_BEGIN, README_END, block);
      r.Ok? && Synced(r.text, README_BEGIN, README_END, block) == r
    ensures var block := PrintBlock(MKDOCS_BEGIN, MkdocsLines(c), MKDOCS_END);
      var r := Synced(mkdocs, MKDOCS_BEGIN, MKDOCS_END, block);
      r.Ok? && Synced(r.text, MKDOCS_BEGIN, MKDOCS_END, block) == r
  {
    assert ReadmeLines(c) != [] && MkdocsLines(c) != [];
    hide Contains, SplitMarked, Synced, Markers, ReadmeLines, MkdocsLines, Join, PrintBlock;
    ScriptMarkers();
    ReadmeBodyLacks(c);
    MkdocsBodyLacks(c);
    PrintedBlock(README_BEGIN, ReadmeLines(c), README_END);
    PrintedBlock(MKDOCS_BEGIN, MkdocsLines(c), MKDOCS_END);
    SyncIdempotentExactly(readme, README_BEGIN, README_END, Join(ReadmeLines(c), '\n'));
    SyncIdempotentExactly(mkdocs, MKDOCS_BEGIN, MKDOCS_END, Join(MkdocsLines(c), '\n'));
  }
  // ---- Reading the blocks back ----------------------------------------------

  /** What the first line that starts with this key says. */
  function Field(lines: seq<string>, key: string): Option<string> {
    if lines == [] then None
    else if StartsWith(lines[0], key) then Some(lines[0][|key|..])
    else Field(lines[1..], key)
  }

  lemma {:induction false} FieldAt(lines: seq<string>, key: string, i: nat, v: string)
    requires i < |lines| && lines[i] == key + v && forall j | 0 <= j < i :: !StartsWith(lines[j], key)
    ensures Field(lines, key) == Some(v)
  {
    if i > 0 { FieldAt(lines[1..], key, i - 1, v); }
  }

  lemma OtherKey(key: string, v: string, other: string, k: nat)
    requires k < |key| && k < |other| && key[k] != other[k]
    ensures !StartsWith(key + v, other)
  {
    assert (key + v)[k] == key[k];
  }

  /** The lines of the file that the block is written to. */
  function MkdocsFile(c: Config): seq<string> {
    Split(PrintBlock(MKDOCS_BEGIN, MkdocsLines(c), MKDOCS_END), '\n')
  }

  /** Fields that are one line. */
  predicate OneLineConfig(c: Config) {
    && '\n' !in c.host && '\n' !in c.org && '\n' !in c.name && '\n' !in c.branch
    && '\n' !in c.siteName && '\n' !in c.description && '\n' !in c.baseUrl
  }

  lemma MkdocsOneLine(c: Config)
    requires OneLineConfig(c)
    ensures Free(MkdocsLines(c), '\n')
  {
    FixedOneLine();
    assert '\n' !in PagesUrl(c) && '\n' !in Slug(c) && '\n' !in RepoUrl(c);
    hide PagesUrl, Slug, RepoUrl, GENERATED;
  }

  lemma FixedOneLine()
    ensures '\n' !in GENERATED && '\n' !in "edit/" && '\n' !in "/docs/" && '\n' !in "https://"
  {
    assert '\n' !in " Generated from site.yaml" && '\n' !in " \U{2014} run: " && '\n' !in "make sync-site-config";
  }

  lemma MkdocsFileIs(c: Config)
    requires OneLineConfig(c)
    ensures MkdocsFile(c) == [MKDOCS_BEGIN] + MkdocsLines(c) + [MKDOCS_END]
  {
    hide Join, Split, MkdocsLines;
    MkdocsOneLine(c);
    var lines := [MKDOCS_BEGIN] + MkdocsLines(c) + [MKDOCS_END];
    forall i | 0 <= i < |lines| ensures '\n' !in lines[i] {
      if 0 < i < |lines| - 1 { assert lines[i] == MkdocsLines(c)[i - 1]; }
    }
    SplitJoin(lines, '\n');
  }

  lemma EarlierKeys(c: Config, key: string, n: nat)
    requires 2 <= n <= 7 && |key| > 5
    requires key[0] == 's' || key[0] == 'r' || key[0] == 'e'
    requires n > 2 ==> key[0] != 's' || key[5] != 'n'
    requires n > 3 ==> key[0] != 's' || key[5] != 'd'
    requires n > 4 ==> key[0] != 's'
    requires n > 5 ==> key[0] != 'r' || key[5] != 'u'
    requires n > 6 ==> key[0] != 'r'
    ensures var lines := [MKDOCS_BEGIN] + MkdocsLines(c) + [MKDOCS_END];
      forall j | 0 <= j < n :: !StartsWith(lines[j], key)
  {
    var lines := [MKDOCS_BEGIN] + MkdocsLines(c) + [MKDOCS_END];
    GeneratedFirst();
    assert lines[0][0] == '#' && lines[1] == GENERATED;
    var d := if key[0] == 's' then 5 else 0;
    var r := if key[0] == 'r' then 5 else 0;
    if n > 2 { OtherKey("site_name: ", c.siteName, key, d); }
    if n > 3 { OtherKey("site_description: ", c.description, key, d); }
    if n > 4 { OtherKey("site_url: ", PagesUrl(c), key, 0); }
    if n > 5 { OtherKey("repo_url: ", RepoUrl(c), key, r); }
    if n > 6 { OtherKey("repo_name: ", Slug(c), key, 0); }
  }

  lemma GeneratedFirst()
    ensures GENERATED != "" && GENERATED[0] == '#'
  {
  }

  /** The mkdocs block says each setting under its own key, whatever the fields. */
  lemma MkdocsReadsBack(c: Config)
    requires OneLineConfig(c)
    ensures Field(MkdocsFile(c), "site_name: ") == Some(c.siteName)
    ensures Field(MkdocsFile(c), "site_description: ") == Some(c.description)
    ensures Field(MkdocsFile(c), "site_url: ") == Some(if c.baseUrl != "" && c.baseUrl[|c.baseUrl| - 1] == '/' then c.baseUrl else c.baseUrl + "/")
    ensures Field(MkdocsFile(c), "repo_url: ") == Some("https://" + c.host + "/" + c.org + "/" + c.name)
    ensures Field(MkdocsFile(c), "repo_name: ") == Some(c.org + "/" + c.name)
    ensures Field(MkdocsFile(c), "edit_uri: ") == Some("edit/" + c.branch + "/docs/")
  {
    hide Field, StartsWith, MkdocsFile, Slug, RepoUrl;
    MkdocsFileIs(c);
    var lines := [MKDOCS_BEGIN] + MkdocsLines(c) + [MKDOCS_END];
    EarlierKeys(c, "site_name: ", 2);
    FieldAt(lines, "site_name: ", 2, c.siteName);
    EarlierKeys(c, "site_description: ", 3);
    FieldAt(lines, "site_description: ", 3, c.description);
    EarlierKeys(c, "site_url: ", 4);
    FieldAt(lines, "site_url: ", 4, PagesUrl(c));
    EarlierKeys(c, "repo_url: ", 5);
    FieldAt(lines, "repo_url: ", 5, RepoUrl(c));
    EarlierKeys(c, "repo_name: ", 6);
    FieldAt(lines, "repo_name: ", 6, Slug(c));
    EarlierKeys(c, "edit_uri: ", 7);
    assert lines[7] == "edit_uri: " + ("edit/" + c.branch + "/docs/");
    FieldAt(lines, "edit_uri: ", 7, "edit/" + c.branch + "/docs/");
    UrlTexts(c);
  }

  /** So does the link at its end. */
  lemma SocialLink(c: Config)
    requires OneLineConfig(c)
    ensures Field(MkdocsFile(c), "      link: ") == Some("https://" + c.host + "/" + c.org + "/" + c.name)
  {
    MkdocsFileIs(c);
    UrlTexts(c);
    GeneratedFirst();
    hide Field, MkdocsFile, Slug, RepoUrl, PagesUrl;
    var lines := [MKDOCS_BEGIN] + MkdocsLines(c) + [MKDOCS_END];
    var key := "      link: ";
    forall j | 0 <= j < 11 ensures !StartsWith(lines[j], key) {
      if j < 9 {
        TopLevel(c, j);
        OtherKey(lines[j], "", key, 0);
        assert lines[j] + "" == lines[j];
      } else {
        Nested();
      }
    }
    hide StartsWith;
    FieldAt(lines, key, 11, RepoUrl(c));
  }

  lemma Nested()
    ensures !StartsWith("  social:", "      link: ") && !StartsWith("    - icon: fontawesome/brands/github", "      link: ")
  {
    var social, icon := "  social:", "    - icon: fontawesome/brands/github";
    OtherKey(social, "", "      link: ", 2);
    OtherKey(icon, "", "      link: ", 4);
    assert social + "" == social && icon + "" == icon;
  }

  lemma TopLevel(c: Config, j: nat)
    requires j < 9
    ensures var line := ([MKDOCS_BEGIN] + MkdocsLines(c) + [MKDOCS_END])[j]; line != "" && line[0] != ' '
  {
    GeneratedFirst();
    hide GENERATED, Slug, RepoUrl, PagesUrl;
    if j >= 2 { KeyedFirst(c, j); }
  }

  lemma KeyedFirst(c: Config, j: nat)
    requires 2 <= j < 9
    ensures var line := MkdocsLines(c)[j - 1]; line != "" && line[0] != ' '
  {
    hide GENERATED, Slug, RepoUrl, PagesUrl;
  }

  lemma UrlTexts(c: Config)
    ensures RepoUrl(c) == "https://" + c.host + "/" + c.org + "/" + c.name && Slug(c) == c.org + "/" + c.name
  {
  }

  /** The README block links the documentation and its three parts. */
  lemma ReadmeLinks(c: Config)
    ensures var block := PrintBlock(README_BEGIN, ReadmeLines(c), README_END); var url := PagesUrl(c);
      && Contains(block, "[" + url + "](" + url + ")")
      && Contains(block, "[Setup guide](" + (url + "setup/") + ")")
      && Contains(block, "[Services](" + (url + "services/") + ")")
      && Contains(block, "[Tests](" + (url + "tests/") + ")")
  {
    hide Contains, PrintBlock, PagesUrl, Link;
    var url := PagesUrl(c);
    LinkInBlock(c, 0, "**Documentation:** ", Link(url, url), " (GitHub Pages)");
    LinkInBlock(c, 6, "| Setup, Makefile variables, " + "troubleshooting | ", Link("Setup guide", url + "setup/"), " |");
    LinkInBlock(c, 7, "| Per-service PQC " + "configuration | ", Link("Services", url + "services/"), " |");
    LinkInBlock(c, 8, "| Live test suite " + "(`make test-lab`) | ", Link("Tests", url + "tests/"), " |");
    LinkText(url, url);
    GuideLinks(url);
  }

  lemma LinkText(text: string, url: string)
    ensures Link(text, url) == "[" + text + "](" + url + ")"
  {
  }

  lemma GuideLinks(url: string)
    ensures Link("Setup guide", url + "setup/") == "[Setup guide](" + (url + "setup/") + ")"
    ensures Link("Services", url + "services/") == "[Services](" + (url + "services/") + ")"
    ensures Link("Tests", url + "tests/") == "[Tests](" + (url + "tests/") + ")"
  {
    assert "[" + "Setup guide" + "](" == "[Setup guide](";
    assert "[" + "Services" + "](" == "[Services](";
    assert "[" + "Tests" + "](" == "[Tests](";
  }

  lemma LinkInBlock(c: Config, i: nat, head: string, link: string, tail: string)
    requires i < |ReadmeLines(c)| && ReadmeLines(c)[i] == head + link + tail
    ensures Contains(PrintBlock(README_BEGIN, ReadmeLines(c), README_END), link)
  {
    hide Contains, ReadmeLines, Join;
    var lines := [README_BEGIN] + ReadmeLines(c) + [README_END];
    var a, b := LineInJoin(lines, i + 1);
    assert Join(lines, '\n') == (a + head) + link + (tail + b);
    ContainsMiddle(a + head, link, tail + b);
  }

  lemma ContainsMiddle(a: string, p: string, b: string)
    ensures Contains(a + p + b, p)
  {
    var s := a + p + b;
    assert s[|a|..|a| + |p|] == p;
    ContainsAt(s, p, |a|);
  }

  lemma {:induction false} LineInJoin(lines: seq<string>, i: nat) returns (a: string, b: string)
    requires i < |lines|
    ensures Join(lines, '\n') == a + lines[i] + b
  {
    if i == 0 {
      a := "";
      b := if |lines| == 1 then "" else "\n" + Join(lines[1..], '\n');
    } else {
      a, b := LineInJoin(lines[1..], i - 1);
      a := lines[0] + "\n" + a;
    }
  }
}
