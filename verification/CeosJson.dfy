/** Searching the JSON output of a switch (lab/ceos_json.py). */
module CeosJson {
  import opened Text

  /** A JSON tree; a number stands for its printed form.  `Null` is Python's
      `None`, which the search also returns when it finds nothing. */
  datatype Json =
    | Null
    | Bool(flag: bool)
    | Num(text: string)
    | Str(text: string)
    | Arr(items: seq<Json>)
    | Obj(entries: seq<Entry>)

  datatype Entry = Entry(key: string, value: Json)

  // ---- The code -------------------------------------------------------------

  /** `json_tree_values`: keys and scalars as text, in document order. */
  function Values(j: Json): seq<string>
    decreases j, 1
  {
    match j
    case Null => []
    case Bool(b) => [if b then "True" else "False"]
    case Num(t) => [t]
    case Str(t) => [t]
    case Arr(items) => ItemValues(items)
    case Obj(entries) => EntryValues(entries)
  }

  function ItemValues(items: seq<Json>): seq<string>
    decreases items, 0
  {
    if items == [] then [] else Values(items[0]) + ItemValues(items[1..])
  }

  function EntryValues(entries: seq<Entry>): seq<string>
    decreases entries, 0
  {
    if entries == [] then [] else [entries[0].key] + Values(entries[0].value) + EntryValues(entries[1..])
  }

  /** `json_tree_contains` */
  predicate TreeContains(j: Json, needle: string) {
    exists v | v in Values(j) :: Contains(v, needle)
  }

  predicate TreeContainsAnyCase(j: Json, needle: string) {
    exists v | v in Values(j) :: Contains(Lower(v), Lower(needle))
  }

  /** The first entry of a dict whose key matches. */
  function DirectMatch(entries: seq<Entry>, key: string): Option<Json> {
    if entries == [] then None
    else if Lower(entries[0].key) == Lower(key) then Some(entries[0].value)
    else DirectMatch(entries[1..], key)
  }

  /** `json_find_value` */
  function Find(j: Json, key: string): Json
    decreases j, 1
  {
    match j
    case Obj(entries) => (
      match DirectMatch(entries, key)
      case Some(v) => v
      case None => FindInEntries(entries, key))
    case Arr(items) => FindInItems(items, key)
    case _ => Null
  }

  function FindInItems(items: seq<Json>, key: string): Json
    decreases items, 0
  {
    if items == [] then Null
    else
      var found := Find(items[0], key);
      if found != Null then found else FindInItems(items[1..], key)
  }

  function FindInEntries(entries: seq<Entry>, key: string): Json
    decreases entries, 0
  {
    if entries == [] then Null
    else
      var found := Find(entries[0].value, key);
      if found != Null then found else FindInEntries(entries[1..], key)
  }

  predicate IsPeerKey(key: string) { Lower(key) == "livepeerlist" || Lower(key) == "livepeers" }

  /** `_live_peer_lists` */
  function LivePeerLists(j: Json): seq<seq<Json>>
    decreases j, 1
  {
    match j
    case Obj(entries) => PeersInEntries(entries)
    case Arr(items) => PeersInItems(items)
    case _ => []
  }

  function PeersInItems(items: seq<Json>): seq<seq<Json>>
    decreases items, 0
  {
    if items == [] then [] else LivePeerLists(items[0]) + PeersInItems(items[1..])
  }

  function PeersInEntries(entries: seq<Entry>): seq<seq<Json>>
    decreases entries, 0
  {
    if entries == [] then []
    else
      var Entry(key, v) := entries[0];
      (if IsPeerKey(key) && v.Arr? then [v.items] else []) + LivePeerLists(v) + PeersInEntries(entries[1..])
  }

  // ---- Topmost matches ------------------------------------------------------

  /** Entry `i` is the first of a dict with this key, in whatever case. */
  predicate FirstKey(entries: seq<Entry>, key: string, i: nat) {
    i < |entries| && Lower(entries[i].key) == Lower(key) && forall n | 0 <= n < i :: Lower(entries[n].key) != Lower(key)
  }

  predicate NoKey(entries: seq<Entry>, key: string) {
    forall n | 0 <= n < |entries| :: Lower(entries[n].key) != Lower(key)
  }

  lemma {:induction false} DirectIsFirst(entries: seq<Entry>, key: string)
    ensures NoKey(entries, key) <==> DirectMatch(entries, key).None?
    ensures forall i: nat | FirstKey(entries, key, i) :: DirectMatch(entries, key) == Some(entries[i].value)
    ensures NoKey(entries, key) || exists i: nat :: FirstKey(entries, key, i)
  {
    if entries != [] {
      var rest := entries[1..];
      if Lower(entries[0].key) == Lower(key) {
        assert FirstKey(entries, key, 0);
      } else {
        DirectIsFirst(rest, key);
        assert forall n | 0 <= n < |rest| :: rest[n] == entries[n + 1];
        assert forall i: nat | FirstKey(entries, key, i) :: i > 0 && FirstKey(rest, key, i - 1);
        if i: nat :| FirstKey(rest, key, i) { assert FirstKey(entries, key, i + 1); }
      }
    }
  }

  /** What the search returns for each of these trees. */
  function Results(js: seq<Json>, key: string): (found: seq<Json>)
    ensures |found| == |js| && forall i | 0 <= i < |js| :: found[i] == Find(js[i], key)
  {
    seq(|js|, i requires 0 <= i < |js| => Find(js[i], key))
  }

  function ValuesOf(entries: seq<Entry>): (js: seq<Json>)
    ensures |js| == |entries| && forall i | 0 <= i < |js| :: js[i] == entries[i].value
  {
    seq(|entries|, i requires 0 <= i < |entries| => entries[i].value)
  }

  /** A dict's own match is what is found, even when it is null. Without one, and
      in a list, it is the first result below that is not null. */
  lemma FindByIndex(entries: seq<Entry>, items: seq<Json>, key: string)
    ensures forall i: nat | FirstKey(entries, key, i) :: Find(Obj(entries), key) == entries[i].value
    ensures NoKey(entries, key) ==> Find(Obj(entries), key) == FirstNonNull(Results(ValuesOf(entries), key))
    ensures Find(Arr(items), key) == FirstNonNull(Results(items, key))
  {
    DirectIsFirst(entries, key);
    EntryResults(entries, key);
    ItemResults(items, key);
  }

  lemma {:induction false} ItemResults(items: seq<Json>, key: string)
    ensures FindInItems(items, key) == FirstNonNull(Results(items, key))
  {
    if items != [] {
      ItemResults(items[1..], key);
      assert Results(items, key)[1..] == Results(items[1..], key);
    }
  }

  lemma {:induction false} EntryResults(entries: seq<Entry>, key: string)
    ensures FindInEntries(entries, key) == FirstNonNull(Results(ValuesOf(entries), key))
  {
    if entries != [] {
      EntryResults(entries[1..], key);
      assert Results(ValuesOf(entries), key)[1..] == Results(ValuesOf(entries[1..]), key);
    }
  }

  /** It is the first one, from the left. */
  lemma {:induction false} FirstByIndex(js: seq<Json>)
    ensures forall i | 0 <= i < |js| && js[i] != Null && (forall n | 0 <= n < i :: js[n] == Null) :: FirstNonNull(js) == js[i]
    ensures (forall i | 0 <= i < |js| :: js[i] == Null) ==> FirstNonNull(js) == Null
  {
    if js != [] {
      var rest := js[1..];
      FirstByIndex(rest);
      assert forall i | 0 <= i < |rest| :: rest[i] == js[i + 1];
      forall i | 0 <= i < |js| && js[i] != Null && (forall n | 0 <= n < i :: js[n] == Null) ensures FirstNonNull(js) == js[i] {
        if i > 0 { assert js[0] == Null && rest[i - 1] == js[i]; }
      }
    }
  }

  /** All topmost matches in depth-first order: the search goes into a dict only
      when no key of its own matches. */
  ghost function TopMatches(j: Json, key: string): seq<Json>
    decreases j, 1
  {
    match j
    case Obj(entries) =>
      if i: nat :| FirstKey(entries, key, i) then [entries[i].value] else EntryMatches(entries, key)
    case Arr(items) => ItemMatches(items, key)
    case _ => []
  }

  ghost function ItemMatches(items: seq<Json>, key: string): seq<Json>
    decreases items, 0
  {
    if items == [] then [] else TopMatches(items[0], key) + ItemMatches(items[1..], key)
  }

  ghost function EntryMatches(entries: seq<Entry>, key: string): seq<Json>
    decreases entries, 0
  {
    if entries == [] then [] else TopMatches(entries[0].value, key) + EntryMatches(entries[1..], key)
  }

  function FirstNonNull(js: seq<Json>): Json {
    if js == [] then Null else if js[0] != Null then js[0] else FirstNonNull(js[1..])
  }

  lemma {:induction false} FirstConcat(a: seq<Json>, b: seq<Json>)
    ensures FirstNonNull(a + b) == if FirstNonNull(a) != Null then FirstNonNull(a) else FirstNonNull(b)
  {
    if a == [] {
      assert a + b == b;
    } else {
      assert (a + b)[1..] == a[1..] + b;
      FirstConcat(a[1..], b);
    }
  }

  /** The search returns the first topmost match that is not null: a match that
      is null hides what lies beneath its own dict, and nothing else. */
  lemma {:induction false} FindIsFirst(j: Json, key: string)
    ensures Find(j, key) == FirstNonNull(TopMatches(j, key))
    decreases j, 1
  {
    match j
    case Obj(entries) =>
      DirectIsFirst(entries, key);
      FindIsFirstEntry(entries, key);
    case Arr(items) => FindIsFirstItem(items, key);
    case _ =>
  }

  lemma {:induction false} FindIsFirstItem(items: seq<Json>, key: string)
    ensures FindInItems(items, key) == FirstNonNull(ItemMatches(items, key))
    decreases items, 0
  {
    if items != [] {
      FindIsFirst(items[0], key);
      FindIsFirstItem(items[1..], key);
      FirstConcat(TopMatches(items[0], key), ItemMatches(items[1..], key));
    }
  }

  lemma {:induction false} FindIsFirstEntry(entries: seq<Entry>, key: string)
    ensures FindInEntries(entries, key) == FirstNonNull(EntryMatches(entries, key))
    decreases entries, 0
  {
    if entries != [] {
      FindIsFirst(entries[0].value, key);
      FindIsFirstEntry(entries[1..], key);
      FirstConcat(TopMatches(entries[0].value, key), EntryMatches(entries[1..], key));
    }
  }

  // ---- The texts of a tree --------------------------------------------------

  /** Following these positions down the tree ends at this key, text or number, or
      at a truth value, which Python prints with a capital. */
  predicate TextAt(j: Json, path: seq<nat>, text: string)
    decreases |path|
  {
    match j
    case Null => false
    case Bool(b) => path == [] && ((b && text == "True") || (!b && text == "False"))
    case Num(t) => path == [] && text == t
    case Str(t) => path == [] && text == t
    case Arr(items) => path != [] && path[0] < |items| && TextAt(items[path[0]], path[1..], text)
    case Obj(entries) =>
      path != [] && path[0] < |entries| &&
      ((|path| == 1 && text == entries[path[0]].key) || TextAt(entries[path[0]].value, path[1..], text))
  }

  lemma {:induction false} TextFound(j: Json, path: seq<nat>, text: string)
    requires TextAt(j, path, text)
    ensures text in Values(j)
    decreases j
  {
    match j
    case Obj(entries) =>
      if text != entries[path[0]].key { TextFound(entries[path[0]].value, path[1..], text); }
      TextInEntry(entries, path[0], text);
    case Arr(items) =>
      TextFound(items[path[0]], path[1..], text);
      TextInItem(items, path[0], text);
    case _ =>
  }

  lemma {:induction false} TextInItem(items: seq<Json>, i: nat, text: string)
    requires i < |items| && text in Values(items[i])
    ensures text in ItemValues(items)
  {
    if i > 0 { TextInItem(items[1..], i - 1, text); }
  }

  lemma {:induction false} TextInEntry(entries: seq<Entry>, i: nat, text: string)
    requires i < |entries| && (text == entries[i].key || text in Values(entries[i].value))
    ensures text in EntryValues(entries)
  {
    if i > 0 { TextInEntry(entries[1..], i - 1, text); }
  }

  lemma {:induction false} TextPath(j: Json, text: string) returns (path: seq<nat>)
    requires text in Values(j)
    ensures TextAt(j, path, text)
    decreases j, 1
  {
    match j
    case Obj(entries) => path := EntryTextPath(entries, text);
    case Arr(items) => path := ItemTextPath(items, text);
    case _ => path := [];
  }

  lemma {:induction false} ItemTextPath(items: seq<Json>, text: string) returns (path: seq<nat>)
    requires text in ItemValues(items)
    ensures TextAt(Arr(items), path, text)
    decreases items, 0
  {
    if text in Values(items[0]) {
      var rest := TextPath(items[0], text);
      path := [0] + rest;
      assert path[1..] == rest;
    } else {
      var later := ItemTextPath(items[1..], text);
      path := [later[0] + 1] + later[1..];
      assert path[1..] == later[1..];
    }
  }

  lemma {:induction false} EntryTextPath(entries: seq<Entry>, text: string) returns (path: seq<nat>)
    requires text in EntryValues(entries)
    ensures TextAt(Obj(entries), path, text)
    decreases entries, 0
  {
    if text == entries[0].key {
      path := [0];
    } else if text in Values(entries[0].value) {
      var rest := TextPath(entries[0].value, text);
      path := [0] + rest;
      assert path[1..] == rest;
    } else {
      var later := EntryTextPath(entries[1..], text);
      path := [later[0] + 1] + later[1..];
      assert path[1..] == later[1..];
    }
  }

  ghost predicate HasText(j: Json, text: string) {
    exists path: seq<nat> :: TextAt(j, path, text)
  }

  /** The text search looks at exactly the keys and scalars anywhere in the tree. */
  lemma ContainsExactly(j: Json, needle: string)
    ensures TreeContains(j, needle) <==> exists t :: HasText(j, t) && Contains(t, needle)
    ensures TreeContainsAnyCase(j, needle) <==> exists t :: HasText(j, t) && Contains(Lower(t), Lower(needle))
  {
    hide Values, TextAt, Contains, Lower;
    forall t ensures t in Values(j) <==> HasText(j, t) {
      if t in Values(j) { var path := TextPath(j, t); }
      if HasText(j, t) {
        var path: seq<nat> :| TextAt(j, path, t);
        TextFound(j, path, t);
      }
    }
  }

  // ---- Searching finds what the text search finds ---------------------------

  /** `s` occurs in `t` as a piece. */
  ghost predicate Piece(s: seq<string>, t: seq<string>) { exists a, b :: t == a + s + b }

  /** What is found lies in the tree under a key that matches: its key and all its
      values occur in the tree's values, next to each other and in order. */
  lemma {:induction false} FoundBelow(j: Json, key: string) returns (k: string)
    requires Find(j, key) != Null
    ensures Lower(k) == Lower(key) && Piece([k] + Values(Find(j, key)), Values(j))
    decreases j, 1
  {
    match j
    case Obj(entries) =>
      match DirectMatch(entries, key) {
        case Some(v) => k := DirectBelow(entries, key);
        case None => k := FoundInEntries(entries, key);
      }
    case Arr(items) => k := FoundInItems(items, key);
  }

  lemma PieceLater(s: seq<string>, t: seq<string>, before: seq<string>, after: seq<string>)
    requires Piece(s, t)
    ensures Piece(s, before + t + after)
  {
    var a, b :| t == a + s + b;
    assert before + t + after == (before + a) + s + (b + after);
  }

  lemma {:induction false} DirectBelow(entries: seq<Entry>, key: string) returns (k: string)
    requires DirectMatch(entries, key).Some?
    ensures Lower(k) == Lower(key) && Piece([k] + Values(DirectMatch(entries, key).value), EntryValues(entries))
    decreases entries, 0
  {
    var Entry(k0, v0) := entries[0];
    if Lower(k0) == Lower(key) {
      k := k0;
      assert EntryValues(entries) == [] + ([k] + Values(v0)) + EntryValues(entries[1..]);
    } else {
      k := DirectBelow(entries[1..], key);
      PieceLater([k] + Values(DirectMatch(entries, key).value), EntryValues(entries[1..]), [k0] + Values(v0), []);
      assert [k0] + Values(v0) + EntryValues(entries[1..]) + [] == EntryValues(entries);
    }
  }

  lemma {:induction false} FoundInEntries(entries: seq<Entry>, key: string) returns (k: string)
    requires FindInEntries(entries, key) != Null
    ensures Lower(k) == Lower(key) && Piece([k] + Values(FindInEntries(entries, key)), EntryValues(entries))
    decreases entries, 0
  {
    var Entry(k0, v0) := entries[0];
    var rest := EntryValues(entries[1..]);
    if Find(v0, key) != Null {
      k := FoundBelow(v0, key);
      hide Values, Find, Piece;
      PieceLater([k] + Values(FindInEntries(entries, key)), Values(v0), [k0], rest);
    } else {
      k := FoundInEntries(entries[1..], key);
      hide Values, Find, Piece;
      PieceLater([k] + Values(FindInEntries(entries, key)), rest, [k0] + Values(v0), []);
      assert [k0] + Values(v0) + rest + [] == EntryValues(entries);
    }
  }

  lemma PieceIn(s: seq<string>, head: seq<string>, rest: seq<string>)
    ensures Piece(s, head) ==> Piece(s, head + rest)
    ensures Piece(s, rest) ==> Piece(s, head + rest)
  {
    hide Piece;
    if Piece(s, head) {
      PieceLater(s, head, [], rest);
      assert [] + head + rest == head + rest;
    }
    if Piece(s, rest) {
      PieceLater(s, rest, head, []);
      assert head + rest + [] == head + rest;
    }
  }

  lemma {:induction false} FoundInItems(items: seq<Json>, key: string) returns (k: string)
    requires FindInItems(items, key) != Null
    ensures Lower(k) == Lower(key) && Piece([k] + Values(FindInItems(items, key)), ItemValues(items))
    decreases items, 0
  {
    hide Values, Find, Piece, Lower;
    if Find(items[0], key) != Null {
      k := FoundBelow(items[0], key);
    } else {
      k := FoundInItems(items[1..], key);
    }
    PieceIn([k] + Values(FindInItems(items, key)), Values(items[0]), ItemValues(items[1..]));
  }

  /** So a text or number found under a key is found by searching the tree for
      it, and so is the key in any case. */
  lemma FoundIsContained(j: Json, key: string)
    requires Find(j, key) != Null
    ensures TreeContainsAnyCase(j, key)
    ensures Find(j, key).Str? || Find(j, key).Num? ==> TreeContains(j, Find(j, key).text)
  {
    var k := FoundBelow(j, key);
    var v := Find(j, key);
    hide Find, Contains;
    var a, b :| Values(j) == a + ([k] + Values(v)) + b;
    assert Values(j)[|a|] == k;
    ContainsSelf(Lower(key));
    if v.Str? || v.Num? {
      assert Values(v) == [v.text] && Values(j)[|a| + 1] == v.text;
      ContainsSelf(v.text);
    }
  }

  // ---- Every live peer list -------------------------------------------------

  /** Following these positions down the tree ends at a matching key that holds
      this list. */
  predicate PeersAt(j: Json, path: seq<nat>, peers: seq<Json>)
    decreases |path|
  {
    path != [] &&
    match j
    case Obj(entries) =>
      path[0] < |entries| &&
      var e := entries[path[0]];
      if |path| == 1 then Lower(e.key) in {"livepeerlist", "livepeers"} && e.value == Arr(peers) else PeersAt(e.value, path[1..], peers)
    case Arr(items) => path[0] < |items| && PeersAt(items[path[0]], path[1..], peers)
    case _ => false
  }

  lemma {:induction false} PeersFound(j: Json, path: seq<nat>, peers: seq<Json>)
    requires PeersAt(j, path, peers)
    ensures peers in LivePeerLists(j)
    decreases j
  {
    var i := path[0];
    match j
    case Obj(entries) =>
      if |path| > 1 { PeersFound(entries[i].value, path[1..], peers); }
      PeersInEntry(entries, i, peers);
    case Arr(items) =>
      PeersFound(items[i], path[1..], peers);
      PeersInItem(items, i, peers);
  }

  lemma {:induction false} PeersInItem(items: seq<Json>, i: nat, peers: seq<Json>)
    requires i < |items| && peers in LivePeerLists(items[i])
    ensures peers in PeersInItems(items)
  {
    if i > 0 { PeersInItem(items[1..], i - 1, peers); }
  }

  lemma {:induction false} PeersInEntry(entries: seq<Entry>, i: nat, peers: seq<Json>)
    requires i < |entries|
    requires peers in LivePeerLists(entries[i].value) || (IsPeerKey(entries[i].key) && entries[i].value == Arr(peers))
    ensures peers in PeersInEntries(entries)
  {
    if i > 0 { PeersInEntry(entries[1..], i - 1, peers); }
  }

  lemma {:induction false} PeersPath(j: Json, peers: seq<Json>) returns (path: seq<nat>)
    requires peers in LivePeerLists(j)
    ensures PeersAt(j, path, peers)
    decreases j, 1
  {
    match j
    case Obj(entries) =>
      var i := EntryWith(entries, peers);
      if IsPeerKey(entries[i].key) && entries[i].value == Arr(peers) {
        path := [i];
      } else {
        var rest := PeersPath(entries[i].value, peers);
        path := [i] + rest;
        assert path[1..] == rest;
      }
    case Arr(items) =>
      var i := ItemWith(items, peers);
      var rest := PeersPath(items[i], peers);
      path := [i] + rest;
      assert path[1..] == rest;
  }

  lemma {:induction false} ItemWith(items: seq<Json>, peers: seq<Json>) returns (i: nat)
    requires peers in PeersInItems(items)
    ensures i < |items| && peers in LivePeerLists(items[i])
  {
    if peers in LivePeerLists(items[0]) {
      i := 0;
    } else {
      i := ItemWith(items[1..], peers);
      i := i + 1;
    }
  }

  lemma {:induction false} EntryWith(entries: seq<Entry>, peers: seq<Json>) returns (i: nat)
    requires peers in PeersInEntries(entries)
    ensures i < |entries|
    ensures peers in LivePeerLists(entries[i].value) || (IsPeerKey(entries[i].key) && entries[i].value == Arr(peers))
  {
    var e := entries[0];
    if peers in LivePeerLists(e.value) || (IsPeerKey(e.key) && e.value == Arr(peers)) {
      i := 0;
    } else {
      i := EntryWith(entries[1..], peers);
      i := i + 1;
    }
  }

  ghost predicate InTree(j: Json, peers: seq<Json>) {
    exists path: seq<nat> :: PeersAt(j, path, peers)
  }

  /** The generator yields exactly the lists that stand under a matching key
      anywhere in the tree. */
  lemma PeerListsExactly(j: Json, peers: seq<Json>)
    ensures peers in LivePeerLists(j) <==> InTree(j, peers)
  {
    hide LivePeerLists, PeersAt;
    if peers in LivePeerLists(j) { var path := PeersPath(j, peers); }
    if InTree(j, peers) {
      var path: seq<nat> :| PeersAt(j, path, peers);
      PeersFound(j, path, peers);
    }
  }

  /** `mka_has_live_peers` */
  predicate HasLivePeers(j: Json) {
    (exists l | l in LivePeerLists(j) :: l != [])
    || (TreeContains(j, "Live peer list:") && !TreeContains(j, "Live peer list: []"))
  }

  /** For every tree: there are live peers exactly when a non-empty peer list
      stands under a matching key anywhere, or some text in the tree introduces a
      list of live peers and none introduces an empty one. */
  lemma LivePeersExactly(j: Json)
    ensures HasLivePeers(j) <==>
            (exists peers :: peers != [] && InTree(j, peers)) ||
            ((exists v :: v in Values(j) && Contains(v, "Live peer list:")) &&
             forall v | v in Values(j) :: !Contains(v, "Live peer list: []"))
  {
    TextForm(j);
    hide TreeContains, InTree, LivePeerLists, Contains;
    forall peers: seq<Json> ensures peers in LivePeerLists(j) <==> InTree(j, peers) {
      PeerListsExactly(j, peers);
    }
    if l :| l in LivePeerLists(j) && l != [] { assert InTree(j, l); }
  }

  lemma TextForm(j: Json)
    ensures TreeContains(j, "Live peer list:") <==> exists v :: v in Values(j) && Contains(v, "Live peer list:")
    ensures TreeContains(j, "Live peer list: []") <==> exists v :: v in Values(j) && Contains(v, "Live peer list: []")
  {
    hide Contains;
  }
}
