/** The KME peer scanner (docker/kme/scanner.py) as one thread sees it: a round
    clears the list, collects the replies of the peers and publishes them. */
module KmeScanner {
  import opened Text

  /** The fields of a KME status record that the scanner uses. */
  datatype Status = Status(kmeId: string, saeId: string)

  /** The outcome of one `requests.get`: a record, or an exception that is printed. */
  datatype Fetch = Reply(status: Status) | Failed

  datatype Message = Silent | LostAll | NewDomain(domain: seq<Status>)

  /** The records of the replies that arrived, in the order of the requests. */
  function Successes(outcomes: seq<Fetch>): (l: seq<Status>)
    ensures |l| <= |outcomes|
  {
    if outcomes == [] then []
    else
      var last := |outcomes| - 1;
      Successes(outcomes[..last]) + (if outcomes[last].Reply? then [outcomes[last].status] else [])
  }

  lemma {:induction false} SuccessOrigin(outcomes: seq<Fetch>, d: Status)
    ensures d in Successes(outcomes) <==> Reply(d) in outcomes
  {
    if outcomes != [] {
      var last := |outcomes| - 1;
      SuccessOrigin(outcomes[..last], d);
      assert outcomes == outcomes[..last] + [outcomes[last]];
    }
  }

  lemma {:induction false} SuccessesConcat(a: seq<Fetch>, b: seq<Fetch>)
    ensures Successes(a + b) == Successes(a) + Successes(b)
  {
    if b == [] {
      assert a + b == a;
    } else {
      SuccessesConcat(a, b[..|b| - 1]);
      assert (a + b)[..|a + b| - 1] == a + b[..|b| - 1];
    }
  }

  /** In the order of the requests: each reply stands behind those before it. */
  lemma SuccessAt(outcomes: seq<Fetch>, k: nat)
    requires k < |outcomes| && outcomes[k].Reply?
    ensures var n := |Successes(outcomes[..k])|; n < |Successes(outcomes)| && Successes(outcomes)[n] == outcomes[k].status
  {
    var a, b := outcomes[..k], outcomes[k + 1..];
    assert outcomes == a + [outcomes[k]] + b;
    SuccessesConcat(a + [outcomes[k]], b);
    SuccessesConcat(a, [outcomes[k]]);
    assert [outcomes[k]][..0] == [];
    assert Successes([outcomes[k]]) == Successes([]) + [outcomes[k].status];
  }

  /** And there is nothing else in the list. */
  lemma {:induction false} SuccessCount(outcomes: seq<Fetch>)
    ensures |Successes(outcomes)| == |set k | 0 <= k < |outcomes| && outcomes[k].Reply?|
  {
    if outcomes != [] {
      var last := |outcomes| - 1;
      SuccessCount(outcomes[..last]);
      var before := set k | 0 <= k < last && outcomes[..last][k].Reply?;
      var all := set k | 0 <= k < |outcomes| && outcomes[k].Reply?;
      assert all == before + (if outcomes[last].Reply? then {last} else {});
    }
  }

  function Ids(l: seq<Status>): (ids: seq<string>)
    ensures |ids| == |l| && forall i | 0 <= i < |l| :: ids[i] == l[i].kmeId
  {
    seq(|l|, i requires 0 <= i < |l| => l[i].kmeId)
  }

  function ToSet(s: seq<string>): set<string> {
    set x | x in s
  }

  /** The message printed when `list` replaces the list whose IDs were `prev`. */
  function Announce(prev: seq<string>, list: seq<Status>): Message {
    if |list| == 0 && |prev| > 0 then LostAll
    else if |list| != 0 && |ToSet(Ids(list) + prev)| != |prev| then NewDomain(list)
    else Silent
  }

  /** The list once `rounds` are over, from the list before them. */
  function ListAfter(initial: seq<Status>, rounds: seq<seq<Fetch>>): seq<Status> {
    if rounds == [] then initial else Successes(rounds[|rounds| - 1])
  }

  /** One message a round: each compares a round with the one before it. */
  function Announcements(initial: seq<Status>, rounds: seq<seq<Fetch>>): seq<Message> {
    if rounds == [] then []
    else
      var init := rounds[..|rounds| - 1];
      Announcements(initial, init) + [Announce(Ids(ListAfter(initial, init)), ListAfter(initial, rounds))]
  }

  class Scanner {
    var kmeList: seq<Status>
    // The messages printed so far.
    var printed: seq<Message>

    constructor ()
      ensures kmeList == [] && printed == []
    {
      kmeList := [];
      printed := [];
    }

    /** One pass of the loop of `start`; `outcomes` is what the network answers
        for each entry of OTHER_KMES. */
    method Round(outcomes: seq<Fetch>)
      modifies this
      ensures kmeList == Successes(outcomes)
      ensures printed == old(printed) + [Announce(Ids(old(kmeList)), Successes(outcomes))]
    {
      var oldIds := Ids(kmeList);
      kmeList := [];
      var fetched: seq<Status> := [];
      var k := 0;
      while k < |outcomes|
        invariant 0 <= k <= |outcomes|
        invariant fetched == Successes(outcomes[..k])
        invariant kmeList == [] && printed == old(printed)
      {
        assert outcomes[..k + 1][..k] == outcomes[..k];
        if outcomes[k].Reply? {
          fetched := fetched + [outcomes[k].status];
        }
        k := k + 1;
      }
      assert outcomes[..k] == outcomes;
      kmeList := kmeList + fetched;
      var newIds := ToSet(Ids(kmeList) + oldIds);
      var message := Silent;
      if |kmeList| == 0 && |oldIds| > 0 {
        message := LostAll;
      } else if |kmeList| != 0 && |newIds| != |oldIds| {
        message := NewDomain(kmeList);
      }
      printed := printed + [message];
    }

    /** The whole loop of `start`, round after round until it is stopped. */
    method Start(rounds: seq<seq<Fetch>>)
      modifies this
      ensures kmeList == ListAfter(old(kmeList), rounds)
      ensures printed == old(printed) + Announcements(old(kmeList), rounds)
    {
      var r := 0;
      while r < |rounds|
        invariant 0 <= r <= |rounds|
        invariant kmeList == ListAfter(old(kmeList), rounds[..r])
        invariant printed == old(printed) + Announcements(old(kmeList), rounds[..r])
      {
        Round(rounds[r]);
        assert rounds[..r + 1][..r] == rounds[..r];
        r := r + 1;
      }
      assert rounds[..r] == rounds;
    }

    /** `find_kme`: the KME's own identity, or the first record for the SAE. */
    method FindKme(ownSae: string, ownKme: string, saeId: string) returns (found: Option<Status>)
      ensures found == Lookup(Status(ownKme, ownSae), kmeList, saeId)
    {
      if ownSae == saeId {
        return Some(Status(ownKme, ownSae));
      }
      var i := 0;
      while i < |kmeList|
        invariant 0 <= i <= |kmeList|
        invariant FirstFor(kmeList, saeId) == FirstFor(kmeList[i..], saeId)
      {
        if kmeList[i].saeId == saeId {
          return Some(kmeList[i]);
        }
        assert kmeList[i..][1..] == kmeList[i + 1..];
        i := i + 1;
      }
      return None;
    }
  }

  function FirstFor(list: seq<Status>, saeId: string): Option<Status> {
    if list == [] then None
    else if list[0].saeId == saeId then Some(list[0])
    else FirstFor(list[1..], saeId)
  }

  function Lookup(own: Status, list: seq<Status>, saeId: string): Option<Status> {
    if own.saeId == saeId then Some(own) else FirstFor(list, saeId)
  }

  // ---- What the announcements mean ------------------------------------------

  predicate Distinct(s: seq<string>) {
    forall i, j | 0 <= i < j < |s| :: s[i] != s[j]
  }

  /** The IDs of `list` that `prev` does not contain. */
  function NewIds(prev: seq<string>, list: seq<Status>): set<string> {
    ToSet(Ids(list)) - ToSet(prev)
  }

  /** How many entries of `s` repeat an earlier one. */
  function Repeats(s: seq<string>): int { |s| - |ToSet(s)| }

  lemma {:induction false} SetSize(s: seq<string>)
    ensures |ToSet(s)| <= |s|
    ensures Distinct(s) <==> |ToSet(s)| == |s|
  {
    if s != [] {
      var init := s[..|s| - 1];
      var x := s[|s| - 1];
      SetSize(init);
      assert ToSet(s) == ToSet(init) + {x};
      if x in init {
        var i :| 0 <= i < |init| && init[i] == x;
        assert s[i] == s[|s| - 1];
        assert ToSet(s) == ToSet(init);
      } else {
        assert |ToSet(s)| == |ToSet(init)| + 1;
        if Distinct(init) {
          forall i, j | 0 <= i < j < |s| ensures s[i] != s[j] {
            if j == |s| - 1 { assert init[i] == s[i]; } else { assert init[i] == s[i] && init[j] == s[j]; }
          }
        } else {
          var i, j :| 0 <= i < j < |init| && init[i] == init[j];
          assert s[i] == s[j];
        }
      }
    }
  }

  lemma UnionSize(prev: seq<string>, list: seq<Status>)
    ensures |ToSet(Ids(list) + prev)| == |ToSet(prev)| + |NewIds(prev, list)|
  {
    assert ToSet(Ids(list) + prev) == ToSet(prev) + NewIds(prev, list);
  }

  /** The code compares the size of a set with the length of a list. In general
      "new domain" is printed iff the number of new IDs differs from the number
      of repeated entries of the old list. */
  lemma NewDomainExactly(prev: seq<string>, list: seq<Status>)
    ensures Announce(prev, list).NewDomain? <==> list != [] && |NewIds(prev, list)| != Repeats(prev)
  {
    UnionSize(prev, list);
  }

  /** What is printed in every case: all KMEs lost, the new list, or nothing. */
  lemma AnnounceExactly(prev: seq<string>, list: seq<Status>)
    ensures Announce(prev, list) == LostAll <==> list == [] && prev != []
    ensures Announce(prev, list) == NewDomain(list) <==> list != [] && |NewIds(prev, list)| != Repeats(prev)
    ensures Announce(prev, list) in {LostAll, NewDomain(list), Silent}
  {
    UnionSize(prev, list);
  }

  /** With distinct old IDs, "new domain" means that some ID is new. */
  lemma NewDomainDistinct(prev: seq<string>, list: seq<Status>)
    requires Distinct(prev)
    ensures Announce(prev, list).NewDomain? <==> exists x :: x in Ids(list) && x !in prev
  {
    UnionSize(prev, list);
    SetSize(prev);
    if x :| x in Ids(list) && x !in prev {
      assert x in NewIds(prev, list);
    } else {
      assert NewIds(prev, list) == {};
    }
  }

  /** "New domain" is printed iff some replying ID is new. */
  ghost predicate MeansNew(prev: seq<string>, list: seq<Status>) {
    Announce(prev, list).NewDomain? <==> exists x :: x in Ids(list) && x !in prev
  }

  /** With repeated old IDs, the first of them alone passes for a new domain. */
  lemma RepeatMisleads(prev: seq<string>)
    requires !Distinct(prev)
    ensures !MeansNew(prev, [Status(prev[0], "")])
  {
    var list := [Status(prev[0], "")];
    SetSize(prev);
    NewDomainExactly(prev, list);
    assert Ids(list) == [prev[0]];
    assert NewIds(prev, list) == {};
  }

  /** It means that for every new list exactly when the old IDs are distinct. */
  lemma NewDomainMeansNewExactly(prev: seq<string>)
    ensures (forall list :: MeansNew(prev, list)) <==> Distinct(prev)
  {
    if Distinct(prev) {
      forall list ensures MeansNew(prev, list) { NewDomainDistinct(prev, list); }
    } else {
      RepeatMisleads(prev);
    }
  }

  /** And a repeat can hide a newcomer: as many new IDs as repeats are silent. */
  lemma NewcomersHidden(prev: seq<string>, list: seq<Status>)
    requires |NewIds(prev, list)| == Repeats(prev)
    ensures !Announce(prev, list).NewDomain?
  {
    NewDomainExactly(prev, list);
  }

  lemma {:induction false} LookupOrigin(own: Status, list: seq<Status>, saeId: string)
    ensures var f := Lookup(own, list, saeId);
            (f.Some? ==> f.value.saeId == saeId && (f.value == own || f.value in list)) &&
            (f.None? <==> own.saeId != saeId && forall i | 0 <= i < |list| :: list[i].saeId != saeId)
  {
    if list != [] {
      LookupOrigin(own, list[1..], saeId);
      assert list == [list[0]] + list[1..];
    }
  }
  /** Record `i` is the first for the SAE. */
  predicate FirstAt(list: seq<Status>, saeId: string, i: nat) {
    i < |list| && list[i].saeId == saeId && forall n | 0 <= n < i :: list[n].saeId != saeId
  }

  lemma {:induction false} FirstForAt(list: seq<Status>, saeId: string, i: nat)
    requires FirstAt(list, saeId, i)
    ensures FirstFor(list, saeId) == Some(list[i])
  {
    if i > 0 {
      assert list[0].saeId != saeId && list[1..][i - 1] == list[i];
      assert forall n | 0 <= n < i - 1 :: list[1..][n] == list[n + 1];
      FirstForAt(list[1..], saeId, i - 1);
    }
  }

  lemma {:induction false} FirstForNone(list: seq<Status>, saeId: string)
    requires forall i | 0 <= i < |list| :: list[i].saeId != saeId
    ensures FirstFor(list, saeId) == None
  {
    if list != [] { FirstForNone(list[1..], saeId); }
  }

  /** The KME's own identity comes first, and then the first record for the SAE. */
  lemma LookupExactly(own: Status, list: seq<Status>, saeId: string)
    ensures own.saeId == saeId ==> Lookup(own, list, saeId) == Some(own)
    ensures own.saeId != saeId ==> forall i: nat | FirstAt(list, saeId, i) :: Lookup(own, list, saeId) == Some(list[i])
    ensures own.saeId != saeId && (forall i | 0 <= i < |list| :: list[i].saeId != saeId) ==> Lookup(own, list, saeId) == None
  {
    hide FirstFor, FirstAt;
    forall i: nat | FirstAt(list, saeId, i) ensures i < |list| && FirstFor(list, saeId) == Some(list[i]) {
      FirstInList(list, saeId, i);
      FirstForAt(list, saeId, i);
    }
    if forall i | 0 <= i < |list| :: list[i].saeId != saeId { FirstForNone(list, saeId); }
  }

  lemma FirstInList(list: seq<Status>, saeId: string, i: nat)
    requires FirstAt(list, saeId, i)
    ensures i < |list|
  {
  }
}
