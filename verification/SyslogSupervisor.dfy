/** The readiness supervisor of the syslog container (docker/syslog/entrypoint.sh).
    What the clock, `kill -0` and the health check show is given: one list per
    start of syslog-ng.  When a list runs out, the deadline has passed (while
    waiting) or the process has ended (while watching). */
module SyslogSupervisor {

  /** One turn of the waiting loop: past the deadline, or the process is gone, or
      it is alive and the health check gives this answer. */
  datatype Round = Deadline | Dead | Probe(ok: bool)

  /** One turn of the watching loop. */
  datatype Tick = Gone | Check(ok: bool)

  /** One call of `start_syslog`: whether the network came up, and what the
      waiting and then the watching see. */
  datatype Start = Start(network: bool, rounds: seq<Round>, ticks: seq<Tick>)

  type Pid = nat

  datatype Event =
    | Started(pid: Pid)
    | Seen(pid: Pid, round: Round)
    | Ready(pid: Pid)
    | Recovered(pid: Pid)
    | Restarting
    | Failed(attempt: int)

  // ---- Waiting for a streak -------------------------------------------------

  /** The length of the run of successes that a list of rounds ends in. */
  function Trailing(rs: seq<Round>): (n: nat)
    ensures n <= |rs|
  {
    if rs != [] && rs[|rs| - 1] == Probe(true) then 1 + Trailing(rs[..|rs| - 1]) else 0
  }

  /** It is the longest such run. */
  lemma {:induction false} TrailingRun(rs: seq<Round>)
    ensures forall j | |rs| - Trailing(rs) <= j < |rs| :: rs[j] == Probe(true)
    ensures Trailing(rs) < |rs| ==> rs[|rs| - 1 - Trailing(rs)] != Probe(true)
  {
    if rs != [] && rs[|rs| - 1] == Probe(true) {
      var init := rs[..|rs| - 1];
      TrailingRun(init);
      assert forall j | 0 <= j < |init| :: init[j] == rs[j];
    }
  }

  /** After these rounds, and no earlier, the process has been seen alive and
      healthy often enough in a row. */
  ghost predicate ReadyAfter(rs: seq<Round>, need: int, i: nat) {
    && i <= |rs| && (forall j | 0 <= j < i :: rs[j].Probe?) && Trailing(rs[..i]) >= 1 && Trailing(rs[..i]) >= need
    && forall j: nat | j < i :: Trailing(rs[..j]) < 1 || Trailing(rs[..j]) < need
  }

  lemma StreakStep(rs: seq<Round>, i: nat)
    requires i < |rs|
    ensures Trailing(rs[..i + 1]) == if rs[i] == Probe(true) then Trailing(rs[..i]) + 1 else 0
  {
    assert rs[..i + 1][..i] == rs[..i];
  }

  /** `wait_for_tls_streak`: whether the streak was reached, and how many rounds
      were looked at. */
  method WaitForTlsStreak(rs: seq<Round>, need: int) returns (ready: bool, used: nat)
    ensures used <= |rs| && (ready ==> ReadyAfter(rs, need, used))
    ensures !ready ==> forall i :: !ReadyAfter(rs, need, i)
    ensures !ready ==> used == |rs| || rs[used] == Deadline || (used > 0 && rs[used - 1] == Dead)
    ensures forall j | 0 <= j < used - 1 :: rs[j].Probe?
    ensures (ready, used) == Wait(rs, need)
  {
    hide Trailing;
    var streak := 0;
    used := 0;
    assert Trailing(rs[..0]) == 0;
    while used < |rs| && rs[used] != Deadline
      invariant used <= |rs| && streak == Trailing(rs[..used])
      invariant forall j | 0 <= j < used :: rs[j].Probe?
      invariant forall j: nat | j <= used :: Trailing(rs[..j]) < 1 || Trailing(rs[..j]) < need
      invariant Wait(rs, need) == WaitFrom(rs, need, used)
    {
      StreakStep(rs, used);
      if rs[used] == Dead {
        return false, used + 1;
      }
      if rs[used].ok {
        streak := streak + 1;
        if streak >= need {
          return true, used + 1;
        }
      } else {
        streak := 0;
      }
      used := used + 1;
    }
    return false, used;
  }

  function WaitFrom(rs: seq<Round>, need: int, i: nat): (r: (bool, nat))
    requires i <= |rs|
    ensures i <= r.1 <= |rs|
    decreases |rs| - i
  {
    if i == |rs| || rs[i] == Deadline then (false, i)
    else if rs[i] == Dead then (false, i + 1)
    else
      var streak := Trailing(rs[..i + 1]);
      if rs[i].ok && streak >= need then (true, i + 1) else WaitFrom(rs, need, i + 1)
  }

  function Wait(rs: seq<Round>, need: int): (r: (bool, nat))
    ensures r.1 <= |rs|
  {
    WaitFrom(rs, need, 0)
  }

  // ---- The whole script -----------------------------------------------------

  function SeenLog(pid: Pid, rs: seq<Round>): (log: seq<Event>)
    ensures |log| == |rs| && forall i | 0 <= i < |log| :: log[i] == Seen(pid, rs[i])
  {
    seq(|rs|, i requires 0 <= i < |rs| => Seen(pid, rs[i]))
  }

  /** What starting and waiting leaves in the log. */
  function StartLog(pid: Pid, s: Start, need: int): seq<Event> {
    [Started(pid)] + SeenLog(pid, s.rounds[..Wait(s.rounds, need).1])
  }

  /** The watching ends with a failed check, rather than with the process. */
  function FailsCheck(ticks: seq<Tick>): bool {
    ticks != [] && ticks[0].Check? && (!ticks[0].ok || FailsCheck(ticks[1..]))
  }

  /** Check `i` fails, and all before it found the process alive and healthy. */
  predicate FailsAt(ticks: seq<Tick>, i: nat) {
    i < |ticks| && ticks[i] == Check(false) && forall j | 0 <= j < i :: ticks[j] == Check(true)
  }

  ghost predicate SomeCheckFails(ticks: seq<Tick>) { exists i: nat :: FailsAt(ticks, i) }

  lemma {:induction false} FailsCheckExactly(ticks: seq<Tick>)
    ensures FailsCheck(ticks) <==> SomeCheckFails(ticks)
  {
    if ticks != [] && ticks[0].Check? {
      var rest := ticks[1..];
      FailsCheckExactly(rest);
      if !ticks[0].ok { assert FailsAt(ticks, 0); }
      if i: nat :| ticks[0].ok && FailsAt(rest, i) { assert FailsAt(ticks, i + 1); }
      if i: nat :| i > 0 && FailsAt(ticks, i) { assert FailsAt(rest, i - 1); }
    }
  }

  datatype Outcome = Outcome(log: seq<Event>, exit: nat)

  function Prefixed(log: seq<Event>, o: Outcome): Outcome { Outcome(log + o.log, o.exit) }

  /** From a ready process on; `starts[0]` is its start.  Without a network the
      script ends there and then (`set -e`). */
  function Watch(starts: seq<Start>, pid: Pid, need: int): Outcome
    requires starts != []
  {
    if !FailsCheck(starts[0].ticks) then Outcome([], 0)
    else if |starts| == 1 || !starts[1].network then Outcome([Restarting], 1)
    else
      var log := [Restarting] + StartLog(pid + 1, starts[1], need);
      if Wait(starts[1].rounds, need).0 then Prefixed(log + [Recovered(pid + 1)], Watch(starts[1..], pid + 1, need))
      else Outcome(log, 0)
  }

  /** From the startup attempt with this number on. */
  function Script(starts: seq<Start>, pid: Pid, attempt: int, max: int, need: int): Outcome {
    if attempt > max then Outcome([], 1)
    else if starts == [] || !starts[0].network then Outcome([], 1)
    else
      var log := StartLog(pid, starts[0], need);
      if Wait(starts[0].rounds, need).0 then Prefixed(log + [Ready(pid)], Watch(starts, pid, need))
      else Prefixed(log + [Failed(attempt)], Script(starts[1..], pid + 1, attempt + 1, max, need))
  }

  class Supervisor {
    const need: int
    const max: int
    var starts: seq<Start>
    var pid: Pid
    var log: seq<Event>

    constructor (need: int, max: int, starts: seq<Start>)
      ensures this.need == need && this.max == max && this.starts == starts && pid == 0 && log == []
    {
      this.need, this.max, this.starts := need, max, starts;
      pid, log := 0, [];
    }

    /** Starts syslog-ng and waits for the streak. */
    method StartAndWait() returns (ready: bool)
      requires starts != []
      modifies this`log
      ensures log == old(log) + StartLog(pid, starts[0], need) && ready == Wait(starts[0].rounds, need).0
    {
      var used;
      ready, used := WaitForTlsStreak(starts[0].rounds, need);
      log := log + ([Started(pid)] + SeenLog(pid, starts[0].rounds[..used]));
    }

    method WatchTicks() returns (failed: bool)
      requires starts != []
      ensures failed == FailsCheck(starts[0].ticks)
      ensures failed <==> SomeCheckFails(starts[0].ticks)
    {
      hide FailsCheck;
      var ticks := starts[0].ticks;
      FailsCheckExactly(ticks);
      var i := 0;
      while i < |ticks| && ticks[i].Check?
        invariant i <= |ticks| && forall j | 0 <= j < i :: ticks[j] == Check(true)
      {
        if !ticks[i].ok {
          assert FailsAt(ticks, i);
          return true;
        }
        i := i + 1;
      }
      return false;
    }

    /** The inner loop. */
    method WatchLoop() returns (exit: nat)
      requires starts != []
      modifies this
      ensures Outcome(log, exit) == Prefixed(old(log), Watch(old(starts), old(pid), need))
    {
      ghost var total := Prefixed(log, Watch(starts, pid, need));
      while true
        invariant starts != [] && total == Prefixed(log, Watch(starts, pid, need))
        decreases |starts|
      {
        var failed := WatchTicks();
        if !failed {
          return 0;
        }
        log := log + [Restarting];
        if |starts| == 1 || !starts[1].network {
          return 1;
        }
        ghost var before := log[..|log| - 1];
        starts, pid := starts[1..], pid + 1;
        var ready := StartAndWait();
        assert log == before + ([Restarting] + StartLog(pid, starts[0], need));
        if !ready {
          return 0;
        }
        log := log + [Recovered(pid)];
        ConcatAssoc(before, [Restarting] + StartLog(pid, starts[0], need) + [Recovered(pid)], Watch(starts, pid, need).log);
        assert log == before + ([Restarting] + StartLog(pid, starts[0], need) + [Recovered(pid)]);
      }
    }

    /** The whole script, with the exit status. */
    method Run() returns (exit: nat)
      modifies this
      ensures Outcome(log, exit) == Prefixed(old(log), Script(old(starts), old(pid), 1, max, need))
    {
      ghost var total := Prefixed(log, Script(starts, pid, 1, max, need));
      var attempt := 1;
      while attempt <= max
        invariant total == Prefixed(log, Script(starts, pid, attempt, max, need))
        decreases max - attempt
      {
        if starts == [] || !starts[0].network {
          return 1;
        }
        ghost var before := log;
        var ready := StartAndWait();
        ghost var here := StartLog(pid, starts[0], need);
        if ready {
          log := log + [Ready(pid)];
          ConcatAssoc(before, here + [Ready(pid)], Watch(starts, pid, need).log);
          assert log == before + (here + [Ready(pid)]);
          exit := WatchLoop();
          return;
        }
        log := log + [Failed(attempt)];
        ConcatAssoc(before, here + [Failed(attempt)], Script(starts[1..], pid + 1, attempt + 1, max, need).log);
        assert log == before + (here + [Failed(attempt)]);
        starts, pid, attempt := starts[1..], pid + 1, attempt + 1;
      }
      return 1;
    }
  }

  lemma ConcatAssoc(a: seq<Event>, b: seq<Event>, c: seq<Event>)
    ensures a + (b + c) == (a + b) + c
  {
  }

  // ---- What every announcement rests on -------------------------------------

  function Streak(need: int): nat { if need < 1 then 1 else need }

  function Announced(e: Event): (pid: int)
    ensures pid >= 0 <==> e.Ready? || e.Recovered?
  {
    match e
    case Ready(p) => p
    case Recovered(p) => p
    case _ => -1
  }

  /** Since the start of this very process at `s` there were only rounds that saw
      it, and the last ones, as many as the streak asks for, all saw it alive
      and healthy. */
  ghost predicate Vouched(log: seq<Event>, need: int, i: nat, s: nat)
    requires i < |log| && Announced(log[i]) >= 0
  {
    && s + Streak(need) < i && log[s] == Started(Announced(log[i]))
    && (forall j | s < j < i :: log[j].Seen? && log[j].pid == Announced(log[i]))
    && (forall j | i - Streak(need) <= j < i :: log[j] == Seen(Announced(log[i]), Probe(true)))
  }

  ghost predicate AllVouched(log: seq<Event>, need: int) {
    forall i: nat | i < |log| && Announced(log[i]) >= 0 :: exists s: nat :: Vouched(log, need, i, s)
  }

  lemma VouchedConcat(a: seq<Event>, b: seq<Event>, need: int)
    requires AllVouched(a, need) && AllVouched(b, need)
    ensures AllVouched(a + b, need)
  {
    var c := a + b;
    forall i: nat | i < |c| && Announced(c[i]) >= 0 ensures exists s: nat :: Vouched(c, need, i, s) {
      if i < |a| {
        assert a[i] == c[i];
        var s: nat :| Vouched(a, need, i, s);
        assert Vouched(c, need, i, s);
      } else {
        assert b[i - |a|] == c[i];
        var s: nat :| Vouched(b, need, i - |a|, s);
        assert Vouched(c, need, i, |a| + s) by {
          assert forall j | |a| + s < j < i :: c[j] == b[j - |a|];
          assert forall j | i - Streak(need) <= j < i :: c[j] == b[j - |a|];
        }
      }
    }
  }

  /** A start whose wait succeeds vouches for the announcement after it. */
  lemma StartVouches(pid: Pid, s: Start, need: int, e: Event)
    requires Wait(s.rounds, need).0 && Announced(e) == pid
    ensures AllVouched(StartLog(pid, s, need) + [e], need)
  {
    var used := Wait(s.rounds, need).1;
    var rs := s.rounds[..used];
    WaitReady(s.rounds, need, 0);
    TrailingRun(rs);
    var log := StartLog(pid, s, need) + [e];
    assert |log| == used + 2;
    assert forall j | 0 < j <= used :: log[j] == Seen(pid, rs[j - 1]);
    assert Vouched(log, need, used + 1, 0);
    assert forall i: nat | i < |log| && Announced(log[i]) >= 0 :: i == used + 1;
  }

  lemma {:induction false} WaitReady(rs: seq<Round>, need: int, i: nat)
    requires i <= |rs| && WaitFrom(rs, need, i).0
    ensures var u := WaitFrom(rs, need, i).1; i < u && Trailing(rs[..u]) >= 1 && Trailing(rs[..u]) >= need
    decreases |rs| - i
  {
    var streak := Trailing(rs[..i + 1]);
    if !(rs[i].ok && streak >= need) { WaitReady(rs, need, i + 1); }
  }

  lemma QuietVouched(pid: Pid, s: Start, need: int, e: Event)
    requires Announced(e) < 0
    ensures AllVouched(StartLog(pid, s, need) + [e], need) && AllVouched(StartLog(pid, s, need), need)
  {
  }

  /** In every run each "ready" and each "recovered" follows a full streak of
      probes of the process it speaks of, which was the last one started. */
  lemma {:induction false} WatchVouched(starts: seq<Start>, pid: Pid, need: int)
    requires starts != []
    ensures AllVouched(Watch(starts, pid, need).log, need)
    decreases |starts|
  {
    hide Wait, StartLog, AllVouched;
    OneVouched(Restarting, need);
    if FailsCheck(starts[0].ticks) && |starts| > 1 && starts[1].network {
      var log := StartLog(pid + 1, starts[1], need);
      if Wait(starts[1].rounds, need).0 {
        var e := Recovered(pid + 1);
        WatchVouched(starts[1..], pid + 1, need);
        StartVouches(pid + 1, starts[1], need, e);
        VouchedConcat([Restarting], log + [e], need);
        assert [Restarting] + (log + [e]) == [Restarting] + log + [e];
        VouchedConcat([Restarting] + log + [e], Watch(starts[1..], pid + 1, need).log, need);
      } else {
        QuietVouched(pid + 1, starts[1], need, Restarting);
        VouchedConcat([Restarting], log, need);
      }
    } else {
      NoneVouched(need);
    }
  }

  lemma OneVouched(e: Event, need: int)
    requires Announced(e) < 0
    ensures AllVouched([e], need)
  {
  }

  lemma NoneVouched(need: int)
    ensures AllVouched([], need)
  {
  }

  lemma {:induction false} ScriptVouched(starts: seq<Start>, pid: Pid, attempt: int, max: int, need: int)
    ensures AllVouched(Script(starts, pid, attempt, max, need).log, need)
    decreases |starts|
  {
    hide Wait, StartLog, AllVouched, Watch;
    NoneVouched(need);
    if attempt <= max && starts != [] && starts[0].network {
      var log := StartLog(pid, starts[0], need);
      if Wait(starts[0].rounds, need).0 {
        StartVouches(pid, starts[0], need, Ready(pid));
        WatchVouched(starts, pid, need);
        VouchedConcat(log + [Ready(pid)], Watch(starts, pid, need).log, need);
      } else {
        QuietVouched(pid, starts[0], need, Failed(attempt));
        ScriptVouched(starts[1..], pid + 1, attempt + 1, max, need);
        VouchedConcat(log + [Failed(attempt)], Script(starts[1..], pid + 1, attempt + 1, max, need).log, need);
      }
    }
  }

  // ---- What a run shows of each process ---------------------------------------

  /** The processes that were started, in order. */
  function StartedPids(log: seq<Event>): seq<Pid> {
    if log == [] then []
    else
      var init := StartedPids(log[..|log| - 1]);
      match log[|log| - 1]
      case Started(p) => init + [p]
      case _ => init
  }

  /** The rounds that saw process `p`, in order. */
  function RoundsOf(log: seq<Event>, p: Pid): seq<Round> {
    if log == [] then []
    else
      var init := RoundsOf(log[..|log| - 1], p);
      match log[|log| - 1]
      case Seen(q, r) => if q == p then init + [r] else init
      case _ => init
  }

  lemma {:induction false} ShownConcat(a: seq<Event>, b: seq<Event>, p: Pid)
    ensures StartedPids(a + b) == StartedPids(a) + StartedPids(b)
    ensures RoundsOf(a + b, p) == RoundsOf(a, p) + RoundsOf(b, p)
  {
    if b == [] {
      assert a + b == a;
    } else {
      ShownConcat(a, b[..|b| - 1], p);
      assert (a + b)[..|a + b| - 1] == a + b[..|b| - 1];
    }
  }

  lemma {:induction false} SeenShown(pid: Pid, rs: seq<Round>, p: Pid)
    ensures StartedPids(SeenLog(pid, rs)) == []
    ensures RoundsOf(SeenLog(pid, rs), p) == if p == pid then rs else []
  {
    if rs != [] {
      var k := |rs| - 1;
      SeenShown(pid, rs[..k], p);
      assert SeenLog(pid, rs)[..k] == SeenLog(pid, rs[..k]);
      assert rs == rs[..k] + [rs[k]];
    }
  }

  lemma EventShown(e: Event, p: Pid)
    requires !e.Started? && !e.Seen?
    ensures StartedPids([e]) == [] && RoundsOf([e], p) == []
  {
    assert [e][..0] == [];
  }

  lemma OneStarted(pid: Pid, p: Pid)
    ensures StartedPids([Started(pid)]) == [pid] && RoundsOf([Started(pid)], p) == []
  {
    assert [Started(pid)][..0] == [];
    assert StartedPids([]) == [] && RoundsOf([], p) == [];
  }

  /** The rounds that waiting looks at. */
  function LookedAt(s: Start, need: int): seq<Round> { s.rounds[..Wait(s.rounds, need).1] }

  lemma StartShown(pid: Pid, s: Start, need: int, e: Event, p: Pid)
    requires !e.Started? && !e.Seen?
    ensures var log := StartLog(pid, s, need);
      && StartedPids(log + [e]) == [pid] == StartedPids([e] + log) == StartedPids(log)
      && var seen := if p == pid then LookedAt(s, need) else [];
         RoundsOf(log + [e], p) == seen == RoundsOf([e] + log, p) == RoundsOf(log, p)
  {
    hide Wait;
    SeenShown(pid, LookedAt(s, need), p);
    OneStarted(pid, p);
    hide StartedPids, RoundsOf;
    ShownConcat([Started(pid)], SeenLog(pid, LookedAt(s, need)), p);
    EventShown(e, p);
    ShownConcat(StartLog(pid, s, need), [e], p);
    ShownConcat([e], StartLog(pid, s, need), p);
  }

  /** The processes are numbered from `pid` on, one for each of the first starts,
      and each is shown with exactly the rounds that its start's waiting looked at. */
  ghost predicate Shows(log: seq<Event>, starts: seq<Start>, pid: Pid, need: int) {
    && |StartedPids(log)| <= |starts|
    && (forall k | 0 <= k < |StartedPids(log)| :: StartedPids(log)[k] == pid + k)
    && forall p: Pid :: RoundsOf(log, p) ==
         if pid <= p < pid + |StartedPids(log)| then LookedAt(starts[p - pid], need) else []
  }

  lemma NothingShown(starts: seq<Start>, pid: Pid, need: int)
    ensures Shows([], starts, pid, need)
  {
  }

  lemma ShowsNone(e: Event, starts: seq<Start>, pid: Pid, need: int)
    requires !e.Started? && !e.Seen?
    ensures Shows([e], starts, pid, need)
  {
    forall p: Pid ensures RoundsOf([e], p) == [] && StartedPids([e]) == [] { EventShown(e, p); }
  }

  lemma ShowsMore(log: seq<Event>, rest: seq<Event>, starts: seq<Start>, pid: Pid, need: int)
    requires starts != [] && StartedPids(log) == [pid] && Shows(rest, starts[1..], pid + 1, need)
    requires forall p: Pid :: RoundsOf(log, p) == if p == pid then LookedAt(starts[0], need) else []
    ensures Shows(log + rest, starts, pid, need)
  {
    hide StartedPids, RoundsOf, LookedAt;
    ShownConcat(log, rest, pid);
    var n := |StartedPids(rest)|;
    assert |StartedPids(log + rest)| == n + 1;
    forall p: Pid
      ensures RoundsOf(log + rest, p) == if pid <= p < pid + n + 1 then LookedAt(starts[p - pid], need) else []
    {
      ShownConcat(log, rest, p);
      if pid < p < pid + n + 1 { assert starts[1..][p - (pid + 1)] == starts[p - pid]; }
    }
  }

  lemma ShowsStart(log: seq<Event>, e: Event, rest: seq<Event>, starts: seq<Start>, pid: Pid, need: int)
    requires starts != [] && !e.Started? && !e.Seen? && Shows(rest, starts[1..], pid + 1, need)
    requires log == StartLog(pid, starts[0], need) + [e] || log == [e] + StartLog(pid, starts[0], need)
    ensures Shows(log + rest, starts, pid, need)
  {
    hide StartedPids, RoundsOf, LookedAt, StartLog, Shows;
    forall p: Pid ensures RoundsOf(log, p) == if p == pid then LookedAt(starts[0], need) else [] {
      StartShown(pid, starts[0], need, e, p);
    }
    StartShown(pid, starts[0], need, e, pid);
    ShowsMore(log, rest, starts, pid, need);
  }

  /** Restarts number on. */
  lemma {:induction false} WatchShows(starts: seq<Start>, pid: Pid, need: int)
    requires starts != []
    ensures Shows(Watch(starts, pid, need).log, starts[1..], pid + 1, need)
    decreases |starts|
  {
    hide StartLog, Wait, FailsCheck, Shows;
    NothingShown(starts[1..], pid + 1, need);
    ShowsNone(Restarting, starts[1..], pid + 1, need);
    if FailsCheck(starts[0].ticks) && |starts| > 1 && starts[1].network {
      var rest := starts[1..];
      var log := StartLog(pid + 1, starts[1], need);
      NothingShown(rest[1..], pid + 2, need);
      if Wait(starts[1].rounds, need).0 {
        var more := Watch(rest, pid + 1, need).log;
        WatchShows(rest, pid + 1, need);
        ShowsStart(log + [Recovered(pid + 1)], Recovered(pid + 1), more, rest, pid + 1, need);
        ShowsAfter(Restarting, log + [Recovered(pid + 1)] + more, rest, pid + 1, need);
        assert [Restarting] + log + [Recovered(pid + 1)] + more == [Restarting] + (log + [Recovered(pid + 1)] + more);
      } else {
        ShowsStart([Restarting] + log, Restarting, [], rest, pid + 1, need);
        assert [Restarting] + log + [] == [Restarting] + log;
      }
    }
  }

  lemma ShowsAfter(e: Event, log: seq<Event>, starts: seq<Start>, pid: Pid, need: int)
    requires !e.Started? && !e.Seen? && Shows(log, starts, pid, need)
    ensures Shows([e] + log, starts, pid, need)
  {
    hide StartedPids, RoundsOf, LookedAt;
    EventShown(e, pid);
    ShownConcat([e], log, pid);
    assert StartedPids([e] + log) == StartedPids(log);
    forall p: Pid ensures RoundsOf([e] + log, p) == RoundsOf(log, p) {
      EventShown(e, p);
      ShownConcat([e], log, p);
    }
  }

  /** In every run the processes are numbered in the order of the starts, and each
      is seen in exactly the rounds up to the one that settles its waiting. */
  lemma {:induction false} ScriptShows(starts: seq<Start>, pid: Pid, attempt: int, max: int, need: int)
    ensures Shows(Script(starts, pid, attempt, max, need).log, starts, pid, need)
    decreases |starts|
  {
    hide StartLog, Wait, Shows, Watch;
    NothingShown(starts, pid, need);
    if attempt <= max && starts != [] && starts[0].network {
      var log := StartLog(pid, starts[0], need);
      if Wait(starts[0].rounds, need).0 {
        WatchShows(starts, pid, need);
        ShowsStart(log + [Ready(pid)], Ready(pid), Watch(starts, pid, need).log, starts, pid, need);
      } else {
        ScriptShows(starts[1..], pid + 1, attempt + 1, max, need);
        ShowsStart(log + [Failed(attempt)], Failed(attempt), Script(starts[1..], pid + 1, attempt + 1, max, need).log, starts, pid, need);
      }
    }
  }

  // ---- How a run ends -------------------------------------------------------

  /** The attempt numbers of the failed startups, in order. */
  function FailedNumbers(log: seq<Event>): seq<int> {
    if log == [] then []
    else
      var init := FailedNumbers(log[..|log| - 1]);
      match log[|log| - 1]
      case Failed(k) => init + [k]
      case _ => init
  }

  predicate Announces(log: seq<Event>) { exists e | e in log :: e.Ready? }

  lemma {:induction false} FailedConcat(a: seq<Event>, b: seq<Event>)
    ensures FailedNumbers(a + b) == FailedNumbers(a) + FailedNumbers(b)
  {
    if b == [] {
      assert a + b == a;
    } else {
      FailedConcat(a, b[..|b| - 1]);
      assert (a + b)[..|a + b| - 1] == a + b[..|b| - 1];
    }
  }

  lemma {:induction false} NoFailed(log: seq<Event>)
    requires forall e | e in log :: !e.Failed?
    ensures FailedNumbers(log) == []
  {
    if log != [] { NoFailed(log[..|log| - 1]); }
  }

  lemma StartQuiet(pid: Pid, s: Start, need: int)
    ensures forall e | e in StartLog(pid, s, need) :: e.Started? || e.Seen?
    ensures StartLog(pid, s, need) != []
  {
  }

  lemma {:induction false} WatchQuiet(starts: seq<Start>, pid: Pid, need: int)
    requires starts != []
    ensures var o := Watch(starts, pid, need);
      && (forall e | e in o.log :: !e.Failed? && !e.Ready?) && o.exit <= 1
      && (o.exit == 1 <==> o.log != [] && o.log[|o.log| - 1] == Restarting)
    decreases |starts|
  {
    hide Wait, StartLog;
    if FailsCheck(starts[0].ticks) && |starts| > 1 && starts[1].network {
      StartQuiet(pid + 1, starts[1], need);
      var log := [Restarting] + StartLog(pid + 1, starts[1], need);
      assert log[|log| - 1] in StartLog(pid + 1, starts[1], need);
      if Wait(starts[1].rounds, need).0 { WatchQuiet(starts[1..], pid + 1, need); }
    }
  }

  /** The startup that the script settles on: how many fail before it. */
  function FailuresBefore(starts: seq<Start>, attempt: int, max: int, need: int): (n: nat)
    ensures n <= |starts| && (attempt <= max + 1 ==> n <= max + 1 - attempt)
  {
    if attempt > max || starts == [] || !starts[0].network || Wait(starts[0].rounds, need).0 then 0
    else 1 + FailuresBefore(starts[1..], attempt + 1, max, need)
  }

  /** The attempt after those failures is made and succeeds. */
  predicate BecomesReady(starts: seq<Start>, attempt: int, max: int, need: int) {
    var n := FailuresBefore(starts, attempt, max, need);
    attempt + n <= max && n < |starts| && starts[n].network && Wait(starts[n].rounds, need).0
  }

  lemma ScriptReady(starts: seq<Start>, pid: Pid, attempt: int, max: int, need: int)
    requires attempt <= max && starts != [] && starts[0].network && Wait(starts[0].rounds, need).0
    ensures var o := Script(starts, pid, attempt, max, need);
      && FailedNumbers(o.log) == [] && Announces(o.log)
      && (o.exit == 0 <==> o.log[|o.log| - 1] != Restarting)
  {
    hide StartLog, Watch;
    var o := Script(starts, pid, attempt, max, need);
    var log := StartLog(pid, starts[0], need);
    var w := Watch(starts, pid, need);
    StartQuiet(pid, starts[0], need);
    NoFailed(log);
    WatchQuiet(starts, pid, need);
    NoFailed(w.log);
    FailedConcat(log, [Ready(pid)]);
    FailedConcat(log + [Ready(pid)], w.log);
    assert Ready(pid) in o.log;
    assert o.log[|o.log| - 1] == if w.log == [] then Ready(pid) else w.log[|w.log| - 1];
  }

  lemma ScriptFails(starts: seq<Start>, pid: Pid, attempt: int, max: int, need: int)
    requires attempt <= max && starts != [] && starts[0].network && !Wait(starts[0].rounds, need).0
    ensures var o := Script(starts, pid, attempt, max, need);
      var rest := Script(starts[1..], pid + 1, attempt + 1, max, need);
      && FailedNumbers(o.log) == [attempt] + FailedNumbers(rest.log) && o.exit == rest.exit
      && (Announces(o.log) <==> Announces(rest.log))
      && (rest.log != [] ==> o.log != [] && o.log[|o.log| - 1] == rest.log[|rest.log| - 1])
  {
    hide StartLog, Watch, Announces, FailedNumbers;
    var log := StartLog(pid, starts[0], need);
    var rest := Script(starts[1..], pid + 1, attempt + 1, max, need);
    StartQuiet(pid, starts[0], need);
    NoFailed(log);
    OneFailed(attempt);
    FailedConcat(log, [Failed(attempt)]);
    FailedConcat(log + [Failed(attempt)], rest.log);
    FailureStep(log, attempt, rest.log);
  }

  lemma OneFailed(k: int)
    ensures FailedNumbers([Failed(k)]) == [k]
  {
    assert [Failed(k)][..0] == [];
    assert FailedNumbers([]) == [];
  }

  /** Failed startups are numbered from one on and number at most MAX_ATTEMPTS.
      How a run ends can be read off its log; `ExitExactly` says it of the starts. */
  lemma {:induction false} ScriptEnds(starts: seq<Start>, pid: Pid, attempt: int, max: int, need: int)
    requires attempt <= max + 1
    ensures var o := Script(starts, pid, attempt, max, need); var failed := FailedNumbers(o.log);
      && |failed| == FailuresBefore(starts, attempt, max, need) <= max + 1 - attempt
      && (forall i | 0 <= i < |failed| :: failed[i] == attempt + i)
      && (Announces(o.log) <==> BecomesReady(starts, attempt, max, need))
      && (o.exit == 0 <==> Announces(o.log) && o.log[|o.log| - 1] != Restarting)
    decreases |starts|
  {
    hide StartLog, Watch, Wait;
    if attempt <= max && starts != [] && starts[0].network {
      if Wait(starts[0].rounds, need).0 {
        ScriptReady(starts, pid, attempt, max, need);
      } else {
        ScriptFails(starts, pid, attempt, max, need);
        ScriptEnds(starts[1..], pid + 1, attempt + 1, max, need);
        hide Script, FailedNumbers, Announces;
        assert Announces([]) == false by { NothingAnnounced(); }
      }
    }
  }

  lemma NothingAnnounced()
    ensures !Announces([])
  {
  }

  lemma FailureStep(log: seq<Event>, attempt: int, rest: seq<Event>)
    requires forall e | e in log :: e.Started? || e.Seen?
    ensures Announces(log + [Failed(attempt)] + rest) <==> Announces(rest)
    ensures rest != [] ==> (log + [Failed(attempt)] + rest)[|log| + |rest|] == rest[|rest| - 1]
  {
    var all := log + [Failed(attempt)] + rest;
    assert forall e :: e in all <==> e in log || e == Failed(attempt) || e in rest;
  }

  // ---- The exit status, from what happens -----------------------------------

  /** From a ready process on: each restart finds the network and recovers, until
      one finds no network. */
  ghost predicate NetworkLost(starts: seq<Start>, need: int)
    requires starts != []
  {
    SomeCheckFails(starts[0].ticks) &&
    (|starts| == 1 || !starts[1].network || (Wait(starts[1].rounds, need).0 && NetworkLost(starts[1..], need)))
  }

  /** Until one finds the network and does not become healthy. */
  ghost predicate RecoveryFails(starts: seq<Start>, need: int)
    requires starts != []
  {
    SomeCheckFails(starts[0].ticks) && |starts| > 1 && starts[1].network &&
    (!Wait(starts[1].rounds, need).0 || RecoveryFails(starts[1..], need))
  }

  /** Until the process ends between two checks. */
  ghost predicate ProcessEnds(starts: seq<Start>, need: int)
    requires starts != []
  {
    !SomeCheckFails(starts[0].ticks) ||
    (|starts| > 1 && starts[1].network && Wait(starts[1].rounds, need).0 && ProcessEnds(starts[1..], need))
  }

  /** How many restarts were announced and not answered by a recovery. */
  function Unanswered(log: seq<Event>): int {
    if log == [] then 0
    else Unanswered(log[..|log| - 1]) + match log[|log| - 1] { case Restarting => 1 case Recovered(_) => -1 case _ => 0 }
  }

  lemma {:induction false} UnansweredConcat(a: seq<Event>, b: seq<Event>)
    ensures Unanswered(a + b) == Unanswered(a) + Unanswered(b)
  {
    if b == [] {
      assert a + b == a;
    } else {
      UnansweredConcat(a, b[..|b| - 1]);
      assert (a + b)[..|a + b| - 1] == a + b[..|b| - 1];
    }
  }

  lemma {:induction false} UnansweredNone(log: seq<Event>)
    requires forall e | e in log :: !e.Restarting? && !e.Recovered?
    ensures Unanswered(log) == 0
  {
    if log != [] { UnansweredNone(log[..|log| - 1]); }
  }

  lemma UnansweredOne(e: Event)
    ensures Unanswered([e]) == match e { case Restarting => 1 case Recovered(_) => -1 case _ => 0 }
  {
    assert [e][..0] == [];
    assert Unanswered([]) == 0;
  }

  lemma UnansweredStart(pid: Pid, s: Start, need: int)
    ensures Unanswered(StartLog(pid, s, need)) == 0
  {
    hide StartLog;
    StartQuiet(pid, s, need);
    UnansweredNone(StartLog(pid, s, need));
  }

  /** A ready process ends in exactly one of these three ways; the exit status is
      1 exactly for a lost network, and the last restart goes unanswered exactly
      for a lost network and a failed recovery. */
  lemma {:induction false} WatchEnds(starts: seq<Start>, pid: Pid, need: int)
    requires starts != []
    ensures var o := Watch(starts, pid, need);
      && (o.exit == 0 <==> !NetworkLost(starts, need))
      && Unanswered(o.log) == (if ProcessEnds(starts, need) then 0 else 1)
    ensures ProcessEnds(starts, need) <==> !NetworkLost(starts, need) && !RecoveryFails(starts, need)
    ensures !(NetworkLost(starts, need) && RecoveryFails(starts, need))
    decreases |starts|
  {
    hide StartLog, Wait, FailsCheck, SomeCheckFails, Unanswered;
    FailsCheckExactly(starts[0].ticks);
    UnansweredOne(Restarting);
    UnansweredNone([]);
    if FailsCheck(starts[0].ticks) && |starts| > 1 && starts[1].network {
      var log := StartLog(pid + 1, starts[1], need);
      UnansweredStart(pid + 1, starts[1], need);
      UnansweredConcat([Restarting], log);
      if Wait(starts[1].rounds, need).0 {
        WatchEnds(starts[1..], pid + 1, need);
        UnansweredOne(Recovered(pid + 1));
        UnansweredConcat([Restarting] + log, [Recovered(pid + 1)]);
        UnansweredConcat([Restarting] + log + [Recovered(pid + 1)], Watch(starts[1..], pid + 1, need).log);
      }
    }
  }

  /** The exit status is 0 exactly when some startup attempt succeeds and after it
      no restart finds the network gone.  A recovery that fails is such a case: it
      leaves a restart unanswered, and still the status is 0. */
  lemma {:induction false} ExitExactly(starts: seq<Start>, pid: Pid, attempt: int, max: int, need: int)
    requires attempt <= max + 1
    ensures var o := Script(starts, pid, attempt, max, need);
      var ready := BecomesReady(starts, attempt, max, need);
      var from := starts[FailuresBefore(starts, attempt, max, need)..];
      && (o.exit == 0 <==> ready && !NetworkLost(from, need))
      && (ready && RecoveryFails(from, need) <==> o.exit == 0 && Unanswered(o.log) == 1)
    decreases |starts|
  {
    hide StartLog, Watch, Wait, NetworkLost, RecoveryFails, ProcessEnds, Unanswered;
    UnansweredNone([]);
    if attempt <= max && starts != [] && starts[0].network {
      var log := StartLog(pid, starts[0], need);
      UnansweredStart(pid, starts[0], need);
      if Wait(starts[0].rounds, need).0 {
        assert starts[0..] == starts;
        WatchEnds(starts, pid, need);
        UnansweredOne(Ready(pid));
        UnansweredConcat(log, [Ready(pid)]);
        UnansweredConcat(log + [Ready(pid)], Watch(starts, pid, need).log);
      } else {
        var n := FailuresBefore(starts[1..], attempt + 1, max, need);
        assert starts[1 + n..] == starts[1..][n..];
        ExitExactly(starts[1..], pid + 1, attempt + 1, max, need);
        UnansweredOne(Failed(attempt));
        UnansweredConcat(log, [Failed(attempt)]);
        UnansweredConcat(log + [Failed(attempt)], Script(starts[1..], pid + 1, attempt + 1, max, need).log);
      }
    }
  }

  /** For one: the listener is ready at once, fails its second check, and its
      successor dies.  The script reports success. */
  lemma FailedRecoveryExitsZero()
    ensures var starts := [Start(true, [Probe(true)], [Check(true), Check(false)]), Start(true, [Dead], [])];
      BecomesReady(starts, 1, 3, 1) && RecoveryFails(starts, 1) && Script(starts, 0, 1, 3, 1).exit == 0
  {
    var starts := [Start(true, [Probe(true)], [Check(true), Check(false)]), Start(true, [Dead], [])];
    assert FailsAt(starts[0].ticks, 1);
    assert [Probe(true)][..1] == [Probe(true)];
    assert Wait(starts[0].rounds, 1).0 && !Wait(starts[1].rounds, 1).0;
    assert starts[0..] == starts;
    ExitExactly(starts, 0, 1, 3, 1);
    WatchEnds(starts, 0, 1);
  }
}
