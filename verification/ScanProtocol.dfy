/** The scanners and status handlers of all KMEs as one interleaved system
    (docker/kme/scanner.py).  Two facts come from outside that file: every HTTP
    handler takes and releases the lock of its KME and only reads the list, and
    a status reply of a KME is that KME's own record. */
module ScanProtocol {
  import opened KmeScanner

  /** An entry of OTHER_KMES: a KME of the system, or some other URL. */
  datatype Target = Peer(node: nat) | Outside

  /** `holdLock` selects the variant that keeps the lock while it fetches. */
  datatype System = System(peers: seq<seq<Target>>, records: seq<Status>, holdLock: bool) {
    predicate Valid() {
      |records| == |peers| &&
      forall i, k | 0 <= i < |peers| && 0 <= k < |peers[i]| :: peers[i][k].Peer? ==> peers[i][k].node < |peers|
    }

    predicate Asks(i: nat, k: nat, j: nat) {
      i < |peers| && k < |peers[i]| && peers[i][k] == Peer(j)
    }
  }

  /** Progress of the one request a scanner has open. */
  datatype Wait = Queued | Serving | Answered(status: Status)

  datatype Phase =
    | WaitClear | Clearing
    | Fetching(k: nat) | Awaiting(k: nat, wait: Wait)
    | WaitPublish | Publishing
    | Sleeping | Stopped

  /** Who holds the lock of a KME: nobody, its scanner, the handler of the
      request of scanner `from`, or the handler of any other request. */
  datatype Holder = Free | ByScanner | ByRequest(from: nat) | ByOther

  /** `others` counts further requests queued at the lock; `log` holds the
      outcomes of the running round, `completed` those of the last one. */
  datatype Node = Node(phase: Phase, lock: Holder, others: nat, list: seq<Status>,
                       log: seq<Fetch>, completed: seq<Fetch>)

  type State = seq<Node>

  const FRESH := Node(WaitClear, Free, 0, [], [], [])

  function Init(sys: System): State {
    seq(|sys.peers|, i => FRESH)
  }

  // ---- Steps ----------------------------------------------------------------

  datatype Step =
    | AcquireClear(i: nat) | ClearList(i: nat)
    | Send(i: nat) | HandlerAcquire(i: nat) | HandlerReply(i: nat)
    | OutsideReply(i: nat, status: Status) | Receive(i: nat)
    | Fail(i: nat, abandoned: bool)
    | FetchDone(i: nat) | AcquirePublish(i: nat) | Publish(i: nat)
    | Wake(i: nat) | Halt(i: nat)
    | OtherArrive(i: nat) | OtherAcquire(i: nat) | OtherRelease(i: nat)

  predicate IsAwaiting(n: Node, wait: Wait) {
    n.phase.Awaiting? && n.phase.wait == wait
  }

  predicate NodeShape(sys: System, i: nat, n: Node) {
    i < |sys.peers| &&
    (n.phase.Fetching? ==> n.phase.k <= |sys.peers[i]|) &&
    (n.phase.Awaiting? ==> n.phase.k < |sys.peers[i]|)
  }

  predicate Shape(sys: System, s: State) {
    sys.Valid() && |s| == |sys.peers| && forall i | 0 <= i < |s| :: NodeShape(sys, i, s[i])
  }

  /** The target of the open request of scanner `i`. */
  function Asked(sys: System, i: nat, n: Node): Target
    requires NodeShape(sys, i, n) && n.phase.Awaiting?
  {
    sys.peers[i][n.phase.k]
  }

  predicate Enabled(sys: System, s: State, step: Step)
    requires Shape(sys, s)
  {
    step.i < |s| &&
    var n := s[step.i];
    match step
    case AcquireClear(i) => n.phase == WaitClear && n.lock == Free
    case ClearList(i) => n.phase == Clearing
    case Send(i) => n.phase.Fetching? && n.phase.k < |sys.peers[i]|
    case HandlerAcquire(i) =>
      IsAwaiting(n, Queued) && Asked(sys, i, n).Peer? && s[Asked(sys, i, n).node].lock == Free
    case HandlerReply(i) => IsAwaiting(n, Serving) && Asked(sys, i, n).Peer?
    case OutsideReply(i, d) => IsAwaiting(n, Queued) && Asked(sys, i, n).Outside?
    case Receive(i) => n.phase.Awaiting? && n.phase.wait.Answered?
    case Fail(i, abandoned) => n.phase.Awaiting?
    case FetchDone(i) => n.phase == Fetching(|sys.peers[i]|)
    case AcquirePublish(i) => n.phase == WaitPublish && n.lock == Free
    case Publish(i) => n.phase == Publishing
    case Wake(i) => n.phase == Sleeping
    case Halt(i) => n.phase == Sleeping
    case OtherArrive(i) => true
    case OtherAcquire(i) => n.others > 0 && n.lock == Free
    case OtherRelease(i) => n.lock == ByOther
  }

  function SetLock(s: State, j: nat, lock: Holder): State
    requires j < |s|
  {
    s[j := s[j].(lock := lock)]
  }

  /** The request of `i` dies: its handler, if there is one, goes on alone. */
  function Orphan(sys: System, s: State, i: nat, abandoned: bool): State
    requires Shape(sys, s) && i < |s| && s[i].phase.Awaiting?
  {
    if Asked(sys, i, s[i]).Outside? then s
    else
      var j := Asked(sys, i, s[i]).node;
      match s[i].phase.wait
      case Queued => if abandoned then s[j := s[j].(others := s[j].others + 1)] else s
      case Serving => SetLock(s, j, ByOther)
      case Answered(_) => s
  }

  /** What a step does to locks and queues on behalf of a request. */
  function Effect(sys: System, s: State, step: Step): State
    requires Shape(sys, s) && Enabled(sys, s, step)
  {
    match step
    case HandlerAcquire(i) => SetLock(s, Asked(sys, i, s[i]).node, ByRequest(i))
    case HandlerReply(i) => SetLock(s, Asked(sys, i, s[i]).node, Free)
    case Fail(i, abandoned) => Orphan(sys, s, i, abandoned)
    case _ => s
  }

  /** What a step does to the node that takes it. */
  function Next(sys: System, n: Node, step: Step): Node
    requires sys.Valid() && NodeShape(sys, step.i, n)
    requires step.HandlerReply? ==> n.phase.Awaiting? && Asked(sys, step.i, n).Peer?
    requires step.Send? ==> n.phase.Fetching?
    requires step.HandlerAcquire? || step.OutsideReply? || step.Fail? ==> n.phase.Awaiting?
    requires step.Receive? ==> n.phase.Awaiting? && n.phase.wait.Answered?
    requires step.OtherAcquire? ==> n.others > 0
  {
    match step
    case AcquireClear(_) => n.(phase := Clearing, lock := ByScanner)
    case ClearList(_) =>
      n.(phase := Fetching(0), list := [], log := [], lock := if sys.holdLock then ByScanner else Free)
    case Send(_) => n.(phase := Awaiting(n.phase.k, Queued))
    case HandlerAcquire(_) => n.(phase := Awaiting(n.phase.k, Serving))
    case HandlerReply(i) => n.(phase := Awaiting(n.phase.k, Answered(sys.records[Asked(sys, i, n).node])))
    case OutsideReply(_, d) => n.(phase := Awaiting(n.phase.k, Answered(d)))
    case Receive(_) => n.(phase := Fetching(n.phase.k + 1), log := n.log + [Reply(n.phase.wait.status)])
    case Fail(_, _) => n.(phase := Fetching(n.phase.k + 1), log := n.log + [Failed])
    case FetchDone(_) => n.(phase := if sys.holdLock then Publishing else WaitPublish)
    case AcquirePublish(_) => n.(phase := Publishing, lock := ByScanner)
    case Publish(_) => n.(phase := Sleeping, lock := Free, list := n.list + Successes(n.log), completed := n.log)
    case Wake(_) => n.(phase := WaitClear)
    case Halt(_) => n.(phase := Stopped)
    case OtherArrive(_) => n.(others := n.others + 1)
    case OtherAcquire(_) => n.(others := n.others - 1, lock := ByOther)
    case OtherRelease(_) => n.(lock := Free)
  }

  function Apply(sys: System, s: State, step: Step): State
    requires Shape(sys, s) && Enabled(sys, s, step)
  {
    var s1 := Effect(sys, s, step);
    s1[step.i := Next(sys, s1[step.i], step)]
  }

  // ---- Runs -----------------------------------------------------------------

  predicate StepTo(sys: System, s: State, step: Step, t: State) {
    Shape(sys, s) && Enabled(sys, s, step) && t == Apply(sys, s, step)
  }

  /** `states` is the trace of a run that takes `steps` in order. */
  predicate Trace(sys: System, steps: seq<Step>, states: seq<State>) {
    |states| == |steps| + 1 && forall x | 0 <= x < |steps| :: StepTo(sys, states[x], steps[x], states[x + 1])
  }

  ghost predicate Run(sys: System, s: State, steps: seq<Step>, t: State) {
    exists states :: Trace(sys, steps, states) && states[0] == s && states[|steps|] == t
  }

  lemma NoStep(sys: System, s: State)
    ensures Run(sys, s, [], s)
  {
    assert Trace(sys, [], [s]);
  }

  lemma NoStepOnly(sys: System, s: State, t: State)
    requires Run(sys, s, [], t)
    ensures s == t
  {
  }

  lemma LastStep(sys: System, s: State, steps: seq<Step>, t: State) returns (m: State)
    requires steps != [] && Run(sys, s, steps, t)
    ensures Run(sys, s, steps[..|steps| - 1], m) && StepTo(sys, m, steps[|steps| - 1], t)
  {
    var states :| Trace(sys, steps, states) && states[0] == s && states[|steps|] == t;
    var x := |steps| - 1;
    m := states[x];
    assert Trace(sys, steps[..x], states[..x + 1]);
    assert StepTo(sys, states[x], steps[x], states[x + 1]);
  }

  lemma OneStep(sys: System, s: State, steps: seq<Step>, m: State, step: Step, t: State)
    requires Run(sys, s, steps, m) && StepTo(sys, m, step, t)
    ensures Run(sys, s, steps + [step], t)
  {
    var states :| Trace(sys, steps, states) && states[0] == s && states[|steps|] == m;
    var more := states + [t];
    forall x | 0 <= x < |steps| + 1 ensures StepTo(sys, more[x], (steps + [step])[x], more[x + 1]) {
      if x < |steps| { assert StepTo(sys, states[x], steps[x], states[x + 1]); }
    }
    assert Trace(sys, steps + [step], more);
  }

  lemma {:induction false} RunConcat(sys: System, s: State, a: seq<Step>, m: State, b: seq<Step>, t: State)
    requires Run(sys, s, a, m) && Run(sys, m, b, t)
    ensures Run(sys, s, a + b, t)
    decreases |b|
  {
    hide Run, StepTo;
    if b == [] {
      NoStepOnly(sys, m, t);
      assert a + b == a;
    } else {
      var init, last := b[..|b| - 1], b[|b| - 1];
      var n := LastStep(sys, m, b, t);
      RunConcat(sys, s, a, m, init, n);
      OneStep(sys, s, a + init, n, last, t);
      assert a + b == a + init + [last];
    }
  }

  ghost predicate Reachable(sys: System, t: State) {
    exists steps :: Run(sys, Init(sys), steps, t)
  }

  // ---- Invariants -----------------------------------------------------------

  /** The scanner holds its lock: twice briefly, or in the variant throughout. */
  predicate HoldsLock(sys: System, phase: Phase) {
    phase == Clearing || phase == Publishing || (sys.holdLock && (phase.Fetching? || phase.Awaiting?))
  }

  /** The handler of the request of `i` holds the lock of `j`. */
  predicate Serves(sys: System, s: State, i: nat, j: nat)
    requires Shape(sys, s)
  {
    i < |s| && IsAwaiting(s[i], Serving) && Asked(sys, i, s[i]) == Peer(j)
  }

  /** The lock of `i` has exactly the holder that the phases say. */
  predicate NodeLock(sys: System, s: State, i: nat)
    requires Shape(sys, s) && i < |s|
  {
    (HoldsLock(sys, s[i].phase) <==> s[i].lock == ByScanner) &&
    (s[i].lock.ByRequest? ==> Serves(sys, s, s[i].lock.from, i)) &&
    (IsAwaiting(s[i], Serving) ==>
      Asked(sys, i, s[i]).Peer? && s[Asked(sys, i, s[i]).node].lock == ByRequest(i))
  }

  predicate LockInv(sys: System, s: State) {
    Shape(sys, s) && forall i | 0 <= i < |s| :: NodeLock(sys, s, i)
  }

  predicate InFetch(phase: Phase) {
    phase.Fetching? || phase.Awaiting? || phase == WaitPublish || phase == Publishing
  }

  function Done(sys: System, i: nat, phase: Phase): nat
    requires i < |sys.peers|
  {
    match phase
    case Fetching(k) => k
    case Awaiting(k, _) => k
    case _ => |sys.peers[i]|
  }

  /** Every reply of a KME in the log is that KME's record. */
  predicate LogOk(sys: System, i: nat, log: seq<Fetch>)
    requires sys.Valid() && i < |sys.peers|
  {
    |log| <= |sys.peers[i]| &&
    forall k | 0 <= k < |log| && log[k].Reply? && sys.peers[i][k].Peer? ::
      log[k].status == sys.records[sys.peers[i][k].node]
  }

  /** What a node may hold; this concerns its own fields only. */
  predicate NodeData(sys: System, i: nat, n: Node)
    requires sys.Valid() && NodeShape(sys, i, n)
  {
    LogOk(sys, i, n.completed) &&
    (n.completed == [] || |n.completed| == |sys.peers[i]|) &&
    n.list == (if InFetch(n.phase) then [] else Successes(n.completed)) &&
    (InFetch(n.phase) ==> LogOk(sys, i, n.log) && |n.log| == Done(sys, i, n.phase)) &&
    (n.phase.Awaiting? && n.phase.wait.Answered? && Asked(sys, i, n).Peer? ==>
      n.phase.wait.status == sys.records[Asked(sys, i, n).node])
  }

  predicate DataInv(sys: System, s: State) {
    Shape(sys, s) && forall i | 0 <= i < |s| :: NodeData(sys, i, s[i])
  }

  predicate Inv(sys: System, s: State) { LockInv(sys, s) && DataInv(sys, s) }

  // ---- The invariants are kept ----------------------------------------------

  lemma ShapeStep(sys: System, s: State, step: Step)
    requires Shape(sys, s) && Enabled(sys, s, step)
    ensures Shape(sys, Apply(sys, s, step))
  {
    var t := Apply(sys, s, step);
    forall x | 0 <= x < |t| ensures NodeShape(sys, x, t[x]) {
    }
  }

  lemma OthersKept(sys: System, s: State, step: Step, x: nat)
    requires Shape(sys, s) && Enabled(sys, s, step) && x < |s| && x != step.i
    ensures var t := Apply(sys, s, step);
            |t| == |s| && t[x].(lock := Free, others := 0) == s[x].(lock := Free, others := 0)
  {
  }

  lemma LogGrows(sys: System, i: nat, log: seq<Fetch>, e: Fetch)
    requires sys.Valid() && i < |sys.peers| && LogOk(sys, i, log) && |log| < |sys.peers[i]|
    requires e.Reply? && sys.peers[i][|log|].Peer? ==> e.status == sys.records[sys.peers[i][|log|].node]
    ensures LogOk(sys, i, log + [e])
  {
  }

  lemma LogEmpty(sys: System, i: nat)
    requires sys.Valid() && i < |sys.peers|
    ensures LogOk(sys, i, [])
  {
  }

  /** The node that takes a step keeps its data consistent. */
  lemma NextData(sys: System, n: Node, step: Step)
    requires sys.Valid() && NodeShape(sys, step.i, n) && NodeData(sys, step.i, n)
    requires step.ClearList? ==> n.phase == Clearing
    requires step.AcquireClear? ==> n.phase == WaitClear
    requires step.AcquirePublish? ==> n.phase == WaitPublish
    requires step.FetchDone? ==> n.phase == Fetching(|sys.peers[step.i]|)
    requires step.Publish? ==> n.phase == Publishing
    requires step.Wake? || step.Halt? ==> n.phase == Sleeping
    requires step.HandlerReply? ==> n.phase.Awaiting? && Asked(sys, step.i, n).Peer?
    requires step.OutsideReply? ==> n.phase.Awaiting? && Asked(sys, step.i, n).Outside?
    requires step.Send? ==> n.phase.Fetching? && n.phase.k < |sys.peers[step.i]|
    requires step.HandlerAcquire? || step.Fail? ==> n.phase.Awaiting?
    requires step.Receive? ==> n.phase.Awaiting? && n.phase.wait.Answered?
    requires step.OtherAcquire? ==> n.others > 0
    ensures NodeShape(sys, step.i, Next(sys, n, step))
    ensures NodeData(sys, step.i, Next(sys, n, step))
  {
    hide LogOk;
    LogEmpty(sys, step.i);
    if step.Receive? { LogGrows(sys, step.i, n.log, Reply(n.phase.wait.status)); }
    if step.Fail? { LogGrows(sys, step.i, n.log, Failed); }
    if step.Publish? { assert [] + Successes(n.log) == Successes(n.log); }
  }

  /** What a step does to locks and queues leaves the data of the node alone. */
  lemma EffectData(sys: System, s: State, step: Step)
    requires Shape(sys, s) && Enabled(sys, s, step) && NodeData(sys, step.i, s[step.i])
    ensures |Effect(sys, s, step)| == |s| && Effect(sys, s, step)[step.i].phase == s[step.i].phase
    ensures NodeShape(sys, step.i, Effect(sys, s, step)[step.i])
    ensures NodeData(sys, step.i, Effect(sys, s, step)[step.i])
    ensures step.OtherAcquire? ==> Effect(sys, s, step)[step.i] == s[step.i]
  {
  }

  lemma OwnData(sys: System, s: State, step: Step)
    requires Shape(sys, s) && Enabled(sys, s, step) && NodeData(sys, step.i, s[step.i])
    ensures Shape(sys, Apply(sys, s, step)) && NodeData(sys, step.i, Apply(sys, s, step)[step.i])
  {
    hide NodeData;
    ShapeStep(sys, s, step);
    EffectData(sys, s, step);
    NextData(sys, Effect(sys, s, step)[step.i], step);
  }

  lemma DataInvStep(sys: System, s: State, step: Step)
    requires DataInv(sys, s) && Enabled(sys, s, step)
    ensures DataInv(sys, Apply(sys, s, step))
  {
    ShapeStep(sys, s, step);
    var t := Apply(sys, s, step);
    forall x | 0 <= x < |t| ensures NodeData(sys, x, t[x]) {
      if x == step.i { OwnData(sys, s, step); } else { OthersKept(sys, s, step, x); }
    }
  }

  /** A step that touches one node and no request being served. */
  lemma LocalLock(sys: System, s: State, i: nat, n: Node)
    requires LockInv(sys, s) && i < |s| && NodeShape(sys, i, n)
    requires HoldsLock(sys, n.phase) <==> n.lock == ByScanner
    requires n.lock.ByRequest? || s[i].lock.ByRequest? ==> n.lock == s[i].lock
    requires IsAwaiting(n, Serving) || IsAwaiting(s[i], Serving) ==> n.phase == s[i].phase
    ensures LockInv(sys, s[i := n])
  {
    var t := s[i := n];
    forall x | 0 <= x < |t| ensures NodeLock(sys, t, x) {
      assert NodeLock(sys, s, x);
      if s[x].lock.ByRequest? { assert NodeLock(sys, s, s[x].lock.from); }
    }
  }

  /** The handler of the request of `i` takes the lock of `j`. */
  lemma ServeLock(sys: System, s: State, i: nat, j: nat)
    requires LockInv(sys, s) && i < |s| && j < |s|
    requires IsAwaiting(s[i], Queued) && Asked(sys, i, s[i]) == Peer(j) && s[j].lock == Free
    ensures LockInv(sys, Apply(sys, s, HandlerAcquire(i)))
  {
    var t := Apply(sys, s, HandlerAcquire(i));
    assert NodeLock(sys, s, i);
    forall x | 0 <= x < |t| ensures NodeLock(sys, t, x) {
      assert NodeLock(sys, s, x);
    }
  }

  /** The handler of the request of `i` gives the lock of `j` up, or goes on
      without its requester. */
  lemma UnserveLock(sys: System, s: State, i: nat, j: nat, lock: Holder, n: Node)
    requires LockInv(sys, s) && Serves(sys, s, i, j) && j < |s|
    requires lock == Free || lock == ByOther
    requires n.lock == SetLock(s, j, lock)[i].lock && NodeShape(sys, i, n)
    requires n.phase.Fetching? || (n.phase.Awaiting? && n.phase.wait.Answered?)
    ensures LockInv(sys, SetLock(s, j, lock)[i := n])
  {
    var t := SetLock(s, j, lock)[i := n];
    assert NodeLock(sys, s, i);
    forall x | 0 <= x < |t| ensures NodeLock(sys, t, x) {
      assert NodeLock(sys, s, x);
      if s[x].lock.ByRequest? { assert NodeLock(sys, s, s[x].lock.from); }
    }
  }

  lemma FailLock(sys: System, s: State, i: nat, abandoned: bool)
    requires LockInv(sys, s) && Enabled(sys, s, Fail(i, abandoned))
    ensures LockInv(sys, Apply(sys, s, Fail(i, abandoned)))
  {
    assert NodeLock(sys, s, i);
    var s1 := Orphan(sys, s, i, abandoned);
    var n := s1[i].(phase := Fetching(s[i].phase.k + 1), log := s[i].log + [Failed]);
    if IsAwaiting(s[i], Serving) {
      UnserveLock(sys, s, i, Asked(sys, i, s[i]).node, ByOther, n);
    } else {
      if Asked(sys, i, s[i]).Peer? && s[i].phase.wait.Queued? && abandoned {
        var j := Asked(sys, i, s[i]).node;
        assert NodeLock(sys, s, j);
        LocalLock(sys, s, j, s1[j]);
      }
      LocalLock(sys, s1, i, n);
    }
  }

  lemma LockInvStep(sys: System, s: State, step: Step)
    requires LockInv(sys, s) && Enabled(sys, s, step)
    ensures LockInv(sys, Apply(sys, s, step))
  {
    var i := step.i;
    assert NodeLock(sys, s, i);
    if step.Fail? {
      FailLock(sys, s, i, step.abandoned);
    } else if step.HandlerAcquire? {
      ServeLock(sys, s, i, Asked(sys, i, s[i]).node);
    } else if step.HandlerReply? {
      var j := Asked(sys, i, s[i]).node;
      UnserveLock(sys, s, i, j, Free, Apply(sys, s, step)[i]);
    } else {
      LocalLock(sys, s, i, Apply(sys, s, step)[i]);
    }
  }

  lemma {:induction false} RunInv(sys: System, s: State, steps: seq<Step>, t: State)
    requires Inv(sys, s) && Run(sys, s, steps, t)
    ensures Inv(sys, t)
    decreases |steps|
  {
    if steps != [] {
      var init, last := steps[..|steps| - 1], steps[|steps| - 1];
      var m := LastStep(sys, s, steps, t);
      RunInv(sys, s, init, m);
      LockInvStep(sys, m, last);
      DataInvStep(sys, m, last);
    }
  }

  lemma ReachableInv(sys: System, t: State)
    requires sys.Valid() && Reachable(sys, t)
    ensures Inv(sys, t)
  {
    var steps :| Run(sys, Init(sys), steps, t);
    RunInv(sys, Init(sys), steps, t);
  }

  // ---- What the list and find_kme can show ----------------------------------

  /** In every reachable state a list is empty while its round is in flight;
      otherwise it is the replies of the last completed round, in the order of
      OTHER_KMES, and a reply of a KME is that KME's record. */
  lemma ListIsLastRound(sys: System, s: State, i: nat)
    requires sys.Valid() && Reachable(sys, s) && i < |s|
    ensures |s| == |sys.peers|
    ensures InFetch(s[i].phase) ==> s[i].list == []
    ensures !InFetch(s[i].phase) ==> s[i].list == Successes(s[i].completed)
    ensures s[i].completed == [] || |s[i].completed| == |sys.peers[i]|
    ensures forall k: nat, j: nat | k < |s[i].completed| && s[i].completed[k].Reply? && sys.Asks(i, k, j) ::
              s[i].completed[k].status == sys.records[j]
  {
    ReachableInv(sys, s);
    assert NodeData(sys, i, s[i]);
  }

  /** `find_kme` answers with the KME's own identity or with a record that some
      entry of OTHER_KMES returned in the last completed round. */
  lemma FindKmeOrigin(sys: System, s: State, i: nat, own: Status, saeId: string)
    requires sys.Valid() && Reachable(sys, s) && i < |s|
    requires Lookup(own, s[i].list, saeId).Some? && Lookup(own, s[i].list, saeId).value != own
    ensures !InFetch(s[i].phase)
    ensures Reply(Lookup(own, s[i].list, saeId).value) in s[i].completed
  {
    ListIsLastRound(sys, s, i);
    LookupOrigin(own, s[i].list, saeId);
    SuccessOrigin(s[i].completed, Lookup(own, s[i].list, saeId).value);
  }

  // ---- What a round's list shows of its run ----------------------------------

  /** The steps that close a request of scanner `i`, with an answer or without. */
  function Closings(i: nat, steps: seq<Step>): seq<Step> {
    if steps == [] then []
    else
      var init, last := Closings(i, steps[..|steps| - 1]), steps[|steps| - 1];
      if last.i == i && (last.Receive? || last.Fail?) then init + [last] else init
  }

  /** Each outcome is a reply exactly if its request was closed with an answer;
      the answer of a KME is its record, and any other was given in these steps. */
  predicate Recounts(sys: System, i: nat, outcomes: seq<Fetch>, steps: seq<Step>)
    requires sys.Valid() && i < |sys.peers|
  {
    var c := Closings(i, steps);
    |outcomes| == |c| <= |sys.peers[i]| &&
    forall k | 0 <= k < |c| :: Recounted(sys, i, outcomes[k], sys.peers[i][k], c[k], steps)
  }

  predicate Recounted(sys: System, i: nat, outcome: Fetch, target: Target, closing: Step, steps: seq<Step>) {
    if closing.Receive? then
      match target
      case Peer(j) => j < |sys.records| && outcome == Reply(sys.records[j])
      case Outside => outcome.Reply? && OutsideReply(i, outcome.status) in steps
    else outcome == Failed
  }

  /** A node in the round that began just before `steps`: still fetching, or with
      the round published. */
  predicate InRound(sys: System, i: nat, n: Node, steps: seq<Step>)
    requires sys.Valid() && NodeShape(sys, i, n)
  {
    if Publish(i) in steps then
      !InFetch(n.phase) && Recounts(sys, i, n.completed, steps) && |n.completed| == |sys.peers[i]|
    else
      InFetch(n.phase) && Recounts(sys, i, n.log, steps) &&
      (n.phase.Awaiting? && n.phase.wait.Answered? && Asked(sys, i, n).Outside? ==>
        OutsideReply(i, n.phase.wait.status) in steps)
  }

  /** The data of a node, other than its lock and the requests queued there. */
  function DataOf(n: Node): Node { n.(lock := Free, others := 0) }

  lemma EffectKept(sys: System, s: State, step: Step, i: nat)
    requires Shape(sys, s) && Enabled(sys, s, step) && i < |s|
    ensures |Effect(sys, s, step)| == |s| && DataOf(Effect(sys, s, step)[i]) == DataOf(s[i])
  {
  }

  lemma RecountsMore(sys: System, i: nat, outcomes: seq<Fetch>, steps: seq<Step>, step: Step)
    requires sys.Valid() && i < |sys.peers| && Recounts(sys, i, outcomes, steps)
    requires !(step.i == i && (step.Receive? || step.Fail?))
    ensures Recounts(sys, i, outcomes, steps + [step])
  {
    assert (steps + [step])[..|steps|] == steps;
    assert forall x | x in steps :: x in steps + [step];
  }

  lemma RecountsClosed(sys: System, i: nat, outcomes: seq<Fetch>, steps: seq<Step>, step: Step, outcome: Fetch)
    requires sys.Valid() && i < |sys.peers| && Recounts(sys, i, outcomes, steps) && |outcomes| < |sys.peers[i]|
    requires step.i == i && (step.Receive? || step.Fail?)
    requires Recounted(sys, i, outcome, sys.peers[i][|outcomes|], step, steps)
    ensures Recounts(sys, i, outcomes + [outcome], steps + [step])
  {
    assert (steps + [step])[..|steps|] == steps;
    assert forall x | x in steps :: x in steps + [step];
  }

  /** Steps of others leave the round as it is. */
  lemma OtherInRound(sys: System, i: nat, n: Node, m: Node, steps: seq<Step>, step: Step)
    requires sys.Valid() && NodeShape(sys, i, n) && NodeShape(sys, i, m) && InRound(sys, i, n, steps)
    requires step.i != i && DataOf(m) == DataOf(n)
    ensures InRound(sys, i, m, steps + [step])
  {
    hide Recounts;
    RecountsMore(sys, i, if Publish(i) in steps then n.completed else n.log, steps, step);
    assert forall x :: x in steps + [step] <==> x in steps || x == step;
  }

  /** A step that closes no request and does not publish. */
  lemma QuietInRound(sys: System, i: nat, n: Node, m: Node, steps: seq<Step>, step: Step)
    requires sys.Valid() && NodeShape(sys, i, n) && NodeShape(sys, i, m) && InRound(sys, i, n, steps)
    requires step.i == i && !step.Receive? && !step.Fail? && !step.Publish?
    requires m.completed == n.completed && m.log == n.log && (InFetch(m.phase) <==> InFetch(n.phase))
    requires m.phase.Awaiting? && m.phase.wait.Answered? && Asked(sys, i, m).Outside? ==>
      m.phase == n.phase || step == OutsideReply(i, m.phase.wait.status)
    ensures InRound(sys, i, m, steps + [step])
  {
    hide Recounts;
    RecountsMore(sys, i, if Publish(i) in steps then n.completed else n.log, steps, step);
    assert forall x :: x in steps + [step] <==> x in steps || x == step;
  }

  lemma ClosingInRound(sys: System, i: nat, n: Node, m: Node, steps: seq<Step>, step: Step)
    requires sys.Valid() && NodeShape(sys, i, n) && NodeShape(sys, i, m) && InRound(sys, i, n, steps) && NodeData(sys, i, n)
    requires step.i == i && (step.Receive? || step.Fail?) && n.phase.Awaiting? && (step.Receive? ==> n.phase.wait.Answered?)
    requires m.phase == Fetching(n.phase.k + 1)
    requires m.log == n.log + [if step.Receive? then Reply(n.phase.wait.status) else Failed]
    ensures InRound(sys, i, m, steps + [step])
  {
    hide Recounts;
    RecountsClosed(sys, i, n.log, steps, step, if step.Receive? then Reply(n.phase.wait.status) else Failed);
    assert forall x :: x in steps + [step] <==> x in steps || x == step;
  }

  lemma PublishInRound(sys: System, i: nat, n: Node, m: Node, steps: seq<Step>)
    requires sys.Valid() && NodeShape(sys, i, n) && NodeShape(sys, i, m) && InRound(sys, i, n, steps)
    requires n.phase == Publishing && NodeData(sys, i, n) && m.phase == Sleeping && m.completed == n.log
    ensures InRound(sys, i, m, steps + [Publish(i)])
  {
    hide Recounts;
    RecountsMore(sys, i, n.log, steps, Publish(i));
    assert steps + [Publish(i)] != [] && (steps + [Publish(i)])[|steps|] == Publish(i);
  }

  /** What a node's own step does to its data. */
  lemma OwnStep(sys: System, s: State, step: Step)
    requires Shape(sys, s) && Enabled(sys, s, step)
    ensures var t := Apply(sys, s, step);
      |t| == |s| && DataOf(t[step.i]) == DataOf(Next(sys, Effect(sys, s, step)[step.i], step))
    ensures DataOf(Effect(sys, s, step)[step.i]) == DataOf(s[step.i])
  {
    EffectKept(sys, s, step, step.i);
  }

  lemma StepInRound(sys: System, s: State, step: Step, i: nat, steps: seq<Step>)
    requires Inv(sys, s) && Enabled(sys, s, step) && i < |s| && InRound(sys, i, s[i], steps) && step != ClearList(i)
    ensures var t := Apply(sys, s, step); Shape(sys, t) && i < |t| && InRound(sys, i, t[i], steps + [step])
  {
    hide Recounts, LockInv, NodeLock;
    ShapeStep(sys, s, step);
    var t := Apply(sys, s, step);
    assert NodeData(sys, i, s[i]);
    if step.i != i {
      OthersKept(sys, s, step, i);
      OtherInRound(sys, i, s[i], t[i], steps, step);
    } else {
      OwnStep(sys, s, step);
      hide Effect, Apply, InRound;
      OwnInRound(sys, s, step, t[i], steps);
    }
  }

  lemma OwnInRound(sys: System, s: State, step: Step, m: Node, steps: seq<Step>)
    requires Shape(sys, s) && Enabled(sys, s, step) && NodeData(sys, step.i, s[step.i]) && NodeShape(sys, step.i, m)
    requires InRound(sys, step.i, s[step.i], steps) && !step.ClearList? && |Effect(sys, s, step)| == |s|
    requires NodeShape(sys, step.i, Effect(sys, s, step)[step.i])
    requires DataOf(Effect(sys, s, step)[step.i]) == DataOf(s[step.i])
    requires step.OtherAcquire? ==> Effect(sys, s, step)[step.i].others > 0
    requires DataOf(m) == DataOf(Next(sys, Effect(sys, s, step)[step.i], step))
    ensures InRound(sys, step.i, m, steps + [step])
  {
    var n := s[step.i];
    hide Recounts, Effect, InRound, NodeData;
    if step.Receive? || step.Fail? {
      ClosingInRound(sys, step.i, n, m, steps, step);
    } else if step.Publish? {
      PublishInRound(sys, step.i, n, m, steps);
    } else {
      QuietInRound(sys, step.i, n, m, steps, step);
    }
  }

  lemma {:induction false} RunInRound(sys: System, before: seq<Step>, round: seq<Step>, t: State, i: nat)
    requires sys.Valid() && i < |sys.peers| && Run(sys, Init(sys), before + [ClearList(i)] + round, t)
    requires ClearList(i) !in round
    ensures Inv(sys, t) && Shape(sys, t) && i < |t| && InRound(sys, i, t[i], round)
    decreases |round|
  {
    hide *;
    var steps := before + [ClearList(i)] + round;
    var m := LastStep(sys, Init(sys), steps, t);
    RunKeeps(sys, steps, t);
    RunKeeps(sys, steps[..|steps| - 1], m);
    if round == [] {
      assert steps[|steps| - 1] == ClearList(i);
      RoundBegins(sys, m, i, t);
    } else {
      var init, last := round[..|round| - 1], round[|round| - 1];
      assert steps[..|steps| - 1] == before + [ClearList(i)] + init && steps[|steps| - 1] == last;
      RunInRound(sys, before, init, m, i);
      assert round == init + [last];
      ApplyInRound(sys, m, last, i, init, t);
    }
  }

  lemma RunKeeps(sys: System, steps: seq<Step>, t: State)
    requires sys.Valid() && Run(sys, Init(sys), steps, t)
    ensures Inv(sys, t) && Shape(sys, t) && |t| == |sys.peers|
  {
    hide Run;
    assert Reachable(sys, t);
    ReachableInv(sys, t);
  }

  lemma ApplyInRound(sys: System, s: State, step: Step, i: nat, steps: seq<Step>, t: State)
    requires Inv(sys, s) && StepTo(sys, s, step, t) && i < |s| && InRound(sys, i, s[i], steps) && step != ClearList(i)
    requires Shape(sys, t) && i < |t|
    ensures InRound(sys, i, t[i], steps + [step])
  {
    StepInRound(sys, s, step, i, steps);
  }

  lemma RoundBegins(sys: System, s: State, i: nat, t: State)
    requires StepTo(sys, s, ClearList(i), t) && Shape(sys, t) && i < |t|
    ensures InRound(sys, i, t[i], [])
  {
  }

  /** A round that began with the last clearing and was published: its requests
      were closed one for each entry of OTHER_KMES, and the list is the answers of
      those that were answered, in that order. */
  lemma RoundExactly(sys: System, before: seq<Step>, round: seq<Step>, t: State, i: nat)
    requires sys.Valid() && i < |sys.peers| && Run(sys, Init(sys), before + [ClearList(i)] + round, t)
    requires ClearList(i) !in round && Publish(i) in round
    ensures |t| == |sys.peers| && !InFetch(t[i].phase)
    ensures |Closings(i, round)| == |sys.peers[i]|
    ensures Recounts(sys, i, t[i].completed, round) && t[i].list == Successes(t[i].completed)
  {
    hide Run;
    RunInRound(sys, before, round, t, i);
    assert NodeData(sys, i, t[i]);
  }

  lemma {:induction false} AllReplies(outcomes: seq<Fetch>)
    requires forall k | 0 <= k < |outcomes| :: outcomes[k].Reply?
    ensures |Successes(outcomes)| == |outcomes|
    ensures forall k | 0 <= k < |outcomes| :: outcomes[k] == Reply(Successes(outcomes)[k])
  {
    if outcomes != [] { AllReplies(outcomes[..|outcomes| - 1]); }
  }

  /** If no request of the round failed, the list has one record for each entry of
      OTHER_KMES, in order, and that of a KME is its own. */
  lemma FullRound(sys: System, before: seq<Step>, round: seq<Step>, t: State, i: nat)
    requires sys.Valid() && i < |sys.peers| && Run(sys, Init(sys), before + [ClearList(i)] + round, t)
    requires ClearList(i) !in round && Publish(i) in round
    requires forall x | x in round :: !(x.Fail? && x.i == i)
    ensures |t| == |sys.peers| && |t[i].list| == |sys.peers[i]|
    ensures forall k: nat, j: nat | sys.Asks(i, k, j) :: t[i].list[k] == sys.records[j]
  {
    hide Run;
    RoundExactly(sys, before, round, t, i);
    ClosingsOf(i, round);
    AllReplies(t[i].completed);
  }

  lemma {:induction false} ClosingsOf(i: nat, steps: seq<Step>)
    ensures forall k | 0 <= k < |Closings(i, steps)| ::
      var c := Closings(i, steps)[k]; c in steps && c.i == i && (c.Receive? || c.Fail?)
  {
    if steps != [] {
      ClosingsOf(i, steps[..|steps| - 1]);
      assert forall x | x in steps[..|steps| - 1] :: x in steps;
    }
  }

  // ---- Rounds can be run ------------------------------------------------------

  predicate Quiet(step: Step) { !step.Fail? && !step.ClearList? }

  predicate AllFree(s: State) { forall x | 0 <= x < |s| :: s[x].lock == Free }

  /** Only scanner `i` has moved, and it holds nothing. */
  predicate Moved(sys: System, s: State, i: nat, n: Node) {
    !sys.holdLock && Shape(sys, s) && AllFree(s) && i < |s| && n.lock == Free && NodeShape(sys, i, n)
  }

  lemma MoveOn(sys: System, s: State, before: seq<Step>, m: State, step: Step, t: State)
    requires Run(sys, s, before, m) && Shape(sys, m) && Enabled(sys, m, step) && t == Apply(sys, m, step)
    ensures Run(sys, s, before + [step], t) && Shape(sys, t)
  {
    hide Run;
    ShapeStep(sys, m, step);
    OneStep(sys, s, before, m, step, t);
  }

  lemma MovedShape(sys: System, s: State, i: nat, n: Node)
    requires Moved(sys, s, i, n)
    ensures Shape(sys, s[i := n]) && AllFree(s[i := n])
  {
  }

  /** The request to entry `k` is answered. */
  lemma AnswerRuns(sys: System, s: State, before: seq<Step>, i: nat, n0: Node, d: Status) returns (steps: seq<Step>, n: Node)
    requires Moved(sys, s, i, n0) && Run(sys, s, before, s[i := n0]) && IsAwaiting(n0, Queued)
    requires Asked(sys, i, n0).Peer? ==> d == sys.records[Asked(sys, i, n0).node]
    ensures n == n0.(phase := Awaiting(n0.phase.k, Answered(d))) && Moved(sys, s, i, n)
    ensures Run(sys, s, steps, s[i := n]) && before <= steps && forall x | |before| <= x < |steps| :: Quiet(steps[x])
  {
    hide Run, Trace;
    var s0 := s[i := n0];
    MovedShape(sys, s, i, n0);
    n := n0.(phase := Awaiting(n0.phase.k, Answered(d)));
    match Asked(sys, i, n0)
    case Outside =>
      steps := before + [OutsideReply(i, d)];
      MoveOn(sys, s, before, s0, OutsideReply(i, d), s[i := n]);
    case Peer(j) =>
      assert s0[j].lock == Free;
      var s1 := Apply(sys, s0, HandlerAcquire(i));
      MoveOn(sys, s, before, s0, HandlerAcquire(i), s1);
      var s2 := Apply(sys, s1, HandlerReply(i));
      assert s2 == s[i := n];
      MoveOn(sys, s, before + [HandlerAcquire(i)], s1, HandlerReply(i), s2);
      steps := before + [HandlerAcquire(i)] + [HandlerReply(i)];
  }

  /** A scanner that alone moves: its first `k` requests are answered. */
  lemma {:induction false} FetchRuns(sys: System, s: State, before: seq<Step>, i: nat, n0: Node, k: nat)
    returns (steps: seq<Step>, n: Node)
    requires Moved(sys, s, i, n0) && Run(sys, s, before, s[i := n0]) && n0.phase == Fetching(0) && k <= |sys.peers[i]|
    ensures n.phase == Fetching(k) && Moved(sys, s, i, n)
    ensures Run(sys, s, steps, s[i := n]) && before <= steps && forall x | |before| <= x < |steps| :: Quiet(steps[x])
  {
    hide Run, Trace;
    if k == 0 {
      steps, n := before, n0;
    } else {
      var done, m := FetchRuns(sys, s, before, i, n0, k - 1);
      MovedShape(sys, s, i, m);
      var sent := m.(phase := Awaiting(k - 1, Queued));
      MoveOn(sys, s, done, s[i := m], Send(i), s[i := sent]);
      var d := match Asked(sys, i, sent) case Peer(j) => sys.records[j] case Outside => Status("", "");
      var more, got := AnswerRuns(sys, s, done + [Send(i)], i, sent, d);
      MovedShape(sys, s, i, got);
      n := got.(phase := Fetching(k), log := got.log + [Reply(d)]);
      MoveOn(sys, s, more, s[i := got], Receive(i), s[i := n]);
      steps := more + [Receive(i)];
    }
  }

  /** Without anybody else moving, a scanner at the start of a round can take it to
      its end, with every request answered. */
  lemma RoundRuns(sys: System, s: State, i: nat) returns (round: seq<Step>, t: State)
    requires !sys.holdLock && Shape(sys, s) && AllFree(s) && i < |s| && s[i].phase == WaitClear
    ensures Run(sys, s, [AcquireClear(i)] + [ClearList(i)] + round, t) && AllFree(t)
    ensures i < |t| && t == s[i := t[i]] && t[i].phase == Sleeping
    ensures Publish(i) in round && ClearList(i) !in round && forall x | x in round :: !x.Fail?
  {
    hide Run, Trace;
    var n := s[i].(phase := Clearing, lock := ByScanner);
    NoStep(sys, s);
    MoveOn(sys, s, [], s, AcquireClear(i), s[i := n]);
    var n0 := s[i].(phase := Fetching(0), list := [], log := []);
    var before := [AcquireClear(i)] + [ClearList(i)];
    assert [] + [AcquireClear(i)] == [AcquireClear(i)];
    MoveOn(sys, s, [AcquireClear(i)], s[i := n], ClearList(i), s[i := n0]);
    var steps, m := FetchRuns(sys, s, before, i, n0, |sys.peers[i]|);
    t := FinishRuns(sys, s, steps, i, m);
    round := steps[|before|..] + [FetchDone(i)] + [AcquirePublish(i)] + [Publish(i)];
    assert before + round == steps + [FetchDone(i)] + [AcquirePublish(i)] + [Publish(i)];
    assert round[|round| - 1] == Publish(i);
    forall x | x in round ensures Quiet(x) {
      if x in steps[|before|..] {
        var y :| |before| <= y < |steps| && steps[y] == x;
      }
    }
  }

  lemma FinishRuns(sys: System, s: State, before: seq<Step>, i: nat, n0: Node) returns (t: State)
    requires Moved(sys, s, i, n0) && Run(sys, s, before, s[i := n0]) && n0.phase == Fetching(|sys.peers[i]|)
    ensures Run(sys, s, before + [FetchDone(i)] + [AcquirePublish(i)] + [Publish(i)], t)
    ensures AllFree(t) && i < |t| && t == s[i := t[i]] && t[i].phase == Sleeping
  {
    hide Run, Trace;
    MovedShape(sys, s, i, n0);
    var n1 := n0.(phase := WaitPublish);
    MoveOn(sys, s, before, s[i := n0], FetchDone(i), s[i := n1]);
    var n2 := n1.(phase := Publishing, lock := ByScanner);
    MoveOn(sys, s, before + [FetchDone(i)], s[i := n1], AcquirePublish(i), s[i := n2]);
    var n3 := n2.(phase := Sleeping, lock := Free, list := n2.list + Successes(n2.log), completed := n2.log);
    t := s[i := n3];
    MoveOn(sys, s, before + [FetchDone(i)] + [AcquirePublish(i)], s[i := n2], Publish(i), t);
  }

  /** And after it the next one: from any reachable state in which nobody holds a
      lock, a sleeping scanner can run one more round, which then lists every KME
      it asks. */
  lemma AnotherRound(sys: System, s: State, i: nat) returns (steps: seq<Step>, t: State)
    requires sys.Valid() && !sys.holdLock && Reachable(sys, s) && AllFree(s) && i < |s| && s[i].phase == Sleeping
    ensures Run(sys, s, steps, t) && Reachable(sys, t) && AllFree(t)
    ensures |t| == |sys.peers| == |s| && t == s[i := t[i]] && t[i].phase == Sleeping && |t[i].list| == |sys.peers[i]|
    ensures forall k: nat, j: nat | sys.Asks(i, k, j) :: t[i].list[k] == sys.records[j]
  {
    hide *;
    var before := HistoryOf(sys, s);
    var round;
    round, t := WokenRound(sys, s, i);
    steps := [Wake(i), AcquireClear(i), ClearList(i)] + round;
    RunConcat(sys, Init(sys), before, s, steps, t);
    RunReaches(sys, before + steps, t);
    assert before + steps == before + [Wake(i), AcquireClear(i)] + [ClearList(i)] + round;
    FullRound(sys, before + [Wake(i), AcquireClear(i)], round, t, i);
  }

  lemma HistoryOf(sys: System, s: State) returns (steps: seq<Step>)
    requires sys.Valid() && Reachable(sys, s)
    ensures Run(sys, Init(sys), steps, s) && Shape(sys, s) && |s| == |sys.peers|
  {
    ReachableInv(sys, s);
    hide Run;
    steps :| Run(sys, Init(sys), steps, s);
  }

  lemma RunReaches(sys: System, steps: seq<Step>, t: State)
    requires Run(sys, Init(sys), steps, t)
    ensures Reachable(sys, t)
  {
    hide Run;
  }

  lemma WokenRound(sys: System, s: State, i: nat) returns (round: seq<Step>, t: State)
    requires !sys.holdLock && Shape(sys, s) && AllFree(s) && i < |s| && s[i].phase == Sleeping
    ensures Run(sys, s, [Wake(i), AcquireClear(i), ClearList(i)] + round, t) && AllFree(t)
    ensures i < |t| && t == s[i := t[i]] && t[i].phase == Sleeping
    ensures Publish(i) in round && ClearList(i) !in round && forall x | x in round :: !(x.Fail? && x.i == i)
  {
    hide Run, Trace;
    var woken := s[i := s[i].(phase := WaitClear)];
    NoStep(sys, s);
    MoveOn(sys, s, [], s, Wake(i), woken);
    round, t := RoundRuns(sys, woken, i);
    assert [] + [Wake(i)] == [Wake(i)];
    RunConcat(sys, s, [Wake(i)], woken, [AcquireClear(i)] + [ClearList(i)] + round, t);
    assert [Wake(i)] + ([AcquireClear(i)] + [ClearList(i)] + round) == [Wake(i), AcquireClear(i), ClearList(i)] + round;
  }

  // ---- Requests are accounted for ---------------------------------------------

  /** The request of scanner `i` is at KME `j`, waiting or being served. */
  predicate OpenAt(sys: System, i: nat, n: Node, j: nat)
    requires NodeShape(sys, i, n)
  {
    n.phase.Awaiting? && !n.phase.wait.Answered? && Asked(sys, i, n) == Peer(j)
  }

  function OpenFrom(sys: System, s: State, j: nat, from: nat): nat
    requires Shape(sys, s) && from <= |s|
    decreases |s| - from
  {
    if from == |s| then 0 else (if OpenAt(sys, from, s[from], j) then 1 else 0) + OpenFrom(sys, s, j, from + 1)
  }

  /** Requests other than those of scanners, waiting or being served. */
  function Foreign(n: Node): nat { n.others + if n.lock == ByOther then 1 else 0 }

  /** All requests at KME `j`. */
  function Pending(sys: System, s: State, j: nat): nat
    requires Shape(sys, s) && j < |s|
  {
    Foreign(s[j]) + OpenFrom(sys, s, j, 0)
  }

  /** A step brings a request, settles one, or does neither; a request that fails
      is gone only if it was still queued and its connection went with it. */
  function Brings(sys: System, s: State, step: Step, j: nat): int
    requires Shape(sys, s) && Enabled(sys, s, step)
  {
    match step
    case Send(i) => if sys.Asks(i, s[i].phase.k, j) then 1 else 0
    case OtherArrive(i) => if i == j then 1 else 0
    case HandlerReply(i) => if Asked(sys, i, s[i]) == Peer(j) then -1 else 0
    case OtherRelease(i) => if i == j then -1 else 0
    case Fail(i, abandoned) => if Asked(sys, i, s[i]) == Peer(j) && s[i].phase.wait.Queued? && !abandoned then -1 else 0
    case _ => 0
  }

  lemma {:induction false} OpenUpdate(sys: System, s: State, t: State, j: nat, i: nat, from: nat)
    requires Shape(sys, s) && Shape(sys, t) && i < |s| && from <= |s|
    requires forall x | 0 <= x < |s| && x != i :: t[x].phase == s[x].phase
    ensures OpenFrom(sys, t, j, from) - OpenFrom(sys, s, j, from) ==
      if from > i then 0
      else (if OpenAt(sys, i, t[i], j) then 1 else 0) - (if OpenAt(sys, i, s[i], j) then 1 else 0)
    decreases |s| - from
  {
    if from < |s| { OpenUpdate(sys, s, t, j, i, from + 1); }
  }

  /** What a step does to the request of its own scanner. */
  lemma OwnRequest(sys: System, s: State, step: Step, j: nat)
    requires LockInv(sys, s) && Enabled(sys, s, step) && j < |s|
    ensures Shape(sys, Apply(sys, s, step))
    ensures var i := step.i; var t := Apply(sys, s, step);
      (if OpenAt(sys, i, t[i], j) then 1 else 0) - (if OpenAt(sys, i, s[i], j) then 1 else 0) + Foreign(t[j]) - Foreign(s[j])
      == Brings(sys, s, step, j)
  {
    ShapeStep(sys, s, step);
    assert NodeLock(sys, s, step.i) && NodeLock(sys, s, j);
  }

  /** Requests at a KME neither vanish nor multiply. */
  lemma RequestsConserved(sys: System, s: State, step: Step, j: nat)
    requires LockInv(sys, s) && Enabled(sys, s, step) && j < |s|
    ensures Shape(sys, Apply(sys, s, step)) && j < |Apply(sys, s, step)|
    ensures Pending(sys, Apply(sys, s, step), j) == Pending(sys, s, j) + Brings(sys, s, step, j)
  {
    ShapeStep(sys, s, step);
    var t := Apply(sys, s, step);
    forall x | 0 <= x < |s| && x != step.i ensures t[x].phase == s[x].phase { OthersKept(sys, s, step, x); }
    OwnRequest(sys, s, step, j);
    hide Apply, Brings, OpenAt, Foreign;
    OpenUpdate(sys, s, t, j, step.i, 0);
  }

  /** And at first there are none. */
  lemma NothingPending(sys: System, j: nat)
    requires sys.Valid() && j < |sys.peers|
    ensures Shape(sys, Init(sys)) && Pending(sys, Init(sys), j) == 0
  {
    NoneOpen(sys, j, 0);
  }

  lemma {:induction false} NoneOpen(sys: System, j: nat, from: nat)
    requires Shape(sys, Init(sys)) && from <= |sys.peers|
    ensures OpenFrom(sys, Init(sys), j, from) == 0
    decreases |sys.peers| - from
  {
    if from < |sys.peers| { NoneOpen(sys, j, from + 1); }
  }

  // ---- Who waits for whom ---------------------------------------------------

  /** Scanner thread of a KME, handler thread of the request of a scanner, and
      the handlers of other requests, holding or queued. */
  datatype Thread = Scan(i: nat) | Handler(i: nat) | OtherHolder(i: nat) | OtherQueued(i: nat)

  function HolderThread(j: nat, lock: Holder): Thread
    requires lock != Free
  {
    match lock
    case ByScanner => Scan(j)
    case ByRequest(i) => Handler(i)
    case ByOther => OtherHolder(j)
  }

  predicate WaitsForLock(s: State, t: Thread, j: nat, u: Thread) {
    j < |s| && s[j].lock != Free && u == HolderThread(j, s[j].lock) && t != u
  }

  /** `t` cannot move before `u` does. */
  predicate WaitsFor(sys: System, s: State, t: Thread, u: Thread) {
    Shape(sys, s) && t.i < |s| &&
    var n := s[t.i];
    match t
    case Scan(i) =>
      if n.phase == WaitClear || n.phase == WaitPublish then WaitsForLock(s, t, i, u)
      else n.phase.Awaiting? && Asked(sys, i, n).Peer? && !n.phase.wait.Answered? && u == Handler(i)
    case Handler(i) =>
      IsAwaiting(n, Queued) && Asked(sys, i, n).Peer? && WaitsForLock(s, t, Asked(sys, i, n).node, u)
    case OtherQueued(i) => n.others > 0 && WaitsForLock(s, t, i, u)
    case OtherHolder(_) => false
  }

  /** At a lock, waiting for somebody is just not being able to take it. */
  lemma WaitingExactly(sys: System, s: State, i: nat)
    requires LockInv(sys, s) && i < |s|
    ensures s[i].phase == WaitClear ==> (Enabled(sys, s, AcquireClear(i)) <==> forall u :: !WaitsFor(sys, s, Scan(i), u))
    ensures s[i].phase == WaitPublish ==> (Enabled(sys, s, AcquirePublish(i)) <==> forall u :: !WaitsFor(sys, s, Scan(i), u))
    ensures IsAwaiting(s[i], Queued) && Asked(sys, i, s[i]).Peer? ==>
      (Enabled(sys, s, HandlerAcquire(i)) <==> forall u :: !WaitsFor(sys, s, Handler(i), u))
    ensures s[i].others > 0 ==> (Enabled(sys, s, OtherAcquire(i)) <==> forall u :: !WaitsFor(sys, s, OtherQueued(i), u))
  {
    assert NodeLock(sys, s, i);
    if s[i].lock != Free {
      var u := HolderThread(i, s[i].lock);
      assert s[i].phase == WaitClear || s[i].phase == WaitPublish ==> WaitsFor(sys, s, Scan(i), u);
      assert s[i].others > 0 ==> WaitsFor(sys, s, OtherQueued(i), u);
    }
    if IsAwaiting(s[i], Queued) && Asked(sys, i, s[i]).Peer? { QueuedExactly(sys, s, i); }
  }

  lemma QueuedExactly(sys: System, s: State, i: nat)
    requires LockInv(sys, s) && i < |s| && IsAwaiting(s[i], Queued) && Asked(sys, i, s[i]).Peer?
    ensures Enabled(sys, s, HandlerAcquire(i)) <==> forall u :: !WaitsFor(sys, s, Handler(i), u)
  {
    var j := Asked(sys, i, s[i]).node;
    assert NodeLock(sys, s, j);
    if s[j].lock != Free { assert WaitsFor(sys, s, Handler(i), HolderThread(j, s[j].lock)); }
  }

  /** 0 for a thread that waits for nobody, larger for those that may. */
  function Rank(s: State, t: Thread): nat {
    if t.i >= |s| then 0
    else
      var n := s[t.i];
      match t
      case Scan(_) => if n.phase.Awaiting? then 2 else if n.phase == WaitClear || n.phase == WaitPublish then 1 else 0
      case Handler(_) => if IsAwaiting(n, Queued) then 1 else 0
      case OtherQueued(_) => 1
      case OtherHolder(_) => 0
  }

  /** A lock holder never waits. */
  lemma HolderIsFree(sys: System, s: State, j: nat, u: Thread)
    requires !sys.holdLock && LockInv(sys, s) && j < |s|
    requires s[j].lock != Free
    ensures !WaitsFor(sys, s, HolderThread(j, s[j].lock), u)
    ensures Rank(s, HolderThread(j, s[j].lock)) == 0
  {
    assert NodeLock(sys, s, j);
  }

  /** Waiting is acyclic in every reachable state, for any graph of KMEs. */
  lemma WaitingIsAcyclic(sys: System, s: State, t: Thread, u: Thread)
    requires sys.Valid() && !sys.holdLock && Reachable(sys, s)
    requires WaitsFor(sys, s, t, u)
    ensures Rank(s, u) < Rank(s, t)
  {
    ReachableInv(sys, s);
    assert NodeLock(sys, s, t.i);
    if t.Scan? && s[t.i].phase.Awaiting? {
    } else {
      var j := if t.Handler? then Asked(sys, t.i, s[t.i]).node else t.i;
      HolderIsFree(sys, s, j, t);
    }
  }

  // ---- Progress -------------------------------------------------------------

  predicate InFlight(n: Node) { n.phase != Sleeping && n.phase != Stopped }

  /** Steps that work requests and rounds off, as opposed to new arrivals. */
  predicate Internal(step: Step) {
    !step.Wake? && !step.Halt? && !step.OtherArrive?
  }

  function HolderStep(j: nat, n: Node): Step
    requires n.lock != Free
  {
    match n.lock
    case ByScanner => if n.phase == Clearing then ClearList(j) else Publish(j)
    case ByRequest(i) => HandlerReply(i)
    case ByOther => OtherRelease(j)
  }

  /** A step that brings the round of `i` closer to its end. */
  function Helper(sys: System, s: State, i: nat): Step
    requires Shape(sys, s) && i < |s| && InFlight(s[i])
  {
    var n := s[i];
    match n.phase
    case WaitClear => if n.lock == Free then AcquireClear(i) else HolderStep(i, n)
    case Clearing => ClearList(i)
    case Fetching(k) => if k < |sys.peers[i]| then Send(i) else FetchDone(i)
    case Awaiting(k, Queued) =>
      (match Asked(sys, i, n)
       case Outside => Fail(i, false)
       case Peer(j) => if s[j].lock == Free then HandlerAcquire(i) else HolderStep(j, s[j]))
    case Awaiting(k, Serving) => HandlerReply(i)
    case Awaiting(k, Answered(_)) => Receive(i)
    case WaitPublish => if n.lock == Free then AcquirePublish(i) else HolderStep(i, n)
    case Publishing => Publish(i)
    case _ => Wake(i)
  }

  lemma HolderCanMove(sys: System, s: State, j: nat)
    requires !sys.holdLock && LockInv(sys, s) && j < |s| && s[j].lock != Free
    ensures Enabled(sys, s, HolderStep(j, s[j])) && Internal(HolderStep(j, s[j])) && !HolderStep(j, s[j]).Fail?
  {
    assert NodeLock(sys, s, j);
    if s[j].lock.ByRequest? { assert NodeLock(sys, s, s[j].lock.from); }
  }

  lemma QueuedCanMove(sys: System, s: State, i: nat)
    requires !sys.holdLock && LockInv(sys, s) && i < |s|
    requires IsAwaiting(s[i], Queued) && Asked(sys, i, s[i]).Peer?
    ensures Enabled(sys, s, Helper(sys, s, i)) && Internal(Helper(sys, s, i)) && !Helper(sys, s, i).Fail?
  {
    var j := Asked(sys, i, s[i]).node;
    if s[j].lock != Free { HolderCanMove(sys, s, j); }
  }

  /** No reachable interleaving is stuck: while a round is in flight, some step
      that helps it is enabled, and it needs no request to a KME to fail. */
  lemma NeverStuck(sys: System, s: State, i: nat)
    requires sys.Valid() && !sys.holdLock && Reachable(sys, s)
    requires i < |s| && InFlight(s[i])
    ensures Shape(sys, s)
    ensures Enabled(sys, s, Helper(sys, s, i)) && Internal(Helper(sys, s, i))
    ensures Helper(sys, s, i).Fail? ==> s[i].phase.Awaiting? && Asked(sys, i, s[i]).Outside?
  {
    ReachableInv(sys, s);
    assert NodeLock(sys, s, i);
    if s[i].lock != Free { HolderCanMove(sys, s, i); }
    if IsAwaiting(s[i], Queued) && Asked(sys, i, s[i]).Peer? { QueuedCanMove(sys, s, i); }
  }

  /** The work left at one node. */
  function Weight(sys: System, i: nat, n: Node): nat
    requires NodeShape(sys, i, n)
  {
    var total := |sys.peers[i]|;
    (match n.phase
     case WaitClear => 8 * total + 10
     case Clearing => 8 * total + 9
     case Fetching(k) => 8 * (total - k) + 4
     case Awaiting(k, Queued) => 8 * (total - k) + 3
     case Awaiting(k, Serving) => 8 * (total - k) + 2
     case Awaiting(k, Answered(_)) => 8 * (total - k) + 1
     case WaitPublish => 3
     case Publishing => 2
     case _ => 0) +
    2 * n.others + (if n.lock == ByOther then 1 else 0)
  }

  function Work(sys: System, s: State, from: nat): nat
    requires Shape(sys, s) && from <= |s|
    decreases |s| - from
  {
    if from == |s| then 0 else Weight(sys, from, s[from]) + Work(sys, s, from + 1)
  }

  lemma {:induction false} WorkUpdate(sys: System, s: State, i: nat, n: Node, from: nat)
    requires Shape(sys, s) && i < |s| && NodeShape(sys, i, n) && from <= |s|
    ensures Shape(sys, s[i := n])
    ensures Work(sys, s[i := n], from) ==
            Work(sys, s, from) + (if from <= i then Weight(sys, i, n) - Weight(sys, i, s[i]) else 0)
    decreases |s| - from
  {
    if from < |s| {
      WorkUpdate(sys, s, i, n, from + 1);
    }
  }

  predicate AsksPeer(sys: System, s: State, step: Step)
    requires Shape(sys, s) && Enabled(sys, s, step)
  {
    (step.HandlerAcquire? || step.HandlerReply? || step.Fail?) && Asked(sys, step.i, s[step.i]).Peer?
  }

  lemma RemoteWork(sys: System, s: State, step: Step)
    requires LockInv(sys, s) && Enabled(sys, s, step) && AsksPeer(sys, s, step)
    requires Asked(sys, step.i, s[step.i]).node != step.i
    ensures var t := Apply(sys, s, step); var i := step.i; var j := Asked(sys, i, s[i]).node;
            Shape(sys, t) && t == s[j := t[j]][i := t[i]] &&
            Weight(sys, i, t[i]) + Weight(sys, j, t[j]) < Weight(sys, i, s[i]) + Weight(sys, j, s[j])
  {
    ShapeStep(sys, s, step);
    assert NodeLock(sys, s, step.i);
  }

  lemma SelfWork(sys: System, s: State, step: Step)
    requires LockInv(sys, s) && Enabled(sys, s, step) && AsksPeer(sys, s, step)
    requires Asked(sys, step.i, s[step.i]).node == step.i
    ensures var t := Apply(sys, s, step);
            Shape(sys, t) && t == s[step.i := t[step.i]] &&
            Weight(sys, step.i, t[step.i]) < Weight(sys, step.i, s[step.i])
  {
    ShapeStep(sys, s, step);
    assert NodeLock(sys, s, step.i);
  }

  lemma LocalWork(sys: System, s: State, step: Step)
    requires LockInv(sys, s) && Enabled(sys, s, step) && Internal(step) && !AsksPeer(sys, s, step)
    ensures var t := Apply(sys, s, step);
            Shape(sys, t) && t == s[step.i := t[step.i]] &&
            Weight(sys, step.i, t[step.i]) < Weight(sys, step.i, s[step.i])
  {
    ShapeStep(sys, s, step);
    assert NodeLock(sys, s, step.i);
  }

  /** Every internal step, of whatever thread, leaves less work. */
  lemma WorkDecreases(sys: System, s: State, step: Step)
    requires LockInv(sys, s) && Enabled(sys, s, step) && Internal(step)
    ensures Shape(sys, Apply(sys, s, step))
    ensures Work(sys, Apply(sys, s, step), 0) < Work(sys, s, 0)
  {
    hide Apply, Weight, Work, Internal, NodeLock;
    var i := step.i;
    var t := Apply(sys, s, step);
    if AsksPeer(sys, s, step) && Asked(sys, i, s[i]).node != i {
      var j := Asked(sys, i, s[i]).node;
      RemoteWork(sys, s, step);
      WorkUpdate(sys, s, j, t[j], 0);
      WorkUpdate(sys, s[j := t[j]], i, t[i], 0);
    } else {
      if AsksPeer(sys, s, step) { SelfWork(sys, s, step); } else { LocalWork(sys, s, step); }
      WorkUpdate(sys, s, i, t[i], 0);
    }
  }

  predicate AllInternal(steps: seq<Step>) {
    forall x | 0 <= x < |steps| :: Internal(steps[x])
  }

  /** A run of internal steps is no longer than the work it starts from. */
  lemma {:induction false} InternalRunsEnd(sys: System, s: State, steps: seq<Step>, t: State)
    requires Inv(sys, s) && Run(sys, s, steps, t) && AllInternal(steps)
    ensures Inv(sys, t) && |steps| + Work(sys, t, 0) <= Work(sys, s, 0)
    decreases |steps|
  {
    if steps != [] {
      var init, last := steps[..|steps| - 1], steps[|steps| - 1];
      var m := LastStep(sys, s, steps, t);
      InternalRunsEnd(sys, s, init, m);
      LockInvStep(sys, m, last);
      DataInvStep(sys, m, last);
      WorkDecreases(sys, m, last);
    }
  }

  /** No step is enabled, unless a request fails or something new starts. */
  ghost predicate Stuck(sys: System, s: State) {
    Shape(sys, s) && forall step | Internal(step) && !step.Fail? :: !Enabled(sys, s, step)
  }

  /** Whatever the schedule: while no new round or request starts, the system
      runs for at most `Work` steps, and when nothing but a failing request can
      move any more, every round is over. */
  lemma RoundsFinish(sys: System, s: State, steps: seq<Step>, t: State)
    requires sys.Valid() && !sys.holdLock && Reachable(sys, s)
    requires Run(sys, s, steps, t) && AllInternal(steps)
    ensures Shape(sys, s) && |steps| <= Work(sys, s, 0)
    ensures Shape(sys, t)
    ensures Stuck(sys, t) ==> forall i | 0 <= i < |t| :: !InFlight(t[i])
  {
    ReachableInv(sys, s);
    InternalRunsEnd(sys, s, steps, t);
    var before :| Run(sys, Init(sys), before, s);
    RunConcat(sys, Init(sys), before, s, steps, t);
    forall i | 0 <= i < |t| && InFlight(t[i]) ensures !Stuck(sys, t) { Unstuck(sys, t, i); }
  }

  lemma Unstuck(sys: System, s: State, i: nat)
    requires sys.Valid() && !sys.holdLock && Reachable(sys, s) && i < |s| && InFlight(s[i])
    ensures !Stuck(sys, s)
  {
    NeverStuck(sys, s, i);
    var step := Helper(sys, s, i);
    if step.Fail? { assert Enabled(sys, s, OutsideReply(i, Status("", ""))); }
  }

  // ---- The variant that fetches under the lock ------------------------------

  /** Scanner `i` holds its lock while its request waits at a member of `c`. */
  predicate Parked(sys: System, i: nat, n: Node, c: set<nat>) {
    NodeShape(sys, i, n) && n.lock == ByScanner && IsAwaiting(n, Queued) &&
    Asked(sys, i, n).Peer? && Asked(sys, i, n).node in c
  }

  /** All scanners of `c` are parked on one another. */
  predicate Deadlocked(sys: System, s: State, c: set<nat>) {
    Shape(sys, s) && c != {} && (forall i | i in c :: i < |s|) &&
    forall i {:trigger Parked(sys, i, s[i], c)} | i in c :: Parked(sys, i, s[i], c)
  }

  lemma ParkedStays(sys: System, s: State, c: set<nat>, step: Step, i: nat)
    requires Deadlocked(sys, s, c) && LockInv(sys, s) && Enabled(sys, s, step) && i in c
    requires step.Fail? ==> step.i !in c
    ensures Shape(sys, Apply(sys, s, step))
    ensures Apply(sys, s, step)[i].phase == s[i].phase && Apply(sys, s, step)[i].lock == ByScanner
  {
    ShapeStep(sys, s, step);
    assert Parked(sys, i, s[i], c);
    assert NodeLock(sys, s, step.i);
    if step.i in c {
      assert Parked(sys, step.i, s[step.i], c);
      var j := Asked(sys, step.i, s[step.i]).node;
      assert Parked(sys, j, s[j], c);
    }
    if i != step.i { OthersKept(sys, s, step, i); }
  }

  /** A deadlock is for ever: no step but a failing request of a member ends it. */
  lemma DeadlockPersists(sys: System, s: State, c: set<nat>, step: Step)
    requires Deadlocked(sys, s, c) && LockInv(sys, s) && Enabled(sys, s, step)
    requires step.Fail? ==> step.i !in c
    ensures Deadlocked(sys, Apply(sys, s, step), c)
  {
    ShapeStep(sys, s, step);
    forall i | i in c ensures i < |s| && Parked(sys, i, Apply(sys, s, step)[i], c) {
      assert Parked(sys, i, s[i], c);
      ParkedStays(sys, s, c, step, i);
    }
  }

  lemma {:induction false} DeadlockForever(sys: System, s: State, c: set<nat>, steps: seq<Step>, t: State)
    requires Deadlocked(sys, s, c) && Inv(sys, s) && Run(sys, s, steps, t)
    requires forall x | 0 <= x < |steps| && steps[x].Fail? :: steps[x].i !in c
    ensures Deadlocked(sys, t, c)
    decreases |steps|
  {
    if steps != [] {
      var init, last := steps[..|steps| - 1], steps[|steps| - 1];
      var m := LastStep(sys, s, steps, t);
      DeadlockForever(sys, s, c, init, m);
      RunInv(sys, s, init, m);
      DeadlockPersists(sys, m, c, last);
    }
  }

  /** KME `i` asks some member of `c`. */
  ghost predicate AsksInto(sys: System, i: nat, c: set<nat>) {
    exists k: nat, j: nat :: sys.Asks(i, k, j) && j in c
  }

  /** A set of KMEs in which each asks some member: the cycles of the graph, with
      what leads into them. */
  ghost predicate Trap(sys: System, c: set<nat>) {
    c != {} && forall i {:trigger AsksInto(sys, i, c)} | i in c :: AsksInto(sys, i, c)
  }

  lemma DeadlockIsTrap(sys: System, s: State, c: set<nat>)
    requires Deadlocked(sys, s, c)
    ensures Trap(sys, c)
  {
    forall i | i in c ensures AsksInto(sys, i, c) {
      assert Parked(sys, i, s[i], c);
      assert sys.Asks(i, s[i].phase.k, Asked(sys, i, s[i]).node);
    }
  }

  /** The next step of the round of `x`. */
  function Mover(sys: System, x: nat, n: Node): Step
    requires NodeShape(sys, x, n) && InFlight(n)
  {
    match n.phase
    case WaitClear => AcquireClear(x)
    case Clearing => ClearList(x)
    case Fetching(k) => if k < |sys.peers[x]| then Send(x) else FetchDone(x)
    case Awaiting(k, Queued) => if Asked(sys, x, n).Peer? then HandlerAcquire(x) else OutsideReply(x, Status("", ""))
    case Awaiting(k, Serving) => HandlerReply(x)
    case Awaiting(k, Answered(_)) => Receive(x)
    case WaitPublish => AcquirePublish(x)
    case Publishing => Publish(x)
    case _ => Wake(x)
  }

  lemma RequestHolderMoves(sys: System, s: State, x: nat)
    requires LockInv(sys, s) && x < |s| && s[x].lock.ByRequest?
    ensures Enabled(sys, s, HandlerReply(s[x].lock.from))
  {
    assert NodeLock(sys, s, x);
    assert NodeLock(sys, s, s[x].lock.from);
  }

  lemma StuckLock(sys: System, s: State, x: nat)
    requires sys.holdLock && LockInv(sys, s) && Stuck(sys, s) && x < |s|
    ensures s[x].lock == Free || s[x].lock == ByScanner
  {
    assert !Enabled(sys, s, OtherRelease(x));
    if s[x].lock.ByRequest? { RequestHolderMoves(sys, s, x); }
  }

  lemma StuckNode(sys: System, s: State, x: nat)
    requires sys.holdLock && LockInv(sys, s) && Stuck(sys, s) && x < |s| && InFlight(s[x])
    ensures IsAwaiting(s[x], Queued) && Asked(sys, x, s[x]).Peer?
    ensures s[Asked(sys, x, s[x]).node].lock == ByScanner
  {
    assert NodeLock(sys, s, x);
    assert !Enabled(sys, s, Mover(sys, x, s[x]));
    StuckLock(sys, s, x);
    if IsAwaiting(s[x], Queued) && Asked(sys, x, s[x]).Peer? { StuckLock(sys, s, Asked(sys, x, s[x]).node); }
  }

  /** If in the variant a round is in flight and nothing can move, then the
      scanners that hold their locks are deadlocked. */
  lemma StuckIsDeadlock(sys: System, s: State, x: nat)
    requires sys.holdLock && LockInv(sys, s) && Stuck(sys, s)
    requires x < |s| && InFlight(s[x])
    ensures Deadlocked(sys, s, set i: nat | i < |s| && s[i].lock == ByScanner)
  {
    var c := set i: nat | i < |s| && s[i].lock == ByScanner;
    StuckNode(sys, s, x);
    assert NodeLock(sys, s, x);
    assert Asked(sys, x, s[x]).node in c;
    forall i | i in c ensures i < |s| && Parked(sys, i, s[i], c) {
      assert NodeLock(sys, s, i);
      StuckNode(sys, s, i);
    }
  }

  // ---- Every trap deadlocks the variant -------------------------------------

  lemma ClearAlone(sys: System, s: State, i: nat) returns (steps: seq<Step>, n: Node)
    requires sys.holdLock && Shape(sys, s) && i < |s| && s[i] == FRESH
    ensures n.phase == Fetching(0) && Alone(sys, s, i, n)
    ensures Run(sys, s, steps, s[i := n])
  {
    NoStep(sys, s);
    var s1 := Apply(sys, s, AcquireClear(i));
    OneStep(sys, s, [], s, AcquireClear(i), s1);
    n := Apply(sys, s1, ClearList(i))[i];
    OneStep(sys, s, [] + [AcquireClear(i)], s1, ClearList(i), s[i := n]);
    steps := [] + [AcquireClear(i)] + [ClearList(i)];
  }

  predicate Alone(sys: System, s: State, i: nat, n: Node) {
    sys.holdLock && i < |s| && n.lock == ByScanner && NodeShape(sys, i, n) && Shape(sys, s[i := n])
  }

  lemma SendAlone(sys: System, s: State, before: seq<Step>, i: nat, n0: Node) returns (n: Node)
    requires Alone(sys, s, i, n0) && Run(sys, s, before, s[i := n0])
    requires n0.phase.Fetching? && n0.phase.k < |sys.peers[i]|
    ensures n == n0.(phase := Awaiting(n0.phase.k, Queued))
    ensures Alone(sys, s, i, n) && Run(sys, s, before + [Send(i)], s[i := n])
  {
    var s0 := s[i := n0];
    n := n0.(phase := Awaiting(n0.phase.k, Queued));
    ShapeStep(sys, s0, Send(i));
    assert Apply(sys, s0, Send(i)) == s[i := n];
    OneStep(sys, s, before, s0, Send(i), s[i := n]);
  }

  lemma SkipOne(sys: System, s: State, before: seq<Step>, i: nat, n0: Node) returns (steps: seq<Step>, n: Node)
    requires Alone(sys, s, i, n0) && Run(sys, s, before, s[i := n0])
    requires n0.phase.Fetching? && n0.phase.k < |sys.peers[i]|
    ensures n.phase == Fetching(n0.phase.k + 1)
    ensures Alone(sys, s, i, n) && Run(sys, s, steps, s[i := n])
  {
    var n1 := SendAlone(sys, s, before, i, n0);
    var s1 := s[i := n1];
    n := n1.(phase := Fetching(n0.phase.k + 1), log := n1.log + [Failed]);
    assert Orphan(sys, s1, i, false) == s1;
    ShapeStep(sys, s1, Fail(i, false));
    assert Apply(sys, s1, Fail(i, false)) == s[i := n];
    steps := before + [Send(i)] + [Fail(i, false)];
    OneStep(sys, s, before + [Send(i)], s1, Fail(i, false), s[i := n]);
  }

  /** A scanner that alone moves: lock, clear, let the first `k` requests fail. */
  lemma {:induction false} FetchAlone(sys: System, s: State, i: nat, k: nat) returns (steps: seq<Step>, n: Node)
    requires sys.holdLock && Shape(sys, s) && i < |s| && s[i] == FRESH && k <= |sys.peers[i]|
    ensures n.phase == Fetching(k) && Alone(sys, s, i, n)
    ensures Run(sys, s, steps, s[i := n])
  {
    if k == 0 {
      steps, n := ClearAlone(sys, s, i);
    } else {
      var before, n0 := FetchAlone(sys, s, i, k - 1);
      steps, n := SkipOne(sys, s, before, i, n0);
    }
  }

  lemma ParkOne(sys: System, s: State, i: nat, c: set<nat>) returns (steps: seq<Step>, n: Node)
    requires sys.Valid() && sys.holdLock && Shape(sys, s) && i < |s| && s[i] == FRESH && AsksInto(sys, i, c)
    ensures Parked(sys, i, n, c) && Shape(sys, s[i := n]) && Run(sys, s, steps, s[i := n])
  {
    var k: nat, j: nat :| sys.Asks(i, k, j) && j in c;
    var before, n0 := FetchAlone(sys, s, i, k);
    n := SendAlone(sys, s, before, i, n0);
    steps := before + [Send(i)];
  }

  lemma {:induction false} ParkAll(sys: System, todo: set<nat>, c: set<nat>) returns (steps: seq<Step>, t: State)
    requires sys.Valid() && sys.holdLock && todo <= c && Trap(sys, c)
    ensures Run(sys, Init(sys), steps, t) && Shape(sys, t)
    ensures forall i: nat | i < |t| :: if i in todo then Parked(sys, i, t[i], c) else t[i] == FRESH
    decreases |todo|
  {
    if todo == {} {
      steps, t := [], Init(sys);
      NoStep(sys, t);
    } else {
      var i :| i in todo;
      var before, t0 := ParkAll(sys, todo - {i}, c);
      assert AsksInto(sys, i, c);
      var k: nat, j: nat :| sys.Asks(i, k, j) && j in c;
      var more, n := ParkOne(sys, t0, i, c);
      steps, t := before + more, t0[i := n];
      RunConcat(sys, Init(sys), before, t0, more, t);
    }
  }

  /** Fetching under the lock can deadlock exactly the systems whose graph of
      KMEs has a trap. */
  lemma VariantDeadlocksIff(sys: System)
    requires sys.Valid() && sys.holdLock
    ensures (exists s, c :: Reachable(sys, s) && Deadlocked(sys, s, c)) <==> (exists c :: Trap(sys, c))
  {
    if s, c :| Reachable(sys, s) && Deadlocked(sys, s, c) {
      DeadlockIsTrap(sys, s, c);
    }
    if c :| Trap(sys, c) {
      var steps, t := ParkAll(sys, c, c);
      forall i | i in c ensures i < |t| && Parked(sys, i, t[i], c) {
        assert AsksInto(sys, i, c);
      }
      assert Reachable(sys, t) && Deadlocked(sys, t, c);
    }
  }

  /** The two KMEs of the lab ask each other, so the variant deadlocks them. */
  lemma LabVariantDeadlocks(sys: System)
    requires sys.Valid() && sys.holdLock && sys.peers == [[Peer(1)], [Peer(0)]]
    ensures exists s, c :: Reachable(sys, s) && Deadlocked(sys, s, c)
  {
    assert sys.Asks(0, 0, 1) && sys.Asks(1, 0, 0);
    assert Trap(sys, {0, 1});
    VariantDeadlocksIff(sys);
  }
}
