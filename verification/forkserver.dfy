/** The fork server protocol: a fuzzer and a server on two pipes, the child processes the
    server forks, stops and resumes, and the fuzzer's timer that may kill a child. */
module ForkServer {

  type Pid = p: int | p > 0 witness 1

  /** Why a wait returned. A child crashes by a signal of its own; the timer's is SIGKILL. */
  datatype Status = DidExit | Crashed | WasKilled | DidStop

  /** A child the server has forked and not yet reaped. */
  datatype Process = Running | Stopped(reported: bool) | Zombie(how: Status)

  /** What the server writes; a status says which child it is of. */
  datatype Reply = PidReply(pid: Pid) | StatusReply(status: Status, pid: Pid)

  /** Where the fuzzer is in its run of the target. */
  datatype FuzzerAt =
    | Idle            // between runs
    | AwaitPid        // request written
    | HavePid         // pid read, timer not armed yet
    | AwaitStatus     // timer armed
    | HaveStatus      // status read
    | PidDropped      // pid forgotten unless the child stopped
    | Disarmed        // timer cancelled, timeout not recorded yet

  datatype ServerAt =
    | AwaitRequest
    | ReapKilled      // writing off a stopped child that was killed
    | StartChild      // fork, or resume the stopped child
    | WritePid
    | WaitChild
    | WriteStatus
    | GivenUp         // a wait on no child

  datatype State = State(
    persistent: bool,
    // the fuzzer
    fuzzer: FuzzerAt, childPid: int, timedOut: bool, prevTimedOut: bool, armed: bool, readStatus: Reply,
    // the server
    server: ServerAt, child: int, childStopped: bool, status: Status,
    // pipes, each with its oldest message first
    requests: seq<bool>, replies: seq<Reply>,
    // unreaped children
    procs: map<Pid, Process>)

  datatype Action =
    | Request | ReadPid | Arm | ReadStatus | DropPid | Disarm | Record   // fuzzer
    | Fire                                                               // timer
    | ReadRequest | Reap | Fork(pid: Pid) | Resume | SendPid | Wait | SendStatus  // server
    | StopSelf(pid: Pid) | Exit(pid: Pid) | Crash(pid: Pid)              // children

  ghost predicate Init(s: State) {
    && s.fuzzer == Idle && !s.timedOut && !s.prevTimedOut && !s.armed
    && s.server == AwaitRequest && !s.childStopped
    && s.requests == [] && s.replies == [] && s.procs == map[]
  }

  /** What a wait on the server's child would find. */
  predicate WaitReturns(s: State, untraced: bool) {
    s.child <= 0 || s.child !in s.procs || s.procs[s.child].Zombie? ||
    (untraced && s.procs[s.child].Stopped? && !s.procs[s.child].reported)
  }

  predicate Enabled(s: State, a: Action) {
    match a
    case Request => s.fuzzer == Idle
    case ReadPid => s.fuzzer == AwaitPid && s.replies != [] && s.replies[0].PidReply?
    case Arm => s.fuzzer == HavePid
    case ReadStatus => s.fuzzer == AwaitStatus && s.replies != [] && s.replies[0].StatusReply?
    case DropPid => s.fuzzer == HaveStatus && s.readStatus.StatusReply?
    case Disarm => s.fuzzer == PidDropped
    case Record => s.fuzzer == Disarmed
    case Fire => s.armed
    case ReadRequest => s.server == AwaitRequest && s.requests != []
    case Reap => s.server == ReapKilled && WaitReturns(s, false)
    case Fork(pid) => s.server == StartChild && !s.childStopped && pid !in s.procs
    case Resume => s.server == StartChild && s.childStopped && s.child > 0
    case SendPid => s.server == WritePid && s.child > 0
    case Wait => s.server == WaitChild && WaitReturns(s, s.persistent)
    case SendStatus => s.server == WriteStatus && s.child > 0
    case StopSelf(pid) => pid in s.procs && s.procs[pid] == Running
    case Exit(pid) => pid in s.procs && s.procs[pid] == Running
    case Crash(pid) => pid in s.procs && s.procs[pid] == Running
  }

  /** SIGKILL: ends any child that is not dead yet; a pid that is not a child is left alone. */
  function Killed(procs: map<Pid, Process>, pid: int): map<Pid, Process> {
    if pid > 0 && pid in procs && !procs[pid].Zombie? then procs[pid := Zombie(WasKilled)] else procs
  }

  function Apply(s: State, a: Action): State
    requires Enabled(s, a)
  {
    match a
    case Request => s.(fuzzer := AwaitPid, timedOut := false, requests := s.requests + [s.prevTimedOut])
    case ReadPid => s.(fuzzer := HavePid, childPid := s.replies[0].pid, replies := s.replies[1..])
    case Arm => s.(fuzzer := AwaitStatus, armed := true)
    case ReadStatus => s.(fuzzer := HaveStatus, readStatus := s.replies[0], replies := s.replies[1..])
    case DropPid => s.(fuzzer := PidDropped, childPid := if s.readStatus.status == DidStop then s.childPid else 0)
    case Disarm => s.(fuzzer := Disarmed, armed := false)
    case Record => s.(fuzzer := Idle, prevTimedOut := s.timedOut)
    case Fire =>
      if s.childPid > 0 then s.(armed := false, timedOut := true, procs := Killed(s.procs, s.childPid))
      else s.(armed := false)
    case ReadRequest =>
      var killed := s.requests[0];
      var s1 := s.(requests := s.requests[1..]);
      if s.childStopped && killed then s1.(server := ReapKilled, childStopped := false) else s1.(server := StartChild)
    case Reap =>
      if s.child <= 0 || s.child !in s.procs then s.(server := GivenUp)
      else s.(server := StartChild, procs := s.procs - {s.child})
    case Fork(pid) => s.(server := WritePid, child := pid, procs := s.procs[pid := Running])
    case Resume =>
      s.(server := WritePid, childStopped := false,
         procs := if s.child in s.procs && s.procs[s.child].Stopped? then s.procs[s.child := Running] else s.procs)
    case SendPid => s.(server := WaitChild, replies := s.replies + [PidReply(s.child)])
    case Wait =>
      if s.child <= 0 || s.child !in s.procs then s.(server := GivenUp)
      else if s.procs[s.child].Zombie? then
        s.(server := WriteStatus, status := s.procs[s.child].how, procs := s.procs - {s.child})
      else s.(server := WriteStatus, status := DidStop, procs := s.procs[s.child := Stopped(true)])
    case SendStatus =>
      s.(server := AwaitRequest, childStopped := (s.status == DidStop) || s.childStopped,
         replies := s.replies + [StatusReply(s.status, s.child)])
    case StopSelf(pid) => s.(procs := s.procs[pid := Stopped(false)])
    case Exit(pid) => s.(procs := s.procs[pid := Zombie(DidExit)])
    case Crash(pid) => s.(procs := s.procs[pid := Zombie(Crashed)])
  }

  // ----- The invariant -----

  /** Fuzzer and server take turns: what is in the pipes follows from where the two are, and
      the fuzzer works with the pid of the server's child. */
  ghost predicate TurnsTaken(s: State) {
    match s.fuzzer
    case Idle => Quiet(s)
    case AwaitPid => !s.armed && RequestOut(s)
    case HavePid => !s.armed && MidRound(s)
    case AwaitStatus => MidRound(s)
    case HaveStatus => Settled(s)
    case PidDropped => Settled(s)
    case Disarmed => !s.armed && Settled(s)
  }

  /** A request has been written, and the pid not read yet. */
  ghost predicate RequestOut(s: State) {
    match s.server
    case AwaitRequest =>
      (|s.requests| == 1 && s.replies == []) ||
      (s.requests == [] && |s.replies| == 2 && s.child > 0 && s.replies[0] == PidReply(s.child) && StatusAt(s, 1))
    case ReapKilled => s.requests == [] && s.replies == []
    case StartChild => s.requests == [] && s.replies == []
    case WritePid => s.requests == [] && s.replies == []
    case WaitChild => s.requests == [] && s.child > 0 && s.replies == [PidReply(s.child)]
    case WriteStatus => s.requests == [] && s.child > 0 && s.replies == [PidReply(s.child)]
    case GivenUp => false
  }

  ghost predicate StatusAt(s: State, k: nat) {
    k < |s.replies| && s.child > 0 && s.replies[k].StatusReply? && s.replies[k].pid == s.child &&
    (s.replies[k].status == DidStop <==> s.childStopped)
  }

  ghost predicate Quiet(s: State) {
    !s.armed && s.server == AwaitRequest && s.requests == [] && s.replies == []
  }

  /** The pid has been read, and the status not yet. */
  ghost predicate MidRound(s: State) {
    && s.requests == [] && s.childPid == s.child && s.child > 0
    && match s.server
       case WaitChild => s.replies == []
       case WriteStatus => s.replies == []
       case AwaitRequest => |s.replies| == 1 && StatusAt(s, 0)
       case _ => false
  }

  /** The status has been read, and is that of the child whose pid was read this round. */
  ghost predicate Settled(s: State) {
    && s.server == AwaitRequest && s.requests == [] && s.replies == []
    && s.child > 0 && s.readStatus.StatusReply? && s.readStatus.pid == s.child
    && (s.readStatus.status == DidStop <==> s.childStopped)
    && s.childPid == (if s.fuzzer == HaveStatus || s.childStopped then s.child else 0)
  }

  /** The fuzzer has seen a timeout it has not told the server about yet. */
  ghost predicate TimeoutPending(s: State) {
    match s.fuzzer
    case Idle => s.prevTimedOut
    case AwaitPid => if |s.requests| == 1 then s.requests[0] else s.timedOut
    case _ => s.timedOut
  }

  /** The only unreaped child is the server's, and it is in the state the server thinks. */
  ghost predicate ChildKnown(s: State) {
    && (forall p :: p in s.procs ==> p == s.child)
    && match s.server
       case AwaitRequest =>
         if s.childStopped then
           s.child > 0 && s.child in s.procs &&
           (if TimeoutPending(s) then s.procs[s.child].Zombie? else s.procs[s.child] == Stopped(true))
         else s.procs == map[]
       case ReapKilled => !s.childStopped && s.child > 0 && s.child in s.procs && s.procs[s.child].Zombie?
       case StartChild =>
         if s.childStopped then s.child > 0 && s.child in s.procs && s.procs[s.child] == Stopped(true)
         else s.procs == map[]
       case WritePid => !s.childStopped && s.child > 0 && s.child in s.procs && !s.timedOut && Fresh(s)
       case WaitChild => !s.childStopped && s.child > 0 && s.child in s.procs && Fresh(s) && (s.timedOut ==> s.procs[s.child].Zombie?)
       case WriteStatus =>
         !s.childStopped && s.child > 0 &&
         (if s.status == DidStop then
            s.child in s.procs && (if s.timedOut then s.procs[s.child].Zombie? else s.procs[s.child] == Stopped(true))
          else s.procs == map[])
       case GivenUp => false
  }

  /** A child that is being waited for has no stop the server has already seen, and its end,
      if it has ended, was an exit, a crash or a kill. */
  ghost predicate Fresh(s: State) {
    s.child > 0 && s.child in s.procs &&
    s.procs[s.child] != Stopped(true) && s.procs[s.child] != Zombie(DidStop)
  }

  /** Before the timer is armed there is no timeout in this round, and while the status is
      awaited an expired timer has left its mark. */
  ghost predicate TimerKnown(s: State) {
    && (s.fuzzer == AwaitPid || s.fuzzer == HavePid ==> !s.timedOut)
    && (s.fuzzer == AwaitStatus && !s.armed ==> s.timedOut)
  }

  ghost predicate Inv(s: State) {
    TurnsTaken(s) && ChildKnown(s) && TimerKnown(s)
  }

  // ----- Every step keeps it -----

  lemma FuzzerKeepsInv(s: State, a: Action)
    requires Inv(s) && Enabled(s, a)
    requires a.Request? || a.ReadPid? || a.Arm? || a.ReadStatus? || a.DropPid? || a.Disarm? || a.Record?
    ensures Inv(Apply(s, a))
  {
  }

  lemma TimerKeepsInv(s: State)
    requires Inv(s) && Enabled(s, Fire)
    ensures Inv(Apply(s, Fire))
  {
  }

  lemma ServerStartKeepsInv(s: State, a: Action)
    requires Inv(s) && Enabled(s, a) && (a.ReadRequest? || a.Reap? || a.Fork? || a.Resume?)
    ensures Inv(Apply(s, a))
  {
  }

  lemma ServerWaitKeepsInv(s: State, a: Action)
    requires Inv(s) && Enabled(s, a) && (a.SendPid? || a.Wait? || a.SendStatus?)
    ensures Inv(Apply(s, a))
  {
  }

  lemma ChildKeepsInv(s: State, a: Action)
    requires Inv(s) && Enabled(s, a) && (a.StopSelf? || a.Exit? || a.Crash?)
    ensures Inv(Apply(s, a))
  {
  }

  lemma StepKeepsInv(s: State, a: Action)
    requires Inv(s) && Enabled(s, a)
    ensures Inv(Apply(s, a))
  {
    match a {
      case Fire => TimerKeepsInv(s);
      case StopSelf(_) => ChildKeepsInv(s, a);
      case Exit(_) => ChildKeepsInv(s, a);
      case Crash(_) => ChildKeepsInv(s, a);
      case ReadRequest => ServerStartKeepsInv(s, a);
      case Reap => ServerStartKeepsInv(s, a);
      case Fork(_) => ServerStartKeepsInv(s, a);
      case Resume => ServerStartKeepsInv(s, a);
      case SendPid => ServerWaitKeepsInv(s, a);
      case Wait => ServerWaitKeepsInv(s, a);
      case SendStatus => ServerWaitKeepsInv(s, a);
      case _ => FuzzerKeepsInv(s, a);
    }
  }

  // ----- Runs -----

  /** Any interleaving of fuzzer, server, children and timer. */
  ghost predicate CanRun(s: State, acts: seq<Action>)
    decreases |acts|
  {
    acts != [] ==> Enabled(s, acts[0]) && CanRun(Apply(s, acts[0]), acts[1..])
  }

  ghost function After(s: State, acts: seq<Action>): State
    requires CanRun(s, acts)
    decreases |acts|
  {
    if acts == [] then s else After(Apply(s, acts[0]), acts[1..])
  }

  lemma {:induction false} RunKeepsInv(s: State, acts: seq<Action>)
    requires Inv(s) && CanRun(s, acts)
    ensures Inv(After(s, acts))
    decreases |acts|
  {
    if acts != [] {
      StepKeepsInv(s, acts[0]);
      RunKeepsInv(Apply(s, acts[0]), acts[1..]);
    }
  }

  /** What the protocol promises, in the terms of the two programs. */
  ghost predicate Promises(s: State) {
    // at most one child is unreaped
    && |s.procs| <= 1
    // the server never finds that it has no child to wait for
    && s.server != GivenUp
    && (s.server == WaitChild || s.server == ReapKilled ==> s.child > 0 && s.child in s.procs)
    // a child is resumed only when it is stopped, and written off only when it is dead
    && (s.server == StartChild && s.childStopped ==> s.child > 0 && s.child in s.procs && s.procs[s.child].Stopped?)
    && (s.server == ReapKilled ==> s.procs[s.child].Zombie?)
    // a pid is read where a pid was written, and a status where a status was written
    && (s.fuzzer == AwaitPid && s.replies != [] ==> s.replies[0].PidReply?)
    && (s.fuzzer == AwaitStatus && s.replies != [] ==> s.replies[0].StatusReply?)
    // the status read is that of the child whose pid was read in this round
    && (s.fuzzer == HaveStatus ==> s.readStatus.StatusReply? && s.readStatus.pid == s.childPid)
    // the timer can only kill the child of this round
    && (s.armed && s.childPid > 0 ==> s.childPid == s.child)
  }

  lemma InvGivesPromises(s: State)
    requires Inv(s)
    ensures Promises(s)
  {
    if s.procs != map[] {
      assert s.child > 0 && s.procs.Keys == {s.child};
    }
  }

  /** In every interleaving, from the start, the promises hold after every step. */
  lemma EveryRunIsSafe(s: State, acts: seq<Action>)
    requires Init(s) && CanRun(s, acts)
    ensures Promises(After(s, acts))
  {
    RunKeepsInv(s, acts);
    InvGivesPromises(After(s, acts));
  }

  // ----- Whose status it is -----

  /** What the last child did last, as the actions of the run tell. */
  datatype Fate = NoChild | Alive | Did(status: Status)

  /** The fate of the last child, and what it was at the last wait. */
  datatype Notes = Notes(last: Fate, waited: Fate)

  /** A record of the actions alone: the timer reaches a child that runs or is stopped, and
      nothing happens to a dead one. */
  function Note(r: Notes, a: Action): Notes {
    match a
    case Fork(_) => r.(last := Alive)
    case Resume => r.(last := Alive)
    case StopSelf(_) => r.(last := Did(DidStop))
    case Exit(_) => r.(last := Did(DidExit))
    case Crash(_) => r.(last := Did(Crashed))
    case Fire => if r.last == Alive || r.last == Did(DidStop) then r.(last := Did(WasKilled)) else r
    case Wait => r.(waited := r.last)
    case _ => r
  }

  function Noted(r: Notes, acts: seq<Action>): Notes
    decreases |acts|
  {
    if acts == [] then r else Noted(Note(r, acts[0]), acts[1..])
  }

  /** The child is in the state that its last act left it in. */
  ghost predicate FateKnown(s: State, r: Notes) {
    if s.child > 0 && s.child in s.procs then
      match s.procs[s.child]
      case Running => r.last == Alive
      case Stopped(_) => r.last == Did(DidStop)
      case Zombie(how) => r.last == Did(how) && how != DidStop
    else r.last == NoChild || (r.last.Did? && r.last.status != DidStop)
  }

  /** A status of this round, wherever it has got to, is what the wait found; a kill means that
      the timer has expired in this round. */
  ghost predicate StatusKnown(s: State, r: Notes) {
    && (s.server == WritePid || s.server == WaitChild ==> r.last != Did(WasKilled) || s.timedOut)
    && (s.server == WriteStatus ==> Found(s, r, s.status))
    && (forall k :: 0 <= k < |s.replies| && s.replies[k].StatusReply? ==> Found(s, r, s.replies[k].status))
    && (StatusRead(s) ==> s.readStatus.StatusReply? && Found(s, r, s.readStatus.status))
  }

  ghost predicate Found(s: State, r: Notes, status: Status) {
    r.waited == Did(status) && (status == WasKilled ==> s.timedOut)
  }

  ghost predicate StatusRead(s: State) {
    s.fuzzer == HaveStatus || s.fuzzer == PidDropped || s.fuzzer == Disarmed
  }

  ghost predicate Told(s: State, r: Notes) {
    FateKnown(s, r) && StatusKnown(s, r)
  }

  lemma FuzzerKeepsTold(s: State, a: Action, r: Notes)
    requires Inv(s) && Told(s, r) && Enabled(s, a)
    requires a.Request? || a.ReadPid? || a.Arm? || a.ReadStatus? || a.DropPid? || a.Disarm? || a.Record?
    ensures Told(Apply(s, a), Note(r, a))
  {
  }

  lemma TimerKeepsTold(s: State, r: Notes)
    requires Inv(s) && Told(s, r) && Enabled(s, Fire)
    ensures Told(Apply(s, Fire), Note(r, Fire))
  {
  }

  lemma ServerStartKeepsTold(s: State, a: Action, r: Notes)
    requires Inv(s) && Told(s, r) && Enabled(s, a) && (a.ReadRequest? || a.Reap? || a.Fork? || a.Resume?)
    ensures Told(Apply(s, a), Note(r, a))
  {
  }

  lemma ServerWaitKeepsTold(s: State, a: Action, r: Notes)
    requires Inv(s) && Told(s, r) && Enabled(s, a) && (a.SendPid? || a.Wait? || a.SendStatus?)
    ensures Told(Apply(s, a), Note(r, a))
  {
  }

  lemma ChildKeepsTold(s: State, a: Action, r: Notes)
    requires Inv(s) && Told(s, r) && Enabled(s, a) && (a.StopSelf? || a.Exit? || a.Crash?)
    ensures Told(Apply(s, a), Note(r, a))
  {
  }

  lemma StepKeepsTold(s: State, a: Action, r: Notes)
    requires Inv(s) && Told(s, r) && Enabled(s, a)
    ensures Told(Apply(s, a), Note(r, a))
  {
    match a {
      case Fire => TimerKeepsTold(s, r);
      case StopSelf(_) => ChildKeepsTold(s, a, r);
      case Exit(_) => ChildKeepsTold(s, a, r);
      case Crash(_) => ChildKeepsTold(s, a, r);
      case ReadRequest => ServerStartKeepsTold(s, a, r);
      case Reap => ServerStartKeepsTold(s, a, r);
      case Fork(_) => ServerStartKeepsTold(s, a, r);
      case Resume => ServerStartKeepsTold(s, a, r);
      case SendPid => ServerWaitKeepsTold(s, a, r);
      case Wait => ServerWaitKeepsTold(s, a, r);
      case SendStatus => ServerWaitKeepsTold(s, a, r);
      case _ => FuzzerKeepsTold(s, a, r);
    }
  }

  lemma {:induction false} RunKeepsTold(s: State, acts: seq<Action>, r: Notes)
    requires Inv(s) && Told(s, r) && CanRun(s, acts)
    ensures Told(After(s, acts), Noted(r, acts))
    decreases |acts|
  {
    if acts != [] {
      StepKeepsInv(s, acts[0]);
      StepKeepsTold(s, acts[0], r);
      RunKeepsTold(Apply(s, acts[0]), acts[1..], Note(r, acts[0]));
    }
  }

  /** In every interleaving, from the start: the status that the fuzzer reads tells what the
      child whose pid it read had done last when the server waited for it. */
  lemma EveryStatusIsTheChilds(s: State, acts: seq<Action>)
    requires Init(s) && CanRun(s, acts)
    ensures var t, r := After(s, acts), Noted(Notes(NoChild, NoChild), acts);
            && (t.fuzzer == HaveStatus ==> t.readStatus.StatusReply? && t.readStatus.pid == t.childPid)
            && (StatusRead(t) ==> t.readStatus.StatusReply? && r.waited == Did(t.readStatus.status))
  {
    EveryRunIsSafe(s, acts);
    RunKeepsTold(s, acts, Notes(NoChild, NoChild));
  }

  /** What the fuzzer makes of a run of the target. */
  datatype Fault = NoFault | Timeout | CrashFault

  function Verdict(status: Status, timedOut: bool): Fault {
    if status == Crashed || status == WasKilled then
      if timedOut && status == WasKilled then Timeout else CrashFault
    else NoFault
  }

  /** In every interleaving: a timeout is reported exactly if the timer ended the child that was
      waited for, and a crash exactly if the child crashed. A timer that expires after the child
      has ended or stopped changes neither. */
  lemma EveryVerdictIsRight(s: State, acts: seq<Action>)
    requires Init(s) && CanRun(s, acts) && StatusRead(After(s, acts))
    ensures var t, r := After(s, acts), Noted(Notes(NoChild, NoChild), acts);
            && t.readStatus.StatusReply?
            && (Verdict(t.readStatus.status, t.timedOut) == Timeout <==> r.waited == Did(WasKilled))
            && (Verdict(t.readStatus.status, t.timedOut) == CrashFault <==> r.waited == Did(Crashed))
            && (Verdict(t.readStatus.status, t.timedOut) == NoFault <==> r.waited == Did(DidExit) || r.waited == Did(DidStop))
  {
    EveryRunIsSafe(s, acts);
    RunKeepsTold(s, acts, Notes(NoChild, NoChild));
  }

  // ----- The timer and pids that are gone -----

  /** If the timer expired now, it would signal a pid that is no child any more, and that the
      system may have given away again. */
  ghost predicate SignalsGone(s: State) {
    s.armed && s.childPid > 0 && s.childPid !in s.procs
  }

  /** The child of this round has ended and been reaped, and the fuzzer has not dropped its pid
      yet. */
  ghost predicate PidOutlives(s: State) {
    || (s.fuzzer == AwaitStatus && s.server == WriteStatus && s.status != DidStop)
    || (s.fuzzer == AwaitStatus && s.server == AwaitRequest && !s.childStopped)
    || (s.fuzzer == HaveStatus && s.readStatus.StatusReply? && s.readStatus.status != DidStop)
  }

  /** Exactly when that is so, in every reachable state. */
  lemma SignalsGoneIff(s: State)
    requires Inv(s)
    ensures SignalsGone(s) <==> s.armed && PidOutlives(s)
  {
  }

  lemma RunFirst(s: State, a: Action, acts: seq<Action>)
    requires Enabled(s, a) && CanRun(Apply(s, a), acts)
    ensures CanRun(s, [a] + acts) && After(s, [a] + acts) == After(Apply(s, a), acts)
  {
    assert ([a] + acts)[1..] == acts;
  }

  /** It does happen: the child exits and is reaped before its status is read. */
  lemma TimerCanSignalGone(s: State) returns (acts: seq<Action>)
    requires Init(s)
    ensures CanRun(s, acts) && SignalsGone(After(s, acts))
  {
    var s1 := Apply(s, Request);
    var s2 := Apply(s1, ReadRequest);
    var s3 := Apply(s2, Fork(1));
    acts := FromFork(s3);
    RunFirst(s2, Fork(1), acts);
    RunFirst(s1, ReadRequest, [Fork(1)] + acts);
    RunFirst(s, Request, [ReadRequest] + ([Fork(1)] + acts));
    acts := [Request] + ([ReadRequest] + ([Fork(1)] + acts));
  }

  lemma FromFork(s: State) returns (acts: seq<Action>)
    requires s.server == WritePid && s.child == 1 && s.procs == map[1 := Running] && s.fuzzer == AwaitPid && s.replies == []
    ensures CanRun(s, acts) && SignalsGone(After(s, acts))
  {
    var s1 := Apply(s, SendPid);
    var s2 := Apply(s1, ReadPid);
    var s3 := Apply(s2, Arm);
    acts := FromArm(s3);
    RunFirst(s2, Arm, acts);
    RunFirst(s1, ReadPid, [Arm] + acts);
    RunFirst(s, SendPid, [ReadPid] + ([Arm] + acts));
    acts := [SendPid] + ([ReadPid] + ([Arm] + acts));
  }

  lemma FromArm(s: State) returns (acts: seq<Action>)
    requires s.server == WaitChild && s.child == s.childPid == 1 && s.procs == map[1 := Running] && s.armed
    ensures CanRun(s, acts) && SignalsGone(After(s, acts))
  {
    var s1 := Apply(s, Exit(1));
    RunFirst(s1, Wait, []);
    RunFirst(s, Exit(1), [Wait] + []);
    acts := [Exit(1)] + ([Wait] + []);
  }

  // ----- No interleaving gets stuck -----

  /** Work left in the round, counted in steps. */
  ghost function ServerWork(s: State): nat {
    match s.server
    case AwaitRequest => 1
    case WriteStatus => 2
    case WaitChild => if WaitReturns(s, s.persistent) then 3 else 4
    case _ => 5
  }

  ghost function Work(s: State): nat {
    match s.fuzzer
    case Idle => 0
    case Disarmed => 1
    case PidDropped => 2
    case HaveStatus => 3
    case AwaitStatus => 3 + ServerWork(s)
    case HavePid => 4 + ServerWork(s)
    case AwaitPid =>
      if s.replies != [] then 5 + ServerWork(s)
      else match s.server
           case WritePid => 10
           case StartChild => 11
           case ReapKilled => 12
           case _ => 13
  }

  /** An action that brings the round closer to its end. The environment has a part in it only
      while the server waits for a running child: the child exits, or the timer fires. */
  lemma Progress(s: State) returns (a: Action)
    requires Inv(s) && s.fuzzer != Idle
    ensures Enabled(s, a) && Work(Apply(s, a)) < Work(s)
    ensures a.Exit? || a.Fire? ==> s.server == WaitChild && !WaitReturns(s, s.persistent)
    ensures !a.StopSelf? && !a.Crash?
  {
    match s.fuzzer {
      case Disarmed => a := Record;
      case PidDropped => a := Disarm;
      case HaveStatus => a := DropPid;
      case HavePid => a := Arm;
      case AwaitStatus => a := ServerProgress(s);
      case AwaitPid =>
        if s.replies != [] {
          a := ReadPid;
        } else {
          match s.server {
            case AwaitRequest => a := ReadRequest;
            case ReapKilled => a := Reap;
            case StartChild =>
              if s.childStopped {
                a := Resume;
              } else {
                a := Fork(1);
              }
            case WritePid => a := SendPid;
          }
        }
    }
  }

  lemma ServerProgress(s: State) returns (a: Action)
    requires Inv(s) && s.fuzzer == AwaitStatus
    ensures Enabled(s, a) && Work(Apply(s, a)) < Work(s)
    ensures a.Exit? || a.Fire? ==> s.server == WaitChild && !WaitReturns(s, s.persistent)
    ensures !a.StopSelf? && !a.Crash?
  {
    match s.server {
      case AwaitRequest => a := ReadStatus;
      case WriteStatus => a := SendStatus;
      case WaitChild =>
        if WaitReturns(s, s.persistent) {
          a := Wait;
        } else if s.procs[s.child] == Running {
          a := Exit(s.child);
        } else {
          a := Fire;
        }
    }
  }

  /** From every reachable state the round can be brought to its end, in at most 13 steps. */
  lemma {:induction false} RoundCanFinish(s: State) returns (acts: seq<Action>)
    requires Inv(s)
    ensures CanRun(s, acts) && After(s, acts).fuzzer == Idle && |acts| <= Work(s)
    decreases Work(s)
  {
    if s.fuzzer == Idle {
      acts := [];
    } else {
      var a := Progress(s);
      StepKeepsInv(s, a);
      var rest := RoundCanFinish(Apply(s, a));
      acts := [a] + rest;
      assert acts[1..] == rest;
    }
  }
}
