/** What every interleaving of the plugin's calls and the monitor keeps, from single steps to whole
    runs. The only hypotheses are those written into Enabled (fresh pids, no signal to a reaped
    process) and Honest (waits). */
module SupervisorSafety {
  import opened Options
  import opened ProcessWait
  import opened Supervisor

  // ------------------------------------------------------- one step at a time

  lemma StartStepKeepsInv(s: Sys, a: Action)
    requires Inv(s) && Enabled(s, a) && !IsMonitorAction(a) && !a.Dies?
    requires a.CallStart? || a.KillOld? || a.StartProcess? || a.SetFlag? || a.Launch?
    ensures Inv(Next(s, a))
  {
  }

  lemma KillStepKeepsInv(s: Sys, delivered: bool)
    requires Inv(s) && Enabled(s, Kill(delivered))
    ensures Inv(Next(s, Kill(delivered)))
  {
  }

  lemma LeaveStepKeepsInv(s: Sys, a: Action)
    requires Inv(s) && Enabled(s, a) && (a.Unlock? || a.Join?)
    ensures Inv(Next(s, a))
  {
  }

  lemma StopStepKeepsInv(s: Sys, a: Action)
    requires Inv(s) && Enabled(s, a)
    requires a.CallStop? || a.ReadFlag? || a.Lock? || a.Check? || a.Kill? || a.Unlock? || a.Join?
    ensures Inv(Next(s, a))
  {
    if a.Kill? {
      KillStepKeepsInv(s, a.delivered);
    } else if a.Unlock? || a.Join? {
      LeaveStepKeepsInv(s, a);
    }
  }

  lemma WaitStepKeepsInv(s: Sys, status: WaitStatus)
    requires Inv(s) && Enabled(s, MonitorWait(status)) && Honest(s, MonitorWait(status))
    ensures Inv(Next(s, MonitorWait(status)))
  {
  }

  lemma SectionStepKeepsInv(s: Sys, a: Action)
    requires Inv(s) && Enabled(s, a) && IsMonitorAction(a) && !a.MonitorWait?
    ensures Inv(Next(s, a))
  {
  }

  lemma StepKeepsInv(s: Sys, a: Action)
    requires Inv(s) && Enabled(s, a) && Honest(s, a)
    ensures Inv(Next(s, a))
  {
    if a.MonitorWait? {
      WaitStepKeepsInv(s, a.status);
    } else if IsMonitorAction(a) {
      SectionStepKeepsInv(s, a);
    } else if !a.Dies? {
      if a.CallStart? || a.KillOld? || a.StartProcess? || a.SetFlag? || a.Launch? {
        StartStepKeepsInv(s, a);
      } else {
        StopStepKeepsInv(s, a);
      }
    }
  }

  lemma {:induction false} RunKeepsInv(s: Sys, run: seq<Action>)
    requires Inv(s) && ValidRun(s, run)
    ensures Inv(After(s, run))
    decreases |run|
  {
    if run != [] {
      StepKeepsInv(s, run[0]);
      RunKeepsInv(Next(s, run[0]), run[1..]);
    }
  }

  // -------------------------------------------------------------- safety

  /** In every reachable state of every interleaving there is at most one forked process that is
      alive and was not signalled by stopProcess, and it is pid_. */
  lemma AtMostOneSurvivor(run: seq<Action>, p: int, q: int)
    requires ValidRun(INITIAL, run)
    requires var t := After(INITIAL, run).children;
      p in t && t[p].alive && !t[p].signalled && q in t && t[q].alive && !t[q].signalled
    ensures p == q == After(INITIAL, run).pid
  {
    RunKeepsInv(INITIAL, run);
  }

  /** The controller's start never forks while an older process may survive, and never assigns
      threadMonitor_ while it is joinable (which would end the program), whatever kill, fork and
      thread creation did in the calls before. */
  lemma StartIsAlwaysLegal(run: seq<Action>)
    requires ValidRun(INITIAL, run)
    ensures var t := After(INITIAL, run);
      && (t.main.Launching? ==> !t.joinable && t.monitor.NoThread?)
      && (t.main.Forking? && t.pid == INVALID_PID ==>
            && !t.flag && !t.joinable
            && forall p :: p in t.children && t.children[p].alive ==> t.children[p].signalled)
      && ((t.main.KillingOld? || t.main.Forking?) && ModeOf(t).Stopped? ==>
            t.pid == INVALID_PID && !t.flag && !t.joinable)
  {
    RunKeepsInv(INITIAL, run);
  }

  /** Without the two forking actions: the same children, and no new flag. */
  predicate NothingForked(s: Sys, t: Sys) {
    t.children.Keys == s.children.Keys && t.forks == s.forks && !t.flag && !t.main.Flagging?
  }

  lemma NoForkByMonitor(s: Sys, a: Action)
    requires !s.flag && !s.main.Flagging? && Enabled(s, a) && IsMonitorAction(a) && !a.MonitorRestart?
    ensures NothingForked(s, NextMonitor(s, a))
  {
    if a.MonitorWait? {
      var t := s.monitor.target;
      if t in s.children {
        assert s.children[t := s.children[t].(reaped := true)].Keys == s.children.Keys;
      }
    }
  }

  lemma NoForkByStop(s: Sys, a: Action)
    requires !s.flag && !s.main.Flagging? && Enabled(s, a)
    requires a.CallStop? || a.ReadFlag? || a.Lock? || a.Check? || a.Kill? || a.Unlock? || a.Join?
    ensures NothingForked(s, NextStop(s, a))
  {
    if s.pid in s.children {
      assert s.children[s.pid := s.children[s.pid].(signalled := true)].Keys == s.children.Keys;
    }
  }

  lemma NoForkStep(s: Sys, a: Action)
    requires Inv(s) && !s.flag && !s.main.Flagging? && Enabled(s, a) && !a.StartProcess?
    ensures NothingForked(s, Next(s, a))
  {
    assert !s.monitor.Restarting?;
    if IsMonitorAction(a) {
      NoForkByMonitor(s, a);
    } else if a.Dies? {
      assert s.children[a.child := s.children[a.child].(alive := false)].Keys == s.children.Keys;
    } else if !(a.CallStart? || a.KillOld? || a.SetFlag? || a.Launch?) {
      NoForkByStop(s, a);
    }
  }

  /** Only two fork sites exist, and while the flag is clear neither is reached before the next start. */
  lemma {:induction false} NoForkAfterStop(s: Sys, run: seq<Action>)
    requires Inv(s) && !s.flag && !s.main.Flagging? && ValidRun(s, run)
    requires forall i :: 0 <= i < |run| ==> !run[i].StartProcess?
    ensures After(s, run).children.Keys == s.children.Keys
    ensures After(s, run).forks == s.forks
    ensures !After(s, run).flag
    decreases |run|
  {
    if run != [] {
      StepKeepsInv(s, run[0]);
      NoForkStep(s, run[0]);
      NoForkAfterStop(Next(s, run[0]), run[1..]);
    }
  }

  /** A stop that found the agent started and reports success has stopped everything. */
  lemma SuccessfulStopIsComplete(run: seq<Action>, a: Action)
    requires ValidRun(INITIAL, run) && Enabled(After(INITIAL, run), a)
    requires a.Join? && ModeOf(After(INITIAL, run)).Started?
    ensures ReplyOf(After(INITIAL, run), a) == Some(Success)
    ensures var t := Next(After(INITIAL, run), a);
      && !t.flag && t.pid == INVALID_PID && !t.joinable && t.monitor.NoThread?
      && After(INITIAL, run).monitor.Exited?
      && forall p :: p in t.children && t.children[p].alive ==> t.children[p].signalled
  {
    RunKeepsInv(INITIAL, run);
  }

  // ---------------------------------------------------------- refinement

  datatype Call = StartCall | StopCall

  /** The abstract machine of the plugin. Besides the two intended modes it has the three in which a
      kill or a thread creation that failed leaves pid_ set for good. */
  predicate PluginStep(m: Mode, call: Call, reply: Reply, m': Mode) {
    match call
    case StartCall =>
      if m.Started? || m.StuckStarted? then m' == m && reply.AlreadyStarted?
      else if m.Stopped? then
        (reply.Success? && m'.Started?) || (reply.GeneralError? && (m'.Stopped? || m'.Orphaned?))
      else m' == m && reply.GeneralError?
    case StopCall =>
      if m.Started? then (reply.Success? && m'.Stopped?) || (reply.GeneralError? && m'.StuckStarted?)
      else if m.StuckStarted? then reply.Success? && m'.StuckStopped?
      else m' == m && reply.NotStarted?
  }

  function CallOf(a: Action): Call {
    if a.CallStart? || a.KillOld? || a.StartProcess? || a.Launch? then StartCall else StopCall
  }

  /** stop's kill of a process of ours fails. */
  predicate KillFails(s: Sys, a: Action) {
    a == Kill(false) && s.main.Stopping? && s.pid > 0
  }

  /** The two failures that leave the intended modes. */
  predicate Wedges(s: Sys, a: Action) {
    KillFails(s, a) || (a == Launch(false) && s.main.Launching?)
  }

  predicate Intended(m: Mode) {
    m.Stopped? || m.Started?
  }

  lemma InnerStepKeepsMode(s: Sys, a: Action)
    requires Inv(s) && Enabled(s, a) && (IsMonitorAction(a) || a.Dies?)
    ensures ModeOf(Next(s, a)) == ModeOf(s) && Next(s, a).main == s.main
    ensures ReplyOf(s, a).None?
  {
  }

  /** Every step either ends no call and leaves the mode alone, or ends one as the abstract machine
      allows. */
  lemma StepRefines(s: Sys, a: Action)
    requires Inv(s) && Enabled(s, a) && Honest(s, a)
    ensures match ReplyOf(s, a)
      case None => ModeOf(Next(s, a)) == ModeOf(s)
      case Some(reply) => PluginStep(ModeOf(s), CallOf(a), reply, ModeOf(Next(s, a)))
  {
    if IsMonitorAction(a) || a.Dies? {
      InnerStepKeepsMode(s, a);
    }
  }

  datatype Event = Event(call: Call, reply: Reply)

  /** What the callers of the plugin see of a run: the answers to their calls, in order. */
  function History(s: Sys, run: seq<Action>): seq<Event>
    requires ValidRun(s, run)
    decreases |run|
  {
    if run == [] then []
    else
      (match ReplyOf(s, run[0])
       case None => []
       case Some(reply) => [Event(CallOf(run[0]), reply)]) + History(Next(s, run[0]), run[1..])
  }

  /** The histories the abstract machine can produce between two modes. */
  ghost predicate PluginHistory(m: Mode, h: seq<Event>, m': Mode)
    decreases |h|
  {
    if h == [] then m' == m
    else exists mid :: PluginStep(m, h[0].call, h[0].reply, mid) && PluginHistory(mid, h[1..], m')
  }

  lemma {:induction false} PluginRefines(s: Sys, run: seq<Action>)
    requires Inv(s) && ValidRun(s, run)
    ensures PluginHistory(ModeOf(s), History(s, run), ModeOf(After(s, run)))
    decreases |run|
  {
    if run != [] {
      var a, t := run[0], Next(s, run[0]);
      StepKeepsInv(s, a);
      StepRefines(s, a);
      PluginRefines(t, run[1..]);
      var h, rest := History(s, run), History(t, run[1..]);
      match ReplyOf(s, a)
      case None => assert h == rest;
      case Some(reply) =>
        assert h == [Event(CallOf(a), reply)] + rest;
        assert h[1..] == rest;
    }
  }

  /** No wedging step in the run. */
  predicate Smooth(s: Sys, run: seq<Action>)
    requires ValidRun(s, run)
    decreases |run|
  {
    run == [] || (!Wedges(s, run[0]) && Smooth(Next(s, run[0]), run[1..]))
  }

  /** Outside the intended modes, or about to leave them because stop is returning its failure. */
  predicate Wedged(s: Sys) {
    s.main.Failing? || !Intended(ModeOf(s))
  }

  lemma WedgedStep(s: Sys, a: Action)
    requires Inv(s) && Enabled(s, a) && Honest(s, a)
    ensures Wedged(Next(s, a)) <==> Wedged(s) || Wedges(s, a)
  {
    if IsMonitorAction(a) || a.Dies? {
      InnerStepKeepsMode(s, a);
    }
  }

  /** The plugin is a two-state machine for its callers if and only if no kill of a process of ours
      and no thread creation failed: after any run it is wedged exactly when such a failure occurred,
      and one failure is enough for ever. */
  lemma {:induction false} TwoStatesIff(s: Sys, run: seq<Action>)
    requires Inv(s) && ValidRun(s, run)
    ensures Wedged(After(s, run)) <==> Wedged(s) || !Smooth(s, run)
    decreases |run|
  {
    if run != [] {
      StepKeepsInv(s, run[0]);
      WedgedStep(s, run[0]);
      TwoStatesIff(Next(s, run[0]), run[1..]);
    }
  }

  /** Two-state corollary: in a smooth run from the start the answers tell the mode. */
  lemma SmoothAnswers(run: seq<Action>, a: Action)
    requires ValidRun(INITIAL, run) && Smooth(INITIAL, run)
    requires Enabled(After(INITIAL, run), a) && Honest(After(INITIAL, run), a)
    requires !Wedges(After(INITIAL, run), a)
    ensures var s, t := After(INITIAL, run), Next(After(INITIAL, run), a);
      && (ReplyOf(s, a) == Some(AlreadyStarted) ==> ModeOf(s) == ModeOf(t) == Started)
      && (ReplyOf(s, a) == Some(NotStarted) ==> ModeOf(s) == ModeOf(t) == Stopped)
      && (a.CallStart? && ModeOf(s).Started? ==> ReplyOf(s, a) == Some(AlreadyStarted))
      && (a.CallStop? && ModeOf(s).Stopped? ==> ReplyOf(s, a) == Some(NotStarted))
      && (ReplyOf(s, a) == Some(Success) ==>
            if CallOf(a).StartCall? then ModeOf(s).Stopped? && ModeOf(t).Started?
            else ModeOf(s).Started? && ModeOf(t).Stopped?)
      && (ReplyOf(s, a) == Some(GeneralError) ==> ModeOf(s) == ModeOf(t) == Stopped)
  {
    RunKeepsInv(INITIAL, run);
    TwoStatesIff(INITIAL, run);
    StepRefines(After(INITIAL, run), a);
    WedgedStep(After(INITIAL, run), a);
  }

  // ------------------------------------------------- the monitor's way out

  /** An upper bound on the sections of mutex_ the monitor still completes once the flag is clear and
      pid_ is invalid. */
  function SectionsLeft(m: MonitorPc): nat {
    match m
    case NoThread | Exited => 0
    case ReadPid => 1
    case Waiting(target) => if target <= INVALID_PID then 1 else 2
    case Returned(_, status) => if status.ProcessNotAChild? then 2 else 1
    case Deciding(_, status) => if status.ProcessNotAChild? then 2 else 1
    case Restarting => 2
    case Releasing(leave) => if leave then 1 else 2
  }

  /** An upper bound on the monitor's own steps, strictly smaller after each of them. */
  function StepsLeft(m: MonitorPc): nat {
    match m
    case NoThread | Exited => 0
    case Releasing(leave) => if leave then 1 else 6
    case Restarting => 7
    case Deciding(_, status) => if status.ProcessNotAChild? then 7 else 2
    case Returned(_, status) => if status.ProcessNotAChild? then 8 else 3
    case Waiting(target) => if target <= INVALID_PID then 4 else 9
    case ReadPid => 5
  }

  predicate Quiet(s: Sys) {
    !s.flag && s.pid == INVALID_PID && !s.main.Flagging? && !s.main.Launching?
  }

  lemma QuietStep(s: Sys, a: Action)
    requires Inv(s) && Quiet(s) && Enabled(s, a) && Honest(s, a) && !a.StartProcess?
    ensures var t := Next(s, a);
      && Quiet(t) && s.sections <= t.sections
      && t.sections + SectionsLeft(t.monitor) <= s.sections + SectionsLeft(s.monitor)
      && StepsLeft(t.monitor) + (if IsMonitorAction(a) then 1 else 0) <= StepsLeft(s.monitor)
  {
  }

  function MonitorSteps(run: seq<Action>): nat {
    if run == [] then 0 else (if IsMonitorAction(run[0]) then 1 else 0) + MonitorSteps(run[1..])
  }

  lemma {:induction false} QuietRun(s: Sys, run: seq<Action>)
    requires Inv(s) && Quiet(s) && ValidRun(s, run)
    requires forall i :: 0 <= i < |run| ==> !run[i].StartProcess?
    ensures var t := After(s, run);
      && Quiet(t) && s.sections <= t.sections
      && t.sections + SectionsLeft(t.monitor) <= s.sections + SectionsLeft(s.monitor)
      && StepsLeft(t.monitor) + MonitorSteps(run) <= StepsLeft(s.monitor)
    decreases |run|
  {
    if run != [] {
      StepKeepsInv(s, run[0]);
      QuietStep(s, run[0]);
      QuietRun(Next(s, run[0]), run[1..]);
    }
  }

  /** After a stop whose kill succeeded the monitor completes at most two more sections and takes at
      most nine more steps, in every interleaving, before the next start. */
  lemma MonitorLeavesAfterStop(s: Sys, run: seq<Action>)
    requires Inv(s) && s.main.Stopping? && Enabled(s, Kill(true)) && ValidRun(Next(s, Kill(true)), run)
    requires forall i :: 0 <= i < |run| ==> !run[i].StartProcess?
    ensures After(Next(s, Kill(true)), run).sections <= s.sections + 2
    ensures MonitorSteps(run) <= 9
  {
    StepKeepsInv(s, Kill(true));
    QuietRun(Next(s, Kill(true)), run);
  }

  /** The step that takes the monitor on, or the death it waits for. */
  function WayOut(s: Sys): Action {
    match s.monitor
    case ReadPid => MonitorRead
    case Waiting(target) =>
      if target == INVALID_PID then MonitorWait(UnknownStatus)
      else if Running(s, target) then Dies(target)
      else MonitorWait(ProcessTerminated)
    case Returned(_, _) => MonitorLock
    case Deciding(_, _) => MonitorDecide
    case Restarting => MonitorRestart(ForkThrows)
    case _ => MonitorUnlock
  }

  /** ... and it never gets stuck on the way: unless it has gone, it can step, or it waits for a
      process that stop has signalled and that is still alive, or for the mutex that stop holds. */
  lemma MonitorCanMove(s: Sys)
    requires Inv(s) && Quiet(s) && StepsLeft(s.monitor) > 0
    ensures s.owner.ByMain? || (Enabled(s, WayOut(s)) && Honest(s, WayOut(s)))
    ensures !IsMonitorAction(WayOut(s)) ==>
      WayOut(s) == Dies(s.monitor.target) && s.children[s.monitor.target].signalled
  {
  }

  // ------------------------------------------------------- restart counting

  /** Fork attempts since the last start: one for the start and exactly one for each section that
      decided to restart; the one still sleeping has not made its attempt yet. */
  lemma ForksAreCounted(run: seq<Action>)
    requires ValidRun(INITIAL, run) && After(INITIAL, run).joinable
    ensures var t := After(INITIAL, run);
      t.forks + (if t.monitor.Restarting? then 1 else 0) == 1 + t.restarts
  {
    RunKeepsInv(INITIAL, run);
  }

  /** The answer of the last fork attempt: startProcess calls fork only while pid_ is invalid. */
  function ForkOf(s: Sys, a: Action, last: ForkAnswer): ForkAnswer {
    match a
    case StartProcess(fork) => if s.pid == INVALID_PID then fork else last
    case MonitorRestart(fork) => if s.pid == INVALID_PID then fork else last
    case _ => last
  }

  function LastFork(s: Sys, run: seq<Action>, last: ForkAnswer): ForkAnswer
    requires ValidRun(s, run)
    decreases |run|
  {
    if run == [] then last else LastFork(Next(s, run[0]), run[1..], ForkOf(s, run[0], last))
  }

  function PidOf(fork: ForkAnswer): int {
    if fork.Forked? then fork.child else INVALID_PID
  }

  /** While the agent is meant to run, and the monitor is not between giving up the old one and forking,
      pid_ is what the last fork gave. */
  predicate PidFollows(s: Sys, last: ForkAnswer) {
    (s.flag || s.main.Flagging?) && !s.monitor.Restarting? ==> s.pid == PidOf(last)
  }

  lemma PidFollowsStep(s: Sys, a: Action, last: ForkAnswer)
    requires Inv(s) && PidFollows(s, last) && Enabled(s, a) && Honest(s, a)
    ensures PidFollows(Next(s, a), ForkOf(s, a, last))
  {
  }

  lemma {:induction false} PidFollowsRun(s: Sys, run: seq<Action>, last: ForkAnswer)
    requires Inv(s) && PidFollows(s, last) && ValidRun(s, run)
    ensures PidFollows(After(s, run), LastFork(s, run, last))
    decreases |run|
  {
    if run != [] {
      StepKeepsInv(s, run[0]);
      PidFollowsStep(s, run[0], last);
      PidFollowsRun(Next(s, run[0]), run[1..], ForkOf(s, run[0], last));
    }
  }

  /** In every interleaving, whatever forks failed before: while the flag is set pid_ is the child of the last
      fork, or invalid if that failed; so the first fork that succeeds leaves its child in pid_. */
  lemma PidIsTheLastFork(run: seq<Action>)
    requires ValidRun(INITIAL, run)
    ensures PidFollows(After(INITIAL, run), LastFork(INITIAL, run, ForkThrows))
  {
    PidFollowsRun(INITIAL, run, ForkThrows);
  }

  predicate NoUnlock(run: seq<Action>) {
    forall i :: 0 <= i < |run| ==> !run[i].MonitorUnlock?
  }

  /** A section that decides to restart, from the decision to the end: `forks` and `restarts` are the counts
      before it, `last` the answer of the last fork attempt. */
  predicate InRestart(s: Sys, forks: nat, restarts: nat, last: ForkAnswer) {
    && s.owner.ByMonitor? && s.flag
    && match s.monitor
       case Deciding(_, status) => Restarts(status) && s.forks == forks && s.restarts == restarts
       case Restarting => s.forks == forks && s.restarts == restarts + 1
       case Releasing(leave) =>
         !leave && s.forks == forks + 1 && s.restarts == restarts + 1 && s.pid == PidOf(last)
       case _ => false
  }

  lemma InRestartStep(s: Sys, a: Action, forks: nat, restarts: nat, last: ForkAnswer)
    requires Inv(s) && InRestart(s, forks, restarts, last) && Enabled(s, a) && !a.MonitorUnlock?
    ensures InRestart(Next(s, a), forks, restarts, ForkOf(s, a, last))
  {
  }

  lemma {:induction false} InRestartRun(s: Sys, run: seq<Action>, forks: nat, restarts: nat, last: ForkAnswer)
    requires Inv(s) && InRestart(s, forks, restarts, last) && ValidRun(s, run) && NoUnlock(run)
    ensures InRestart(After(s, run), forks, restarts, LastFork(s, run, last))
    decreases |run|
  {
    if run != [] {
      InRestartStep(s, run[0], forks, restarts, last);
      StepKeepsInv(s, run[0]);
      InRestartRun(Next(s, run[0]), run[1..], forks, restarts, ForkOf(s, run[0], last));
    }
  }

  /** While the flag is set, a section whose status is neither ImpossibleError nor ProcessNotAChild makes
      exactly one attempt before it ends, whatever else happens meanwhile, and the outcome is in pid_ then. */
  lemma SectionForksOnce(s: Sys, run: seq<Action>, last: ForkAnswer)
    requires Inv(s) && s.monitor.Deciding? && s.flag && Restarts(s.monitor.status)
    requires ValidRun(s, run) && NoUnlock(run) && Enabled(After(s, run), MonitorUnlock)
    ensures var t := Next(After(s, run), MonitorUnlock);
      && t.forks == s.forks + 1 && t.restarts == s.restarts + 1
      && t.pid == PidOf(LastFork(s, run, last))
      && t.flag && t.monitor.ReadPid?
  {
    InRestartRun(s, run, s.forks, s.restarts, last);
  }

  const WAIT_HALF := [MonitorRead, MonitorWait(UnknownStatus), MonitorLock]

  function ForkHalf(fork: ForkAnswer): seq<Action> {
    [MonitorDecide, MonitorRestart(fork), MonitorUnlock]
  }

  /** One pass of the monitor's loop over an invalid pid_, as it happens while forks keep failing. */
  function Pass(fork: ForkAnswer): seq<Action> {
    WAIT_HALF + ForkHalf(fork)
  }

  function Passes(failures: nat, child: int): seq<Action> {
    if failures == 0 then Pass(Forked(child)) else Pass(ForkThrows) + Passes(failures - 1, child)
  }

  lemma {:induction false} RunsCompose(s: Sys, r1: seq<Action>, r2: seq<Action>)
    requires ValidRun(s, r1) && ValidRun(After(s, r1), r2)
    ensures ValidRun(s, r1 + r2) && After(s, r1 + r2) == After(After(s, r1), r2)
    decreases |r1|
  {
    if r1 == [] {
      assert r1 + r2 == r2;
    } else {
      assert (r1 + r2)[1..] == r1[1..] + r2;
      RunsCompose(Next(s, r1[0]), r1[1..], r2);
    }
  }

  predicate Retrying(s: Sys) {
    Inv(s) && s.flag && s.pid == INVALID_PID && s.monitor.ReadPid? && s.owner.Free?
  }

  predicate Step(s: Sys, a: Action, t: Sys) {
    Enabled(s, a) && Honest(s, a) && t == Next(s, a)
  }

  lemma StepsCons(s: Sys, a: Action, t: Sys, run: seq<Action>)
    requires Step(s, a, t) && ValidRun(t, run)
    ensures ValidRun(s, [a] + run) && After(s, [a] + run) == After(t, run)
  {
    assert ([a] + run)[1..] == run;
  }

  lemma Three<T>(a: T, b: T, c: T)
    ensures [a] + ([b] + ([c] + [])) == [a, b, c]
  {
  }

  lemma Steps3(s: Sys, a: Action, s1: Sys, b: Action, s2: Sys, c: Action, s3: Sys)
    requires Step(s, a, s1) && Step(s1, b, s2) && Step(s2, c, s3)
    ensures ValidRun(s, [a, b, c]) && After(s, [a, b, c]) == s3
  {
    StepsCons(s2, c, s3, []);
    StepsCons(s1, b, s2, [c] + []);
    StepsCons(s, a, s1, [b] + ([c] + []));
    Three(a, b, c);
  }

  function InSection(s: Sys): Sys {
    s.(owner := ByMonitor, monitor := Deciding(INVALID_PID, UnknownStatus))
  }

  lemma FirstHalf(s: Sys)
    requires Retrying(s)
    ensures ValidRun(s, WAIT_HALF) && After(s, WAIT_HALF) == InSection(s)
  {
    var s1 := s.(monitor := Waiting(INVALID_PID));
    var s2 := s.(monitor := Returned(INVALID_PID, UnknownStatus));
    Steps3(s, MonitorRead, s1, MonitorWait(UnknownStatus), s2, MonitorLock, InSection(s));
  }

  lemma DecidesToRestart(s: Sys)
    requires s.flag && s.pid == INVALID_PID && s.monitor == Deciding(INVALID_PID, UnknownStatus)
    ensures Step(s, MonitorDecide, s.(restarts := s.restarts + 1, monitor := Restarting))
  {
  }

  lemma RestartStep(s: Sys, fork: ForkAnswer)
    requires s.monitor.Restarting? && ForkIsFresh(s, fork)
    ensures Step(s, MonitorRestart(fork), Spawn(s, fork).(monitor := Releasing(false)))
  {
  }

  lemma UnlockStep(s: Sys)
    requires s.monitor == Releasing(false)
    ensures Step(s, MonitorUnlock, s.(owner := Free, sections := s.sections + 1, monitor := ReadPid))
  {
  }

  lemma SecondHalf(s: Sys, fork: ForkAnswer)
    requires s.flag && s.pid == INVALID_PID && s.monitor == Deciding(INVALID_PID, UnknownStatus)
    requires ForkIsFresh(s, fork)
    ensures ValidRun(s, ForkHalf(fork))
    ensures After(s, ForkHalf(fork)) ==
      Spawn(s.(restarts := s.restarts + 1), fork).(owner := Free, sections := s.sections + 1, monitor := ReadPid)
  {
    var s1 := s.(restarts := s.restarts + 1, monitor := Restarting);
    var s2 := Spawn(s1, fork).(monitor := Releasing(false));
    var s3 := s2.(owner := Free, sections := s.sections + 1, monitor := ReadPid);
    DecidesToRestart(s);
    RestartStep(s1, fork);
    UnlockStep(s2);
    StepsCons(s2, MonitorUnlock, s3, []);
    StepsCons(s1, MonitorRestart(fork), s2, [MonitorUnlock] + []);
    StepsCons(s, MonitorDecide, s1, [MonitorRestart(fork)] + ([MonitorUnlock] + []));
    Three(MonitorDecide, MonitorRestart(fork), MonitorUnlock);
  }

  lemma OnePass(s: Sys, fork: ForkAnswer)
    requires Retrying(s) && ForkIsFresh(s, fork)
    ensures ValidRun(s, Pass(fork))
    ensures var t := After(s, Pass(fork));
      && t.forks == s.forks + 1 && t.flag && t.main == s.main
      && (if fork.Forked? then t.pid == fork.child && Running(t, fork.child)
          else Retrying(t) && t.children == s.children)
  {
    FirstHalf(s);
    SecondHalf(InSection(s), fork);
    RunsCompose(s, WAIT_HALF, ForkHalf(fork));
    RunKeepsInv(s, Pass(fork));
  }

  /** However many forks fail in a row, the first that succeeds leaves pid_ equal to the new child,
      after exactly one attempt per pass. */
  lemma {:induction false} RetriesUntilForked(s: Sys, failures: nat, child: int)
    requires Retrying(s) && ForkIsFresh(s, Forked(child))
    ensures ValidRun(s, Passes(failures, child))
    ensures var t := After(s, Passes(failures, child));
      t.pid == child && Running(t, child) && t.forks == s.forks + failures + 1
    decreases failures
  {
    if failures == 0 {
      OnePass(s, Forked(child));
    } else {
      OnePass(s, ForkThrows);
      RetriesUntilForked(After(s, Pass(ForkThrows)), failures - 1, child);
      RunsCompose(s, Pass(ForkThrows), Passes(failures - 1, child));
    }
  }

  // ------------------------------------------------ the monitor stays on duty

  /** No wait comes back with the impossible error, which under POSIX none does. */
  predicate NothingImpossible(run: seq<Action>) {
    forall i :: 0 <= i < |run| ==> run[i] != MonitorWait(ImpossibleError)
  }

  /** While the agent is meant to run its monitor has neither gone nor decided to go. */
  predicate OnDuty(s: Sys) {
    s.flag && s.joinable ==>
      match s.monitor
      case Returned(_, status) => !status.ImpossibleError?
      case Deciding(_, status) => !status.ImpossibleError?
      case Releasing(leave) => !leave
      case Exited => false
      case _ => true
  }

  lemma OnDutyStep(s: Sys, a: Action)
    requires Inv(s) && OnDuty(s) && Enabled(s, a) && a != MonitorWait(ImpossibleError)
    ensures OnDuty(Next(s, a))
  {
  }

  lemma {:induction false} OnDutyRun(s: Sys, run: seq<Action>)
    requires Inv(s) && OnDuty(s) && ValidRun(s, run) && NothingImpossible(run)
    ensures OnDuty(After(s, run))
    decreases |run|
  {
    if run != [] {
      OnDutyStep(s, run[0]);
      StepKeepsInv(s, run[0]);
      OnDutyRun(Next(s, run[0]), run[1..]);
    }
  }

  /** In every interleaving: as long as callers find the agent started, its monitor goes on; it never stops watching
      because a wait told that the process is no child. */
  lemma NeverUnwatched(run: seq<Action>)
    requires ValidRun(INITIAL, run) && NothingImpossible(run)
    requires var t := After(INITIAL, run); t.main.Idle? && ModeOf(t).Started?
    ensures var t := After(INITIAL, run);
      t.joinable && OnDuty(t) && !t.monitor.NoThread? && !t.monitor.Exited? && t.monitor != Releasing(true)
  {
    RunKeepsInv(INITIAL, run);
    OnDutyRun(INITIAL, run);
  }

  // --------------------------------------- where the hypotheses are needed

  /** The monitor, from the return of a wait for `awaited` to its fork, whether the wait was honest or not. */
  predicate AboutToFork(s: Sys, awaited: int) {
    match s.monitor
    case Returned(target, _) => target == awaited && (s.pid == awaited || !s.flag)
    case Deciding(target, _) => target == awaited && (s.pid == awaited || !s.flag)
    case Restarting => s.flag && s.pid == INVALID_PID
    case Releasing(_) => true
    case _ => false
  }

  /** What is left of the invariant when a wait for `awaited` may have been dishonest. */
  predicate Doubtful(s: Sys, awaited: int) {
    && BuiltInv(s) && LockInv(s) && MainInv(s) && AboutToFork(s, awaited)
    && (forall p :: p in s.children ==> p > 0)
    && (s.pid == INVALID_PID || (s.pid == awaited && awaited in s.children))
    && forall p :: p in s.children && s.children[p].alive && !s.children[p].signalled ==> p == awaited
  }

  lemma WaitIsDoubtful(s: Sys, status: WaitStatus)
    requires Inv(s) && s.monitor.Waiting? && Enabled(s, MonitorWait(status))
    ensures Doubtful(Next(s, MonitorWait(status)), s.monitor.target)
  {
  }

  lemma DoubtfulSection(s: Sys, a: Action, awaited: int)
    requires Doubtful(s, awaited) && Enabled(s, a) && (a.MonitorLock? || a.MonitorDecide?)
    ensures Doubtful(NextMonitor(s, a), awaited)
  {
  }

  lemma DoubtfulStep(s: Sys, a: Action, awaited: int)
    requires Doubtful(s, awaited) && Enabled(s, a) && !a.MonitorRestart? && !a.MonitorUnlock?
    ensures Doubtful(Next(s, a), awaited)
  {
    if IsMonitorAction(a) {
      DoubtfulSection(s, a, awaited);
    }
  }

  predicate NoFork(run: seq<Action>) {
    NoUnlock(run) && forall i :: 0 <= i < |run| ==> !run[i].MonitorRestart?
  }

  lemma {:induction false} DoubtfulRun(s: Sys, run: seq<Action>, awaited: int)
    requires Doubtful(s, awaited) && ValidRun(s, run) && NoFork(run)
    ensures Doubtful(After(s, run), awaited)
    decreases |run|
  {
    if run != [] {
      DoubtfulStep(s, run[0], awaited);
      DoubtfulRun(Next(s, run[0]), run[1..], awaited);
    }
  }

  lemma ForkLeavesSurvivor(s: Sys, awaited: int, child: int)
    requires Doubtful(s, awaited) && s.monitor.Restarting? && ForkIsFresh(s, Forked(child))
    ensures var t := Next(s, MonitorRestart(Forked(child)));
      && t.pid == child
      && (OnlyPidSurvives(t) <==> !(Running(s, awaited) && !s.children[awaited].signalled))
  {
    var t := Next(s, MonitorRestart(Forked(child)));
    if Running(s, awaited) && !s.children[awaited].signalled {
      assert awaited in t.children && t.children[awaited].alive && !t.children[awaited].signalled;
    }
  }

  /** Without the hypothesis on waits safety fails, and it fails for no other reason: whatever the wait
      returned, and whatever else happens between the wait and the fork, the restart keeps at most one survivor
      if and only if the process waited for is no survivor when the monitor forks. */
  lemma RestartIsSafeIff(s: Sys, status: WaitStatus, run: seq<Action>, child: int)
    requires Inv(s) && s.monitor.Waiting? && Enabled(s, MonitorWait(status))
    requires ValidRun(Next(s, MonitorWait(status)), run) && NoFork(run)
    requires After(Next(s, MonitorWait(status)), run).monitor.Restarting?
    requires ForkIsFresh(After(Next(s, MonitorWait(status)), run), Forked(child))
    ensures
      var u := After(Next(s, MonitorWait(status)), run);
      var t := Next(u, MonitorRestart(Forked(child)));
      && t.pid == child
      && (OnlyPidSurvives(t) <==> !(Running(u, s.monitor.target) && !u.children[s.monitor.target].signalled))
  {
    WaitIsDoubtful(s, status);
    DoubtfulRun(Next(s, MonitorWait(status)), run, s.monitor.target);
    ForkLeavesSurvivor(After(Next(s, MonitorWait(status)), run), s.monitor.target, child);
  }

  // A concrete run, in four parts: a start, the monitor's first wait, a death that the monitor reaps,
  // and a stop that takes the mutex before the monitor does.

  const FORKED_7 := Sys(true, false, Flagging, Free, 7, false, false, NoThread,
    map[7 := Child(true, false, false)], 1, 0, 0)
  const WATCHED_7 := Sys(true, true, Idle, Free, 7, true, true, Waiting(7),
    map[7 := Child(true, false, false)], 1, 0, 0)
  const REAPED_7 := Sys(true, true, ReadingFlag, Free, 7, true, true, Returned(7, ProcessExited),
    map[7 := Child(false, false, true)], 1, 0, 0)
  const OVERTAKEN_7 := REAPED_7.(main := Stopping(true), flag := false, owner := ByMain)

  lemma RaceStart() returns (run: seq<Action>)
    ensures ValidRun(INITIAL, run) && After(INITIAL, run) == FORKED_7
  {
    run := [CallStart(true), KillOld(true), StartProcess(Forked(7))];
    var s1 := INITIAL.(built := true, main := KillingOld);
    Steps3(INITIAL, CallStart(true), s1, KillOld(true), s1.(main := Forking), StartProcess(Forked(7)), FORKED_7);
  }

  lemma RaceWatch() returns (run: seq<Action>)
    ensures ValidRun(FORKED_7, run) && After(FORKED_7, run) == WATCHED_7
  {
    run := [SetFlag, Launch(true), MonitorRead];
    var s1 := FORKED_7.(main := Launching, flag := true);
    Steps3(FORKED_7, SetFlag, s1, Launch(true), WATCHED_7.(monitor := ReadPid), MonitorRead, WATCHED_7);
  }

  /** What a wait that returns `status`, and the section after it, do when nothing intervenes. */
  function WaitAndRestart(s: Sys, status: WaitStatus, child: int): Sys
    requires s.monitor.Waiting? && s.owner.Free? && s.flag && Restarts(status)
    requires Enabled(s, MonitorWait(status)) && ForkIsFresh(s, Forked(child))
  {
    Next(Next(Next(Next(s, MonitorWait(status)), MonitorLock), MonitorDecide), MonitorRestart(Forked(child)))
  }

  lemma WaitAndRestartIs(s: Sys, status: WaitStatus, child: int)
    requires s.monitor.Waiting? && s.owner.Free? && s.flag && Restarts(status) && !Reaps(status)
    requires Enabled(s, MonitorWait(status)) && ForkIsFresh(s, Forked(child))
    ensures WaitAndRestart(s, status, child)
         == s.(children := s.children[child := Child(true, false, false)], pid := child, forks := s.forks + 1,
               restarts := s.restarts + 1, owner := ByMonitor, monitor := Releasing(false))
  {
  }

  /** A run without a fault up to the first wait; the wait is then interrupted by a signal, and the monitor
      starts a second agent beside the first, which lives on and which nothing will ever signal. */
  lemma InterruptedWaitStartsSecondAgent() returns (run: seq<Action>)
    ensures ValidRun(INITIAL, run) && After(INITIAL, run) == WATCHED_7
    ensures Enabled(WATCHED_7, MonitorWait(WaitInterruptedBySignal))
    ensures var t := WaitAndRestart(WATCHED_7, WaitInterruptedBySignal, 8);
      && t.pid == 8 && Running(t, 7) && !t.children[7].signalled && Running(t, 8) && !t.children[8].signalled
      && !OnlyPidSurvives(t)
  {
    var r1 := RaceStart();
    var r2 := RaceWatch();
    RunsCompose(INITIAL, r1, r2);
    run := r1 + r2;
    WaitAndRestartIs(WATCHED_7, WaitInterruptedBySignal, 8);
  }

  lemma RaceReap() returns (run: seq<Action>)
    ensures ValidRun(WATCHED_7, run) && After(WATCHED_7, run) == REAPED_7
  {
    run := [Dies(7), MonitorWait(ProcessExited), CallStop];
    var s1 := WATCHED_7.(children := map[7 := Child(false, false, false)]);
    Steps3(WATCHED_7, Dies(7), s1, MonitorWait(ProcessExited), REAPED_7.(main := Idle), CallStop, REAPED_7);
  }

  lemma RaceStop() returns (run: seq<Action>)
    ensures ValidRun(REAPED_7, run) && After(REAPED_7, run) == OVERTAKEN_7
  {
    run := [ReadFlag, Lock, Check];
    var s1 := REAPED_7.(main := Locking(true));
    Steps3(REAPED_7, ReadFlag, s1, Lock, s1.(main := Checking(true), owner := ByMain), Check, OVERTAKEN_7);
  }

  lemma RunsCompose4(s: Sys, r1: seq<Action>, r2: seq<Action>, r3: seq<Action>, r4: seq<Action>)
    requires ValidRun(s, r1) && ValidRun(After(s, r1), r2) && ValidRun(After(After(s, r1), r2), r3)
    requires ValidRun(After(After(After(s, r1), r2), r3), r4)
    ensures ValidRun(s, r1 + r2 + r3 + r4)
    ensures After(s, r1 + r2 + r3 + r4) == After(After(After(After(s, r1), r2), r3), r4)
  {
    RunsCompose(s, r1, r2);
    RunsCompose(s, r1 + r2, r3);
    RunsCompose(s, r1 + r2 + r3, r4);
  }

  lemma OvertakenIsWedging()
    ensures !Wedged(OVERTAKEN_7) && !Enabled(OVERTAKEN_7, Kill(true)) && Enabled(OVERTAKEN_7, Kill(false))
    ensures Wedged(Next(OVERTAKEN_7, Kill(false)))
  {
  }

  /** The run has no fault in it but bad timing, and after it kill cannot succeed: stop
      reports failure, and the plugin is wedged. */
  lemma StopCanRaceTheReaper() returns (run: seq<Action>)
    ensures ValidRun(INITIAL, run)
    ensures var s := After(INITIAL, run);
      && s.main.Stopping? && !Wedged(s) && !Enabled(s, Kill(true)) && Enabled(s, Kill(false))
      && Wedged(Next(s, Kill(false)))
  {
    var r1 := RaceStart();
    var r2 := RaceWatch();
    var r3 := RaceReap();
    var r4 := RaceStop();
    RunsCompose4(INITIAL, r1, r2, r3, r4);
    run := r1 + r2 + r3 + r4;
    OvertakenIsWedging();
  }
}
