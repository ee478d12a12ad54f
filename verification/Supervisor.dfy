/** The agent supervisor as a labelled transition system: the thread that calls the control plugin
    (Main) against the monitor thread, over the shared fields of PmAgentController and PmControlPlugin
    and the processes that were forked. One action is one step between two points at which the other
    thread can observe or change something; what the outside answers (fork, kill, waitpid, thread
    creation, the death of a process) is part of the action.
    Main stands for whichever thread holds the plugin's own mutex, which serialises the calls. */
module Supervisor {
  import opened Options
  import opened ProcessWait

  // ------------------------------------------------------------------ state

  datatype Child = Child(alive: bool, signalled: bool, reaped: bool)

  datatype Owner = Free | ByMain | ByMonitor

  datatype MainPc =
    | Idle
    | KillingOld                 // start: killIfRunning
    | Forking                    // start: startProcess, without mutex_
    | Flagging                   // start: setProcessStartedByPlugin(true)
    | Launching                  // start: the thread assignment
    | ReadingFlag                // stop: bWaitForThread is about to be read
    | Locking(wait: bool)        // stop: waiting for mutex_
    | Checking(wait: bool)       // stop: inside the section, at the flag test
    | Stopping(wait: bool)       // stop: flag cleared, in stopProcess
    | Unlocking(wait: bool)
    | Failing                    // stop: leaves the section to return PM_FAIL
    | Joining(wait: bool)

  datatype MonitorPc =
    | NoThread
    | ReadPid                                    // top of the loop
    | Waiting(target: int)                       // in waitForProcess, mutex_ not held
    | Returned(target: int, status: WaitStatus)  // waiting for mutex_
    | Deciding(target: int, status: WaitStatus)  // inside the section
    | Restarting                                 // pid_ reset; the delay, then startProcess
    | Releasing(leave: bool)                     // at the end of the section
    | Exited

  /** `forks` and `restarts` count since the last start: fork attempts, and sections of the monitor
      that decided to start the agent again. `sections` is monitorIteration_. */
  datatype Sys = Sys(
    built: bool, started: bool, main: MainPc,
    owner: Owner, pid: int, flag: bool, joinable: bool, monitor: MonitorPc,
    children: map<int, Child>,
    forks: nat, restarts: nat, sections: nat)

  const INITIAL := Sys(false, false, Idle, Free, INVALID_PID, false, false, NoThread, map[], 0, 0, 0)

  // ---------------------------------------------------------------- actions

  datatype ForkAnswer = Forked(child: int) | ForkThrows

  datatype Reply = Success | AlreadyStarted | NotStarted | GeneralError

  datatype Action =
    | CallStart(pathGiven: bool)
    | KillOld(killed: bool)
    | StartProcess(fork: ForkAnswer)
    | SetFlag
    | Launch(created: bool)
    | CallStop
    | ReadFlag
    | Lock
    | Check
    | Kill(delivered: bool)
    | Unlock
    | Join
    | MonitorRead
    | MonitorWait(status: WaitStatus)
    | MonitorLock
    | MonitorDecide
    | MonitorRestart(fork: ForkAnswer)
    | MonitorUnlock
    | Dies(child: int)

  predicate IsMonitorAction(a: Action) {
    a.MonitorRead? || a.MonitorWait? || a.MonitorLock? || a.MonitorDecide? || a.MonitorRestart? || a.MonitorUnlock?
  }

  predicate ForkIsFresh(s: Sys, fork: ForkAnswer) {
    fork.Forked? ==> fork.child > 0 && fork.child !in s.children
  }

  predicate Running(s: Sys, p: int) {
    p in s.children && s.children[p].alive
  }

  /** SIGTERM cannot reach a process that was already reaped (pids are not reused). */
  predicate KillIsPossible(s: Sys, delivered: bool) {
    delivered && s.pid in s.children ==> !s.children[s.pid].reaped
  }

  predicate Enabled(s: Sys, a: Action) {
    match a
    case CallStart(_) => s.main.Idle?
    case KillOld(_) => s.main.KillingOld?
    case StartProcess(fork) => s.main.Forking? && ForkIsFresh(s, fork)
    case SetFlag => s.main.Flagging?
    case Launch(_) => s.main.Launching?
    case CallStop => s.main.Idle?
    case ReadFlag => s.main.ReadingFlag?
    case Lock => s.main.Locking? && s.owner.Free?
    case Check => s.main.Checking?
    case Kill(delivered) => s.main.Stopping? && KillIsPossible(s, delivered)
    case Unlock => s.main.Unlocking? || s.main.Failing?
    case Join => s.main.Joining? && (s.joinable && s.main.wait ==> s.monitor.Exited?)
    case MonitorRead => s.monitor.ReadPid?
    case MonitorWait(status) => s.monitor.Waiting? && (Reaps(status) ==> !Running(s, s.monitor.target))
    case MonitorLock => s.monitor.Returned? && s.owner.Free?
    case MonitorDecide => s.monitor.Deciding?
    case MonitorRestart(fork) => s.monitor.Restarting? && ForkIsFresh(s, fork)
    case MonitorUnlock => s.monitor.Releasing?
    case Dies(child) => Running(s, child)
  }

  /** The hypothesis on waits; every other action is unconstrained. */
  predicate Honest(s: Sys, a: Action) {
    a.MonitorWait? && s.monitor.Waiting? ==> HonestWait(s.monitor.target, a.status, Running(s, s.monitor.target))
  }

  // ------------------------------------------------------------------ steps

  /** PmAgentController::startProcess as the parent sees it. */
  function Spawn(s: Sys, fork: ForkAnswer): Sys {
    if s.pid != INVALID_PID then s
    else match fork
      case Forked(p) => s.(pid := p, children := s.children[p := Child(true, false, false)], forks := s.forks + 1)
      case ForkThrows => s.(pid := INVALID_PID, forks := s.forks + 1)
  }

  function NextStart(s: Sys, a: Action): Sys
    requires Enabled(s, a)
  {
    match a
    case CallStart(pathGiven) =>
      if !s.built && !pathGiven then s
      else if s.started then s.(built := true)
      else s.(built := true, main := KillingOld)
    case KillOld(killed) => s.(main := if killed then Forking else Idle)
    case StartProcess(fork) =>
      if s.pid != INVALID_PID then s.(main := Idle)
      else Spawn(s.(main := if fork.Forked? then Flagging else Idle, forks := 0, restarts := 0), fork)
    case SetFlag => s.(flag := true, main := Launching)
    case Launch(created) =>
      if created then s.(monitor := ReadPid, joinable := true, started := true, main := Idle)
      else s.(main := Idle)
    case _ => s
  }

  function NextStop(s: Sys, a: Action): Sys
    requires Enabled(s, a)
  {
    match a
    case CallStop => if s.built && s.started then s.(main := ReadingFlag) else s
    case ReadFlag => s.(main := Locking(s.flag))
    case Lock => s.(owner := ByMain, main := Checking(s.main.wait))
    case Check =>
      if s.flag then s.(flag := false, main := Stopping(s.main.wait))
      else s.(main := Unlocking(s.main.wait))
    case Kill(delivered) =>
      if s.pid <= 0 then s.(main := Unlocking(s.main.wait))
      else if !delivered then s.(main := Failing)
      else
        var hit :=
          if s.pid in s.children then s.children[s.pid := s.children[s.pid].(signalled := true)] else s.children;
        s.(children := hit, pid := INVALID_PID, main := Unlocking(s.main.wait))
    case Unlock =>
      if s.main.Failing? then s.(owner := Free, main := Idle)
      else s.(owner := Free, main := Joining(s.main.wait))
    case Join =>
      if s.joinable && s.main.wait then s.(joinable := false, monitor := NoThread, started := false, main := Idle)
      else s.(started := false, main := Idle)
    case _ => s
  }

  function NextMonitor(s: Sys, a: Action): Sys
    requires Enabled(s, a)
  {
    match a
    case MonitorRead => s.(monitor := Waiting(s.pid))
    case MonitorWait(status) =>
      var t := s.monitor.target;
      var reaped :=
        if Reaps(status) && t in s.children then s.children[t := s.children[t].(reaped := true)] else s.children;
      s.(children := reaped, monitor := Returned(t, status))
    case MonitorLock => s.(owner := ByMonitor, monitor := Deciding(s.monitor.target, s.monitor.status))
    case MonitorDecide =>
      if s.monitor.status.ImpossibleError? then s.(monitor := Releasing(true))
      else if s.monitor.status.ProcessNotAChild? then s.(monitor := Releasing(false))
      else if !s.flag then s.(monitor := Releasing(true))
      else s.(pid := INVALID_PID, restarts := s.restarts + 1, monitor := Restarting)
    case MonitorRestart(fork) => Spawn(s, fork).(monitor := Releasing(false))
    case MonitorUnlock =>
      s.(owner := Free, sections := s.sections + 1, monitor := if s.monitor.leave then Exited else ReadPid)
    case _ => s
  }

  function Next(s: Sys, a: Action): Sys
    requires Enabled(s, a)
  {
    if IsMonitorAction(a) then NextMonitor(s, a)
    else match a
      case Dies(p) => s.(children := s.children[p := s.children[p].(alive := false)])
      case CallStop | ReadFlag | Lock | Check | Kill(_) | Unlock | Join => NextStop(s, a)
      case _ => NextStart(s, a)
  }

  /** The answer a step gives to the caller of the plugin, if it ends a call. */
  function ReplyOf(s: Sys, a: Action): Option<Reply>
    requires Enabled(s, a)
  {
    match a
    case CallStart(pathGiven) =>
      if !s.built && !pathGiven then Some(GeneralError)
      else if s.started then Some(AlreadyStarted) else None
    case KillOld(killed) => if killed then None else Some(GeneralError)
    case StartProcess(fork) => if s.pid != INVALID_PID || fork.ForkThrows? then Some(GeneralError) else None
    case Launch(created) => Some(if created then Success else GeneralError)
    case CallStop => if s.built && s.started then None else Some(NotStarted)
    case Unlock => if s.main.Failing? then Some(GeneralError) else None
    case Join => Some(Success)
    case _ => None
  }

  // ------------------------------------------------------------------- runs

  predicate ValidRun(s: Sys, run: seq<Action>)
    decreases |run|
  {
    run == [] || (Enabled(s, run[0]) && Honest(s, run[0]) && ValidRun(Next(s, run[0]), run[1..]))
  }

  function After(s: Sys, run: seq<Action>): Sys
    requires ValidRun(s, run)
    decreases |run|
  {
    if run == [] then s else After(Next(s, run[0]), run[1..])
  }

  // -------------------------------------------------------------- invariant

  /** The modes of the plugin, as its callers see them. Only the first two are meant to exist. */
  datatype Mode = Stopped | Started | StuckStarted | StuckStopped | Orphaned

  /** The mode the calls so far amount to; it changes only when a call returns. */
  function ModeOf(s: Sys): Mode {
    match s.main
    case Idle =>
      if s.started then (if s.flag then Started else StuckStarted)
      else IdleMode(s)
    case KillingOld | Forking => IdleMode(s)
    case Flagging | Launching => Stopped
    case ReadingFlag | Locking(_) | Checking(_) => if s.flag then Started else StuckStarted
    case Stopping(_) | Failing => Started
    case Unlocking(wait) => if wait then Started else StuckStarted
    case Joining(wait) => if wait then Started else StuckStarted
  }

  function IdleMode(s: Sys): Mode {
    if s.pid == INVALID_PID then Stopped else if s.flag then Orphaned else StuckStopped
  }

  /** The unsignalled survivor, if there is one, is pid_. */
  predicate OnlyPidSurvives(s: Sys) {
    forall p :: p in s.children && s.children[p].alive && !s.children[p].signalled ==> p == s.pid
  }

  predicate LockInv(s: Sys) {
    && (s.owner.ByMain? <==> s.main.Checking? || s.main.Stopping? || s.main.Unlocking? || s.main.Failing?)
    && (s.owner.ByMonitor? <==> s.monitor.Deciding? || s.monitor.Restarting? || s.monitor.Releasing?)
    && (s.joinable <==> !s.monitor.NoThread?)
  }

  predicate PidInv(s: Sys) {
    && (forall p :: p in s.children ==> p > 0)
    && (s.pid == INVALID_PID || s.pid in s.children)
    && OnlyPidSurvives(s)
  }

  predicate TargetInv(s: Sys) {
    && (s.monitor.Waiting? || s.monitor.Returned? || s.monitor.Deciding? ==>
          && (s.monitor.target == INVALID_PID || s.monitor.target in s.children)
          && (s.monitor.target == s.pid || (s.pid == INVALID_PID && !s.flag)))
    && (s.monitor.Returned? || s.monitor.Deciding? ==>
          if s.monitor.target == INVALID_PID then s.monitor.status.UnknownStatus?
          else Restarts(s.monitor.status) ==> !Running(s, s.monitor.target))
    && (s.monitor.Restarting? ==> s.flag && s.pid == INVALID_PID)
  }

  predicate MainInv(s: Sys) {
    match s.main
    case Idle =>
      if s.started then s.built && s.joinable && (!s.flag ==> s.pid != INVALID_PID)
      else NotStartedInv(s)
    case KillingOld | Forking => s.built && !s.started && NotStartedInv(s)
    case Flagging => s.built && !s.started && !s.flag && !s.joinable && s.pid != INVALID_PID
    case Launching => s.built && !s.started && s.flag && !s.joinable && s.pid != INVALID_PID
    case ReadingFlag => s.built && s.started && s.joinable && (!s.flag ==> s.pid != INVALID_PID)
    case Locking(wait) =>
      s.built && s.started && s.joinable && (!s.flag ==> s.pid != INVALID_PID) && wait == s.flag
    case Checking(wait) =>
      s.built && s.started && s.joinable && (!s.flag ==> s.pid != INVALID_PID) && wait == s.flag
    case Stopping(wait) => s.built && s.started && s.joinable && !s.flag && wait
    case Unlocking(wait) => s.built && s.started && s.joinable && !s.flag && (wait <==> s.pid == INVALID_PID)
    case Failing => s.built && s.started && s.joinable && !s.flag && s.pid != INVALID_PID
    case Joining(wait) => s.built && s.started && s.joinable && !s.flag && (wait <==> s.pid == INVALID_PID)
  }

  /** Without a started plugin: either nothing is left over, or pid_ is stuck and blocks every start. */
  predicate NotStartedInv(s: Sys) {
    if s.pid == INVALID_PID then !s.flag && !s.joinable
    else if s.flag then !s.joinable
    else s.joinable
  }

  predicate CountInv(s: Sys) {
    s.forks > 0 ==> s.forks + (if s.monitor.Restarting? then 1 else 0) == 1 + s.restarts
  }

  predicate ForkedInv(s: Sys) {
    s.joinable || s.main.Flagging? || s.main.Launching? ==> s.forks > 0
  }

  predicate BuiltInv(s: Sys) {
    !s.built ==> s.pid == INVALID_PID && s.main.Idle? && !s.started && s.sections == 0
  }

  predicate Inv(s: Sys) {
    BuiltInv(s) && LockInv(s) && PidInv(s) && TargetInv(s) && MainInv(s) && CountInv(s) && ForkedInv(s)
  }
}
