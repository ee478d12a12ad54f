/** PmAgentController and PmControlPlugin as the objects they are. Each method is the code between two
    points where the other thread can interfere, or a whole call, which for stop includes what the other
    thread does while stop waits; its contract ties the fields to the steps of the transition system,
    whose invariants hold in every interleaving. A ghost argument `s` is the system state the fields are
    part of. */
module Controller {
  import opened Options
  import opened ProcessWait
  import opened Supervisor
  import Safety = SupervisorSafety

  const PM_AGENT_BINARY := "cmpackagemanager"

  datatype PmStatus = PM_OK | PM_FAIL | PM_ERROR

  /** One running process as killIfRunning sees it: its executable's name, if getProcessInfo can tell,
      and whether a kill of it succeeds. */
  datatype Process = Process(name: Option<string>, killOk: bool)

  predicate IsAgent(p: Process) {
    p.name == Some(PM_AGENT_BINARY)
  }

  predicate FirstAgent(procs: seq<Process>, i: int) {
    0 <= i < |procs| && IsAgent(procs[i]) && forall j :: 0 <= j < i ==> !IsAgent(procs[j])
  }

  /** An older agent is found and cannot be killed. */
  ghost predicate OldAgentStays(procs: seq<Process>) {
    exists i :: FirstAgent(procs, i) && !procs[i].killOk
  }

  /** PmAgentController::killIfRunning (Linux): only the first process with the agent's name is
      killed, and only a failure to kill that one is an error. */
  method KillIfRunning(procs: seq<Process>) returns (status: PmStatus, killed: Option<int>)
    ensures status == if OldAgentStays(procs) then PM_ERROR else PM_OK
    ensures killed.Some? <==> exists i :: FirstAgent(procs, i) && procs[i].killOk
    ensures killed.Some? ==> FirstAgent(procs, killed.value)
  {
    for i := 0 to |procs|
      invariant forall j :: 0 <= j < i ==> !IsAgent(procs[j])
    {
      if procs[i].name.Some? {
        if procs[i].name.value == PM_AGENT_BINARY {
          assert FirstAgent(procs, i) && forall k :: FirstAgent(procs, k) ==> k == i;
          if procs[i].killOk {
            return PM_OK, Some(i);
          } else {
            return PM_ERROR, None;
          }
        }
      }
    }
    return PM_OK, None;
  }

  // ------------------------------------- the code between two interference points

  /** One critical section of the monitor, once it holds mutex_. */
  function Section(s: Sys, fork: ForkAnswer): Sys
    requires s.monitor.Deciding? && ForkIsFresh(s, fork)
  {
    var t := Next(s, MonitorDecide);
    Next(if t.monitor.Restarting? then Next(t, MonitorRestart(fork)) else t, MonitorUnlock)
  }

  /** A whole call of start, the plugin's mutex being held. */
  function StartCall(s: Sys, killed: bool, fork: ForkAnswer, created: bool): Sys
    requires s.main.KillingOld? && ForkIsFresh(s, fork)
  {
    var t := Next(s, KillOld(killed));
    if t.main.Idle? then t else
      var u := Next(t, StartProcess(fork));
      if u.main.Idle? then u else Next(Next(u, SetFlag), Launch(created))
  }

  /** stop inside its critical section, behind the flag test. */
  function Entered(m: Sys): Sys
    requires m.main.Locking? && m.owner.Free?
  {
    Next(Next(m, Lock), Check)
  }

  lemma EnteredIs(m: Sys)
    requires m.main.Locking? && m.owner.Free?
    ensures Entered(m)
         == m.(owner := ByMain, flag := false,
               main := if m.flag then Stopping(m.main.wait) else Unlocking(m.main.wait))
  {
  }

  /** stop's critical section, from the moment it can have mutex_. */
  function StopSection(m: Sys, delivered: bool): Sys
    requires m.main.Locking? && m.owner.Free? && KillIsPossible(m, delivered)
  {
    var t := Entered(m);
    Next(if t.main.Stopping? then Next(t, Kill(delivered)) else t, Unlock)
  }

  /** What goes on while stop waits, for mutex_ or in join: steps of the monitor, and deaths of processes. */
  predicate Background(run: seq<Action>) {
    forall i :: 0 <= i < |run| ==> IsMonitorAction(run[i]) || run[i].Dies?
  }

  /** Whether stop will join the monitor when it has left its critical section. */
  predicate MustJoin(t: Sys) {
    t.main.Joining? && t.main.wait && t.joinable
  }

  /** A run that lasts until join returns; without a join there is nothing to wait for. */
  predicate ExitRun(t: Sys, exit: seq<Action>) {
    if MustJoin(t) then Background(exit) && ValidRun(t, exit) && After(t, exit).monitor.Exited? else exit == []
  }

  lemma {:induction false} BackgroundKeepsMain(t: Sys, run: seq<Action>)
    requires Background(run) && ValidRun(t, run)
    ensures var u := After(t, run);
      && u.main == t.main && u.joinable == t.joinable && u.flag == t.flag
      && u.built == t.built && u.started == t.started
    decreases |run|
  {
    if run != [] {
      assert IsMonitorAction(run[0]) || run[0].Dies?;
      BackgroundKeepsMain(Next(t, run[0]), run[1..]);
    }
  }

  /** What the outside does to a call of stop: the run that goes by before it gets mutex_, whether kill succeeds,
      should it be called, and the run until join returns. */
  datatype Outside = Outside(enter: seq<Action>, delivered: bool, exit: seq<Action>)

  /** A run at the end of which mutex_ is free. */
  predicate EnterRun(t: Sys, enter: seq<Action>) {
    Background(enter) && ValidRun(t, enter) && After(t, enter).owner.Free?
  }

  /** The system when stop gets mutex_. */
  function AtMutex(s: Sys, o: Outside): (m: Sys)
    requires s.main.ReadingFlag? && EnterRun(Next(s, ReadFlag), o.enter)
    ensures m.main == Locking(s.flag) && m.owner.Free?
  {
    BackgroundKeepsMain(Next(s, ReadFlag), o.enter);
    After(Next(s, ReadFlag), o.enter)
  }

  predicate StopIsPossible(s: Sys, o: Outside) {
    && s.main.ReadingFlag? && EnterRun(Next(s, ReadFlag), o.enter)
    && KillIsPossible(AtMutex(s, o), o.delivered)
    && ExitRun(StopSection(AtMutex(s, o), o.delivered), o.exit)
  }

  /** stop finds the agent started, and its kill fails. */
  predicate StopFails(s: Sys, o: Outside)
    requires StopIsPossible(s, o)
  {
    var m := AtMutex(s, o);
    m.flag && m.pid > 0 && !o.delivered
  }

  /** The rest of stop behind its section, if that did not end it. */
  function Joined(t: Sys, exit: seq<Action>): Sys
    requires (t.main.Joining? || t.main.Idle?) && ExitRun(t, exit)
  {
    if t.main.Idle? then t
    else if MustJoin(t) then
      BackgroundKeepsMain(t, exit);
      Next(After(t, exit), Join)
    else Next(t, Join)
  }

  /** A whole call of the controller's stop. */
  function StopCall(s: Sys, o: Outside): Sys
    requires StopIsPossible(s, o)
  {
    Joined(StopSection(AtMutex(s, o), o.delivered), o.exit)
  }

  lemma StartCallKeepsInv(s: Sys, killed: bool, fork: ForkAnswer, created: bool)
    requires Inv(s) && s.main.KillingOld? && ForkIsFresh(s, fork)
    ensures Inv(StartCall(s, killed, fork, created))
  {
    var t := Next(s, KillOld(killed));
    Safety.StepKeepsInv(s, KillOld(killed));
    if !t.main.Idle? {
      var u := Next(t, StartProcess(fork));
      Safety.StepKeepsInv(t, StartProcess(fork));
      if !u.main.Idle? {
        Safety.StepKeepsInv(u, SetFlag);
        Safety.StepKeepsInv(Next(u, SetFlag), Launch(created));
      }
    }
  }

  lemma StartCallFails(s: Sys, killed: bool, fork: ForkAnswer, created: bool)
    requires s.main.KillingOld? && ForkIsFresh(s, fork) && (!killed || s.pid != INVALID_PID)
    ensures StartCall(s, killed, fork, created) == s.(main := Idle)
  {
  }

  lemma KilledIs(s: Sys)
    requires s.main.KillingOld?
    ensures Next(s, KillOld(true)) == s.(main := Forking)
  {
  }

  lemma ForkedIs(s: Sys, fork: ForkAnswer)
    requires s.main.Forking? && ForkIsFresh(s, fork) && s.pid == INVALID_PID
    ensures Next(s, StartProcess(fork))
         == Spawn(s.(main := if fork.Forked? then Flagging else Idle, forks := 0, restarts := 0), fork)
  {
  }

  lemma LaunchedIs(s: Sys, created: bool)
    requires s.main.Flagging?
    ensures Next(Next(s, SetFlag), Launch(created))
         == if created then s.(flag := true, monitor := ReadPid, joinable := true, started := true, main := Idle)
            else s.(flag := true, main := Idle)
  {
  }

  lemma StartCallForks(s: Sys, fork: ForkAnswer, created: bool)
    requires s.main.KillingOld? && ForkIsFresh(s, fork) && s.pid == INVALID_PID
    ensures var t := StartCall(s, true, fork, created);
      && t.main.Idle? && t.built == s.built && t.owner == s.owner && t.sections == s.sections
      && t.pid == Safety.PidOf(fork)
      && t.flag == (fork.Forked? || s.flag)
      && t.started == (s.started || (fork.Forked? && created))
      && t.joinable == (s.joinable || (fork.Forked? && created))
      && (fork.Forked? && created ==> t.monitor.ReadPid?)
  {
    KilledIs(s);
    ForkedIs(s.(main := Forking), fork);
    if fork.Forked? {
      LaunchedIs(Next(s.(main := Forking), StartProcess(fork)), created);
    }
  }

  /** What a start leaves: the fields of a failed one unchanged but for a fork that threw. */
  lemma StartCallLeaves(s: Sys, killed: bool, fork: ForkAnswer, created: bool)
    requires Inv(s) && s.main.KillingOld? && ForkIsFresh(s, fork)
    ensures var t := StartCall(s, killed, fork, created);
      && Inv(t) && t.main.Idle? && t.built && t.owner == s.owner && t.sections == s.sections
      && (if killed && s.pid == INVALID_PID then
            && t.pid == Safety.PidOf(fork)
            && t.flag == fork.Forked?
            && t.joinable == t.started == (fork.Forked? && created)
            && (t.joinable ==> t.monitor.ReadPid?)
          else t == s.(main := Idle))
  {
    StartCallKeepsInv(s, killed, fork, created);
    if killed && s.pid == INVALID_PID {
      StartCallForks(s, fork, created);
    } else {
      StartCallFails(s, killed, fork, created);
    }
  }

  lemma StopSectionKeepsInv(m: Sys, delivered: bool)
    requires Inv(m) && m.main.Locking? && m.owner.Free? && KillIsPossible(m, delivered)
    ensures Inv(StopSection(m, delivered))
  {
    var t := Entered(m);
    Safety.StepKeepsInv(m, Lock);
    Safety.StepKeepsInv(Next(m, Lock), Check);
    EnteredIs(m);
    if m.flag {
      Safety.StepKeepsInv(t, Kill(delivered));
      Safety.StepKeepsInv(Next(t, Kill(delivered)), Unlock);
    } else {
      Safety.StepKeepsInv(t, Unlock);
    }
  }

  lemma KillIs(t: Sys, delivered: bool)
    requires t.main.Stopping? && KillIsPossible(t, delivered)
    ensures var u := Next(t, Kill(delivered));
      && u.built == t.built && u.sections == t.sections && u.started == t.started && u.joinable == t.joinable
      && u.flag == t.flag && u.owner == t.owner && u.monitor == t.monitor
      && u.pid == (if t.pid > 0 && delivered then INVALID_PID else t.pid)
      && u.main == if t.pid > 0 && !delivered then Failing else Unlocking(t.main.wait)
  {
  }

  /** What the section leaves: the flag clear, pid_ cleared by a kill that worked, and a failure if it did not. */
  lemma StopSectionIs(m: Sys, delivered: bool)
    requires m.main.Locking? && m.owner.Free? && KillIsPossible(m, delivered)
    ensures var t := StopSection(m, delivered);
      && t.built == m.built && t.sections == m.sections && t.started == m.started && t.joinable == m.joinable
      && t.monitor == m.monitor && t.owner.Free? && !t.flag
      && t.pid == (if m.flag && m.pid > 0 && delivered then INVALID_PID else m.pid)
      && t.main == if m.flag && m.pid > 0 && !delivered then Idle else Joining(m.main.wait)
  {
    EnteredIs(m);
    if m.flag {
      KillIs(Entered(m), delivered);
    }
  }

  predicate Joins(t: Sys) {
    Inv(t) && !t.flag && t.main.Joining?
  }

  lemma BackgroundStep(t: Sys, a: Action)
    requires Joins(t) && Enabled(t, a) && Honest(t, a) && (IsMonitorAction(a) || a.Dies?)
    ensures var u := Next(t, a);
      && Joins(u) && u.main == t.main && u.pid == t.pid
      && u.built == t.built && u.started == t.started && u.joinable == t.joinable
  {
    Safety.StepKeepsInv(t, a);
  }

  lemma {:induction false} BackgroundRun(t: Sys, run: seq<Action>)
    requires Joins(t) && Background(run) && ValidRun(t, run)
    ensures var u := After(t, run);
      && Joins(u) && u.main == t.main && u.pid == t.pid
      && u.built == t.built && u.started == t.started && u.joinable == t.joinable
    decreases |run|
  {
    if run != [] {
      assert IsMonitorAction(run[0]) || run[0].Dies?;
      BackgroundStep(t, run[0]);
      BackgroundRun(Next(t, run[0]), run[1..]);
    }
  }

  lemma {:induction false} BackgroundStartsNothing(run: seq<Action>)
    requires Background(run)
    ensures forall i :: 0 <= i < |run| ==> !run[i].StartProcess?
  {
    forall i | 0 <= i < |run| ensures !run[i].StartProcess? {
      assert IsMonitorAction(run[i]) || run[i].Dies?;
    }
  }

  lemma JoinedState(t: Sys, exit: seq<Action>)
    requires Joins(t) && MustJoin(t) && ExitRun(t, exit)
    ensures var u := After(t, exit);
      && Inv(u) && u.main == t.main && u.joinable && !u.flag && u.pid == INVALID_PID && u.built == t.built
      && u.owner.Free? && t.sections <= u.sections <= t.sections + 2
  {
    BackgroundRun(t, exit);
    BackgroundStartsNothing(exit);
    Safety.QuietRun(t, exit);
  }

  lemma AtMutexKeepsInv(s: Sys, o: Outside)
    requires Inv(s) && s.main.ReadingFlag? && EnterRun(Next(s, ReadFlag), o.enter)
    ensures var m := AtMutex(s, o);
      Inv(m) && m.flag == s.flag && m.built == s.built && m.started == s.started && m.joinable == s.joinable
  {
    Safety.StepKeepsInv(s, ReadFlag);
    Safety.RunKeepsInv(Next(s, ReadFlag), o.enter);
    BackgroundKeepsMain(Next(s, ReadFlag), o.enter);
  }

  lemma JoinedIs(t: Sys, exit: seq<Action>)
    requires (t.main.Joining? || t.main.Idle?) && ExitRun(t, exit)
    ensures var u := After(t, exit);
      && (t.main.Idle? ==> Joined(t, exit) == t)
      && (t.main.Joining? ==>
            Joined(t, exit)
            == if MustJoin(t) then u.(joinable := false, monitor := NoThread, started := false, main := Idle)
               else t.(started := false, main := Idle))
  {
    if MustJoin(t) {
      BackgroundKeepsMain(t, exit);
    }
  }

  lemma JoinedKeepsInv(t: Sys, exit: seq<Action>)
    requires Inv(t) && !t.flag && (t.main.Joining? || t.main.Idle?) && t.owner.Free? && ExitRun(t, exit)
    ensures var u := Joined(t, exit);
      && Inv(u) && u.main.Idle? && u.owner.Free? && u.built == t.built && !u.flag && u.pid == t.pid
      && u.started == (t.main.Idle? && t.started)
      && u.joinable == (t.joinable && !MustJoin(t))
      && t.sections <= u.sections <= t.sections + (if MustJoin(t) then 2 else 0)
  {
    if MustJoin(t) {
      JoinedState(t, exit);
      Safety.StepKeepsInv(After(t, exit), Join);
    } else if !t.main.Idle? {
      Safety.StepKeepsInv(t, Join);
    }
  }

  /** What a stop leaves, wherever the monitor is and whatever it does before stop gets mutex_ and until it is
      joined: it is gone after at most two sections behind stop's own. */
  lemma StopCallKeepsInv(s: Sys, o: Outside)
    requires Inv(s) && StopIsPossible(s, o)
    ensures var m, t := AtMutex(s, o), StopCall(s, o);
      && Inv(t) && t.main.Idle? && t.owner.Free? && t.built == s.built && !t.flag
      && t.pid == (if s.flag && o.delivered then INVALID_PID else m.pid)
      && t.started == StopFails(s, o)
      && t.joinable == (s.joinable && (t.started || !s.flag))
      && m.sections <= t.sections <= m.sections + (if s.flag && !t.started then 2 else 0)
  {
    var m := AtMutex(s, o);
    AtMutexKeepsInv(s, o);
    StopSectionKeepsInv(m, o.delivered);
    StopSectionIs(m, o.delivered);
    JoinedKeepsInv(StopSection(m, o.delivered), o.exit);
  }

  /** The steps of a stop, with those of the monitor while it waits. */
  function StopRun(s: Sys, o: Outside): seq<Action>
    requires StopIsPossible(s, o)
  {
    var m := AtMutex(s, o);
    var leave := [Unlock] + (o.exit + if StopSection(m, o.delivered).main.Idle? then [] else [Join]);
    [ReadFlag] + (o.enter + ([Lock] + ([Check] + if m.flag then [Kill(o.delivered)] + leave else leave)))
  }

  lemma StopEndsInRun(t: Sys, exit: seq<Action>)
    requires (t.main.Joining? || t.main.Idle?) && ExitRun(t, exit)
    ensures var rest := exit + if t.main.Idle? then [] else [Join];
      ValidRun(t, rest) && After(t, rest) == Joined(t, exit)
  {
    if t.main.Idle? {
      assert exit + [] == [];
    } else {
      if MustJoin(t) {
        BackgroundKeepsMain(t, exit);
      }
      var u := After(t, exit);
      Safety.StepsCons(u, Join, Next(u, Join), []);
      assert [Join] + [] == [Join];
      Safety.RunsCompose(t, exit, [Join]);
    }
  }

  lemma EnteredIsRun(m: Sys, rest: seq<Action>)
    requires m.main.Locking? && m.owner.Free? && ValidRun(Entered(m), rest)
    ensures ValidRun(m, [Lock] + ([Check] + rest))
    ensures After(m, [Lock] + ([Check] + rest)) == After(Entered(m), rest)
  {
    Safety.StepsCons(Next(m, Lock), Check, Entered(m), rest);
    Safety.StepsCons(m, Lock, Next(m, Lock), [Check] + rest);
  }

  lemma LeavingIsRun(m: Sys, delivered: bool, rest: seq<Action>)
    requires m.main.Locking? && m.owner.Free? && KillIsPossible(m, delivered)
    requires ValidRun(StopSection(m, delivered), rest)
    ensures
      var leave := if m.flag then [Kill(delivered)] + ([Unlock] + rest) else [Unlock] + rest;
      ValidRun(Entered(m), leave) && After(Entered(m), leave) == After(StopSection(m, delivered), rest)
  {
    var t := Entered(m);
    EnteredIs(m);
    if m.flag {
      var u := Next(t, Kill(delivered));
      Safety.StepsCons(u, Unlock, StopSection(m, delivered), rest);
      Safety.StepsCons(t, Kill(delivered), u, [Unlock] + rest);
    } else {
      Safety.StepsCons(t, Unlock, StopSection(m, delivered), rest);
    }
  }

  /** StopCall is a run of the system. */
  lemma StopCallIsRun(s: Sys, o: Outside)
    requires StopIsPossible(s, o)
    ensures ValidRun(s, StopRun(s, o)) && After(s, StopRun(s, o)) == StopCall(s, o)
  {
    var r, m := Next(s, ReadFlag), AtMutex(s, o);
    var t := StopSection(m, o.delivered);
    var rest := o.exit + if t.main.Idle? then [] else [Join];
    var leave := if m.flag then [Kill(o.delivered)] + ([Unlock] + rest) else [Unlock] + rest;
    StopEndsInRun(t, o.exit);
    LeavingIsRun(m, o.delivered, rest);
    EnteredIsRun(m, leave);
    Safety.RunsCompose(r, o.enter, [Lock] + ([Check] + leave));
    Safety.StepsCons(s, ReadFlag, r, o.enter + ([Lock] + ([Check] + leave)));
  }

  function StepsToUnlock(m: MonitorPc): nat {
    match m
    case Deciding(_, _) => 3
    case Restarting => 2
    case Releasing(_) => 1
    case _ => 0
  }

  /** ... and there is always one: the monitor, if it holds mutex_, can let go of it, */
  lemma {:induction false} MonitorCanUnlock(t: Sys) returns (enter: seq<Action>)
    requires Inv(t) && t.main.Locking?
    ensures EnterRun(t, enter)
    decreases StepsToUnlock(t.monitor)
  {
    enter := [];
    if !t.owner.Free? {
      var a := Safety.WayOut(t);
      Safety.StepKeepsInv(t, a);
      var rest := MonitorCanUnlock(Next(t, a));
      Safety.StepsCons(t, a, Next(t, a), rest);
      enter := [a] + rest;
    }
  }

  /** ... and from where stop waits in join it can leave, if the process that stop has signalled dies. */
  lemma {:induction false} MonitorCanExit(t: Sys) returns (exit: seq<Action>)
    requires Joins(t) && MustJoin(t)
    ensures ExitRun(t, exit)
    decreases Safety.StepsLeft(t.monitor), t.monitor.Waiting? && Running(t, t.monitor.target)
  {
    exit := [];
    if !t.monitor.Exited? {
      var a := Safety.WayOut(t);
      Safety.MonitorCanMove(t);
      BackgroundStep(t, a);
      Safety.QuietStep(t, a);
      var rest := MonitorCanExit(Next(t, a));
      Safety.StepsCons(t, a, Next(t, a), rest);
      exit := [a] + rest;
    }
  }

  /** Every call of stop can return, from every state it can be made in, and whatever kill can do then. */
  lemma StopCanReturn(s: Sys, works: bool) returns (o: Outside)
    requires Inv(s) && s.main.ReadingFlag?
    ensures StopIsPossible(s, o)
    ensures o.delivered == (works && KillIsPossible(AtMutex(s, o), true))
  {
    Safety.StepKeepsInv(s, ReadFlag);
    var enter := MonitorCanUnlock(Next(s, ReadFlag));
    var m := AtMutex(s, Outside(enter, false, []));
    var delivered := works && KillIsPossible(m, true);
    AtMutexKeepsInv(s, Outside(enter, delivered, []));
    StopSectionKeepsInv(m, delivered);
    StopSectionIs(m, delivered);
    var t := StopSection(m, delivered);
    var exit := [];
    if MustJoin(t) {
      exit := MonitorCanExit(t);
    }
    o := Outside(enter, delivered, exit);
  }

  /** One wait and the section after it, with nothing in between. */
  datatype Round = Round(status: WaitStatus, fork: ForkAnswer)

  predicate RoundIsPossible(s: Sys, r: Round) {
    && s.monitor.ReadPid? && s.owner.Free? && ForkIsFresh(s, r.fork)
    && (Reaps(r.status) ==> !Running(s, s.pid))
    && HonestWait(s.pid, r.status, Running(s, s.pid))
  }

  function Waited(s: Sys, r: Round): Sys
    requires RoundIsPossible(s, r)
  {
    Next(Next(Next(s, MonitorRead), MonitorWait(r.status)), MonitorLock)
  }

  function AfterRound(s: Sys, r: Round): Sys
    requires RoundIsPossible(s, r)
  {
    Section(Waited(s, r), r.fork)
  }

  /** The monitor left alone over a list of rounds; nothing happens after it has exited. */
  predicate RoundsArePossible(s: Sys, rounds: seq<Round>)
    decreases |rounds|
  {
    rounds == [] || (s.monitor.Exited? && RoundsArePossible(s, rounds[1..]))
    || (RoundIsPossible(s, rounds[0]) && RoundsArePossible(AfterRound(s, rounds[0]), rounds[1..]))
  }

  function AfterRounds(s: Sys, rounds: seq<Round>): Sys
    requires RoundsArePossible(s, rounds)
    decreases |rounds|
  {
    if rounds == [] || s.monitor.Exited? then s else AfterRounds(AfterRound(s, rounds[0]), rounds[1..])
  }

  lemma RoundKeepsInv(s: Sys, r: Round)
    requires Inv(s) && RoundIsPossible(s, r)
    ensures Inv(Waited(s, r)) && Inv(AfterRound(s, r))
    ensures Waited(s, r).monitor == Deciding(s.pid, r.status)
    ensures var w := Waited(s, r);
      w.pid == s.pid && w.flag == s.flag && w.joinable == s.joinable && w.sections == s.sections
    ensures AfterRound(s, r).monitor.Exited? || AfterRound(s, r).monitor.ReadPid?
    ensures ForkIsFresh(Waited(s, r), r.fork)
  {
    Safety.StepKeepsInv(s, MonitorRead);
    var t := Next(s, MonitorRead);
    Safety.StepKeepsInv(t, MonitorWait(r.status));
    var u := Next(t, MonitorWait(r.status));
    Safety.StepKeepsInv(u, MonitorLock);
    SectionKeepsInv(Waited(s, r), r.fork);
  }

  lemma SectionKeepsInv(s: Sys, fork: ForkAnswer)
    requires Inv(s) && s.monitor.Deciding? && ForkIsFresh(s, fork)
    ensures Inv(Section(s, fork))
    ensures Section(s, fork).monitor.Exited? || Section(s, fork).monitor.ReadPid?
  {
    var t := Next(s, MonitorDecide);
    Safety.StepKeepsInv(s, MonitorDecide);
    if t.monitor.Restarting? {
      Safety.StepKeepsInv(t, MonitorRestart(fork));
      Safety.StepKeepsInv(Next(t, MonitorRestart(fork)), MonitorUnlock);
    } else {
      Safety.StepKeepsInv(t, MonitorUnlock);
    }
  }

  lemma SectionLeaves(s: Sys, fork: ForkAnswer)
    requires s.monitor.Deciding? && ForkIsFresh(s, fork) && !s.monitor.status.ProcessNotAChild?
    requires s.monitor.status.ImpossibleError? || !s.flag
    ensures Section(s, fork) == s.(owner := Free, sections := s.sections + 1, monitor := Exited)
  {
  }

  lemma SectionWaitsAgain(s: Sys, fork: ForkAnswer)
    requires s.monitor.Deciding? && ForkIsFresh(s, fork) && s.monitor.status.ProcessNotAChild?
    ensures Section(s, fork) == s.(owner := Free, sections := s.sections + 1, monitor := ReadPid)
  {
  }

  lemma SectionRestarts(s: Sys, fork: ForkAnswer)
    requires s.monitor.Deciding? && ForkIsFresh(s, fork) && Restarts(s.monitor.status) && s.flag
    ensures Section(s, fork) ==
      Spawn(s.(pid := INVALID_PID, restarts := s.restarts + 1), fork).(
        owner := Free, sections := s.sections + 1, monitor := ReadPid)
  {
  }

  // --------------------------------------------------------------- the controller

  class PmAgentController {
    var pid: int
    var flag: bool         // bIsProcessStartedByPlugin_
    var joinable: bool     // threadMonitor_.joinable()
    var iteration: nat     // monitorIteration_

    constructor ()
      ensures Represents(INITIAL)
    {
      pid, flag, joinable, iteration := INVALID_PID, false, false, 0;
    }

    /** These fields are the shared memory of the system state `s`. */
    ghost predicate Represents(s: Sys)
      reads this
    {
      pid == s.pid && flag == s.flag && joinable == s.joinable && iteration == s.sections
    }

    method StartProcess(fork: ForkAnswer) returns (status: PmStatus)
      modifies this`pid
      ensures pid == if old(pid) == INVALID_PID && fork.Forked? then fork.child else old(pid)
      ensures status == if old(pid) == INVALID_PID && fork.Forked? then PM_OK else PM_ERROR
    {
      if pid != INVALID_PID {
        return PM_ERROR;
      }
      match fork {
        case Forked(child) =>
          pid := child;
          return PM_OK;
        case ForkThrows =>
          pid := INVALID_PID;
          return PM_ERROR;
      }
    }

    /** `delivered` is whether kill succeeds, should it be called; `signalled` is the pid it hit. */
    method StopProcess(delivered: bool) returns (status: PmStatus, signalled: Option<int>)
      modifies this`pid
      ensures status.PM_ERROR? <==> old(pid) > 0 && !delivered
      ensures status.PM_OK? || status.PM_ERROR?
      ensures pid == if old(pid) > 0 && delivered then INVALID_PID else old(pid)
      ensures signalled == if old(pid) > 0 && delivered then Some(old(pid)) else None
    {
      if pid == INVALID_PID {
        return PM_OK, None;
      }
      if pid <= 0 {
        return PM_OK, None;
      }
      if delivered {
        signalled := Some(pid);
        pid := INVALID_PID;
        return PM_OK, signalled;
      }
      return PM_ERROR, None;
    }

    /** The body of the critical section of monitorProcess. */
    method MonitorSection(status: WaitStatus, fork: ForkAnswer, ghost s: Sys) returns (leave: bool)
      requires Represents(s) && s.monitor.Deciding? && s.monitor.status == status && ForkIsFresh(s, fork)
      modifies this
      ensures Represents(Section(s, fork))
      ensures leave <==> Section(s, fork).monitor.Exited?
    {
      if status.ImpossibleError? {
        SectionLeaves(s, fork);
        leave := true;
      } else if status.ProcessNotAChild? {
        SectionWaitsAgain(s, fork);
        leave := false;
      } else if !flag {
        SectionLeaves(s, fork);
        leave := true;
      } else {
        SectionRestarts(s, fork);
        pid := INVALID_PID;
        var _ := StartProcess(fork);
        leave := false;
      }
      iteration := iteration + 1;   // the scoped guard, on every way out
    }

    /** The monitor's loop, with nobody interfering, until it leaves or the rounds run out. */
    method MonitorProcess(rounds: seq<Round>, ghost s: Sys) returns (left: bool)
      requires Represents(s) && Inv(s) && s.monitor.ReadPid? && RoundsArePossible(s, rounds)
      modifies this
      ensures Represents(AfterRounds(s, rounds)) && Inv(AfterRounds(s, rounds))
      ensures left <==> AfterRounds(s, rounds).monitor.Exited?
    {
      ghost var t := s;
      for i := 0 to |rounds|
        invariant Represents(t) && Inv(t) && t.monitor.ReadPid?
        invariant RoundsArePossible(t, rounds[i..]) && AfterRounds(t, rounds[i..]) == AfterRounds(s, rounds)
      {
        RoundKeepsInv(t, rounds[i]);
        assert rounds[i..][1..] == rounds[i + 1..];
        var leave := MonitorSection(rounds[i].status, rounds[i].fork, Waited(t, rounds[i]));
        t := AfterRound(t, rounds[i]);
        if leave {
          return true;
        }
      }
      return false;
    }

    method Start(procs: seq<Process>, fork: ForkAnswer, created: bool, ghost s: Sys)
      returns (reply: Reply)
      requires Represents(s) && Inv(s) && s.main.KillingOld? && ForkIsFresh(s, fork)
      modifies this
      ensures var killed := !OldAgentStays(procs);
        && Represents(StartCall(s, killed, fork, created))
        && (reply.Success? <==> killed && s.pid == INVALID_PID && fork.Forked? && created)
        && (reply.Success? || reply.GeneralError?)
    {
      StartCallLeaves(s, !OldAgentStays(procs), fork, created);
      var status, _ := KillIfRunning(procs);
      if status != PM_OK {
        return GeneralError;
      }
      status := StartProcess(fork);
      if status != PM_OK {
        return GeneralError;
      }
      flag := true;
      if !created {
        return GeneralError;   // std::thread throws, and the plugin catches it
      }
      joinable := true;
      return Success;
    }

    /** One step of the monitor, or the death of a process; `monitor` is where its thread is. */
    method Besides(a: Action, monitor: MonitorPc, ghost s: Sys) returns (at: MonitorPc)
      requires Represents(s) && monitor == s.monitor && Enabled(s, a) && (IsMonitorAction(a) || a.Dies?)
      modifies this
      ensures Represents(Next(s, a)) && at == Next(s, a).monitor
    {
      at := monitor;
      match a {
        case MonitorRead => at := Waiting(pid);
        case MonitorWait(status) => at := Returned(monitor.target, status);
        case MonitorLock => at := Deciding(monitor.target, monitor.status);
        case MonitorDecide =>
          if monitor.status.ImpossibleError? {
            at := Releasing(true);
          } else if monitor.status.ProcessNotAChild? {
            at := Releasing(false);
          } else if !flag {
            at := Releasing(true);
          } else {
            pid := INVALID_PID;
            at := Restarting;
          }
        case MonitorRestart(fork) =>
          var _ := StartProcess(fork);
          at := Releasing(false);
        case MonitorUnlock =>
          iteration := iteration + 1;
          at := if monitor.leave then Exited else ReadPid;
        case _ =>
      }
    }

    /** What the monitor does to the shared fields while stop waits. */
    method Interfere(run: seq<Action>, monitor: MonitorPc, ghost s: Sys) returns (at: MonitorPc)
      requires Represents(s) && monitor == s.monitor && Background(run) && ValidRun(s, run)
      modifies this
      ensures Represents(After(s, run)) && at == After(s, run).monitor
    {
      at := monitor;
      ghost var t := s;
      for i := 0 to |run|
        invariant Represents(t) && at == t.monitor
        invariant ValidRun(t, run[i..]) && After(t, run[i..]) == After(s, run)
      {
        assert run[i..][1..] == run[i + 1..];
        at := Besides(run[i], at, t);
        t := Next(t, run[i]);
      }
    }

    /** The critical section of stop. */
    method StopLocked(delivered: bool, ghost m: Sys) returns (status: PmStatus)
      requires Represents(m) && m.main.Locking? && m.owner.Free? && KillIsPossible(m, delivered)
      modifies this`pid, this`flag
      ensures Represents(StopSection(m, delivered))
      ensures status == if m.flag && m.pid > 0 && !delivered then PM_FAIL else PM_OK
    {
      StopSectionIs(m, delivered);
      if flag {
        flag := false;
        var stopped, _ := StopProcess(delivered);
        if stopped != PM_OK {
          return PM_FAIL;
        }
      }
      return PM_OK;
    }

    /** The end of stop; the monitor's steps go on until join returns. */
    method JoinMonitor(waitForThread: bool, exit: seq<Action>, monitor: MonitorPc, ghost t: Sys)
      requires Represents(t) && t.main == Joining(waitForThread) && ExitRun(t, exit) && monitor == t.monitor
      modifies this
      ensures Represents(Joined(t, exit))
    {
      JoinedIs(t, exit);
      if joinable && waitForThread {
        var _ := Interfere(exit, monitor, t);
        joinable := false;
      }
    }

    /** `monitor` is where the monitor is when stop is called. */
    method Stop(o: Outside, monitor: MonitorPc, ghost s: Sys) returns (status: PmStatus)
      requires Represents(s) && StopIsPossible(s, o) && monitor == s.monitor
      modifies this
      ensures Represents(StopCall(s, o))
      ensures status == if StopFails(s, o) then PM_FAIL else PM_OK
    {
      ghost var m := AtMutex(s, o);
      ghost var t := StopSection(m, o.delivered);
      StopSectionIs(m, o.delivered);
      JoinedIs(t, o.exit);
      var waitForThread := flag;
      var at := Interfere(o.enter, monitor, Next(s, ReadFlag));   // until mutex_ is free
      status := StopLocked(o.delivered, m);
      if status.PM_OK? {
        JoinMonitor(waitForThread, o.exit, at, t);
      }
    }
  }

  // ------------------------------------------------------------------- the plugin

  /** A stop that gets past the plugin's own tests. */
  function Called(s: Sys): Sys {
    s.(main := ReadingFlag)
  }

  lemma CalledIsStep(s: Sys)
    requires Inv(s) && s.main.Idle? && s.started
    ensures Enabled(s, CallStop) && Called(s) == Next(s, CallStop) && Inv(Called(s))
  {
    Safety.StepKeepsInv(s, CallStop);
  }

  /** The answer of the plugin's stop, and what it means to the abstract machine. */
  lemma StopAnswers(s: Sys, o: Outside)
    requires Inv(s) && s.main.Idle? && s.started && StopIsPossible(Called(s), o)
    ensures var t := StopCall(Called(s), o);
      var reply := if StopFails(Called(s), o) then GeneralError else Success;
      && Inv(t) && t.main.Idle? && t.built && t.started == reply.GeneralError?
      && Safety.PluginStep(ModeOf(s), Safety.StopCall, reply, ModeOf(t))
      && (ModeOf(s).Started? && reply.Success? ==> t.pid == INVALID_PID && !t.flag && !t.joinable)
  {
    CalledIsStep(s);
    AtMutexKeepsInv(Called(s), o);
    StopCallKeepsInv(Called(s), o);
  }

  lemma NotStartedAnswers(s: Sys)
    requires Inv(s) && s.main.Idle? && !s.started
    ensures Safety.PluginStep(ModeOf(s), Safety.StopCall, NotStarted, ModeOf(s)) && !ModeOf(s).Started?
  {
  }

  /** The lazily built singleton; `agent` is null until getInstance has built it. */
  class PmControlPlugin {
    var agent: PmAgentController?
    var started: bool

    constructor ()
      ensures agent == null && !started
    {
      agent, started := null, false;
    }

    ghost predicate Valid(s: Sys)
      reads this, agent
    {
      && Inv(s) && s.main.Idle?
      && s.started == started
      && (s.built <==> agent != null)
      && (if agent == null then s.pid == INVALID_PID && !s.flag && !s.joinable else agent.Represents(s))
    }

    method StartPmAgent(pathGiven: bool, procs: seq<Process>, fork: ForkAnswer, created: bool, ghost s: Sys)
      returns (reply: Reply, ghost t: Sys)
      requires Valid(s) && ForkIsFresh(s, fork)
      modifies this, agent
      ensures Valid(t) && (old(agent) != null ==> agent == old(agent)) && (agent != old(agent) ==> fresh(agent))
      ensures !s.built && !pathGiven ==> reply.GeneralError? && t == s
      ensures !(!s.built && !pathGiven) ==>
        Safety.PluginStep(ModeOf(s), Safety.StartCall, reply, ModeOf(t))
      ensures ModeOf(s).Stopped? && (s.built || pathGiven) ==>
        (reply.Success? <==> !OldAgentStays(procs) && fork.Forked? && created)
      ensures reply.Success? ==> t.pid == fork.child && t.monitor.ReadPid?
    {
      if agent == null {
        if !pathGiven {
          t := Next(s, CallStart(pathGiven));
          return GeneralError, t;
        }
        agent := new PmAgentController();
      }
      t := Next(s, CallStart(pathGiven));
      if started {
        return AlreadyStarted, t;
      }
      Safety.StepKeepsInv(s, CallStart(pathGiven));
      reply := agent.Start(procs, fork, created, t);
      ghost var killed := !OldAgentStays(procs);
      StartCallLeaves(t, killed, fork, created);
      t := StartCall(t, killed, fork, created);
      if reply.Success? {
        started := true;
      }
    }

    /** ... of a plugin that takes itself to be started. */
    method StopStarted(o: Outside, monitor: MonitorPc, ghost s: Sys) returns (reply: Reply)
      requires agent != null && agent.Represents(Called(s)) && started
      requires StopIsPossible(Called(s), o) && monitor == s.monitor
      modifies this`started, agent
      ensures agent.Represents(StopCall(Called(s), o))
      ensures reply == if StopFails(Called(s), o) then GeneralError else Success
      ensures started == reply.GeneralError?
    {
      var status := agent.Stop(o, monitor, Called(s));
      if status.PM_OK? {
        started := false;
        return Success;
      }
      return GeneralError;
    }

    method StopPmAgent(o: Outside, monitor: MonitorPc, ghost s: Sys) returns (reply: Reply, ghost t: Sys)
      requires Valid(s) && (s.started ==> StopIsPossible(Called(s), o) && monitor == s.monitor)
      modifies this, agent
      ensures Valid(t) && agent == old(agent)
      ensures Safety.PluginStep(ModeOf(s), Safety.StopCall, reply, ModeOf(t))
      ensures s.started ==> (reply.GeneralError? <==> StopFails(Called(s), o))
      ensures reply.Success? && ModeOf(s).Started? ==> t.pid == INVALID_PID && !t.flag && !t.joinable
    {
      t := s;
      if agent == null || !started {   // without an agent getInstance throws for want of a path
        NotStartedAnswers(s);
        return NotStarted, t;
      }
      StopAnswers(s, o);
      reply := StopStarted(o, monitor, s);
      t := StopCall(Called(s), o);
    }
  }
}
