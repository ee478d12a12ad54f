/** ~PmAgentController, which runs stop once more, past the plugin's own tests, and then destroys
    threadMonitor_: a std::thread that is still joinable ends the program. */
module Destructor {
  import opened Supervisor
  import opened SupervisorSafety

  /** The destructor's stop is called while no other call is under way; the monitor may be anywhere. */
  function Destroying(s: Sys): Sys {
    s.(main := ReadingFlag)
  }

  /** The steps of that stop, and what goes on beside it. */
  predicate DestructorRun(run: seq<Action>) {
    forall i :: 0 <= i < |run| ==> !(run[i].CallStart? || run[i].CallStop?)
  }

  predicate KillsWork(s: Sys, run: seq<Action>)
    requires ValidRun(s, run)
    decreases |run|
  {
    run == [] || (!KillFails(s, run[0]) && KillsWork(Next(s, run[0]), run[1..]))
  }

  // ------------------------------------------------------- what the calls before it leave

  /** A kill has failed: stop is about to say so, or the flag is clear and pid_ still set. */
  predicate Unkilled(s: Sys) {
    s.main.Failing? || ModeOf(s).StuckStarted? || ModeOf(s).StuckStopped?
  }

  lemma UnkilledStep(s: Sys, a: Action)
    requires Inv(s) && Enabled(s, a) && Honest(s, a)
    ensures Unkilled(Next(s, a)) <==> Unkilled(s) || KillFails(s, a)
  {
    if IsMonitorAction(a) || a.Dies? {
      InnerStepKeepsMode(s, a);
    }
  }

  lemma {:induction false} UnkilledIff(s: Sys, run: seq<Action>)
    requires Inv(s) && ValidRun(s, run)
    ensures Unkilled(After(s, run)) <==> Unkilled(s) || !KillsWork(s, run)
    decreases |run|
  {
    if run != [] {
      StepKeepsInv(s, run[0]);
      UnkilledStep(s, run[0]);
      UnkilledIff(Next(s, run[0]), run[1..]);
    }
  }

  lemma IdleModes(s: Sys)
    requires Inv(s) && s.main.Idle?
    ensures s.joinable && !s.flag <==> Unkilled(s)
  {
  }

  // --------------------------------------------------------------- its own steps

  /** Up to the kill; whether the thread will be joined if that works was read at the beginning. */
  predicate BeforeKill(s: Sys) {
    match s.main
    case ReadingFlag => true
    case Locking(wait) => s.flag == wait
    case Checking(wait) => s.flag == wait
    case Stopping(wait) => wait
    case _ => false
  }

  function WillWait(s: Sys): bool
    requires BeforeKill(s)
  {
    if s.main.ReadingFlag? then s.flag else s.main.wait
  }

  /** Behind the kill, or the place where it would have been. */
  predicate BehindKill(s: Sys) {
    s.main.Unlocking? || s.main.Failing? || s.main.Joining? || s.main.Idle?
  }

  /** Whether the thread will be joinable at the end. */
  predicate StaysJoinable(s: Sys)
    requires BehindKill(s)
  {
    s.joinable && (s.main.Unlocking? || s.main.Joining? ==> !s.main.wait)
  }

  lemma BehindKillStep(s: Sys, a: Action)
    requires BehindKill(s) && Enabled(s, a) && !a.CallStart? && !a.CallStop?
    ensures BehindKill(Next(s, a)) && !KillFails(s, a)
    ensures StaysJoinable(Next(s, a)) == StaysJoinable(s)
  {
  }

  lemma {:induction false} BehindKillRun(s: Sys, run: seq<Action>)
    requires BehindKill(s) && ValidRun(s, run) && DestructorRun(run)
    ensures KillsWork(s, run) && BehindKill(After(s, run))
    ensures StaysJoinable(After(s, run)) == StaysJoinable(s)
    decreases |run|
  {
    if run != [] {
      BehindKillStep(s, run[0]);
      BehindKillRun(Next(s, run[0]), run[1..]);
    }
  }

  lemma BesidesKeeps(s: Sys, a: Action)
    requires Enabled(s, a) && (IsMonitorAction(a) || a.Dies?)
    ensures var t := Next(s, a);
      t.main == s.main && t.flag == s.flag && t.joinable == s.joinable && !KillFails(s, a)
  {
  }

  lemma BeforeKillOwnStep(s: Sys, a: Action)
    requires BeforeKill(s) && Enabled(s, a) && (a.ReadFlag? || a.Lock? || a.Check? || a.Kill?)
    ensures var t := NextStop(s, a);
      t.joinable == s.joinable
      && if BeforeKill(t) then WillWait(t) == WillWait(s) && !KillFails(s, a)
         else BehindKill(t) && StaysJoinable(t) == (s.joinable && (WillWait(s) ==> KillFails(s, a)))
  {
  }

  lemma BeforeKillStep(s: Sys, a: Action)
    requires BeforeKill(s) && Enabled(s, a)
    ensures var t := Next(s, a);
      t.joinable == s.joinable
      && if BeforeKill(t) then WillWait(t) == WillWait(s) && !KillFails(s, a)
         else BehindKill(t) && StaysJoinable(t) == (s.joinable && (WillWait(s) ==> KillFails(s, a)))
  {
    if IsMonitorAction(a) || a.Dies? {
      BesidesKeeps(s, a);
    } else {
      BeforeKillOwnStep(s, a);
    }
  }

  lemma {:induction false} BeforeKillRun(s: Sys, run: seq<Action>)
    requires BeforeKill(s) && ValidRun(s, run) && DestructorRun(run) && After(s, run).main.Idle?
    ensures After(s, run).joinable <==> s.joinable && (WillWait(s) ==> !KillsWork(s, run))
    decreases |run|
  {
    assert run != [];
    var t := Next(s, run[0]);
    BeforeKillStep(s, run[0]);
    if BeforeKill(t) {
      BeforeKillRun(t, run[1..]);
    } else {
      BehindKillRun(t, run[1..]);
    }
  }

  /** Destroying the controller ends the program if and only if a kill of a process of ours failed: in one of
      the calls before, or, if there is a thread to join, in the destructor's own stop. This holds for every
      interleaving of the calls and of the destructor with the monitor. */
  lemma DestructorEndsProgramIff(calls: seq<Action>, run: seq<Action>)
    requires ValidRun(INITIAL, calls) && After(INITIAL, calls).main.Idle?
    requires ValidRun(Destroying(After(INITIAL, calls)), run) && DestructorRun(run)
    requires After(Destroying(After(INITIAL, calls)), run).main.Idle?
    ensures var s := After(INITIAL, calls);
      After(Destroying(s), run).joinable
      <==> !KillsWork(INITIAL, calls) || (s.joinable && !KillsWork(Destroying(s), run))
  {
    var s := After(INITIAL, calls);
    RunKeepsInv(INITIAL, calls);
    UnkilledIff(INITIAL, calls);
    IdleModes(s);
    BeforeKillRun(Destroying(s), run);
  }
}
