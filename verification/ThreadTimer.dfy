/** util::ThreadTimer: every start makes a detached thread that calls back until it finds the timer stopped,
    set to one time, or gone. A thread keeps the timer alive only while it holds a locked pointer to it. */
module ThreadTimer {

  /** Where a thread is. Each step reads at most one of the timer's atomics or locks the weak pointer. */
  datatype Pc =
    | Spawned                    // before the first lock
    | ReadImmediate              // shouldExecuteImmediately, its first operand
    | ReadOneTime                // ... and its second
    | FirstSleep(wake: nat)
    | FirstCheck                 // awake and locked, before bActive_ is read
    | LoopTop                    // before the lock at the head of the loop
    | Locked                     // before func()
    | InCallback                 // func() has begun; bOneTime_ is read when it has returned
    | Finishing                  // before bActive_ is read behind func()
    | Sleep(wake: nat)
    | Check                      // awake and locked, before bActive_ is read
    | Done

  /** A thread, when and with what interval it was started, and when its callbacks began. */
  datatype Thread = Thread(pc: Pc, startedAt: nat, interval: nat, calls: seq<nat>)

  /** The timer's atomics, whether somebody outside owns it, the clock, and all threads ever started. */
  datatype Timer = Timer(active: bool, oneTime: bool, immediate: bool, owned: bool, now: nat, threads: seq<Thread>)

  const NEW_TIMER := Timer(false, false, true, true, 0, [])

  datatype Action =
    | Start(interval: nat)
    | Stop
    | SetOneTime(b: bool)
    | SetExecuteImmediately(b: bool)
    | Disown
    | Tick
    | Run(i: nat)

  predicate KeepsAlive(pc: Pc) {
    pc in {ReadImmediate, ReadOneTime, FirstCheck, Locked, InCallback, Finishing, Check}
  }

  /** Whether a weak pointer can be locked. */
  predicate Alive(s: Timer) {
    s.owned || exists i :: 0 <= i < |s.threads| && KeepsAlive(s.threads[i].pc)
  }

  predicate Awake(pc: Pc, now: nat) {
    !pc.Done? && (pc.FirstSleep? || pc.Sleep? ==> pc.wake <= now)
  }

  predicate Enabled(s: Timer, a: Action) {
    match a
    case Disown => s.owned
    case Tick => true
    case Run(i) => i < |s.threads| && Awake(s.threads[i].pc, s.now)
    case _ => Alive(s)
  }

  function NextPc(s: Timer, th: Thread): Pc {
    match th.pc
    case Spawned => if Alive(s) then ReadImmediate else Done
    case ReadImmediate => if s.immediate then ReadOneTime else FirstSleep(s.now + th.interval)
    case ReadOneTime => if s.oneTime then FirstSleep(s.now + th.interval) else LoopTop
    case FirstSleep(_) => if Alive(s) then FirstCheck else Done
    case FirstCheck => if s.active then LoopTop else Done
    case LoopTop => if Alive(s) then Locked else Done
    case Locked => InCallback
    case InCallback => if s.oneTime then Done else Finishing
    case Finishing => if s.active then Sleep(s.now + th.interval) else Done
    case Sleep(_) => if Alive(s) then Check else Done
    case Check => if s.active then LoopTop else Done
    case Done => Done
  }

  function NextThread(s: Timer, th: Thread): Thread {
    th.(pc := NextPc(s, th), calls := if th.pc.Locked? then th.calls + [s.now] else th.calls)
  }

  function Next(s: Timer, a: Action): Timer
    requires Enabled(s, a)
  {
    match a
    case Start(interval) => s.(active := true, threads := s.threads + [Thread(Spawned, s.now, interval, [])])
    case Stop => s.(active := false)
    case SetOneTime(b) => s.(oneTime := b)
    case SetExecuteImmediately(b) => s.(immediate := b)
    case Disown => s.(owned := false)
    case Tick => s.(now := s.now + 1)
    case Run(i) => s.(threads := s.threads[i := NextThread(s, s.threads[i])])
  }

  predicate ValidRun(s: Timer, run: seq<Action>)
    decreases |run|
  {
    run != [] ==> Enabled(s, run[0]) && ValidRun(Next(s, run[0]), run[1..])
  }

  function After(s: Timer, run: seq<Action>): Timer
    requires ValidRun(s, run)
    decreases |run|
  {
    if run == [] then s else After(Next(s, run[0]), run[1..])
  }

  // ------------------------------------------------------------ after a stop

  predicate NoStart(run: seq<Action>) {
    forall k :: 0 <= k < |run| ==> !run[k].Start?
  }

  /** How many callbacks a thread can still begin once the timer is stopped for good: one, if it has read
      bActive_ for the last time before its next callback. */
  function CallsLeft(pc: Pc): nat {
    match pc
    case Spawned => 1
    case ReadImmediate => 1
    case ReadOneTime => 1
    case LoopTop => 1
    case Locked => 1
    case _ => 0
  }

  predicate Fewer(s: Timer, s': Timer) {
    && |s.threads| == |s'.threads|
    && forall i :: 0 <= i < |s.threads| ==>
         |s'.threads[i].calls| + CallsLeft(s'.threads[i].pc) <= |s.threads[i].calls| + CallsLeft(s.threads[i].pc)
  }

  lemma StoppedStep(s: Timer, a: Action)
    requires !s.active && Enabled(s, a) && !a.Start?
    ensures !Next(s, a).active && Fewer(s, Next(s, a))
  {
  }

  /** With any number of threads and in every interleaving: after a stop without a later start, each thread
      begins at most one further callback, and only a thread that is past its last look at bActive_. */
  lemma {:induction false} StopLimitsCallbacks(s: Timer, run: seq<Action>)
    requires !s.active && ValidRun(s, run) && NoStart(run)
    ensures !After(s, run).active && Fewer(s, After(s, run))
    decreases |run|
  {
    if run != [] {
      StoppedStep(s, run[0]);
      StopLimitsCallbacks(Next(s, run[0]), run[1..]);
    }
  }

  lemma OneMoreCallback(s0: Timer, run: seq<Action>, i: nat)
    requires Enabled(s0, Stop) && ValidRun(Next(s0, Stop), run) && NoStart(run) && i < |s0.threads|
    ensures
      var s := After(Next(s0, Stop), run);
      && |s.threads| == |s0.threads|
      && |s.threads[i].calls| <= |s0.threads[i].calls| + CallsLeft(s0.threads[i].pc) <= |s0.threads[i].calls| + 1
  {
    StopLimitsCallbacks(Next(s0, Stop), run);
  }

  // ------------------------------------------------------- the bound, from below

  lemma StepFirst(s: Timer, a: Action, t: Timer, run: seq<Action>)
    requires Enabled(s, a) && t == Next(s, a) && ValidRun(t, run)
    ensures ValidRun(s, [a] + run) && After(s, [a] + run) == After(t, run)
  {
    assert ([a] + run)[1..] == run;
  }

  /** The head of the loop and the call. */
  function CallOnce(i: nat): seq<Action> {
    [Run(i)] + ([Run(i)] + [])
  }

  lemma CallsOnceMore(s: Timer, i: nat)
    requires Alive(s) && i < |s.threads| && s.threads[i].pc == LoopTop
    ensures ValidRun(s, CallOnce(i)) && |After(s, CallOnce(i)).threads| == |s.threads|
    ensures After(s, CallOnce(i)).threads[i].calls == s.threads[i].calls + [s.now]
  {
    var s1 := Next(s, Run(i));
    var s2 := Next(s1, Run(i));
    StepFirst(s1, Run(i), s2, []);
    StepFirst(s, Run(i), s1, [Run(i)] + []);
  }

  /** The bound is met: a thread at the head of its loop calls back although the timer is stopped. */
  lemma LateCallback(s: Timer, i: nat) returns (run: seq<Action>)
    requires !s.active && Alive(s) && i < |s.threads| && s.threads[i].pc == LoopTop
    ensures ValidRun(s, run) && NoStart(run) && |After(s, run).threads| == |s.threads|
    ensures |After(s, run).threads[i].calls| == |s.threads[i].calls| + CallsLeft(s.threads[i].pc)
  {
    CallsOnceMore(s, i);
    run := CallOnce(i);
  }

  // ------------------------------------------------------------ a later start

  /** A thread that has not ended, of a timer that somebody owns and that runs, not one-time. */
  predicate Working(s: Timer, i: nat) {
    s.active && s.owned && !s.oneTime && i < |s.threads| && !s.threads[i].pc.Done?
  }

  /** The way of a thread to its next callback. */
  function StepsToCall(pc: Pc): nat {
    match pc
    case Done => 0
    case Locked => 1
    case LoopTop => 2
    case FirstCheck => 3
    case FirstSleep(_) => 4
    case ReadOneTime => 5
    case ReadImmediate => 6
    case Spawned => 7
    case Check => 3
    case Sleep(_) => 4
    case Finishing => 5
    case InCallback => 6
  }

  function SleepLeft(pc: Pc, now: nat): nat {
    if (pc.FirstSleep? || pc.Sleep?) && pc.wake > now then pc.wake - now else 0
  }

  lemma WorkingStep(s: Timer, i: nat)
    requires Working(s, i)
    ensures
      var a := if Awake(s.threads[i].pc, s.now) then Run(i) else Tick;
      && Enabled(s, a) && Working(Next(s, a), i)
      && var th, th' := s.threads[i], Next(s, a).threads[i];
      if th.pc.Locked? then |th'.calls| == |th.calls| + 1
      else
        && th'.calls == th.calls
        && (if a.Run? then StepsToCall(th'.pc) < StepsToCall(th.pc)
            else th'.pc == th.pc && SleepLeft(th'.pc, s.now + 1) < SleepLeft(th.pc, s.now))
  {
  }

  /** Such a thread calls back as often as one likes. */
  lemma {:induction false} CallsOnAndOn(s: Timer, i: nat, n: nat) returns (run: seq<Action>)
    requires Working(s, i)
    ensures ValidRun(s, run) && i < |After(s, run).threads|
    ensures |After(s, run).threads[i].calls| == |s.threads[i].calls| + n
    decreases n, StepsToCall(s.threads[i].pc), SleepLeft(s.threads[i].pc, s.now)
  {
    run := [];
    if n > 0 {
      var a := if Awake(s.threads[i].pc, s.now) then Run(i) else Tick;
      WorkingStep(s, i);
      var rest := CallsOnAndOn(Next(s, a), i, if s.threads[i].pc.Locked? then n - 1 else n);
      StepFirst(s, a, Next(s, a), rest);
      run := [a] + rest;
    }
  }

  lemma {:induction false} DoneStaysDone(s: Timer, run: seq<Action>, i: nat)
    requires ValidRun(s, run) && i < |s.threads| && s.threads[i].pc.Done?
    ensures i < |After(s, run).threads| && After(s, run).threads[i] == s.threads[i]
    decreases |run|
  {
    if run != [] {
      DoneStaysDone(Next(s, run[0]), run[1..], i);
    }
  }

  predicate CallsBeyond(s: Timer, run: seq<Action>, i: nat, bound: nat)
    requires ValidRun(s, run) && i < |s.threads|
  {
    i < |After(s, run).threads| && |After(s, run).threads[i].calls| > |s.threads[i].calls| + bound
  }

  /** Without "no later start" every bound on the callbacks of a thread fails, unless it has ended: a thread
      that is anywhere else when the timer is stopped, asleep or not, can find it active again. */
  lemma RestartRevivesThread(s: Timer, i: nat, bound: nat)
    requires !s.active && s.owned && i < |s.threads|
    ensures (exists run :: ValidRun(s, run) && CallsBeyond(s, run, i, bound)) <==> !s.threads[i].pc.Done?
  {
    if s.threads[i].pc.Done? {
      forall run | ValidRun(s, run) ensures !CallsBeyond(s, run, i, bound) {
        DoneStaysDone(s, run, i);
      }
    } else {
      var s1 := Next(s, Start(0));
      var s2 := Next(s1, SetOneTime(false));
      assert s2.threads[i] == s.threads[i];
      var rest := CallsOnAndOn(s2, i, bound + 1);
      StepFirst(s1, SetOneTime(false), s2, rest);
      var run := [Start(0)] + ([SetOneTime(false)] + rest);
      StepFirst(s, Start(0), s1, [SetOneTime(false)] + rest);
      assert CallsBeyond(s, run, i, bound);
    }
  }

  // --------------------------------------------------------------- on time

  /** A thread that will call back, of a timer that somebody owns and that runs. */
  predicate Ready(s: Timer, i: nat) {
    && s.active && s.owned && i < |s.threads| && !s.threads[i].pc.Done?
    && (s.oneTime ==> !s.threads[i].pc.InCallback?)
  }

  function Later(a: nat, b: nat): nat {
    if a < b then b else a
  }

  /** When its next callback is due: at once, or an interval after the start or the last one. */
  function DueAt(s: Timer, th: Thread): nat {
    match th.pc
    case Spawned => if s.immediate && !s.oneTime then s.now else s.now + th.interval
    case ReadImmediate => if s.immediate && !s.oneTime then s.now else s.now + th.interval
    case ReadOneTime => if s.oneTime then s.now + th.interval else s.now
    case FirstSleep(wake) => Later(s.now, wake)
    case Sleep(wake) => Later(s.now, wake)
    case InCallback => s.now + th.interval
    case Finishing => s.now + th.interval
    case _ => s.now
  }

  lemma ReadyStep(s: Timer, i: nat)
    requires Ready(s, i)
    ensures
      var a := if Awake(s.threads[i].pc, s.now) then Run(i) else Tick;
      && Enabled(s, a)
      && var th, t := s.threads[i], Next(s, a);
      && i < |t.threads|
      && if th.pc.Locked? then t.threads[i].calls == th.calls + [DueAt(s, th)]
         else
           && Ready(t, i) && t.threads[i].calls == th.calls && DueAt(t, t.threads[i]) == DueAt(s, th)
           && (if a.Run? then StepsToCall(t.threads[i].pc) < StepsToCall(th.pc)
               else t.threads[i].pc == th.pc && SleepLeft(th.pc, t.now) < SleepLeft(th.pc, s.now))
  {
  }

  /** The delays are met: from wherever it is, such a thread can call back exactly when it is due. */
  lemma {:induction false} CallsOnTime(s: Timer, i: nat) returns (run: seq<Action>)
    requires Ready(s, i)
    ensures ValidRun(s, run) && NoStart(run) && i < |After(s, run).threads|
    ensures After(s, run).threads[i].calls == s.threads[i].calls + [DueAt(s, s.threads[i])]
    decreases StepsToCall(s.threads[i].pc), SleepLeft(s.threads[i].pc, s.now)
  {
    var a := if Awake(s.threads[i].pc, s.now) then Run(i) else Tick;
    ReadyStep(s, i);
    var rest: seq<Action> := [];
    if !s.threads[i].pc.Locked? {
      rest := CallsOnTime(Next(s, a), i);
    }
    StepFirst(s, a, Next(s, a), rest);
    run := [a] + rest;
  }

  // ----------------------------------------------------------------- one time

  predicate KeepsOneTime(run: seq<Action>) {
    forall k :: 0 <= k < |run| ==> run[k] != SetOneTime(false)
  }

  predicate NotBefore(th: Thread) {
    forall k :: 0 <= k < |th.calls| ==> th.startedAt + th.interval <= th.calls[k]
  }

  /** A thread started with the one-time flag set, at any of its places. */
  predicate CallsOnce(th: Thread, now: nat) {
    && th.startedAt <= now
    && match th.pc
       case Spawned => th.calls == []
       case ReadImmediate => th.calls == []
       case ReadOneTime => th.calls == []
       case FirstSleep(wake) => th.calls == [] && th.startedAt + th.interval <= wake
       case FirstCheck => th.calls == [] && th.startedAt + th.interval <= now
       case LoopTop => th.calls == [] && th.startedAt + th.interval <= now
       case Locked => th.calls == [] && th.startedAt + th.interval <= now
       case InCallback => |th.calls| == 1 && NotBefore(th)
       case Done => |th.calls| <= 1 && NotBefore(th)
       case _ => false
  }

  predicate OneTimers(s: Timer, from: nat) {
    s.oneTime && forall i :: from <= i < |s.threads| ==> CallsOnce(s.threads[i], s.now)
  }

  lemma OneTimeStep(s: Timer, a: Action, from: nat)
    requires OneTimers(s, from) && Enabled(s, a) && a != SetOneTime(false) && from <= |s.threads|
    ensures OneTimers(Next(s, a), from) && from <= |Next(s, a).threads|
  {
  }

  lemma {:induction false} OneTimersKept(s: Timer, run: seq<Action>, from: nat)
    requires OneTimers(s, from) && ValidRun(s, run) && KeepsOneTime(run) && from <= |s.threads|
    ensures OneTimers(After(s, run), from)
    decreases |run|
  {
    if run != [] {
      OneTimeStep(s, run[0], from);
      OneTimersKept(Next(s, run[0]), run[1..], from);
    }
  }

  /** Threads that are started while the one-time flag is set, and stays set, call back at most once each and
      never before their delay, whatever else happens to the timer. */
  lemma OneTimeCallsOnce(s: Timer, run: seq<Action>, i: nat)
    requires s.oneTime && ValidRun(s, run) && KeepsOneTime(run)
    requires |s.threads| <= i < |After(s, run).threads|
    ensures |After(s, run).threads[i].calls| <= 1 && NotBefore(After(s, run).threads[i])
  {
    OneTimersKept(s, run, |s.threads|);
  }

  // ---------------------------------------------------------------- immediate

  predicate StaysDelayed(run: seq<Action>) {
    forall k :: 0 <= k < |run| ==> run[k] != SetExecuteImmediately(true)
  }

  /** A thread started while the timer is not to execute immediately, at any of its places. */
  predicate Delayed(th: Thread, now: nat) {
    && th.startedAt <= now && NotBefore(th)
    && match th.pc
       case Spawned => th.calls == []
       case ReadImmediate => th.calls == []
       case ReadOneTime => false
       case FirstSleep(wake) => th.startedAt + th.interval <= wake
       case Done => true
       case _ => th.startedAt + th.interval <= now
  }

  predicate AllDelayed(s: Timer, from: nat) {
    !s.immediate && forall i :: from <= i < |s.threads| ==> Delayed(s.threads[i], s.now)
  }

  lemma DelayedStep(s: Timer, a: Action, from: nat)
    requires AllDelayed(s, from) && Enabled(s, a) && a != SetExecuteImmediately(true) && from <= |s.threads|
    ensures AllDelayed(Next(s, a), from) && from <= |Next(s, a).threads|
  {
  }

  lemma {:induction false} DelayedKept(s: Timer, run: seq<Action>, from: nat)
    requires AllDelayed(s, from) && ValidRun(s, run) && StaysDelayed(run) && from <= |s.threads|
    ensures AllDelayed(After(s, run), from)
    decreases |run|
  {
    if run != [] {
      DelayedStep(s, run[0], from);
      DelayedKept(Next(s, run[0]), run[1..], from);
    }
  }

  /** Threads that are started while the timer is not to execute immediately, and that stays so, never call
      back before their delay, one-time or not. */
  lemma DelayedCallsLate(s: Timer, run: seq<Action>, i: nat)
    requires !s.immediate && ValidRun(s, run) && StaysDelayed(run)
    requires |s.threads| <= i < |After(s, run).threads|
    ensures NotBefore(After(s, run).threads[i])
  {
    DelayedKept(s, run, |s.threads|);
  }

  /** Otherwise, and unless it is a one-time timer, a new thread can call back at the time of its start. */
  lemma ImmediateCallback(s: Timer, interval: nat) returns (run: seq<Action>)
    requires Alive(s) && s.immediate && !s.oneTime
    ensures ValidRun(s, run) && |After(s, run).threads| == |s.threads| + 1
    ensures After(s, run).threads[|s.threads|].calls == [s.now]
  {
    var i := |s.threads|;
    var s1 := Next(s, Start(interval));
    StillAlive(s, s1);
    var s2 := Next(s1, Run(i));
    var s3 := Next(s2, Run(i));
    var s4 := Next(s3, Run(i));
    assert s4.threads[i] == Thread(LoopTop, s.now, interval, []);
    StillAlive(s, s4);
    CallsOnceMore(s4, i);
    StepFirst(s3, Run(i), s4, CallOnce(i));
    StepFirst(s2, Run(i), s3, [Run(i)] + CallOnce(i));
    StepFirst(s1, Run(i), s2, [Run(i)] + ([Run(i)] + CallOnce(i)));
    run := [Start(interval)] + ([Run(i)] + ([Run(i)] + ([Run(i)] + CallOnce(i))));
    StepFirst(s, Start(interval), s1, [Run(i)] + ([Run(i)] + ([Run(i)] + CallOnce(i))));
  }

  lemma StillAlive(s: Timer, t: Timer)
    requires Alive(s) && t.owned == s.owned && |s.threads| <= |t.threads|
    requires forall k :: 0 <= k < |s.threads| ==> t.threads[k] == s.threads[k]
    ensures Alive(t)
  {
    if !s.owned {
      var k :| 0 <= k < |s.threads| && KeepsAlive(s.threads[k].pc);
      assert KeepsAlive(t.threads[k].pc);
    }
  }

  // ------------------------------------------------------------ any other run

  predicate Spaced(th: Thread) {
    forall k :: 0 < k < |th.calls| ==> th.calls[k - 1] + th.interval <= th.calls[k]
  }

  function LastCall(th: Thread): nat
    requires th.calls != []
  {
    th.calls[|th.calls| - 1]
  }

  predicate Rested(th: Thread, now: nat) {
    && Spaced(th)
    && (th.calls != [] ==>
          && LastCall(th) <= now
          && !th.pc.Spawned? && !th.pc.ReadImmediate? && !th.pc.ReadOneTime? && !th.pc.FirstSleep?
          && (th.pc.Sleep? ==> LastCall(th) + th.interval <= th.pc.wake)
          && (th.pc.Check? || th.pc.LoopTop? || th.pc.Locked? ==> LastCall(th) + th.interval <= now)
          && !th.pc.FirstCheck?)
  }

  predicate AllRested(s: Timer) {
    forall i :: 0 <= i < |s.threads| ==> Rested(s.threads[i], s.now)
  }

  lemma RestedThread(s: Timer, th: Thread)
    requires Rested(th, s.now) && Awake(th.pc, s.now)
    ensures Rested(NextThread(s, th), s.now)
  {
  }

  lemma RestedStep(s: Timer, a: Action)
    requires AllRested(s) && Enabled(s, a)
    ensures AllRested(Next(s, a))
  {
    if a.Run? {
      RestedThread(s, s.threads[a.i]);
    }
  }

  /** In every run at all, two callbacks of one thread are at least its interval apart. */
  lemma {:induction false} CallbacksAreSpaced(s: Timer, run: seq<Action>)
    requires AllRested(s) && ValidRun(s, run)
    ensures AllRested(After(s, run))
    decreases |run|
  {
    if run != [] {
      RestedStep(s, run[0]);
      CallbacksAreSpaced(Next(s, run[0]), run[1..]);
    }
  }

  lemma EveryRunIsSpaced(run: seq<Action>, i: nat)
    requires ValidRun(NEW_TIMER, run) && i < |After(NEW_TIMER, run).threads|
    ensures Spaced(After(NEW_TIMER, run).threads[i])
  {
    CallbacksAreSpaced(NEW_TIMER, run);
  }

  predicate SameCalls(s: Timer, s': Timer) {
    && |s.threads| == |s'.threads|
    && forall i :: 0 <= i < |s.threads| ==> s'.threads[i].calls == s.threads[i].calls
  }

  lemma GoneStep(s: Timer, a: Action)
    requires !Alive(s) && Enabled(s, a)
    ensures !Alive(Next(s, a)) && SameCalls(s, Next(s, a))
  {
    if a.Run? {
      assert !KeepsAlive(s.threads[a.i].pc);
    }
  }

  /** Once nobody owns the timer and no thread holds it, it is gone, and no callback begins any more. */
  lemma {:induction false} GoneIsQuiet(s: Timer, run: seq<Action>)
    requires !Alive(s) && ValidRun(s, run)
    ensures !Alive(After(s, run)) && SameCalls(s, After(s, run))
    decreases |run|
  {
    if run != [] {
      GoneStep(s, run[0]);
      GoneIsQuiet(Next(s, run[0]), run[1..]);
    }
  }
}
