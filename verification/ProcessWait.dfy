/** The classification that ProcessWrapper::waitForProcess makes of one waitpid call, and what it
    tells the supervisor about the process it waited for. The wrappers for Linux and macOS agree. */
module ProcessWait {

  const INVALID_PID := -1

  datatype WaitStatus =
    | ProcessTerminated
    | ProcessExited
    | ImpossibleError
    | ProcessNotAChild
    | ProcessDoesNotExist
    | WaitInterruptedBySignal
    | UnknownStatus

  datatype Errno = ECHILD | EINTR | EINVAL

  /** What the system calls inside one waitForProcess answered: waitpid's result and errno, WIFEXITED
      of the reported status, and whether kill(pid, 0) returned 0. */
  datatype WaitAnswer = WaitAnswer(pidRes: int, errno: Errno, exited: bool, killZeroOk: bool)

  function WaitForProcess(pid: int, answer: WaitAnswer): WaitStatus {
    if pid <= INVALID_PID then UnknownStatus
    else if answer.pidRes == 0 then ImpossibleError
    else if answer.pidRes == INVALID_PID then
      match answer.errno
      case ECHILD => if pid > 0 && answer.killZeroOk then ProcessNotAChild else ProcessDoesNotExist
      case EINTR => WaitInterruptedBySignal
      case EINVAL => UnknownStatus
    else if answer.exited then ProcessExited
    else ProcessTerminated
  }

  /** waitpid(pid, &status, 0) as the entry "wait, waitpid" of the System Interfaces volume of POSIX.1-2017 has
      it, for a process this process forked: the call returns the pid once that child has ended, or -1, with
      ECHILD only when no such child is left to wait for, with EINTR on a signal; EINVAL is for bad options,
      and 0 is never returned without WNOHANG. For pid 0 it waits for any child of the process group and
      returns that child's pid; no process has the pid 0, so none is running under it. */
  predicate PosixWaitpid(pid: nat, answer: WaitAnswer, running: bool) {
    && (if pid == 0 then !running && (answer.pidRes > 0 || answer.pidRes == -1)
        else answer.pidRes == pid || answer.pidRes == -1)
    && (pid > 0 && answer.pidRes == pid ==> !running)
    && (answer.pidRes == -1 ==> answer.errno != EINVAL)
    && (answer.pidRes == -1 && answer.errno == ECHILD ==> !running)
  }

  /** A status that says the process was reaped by this very call. */
  predicate Reaps(status: WaitStatus) {
    status.ProcessTerminated? || status.ProcessExited?
  }

  /** The statuses after which the monitor starts the agent again (while it is meant to run). */
  predicate Restarts(status: WaitStatus) {
    !status.ImpossibleError? && !status.ProcessNotAChild?
  }

  /** The hypothesis under which the supervisor is safe: a wait for a real child is not cut short by
      a signal and has no unexpected error, and then a status that makes the monitor restart the
      agent means the old one is dead. A wait for an invalid pid is always UnknownStatus.
      ImpossibleError and ProcessNotAChild may be reported of any child, dead or alive. */
  predicate HonestWait(pid: int, status: WaitStatus, running: bool) {
    if pid <= INVALID_PID then status.UnknownStatus?
    else
      && !status.WaitInterruptedBySignal?
      && !status.UnknownStatus?
      && (Restarts(status) ==> !running)
  }

  /** POSIX and the classification give exactly that hypothesis, except for EINTR: for every pid the status is
      honest if and only if the wait was not interrupted. */
  lemma PosixWaitIsHonestIff(pid: int, answer: WaitAnswer, running: bool)
    requires pid >= 0 ==> PosixWaitpid(pid, answer, running)
    ensures HonestWait(pid, WaitForProcess(pid, answer), running)
            <==> (pid < 0 || answer.pidRes != -1 || answer.errno != EINTR)
    ensures pid >= 0 ==> !WaitForProcess(pid, answer).ImpossibleError?
  {
  }

  /** What each status says of a process of ours, under POSIX: it was reaped by this very call, and how it ended;
      or there is nothing to wait for, and whether there is a process of that number all the same; or a signal
      came. There is no other status. */
  lemma StatusTells(pid: nat, answer: WaitAnswer, running: bool)
    requires pid > 0 && PosixWaitpid(pid, answer, running)
    ensures var status := WaitForProcess(pid, answer);
      && (Reaps(status) <==> answer.pidRes == pid)
      && (status.ProcessExited? <==> answer.pidRes == pid && answer.exited)
      && (status.ProcessTerminated? <==> answer.pidRes == pid && !answer.exited)
      && (status.ProcessNotAChild? <==> answer.pidRes == -1 && answer.errno == ECHILD && answer.killZeroOk)
      && (status.ProcessDoesNotExist? <==> answer.pidRes == -1 && answer.errno == ECHILD && !answer.killZeroOk)
      && (status.WaitInterruptedBySignal? <==> answer.pidRes == -1 && answer.errno == EINTR)
  {
  }

  /** So the end of the agent is never missed: when this call reaped it, or when there is neither such a child nor
      such a process any more, the monitor starts it again; and it waits again exactly when a process of that
      number exists that is no child. */
  lemma EndIsNeverMissed(pid: nat, answer: WaitAnswer, running: bool)
    requires pid > 0 && PosixWaitpid(pid, answer, running)
    ensures var status := WaitForProcess(pid, answer);
      && (answer.pidRes == pid ==> Restarts(status))
      && (!Restarts(status) <==> answer.pidRes == -1 && answer.errno == ECHILD && answer.killZeroOk)
  {
  }

  /** Outside POSIX: a result of 0 is the impossible error, and any other errno tells nothing. */
  lemma OtherAnswers(pid: int, answer: WaitAnswer)
    ensures var status := WaitForProcess(pid, answer);
      && (status.ImpossibleError? <==> pid >= 0 && answer.pidRes == 0)
      && (status.UnknownStatus? <==> pid < 0 || (answer.pidRes == -1 && answer.errno == EINVAL))
  {
  }
}
