/** The single-instance guard: any number of processes starting, locking, listening, shutting
    down and crashing on one name, one atomic step at a time
    (3rdparty/kdsingleapplication/kdsingleapplication_localsocket.cpp). */
module SingleInstance {
  import opened Options

  type Pid = nat

  /** How far a process has come in the constructor or the destructor. */
  datatype Phase =
    | Fresh           // not started
    | Unguarded       // no private directory: runs on its own, without lock and socket
    | Secondary       // did not get the lock
    | Locked          // has the lock, has not tried to listen
    | ListenFailed    // the first listen failed
    | SocketRemoved   // has removed the socket, has not tried again
    | NotListening    // the second listen failed as well
    | Listening
    | ServerClosed    // shutting down: the server is gone, the lock is not
    | LockReleased    // shutting down: the lock is gone as well
    | Gone
    | Crashed

  /** The lock file and the socket file name the process that made them; both outlive it. */
  datatype State = State(phases: map<Pid, Phase>, lock: Option<Pid>, socket: Option<Pid>, directory: bool) {
    function PhaseOf(p: Pid): Phase { if p in phases then phases[p] else Fresh }

    function Enter(p: Pid, phase: Phase): State { this.(phases := phases[p := phase]) }
  }

  predicate HoldsLock(phase: Phase) {
    phase in {Locked, ListenFailed, SocketRemoved, NotListening, Listening, ServerClosed}
  }

  predicate IsLive(phase: Phase) { phase !in {Fresh, Gone, Crashed} }

  /** isPrimaryInstance(). */
  predicate IsPrimary(phase: Phase) { HoldsLock(phase) || phase == Unguarded }

  datatype Step =
    | MakeDirectory
    | StartUnguarded(p: Pid)
    | TryLock(p: Pid, obtained: bool)
    | Listen(p: Pid, ok: bool)
    | RemoveSocket(p: Pid)
    | CloseServer(p: Pid)
    | ReleaseLock(p: Pid)
    | RemoveDirectory(p: Pid, removed: bool)
    | Crash(p: Pid)

  /** The lock can be had when nobody has it, or nobody that still runs: a lock whose process
      is dead is stale. */
  predicate LockIsFree(s: State) {
    s.lock.None? || s.PhaseOf(s.lock.value) == Crashed
  }

  predicate Enabled(s: State, step: Step) {
    match step
    case MakeDirectory => true
    case StartUnguarded(p) => s.PhaseOf(p) == Fresh
    case TryLock(p, obtained) => s.PhaseOf(p) == Fresh && (obtained ==> s.directory && LockIsFree(s))
    case Listen(p, ok) => s.PhaseOf(p) in {Locked, SocketRemoved} && (ok ==> s.directory)
    case RemoveSocket(p) => s.PhaseOf(p) == ListenFailed
    case CloseServer(p) => s.PhaseOf(p) in {Secondary, NotListening, Listening}
    case ReleaseLock(p) => s.PhaseOf(p) == ServerClosed
    case RemoveDirectory(p, removed) =>
      s.PhaseOf(p) == LockReleased && (removed ==> s.lock.None? && s.socket.None?)
    case Crash(p) => IsLive(s.PhaseOf(p))
  }

  /** Listening may replace a file that is in the way, or fail because of it. */
  function Take(s: State, step: Step): State
    requires Enabled(s, step)
  {
    match step
    case MakeDirectory => s.(directory := true)
    case StartUnguarded(p) => s.Enter(p, Unguarded)
    case TryLock(p, obtained) => if obtained then s.Enter(p, Locked).(lock := Some(p)) else s.Enter(p, Secondary)
    case Listen(p, ok) =>
      if ok then s.Enter(p, Listening).(socket := Some(p))
      else s.Enter(p, if s.PhaseOf(p) == Locked then ListenFailed else NotListening)
    case RemoveSocket(p) => s.Enter(p, SocketRemoved).(socket := None)
    case CloseServer(p) =>
      // closing a server removes whatever is at its path
      if s.PhaseOf(p) == Listening then s.Enter(p, ServerClosed).(socket := None)
      else if s.PhaseOf(p) == NotListening then s.Enter(p, ServerClosed)
      else s.Enter(p, LockReleased)
    case ReleaseLock(p) => s.Enter(p, LockReleased).(lock := None)
    case RemoveDirectory(p, removed) => s.Enter(p, Gone).(directory := s.directory && !removed)
    case Crash(p) => s.Enter(p, Crashed)
  }

  const Initial := State(map[], None, None, false)

  /** A run from the beginning: every interleaving of every process's steps is one. */
  ghost predicate IsRun(steps: seq<Step>, s: State) {
    if steps == [] then s == Initial
    else
      var before, last := steps[..|steps| - 1], steps[|steps| - 1];
      exists s0 :: IsRun(before, s0) && Enabled(s0, last) && s == Take(s0, last)
  }

  ghost predicate Reachable(s: State) { exists steps :: IsRun(steps, s) }

  ghost predicate HoldersNamed(s: State) {
    forall p: Pid :: HoldsLock(s.PhaseOf(p)) ==> s.lock == Some(p)
  }

  ghost predicate ListenersNamed(s: State) {
    forall p: Pid :: s.PhaseOf(p) == Listening ==> s.socket == Some(p)
  }

  /** The files name the process that holds the lock, the one that listens, or a crashed one. */
  ghost predicate Invariant(s: State) {
    && HoldersNamed(s)
    && ListenersNamed(s)
    && (s.lock.Some? ==> HoldsLock(s.PhaseOf(s.lock.value)) || s.PhaseOf(s.lock.value) == Crashed)
    && (s.socket.Some? ==> s.PhaseOf(s.socket.value) in {Listening, Crashed})
    && (s.lock.Some? || s.socket.Some? ==> s.directory)
  }

  lemma StepKeepsInvariant(s: State, step: Step)
    requires Invariant(s) && Enabled(s, step)
    ensures Invariant(Take(s, step))
  {
    StepKeepsHolders(s, step);
    StepKeepsListeners(s, step);
    hide HoldersNamed, ListenersNamed;
  }

  lemma StepKeepsHolders(s: State, step: Step)
    requires Invariant(s) && Enabled(s, step)
    ensures HoldersNamed(Take(s, step))
  {
    hide ListenersNamed;
    var s' := Take(s, step);
    forall p: Pid | HoldsLock(s'.PhaseOf(p)) ensures s'.lock == Some(p) {
      assert HoldsLock(s.PhaseOf(p)) ==> s.lock == Some(p);
    }
  }

  lemma StepKeepsListeners(s: State, step: Step)
    requires Invariant(s) && Enabled(s, step)
    ensures ListenersNamed(Take(s, step))
  {
    var s' := Take(s, step);
    forall p: Pid | s'.PhaseOf(p) == Listening ensures s'.socket == Some(p) {
      assert HoldsLock(s.PhaseOf(p)) ==> s.lock == Some(p);
      assert s.PhaseOf(p) == Listening ==> s.socket == Some(p);
    }
  }

  lemma {:induction false} RunKeepsInvariant(steps: seq<Step>, s: State)
    requires IsRun(steps, s)
    ensures Invariant(s)
    decreases |steps|
  {
    if steps != [] {
      var before, last := steps[..|steps| - 1], steps[|steps| - 1];
      var s0 :| IsRun(before, s0) && Enabled(s0, last) && s == Take(s0, last);
      RunKeepsInvariant(before, s0);
      StepKeepsInvariant(s0, last);
    }
  }

  /** At most one process listens or holds the lock, whoever listens holds it, and a guarded
      primary instance is alone. */
  lemma AtMostOneListens(s: State, p: Pid, q: Pid)
    requires Reachable(s)
    ensures s.PhaseOf(p) == Listening ==> s.lock == Some(p) && s.socket == Some(p)
    ensures HoldsLock(s.PhaseOf(p)) && HoldsLock(s.PhaseOf(q)) ==> p == q
    ensures IsPrimary(s.PhaseOf(p)) && IsPrimary(s.PhaseOf(q)) && p != q ==> Unguarded in {s.PhaseOf(p), s.PhaseOf(q)}
  {
    var steps :| IsRun(steps, s);
    RunKeepsInvariant(steps, s);
  }

  /** No step takes the socket, the lock or the directory away under a process that listens:
      it goes on listening, reachable at its socket, until it closes or crashes itself. */
  lemma NobodyElseEndsListening(s: State, step: Step, p: Pid)
    requires Reachable(s) && Enabled(s, step) && s.PhaseOf(p) == Listening
    requires step != CloseServer(p) && step != Crash(p)
    ensures var s' := Take(s, step);
            s'.PhaseOf(p) == Listening && s'.socket == Some(p) && s'.lock == Some(p) && s'.directory
  {
    var steps :| IsRun(steps, s);
    RunKeepsInvariant(steps, s);
    StepKeepsInvariant(s, step);
  }

  /** The socket removed before the second listen belongs to nobody that runs. */
  lemma OnlyStaleSocketsAreRemoved(s: State, p: Pid)
    requires Reachable(s) && Enabled(s, RemoveSocket(p))
    ensures s.socket.None? || s.PhaseOf(s.socket.value) == Crashed
  {
    var steps :| IsRun(steps, s);
    RunKeepsInvariant(steps, s);
  }

  lemma RunExtends(steps: seq<Step>, s: State, step: Step)
    requires IsRun(steps, s) && Enabled(s, step)
    ensures IsRun(steps + [step], Take(s, step))
  {
    var all := steps + [step];
    assert all[..|all| - 1] == steps && all[|all| - 1] == step;
  }

  /** Whatever crashes left behind, a process that starts while nobody holds the lock gets to
      listen, over a stale lock and a stale socket. */
  lemma StaleFilesDoNotLockOut(s: State, p: Pid) returns (s': State)
    requires Reachable(s) && s.PhaseOf(p) == Fresh && forall q: Pid :: !HoldsLock(s.PhaseOf(q))
    ensures Reachable(s') && s'.PhaseOf(p) == Listening && s'.socket == Some(p) && s'.lock == Some(p)
  {
    var run :| IsRun(run, s);
    RunKeepsInvariant(run, s);
    var steps := [MakeDirectory, TryLock(p, true), Listen(p, false), RemoveSocket(p), Listen(p, true)];
    var s1 := Take(s, steps[0]);
    var s2 := Take(s1, steps[1]);
    var s3 := Take(s2, steps[2]);
    var s4 := Take(s3, steps[3]);
    s' := Take(s4, steps[4]);
    RunExtends(run, s, steps[0]);
    RunExtends(run + [steps[0]], s1, steps[1]);
    RunExtends(run + [steps[0]] + [steps[1]], s2, steps[2]);
    RunExtends(run + [steps[0]] + [steps[1]] + [steps[2]], s3, steps[3]);
    RunExtends(run + [steps[0]] + [steps[1]] + [steps[2]] + [steps[3]], s4, steps[4]);
  }

  /** Why the server goes before the lock: were the lock given up first, another process could
      start and remove the socket of one that still listens. */
  lemma LockFirstIsUnsafe(s: State, p: Pid, q: Pid)
    requires Reachable(s) && s.PhaseOf(p) == Listening && s.PhaseOf(q) == Fresh
    ensures var s0 := s.(lock := None);
            && Enabled(s0, TryLock(q, true))
            && var s1 := Take(s0, TryLock(q, true));
               && Enabled(s1, Listen(q, false))
               && var s2 := Take(s1, Listen(q, false));
                  && Enabled(s2, RemoveSocket(q))
                  && s2.socket == Some(p)
                  && Take(s2, RemoveSocket(q)).PhaseOf(p) == Listening
                  && Take(s2, RemoveSocket(q)).socket == None
  {
    var steps :| IsRun(steps, s);
    RunKeepsInvariant(steps, s);
    assert s.socket == Some(p);
  }
}
