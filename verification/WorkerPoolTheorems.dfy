/** What holds in every run of the worker pool, and why no run gets stuck. */
module WorkerPoolTheorems {
  import opened WorkerPool

  // ---------------------------------------------------------------------------------------------
  // Safety
  // ---------------------------------------------------------------------------------------------

  /** The counter is exact in every state of every run, and the pool never exceeds its limit. */
  lemma CounterExact(run: seq<State>, k: nat)
    requires IsRun(run) && k < |run|
    ensures var s := run[k];
      && s.counter == Active(s.workers) + (if Reserved(s.main) then 1 else 0)
      && 0 <= s.counter <= s.limit
  {
    RunKeeps(run, k);
  }

  /** No two threads are ever inside a section guarded by the same mutex. */
  lemma MutualExclusion(run: seq<State>, k: nat, v: nat, w: nat)
    requires IsRun(run) && k < |run| && v < |run[k].workers| && w < |run[k].workers|
    ensures var s := run[k];
      && !(MainHolds(s.main) && Holds(s.workers[w].pc))
      && (Holds(s.workers[v].pc) && Holds(s.workers[w].pc) ==> v == w)
      && (s.workers[v].pc.HoldsInit? && s.workers[w].pc.HoldsInit? ==> v == w)
  {
    RunKeeps(run, k);
  }

  /** No file goes to two workers; a file main is done with has one worker, unless its thread failed to start. */
  lemma OneWorkerPerFile(run: seq<State>, k: nat)
    requires IsRun(run) && k < |run|
    ensures var s := run[k];
      && (forall v, w :: 0 <= v < |s.workers| && 0 <= w < |s.workers| && s.workers[v].file == s.workers[w].file ==> v == w)
      && (forall f :: 0 <= f < s.next ==> (HasWorker(s, f) <==> f !in s.failed))
      && (AfterFinal(s.main) ==> s.next == s.files)
  {
    RunKeeps(run, k);
  }

  /** When main destroys the mutexes every worker ever created is past its last use of them. */
  lemma DestroyIsSafe(run: seq<State>, k: nat, w: nat)
    requires IsRun(run) && k < |run| && w < |run[k].workers|
    requires run[k].main.Destroying? || run[k].main.Joining?
    ensures run[k].workers[w].pc == Finished
  {
    RunKeeps(run, k);
  }

  lemma OnlyWorkersExit(s: State, t: State)
    requires MainStep(s, t)
    ensures !t.exited
  {
  }

  lemma ExitStep(s: State, t: State, w: nat)
    requires Invariant(s) && WorkerStep(s, t, w) && t.exited
    ensures w < |t.workers| && t.workers[w].pc.ExitLocked? && t.mutex == Worker(w)
  {
    OnlyItself(s, t, w);
    if s.workers[w].pc.Exiting? {
      CountedWorker(s, w);
    }
  }

  /** The fatal-error exit never finds the counter at zero, so the process ends with the mutex in its hands. */
  lemma ExitHoldsMutex(s: State, t: State) returns (w: nat)
    requires Invariant(s) && Step(s, t) && t.exited
    ensures w < |t.workers| && t.workers[w].pc.ExitLocked? && t.mutex == Worker(w)
  {
    if MainStep(s, t) {
      OnlyWorkersExit(s, t);
    }
    w :| WorkerStep(s, t, w);
    ExitStep(s, t, w);
  }

  // ---------------------------------------------------------------------------------------------
  // Progress
  // ---------------------------------------------------------------------------------------------

  /** How far a worker is from its end. The decrement weighs more, for it may wake the main thread. */
  function WorkerWeight(pc: WorkerPc): nat {
    match pc
    case Starting => 13
    case HoldsInit => 12
    case Working => 11
    case AtLock => 10
    case Exiting => 10
    case Locked => 9
    case ExitLocked => 9
    case Decremented => 4
    case Signalled => 3
    case Finished => 0
  }

  function MainWeight(s: State): nat {
    match s.main
    case LoopTop => 12
    case Checking => 9
    case Waiting => if s.counter == s.limit then 8 else 10
    case Counted => 7
    case Creating => 6
    case FailLock => 5
    case FailLocked => 4
    case FailUncounted => 3
    case FinalCheck => 9
    case FinalWaiting => if s.counter == 0 then 10 else 8
    case FinalUnlock => 2
    case Destroying => 1
    case Joining => 0
  }

  function Weights(ws: seq<Thread>): nat {
    if ws == [] then 0 else WorkerWeight(ws[|ws| - 1].pc) + Weights(ws[..|ws| - 1])
  }

  function Work(s: State): int {
    if s.exited then 0 else 1 + 40 * (s.files - s.next) + MainWeight(s) + Weights(s.workers)
  }

  /** Main wakes from a timed wait although nothing it waits for has happened. */
  predicate IdleWake(s: State, t: State) {
    || (s.main.Waiting? && t.main.Checking? && s.counter == s.limit)
    || (s.main.FinalWaiting? && t.main.FinalCheck? && s.counter != 0)
  }

  lemma {:induction false} WeightsUpdate(ws: seq<Thread>, w: nat, x: Thread)
    requires w < |ws|
    ensures Weights(ws[w := x]) == Weights(ws) - WorkerWeight(ws[w].pc) + WorkerWeight(x.pc)
  {
    var n := |ws| - 1;
    if w == n {
      assert ws[w := x][..n] == ws[..n];
    } else {
      assert ws[w := x][..n] == ws[..n][w := x];
      WeightsUpdate(ws[..n], w, x);
    }
  }

  lemma MainWorks(s: State, t: State)
    requires Invariant(s) && MainStep(s, t) && !IdleWake(s, t)
    ensures 0 <= Work(t) < Work(s)
  {
    if s.main.Creating? && t.main.LoopTop? {
      assert t.workers[..|s.workers|] == s.workers;
    }
  }

  lemma WorkerWorks(s: State, t: State, w: nat)
    requires Invariant(s) && WorkerStep(s, t, w)
    ensures 0 <= Work(t) < Work(s)
  {
    OnlyItself(s, t, w);
    WeightsUpdate(s.workers, w, t.workers[w]);
  }

  /** Every step uses up work, except a wake-up of the main thread for nothing. */
  lemma StepsUseUpWork(s: State, t: State)
    requires Invariant(s) && Step(s, t) && !IdleWake(s, t)
    ensures 0 <= Work(t) < Work(s)
  {
    if MainStep(s, t) {
      MainWorks(s, t);
    } else {
      var w :| WorkerStep(s, t, w);
      WorkerWorks(s, t, w);
    }
  }

  lemma {:induction false} SomeActive(ws: seq<Thread>) returns (w: nat)
    requires Active(ws) > 0
    ensures w < |ws| && Counts(ws[w].pc)
  {
    if Counts(ws[|ws| - 1].pc) {
      w := |ws| - 1;
    } else {
      w := SomeActive(ws[..|ws| - 1]);
    }
  }

  /** Main can move when it holds the mutex, or needs none, or finds it free and has something to do. */
  predicate MainReady(s: State) {
    || MainHolds(s.main) || s.main.Creating? || s.main.Destroying?
    || (&& s.mutex == Nobody
        && (|| s.main.LoopTop? || s.main.FailLock?
            || (s.main.Waiting? && s.counter != s.limit) || (s.main.FinalWaiting? && s.counter == 0)))
  }

  lemma MainMoves(s: State) returns (t: State)
    requires !s.exited && MainReady(s)
    ensures MainStep(s, t) && !IdleWake(s, t)
  {
    match s.main
    case LoopTop => t := s.(mutex := Main, main := if s.next < s.files then Checking else FinalCheck);
    case Checking =>
      t := if s.counter == s.limit then s.(mutex := Nobody, main := Waiting)
           else s.(counter := s.counter + 1, main := Counted);
    case Waiting => t := s.(mutex := Main, main := Checking);
    case Counted => t := s.(mutex := Nobody, main := Creating);
    case Creating => t := s.(workers := s.workers + [Thread(s.next, Starting)], next := s.next + 1, main := LoopTop);
    case FailLock => t := s.(mutex := Main, main := FailLocked);
    case FailLocked => t := s.(counter := s.counter - 1, main := FailUncounted);
    case FailUncounted =>
      t := s.(mutex := Nobody, failed := s.failed + {s.next}, next := s.next + 1, main := LoopTop);
    case FinalCheck =>
      t := if s.counter != 0 then s.(mutex := Nobody, main := FinalWaiting) else s.(main := FinalUnlock);
    case FinalWaiting => t := s.(mutex := Main, main := FinalCheck);
    case FinalUnlock => t := s.(mutex := Nobody, main := Destroying);
    case Destroying => t := s.(main := Joining);
  }

  /** A worker can move when it holds the mutex it needs or finds it free. */
  predicate WorkerReady(s: State, w: nat)
    requires w < |s.workers|
  {
    var pc := s.workers[w].pc;
    || Holds(pc) || pc.HoldsInit? || pc.Working?
    || (pc.Starting? && s.initMutex == Nobody)
    || ((pc.AtLock? || pc.Exiting?) && s.mutex == Nobody)
  }

  lemma WorkerMoves(s: State, w: nat) returns (t: State)
    requires !s.exited && w < |s.workers| && WorkerReady(s, w)
    ensures WorkerStep(s, t, w)
  {
    match s.workers[w].pc
    case Starting => t := SetPc(s, w, HoldsInit).(initMutex := Worker(w));
    case HoldsInit => t := SetPc(s, w, Working).(initMutex := Nobody);
    case Working => t := SetPc(s, w, AtLock);
    case AtLock => t := SetPc(s, w, Locked).(mutex := Worker(w));
    case Locked => t := SetPc(s, w, Decremented).(counter := s.counter - 1);
    case Decremented => t := SetPc(s, w, Signalled);
    case Signalled => t := SetPc(s, w, Finished).(mutex := Nobody);
    case Exiting => t := if s.counter == 0 then s.(exited := true) else SetPc(s, w, ExitLocked).(mutex := Worker(w));
    case ExitLocked => t := s.(exited := true);
  }

  /** While main waits for workers, one of them can move. */
  lemma SomeWorkerReady(s: State) returns (w: nat)
    requires Invariant(s) && s.mutex == Nobody && !Reserved(s.main) && s.counter != 0
    ensures w < |s.workers| && WorkerReady(s, w)
  {
    w := SomeActive(s.workers);
    if s.workers[w].pc.Starting? && s.initMutex != Nobody {
      w := s.initMutex.id;
    }
  }

  /** As long as main is not through and no fatal error ended the process, some thread can take a useful step. */
  lemma NoDeadlock(s: State) returns (t: State)
    requires Invariant(s) && !s.exited && !s.main.Joining?
    ensures Step(s, t) && !IdleWake(s, t)
    ensures Invariant(t) && 0 <= Work(t) < Work(s)
  {
    if MainReady(s) {
      t := MainMoves(s);
      MainKeeps(s, t);
      MainWorks(s, t);
    } else {
      var w: nat;
      if s.mutex.Worker? {
        w := s.mutex.id;
      } else {
        w := SomeWorkerReady(s);
      }
      t := WorkerMoves(s, w);
      WorkerKeeps(s, t, w);
      WorkerWorks(s, t, w);
      OnlyItself(s, t, w);
    }
  }

  /** Every run can be continued to its end: the mutexes destroyed, or the process ended by a fatal error. */
  lemma {:induction false} CanFinish(run: seq<State>) returns (end: seq<State>)
    requires IsRun(run)
    ensures run <= end && IsRun(end)
    ensures var s := end[|end| - 1]; s.main.Joining? || s.exited
    decreases Work(run[|run| - 1])
  {
    var s := run[|run| - 1];
    RunKeeps(run, |run| - 1);
    if s.main.Joining? || s.exited {
      end := run;
    } else {
      var t := NoDeadlock(s);
      end := CanFinish(run + [t]);
    }
  }
}
