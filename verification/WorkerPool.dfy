/**
 The import worker pool: the main thread hands each file to a thread of its own, never more than a given
 number at a time, and tears its mutexes down when the last worker is through with them.

 The model is a step relation over all interleavings. A step is one access to shared state: taking or
 releasing a mutex, reading or changing the counter, creating a thread, waking from a wait.
 */
module WorkerPool {

  /** Where a worker is in `worker_thread`. */
  datatype WorkerPc =
    | Starting        // before the connection
    | HoldsInit       // inside the section guarded by the init mutex
    | Working         // connecting, loading, disconnecting
    | AtLock          // about to take the counter mutex
    | Locked          // holds it, counter not yet decremented
    | Decremented     // holds it, counter decremented, waiters not yet signalled
    | Signalled       // holds it, about to release
    | Finished        // past its last use of either mutex
    | Exiting         // in the fatal-error exit: waits for the counter mutex
    | ExitLocked      // in the fatal-error exit, holding the counter mutex for good

  /** Where the main thread is in the pool loop. */
  datatype MainPc =
    | LoopTop         // about to look at the next file
    | Checking        // holds the mutex, tests whether the pool is full
    | Waiting         // in the timed wait, mutex released
    | Counted         // holds the mutex, counter incremented
    | Creating        // about to create the thread
    | FailLock        // creation failed, about to take the mutex
    | FailLocked      // holds it, counter not yet corrected
    | FailUncounted   // holds it, counter corrected
    | FinalCheck      // after the loop: holds the mutex, tests the counter
    | FinalWaiting    // in the timed wait, mutex released
    | FinalUnlock     // counter seen zero, about to release
    | Destroying      // about to destroy the mutexes
    | Joining         // mutexes destroyed

  datatype Owner = Nobody | Main | Worker(id: nat)

  /** `file` is the index of the file the worker was created for. */
  datatype Thread = Thread(file: nat, pc: WorkerPc)

  /**
   `next` counts the files main is done with; `failed` holds those whose thread could not be created.
   `exited` is set once a fatal error ended the process: nothing moves after that.
   */
  datatype State = State(
    files: nat, limit: nat,
    counter: int, mutex: Owner, initMutex: Owner,
    main: MainPc, next: nat, workers: seq<Thread>, failed: set<nat>, exited: bool)

  ghost predicate Init(s: State) {
    && s.limit > 0
    && s == State(s.files, s.limit, 0, Nobody, Nobody, LoopTop, 0, [], {}, false)
  }

  // ---------------------------------------------------------------------------------------------
  // Steps of the main thread
  // ---------------------------------------------------------------------------------------------

  ghost predicate MainStep(s: State, t: State) {
    && !s.exited
    && match s.main
       case LoopTop =>
         s.mutex == Nobody &&
         t == s.(mutex := Main, main := if s.next < s.files then Checking else FinalCheck)
       case Checking =>
         if s.counter == s.limit then t == s.(mutex := Nobody, main := Waiting)
         else t == s.(counter := s.counter + 1, main := Counted)
       case Waiting =>
         s.mutex == Nobody && t == s.(mutex := Main, main := Checking)
       case Counted =>
         t == s.(mutex := Nobody, main := Creating)
       case Creating =>
         || t == s.(workers := s.workers + [Thread(s.next, Starting)], next := s.next + 1, main := LoopTop)
         || t == s.(main := FailLock)
       case FailLock =>
         s.mutex == Nobody && t == s.(mutex := Main, main := FailLocked)
       case FailLocked =>
         t == s.(counter := s.counter - 1, main := FailUncounted)
       case FailUncounted =>
         t == s.(mutex := Nobody, failed := s.failed + {s.next}, next := s.next + 1, main := LoopTop)
       case FinalCheck =>
         if s.counter != 0 then t == s.(mutex := Nobody, main := FinalWaiting) else t == s.(main := FinalUnlock)
       case FinalWaiting =>
         s.mutex == Nobody && t == s.(mutex := Main, main := FinalCheck)
       case FinalUnlock =>
         t == s.(mutex := Nobody, main := Destroying)
       case Destroying =>
         t == s.(main := Joining)
       case Joining =>
         false
  }

  // ---------------------------------------------------------------------------------------------
  // Steps of worker `w`
  // ---------------------------------------------------------------------------------------------

  function SetPc(s: State, w: nat, pc: WorkerPc): State
    requires w < |s.workers|
  {
    s.(workers := s.workers[w := s.workers[w].(pc := pc)])
  }

  ghost predicate WorkerStep(s: State, t: State, w: nat) {
    && !s.exited && w < |s.workers|
    && match s.workers[w].pc
       case Starting =>
         || (s.initMutex == Nobody && t == SetPc(s, w, HoldsInit).(initMutex := Worker(w)))
         || t == SetPc(s, w, AtLock)
       case HoldsInit =>
         || t == SetPc(s, w, Working).(initMutex := Nobody)
         || t == SetPc(s, w, AtLock).(initMutex := Nobody)
       case Working =>
         t == SetPc(s, w, AtLock) || t == SetPc(s, w, Exiting)
       case AtLock =>
         s.mutex == Nobody && t == SetPc(s, w, Locked).(mutex := Worker(w))
       case Locked =>
         t == SetPc(s, w, Decremented).(counter := s.counter - 1)
       case Decremented =>
         t == SetPc(s, w, Signalled)
       case Signalled =>
         t == SetPc(s, w, Finished).(mutex := Nobody)
       case Finished =>
         false
       case Exiting =>
         if s.counter == 0 then t == s.(exited := true)
         else s.mutex == Nobody && t == SetPc(s, w, ExitLocked).(mutex := Worker(w))
       case ExitLocked =>
         t == s.(exited := true)
  }

  ghost predicate Step(s: State, t: State) {
    MainStep(s, t) || exists w :: WorkerStep(s, t, w)
  }

  /** A run from an initial state, every state a step away from the one before. */
  ghost predicate IsRun(run: seq<State>) {
    && |run| > 0 && Init(run[0])
    && forall k :: 0 < k < |run| ==> Step(run[k - 1], run[k])
  }

  // ---------------------------------------------------------------------------------------------
  // The invariant
  // ---------------------------------------------------------------------------------------------

  /** Created, and not yet past its decrement of the counter. */
  predicate Counts(pc: WorkerPc) {
    !pc.Decremented? && !pc.Signalled? && !pc.Finished?
  }

  function Active(ws: seq<Thread>): nat {
    if ws == [] then 0 else (if Counts(ws[|ws| - 1].pc) then 1 else 0) + Active(ws[..|ws| - 1])
  }

  /** Main has incremented the counter for a thread that does not exist yet. */
  predicate Reserved(pc: MainPc) {
    pc.Counted? || pc.Creating? || pc.FailLock? || pc.FailLocked?
  }

  predicate MainHolds(pc: MainPc) {
    pc.Checking? || pc.Counted? || pc.FailLocked? || pc.FailUncounted? || pc.FinalCheck? || pc.FinalUnlock?
  }

  predicate Holds(pc: WorkerPc) {
    pc.Locked? || pc.Decremented? || pc.Signalled? || pc.ExitLocked?
  }

  /** A mutex names the one thread that is between taking and releasing it. */
  predicate MutexOk(s: State) {
    && (MainHolds(s.main) <==> s.mutex == Main)
    && (forall w :: 0 <= w < |s.workers| ==> (Holds(s.workers[w].pc) <==> s.mutex == Worker(w)))
    && (s.mutex.Worker? ==> s.mutex.id < |s.workers|)
  }

  predicate InitMutexOk(s: State) {
    && (forall w :: 0 <= w < |s.workers| ==> (s.workers[w].pc.HoldsInit? <==> s.initMutex == Worker(w)))
    && (s.initMutex.Worker? ==> s.initMutex.id < |s.workers|) && !s.initMutex.Main?
  }

  predicate HasWorker(s: State, f: nat) {
    exists w :: 0 <= w < |s.workers| && s.workers[w].file == f
  }

  /** Each file main is done with has exactly one worker or failed, never both. */
  predicate FilesOk(s: State) {
    && s.next <= s.files
    && (forall v, w :: 0 <= v < w < |s.workers| ==> s.workers[v].file < s.workers[w].file)
    && (forall w :: 0 <= w < |s.workers| ==> s.workers[w].file < s.next && s.workers[w].file !in s.failed)
    && (forall f :: f in s.failed ==> f < s.next)
    && (forall f :: 0 <= f < s.next && f !in s.failed ==> HasWorker(s, f))
  }

  predicate AfterFinal(pc: MainPc) {
    pc.FinalUnlock? || pc.Destroying? || pc.Joining?
  }

  /** The loop has a file in hand, or is over. */
  predicate PhaseOk(s: State) {
    && (s.main.Checking? || s.main.Waiting? || s.main.FailUncounted? || Reserved(s.main) ==> s.next < s.files)
    && (s.main.FinalCheck? || s.main.FinalWaiting? || AfterFinal(s.main) ==> s.next == s.files)
  }

  /** The counter is the number of workers not past their decrement, plus one while main has one reserved. */
  predicate CounterOk(s: State) {
    && s.counter == Active(s.workers) + (if Reserved(s.main) then 1 else 0)
    && s.counter <= s.limit
  }

  /** Once main has seen the counter at zero, no worker uses a mutex again. */
  predicate TeardownOk(s: State) {
    AfterFinal(s.main) ==> forall w :: 0 <= w < |s.workers| ==> s.workers[w].pc == Finished
  }

  predicate Invariant(s: State) {
    && s.limit > 0
    && CounterOk(s) && MutexOk(s) && InitMutexOk(s) && FilesOk(s) && PhaseOk(s) && TeardownOk(s)
  }

  // ---------------------------------------------------------------------------------------------
  // Every step keeps it
  // ---------------------------------------------------------------------------------------------

  lemma {:induction false} ActiveUpdate(ws: seq<Thread>, w: nat, x: Thread)
    requires w < |ws|
    ensures Active(ws[w := x]) == Active(ws) - (if Counts(ws[w].pc) then 1 else 0) + (if Counts(x.pc) then 1 else 0)
  {
    var n := |ws| - 1;
    if w == n {
      assert ws[w := x][..n] == ws[..n];
    } else {
      assert ws[w := x][..n] == ws[..n][w := x];
      ActiveUpdate(ws[..n], w, x);
    }
  }

  lemma ActiveAppend(ws: seq<Thread>, x: Thread)
    ensures Active(ws + [x]) == Active(ws) + (if Counts(x.pc) then 1 else 0)
  {
    assert (ws + [x])[..|ws|] == ws;
  }

  lemma {:induction false} ActiveHas(ws: seq<Thread>, w: nat)
    requires w < |ws| && Counts(ws[w].pc)
    ensures Active(ws) > 0
  {
    if w < |ws| - 1 {
      ActiveHas(ws[..|ws| - 1], w);
    }
  }

  lemma MainKeepsCounter(s: State, t: State)
    requires CounterOk(s) && MainStep(s, t)
    ensures CounterOk(t)
  {
    if t.workers != s.workers {
      ActiveAppend(s.workers, Thread(s.next, Starting));
      assert t.workers == s.workers + [Thread(s.next, Starting)] && t.counter == s.counter;
    }
  }

  lemma MainKeepsMutex(s: State, t: State)
    requires MutexOk(s) && InitMutexOk(s) && MainStep(s, t)
    ensures MutexOk(t) && InitMutexOk(t)
  {
    assert forall w :: 0 <= w < |s.workers| ==> t.workers[w] == s.workers[w];
  }

  lemma MainKeepsPhase(s: State, t: State)
    requires PhaseOk(s) && s.next <= s.files && MainStep(s, t)
    ensures PhaseOk(t) && t.next <= t.files
  {
  }

  lemma FilesCovered(s: State, t: State)
    requires FilesOk(s) && t.next == s.next + 1 && s.failed <= t.failed
    requires |t.workers| >= |s.workers| && forall w :: 0 <= w < |s.workers| ==> t.workers[w] == s.workers[w]
    requires s.next in t.failed || HasWorker(t, s.next)
    ensures forall f :: 0 <= f < t.next && f !in t.failed ==> HasWorker(t, f)
  {
    forall f | 0 <= f < s.next && f !in t.failed
      ensures HasWorker(t, f)
    {
      var w :| 0 <= w < |s.workers| && s.workers[w].file == f;
      assert t.workers[w].file == f;
    }
  }

  lemma MainKeepsFiles(s: State, t: State)
    requires FilesOk(s) && PhaseOk(s) && MainStep(s, t)
    ensures FilesOk(t)
  {
    if s.main.Creating? && t.main.LoopTop? {
      assert t.workers[|s.workers|].file == s.next;
      FilesCovered(s, t);
    } else if s.main.FailUncounted? {
      FilesCovered(s, t);
    } else {
      assert t.workers == s.workers && t.failed == s.failed && t.next == s.next && t.files == s.files;
      assert forall f :: HasWorker(s, f) ==> HasWorker(t, f);
    }
  }

  lemma {:induction false} NoneActive(ws: seq<Thread>, w: nat)
    requires Active(ws) == 0 && w < |ws|
    ensures !Counts(ws[w].pc)
  {
    if w < |ws| - 1 {
      NoneActive(ws[..|ws| - 1], w);
    }
  }

  /** Main sees zero with the mutex in hand: no worker is before its decrement, and none is inside the section. */
  lemma MainKeepsTeardown(s: State, t: State)
    requires CounterOk(s) && MutexOk(s) && TeardownOk(s) && MainStep(s, t)
    ensures TeardownOk(t)
  {
    if s.main.FinalCheck? && s.counter == 0 {
      forall w | 0 <= w < |s.workers|
        ensures s.workers[w].pc == Finished
      {
        NoneActive(s.workers, w);
        assert !Holds(s.workers[w].pc);
      }
    }
  }

  /** A worker's step changes only its own program counter among the threads. */
  lemma OnlyItself(s: State, t: State, w: nat)
    requires WorkerStep(s, t, w)
    ensures w < |t.workers| && t.workers == s.workers[w := t.workers[w]] && t.workers[w].file == s.workers[w].file
    ensures t.files == s.files && t.limit == s.limit && t.main == s.main && t.next == s.next && t.failed == s.failed
  {
  }

  lemma WorkerKeepsMutex(s: State, t: State, w: nat)
    requires MutexOk(s) && WorkerStep(s, t, w)
    ensures MutexOk(t)
  {
    OnlyItself(s, t, w);
  }

  lemma WorkerKeepsInitMutex(s: State, t: State, w: nat)
    requires InitMutexOk(s) && WorkerStep(s, t, w)
    ensures InitMutexOk(t)
  {
    OnlyItself(s, t, w);
  }

  lemma WorkerKeepsFiles(s: State, t: State, w: nat)
    requires FilesOk(s) && WorkerStep(s, t, w)
    ensures FilesOk(t)
  {
    OnlyItself(s, t, w);
    assert forall v :: 0 <= v < |s.workers| ==> t.workers[v].file == s.workers[v].file;
    forall f | 0 <= f < t.next && f !in t.failed
      ensures HasWorker(t, f)
    {
      var v :| 0 <= v < |s.workers| && s.workers[v].file == f;
      assert t.workers[v].file == f;
    }
  }

  lemma WorkerKeepsTeardown(s: State, t: State, w: nat)
    requires TeardownOk(s) && WorkerStep(s, t, w)
    ensures TeardownOk(t)
  {
    OnlyItself(s, t, w);
  }

  /** A worker that has not decremented is counted, so no worker finds the counter at zero. */
  lemma CountedWorker(s: State, w: nat)
    requires CounterOk(s) && w < |s.workers| && Counts(s.workers[w].pc)
    ensures s.counter > 0
  {
    ActiveHas(s.workers, w);
  }

  lemma WorkerKeepsCounter(s: State, t: State, w: nat)
    requires CounterOk(s) && WorkerStep(s, t, w)
    ensures CounterOk(t)
  {
    OnlyItself(s, t, w);
    ActiveUpdate(s.workers, w, t.workers[w]);
  }

  lemma MainKeeps(s: State, t: State)
    requires Invariant(s) && MainStep(s, t)
    ensures Invariant(t)
  {
    MainKeepsCounter(s, t);
    MainKeepsMutex(s, t);
    MainKeepsPhase(s, t);
    MainKeepsFiles(s, t);
    MainKeepsTeardown(s, t);
  }

  lemma WorkerKeeps(s: State, t: State, w: nat)
    requires Invariant(s) && WorkerStep(s, t, w)
    ensures Invariant(t)
  {
    OnlyItself(s, t, w);
    WorkerKeepsCounter(s, t, w);
    WorkerKeepsMutex(s, t, w);
    WorkerKeepsInitMutex(s, t, w);
    WorkerKeepsFiles(s, t, w);
    WorkerKeepsTeardown(s, t, w);
  }

  lemma {:induction false} RunKeeps(run: seq<State>, k: nat)
    requires IsRun(run) && k < |run|
    ensures Invariant(run[k])
  {
    if k > 0 {
      RunKeeps(run, k - 1);
      var s, t := run[k - 1], run[k];
      if MainStep(s, t) {
        MainKeeps(s, t);
      } else {
        var w :| WorkerStep(s, t, w);
        WorkerKeeps(s, t, w);
      }
    }
  }
}
