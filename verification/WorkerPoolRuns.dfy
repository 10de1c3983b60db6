/** Runs of the worker pool that do what it is for: import every file, and many at a time. */
module WorkerPoolRuns {
  import opened WorkerPool

  // ---------------------------------------------------------------------------------------------
  // Paths
  // ---------------------------------------------------------------------------------------------

  /** Every state is a step away from the one before. */
  ghost predicate Path(p: seq<State>) {
    |p| > 0 && forall k :: 0 < k < |p| ==> Step(p[k - 1], p[k])
  }

  ghost predicate PathFromTo(p: seq<State>, s: State, t: State) {
    Path(p) && p[0] == s && p[|p| - 1] == t
  }

  lemma Stay(s: State)
    ensures PathFromTo([s], s, s)
  {
  }

  lemma GoOn(p: seq<State>, s: State, t: State, u: State)
    requires PathFromTo(p, s, t) && Step(t, u)
    ensures PathFromTo(p + [u], s, u)
  {
    var q := p + [u];
    assert forall k :: 0 <= k < |p| ==> q[k] == p[k];
  }

  lemma Join(p: seq<State>, q: seq<State>, s: State, t: State, u: State)
    requires PathFromTo(p, s, t) && PathFromTo(q, t, u)
    ensures PathFromTo(p + q[1..], s, u)
  {
    var r := p + q[1..];
    assert forall k :: 0 <= k < |p| ==> r[k] == p[k];
    assert forall k :: |p| <= k < |r| ==> r[k] == q[k - |p| + 1];
    assert r[|p| - 1] == q[0];
  }

  lemma ByWorker(s: State, t: State, w: nat)
    requires WorkerStep(s, t, w)
    ensures Step(s, t)
  {
  }

  // ---------------------------------------------------------------------------------------------
  // A worker for one more file
  // ---------------------------------------------------------------------------------------------

  /** Main is about to look at file `|ws|`, with these workers for the files before it. */
  function AtLoop(files: nat, limit: nat, ws: seq<Thread>, counter: int): State {
    State(files, limit, counter, Nobody, Nobody, LoopTop, |ws|, ws, {}, false)
  }

  /** As long as the pool is not full, the next file gets a worker. */
  lemma Started(files: nat, limit: nat, ws: seq<Thread>, counter: nat) returns (p: seq<State>)
    requires |ws| < files && counter < limit
    ensures PathFromTo(p, AtLoop(files, limit, ws, counter),
                       AtLoop(files, limit, ws + [Thread(|ws|, Starting)], counter + 1))
  {
    var s0 := AtLoop(files, limit, ws, counter);
    var s1 := s0.(mutex := Main, main := Checking);
    var s2 := s1.(counter := counter + 1, main := Counted);
    var s3 := s2.(mutex := Nobody, main := Creating);
    var s4 := AtLoop(files, limit, ws + [Thread(|ws|, Starting)], counter + 1);
    Stay(s0);
    assert MainStep(s0, s1);
    GoOn([s0], s0, s0, s1);
    assert MainStep(s1, s2);
    GoOn([s0] + [s1], s0, s1, s2);
    assert MainStep(s2, s3);
    GoOn([s0] + [s1] + [s2], s0, s2, s3);
    assert MainStep(s3, s4);
    p := [s0] + [s1] + [s2] + [s3] + [s4];
    GoOn([s0] + [s1] + [s2] + [s3], s0, s3, s4);
  }

  /** A worker gets to the import of its file. */
  lemma Connected(s: State, w: nat) returns (p: seq<State>)
    requires !s.exited && w < |s.workers| && s.workers[w].pc == Starting && s.initMutex == Nobody
    ensures PathFromTo(p, s, SetPc(s, w, Working))
  {
    var s1 := SetPc(s, w, HoldsInit).(initMutex := Worker(w));
    var s2 := SetPc(s, w, Working);
    assert s1.workers[w := s1.workers[w].(pc := Working)] == s2.workers;
    assert WorkerStep(s, s1, w) && WorkerStep(s1, s2, w);
    ByWorker(s, s1, w);
    ByWorker(s1, s2, w);
    Stay(s);
    GoOn([s], s, s, s1);
    p := [s] + [s1] + [s2];
    GoOn([s] + [s1], s, s1, s2);
  }

  lemma SetTwice(s: State, w: nat, a: WorkerPc, b: WorkerPc)
    requires w < |s.workers|
    ensures SetPc(SetPc(s, w, a), w, b) == SetPc(s, w, b)
  {
    assert s.workers[w := s.workers[w].(pc := a)][w := s.workers[w].(pc := b)] == s.workers[w := s.workers[w].(pc := b)];
  }

  /** One whose import is over counts itself off. */
  lemma CountedOff(s: State, w: nat) returns (p: seq<State>)
    requires !s.exited && w < |s.workers| && s.workers[w].pc == Working && s.mutex == Nobody
    ensures PathFromTo(p, s, SetPc(s, w, Finished).(counter := s.counter - 1))
  {
    var s1 := SetPc(s, w, AtLock);
    var s2 := SetPc(s, w, Locked).(mutex := Worker(w));
    var s3 := SetPc(s, w, Decremented).(mutex := Worker(w), counter := s.counter - 1);
    var s4 := SetPc(s, w, Signalled).(mutex := Worker(w), counter := s.counter - 1);
    var s5 := SetPc(s, w, Finished).(counter := s.counter - 1);
    SetTwice(s, w, AtLock, Locked);
    SetTwice(s, w, Locked, Decremented);
    SetTwice(s, w, Decremented, Signalled);
    SetTwice(s, w, Signalled, Finished);
    assert WorkerStep(s, s1, w) && WorkerStep(s1, s2, w) && WorkerStep(s2, s3, w);
    assert WorkerStep(s3, s4, w) && WorkerStep(s4, s5, w);
    Stay(s);
    GoOn([s], s, s, s1);
    GoOn([s] + [s1], s, s1, s2);
    GoOn([s] + [s1] + [s2], s, s2, s3);
    GoOn([s] + [s1] + [s2] + [s3], s, s3, s4);
    p := [s] + [s1] + [s2] + [s3] + [s4] + [s5];
    GoOn([s] + [s1] + [s2] + [s3] + [s4], s, s4, s5);
  }

  // ---------------------------------------------------------------------------------------------
  // All files
  // ---------------------------------------------------------------------------------------------

  /** On the way some worker was importing the file. */
  ghost predicate Imports(p: seq<State>, f: nat) {
    exists k, w :: 0 <= k < |p| && 0 <= w < |p[k].workers| && p[k].workers[w] == Thread(f, Working)
  }

  lemma ImportsFirst(p: seq<State>, q: seq<State>, f: nat)
    requires Imports(p, f)
    ensures Imports(p + q, f)
  {
    var k, w :| 0 <= k < |p| && 0 <= w < |p[k].workers| && p[k].workers[w] == Thread(f, Working);
    assert (p + q)[k] == p[k];
  }

  lemma ImportsThen(p: seq<State>, q: seq<State>, f: nat)
    requires |p| > 0 && |q| > 0 && p[|p| - 1] == q[0] && Imports(q, f)
    ensures Imports(p + q[1..], f)
  {
    var k, w :| 0 <= k < |q| && 0 <= w < |q[k].workers| && q[k].workers[w] == Thread(f, Working);
    assert (p + q[1..])[|p| - 1 + k] == q[k];
  }

  /** A finished worker for each of the first files. */
  function Done(n: nat): seq<Thread> {
    seq(n, i requires 0 <= i < n => Thread(i, Finished))
  }

  /** The next file is imported, from start to end. */
  lemma OneFile(files: nat, limit: nat, n: nat) returns (p: seq<State>)
    requires n < files && limit > 0
    ensures PathFromTo(p, AtLoop(files, limit, Done(n), 0), AtLoop(files, limit, Done(n + 1), 0)) && Imports(p, n)
  {
    var s0 := AtLoop(files, limit, Done(n), 0);
    var s1 := AtLoop(files, limit, Done(n) + [Thread(n, Starting)], 1);
    var s2 := SetPc(s1, n, Working);
    var s3 := AtLoop(files, limit, Done(n + 1), 0);
    var a := Started(files, limit, Done(n), 0);
    var b := Connected(s1, n);
    var c := CountedOff(s2, n);
    SetTwice(s1, n, Working, Finished);
    assert (Done(n) + [Thread(n, Starting)])[n := Thread(n, Finished)] == Done(n + 1);
    Join(a, b, s0, s1, s2);
    assert (a + b[1..])[|a + b[1..]| - 1].workers[n] == Thread(n, Working);
    ImportsFirst(a + b[1..], c[1..], n);
    p := a + b[1..] + c[1..];
    Join(a + b[1..], c, s0, s2, s3);
  }

  lemma {:induction false} FirstFiles(files: nat, limit: nat, n: nat) returns (p: seq<State>)
    requires n <= files && limit > 0
    ensures PathFromTo(p, AtLoop(files, limit, [], 0), AtLoop(files, limit, Done(n), 0))
    ensures forall f :: 0 <= f < n ==> Imports(p, f)
    decreases n
  {
    if n == 0 {
      p := [AtLoop(files, limit, [], 0)];
      Stay(p[0]);
      assert Done(0) == [];
    } else {
      var s, t := AtLoop(files, limit, [], 0), AtLoop(files, limit, Done(n - 1), 0);
      var u := AtLoop(files, limit, Done(n), 0);
      var a := FirstFiles(files, limit, n - 1);
      var b := OneFile(files, limit, n - 1);
      p := a + b[1..];
      Join(a, b, s, t, u);
      forall f | 0 <= f < n
        ensures Imports(p, f)
      {
        if f < n - 1 {
          ImportsFirst(a, b[1..], f);
        } else {
          ImportsThen(a, b, f);
        }
      }
    }
  }

  /** Main sees that nobody is at work any more, and tears down. */
  lemma TornDown(files: nat, limit: nat) returns (p: seq<State>, end: State)
    ensures PathFromTo(p, AtLoop(files, limit, Done(files), 0), end)
    ensures end.main == Joining && end.failed == {} && !end.exited && end.workers == Done(files)
  {
    var s0 := AtLoop(files, limit, Done(files), 0);
    var s1 := s0.(mutex := Main, main := FinalCheck);
    var s2 := s1.(main := FinalUnlock);
    var s3 := s2.(mutex := Nobody, main := Destroying);
    end := s3.(main := Joining);
    assert MainStep(s0, s1) && MainStep(s1, s2) && MainStep(s2, s3) && MainStep(s3, end);
    Stay(s0);
    GoOn([s0], s0, s0, s1);
    GoOn([s0] + [s1], s0, s1, s2);
    GoOn([s0] + [s1] + [s2], s0, s2, s3);
    p := [s0] + [s1] + [s2] + [s3] + [end];
    GoOn([s0] + [s1] + [s2] + [s3], s0, s3, end);
  }

  /**
   From every initial state there is a run to the end in which no thread fails to start, and every file has a worker
   that imported it and finished.
   */
  lemma ImportsAllFiles(s: State) returns (run: seq<State>)
    requires Init(s)
    ensures IsRun(run) && run[0] == s
    ensures var end := run[|run| - 1];
      && end.main == Joining && end.failed == {} && !end.exited
      && forall f :: 0 <= f < s.files ==>
           Imports(run, f) && exists w :: 0 <= w < |end.workers| && end.workers[w] == Thread(f, Finished)
  {
    var mid := AtLoop(s.files, s.limit, Done(s.files), 0);
    var a := FirstFiles(s.files, s.limit, s.files);
    var b, end := TornDown(s.files, s.limit);
    run := a + b[1..];
    Join(a, b, s, mid, end);
    forall f | 0 <= f < s.files
      ensures Imports(run, f) && exists w :: 0 <= w < |end.workers| && end.workers[w] == Thread(f, Finished)
    {
      ImportsFirst(a, b[1..], f);
      assert end.workers[f] == Thread(f, Finished);
    }
  }

  // ---------------------------------------------------------------------------------------------
  // Many at a time
  // ---------------------------------------------------------------------------------------------

  /** Workers of which the first are importing and the others just started. */
  function Busy(n: nat, working: nat): seq<Thread> {
    seq(n, i requires 0 <= i < n => Thread(i, if i < working then Working else Starting))
  }

  lemma {:induction false} AllStarted(files: nat, limit: nat, n: nat) returns (p: seq<State>)
    requires n <= limit && n <= files
    ensures PathFromTo(p, AtLoop(files, limit, [], 0), AtLoop(files, limit, Busy(n, 0), n))
    decreases n
  {
    if n == 0 {
      p := [AtLoop(files, limit, [], 0)];
      Stay(p[0]);
      assert Busy(0, 0) == [];
    } else {
      var s, t := AtLoop(files, limit, [], 0), AtLoop(files, limit, Busy(n - 1, 0), n - 1);
      var u := AtLoop(files, limit, Busy(n, 0), n);
      var a := AllStarted(files, limit, n - 1);
      var b := Started(files, limit, Busy(n - 1, 0), n - 1);
      assert Busy(n, 0) == Busy(n - 1, 0) + [Thread(n - 1, Starting)];
      p := a + b[1..];
      Join(a, b, s, t, u);
    }
  }

  lemma {:induction false} AllWorking(files: nat, limit: nat, n: nat, working: nat) returns (p: seq<State>)
    requires n <= limit && n <= files && working <= n
    ensures PathFromTo(p, AtLoop(files, limit, [], 0), AtLoop(files, limit, Busy(n, working), n))
    decreases working
  {
    if working == 0 {
      p := AllStarted(files, limit, n);
    } else {
      var s, t := AtLoop(files, limit, [], 0), AtLoop(files, limit, Busy(n, working - 1), n);
      var u := AtLoop(files, limit, Busy(n, working), n);
      var a := AllWorking(files, limit, n, working - 1);
      var b := Connected(t, working - 1);
      assert Busy(n, working - 1)[working - 1 := Thread(working - 1, Working)] == Busy(n, working);
      p := a + b[1..];
      Join(a, b, s, t, u);
    }
  }

  /** With files enough, some run has as many workers importing at once as the limit allows. */
  lemma ManyAtATime(s: State) returns (run: seq<State>)
    requires Init(s) && s.limit <= s.files
    ensures IsRun(run) && run[0] == s
    ensures var end := run[|run| - 1];
      |end.workers| == s.limit && forall w :: 0 <= w < s.limit ==> end.workers[w] == Thread(w, Working)
  {
    run := AllWorking(s.files, s.limit, s.limit, s.limit);
  }

  // ---------------------------------------------------------------------------------------------
  // When something fails
  // ---------------------------------------------------------------------------------------------

  /** A fatal error while a file is imported ends the process. */
  lemma ErrorEnds(s: State) returns (run: seq<State>)
    requires Init(s) && s.files > 0
    ensures IsRun(run) && run[0] == s && Imports(run, 0) && run[|run| - 1].exited
  {
    var s1 := AtLoop(s.files, s.limit, [Thread(0, Starting)], 1);
    var s2 := SetPc(s1, 0, Working);
    var s3 := SetPc(s2, 0, Exiting);
    var s4 := SetPc(s3, 0, ExitLocked).(mutex := Worker(0));
    var s5 := s4.(exited := true);
    var a := Started(s.files, s.limit, [], 0);
    assert [] + [Thread(0, Starting)] == [Thread(0, Starting)];
    var b := Connected(s1, 0);
    assert WorkerStep(s2, s3, 0) && WorkerStep(s3, s4, 0) && WorkerStep(s4, s5, 0);
    var p := a + b[1..];
    Join(a, b, s, s1, s2);
    assert p[|p| - 1].workers[0] == Thread(0, Working);
    GoOn(p, s, s2, s3);
    GoOn(p + [s3], s, s3, s4);
    GoOn(p + [s3] + [s4], s, s4, s5);
    run := p + [s3] + [s4] + [s5];
    ImportsFirst(p, [s3], 0);
    ImportsFirst(p + [s3], [s4], 0);
    ImportsFirst(p + [s3] + [s4], [s5], 0);
  }

  /** A thread that cannot be created costs its file, and no more: main is back for the next one, with nothing counted. */
  lemma CreationFails(files: nat, limit: nat, n: nat) returns (p: seq<State>)
    requires n < files && limit > 0
    ensures PathFromTo(p, AtLoop(files, limit, Done(n), 0),
                       AtLoop(files, limit, Done(n), 0).(next := n + 1, failed := {n}))
  {
    var s0 := AtLoop(files, limit, Done(n), 0);
    var s1 := s0.(mutex := Main, main := Checking);
    var s2 := s1.(counter := 1, main := Counted);
    var s3 := s2.(mutex := Nobody, main := Creating);
    var s4 := s3.(main := FailLock);
    var s5 := s4.(mutex := Main, main := FailLocked);
    var s6 := s5.(counter := 0, main := FailUncounted);
    var s7 := s0.(next := n + 1, failed := {n});
    assert MainStep(s0, s1) && MainStep(s1, s2) && MainStep(s2, s3) && MainStep(s3, s4);
    assert MainStep(s4, s5) && MainStep(s5, s6) && MainStep(s6, s7);
    Stay(s0);
    GoOn([s0], s0, s0, s1);
    GoOn([s0] + [s1], s0, s1, s2);
    GoOn([s0] + [s1] + [s2], s0, s2, s3);
    GoOn([s0] + [s1] + [s2] + [s3], s0, s3, s4);
    GoOn([s0] + [s1] + [s2] + [s3] + [s4], s0, s4, s5);
    GoOn([s0] + [s1] + [s2] + [s3] + [s4] + [s5], s0, s5, s6);
    p := [s0] + [s1] + [s2] + [s3] + [s4] + [s5] + [s6] + [s7];
    GoOn([s0] + [s1] + [s2] + [s3] + [s4] + [s5] + [s6], s0, s6, s7);
  }
}
