/**
 * The re-run scheduler: two pending sets of files, a debounce timer and a
 * "running" flag. The timer and the asynchronous test run are replaced by
 * explicit events: the timer firing, the run completing, the run failing.
 */
module Rerunners {
  import opened Wrappers
  import opened StringOrder

  /** Default wait, in milliseconds, between the last new work and a run. */
  const DEFAULT_RUN_DELAY: nat := 100

  /** Identity of a test-runner (Mocha) instance. */
  type MochaId = nat

  /** What one run was started with. */
  datatype Batch = Batch(testFiles: set<string>, affectedFiles: set<string>, mocha: MochaId)

  /**
   * The scheduler's state. `armed` is "a drain timer is pending";
   * `timerResets` counts how often the timer was (re)started, so that a
   * restarted debounce window is visible; `inFlight` is "a test run has
   * been started and has not settled"; `started` records every run handed
   * to the test runner, in order.
   */
  datatype Scheduler = Scheduler(
    testFileQueue: set<string>,
    affectedFileQueue: set<string>,
    running: bool,
    inFlight: bool,
    armed: bool,
    timerResets: nat,
    mocha: MochaId,
    requireCache: set<string>,
    started: seq<Batch>)

  /** A freshly created scheduler: nothing queued, no timer, not running. */
  function Initial(mocha: MochaId, requireCache: set<string>): Scheduler {
    Scheduler({}, {}, false, false, false, 0, mocha, requireCache, [])
  }

  /** Whether enqueuing these lists adds a file that was not queued yet. */
  predicate AddsWork(s: Scheduler, testFiles: seq<string>, affectedFiles: seq<string>) {
    (exists f :: f in testFiles && f !in s.testFileQueue) ||
    (exists f :: f in affectedFiles && f !in s.affectedFileQueue)
  }

  /** `resetDrainTimer()`: cancel any pending timer and start a new one. */
  function ResetTimer(s: Scheduler): Scheduler {
    s.(armed := true, timerResets := s.timerResets + 1)
  }

  /** `enqueue(testFiles, affectedFiles)`. */
  function Enqueued(s: Scheduler, testFiles: seq<string>, affectedFiles: seq<string>): Scheduler {
    var s1 := s.(testFileQueue := s.testFileQueue + Elements(testFiles),
                 affectedFileQueue := s.affectedFileQueue + Elements(affectedFiles));
    if AddsWork(s, testFiles, affectedFiles) && !s.running then ResetTimer(s1) else s1
  }

  /**
   * The timer fires: set `running`, drain both queues and start a run with
   * their contents. The affected files leave the require cache first; the
   * pre-run hook, if configured, may supply a replacement runner
   * (`hookResult`), and a falsy result keeps the current one.
   */
  function Fired(s: Scheduler, hasSetupRun: bool, hookResult: Option<MochaId>): Scheduler
    requires s.armed
  {
    Started(s.(testFileQueue := {}, affectedFileQueue := {}, running := true, armed := false),
            s.testFileQueue, s.affectedFileQueue, hasSetupRun, hookResult)
  }

  /**
   * `run(testFiles, affectedFiles)` up to the point where it awaits the test
   * run: the affected files leave the require cache, the hook may replace the
   * runner, and the run starts. `run` itself never touches `running`: only
   * the timer callback around it does.
   */
  function Started(s: Scheduler, testFiles: set<string>, affectedFiles: set<string>,
                   hasSetupRun: bool, hookResult: Option<MochaId>): Scheduler
  {
    var mocha := if hasSetupRun && hookResult.Some? then hookResult.value else s.mocha;
    s.(inFlight := true, mocha := mocha,
       requireCache := s.requireCache - affectedFiles,
       started := s.started + [Batch(testFiles, affectedFiles, mocha)])
  }

  /** The run resolves: re-arm the timer if test files arrived meanwhile, then clear `running`. */
  function Completed(s: Scheduler): Scheduler
    requires s.inFlight
  {
    var s1 := if s.testFileQueue != {} then ResetTimer(s) else s;
    s1.(inFlight := false, running := false)
  }

  /**
   * The run rejects, as the source is written: the exception leaves the
   * timer callback before `running = false` and before the re-arm check.
   */
  function FailAsWritten(s: Scheduler): Scheduler
    requires s.inFlight
  {
    s.(inFlight := false)
  }

  /** The run rejects, with the evidently intended clean-up (as if in a `finally`). */
  function FailCorrected(s: Scheduler): Scheduler
    requires s.inFlight
  {
    Completed(s)
  }

  /** The events the scheduler reacts to. */
  datatype Event =
    | EnqueueFiles(testFiles: seq<string>, affectedFiles: seq<string>)
    | TimerFires(hookResult: Option<MochaId>)
    | RunCompletes
    | RunFails

  /** Whether the event can happen in this state (a timer fires only when pending; a run settles only when started). */
  predicate Enabled(s: Scheduler, e: Event) {
    match e
    case EnqueueFiles(_, _) => true
    case TimerFires(_) => s.armed
    case RunCompletes => s.inFlight
    case RunFails => s.inFlight
  }

  /** One step; `corrected` chooses how a failed run is handled. */
  function Step(s: Scheduler, e: Event, hasSetupRun: bool, corrected: bool): Scheduler
    requires Enabled(s, e)
  {
    match e
    case EnqueueFiles(t, a) => Enqueued(s, t, a)
    case TimerFires(h) => Fired(s, hasSetupRun, h)
    case RunCompletes => Completed(s)
    case RunFails => if corrected then FailCorrected(s) else FailAsWritten(s)
  }

  /** Whether every event of the trace is enabled when it happens. */
  predicate Feasible(s: Scheduler, evs: seq<Event>, hasSetupRun: bool, corrected: bool)
    decreases |evs|
  {
    evs == [] || (Enabled(s, evs[0]) && Feasible(Step(s, evs[0], hasSetupRun, corrected), evs[1..], hasSetupRun, corrected))
  }

  /** The state after a feasible trace. */
  function AfterTrace(s: Scheduler, evs: seq<Event>, hasSetupRun: bool, corrected: bool): Scheduler
    requires Feasible(s, evs, hasSetupRun, corrected)
    decreases |evs|
  {
    if evs == [] then s else AfterTrace(Step(s, evs[0], hasSetupRun, corrected), evs[1..], hasSetupRun, corrected)
  }

  /**
   * The scheduler's invariant: a pending timer and a run never coexist
   * (at most one run in flight, no second concurrent run), the flag tracks
   * the run, and queued test files always have a run coming (a pending timer
   * or a run whose completion re-arms it).
   */
  ghost predicate Inv(s: Scheduler) {
    && (s.armed ==> !s.running)
    && (s.running <==> s.inFlight)
    && (s.testFileQueue != {} ==> s.armed || s.running)
  }

  lemma InitialInv(mocha: MochaId, cache: set<string>)
    ensures Inv(Initial(mocha, cache))
  {
  }

  /** Every step of the source's normal operation (and a failure handled as intended) keeps the invariant. */
  lemma StepInv(s: Scheduler, e: Event, hasSetupRun: bool)
    requires Inv(s) && Enabled(s, e)
    ensures Inv(Step(s, e, hasSetupRun, true))
  {
    match e
    case EnqueueFiles(t, a) =>
      if s.testFileQueue + Elements(t) != s.testFileQueue {
        var f :| f in Elements(t) && f !in s.testFileQueue;
        assert f in t;
      }
    case TimerFires(h) =>
    case RunCompletes =>
    case RunFails =>
  }

  /** The invariant holds after any feasible trace. */
  lemma {:induction false} RunInv(s: Scheduler, evs: seq<Event>, hasSetupRun: bool)
    requires Inv(s) && Feasible(s, evs, hasSetupRun, true)
    ensures Inv(AfterTrace(s, evs, hasSetupRun, true))
    decreases |evs|
  {
    if evs != [] {
      StepInv(s, evs[0], hasSetupRun);
      RunInv(Step(s, evs[0], hasSetupRun, true), evs[1..], hasSetupRun);
    }
  }

  /** `validateAdd` on queued test files: enqueuing only files already queued changes nothing and does not restart the debounce window. */
  lemma DuplicateEnqueueIsNoOp(s: Scheduler, testFiles: seq<string>, affectedFiles: seq<string>)
    requires forall f :: f in testFiles ==> f in s.testFileQueue
    requires forall f :: f in affectedFiles ==> f in s.affectedFileQueue
    ensures Enqueued(s, testFiles, affectedFiles) == s
  {
    var s' := Enqueued(s, testFiles, affectedFiles);
    assert s'.testFileQueue == s.testFileQueue;
    assert s'.affectedFileQueue == s.affectedFileQueue;
  }

  /** New work restarts the timer exactly when no run is in progress; otherwise the timer is left alone. */
  lemma EnqueueTimer(s: Scheduler, testFiles: seq<string>, affectedFiles: seq<string>)
    ensures var s' := Enqueued(s, testFiles, affectedFiles);
      && s'.testFileQueue == s.testFileQueue + Elements(testFiles)
      && s'.affectedFileQueue == s.affectedFileQueue + Elements(affectedFiles)
      && (s'.timerResets == s.timerResets + 1 <==> AddsWork(s, testFiles, affectedFiles) && !s.running)
      && (s'.timerResets == s.timerResets ==> s'.armed == s.armed)
      && s'.running == s.running && s'.started == s.started
  {
  }

  /** All files ever named: queued, or handed to a started run. */
  ghost function Accounted(s: Scheduler): set<string> {
    s.testFileQueue + s.affectedFileQueue + 
    (set i, f | 0 <= i < |s.started| && f in s.started[i].testFiles :: f) +
    (set i, f | 0 <= i < |s.started| && f in s.started[i].affectedFiles :: f)
  }

  lemma StepAccounted(s: Scheduler, e: Event, hasSetupRun: bool, corrected: bool)
    requires Enabled(s, e)
    ensures Accounted(s) <= Accounted(Step(s, e, hasSetupRun, corrected))
    ensures s.started <= Step(s, e, hasSetupRun, corrected).started
  {
    var s' := Step(s, e, hasSetupRun, corrected);
    forall f | f in Accounted(s) ensures f in Accounted(s') {
      if f in s.testFileQueue || f in s.affectedFileQueue {
        if e.TimerFires? {
          assert s'.started[|s.started|].testFiles == s.testFileQueue;
          assert s'.started[|s.started|].affectedFiles == s.affectedFileQueue;
        }
      } else {
        var i :| 0 <= i < |s.started| && (f in s.started[i].testFiles || f in s.started[i].affectedFiles);
        assert s'.started[i] == s.started[i];
      }
    }
  }

  /** The files named by the enqueue events of a trace. */
  function EnqueuedFiles(evs: seq<Event>): set<string>
    decreases |evs|
  {
    if evs == [] then {}
    else (if evs[0].EnqueueFiles? then Elements(evs[0].testFiles) + Elements(evs[0].affectedFiles) else {}) + EnqueuedFiles(evs[1..])
  }

  /**
   * No enqueued work is lost: after any trace, every file that was ever
   * enqueued is still queued or went to a run that was started.
   */
  lemma {:induction false} NoLostWork(s: Scheduler, evs: seq<Event>, hasSetupRun: bool, corrected: bool)
    requires Feasible(s, evs, hasSetupRun, corrected)
    ensures Accounted(s) + EnqueuedFiles(evs) <= Accounted(AfterTrace(s, evs, hasSetupRun, corrected))
    decreases |evs|
  {
    if evs != [] {
      var s1 := Step(s, evs[0], hasSetupRun, corrected);
      StepAccounted(s, evs[0], hasSetupRun, corrected);
      NoLostWork(s1, evs[1..], hasSetupRun, corrected);
    }
  }

  /**
   * Coalescing: three enqueues on an idle scheduler, then the timer fires:
   * exactly one run starts, with the union of everything enqueued.
   */
  lemma ThreeEnqueuesOneRun(s: Scheduler, t1: seq<string>, a1: seq<string>, t2: seq<string>, a2: seq<string>,
                            t3: seq<string>, a3: seq<string>, hasSetupRun: bool, h: Option<MochaId>)
    requires Inv(s) && !s.running && !s.armed
    requires t1 != []
    ensures var s3 := Enqueued(Enqueued(Enqueued(s, t1, a1), t2, a2), t3, a3);
      && s3.armed && !s3.running && s3.started == s.started
      && var s4 := Fired(s3, hasSetupRun, h);
      && |s4.started| == |s.started| + 1
      && s4.started[|s.started|].testFiles == Elements(t1) + Elements(t2) + Elements(t3)
      && s4.started[|s.started|].affectedFiles == s.affectedFileQueue + Elements(a1) + Elements(a2) + Elements(a3)
      && s4.testFileQueue == {} && s4.affectedFileQueue == {} && !s4.armed
  {
    assert s.testFileQueue == {};
    assert t1[0] in t1;
    assert AddsWork(s, t1, a1);
  }

  /**
   * Work enqueued during a run: no second run can start while the first is
   * in flight (the timer stays disarmed), and when it completes the timer is
   * re-armed, so the next run carries that work.
   */
  lemma EnqueueDuringRun(s: Scheduler, t: seq<string>, a: seq<string>, hasSetupRun: bool, h: Option<MochaId>)
    requires Inv(s) && s.running && t != []
    ensures var s1 := Enqueued(s, t, a);
      && !s1.armed && s1.running
      && var s2 := Completed(s1);
      && s2.armed && !s2.running
      && var s3 := Fired(s2, hasSetupRun, h);
      && |s3.started| == |s.started| + 1
      && Elements(t) <= s3.started[|s.started|].testFiles
      && Elements(a) <= s3.started[|s.started|].affectedFiles
  {
    assert t[0] in Elements(t);
  }

  /** Affected files queued alone during a run do not trigger another run when it completes. */
  lemma AffectedOnlyWorkWaits(s: Scheduler, a: seq<string>)
    requires Inv(s) && s.running && s.testFileQueue == {}
    ensures var s2 := Completed(Enqueued(s, [], a));
      !s2.armed && !s2.running && s2.affectedFileQueue == s.affectedFileQueue + Elements(a)
  {
    var none: seq<string> := [];
    assert Elements(none) == {};
  }

  /** As written, a failed run leaves `running` set with no run in flight, breaking the invariant. */
  lemma FailureBreaksInvariant(s: Scheduler)
    requires Inv(s) && s.inFlight
    ensures !Inv(FailAsWritten(s))
    ensures FailAsWritten(s).running && !FailAsWritten(s).armed
  {
  }

  /**
   * As written, after a failed run no further run ever starts, whatever is
   * enqueued afterwards: enqueues see `running` and never arm the timer.
   */
  lemma {:induction false} StuckAfterFailure(s: Scheduler, evs: seq<Event>, hasSetupRun: bool)
    requires s.running && !s.inFlight && !s.armed
    requires Feasible(s, evs, hasSetupRun, false)
    ensures AfterTrace(s, evs, hasSetupRun, false).started == s.started
    ensures AfterTrace(s, evs, hasSetupRun, false).running
    decreases |evs|
  {
    if evs != [] {
      var s1 := Step(s, evs[0], hasSetupRun, false);
      assert s1.running && !s1.inFlight && !s1.armed && s1.started == s.started;
      StuckAfterFailure(s1, evs[1..], hasSetupRun);
    }
  }

  /** With the intended clean-up, new test files after a failed run arm the timer again. */
  lemma RecoversAfterFailure(s: Scheduler, t: seq<string>, a: seq<string>)
    requires Inv(s) && s.inFlight && t != []
    ensures Inv(FailCorrected(s))
    ensures Enqueued(FailCorrected(s), t, a).armed
  {
    assert t[0] in Elements(t);
  }

  /**
   * A direct call of `run()` (as at start-up, when the watcher is ready) is
   * not an event of the machine: it starts a run without setting `running`,
   * so work enqueued meanwhile arms the timer, and the timer's run starts
   * while the first is still in flight.
   */
  lemma DirectRunOverlaps(s: Scheduler, t0: set<string>, a0: set<string>, t: seq<string>, a: seq<string>,
                          hasSetupRun: bool, h0: Option<MochaId>, h: Option<MochaId>)
    requires Inv(s) && !s.running && !s.armed && t != []
    ensures var s1 := Started(s, t0, a0, hasSetupRun, h0);
      && s1.inFlight && !s1.running && !Inv(s1)
      && var s2 := Enqueued(s1, t, a);
      && s2.armed
      && var s3 := Fired(s2, hasSetupRun, h);
      && |s3.started| == |s.started| + 2
      && s3.started[|s.started|].testFiles == t0
      && Elements(t) <= s3.started[|s.started| + 1].testFiles
  {
    assert t[0] in Elements(t);
  }

  /** The scheduler object; each method is one step of the state machine above. */
  class Rerunner {
    var testFileQueue: set<string>
    var affectedFileQueue: set<string>
    var running: bool
    var inFlight: bool
    var armed: bool
    var drainTimer: nat
    var mocha: MochaId
    var requireCache: set<string>
    ghost var started: seq<Batch>
    const setupRun: bool
    const delay: nat

    ghost function State(): Scheduler
      reads this
    {
      Scheduler(testFileQueue, affectedFileQueue, running, inFlight, armed, drainTimer, mocha, requireCache, started)
    }

    /** `new Rerunner(mocha, watcher, {setupRun, delay})`; the delay defaults to 100. */
    constructor (mocha: MochaId, requireCache: set<string>, hasSetupRun: bool, delay: Option<nat>)
      ensures State() == Initial(mocha, requireCache)
      ensures setupRun == hasSetupRun
      ensures this.delay == (if delay.Some? then delay.value else DEFAULT_RUN_DELAY)
    {
      running := false;
      inFlight := false;
      armed := false;
      drainTimer := 0;
      testFileQueue := {};
      affectedFileQueue := {};
      this.mocha := mocha;
      this.requireCache := requireCache;
      started := [];
      setupRun := hasSetupRun;
      this.delay := if delay.Some? then delay.value else DEFAULT_RUN_DELAY;
    }

    /** `Rerunner.validateAdd(set, value)`: add, and report whether the set grew. */
    static method ValidateAdd(s: set<string>, value: string) returns (added: bool, s': set<string>)
      ensures added <==> value !in s
      ensures s' == s + {value}
    {
      var prevSize := |s|;
      s' := s + {value};
      added := |s'| > prevSize;
    }

    /** `enqueue(testFiles, affectedFiles)`. */
    method Enqueue(testFiles: seq<string>, affectedFiles: seq<string>)
      modifies this
      ensures State() == Enqueued(old(State()), testFiles, affectedFiles)
    {
      var addedTests, addedAffected;
      addedTests, testFileQueue := AddEach(testFileQueue, testFiles);
      addedAffected, affectedFileQueue := AddEach(affectedFileQueue, affectedFiles);
      var added := addedAffected || addedTests;
      if added && !running {
        ResetDrainTimer();
      }
    }

    /**
     * One `for ... of` loop of `enqueue`: `validateAdd` each file into the
     * queue, remembering whether any of them was new.
     */
    static method AddEach(queue: set<string>, files: seq<string>) returns (added: bool, queue': set<string>)
      ensures queue' == queue + Elements(files)
      ensures added <==> exists f :: f in files && f !in queue
    {
      added := false;
      queue' := queue;
      for i := 0 to |files|
        invariant queue' == queue + Elements(files[..i])
        invariant added <==> exists f :: f in files[..i] && f !in queue
      {
        var a;
        a, queue' := ValidateAdd(queue', files[i]);
        added := a || added;
        assert files[..i + 1] == files[..i] + [files[i]];
        assert Elements(files[..i + 1]) == Elements(files[..i]) + {files[i]};
      }
      assert files[..|files|] == files;
    }

    /** `resetDrainTimer()`: a new timer replaces any pending one. */
    method ResetDrainTimer()
      modifies this
      ensures State() == ResetTimer(old(State()))
    {
      armed := true;
      drainTimer := drainTimer + 1;
    }

    /** `blastRequireCache(files)`: drop each file's cached module. */
    method BlastRequireCache(files: set<string>)
      modifies this
      ensures requireCache == old(requireCache) - files
      ensures State() == old(State()).(requireCache := requireCache)
    {
      var rest := files;
      while rest != {}
        invariant rest <= files
        invariant requireCache == old(requireCache) - (files - rest)
        invariant State() == old(State()).(requireCache := requireCache)
        decreases rest
      {
        var file :| file in rest;
        requireCache := requireCache - {file};
        rest := rest - {file};
      }
    }

    /** The timer fires: the callback sets `running`, then `drain()` runs. */
    method TimerFires(hookResult: Option<MochaId>)
      requires armed
      modifies this
      ensures State() == Fired(old(State()), setupRun, hookResult)
    {
      armed := false;
      running := true;
      Drain(hookResult);
    }

    /** `drain()`: snapshot and clear both queues, then `run` with the snapshot. */
    method Drain(hookResult: Option<MochaId>)
      modifies this
      ensures State() == old(State()).(
        testFileQueue := {}, affectedFileQueue := {}, inFlight := true,
        mocha := if setupRun && hookResult.Some? then hookResult.value else old(mocha),
        requireCache := old(requireCache) - old(affectedFileQueue),
        started := old(started) + [Batch(old(testFileQueue), old(affectedFileQueue), mocha)])
    {
      var testFiles := testFileQueue;
      var affectedFiles := affectedFileQueue;
      testFileQueue := {};
      affectedFileQueue := {};
      Run(testFiles, affectedFiles, hookResult);
    }

    /**
     * `run(testFiles, affectedFiles)` up to the point where it awaits the
     * test run: blast the require cache, let the hook replace the runner,
     * start the run.
     */
    method Run(testFiles: set<string>, affectedFiles: set<string>, hookResult: Option<MochaId>)
      modifies this
      ensures State() == Started(old(State()), testFiles, affectedFiles, setupRun, hookResult)
    {
      BlastRequireCache(affectedFiles);
      if setupRun && hookResult.Some? {
        mocha := hookResult.value;
      }
      inFlight := true;
      started := started + [Batch(testFiles, affectedFiles, mocha)];
    }

    /** The awaited run resolves: the end of `run`, then the callback clears `running`. */
    method RunCompletes()
      requires inFlight
      modifies this
      ensures State() == Completed(old(State()))
    {
      inFlight := false;
      if |testFileQueue| > 0 {
        ResetDrainTimer();
      }
      running := false;
    }

    /**
     * The awaited run rejects, handled with the clean-up the callback
     * evidently intends (as if `running = false` sat in a `finally`): the
     * same as a completed run. As written, the exception skips it
     * (`FailAsWritten`).
     */
    method RunFails()
      requires inFlight
      modifies this
      ensures State() == FailCorrected(old(State()))
    {
      RunCompletes();
    }
  }
}
