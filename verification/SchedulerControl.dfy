/** What pausing, resuming, cancelling and failing do to whole runs of the worker pool. */
module SchedulerControl {
  import opened Domain
  import opened Scheduler

  // ---------------------------------------------------------------- the volume's mutex

  /** The worker is inside the critical section of its volume's limiter. */
  predicate Inside(c: Config, x: Worker, volume: string) {
    match x
    case Locked(job) => job < |c.volumes| && c.volumes[job] == volume
    case Releasing(job, _) => job < |c.volumes| && c.volumes[job] == volume
    case _ => false
  }

  ghost predicate Exclusive(c: Config, s: State) {
    forall v, w, volume | 0 <= v < w < |s.workers| :: !(Inside(c, s.workers[v], volume) && Inside(c, s.workers[w], volume))
  }

  lemma WorkerKeepsExclusive(c: Config, s: State, w: nat, outcome: Result)
    requires Exclusive(c, s) && Enabled(c, s, Work(w, outcome))
    ensures Exclusive(c, Apply(c, s, Work(w, outcome)))
  {
    hide NextAvailable, Passable, MayYield;
    var s' := Apply(c, s, Work(w, outcome));
    forall v | 0 <= v < |s.workers| && v != w ensures s'.workers[v] == s.workers[v] {
    }
    forall v, volume | 0 <= v < |s.workers| && Inside(c, s.workers[v], volume) ensures HoldsLock(c, s.workers[v], volume) {
    }
    forall volume | Inside(c, s'.workers[w], volume)
      ensures forall v | 0 <= v < |s.workers| && v != w :: !Inside(c, s'.workers[v], volume)
    {
      assert LockFree(c, s, s.workers[w].job) && c.volumes[s.workers[w].job] == volume;
    }
  }

  lemma StepKeepsExclusive(c: Config, s: State, step: Step)
    requires Exclusive(c, s) && Enabled(c, s, step)
    ensures Exclusive(c, Apply(c, s, step))
  {
    hide AfterWorker, WorkerEnabled, Inside;
    if step.Work? {
      WorkerKeepsExclusive(c, s, step.worker, step.outcome);
    } else {
      assert Apply(c, s, step).workers == s.workers;
    }
  }

  /** In every interleaving at most one worker is inside the critical section of a volume. */
  lemma {:induction false} MutexHolds(c: Config, s: State, run: seq<Step>, s': State)
    requires Exclusive(c, s) && Runs(c, s, run, s')
    ensures Exclusive(c, s')
    decreases |run|
  {
    hide Exclusive, Apply, Enabled;
    if run != [] {
      StepKeepsExclusive(c, s, run[0]);
      MutexHolds(c, Apply(c, s, run[0]), run[1..], s');
    }
  }

  lemma InitiallyExclusive(c: Config, cancelled: bool, paused: bool)
    ensures Exclusive(c, Initial(c, cancelled, paused))
  {
  }

  // ---------------------------------------------------------------- pausing and cancelling

  /** The user is never blocked, and no step but these changes what was asked for; the collector cancels
      when it sees the first error. */
  lemma UserSteps(c: Config, s: State, step: Step)
    ensures Enabled(c, s, Pause) && Enabled(c, s, Resume) && Enabled(c, s, Cancel)
    ensures Apply(c, s, Pause) == s.(paused := true) && Apply(c, s, Resume) == s.(paused := false)
    ensures Apply(c, s, Cancel) == s.(cancelled := true)
    ensures Enabled(c, s, step) && SystemStep(step) ==>
              Apply(c, s, step).paused == s.paused && (s.cancelled ==> Apply(c, s, step).cancelled)
  {
  }

  /** A job is started only in a step that finds the run neither paused nor cancelled. */
  lemma StartsNeedCheckpoint(c: Config, s: State, step: Step)
    requires Enabled(c, s, step)
    ensures Apply(c, s, step).started != s.started ==> !s.paused && !s.cancelled && |Apply(c, s, step).started| == |s.started| + 1
  {
  }

  /** Once paused, and until somebody resumes, no job is started. */
  lemma {:induction false} PausedStartsNothing(c: Config, s: State, run: seq<Step>, s': State)
    requires Runs(c, s, run, s') && s.paused && forall k | 0 <= k < |run| :: run[k] != Resume
    ensures s'.paused && s'.started == s.started
    decreases |run|
  {
    hide Apply, Enabled;
    if run != [] {
      UserSteps(c, s, run[0]);
      StartsNeedCheckpoint(c, s, run[0]);
      assert run[0] != Resume;
      PausedStartsNothing(c, Apply(c, s, run[0]), run[1..], s');
    }
  }

  /** How many more indices the producer may issue once the run is cancelled. */
  function StillToCome(p: Producer): nat {
    match p
    case Checking => 1
    case Offering => 2
    case Reporting => 1
    case Finished => 0
  }

  lemma ProducerGivesUp(c: Config, s: State, step: Step)
    requires Enabled(c, s, step) && s.cancelled
    ensures var s' := Apply(c, s, step);
            s'.next + StillToCome(s'.producer) <= s.next + StillToCome(s.producer)
  {
  }

  /** Once cancelled, no job is started any more, and the producer stops after at most two indices. */
  lemma {:induction false} CancelledStartsNothing(c: Config, s: State, run: seq<Step>, s': State)
    requires Runs(c, s, run, s') && s.cancelled
    ensures s'.cancelled && s'.started == s.started
    ensures s'.next + StillToCome(s'.producer) <= s.next + StillToCome(s.producer)
    decreases |run|
  {
    hide Apply, Enabled, StillToCome;
    if run != [] {
      UserSteps(c, s, run[0]);
      StartsNeedCheckpoint(c, s, run[0]);
      ProducerGivesUp(c, s, run[0]);
      CancelledStartsNothing(c, Apply(c, s, run[0]), run[1..], s');
    }
  }

  /** The next checkpoint of a cancelled run ends the job with that error, handing back a permit it holds. */
  lemma CheckpointsReportCancellation(c: Config, s: State, w: nat, outcome: Result)
    requires s.cancelled && Enabled(c, s, Work(w, outcome))
    ensures var x, x' := s.workers[w], Apply(c, s, Work(w, outcome)).workers[w];
            && (x.Got? || x.Locked? ==> x' == Sending(x.job, Failure(Error.Cancelled)))
            && (x.Granted? ==> x' == WantRelease(x.job, Failure(Error.Cancelled)))
    ensures forall v | v in s.available :: v in Apply(c, s, Work(w, outcome)).available
              && (s.available[v] <= c.perVolume ==> Apply(c, s, Work(w, outcome)).available[v] >= s.available[v])
  {
  }

  /** The first error the collector receives cancels the run, is kept, and so ends all starts. */
  lemma {:induction false} FirstErrorCancels(c: Config, s: State, run: seq<Step>, s': State)
    requires Runs(c, s, run, s') && (s.firstError.Some? ==> s.cancelled)
    ensures s'.firstError.Some? ==> s'.cancelled
    ensures s.firstError.Some? ==> s'.firstError == s.firstError && s'.started == s.started && s'.ordered == s.ordered
    decreases |run|
  {
    if run != [] {
      var v := Apply(c, s, run[0]);
      assert v.firstError.Some? ==> v.cancelled;
      FirstErrorCancels(c, v, run[1..], s');
      if s.firstError.Some? {
        StartsNeedCheckpoint(c, s, run[0]);
      }
    }
  }

  /** What the collector makes of the message it takes: a value goes to its own place, the first error is
      kept and cancels the run, and whatever comes after an error is dropped. */
  lemma CollectorTakes(c: Config, s: State)
    requires Enabled(c, s, Collect) && s.results != []
    ensures var m, s' := s.results[0], Apply(c, s, Collect);
            && s'.results == s.results[1..] && s'.received == s.received + [m.index] && !s'.done
            && (s.firstError.Some? ==> s'.firstError == s.firstError && s'.ordered == s.ordered)
            && (s.firstError.None? && m.result.Failure? ==>
                  s'.firstError == Some(m.result.error) && s'.cancelled && s'.ordered == s.ordered)
            && (s.firstError.None? && m.result.Value? && m.index < |s.ordered| ==>
                  s'.firstError.None? && s'.ordered[m.index] == Some(m.result.value)
                  && forall i | 0 <= i < |s.ordered| && i != m.index :: s'.ordered[i] == s.ordered[i])
  {
  }

  /** A worker that has sent an error takes no further job. */
  lemma {:induction false} StoppedStays(c: Config, s: State, run: seq<Step>, s': State, w: nat)
    requires Runs(c, s, run, s') && w < |s.workers| && s.workers[w] == Stopped
    ensures w < |s'.workers| && s'.workers[w] == Stopped
    decreases |run|
  {
    if run != [] {
      StoppedStays(c, Apply(c, s, run[0]), run[1..], s', w);
    }
  }

  lemma FailedWorkerStops(c: Config, s: State, w: nat, outcome: Result, run: seq<Step>, s': State)
    requires w < |s.workers| && s.workers[w].Sending? && Enabled(c, s, Work(w, outcome))
    requires Runs(c, Apply(c, s, Work(w, outcome)), run, s')
    ensures s.workers[w].result.Failure? ==> w < |s'.workers| && s'.workers[w] == Stopped
    ensures s.workers[w].result.Value? ==> Apply(c, s, Work(w, outcome)).workers[w] == Idle
  {
    if s.workers[w].result.Failure? {
      StoppedStays(c, Apply(c, s, Work(w, outcome)), run, s', w);
    }
  }

  // ---------------------------------------------------------------- where results come from

  /** A value, or an error of the work itself, exists only for a job whose work was started. */
  predicate FromWork(s: State, job: nat, r: Result) {
    (r.Value? || r.error.WorkFailed?) ==> job in s.started
  }

  ghost predicate Earned(s: State) {
    && (forall w | 0 <= w < |s.workers| && s.workers[w].Running? :: s.workers[w].job in s.started)
    && (forall w | 0 <= w < |s.workers| && HasResult(s.workers[w]) :: FromWork(s, s.workers[w].job, s.workers[w].result))
    && (forall k | 0 <= k < |s.results| :: FromWork(s, s.results[k].index, s.results[k].result))
    && (forall i | 0 <= i < |s.ordered| && s.ordered[i].Some? :: i in s.started)
    && (s.firstError.Some? && s.firstError.value.WorkFailed? ==> s.started != [])
  }

  lemma WorkerKeepsEarned(c: Config, s: State, w: nat, outcome: Result)
    requires Earned(s) && Enabled(c, s, Work(w, outcome))
    ensures Earned(Apply(c, s, Work(w, outcome)))
  {
    hide NextAvailable, LockFree, Passable, MayYield;
    var s' := Apply(c, s, Work(w, outcome));
    assert forall i | i in s.started :: i in s'.started;
    if s'.workers[w].Running? {
      assert s'.started[|s.started|] == s'.workers[w].job;
    }
    assert forall v | 0 <= v < |s.workers| && v != w :: s'.workers[v] == s.workers[v];
  }

  lemma CollectorKeepsEarned(c: Config, s: State)
    requires Earned(s) && CollectorEnabled(s)
    ensures Earned(AfterCollector(s))
  {
    if s.results != [] {
      assert FromWork(s, s.results[0].index, s.results[0].result);
    }
  }

  lemma StepKeepsEarned(c: Config, s: State, step: Step)
    requires Earned(s) && Enabled(c, s, step)
    ensures Earned(Apply(c, s, step))
  {
    hide AfterWorker, AfterCollector, WorkerEnabled, Passable;
    match step
    case Work(w, outcome) => WorkerKeepsEarned(c, s, w, outcome);
    case Collect => CollectorKeepsEarned(c, s);
    case _ =>
  }

  lemma {:induction false} RunKeepsEarned(c: Config, s: State, run: seq<Step>, s': State)
    requires Earned(s) && Runs(c, s, run, s')
    ensures Earned(s')
    decreases |run|
  {
    hide Earned, Apply, Enabled;
    if run != [] {
      StepKeepsEarned(c, s, run[0]);
      RunKeepsEarned(c, Apply(c, s, run[0]), run[1..], s');
    }
  }

  /** A run that is cancelled before it begins starts no job and returns that error. */
  lemma CancelledBeforeStart(c: Config, paused: bool, run: seq<Step>, s: State)
    requires Sound(c) && c.volumes != [] && Runs(c, Initial(c, true, paused), run, s)
    ensures s.started == []
    ensures s.done ==> ReturnedError(s) == Some(Error.Cancelled)
  {
    var start := Initial(c, true, paused);
    CancelledStartsNothing(c, start, run, s);
    RunKeepsEarned(c, start, run, s);
    InitialInv(c, true, paused);
    RunKeepsInv(c, start, run, s);
    assert s.ordered[0].None?;
    if s.done {
      ResultsAreComplete(c, true, paused, run, s);
    }
  }

  // ---------------------------------------------------------------- undisturbed runs

  /** The user does not cancel and the work does not fail. */
  predicate Benign(step: Step) {
    step != Cancel && (step.Work? ==> step.outcome.Value?)
  }

  /** Nothing has gone wrong so far. */
  predicate Clean(s: State) {
    && !s.cancelled && s.firstError.None? && !s.producer.Reporting?
    && (forall w | 0 <= w < |s.workers| && HasResult(s.workers[w]) :: s.workers[w].result.Value?)
    && (forall k | 0 <= k < |s.results| :: s.results[k].result.Value?)
  }

  lemma StepKeepsClean(c: Config, s: State, step: Step)
    requires Inv(c, s) && Clean(s) && Enabled(c, s, step) && Benign(step)
    ensures Clean(Apply(c, s, step))
  {
    hide NextAvailable, LockFree, MayYield, EachOnce, StartedOnce, Conserved, Truthful, Complete;
    if step.Work? && HasJob(s.workers[step.worker]) {
      JobHasLimiter(c, s, step.worker);
    }
  }

  lemma {:induction false} RunKeepsClean(c: Config, s: State, run: seq<Step>, s': State)
    requires Inv(c, s) && Clean(s) && Runs(c, s, run, s') && forall k | 0 <= k < |run| :: Benign(run[k])
    ensures Clean(s')
    decreases |run|
  {
    hide Inv, Clean, Apply, Enabled, Benign;
    if run != [] {
      assert Benign(run[0]);
      StepKeepsClean(c, s, run[0]);
      StepKeepsInv(c, s, run[0]);
      RunKeepsClean(c, Apply(c, s, run[0]), run[1..], s');
    }
  }

  /** Whatever the interleaving and however often it is paused and resumed: a run that nobody cancels and
      whose work does not fail returns the work of every job, in the order of the jobs. */
  lemma UndisturbedRunSucceeds(c: Config, paused: bool, run: seq<Step>, s: State)
    requires Sound(c) && Runs(c, Initial(c, false, paused), run, s) && s.done
    requires forall k | 0 <= k < |run| :: Benign(run[k])
    ensures ReturnedError(s).None?
    ensures |s.ordered| == |c.volumes| && forall i | 0 <= i < |c.volumes| :: s.ordered[i] == Some(c.work(i))
  {
    InitialInv(c, false, paused);
    RunKeepsClean(c, Initial(c, false, paused), run, s);
    ResultsAreComplete(c, false, paused, run, s);
  }
}
