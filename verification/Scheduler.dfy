/** The volume-aware worker pool as interleaved steps of a producer, workers, a collector and a user
    who may pause, resume or cancel at any moment. */
module Scheduler {
  import opened Domain

  datatype Error = Cancelled | NoLimiter | LostJob | WorkFailed(detail: string)

  datatype Result = Value(value: Bytes) | Failure(error: Error)

  /** Where one worker stands. A worker that is `Locked` or `Releasing` holds its volume's mutex. */
  datatype Worker =
    | Idle
    | Got(job: nat)
    | WantLock(job: nat)
    | Locked(job: nat)
    | Granted(job: nat)
    | Running(job: nat)
    | WantRelease(job: nat, result: Result)
    | Releasing(job: nat, result: Result)
    | Sending(job: nat, result: Result)
    | Stopped

  /** The producer before the checkpoint for job `next`, about to queue it, about to report the
      checkpoint's error under its index, or gone. */
  datatype Producer = Checking | Offering | Reporting | Finished

  datatype Message = Message(index: nat, result: Result)

  /** The volume of every job, what the work yields, and the limits in force. */
  datatype Config = Config(volumes: seq<string>, work: nat -> Bytes, workers: nat, perVolume: nat, queue: nat)

  function Clamp(n: nat, low: nat, high: nat): nat
    requires low <= high
  {
    if n < low then low else if n > high then high else n
  }

  /** What was asked for if it lies in range, otherwise the nearer bound. */
  predicate IsNearest(n: nat, asked: nat, low: nat, high: nat) {
    low <= n <= high && (n < asked ==> n == high) && (n > asked ==> n == low)
  }

  /** The limits of a run over a non-empty list of jobs: each is its own argument, brought into range; no
      more workers than jobs are started. */
  function Configured(volumes: seq<string>, work: nat -> Bytes, metadataWorkers: nat, fullHashWorkers: nat, capacity: nat)
    : (c: Config)
    requires volumes != []
    ensures Sound(c) && c.volumes == volumes && c.work == work
    ensures IsNearest(c.perVolume, fullHashWorkers, 1, 64) && IsNearest(c.queue, capacity, 1, 65536)
    ensures c.workers <= |volumes|
    ensures c.workers < |volumes| ==> IsNearest(c.workers, metadataWorkers, 1, 64)
    ensures c.workers == |volumes| ==> |volumes| == 1 || (|volumes| <= 64 && |volumes| <= metadataWorkers)
  {
    var pool := Clamp(metadataWorkers, 1, 64);
    Config(volumes, work, if pool <= |volumes| then pool else |volumes|, Clamp(fullHashWorkers, 1, 64), Clamp(capacity, 1, 65536))
  }

  predicate Sound(c: Config) {
    c.workers >= 1 && c.perVolume >= 1 && c.queue >= 1
  }

  /** `started` and `received` only record history: the jobs whose work began and the indices the
      collector took. */
  datatype State = State(
    workers: seq<Worker>, producer: Producer, next: nat, queue: seq<nat>, results: seq<Message>,
    available: map<string, nat>, ordered: seq<Option<Bytes>>, firstError: Option<Error>, done: bool,
    cancelled: bool, paused: bool, started: seq<nat>, received: seq<nat>)

  function Initial(c: Config, cancelled: bool, paused: bool): State {
    State(seq(c.workers, w => Idle), Checking, 0, [], [], map v | v in c.volumes :: c.perVolume,
          seq(|c.volumes|, i => None), None, false, cancelled, paused, [], [])
  }

  datatype Step = Produce | Work(worker: nat, outcome: Result) | Collect | Pause | Resume | Cancel

  // ---------------------------------------------------------------- one step

  predicate AllStopped(s: State) {
    forall w | 0 <= w < |s.workers| :: s.workers[w].Stopped?
  }

  predicate HoldsLock(c: Config, x: Worker, volume: string) {
    (x.Locked? || x.Releasing?) && x.job < |c.volumes| && c.volumes[x.job] == volume
  }

  predicate LockFree(c: Config, s: State, job: nat)
    requires job < |c.volumes|
  {
    forall w | 0 <= w < |s.workers| :: !HoldsLock(c, s.workers[w], c.volumes[job])
  }

  /** A checkpoint returns: with an error once cancelled, otherwise only while not paused. */
  predicate Passable(s: State) {
    s.cancelled || !s.paused
  }

  predicate ProducerEnabled(c: Config, s: State) {
    match s.producer
    case Checking => s.next >= |c.volumes| || Passable(s)
    case Offering => AllStopped(s) || |s.queue| < c.queue
    case Reporting => |s.results| < c.queue
    case Finished => false
  }

  function AfterProducer(c: Config, s: State): State
    requires ProducerEnabled(c, s)
  {
    match s.producer
    case Checking =>
      s.(producer := if s.next >= |c.volumes| then Finished else if s.cancelled then Reporting else Offering)
    case Offering =>
      if AllStopped(s) then s.(producer := Finished)
      else s.(producer := Checking, next := s.next + 1, queue := s.queue + [s.next])
    case Reporting =>
      s.(producer := Finished, next := s.next + 1,
         results := s.results + [Message(s.next, Failure(Error.Cancelled))])
  }

  /** The work is deterministic when it succeeds and may fail or observe a cancellation. */
  predicate MayYield(c: Config, job: nat, r: Result) {
    if r.Value? then r.value == c.work(job) else r.error.WorkFailed? || r.error == Error.Cancelled
  }

  predicate WorkerEnabled(c: Config, s: State, x: Worker, outcome: Result) {
    match x
    case Idle => s.queue != [] || s.producer.Finished?
    case Got(job) => Passable(s)
    case WantLock(job) => job < |c.volumes| && LockFree(c, s, job)
    case Locked(job) => Passable(s)
    case Granted(job) => Passable(s)
    case Running(job) => MayYield(c, job, outcome)
    case WantRelease(job, r) => job < |c.volumes| && LockFree(c, s, job)
    case Releasing(job, r) => true
    case Sending(job, r) => |s.results| < c.queue
    case Stopped => false
  }

  function VolumeOf(c: Config, job: nat): string {
    if job < |c.volumes| then c.volumes[job] else ""
  }

  function PermitsOf(s: State, volume: string): nat {
    if volume in s.available then s.available[volume] else 0
  }

  function NextWorker(c: Config, s: State, x: Worker, outcome: Result): Worker {
    match x
    case Idle => if s.queue != [] then Got(s.queue[0]) else Stopped
    case Got(job) =>
      if s.cancelled then Sending(job, Failure(Error.Cancelled))
      else if VolumeOf(c, job) in s.available then WantLock(job) else Sending(job, Failure(NoLimiter))
    case WantLock(job) => Locked(job)
    case Locked(job) =>
      if s.cancelled then Sending(job, Failure(Error.Cancelled))
      else if PermitsOf(s, VolumeOf(c, job)) > 0 then Granted(job) else WantLock(job)
    case Granted(job) => if s.cancelled then WantRelease(job, Failure(Error.Cancelled)) else Running(job)
    case Running(job) => WantRelease(job, outcome)
    case WantRelease(job, r) => Releasing(job, r)
    case Releasing(job, r) => Sending(job, r)
    case Sending(job, r) => if r.Failure? then Stopped else Idle
    case Stopped => Stopped
  }

  function NextAvailable(c: Config, s: State, x: Worker): map<string, nat> {
    if x.Locked? && !s.cancelled && PermitsOf(s, VolumeOf(c, x.job)) > 0 then
      s.available[VolumeOf(c, x.job) := PermitsOf(s, VolumeOf(c, x.job)) - 1]
    else if x.Releasing? then
      var more := PermitsOf(s, VolumeOf(c, x.job)) + 1;
      s.available[VolumeOf(c, x.job) := if more < c.perVolume then more else c.perVolume]
    else s.available
  }

  function AfterWorker(c: Config, s: State, w: nat, outcome: Result): State
    requires w < |s.workers| && WorkerEnabled(c, s, s.workers[w], outcome)
  {
    var x := s.workers[w];
    var x' := NextWorker(c, s, x, outcome);
    s.(workers := s.workers[w := x'],
       queue := if x.Idle? && s.queue != [] then s.queue[1..] else s.queue,
       results := if x.Sending? then s.results + [Message(x.job, x.result)] else s.results,
       available := NextAvailable(c, s, x),
       started := if x'.Running? then s.started + [x'.job] else s.started)
  }

  predicate CollectorEnabled(s: State) {
    !s.done && (s.results != [] || (s.producer.Finished? && AllStopped(s)))
  }

  function AfterCollector(s: State): State
    requires CollectorEnabled(s)
  {
    if s.results == [] then s.(done := true)
    else
      var m := s.results[0];
      var rest := s.(results := s.results[1..], received := s.received + [m.index]);
      if s.firstError.Some? then rest
      else if m.result.Failure? then rest.(firstError := Some(m.result.error), cancelled := true)
      else if m.index < |s.ordered| then rest.(ordered := s.ordered[m.index := Some(m.result.value)])
      else rest
  }

  predicate Enabled(c: Config, s: State, step: Step) {
    match step
    case Produce => ProducerEnabled(c, s)
    case Work(w, outcome) => w < |s.workers| && WorkerEnabled(c, s, s.workers[w], outcome)
    case Collect => CollectorEnabled(s)
    case Pause => true
    case Resume => true
    case Cancel => true
  }

  function Apply(c: Config, s: State, step: Step): State
    requires Enabled(c, s, step)
  {
    match step
    case Produce => AfterProducer(c, s)
    case Work(w, outcome) => AfterWorker(c, s, w, outcome)
    case Collect => AfterCollector(s)
    case Pause => s.(paused := true)
    case Resume => s.(paused := false)
    case Cancel => s.(cancelled := true)
  }

  ghost predicate Runs(c: Config, s: State, run: seq<Step>, s': State)
    decreases |run|
  {
    if run == [] then s == s' else Enabled(c, s, run[0]) && Runs(c, Apply(c, s, run[0]), run[1..], s')
  }

  /** The error the call returns once the collector is done, if any; otherwise it returns `ordered`. */
  function ReturnedError(s: State): Option<Error> {
    if s.firstError.Some? then s.firstError
    else if exists i | 0 <= i < |s.ordered| :: s.ordered[i].None? then Some(LostJob) else None
  }

  // ---------------------------------------------------------------- counting

  function Sum(workers: seq<Worker>, f: Worker -> nat): nat {
    if workers == [] then 0 else Sum(workers[..|workers| - 1], f) + f(workers[|workers| - 1])
  }

  lemma {:induction false} SumUpdate(workers: seq<Worker>, w: nat, x: Worker, f: Worker -> nat)
    requires w < |workers|
    ensures Sum(workers[w := x], f) + f(workers[w]) == Sum(workers, f) + f(x)
  {
    var init := workers[..|workers| - 1];
    if w == |init| {
      assert workers[w := x][..|init|] == init;
    } else {
      SumUpdate(init, w, x, f);
      assert workers[w := x][..|init|] == init[w := x];
    }
  }

  lemma {:induction false} SumAtLeast(workers: seq<Worker>, w: nat, f: Worker -> nat)
    requires w < |workers|
    ensures Sum(workers, f) >= f(workers[w])
  {
    if w < |workers| - 1 {
      SumAtLeast(workers[..|workers| - 1], w, f);
    }
  }

  lemma {:induction false} SumMonotone(workers: seq<Worker>, f: Worker -> nat, g: Worker -> nat)
    requires forall x :: f(x) <= g(x)
    ensures Sum(workers, f) <= Sum(workers, g)
  {
    if workers != [] {
      SumMonotone(workers[..|workers| - 1], f, g);
    }
  }

  lemma {:induction false} SumZero(workers: seq<Worker>, f: Worker -> nat)
    requires forall w | 0 <= w < |workers| :: f(workers[w]) == 0
    ensures Sum(workers, f) == 0
  {
    if workers != [] {
      SumZero(workers[..|workers| - 1], f);
    }
  }

  function Messages(results: seq<Message>, i: nat): nat {
    if results == [] then 0 else Messages(results[1..], i) + if results[0].index == i then 1 else 0
  }

  lemma {:induction false} MessagesSnoc(results: seq<Message>, m: Message, i: nat)
    ensures Messages(results + [m], i) == Messages(results, i) + if m.index == i then 1 else 0
  {
    if results == [] {
      assert (results + [m])[1..] == [];
    } else {
      MessagesSnoc(results[1..], m, i);
      assert (results + [m])[1..] == results[1..] + [m];
    }
  }

  /** How often `i` occurs. */
  function Count(xs: seq<nat>, i: nat): nat {
    if xs == [] then 0 else Count(xs[1..], i) + if xs[0] == i then 1 else 0
  }

  lemma {:induction false} CountSnoc(xs: seq<nat>, x: nat, i: nat)
    ensures Count(xs + [x], i) == Count(xs, i) + if x == i then 1 else 0
  {
    if xs == [] {
      assert (xs + [x])[1..] == [];
    } else {
      CountSnoc(xs[1..], x, i);
      assert (xs + [x])[1..] == xs[1..] + [x];
    }
  }

  lemma CountHead(xs: seq<nat>, i: nat)
    requires xs != []
    ensures Count(xs, i) == Count(xs[1..], i) + if xs[0] == i then 1 else 0
  {
  }

  lemma MessagesHead(results: seq<Message>, i: nat)
    requires results != []
    ensures Messages(results, i) == Messages(results[1..], i) + if results[0].index == i then 1 else 0
  {
  }

  lemma {:induction false} CountAbsent(xs: seq<nat>, i: nat)
    ensures Count(xs, i) > 0 <==> i in xs
  {
    if xs != [] {
      CountAbsent(xs[1..], i);
    }
  }

  predicate HasPermit(x: Worker) {
    x.Granted? || x.Running? || x.WantRelease? || x.Releasing?
  }

  /** One for a worker that holds a permit of `volume`. */
  function Permit(c: Config, volume: string): Worker -> nat {
    x => if HasPermit(x) && VolumeOf(c, x.job) == volume then 1 else 0
  }

  predicate HasJob(x: Worker) {
    !x.Idle? && !x.Stopped?
  }

  function Carries(i: nat): Worker -> nat {
    x => if HasJob(x) && x.job == i then 1 else 0
  }

  /** One for a worker that is past the point where the work of `i` may start. */
  function Past(i: nat): Worker -> nat {
    (x: Worker) => if (x.Running? || x.WantRelease? || x.Releasing? || x.Sending?) && x.job == i then 1 else 0
  }

  /** How many times index `i` is in flight or received. */
  function Places(s: State, i: nat): nat {
    Count(s.queue, i) + Sum(s.workers, Carries(i)) + Messages(s.results, i) + Count(s.received, i)
  }

  // ---------------------------------------------------------------- invariant

  predicate Shape(c: Config, s: State) {
    && Sound(c) && |s.workers| == c.workers && |s.ordered| == |c.volumes|
    && s.available.Keys == (set v | v in c.volumes)
    && s.next <= |c.volumes| && (s.producer.Offering? || s.producer.Reporting? ==> s.next < |c.volumes|)
    && |s.queue| <= c.queue && |s.results| <= c.queue
    && (forall k | 0 <= k < |s.queue| :: s.queue[k] < s.next)
    && (forall w | 0 <= w < |s.workers| && HasJob(s.workers[w]) :: s.workers[w].job < s.next)
    && (forall k | 0 <= k < |s.results| :: s.results[k].index < s.next)
  }

  /** Permits are conserved. */
  ghost predicate Conserved(c: Config, s: State) {
    forall v | v in s.available :: s.available[v] + Sum(s.workers, Permit(c, v)) == c.perVolume
  }

  /** Every issued index is in exactly one place, and no other index is anywhere. */
  ghost predicate EachOnce(s: State) {
    forall i: nat :: Places(s, i) == if i < s.next then 1 else 0
  }

  /** A started job is past its start, in flight or received. */
  ghost predicate StartedOnce(s: State) {
    forall i: nat :: Count(s.started, i) <= Sum(s.workers, Past(i)) + Messages(s.results, i) + Count(s.received, i)
  }

  predicate HasResult(x: Worker) {
    x.WantRelease? || x.Releasing? || x.Sending?
  }

  /** Whatever was computed was computed by the work. */
  predicate Truthful(c: Config, s: State) {
    && (forall w | 0 <= w < |s.workers| && HasResult(s.workers[w]) :: MayYield(c, s.workers[w].job, s.workers[w].result))
    && (forall k | 0 <= k < |s.results| :: MayYield(c, s.results[k].index, s.results[k].result))
    && (forall i | 0 <= i < |s.ordered| && s.ordered[i].Some? :: s.ordered[i].value == c.work(i))
    && (s.firstError.Some? ==> s.firstError.value.WorkFailed? || s.firstError.value == Error.Cancelled)
  }

  predicate ErrorSeen(s: State) {
    s.firstError.Some? || exists k | 0 <= k < |s.results| :: s.results[k].result.Failure?
  }

  /** Nothing is given up without an error on record. */
  predicate Complete(c: Config, s: State) {
    && (s.firstError.None? ==> forall i | i in s.received && i < |s.ordered| :: s.ordered[i].Some?)
    && ((exists w | 0 <= w < |s.workers| :: s.workers[w].Stopped?) ==> ErrorSeen(s) || (s.producer.Finished? && s.queue == []))
    && (s.producer.Finished? && s.next < |c.volumes| ==> ErrorSeen(s))
    && (s.done ==> s.producer.Finished? && AllStopped(s) && s.results == [])
  }

  ghost predicate Inv(c: Config, s: State) {
    Shape(c, s) && Conserved(c, s) && EachOnce(s) && StartedOnce(s) && Truthful(c, s) && Complete(c, s)
  }

  lemma {:induction false} SumOfIdle(n: nat, f: Worker -> nat)
    requires f(Idle) == 0
    ensures Sum(seq(n, w => Idle), f) == 0
  {
    SumZero(seq(n, w => Idle), f);
  }

  lemma InitialInv(c: Config, cancelled: bool, paused: bool)
    requires Sound(c)
    ensures Inv(c, Initial(c, cancelled, paused))
  {
    var s := Initial(c, cancelled, paused);
    forall v | v in s.available ensures Sum(s.workers, Permit(c, v)) == 0 {
      SumOfIdle(c.workers, Permit(c, v));
    }
    forall i: nat ensures Sum(s.workers, Carries(i)) == 0 && Sum(s.workers, Past(i)) == 0 {
      SumOfIdle(c.workers, Carries(i));
      SumOfIdle(c.workers, Past(i));
    }
  }

  // -- producer

  lemma ProducerKeepsInv(c: Config, s: State)
    requires Inv(c, s) && ProducerEnabled(c, s)
    ensures Inv(c, AfterProducer(c, s))
  {
    hide Sum;
    var s' := AfterProducer(c, s);
    ProducerKeepsCounts(c, s);
    ProducerKeepsComplete(c, s);
  }

  /** The counts of one index after the producer's step. */
  lemma ProducerCounts(c: Config, s: State, i: nat)
    requires ProducerEnabled(c, s)
    ensures Places(AfterProducer(c, s), i) == Places(s, i) + if s.next <= i < AfterProducer(c, s).next then 1 else 0
    ensures Messages(AfterProducer(c, s).results, i) >= Messages(s.results, i)
  {
    hide Sum, Messages, Count;
    if s.producer.Reporting? {
      MessagesSnoc(s.results, Message(s.next, Failure(Error.Cancelled)), i);
    } else if s.producer.Offering? {
      CountSnoc(s.queue, s.next, i);
    }
  }

  lemma ProducerKeepsCounts(c: Config, s: State)
    requires Shape(c, s) && EachOnce(s) && StartedOnce(s) && ProducerEnabled(c, s)
    ensures EachOnce(AfterProducer(c, s)) && StartedOnce(AfterProducer(c, s))
  {
    hide Sum, Messages, Count, Places;
    var s' := AfterProducer(c, s);
    assert s'.workers == s.workers && s'.started == s.started && s'.received == s.received && s.next <= s'.next <= s.next + 1;
    forall i: nat ensures Places(s', i) == (if i < s'.next then 1 else 0)
      && Count(s'.started, i) <= Sum(s'.workers, Past(i)) + Messages(s'.results, i) + Count(s'.received, i)
    {
      ProducerCounts(c, s, i);
      assert Places(s, i) == if i < s.next then 1 else 0;
      assert Count(s.started, i) <= Sum(s.workers, Past(i)) + Messages(s.results, i) + Count(s.received, i);
    }
  }

  lemma ProducerKeepsComplete(c: Config, s: State)
    requires Shape(c, s) && Complete(c, s) && ProducerEnabled(c, s)
    ensures Complete(c, AfterProducer(c, s))
  {
    var s' := AfterProducer(c, s);
    if s.producer.Reporting? {
      assert s'.results[|s.results|].result.Failure?;
    }
    if ErrorSeen(s) {
      ErrorStays(s, s');
    }
    if s.producer.Offering? && AllStopped(s) {
      assert s.workers[0].Stopped?;
    }
  }

  lemma ErrorStays(s: State, s': State)
    requires ErrorSeen(s) && s'.firstError == s.firstError && s.results <= s'.results
    ensures ErrorSeen(s')
  {
    if s.firstError.None? {
      var k :| 0 <= k < |s.results| && s.results[k].result.Failure?;
      assert s'.results[k].result.Failure?;
    }
  }

  // -- collector

  lemma CollectorCounts(s: State, i: nat)
    requires CollectorEnabled(s)
    ensures Places(AfterCollector(s), i) == Places(s, i)
    ensures Messages(AfterCollector(s).results, i) + Count(AfterCollector(s).received, i)
         == Messages(s.results, i) + Count(s.received, i)
  {
    hide Sum, AllStopped, Count, Messages;
    if s.results != [] {
      MessagesHead(s.results, i);
      CountSnoc(s.received, s.results[0].index, i);
    }
  }

  lemma CollectorKeepsCounts(s: State)
    requires EachOnce(s) && StartedOnce(s) && CollectorEnabled(s)
    ensures EachOnce(AfterCollector(s)) && StartedOnce(AfterCollector(s))
  {
    hide Sum, Messages, Count, Places;
    var s' := AfterCollector(s);
    assert s'.workers == s.workers && s'.started == s.started && s.next == s'.next;
    forall i: nat ensures Places(s', i) == (if i < s'.next then 1 else 0)
      && Count(s'.started, i) <= Sum(s'.workers, Past(i)) + Messages(s'.results, i) + Count(s'.received, i)
    {
      CollectorCounts(s, i);
      assert Places(s, i) == if i < s.next then 1 else 0;
      assert Count(s.started, i) <= Sum(s.workers, Past(i)) + Messages(s.results, i) + Count(s.received, i);
    }
  }

  lemma CollectorKeepsComplete(c: Config, s: State)
    requires Shape(c, s) && Complete(c, s) && CollectorEnabled(s)
    ensures Complete(c, AfterCollector(s))
  {
    var s' := AfterCollector(s);
    if s.results != [] && ErrorSeen(s) && s.firstError.None? && s.results[0].result.Value? {
      var k :| 0 <= k < |s.results| && s.results[k].result.Failure?;
      assert s'.results[k - 1].result.Failure?;
    }
  }

  lemma CollectorKeepsInv(c: Config, s: State)
    requires Inv(c, s) && CollectorEnabled(s)
    ensures Inv(c, AfterCollector(s))
  {
    hide Sum;
    CollectorKeepsCounts(s);
    CollectorKeepsComplete(c, s);
  }

  // -- workers

  lemma WorkerCounts(c: Config, s: State, w: nat, outcome: Result, i: nat)
    requires w < |s.workers| && WorkerEnabled(c, s, s.workers[w], outcome)
    ensures Places(AfterWorker(c, s, w, outcome), i) == Places(s, i)
  {
    hide Sum, Messages, Count;
    var x := s.workers[w];
    var x' := NextWorker(c, s, x, outcome);
    SumUpdate(s.workers, w, x', Carries(i));
    if x.Sending? {
      MessagesSnoc(s.results, Message(x.job, x.result), i);
    } else if x.Idle? && s.queue != [] {
      CountHead(s.queue, i);
    }
  }

  /** One step of one worker keeps what it adds to the counts of one index. */
  lemma PastStep(c: Config, s: State, x: Worker, outcome: Result, i: nat)
    requires WorkerEnabled(c, s, x, outcome)
    ensures var x' := NextWorker(c, s, x, outcome);
            Past(i)(x') + (if x.Sending? && x.job == i then 1 else 0)
              >= Past(i)(x) + if x'.Running? && x'.job == i then 1 else 0
  {
  }

  lemma WorkerStarts(c: Config, s: State, w: nat, outcome: Result, i: nat)
    requires w < |s.workers| && WorkerEnabled(c, s, s.workers[w], outcome)
    requires Count(s.started, i) <= Sum(s.workers, Past(i)) + Messages(s.results, i) + Count(s.received, i)
    ensures var s' := AfterWorker(c, s, w, outcome);
            Count(s'.started, i) <= Sum(s'.workers, Past(i)) + Messages(s'.results, i) + Count(s'.received, i)
  {
    hide Sum, Messages, Count, NextWorker, Past, WorkerEnabled, NextAvailable;
    var x := s.workers[w];
    var x' := NextWorker(c, s, x, outcome);
    PastStep(c, s, x, outcome, i);
    SumUpdate(s.workers, w, x', Past(i));
    if x.Sending? {
      MessagesSnoc(s.results, Message(x.job, x.result), i);
    }
    if x'.Running? {
      CountSnoc(s.started, x'.job, i);
    }
  }

  lemma WorkerKeepsCounts(c: Config, s: State, w: nat, outcome: Result)
    requires EachOnce(s) && StartedOnce(s) && w < |s.workers| && WorkerEnabled(c, s, s.workers[w], outcome)
    ensures EachOnce(AfterWorker(c, s, w, outcome)) && StartedOnce(AfterWorker(c, s, w, outcome))
  {
    hide Sum, Messages, Count, Places, NextWorker, WorkerEnabled;
    var s' := AfterWorker(c, s, w, outcome);
    assert s.next == s'.next;
    forall i: nat ensures Places(s', i) == (if i < s'.next then 1 else 0)
      && Count(s'.started, i) <= Sum(s'.workers, Past(i)) + Messages(s'.results, i) + Count(s'.received, i)
    {
      assert Places(s, i) == if i < s.next then 1 else 0;
      assert Count(s.started, i) <= Sum(s.workers, Past(i)) + Messages(s.results, i) + Count(s.received, i);
      WorkerCounts(c, s, w, outcome, i);
      WorkerStarts(c, s, w, outcome, i);
    }
  }

  /** A job of an existing index has a limiter. */
  lemma JobHasLimiter(c: Config, s: State, w: nat)
    requires Shape(c, s) && w < |s.workers| && HasJob(s.workers[w])
    ensures s.workers[w].job < |c.volumes| && VolumeOf(c, s.workers[w].job) in s.available
  {
  }

  /** What a worker takes from the available permits it holds afterwards, and the other way round. */
  lemma PermitStep(c: Config, s: State, x: Worker, outcome: Result, v: string)
    requires WorkerEnabled(c, s, x, outcome) && v in s.available
    requires HasJob(x) ==> VolumeOf(c, x.job) in s.available
    requires s.available[v] + Permit(c, v)(x) <= c.perVolume
    ensures v in NextAvailable(c, s, x)
    ensures NextAvailable(c, s, x)[v] + Permit(c, v)(NextWorker(c, s, x, outcome)) == s.available[v] + Permit(c, v)(x)
  {
  }

  lemma WorkerKeepsPermits(c: Config, s: State, w: nat, outcome: Result, v: string)
    requires Shape(c, s) && Conserved(c, s) && w < |s.workers| && WorkerEnabled(c, s, s.workers[w], outcome)
    requires v in s.available
    ensures var s' := AfterWorker(c, s, w, outcome);
            v in s'.available && s'.available[v] + Sum(s'.workers, Permit(c, v)) == c.perVolume
  {
    hide Sum, NextWorker, NextAvailable, Permit, WorkerEnabled;
    var x := s.workers[w];
    assert s.available[v] + Sum(s.workers, Permit(c, v)) == c.perVolume;
    SumAtLeast(s.workers, w, Permit(c, v));
    if HasJob(x) {
      JobHasLimiter(c, s, w);
    }
    PermitStep(c, s, x, outcome, v);
    SumUpdate(s.workers, w, NextWorker(c, s, x, outcome), Permit(c, v));
  }

  /** What one step gives the worker itself. */
  lemma WorkerStep(c: Config, s: State, w: nat, outcome: Result)
    requires Shape(c, s) && w < |s.workers| && WorkerEnabled(c, s, s.workers[w], outcome)
    ensures var x, x' := s.workers[w], NextWorker(c, s, s.workers[w], outcome);
            && (HasJob(x') ==> x'.job < s.next)
            && (HasResult(x') ==> (HasResult(x) && x'.job == x.job && x'.result == x.result) || MayYield(c, x'.job, x'.result))
            && NextAvailable(c, s, x).Keys == s.available.Keys
  {
    hide LockFree;
    if HasJob(s.workers[w]) {
      JobHasLimiter(c, s, w);
    }
  }

  lemma WorkerKeepsShape(c: Config, s: State, w: nat, outcome: Result)
    requires Shape(c, s) && w < |s.workers| && WorkerEnabled(c, s, s.workers[w], outcome)
    ensures Shape(c, AfterWorker(c, s, w, outcome))
  {
    hide NextWorker, NextAvailable, LockFree, Passable, MayYield;
    WorkerStep(c, s, w, outcome);
  }

  lemma WorkerKeepsTruth(c: Config, s: State, w: nat, outcome: Result)
    requires Shape(c, s) && Truthful(c, s) && w < |s.workers| && WorkerEnabled(c, s, s.workers[w], outcome)
    ensures Truthful(c, AfterWorker(c, s, w, outcome))
  {
    hide NextWorker, NextAvailable, LockFree, Passable, MayYield, WorkerEnabled;
    WorkerStep(c, s, w, outcome);
  }

  lemma WorkerKeepsComplete(c: Config, s: State, w: nat, outcome: Result)
    requires Shape(c, s) && Complete(c, s) && w < |s.workers| && WorkerEnabled(c, s, s.workers[w], outcome)
    ensures Complete(c, AfterWorker(c, s, w, outcome))
  {
    var s' := AfterWorker(c, s, w, outcome);
    var x := s.workers[w];
    if x.Sending? && x.result.Failure? {
      assert s'.results[|s.results|].result.Failure?;
    } else if ErrorSeen(s) {
      ErrorStays(s, s');
    } else if exists k | 0 <= k < |s'.workers| :: s'.workers[k].Stopped? && k != w {
      var k :| 0 <= k < |s'.workers| && s'.workers[k].Stopped? && k != w;
      assert s.workers[k].Stopped?;
    }
  }

  lemma WorkerKeepsInv(c: Config, s: State, w: nat, outcome: Result)
    requires Inv(c, s) && w < |s.workers| && WorkerEnabled(c, s, s.workers[w], outcome)
    ensures Inv(c, AfterWorker(c, s, w, outcome))
  {
    hide Sum, Shape, EachOnce, StartedOnce, Truthful, Complete, NextWorker;
    WorkerKeepsShape(c, s, w, outcome);
    WorkerKeepsCounts(c, s, w, outcome);
    WorkerKeepsTruth(c, s, w, outcome);
    WorkerKeepsComplete(c, s, w, outcome);
    var s' := AfterWorker(c, s, w, outcome);
    SameLimiters(c, s, s');
    forall v | v in s'.available ensures s'.available[v] + Sum(s'.workers, Permit(c, v)) == c.perVolume {
      WorkerKeepsPermits(c, s, w, outcome, v);
    }
  }

  lemma SameLimiters(c: Config, s: State, s': State)
    requires Shape(c, s) && Shape(c, s')
    ensures s.available.Keys == s'.available.Keys
  {
  }

  // -- the user

  lemma UserKeepsInv(c: Config, s: State, cancelled: bool, paused: bool)
    requires Inv(c, s)
    ensures Inv(c, s.(cancelled := cancelled, paused := paused))
  {
    hide Sum, Count, Messages;
    var s' := s.(cancelled := cancelled, paused := paused);
    forall i: nat ensures Places(s', i) == if i < s'.next then 1 else 0 {
      assert Places(s, i) == if i < s.next then 1 else 0;
    }
  }

  lemma StepKeepsInv(c: Config, s: State, step: Step)
    requires Inv(c, s) && Enabled(c, s, step)
    ensures Inv(c, Apply(c, s, step))
  {
    hide Sum, ProducerEnabled, WorkerEnabled, EachOnce, StartedOnce, Truthful, Complete, Conserved, Shape;
    match step
    case Produce => ProducerKeepsInv(c, s);
    case Work(w, outcome) => WorkerKeepsInv(c, s, w, outcome);
    case Collect => CollectorKeepsInv(c, s);
    case Pause => UserKeepsInv(c, s, s.cancelled, true);
    case Resume => UserKeepsInv(c, s, s.cancelled, false);
    case Cancel => UserKeepsInv(c, s, true, s.paused);
  }

  lemma {:induction false} RunKeepsInv(c: Config, s: State, run: seq<Step>, s': State)
    requires Inv(c, s) && Runs(c, s, run, s')
    ensures Inv(c, s')
    decreases |run|
  {
    if run != [] {
      StepKeepsInv(c, s, run[0]);
      RunKeepsInv(c, Apply(c, s, run[0]), run[1..], s');
    }
  }

  // ---------------------------------------------------------------- what every run guarantees

  function RunningOn(c: Config, volume: string): Worker -> nat {
    (x: Worker) => if x.Running? && VolumeOf(c, x.job) == volume then 1 else 0
  }

  /** In every interleaving permits are conserved, a volume never has more running workers than its
      limit, and no job is started twice. */
  lemma LimitsHold(c: Config, cancelled: bool, paused: bool, run: seq<Step>, s: State, volume: string, i: nat)
    requires Sound(c) && Runs(c, Initial(c, cancelled, paused), run, s)
    requires volume in c.volumes
    ensures volume in s.available && s.available[volume] + Sum(s.workers, Permit(c, volume)) == c.perVolume
    ensures Sum(s.workers, RunningOn(c, volume)) <= c.perVolume
    ensures Count(s.started, i) <= 1
  {
    InitialInv(c, cancelled, paused);
    RunKeepsInv(c, Initial(c, cancelled, paused), run, s);
    SumMonotone(s.workers, RunningOn(c, volume), Permit(c, volume));
    SumMonotone(s.workers, Past(i), Carries(i));
    assert Places(s, i) <= 1;
  }

  predicate IsRunning(c: Config, x: Worker, volume: string) {
    x.Running? && x.job < |c.volumes| && c.volumes[x.job] == volume
  }

  /** The workers that are running a job of `volume`. */
  ghost function RunningJobs(c: Config, workers: seq<Worker>, volume: string): set<nat> {
    set w: nat | w < |workers| && IsRunning(c, workers[w], volume)
  }

  lemma {:induction false} RunningJobsCounted(c: Config, workers: seq<Worker>, volume: string)
    ensures |RunningJobs(c, workers, volume)| <= Sum(workers, RunningOn(c, volume))
  {
    var running := RunningJobs(c, workers, volume);
    if workers == [] {
      assert running == {};
    } else {
      var n := |workers| - 1;
      var init := workers[..n];
      assert running - {n} == RunningJobs(c, init, volume);
      RunningJobsCounted(c, init, volume);
      assert IsRunning(c, workers[n], volume) ==> RunningOn(c, volume)(workers[n]) == 1;
      if n in running {
        assert running == RunningJobs(c, init, volume) + {n};
      }
    }
  }

  /** Whoever asks for so many full readers per volume, workers and queue places gets no more than that
      at any moment of any run, except that one of each is the least, and the workers never outnumber the
      jobs. */
  lemma RequestedLimitsHold(volumes: seq<string>, work: nat -> Bytes, metadataWorkers: nat, fullHashWorkers: nat, capacity: nat,
                            cancelled: bool, paused: bool, run: seq<Step>, s: State, volume: string)
    requires volumes != [] && volume in volumes
    requires var c := Configured(volumes, work, metadataWorkers, fullHashWorkers, capacity);
             Runs(c, Initial(c, cancelled, paused), run, s)
    ensures var c := Configured(volumes, work, metadataWorkers, fullHashWorkers, capacity);
            |RunningJobs(c, s.workers, volume)| <= if fullHashWorkers == 0 then 1 else fullHashWorkers
    ensures |s.workers| <= (if metadataWorkers == 0 then 1 else metadataWorkers) && |s.workers| <= |volumes|
    ensures |s.queue| <= (if capacity == 0 then 1 else capacity) && |s.results| <= (if capacity == 0 then 1 else capacity)
  {
    var c := Configured(volumes, work, metadataWorkers, fullHashWorkers, capacity);
    InitialInv(c, cancelled, paused);
    RunKeepsInv(c, Initial(c, cancelled, paused), run, s);
    LimitsHold(c, cancelled, paused, run, s, volume, 0);
    RunningJobsCounted(c, s.workers, volume);
  }

  /** A finished run returns the work of every job under its own index, or the first error received;
      it never reports a lost job or a missing limiter. */
  lemma ResultsAreComplete(c: Config, cancelled: bool, paused: bool, run: seq<Step>, s: State)
    requires Sound(c) && Runs(c, Initial(c, cancelled, paused), run, s) && s.done
    ensures ReturnedError(s).None? ==>
              |s.ordered| == |c.volumes| && forall i | 0 <= i < |c.volumes| :: s.ordered[i] == Some(c.work(i))
    ensures ReturnedError(s).Some? ==> ReturnedError(s).value.WorkFailed? || ReturnedError(s).value == Error.Cancelled
    ensures s.firstError.None? ==> ReturnedError(s).None?
  {
    InitialInv(c, cancelled, paused);
    RunKeepsInv(c, Initial(c, cancelled, paused), run, s);
    if s.firstError.None? {
      assert s.workers[0].Stopped?;
      forall i | 0 <= i < |c.volumes| ensures s.ordered[i].Some? {
        SumZero(s.workers, Carries(i));
        assert Places(s, i) == 1;
        CountAbsent(s.received, i);
      }
    }
  }

  // ---------------------------------------------------------------- no deadlock

  /** How far a worker is from being stopped. */
  function Weight(x: Worker): nat {
    match x
    case Stopped => 0
    case Idle => 1
    case Sending(_, _) => 3
    case Releasing(_, _) => 4
    case WantRelease(_, _) => 5
    case Running(_) => 6
    case Granted(_) => 7
    case WantLock(_) => 8
    case Locked(_) => 9
    case Got(_) => 10
  }

  function ProducerWeight(p: Producer): nat {
    match p
    case Checking => 2
    case Offering => 1
    case Reporting => 1
    case Finished => 0
  }

  /** A bound on the steps that remain. */
  function Remaining(c: Config, s: State): nat
    requires s.next <= |c.volumes|
  {
    13 * (|c.volumes| - s.next) + ProducerWeight(s.producer) + 10 * |s.queue| + Sum(s.workers, Weight) + |s.results|
    + if s.done then 0 else 1
  }

  /** Every step of a worker other than taking the mutex for a permit brings the end nearer. */
  lemma WorkerDescends(c: Config, s: State, w: nat, outcome: Result)
    requires Inv(c, s) && w < |s.workers| && WorkerEnabled(c, s, s.workers[w], outcome) && !s.workers[w].WantLock?
    ensures s.next == AfterWorker(c, s, w, outcome).next <= |c.volumes|
    ensures Remaining(c, AfterWorker(c, s, w, outcome)) < Remaining(c, s)
  {
    hide Sum, LockFree, MayYield, EachOnce, StartedOnce, Conserved, Truthful, Complete;
    SumUpdate(s.workers, w, NextWorker(c, s, s.workers[w], outcome), Weight);
  }

  /** The same for taking the mutex and then a permit. */
  lemma LockAndDecide(c: Config, s: State, w: nat) returns (run: seq<Step>, s': State)
    requires Inv(c, s) && Passable(s) && w < |s.workers| && s.workers[w].WantLock?
    requires s.workers[w].job < |c.volumes| && LockFree(c, s, s.workers[w].job)
    requires s.cancelled || PermitsOf(s, VolumeOf(c, s.workers[w].job)) > 0
    ensures Progress(c, s, run, s')
  {
    hide Sum, LockFree, EachOnce, StartedOnce, Conserved, Truthful, Complete;
    var any := Failure(LostJob);
    var locked := AfterWorker(c, s, w, any);
    WorkerKeepsInv(c, s, w, any);
    assert s.workers[w := Locked(s.workers[w].job)][w] == Locked(s.workers[w].job);
    s' := AfterWorker(c, locked, w, any);
    WorkerKeepsInv(c, locked, w, any);
    SumUpdate(s.workers, w, locked.workers[w], Weight);
    SumUpdate(locked.workers, w, s'.workers[w], Weight);
    run := [Work(w, any), Work(w, any)];
    assert run[1..] == [Work(w, any)] && run[1..][1..] == [];
    assert Runs(c, locked, run[1..], s');
  }

  predicate SystemStep(step: Step) {
    step.Produce? || step.Work? || step.Collect?
  }

  /** Every job is past its last checkpoint. */
  predicate Late(c: Config, s: State) {
    && s.next == |c.volumes| && s.queue == []
    && forall w | 0 <= w < |s.workers| ::
         !s.workers[w].Got? && !s.workers[w].WantLock? && !s.workers[w].Locked? && !s.workers[w].Granted?
  }

  /** No pause is in the way. */
  predicate Unblocked(c: Config, s: State) {
    s.cancelled || !s.paused || Late(c, s)
  }

  /** A short run of system steps that brings the end nearer. */
  ghost predicate Progress(c: Config, s: State, run: seq<Step>, s': State) {
    && Runs(c, s, run, s') && (forall k | 0 <= k < |run| :: SystemStep(run[k]))
    && Inv(c, s') && Unblocked(c, s')
    && s.next <= |c.volumes| && Remaining(c, s') < Remaining(c, s)
  }

  lemma StaysUnblocked(c: Config, s: State, step: Step)
    requires Inv(c, s) && Unblocked(c, s) && Enabled(c, s, step) && SystemStep(step)
    ensures Unblocked(c, Apply(c, s, step))
  {
    hide EachOnce, StartedOnce, Conserved, Truthful, Complete, Sum, NextAvailable;
  }

  lemma OneStep(c: Config, s: State, step: Step) returns (run: seq<Step>, s': State)
    requires Inv(c, s) && Unblocked(c, s) && Enabled(c, s, step) && SystemStep(step)
    requires Apply(c, s, step).next <= |c.volumes| && Remaining(c, Apply(c, s, step)) < Remaining(c, s)
    ensures Progress(c, s, run, s')
  {
    hide Remaining, EachOnce, StartedOnce, Conserved, Truthful, Complete, Late;
    hide ProducerEnabled, WorkerEnabled, NextWorker, NextAvailable;
    s' := Apply(c, s, step);
    StepKeepsInv(c, s, step);
    StaysUnblocked(c, s, step);
    run := [step];
    assert run[1..] == [] && Runs(c, s', run[1..], s');
  }

  lemma WorkerProgress(c: Config, s: State, w: nat) returns (run: seq<Step>, s': State)
    requires Inv(c, s) && Unblocked(c, s) && w < |s.workers|
    requires var x := s.workers[w]; !x.WantLock? && !x.Stopped? && WorkerEnabled(c, s, x, Sample(c, x))
    ensures Progress(c, s, run, s')
  {
    hide Inv, WorkerEnabled, Progress, Sum;
    WorkerDescends(c, s, w, Sample(c, s.workers[w]));
    run, s' := OneStep(c, s, Work(w, Sample(c, s.workers[w])));
  }

  /** One admissible outcome of the work. */
  function Sample(c: Config, x: Worker): Result {
    if x.Running? then Value(c.work(x.job)) else Failure(LostJob)
  }

  lemma ProducerProgress(c: Config, s: State) returns (run: seq<Step>, s': State)
    requires Inv(c, s) && Unblocked(c, s) && ProducerEnabled(c, s)
    ensures Progress(c, s, run, s')
  {
    hide Sum, EachOnce, StartedOnce, Conserved, Truthful, Complete, Progress;
    run, s' := OneStep(c, s, Produce);
  }

  lemma CollectorProgress(c: Config, s: State) returns (run: seq<Step>, s': State)
    requires Inv(c, s) && Unblocked(c, s) && CollectorEnabled(s)
    ensures Progress(c, s, run, s')
  {
    hide Sum, EachOnce, StartedOnce, Conserved, Truthful, Complete, Progress;
    run, s' := OneStep(c, s, Collect);
  }

  /** A worker that can move whatever the others do, given room for its result. */
  predicate Mobile(x: Worker) {
    x.Sending? || x.Releasing? || x.Locked? || x.Running? || x.Granted? || x.Got?
  }

  lemma LastPermitsAreFree(c: Config, s: State, w: nat)
    requires Inv(c, s) && w < |s.workers| && s.workers[w].WantLock?
    requires forall k | 0 <= k < |s.workers| :: !HasPermit(s.workers[k])
    ensures s.workers[w].job < |c.volumes| && PermitsOf(s, VolumeOf(c, s.workers[w].job)) > 0
  {
    JobHasLimiter(c, s, w);
    SumZero(s.workers, Permit(c, VolumeOf(c, s.workers[w].job)));
  }

  /** In every state that is not finished and not blocked by a pause, something brings the end nearer. */
  lemma NeverStuck(c: Config, s: State) returns (run: seq<Step>, s': State)
    requires Inv(c, s) && Unblocked(c, s) && !s.done
    ensures Progress(c, s, run, s')
  {
    hide Sum, EachOnce, StartedOnce, Conserved, Truthful, Complete, Progress;
    if s.results != [] {
      run, s' := CollectorProgress(c, s);
    } else if w :| 0 <= w < |s.workers| && Mobile(s.workers[w]) {
      run, s' := WorkerProgress(c, s, w);
    } else if w :| 0 <= w < |s.workers| && s.workers[w].WantRelease? {
      JobHasLimiter(c, s, w);
      run, s' := WorkerProgress(c, s, w);
    } else if w :| 0 <= w < |s.workers| && s.workers[w].WantLock? {
      LastPermitsAreFree(c, s, w);
      run, s' := LockAndDecide(c, s, w);
    } else if ProducerEnabled(c, s) {
      run, s' := ProducerProgress(c, s);
    } else if w :| 0 <= w < |s.workers| && s.workers[w].Idle? {
      run, s' := WorkerProgress(c, s, w);
    } else {
      run, s' := CollectorProgress(c, s);
    }
  }

  ghost predicate SystemRun(c: Config, s: State, run: seq<Step>, s': State) {
    Runs(c, s, run, s') && forall k | 0 <= k < |run| :: SystemStep(run[k])
  }

  lemma {:induction false} SystemRunsConcatenate(c: Config, a: State, first: seq<Step>, b: State, second: seq<Step>, d: State)
    requires SystemRun(c, a, first, b) && SystemRun(c, b, second, d)
    ensures SystemRun(c, a, first + second, d)
    decreases |first|
  {
    if first == [] {
      assert first + second == second;
    } else {
      SystemRunsConcatenate(c, Apply(c, a, first[0]), first[1..], b, second, d);
      assert (first + second)[1..] == first[1..] + second;
    }
  }

  lemma {:induction false} CanFinish(c: Config, s: State) returns (run: seq<Step>, s': State)
    requires Inv(c, s) && Unblocked(c, s)
    ensures SystemRun(c, s, run, s') && s'.done
    decreases if s.next <= |c.volumes| then Remaining(c, s) else 0
  {
    hide Inv, Apply, Enabled, Remaining;
    if s.done {
      run, s' := [], s;
    } else {
      var first, b := NeverStuck(c, s);
      NextInRange(c, b);
      var second, d := CanFinish(c, b);
      SystemRunsConcatenate(c, s, first, b, second, d);
      run, s' := first + second, d;
    }
  }

  lemma NextInRange(c: Config, s: State)
    requires Inv(c, s)
    ensures s.next <= |c.volumes|
  {
  }

  /** No deadlock: from every reachable state that is cancelled, not paused or past all checkpoints, the
      producer, the workers and the collector can finish without any help from the user. */
  lemma EveryStateCanFinish(c: Config, cancelled: bool, paused: bool, run: seq<Step>, s: State)
    requires Sound(c) && Runs(c, Initial(c, cancelled, paused), run, s) && Unblocked(c, s)
    ensures exists rest, s' :: SystemRun(c, s, rest, s') && s'.done
  {
    InitialInv(c, cancelled, paused);
    RunKeepsInv(c, Initial(c, cancelled, paused), run, s);
    var rest, s' := CanFinish(c, s);
  }

  // ---------------------------------------------------------------- recommended limits

  datatype StorageProfile = Hdd | SataSsd | Nvme | Network | Unknown

  /** The most workers, but at least one and at most `top`, that have `share` processors each. */
  ghost predicate IsMost(n: nat, top: nat, share: nat, cpus: nat) {
    && 1 <= n <= top && (n > 1 ==> share * n <= cpus)
    && forall k | n < k <= top :: share * k > cpus
  }

  /** Workers for metadata and full reads per volume. */
  function Recommended(profile: StorageProfile, cpus: nat): (r: (nat, nat))
    ensures IsMost(r.0, 8, 2, cpus)
    ensures profile.Hdd? || profile.Network? || profile.Unknown? ==> r.1 == 1
    ensures profile.SataSsd? ==> r.1 == 2
    ensures profile.Nvme? ==> IsMost(r.1, 4, 3, cpus)
  {
    var third := if cpus / 3 < 1 then 1 else cpus / 3;
    (Clamp(cpus / 2, 1, 8),
     match profile
     case SataSsd => 2
     case Nvme => if third < 4 then third else 4
     case _ => 1)
  }
}
