/** Pausing, resuming and cancelling a scan through a database row that other processes write, a
    polling monitor and an in-process control token. */
module ScanControl {
  import opened Domain

  datatype Stage = Enumerating | QuickHashing | Blake3Hashing | Sha256Hashing | Grouping | Recovering

  datatype ScanState =
    | Active(stage: Stage) | Pausing | Paused | Cancelling
    | Cancelled | Interrupted | Completed | Blocked
  {
    predicate Ended() {
      Cancelled? || Interrupted? || Completed? || Blocked?
    }
  }

  datatype Request = NoRequest | PauseRequest | ResumeRequest | CancelRequest

  /** The control columns of one session. */
  datatype Row = Row(state: ScanState, request: Request, resume: Option<Stage>)

  // ---------------------------------------------------------------- updates of the row

  /** None stands for a refusal, which changes nothing. */
  function RequestControl(row: Row, action: Request): Option<Row> {
    match action
    case NoRequest => None
    case PauseRequest =>
      if row.state.Active? then Some(Row(Pausing, PauseRequest, Some(row.state.stage))) else None
    case ResumeRequest =>
      if (row.state.Pausing? || row.state.Paused?) && row.resume.Some? then Some(row.(request := ResumeRequest)) else None
    case CancelRequest =>
      if row.state.Ended() then None else Some(Row(Cancelling, CancelRequest, None))
  }

  /** None stands for a request that changed in the meantime. */
  function Acknowledge(row: Row, action: Request): Option<Row> {
    match action
    case PauseRequest =>
      if row.request.PauseRequest? then Some(row.(state := Paused, request := NoRequest)) else None
    case ResumeRequest =>
      if row.request.ResumeRequest? && row.resume.Some? then Some(Row(Active(row.resume.value), NoRequest, None)) else None
    case _ => None
  }

  function SetStage(row: Row, stage: Stage): Row {
    if row.state.Pausing? || row.state.Paused? then row.(resume := Some(stage))
    else if row.state.Cancelling? then row
    else row.(state := Active(stage))
  }

  function SetEnded(row: Row, state: ScanState): Row {
    Row(state, NoRequest, None)
  }

  /** Sessions left behind by a process that is gone. */
  function MarkInterrupted(row: Row): Row {
    if row.state.Ended() then row else Row(Interrupted, NoRequest, None)
  }

  function PrepareResume(row: Row): Option<Row> {
    if row.state.Interrupted? || row.state.Blocked? then Some(Row(Active(Enumerating), NoRequest, None)) else None
  }

  // ---------------------------------------------------------------- the machine

  /** One polling iteration: read the request, signal the token, acknowledge. */
  datatype Monitor = Polling | Read(request: Request) | Signalled(request: Request) | Gone

  /** `stage` is the stage the worker is truly in. `foreign` records that another process declared the
      session interrupted although its worker was alive. */
  datatype World = World(
    row: Row, stage: Stage, live: bool, monitor: Monitor, paused: bool, cancelled: bool, foreign: bool)

  predicate Initial(w: World) {
    w == World(Row(Active(Enumerating), NoRequest, None), Enumerating, true, Polling, false, false, false)
  }

  datatype Step =
    | Ask(action: Request)
    | Poll
    | Signal
    | Confirm
    | MonitorFails
    | Enter(stage: Stage)
    | Finish(outcome: ScanState)
    | LateBlock
    | Crash
    | Interrupt
    | Restart

  predicate Enabled(w: World, s: Step) {
    match s
    case Ask(action) => RequestControl(w.row, action).Some?
    case Poll => w.monitor.Polling?
    case Signal => w.monitor.Read?
    case Confirm => w.monitor.Signalled?
    case MonitorFails => !w.monitor.Gone?
    case Enter(stage) => w.live
    case Finish(outcome) => w.live && (outcome.Completed? || outcome.Cancelled? || outcome.Blocked?)
    case LateBlock => !w.live && w.row.state.Completed?
    case Crash => true
    case Interrupt => true
    case Restart => !w.live && w.monitor.Gone? && PrepareResume(w.row).Some?
  }

  function AfterSignal(w: World): World
    requires w.monitor.Read?
  {
    match w.monitor.request
    case NoRequest => w.(monitor := Polling)
    case PauseRequest => w.(paused := true, monitor := Signalled(PauseRequest))
    case ResumeRequest => w.(paused := false, monitor := Signalled(ResumeRequest))
    case CancelRequest => w.(cancelled := true, monitor := Gone)
  }

  function AfterConfirm(w: World): World
    requires w.monitor.Signalled?
  {
    match Acknowledge(w.row, w.monitor.request)
    case Some(row) => w.(row := row, monitor := Polling)
    case None => w.(cancelled := true, monitor := Gone)
  }

  function Apply(w: World, s: Step): World
    requires Enabled(w, s)
  {
    match s
    case Ask(action) => w.(row := RequestControl(w.row, action).value)
    case Poll => w.(monitor := Read(w.row.request))
    case Signal => AfterSignal(w)
    case Confirm => AfterConfirm(w)
    case MonitorFails => w.(cancelled := true, monitor := Gone)
    case Enter(stage) => w.(row := SetStage(w.row, stage), stage := stage)
    case Finish(outcome) => w.(row := SetEnded(w.row, outcome), live := false)
    case LateBlock => w.(row := SetEnded(w.row, Blocked))
    case Crash => w.(live := false, monitor := Gone)
    case Interrupt => w.(row := MarkInterrupted(w.row), foreign := w.foreign || w.live)
    case Restart => World(PrepareResume(w.row).value, Enumerating, true, Polling, false, false, false)
  }

  ghost predicate Runs(w: World, run: seq<Step>, w': World)
    decreases |run|
  {
    if run == [] then w == w' else Enabled(w, run[0]) && Runs(Apply(w, run[0]), run[1..], w')
  }

  // ---------------------------------------------------------------- invariant

  /** State, request and remembered stage fit together, and the stage shown or remembered is true. */
  predicate RowInv(row: Row, stage: Stage) {
    match row.state
    case Active(shown) => shown == stage && row.request.NoRequest? && row.resume.None?
    case Pausing => row.resume == Some(stage) && (row.request.PauseRequest? || row.request.ResumeRequest?)
    case Paused => row.resume == Some(stage) && (row.request.NoRequest? || row.request.ResumeRequest?)
    case Cancelling => row.request.CancelRequest? && row.resume.None?
    case _ => row.request.NoRequest? && row.resume.None?
  }

  predicate TokenInv(w: World) {
    && (w.monitor.Signalled? ==> (w.monitor.request.PauseRequest? && w.paused) || (w.monitor.request.ResumeRequest? && !w.paused))
    && (w.live && w.row.state.Paused? && w.row.request.NoRequest? ==>
          w.paused && (w.monitor.Polling? || w.monitor.Gone? || w.monitor == Read(NoRequest)))
    && (w.live && !w.foreign ==>
          && (w.monitor in {Read(PauseRequest), Signalled(PauseRequest)} ==> w.row.state.Pausing? || w.row.state.Cancelling?)
          && (w.paused && !w.monitor.Gone? ==> w.row.state.Pausing? || w.row.state.Paused? || w.row.state.Cancelling?)
          && !w.row.state.Ended())
    && (w.live && w.monitor.Gone? ==> w.cancelled)
  }

  predicate Inv(w: World) {
    RowInv(w.row, w.stage) && TokenInv(w)
  }

  lemma StepKeepsInv(w: World, s: Step)
    requires Inv(w) && Enabled(w, s)
    ensures Inv(Apply(w, s))
  {
  }

  lemma {:induction false} RunKeepsInv(w: World, run: seq<Step>, w': World)
    requires Inv(w) && Runs(w, run, w')
    ensures Inv(w')
    decreases |run|
  {
    if run != [] {
      StepKeepsInv(w, run[0]);
      RunKeepsInv(Apply(w, run[0]), run[1..], w');
    }
  }

  // ---------------------------------------------------------------- theorems

  /** The stage on record is the stage the worker is in, also while pausing or paused; and a session
      shown as paused with nothing pending has a paused token. */
  lemma RecordIsTrue(w: World, run: seq<Step>, w': World)
    requires Initial(w) && Runs(w, run, w')
    ensures w'.row.state.Active? ==> w'.row.state.stage == w'.stage
    ensures w'.row.state.Pausing? || w'.row.state.Paused? ==> w'.row.resume == Some(w'.stage)
    ensures w'.live && w'.row.state.Paused? && w'.row.request.NoRequest? ==> w'.paused
  {
    RunKeepsInv(w, run, w');
  }

  /** An acknowledged resume shows the worker's true stage and finds the token released. */
  lemma ResumeLandsOnTrueStage(w: World, run: seq<Step>, w': World)
    requires Initial(w) && Runs(w, run, w')
    requires w'.monitor == Signalled(ResumeRequest) && Acknowledge(w'.row, ResumeRequest).Some?
    ensures Apply(w', Confirm).row == Row(Active(w'.stage), NoRequest, None) && !Apply(w', Confirm).paused
  {
    RunKeepsInv(w, run, w');
  }

  /** When a request is accepted, and what it puts on record. */
  lemma RequestsAreAccepted(w: World, run: seq<Step>, w': World)
    requires Initial(w) && Runs(w, run, w')
    ensures Enabled(w', Ask(PauseRequest)) <==> w'.row.state.Active?
    ensures Enabled(w', Ask(ResumeRequest)) <==> w'.row.state == Pausing || w'.row.state == Paused
    ensures Enabled(w', Ask(CancelRequest)) <==>
              w'.row.state.Active? || w'.row.state in {Pausing, Paused, Cancelling}
    ensures forall action | Enabled(w', Ask(action)) ::
              && action != NoRequest
              && Apply(w', Ask(action)) == w'.(row := Apply(w', Ask(action)).row)
              && Apply(w', Ask(action)).row.request == action
              && (action == CancelRequest ==> Apply(w', Ask(action)).row.state == Cancelling)
  {
    RunKeepsInv(w, run, w');
  }

  /** The monitor notices what is asked for, signals the token and acknowledges. */
  ghost predicate Handles(w: World, action: Request, w': World) {
    && Enabled(w, Ask(action)) && Enabled(Apply(w, Ask(action)), Poll)
    && var read := Apply(Apply(w, Ask(action)), Poll);
       && Enabled(read, Signal) && Enabled(Apply(read, Signal), Confirm)
       && w' == Apply(Apply(read, Signal), Confirm)
  }

  /** An undisturbed pause holds the worker, and an undisturbed resume brings back exactly the state
      before the pause. */
  lemma PauseAndResume(w: World, run: seq<Step>, w': World) returns (held: World)
    requires Initial(w) && Runs(w, run, w')
    requires w'.live && !w'.cancelled && !w'.paused && w'.row.state.Active? && w'.monitor.Polling?
    ensures Handles(w', PauseRequest, held) && Holds(held) && held.row.state == Paused && held.row.request == NoRequest
    ensures Handles(held, ResumeRequest, w')
  {
    RunKeepsInv(w, run, w');
    held := Apply(Apply(Apply(Apply(w', Ask(PauseRequest)), Poll), Signal), Confirm);
  }

  /** The monitor's next step. */
  function MonitorStep(w: World): Step {
    match w.monitor
    case Polling => Poll
    case Read(_) => Signal
    case Signalled(_) => Confirm
    case Gone => Poll
  }

  /** Whatever the monitor has read, it is back at polling or gone after at most two of its own steps. */
  lemma MonitorComesBack(w: World)
    requires !w.monitor.Gone? && !w.monitor.Polling?
    ensures Enabled(w, MonitorStep(w))
    ensures var next := Apply(w, MonitorStep(w));
            || next.monitor == Polling || next.monitor == Gone
            || (Enabled(next, MonitorStep(next)) && Apply(next, MonitorStep(next)).monitor in {Polling, Gone})
  {
  }

  /** An undisturbed cancel releases the worker with an error, wherever the scan stands, and only ends it. */
  lemma CancelReleases(w: World, run: seq<Step>, w': World)
    requires Initial(w) && Runs(w, run, w')
    requires w'.monitor.Polling? && Enabled(w', Ask(CancelRequest))
    ensures var after := Apply(Apply(Apply(w', Ask(CancelRequest)), Poll), Signal);
            after.cancelled && !Holds(after) && after.monitor == Gone && after.row.state == Cancelling
  {
    RunKeepsInv(w, run, w');
  }

  /** Entering a stage never hides a pause, a cancellation or an end of the worker's own session. */
  lemma EnteringKeepsControl(w: World, run: seq<Step>, w': World, stage: Stage)
    requires Initial(w) && Runs(w, run, w') && w'.live && !w'.foreign
    ensures var after := Apply(w', Enter(stage));
            && after == w'.(row := after.row, stage := stage) && after.row.request == w'.row.request
            && (if w'.row.state.Active? then after.row.state == Active(stage) else after.row.state == w'.row.state)
  {
    RunKeepsInv(w, run, w');
  }

  /** Once cancelling, a session can only end. */
  lemma CancellingOnlyEnds(w: World, run: seq<Step>, w': World, s: Step)
    requires Initial(w) && Runs(w, run, w') && w'.row.state.Cancelling? && Enabled(w', s)
    ensures Apply(w', s).row == w'.row || Apply(w', s).row.state.Ended()
  {
    RunKeepsInv(w, run, w');
  }

  /** A session can be started over exactly when its process is gone and it was interrupted or blocked, and
      then it starts from the beginning. */
  lemma RestartStartsOver(w: World, run: seq<Step>, w': World)
    requires Initial(w) && Runs(w, run, w')
    ensures Enabled(w', Restart) <==> !w'.live && w'.monitor == Gone && (w'.row.state == Interrupted || w'.row.state == Blocked)
    ensures Enabled(w', Restart) ==> Apply(w', Restart) == w
  {
    RunKeepsInv(w, run, w');
  }

  /** Wherever a process crashes, the next start finds the session interrupted and can start it over, unless
      it was completed or cancelled. */
  lemma CrashIsRecoverable(w: World, run: seq<Step>, w': World)
    requires Initial(w) && Runs(w, run, w')
    ensures Enabled(w', Crash) && Enabled(Apply(w', Crash), Interrupt)
    ensures var found := Apply(Apply(w', Crash), Interrupt);
            if w'.row.state == Completed || w'.row.state == ScanState.Cancelled
            then found.row == w'.row && !Enabled(found, Restart)
            else Enabled(found, Restart) && Apply(found, Restart) == w
  {
    RunKeepsInv(w, run, w');
  }

  /** A monitor that fails takes the worker down with it instead of leaving it out of control. */
  lemma MonitorFailureCancels(w: World)
    ensures Enabled(w, MonitorFails) <==> w.monitor != Gone
    ensures Enabled(w, MonitorFails) ==>
              var after := Apply(w, MonitorFails);
              after.cancelled && after.monitor == Gone && !Holds(after) && after.row == w.row
  {
  }

  /** A live worker ends its session as completed, cancelled or blocked, and that is what is shown, with
      nothing left to ask for; a completed session can be blocked afterwards. */
  lemma EndIsRecorded(w: World, outcome: ScanState)
    ensures Enabled(w, Finish(outcome)) <==> w.live && outcome in {ScanState.Completed, ScanState.Cancelled, ScanState.Blocked}
    ensures Enabled(w, Finish(outcome)) ==>
              Apply(w, Finish(outcome)) == w.(row := Row(outcome, NoRequest, None), live := false)
    ensures Enabled(w, LateBlock) ==> Apply(w, LateBlock) == w.(row := Row(ScanState.Blocked, NoRequest, None))
  {
  }

  /** Once the worker is gone, only a request, its acknowledgement, an interruption or a restart changes the
      record, except that a completed session may still be blocked; an ended session keeps its end. */
  lemma RecordAfterWorker(w: World, run: seq<Step>, w': World, s: Step)
    requires Initial(w) && Runs(w, run, w') && !w'.live && Enabled(w', s) && s != Restart
    ensures var after := Apply(w', s);
            && (after.row != w'.row ==> s.Ask? || s.Confirm? || s.Interrupt? || w'.row.state == Completed)
            && (w'.row.state.Ended() && after.row != w'.row ==> w'.row.state == Completed && after.row.state == Blocked)
  {
    RunKeepsInv(w, run, w');
  }

  /** A checkpoint of this token holds its worker: only while paused and not cancelled. */
  predicate Holds(w: World) {
    w.live && w.paused && !w.cancelled
  }

  /** A worker shown as active is not held by its token, unless another process declared the session
      interrupted behind its back. A monitor that is gone makes no exception: it cancelled the token. */
  lemma ActiveWorkersAreReleased(w: World, run: seq<Step>, w': World)
    requires Initial(w) && Runs(w, run, w')
    ensures !w'.foreign && w'.row.state.Active? ==> !Holds(w')
    ensures w'.live && w'.monitor.Gone? ==> w'.cancelled
  {
    RunKeepsInv(w, run, w');
  }

  /** Shown as active with nothing pending, yet held. */
  predicate Stuck(w: World) {
    Holds(w) && w.row.state.Active?
  }

  /** Exactly which steps get a worker stuck: entering a stage of a session that was declared ended
      while the token held it, or signalling a pause that is no longer asked for. */
  lemma GetsStuckIff(w: World, run: seq<Step>, w': World, s: Step)
    requires Initial(w) && Runs(w, run, w') && !Stuck(w') && Enabled(w', s)
    ensures Stuck(Apply(w', s)) <==>
              || (s.Enter? && Holds(w') && w'.row.state.Ended())
              || (s.Signal? && w'.live && !w'.cancelled && w'.monitor == Read(PauseRequest) && w'.row.state.Active?)
  {
    RunKeepsInv(w, run, w');
  }

  /** An interruption declared by another process, followed by the worker's next stage, leaves a stuck
      worker exactly when the token held the worker before. */
  lemma ForeignInterruptSticksIff(w: World, run: seq<Step>, w': World, stage: Stage)
    requires Initial(w) && Runs(w, run, w') && w'.live && !w'.foreign
    ensures var after := Apply(Apply(w', Interrupt), Enter(stage));
            after.row == Row(Active(stage), NoRequest, None) && (Stuck(after) <==> Holds(w'))
  {
    RunKeepsInv(w, run, w');
  }

  /** The acknowledgement cancels the scan exactly when it finds another request than was read. */
  lemma ConfirmCancelsIff(w: World, run: seq<Step>, w': World)
    requires Initial(w) && Runs(w, run, w') && w'.monitor.Signalled?
    ensures Apply(w', Confirm).monitor.Gone? <==> w'.row.request != w'.monitor.request
    ensures w'.row.request != w'.monitor.request ==> Apply(w', Confirm).cancelled && Apply(w', Confirm).row == w'.row
  {
    RunKeepsInv(w, run, w');
  }

  ghost predicate Reaches(w: World, w': World) {
    exists run :: Runs(w, run, w')
  }

  lemma StepFirst(w: World, s: Step, w': World)
    requires Enabled(w, s) && Reaches(Apply(w, s), w')
    ensures Reaches(w, w')
  {
    var rest :| Runs(Apply(w, s), rest, w');
    assert ([s] + rest)[1..] == rest;
    assert Runs(w, [s] + rest, w');
  }

  /** The exception is real: a paused scan, interrupted by another process at startup, can show an active
      stage with nothing pending while its token holds every worker. */
  lemma ForeignInterruptHoldsWorkers(w: World, stage: Stage)
    requires Initial(w)
    ensures exists w' :: Reaches(w, w') && w'.live && w'.row == Row(Active(stage), NoRequest, None)
                         && w'.monitor.Polling? && w'.paused && !w'.cancelled
  {
    var pausing := Apply(w, Ask(PauseRequest));
    var read := Apply(pausing, Poll);
    var signalled := Apply(read, Signal);
    var pausedScan := Apply(signalled, Confirm);
    var interrupted := Apply(pausedScan, Interrupt);
    var held := Apply(interrupted, Enter(stage));
    assert Runs(held, [], held);
    StepFirst(interrupted, Enter(stage), held);
    StepFirst(pausedScan, Interrupt, held);
    StepFirst(signalled, Confirm, held);
    StepFirst(read, Signal, held);
    StepFirst(pausing, Poll, held);
    StepFirst(w, Ask(PauseRequest), held);
  }

  /** A resume that arrives between the pause signal and its acknowledgement cancels the scan. */
  lemma ResumeRaceCancels(w: World)
    requires Initial(w)
    ensures exists w' :: Reaches(w, w') && w'.cancelled && w'.monitor.Gone? && w'.row.request.ResumeRequest?
  {
    var pausing := Apply(w, Ask(PauseRequest));
    var read := Apply(pausing, Poll);
    var signalled := Apply(read, Signal);
    var resumed := Apply(signalled, Ask(ResumeRequest));
    var gone := Apply(resumed, Confirm);
    assert Runs(gone, [], gone);
    StepFirst(resumed, Confirm, gone);
    StepFirst(signalled, Ask(ResumeRequest), gone);
    StepFirst(read, Signal, gone);
    StepFirst(pausing, Poll, gone);
    StepFirst(w, Ask(PauseRequest), gone);
  }
}
