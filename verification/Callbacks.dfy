/**
 How a finished run is classified, which event reports it, and what a reader makes
 of that event, as `src/callback.rs` does it.
 */
module Callbacks {
  import opened Basics
  import opened TaskEvents
  import Dependencies
  import WaitSets

  datatype ReportOutcome = SaysSucceeded | SaysFailed | SaysBlocked | SaysWaiting

  datatype Report = Report(outcome: ReportOutcome, notifiedAt: Option<nat>)

  datatype ProcessPayload =
    | ProcessExit(code: int) | ProcessSignal(signal: int) | ProcessCancelled | SpawnFailed | RunnerLost

  /** Why a process ended, as its worker stored it. */
  datatype ExitReason = Exit(code: int) | Signal(signal: int) | Cancelled | NotSpawned

  datatype TaskState = Queued | Running | Finished(reason: ExitReason) | Lost | Preempted(reason: ExitReason)

  /** How an exit without reports is judged: an agent that must report, one that need not, or no agent. */
  datatype ExitPolicy = ReportingAgent | SilentAgent | NotAgent

  datatype TaskRow = TaskRow(state: TaskState, policy: ExitPolicy, cancelRequested: bool, checkDueAt: Option<nat>)

  datatype Parking = Parking(on: seq<TaskId>, continuation: TaskId)

  datatype ExitClass = ClassCancelled | ClassLost | ClassParked | ClassBlocked | ClassFailed | ClassNoReport | ClassSucceeded

  datatype NextAction = ReadReport | InspectTask | Nothing | InspectLog | AnswerAndResubmit | ReviewOutput

  /** The fields of an event that say what happened. */
  datatype Event = Event(
    kind: EventKind,
    reports: seq<ReportOutcome>,
    process: Option<ProcessPayload>,
    nextAction: NextAction,
    parking: Option<Parking>,
    cancelled: bool)

  datatype UnlaunchedEnding = HeldCancelled | LaunchRefused

  function PayloadOf(reason: ExitReason): ProcessPayload {
    match reason
    case Exit(code) => ProcessExit(code)
    case Signal(signal) => ProcessSignal(signal)
    case Cancelled => ProcessCancelled
    case NotSpawned => SpawnFailed
  }

  function Outcomes(reports: seq<Report>): (outcomes: seq<ReportOutcome>)
    ensures |outcomes| == |reports| && forall k | 0 <= k < |reports| :: outcomes[k] == reports[k].outcome
  {
    seq(|reports|, i requires 0 <= i < |reports| => reports[i].outcome)
  }

  function LastOutcome(reports: seq<Report>): Option<ReportOutcome> {
    if reports == [] then None else Some(reports[|reports|-1].outcome)
  }

  /** One class for every ending; cancellation and loss decide first, then the last report, then the exit code. */
  function ClassifyExit(process: Option<ProcessPayload>, reports: seq<Report>, policy: ExitPolicy, cancelRequested: bool): ExitClass {
    var exitZero := process == Some(ProcessExit(0));
    var last := LastOutcome(reports);
    if process == Some(ProcessCancelled) then ClassCancelled
    else if process == Some(RunnerLost) then ClassLost
    else if last == Some(SaysWaiting) then
      if cancelRequested then ClassCancelled
      else if exitZero && policy != NotAgent then ClassParked
      else ClassFailed
    else if last == Some(SaysBlocked) then ClassBlocked
    else if !exitZero then ClassFailed
    else match last
      case Some(SaysSucceeded) => ClassSucceeded
      case Some(_) => ClassFailed
      case None => if policy == ReportingAgent then ClassNoReport else ClassSucceeded
  }

  function EventOf(exit: ExitClass): (EventKind, NextAction) {
    match exit
    case ClassCancelled => (TaskCancelled, Nothing)
    case ClassLost => (TaskLost, InspectLog)
    case ClassParked => (TaskWaiting, Nothing)
    case ClassBlocked => (TaskBlocked, AnswerAndResubmit)
    case ClassFailed | ClassNoReport => (TaskFailed, InspectLog)
    case ClassSucceeded => (TaskSucceeded, ReviewOutput)
  }

  // ----- the builders -----

  function BuildEvent(row: TaskRow, reports: seq<Report>, process: Option<ProcessPayload>, parking: Option<Parking>): Event {
    var exit := ClassifyExit(process, reports, row.policy, row.cancelRequested);
    if exit == ClassParked && parking.None? then
      Event(TaskFailed, Outcomes(reports), process, InspectLog, None, false)
    else
      Event(EventOf(exit).0, Outcomes(reports), process, EventOf(exit).1,
            if exit == ClassParked then parking else None, false)
  }

  function StoredPayload(row: TaskRow): Option<ProcessPayload> {
    match row.state
    case Finished(reason) => Some(PayloadOf(reason))
    case Preempted(reason) => Some(PayloadOf(reason))
    case _ => None
  }

  function ExitEvent(row: TaskRow, reports: seq<Report>, parking: Option<Parking>): Event {
    BuildEvent(row, reports, StoredPayload(row), parking)
  }

  function LostEvent(row: TaskRow, reports: seq<Report>): Event {
    BuildEvent(row, reports, Some(RunnerLost), None)
  }

  function PreemptedEvent(row: TaskRow, reports: seq<Report>): Event {
    ExitEvent(row, reports, None).(kind := TaskPreempted, nextAction := Nothing)
  }

  function CheckDueEvent(reports: seq<Report>): Event {
    Event(TaskCheckDue, Outcomes(reports), None, InspectTask, None, false)
  }

  function NotifyEvent(report: Report): Event {
    Event(TaskReported, [report.outcome], None, ReadReport, None, false)
  }

  function UnlaunchedEvent(ending: UnlaunchedEnding): Event {
    match ending
    case HeldCancelled => Event(TaskCancelled, [], Some(ProcessCancelled), Nothing, None, true)
    case LaunchRefused => Event(TaskFailed, [], Some(SpawnFailed), Nothing, None, false)
  }

  /** The builder that applies to a row's state; a row without an ending is reported lost. */
  function TerminalEvent(row: TaskRow, reports: seq<Report>, parking: Option<Parking>): Event {
    match row.state
    case Finished(_) => ExitEvent(row, reports, parking)
    case Preempted(_) => PreemptedEvent(row, reports)
    case Queued | Running | Lost => LostEvent(row, reports)
  }

  /** The last report that was sent at once. */
  function LastNotified(reports: seq<Report>): Option<Report> {
    if reports == [] then None
    else if reports[|reports|-1].notifiedAt.Some? then Some(reports[|reports|-1])
    else LastNotified(reports[..|reports|-1])
  }

  /** The last event of a row, if the run ended or something interim was sent. */
  function LastEvent(row: TaskRow, reports: seq<Report>, parking: Option<Parking>): Option<Event> {
    match row.state
    case Queued | Running =>
      var notified := LastNotified(reports);
      if row.checkDueAt.Some? && notified.Some? && notified.value.notifiedAt.Some?
         && notified.value.notifiedAt.value > row.checkDueAt.value then Some(NotifyEvent(notified.value))
      else if row.checkDueAt.Some? then Some(CheckDueEvent(reports))
      else if notified.Some? then Some(NotifyEvent(notified.value))
      else None
    case _ => Some(TerminalEvent(row, reports, parking))
  }

  /** Every event some builder can produce. */
  ghost predicate Built(event: Event) {
    || (exists row, reports, parking :: event == TerminalEvent(row, reports, parking))
    || (exists reports :: event == CheckDueEvent(reports))
    || (exists report :: event == NotifyEvent(report))
    || (exists ending :: event == UnlaunchedEvent(ending))
  }

  // ----- the whole table, from a row to its event -----

  ghost predicate Tells(event: Event, kind: EventKind, next: NextAction, process: Option<ProcessPayload>,
                        parking: Option<Parking>)
  {
    event.kind == kind && event.nextAction == next && event.process == process && event.parking == parking
  }

  /** How an ending is written into an event. */
  ghost function WrittenAs(reason: ExitReason): ProcessPayload {
    match reason
    case Exit(code) => ProcessExit(code)
    case Signal(signal) => ProcessSignal(signal)
    case Cancelled => ProcessCancelled
    case NotSpawned => SpawnFailed
  }

  /** What each terminal row's event says, by its ending, its last report, its workload and its cancel request. */
  lemma TerminalEventTable(row: TaskRow, reports: seq<Report>, parking: Option<Parking>)
    ensures var event := TerminalEvent(row, reports, parking);
            var last := if reports == [] then None else Some(reports[|reports|-1].outcome);
            && !event.cancelled
            && |event.reports| == |reports| && (forall k | 0 <= k < |reports| :: event.reports[k] == reports[k].outcome)
            && match row.state
               case Queued | Running | Lost => Tells(event, TaskLost, InspectLog, Some(RunnerLost), None)
               case Preempted(reason) =>
                 event.kind == TaskPreempted && event.nextAction == Nothing && event.process == Some(WrittenAs(reason))
               case Finished(reason) =>
                 var process := Some(WrittenAs(reason));
                 if reason == Cancelled || (last == Some(SaysWaiting) && row.cancelRequested) then
                   Tells(event, TaskCancelled, Nothing, process, None)
                 else if last == Some(SaysWaiting) && reason == Exit(0) && row.policy != NotAgent && parking.Some? then
                   Tells(event, TaskWaiting, Nothing, process, parking)
                 else if last == Some(SaysBlocked) then
                   Tells(event, TaskBlocked, AnswerAndResubmit, process, None)
                 else if reason == Exit(0) && (last == Some(SaysSucceeded) || (last == None && row.policy != ReportingAgent)) then
                   Tells(event, TaskSucceeded, ReviewOutput, process, None)
                 else
                   Tells(event, TaskFailed, InspectLog, process, None)
  {
  }

  /** The report that was sent at once most recently. */
  ghost predicate IsLastNotified(reports: seq<Report>, k: nat) {
    && k < |reports| && reports[k].notifiedAt.Some?
    && forall j | k < j < |reports| :: reports[j].notifiedAt.None?
  }

  lemma {:induction false} LastNotifiedIs(reports: seq<Report>)
    ensures LastNotified(reports).None? <==> forall j | 0 <= j < |reports| :: reports[j].notifiedAt.None?
    ensures forall k: nat :: IsLastNotified(reports, k) ==> LastNotified(reports) == Some(reports[k])
    ensures LastNotified(reports).Some? ==> exists k: nat :: IsLastNotified(reports, k)
  {
    if reports != [] {
      var n := |reports| - 1;
      LastNotifiedIs(reports[..n]);
      if reports[n].notifiedAt.Some? {
        assert IsLastNotified(reports, n);
      } else {
        assert forall k: nat :: IsLastNotified(reports, k) <==> IsLastNotified(reports[..n], k);
      }
    }
  }

  /** A running row shows its last interim report, or the reminder if that came at the same time or later. */
  lemma LastEventOfRunning(row: TaskRow, reports: seq<Report>, parking: Option<Parking>)
    requires row.state == Queued || row.state == Running
    ensures var event := LastEvent(row, reports, parking);
            var reminded := row.checkDueAt;
            if exists k: nat :: IsLastNotified(reports, k) && (reminded.Some? ==> reports[k].notifiedAt.value > reminded.value) then
              exists k: nat :: IsLastNotified(reports, k) && event.Some? && event.value.reports == [reports[k].outcome]
                               && Tells(event.value, TaskReported, ReadReport, None, None)
            else if reminded.Some? then
              event.Some? && Tells(event.value, TaskCheckDue, InspectTask, None, None) && |event.value.reports| == |reports|
            else event == None
  {
    LastNotifiedIs(reports);
  }

  /** A task that never launched says so: held and cancelled, or refused at launch. */
  lemma UnlaunchedEventTable(ending: UnlaunchedEnding)
    ensures var event := UnlaunchedEvent(ending);
            && event.reports == []
            && match ending
               case HeldCancelled => event.cancelled && Tells(event, TaskCancelled, Nothing, Some(ProcessCancelled), None)
               case LaunchRefused => !event.cancelled && Tells(event, TaskFailed, Nothing, Some(SpawnFailed), None)
  {
  }

  /** What is sent while a task runs ends no wait and names no outcome; what is sent without a launch does both. */
  lemma OnlyEndingsEnd(report: Report, reports: seq<Report>, ending: UnlaunchedEnding)
    ensures forall event :: event in {NotifyEvent(report), CheckDueEvent(reports)} ==>
              !WaitSets.EndsWait(event.kind) && Dependencies.OutcomeOf(event.kind) == None
    ensures var event := UnlaunchedEvent(ending);
            && WaitSets.EndsWait(event.kind)
            && Dependencies.OutcomeOf(event.kind) ==
               Some(if ending.HeldCancelled? then Dependencies.Cancelled else Dependencies.Failed)
  {
  }

  /** A task held until success is cancelled with the very ending that its dependency's run came to. */
  lemma CancelNamesTheEnding(ending: Ending, decision: Dependencies.HeldDecision)
    requires Dependencies.Decides([(ending.task, ending.State())], Dependencies.OnSuccess, decision)
    ensures var told := (outcome: Dependencies.TaskOutcome) => Dependencies.Cancel(ending.task, Dependencies.Known(outcome));
            decision == match TerminalEvent(ending.row, ending.reports, ending.parking).kind
                        case TaskSucceeded => Dependencies.Release
                        case TaskFailed => told(Dependencies.Failed)
                        case TaskBlocked => told(Dependencies.Blocked)
                        case TaskCancelled => told(Dependencies.Cancelled)
                        case TaskLost => told(Dependencies.Lost)
                        case TaskPreempted => told(Dependencies.Preempted)
                        case TaskWaiting | TaskReported | TaskCheckDue => Dependencies.Wait
  {
    hide TerminalEvent;
    var states: Dependencies.States := [(ending.task, ending.State())];
    assert states[0].1 == ending.State();
    if ending.State().Ended? && ending.State().outcome != Dependencies.Known(Dependencies.Succeeded) {
      assert Dependencies.FirstFailure(states, Dependencies.OnSuccess, 0);
      Dependencies.DecisionIsDetermined(states, Dependencies.OnSuccess, decision,
                                        Dependencies.Cancel(ending.task, ending.State().outcome));
    }
  }

  // ----- what a reader derives -----

  /** Whether an event's own fields imply that a required report is missing. */
  predicate DerivesNoReport(event: Event) {
    event.kind == TaskFailed && event.process == Some(ProcessExit(0)) && event.reports == []
  }

  /** Each class, told by the ending and the last report alone. */
  lemma ClassTable(process: Option<ProcessPayload>, reports: seq<Report>, policy: ExitPolicy, cancelRequested: bool)
    ensures var exit := ClassifyExit(process, reports, policy, cancelRequested);
            var last, exitZero := LastOutcome(reports), process == Some(ProcessExit(0));
            var ran := process != Some(ProcessCancelled) && process != Some(RunnerLost);
            && (exit == ClassLost <==> process == Some(RunnerLost))
            && (exit == ClassCancelled <==>
                process == Some(ProcessCancelled) || (ran && last == Some(SaysWaiting) && cancelRequested))
            && (exit == ClassParked <==> exitZero && last == Some(SaysWaiting) && !cancelRequested && policy != NotAgent)
            && (exit == ClassBlocked <==> ran && last == Some(SaysBlocked))
            && (exit == ClassNoReport <==> exitZero && last == None && policy == ReportingAgent)
            && (exit == ClassSucceeded <==>
                exitZero && (last == Some(SaysSucceeded) || (last == None && policy != ReportingAgent)))
  {
  }

  /** The reason a reader derives is the class the executor gave, for every event built from an exit. */
  lemma DerivedReasonIsTheClass(row: TaskRow, reports: seq<Report>, process: Option<ProcessPayload>, parking: Option<Parking>)
    ensures DerivesNoReport(BuildEvent(row, reports, process, parking)) <==>
            ClassifyExit(process, reports, row.policy, row.cancelRequested) == ClassNoReport
  {
    assert |Outcomes(reports)| == |reports|;
  }

  /** Over all builders, only the exit event of a finished run that did not report derives the reason. */
  lemma DerivedReasonAnywhere(row: TaskRow, reports: seq<Report>, parking: Option<Parking>)
    ensures DerivesNoReport(TerminalEvent(row, reports, parking)) <==>
            row.state.Finished?
            && ClassifyExit(StoredPayload(row), reports, row.policy, row.cancelRequested) == ClassNoReport
    ensures !DerivesNoReport(CheckDueEvent(reports))
    ensures forall report :: !DerivesNoReport(NotifyEvent(report))
    ensures forall ending :: !DerivesNoReport(UnlaunchedEvent(ending))
    ensures LastEvent(row, reports, parking).Some? && DerivesNoReport(LastEvent(row, reports, parking).value) <==>
            row.state.Finished?
            && ClassifyExit(StoredPayload(row), reports, row.policy, row.cancelRequested) == ClassNoReport
  {
    DerivedReasonIsTheClass(row, reports, StoredPayload(row), parking);
    DerivedReasonIsTheClass(row, reports, Some(RunnerLost), None);
  }

  /** A preempted run that never reported is classified `NoReport`, yet its event derives nothing. */
  lemma PreemptionHidesMissingReport(row: TaskRow)
    requires row.state == Preempted(Exit(0)) && row.policy == ReportingAgent
    ensures ClassifyExit(StoredPayload(row), [], row.policy, row.cancelRequested) == ClassNoReport
    ensures !DerivesNoReport(TerminalEvent(row, [], None))
  {
  }

  // ----- what the event releases -----

  /** The run ended well enough for an `after` task: exit 0, and it said so or did not have to. */
  ghost predicate EndedWell(row: TaskRow, reports: seq<Report>) {
    && row.state == Finished(Exit(0))
    && (LastOutcome(reports) == Some(SaysSucceeded) || (reports == [] && row.policy != ReportingAgent))
  }

  /** A terminal event names success exactly when its run ended well. */
  lemma SuccessMeansEndedWell(row: TaskRow, reports: seq<Report>, parking: Option<Parking>)
    ensures Dependencies.OutcomeOf(TerminalEvent(row, reports, parking).kind) == Some(Dependencies.Succeeded) <==>
            EndedWell(row, reports)
  {
    ClassTable(StoredPayload(row), reports, row.policy, row.cancelRequested);
    ClassTable(Some(RunnerLost), reports, row.policy, row.cancelRequested);
  }

  /** Among all events any builder can produce, only the exit of a run that ended well names success. */
  lemma OnlyGoodEndingsSucceed(event: Event)
    requires Built(event) && Dependencies.OutcomeOf(event.kind) == Some(Dependencies.Succeeded)
    ensures exists row, reports, parking :: event == TerminalEvent(row, reports, parking) && EndedWell(row, reports)
  {
    var row, reports, parking :| event == TerminalEvent(row, reports, parking);
    SuccessMeansEndedWell(row, reports, parking);
  }

  /** Parking yields no outcome and carries the saved handover, or counts as failure when none was saved. */
  lemma ParkedNamesNoOutcome(row: TaskRow, reports: seq<Report>, parking: Option<Parking>)
    requires row.state.Finished?
    requires ClassifyExit(StoredPayload(row), reports, row.policy, row.cancelRequested) == ClassParked
    ensures var event := TerminalEvent(row, reports, parking);
            if parking.Some? then Dependencies.OutcomeOf(event.kind) == None && event.parking == parking
            else Dependencies.OutcomeOf(event.kind) == Some(Dependencies.Failed) && event.parking == None
  {
  }

  /** Only a parked run hands over, and only it leaves its waiters waiting. */
  lemma WaitsEndWithOutcomes(row: TaskRow, reports: seq<Report>, parking: Option<Parking>)
    ensures var event := TerminalEvent(row, reports, parking);
            && (WaitSets.EndsWait(event.kind) <==> Dependencies.OutcomeOf(event.kind).Some?)
            && (event.parking.Some? <==> event.kind == TaskWaiting)
            && (event.kind == TaskWaiting <==>
                row.state.Finished? && parking.Some?
                && ClassifyExit(StoredPayload(row), reports, row.policy, row.cancelRequested) == ClassParked)
  {
    ClassTable(StoredPayload(row), reports, row.policy, row.cancelRequested);
    ClassTable(Some(RunnerLost), reports, row.policy, row.cancelRequested);
  }

  /** What the origin knows of a dependency whose terminal event it has. */
  datatype Ending = Ending(task: TaskId, row: TaskRow, reports: seq<Report>, parking: Option<Parking>) {
    function State(): Dependencies.DependencyState {
      match Dependencies.OutcomeOf(TerminalEvent(row, reports, parking).kind)
      case Some(outcome) => Dependencies.Ended(Dependencies.Known(outcome))
      case None => Dependencies.Pending
    }
  }

  ghost function StatesOf(endings: seq<Ending>): (states: Dependencies.States)
    ensures |states| == |endings| && forall k | 0 <= k < |endings| :: states[k] == (endings[k].task, endings[k].State())
  {
    seq(|endings|, i requires 0 <= i < |endings| => (endings[i].task, endings[i].State()))
  }

  /** A held `after` task is released exactly when every run it depends on ended well. */
  lemma ReleaseMeansAllEndedWell(endings: seq<Ending>, decision: Dependencies.HeldDecision)
    requires Dependencies.Decides(StatesOf(endings), Dependencies.OnSuccess, decision)
    ensures decision == Dependencies.Release <==>
            forall k | 0 <= k < |endings| :: EndedWell(endings[k].row, endings[k].reports)
  {
    var states := StatesOf(endings);
    forall k | 0 <= k < |endings|
      ensures Dependencies.Satisfies(Dependencies.OnSuccess, states[k].1) <==> EndedWell(endings[k].row, endings[k].reports)
    {
      SuccessMeansEndedWell(endings[k].row, endings[k].reports, endings[k].parking);
    }
    if forall k | 0 <= k < |endings| :: EndedWell(endings[k].row, endings[k].reports) {
      assert Dependencies.Decides(states, Dependencies.OnSuccess, Dependencies.Release);
      Dependencies.DecisionIsDetermined(states, Dependencies.OnSuccess, decision, Dependencies.Release);
    }
  }

  // ----- a wait that follows a chain of parked runs -----

  /** The wait event that delivers a run's terminal event. */
  function Delivered(ending: Ending): WaitSets.WaitEvent {
    var event := TerminalEvent(ending.row, ending.reports, ending.parking);
    WaitSets.TaskEvent(ending.task, event.kind, if event.parking.Some? then Some(event.parking.value.continuation) else None)
  }

  predicate Parks(ending: Ending) {
    TerminalEvent(ending.row, ending.reports, ending.parking).kind == TaskWaiting
  }

  /** A run that parks names a continuation; any other ends the wait for it. */
  lemma DeliveredEndsOrParks(ending: Ending)
    ensures var event := Delivered(ending);
            && event.TaskEvent? && event.task == ending.task && (event.kind == TaskWaiting <==> Parks(ending))
            && (event.continuation.Some? <==> Parks(ending)) && (WaitSets.EndsWait(event.kind) <==> !Parks(ending))
    ensures ending.State().Pending? <==> Parks(ending)
  {
    WaitsEndWithOutcomes(ending.row, ending.reports, ending.parking);
  }

  /** Each run but the last parks and hands over to the next; the last one does not park. */
  ghost predicate IsChain(chain: seq<Ending>) {
    && chain != []
    && (forall i, j | 0 <= i < j < |chain| :: chain[i].task != chain[j].task)
    && (forall k | 0 <= k < |chain| - 1 :: Parks(chain[k]) && Delivered(chain[k]).continuation == Some(chain[k+1].task))
    && !Parks(chain[|chain|-1])
  }

  ghost predicate InChain(chain: seq<Ending>, key: WaitSets.WaitKey) {
    key.Task? && exists k :: 0 <= k < |chain| && chain[k].task == key.task
  }

  /**
   A step that leaves the chain where it is: a reconnect, an interim event of the current
   run, any event of a run that is not current, such as one delivered again, or one of
   something else.
   */
  ghost predicate IsAside(chain: seq<Ending>, n: nat, step: WaitSets.Step) {
    match step
    case Reconnect => true
    case Arrive(JobEvent(_, _)) => true
    case Arrive(TaskEvent(task, kind, continuation)) =>
      if InChain(chain, WaitSets.Task(task)) then
        n < |chain| && task == chain[n].task ==> kind == TaskReported || kind == TaskCheckDue
      else continuation.Some? ==> !InChain(chain, WaitSets.Task(continuation.value))
  }

  /** The steps deliver the terminal events of the first `n` runs, in order, with anything aside in between. */
  ghost predicate Follows(chain: seq<Ending>, n: nat, steps: seq<WaitSets.Step>) {
    if steps == [] then n == 0
    else
      var init, last := steps[..|steps|-1], steps[|steps|-1];
      || (IsAside(chain, n, last) && Follows(chain, n, init))
      || (0 < n <= |chain| && last == WaitSets.Arrive(Delivered(chain[n-1])) && Follows(chain, n - 1, init))
  }

  /** What a wait holds of the chain after `n` terminal events: the current run, or nothing once the last has ended. */
  ghost predicate HoldsCurrent(chain: seq<Ending>, n: nat, pending: set<WaitSets.WaitKey>) {
    forall key :: InChain(chain, key) ==> (key in pending <==> n < |chain| && key == WaitSets.Task(chain[n].task))
  }

  lemma {:induction false} FollowsWithin(chain: seq<Ending>, n: nat, steps: seq<WaitSets.Step>)
    requires Follows(chain, n, steps)
    ensures n <= |chain|
  {
    if steps != [] && n > |chain| {
      FollowsWithin(chain, n, steps[..|steps|-1]);
    }
  }

  lemma AsideKeepsCurrent(chain: seq<Ending>, n: nat, pending: set<WaitSets.WaitKey>, event: WaitSets.WaitEvent)
    requires HoldsCurrent(chain, n, pending) && IsAside(chain, n, WaitSets.Arrive(event))
    ensures HoldsCurrent(chain, n, WaitSets.SetApply(pending, event).0)
  {
  }

  /** The terminal event of the current run hands the wait on, or ends it with the chain. */
  lemma DeliveryMovesOn(chain: seq<Ending>, n: nat, pending: set<WaitSets.WaitKey>)
    requires IsChain(chain) && n < |chain| && HoldsCurrent(chain, n, pending)
    ensures HoldsCurrent(chain, n + 1, WaitSets.SetApply(pending, Delivered(chain[n])).0)
    ensures WaitSets.SetApply(pending, Delivered(chain[n])).1 ==
            if n + 1 < |chain| then Some(chain[n+1].task) else None
  {
    hide Delivered, Parks;
    DeliveredEndsOrParks(chain[n]);
    assert InChain(chain, WaitSets.Task(chain[n].task));
    if n + 1 < |chain| {
      assert InChain(chain, WaitSets.Task(chain[n+1].task));
    }
  }

  /**
   A wait on the first task of a chain stays pending, on exactly the current run,
   through any number of parked runs, interim events, unrelated events and reconnects;
   it leaves the chain exactly when the first run that does not park has ended.
   */
  lemma {:induction false} WaitFollowsTheChain(chain: seq<Ending>, n: nat, targets: seq<WaitSets.WaitKey>, steps: seq<WaitSets.Step>)
    requires IsChain(chain) && NoDuplicates(targets) && HoldsCurrent(chain, 0, WaitSets.Keys(targets))
    requires Follows(chain, n, steps)
    ensures HoldsCurrent(chain, n, WaitSets.Keys(WaitSets.ListRun(targets, steps).0))
  {
    hide IsChain, HoldsCurrent, IsAside;
    WaitSets.WaitIsItsSet(targets, steps);
    if steps != [] {
      var init, last := steps[..|steps|-1], steps[|steps|-1];
      WaitSets.WaitIsItsSet(targets, init);
      var pending := WaitSets.SetRun(WaitSets.Keys(targets), init).0;
      if IsAside(chain, n, last) && Follows(chain, n, init) {
        WaitFollowsTheChain(chain, n, targets, init);
        if last.Arrive? {
          AsideKeepsCurrent(chain, n, pending, last.event);
        }
      } else {
        WaitFollowsTheChain(chain, n - 1, targets, init);
        DeliveryMovesOn(chain, n - 1, pending);
      }
    }
  }

  /** A wait that held nothing but the first task never holds anything outside the chain. */
  lemma {:induction false} LoneWaitIsInChain(chain: seq<Ending>, n: nat, first: WaitSets.WaitKey, steps: seq<WaitSets.Step>)
    requires IsChain(chain) && Follows(chain, n, steps) && first == WaitSets.Task(chain[0].task)
    ensures HoldsCurrent(chain, n, WaitSets.SetRun({first}, steps).0)
    ensures forall key :: key in WaitSets.SetRun({first}, steps).0 ==> InChain(chain, key)
  {
    hide IsChain, InChain, IsAside, Delivered, HoldsCurrent, WaitSets.SetApply, WaitSets.ListRun;
    FirstIsCurrent(chain, first);
    WaitFollowsTheChain(chain, n, [first], steps);
    WaitSets.WaitIsItsSet([first], steps);
    if steps != [] {
      var init, last := steps[..|steps|-1], steps[|steps|-1];
      if IsAside(chain, n, last) && Follows(chain, n, init) {
        LoneWaitIsInChain(chain, n, first, init);
        if last.Arrive? {
          AsideAddsNothing(chain, n, WaitSets.SetRun({first}, init).0, last);
        }
      } else {
        LoneWaitIsInChain(chain, n - 1, first, init);
        FollowsWithin(chain, n, steps);
        StaysInChain(chain, n - 1, WaitSets.SetRun({first}, init).0);
      }
    }
  }

  lemma StaysInChain(chain: seq<Ending>, n: nat, pending: set<WaitSets.WaitKey>)
    requires IsChain(chain) && n < |chain| && forall key :: key in pending ==> InChain(chain, key)
    ensures forall key :: key in WaitSets.SetApply(pending, Delivered(chain[n])).0 ==> InChain(chain, key)
  {
    hide Delivered, Parks;
    DeliveredEndsOrParks(chain[n]);
    if n + 1 < |chain| {
      assert InChain(chain, WaitSets.Task(chain[n+1].task));
    }
  }

  lemma AsideAddsNothing(chain: seq<Ending>, n: nat, pending: set<WaitSets.WaitKey>, step: WaitSets.Step)
    requires IsAside(chain, n, step) && step.Arrive? && HoldsCurrent(chain, n, pending)
    requires forall key :: key in pending ==> InChain(chain, key)
    ensures WaitSets.SetApply(pending, step.event).0 <= pending
  {
    hide InChain;
  }

  /** A client that waits on one task is done exactly when its chain is, and then an outcome is known. */
  lemma LoneWaitEndsWithTheChain(chain: seq<Ending>, n: nat, steps: seq<WaitSets.Step>)
    requires IsChain(chain) && Follows(chain, n, steps)
    ensures var pending := WaitSets.ListRun([WaitSets.Task(chain[0].task)], steps).0;
            && (pending == [] <==> n == |chain|)
            && (n < |chain| ==> pending == [WaitSets.Task(chain[n].task)])
    ensures chain[|chain|-1].State().Ended? && forall k | 0 <= k < |chain| - 1 :: chain[k].State().Pending?
  {
    hide Follows, Delivered, Parks, WaitSets.ListRun, WaitSets.SetRun;
    forall k | 0 <= k < |chain| ensures chain[k].State().Pending? <==> Parks(chain[k]) {
      DeliveredEndsOrParks(chain[k]);
    }
    var first := WaitSets.Task(chain[0].task);
    var pending := WaitSets.ListRun([first], steps).0;
    FollowsWithin(chain, n, steps);
    FirstIsCurrent(chain, first);
    WaitFollowsTheChain(chain, n, [first], steps);
    WaitSets.WaitIsItsSet([first], steps);
    LoneWaitIsInChain(chain, n, first, steps);
    assert forall key :: key in pending <==> key in WaitSets.Keys(pending);
    if pending != [] {
      assert pending[0] in pending && pending == [pending[0]];
    }
    if n < |chain| {
      assert InChain(chain, WaitSets.Task(chain[n].task));
    }
  }

  lemma FirstIsCurrent(chain: seq<Ending>, first: WaitSets.WaitKey)
    requires IsChain(chain) && first == WaitSets.Task(chain[0].task)
    ensures InChain(chain, first) && WaitSets.Keys([first]) == {first} && HoldsCurrent(chain, 0, {first})
  {
    hide Delivered, Parks;
  }
}
