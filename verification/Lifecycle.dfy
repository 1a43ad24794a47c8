/** The lifecycle machines of runs, work items and human tasks (codegen/transitions.ts).
    An undefined combination of state, event and guard (`IllegalTransition`) is `None`. */
module Lifecycle {
  import opened IrelSyntax

  datatype RunState =
    | Queued | Claimed | Running | Suspending | Suspended | ResumeRequested | Resuming
    | Completing | Completed | Aborting | Cancelled | FailedBusiness | FailedSystem

  datatype WorkitemState = New | Processing | Successful | Retry | ItemFailedBusiness | ItemFailedSystem | Abandoned

  datatype TaskState = Open | Assigned | InProgress | Resolved | Expired | TaskCancelled | Escalated

  datatype TaskKind = Approval | Validation | Exception | Captcha | Mfa

  datatype RunEvent =
    | WorkerClaimed | RunStarted | InitFailed
    | ChallengeDetected(challenge: Option<TaskKind>) | HumanTaskRequired(task: Option<TaskKind>)
    | OperatorPauseRequested | AbortRequested | LastNodeSuccess
    | UnrecoverableException | BusinessException | SecurityException
    | BookmarkSaved | BookmarkFailed
    | HumanTaskResolved | HumanTaskExpired | HumanTaskEscalated
    | RestoreOk | RestoreFailed | FinalizeOk | FinalizeFailed | DrainOk | DrainTimeout

  datatype WorkitemEvent =
    | Checkout | RunSucceeded | ItemBusinessException | SystemException | CheckoutExpired
    | RunSuspended | RunResumed | ManualReplay

  datatype TaskEvent = Assign | Start | ResolveTask | Timeout | Escalate | CancelTask

  datatype ExceptionClass = ClassBusiness | ClassSystem | ClassChallenge | ClassSecurity | ClassNone

  /** Guards the source tests for truth are booleans (absent is false); those it requires are optional. */
  datatype RunGuard = RunGuard(
    leaseAcquired: bool, initOk: bool, initFailBelowThreshold: Option<bool>, flowTerminalReached: bool,
    exceptionClass: Option<ExceptionClass>, resumeTokenIssued: bool, humanTaskValid: bool, restoreOk: bool,
    loginBypassPossible: Option<bool>, finalizeOk: bool, bookmarkCancelable: bool)

  datatype WorkitemGuard = WorkitemGuard(
    uniqueReferenceFree: bool, sinkPolicyMet: bool, attemptsBelowMax: Option<bool>, backoffElapsed: bool,
    operatorAuthorized: bool)

  datatype OnTimeout = Fail | EscalateTask

  datatype TaskGuard = TaskGuard(onTimeout: Option<OnTimeout>)

  /** The event types the machines emit. */
  datatype EventType =
    | RunStartedE | RunSuspendedE | RunResumeRequestedE | RunResumedE | RunCancelledE | RunCompletedE
    | RunFailedBusinessE | RunFailedSystemE
    | TaskResolvedE | TaskExpiredE | TaskEscalatedE
    | WorkitemCompletedE | WorkitemDeadLetteredE

  datatype Command =
    | Emit(event: EventType)
    | SetField(field: string) | Requeue | OpenCircuit | EvaluateDeadLetter | CreateDeadLetter
    | CreateHumanTask(kind: TaskKind) | StartBookmark | IssueResumeToken | SseClose | BrowserDrain
    | ReleaseLease | KillLease | RestoreSession | FlushArtifacts | FinalizeOutputs | UsageFlush
    | ResetStepLoopCounters | PauseCheckoutTimer | ResumeCheckoutTimer | ReassignAssignee
    | CaptureFailureScreenshot | ConsistencyRecovery | RejectCommand | Notify

  datatype Transition<S> = To(next: S, commands: seq<Command>)

  function TransitionRun(cur: RunState, ev: RunEvent, g: RunGuard): Option<Transition<RunState>> {
    match cur
    case Queued =>
      if ev == WorkerClaimed && g.leaseAcquired then Some(To(Claimed, [SetField("worker_id")])) else None
    case Claimed =>
      if ev == RunStarted && g.initOk then Some(To(Running, [Emit(RunStartedE)]))
      else if ev == InitFailed && g.initFailBelowThreshold == Some(true) then Some(To(Queued, [Requeue]))
      else if ev == InitFailed && g.initFailBelowThreshold == Some(false)
      then Some(To(FailedSystem, [OpenCircuit, EvaluateDeadLetter, Emit(RunFailedSystemE)]))
      else None
    case Running =>
      (match ev
       case ChallengeDetected(c) =>
         Some(To(Suspending, [CreateHumanTask(if c.Some? then c.value else Captcha), StartBookmark]))
       case HumanTaskRequired(t) =>
         Some(To(Suspending, [CreateHumanTask(if t.Some? then t.value else Exception), StartBookmark]))
       case OperatorPauseRequested => Some(To(Suspending, [StartBookmark]))
       case AbortRequested => Some(To(Aborting, [SseClose, BrowserDrain]))
       case LastNodeSuccess => if g.flowTerminalReached then Some(To(Completing, [FinalizeOutputs])) else None
       case UnrecoverableException =>
         if g.exceptionClass == Some(ClassSystem)
         then Some(To(FailedSystem, [CaptureFailureScreenshot, EvaluateDeadLetter, Emit(RunFailedSystemE)])) else None
       case BusinessException =>
         if g.exceptionClass == Some(ClassBusiness) then Some(To(FailedBusiness, [Emit(RunFailedBusinessE)])) else None
       case SecurityException =>
         if g.exceptionClass == Some(ClassSecurity) then Some(To(Aborting, [SseClose, BrowserDrain, Notify])) else None
       case _ => None)
    case Suspending =>
      if ev == BookmarkSaved && g.resumeTokenIssued
      then Some(To(Suspended, [IssueResumeToken, ReleaseLease, Emit(RunSuspendedE)]))
      else if ev == BookmarkFailed then Some(To(FailedSystem, [ConsistencyRecovery, Emit(RunFailedSystemE)]))
      else if ev == AbortRequested && g.bookmarkCancelable then Some(To(Aborting, [SseClose, BrowserDrain]))
      else None
    case Suspended =>
      if ev == HumanTaskResolved && g.humanTaskValid then Some(To(ResumeRequested, [Emit(RunResumeRequestedE)]))
      else if ev == HumanTaskExpired
      then Some(To(FailedBusiness, [EvaluateDeadLetter, Notify, Emit(RunFailedBusinessE)]))
      else if ev == HumanTaskEscalated then Some(To(Suspended, [ReassignAssignee]))
      else if ev == AbortRequested then Some(To(Aborting, []))
      else None
    case ResumeRequested =>
      if ev == WorkerClaimed && g.leaseAcquired then Some(To(Resuming, [RestoreSession]))
      else if ev == AbortRequested then Some(To(Aborting, []))
      else None
    case Resuming =>
      if ev == RestoreOk && g.restoreOk then Some(To(Running, [Emit(RunResumedE)]))
      else if ev == RestoreFailed && g.loginBypassPossible == Some(true) then Some(To(Running, [Emit(RunResumedE)]))
      else if ev == RestoreFailed && g.loginBypassPossible == Some(false)
      then Some(To(FailedSystem, [Emit(RunFailedSystemE)]))
      else if ev == AbortRequested then Some(To(Aborting, [SseClose, BrowserDrain]))
      else None
    case Completing =>
      if ev == FinalizeOk && g.finalizeOk
      then Some(To(Completed, [FlushArtifacts, FinalizeOutputs, UsageFlush, Emit(RunCompletedE)]))
      else if ev == FinalizeFailed then Some(To(FailedSystem, [ConsistencyRecovery, Emit(RunFailedSystemE)]))
      else if ev == AbortRequested then Some(To(Completing, [RejectCommand]))
      else None
    case Aborting =>
      if ev == DrainOk then Some(To(Cancelled, [ReleaseLease, Emit(RunCancelledE)]))
      else if ev == DrainTimeout then Some(To(Cancelled, [KillLease, Emit(RunCancelledE)]))
      else None
    case _ => None
  }

  function TransitionWorkitem(cur: WorkitemState, ev: WorkitemEvent, g: WorkitemGuard)
    : Option<Transition<WorkitemState>>
  {
    match cur
    case New =>
      if ev == Checkout && g.uniqueReferenceFree
      then Some(To(Processing, [SetField("checked_out_by"), SetField("checked_out_at")]))
      else None
    case Processing =>
      (match ev
       case RunSucceeded => if g.sinkPolicyMet then Some(To(Successful, [Emit(WorkitemCompletedE)])) else None
       case ItemBusinessException => Some(To(ItemFailedBusiness, []))
       case SystemException => Exhausted(g)
       case CheckoutExpired => Exhausted(g)
       case RunSuspended => Some(To(Processing, [PauseCheckoutTimer]))
       case RunResumed => Some(To(Processing, [ResumeCheckoutTimer]))
       case _ => None)
    case Retry =>
      if ev == Checkout && g.backoffElapsed
      then Some(To(Processing, [ResetStepLoopCounters, SetField("checked_out_by"), SetField("checked_out_at")]))
      else None
    case Abandoned =>
      if ev == ManualReplay && g.operatorAuthorized then Some(To(New, [SetField("attempts")])) else None
    case _ => None
  }

  /** Retry while attempts remain, else give up with a dead letter. */
  function Exhausted(g: WorkitemGuard): Option<Transition<WorkitemState>> {
    match g.attemptsBelowMax
    case None => None
    case Some(below) =>
      Some(if below then To(Retry, []) else To(Abandoned, [CreateDeadLetter, Emit(WorkitemDeadLetteredE)]))
  }

  function TransitionTask(cur: TaskState, ev: TaskEvent, g: TaskGuard): Option<Transition<TaskState>> {
    if ev == CancelTask then
      if cur == Open || cur == Assigned || cur == InProgress || cur == Escalated
      then Some(To(TaskCancelled, []))
      else None
    else
      match cur
      case Open =>
        if ev == Assign then Some(To(Assigned, [SetField("assignee")])) else Waiting(ev, g)
      case Assigned =>
        if ev == Start then Some(To(InProgress, [])) else Waiting(ev, g)
      case InProgress =>
        if ev == ResolveTask then Some(To(Resolved, [Emit(TaskResolvedE)])) else Waiting(ev, g)
      case Escalated =>
        if ev == Assign then Some(To(Assigned, [ReassignAssignee, SetField("assignee")]))
        else if ev == Timeout then Some(To(Expired, [Emit(TaskExpiredE)]))
        else None
      case _ => None
  }

  /** What a task that is not yet escalated does on a timeout or an escalation. */
  function Waiting(ev: TaskEvent, g: TaskGuard): Option<Transition<TaskState>> {
    if ev == Escalate then Some(To(Escalated, [Emit(TaskEscalatedE), ReassignAssignee]))
    else if ev == Timeout then
      match g.onTimeout
      case Some(Fail) => Some(To(Expired, [Emit(TaskExpiredE)]))
      case Some(EscalateTask) => Some(To(Escalated, [Emit(TaskEscalatedE)]))
      case None => None
    else None
  }

  /** The events among the commands, in order. */
  function Emitted(commands: seq<Command>): seq<EventType> {
    if commands == [] then []
    else (if commands[0].Emit? then [commands[0].event] else []) + Emitted(commands[1..])
  }
}
