/** What outcomes mean over whole lives: every state a run enters and every command it issues is counted by the guarded
    events that cause it, so its history says where it ended and what was done for it. */
module OutcomeTraces {
  import opened IrelSyntax
  import opened Lifecycle
  import opened GuardTraces
  import RunTraces

  type Input = RunTraces.Input

  // ----- causes -----

  predicate BelowThreshold(i: Input) { i.0 == InitFailed && i.1.initFailBelowThreshold == Some(true) }

  predicate AtThreshold(i: Input) { i.0 == InitFailed && i.1.initFailBelowThreshold == Some(false) }

  predicate Starts(i: Input) { i.0 == RunStarted && i.1.initOk }

  predicate Leases(i: Input) { i.0 == WorkerClaimed && i.1.leaseAcquired }

  predicate IssuesToken(i: Input) { i.0 == BookmarkSaved && i.1.resumeTokenIssued }

  predicate ResolvesTask(i: Input) { i.0 == HumanTaskResolved && i.1.humanTaskValid }

  predicate Restores(i: Input) {
    (i.0 == RestoreOk && i.1.restoreOk) || (i.0 == RestoreFailed && i.1.loginBypassPossible == Some(true))
  }

  predicate Pauses(i: Input) { i.0.ChallengeDetected? || i.0.HumanTaskRequired? || i.0 == OperatorPauseRequested }

  predicate Security(i: Input) { i.0 == SecurityException && i.1.exceptionClass == Some(ClassSecurity) }

  predicate Aborts(i: Input) { i.0 == AbortRequested || Security(i) }

  predicate Breaks(i: Input) { i.0 == UnrecoverableException && i.1.exceptionClass == Some(ClassSystem) }

  predicate Inconsistent(i: Input) { i.0 == BookmarkFailed || i.0 == FinalizeFailed }

  predicate Finalizes(i: Input) { i.0 == FinalizeOk && i.1.finalizeOk }

  predicate Drains(i: Input) { i.0 == DrainOk || i.0 == DrainTimeout }

  predicate ReachesEnd(i: Input) { i.0 == LastNodeSuccess && i.1.flowTerminalReached }

  predicate FailsBusiness(i: Input) {
    (i.0 == BusinessException && i.1.exceptionClass == Some(ClassBusiness)) || i.0 == HumanTaskExpired
  }

  predicate FailsSystem(i: Input) {
    AtThreshold(i) || Breaks(i) || Inconsistent(i) || (i.0 == RestoreFailed && i.1.loginBypassPossible == Some(false))
  }

  /** The inputs that bring a run into a state, whatever state it was in. Which of the three states left out a claim or
      an abort request leads to depends on where the run is. */
  predicate Into(s: RunState, i: Input) {
    match s
    case Queued => BelowThreshold(i)
    case Running => Starts(i) || Restores(i)
    case Suspending => Pauses(i)
    case Suspended => IssuesToken(i)
    case ResumeRequested => ResolvesTask(i)
    case Completing => ReachesEnd(i)
    case Completed => Finalizes(i)
    case Cancelled => Drains(i)
    case FailedBusiness => FailsBusiness(i)
    case FailedSystem => FailsSystem(i)
    case _ => false
  }

  predicate Ambiguous(s: RunState) { s == Claimed || s == Resuming || s == Aborting }

  function Entering(s: RunState): Input -> bool { (i: Input) => Into(s, i) }

  // ----- states -----

  /** Where a history leads. */
  function At(inputs: seq<Input>): Option<RunState> {
    match RunTraces.Trace(RunTraces.FRESH, inputs)
    case None => None
    case Some(r) => Some(r.state)
  }

  /** How often a history comes to a state from another one. */
  function Arrivals(inputs: seq<Input>, s: RunState): nat
    decreases |inputs|
  {
    if inputs == [] then 0
    else
      var init := inputs[..|inputs| - 1];
      Arrivals(init, s) + if At(inputs) == Some(s) && At(init) != Some(s) then 1 else 0
  }

  /** How often it is in a state and stays there. */
  function Stays(inputs: seq<Input>, s: RunState): nat
    decreases |inputs|
  {
    if inputs == [] then 0
    else
      var init := inputs[..|inputs| - 1];
      Stays(init, s) + if At(inputs) == Some(s) && At(init) == Some(s) then 1 else 0
  }

  predicate Terminal(s: RunState) { s == Completed || s == Cancelled || s == FailedBusiness || s == FailedSystem }

  lemma IntoTerminal(state: RunState, i: Input, s: RunState)
    requires TransitionRun(state, i.0, i.1).Some? && Terminal(s)
    ensures state != s && (TransitionRun(state, i.0, i.1).value.next == s <==> Into(s, i))
  {
  }

  lemma IntoOther(state: RunState, i: Input, s: RunState)
    requires TransitionRun(state, i.0, i.1).Some? && !Terminal(s) && !Ambiguous(s)
    ensures TransitionRun(state, i.0, i.1).value.next == s != state <==> Into(s, i)
  {
  }

  lemma IntoStep(state: RunState, i: Input, s: RunState)
    requires TransitionRun(state, i.0, i.1).Some? && !Ambiguous(s)
    ensures TransitionRun(state, i.0, i.1).value.next == s != state <==> Into(s, i)
    ensures Terminal(s) ==> state != s
  {
    hide TransitionRun, Into;
    if Terminal(s) {
      IntoTerminal(state, i, s);
    } else {
      IntoOther(state, i, s);
    }
  }

  lemma SharedStep(state: RunState, i: Input)
    requires TransitionRun(state, i.0, i.1).Some?
    ensures var next := TransitionRun(state, i.0, i.1).value.next;
            && ((next == Claimed != state) || (next == Resuming != state) <==> Leases(i))
            && (next == Claimed <==> state == Queued) && (next == Resuming ==> state == ResumeRequested)
            && ((next == Aborting != state) || next == Completing == state <==> Aborts(i))
            && (next == Suspended == state <==> i.0 == HumanTaskEscalated)
            && (next == state ==> state == Suspended || state == Completing)
  {
  }

  /** In every history a state is entered exactly as often as an input that causes it occurs. */
  lemma {:induction false} ArrivalsAreCaused(inputs: seq<Input>, s: RunState)
    requires At(inputs).Some? && !Ambiguous(s)
    ensures Arrivals(inputs, s) == Count(Entering(s), inputs)
    decreases |inputs|
  {
    hide TransitionRun, RunTraces.Trace, Emitted, Into;
    if inputs != [] {
      var init, last := inputs[..|inputs| - 1], inputs[|inputs| - 1];
      RunTraces.TraceInit(inputs);
      ArrivalsAreCaused(init, s);
      IntoStep(At(init).value, last, s);
    }
  }

  predicate Escalates(i: Input) { i.0 == HumanTaskEscalated }

  /** A lease makes a run claimed or resuming. It is claimed once and again after every requeue. */
  lemma {:induction false} LeaseArrivals(inputs: seq<Input>)
    requires At(inputs).Some?
    ensures Arrivals(inputs, Claimed) + Arrivals(inputs, Resuming) == Count(Leases, inputs)
    ensures Arrivals(inputs, Claimed) == Arrivals(inputs, Queued) + if At(inputs) == Some(Queued) then 0 else 1
    decreases |inputs|
  {
    hide TransitionRun, RunTraces.Trace, Emitted, Leases, Aborts;
    if inputs == [] {
      RunTraces.TraceNothing();
    } else {
      var init, last := inputs[..|inputs| - 1], inputs[|inputs| - 1];
      RunTraces.TraceInit(inputs);
      LeaseArrivals(init);
      SharedStep(At(init).value, last);
    }
  }

  /** An abort request or a security exception makes a run abort, unless it is completing, and an escalation leaves it
      suspended. */
  lemma {:induction false} AbortArrivals(inputs: seq<Input>)
    requires At(inputs).Some?
    ensures Arrivals(inputs, Aborting) + Stays(inputs, Completing) == Count(Aborts, inputs)
    ensures Stays(inputs, Suspended) == Count(Escalates, inputs)
    decreases |inputs|
  {
    hide TransitionRun, RunTraces.Trace, Emitted, Leases, Aborts;
    if inputs == [] {
      RunTraces.TraceNothing();
    } else {
      var init, last := inputs[..|inputs| - 1], inputs[|inputs| - 1];
      RunTraces.TraceInit(inputs);
      AbortArrivals(init);
      SharedStep(At(init).value, last);
    }
  }

  /** The end of a run can be read off its history: it is in a terminal state exactly when one of the causes of that
      state occurred, and then exactly one did, once. */
  lemma {:induction false} EndIsCaused(inputs: seq<Input>, s: RunState)
    requires At(inputs).Some? && Terminal(s)
    ensures Count(Entering(s), inputs) == if At(inputs) == Some(s) then 1 else 0
    decreases |inputs|
  {
    hide TransitionRun, RunTraces.Trace, Emitted, Into;
    if inputs == [] {
      RunTraces.TraceNothing();
    } else {
      var init, last := inputs[..|inputs| - 1], inputs[|inputs| - 1];
      RunTraces.TraceInit(inputs);
      EndIsCaused(init, s);
      IntoStep(At(init).value, last, s);
    }
  }

  lemma ThresholdStep(state: RunState, i: Input)
    requires TransitionRun(state, i.0, i.1).Some?
    ensures AtThreshold(i) <==> TransitionRun(state, i.0, i.1).value.next == FailedSystem && state == Claimed
  {
  }

  /** A run fails before it has started exactly when an initialisation failed at the threshold. */
  lemma {:induction false} FailsUnstartedIff(inputs: seq<Input>)
    requires At(inputs).Some?
    ensures var word := RunTraces.Trace(RunTraces.FRESH, inputs).value.word;
            Count(AtThreshold, inputs) == if At(inputs) == Some(FailedSystem) && RunStartedE !in word then 1 else 0
    decreases |inputs|
  {
    hide TransitionRun, RunTraces.Trace, Emitted, AtThreshold, RunTraces.Legal, RunTraces.Moves, RunTraces.Adds;
    if inputs == [] {
      RunTraces.TraceNothing();
    } else {
      var init, last := inputs[..|inputs| - 1], inputs[|inputs| - 1];
      RunTraces.TraceInit(inputs);
      FailsUnstartedIff(init);
      var r := RunTraces.Trace(RunTraces.FRESH, init).value;
      LegalFresh();
      RunTraces.TraceLegal(RunTraces.FRESH, init);
      ThresholdStep(r.state, last);
      RunTraces.StepMoves(r.state, last.0, last.1);
      UnstartedMove(r, TransitionRun(r.state, last.0, last.1).value.next);
    }
  }

  lemma LegalFresh()
    ensures RunTraces.Legal(RunTraces.FRESH)
  {
  }

  lemma UnstartedMove(r: RunTraces.Run, next: RunState)
    requires RunTraces.Legal(r) && RunTraces.Moves(r.state, next)
    ensures r.state != FailedSystem
    ensures next == FailedSystem && RunStartedE !in r.word + RunTraces.Adds(r.state, next) <==>
            next == FailedSystem && r.state == Claimed
  {
    hide RunTraces.Legal;
    WordStarts(r);
  }

  lemma WordStarts(r: RunTraces.Run)
    requires RunTraces.Legal(r)
    ensures RunStartedE in r.word <==>
            !(r.state == Queued || r.state == Claimed || (r.state == FailedSystem && r.word == [RunFailedSystemE]))
  {
    if RunTraces.IsOpen(r) {
      var k: nat, p: nat :| RunTraces.Open(r.state, p) && r.word == RunTraces.Word(k, p);
      assert r.word[0] == RunStartedE;
    } else if RunTraces.IsClosed(r) {
      var k: nat, p: nat, last :| RunTraces.Closes(r.state, p, last) && r.word == RunTraces.Word(k, p) + [last];
      assert r.word[0] == RunStartedE;
    }
  }

  // ----- commands -----

  /** The inputs that make a run issue a command. The commands left out depend on the state as well. */
  predicate Causes(i: Input, c: Command) {
    match c
    case Emit(RunStartedE) => Starts(i)
    case Emit(RunSuspendedE) => IssuesToken(i)
    case Emit(RunResumeRequestedE) => ResolvesTask(i)
    case Emit(RunResumedE) => Restores(i)
    case Emit(RunCancelledE) => Drains(i)
    case Emit(RunCompletedE) => Finalizes(i)
    case Emit(RunFailedBusinessE) => FailsBusiness(i)
    case Emit(RunFailedSystemE) => FailsSystem(i)
    case Requeue => BelowThreshold(i)
    case OpenCircuit => AtThreshold(i)
    case EvaluateDeadLetter => AtThreshold(i) || Breaks(i) || i.0 == HumanTaskExpired
    case CreateHumanTask(kind) =>
      i.0 == ChallengeDetected(Some(kind)) || i.0 == HumanTaskRequired(Some(kind))
      || (i.0 == ChallengeDetected(None) && kind == Captcha) || (i.0 == HumanTaskRequired(None) && kind == Exception)
    case StartBookmark => Pauses(i)
    case IssueResumeToken => IssuesToken(i)
    case ReleaseLease => IssuesToken(i) || i.0 == DrainOk
    case KillLease => i.0 == DrainTimeout
    case FlushArtifacts => Finalizes(i)
    case FinalizeOutputs => ReachesEnd(i) || Finalizes(i)
    case UsageFlush => Finalizes(i)
    case ReassignAssignee => Escalates(i)
    case CaptureFailureScreenshot => Breaks(i)
    case ConsistencyRecovery => Inconsistent(i)
    case Notify => Security(i) || i.0 == HumanTaskExpired
    case _ => false
  }

  predicate StateBound(c: Command) {
    c.SetField? || c == RestoreSession || c == RejectCommand || c == SseClose || c == BrowserDrain
  }

  function Causing(c: Command): Input -> bool { (i: Input) => Causes(i, c) }

  /** How many steps of a history issue a command. */
  function Issues(inputs: seq<Input>, c: Command): nat
    decreases |inputs|
  {
    if inputs == [] then 0
    else
      var init, last := inputs[..|inputs| - 1], inputs[|inputs| - 1];
      Issues(init, c) + if At(init).Some? && Issued(At(init).value, last, c) then 1 else 0
  }

  predicate Issued(state: RunState, i: Input, c: Command) {
    match TransitionRun(state, i.0, i.1)
    case None => false
    case Some(t) => c in t.commands
  }

  lemma QueuedCommands(i: Input, c: Command)
    requires TransitionRun(Queued, i.0, i.1).Some? && !StateBound(c)
    ensures c in TransitionRun(Queued, i.0, i.1).value.commands <==> Causes(i, c)
  {
  }

  lemma ClaimedCommands(i: Input, c: Command)
    requires TransitionRun(Claimed, i.0, i.1).Some? && !StateBound(c)
    ensures c in TransitionRun(Claimed, i.0, i.1).value.commands <==> Causes(i, c)
  {
  }

  lemma RunningCommands(i: Input, c: Command)
    requires TransitionRun(Running, i.0, i.1).Some? && !StateBound(c)
    ensures c in TransitionRun(Running, i.0, i.1).value.commands <==> Causes(i, c)
  {
  }

  lemma SuspendingCommands(i: Input, c: Command)
    requires TransitionRun(Suspending, i.0, i.1).Some? && !StateBound(c)
    ensures c in TransitionRun(Suspending, i.0, i.1).value.commands <==> Causes(i, c)
  {
  }

  lemma SuspendedCommands(i: Input, c: Command)
    requires TransitionRun(Suspended, i.0, i.1).Some? && !StateBound(c)
    ensures c in TransitionRun(Suspended, i.0, i.1).value.commands <==> Causes(i, c)
  {
  }

  lemma ResumeRequestedCommands(i: Input, c: Command)
    requires TransitionRun(ResumeRequested, i.0, i.1).Some? && !StateBound(c)
    ensures c in TransitionRun(ResumeRequested, i.0, i.1).value.commands <==> Causes(i, c)
  {
  }

  lemma ResumingCommands(i: Input, c: Command)
    requires TransitionRun(Resuming, i.0, i.1).Some? && !StateBound(c)
    ensures c in TransitionRun(Resuming, i.0, i.1).value.commands <==> Causes(i, c)
  {
  }

  lemma CompletingCommands(i: Input, c: Command)
    requires TransitionRun(Completing, i.0, i.1).Some? && !StateBound(c)
    ensures c in TransitionRun(Completing, i.0, i.1).value.commands <==> Causes(i, c)
  {
  }

  lemma AbortingCommands(i: Input, c: Command)
    requires TransitionRun(Aborting, i.0, i.1).Some? && !StateBound(c)
    ensures c in TransitionRun(Aborting, i.0, i.1).value.commands <==> Causes(i, c)
  {
  }

  lemma TerminalStays(state: RunState, i: Input)
    ensures Terminal(state) ==> TransitionRun(state, i.0, i.1).None?
  {
  }

  lemma CommandStep(state: RunState, i: Input, c: Command)
    requires TransitionRun(state, i.0, i.1).Some? && !StateBound(c)
    ensures Issued(state, i, c) <==> Causes(i, c)
  {
    hide TransitionRun, Causes;
    TerminalStays(state, i);
    match state {
      case Queued => QueuedCommands(i, c);
      case Claimed => ClaimedCommands(i, c);
      case Running => RunningCommands(i, c);
      case Suspending => SuspendingCommands(i, c);
      case Suspended => SuspendedCommands(i, c);
      case ResumeRequested => ResumeRequestedCommands(i, c);
      case Resuming => ResumingCommands(i, c);
      case Completing => CompletingCommands(i, c);
      case Aborting => AbortingCommands(i, c);
    }
  }

  /** In every history a command is issued exactly as often as an input that causes it occurs. */
  lemma {:induction false} CommandsAreCaused(inputs: seq<Input>, c: Command)
    requires At(inputs).Some? && !StateBound(c)
    ensures Issues(inputs, c) == Count(Causing(c), inputs)
    decreases |inputs|
  {
    hide TransitionRun, RunTraces.Trace, Emitted, Causes, Issued;
    if inputs != [] {
      var init, last := inputs[..|inputs| - 1], inputs[|inputs| - 1];
      RunTraces.TraceInit(inputs);
      CommandsAreCaused(init, c);
      CommandStep(At(init).value, last, c);
    }
  }

  lemma EmittedStep(state: RunState, i: Input, e: EventType)
    requires TransitionRun(state, i.0, i.1).Some?
    ensures multiset(Emitted(TransitionRun(state, i.0, i.1).value.commands))[e] ==
            if Issued(state, i, Emit(e)) then 1 else 0
  {
    hide TransitionRun, Emitted;
    RunTraces.RunEmitsLast(state, i.0, i.1);
    RunTraces.EmittedLast(TransitionRun(state, i.0, i.1).value.commands);
  }

  /** Whatever a run has announced has its cause, and the other way round: every event occurs in the word of a history
      exactly as often as an input that causes it does. */
  lemma {:induction false} EmissionsAreCaused(inputs: seq<Input>, e: EventType)
    requires At(inputs).Some?
    ensures multiset(RunTraces.Trace(RunTraces.FRESH, inputs).value.word)[e] == Count(Causing(Emit(e)), inputs)
    decreases |inputs|
  {
    hide TransitionRun, RunTraces.Trace, Emitted, Causes, Issued;
    if inputs == [] {
      RunTraces.TraceNothing();
    } else {
      var init, last := inputs[..|inputs| - 1], inputs[|inputs| - 1];
      RunTraces.TraceInit(inputs);
      EmissionsAreCaused(init, e);
      var r := RunTraces.Trace(RunTraces.FRESH, init).value;
      CommandStep(r.state, last, Emit(e));
      EmittedStep(r.state, last, e);
      var events := Emitted(TransitionRun(r.state, last.0, last.1).value.commands);
      assert multiset(r.word + events) == multiset(r.word) + multiset(events);
    }
  }

  // ----- the browser lease -----

  /** Leases taken less leases given back: by a requeue, or with a resume token. */
  function Held(inputs: seq<Input>): int {
    Count(Leases, inputs) - Count(BelowThreshold, inputs) - Count(IssuesToken, inputs)
  }

  predicate Parked(s: RunState) { s == Queued || s == Suspended || s == ResumeRequested }

  predicate Working(s: RunState) {
    s == Claimed || s == Running || s == Suspending || s == Resuming || s == Completing
  }

  lemma HeldStep(state: RunState, i: Input)
    requires TransitionRun(state, i.0, i.1).Some?
    ensures var next := TransitionRun(state, i.0, i.1).value.next;
            && (Parked(next) ==>
                  if Parked(state) then !Leases(i) && !BelowThreshold(i) && !IssuesToken(i)
                  else Working(state) && !Leases(i) && (BelowThreshold(i) != IssuesToken(i)))
            && (Working(next) ==>
                  if Parked(state) then Leases(i) && !BelowThreshold(i) && !IssuesToken(i)
                  else Working(state) && !Leases(i) && !BelowThreshold(i) && !IssuesToken(i))
  {
  }

  /** The lease is kept in step with the state: a parked run holds none, a working run exactly one. */
  lemma {:induction false} OneLease(inputs: seq<Input>)
    requires At(inputs).Some?
    ensures Parked(At(inputs).value) ==> Held(inputs) == 0
    ensures Working(At(inputs).value) ==> Held(inputs) == 1
    decreases |inputs|
  {
    hide TransitionRun, RunTraces.Trace, Emitted, Leases, BelowThreshold, IssuesToken;
    if inputs == [] {
      RunTraces.TraceNothing();
    } else {
      var init, last := inputs[..|inputs| - 1], inputs[|inputs| - 1];
      RunTraces.TraceInit(inputs);
      OneLease(init);
      HeldStep(At(init).value, last);
    }
  }

  lemma BrowserStep(state: RunState, i: Input, c: Command)
    requires TransitionRun(state, i.0, i.1).Some? && (c == SseClose || c == BrowserDrain)
    ensures var t := TransitionRun(state, i.0, i.1).value;
            c in t.commands <==> t.next == Aborting && Working(state)
  {
  }

  lemma AbortingStep(state: RunState, i: Input)
    requires TransitionRun(state, i.0, i.1).Some? && TransitionRun(state, i.0, i.1).value.next == Aborting
    ensures Aborts(i) && (Parked(state) || (Working(state) && state != Completing))
  {
  }

  /** Closing the stream and draining the browser are asked for exactly when a run that holds a lease aborts. */
  lemma DrainedIff(inputs: seq<Input>, i: Input, c: Command)
    requires At(inputs).Some? && TransitionRun(At(inputs).value, i.0, i.1).Some? && (c == SseClose || c == BrowserDrain)
    ensures Issued(At(inputs).value, i, c) <==>
            TransitionRun(At(inputs).value, i.0, i.1).value.next == Aborting && Held(inputs) == 1
  {
    hide At, TransitionRun, Held;
    OneLease(inputs);
    BrowserStep(At(inputs).value, i, c);
    if TransitionRun(At(inputs).value, i.0, i.1).value.next == Aborting {
      AbortingStep(At(inputs).value, i);
    }
  }

  lemma WorkerStep(state: RunState, i: Input)
    requires TransitionRun(state, i.0, i.1).Some?
    ensures var t := TransitionRun(state, i.0, i.1).value;
            && (SetField("worker_id") in t.commands <==> t.next == Claimed != state)
            && (RestoreSession in t.commands <==> t.next == Resuming != state)
  {
  }

  lemma RejectStep(state: RunState, i: Input)
    requires TransitionRun(state, i.0, i.1).Some?
    ensures var t := TransitionRun(state, i.0, i.1).value;
            RejectCommand in t.commands <==> t.next == Completing == state
  {
  }

  /** The worker is recorded at every claim, the session restored at every resumption and an abort request rejected
      whenever the run is completing. */
  lemma {:induction false} BoundCommands(inputs: seq<Input>)
    requires At(inputs).Some?
    ensures Issues(inputs, SetField("worker_id")) == Arrivals(inputs, Claimed)
    ensures Issues(inputs, RestoreSession) == Arrivals(inputs, Resuming)
    ensures Issues(inputs, RejectCommand) == Stays(inputs, Completing)
    decreases |inputs|
  {
    hide TransitionRun, RunTraces.Trace, Emitted;
    if inputs != [] {
      var init, last := inputs[..|inputs| - 1], inputs[|inputs| - 1];
      RunTraces.TraceInit(inputs);
      BoundCommands(init);
      WorkerStep(At(init).value, last);
      RejectStep(At(init).value, last);
    }
  }
}
