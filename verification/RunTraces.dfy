/** The language of run events: exactly which words a run can emit, and in which state it then is. */
module RunTraces {
  import opened IrelSyntax
  import opened Lifecycle

  type Input = (RunEvent, RunGuard)

  /** A run: its state and everything it has emitted. */
  datatype Run = Run(state: RunState, word: seq<EventType>)

  /** One input; `None` when the transition is illegal. */
  function Step(r: Run, input: Input): Option<Run> {
    match TransitionRun(r.state, input.0, input.1)
    case None => None
    case Some(t) => Some(Run(t.next, r.word + Emitted(t.commands)))
  }

  function Trace(r: Run, inputs: seq<Input>): Option<Run>
    decreases |inputs|
  {
    if inputs == [] then Some(r)
    else
      match Step(r, inputs[0])
      case None => None
      case Some(next) => Trace(next, inputs[1..])
  }

  const FRESH: Run := Run(Queued, [])

  // ----- words -----

  /** `k` rounds of suspension and resumption. */
  function Rounds(k: nat): seq<EventType> {
    if k == 0 then [] else Rounds(k - 1) + [RunSuspendedE, RunResumeRequestedE, RunResumedE]
  }

  /** The first `p` events of another round. */
  function Part(p: nat): seq<EventType> {
    if p == 0 then [] else if p == 1 then [RunSuspendedE] else [RunSuspendedE, RunResumeRequestedE]
  }

  function Word(k: nat, p: nat): seq<EventType> {
    [RunStartedE] + Rounds(k) + Part(p)
  }

  /** How many events of an unfinished round the state allows. */
  predicate Open(state: RunState, p: nat) {
    match state
    case Running => p == 0
    case Suspending => p == 0
    case Completing => p == 0
    case Suspended => p == 1
    case ResumeRequested => p == 2
    case Resuming => p == 2
    case Aborting => p <= 2
    case _ => false
  }

  /** The terminal states with their event and the round positions they can follow. */
  predicate Closes(state: RunState, p: nat, last: EventType) {
    match state
    case Completed => p == 0 && last == RunCompletedE
    case Cancelled => p <= 2 && last == RunCancelledE
    case FailedBusiness => p <= 1 && last == RunFailedBusinessE
    case FailedSystem => (p == 0 || p == 2) && last == RunFailedSystemE
    case _ => false
  }

  ghost predicate IsOpen(r: Run) {
    exists k: nat, p: nat :: Open(r.state, p) && r.word == Word(k, p)
  }

  ghost predicate IsClosed(r: Run) {
    exists k: nat, p: nat, last :: Closes(r.state, p, last) && r.word == Word(k, p) + [last]
  }

  /** The runs that exist: not started, failed before starting, under way, or ended. */
  ghost predicate Legal(r: Run) {
    || ((r.state == Queued || r.state == Claimed) && r.word == [])
    || (r.state == FailedSystem && r.word == [RunFailedSystemE])
    || IsOpen(r)
    || IsClosed(r)
  }

  // ----- every trace is legal -----

  lemma RoundsAgain(k: nat)
    ensures Word(k, 2) + [RunResumedE] == Word(k + 1, 0)
    ensures Word(k, 0) + [RunSuspendedE] == Word(k, 1)
    ensures Word(k, 1) + [RunResumeRequestedE] == Word(k, 2)
    ensures Word(0, 0) == [RunStartedE]
  {
    assert Rounds(k + 1) == Rounds(k) + [RunSuspendedE, RunResumeRequestedE, RunResumedE];
    assert Word(k, 2) + [RunResumedE] == Word(k + 1, 0) + [];
    assert Word(k + 1, 0) == [RunStartedE] + Rounds(k + 1);
    assert [RunStartedE] + Rounds(0) + Part(0) == [RunStartedE];
  }

  /** Only the last command can be an emission. */
  predicate EmitsLast(cs: seq<Command>) {
    forall i :: 0 <= i < |cs| - 1 ==> !cs[i].Emit?
  }

  lemma {:induction false} EmittedLast(cs: seq<Command>)
    requires EmitsLast(cs)
    ensures Emitted(cs) == if cs != [] && cs[|cs| - 1].Emit? then [cs[|cs| - 1].event] else []
    decreases |cs|
  {
    if |cs| > 1 {
      EmittedLast(cs[1..]);
    } else if |cs| == 1 {
      assert cs[1..] == [];
    }
  }

  lemma RunEmitsLast(state: RunState, ev: RunEvent, g: RunGuard)
    requires TransitionRun(state, ev, g).Some?
    ensures EmitsLast(TransitionRun(state, ev, g).value.commands)
  {
  }

  /** What the move from `state` to `next` adds to the word. */
  function Adds(state: RunState, next: RunState): seq<EventType> {
    match next
    case Running => if state == Claimed then [RunStartedE] else if state == Resuming then [RunResumedE] else []
    case Suspended => if state == Suspending then [RunSuspendedE] else []
    case ResumeRequested => [RunResumeRequestedE]
    case Completed => [RunCompletedE]
    case Cancelled => [RunCancelledE]
    case FailedBusiness => [RunFailedBusinessE]
    case FailedSystem => [RunFailedSystemE]
    case _ => []
  }

  /** Which moves exist. */
  predicate Moves(state: RunState, next: RunState) {
    match state
    case Queued => next == Claimed
    case Claimed => next == Running || next == Queued || next == FailedSystem
    case Running => next == Suspending || next == Aborting || next == Completing || next == FailedSystem
      || next == FailedBusiness
    case Suspending => next == Suspended || next == FailedSystem || next == Aborting
    case Suspended => next == ResumeRequested || next == FailedBusiness || next == Suspended || next == Aborting
    case ResumeRequested => next == Resuming || next == Aborting
    case Resuming => next == Running || next == FailedSystem || next == Aborting
    case Completing => next == Completed || next == FailedSystem || next == Completing
    case Aborting => next == Cancelled
    case _ => false
  }

  lemma NextMoves(state: RunState, ev: RunEvent, g: RunGuard)
    requires TransitionRun(state, ev, g).Some?
    ensures Moves(state, TransitionRun(state, ev, g).value.next)
  {
  }

  lemma LastAdds(state: RunState, ev: RunEvent, g: RunGuard)
    requires TransitionRun(state, ev, g).Some?
    ensures var t := TransitionRun(state, ev, g).value;
            Adds(state, t.next) ==
            if t.commands != [] && t.commands[|t.commands| - 1].Emit? then [t.commands[|t.commands| - 1].event] else []
  {
  }

  lemma StepMoves(state: RunState, ev: RunEvent, g: RunGuard)
    requires TransitionRun(state, ev, g).Some?
    ensures var t := TransitionRun(state, ev, g).value;
            Moves(state, t.next) && Emitted(t.commands) == Adds(state, t.next)
  {
    hide Emitted, TransitionRun, Adds, Moves;
    NextMoves(state, ev, g);
    RunEmitsLast(state, ev, g);
    LastAdds(state, ev, g);
    EmittedLast(TransitionRun(state, ev, g).value.commands);
  }

  lemma OpenStep(state: RunState, next: RunState, k: nat, p: nat)
    requires Moves(state, next) && Open(state, p)
    ensures Legal(Run(next, Word(k, p) + Adds(state, next)))
  {
    hide Word;
    RoundsAgain(k);
    var word := Word(k, p) + Adds(state, next);
    var r := Run(next, word);
    if Adds(state, next) == [] {
      assert word == Word(k, p);
      assert Open(next, p);
    } else if next == Running {
      assert Open(next, 0) && word == Word(k + 1, 0);
    } else if next == Suspended {
      assert Open(next, 1) && word == Word(k, 1);
    } else if next == ResumeRequested {
      assert Open(next, 2) && word == Word(k, 2);
    } else {
      var last := Adds(state, next)[0];
      assert Adds(state, next) == [last];
      assert Closes(next, p, last) && word == Word(k, p) + [last];
    }
  }

  lemma StepLegal(r: Run, input: Input)
    requires Legal(r) && Step(r, input).Some?
    ensures Legal(Step(r, input).value)
  {
    hide Word, TransitionRun, Emitted;
    StepMoves(r.state, input.0, input.1);
    var next := TransitionRun(r.state, input.0, input.1).value.next;
    if IsOpen(r) {
      var k: nat, p: nat :| Open(r.state, p) && r.word == Word(k, p);
      OpenStep(r.state, next, k, p);
    } else if r.word == [] {
      assert [] + Adds(r.state, next) == Adds(r.state, next);
      if next == Running {
        RoundsAgain(0);
        assert Open(Running, 0) && Step(r, input).value.word == Word(0, 0);
      }
    }
  }

  /** Every trace of a fresh run emits a word of the language that belongs to its final state. */
  lemma {:induction false} TraceLegal(r: Run, inputs: seq<Input>)
    requires Legal(r) && Trace(r, inputs).Some?
    ensures Legal(Trace(r, inputs).value)
    decreases |inputs|
  {
    hide Legal, Step;
    if inputs != [] {
      StepLegal(r, inputs[0]);
      TraceLegal(Step(r, inputs[0]).value, inputs[1..]);
    }
  }

  // ----- every legal run has a trace -----

  lemma {:induction false} TraceConcat(r: Run, a: seq<Input>, b: seq<Input>)
    requires Trace(r, a).Some?
    ensures Trace(r, a + b) == Trace(Trace(r, a).value, b)
    decreases |a|
  {
    hide Step;
    if a == [] {
      assert a + b == b;
    } else {
      assert (a + b)[0] == a[0] && (a + b)[1..] == a[1..] + b;
      TraceConcat(Step(r, a[0]).value, a[1..], b);
    }
  }

  /** The last input of a trace applies to where the others lead. */
  lemma TraceInit(inputs: seq<Input>)
    requires inputs != [] && Trace(FRESH, inputs).Some?
    ensures var init := Trace(FRESH, inputs[..|inputs| - 1]);
            init.Some? && Trace(FRESH, inputs) == Step(init.value, inputs[|inputs| - 1])
  {
    hide Step;
    TracePrefix(FRESH, inputs);
    var init, last := inputs[..|inputs| - 1], inputs[|inputs| - 1];
    TraceConcat(FRESH, init, [last]);
    assert init + [last] == inputs;
  }

  lemma {:induction false} TracePrefix(r: Run, inputs: seq<Input>)
    requires inputs != [] && Trace(r, inputs).Some?
    ensures Trace(r, inputs[..|inputs| - 1]).Some?
    decreases |inputs|
  {
    hide Step;
    if |inputs| > 1 {
      TracePrefix(Step(r, inputs[0]).value, inputs[1..]);
      assert inputs[1..][..|inputs| - 2] == inputs[..|inputs| - 1][1..];
    }
  }

  /** Some input makes the move. */
  lemma MoveInput(state: RunState, next: RunState) returns (input: Input)
    requires Moves(state, next)
    ensures TransitionRun(state, input.0, input.1).Some? && TransitionRun(state, input.0, input.1).value.next == next
  {
    var g := RunGuard(true, true, Some(next == Queued), true,
        Some(if next == FailedBusiness then ClassBusiness else ClassSystem),
                      true, true, true, Some(next == Running), true, true);
    var ev :=
      match next
      case Claimed => WorkerClaimed
      case Queued => InitFailed
      case Running => if state == Claimed then RunStarted else RestoreOk
      case Suspending => OperatorPauseRequested
      case Suspended => if state == Suspending then BookmarkSaved else HumanTaskEscalated
      case ResumeRequested => HumanTaskResolved
      case Resuming => WorkerClaimed
      case Completing => if state == Running then LastNodeSuccess else AbortRequested
      case Completed => FinalizeOk
      case Aborting => AbortRequested
      case Cancelled => DrainOk
      case FailedBusiness => if state == Running then BusinessException else HumanTaskExpired
      case FailedSystem =>
        (match state
         case Claimed => InitFailed case Running => UnrecoverableException case Suspending => BookmarkFailed
         case Resuming => RestoreFailed case _ => FinalizeFailed);
    input := (ev, g);
  }

  /** Extends a trace by one move. */
  lemma Extend(inputs: seq<Input>, r: Run, next: RunState) returns (longer: seq<Input>)
    requires Trace(FRESH, inputs) == Some(r) && Moves(r.state, next)
    ensures Trace(FRESH, longer) == Some(Run(next, r.word + Adds(r.state, next)))
  {
    hide TransitionRun, Emitted, Adds;
    var input := MoveInput(r.state, next);
    StepMoves(r.state, input.0, input.1);
    longer := inputs + [input];
    TraceConcat(FRESH, inputs, [input]);
    assert [input][1..] == [];
    assert Trace(Run(next, r.word + Adds(r.state, next)), []) == Some(Run(next, r.word + Adds(r.state, next)));
  }

  /** A trace to the running state after `k` rounds. */
  lemma {:induction false} ToRunning(k: nat) returns (inputs: seq<Input>)
    ensures Trace(FRESH, inputs) == Some(Run(Running, Word(k, 0)))
    decreases k, 0
  {
    hide Trace, Word;
    if k == 0 {
      inputs := [];
      TraceNothing();
      inputs := Extend(inputs, FRESH, Claimed);
      inputs := Extend(inputs, Run(Claimed, [] + []), Running);
      RoundsAgain(0);
      assert [] + [] + [RunStartedE] == Word(0, 0);
    } else {
      inputs := ToPart(k - 1, 2, Resuming);
      inputs := Extend(inputs, Run(Resuming, Word(k - 1, 2)), Running);
      RoundsAgain(k - 1);
    }
  }

  lemma TraceNothing()
    ensures Trace(FRESH, []) == Some(FRESH)
  {
  }

  /** A trace to any open state at any of its round positions, running excepted. */
  lemma {:induction false} ToPart(k: nat, p: nat, state: RunState) returns (inputs: seq<Input>)
    requires Open(state, p)
    ensures Trace(FRESH, inputs) == Some(Run(state, Word(k, p)))
    decreases k, 1 + Rank(state)
  {
    hide Trace, Word;
    RoundsAgain(k);
    var none: seq<EventType> := [];
    assert forall w: seq<EventType> :: w + none == w;
    match state {
      case Running => inputs := ToRunning(k);
      case Suspending =>
        inputs := ToRunning(k);
        inputs := Extend(inputs, Run(Running, Word(k, 0)), Suspending);
      case Completing =>
        inputs := ToRunning(k);
        inputs := Extend(inputs, Run(Running, Word(k, 0)), Completing);
      case Suspended =>
        inputs := ToPart(k, 0, Suspending);
        inputs := Extend(inputs, Run(Suspending, Word(k, 0)), Suspended);
      case ResumeRequested =>
        inputs := ToPart(k, 1, Suspended);
        inputs := Extend(inputs, Run(Suspended, Word(k, 1)), ResumeRequested);
      case Resuming =>
        inputs := ToPart(k, 2, ResumeRequested);
        inputs := Extend(inputs, Run(ResumeRequested, Word(k, 2)), Resuming);
      case Aborting =>
        var from := if p == 0 then Running else if p == 1 then Suspended else ResumeRequested;
        inputs := ToPart(k, p, from);
        inputs := Extend(inputs, Run(from, Word(k, p)), Aborting);
    }
  }

  function Rank(state: RunState): nat {
    match state
    case Running => 0 case Suspending => 1 case Completing => 1 case Suspended => 2
    case ResumeRequested => 3 case Resuming => 4 case _ => 5
  }

  /** The state a terminal state is entered from. */
  function Before(state: RunState, p: nat): RunState {
    match state
    case Completed => Completing
    case Cancelled => Aborting
    case FailedBusiness => if p == 0 then Running else Suspended
    case _ => if p == 0 then Running else Resuming
  }

  lemma LegalReached(r: Run) returns (inputs: seq<Input>)
    requires Legal(r)
    ensures Trace(FRESH, inputs) == Some(r)
  {
    hide Trace, Word;
    TraceNothing();
    if IsOpen(r) {
      var k: nat, p: nat :| Open(r.state, p) && r.word == Word(k, p);
      inputs := ToPart(k, p, r.state);
    } else if IsClosed(r) {
      var k: nat, p: nat, last :| Closes(r.state, p, last) && r.word == Word(k, p) + [last];
      var from := Before(r.state, p);
      inputs := ToPart(k, p, from);
      inputs := Extend(inputs, Run(from, Word(k, p)), r.state);
    } else {
      inputs := [];
      if r.state != Queued {
        var none: seq<EventType> := [];
        inputs := Extend(inputs, FRESH, Claimed);
        assert none + none == none;
        if r.state == FailedSystem {
          inputs := Extend(inputs, Run(Claimed, []), FailedSystem);
          assert none + [RunFailedSystemE] == [RunFailedSystemE];
        }
      }
    }
  }

  /** The language is exact: a state and word belong together exactly when some trace of a fresh run gives them. */
  lemma RunLanguage(r: Run)
    ensures Legal(r) <==> exists inputs :: Trace(FRESH, inputs) == Some(r)
  {
    hide Trace, IsOpen, IsClosed;
    if Legal(r) {
      var inputs := LegalReached(r);
    }
    if inputs :| Trace(FRESH, inputs) == Some(r) {
      TraceLegal(FRESH, inputs);
    }
  }

  // ----- points of no return -----

  /** Once aborting, a run can only stay or be cancelled; once completing, it is never cancelled. */
  lemma {:induction false} NoReturn(r: Run, inputs: seq<Input>)
    requires Trace(r, inputs).Some?
    ensures var s := Trace(r, inputs).value.state;
            && (r.state == Aborting || r.state == Cancelled ==> s == Aborting || s == Cancelled)
            && (r.state == Completing || r.state == Completed ==>
                  s == Completing || s == Completed || s == FailedSystem)
            && (r.state == FailedBusiness || r.state == FailedSystem ==> inputs == [])
    decreases |inputs|
  {
    hide TransitionRun, Emitted;
    if inputs != [] {
      StepMoves(r.state, inputs[0].0, inputs[0].1);
      NoReturn(Step(r, inputs[0]).value, inputs[1..]);
    }
  }
}
