/** What guards mean over whole lives: what must have been granted, and how often, before a state is reached. */
module GuardTraces {
  import opened IrelSyntax
  import opened Lifecycle
  import RunTraces
  import EntityTraces

  /** How many inputs satisfy a test. */
  function Count<I>(p: I -> bool, inputs: seq<I>): nat
    decreases |inputs|
  {
    if inputs == [] then 0
    else Count(p, inputs[..|inputs| - 1]) + if p(inputs[|inputs| - 1]) then 1 else 0
  }

  // ----- the way to completion -----

  /** The four grants on the way to completion: a lease, a good start, a reached terminal, good final outputs. */
  predicate Grant(i: RunTraces.Input, m: nat) {
    || (m == 0 && i.0 == WorkerClaimed && i.1.leaseAcquired)
    || (m == 1 && i.0 == RunStarted && i.1.initOk)
    || (m == 2 && i.0 == LastNodeSuccess && i.1.flowTerminalReached)
    || (m == 3 && i.0 == FinalizeOk && i.1.finalizeOk)
  }

  /** How many of the grants occurred, in that order. */
  function Granted(inputs: seq<RunTraces.Input>): (m: nat)
    ensures m <= 4
    decreases |inputs|
  {
    if inputs == [] then 0
    else
      var m := Granted(inputs[..|inputs| - 1]);
      if Grant(inputs[|inputs| - 1], m) then m + 1 else m
  }

  /** How many grants a state presupposes. */
  function Needed(state: RunState): nat {
    match state
    case Queued => 0
    case Claimed => 1
    case FailedSystem => 1
    case Completing => 3
    case Completed => 4
    case _ => 2
  }

  lemma GrantedStep(state: RunState, i: RunTraces.Input, m: nat)
    requires Needed(state) <= m <= 4 && TransitionRun(state, i.0, i.1).Some?
    ensures Needed(TransitionRun(state, i.0, i.1).value.next) <= if Grant(i, m) then m + 1 else m
  {
  }

  /** No run gets ahead of its grants: whatever its history, a run in progress was leased and initialised in that
      order, a completing one also reached a terminal, and a completed one has all four grants in order. */
  lemma {:induction false} StatesAreGranted(inputs: seq<RunTraces.Input>)
    requires RunTraces.Trace(RunTraces.FRESH, inputs).Some?
    ensures Needed(RunTraces.Trace(RunTraces.FRESH, inputs).value.state) <= Granted(inputs)
    decreases |inputs|
  {
    hide TransitionRun, RunTraces.Trace, Grant;
    if inputs == [] {
      RunTraces.TraceNothing();
    } else {
      RunTraces.TraceInit(inputs);
      StatesAreGranted(inputs[..|inputs| - 1]);
      GrantedStep(RunTraces.Trace(RunTraces.FRESH, inputs[..|inputs| - 1]).value.state, inputs[|inputs| - 1],
          Granted(inputs[..|inputs| - 1]));
    }
  }

  // ----- work items -----

  predicate GivesUp(i: EntityTraces.ItemInput) {
    (i.0 == SystemException || i.0 == CheckoutExpired) && i.1.attemptsBelowMax == Some(false)
  }

  predicate AuthorizedReplay(i: EntityTraces.ItemInput) { i.0 == ManualReplay && i.1.operatorAuthorized }

  predicate SinkMet(i: EntityTraces.ItemInput) { i.0 == RunSucceeded && i.1.sinkPolicyMet }

  lemma ItemStepCounts(state: WorkitemState, i: EntityTraces.ItemInput)
    requires TransitionWorkitem(state, i.0, i.1).Some?
    ensures var next := TransitionWorkitem(state, i.0, i.1).value.next;
            && (next == Abandoned <==> GivesUp(i)) && (next == New <==> AuthorizedReplay(i))
            && (next == Successful <==> SinkMet(i))
            && (state == Abandoned <==> AuthorizedReplay(i)) && state != Successful
  {
  }

  /** Conservation: every abandonment is followed by an authorized replay, except the one the item may be in, and every
      announced event has its cause. */
  lemma {:induction false} AbandonmentsAreReplayed(inputs: seq<EntityTraces.ItemInput>)
    requires EntityTraces.ItemTrace(inputs).Some?
    ensures var l := EntityTraces.ItemTrace(inputs).value;
            && Count(GivesUp, inputs) == Count(AuthorizedReplay, inputs) + (if l.state == Abandoned then 1 else 0)
            && multiset(l.word)[WorkitemDeadLetteredE] == Count(GivesUp, inputs)
            && multiset(l.word)[WorkitemCompletedE] == Count(SinkMet, inputs)
                == (if l.state == Successful then 1 else 0)
    decreases |inputs|
  {
    hide TransitionWorkitem, Emitted, GivesUp, AuthorizedReplay, SinkMet;
    if inputs != [] {
      var init, last := inputs[..|inputs| - 1], inputs[|inputs| - 1];
      AbandonmentsAreReplayed(init);
      var l := EntityTraces.ItemTrace(init).value;
      ItemStepCounts(l.state, last);
      EntityTraces.ItemEmits(l.state, last.0, last.1);
      var events := Emitted(TransitionWorkitem(l.state, last.0, last.1).value.commands);
      assert multiset(l.word + events) == multiset(l.word) + multiset(events);
    }
  }
}
