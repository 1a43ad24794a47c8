/** What outcomes mean over whole lives of work items and human tasks: how often each state is entered, what a
    checkout or a timeout comes to, and how many attempts have been made. */
module EntityOutcomes {
  import opened IrelSyntax
  import opened Lifecycle
  import opened GuardTraces
  import opened EntityTraces

  // ----- work items: states -----

  predicate Fails(i: ItemInput) { i.0 == SystemException || i.0 == CheckoutExpired }

  predicate RetriesLater(i: ItemInput) { Fails(i) && i.1.attemptsBelowMax == Some(true) }

  predicate ChecksOut(i: ItemInput) { i.0 == Checkout }

  /** The inputs that bring an item into a state, whatever state it was in. */
  predicate ItemInto(s: WorkitemState, i: ItemInput) {
    match s
    case New => AuthorizedReplay(i)
    case Processing => ChecksOut(i)
    case Successful => SinkMet(i)
    case Retry => RetriesLater(i)
    case ItemFailedBusiness => i.0 == ItemBusinessException
    case ItemFailedSystem => false
    case Abandoned => GivesUp(i)
  }

  function ItemEntering(s: WorkitemState): ItemInput -> bool { (i: ItemInput) => ItemInto(s, i) }

  function ItemAt(inputs: seq<ItemInput>): Option<WorkitemState> {
    match ItemTrace(inputs)
    case None => None
    case Some(l) => Some(l.state)
  }

  /** How often a history comes to a state from another one. */
  function ItemArrivals(inputs: seq<ItemInput>, s: WorkitemState): nat
    decreases |inputs|
  {
    if inputs == [] then 0
    else
      var init := inputs[..|inputs| - 1];
      ItemArrivals(init, s) + if ItemAt(inputs) == Some(s) && ItemAt(init) != Some(s) then 1 else 0
  }

  lemma ItemIntoStep(state: WorkitemState, i: ItemInput, s: WorkitemState)
    requires TransitionWorkitem(state, i.0, i.1).Some?
    ensures TransitionWorkitem(state, i.0, i.1).value.next == s != state <==> ItemInto(s, i)
    ensures state != Successful && state != ItemFailedBusiness
  {
  }

  /** In every history of a new item a state is entered exactly as often as an input that causes it occurs, and the two
      terminal ones at most once. */
  lemma {:induction false} ItemArrivalsAreCaused(inputs: seq<ItemInput>, s: WorkitemState)
    requires ItemAt(inputs).Some?
    ensures ItemArrivals(inputs, s) == Count(ItemEntering(s), inputs)
    ensures s == Successful || s == ItemFailedBusiness ==>
              Count(ItemEntering(s), inputs) == if ItemAt(inputs) == Some(s) then 1 else 0
    decreases |inputs|
  {
    hide TransitionWorkitem, Emitted, ItemInto;
    if inputs != [] {
      ItemArrivalsAreCaused(inputs[..|inputs| - 1], s);
      ItemIntoStep(ItemAt(inputs[..|inputs| - 1]).value, inputs[|inputs| - 1], s);
    }
  }

  // ----- work items: attempts -----

  /** The failures since the last replay, on top of `seed` before the first. */
  function Attempts(seed: nat, inputs: seq<ItemInput>): nat
    decreases |inputs|
  {
    if inputs == [] then seed
    else
      var init, last := inputs[..|inputs| - 1], inputs[|inputs| - 1];
      if last.0 == ManualReplay then 0 else Attempts(seed, init) + if Fails(last) then 1 else 0
  }

  /** The item waits for a worker: it is fresh, was just replayed, or just failed with attempts left. */
  predicate Idle(inputs: seq<ItemInput>) {
    inputs == [] || AuthorizedReplay(inputs[|inputs| - 1]) || RetriesLater(inputs[|inputs| - 1])
  }

  lemma IdleStates(inputs: seq<ItemInput>)
    requires ItemAt(inputs).Some?
    ensures ItemAt(inputs) == Some(New) <==> Idle(inputs) && Attempts(0, inputs) == 0
    ensures ItemAt(inputs) == Some(Retry) <==> Idle(inputs) && Attempts(0, inputs) > 0
  {
    hide TransitionWorkitem, Emitted;
    if inputs != [] {
      var state, last := ItemAt(inputs[..|inputs| - 1]).value, inputs[|inputs| - 1];
      ItemIntoStep(state, last, New);
      ItemIntoStep(state, last, Retry);
      IdleLeaves(state, last);
    }
  }

  lemma IdleLeaves(state: WorkitemState, i: ItemInput)
    requires TransitionWorkitem(state, i.0, i.1).Some?
    ensures state == New || state == Retry ==> TransitionWorkitem(state, i.0, i.1).value.next == Processing
  {
  }

  /** An item can be checked out exactly when it is idle and, on its first attempt, its reference is free or, on a
      later one, its backoff has elapsed. Only a later attempt resets the loop counters. */
  lemma CheckoutIff(inputs: seq<ItemInput>, g: WorkitemGuard)
    requires ItemAt(inputs).Some?
    ensures var t := TransitionWorkitem(ItemAt(inputs).value, Checkout, g);
            && (t.Some? <==>
                  Idle(inputs) && if Attempts(0, inputs) == 0 then g.uniqueReferenceFree else g.backoffElapsed)
            && (t.Some? ==>
                  && SetField("checked_out_by") in t.value.commands && SetField("checked_out_at") in t.value.commands
                  && (ResetStepLoopCounters in t.value.commands <==> Attempts(0, inputs) > 0))
  {
    hide ItemAt, Attempts, Idle;
    IdleStates(inputs);
  }

  // ----- work items: commands -----

  /** The inputs that make an item issue a command other than the reset of its loop counters. */
  predicate ItemCauses(i: ItemInput, c: Command) {
    match c
    case SetField(field) =>
      if field == "attempts" then AuthorizedReplay(i)
      else (field == "checked_out_by" || field == "checked_out_at") && ChecksOut(i)
    case PauseCheckoutTimer => i.0 == RunSuspended
    case ResumeCheckoutTimer => i.0 == RunResumed
    case CreateDeadLetter => GivesUp(i)
    case Emit(e) => (e == WorkitemDeadLetteredE && GivesUp(i)) || (e == WorkitemCompletedE && SinkMet(i))
    case _ => false
  }

  function ItemCausing(c: Command): ItemInput -> bool { (i: ItemInput) => ItemCauses(i, c) }

  predicate ItemIssued(state: WorkitemState, i: ItemInput, c: Command) {
    match TransitionWorkitem(state, i.0, i.1)
    case None => false
    case Some(t) => c in t.commands
  }

  function ItemIssues(inputs: seq<ItemInput>, c: Command): nat
    decreases |inputs|
  {
    if inputs == [] then 0
    else
      var init, last := inputs[..|inputs| - 1], inputs[|inputs| - 1];
      ItemIssues(init, c) + if ItemAt(init).Some? && ItemIssued(ItemAt(init).value, last, c) then 1 else 0
  }

  lemma ItemCommandStep(state: WorkitemState, i: ItemInput, c: Command)
    requires TransitionWorkitem(state, i.0, i.1).Some? && c != ResetStepLoopCounters
    ensures ItemIssued(state, i, c) <==> ItemCauses(i, c)
  {
  }

  /** In every history of a new item a command is issued exactly as often as an input that causes it occurs. */
  lemma {:induction false} ItemCommandsAreCaused(inputs: seq<ItemInput>, c: Command)
    requires ItemAt(inputs).Some? && c != ResetStepLoopCounters
    ensures ItemIssues(inputs, c) == Count(ItemCausing(c), inputs)
    decreases |inputs|
  {
    hide TransitionWorkitem, Emitted, ItemCauses, ItemIssued;
    if inputs != [] {
      ItemCommandsAreCaused(inputs[..|inputs| - 1], c);
      ItemCommandStep(ItemAt(inputs[..|inputs| - 1]).value, inputs[|inputs| - 1], c);
    }
  }

  // ----- human tasks -----

  function TaskAt(inputs: seq<TaskInput>): Option<TaskState> {
    match TaskTrace(inputs)
    case None => None
    case Some(l) => Some(l.state)
  }

  function TaskArrivals(inputs: seq<TaskInput>, s: TaskState): nat
    decreases |inputs|
  {
    if inputs == [] then 0
    else
      var init := inputs[..|inputs| - 1];
      TaskArrivals(init, s) + if TaskAt(inputs) == Some(s) && TaskAt(init) != Some(s) then 1 else 0
  }

  /** The events that bring a task into a state, whatever state it was in; a timeout is not one of them. */
  predicate TaskInto(s: TaskState, i: TaskInput) {
    match s
    case Assigned => i.0 == Assign
    case InProgress => i.0 == Start
    case Resolved => i.0 == ResolveTask
    case TaskCancelled => i.0 == CancelTask
    case _ => false
  }

  function TaskEntering(s: TaskState): TaskInput -> bool { (i: TaskInput) => TaskInto(s, i) }

  predicate RunsOut(i: TaskInput) { i.0 == Timeout || i.0 == Escalate }

  predicate Over(s: TaskState) { s == Resolved || s == TaskCancelled || s == Expired }

  lemma TaskIntoStep(state: TaskState, i: TaskInput, s: TaskState)
    requires TransitionTask(state, i.0, i.1).Some?
    ensures var next := TransitionTask(state, i.0, i.1).value.next;
            && next != Open && !Over(state) && next != state
            && (s != Escalated && s != Expired ==> (next == s <==> TaskInto(s, i)))
            && (next == Escalated || next == Expired <==> RunsOut(i))
  {
  }

  /** In every history of an open task a state is entered exactly as often as an event that causes it occurs; the task
      is escalated or expires exactly as often as it runs out of time or is escalated by hand. */
  lemma {:induction false} TaskArrivalsAreCaused(inputs: seq<TaskInput>, s: TaskState)
    requires TaskAt(inputs).Some?
    ensures s != Escalated && s != Expired ==> TaskArrivals(inputs, s) == Count(TaskEntering(s), inputs)
    ensures TaskArrivals(inputs, Escalated) + TaskArrivals(inputs, Expired) == Count(RunsOut, inputs)
    decreases |inputs|
  {
    hide TransitionTask, Emitted, TaskInto, RunsOut;
    if inputs != [] {
      TaskArrivalsAreCaused(inputs[..|inputs| - 1], s);
      TaskIntoStep(TaskAt(inputs[..|inputs| - 1]).value, inputs[|inputs| - 1], s);
    }
  }

  /** The last thing that happened to the task was that it ran out of time or was escalated. */
  predicate JustRanOut(inputs: seq<TaskInput>) { inputs != [] && RunsOut(inputs[|inputs| - 1]) }

  lemma EscalatedIff(inputs: seq<TaskInput>)
    requires TaskAt(inputs).Some? && !Over(TaskAt(inputs).value)
    ensures TaskAt(inputs) == Some(Escalated) <==> JustRanOut(inputs)
  {
    hide TransitionTask, Emitted, RunsOut;
    if inputs != [] {
      TaskIntoStep(TaskAt(inputs[..|inputs| - 1]).value, inputs[|inputs| - 1], Open);
    }
  }

  /** The timeout policy over whole lives: a task that has just been escalated expires, whatever its policy; any other
      task that is not over expires under `Fail`, is escalated under `EscalateTask`, and has no timeout without a
      policy. A task that is over has none either. */
  lemma TimeoutPolicy(inputs: seq<TaskInput>, g: TaskGuard)
    requires TaskAt(inputs).Some?
    ensures var t := TransitionTask(TaskAt(inputs).value, Timeout, g);
            if Over(TaskAt(inputs).value) then t.None?
            else if JustRanOut(inputs) then t == Some(To(Expired, [Emit(TaskExpiredE)]))
            else
              && (t.None? <==> g.onTimeout.None?)
              && (g.onTimeout == Some(Fail) ==> t == Some(To(Expired, [Emit(TaskExpiredE)])))
              && (g.onTimeout == Some(EscalateTask) ==> t == Some(To(Escalated, [Emit(TaskEscalatedE)])))
  {
    hide TaskAt, JustRanOut;
    if !Over(TaskAt(inputs).value) {
      EscalatedIff(inputs);
    }
  }

  /** An assignee is recorded at every assignment, and replaced by an escalation by hand or by the assignment after one
      of either kind. */
  lemma AssigneeIff(inputs: seq<TaskInput>, i: TaskInput)
    requires TaskAt(inputs).Some? && TransitionTask(TaskAt(inputs).value, i.0, i.1).Some?
    ensures var cs := TransitionTask(TaskAt(inputs).value, i.0, i.1).value.commands;
            && (SetField("assignee") in cs <==> i.0 == Assign)
            && (ReassignAssignee in cs <==> i.0 == Escalate || (i.0 == Assign && JustRanOut(inputs)))
  {
    hide TaskAt, JustRanOut;
    TaskIntoStep(TaskAt(inputs).value, i, Open);
    EscalatedIff(inputs);
  }
}
