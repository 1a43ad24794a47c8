/** The languages of work items and human tasks: exactly which events they can have emitted in which state. */
module EntityTraces {
  import opened IrelSyntax
  import opened Lifecycle

  /** A state and everything emitted on the way to it. */
  datatype Life<S> = Life(state: S, word: seq<EventType>)

  type ItemInput = (WorkitemEvent, WorkitemGuard)
  type TaskInput = (TaskEvent, TaskGuard)

  /** `k` times the same event. */
  function Times(e: EventType, k: nat): seq<EventType> {
    if k == 0 then [] else Times(e, k - 1) + [e]
  }

  // ----- work items -----

  function ItemMove(l: Life<WorkitemState>, i: ItemInput): Option<Life<WorkitemState>> {
    match TransitionWorkitem(l.state, i.0, i.1)
    case None => None
    case Some(t) => Some(Life(t.next, l.word + Emitted(t.commands)))
  }

  /** The life of a new item along its inputs. */
  function ItemTrace(inputs: seq<ItemInput>): Option<Life<WorkitemState>>
    decreases |inputs|
  {
    if inputs == [] then Some(Life(New, []))
    else
      match ItemTrace(inputs[..|inputs| - 1])
      case None => None
      case Some(l) => ItemMove(l, inputs[|inputs| - 1])
  }

  /** One dead letter for every time the item was given up; a completion comes last; a system failure is never a
      state of its own. */
  predicate ItemWord(state: WorkitemState, word: seq<EventType>, k: nat) {
    match state
    case Successful => word == Times(WorkitemDeadLetteredE, k) + [WorkitemCompletedE]
    case Abandoned => k > 0 && word == Times(WorkitemDeadLetteredE, k)
    case ItemFailedSystem => false
    case _ => word == Times(WorkitemDeadLetteredE, k)
  }

  ghost predicate ItemLegal(l: Life<WorkitemState>) {
    exists k: nat :: ItemWord(l.state, l.word, k)
  }

  /** The emissions of the moves a work item has. */
  lemma ItemEmits(state: WorkitemState, ev: WorkitemEvent, g: WorkitemGuard)
    requires TransitionWorkitem(state, ev, g).Some?
    ensures var t := TransitionWorkitem(state, ev, g).value;
            && Emitted(t.commands) ==
                 (if t.next == Successful then [WorkitemCompletedE]
                  else if t.next == Abandoned then [WorkitemDeadLetteredE] else [])
            && t.next != ItemFailedSystem
            && state != Successful && state != ItemFailedBusiness && state != ItemFailedSystem
  {
    var cs := TransitionWorkitem(state, ev, g).value.commands;
    assert |cs| > 1 ==> cs[1..][0] == cs[1];
    assert |cs| > 2 ==> cs[1..][1..][0] == cs[2];
  }

  lemma ItemMoveLegal(l: Life<WorkitemState>, i: ItemInput)
    requires ItemLegal(l) && ItemMove(l, i).Some?
    ensures ItemLegal(ItemMove(l, i).value)
  {
    hide Emitted;
    ItemEmits(l.state, i.0, i.1);
    var k: nat :| ItemWord(l.state, l.word, k);
    var m := ItemMove(l, i).value;
    if m.state == Abandoned {
      assert ItemWord(m.state, m.word, k + 1);
    } else {
      assert l.word + [] == l.word;
      assert ItemWord(m.state, m.word, k);
    }
  }

  lemma {:induction false} ItemTraceLegal(inputs: seq<ItemInput>)
    requires ItemTrace(inputs).Some?
    ensures ItemLegal(ItemTrace(inputs).value)
    decreases |inputs|
  {
    hide ItemLegal, ItemMove;
    if inputs == [] {
      FreshItem();
    } else {
      ItemTraceLegal(inputs[..|inputs| - 1]);
      ItemMoveLegal(ItemTrace(inputs[..|inputs| - 1]).value, inputs[|inputs| - 1]);
    }
  }

  lemma FreshItem()
    ensures ItemLegal(Life(New, []))
  {
    assert ItemWord(New, [], 0);
  }

  function ItemGuardFor(below: bool): WorkitemGuard { WorkitemGuard(true, true, Some(below), true, true) }

  /** The event that leads from the first state to the second, when one does. */
  function ItemEventTo(next: WorkitemState): ItemInput {
    match next
    case New => (ManualReplay, ItemGuardFor(false))
    case Processing => (Checkout, ItemGuardFor(false))
    case Successful => (RunSucceeded, ItemGuardFor(false))
    case Retry => (SystemException, ItemGuardFor(true))
    case ItemFailedBusiness => (ItemBusinessException, ItemGuardFor(false))
    case _ => (SystemException, ItemGuardFor(false))
  }

  lemma ItemExtend(inputs: seq<ItemInput>, next: WorkitemState) returns (longer: seq<ItemInput>)
    requires ItemTrace(inputs).Some? && next != ItemFailedSystem
    requires var s := ItemTrace(inputs).value.state;
             (s == New && next == Processing) || (s == Processing && next != New && next != Processing)
                 || (s == Abandoned && next == New)
    ensures ItemTrace(longer) == Some(Life(next, ItemTrace(inputs).value.word +
              (if next == Successful then [WorkitemCompletedE]
                  else if next == Abandoned then [WorkitemDeadLetteredE] else [])))
  {
    hide Emitted;
    var l, i := ItemTrace(inputs).value, ItemEventTo(next);
    ItemEmits(l.state, i.0, i.1);
    longer := inputs + [i];
    assert longer[..|inputs|] == inputs;
  }

  lemma {:induction false} ItemReached(state: WorkitemState, k: nat) returns (inputs: seq<ItemInput>)
    requires state != ItemFailedSystem && (state == Abandoned ==> k > 0)
    ensures ItemTrace(inputs).Some? && ItemTrace(inputs).value.state == state
            && ItemWord(state, ItemTrace(inputs).value.word, k)
    decreases k, if state == New then 0 else if state == Processing then 1 else 2
  {
    hide ItemTrace;
    if state == New {
      if k == 0 {
        inputs := [];
        EmptyItem();
      } else {
        var before := ItemReached(Processing, k - 1);
        before := ItemExtend(before, Abandoned);
        inputs := ItemExtend(before, New);
      }
    } else if state == Processing {
      var before := ItemReached(New, k);
      inputs := ItemExtend(before, Processing);
    } else {
      var before := ItemReached(Processing, if state == Abandoned then k - 1 else k);
      inputs := ItemExtend(before, state);
    }
  }

  lemma EmptyItem()
    ensures ItemTrace([]) == Some(Life(New, []))
  {
  }

  /** The language is exact. */
  lemma ItemLanguage(l: Life<WorkitemState>)
    ensures ItemLegal(l) <==> exists inputs :: ItemTrace(inputs) == Some(l)
  {
    if inputs :| ItemTrace(inputs) == Some(l) {
      ItemTraceLegal(inputs);
    }
    if ItemLegal(l) {
      var k: nat :| ItemWord(l.state, l.word, k);
      var inputs := ItemReached(l.state, k);
      assert ItemTrace(inputs) == Some(l);
    }
  }

  // ----- human tasks -----

  function TaskMove(l: Life<TaskState>, i: TaskInput): Option<Life<TaskState>> {
    match TransitionTask(l.state, i.0, i.1)
    case None => None
    case Some(t) => Some(Life(t.next, l.word + Emitted(t.commands)))
  }

  function TaskTrace(inputs: seq<TaskInput>): Option<Life<TaskState>>
    decreases |inputs|
  {
    if inputs == [] then Some(Life(Open, []))
    else
      match TaskTrace(inputs[..|inputs| - 1])
      case None => None
      case Some(l) => TaskMove(l, inputs[|inputs| - 1])
  }

  /** Any number of escalations, none while open and at least one once escalated, then the end, if it is one that is
      announced. */
  predicate TaskWord(state: TaskState, word: seq<EventType>, k: nat) {
    var escalations := Times(TaskEscalatedE, k);
    match state
    case Open => k == 0 && word == escalations
    case Escalated => k > 0 && word == escalations
    case Resolved => word == escalations + [TaskResolvedE]
    case Expired => word == escalations + [TaskExpiredE]
    case _ => word == escalations
  }

  ghost predicate TaskLegal(l: Life<TaskState>) {
    exists k: nat :: TaskWord(l.state, l.word, k)
  }

  lemma TaskEmits(state: TaskState, ev: TaskEvent, g: TaskGuard)
    requires TransitionTask(state, ev, g).Some?
    ensures var t := TransitionTask(state, ev, g).value;
            && Emitted(t.commands) ==
                 (match t.next
                  case Resolved => [TaskResolvedE]
                  case Expired => [TaskExpiredE]
                  case Escalated => [TaskEscalatedE]
                  case _ => [])
            && t.next != Open
            && state != Resolved && state != Expired && state != TaskCancelled
  {
    hide Emitted;
    EmittedShort(TransitionTask(state, ev, g).value.commands);
  }

  lemma EmittedShort(cs: seq<Command>)
    ensures |cs| <= 2 ==>
              Emitted(cs) == (if |cs| > 0 && cs[0].Emit? then [cs[0].event] else [])
                  + (if |cs| > 1 && cs[1].Emit? then [cs[1].event] else [])
  {
    assert |cs| == 2 ==> cs[1..] == [cs[1]] && cs[1..][1..] == [];
  }

  lemma TaskMoveLegal(l: Life<TaskState>, i: TaskInput)
    requires TaskLegal(l) && TaskMove(l, i).Some?
    ensures TaskLegal(TaskMove(l, i).value)
  {
    hide Emitted;
    TaskEmits(l.state, i.0, i.1);
    var k: nat :| TaskWord(l.state, l.word, k);
    var m := TaskMove(l, i).value;
    if m.state == Escalated {
      assert TaskWord(m.state, m.word, k + 1);
    } else {
      assert l.word + [] == l.word;
      assert TaskWord(m.state, m.word, k);
    }
  }

  lemma {:induction false} TaskTraceLegal(inputs: seq<TaskInput>)
    requires TaskTrace(inputs).Some?
    ensures TaskLegal(TaskTrace(inputs).value)
    decreases |inputs|
  {
    hide TaskLegal, TaskMove;
    if inputs == [] {
      FreshTask();
    } else {
      TaskTraceLegal(inputs[..|inputs| - 1]);
      TaskMoveLegal(TaskTrace(inputs[..|inputs| - 1]).value, inputs[|inputs| - 1]);
    }
  }

  lemma FreshTask()
    ensures TaskLegal(Life(Open, []))
  {
    assert TaskWord(Open, [], 0);
  }

  function TaskEventTo(next: TaskState): TaskInput {
    match next
    case Assigned => (Assign, TaskGuard(None))
    case InProgress => (Start, TaskGuard(None))
    case Resolved => (ResolveTask, TaskGuard(None))
    case Escalated => (Escalate, TaskGuard(None))
    case TaskCancelled => (CancelTask, TaskGuard(None))
    case _ => (Timeout, TaskGuard(Some(Fail)))
  }

  lemma TaskExtend(inputs: seq<TaskInput>, next: TaskState) returns (longer: seq<TaskInput>)
    requires TaskTrace(inputs).Some?
    requires var s := TaskTrace(inputs).value.state;
             || ((s == Open || s == Escalated) && next == Assigned)
                 || (s == Assigned && (next == InProgress || next == Escalated))
             || (s == InProgress && (next == Resolved || next == Expired || next == TaskCancelled))
    ensures TaskTrace(longer) == Some(Life(next, TaskTrace(inputs).value.word +
              (match next
               case Resolved => [TaskResolvedE]
               case Expired => [TaskExpiredE]
               case Escalated => [TaskEscalatedE]
               case _ => [])))
  {
    hide Emitted;
    var l, i := TaskTrace(inputs).value, TaskEventTo(next);
    TaskEmits(l.state, i.0, i.1);
    longer := inputs + [i];
    assert longer[..|inputs|] == inputs;
  }

  function TaskRank(state: TaskState): nat {
    match state
    case Open => 0
    case Escalated => 0
    case Assigned => 1
    case InProgress => 2
    case _ => 3
  }

  lemma {:induction false} TaskReached(state: TaskState, k: nat) returns (inputs: seq<TaskInput>)
    requires (state == Open ==> k == 0) && (state == Escalated ==> k > 0)
    ensures TaskTrace(inputs).Some? && TaskTrace(inputs).value.state == state
            && TaskWord(state, TaskTrace(inputs).value.word, k)
    decreases k, TaskRank(state)
  {
    hide TaskTrace;
    if state == Open {
      inputs := [];
      EmptyTask();
    } else if state == Escalated {
      var before := TaskReached(Assigned, k - 1);
      inputs := TaskExtend(before, Escalated);
    } else if state == Assigned {
      var before := TaskReached(if k == 0 then Open else Escalated, k);
      inputs := TaskExtend(before, Assigned);
    } else {
      var before := TaskReached(if state == InProgress then Assigned else InProgress, k);
      inputs := TaskExtend(before, state);
    }
  }

  lemma EmptyTask()
    ensures TaskTrace([]) == Some(Life(Open, []))
  {
  }

  /** The language is exact. */
  lemma TaskLanguage(l: Life<TaskState>)
    ensures TaskLegal(l) <==> exists inputs :: TaskTrace(inputs) == Some(l)
  {
    if inputs :| TaskTrace(inputs) == Some(l) {
      TaskTraceLegal(inputs);
    }
    if TaskLegal(l) {
      var k: nat :| TaskWord(l.state, l.word, k);
      var inputs := TaskReached(l.state, k);
      assert TaskTrace(inputs) == Some(l);
    }
  }
}
