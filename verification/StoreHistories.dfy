/** Compare-and-set is faithful: over any run of the store, each entity's status is where its transition function
    leads from its seed along the inputs that were applied to it. */
module StoreHistories {
  import opened IrelSyntax
  import opened Lifecycle
  import Outbox
  import opened Entities
  import opened StoreRuns
  import RunTraces
  import opened EntityTraces

  /** The same entry, or none in either. */
  predicate SameAt<V(==)>(a: map<Id, V>, b: map<Id, V>, id: Id) {
    (id in a <==> id in b) && (id in a ==> a[id] == b[id])
  }

  /** Whether an operation can change a given run, work item or task. */
  predicate TouchesRun(op: Op, id: Id) { (op.SeedRun? || op.RunOp?) && op.id == id }

  predicate TouchesItem(op: Op, id: Id) { ((op.SeedItem? || op.ItemOp?) && op.id == id) || op.ReplayBegin? }

  predicate TouchesTask(op: Op, id: Id) { (op.SeedTask? || op.TaskOp?) && op.id == id }

  lemma Untouched(w: World, op: Op, id: Id)
    ensures var v := WorldNext(w, op);
            && (!TouchesRun(op, id) ==> SameAt(v.runs, w.runs, id))
            && (!TouchesItem(op, id) ==> SameAt(v.items, w.items, id))
            && (!TouchesTask(op, id) ==> SameAt(v.tasks, w.tasks, id))
  {
    hide ApplyRun, ApplyItem, ApplyTask, ReplayApply, ReplayAnswer, RunAfter, ItemAfter, TaskAfter, HasOpen;
    match op
    case RunOp(id', ev, g, exp) => RunApplied(w, id', ev, g, exp);
    case ItemOp(id', ev, g, exp) => ItemApplied(w, id', ev, g, exp);
    case TaskOp(id', ev, g, exp) => TaskApplied(w, id', ev, g, exp);
    case ReplayBegin(tenant, letter) => ReplayApplied(w, tenant, letter);
    case _ =>
  }

  /** The stored rows of the next system are those of the next world. */
  lemma NextRows(s: System, op: Op)
    ensures var t := Next(s, op).world;
            && (t.runs == WorldNext(s.world, op).runs)
            && (t.items == WorldNext(s.world, op).items)
            && (t.tasks == WorldNext(s.world, op).tasks)
  {
    hide WorldNext, ReplayAnswer, DraftsOf, Outbox.Next;
    RelaysLeaveWorld(s.world, op);
    if op.ReplayEnd? {
      CloseLeavesRows(s.world, op.letter);
    }
  }

  lemma RelaysLeaveWorld(w: World, op: Op)
    ensures op.PollOp? || op.PublishOp? || op.MarkOp? ==> WorldNext(w, op) == w
  {
    hide ApplyRun, ApplyItem, ApplyTask, ReplayApply;
  }

  lemma CloseLeavesRows(w: World, letter: nat)
    ensures var v := WorldNext(w, ReplayEnd(letter)); v.runs == w.runs && v.items == w.items && v.tasks == w.tasks
  {
  }

  // ----- runs -----

  /** The life of a run since it was last seeded: the inputs that were applied to it and the events they emitted. */
  datatype RunHistory = RunHistory(seed: RunState, inputs: seq<RunTraces.Input>, word: seq<EventType>)

  function RunLife(relays: nat, ops: seq<Op>, id: Id): Option<RunHistory>
    decreases |ops|
  {
    if ops == [] then None
    else
      var op := ops[|ops| - 1];
      var before := RunLife(relays, ops[..|ops| - 1], id);
      if op.SeedRun? && op.id == id then Some(RunHistory(op.run, [], []))
      else if op.RunOp? && op.id == id && before.Some? then
        match ApplyRun(After(Boot(relays), ops[..|ops| - 1]).world, id, op.runEvent, op.runGuard, op.runExpected).1
        case Applied(_, commands, _) =>
          var h := before.value;
          Some(RunHistory(h.seed, h.inputs + [(op.runEvent, op.runGuard)], h.word + Emitted(commands)))
        case _ => before
      else before
  }

  /** Whatever stale states the callers expected, a stored run is where the transition function leads from its seed
      along the applied inputs, and it emitted exactly the events of that trace. */
  lemma {:induction false} RunCas(relays: nat, ops: seq<Op>, id: Id)
    ensures var row := After(Boot(relays), ops).world.runs; var life := RunLife(relays, ops, id);
            && (id in row <==> life.Some?)
            && (id in row ==>
                 RunTraces.Trace(RunTraces.Run(life.value.seed, []), life.value.inputs)
                 == Some(RunTraces.Run(row[id].status, life.value.word)))
    decreases |ops|
  {
    hide ApplyRun, TransitionRun, Next, RunTraces.Trace;
    if ops == [] {
      assert RunLife(relays, ops, id) == None;
    } else {
      var init, op := ops[..|ops| - 1], ops[|ops| - 1];
      RunCas(relays, init, id);
      var s := After(Boot(relays), init);
      NextRows(s, op);
      Untouched(s.world, op, id);
      if op.RunOp? && op.id == id {
        RunApplied(s.world, id, op.runEvent, op.runGuard, op.runExpected);
        if id in s.world.runs {
          var h := RunLife(relays, init, id).value;
          RunStep(s.world.runs[id].status, h, op.runEvent, op.runGuard);
        }
      } else if TouchesRun(op, id) {
        TraceNothing(op.run);
      }
    }
  }

  lemma TraceNothing(seed: RunState)
    ensures RunTraces.Trace(RunTraces.Run(seed, []), []) == Some(RunTraces.Run(seed, []))
  {
  }

  lemma RunStep(status: RunState, h: RunHistory, ev: RunEvent, g: RunGuard)
    requires RunTraces.Trace(RunTraces.Run(h.seed, []), h.inputs) == Some(RunTraces.Run(status, h.word))
    ensures TransitionRun(status, ev, g).Some? ==>
              var t := TransitionRun(status, ev, g).value;
              RunTraces.Trace(RunTraces.Run(h.seed, []), h.inputs + [(ev, g)])
                  == Some(RunTraces.Run(t.next, h.word + Emitted(t.commands)))
  {
    hide TransitionRun, Emitted;
    RunTraces.TraceConcat(RunTraces.Run(h.seed, []), h.inputs, [(ev, g)]);
  }

  /** A run seeded as queued emits a word of the run language, the one that belongs to its stored status. */
  lemma StoredRunLegal(relays: nat, ops: seq<Op>, id: Id)
    requires RunLife(relays, ops, id).Some? && RunLife(relays, ops, id).value.seed == Queued
    ensures var h := RunLife(relays, ops, id).value; var rows := After(Boot(relays), ops).world.runs;
            id in rows && RunTraces.Legal(RunTraces.Run(rows[id].status, h.word))
  {
    hide RunTraces.Legal, RunTraces.Trace, RunLife, After;
    RunCas(relays, ops, id);
    RunTraces.RunLanguage(RunTraces.Run(After(Boot(relays), ops).world.runs[id].status,
        RunLife(relays, ops, id).value.word));
  }

  // ----- work items and human tasks -----

  /** Where a partial step function leads along a list of inputs. */
  function Along<S, I>(step: (S, I) -> Option<S>, s: S, inputs: seq<I>): Option<S>
    decreases |inputs|
  {
    if inputs == [] then Some(s)
    else
      match Along(step, s, inputs[..|inputs| - 1])
      case None => None
      case Some(t) => step(t, inputs[|inputs| - 1])
  }

  /** One more input. */
  lemma AlongSnoc<S, I>(step: (S, I) -> Option<S>, s: S, inputs: seq<I>, i: I)
    requires Along(step, s, inputs).Some?
    ensures Along(step, s, inputs + [i]) == step(Along(step, s, inputs).value, i)
  {
    assert (inputs + [i])[..|inputs|] == inputs;
  }

  lemma AlongNothing<S, I>(step: (S, I) -> Option<S>, s: S)
    ensures Along(step, s, []) == Some(s)
  {
  }

  /** A seed, the inputs applied since, and the events they emitted. */
  datatype History<S, I> = History(seed: S, inputs: seq<I>, word: seq<EventType>)

  function Grown<S, I>(h: History<S, I>, input: I, commands: seq<Command>): History<S, I> {
    History(h.seed, h.inputs + [input], h.word + Emitted(commands))
  }

  /** The life of a work item since it was last seeded; an accepted replay counts as its manual-replay event. */
  function ItemLife(relays: nat, ops: seq<Op>, id: Id): Option<History<WorkitemState, ItemInput>>
    decreases |ops|
  {
    if ops == [] then None
    else
      var op := ops[|ops| - 1];
      var before := ItemLife(relays, ops[..|ops| - 1], id);
      var w := After(Boot(relays), ops[..|ops| - 1]).world;
      if op.SeedItem? && op.id == id then Some(History(op.item, [], []))
      else if before.None? then None
      else if op.ItemOp? && op.id == id then
        match ApplyItem(w, id, op.itemEvent, op.itemGuard, op.itemExpected).1
        case Applied(_, commands, _) => Some(Grown(before.value, (op.itemEvent, op.itemGuard), commands))
        case _ => before
      else if op.ReplayBegin? && op.tenant == id.tenant && ReplayAnswer(w, op.tenant, op.letter) == Replayed(id.id)
      then Some(Grown(before.value, (ManualReplay, REPLAY), []))
      else before
  }

  function TaskLife(relays: nat, ops: seq<Op>, id: Id): Option<History<TaskState, TaskInput>>
    decreases |ops|
  {
    if ops == [] then None
    else
      var op := ops[|ops| - 1];
      var before := TaskLife(relays, ops[..|ops| - 1], id);
      var w := After(Boot(relays), ops[..|ops| - 1]).world;
      if op.SeedTask? && op.id == id then Some(History(op.task, [], []))
      else if op.TaskOp? && op.id == id && before.Some? then
        match ApplyTask(w, id, op.taskEvent, op.taskGuard, op.taskExpected).1
        case Applied(_, commands, _) => Some(Grown(before.value, (op.taskEvent, op.taskGuard), commands))
        case _ => before
      else before
  }

  lemma ReplayIsLegal(word: seq<EventType>)
    ensures ItemMove(Life(Abandoned, word), (ManualReplay, REPLAY)) == Some(Life(New, word))
            && word + Emitted([]) == word
  {
    assert Emitted([SetField("attempts")]) == [];
    assert word + [] == word;
  }

  /** A stored work item is where the transition function leads from its seed along the applied inputs, and it emitted
      exactly the events of that trace. */
  lemma {:induction false} ItemCas(relays: nat, ops: seq<Op>, id: Id)
    ensures var rows := After(Boot(relays), ops).world.items; var life := ItemLife(relays, ops, id);
            && (id in rows <==> life.Some?)
            && (id in rows ==>
                 Along(ItemMove, Life(life.value.seed, []), life.value.inputs)
                     == Some(Life(rows[id].status, life.value.word)))
    decreases |ops|
  {
    hide ApplyItem, TransitionWorkitem, ReplayApply, ReplayAnswer, Along, Next, Emitted;
    if ops == [] {
      assert ItemLife(relays, ops, id) == None;
    } else {
      var init, op := ops[..|ops| - 1], ops[|ops| - 1];
      ItemCas(relays, init, id);
      var s := After(Boot(relays), init);
      NextRows(s, op);
      Untouched(s.world, op, id);
      if op.ItemOp? && op.id == id {
        ItemApplied(s.world, id, op.itemEvent, op.itemGuard, op.itemExpected);
        if id in s.world.items {
          var h := ItemLife(relays, init, id).value;
          AlongSnoc(ItemMove, Life(h.seed, []), h.inputs, (op.itemEvent, op.itemGuard));
        }
      } else if op.ReplayBegin? {
        ReplayApplied(s.world, op.tenant, op.letter);
        if id in s.world.items {
          var h := ItemLife(relays, init, id).value;
          ReplayIsLegal(h.word);
          AlongSnoc(ItemMove, Life(h.seed, []), h.inputs, (ManualReplay, REPLAY));
        }
      } else if TouchesItem(op, id) {
        AlongNothing(ItemMove, Life(op.item, []));
      }
    }
  }

  /** The same for human tasks. */
  lemma {:induction false} TaskCas(relays: nat, ops: seq<Op>, id: Id)
    ensures var rows := After(Boot(relays), ops).world.tasks; var life := TaskLife(relays, ops, id);
            && (id in rows <==> life.Some?)
            && (id in rows ==>
                 Along(TaskMove, Life(life.value.seed, []), life.value.inputs)
                     == Some(Life(rows[id].status, life.value.word)))
    decreases |ops|
  {
    hide ApplyTask, TransitionTask, Along, Next, Emitted;
    if ops == [] {
      assert TaskLife(relays, ops, id) == None;
    } else {
      var init, op := ops[..|ops| - 1], ops[|ops| - 1];
      TaskCas(relays, init, id);
      var s := After(Boot(relays), init);
      NextRows(s, op);
      Untouched(s.world, op, id);
      if op.TaskOp? && op.id == id {
        TaskApplied(s.world, id, op.taskEvent, op.taskGuard, op.taskExpected);
        if id in s.world.tasks {
          var h := TaskLife(relays, init, id).value;
          AlongSnoc(TaskMove, Life(h.seed, []), h.inputs, (op.taskEvent, op.taskGuard));
        }
      } else if TouchesTask(op, id) {
        AlongNothing(TaskMove, Life(op.task, []));
      }
    }
  }

  lemma {:induction false} AlongItem(inputs: seq<ItemInput>)
    ensures Along(ItemMove, Life(New, []), inputs) == ItemTrace(inputs)
    decreases |inputs|
  {
    hide ItemMove;
    if inputs != [] {
      AlongItem(inputs[..|inputs| - 1]);
    }
  }

  lemma {:induction false} AlongTask(inputs: seq<TaskInput>)
    ensures Along(TaskMove, Life(Open, []), inputs) == TaskTrace(inputs)
    decreases |inputs|
  {
    hide TaskMove;
    if inputs != [] {
      AlongTask(inputs[..|inputs| - 1]);
    }
  }

  /** An item seeded as new has emitted a word of the item language, the one that belongs to its stored status. */
  lemma StoredItemLegal(relays: nat, ops: seq<Op>, id: Id)
    requires ItemLife(relays, ops, id).Some? && ItemLife(relays, ops, id).value.seed == New
    ensures var h := ItemLife(relays, ops, id).value; var rows := After(Boot(relays), ops).world.items;
            id in rows && ItemLegal(Life(rows[id].status, h.word))
  {
    hide ItemLegal, ItemTrace, ItemLife, After, Along;
    ItemCas(relays, ops, id);
    var inputs := ItemLife(relays, ops, id).value.inputs;
    AlongItem(inputs);
    ItemTraceLegal(inputs);
  }

  /** A task seeded as open has emitted a word of the task language, the one that belongs to its stored status. */
  lemma StoredTaskLegal(relays: nat, ops: seq<Op>, id: Id)
    requires TaskLife(relays, ops, id).Some? && TaskLife(relays, ops, id).value.seed == Open
    ensures var h := TaskLife(relays, ops, id).value; var rows := After(Boot(relays), ops).world.tasks;
            id in rows && TaskLegal(Life(rows[id].status, h.word))
  {
    hide TaskLegal, TaskTrace, TaskLife, After, Along;
    TaskCas(relays, ops, id);
    var inputs := TaskLife(relays, ops, id).value.inputs;
    AlongTask(inputs);
    TaskTraceLegal(inputs);
  }
}
