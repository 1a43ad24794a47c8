/** What the stored rows say about their own past: attempts, pauses, ends and assignees are exactly those of the inputs
    that were applied since the seed, at the times they were applied. */
module StoreCounters {
  import opened IrelSyntax
  import opened Lifecycle
  import opened Entities
  import opened StoreRuns
  import opened StoreHistories
  import opened EntityTraces
  import opened GuardTraces
  import opened EntityOutcomes
  import opened OutcomeTraces
  import RunTraces

  // ----- work items -----

  /** The attempts an item was last seeded with. */
  function ItemSeed(ops: seq<Op>, id: Id): nat
    decreases |ops|
  {
    if ops == [] then 0
    else
      var op := ops[|ops| - 1];
      if op.SeedItem? && op.id == id then op.attempts else ItemSeed(ops[..|ops| - 1], id)
  }

  /** The clock at each input applied to an item since its seed. */
  function ItemTimes(relays: nat, ops: seq<Op>, id: Id): seq<int>
    decreases |ops|
  {
    if ops == [] then []
    else
      var init, op := ops[..|ops| - 1], ops[|ops| - 1];
      var before, after := ItemLife(relays, init, id), ItemLife(relays, ops, id);
      if op.SeedItem? && op.id == id then []
      else if before.Some? && after.Some? && |after.value.inputs| > |before.value.inputs|
      then ItemTimes(relays, init, id) + [After(Boot(relays), init).world.clock]
      else ItemTimes(relays, init, id)
  }

  predicate Timer(i: ItemInput) { i.0 == RunSuspended || i.0 == RunResumed || i.0 == ManualReplay }

  /** The checkout timer was paused then and has not been touched since. */
  predicate PausedAtStep(inputs: seq<ItemInput>, k: nat) {
    k < |inputs| && inputs[k].0 == RunSuspended && forall j :: k < j < |inputs| ==> !Timer(inputs[j])
  }

  /** The row tells of its inputs. */
  ghost predicate ItemRecords(row: ItemRow, seed: nat, inputs: seq<ItemInput>, times: seq<int>) {
    && |times| == |inputs|
    && row.attempts == Attempts(seed, inputs)
    && (inputs != [] ==> row.updatedAt == times[|times| - 1])
    && (row.pausedAt.Some? <==> exists k: nat :: PausedAtStep(inputs, k))
    && (forall k: nat :: PausedAtStep(inputs, k) ==> row.pausedAt == Some(times[k]))
  }

  lemma PausedSnoc(inputs: seq<ItemInput>, i: ItemInput, k: nat)
    ensures PausedAtStep(inputs + [i], k) <==>
            if k == |inputs| then i.0 == RunSuspended else PausedAtStep(inputs, k) && !Timer(i)
  {
    var all := inputs + [i];
    if k < |inputs| {
      assert all[k] == inputs[k] && all[|inputs|] == i;
      if PausedAtStep(all, k) {
        forall j | k < j < |inputs|
          ensures !Timer(inputs[j])
        {
          assert all[j] == inputs[j];
        }
      }
    }
  }

  lemma RecordsGrow(row: ItemRow, seed: nat, inputs: seq<ItemInput>, times: seq<int>, i: ItemInput,
                    next: WorkitemState, clock: int)
    requires ItemRecords(row, seed, inputs, times)
    requires Fails(i) ==> next == Retry || next == Abandoned
    requires i.0 == ManualReplay ==> next == New
    ensures ItemRecords(ItemAfter(row, i.0, next, clock), seed, inputs + [i], times + [clock])
  {
    hide PausedAtStep;
    var after, all := ItemAfter(row, i.0, next, clock), inputs + [i];
    assert all[..|inputs|] == inputs;
    forall k: nat
      ensures PausedAtStep(all, k) <==>
              if k == |inputs| then i.0 == RunSuspended else PausedAtStep(inputs, k) && !Timer(i)
      ensures PausedAtStep(inputs, k) ==> k < |inputs|
    {
      PausedSnoc(inputs, i, k);
      PausedBound(inputs, k);
    }
    if i.0 == RunSuspended {
      assert PausedAtStep(all, |inputs|);
    } else if row.pausedAt.Some? && !Timer(i) {
      var k: nat :| PausedAtStep(inputs, k);
      assert PausedAtStep(all, k);
    }
    forall k: nat | PausedAtStep(all, k)
      ensures after.pausedAt == Some((times + [clock])[k])
    {
    }
  }

  lemma PausedBound(inputs: seq<ItemInput>, k: nat)
    ensures PausedAtStep(inputs, k) ==> k < |inputs|
  {
  }

  lemma FailureMoves(state: WorkitemState, i: ItemInput)
    requires TransitionWorkitem(state, i.0, i.1).Some?
    ensures var next := TransitionWorkitem(state, i.0, i.1).value.next;
            (Fails(i) ==> next == Retry || next == Abandoned) && (i.0 == ManualReplay ==> next == New)
  {
  }

  /** However the callers race, a stored item's attempts are the failures applied to it since its last replay, and its
      timer is paused exactly since the suspension that nothing has ended. */
  lemma {:induction false} ItemCounts(relays: nat, ops: seq<Op>, id: Id)
    ensures var rows := After(Boot(relays), ops).world.items; var life := ItemLife(relays, ops, id);
            && (id in rows <==> life.Some?)
            && (id in rows ==>
                  ItemRecords(rows[id], ItemSeed(ops, id), life.value.inputs, ItemTimes(relays, ops, id)))
    decreases |ops|
  {
    hide ApplyItem, TransitionWorkitem, ReplayApply, ReplayAnswer, Next, Emitted, ItemRecords, ItemAfter;
    if ops == [] {
      assert ItemLife(relays, ops, id) == None;
    } else {
      var init, op := ops[..|ops| - 1], ops[|ops| - 1];
      ItemCounts(relays, init, id);
      var s := After(Boot(relays), init);
      NextRows(s, op);
      Untouched(s.world, op, id);
      if op.ItemOp? && op.id == id {
        ItemApplied(s.world, id, op.itemEvent, op.itemGuard, op.itemExpected);
        var out := ApplyItem(s.world, id, op.itemEvent, op.itemGuard, op.itemExpected).1;
        if out.Applied? {
          FailureMoves(s.world.items[id].status, (op.itemEvent, op.itemGuard));
          RecordsGrow(s.world.items[id], ItemSeed(init, id), ItemLife(relays, init, id).value.inputs,
            ItemTimes(relays, init, id), (op.itemEvent, op.itemGuard), out.next, s.world.clock);
        }
      } else if op.ReplayBegin? {
        ReplayApplied(s.world, op.tenant, op.letter);
        if id in s.world.items {
          RecordsGrow(s.world.items[id], ItemSeed(init, id), ItemLife(relays, init, id).value.inputs,
            ItemTimes(relays, init, id), (ManualReplay, REPLAY), New, s.world.clock);
          ReplayedRow(s.world.items[id], s.world.clock);
        }
      } else if TouchesItem(op, id) {
        RecordsSeed(op.item, op.attempts, s.world.clock);
      }
    }
  }

  lemma ReplayedRow(row: ItemRow, clock: int)
    ensures ItemAfter(row, ManualReplay, New, clock) == ItemRow(New, 0, clock, None)
  {
  }

  lemma RecordsSeed(state: WorkitemState, attempts: nat, clock: int)
    ensures ItemRecords(ItemRow(state, attempts, clock, None), attempts, [], [])
  {
  }

  // ----- runs -----

  function RunSeed(ops: seq<Op>, id: Id): nat
    decreases |ops|
  {
    if ops == [] then 0
    else
      var op := ops[|ops| - 1];
      if op.SeedRun? && op.id == id then op.attempts else RunSeed(ops[..|ops| - 1], id)
  }

  function RunTimes(relays: nat, ops: seq<Op>, id: Id): seq<int>
    decreases |ops|
  {
    if ops == [] then []
    else
      var init, op := ops[..|ops| - 1], ops[|ops| - 1];
      var before, after := RunLife(relays, init, id), RunLife(relays, ops, id);
      if op.SeedRun? && op.id == id then []
      else if before.Some? && after.Some? && |after.value.inputs| > |before.value.inputs|
      then RunTimes(relays, init, id) + [After(Boot(relays), init).world.clock]
      else RunTimes(relays, init, id)
  }

  /** One attempt per initialisation failure below the threshold; the end is the time of the last input, if that
      ended the run. */
  ghost predicate RunRecords(row: RunRow, seed: nat, inputs: seq<RunTraces.Input>, times: seq<int>) {
    && |times| == |inputs|
    && row.attempts == seed + Count(BelowThreshold, inputs)
    && (inputs != [] ==> row.updatedAt == times[|times| - 1])
    && row.endedAt == if inputs != [] && Terminal(row.status) then Some(times[|times| - 1]) else None
  }

  lemma RunRecordsGrow(row: RunRow, seed: nat, inputs: seq<RunTraces.Input>, times: seq<int>, i: RunTraces.Input,
                       clock: int)
    requires RunRecords(row, seed, inputs, times) && TransitionRun(row.status, i.0, i.1).Some?
    ensures RunRecords(RunAfter(row, i.0, TransitionRun(row.status, i.0, i.1).value.next, clock), seed, inputs + [i],
              times + [clock])
  {
    hide TransitionRun;
    assert (inputs + [i])[..|inputs|] == inputs;
    IntoStep(row.status, i, Queued);
    TerminalStays(row.status, i);
    QueuedLeaves(row.status, i);
  }

  lemma QueuedLeaves(state: RunState, i: RunTraces.Input)
    ensures state == Queued && TransitionRun(state, i.0, i.1).Some? ==> i.0 != InitFailed
  {
  }

  /** However the callers race, a stored run's attempts are the requeues applied to it, and it has an end exactly when
      an input ended it, at the time of that input. */
  lemma {:induction false} RunCounts(relays: nat, ops: seq<Op>, id: Id)
    ensures var rows := After(Boot(relays), ops).world.runs; var life := RunLife(relays, ops, id);
            && (id in rows <==> life.Some?)
            && (id in rows ==> RunRecords(rows[id], RunSeed(ops, id), life.value.inputs, RunTimes(relays, ops, id)))
    decreases |ops|
  {
    hide ApplyRun, TransitionRun, Next, Emitted, RunRecords, RunAfter;
    if ops == [] {
      assert RunLife(relays, ops, id) == None;
    } else {
      var init, op := ops[..|ops| - 1], ops[|ops| - 1];
      RunCounts(relays, init, id);
      var s := After(Boot(relays), init);
      NextRows(s, op);
      Untouched(s.world, op, id);
      if op.RunOp? && op.id == id {
        RunApplied(s.world, id, op.runEvent, op.runGuard, op.runExpected);
        if ApplyRun(s.world, id, op.runEvent, op.runGuard, op.runExpected).1.Applied? {
          RunRecordsGrow(s.world.runs[id], RunSeed(init, id), RunLife(relays, init, id).value.inputs,
            RunTimes(relays, init, id), (op.runEvent, op.runGuard), s.world.clock);
        }
      } else if TouchesRun(op, id) {
        RunRecordsSeed(op.run, op.attempts, s.world.clock);
      }
    }
  }

  lemma RunRecordsSeed(state: RunState, attempts: nat, clock: int)
    ensures RunRecords(RunRow(state, attempts, clock, None), attempts, [], [])
  {
  }

  // ----- human tasks -----

  predicate Assigns(i: TaskInput) { i.0 == Assign }

  /** A stored task has an assignee exactly when it was ever assigned, and keeps the first. */
  lemma {:induction false} TaskAssignee(relays: nat, ops: seq<Op>, id: Id)
    ensures var rows := After(Boot(relays), ops).world.tasks; var life := TaskLife(relays, ops, id);
            && (id in rows <==> life.Some?)
            && (id in rows ==>
                  rows[id].assignee == if Count(Assigns, life.value.inputs) > 0 then Some("fixture-assignee") else None)
    decreases |ops|
  {
    hide ApplyTask, TransitionTask, Next, Emitted;
    if ops == [] {
      assert TaskLife(relays, ops, id) == None;
    } else {
      var init, op := ops[..|ops| - 1], ops[|ops| - 1];
      TaskAssignee(relays, init, id);
      var s := After(Boot(relays), init);
      NextRows(s, op);
      Untouched(s.world, op, id);
      if op.TaskOp? && op.id == id {
        TaskApplied(s.world, id, op.taskEvent, op.taskGuard, op.taskExpected);
        if id in s.world.tasks {
          CountSnoc(Assigns, TaskLife(relays, init, id).value.inputs, (op.taskEvent, op.taskGuard));
        }
      }
    }
  }

  lemma CountSnoc<I>(p: I -> bool, inputs: seq<I>, i: I)
    ensures Count(p, inputs + [i]) == Count(p, inputs) + if p(i) then 1 else 0
  {
    assert (inputs + [i])[..|inputs|] == inputs;
  }
}
