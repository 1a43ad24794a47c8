/** What the outbox keeps of a run's events: every trace of the transition function is realised by the store, every
    emitted event type has a row, and repeated suspensions share one, because keys count no occurrences. */
module StoreEvents {
  import opened IrelSyntax
  import opened Lifecycle
  import opened Entities
  import opened StoreRuns
  import opened StoreHistories
  import Outbox
  import RunTraces
  import EntityTraces

  // ----- every trace is realised -----

  function OpOf(id: Id, input: RunTraces.Input): Op {
    RunOp(id, input.0, input.1, None)
  }

  /** Seeds a queued run and applies the inputs one by one. */
  function Script(id: Id, inputs: seq<RunTraces.Input>): (ops: seq<Op>)
    ensures |ops| == |inputs| + 1
  {
    if inputs == [] then [SeedRun(id, Queued, 0)]
    else Script(id, inputs[..|inputs| - 1]) + [OpOf(id, inputs[|inputs| - 1])]
  }

  /** Any inputs the machine accepts can be driven through the store, with the same emissions. */
  lemma {:induction false} Realised(id: Id, inputs: seq<RunTraces.Input>)
    requires RunTraces.Trace(RunTraces.FRESH, inputs).Some?
    ensures RunLife(0, Script(id, inputs), id)
            == Some(RunHistory(Queued, inputs, RunTraces.Trace(RunTraces.FRESH, inputs).value.word))
    decreases |inputs|
  {
    hide TransitionRun, After, ApplyRun, RunTraces.Trace, RunLife, Emitted;
    if inputs == [] {
      SeedLife(id);
      RunTraces.TraceNothing();
    } else {
      var init, last := inputs[..|inputs| - 1], inputs[|inputs| - 1];
      RunTraces.TraceInit(inputs);
      Realised(id, init);
      RunCas(0, Script(id, init), id);
      RunAccepts(After(Boot(0), Script(id, init)).world, id, last.0, last.1);
      LifeSnoc(id, Script(id, init), last);
      assert init + [last] == inputs;
    }
  }

  lemma SeedLife(id: Id)
    ensures RunLife(0, [SeedRun(id, Queued, 0)], id) == Some(RunHistory(Queued, [], []))
  {
    hide After;
  }

  lemma LifeSnoc(id: Id, ops: seq<Op>, input: RunTraces.Input)
    requires RunLife(0, ops, id).Some?
    requires ApplyRun(After(Boot(0), ops).world, id, input.0, input.1, None).1.Applied?
    ensures var h := RunLife(0, ops, id).value;
            var commands := ApplyRun(After(Boot(0), ops).world, id, input.0, input.1, None).1.commands;
            RunLife(0, ops + [OpOf(id, input)], id)
                == Some(RunHistory(h.seed, h.inputs + [input], h.word + Emitted(commands)))
  {
    hide After, ApplyRun, Emitted;
    assert (ops + [OpOf(id, input)])[..|ops|] == ops;
  }

  /** Without an expected state, an application succeeds exactly when the transition is defined. */
  lemma RunAccepts(w: World, id: Id, ev: RunEvent, g: RunGuard)
    requires id in w.runs
    ensures ApplyRun(w, id, ev, g, None).1.Applied? <==> TransitionRun(w.runs[id].status, ev, g).Some?
    ensures ApplyRun(w, id, ev, g, None).1.Applied? ==>
              ApplyRun(w, id, ev, g, None).1.commands == TransitionRun(w.runs[id].status, ev, g).value.commands
  {
    hide TransitionRun, RunAfter, Drafts, Outbox.Append;
  }

  /** The lives of queued runs in the store are exactly the traces of the machine. */
  lemma LivesAreTraces(inputs: seq<RunTraces.Input>, word: seq<EventType>)
    ensures (exists relays, ops, id :: RunLife(relays, ops, id) == Some(RunHistory(Queued, inputs, word)))
            <==> exists state :: RunTraces.Trace(RunTraces.FRESH, inputs) == Some(RunTraces.Run(state, word))
  {
    hide RunLife, RunTraces.Trace, After, Script;
    if relays, ops, id :| RunLife(relays, ops, id) == Some(RunHistory(Queued, inputs, word)) {
      RunCas(relays, ops, id);
      assert RunTraces.Trace(RunTraces.FRESH, inputs)
          == Some(RunTraces.Run(After(Boot(relays), ops).world.runs[id].status, word));
    }
    if state :| RunTraces.Trace(RunTraces.FRESH, inputs) == Some(RunTraces.Run(state, word)) {
      Realised(Id("t", "r"), inputs);
      assert RunLife(0, Script(Id("t", "r"), inputs), Id("t", "r")) == Some(RunHistory(Queued, inputs, word));
    }
  }

  // ----- suspensions share a row -----

  /** The suspension event is emitted alone, and only when the bookmark was saved. */
  lemma SuspendedBy(state: RunState, ev: RunEvent, g: RunGuard)
    requires TransitionRun(state, ev, g).Some?
    ensures var events := Emitted(TransitionRun(state, ev, g).value.commands);
            RunSuspendedE in events ==> events == [RunSuspendedE] && ev == BookmarkSaved
  {
    hide Emitted;
    RunTraces.RunEmitsLast(state, ev, g);
    RunTraces.EmittedLast(TransitionRun(state, ev, g).value.commands);
  }

  function SuspensionKey(id: Id): Outbox.Key {
    Outbox.Key(id.tenant, Outbox.RunEntity, id.id, Outbox.RunTrigger(BookmarkSaved), RunSuspendedE, 0)
  }

  /** Every key of a suspension is the one key its run has for it. */
  ghost predicate SuspensionKeys(emitted: set<Outbox.Key>) {
    forall key :: key in emitted && key.kind == Outbox.RunEntity && key.event == RunSuspendedE ==>
      key == SuspensionKey(Id(key.tenant, key.id))
  }

  lemma DraftKeys(w: World, op: Op)
    ensures SuspensionKeys(set d | d in DraftsOf(w, op) :: d.key)
    ensures op.RunOp? && ApplyRun(w, op.id, op.runEvent, op.runGuard, op.runExpected).1.Applied?
            && RunSuspendedE in Emitted(ApplyRun(w, op.id, op.runEvent, op.runGuard, op.runExpected).1.commands)
            ==> SuspensionKey(op.id) in set d | d in DraftsOf(w, op) :: d.key
  {
    hide TransitionRun, TransitionWorkitem, TransitionTask, Emitted, ApplyRun, ApplyItem, ApplyTask;
    if op.RunOp? {
      var out := ApplyRun(w, op.id, op.runEvent, op.runGuard, op.runExpected).1;
      RunApplied(w, op.id, op.runEvent, op.runGuard, op.runExpected);
      if out.Applied? {
        SuspendedBy(w.runs[op.id].status, op.runEvent, op.runGuard);
        var drafts := DraftsOf(w, op);
        if RunSuspendedE in Emitted(out.commands) {
          assert drafts[0].key == SuspensionKey(op.id) && drafts[0] in drafts;
        }
      }
    }
  }

  /** The keys handed over by a step. */
  lemma EmittedStep(s: System, op: Op)
    ensures Next(s, op).emitted == s.emitted + set d | d in DraftsOf(s.world, op) :: d.key
  {
    hide WorldNext, ReplayAnswer, ApplyRun, ApplyItem, ApplyTask, Drafts;
  }

  lemma {:induction false} KeysInRun(relays: nat, ops: seq<Op>, id: Id)
    ensures var emitted := After(Boot(relays), ops).emitted;
            && SuspensionKeys(emitted)
            && (RunLife(relays, ops, id).Some? && RunSuspendedE in RunLife(relays, ops, id).value.word ==>
                  SuspensionKey(id) in emitted)
    decreases |ops|
  {
    hide Next, DraftsOf, ApplyRun;
    if ops != [] {
      var init, op := ops[..|ops| - 1], ops[|ops| - 1];
      KeysInRun(relays, init, id);
      var s := After(Boot(relays), init);
      EmittedStep(s, op);
      DraftKeys(s.world, op);
    }
  }

  /** The outbox rows of a run's suspensions. */
  function SuspensionRows(rows: seq<Outbox.Row>, id: Id): set<nat> {
    set i: nat | i < |rows| && rows[i].key.kind == Outbox.RunEntity && rows[i].key.event == RunSuspendedE
                 && rows[i].key.tenant == id.tenant && rows[i].key.id == id.id
  }

  /** However often a run was suspended, the outbox has one row for it if it ever was. */
  lemma OneSuspensionRow(relays: nat, ops: seq<Op>, id: Id)
    requires RunLife(relays, ops, id).Some? && RunSuspendedE in RunLife(relays, ops, id).value.word
    ensures |SuspensionRows(After(Boot(relays), ops).world.rows, id)| == 1
  {
    hide After, RunLife;
    KeysInRun(relays, ops, id);
    StoreOutboxSafe(relays, ops);
    var s := After(Boot(relays), ops);
    var key := SuspensionKey(id);
    assert |Outbox.Positions(s.world.rows, key)| == 1;
    forall i: nat | i < |s.world.rows|
      ensures s.world.rows[i].key in s.emitted
    {
      RowKeyEmitted(Box(s), i);
    }
    assert SuspensionRows(s.world.rows, id) == Outbox.Positions(s.world.rows, key);
  }

  lemma RowKeyEmitted(s: Outbox.State, i: nat)
    requires Outbox.Safe(s) && i < |s.rows|
    ensures s.rows[i].key in s.emitted
  {
    assert i in Outbox.Positions(s.rows, s.rows[i].key);
    assert |Outbox.Positions(s.rows, s.rows[i].key)| == if s.rows[i].key in s.emitted then 1 else 0;
  }

  lemma {:induction false} RoundsCount(k: nat)
    ensures multiset(RunTraces.Rounds(k))[RunSuspendedE] == k
  {
    if k > 0 {
      RoundsCount(k - 1);
    }
  }

  /** For every count there is a run that emitted so many suspensions and has one row for them. */
  lemma SuspensionsCollapse(k: nat) returns (ops: seq<Op>, id: Id)
    requires k > 0
    ensures RunLife(0, ops, id).Some? && multiset(RunLife(0, ops, id).value.word)[RunSuspendedE] == k
    ensures |SuspensionRows(After(Boot(0), ops).world.rows, id)| == 1
  {
    hide RunLife, After, RunTraces.Trace, SuspensionRows, RunTraces.Rounds, Script;
    id := Id("t", "r");
    var inputs := RunTraces.ToRunning(k);
    ops := Script(id, inputs);
    Realised(id, inputs);
    var word := RunTraces.Word(k, 0);
    assert RunLife(0, ops, id) == Some(RunHistory(Queued, inputs, word));
    RoundsCount(k);
    assert multiset(word) == multiset([RunStartedE]) + multiset(RunTraces.Rounds(k)) + multiset(RunTraces.Part(0));
    assert multiset(word)[RunSuspendedE] == k;
    assert RunSuspendedE in word;
    OneSuspensionRow(0, ops, id);
  }

  // ----- in general: one row per trigger and event -----

  /** What an emission's key keeps of it: the event that triggered the transition and the event emitted. */
  type Pair = (Outbox.Trigger, EventType)

  /** The operation applies an event to the entity. */
  predicate Concerns(op: Op, kind: Outbox.EntityKind, id: Id) {
    || (op.RunOp? && kind == Outbox.RunEntity && op.id == id)
    || (op.ItemOp? && kind == Outbox.WorkitemEntity && op.id == id)
    || (op.TaskOp? && kind == Outbox.TaskEntity && op.id == id)
  }

  function Pairs(drafts: seq<Outbox.Row>): (r: seq<Pair>)
    ensures |r| == |drafts| && forall k :: 0 <= k < |r| ==> r[k] == (drafts[k].key.trigger, drafts[k].key.event)
  {
    seq(|drafts|, k requires 0 <= k < |drafts| => (drafts[k].key.trigger, drafts[k].key.event))
  }

  /** Everything an entity has emitted, in order, with its triggers. */
  function Emissions(relays: nat, ops: seq<Op>, kind: Outbox.EntityKind, id: Id): seq<Pair>
    decreases |ops|
  {
    if ops == [] then []
    else
      var init, op := ops[..|ops| - 1], ops[|ops| - 1];
      Emissions(relays, init, kind, id)
      + if Concerns(op, kind, id) then Pairs(DraftsOf(After(Boot(relays), init).world, op)) else []
  }

  function PairKey(kind: Outbox.EntityKind, id: Id, p: Pair): Outbox.Key {
    Outbox.Key(id.tenant, kind, id.id, p.0, p.1, 0)
  }

  lemma RunEmitsOne(state: RunState, ev: RunEvent, g: RunGuard)
    requires TransitionRun(state, ev, g).Some?
    ensures |Emitted(TransitionRun(state, ev, g).value.commands)| <= 1
  {
    hide Emitted, TransitionRun;
    RunTraces.RunEmitsLast(state, ev, g);
    RunTraces.EmittedLast(TransitionRun(state, ev, g).value.commands);
  }

  /** A transition emits at most one event, so every draft has index 0 and the key of its entity and pair. */
  lemma DraftShape(w: World, op: Op, kind: Outbox.EntityKind, id: Id)
    ensures forall d :: d in DraftsOf(w, op) ==>
              d.key.index == 0
                  && (Concerns(op, kind, id) <==> d.key.kind == kind && d.key.tenant == id.tenant && d.key.id == id.id)
    ensures |DraftsOf(w, op)| <= 1
  {
    hide TransitionRun, TransitionWorkitem, TransitionTask, Emitted, ApplyRun, ApplyItem, ApplyTask;
    match op
    case RunOp(id', ev, g, exp) =>
      RunApplied(w, id', ev, g, exp);
      if ApplyRun(w, id', ev, g, exp).1.Applied? { RunEmitsOne(w.runs[id'].status, ev, g); }
    case ItemOp(id', ev, g, exp) =>
      ItemApplied(w, id', ev, g, exp);
      if ApplyItem(w, id', ev, g, exp).1.Applied? { EntityTraces.ItemEmits(w.items[id'].status, ev, g); }
    case TaskOp(id', ev, g, exp) =>
      TaskApplied(w, id', ev, g, exp);
      if ApplyTask(w, id', ev, g, exp).1.Applied? { EntityTraces.TaskEmits(w.tasks[id'].status, ev, g); }
    case _ =>
  }

  /** The step adds the keys of exactly the pairs it emits. */
  lemma PairStep(w: World, op: Op, kind: Outbox.EntityKind, id: Id, p: Pair)
    ensures PairKey(kind, id, p) in (set d | d in DraftsOf(w, op) :: d.key)
            <==> Concerns(op, kind, id) && p in Pairs(DraftsOf(w, op))
  {
    hide DraftsOf, Concerns;
    DraftShape(w, op, kind, id);
    var drafts := DraftsOf(w, op);
    if Concerns(op, kind, id) && p in Pairs(drafts) {
      var k :| 0 <= k < |drafts| && Pairs(drafts)[k] == p;
      assert drafts[k] in drafts && drafts[k].key == PairKey(kind, id, p);
    }
    if d :| d in drafts && d.key == PairKey(kind, id, p) {
      var k :| 0 <= k < |drafts| && drafts[k] == d;
      assert Pairs(drafts)[k] == p;
    }
  }

  lemma {:induction false} PairsInRun(relays: nat, ops: seq<Op>, kind: Outbox.EntityKind, id: Id, p: Pair)
    ensures var emitted := After(Boot(relays), ops).emitted;
            && (PairKey(kind, id, p) in emitted <==> p in Emissions(relays, ops, kind, id))
            && (forall key :: key in emitted ==> key.index == 0)
    decreases |ops|
  {
    hide Next, DraftsOf, Concerns;
    if ops != [] {
      var init, op := ops[..|ops| - 1], ops[|ops| - 1];
      PairsInRun(relays, init, kind, id, p);
      var s := After(Boot(relays), init);
      EmittedStep(s, op);
      PairStep(s.world, op, kind, id, p);
      DraftShape(s.world, op, kind, id);
    }
  }

  /** The rows of an entity for a trigger and event. */
  function PairRows(rows: seq<Outbox.Row>, kind: Outbox.EntityKind, id: Id, p: Pair): set<nat> {
    set i: nat | i < |rows| && rows[i].key.kind == kind && rows[i].key.tenant == id.tenant && rows[i].key.id == id.id
                 && rows[i].key.trigger == p.0 && rows[i].key.event == p.1
  }

  /** The outbox of any entity, whatever happened to it: one row for every distinct pair of trigger and event that it
      emitted, however often, and no other. */
  lemma RowsArePairs(relays: nat, ops: seq<Op>, kind: Outbox.EntityKind, id: Id, p: Pair)
    ensures |PairRows(After(Boot(relays), ops).world.rows, kind, id, p)|
            == if p in Emissions(relays, ops, kind, id) then 1 else 0
  {
    hide After, Emissions;
    PairsInRun(relays, ops, kind, id, p);
    StoreOutboxSafe(relays, ops);
    var s := After(Boot(relays), ops);
    forall i: nat | i < |s.world.rows|
      ensures s.world.rows[i].key.index == 0
    {
      RowKeyEmitted(Box(s), i);
    }
    assert PairRows(s.world.rows, kind, id, p) == Outbox.Positions(s.world.rows, PairKey(kind, id, p));
  }

  // ----- abandonments share rows -----

  const BY_FAILURE: Pair := (Outbox.ItemTrigger(SystemException), WorkitemDeadLetteredE)
  const BY_EXPIRY: Pair := (Outbox.ItemTrigger(CheckoutExpired), WorkitemDeadLetteredE)

  /** An item is given up on a failure or an expired checkout. */
  lemma {:induction false} AbandonedBy(relays: nat, ops: seq<Op>, id: Id, p: Pair)
    requires p in Emissions(relays, ops, Outbox.WorkitemEntity, id) && p.1 == WorkitemDeadLetteredE
    ensures p == BY_FAILURE || p == BY_EXPIRY
    decreases |ops|
  {
    hide After, DraftsOf;
    var init, op := ops[..|ops| - 1], ops[|ops| - 1];
    if p in Emissions(relays, init, Outbox.WorkitemEntity, id) {
      AbandonedBy(relays, init, id, p);
    } else {
      DraftTrigger(After(Boot(relays), init).world, op, p);
    }
  }

  lemma DraftTrigger(w: World, op: Op, p: Pair)
    requires op.ItemOp? && p in Pairs(DraftsOf(w, op)) && p.1 == WorkitemDeadLetteredE
    ensures p == BY_FAILURE || p == BY_EXPIRY
  {
    hide ApplyItem, Emitted, TransitionWorkitem;
    ItemApplied(w, op.id, op.itemEvent, op.itemGuard, op.itemExpected);
    var k :| 0 <= k < |DraftsOf(w, op)| && Pairs(DraftsOf(w, op))[k] == p;
    EntityTraces.ItemEmits(w.items[op.id].status, op.itemEvent, op.itemGuard);
    GivenUpOn(w.items[op.id].status, op.itemEvent, op.itemGuard);
  }

  lemma GivenUpOn(state: WorkitemState, ev: WorkitemEvent, g: WorkitemGuard)
    requires TransitionWorkitem(state, ev, g).Some?
    ensures TransitionWorkitem(state, ev, g).value.next == Abandoned ==> ev == SystemException || ev == CheckoutExpired
  {
  }

  function DeadLetterRows(rows: seq<Outbox.Row>, id: Id): set<nat> {
    set i: nat | i < |rows| && rows[i].key.kind == Outbox.WorkitemEntity && rows[i].key.event == WorkitemDeadLetteredE
                 && rows[i].key.tenant == id.tenant && rows[i].key.id == id.id
  }

  /** However often an item was given up, the outbox has at most two rows for it, one per cause. */
  lemma AtMostTwoDeadLetterRows(relays: nat, ops: seq<Op>, id: Id)
    ensures |DeadLetterRows(After(Boot(relays), ops).world.rows, id)| <= 2
  {
    hide After, Emissions;
    var rows := After(Boot(relays), ops).world.rows;
    RowsArePairs(relays, ops, Outbox.WorkitemEntity, id, BY_FAILURE);
    RowsArePairs(relays, ops, Outbox.WorkitemEntity, id, BY_EXPIRY);
    var failed := PairRows(rows, Outbox.WorkitemEntity, id, BY_FAILURE);
    var expired := PairRows(rows, Outbox.WorkitemEntity, id, BY_EXPIRY);
    forall i | i in DeadLetterRows(rows, id)
      ensures i in failed + expired
    {
      var p := (rows[i].key.trigger, rows[i].key.event);
      RowsArePairs(relays, ops, Outbox.WorkitemEntity, id, p);
      assert i in PairRows(rows, Outbox.WorkitemEntity, id, p);
      AbandonedBy(relays, ops, id, p);
    }
    UnionSize(failed, expired);
    SmallerSet(DeadLetterRows(rows, id), failed + expired);
  }

  lemma UnionSize(a: set<nat>, b: set<nat>)
    ensures |a + b| <= |a| + |b|
  {
  }

  lemma SmallerSet(a: set<nat>, b: set<nat>)
    requires a <= b
    ensures |a| <= |b|
  {
    assert b == a + (b - a);
  }

  // ----- every life of a work item is realised -----

  /** Seeds a new item and applies the inputs one by one. */
  function ItemScript(id: Id, inputs: seq<EntityTraces.ItemInput>): (ops: seq<Op>)
    ensures |ops| == |inputs| + 1
  {
    if inputs == [] then [SeedItem(id, New, 0)]
    else
      var last := inputs[|inputs| - 1];
      ItemScript(id, inputs[..|inputs| - 1]) + [ItemOp(id, last.0, last.1, None)]
  }

  lemma {:induction false} ItemRealised(id: Id, inputs: seq<EntityTraces.ItemInput>)
    requires EntityTraces.ItemTrace(inputs).Some?
    ensures ItemLife(0, ItemScript(id, inputs), id)
            == Some(History(New, inputs, EntityTraces.ItemTrace(inputs).value.word))
    decreases |inputs|
  {
    hide TransitionWorkitem, After, ApplyItem, ItemLife, Emitted;
    if inputs == [] {
      SeedItemLife(id);
    } else {
      var init, last := inputs[..|inputs| - 1], inputs[|inputs| - 1];
      ItemRealised(id, init);
      ItemCas(0, ItemScript(id, init), id);
      AlongItem(init);
      ItemAccepts(After(Boot(0), ItemScript(id, init)).world, id, last.0, last.1);
      ItemLifeSnoc(id, ItemScript(id, init), last);
      assert init + [last] == inputs;
    }
  }

  lemma SeedItemLife(id: Id)
    ensures ItemLife(0, [SeedItem(id, New, 0)], id) == Some(History(New, [], []))
  {
    hide After;
  }

  lemma ItemAccepts(w: World, id: Id, ev: WorkitemEvent, g: WorkitemGuard)
    requires id in w.items
    ensures var out := ApplyItem(w, id, ev, g, None).1; var t := TransitionWorkitem(w.items[id].status, ev, g);
            (out.Applied? <==> t.Some?) && (out.Applied? ==> out.commands == t.value.commands)
  {
    hide TransitionWorkitem, ItemAfter, Drafts, Outbox.Append, HasOpen;
  }

  lemma ItemLifeSnoc(id: Id, ops: seq<Op>, i: EntityTraces.ItemInput)
    requires ItemLife(0, ops, id).Some?
    requires ApplyItem(After(Boot(0), ops).world, id, i.0, i.1, None).1.Applied?
    ensures var commands := ApplyItem(After(Boot(0), ops).world, id, i.0, i.1, None).1.commands;
            ItemLife(0, ops + [ItemOp(id, i.0, i.1, None)], id) == Some(Grown(ItemLife(0, ops, id).value, i, commands))
  {
    hide After, ApplyItem, Emitted;
    assert (ops + [ItemOp(id, i.0, i.1, None)])[..|ops|] == ops;
  }

  lemma {:induction false} TimesCount(e: EventType, k: nat)
    ensures multiset(EntityTraces.Times(e, k))[e] == k
  {
    if k > 0 {
      TimesCount(e, k - 1);
    }
  }

  /** For every count there is an item that announced so many dead letters and has at most two rows for them. */
  lemma AbandonmentsCollapse(k: nat) returns (ops: seq<Op>, id: Id)
    requires k > 0
    ensures ItemLife(0, ops, id).Some? && multiset(ItemLife(0, ops, id).value.word)[WorkitemDeadLetteredE] == k
    ensures |DeadLetterRows(After(Boot(0), ops).world.rows, id)| <= 2
  {
    hide ItemLife, After, EntityTraces.ItemTrace, DeadLetterRows, ItemScript;
    id := Id("t", "i");
    var inputs := EntityTraces.ItemReached(Abandoned, k);
    ops := ItemScript(id, inputs);
    ItemRealised(id, inputs);
    TimesCount(WorkitemDeadLetteredE, k);
    AtMostTwoDeadLetterRows(0, ops, id);
  }
}
