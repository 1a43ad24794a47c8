/** Whole runs of the store: any order of seeds, event applications with any expected state, dead-letter replays in
    two halves, clock changes and relay steps. */
module StoreRuns {
  import opened IrelSyntax
  import opened Lifecycle
  import opened Outbox
  import opened Entities

  /** The world, the relays at work on it, every key handed to the outbox, and the replays between their halves. */
  datatype System = System(world: World, relays: seq<Relay>, emitted: set<Key>, closing: multiset<nat>)

  /** The operations on the store; `Skip` stands for the leases taking ids from the same counter. */
  datatype Op =
    | SeedRun(id: Id, run: RunState, attempts: nat)
    | SeedItem(id: Id, item: WorkitemState, attempts: nat)
    | SeedTask(id: Id, task: TaskState)
    | RunOp(id: Id, runEvent: RunEvent, runGuard: RunGuard, runExpected: Option<RunState>)
    | ItemOp(id: Id, itemEvent: WorkitemEvent, itemGuard: WorkitemGuard, itemExpected: Option<WorkitemState>)
    | TaskOp(id: Id, taskEvent: TaskEvent, taskGuard: TaskGuard, taskExpected: Option<TaskState>)
    | CreateLetter(tenant: string, item': Option<string>)
    | ReplayBegin(tenant: string, letter: nat)
    | ReplayEnd(letter: nat)
    | PollOp(relay: nat, limit: int)
    | PublishOp(relay: nat)
    | MarkOp(relay: nat)
    | Tick(ms: int)
    | Skip(ids: nat)

  /** The outbox part of the system. */
  function Box(s: System): State {
    State(s.world.rows, s.world.delivered, s.world.log, s.relays, s.emitted)
  }

  function WithBox(s: System, b: State): System {
    System(s.world.(rows := b.rows, delivered := b.delivered, log := b.log), b.relays, b.emitted, s.closing)
  }

  /** The drafts an operation hands to the outbox. */
  function DraftsOf(w: World, op: Op): seq<Row> {
    match op
    case RunOp(id, ev, g, exp) =>
      var out := ApplyRun(w, id, ev, g, exp).1;
      if out.Applied? then Drafts(RunEntity, id, RunTriggerOf(ev), out.commands, w.sequence) else []
    case ItemOp(id, ev, g, exp) =>
      var out := ApplyItem(w, id, ev, g, exp).1;
      if out.Applied? then Drafts(WorkitemEntity, id, ItemTrigger(ev), out.commands, w.sequence) else []
    case TaskOp(id, ev, g, exp) =>
      var out := ApplyTask(w, id, ev, g, exp).1;
      if out.Applied? then Drafts(TaskEntity, id, TaskTrigger(ev), out.commands, w.sequence) else []
    case _ => []
  }

  /** What an operation does to the world (relay steps act on the outbox instead). */
  function WorldNext(w: World, op: Op): World {
    match op
    case SeedRun(id, status, attempts) => w.(runs := w.runs[id := RunRow(status, attempts, w.clock, None)])
    case SeedItem(id, status, attempts) => w.(items := w.items[id := ItemRow(status, attempts, w.clock, None)])
    case SeedTask(id, status) => w.(tasks := w.tasks[id := TaskRow(status, w.clock, None)])
    case RunOp(id, ev, g, exp) => ApplyRun(w, id, ev, g, exp).0
    case ItemOp(id, ev, g, exp) => ApplyItem(w, id, ev, g, exp).0
    case TaskOp(id, ev, g, exp) => ApplyTask(w, id, ev, g, exp).0
    case CreateLetter(tenant, item) =>
      w.(letters := w.letters[w.sequence := Letter(tenant, item, None)], sequence := w.sequence + 1)
    case ReplayBegin(tenant, letter) => ReplayApply(w, tenant, letter)
    case ReplayEnd(letter) => ReplayClose(w, letter)
    case Tick(ms) => w.(clock := w.clock + ms)
    case Skip(ids) => w.(sequence := w.sequence + ids)
    case _ => w
  }

  function Next(s: System, op: Op): System {
    match op
    case PollOp(i, limit) => WithBox(s, Outbox.Next(Box(s), Poll(i, limit)))
    case PublishOp(i) => WithBox(s, Outbox.Next(Box(s), Publish(i)))
    case MarkOp(i) => WithBox(s, Outbox.Next(Box(s), Mark(i)))
    case ReplayBegin(tenant, letter) =>
      var begun := ReplayAnswer(s.world, tenant, letter).Replayed?;
      s.(world := WorldNext(s.world, op), closing := if begun then s.closing + multiset{letter} else s.closing)
    case ReplayEnd(letter) =>
      if letter in s.closing
      then s.(world := WorldNext(s.world, op), closing := s.closing - multiset{letter})
      else s
    case _ =>
      s.(world := WorldNext(s.world, op), emitted := s.emitted + set d | d in DraftsOf(s.world, op) :: d.key)
  }

  function Boot(relays: nat): System {
    System(NOWHERE, seq(relays, _ => Relay(Idle, [], 0, 0)), {}, multiset{})
  }

  function After(s: System, ops: seq<Op>): System
    decreases |ops|
  {
    if ops == [] then s else Next(After(s, ops[..|ops| - 1]), ops[|ops| - 1])
  }

  // ----- the outbox of a run -----

  /** The outbox invariant, and fresh ids stay fresh. */
  ghost predicate BoxInv(s: System) {
    && Inv(Box(s))
    && forall i :: 0 <= i < |s.world.rows| ==> s.world.rows[i].id < s.world.sequence
  }

  lemma {:induction false} AppendFrom(rows: seq<Row>, drafts: seq<Row>, row: Row)
    requires row in Append(rows, drafts)
    ensures row in rows || row in drafts
    decreases |drafts|
  {
    if drafts != [] {
      AppendFrom(if HasKey(rows, drafts[0].key) then rows else rows + [drafts[0]], drafts[1..], row);
    }
  }

  /** Publishable drafts with the ids from `from` on. */
  predicate FreshDrafts(drafts: seq<Row>, from: nat) {
    forall k :: 0 <= k < |drafts| ==> Publishable(drafts[k]) && !drafts[k].published && drafts[k].id == from + k
  }

  /** The step from `w` to `v` hands the drafts to the outbox and touches it in no other way. */
  predicate Appends(w: World, v: World, drafts: seq<Row>) {
    && FreshDrafts(drafts, w.sequence)
    && v.rows == Append(w.rows, drafts) && v.sequence >= w.sequence + |drafts|
    && v.delivered == w.delivered && v.log == w.log
  }

  lemma EmitKeeps(s: System, drafts: seq<Row>, t: System)
    requires BoxInv(s) && Appends(s.world, t.world, drafts) && t.relays == s.relays
    requires t.emitted == s.emitted + set d | d in drafts :: d.key
    ensures BoxInv(t)
  {
    hide Inv;
    assert GoodDrafts(s.world.rows, drafts);
    StepKeeps(Box(s), AppendDrafts(drafts));
    assert Box(t) == Outbox.Next(Box(s), AppendDrafts(drafts));
    forall i | 0 <= i < |t.world.rows|
      ensures t.world.rows[i].id < t.world.sequence
    {
      AppendFrom(s.world.rows, drafts, t.world.rows[i]);
    }
  }

  lemma RunAppends(w: World, id: Id, ev: RunEvent, g: RunGuard, exp: Option<RunState>)
    ensures Appends(w, WorldNext(w, RunOp(id, ev, g, exp)), DraftsOf(w, RunOp(id, ev, g, exp)))
  {
    hide TransitionRun, RunAfter, Emitted;
  }

  lemma ItemAppends(w: World, id: Id, ev: WorkitemEvent, g: WorkitemGuard, exp: Option<WorkitemState>)
    ensures Appends(w, WorldNext(w, ItemOp(id, ev, g, exp)), DraftsOf(w, ItemOp(id, ev, g, exp)))
  {
    hide TransitionWorkitem, ItemAfter, Emitted, HasOpen;
  }

  lemma TaskAppends(w: World, id: Id, ev: TaskEvent, g: TaskGuard, exp: Option<TaskState>)
    ensures Appends(w, WorldNext(w, TaskOp(id, ev, g, exp)), DraftsOf(w, TaskOp(id, ev, g, exp)))
  {
    hide TransitionTask, TaskAfter, Emitted;
  }

  lemma WorldAppends(w: World, op: Op)
    requires !op.ReplayBegin?
    ensures Appends(w, WorldNext(w, op), DraftsOf(w, op))
  {
    hide ApplyRun, ApplyItem, ApplyTask, Drafts;
    match op
    case RunOp(id, ev, g, exp) => RunAppends(w, id, ev, g, exp);
    case ItemOp(id, ev, g, exp) => ItemAppends(w, id, ev, g, exp);
    case TaskOp(id, ev, g, exp) => TaskAppends(w, id, ev, g, exp);
    case _ =>
  }

  /** Replaying emits nothing. */
  lemma ReplayQuiet(w: World, op: Op)
    requires op.ReplayBegin? || op.ReplayEnd?
    ensures Appends(w, WorldNext(w, op), [])
  {
    assert Emitted([SetField("attempts")]) == [];
  }

  lemma StepKeepsBox(s: System, op: Op)
    requires BoxInv(s)
    ensures BoxInv(Next(s, op))
  {
    hide BoxInv, Appends, WorldNext, DraftsOf, Outbox.Next, WithBox, Box, ReplayAnswer;
    match op
    case PollOp(i, limit) => RelayStep(s, Poll(i, limit));
    case PublishOp(i) => RelayStep(s, Publish(i));
    case MarkOp(i) => RelayStep(s, Mark(i));
    case ReplayBegin(_, _) => ReplayQuiet(s.world, op); EmitKeeps(s, [], Next(s, op));
    case ReplayEnd(letter) =>
      if letter in s.closing {
        ReplayQuiet(s.world, op);
        EmitKeeps(s, [], Next(s, op));
      }
    case _ =>
      WorldAppends(s.world, op);
      EmitKeeps(s, DraftsOf(s.world, op), Next(s, op));
  }

  lemma RelayStep(s: System, a: Action)
    requires BoxInv(s) && !a.AppendDrafts?
    ensures BoxInv(WithBox(s, Outbox.Next(Box(s), a)))
  {
    hide Inv;
    StepKeeps(Box(s), a);
    assert Box(WithBox(s, Outbox.Next(Box(s), a))) == Outbox.Next(Box(s), a);
    assert |Outbox.Next(Box(s), a).rows| == |s.world.rows|;
    assert forall i :: 0 <= i < |s.world.rows| ==> Outbox.Next(Box(s), a).rows[i].id == s.world.rows[i].id;
  }

  lemma {:induction false} RunKeepsBox(s: System, ops: seq<Op>)
    requires BoxInv(s)
    ensures BoxInv(After(s, ops))
    decreases |ops|
  {
    hide BoxInv, Next;
    if ops != [] {
      RunKeepsBox(s, ops[..|ops| - 1]);
      StepKeepsBox(After(s, ops[..|ops| - 1]), ops[|ops| - 1]);
    }
  }

  /** The outbox of the whole store is safe however transitions, replays, seeds and relay steps interleave. */
  lemma StoreOutboxSafe(relays: nat, ops: seq<Op>)
    ensures Safe(Box(After(Boot(relays), ops)))
  {
    hide Safe, Inv, After;
    var s := Boot(relays);
    StartInv(relays);
    assert Box(s) == Outbox.Start(relays);
    RunKeepsBox(s, ops);
    InvSafe(Box(After(s, ops)));
  }
}
