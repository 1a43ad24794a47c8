/** Compare-and-set application of the lifecycle machines to stored rows, with the outbox rows and dead letters a
    transition leaves behind (runtime/fake-store.ts `apply*Event`, `apply*`, `createDlqForSideEffect`, `replay`). */
module Entities {
  import opened IrelSyntax
  import opened Lifecycle
  import opened Outbox

  /** The key of a row: its tenant and id. */
  datatype Id = Id(tenant: string, id: string)

  datatype RunRow = RunRow(status: RunState, attempts: nat, updatedAt: int, endedAt: Option<int>)
  datatype ItemRow = ItemRow(status: WorkitemState, attempts: nat, updatedAt: int, pausedAt: Option<int>)
  datatype TaskRow = TaskRow(status: TaskState, updatedAt: int, assignee: Option<string>)

  datatype Letter = Letter(tenant: string, item: Option<string>, replayedAt: Option<int>)

  /** Everything a transition can touch. `sequence` is the source of fresh ids. */
  datatype World = World(
    clock: int, sequence: nat,
    runs: map<Id, RunRow>, items: map<Id, ItemRow>, tasks: map<Id, TaskRow>,
    rows: seq<Row>, delivered: set<Key>, log: seq<Row>,
    letters: map<nat, Letter>)

  /** The answer to an application: stale or unknown, an undefined transition, or done. */
  datatype Outcome<S> =
    | Missed(latest: Option<S>)
    | Illegal
    | Applied(next: S, commands: seq<Command>, inserted: seq<Row>)

  const NOWHERE := World(0, 1, map[], map[], map[], [], {}, [], map[])

  // ----- outbox drafts -----

  /** The event type only: payloads are not part of the key. */
  function RunTriggerOf(ev: RunEvent): Trigger {
    match ev
    case ChallengeDetected(_) => RunTrigger(ChallengeDetected(None))
    case HumanTaskRequired(_) => RunTrigger(HumanTaskRequired(None))
    case _ => RunTrigger(ev)
  }

  /** One draft per emitted event, numbered within the transition, with fresh ids. */
  function Drafts(kind: EntityKind, id: Id, trigger: Trigger, commands: seq<Command>, from: nat): (r: seq<Row>)
    ensures |r| == |Emitted(commands)|
  {
    var events := Emitted(commands);
    seq(|events|, k requires 0 <= k < |events| =>
      Row(from + k, Key(id.tenant, kind, id.id, trigger, events[k], k), events[k], true, false))
  }

  function Enqueue(w: World, drafts: seq<Row>): World {
    w.(rows := Append(w.rows, drafts), sequence := w.sequence + |drafts|)
  }

  function Inserted(w: World, drafts: seq<Row>): seq<Row> {
    Append(w.rows, drafts)[|w.rows|..]
  }

  // ----- runs -----

  predicate Ended(s: RunState) {
    s == Completed || s == Cancelled || s == FailedBusiness || s == FailedSystem
  }

  function RunAfter(row: RunRow, ev: RunEvent, next: RunState, clock: int): RunRow {
    RunRow(
      next,
      if ev == InitFailed && next == Queued then row.attempts + 1 else row.attempts,
      clock,
      if Ended(next) then Some(clock) else row.endedAt)
  }

  function ApplyRun(w: World, id: Id, ev: RunEvent, g: RunGuard, expected: Option<RunState>)
    : (World, Outcome<RunState>)
  {
    if id !in w.runs then (w, Missed(None))
    else
      var row := w.runs[id];
      var cur := if expected.Some? then expected.value else row.status;
      match TransitionRun(cur, ev, g)
      case None => (w, Illegal)
      case Some(t) =>
        if row.status != cur then (w, Missed(Some(row.status)))
        else
          var drafts := Drafts(RunEntity, id, RunTriggerOf(ev), t.commands, w.sequence);
          (Enqueue(w, drafts).(runs := w.runs[id := RunAfter(row, ev, t.next, w.clock)]),
           Applied(t.next, t.commands, Inserted(w, drafts)))
  }

  /** An application either moves the row legally from the state it is in, or changes nothing at all. */
  lemma RunApplied(w: World, id: Id, ev: RunEvent, g: RunGuard, expected: Option<RunState>)
    ensures var (v, out) := ApplyRun(w, id, ev, g, expected);
            && (!out.Applied? ==> v == w)
            && (out.Applied? ==>
                 && id in w.runs && (expected.Some? ==> expected.value == w.runs[id].status)
                 && TransitionRun(w.runs[id].status, ev, g) == Some(To(out.next, out.commands))
                 && v.runs == w.runs[id := RunAfter(w.runs[id], ev, out.next, w.clock)])
            && v.items == w.items && v.tasks == w.tasks && v.letters == w.letters && v.clock == w.clock
            && v.sequence >= w.sequence
  {
    hide TransitionRun, RunAfter, Append, Drafts;
  }

  // ----- work items -----

  function ItemAfter(row: ItemRow, ev: WorkitemEvent, next: WorkitemState, clock: int): ItemRow {
    var failed := (ev == SystemException || ev == CheckoutExpired) && (next == Retry || next == Abandoned);
    var replayed := ev == ManualReplay && next == New;
    ItemRow(
      next,
      if failed then row.attempts + 1 else if replayed then 0 else row.attempts,
      clock,
      if replayed || ev == RunResumed then None else if ev == RunSuspended then Some(clock) else row.pausedAt)
  }

  predicate IsOpen(l: Letter, id: Id) {
    l.tenant == id.tenant && l.item == Some(id.id) && l.replayedAt == None
  }

  predicate HasOpen(letters: map<nat, Letter>, id: Id) {
    exists k :: k in letters && IsOpen(letters[k], id)
  }

  /** A dead letter for the work item, unless one is open or the commands do not ask for it. */
  function Bury(w: World, id: Id, commands: seq<Command>): World {
    if CreateDeadLetter in commands && !HasOpen(w.letters, id)
    then w.(letters := w.letters[w.sequence := Letter(id.tenant, Some(id.id), None)], sequence := w.sequence + 1)
    else w
  }

  function ApplyItem(w: World, id: Id, ev: WorkitemEvent, g: WorkitemGuard, expected: Option<WorkitemState>)
    : (World, Outcome<WorkitemState>)
  {
    if id !in w.items then (w, Missed(None))
    else
      var row := w.items[id];
      var cur := if expected.Some? then expected.value else row.status;
      match TransitionWorkitem(cur, ev, g)
      case None => (w, Illegal)
      case Some(t) =>
        if row.status != cur then (w, Missed(Some(row.status)))
        else
          var drafts := Drafts(WorkitemEntity, id, ItemTrigger(ev), t.commands, w.sequence);
          (Bury(Enqueue(w, drafts).(items := w.items[id := ItemAfter(row, ev, t.next, w.clock)]), id, t.commands),
           Applied(t.next, t.commands, Inserted(w, drafts)))
  }

  lemma ItemApplied(w: World, id: Id, ev: WorkitemEvent, g: WorkitemGuard, expected: Option<WorkitemState>)
    ensures var (v, out) := ApplyItem(w, id, ev, g, expected);
            && (!out.Applied? ==> v == w)
            && (out.Applied? ==>
                 && id in w.items && (expected.Some? ==> expected.value == w.items[id].status)
                 && TransitionWorkitem(w.items[id].status, ev, g) == Some(To(out.next, out.commands))
                 && v.items == w.items[id := ItemAfter(w.items[id], ev, out.next, w.clock)]
                 && var free := w.sequence + |Emitted(out.commands)|;
                    if CreateDeadLetter in out.commands && !HasOpen(w.letters, id)
                    then v.letters == w.letters[free := Letter(id.tenant, Some(id.id), None)] && v.sequence == free + 1
                    else v.letters == w.letters && v.sequence == free)
            && v.runs == w.runs && v.tasks == w.tasks && v.clock == w.clock
  {
    hide TransitionWorkitem, ItemAfter, Append, HasOpen, Emitted;
  }

  // ----- human tasks -----

  function TaskAfter(row: TaskRow, ev: TaskEvent, next: TaskState, clock: int): TaskRow {
    TaskRow(next, clock, if ev == Assign && row.assignee == None then Some("fixture-assignee") else row.assignee)
  }

  function ApplyTask(w: World, id: Id, ev: TaskEvent, g: TaskGuard, expected: Option<TaskState>)
    : (World, Outcome<TaskState>)
  {
    if id !in w.tasks then (w, Missed(None))
    else
      var row := w.tasks[id];
      var cur := if expected.Some? then expected.value else row.status;
      match TransitionTask(cur, ev, g)
      case None => (w, Illegal)
      case Some(t) =>
        if row.status != cur then (w, Missed(Some(row.status)))
        else
          var drafts := Drafts(TaskEntity, id, TaskTrigger(ev), t.commands, w.sequence);
          (Enqueue(w, drafts).(tasks := w.tasks[id := TaskAfter(row, ev, t.next, w.clock)]),
           Applied(t.next, t.commands, Inserted(w, drafts)))
  }

  lemma TaskApplied(w: World, id: Id, ev: TaskEvent, g: TaskGuard, expected: Option<TaskState>)
    ensures var (v, out) := ApplyTask(w, id, ev, g, expected);
            && (!out.Applied? ==> v == w)
            && (out.Applied? ==>
                 && id in w.tasks && (expected.Some? ==> expected.value == w.tasks[id].status)
                 && TransitionTask(w.tasks[id].status, ev, g) == Some(To(out.next, out.commands))
                 && v.tasks == w.tasks[id := TaskAfter(w.tasks[id], ev, out.next, w.clock)])
            && v.runs == w.runs && v.items == w.items && v.letters == w.letters && v.clock == w.clock
            && v.sequence >= w.sequence
  {
    hide TransitionTask, TaskAfter, Append, Drafts;
  }

  // ----- dead-letter replay -----

  datatype ReplayResult = NotReplayable | NoItem | NotAbandoned | Replayed(item: string)

  const REPLAY := WorkitemGuard(false, false, None, false, true)

  /** Why a replay is refused, or that it goes ahead. An empty work-item id counts as none. */
  function ReplayAnswer(w: World, tenant: string, letter: nat): ReplayResult {
    if letter !in w.letters || w.letters[letter].tenant != tenant || w.letters[letter].replayedAt.Some?
    then NotReplayable
    else
      match w.letters[letter].item
      case None => NoItem
      case Some(item) =>
        if item == "" then NoItem
        else if Id(tenant, item) !in w.items || w.items[Id(tenant, item)].status != Abandoned then NotAbandoned
        else Replayed(item)
  }

  /** The first half of a replay: the work item is applied; the record is still open while the caller waits. */
  function ReplayApply(w: World, tenant: string, letter: nat): World {
    match ReplayAnswer(w, tenant, letter)
    case Replayed(item) => ApplyItem(w, Id(tenant, item), ManualReplay, REPLAY, Some(Abandoned)).0
    case _ => w
  }

  /** The second half: the record is closed. */
  function ReplayClose(w: World, letter: nat): World {
    if letter in w.letters
    then w.(letters := w.letters[letter := w.letters[letter].(replayedAt := Some(w.clock))])
    else w
  }

  /** A replay with nothing in between. */
  function Replay(w: World, tenant: string, letter: nat): World {
    if ReplayAnswer(w, tenant, letter).Replayed? then ReplayClose(ReplayApply(w, tenant, letter), letter) else w
  }

  /** A replay that goes ahead turns its abandoned item into a new one with no attempts; it cannot miss. */
  lemma ReplayApplied(w: World, tenant: string, letter: nat)
    ensures var v := ReplayApply(w, tenant, letter);
            && (ReplayAnswer(w, tenant, letter).Replayed? ==>
                 var id := Id(tenant, ReplayAnswer(w, tenant, letter).item);
                 && id in w.items && w.items[id].status == Abandoned
                 && v.items == w.items[id := ItemRow(New, 0, w.clock, None)]
                 && v == w.(items := v.items))
            && (!ReplayAnswer(w, tenant, letter).Replayed? ==> v == w)
  {
    assert Emitted([SetField("attempts")]) == [];
  }
}
