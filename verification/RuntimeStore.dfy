/** The runtime store as the object it is (runtime/fake-store.ts `InMemoryRuntimeStore`): maps, an order list, a clock
    and a counter, updated in place by methods that are proved against the specification functions. */
module RuntimeStore {
  import opened IrelSyntax
  import opened Lifecycle
  import opened Outbox
  import opened Entities
  import S = StoreRuns
  import B = BrowserLeases
  import C = Credentials

  // ----- facts the loops need -----

  lemma {:induction false} EmittedSnoc(cs: seq<Command>, c: Command)
    ensures Emitted(cs + [c]) == Emitted(cs) + if c.Emit? then [c.event] else []
    decreases |cs|
  {
    if cs == [] {
      assert cs + [c] == [c] && [c][1..] == [];
    } else {
      assert (cs + [c])[0] == cs[0] && (cs + [c])[1..] == cs[1..] + [c];
      EmittedSnoc(cs[1..], c);
      var head := if cs[0].Emit? then [cs[0].event] else [];
      var tail := if c.Emit? then [c.event] else [];
      assert Emitted(cs + [c]) == head + (Emitted(cs[1..]) + tail);
      assert head + (Emitted(cs[1..]) + tail) == (head + Emitted(cs[1..])) + tail;
    }
  }

  lemma {:induction false} PendingSnoc(rows: seq<Row>, row: Row)
    ensures Pending(rows + [row]) == Pending(rows) + if row.published then [] else [row]
    decreases |rows|
  {
    if rows == [] {
      assert rows + [row] == [row] && [row][1..] == [];
    } else {
      assert (rows + [row])[1..] == rows[1..] + [row];
      PendingSnoc(rows[1..], row);
    }
  }

  /** The leases a sweep reports, in order. */
  function Swept(leases: seq<B.Lease>, now: int): seq<B.Lease> {
    if leases == [] then []
    else
      var last := leases[|leases| - 1];
      Swept(leases[..|leases| - 1], now) + if B.Overdue(last, now) then [last.(state := B.Lapsed)] else []
  }

  /** The slots a sweep reports, in order. */
  function SweptSlots(order: seq<C.SlotKey>, slots: map<C.SlotKey, C.SlotLease>, now: int)
    : seq<(C.SlotKey, C.SlotLease)>
    requires forall i :: 0 <= i < |order| ==> order[i] in slots
  {
    if order == [] then []
    else
      var key := order[|order| - 1];
      var swept := C.SweepSlot(slots[key], now);
      SweptSlots(order[..|order| - 1], slots, now) + if swept != slots[key] then [(key, swept)] else []
  }

  lemma NoneSwept(order: seq<C.SlotKey>, slots: map<C.SlotKey, C.SlotLease>, now: int)
    requires order == []
    ensures SweptSlots(order, slots, now) == []
  {
  }

  lemma SweptSnoc(order: seq<C.SlotKey>, i: nat, slots: map<C.SlotKey, C.SlotLease>, now: int)
    requires i < |order| && forall k :: 0 <= k < |order| ==> order[k] in slots
    ensures var key := order[i]; var swept := C.SweepSlot(slots[key], now);
            SweptSlots(order[..i + 1], slots, now)
            == SweptSlots(order[..i], slots, now) + if swept != slots[key] then [(key, swept)] else []
  {
    assert order[..i + 1][..i] == order[..i];
  }

  /** The order lists every key once. */
  predicate InOrder<K(==)>(order: seq<K>, keys: set<K>) {
    && NoRepeats(order)
    && (forall i :: 0 <= i < |order| ==> order[i] in keys)
    && forall k :: k in keys ==> k in order
  }

  class Store {
    var nowMs: int
    var sequence: nat
    const standard: int

    var runs: map<Id, RunRow>
    var workitems: map<Id, ItemRow>
    var humanTasks: map<Id, TaskRow>

    var outbox: map<nat, Row>
    var outboxOrder: seq<nat>
    var outboxIdempotency: map<Key, nat>
    var delivered: set<Key>
    var published: seq<Row>

    var browserLeases: seq<B.Lease>
    var credentialPolicies: map<C.Account, int>
    var credentialLeases: map<C.SlotKey, C.SlotLease>
    var credentialOrder: seq<C.SlotKey>

    var deadLetters: map<nat, Letter>

    ghost predicate Valid()
      reads this
    {
      Indexed(Shelf(outboxOrder, outbox, outboxIdempotency), sequence)
          && InOrder(credentialOrder, credentialLeases.Keys)
    }

    /** The outbox in order. */
    ghost function Rows(): (r: seq<Row>)
      reads this
      requires Valid()
      ensures |r| == |outboxOrder| && forall i :: 0 <= i < |r| ==> r[i] == outbox[outboxOrder[i]]
    {
      Listed(outboxOrder, outbox)
    }

    ghost function World(): World
      reads this
      requires Valid()
    {
      Entities.World(nowMs, sequence, runs, workitems, humanTasks, Rows(), delivered, published, deadLetters)
    }

    ghost function Pool(): B.Pool
      reads this
    {
      B.Pool(nowMs, sequence, browserLeases)
    }

    ghost function Vault(): C.Vault
      reads this
    {
      C.Vault(nowMs, standard, credentialPolicies, credentialLeases)
    }

    constructor (now: int, maxConcurrency: int)
      ensures Valid() && World() == NOWHERE.(clock := now)
      ensures Pool() == B.Pool(now, 1, []) && Vault() == C.Vault(now, maxConcurrency, map[], map[])
    {
      nowMs, sequence, standard := now, 1, maxConcurrency;
      runs, workitems, humanTasks := map[], map[], map[];
      outbox, outboxOrder, outboxIdempotency, delivered, published := map[], [], map[], {}, [];
      browserLeases, credentialPolicies, credentialLeases, credentialOrder, deadLetters := [], map[], map[], [], map[];
    }

    method AdvanceMs(ms: int) returns (now: int)
      requires Valid()
      modifies this`nowMs
      ensures Valid() && World() == S.WorldNext(old(World()), S.Tick(ms)) && now == nowMs
    {
      nowMs := nowMs + ms;
      now := nowMs;
    }

    // ----- the outbox -----

    /** One draft per emitted event of the transition, with the next ids. */
    method OutboxDraftsForTransition(kind: EntityKind, id: Id, trigger: Trigger, commands: seq<Command>)
        returns (drafts: seq<Row>)
      modifies this`sequence
      ensures drafts == Drafts(kind, id, trigger, commands, old(sequence)) && sequence == old(sequence) + |drafts|
    {
      drafts := [];
      var index := 0;
      for i := 0 to |commands|
        invariant drafts == Drafts(kind, id, trigger, commands[..i], old(sequence))
        invariant index == |drafts| && sequence == old(sequence) + index
      {
        var cmd := commands[i];
        EmittedSnoc(commands[..i], cmd);
        assert commands[..i] + [cmd] == commands[..i + 1];
        if cmd.Emit? {
          drafts := drafts
              + [Row(sequence, Key(id.tenant, kind, id.id, trigger, cmd.event, index), cmd.event, true, false)];
          sequence := sequence + 1;
          index := index + 1;
        }
      }
      assert commands[..|commands|] == commands;
    }

    /** Adds the drafts whose key is new. With unused ids the outbox grows by them; a used id overwrites its row. */
    method AppendOutboxDrafts(drafts: seq<Row>) returns (inserted: seq<Row>)
      modifies this`outbox, this`outboxOrder, this`outboxIdempotency
      ensures Shelf(outboxOrder, outbox, outboxIdempotency)
              == AddAll(old(Shelf(outboxOrder, outbox, outboxIdempotency)), drafts)
      ensures inserted == NewOnes(old(outboxIdempotency), drafts)
      ensures old(Valid()) && Unused(drafts, old(outbox), sequence) ==>
                Valid() && Rows() == Append(old(Rows()), drafts) && inserted == Rows()[|old(Rows())|..]
    {
      hide HasKey, Indexed, Listed, Append;
      inserted := [];
      ghost var before := Shelf(outboxOrder, outbox, outboxIdempotency);
      assert drafts[0..] == drafts;
      for i := 0 to |drafts|
        invariant AddAll(Shelf(outboxOrder, outbox, outboxIdempotency), drafts[i..]) == AddAll(before, drafts)
        invariant inserted + NewOnes(outboxIdempotency, drafts[i..]) == NewOnes(before.index, drafts)
      {
        var draft := drafts[i];
        assert drafts[i..][0] == draft && drafts[i..][1..] == drafts[i + 1..];
        if draft.key in outboxIdempotency {
          continue;
        }
        outbox := outbox[draft.id := draft];
        outboxOrder := outboxOrder + [draft.id];
        outboxIdempotency := outboxIdempotency[draft.key := draft.id];
        inserted := inserted + [draft];
      }
      if old(Valid()) && Unused(drafts, before.rows, sequence) {
        AddAllKeeps(before, drafts, sequence, old(Rows()));
      }
    }

    method PollUnpublished(limit: int) returns (rows: seq<Row>)
      requires Valid()
      ensures rows == Take(Pending(Rows()), limit)
    {
      hide HasKey, Take;
      rows := [];
      for i := 0 to |outboxOrder|
        invariant rows == Pending(Rows()[..i])
      {
        var row := outbox[outboxOrder[i]];
        PendingSnoc(Rows()[..i], row);
        assert Rows()[..i] + [row] == Rows()[..i + 1];
        if !row.published {
          rows := rows + [row];
        }
      }
      assert Rows()[..|outboxOrder|] == Rows();
      rows := Take(rows, limit);
    }

    /** Delivers a row once per key; a row whose schema or payload does not fit is refused. */
    method Publish(row: Row) returns (answer: PublishResult)
      requires Valid()
      modifies this`delivered, this`published
      ensures Valid() && answer == PublishAnswer(old(delivered), row)
      ensures answer.Published? ==> delivered == old(delivered) + {row.key} && published == old(published) + [row]
      ensures !answer.Published? ==> delivered == old(delivered) && published == old(published)
    {
      if !Publishable(row) {
        return Refused(row.id);
      }
      if row.key in delivered {
        return Duplicate(row.id, row.key);
      }
      delivered := delivered + {row.key};
      published := published + [row];
      answer := Published(row.id);
    }

    method MarkPublished(id: nat)
      requires Valid()
      modifies this`outbox
      ensures Valid() && Rows() == MarkRow(old(Rows()), id)
    {
      hide HasKey;
      if id in outbox && !outbox[id].published {
        MarkListed(Shelf(outboxOrder, outbox, outboxIdempotency), sequence, id);
        outbox := outbox[id := outbox[id].(published := true)];
      } else {
        MarkedAlready(outboxOrder, outbox, id);
      }
    }

    /** Polls, then publishes and marks each row: one uninterrupted relay. */
    method RelayOutboxBatch(limit: int) returns (rows: seq<Row>, results: seq<PublishResult>)
      requires Valid()
      modifies this`outbox, this`delivered, this`published
      ensures Valid() && rows == Take(Pending(old(Rows())), limit)
      ensures Relayed(Rows(), delivered, published, results)
              == RelayAll(Relayed(old(Rows()), old(delivered), old(published), []), rows)
    {
      hide Indexed, Listed, MarkRow, Take, Pending;
      rows := PollUnpublished(limit);
      results := [];
      ghost var start := Relayed(Rows(), delivered, published, []);
      assert rows[..0] == [];
      for i := 0 to |rows|
        invariant Valid()
        invariant Relayed(Rows(), delivered, published, results) == RelayAll(start, rows[..i])
      {
        assert rows[..i + 1][..i] == rows[..i];
        var answer := Publish(rows[i]);
        results := results + [answer];
        if !answer.Refused? {
          MarkPublished(rows[i].id);
        }
      }
      assert rows[..|rows|] == rows;
    }

    // ----- entities -----

    method SeedRun(id: Id, status: RunState, attempts: nat)
      requires Valid()
      modifies this`runs
      ensures Valid() && World() == S.WorldNext(old(World()), S.SeedRun(id, status, attempts))
    {
      runs := runs[id := RunRow(status, attempts, nowMs, None)];
    }

    method SeedWorkitem(id: Id, status: WorkitemState, attempts: nat)
      requires Valid()
      modifies this`workitems
      ensures Valid() && World() == S.WorldNext(old(World()), S.SeedItem(id, status, attempts))
    {
      workitems := workitems[id := ItemRow(status, attempts, nowMs, None)];
    }

    method SeedHumanTask(id: Id, status: TaskState)
      requires Valid()
      modifies this`humanTasks
      ensures Valid() && World() == S.WorldNext(old(World()), S.SeedTask(id, status))
    {
      humanTasks := humanTasks[id := TaskRow(status, nowMs, None)];
    }

    /** The drafts of a transition, made and appended. */
    method Emit(kind: EntityKind, id: Id, trigger: Trigger, commands: seq<Command>) returns (inserted: seq<Row>)
      requires Valid()
      modifies this`sequence, this`outbox, this`outboxOrder, this`outboxIdempotency
      ensures Valid()
      ensures var drafts := Drafts(kind, id, trigger, commands, old(sequence));
              World() == Enqueue(old(World()), drafts) && inserted == Inserted(old(World()), drafts)
    {
      hide HasKey, Listed, Append, AddAll, NewOnes, Drafts;
      DraftsUnused(kind, id, trigger, commands, sequence, outbox);
      var drafts := OutboxDraftsForTransition(kind, id, trigger, commands);
      MoreIds(Shelf(outboxOrder, outbox, outboxIdempotency), old(sequence), sequence);
      inserted := AppendOutboxDrafts(drafts);
    }

    method ApplyRunEvent(id: Id, ev: RunEvent, g: RunGuard, expected: Option<RunState>) returns (out: Outcome<RunState>)
      requires Valid()
      modifies this`runs, this`sequence, this`outbox, this`outboxOrder, this`outboxIdempotency
      ensures Valid() && (World(), out) == ApplyRun(old(World()), id, ev, g, expected)
    {
      hide Indexed, Listed, TransitionRun, Append, Drafts, RunAfter, RunTriggerOf;
      if id !in runs {
        return Missed(None);
      }
      var row := runs[id];
      var current := if expected.Some? then expected.value else row.status;
      var t := TransitionRun(current, ev, g);
      if t.None? {
        return Illegal;
      }
      if row.status != current {
        return Missed(Some(row.status));
      }
      var inserted := Emit(RunEntity, id, RunTriggerOf(ev), t.value.commands);
      var after := ApplyRunSideEffects(row, ev, t.value.next);
      runs := runs[id := after];
      out := Applied(t.value.next, t.value.commands, inserted);
    }

    method ApplyRunSideEffects(before: RunRow, ev: RunEvent, next: RunState) returns (row: RunRow)
      ensures row == RunAfter(before, ev, next, nowMs)
    {
      row := before.(status := next, updatedAt := nowMs);
      if ev == InitFailed && next == Queued {
        row := row.(attempts := row.attempts + 1);
      }
      if Ended(next) {
        row := row.(endedAt := Some(nowMs));
      }
    }

    method ApplyHumanTaskEvent(id: Id, ev: TaskEvent, g: TaskGuard, expected: Option<TaskState>)
        returns (out: Outcome<TaskState>)
      requires Valid()
      modifies this`humanTasks, this`sequence, this`outbox, this`outboxOrder, this`outboxIdempotency
      ensures Valid() && (World(), out) == ApplyTask(old(World()), id, ev, g, expected)
    {
      hide Indexed, Listed, TransitionTask, Append, Drafts;
      if id !in humanTasks {
        return Missed(None);
      }
      var row := humanTasks[id];
      var current := if expected.Some? then expected.value else row.status;
      var t := TransitionTask(current, ev, g);
      if t.None? {
        return Illegal;
      }
      if row.status != current {
        return Missed(Some(row.status));
      }
      var inserted := Emit(TaskEntity, id, TaskTrigger(ev), t.value.commands);
      row := row.(status := t.value.next, updatedAt := nowMs);
      if ev == Assign && row.assignee == None {
        row := row.(assignee := Some("fixture-assignee"));
      }
      humanTasks := humanTasks[id := row];
      out := Applied(row.status, t.value.commands, inserted);
    }

    method ApplyWorkitemEvent(id: Id, ev: WorkitemEvent, g: WorkitemGuard, expected: Option<WorkitemState>)
      returns (out: Outcome<WorkitemState>)
      requires Valid()
      modifies this`workitems, this`deadLetters, this`sequence, this`outbox, this`outboxOrder, this`outboxIdempotency
      ensures Valid() && (World(), out) == ApplyItem(old(World()), id, ev, g, expected)
    {
      hide Indexed, Listed, TransitionWorkitem, Append, Drafts, HasOpen, ItemAfter;
      if id !in workitems {
        return Missed(None);
      }
      var row := workitems[id];
      var current := if expected.Some? then expected.value else row.status;
      var t := TransitionWorkitem(current, ev, g);
      if t.None? {
        return Illegal;
      }
      if row.status != current {
        return Missed(Some(row.status));
      }
      var next := t.value.next;
      var inserted := Emit(WorkitemEntity, id, ItemTrigger(ev), t.value.commands);
      row := ApplyWorkitemSideEffects(row, ev, next);
      workitems := workitems[id := row];
      CreateDlqForSideEffect(id, t.value.commands);
      out := Applied(next, t.value.commands, inserted);
    }

    method ApplyWorkitemSideEffects(before: ItemRow, ev: WorkitemEvent, next: WorkitemState) returns (row: ItemRow)
      ensures row == ItemAfter(before, ev, next, nowMs)
    {
      row := before.(status := next, updatedAt := nowMs);
      if (ev == SystemException || ev == CheckoutExpired) && (next == Retry || next == Abandoned) {
        row := row.(attempts := row.attempts + 1);
      }
      if ev == ManualReplay && next == New {
        row := row.(attempts := 0, pausedAt := None);
      }
      if ev == RunSuspended {
        row := row.(pausedAt := Some(nowMs));
      }
      if ev == RunResumed {
        row := row.(pausedAt := None);
      }
    }

    // ----- dead letters -----

    method CreateDlqForSideEffect(id: Id, commands: seq<Command>)
      requires Valid()
      modifies this`deadLetters, this`sequence
      ensures Valid() && World() == Bury(old(World()), id, commands)
    {
      hide HasKey, HasOpen;
      if CreateDeadLetter !in commands {
        return;
      }
      if HasOpen(deadLetters, id) {
        return;
      }
      deadLetters := deadLetters[sequence := Letter(id.tenant, Some(id.id), None)];
      sequence := sequence + 1;
    }

    method Replay(tenant: string, letter: nat) returns (answer: ReplayResult)
      requires Valid()
      modifies this`workitems, this`deadLetters, this`sequence, this`outbox, this`outboxOrder, this`outboxIdempotency
      ensures Valid() && answer == ReplayAnswer(old(World()), tenant, letter)
      ensures World() == Entities.Replay(old(World()), tenant, letter)
    {
      hide Indexed, Listed, ApplyItem;
      if letter !in deadLetters || deadLetters[letter].tenant != tenant || deadLetters[letter].replayedAt.Some? {
        return NotReplayable;
      }
      var record := deadLetters[letter];
      if record.item == None || record.item == Some("") {
        return NoItem;
      }
      var id := Id(tenant, record.item.value);
      if id !in workitems || workitems[id].status != Abandoned {
        return NotAbandoned;
      }
      ReplayApplied(World(), tenant, letter);
      var applied := ApplyWorkitemEvent(id, ManualReplay, REPLAY, Some(Abandoned));
      deadLetters := deadLetters[letter := record.(replayedAt := Some(nowMs))];
      answer := Replayed(id.id);
    }

    method Create(tenant: string, item: Option<string>) returns (letter: nat)
      requires Valid()
      modifies this`deadLetters, this`sequence
      ensures Valid() && letter == old(sequence)
      ensures World() == S.WorldNext(old(World()), S.CreateLetter(tenant, item))
    {
      hide HasKey;
      letter := sequence;
      sequence := sequence + 1;
      deadLetters := deadLetters[letter := Letter(tenant, item, None)];
    }

    // ----- browser leases -----

    method AcquireBrowser(seat: B.Seat, run: string, worker: string, ttl: int) returns (answer: B.Answer)
      requires Valid()
      modifies this`browserLeases, this`sequence
      ensures Valid() && (Pool(), answer) == B.Step(old(Pool()), B.Acquire(seat, run, worker, ttl))
    {
      hide HasKey;
      var active := B.FindLive(browserLeases, seat);
      if active.Some? {
        var lease := browserLeases[active.value];
        if !B.Expired(lease, nowMs) {
          return B.Deferred(if lease.expiresAt - nowMs >= 0 then lease.expiresAt - nowMs else 0);
        }
        browserLeases := browserLeases[active.value := lease.(state := B.Lapsed)];
      }
      var lease := B.Lease(sequence, seat, run, worker, B.Active, nowMs, nowMs + ttl);
      sequence := sequence + 1;
      browserLeases := browserLeases + [lease];
      answer := B.Acquired(lease);
    }

    method RenewBrowser(tenant: string, id: nat, worker: string, ttl: int) returns (answer: B.Answer)
      modifies this`browserLeases
      ensures (Pool(), answer) == B.Step(old(Pool()), B.Renew(tenant, id, worker, ttl))
    {
      var found := B.FindId(browserLeases, id);
      if found.None? {
        return B.Lost;
      }
      var lease := browserLeases[found.value];
      if lease.seat.tenant != tenant || lease.owner != worker || !B.Live(lease) || B.Expired(lease, nowMs) {
        return B.Lost;
      }
      lease := lease.(state := B.Active, heartbeatAt := nowMs, expiresAt := nowMs + ttl);
      browserLeases := browserLeases[found.value := lease];
      answer := B.Renewed(lease.expiresAt);
    }

    method DrainBrowser(tenant: string, id: nat, worker: string, sweeper: bool)
      modifies this`browserLeases
      ensures Pool() == B.Step(old(Pool()), B.Drain(tenant, id, worker, sweeper)).0
    {
      var found := B.FindId(browserLeases, id);
      if found.None? {
        return;
      }
      var lease := browserLeases[found.value];
      if lease.seat.tenant != tenant || lease.owner != worker {
        return;
      }
      lease := lease.(state := if sweeper then B.Lapsed else B.Draining, expiresAt := nowMs);
      browserLeases := browserLeases[found.value := lease];
    }

    // ----- credential slots -----

    method SetCredentialMaxConcurrency(account: C.Account, limit: int)
      modifies this`credentialPolicies
      ensures Vault() == C.Step(old(Vault()), C.SetLimit(account, limit)).0
    {
      credentialPolicies := credentialPolicies[account := limit];
    }

    method AcquireCredential(account: C.Account, run: string, item: Option<string>, until: int)
        returns (answer: C.Answer)
      requires Valid()
      modifies this`credentialLeases, this`credentialOrder
      ensures Valid() && (Vault(), answer) == C.Step(old(Vault()), C.Acquire(account, run, item, until))
    {
      hide Indexed;
      var max := if account in credentialPolicies then credentialPolicies[account] else standard;
      var slot: nat := 0;
      while slot < max
        invariant credentialLeases == old(credentialLeases) && credentialOrder == old(credentialOrder)
        invariant C.FirstFree(Vault(), account, 0) == C.FirstFree(Vault(), account, slot)
        decreases max - slot
      {
        var key := C.SlotKey(account, slot);
        if key in credentialLeases && credentialLeases[key].status == C.InUse
            && !(credentialLeases[key].lockedUntil < nowMs) {
          slot := slot + 1;
          continue;
        }
        if key !in credentialLeases {
          credentialOrder := credentialOrder + [key];
        }
        credentialLeases := credentialLeases[key := C.SlotLease(run, item, C.InUse, until, nowMs)];
        return C.Acquired(slot);
      }
      answer := C.Deferred;
    }

    method ReleaseCredential(account: C.Account, slot: int)
      requires Valid()
      modifies this`credentialLeases
      ensures Valid() && Vault() == C.Step(old(Vault()), C.Release(account, slot)).0
    {
      hide Indexed;
      var key := C.SlotKey(account, slot);
      if key in credentialLeases {
        credentialLeases := credentialLeases[key := credentialLeases[key].(status := C.Released)];
      }
    }

    method RenewCredential(account: C.Account, slot: int, run: string, until: int) returns (answer: C.Answer)
      requires Valid()
      modifies this`credentialLeases
      ensures Valid() && (Vault(), answer) == C.Step(old(Vault()), C.Renew(account, slot, run, until))
    {
      hide Indexed;
      var key := C.SlotKey(account, slot);
      if key !in credentialLeases {
        return C.Lost;
      }
      var lease := credentialLeases[key];
      if lease.status != C.InUse || lease.run != run || lease.lockedUntil < nowMs {
        return C.Lost;
      }
      credentialLeases := credentialLeases[key := lease.(lockedUntil := until)];
      answer := C.Renewed(until);
    }

    // ----- sweeping -----

    /** Ends every live lease and used slot whose time is before `now`, and reports them in the order they were made. */
    method SweepExpired(now: int) returns (leases: seq<B.Lease>, slots: seq<(C.SlotKey, C.SlotLease)>)
      requires Valid()
      modifies this`browserLeases, this`credentialLeases
      ensures Valid()
      ensures Pool() == B.Step(old(Pool()), B.Sweep(now)).0 && leases == Swept(old(browserLeases), now)
      ensures Vault() == C.Step(old(Vault()), C.Sweep(now)).0
              && slots == SweptSlots(credentialOrder, old(credentialLeases), now)
    {
      hide Indexed;
      leases := SweepBrowsers(now);
      slots := SweepSlots(now);
    }

    method SweepSlots(now: int) returns (slots: seq<(C.SlotKey, C.SlotLease)>)
      requires InOrder(credentialOrder, credentialLeases.Keys)
      modifies this`credentialLeases
      ensures credentialLeases == map k | k in old(credentialLeases) :: C.SweepSlot(old(credentialLeases)[k], now)
      ensures slots == SweptSlots(credentialOrder, old(credentialLeases), now)
    {
      hide SweptSlots;
      slots := [];
      ghost var before := credentialLeases;
      ghost var order := credentialOrder;
      NoneSwept(order[..0], before, now);
      for i := 0 to |credentialOrder|
        invariant credentialOrder == order && credentialLeases.Keys == before.Keys
        invariant forall k :: 0 <= k < i ==> credentialLeases[order[k]] == C.SweepSlot(before[order[k]], now)
        invariant forall k :: i <= k < |order| ==> credentialLeases[order[k]] == before[order[k]]
        invariant slots == SweptSlots(order[..i], before, now)
      {
        SweptSnoc(order, i, before, now);
        var key := credentialOrder[i];
        assert forall k :: 0 <= k < |order| && k != i ==> order[k] != key;
        var lease := credentialLeases[key];
        if lease.status == C.InUse && lease.lockedUntil < now {
          lease := lease.(status := C.Overrun);
          credentialLeases := credentialLeases[key := lease];
          slots := slots + [(key, lease)];
        }
      }
      assert order[..|order|] == order;
      assert forall k :: k in before ==> k in order;
    }

    method SweepBrowsers(now: int) returns (leases: seq<B.Lease>)
      modifies this`browserLeases
      ensures browserLeases == B.SweepAll(old(browserLeases), now) && leases == Swept(old(browserLeases), now)
    {
      leases := [];
      ghost var before := browserLeases;
      for i := 0 to |browserLeases|
        invariant |browserLeases| == |before| && leases == Swept(before[..i], now)
        invariant forall j :: 0 <= j < i ==> browserLeases[j] == B.SweepLease(before[j], now)
        invariant forall j :: i <= j < |before| ==> browserLeases[j] == before[j]
      {
        assert before[..i + 1][..i] == before[..i];
        var lease := browserLeases[i];
        if B.Overdue(lease, now) {
          lease := lease.(state := B.Lapsed);
          browserLeases := browserLeases[i := lease];
          leases := leases + [lease];
        }
      }
      assert before[..|before|] == before;
    }
  }

  function Listed(order: seq<nat>, outbox: map<nat, Row>): (r: seq<Row>)
    requires forall i :: 0 <= i < |order| ==> order[i] in outbox
    ensures |r| == |order| && forall i :: 0 <= i < |r| ==> r[i] == outbox[order[i]]
  {
    seq(|order|, i requires 0 <= i < |order| => outbox[order[i]])
  }

  /** The three fields that hold the outbox. */
  datatype Shelf = Shelf(order: seq<nat>, rows: map<nat, Row>, index: map<Key, nat>)

  /** Every listed id is stored under itself, stored ids are used up, and the index of keys is exact. */
  ghost predicate Indexed(b: Shelf, sequence: nat) {
    && (forall i :: 0 <= i < |b.order| ==> b.order[i] in b.rows && b.rows[b.order[i]].id == b.order[i])
    && (forall k :: k in b.rows ==> k < sequence)
    && (forall k :: k in b.index <==> HasKey(Listed(b.order, b.rows), k))
  }

  function AddOne(b: Shelf, d: Row): Shelf {
    if d.key in b.index then b else Shelf(b.order + [d.id], b.rows[d.id := d], b.index[d.key := d.id])
  }

  function AddAll(b: Shelf, drafts: seq<Row>): Shelf
    decreases |drafts|
  {
    if drafts == [] then b else AddAll(AddOne(b, drafts[0]), drafts[1..])
  }

  /** The drafts whose key is new when their turn comes. */
  function NewOnes(index: map<Key, nat>, drafts: seq<Row>): seq<Row>
    decreases |drafts|
  {
    if drafts == [] then []
    else if drafts[0].key in index then NewOnes(index, drafts[1..])
    else [drafts[0]] + NewOnes(index[drafts[0].key := drafts[0].id], drafts[1..])
  }

  /** The drafts bring ids of their own that the store has handed out and not used. */
  predicate Unused(drafts: seq<Row>, rows: map<nat, Row>, sequence: nat) {
    && (forall i :: 0 <= i < |drafts| ==> drafts[i].id !in rows && drafts[i].id < sequence)
    && (forall i, j :: 0 <= i < j < |drafts| ==> drafts[i].id != drafts[j].id)
  }

  /** The three fields are consistent and list these rows. */
  ghost predicate Shows(b: Shelf, sequence: nat, rows: seq<Row>) {
    Indexed(b, sequence) && Listed(b.order, b.rows) == rows
  }

  /** With unused ids, the three fields together grow as the list of rows does. */
  lemma {:induction false} AddAllKeeps(b: Shelf, drafts: seq<Row>, sequence: nat, rows: seq<Row>)
    requires Shows(b, sequence, rows) && Unused(drafts, b.rows, sequence)
    ensures Shows(AddAll(b, drafts), sequence, Append(rows, drafts))
    ensures Append(rows, drafts) == rows + NewOnes(b.index, drafts)
    decreases |drafts|
  {
    hide HasKey, Append, Shows, Unused, AddOne;
    if drafts == [] {
      AppendNothing(rows, drafts);
      assert rows + [] == rows;
    } else {
      var d := drafts[0];
      UnusedRest(b, drafts, sequence);
      AppendCons(rows, drafts);
      AddOneKeeps(b, d, sequence, rows);
      if d.key in b.index {
        AddAllKeeps(b, drafts[1..], sequence, rows);
      } else {
        AddAllKeeps(AddOne(b, d), drafts[1..], sequence, rows + [d]);
        var more := NewOnes(b.index[d.key := d.id], drafts[1..]);
        assert (rows + [d]) + more == rows + ([d] + more);
      }
    }
  }

  lemma UnusedRest(b: Shelf, drafts: seq<Row>, sequence: nat)
    requires drafts != [] && Unused(drafts, b.rows, sequence)
    ensures drafts[0].id !in b.rows && drafts[0].id < sequence
    ensures Unused(drafts[1..], b.rows, sequence) && Unused(drafts[1..], AddOne(b, drafts[0]).rows, sequence)
  {
    var rest := drafts[1..];
    assert forall i :: 0 <= i < |rest| ==> rest[i] == drafts[i + 1];
  }

  lemma AppendCons(rows: seq<Row>, drafts: seq<Row>)
    requires drafts != []
    ensures Append(rows, drafts)
            == Append(if HasKey(rows, drafts[0].key) then rows else rows + [drafts[0]], drafts[1..])
  {
  }

  lemma DraftsUnused(
    kind: EntityKind, id: Id, trigger: Trigger, commands: seq<Command>, from: nat, rows: map<nat, Row>)
    requires forall k :: k in rows ==> k < from
    ensures var drafts := Drafts(kind, id, trigger, commands, from); Unused(drafts, rows, from + |drafts|)
  {
    hide Emitted;
  }

  lemma MoreIds(b: Shelf, sequence: nat, later: nat)
    requires Indexed(b, sequence) && sequence <= later
    ensures Indexed(b, later)
  {
    hide HasKey;
  }

  lemma AppendNothing(rows: seq<Row>, drafts: seq<Row>)
    requires drafts == []
    ensures Append(rows, drafts) == rows
  {
  }

  lemma AddOneKeeps(b: Shelf, d: Row, sequence: nat, rows: seq<Row>)
    requires Shows(b, sequence, rows) && d.id !in b.rows && d.id < sequence
    ensures d.key in b.index <==> HasKey(rows, d.key)
    ensures d.key in b.index ==> AddOne(b, d) == b
    ensures d.key !in b.index ==> Shows(AddOne(b, d), sequence, rows + [d])
    ensures d.key !in b.index ==> AddOne(b, d).index == b.index[d.key := d.id]
  {
    hide HasKey;
    if d.key !in b.index {
      var after := AddOne(b, d);
      assert Listed(after.order, after.rows) == rows + [d];
      forall k
        ensures k in after.index <==> HasKey(rows + [d], k)
      {
        HasKeySnoc(rows, d, k);
      }
    }
  }

  lemma MarkListed(b: Shelf, sequence: nat, id: nat)
    requires Indexed(b, sequence) && id in b.rows
    ensures var marked := b.(rows := b.rows[id := b.rows[id].(published := true)]);
            Indexed(marked, sequence) && Listed(b.order, marked.rows) == MarkRow(Listed(b.order, b.rows), id)
  {
    hide HasKey;
    var marked := b.rows[id := b.rows[id].(published := true)];
    assert Listed(b.order, marked) == MarkRow(Listed(b.order, b.rows), id);
    forall k
      ensures HasKey(Listed(b.order, marked), k) <==> HasKey(Listed(b.order, b.rows), k)
    {
      MarkKeys(Listed(b.order, b.rows), id, k);
    }
  }

  lemma MarkedAlready(order: seq<nat>, outbox: map<nat, Row>, id: nat)
    requires forall i :: 0 <= i < |order| ==> order[i] in outbox && outbox[order[i]].id == order[i]
    requires id in outbox ==> outbox[id].published
    ensures MarkRow(Listed(order, outbox), id) == Listed(order, outbox)
  {
  }
}
