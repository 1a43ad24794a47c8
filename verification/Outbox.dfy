/** The idempotent outbox and its relays (runtime/fake-store.ts `appendOutboxDrafts`, `pollUnpublished`, `publish`,
    `markPublished`, `relayOutboxBatch`), as a state machine in which any number of relays interleave at their
    poll, publish and mark steps with appends. */
module Outbox {
  import opened Lifecycle

  datatype EntityKind = RunEntity | WorkitemEntity | TaskEntity

  /** What triggered a transition, by event type (payloads do not matter). */
  datatype Trigger = RunTrigger(run: RunEvent) | ItemTrigger(item: WorkitemEvent) | TaskTrigger(task: TaskEvent)

  /** The idempotency key with its tenant: no occurrence counter, so a repeated transition gives the same key. */
  datatype Key = Key(tenant: string, kind: EntityKind, id: string, trigger: Trigger, event: EventType, index: nat)

  /** An outbox row. `schema` is the event type its payload schema belongs to; the payload is `empty` or not. */
  datatype Row = Row(id: nat, key: Key, schema: EventType, empty: bool, published: bool)

  /** The schema reference fits the event type and the payload is the closed empty object. */
  predicate Publishable(r: Row) { r.schema == r.key.event && r.empty }

  predicate HasKey(rows: seq<Row>, key: Key) {
    exists i :: 0 <= i < |rows| && rows[i].key == key
  }

  /** Appends the drafts whose key is new, in order. */
  function Append(rows: seq<Row>, drafts: seq<Row>): (r: seq<Row>)
    ensures rows <= r
    decreases |drafts|
  {
    if drafts == [] then rows
    else Append(if HasKey(rows, drafts[0].key) then rows else rows + [drafts[0]], drafts[1..])
  }

  // ----- relays -----

  datatype Phase = Idle | Publishing | Marking

  /** A relay between its steps: the polled copies, the position in them, and where in the outbox they start. */
  datatype Relay = Relay(phase: Phase, batch: seq<Row>, pos: nat, start: nat)

  /** The shared state. `emitted` records every key ever handed to `Append`. */
  datatype State = State(rows: seq<Row>, delivered: set<Key>, log: seq<Row>, relays: seq<Relay>, emitted: set<Key>)

  datatype Action =
    | AppendDrafts(drafts: seq<Row>)
    | Poll(relay: nat, limit: int)
    | Publish(relay: nat)
    | Mark(relay: nat)

  /** The unpublished rows, in order. */
  function Pending(rows: seq<Row>): (r: seq<Row>)
    ensures |r| <= |rows|
  {
    if rows == [] then [] else (if rows[0].published then [] else [rows[0]]) + Pending(rows[1..])
  }

  /** The first `limit` rows; a negative limit counts from the end, as `slice` does. */
  function Take(rows: seq<Row>, limit: int): (r: seq<Row>)
    ensures r <= rows
    ensures |r| == if limit >= 0 then Min(limit, |rows|) else Max(0, |rows| + limit)
  {
    if limit >= 0 then rows[..Min(limit, |rows|)] else rows[..Max(0, |rows| + limit)]
  }

  function Min(a: int, b: int): int { if a <= b then a else b }
  function Max(a: int, b: int): int { if a >= b then a else b }

  function MarkRow(rows: seq<Row>, id: nat): seq<Row> {
    seq(|rows|, i requires 0 <= i < |rows| => if rows[i].id == id then rows[i].(published := true) else rows[i])
  }

  function Advance(r: Relay): Relay {
    if r.pos + 1 < |r.batch| then r.(phase := Publishing, pos := r.pos + 1) else Relay(Idle, [], 0, 0)
  }

  function Next(s: State, a: Action): State {
    match a
    case AppendDrafts(drafts) =>
      s.(rows := Append(s.rows, drafts), emitted := s.emitted + set d | d in drafts :: d.key)
    case Poll(i, limit) =>
      if i >= |s.relays| || s.relays[i].phase != Idle then s
      else
        var pending := Pending(s.rows);
        var batch := Take(pending, limit);
        if batch == [] then s
        else s.(relays := s.relays[i := Relay(Publishing, batch, 0, |s.rows| - |pending|)])
    case Publish(i) =>
      if i >= |s.relays| || s.relays[i].phase != Publishing || s.relays[i].pos >= |s.relays[i].batch| then s
      else
        var r := s.relays[i];
        var row := r.batch[r.pos];
        if !Publishable(row) then s.(relays := s.relays[i := Advance(r)])
        else if row.key in s.delivered then s.(relays := s.relays[i := r.(phase := Marking)])
        else State(s.rows, s.delivered + {row.key}, s.log + [row], s.relays[i := r.(phase := Marking)], s.emitted)
    case Mark(i) =>
      if i >= |s.relays| || s.relays[i].phase != Marking || s.relays[i].pos >= |s.relays[i].batch| then s
      else
        var r := s.relays[i];
        s.(rows := MarkRow(s.rows, r.batch[r.pos].id), relays := s.relays[i := Advance(r)])
  }

  /** Drafts as transitions make them: publishable, unpublished, with new and rising ids. */
  predicate GoodDrafts(rows: seq<Row>, drafts: seq<Row>) {
    && (forall i :: 0 <= i < |drafts| ==> Publishable(drafts[i]) && !drafts[i].published)
    && (forall i, j :: 0 <= i < |rows| && 0 <= j < |drafts| ==> rows[i].id < drafts[j].id)
    && (forall i, j :: 0 <= i < j < |drafts| ==> drafts[i].id < drafts[j].id)
  }

  predicate Allowed(s: State, a: Action) {
    a.AppendDrafts? ==> GoodDrafts(s.rows, a.drafts)
  }

  // ----- the invariant -----

  predicate DistinctRows(rows: seq<Row>) {
    && (forall i, j :: 0 <= i < j < |rows| ==> rows[i].id < rows[j].id)
    && (forall i, j :: 0 <= i < j < |rows| ==> rows[i].key != rows[j].key)
    && (forall i :: 0 <= i < |rows| ==> Publishable(rows[i]))
  }

  /** Equal up to the published mark. */
  predicate SameRow(a: Row, b: Row) { a.(published := false) == b.(published := false) }

  /** Exactly the first `m` rows are marked published. */
  predicate MarkedUpTo(rows: seq<Row>, m: nat) {
    m <= |rows| && forall i :: 0 <= i < |rows| ==> (rows[i].published <==> i < m)
  }

  /** Exactly the first `|log|` rows were delivered, in order. */
  predicate DeliveredInOrder(s: State) {
    && |s.log| <= |s.rows|
    && (forall i :: 0 <= i < |s.log| ==> SameRow(s.log[i], s.rows[i]))
    && (forall i :: 0 <= i < |s.rows| ==> (s.rows[i].key in s.delivered <==> i < |s.log|))
  }

  /** A busy relay works on a stretch of the outbox and has finished everything before its position. */
  predicate RelayOk(r: Relay, rows: seq<Row>, delivered: nat, marked: nat) {
    r.phase != Idle ==>
      && r.pos < |r.batch| && r.start + |r.batch| <= |rows|
      && (forall k :: 0 <= k < |r.batch| ==> SameRow(r.batch[k], rows[r.start + k]))
      && r.start + r.pos <= marked
      && r.start + r.pos + (if r.phase == Marking then 1 else 0) <= delivered
  }

  ghost predicate InvAt(s: State, m: nat) {
    && DistinctRows(s.rows)
    && MarkedUpTo(s.rows, m) && m <= |s.log|
    && DeliveredInOrder(s)
    && (forall i :: 0 <= i < |s.relays| ==> RelayOk(s.relays[i], s.rows, |s.log|, m))
    && (forall key :: key in s.emitted <==> HasKey(s.rows, key))
    && (forall key :: key in s.delivered ==> HasKey(s.rows, key))
  }

  ghost predicate Inv(s: State) {
    exists m: nat :: InvAt(s, m)
  }

  // ----- appends -----

  lemma {:induction false} AppendKeeps(rows: seq<Row>, drafts: seq<Row>)
    requires DistinctRows(rows) && GoodDrafts(rows, drafts)
    ensures var r := Append(rows, drafts);
            && DistinctRows(r)
            && (forall i :: |rows| <= i < |r| ==> !r[i].published)
            && (forall key :: HasKey(r, key) <==> HasKey(rows, key) || HasKey(drafts, key))
    decreases |drafts|
  {
    if drafts != [] {
      var d := drafts[0];
      var grown := if HasKey(rows, d.key) then rows else rows + [d];
      assert GoodDrafts(grown, drafts[1..]) && DistinctRows(grown);
      AppendKeeps(grown, drafts[1..]);
      forall key
        ensures HasKey(Append(rows, drafts), key) <==> HasKey(rows, key) || HasKey(drafts, key)
      {
        HasKeySplit(drafts, key);
        HasKeySnoc(rows, d, key);
      }
    }
  }

  lemma HasKeySplit(drafts: seq<Row>, key: Key)
    requires drafts != []
    ensures HasKey(drafts, key) <==> drafts[0].key == key || HasKey(drafts[1..], key)
  {
    if HasKey(drafts, key) && drafts[0].key != key {
      var i :| 0 <= i < |drafts| && drafts[i].key == key;
      assert drafts[1..][i - 1].key == key;
    }
    if HasKey(drafts[1..], key) {
      var i :| 0 <= i < |drafts[1..]| && drafts[1..][i].key == key;
      assert drafts[i + 1].key == key;
    }
  }

  lemma HasKeySnoc(rows: seq<Row>, d: Row, key: Key)
    ensures HasKey(rows + [d], key) <==> HasKey(rows, key) || d.key == key
  {
    var all := rows + [d];
    assert all[|rows|] == d;
    if HasKey(rows, key) {
      var i :| 0 <= i < |rows| && rows[i].key == key;
      assert all[i].key == key;
    }
  }

  // ----- polling -----

  lemma {:induction false} PendingIs(rows: seq<Row>, m: nat)
    requires MarkedUpTo(rows, m)
    ensures Pending(rows) == rows[m..]
    decreases |rows|
  {
    if rows != [] {
      if m > 0 {
        PendingIs(rows[1..], m - 1);
        assert rows[1..][m - 1..] == rows[m..];
      } else {
        PendingIs(rows[1..], 0);
        assert rows[1..][0..] == rows[1..];
        assert [rows[0]] + rows[1..] == rows;
      }
    }
  }

  // ----- each step keeps the invariant -----

  lemma AppendStep(s: State, m: nat, drafts: seq<Row>)
    requires InvAt(s, m) && GoodDrafts(s.rows, drafts)
    ensures InvAt(Next(s, AppendDrafts(drafts)), m)
  {
    hide Append, HasKey, SameRow, GoodDrafts, DistinctRows;
    AppendKeeps(s.rows, drafts);
    var t := Next(s, AppendDrafts(drafts));
    assert forall i :: 0 <= i < |s.rows| ==> t.rows[i] == s.rows[i];
    NewRowsUndelivered(s, m, drafts);
    forall key
      ensures key in t.emitted <==> HasKey(t.rows, key)
    {
      KeyOfDraft(drafts, key);
    }
  }

  lemma KeyOfDraft(drafts: seq<Row>, key: Key)
    ensures HasKey(drafts, key) <==> key in set d | d in drafts :: d.key
  {
    if HasKey(drafts, key) {
      var i :| 0 <= i < |drafts| && drafts[i].key == key;
      assert drafts[i] in drafts;
    }
  }

  /** A new row's key was never delivered: delivered keys belong to earlier rows. */
  lemma NewRowsUndelivered(s: State, m: nat, drafts: seq<Row>)
    requires InvAt(s, m) && GoodDrafts(s.rows, drafts)
    ensures var r := Append(s.rows, drafts); forall i :: |s.rows| <= i < |r| ==> r[i].key !in s.delivered
  {
    AppendKeeps(s.rows, drafts);
    var r := Append(s.rows, drafts);
    forall i | |s.rows| <= i < |r|
      ensures r[i].key !in s.delivered
    {
      assert forall j :: 0 <= j < |s.rows| ==> r[j] == s.rows[j] && r[j].key != r[i].key;
      assert !HasKey(s.rows, r[i].key);
    }
  }

  lemma SwapRelay(s: State, m: nat, i: nat, r: Relay)
    requires InvAt(s, m) && i < |s.relays| && RelayOk(r, s.rows, |s.log|, m)
    ensures InvAt(s.(relays := s.relays[i := r]), m)
  {
    hide HasKey, DistinctRows, RelayOk, MarkedUpTo;
    assert DeliveredInOrder(s.(relays := s.relays[i := r]));
  }

  lemma PollStep(s: State, m: nat, i: nat, limit: int)
    requires InvAt(s, m)
    ensures InvAt(Next(s, Poll(i, limit)), m)
  {
    hide HasKey, DistinctRows, RelayOk;
    PendingIs(s.rows, m);
    var batch := Take(s.rows[m..], limit);
    if i < |s.relays| && s.relays[i].phase == Idle && batch != [] {
      var r := Relay(Publishing, batch, 0, m);
      assert RelayOk(r, s.rows, |s.log|, m) by { BatchOk(s.rows, m, limit, |s.log|); }
      SwapRelay(s, m, i, r);
    }
  }

  lemma BatchOk(rows: seq<Row>, m: nat, limit: int, delivered: nat)
    requires m <= |rows| && m <= delivered && Take(rows[m..], limit) != []
    ensures RelayOk(Relay(Publishing, Take(rows[m..], limit), 0, m), rows, delivered, m)
  {
    var batch := Take(rows[m..], limit);
    assert forall k :: 0 <= k < |batch| ==> batch[k] == rows[m..][k] == rows[m + k];
  }

  /** Delivering the row the log has reached. */
  lemma Deliver(s: State, m: nat, row: Row)
    requires InvAt(s, m) && |s.log| < |s.rows| && SameRow(row, s.rows[|s.log|])
    ensures InvAt(s.(delivered := s.delivered + {row.key}, log := s.log + [row]), m)
  {
    hide HasKey;
    var t := s.(delivered := s.delivered + {row.key}, log := s.log + [row]);
    HasKeyAt(s.rows, |s.log|);
    assert DeliveredInOrder(t);
    forall k | 0 <= k < |t.relays|
      ensures RelayOk(t.relays[k], t.rows, |t.log|, m)
    {
      assert RelayOk(s.relays[k], s.rows, |s.log|, m);
    }
  }

  /** A relay about to publish is at the first undelivered row, or behind it. */
  lemma PublishStep(s: State, m: nat, i: nat)
    requires InvAt(s, m)
    ensures InvAt(Next(s, Publish(i)), m)
  {
    hide HasKey, MarkedUpTo;
    if i < |s.relays| && s.relays[i].phase == Publishing {
      var r := s.relays[i];
      var row := r.batch[r.pos];
      var at := r.start + r.pos;
      assert RelayOk(r, s.rows, |s.log|, m);
      assert SameRow(row, s.rows[at]) && Publishable(s.rows[at]);
      var next := r.(phase := Marking);
      if row.key in s.delivered {
        assert RelayOk(next, s.rows, |s.log|, m);
        SwapRelay(s, m, i, next);
      } else {
        assert at == |s.log|;
        Deliver(s, m, row);
        var t := s.(delivered := s.delivered + {row.key}, log := s.log + [row]);
        assert RelayOk(next, t.rows, |t.log|, m);
        SwapRelay(t, m, i, next);
      }
    }
  }

  lemma HasKeyAt(rows: seq<Row>, i: nat)
    requires i < |rows|
    ensures HasKey(rows, rows[i].key)
  {
  }

  function MarkedAfter(s: State, m: nat, i: nat): nat {
    if i < |s.relays| && s.relays[i].phase == Marking && s.relays[i].start + s.relays[i].pos == m then m + 1 else m
  }

  lemma MarkRowIs(rows: seq<Row>, m: nat, at: nat)
    requires DistinctRows(rows) && MarkedUpTo(rows, m) && at < |rows| && at <= m
    ensures var r := MarkRow(rows, rows[at].id);
            && |r| == |rows| && DistinctRows(r) && MarkedUpTo(r, if at == m then m + 1 else m)
            && forall k :: 0 <= k < |rows| ==> SameRow(r[k], rows[k])
  {
  }

  lemma MarkKeys(rows: seq<Row>, id: nat, key: Key)
    ensures HasKey(MarkRow(rows, id), key) <==> HasKey(rows, key)
  {
    var r := MarkRow(rows, id);
    assert forall k :: 0 <= k < |rows| ==> r[k].key == rows[k].key;
  }

  lemma RelayFollows(r: Relay, rows: seq<Row>, marked: seq<Row>, delivered: nat, m: nat, m': nat)
    requires RelayOk(r, rows, delivered, m) && m <= m' && |rows| == |marked|
    requires forall k :: 0 <= k < |rows| ==> SameRow(marked[k], rows[k])
    ensures RelayOk(r, marked, delivered, m')
  {
  }

  /** Marking the row `at`. */
  lemma MarkAt(s: State, m: nat, at: nat)
    requires InvAt(s, m) && at < |s.log| && at <= m
    ensures InvAt(s.(rows := MarkRow(s.rows, s.rows[at].id)), if at == m then m + 1 else m)
  {
    hide HasKey, DistinctRows, MarkRow, RelayOk;
    var m' := if at == m then m + 1 else m;
    var t := s.(rows := MarkRow(s.rows, s.rows[at].id));
    MarkRowIs(s.rows, m, at);
    assert DeliveredInOrder(t);
    forall k | 0 <= k < |t.relays|
      ensures RelayOk(t.relays[k], t.rows, |t.log|, m')
    {
      RelayFollows(s.relays[k], s.rows, t.rows, |s.log|, m, m');
    }
    forall key
      ensures HasKey(t.rows, key) <==> HasKey(s.rows, key)
    {
      MarkKeys(s.rows, s.rows[at].id, key);
    }
  }

  lemma MarkStep(s: State, m: nat, i: nat)
    requires InvAt(s, m)
    ensures InvAt(Next(s, Mark(i)), MarkedAfter(s, m, i))
  {
    hide HasKey, DistinctRows, MarkedUpTo;
    if i < |s.relays| && s.relays[i].phase == Marking {
      var r := s.relays[i];
      var at := r.start + r.pos;
      assert RelayOk(r, s.rows, |s.log|, m);
      assert SameRow(r.batch[r.pos], s.rows[at]);
      MarkAt(s, m, at);
      var t := s.(rows := MarkRow(s.rows, s.rows[at].id));
      assert RelayOk(t.relays[i], t.rows, |t.log|, MarkedAfter(s, m, i));
      SwapRelay(t, MarkedAfter(s, m, i), i, Advance(r));
    }
  }

  lemma StepKeeps(s: State, a: Action)
    requires Inv(s) && Allowed(s, a)
    ensures Inv(Next(s, a))
  {
    hide InvAt, Next;
    var m: nat :| InvAt(s, m);
    match a
    case AppendDrafts(drafts) => AppendStep(s, m, drafts);
    case Poll(i, limit) => PollStep(s, m, i, limit);
    case Publish(i) => PublishStep(s, m, i);
    case Mark(i) => MarkStep(s, m, i);
  }

  // ----- whole runs -----

  function Start(relays: nat): State {
    State([], {}, [], seq(relays, _ => Relay(Idle, [], 0, 0)), {})
  }

  /** The state after the first `k` actions. */
  function After(s: State, actions: seq<Action>): State
    decreases |actions|
  {
    if actions == [] then s else Next(After(s, actions[..|actions| - 1]), actions[|actions| - 1])
  }

  predicate AllAllowed(s: State, actions: seq<Action>)
    decreases |actions|
  {
    actions != [] ==>
      && AllAllowed(s, actions[..|actions| - 1])
      && Allowed(After(s, actions[..|actions| - 1]), actions[|actions| - 1])
  }

  lemma {:induction false} RunKeeps(s: State, actions: seq<Action>)
    requires Inv(s) && AllAllowed(s, actions)
    ensures Inv(After(s, actions))
    decreases |actions|
  {
    if actions != [] {
      RunKeeps(s, actions[..|actions| - 1]);
      StepKeeps(After(s, actions[..|actions| - 1]), actions[|actions| - 1]);
    }
  }

  /** Positions of the rows carrying a key. */
  function Positions(rows: seq<Row>, key: Key): set<nat> {
    set i: nat | i < |rows| && rows[i].key == key
  }

  /** Each emitted key has exactly one row and other keys none; the marked rows and the published list are prefixes of
      the outbox, the marked one within the published one; no row is published twice. */
  ghost predicate Safe(s: State) {
    && (forall key :: |Positions(s.rows, key)| == if key in s.emitted then 1 else 0)
    && (exists m: nat :: MarkedUpTo(s.rows, m) && m <= |s.log|)
    && |s.log| <= |s.rows|
    && (forall i :: 0 <= i < |s.log| ==> SameRow(s.log[i], s.rows[i]))
    && (forall i, j :: 0 <= i < j < |s.log| ==> s.log[i].key != s.log[j].key && s.log[i].id != s.log[j].id)
  }

  lemma InvSafe(s: State)
    requires Inv(s)
    ensures Safe(s)
  {
    hide Positions, HasKey;
    var m: nat :| InvAt(s, m);
    forall key
      ensures |Positions(s.rows, key)| == if key in s.emitted then 1 else 0
    {
      OneRowPerKey(s, m, key);
    }
  }

  /** Every interleaving of appends with the steps of any number of relays is safe. */
  lemma OutboxSafety(relays: nat, actions: seq<Action>)
    requires AllAllowed(Start(relays), actions)
    ensures Safe(After(Start(relays), actions))
  {
    hide Inv, Safe;
    StartInv(relays);
    RunKeeps(Start(relays), actions);
    InvSafe(After(Start(relays), actions));
  }

  /** What was delivered fits its schema, has the empty payload and is recorded, each key once. */
  ghost predicate Delivered(s: State) {
    && (forall i :: 0 <= i < |s.log| ==> s.log[i].schema == s.log[i].key.event && s.log[i].empty)
    && (forall i :: 0 <= i < |s.log| ==> s.log[i].key in s.delivered)
    && (forall i, j :: 0 <= i < j < |s.log| ==> s.log[i].key != s.log[j].key)
  }

  lemma DeliveredStep(s: State, a: Action)
    requires Delivered(s)
    ensures Delivered(Next(s, a))
  {
    hide Append, MarkRow, Pending, Take;
  }

  /** Whatever is handed to the outbox, well formed or not, no row is delivered that does not fit its schema, and no
      key twice. */
  lemma {:induction false} OnlyFittingDelivered(relays: nat, actions: seq<Action>)
    ensures Delivered(After(Start(relays), actions))
    decreases |actions|
  {
    hide Next, Delivered;
    if actions == [] {
      NothingDelivered(relays);
    } else {
      OnlyFittingDelivered(relays, actions[..|actions| - 1]);
      DeliveredStep(After(Start(relays), actions[..|actions| - 1]), actions[|actions| - 1]);
    }
  }

  lemma NothingDelivered(relays: nat)
    ensures Delivered(Start(relays))
  {
  }

  lemma StartInv(relays: nat)
    ensures Inv(Start(relays))
  {
    assert InvAt(Start(relays), 0);
  }

  lemma OneRowPerKey(s: State, m: nat, key: Key)
    requires InvAt(s, m)
    ensures |Positions(s.rows, key)| == if key in s.emitted then 1 else 0
  {
    if HasKey(s.rows, key) {
      var i :| 0 <= i < |s.rows| && s.rows[i].key == key;
      assert Positions(s.rows, key) == {i};
    } else {
      assert Positions(s.rows, key) == {};
    }
  }

  // ----- one relay on its own -----

  datatype PublishResult = Published(id: nat) | Duplicate(id: nat, key: Key) | Refused(id: nat)

  /** What a batch leaves behind, with the answer to each row. */
  datatype Relayed = Relayed(rows: seq<Row>, delivered: set<Key>, log: seq<Row>, results: seq<PublishResult>)

  function PublishAnswer(delivered: set<Key>, row: Row): PublishResult {
    if !Publishable(row) then Refused(row.id)
    else if row.key in delivered then Duplicate(row.id, row.key)
    else Published(row.id)
  }

  /** Publishing one row and, unless it was refused, marking it. */
  function RelayOne(r: Relayed, row: Row): Relayed {
    var answer := PublishAnswer(r.delivered, row);
    Relayed(
      if answer.Refused? then r.rows else MarkRow(r.rows, row.id),
      if answer.Refused? then r.delivered else r.delivered + {row.key},
      if answer.Published? then r.log + [row] else r.log,
      r.results + [answer])
  }

  function RelayAll(r: Relayed, batch: seq<Row>): Relayed
    decreases |batch|
  {
    if batch == [] then r else RelayOne(RelayAll(r, batch[..|batch| - 1]), batch[|batch| - 1])
  }

  /** The steps of an uninterrupted relay. */
  function RelayActions(i: nat, limit: int, rows: nat): seq<Action> {
    if rows == 0 then [Poll(i, limit)] else RelayActions(i, limit, rows - 1) + [Publish(i), Mark(i)]
  }

  /** The state after `n` rows of the batch. */
  function Midway(s: State, i: nat, batch: seq<Row>, n: nat): State
    requires i < |s.relays| && n <= |batch|
  {
    var r := RelayAll(Relayed(s.rows, s.delivered, s.log, []), batch[..n]);
    var relay := if n < |batch| then Relay(Publishing, batch, n, |s.rows| - |Pending(s.rows)|)
        else Relay(Idle, [], 0, 0);
    State(r.rows, r.delivered, r.log, s.relays[i := relay], s.emitted)
  }

  lemma AfterTwo(s: State, actions: seq<Action>, a: Action, b: Action)
    ensures After(s, actions + [a, b]) == Next(Next(After(s, actions), a), b)
  {
    hide Next;
    var all := actions + [a, b];
    assert all[..|all| - 1] == actions + [a] && (actions + [a])[..|actions|] == actions;
  }

  lemma RelayRow(s: State, i: nat, batch: seq<Row>, n: nat)
    requires i < |s.relays| && n < |batch|
    ensures Next(Next(Midway(s, i, batch, n), Publish(i)), Mark(i)) == Midway(s, i, batch, n + 1)
  {
    hide MarkRow, Pending;
    assert batch[..n + 1][..n] == batch[..n];
    var m := Midway(s, i, batch, n);
    assert m.relays[i].batch == batch && m.relays[i].pos == n;
    var p := Next(m, Publish(i));
    assert p.relays[i] == if Publishable(batch[n]) then m.relays[i].(phase := Marking) else Advance(m.relays[i]);
    assert Next(p, Mark(i)).relays == s.relays[i := Advance(m.relays[i])];
  }

  /** A relay that nobody interrupts does what `RelayAll` says: the batch method is one run of the machine. */
  lemma {:induction false} RelayIsRun(s: State, i: nat, limit: int, n: nat)
    requires i < |s.relays| && s.relays[i] == Relay(Idle, [], 0, 0) && n <= |Take(Pending(s.rows), limit)|
    ensures After(s, RelayActions(i, limit, n)) == Midway(s, i, Take(Pending(s.rows), limit), n)
  {
    hide Midway, Take, Pending, After, Next;
    var batch := Take(Pending(s.rows), limit);
    if n == 0 {
      PollIsMidway(s, i, limit);
    } else {
      RelayIsRun(s, i, limit, n - 1);
      AfterTwo(s, RelayActions(i, limit, n - 1), Publish(i), Mark(i));
      RelayRow(s, i, batch, n - 1);
    }
  }

  lemma PollIsMidway(s: State, i: nat, limit: int)
    requires i < |s.relays| && s.relays[i] == Relay(Idle, [], 0, 0)
    ensures After(s, [Poll(i, limit)]) == Midway(s, i, Take(Pending(s.rows), limit), 0)
  {
    hide Pending;
    assert [Poll(i, limit)][..0] == [];
    assert s.relays[i := s.relays[i]] == s.relays;
  }
}
