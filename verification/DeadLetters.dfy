/** Dead letters over whole runs of the store: how many are open, which work items they belong to, and what replaying
    them does. Records come from transitions only, and no work item is seeded as abandoned. */
module DeadLetters {
  import opened IrelSyntax
  import opened Lifecycle
  import opened Entities
  import opened StoreRuns
  import Outbox

  // ----- the invariant -----

  predicate FreshLetters(w: World) {
    forall k :: k in w.letters ==> k < w.sequence
  }

  /** No work item has two open records. */
  ghost predicate OneOpen(w: World) {
    forall j, k, id :: j in w.letters && k in w.letters && IsOpen(w.letters[j], id) && IsOpen(w.letters[k], id) ==>
          j == k
  }

  /** Every abandoned work item has an open record. */
  predicate Buried(w: World) {
    forall id :: id in w.items && w.items[id].status == Abandoned ==> HasOpen(w.letters, id)
  }

  /** The assumption on callers. */
  predicate Ordinary(op: Op) {
    !op.CreateLetter? && !(op.SeedItem? && op.item == Abandoned)
  }

  /** A replay is closed while its work item is not abandoned again. */
  predicate ClosesInTime(w: World, letter: nat) {
    letter in w.letters && w.letters[letter].replayedAt == None ==>
      forall id :: id in w.items && IsOpen(w.letters[letter], id) ==> w.items[id].status != Abandoned
  }

  predicate InTime(s: System, op: Op) {
    op.ReplayEnd? && op.letter in s.closing ==> ClosesInTime(s.world, op.letter)
  }

  // ----- what one step does -----

  /** Abandoning is the only transition that asks for a record, and every transition to `Abandoned` asks for one. */
  lemma AbandoningAsks(cur: WorkitemState, ev: WorkitemEvent, g: WorkitemGuard)
    requires TransitionWorkitem(cur, ev, g).Some?
    ensures var t := TransitionWorkitem(cur, ev, g).value;
            t.next == Abandoned <==> CreateDeadLetter in t.commands
  {
  }

  lemma BuryKeeps(w: World, v: World, id: Id, row: ItemRow, k: nat)
    requires FreshLetters(w) && OneOpen(w) && v.items == w.items[id := row] && w.sequence <= k <= v.sequence
    requires if row.status == Abandoned && !HasOpen(w.letters, id)
             then v.letters == w.letters[k := Letter(id.tenant, Some(id.id), None)] && k < v.sequence
             else v.letters == w.letters
    ensures FreshLetters(v) && OneOpen(v) && (Buried(w) ==> Buried(v))
  {
    forall id' | HasOpen(w.letters, id')
      ensures HasOpen(v.letters, id')
    {
      var j :| j in w.letters && IsOpen(w.letters[j], id');
      assert j in v.letters && IsOpen(v.letters[j], id');
    }
    if row.status == Abandoned && !HasOpen(w.letters, id) {
      assert k in v.letters && IsOpen(v.letters[k], id);
    }
  }

  lemma ItemKeeps(w: World, id: Id, ev: WorkitemEvent, g: WorkitemGuard, exp: Option<WorkitemState>)
    requires FreshLetters(w) && OneOpen(w)
    ensures var v := ApplyItem(w, id, ev, g, exp).0;
            FreshLetters(v) && OneOpen(v) && (Buried(w) ==> Buried(v))
  {
    hide ApplyItem, TransitionWorkitem, FreshLetters, OneOpen, Buried, HasOpen;
    var (v, out) := ApplyItem(w, id, ev, g, exp);
    ItemApplied(w, id, ev, g, exp);
    if out.Applied? {
      AbandoningAsks(w.items[id].status, ev, g);
      BuryKeeps(w, v, id, ItemAfter(w.items[id], ev, out.next, w.clock), w.sequence + |Emitted(out.commands)|);
    }
  }

  /** Closing a record loses its work item exactly when that was abandoned again in the meantime. */
  lemma CloseKeepsIff(w: World, letter: nat)
    requires FreshLetters(w) && OneOpen(w) && Buried(w)
    ensures var v := ReplayClose(w, letter);
            FreshLetters(v) && OneOpen(v) && (Buried(v) <==> ClosesInTime(w, letter))
  {
    CloseOne(w, letter);
    var v := ReplayClose(w, letter);
    if ClosesInTime(w, letter) {
      forall id | id in v.items && v.items[id].status == Abandoned
        ensures HasOpen(v.letters, id)
      {
        var k :| k in w.letters && IsOpen(w.letters[k], id);
        assert k != letter && IsOpen(v.letters[k], id);
      }
    } else {
      var id :| id in w.items && IsOpen(w.letters[letter], id) && w.items[id].status == Abandoned;
      assert forall k :: k in v.letters && k != letter ==> !IsOpen(w.letters[k], id);
      assert !HasOpen(v.letters, id);
    }
  }

  lemma CloseOne(w: World, letter: nat)
    requires FreshLetters(w) && OneOpen(w)
    ensures var v := ReplayClose(w, letter); FreshLetters(v) && OneOpen(v)
  {
    var v := ReplayClose(w, letter);
    assert forall k, id :: k in v.letters && IsOpen(v.letters[k], id) ==> k in w.letters && IsOpen(w.letters[k], id);
  }

  /** The first half of a replay leaves the records alone and un-abandons its item. */
  lemma ApplyKeeps(w: World, tenant: string, letter: nat)
    requires FreshLetters(w) && OneOpen(w)
    ensures var v := ReplayApply(w, tenant, letter);
            FreshLetters(v) && OneOpen(v) && (Buried(w) ==> Buried(v))
  {
    hide ReplayApply, ReplayAnswer;
    ReplayApplied(w, tenant, letter);
  }

  lemma StepKeeps(s: System, op: Op)
    requires FreshLetters(s.world) && OneOpen(s.world) && Ordinary(op)
    ensures var w := Next(s, op).world;
            FreshLetters(w) && OneOpen(w) && (Buried(s.world) && InTime(s, op) ==> Buried(w))
  {
    hide FreshLetters, OneOpen, Buried, ApplyRun, ApplyItem, ApplyTask, ReplayApply, ReplayClose, ReplayAnswer,
        DraftsOf, Outbox.Next, ClosesInTime;
    match op
    case ItemOp(id, ev, g, exp) => ItemKeeps(s.world, id, ev, g, exp);
    case ReplayBegin(tenant, letter) => ApplyKeeps(s.world, tenant, letter);
    case ReplayEnd(letter) =>
      if letter in s.closing {
        CloseOne(s.world, letter);
        if Buried(s.world) {
          CloseKeepsIff(s.world, letter);
        }
      }
    case _ =>
      OthersLeaveLetters(s, op);
      Framed(s.world, Next(s, op).world);
  }

  /** No new abandoned item, the same records, ids still fresh. */
  predicate Frames(w: World, v: World) {
    && v.letters == w.letters && v.sequence >= w.sequence
    && forall id :: id in v.items && v.items[id].status == Abandoned ==>
          id in w.items && w.items[id].status == Abandoned
  }

  lemma Framed(w: World, v: World)
    requires FreshLetters(w) && OneOpen(w) && Frames(w, v)
    ensures FreshLetters(v) && OneOpen(v) && (Buried(w) ==> Buried(v))
  {
  }

  lemma OthersLeaveLetters(s: System, op: Op)
    requires Ordinary(op) && !op.ItemOp? && !op.ReplayBegin? && !op.ReplayEnd?
    ensures Frames(s.world, Next(s, op).world)
  {
    hide ApplyRun, ApplyTask, DraftsOf, Outbox.Next;
    match op
    case RunOp(id, ev, g, exp) => RunApplied(s.world, id, ev, g, exp);
    case TaskOp(id, ev, g, exp) => TaskApplied(s.world, id, ev, g, exp);
    case _ =>
  }

  // ----- whole runs -----

  /** Every replay is closed in time. */
  predicate AllInTime(s: System, ops: seq<Op>)
    decreases |ops|
  {
    ops != [] ==> AllInTime(s, ops[..|ops| - 1]) && InTime(After(s, ops[..|ops| - 1]), ops[|ops| - 1])
  }

  /** In every run no work item has two open records; if replays are closed in time, every abandoned one has one. */
  lemma {:induction false} DeadLetterRuns(relays: nat, ops: seq<Op>)
    requires forall i :: 0 <= i < |ops| ==> Ordinary(ops[i])
    ensures var w := After(Boot(relays), ops).world;
            FreshLetters(w) && OneOpen(w) && (AllInTime(Boot(relays), ops) ==> Buried(w))
    decreases |ops|
  {
    hide FreshLetters, OneOpen, Buried, Next, InTime;
    if ops == [] {
      EmptyHolds();
    } else {
      DeadLetterRuns(relays, ops[..|ops| - 1]);
      StepKeeps(After(Boot(relays), ops[..|ops| - 1]), ops[|ops| - 1]);
    }
  }

  /** Every abandoned work item had an open record after each of the steps. */
  ghost predicate AlwaysBuried(relays: nat, ops: seq<Op>) {
    forall k :: 0 <= k <= |ops| ==> Buried(After(Boot(relays), ops[..k]).world)
  }

  /** Exactly the runs whose replays are all closed in time never leave an abandoned work item without a record. */
  lemma {:induction false} InTimeIff(relays: nat, ops: seq<Op>)
    requires forall i :: 0 <= i < |ops| ==> Ordinary(ops[i])
    ensures AllInTime(Boot(relays), ops) <==> AlwaysBuried(relays, ops)
    decreases |ops|
  {
    hide FreshLetters, OneOpen, Buried, Next, InTime;
    if ops == [] {
      EmptyHolds();
      assert ops[..0] == [];
    } else {
      var last := |ops| - 1;
      var init := ops[..last];
      InTimeIff(relays, init);
      assert forall k :: 0 <= k <= last ==> init[..k] == ops[..k];
      assert ops[..|ops|] == ops;
      DeadLetterRuns(relays, init);
      DeadLetterRuns(relays, ops);
      if AlwaysBuried(relays, init) && Buried(After(Boot(relays), ops).world) {
        BuriedInTime(After(Boot(relays), init), ops[last]);
      }
    }
  }

  /** A step that keeps every abandoned item's record closes in time. */
  lemma BuriedInTime(s: System, op: Op)
    requires FreshLetters(s.world) && OneOpen(s.world) && Buried(s.world) && Buried(Next(s, op).world)
    ensures InTime(s, op)
  {
    hide FreshLetters, OneOpen, Buried, ClosesInTime;
    if op.ReplayEnd? && op.letter in s.closing {
      CloseKeepsIff(s.world, op.letter);
    }
  }

  lemma EmptyHolds()
    ensures FreshLetters(NOWHERE) && OneOpen(NOWHERE) && Buried(NOWHERE)
  {
  }

  /** A replay with nothing in between closes in time: an abandoned item with a name has exactly one open record,
      replaying it succeeds, the item is new with no attempts, its record is closed and the invariant holds again. */
  lemma ReplayRestores(w: World, id: Id) returns (letter: nat)
    requires FreshLetters(w) && OneOpen(w) && Buried(w)
    requires id in w.items && w.items[id].status == Abandoned
    ensures letter in w.letters && IsOpen(w.letters[letter], id)
    ensures forall k :: k in w.letters && IsOpen(w.letters[k], id) ==> k == letter
    ensures id.id != "" <==> ReplayAnswer(w, id.tenant, letter) == Replayed(id.id)
    ensures id.id != "" ==>
              var v := Replay(w, id.tenant, letter);
              && v.items == w.items[id := ItemRow(New, 0, w.clock, None)]
              && v.letters == w.letters[letter := w.letters[letter].(replayedAt := Some(w.clock))]
              && FreshLetters(v) && OneOpen(v) && Buried(v)
  {
    letter :| letter in w.letters && IsOpen(w.letters[letter], id);
    if id.id != "" {
      ReplayApplied(w, id.tenant, letter);
      var half := ReplayApply(w, id.tenant, letter);
      ApplyKeeps(w, id.tenant, letter);
      assert ClosesInTime(half, letter);
      CloseKeepsIff(half, letter);
    }
  }

  predicate Closed(w: World, letter: nat) {
    letter in w.letters && w.letters[letter].replayedAt.Some?
  }

  /** Records are only added under fresh ids or closed. */
  predicate LettersGrow(w: World, v: World) {
    && (FreshLetters(w) ==> FreshLetters(v))
    && forall k :: k in w.letters && k < w.sequence && w.letters[k].replayedAt.Some? ==>
         k in v.letters && v.letters[k].replayedAt.Some?
  }

  lemma WorldGrows(w: World, op: Op)
    ensures LettersGrow(w, WorldNext(w, op))
  {
    hide ApplyRun, ApplyItem, ApplyTask, ReplayApply, ReplayAnswer, HasOpen, Emitted;
    match op
    case RunOp(id, ev, g, exp) => RunApplied(w, id, ev, g, exp);
    case ItemOp(id, ev, g, exp) => ItemApplied(w, id, ev, g, exp);
    case TaskOp(id, ev, g, exp) => TaskApplied(w, id, ev, g, exp);
    case ReplayBegin(tenant, k) => ReplayApplied(w, tenant, k);
    case _ =>
  }

  lemma StepStaysClosed(s: System, op: Op, letter: nat)
    requires FreshLetters(s.world) && Closed(s.world, letter)
    ensures FreshLetters(Next(s, op).world) && Closed(Next(s, op).world, letter)
  {
    hide WorldNext, ReplayAnswer, DraftsOf, Outbox.Next;
    WorldGrows(s.world, op);
  }

  /** A closed record is refused after any further operations, whoever asks. */
  lemma {:induction false} RefusedForever(s: System, ops: seq<Op>, letter: nat, tenant: string)
    requires FreshLetters(s.world) && Closed(s.world, letter)
    ensures var w := After(s, ops).world;
            FreshLetters(w) && Closed(w, letter) && ReplayAnswer(w, tenant, letter) == NotReplayable
    decreases |ops|
  {
    hide Next;
    if ops != [] {
      RefusedForever(s, ops[..|ops| - 1], letter, tenant);
      StepStaysClosed(After(s, ops[..|ops| - 1]), ops[|ops| - 1], letter);
    }
  }

  // ----- a replay that waits too long -----

  const LOST := Id("t", "i")
  const CHECKOUT := WorkitemGuard(true, false, None, false, false)
  const EXHAUSTED := WorkitemGuard(false, false, Some(false), false, false)

  /** The item is abandoned, replayed, checked out and abandoned again before the replay closes its record. */
  function RacePrefix(): seq<Op> {
    [SeedItem(LOST, Processing, 0), ItemOp(LOST, SystemException, EXHAUSTED, None), ReplayBegin("t", 2),
     ItemOp(LOST, Checkout, CHECKOUT, None), ItemOp(LOST, SystemException, EXHAUSTED, None), ReplayEnd(2)]
  }

  lemma AfterSnoc(s: System, ops: seq<Op>, k: nat)
    requires k < |ops|
    ensures After(s, ops[..k + 1]) == Next(After(s, ops[..k]), ops[k])
  {
    assert ops[..k + 1][..k] == ops[..k];
  }

  /** What abandoning does to an item that is being processed. */
  lemma Abandoning(s: System, open: bool)
    requires LOST in s.world.items && s.world.items[LOST].status == Processing && open == HasOpen(s.world.letters, LOST)
    ensures var w := Next(s, ItemOp(LOST, SystemException, EXHAUSTED, None)).world;
            && LOST in w.items && w.items[LOST].status == Abandoned
            && w.letters == if open then s.world.letters
                else s.world.letters[s.world.sequence + 1 := Letter("t", Some("i"), None)]
    ensures Next(s, ItemOp(LOST, SystemException, EXHAUSTED, None)).closing == s.closing
  {
    hide ApplyItem, DraftsOf, HasOpen;
    ItemApplied(s.world, LOST, SystemException, EXHAUSTED, None);
    AbandonsNow(s.world);
  }

  lemma AbandonsNow(w: World)
    requires LOST in w.items && w.items[LOST].status == Processing
    ensures var out := ApplyItem(w, LOST, SystemException, EXHAUSTED, None).1;
            out.Applied? && out.next == Abandoned && CreateDeadLetter in out.commands && |Emitted(out.commands)| == 1
  {
    var cs := [CreateDeadLetter, Emit(WorkitemDeadLetteredE)];
    assert cs[1..] == [Emit(WorkitemDeadLetteredE)] && cs[1..][1..] == [];
    assert cs[0] in cs;
  }

  lemma CheckingOut(s: System)
    requires LOST in s.world.items && s.world.items[LOST].status == New
    ensures var w := Next(s, ItemOp(LOST, Checkout, CHECKOUT, None)).world;
            && LOST in w.items && w.items[LOST].status == Processing && w.letters == s.world.letters
    ensures Next(s, ItemOp(LOST, Checkout, CHECKOUT, None)).closing == s.closing
  {
    hide DraftsOf, HasOpen, Outbox.Append;
  }

  lemma AfterSix(s: System, ops: seq<Op>)
    requires |ops| == 6
    ensures After(s, ops) == Next(Next(Next(Next(Next(Next(s, ops[0]), ops[1]), ops[2]), ops[3]), ops[4]), ops[5])
  {
    hide Next;
    AfterSnoc(s, ops, 0);
    AfterSnoc(s, ops, 1);
    AfterSnoc(s, ops, 2);
    AfterSnoc(s, ops, 3);
    AfterSnoc(s, ops, 4);
    AfterSnoc(s, ops, 5);
    assert ops[..6] == ops && ops[..0] == [];
  }

  /** Without the timing condition an abandoned item can end up with no open record, so that no replay finds it. */
  lemma ReplayRace()
    ensures forall i :: 0 <= i < |RacePrefix()| ==> Ordinary(RacePrefix()[i])
    ensures var w := After(Boot(0), RacePrefix()).world;
            && LOST in w.items && w.items[LOST].status == Abandoned && !HasOpen(w.letters, LOST)
            && forall k, tenant :: ReplayAnswer(w, tenant, k) != Replayed(LOST.id)
  {
    hide Next, HasOpen, ReplayAnswer, After;
    AfterSix(Boot(0), RacePrefix());
    var s1 := Next(Boot(0), SeedItem(LOST, Processing, 0));
    RaceSeed();
    NothingOpen(s1.world.letters);
    Abandoning(s1, false);
    var s2 := Next(s1, ItemOp(LOST, SystemException, EXHAUSTED, None));
    RaceBegin(s2);
    var s3 := Next(s2, ReplayBegin("t", 2));
    CheckingOut(s3);
    var s4 := Next(s3, ItemOp(LOST, Checkout, CHECKOUT, None));
    OneLetterOpen(s4.world.letters);
    Abandoning(s4, true);
    RaceEnd(Next(s4, ItemOp(LOST, SystemException, EXHAUSTED, None)));
  }

  lemma RaceSeed()
    ensures var s := Next(Boot(0), SeedItem(LOST, Processing, 0));
            s.world == NOWHERE.(items := map[LOST := ItemRow(Processing, 0, 0, None)]) && s.closing == multiset{}
  {
  }

  lemma NothingOpen(letters: map<nat, Letter>)
    requires letters == map[]
    ensures !HasOpen(letters, LOST)
  {
  }

  lemma OneLetterOpen(letters: map<nat, Letter>)
    requires 2 in letters && letters[2] == Letter("t", Some("i"), None)
    ensures HasOpen(letters, LOST)
  {
    assert IsOpen(letters[2], LOST);
  }

  lemma RaceBegin(s: System)
    requires LOST in s.world.items && s.world.items[LOST].status == Abandoned
    requires 2 in s.world.letters && s.world.letters[2] == Letter("t", Some("i"), None)
    ensures var t := Next(s, ReplayBegin("t", 2));
            && LOST in t.world.items && t.world.items[LOST].status == New && t.world.letters == s.world.letters
            && 2 in t.closing
  {
    hide ReplayApply;
    ReplayApplied(s.world, "t", 2);
  }

  lemma RaceEnd(s: System)
    requires LOST in s.world.items && s.world.items[LOST].status == Abandoned && 2 in s.closing
    requires s.world.letters == map[2 := Letter("t", Some("i"), None)]
    ensures var w := Next(s, ReplayEnd(2)).world;
            && LOST in w.items && w.items[LOST].status == Abandoned && !HasOpen(w.letters, LOST)
            && forall k, tenant :: ReplayAnswer(w, tenant, k) != Replayed(LOST.id)
  {
  }
}
