/** What a stored credential slot says about its own past: over any run its fields are those of the last acquisition
    and of what has happened to it since. */
module SlotHistories {
  import opened IrelSyntax
  import opened Credentials

  /** What can happen to a slot: it is taken, renewed by its run, released by anyone, or swept past its time. */
  datatype Mark = Take(run: string, item: Option<string>, until: int) | Extend(until: int) | Free | Overstay

  datatype Entry = Entry(mark: Mark, at: int)

  function MarkOf(v: Vault, op: Op, k: SlotKey): Option<Mark> {
    match op
    case Acquire(a, run, item, until) =>
      if Step(v, op).1 == Acquired(k.slot) && k.account == a then Some(Take(run, item, until)) else None
    case Renew(a, slot, _, until) =>
      if k == SlotKey(a, slot) && Step(v, op).1.Renewed? then Some(Extend(until)) else None
    case Release(a, slot) => if k == SlotKey(a, slot) && k in v.slots then Some(Free) else None
    case Sweep(now) =>
      if k in v.slots && v.slots[k].status == InUse && v.slots[k].lockedUntil < now then Some(Overstay) else None
    case _ => None
  }

  /** Everything that happened to a slot since it was last taken, with the clock. */
  function Story(v: Vault, ops: seq<Op>, k: SlotKey): seq<Entry>
    decreases |ops|
  {
    if ops == [] then []
    else
      var before := After(v, ops[..|ops| - 1]);
      var story := Story(v, ops[..|ops| - 1], k);
      match MarkOf(before, ops[|ops| - 1], k)
      case None => story
      case Some(m) => (if m.Take? then [] else story) + [Entry(m, before.clock)]
  }

  predicate Sets(m: Mark) { m.Take? || m.Extend? }

  /** The entry is the last that set a time. */
  predicate LastSet(story: seq<Entry>, i: nat) {
    i < |story| && Sets(story[i].mark) && forall j :: i < j < |story| ==> !Sets(story[j].mark)
  }

  /** The slot tells its story: run, item and time of acquisition come from its taking, its time from that or the last
      renewal, its status from the last entry. */
  ghost predicate Tells(l: SlotLease, story: seq<Entry>) {
    && story != [] && story[0].mark.Take?
    && l.run == story[0].mark.run && l.item == story[0].mark.item && l.acquiredAt == story[0].at
    && (exists i: nat :: LastSet(story, i))
    && (forall i: nat :: LastSet(story, i) ==> l.lockedUntil == story[i].mark.until)
    && l.status == match story[|story| - 1].mark case Free => Released case Overstay => Overrun case _ => InUse
  }

  function Marked(l: SlotLease, m: Mark): SlotLease {
    match m
    case Extend(until) => l.(status := InUse, lockedUntil := until)
    case Free => l.(status := Released)
    case _ => l.(status := Overrun)
  }

  lemma TakeStep(v: Vault, op: Op, k: SlotKey)
    requires op.Acquire?
    ensures var w := Step(v, op).0;
            match MarkOf(v, op, k)
            case None => (k in w.slots <==> k in v.slots) && (k in v.slots ==> w.slots[k] == v.slots[k])
            case Some(m) =>
              m.Take? && k in w.slots && w.slots[k] == SlotLease(m.run, m.item, InUse, m.until, v.clock)
  {
    hide FirstFree;
  }

  lemma OtherStep(v: Vault, op: Op, k: SlotKey)
    requires !op.Acquire?
    ensures var w := Step(v, op).0;
            && (k in w.slots <==> k in v.slots)
            && match MarkOf(v, op, k)
               case None => k in v.slots ==> w.slots[k] == v.slots[k]
               case Some(m) => !m.Take? && k in v.slots && w.slots[k] == Marked(v.slots[k], m)
  {
  }

  lemma SetSnoc(story: seq<Entry>, e: Entry, i: nat)
    ensures LastSet(story + [e], i) <==> if i == |story| then Sets(e.mark) else LastSet(story, i) && !Sets(e.mark)
    ensures LastSet(story, i) ==> i < |story|
  {
    var all := story + [e];
    assert i < |story| ==> all[i] == story[i];
    assert all[|story|] == e;
    if i < |story| && LastSet(all, i) {
      forall j | i < j < |story| ensures !Sets(story[j].mark) { assert all[j] == story[j]; }
    }
  }

  lemma TellsSnoc(l: SlotLease, story: seq<Entry>, m: Mark, clock: int)
    requires Tells(l, story) && !m.Take?
    ensures Tells(Marked(l, m), story + [Entry(m, clock)])
  {
    hide LastSet;
    var all := story + [Entry(m, clock)];
    forall i: nat
      ensures LastSet(all, i) <==> if i == |story| then Sets(m) else LastSet(story, i) && !Sets(m)
      ensures LastSet(story, i) ==> i < |story|
    {
      SetSnoc(story, Entry(m, clock), i);
    }
    assert all[|story|] == Entry(m, clock) && forall i :: 0 <= i < |story| ==> all[i] == story[i];
    var b: nat :| LastSet(story, b);
    assert LastSet(all, if Sets(m) then |story| else b);
  }

  lemma TellsTake(m: Mark, clock: int)
    requires m.Take?
    ensures Tells(SlotLease(m.run, m.item, InUse, m.until, clock), [Entry(m, clock)])
  {
    assert LastSet([Entry(m, clock)], 0);
  }

  /** Over any run from an empty vault every slot that was ever used tells its story since it was last taken. */
  lemma {:induction false} SlotsTell(v: Vault, ops: seq<Op>, k: SlotKey)
    requires v.slots == map[]
    ensures var w := After(v, ops); k in w.slots <==> Story(v, ops, k) != []
    ensures var w := After(v, ops); k in w.slots ==> Tells(w.slots[k], Story(v, ops, k))
    decreases |ops|
  {
    hide Step, Tells, MarkOf, Marked;
    if ops != [] {
      var init, op := ops[..|ops| - 1], ops[|ops| - 1];
      SlotsTell(v, init, k);
      var w := After(v, init);
      if op.Acquire? { TakeStep(w, op, k); } else { OtherStep(w, op, k); }
      if MarkOf(w, op, k).Some? {
        var m := MarkOf(w, op, k).value;
        if m.Take? {
          assert [] + [Entry(m, w.clock)] == [Entry(m, w.clock)];
          TellsTake(m, w.clock);
        } else {
          TellsSnoc(w.slots[k], Story(v, init, k), m, w.clock);
        }
      }
    }
  }
}
