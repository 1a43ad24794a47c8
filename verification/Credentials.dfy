/** The credential slot allocator (runtime/fake-store.ts `acquireCredential`, `releaseCredential`, `renewCredential`,
    `setCredentialMaxConcurrency`, `sweepExpired`). */
module Credentials {
  import opened IrelSyntax

  /** One credential of one tenant on one site, the unit the limit applies to. */
  datatype Account = Account(tenant: string, credential: string, site: string)

  datatype SlotKey = SlotKey(account: Account, slot: int)

  datatype SlotStatus = InUse | Released | Overrun

  datatype SlotLease = SlotLease(
    run: string, item: Option<string>, status: SlotStatus, lockedUntil: int, acquiredAt: int)

  datatype Vault = Vault(clock: int, standard: int, limits: map<Account, int>, slots: map<SlotKey, SlotLease>)

  datatype Op =
    | SetLimit(account: Account, limit: int)
    | Acquire(account: Account, run: string, item: Option<string>, until: int)
    | Release(account: Account, slot: int)
    | Renew(account: Account, slot: int, run: string, until: int)
    | Sweep(now: int)
    | Tick(ms: int)

  datatype Answer = Acquired(slot: int) | Deferred | Renewed(until: int) | Lost | Done

  function Limit(v: Vault, a: Account): int {
    if a in v.limits then v.limits[a] else v.standard
  }

  /** In use and not past its time. */
  predicate Held(v: Vault, a: Account, slot: int) {
    var k := SlotKey(a, slot);
    k in v.slots && v.slots[k].status == InUse && v.clock <= v.slots[k].lockedUntil
  }

  /** The lowest slot from `from` on, below the limit, that is not held. */
  function FirstFree(v: Vault, a: Account, from: nat): (r: Option<nat>)
    ensures r.Some? ==> from <= r.value < Limit(v, a) && !Held(v, a, r.value)
    ensures r.Some? ==> forall k :: from <= k < r.value ==> Held(v, a, k)
    ensures r.None? ==> forall k :: from <= k < Limit(v, a) ==> Held(v, a, k)
    decreases Limit(v, a) - from
  {
    if from >= Limit(v, a) then None
    else if Held(v, a, from) then FirstFree(v, a, from + 1)
    else Some(from)
  }

  function SweepSlot(l: SlotLease, now: int): SlotLease {
    if l.status == InUse && l.lockedUntil < now then l.(status := Overrun) else l
  }

  function Step(v: Vault, op: Op): (Vault, Answer) {
    match op
    case SetLimit(a, limit) => (v.(limits := v.limits[a := limit]), Done)
    case Acquire(a, run, item, until) =>
      (match FirstFree(v, a, 0)
       case None => (v, Deferred)
       case Some(slot) =>
         (v.(slots := v.slots[SlotKey(a, slot) := SlotLease(run, item, InUse, until, v.clock)]), Acquired(slot)))
    case Release(a, slot) =>
      var k := SlotKey(a, slot);
      (if k in v.slots then v.(slots := v.slots[k := v.slots[k].(status := Released)]) else v, Done)
    case Renew(a, slot, run, until) =>
      var k := SlotKey(a, slot);
      if Held(v, a, slot) && v.slots[k].run == run
      then (v.(slots := v.slots[k := v.slots[k].(lockedUntil := until)]), Renewed(until))
      else (v, Lost)
    case Sweep(now) => (v.(slots := map k | k in v.slots :: SweepSlot(v.slots[k], now)), Done)
    case Tick(ms) => (v.(clock := v.clock + ms), Done)
  }

  function After(v: Vault, ops: seq<Op>): Vault
    decreases |ops|
  {
    if ops == [] then v else Step(After(v, ops[..|ops| - 1]), ops[|ops| - 1]).0
  }

  // ----- the limit -----

  function HeldSlots(v: Vault, a: Account): set<int> {
    set k | k in v.slots && k.account == a && Held(v, a, k.slot) :: k.slot
  }

  /** The limit in force is at most `bound`, and every slot ever used is below it. */
  predicate Bounded(v: Vault, a: Account, bound: nat) {
    Limit(v, a) <= bound && forall k :: k in v.slots && k.account == a ==> 0 <= k.slot < bound
  }

  /** An operation that does not lift the limit above `bound`. */
  predicate Respects(op: Op, a: Account, bound: nat) {
    op.SetLimit? && op.account == a ==> op.limit <= bound
  }

  lemma StepBounded(v: Vault, op: Op, a: Account, bound: nat)
    requires Bounded(v, a, bound) && Respects(op, a, bound)
    ensures Bounded(Step(v, op).0, a, bound)
  {
    hide FirstFree;
    if op.Acquire? {
      FreeIsLow(v, op.account);
    }
  }

  lemma FreeIsLow(v: Vault, a: Account)
    ensures FirstFree(v, a, 0).Some? ==> 0 <= FirstFree(v, a, 0).value < Limit(v, a)
  {
  }

  /** The slots below `n`. */
  function Below(n: nat): (r: set<int>)
    ensures |r| == n && forall k :: k in r <==> 0 <= k < n
  {
    if n == 0 then {} else Below(n - 1) + {n - 1}
  }

  lemma SubsetSize<T>(a: set<T>, b: set<T>)
    requires a <= b
    ensures |a| <= |b| && (|a| == |b| ==> a == b)
  {
    assert b == a + (b - a);
  }

  /** However requests interleave, no more slots are held at once than the largest limit in force. */
  lemma {:induction false} NeverOverLimit(v: Vault, ops: seq<Op>, a: Account, bound: nat)
    requires Bounded(v, a, bound) && forall i :: 0 <= i < |ops| ==> Respects(ops[i], a, bound)
    ensures Bounded(After(v, ops), a, bound)
    ensures |HeldSlots(After(v, ops), a)| <= bound
    decreases |ops|
  {
    hide Step, Bounded, Respects, HeldSlots;
    if ops != [] {
      NeverOverLimit(v, ops[..|ops| - 1], a, bound);
      StepBounded(After(v, ops[..|ops| - 1]), ops[|ops| - 1], a, bound);
    }
    HeldBelow(After(v, ops), a, bound);
  }

  lemma HeldBelow(v: Vault, a: Account, bound: nat)
    requires Bounded(v, a, bound)
    ensures HeldSlots(v, a) <= Below(bound) && |HeldSlots(v, a)| <= bound
  {
    SubsetSize(HeldSlots(v, a), Below(bound));
  }

  /** A request is put off exactly when every slot below the limit is held; otherwise it gets the lowest slot that is
      not held, and only that one changes hands. This holds under any history of limits. */
  lemma AcquireIff(v: Vault, a: Account, run: string, item: Option<string>, until: int)
    ensures var (w, answer) := Step(v, Acquire(a, run, item, until));
            && (answer == Deferred <==> forall k :: 0 <= k < Limit(v, a) ==> Held(v, a, k))
            && (answer == Deferred ==> w == v)
            && (answer != Deferred ==>
                 && answer.Acquired? && 0 <= answer.slot < Limit(v, a) && !Held(v, a, answer.slot)
                 && (forall k :: 0 <= k < answer.slot ==> Held(v, a, k))
                 && HeldSlots(w, a) == HeldSlots(v, a) + if v.clock <= until then {answer.slot} else {})
  {
    hide FirstFree;
    FreeSlot(v, a);
    if FirstFree(v, a, 0).Some? {
      SlotTaken(v, a, FirstFree(v, a, 0).value, SlotLease(run, item, InUse, until, v.clock));
    }
  }

  /** If no slot at or above the limit was ever used, counting decides: a request is put off exactly when as many slots
      are held as the limit allows. */
  lemma AcquireCounts(v: Vault, a: Account, run: string, item: Option<string>, until: int)
    requires Bounded(v, a, if Limit(v, a) > 0 then Limit(v, a) else 0)
    ensures Step(v, Acquire(a, run, item, until)).1 == Deferred <==> |HeldSlots(v, a)| >= Limit(v, a)
  {
    hide Step;
    AcquireIff(v, a, run, item, until);
    var n: nat := if Limit(v, a) > 0 then Limit(v, a) else 0;
    HeldBelow(v, a, n);
    SubsetSize(HeldSlots(v, a), Below(n));
    InHeld(v, a);
    assert (forall k :: 0 <= k < Limit(v, a) ==> Held(v, a, k)) <==> HeldSlots(v, a) == Below(n);
  }

  /** Two slots are taken, the first is released and the limit lowered to one. */
  function Lowering(a: Account): seq<Op> {
    [SetLimit(a, 2), Acquire(a, "r", None, 5), Acquire(a, "r'", None, 5), Release(a, 0), SetLimit(a, 1)]
  }

  /** Then counting does not decide: as many slots are held as the limit allows, and yet a slot is given out. */
  lemma LoweredLimit(a: Account)
    ensures var v := After(Vault(0, 1, map[], map[]), Lowering(a));
            |HeldSlots(v, a)| == Limit(v, a) && Step(v, Acquire(a, "r''", None, 5)).1 == Acquired(0)
  {
    hide HeldSlots, After;
    var v0 := Vault(0, 1, map[], map[]);
    var ops := Lowering(a);
    AfterFive(v0, ops);
    var v1 := Step(v0, ops[0]).0;
    assert v1 == Vault(0, 1, map[a := 2], map[]) && FirstFree(v1, a, 0) == Some(0);
    var v2 := Step(v1, ops[1]).0;
    assert Held(v2, a, 0) && FirstFree(v2, a, 1) == Some(1) && FirstFree(v2, a, 0) == Some(1);
    var v3 := Step(v2, ops[2]).0;
    var v4 := Step(v3, ops[3]).0;
    var v := Step(v4, ops[4]).0;
    assert v4.slots.Keys == {SlotKey(a, 0), SlotKey(a, 1)} && v.slots == v4.slots;
    assert Held(v, a, 1) && !Held(v, a, 0);
    InHeld(v, a);
    var held := HeldSlots(v, a);
    assert 1 in held;
    forall k | k in held
      ensures k == 1
    {
      assert Held(v, a, k) && SlotKey(a, k) in v4.slots.Keys;
    }
    assert held == {1};
  }

  lemma AfterFive(v: Vault, ops: seq<Op>)
    requires |ops| == 5
    ensures After(v, ops) == Step(Step(Step(Step(Step(v, ops[0]).0, ops[1]).0, ops[2]).0, ops[3]).0, ops[4]).0
  {
    hide Step, After;
    AfterSnoc(v, ops, 0);
    AfterSnoc(v, ops, 1);
    AfterSnoc(v, ops, 2);
    AfterSnoc(v, ops, 3);
    AfterSnoc(v, ops, 4);
    assert ops[..5] == ops && ops[..0] == [];
    AfterNothing(v);
  }

  lemma AfterNothing(v: Vault)
    ensures After(v, []) == v
  {
  }

  lemma AfterSnoc(v: Vault, ops: seq<Op>, k: nat)
    requires k < |ops|
    ensures After(v, ops[..k + 1]) == Step(After(v, ops[..k]), ops[k]).0
  {
    assert ops[..k + 1][..k] == ops[..k];
  }

  lemma SlotTaken(v: Vault, a: Account, slot: nat, l: SlotLease)
    requires !Held(v, a, slot) && l.status == InUse
    ensures var w := v.(slots := v.slots[SlotKey(a, slot) := l]);
            HeldSlots(w, a) == HeldSlots(v, a) + if v.clock <= l.lockedUntil then {slot} else {}
  {
    var w := v.(slots := v.slots[SlotKey(a, slot) := l]);
    InHeld(v, a);
    InHeld(w, a);
    assert forall k :: k != slot ==> (Held(w, a, k) <==> Held(v, a, k));
  }

  lemma InHeld(v: Vault, a: Account)
    ensures forall k :: k in HeldSlots(v, a) <==> Held(v, a, k)
  {
    forall k | Held(v, a, k)
      ensures k in HeldSlots(v, a)
    {
      assert SlotKey(a, k) in v.slots;
    }
  }

  lemma FreeSlot(v: Vault, a: Account)
    ensures var r := FirstFree(v, a, 0);
            && (r.Some? ==> 0 <= r.value < Limit(v, a) && !Held(v, a, r.value))
            && (r.Some? ==> forall k :: 0 <= k < r.value ==> Held(v, a, k))
            && (r.None? ==> forall k :: 0 <= k < Limit(v, a) ==> Held(v, a, k))
  {
  }

  // ----- a run keeps its slot -----

  /** The run is recorded in the slot, in use and not past its time until `t` at least. */
  predicate Keeps(v: Vault, a: Account, slot: int, run: string, t: int) {
    var k := SlotKey(a, slot);
    k in v.slots && v.slots[k].status == InUse && v.slots[k].run == run && t <= v.slots[k].lockedUntil
  }

  /** Anyone's release takes the slot away; so do the run's own shorter renewal and a sweep past the slot's time. */
  predicate Takes(v: Vault, op: Op, a: Account, slot: int, run: string, t: int) {
    match op
    case Release(a', slot') => a' == a && slot' == slot
    case Renew(a', slot', run', until) => a' == a && slot' == slot && run' == run && until < t
    case Sweep(now) => SlotKey(a, slot) in v.slots && v.slots[SlotKey(a, slot)].lockedUntil < now
    case _ => false
  }

  /** Until `t`, a run keeps its slot over a step exactly when the step is not one of those. */
  lemma SlotKeptIff(v: Vault, op: Op, a: Account, slot: int, run: string, t: int)
    requires Keeps(v, a, slot, run, t) && v.clock <= t
    ensures Keeps(Step(v, op).0, a, slot, run, t) <==> !Takes(v, op, a, slot, run, t)
  {
    hide FirstFree;
    if op.Acquire? {
      FreeSlot(v, op.account);
      assert Held(v, a, slot);
    }
  }

  predicate Untaken(v: Vault, ops: seq<Op>, a: Account, slot: int, run: string, t: int)
    decreases |ops|
  {
    ops != [] ==>
      && Untaken(v, ops[..|ops| - 1], a, slot, run, t)
      && !Takes(After(v, ops[..|ops| - 1]), ops[|ops| - 1], a, slot, run, t)
  }

  /** Over a whole run of the store in which the clock does not go back: the slot is kept, so its run can still renew
      it, no other run can, and nobody is given it. */
  lemma {:induction false} SlotIsKept(v: Vault, ops: seq<Op>, a: Account, slot: int, run: string, t: int, other: string,
      until: int)
    requires Keeps(v, a, slot, run, t) && Untaken(v, ops, a, slot, run, t) && After(v, ops).clock <= t
    requires forall i :: 0 <= i < |ops| && ops[i].Tick? ==> ops[i].ms >= 0
    ensures var w := After(v, ops);
            && Keeps(w, a, slot, run, t)
            && (Step(w, Renew(a, slot, other, until)).1 == Renewed(until) <==> other == run)
            && forall r, i, u :: Step(w, Acquire(a, r, i, u)).1 != Acquired(slot)
    decreases |ops|
  {
    hide FirstFree, Takes;
    if ops != [] {
      var w := After(v, ops[..|ops| - 1]);
      assert w.clock <= After(v, ops).clock by { ClockStep(w, ops[|ops| - 1]); }
      SlotIsKept(v, ops[..|ops| - 1], a, slot, run, t, other, until);
      SlotKeptIff(w, ops[|ops| - 1], a, slot, run, t);
    }
    FreeSlot(After(v, ops), a);
  }

  lemma ClockStep(v: Vault, op: Op)
    ensures Step(v, op).0.clock == v.clock + if op.Tick? then op.ms else 0
  {
  }
}
