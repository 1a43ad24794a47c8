/** Browser leases on a clock: exclusive, renewable by their owner, drained or swept (runtime/fake-store.ts
    `acquireBrowser`, `renewBrowser`, `drainBrowser`, `sweepExpired`). */
module BrowserLeases {
  import opened IrelSyntax

  /** What a lease is for: one browser identity on one site of one tenant. */
  datatype Seat = Seat(tenant: string, site: string, identity: string)

  datatype LeaseState = Reserved | Active | Draining | Lapsed

  datatype Lease = Lease(
    id: nat, seat: Seat, run: string, owner: string, state: LeaseState, heartbeatAt: int, expiresAt: int)

  /** The leases in the order they were granted, with the clock and the next fresh id. */
  datatype Pool = Pool(clock: int, next: nat, leases: seq<Lease>)

  /** The lease operations; `Skip` stands for the rest of the store taking ids from the same counter. */
  datatype Op =
    | Acquire(seat: Seat, run: string, worker: string, ttl: int)
    | Renew(tenant: string, id: nat, worker: string, ttl: int)
    | Drain(tenant: string, id: nat, worker: string, sweeper: bool)
    | Sweep(now: int)
    | Tick(ms: int)
    | Skip(ids: nat)

  datatype Answer = Acquired(lease: Lease) | Deferred(retryAfter: int) | Renewed(expiresAt: int) | Lost | Done

  predicate Live(l: Lease) { l.state == Reserved || l.state == Active }

  predicate Expired(l: Lease, clock: int) { l.expiresAt < clock }

  /** Where the first live lease of a seat is. */
  function FindLive(leases: seq<Lease>, seat: Seat): (r: Option<nat>)
    ensures r.Some? ==> r.value < |leases| && leases[r.value].seat == seat && Live(leases[r.value])
    ensures r.None? ==> forall i :: 0 <= i < |leases| ==> leases[i].seat != seat || !Live(leases[i])
  {
    if leases == [] then None
    else if leases[0].seat == seat && Live(leases[0]) then Some(0)
    else match FindLive(leases[1..], seat) case None => None case Some(i) => Some(i + 1)
  }

  /** Where a lease is. */
  function FindId(leases: seq<Lease>, id: nat): (r: Option<nat>)
    ensures r.Some? ==> r.value < |leases| && leases[r.value].id == id
    ensures r.None? ==> forall i :: 0 <= i < |leases| ==> leases[i].id != id
  {
    if leases == [] then None
    else if leases[0].id == id then Some(0)
    else match FindId(leases[1..], id) case None => None case Some(i) => Some(i + 1)
  }

  function AcquireStep(p: Pool, seat: Seat, run: string, worker: string, ttl: int): (Pool, Answer) {
    var found := FindLive(p.leases, seat);
    if found.Some? && !Expired(p.leases[found.value], p.clock) then
      var left := p.leases[found.value].expiresAt - p.clock;
      (p, Deferred(if left >= 0 then left else 0))
    else
      var cleared := if found.Some? then p.leases[found.value := p.leases[found.value].(state := Lapsed)] else p.leases;
      var lease := Lease(p.next, seat, run, worker, Active, p.clock, p.clock + ttl);
      (Pool(p.clock, p.next + 1, cleared + [lease]), Acquired(lease))
  }

  /** May this worker renew the lease now? */
  predicate Renewable(l: Lease, tenant: string, worker: string, clock: int) {
    l.seat.tenant == tenant && l.owner == worker && Live(l) && !Expired(l, clock)
  }

  function RenewStep(p: Pool, tenant: string, id: nat, worker: string, ttl: int): (Pool, Answer) {
    match FindId(p.leases, id)
    case Some(i) =>
      if Renewable(p.leases[i], tenant, worker, p.clock) then
        var l := p.leases[i].(state := Active, heartbeatAt := p.clock, expiresAt := p.clock + ttl);
        (p.(leases := p.leases[i := l]), Renewed(l.expiresAt))
      else (p, Lost)
    case None => (p, Lost)
  }

  function DrainStep(p: Pool, tenant: string, id: nat, worker: string, sweeper: bool): Pool {
    match FindId(p.leases, id)
    case Some(i) =>
      var l := p.leases[i];
      if l.seat.tenant == tenant && l.owner == worker
      then p.(leases := p.leases[i := l.(state := if sweeper then Lapsed else Draining, expiresAt := p.clock)])
      else p
    case None => p
  }

  predicate Overdue(l: Lease, now: int) { Live(l) && l.expiresAt < now }

  function SweepLease(l: Lease, now: int): Lease {
    if Overdue(l, now) then l.(state := Lapsed) else l
  }

  function SweepAll(leases: seq<Lease>, now: int): (r: seq<Lease>)
    ensures |r| == |leases| && forall i :: 0 <= i < |leases| ==> r[i] == SweepLease(leases[i], now)
  {
    seq(|leases|, i requires 0 <= i < |leases| => SweepLease(leases[i], now))
  }

  function Step(p: Pool, op: Op): (Pool, Answer) {
    match op
    case Acquire(seat, run, worker, ttl) => AcquireStep(p, seat, run, worker, ttl)
    case Renew(tenant, id, worker, ttl) => RenewStep(p, tenant, id, worker, ttl)
    case Drain(tenant, id, worker, sweeper) => (DrainStep(p, tenant, id, worker, sweeper), Done)
    case Sweep(now) => (p.(leases := SweepAll(p.leases, now)), Done)
    case Tick(ms) => (p.(clock := p.clock + ms), Done)
    case Skip(ids) => (p.(next := p.next + ids), Done)
  }

  function After(p: Pool, ops: seq<Op>): Pool
    decreases |ops|
  {
    if ops == [] then p else Step(After(p, ops[..|ops| - 1]), ops[|ops| - 1]).0
  }

  // ----- at most one live lease per seat -----

  predicate Ids(p: Pool) {
    && (forall i :: 0 <= i < |p.leases| ==> p.leases[i].id < p.next)
    && (forall i, j :: 0 <= i < j < |p.leases| ==> p.leases[i].id < p.leases[j].id)
  }

  predicate OneLive(p: Pool) {
    forall i, j :: 0 <= i < j < |p.leases| && Live(p.leases[i]) && Live(p.leases[j]) ==>
          p.leases[i].seat != p.leases[j].seat
  }

  predicate Inv(p: Pool) { Ids(p) && OneLive(p) }

  lemma StepKeeps(p: Pool, op: Op)
    requires Inv(p)
    ensures Inv(Step(p, op).0)
  {
    hide FindId, FindLive;
    match op
    case Acquire(seat, run, worker, ttl) => AcquireKeeps(p, seat, run, worker, ttl);
    case Renew(tenant, id, worker, ttl) => IdFound(p.leases, id);
    case Drain(tenant, id, worker, sweeper) => IdFound(p.leases, id);
    case _ =>
  }

  lemma IdFound(leases: seq<Lease>, id: nat)
    ensures var r := FindId(leases, id); r.Some? ==> r.value < |leases| && leases[r.value].id == id
  {
  }

  /** After an expired lease is cleared, nobody else on the seat is live. */
  lemma AcquireKeeps(p: Pool, seat: Seat, run: string, worker: string, ttl: int)
    requires Inv(p)
    ensures Inv(AcquireStep(p, seat, run, worker, ttl).0)
  {
    var found := FindLive(p.leases, seat);
    if found.Some? {
      assert forall i :: 0 <= i < |p.leases| && i != found.value && p.leases[i].seat == seat ==> !Live(p.leases[i]);
    }
  }

  /** At most one live lease per tenant, site and identity, in every run. */
  lemma {:induction false} OneLivePerSeat(p: Pool, ops: seq<Op>)
    requires Inv(p)
    ensures Inv(After(p, ops))
    decreases |ops|
  {
    hide Inv, Step;
    if ops != [] {
      OneLivePerSeat(p, ops[..|ops| - 1]);
      StepKeeps(After(p, ops[..|ops| - 1]), ops[|ops| - 1]);
    }
  }

  // ----- a lease holds its seat until it expires -----

  /** The lease `id` is live, on this seat with this owner, and does not expire before `t`. */
  predicate Holds(p: Pool, id: nat, seat: Seat, owner: string, t: int) {
    exists i :: 0 <= i < |p.leases| && HoldsAt(p.leases[i], id, seat, owner, t)
  }

  predicate HoldsAt(l: Lease, id: nat, seat: Seat, owner: string, t: int) {
    l.id == id && l.seat == seat && l.owner == owner && Live(l) && t <= l.expiresAt
  }

  /** What ends a hold: its owner drains the lease or renews it for less, or a sweep with a time past its expiry. */
  predicate Disturbs(p: Pool, op: Op, id: nat, seat: Seat, owner: string, t: int) {
    match op
    case Drain(tenant, id', worker, _) => id' == id && tenant == seat.tenant && worker == owner
    case Renew(tenant, id', worker, ttl) => id' == id && tenant == seat.tenant && worker == owner && p.clock + ttl < t
    case Sweep(now) => exists i :: 0 <= i < |p.leases| && p.leases[i].id == id && p.leases[i].expiresAt < now
    case _ => false
  }

  /** While the clock has not passed `t`, a hold survives a step exactly when the step does not disturb it. */
  lemma HoldKeptIff(p: Pool, op: Op, id: nat, seat: Seat, owner: string, t: int)
    requires Inv(p) && Holds(p, id, seat, owner, t) && p.clock <= t
    ensures Holds(Step(p, op).0, id, seat, owner, t) <==> !Disturbs(p, op, id, seat, owner, t)
  {
    hide FindLive, FindId, Inv, RenewStep, DrainStep, AcquireStep;
    var i :| 0 <= i < |p.leases| && HoldsAt(p.leases[i], id, seat, owner, t);
    var q := Step(p, op).0;
    match op
    case Acquire(seat', run, worker, ttl) => HoldAcquire(p, i, op, t);
    case Renew(_, _, _, _) => HoldRenew(p, i, op, t);
    case Drain(_, _, _, _) => HoldDrain(p, i, op, t);
    case Sweep(now) => HoldSweep(p, i, op, t);
    case Tick(_) => assert HoldsAt(q.leases[i], id, seat, owner, t);
    case Skip(_) => assert HoldsAt(q.leases[i], id, seat, owner, t);
  }

  lemma HoldAcquire(p: Pool, i: nat, op: Op, t: int)
    requires Inv(p) && i < |p.leases| && Live(p.leases[i]) && p.clock <= t <= p.leases[i].expiresAt && op.Acquire?
    ensures var l := p.leases[i]; Holds(Step(p, op).0, l.id, l.seat, l.owner, t)
  {
    hide FindLive;
    LiveElsewhere(p, i, op.seat);
    var l := p.leases[i];
    assert HoldsAt(Step(p, op).0.leases[i], l.id, l.seat, l.owner, t);
  }

  lemma HoldRenew(p: Pool, i: nat, op: Op, t: int)
    requires Inv(p) && i < |p.leases| && Live(p.leases[i]) && p.clock <= t <= p.leases[i].expiresAt && op.Renew?
    ensures var l := p.leases[i];
            Holds(Step(p, op).0, l.id, l.seat, l.owner, t) <==> !Disturbs(p, op, l.id, l.seat, l.owner, t)
  {
    hide FindId;
    var l := p.leases[i];
    IdFound(p.leases, op.id);
    IdAt(p, i);
    OnlyAt(p, Step(p, op).0, i, l.id, l.seat, l.owner, t);
  }

  lemma HoldDrain(p: Pool, i: nat, op: Op, t: int)
    requires Inv(p) && i < |p.leases| && Live(p.leases[i]) && p.clock <= t <= p.leases[i].expiresAt && op.Drain?
    ensures var l := p.leases[i];
            Holds(Step(p, op).0, l.id, l.seat, l.owner, t) <==> !Disturbs(p, op, l.id, l.seat, l.owner, t)
  {
    hide FindId;
    var l := p.leases[i];
    IdFound(p.leases, op.id);
    IdAt(p, i);
    OnlyAt(p, Step(p, op).0, i, l.id, l.seat, l.owner, t);
  }

  lemma HoldSweep(p: Pool, i: nat, op: Op, t: int)
    requires Inv(p) && i < |p.leases| && Live(p.leases[i]) && p.clock <= t <= p.leases[i].expiresAt && op.Sweep?
    ensures var l := p.leases[i];
            Holds(Step(p, op).0, l.id, l.seat, l.owner, t) <==> !Disturbs(p, op, l.id, l.seat, l.owner, t)
  {
    var l := p.leases[i];
    OnlyAt(p, Step(p, op).0, i, l.id, l.seat, l.owner, t);
  }

  lemma IdAt(p: Pool, i: nat)
    requires Ids(p) && i < |p.leases|
    ensures FindId(p.leases, p.leases[i].id) == Some(i)
  {
  }

  /** An unexpired lease is not the one an acquisition clears. */
  lemma LiveElsewhere(p: Pool, i: nat, seat: Seat)
    requires Inv(p) && i < |p.leases| && Live(p.leases[i]) && !Expired(p.leases[i], p.clock)
    ensures var found := FindLive(p.leases, seat);
            found.Some? ==>
              && found.value < |p.leases|
              && (found.value == i || p.leases[found.value].seat != p.leases[i].seat)
    ensures p.leases[i].seat == seat ==> FindLive(p.leases, seat) == Some(i)
  {
  }

  /** When ids stay put, the hold is decided at its own position. */
  lemma OnlyAt(p: Pool, q: Pool, i: nat, id: nat, seat: Seat, owner: string, t: int)
    requires Ids(p) && i < |p.leases| == |q.leases| && p.leases[i].id == id
    requires forall j :: 0 <= j < |p.leases| ==> q.leases[j].id == p.leases[j].id
    ensures Holds(q, id, seat, owner, t) <==> HoldsAt(q.leases[i], id, seat, owner, t)
  {
  }

  /** A grant: what was acquired or renewed until `t` is held until `t`. */
  lemma GrantHolds(p: Pool, op: Op)
    requires Inv(p)
    ensures var (q, a) := Step(p, op);
            && (a.Acquired? ==> op.Acquire? && Holds(q, a.lease.id, op.seat, op.worker, p.clock + op.ttl))
            && (a.Renewed? ==>
                 && op.Renew? && a.expiresAt == p.clock + op.ttl
                 && exists seat: Seat :: seat.tenant == op.tenant && Holds(q, op.id, seat, op.worker, a.expiresAt))
  {
    var (q, a) := Step(p, op);
    if a.Acquired? {
      assert HoldsAt(q.leases[|q.leases| - 1], a.lease.id, op.seat, op.worker, p.clock + op.ttl);
    }
    if a.Renewed? {
      var i := FindId(p.leases, op.id).value;
      assert HoldsAt(q.leases[i], op.id, p.leases[i].seat, op.worker, a.expiresAt);
    }
  }

  /** The clock never goes back. */
  predicate Forward(ops: seq<Op>) {
    forall i :: 0 <= i < |ops| && ops[i].Tick? ==> ops[i].ms >= 0
  }

  predicate Undisturbed(p: Pool, ops: seq<Op>, id: nat, seat: Seat, owner: string, t: int)
    decreases |ops|
  {
    ops != [] ==>
      && Undisturbed(p, ops[..|ops| - 1], id, seat, owner, t)
      && !Disturbs(After(p, ops[..|ops| - 1]), ops[|ops| - 1], id, seat, owner, t)
  }

  lemma {:induction false} HoldLasts(p: Pool, ops: seq<Op>, id: nat, seat: Seat, owner: string, t: int)
    requires Inv(p) && Holds(p, id, seat, owner, t) && Forward(ops) && After(p, ops).clock <= t
    requires Undisturbed(p, ops, id, seat, owner, t)
    ensures Inv(After(p, ops)) && Holds(After(p, ops), id, seat, owner, t)
    decreases |ops|
  {
    hide Inv, Holds, Disturbs;
    if ops != [] {
      var init := ops[..|ops| - 1];
      var q := After(p, init);
      assert q.clock <= After(p, ops).clock by { ClockStep(q, ops[|ops| - 1]); }
      HoldLasts(p, init, id, seat, owner, t);
      StepKeeps(q, ops[|ops| - 1]);
      HoldKeptIff(q, ops[|ops| - 1], id, seat, owner, t);
    }
  }

  lemma ClockStep(p: Pool, op: Op)
    ensures Step(p, op).0.clock == p.clock + if op.Tick? then op.ms else 0
  {
  }

  /** Exclusion over time: after a grant until `t`, as long as its owner neither drains nor shortens it and no sweep
      runs ahead of it, every acquisition of the seat at or before `t` is put off. */
  lemma SeatIsHeld(p: Pool, ops: seq<Op>, id: nat, seat: Seat, owner: string, t: int, run: string, worker: string,
      ttl: int)
    requires Inv(p) && Holds(p, id, seat, owner, t) && Forward(ops) && After(p, ops).clock <= t
    requires Undisturbed(p, ops, id, seat, owner, t)
    ensures var q := After(p, ops);
            var (next, a) := Step(q, Acquire(seat, run, worker, ttl));
            next == q && a.Deferred? && a.retryAfter >= t - q.clock
  {
    hide After, Undisturbed, FindLive;
    HoldLasts(p, ops, id, seat, owner, t);
    var q := After(p, ops);
    var i :| 0 <= i < |q.leases| && HoldsAt(q.leases[i], id, seat, owner, t);
    LiveElsewhere(q, i, seat);
  }

  /** The owner may renew for less: then another worker gets the seat before the time first granted. */
  lemma RenewalShortens()
    ensures var seat := Seat("t", "s", "b");
            var p := After(Pool(0, 1, []), [Acquire(seat, "r", "w", 100), Renew("t", 1, "w", 0), Tick(1)]);
            p.clock <= 100 && Step(p, Acquire(seat, "r2", "w2", 1)).1.Acquired?
  {
    var seat := Seat("t", "s", "b");
    var ops := [Acquire(seat, "r", "w", 100), Renew("t", 1, "w", 0), Tick(1)];
    assert ops[..2][..1] == ops[..1] && ops[..1][..0] == [];
    var p0 := Pool(0, 1, []);
    var p1, p2 := Pool(0, 2, [Lease(1, seat, "r", "w", Active, 0, 100)]),
        Pool(0, 2, [Lease(1, seat, "r", "w", Active, 0, 0)]);
    assert Step(p0, ops[0]).0 == p1;
    assert Step(p1, ops[1]).0 == p2;
    assert After(p0, ops[..1]) == p1;
    assert After(p0, ops[..2]) == p2;
  }

  // ----- what is lost stays lost -----

  /** The lease was granted, and has expired or left the live states. */
  predicate Gone(p: Pool, id: nat) {
    id < p.next && forall i :: 0 <= i < |p.leases| && p.leases[i].id == id ==>
          !Live(p.leases[i]) || Expired(p.leases[i], p.clock)
  }

  lemma GoneStep(p: Pool, op: Op, id: nat)
    requires Inv(p) && Gone(p, id) && (op.Tick? ==> op.ms >= 0)
    ensures Gone(Step(p, op).0, id)
    ensures op.Renew? && op.id == id ==> Step(p, op) == (p, Lost)
  {
    hide FindLive, FindId;
    match op
    case Acquire(seat, _, _, _) => SeatFound(p.leases, seat);
    case Renew(_, id', _, _) => IdFound(p.leases, id');
    case Drain(_, id', _, _) => IdFound(p.leases, id');
    case _ =>
  }

  lemma SeatFound(leases: seq<Lease>, seat: Seat)
    ensures var r := FindLive(leases, seat); r.Some? ==> r.value < |leases|
  {
  }

  /** A lease that expired or left the live states is never renewed again, by anyone. */
  lemma {:induction false} LostForever(p: Pool, ops: seq<Op>, id: nat, tenant: string, worker: string, ttl: int)
    requires Inv(p) && Gone(p, id) && Forward(ops)
    ensures Inv(After(p, ops)) && Gone(After(p, ops), id)
    ensures Step(After(p, ops), Renew(tenant, id, worker, ttl)).1 == Lost
    decreases |ops|
  {
    hide Inv, Gone, Step;
    if ops != [] {
      LostForever(p, ops[..|ops| - 1], id, tenant, worker, ttl);
      StepKeeps(After(p, ops[..|ops| - 1]), ops[|ops| - 1]);
      GoneStep(After(p, ops[..|ops| - 1]), ops[|ops| - 1], id);
    }
    GoneStep(After(p, ops), Renew(tenant, id, worker, ttl), id);
  }
}
