/** What a stored browser lease says about its own past: over any run its fields are those of the grant it came from and
    of the last thing that happened to it. And what being put off means. */
module LeaseHistories {
  import opened IrelSyntax
  import opened BrowserLeases

  /** What can happen to a lease: it is granted, renewed, drained by its owner, or ended by a sweep or by the next
      acquisition of its seat. */
  datatype Mark =
    | Grant(seat: Seat, run: string, owner: string, ttl: int)
    | Beat(ttl: int)
    | Leave(sweeper: bool)
    | End

  datatype Entry = Entry(mark: Mark, at: int)

  /** What a step does to the lease at a position. */
  function MarkOf(p: Pool, op: Op, i: nat): Option<Mark> {
    match op
    case Acquire(seat, run, worker, ttl) =>
      if !Step(p, op).1.Acquired? then None
      else if i == |p.leases| then Some(Grant(seat, run, worker, ttl))
      else if i < |p.leases| && Live(p.leases[i]) && p.leases[i].seat == seat then Some(End)
      else None
    case Renew(_, id, _, ttl) =>
      if i < |p.leases| && p.leases[i].id == id && Step(p, op).1.Renewed? then Some(Beat(ttl)) else None
    case Drain(tenant, id, worker, sweeper) =>
      if i < |p.leases| && p.leases[i].id == id && p.leases[i].seat.tenant == tenant && p.leases[i].owner == worker
      then Some(Leave(sweeper)) else None
    case Sweep(now) => if i < |p.leases| && Live(p.leases[i]) && p.leases[i].expiresAt < now then Some(End) else None
    case _ => None
  }

  /** Everything that happened to the lease at a position, with the clock. */
  function Story(p: Pool, ops: seq<Op>, i: nat): seq<Entry>
    decreases |ops|
  {
    if ops == [] then []
    else
      var before := After(p, ops[..|ops| - 1]);
      Story(p, ops[..|ops| - 1], i)
      + match MarkOf(before, ops[|ops| - 1], i) case None => [] case Some(m) => [Entry(m, before.clock)]
  }

  // ----- the fields -----

  predicate Begins(m: Mark) { m.Grant? || m.Beat? }

  /** The entry is the last of its kind that counts for the expiry. */
  predicate LastBeat(story: seq<Entry>, k: nat) {
    k < |story| && Begins(story[k].mark) && forall j :: k < j < |story| ==> !Begins(story[j].mark)
  }

  predicate LastLeave(story: seq<Entry>, k: nat) {
    k < |story| && story[k].mark.Leave?
    && forall j :: k < j < |story| ==> !story[j].mark.Leave? && !Begins(story[j].mark)
  }

  function StateAfter(m: Mark): LeaseState {
    match m
    case Leave(sweeper) => if sweeper then Lapsed else Draining
    case End => Lapsed
    case _ => Active
  }

  /** The lease tells its story: whose it is comes from its grant, its heartbeat from the last grant or renewal, its
      expiry from that or from a drain since, its state from the last entry. */
  ghost predicate Tells(l: Lease, story: seq<Entry>) {
    && story != [] && story[0].mark.Grant? && (forall k :: 0 < k < |story| ==> !story[k].mark.Grant?)
    && l.seat == story[0].mark.seat && l.run == story[0].mark.run && l.owner == story[0].mark.owner
    && (exists k: nat :: LastBeat(story, k))
    && (forall k: nat :: LastBeat(story, k) ==> l.heartbeatAt == story[k].at)
    && (forall k: nat :: LastBeat(story, k) && (forall j: nat :: !LastLeave(story, j)) ==>
          l.expiresAt == story[k].at + story[k].mark.ttl)
    && (forall k: nat :: LastLeave(story, k) ==> l.expiresAt == story[k].at)
    && l.state == StateAfter(story[|story| - 1].mark)
  }

  /** What a mark makes of a lease. */
  function Marked(l: Lease, m: Mark, clock: int): Lease {
    match m
    case Beat(ttl) => l.(state := Active, heartbeatAt := clock, expiresAt := clock + ttl)
    case Leave(sweeper) => l.(state := StateAfter(m), expiresAt := clock)
    case _ => l.(state := StateAfter(m))
  }

  lemma AcquireMarks(p: Pool, op: Op, i: nat)
    requires Inv(p) && op.Acquire? && i < |p.leases|
    ensures var q := Step(p, op).0;
            |q.leases| == |p.leases| + (if Step(p, op).1.Acquired? then 1 else 0)
            && q.leases[i] ==
                 match MarkOf(p, op, i) case None => p.leases[i] case Some(m) => Marked(p.leases[i], m, p.clock)
  {
    hide FindLive;
    SeatFound(p.leases, op.seat);
    LiveFound(p, op.seat, i);
  }

  lemma LiveFound(p: Pool, seat: Seat, i: nat)
    requires Inv(p) && i < |p.leases|
    ensures var r := FindLive(p.leases, seat);
            r == Some(i) <==> Live(p.leases[i]) && p.leases[i].seat == seat
  {
  }

  lemma OtherMarks(p: Pool, op: Op, i: nat)
    requires Inv(p) && !op.Acquire? && i < |p.leases|
    ensures var q := Step(p, op).0;
            |q.leases| == |p.leases|
            && q.leases[i] ==
                 match MarkOf(p, op, i) case None => p.leases[i] case Some(m) => Marked(p.leases[i], m, p.clock)
  {
    hide FindId;
    if op.Renew? || op.Drain? {
      IdFound(p.leases, op.id);
      IdAt(p, i);
    }
  }

  lemma MarkKinds(p: Pool, op: Op, i: nat)
    requires MarkOf(p, op, i).Some?
    ensures i < |p.leases| ==> !MarkOf(p, op, i).value.Grant?
    ensures i >= |p.leases| ==> i == |p.leases| && op.Acquire? && Step(p, op).1.Acquired?
                                && MarkOf(p, op, i).value == Grant(op.seat, op.run, op.worker, op.ttl)
  {
    hide AcquireStep, RenewStep;
  }

  lemma Granted(p: Pool, op: Op)
    requires op.Acquire? && Step(p, op).1.Acquired?
    ensures var q := Step(p, op).0;
            |q.leases| == |p.leases| + 1
            && q.leases[|p.leases|]
               == Lease(p.next, op.seat, op.run, op.worker, Active, p.clock, p.clock + op.ttl)
  {
  }

  lemma TellsGrant(l: Lease, m: Mark, clock: int)
    requires m.Grant? && l == Lease(l.id, m.seat, m.run, m.owner, Active, clock, clock + m.ttl)
    ensures Tells(l, [Entry(m, clock)])
  {
    assert LastBeat([Entry(m, clock)], 0);
  }

  lemma BeatSnoc(story: seq<Entry>, e: Entry, k: nat)
    ensures LastBeat(story + [e], k) <==> if k == |story| then Begins(e.mark) else LastBeat(story, k) && !Begins(e.mark)
    ensures LastLeave(story + [e], k) <==>
            if k == |story| then e.mark.Leave? else LastLeave(story, k) && !e.mark.Leave? && !Begins(e.mark)
  {
    var all := story + [e];
    assert k < |story| ==> all[k] == story[k];
    assert all[|story|] == e;
    if k < |story| && LastBeat(all, k) {
      forall j | k < j < |story| ensures !Begins(story[j].mark) { assert all[j] == story[j]; }
    }
    if k < |story| && LastLeave(all, k) {
      forall j | k < j < |story| ensures !story[j].mark.Leave? && !Begins(story[j].mark) { assert all[j] == story[j]; }
    }
  }

  lemma TellsSnoc(l: Lease, story: seq<Entry>, m: Mark, clock: int)
    requires Tells(l, story) && !m.Grant?
    ensures Tells(Marked(l, m, clock), story + [Entry(m, clock)])
  {
    hide LastBeat, LastLeave;
    var e := Entry(m, clock);
    var all := story + [e];
    forall k: nat
      ensures LastBeat(all, k) <==> if k == |story| then Begins(m) else LastBeat(story, k) && !Begins(m)
      ensures LastLeave(all, k) <==> if k == |story| then m.Leave? else LastLeave(story, k) && !m.Leave? && !Begins(m)
      ensures LastBeat(story, k) || LastLeave(story, k) ==> k < |story|
    {
      BeatSnoc(story, e, k);
      Bounded(story, k);
    }
    assert all[|story|] == e && forall k :: 0 <= k < |story| ==> all[k] == story[k];
    var b: nat :| LastBeat(story, b);
    if Begins(m) {
      assert LastBeat(all, |story|);
    } else {
      assert LastBeat(all, b);
      if m.Leave? {
        assert LastLeave(all, |story|);
      } else if j: nat :| LastLeave(story, j) {
        assert LastLeave(all, j);
      }
    }
  }

  lemma Bounded(story: seq<Entry>, k: nat)
    ensures LastBeat(story, k) || LastLeave(story, k) ==> k < |story|
  {
  }

  /** Over any run from an empty pool every lease tells its story, and every story has its lease. */
  lemma {:induction false} LeasesTell(p: Pool, ops: seq<Op>, i: nat)
    requires Inv(p) && p.leases == []
    ensures var q := After(p, ops); i < |q.leases| <==> Story(p, ops, i) != []
    ensures var q := After(p, ops); i < |q.leases| ==> Tells(q.leases[i], Story(p, ops, i))
    decreases |ops|
  {
    hide Step, Tells, MarkOf, Marked, Inv;
    if ops != [] {
      var init, op := ops[..|ops| - 1], ops[|ops| - 1];
      LeasesTell(p, init, i);
      OneLivePerSeat(p, init);
      var q := After(p, init);
      if i < |q.leases| {
        if op.Acquire? { AcquireMarks(q, op, i); } else { OtherMarks(q, op, i); }
        if MarkOf(q, op, i).Some? {
          MarkKinds(q, op, i);
          TellsSnoc(q.leases[i], Story(p, init, i), MarkOf(q, op, i).value, q.clock);
        } else {
          assert Story(p, ops, i) == Story(p, init, i);
        }
      } else {
        NewLease(q, op, i);
        if MarkOf(q, op, i).Some? {
          var e := Entry(MarkOf(q, op, i).value, q.clock);
          assert [] + [e] == [e];
          TellsGrant(Step(q, op).0.leases[i], e.mark, q.clock);
        }
      }
    }
  }

  lemma NewLease(p: Pool, op: Op, i: nat)
    requires Inv(p) && i >= |p.leases|
    ensures var q := Step(p, op).0;
            && (i < |q.leases| <==> MarkOf(p, op, i).Some?)
            && (i < |q.leases| ==>
                  var m := MarkOf(p, op, i).value;
                  m.Grant?
                  && q.leases[i] == Lease(q.leases[i].id, m.seat, m.run, m.owner, Active, p.clock, p.clock + m.ttl))
  {
    hide AcquireStep, RenewStep, DrainStep;
    if op.Acquire? {
      if Step(p, op).1.Acquired? { Granted(p, op); } else { PutOff(p, op); }
    } else {
      SameLength(p, op);
    }
  }

  lemma PutOff(p: Pool, op: Op)
    requires op.Acquire? && !Step(p, op).1.Acquired?
    ensures Step(p, op).0 == p
  {
  }

  lemma SameLength(p: Pool, op: Op)
    requires !op.Acquire?
    ensures |Step(p, op).0.leases| == |p.leases|
  {
    hide FindId;
    if op.Renew? || op.Drain? { IdFound(p.leases, op.id); }
  }

  // ----- being put off -----

  /** An acquisition that is put off by `k` is put off until the clock has advanced by `k` and granted right after, if
      nothing else happens. */
  lemma RetryAfter(p: Pool, seat: Seat, run: string, worker: string, ttl: int, ms: nat)
    requires AcquireStep(p, seat, run, worker, ttl).1.Deferred?
    ensures var k := AcquireStep(p, seat, run, worker, ttl).1.retryAfter;
            var a := AcquireStep(Step(p, Tick(ms)).0, seat, run, worker, ttl).1;
            k >= 0 && if ms <= k then a == Deferred(k - ms) else a.Acquired?
  {
  }
}
