/** Requests at the control plane (control-plane/fake-request-runner.ts `FakeControlPlaneRunner.inject`), from the
    reservation on, as a protocol in which any number of requests interleave at their awaited steps: reserve, If-Match,
    handler start and end, save. */
module RequestRunner {
  import opened IrelSyntax
  import opened Idempotency

  /** What the If-Match check of a request comes to before the versions are looked at. */
  datatype IfMatch =
    | NotNeeded
    | NoHeader(code: string)
    | Unresolvable
    | Expect(resource: Resource, version: int, conflict: string)

  /** A validated and authorized request. `keyed` says that its operation requires an idempotency key. */
  datatype Request = Request(
    tenant: string, operation: string, keyed: bool, key: Option<string>, hash: string, correlation: string,
    ifMatch: IfMatch)

  datatype How = Own | Replayed | Rejected

  /** Where a request is. `record` is the idempotency record it reserved, if any. */
  datatype Phase =
    | Arrived
    | Holding(record: Option<nat>)
    | Checked(record: Option<nat>)
    | Handling(record: Option<nat>)
    | Saving(record: Option<nat>, response: Response, failure: Option<ApiError>)
    | Finished(record: Option<nat>, how: How, response: Response)
    | Crashed(record: Option<nat>)

  datatype Outcome = Answered(response: Response) | Refused(code: string, details: string) | Threw

  /** The stores, every request's phase, and two logs: whose handler was started, and which versions were matched. */
  datatype State = State(
    records: Records, versions: map<Resource, int>, phases: seq<Phase>, ran: seq<nat>, matched: seq<(Resource, int)>)

  datatype Action =
    | Reserve(i: nat)
    | MatchVersion(i: nat)
    | StartHandler(i: nat)
    | EndHandler(i: nat, outcome: Outcome)
    | Save(i: nat)

  function SlotOf(r: Request): Slot {
    Slot(r.tenant, r.operation, if r.key.Some? then r.key.value else "")
  }

  function Error(catalog: Catalog, r: Request, code: string, details: string): Response {
    ErrorResponse(catalog, ApiError(code, r.correlation, details))
  }

  /** A failure is saved first when the request holds a record. */
  function Failing(catalog: Catalog, r: Request, record: Option<nat>, code: string, details: string): Phase {
    var error := ApiError(code, r.correlation, details);
    if record.Some? then Saving(record, ErrorResponse(catalog, error), Some(error))
    else Finished(None, Own, ErrorResponse(catalog, error))
  }

  const KEY_MISSING := "IR_SCHEMA_INVALID"
  const HASH_DIFFERS := "SCENARIO_VERSION_CONFLICT"
  const IN_FLIGHT := "WORKITEM_CHECKOUT_CONFLICT"

  function AfterReserve(catalog: Catalog, r: Request, answer: Reservation): Phase {
    match answer
    case Reserved(id) => Holding(Some(id))
    case Blocked => Finished(None, Rejected, Error(catalog, r, HASH_DIFFERS, "idempotency_request_hash_mismatch"))
    case InFlight(_) => Finished(None, Rejected, Error(catalog, r, IN_FLIGHT, "idempotency_in_flight"))
    case Replay(response) => Finished(None, Replayed, response)
  }

  function ReservePhase(catalog: Catalog, r: Request, s: Records): (Records, Phase) {
    if !r.keyed then (s, Holding(None))
    else if r.key == None || r.key == Some("")
    then (s, Finished(None, Rejected, Error(catalog, r, KEY_MISSING, "missing_idempotency_key")))
    else
      var (next, answer) := ReserveStep(s, SlotOf(r), r.hash);
      (next, AfterReserve(catalog, r, answer))
  }

  /** The If-Match check of a request that has passed its reservation. An id that cannot be read off the request is
      thrown past the code that would save it. */
  function MatchPhase(catalog: Catalog, r: Request, versions: map<Resource, int>, record: Option<nat>)
    : (map<Resource, int>, Phase)
  {
    match r.ifMatch
    case NotNeeded => (versions, Checked(record))
    case NoHeader(code) => (versions, Failing(catalog, r, record, code, "missing_if_match"))
    case Unresolvable => (versions, Crashed(record))
    case Expect(resource, version, conflict) =>
      var (next, decision) := CheckStep(versions, resource, version);
      if decision.Match? then (next, Checked(record))
      else (versions, Failing(catalog, r, record, conflict, "version_conflict"))
  }

  function AfterHandler(catalog: Catalog, r: Request, record: Option<nat>, outcome: Outcome): Phase {
    match outcome
    case Answered(response) => if record.Some? then Saving(record, response, None) else Finished(None, Own, response)
    case Refused(code, details) => Failing(catalog, r, record, code, details)
    case Threw => Crashed(record)
  }

  function Saved(catalog: Catalog, rows: map<Slot, Record>, id: nat, response: Response, failure: Option<ApiError>)
    : map<Slot, Record>
  {
    if failure.Some? then WithFailure(catalog, rows, id, failure.value) else WithResult(rows, id, response)
  }

  /** One step; a step that is not due changes nothing. */
  function Next(catalog: Catalog, reqs: seq<Request>, s: State, a: Action): State
    requires |s.phases| == |reqs|
  {
    if a.i >= |reqs| then s
    else
      var r, p := reqs[a.i], s.phases[a.i];
      match a
      case Reserve(i) =>
        if p != Arrived then s
        else
          var (records, phase) := ReservePhase(catalog, r, s.records);
          s.(records := records, phases := s.phases[i := phase])
      case MatchVersion(i) =>
        if !p.Holding? then s
        else
          var (versions, phase) := MatchPhase(catalog, r, s.versions, p.record);
          var log := if phase.Checked? && r.ifMatch.Expect?
              then s.matched + [(r.ifMatch.resource, r.ifMatch.version)] else s.matched;
          s.(versions := versions, phases := s.phases[i := phase], matched := log)
      case StartHandler(i) =>
        if !p.Checked? then s else s.(phases := s.phases[i := Handling(p.record)], ran := s.ran + [i])
      case EndHandler(i, outcome) =>
        if !p.Handling? then s else s.(phases := s.phases[i := AfterHandler(catalog, r, p.record, outcome)])
      case Save(i) =>
        if !p.Saving? || p.record.None? then s
        else
          s.(records := s.records.(rows := Saved(catalog, s.records.rows, p.record.value, p.response, p.failure)),
             phases := s.phases[i := Finished(p.record, Own, p.response)])
  }

  function Start(reqs: seq<Request>): State {
    State(Records(map[], 0), map[], seq(|reqs|, _ => Arrived), [], [])
  }

  function After(catalog: Catalog, reqs: seq<Request>, actions: seq<Action>): (s: State)
    ensures |s.phases| == |reqs|
    decreases |actions|
  {
    if actions == [] then Start(reqs)
    else Next(catalog, reqs, After(catalog, reqs, actions[..|actions| - 1]), actions[|actions| - 1])
  }

  // ----- the invariant -----

  /** The record a request holds. */
  function Held(p: Phase): Option<nat> {
    if p.Arrived? then None else p.record
  }

  /** Past the reservation on its own account: a keyed request holds a record exactly then. */
  predicate OnItsOwn(p: Phase) {
    !p.Arrived? && (p.Finished? ==> p.how == Own)
  }

  /** A request and the rows agree. */
  predicate Fits(catalog: Catalog, r: Request, p: Phase, rows: map<Slot, Record>) {
    var slot := SlotOf(r);
    && (OnItsOwn(p) ==> (r.keyed <==> Held(p).Some?))
    && (!OnItsOwn(p) ==> Held(p).None?)
    && (Held(p).Some? ==>
         && slot in rows && rows[slot].id == Held(p).value && rows[slot].hash == r.hash
         && (!p.Finished? ==> rows[slot].status == Processing)
         && (p.Finished? ==> rows[slot].status != Processing && rows[slot].response == Some(p.response)))
    && (p.Finished? && p.how == Replayed ==>
         r.keyed && slot in rows && rows[slot].hash == r.hash && rows[slot].status != Processing
             && rows[slot].response == Some(p.response))
    && (p.Saving? ==> p.record.Some? && (p.failure.Some? ==> p.response == ErrorResponse(catalog, p.failure.value)))
  }

  /** A row's status and response go together. */
  predicate Complete(rows: map<Slot, Record>) {
    forall k :: k in rows ==> (rows[k].status == Processing <==> rows[k].response == None)
  }

  predicate Started(p: Phase) { p.Handling? || p.Saving? || p.Finished? || p.Crashed? }

  predicate Inv(catalog: Catalog, reqs: seq<Request>, s: State) {
    && |s.phases| == |reqs|
    && Distinct(s.records) && Complete(s.records.rows)
    && (forall i :: 0 <= i < |reqs| ==> Fits(catalog, reqs[i], s.phases[i], s.records.rows))
    && (forall i, j :: 0 <= i < j < |reqs| && Held(s.phases[i]).Some? ==> Held(s.phases[i]) != Held(s.phases[j]))
    && (forall x :: 0 <= x < |s.ran| ==>
          s.ran[x] < |reqs| && Started(s.phases[s.ran[x]]) && OnItsOwn(s.phases[s.ran[x]]))
    && (forall x, y :: 0 <= x < y < |s.ran| ==> s.ran[x] != s.ran[y])
  }

  /** A request moves on without touching the rows and without gaining or losing its record. */
  lemma MoveKeeps(catalog: Catalog, reqs: seq<Request>, s: State, i: nat, q: Phase)
    requires Inv(catalog, reqs, s) && i < |reqs| && Fits(catalog, reqs[i], q, s.records.rows)
    requires Held(q) == Held(s.phases[i]) || Held(q) == None
    requires Started(s.phases[i]) ==> Started(q) && OnItsOwn(q)
    ensures Inv(catalog, reqs, s.(phases := s.phases[i := q]))
  {
    hide Fits, Distinct, Complete;
  }

  lemma NotYetRan(catalog: Catalog, reqs: seq<Request>, s: State, i: nat)
    requires Inv(catalog, reqs, s) && i < |reqs| && !Started(s.phases[i])
    ensures forall x :: 0 <= x < |s.ran| ==> s.ran[x] != i
  {
    hide Fits, Distinct, Complete;
  }

  lemma ReserveKeeps(catalog: Catalog, reqs: seq<Request>, s: State, i: nat)
    requires Inv(catalog, reqs, s) && i < |reqs| && s.phases[i] == Arrived
    ensures Inv(catalog, reqs, Next(catalog, reqs, s, Reserve(i)))
  {
    hide Fits, Distinct, Complete;
    var r := reqs[i];
    var (records, phase) := ReservePhase(catalog, r, s.records);
    if records == s.records {
      assert Fits(catalog, r, phase, records.rows) && Held(phase) == None by { ReserveOld(catalog, r, s.records); }
      MoveKeeps(catalog, reqs, s, i, phase);
    } else {
      ReserveNew(catalog, r, s.records);
      NotYetRan(catalog, reqs, s, i);
      var t := s.(records := records, phases := s.phases[i := phase]);
      forall j | 0 <= j < |reqs|
        ensures Fits(catalog, reqs[j], t.phases[j], records.rows)
        ensures j != i ==> Held(t.phases[j]) != Held(phase)
      {
        if j != i {
          FitsGrows(catalog, reqs[j], s.phases[j], s.records, SlotOf(r), records.rows[SlotOf(r)]);
        }
      }
    }
  }

  lemma ReserveOld(catalog: Catalog, r: Request, s: Records)
    requires Distinct(s) && Complete(s.rows) && ReservePhase(catalog, r, s).0 == s
    ensures var phase := ReservePhase(catalog, r, s).1;
            Fits(catalog, r, phase, s.rows) && Held(phase) == None
  {
    FreeSlotTaken(s, SlotOf(r), r.hash);
  }

  lemma FreeSlotTaken(s: Records, slot: Slot, hash: string)
    ensures slot !in s.rows ==> ReserveStep(s, slot, hash).0 != s
  {
    assert slot !in s.rows ==> ReserveStep(s, slot, hash).0.sequence == s.sequence + 1;
  }

  lemma ReserveNew(catalog: Catalog, r: Request, s: Records)
    requires Distinct(s) && Complete(s.rows) && ReservePhase(catalog, r, s).0 != s
    ensures var (t, phase) := ReservePhase(catalog, r, s); var slot := SlotOf(r);
            && Distinct(t) && Complete(t.rows) && Fits(catalog, r, phase, t.rows)
            && phase == Holding(Some(s.sequence + 1))
            && slot !in s.rows && slot in t.rows && t.rows == s.rows[slot := t.rows[slot]]
  {
  }

  /** A new row in a free slot disturbs nobody, and nobody holds its id yet. */
  lemma FitsGrows(catalog: Catalog, r: Request, p: Phase, s: Records, slot: Slot, row: Record)
    requires Distinct(s) && Fits(catalog, r, p, s.rows) && slot !in s.rows
    ensures Fits(catalog, r, p, s.rows[slot := row]) && Held(p) != Some(s.sequence + 1)
  {
  }

  lemma SaveKeeps(catalog: Catalog, reqs: seq<Request>, s: State, i: nat)
    requires Inv(catalog, reqs, s) && i < |reqs| && s.phases[i].Saving? && s.phases[i].record.Some?
    ensures Inv(catalog, reqs, Next(catalog, reqs, s, Save(i)))
  {
    hide Fits, Distinct, Complete, Saved;
    var p := s.phases[i];
    var t := Next(catalog, reqs, s, Save(i));
    SaveOwn(catalog, reqs[i], p, s.records);
    forall j | 0 <= j < |reqs| && j != i
      ensures Fits(catalog, reqs[j], t.phases[j], t.records.rows)
    {
      assert Held(s.phases[j]) != p.record;
      SaveOther(catalog, reqs[i], p, reqs[j], s.phases[j], s.records);
    }
  }

  lemma SaveOwn(catalog: Catalog, r: Request, p: Phase, s: Records)
    requires Distinct(s) && Complete(s.rows) && Fits(catalog, r, p, s.rows) && p.Saving? && p.record.Some?
    ensures var rows := Saved(catalog, s.rows, p.record.value, p.response, p.failure);
            Distinct(s.(rows := rows)) && Complete(rows) && Fits(catalog, r, Finished(p.record, Own, p.response), rows)
  {
  }

  lemma SaveOther(catalog: Catalog, r: Request, p: Phase, r': Request, q: Phase, s: Records)
    requires Distinct(s) && Fits(catalog, r, p, s.rows) && p.Saving? && p.record.Some?
    requires Fits(catalog, r', q, s.rows) && Held(q) != p.record
    ensures Fits(catalog, r', q, Saved(catalog, s.rows, p.record.value, p.response, p.failure))
  {
    assert SlotOf(r) in s.rows && s.rows[SlotOf(r)].id == p.record.value && s.rows[SlotOf(r)].status == Processing;
  }

  lemma VersionKeeps(catalog: Catalog, reqs: seq<Request>, s: State, i: nat)
    requires Inv(catalog, reqs, s) && i < |reqs| && s.phases[i].Holding?
    ensures Inv(catalog, reqs, Next(catalog, reqs, s, MatchVersion(i)))
  {
    hide Distinct, Complete;
    var r, p := reqs[i], s.phases[i];
    var q := Next(catalog, reqs, s, MatchVersion(i)).phases[i];
    assert Fits(catalog, r, p, s.records.rows);
    assert Fits(catalog, r, q, s.records.rows);
    MoveKeeps(catalog, reqs, s, i, q);
    VersionsApart(catalog, reqs, s.(phases := s.phases[i := q]), Next(catalog, reqs, s, MatchVersion(i)));
  }

  /** Versions are not part of the invariant. */
  lemma VersionsApart(catalog: Catalog, reqs: seq<Request>, s: State, t: State)
    requires Inv(catalog, reqs, s) && t.records == s.records && t.phases == s.phases && t.ran == s.ran
    ensures Inv(catalog, reqs, t)
  {
  }

  lemma StartKeeps(catalog: Catalog, reqs: seq<Request>, s: State, i: nat)
    requires Inv(catalog, reqs, s) && i < |reqs| && s.phases[i].Checked?
    ensures Inv(catalog, reqs, Next(catalog, reqs, s, StartHandler(i)))
  {
    hide Fits, Distinct, Complete;
    NotYetRan(catalog, reqs, s, i);
    var q := Handling(s.phases[i].record);
    assert Fits(catalog, reqs[i], q, s.records.rows) by { SameFit(catalog, reqs[i], s.phases[i], s.records.rows); }
    MoveKeeps(catalog, reqs, s, i, q);
  }

  lemma SameFit(catalog: Catalog, r: Request, p: Phase, rows: map<Slot, Record>)
    requires Fits(catalog, r, p, rows) && p.Checked?
    ensures Fits(catalog, r, Handling(p.record), rows)
  {
  }

  lemma EndKeeps(catalog: Catalog, reqs: seq<Request>, s: State, i: nat, outcome: Outcome)
    requires Inv(catalog, reqs, s) && i < |reqs| && s.phases[i].Handling?
    ensures Inv(catalog, reqs, Next(catalog, reqs, s, EndHandler(i, outcome)))
  {
    hide Distinct, Complete;
    var q := AfterHandler(catalog, reqs[i], s.phases[i].record, outcome);
    assert Fits(catalog, reqs[i], s.phases[i], s.records.rows);
    assert Fits(catalog, reqs[i], q, s.records.rows);
    MoveKeeps(catalog, reqs, s, i, q);
  }

  lemma StepKeeps(catalog: Catalog, reqs: seq<Request>, s: State, a: Action)
    requires Inv(catalog, reqs, s)
    ensures Inv(catalog, reqs, Next(catalog, reqs, s, a))
  {
    hide Fits, Distinct, Complete;
    if a.i < |reqs| {
      var p := s.phases[a.i];
      match a
      case Reserve(i) => if p == Arrived { ReserveKeeps(catalog, reqs, s, i); }
      case MatchVersion(i) => if p.Holding? { VersionKeeps(catalog, reqs, s, i); }
      case StartHandler(i) => if p.Checked? { StartKeeps(catalog, reqs, s, i); }
      case EndHandler(i, outcome) => if p.Handling? { EndKeeps(catalog, reqs, s, i, outcome); }
      case Save(i) => if p.Saving? && p.record.Some? { SaveKeeps(catalog, reqs, s, i); }
    }
  }

  lemma {:induction false} RunKeeps(catalog: Catalog, reqs: seq<Request>, actions: seq<Action>)
    ensures Inv(catalog, reqs, After(catalog, reqs, actions))
    decreases |actions|
  {
    hide Inv, Next;
    if actions == [] {
      StartInv(catalog, reqs);
    } else {
      RunKeeps(catalog, reqs, actions[..|actions| - 1]);
      StepKeeps(catalog, reqs, After(catalog, reqs, actions[..|actions| - 1]), actions[|actions| - 1]);
    }
  }

  lemma StartInv(catalog: Catalog, reqs: seq<Request>)
    ensures Inv(catalog, reqs, Start(reqs))
  {
  }

  // ----- at most once, and the same answer -----

  /** In every interleaving, no two handler starts are for the same tenant, operation and key. */
  lemma AtMostOnce(catalog: Catalog, reqs: seq<Request>, actions: seq<Action>, x: nat, y: nat)
    requires x < y < |After(catalog, reqs, actions).ran|
    ensures var ran := After(catalog, reqs, actions).ran;
            && ran[x] < |reqs| && ran[y] < |reqs|
            && (reqs[ran[x]].keyed && reqs[ran[y]].keyed ==> SlotOf(reqs[ran[x]]) != SlotOf(reqs[ran[y]]))
  {
    hide After;
    RunKeeps(catalog, reqs, actions);
    var s := After(catalog, reqs, actions);
    var i, j := s.ran[x], s.ran[y];
    OneHolder(catalog, reqs, s, i, j);
  }

  /** Only one request of a slot gets past the reservation on its own account. */
  lemma OneHolder(catalog: Catalog, reqs: seq<Request>, s: State, i: nat, j: nat)
    requires Inv(catalog, reqs, s) && i < |reqs| && j < |reqs| && OnItsOwn(s.phases[i]) && OnItsOwn(s.phases[j])
    ensures reqs[i].keyed && reqs[j].keyed && SlotOf(reqs[i]) == SlotOf(reqs[j]) ==> i == j
  {
    hide Distinct, Complete;
    assert Fits(catalog, reqs[i], s.phases[i], s.records.rows) && Fits(catalog, reqs[j], s.phases[j], s.records.rows);
    assert reqs[i].keyed && reqs[j].keyed && SlotOf(reqs[i]) == SlotOf(reqs[j]) ==>
          Held(s.phases[i]) == Held(s.phases[j]);
  }

  /** Whoever of a slot is answered from its record, the owner or a later request, gets the same status and body. */
  lemma SameAnswer(catalog: Catalog, reqs: seq<Request>, actions: seq<Action>, i: nat, j: nat)
    requires i < |reqs| && j < |reqs| && reqs[i].keyed && reqs[j].keyed && SlotOf(reqs[i]) == SlotOf(reqs[j])
    requires var s := After(catalog, reqs, actions);
             s.phases[i].Finished? && s.phases[i].how != Rejected && s.phases[j].Finished?
                 && s.phases[j].how != Rejected
    ensures var s := After(catalog, reqs, actions);
            s.phases[i].response == s.phases[j].response && reqs[i].hash == reqs[j].hash
  {
    hide After;
    RunKeeps(catalog, reqs, actions);
    var s := After(catalog, reqs, actions);
    assert Fits(catalog, reqs[i], s.phases[i], s.records.rows) && Fits(catalog, reqs[j], s.phases[j], s.records.rows);
  }

  /** What a later request of a held slot gets, in full: a different hash is refused at any time; the same hash is
      told to wait while the holder is at work, forever if the holder crashed, and gets the holder's answer once it
      has finished, be it a success or a saved failure. */
  lemma LaterRequest(catalog: Catalog, reqs: seq<Request>, actions: seq<Action>, i: nat, j: nat)
    requires i < |reqs| && j < |reqs| && reqs[i].keyed && reqs[j].keyed && SlotOf(reqs[i]) == SlotOf(reqs[j])
    requires reqs[j].key.Some? && reqs[j].key.value != ""
    requires var s := After(catalog, reqs, actions); OnItsOwn(s.phases[i]) && s.phases[j] == Arrived
    ensures var s := After(catalog, reqs, actions);
            var t := After(catalog, reqs, actions + [Reserve(j)]);
            && t.records == s.records && t.ran == s.ran
            && t.phases[j] ==
                 (if reqs[j].hash != reqs[i].hash
                  then Finished(None, Rejected,
                    Error(catalog, reqs[j], HASH_DIFFERS, "idempotency_request_hash_mismatch"))
                  else if s.phases[i].Finished? then Finished(None, Replayed, s.phases[i].response)
                  else Finished(None, Rejected, Error(catalog, reqs[j], IN_FLIGHT, "idempotency_in_flight")))
  {
    RunKeeps(catalog, reqs, actions);
    var s := After(catalog, reqs, actions);
    assert (actions + [Reserve(j)])[..|actions|] == actions;
    assert Fits(catalog, reqs[i], s.phases[i], s.records.rows);
  }

  // ----- If-Match -----

  /** The versions matched so far rise, and stay below the stored one. */
  predicate Rising(s: State) {
    && (forall x :: 0 <= x < |s.matched| ==>
          s.matched[x].0 in s.versions && s.matched[x].1 < s.versions[s.matched[x].0])
    && (forall x, y :: 0 <= x < y < |s.matched| && s.matched[x].0 == s.matched[y].0 ==> s.matched[x].1 < s.matched[y].1)
  }

  lemma StepRises(catalog: Catalog, reqs: seq<Request>, s: State, a: Action)
    requires |s.phases| == |reqs| && Rising(s)
    ensures Rising(Next(catalog, reqs, s, a))
  {
    hide Saved, ReservePhase, AfterHandler, ErrorResponse;
  }

  /** No version of a resource is matched twice, however requests interleave: of two updates that expect the same
      version at most one goes through. */
  lemma {:induction false} MatchedOnce(catalog: Catalog, reqs: seq<Request>, actions: seq<Action>)
    ensures var s := After(catalog, reqs, actions);
            && Rising(s)
            && forall x, y :: 0 <= x < y < |s.matched| ==> s.matched[x] != s.matched[y]
    decreases |actions|
  {
    hide Next;
    if actions != [] {
      MatchedOnce(catalog, reqs, actions[..|actions| - 1]);
      StepRises(catalog, reqs, After(catalog, reqs, actions[..|actions| - 1]), actions[|actions| - 1]);
    }
  }

  /** The versions of one resource that were matched, in order. */
  function MatchedOf(matched: seq<(Resource, int)>, r: Resource): seq<int>
    decreases |matched|
  {
    if matched == [] then []
    else
      var last := matched[|matched| - 1];
      MatchedOf(matched[..|matched| - 1], r) + if last.0 == r then [last.1] else []
  }

  /** They are consecutive, and the stored version is the next one. */
  predicate InOrder(s: State, r: Resource) {
    var vs := MatchedOf(s.matched, r);
    && (r in s.versions <==> vs != [])
    && (r in s.versions ==> s.versions[r] == vs[0] + |vs|)
    && forall x :: 0 <= x < |vs| ==> vs[x] == vs[0] + x
  }

  /** A step leaves the versions and their log alone, or it matches the current version of a resource. */
  lemma StepMatches(catalog: Catalog, reqs: seq<Request>, s: State, a: Action)
    requires |s.phases| == |reqs|
    ensures var t := Next(catalog, reqs, s, a);
            || (t.versions == s.versions && t.matched == s.matched)
            || (a.i < |reqs| && reqs[a.i].ifMatch.Expect?
                && var r, v := reqs[a.i].ifMatch.resource, reqs[a.i].ifMatch.version;
                   && t.versions == s.versions[r := v + 1] && t.matched == s.matched + [(r, v)]
                   && (r in s.versions ==> s.versions[r] == v))
  {
    hide Saved, ReservePhase, AfterHandler, ErrorResponse;
  }

  lemma StepInOrder(catalog: Catalog, reqs: seq<Request>, s: State, a: Action, r: Resource)
    requires |s.phases| == |reqs| && InOrder(s, r)
    ensures InOrder(Next(catalog, reqs, s, a), r)
  {
    hide Next;
    StepMatches(catalog, reqs, s, a);
    var t := Next(catalog, reqs, s, a);
    if t.matched != s.matched {
      assert t.matched[..|s.matched|] == s.matched;
    }
  }

  /** However requests interleave, the matched versions of a resource are consecutive from the first on, and the stored
      one is the next: every update that goes through counts one up, and nothing else does. */
  lemma {:induction false} MatchedInOrder(catalog: Catalog, reqs: seq<Request>, actions: seq<Action>, r: Resource)
    ensures InOrder(After(catalog, reqs, actions), r)
    decreases |actions|
  {
    hide Next, InOrder;
    if actions == [] {
      StartInOrder(reqs, r);
    } else {
      MatchedInOrder(catalog, reqs, actions[..|actions| - 1], r);
      StepInOrder(catalog, reqs, After(catalog, reqs, actions[..|actions| - 1]), actions[|actions| - 1], r);
    }
  }

  lemma StartInOrder(reqs: seq<Request>, r: Resource)
    ensures InOrder(Start(reqs), r)
  {
  }

  // ----- one request on its own -----

  /** The steps of a request that nobody interrupts; the handler's outcome is given. */
  function Alone(catalog: Catalog, r: Request, records: Records, versions: map<Resource, int>, outcome: Outcome)
    : State
  {
    var s := State(records, versions, [Arrived], [], []);
    var held := Next(catalog, [r], Next(catalog, [r], s, Reserve(0)), MatchVersion(0));
    Next(catalog, [r], Next(catalog, [r], Next(catalog, [r], held, StartHandler(0)), EndHandler(0, outcome)), Save(0))
  }

  /** What is left of a request once its failure or response is saved. */
  function Settled(p: Phase): Phase {
    if p.Saving? && p.record.Some? then Finished(p.record, Own, p.response) else p
  }

  function SettledRows(catalog: Catalog, rows: map<Slot, Record>, p: Phase): map<Slot, Record> {
    if p.Saving? && p.record.Some? then Saved(catalog, rows, p.record.value, p.response, p.failure) else rows
  }

  /** The same, phase by phase. */
  lemma AloneIs(catalog: Catalog, r: Request, records: Records, versions: map<Resource, int>, outcome: Outcome)
    ensures var (held, p) := ReservePhase(catalog, r, records);
            var (seen, q) := if p.Holding? then MatchPhase(catalog, r, versions, p.record) else (versions, p);
            var end := if q.Checked? then AfterHandler(catalog, r, q.record, outcome) else q;
            var t := Alone(catalog, r, records, versions, outcome);
            && t.records == held.(rows := SettledRows(catalog, held.rows, end)) && t.versions == seen
            && t.phases == [Settled(end)] && t.ran == if q.Checked? then [0] else []
  {
    hide ReserveStep, CheckStep, Saved, ErrorResponse;
  }

  /** The runner with its two stores. */
  class Runner {
    const records: Store
    const versions: IfMatchStore

    constructor ()
      ensures fresh(records) && fresh(versions) && records.Valid()
      ensures records.rows == map[] && records.sequence == 0 && versions.versions == map[]
    {
      records := new Store();
      versions := new IfMatchStore();
    }

    /** Saves what is to be saved. */
    method Settle(catalog: Catalog, p: Phase) returns (q: Phase)
      requires records.Valid()
      modifies records`rows
      ensures records.Valid() && q == Settled(p) && records.rows == SettledRows(catalog, old(records.rows), p)
    {
      q := p;
      if p.Saving? && p.record.Some? {
        if p.failure.Some? {
          var ok := records.SaveFailure(catalog, p.record.value, p.failure.value);
        } else {
          var ok := records.SaveResult(p.record.value, p.response);
        }
        q := Finished(p.record, Own, p.response);
      }
    }

    method CheckIfMatchIfNeeded(catalog: Catalog, r: Request, record: Option<nat>) returns (p: Phase)
      modifies versions
      ensures (versions.versions, p) == MatchPhase(catalog, r, old(versions.versions), record)
    {
      match r.ifMatch {
        case NotNeeded => p := Checked(record);
        case NoHeader(code) => p := Failing(catalog, r, record, code, "missing_if_match");
        case Unresolvable => p := Crashed(record);
        case Expect(resource, version, conflict) =>
          var decision := versions.Check(resource, version);
          p := if decision.Match? then Checked(record) else Failing(catalog, r, record, conflict, "version_conflict");
      }
    }

    /** The reservation: a phase other than `Holding` is the end of the request. */
    method ReserveIfNeeded(catalog: Catalog, r: Request) returns (p: Phase)
      requires records.Valid()
      modifies records
      ensures records.Valid()
              && (Records(records.rows, records.sequence), p)
                  == ReservePhase(catalog, r, old(Records(records.rows, records.sequence)))
      ensures p.Holding? || p.Finished?
    {
      if !r.keyed {
        return Holding(None);
      }
      if r.key == None || r.key == Some("") {
        return Finished(None, Rejected, Error(catalog, r, KEY_MISSING, "missing_idempotency_key"));
      }
      var answer := records.Reserve(SlotOf(r), r.hash);
      p := AfterReserve(catalog, r, answer);
    }

    /** One request from the reservation on; `outcome` is what its handler comes to, if it is called. */
    method Inject(catalog: Catalog, r: Request, outcome: Outcome) returns (p: Phase, handled: bool)
      requires records.Valid()
      modifies records, versions
      ensures records.Valid()
      ensures var t := Alone(catalog, r, old(Records(records.rows, records.sequence)), old(versions.versions), outcome);
              && Records(records.rows, records.sequence) == t.records && versions.versions == t.versions
              && |t.phases| == 1 && p == t.phases[0] && t.ran == if handled then [0] else []
    {
      hide Alone, SettledRows, ReservePhase, MatchPhase, AfterHandler, Settled;
      AloneIs(catalog, r, Records(records.rows, records.sequence), versions.versions, outcome);
      handled := false;
      p := ReserveIfNeeded(catalog, r);
      if p.Holding? {
        p := CheckIfMatchIfNeeded(catalog, r, p.record);
      }
      if p.Checked? {
        handled := true;
        p := AfterHandler(catalog, r, p.record, outcome);
      }
      p := Settle(catalog, p);
    }
  }
}
