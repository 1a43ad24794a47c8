/** What every request is answered: in any interleaving the answer of a request is the one its handler, its If-Match
    check or its reservation came to, and a repeated answer is that of the one request that did the work. */
module RequestAnswers {
  import opened IrelSyntax
  import opened Idempotency
  import opened RequestRunner
  import opened RequestCrashes

  /** The request has its answer, which may still have to be saved. */
  predicate Gives(p: Phase, how: How, response: Response) {
    (p.Saving? && how == Own && p.response == response) || (p.Finished? && p.how == how && p.response == response)
  }

  /** An error as the client sees it: the status of its code, with the request's own correlation id. */
  function Fault(catalog: Catalog, r: Request, code: string, details: string): Response {
    Response(catalog(code), ErrorBody(ApiError(code, r.correlation, details)))
  }

  /** What a handler's outcome makes of a request; nothing when it throws. */
  predicate HandlerGives(catalog: Catalog, r: Request, outcome: Outcome, response: Response) {
    match outcome
    case Answered(given) => response == given
    case Refused(code, details) => response == Fault(catalog, r, code, details)
    case Threw => false
  }

  /** What an If-Match check that fails makes of it. */
  predicate MatchRefuses(catalog: Catalog, r: Request, versions: map<Resource, int>, response: Response) {
    match r.ifMatch
    case NoHeader(code) => response == Fault(catalog, r, code, "missing_if_match")
    case Expect(resource, version, conflict) =>
      resource in versions && versions[resource] != version
      && response == Fault(catalog, r, conflict, "version_conflict")
    case _ => false
  }

  /** Request `h` is one that went past the reservation of the slot. */
  predicate Keeper(reqs: seq<Request>, s: State, slot: Slot, h: nat) {
    h < |reqs| == |s.phases| && reqs[h].keyed && SlotOf(reqs[h]) == slot && OnItsOwn(s.phases[h])
  }

  /** What the holder of its slot makes of a request. */
  predicate HolderGives(catalog: Catalog, r: Request, hash: string, p: Phase, how: How, response: Response) {
    if hash != r.hash
    then how == Rejected
      && response == Fault(catalog, r, "SCENARIO_VERSION_CONFLICT", "idempotency_request_hash_mismatch")
    else if p.Finished? then how == Replayed && response == p.response
    else how == Rejected && response == Fault(catalog, r, "WORKITEM_CHECKOUT_CONFLICT", "idempotency_in_flight")
  }

  /** What a reservation that is not granted makes of it: the key is missing, or the slot has a holder. */
  ghost predicate ReserveGives(catalog: Catalog, reqs: seq<Request>, s: State, i: nat, how: How, response: Response)
    requires |s.phases| == |reqs| && i < |reqs|
  {
    var r := reqs[i];
    && r.keyed
    && if r.key == None || r.key == Some("")
       then how == Rejected && response == Fault(catalog, r, "IR_SCHEMA_INVALID", "missing_idempotency_key")
       else
         exists h: nat :: Keeper(reqs, s, SlotOf(r), h)
           && HolderGives(catalog, r, reqs[h].hash, s.phases[h], how, response)
  }

  /** The step gives the request its answer. */
  ghost predicate AnswerStep(catalog: Catalog, reqs: seq<Request>, s: State, a: Action, i: nat, how: How,
                             response: Response)
    requires |s.phases| == |reqs|
  {
    && a.i == i < |reqs|
    && match a
       case Reserve(_) => s.phases[i] == Arrived && ReserveGives(catalog, reqs, s, i, how, response)
       case MatchVersion(_) =>
         how == Own && s.phases[i].Holding? && MatchRefuses(catalog, reqs[i], s.versions, response)
       case EndHandler(_, outcome) =>
         how == Own && s.phases[i].Handling? && HandlerGives(catalog, reqs[i], outcome, response)
       case _ => false
  }

  // ----- every row has a holder -----

  ghost predicate Kept(reqs: seq<Request>, s: State) {
    forall slot :: slot in s.records.rows ==> exists h: nat :: Keeper(reqs, s, slot, h)
  }

  lemma RowsStep(catalog: Catalog, reqs: seq<Request>, s: State, a: Action, slot: Slot)
    requires |s.phases| == |reqs|
    ensures var t := Next(catalog, reqs, s, a);
            slot in t.records.rows && slot !in s.records.rows ==>
            a.i < |reqs| && Keeper(reqs, t, slot, a.i)
  {
    hide CheckStep, ErrorResponse;
  }

  lemma OwnStays(catalog: Catalog, reqs: seq<Request>, s: State, a: Action, h: nat)
    requires |s.phases| == |reqs| && h < |reqs| && OnItsOwn(s.phases[h])
    ensures var t := Next(catalog, reqs, s, a); |t.phases| == |reqs| && OnItsOwn(t.phases[h])
  {
    hide ReserveStep, CheckStep, Saved, ErrorResponse;
  }

  lemma KeptStep(catalog: Catalog, reqs: seq<Request>, s: State, a: Action)
    requires |s.phases| == |reqs| && Kept(reqs, s)
    ensures Kept(reqs, Next(catalog, reqs, s, a))
  {
    hide Next;
    var t := Next(catalog, reqs, s, a);
    forall slot | slot in t.records.rows
      ensures exists h: nat :: Keeper(reqs, t, slot, h)
    {
      RowsStep(catalog, reqs, s, a, slot);
      if slot in s.records.rows {
        var h: nat :| Keeper(reqs, s, slot, h);
        OwnStays(catalog, reqs, s, a, h);
        assert Keeper(reqs, t, slot, h);
      }
    }
  }

  /** Every record of every interleaving was reserved by one of the requests, which went on from there. */
  lemma {:induction false} RowsAreKept(catalog: Catalog, reqs: seq<Request>, actions: seq<Action>)
    ensures Kept(reqs, After(catalog, reqs, actions))
    decreases |actions|
  {
    hide Next, Kept;
    if actions == [] {
      NothingKept(reqs);
    } else {
      RowsAreKept(catalog, reqs, actions[..|actions| - 1]);
      KeptStep(catalog, reqs, After(catalog, reqs, actions[..|actions| - 1]), actions[|actions| - 1]);
    }
  }

  lemma NothingKept(reqs: seq<Request>)
    ensures Kept(reqs, Start(reqs))
  {
  }

  // ----- the answers -----

  /** An ungranted reservation gives what the holder of the slot makes of it. */
  lemma ReserveAnswer(catalog: Catalog, reqs: seq<Request>, s: State, i: nat, how: How, response: Response)
    requires Inv(catalog, reqs, s) && Kept(reqs, s) && i < |reqs| && s.phases[i] == Arrived
    ensures Gives(ReservePhase(catalog, reqs[i], s.records).1, how, response)
            <==> ReserveGives(catalog, reqs, s, i, how, response)
  {
    hide Distinct;
    var r := reqs[i];
    var slot, rows := SlotOf(r), s.records.rows;
    if r.keyed && r.key != None && r.key != Some("") {
      if slot in rows {
        var h: nat :| Keeper(reqs, s, slot, h);
        forall k: nat | Keeper(reqs, s, slot, k)
          ensures k == h
        {
          OneHolder(catalog, reqs, s, h, k);
        }
        assert Fits(catalog, reqs[h], s.phases[h], rows);
      } else {
        forall k: nat
          ensures !Keeper(reqs, s, slot, k)
        {
        }
      }
    }
  }

  lemma AnsweredStep(catalog: Catalog, reqs: seq<Request>, s: State, a: Action, i: nat, how: How, response: Response)
    requires Inv(catalog, reqs, s) && Kept(reqs, s) && i < |reqs|
    ensures Gives(Next(catalog, reqs, s, a).phases[i], how, response) <==>
            Gives(s.phases[i], how, response) || AnswerStep(catalog, reqs, s, a, i, how, response)
  {
    hide Inv, Kept, ReservePhase, Saved, ReserveGives;
    assert |s.phases| == |reqs| by { InvLength(catalog, reqs, s); }
    if a == Reserve(i) && s.phases[i] == Arrived {
      ReserveAnswer(catalog, reqs, s, i, how, response);
    }
  }

  lemma InvLength(catalog: Catalog, reqs: seq<Request>, s: State)
    requires Inv(catalog, reqs, s)
    ensures |s.phases| == |reqs|
  {
  }

  /** The `k`-th action gives the request its answer. */
  ghost predicate AnsweredAt(catalog: Catalog, reqs: seq<Request>, actions: seq<Action>, k: nat, i: nat, how: How,
                             response: Response)
  {
    k < |actions| && AnswerStep(catalog, reqs, After(catalog, reqs, actions[..k]), actions[k], i, how, response)
  }

  lemma AnsweredBefore(catalog: Catalog, reqs: seq<Request>, actions: seq<Action>, k: nat, i: nat, how: How,
                       response: Response)
    requires actions != []
    ensures var init := actions[..|actions| - 1];
            AnsweredAt(catalog, reqs, actions, k, i, how, response) <==>
            if k == |init| then AnswerStep(catalog, reqs, After(catalog, reqs, init), actions[k], i, how, response)
            else AnsweredAt(catalog, reqs, init, k, i, how, response)
  {
    hide After, AnswerStep;
    if k < |actions| - 1 {
      assert actions[..|actions| - 1][..k] == actions[..k];
    }
  }

  /** In every interleaving the answer of a request is exactly what one of its own steps came to: its handler's
      response or refusal, its failed If-Match check, or its reservation, in which case it is told to wait, refused, or
      given the answer of the request that holds its key. */
  lemma {:induction false} AnswerIff(catalog: Catalog, reqs: seq<Request>, actions: seq<Action>, i: nat, how: How,
                                     response: Response)
    requires i < |reqs|
    ensures Gives(After(catalog, reqs, actions).phases[i], how, response)
            <==> exists k: nat :: AnsweredAt(catalog, reqs, actions, k, i, how, response)
    decreases |actions|
  {
    hide Next, AnswerStep, AnsweredAt, Inv, Kept;
    if actions == [] {
      forall k: nat
        ensures !AnsweredAt(catalog, reqs, actions, k, i, how, response)
      {
        NotAnswered(catalog, reqs, k, i, how, response);
      }
    } else {
      var init, last := actions[..|actions| - 1], actions[|actions| - 1];
      AnswerIff(catalog, reqs, init, i, how, response);
      RunKeeps(catalog, reqs, init);
      RowsAreKept(catalog, reqs, init);
      AnsweredStep(catalog, reqs, After(catalog, reqs, init), last, i, how, response);
      forall k: nat
        ensures AnsweredAt(catalog, reqs, actions, k, i, how, response) <==>
                if k == |init| then AnswerStep(catalog, reqs, After(catalog, reqs, init), last, i, how, response)
                else AnsweredAt(catalog, reqs, init, k, i, how, response)
        ensures AnsweredAt(catalog, reqs, init, k, i, how, response) ==> k < |init|
      {
        AnsweredBefore(catalog, reqs, actions, k, i, how, response);
        AnsweredEarly(catalog, reqs, init, k, i, how, response);
      }
      if AnswerStep(catalog, reqs, After(catalog, reqs, init), last, i, how, response) {
        assert AnsweredAt(catalog, reqs, actions, |init|, i, how, response);
      } else if k: nat :| AnsweredAt(catalog, reqs, init, k, i, how, response) {
        assert AnsweredAt(catalog, reqs, actions, k, i, how, response);
      }
    }
  }

  lemma NotAnswered(catalog: Catalog, reqs: seq<Request>, k: nat, i: nat, how: How, response: Response)
    ensures !AnsweredAt(catalog, reqs, [], k, i, how, response)
  {
  }

  lemma AnsweredEarly(catalog: Catalog, reqs: seq<Request>, actions: seq<Action>, k: nat, i: nat, how: How,
                      response: Response)
    ensures AnsweredAt(catalog, reqs, actions, k, i, how, response) ==> k < |actions|
  {
    hide AnswerStep, After;
  }

  // ----- what this comes to -----

  /** The `k`-th action ends the request's handler. */
  ghost predicate EndedAt(catalog: Catalog, reqs: seq<Request>, actions: seq<Action>, k: nat, i: nat, outcome: Outcome)
  {
    k < |actions| && i < |reqs| && actions[k] == EndHandler(i, outcome)
    && After(catalog, reqs, actions[..k]).phases[i].Handling?
  }

  /** A request whose handler has ended has exactly the handler's answer, whatever else goes on; if the handler refused,
      the catalogue's status for its code with the request's own correlation id and the given details. */
  lemma HandlerAnswer(catalog: Catalog, reqs: seq<Request>, actions: seq<Action>, k: nat, i: nat, outcome: Outcome,
                      response: Response)
    requires EndedAt(catalog, reqs, actions, k, i, outcome) && HandlerGives(catalog, reqs[i], outcome, response)
    ensures Gives(After(catalog, reqs, actions).phases[i], Own, response)
  {
    hide After;
    AnswerIff(catalog, reqs, actions, i, Own, response);
    assert AnsweredAt(catalog, reqs, actions, k, i, Own, response);
  }

  /** A later request with the same key and hash then gets that answer, once it is saved. */
  lemma TwinAnswer(catalog: Catalog, reqs: seq<Request>, actions: seq<Action>, k: nat, i: nat, outcome: Outcome,
                   response: Response, j: nat)
    requires EndedAt(catalog, reqs, actions, k, i, outcome) && HandlerGives(catalog, reqs[i], outcome, response)
    requires Twins(reqs, i, j)
    requires var s := After(catalog, reqs, actions); s.phases[i].Finished? && s.phases[j] == Arrived
    ensures After(catalog, reqs, actions + [Reserve(j)]).phases[j] == Finished(None, Replayed, response)
  {
    hide After, EndedAt, HandlerGives;
    HandlerAnswer(catalog, reqs, actions, k, i, outcome, response);
    LaterRequest(catalog, reqs, actions, i, j);
  }

  /** An answer from a record is the answer of the one request that did the work under that key and hash. */
  lemma ReplayedFromWork(catalog: Catalog, reqs: seq<Request>, actions: seq<Action>, j: nat) returns (i: nat)
    requires j < |reqs|
    requires var p := After(catalog, reqs, actions).phases[j]; p.Finished? && p.how == Replayed
    ensures i < |reqs| && i != j && reqs[i].keyed && SlotOf(reqs[i]) == SlotOf(reqs[j]) && reqs[i].hash == reqs[j].hash
    ensures var s := After(catalog, reqs, actions);
            s.phases[i].Finished? && s.phases[i].how == Own && s.phases[i].response == s.phases[j].response
  {
    hide After;
    RunKeeps(catalog, reqs, actions);
    RowsAreKept(catalog, reqs, actions);
    var s := After(catalog, reqs, actions);
    assert Fits(catalog, reqs[j], s.phases[j], s.records.rows);
    i :| Keeper(reqs, s, SlotOf(reqs[j]), i);
    assert Fits(catalog, reqs[i], s.phases[i], s.records.rows);
  }

  /** A request that nobody interrupts and whose handler is called ends with the handler's answer. */
  lemma AloneAnswer(catalog: Catalog, r: Request, records: Records, versions: map<Resource, int>, outcome: Outcome,
                    response: Response)
    requires HandlerGives(catalog, r, outcome, response)
    requires Alone(catalog, r, records, versions, outcome).ran == [0]
    ensures var t := Alone(catalog, r, records, versions, outcome);
            |t.phases| == 1 && t.phases[0].Finished? && t.phases[0].how == Own && t.phases[0].response == response
  {
    hide Alone, CheckStep, ReserveStep, SettledRows;
    AloneIs(catalog, r, records, versions, outcome);
  }

  lemma SavedRow(catalog: Catalog, rows: map<Slot, Record>, slot: Slot, id: nat, response: Response,
                 failure: Option<ApiError>)
    requires slot in rows && rows[slot].id == id
    requires failure.Some? ==> response == ErrorResponse(catalog, failure.value)
    ensures var saved := Saved(catalog, rows, id, response, failure);
            && slot in saved && saved[slot].hash == rows[slot].hash && saved[slot].status != Processing
            && saved[slot].response == Some(response)
  {
  }

  lemma HolderSaves(catalog: Catalog, r: Request, id: nat, outcome: Outcome, response: Response)
    requires HandlerGives(catalog, r, outcome, response)
    ensures var p := AfterHandler(catalog, r, Some(id), outcome);
            && p.Saving? && p.record == Some(id) && p.response == response
            && (p.failure.Some? ==> response == ErrorResponse(catalog, p.failure.value))
  {
  }

  lemma Granted(catalog: Catalog, r: Request, s: Records)
    requires r.keyed && ReservePhase(catalog, r, s).1.Holding?
    ensures var (t, p) := ReservePhase(catalog, r, s); var slot := SlotOf(r);
            && r.key.Some? && r.key.value != "" && p.record == Some(s.sequence + 1)
            && slot in t.rows && t.rows[slot].id == s.sequence + 1 && t.rows[slot].hash == r.hash
  {
  }

  lemma ReserveEnds(catalog: Catalog, r: Request, s: Records)
    ensures var p := ReservePhase(catalog, r, s).1; p.Holding? || p.Finished?
  {
  }

  lemma Repeats(catalog: Catalog, r: Request, s: Records, response: Response)
    requires r.keyed && r.key.Some? && r.key.value != "" && SlotOf(r) in s.rows
    requires var row := s.rows[SlotOf(r)];
             row.hash == r.hash && row.status != Processing && row.response == Some(response)
    ensures ReservePhase(catalog, r, s).1 == Finished(None, Replayed, response)
  {
  }

  /** If it is keyed, the answer is saved: the same request gets it again. */
  lemma AloneRepeats(catalog: Catalog, r: Request, records: Records, versions: map<Resource, int>, outcome: Outcome,
                     response: Response)
    requires HandlerGives(catalog, r, outcome, response) && r.keyed
    requires Alone(catalog, r, records, versions, outcome).ran == [0]
    ensures ReservePhase(catalog, r, Alone(catalog, r, records, versions, outcome).records).1
            == Finished(None, Replayed, response)
  {
    hide Alone, CheckStep, ReservePhase, AfterHandler, HandlerGives, Saved, ErrorResponse, SlotOf;
    AloneIs(catalog, r, records, versions, outcome);
    var held := ReservePhase(catalog, r, records).0;
    ReserveEnds(catalog, r, records);
    Granted(catalog, r, records);
    HolderSaves(catalog, r, records.sequence + 1, outcome, response);
    var p := AfterHandler(catalog, r, Some(records.sequence + 1), outcome);
    SavedRow(catalog, held.rows, SlotOf(r), records.sequence + 1, response, p.failure);
    Repeats(catalog, r, Alone(catalog, r, records, versions, outcome).records, response);
  }
}
