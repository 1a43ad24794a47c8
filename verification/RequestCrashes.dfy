/** Requests that leave their idempotency key unusable (control-plane/fake-request-runner.ts `inject`): which do, why,
    and that no other does. */
module RequestCrashes {
  import opened IrelSyntax
  import opened Idempotency
  import opened RequestRunner

  // ----- the cause -----

  /** The two steps whose exception is not saved: an If-Match id that cannot be read off the request, and a handler
      that throws anything but an API error. */
  predicate CrashStep(reqs: seq<Request>, s: State, a: Action, i: nat)
    requires |s.phases| == |reqs|
  {
    && a.i == i < |reqs|
    && (|| (a.MatchVersion? && s.phases[i].Holding? && reqs[i].ifMatch.Unresolvable?)
        || (a.EndHandler? && a.outcome.Threw? && s.phases[i].Handling?))
  }

  lemma CrashedStep(catalog: Catalog, reqs: seq<Request>, s: State, a: Action, i: nat)
    requires |s.phases| == |reqs| && i < |reqs|
    ensures Next(catalog, reqs, s, a).phases[i].Crashed? <==> s.phases[i].Crashed? || CrashStep(reqs, s, a, i)
  {
    hide ReserveStep, CheckStep, Saved, ErrorResponse;
  }

  /** The `k`-th action crashes the request. */
  ghost predicate CrashesAt(catalog: Catalog, reqs: seq<Request>, actions: seq<Action>, k: nat, i: nat)
    requires k < |actions|
  {
    CrashStep(reqs, After(catalog, reqs, actions[..k]), actions[k], i)
  }

  /** In every interleaving a request has crashed exactly when one of its own steps was such a step. */
  lemma {:induction false} CrashedIff(catalog: Catalog, reqs: seq<Request>, actions: seq<Action>, i: nat)
    requires i < |reqs|
    ensures After(catalog, reqs, actions).phases[i].Crashed?
            <==> exists k :: 0 <= k < |actions| && CrashesAt(catalog, reqs, actions, k, i)
    decreases |actions|
  {
    hide Next, CrashStep, CrashesAt;
    if actions != [] {
      var last := |actions| - 1;
      CrashedIff(catalog, reqs, actions[..last], i);
      CrashedStep(catalog, reqs, After(catalog, reqs, actions[..last]), actions[last], i);
      LastCrash(catalog, reqs, actions, i);
      forall k | 0 <= k < last
        ensures CrashesAt(catalog, reqs, actions[..last], k, i) <==> CrashesAt(catalog, reqs, actions, k, i)
      {
        SameCrash(catalog, reqs, actions, last, k, i);
      }
    }
  }

  lemma LastCrash(catalog: Catalog, reqs: seq<Request>, actions: seq<Action>, i: nat)
    requires actions != []
    ensures var last := |actions| - 1;
            CrashesAt(catalog, reqs, actions, last, i)
            <==> CrashStep(reqs, After(catalog, reqs, actions[..last]), actions[last], i)
  {
    hide After, CrashStep;
  }

  lemma SameCrash(catalog: Catalog, reqs: seq<Request>, actions: seq<Action>, n: nat, k: nat, i: nat)
    requires k < n <= |actions|
    ensures CrashesAt(catalog, reqs, actions[..n], k, i) <==> CrashesAt(catalog, reqs, actions, k, i)
  {
    hide After, CrashStep;
    assert actions[..n][..k] == actions[..k];
  }

  /** The `k`-th action ends the request's handler with an exception that is not an API error. */
  ghost predicate ThrewAt(catalog: Catalog, reqs: seq<Request>, actions: seq<Action>, k: nat, i: nat)
    requires k < |actions| && i < |reqs|
  {
    actions[k] == EndHandler(i, Threw) && After(catalog, reqs, actions[..k]).phases[i].Handling?
  }

  /** A request whose If-Match id can be read has crashed exactly when its handler threw. With either authorization
      resolver of the repository this is every request that gets as far as its reservation: both read the same id
      before, and throw while no record is held. */
  lemma HandlerCrashIff(catalog: Catalog, reqs: seq<Request>, actions: seq<Action>, i: nat)
    requires i < |reqs| && !reqs[i].ifMatch.Unresolvable?
    ensures After(catalog, reqs, actions).phases[i].Crashed?
            <==> exists k :: 0 <= k < |actions| && ThrewAt(catalog, reqs, actions, k, i)
  {
    hide After;
    CrashedIff(catalog, reqs, actions, i);
    forall k | 0 <= k < |actions|
      ensures CrashesAt(catalog, reqs, actions, k, i) <==> ThrewAt(catalog, reqs, actions, k, i)
    {
    }
  }

  /** A request on its own crashes exactly when it gets past its reservation and then either its If-Match id cannot be
      read or its check is passed and its handler throws. */
  lemma AloneCrashesIff(catalog: Catalog, r: Request, records: Records, versions: map<Resource, int>, outcome: Outcome)
    ensures var t := Alone(catalog, r, records, versions, outcome);
            |t.phases| == 1 &&
            (t.phases[0].Crashed? <==>
              && ReservePhase(catalog, r, records).1.Holding?
              && match r.ifMatch
                 case Unresolvable => true
                 case NotNeeded => outcome.Threw?
                 case NoHeader(_) => false
                 case Expect(resource, version, _) =>
                   outcome.Threw? && (resource in versions ==> versions[resource] == version))
  {
    hide Alone, ReserveStep, SettledRows, ErrorResponse;
    AloneIs(catalog, r, records, versions, outcome);
  }

  // ----- what a crash does to the key -----

  /** A request that can no longer finish: it has crashed, or it is about to read an If-Match id it cannot read. */
  predicate Doomed(r: Request, p: Phase) {
    p.Crashed? || (p.Holding? && r.ifMatch.Unresolvable?)
  }

  lemma DoomedStep(catalog: Catalog, reqs: seq<Request>, s: State, a: Action, i: nat)
    requires |s.phases| == |reqs| && i < |reqs| && Doomed(reqs[i], s.phases[i])
    ensures Doomed(reqs[i], Next(catalog, reqs, s, a).phases[i])
  {
    hide ReserveStep, CheckStep, Saved, ErrorResponse;
  }

  lemma {:induction false} DoomedStays(catalog: Catalog, reqs: seq<Request>, actions: seq<Action>, more: seq<Action>,
      i: nat)
    requires i < |reqs| && Doomed(reqs[i], After(catalog, reqs, actions).phases[i])
    ensures Doomed(reqs[i], After(catalog, reqs, actions + more).phases[i])
    decreases |more|
  {
    hide Next, Doomed;
    if more == [] {
      assert actions + more == actions;
    } else {
      var init := more[..|more| - 1];
      DoomedStays(catalog, reqs, actions, init, i);
      assert (actions + more)[..|actions + more| - 1] == actions + init;
      DoomedStep(catalog, reqs, After(catalog, reqs, actions + init), more[|more| - 1], i);
    }
  }

  /** The steps that finish any other request. */
  function Finishing(i: nat, response: Response): seq<Action> {
    [MatchVersion(i), StartHandler(i), EndHandler(i, Answered(response)), Save(i)]
  }

  function Finish(catalog: Catalog, reqs: seq<Request>, s: State, i: nat, response: Response): State
    requires |s.phases| == |reqs|
  {
    var t := Next(catalog, reqs, Next(catalog, reqs, s, MatchVersion(i)), StartHandler(i));
    Next(catalog, reqs, Next(catalog, reqs, t, EndHandler(i, Answered(response))), Save(i))
  }

  lemma FinishIs(catalog: Catalog, reqs: seq<Request>, actions: seq<Action>, i: nat, response: Response)
    ensures After(catalog, reqs, actions + Finishing(i, response))
            == Finish(catalog, reqs, After(catalog, reqs, actions), i, response)
  {
    hide Next, After;
    var a1 := actions + [MatchVersion(i)];
    var a2 := a1 + [StartHandler(i)];
    var a3 := a2 + [EndHandler(i, Answered(response))];
    AfterSnoc(catalog, reqs, actions, MatchVersion(i));
    AfterSnoc(catalog, reqs, a1, StartHandler(i));
    AfterSnoc(catalog, reqs, a2, EndHandler(i, Answered(response)));
    AfterSnoc(catalog, reqs, a3, Save(i));
    assert a3 + [Save(i)] == actions + Finishing(i, response);
  }

  lemma AfterSnoc(catalog: Catalog, reqs: seq<Request>, actions: seq<Action>, a: Action)
    ensures After(catalog, reqs, actions + [a]) == Next(catalog, reqs, After(catalog, reqs, actions), a)
  {
    assert (actions + [a])[..|actions|] == actions;
  }

  lemma FinishWorks(catalog: Catalog, reqs: seq<Request>, s: State, i: nat, response: Response)
    requires |s.phases| == |reqs| && i < |reqs| && OnItsOwn(s.phases[i]) && !Doomed(reqs[i], s.phases[i])
    requires s.phases[i].Saving? ==> s.phases[i].record.Some?
    ensures var t := Finish(catalog, reqs, s, i, response);
            && t.phases[i].Finished? && t.phases[i].how == Own
            && forall k :: 0 <= k < |reqs| && k != i ==> t.phases[k] == s.phases[k]
  {
    hide ReserveStep, CheckStep, Saved, ErrorResponse;
  }

  /** Past its own reservation, a request can still finish exactly when it is not doomed. */
  lemma CanFinishIff(catalog: Catalog, reqs: seq<Request>, actions: seq<Action>, i: nat)
    requires i < |reqs| && OnItsOwn(After(catalog, reqs, actions).phases[i])
    ensures (exists more :: After(catalog, reqs, actions + more).phases[i].Finished?)
            <==> !Doomed(reqs[i], After(catalog, reqs, actions).phases[i])
  {
    hide After, Finish;
    var s := After(catalog, reqs, actions);
    if Doomed(reqs[i], s.phases[i]) {
      forall more
        ensures !After(catalog, reqs, actions + more).phases[i].Finished?
      {
        DoomedStays(catalog, reqs, actions, more, i);
      }
    } else {
      FinishesNext(catalog, reqs, actions, i, Response(200, Payload("")));
    }
  }

  lemma FinishesNext(catalog: Catalog, reqs: seq<Request>, actions: seq<Action>, i: nat, response: Response)
    requires i < |reqs| && OnItsOwn(After(catalog, reqs, actions).phases[i])
    requires !Doomed(reqs[i], After(catalog, reqs, actions).phases[i])
    ensures var s := After(catalog, reqs, actions); var t := After(catalog, reqs, actions + Finishing(i, response));
            && t.phases[i].Finished? && t.phases[i].how == Own
            && forall k :: 0 <= k < |reqs| && k != i ==> t.phases[k] == s.phases[k]
  {
    hide After, Finish, Finishing, Distinct, Complete;
    RunKeeps(catalog, reqs, actions);
    var s := After(catalog, reqs, actions);
    assert Fits(catalog, reqs[i], s.phases[i], s.records.rows);
    FinishIs(catalog, reqs, actions, i, response);
    FinishWorks(catalog, reqs, s, i, response);
  }

  /** Two requests under one tenant, operation and key with the same hash. */
  predicate Twins(reqs: seq<Request>, i: nat, j: nat) {
    && i < |reqs| && j < |reqs| && reqs[i].keyed && reqs[j].keyed && SlotOf(reqs[i]) == SlotOf(reqs[j])
    && reqs[i].hash == reqs[j].hash && reqs[j].key.Some? && reqs[j].key.value != ""
  }

  /** The answer that tells a request to wait. */
  function Waiting(catalog: Catalog, r: Request): Phase {
    Finished(None, Rejected, Error(catalog, r, IN_FLIGHT, "idempotency_in_flight"))
  }

  /** A doomed holder wedges its key: every later request with its hash is told to wait, after any further steps. */
  lemma {:induction false} CrashWedges(
    catalog: Catalog, reqs: seq<Request>, actions: seq<Action>, more: seq<Action>, i: nat, j: nat)
    requires Twins(reqs, i, j) && After(catalog, reqs, actions + more).phases[j] == Arrived
    requires OnItsOwn(After(catalog, reqs, actions).phases[i])
             && Doomed(reqs[i], After(catalog, reqs, actions).phases[i])
    ensures After(catalog, reqs, actions + more + [Reserve(j)]).phases[j] == Waiting(catalog, reqs[j])
  {
    hide After;
    DoomedStays(catalog, reqs, actions, more, i);
    LaterRequest(catalog, reqs, actions + more, i, j);
  }

  /** `more` leads to a state in which the waiting request `j` is answered from the record. */
  ghost predicate Serves(catalog: Catalog, reqs: seq<Request>, actions: seq<Action>, more: seq<Action>, j: nat)
    requires j < |reqs|
  {
    && After(catalog, reqs, actions + more).phases[j] == Arrived
    && var p := After(catalog, reqs, actions + more + [Reserve(j)]).phases[j]; p.Finished? && p.how == Replayed
  }

  /** The exact condition: a later request with the holder's hash can still be served exactly when the holder is
      not doomed. */
  lemma ServedIff(catalog: Catalog, reqs: seq<Request>, actions: seq<Action>, i: nat, j: nat)
    requires Twins(reqs, i, j) && After(catalog, reqs, actions).phases[j] == Arrived
    requires OnItsOwn(After(catalog, reqs, actions).phases[i])
    ensures (exists more :: Serves(catalog, reqs, actions, more, j))
            <==> !Doomed(reqs[i], After(catalog, reqs, actions).phases[i])
  {
    hide After, Doomed, Finishing;
    if Doomed(reqs[i], After(catalog, reqs, actions).phases[i]) {
      forall more
        ensures !Serves(catalog, reqs, actions, more, j)
      {
        if After(catalog, reqs, actions + more).phases[j] == Arrived {
          CrashWedges(catalog, reqs, actions, more, i, j);
        }
      }
    } else {
      var more := Finishing(i, Response(200, Payload("")));
      FinishesNext(catalog, reqs, actions, i, Response(200, Payload("")));
      LaterRequest(catalog, reqs, actions + more, i, j);
      assert Serves(catalog, reqs, actions, more, j);
    }
  }

  // ----- both causes occur -----

  /** Any keyed request whose handler throws wedges its key for a repetition of itself. */
  lemma ThrowWedges(catalog: Catalog, r: Request)
    requires r.keyed && r.key.Some? && r.key.value != "" && r.ifMatch == NotNeeded
    ensures var actions := [Reserve(0), MatchVersion(0), StartHandler(0), EndHandler(0, Threw)];
            && After(catalog, [r, r], actions).phases[0].Crashed?
            && After(catalog, [r, r], actions + [Reserve(1)]).phases[1] == Waiting(catalog, r)
  {
    hide After, ReservePhase, Saved;
    var reqs := [r, r];
    var a1 := [Reserve(0)];
    var a2 := a1 + [MatchVersion(0)];
    var a3 := a2 + [StartHandler(0)];
    var a4 := a3 + [EndHandler(0, Threw)];
    AfterReserved(catalog, r);
    AfterSnoc(catalog, reqs, a1, MatchVersion(0));
    assert After(catalog, reqs, a2).phases == [Checked(Some(1)), Arrived];
    AfterSnoc(catalog, reqs, a2, StartHandler(0));
    assert After(catalog, reqs, a3).phases == [Handling(Some(1)), Arrived];
    AfterSnoc(catalog, reqs, a3, EndHandler(0, Threw));
    assert After(catalog, reqs, a4).phases == [Crashed(Some(1)), Arrived];
    assert a4 == [Reserve(0), MatchVersion(0), StartHandler(0), EndHandler(0, Threw)] && a4 + [] == a4;
    CrashWedges(catalog, reqs, a4, [], 0, 1);
  }

  /** So does any keyed request that holds its record when its If-Match id turns out to be unreadable: under an
      authorization resolver that does not read the id itself, or for an entity the runner does not know. */
  lemma UnreadableWedges(catalog: Catalog, r: Request)
    requires r.keyed && r.key.Some? && r.key.value != "" && r.ifMatch == Unresolvable
    ensures var actions := [Reserve(0), MatchVersion(0)];
            && After(catalog, [r, r], actions).phases[0].Crashed?
            && After(catalog, [r, r], actions + [Reserve(1)]).phases[1] == Waiting(catalog, r)
  {
    hide After, ReservePhase, Saved;
    var reqs := [r, r];
    var actions := [Reserve(0), MatchVersion(0)];
    AfterReserved(catalog, r);
    AfterSnoc(catalog, reqs, [Reserve(0)], MatchVersion(0));
    assert [Reserve(0)] + [MatchVersion(0)] == actions && actions + [] == actions;
    assert After(catalog, reqs, actions).phases == [Crashed(Some(1)), Arrived];
    CrashWedges(catalog, reqs, actions, [], 0, 1);
  }

  lemma AfterReserved(catalog: Catalog, r: Request)
    requires r.keyed && r.key.Some? && r.key.value != ""
    ensures After(catalog, [r, r], [Reserve(0)]).phases == [Holding(Some(1)), Arrived]
  {
    assert [Reserve(0)][..0] == [];
  }
}
