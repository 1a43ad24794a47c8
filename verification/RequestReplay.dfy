/** The request hash and the idempotency protocol together. The hash is taken to be collision-free, so that requests
    are compared by their canonical text. */
module RequestReplay {
  import opened IrelSyntax
  import opened CanonicalJson
  import opened CanonicalTheorem
  import opened Idempotency
  import RequestRunner

  /** A request before it is hashed. */
  datatype Call<N> = Call(verb: string, path: string, body: Doc<N>)

  ghost predicate Hashed<N>(r: RequestRunner.Request, c: Call<N>, digits: N -> string) {
    WellFormed(c.body) && r.hash == Canonical(CanonicalTheorem.Request(c.verb, c.path, c.body), digits)
  }

  /** Once a keyed request has finished, a later one under the same tenant, operation and key is given its answer
      exactly when it has the same method and path and the same body up to the order of keys. */
  lemma ReplayedIff<N(!new)>(
    catalog: Catalog, reqs: seq<RequestRunner.Request>, actions: seq<RequestRunner.Action>, i: nat, j: nat,
    c: Call<N>, d: Call<N>, digits: N -> string)
    requires NumberPrinter(digits) && i < |reqs| && j < |reqs| && Hashed(reqs[i], c, digits)
             && Hashed(reqs[j], d, digits)
    requires reqs[i].keyed && reqs[j].keyed && RequestRunner.SlotOf(reqs[i]) == RequestRunner.SlotOf(reqs[j])
    requires reqs[j].key.Some? && reqs[j].key.value != ""
    requires var s := RequestRunner.After(catalog, reqs, actions);
             s.phases[i].Finished? && s.phases[i].how == RequestRunner.Own && s.phases[j] == RequestRunner.Arrived
    ensures var s := RequestRunner.After(catalog, reqs, actions);
            var t := RequestRunner.After(catalog, reqs, actions + [RequestRunner.Action.Reserve(j)]);
            t.phases[j] == RequestRunner.Finished(None, RequestRunner.Replayed, s.phases[i].response)
            <==> c.verb == d.verb && c.path == d.path && Same(c.body, d.body)
  {
    hide RequestRunner.After, Canonical, Same, NumberPrinter, WellFormed;
    RequestIff(c.verb, c.path, c.body, d.verb, d.path, d.body, digits);
    RequestRunner.LaterRequest(catalog, reqs, actions, i, j);
  }
}
