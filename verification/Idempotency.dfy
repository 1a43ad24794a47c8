/** The idempotency records and If-Match versions of the control plane (control-plane/fake-request-runner.ts
    `InMemoryControlPlaneIdempotencyStore`, `InMemoryIfMatchCasStore`). */
module Idempotency {
  import opened IrelSyntax

  /** What an idempotency key is unique for. */
  datatype Slot = Slot(tenant: string, operation: string, key: string)

  datatype ApiError = ApiError(code: string, correlation: string, details: string)

  datatype Body = Payload(text: string) | ErrorBody(error: ApiError)

  datatype Response = Response(status: int, body: Body)

  datatype Status = Processing | Succeeded | Failed

  datatype Record = Record(id: nat, hash: string, status: Status, response: Option<Response>, error: Option<ApiError>)

  datatype Reservation = Reserved(id: nat) | Blocked | InFlight(id: nat) | Replay(response: Response)

  datatype Records = Records(rows: map<Slot, Record>, sequence: nat)

  /** The error catalogue: the status of each code. */
  type Catalog = string -> int

  /** An error answer has the status its code stands for in the catalogue. */
  function ErrorResponse(catalog: Catalog, error: ApiError): Response {
    Response(catalog(error.code), ErrorBody(error))
  }

  function ReserveStep(s: Records, slot: Slot, hash: string): (Records, Reservation) {
    if slot !in s.rows then
      var row := Record(s.sequence + 1, hash, Processing, None, None);
      (Records(s.rows[slot := row], s.sequence + 1), Reserved(row.id))
    else
      var row := s.rows[slot];
      (s, if row.hash != hash then Blocked
          else if row.status == Processing then InFlight(row.id)
          else if row.response.Some? then Replay(row.response.value)
          else if row.error.Some? then Replay(Response(500, ErrorBody(row.error.value)))
          else InFlight(row.id))
  }

  /** The rows after a response is saved under a record. */
  function WithResult(rows: map<Slot, Record>, id: nat, response: Response): map<Slot, Record> {
    map k | k in rows :: if rows[k].id == id then rows[k].(status := Succeeded, response := Some(response)) else rows[k]
  }

  /** The rows after an error is saved under a record, with the answer it stands for. */
  function WithFailure(catalog: Catalog, rows: map<Slot, Record>, id: nat, error: ApiError): map<Slot, Record> {
    map k | k in rows ::
      if rows[k].id == id
      then rows[k].(status := Failed, error := Some(error), response := Some(ErrorResponse(catalog, error)))
      else rows[k]
  }

  /** Every record has its own id, already used up. */
  predicate Distinct(s: Records) {
    && (forall k :: k in s.rows ==> 0 < s.rows[k].id <= s.sequence)
    && (forall j, k :: j in s.rows && k in s.rows && s.rows[j].id == s.rows[k].id ==> j == k)
  }

  ghost predicate Known(rows: map<Slot, Record>, id: nat) {
    exists k :: k in rows && rows[k].id == id
  }

  /** The rows after a release: a record still in process is dropped, others stay. */
  function Without(rows: map<Slot, Record>, id: nat): map<Slot, Record> {
    map k | k in rows && !(rows[k].id == id && rows[k].status == Processing) :: rows[k]
  }

  class Store {
    var rows: map<Slot, Record>
    var sequence: nat

    ghost predicate Valid()
      reads this
    {
      Distinct(Records(rows, sequence))
    }

    constructor ()
      ensures Valid() && rows == map[] && sequence == 0
    {
      rows, sequence := map[], 0;
    }

    method Reserve(slot: Slot, hash: string) returns (answer: Reservation)
      requires Valid()
      modifies this
      ensures Valid() && (Records(rows, sequence), answer) == ReserveStep(old(Records(rows, sequence)), slot, hash)
    {
      if slot !in rows {
        sequence := sequence + 1;
        rows := rows[slot := Record(sequence, hash, Processing, None, None)];
        return Reserved(sequence);
      }
      var existing := rows[slot];
      if existing.hash != hash {
        return Blocked;
      }
      if existing.status == Processing {
        return InFlight(existing.id);
      }
      if existing.response.Some? {
        return Replay(existing.response.value);
      }
      if existing.error.Some? {
        return Replay(Response(500, ErrorBody(existing.error.value)));
      }
      answer := InFlight(existing.id);
    }

    /** Looks through the rows for a record. */
    method FindByRecordId(id: nat) returns (found: Option<Slot>)
      ensures found.Some? ==> found.value in rows && rows[found.value].id == id
      ensures found.None? <==> !Known(rows, id)
    {
      var todo := rows.Keys;
      while todo != {}
        invariant todo <= rows.Keys
        invariant forall k :: k in rows && rows[k].id == id ==> k in todo
        decreases todo
      {
        var k :| k in todo;
        if rows[k].id == id {
          return Some(k);
        }
        todo := todo - {k};
      }
      found := None;
    }

    /** Saves a response under its record; false stands for the error thrown when there is none. */
    method SaveResult(id: nat, response: Response) returns (ok: bool)
      requires Valid()
      modifies this`rows
      ensures Valid() && ok == Known(old(rows), id)
      ensures rows == WithResult(old(rows), id, response)
    {
      var found := FindByRecordId(id);
      ok := found.Some?;
      if ok {
        rows := rows[found.value := rows[found.value].(status := Succeeded, response := Some(response))];
      }
    }

    method SaveFailure(catalog: Catalog, id: nat, error: ApiError) returns (ok: bool)
      requires Valid()
      modifies this`rows
      ensures Valid() && ok == Known(old(rows), id)
      ensures rows == WithFailure(catalog, old(rows), id, error)
    {
      var found := FindByRecordId(id);
      ok := found.Some?;
      if ok {
        var row := rows[found.value].(status := Failed, error := Some(error));
        rows := rows[found.value := row.(response := Some(Response(catalog(error.code), ErrorBody(error))))];
      }
    }

    method Release(id: nat)
      requires Valid()
      modifies this`rows
      ensures Valid() && rows == Without(old(rows), id)
    {
      var todo := rows.Keys;
      while todo != {}
        invariant todo <= rows.Keys && rows == old(rows)
        invariant forall k :: k in rows && rows[k].id == id && rows[k].status == Processing ==> k in todo
        decreases todo
      {
        var k :| k in todo;
        if rows[k].id == id && rows[k].status == Processing {
          rows := map j | j in rows && j != k :: rows[j];
          return;
        }
        todo := todo - {k};
      }
    }
  }

  /** A slot can be reserved afresh after a release exactly when it was free or its record was in process: a finished
      record survives its release. */
  lemma ReleaseReopens(s: Records, slot: Slot, hash: string, id: nat)
    requires Distinct(s)
    ensures var after := s.(rows := Without(s.rows, id));
            ReserveStep(after, slot, hash).1.Reserved? <==>
            slot !in s.rows || (s.rows[slot].id == id && s.rows[slot].status == Processing)
  {
  }

  // ----- If-Match -----

  datatype Resource = Resource(tenant: string, entity: string, id: string)

  datatype Decision = Match(current: int, next: int) | Conflict(current: int)

  /** The first check of a resource takes whatever version it expects. */
  function CheckStep(versions: map<Resource, int>, r: Resource, expected: int): (map<Resource, int>, Decision) {
    var current := if r in versions then versions[r] else expected;
    if current != expected then (versions, Conflict(current))
    else (versions[r := current + 1], Match(current, current + 1))
  }

  class IfMatchStore {
    var versions: map<Resource, int>

    constructor ()
      ensures versions == map[]
    {
      versions := map[];
    }

    method Check(r: Resource, expected: int) returns (decision: Decision)
      modifies this
      ensures (versions, decision) == CheckStep(old(versions), r, expected)
    {
      var current := if r in versions then versions[r] else expected;
      if current != expected {
        return Conflict(current);
      }
      versions := versions[r := current + 1];
      decision := Match(current, current + 1);
    }
  }
}
