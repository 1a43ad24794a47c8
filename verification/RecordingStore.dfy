/** The recording sessions of the control plane (control-plane/minimal-handlers.ts
    `appendBrowserRecordingEvents`, `completeBrowserRecording`): numbering of events and completion. */
module RecordingStore {
  import opened IrelSyntax
  import opened Decimals
  import opened Scenarios
  import opened ScenarioCompile
  import opened Recording

  type Key = (string, string)

  datatype Status = Active | Completed

  datatype Session = Session(status: Status, eventCount: nat, draft: Option<Scenario>, report: Option<Report>)

  /** An event and the tenant and session it belongs to. */
  datatype Stored = Stored(key: Key, event: Event)

  function SessionId(k: nat): string { "recording-" + Decimal(k) }

  lemma SessionIdDistinct(j: nat, k: nat)
    requires SessionId(j) == SessionId(k)
    ensures j == k
  {
    assert SessionId(j)[10..] == Decimal(j) && SessionId(k)[10..] == Decimal(k);
    DecimalValue(j);
    DecimalValue(k);
  }

  /** `id` is one of the first `n` session ids. */
  ghost predicate Issued(id: string, n: nat) {
    exists k: nat :: k <= n && id == SessionId(k)
  }

  lemma NotIssued(n: nat)
    requires n > 0
    ensures !Issued(SessionId(n), n - 1)
  {
    if Issued(SessionId(n), n - 1) {
      var k: nat :| k <= n - 1 && SessionId(n) == SessionId(k);
      SessionIdDistinct(n, k);
      assert false;
    }
  }

  /** The events of one session, in log order. */
  function EventsOf(log: seq<Stored>, key: Key): seq<Event> {
    if log == [] then []
    else
      EventsOf(log[..|log| - 1], key) + if log[|log| - 1].key == key then [log[|log| - 1].event] else []
  }

  /** Events numbered 1, 2, 3, ... */
  predicate Consecutive(events: seq<Event>) {
    forall i :: 0 <= i < |events| ==> events[i].number == i + 1
  }

  lemma ConsecutiveNumbered(events: seq<Event>)
    requires Consecutive(events)
    ensures Recording.Numbered(events)
  {
  }

  lemma EventsOfSnoc(log: seq<Stored>, x: Stored, key: Key)
    ensures EventsOf(log + [x], key) == EventsOf(log, key) + if x.key == key then [x.event] else []
  {
    assert (log + [x])[..|log|] == log;
  }

  /** The largest event number of a session, 0 when it has none. */
  method LastNumber(log: seq<Stored>, key: Key) returns (max: nat)
    ensures Consecutive(EventsOf(log, key)) ==> max == |EventsOf(log, key)|
  {
    max := 0;
    assert log[..0] == [];
    for i := 0 to |log|
      invariant Consecutive(EventsOf(log[..i], key)) ==> max == |EventsOf(log[..i], key)|
    {
      assert log[..i + 1] == log[..i] + [log[i]];
      EventsOfSnoc(log[..i], log[i], key);
      ghost var before := EventsOf(log[..i], key);
      if Consecutive(EventsOf(log[..i + 1], key)) {
        assert forall k :: 0 <= k < |before| ==> before[k] == EventsOf(log[..i + 1], key)[k];
        assert Consecutive(before);
        assert log[i].key == key ==> EventsOf(log[..i + 1], key)[|before|] == log[i].event;
      }
      if log[i].key == key && log[i].event.number > max { max := log[i].event.number; }
    }
    assert log[..|log|] == log;
  }

  /** Appends the items to the log under the next numbers. */
  method AppendNumbered(log: seq<Stored>, key: Key, raw: seq<Option<Event>>, start: nat)
      returns (grown: seq<Stored>, last: nat)
    requires None !in raw && Consecutive(EventsOf(log, key)) && start == |EventsOf(log, key)|
    ensures last == |EventsOf(grown, key)| == |EventsOf(log, key)| + |raw|
    ensures Consecutive(EventsOf(grown, key)) && EventsOf(log, key) <= EventsOf(grown, key)
    ensures forall other :: other != key ==> EventsOf(grown, other) == EventsOf(log, other)
    ensures log <= grown && forall j :: |log| <= j < |grown| ==> grown[j].key == key
    ensures forall k :: 0 <= k < |raw| ==>
              raw[k].Some? && EventsOf(grown, key)[start + k] == raw[k].value.(number := start + k + 1)
  {
    hide EventsOf;
    grown, last := log, start;
    for i := 0 to |raw|
      invariant last == |EventsOf(grown, key)| == |EventsOf(log, key)| + i
      invariant Consecutive(EventsOf(grown, key)) && EventsOf(log, key) <= EventsOf(grown, key)
      invariant forall other :: other != key ==> EventsOf(grown, other) == EventsOf(log, other)
      invariant log <= grown && forall j :: |log| <= j < |grown| ==> grown[j].key == key
      invariant forall k :: 0 <= k < i ==>
                  raw[k].Some? && EventsOf(grown, key)[start + k] == raw[k].value.(number := start + k + 1)
    {
      assert raw[i] in raw;
      last := last + 1;
      var stored := Stored(key, raw[i].value.(number := last));
      forall other
        ensures EventsOf(grown + [stored], other)
                == EventsOf(grown, other) + if other == key then [stored.event] else []
      {
        EventsOfSnoc(grown, stored, other);
      }
      grown := grown + [stored];
    }
  }

  lemma {:induction false} NoEvents(log: seq<Stored>, key: Key)
    requires forall i :: 0 <= i < |log| ==> log[i].key != key
    ensures EventsOf(log, key) == []
    decreases |log|
  {
    if log != [] {
      NoEvents(log[..|log| - 1], key);
    }
  }

  /** A completed session holds the draft of its own events and the report that goes with it. */
  ghost predicate Justified(session: Session, events: seq<Event>) {
    session.draft.Some? && IsDraft(session.draft.value, events) && session.report == Some(Report([], []))
  }

  lemma JustifiedSession(draft: Scenario, events: seq<Event>)
    requires IsDraft(draft, events)
    ensures Justified(Session(Completed, |events|, Some(draft), Some(Report([], []))), events)
  {
    hide IsDraft;
  }

  /** The stored report is the one the validator gives for the stored draft. */
  lemma JustifiedReport(session: Session, events: seq<Event>)
    requires Justified(session, events)
    ensures session.draft.value.Valid() && Accepted(session.draft.value) && Quiet(session.draft.value)
  {
    DraftPassesValidation(session.draft.value, events);
  }

  /** No parameter of a stored session is required twice. */
  lemma SessionRequiresOnce(events: seq<Event>)
    requires Consecutive(events)
    ensures NoRepeats(Required(events))
  {
    hide Required;
    ConsecutiveNumbered(events);
    forall i, j | 0 <= i < j < |Required(events)|
      ensures Required(events)[i] != Required(events)[j]
    {
      RequiredOnce(events, i, j);
    }
  }

  class Recordings {
    var sessions: map<Key, Session>
    var log: seq<Stored>
    var sequence: nat

    constructor ()
      ensures Valid() && sessions == map[] && log == []
    {
      sessions, log, sequence := map[], [], 0;
    }

    ghost predicate Valid()
      reads this
    {
      && (forall key :: key in sessions ==>
            Consecutive(EventsOf(log, key)) && sessions[key].eventCount == |EventsOf(log, key)|)
      && (forall key :: key in sessions && sessions[key].status == Completed ==>
            Justified(sessions[key], EventsOf(log, key)))
      && (forall i :: 0 <= i < |log| ==> log[i].key in sessions)
      && (forall key :: key in sessions ==> Issued(key.1, sequence))
    }

    /** `startBrowserRecording`: the counter makes the session new. */
    method Start(tenant: string) returns (key: Key)
      requires Valid()
      modifies this
      ensures Valid() && log == old(log)
      ensures key.0 == tenant && key !in old(sessions)
      ensures sessions == old(sessions)[key := Session(Active, 0, None, None)]
    {
      hide Justified, SessionId;
      sequence := sequence + 1;
      key := (tenant, SessionId(sequence));
      assert key !in sessions by { NotIssued(sequence); }
      assert EventsOf(log, key) == [] by { NoEvents(log, key); }
      forall other | other in sessions
        ensures Issued(other.1, sequence)
      {
        var k: nat :| k <= old(sequence) && other.1 == SessionId(k);
      }
      sessions := sessions[key := Session(Active, 0, None, None)];
    }

    /** `appendBrowserRecordingEvents`; a malformed item is `None`. Nothing is recorded unless all items are well
        formed. */
    method Append(key: Key, raw: seq<Option<Event>>) returns (ok: bool)
      requires Valid()
      modifies this
      ensures Valid()
      ensures ok <==> key in old(sessions) && old(sessions)[key].status == Active && raw != [] && None !in raw
      ensures !ok ==> log == old(log) && sessions == old(sessions)
      ensures ok ==> |EventsOf(log, key)| == |EventsOf(old(log), key)| + |raw|
      ensures ok ==> forall k :: 0 <= k < |raw| ==>
                raw[k].Some? &&
                var at := |EventsOf(old(log), key)| + k; EventsOf(log, key)[at] == raw[k].value.(number := at + 1)
      ensures EventsOf(old(log), key) <= EventsOf(log, key)
      ensures forall other :: other != key ==> EventsOf(log, other) == EventsOf(old(log), other)
      ensures sessions.Keys == old(sessions).Keys
      ensures forall other :: other in sessions && other != key ==> sessions[other] == old(sessions)[other]
    {
      hide IsDraft, EventsOf, Consecutive, Justified, Issued;
      if key !in sessions || sessions[key].status != Active || raw == [] || None in raw {
        return false;
      }
      var nextSeq := LastNumber(log, key);
      var grown, last := AppendNumbered(log, key, raw, nextSeq);
      log := grown;
      sessions := sessions[key := sessions[key].(eventCount := last)];
      return true;
    }

    /** `completeBrowserRecording`: the session's events are already in number order, so sorting them
        leaves them as they are. Writes the draft and, unchecked, an empty report. */
    method Complete(key: Key) returns (ok: bool)
      requires Valid()
      modifies this
      ensures Valid() && log == old(log) && sessions.Keys == old(sessions).Keys
      ensures ok <==> key in old(sessions)
      ensures !ok ==> sessions == old(sessions)
      ensures ok ==> sessions[key].status == Completed && Justified(sessions[key], EventsOf(log, key))
      ensures ok ==> NoRepeats(Required(EventsOf(log, key)))
      ensures forall other :: other in sessions && other != key ==> sessions[other] == old(sessions)[other]
    {
      hide IsDraft, EventsOf, Consecutive, Justified, Issued, Required, NoRepeats;
      if key !in sessions { return false; }
      var mine := EventsOf(log, key);
      var draft := DraftIrFromRecording(mine);
      var session := Session(Completed, |mine|, Some(draft), Some(Report([], [])));
      assert Justified(session, mine) by { JustifiedSession(draft, mine); }
      SessionRequiresOnce(mine);
      sessions := sessions[key := session];
      return true;
    }
  }
}
