/**
One open stream: what each poll of a connection sends, and what the map at the other end then shows.

Receive times are whole microseconds since 1970-01-01, as the database keeps them and as event ids
carry them; evaluation instants are nanoseconds.
*/
module LiveStream {
  import opened Options
  import opened Presentation
  import opened Sequences

  // Device ids are only compared; a number stands for an id's place in byte order.
  type DeviceId = nat
  type Place(==, !new)

  // ---- the stored fixes, and what one read of a family returns ------------------------------------

  datatype Fix = Fix(received: int, place: Place)

  // A device's fixes, by the device's own event time.
  type Fixes = map<int, Fix>

  datatype Position = Position(ts: int, received: int, place: Place)

  datatype DeviceState = DeviceState(device: DeviceId, current: Option<Position>, contact: Option<int>)

  // The current position is the newest fix by event time; last contact is the newest arrival of any.
  ghost predicate Describes(s: DeviceState, fixes: Fixes) {
    && (s.current.None? <==> fixes == map[])
    && (s.contact.None? <==> fixes == map[])
    && (s.current.Some? ==>
          && s.current.value.ts in fixes
          && fixes[s.current.value.ts] == Fix(s.current.value.received, s.current.value.place)
          && (forall ts :: ts in fixes ==> ts <= s.current.value.ts))
    && (s.contact.Some? ==>
          && (exists ts :: ts in fixes && fixes[ts].received == s.contact.value)
          && (forall ts :: ts in fixes ==> fixes[ts].received <= s.contact.value))
  }

  ghost predicate Distinct(states: seq<DeviceState>) {
    Keyed(states, (s: DeviceState) => s.device)
  }

  // One row for every device of the family, in no particular order.
  ghost predicate ReadOf(states: seq<DeviceState>, family: map<DeviceId, Fixes>) {
    && Distinct(states)
    && (forall i :: 0 <= i < |states| ==> states[i].device in family && Describes(states[i], family[states[i].device]))
    && (forall d :: d in family ==> exists i :: 0 <= i < |states| && states[i].device == d)
  }

  // ---- arrival order ---------------------------------------------------------------------------------

  predicate ArrivesBefore(a: DeviceState, b: DeviceState) {
    if a.current.None? && b.current.None? then a.device < b.device
    else if a.current.None? then true
    else if b.current.None? then false
    else if a.current.value.received != b.current.value.received then
      a.current.value.received < b.current.value.received
    else a.device < b.device
  }

  function Insert(x: DeviceState, states: seq<DeviceState>): seq<DeviceState> {
    if states == [] then [x]
    else if ArrivesBefore(x, states[0]) then [x] + states
    else [states[0]] + Insert(x, states[1..])
  }

  function SortByArrival(states: seq<DeviceState>): seq<DeviceState> {
    if states == [] then [] else Insert(states[0], SortByArrival(states[1..]))
  }

  ghost predicate InArrivalOrder(states: seq<DeviceState>) {
    forall i, j :: 0 <= i < j < |states| ==> !ArrivesBefore(states[j], states[i])
  }

  // The same rows in another order.
  ghost predicate SameRows(a: seq<DeviceState>, b: seq<DeviceState>) {
    && |a| == |b|
    && multiset(a) == multiset(b)
  }

  lemma FirstInOrder(x: DeviceState, states: seq<DeviceState>)
    requires InArrivalOrder(states) && forall i :: 0 <= i < |states| ==> !ArrivesBefore(states[i], x)
    ensures InArrivalOrder([x] + states)
  {
    hide ArrivesBefore;
    var r := [x] + states;
    forall i, j | 0 <= i < j < |r| ensures !ArrivesBefore(r[j], r[i]) {
      assert i > 0 ==> !ArrivesBefore(states[j - 1], states[i - 1]);
    }
  }

  lemma NotBeforeEither(a: DeviceState, b: DeviceState, c: DeviceState)
    ensures ArrivesBefore(a, b) && !ArrivesBefore(c, b) ==> !ArrivesBefore(c, a)
  {
  }

  lemma {:induction false} InsertKeeps(x: DeviceState, states: seq<DeviceState>)
    requires InArrivalOrder(states)
    ensures SameRows(Insert(x, states), [x] + states) && InArrivalOrder(Insert(x, states))
  {
    if states == [] {
    } else if ArrivesBefore(x, states[0]) {
      forall i | 0 <= i < |states| ensures !ArrivesBefore(states[i], x) {
        NotBeforeEither(x, states[0], states[i]);
      }
      FirstInOrder(x, states);
    } else {
      var rest := states[1..];
      assert states == [states[0]] + rest;
      assert forall i :: 0 <= i < |rest| ==> rest[i] == states[i + 1];
      InsertKeeps(x, rest);
      hide ArrivesBefore;
      var inserted := Insert(x, rest);
      forall i | 0 <= i < |inserted| ensures !ArrivesBefore(inserted[i], states[0]) {
        InsertedOrOld(x, rest, i);
      }
      FirstInOrder(states[0], inserted);
    }
  }

  lemma InsertedOrOld(x: DeviceState, rest: seq<DeviceState>, i: nat)
    requires SameRows(Insert(x, rest), [x] + rest) && i < |Insert(x, rest)|
    ensures Insert(x, rest)[i] == x || exists j :: 0 <= j < |rest| && rest[j] == Insert(x, rest)[i]
  {
    assert Insert(x, rest)[i] in multiset([x] + rest);
  }

  lemma {:induction false} SortSorts(states: seq<DeviceState>)
    ensures SameRows(SortByArrival(states), states) && InArrivalOrder(SortByArrival(states))
  {
    if states != [] {
      SortSorts(states[1..]);
      InsertKeeps(states[0], SortByArrival(states[1..]));
      assert states == [states[0]] + states[1..];
    }
  }

  /** The arrival order, in plain comparisons: rows without a position first, by device; then by arrival, and
      equal arrivals by device. */
  lemma SortIsByArrival(states: seq<DeviceState>, i: nat, j: nat)
    requires i < j < |states|
    ensures var sorted := SortByArrival(states);
            |sorted| == |states| &&
            match (sorted[i].current, sorted[j].current)
            case (None, None) => sorted[i].device <= sorted[j].device
            case (None, Some(_)) => true
            case (Some(_), None) => false
            case (Some(a), Some(b)) =>
              a.received <= b.received && (a.received == b.received ==> sorted[i].device <= sorted[j].device)
  {
    SortSorts(states);
    hide SortByArrival;
    assert !ArrivesBefore(SortByArrival(states)[j], SortByArrival(states)[i]);
  }

  // ---- what a poll sends -------------------------------------------------------------------------------

  // The `data` of an event: a full entry, a freshness update without coordinates, or no position at all.
  datatype Payload = Located(position: Position, value: Value, contact: int)
                   | Update(value: Value, contact: int)
                   | Unlocated

  datatype Event = PositionEvent(id: int, device: DeviceId, payload: Payload)
                 | PresentationEvent(device: DeviceId, payload: Payload)
                 | ErrorEvent

  function Nanos(micros: Option<int>): Option<int> {
    match micros case None => None case Some(m) => Some(1000 * m)
  }

  function ValueOf(s: DeviceState, at: int, w: Windows): Value {
    Evaluate(at, Nanos(s.contact), w)
  }

  function EntryFor(s: DeviceState, at: int, w: Windows): Payload {
    var value := ValueOf(s, at, w);
    if s.current.None? || value == NoPosition then Unlocated
    else Located(s.current.value, value, Unix(1000 * s.contact.value))
  }

  function PresentationPayloadFor(s: DeviceState, at: int, w: Windows): Payload {
    var value := ValueOf(s, at, w);
    if s.current.None? || value == NoPosition then Unlocated
    else Update(value, Unix(1000 * s.contact.value))
  }

  // The current position arrived strictly after the cursor.
  predicate Newer(s: DeviceState, since: int) {
    s.current.Some? && s.current.value.received > since
  }

  // The position events owed to the first n rows, against the cursor as the poll began.
  function Positions(states: seq<DeviceState>, since: int, at: int, w: Windows, n: nat): seq<Event>
    requires n <= |states|
  {
    if n == 0 then []
    else if Newer(states[n - 1], since) then
      Positions(states, since, at, w, n - 1)
      + [PositionEvent(states[n - 1].current.value.received, states[n - 1].device, EntryFor(states[n - 1], at, w))]
    else Positions(states, since, at, w, n - 1)
  }

  // Where they leave the cursor.
  function SinceAfter(states: seq<DeviceState>, since: int, n: nat): int
    requires n <= |states|
  {
    if n == 0 then since
    else if Newer(states[n - 1], since) then states[n - 1].current.value.received
    else SinceAfter(states, since, n - 1)
  }

  function Positioned(states: seq<DeviceState>, since: int, n: nat): set<DeviceId>
    requires n <= |states|
  {
    if n == 0 then {}
    else if Newer(states[n - 1], since) then Positioned(states, since, n - 1) + {states[n - 1].device}
    else Positioned(states, since, n - 1)
  }

  // Which comparison decides who is owed a presentation event.
  datatype Why = Snapshot
               | Resume(asOf: map<DeviceId, int>, cursor: int)
               | Recovery
               | Steady(prev: map<DeviceId, Option<int>>, prevAt: int)

  predicate Owes(why: Why, s: DeviceState, at: int, w: Windows) {
    match why
    case Snapshot => ValueOf(s, at, w) == NoPosition
    case Resume(asOf, cursor) =>
      s.device !in asOf || Evaluate(1000 * cursor, Nanos(Some(asOf[s.device])), w) != ValueOf(s, at, w)
    case Recovery => true
    case Steady(prev, prevAt) =>
      s.device in prev && Evaluate(prevAt, Nanos(prev[s.device]), w) != ValueOf(s, at, w)
  }

  function Owed(why: Why, states: seq<DeviceState>, positioned: set<DeviceId>, at: int, w: Windows,
      n: nat): seq<DeviceState>
    requires n <= |states|
  {
    if n == 0 then []
    else if states[n - 1].device !in positioned && Owes(why, states[n - 1], at, w) then
      Owed(why, states, positioned, at, w, n - 1) + [states[n - 1]]
    else Owed(why, states, positioned, at, w, n - 1)
  }

  function Told(owed: seq<DeviceState>, at: int, w: Windows, n: nat): seq<Event>
    requires n <= |owed|
  {
    if n == 0 then []
    else Told(owed, at, w, n - 1) + [PresentationEvent(owed[n - 1].device, PresentationPayloadFor(owed[n - 1], at, w))]
  }

  function Observed(states: seq<DeviceState>, n: nat): map<DeviceId, Option<int>>
    requires n <= |states|
  {
    if n == 0 then map[] else Observed(states, n - 1)[states[n - 1].device := states[n - 1].contact]
  }

  // The id of the last position event, or what it was before them.
  function LastId(events: seq<Event>, before: int): int {
    if events == [] then before
    else
      var e := events[|events| - 1];
      if e.PositionEvent? then e.id else LastId(events[..|events| - 1], before)
  }

  lemma {:induction false} PositionsPrefix(states: seq<DeviceState>, since: int, at: int, w: Windows, i: nat, n: nat)
    requires i <= n <= |states|
    ensures Positions(states, since, at, w, i) <= Positions(states, since, at, w, n)
    decreases n - i
  {
    hide EntryFor;
    if i < n {
      PositionsPrefix(states, since, at, w, i, n - 1);
    }
  }

  lemma {:induction false} SinceIsLastId(states: seq<DeviceState>, since: int, at: int, w: Windows, n: nat)
    requires n <= |states|
    ensures LastId(Positions(states, since, at, w, n), since) == SinceAfter(states, since, n)
  {
    hide EntryFor;
    if n > 0 {
      SinceIsLastId(states, since, at, w, n - 1);
      var before := Positions(states, since, at, w, n - 1);
      assert Newer(states[n - 1], since) ==> Positions(states, since, at, w, n)[..|before|] == before;
    }
  }

  // A write that fails after i rows: what was written is a beginning of what was owed.
  lemma CutAt(states: seq<DeviceState>, since: int, at: int, w: Windows, i: nat)
    requires i < |states| && Newer(states[i], since)
    ensures var sent := Positions(states, since, at, w, i);
            var all := Positions(states, since, at, w, |states|);
            |sent| < |all| && all[..|sent|] == sent && LastId(sent, since) == SinceAfter(states, since, i)
  {
    hide EntryFor;
    PositionsPrefix(states, since, at, w, i, i + 1);
    PositionsPrefix(states, since, at, w, i + 1, |states|);
    PositionsPrefix(states, since, at, w, i, |states|);
    SinceIsLastId(states, since, at, w, i);
  }

  lemma {:induction false} ToldFirst(owed: seq<DeviceState>, at: int, w: Windows, i: nat, n: nat)
    requires i <= n <= |owed|
    ensures |Told(owed, at, w, n)| == n && Told(owed, at, w, n)[..i] == Told(owed, at, w, i)
  {
    hide PresentationPayloadFor;
    if i < n {
      ToldFirst(owed, at, w, i, n - 1);
    } else {
      ToldLength(owed, at, w, n);
    }
  }

  lemma {:induction false} ToldLength(owed: seq<DeviceState>, at: int, w: Windows, n: nat)
    requires n <= |owed|
    ensures |Told(owed, at, w, n)| == n
  {
    if n > 0 {
      ToldLength(owed, at, w, n - 1);
    }
  }

  // No position event says anything about the cursor.
  lemma {:induction false} ToldKeepsLastId(sent: seq<Event>, owed: seq<DeviceState>, at: int, w: Windows, n: nat,
      before: int)
    requires n <= |owed|
    ensures LastId(sent + Told(owed, at, w, n), before) == LastId(sent, before)
  {
    hide PresentationPayloadFor;
    if n == 0 {
      assert sent + [] == sent;
    } else {
      ToldKeepsLastId(sent, owed, at, w, n - 1, before);
      var all := sent + Told(owed, at, w, n);
      assert all[..|all| - 1] == sent + Told(owed, at, w, n - 1);
    }
  }

  // ---- one connection -----------------------------------------------------------------------------------

  // The cursor, the instant the client resumed from, the previous observation, and the health.
  datatype Conn = Conn(since: int, cursor: int, resuming: bool, swept: bool,
                       prev: map<DeviceId, Option<int>>, prevAt: int, degraded: bool)

  // What a poll finds: the family's rows, the same rows by name, and, for a resume, the past contacts.
  datatype Reading = Reading(states: seq<DeviceState>, named: seq<DeviceState>, asOf: Option<map<DeviceId, int>>)

  function Reported(c: Conn): (Conn, seq<Event>) {
    (c.(degraded := true), if c.degraded then [] else [ErrorEvent])
  }

  function WhyOf(c: Conn, asOf: map<DeviceId, int>): Why {
    if !c.swept && c.resuming then Resume(asOf, c.cursor)
    else if !c.swept then Snapshot
    else if c.degraded then Recovery
    else Steady(c.prev, c.prevAt)
  }

  // A poll, as a function from the connection to the connection after it and the events it wrote.
  function Polled(c: Conn, w: Windows, found: Option<Reading>, at: int): (Conn, seq<Event>) {
    if found.None? then Reported(c)
    else
      var r := found.value;
      var states := SortByArrival(r.states);
      var n := |states|;
      var sent := Positions(states, c.since, at, w, n);
      var moved := c.(since := SinceAfter(states, c.since, n), degraded := false);
      if !c.swept && c.resuming && r.asOf.None? then
        (Reported(moved).0, sent + Reported(moved).1)
      else
        var why := WhyOf(c, if r.asOf.Some? then r.asOf.value else map[]);
        var owed := Owed(why, r.named, Positioned(states, c.since, n), at, w, |r.named|);
        (moved.(swept := true, prev := Observed(r.named, |r.named|), prevAt := at), sent + Told(owed, at, w, |owed|))
  }

  // The zero time, in microseconds.
  const ZERO_TIME := -62135596800000000

  const FRESH := Conn(ZERO_TIME, ZERO_TIME, false, false, map[], 0, false)

  class StreamConn {
    const windows: Windows
    var since: int
    const cursorInstant: int
    const resuming: bool
    var swept: bool
    var prev: map<DeviceId, Option<int>>
    var prevAt: int
    var degraded: bool
    var written: seq<Event>

    ghost function Model(): Conn
      reads this
    {
      Conn(since, cursorInstant, resuming, swept, prev, prevAt, degraded)
    }

    /** A connection that resumes starts from the client's cursor; any other from the zero time. */
    constructor (w: Windows, cursor: Option<int>)
      ensures windows == w && written == []
      ensures Model() == if cursor.Some?
                         then FRESH.(since := cursor.value, cursor := cursor.value, resuming := true)
                         else FRESH
    {
      windows := w;
      cursorInstant := if cursor.Some? then cursor.value else ZERO_TIME;
      since := if cursor.Some? then cursor.value else ZERO_TIME;
      resuming := cursor.Some?;
      swept, prev, prevAt, degraded, written := false, map[], 0, false, [];
    }

    /** One pass: read the family, write what the watcher is owed, remember what was read.  `takes` is how many
        writes the watcher still takes; when it is owed more it is `gone`, having received that many, and the
        cursor is at the last id it received. */
    method Poll(found: Option<Reading>, at: int, takes: nat) returns (gone: bool)
      modifies this
      ensures var (c, events) := Polled(old(Model()), windows, found, at);
              && (gone <==> takes < |events|)
              && written == old(written) + (if gone then events[..takes] else events)
              && (if gone then since == LastId(events[..takes], old(since)) else Model() == c)
    {
      hide Positions, SinceAfter, Positioned, Owed, Told, Observed, SortByArrival, LastId, WhyOf;
      if found.None? {
        CutError(since);
        gone := ReportUnavailable(takes);
        return;
      }
      var r := found.value;
      var recovered := degraded;
      degraded := false;
      var states := SortByArrival(r.states);
      ghost var sent := Positions(states, since, at, windows, |states|);
      var positioned, left;
      positioned, left, gone := WritePositions(states, at, takes);
      if gone {
        ghost var events := Polled(old(Model()), windows, found, at).1;
        assert sent <= events;
        assert events[..takes] == sent[..takes];
        return;
      }
      SinceIsLastId(states, old(since), at, windows, |states|);
      if !swept && resuming && r.asOf.None? {
        ErrorKeepsLastId(sent, old(since));
        gone := ReportUnavailable(left);
        assert (sent + [ErrorEvent])[..|sent|] == sent;
        return;
      }
      var why := Reason(old(Model()), recovered, if r.asOf.Some? then r.asOf.value else map[]);
      ghost var owed := Owed(why, r.named, positioned, at, windows, |r.named|);
      ToldLength(owed, at, windows, |owed|);
      if left < |owed| {
        CutTold(sent, owed, at, windows, takes, old(since));
      }
      gone := Announce(why, r.named, at, positioned, left);
    }

    // Why presentations are owed, in a poll that has only moved the cursor so far.
    method Reason(ghost began: Conn, recovered: bool, asOf: map<DeviceId, int>) returns (why: Why)
      requires Model() == began.(since := since, degraded := degraded) && recovered == began.degraded
      ensures why == WhyOf(began, asOf)
    {
      if !swept && resuming {
        why := Resume(asOf, cursorInstant);
      } else if !swept {
        why := Snapshot;
      } else if recovered {
        why := Recovery;
      } else {
        why := Steady(prev, prevAt);
      }
    }

    // The presentation events, and what this poll saw.
    method Announce(why: Why, states: seq<DeviceState>, at: int, positioned: set<DeviceId>, takes: nat)
        returns (gone: bool)
      modifies this`swept, this`prev, this`prevAt, this`written
      ensures var owed := Owed(why, states, positioned, at, windows, |states|);
              && (gone <==> takes < |owed|)
              && written == old(written) + Told(owed, at, windows, if gone then takes else |owed|)
      ensures !gone ==> swept && prev == Observed(states, |states|) && prevAt == at
    {
      var owed := Sweep(why, states, at, positioned);
      swept := true;
      gone := WritePresentations(owed, at, takes);
      if !gone {
        Remember(states, at);
      }
    }

    // What this poll saw, for the next one to compare against.
    method Remember(states: seq<DeviceState>, at: int)
      modifies this`prev, this`prevAt
      ensures prev == Observed(states, |states|) && prevAt == at
    {
      prev := map[];
      for i := 0 to |states|
        invariant prev == Observed(states, i)
      {
        prev := prev[states[i].device := states[i].contact];
      }
      prevAt := at;
    }

    method WritePositions(states: seq<DeviceState>, at: int, takes: nat)
      returns (positioned: set<DeviceId>, left: nat, gone: bool)
      modifies this`since, this`written
      ensures var all := Positions(states, old(since), at, windows, |states|);
              && (gone <==> takes < |all|)
              && written == old(written) + (if gone then all[..takes] else all)
              && since == (if gone then LastId(all[..takes], old(since)) else SinceAfter(states, old(since), |states|))
              && (!gone ==> positioned == Positioned(states, old(since), |states|) && left == takes - |all|)
    {
      var began := since;
      positioned := {};
      left := takes;
      for i := 0 to |states|
        invariant since == SinceAfter(states, began, i)
        invariant written == old(written) + Positions(states, began, at, windows, i)
        invariant positioned == Positioned(states, began, i)
        invariant left == takes - |Positions(states, began, at, windows, i)|
      {
        var s := states[i];
        if s.current.None? || s.current.value.received <= began {
          continue;
        }
        if left == 0 {
          CutAt(states, began, at, windows, i);
          return positioned, 0, true;
        }
        written := written + [PositionEvent(s.current.value.received, s.device, EntryFor(s, at, windows))];
        left := left - 1;
        since := s.current.value.received;
        positioned := positioned + {s.device};
      }
      gone := false;
    }

    // The devices owed a presentation event, in the order of the rows.
    method Sweep(why: Why, states: seq<DeviceState>, at: int, positioned: set<DeviceId>)
        returns (owed: seq<DeviceState>)
      ensures owed == Owed(why, states, positioned, at, windows, |states|)
    {
      owed := [];
      for i := 0 to |states|
        invariant owed == Owed(why, states, positioned, at, windows, i)
      {
        var s := states[i];
        if s.device in positioned {
          continue;
        }
        if Owes(why, s, at, windows) {
          owed := owed + [s];
        }
      }
    }

    method WritePresentations(owed: seq<DeviceState>, at: int, takes: nat) returns (gone: bool)
      modifies this`written
      ensures gone <==> takes < |owed|
      ensures written == old(written) + Told(owed, at, windows, if gone then takes else |owed|)
    {
      for i := 0 to |owed|
        invariant i <= takes && written == old(written) + Told(owed, at, windows, i)
      {
        if i == takes {
          return true;
        }
        written := written + [PresentationEvent(owed[i].device, PresentationPayloadFor(owed[i], at, windows))];
      }
      gone := false;
    }

    method ReportUnavailable(takes: nat) returns (gone: bool)
      modifies this`degraded, this`written
      ensures Model() == old(Model()).(degraded := true)
      ensures gone <==> !old(degraded) && takes == 0
      ensures written == old(written) + if old(degraded) || gone then [] else [ErrorEvent]
    {
      if degraded {
        return false;
      }
      degraded := true;
      if takes == 0 {
        return true;
      }
      written := written + [ErrorEvent];
      gone := false;
    }
  }

  lemma CutError(before: int)
    ensures [ErrorEvent][..0] == [] && LastId([], before) == before
  {
  }

  lemma ErrorKeepsLastId(sent: seq<Event>, before: int)
    ensures LastId(sent + [ErrorEvent], before) == LastId(sent, before) && sent + [] == sent
  {
    assert (sent + [ErrorEvent])[..|sent|] == sent;
  }

  // A write that fails among the presentation events.
  lemma CutTold(sent: seq<Event>, owed: seq<DeviceState>, at: int, w: Windows, takes: nat, before: int)
    requires |sent| <= takes < |sent| + |owed|
    ensures var events := sent + Told(owed, at, w, |owed|);
            && takes < |events|
            && events[..takes] == sent + Told(owed, at, w, takes - |sent|)
            && LastId(events[..takes], before) == LastId(sent, before)
  {
    ToldFirst(owed, at, w, takes - |sent|, |owed|);
    ToldKeepsLastId(sent, owed, at, w, takes - |sent|, before);
  }
}
