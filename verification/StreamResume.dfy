/**
Coming back: a client that is cut off and returns with the last id it saw misses a position exactly when the
cut split a group of equal arrivals and the device it split off has not moved since.
*/
module StreamResume {
  import opened Options
  import opened Presentation
  import opened LiveStream
  import opened StreamAgreement
  import opened StreamCursor
  import StreamSession

  // ---- no gaps, but for split ties ----------------------------------------------------------------------------

  // A connection as it is opened: from the client's cursor, or fresh.
  function Opened(cursor: Option<int>): Conn {
    if cursor.Some? then FRESH.(since := cursor.value, cursor := cursor.value, resuming := true) else FRESH
  }

  // The last id a client has seen, having come with `before`.
  function LastSeen(events: seq<Event>, before: Option<int>): Option<int> {
    if events == [] then before
    else
      var e := events[|events| - 1];
      if e.PositionEvent? then Some(e.id) else LastSeen(events[..|events| - 1], before)
  }

  // Where a connection opened from it starts.
  function Start(cursor: Option<int>): int {
    if cursor.Some? then cursor.value else ZERO_TIME
  }

  lemma {:induction false} SeenInTurn(a: seq<Event>, b: seq<Event>, before: Option<int>)
    ensures LastSeen(a + b, before) == LastSeen(b, LastSeen(a, before))
  {
    if b == [] {
      assert a + b == a;
    } else if !b[|b| - 1].PositionEvent? {
      SeenInTurn(a, b[..|b| - 1], before);
      assert (a + b)[..|a + b| - 1] == a + b[..|b| - 1];
    }
  }

  lemma {:induction false} NothingSeen(events: seq<Event>, before: Option<int>)
    requires forall i :: 0 <= i < |events| ==> !events[i].PositionEvent?
    ensures LastSeen(events, before) == before
  {
    if events != [] {
      NothingSeen(events[..|events| - 1], before);
    }
  }

  lemma {:induction false} PositionsSeen(states: seq<DeviceState>, since: int, at: int, w: Windows, n: nat,
      before: Option<int>)
    requires n <= |states| && Start(before) == since
    ensures Start(LastSeen(Positions(states, since, at, w, n), before)) == SinceAfter(states, since, n)
  {
    hide EntryFor;
    if n > 0 {
      PositionsSeen(states, since, at, w, n - 1, before);
    }
  }

  lemma {:induction false} ToldNoPositions(owed: seq<DeviceState>, at: int, w: Windows, n: nat)
    requires n <= |owed|
    ensures forall i :: 0 <= i < n <= |Told(owed, at, w, n)| ==> !Told(owed, at, w, n)[i].PositionEvent?
    ensures |Told(owed, at, w, n)| == n
  {
    hide PresentationPayloadFor;
    if n > 0 {
      ToldNoPositions(owed, at, w, n - 1);
    }
  }

  // A poll that reads the family writes its batch of positions, and then nothing with an id.
  lemma PollIsBatchFirst(c: Conn, w: Windows, r: Reading, at: int) returns (rest: seq<Event>)
    ensures Polled(c, w, Some(r), at).1 == Batch(r, c.since, at, w) + rest
    ensures forall i :: 0 <= i < |rest| ==> !rest[i].PositionEvent?
  {
    var states := SortByArrival(r.states);
    hide SortByArrival, Positions, Owed, Told, Positioned, SinceAfter;
    if Completes(c, r) {
      var owed := Owed(WhyOf(c, AsOf(r)), r.named, Positioned(states, c.since, |states|), at, w, |r.named|);
      rest := Told(owed, at, w, |owed|);
      ToldNoPositions(owed, at, w, |owed|);
    } else {
      rest := [ErrorEvent];
    }
  }

  lemma PollSeen(c: Conn, w: Windows, found: Option<Reading>, at: int, before: Option<int>)
    requires Start(before) == c.since
    ensures var (c', events) := Polled(c, w, found, at); Start(LastSeen(events, before)) == c'.since
  {
    if found.Some? {
      var r := found.value;
      var states := SortByArrival(r.states);
      PositionsSeen(states, c.since, at, w, |states|, before);
      var rest := PollIsBatchFirst(c, w, r, at);
      hide SortByArrival, Positions, SinceAfter, Owed, Told, Positioned;
      SeenInTurn(Batch(r, c.since, at, w), rest, before);
      NothingSeen(rest, LastSeen(Batch(r, c.since, at, w), before));
    } else {
      NothingSeen(Polled(c, w, found, at).1, before);
    }
  }

  /** A connection's cursor is the last id its client has seen. */
  lemma {:induction false} CursorIsLastSeen(cursor: Option<int>, w: Windows, passes: seq<Pass>, n: nat)
    requires n <= |passes|
    ensures var (c, written) := Passes(Opened(cursor), w, passes, n); Start(LastSeen(written, cursor)) == c.since
  {
    hide Polled, LastSeen;
    if n == 0 {
      NothingSeen([], cursor);
    } else {
      CursorIsLastSeen(cursor, w, passes, n - 1);
      var (before, written) := Passes(Opened(cursor), w, passes, n - 1);
      var events := Polled(before, w, passes[n - 1].found, passes[n - 1].at).1;
      PollSeen(before, w, passes[n - 1].found, passes[n - 1].at, LastSeen(written, cursor));
      SeenInTurn(written, events, cursor);
    }
  }

  // An event that carries a row's current position.
  predicate Carries(e: Event, s: DeviceState) {
    e.PositionEvent? && e.device == s.device && s.current.Some? && e.id == s.current.value.received
  }

  ghost predicate Delivers(events: seq<Event>, s: DeviceState) {
    exists i :: 0 <= i < |events| && Carries(events[i], s)
  }

  lemma {:induction false} AboutMembers(events: seq<Event>, d: DeviceId, e: Event)
    ensures e in About(events, d) <==> e in events && !e.ErrorEvent? && e.device == d
  {
    if events != [] {
      AboutMembers(events[..|events| - 1], d, e);
      assert events == events[..|events| - 1] + [events[|events| - 1]];
    }
  }

  lemma {:induction false} FromRow(states: seq<DeviceState>, since: int, at: int, w: Windows, n: nat, i: nat)
      returns (k: nat)
    requires n <= |states| && i < |Positions(states, since, at, w, n)|
    ensures k < n && Newer(states[k], since) && Carries(Positions(states, since, at, w, n)[i], states[k])
  {
    hide EntryFor;
    if i < |Positions(states, since, at, w, n - 1)| {
      k := FromRow(states, since, at, w, n - 1, i);
    } else {
      k := n - 1;
    }
  }

  lemma {:induction false} OncePerDevice(states: seq<DeviceState>, since: int, at: int, w: Windows, n: nat, i: nat,
      j: nat)
    requires n <= |states| && Distinct(states) && i < j < |Positions(states, since, at, w, n)|
    ensures Positions(states, since, at, w, n)[i].PositionEvent? && Positions(states, since, at, w, n)[j].PositionEvent?
    ensures Positions(states, since, at, w, n)[i].device != Positions(states, since, at, w, n)[j].device
  {
    hide EntryFor;
    var before := Positions(states, since, at, w, n - 1);
    if j < |before| {
      OncePerDevice(states, since, at, w, n - 1, i, j);
    } else {
      var k := FromRow(states, since, at, w, n - 1, i);
      assert states[k].device != states[n - 1].device;
    }
  }

  // Where in its batch a newer row's position is.
  lemma BatchIndex(r: Reading, since: int, at: int, w: Windows, k: nat) returns (i: nat)
    requires WellRead(r) && k < |r.named| && Newer(r.named[k], since)
    ensures i < |Batch(r, since, at, w)| && Carries(Batch(r, since, at, w)[i], r.named[k])
    ensures forall j :: 0 <= j < |Batch(r, since, at, w)| && Carries(Batch(r, since, at, w)[j], r.named[k]) ==> j == i
  {
    var s := r.named[k];
    var states := SortByArrival(r.states);
    SortSorts(r.states);
    SameRowsDistinct(r.states, states);
    assert SameRows(r.named, states);
    var p := RowOf(r.named, states, k);
    OnePositionAbout(states, since, at, w, |states|, p);
    var batch := Batch(r, since, at, w);
    hide SortByArrival, Positions, About, SameRows, WellRead, EntryFor;
    var e := PositionEvent(s.current.value.received, s.device, EntryFor(s, at, w));
    assert e in About(batch, s.device);
    AboutMembers(batch, s.device, e);
    i :| i < |batch| && batch[i] == e;
    forall j | 0 <= j < |batch| && Carries(batch[j], s) ensures j == i {
      if j < i {
        OncePerDevice(states, since, at, w, |states|, j, i);
      } else if i < j {
        OncePerDevice(states, since, at, w, |states|, i, j);
      }
    }
  }

  lemma BatchRow(r: Reading, since: int, at: int, w: Windows, i: nat) returns (k: nat)
    requires WellRead(r) && i < |Batch(r, since, at, w)|
    ensures k < |r.named| && Newer(r.named[k], since) && Carries(Batch(r, since, at, w)[i], r.named[k])
  {
    var states := SortByArrival(r.states);
    SortSorts(r.states);
    assert SameRows(states, r.named);
    var p := FromRow(states, since, at, w, |states|, i);
    k := RowOf(states, r.named, p);
  }

  // What a poll delivers about a row, whether or not it completes.
  lemma PollDelivers(c: Conn, w: Windows, r: Reading, at: int, k: nat)
    requires WellRead(r) && k < |r.named|
    ensures Delivers(Polled(c, w, Some(r), at).1, r.named[k]) <==> Newer(r.named[k], c.since)
  {
    var batch, events := Batch(r, c.since, at, w), Polled(c, w, Some(r), at).1;
    var rest := PollIsBatchFirst(c, w, r, at);
    hide Polled, Batch, WellRead;
    assert forall j :: 0 <= j < |events| ==> events[j] == if j < |batch| then batch[j] else rest[j - |batch|];
    if Newer(r.named[k], c.since) {
      var i := BatchIndex(r, c.since, at, w, k);
      assert Carries(events[i], r.named[k]);
    } else if Delivers(events, r.named[k]) {
      var i :| 0 <= i < |events| && Carries(events[i], r.named[k]);
      var j := BatchRow(r, c.since, at, w, i);
      assert false;
    }
  }

  // The cut falls between two positions that arrived at the same instant.
  predicate SplitsTie(batch: seq<Event>, m: nat)
    requires forall i :: 0 <= i < |batch| ==> batch[i].PositionEvent?
  {
    0 < m < |batch| && batch[m - 1].id == batch[m].id
  }

  lemma BatchOfPositions(r: Reading, since: int, at: int, w: Windows)
    ensures forall i :: 0 <= i < |Batch(r, since, at, w)| ==> Batch(r, since, at, w)[i].PositionEvent?
  {
    var states := SortByArrival(r.states);
    AllPositions(states, since, at, w, |states|);
  }

  // What the client has seen when its connection is cut after m events of a poll.
  lemma CutSeen(c: Conn, w: Windows, r: Reading, at: int, m: nat, before: Option<int>)
    requires Start(before) == c.since && m <= |Polled(c, w, Some(r), at).1|
    ensures var batch := Batch(r, c.since, at, w);
            var seen := LastSeen(Polled(c, w, Some(r), at).1[..m], before);
            && (forall i :: 0 <= i < |batch| ==> batch[i].PositionEvent?)
            && (m == 0 || batch == [] ==> Start(seen) == c.since)
            && (0 < m <= |batch| ==> seen == Some(batch[m - 1].id))
            && (0 < |batch| <= m ==> seen == Some(batch[|batch| - 1].id))
  {
    var batch := Batch(r, c.since, at, w);
    BatchOfPositions(r, c.since, at, w);
    var rest := PollIsBatchFirst(c, w, r, at);
    hide Polled, Batch;
    if m <= |batch| {
      assert (batch + rest)[..m] == batch[..m];
    } else {
      assert (batch + rest)[..m] == batch + rest[..m - |batch|];
      SeenInTurn(batch, rest[..m - |batch|], before);
      NothingSeen(rest[..m - |batch|], LastSeen(batch, before));
    }
  }

  // A device's row when the client is back.
  predicate AtReturn(s: DeviceState, r': Reading, j: int) {
    0 <= j < |r'.named| && r'.named[j].device == s.device
  }

  // It holds no position any more, the same one, or one that arrived later.
  predicate Onward(s: DeviceState, s': DeviceState)
    requires s.current.Some?
  {
    s'.current.None? || s'.current == s.current || s'.current.value.received > s.current.value.received
  }

  ghost predicate AllOnward(r: Reading, r': Reading) {
    forall k, j :: 0 <= k < |r.named| && r.named[k].current.Some? && AtReturn(r.named[k], r', j)
      ==> Onward(r.named[k], r'.named[j])
  }

  // The device's position was sent before the cut; or the one it holds on return, if any, is sent then.
  ghost predicate Settled(s: DeviceState, sent: seq<Event>, r': Reading, again: seq<Event>) {
    || Delivers(sent, s)
    || forall j :: AtReturn(s, r', j) && r'.named[j].current.Some? ==> Delivers(again, r'.named[j])
  }

  // Every position the cut poll owed is settled.
  ghost predicate NoGap(r: Reading, since: int, sent: seq<Event>, r': Reading, again: seq<Event>) {
    forall k :: 0 <= k < |r.named| && Newer(r.named[k], since) ==> Settled(r.named[k], sent, r', again)
  }

  // The cut after m events left this row behind: it was not sent, it arrived with the last one that was, and
  // the device still holds it.
  ghost predicate LeftBehind(batch: seq<Event>, m: nat, s: DeviceState, r': Reading) {
    && 0 < m <= |batch| && s.current.Some?
    && (exists i :: m <= i < |batch| && Carries(batch[i], s))
    && batch[m - 1].PositionEvent? && batch[m - 1].id == s.current.value.received
    && exists j :: AtReturn(s, r', j) && r'.named[j].current == s.current
  }

  // Of one row: sent before the cut, or past the cursor the client comes back with.
  lemma RowAfterCut(c: Conn, w: Windows, r: Reading, at: int, m: nat, k: nat) returns (i: nat)
    requires WellRead(r) && k < |r.named| && Newer(r.named[k], c.since) && m <= |Polled(c, w, Some(r), at).1|
    ensures var batch := Batch(r, c.since, at, w);
            && i < |batch| && Carries(batch[i], r.named[k])
            && forall j :: 0 <= j < |batch| && Carries(batch[j], r.named[k]) ==> j == i
    ensures Delivers(Polled(c, w, Some(r), at).1[..m], r.named[k]) <==> i < m
  {
    i := BatchIndex(r, c.since, at, w, k);
    var batch := Batch(r, c.since, at, w);
    var rest := PollIsBatchFirst(c, w, r, at);
    var events := Polled(c, w, Some(r), at).1;
    hide Polled, Batch, WellRead;
    assert forall j :: 0 <= j < |events| ==> events[j] == if j < |batch| then batch[j] else rest[j - |batch|];
    if i < m {
      assert Carries(events[..m][i], r.named[k]);
    }
  }

  // One owed row, against the cut and the return.
  lemma RowSettled(c: Conn, w: Windows, r: Reading, at: int, m: nat, k: nat, before: Option<int>, r': Reading, at': int)
    requires WellRead(r) && WellRead(r') && AllOnward(r, r')
    requires Start(before) == c.since && m <= |Polled(c, w, Some(r), at).1|
    requires k < |r.named| && Newer(r.named[k], c.since)
    ensures var sent := Polled(c, w, Some(r), at).1[..m];
            var seen := LastSeen(sent, before);
            Settled(r.named[k], sent, r', Polled(Opened(seen), w, Some(r'), at').1)
            <==> !LeftBehind(Batch(r, c.since, at, w), m, r.named[k], r')
  {
    hide Polled, Batch, WellRead, LastSeen;
    var s := r.named[k];
    var sent := Polled(c, w, Some(r), at).1[..m];
    var seen := LastSeen(sent, before);
    var batch := Batch(r, c.since, at, w);
    var again := Polled(Opened(seen), w, Some(r'), at').1;
    CutSeen(c, w, r, at, m, before);
    BatchOrder(r, c.since, at, w);
    var i := RowAfterCut(c, w, r, at, m, k);
    forall j | AtReturn(s, r', j) ensures Delivers(again, r'.named[j]) <==> Newer(r'.named[j], Start(seen)) {
      PollDelivers(Opened(seen), w, r', at', j);
    }
    hide Delivers;
    Unsettled(batch, m, s, r', i, Start(seen), c.since);
  }

  // The same on the ids alone, for a row at index i of its batch.
  lemma Unsettled(batch: seq<Event>, m: nat, s: DeviceState, r': Reading, i: nat, seen: int, since: int)
    requires forall k :: 0 <= k < |batch| ==> batch[k].PositionEvent?
    requires forall k, l :: 0 <= k < l < |batch| ==> batch[k].id <= batch[l].id
    requires i < |batch| && Carries(batch[i], s) && Newer(s, since)
    requires forall k :: 0 <= k < |batch| && Carries(batch[k], s) ==> k == i
    requires forall j :: AtReturn(s, r', j) ==> Onward(s, r'.named[j])
    requires m == 0 ==> seen == since
    requires 0 < m <= |batch| ==> seen == batch[m - 1].id
    ensures LeftBehind(batch, m, s, r')
            <==> i >= m && exists j :: AtReturn(s, r', j) && r'.named[j].current.Some? && !Newer(r'.named[j], seen)
  {
    assert seen == since || (0 < m <= |batch| && seen == batch[m - 1].id) || i < m;
    if LeftBehind(batch, m, s, r') {
      var j :| AtReturn(s, r', j) && r'.named[j].current == s.current;
      assert !Newer(r'.named[j], seen);
    }
    if j :| i >= m && AtReturn(s, r', j) && r'.named[j].current.Some? && !Newer(r'.named[j], seen) {
      assert Onward(s, r'.named[j]);
      assert i > m - 1 ==> batch[m - 1].id <= batch[i].id;
    }
  }

  /** No gaps: a client whose connection is cut after any number of events of any poll, and which comes back
      with the last id it has seen, was sent every position that poll owed or is sent the one its device holds
      by then, if and only if the cut left none behind: none that arrived with the last position sent and
      that its device still holds. */
  lemma ResumesWithoutGaps(cursor: Option<int>, w: Windows, passes: seq<Pass>, n: nat, r: Reading, at: int, m: nat,
      r': Reading, at': int)
    requires n <= |passes| && WellRead(r) && WellRead(r') && AllOnward(r, r')
    requires var c := Passes(Opened(cursor), w, passes, n).0; m <= |Polled(c, w, Some(r), at).1|
    ensures var (c, written) := Passes(Opened(cursor), w, passes, n);
            var sent := Polled(c, w, Some(r), at).1[..m];
            var seen := LastSeen(written + sent, cursor);
            NoGap(r, c.since, sent, r', Polled(Opened(seen), w, Some(r'), at').1)
            <==> forall k :: 0 <= k < |r.named| && Newer(r.named[k], c.since) ==>
                   !LeftBehind(Batch(r, c.since, at, w), m, r.named[k], r')
  {
    var (c, written) := Passes(Opened(cursor), w, passes, n);
    var sent := Polled(c, w, Some(r), at).1[..m];
    var before := LastSeen(written, cursor);
    hide Passes, Polled, Batch, WellRead, LastSeen, Settled, LeftBehind, AllOnward;
    CursorIsLastSeen(cursor, w, passes, n);
    SeenInTurn(written, sent, cursor);
    forall k | 0 <= k < |r.named| && Newer(r.named[k], c.since)
      ensures Settled(r.named[k], sent, r', Polled(Opened(LastSeen(sent, before)), w, Some(r'), at').1)
              <==> !LeftBehind(Batch(r, c.since, at, w), m, r.named[k], r')
    {
      RowSettled(c, w, r, at, m, k, before, r', at');
    }
  }

  lemma BatchOrder(r: Reading, since: int, at: int, w: Windows)
    ensures var batch := Batch(r, since, at, w);
            && (forall i :: 0 <= i < |batch| ==> batch[i].PositionEvent?)
            && (forall i, j :: 0 <= i < j < |batch| ==> batch[i].id <= batch[j].id)
  {
    var states := SortByArrival(r.states);
    SortSorts(r.states);
    BatchOfPositions(r, since, at, w);
    PositionIds(states, since, at, w, |states|);
    var batch := Batch(r, since, at, w);
    hide SortByArrival, Positions, SinceAfter, Batch, InArrivalOrder;
    forall i, j | 0 <= i < j < |batch| ensures batch[i].id <= batch[j].id {
      assert NotAfter(batch[i], batch[j]);
    }
  }

  // ---- what changes while the client is away ----------------------------------------------------------

  /** Whatever enrolments, later arrivals and month-wise purges happen while the client is away, its devices'
      positions only go onward. */
  lemma AwayIsOnward(family: map<DeviceId, Fixes>, hi: int, later: map<DeviceId, Fixes>, r: Reading, r': Reading)
    requires StreamSession.RowsOf(r.named, family) && StreamSession.RowsOf(r'.named, later)
    requires StreamSession.Marked(family, hi) && StreamSession.Evolves(family, hi, later)
    ensures AllOnward(r, r')
  {
    forall k, j | 0 <= k < |r.named| && r.named[k].current.Some? && AtReturn(r.named[k], r', j)
      ensures Onward(r.named[k], r'.named[j])
    {
      var s, s' := r.named[k], r'.named[j];
      if s'.current.Some? && s'.current.value.received <= hi {
        StreamSession.StillCurrent(s, family[s.device], hi, later[s.device], s');
      }
    }
  }

  // ---- while nobody moves -----------------------------------------------------------------------------------

  // The same rows hold the same positions when the client is back.
  ghost predicate SamePositions(r: Reading, r': Reading) {
    forall k :: 0 <= k < |r.named| ==> SamePosition(r.named[k], r')
  }

  ghost predicate SamePosition(s: DeviceState, r': Reading) {
    exists j :: AtReturn(s, r', j) && r'.named[j].current == s.current
  }

  // Every position the cut poll owed was sent before the cut, or is sent again by the resumed connection.
  ghost predicate AllSent(r: Reading, since: int, sent: seq<Event>, again: seq<Event>) {
    forall k :: 0 <= k < |r.named| && Newer(r.named[k], since) ==>
      Delivers(sent, r.named[k]) || Delivers(again, r.named[k])
  }

  lemma OneAtReturn(r: Reading, r': Reading, k: nat, j: nat)
    requires WellRead(r') && SamePositions(r, r') && k < |r.named| && AtReturn(r.named[k], r', j)
    ensures r'.named[j].current == r.named[k].current
  {
    SameRowsDistinct(r'.states, r'.named);
    assert SamePosition(r.named[k], r');
    var i :| AtReturn(r.named[k], r', i) && r'.named[i].current == r.named[k].current;
    hide WellRead;
    DevicesApart(r'.named, i, j);
    DevicesApart(r'.named, j, i);
  }

  lemma DevicesApart(states: seq<DeviceState>, i: int, j: int)
    requires Distinct(states) && 0 <= i < |states| && 0 <= j < |states|
    ensures i < j ==> states[i].device != states[j].device
  {
  }

  lemma SettledIsSent(r: Reading, since: int, sent: seq<Event>, r': Reading, again: seq<Event>)
    requires WellRead(r') && SamePositions(r, r')
    ensures NoGap(r, since, sent, r', again) <==> AllSent(r, since, sent, again)
  {
    hide WellRead;
    forall k | 0 <= k < |r.named| && Newer(r.named[k], since)
      ensures Settled(r.named[k], sent, r', again) <==> Delivers(sent, r.named[k]) || Delivers(again, r.named[k])
    {
      assert SamePosition(r.named[k], r');
      forall j | AtReturn(r.named[k], r', j) ensures Delivers(again, r'.named[j]) <==> Delivers(again, r.named[k]) {
        OneAtReturn(r, r', k, j);
        assert forall e :: Carries(e, r.named[k]) <==> Carries(e, r'.named[j]);
      }
    }
  }

  lemma SplitLeavesBehind(r: Reading, since: int, at: int, w: Windows, m: nat, r': Reading)
    requires WellRead(r) && SamePositions(r, r')
    ensures var batch := Batch(r, since, at, w);
            && (forall i :: 0 <= i < |batch| ==> batch[i].PositionEvent?)
            && (SplitsTie(batch, m) <==>
                  exists k :: 0 <= k < |r.named| && Newer(r.named[k], since) && LeftBehind(batch, m, r.named[k], r'))
  {
    BatchOrder(r, since, at, w);
    var batch := Batch(r, since, at, w);
    hide Batch, WellRead;
    if SplitsTie(batch, m) {
      var k := BatchRow(r, since, at, w, m);
      assert SamePosition(r.named[k], r');
      assert LeftBehind(batch, m, r.named[k], r');
    }
    if k :| 0 <= k < |r.named| && Newer(r.named[k], since) && LeftBehind(batch, m, r.named[k], r') {
      var i :| m <= i < |batch| && Carries(batch[i], r.named[k]);
      assert batch[m - 1].id <= batch[m].id;
      assert m < i ==> batch[m].id <= batch[i].id;
    }
  }

  /** While no device moves, that is: if and only if the cut does not split a group of equal arrivals. */
  lemma ResumesUnmoved(cursor: Option<int>, w: Windows, passes: seq<Pass>, n: nat, r: Reading, at: int, m: nat,
      r': Reading, at': int)
    requires n <= |passes| && WellRead(r) && WellRead(r') && SamePositions(r, r')
    requires var c := Passes(Opened(cursor), w, passes, n).0; m <= |Polled(c, w, Some(r), at).1|
    ensures var (c, written) := Passes(Opened(cursor), w, passes, n);
            var sent := Polled(c, w, Some(r), at).1[..m];
            var seen := LastSeen(written + sent, cursor);
            var again := Polled(Opened(seen), w, Some(r'), at').1;
            && (forall i :: 0 <= i < |Batch(r, c.since, at, w)| ==> Batch(r, c.since, at, w)[i].PositionEvent?)
            && (AllSent(r, c.since, sent, again) <==> !SplitsTie(Batch(r, c.since, at, w), m))
  {
    hide Passes, Polled, Batch, WellRead, LastSeen, AllSent, NoGap, LeftBehind, SamePositions;
    var (c, written) := Passes(Opened(cursor), w, passes, n);
    var sent := Polled(c, w, Some(r), at).1[..m];
    var seen := LastSeen(written + sent, cursor);
    UnmovedIsOnward(r, r');
    ResumesWithoutGaps(cursor, w, passes, n, r, at, m, r', at');
    SettledIsSent(r, c.since, sent, r', Polled(Opened(seen), w, Some(r'), at').1);
    SplitLeavesBehind(r, c.since, at, w, m, r');
  }

  lemma UnmovedIsOnward(r: Reading, r': Reading)
    requires WellRead(r') && SamePositions(r, r')
    ensures AllOnward(r, r')
  {
    hide WellRead, SamePositions;
    forall k, j | 0 <= k < |r.named| && r.named[k].current.Some? && AtReturn(r.named[k], r', j)
      ensures Onward(r.named[k], r'.named[j])
    {
      OneAtReturn(r, r', k, j);
    }
  }

  // ---- a split tie ------------------------------------------------------------------------------------------------

  ghost predicate NoPositionOf(events: seq<Event>, d: DeviceId) {
    forall i :: 0 <= i < |events| && events[i].PositionEvent? ==> events[i].device != d
  }

  // No read of these passes finds a newer position of the device.
  ghost predicate Unmoved(passes: seq<Pass>, n: nat, since: int, d: DeviceId)
    requires n <= |passes|
  {
    forall i :: 0 <= i < n && passes[i].found.Some? ==> UnmovedIn(passes[i].found.value.states, since, d)
  }

  ghost predicate UnmovedIn(states: seq<DeviceState>, since: int, d: DeviceId) {
    forall k :: 0 <= k < |states| && states[k].device == d ==> !Newer(states[k], since)
  }

  lemma UnmovedPoll(c: Conn, w: Windows, found: Option<Reading>, at: int, d: DeviceId)
    requires found.Some? ==> UnmovedIn(found.value.states, c.since, d)
    ensures NoPositionOf(Polled(c, w, found, at).1, d)
  {
    if found.Some? {
      var r := found.value;
      var states := SortByArrival(r.states);
      SortSorts(r.states);
      var rest := PollIsBatchFirst(c, w, r, at);
      BatchOfPositions(r, c.since, at, w);
      var batch := Batch(r, c.since, at, w);
      hide SortByArrival, Positions, Polled;
      forall i | 0 <= i < |batch| ensures batch[i].device != d {
        var k := FromRow(states, c.since, at, w, |states|, i);
        var j := RowOf(states, r.states, k);
      }
    }
  }

  lemma UnmovedSince(states: seq<DeviceState>, since: int, later: int, d: DeviceId)
    requires UnmovedIn(states, since, d) && since <= later
    ensures UnmovedIn(states, later, d)
  {
  }

  /** A position at or before the cursor is never sent on that connection, however often it polls. */
  lemma {:induction false} NeverReplayed(c: Conn, w: Windows, passes: seq<Pass>, n: nat, d: DeviceId)
    requires n <= |passes| && Unmoved(passes, n, c.since, d)
    ensures NoPositionOf(Passes(c, w, passes, n).1, d)
  {
    hide Polled, UnmovedIn;
    if n > 0 {
      NeverReplayed(c, w, passes, n - 1, d);
      IdsNeverDecrease(c, w, passes, n - 1);
      var (before, written) := Passes(c, w, passes, n - 1);
      var found := passes[n - 1].found;
      if found.Some? {
        UnmovedSince(found.value.states, c.since, before.since, d);
      }
      UnmovedPoll(before, w, found, passes[n - 1].at, d);
    }
  }

  // Two devices whose positions arrived together, five microseconds into 1970.
  function TwoAtOnce(p: Place): seq<DeviceState> {
    [DeviceState(0, Some(Position(1, 5, p)), Some(5)), DeviceState(1, Some(Position(1, 5, p)), Some(5))]
  }

  function TwoRead(p: Place): Reading {
    Reading(TwoAtOnce(p), TwoAtOnce(p), Some(map[0 := 5, 1 := 5]))
  }

  /** A fresh client cut off between them has seen the id of both and the position of one: the other is never
      sent to it, on whatever polls of the resumed connection, while neither moves. */
  lemma SplitTieLosesOne(p: Place, w: Windows, at: int, passes: seq<Pass>, n: nat)
    requires n <= |passes| && forall i :: 0 <= i < n ==> passes[i].found == Some(TwoRead(p))
    ensures var events := Polled(FRESH, w, Some(TwoRead(p)), at).1;
            && |events| == 2 && Delivers(events, TwoAtOnce(p)[1])
            && NoPositionOf(events[..1], 1) && LastSeen(events[..1], None) == Some(5)
            && NoPositionOf(Passes(Opened(Some(5)), w, passes, n).1, 1)
  {
    TwoSent(p, w, at);
    hide Polled, TwoRead, TwoAtOnce;
    forall i | 0 <= i < n && passes[i].found.Some? ensures UnmovedIn(passes[i].found.value.states, 5, 1) {
      TwoUnmoved(p);
    }
    NeverReplayed(Opened(Some(5)), w, passes, n, 1);
  }

  lemma TwoUnmoved(p: Place)
    ensures UnmovedIn(TwoRead(p).states, 5, 1)
  {
  }

  lemma TwoSorted(p: Place)
    ensures SortByArrival(TwoAtOnce(p)) == TwoAtOnce(p)
  {
    var a, b := TwoAtOnce(p)[0], TwoAtOnce(p)[1];
    assert TwoAtOnce(p) == [a, b] && [a, b][1..] == [b] && [b][1..] == [];
    assert SortByArrival([b]) == Insert(b, SortByArrival([]));
    assert Insert(b, []) == [b] && Insert(a, [b]) == [a, b];
  }

  lemma TwoSent(p: Place, w: Windows, at: int)
    ensures var events := Polled(FRESH, w, Some(TwoRead(p)), at).1;
            && |events| == 2 && Delivers(events, TwoAtOnce(p)[1])
            && NoPositionOf(events[..1], 1) && LastSeen(events[..1], None) == Some(5)
  {
    var two := TwoAtOnce(p);
    TwoSorted(p);
    var x := PositionEvent(5, 0, EntryFor(two[0], at, w));
    var y := PositionEvent(5, 1, EntryFor(two[1], at, w));
    hide EntryFor, Owes;
    assert Positions(two, ZERO_TIME, at, w, 2) == [x, y] by {
      assert Positions(two, ZERO_TIME, at, w, 0) == [];
      assert Positions(two, ZERO_TIME, at, w, 1) == [x];
    }
    assert Positioned(two, ZERO_TIME, 2) == {0, 1} by {
      assert Positioned(two, ZERO_TIME, 1) == {0};
    }
    assert Owed(Snapshot, two, {0, 1}, at, w, 2) == [] by {
      assert Owed(Snapshot, two, {0, 1}, at, w, 1) == [];
    }
    var events := Polled(FRESH, w, Some(TwoRead(p)), at).1;
    assert events == [x, y];
    assert Carries(events[1], two[1]);
    assert [x, y][..1] == [x];
  }
}
