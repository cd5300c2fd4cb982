/**
Sessions: a fresh connection polling a family that changes meanwhile, and the map that listens to it.

A session is a run of polls: between them fixes arrive, retention purges the oldest months, phones are
enrolled; and reads may fail.
*/
module StreamSession {
  import opened Options
  import PartitionStore
  import opened Presentation
  import opened LiveStream
  import opened StreamAgreement

  // ---- how the stored fixes change between two reads -------------------------------------------------

  ghost predicate Kept(fixes: Fixes, ts: int, fix: Fix) {
    ts in fixes && fixes[ts] == fix
  }

  // What is new arrived after everything seen before, and what is gone went oldest first.
  ghost predicate Ages(fixes: Fixes, mark: int, later: Fixes) {
    && (forall ts :: ts in later ==> Kept(fixes, ts, later[ts]) || later[ts].received > mark)
    && (forall ts, older :: ts in fixes && older in fixes && older <= ts && Kept(later, older, fixes[older])
          ==> Kept(later, ts, fixes[ts]))
  }

  function FixesOf(family: map<DeviceId, Fixes>, d: DeviceId): Fixes {
    if d in family then family[d] else map[]
  }

  // Devices are enrolled, never removed.
  ghost predicate Evolves(family: map<DeviceId, Fixes>, mark: int, later: map<DeviceId, Fixes>) {
    && (forall d :: d in family ==> d in later)
    && (forall d :: d in later ==> Ages(FixesOf(family, d), mark, later[d]))
  }

  // Nothing visible arrived after the mark.
  ghost predicate Marked(family: map<DeviceId, Fixes>, mark: int) {
    forall d, ts :: d in family && ts in family[d] ==> family[d][ts].received <= mark
  }

  // What a purge leaves of a device's fixes: those whose month ends after the cutoff.
  function MonthsKept(fixes: Fixes, cutoff: int): Fixes {
    map ts | ts in fixes && PartitionStore.MonthStart(PartitionStore.MonthAt(ts) + 1) > cutoff :: fixes[ts]
  }

  /** Purging by whole months is such a change. */
  lemma PurgeAges(fixes: Fixes, mark: int, cutoff: int)
    ensures Ages(fixes, mark, MonthsKept(fixes, cutoff))
  {
    hide PartitionStore.MonthStart, PartitionStore.MonthAt;
    var later := MonthsKept(fixes, cutoff);
    forall ts, older | ts in fixes && older in fixes && older <= ts && Kept(later, older, fixes[older])
      ensures Kept(later, ts, fixes[ts])
    {
      PartitionStore.EndsAfter(older, cutoff);
      PartitionStore.EndsAfter(ts, cutoff);
    }
  }

  // The insert: nothing happens when a fix with that event time is stored already.
  function Stored(fixes: Fixes, ts: int, fix: Fix): Fixes {
    if ts in fixes then fixes else fixes[ts := fix]
  }

  /** So is storing a fix received after the mark. */
  lemma ArrivalAges(fixes: Fixes, mark: int, ts: int, fix: Fix)
    requires fix.received > mark
    ensures Ages(fixes, mark, Stored(fixes, ts, fix))
  {
  }

  /** And so is any succession of such changes, each fix later than all that was visible at the start. */
  lemma AgesOnward(fixes: Fixes, mark: int, later: Fixes, latest: Fixes)
    requires forall ts :: ts in fixes ==> fixes[ts].received <= mark
    requires Ages(fixes, mark, later) && Ages(later, mark, latest)
    ensures Ages(fixes, mark, latest)
  {
    forall ts, older | ts in fixes && older in fixes && older <= ts && Kept(latest, older, fixes[older])
      ensures Kept(latest, ts, fixes[ts])
    {
      assert Kept(later, older, latest[older]);
      assert Kept(later, ts, fixes[ts]);
    }
  }

  // What happens to the stored fixes between two reads.
  datatype Change = Enrol(d: DeviceId) | Arrive(d: DeviceId, ts: int, fix: Fix) | PurgeMonths(cutoff: int)

  function Changed(family: map<DeviceId, Fixes>, change: Change): map<DeviceId, Fixes> {
    match change
    case Enrol(d) => if d in family then family else family[d := map[]]
    case Arrive(d, ts, fix) => if d in family then family[d := Stored(family[d], ts, fix)] else family
    case PurgeMonths(cutoff) => map d | d in family :: MonthsKept(family[d], cutoff)
  }

  function ChangedAll(family: map<DeviceId, Fixes>, changes: seq<Change>): map<DeviceId, Fixes> {
    if changes == [] then family else Changed(ChangedAll(family, changes[..|changes| - 1]), changes[|changes| - 1])
  }

  lemma OneChangeEvolves(family: map<DeviceId, Fixes>, mark: int, change: Change)
    requires change.Arrive? ==> change.fix.received > mark
    ensures Evolves(family, mark, Changed(family, change))
  {
    hide Ages, MonthsKept, Stored;
    var later := Changed(family, change);
    forall d | d in later ensures Ages(FixesOf(family, d), mark, later[d]) {
      Unchanged(FixesOf(family, d), mark);
      match change
      case Enrol(_) =>
      case Arrive(_, ts, fix) => ArrivalAges(FixesOf(family, d), mark, ts, fix);
      case PurgeMonths(cutoff) => PurgeAges(FixesOf(family, d), mark, cutoff);
    }
  }

  lemma Unchanged(fixes: Fixes, mark: int)
    ensures Ages(fixes, mark, fixes)
  {
  }

  /** Enrolments, arrivals later than all that was visible before, and purges by whole months: whatever
      happens between two reads is a change the session allows. */
  lemma {:induction false} ChangesEvolve(family: map<DeviceId, Fixes>, mark: int, changes: seq<Change>)
    requires Marked(family, mark)
    requires forall i :: 0 <= i < |changes| && changes[i].Arrive? ==> changes[i].fix.received > mark
    ensures Evolves(family, mark, ChangedAll(family, changes))
  {
    hide Ages, Changed;
    if changes == [] {
      forall d | d in family ensures Ages(family[d], mark, family[d]) {
        Unchanged(family[d], mark);
      }
    } else {
      var before := ChangedAll(family, changes[..|changes| - 1]);
      var change := changes[|changes| - 1];
      ChangesEvolve(family, mark, changes[..|changes| - 1]);
      OneChangeEvolves(before, mark, change);
      var later := Changed(before, change);
      forall d | d in later ensures Ages(FixesOf(family, d), mark, later[d]) {
        if d in before {
          AgesOnward(FixesOf(family, d), mark, before[d], later[d]);
        } else {
          assert d !in family;
        }
      }
    }
  }

  // A current position the cursor has passed is the one that was current before.
  lemma StillCurrent(row: DeviceState, fixes: Fixes, mark: int, later: Fixes, row': DeviceState)
    requires Describes(row, fixes) && Describes(row', later) && Ages(fixes, mark, later)
    requires row'.current.Some? && row'.current.value.received <= mark
    ensures row'.current == row.current
  {
    var p := row'.current.value;
    assert Kept(fixes, p.ts, later[p.ts]);
    assert Kept(later, p.ts, fixes[p.ts]);
    assert Kept(later, row.current.value.ts, fixes[row.current.value.ts]);
  }

  // ---- sessions ----------------------------------------------------------------------------------------

  // `family`, `rows` and `at` are what the last completed poll read and when; `mark` is at or past every
  // arrival visible so far; `promised` holds the devices present at the first completed poll.
  datatype Session = Session(
    conn: Conn, client: Client, family: map<DeviceId, Fixes>, mark: int,
    rows: seq<DeviceState>, at: int, promised: set<DeviceId>, events: seq<Event>)

  const OPENED := Session(FRESH, BLANK, map[], ZERO_TIME, [], 0, {}, [])

  datatype Step = Read(family: map<DeviceId, Fixes>, mark: int, reading: Reading, at: int) | Unreadable(at: int)

  ghost predicate Reads(w: Windows, s: Session, family: map<DeviceId, Fixes>, mark: int, r: Reading, at: int,
      s': Session) {
    && mark >= s.mark && Marked(family, mark) && Evolves(s.family, s.mark, family)
    && ReadOf(r.states, family) && SameRows(r.named, r.states)
    && var (conn, es) := Polled(s.conn, w, Some(r), at);
       && s'.conn == conn && s'.client == Received(s.client, es) && s'.events == s.events + es
       && s'.family == family && s'.mark == mark && s'.rows == r.named && s'.at == at
       && s'.promised == if s.conn.swept then s.promised else family.Keys
  }

  ghost predicate Fails(w: Windows, s: Session, at: int, s': Session) {
    var (conn, es) := Polled(s.conn, w, None, at);
    s' == s.(conn := conn, client := Received(s.client, es), events := s.events + es)
  }

  ghost predicate Moves(w: Windows, s: Session, step: Step, s': Session) {
    match step
    case Read(family, mark, reading, at) => Reads(w, s, family, mark, reading, at, s')
    case Unreadable(at) => Fails(w, s, at, s')
  }

  ghost predicate Follows(w: Windows, s: Session, s': Session) {
    exists step :: Moves(w, s, step, s')
  }

  // The sessions of a run, first to last.
  ghost predicate Run(w: Windows, sessions: seq<Session>) {
    && sessions != [] && sessions[0] == OPENED
    && forall i :: 0 < i < |sessions| ==> Follows(w, sessions[i - 1], sessions[i])
  }

  // ---- what every session keeps -------------------------------------------------------------------------

  ghost predicate RowsOf(rows: seq<DeviceState>, family: map<DeviceId, Fixes>) {
    && Distinct(rows)
    && (forall k :: 0 <= k < |rows| ==> rows[k].device in family && Describes(rows[k], family[rows[k].device]))
    && (forall d :: d in family ==> Names(rows, |rows|, d))
  }

  // The map is right about this row's device, if it shows it at all; with a position it does show it.
  ghost predicate RightAbout(client: Client, s: DeviceState, at: int, w: Windows) {
    && (s.device in client.devices ==> client.devices[s.device] == View(s, at, w))
    && (s.current.Some? ==> s.device in client.devices)
  }

  ghost predicate Agrees(w: Windows, s: Session) {
    && RowsOf(s.rows, s.family)
    && (forall k :: 0 <= k < |s.rows| ==> RightAbout(s.client, s.rows[k], s.at, w))
    && (forall d :: d in s.client.devices ==> d in s.family)
    && (forall d :: d in s.promised ==> d in s.client.devices)
  }

  // The connection remembers the last completed poll.
  ghost predicate Remembers(s: Session) {
    && !s.conn.resuming && s.conn.since <= s.mark && Marked(s.family, s.mark)
    && if s.conn.swept then
         && s.conn.prevAt == s.at
         && (forall k :: 0 <= k < |s.rows| ==>
               s.rows[k].device in s.conn.prev && s.conn.prev[s.rows[k].device] == s.rows[k].contact)
       else
         s.family == map[] && s.rows == [] && s.client.devices == map[] && s.conn.since == ZERO_TIME == s.mark
             && s.promised == {}
  }

  // The map is marked unconfirmed exactly while the family cannot be read, once it shows any device.
  ghost predicate Honest(s: Session) {
    && (s.conn.degraded ==> s.client.interrupted)
    && (s.client.interrupted && !s.conn.degraded ==> s.client.devices == map[])
  }

  ghost predicate Inv(w: Windows, s: Session) {
    Agrees(w, s) && Remembers(s) && Honest(s)
  }

  // ---- a completed poll keeps it --------------------------------------------------------------------------

  lemma ReadIsWellRead(r: Reading, family: map<DeviceId, Fixes>)
    requires ReadOf(r.states, family) && SameRows(r.named, r.states)
    ensures WellRead(r) && RowsOf(r.named, family)
  {
    assert AllWhole(r.states);
    SameRowsDistinct(r.states, r.named);
    forall k | 0 <= k < |r.named|
      ensures r.named[k].device in family && Describes(r.named[k], family[r.named[k].device])
    {
      var j := RowOf(r.named, r.states, k);
    }
    forall d | d in family ensures Names(r.named, |r.named|, d) {
      var i :| 0 <= i < |r.states| && r.states[i].device == d;
      var j := RowOf(r.states, r.named, i);
    }
  }

  // The map keeps every device it shows.
  lemma NoneForgotten(c: Conn, cl: Client, w: Windows, r: Reading, at: int, d: DeviceId)
    requires WellRead(r) && Completes(c, r) && d in cl.devices
    ensures d in Received(cl, Polled(c, w, Some(r), at).1).devices
  {
    hide WellRead, Received, Polled, Newer, Owes, View, Told1, WhyOf;
    if Names(r.named, |r.named|, d) {
      var k :| 0 <= k < |r.named| && r.named[k].device == d;
      PollOnRow(c, cl, w, r, at, k);
    } else {
      PollElsewhere(c, cl, w, r, at, d);
    }
  }

  // The row the last completed poll had for a device.
  lemma RowBefore(s: Session, d: DeviceId) returns (k: nat)
    requires RowsOf(s.rows, s.family) && d in s.family
    ensures k < |s.rows| && s.rows[k].device == d
  {
    assert Names(s.rows, |s.rows|, d);
    k :| k < |s.rows| && s.rows[k].device == d;
  }

  // What the row of a device said before, if its position is not a newer one now.
  lemma PositionUnmoved(w: Windows, s: Session, family: map<DeviceId, Fixes>, row: DeviceState)
    requires Agrees(w, s) && Remembers(s) && Evolves(s.family, s.mark, family)
    requires row.device in family && Describes(row, family[row.device]) && !Newer(row, s.conn.since)
        && row.current.Some?
    ensures row.device in s.family && row.device in s.client.devices
    ensures s.client.devices[row.device].place == Some(row.current.value.place)
  {
    var d := row.device;
    if d in s.family {
      var k := RowBefore(s, d);
      StillCurrent(s.rows[k], s.family[d], s.mark, family[d], row);
      assert RightAbout(s.client, s.rows[k], s.at, w);
    } else {
      assert false;
    }
  }

  // A device that is not sent anything was rightly shown, and still is.
  lemma SilenceIsRight(w: Windows, s: Session, family: map<DeviceId, Fixes>, row: DeviceState,
      asOf: map<DeviceId, int>, at: int)
    requires Agrees(w, s) && Remembers(s) && Evolves(s.family, s.mark, family)
    requires row.device in family && Describes(row, family[row.device]) && !Newer(row, s.conn.since)
    requires !Owes(WhyOf(s.conn, asOf), row, at, w) && row.device in s.client.devices
    ensures s.client.devices[row.device] == View(row, at, w)
  {
    hide Evaluate;
    var d := row.device;
    assert s.conn.swept && d in s.family;
    var k := RowBefore(s, d);
    assert RightAbout(s.client, s.rows[k], s.at, w);
    assert ValueOf(s.rows[k], s.at, w) == ValueOf(row, at, w);
    if row.current.Some? {
      PositionUnmoved(w, s, family, row);
    } else {
      NoContact(s.rows[k], s.at, row, at, w);
    }
  }

  lemma NoContact(a: DeviceState, atA: int, b: DeviceState, atB: int, w: Windows)
    requires Whole(a) && Whole(b) && ValueOf(a, atA, w) == ValueOf(b, atB, w)
    ensures a.current.None? <==> b.current.None?
  {
    hide AgeSeconds;
  }

  lemma ReadIsRightAbout(w: Windows, s: Session, family: map<DeviceId, Fixes>, mark: int, r: Reading, at: int,
      s': Session, k: nat)
    requires Inv(w, s) && Reads(w, s, family, mark, r, at, s') && k < |r.named|
    requires WellRead(r) && RowsOf(r.named, family)
    ensures RightAbout(s'.client, r.named[k], at, w)
  {
    var row := r.named[k];
    hide WellRead, Polled, Received, Inv, View, ReadOf, SameRows;
    assert Agrees(w, s) && Remembers(s);
    PollOnRow(s.conn, s.client, w, r, at, k);
    if Newer(row, s.conn.since) {
    } else if Owes(WhyOf(s.conn, AsOf(r)), row, at, w) {
      ToldIsRight(w, s, family, row, at);
    } else {
      if row.device in s.client.devices {
        SilenceIsRight(w, s, family, row, AsOf(r), at);
      }
      if row.current.Some? {
        PositionUnmoved(w, s, family, row);
      }
    }
  }

  lemma ToldIsRight(w: Windows, s: Session, family: map<DeviceId, Fixes>, row: DeviceState, at: int)
    requires Agrees(w, s) && Remembers(s) && Evolves(s.family, s.mark, family)
    requires row.device in family && Describes(row, family[row.device]) && !Newer(row, s.conn.since)
    ensures Told1(s.client, row, at, w) == View(row, at, w)
  {
    if row.current.Some? {
      PositionUnmoved(w, s, family, row);
    }
  }

  // ---- the cursor and the observation -----------------------------------------------------------------------

  lemma {:induction false} CursorWithin(states: seq<DeviceState>, since: int, n: nat, mark: int)
    requires n <= |states| && since <= mark
    requires forall i :: 0 <= i < |states| && states[i].current.Some? ==> states[i].current.value.received <= mark
    ensures SinceAfter(states, since, n) <= mark
  {
    if n > 0 {
      CursorWithin(states, since, n - 1, mark);
    }
  }

  lemma {:induction false} ObservedRow(states: seq<DeviceState>, n: nat, k: nat)
    requires k < n <= |states| && Distinct(states)
    ensures states[k].device in Observed(states, n) && Observed(states, n)[states[k].device] == states[k].contact
  {
    if k < n - 1 {
      ObservedRow(states, n - 1, k);
    }
  }

  lemma CursorOfRead(r: Reading, family: map<DeviceId, Fixes>, since: int, mark: int)
    requires ReadOf(r.states, family) && Marked(family, mark) && since <= mark
    ensures var states := SortByArrival(r.states); SinceAfter(states, since, |states|) <= mark
  {
    var states := SortByArrival(r.states);
    SortSorts(r.states);
    forall i | 0 <= i < |states| && states[i].current.Some? ensures states[i].current.value.received <= mark {
      var j := RowOf(states, r.states, i);
    }
    CursorWithin(states, since, |states|, mark);
  }

  lemma AllObserved(rows: seq<DeviceState>, family: map<DeviceId, Fixes>)
    requires RowsOf(rows, family)
    ensures var prev := Observed(rows, |rows|);
            forall k :: 0 <= k < |rows| ==> rows[k].device in prev && prev[rows[k].device] == rows[k].contact
  {
    hide Observed;
    forall k | 0 <= k < |rows|
      ensures rows[k].device in Observed(rows, |rows|) && Observed(rows, |rows|)[rows[k].device] == rows[k].contact
    {
      ObservedRow(rows, |rows|, k);
    }
  }

  lemma PolledConn(c: Conn, w: Windows, r: Reading, at: int)
    requires Completes(c, r)
    ensures var states := SortByArrival(r.states);
            Polled(c, w, Some(r), at).0
            == Conn(SinceAfter(states, c.since, |states|), c.cursor, c.resuming, true, Observed(r.named, |r.named|),
                at, false)
  {
    hide SortByArrival, SinceAfter, Positions, Positioned, Owed, Told, Observed;
  }

  lemma ReadIsRemembered(w: Windows, s: Session, family: map<DeviceId, Fixes>, mark: int, r: Reading, at: int,
      s': Session)
    requires Remembers(s) && Reads(w, s, family, mark, r, at, s') && RowsOf(r.named, family)
    ensures Remembers(s') && s'.conn.swept && !s'.conn.degraded
  {
    CursorOfRead(r, family, s.conn.since, mark);
    AllObserved(r.named, family);
    PolledConn(s.conn, w, r, at);
    hide Polled, SortByArrival, SinceAfter, Observed, Received, Evolves, ReadOf, RowsOf, Marked, SameRows;
  }

  // ---- health ---------------------------------------------------------------------------------------------------

  // Every event of a completed poll says the family can be read.
  ghost predicate GoodNews(events: seq<Event>) {
    forall i :: 0 <= i < |events| ==>
        events[i].PresentationEvent? || (events[i].PositionEvent? && events[i].payload.Located?)
  }

  lemma {:induction false} PositionsGood(states: seq<DeviceState>, since: int, at: int, w: Windows, n: nat)
    requires n <= |states| && AllWhole(states)
    ensures GoodNews(Positions(states, since, at, w, n))
  {
    hide AgeSeconds;
    if n > 0 {
      PositionsGood(states, since, at, w, n - 1);
    }
  }

  lemma {:induction false} ToldGood(owed: seq<DeviceState>, at: int, w: Windows, n: nat)
    requires n <= |owed|
    ensures GoodNews(Told(owed, at, w, n))
  {
    if n > 0 {
      ToldGood(owed, at, w, n - 1);
    }
  }

  lemma GoodNewsClears(c: Client, events: seq<Event>)
    requires GoodNews(events)
    ensures Received(c, events).interrupted <==> events == [] && c.interrupted
  {
  }

  lemma CompletedIsGood(c: Conn, w: Windows, r: Reading, at: int)
    requires WellRead(r) && Completes(c, r)
    ensures GoodNews(Polled(c, w, Some(r), at).1)
  {
    var states := SortByArrival(r.states);
    SortSorts(r.states);
    SameRowsDistinct(r.states, states);
    PositionsGood(states, c.since, at, w, |states|);
    var owed := Owed(WhyOf(c, AsOf(r)), r.named, Positioned(states, c.since, |states|), at, w, |r.named|);
    ToldGood(owed, at, w, |owed|);
    hide SortByArrival, Positions, Owed, Told;
  }

  // After an outage every device is stated again.
  lemma RecoverySpeaks(c: Conn, w: Windows, r: Reading, at: int)
    requires WellRead(r) && c.swept && c.degraded && r.named != []
    ensures Polled(c, w, Some(r), at).1 != []
  {
    hide Polled, View, Told1;
    PollOnRow(c, BLANK, w, r, at, 0);
  }

  lemma NoRowsNoFamily(rows: seq<DeviceState>, family: map<DeviceId, Fixes>)
    requires RowsOf(rows, family)
    ensures rows == [] ==> family == map[]
  {
  }

  lemma ReadIsHonest(w: Windows, s: Session, family: map<DeviceId, Fixes>, mark: int, r: Reading, at: int, s': Session)
    requires Inv(w, s) && Reads(w, s, family, mark, r, at, s') && WellRead(r) && RowsOf(r.named, family)
    requires !s'.conn.degraded
    ensures Honest(s')
  {
    CompletedIsGood(s.conn, w, r, at);
    var es := Polled(s.conn, w, Some(r), at).1;
    GoodNewsClears(s.client, es);
    if s'.client.interrupted && s.conn.degraded && s.conn.swept {
      if r.named != [] {
        RecoverySpeaks(s.conn, w, r, at);
      }
      hide Polled, WellRead, ReadOf;
      assert s'.client == s.client;
      NoRowsNoFamily(r.named, family);
      assert forall d :: d in s.client.devices ==> d in family;
    }
  }

  // ---- every step, every run ---------------------------------------------------------------------------------------

  lemma ReadAgrees(w: Windows, s: Session, family: map<DeviceId, Fixes>, mark: int, r: Reading, at: int, s': Session)
    requires Inv(w, s) && Reads(w, s, family, mark, r, at, s') && WellRead(r) && RowsOf(r.named, family)
    ensures Agrees(w, s')
  {
    hide WellRead, Polled, Received, ReadOf, RowsOf, SameRows, RightAbout, Honest, View, Marked;
    forall k | 0 <= k < |s'.rows| ensures RightAbout(s'.client, s'.rows[k], s'.at, w) {
      ReadIsRightAbout(w, s, family, mark, r, at, s', k);
    }
    NoStrangers(w, s, family, r, at);
    Promised(w, s, family, mark, r, at, s');
  }

  lemma NoStrangers(w: Windows, s: Session, family: map<DeviceId, Fixes>, r: Reading, at: int)
    requires WellRead(r) && Completes(s.conn, r) && RowsOf(r.named, family)
    requires forall d :: d in s.client.devices ==> d in family
    ensures forall d :: d in Received(s.client, Polled(s.conn, w, Some(r), at).1).devices ==> d in family
  {
    hide WellRead, Polled, Received;
    forall d | d in Received(s.client, Polled(s.conn, w, Some(r), at).1).devices ensures d in family {
      if !Names(r.named, |r.named|, d) {
        Untold(w, s, r, at, d);
      }
    }
  }

  lemma ReadKeeps(w: Windows, s: Session, family: map<DeviceId, Fixes>, mark: int, r: Reading, at: int, s': Session)
    requires Inv(w, s) && Reads(w, s, family, mark, r, at, s')
    ensures Inv(w, s')
  {
    ReadIsWellRead(r, family);
    hide WellRead, RowsOf, Agrees, Remembers, Honest, Polled, Received, ReadOf, SameRows, Evolves, Marked;
    ReadIsRemembered(w, s, family, mark, r, at, s');
    ReadIsHonest(w, s, family, mark, r, at, s');
    ReadAgrees(w, s, family, mark, r, at, s');
  }

  lemma Untold(w: Windows, s: Session, r: Reading, at: int, d: DeviceId)
    requires WellRead(r) && Completes(s.conn, r) && !Names(r.named, |r.named|, d)
    ensures d in Received(s.client, Polled(s.conn, w, Some(r), at).1).devices <==> d in s.client.devices
  {
    PollElsewhere(s.conn, s.client, w, r, at, d);
  }

  // Who was promised a place on the map has one.
  lemma Promised(w: Windows, s: Session, family: map<DeviceId, Fixes>, mark: int, r: Reading, at: int, s': Session)
    requires Inv(w, s) && Reads(w, s, family, mark, r, at, s') && WellRead(r) && RowsOf(r.named, family)
    ensures forall d :: d in s'.promised ==> d in s'.client.devices
  {
    hide WellRead, Polled, Received, ReadOf, SameRows, View, Told1, Marked;
    forall d | d in s'.promised ensures d in s'.client.devices {
      if s.conn.swept {
        NoneForgotten(s.conn, s.client, w, r, at, d);
      } else {
        assert Names(r.named, |r.named|, d);
        var k :| 0 <= k < |r.named| && r.named[k].device == d;
        PollOnRow(s.conn, s.client, w, r, at, k);
        FirstPollSpeaks(w, s, family, r.named[k], AsOf(r), at);
      }
    }
  }

  lemma FirstPollSpeaks(w: Windows, s: Session, family: map<DeviceId, Fixes>, row: DeviceState,
      asOf: map<DeviceId, int>, at: int)
    requires Remembers(s) && !s.conn.swept && Evolves(s.family, s.mark, family)
    requires row.device in family && Describes(row, family[row.device])
    ensures Newer(row, s.conn.since) || Owes(WhyOf(s.conn, asOf), row, at, w)
  {
    if row.current.Some? {
      assert Ages(map[], s.mark, family[row.device]);
    }
  }

  lemma FailKeeps(w: Windows, s: Session, at: int, s': Session)
    requires Inv(w, s) && Fails(w, s, at, s')
    ensures Inv(w, s')
  {
    var es := Polled(s.conn, w, None, at).1;
    assert es == [] || es == [ErrorEvent];
    assert [ErrorEvent][..0] == [];
    assert Received(s.client, []) == s.client;
  }

  lemma StepKeeps(w: Windows, s: Session, step: Step, s': Session)
    requires Inv(w, s) && Moves(w, s, step, s')
    ensures Inv(w, s')
  {
    hide Inv, Reads, Fails;
    match step
    case Read(family, mark, r, at) => ReadKeeps(w, s, family, mark, r, at, s');
    case Unreadable(at) => FailKeeps(w, s, at, s');
  }

  lemma {:induction false} RunKeeps(w: Windows, sessions: seq<Session>, n: nat)
    requires Run(w, sessions) && n < |sessions|
    ensures Inv(w, sessions[n])
  {
    if n > 0 {
      RunKeeps(w, sessions, n - 1);
      assert Follows(w, sessions[n - 1], sessions[n]);
      var step :| Moves(w, sessions[n - 1], step, sessions[n]);
      hide Inv, Moves, Run;
      StepKeeps(w, sessions[n - 1], step, sessions[n]);
    }
  }

  /** The map tells the truth.  At every moment of every session, each device the map shows is shown with
      exactly the value its last contact gave at the last completed poll, at its then current position, or
      without one when it had none; every device of the first completed poll is shown; and the map is
      marked unconfirmed exactly while the family cannot be read, as soon as it shows any device. */
  lemma MapTellsTheTruth(w: Windows, sessions: seq<Session>, n: nat, d: DeviceId)
    requires Run(w, sessions) && n < |sessions|
    ensures var s := sessions[n];
            && (d in s.promised ==> d in s.client.devices)
            && (d in s.client.devices ==> exists k ::
                  && 0 <= k < |s.rows| && s.rows[k].device == d && d in s.family && Describes(s.rows[k], s.family[d])
                  && s.client.devices[d] == View(s.rows[k], s.at, w))
            && (s.client.devices != map[] ==> (s.client.interrupted <==> s.conn.degraded))
  {
    RunKeeps(w, sessions, n);
    var s := sessions[n];
    if d in s.client.devices {
      var k := RowBefore(s, d);
      assert RightAbout(s.client, s.rows[k], s.at, w);
    }
  }
}
