/**
The position cursor: event ids never go back, and every poll says exactly one thing about each device.
*/
module StreamCursor {
  import opened Decimal
  import opened Options
  import opened Presentation
  import opened LiveStream
  import opened StreamAgreement

  // ---- ids never decrease ------------------------------------------------------------------------------

  ghost predicate HasId(e: Event, lo: int, hi: int) {
    e.PositionEvent? ==> lo < e.id <= hi
  }

  ghost predicate NotAfter(a: Event, b: Event) {
    a.PositionEvent? && b.PositionEvent? ==> a.id <= b.id
  }

  // Ids past `lo`, up to `hi`, in order.
  ghost predicate IdsWithin(events: seq<Event>, lo: int, hi: int) {
    && (forall i :: 0 <= i < |events| ==> HasId(events[i], lo, hi))
    && (forall i, j :: 0 <= i < j < |events| ==> NotAfter(events[i], events[j]))
  }

  lemma IdsJoin(a: seq<Event>, b: seq<Event>, lo: int, mid: int, hi: int)
    requires IdsWithin(a, lo, mid) && IdsWithin(b, mid, hi) && lo <= mid <= hi
    ensures IdsWithin(a + b, lo, hi)
  {
    forall i | 0 <= i < |a + b| ensures HasId((a + b)[i], lo, hi) {
      assert i < |a| ==> HasId(a[i], lo, mid);
      assert i >= |a| ==> HasId(b[i - |a|], mid, hi);
    }
    forall i, j | 0 <= i < j < |a + b| ensures NotAfter((a + b)[i], (a + b)[j]) {
      if i < |a| {
        assert HasId(a[i], lo, mid);
      }
      if j >= |a| {
        assert HasId(b[j - |a|], mid, hi);
      }
      if j < |a| {
        assert NotAfter(a[i], a[j]);
      } else if i >= |a| {
        assert NotAfter(b[i - |a|], b[j - |a|]);
      }
    }
  }

  lemma {:induction false} CursorFollows(states: seq<DeviceState>, since: int, n: nat, k: nat)
    requires n <= k < |states| && InArrivalOrder(states) && Newer(states[k], since)
    ensures since <= SinceAfter(states, since, n) <= states[k].current.value.received
  {
    if n > 0 {
      CursorFollows(states, since, n - 1, k);
      assert !ArrivesBefore(states[k], states[n - 1]);
    }
  }

  lemma {:induction false} PositionIds(states: seq<DeviceState>, since: int, at: int, w: Windows, n: nat)
    requires n <= |states| && InArrivalOrder(states)
    ensures since <= SinceAfter(states, since, n)
    ensures IdsWithin(Positions(states, since, at, w, n), since, SinceAfter(states, since, n))
  {
    hide EntryFor;
    if n > 0 {
      PositionIds(states, since, at, w, n - 1);
      if Newer(states[n - 1], since) {
        CursorFollows(states, since, n - 1, n - 1);
        var before := Positions(states, since, at, w, n - 1);
        var e := PositionEvent(states[n - 1].current.value.received, states[n - 1].device, EntryFor(states[n - 1],
            at, w));
        LastId(before, e, since, SinceAfter(states, since, n - 1));
      }
    }
  }

  lemma LastId(before: seq<Event>, e: Event, lo: int, mid: int)
    requires IdsWithin(before, lo, mid) && lo <= mid && e.PositionEvent? && lo < e.id && mid <= e.id
    ensures IdsWithin(before + [e], lo, e.id)
  {
    var all := before + [e];
    forall i | 0 <= i < |all| ensures HasId(all[i], lo, e.id) {
      assert i < |before| ==> HasId(before[i], lo, mid);
    }
    forall i, j | 0 <= i < j < |all| ensures NotAfter(all[i], all[j]) {
      assert HasId(before[i], lo, mid);
      assert j < |before| ==> NotAfter(before[i], before[j]);
    }
  }

  lemma {:induction false} NoIds(owed: seq<DeviceState>, at: int, w: Windows, n: nat, lo: int)
    requires n <= |owed|
    ensures IdsWithin(Told(owed, at, w, n), lo, lo)
  {
    hide PresentationPayloadFor;
    if n > 0 {
      NoIds(owed, at, w, n - 1, lo);
    }
  }

  /** A poll's ids are past the cursor it found and up to the one it leaves, in order, whatever it read. */
  lemma PollIds(c: Conn, w: Windows, found: Option<Reading>, at: int)
    ensures var (c', events) := Polled(c, w, found, at);
            c.since <= c'.since && IdsWithin(events, c.since, c'.since)
  {
    if found.Some? {
      var r := found.value;
      var states := SortByArrival(r.states);
      SortSorts(r.states);
      hide SortByArrival, Owes, EntryFor, SameRows;
      PositionIds(states, c.since, at, w, |states|);
      var sent := Positions(states, c.since, at, w, |states|);
      var last := SinceAfter(states, c.since, |states|);
      hide Positions, SinceAfter;
      if Completes(c, r) {
        var owed := Owed(WhyOf(c, AsOf(r)), r.named, Positioned(states, c.since, |states|), at, w, |r.named|);
        NoIds(owed, at, w, |owed|, last);
        IdsJoin(sent, Told(owed, at, w, |owed|), c.since, last, last);
      } else {
        IdsJoin(sent, Reported(c.(degraded := false)).1, c.since, last, last);
      }
    }
  }

  datatype Pass = Pass(found: Option<Reading>, at: int)

  // A connection after its first n polls, and everything it wrote.
  function Passes(c: Conn, w: Windows, passes: seq<Pass>, n: nat): (Conn, seq<Event>)
    requires n <= |passes|
  {
    if n == 0 then (c, [])
    else
      var (before, written) := Passes(c, w, passes, n - 1);
      var (after, events) := Polled(before, w, passes[n - 1].found, passes[n - 1].at);
      (after, written + events)
  }

  /** On one connection, fresh or resumed, ids never decrease and the cursor stays at or past every one. */
  lemma {:induction false} IdsNeverDecrease(c: Conn, w: Windows, passes: seq<Pass>, n: nat)
    requires n <= |passes|
    ensures var (c', written) := Passes(c, w, passes, n);
            c.since <= c'.since && IdsWithin(written, c.since, c'.since)
  {
    hide Polled, IdsWithin;
    if n == 0 {
      assert IdsWithin([], c.since, c.since) by {
        NoIds([], 0, w, 0, c.since);
      }
    } else {
      IdsNeverDecrease(c, w, passes, n - 1);
      var (before, written) := Passes(c, w, passes, n - 1);
      PollIds(before, w, passes[n - 1].found, passes[n - 1].at);
      var (after, events) := Polled(before, w, passes[n - 1].found, passes[n - 1].at);
      IdsJoin(written, events, c.since, before.since, after.since);
    }
  }

  // ---- one event about each device ------------------------------------------------------------------------

  // The events about a device, in order.
  function About(events: seq<Event>, d: DeviceId): seq<Event> {
    if events == [] then []
    else
      var e := events[|events| - 1];
      var before := About(events[..|events| - 1], d);
      if !e.ErrorEvent? && e.device == d then before + [e] else before
  }

  lemma {:induction false} AboutJoin(a: seq<Event>, b: seq<Event>, d: DeviceId)
    ensures About(a + b, d) == About(a, d) + About(b, d)
  {
    if b == [] {
      assert a + b == a;
    } else {
      AboutJoin(a, b[..|b| - 1], d);
      assert (a + b)[..|a + b| - 1] == a + b[..|b| - 1];
    }
  }

  lemma AboutOne(e: Event, d: DeviceId)
    ensures About([e], d) == if !e.ErrorEvent? && e.device == d then [e] else []
  {
    assert [e][..0] == [];
  }

  lemma {:induction false} NoPositionAbout(states: seq<DeviceState>, since: int, at: int, w: Windows, n: nat,
      d: DeviceId)
    requires n <= |states| && forall i :: 0 <= i < n && states[i].device == d ==> !Newer(states[i], since)
    ensures About(Positions(states, since, at, w, n), d) == []
  {
    hide EntryFor;
    if n > 0 {
      NoPositionAbout(states, since, at, w, n - 1, d);
      OneMorePosition(states, since, at, w, n, d);
    }
  }

  lemma {:induction false} OnePositionAbout(states: seq<DeviceState>, since: int, at: int, w: Windows, n: nat, k: nat)
    requires k < n <= |states| && Distinct(states) && Newer(states[k], since)
    ensures About(Positions(states, since, at, w, n), states[k].device)
         == [PositionEvent(states[k].current.value.received, states[k].device, EntryFor(states[k], at, w))]
  {
    hide EntryFor, About, Positions;
    OneMorePosition(states, since, at, w, n, states[k].device);
    if k < n - 1 {
      OnePositionAbout(states, since, at, w, n - 1, k);
      assert states[n - 1].device != states[k].device;
    } else {
      assert forall i :: 0 <= i < k ==> states[i].device != states[k].device;
      NoPositionAbout(states, since, at, w, n - 1, states[k].device);
    }
  }

  // What one more row adds to the events about a device.
  lemma OneMorePosition(states: seq<DeviceState>, since: int, at: int, w: Windows, n: nat, d: DeviceId)
    requires 0 < n <= |states|
    ensures var s := states[n - 1];
            About(Positions(states, since, at, w, n), d)
            == About(Positions(states, since, at, w, n - 1), d)
               + if Newer(s, since) && s.device == d
                 then [PositionEvent(s.current.value.received, d, EntryFor(s, at, w))] else []
  {
    hide EntryFor, About;
    var s := states[n - 1];
    if Newer(s, since) {
      var e := PositionEvent(s.current.value.received, s.device, EntryFor(s, at, w));
      AboutJoin(Positions(states, since, at, w, n - 1), [e], d);
      AboutOne(e, d);
    }
  }

  lemma {:induction false} ToldAbout(owed: seq<DeviceState>, at: int, w: Windows, n: nat, d: DeviceId)
    requires n <= |owed|
    ensures (forall i :: 0 <= i < n ==> owed[i].device != d) ==> About(Told(owed, at, w, n), d) == []
    ensures n > 0 && owed[n - 1].device == d && (forall i :: 0 <= i < n - 1 ==> owed[i].device != d)
            ==> About(Told(owed, at, w, n), d) == [PresentationEvent(d, PresentationPayloadFor(owed[n - 1], at, w))]
  {
    hide PresentationPayloadFor;
    if n > 0 {
      ToldAbout(owed, at, w, n - 1, d);
      var e := PresentationEvent(owed[n - 1].device, PresentationPayloadFor(owed[n - 1], at, w));
      AboutJoin(Told(owed, at, w, n - 1), [e], d);
      AboutOne(e, d);
    }
  }

  lemma AboutOwed(why: Why, states: seq<DeviceState>, positioned: set<DeviceId>, at: int, w: Windows, n: nat,
      d: DeviceId)
    requires 0 < n <= |states|
    ensures var owed := Owed(why, states, positioned, at, w, n);
            var before := Owed(why, states, positioned, at, w, n - 1);
            var s := states[n - 1];
            About(Told(owed, at, w, |owed|), d)
            == About(Told(before, at, w, |before|), d)
               + if s.device !in positioned && Owes(why, s, at, w) && s.device == d
                 then [PresentationEvent(d, PresentationPayloadFor(s, at, w))] else []
  {
    hide Owes, PresentationPayloadFor, Told, About;
    var before := Owed(why, states, positioned, at, w, n - 1);
    if states[n - 1].device !in positioned && Owes(why, states[n - 1], at, w) {
      OneMoreTold(before, states[n - 1], at, w, d);
    }
  }

  lemma OneMoreTold(before: seq<DeviceState>, s: DeviceState, at: int, w: Windows, d: DeviceId)
    ensures var owed := before + [s];
            About(Told(owed, at, w, |owed|), d)
            == About(Told(before, at, w, |before|), d)
               + if s.device == d then [PresentationEvent(d, PresentationPayloadFor(s, at, w))] else []
  {
    var owed := before + [s];
    assert owed[..|before|] == before;
    ToldPrefix(before, owed, at, w, |before|);
    var e := PresentationEvent(s.device, PresentationPayloadFor(s, at, w));
    hide PresentationPayloadFor, About;
    AboutJoin(Told(before, at, w, |before|), [e], d);
    AboutOne(e, d);
  }

  lemma {:induction false} NoneOwedAbout(why: Why, states: seq<DeviceState>,
    positioned: set<DeviceId>, at: int, w: Windows, n: nat, d: DeviceId)
    requires n <= |states|
    requires forall i :: 0 <= i < n && states[i].device == d ==> d in positioned || !Owes(why, states[i], at, w)
    ensures var owed := Owed(why, states, positioned, at, w, n); About(Told(owed, at, w, |owed|), d) == []
  {
    hide Owes, PresentationPayloadFor;
    if n > 0 {
      NoneOwedAbout(why, states, positioned, at, w, n - 1, d);
      AboutOwed(why, states, positioned, at, w, n, d);
    }
  }

  lemma {:induction false} OneOwedAbout(why: Why, states: seq<DeviceState>,
    positioned: set<DeviceId>, at: int, w: Windows, n: nat, k: nat)
    requires k < n <= |states| && Distinct(states)
    requires states[k].device !in positioned && Owes(why, states[k], at, w)
    ensures var owed := Owed(why, states, positioned, at, w, n);
            About(Told(owed, at, w, |owed|), states[k].device)
            == [PresentationEvent(states[k].device, PresentationPayloadFor(states[k], at, w))]
  {
    hide Owes, PresentationPayloadFor, Owed, Told;
    AboutOwed(why, states, positioned, at, w, n, states[k].device);
    if k < n - 1 {
      OneOwedAbout(why, states, positioned, at, w, n - 1, k);
      assert states[n - 1].device != states[k].device;
    } else {
      assert forall i :: 0 <= i < k ==> states[i].device != states[k].device;
      NoneOwedAbout(why, states, positioned, at, w, n - 1, states[k].device);
    }
  }

  /** Each poll says exactly one thing about a device, or nothing: its position when that arrived after the
      cursor as the poll began, ties included; otherwise its freshness when it is owed that. */
  lemma OneEventEach(c: Conn, w: Windows, r: Reading, at: int, k: nat)
    requires WellRead(r) && Completes(c, r) && k < |r.named|
    ensures var s := r.named[k];
            About(Polled(c, w, Some(r), at).1, s.device)
            == if Newer(s, c.since) then [PositionEvent(s.current.value.received, s.device, EntryFor(s, at, w))]
               else if Owes(WhyOf(c, AsOf(r)), s, at, w) then [PresentationEvent(s.device, PresentationPayloadFor(s,
                   at, w))]
               else []
  {
    var s := r.named[k];
    var why := WhyOf(c, AsOf(r));
    var states := SortByArrival(r.states);
    SortSorts(r.states);
    SameRowsDistinct(r.states, states);
    SameRowsDistinct(r.states, r.named);
    assert SameRows(r.named, states);
    var j := RowOf(r.named, states, k);
    hide Owes, Newer, SortByArrival, Positions, Owed, Told, WellRead, SameRows, Evaluate, SinceAfter, WhyOf,
         EntryFor, PresentationPayloadFor, About;
    var n := |states|;
    var positioned := Positioned(states, c.since, n);
    var sent := Positions(states, c.since, at, w, n);
    var owed := Owed(why, r.named, positioned, at, w, |r.named|);
    AboutJoin(sent, Told(owed, at, w, |owed|), s.device);
    PositionedOnly(states, c.since, n, s.device);
    if Newer(s, c.since) {
      OnePositionAbout(states, c.since, at, w, n, j);
      NoneOwedAbout(why, r.named, positioned, at, w, |r.named|, s.device);
    } else {
      assert forall i :: 0 <= i < n && states[i].device == s.device ==> i == j;
      NoPositionAbout(states, c.since, at, w, n, s.device);
      assert s.device !in positioned;
      if Owes(why, s, at, w) {
        OneOwedAbout(why, r.named, positioned, at, w, |r.named|, k);
      } else {
        assert forall i :: 0 <= i < |r.named| && r.named[i].device == s.device ==> i == k;
        NoneOwedAbout(why, r.named, positioned, at, w, |r.named|, s.device);
      }
    }
  }

  // ---- reconnecting ------------------------------------------------------------------------------------------

  // The position events a poll sends from a cursor.
  function Batch(r: Reading, since: int, at: int, w: Windows): seq<Event> {
    var states := SortByArrival(r.states);
    Positions(states, since, at, w, |states|)
  }

  lemma {:induction false} AllPositions(states: seq<DeviceState>, since: int, at: int, w: Windows, n: nat)
    requires n <= |states|
    ensures forall i :: 0 <= i < |Positions(states, since, at, w, n)| ==>
              Positions(states, since, at, w, n)[i].PositionEvent?
  {
    if n > 0 {
      AllPositions(states, since, at, w, n - 1);
    }
  }

  // The `Last-Event-ID` header: a 64-bit number of microseconds, or no cursor at all.
  function ParseResumeCursor(raw: string): Option<int> {
    match ParseSigned(raw)
    case None => None
    case Some(micros) => if -MAX_INT64 - 1 <= micros <= MAX_INT64 then Some(micros) else None
  }

  /** The id a client sends back is the cursor it resumes from. */
  lemma IdComesBack(id: int)
    requires -MAX_INT64 - 1 <= id <= MAX_INT64
    ensures ParseResumeCursor(WriteInt(id)) == Some(id)
  {
    WrittenIntIsRead(id);
  }

  /** And only a number is a cursor: an optional sign and decimal digits, of a value that fits 64 bits; whatever
      else a client sends, the connection is a fresh one. */
  lemma OnlyNumbersAreCursors(raw: string)
    ensures var digits := if raw != "" && (raw[0] == '+' || raw[0] == '-') then raw[1..] else raw;
            ParseResumeCursor(raw).Some?
            <==> && digits != "" && (forall i :: 0 <= i < |digits| ==> '0' <= digits[i] <= '9')
                 && ParseSigned(raw).Some? && -0x8000_0000_0000_0000 <= ParseSigned(raw).value < 0x8000_0000_0000_0000
  {
    DigitsParse(if Signed(raw) then raw[1..] else raw);
  }

  /** On the resumed connection's first poll a device's position is replayed exactly when it arrived after
      the client's cursor, so a lost one is one that shares the last arrival the client saw. */
  lemma ResumeReplays(cursor: int, w: Windows, r: Reading, at: int, k: nat)
    requires WellRead(r) && r.asOf.Some? && k < |r.named| && r.named[k].current.Some?
    ensures var s := r.named[k];
            var resumed := FRESH.(since := cursor, cursor := cursor, resuming := true);
            var events := About(Polled(resumed, w, Some(r), at).1, s.device);
            PositionEvent(s.current.value.received, s.device, EntryFor(s, at, w)) in events <==>
            s.current.value.received > cursor
  {
    var resumed := FRESH.(since := cursor, cursor := cursor, resuming := true);
    hide EntryFor, PresentationPayloadFor, Owes, About, Polled, WellRead;
    OneEventEach(resumed, w, r, at, k);
  }

  /** The resume sweep settles what the map says: a client that showed, for each device that had reported by
      then, the value as of its cursor, shows every device's value as of now after the first poll. */
  lemma ResumeSettles(cursor: int, cl: Client, w: Windows, r: Reading, at: int, k: nat)
    requires WellRead(r) && r.asOf.Some? && k < |r.named|
    requires forall d :: d in r.asOf.value ==>
               d in cl.devices && cl.devices[d].value == Evaluate(1000 * cursor, Some(1000 * r.asOf.value[d]), w)
    ensures var resumed := FRESH.(since := cursor, cursor := cursor, resuming := true);
            var after := Received(cl, Polled(resumed, w, Some(r), at).1);
            var s := r.named[k];
            s.device in after.devices && after.devices[s.device].value == ValueOf(s, at, w)
  {
    var resumed := FRESH.(since := cursor, cursor := cursor, resuming := true);
    hide Polled, Received, Evaluate, WellRead;
    PollOnRow(resumed, cl, w, r, at, k);
  }
}
