/**
The map at the other end of a stream: it applies the events it is sent and nothing else.  `PollOnRow` says
what one completed poll does to it, device by device.
*/
module StreamAgreement {
  import opened Options
  import opened Presentation
  import opened LiveStream

  // ---- the map page -------------------------------------------------------------------------------------

  // What the map holds about one device: the state it shows, and its marker if it has one.
  datatype Held = Held(value: Value, place: Option<Place>)

  // `interrupted` marks every row as no longer confirmed.
  datatype Client = Client(devices: map<DeviceId, Held>, interrupted: bool)

  const BLANK := Client(map[], false)

  function PlaceHeld(c: Client, d: DeviceId): Option<Place> {
    if d in c.devices then c.devices[d].place else None
  }

  function ValueSaid(p: Payload): Value {
    if p.Unlocated? then NoPosition else p.value
  }

  function OnStreamEvent(c: Client, e: Event): Client {
    match e
    case ErrorEvent => c.(interrupted := true)
    case PositionEvent(_, d, p) =>
      if p.Located? then Client(c.devices[d := Held(p.value, Some(p.position.place))], false)
      else c.(devices := c.devices[d := Held(ValueSaid(p), None)])
    case PresentationEvent(d, p) =>
      if ValueSaid(p) == NoPosition then Client(c.devices[d := Held(NoPosition, None)], false)
      else Client(c.devices[d := Held(ValueSaid(p), PlaceHeld(c, d))], false)
  }

  function Received(c: Client, events: seq<Event>): Client {
    if events == [] then c else OnStreamEvent(Received(c, events[..|events| - 1]), events[|events| - 1])
  }

  lemma {:induction false} ReceivedInTurn(c: Client, a: seq<Event>, b: seq<Event>)
    ensures Received(c, a + b) == Received(Received(c, a), b)
  {
    if b == [] {
      assert a + b == a;
    } else {
      ReceivedInTurn(c, a, b[..|b| - 1]);
      assert (a + b)[..|a + b| - 1] == a + b[..|b| - 1];
    }
  }

  lemma ReceivedOneMore(c: Client, events: seq<Event>, e: Event)
    ensures Received(c, events + [e]) == OnStreamEvent(Received(c, events), e)
  {
    assert (events + [e])[..|events|] == events;
  }

  // What the map should hold about a device, straight from its row.
  function View(s: DeviceState, at: int, w: Windows): Held {
    Held(ValueOf(s, at, w), if s.current.Some? then Some(s.current.value.place) else None)
  }

  // The row of a device the family holds: a position exactly when there is a last contact.
  predicate Whole(s: DeviceState) {
    s.current.Some? <==> s.contact.Some?
  }

  ghost predicate AllWhole(states: seq<DeviceState>) {
    forall i :: 0 <= i < |states| ==> Whole(states[i])
  }

  // ---- what one poll does to the map, device by device ---------------------------------------------------

  ghost predicate SameOn(c: Client, c': Client, d: DeviceId) {
    (d in c.devices <==> d in c'.devices) && (d in c.devices ==> c'.devices[d] == c.devices[d])
  }

  ghost predicate Shows(c: Client, d: DeviceId, h: Held) {
    d in c.devices && c.devices[d] == h
  }

  ghost predicate Names(states: seq<DeviceState>, n: nat, d: DeviceId) {
    exists i :: 0 <= i < n <= |states| && states[i].device == d
  }

  lemma {:induction false} PositionsNotAbout(c: Client, states: seq<DeviceState>, since: int, at: int, w: Windows,
      n: nat, d: DeviceId)
    requires n <= |states|
    requires forall i :: 0 <= i < n && states[i].device == d ==> !Newer(states[i], since)
    ensures SameOn(c, Received(c, Positions(states, since, at, w, n)), d)
  {
    hide EntryFor;
    if n > 0 {
      PositionsNotAbout(c, states, since, at, w, n - 1, d);
      if Newer(states[n - 1], since) {
        var s := states[n - 1];
        var e := PositionEvent(s.current.value.received, s.device, EntryFor(s, at, w));
        ReceivedOneMore(c, Positions(states, since, at, w, n - 1), e);
      }
    }
  }

  lemma WholeView(c: Client, s: DeviceState, id: int, at: int, w: Windows)
    ensures Whole(s) && s.current.Some? ==>
              Shows(OnStreamEvent(c, PositionEvent(id, s.device, EntryFor(s, at, w))), s.device, View(s, at, w))
    ensures forall d :: d != s.device ==>
              SameOn(c, OnStreamEvent(c, PositionEvent(id, s.device, EntryFor(s, at, w))), d)
  {
    hide AgeSeconds;
  }

  lemma {:induction false} PositionsAbout(c: Client, states: seq<DeviceState>, since: int, at: int, w: Windows,
      n: nat, k: nat)
    requires k < n <= |states| && Distinct(states) && Whole(states[k]) && Newer(states[k], since)
    ensures Shows(Received(c, Positions(states, since, at, w, n)), states[k].device, View(states[k], at, w))
    ensures states[k].device in Positioned(states, since, n)
  {
    hide View, EntryFor, OnStreamEvent, Received;
    var last := states[n - 1];
    var before := Positions(states, since, at, w, n - 1);
    if Newer(last, since) {
      var id := last.current.value.received;
      ReceivedOneMore(c, before, PositionEvent(id, last.device, EntryFor(last, at, w)));
      WholeView(Received(c, before), last, id, at, w);
    }
    if k < n - 1 {
      PositionsAbout(c, states, since, at, w, n - 1, k);
      assert last.device != states[k].device;
      assert Shows(Received(c, before), states[k].device, View(states[k], at, w));
      if Newer(last, since) {
        assert SameOn(Received(c, before), Received(c, Positions(states, since, at, w, n)), states[k].device);
      }
    }
  }

  lemma {:induction false} PositionedOnly(states: seq<DeviceState>, since: int, n: nat, d: DeviceId)
    requires n <= |states|
    ensures d in Positioned(states, since, n)
        <==> exists i :: 0 <= i < n && states[i].device == d && Newer(states[i], since)
  {
    if n > 0 {
      PositionedOnly(states, since, n - 1, d);
    }
  }

  // Presentation events about everyone owed one, in turn.
  lemma {:induction false} OwedNotAbout(c: Client, why: Why, states: seq<DeviceState>,
    positioned: set<DeviceId>, at: int, w: Windows, n: nat, d: DeviceId)
    requires n <= |states|
    requires forall i :: 0 <= i < n && states[i].device == d ==> d in positioned || !Owes(why, states[i], at, w)
    ensures var owed := Owed(why, states, positioned, at, w, n);
            SameOn(c, Received(c, Told(owed, at, w, |owed|)), d)
  {
    hide Owes, PresentationPayloadFor;
    if n > 0 {
      OwedNotAbout(c, why, states, positioned, at, w, n - 1, d);
      ToldOneMore(c, why, states, positioned, at, w, n);
    }
  }

  lemma {:induction false} ToldPrefix(owed: seq<DeviceState>, more: seq<DeviceState>, at: int, w: Windows, n: nat)
    requires n <= |owed| <= |more| && owed == more[..|owed|]
    ensures Told(owed, at, w, n) == Told(more, at, w, n)
  {
    if n > 0 {
      ToldPrefix(owed, more, at, w, n - 1);
    }
  }

  lemma ToldOneMore(c: Client, why: Why, states: seq<DeviceState>, positioned: set<DeviceId>, at: int, w: Windows,
      n: nat)
    requires 0 < n <= |states|
    ensures var owed := Owed(why, states, positioned, at, w, n);
            var before := Owed(why, states, positioned, at, w, n - 1);
            var s := states[n - 1];
            Received(c, Told(owed, at, w, |owed|))
            == if s.device !in positioned && Owes(why, s, at, w)
               then OnStreamEvent(Received(c, Told(before, at, w, |before|)),
                                  PresentationEvent(s.device, PresentationPayloadFor(s, at, w)))
               else Received(c, Told(before, at, w, |before|))
  {
    hide Owes, PresentationPayloadFor, OnStreamEvent;
    var owed := Owed(why, states, positioned, at, w, n);
    var before := Owed(why, states, positioned, at, w, n - 1);
    var s := states[n - 1];
    if s.device !in positioned && Owes(why, s, at, w) {
      assert owed[..|before|] == before;
      ToldPrefix(before, owed, at, w, |before|);
      ReceivedOneMore(c, Told(before, at, w, |before|), PresentationEvent(s.device, PresentationPayloadFor(s, at, w)));
    }
  }

  // What a presentation event does to a client.
  function Told1(c: Client, s: DeviceState, at: int, w: Windows): Held {
    Held(ValueOf(s, at, w), if s.current.Some? then PlaceHeld(c, s.device) else None)
  }

  lemma FreshnessOnly(c: Client, s: DeviceState, at: int, w: Windows)
    requires Whole(s)
    ensures Shows(OnStreamEvent(c, PresentationEvent(s.device, PresentationPayloadFor(s, at, w))),
                  s.device, Told1(c, s, at, w))
    ensures forall d :: d != s.device ==> SameOn(c, OnStreamEvent(c, PresentationEvent(s.device,
        PresentationPayloadFor(s, at, w))), d)
  {
    hide AgeSeconds;
  }

  // A device told of its freshness keeps its marker, unless it lost its position.
  lemma {:induction false} OwedAbout(c: Client, why: Why, states: seq<DeviceState>,
    positioned: set<DeviceId>, at: int, w: Windows, n: nat, k: nat)
    requires k < n <= |states| && Distinct(states) && Whole(states[k]) && AllWhole(states)
    requires states[k].device !in positioned && Owes(why, states[k], at, w)
    ensures var owed := Owed(why, states, positioned, at, w, n);
            Shows(Received(c, Told(owed, at, w, |owed|)), states[k].device, Told1(c, states[k], at, w))
  {
    hide Owes, ValueOf, PresentationPayloadFor, OnStreamEvent, Owed, Told, Received;
    ToldOneMore(c, why, states, positioned, at, w, n);
    var before := Owed(why, states, positioned, at, w, n - 1);
    FreshnessOnly(Received(c, Told(before, at, w, |before|)), states[n - 1], at, w);
    if k < n - 1 {
      OwedAbout(c, why, states, positioned, at, w, n - 1, k);
      assert states[n - 1].device != states[k].device;
      assert Shows(Received(c, Told(before, at, w, |before|)), states[k].device, Told1(c, states[k], at, w));
      var owed := Owed(why, states, positioned, at, w, n);
      if states[n - 1].device !in positioned && Owes(why, states[n - 1], at, w) {
        assert SameOn(Received(c, Told(before, at, w, |before|)), Received(c, Told(owed, at, w, |owed|)),
            states[k].device);
      }
      assert Shows(Received(c, Told(owed, at, w, |owed|)), states[k].device, Told1(c, states[k], at, w));
    } else {
      assert forall i :: 0 <= i < k ==> states[i].device != states[k].device;
      OwedNotAbout(c, why, states, positioned, at, w, n - 1, states[k].device);
    }
  }

  // ---- one poll -----------------------------------------------------------------------------------------

  // What a read of the family gives the poll: its rows, twice.
  ghost predicate WellRead(r: Reading) {
    && Distinct(r.states) && AllWhole(r.states)
    && SameRows(r.named, r.states)
  }

  lemma Once(states: seq<DeviceState>, p: nat)
    requires Distinct(states) && p < |states|
    ensures multiset(states)[states[p]] == 1
  {
    var x := states[p];
    assert states == states[..p] + [x] + states[p + 1..];
    assert x !in states[..p] && x !in states[p + 1..];
  }

  lemma Twice(states: seq<DeviceState>, i: nat, j: nat)
    requires i < j < |states| && states[i] == states[j]
    ensures multiset(states)[states[i]] >= 2
  {
    assert states == states[..i] + [states[i]] + states[i + 1..j] + [states[j]] + states[j + 1..];
  }

  lemma RowOf(a: seq<DeviceState>, b: seq<DeviceState>, i: nat) returns (j: nat)
    requires SameRows(a, b) && i < |a|
    ensures j < |b| && b[j] == a[i]
  {
    assert a[i] in multiset(a);
    j :| j < |b| && b[j] == a[i];
  }

  lemma SameRowsDistinct(a: seq<DeviceState>, b: seq<DeviceState>)
    requires SameRows(b, a) && Distinct(a) && AllWhole(a)
    ensures Distinct(b) && AllWhole(b)
  {
    forall i, j | 0 <= i < j < |b| ensures b[i].device != b[j].device {
      var p := RowOf(b, a, i);
      var q := RowOf(b, a, j);
      if p == q {
        Once(a, p);
        Twice(b, i, j);
        assert false;
      }
    }
    forall i | 0 <= i < |b| ensures Whole(b[i]) {
      var p := RowOf(b, a, i);
    }
  }

  function AsOf(r: Reading): map<DeviceId, int> {
    if r.asOf.Some? then r.asOf.value else map[]
  }

  // The poll reached its end: only a resume sweep can fail after the family was read.
  predicate Completes(c: Conn, r: Reading) {
    c.swept || !c.resuming || r.asOf.Some?
  }

  /** A poll, device by device: a newer position brings the whole view; otherwise a device that is owed one
      is told its freshness, and the map about every other device stays as it was. */
  lemma PollOnRow(c: Conn, cl: Client, w: Windows, r: Reading, at: int, k: nat)
    requires WellRead(r) && Completes(c, r) && k < |r.named|
    ensures var s := r.named[k];
            var after := Received(cl, Polled(c, w, Some(r), at).1);
            if Newer(s, c.since) then Shows(after, s.device, View(s, at, w))
            else if Owes(WhyOf(c, AsOf(r)), s, at, w) then Shows(after, s.device, Told1(cl, s, at, w))
            else SameOn(cl, after, s.device)
  {
    var s := r.named[k];
    var why := WhyOf(c, AsOf(r));
    var states := SortByArrival(r.states);
    SortSorts(r.states);
    SameRowsDistinct(r.states, states);
    SameRowsDistinct(r.states, r.named);
    assert SameRows(r.named, states);
    var j := RowOf(r.named, states, k);
    hide Owes, Newer, View, SortByArrival, Positions, Owed, Told, WellRead, SameRows, Evaluate, SinceAfter, WhyOf;
    var n := |states|;
    var positioned := Positioned(states, c.since, n);
    var sent := Positions(states, c.since, at, w, n);
    var owed := Owed(why, r.named, positioned, at, w, |r.named|);
    var told := Told(owed, at, w, |owed|);
    var mid := Received(cl, sent);
    ReceivedInTurn(cl, sent, told);
    PositionedOnly(states, c.since, n, s.device);
    if Newer(s, c.since) {
      PositionsAbout(cl, states, c.since, at, w, n, j);
      OwedNotAbout(mid, why, r.named, positioned, at, w, |r.named|, s.device);
    } else {
      assert forall i :: 0 <= i < n && states[i].device == s.device ==> i == j;
      PositionsNotAbout(cl, states, c.since, at, w, n, s.device);
      assert s.device !in positioned;
      if Owes(why, s, at, w) {
        OwedAbout(mid, why, r.named, positioned, at, w, |r.named|, k);
      } else {
        assert forall i :: 0 <= i < |r.named| && r.named[i].device == s.device ==> i == k;
        OwedNotAbout(mid, why, r.named, positioned, at, w, |r.named|, s.device);
      }
    }
  }

  // Nothing is said about a device the family does not have.
  lemma PollElsewhere(c: Conn, cl: Client, w: Windows, r: Reading, at: int, d: DeviceId)
    requires WellRead(r) && Completes(c, r) && !Names(r.named, |r.named|, d)
    ensures SameOn(cl, Received(cl, Polled(c, w, Some(r), at).1), d)
  {
    var why := WhyOf(c, AsOf(r));
    var states := SortByArrival(r.states);
    SortSorts(r.states);
    assert SameRows(states, r.named);
    forall i | 0 <= i < |states| ensures states[i].device != d {
      var k := RowOf(states, r.named, i);
      assert Names(r.named, |r.named|, r.named[k].device);
    }
    forall i | 0 <= i < |r.named| ensures r.named[i].device != d {
      assert Names(r.named, |r.named|, r.named[i].device);
    }
    hide Owes, Newer, SortByArrival, Positions, Owed, Told, Evaluate, SinceAfter, WhyOf;
    var n := |states|;
    var positioned := Positioned(states, c.since, n);
    var sent := Positions(states, c.since, at, w, n);
    var owed := Owed(why, r.named, positioned, at, w, |r.named|);
    ReceivedInTurn(cl, sent, Told(owed, at, w, |owed|));
    PositionsNotAbout(cl, states, c.since, at, w, n, d);
    OwedNotAbout(Received(cl, sent), why, r.named, positioned, at, w, |r.named|, d);
  }
}
