/**
What a connection says on each of its polls, and what it leaves unsaid, told by what its polls have read: no
more than a newer position or a changed freshness, everything once after an outage, and on a client's return
what has changed since its cursor.
*/
module StreamSilence {
  import opened Options
  import opened Presentation
  import opened LiveStream
  import opened StreamAgreement
  import opened StreamCursor
  import opened StreamResume

  // ---- what the payloads say ------------------------------------------------------------------------------

  // The newest arrival of any fix, in whole seconds.
  ghost predicate LastHeard(fixes: Fixes, micros: int) {
    && (exists ts :: ts in fixes && fixes[ts].received == micros)
    && (forall ts :: ts in fixes ==> fixes[ts].received <= micros)
  }

  /** A position event carries the newest fix by event time; both kinds of event carry the newest arrival of
      any fix, in whole seconds, and the value it comes to at that instant; and of a device without a fix they
      say only that. */
  lemma PayloadsSay(s: DeviceState, fixes: Fixes, at: int, w: Windows)
    requires Describes(s, fixes)
    ensures fixes == map[] ==> EntryFor(s, at, w) == Unlocated == PresentationPayloadFor(s, at, w)
    ensures fixes != map[] ==>
              exists micros, ts :: LastHeard(fixes, micros) && ts in fixes
                && (forall other :: other in fixes ==> other <= ts)
                && var value := Evaluate(at, Some(1000 * micros), w);
                   && EntryFor(s, at, w)
                      == Located(Position(ts, fixes[ts].received, fixes[ts].place), value, micros / 1_000_000)
                   && PresentationPayloadFor(s, at, w) == Update(value, micros / 1_000_000)
  {
    if fixes != map[] {
      var micros, p := s.contact.value, s.current.value;
      assert LastHeard(fixes, micros) && p.ts in fixes;
      SecondsOf(micros);
      hide AgeSeconds, Unix;
      assert Evaluate(at, Some(1000 * micros), w) != NoPosition;
    }
  }

  lemma SecondsOf(micros: int)
    ensures Unix(1000 * micros) == micros / 1_000_000
  {
    assert micros == micros / 1_000_000 * 1_000_000 + micros % 1_000_000;
  }

  // ---- what a connection remembers ---------------------------------------------------------------------------

  // The last of the first n passes that got through: it read the family, and, while a resumed connection has
  // none behind it, the past contacts too.
  function LastThrough(cursor: Option<int>, passes: seq<Pass>, n: nat): (last: Option<nat>)
    requires n <= |passes|
    ensures last.Some? ==> last.value < n && passes[last.value].found.Some?
  {
    if n == 0 then None
    else
      var before := LastThrough(cursor, passes, n - 1);
      var found := passes[n - 1].found;
      if found.Some? && GetsThrough(cursor, before, found.value) then Some(n - 1) else before
  }

  // Having read the family, a poll gets through.
  predicate GetsThrough(cursor: Option<int>, last: Option<nat>, r: Reading) {
    cursor.None? || r.asOf.Some? || last.Some?
  }

  lemma {:induction false} Remembered(cursor: Option<int>, w: Windows, passes: seq<Pass>, n: nat)
    requires n <= |passes|
    ensures var c := Passes(Opened(cursor), w, passes, n).0; var last := LastThrough(cursor, passes, n);
            && c.resuming == cursor.Some? && c.cursor == Start(cursor)
            && (c.swept <==> last.Some?) && (c.degraded <==> n > 0 && last != Some(n - 1))
            && (last.Some? ==> var p := passes[last.value];
                               && c.prev == Observed(p.found.value.named, |p.found.value.named|) && c.prevAt == p.at)
  {
    hide SortByArrival, Positions, SinceAfter, Positioned, Owed, Told, Observed;
    if n > 0 {
      Remembered(cursor, w, passes, n - 1);
    }
  }

  lemma {:induction false} ObservedRows(states: seq<DeviceState>, n: nat, d: DeviceId)
    requires n <= |states| && Distinct(states)
    ensures d in Observed(states, n) <==> exists j :: 0 <= j < n && states[j].device == d
    ensures forall j :: 0 <= j < n && states[j].device == d ==> Observed(states, n)[d] == states[j].contact
  {
    if n > 0 {
      ObservedRows(states, n - 1, d);
    }
  }

  // ---- when it speaks -----------------------------------------------------------------------------------------

  ghost predicate SpeaksOf(events: seq<Event>, d: DeviceId) {
    exists i :: 0 <= i < |events| && !events[i].ErrorEvent? && events[i].device == d
  }

  // What a last contact, in microseconds, comes to.
  function Freshness(contact: Option<int>, at: int, w: Windows): Value {
    if contact.None? then NoPosition else Evaluate(at, Some(1000 * contact.value), w)
  }

  // A row of that pass, of the same device, that came to something else then.
  ghost predicate Changed(p: Pass, s: DeviceState, at: int, w: Windows)
    requires p.found.Some?
  {
    var rows := p.found.value.named;
    exists j :: 0 <= j < |rows| && rows[j].device == s.device
      && Freshness(rows[j].contact, p.at, w) != Freshness(s.contact, at, w)
  }

  // The device had not reported by then, or what it had reported came to something else.
  predicate ChangedSince(cursor: int, asOf: map<DeviceId, int>, s: DeviceState, at: int, w: Windows) {
    s.device !in asOf || Evaluate(1000 * cursor, Some(1000 * asOf[s.device]), w) != Freshness(s.contact, at, w)
  }

  // Its position arrived after the last id the client has been sent, or came with.
  ghost predicate Moved(s: DeviceState, seen: Option<int>) {
    s.current.Some? && s.current.value.received > if seen.Some? then seen.value else ZERO_TIME
  }

  // What there is to say about a row besides its position.
  ghost predicate Fresher(cursor: Option<int>, passes: seq<Pass>, n: nat, r: Reading, s: DeviceState, at: int,
      w: Windows)
    requires n <= |passes| && GetsThrough(cursor, LastThrough(cursor, passes, n), r)
  {
    match LastThrough(cursor, passes, n)
    case Some(p) => p < n - 1 || Changed(passes[p], s, at, w)
    case None => if cursor.Some? then ChangedSince(cursor.value, r.asOf.value, s, at, w) else s.contact.None?
  }

  ghost predicate AllWellRead(passes: seq<Pass>) {
    forall i :: 0 <= i < |passes| && passes[i].found.Some? ==> WellRead(passes[i].found.value)
  }

  lemma AboutIsSpeaking(events: seq<Event>, d: DeviceId)
    ensures SpeaksOf(events, d) <==> About(events, d) != []
  {
    if SpeaksOf(events, d) {
      var i :| 0 <= i < |events| && !events[i].ErrorEvent? && events[i].device == d;
      AboutMembers(events, d, events[i]);
    }
    if About(events, d) != [] {
      AboutMembers(events, d, About(events, d)[0]);
    }
  }

  lemma OwesIsFresher(cursor: Option<int>, w: Windows, passes: seq<Pass>, n: nat, r: Reading, s: DeviceState, at: int)
    requires n <= |passes| && GetsThrough(cursor, LastThrough(cursor, passes, n), r) && AllWellRead(passes)
    ensures var c := Passes(Opened(cursor), w, passes, n).0;
            Owes(WhyOf(c, AsOf(r)), s, at, w) <==> Fresher(cursor, passes, n, r, s, at, w)
  {
    Remembered(cursor, w, passes, n);
    var last := LastThrough(cursor, passes, n);
    hide Passes, LastThrough, Evaluate, Observed, WellRead;
    if last.Some? {
      var before := passes[last.value].found.value;
      WellReadRows(before);
      ObservedRows(before.named, |before.named|, s.device);
    } else if cursor.None? {
      NoPositionIsNoContact(s.contact, at, w);
    }
  }

  lemma WellReadRows(r: Reading)
    requires WellRead(r)
    ensures Distinct(r.named)
  {
    SameRowsDistinct(r.states, r.named);
  }

  lemma NoPositionIsNoContact(contact: Option<int>, at: int, w: Windows)
    ensures Freshness(contact, at, w) == NoPosition <==> contact.None?
  {
  }

  /** On every poll that gets through, of every connection, a device is spoken of if and only if its position
      arrived after the last id its client has been sent or came with, or: after an outage, in any case; else,
      when the poll before it read the device and its freshness has changed since; on a client's return, when it
      had not reported by the cursor or its freshness has changed since; at the start of a fresh connection,
      when it has no fix. */
  lemma SpeaksExactly(cursor: Option<int>, w: Windows, passes: seq<Pass>, n: nat, r: Reading, at: int, k: nat)
    requires n <= |passes| && AllWellRead(passes) && WellRead(r) && k < |r.named|
    requires GetsThrough(cursor, LastThrough(cursor, passes, n), r)
    ensures var (c, written) := Passes(Opened(cursor), w, passes, n); var s := r.named[k];
            SpeaksOf(Polled(c, w, Some(r), at).1, s.device)
            <==> Moved(s, LastSeen(written, cursor)) || Fresher(cursor, passes, n, r, s, at, w)
  {
    var (c, written) := Passes(Opened(cursor), w, passes, n);
    Remembered(cursor, w, passes, n);
    CursorIsLastSeen(cursor, w, passes, n);
    hide Passes, LastThrough, Polled, WellRead, About, Owes, WhyOf, Fresher, EntryFor, PresentationPayloadFor,
         LastSeen, SpeaksOf;
    OneEventEach(c, w, r, at, k);
    AboutIsSpeaking(Polled(c, w, Some(r), at).1, r.named[k].device);
    OwesIsFresher(cursor, w, passes, n, r, r.named[k], at);
  }

  // ---- when it is silent -----------------------------------------------------------------------------------------

  lemma {:induction false} ToldRow(owed: seq<DeviceState>, at: int, w: Windows, n: nat, i: nat)
    requires n <= |owed| && i < |Told(owed, at, w, n)|
    ensures i < n && Told(owed, at, w, n)[i].PresentationEvent? && Told(owed, at, w, n)[i].device == owed[i].device
  {
    hide PresentationPayloadFor;
    ToldLength(owed, at, w, n);
    if i < n - 1 {
      ToldLength(owed, at, w, n - 1);
      ToldRow(owed, at, w, n - 1, i);
    } else {
      ToldLength(owed, at, w, n - 1);
    }
  }

  lemma {:induction false} OwedRow(why: Why, states: seq<DeviceState>, positioned: set<DeviceId>, at: int, w: Windows,
      n: nat, i: nat) returns (k: nat)
    requires n <= |states| && i < |Owed(why, states, positioned, at, w, n)|
    ensures k < n && states[k] == Owed(why, states, positioned, at, w, n)[i]
  {
    hide Owes;
    if i < |Owed(why, states, positioned, at, w, n - 1)| {
      k := OwedRow(why, states, positioned, at, w, n - 1, i);
    } else {
      k := n - 1;
    }
  }

  // Every event of a poll that gets through is about a row it read.
  lemma OnlyOfRows(c: Conn, w: Windows, r: Reading, at: int, i: nat) returns (k: nat)
    requires WellRead(r) && Completes(c, r) && i < |Polled(c, w, Some(r), at).1|
    ensures var e := Polled(c, w, Some(r), at).1[i]; k < |r.named| && !e.ErrorEvent? && e.device == r.named[k].device
  {
    var states := SortByArrival(r.states);
    var sent := Batch(r, c.since, at, w);
    var owed := Owed(WhyOf(c, AsOf(r)), r.named, Positioned(states, c.since, |states|), at, w, |r.named|);
    assert Polled(c, w, Some(r), at).1 == sent + Told(owed, at, w, |owed|);
    if i < |sent| {
      k := BatchRow(r, c.since, at, w, i);
    } else {
      hide Polled, Batch, WellRead, SortByArrival;
      ToldRow(owed, at, w, |owed|, i - |sent|);
      k := OwedRow(WhyOf(c, AsOf(r)), r.named, Positioned(states, c.since, |states|), at, w, |r.named|, i - |sent|);
    }
  }

  /** So a poll that gets through says nothing if and only if there is nothing to say about any row it read. */
  lemma SilentExactly(cursor: Option<int>, w: Windows, passes: seq<Pass>, n: nat, r: Reading, at: int)
    requires n <= |passes| && AllWellRead(passes) && WellRead(r)
    requires GetsThrough(cursor, LastThrough(cursor, passes, n), r)
    ensures var (c, written) := Passes(Opened(cursor), w, passes, n);
            Polled(c, w, Some(r), at).1 == []
            <==> forall k :: 0 <= k < |r.named| ==>
                   !Moved(r.named[k], LastSeen(written, cursor)) && !Fresher(cursor, passes, n, r, r.named[k], at, w)
  {
    var (c, written) := Passes(Opened(cursor), w, passes, n);
    Remembered(cursor, w, passes, n);
    hide Passes, LastThrough, Polled, WellRead, Fresher, Moved, LastSeen;
    var events := Polled(c, w, Some(r), at).1;
    forall k | 0 <= k < |r.named|
      ensures SpeaksOf(events, r.named[k].device)
              <==> Moved(r.named[k], LastSeen(written, cursor)) || Fresher(cursor, passes, n, r, r.named[k], at, w)
    {
      SpeaksExactly(cursor, w, passes, n, r, at, k);
    }
    if events != [] {
      var k := OnlyOfRows(c, w, r, at, 0);
      assert SpeaksOf(events, r.named[k].device);
    }
  }

  /** In particular: right after a poll that got through, the same rows read again, each coming to the same
      value as before, are not spoken of, however often. */
  lemma UnchangedIsSilent(cursor: Option<int>, w: Windows, passes: seq<Pass>, n: nat, r: Reading, at: int)
    requires 0 < n <= |passes| && AllWellRead(passes) && WellRead(r)
    requires LastThrough(cursor, passes, n) == Some(n - 1)
    requires forall k :: 0 <= k < |r.named| ==>
               && !Changed(passes[n - 1], r.named[k], at, w)
               && !Moved(r.named[k], LastSeen(Passes(Opened(cursor), w, passes, n).1, cursor))
    ensures Polled(Passes(Opened(cursor), w, passes, n).0, w, Some(r), at).1 == []
  {
    hide Passes, LastThrough, Polled, WellRead, Changed, Moved, LastSeen;
    SilentExactly(cursor, w, passes, n, r, at);
  }

  // ---- outages -------------------------------------------------------------------------------------------------

  /** When an outage is reported.  A poll that cannot read the family reports it if and only if the poll before
      it got through; but one that reads the family and not the past contacts reports it every time. */
  lemma ReportsExactly(cursor: Option<int>, w: Windows, passes: seq<Pass>, n: nat, found: Option<Reading>, at: int)
    requires n <= |passes|
    ensures var c := Passes(Opened(cursor), w, passes, n).0; var last := LastThrough(cursor, passes, n);
            ErrorEvent in Polled(c, w, found, at).1
            <==> if found.None? then n == 0 || last == Some(n - 1) else !GetsThrough(cursor, last, found.value)
  {
    Remembered(cursor, w, passes, n);
    var c := Passes(Opened(cursor), w, passes, n).0;
    hide Passes, LastThrough;
    if found.Some? {
      NoErrorInBatch(c, w, found.value, at);
    }
  }

  /** So a client that returns while the past contacts cannot be read is told so on every single poll, although
      one report an outage is what the health of a connection is kept for. */
  lemma {:induction false} ReportedOnEveryPoll(cursor: int, w: Windows, passes: seq<Pass>, n: nat)
    requires n <= |passes| && forall i :: 0 <= i < n ==> passes[i].found == Some(Reading([], [], None))
    ensures LastThrough(Some(cursor), passes, n) == None
    ensures Passes(Opened(Some(cursor)), w, passes, n).1 == seq(n, i => ErrorEvent)
  {
    if n > 0 {
      ReportedOnEveryPoll(cursor, w, passes, n - 1);
      Remembered(Some(cursor), w, passes, n - 1);
      assert SortByArrival([]) == [];
    }
  }

  lemma NoErrorInBatch(c: Conn, w: Windows, r: Reading, at: int)
    ensures ErrorEvent in Polled(c, w, Some(r), at).1 <==> !Completes(c, r)
  {
    var states := SortByArrival(r.states);
    BatchOfPositions(r, c.since, at, w);
    var sent := Batch(r, c.since, at, w);
    hide SortByArrival, Positions, SinceAfter, Observed;
    assert ErrorEvent !in sent;
    if Completes(c, r) {
      var owed := Owed(WhyOf(c, AsOf(r)), r.named, Positioned(states, c.since, |states|), at, w, |r.named|);
      hide Told;
      forall i | 0 <= i < |Told(owed, at, w, |owed|)| ensures !Told(owed, at, w, |owed|)[i].ErrorEvent? {
        ToldRow(owed, at, w, |owed|, i);
      }
    }
  }
}
