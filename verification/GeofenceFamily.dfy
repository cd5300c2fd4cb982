/**
A family's passes against the evaluator of one Place: each pass leaves every Place it comes to as that
evaluator would, so whatever is proved of one Place's log holds of every Place of the family.
*/
module GeofenceFamily {
  import opened DwellMachine
  import opened GeofenceLog
  import opened GeofencePlaces
  import opened GeofenceReordering
  import opened Options
  import opened Sequences

  // ---- one pass ------------------------------------------------------------------------------------------

  // What a whole evaluation of a Place makes of its log.
  ghost function Whole(t: Table, v: Visit, g: Trigger): seq<Transition>
    requires Ordered(v.fixes)
  {
    GeofenceLog.Evaluate(v.fixes, LogOf(t, v.place), g.around, g.debounce)
  }

  // The database cuts the evaluation short: it cannot read, or it fails an INSERT that was still to come.
  ghost predicate Interrupted(t: Table, v: Visit, g: Trigger)
    requires Ordered(v.fixes)
  {
    match v.luck
    case Works => false
    case ReadFails => true
    case InsertFails(after) => |LogOf(t, v.place)| + after < |Whole(t, v, g)|
  }

  // The log as far as the evaluation got.
  ghost function Reached(t: Table, v: Visit, g: Trigger): seq<Transition>
    requires Ordered(v.fixes)
  {
    if !Interrupted(t, v, g) then Whole(t, v, g)
    else if v.luck.ReadFails? then LogOf(t, v.place)
    else Whole(t, v, g)[..|LogOf(t, v.place)| + v.luck.after]
  }

  ghost predicate EachAlternates(t: Table) {
    forall p :: Alternating(LogOf(t, p), true)
  }

  lemma DueIsTheRest(t: Table, v: Visit, g: Trigger)
    requires Ordered(v.fixes) && Alternating(LogOf(t, v.place), true)
    ensures Whole(t, v, g) == LogOf(t, v.place) + Due(v, LogOf(t, v.place), g)
    ensures Alternating(Whole(t, v, g), true)
  {
    EvaluationAppends(v.fixes, LogOf(t, v.place), g.around, g.debounce);
  }

  lemma InsertsAreAppended(log: seq<Transition>, ts: seq<Transition>)
    requires Alternating(log + ts, true)
    ensures InsertAll(log, ts) == log + ts
  {
    forall a, b | 0 <= a < |log| && 0 <= b < |ts| ensures log[a].ts < ts[b].ts {
      assert (log + ts)[a].ts < (log + ts)[|log| + b].ts;
    }
    forall a, b | 0 <= a < b < |ts| ensures ts[a].ts < ts[b].ts {
      assert (log + ts)[|log| + a].ts < (log + ts)[|log| + b].ts;
    }
    InsertAllAppends(log, ts);
  }

  lemma PrefixAlternates(log: seq<Transition>, n: nat)
    requires Alternating(log, true) && n <= |log|
    ensures Alternating(log[..n], true)
  {
  }

  // The visit of a pass, in these terms.
  lemma VisitReaches(t: Table, v: Visit, g: Trigger)
    requires Ordered(v.fixes) && Alternating(LogOf(t, v.place), true)
    ensures Fails(v, LogOf(t, v.place), g) <==> Interrupted(t, v, g)
    ensures InsertAll(LogOf(t, v.place), Inserted(v, LogOf(t, v.place), g)) == Reached(t, v, g)
    ensures Alternating(Reached(t, v, g), true) && LogOf(t, v.place) <= Reached(t, v, g) <= Whole(t, v, g)
  {
    hide *;
    DueIsTheRest(t, v, g);
    InsertedIsReached(t, v, g);
    PrefixAlternates(Whole(t, v, g), |Reached(t, v, g)|);
    InsertsAreAppended(LogOf(t, v.place), Inserted(v, LogOf(t, v.place), g));
  }

  lemma InsertedIsReached(t: Table, v: Visit, g: Trigger)
    requires Ordered(v.fixes) && Whole(t, v, g) == LogOf(t, v.place) + Due(v, LogOf(t, v.place), g)
    ensures Fails(v, LogOf(t, v.place), g) <==> Interrupted(t, v, g)
    ensures LogOf(t, v.place) + Inserted(v, LogOf(t, v.place), g) == Reached(t, v, g)
    ensures LogOf(t, v.place) <= Reached(t, v, g) <= Whole(t, v, g)
    ensures Reached(t, v, g) == Whole(t, v, g)[..|Reached(t, v, g)|]
  {
    var log, due := LogOf(t, v.place), Due(v, LogOf(t, v.place), g);
    hide Due, Whole, LogOf, Ordered;
    if Fails(v, log, g) && v.luck.InsertFails? {
      assert (log + due)[..|log| + v.luck.after] == log + due[..v.luck.after];
    }
  }

  /** A pass over a family: every Place up to the first whose evaluation is cut short has the log a whole
      evaluation leaves, that one has as much of it as was reached, and every later one has the log it had. */
  lemma PassReaches(t: Table, visits: seq<Visit>, g: Trigger, i: nat)
    requires WellGiven(visits) && EachAlternates(t) && i < |visits|
    ensures LogOf(After(t, visits, g, Made(t, visits, g)), visits[i].place)
         == if exists k :: 0 <= k < i && Interrupted(t, visits[k], g) then LogOf(t, visits[i].place)
            else Reached(t, visits[i], g)
  {
    hide Interrupted, Reached, Fails, Inserted, After, Made, LogOf, Alternating;
    EachAsAlone(t, visits, g, i);
    forall k | 0 <= k < |visits|
      ensures Fails(visits[k], LogOf(t, visits[k].place), g) <==> Interrupted(t, visits[k], g)
      ensures InsertAll(LogOf(t, visits[k].place), Inserted(visits[k], LogOf(t, visits[k].place), g))
           == Reached(t, visits[k], g)
    {
      VisitReaches(t, visits[k], g);
    }
  }

  lemma {:induction false} FewerInserts(log: seq<Transition>, ts: seq<Transition>, m: nat)
    requires m <= |ts|
    ensures log <= InsertAll(log, ts[..m]) <= InsertAll(log, ts)
    decreases |ts|
  {
    hide HasRow;
    if m > 0 {
      assert ts[..m][1..] == ts[1..][..m - 1];
      FewerInserts(Insert(log, ts[0]), ts[1..], m - 1);
    } else {
      assert InsertAll(log, ts[..0]) == log;
      if ts != [] {
        FewerInserts(Insert(log, ts[0]), ts[1..], 0);
      }
    }
  }

  /** And whatever the logs hold: a Place with nothing interrupted before it ends up between the log it had and
      the log a whole evaluation leaves, and with the latter when its own is not interrupted either. */
  lemma PassIsEvaluated(t: Table, visits: seq<Visit>, g: Trigger, i: nat)
    requires WellGiven(visits) && i < |visits| && forall k :: 0 <= k < i ==> visits[k].luck == Works
    ensures var after := LogOf(After(t, visits, g, Made(t, visits, g)), visits[i].place);
            && LogOf(t, visits[i].place) <= after <= Whole(t, visits[i], g)
            && (visits[i].luck == Works ==> after == Whole(t, visits[i], g))
  {
    EachAsAlone(t, visits, g, i);
    var v, log := visits[i], LogOf(t, visits[i].place);
    var due := Due(v, log, g);
    assert FirstFailure(t, visits, g, |visits|) >= i;
    FewerInserts(log, due, 0);
    FewerInserts(log, due, |Inserted(v, log, g)|);
    assert Inserted(v, log, g) == due[..|Inserted(v, log, g)|];
  }

  /** The log of a Place the pass does not visit is left as it was. */
  lemma PassLeaves(t: Table, visits: seq<Visit>, g: Trigger, p: PlaceId)
    requires WellGiven(visits) && p !in Places(visits)
    ensures LogOf(After(t, visits, g, Made(t, visits, g)), p) == LogOf(t, p)
  {
    hide After, LogOf, Fails;
    forall i | 0 <= i < |visits| ensures visits[i].place != p {
      assert Places(visits)[i] in Places(visits);
    }
    UntouchedBefore(t, visits, g, Made(t, visits, g), p);
  }

  /** A pass that nothing interrupts leaves a Place's log the batch projection of its fixes if and only if that
      log was a beginning of it, when its read reaches the newest fix and cuts nothing off that matters. */
  lemma PassConverges(t: Table, visits: seq<Visit>, g: Trigger, i: nat)
    requires WellGiven(visits) && EachAlternates(t) && i < |visits|
    requires forall k :: 0 <= k <= i ==> !Interrupted(t, visits[k], g)
    requires ReadsEnough(visits[i].fixes, LogOf(t, visits[i].place), g.around)
    ensures var v := visits[i];
            LogOf(After(t, visits, g, Made(t, visits, g)), v.place) == Batch(v.fixes, g.debounce)
            <==> LogOf(t, v.place) <= Batch(v.fixes, g.debounce)
  {
    PassReaches(t, visits, g, i);
    hide After, Made, Interrupted, ReadsEnough, LogOf, Alternating, Batch, Evaluate;
    ConvergesExactly(visits[i].fixes, LogOf(t, visits[i].place), g.around, g.debounce);
  }

  // How many rows the first n visits add.
  ghost function RowsBefore(t: Table, visits: seq<Visit>, g: Trigger, n: nat): int
    requires n <= |visits| && WellGiven(visits)
  {
    if n == 0 then 0
    else RowsBefore(t, visits, g, n - 1) + |Reached(t, visits[n - 1], g)| - |LogOf(t, visits[n - 1].place)|
  }

  lemma VisitReturns(t: Table, v: Visit, g: Trigger)
    requires Ordered(v.fixes) && Alternating(LogOf(t, v.place), true)
    ensures var log := LogOf(t, v.place);
            && log <= Reached(t, v, g)
            && RowsOf(v.place, Added(log, Inserted(v, log, g))) == RowsOf(v.place, Reached(t, v, g)[|log|..])
  {
    VisitReaches(t, v, g);
    var log := LogOf(t, v.place);
    hide Inserted, LogOf, Reached, Alternating, Ordered, RowsOf, Whole;
    assert (log + Added(log, Inserted(v, log, g)))[|log|..] == Added(log, Inserted(v, log, g));
  }

  // What the nth visit adds to what is returned.
  lemma OneMoreReturned(t: Table, visits: seq<Visit>, g: Trigger, n: nat)
    requires WellGiven(visits) && EachAlternates(t) && 0 < n <= |visits|
    ensures var v := visits[n - 1]; var log, reached := LogOf(t, v.place), Reached(t, v, g);
            && |log| <= |reached|
            && Returned(t, visits, g, n) == Returned(t, visits, g, n - 1) + RowsOf(v.place, reached[|log|..])
  {
    VisitReturns(t, visits[n - 1], g);
    hide Inserted, Added, Reached, LogOf, Alternating, RowsOf;
  }

  lemma RowAt(p: PlaceId, log: seq<Transition>, reached: seq<Transition>, k: nat)
    requires |log| <= k < |reached|
    ensures var rows := RowsOf(p, reached[|log|..]);
            |rows| == |reached| - |log| && rows[k - |log|] == Row(p, reached[k])
  {
  }

  lemma {:induction false} ReturnedCount(t: Table, visits: seq<Visit>, g: Trigger, n: nat)
    requires WellGiven(visits) && EachAlternates(t) && n <= |visits|
    ensures |Returned(t, visits, g, n)| == RowsBefore(t, visits, g, n)
  {
    hide Returned, Reached, LogOf, EachAlternates, WellGiven;
    if n == 0 {
      NoneReturned(t, visits, g);
    } else {
      ReturnedCount(t, visits, g, n - 1);
      OneMoreReturned(t, visits, g, n);
    }
  }

  lemma NoneReturned(t: Table, visits: seq<Visit>, g: Trigger)
    requires WellGiven(visits)
    ensures Returned(t, visits, g, 0) == []
  {
  }

  /** What a pass returns: Place after Place, up to the first whose evaluation is cut short, each event the
      evaluation added to that Place's log, in the order of the log, and nothing else. */
  lemma {:induction false} PassReturns(t: Table, visits: seq<Visit>, g: Trigger, n: nat, i: nat, k: nat)
    requires WellGiven(visits) && EachAlternates(t) && i < n <= |visits|
    requires |LogOf(t, visits[i].place)| <= k < |Reached(t, visits[i], g)|
    ensures |Returned(t, visits, g, n)| == RowsBefore(t, visits, g, n)
    ensures var at := RowsBefore(t, visits, g, i) + k - |LogOf(t, visits[i].place)|;
            && 0 <= at < |Returned(t, visits, g, n)|
            && Returned(t, visits, g, n)[at] == Row(visits[i].place, Reached(t, visits[i], g)[k])
    decreases n
  {
    hide Returned, Reached, LogOf, EachAlternates, RowsBefore, RowsOf, Ordered, Places;
    ReturnedCount(t, visits, g, n);
    ReturnedCount(t, visits, g, n - 1);
    OneMoreReturned(t, visits, g, n);
    if i < n - 1 {
      PassReturns(t, visits, g, n - 1, i, k);
    } else {
      RowAt(visits[i].place, LogOf(t, visits[i].place), Reached(t, visits[i], g), k);
    }
  }

  lemma StopsAtInterruption(t: Table, visits: seq<Visit>, g: Trigger)
    requires WellGiven(visits) && EachAlternates(t)
    ensures var stop := FirstFailure(t, visits, g, |visits|);
            && (forall k :: 0 <= k < stop ==> !Interrupted(t, visits[k], g))
            && (stop < |visits| ==> Interrupted(t, visits[stop], g))
  {
    hide Fails, Interrupted, LogOf, Alternating;
    forall k | 0 <= k < |visits|
      ensures Fails(visits[k], LogOf(t, visits[k].place), g) <==> Interrupted(t, visits[k], g)
    {
      VisitReaches(t, visits[k], g);
    }
  }

  // ---- whole histories -----------------------------------------------------------------------------------

  // One fix of the device, and the Places of the family that contain it.
  datatype Sighting = Sighting(ts: int, within: set<PlaceId>)

  // What one Place sees of the sightings.
  function Seen(sightings: seq<Sighting>, p: PlaceId): (rs: seq<Reading>)
    ensures |rs| == |sightings|
    ensures forall i :: 0 <= i < |rs| ==> rs[i] == Reading(sightings[i].ts, p in sightings[i].within)
  {
    seq(|sightings|, i requires 0 <= i < |sightings| => Reading(sightings[i].ts, p in sightings[i].within))
  }

  ghost predicate InOrder(sightings: seq<Sighting>) {
    forall i, j :: 0 <= i < j < |sightings| ==> sightings[i].ts < sightings[j].ts
  }

  // What the database does to the evaluation of a Place in the pass for the nth arrival.
  type Lucks = (nat, PlaceId) -> Luck

  function VisitsOf(places: seq<PlaceId>, kept: seq<Sighting>, n: nat, lucks: Lucks): (visits: seq<Visit>)
    ensures |visits| == |places|
    ensures forall i :: 0 <= i < |places| ==> visits[i] == Visit(places[i], Seen(kept, places[i]), lucks(n, places[i]))
  {
    seq(|places|, i requires 0 <= i < |places| => Visit(places[i], Seen(kept, places[i]), lucks(n, places[i])))
  }

  lemma VisitsWellGiven(places: seq<PlaceId>, kept: seq<Sighting>, n: nat, lucks: Lucks)
    requires NoRepeats(places) && InOrder(kept)
    ensures WellGiven(VisitsOf(places, kept, n, lucks)) && Places(VisitsOf(places, kept, n, lucks)) == places
  {
    assert Places(VisitsOf(places, kept, n, lucks)) == places;
  }

  ghost predicate IsKept(kept: seq<Sighting>, ts: int) {
    exists i :: 0 <= i < |kept| && kept[i].ts == ts
  }

  // How many of the first n are at or before an instant.
  function UpTo(kept: seq<Sighting>, n: nat, ts: int): (m: nat)
    requires n <= |kept| && InOrder(kept)
    ensures m <= n
    ensures forall i :: 0 <= i < m ==> kept[i].ts <= ts
    ensures forall i :: m <= i < n ==> kept[i].ts > ts
  {
    if n == 0 || kept[n - 1].ts <= ts then n else UpTo(kept, n - 1, ts)
  }

  ghost function Keep(kept: seq<Sighting>, s: Sighting): (more: seq<Sighting>)
    requires InOrder(kept) && !IsKept(kept, s.ts)
    ensures InOrder(more)
  {
    var m := UpTo(kept, |kept|, s.ts);
    kept[..m] + [s] + kept[m..]
  }

  // The device's stored fixes, and its event log by Place.
  datatype Family = Family(kept: seq<Sighting>, table: Table)

  // The ingest path: a replay changes nothing and starts no pass.
  ghost function FamilyAfter(places: seq<PlaceId>, arrivals: seq<Sighting>, lucks: Lucks, debounce: int): (f: Family)
    requires NoRepeats(places)
    ensures InOrder(f.kept)
  {
    if arrivals == [] then Family([], map[])
    else
      var n := |arrivals| - 1;
      var before := FamilyAfter(places, arrivals[..n], lucks, debounce);
      var s := arrivals[n];
      if IsKept(before.kept, s.ts) then before
      else
        var kept := Keep(before.kept, s);
        Family(kept, Passed(places, before.table, kept, n, s.ts, lucks, debounce))
  }

  ghost function Passed(places: seq<PlaceId>, t: Table, kept: seq<Sighting>, n: nat, ts: int, lucks: Lucks,
      debounce: int): Table
    requires NoRepeats(places) && InOrder(kept)
  {
    VisitsWellGiven(places, kept, n, lucks);
    var visits := VisitsOf(places, kept, n, lucks);
    var g := Trigger(ts, debounce);
    After(t, visits, g, Made(t, visits, g))
  }

  lemma SeenKept(kept: seq<Sighting>, s: Sighting, p: PlaceId)
    requires InOrder(kept)
    ensures Ordered(Seen(kept, p)) && (Stored(Seen(kept, p), s.ts) <==> IsKept(kept, s.ts))
    ensures !IsKept(kept, s.ts) ==>
              Seen(Keep(kept, s), p) == Store(Seen(kept, p), Reading(s.ts, p in s.within))
  {
    var rs := Seen(kept, p);
    assert IsKept(kept, s.ts) ==> Stored(rs, s.ts) by {
      if i :| 0 <= i < |kept| && kept[i].ts == s.ts {
        assert rs[i].ts == s.ts;
      }
    }
    if !IsKept(kept, s.ts) {
      SameSplit(kept, s.ts, p);
    }
  }

  lemma SameSplit(kept: seq<Sighting>, ts: int, p: PlaceId)
    requires InOrder(kept)
    ensures Ordered(Seen(kept, p)) && Later(Seen(kept, p), ts) == UpTo(kept, |kept|, ts)
  {
    SplitIs(Seen(kept, p), ts, UpTo(kept, |kept|, ts));
  }

  lemma SplitIs(rs: seq<Reading>, ts: int, m: nat)
    requires Ordered(rs) && m <= |rs|
    requires forall i :: 0 <= i < m ==> rs[i].ts <= ts
    requires forall i :: m <= i < |rs| ==> rs[i].ts > ts
    ensures Later(rs, ts) == m
  {
    var k := Later(rs, ts);
    assert m < |rs| ==> rs[m].ts > ts;
    assert k < |rs| ==> rs[k].ts > ts;
  }

  lemma WorkingReaches(t: Table, v: Visit, g: Trigger)
    requires Ordered(v.fixes)
    ensures v.luck == Works ==> !Interrupted(t, v, g) && Reached(t, v, g) == Whole(t, v, g)
  {
  }

  // The pass for an arrival, for one Place.
  lemma PassedReaches(places: seq<PlaceId>, t: Table, kept: seq<Sighting>, n: nat, ts: int, lucks: Lucks,
      debounce: int, p: PlaceId)
    requires NoRepeats(places) && InOrder(kept) && EachAlternates(t)
    ensures var after := LogOf(Passed(places, t, kept, n, ts, lucks, debounce), p);
            var v := Visit(p, Seen(kept, p), lucks(n, p)); var g := Trigger(ts, debounce);
            && Ordered(v.fixes)
            && (after == LogOf(t, p) || (p in places && after == Reached(t, v, g)))
            && (p in places && (forall q :: q in places ==> lucks(n, q) == Works) ==> after == Whole(t, v, g))
  {
    VisitsWellGiven(places, kept, n, lucks);
    var visits := VisitsOf(places, kept, n, lucks);
    var g := Trigger(ts, debounce);
    hide LogOf, After, Made, EachAlternates, WellGiven, Whole, Fails, Places, Interrupted, Reached, Ordered;
    WorkingReaches(t, Visit(p, Seen(kept, p), lucks(n, p)), g);
    if i :| 0 <= i < |places| && places[i] == p {
      PassReaches(t, visits, g, i);
      forall k | 0 <= k < i && lucks(n, places[k]) == Works ensures !Interrupted(t, visits[k], g) {
        WorkingReaches(t, visits[k], g);
      }
    } else {
      PassLeaves(t, visits, g, p);
    }
  }

  lemma SeenBefore(arrivals: seq<Sighting>, p: PlaceId)
    requires arrivals != []
    ensures var n := |arrivals| - 1;
            && Seen(arrivals, p) != [] && Seen(arrivals, p)[..n] == Seen(arrivals[..n], p)
            && Seen(arrivals, p)[n] == Reading(arrivals[n].ts, p in arrivals[n].within)
  {
  }

  /** Every log of the family keeps its shape, whatever order fixes arrive in, replays included, and whatever
      the database does to any evaluation: it alternates from `enter`, in strictly increasing ts, and every
      event is the crossing of a stored fix. */
  lemma {:induction false} LogsKeepShape(places: seq<PlaceId>, arrivals: seq<Sighting>, lucks: Lucks, debounce: int,
      p: PlaceId)
    requires NoRepeats(places)
    ensures var f := FamilyAfter(places, arrivals, lucks, debounce);
            EachAlternates(f.table) && Grounded(LogOf(f.table, p), Seen(f.kept, p))
    decreases |arrivals|
  {
    hide Passed, Keep, IsKept, Alternating, Grounded;
    if arrivals == [] {
      NoLogs(p);
    } else {
      var n := |arrivals| - 1;
      var before := FamilyAfter(places, arrivals[..n], lucks, debounce);
      LogsKeepShape(places, arrivals[..n], lucks, debounce, p);
      if !IsKept(before.kept, arrivals[n].ts) {
        ArrivalKeepsShape(places, before, arrivals[n], n, lucks, debounce, p);
      }
    }
  }

  lemma NoLogs(p: PlaceId)
    ensures EachAlternates(map[]) && Grounded(LogOf(map[], p), Seen([], p))
  {
  }

  lemma ArrivalKeepsShape(places: seq<PlaceId>, f: Family, s: Sighting, n: nat, lucks: Lucks, debounce: int,
      p: PlaceId)
    requires NoRepeats(places) && InOrder(f.kept) && !IsKept(f.kept, s.ts)
    requires EachAlternates(f.table) && Grounded(LogOf(f.table, p), Seen(f.kept, p))
    ensures var kept := Keep(f.kept, s);
            var after := Passed(places, f.table, kept, n, s.ts, lucks, debounce);
            EachAlternates(after) && Grounded(LogOf(after, p), Seen(kept, p))
  {
    var kept := Keep(f.kept, s);
    var g := Trigger(s.ts, debounce);
    hide Passed, Keep, LogOf, Alternating, Grounded, Whole, Reached;
    forall q ensures Alternating(LogOf(Passed(places, f.table, kept, n, s.ts, lucks, debounce), q), true) {
      PassedReaches(places, f.table, kept, n, s.ts, lucks, debounce, q);
      VisitReaches(f.table, Visit(q, Seen(kept, q), lucks(n, q)), g);
    }
    PassedReaches(places, f.table, kept, n, s.ts, lucks, debounce, p);
    ReachedIsGrounded(f.table, Visit(p, Seen(kept, p), lucks(n, p)), g, Seen(f.kept, p)) by {
      SeenKept(f.kept, s, p);
    }
  }

  lemma ReachedIsGrounded(t: Table, v: Visit, g: Trigger, before: seq<Reading>)
    requires Ordered(v.fixes) && Alternating(LogOf(t, v.place), true) && Grounded(LogOf(t, v.place), before)
    requires forall r :: r in before ==> r in v.fixes
    ensures Grounded(LogOf(t, v.place), v.fixes) && Grounded(Reached(t, v, g), v.fixes)
  {
    VisitReaches(t, v, g);
    DueIsTheRest(t, v, g);
    DerivedIsGrounded(v.fixes, LogOf(t, v.place), g.around, g.debounce);
    hide Whole, Reached, Confirm, LogOf, Alternating, Ordered, Window;
  }

  /** And when no evaluation is cut short, every Place has the log that Place alone would have, so that all of
      the above about one Place's log holds of every Place of the family. */
  lemma {:induction false} LogsAreAlone(places: seq<PlaceId>, arrivals: seq<Sighting>, lucks: Lucks, debounce: int,
      p: PlaceId)
    requires NoRepeats(places) && p in places
    requires forall n: nat, q :: n < |arrivals| && q in places ==> lucks(n, q) == Works
    ensures var f := FamilyAfter(places, arrivals, lucks, debounce);
            AfterArrivals(Seen(arrivals, p), debounce) == Device(Seen(f.kept, p), LogOf(f.table, p))
    decreases |arrivals|
  {
    hide Passed, Keep, IsKept, Evaluate, Stored, Store, LogOf, EachAlternates, AfterArrivals;
    if arrivals == [] {
      assert Seen(arrivals, p) == [];
      NothingArrived(debounce);
      NoTable(p);
    } else {
      var n := |arrivals| - 1;
      var s := arrivals[n];
      var before := FamilyAfter(places, arrivals[..n], lucks, debounce);
      LogsAreAlone(places, arrivals[..n], lucks, debounce, p);
      SeenBefore(arrivals, p);
      Arrival(Seen(arrivals, p), debounce);
      SeenKept(before.kept, s, p);
      if !IsKept(before.kept, s.ts) {
        LogsKeepShape(places, arrivals[..n], lucks, debounce, p);
        PassedReaches(places, before.table, Keep(before.kept, s), n, s.ts, lucks, debounce, p);
      }
    }
  }

  lemma NoTable(p: PlaceId)
    ensures LogOf(map[], p) == []
  {
  }

  /** So with fixes in order, and the server's whole-second event times and ninety-second debounce, every Place
      of the family has the batch projection of what it saw. */
  lemma FamilyHasBatch(places: seq<PlaceId>, arrivals: seq<Sighting>, lucks: Lucks, p: PlaceId)
    requires NoRepeats(places) && p in places && InOrder(arrivals)
    requires forall n: nat, q :: n < |arrivals| && q in places ==> lucks(n, q) == Works
    ensures LogOf(FamilyAfter(places, arrivals, lucks, GEOFENCE_DEBOUNCE).table, p)
         == Batch(Seen(arrivals, p), GEOFENCE_DEBOUNCE)
  {
    LogsAreAlone(places, arrivals, lucks, GEOFENCE_DEBOUNCE, p);
    hide FamilyAfter, AfterArrivals, Batch;
    ServerWindowSuffices(Seen(arrivals, p));
  }
}
