/**
One device against every Place of its family: the evaluations run Place after Place, each of them may
fail, and the first failure ends the pass.
*/
module GeofencePlaces {
  import opened DwellMachine
  import opened GeofenceLog
  import opened Options
  import opened Sequences

  type PlaceId(==, !new)

  // What the database does to one evaluation: nothing, a failed read, or a failed INSERT after some.
  datatype Luck = Works | ReadFails | InsertFails(after: nat)

  // A Place of the family, and the device's fixes with their containment in it.
  datatype Visit = Visit(place: PlaceId, fixes: seq<Reading>, luck: Luck)

  datatype Trigger = Trigger(around: int, debounce: int)

  datatype Row = Row(place: PlaceId, event: Transition)

  // The event log of one device, by Place.
  type Table = map<PlaceId, seq<Transition>>

  function LogOf(t: Table, p: PlaceId): seq<Transition> {
    if p in t then t[p] else []
  }

  function Places(visits: seq<Visit>): (places: seq<PlaceId>)
    ensures |places| == |visits| && forall i :: 0 <= i < |visits| ==> places[i] == visits[i].place
  {
    seq(|visits|, i requires 0 <= i < |visits| => visits[i].place)
  }

  ghost predicate WellGiven(visits: seq<Visit>) {
    && NoRepeats(Places(visits))
    && forall i :: 0 <= i < |visits| ==> Ordered(visits[i].fixes)
  }

  // What an evaluation would insert.
  ghost function Due(v: Visit, log: seq<Transition>, g: Trigger): seq<Transition>
    requires Ordered(v.fixes)
  {
    Derived(v.fixes, log, g.around, g.debounce)
  }

  ghost predicate Fails(v: Visit, log: seq<Transition>, g: Trigger)
    requires Ordered(v.fixes)
  {
    v.luck.ReadFails? || (v.luck.InsertFails? && v.luck.after < |Due(v, log, g)|)
  }

  // What it does insert.
  ghost function Inserted(v: Visit, log: seq<Transition>, g: Trigger): seq<Transition>
    requires Ordered(v.fixes)
  {
    if !Fails(v, log, g) then Due(v, log, g)
    else if v.luck.ReadFails? then []
    else Due(v, log, g)[..v.luck.after]
  }

  // The rows an insertion into a log adds to it.
  function Added(log: seq<Transition>, ts: seq<Transition>): (added: seq<Transition>)
    ensures InsertAll(log, ts) == log + added
    decreases |ts|
  {
    if ts == [] then []
    else if HasRow(log, ts[0].ts) then Added(log, ts[1..])
    else
      assert log + [ts[0]] + Added(log + [ts[0]], ts[1..]) == log + ([ts[0]] + Added(log + [ts[0]], ts[1..]));
      [ts[0]] + Added(log + [ts[0]], ts[1..])
  }

  function RowsOf(p: PlaceId, events: seq<Transition>): seq<Row> {
    seq(|events|, i requires 0 <= i < |events| => Row(p, events[i]))
  }

  // The first of n visits that fails, or n.
  ghost function FirstFailure(t: Table, visits: seq<Visit>, g: Trigger, n: nat): (i: nat)
    requires n <= |visits| && WellGiven(visits)
    ensures i <= n
    ensures forall k :: 0 <= k < i ==> !Fails(visits[k], LogOf(t, visits[k].place), g)
    ensures i < n ==> Fails(visits[i], LogOf(t, visits[i].place), g)
  {
    if n == 0 then 0
    else
      var i := FirstFailure(t, visits, g, n - 1);
      if i < n - 1 then i
      else if Fails(visits[n - 1], LogOf(t, visits[n - 1].place), g) then n - 1 else n
  }

  // The table after the first n visits, none of which has ended the pass before its own end.
  ghost function After(t: Table, visits: seq<Visit>, g: Trigger, n: nat): Table
    requires n <= |visits| && WellGiven(visits)
  {
    if n == 0 then t
    else
      var v := visits[n - 1];
      var log := LogOf(t, v.place);
      After(t, visits, g, n - 1)[v.place := InsertAll(log, Inserted(v, log, g))]
  }

  // The rows the first n visits return.
  ghost function Returned(t: Table, visits: seq<Visit>, g: Trigger, n: nat): seq<Row>
    requires n <= |visits| && WellGiven(visits)
  {
    if n == 0 then []
    else
      var v := visits[n - 1];
      var log := LogOf(t, v.place);
      Returned(t, visits, g, n - 1) + RowsOf(v.place, Added(log, Inserted(v, log, g)))
  }

  lemma {:induction false} UntouchedBefore(t: Table, visits: seq<Visit>, g: Trigger, n: nat, p: PlaceId)
    requires n <= |visits| && WellGiven(visits) && forall i :: 0 <= i < n ==> visits[i].place != p
    ensures LogOf(After(t, visits, g, n), p) == LogOf(t, p)
  {
    hide Inserted, InsertAll;
    if n > 0 {
      UntouchedBefore(t, visits, g, n - 1, p);
    }
  }

  lemma {:induction false} LogAfter(t: Table, visits: seq<Visit>, g: Trigger, n: nat, k: nat)
    requires k < n <= |visits| && WellGiven(visits)
    ensures var log := LogOf(t, visits[k].place);
            LogOf(After(t, visits, g, n), visits[k].place) == InsertAll(log, Inserted(visits[k], log, g))
  {
    hide Inserted, InsertAll;
    if k < n - 1 {
      LogAfter(t, visits, g, n - 1, k);
      assert Places(visits)[k] != Places(visits)[n - 1];
    }
  }

  class FamilyLog {
    var table: Table

    constructor ()
      ensures table == map[]
    {
      table := map[];
    }

    /** One Place: the rows it wrote are returned, with the error when there is one. */
    method EvaluateOneGeofence(v: Visit, g: Trigger) returns (appended: seq<Row>, ok: bool)
      requires Ordered(v.fixes)
      modifies this
      ensures var log := LogOf(old(table), v.place);
              && table == old(table)[v.place := InsertAll(log, Inserted(v, log, g))]
              && appended == RowsOf(v.place, Added(log, Inserted(v, log, g)))
              && (ok <==> !Fails(v, log, g))
    {
      hide Due, InsertAll, Added;
      var log := LogOf(table, v.place);
      if v.luck.ReadFails? {
        NothingInserted(log);
        table := table[v.place := log];
        return [], false;
      }
      var transitions := Derive(v, log, g);
      ok := !(v.luck.InsertFails? && v.luck.after < |transitions|);
      var rows, wrote := InsertRows(log, if ok then transitions else transitions[..v.luck.after]);
      table := table[v.place := rows];
      appended := RowsOf(v.place, wrote);
    }

    method Derive(v: Visit, log: seq<Transition>, g: Trigger) returns (transitions: seq<Transition>)
      requires Ordered(v.fixes)
      ensures transitions == Due(v, log, g)
    {
      var last := Latest(log);
      transitions := ConfirmTransitions(Window(v.fixes, last, g.around), Inside(last), last.Some?, g.debounce);
    }

    method InsertRows(log: seq<Transition>, ts: seq<Transition>) returns (rows: seq<Transition>, wrote: seq<Transition>)
      ensures rows == InsertAll(log, ts) && wrote == Added(log, ts)
    {
      rows, wrote := log, [];
      hide InsertAll, Added, HasRow;
      assert ts[0..] == ts && [] + Added(log, ts) == Added(log, ts);
      for i := 0 to |ts|
        invariant InsertAll(rows, ts[i..]) == InsertAll(log, ts)
        invariant wrote + Added(rows, ts[i..]) == Added(log, ts)
      {
        InsertFirst(rows, ts[i..], wrote);
        assert ts[i..][1..] == ts[i + 1..];
        if !HasRow(rows, ts[i].ts) {
          rows := rows + [ts[i]];
          wrote := wrote + [ts[i]];
        }
      }
      NothingInserted(rows);
      assert ts[|ts|..] == [];
    }

    /** Every Place in turn, up to the first that fails: what that one wrote stays written, and only the rows
        of those before it are returned. */
    method EvaluateDeviceGeofences(visits: seq<Visit>, g: Trigger) returns (appended: seq<Row>, ok: bool)
      requires WellGiven(visits)
      modifies this
      ensures var stop := FirstFailure(old(table), visits, g, |visits|);
              && (ok <==> stop == |visits|)
              && appended == Returned(old(table), visits, g, stop)
              && table == After(old(table), visits, g, if stop < |visits| then stop + 1 else stop)
    {
      hide FirstFailure, After, Returned, Fails, InsertAll, Inserted, RowsOf, Added, LogOf;
      appended := [];
      Starts(table, visits, g);
      for i := 0 to |visits|
        invariant FirstFailure(old(table), visits, g, i) == i
        invariant table == After(old(table), visits, g, i) && appended == Returned(old(table), visits, g, i)
      {
        UntouchedBeforeAt(old(table), visits, g, i);
        OneMoreVisit(old(table), visits, g, i);
        var rows;
        rows, ok := EvaluateOneGeofence(visits[i], g);
        if !ok {
          StaysFailed(old(table), visits, g, i, |visits|);
          return appended, false;
        }
        appended := appended + rows;
      }
      ok := true;
    }
  }

  lemma Starts(t: Table, visits: seq<Visit>, g: Trigger)
    requires WellGiven(visits)
    ensures FirstFailure(t, visits, g, 0) == 0 && After(t, visits, g, 0) == t && Returned(t, visits, g, 0) == []
  {
  }

  lemma OneMoreVisit(t: Table, visits: seq<Visit>, g: Trigger, i: nat)
    requires i < |visits| && WellGiven(visits) && FirstFailure(t, visits, g, i) == i
    ensures var v := visits[i]; var log := LogOf(t, v.place);
            && After(t, visits, g, i + 1) == After(t, visits, g, i)[v.place := InsertAll(log, Inserted(v, log, g))]
            && Returned(t, visits, g, i + 1) == Returned(t, visits, g, i)
                + RowsOf(v.place, Added(log, Inserted(v, log, g)))
            && FirstFailure(t, visits, g, i + 1) == if Fails(v, log, g) then i else i + 1
  {
    hide InsertAll, Inserted, RowsOf, Added, LogOf, Fails;
  }

  lemma UntouchedBeforeAt(t: Table, visits: seq<Visit>, g: Trigger, i: nat)
    requires i < |visits| && WellGiven(visits)
    ensures LogOf(After(t, visits, g, i), visits[i].place) == LogOf(t, visits[i].place)
  {
    assert forall k :: 0 <= k < i ==> Places(visits)[k] != Places(visits)[i];
    UntouchedBefore(t, visits, g, i, visits[i].place);
  }

  lemma {:induction false} StaysFailed(t: Table, visits: seq<Visit>, g: Trigger, i: nat, n: nat)
    requires i < n <= |visits| && WellGiven(visits) && FirstFailure(t, visits, g, i) == i
    requires Fails(visits[i], LogOf(t, visits[i].place), g)
    ensures FirstFailure(t, visits, g, n) == i
  {
  }

  // A Place is evaluated when the pass comes to it.
  ghost predicate Evaluated(t: Table, visits: seq<Visit>, g: Trigger, i: nat)
    requires i < |visits| && WellGiven(visits)
  {
    i <= FirstFailure(t, visits, g, |visits|)
  }

  lemma InsertFirst(log: seq<Transition>, ts: seq<Transition>, wrote: seq<Transition>)
    requires ts != []
    ensures if HasRow(log, ts[0].ts) then
              InsertAll(log, ts) == InsertAll(log, ts[1..]) && wrote + Added(log, ts) == wrote + Added(log, ts[1..])
            else
              && InsertAll(log, ts) == InsertAll(log + [ts[0]], ts[1..])
              && wrote + Added(log, ts) == wrote + [ts[0]] + Added(log + [ts[0]], ts[1..])
  {
    hide HasRow;
  }

  lemma NothingInserted(log: seq<Transition>)
    ensures InsertAll(log, []) == log && Added(log, []) == []
  {
  }

  // How many visits the pass makes, the failing one included.
  ghost function Made(t: Table, visits: seq<Visit>, g: Trigger): (n: nat)
    requires WellGiven(visits)
    ensures n <= |visits|
  {
    var stop := FirstFailure(t, visits, g, |visits|);
    if stop < |visits| then stop + 1 else stop
  }

  /** A Place the pass comes to is left as if it had been evaluated alone; the log of one it does not come to
      is left as it was. */
  lemma EachAsAlone(t: Table, visits: seq<Visit>, g: Trigger, i: nat)
    requires WellGiven(visits) && i < |visits|
    ensures var log := LogOf(t, visits[i].place);
            LogOf(After(t, visits, g, Made(t, visits, g)), visits[i].place)
            == if Evaluated(t, visits, g, i) then InsertAll(log, Inserted(visits[i], log, g)) else log
  {
    hide Fails, Inserted, InsertAll;
    var made := Made(t, visits, g);
    if Evaluated(t, visits, g, i) {
      LogAfter(t, visits, g, made, i);
    } else {
      assert forall k :: 0 <= k < made ==> Places(visits)[k] != Places(visits)[i];
      UntouchedBefore(t, visits, g, made, visits[i].place);
    }
  }

  // The rows a visit newly records.
  ghost function Recorded(t: Table, v: Visit, g: Trigger): seq<Transition>
    requires Ordered(v.fixes)
  {
    Added(LogOf(t, v.place), Inserted(v, LogOf(t, v.place), g))
  }

  // The pass leaves a Place's log as an evaluation of it alone would.
  ghost predicate AsAlone(t: Table, visits: seq<Visit>, g: Trigger, i: nat)
    requires i < |visits| && WellGiven(visits)
  {
    var log := LogOf(t, visits[i].place);
    LogOf(After(t, visits, g, Made(t, visits, g)), visits[i].place) == InsertAll(log, Inserted(visits[i], log, g))
  }

  // A Place is left as alone when the pass comes to it, or when there was nothing to record.
  lemma AloneOrIdle(t: Table, visits: seq<Visit>, g: Trigger, i: nat)
    requires WellGiven(visits) && i < |visits|
    ensures AsAlone(t, visits, g, i) <==> Evaluated(t, visits, g, i) || Recorded(t, visits[i], g) == []
  {
    hide Evaluated, Inserted, After, Made, InsertAll;
    EachAsAlone(t, visits, g, i);
    var log := LogOf(t, visits[i].place);
    assert InsertAll(log, Inserted(visits[i], log, g)) == log + Recorded(t, visits[i], g);
  }

  /** Whether a failure abandons the other Places: all of them are evaluated exactly when none before the last
      fails, and every log is left as if its Place had been evaluated alone exactly when no Place after the
      first that fails had anything to record. */
  lemma FirstFailureAbandons(t: Table, visits: seq<Visit>, g: Trigger)
    requires WellGiven(visits)
    ensures (forall i :: 0 <= i < |visits| ==> Evaluated(t, visits, g, i))
            <==> forall k {:trigger visits[k]} :: 0 <= k < |visits| - 1 ==>
                   !Fails(visits[k], LogOf(t, visits[k].place), g)
    ensures (forall i :: 0 <= i < |visits| ==> AsAlone(t, visits, g, i))
            <==> forall i :: FirstFailure(t, visits, g, |visits|) < i < |visits| ==> Recorded(t, visits[i], g) == []
  {
    hide Fails, AsAlone, Recorded;
    var stop := FirstFailure(t, visits, g, |visits|);
    if stop < |visits| - 1 {
      assert !Evaluated(t, visits, g, |visits| - 1);
      assert Fails(visits[stop], LogOf(t, visits[stop].place), g);
    }
    forall i | 0 <= i < |visits|
      ensures AsAlone(t, visits, g, i) <==> i <= stop || Recorded(t, visits[i], g) == []
    {
      AloneOrIdle(t, visits, g, i);
    }
  }

  // A row one visit records.
  ghost predicate RecordedBy(t: Table, visits: seq<Visit>, g: Trigger, i: int, x: Row)
    requires WellGiven(visits)
  {
    0 <= i < |visits| && x.place == visits[i].place && x.event in Recorded(t, visits[i], g)
  }

  lemma ReturnedOneMore(t: Table, visits: seq<Visit>, g: Trigger, n: nat, x: Row)
    requires n <= |visits| && WellGiven(visits)
    ensures x in Returned(t, visits, g, n)
            <==> n > 0 && (x in Returned(t, visits, g, n - 1) ||
                           x in RowsOf(visits[n - 1].place, Recorded(t, visits[n - 1], g)))
  {
    hide Inserted, Added, RowsOf;
    if n > 0 {
      InEither(Returned(t, visits, g, n - 1), RowsOf(visits[n - 1].place, Recorded(t, visits[n - 1], g)), x);
    }
  }

  lemma InEither(a: seq<Row>, b: seq<Row>, x: Row)
    ensures x in a + b <==> x in a || x in b
  {
  }

  lemma RecordedByOne(t: Table, visits: seq<Visit>, g: Trigger, i: nat, x: Row)
    requires i < |visits| && WellGiven(visits)
    ensures RecordedBy(t, visits, g, i, x) <==> x in RowsOf(visits[i].place, Recorded(t, visits[i], g))
  {
    hide Recorded;
    InRows(visits[i].place, Recorded(t, visits[i], g), x);
  }

  lemma {:induction false} ReturnedRows(t: Table, visits: seq<Visit>, g: Trigger, n: nat, x: Row)
    requires n <= |visits| && WellGiven(visits)
    ensures x in Returned(t, visits, g, n) <==> exists i :: 0 <= i < n && RecordedBy(t, visits, g, i, x)
  {
    hide *;
    ReturnedOneMore(t, visits, g, n, x);
    if n > 0 {
      ReturnedRows(t, visits, g, n - 1, x);
      RecordedByOne(t, visits, g, n - 1, x);
    }
  }

  lemma InRows(p: PlaceId, events: seq<Transition>, x: Row)
    ensures x in RowsOf(p, events) <==> x.place == p && x.event in events
  {
    if x.place == p && x.event in events {
      var i :| 0 <= i < |events| && events[i] == x.event;
      assert RowsOf(p, events)[i] == x;
    }
  }

  // Everything the pass newly recorded is among what it returns.
  ghost predicate AllReturned(t: Table, visits: seq<Visit>, g: Trigger)
    requires WellGiven(visits)
  {
    forall i, e :: 0 <= i < Made(t, visits, g) && e in Recorded(t, visits[i], g)
      ==> Row(visits[i].place, e) in Returned(t, visits, g, FirstFailure(t, visits, g, |visits|))
  }

  /** Recorded is returned, and so announced, exactly when no Place fails, or the one that fails had recorded
      nothing yet. */
  lemma ReturnedExactly(t: Table, visits: seq<Visit>, g: Trigger)
    requires WellGiven(visits)
    ensures var stop := FirstFailure(t, visits, g, |visits|);
            AllReturned(t, visits, g) <==> stop == |visits| || Recorded(t, visits[stop], g) == []
  {
    hide Recorded, Returned, Fails;
    var stop := FirstFailure(t, visits, g, |visits|);
    if stop < |visits| && Recorded(t, visits[stop], g) != [] {
      FailingRowKept(t, visits, g, stop);
    } else {
      forall i, e | 0 <= i < Made(t, visits, g) && e in Recorded(t, visits[i], g)
        ensures Row(visits[i].place, e) in Returned(t, visits, g, stop)
      {
        ReturnedRows(t, visits, g, stop, Row(visits[i].place, e));
        assert RecordedBy(t, visits, g, i, Row(visits[i].place, e));
      }
    }
  }

  lemma FailingRowKept(t: Table, visits: seq<Visit>, g: Trigger, stop: nat)
    requires WellGiven(visits) && stop < |visits| && stop == FirstFailure(t, visits, g, |visits|)
    requires Recorded(t, visits[stop], g) != []
    ensures !AllReturned(t, visits, g)
  {
    hide Recorded, Returned, Fails;
    var e := Recorded(t, visits[stop], g)[0];
    assert e in Recorded(t, visits[stop], g);
    ReturnedRows(t, visits, g, stop, Row(visits[stop].place, e));
    assert forall i :: 0 <= i < stop ==> Places(visits)[i] != Places(visits)[stop];
  }

  /** A row that was recorded and not returned is never returned later: whatever is inserted into a log that
      holds it, no row of its fix time is added. */
  lemma {:induction false} NeverReturnedLater(log: seq<Transition>, ts: seq<Transition>, e: Transition)
    requires e in log
    ensures forall x :: x in Added(log, ts) ==> x.ts != e.ts
    decreases |ts|
  {
    var i :| 0 <= i < |log| && log[i] == e;
    assert HasRow(log, e.ts);
    if ts != [] {
      if HasRow(log, ts[0].ts) {
        NeverReturnedLater(log, ts[1..], e);
      } else {
        NeverReturnedLater(log + [ts[0]], ts[1..], e);
      }
    }
  }

  // ---- a pass that fails ---------------------------------------------------------------------------------

  // Outside, in for a hundred seconds, and out again.
  const THERE_AND_BACK := [
    Reading(0, false), Reading(1, true), Reading(101, true), Reading(102, false), Reading(202, false)]

  const NOW := Trigger(202, 90)

  lemma ThereAndBackConfirmed()
    ensures Confirm(THERE_AND_BACK, false, false, 90) == [Transition(1, true), Transition(102, false)]
  {
    var rs := THERE_AND_BACK;
    assert Unbroken(rs, 1, 2) && Unbroken(rs, 3, 4);
    assert ConfirmFrom(rs, 0, false, false, 90) == ConfirmFrom(rs, 1, false, true, 90);
    assert ConfirmFrom(rs, 1, false, true, 90) == [Crossing(rs[1])] + ConfirmFrom(rs, 2, true, true, 90);
    assert ConfirmFrom(rs, 2, true, true, 90) == ConfirmFrom(rs, 3, true, true, 90);
    assert ConfirmFrom(rs, 3, true, true, 90) == [Crossing(rs[3])] + ConfirmFrom(rs, 4, false, true, 90);
    assert ConfirmFrom(rs, 4, false, true, 90) == [];
  }

  lemma ThereAndBack(p: PlaceId, luck: Luck)
    ensures Ordered(THERE_AND_BACK)
    ensures Due(Visit(p, THERE_AND_BACK, luck), [], NOW) == [Transition(1, true), Transition(102, false)]
  {
    hide Confirm;
    ThereAndBackConfirmed();
    assert Later(THERE_AND_BACK, 202) == 5;
    assert Window(THERE_AND_BACK, None, 202) == THERE_AND_BACK;
  }

  /** Two Places, the first failing at its second INSERT: its arrival is recorded but not returned, and the
      second Place, which had a visit to record, is not evaluated at all. */
  lemma FailureCostsBoth(a: PlaceId, b: PlaceId)
    requires a != b
    ensures var visits := [Visit(a, THERE_AND_BACK, InsertFails(1)), Visit(b, THERE_AND_BACK, Works)];
            && WellGiven(visits)
            && LogOf(After(map[], visits, NOW, Made(map[], visits, NOW)), a) == [Transition(1, true)]
            && Returned(map[], visits, NOW, FirstFailure(map[], visits, NOW, 2)) == []
            && !Evaluated(map[], visits, NOW, 1)
            && LogOf(After(map[], visits, NOW, Made(map[], visits, NOW)), b) == []
            && InsertAll([], Inserted(visits[1], [], NOW)) == [Transition(1, true), Transition(102, false)]
  {
    var visits := [Visit(a, THERE_AND_BACK, InsertFails(1)), Visit(b, THERE_AND_BACK, Works)];
    ThereAndBack(a, InsertFails(1));
    ThereAndBack(b, Works);
    assert Places(visits) == [a, b];
    hide Due, THERE_AND_BACK;
    assert FirstFailure(map[], visits, NOW, 2) == 0;
    EachAsAlone(map[], visits, NOW, 0);
    EachAsAlone(map[], visits, NOW, 1);
    InsertTwo(Transition(1, true), Transition(102, false));
  }

  lemma InsertTwo(x: Transition, y: Transition)
    requires x.ts != y.ts
    ensures InsertAll([], [x]) == [x] && InsertAll([], [x, y]) == [x, y]
  {
    assert [x, y][1..] == [y] && [x][1..] == [] && [y][1..] == [];
    assert !HasRow([], x.ts) && !HasRow([x], y.ts);
    assert [] + [x] == [x] && [x] + [y] == [x, y];
    assert InsertAll([x, y], []) == [x, y] && InsertAll([x], []) == [x];
    assert InsertAll([x], [y]) == [x, y];
  }
}
