/**
The evaluator for one (device, Place): read the last recorded event, read a bounded neighbourhood of
the stored fixes, run the dwell machine, append what it confirms.

`Evaluate` is one whole evaluation on values and `EventLog.EvaluateOneGeofence` the method that does
it row by row.  The lemmas: the log keeps its shape whatever order fixes arrive in
(`AnyArrivalOrder`); with fixes in order, exactly when the bounded window gives the batch projection
of the whole history (`WindowExact`), a spacing of the fixes that guarantees it (`SpacingSuffices`),
and the longest debounce for which whole-second event times do (`WindowSufficesExactly`).
*/
module GeofenceLog {
  import opened DwellMachine
  import opened Options

  // Fixes read on either side of the triggering fix.
  const NEIGHBOURS: nat := 128

  // The row with the greatest fix_ts.
  function Latest(log: seq<Transition>): (last: Option<Transition>)
    ensures last.None? <==> log == []
    ensures last.Some? ==> last.value in log && forall k :: 0 <= k < |log| ==> log[k].ts <= last.value.ts
  {
    if log == [] then None
    else
      var head := log[|log| - 1];
      var rest := Latest(log[..|log| - 1]);
      if rest.Some? && rest.value.ts > head.ts then rest else Some(head)
  }

  function Inside(last: Option<Transition>): bool {
    last.Some? && last.value.enter
  }

  // Where the readable history begins: strictly after the last recorded event, if there is one.
  function Floor(fixes: seq<Reading>, last: Option<Transition>): (n: nat)
    requires Ordered(fixes)
    ensures n <= |fixes|
  {
    if last.None? then 0 else Later(fixes, last.value.ts)
  }

  // Where the neighbourhood turns from fixes at or before `around` to fixes after it.
  function Middle(fixes: seq<Reading>, last: Option<Transition>, around: int): (n: nat)
    requires Ordered(fixes)
    ensures Floor(fixes, last) <= n <= |fixes|
  {
    if Later(fixes, around) > Floor(fixes, last) then Later(fixes, around) else Floor(fixes, last)
  }

  function WindowFrom(lo: nat, mid: nat): (from: nat)
    requires lo <= mid
    ensures lo <= from <= mid
  {
    if mid - lo > NEIGHBOURS then mid - NEIGHBOURS else lo
  }

  function WindowTo(mid: nat, size: nat): (to: nat)
    requires mid <= size
    ensures mid <= to <= size
  {
    if size - mid > NEIGHBOURS then mid + NEIGHBOURS else size
  }

  // The neighbourhood: past the floor, the last NEIGHBOURS at or before `around` and the first
  // NEIGHBOURS after it, in ts order.
  function Window(fixes: seq<Reading>, last: Option<Transition>, around: int): seq<Reading>
    requires Ordered(fixes)
  {
    var mid := Middle(fixes, last, around);
    fixes[WindowFrom(Floor(fixes, last), mid)..WindowTo(mid, |fixes|)]
  }

  predicate HasRow(log: seq<Transition>, ts: int) {
    exists k :: 0 <= k < |log| && log[k].ts == ts
  }

  // INSERT ... ON CONFLICT (device, Place, fix_ts) DO NOTHING.
  function Insert(log: seq<Transition>, t: Transition): seq<Transition> {
    if HasRow(log, t.ts) then log else log + [t]
  }

  function InsertAll(log: seq<Transition>, ts: seq<Transition>): seq<Transition>
    decreases |ts|
  {
    if ts == [] then log else InsertAll(Insert(log, ts[0]), ts[1..])
  }

  ghost function Derived(fixes: seq<Reading>, log: seq<Transition>, around: int, debounce: int): seq<Transition>
    requires Ordered(fixes)
  {
    var last := Latest(log);
    Confirm(Window(fixes, last, around), Inside(last), last.Some?, debounce)
  }

  ghost function Evaluate(fixes: seq<Reading>, log: seq<Transition>, around: int, debounce: int): seq<Transition>
    requires Ordered(fixes)
  {
    InsertAll(log, Derived(fixes, log, around, debounce))
  }

  // The batch projection: the machine over the whole history from the presumed-outside state.
  ghost function Batch(fixes: seq<Reading>, debounce: int): seq<Transition> {
    Confirm(fixes, false, false, debounce)
  }

  /** The event table of one (device, Place). */
  class EventLog {
    var rows: seq<Transition>

    constructor ()
      ensures rows == []
    {
      rows := [];
    }

    method InsertRow(t: Transition) returns (wrote: bool)
      modifies this
      ensures rows == Insert(old(rows), t)
      ensures wrote <==> rows != old(rows)
      ensures wrote ==> rows == old(rows) + [t]
    {
      wrote := !HasRow(rows, t.ts);
      if wrote {
        rows := rows + [t];
      }
    }

    /** One evaluation: the log becomes `Evaluate`, and exactly the rows written are returned. */
    method EvaluateOneGeofence(fixes: seq<Reading>, around: int, debounce: int) returns (appended: seq<Transition>)
      requires Ordered(fixes)
      modifies this
      ensures rows == Evaluate(fixes, old(rows), around, debounce)
      ensures rows == old(rows) + appended
    {
      var last := Latest(rows);
      var readings := Window(fixes, last, around);
      var transitions := ConfirmTransitions(readings, Inside(last), last.Some?, debounce);
      appended := [];
      for i := 0 to |transitions|
        invariant rows == old(rows) + appended
        invariant InsertAll(rows, transitions[i..]) == Evaluate(fixes, old(rows), around, debounce)
      {
        assert transitions[i..][1..] == transitions[i + 1..];
        var wrote := InsertRow(transitions[i]);
        if wrote {
          appended := appended + [transitions[i]];
        }
      }
    }
  }

  // ---- the log's shape, under any arrival order --------------------------------------------------

  lemma {:induction false} LatestIsLast(log: seq<Transition>, first: bool)
    requires Alternating(log, first) && log != []
    ensures Latest(log) == Some(log[|log| - 1])
  {
    assert Latest(log).value in log;
  }

  lemma {:induction false} InsertAllAppends(log: seq<Transition>, ts: seq<Transition>)
    requires forall a, b :: 0 <= a < |log| && 0 <= b < |ts| ==> log[a].ts < ts[b].ts
    requires forall a, b :: 0 <= a < b < |ts| ==> ts[a].ts < ts[b].ts
    ensures InsertAll(log, ts) == log + ts
    decreases |ts|
  {
    if ts != [] {
      assert !HasRow(log, ts[0].ts);
      InsertAllAppends(log + [ts[0]], ts[1..]);
      assert log + [ts[0]] + ts[1..] == log + ts;
    } else {
      assert log + ts == log;
    }
  }

  lemma AlternatingAppend(log: seq<Transition>, out: seq<Transition>)
    requires Alternating(log, true)
    requires log == [] ==> Alternating(out, true)
    requires log != [] ==> Alternating(out, !log[|log| - 1].enter)
    requires forall a, b :: 0 <= a < |log| && 0 <= b < |out| ==> log[a].ts < out[b].ts
    ensures Alternating(log + out, true)
  {
  }

  lemma WindowPastFloor(fixes: seq<Reading>, last: Option<Transition>, around: int)
    requires Ordered(fixes)
    ensures var w := Window(fixes, last, around);
            && Ordered(w)
            && (forall r :: r in w ==> r in fixes)
            && (last.Some? ==> forall k :: 0 <= k < |w| ==> w[k].ts > last.value.ts)
  {
    var w := Window(fixes, last, around);
    var from := WindowFrom(Floor(fixes, last), Middle(fixes, last, around));
    assert forall k :: 0 <= k < |w| ==> w[k] == fixes[from + k];
  }

  // An evaluation appends: nothing is absorbed, and the log stays alternating from `enter`, in ts order.
  lemma EvaluationAppends(fixes: seq<Reading>, log: seq<Transition>, around: int, debounce: int)
    requires Ordered(fixes) && Alternating(log, true)
    ensures Evaluate(fixes, log, around, debounce) == log + Derived(fixes, log, around, debounce)
    ensures Alternating(Evaluate(fixes, log, around, debounce), true)
  {
    var last := Latest(log);
    var w := Window(fixes, last, around);
    var out := Derived(fixes, log, around, debounce);
    WindowPastFloor(fixes, last, around);
    SpacedFrom(w, 0, Inside(last), last.Some?, debounce);
    if log != [] {
      LatestIsLast(log, true);
      forall a, b | 0 <= a < |log| && 0 <= b < |out| ensures log[a].ts < out[b].ts {
        assert out[b].ts >= w[0].ts > last.value.ts;
      }
    }
    InsertAllAppends(log, out);
    AlternatingAppend(log, out);
  }

  ghost predicate CrossingOf(t: Transition, fixes: seq<Reading>) {
    exists r {:trigger r in fixes} :: r in fixes && t == Crossing(r)
  }

  ghost predicate Grounded(log: seq<Transition>, fixes: seq<Reading>) {
    forall k :: 0 <= k < |log| ==> CrossingOf(log[k], fixes)
  }

  lemma DerivedIsGrounded(fixes: seq<Reading>, log: seq<Transition>, around: int, debounce: int)
    requires Ordered(fixes)
    ensures Grounded(Derived(fixes, log, around, debounce), fixes)
  {
    var last := Latest(log);
    var w := Window(fixes, last, around);
    var out := Derived(fixes, log, around, debounce);
    WindowPastFloor(fixes, last, around);
    forall k | 0 <= k < |out| ensures CrossingOf(out[k], fixes) {
      var m := EmittedAt(w, 0, Inside(last), last.Some?, debounce, k);
      assert w[m] in w && w[m] in fixes;
    }
  }

  predicate Stored(fixes: seq<Reading>, ts: int) {
    exists k :: 0 <= k < |fixes| && fixes[k].ts == ts
  }

  // A fix's row lands in ts order, wherever it arrives.
  function Store(fixes: seq<Reading>, r: Reading): (out: seq<Reading>)
    requires Ordered(fixes) && !Stored(fixes, r.ts)
    ensures Ordered(out)
    ensures r in out && forall x :: x in fixes ==> x in out
  {
    var k := Later(fixes, r.ts);
    var out := fixes[..k] + [r] + fixes[k..];
    assert forall x :: x in fixes ==> x in fixes[..k] || x in fixes[k..];
    out
  }

  datatype Device = Device(fixes: seq<Reading>, log: seq<Transition>)

  // The ingest path: a replay changes nothing and is not evaluated; a new fix is stored and evaluated.
  ghost function Ingest(d: Device, r: Reading, debounce: int): Device
    requires Ordered(d.fixes)
  {
    if Stored(d.fixes, r.ts) then d
    else
      var fixes := Store(d.fixes, r);
      Device(fixes, Evaluate(fixes, d.log, r.ts, debounce))
  }

  ghost function AfterArrivals(arrivals: seq<Reading>, debounce: int): (d: Device)
    ensures Ordered(d.fixes)
  {
    if arrivals == [] then Device([], [])
    else Ingest(AfterArrivals(arrivals[..|arrivals| - 1], debounce), arrivals[|arrivals| - 1], debounce)
  }

  lemma NothingArrived(debounce: int)
    ensures AfterArrivals([], debounce) == Device([], []) && Batch([], debounce) == []
  {
  }

  // The last arrival of several.
  lemma Arrival(arrivals: seq<Reading>, debounce: int)
    requires arrivals != []
    ensures AfterArrivals(arrivals, debounce)
         == Ingest(AfterArrivals(arrivals[..|arrivals| - 1], debounce), arrivals[|arrivals| - 1], debounce)
  {
  }

  /** Whatever order fixes arrive in, replays included: the log alternates from `enter`, in strictly
      increasing ts, and every event is the crossing of a stored fix. */
  lemma {:induction false} AnyArrivalOrder(arrivals: seq<Reading>, debounce: int)
    ensures var d := AfterArrivals(arrivals, debounce);
            Alternating(d.log, true) && Grounded(d.log, d.fixes)
    decreases |arrivals|
  {
    if arrivals != [] {
      var before := arrivals[..|arrivals| - 1];
      var r := arrivals[|arrivals| - 1];
      AnyArrivalOrder(before, debounce);
      var d := AfterArrivals(before, debounce);
      if !Stored(d.fixes, r.ts) {
        var fixes := Store(d.fixes, r);
        EvaluationAppends(fixes, d.log, r.ts, debounce);
        DerivedIsGrounded(fixes, d.log, r.ts, debounce);
        assert Grounded(d.log, fixes);
      }
    }
  }

  // ---- one reading at a time ---------------------------------------------------------------------

  // The first reading of the run that reading i belongs to.
  ghost function RunBegin(rs: seq<Reading>, i: nat): (b: nat)
    requires i < |rs|
    ensures b <= i && RunStart(rs, b)
    ensures forall k :: b <= k <= i ==> rs[k].inside == rs[i].inside
  {
    if RunStart(rs, i) then i else RunBegin(rs, i - 1)
  }

  // The first reading of the run that the last reading belongs to.
  ghost function Onset(rs: seq<Reading>): (b: nat)
    requires rs != []
    ensures b < |rs| && RunStart(rs, b)
    ensures forall k :: b <= k < |rs| ==> rs[k].inside == rs[|rs| - 1].inside
  {
    RunBegin(rs, |rs| - 1)
  }

  // A scan that has emitted nothing is still in its seed state.
  lemma {:induction false} QuietScan(rs: seq<Reading>, seed: bool, evidence: bool, debounce: int, i: nat)
    requires i <= |rs| && Confirm(rs, seed, evidence, debounce) == []
    ensures ConfirmFrom(rs, i, seed, Witnessed(rs, seed, evidence, i), debounce) == []
    decreases i
  {
    if i > 0 {
      QuietScan(rs, seed, evidence, debounce, i - 1);
      assert Witnessed(rs, seed, evidence, i) == (Witnessed(rs, seed, evidence, i - 1) || rs[i - 1].inside == seed);
    }
  }

  lemma {:induction false} LessEvidenceEmitsNoMore(rs: seq<Reading>, i: nat, state: bool, debounce: int)
    requires i <= |rs| && ConfirmFrom(rs, i, state, true, debounce) == []
    ensures ConfirmFrom(rs, i, state, false, debounce) == []
    decreases |rs| - i
  {
    if i < |rs| && rs[i].inside != state {
      LessEvidenceEmitsNoMore(rs, i + 1, state, debounce);
    }
  }

  lemma QuietSuffix(rs: seq<Reading>, seed: bool, evidence: bool, debounce: int, s: nat)
    requires s <= |rs| && Confirm(rs, seed, evidence, debounce) == []
    ensures Confirm(rs[s..], seed, evidence, debounce) == []
  {
    QuietScan(rs, seed, evidence, debounce, s);
    if !evidence && Witnessed(rs, seed, evidence, s) {
      LessEvidenceEmitsNoMore(rs, s, seed, debounce);
    }
    Shift(rs, s, s, seed, evidence, debounce);
  }

  lemma {:induction false} OneSidedTail(rs: seq<Reading>, i: nat, state: bool, observed: bool, debounce: int)
    requires i <= |rs|
    requires forall k :: i <= k < |rs| ==> rs[k].inside == rs[|rs| - 1].inside
    requires i < |rs| && rs[|rs| - 1].inside != state ==> !observed
    ensures ConfirmFrom(rs, i, state, observed, debounce) == []
    decreases |rs| - i
  {
    if i < |rs| {
      OneSidedTail(rs, i + 1, state, observed || rs[i].inside == state, debounce);
    }
  }

  lemma DwellAtOnset(rs: seq<Reading>, debounce: int)
    requires Ordered(rs) && rs != []
    ensures DwellMet(rs, Onset(rs), debounce) <==> rs[|rs| - 1].ts >= rs[Onset(rs)].ts + debounce
  {
    var b := Onset(rs);
    assert Unbroken(rs, b, |rs| - 1);
    if DwellMet(rs, b, debounce) {
      var j :| Unbroken(rs, b, j) && rs[j].ts >= rs[b].ts + debounce;
    }
  }

  // Up to the last run, a history that was quiet before its last reading stays quiet.
  lemma {:induction false} QuietUntilOnset(rs: seq<Reading>, seed: bool, evidence: bool, debounce: int, i: nat)
    requires Ordered(rs) && rs != [] && i <= Onset(rs)
    requires Confirm(rs[..|rs| - 1], seed, evidence, debounce) == []
    ensures ConfirmFrom(rs, i, seed, Witnessed(rs, seed, evidence, i), debounce)
        == Confirm(rs, seed, evidence, debounce)
    decreases i
  {
    if i > 0 {
      var n, k := |rs| - 1, i - 1;
      QuietUntilOnset(rs, seed, evidence, debounce, k);
      QuietScan(rs[..n], seed, evidence, debounce, k);
      assert Witnessed(rs, seed, evidence, i) == (Witnessed(rs, seed, evidence, k) || rs[k].inside == seed);
      assert Witnessed(rs[..n], seed, evidence, k) == Witnessed(rs, seed, evidence, k) by {
        assert forall m :: 0 <= m < k ==> rs[..n][m] == rs[m];
      }
      assert rs[..n][k] == rs[k];
      if DwellMet(rs, k, debounce) && !DwellMet(rs[..n], k, debounce) {
        DwellBeyondPrefix(rs, n, k, debounce);
      }
    }
  }

  // The last reading confirms the run it ends.
  ghost predicate Fresh(rs: seq<Reading>, seed: bool, evidence: bool, debounce: int) {
    && rs != []
    && rs[|rs| - 1].inside != seed
    && (Onset(rs) > 0 || evidence)
    && rs[|rs| - 1].ts >= rs[Onset(rs)].ts + debounce
  }

  // One more reading after a quiet history yields at most the transition of the run it ends.
  lemma LastReading(rs: seq<Reading>, seed: bool, evidence: bool, debounce: int)
    requires Ordered(rs) && rs != []
    requires Confirm(rs[..|rs| - 1], seed, evidence, debounce) == []
    ensures Confirm(rs, seed, evidence, debounce)
            == if Fresh(rs, seed, evidence, debounce) then [Crossing(rs[Onset(rs)])] else []
  {
    var b := Onset(rs);
    QuietUntilOnset(rs, seed, evidence, debounce, b);
    DwellAtOnset(rs, debounce);
    var observed := Witnessed(rs, seed, evidence, b);
    if rs[b].inside != seed {
      if b > 0 {
        assert rs[b - 1].inside == seed;
      }
      assert observed <==> b > 0 || evidence;
    }
    if Confirmed(rs, b, seed, observed, debounce) {
      OneSidedTail(rs, b + 1, rs[b].inside, true, debounce);
    } else if rs[b].inside != seed && observed {
      PendingEmitsNothing(rs, b, seed, observed, debounce, rs[b].ts);
    } else {
      OneSidedTail(rs, b, seed, observed, debounce);
    }
  }

  // Before its last reading, the last run had not dwelt.
  ghost predicate JustNow(rs: seq<Reading>, debounce: int)
    requires rs != []
  {
    Onset(rs) < |rs| - 1 ==> rs[|rs| - 2].ts < rs[Onset(rs)].ts + debounce
  }

  lemma NotYetDwelt(rs: seq<Reading>, seed: bool, evidence: bool, debounce: int)
    requires Ordered(rs) && rs != []
    requires Confirm(rs[..|rs| - 1], seed, evidence, debounce) == []
    requires Fresh(rs, seed, evidence, debounce)
    ensures JustNow(rs, debounce)
  {
    var n, b := |rs| - 1, Onset(rs);
    var q := rs[..n];
    QuietScan(q, seed, evidence, debounce, b);
    if b < n && rs[n - 1].ts >= rs[b].ts + debounce {
      assert Unbroken(q, b, n - 1);
      assert b > 0 ==> q[b - 1].inside == seed;
      assert Confirmed(q, b, seed, Witnessed(q, seed, evidence, b), debounce);
    }
  }

  // ---- fixes in order: when the window is enough ---------------------------------------------------

  // How many fixes back from the newest the evaluator has to see: the onset, and before any event
  // is recorded also the reading that witnesses the side crossed from.
  ghost function Needed(fixes: seq<Reading>, debounce: int): nat
    requires fixes != []
  {
    |fixes| - Onset(fixes) + if Batch(fixes[..|fixes| - 1], debounce) == [] then 1 else 0
  }

  // If the newest fix confirms a crossing, the neighbourhood reaches back far enough for it.
  ghost predicate Fits(fixes: seq<Reading>, debounce: int) {
    fixes == [] || Batch(fixes, debounce) == Batch(fixes[..|fixes| - 1], debounce)
    || Needed(fixes, debounce) <= NEIGHBOURS
  }

  // What is past the floor when the log holds the batch of every fix but the newest.
  lemma PastFloor(fixes: seq<Reading>, debounce: int) returns (lo: nat)
    requires Ordered(fixes) && fixes != []
    ensures var q := fixes[..|fixes| - 1];
            var log := Batch(q, debounce);
            var last := Latest(log);
            && lo == Floor(fixes, last) < |fixes|
            && Alternating(log, true)
            && (log == [] ==> lo == 0 && last.None?)
            && (log != [] ==> last == Some(log[|log| - 1]) && lo > 0 && fixes[lo - 1].inside == last.value.enter)
            && Confirm(fixes[lo..|fixes| - 1], Inside(last), last.Some?, debounce) == []
            && Batch(fixes, debounce) == log + Confirm(fixes[lo..], Inside(last), last.Some?, debounce)
  {
    var n := |fixes| - 1;
    var q := fixes[..n];
    var log := Batch(q, debounce);
    Spaced(q, false, false, debounce);
    NeverRetracts(fixes, n, false, false, debounce);
    var all := Batch(fixes, debounce);
    if log == [] {
      lo := 0;
      assert q[0..] == fixes[0..n] && fixes[0..] == fixes;
      assert log + all == all;
    } else {
      var k := |log| - 1;
      LatestIsLast(log, true);
      var m := EmittedAt(q, 0, false, false, debounce, k);
      assert fixes[m] == q[m];
      lo := m + 1;
      assert lo == Later(fixes, log[k].ts) == Later(q, log[k].ts);
      RestartsAnywhere(q, false, false, debounce, k);
      assert q[lo..] == fixes[lo..n] && log[k + 1..] == [];
      assert all[k] == log[k];
      RestartsAnywhere(fixes, false, false, debounce, k);
      assert all == all[..k + 1] + all[k + 1..] && all[..k + 1] == log;
    }
  }

  lemma FreshSuffix(rs: seq<Reading>, s: nat, seed: bool, evidence: bool, debounce: int)
    requires Ordered(rs) && 0 < s < |rs|
    ensures var w := rs[s..];
            && (Fresh(w, seed, evidence, debounce) ==> Fresh(rs, seed, evidence, debounce))
            && (Fresh(rs, seed, evidence, debounce) ==>
                  (Fresh(w, seed, evidence, debounce) && w[Onset(w)] == rs[Onset(rs)]
                   <==> Onset(rs) >= s + (if evidence then 0 else 1)))
  {
    var w := rs[s..];
    OnsetOfSuffix(rs, s);
    var b, c := Onset(rs), Onset(w);
    assert w[|w| - 1] == rs[|rs| - 1] && w[c] == rs[s + c];
    assert b < s + c ==> rs[b].ts < rs[s + c].ts;
  }

  // A suffix of the readable history gives the same answer exactly when it still holds the onset,
  // and, without a recorded event, the reading before it.
  lemma SuffixExact(rs: seq<Reading>, s: nat, seed: bool, evidence: bool, debounce: int)
    requires Ordered(rs) && 0 < s < |rs|
    requires Confirm(rs[..|rs| - 1], seed, evidence, debounce) == []
    ensures Confirm(rs[s..], seed, evidence, debounce) == Confirm(rs, seed, evidence, debounce)
            <==> Confirm(rs, seed, evidence, debounce) == [] || Onset(rs) >= s + (if evidence then 0 else 1)
  {
    var w, q := rs[s..], rs[..|rs| - 1];
    assert w[..|w| - 1] == q[s..];
    QuietSuffix(q, seed, evidence, debounce, s);
    var full, part := Confirm(rs, seed, evidence, debounce), Confirm(w, seed, evidence, debounce);
    assert full == (if Fresh(rs, seed, evidence, debounce) then [Crossing(rs[Onset(rs)])] else []) by {
      LastReading(rs, seed, evidence, debounce);
    }
    assert part == (if Fresh(w, seed, evidence, debounce) then [Crossing(w[Onset(w)])] else []) by {
      LastReading(w, seed, evidence, debounce);
    }
    FreshSuffix(rs, s, seed, evidence, debounce);
    assert Crossing(rs[Onset(rs)]) == Crossing(w[Onset(w)]) <==> rs[Onset(rs)] == w[Onset(w)];
  }

  // What the neighbourhood of the newest fix keeps of the readable history.
  function Recent(all: seq<Reading>): seq<Reading> {
    all[if |all| > NEIGHBOURS then |all| - NEIGHBOURS else 0..]
  }

  lemma NewestEvaluation(fixes: seq<Reading>, log: seq<Transition>, debounce: int)
    requires Ordered(fixes) && fixes != [] && Alternating(log, true) && Floor(fixes, Latest(log)) < |fixes|
    ensures var last := Latest(log);
            Evaluate(fixes, log, fixes[|fixes| - 1].ts, debounce)
            == log + Confirm(Recent(fixes[Floor(fixes, last)..]), Inside(last), last.Some?, debounce)
  {
    hide Evaluate, Confirm;
    var around := fixes[|fixes| - 1].ts;
    assert Later(fixes, around) == |fixes|;
    assert Window(fixes, Latest(log), around) == Recent(fixes[Floor(fixes, Latest(log))..]);
    EvaluationAppends(fixes, log, around, debounce);
  }

  // The bounded neighbourhood of a readable history that was quiet before its newest reading.
  lemma NeighbourhoodExact(all: seq<Reading>, seed: bool, evidence: bool, debounce: int)
    requires Ordered(all) && all != []
    requires Confirm(all[..|all| - 1], seed, evidence, debounce) == []
    ensures Confirm(Recent(all), seed, evidence, debounce) == Confirm(all, seed, evidence, debounce)
            <==> Confirm(all, seed, evidence, debounce) == []
                 || |all| - Onset(all) + (if evidence then 0 else 1) <= NEIGHBOURS
  {
    LastReading(all, seed, evidence, debounce);
    if |all| > NEIGHBOURS {
      SuffixExact(all, |all| - NEIGHBOURS, seed, evidence, debounce);
    } else {
      assert all[0..] == all;
    }
  }

  lemma NewestNeeds(fixes: seq<Reading>, lo: nat, seed: bool, evidence: bool, debounce: int)
    requires Ordered(fixes) && lo < |fixes|
    requires Fresh(fixes[lo..], seed, evidence, debounce)
    requires if evidence then lo > 0 && fixes[lo - 1].inside == seed else lo == 0
    ensures Onset(fixes) == lo + Onset(fixes[lo..])
  {
    OnsetOfSuffix(fixes, lo);
    assert fixes[lo..][|fixes| - 1 - lo] == fixes[|fixes| - 1];
  }

  lemma JustNowShifts(fixes: seq<Reading>, lo: nat, debounce: int)
    requires lo < |fixes| && JustNow(fixes[lo..], debounce) && Onset(fixes) == lo + Onset(fixes[lo..])
    ensures JustNow(fixes, debounce)
  {
  }

  lemma SameTail(log: seq<Transition>, a: seq<Transition>, b: seq<Transition>)
    ensures log + a == log + b <==> a == b
    ensures log + a == log <==> a == []
  {
    assert (log + a)[|log|..] == a && (log + b)[|log|..] == b;
  }

  // The newest fix, against a log that is right for every fix before it: the readable history `all`
  // past its floor, the events still missing, and what the onset of the missing event needs.
  lemma NewestMissing(fixes: seq<Reading>, debounce: int) returns (all: seq<Reading>, missing: seq<Transition>)
    requires Ordered(fixes) && fixes != []
    ensures var log := Batch(fixes[..|fixes| - 1], debounce);
            var last := Latest(log);
            && Alternating(log, true)
            && Floor(fixes, last) < |fixes| && all == fixes[Floor(fixes, last)..]
            && missing == Confirm(all, Inside(last), last.Some?, debounce)
            && Confirm(all[..|all| - 1], Inside(last), last.Some?, debounce) == []
            && Batch(fixes, debounce) == log + missing
            && (missing != [] ==> Fresh(all, Inside(last), last.Some?, debounce)
                                  && |all| - Onset(all) == |fixes| - Onset(fixes)
                                  && JustNow(fixes, debounce))
  {
    var last := Latest(Batch(fixes[..|fixes| - 1], debounce));
    var lo := PastFloor(fixes, debounce);
    all := fixes[lo..];
    missing := Confirm(all, Inside(last), last.Some?, debounce);
    assert all[..|all| - 1] == fixes[lo..|fixes| - 1];
    LastReading(all, Inside(last), last.Some?, debounce);
    if missing != [] {
      NewestNeeds(fixes, lo, Inside(last), last.Some?, debounce);
      NotYetDwelt(all, Inside(last), last.Some?, debounce);
      JustNowShifts(fixes, lo, debounce);
    }
  }

  // The evaluation for the newest fix, from a log that was right before it.
  lemma NewestFix(fixes: seq<Reading>, debounce: int)
    requires Ordered(fixes) && fixes != []
    ensures var before := Batch(fixes[..|fixes| - 1], debounce);
            Evaluate(fixes, before, fixes[|fixes| - 1].ts, debounce) == Batch(fixes, debounce)
            <==> Fits(fixes, debounce)
  {
    var log := Batch(fixes[..|fixes| - 1], debounce);
    var last := Latest(log);
    var all, missing := NewestMissing(fixes, debounce);
    NewestEvaluation(fixes, log, debounce);
    NeighbourhoodExact(all, Inside(last), last.Some?, debounce);
    SameTail(log, missing, Confirm(Recent(all), Inside(last), last.Some?, debounce));
  }

  lemma {:induction false} OnsetOfSuffix(rs: seq<Reading>, s: nat)
    requires s < |rs|
    ensures Onset(rs[s..]) == if Onset(rs) > s then Onset(rs) - s else 0
  {
    var t := rs[s..];
    var i, j := Onset(rs), Onset(t);
    if j > 0 {
      assert t[j - 1] == rs[s + j - 1];
    }
    if i > s {
      assert rs[i - 1] == t[i - 1 - s];
    }
    assert forall k :: 0 <= k < |t| ==> t[k] == rs[s + k];
  }

  lemma StoreNewest(fixes: seq<Reading>, r: Reading)
    requires Ordered(fixes) && (forall k :: 0 <= k < |fixes| ==> fixes[k].ts < r.ts)
    ensures !Stored(fixes, r.ts) && Store(fixes, r) == fixes + [r]
  {
    assert Later(fixes, r.ts) == |fixes|;
  }

  lemma {:induction false} InOrderFixes(fixes: seq<Reading>, debounce: int)
    requires Ordered(fixes)
    ensures AfterArrivals(fixes, debounce).fixes == fixes
    decreases |fixes|
  {
    hide Evaluate;
    if fixes != [] {
      var before, r := fixes[..|fixes| - 1], fixes[|fixes| - 1];
      InOrderFixes(before, debounce);
      StoreNewest(before, r);
      assert before + [r] == fixes;
    }
  }

  lemma InOrderStep(fixes: seq<Reading>, debounce: int)
    requires Ordered(fixes) && fixes != []
    ensures AfterArrivals(fixes, debounce).log
            == Evaluate(fixes, AfterArrivals(fixes[..|fixes| - 1], debounce).log, fixes[|fixes| - 1].ts, debounce)
  {
    hide Evaluate, Stored, Store;
    var before, r := fixes[..|fixes| - 1], fixes[|fixes| - 1];
    InOrderFixes(before, debounce);
    StoreNewest(before, r);
    assert before + [r] == fixes;
  }

  // After every fix so far: the log is the batch projection of the fixes so far.
  ghost predicate AlwaysBatch(fixes: seq<Reading>, debounce: int) {
    && AfterArrivals(fixes, debounce).log == Batch(fixes, debounce)
    && (fixes != [] ==> AlwaysBatch(fixes[..|fixes| - 1], debounce))
  }

  ghost predicate AlwaysFits(fixes: seq<Reading>, debounce: int) {
    && Fits(fixes, debounce)
    && (fixes != [] ==> AlwaysFits(fixes[..|fixes| - 1], debounce))
  }

  /** With fixes arriving in order, the incremental log equals the batch projection after every fix,
      if and only if every crossing fits the neighbourhood of the fix that confirms it. */
  lemma {:induction false} WindowExact(fixes: seq<Reading>, debounce: int)
    requires Ordered(fixes)
    ensures AlwaysBatch(fixes, debounce) <==> AlwaysFits(fixes, debounce)
    decreases |fixes|
  {
    hide Evaluate;
    if fixes != [] {
      WindowExact(fixes[..|fixes| - 1], debounce);
      InOrderStep(fixes, debounce);
      NewestFix(fixes, debounce);
    }
  }

  // Any 127 consecutive fixes span at least the debounce.
  ghost predicate SpreadOut(fixes: seq<Reading>, debounce: int) {
    forall k :: 0 <= k < |fixes| - (NEIGHBOURS - 2) ==> fixes[k + (NEIGHBOURS - 2)].ts - fixes[k].ts >= debounce
  }

  lemma SpreadBound(fixes: seq<Reading>, debounce: int, b: nat, m: nat)
    requires Ordered(fixes) && SpreadOut(fixes, debounce) && b <= m < |fixes|
    ensures m >= b + (NEIGHBOURS - 2) ==> fixes[m].ts >= fixes[b].ts + debounce
  {
    var k := b + (NEIGHBOURS - 2);
    assert k < m ==> fixes[k].ts < fixes[m].ts;
  }

  lemma SpreadFits(fixes: seq<Reading>, debounce: int)
    requires Ordered(fixes) && SpreadOut(fixes, debounce)
    ensures Fits(fixes, debounce)
  {
    if fixes != [] && Batch(fixes, debounce) != Batch(fixes[..|fixes| - 1], debounce) {
      var all, missing := NewestMissing(fixes, debounce);
      SameTail(Batch(fixes[..|fixes| - 1], debounce), missing, []);
      if Onset(fixes) < |fixes| - 1 {
        SpreadBound(fixes, debounce, Onset(fixes), |fixes| - 2);
      }
    }
  }

  lemma {:induction false} SpreadAlwaysFits(fixes: seq<Reading>, debounce: int)
    requires Ordered(fixes) && SpreadOut(fixes, debounce)
    ensures AlwaysFits(fixes, debounce)
    decreases |fixes|
  {
    SpreadFits(fixes, debounce);
    if fixes != [] {
      SpreadAlwaysFits(fixes[..|fixes| - 1], debounce);
    }
  }

  /** A bounded window suffices for fixes in order of which any 127 consecutive span the debounce. */
  lemma SpacingSuffices(fixes: seq<Reading>, debounce: int)
    requires Ordered(fixes) && SpreadOut(fixes, debounce)
    ensures AfterArrivals(fixes, debounce) == Device(fixes, Batch(fixes, debounce))
  {
    SpreadAlwaysFits(fixes, debounce);
    WindowExact(fixes, debounce);
    InOrderFixes(fixes, debounce);
  }

  // Consecutive fixes are at least a unit of time apart, as whole event times in that unit are.
  ghost predicate Stepped(fixes: seq<Reading>, unit: int) {
    unit > 0 && forall k :: 0 < k < |fixes| ==> fixes[k].ts - fixes[k - 1].ts >= unit
  }

  lemma {:induction false} StepsApart(fixes: seq<Reading>, unit: int, i: nat, j: nat)
    requires Stepped(fixes, unit) && i <= j < |fixes|
    ensures fixes[j].ts - fixes[i].ts >= (j - i) * unit
    decreases j - i
  {
    if i < j {
      StepsApart(fixes, unit, i, j - 1);
      assert (j - i) * unit == (j - 1 - i) * unit + unit;
    }
  }

  /** A bounded window suffices, without a condition on the spacing, for every debounce of at most 126 units
      of the event times: fixes in order leave the batch projection. */
  lemma StepsSuffice(fixes: seq<Reading>, unit: int, debounce: int)
    requires Ordered(fixes) && Stepped(fixes, unit) && debounce <= (NEIGHBOURS - 2) * unit
    ensures AfterArrivals(fixes, debounce) == Device(fixes, Batch(fixes, debounce))
  {
    forall k | 0 <= k < |fixes| - (NEIGHBOURS - 2) ensures fixes[k + (NEIGHBOURS - 2)].ts - fixes[k].ts >= debounce {
      StepsApart(fixes, unit, k, k + (NEIGHBOURS - 2));
    }
    SpacingSuffices(fixes, debounce);
  }

  // The debounce the server passes, in the seconds its event times count.
  const GEOFENCE_DEBOUNCE := 90

  /** So it does for the server, whose event times are whole seconds and whose debounce is ninety. */
  lemma ServerWindowSuffices(fixes: seq<Reading>)
    requires Ordered(fixes)
    ensures AfterArrivals(fixes, GEOFENCE_DEBOUNCE) == Device(fixes, Batch(fixes, GEOFENCE_DEBOUNCE))
  {
    StepsSuffice(fixes, 1, GEOFENCE_DEBOUNCE);
  }

  // A fix a second: the first outside, the others inside, until the dwell is just met.
  function SlowDwell(debounce: nat): (fixes: seq<Reading>)
    ensures |fixes| == debounce + 2
    ensures forall k :: 0 <= k < |fixes| ==> fixes[k] == Reading(k, k > 0)
    ensures Ordered(fixes)
  {
    seq(debounce + 2, k => Reading(k, k > 0))
  }

  lemma SlowIsPending(debounce: nat, n: nat)
    requires n <= debounce + 1
    ensures Batch(SlowDwell(debounce)[..n], debounce) == []
  {
    hide SlowDwell;
    var fixes := SlowDwell(debounce)[..n];
    if n > 0 {
      PendingEmitsNothing(fixes, 1, false, true, debounce, 1);
    }
  }

  // A newest fix that completes nothing is recorded as nothing.
  lemma QuietStep(fixes: seq<Reading>, debounce: int)
    requires Ordered(fixes) && fixes != [] && Batch(fixes, debounce) == []
    requires Batch(fixes[..|fixes| - 1], debounce) == [] == AfterArrivals(fixes[..|fixes| - 1], debounce).log
    ensures AfterArrivals(fixes, debounce).log == []
  {
    hide Batch, Evaluate, AfterArrivals;
    InOrderStep(fixes, debounce);
    NewestFix(fixes, debounce);
  }

  lemma {:induction false} NotYetMet(debounce: nat, n: nat)
    requires n <= debounce + 1
    ensures Batch(SlowDwell(debounce)[..n], debounce) == [] == AfterArrivals(SlowDwell(debounce)[..n], debounce).log
  {
    hide Batch, SlowDwell, AfterArrivals;
    SlowIsPending(debounce, n);
    if n == 0 {
      NothingArrived(debounce);
    } else {
      NotYetMet(debounce, n - 1);
      assert SlowDwell(debounce)[..n][..n - 1] == SlowDwell(debounce)[..n - 1];
      QuietStep(SlowDwell(debounce)[..n], debounce);
    }
  }

  lemma MetAtLast(debounce: nat)
    ensures Batch(SlowDwell(debounce), debounce) == [Transition(1, true)]
  {
    hide SlowDwell;
    var fixes := SlowDwell(debounce);
    assert Unbroken(fixes, 1, debounce + 1);
    assert ConfirmFrom(fixes, 1, false, true, debounce) == [Crossing(fixes[1])]
        + ConfirmFrom(fixes, 2, true, true, debounce);
    SkipRun(fixes, 2, |fixes|, true, debounce);
  }

  lemma SlowOnset(debounce: nat)
    ensures Onset(SlowDwell(debounce)) <= 1
  {
    hide SlowDwell;
    var fixes := SlowDwell(debounce);
    assert fixes[0].inside != fixes[1].inside;
  }

  lemma SlowDoesNotFit(debounce: nat)
    requires debounce > NEIGHBOURS - 2
    ensures !Fits(SlowDwell(debounce), debounce)
  {
    hide SlowDwell, Batch, AfterArrivals, Onset;
    NotYetMet(debounce, debounce + 1);
    MetAtLast(debounce);
    SlowOnset(debounce);
  }

  /** With a longer debounce the window can miss: by the time the dwell is met, the fix that witnessed the
      outside has left the neighbourhood, and the crossing is not recorded. */
  lemma WindowCanMiss(debounce: nat)
    requires debounce > NEIGHBOURS - 2
    ensures var fixes := SlowDwell(debounce);
            && Batch(fixes, debounce) == [Transition(1, true)] && !AlwaysFits(fixes, debounce)
            && AfterArrivals(fixes, debounce).log != Batch(fixes, debounce)
  {
    hide Evaluate, SlowDwell, Batch, Fits, AfterArrivals;
    var fixes := SlowDwell(debounce);
    NotYetMet(debounce, debounce + 1);
    MetAtLast(debounce);
    SlowDoesNotFit(debounce);
    InOrderStep(fixes, debounce);
    NewestFix(fixes, debounce);
  }

  /** For event times in whole seconds the bound is exact: the window suffices for every history of fixes in
      order if and only if the debounce is at most 126 seconds. */
  lemma WindowSufficesExactly(debounce: int)
    ensures (forall fixes :: Ordered(fixes) ==> AfterArrivals(fixes, debounce) == Device(fixes, Batch(fixes, debounce)))
            <==> debounce <= NEIGHBOURS - 2
  {
    hide Batch, AfterArrivals, SlowDwell;
    if debounce <= NEIGHBOURS - 2 {
      forall fixes | Ordered(fixes) ensures AfterArrivals(fixes, debounce) == Device(fixes, Batch(fixes, debounce)) {
        StepsSuffice(fixes, 1, debounce);
      }
    } else {
      WindowCanMiss(debounce);
      assert Ordered(SlowDwell(debounce));
    }
  }
}
