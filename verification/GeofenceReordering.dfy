/**
Fixes that arrive late.  The log is to converge to what the fixes say in ts order; an evaluation only ever
appends, so it does exactly when nothing recorded has become wrong (`ConvergesExactly`, and over a whole run
`ConvergesThroughout`).  For a fix ahead of the last recorded transition that comes down to where it lies and
on which side (`AheadConvergesExactly`), and it can fail (`LateFixContradicts`).
*/
module GeofenceReordering {
  import opened DwellMachine
  import opened GeofenceLog
  import opened GeofenceConcurrency
  import opened Options

  // The read reaches the newest fix, and what it leaves out on the left does not matter.
  ghost predicate ReadsEnough(fixes: seq<Reading>, log: seq<Transition>, around: int)
    requires Ordered(fixes)
  {
    SettledBefore(fixes, Latest(log), around) && ReadTo(fixes, Latest(log), around) == |fixes|
  }

  /** An evaluation that reads enough leaves the batch projection if and only if what was recorded before is a
      beginning of it. */
  lemma ConvergesExactly(fixes: seq<Reading>, log: seq<Transition>, around: int, debounce: int)
    requires Ordered(fixes) && Alternating(log, true) && ReadsEnough(fixes, log, around)
    ensures Evaluate(fixes, log, around, debounce) == Batch(fixes, debounce) <==> log <= Batch(fixes, debounce)
  {
    EvaluationAppends(fixes, log, around, debounce);
    hide Evaluate, Batch, Derived, SettledBefore, ReadTo;
    if log <= Batch(fixes, debounce) {
      EvaluationHeals(fixes, log, around, debounce);
    }
  }

  // ---- whole runs of arrivals --------------------------------------------------------------------------

  // The log is the batch projection of the stored fixes.
  ghost predicate Converged(arrivals: seq<Reading>, debounce: int) {
    var d := AfterArrivals(arrivals, debounce); d.log == Batch(d.fixes, debounce)
  }

  // Storing the last fix to arrive takes nothing back from the batch projection.
  ghost predicate Extends(arrivals: seq<Reading>, debounce: int)
    requires arrivals != []
  {
    Batch(AfterArrivals(arrivals[..|arrivals| - 1], debounce).fixes, debounce)
    <= Batch(AfterArrivals(arrivals, debounce).fixes, debounce)
  }

  // The evaluation of the last fix to arrive reads enough, unless that fix is a replay.
  ghost predicate LastReadsEnough(arrivals: seq<Reading>, debounce: int)
    requires arrivals != []
  {
    var before, r := AfterArrivals(arrivals[..|arrivals| - 1], debounce), arrivals[|arrivals| - 1];
    !Stored(before.fixes, r.ts) ==> ReadsEnough(Store(before.fixes, r), before.log, r.ts)
  }

  lemma ConvergedStep(arrivals: seq<Reading>, debounce: int)
    requires arrivals != [] && LastReadsEnough(arrivals, debounce)
    requires Converged(arrivals[..|arrivals| - 1], debounce)
    ensures Converged(arrivals, debounce) <==> Extends(arrivals, debounce)
  {
    var before, r := AfterArrivals(arrivals[..|arrivals| - 1], debounce), arrivals[|arrivals| - 1];
    AnyArrivalOrder(arrivals[..|arrivals| - 1], debounce);
    hide Evaluate, Batch, Store, Stored, ReadsEnough;
    if !Stored(before.fixes, r.ts) {
      ConvergesExactly(Store(before.fixes, r), before.log, r.ts, debounce);
    }
  }

  lemma ConvergedAtFirst(debounce: int)
    ensures Converged([], debounce)
  {
    NothingArrived(debounce);
  }

  /** However fixes arrive, read in full: the log is the batch projection of the stored fixes after every
      arrival if and only if no arrival takes anything back from the projection. */
  lemma ConvergesThroughout(arrivals: seq<Reading>, debounce: int)
    requires forall n {:trigger arrivals[..n]} :: 0 < n <= |arrivals| ==> LastReadsEnough(arrivals[..n], debounce)
    ensures (forall n {:trigger arrivals[..n]} :: 0 <= n <= |arrivals| ==> Converged(arrivals[..n], debounce))
            <==> forall n {:trigger arrivals[..n]} :: 0 < n <= |arrivals| ==> Extends(arrivals[..n], debounce)
  {
    hide Converged, Extends, LastReadsEnough;
    ConvergedAtFirst(debounce);
    assert arrivals[..0] == [];
    for k := 0 to |arrivals|
      invariant (forall n {:trigger arrivals[..n]} :: 0 <= n <= k ==> Converged(arrivals[..n], debounce))
                <==> forall n {:trigger arrivals[..n]} :: 0 < n <= k ==> Extends(arrivals[..n], debounce)
    {
      assert arrivals[..k + 1][..k] == arrivals[..k];
      if Converged(arrivals[..k], debounce) {
        ConvergedStep(arrivals[..k + 1], debounce);
      }
    }
  }

  // ---- a late fix ahead of the last transition -------------------------------------------------------------

  // Two histories that begin alike, up to and with a run that dwells in both.
  ghost predicate Alike(a: seq<Reading>, b: seq<Reading>, m: nat, debounce: int) {
    && m < |a| && m < |b| && a[..m + 1] == b[..m + 1]
    && DwellMet(a, m, debounce) && DwellMet(b, m, debounce)
  }

  lemma DwellCarries(a: seq<Reading>, b: seq<Reading>, m: nat, debounce: int, i: nat)
    requires Ordered(a) && Alike(a, b, m, debounce) && i <= m && DwellMet(a, i, debounce)
    ensures DwellMet(b, i, debounce)
  {
    assert forall k :: 0 <= k <= m ==> a[k] == a[..m + 1][k] == b[k];
    var j :| Unbroken(a, i, j) && a[j].ts >= a[i].ts + debounce;
    if j <= m {
      assert Unbroken(b, i, j);
    } else {
      var l :| Unbroken(b, m, l) && b[l].ts >= b[m].ts + debounce;
      forall k | i <= k <= l ensures b[k].inside == b[i].inside {
        assert k <= m ==> a[k].inside == a[i].inside;
        assert a[m].inside == a[i].inside;
      }
      assert Unbroken(b, i, l);
    }
  }

  lemma DwellAgrees(a: seq<Reading>, b: seq<Reading>, m: nat, debounce: int, i: nat)
    requires Ordered(a) && Ordered(b) && Alike(a, b, m, debounce) && i <= m
    ensures a[i] == b[i] && (DwellMet(a, i, debounce) <==> DwellMet(b, i, debounce))
  {
    assert a[i] == a[..m + 1][i] == b[i];
    assert forall k :: 0 <= k <= m ==> a[k] == a[..m + 1][k] == b[k];
    hide DwellMet, Unbroken;
    if DwellMet(a, i, debounce) {
      DwellCarries(a, b, m, debounce, i);
    } else if DwellMet(b, i, debounce) {
      DwellCarries(b, a, m, debounce, i);
    }
  }

  // The scan emits the same of both, up to that run.
  lemma {:induction false} AlikeFrom(a: seq<Reading>, b: seq<Reading>, m: nat, debounce: int, i: nat, state: bool,
      observed: bool) returns (out: seq<Transition>)
    requires Ordered(a) && Ordered(b) && Alike(a, b, m, debounce) && i <= m
    requires Crossing(a[m]) in ConfirmFrom(a, i, state, observed, debounce)
    ensures ConfirmFrom(a, i, state, observed, debounce) == out + ConfirmFrom(a, m + 1, a[m].inside, true, debounce)
    ensures ConfirmFrom(b, i, state, observed, debounce) == out + ConfirmFrom(b, m + 1, a[m].inside, true, debounce)
    decreases m - i
  {
    DwellAgrees(a, b, m, debounce, i);
    hide DwellMet;
    var emit := Confirmed(a, i, state, observed, debounce);
    var state' := if emit then a[i].inside else state;
    var observed' := observed || a[i].inside == state;
    if i == m {
      SpacedFrom(a, i + 1, state', observed', debounce);
      out := [Crossing(a[m])];
    } else {
      assert Crossing(a[i]) != Crossing(a[m]);
      var rest := AlikeFrom(a, b, m, debounce, i + 1, state', observed');
      out := if emit then [Crossing(a[i])] + rest else rest;
    }
  }

  // With a later fix stored, the run that begins at m still dwells.
  ghost predicate StillDwells(fixes: seq<Reading>, r: Reading, m: nat, debounce: int)
    requires m < |fixes|
  {
    || r.inside == fixes[m].inside
    || exists k :: 0 <= k < |fixes| && fixes[m].ts + debounce <= fixes[k].ts < r.ts
  }

  // `out` is `fixes` with r at index k.
  ghost predicate InsertedAt(fixes: seq<Reading>, out: seq<Reading>, r: Reading, k: nat) {
    && k <= |fixes| && |out| == |fixes| + 1 && out[k] == r
    && (forall i :: 0 <= i < k ==> out[i] == fixes[i])
    && (forall i :: k <= i < |fixes| ==> out[i + 1] == fixes[i])
  }

  lemma StoredAfter(fixes: seq<Reading>, r: Reading, m: nat)
    requires Ordered(fixes) && !Stored(fixes, r.ts) && m < |fixes| && fixes[m].ts < r.ts
    ensures m < Later(fixes, r.ts) && InsertedAt(fixes, Store(fixes, r), r, Later(fixes, r.ts))
    ensures Store(fixes, r)[..m + 1] == fixes[..m + 1]
  {
  }

  lemma DwellWith(fixes: seq<Reading>, r: Reading, m: nat, debounce: int)
    requires Ordered(fixes) && !Stored(fixes, r.ts) && m < |fixes| && fixes[m].ts < r.ts
    requires DwellMet(fixes, m, debounce)
    ensures DwellMet(Store(fixes, r), m, debounce) <==> StillDwells(fixes, r, m, debounce)
  {
    var k, out := Later(fixes, r.ts), Store(fixes, r);
    StoredAfter(fixes, r, m);
    var j := FirstPast(fixes, m, debounce);
    assert forall i :: 0 <= i < |fixes| ==> (fixes[i].ts < r.ts <==> i < k);
    hide Store, Later, DwellMet, InsertedAt, Unbroken, Ordered;
    if j < k {
      DwellsBefore(fixes, out, r, m, k, j, debounce);
    } else {
      NotPastBefore(fixes, m, j, k, debounce);
      if r.inside == fixes[m].inside {
        DwellsAround(fixes, out, r, m, k, j, debounce);
      } else {
        BrokenAt(fixes, out, r, m, k, debounce);
      }
    }
  }

  lemma DwellsBefore(fixes: seq<Reading>, out: seq<Reading>, r: Reading, m: nat, k: nat, j: nat, debounce: int)
    requires InsertedAt(fixes, out, r, k) && j < k
    requires Unbroken(fixes, m, j) && fixes[j].ts >= fixes[m].ts + debounce
    ensures DwellMet(out, m, debounce)
  {
    assert Unbroken(out, m, j);
  }

  lemma DwellsAround(fixes: seq<Reading>, out: seq<Reading>, r: Reading, m: nat, k: nat, j: nat, debounce: int)
    requires InsertedAt(fixes, out, r, k) && m < k <= j && r.inside == fixes[m].inside
    requires Unbroken(fixes, m, j) && fixes[j].ts >= fixes[m].ts + debounce
    ensures DwellMet(out, m, debounce)
  {
    forall i | m <= i <= j + 1 ensures out[i].inside == out[m].inside {
      assert i > k ==> out[i] == fixes[i - 1];
    }
    assert Unbroken(out, m, j + 1);
  }

  lemma NotPastBefore(fixes: seq<Reading>, m: nat, j: nat, k: nat, debounce: int)
    requires Ordered(fixes) && m < k <= j < |fixes|
    requires forall i :: m <= i < j ==> fixes[i].ts < fixes[m].ts + debounce
    ensures forall i :: 0 <= i < k ==> fixes[i].ts < fixes[m].ts + debounce
  {
  }

  // Nothing before a break past m reaches the dwell.
  lemma BrokenAt(fixes: seq<Reading>, out: seq<Reading>, r: Reading, m: nat, k: nat, debounce: int)
    requires InsertedAt(fixes, out, r, k) && m < k && r.inside != fixes[m].inside
    requires forall i :: 0 <= i < k ==> fixes[i].ts < fixes[m].ts + debounce
    ensures !DwellMet(out, m, debounce)
  {
    forall j | Unbroken(out, m, j) ensures out[j].ts < out[m].ts + debounce {
      assert j < k;
    }
  }

  // The last of what a history emits.
  lemma LastEmitted(rs: seq<Reading>, debounce: int) returns (m: nat)
    requires Ordered(rs) && Batch(rs, debounce) != []
    ensures var log := Batch(rs, debounce);
            && m < |rs| && log[|log| - 1] == Crossing(rs[m]) && DwellMet(rs, m, debounce)
            && ConfirmFrom(rs, m + 1, rs[m].inside, true, debounce) == []
  {
    var log := Batch(rs, debounce);
    m := EmittedAt(rs, 0, false, false, debounce, |log| - 1);
    assert log[|log|..] == [];
    EmitsExactly(rs, false, false, debounce, log[|log| - 1]);
    var k :| 0 <= k < |rs| && Emits(rs, false, false, debounce, k) && log[|log| - 1] == Crossing(rs[k]);
    OneOfATime(rs, m, k);
  }

  lemma OneOfATime(rs: seq<Reading>, i: nat, j: nat)
    requires Ordered(rs) && i < |rs| && j < |rs| && rs[i].ts == rs[j].ts
    ensures i == j
  {
  }

  // What was recorded stays right exactly when the run of the last transition still dwells.
  lemma KeptExactly(fixes: seq<Reading>, r: Reading, m: nat, debounce: int)
    requires Ordered(fixes) && !Stored(fixes, r.ts) && m < |fixes| && fixes[m].ts < r.ts
    requires var log := Batch(fixes, debounce); log != [] && log[|log| - 1] == Crossing(fixes[m])
    requires DwellMet(fixes, m, debounce) && ConfirmFrom(fixes, m + 1, fixes[m].inside, true, debounce) == []
    ensures Batch(fixes, debounce) <= Batch(Store(fixes, r), debounce) <==> DwellMet(Store(fixes, r), m, debounce)
  {
    var log, out := Batch(fixes, debounce), Store(fixes, r);
    StoredAfter(fixes, r, m);
    hide Store, Later, DwellMet, ConfirmFrom, InsertedAt;
    if DwellMet(out, m, debounce) {
      var same := AlikeFrom(fixes, out, m, debounce, 0, false, false);
      assert log == same;
    } else {
      NotEmitted(out, m, debounce);
      LastIsIn(log, Batch(out, debounce));
    }
  }

  lemma LastIsIn(log: seq<Transition>, batch: seq<Transition>)
    requires log != []
    ensures log <= batch ==> log[|log| - 1] in batch
  {
  }

  lemma NotEmitted(rs: seq<Reading>, m: nat, debounce: int)
    requires Ordered(rs) && m < |rs| && !DwellMet(rs, m, debounce)
    ensures Crossing(rs[m]) !in Batch(rs, debounce)
  {
    hide DwellMet, ConfirmFrom, StateAt, Witnessed, RunStart;
    EmitsExactly(rs, false, false, debounce, Crossing(rs[m]));
    forall k | 0 <= k < |rs| && Crossing(rs[m]) == Crossing(rs[k]) ensures !Emits(rs, false, false, debounce, k) {
      OneOfATime(rs, m, k);
    }
  }

  // Ahead of everything recorded.
  ghost predicate Ahead(log: seq<Transition>, r: Reading) {
    forall k :: 0 <= k < |log| ==> log[k].ts < r.ts
  }

  // It lies on the other side of the last transition, with nothing stored between that transition's dwell and it.
  ghost predicate Contradicts(fixes: seq<Reading>, log: seq<Transition>, r: Reading, debounce: int) {
    && log != [] && r.inside != log[|log| - 1].enter
    && forall k :: 0 <= k < |fixes| && log[|log| - 1].ts + debounce <= fixes[k].ts ==> r.ts <= fixes[k].ts
  }

  /** A late fix ahead of the last transition, into a log that was right: the evaluation leaves it right if and
      only if the fix does not contradict that transition, by lying on the other side before the fix that
      confirmed it. */
  lemma AheadConvergesExactly(fixes: seq<Reading>, r: Reading, debounce: int)
    requires Ordered(fixes) && !Stored(fixes, r.ts) && Ahead(Batch(fixes, debounce), r)
    requires ReadsEnough(Store(fixes, r), Batch(fixes, debounce), r.ts)
    ensures Evaluate(Store(fixes, r), Batch(fixes, debounce), r.ts, debounce) == Batch(Store(fixes, r), debounce)
            <==> !Contradicts(fixes, Batch(fixes, debounce), r, debounce)
  {
    var log := Batch(fixes, debounce);
    Spaced(fixes, false, false, debounce);
    ConvergesExactly(Store(fixes, r), log, r.ts, debounce);
    if log != [] {
      var m := LastEmitted(fixes, debounce);
      hide Batch, Store, Stored, ReadsEnough, Evaluate, DwellMet;
      KeptExactly(fixes, r, m, debounce);
      DwellWith(fixes, r, m, debounce);
    }
  }

  // ---- a late fix that contradicts --------------------------------------------------------------------------

  // Outside, then inside for a hundred seconds; and the fix between the last two.
  const THREE := [Reading(0, false), Reading(100, true), Reading(200, true)]

  const BETWEEN := Reading(150, false)

  const FOUR := [Reading(0, false), Reading(100, true), Reading(150, false), Reading(200, true)]

  lemma ThreeConfirm()
    ensures Ordered(THREE) && Batch(THREE, 90) == [Transition(100, true)]
  {
    assert Unbroken(THREE, 1, 2);
    assert ConfirmFrom(THREE, 0, false, false, 90) == ConfirmFrom(THREE, 1, false, true, 90);
    assert ConfirmFrom(THREE, 1, false, true, 90) == [Crossing(THREE[1])] + ConfirmFrom(THREE, 2, true, true, 90);
    SkipRun(THREE, 2, 3, true, 90);
  }

  lemma FourDoNot()
    ensures Batch(FOUR, 90) == []
  {
    BrokenAt(THREE, FOUR, BETWEEN, 1, 2, 90);
    PendingEmitsNothing(FOUR, 3, false, true, 90, 200);
    assert ConfirmFrom(FOUR, 0, false, false, 90) == ConfirmFrom(FOUR, 1, false, true, 90);
    assert ConfirmFrom(FOUR, 1, false, true, 90) == ConfirmFrom(FOUR, 2, false, true, 90);
    assert ConfirmFrom(FOUR, 2, false, true, 90) == ConfirmFrom(FOUR, 3, false, true, 90);
  }

  lemma BetweenStored()
    ensures Ordered(FOUR) && !Stored(THREE, 150) && Store(THREE, BETWEEN) == FOUR
  {
    assert THREE[1].ts == 100 && THREE[2].ts == 200;
    assert Later(THREE, 150) == 2;
    assert THREE[..2] + [BETWEEN] + THREE[2..] == FOUR;
  }

  lemma FourKept()
    ensures Ordered(FOUR) && Evaluate(FOUR, [Transition(100, true)], 150, 90) == [Transition(100, true)]
  {
    var log := [Transition(100, true)];
    LaterThan(FOUR, 1);
    LaterThan(FOUR, 2);
    assert Latest(log) == Some(log[0]);
    var w := [FOUR[2], FOUR[3]];
    assert Window(FOUR, Some(log[0]), 150) == w;
    assert ConfirmFrom(w, 0, true, true, 90) == ConfirmFrom(w, 1, true, true, 90) by {
      BrokenAt([FOUR[2]], w, FOUR[3], 0, 1, 90);
    }
    SkipRun(w, 1, 2, true, 90);
    EvaluationAppends(FOUR, log, 150, 90);
  }

  /** It happens: a late fix ahead of the recorded arrival breaks the dwell that confirmed it, and the arrival
      stays in the log although the fixes do not bear it out. */
  lemma LateFixContradicts()
    ensures var d := AfterArrivals(THREE + [BETWEEN], 90);
            && AfterArrivals(THREE, 90) == Device(THREE, [Transition(100, true)])
            && d == Device(FOUR, [Transition(100, true)]) && Batch(d.fixes, 90) == []
            && Ahead([Transition(100, true)], BETWEEN)
            && Contradicts(THREE, [Transition(100, true)], BETWEEN, 90)
  {
    ThreeConfirm();
    ServerWindowSuffices(THREE);
    assert (THREE + [BETWEEN])[..3] == THREE;
    assert Contradicts(THREE, [Transition(100, true)], BETWEEN, 90);
    FourKept();
    hide Batch, AfterArrivals, Evaluate, Stored, Store;
    FourDoNot();
    BetweenStored();
    Arrival(THREE + [BETWEEN], 90);
  }
}
