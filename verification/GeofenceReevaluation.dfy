/**
Evaluating again with nothing new stored.  It appends nothing as long as the neighbourhood reaches the
newest fix, or the last event recorded is no later than the triggering fix; a late fix with more than
`NEIGHBOURS` later ones behind it can leave a crossing that only a second evaluation finds.
`SilentExactly` says when it does.
*/
module GeofenceReevaluation {
  import opened DwellMachine
  import opened GeofenceLog
  import opened Options

  // No fix is too far after `around` to be read.
  ghost predicate ReadsToTheEnd(fixes: seq<Reading>, log: seq<Transition>, around: int)
    requires Ordered(fixes)
  {
    |fixes| - Middle(fixes, Latest(log), around) <= NEIGHBOURS
  }

  // Where a second evaluation reads, past a reading at index n.
  lemma SecondBounds(fixes: seq<Reading>, last: Option<Transition>, around: int, n: nat, t: Transition)
    requires Ordered(fixes) && n < |fixes| && t.ts == fixes[n].ts
    requires var mid := Middle(fixes, last, around);
             && WindowFrom(Floor(fixes, last), mid) <= n < WindowTo(mid, |fixes|)
             && (|fixes| - mid <= NEIGHBOURS || t.ts <= around)
    ensures var mid' := Middle(fixes, Some(t), around);
            && Floor(fixes, Some(t)) == n + 1 == WindowFrom(n + 1, mid')
            && WindowTo(mid', |fixes|) == WindowTo(Middle(fixes, last, around), |fixes|)
  {
    LaterThan(fixes, n);
    assert Floor(fixes, Some(t)) == n + 1;
    hide Ordered;
    if t.ts <= around {
      AtOrBeforeLater(fixes, n, around);
    }
  }

  // The window of a second evaluation, past a reading that the first window held at index i.
  lemma SecondWindow(fixes: seq<Reading>, log: seq<Transition>, around: int, i: nat, t: Transition)
    requires Ordered(fixes) && (ReadsToTheEnd(fixes, log, around) || t.ts <= around)
    requires i < |Window(fixes, Latest(log), around)| && t.ts == Window(fixes, Latest(log), around)[i].ts
    ensures Window(fixes, Some(t), around) == Window(fixes, Latest(log), around)[i + 1..]
  {
    var last := Latest(log);
    hide Latest, Ordered, Floor, Middle;
    var mid := Middle(fixes, last, around);
    var from := WindowFrom(Floor(fixes, last), mid);
    var to := WindowTo(mid, |fixes|);
    assert fixes[from..to][i] == fixes[from + i];
    SecondBounds(fixes, last, around, from + i, t);
    hide WindowFrom, WindowTo;
    assert fixes[from..to][i + 1..] == fixes[from + i + 1..to];
  }

  lemma AtOrBeforeLater(fixes: seq<Reading>, k: nat, around: int)
    requires Ordered(fixes) && k < |fixes| && fixes[k].ts <= around
    ensures Later(fixes, around) > k
  {
  }

  lemma NothingLeft(fixes: seq<Reading>, log: seq<Transition>, around: int, debounce: int)
    requires Ordered(fixes) && Alternating(log, true)
    requires Derived(fixes, log, around, debounce) != []
    requires var out := Derived(fixes, log, around, debounce);
             ReadsToTheEnd(fixes, log, around) || out[|out| - 1].ts <= around
    ensures var out := Derived(fixes, log, around, debounce);
            var t := out[|out| - 1];
            Confirm(Window(fixes, Some(t), around), t.enter, true, debounce) == []
  {
    var last := Latest(log);
    var w := Window(fixes, last, around);
    var out := Derived(fixes, log, around, debounce);
    var k := |out| - 1;
    WindowPastFloor(fixes, last, around);
    var i := EmittedAt(w, 0, Inside(last), last.Some?, debounce, k);
    SecondWindow(fixes, log, around, i, out[k]);
    LaterThan(w, i);
    RestartsAnywhere(w, Inside(last), last.Some?, debounce, k);
    assert out[k + 1..] == [];
  }

  // What the second evaluation derives, when the first recorded something.
  lemma SecondDerives(fixes: seq<Reading>, log: seq<Transition>, around: int, debounce: int)
    requires Ordered(fixes) && Alternating(log, true) && Derived(fixes, log, around, debounce) != []
    ensures var out := Derived(fixes, log, around, debounce);
            var t := out[|out| - 1];
            var once := Evaluate(fixes, log, around, debounce);
            && once == log + out && Latest(once) == Some(t)
            && Evaluate(fixes, once, around, debounce) == once
                + Confirm(Window(fixes, Some(t), around), t.enter, true, debounce)
  {
    var out := Derived(fixes, log, around, debounce);
    EvaluationAppends(fixes, log, around, debounce);
    LatestIsLast(log + out, true);
    EvaluationAppends(fixes, log + out, around, debounce);
  }

  /** Re-running an evaluation appends nothing when it had read to the newest fix, or recorded nothing later
      than the triggering fix. */
  lemma ReevaluationIsSilent(fixes: seq<Reading>, log: seq<Transition>, around: int, debounce: int)
    requires Ordered(fixes) && Alternating(log, true)
    requires var last := Latest(Evaluate(fixes, log, around, debounce));
             ReadsToTheEnd(fixes, log, around) || (last.Some? && last.value.ts <= around)
    ensures var once := Evaluate(fixes, log, around, debounce);
            Evaluate(fixes, once, around, debounce) == once
  {
    var out := Derived(fixes, log, around, debounce);
    var once := log + out;
    EvaluationAppends(fixes, log, around, debounce);
    if out == [] {
      assert once == log;
    } else {
      SecondDerives(fixes, log, around, debounce);
      NothingLeft(fixes, log, around, debounce);
      assert once + [] == once;
    }
  }

  // No run on the other side lasts the debounce.
  ghost predicate NoOtherDwell(rs: seq<Reading>, side: bool, debounce: int) {
    forall k {:trigger DwellMet(rs, k, debounce)} :: 0 <= k < |rs| && rs[k].inside != side ==>
      !DwellMet(rs, k, debounce)
  }

  lemma {:induction false} QuietExactly(rs: seq<Reading>, i: nat, state: bool, debounce: int)
    requires i <= |rs|
    ensures ConfirmFrom(rs, i, state, true, debounce) == []
            <==> forall k {:trigger DwellMet(rs, k, debounce)} :: i <= k < |rs| && rs[k].inside != state ==>
                   !DwellMet(rs, k, debounce)
    decreases |rs| - i
  {
    hide DwellMet;
    if i < |rs| && !Confirmed(rs, i, state, true, debounce) {
      QuietExactly(rs, i + 1, state, debounce);
    }
  }

  /** Exactly when re-evaluating is silent: the first pass recorded nothing, or none of the fixes around its
      last event lie on the other side of it long enough. */
  lemma SilentExactly(fixes: seq<Reading>, log: seq<Transition>, around: int, debounce: int)
    requires Ordered(fixes) && Alternating(log, true)
    ensures var once := Evaluate(fixes, log, around, debounce);
            var last := Latest(once);
            Evaluate(fixes, once, around, debounce) == once
            <==> once == log || NoOtherDwell(Window(fixes, last, around), Inside(last), debounce)
  {
    hide Evaluate, Derived, Window, Latest, Confirm, Alternating, Ordered, NoOtherDwell, InsertAll;
    var out := Derived(fixes, log, around, debounce);
    EvaluationAppends(fixes, log, around, debounce);
    SameTail(log, out, []);
    if out == [] {
      assert log + out == log;
    } else {
      SecondDerives(fixes, log, around, debounce);
      SilentAfter(fixes, log + out, around, debounce, out[|out| - 1]);
    }
  }

  // A second evaluation, past an event, against the readings it reads.
  lemma SilentAfter(fixes: seq<Reading>, once: seq<Transition>, around: int, debounce: int, t: Transition)
    requires Ordered(fixes)
    ensures once + Confirm(Window(fixes, Some(t), around), t.enter, true, debounce) == once
            <==> NoOtherDwell(Window(fixes, Some(t), around), t.enter, debounce)
  {
    hide Window, DwellMet;
    var w := Window(fixes, Some(t), around);
    QuietExactly(w, 0, t.enter, debounce);
    SameTail(once, Confirm(w, t.enter, true, debounce), []);
  }

  // 0 outside, 1..127 inside, 128 and 129 outside, 100 seconds apart.
  function LateFixHistory(): (fixes: seq<Reading>)
    ensures |fixes| == NEIGHBOURS + 2
    ensures forall k :: 0 <= k < |fixes| ==> fixes[k] == Reading(100 * k, 0 < k < NEIGHBOURS)
    ensures Ordered(fixes)
  {
    seq(NEIGHBOURS + 2, k => Reading(100 * k, 0 < k < NEIGHBOURS))
  }

  lemma LaterInHistory(k: nat)
    requires k < NEIGHBOURS
    ensures Later(LateFixHistory(), 100 * k) == k + 1
  {
    LaterThan(LateFixHistory(), k);
  }

  lemma FirstEvaluation()
    ensures Evaluate(LateFixHistory(), [], 0, 90) == [Transition(100, true)]
  {
    var fixes := LateFixHistory();
    var w := fixes[0..NEIGHBOURS + 1];
    LaterInHistory(0);
    assert Window(fixes, None, 0) == w;
    assert Unbroken(w, 1, 2);
    assert Confirm(w, false, false, 90) == ConfirmFrom(w, 1, false, true, 90);
    assert ConfirmFrom(w, 1, false, true, 90) == [Crossing(w[1])] + ConfirmFrom(w, 2, true, true, 90);
    SkipRun(w, 2, NEIGHBOURS, true, 90);
    PendingEmitsNothing(w, NEIGHBOURS, true, true, 90, 100 * NEIGHBOURS);
    EvaluationAppends(fixes, [], 0, 90);
  }

  lemma SecondEvaluation()
    ensures Evaluate(LateFixHistory(), [Transition(100, true)], 0, 90)
        == [Transition(100, true), Transition(100 * NEIGHBOURS, false)]
  {
    var fixes := LateFixHistory();
    var log := [Transition(100, true)];
    var w := fixes[2..];
    var n := NEIGHBOURS - 2;
    LaterInHistory(0);
    LaterInHistory(1);
    assert Latest(log) == Some(log[0]);
    assert Window(fixes, Some(log[0]), 0) == w;
    SkipRun(w, 0, n, true, 90);
    assert Unbroken(w, n, n + 1);
    assert ConfirmFrom(w, n, true, true, 90) == [Crossing(w[n])] + ConfirmFrom(w, n + 1, false, true, 90);
    SkipRun(w, n + 1, n + 2, false, 90);
    EvaluationAppends(fixes, log, 0, 90);
  }

  // The 129 later fixes in order, and then the late one.
  function LateArrivals(): (arrivals: seq<Reading>)
  {
    LateFixHistory()[1..] + [LateFixHistory()[0]]
  }

  lemma NothingYet()
    ensures Batch(LateFixHistory()[1..], 90) == []
  {
    var later := LateFixHistory()[1..];
    NeverWitnessed(later, 0, NEIGHBOURS - 1, 90);
    SkipRun(later, NEIGHBOURS, NEIGHBOURS + 1, false, 90);
  }

  lemma LateFixStored()
    ensures var fixes := LateFixHistory();
            && Ordered(fixes[1..]) && !Stored(fixes[1..], 0) && fixes[0] == Reading(0, false)
            && Store(fixes[1..], fixes[0]) == fixes
  {
    var fixes := LateFixHistory();
    hide LateFixHistory;
    assert fixes[1..][0] == fixes[1] && fixes[1].ts > 0;
    assert Later(fixes[1..], 0) == 0;
    assert [] + [fixes[0]] + fixes[1..] == fixes;
  }

  lemma LateFixArrives()
    ensures AfterArrivals(LateArrivals(), 90) == Device(LateFixHistory(), [Transition(100, true)])
  {
    var fixes := LateFixHistory();
    var arrivals := LateArrivals();
    assert arrivals[..|arrivals| - 1] == fixes[1..] && arrivals[|arrivals| - 1] == fixes[0];
    LateFixStored();
    NothingYet();
    hide Evaluate, AfterArrivals, Batch, LateFixHistory, LateArrivals, Stored, Store;
    ServerWindowSuffices(fixes[1..]);
    FirstEvaluation();
    Arrival(arrivals, 90);
  }

  /** A late fix whose neighbourhood stops short: once it has arrived, after 129 later ones in order, the same
      evaluation run again appends a crossing. */
  lemma ReevaluationCanAppend()
    ensures var d := AfterArrivals(LateArrivals(), 90);
            && !ReadsToTheEnd(d.fixes, [], 0) && d.log == [Transition(100, true)]
            && Evaluate(d.fixes, d.log, 0, 90) == d.log + [Transition(100 * NEIGHBOURS, false)]
  {
    HistoryIsCut();
    hide *;
    LateFixArrives();
    SecondEvaluation();
  }

  lemma HistoryIsCut()
    ensures Ordered(LateFixHistory()) && !ReadsToTheEnd(LateFixHistory(), [], 0)
  {
    LaterInHistory(0);
  }
}
