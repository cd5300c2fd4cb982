/**
The debounced enter/exit state machine over one Place's readings.

`ConfirmTransitions` is the look-ahead scan of the evaluator.  `Confirm` is the function it
computes; the lemmas say what that function means: which readings become transitions
(`EmitsExactly`), that a longer history only ever appends (`NeverRetracts`), that a scan may be
restarted from any transition it emitted (`RestartsAnywhere`), how the transitions are spaced
(`Spaced`), and that the quadratic look-ahead is a one-pass machine (`LookAheadIsOnePass`).
*/
module DwellMachine {

  // One fix's containment for one Place.  `ts` is the device's clock, an integer instant.
  datatype Reading = Reading(ts: int, inside: bool)

  datatype Transition = Transition(ts: int, enter: bool)

  ghost predicate Ordered(rs: seq<Reading>) {
    forall i, j :: 0 <= i < j < |rs| ==> rs[i].ts < rs[j].ts
  }

  // rs[i..j] and rs[j] all lie on one side of the boundary.
  ghost predicate Unbroken(rs: seq<Reading>, i: int, j: int) {
    && 0 <= i <= j < |rs|
    && forall k :: i <= k <= j ==> rs[k].inside == rs[i].inside
  }

  // The side seen at i persists, unbroken, to a reading at or past rs[i].ts + debounce.
  ghost predicate DwellMet(rs: seq<Reading>, i: int, debounce: int) {
    && 0 <= i < |rs|
    && exists j {:trigger Unbroken(rs, i, j)} :: Unbroken(rs, i, j) && rs[j].ts >= rs[i].ts + debounce
  }

  function Crossing(r: Reading): Transition {
    Transition(r.ts, r.inside)
  }

  // The candidate at i is confirmed: it opposes the state, whose own side has been observed, and it dwells.
  ghost predicate Confirmed(rs: seq<Reading>, i: nat, state: bool, observed: bool, debounce: int)
    requires i < |rs|
  {
    rs[i].inside != state && observed && DwellMet(rs, i, debounce)
  }

  ghost function ConfirmFrom(rs: seq<Reading>, i: nat, state: bool, observed: bool, debounce: int)
    : (out: seq<Transition>)
    requires i <= |rs|
    decreases |rs| - i
  {
    if i == |rs| then []
    else
      var emit := Confirmed(rs, i, state, observed, debounce);
      var rest := ConfirmFrom(rs, i + 1, if emit then rs[i].inside else state,
                              observed || rs[i].inside == state, debounce);
      if emit then [Crossing(rs[i])] + rest else rest
  }

  ghost function Confirm(rs: seq<Reading>, seed: bool, evidence: bool, debounce: int): seq<Transition> {
    ConfirmFrom(rs, 0, seed, evidence, debounce)
  }

  /** The scan as the evaluator runs it: for every candidate onset, look ahead along its run. */
  method ConfirmTransitions(readings: seq<Reading>, seedInside: bool, haveSeedEvidence: bool, debounce: int)
    returns (out: seq<Transition>)
    ensures out == Confirm(readings, seedInside, haveSeedEvidence, debounce)
  {
    var state := seedInside;
    var observed := haveSeedEvidence;
    out := [];
    ghost var all := Confirm(readings, seedInside, haveSeedEvidence, debounce);
    for i := 0 to |readings|
      invariant out + ConfirmFrom(readings, i, state, observed, debounce) == all
    {
      if readings[i].inside == state {
        observed := true;
        continue;
      }
      if !observed {
        continue;
      }
      var newState := readings[i].inside;
      var onset := readings[i].ts;
      var confirmed := false;
      var j := i;
      while j < |readings| && readings[j].inside == newState
        invariant i <= j <= |readings|
        invariant forall k :: i <= k < j ==> readings[k].inside == newState && readings[k].ts < onset + debounce
      {
        if readings[j].ts >= onset + debounce {
          assert Unbroken(readings, i, j);
          confirmed := true;
          break;
        }
        j := j + 1;
      }
      assert confirmed <==> DwellMet(readings, i, debounce);
      if confirmed {
        out := out + [Transition(onset, newState)];
        state := newState;
        observed := true;
        continue;
      }
    }
  }

  // ---- a history that grows only ever appends ---------------------------------------------------

  // A run whose dwell has not been met by the end of the history emits nothing.
  lemma {:induction false} PendingEmitsNothing(rs: seq<Reading>, i: nat, state: bool, observed: bool, debounce: int,
      onset: int)
    requires i <= |rs| && Ordered(rs)
    requires forall k :: i <= k < |rs| ==> rs[k].inside != state && onset <= rs[k].ts < onset + debounce
    ensures ConfirmFrom(rs, i, state, observed, debounce) == []
    decreases |rs| - i
  {
    if i < |rs| {
      PendingEmitsNothing(rs, i + 1, state, observed, debounce, onset);
    }
  }

  lemma DwellInPrefix(rs: seq<Reading>, n: nat, i: nat, debounce: int)
    requires i < n <= |rs| && DwellMet(rs[..n], i, debounce)
    ensures DwellMet(rs, i, debounce)
  {
    var p := rs[..n];
    var j :| Unbroken(p, i, j) && p[j].ts >= p[i].ts + debounce;
    forall k | i <= k <= j ensures rs[k].inside == rs[i].inside { assert p[k].inside == p[i].inside; }
    assert Unbroken(rs, i, j);
  }

  // The dwell met only beyond n: the prefix ends inside the run, before onset + debounce.
  lemma DwellBeyondPrefix(rs: seq<Reading>, n: nat, i: nat, debounce: int)
    requires i < n <= |rs| && Ordered(rs)
    requires DwellMet(rs, i, debounce) && !DwellMet(rs[..n], i, debounce)
    ensures forall k :: i <= k < n ==> rs[k].inside == rs[i].inside && rs[i].ts <= rs[k].ts < rs[i].ts + debounce
  {
    var p := rs[..n];
    var j :| Unbroken(rs, i, j) && rs[j].ts >= rs[i].ts + debounce;
    if j < n {
      forall k | i <= k <= j ensures p[k].inside == p[i].inside { assert rs[k].inside == rs[i].inside; }
      assert Unbroken(p, i, j);
    }
    forall k | i <= k < n ensures rs[k].ts < rs[i].ts + debounce {
      forall m | i <= m <= k ensures p[m].inside == p[i].inside { assert rs[m].inside == rs[i].inside; }
      assert Unbroken(p, i, k);
    }
  }

  lemma {:induction false} PrefixFrom(rs: seq<Reading>, n: nat, i: nat, state: bool, observed: bool, debounce: int)
    requires i <= n <= |rs| && Ordered(rs)
    ensures ConfirmFrom(rs[..n], i, state, observed, debounce) <= ConfirmFrom(rs, i, state, observed, debounce)
    decreases n - i
  {
    var p := rs[..n];
    if i < n {
      assert p[i] == rs[i];
      if rs[i].inside == state {
        PrefixFrom(rs, n, i + 1, state, true, debounce);
      } else if !observed {
        PrefixFrom(rs, n, i + 1, state, false, debounce);
      } else if DwellMet(p, i, debounce) {
        DwellInPrefix(rs, n, i, debounce);
        PrefixFrom(rs, n, i + 1, rs[i].inside, true, debounce);
      } else if DwellMet(rs, i, debounce) {
        DwellBeyondPrefix(rs, n, i, debounce);
        PendingEmitsNothing(p, i, state, observed, debounce, p[i].ts);
      } else {
        PrefixFrom(rs, n, i + 1, state, true, debounce);
      }
    }
  }

  /** Never fabricates, never retracts: more readings later in time only append transitions. */
  lemma NeverRetracts(rs: seq<Reading>, n: nat, seed: bool, evidence: bool, debounce: int)
    requires n <= |rs| && Ordered(rs)
    ensures Confirm(rs[..n], seed, evidence, debounce) <= Confirm(rs, seed, evidence, debounce)
  {
    PrefixFrom(rs, n, 0, seed, evidence, debounce);
  }

  // ---- restarting from an emitted transition ----------------------------------------------------

  lemma DwellShifts(rs: seq<Reading>, m: nat, i: nat, debounce: int)
    requires m <= i < |rs|
    ensures DwellMet(rs, i, debounce) <==> DwellMet(rs[m..], i - m, debounce)
  {
    var s := rs[m..];
    if DwellMet(rs, i, debounce) {
      var j :| Unbroken(rs, i, j) && rs[j].ts >= rs[i].ts + debounce;
      assert Unbroken(s, i - m, j - m);
    }
    if DwellMet(s, i - m, debounce) {
      var j :| Unbroken(s, i - m, j) && s[j].ts >= s[i - m].ts + debounce;
      forall k | i <= k <= j + m ensures rs[k].inside == rs[i].inside { assert rs[k] == s[k - m]; }
      assert Unbroken(rs, i, j + m);
    }
  }

  lemma {:induction false} Shift(rs: seq<Reading>, m: nat, i: nat, state: bool, observed: bool, debounce: int)
    requires m <= i <= |rs|
    ensures ConfirmFrom(rs, i, state, observed, debounce) == ConfirmFrom(rs[m..], i - m, state, observed, debounce)
    decreases |rs| - i
  {
    if i < |rs| {
      DwellShifts(rs, m, i, debounce);
      assert rs[m..][i - m] == rs[i];
      if rs[i].inside == state {
        Shift(rs, m, i + 1, state, true, debounce);
      } else if observed && DwellMet(rs, i, debounce) {
        Shift(rs, m, i + 1, rs[i].inside, true, debounce);
      } else {
        Shift(rs, m, i + 1, state, observed, debounce);
      }
    }
  }

  lemma {:induction false} EmittedAt(rs: seq<Reading>, i: nat, state: bool, observed: bool, debounce: int, k: nat)
    returns (m: nat)
    requires i <= |rs| && k < |ConfirmFrom(rs, i, state, observed, debounce)|
    ensures i <= m < |rs|
    ensures ConfirmFrom(rs, i, state, observed, debounce)[k] == Crossing(rs[m])
    ensures ConfirmFrom(rs, i, state, observed, debounce)[k + 1..]
         == ConfirmFrom(rs, m + 1, rs[m].inside, true, debounce)
    decreases |rs| - i
  {
    var out := ConfirmFrom(rs, i, state, observed, debounce);
    if rs[i].inside == state {
      m := EmittedAt(rs, i + 1, state, true, debounce, k);
    } else if observed && DwellMet(rs, i, debounce) {
      var rest := ConfirmFrom(rs, i + 1, rs[i].inside, true, debounce);
      assert out == [Crossing(rs[i])] + rest;
      if k == 0 {
        m := i;
      } else {
        m := EmittedAt(rs, i + 1, rs[i].inside, true, debounce, k - 1);
        assert out[k + 1..] == rest[k..];
      }
    } else {
      m := EmittedAt(rs, i + 1, state, observed, debounce, k);
    }
  }

  // The number of readings among the first n that are at or before `floor`.
  function AtOrBefore(rs: seq<Reading>, n: nat, floor: int): (m: nat)
    requires Ordered(rs) && n <= |rs|
    ensures m <= n
    ensures forall k :: 0 <= k < m ==> rs[k].ts <= floor
    ensures forall k :: m <= k < n ==> rs[k].ts > floor
  {
    if n == 0 || rs[n - 1].ts <= floor then n else AtOrBefore(rs, n - 1, floor)
  }

  // The index of the first reading strictly later than `floor`.
  function Later(rs: seq<Reading>, floor: int): (m: nat)
    requires Ordered(rs)
    ensures m <= |rs|
    ensures forall k :: 0 <= k < m ==> rs[k].ts <= floor
    ensures forall k :: m <= k < |rs| ==> rs[k].ts > floor
  {
    AtOrBefore(rs, |rs|, floor)
  }

  lemma LaterThan(rs: seq<Reading>, i: nat)
    requires Ordered(rs) && i < |rs|
    ensures Later(rs, rs[i].ts) == i + 1
  {
    assert i + 1 < |rs| ==> rs[i].ts < rs[i + 1].ts;
  }

  /** Seeded by any transition it emitted, over only the later readings, the scan yields exactly the rest. */
  lemma RestartsAnywhere(rs: seq<Reading>, seed: bool, evidence: bool, debounce: int, k: nat)
    requires Ordered(rs)
    requires k < |Confirm(rs, seed, evidence, debounce)|
    ensures var out := Confirm(rs, seed, evidence, debounce);
            Confirm(rs[Later(rs, out[k].ts)..], out[k].enter, true, debounce) == out[k + 1..]
  {
    var out := Confirm(rs, seed, evidence, debounce);
    var m := EmittedAt(rs, 0, seed, evidence, debounce, k);
    LaterThan(rs, m);
    Shift(rs, m + 1, m + 1, out[k].enter, true, debounce);
  }

  // ---- what is emitted, said without running the scan -------------------------------------------

  ghost predicate RunStart(rs: seq<Reading>, i: int) {
    && 0 <= i < |rs|
    && (i == 0 || rs[i - 1].inside != rs[i].inside)
  }

  // The state crossed from has been seen: recorded before, or by a reading ahead of i.
  ghost predicate Witnessed(rs: seq<Reading>, seed: bool, evidence: bool, i: int) {
    evidence || exists k :: 0 <= k < i <= |rs| && rs[k].inside == seed
  }

  // A maximal run that lasts the debounce.
  ghost predicate Settles(rs: seq<Reading>, debounce: int, i: int) {
    RunStart(rs, i) && DwellMet(rs, i, debounce)
  }

  // The side of the last settled run begun before i once the from-state was witnessed; else the seed.
  ghost function StateAt(rs: seq<Reading>, seed: bool, evidence: bool, debounce: int, i: nat): bool
    requires i <= |rs|
  {
    if i == 0 then seed
    else if Settles(rs, debounce, i - 1) && Witnessed(rs, seed, evidence, i - 1) then rs[i - 1].inside
    else StateAt(rs, seed, evidence, debounce, i - 1)
  }

  ghost predicate Emits(rs: seq<Reading>, seed: bool, evidence: bool, debounce: int, i: int) {
    && Settles(rs, debounce, i)
    && Witnessed(rs, seed, evidence, i)
    && rs[i].inside != StateAt(rs, seed, evidence, debounce, i)
  }

  lemma {:induction false} UnwitnessedStateIsSeed(rs: seq<Reading>, seed: bool, evidence: bool, debounce: int, i: nat)
    requires i <= |rs| && !Witnessed(rs, seed, evidence, i)
    ensures StateAt(rs, seed, evidence, debounce, i) == seed
    decreases i
  {
    if i > 0 {
      assert !Witnessed(rs, seed, evidence, i - 1);
      UnwitnessedStateIsSeed(rs, seed, evidence, debounce, i - 1);
    }
  }

  // Inside a run that opposes the state, only its first reading can still meet the dwell.
  lemma {:induction false} MidRunNeverSettles(rs: seq<Reading>, seed: bool, evidence: bool, debounce: int, i: nat)
    requires Ordered(rs) && i < |rs| && !RunStart(rs, i)
    requires Witnessed(rs, seed, evidence, i)
    requires rs[i].inside != StateAt(rs, seed, evidence, debounce, i)
    ensures !DwellMet(rs, i, debounce)
    decreases i
  {
    assert Witnessed(rs, seed, evidence, i - 1) by {
      if !Witnessed(rs, seed, evidence, i - 1) {
        UnwitnessedStateIsSeed(rs, seed, evidence, debounce, i - 1);
      }
    }
    if !RunStart(rs, i - 1) {
      MidRunNeverSettles(rs, seed, evidence, debounce, i - 1);
    }
    if DwellMet(rs, i, debounce) {
      var j :| Unbroken(rs, i, j) && rs[j].ts >= rs[i].ts + debounce;
      assert Unbroken(rs, i - 1, j);
    }
  }

  // How the scan's two variables move over reading i.
  lemma StateStep(rs: seq<Reading>, seed: bool, evidence: bool, debounce: int, i: nat)
    requires Ordered(rs) && i < |rs|
    ensures var state := StateAt(rs, seed, evidence, debounce, i);
            var observed := Witnessed(rs, seed, evidence, i);
            var emits := rs[i].inside != state && observed && DwellMet(rs, i, debounce);
            && (emits <==> Emits(rs, seed, evidence, debounce, i))
            && StateAt(rs, seed, evidence, debounce, i + 1) == (if emits then rs[i].inside else state)
            && Witnessed(rs, seed, evidence, i + 1) == (observed || rs[i].inside == state)
  {
    var state := StateAt(rs, seed, evidence, debounce, i);
    if Witnessed(rs, seed, evidence, i) {
      assert Witnessed(rs, seed, evidence, i + 1);
      if rs[i].inside != state && !RunStart(rs, i) {
        MidRunNeverSettles(rs, seed, evidence, debounce, i);
      }
    } else {
      UnwitnessedStateIsSeed(rs, seed, evidence, debounce, i);
    }
  }

  lemma {:induction false} EmitsExactlyFrom(rs: seq<Reading>, seed: bool, evidence: bool, debounce: int, i: nat,
      t: Transition)
    requires Ordered(rs) && i <= |rs|
    ensures t in ConfirmFrom(rs, i, StateAt(rs, seed, evidence, debounce, i),
                             Witnessed(rs, seed, evidence, i), debounce)
            <==> exists k {:trigger Emits(rs, seed, evidence, debounce, k)} ::
                   i <= k < |rs| && Emits(rs, seed, evidence, debounce, k) && t == Crossing(rs[k])
    decreases |rs| - i
  {
    if i < |rs| {
      StateStep(rs, seed, evidence, debounce, i);
      EmitsExactlyFrom(rs, seed, evidence, debounce, i + 1, t);
    }
  }

  /** The exact dwell characterisation: the emitted transitions are the first readings of the maximal
      runs that settle, oppose the state, and whose from-state has been witnessed; no others. */
  lemma EmitsExactly(rs: seq<Reading>, seed: bool, evidence: bool, debounce: int, t: Transition)
    requires Ordered(rs)
    ensures t in Confirm(rs, seed, evidence, debounce)
            <==> exists k {:trigger Emits(rs, seed, evidence, debounce, k)} ::
                   0 <= k < |rs| && Emits(rs, seed, evidence, debounce, k) && t == Crossing(rs[k])
  {
    EmitsExactlyFrom(rs, seed, evidence, debounce, 0, t);
  }

  // ---- spacing and alternation ------------------------------------------------------------------

  // Strictly later, and opposite in direction, one after the other.
  ghost predicate Alternating(out: seq<Transition>, first: bool) {
    && (out != [] ==> out[0].enter == first)
    && (forall a, b :: 0 <= a < b < |out| ==> out[a].ts < out[b].ts && (b == a + 1 ==> out[a].enter != out[b].enter))
  }

  // Readings on the other side emit nothing while the state's own side has not been witnessed.
  lemma {:induction false} NeverWitnessed(rs: seq<Reading>, i: nat, j: nat, debounce: int)
    requires i <= j <= |rs| && forall k :: i <= k < j ==> rs[k].inside
    ensures ConfirmFrom(rs, i, false, false, debounce) == ConfirmFrom(rs, j, false, false, debounce)
    decreases j - i
  {
    if i < j {
      NeverWitnessed(rs, i + 1, j, debounce);
    }
  }

  lemma {:induction false} SkipRun(rs: seq<Reading>, i: nat, j: nat, state: bool, debounce: int)
    requires i <= j <= |rs|
    requires forall k :: i <= k < j ==> rs[k].inside == state
    ensures ConfirmFrom(rs, i, state, true, debounce) == ConfirmFrom(rs, j, state, true, debounce)
    decreases j - i
  {
    if i < j {
      SkipRun(rs, i + 1, j, state, debounce);
    }
  }

  ghost predicate Apart(out: seq<Transition>, debounce: int) {
    forall a, b :: 0 <= a < b < |out| ==> out[b].ts > out[a].ts + debounce
  }

  ghost predicate NotBefore(out: seq<Transition>, ts: int) {
    forall k :: 0 <= k < |out| ==> out[k].ts >= ts
  }

  // A first transition put ahead of later ones that go the other way.
  lemma AlternatingCons(t: Transition, rest: seq<Transition>)
    requires Alternating(rest, !t.enter) && NotBefore(rest, t.ts + 1)
    ensures Alternating([t] + rest, t.enter)
  {
  }

  lemma {:induction false} SpacedFrom(rs: seq<Reading>, i: nat, state: bool, observed: bool, debounce: int)
    requires Ordered(rs) && i <= |rs|
    ensures var out := ConfirmFrom(rs, i, state, observed, debounce);
            && Alternating(out, !state)
            && (out != [] ==> i < |rs| && NotBefore(out, rs[i].ts))
            && Apart(out, debounce)
    decreases |rs| - i
  {
    if i < |rs| {
      if rs[i].inside != state && observed && DwellMet(rs, i, debounce) {
        var j := FirstPast(rs, i, debounce);
        SkipRun(rs, i + 1, j + 1, rs[i].inside, debounce);
        SpacedFrom(rs, j + 1, rs[i].inside, true, debounce);
        var rest := ConfirmFrom(rs, j + 1, rs[i].inside, true, debounce);
        assert ConfirmFrom(rs, i, state, observed, debounce) == [Crossing(rs[i])] + rest;
        AlternatingCons(Crossing(rs[i]), rest);
      } else {
        SpacedFrom(rs, i + 1, state, observed || rs[i].inside == state, debounce);
      }
    }
  }

  /** Onsets of one call alternate, starting away from the seed, and lie more than the debounce apart. */
  lemma Spaced(rs: seq<Reading>, seed: bool, evidence: bool, debounce: int)
    requires Ordered(rs)
    ensures var out := Confirm(rs, seed, evidence, debounce);
            Alternating(out, !seed) && Apart(out, debounce)
  {
    SpacedFrom(rs, 0, seed, evidence, debounce);
  }

  // ---- the one-pass machine ---------------------------------------------------------------------

  // `onset` is the first reading of the opposing run now being timed, if one is.
  datatype Onset = Idle | Timing(since: int)

  function OnePass(rs: seq<Reading>, state: bool, observed: bool, onset: Onset, debounce: int): seq<Transition> {
    if rs == [] then []
    else
      var r := rs[0];
      if r.inside == state then OnePass(rs[1..], state, true, Idle, debounce)
      else if !observed then OnePass(rs[1..], state, false, Idle, debounce)
      else
        var since := if onset.Timing? then onset.since else r.ts;
        if r.ts >= since + debounce then
          [Transition(since, r.inside)] + OnePass(rs[1..], r.inside, true, Idle, debounce)
        else OnePass(rs[1..], state, true, Timing(since), debounce)
  }

  // A run that will not settle may be timed from any of its readings: it emits nothing either way.
  lemma {:induction false} DoomedRun(rs: seq<Reading>, i: nat, state: bool, since: int, debounce: int)
    requires Ordered(rs) && i <= |rs|
    requires forall k :: i <= k < |rs| && Unbroken(rs, i, k) && rs[i].inside != state ==>
               since <= rs[k].ts < since + debounce
    ensures OnePass(rs[i..], state, true, Timing(since), debounce) == OnePass(rs[i..], state, true, Idle, debounce)
    decreases |rs| - i
  {
    if i < |rs| && rs[i].inside != state {
      assert Unbroken(rs, i, i);
      forall k | i + 1 <= k < |rs| && Unbroken(rs, i + 1, k) && rs[i + 1].inside != state
        ensures since <= rs[i].ts < rs[k].ts < since + debounce
      {
        assert Unbroken(rs, i, k);
      }
      assert rs[i..][1..] == rs[i + 1..];
      DoomedRun(rs, i + 1, state, since, debounce);
      DoomedRun(rs, i + 1, state, rs[i].ts, debounce);
    }
  }

  // From inside a run that reaches its dwell first at j, the machine emits there.
  lemma {:induction false} RunToDwell(rs: seq<Reading>, i: nat, j: nat, state: bool, since: int, debounce: int)
    requires Ordered(rs) && Unbroken(rs, i, j) && rs[i].inside != state
    requires rs[j].ts >= since + debounce
    requires forall k :: i <= k < j ==> rs[k].ts < since + debounce
    ensures OnePass(rs[i..], state, true, Timing(since), debounce)
            == [Transition(since, rs[i].inside)] + OnePass(rs[j + 1..], rs[i].inside, true, Idle, debounce)
    decreases j - i
  {
    assert rs[i..][1..] == rs[i + 1..];
    if i < j {
      RunToDwell(rs, i + 1, j, state, since, debounce);
    }
  }

  lemma {:induction false} OnePassSkips(rs: seq<Reading>, i: nat, j: nat, state: bool, debounce: int)
    requires i <= j <= |rs|
    requires forall k :: i <= k < j ==> rs[k].inside == state
    ensures OnePass(rs[i..], state, true, Idle, debounce) == OnePass(rs[j..], state, true, Idle, debounce)
    decreases j - i
  {
    if i < j {
      assert rs[i..][1..] == rs[i + 1..];
      OnePassSkips(rs, i + 1, j, state, debounce);
    }
  }

  lemma {:induction false} OnePassFrom(rs: seq<Reading>, i: nat, state: bool, observed: bool, debounce: int)
    requires Ordered(rs) && i <= |rs|
    ensures ConfirmFrom(rs, i, state, observed, debounce) == OnePass(rs[i..], state, observed, Idle, debounce)
    decreases |rs| - i
  {
    if i < |rs| {
      assert rs[i..][1..] == rs[i + 1..];
      if rs[i].inside == state || !observed {
        OnePassFrom(rs, i + 1, state, observed || rs[i].inside == state, debounce);
      } else if DwellMet(rs, i, debounce) {
        var j := FirstPast(rs, i, debounce);
        assert OnePass(rs[i..], state, true, Idle, debounce)
            == OnePass(rs[i..], state, true, Timing(rs[i].ts), debounce);
        RunToDwell(rs, i, j, state, rs[i].ts, debounce);
        OnePassSkips(rs, i + 1, j + 1, rs[i].inside, debounce);
        OnePassFrom(rs, i + 1, rs[i].inside, true, debounce);
      } else {
        assert Unbroken(rs, i, i);
        forall k | i + 1 <= k < |rs| && Unbroken(rs, i + 1, k) && rs[i + 1].inside != state
          ensures rs[i].ts <= rs[k].ts < rs[i].ts + debounce
        {
          assert Unbroken(rs, i, k);
        }
        DoomedRun(rs, i + 1, state, rs[i].ts, debounce);
        OnePassFrom(rs, i + 1, state, true, debounce);
      }
    }
  }

  lemma {:induction false} FirstPast(rs: seq<Reading>, i: nat, debounce: int) returns (j: nat)
    requires DwellMet(rs, i, debounce)
    ensures Unbroken(rs, i, j) && rs[j].ts >= rs[i].ts + debounce
    ensures forall k :: i <= k < j ==> rs[k].ts < rs[i].ts + debounce
  {
    var w :| Unbroken(rs, i, w) && rs[w].ts >= rs[i].ts + debounce;
    j := i;
    while rs[j].ts < rs[i].ts + debounce
      invariant i <= j <= w
      invariant forall k :: i <= k < j ==> rs[k].ts < rs[i].ts + debounce
      decreases w - j
    {
      j := j + 1;
    }
  }

  /** The quadratic look-ahead scan and the one-pass machine agree on every ordered history. */
  lemma LookAheadIsOnePass(rs: seq<Reading>, seed: bool, evidence: bool, debounce: int)
    requires Ordered(rs)
    ensures Confirm(rs, seed, evidence, debounce) == OnePass(rs, seed, evidence, Idle, debounce)
  {
    OnePassFrom(rs, 0, seed, evidence, debounce);
    assert rs[0..] == rs;
  }
}
