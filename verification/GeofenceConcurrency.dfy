/**
Evaluators of one (device, Place) running side by side over one event table.

A step is a fix arriving, an evaluation beginning, its read of the last event, its read of the fixes,
or one of its INSERTs.  An evaluator may stop after any step.  Fixes arrive in ts order.  A read may be
cut short by the neighbourhood bound: on the right anywhere, and on the left as long as what it leaves
out lies on the side that is recorded already (`SettledBefore`).
*/
module GeofenceConcurrency {
  import opened DwellMachine
  import opened GeofenceLog
  import opened Options

  datatype Phase = Begun | SeedRead(last: Option<Transition>) | Inserting(todo: seq<Transition>)

  // `appended` is what this evaluation returns to its caller.
  datatype Evaluator = Evaluator(around: int, phase: Phase, appended: seq<Transition>)

  datatype World = World(fixes: seq<Reading>, log: seq<Transition>, evals: seq<Evaluator>)

  datatype Step = Arrive(r: Reading) | Begin(around: int) | ReadSeed(e: nat) | ReadFixes(e: nat) | InsertOne(e: nat)

  const EMPTY := World([], [], [])

  predicate Newest(fixes: seq<Reading>, r: Reading) {
    forall k :: 0 <= k < |fixes| ==> fixes[k].ts < r.ts
  }

  // Where a read begins and ends.
  function ReadFrom(fixes: seq<Reading>, last: Option<Transition>, around: int): (from: nat)
    requires Ordered(fixes)
    ensures Floor(fixes, last) <= from <= Middle(fixes, last, around)
  {
    WindowFrom(Floor(fixes, last), Middle(fixes, last, around))
  }

  function ReadTo(fixes: seq<Reading>, last: Option<Transition>, around: int): (to: nat)
    requires Ordered(fixes)
    ensures Middle(fixes, last, around) <= to <= |fixes|
  {
    WindowTo(Middle(fixes, last, around), |fixes|)
  }

  // The fixes lo..from can be left out of a scan: they lie on the recorded side; or, with nothing recorded,
  // all inside, or all outside like the first one read.
  ghost predicate Skippable(fixes: seq<Reading>, last: Option<Transition>, lo: nat, from: nat)
    requires lo <= from <= |fixes|
  {
    if last.Some? then forall k :: lo <= k < from ==> fixes[k].inside == last.value.enter
    else
      || (forall k :: lo <= k < from ==> fixes[k].inside)
      || (forall k :: lo <= k <= from && k < |fixes| ==> !fixes[k].inside)
  }

  // What the neighbourhood bound cuts off on the left does not matter.
  ghost predicate SettledBefore(fixes: seq<Reading>, last: Option<Transition>, around: int)
    requires Ordered(fixes)
  {
    Skippable(fixes, last, Floor(fixes, last), ReadFrom(fixes, last, around))
  }

  ghost predicate Enabled(w: World, s: Step) {
    match s
    case Arrive(r) => Newest(w.fixes, r)
    case Begin(_) => true
    case ReadSeed(e) => e < |w.evals| && w.evals[e].phase.Begun?
    case ReadFixes(e) =>
      && e < |w.evals| && w.evals[e].phase.SeedRead? && Ordered(w.fixes)
      && SettledBefore(w.fixes, w.evals[e].phase.last, w.evals[e].around)
    case InsertOne(e) => e < |w.evals| && w.evals[e].phase.Inserting? && w.evals[e].phase.todo != []
  }

  ghost function Next(w: World, s: Step, debounce: int): World
    requires Enabled(w, s)
  {
    match s
    case Arrive(r) => w.(fixes := w.fixes + [r])
    case Begin(around) => w.(evals := w.evals + [Evaluator(around, Begun, [])])
    case ReadSeed(e) => w.(evals := w.evals[e := w.evals[e].(phase := SeedRead(Latest(w.log)))])
    case ReadFixes(e) =>
      var ev := w.evals[e];
      var last := ev.phase.last;
      var out := Confirm(Window(w.fixes, last, ev.around), Inside(last), last.Some?, debounce);
      w.(evals := w.evals[e := ev.(phase := Inserting(out))])
    case InsertOne(e) =>
      var ev := w.evals[e];
      var t := ev.phase.todo[0];
      var wrote := !HasRow(w.log, t.ts);
      World(w.fixes, Insert(w.log, t),
            w.evals[e := Evaluator(ev.around, Inserting(ev.phase.todo[1..]),
                                   if wrote then ev.appended + [t] else ev.appended)])
  }

  ghost predicate Runs(w: World, steps: seq<Step>, debounce: int)
    decreases |steps|
  {
    steps == [] || (Enabled(w, steps[0]) && Runs(Next(w, steps[0], debounce), steps[1..], debounce))
  }

  ghost function After(w: World, steps: seq<Step>, debounce: int): World
    requires Runs(w, steps, debounce)
    decreases |steps|
  {
    if steps == [] then w else After(Next(w, steps[0], debounce), steps[1..], debounce)
  }

  // The last of the first k events of the projection.
  ghost predicate SeenAt(last: Option<Transition>, batch: seq<Transition>, k: nat) {
    k <= |batch| && last == if k == 0 then None else Some(batch[k - 1])
  }

  ghost predicate Stretch(todo: seq<Transition>, batch: seq<Transition>, k: nat, m: nat) {
    k <= m <= |batch| && todo == batch[k..m]
  }

  // What an evaluator holds is a stretch of the projection that starts no later than the log ends.
  ghost predicate EvaluatorOk(p: Phase, log: seq<Transition>, batch: seq<Transition>) {
    match p
    case Begun => true
    case SeedRead(last) => exists k: nat {:trigger SeenAt(last, batch, k)} :: k <= |log| && SeenAt(last, batch, k)
    case Inserting(todo) =>
      exists k: nat, m: nat {:trigger Stretch(todo, batch, k, m)} :: k <= |log| && Stretch(todo, batch, k, m)
  }

  ghost predicate Returned(evals: seq<Evaluator>, e: int, t: Transition) {
    0 <= e < |evals| && t in evals[e].appended
  }

  // Every row of the log was returned as new by exactly one evaluator, once; nothing else was returned.
  ghost predicate ReturnedOnce(log: seq<Transition>, evals: seq<Evaluator>) {
    && (forall t :: t in log ==> exists e :: Returned(evals, e, t))
    && (forall e, t :: Returned(evals, e, t) ==> t in log)
    && (forall e, f, t :: Returned(evals, e, t) && Returned(evals, f, t) ==> e == f)
    && (forall e, i, j :: 0 <= e < |evals| && 0 <= i < j < |evals[e].appended| ==>
          evals[e].appended[i] != evals[e].appended[j])
  }

  ghost predicate Inv(w: World, debounce: int) {
    && Ordered(w.fixes)
    && w.log <= Batch(w.fixes, debounce)
    && (forall e :: 0 <= e < |w.evals| ==> EvaluatorOk(w.evals[e].phase, w.log, Batch(w.fixes, debounce)))
    && ReturnedOnce(w.log, w.evals)
  }

  lemma LongerProjection(p: Phase, log: seq<Transition>, batch: seq<Transition>, log': seq<Transition>,
      batch': seq<Transition>)
    requires EvaluatorOk(p, log, batch) && |log| <= |log'| && batch <= batch'
    ensures EvaluatorOk(p, log', batch')
  {
    match p
    case Begun =>
    case SeedRead(last) =>
      var k: nat :| k <= |log| && SeenAt(last, batch, k);
      assert SeenAt(last, batch', k);
    case Inserting(todo) =>
      var k: nat, m: nat :| k <= |log| && Stretch(todo, batch, k, m);
      assert batch'[k..m] == batch[k..m];
      assert Stretch(todo, batch', k, m);
  }

  lemma LogInOrder(w: World, debounce: int)
    requires Ordered(w.fixes) && w.log <= Batch(w.fixes, debounce)
    ensures Alternating(w.log, true) && SeenAt(Latest(w.log), Batch(w.fixes, debounce), |w.log|)
  {
    Spaced(w.fixes, false, false, debounce);
    assert Alternating(w.log, true);
    if w.log != [] {
      LatestIsLast(w.log, true);
    }
  }

  // Reading every fix past the k-th event derives the rest of the projection.
  lemma DerivesTheRest(fixes: seq<Reading>, last: Option<Transition>, k: nat, debounce: int)
    requires Ordered(fixes) && SeenAt(last, Batch(fixes, debounce), k)
    ensures Confirm(fixes[Floor(fixes, last)..], Inside(last), last.Some?, debounce) == Batch(fixes, debounce)[k..]
  {
    if k == 0 {
      assert fixes[0..] == fixes;
    } else {
      RestartsAnywhere(fixes, false, false, debounce, k - 1);
    }
  }

  // A scan may leave out a skippable beginning.
  lemma SkipsBeginning(rs: seq<Reading>, s: nat, last: Option<Transition>, debounce: int)
    requires s <= |rs| && Skippable(rs, last, 0, s)
    ensures Confirm(rs[s..], Inside(last), last.Some?, debounce) == Confirm(rs, Inside(last), last.Some?, debounce)
  {
    if last.Some? {
      SkipRun(rs, 0, s, Inside(last), debounce);
      Shift(rs, s, s, Inside(last), true, debounce);
    } else if forall k :: 0 <= k < s ==> rs[k].inside {
      NeverWitnessed(rs, 0, s, debounce);
      Shift(rs, s, s, false, false, debounce);
    } else if s < |rs| {
      assert !rs[0].inside && !rs[s].inside;
      SkipRun(rs, 1, s, false, debounce);
      Shift(rs, s, s, false, true, debounce);
      assert rs[s..][0] == rs[s];
    } else {
      assert !rs[0].inside;
      SkipRun(rs, 1, s, false, debounce);
    }
  }

  // What a bounded read derives is what an unbounded one over the same end would.
  lemma LeftCutIsHarmless(fixes: seq<Reading>, last: Option<Transition>, from: nat, to: nat, debounce: int)
    requires Ordered(fixes) && Floor(fixes, last) <= from <= to <= |fixes|
    requires Skippable(fixes, last, Floor(fixes, last), from)
    ensures Confirm(fixes[from..to], Inside(last), last.Some?, debounce)
         == Confirm(fixes[Floor(fixes, last)..to], Inside(last), last.Some?, debounce)
  {
    var lo := Floor(fixes, last);
    var rs := fixes[lo..to];
    assert forall k :: 0 <= k < |rs| ==> rs[k] == fixes[lo + k];
    assert rs[from - lo..] == fixes[from..to];
    hide Confirm, Floor;
    SkipsBeginning(rs, from - lo, last, debounce);
  }

  // A read past the k-th event, cut anywhere on the right and harmlessly on the left, derives a stretch of
  // the projection from there.
  lemma DerivesAStretch(fixes: seq<Reading>, last: Option<Transition>, k: nat, from: nat, to: nat, debounce: int)
    returns (m: nat)
    requires Ordered(fixes) && SeenAt(last, Batch(fixes, debounce), k)
    requires Floor(fixes, last) <= from <= to <= |fixes| && Skippable(fixes, last, Floor(fixes, last), from)
    ensures Stretch(Confirm(fixes[from..to], Inside(last), last.Some?, debounce), Batch(fixes, debounce), k, m)
  {
    var lo := Floor(fixes, last);
    var batch := Batch(fixes, debounce);
    LeftCutIsHarmless(fixes, last, from, to, debounce);
    DerivesTheRest(fixes, last, k, debounce);
    assert fixes[lo..][..to - lo] == fixes[lo..to];
    NeverRetracts(fixes[lo..], to - lo, Inside(last), last.Some?, debounce);
    hide Confirm, Floor, Batch;
    m := k + |Confirm(fixes[lo..to], Inside(last), last.Some?, debounce)|;
    assert batch[k..][..m - k] == batch[k..m];
  }

  lemma ArriveKeeps(w: World, r: Reading, debounce: int)
    requires Inv(w, debounce) && Newest(w.fixes, r)
    ensures Inv(w.(fixes := w.fixes + [r]), debounce)
  {
    var fixes := w.fixes + [r];
    assert fixes[..|w.fixes|] == w.fixes;
    NeverRetracts(fixes, |w.fixes|, false, false, debounce);
    forall e | 0 <= e < |w.evals| ensures EvaluatorOk(w.evals[e].phase, w.log, Batch(fixes, debounce)) {
      LongerProjection(w.evals[e].phase, w.log, Batch(w.fixes, debounce), w.log, Batch(fixes, debounce));
    }
  }

  // A change of one evaluator's phase that leaves its returned events alone.
  lemma PhaseKeepsReturned(log: seq<Transition>, evals: seq<Evaluator>, e: nat, p: Phase)
    requires e < |evals| && ReturnedOnce(log, evals)
    ensures ReturnedOnce(log, evals[e := evals[e].(phase := p)])
  {
    var evals' := evals[e := evals[e].(phase := p)];
    assert forall f, t :: Returned(evals, f, t) <==> Returned(evals', f, t);
  }

  lemma ReadSeedKeeps(w: World, e: nat, debounce: int)
    requires Inv(w, debounce) && Enabled(w, ReadSeed(e))
    ensures Inv(Next(w, ReadSeed(e), debounce), debounce)
  {
    LogInOrder(w, debounce);
    PhaseKeepsReturned(w.log, w.evals, e, SeedRead(Latest(w.log)));
  }

  lemma ReadFixesKeeps(w: World, e: nat, debounce: int)
    requires Inv(w, debounce) && Enabled(w, ReadFixes(e))
    ensures Inv(Next(w, ReadFixes(e), debounce), debounce)
  {
    hide Confirm;
    var batch := Batch(w.fixes, debounce);
    var last := w.evals[e].phase.last;
    var around := w.evals[e].around;
    assert EvaluatorOk(w.evals[e].phase, w.log, batch);
    var k: nat :| k <= |w.log| && SeenAt(last, batch, k);
    var m := DerivesAStretch(w.fixes, last, k, ReadFrom(w.fixes, last, around), ReadTo(w.fixes, last, around),
        debounce);
    var todo := Confirm(Window(w.fixes, last, around), Inside(last), last.Some?, debounce);
    PhaseKeepsReturned(w.log, w.evals, e, Inserting(todo));
  }

  // The next event to insert is already a row, or is the very next event of the projection.
  lemma NextInsert(log: seq<Transition>, batch: seq<Transition>, todo: seq<Transition>)
    requires Alternating(batch, true) && log <= batch && todo != []
    requires EvaluatorOk(Inserting(todo), log, batch)
    ensures HasRow(log, todo[0].ts) <==> todo[0] in log
    ensures Insert(log, todo[0]) <= batch
    ensures EvaluatorOk(Inserting(todo[1..]), Insert(log, todo[0]), batch)
  {
    var k: nat, m: nat :| k <= |log| && Stretch(todo, batch, k, m);
    assert todo[0] == batch[k];
    if k < |log| {
      assert log[k] == todo[0];
    } else {
      assert log + [batch[k]] == batch[..k + 1];
      assert forall i :: 0 <= i < k ==> log[i] == batch[i] && batch[i].ts < batch[k].ts;
    }
    assert todo[1..] == batch[k + 1..m];
    assert Stretch(todo[1..], batch, k + 1, m);
  }

  lemma InsertReturns(log: seq<Transition>, evals: seq<Evaluator>, e: nat, t: Transition, p: Phase)
    requires e < |evals| && ReturnedOnce(log, evals) && t !in log
    ensures ReturnedOnce(log + [t], evals[e := Evaluator(evals[e].around, p, evals[e].appended + [t])])
  {
    var evals' := evals[e := Evaluator(evals[e].around, p, evals[e].appended + [t])];
    assert forall f, x :: Returned(evals', f, x) <==> Returned(evals, f, x) || (f == e && x == t);
    assert forall i :: 0 <= i < |evals[e].appended| ==> Returned(evals, e, evals[e].appended[i]);
    forall x | x in log + [t] ensures exists f :: Returned(evals', f, x) {
      if x == t {
        assert Returned(evals', e, t);
      } else {
        var f :| Returned(evals, f, x);
        assert Returned(evals', f, x);
      }
    }
  }

  lemma InsertOneKeeps(w: World, e: nat, debounce: int)
    requires Inv(w, debounce) && Enabled(w, InsertOne(e))
    ensures Inv(Next(w, InsertOne(e), debounce), debounce)
  {
    var batch := Batch(w.fixes, debounce);
    var todo := w.evals[e].phase.todo;
    var t := todo[0];
    Spaced(w.fixes, false, false, debounce);
    assert EvaluatorOk(w.evals[e].phase, w.log, batch);
    NextInsert(w.log, batch, todo);
    var w' := Next(w, InsertOne(e), debounce);
    if HasRow(w.log, t.ts) {
      PhaseKeepsReturned(w.log, w.evals, e, Inserting(todo[1..]));
      assert w'.evals == w.evals[e := w.evals[e].(phase := Inserting(todo[1..]))];
    } else {
      InsertReturns(w.log, w.evals, e, t, Inserting(todo[1..]));
    }
    forall f | 0 <= f < |w.evals| ensures EvaluatorOk(w'.evals[f].phase, w'.log, batch) {
      if f != e {
        LongerProjection(w.evals[f].phase, w.log, batch, w'.log, batch);
      }
    }
  }

  lemma BeginKeeps(w: World, around: int, debounce: int)
    requires Inv(w, debounce)
    ensures Inv(Next(w, Begin(around), debounce), debounce)
  {
    var evals' := w.evals + [Evaluator(around, Begun, [])];
    assert forall f, t :: Returned(evals', f, t) <==> Returned(w.evals, f, t);
  }

  lemma StepKeeps(w: World, s: Step, debounce: int)
    requires Inv(w, debounce) && Enabled(w, s)
    ensures Inv(Next(w, s, debounce), debounce)
  {
    match s
    case Arrive(r) => ArriveKeeps(w, r, debounce);
    case Begin(around) => BeginKeeps(w, around, debounce);
    case ReadSeed(e) => ReadSeedKeeps(w, e, debounce);
    case ReadFixes(e) => ReadFixesKeeps(w, e, debounce);
    case InsertOne(e) => InsertOneKeeps(w, e, debounce);
  }

  lemma {:induction false} RunKeeps(w: World, steps: seq<Step>, debounce: int)
    requires Inv(w, debounce) && Runs(w, steps, debounce)
    ensures Inv(After(w, steps, debounce), debounce)
    decreases |steps|
  {
    if steps != [] {
      StepKeeps(w, steps[0], debounce);
      RunKeeps(Next(w, steps[0], debounce), steps[1..], debounce);
    }
  }

  /** Every interleaving keeps the log a prefix of the batch projection of the fixes stored so far, and
      every row has been returned as newly appended by exactly one evaluator, exactly once. */
  lemma InterleavingsConverge(steps: seq<Step>, debounce: int)
    requires Runs(EMPTY, steps, debounce)
    ensures var w := After(EMPTY, steps, debounce);
            w.log <= Batch(w.fixes, debounce) && ReturnedOnce(w.log, w.evals)
  {
    RunKeeps(EMPTY, steps, debounce);
  }

  lemma FloorOfPrefix(fixes: seq<Reading>, last: Option<Transition>, to: nat)
    requires Ordered(fixes) && Floor(fixes, last) <= to <= |fixes|
    ensures Floor(fixes[..to], last) == Floor(fixes, last)
  {
    var part := fixes[..to];
    var m, n := Floor(part, last), Floor(fixes, last);
    assert m < to ==> part[m] == fixes[m];
    assert n < to ==> part[n] == fixes[n];
  }

  // The log against the projection of a prefix of the fixes.
  lemma SeenInPrefix(log: seq<Transition>, part: seq<Transition>, batch: seq<Transition>)
    requires log <= batch && part <= batch && |part| > |log| && Alternating(log, true)
    ensures log == part[..|log|] && SeenAt(Latest(log), part, |log|)
  {
    if log != [] {
      LatestIsLast(log, true);
      assert log[|log| - 1] == part[|log| - 1];
    }
  }

  lemma ProjectionOfPrefix(fixes: seq<Reading>, log: seq<Transition>, to: nat, debounce: int)
    requires Ordered(fixes) && log <= Batch(fixes, debounce) && Alternating(log, true)
    requires Floor(fixes, Latest(log)) <= to <= |fixes| && |Batch(fixes[..to], debounce)| > |log|
    ensures Batch(fixes[..to], debounce)
         == log + Confirm(fixes[Floor(fixes, Latest(log))..to], Inside(Latest(log)), Latest(log).Some?, debounce)
  {
    hide Confirm, Floor, Latest, SeenAt;
    var last := Latest(log);
    var part := fixes[..to];
    NeverRetracts(fixes, to, false, false, debounce);
    FloorOfPrefix(fixes, last, to);
    hide Batch;
    SeenInPrefix(log, Batch(part, debounce), Batch(fixes, debounce));
    DerivesTheRest(part, last, |log|, debounce);
    assert part[Floor(fixes, last)..] == fixes[Floor(fixes, last)..to];
  }

  /** One whole evaluation extends a log that is a prefix of the projection, to a longer prefix that covers
      every fix the evaluation reached; all of it, when it reached the newest. */
  lemma EvaluationHeals(fixes: seq<Reading>, log: seq<Transition>, around: int, debounce: int)
    requires Ordered(fixes) && log <= Batch(fixes, debounce)
    requires SettledBefore(fixes, Latest(log), around)
    ensures var to := ReadTo(fixes, Latest(log), around);
            var healed := Evaluate(fixes, log, around, debounce);
            && log <= healed <= Batch(fixes, debounce)
            && Batch(fixes[..to], debounce) <= healed
            && (to == |fixes| ==> healed == Batch(fixes, debounce))
  {
    var last := Latest(log);
    var batch := Batch(fixes, debounce);
    var from, to := ReadFrom(fixes, last, around), ReadTo(fixes, last, around);
    LogInOrder(World(fixes, log, []), debounce);
    var m := DerivesAStretch(fixes, last, |log|, from, to, debounce);
    EvaluationAppends(fixes, log, around, debounce);
    LeftCutIsHarmless(fixes, last, from, to, debounce);
    NeverRetracts(fixes, to, false, false, debounce);
    if |Batch(fixes[..to], debounce)| > |log| {
      ProjectionOfPrefix(fixes, log, to, debounce);
    }
    hide Confirm, Evaluate, Floor;
    assert fixes[..|fixes|] == fixes;
    assert log + batch[|log|..m] == batch[..m];
  }

  /** Wherever evaluators stopped, the next whole evaluation completes the log as far as it reads. */
  lemma NextEvaluationHeals(steps: seq<Step>, around: int, debounce: int)
    requires Runs(EMPTY, steps, debounce)
    requires var w := After(EMPTY, steps, debounce);
             Ordered(w.fixes) && SettledBefore(w.fixes, Latest(w.log), around)
    ensures var w := After(EMPTY, steps, debounce);
            var to := ReadTo(w.fixes, Latest(w.log), around);
            var healed := Evaluate(w.fixes, w.log, around, debounce);
            && w.log <= healed <= Batch(w.fixes, debounce)
            && Batch(w.fixes[..to], debounce) <= healed
            && (to == |w.fixes| ==> healed == Batch(w.fixes, debounce))
  {
    RunKeeps(EMPTY, steps, debounce);
    var w := After(EMPTY, steps, debounce);
    hide Evaluate, Batch, SettledBefore, ReadTo;
    EvaluationHeals(w.fixes, w.log, around, debounce);
  }

  /** In particular a read that the bound does not cut at all may go ahead, and completes the log. */
  lemma UncutReads(fixes: seq<Reading>, last: Option<Transition>, around: int)
    requires Ordered(fixes) && Window(fixes, last, around) == fixes[Floor(fixes, last)..]
    ensures SettledBefore(fixes, last, around) && ReadTo(fixes, last, around) == |fixes|
  {
    assert |Window(fixes, last, around)| == ReadTo(fixes, last, around) - ReadFrom(fixes, last, around);
  }
}
