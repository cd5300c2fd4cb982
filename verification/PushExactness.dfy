/**
When the ledger's count is exact: until, and only until, a delivery classified in an account that has
started over since (or never classified at all) takes back a count that another one made.
*/
module PushExactness {
  import opened PushLedger
  import opened PushSystem

  // The count is the number of deliveries it should count.
  ghost predicate Exact(s: State, e: Endpoint, k: CollapseKey) {
    Count(s.ledger, e, k) == |Outstanding(s, e, k)|
  }

  // The step drops item i, which was handed over for the account but is not counted in it now.
  ghost predicate DropsUncounted(s: State, s': State, e: Endpoint, k: CollapseKey, i: int) {
    && 0 <= i < |s.items| && i < |s'.items|
    && s.items[i].sub == e && s.items[i].key == k && s.items[i].bound == HandedOver
    && !s.items[i].phase.Recorded? && s'.items[i].phase == Recorded(Dropped)
    && s.items[i].born != Epoch(s, e)
  }

  // And finds a count to take back.
  ghost predicate StaleDrop(s: State, s': State, e: Endpoint, k: CollapseKey) {
    Count(s.ledger, e, k) > 0 && exists i :: DropsUncounted(s, s', e, k, i)
  }

  lemma DropTakesOne(s: State, id: nat, sends: seq<bool>, s': State, e: Endpoint, k: CollapseKey)
    requires Records(s, id, Dropped, sends, s') && SameEpochs(s, s')
    ensures |Outstanding(s', e, k)| == |Outstanding(s, e, k)| - if Counted(s, e, k, id) then 1 else 0
  {
    assert Outstanding(s', e, k) == Outstanding(s, e, k) - {id as int} by {
      assert forall i :: Counted(s', e, k, i) <==> Counted(s, e, k, i) && i != id;
    }
    assert id in Outstanding(s, e, k) <==> Counted(s, e, k, id);
  }

  lemma OnlyDropped(s: State, id: nat, sends: seq<bool>, s': State, e: Endpoint, k: CollapseKey)
    requires Records(s, id, Dropped, sends, s') && SameEpochs(s, s') && !s.items[id].phase.Recorded?
    ensures (exists i :: DropsUncounted(s, s', e, k, i)) <==> DropsUncounted(s, s', e, k, id)
    ensures var item := s.items[id];
            DropsUncounted(s, s', e, k, id)
            <==> item.sub == e && item.key == k && item.bound == HandedOver && !Counted(s, e, k, id)
  {
    assert forall i :: DropsUncounted(s, s', e, k, i) ==> i == id;
  }

  lemma DropStaysExact(s: State, id: nat, sends: seq<bool>, s': State, e: Endpoint, k: CollapseKey)
    requires Drops(s, id, sends, s') && SameEpochs(s, s') && Valid(s.ledger) && !s.items[id].phase.Recorded?
    requires Exact(s, e, k)
    ensures Exact(s', e, k) <==> !StaleDrop(s, s', e, k)
  {
    TakenBackEffect(s.ledger, s.items[id].sub, s.items[id].key);
    hide TakenBack, Valid, Count, Outstanding, DropsUncounted;
    DropTakesOne(s, id, sends, s', e, k);
    OnlyDropped(s, id, sends, s', e, k);
  }

  lemma ChangeStaysExact(s: State, id: nat, phase: Phase, sends: seq<bool>, s': State, e: Endpoint, k: CollapseKey)
    requires Changes(s, id, phase, sends, s') && SameEpochs(s, s') && s'.ledger == s.ledger
    requires !s.items[id].phase.Recorded? && phase != Recorded(Dropped) && Exact(s, e, k)
    ensures Exact(s', e, k) && !StaleDrop(s, s', e, k)
  {
    assert Outstanding(s', e, k) == Outstanding(s, e, k) by {
      assert forall i :: Counted(s', e, k, i) <==> Counted(s, e, k, i);
    }
    assert forall i :: !DropsUncounted(s, s', e, k, i);
  }

  // Nothing that was there before is dropped.
  lemma GrowthDropsNothing(s: State, s': State, e: Endpoint, k: CollapseKey)
    requires s.items <= s'.items
    ensures !StaleDrop(s, s', e, k)
  {
    assert forall i :: !DropsUncounted(s, s', e, k, i);
  }

  lemma ClassifyStaysExact(s: State, f: Endpoint, key: CollapseKey, s': State, e: Endpoint, k: CollapseKey)
    requires AccountsOk(s) && Classifies(s, f, key, s') && Exact(s, e, k)
    ensures Exact(s', e, k)
  {
    ClassifiedEffect(s.ledger, f, key);
    TrackEffect(s.ledger, f);
    StartOverCounts(s, Evicted(s.ledger, f), s', e, k);
    hide Classified, Evicted, Valid, AccountsOk, Count, Outstanding;
    assert Counted(s', e, k, |s.items|) <==> f == e && k == key && s'.items[|s.items|].bound == HandedOver;
  }

  lemma ForgetStaysExact(s: State, f: Endpoint, s': State, e: Endpoint, k: CollapseKey)
    requires AccountsOk(s) && Forgets(s, f, s') && Exact(s, e, k)
    ensures Exact(s', e, k)
  {
    ForgottenEffect(s.ledger, f);
    StartOverCounts(s, {f}, s', e, k);
    hide Valid, AccountsOk, Outstanding;
    assert !Counted(s', e, k, |s.items|);
  }

  lemma PresentStaysExact(s: State, f: Endpoint, key: CollapseKey, bound: Outcome, s': State, e: Endpoint,
      k: CollapseKey)
    requires Presents(s, f, key, bound, s') && Exact(s, e, k)
    ensures Exact(s', e, k)
  {
    assert Outstanding(s', e, k) == Outstanding(s, e, k) by {
      assert forall i :: Counted(s', e, k, i) <==> Counted(s, e, k, i);
    }
  }

  lemma CloseStaysExact(s: State, s': State, e: Endpoint, k: CollapseKey)
    requires Closes(s, s') && Exact(s, e, k)
    ensures Exact(s', e, k)
  {
    assert Outstanding(s', e, k) == Outstanding(s, e, k) by {
      assert forall i :: Counted(s', e, k, i) <==> Counted(s, e, k, i);
    }
  }

  /** A step keeps an exact count exact if and only if it is not a stale drop. */
  lemma StepStaysExact(c: Config, s: State, step: Step, s': State, e: Endpoint, k: CollapseKey)
    requires Inv(c, s) && Moves(c, s, step, s') && Exact(s, e, k)
    ensures Exact(s', e, k) <==> !StaleDrop(s, s', e, k)
  {
    WhatTheWorkerSees(c, s);
    assert Valid(s.ledger);
    hide QueueOk, RecordsOk, AccountsOk, Valid, Exact, StaleDrop;
    match step
    case ClassifyOne(f, key) =>
      ClassifyStaysExact(s, f, key, s', e, k);
      GrowthDropsNothing(s, s', e, k);
    case Present(f, key, bound) =>
      PresentStaysExact(s, f, key, bound, s', e, k);
      GrowthDropsNothing(s, s', e, k);
    case Forget(f) =>
      ForgetStaysExact(s, f, s', e, k);
      GrowthDropsNothing(s, s', e, k);
    case Close =>
      CloseStaysExact(s, s', e, k);
      GrowthDropsNothing(s, s', e, k);
    case Offer(id) =>
      if |s.line.queue| < c.capacity {
        ChangeStaysExact(s, id, Queued, s.items[id].sends, s', e, k);
      } else {
        DropStaysExact(s, id, s.items[id].sends, s', e, k);
      }
    case Take =>
      var id := s.line.queue[0];
      if s.items[id].sub.provider in c.senders {
        ChangeStaysExact(s, id, Sending, s.items[id].sends, s', e, k);
      } else {
        DropStaysExact(s, id, s.items[id].sends, s', e, k);
      }
    case SendOne(ok) =>
      var id := s.line.worker[0];
      var sends := s.items[id].sends + [ok];
      if !ok && |sends| >= c.maxAttempts {
        DropStaysExact(s, id, sends, s', e, k);
      } else {
        ChangeStaysExact(s, id, if ok then Recorded(s.items[id].bound) else Sending, sends, s', e, k);
      }
  }

  ghost predicate ExactAt(states: seq<State>, i: int, e: Endpoint, k: CollapseKey) {
    0 <= i < |states| && Exact(states[i], e, k)
  }

  // The step into state i is a stale drop.
  ghost predicate StaleAt(states: seq<State>, i: int, e: Endpoint, k: CollapseKey) {
    0 < i < |states| && StaleDrop(states[i - 1], states[i], e, k)
  }

  ghost predicate ExactThroughout(states: seq<State>, m: nat, n: nat, e: Endpoint, k: CollapseKey) {
    forall i :: m <= i <= n ==> ExactAt(states, i, e, k)
  }

  ghost predicate NoStaleDrop(states: seq<State>, m: nat, n: nat, e: Endpoint, k: CollapseKey) {
    forall i :: m < i <= n ==> !StaleAt(states, i, e, k)
  }

  lemma RunStaysExact(c: Config, states: seq<State>, n: nat, e: Endpoint, k: CollapseKey)
    requires Run(c, states) && states[0] == START && c.maxAttempts >= 1
    requires 0 < n < |states| && ExactAt(states, n - 1, e, k)
    ensures ExactAt(states, n, e, k) <==> !StaleAt(states, n, e, k)
  {
    hide Inv, Exact, StaleDrop, Run, Moves;
    RunKeeps(c, states, n - 1);
    var step := RunStep(c, states, n);
    StepStaysExact(c, states[n - 1], step, states[n], e, k);
  }

  /** From any moment at which a count is exact it stays exact just as long as no stale drop happens. */
  lemma {:induction false} ExactSince(c: Config, states: seq<State>, m: nat, n: nat, e: Endpoint, k: CollapseKey)
    requires Run(c, states) && states[0] == START && c.maxAttempts >= 1
    requires m <= n < |states| && ExactAt(states, m, e, k)
    ensures ExactThroughout(states, m, n, e, k) <==> NoStaleDrop(states, m, n, e, k)
    decreases n - m
  {
    hide Run, ExactAt, StaleAt;
    if m < n {
      ExactSince(c, states, m, n - 1, e, k);
      if ExactAt(states, n - 1, e, k) {
        RunStaysExact(c, states, n, e, k);
      }
    }
  }

  /** Over every run: the count of a key is exact in every state so far if and only if no stale drop of that
      key has happened so far. */
  lemma ExactUntilStaleDrop(c: Config, states: seq<State>, n: nat, e: Endpoint, k: CollapseKey)
    requires Run(c, states) && states[0] == START && c.maxAttempts >= 1 && n < |states|
    ensures ExactThroughout(states, 0, n, e, k) <==> NoStaleDrop(states, 0, n, e, k)
  {
    assert Outstanding(START, e, k) == {};
    hide Run, ExactThroughout, NoStaleDrop, Outstanding;
    ExactSince(c, states, 0, n, e, k);
  }

  /** And it is exact again as soon as the account is emptied: by registration or removal, or by eviction. */
  lemma EmptiedIsExact(s: State, f: Endpoint, key: CollapseKey, s': State, e: Endpoint, k: CollapseKey)
    requires AccountsOk(s)
    requires (Forgets(s, f, s') && e == f) || (Classifies(s, f, key, s') && e in Evicted(s.ledger, f))
    ensures Exact(s', e, k)
  {
    if Forgets(s, f, s') && e == f {
      ForgottenEffect(s.ledger, f);
      StartOverCounts(s, {f}, s', e, k);
    } else {
      ClassifiedEffect(s.ledger, f, key);
      TrackEffect(s.ledger, f);
      StartOverCounts(s, Evicted(s.ledger, f), s', e, k);
    }
    hide Classified, Evicted, Valid, AccountsOk, Outstanding, Forgotten;
    assert !Counted(s', e, k, |s.items|);
  }
}
