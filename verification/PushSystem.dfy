/**
The push side as a step system: crossings classified, offered to the bounded queue, taken by the one
worker, sent with bounded retry, taken back on every path that ends in `dropped`; endpoints
registering and being removed at any moment in between; and Close.

Every classified crossing is an item with a history; the lemmas relate the ledger's counts and the
outcome records to those histories, over every run.
*/
module PushSystem {
  import opened PushLedger
  import opened Sequences

  // `Waiting` is classified but not yet offered to the queue.
  datatype Phase = Waiting | Queued | Sending | Recorded(outcome: Outcome)

  // `born` is the account's epoch when it was classified, or UNCLASSIFIED for a delivery offered without a
  // classification; `sends` the results of its Send calls so far.
  datatype Item = Item(sub: Endpoint, key: CollapseKey, bound: Outcome, born: int, phase: Phase, sends: seq<bool>)

  const UNCLASSIFIED := -1

  datatype Config = Config(capacity: nat, maxAttempts: nat, senders: set<Provider>)

  // A record of the operator-readable log: which item, and the outcome stated.
  datatype Record = Record(id: nat, outcome: Outcome)

  // The bounded queue and its worker.  `full` counts refusals; `accepted` and `taken` are histories.
  datatype Line = Line(queue: seq<nat>, worker: seq<nat>, closed: bool, full: nat, accepted: seq<nat>, taken: seq<nat>)

  // `epoch` counts how often an endpoint's account was emptied; `spoiled` holds the endpoints whose
  // account was emptied while a delivery counted in it was still on its way, or to which a delivery was
  // offered without a classification.
  datatype State = State(
    ledger: Ledger, epoch: map<Endpoint, nat>, spoiled: set<Endpoint>,
    items: seq<Item>, line: Line, records: seq<Record>)

  const START := State(NO_PENDING, map[], {}, [], Line([], [], false, 0, [], []), [])

  datatype Step =
    | ClassifyOne(e: Endpoint, key: CollapseKey)
    | Present(e: Endpoint, key: CollapseKey, bound: Outcome)
    | Offer(id: nat)
    | Take
    | SendOne(ok: bool)
    | Forget(e: Endpoint)
    | Close

  ghost function Epoch(s: State, e: Endpoint): nat {
    if e in s.epoch then s.epoch[e] else 0
  }

  // Classified as handed over, and no outcome recorded yet.
  ghost predicate OnItsWay(s: State, e: Endpoint, i: int) {
    && 0 <= i < |s.items|
    && s.items[i].sub == e && s.items[i].bound == HandedOver && !s.items[i].phase.Recorded?
  }

  // ---- the steps ----------------------------------------------------------------------------------

  // The accounts of the endpoints in `es` start over.
  ghost predicate StartsOver(s: State, es: set<Endpoint>, s': State) {
    && (forall e :: Epoch(s', e) == Epoch(s, e) + if e in es then 1 else 0)
    && (forall e :: e in s'.spoiled <==> e in s.spoiled || (e in es && exists i :: OnItsWay(s, e, i)))
  }

  ghost function NextEpoch(s: State, es: set<Endpoint>): map<Endpoint, nat> {
    map e | e in s.epoch.Keys + es :: Epoch(s, e) + if e in es then 1 else 0
  }

  ghost function NextSpoiled(s: State, es: set<Endpoint>): set<Endpoint> {
    s.spoiled + set e | e in es && exists i :: OnItsWay(s, e, i)
  }

  ghost predicate SameEpochs(s: State, s': State) {
    s'.epoch == s.epoch && s'.spoiled == s.spoiled
  }

  ghost predicate Changes(s: State, id: nat, phase: Phase, sends: seq<bool>, s': State) {
    && id < |s.items|
    && s'.items == s.items[id := s.items[id].(phase := phase, sends := sends)]
  }

  ghost predicate Records(s: State, id: nat, outcome: Outcome, sends: seq<bool>, s': State) {
    && Changes(s, id, Recorded(outcome), sends, s')
    && s'.records == s.records + [Record(id, outcome)]
  }

  // Every path to `dropped`: take the pending count back, if one was made, and record.
  ghost predicate Drops(s: State, id: nat, sends: seq<bool>, s': State) {
    && Records(s, id, Dropped, sends, s')
    && s'.ledger == if s.items[id].bound == HandedOver
                    then TakenBack(s.ledger, s.items[id].sub, s.items[id].key) else s.ledger
  }

  ghost predicate Classifies(s: State, e: Endpoint, key: CollapseKey, s': State) {
    var (ledger, bound) := Classified(s.ledger, e, key);
    && s'.ledger == ledger
    && StartsOver(s, Evicted(s.ledger, e), s')
    && s'.items == s.items + [Item(e, key, bound, Epoch(s', e), Waiting, [])]
    && s'.line == s.line && s'.records == s.records
  }

  // A delivery that was never classified, with the outcome it is to be read as.
  ghost predicate Presents(s: State, e: Endpoint, key: CollapseKey, bound: Outcome, s': State) {
    && bound != Dropped
    && s'.ledger == s.ledger && s'.epoch == s.epoch && s'.spoiled == s.spoiled + {e}
    && s'.items == s.items + [Item(e, key, bound, UNCLASSIFIED, Waiting, [])]
    && s'.line == s.line && s'.records == s.records
  }

  ghost predicate Offers(c: Config, s: State, id: nat, s': State) {
    && !s.line.closed && id < |s.items| && s.items[id].phase == Waiting
    && SameEpochs(s, s')
    && s'.line.worker == s.line.worker && s'.line.taken == s.line.taken && s'.line.closed == s.line.closed
    && if |s.line.queue| < c.capacity then
         && Changes(s, id, Queued, s.items[id].sends, s') && s'.ledger == s.ledger && s'.records == s.records
         && s'.line.queue == s.line.queue + [id] && s'.line.accepted == s.line.accepted + [id]
         && s'.line.full == s.line.full
       else
         && Drops(s, id, s.items[id].sends, s')
         && s'.line.queue == s.line.queue && s'.line.accepted == s.line.accepted
         && s'.line.full == s.line.full + 1
  }

  ghost predicate Takes(c: Config, s: State, s': State) {
    && s.line.worker == [] && s.line.queue != [] && s.line.queue[0] < |s.items|
    && SameEpochs(s, s')
    && s'.line.queue == s.line.queue[1..] && s'.line.taken == s.line.taken + [s.line.queue[0]]
    && s'.line.accepted == s.line.accepted && s'.line.full == s.line.full && s'.line.closed == s.line.closed
    && var id := s.line.queue[0];
       if s.items[id].sub.provider in c.senders then
         && Changes(s, id, Sending, s.items[id].sends, s') && s'.ledger == s.ledger && s'.records == s.records
         && s'.line.worker == [id]
       else
         Drops(s, id, s.items[id].sends, s') && s'.line.worker == []
  }

  ghost predicate Sends(c: Config, s: State, ok: bool, s': State) {
    && s.line.worker != [] && s.line.worker[0] < |s.items|
    && SameEpochs(s, s')
    && s'.line.queue == s.line.queue && s'.line.taken == s.line.taken && s'.line.accepted == s.line.accepted
    && s'.line.full == s.line.full && s'.line.closed == s.line.closed
    && var id := s.line.worker[0];
       var sends := s.items[id].sends + [ok];
       if ok then
         Records(s, id, s.items[id].bound, sends, s') && s'.ledger == s.ledger && s'.line.worker == []
       else if |sends| >= c.maxAttempts then
         Drops(s, id, sends, s') && s'.line.worker == []
       else
         && Changes(s, id, Sending, sends, s') && s'.ledger == s.ledger && s'.records == s.records
         && s'.line.worker == s.line.worker
  }

  ghost predicate Forgets(s: State, e: Endpoint, s': State) {
    && s'.ledger == Forgotten(s.ledger, e) && StartsOver(s, {e}, s')
    && s'.items == s.items && s'.line == s.line && s'.records == s.records
  }

  ghost predicate Closes(s: State, s': State) {
    !s.line.closed && s' == s.(line := s.line.(closed := true))
  }

  ghost predicate Moves(c: Config, s: State, step: Step, s': State) {
    match step
    case ClassifyOne(e, key) => Classifies(s, e, key, s')
    case Present(e, key, bound) => Presents(s, e, key, bound, s')
    case Offer(id) => Offers(c, s, id, s')
    case Take => Takes(c, s, s')
    case SendOne(ok) => Sends(c, s, ok, s')
    case Forget(e) => Forgets(s, e, s')
    case Close => Closes(s, s')
  }

  ghost predicate Follows(c: Config, s: State, s': State) {
    exists step :: Moves(c, s, step, s')
  }

  // The states of a run, first to last.
  ghost predicate Run(c: Config, states: seq<State>) {
    && states != []
    && forall i :: 0 < i < |states| ==> Follows(c, states[i - 1], states[i])
  }

  // ---- the accounting ------------------------------------------------------------------------------

  // Item i is counted in the account (e, k): classified handed over since the account last started
  // over, and not dropped since.
  ghost predicate Counted(s: State, e: Endpoint, k: CollapseKey, i: int) {
    && 0 <= i < |s.items|
    && s.items[i].sub == e && s.items[i].key == k && s.items[i].bound == HandedOver
    && s.items[i].born == Epoch(s, e) && s.items[i].phase != Recorded(Dropped)
  }

  ghost function Outstanding(s: State, e: Endpoint, k: CollapseKey): set<int> {
    set i | 0 <= i < |s.items| && Counted(s, e, k, i)
  }

  ghost predicate CountsExact(s: State, e: Endpoint) {
    forall k :: Count(s.ledger, e, k) == |Outstanding(s, e, k)|
  }

  // Nothing still on its way was counted in an account that has since started over.
  ghost predicate NoneStale(s: State, e: Endpoint) {
    forall i :: OnItsWay(s, e, i) ==> s.items[i].born == Epoch(s, e)
  }

  ghost predicate Unspoiled(s: State, e: Endpoint) {
    CountsExact(s, e) && NoneStale(s, e)
  }

  ghost predicate AccountsOk(s: State) {
    && Valid(s.ledger)
    && (forall i :: 0 <= i < |s.items| ==> s.items[i].born <= Epoch(s, s.items[i].sub))
    && (forall e, k :: Count(s.ledger, e, k) <= |Outstanding(s, e, k)|)
    && (forall e :: e !in s.spoiled ==> Unspoiled(s, e))
  }

  lemma DropCounts(s: State, id: nat, sends: seq<bool>, s': State, e: Endpoint, k: CollapseKey)
    requires Drops(s, id, sends, s') && SameEpochs(s, s')
    requires Valid(s.ledger) && !s.items[id].phase.Recorded?
    requires Count(s.ledger, e, k) <= |Outstanding(s, e, k)|
    ensures Count(s'.ledger, e, k) <= |Outstanding(s', e, k)|
    ensures NoneStale(s, e) && Count(s.ledger, e, k) == |Outstanding(s, e, k)|
            ==> Count(s'.ledger, e, k) == |Outstanding(s', e, k)|
  {
    var item := s.items[id];
    assert Outstanding(s', e, k) == Outstanding(s, e, k) - {id as int} by {
      assert forall i :: Counted(s', e, k, i) <==> Counted(s, e, k, i) && i != id;
    }
    TakenBackEffect(s.ledger, item.sub, item.key);
    assert id in Outstanding(s, e, k) <==> Counted(s, e, k, id);
    assert OnItsWay(s, item.sub, id) <==> item.bound == HandedOver;
  }

  // A take-back never leaves a count above what is outstanding, even when the account has started over.
  lemma DropKeepsAccounts(s: State, id: nat, sends: seq<bool>, s': State)
    requires AccountsOk(s) && Drops(s, id, sends, s') && SameEpochs(s, s') && !s.items[id].phase.Recorded?
    ensures AccountsOk(s')
  {
    TakenBackEffect(s.ledger, s.items[id].sub, s.items[id].key);
    forall e, k ensures Count(s'.ledger, e, k) <= |Outstanding(s', e, k)| {
      assert Count(s.ledger, e, k) <= |Outstanding(s, e, k)|;
      DropCounts(s, id, sends, s', e, k);
    }
    forall e | e !in s.spoiled ensures Unspoiled(s', e) {
      assert Unspoiled(s, e);
      forall k ensures Count(s'.ledger, e, k) == |Outstanding(s', e, k)| {
        assert Count(s.ledger, e, k) == |Outstanding(s, e, k)|;
        DropCounts(s, id, sends, s', e, k);
      }
      forall i | OnItsWay(s', e, i) ensures s'.items[i].born == Epoch(s', e) {
        assert OnItsWay(s, e, i);
      }
    }
  }

  // A change of phase that is not a drop leaves who is counted alone.
  lemma ChangeKeepsAccounts(s: State, id: nat, phase: Phase, sends: seq<bool>, s': State)
    requires AccountsOk(s) && Changes(s, id, phase, sends, s') && SameEpochs(s, s') && s'.ledger == s.ledger
    requires !s.items[id].phase.Recorded? && phase != Recorded(Dropped)
    ensures AccountsOk(s')
  {
    forall e, k ensures Outstanding(s', e, k) == Outstanding(s, e, k) {
      assert forall i :: Counted(s', e, k, i) <==> Counted(s, e, k, i);
    }
    forall e | e !in s.spoiled ensures Unspoiled(s', e) {
      assert Unspoiled(s, e);
      assert forall i :: OnItsWay(s', e, i) ==> OnItsWay(s, e, i);
    }
  }

  lemma StartOverCounts(s: State, es: set<Endpoint>, s': State, e: Endpoint, k: CollapseKey)
    requires StartsOver(s, es, s') && s.items <= s'.items && |s'.items| <= |s.items| + 1
    requires forall i :: 0 <= i < |s.items| ==> s.items[i].born <= Epoch(s, s.items[i].sub)
    ensures Outstanding(s', e, k) == (if e in es then {} else Outstanding(s, e, k))
              + (if Counted(s', e, k, |s.items|) then {|s.items| as int} else {})
    ensures |s.items| !in Outstanding(s, e, k)
  {
    forall i | i != |s.items| ensures Counted(s', e, k, i) <==> e !in es && Counted(s, e, k, i) {
    }
  }

  // Accounts starting over, with at most one new item, counted as its account is.
  lemma StartOverKeepsAccounts(s: State, es: set<Endpoint>, s': State)
    requires AccountsOk(s) && StartsOver(s, es, s') && Valid(s'.ledger)
    requires s.items <= s'.items && |s'.items| <= |s.items| + 1
    requires |s'.items| == |s.items| + 1 ==> s'.items[|s.items|].born == Epoch(s', s'.items[|s.items|].sub)
    requires forall e, k :: Count(s'.ledger, e, k) == (if e in es then 0 else Count(s.ledger, e, k))
               + (if Counted(s', e, k, |s.items|) then 1 else 0)
    ensures AccountsOk(s')
  {
    forall e, k
      ensures |Outstanding(s', e, k)| - Count(s'.ledger, e, k)
              == if e in es then 0 else |Outstanding(s, e, k)| - Count(s.ledger, e, k)
    {
      StartOverCounts(s, es, s', e, k);
    }
    forall e | e !in s'.spoiled ensures Unspoiled(s', e) {
      assert Unspoiled(s, e);
      forall i | OnItsWay(s', e, i) ensures s'.items[i].born == Epoch(s', e) {
        assert i != |s.items| ==> OnItsWay(s, e, i);
      }
      forall k ensures Count(s'.ledger, e, k) == |Outstanding(s', e, k)| {
        assert Count(s.ledger, e, k) == |Outstanding(s, e, k)|;
      }
    }
    forall e, k ensures Count(s'.ledger, e, k) <= |Outstanding(s', e, k)| {
      assert Count(s.ledger, e, k) <= |Outstanding(s, e, k)|;
    }
  }

  lemma ClassifyKeepsAccounts(s: State, e: Endpoint, key: CollapseKey, s': State)
    requires AccountsOk(s) && Classifies(s, e, key, s')
    ensures AccountsOk(s')
  {
    var es := Evicted(s.ledger, e);
    ClassifiedEffect(s.ledger, e, key);
    TrackEffect(s.ledger, e);
    hide Classified, Evicted, Valid;
    assert forall f, k ::
        Counted(s', f, k, |s.items|) <==> f == e && k == key && s'.items[|s.items|].bound == HandedOver;
    StartOverKeepsAccounts(s, es, s');
  }

  lemma PresentKeepsAccounts(s: State, e: Endpoint, key: CollapseKey, bound: Outcome, s': State)
    requires AccountsOk(s) && Presents(s, e, key, bound, s')
    ensures AccountsOk(s')
  {
    hide Valid;
    forall f, k ensures Outstanding(s', f, k) == Outstanding(s, f, k) {
      assert forall i :: Counted(s', f, k, i) <==> Counted(s, f, k, i);
    }
    forall f | f !in s'.spoiled ensures Unspoiled(s', f) {
      assert Unspoiled(s, f);
      assert forall i :: OnItsWay(s', f, i) ==> OnItsWay(s, f, i);
    }
  }

  lemma ForgetKeepsAccounts(s: State, e: Endpoint, s': State)
    requires AccountsOk(s) && Forgets(s, e, s')
    ensures AccountsOk(s')
  {
    ForgottenEffect(s.ledger, e);
    hide Valid;
    assert forall f, k :: !Counted(s', f, k, |s.items|);
    StartOverKeepsAccounts(s, {e}, s');
  }

  lemma StepKeepsAccounts(c: Config, s: State, step: Step, s': State)
    requires AccountsOk(s) && QueueOk(c, s) && Moves(c, s, step, s')
    ensures AccountsOk(s')
  {
    WhatTheWorkerSees(c, s);
    hide QueueOk, AccountsOk;
    match step
    case ClassifyOne(e, key) => ClassifyKeepsAccounts(s, e, key, s');
    case Present(e, key, bound) => PresentKeepsAccounts(s, e, key, bound, s');
    case Offer(id) =>
      if |s.line.queue| < c.capacity {
        ChangeKeepsAccounts(s, id, Queued, s.items[id].sends, s');
      } else {
        DropKeepsAccounts(s, id, s.items[id].sends, s');
      }
    case Take =>
      var id := s.line.queue[0];
      if s.items[id].sub.provider in c.senders {
        ChangeKeepsAccounts(s, id, Sending, s.items[id].sends, s');
      } else {
        DropKeepsAccounts(s, id, s.items[id].sends, s');
      }
    case SendOne(ok) =>
      var id := s.line.worker[0];
      var sends := s.items[id].sends + [ok];
      if !ok && |sends| >= c.maxAttempts {
        DropKeepsAccounts(s, id, sends, s');
      } else {
        ChangeKeepsAccounts(s, id, if ok then Recorded(s.items[id].bound) else Sending, sends, s');
      }
    case Forget(e) => ForgetKeepsAccounts(s, e, s');
    case Close => CloseKeepsAccounts(s, s');
  }

  lemma CloseKeepsAccounts(s: State, s': State)
    requires AccountsOk(s) && Closes(s, s')
    ensures AccountsOk(s')
  {
    forall e, k ensures Outstanding(s', e, k) == Outstanding(s, e, k) {
      assert forall i :: Counted(s', e, k, i) <==> Counted(s, e, k, i);
    }
    forall e | e !in s.spoiled ensures Unspoiled(s', e) {
      assert Unspoiled(s, e);
      assert forall i :: OnItsWay(s', e, i) ==> OnItsWay(s, e, i);
    }
  }

  // ---- the queue, the worker and the records -------------------------------------------------------

  ghost predicate AllFailed(sends: seq<bool>) {
    forall i :: 0 <= i < |sends| ==> !sends[i]
  }

  // An item's history agrees with its phase: sends only once taken, at most maxAttempts of them, the
  // classification recorded only after a Send succeeded, `dropped` only when none did.
  ghost predicate ItemOk(c: Config, item: Item) {
    && item.bound != Dropped
    && match item.phase
       case Waiting => item.sends == []
       case Queued => item.sends == []
       case Sending => AllFailed(item.sends) && |item.sends| < c.maxAttempts
       case Recorded(o) =>
         && |item.sends| <= c.maxAttempts
         && if o == Dropped then AllFailed(item.sends)
            else
              && o == item.bound && item.sends != [] && item.sends[|item.sends| - 1]
              && AllFailed(item.sends[..|item.sends| - 1])
  }

  ghost predicate InPhase(s: State, id: int, phase: Phase) {
    0 <= id < |s.items| && s.items[id].phase == phase
  }

  // How many items are in a phase.
  ghost function Tally(items: seq<Item>, phase: Phase): nat {
    if items == [] then 0
    else Tally(items[..|items| - 1], phase) + if items[|items| - 1].phase == phase then 1 else 0
  }

  ghost predicate AllItemsOk(c: Config, items: seq<Item>) {
    forall i :: 0 <= i < |items| ==> ItemOk(c, items[i])
  }

  ghost predicate QueueOk(c: Config, s: State) {
    && |s.line.queue| == Tally(s.items, Queued) <= c.capacity
    && NoRepeats(s.line.queue)
    && (forall q :: 0 <= q < |s.line.queue| ==> InPhase(s, s.line.queue[q], Queued))
    && |s.line.worker| == Tally(s.items, Sending) <= 1
    && (s.line.worker != [] ==> InPhase(s, s.line.worker[0], Sending))
    && s.line.accepted == s.line.taken + s.line.queue
    && AllItemsOk(c, s.items)
    && Tally(s.items, Waiting) + s.line.full + |s.line.accepted| == |s.items|
  }

  // Each recorded item has its one record, and there is no other.
  ghost predicate RecordsOk(s: State) {
    && (forall i :: 0 <= i < |s.records| ==> InPhase(s, s.records[i].id, Recorded(s.records[i].outcome)))
    && (forall i, j :: 0 <= i < j < |s.records| ==> s.records[i].id != s.records[j].id)
    && (forall id :: 0 <= id < |s.items| && s.items[id].phase.Recorded? ==>
          Record(id, s.items[id].phase.outcome) in s.records)
  }

  lemma WhatTheWorkerSees(c: Config, s: State)
    requires QueueOk(c, s)
    ensures s.line.queue != [] ==> InPhase(s, s.line.queue[0], Queued)
    ensures s.line.worker != [] ==> InPhase(s, s.line.worker[0], Sending) && ItemOk(c, s.items[s.line.worker[0]])
  {
  }

  // One item changed, from one phase to another.
  lemma {:induction false} Rephased(items: seq<Item>, id: nat, item: Item, phase: Phase)
    requires id < |items|
    ensures Tally(items[id := item], phase) + (if items[id].phase == phase then 1 else 0)
            == Tally(items, phase) + (if item.phase == phase then 1 else 0)
    decreases |items|
  {
    var n := |items| - 1;
    if id < n {
      assert items[id := item][..n] == items[..n][id := item];
      Rephased(items[..n], id, item, phase);
    } else {
      assert items[id := item][..n] == items[..n];
    }
  }

  lemma {:induction false} TallyPositive(items: seq<Item>, id: nat)
    requires id < |items|
    ensures Tally(items, items[id].phase) > 0
    decreases |items|
  {
    if id < |items| - 1 {
      TallyPositive(items[..|items| - 1], id);
    }
  }

  lemma RephasedThree(items: seq<Item>, id: nat, item: Item)
    requires id < |items|
    ensures forall phase :: phase == Waiting || phase == Queued || phase == Sending ==>
              Tally(items[id := item], phase) + (if items[id].phase == phase then 1 else 0)
              == Tally(items, phase) + (if item.phase == phase then 1 else 0)
  {
    Rephased(items, id, item, Waiting);
    Rephased(items, id, item, Queued);
    Rephased(items, id, item, Sending);
  }

  lemma OneItemOk(c: Config, items: seq<Item>, id: nat, item: Item)
    requires id < |items| && AllItemsOk(c, items) && ItemOk(c, item)
    ensures AllItemsOk(c, items[id := item])
  {
  }

  lemma OfferKeepsQueue(c: Config, s: State, id: nat, s': State)
    requires QueueOk(c, s) && Offers(c, s, id, s')
    ensures QueueOk(c, s')
  {
    RephasedThree(s.items, id, s'.items[id]);
    assert ItemOk(c, s.items[id]) && ItemOk(c, s'.items[id]);
    OneItemOk(c, s.items, id, s'.items[id]);
    hide ItemOk, Tally, AllItemsOk;
    assert s.line.accepted + [id] == s.line.taken + (s.line.queue + [id]);
  }

  lemma TakeKeepsQueue(c: Config, s: State, s': State)
    requires QueueOk(c, s) && Takes(c, s, s') && c.maxAttempts >= 1
    ensures QueueOk(c, s')
  {
    var id := s.line.queue[0];
    RephasedThree(s.items, id, s'.items[id]);
    assert ItemOk(c, s.items[id]) && ItemOk(c, s'.items[id]);
    OneItemOk(c, s.items, id, s'.items[id]);
    hide ItemOk, Tally, AllItemsOk;
    assert s.line.queue == [id] + s.line.queue[1..];
    assert s.line.taken + s.line.queue == (s.line.taken + [id]) + s.line.queue[1..];
  }

  lemma SentOne(c: Config, a: Item, ok: bool, b: Item)
    requires ItemOk(c, a) && a.phase == Sending && b.sends == a.sends + [ok] && b.bound == a.bound
    requires b.phase == if ok then Recorded(a.bound) else if |b.sends| >= c.maxAttempts then Recorded(Dropped)
        else Sending
    ensures ItemOk(c, b)
  {
    assert b.sends[..|b.sends| - 1] == a.sends;
  }

  lemma SendKeepsQueue(c: Config, s: State, ok: bool, s': State)
    requires QueueOk(c, s) && Sends(c, s, ok, s')
    ensures QueueOk(c, s')
  {
    var id := s.line.worker[0];
    SentOne(c, s.items[id], ok, s'.items[id]);
    OneItemOk(c, s.items, id, s'.items[id]);
    RephasedThree(s.items, id, s'.items[id]);
    hide ItemOk, AllItemsOk, Tally;
  }

  lemma NewItemKeepsQueue(c: Config, s: State, item: Item, s': State)
    requires QueueOk(c, s) && ItemOk(c, item) && item.phase == Waiting
    requires s'.items == s.items + [item] && s'.line == s.line
    ensures QueueOk(c, s')
  {
    assert AllItemsOk(c, s'.items);
    hide ItemOk, AllItemsOk;
    assert s'.items[..|s.items|] == s.items;
  }

  lemma ClassifyKeepsQueue(c: Config, s: State, e: Endpoint, key: CollapseKey, s': State)
    requires QueueOk(c, s) && Valid(s.ledger) && Classifies(s, e, key, s')
    ensures QueueOk(c, s')
  {
    ClassifiedEffect(s.ledger, e, key);
    hide Classified, Valid, Evicted, StartsOver, QueueOk;
    NewItemKeepsQueue(c, s, s'.items[|s.items|], s');
  }

  lemma PresentKeepsQueue(c: Config, s: State, e: Endpoint, key: CollapseKey, bound: Outcome, s': State)
    requires QueueOk(c, s) && Presents(s, e, key, bound, s')
    ensures QueueOk(c, s')
  {
    hide QueueOk;
    NewItemKeepsQueue(c, s, s'.items[|s.items|], s');
  }

  lemma StepKeepsQueue(c: Config, s: State, step: Step, s': State)
    requires QueueOk(c, s) && Valid(s.ledger) && Moves(c, s, step, s') && c.maxAttempts >= 1
    ensures QueueOk(c, s')
  {
    hide Valid, StartsOver, Tally, ItemOk;
    match step
    case ClassifyOne(e, key) => ClassifyKeepsQueue(c, s, e, key, s');
    case Present(e, key, bound) => PresentKeepsQueue(c, s, e, key, bound, s');
    case Offer(id) => OfferKeepsQueue(c, s, id, s');
    case Take => TakeKeepsQueue(c, s, s');
    case SendOne(ok) => SendKeepsQueue(c, s, ok, s');
    case Forget(e) =>
    case Close =>
  }

  lemma RecordingKeepsRecords(s: State, id: nat, outcome: Outcome, sends: seq<bool>, s': State)
    requires RecordsOk(s) && Records(s, id, outcome, sends, s') && !s.items[id].phase.Recorded?
    ensures RecordsOk(s')
  {
    assert s'.records[|s.records|] == Record(id, outcome);
  }

  lemma SameRecords(s: State, s': State)
    requires RecordsOk(s) && s'.records == s.records && |s.items| <= |s'.items|
    requires forall i :: 0 <= i < |s'.items| ==>
               if i < |s.items| && s.items[i].phase.Recorded? then s'.items[i].phase == s.items[i].phase
               else !s'.items[i].phase.Recorded?
    ensures RecordsOk(s')
  {
    assert forall i, o :: InPhase(s, i, Recorded(o)) ==> InPhase(s', i, Recorded(o));
  }

  lemma StepKeepsRecords(c: Config, s: State, step: Step, s': State)
    requires RecordsOk(s) && QueueOk(c, s) && Moves(c, s, step, s')
    ensures RecordsOk(s')
  {
    WhatTheWorkerSees(c, s);
    hide QueueOk, RecordsOk, StartsOver, ItemOk, Classified;
    match step
    case ClassifyOne(_, _) => SameRecords(s, s');
    case Present(_, _, _) => SameRecords(s, s');
    case Offer(id) =>
      if |s.line.queue| >= c.capacity {
        RecordingKeepsRecords(s, id, Dropped, s.items[id].sends, s');
      } else {
        SameRecords(s, s');
      }
    case Take =>
      var id := s.line.queue[0];
      if s.items[id].sub.provider !in c.senders {
        RecordingKeepsRecords(s, id, Dropped, s.items[id].sends, s');
      } else {
        SameRecords(s, s');
      }
    case SendOne(ok) =>
      var id := s.line.worker[0];
      var sends := s.items[id].sends + [ok];
      if ok || |sends| >= c.maxAttempts {
        RecordingKeepsRecords(s, id, if ok then s.items[id].bound else Dropped, sends, s');
      } else {
        SameRecords(s, s');
      }
    case Forget(_) => SameRecords(s, s');
    case Close => SameRecords(s, s');
  }

  // ---- over every run ------------------------------------------------------------------------------

  ghost predicate Inv(c: Config, s: State) {
    AccountsOk(s) && QueueOk(c, s) && RecordsOk(s)
  }

  lemma StepKeeps(c: Config, s: State, step: Step, s': State)
    requires Inv(c, s) && Moves(c, s, step, s') && c.maxAttempts >= 1
    ensures Inv(c, s')
  {
    assert Valid(s.ledger);
    hide AccountsOk, QueueOk, RecordsOk, Moves, Valid;
    StepKeepsAccounts(c, s, step, s');
    StepKeepsQueue(c, s, step, s');
    StepKeepsRecords(c, s, step, s');
  }

  lemma StartInv(c: Config)
    ensures Inv(c, START)
  {
    assert forall e, k :: Outstanding(START, e, k) == {};
  }

  lemma {:induction false} RunKeeps(c: Config, states: seq<State>, n: nat)
    requires Run(c, states) && states[0] == START && c.maxAttempts >= 1 && n < |states|
    ensures Inv(c, states[n])
    decreases n
  {
    hide Inv, Moves;
    if n == 0 {
      StartInv(c);
    } else {
      RunKeeps(c, states, n - 1);
      var step := RunStep(c, states, n);
      StepKeeps(c, states[n - 1], step, states[n]);
    }
  }

  lemma RunStep(c: Config, states: seq<State>, n: nat) returns (step: Step)
    requires Run(c, states) && 0 < n < |states|
    ensures Moves(c, states[n - 1], step, states[n])
  {
    hide Moves;
    assert Follows(c, states[n - 1], states[n]);
    step :| Moves(c, states[n - 1], step, states[n]);
  }

  // States of a system with room in its queue and at least one attempt, as the dispatcher is built.
  ghost predicate Reachable(c: Config, s: State) {
    && c.capacity >= 1 && c.maxAttempts >= 1
    && exists states {:trigger Run(c, states)} :: Run(c, states) && states[0] == START && states[|states| - 1] == s
  }

  lemma ReachableInv(c: Config, s: State)
    requires Reachable(c, s)
    ensures Inv(c, s)
  {
    var states :| Run(c, states) && states[0] == START && states[|states| - 1] == s;
    RunKeeps(c, states, |states| - 1);
  }

  /** The ledger never over-counts: the count of a key is at most the deliveries handed over for it since
      the account last started over and not dropped since, and exactly that number unless the endpoint is
      spoiled: its account was once emptied while one of them was still on its way, or a delivery that was
      never classified was offered to it. */
  lemma NeverOverCounts(c: Config, s: State, e: Endpoint, k: CollapseKey)
    requires Reachable(c, s)
    ensures Count(s.ledger, e, k) <= |Outstanding(s, e, k)|
    ensures e !in s.spoiled ==> Count(s.ledger, e, k) == |Outstanding(s, e, k)|
  {
    ReachableInv(c, s);
    if e !in s.spoiled {
      assert Unspoiled(s, e);
    }
  }

  /** The ledger keeps its shape over every run: the order repeats no endpoint and names exactly those with an
      account, at most 4096 of them, each with at most four keys, and every count is at least one. */
  lemma LedgerKeepsItsShape(c: Config, s: State, e: Endpoint, k: CollapseKey)
    requires Reachable(c, s)
    ensures NoRepeats(s.ledger.order) && |s.ledger.order| <= MAX_TRACKED_ENDPOINTS
    ensures e in s.ledger.pending <==> e in s.ledger.order
    ensures e in s.ledger.pending ==> |s.ledger.pending[e]| <= COLLAPSE_KEY_BOUND
    ensures e in s.ledger.pending && k in s.ledger.pending[e] ==> s.ledger.pending[e][k] >= 1
  {
    ReachableInv(c, s);
    hide QueueOk, RecordsOk;
    assert Valid(s.ledger);
  }

  /** An honest surplus: when a classification is beyond the bound, four distinct keys each have a delivery
      handed over for that endpoint since its account started over and not dropped at that moment. */
  lemma SurplusIsHonest(c: Config, s: State, e: Endpoint, key: CollapseKey, s': State)
    requires Reachable(c, s) && Classifies(s, e, key, s')
    requires s'.items[|s.items|].bound == BeyondCollapseBound
    ensures |Keys(s.ledger, e).Keys| == COLLAPSE_KEY_BOUND
    ensures forall k :: k in Keys(s.ledger, e).Keys ==> Outstanding(s, e, k) != {}
  {
    ReachableInv(c, s);
    ClassifiedEffect(s.ledger, e, key);
    KeysOfTracked(s.ledger, e);
    hide Valid, Classified, QueueOk, RecordsOk;
    assert |Keys(s.ledger, e).Keys| == |Keys(s.ledger, e)|;
    forall k | k in Keys(s.ledger, e).Keys ensures Outstanding(s, e, k) != {} {
      assert 1 <= Count(s.ledger, e, k) <= |Outstanding(s, e, k)|;
    }
  }

  /** Nothing upgrades an outcome: what is recorded for a delivery is `dropped` or its own classification,
      at whatever later moment of the run, and the classification never changes. */
  lemma NothingUpgrades(c: Config, states: seq<State>, m: nat, n: nat, id: nat)
    requires Run(c, states) && states[0] == START && c.maxAttempts >= 1
    requires m <= n < |states| && id < |states[m].items|
    ensures id < |states[n].items| && states[n].items[id].bound == states[m].items[id].bound
    ensures forall r :: r in states[n].records && r.id == id ==>
              r.outcome == Dropped || r.outcome == states[m].items[id].bound
  {
    BoundStays(c, states, m, n, id);
    RunKeeps(c, states, n);
    var s := states[n];
    forall r | r in s.records && r.id == id ensures r.outcome == Dropped || r.outcome == s.items[id].bound {
      assert InPhase(s, r.id, Recorded(r.outcome));
      assert ItemOk(c, s.items[id]);
    }
  }

  lemma StepGrows(c: Config, s: State, step: Step, s': State)
    requires Moves(c, s, step, s')
    ensures |s.items| <= |s'.items| && forall i :: 0 <= i < |s.items| ==> s'.items[i].bound == s.items[i].bound
  {
    hide Classified, StartsOver, TakenBack;
  }

  lemma {:induction false} BoundStays(c: Config, states: seq<State>, m: nat, n: nat, id: nat)
    requires Run(c, states) && m <= n < |states| && id < |states[m].items|
    ensures id < |states[n].items| && states[n].items[id].bound == states[m].items[id].bound
    decreases n - m
  {
    hide *;
    if m < n {
      BoundStays(c, states, m, n - 1, id);
      var step := RunStep(c, states, n);
      StepGrows(c, states[n - 1], step, states[n]);
    }
  }

  // Everything offered, the queue closed and run dry.
  ghost predicate Drained(s: State) {
    s.line.closed && s.line.queue == [] && s.line.worker == [] && Tally(s.items, Waiting) == 0
  }

  /** Conservation: once Close has drained everything offered, each delivery has exactly one record. It is
      the classification, after a last Send that succeeded, or `dropped`, with no Send that did; never more
      than maxAttempts sends. What was accepted was taken first in, first out; what was not was dropped at
      the full queue. */
  lemma EveryDeliveryAccounted(c: Config, s: State, id: nat)
    requires Reachable(c, s) && Drained(s) && id < |s.items|
    ensures exists o ::
              && Record(id, o) in s.records
              && (forall r :: r in s.records && r.id == id ==> r.outcome == o)
              && (o == Dropped || o == s.items[id].bound)
              && (o != Dropped <==> true in s.items[id].sends)
    ensures forall i, j :: 0 <= i < j < |s.records| ==> s.records[i].id != s.records[j].id
    ensures |s.items[id].sends| <= c.maxAttempts
    ensures s.line.taken == s.line.accepted && s.line.full + |s.line.accepted| == |s.items|
  {
    ReachableInv(c, s);
    hide AccountsOk;
    var item := s.items[id];
    assert ItemOk(c, item);
    TallyPositive(s.items, id);
    var o := item.phase.outcome;
    assert Record(id, o) in s.records;
    forall r | r in s.records && r.id == id ensures r.outcome == o {
      var i :| 0 <= i < |s.records| && s.records[i] == r;
      assert InPhase(s, r.id, Recorded(r.outcome));
    }
  }

  /** At every moment the queue is within its capacity, one delivery at most is being sent, and the order
      of acceptance is the order of service. */
  lemma QueueBoundedAndFair(c: Config, s: State)
    requires Reachable(c, s)
    ensures |s.line.queue| <= c.capacity && s.line.taken + s.line.queue == s.line.accepted && |s.line.worker| <= 1
  {
    ReachableInv(c, s);
  }

  // ---- the exact bound can be missed ------------------------------------------------------------------

  lemma FirstKey(e: Endpoint, k: CollapseKey)
    ensures Classified(NO_PENDING, e, k) == (Ledger(map[e := map[k := 1]], [e]), HandedOver)
    ensures Forgotten(Ledger(map[e := map[k := 1]], [e]), e) == NO_PENDING
    ensures TakenBack(Ledger(map[e := map[k := 1]], [e]), e, k) == Ledger(map[e := map[]], [e])
    ensures Evicted(NO_PENDING, e) == {}
  {
    FirstTracked(e);
    var tracked := Ledger(map[e := map[]], [e]);
    assert Keys(tracked, e) == map[] && map[e := map[]][e := map[k := 1]] == map[e := map[k := 1]];
    assert (map[k := 1] - {k}) == map[];
    hide Track;
  }

  lemma FirstTracked(e: Endpoint)
    ensures Track(NO_PENDING, e) == Ledger(map[e := map[]], [e])
  {
    Untrimmed(Ledger(map[e := map[]], [e]));
    hide Trimmed;
  }

  // One delivery queued, the endpoint registered again, one more crossing of the same key; no sender.
  ghost function Round(e: Endpoint, k: CollapseKey, i: nat): State {
    var one := Ledger(map[e := map[k := 1]], [e]);
    var queued := Line([0], [], false, 0, [0], []);
    var first := Item(e, k, HandedOver, 0, Queued, []);
    var second := Item(e, k, HandedOver, 1, Waiting, []);
    if i == 0 then START
    else if i == 1 then State(one, map[], {}, [first.(phase := Waiting)], START.line, [])
    else if i == 2 then State(one, map[], {}, [first], queued, [])
    else if i == 3 then State(NO_PENDING, map[e := 1], {e}, [first], queued, [])
    else if i == 4 then State(one, map[e := 1], {e}, [first, second], queued, [])
    else State(Ledger(map[e := map[]], [e]), map[e := 1], {e}, [first.(phase := Recorded(Dropped)), second],
               Line([], [], false, 0, [0], [0]), [Record(0, Dropped)])
  }

  const BARE := Config(1, 1, {})

  lemma RoundClassifies(e: Endpoint, k: CollapseKey)
    ensures Moves(BARE, Round(e, k, 0), ClassifyOne(e, k), Round(e, k, 1))
    ensures Moves(BARE, Round(e, k, 3), ClassifyOne(e, k), Round(e, k, 4))
  {
    FirstKey(e, k);
    hide Classified, Evicted;
    assert Round(e, k, 3).items + [Item(e, k, HandedOver, 1, Waiting, [])] == Round(e, k, 4).items;
  }

  lemma RoundGoesOn(e: Endpoint, k: CollapseKey)
    ensures Moves(BARE, Round(e, k, 1), Offer(0), Round(e, k, 2))
    ensures Moves(BARE, Round(e, k, 2), Forget(e), Round(e, k, 3))
  {
    FirstKey(e, k);
    hide Forgotten;
    assert OnItsWay(Round(e, k, 2), e, 0);
  }

  lemma RoundDrops(e: Endpoint, k: CollapseKey)
    ensures Moves(BARE, Round(e, k, 4), Take, Round(e, k, 5))
  {
    FirstKey(e, k);
    hide TakenBack;
    assert Round(e, k, 4).items[0 := Round(e, k, 5).items[0]] == Round(e, k, 5).items;
  }

  lemma RoundsRun(e: Endpoint, k: CollapseKey, states: seq<State>)
    requires |states| == 6 && forall i :: 0 <= i < 6 ==> states[i] == Round(e, k, i)
    ensures Run(BARE, states)
  {
    RoundClassifies(e, k);
    RoundGoesOn(e, k);
    RoundDrops(e, k);
    hide Moves, Round;
    forall i | 0 < i < |states| ensures Follows(BARE, states[i - 1], states[i]) {
      assert i == 1 || i == 2 || i == 3 || i == 4 || i == 5;
    }
  }

  /** The count can fall short: a delivery classified before its account was emptied takes back, when it is
      dropped, a count that a later delivery of the same key had made. */
  lemma StaleTakeBackUndercounts(e: Endpoint, k: CollapseKey)
    ensures exists c, s ::
              Reachable(c, s) && e in s.spoiled && Count(s.ledger, e, k) == 0 && |Outstanding(s, e, k)| == 1
  {
    var states := [Round(e, k, 0), Round(e, k, 1), Round(e, k, 2), Round(e, k, 3), Round(e, k, 4), Round(e, k, 5)];
    RoundsRun(e, k, states);
    var s := Round(e, k, 5);
    assert Reachable(BARE, s) by {
      hide Run, Round;
      assert Round(e, k, 0) == states[0] && states[|states| - 1] == s;
      assert Run(BARE, states) && states[0] == START;
    }
    assert Outstanding(s, e, k) == {1} by {
      assert forall i :: Counted(s, e, k, i) <==> i == 1;
    }
  }
}
