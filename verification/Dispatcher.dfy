/**
The bounded, retrying queue and the notifier in front of it, as objects.

A `Dispatcher` owns a ledger, a queue and the outcome log.  Its ghost `run` is a run of the step system:
`Valid` says that the object's fields are what the last state of that run says, so whatever holds of
every reachable state of the system holds of the object.
*/
module PushDispatcher {
  import opened PushLedger
  import opened PushSystem

  // What a classification can say; `dropped` is only ever recorded.
  type Bound = o: Outcome | o != Dropped witness HandedOver

  datatype Classification = Unset | Set(outcome: Bound)

  datatype Delivery = Delivery(sub: Endpoint, key: CollapseKey, bound: Classification)

  // An unset classification reads as the under-claiming default.
  function BoundOrDefault(d: Delivery): Bound {
    if d.bound.Unset? then HandedOver else d.bound.outcome
  }

  datatype Entry = Entry(delivery: Delivery, outcome: Outcome)

  // The step system's next state when a crossing is classified.
  ghost function AfterClassify(s: State, e: Endpoint, key: CollapseKey): State {
    var (ledger, bound) := Classified(s.ledger, e, key);
    var epoch := NextEpoch(s, Evicted(s.ledger, e));
    State(ledger, epoch, NextSpoiled(s, Evicted(s.ledger, e)),
          s.items + [Item(e, key, bound, if e in epoch then epoch[e] else 0, Waiting, [])], s.line, s.records)
  }

  // And when a delivery comes that was never classified.
  ghost function AfterPresent(s: State, d: Delivery): State {
    s.(spoiled := s.spoiled + {d.sub},
       items := s.items + [Item(d.sub, d.key, BoundOrDefault(d), UNCLASSIFIED, Waiting, [])])
  }

  // What the worker is sending is left alone.
  ghost predicate SameWork(s: State, s': State) {
    && s'.line.worker == s.line.worker
    && (s.line.worker != [] ==>
          s.line.worker[0] < |s.items| && s.line.worker[0] < |s'.items|
          && s'.items[s.line.worker[0]] == s.items[s.line.worker[0]])
  }

  lemma WorkOf(c: Config, s: State)
    requires Reachable(c, s)
    ensures SameWork(s, s) && (s.line.worker != [] ==> s.items[s.line.worker[0]].phase == Sending)
  {
    ReachableInv(c, s);
    WhatTheWorkerSees(c, s);
  }

  // The worker's own variables: the delivery it is sending, if it is sending one, tried so often already.
  ghost predicate SendingOk(c: Config, sending: seq<Delivery>, tried: nat, s: State) {
    && |sending| <= 1 && AllItems(sending, s, s.line.worker)
    && (sending != [] ==>
          && IsItem(sending[0], s, s.line.worker[0]) && sending[0].sub.provider in c.senders
          && tried == |s.items[s.line.worker[0]].sends| < c.maxAttempts)
  }

  lemma SendingStays(c: Config, sending: seq<Delivery>, tried: nat, s: State, s': State)
    requires SendingOk(c, sending, tried, s) && SameWork(s, s')
    ensures SendingOk(c, sending, tried, s')
  {
  }

  lemma ClassifyMoves(c: Config, s: State, e: Endpoint, key: CollapseKey)
    ensures Moves(c, s, ClassifyOne(e, key), AfterClassify(s, e, key))
  {
    hide Classified, Evicted;
  }

  ghost predicate IsItem(d: Delivery, s: State, id: nat) {
    && id < |s.items|
    && s.items[id].sub == d.sub && s.items[id].key == d.key && s.items[id].bound == BoundOrDefault(d)
  }

  lemma ItemStays(d: Delivery, c: Config, s: State, step: Step, s': State, id: nat)
    requires Moves(c, s, step, s') && IsItem(d, s, id)
    ensures IsItem(d, s', id)
  {
    hide Classified, StartsOver, TakenBack;
  }

  ghost predicate AllItems(ds: seq<Delivery>, s: State, ids: seq<nat>) {
    |ds| == |ids| && forall i :: 0 <= i < |ds| ==> IsItem(ds[i], s, ids[i])
  }

  ghost predicate LogMatches(log: seq<Entry>, s: State) {
    && |log| == |s.records|
    && forall i :: 0 <= i < |log| ==>
         IsItem(log[i].delivery, s, s.records[i].id) && log[i].outcome == s.records[i].outcome
  }

  lemma AllItemsStay(ds: seq<Delivery>, c: Config, s: State, step: Step, s': State, ids: seq<nat>)
    requires Moves(c, s, step, s') && AllItems(ds, s, ids)
    ensures AllItems(ds, s', ids)
  {
    hide Moves;
    forall i | 0 <= i < |ds| ensures IsItem(ds[i], s', ids[i]) {
      ItemStays(ds[i], c, s, step, s', ids[i]);
    }
  }

  lemma LogStays(log: seq<Entry>, c: Config, s: State, step: Step, s': State)
    requires Moves(c, s, step, s') && LogMatches(log, s)
    requires s.records <= s'.records
    ensures forall i :: 0 <= i < |log| ==>
              IsItem(log[i].delivery, s', s'.records[i].id) && log[i].outcome == s'.records[i].outcome
  {
    hide Moves;
    forall i | 0 <= i < |log| ensures IsItem(log[i].delivery, s', s'.records[i].id) {
      ItemStays(log[i].delivery, c, s, step, s', s.records[i].id);
    }
  }

  // ---- what a call does, on values -----------------------------------------------------------------

  datatype Pair = Pair(key: CollapseKey, sub: Endpoint)

  // Every crossing at every endpoint, crossing by crossing.
  function Pairs(keys: seq<CollapseKey>, subs: seq<Endpoint>): seq<Pair> {
    if keys == [] then [] else Pairs(keys[..|keys| - 1], subs) + Row(keys[|keys| - 1], subs, |subs|)
  }

  function Row(key: CollapseKey, subs: seq<Endpoint>, n: nat): seq<Pair>
    requires n <= |subs|
  {
    seq(n, j requires 0 <= j < n => Pair(key, subs[j]))
  }

  // The pairs classified one after the other, before any is offered to the queue.
  function ClassifyAll(l: Ledger, pairs: seq<Pair>): (Ledger, seq<Delivery>) {
    if pairs == [] then (l, [])
    else
      var (before, ds) := ClassifyAll(l, pairs[..|pairs| - 1]);
      var p := pairs[|pairs| - 1];
      var (after, outcome) := Classified(before, p.sub, p.key);
      (after, ds + [Delivery(p.sub, p.key, Set(outcome))])
  }

  // One crossing at the first j endpoints, and the first i crossings at all of them.
  function ClassifyRow(from: (Ledger, seq<Delivery>), key: CollapseKey, subs: seq<Endpoint>, j: nat)
    : (Ledger, seq<Delivery>)
    requires j <= |subs|
  {
    if j == 0 then from
    else
      var (before, ds) := ClassifyRow(from, key, subs, j - 1);
      var (after, outcome) := Classified(before, subs[j - 1], key);
      (after, ds + [Delivery(subs[j - 1], key, Set(outcome))])
  }

  function ClassifyRows(l: Ledger, keys: seq<CollapseKey>, subs: seq<Endpoint>, i: nat): (Ledger, seq<Delivery>)
    requires i <= |keys|
  {
    if i == 0 then (l, []) else ClassifyRow(ClassifyRows(l, keys, subs, i - 1), keys[i - 1], subs, |subs|)
  }

  function TakeBack(l: Ledger, d: Delivery): Ledger {
    if BoundOrDefault(d) == HandedOver then TakenBack(l, d.sub, d.key) else l
  }

  function TakeBackAll(l: Ledger, ds: seq<Delivery>): Ledger {
    if ds == [] then l else TakeBack(TakeBackAll(l, ds[..|ds| - 1]), ds[|ds| - 1])
  }

  function DroppedEntries(ds: seq<Delivery>): seq<Entry> {
    seq(|ds|, i requires 0 <= i < |ds| => Entry(ds[i], Dropped))
  }

  // What the queue, the counter, the log and the ledger hold.
  datatype Books = Books(queue: seq<Delivery>, dropped: nat, log: seq<Entry>, ledger: Ledger)

  function AfterOffer(capacity: nat, b: Books, d: Delivery): Books {
    if |b.queue| < capacity then b.(queue := b.queue + [d])
    else Books(b.queue, b.dropped + 1, b.log + [Entry(d, Dropped)], TakeBack(b.ledger, d))
  }

  // The first n of `ds` offered, one after the other.
  function AfterOffers(capacity: nat, b: Books, ds: seq<Delivery>, n: nat): Books
    requires n <= |ds|
  {
    if n == 0 then b else AfterOffer(capacity, AfterOffers(capacity, b, ds, n - 1), ds[n - 1])
  }

  // How many of `offered` deliveries a queue of that length still has room for.
  function Room(capacity: nat, length: nat, offered: nat): nat {
    if length + offered <= capacity then offered else if length <= capacity then capacity - length else 0
  }

  // Classified, and not yet offered to the queue.
  ghost predicate IsWaiting(d: Delivery, s: State, id: nat) {
    IsItem(d, s, id) && s.items[id].phase == Waiting
  }

  // Of the first n items, each has been offered to the queue.
  ghost predicate AllOffered(s: State, n: nat) {
    n <= |s.items| && forall i :: 0 <= i < n ==> s.items[i].phase != Waiting
  }

  // `ds` are the newest items, from the first on still to be offered.
  ghost predicate NewlyClassified(ds: seq<Delivery>, s: State, first: nat) {
    && |s.items| == first + |ds| && AllOffered(s, first)
    && forall i :: 0 <= i < |ds| ==> IsWaiting(ds[i], s, first + i)
  }

  ghost predicate OthersSame(s: State, s': State, id: nat) {
    |s'.items| == |s.items| && forall i :: 0 <= i < |s.items| && i != id ==> s'.items[i] == s.items[i]
  }

  lemma NewestOffered(ds: seq<Delivery>, s: State, s': State, first: nat)
    requires ds != [] && NewlyClassified(ds, s, first) && OthersSame(s, s', first)
    requires s'.items[first].phase != Waiting
    ensures NewlyClassified(ds[1..], s', first + 1)
  {
    forall i | 0 <= i < |ds[1..]| ensures IsWaiting(ds[1..][i], s', first + 1 + i) {
      assert IsWaiting(ds[i + 1], s, first + (i + 1));
    }
  }

  lemma OneMoreClassified(ds: seq<Delivery>, s: State, s': State, first: nat, d: Delivery)
    requires NewlyClassified(ds, s, first) && s.items <= s'.items && |s'.items| == |s.items| + 1
    requires IsWaiting(d, s', |s.items|)
    ensures NewlyClassified(ds + [d], s', first)
  {
    forall i | 0 <= i < |ds| ensures IsWaiting(ds[i], s', first + i) {
      assert IsWaiting(ds[i], s, first + i);
    }
  }

  // The sender's answers to the attempts, counted from one; a `nat -> bool` says which succeed.
  ghost predicate TakenWithin(answers: nat -> bool, tried: nat, attempts: nat) {
    exists n: nat :: tried < n <= attempts && answers(n)
  }

  // Whether the backend takes the delivery at all, once it has refused it `tried` times.
  ghost predicate Accepted(c: Config, d: Delivery, tried: nat, answers: nat -> bool) {
    d.sub.provider in c.senders && TakenWithin(answers, tried, c.maxAttempts)
  }

  ghost function Settlement(c: Config, d: Delivery, tried: nat, answers: nat -> bool): Entry {
    Entry(d, if Accepted(c, d, tried, answers) then BoundOrDefault(d) else Dropped)
  }

  ghost function Resettled(c: Config, l: Ledger, d: Delivery, tried: nat, answers: nat -> bool): Ledger {
    if Accepted(c, d, tried, answers) then l else TakeBack(l, d)
  }

  ghost function Settlements(c: Config, ds: seq<Delivery>, answers: nat -> nat -> bool): seq<Entry> {
    seq(|ds|, i requires 0 <= i < |ds| => Settlement(c, ds[i], 0, answers(i)))
  }

  // The first n of `ds` served, one after the other.
  ghost function AfterServing(c: Config, b: Books, ds: seq<Delivery>, answers: nat -> nat -> bool, n: nat): Books
    requires n <= |ds|
  {
    if n == 0 then b
    else
      var before := AfterServing(c, b, ds, answers, n - 1);
      Books(ds[n..], b.dropped, before.log + [Settlement(c, ds[n - 1], 0, answers(n - 1))],
            Resettled(c, before.ledger, ds[n - 1], 0, answers(n - 1)))
  }

  // Those the backend did not take.
  ghost function Rejected(c: Config, ds: seq<Delivery>, answers: nat -> nat -> bool): seq<Delivery> {
    if ds == [] then []
    else
      var before := Rejected(c, ds[..|ds| - 1], answers);
      var d := ds[|ds| - 1];
      if Accepted(c, d, 0, answers(|ds| - 1)) then before else before + [d]
  }

  class Dispatcher {
    const config: Config
    const ledger: DeliveryLedger
    var queue: seq<Delivery>
    var dropped: nat
    var log: seq<Entry>
    var sending: seq<Delivery>
    var tried: nat
    ghost var run: seq<State>

    ghost function S(): State
      requires run != []
      reads this
    {
      run[|run| - 1]
    }

    ghost predicate Valid()
      reads this, ledger
      ensures Valid() ==> run != []
    {
      && config.capacity >= 1 && config.maxAttempts >= 1
      && Run(config, run) && run[0] == START
      && ledger.Model() == S().ledger
      && AllItems(queue, S(), S().line.queue)
      && dropped == S().line.full
      && LogMatches(log, S())
      && SendingOk(config, sending, tried, S())
    }

    /** Settings below one are treated as one. */
    constructor (maxPending: nat, maxAttempts: nat, senders: set<Provider>)
      ensures Valid() && fresh(ledger)
      ensures queue == [] && log == [] && dropped == 0 && sending == [] && S() == START
      ensures config == Config(if maxPending < 1 then 1 else maxPending,
                               if maxAttempts < 1 then 1 else maxAttempts, senders)
    {
      config := Config(if maxPending < 1 then 1 else maxPending, if maxAttempts < 1 then 1 else maxAttempts, senders);
      ledger := new DeliveryLedger();
      queue := [];
      dropped := 0;
      log := [];
      sending, tried := [], 0;
      run := [START];
    }

    /** Whatever is proved of reachable states holds of a valid dispatcher. */
    lemma IsReachable()
      requires Valid()
      ensures Reachable(config, S())
    {
    }

    // The object moves as one step of the system does.
    ghost method Advance(step: Step, s': State)
      requires run != [] && Run(config, run) && run[0] == START && Moves(config, S(), step, s')
      modifies this`run
      ensures Run(config, run) && run[0] == START && S() == s' && run == old(run) + [s']
    {
      assert Follows(config, S(), s');
      run := run + [s'];
    }

    ghost function Now(): Books
      reads this, ledger
    {
      Books(queue, dropped, log, ledger.Model())
    }

    // Every delivery that came has been offered.
    ghost predicate Settled()
      reads this, ledger
      ensures Settled() ==> Valid()
    {
      Valid() && AllOffered(S(), |S().items|)
    }

    // And the worker is between deliveries.
    ghost predicate Idle()
      reads this, ledger
      ensures Idle() ==> Settled() && Valid()
    {
      Settled() && sending == []
    }

    // Classify one pair.
    method ClassifyPair(e: Endpoint, key: CollapseKey) returns (d: Delivery)
      requires Valid()
      modifies this`run, ledger
      ensures Valid() && S().line == old(S().line)
      ensures var (l, o) := Classified(old(ledger.Model()), e, key);
              ledger.Model() == l && d == Delivery(e, key, Set(o))
      ensures old(S().items) <= S().items && |S().items| == |old(S().items)| + 1
      ensures IsWaiting(d, S(), |old(S().items)|)
    {
      ghost var s := S();
      ReachableInv(config, s);
      var bound := ledger.Classify(e, key);
      hide Classified, Moves, StartsOver, Evicted, Inv;
      d := Delivery(e, key, Set(bound));
      ghost var s' := AfterClassify(s, e, key);
      ghost var step := ClassifyOne(e, key);
      ClassifyMoves(config, s, e, key);
      AllItemsStay(queue, config, s, step, s', s.line.queue);
      LogStays(log, config, s, step, s');
      SendingStays(config, sending, tried, s, s');
      Advance(step, s');
    }

    // Account for a delivery that was never classified.
    ghost method PresentOne(d: Delivery)
      requires Valid()
      modifies this`run
      ensures Valid() && S().line == old(S().line)
      ensures old(S().items) <= S().items && |S().items| == |old(S().items)| + 1
      ensures IsWaiting(d, S(), |old(S().items)|)
    {
      var s := S();
      hide Moves;
      var s' := AfterPresent(s, d);
      var step := Present(d.sub, d.key, BoundOrDefault(d));
      PresentMoves(config, s, d);
      AllItemsStay(queue, config, s, step, s', s.line.queue);
      LogStays(log, config, s, step, s');
      SendingStays(config, sending, tried, s, s');
      Advance(step, s');
    }

    ghost method PresentAll(ds: seq<Delivery>)
      requires Settled()
      modifies this`run
      ensures Valid() && S().line == old(S().line) && NewlyClassified(ds, S(), old(|S().items|))
    {
      hide Valid, NewlyClassified, IsWaiting;
      var first := |S().items|;
      NoneYet(S());
      for i := 0 to |ds|
        invariant Valid() && S().line == old(S().line) && NewlyClassified(ds[..i], S(), first)
      {
        var before := S();
        PresentOne(ds[i]);
        OneMoreClassified(ds[..i], before, S(), first, ds[i]);
        assert ds[..i + 1] == ds[..i] + [ds[i]];
      }
      assert ds[..|ds|] == ds;
    }

    // Offer one delivery to the queue without blocking.
    method OfferOne(d: Delivery, ghost id: nat)
      requires Valid() && !S().line.closed && IsWaiting(d, S(), id)
      modifies this`queue, this`dropped, this`log, this`run, ledger
      ensures Valid() && !S().line.closed
      ensures OthersSame(old(S()), S(), id) && S().items[id].phase != Waiting
      ensures Now() == AfterOffer(config.capacity, old(Now()), d)
    {
      hide Classified, TakenBack;
      ghost var s := S();
      WorkOf(config, s);
      ghost var item := s.items[id];
      ghost var s';
      if |queue| < config.capacity {
        queue := queue + [d];
        s' := State(s.ledger, s.epoch, s.spoiled, s.items[id := item.(phase := Queued)],
                    s.line.(queue := s.line.queue + [id], accepted := s.line.accepted + [id]), s.records);
      } else {
        dropped := dropped + 1;
        NotHandedOver(d);
        log := log + [Entry(d, Dropped)];
        s' := State(ledger.Model(), s.epoch, s.spoiled, s.items[id := item.(phase := Recorded(Dropped))],
                    s.line.(full := s.line.full + 1), s.records + [Record(id, Dropped)]);
      }
      assert Moves(config, s, Offer(id), s');
      AllItemsStay(old(queue), config, s, Offer(id), s', s.line.queue);
      LogStays(old(log), config, s, Offer(id), s');
      ItemStays(d, config, s, Offer(id), s', id);
      SendingStays(config, sending, tried, s, s');
      Advance(Offer(id), s');
    }

    // Take back the pending record a delivery's classification made, if it made one.
    method NotHandedOver(d: Delivery)
      modifies ledger
      ensures ledger.Model() == TakeBack(old(ledger.Model()), d)
    {
      if BoundOrDefault(d) != HandedOver {
        return;
      }
      ledger.NotHandedOver(d.sub, d.key);
    }

    /** Offer deliveries without blocking: as many as there is room for join the queue, in order; each of
        the rest is counted, its pending record taken back, and recorded as dropped. */
    method Enqueue(ds: seq<Delivery>)
      requires Settled() && !S().line.closed
      modifies this`queue, this`dropped, this`log, this`run, ledger
      ensures Settled() && !S().line.closed
      ensures Offered(ds, old(ledger.Model()))
    {
      hide Valid, Settled, NewlyClassified, Room, DroppedEntries, TakeBackAll;
      ghost var first := |S().items|;
      PresentAll(ds);
      OfferAll(ds, first);
    }

    // The same, of deliveries that are accounted for: the newest items, from the one numbered `first` on.
    method OfferAll(ds: seq<Delivery>, ghost first: nat)
      requires Valid() && !S().line.closed && NewlyClassified(ds, S(), first)
      modifies this`queue, this`dropped, this`log, this`run, ledger
      ensures Settled() && !S().line.closed
      ensures Offered(ds, old(ledger.Model()))
    {
      hide IsItem, IsWaiting, OthersSame, Valid, AfterOffer;
      for i := 0 to |ds|
        invariant Valid() && !S().line.closed
        invariant NewlyClassified(ds[i..], S(), first + i)
        invariant Now() == AfterOffers(config.capacity, old(Now()), ds, i)
      {
        label before:
        assert IsWaiting(ds[i..][0], S(), first + i);
        OfferOne(ds[i], first + i);
        NewestOffered(ds[i..], old@before(S()), S(), first + i);
        assert ds[i..][1..] == ds[i + 1..];
      }
      OffersInBulk(config.capacity, old(Now()), ds, |ds|);
      var r := Room(config.capacity, |old(queue)|, |ds|);
      assert ds[r..|ds|] == ds[r..];
    }

    // How the object differs from its old self once `ds` have been offered to it, over a ledger `l`.
    twostate predicate Offered(ds: seq<Delivery>, l: Ledger)
      reads this, ledger
    {
      var r := Room(config.capacity, |old(queue)|, |ds|);
      && queue == old(queue) + ds[..r]
      && dropped == old(dropped) + |ds| - r
      && log == old(log) + DroppedEntries(ds[r..])
      && ledger.Model() == TakeBackAll(l, ds[r..])
    }

    /** Fan crossings out over the family's endpoints: every pair is classified before any is offered.
        A failed lookup, no crossing or no endpoint changes nothing. */
    method NotifyGeofenceEvents(keys: seq<CollapseKey>, lookup: Lookup)
      requires Settled() && !S().line.closed
      modifies this`queue, this`dropped, this`log, this`run, ledger
      ensures Settled() && !S().line.closed
      ensures var (l, ds) := ClassifyAll(old(ledger.Model()), if lookup.Found? then Pairs(keys, lookup.subs) else []);
              Offered(ds, l)
    {
      if |keys| == 0 || lookup.Failed? || |lookup.subs| == 0 {
        NoPairs(keys, if lookup.Found? then lookup.subs else []);
        return;
      }
      ghost var first := |S().items|;
      var ds := ClassifyEvery(keys, lookup.subs);
      OfferAll(ds, first);
    }

    // Classify every pair, crossing by crossing, offering none yet.
    method ClassifyEvery(keys: seq<CollapseKey>, subs: seq<Endpoint>) returns (ds: seq<Delivery>)
      requires Settled()
      modifies this`run, ledger
      ensures Valid() && S().line == old(S().line) && NewlyClassified(ds, S(), old(|S().items|))
      ensures (ledger.Model(), ds) == ClassifyAll(old(ledger.Model()), Pairs(keys, subs))
    {
      ds := [];
      ghost var first := |S().items|;
      NoneYet(S());
      hide Valid, NewlyClassified, IsWaiting, Classified, Pairs, ClassifyAll;
      for i := 0 to |keys|
        invariant Valid() && S().line == old(S().line) && NewlyClassified(ds, S(), first)
        invariant (ledger.Model(), ds) == ClassifyRows(old(ledger.Model()), keys, subs, i)
      {
        ghost var row := (ledger.Model(), ds);
        for j := 0 to |subs|
          invariant Valid() && S().line == old(S().line) && NewlyClassified(ds, S(), first)
          invariant (ledger.Model(), ds) == ClassifyRow(row, keys[i], subs, j)
        {
          ghost var before := S();
          var d := ClassifyPair(subs[j], keys[i]);
          OneMoreClassified(ds, before, S(), first, d);
          ds := ds + [d];
        }
      }
      RowsAsPairs(old(ledger.Model()), keys, subs, |keys|);
      assert keys[..|keys|] == keys;
    }

    /** The worker takes the oldest delivery and tries it, as often as the configuration allows, until the
        backend takes it; `answers` is what the backend says to each attempt.  `sends` counts the attempts. */
    method DeliverNext(answers: nat -> bool) returns (sends: nat)
      requires Idle() && queue != []
      modifies this, ledger
      ensures Idle() && S().line.closed == old(S().line.closed)
      ensures queue == old(queue)[1..] && dropped == old(dropped)
      ensures log == old(log) + [Settlement(config, old(queue)[0], 0, answers)]
      ensures ledger.Model() == Resettled(config, old(ledger.Model()), old(queue)[0], 0, answers)
      ensures if old(queue)[0].sub.provider in config.senders then EndsAt(answers, 0, sends) else sends == 0
    {
      if queue[0].sub.provider !in config.senders {
        NoSender();
        return 0;
      }
      hide TakeBack, TakenWithin;
      Begin();
      sends := Finish(answers);
    }

    // The attempts end with this one: the first the backend takes, or the last there is.
    ghost predicate EndsAt(answers: nat -> bool, before: nat, sends: nat)
      reads this
    {
      && before < sends <= config.maxAttempts && !TakenWithin(answers, before, sends - 1)
      && (answers(sends) || sends == config.maxAttempts)
    }

    // The worker goes on with the delivery it is sending until that one has its outcome.
    method Finish(answers: nat -> bool) returns (sends: nat)
      requires Settled() && sending != []
      modifies this, ledger
      ensures Idle() && S().line.closed == old(S().line.closed)
      ensures queue == old(queue) && dropped == old(dropped)
      ensures log == old(log) + [Settlement(config, old(sending)[0], old(tried), answers)]
      ensures ledger.Model() == Resettled(config, old(ledger.Model()), old(sending)[0], old(tried), answers)
      ensures EndsAt(answers, old(tried), sends)
    {
      hide Valid, TakeBack, AllOffered;
      SendingNow();
      for attempt := tried + 1 to config.maxAttempts + 1
        invariant Settled() && S().line.closed == old(S().line.closed)
        invariant sending == old(sending) && tried == attempt - 1 && !TakenWithin(answers, old(tried), attempt - 1)
        invariant queue == old(queue) && dropped == old(dropped) && log == old(log)
        invariant ledger.Model() == old(ledger.Model()) && attempt <= config.maxAttempts
      {
        var ok := answers(attempt);
        Send(ok);
        if ok || attempt == config.maxAttempts {
          return attempt;
        }
      }
    }

    lemma SendingNow()
      requires Valid() && sending != []
      ensures tried < config.maxAttempts && sending[0].sub.provider in config.senders
    {
    }

    // A delivery for a backend this deployment does not have: dropped, and the worker goes on.
    method NoSender()
      requires Idle() && queue != [] && queue[0].sub.provider !in config.senders
      modifies this`queue, this`log, this`run, ledger
      ensures Idle() && S().line.closed == old(S().line.closed)
      ensures queue == old(queue)[1..] && log == old(log) + [Entry(old(queue)[0], Dropped)]
      ensures ledger.Model() == TakeBack(old(ledger.Model()), old(queue)[0])
    {
      hide Classified, TakenBack;
      ghost var s := S();
      var d := queue[0];
      ghost var id := s.line.queue[0];
      queue := queue[1..];
      NotHandedOver(d);
      log := log + [Entry(d, Dropped)];
      ghost var s' := State(ledger.Model(), s.epoch, s.spoiled, s.items[id := s.items[id].(phase := Recorded(Dropped))],
                            s.line.(queue := s.line.queue[1..], taken := s.line.taken + [id]),
                            s.records + [Record(id, Dropped)]);
      assert IsItem(d, s, id);
      assert Moves(config, s, PushSystem.Take, s');
      AllItemsStay(old(queue), config, s, PushSystem.Take, s', s.line.queue);
      LogStays(old(log), config, s, PushSystem.Take, s');
      Advance(PushSystem.Take, s');
    }

    // The worker takes the oldest delivery.
    method Begin()
      requires Idle() && queue != [] && queue[0].sub.provider in config.senders
      modifies this`queue, this`sending, this`tried, this`run
      ensures Settled() && S().line.closed == old(S().line.closed)
      ensures queue == old(queue)[1..] && sending == [old(queue)[0]] && tried == 0
      ensures ledger.Model() == old(ledger.Model())
    {
      hide Classified, TakenBack;
      ghost var s := S();
      var d := queue[0];
      ghost var id := s.line.queue[0];
      queue := queue[1..];
      sending, tried := [d], 0;
      ghost var s' := State(s.ledger, s.epoch, s.spoiled, s.items[id := s.items[id].(phase := Sending)],
                            s.line.(queue := s.line.queue[1..], taken := s.line.taken + [id], worker := [id]),
                            s.records);
      assert IsItem(d, s, id);
      QueuedUnsent(config, s);
      assert Moves(config, s, PushSystem.Take, s');
      AllItemsStay(old(queue), config, s, PushSystem.Take, s', s.line.queue);
      LogStays(log, config, s, PushSystem.Take, s');
      ItemStays(d, config, s, PushSystem.Take, s', id);
      Advance(PushSystem.Take, s');
    }

    // One attempt: recorded as classified when the backend takes it, dropped when the last one fails.
    method Send(ok: bool)
      requires Settled() && sending != []
      modifies this`sending, this`tried, this`log, this`run, ledger
      ensures Settled() && S().line.closed == old(S().line.closed)
      ensures if ok || old(tried) + 1 == config.maxAttempts then
                && sending == []
                && log == old(log) + [Entry(old(sending)[0], if ok then BoundOrDefault(old(sending)[0]) else Dropped)]
                && ledger.Model() == if ok then old(ledger.Model()) else TakeBack(old(ledger.Model()), old(sending)[0])
              else
                && sending == old(sending) && tried == old(tried) + 1
                && log == old(log) && ledger.Model() == old(ledger.Model())
    {
      hide Classified, TakenBack;
      ghost var s := S();
      ghost var id := s.line.worker[0];
      ghost var item := s.items[id].(sends := s.items[id].sends + [ok]);
      var d := sending[0];
      tried := tried + 1;
      var last := tried == config.maxAttempts;
      if ok {
        log := log + [Entry(d, BoundOrDefault(d))];
      } else if last {
        NotHandedOver(d);
        log := log + [Entry(d, Dropped)];
      }
      if ok || last {
        sending := [];
      }
      ghost var outcome := if ok then item.bound else Dropped;
      ghost var s' := if ok || last
        then State(ledger.Model(), s.epoch, s.spoiled, s.items[id := item.(phase := Recorded(outcome))],
                   s.line.(worker := []), s.records + [Record(id, outcome)])
        else s.(items := s.items[id := item]);
      ghost var step := SendOne(ok);
      WorkOf(config, s);
      assert Moves(config, s, step, s');
      AllItemsStay(queue, config, s, step, s', s.line.queue);
      LogStays(old(log), config, s, step, s');
      ItemStays(d, config, s, step, s', id);
      Advance(step, s');
    }

    /** Close, and drain what was accepted: the delivery being sent, if there is one, has its remaining
        attempts, then the queue is served in the order of acceptance, one entry each. */
    method Close(now: nat -> bool, answers: nat -> nat -> bool)
      requires Settled() && !S().line.closed
      modifies this, ledger
      ensures Idle() && Drained(S())
      ensures queue == [] && dropped == old(dropped)
      ensures log == old(log) + InFlight(old(sending), old(tried), now) + Settlements(config, old(queue), answers)
      ensures ledger.Model()
           == TakeBackAll(if old(sending) == [] then old(ledger.Model())
                          else Resettled(config, old(ledger.Model()), old(sending)[0], old(tried), now),
                          Rejected(config, old(queue), answers))
    {
      hide Valid, AllOffered, Settlements, TakeBackAll, Rejected, Resettled;
      StopAccepting();
      if sending != [] {
        var sends := Finish(now);
      }
      Drain(answers);
      ClosedIsDrained();
    }

    // What becomes of the delivery being sent.
    ghost function InFlight(sending: seq<Delivery>, tried: nat, now: nat -> bool): seq<Entry>
      reads this
    {
      if sending == [] then [] else [Settlement(config, sending[0], tried, now)]
    }

    lemma ClosedIsDrained()
      requires Idle() && S().line.closed && queue == []
      ensures Drained(S())
    {
      NoneWaiting(S().items);
    }

    // The worker goes on until the closed queue is empty.
    method Drain(answers: nat -> nat -> bool)
      requires Idle() && S().line.closed
      modifies this, ledger
      ensures Idle() && S().line.closed && queue == [] && dropped == old(dropped)
      ensures log == old(log) + Settlements(config, old(queue), answers)
      ensures ledger.Model() == TakeBackAll(old(ledger.Model()), Rejected(config, old(queue), answers))
    {
      hide Idle, Valid, Resettled, TakeBackAll, Rejected, Settlement, Settlements;
      ghost var ds := queue;
      for i := 0 to |queue|
        invariant Idle() && S().line.closed && queue == ds[i..]
        invariant Now() == AfterServing(config, old(Now()), ds, answers, i)
      {
        var sends := DeliverNext(answers(i));
        assert ds[i..][1..] == ds[i + 1..];
      }
      ServedInBulk(config, old(Now()), ds, answers, |ds|);
      assert ds[..|ds|] == ds;
    }

    method StopAccepting()
      requires Settled() && !S().line.closed
      modifies this`run
      ensures Settled() && S().line.closed && ledger.Model() == old(ledger.Model())
    {
      ghost var s := S();
      ghost var s' := s.(line := s.line.(closed := true));
      assert Moves(config, s, PushSystem.Close, s');
      AllItemsStay(queue, config, s, PushSystem.Close, s', s.line.queue);
      LogStays(log, config, s, PushSystem.Close, s');
      SendingStays(config, sending, tried, s, s');
      Advance(PushSystem.Close, s');
    }

    /** An endpoint registers again, or is superseded and removed: its account is emptied and nothing else
        changes, deliveries on their way included. */
    method EndpointForgotten(e: Endpoint)
      requires Settled()
      modifies this`run, ledger
      ensures Settled() && S().line == old(S().line) && S().items == old(S().items)
      ensures ledger.Model() == Forgotten(old(ledger.Model()), e)
    {
      hide Forgotten;
      ghost var s := S();
      ledger.Forget(e);
      ghost var s' := State(ledger.Model(), NextEpoch(s, {e}), NextSpoiled(s, {e}), s.items, s.line, s.records);
      ghost var step := PushSystem.Forget(e);
      assert Moves(config, s, step, s');
      AllItemsStay(queue, config, s, step, s', s.line.queue);
      LogStays(log, config, s, step, s');
      SendingStays(config, sending, tried, s, s');
      Advance(step, s');
    }
  }

  lemma PresentMoves(c: Config, s: State, d: Delivery)
    ensures Moves(c, s, Present(d.sub, d.key, BoundOrDefault(d)), AfterPresent(s, d))
  {
  }

  lemma NoneYet(s: State)
    requires AllOffered(s, |s.items|)
    ensures NewlyClassified([], s, |s.items|)
  {
  }

  lemma QueuedUnsent(c: Config, s: State)
    requires Reachable(c, s) && s.line.queue != []
    ensures s.line.queue[0] < |s.items| && s.items[s.line.queue[0]].sends == []
  {
    ReachableInv(c, s);
    WhatTheWorkerSees(c, s);
  }

  lemma {:induction false} NoneWaiting(items: seq<Item>)
    requires forall i :: 0 <= i < |items| ==> items[i].phase != Waiting
    ensures Tally(items, Waiting) == 0
  {
    if items != [] {
      NoneWaiting(items[..|items| - 1]);
    }
  }

  datatype Lookup = Found(subs: seq<Endpoint>) | Failed

  lemma {:induction false} NoPairs(keys: seq<CollapseKey>, subs: seq<Endpoint>)
    requires keys == [] || subs == []
    ensures Pairs(keys, subs) == []
  {
    if keys != [] {
      NoPairs(keys[..|keys| - 1], subs);
    }
  }

  // The loops classify the pairs in this order.
  lemma {:induction false} RowAsPairs(l: Ledger, before: seq<Pair>, key: CollapseKey, subs: seq<Endpoint>, j: nat)
    requires j <= |subs|
    ensures ClassifyAll(l, before + Row(key, subs, j)) == ClassifyRow(ClassifyAll(l, before), key, subs, j)
  {
    hide Classified;
    if j == 0 {
      assert before + Row(key, subs, 0) == before;
    } else {
      RowAsPairs(l, before, key, subs, j - 1);
      var more := before + Row(key, subs, j);
      assert more[..|more| - 1] == before + Row(key, subs, j - 1);
    }
  }

  lemma {:induction false} RowsAsPairs(l: Ledger, keys: seq<CollapseKey>, subs: seq<Endpoint>, i: nat)
    requires i <= |keys|
    ensures ClassifyRows(l, keys, subs, i) == ClassifyAll(l, Pairs(keys[..i], subs))
  {
    if i > 0 {
      RowsAsPairs(l, keys, subs, i - 1);
      assert keys[..i][..i - 1] == keys[..i - 1];
      RowAsPairs(l, Pairs(keys[..i - 1], subs), keys[i - 1], subs, |subs|);
    }
  }

  /** Offering one by one comes to this: the queue takes the first ones, up to its room, and the rest are
      dropped in order. */
  lemma {:induction false} OffersInBulk(capacity: nat, b: Books, ds: seq<Delivery>, n: nat)
    requires n <= |ds|
    ensures var r := Room(capacity, |b.queue|, n);
            AfterOffers(capacity, b, ds, n)
            == Books(b.queue + ds[..r], b.dropped + n - r,
                     b.log + DroppedEntries(ds[r..n]), TakeBackAll(b.ledger, ds[r..n]))
  {
    hide TakeBack, TakeBackAll, DroppedEntries;
    var r := Room(capacity, |b.queue|, n);
    DropNone(b.ledger, ds[r..r]);
    if n > 0 {
      OffersInBulk(capacity, b, ds, n - 1);
      var q := Room(capacity, |b.queue|, n - 1);
      DropNone(b.ledger, ds[q..q]);
      if q < r {
        assert ds[..r] == ds[..q] + [ds[n - 1]];
      } else {
        DropOneMore(b.ledger, ds[r..n - 1], ds[n - 1]);
        assert ds[r..n] == ds[r..n - 1] + [ds[n - 1]];
      }
    }
  }

  lemma DropNone(l: Ledger, ds: seq<Delivery>)
    ensures ds == [] ==> DroppedEntries(ds) == [] && TakeBackAll(l, ds) == l
  {
  }

  lemma DropOneMore(l: Ledger, ds: seq<Delivery>, d: Delivery)
    ensures DroppedEntries(ds + [d]) == DroppedEntries(ds) + [Entry(d, Dropped)]
    ensures TakeBackAll(l, ds + [d]) == TakeBack(TakeBackAll(l, ds), d)
  {
    hide TakeBack;
    assert (ds + [d])[..|ds|] == ds;
  }

  lemma {:induction false} ServedInBulk(c: Config, b: Books, ds: seq<Delivery>, answers: nat -> nat -> bool, n: nat)
    requires n <= |ds|
    ensures var after := AfterServing(c, b, ds, answers, n);
            && after.log == b.log + Settlements(c, ds[..n], answers)
            && after.ledger == TakeBackAll(b.ledger, Rejected(c, ds[..n], answers))
  {
    hide TakeBack, Settlement, Accepted;
    if n > 0 {
      ServedInBulk(c, b, ds, answers, n - 1);
      assert ds[..n][..n - 1] == ds[..n - 1];
      assert Settlements(c, ds[..n], answers)
          == Settlements(c, ds[..n - 1], answers) + [Settlement(c, ds[n - 1], 0, answers(n - 1))];
      DropOneMore(b.ledger, Rejected(c, ds[..n - 1], answers), ds[n - 1]);
    }
  }
}
