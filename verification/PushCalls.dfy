/**
What one call on the push side does, said delivery by delivery: who is notified of what, which account makes
room, and what an unclassified delivery is taken to be.
*/
module PushCalls {
  import opened PushLedger
  import opened PushSystem
  import opened PushDispatcher

  // ---- the fan-out ------------------------------------------------------------------------------------------

  lemma {:induction false} PairsCount(keys: seq<CollapseKey>, subs: seq<Endpoint>)
    ensures |Pairs(keys, subs)| == |keys| * |subs|
  {
    if keys != [] {
      PairsCount(keys[..|keys| - 1], subs);
      assert |keys| * |subs| == (|keys| - 1) * |subs| + |subs|;
    }
  }

  lemma {:induction false} PairAt(keys: seq<CollapseKey>, subs: seq<Endpoint>, i: nat, j: nat)
    requires i < |keys| && j < |subs|
    ensures i * |subs| + j < |Pairs(keys, subs)| && Pairs(keys, subs)[i * |subs| + j] == Pair(keys[i], subs[j])
    decreases |keys|
  {
    var n := |keys| - 1;
    PairsCount(keys[..n], subs);
    if i < n {
      PairAt(keys[..n], subs, i, j);
    }
  }

  lemma {:induction false} ClassifiedAt(l: Ledger, pairs: seq<Pair>, m: nat)
    requires m < |pairs|
    ensures var ds := ClassifyAll(l, pairs).1;
            |ds| == |pairs| && ds[m].sub == pairs[m].sub && ds[m].key == pairs[m].key
    decreases |pairs|
  {
    hide Classified;
    var n := |pairs| - 1;
    ClassifiedCount(l, pairs[..n]);
    if m < n {
      ClassifiedAt(l, pairs[..n], m);
    }
  }

  lemma {:induction false} ClassifiedCount(l: Ledger, pairs: seq<Pair>)
    ensures |ClassifyAll(l, pairs).1| == |pairs|
  {
    hide Classified;
    if pairs != [] {
      ClassifiedCount(l, pairs[..|pairs| - 1]);
    }
  }

  /** Every crossing goes to every endpoint once: of the deliveries made, number i * |subs| + j is crossing i's
      at endpoint j, and there are no others. */
  lemma FanOut(l: Ledger, keys: seq<CollapseKey>, subs: seq<Endpoint>, i: nat, j: nat)
    requires i < |keys| && j < |subs|
    ensures var ds := ClassifyAll(l, Pairs(keys, subs)).1; var m := i * |subs| + j;
            |ds| == |keys| * |subs| && m < |ds| && ds[m].key == keys[i] && ds[m].sub == subs[j]
  {
    PairsCount(keys, subs);
    PairAt(keys, subs, i, j);
    hide Pairs, ClassifyAll;
    ClassifiedAt(l, Pairs(keys, subs), i * |subs| + j);
  }

  // The deliveries were classified one after the other, each against the ledger the ones before it left.
  ghost predicate InTurn(ledgers: seq<Ledger>, l: Ledger, ds: seq<Delivery>, l': Ledger) {
    && |ledgers| == |ds| + 1 && ledgers[0] == l && ledgers[|ds|] == l'
    && forall m :: 0 <= m < |ds| ==> ClassifiedFrom(ledgers[m], ds[m], ledgers[m + 1])
  }

  ghost predicate ClassifiedFrom(l: Ledger, d: Delivery, l': Ledger) {
    var (after, outcome) := Classified(l, d.sub, d.key); l' == after && d.bound == Set(outcome)
  }

  /** And each is classified against what the ones before it left. */
  lemma {:induction false} EachInTurn(l: Ledger, pairs: seq<Pair>) returns (ledgers: seq<Ledger>)
    ensures var (l', ds) := ClassifyAll(l, pairs); InTurn(ledgers, l, ds, l')
    decreases |pairs|
  {
    hide Classified;
    if pairs == [] {
      ledgers := [l];
    } else {
      var before := EachInTurn(l, pairs[..|pairs| - 1]);
      ledgers := before + [ClassifyAll(l, pairs).0];
      var ds := ClassifyAll(l, pairs).1;
      var n := |ds| - 1;
      forall m | 0 <= m < |ds| ensures ClassifiedFrom(ledgers[m], ds[m], ledgers[m + 1]) {
        assert m < n ==> ClassifiedFrom(before[m], ClassifyAll(l, pairs[..|pairs| - 1]).1[m], before[m + 1]);
      }
    }
  }

  // ---- the account that makes room --------------------------------------------------------------------------

  /** A first-seen endpoint joins at the end of the order, and when 4096 are tracked already the one that has
      been tracked longest goes; an endpoint that is tracked moves nothing. */
  lemma OldestMakesRoom(l: Ledger, e: Endpoint, k: CollapseKey)
    requires Valid(l)
    ensures var order := Classified(l, e, k).0.order;
            if e in l.order then order == l.order
            else if |l.order| < 4096 then order == l.order + [e]
            else |l.order| == 4096 && order == l.order[1..] + [e]
  {
    if e !in l.order {
      var grown := Ledger(l.pending[e := map[]], l.order + [e]);
      if |l.order| < MAX_TRACKED_ENDPOINTS {
        Untrimmed(grown);
      } else {
        TrimmedByOne(grown);
      }
    }
    hide Trimmed;
  }

  /** Four distinct keys pending at an endpoint are the bound: the fifth is beyond it. */
  lemma FourKeysAreTheBound(l: Ledger, e: Endpoint, k: CollapseKey)
    requires Valid(l)
    ensures Classified(l, e, k).1 == (if |Keys(l, e)| < 4 then HandedOver else BeyondCollapseBound)
  {
    ClassifiedEffect(l, e, k);
    hide Classified;
  }

  // ---- after Close -------------------------------------------------------------------------------------------

  lemma ClosedStep(c: Config, s: State, s': State)
    requires Follows(c, s, s') && s.line.closed
    ensures s'.line.closed && s'.line.accepted == s.line.accepted && s'.line.full == s.line.full
  {
    hide Classified, StartsOver, TakenBack;
  }

  /** Once closed, for good: nothing is accepted or refused any more, on whatever run. */
  lemma {:induction false} ClosedForGood(c: Config, states: seq<State>, m: nat, n: nat)
    requires Run(c, states) && m <= n < |states| && states[m].line.closed
    ensures states[n].line.closed
    ensures states[n].line.accepted == states[m].line.accepted && states[n].line.full == states[m].line.full
    decreases n
  {
    if m < n {
      hide Follows;
      ClosedForGood(c, states, m, n - 1);
      ClosedStep(c, states[n - 1], states[n]);
    }
  }

  // ---- what is recorded ----------------------------------------------------------------------------------------

  /** A delivery the backend takes is recorded as it was classified, and as handed over if it never was; one the
      backend does not take is recorded as dropped, and then one hand-over of its key is taken back, unless it
      was classified as beyond the bound. */
  lemma RecordedAsClassified(c: Config, l: Ledger, d: Delivery, tried: nat, answers: nat -> bool)
    ensures var taken := d.sub.provider in c.senders && exists n: nat :: tried < n <= c.maxAttempts && answers(n);
            && Settlement(c, d, tried, answers)
               == Entry(d, if !taken then Dropped else if d.bound.Unset? then HandedOver else d.bound.outcome)
            && Resettled(c, l, d, tried, answers)
               == if taken || d.bound == Set(BeyondCollapseBound) then l else TakenBack(l, d.sub, d.key)
  {
    hide TakenBack;
  }
}
