/**
The per-endpoint collapse-key accounting.

`Ledger` is the accounting as a value and the functions are its operations; the class
`DeliveryLedger` keeps the same state in fields and its methods carry the operations out in place.
*/
module PushLedger {
  import opened Sequences

  // Names are only ever compared for equality here.
  type Provider(==, !new)
  type Token(==, !new)
  type CollapseKey(==, !new)

  // One registered push endpoint: a provider and the routing address of one phone.
  datatype Endpoint = Endpoint(provider: Provider, token: Token)

  datatype Outcome = HandedOver | BeyondCollapseBound | Dropped

  const COLLAPSE_KEY_BOUND: nat := 4
  const MAX_TRACKED_ENDPOINTS: nat := 4096

  // `pending` counts the hand-overs per collapse key; `order` is insertion order over its endpoints.
  datatype Ledger = Ledger(pending: map<Endpoint, map<CollapseKey, nat>>, order: seq<Endpoint>)

  const NO_PENDING := Ledger(map[], [])

  ghost predicate KeysOk(keys: map<CollapseKey, nat>) {
    |keys| <= COLLAPSE_KEY_BOUND && forall k :: k in keys ==> keys[k] >= 1
  }

  ghost predicate Tracks(l: Ledger) {
    && NoRepeats(l.order)
    && (forall e :: e in l.pending <==> e in l.order)
    && (forall e :: e in l.pending ==> KeysOk(l.pending[e]))
  }

  ghost predicate Valid(l: Ledger) {
    Tracks(l) && |l.order| <= MAX_TRACKED_ENDPOINTS
  }

  // The distinct keys pending for an endpoint, with their counts.
  function Keys(l: Ledger, e: Endpoint): map<CollapseKey, nat> {
    if e in l.pending then l.pending[e] else map[]
  }

  function Count(l: Ledger, e: Endpoint, k: CollapseKey): nat {
    if k in Keys(l, e) then Keys(l, e)[k] else 0
  }

  // ---- the operations ----------------------------------------------------------------------------

  // Drop the least recently added endpoints until the tracked number is back within its bound.
  function Trimmed(l: Ledger): Ledger
    decreases |l.order|
  {
    if |l.order| <= MAX_TRACKED_ENDPOINTS then l
    else Trimmed(Ledger(l.pending - {l.order[0]}, l.order[1..]))
  }

  function Track(l: Ledger, e: Endpoint): Ledger {
    if e in l.pending then l else Trimmed(Ledger(l.pending[e := map[]], l.order + [e]))
  }

  function Classified(l: Ledger, e: Endpoint, k: CollapseKey): (r: (Ledger, Outcome))
    ensures r.1 != Dropped
  {
    var tracked := Track(l, e);
    var keys := Keys(tracked, e);
    if |keys| >= COLLAPSE_KEY_BOUND then (tracked, BeyondCollapseBound)
    else (tracked.(pending := tracked.pending[e := keys[k := Count(tracked, e, k) + 1]]), HandedOver)
  }

  // One hand-over of a key less, the key going with its last one.
  function LessOne(keys: map<CollapseKey, nat>, k: CollapseKey): map<CollapseKey, nat>
    requires k in keys
  {
    if keys[k] <= 1 then keys - {k} else keys[k := keys[k] - 1]
  }

  function TakenBack(l: Ledger, e: Endpoint, k: CollapseKey): Ledger {
    if e !in l.pending || k !in l.pending[e] then l
    else l.(pending := l.pending[e := LessOne(l.pending[e], k)])
  }

  function Without(s: seq<Endpoint>, x: Endpoint): seq<Endpoint> {
    if s == [] then [] else if s[0] == x then s[1..] else [s[0]] + Without(s[1..], x)
  }

  function Forgotten(l: Ledger, e: Endpoint): Ledger {
    if e !in l.pending then l else Ledger(l.pending - {e}, Without(l.order, e))
  }

  // ---- what the operations do to the accounting -------------------------------------------------

  // The endpoint a first-seen endpoint pushes out, if the table is full.
  function Evicted(l: Ledger, e: Endpoint): set<Endpoint> {
    if e !in l.pending && |l.order| >= MAX_TRACKED_ENDPOINTS then {l.order[0]} else {}
  }

  lemma AddedTracks(l: Ledger, e: Endpoint)
    requires Tracks(l) && e !in l.pending
    ensures Tracks(Ledger(l.pending[e := map[]], l.order + [e]))
  {
    var l' := Ledger(l.pending[e := map[]], l.order + [e]);
    assert e !in l.order;
    assert l'.order[|l.order|] == e;
  }

  lemma OldestGone(l: Ledger)
    requires Tracks(l) && l.order != []
    ensures Tracks(Ledger(l.pending - {l.order[0]}, l.order[1..]))
  {
    var l' := Ledger(l.pending - {l.order[0]}, l.order[1..]);
    assert l.order == [l.order[0]] + l'.order;
    assert forall i :: 0 <= i < |l'.order| ==> l'.order[i] == l.order[i + 1];
  }

  lemma Untrimmed(l: Ledger)
    requires |l.order| <= MAX_TRACKED_ENDPOINTS
    ensures Trimmed(l) == l
  {
  }

  lemma TrimmedByOne(l: Ledger)
    requires |l.order| == MAX_TRACKED_ENDPOINTS + 1
    ensures Trimmed(l) == Ledger(l.pending - {l.order[0]}, l.order[1..])
  {
    var l' := Ledger(l.pending - {l.order[0]}, l.order[1..]);
    assert Trimmed(l') == l';
  }

  lemma OldestTracked(l: Ledger)
    requires Tracks(l) && l.order != []
    ensures l.order[0] in l.pending
  {
    assert l.order[0] in l.order;
  }

  lemma KeysReplaced(l: Ledger, e: Endpoint, keys: map<CollapseKey, nat>)
    requires Valid(l) && e in l.pending && KeysOk(keys)
    ensures Valid(l.(pending := l.pending[e := keys]))
  {
    var l' := l.(pending := l.pending[e := keys]);
    assert l'.pending.Keys == l.pending.Keys;
  }

  lemma OneMoreKey(keys: map<CollapseKey, nat>, k: CollapseKey, n: nat)
    requires KeysOk(keys) && |keys| < COLLAPSE_KEY_BOUND && n >= 1
    ensures KeysOk(keys[k := n])
  {
    assert keys[k := n].Keys == keys.Keys + {k};
  }

  lemma KeysOfTracked(l: Ledger, e: Endpoint)
    requires Valid(l)
    ensures KeysOk(Keys(l, e))
  {
  }

  lemma TrackEffect(l: Ledger, e: Endpoint)
    requires Valid(l)
    ensures Valid(Track(l, e)) && e in Track(l, e).pending
    ensures e !in Evicted(l, e)
    ensures forall f :: Keys(Track(l, e), f) == if f in Evicted(l, e) then map[] else Keys(l, f)
  {
    hide Tracks, Trimmed;
    if e !in l.pending {
      AddedTracks(l, e);
      var grown := Ledger(l.pending[e := map[]], l.order + [e]);
      if |l.order| >= MAX_TRACKED_ENDPOINTS {
        OldestTracked(l);
        assert grown.order[0] == l.order[0];
        OldestGone(grown);
        TrimmedByOne(grown);
      } else {
        Untrimmed(grown);
      }
    }
  }

  /** Classification: handed over exactly while fewer than four distinct keys are pending, and then one
      more hand-over of that key is counted; otherwise nothing is counted. An evicted endpoint starts over. */
  lemma ClassifiedEffect(l: Ledger, e: Endpoint, k: CollapseKey)
    requires Valid(l)
    ensures var (l', outcome) := Classified(l, e, k);
            && Valid(l')
            && (outcome == HandedOver <==> |Keys(l, e)| < COLLAPSE_KEY_BOUND)
            && (outcome == BeyondCollapseBound <==> |Keys(l, e)| >= COLLAPSE_KEY_BOUND)
            && (forall f, j :: Count(l', f, j) ==
                  if f in Evicted(l, e) then 0
                  else Count(l, f, j) + (if f == e && j == k && outcome == HandedOver then 1 else 0))
  {
    TrackEffect(l, e);
    var tracked := Track(l, e);
    KeysOfTracked(tracked, e);
    hide Track, Valid, Evicted, KeysOk;
    var keys := Keys(tracked, e);
    if |keys| < COLLAPSE_KEY_BOUND {
      OneMoreKey(keys, k, Count(tracked, e, k) + 1);
      KeysReplaced(tracked, e, keys[k := Count(tracked, e, k) + 1]);
    }
  }

  /** A take-back lowers one count by one, if there is one to lower, and touches nothing else. */
  lemma TakenBackEffect(l: Ledger, e: Endpoint, k: CollapseKey)
    requires Valid(l)
    ensures Valid(TakenBack(l, e, k))
    ensures forall f, j :: Count(TakenBack(l, e, k), f, j) ==
              if f == e && j == k && Count(l, e, k) > 0 then Count(l, e, k) - 1 else Count(l, f, j)
  {
    KeysOfTracked(l, e);
    hide Valid;
    if e in l.pending && k in l.pending[e] {
      OneKeyLess(l.pending[e], k);
      hide KeysOk;
      KeysReplaced(l, e, LessOne(l.pending[e], k));
    }
  }

  lemma OneKeyLess(keys: map<CollapseKey, nat>, k: CollapseKey)
    requires KeysOk(keys) && k in keys
    ensures KeysOk(LessOne(keys, k)) && keys[k] >= 1
  {
    assert (keys - {k}).Keys == keys.Keys - {k};
    assert keys[k := keys[k] - 1].Keys == keys.Keys;
  }

  lemma {:induction false} WithoutOne(s: seq<Endpoint>, x: Endpoint)
    requires NoRepeats(s)
    ensures NoRepeats(Without(s, x)) && |Without(s, x)| <= |s|
    ensures forall y :: y in Without(s, x) <==> y in s && y != x
  {
    if s != [] && s[0] != x {
      var rest := Without(s[1..], x);
      WithoutOne(s[1..], x);
      assert s == [s[0]] + s[1..];
      forall i | 0 <= i < |rest| ensures rest[i] != s[0] {
        var y := rest[i];
        assert y in rest;
        assert y in s[1..];
        var j :| 0 <= j < |s[1..]| && s[1..][j] == y;
        assert s[j + 1] == y;
      }
    }
  }

  /** Forgetting an endpoint empties its account and leaves every other account alone. */
  lemma ForgottenEffect(l: Ledger, e: Endpoint)
    requires Valid(l)
    ensures Valid(Forgotten(l, e))
    ensures forall f :: Keys(Forgotten(l, e), f) == if f == e then map[] else Keys(l, f)
  {
    WithoutOne(l.order, e);
  }

  // ---- the ledger in place ------------------------------------------------------------------------

  class DeliveryLedger {
    var pending: map<Endpoint, map<CollapseKey, nat>>
    var order: seq<Endpoint>

    function Model(): Ledger
      reads this
    {
      Ledger(pending, order)
    }

    constructor ()
      ensures Model() == NO_PENDING
    {
      pending := map[];
      order := [];
    }

    method Classify(e: Endpoint, collapseKey: CollapseKey) returns (outcome: Outcome)
      requires Valid(Model())
      modifies this
      ensures (Model(), outcome) == Classified(old(Model()), e, collapseKey)
      ensures Valid(Model())
    {
      hide Valid, Trimmed, Evicted;
      ghost var before := Model();
      ClassifiedEffect(before, e, collapseKey);
      TrackEffect(before, e);
      if e !in pending {
        pending := pending[e := map[]];
        order := order + [e];
        EvictLocked();
      }
      assert Model() == Track(before, e);
      hide Track;
      var keys := pending[e];
      if |keys| >= COLLAPSE_KEY_BOUND {
        return BeyondCollapseBound;
      }
      var n := if collapseKey in keys then keys[collapseKey] else 0;
      pending := pending[e := keys[collapseKey := n + 1]];
      return HandedOver;
    }

    method NotHandedOver(e: Endpoint, collapseKey: CollapseKey)
      modifies this
      ensures Model() == TakenBack(old(Model()), e, collapseKey)
    {
      if e !in pending {
        return;
      }
      var keys := pending[e];
      if collapseKey !in keys {
        return;
      }
      var n := keys[collapseKey];
      if n <= 1 {
        pending := pending[e := keys - {collapseKey}];
        return;
      }
      pending := pending[e := keys[collapseKey := n - 1]];
    }

    method Forget(e: Endpoint)
      modifies this
      ensures Model() == Forgotten(old(Model()), e)
    {
      if e !in pending {
        return;
      }
      pending := pending - {e};
      var all := order;
      assert all[0..] == all;
      for i := 0 to |all|
        invariant order == all
        invariant Without(all, e) == all[..i] + Without(all[i..], e)
      {
        assert all[i..][1..] == all[i + 1..];
        if all[i] == e {
          order := all[..i] + all[i + 1..];
          break;
        }
        assert all[..i] + ([all[i]] + Without(all[i + 1..], e)) == all[..i + 1] + Without(all[i + 1..], e);
      }
      assert order == all ==> all[|all|..] == [] && all[..|all|] == all;
    }

    method PendingKeys(e: Endpoint) returns (n: nat)
      ensures n == |Keys(Model(), e)|
    {
      n := if e in pending then |pending[e]| else 0;
    }

    method Reset()
      modifies this
      ensures Model() == NO_PENDING
    {
      pending := map[];
      order := [];
    }

    method EvictLocked()
      modifies this
      ensures Model() == Trimmed(old(Model()))
    {
      while |order| > MAX_TRACKED_ENDPOINTS
        invariant Trimmed(Model()) == Trimmed(old(Model()))
        decreases |order|
      {
        var oldest := order[0];
        order := order[1..];
        pending := pending - {oldest};
      }
    }
  }
}
