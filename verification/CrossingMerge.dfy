/**
The crossing list of the app: what arrived as pushes and what the server's route returned, as one list.

Ids are compared as text; a number stands for an id's place in that order.
*/
module CrossingMerge {
  import opened Options
  import opened Sequences

  // The names and the direction: everything a crossing carries beyond its identity.
  type Wording(==, !new)

  datatype Identity = Identity(device: nat, place: nat, instant: int)

  datatype Crossing = Crossing(identity: Identity, wording: Wording)

  // Newest first, then by device, then by place.
  predicate Before(a: Identity, b: Identity) {
    a.instant > b.instant
    || (a.instant == b.instant && (a.device < b.device || (a.device == b.device && a.place < b.place)))
  }

  ghost predicate InOrder(s: seq<Crossing>) {
    forall i, j :: 0 <= i < j < |s| ==> Before(s[i].identity, s[j].identity)
  }

  // The last crossing of an identity.
  function Last(s: seq<Crossing>, id: Identity): Option<Crossing> {
    if s == [] then None
    else if s[|s| - 1].identity == id then Some(s[|s| - 1])
    else Last(s[..|s| - 1], id)
  }

  // The copy that is kept: the route's where it has one.
  function Kept(route: seq<Crossing>, push: seq<Crossing>, id: Identity): Option<Crossing> {
    if Last(route, id).Some? then Last(route, id) else Last(push, id)
  }

  /** The merge: strictly in order, and holding exactly the kept copies. */
  ghost predicate IsMerge(m: seq<Crossing>, route: seq<Crossing>, push: seq<Crossing>) {
    && InOrder(m)
    && forall c :: c in m <==> Kept(route, push, c.identity) == Some(c)
  }

  // ---- the merge is one list ----------------------------------------------------------------------------

  lemma {:induction false} LastIsIn(s: seq<Crossing>, id: Identity)
    ensures Last(s, id).Some? ==> Last(s, id).value in s && Last(s, id).value.identity == id
    ensures Last(s, id).None? ==> forall c :: c in s ==> c.identity != id
  {
    if s != [] && s[|s| - 1].identity != id {
      LastIsIn(s[..|s| - 1], id);
      assert s == s[..|s| - 1] + [s[|s| - 1]];
    }
  }

  lemma PairInOrder(s: seq<Crossing>, i: nat, j: nat)
    requires InOrder(s) && i < |s| && j < |s|
    ensures i < j ==> Before(s[i].identity, s[j].identity)
  {
  }

  /** Two ordered lists with the same members are the same list. */
  lemma {:induction false} OrderedIsUnique(a: seq<Crossing>, b: seq<Crossing>)
    requires InOrder(a) && InOrder(b) && forall c :: c in a <==> c in b
    ensures a == b
  {
    assert a != [] ==> a[0] in a;
    assert b != [] ==> b[0] in b;
    if a != [] && b != [] {
      FirstIsFirst(a, b);
      FirstIsFirst(b, a);
      assert a == [a[0]] + a[1..] && b == [b[0]] + b[1..];
      forall c ensures c in a[1..] <==> c in b[1..] {
        RestWithoutFirst(a, c);
        RestWithoutFirst(b, c);
      }
      OrderedIsUnique(a[1..], b[1..]);
    }
  }

  lemma FirstIsFirst(a: seq<Crossing>, b: seq<Crossing>)
    requires InOrder(a) && InOrder(b) && a != [] && b != [] && forall c :: c in a <==> c in b
    ensures a[0] == b[0]
  {
    assert a[0] in b && b[0] in a;
    var i :| 0 <= i < |b| && b[i] == a[0];
    var j :| 0 <= j < |a| && a[j] == b[0];
    PairInOrder(b, 0, i);
    PairInOrder(a, 0, j);
  }

  lemma RestWithoutFirst(a: seq<Crossing>, c: Crossing)
    requires InOrder(a) && a != []
    ensures c in a[1..] <==> c in a && c != a[0]
  {
    if c in a[1..] {
      var i :| 0 <= i < |a[1..]| && a[1..][i] == c;
      assert a[i + 1] == c && Before(a[0].identity, a[i + 1].identity);
    }
  }

  lemma MergeIsUnique(m: seq<Crossing>, m': seq<Crossing>, route: seq<Crossing>, push: seq<Crossing>)
    requires IsMerge(m, route, push) && IsMerge(m', route, push)
    ensures m == m'
  {
    OrderedIsUnique(m, m');
  }

  // Each identity of either source is held once, by its kept copy.
  lemma EachIdentityOnce(m: seq<Crossing>, route: seq<Crossing>, push: seq<Crossing>, c: Crossing)
    requires IsMerge(m, route, push) && (c in route || c in push)
    ensures exists i :: 0 <= i < |m| && m[i].identity == c.identity && Kept(route, push, c.identity) == Some(m[i])
              && forall j :: 0 <= j < |m| && m[j].identity == c.identity ==> j == i
  {
    LastIsIn(route, c.identity);
    LastIsIn(push, c.identity);
    var k := Kept(route, push, c.identity).value;
    assert k in m;
    var i :| 0 <= i < |m| && m[i] == k;
    forall j | 0 <= j < |m| && m[j].identity == c.identity ensures j == i {
      PairInOrder(m, j, i);
      PairInOrder(m, i, j);
    }
  }

  // The latest row of its identity in a list.
  ghost predicate LatestOf(s: seq<Crossing>, c: Crossing) {
    exists k :: 0 <= k < |s| && s[k] == c && forall l :: k < l < |s| ==> s[l].identity != c.identity
  }

  lemma {:induction false} LastIsLatest(s: seq<Crossing>, c: Crossing)
    ensures Last(s, c.identity) == Some(c) <==> LatestOf(s, c)
  {
    if s != [] {
      var before, last := s[..|s| - 1], s[|s| - 1];
      LastIsLatest(before, c);
      if LatestOf(s, c) && last.identity != c.identity {
        var k :| 0 <= k < |s| && s[k] == c && forall l :: k < l < |s| ==> s[l].identity != c.identity;
        assert before[k] == c;
      }
      if LatestOf(before, c) && last.identity != c.identity {
        var k :| 0 <= k < |before| && before[k] == c
                 && forall l :: k < l < |before| ==> before[l].identity != c.identity;
        assert s[k] == c;
      }
      assert s[|s| - 1] == last;
    }
  }

  /** What a merge is: newest first, ties by device and then by place, and of every identity the latest row of
      the route, or where the route has none, the latest push. */
  lemma MergeIsNewestFirst(m: seq<Crossing>, route: seq<Crossing>, push: seq<Crossing>)
    requires IsMerge(m, route, push)
    ensures forall i, j :: 0 <= i < j < |m| ==>
              && m[i].identity.instant >= m[j].identity.instant
              && (m[i].identity.instant == m[j].identity.instant ==>
                    && m[i].identity.device <= m[j].identity.device
                    && (m[i].identity.device == m[j].identity.device ==> m[i].identity.place < m[j].identity.place))
    ensures forall c :: c in m <==>
              LatestOf(route, c) || (LatestOf(push, c) && forall x :: x in route ==> x.identity != c.identity)
  {
    forall c ensures c in m <==>
      LatestOf(route, c) || (LatestOf(push, c) && forall x :: x in route ==> x.identity != c.identity)
    {
      LastIsLatest(route, c);
      LastIsLatest(push, c);
      LastIsIn(route, c.identity);
      hide Last, LatestOf, InOrder;
    }
  }

  // ---- no repeated identity ----------------------------------------------------------------------------------

  ghost predicate Unrepeated(s: seq<Crossing>) {
    Keyed(s, (c: Crossing) => c.identity)
  }

  lemma {:induction false} LastOfDistinct(s: seq<Crossing>, id: Identity, c: Crossing)
    requires Unrepeated(s)
    ensures Last(s, id) == Some(c) <==> c in s && c.identity == id
  {
    if s != [] {
      var rest := s[..|s| - 1];
      assert s == rest + [s[|s| - 1]];
      LastOfDistinct(rest, id, c);
      if c in rest {
        var i :| 0 <= i < |rest| && rest[i] == c;
        assert s[i].identity != s[|s| - 1].identity;
      }
    }
  }

  lemma LastAnyOrder(s: seq<Crossing>, s': seq<Crossing>, id: Identity)
    requires Unrepeated(s) && Unrepeated(s') && forall c :: c in s <==> c in s'
    ensures Last(s, id) == Last(s', id)
  {
    if Last(s, id).Some? {
      LastOfDistinct(s, id, Last(s, id).value);
      LastOfDistinct(s', id, Last(s, id).value);
    } else if Last(s', id).Some? {
      LastOfDistinct(s', id, Last(s', id).value);
      LastOfDistinct(s, id, Last(s', id).value);
    }
  }

  /** The order in which either source lists its crossings does not matter, when it repeats no identity. */
  lemma MergeAnyOrder(m: seq<Crossing>, route: seq<Crossing>, push: seq<Crossing>, route': seq<Crossing>,
      push': seq<Crossing>)
    requires IsMerge(m, route, push)
    requires route' == route || (Unrepeated(route) && Unrepeated(route') && forall c :: c in route <==> c in route')
    requires push' == push || (Unrepeated(push) && Unrepeated(push') && forall c :: c in push <==> c in push')
    ensures IsMerge(m, route', push')
  {
    forall id ensures Kept(route, push, id) == Kept(route', push', id) {
      if route' != route {
        LastAnyOrder(route, route', id);
      }
      if push' != push {
        LastAnyOrder(push, push', id);
      }
    }
  }

  lemma OrderedHasNoRepeats(m: seq<Crossing>)
    requires InOrder(m)
    ensures Unrepeated(m)
  {
    forall i, j | 0 <= i < j < |m| ensures m[i].identity != m[j].identity {
      assert Before(m[i].identity, m[j].identity);
    }
  }

  /** Merging again changes nothing: neither with the same pushes, nor with itself, nor with nothing. */
  lemma MergeIsIdempotent(m: seq<Crossing>, route: seq<Crossing>, push: seq<Crossing>)
    requires IsMerge(m, route, push)
    ensures IsMerge(m, m, push) && IsMerge(m, m, m) && IsMerge(m, m, []) && IsMerge(m, [], m)
  {
    OrderedHasNoRepeats(m);
    forall c ensures c in m <==> Last(m, c.identity) == Some(c) {
      LastOfDistinct(m, c.identity, c);
    }
    forall c ensures c in m <==> Kept(m, push, c.identity) == Some(c) {
      if Last(m, c.identity).None? && Last(push, c.identity).Some? {
        LastIsIn(m, c.identity);
        LastIsIn(push, c.identity);
        var p := Last(push, c.identity).value;
        EachIdentityOnce(m, route, push, p);
        assert false;
      }
    }
  }

  // ---- carrying it out ------------------------------------------------------------------------------------------

  function Insert(x: Crossing, s: seq<Crossing>): seq<Crossing> {
    if s == [] then [x] else if Before(x.identity, s[0].identity) then [x] + s else [s[0]] + Insert(x, s[1..])
  }

  function Sorted(s: seq<Crossing>): seq<Crossing> {
    if s == [] then [] else Insert(s[|s| - 1], Sorted(s[..|s| - 1]))
  }

  lemma {:induction false} InsertKeepsOrder(x: Crossing, s: seq<Crossing>)
    requires InOrder(s) && forall c :: c in s ==> c.identity != x.identity
    ensures InOrder(Insert(x, s)) && forall c :: c in Insert(x, s) <==> c in s || c == x
  {
    if s != [] {
      assert s == [s[0]] + s[1..];
      if Before(x.identity, s[0].identity) {
        PutFirst(x, s);
      } else {
        InsertKeepsOrder(x, s[1..]);
        var rest := Insert(x, s[1..]);
        forall i | 0 <= i < |rest| ensures Before(s[0].identity, rest[i].identity) {
          assert rest[i] in rest;
          if rest[i] in s[1..] {
            RestIsAfter(s, rest[i]);
          } else {
            assert s[0] in s;
          }
        }
        PutFirst(s[0], rest);
      }
    }
  }

  lemma RestIsAfter(s: seq<Crossing>, c: Crossing)
    requires InOrder(s) && s != [] && c in s[1..]
    ensures Before(s[0].identity, c.identity)
  {
    var i :| 0 <= i < |s[1..]| && s[1..][i] == c;
    assert s[i + 1] == c;
  }

  lemma PutFirst(x: Crossing, s: seq<Crossing>)
    requires InOrder(s) && (s == [] || Before(x.identity, s[0].identity))
    ensures InOrder([x] + s) && forall c :: c in [x] + s <==> c in s || c == x
  {
    var r := [x] + s;
    forall i, j | 0 <= i < j < |r| ensures Before(r[i].identity, r[j].identity) {
      if i == 0 {
        assert j == 1 || Before(s[0].identity, s[j - 1].identity);
      } else {
        assert Before(s[i - 1].identity, s[j - 1].identity);
      }
    }
  }

  lemma {:induction false} SortedIsOrdered(s: seq<Crossing>)
    requires Unrepeated(s)
    ensures InOrder(Sorted(s)) && forall c :: c in Sorted(s) <==> c in s
  {
    if s != [] {
      var rest := s[..|s| - 1];
      var x := s[|s| - 1];
      assert s == rest + [x];
      SortedIsOrdered(rest);
      forall c | c in Sorted(rest) ensures c.identity != x.identity {
        var i :| 0 <= i < |rest| && rest[i] == c;
        assert s[i].identity != s[|s| - 1].identity;
      }
      InsertKeepsOrder(x, Sorted(rest));
    }
  }

  // A linked map: its entries, and the order its keys were first put in.
  ghost predicate Linked(entries: map<Identity, Crossing>, keys: seq<Identity>) {
    && (forall k :: k in entries <==> k in keys)
    && (forall k :: k in entries ==> entries[k].identity == k)
    && NoRepeats(keys)
  }

  function Values(entries: map<Identity, Crossing>, keys: seq<Identity>): seq<Crossing>
    requires forall i :: 0 <= i < |keys| ==> keys[i] in entries
  {
    seq(|keys|, i requires 0 <= i < |keys| => entries[keys[i]])
  }

  lemma ValuesAreKept(entries: map<Identity, Crossing>, keys: seq<Identity>)
    requires Linked(entries, keys)
    ensures Unrepeated(Values(entries, keys))
    ensures forall c :: c in Values(entries, keys) <==> c.identity in entries && entries[c.identity] == c
  {
    var vs := Values(entries, keys);
    forall c: Crossing | c.identity in entries && entries[c.identity] == c ensures c in vs {
      assert c.identity in keys;
      var i :| 0 <= i < |keys| && keys[i] == c.identity;
      assert vs[i] == c;
    }
  }

  // What the map holds after the pushes and a prefix of the route.
  ghost predicate Holds(entries: map<Identity, Crossing>, route: seq<Crossing>, push: seq<Crossing>) {
    forall id :: Kept(route, push, id) == if id in entries then Some(entries[id]) else None
  }

  method Put(entries: map<Identity, Crossing>, keys: seq<Identity>, c: Crossing)
    returns (entries': map<Identity, Crossing>, keys': seq<Identity>)
    requires Linked(entries, keys)
    ensures entries' == entries[c.identity := c] && Linked(entries', keys')
  {
    keys' := if c.identity in entries then keys else keys + [c.identity];
    entries' := entries[c.identity := c];
  }

  /** Pushes first, so that a route row of the same identity overwrites one; then newest first. */
  method Merge(fromRoute: seq<Crossing>, fromPush: seq<Crossing>) returns (merged: seq<Crossing>)
    ensures IsMerge(merged, fromRoute, fromPush)
  {
    var byIdentity: map<Identity, Crossing> := map[];
    var keys: seq<Identity> := [];
    hide Linked;
    assert Linked(byIdentity, keys) by {
      NothingLinked();
    }
    for i := 0 to |fromPush|
      invariant Linked(byIdentity, keys) && Holds(byIdentity, [], fromPush[..i])
    {
      OneMorePush(byIdentity, fromPush, i);
      byIdentity, keys := Put(byIdentity, keys, fromPush[i]);
    }
    assert fromPush[..|fromPush|] == fromPush;
    for i := 0 to |fromRoute|
      invariant Linked(byIdentity, keys) && Holds(byIdentity, fromRoute[..i], fromPush)
    {
      OneMoreRow(byIdentity, fromRoute, fromPush, i);
      byIdentity, keys := Put(byIdentity, keys, fromRoute[i]);
    }
    assert fromRoute[..|fromRoute|] == fromRoute;
    KeysInMap(byIdentity, keys);
    ValuesAreKept(byIdentity, keys);
    SortedIsOrdered(Values(byIdentity, keys));
    merged := Sorted(Values(byIdentity, keys));
  }

  lemma NothingLinked()
    ensures Linked(map[], [])
  {
  }

  lemma KeysInMap(entries: map<Identity, Crossing>, keys: seq<Identity>)
    requires Linked(entries, keys)
    ensures forall i :: 0 <= i < |keys| ==> keys[i] in entries
  {
  }

  lemma OneMorePush(entries: map<Identity, Crossing>, push: seq<Crossing>, i: nat)
    requires i < |push| && Holds(entries, [], push[..i])
    ensures Holds(entries[push[i].identity := push[i]], [], push[..i + 1])
  {
    assert push[..i + 1][..i] == push[..i];
    forall id
      ensures Kept([], push[..i + 1], id) == if push[i].identity == id then Some(push[i]) else Kept([], push[..i], id)
    {
    }
  }

  lemma OneMoreRow(entries: map<Identity, Crossing>, route: seq<Crossing>, push: seq<Crossing>, i: nat)
    requires i < |route| && Holds(entries, route[..i], push)
    ensures Holds(entries[route[i].identity := route[i]], route[..i + 1], push)
  {
    assert route[..i + 1][..i] == route[..i];
    forall id
      ensures Kept(route[..i + 1], push, id)
           == if route[i].identity == id then Some(route[i]) else Kept(route[..i], push, id)
    {
    }
  }

  // ---- the pushes of this run --------------------------------------------------------------------------------------

  // Replace the crossing of the same identity, or append.
  function Recorded(s: seq<Crossing>, c: Crossing): seq<Crossing> {
    if s == [] then [c] else if s[0].identity == c.identity then [c] + s[1..] else [s[0]] + Recorded(s[1..], c)
  }

  function RecordedAll(pushes: seq<Crossing>): seq<Crossing> {
    if pushes == [] then [] else Recorded(RecordedAll(pushes[..|pushes| - 1]), pushes[|pushes| - 1])
  }

  lemma {:induction false} RecordedMembers(s: seq<Crossing>, c: Crossing)
    requires Unrepeated(s)
    ensures Unrepeated(Recorded(s, c))
    ensures forall d :: d in Recorded(s, c) <==> d == c || (d in s && d.identity != c.identity)
  {
    if s != [] {
      var rest := s[1..];
      assert s == [s[0]] + rest;
      assert forall i :: 0 <= i < |rest| ==> rest[i] == s[i + 1];
      if s[0].identity != c.identity {
        RecordedMembers(rest, c);
        var r := Recorded(rest, c);
        forall i | 0 <= i < |r| ensures r[i].identity != s[0].identity {
          assert r[i] in r;
        }
      }
    }
  }

  /** The list of pushes repeats no identity, and keeps the last push of each: nothing that was pushed is
      missing from a merge with it. */
  lemma {:induction false} RecordingLosesNothing(pushes: seq<Crossing>, id: Identity)
    ensures Unrepeated(RecordedAll(pushes)) && Last(RecordedAll(pushes), id) == Last(pushes, id)
  {
    if pushes != [] {
      var before := RecordedAll(pushes[..|pushes| - 1]);
      var c := pushes[|pushes| - 1];
      RecordingLosesNothing(pushes[..|pushes| - 1], id);
      RecordedMembers(before, c);
      var after := Recorded(before, c);
      if c.identity == id {
        LastOfDistinct(after, id, c);
      } else if Last(before, id).Some? {
        LastOfDistinct(before, id, Last(before, id).value);
        LastOfDistinct(after, id, Last(before, id).value);
      } else if Last(after, id).Some? {
        LastOfDistinct(after, id, Last(after, id).value);
        LastOfDistinct(before, id, Last(after, id).value);
      }
    }
  }

  /** So merging the recorded list is merging everything that was ever pushed. */
  lemma MergeOfRecorded(m: seq<Crossing>, route: seq<Crossing>, pushes: seq<Crossing>)
    ensures IsMerge(m, route, RecordedAll(pushes)) <==> IsMerge(m, route, pushes)
  {
    forall id ensures Kept(route, RecordedAll(pushes), id) == Kept(route, pushes, id) {
      RecordingLosesNothing(pushes, id);
    }
  }

  // Where the crossing goes, i being the first place of its identity.
  lemma {:induction false} RecordedAt(s: seq<Crossing>, c: Crossing, i: nat)
    requires i <= |s| && forall k :: 0 <= k < i ==> s[k].identity != c.identity
    requires i < |s| ==> s[i].identity == c.identity
    ensures Recorded(s, c) == if i < |s| then s[i := c] else s + [c]
  {
    if i > 0 {
      RecordedAt(s[1..], c, i - 1);
      assert s == [s[0]] + s[1..];
    }
  }

  class AlertSurface {
    var pushed: seq<Crossing>

    constructor ()
      ensures pushed == []
    {
      pushed := [];
    }

    method RecordPush(c: Crossing)
      modifies this
      ensures pushed == Recorded(old(pushed), c)
    {
      var existing := 0;
      while existing < |pushed| && pushed[existing].identity != c.identity
        invariant existing <= |pushed|
        invariant forall k :: 0 <= k < existing ==> pushed[k].identity != c.identity
      {
        existing := existing + 1;
      }
      RecordedAt(pushed, c, existing);
      if existing < |pushed| {
        pushed := pushed[existing := c];
      } else {
        pushed := pushed + [c];
      }
    }
  }
}
