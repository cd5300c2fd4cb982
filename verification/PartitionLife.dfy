/**
The life of the fixes table: start-up provisioning, ingest and purges in any order, and what they keep.
*/
module PartitionLife {
  import opened Options
  import opened PartitionStore

  ghost predicate IsMonth(name: string, t: Table, month: int) {
    name == PartitionName(month) && t.bounds == Range(MonthStart(month), MonthStart(month + 1))
  }

  // A whole UTC month, under its own name.
  ghost predicate Monthly(name: string, t: Table) {
    exists month :: IsMonth(name, t, month)
  }

  ghost predicate RowsWithin(t: Table) {
    forall k :: k in t.rows ==> Covers(t, k.ts) && t.rows[k].key == k
  }

  ghost predicate Sound(c: Catalog) {
    forall n :: n in c ==> Monthly(n, c[n]) && RowsWithin(c[n])
  }

  lemma MonthCovers(name: string, t: Table, month: int, ts: int)
    requires IsMonth(name, t, month)
    ensures Covers(t, ts) <==> month == MonthAt(ts)
  {
    InMonth(ts, month);
  }

  /** Only one partition covers an instant, and it is the one named after its month. */
  lemma OneCovers(c: Catalog, n: string, ts: int)
    requires Sound(c) && n in c
    ensures Covers(c[n], ts) <==> n == PartitionName(MonthAt(ts))
  {
    hide PartitionName, MonthAt, MonthStart, RowsWithin;
    var month :| IsMonth(n, c[n], month);
    MonthCovers(n, c[n], month, ts);
    NamesDiffer(month, MonthAt(ts));
  }

  /** Partitions are pairwise disjoint. */
  lemma Disjoint(c: Catalog, a: string, b: string)
    requires Sound(c) && a in c && b in c && a != b && c[b].bounds.Range?
    ensures !Overlaps(c[a], c[b].bounds.lower, c[b].bounds.upper)
  {
    hide PartitionName, MonthAt, MonthStart, RowsWithin;
    var month :| IsMonth(b, c[b], month);
    NoOverlap(c, a, month);
  }

  lemma NoOverlap(c: Catalog, n: string, month: int)
    requires Sound(c) && n in c && n != PartitionName(month)
    ensures !Overlaps(c[n], MonthStart(month), MonthStart(month + 1))
  {
    hide PartitionName, MonthStart, RowsWithin;
    var other :| IsMonth(n, c[n], other);
    if other < month {
      Ordered(other + 1, month);
    } else {
      Ordered(month + 1, other);
    }
  }

  // ---- provisioning ---------------------------------------------------------------------------------------------

  /** Provisioning a month never fails, and adds its partition, empty, if it was not there. */
  lemma EnsuringAdds(c: Catalog, month: int)
    requires Sound(c)
    ensures var (c', name) := Ensured(c, month);
            && name == Ok(PartitionName(month)) && PartitionName(month) in c' && Sound(c')
            && c' == if PartitionName(month) in c then c else c[PartitionName(month) := MonthTable(month)]
  {
    hide PartitionName, MonthStart;
    var name := PartitionName(month);
    if name in c {
      var other :| IsMonth(name, c[name], other);
      NamesDiffer(other, month);
    } else {
      forall n | n in c ensures !Overlaps(c[n], MonthStart(month), MonthStart(month + 1)) {
        NoOverlap(c, n, month);
      }
      assert IsMonth(name, MonthTable(month), month);
      assert Monthly(name, MonthTable(month)) && RowsWithin(MonthTable(month));
    }
  }

  /** So is start-up provisioning: all its months are there afterwards, and nothing else has changed. */
  lemma {:induction false} StartUpProvisions(c: Catalog, month: int, n: nat)
    requires Sound(c)
    ensures var (c', names) := EnsuredFrom(c, month, n);
            && names.Ok? && |names.value| == n && Sound(c')
            && (forall i :: 0 <= i < n ==> names.value[i] == PartitionName(month + i))
            && (forall i :: month <= i < month + n ==> PartitionName(i) in c')
            && (forall name :: name in c ==> name in c' && c'[name] == c[name])
            && (forall name :: name in c' && name !in c ==> c'[name].rows == map[])
  {
    hide PartitionName, MonthStart, Ensured, Sound;
    if n > 0 {
      StartUpProvisions(c, month, n - 1);
      EnsuringAdds(EnsuredFrom(c, month, n - 1).0, month + n - 1);
    }
  }

  // ---- ingest -------------------------------------------------------------------------------------------------------

  ghost predicate Known(c: Catalog, key: Key) {
    exists n :: n in c && key in c[n].rows
  }

  lemma KnownWhere(c: Catalog, key: Key, n: string)
    requires Sound(c) && n in c && Covers(c[n], key.ts)
    ensures Known(c, key) <==> key in c[n].rows
  {
    hide PartitionName, MonthAt, Monthly;
    if Known(c, key) {
      var m :| m in c && key in c[m].rows;
      OneCovers(c, m, key.ts);
      OneCovers(c, n, key.ts);
    }
  }

  // Stored is stored: what one insert does, in terms of the fixes alone.
  ghost predicate Adds(c: Catalog, f: Fix, c': Catalog) {
    forall g :: Stored(c', g) <==> Stored(c, g) || g == f
  }

  lemma InsertAdds(c: Catalog, n: string, f: Fix, c': Catalog, r: Result<bool>)
    requires Sound(c) && n in c && Covers(c[n], f.key.ts) && InsertsInto(c, n, f, c', r)
    ensures Sound(c') && r == Ok(!Known(c, f.key))
    ensures if Known(c, f.key) then c' == c else Adds(c, f, c')
  {
    hide PartitionName, MonthStart;
    KnownWhere(c, f.key, n);
    if f.key !in c[n].rows {
      var month :| IsMonth(n, c[n], month);
      assert IsMonth(n, c'[n], month);
      forall g ensures Stored(c', g) <==> Stored(c, g) || g == f {
        InsertedHolds(c, n, f, c', g);
      }
    }
  }

  lemma InsertedHolds(c: Catalog, n: string, f: Fix, c': Catalog, g: Fix)
    requires n in c && f.key !in c[n].rows && c' == c[n := Table(c[n].bounds, c[n].rows[f.key := f])]
    ensures Stored(c', g) <==> Stored(c, g) || g == f
  {
    if Stored(c', g) {
      var m :| Holds(c', m, g);
      assert g == f || Holds(c, m, g);
    }
    if Stored(c, g) {
      var m :| Holds(c, m, g);
      assert Holds(c', m, g);
    }
    assert Holds(c', n, f);
  }

  // The same fixes, in whichever partitions.
  ghost predicate SameFixes(c: Catalog, c': Catalog) {
    && (forall g :: Stored(c', g) <==> Stored(c, g))
    && (forall k :: Known(c', k) <==> Known(c, k))
  }

  lemma EmptyTableAddsNothing(c: Catalog, name: string, t: Table)
    requires name !in c && t.rows == map[]
    ensures SameFixes(c, c[name := t])
  {
    var c' := c[name := t];
    forall g ensures Stored(c', g) <==> Stored(c, g) {
      if Stored(c', g) {
        var m :| Holds(c', m, g);
        assert Holds(c, m, g);
      }
      if Stored(c, g) {
        var m :| Holds(c, m, g);
        assert Holds(c', m, g);
      }
    }
    forall k ensures Known(c', k) <==> Known(c, k) {
      if Known(c, k) {
        var m :| m in c && k in c[m].rows;
        assert m in c' && k in c'[m].rows;
      }
    }
  }

  lemma SameFixesAdds(c: Catalog, p: Catalog, f: Fix, c': Catalog)
    requires SameFixes(c, p) && Adds(p, f, c')
    ensures Adds(c, f, c')
  {
    hide Stored, Known;
  }

  /** Ingest, whole: a fix outside the window or off the globe is refused and changes nothing; every other
      fix is stored, or absorbed because its identity is known already.  None is lost for want of a
      partition, and no other fix is touched. */
  lemma IngestStoresOrAbsorbs(c: Catalog, f: Fix, now: int, c': Catalog, r: Result<bool>)
    requires Sound(c) && Ingests(c, f, now, c', r)
    ensures Sound(c')
    ensures !InWindow(f.key.ts, now) ==> r == Err(OutOfWindow) && c' == c
    ensures InWindow(f.key.ts, now) && !ValidLonLat(f.lon, f.lat) ==> r == Err(BadCoordinate) && c' == c
    ensures InWindow(f.key.ts, now) && ValidLonLat(f.lon, f.lat) ==>
              r == Ok(!Known(c, f.key)) && if Known(c, f.key) then c' == c else Adds(c, f, c')
  {
    hide PartitionName, MonthStart, Ensured, Sound, InsertsInto, Covers, Known, Adds, MonthAt;
    if InWindow(f.key.ts, now) && ValidLonLat(f.lon, f.lat) {
      if Covered(c, f.key.ts) {
        var n :| n in c && Covers(c[n], f.key.ts) && InsertsInto(c, n, f, c', r);
        InsertAdds(c, n, f, c', r);
      } else {
        ProvisionedThenStored(c, f, c', r);
      }
    }
  }

  lemma ProvisionedThenStored(c: Catalog, f: Fix, c': Catalog, r: Result<bool>)
    requires Sound(c) && !Covered(c, f.key.ts) && ValidLonLat(f.lon, f.lat)
    requires var (provisioned, name) := Ensured(c, MonthAt(f.key.ts));
             if name.Err? then c' == provisioned && r == Err(name.error) else Upserts(provisioned, f, c', r)
    ensures Sound(c') && r == Ok(true) && !Known(c, f.key) && Adds(c, f, c')
  {
    hide PartitionName, MonthStart, MonthAt, Ensured, Sound, InsertsInto, Covers, Known, Stored, Adds, SameFixes;
    var month := MonthAt(f.key.ts);
    var p := Ensured(c, month).0;
    NotKnown(c, f.key);
    EnsuringAdds(c, month);
    Provisioned(c, f.key.ts);
    var n :| n in p && Covers(p[n], f.key.ts) && InsertsInto(p, n, f, c', r);
    InsertAdds(p, n, f, c', r);
    KnownStill(c, p, f.key);
    SameFixesAdds(c, p, f, c');
  }

  lemma KnownStill(c: Catalog, p: Catalog, k: Key)
    requires SameFixes(c, p)
    ensures Known(p, k) <==> Known(c, k)
  {
    hide Known, Stored;
  }

  // The month of an instant no partition covered is provisioned, and holds nothing yet.
  lemma Provisioned(c: Catalog, ts: int)
    requires Sound(c) && !Covered(c, ts)
    ensures var p := Ensured(c, MonthAt(ts)).0; Covered(p, ts) && SameFixes(c, p)
  {
    var name := PartitionName(MonthAt(ts));
    EnsuringAdds(c, MonthAt(ts));
    var p := Ensured(c, MonthAt(ts)).0;
    OneCovers(p, name, ts);
    hide PartitionName, MonthStart, MonthAt, Ensured, Sound, Covers, SameFixes;
    if name in c {
      OneCovers(c, name, ts);
      assert false;
    }
    EmptyTableAddsNothing(c, name, MonthTable(MonthAt(ts)));
  }

  lemma NotKnown(c: Catalog, key: Key)
    requires Sound(c) && !Covered(c, key.ts)
    ensures !Known(c, key)
  {
    hide Monthly;
  }

  /** A replay that comes next changes nothing, whatever it carries: a known identity is absorbed. */
  lemma ReplayIsAbsorbed(c: Catalog, f: Fix, now: int, c': Catalog, r: Result<bool>,
                         again: Fix, later: int, c'': Catalog, r': Result<bool>)
    requires Sound(c) && Ingests(c, f, now, c', r) && r.Ok?
    requires again.key == f.key && Ingests(c', again, later, c'', r')
    ensures c'' == c' && r' != Ok(true)
    ensures InWindow(f.key.ts, later) && ValidLonLat(again.lon, again.lat) ==> r' == Ok(false)
  {
    hide Ingests, Sound, InWindow, ValidLonLat;
    IngestStoresOrAbsorbs(c, f, now, c', r);
    IngestStoresOrAbsorbs(c', again, later, c'', r');
    if !Known(c, f.key) {
      assert Stored(c', f);
      var n :| Holds(c', n, f);
      assert Known(c', f.key);
    }
  }

  /** What one server instant can provision: acceptable fixes lie within five consecutive months. */
  lemma FiveMonths(now: int, a: int, b: int)
    requires InWindow(a, now) && InWindow(b, now)
    ensures MonthAt(b) - MonthAt(a) <= 4
  {
    InMonth(a, MonthAt(a));
    InMonth(b, MonthAt(b));
    if MonthAt(b) > MonthAt(a) + 4 {
      MonthsInOrder(MonthAt(a) + 1, MonthAt(b));
    }
    hide MonthStart, MonthAt;
  }

  // ---- purge ----------------------------------------------------------------------------------------------

  /** A purge takes no fix at or after its cutoff, however far it gets and whatever else is in the catalog. */
  lemma PurgeSparesTheNewer(c: Catalog, listing: seq<string>, cutoff: int, n: nat, f: Fix)
    requires n <= |listing| && Stored(c, f) && f.key.ts >= cutoff
    requires forall m :: m in c ==> RowsWithin(c[m])
    ensures Stored(Purged(c, listing, cutoff, n), f)
  {
    var m :| Holds(c, m, f);
    PurgeTakes(c, listing, cutoff, n, m);
    assert Covers(c[m], f.key.ts);
    assert Holds(Purged(c, listing, cutoff, n), m, f);
  }

  lemma {:induction false} ExpiredGrow(c: Catalog, listing: seq<string>, cutoff: int, i: nat, n: nat)
    requires i <= n <= |listing|
    ensures |ExpiredNames(c, listing, cutoff, i)| <= |ExpiredNames(c, listing, cutoff, n)|
    decreases n - i
  {
    if i < n {
      ExpiredGrow(c, listing, cutoff, i, n - 1);
    }
  }

  /** Over whole months a purge completes exactly when every DROP it needs succeeds. */
  lemma CompletesExactly(c: Catalog, listing: seq<string>, cutoff: int, drops: nat)
    requires Sound(c) && Lists(listing, c)
    ensures StopsAt(c, listing, cutoff, drops, |listing|) == |listing|
            <==> |ExpiredNames(c, listing, cutoff, |listing|)| <= drops
  {
    hide ExpiredNames, PartitionName, MonthStart;
    var stop := StopsAt(c, listing, cutoff, drops, |listing|);
    forall name | name in c ensures c[name].bounds.Range? {
      assert Monthly(name, c[name]);
    }
    if stop < |listing| {
      OneMoreExpired(c, listing, cutoff, stop);
      ExpiredGrow(c, listing, cutoff, stop + 1, |listing|);
    } else {
      WithinDrops(c, listing, cutoff, drops, |listing|);
    }
  }

  lemma OneMoreExpired(c: Catalog, listing: seq<string>, cutoff: int, i: nat)
    requires i < |listing| && listing[i] in c && Expired(c[listing[i]], cutoff)
    ensures |ExpiredNames(c, listing, cutoff, i + 1)| == |ExpiredNames(c, listing, cutoff, i)| + 1
  {
  }

  lemma {:induction false} WithinDrops(c: Catalog, listing: seq<string>, cutoff: int, drops: nat, n: nat)
    requires n <= |listing| && forall i :: 0 <= i < n ==> !Stops(c, listing, cutoff, drops, i)
    ensures |ExpiredNames(c, listing, cutoff, n)| <= drops
  {
    if n > 0 {
      WithinDrops(c, listing, cutoff, drops, n - 1);
      assert !Stops(c, listing, cutoff, drops, n - 1);
    }
  }

  /** A completed purge keeps exactly the fixes whose month ends after the cutoff; so every survivor is
      newer than the cutoff less 31 days. */
  lemma PurgeKeepsExactly(c: Catalog, listing: seq<string>, cutoff: int, f: Fix)
    requires Sound(c) && Lists(listing, c)
    ensures var c' := Purged(c, listing, cutoff, |listing|);
            && (Stored(c', f) <==> Stored(c, f) && MonthStart(MonthAt(f.key.ts) + 1) > cutoff)
            && (Stored(c', f) ==> f.key.ts > cutoff - 31 * DAY)
  {
    hide PartitionName, MonthAt, MonthStart;
    var c' := Purged(c, listing, cutoff, |listing|);
    assert listing[..|listing|] == listing;
    if Stored(c, f) {
      var n :| Holds(c, n, f);
      var month :| IsMonth(n, c[n], month);
      MonthCovers(n, c[n], month, f.key.ts);
      PurgeTakes(c, listing, cutoff, |listing|, n);
      if n in c' {
        assert Holds(c', n, f);
      } else {
        StoredOnce(c, listing, cutoff, f, n);
      }
      MonthLasts(month);
      assert Covers(c[n], f.key.ts);
    } else {
      NothingAppears(c, listing, cutoff, f);
    }
  }

  lemma NothingAppears(c: Catalog, listing: seq<string>, cutoff: int, f: Fix)
    ensures Stored(Purged(c, listing, cutoff, |listing|), f) ==> Stored(c, f)
  {
    var c' := Purged(c, listing, cutoff, |listing|);
    if Stored(c', f) {
      var n :| Holds(c', n, f);
      PurgeTakes(c, listing, cutoff, |listing|, n);
      assert Holds(c, n, f);
    }
  }

  lemma StoredOnce(c: Catalog, listing: seq<string>, cutoff: int, f: Fix, n: string)
    requires Sound(c) && Holds(c, n, f) && n !in Purged(c, listing, cutoff, |listing|)
    ensures !Stored(Purged(c, listing, cutoff, |listing|), f)
  {
    hide PartitionName, MonthAt, Monthly;
    var c' := Purged(c, listing, cutoff, |listing|);
    if Stored(c', f) {
      var m :| Holds(c', m, f);
      PurgeTakes(c, listing, cutoff, |listing|, m);
      assert Covers(c[m], f.key.ts) && Covers(c[n], f.key.ts);
      OneCovers(c, m, f.key.ts);
      OneCovers(c, n, f.key.ts);
    }
  }

  lemma PurgeSound(c: Catalog, listing: seq<string>, cutoff: int, n: nat)
    requires Sound(c) && n <= |listing|
    ensures Sound(Purged(c, listing, cutoff, n))
  {
    hide Monthly, RowsWithin;
    var c' := Purged(c, listing, cutoff, n);
    forall name | name in c' ensures Monthly(name, c'[name]) && RowsWithin(c'[name]) {
      PurgeTakes(c, listing, cutoff, n, name);
    }
  }

  // ---- whole lives ----------------------------------------------------------------------------------------

  // How many months are provisioned at start-up.
  const LOOKAHEAD: nat := 2

  datatype Event =
    | StartUp(now: int)
    | Arrival(f: Fix, at: int)
    | Purge(at: int, window: int, listing: seq<string>, drops: nat)

  ghost predicate Happens(c: Catalog, e: Event, c': Catalog) {
    match e
    case StartUp(now) => c' == EnsuredFrom(c, MonthAt(now), LOOKAHEAD).0
    case Arrival(f, at) => exists r :: Ingests(c, f, at, c', r)
    case Purge(at, window, listing, drops) =>
      && Lists(listing, c)
      && c' == Purged(c, listing, at - window, StopsAt(c, listing, at - window, drops, |listing|))
  }

  ghost predicate Next(c: Catalog, c': Catalog) {
    exists e :: Happens(c, e, c')
  }

  ghost predicate Life(states: seq<Catalog>) {
    && states != [] && states[0] == map[]
    && forall i :: 0 < i < |states| ==> Next(states[i - 1], states[i])
  }

  lemma EventKeepsSound(c: Catalog, e: Event, c': Catalog)
    requires Sound(c) && Happens(c, e, c')
    ensures Sound(c')
  {
    hide Sound, Ingests, EnsuredFrom, Purged, StopsAt, Lists, MonthAt;
    match e
    case StartUp(now) =>
      StartUpProvisions(c, MonthAt(now), LOOKAHEAD);
    case Arrival(f, at) =>
      var r :| Ingests(c, f, at, c', r);
      IngestStoresOrAbsorbs(c, f, at, c', r);
    case Purge(at, window, listing, drops) =>
      PurgeSound(c, listing, at - window, StopsAt(c, listing, at - window, drops, |listing|));
  }

  /** In every life, at every moment, each partition is a whole UTC month under its own name, disjoint from
      the others, and holds only fixes of that month. */
  lemma {:induction false} LifeIsSound(states: seq<Catalog>, n: nat)
    requires Life(states) && n < |states|
    ensures Sound(states[n])
  {
    if n > 0 {
      LifeIsSound(states, n - 1);
      assert Next(states[n - 1], states[n]);
      var e :| Happens(states[n - 1], e, states[n]);
      hide Happens, Sound;
      EventKeepsSound(states[n - 1], e, states[n]);
    }
  }

  /** And each stored fix is in exactly one partition, the one that covers its event time. */
  lemma OnePartitionEach(states: seq<Catalog>, n: nat, f: Fix, name: string)
    requires Life(states) && n < |states| && Stored(states[n], f) && name in states[n]
    ensures Holds(states[n], name, f) <==> Covers(states[n][name], f.key.ts)
  {
    LifeIsSound(states, n);
    hide Monthly, Covers;
    var c := states[n];
    var m :| Holds(c, m, f);
    OneCovers(c, m, f.key.ts);
    OneCovers(c, name, f.key.ts);
  }

  // ---- what is known, over whole lives --------------------------------------------------------------------

  // A life, with what happened in it.
  ghost predicate Lived(states: seq<Catalog>, events: seq<Event>) {
    && |states| == |events| + 1 && states[0] == map[]
    && forall i :: 0 <= i < |events| ==> Happens(states[i], events[i], states[i + 1])
  }

  lemma {:induction false} LivedIsSound(states: seq<Catalog>, events: seq<Event>, n: nat)
    requires Lived(states, events) && n < |states|
    ensures Sound(states[n])
  {
    hide Happens, Sound;
    if n == 0 {
      NothingIsSound();
    } else {
      LivedIsSound(states, events, n - 1);
      EventKeepsSound(states[n - 1], events[n - 1], states[n]);
    }
  }

  lemma NothingIsSound()
    ensures Sound(map[])
  {
  }

  // An arrival that leaves this identity known: in the window, and on the globe.
  predicate Brings(e: Event, key: Key) {
    e.Arrival? && e.f.key == key && InWindow(key.ts, e.at) && ValidLonLat(e.f.lon, e.f.lat)
  }

  // A purge that drops the month of this identity.
  predicate Takes(c: Catalog, e: Event, c': Catalog, key: Key) {
    e.Purge? && PartitionName(MonthAt(key.ts)) in c && PartitionName(MonthAt(key.ts)) !in c'
  }

  lemma KnownIsStored(c: Catalog, key: Key)
    requires Sound(c)
    ensures Known(c, key) <==> exists f :: Stored(c, f) && f.key == key
  {
    hide Monthly, Covers;
    if Known(c, key) {
      var n :| n in c && key in c[n].rows;
      assert Holds(c, n, c[n].rows[key]);
      assert Stored(c, c[n].rows[key]);
    }
    if f :| Stored(c, f) && f.key == key {
      var n :| Holds(c, n, f);
      assert key in c[n].rows;
    }
  }

  lemma ArrivalKnows(c: Catalog, f: Fix, at: int, c': Catalog, key: Key)
    requires Sound(c) && Happens(c, Arrival(f, at), c')
    ensures Known(c', key) <==> Known(c, key) || Brings(Arrival(f, at), key)
  {
    hide Sound, Ingests, Known, Stored, InWindow, ValidLonLat;
    var r :| Ingests(c, f, at, c', r);
    IngestStoresOrAbsorbs(c, f, at, c', r);
    KnownIsStored(c, key);
    KnownIsStored(c', key);
    if Adds(c, f, c') {
      assert Stored(c', f);
    }
  }

  lemma PurgeForgets(c: Catalog, listing: seq<string>, cutoff: int, n: nat, key: Key)
    requires Sound(c) && n <= |listing|
    ensures var c' := Purged(c, listing, cutoff, n); var name := PartitionName(MonthAt(key.ts));
            Known(c', key) <==> Known(c, key) && !(name in c && name !in c')
  {
    hide PartitionName, MonthAt, Monthly, Covers;
    var c', name := Purged(c, listing, cutoff, n), PartitionName(MonthAt(key.ts));
    if Known(c', key) {
      var m :| m in c' && key in c'[m].rows;
      PurgeTakes(c, listing, cutoff, n, m);
      OneCovers(c, m, key.ts);
    }
    if Known(c, key) {
      var m :| m in c && key in c[m].rows;
      OneCovers(c, m, key.ts);
      PurgeTakes(c, listing, cutoff, n, m);
    }
  }

  lemma StartUpKnows(c: Catalog, month: int, n: nat, key: Key)
    requires Sound(c)
    ensures Known(EnsuredFrom(c, month, n).0, key) <==> Known(c, key)
  {
    StartUpProvisions(c, month, n);
    hide EnsuredFrom, PartitionName, Sound;
    var c' := EnsuredFrom(c, month, n).0;
    if Known(c, key) {
      var m :| m in c && key in c[m].rows;
      assert m in c' && key in c'[m].rows;
    }
  }

  // One event of a life: known after it is brought by it, or known before and not taken.
  lemma KnownNext(c: Catalog, e: Event, c': Catalog, key: Key)
    requires Sound(c) && Happens(c, e, c')
    ensures Known(c', key) <==> Brings(e, key) || (Known(c, key) && !Takes(c, e, c', key))
  {
    hide Sound, Known, Ingests, EnsuredFrom, Purged, StopsAt, Lists, MonthAt, PartitionName;
    match e
    case StartUp(now) => StartUpKnows(c, MonthAt(now), LOOKAHEAD, key);
    case Arrival(f, at) => ArrivalKnows(c, f, at, c', key);
    case Purge(at, window, listing, drops) =>
      PurgeForgets(c, listing, at - window, StopsAt(c, listing, at - window, drops, |listing|), key);
  }

  // The arrival at moment n brought this identity, and no purge has taken its month before moment m.
  ghost predicate Remembered(states: seq<Catalog>, events: seq<Event>, n: int, m: nat, key: Key)
    requires |states| == |events| + 1 && m < |states|
  {
    && 0 <= n < m && Brings(events[n], key)
    && forall k :: n < k < m ==> !Takes(states[k], events[k], states[k + 1], key)
  }

  ghost predicate StillHeld(states: seq<Catalog>, events: seq<Event>, m: nat, key: Key)
    requires |states| == |events| + 1 && m < |states|
  {
    exists n :: Remembered(states, events, n, m, key)
  }

  lemma {:induction false} KnownExactly(states: seq<Catalog>, events: seq<Event>, m: nat, key: Key)
    requires Lived(states, events) && m < |states|
    ensures Known(states[m], key) <==> StillHeld(states, events, m, key)
  {
    hide Happens, Known, Brings, Takes, Sound;
    if m == 0 {
      NothingKnown(key);
    } else {
      KnownExactly(states, events, m - 1, key);
      LivedIsSound(states, events, m - 1);
      KnownNext(states[m - 1], events[m - 1], states[m], key);
      RememberedNext(states, events, m - 1, key);
    }
  }

  lemma NothingKnown(key: Key)
    ensures !Known(map[], key)
  {
  }

  lemma RememberedNext(states: seq<Catalog>, events: seq<Event>, m: nat, key: Key)
    requires |states| == |events| + 1 && m < |events|
    ensures StillHeld(states, events, m + 1, key)
            <==> Brings(events[m], key)
                 || (StillHeld(states, events, m, key) && !Takes(states[m], events[m], states[m + 1], key))
  {
    hide Brings, Takes;
    var next := m + 1;
    if StillHeld(states, events, next, key) {
      var n :| Remembered(states, events, n, next, key);
      assert n < m ==> Remembered(states, events, n, m, key);
    }
    if Brings(events[m], key) {
      assert Remembered(states, events, m, next, key);
    } else if StillHeld(states, events, m, key) && !Takes(states[m], events[m], states[m + 1], key) {
      var n :| Remembered(states, events, n, m, key);
      assert Remembered(states, events, n, next, key);
    }
  }

  /** In every life: a fix in the window and on the globe is absorbed exactly when its identity has arrived
      before, the same way, and no purge has dropped its month since; absorbed, it changes nothing, and
      otherwise it is stored. */
  lemma AbsorbedExactly(states: seq<Catalog>, events: seq<Event>, m: nat, f: Fix, at: int, c': Catalog,
      r: Result<bool>)
    requires Lived(states, events) && m < |states| && Ingests(states[m], f, at, c', r)
    requires InWindow(f.key.ts, at) && ValidLonLat(f.lon, f.lat)
    ensures r == Ok(!StillHeld(states, events, m, f.key))
    ensures if r == Ok(false) then c' == states[m] else Adds(states[m], f, c')
  {
    hide Lived, Ingests, StillHeld, Adds, Sound;
    LivedIsSound(states, events, m);
    KnownExactly(states, events, m, f.key);
    IngestStoresOrAbsorbs(states[m], f, at, c', r);
  }
}
