/**
What one call on the fixes table does, said in numbers and instants, over any catalog: sound or not.
*/
module PartitionCalls {
  import opened Options
  import opened PartitionStore
  import opened PartitionLife

  // ---- storing ---------------------------------------------------------------------------------------------

  // A point ST_Point does not coerce: longitude within 180 degrees, latitude within 90.
  predicate OnTheGlobe(f: Fix) {
    match (f.lon, f.lat)
    case (Finite(lon), Finite(lat)) => -180.0 <= lon <= 180.0 && -90.0 <= lat <= 90.0
    case _ => false
  }

  // Ninety days behind the server and twenty-four hours ahead, in nanoseconds.
  predicate Timely(f: Fix, now: int) {
    -7_776_000_000_000_000 <= f.key.ts - now <= 86_400_000_000_000
  }

  /** Into a sound table, and whatever it holds: a fix is stored, or absorbed because its identity is known, if
      and only if it is at most ninety days behind the server, at most a day ahead, and on the globe; the
      window is looked at first, and a refused fix changes nothing. */
  lemma IngestsExactly(c: Catalog, f: Fix, now: int, c': Catalog, r: Result<bool>)
    requires Sound(c) && Ingests(c, f, now, c', r)
    ensures r.Ok? <==> Timely(f, now) && OnTheGlobe(f)
    ensures r == Err(OutOfWindow) <==> !Timely(f, now)
    ensures r == Err(BadCoordinate) <==> Timely(f, now) && !OnTheGlobe(f)
    ensures r == Ok(true) <==> r.Ok? && !exists n :: n in c && f.key in c[n].rows
    ensures forall g :: Stored(c', g) <==> Stored(c, g) || (g == f && r == Ok(true))
    ensures r != Ok(true) ==> c' == c
  {
    hide Sound, Ingests, Stored;
    IngestStoresOrAbsorbs(c, f, now, c', r);
  }

  // The partition whose range holds an instant.
  ghost predicate HomeOf(c: Catalog, n: string, ts: int) {
    n in c && c[n].bounds.Range? && c[n].bounds.lower <= ts < c[n].bounds.upper
  }

  ghost predicate AtHome(c: Catalog, n: string, f: Fix, c': Catalog, stored: bool)
    requires n in c
  {
    && (stored <==> f.key !in c[n].rows)
    && (stored ==> c' == c[n := Table(c[n].bounds, c[n].rows[f.key := f])])
  }

  /** Storing without provisioning: off the globe a fix is refused; on it, it fails where no range holds its
      instant, is absorbed by a partition that has its identity, and otherwise becomes one more row there. */
  lemma UpsertsExactly(c: Catalog, f: Fix, c': Catalog, r: Result<bool>)
    requires Upserts(c, f, c', r)
    ensures r == Err(BadCoordinate) <==> !OnTheGlobe(f)
    ensures r == Err(MissingPartition) <==> OnTheGlobe(f) && forall n :: !HomeOf(c, n, f.key.ts)
    ensures r != Ok(true) ==> c' == c
    ensures r.Ok? ==> exists n :: HomeOf(c, n, f.key.ts) && AtHome(c, n, f, c', r.value)
  {
    if Covered(c, f.key.ts) {
      var n :| n in c && Covers(c[n], f.key.ts);
      assert HomeOf(c, n, f.key.ts);
    }
    if OnTheGlobe(f) && Covered(c, f.key.ts) {
      var n :| n in c && Covers(c[n], f.key.ts) && InsertsInto(c, n, f, c', r);
      assert HomeOf(c, n, f.key.ts) && AtHome(c, n, f, c', r.value);
    }
  }

  // ---- provisioning ----------------------------------------------------------------------------------------

  // The partition has an instant in common with the month.
  ghost predicate Crosses(c: Catalog, n: string, month: int) {
    exists ts :: MonthStart(month) <= ts < MonthStart(month + 1) && HomeOf(c, n, ts)
  }

  ghost predicate NoEmptyRange(c: Catalog) {
    forall n :: n in c && c[n].bounds.Range? ==> c[n].bounds.lower < c[n].bounds.upper
  }

  lemma CrossesIsOverlap(c: Catalog, n: string, month: int)
    requires NoEmptyRange(c) && n in c
    ensures Crosses(c, n, month) <==> Overlaps(c[n], MonthStart(month), MonthStart(month + 1))
  {
    MonthLasts(month);
    hide MonthStart;
    if Overlaps(c[n], MonthStart(month), MonthStart(month + 1)) {
      var a, b := c[n].bounds.lower, MonthStart(month);
      assert HomeOf(c, n, if a > b then a else b);
    }
  }

  /** Provisioning a month reports success if and only if afterwards the name has exactly the month's bounds.
      What has the name already is left alone; a month that another partition reaches into is not created. */
  lemma ProvisionsExactly(c: Catalog, month: int)
    requires NoEmptyRange(c)
    ensures var (c', r) := Ensured(c, month); var name := PartitionName(month);
            && (r.Ok? <==> name in c' && c'[name].bounds == Range(MonthStart(month), MonthStart(month + 1)))
            && (r == Err(Unrecognized) <==>
                  name in c && c[name].bounds != Range(MonthStart(month), MonthStart(month + 1)))
            && (r == Err(CreateFailed) <==> name !in c && exists n :: Crosses(c, n, month))
            && (name in c || r.Err? ==> c' == c)
            && (name !in c && r.Ok? ==> c'.Keys == c.Keys + {name} && c'[name].rows == map[]
                                        && forall n :: n in c ==> c'[n] == c[n])
  {
    hide PartitionName, MonthStart, Crosses;
    forall n | n in c ensures Crosses(c, n, month) <==> Overlaps(c[n], MonthStart(month), MonthStart(month + 1)) {
      CrossesIsOverlap(c, n, month);
    }
    forall n | Crosses(c, n, month) ensures n in c {
      CrossesKnown(c, n, month);
    }
  }

  lemma CrossesKnown(c: Catalog, n: string, month: int)
    requires Crosses(c, n, month)
    ensures n in c
  {
  }

  // ---- purging ---------------------------------------------------------------------------------------------

  // What a purge has taken from the catalog.
  function Taken(c: Catalog, c': Catalog): set<string> {
    c.Keys - c'.Keys
  }

  lemma {:induction false} TakenCounts(c: Catalog, listing: seq<string>, cutoff: int, n: nat)
    requires Lists(listing, c) && n <= |listing|
    ensures |Taken(c, Purged(c, listing, cutoff, n))| == |ExpiredNames(c, listing, cutoff, n)|
  {
    hide *;
    if n == 0 {
      NoneTaken(c, listing, cutoff);
    } else {
      TakenCounts(c, listing, cutoff, n - 1);
      TakenStep(c, listing, cutoff, n - 1);
    }
  }

  lemma NoneTaken(c: Catalog, listing: seq<string>, cutoff: int)
    ensures |Taken(c, Purged(c, listing, cutoff, 0))| == 0 == |ExpiredNames(c, listing, cutoff, 0)|
  {
    assert c.Keys - c.Keys == {};
  }

  lemma TakenStep(c: Catalog, listing: seq<string>, cutoff: int, i: nat)
    requires Lists(listing, c) && i < |listing|
    ensures |Taken(c, Purged(c, listing, cutoff, i + 1))| - |ExpiredNames(c, listing, cutoff, i + 1)|
         == |Taken(c, Purged(c, listing, cutoff, i))| - |ExpiredNames(c, listing, cutoff, i)|
  {
    hide *;
    NextInListing(c, listing, cutoff, i);
    if Expired(c[listing[i]], cutoff) {
      TakenOneMore(c, Purged(c, listing, cutoff, i), listing[i]);
    }
  }

  lemma TakenOneMore(c: Catalog, before: Catalog, name: string)
    requires name in c && name in before
    ensures |Taken(c, before - {name})| == |Taken(c, before)| + 1
  {
    assert Taken(c, before - {name}) == Taken(c, before) + {name};
  }

  // The first `stop` of the listing are read and, where they end by the cutoff, gone; the rest is untouched.
  ghost predicate PurgedUpTo(c: Catalog, listing: seq<string>, cutoff: int, stop: nat, c': Catalog) {
    && stop <= |listing|
    && (forall k :: 0 <= k < stop ==> listing[k] in c && c[listing[k]].bounds.Range?
                                      && (listing[k] !in c' <==> c[listing[k]].bounds.upper <= cutoff))
    && (forall k :: stop <= k < |listing| ==> listing[k] in c')
    && (forall name :: name in c && name !in listing ==> name in c')
    && (forall name :: name in c' ==> name in c && c'[name] == c[name])
  }

  /** The names a purge reports are in the order of the listing. */
  lemma {:induction false} DroppedInOrder(c: Catalog, listing: seq<string>, cutoff: int, n: nat, i: nat, j: nat)
      returns (a: nat, b: nat)
    requires n <= |listing| && i < j < |ExpiredNames(c, listing, cutoff, n)|
    ensures a < b < n
    ensures ExpiredNames(c, listing, cutoff, n)[i] == listing[a] && ExpiredNames(c, listing, cutoff, n)[j] == listing[b]
  {
    if j < |ExpiredNames(c, listing, cutoff, n - 1)| {
      a, b := DroppedInOrder(c, listing, cutoff, n - 1, i, j);
    } else {
      a := DroppedListed(c, listing, cutoff, n - 1, i);
      b := n - 1;
    }
  }

  lemma {:induction false} DroppedListed(c: Catalog, listing: seq<string>, cutoff: int, n: nat, i: nat) returns (a: nat)
    requires n <= |listing| && i < |ExpiredNames(c, listing, cutoff, n)|
    ensures a < n && ExpiredNames(c, listing, cutoff, n)[i] == listing[a]
  {
    if i < |ExpiredNames(c, listing, cutoff, n - 1)| {
      a := DroppedListed(c, listing, cutoff, n - 1, i);
    } else {
      a := n - 1;
    }
  }

  /** How a purge ends, over any catalog: it gets through the listing, or stops at a bound that cannot be read,
      or at an expired partition whose DROP is the first to fail; and what lies past that is untouched. */
  lemma PurgeEnds(c: Catalog, listing: seq<string>, cutoff: int, drops: nat)
    requires Lists(listing, c)
    ensures var stop := StopsAt(c, listing, cutoff, drops, |listing|);
            var c' := Purged(c, listing, cutoff, stop);
            && PurgedUpTo(c, listing, cutoff, stop, c') && |Taken(c, c')| <= drops
            && match EndingAt(c, listing, stop)
               case Completed => stop == |listing|
               case UnreadableBound => stop < |listing| && c[listing[stop]].bounds.Unreadable?
               case DropFailed =>
                 && stop < |listing| && |Taken(c, c')| == drops
                 && c[listing[stop]].bounds.Range? && c[listing[stop]].bounds.upper <= cutoff
  {
    var stop := StopsAt(c, listing, cutoff, drops, |listing|);
    TakenCounts(c, listing, cutoff, stop);
    WithinDrops(c, listing, cutoff, drops, stop);
    hide Purged, ExpiredNames, StopsAt, Taken, Lists, PurgedUpTo;
    forall k | 0 <= k < |listing| ensures listing[k] in c && !c[listing[k]].bounds.NoPartition? {
      ListedIn(c, listing, k);
    }
    forall k | 0 <= k < stop ensures c[listing[k]].bounds.Range? {
      assert !Stops(c, listing, cutoff, drops, k);
    }
    PurgesUpTo(c, listing, cutoff, stop);
  }

  lemma ListedIn(c: Catalog, listing: seq<string>, k: nat)
    requires Lists(listing, c) && k < |listing|
    ensures listing[k] in c && !c[listing[k]].bounds.NoPartition?
  {
    assert listing[k] in listing;
  }

  lemma PurgesUpTo(c: Catalog, listing: seq<string>, cutoff: int, stop: nat)
    requires Lists(listing, c) && stop <= |listing|
    requires forall k :: 0 <= k < stop ==> listing[k] in c && c[listing[k]].bounds.Range?
    ensures PurgedUpTo(c, listing, cutoff, stop, Purged(c, listing, cutoff, stop))
  {
    var c' := Purged(c, listing, cutoff, stop);
    hide Purged, Lists;
    forall name
      ensures name in c' <==> name in c && !(Expired(c[name], cutoff) && name in listing[..stop])
      ensures name in c' ==> c'[name] == c[name]
    {
      PurgeTakes(c, listing, cutoff, stop, name);
    }
    forall k | 0 <= k < |listing| ensures listing[k] in c && (listing[k] in listing[..stop] <==> k < stop) {
      ListedIn(c, listing, k);
      ListedApart(c, listing, stop, k);
    }
  }

  lemma ListedApart(c: Catalog, listing: seq<string>, stop: nat, k: nat)
    requires Lists(listing, c) && stop <= |listing| && k < |listing|
    ensures listing[k] in listing[..stop] <==> k < stop
  {
    if k < stop {
      assert listing[..stop][k] == listing[k];
    }
  }
}
