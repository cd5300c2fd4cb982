/**
The fixes table: one partition per UTC month, provisioned at start-up and on demand, filled by an
idempotent ingest, and purged a whole month at a time.

Instants are nanoseconds since 1970-01-01.
*/
module PartitionStore {
  import opened CivilCalendar
  import opened Decimal
  import opened Options
  import opened Sequences

  const DAY: int := 86_400_000_000_000

  // ---- months as instants ---------------------------------------------------------------------------------

  function MonthAt(instant: int): int {
    MonthOf(instant / DAY)
  }

  function MonthStart(month: int): int {
    FirstDay(month) * DAY
  }

  /** An instant lies in its month and in no other. */
  lemma InMonth(instant: int, month: int)
    ensures MonthStart(month) <= instant < MonthStart(month + 1) <==> month == MonthAt(instant)
  {
    DayInMonth(instant / DAY, month);
    hide MonthOf, FirstDay;
    assert instant == instant / DAY * DAY + instant % DAY;
  }

  lemma MonthLasts(month: int)
    ensures MonthStart(month) + 28 * DAY <= MonthStart(month + 1) <= MonthStart(month) + 31 * DAY
  {
    MonthLength(month);
    hide FirstDay, LengthOf;
  }

  lemma StartsIn(month: int)
    ensures MonthAt(MonthStart(month)) == month
  {
    MonthLasts(month);
    InMonth(MonthStart(month), month);
  }

  lemma {:induction false} MonthsInOrder(a: int, b: int)
    requires a < b
    ensures MonthStart(a) + (b - a) * 28 * DAY <= MonthStart(b)
    decreases b - a
  {
    MonthLasts(b - 1);
    hide MonthStart;
    if a < b - 1 {
      MonthsInOrder(a, b - 1);
    }
  }

  /** Months end after an instant from that instant's own month on. */
  lemma EndsAfter(ts: int, cutoff: int)
    ensures MonthStart(MonthAt(ts) + 1) > cutoff <==> ts >= MonthStart(MonthAt(cutoff))
  {
    var m, n := MonthAt(ts), MonthAt(cutoff);
    InMonth(ts, m);
    InMonth(cutoff, n);
    hide MonthStart, MonthAt;
    if m < n {
      MonthsInOrder(m + 1, n + 1);
      Ordered(m + 1, n);
    } else {
      Ordered(n, m);
      Ordered(n + 1, m + 1);
    }
  }

  lemma Ordered(a: int, b: int)
    requires a <= b
    ensures MonthStart(a) <= MonthStart(b)
  {
    if a < b {
      MonthsInOrder(a, b);
    }
  }

  // ---- names -------------------------------------------------------------------------------------------------

  // A year at least four characters wide, the sign included.
  function YearText(year: int): string {
    if 0 <= year <= 9999 then Four(year)
    else if -999 <= year < 0 then "-" + [Digit(-year / 100)] + Two(-year % 100)
    else WriteInt(year)
  }

  function PartitionName(month: int): string {
    "fixes_" + YearText(month / 12) + "_" + Two(month % 12 + 1)
  }

  lemma YearTextIsRead(year: int)
    ensures ParseSigned(YearText(year)) == Some(year)
  {
    if 0 <= year <= 9999 {
      FourIsRead(year);
    } else if -999 <= year < 0 {
      var s := YearText(year);
      var digits := [Digit(-year / 100)] + Two(-year % 100);
      assert s == "-" + digits;
      assert s[1..] == digits;
      ReadThree(digits);
    } else {
      WrittenIntIsRead(year);
    }
  }

  lemma TwoDiffer(a: nat, b: nat)
    requires a < 100 && b < 100 && Two(a) == Two(b)
    ensures a == b
  {
    TwoIsRead(a);
    TwoIsRead(b);
  }

  lemma NameParts(prefix: string, year: string, month: string, year': string, month': string)
    requires |month| == |month'| == 2
    requires prefix + year + "_" + month == prefix + year' + "_" + month'
    ensures year == year' && month == month'
  {
    var s := prefix + year + "_" + month;
    var s' := prefix + year' + "_" + month';
    assert |year| == |year'|;
    assert s[|prefix|..|prefix| + |year|] == year && s'[|prefix|..|prefix| + |year|] == year';
    assert s[|prefix| + |year| + 1..] == month && s'[|prefix| + |year| + 1..] == month';
  }

  /** No two months share a partition name. */
  lemma NamesDiffer(a: int, b: int)
    ensures PartitionName(a) == PartitionName(b) <==> a == b
  {
    if PartitionName(a) == PartitionName(b) {
      NameParts("fixes_", YearText(a / 12), Two(a % 12 + 1), YearText(b / 12), Two(b % 12 + 1));
      YearTextIsRead(a / 12);
      YearTextIsRead(b / 12);
      TwoDiffer(a % 12 + 1, b % 12 + 1);
    }
  }

  /** In a four-digit year the name is the prefix, the year in four digits and the month in two. */
  lemma NameSpells(year: nat, month: nat)
    requires year <= 9999 && 1 <= month <= 12
    ensures var name := PartitionName(12 * year + month - 1);
            && |name| == 13 && name[..6] == "fixes_" && name[10] == '_'
            && ParseDigits(name[6..10]) == Some(year) && ParseDigits(name[11..]) == Some(month)
  {
    FourIsRead(year);
    TwoIsRead(month);
    var m := 12 * year + month - 1;
    assert m / 12 == year && m % 12 + 1 == month;
    hide Two, Four, ParseDigits, ParseSigned;
    var name := "fixes_" + Four(year) + "_" + Two(month);
    assert name[6..10] == Four(year) && name[11..] == Two(month) && name[..6] == "fixes_";
  }

  // ---- the catalog ---------------------------------------------------------------------------------------------

  type Device(==, !new)
  type Report(==, !new)

  // A fix's identity: whose it is, and the device's event time.
  datatype Key = Key(device: Device, ts: int)

  datatype Number = Finite(x: real) | NotFinite

  datatype Fix = Fix(key: Key, lon: Number, lat: Number, report: Report)

  // What a relation of some name holds: a partition of the fixes with a range, a partition whose bound
  // cannot be read, or no partition at all.
  datatype Bounds = Range(lower: int, upper: int) | Unreadable | NoPartition

  datatype Table = Table(bounds: Bounds, rows: map<Key, Fix>)

  type Catalog = map<string, Table>

  predicate Covers(t: Table, ts: int) {
    t.bounds.Range? && t.bounds.lower <= ts < t.bounds.upper
  }

  predicate Overlaps(t: Table, lower: int, upper: int) {
    t.bounds.Range? && t.bounds.lower < upper && lower < t.bounds.upper
  }

  ghost predicate Covered(c: Catalog, ts: int) {
    exists n :: n in c && Covers(c[n], ts)
  }

  ghost predicate Stored(c: Catalog, f: Fix) {
    exists n :: Holds(c, n, f)
  }

  predicate Holds(c: Catalog, n: string, f: Fix) {
    n in c && f.key in c[n].rows && c[n].rows[f.key] == f
  }

  datatype Error = OutOfWindow | BadCoordinate | MissingPartition | CreateFailed | Unrecognized | BadCount

  datatype Result<T> = Ok(value: T) | Err(error: Error)

  function MonthTable(month: int): Table {
    Table(Range(MonthStart(month), MonthStart(month + 1)), map[])
  }

  // CREATE TABLE IF NOT EXISTS, and the check that the bounds are the month's.
  function Ensured(c: Catalog, month: int): (Catalog, Result<string>) {
    var name := PartitionName(month);
    var bounds := MonthTable(month).bounds;
    if name in c then
      if c[name].bounds == bounds then (c, Ok(name)) else (c, Err(Unrecognized))
    else if exists n :: n in c && Overlaps(c[n], bounds.lower, bounds.upper) then (c, Err(CreateFailed))
    else (c[name := MonthTable(month)], Ok(name))
  }

  // The first n months from one on, up to the first that fails.
  function EnsuredFrom(c: Catalog, month: int, n: nat): (Catalog, Result<seq<string>>) {
    if n == 0 then (c, Ok([]))
    else
      var (before, names) := EnsuredFrom(c, month, n - 1);
      if names.Err? then (before, names)
      else
        var (after, name) := Ensured(before, month + n - 1);
        (after, match name case Ok(x) => Ok(names.value + [x]) case Err(e) => Err(e))
  }

  predicate ValidLonLat(lon: Number, lat: Number) {
    lon.Finite? && lat.Finite? && -180.0 <= lon.x <= 180.0 && -90.0 <= lat.x <= 90.0
  }

  const MAX_INGEST_FUTURE_SKEW := DAY
  const MAX_INGEST_BACKLOG := 90 * DAY

  predicate InWindow(ts: int, now: int) {
    now - MAX_INGEST_BACKLOG <= ts <= now + MAX_INGEST_FUTURE_SKEW
  }

  // INSERT ... ON CONFLICT DO NOTHING into the partition that covers the fix, if there is one.
  ghost predicate Inserts(c: Catalog, f: Fix, c': Catalog, r: Result<bool>) {
    if !Covered(c, f.key.ts) then c' == c && r == Err(MissingPartition)
    else exists n :: n in c && Covers(c[n], f.key.ts) && InsertsInto(c, n, f, c', r)
  }

  ghost predicate InsertsInto(c: Catalog, n: string, f: Fix, c': Catalog, r: Result<bool>)
    requires n in c
  {
    if f.key in c[n].rows then c' == c && r == Ok(false)
    else c' == c[n := Table(c[n].bounds, c[n].rows[f.key := f])] && r == Ok(true)
  }

  ghost predicate Upserts(c: Catalog, f: Fix, c': Catalog, r: Result<bool>) {
    if !ValidLonLat(f.lon, f.lat) then c' == c && r == Err(BadCoordinate) else Inserts(c, f, c', r)
  }

  ghost predicate Ingests(c: Catalog, f: Fix, now: int, c': Catalog, r: Result<bool>) {
    if !InWindow(f.key.ts, now) then c' == c && r == Err(OutOfWindow)
    else if !ValidLonLat(f.lon, f.lat) || Covered(c, f.key.ts) then Upserts(c, f, c', r)
    else
      var (provisioned, name) := Ensured(c, MonthAt(f.key.ts));
      if name.Err? then c' == provisioned && r == Err(name.error)
      else Upserts(provisioned, f, c', r)
  }

  // ---- purging ----------------------------------------------------------------------------------------------------

  // Every partition of the fixes, in the order the catalog lists them.
  ghost predicate Lists(listing: seq<string>, c: Catalog) {
    && NoRepeats(listing)
    && (forall n :: n in c && !c[n].bounds.NoPartition? <==> n in listing)
  }

  predicate Expired(t: Table, cutoff: int) {
    t.bounds.Range? && t.bounds.upper <= cutoff
  }

  // What is left after the first n of the listing, up to the first unreadable bound.
  function Purged(c: Catalog, listing: seq<string>, cutoff: int, n: nat): Catalog
    requires n <= |listing|
  {
    if n == 0 then c
    else
      var before := Purged(c, listing, cutoff, n - 1);
      var name := listing[n - 1];
      if name in before && Expired(before[name], cutoff) then before - {name} else before
  }

  // The expired partitions among the first n of the listing, in its order.
  function ExpiredNames(c: Catalog, listing: seq<string>, cutoff: int, n: nat): seq<string>
    requires n <= |listing|
  {
    if n == 0 then []
    else
      var name := listing[n - 1];
      ExpiredNames(c, listing, cutoff, n - 1) + if name in c && Expired(c[name], cutoff) then [name] else []
  }

  // What ends a purge at the partition listed at i: a bound that cannot be read, or a DROP that fails after
  // `drops` that did not.
  predicate Stops(c: Catalog, listing: seq<string>, cutoff: int, drops: nat, i: nat)
    requires i < |listing|
  {
    && listing[i] in c
    && (c[listing[i]].bounds.Unreadable?
        || (Expired(c[listing[i]], cutoff) && |ExpiredNames(c, listing, cutoff, i)| >= drops))
  }

  // How far a purge gets.
  function StopsAt(c: Catalog, listing: seq<string>, cutoff: int, drops: nat, n: nat): (stop: nat)
    requires n <= |listing|
    ensures stop <= n && (stop < n ==> Stops(c, listing, cutoff, drops, stop))
    ensures forall i :: 0 <= i < stop ==> !Stops(c, listing, cutoff, drops, i)
  {
    if n == 0 then 0
    else
      var before := StopsAt(c, listing, cutoff, drops, n - 1);
      if before < n - 1 then before else if Stops(c, listing, cutoff, drops, n - 1) then n - 1 else n
  }

  datatype Ending = Completed | UnreadableBound | DropFailed

  function EndingAt(c: Catalog, listing: seq<string>, stop: nat): Ending
    requires stop <= |listing|
  {
    if stop == |listing| then Completed
    else if listing[stop] in c && c[listing[stop]].bounds.Unreadable? then UnreadableBound
    else DropFailed
  }

  lemma {:induction false} PurgeTakes(c: Catalog, listing: seq<string>, cutoff: int, n: nat, name: string)
    requires n <= |listing|
    ensures var c' := Purged(c, listing, cutoff, n);
            && (name in c' <==> name in c && !(Expired(c[name], cutoff) && name in listing[..n]))
            && (name in c' ==> c'[name] == c[name])
  {
    if n > 0 {
      PurgeTakes(c, listing, cutoff, n - 1, name);
      PurgeTakes(c, listing, cutoff, n - 1, listing[n - 1]);
      assert listing[..n] == listing[..n - 1] + [listing[n - 1]];
    }
  }

  lemma Unpurged(c: Catalog, listing: seq<string>, cutoff: int)
    ensures Purged(c, listing, cutoff, 0) == c && ExpiredNames(c, listing, cutoff, 0) == []
  {
  }

  // What a purge finds at its next name.
  lemma NextInListing(c: Catalog, listing: seq<string>, cutoff: int, i: nat)
    requires Lists(listing, c) && i < |listing|
    ensures var before := Purged(c, listing, cutoff, i); var name := listing[i];
            && name in c && name in before && before[name] == c[name] && !c[name].bounds.NoPartition?
            && Purged(c, listing, cutoff, i + 1) == (if Expired(c[name], cutoff) then before - {name} else before)
            && ExpiredNames(c, listing, cutoff, i + 1)
               == ExpiredNames(c, listing, cutoff, i) + (if Expired(c[name], cutoff) then [name] else [])
  {
    PurgeTakes(c, listing, cutoff, i, listing[i]);
    assert listing[i] in listing;
    assert forall k :: 0 <= k < i ==> listing[k] != listing[i];
  }

  lemma {:induction false} ExpiredAreGone(c: Catalog, listing: seq<string>, cutoff: int, n: nat, name: string)
    requires n <= |listing|
    ensures name in ExpiredNames(c, listing, cutoff, n) <==> name in c && name !in Purged(c, listing, cutoff, n)
  {
    PurgeTakes(c, listing, cutoff, n, name);
    ExpiredListed(c, listing, cutoff, n, name);
  }

  lemma {:induction false} ExpiredListed(c: Catalog, listing: seq<string>, cutoff: int, n: nat, name: string)
    requires n <= |listing|
    ensures name in ExpiredNames(c, listing, cutoff, n)
        <==> name in c && Expired(c[name], cutoff) && name in listing[..n]
  {
    if n > 0 {
      ExpiredListed(c, listing, cutoff, n - 1, name);
      assert listing[..n] == listing[..n - 1] + [listing[n - 1]];
    }
  }

  // ---- the store, in place ----------------------------------------------------------------------------------------

  class FixStore {
    var tables: Catalog

    constructor ()
      ensures tables == map[]
    {
      tables := map[];
    }

    method EnsureMonthlyPartition(instant: int) returns (r: Result<string>)
      modifies this
      ensures (tables, r) == Ensured(old(tables), MonthAt(instant))
    {
      hide MonthStart, MonthAt, PartitionName;
      var month := MonthAt(instant);
      var start, end := MonthStart(month), MonthStart(month + 1);
      var name := PartitionName(month);
      if name !in tables {
        if exists n :: n in tables && Overlaps(tables[n], start, end) {
          return Err(CreateFailed);
        }
        tables := tables[name := Table(Range(start, end), map[])];
      }
      if tables[name].bounds != Range(start, end) {
        return Err(Unrecognized);
      }
      return Ok(name);
    }

    method EnsurePartitions(from: int, months: int) returns (r: Result<seq<string>>)
      modifies this
      ensures if months < 1 then tables == old(tables) && r == Err(BadCount)
              else (tables, r) == EnsuredFrom(old(tables), MonthAt(from), months)
    {
      if months < 1 {
        return Err(BadCount);
      }
      r := EnsureFrom(MonthAt(from), months);
    }

    method EnsureFrom(first: int, months: nat) returns (r: Result<seq<string>>)
      modifies this
      ensures (tables, r) == EnsuredFrom(old(tables), first, months)
    {
      hide *;
      var names: seq<string> := [];
      NoneEnsured(tables, first);
      for i := 0 to months
        invariant EnsuredFrom(old(tables), first, i) == (tables, Ok(names))
      {
        var name := EnsureNth(old(tables), first, i, names);
        if name.Err? {
          StaysFailed(old(tables), first, i + 1, months);
          return Err(name.error);
        }
        names := names + [name.value];
      }
      return Ok(names);
    }

    // The month i after the first, once those before it are there.
    method EnsureNth(ghost before: Catalog, first: int, i: nat, ghost names: seq<string>) returns (r: Result<string>)
      requires EnsuredFrom(before, first, i) == (tables, Ok(names))
      modifies this
      ensures EnsuredFrom(before, first, i + 1) == (tables, if r.Ok? then Ok(names + [r.value]) else Err(r.error))
    {
      hide *;
      StartsIn(first + i);
      OneMoreEnsured(before, first, i);
      r := EnsureMonthlyPartition(MonthStart(first + i));
    }

    method UpsertFix(f: Fix) returns (r: Result<bool>)
      modifies this
      ensures Upserts(old(tables), f, tables, r)
    {
      if !ValidLonLat(f.lon, f.lat) {
        return Err(BadCoordinate);
      }
      if !exists n :: n in tables && Covers(tables[n], f.key.ts) {
        return Err(MissingPartition);
      }
      var n :| n in tables && Covers(tables[n], f.key.ts);
      if f.key in tables[n].rows {
        return Ok(false);
      }
      tables := tables[n := Table(tables[n].bounds, tables[n].rows[f.key := f])];
      return Ok(true);
    }

    method IngestFix(f: Fix, now: int) returns (r: Result<bool>)
      modifies this
      ensures Ingests(old(tables), f, now, tables, r)
    {
      if f.key.ts > now + MAX_INGEST_FUTURE_SKEW {
        return Err(OutOfWindow);
      }
      if f.key.ts < now - MAX_INGEST_BACKLOG {
        return Err(OutOfWindow);
      }
      hide Ensured, Covers, InsertsInto, MonthAt;
      r := UpsertFix(f);
      if r == Err(MissingPartition) {
        var name := EnsureMonthlyPartition(f.key.ts);
        if name.Err? {
          return Err(name.error);
        }
        r := UpsertFix(f);
      }
    }

    /** Drop every partition that ends at or before the cutoff, stopping at a bound that cannot be read, or at
        a DROP that fails after `drops` that succeed. */
    method DropPartitionsBefore(cutoff: int, listing: seq<string>, drops: nat)
        returns (dropped: seq<string>, ending: Ending)
      requires Lists(listing, tables)
      modifies this
      ensures var stop := StopsAt(old(tables), listing, cutoff, drops, |listing|);
              && tables == Purged(old(tables), listing, cutoff, stop)
              && ending == EndingAt(old(tables), listing, stop)
              && dropped == ExpiredNames(old(tables), listing, cutoff, stop)
              && (forall name :: name in dropped <==> name in old(tables) && name !in tables)
    {
      hide Purged, ExpiredNames, Lists, StopsAt;
      ghost var c := tables;
      dropped := [];
      ending := Completed;
      Unpurged(c, listing, cutoff);
      var i := 0;
      while i < |listing| && ending == Completed
        invariant 0 <= i <= |listing| && forall k :: 0 <= k < i ==> !Stops(c, listing, cutoff, drops, k)
        invariant tables == Purged(c, listing, cutoff, i) && dropped == ExpiredNames(c, listing, cutoff, i)
        invariant |dropped| <= drops
        invariant ending != Completed ==> i < |listing| && Stops(c, listing, cutoff, drops, i)
        invariant ending != Completed ==> ending == EndingAt(c, listing, i)
        decreases |listing| - i, ending == Completed
      {
        NextInListing(c, listing, cutoff, i);
        var name := listing[i];
        if tables[name].bounds.Unreadable? {
          ending := UnreadableBound;
        } else if tables[name].bounds.upper > cutoff {
          i := i + 1;
        } else if |dropped| == drops {
          ending := DropFailed;
        } else {
          tables := tables - {name};
          dropped := dropped + [name];
          i := i + 1;
        }
      }
      FirstStop(c, listing, cutoff, drops, i);
      forall name ensures name in dropped <==> name in c && name !in tables {
        ExpiredAreGone(c, listing, cutoff, i, name);
      }
    }

    /** One purge pass: everything whose whole month is older than the window. */
    method RunOnce(now: int, window: int, listing: seq<string>, drops: nat)
        returns (dropped: seq<string>, ending: Ending)
      requires Lists(listing, tables)
      modifies this
      ensures var stop := StopsAt(old(tables), listing, now - window, drops, |listing|);
              && tables == Purged(old(tables), listing, now - window, stop)
              && ending == EndingAt(old(tables), listing, stop)
              && dropped == ExpiredNames(old(tables), listing, now - window, stop)
              && (forall name :: name in dropped <==> name in old(tables) && name !in tables)
    {
      hide Purged, ExpiredNames, StopsAt, EndingAt, Lists;
      dropped, ending := DropPartitionsBefore(now - window, listing, drops);
    }
  }

  lemma NoneEnsured(c: Catalog, month: int)
    ensures EnsuredFrom(c, month, 0) == (c, Ok([]))
  {
  }

  lemma OneMoreEnsured(c: Catalog, month: int, n: nat)
    ensures var (before, names) := EnsuredFrom(c, month, n);
            var (after, name) := Ensured(before, month + n);
            names.Ok? ==>
              EnsuredFrom(c, month, n + 1)
              == (after, if name.Ok? then Ok(names.value + [name.value]) else Err(name.error))
  {
    hide Ensured;
  }

  lemma {:induction false} StaysFailed(c: Catalog, month: int, n: nat, m: nat)
    requires n <= m && EnsuredFrom(c, month, n).1.Err?
    ensures EnsuredFrom(c, month, m) == EnsuredFrom(c, month, n)
  {
    hide Ensured;
    if n < m {
      StaysFailed(c, month, n, m - 1);
    }
  }

  lemma FirstStop(c: Catalog, listing: seq<string>, cutoff: int, drops: nat, i: nat)
    requires i <= |listing| && (i < |listing| ==> Stops(c, listing, cutoff, drops, i))
    requires forall k :: 0 <= k < i ==> !Stops(c, listing, cutoff, drops, k)
    ensures StopsAt(c, listing, cutoff, drops, |listing|) == i
  {
    hide Stops;
  }
}
