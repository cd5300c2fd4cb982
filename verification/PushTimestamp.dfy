/**
The instant a push carries: the server writes it as a UTC calendar timestamp, the app reads it back.
*/
module PushTimestamp {
  import opened CivilCalendar
  import opened Decimal
  import opened Options

  datatype Clock = Clock(hour: nat, minute: nat, second: nat)

  // The day and the time of day of an instant, in whole seconds since 1970-01-01.
  function DayOf(t: int): int {
    t / 86_400
  }

  function ClockOf(t: int): Clock {
    var s := t % 86_400;
    Clock(s / 3600, s % 3600 / 60, s % 60)
  }

  predicate Writable(d: Date, c: Clock) {
    0 <= d.year <= 9999 && 0 <= d.month <= 99 && 0 <= d.day <= 99 && c.hour <= 99 && c.minute <= 99 && c.second <= 99
  }

  // 2006-01-02T15:04:05Z
  function Written(d: Date, c: Clock): string
    requires Writable(d, c)
  {
    Four(d.year) + "-" + Two(d.month) + "-" + Two(d.day) + "T" + Two(c.hour) + ":" + Two(c.minute) + ":"
        + Two(c.second) + "Z"
  }

  // The instants with a four-digit year.
  predicate Renderable(t: int) {
    0 <= DateOf(DayOf(t)).year <= 9999
  }

  lemma ClockRuns(t: int)
    ensures ClockOf(t).hour <= 23 && ClockOf(t).minute <= 59 && ClockOf(t).second <= 59
    ensures t == DayOf(t) * 86_400 + ClockOf(t).hour * 3_600 + ClockOf(t).minute * 60 + ClockOf(t).second
  {
  }

  lemma RenderableIsWritable(t: int)
    requires Renderable(t)
    ensures Writable(DateOf(DayOf(t)), ClockOf(t))
  {
    CountsDays(DayOf(t));
    ClockRuns(t);
    hide DateOf, DaysFromCivil, ClockOf;
  }

  // How the server writes an instant.
  function Render(t: int): string
    requires Renderable(t)
  {
    RenderableIsWritable(t);
    Written(DateOf(DayOf(t)), ClockOf(t))
  }

  // ---- the app's reading ------------------------------------------------------------------------------------

  predicate WellShaped(v: string) {
    |v| == 20 && v[4] == '-' && v[7] == '-' && v[10] == 'T' && v[13] == ':' && v[16] == ':' && v[19] == 'Z'
  }

  datatype Fields = Fields(year: Option<int>, month: Option<int>, day: Option<int>,
                           hour: Option<int>, minute: Option<int>, second: Option<int>)

  function FieldsOf(v: string): Fields
    requires WellShaped(v)
  {
    Fields(ParseSigned(v[0..4]), ParseSigned(v[5..7]), ParseSigned(v[8..10]),
           ParseSigned(v[11..13]), ParseSigned(v[14..16]), ParseSigned(v[17..19]))
  }

  // The checks on the fields, and their instant.
  function Instant(f: Fields): Option<int> {
    if f.year.None? || f.month.None? || f.day.None? || f.hour.None? || f.minute.None? || f.second.None? then None
    else if !(1 <= f.month.value <= 12 && 1 <= f.day.value <= 31 && 0 <= f.hour.value <= 23
              && 0 <= f.minute.value <= 59 && 0 <= f.second.value <= 60) then None
    else if f.day.value > DaysInMonth(f.year.value, f.month.value) then None
    else
      var days := DaysFromCivil(Date(f.year.value, f.month.value, f.day.value));
      Some(days * 86_400 + f.hour.value * 3_600 + f.minute.value * 60 + f.second.value)
  }

  function ParseUtcCalendarSeconds(value: Option<string>): Option<int> {
    if value.None? || !WellShaped(value.value) then None else Instant(FieldsOf(value.value))
  }

  function FieldsFor(d: Date, c: Clock): Fields {
    Fields(Some(d.year), Some(d.month), Some(d.day), Some(c.hour), Some(c.minute), Some(c.second))
  }

  lemma InstantAt(d: Date, c: Clock)
    requires Valid(d) && c.hour <= 23 && c.minute <= 59 && c.second <= 60
    ensures Instant(FieldsFor(d, c)) == Some(DaysFromCivil(d) * 86_400 + c.hour * 3_600 + c.minute * 60 + c.second)
  {
    hide DaysFromCivil;
  }

  lemma InstantOf(t: int)
    ensures Instant(FieldsFor(DateOf(DayOf(t)), ClockOf(t))) == Some(t)
  {
    CountsDays(DayOf(t));
    ClockRuns(t);
    InstantAt(DateOf(DayOf(t)), ClockOf(t));
    hide DateOf, DaysFromCivil, ClockOf, Instant;
  }

  lemma WrittenShape(d: Date, c: Clock)
    requires Writable(d, c)
    ensures var v := Written(d, c);
            && WellShaped(v)
            && v[0..4] == Four(d.year) && v[5..7] == Two(d.month) && v[8..10] == Two(d.day)
            && v[11..13] == Two(c.hour) && v[14..16] == Two(c.minute) && v[17..19] == Two(c.second)
  {
    Joined(Four(d.year), Two(d.month), Two(d.day), Two(c.hour), Two(c.minute), Two(c.second));
  }

  lemma Joined(year: string, month: string, day: string, hour: string, minute: string, second: string)
    requires |year| == 4 && |month| == |day| == |hour| == |minute| == |second| == 2
    ensures var v := year + "-" + month + "-" + day + "T" + hour + ":" + minute + ":" + second + "Z";
            && WellShaped(v)
            && v[0..4] == year && v[5..7] == month && v[8..10] == day
            && v[11..13] == hour && v[14..16] == minute && v[17..19] == second
  {
  }

  lemma WrittenIsRead(d: Date, c: Clock)
    requires Writable(d, c)
    ensures ParseUtcCalendarSeconds(Some(Written(d, c))) == Instant(FieldsFor(d, c))
  {
    WrittenShape(d, c);
    FourIsRead(d.year);
    TwoIsRead(d.month);
    TwoIsRead(d.day);
    TwoIsRead(c.hour);
    TwoIsRead(c.minute);
    TwoIsRead(c.second);
    hide Two, Four, ParseSigned, Written, WellShaped, Instant;
  }

  /** What the app reads is what the server wrote: every second of the years 0000 to 9999 comes back. */
  lemma ReadsWhatWasWritten(t: int)
    requires Renderable(t)
    ensures ParseUtcCalendarSeconds(Some(Render(t))) == Some(t)
  {
    RenderableIsWritable(t);
    InstantOf(t);
    WrittenIsRead(DateOf(DayOf(t)), ClockOf(t));
    hide DateOf, DayOf, ClockOf, Instant, Written, WellShaped, ParseUtcCalendarSeconds;
  }

  // ---- what else it accepts -------------------------------------------------------------------------------

  // Plain digits in every field, and not a sixtieth second.
  predicate Canonical(v: string)
    requires WellShaped(v)
  {
    && !Signed(v[0..4]) && !Signed(v[5..7]) && !Signed(v[8..10])
    && !Signed(v[11..13]) && !Signed(v[14..16]) && !Signed(v[17..19])
    && ParseSigned(v[17..19]) != Some(60)
  }

  lemma RenderedIsCanonical(t: int)
    requires Renderable(t)
    ensures WellShaped(Render(t)) && Canonical(Render(t))
  {
    var d := DateOf(DayOf(t));
    var c := ClockOf(t);
    RenderableIsWritable(t);
    ClockRuns(t);
    WrittenShape(d, c);
    FourIsRead(d.year);
    TwoIsRead(d.month);
    TwoIsRead(d.day);
    TwoIsRead(c.hour);
    TwoIsRead(c.minute);
    TwoIsRead(c.second);
    hide DateOf, DayOf, ClockOf, Two, Four, ParseSigned, Signed, Written, WellShaped;
  }

  lemma TextOfFields(v: string)
    requires WellShaped(v)
    ensures v == v[0..4] + "-" + v[5..7] + "-" + v[8..10] + "T" + v[11..13] + ":" + v[14..16] + ":" + v[17..19] + "Z"
  {
  }

  // A text whose fields are plain digits is the writing of its fields.
  lemma PlainIsWritten(v: string, d: Date, c: Clock)
    requires WellShaped(v) && Canonical(v) && FieldsOf(v) == FieldsFor(d, c)
    ensures Writable(d, c) && Written(d, c) == v
  {
    TextOfFields(v);
    FourReturns(v[0..4]);
    TwoReturns(v[5..7]);
    TwoReturns(v[8..10]);
    TwoReturns(v[11..13]);
    TwoReturns(v[14..16]);
    TwoReturns(v[17..19]);
    hide Two, Four, ParseSigned, Signed, WellShaped;
  }

  lemma ClockBack(t: int, days: int, c: Clock)
    requires c.hour <= 23 && c.minute <= 59 && c.second <= 59
    requires t == days * 86_400 + c.hour * 3_600 + c.minute * 60 + c.second
    ensures DayOf(t) == days && ClockOf(t) == c
  {
    var s := c.hour * 3600 + c.minute * 60 + c.second;
    assert (days * 86_400 + s) / 86_400 == days && (days * 86_400 + s) % 86_400 == s;
  }

  // An instant comes from a date and a time of day.
  lemma FieldsAgain(f: Fields, t: int) returns (d: Date, c: Clock)
    requires Instant(f) == Some(t) && f.second != Some(60)
    ensures Valid(d) && c.hour <= 23 && c.minute <= 59 && c.second <= 59 && f == FieldsFor(d, c)
    ensures t == DaysFromCivil(d) * 86_400 + c.hour * 3_600 + c.minute * 60 + c.second
  {
    hide DaysFromCivil;
    d := Date(f.year.value, f.month.value, f.day.value);
    c := Clock(f.hour.value, f.minute.value, f.second.value);
  }

  lemma RenderIs(t: int, d: Date, c: Clock)
    requires DateOf(DayOf(t)) == d && ClockOf(t) == c && Writable(d, c)
    ensures Renderable(t) && Render(t) == Written(d, c)
  {
    hide DateOf, DayOf, ClockOf, Written;
  }

  lemma CanonicalReturns(v: string, t: int)
    requires WellShaped(v) && Canonical(v) && Instant(FieldsOf(v)) == Some(t)
    ensures Renderable(t) && Render(t) == v
  {
    var f := FieldsOf(v);
    assert f.second != Some(60);
    hide *;
    var d, c := FieldsAgain(f, t);
    PlainIsWritten(v, d, c);
    DateOfCount(d);
    ClockBack(t, DaysFromCivil(d), c);
    RenderIs(t, d, c);
  }

  /** The writing is not the only text of its instant that is accepted: exactly the texts without a signed
      field and without a sixtieth second are what the server would have written. */
  lemma OnlyCanonicalReturns(v: string)
    requires ParseUtcCalendarSeconds(Some(v)).Some?
    ensures var t := ParseUtcCalendarSeconds(Some(v)).value;
            Renderable(t) && Render(t) == v <==> Canonical(v)
  {
    var t := ParseUtcCalendarSeconds(Some(v)).value;
    hide Render, Renderable, Canonical;
    if Renderable(t) && Render(t) == v {
      RenderedIsCanonical(t);
    }
    if Canonical(v) {
      CanonicalReturns(v, t);
    }
  }

  // The text's fields are a day of the calendar and a time of day, a sixtieth second included.
  ghost predicate Names(v: string, d: Date, c: Clock) {
    && |v| == 20 && v[4] == '-' && v[7] == '-' && v[10] == 'T' && v[13] == ':' && v[16] == ':' && v[19] == 'Z'
    && ParseSigned(v[0..4]) == Some(d.year) && ParseSigned(v[5..7]) == Some(d.month)
    && ParseSigned(v[8..10]) == Some(d.day) && ParseSigned(v[11..13]) == Some(c.hour)
    && ParseSigned(v[14..16]) == Some(c.minute) && ParseSigned(v[17..19]) == Some(c.second)
    && Valid(d) && c.hour <= 23 && c.minute <= 59 && c.second <= 60
  }

  /** Which texts are accepted at all, and as what: those whose fields are numbers, signed or not, that make a
      day of the calendar and a time of day, read as that second; anything else is refused. */
  lemma ReadsExactly(v: string, t: int)
    ensures ParseUtcCalendarSeconds(Some(v)) == Some(t)
            <==> exists d, c :: Names(v, d, c)
                   && t == DaysFromCivil(d) * 86_400 + c.hour * 3_600 + c.minute * 60 + c.second
  {
    hide DaysFromCivil, ParseSigned;
    if ParseUtcCalendarSeconds(Some(v)) == Some(t) {
      var f := FieldsOf(v);
      var d := Date(f.year.value, f.month.value, f.day.value);
      var c := Clock(f.hour.value, f.minute.value, f.second.value);
      assert Names(v, d, c);
    }
    if d, c :| Names(v, d, c) && t == DaysFromCivil(d) * 86_400 + c.hour * 3_600 + c.minute * 60 + c.second {
      assert FieldsOf(v) == FieldsFor(d, c);
      InstantAt(d, c);
    }
  }

  /** A leap second, for one, reads as the next midnight. */
  lemma LeapSecondIsNextMidnight(d: Date, leap: Clock, midnight: Clock)
    requires leap == Clock(23, 59, 60) && midnight == Clock(0, 0, 0)
    requires Valid(d) && Writable(d, leap) && Writable(Next(d), midnight)
    ensures ParseUtcCalendarSeconds(Some(Written(d, leap))) == ParseUtcCalendarSeconds(Some(Written(Next(d), midnight)))
    ensures ParseUtcCalendarSeconds(Some(Written(d, leap))).Some?
  {
    hide Written, DaysFromCivil, ParseUtcCalendarSeconds, Next, Instant, FieldsFor, Valid, Writable;
    NextIsValid(d);
    NextDay(d);
    InstantAt(d, leap);
    InstantAt(Next(d), midnight);
    WrittenIsRead(d, leap);
    WrittenIsRead(Next(d), midnight);
  }
}
