/**
"How long ago did this phone last reach us", as one word, and how often a stream has to ask.

Instants are nanoseconds since 1970-01-01; windows are whole seconds.
*/
module Presentation {

  import opened Options

  datatype Value = NoPosition | Live | Recent | Stale

  datatype Windows = Windows(live: int, stale: int)

  const NANOS := 1_000_000_000
  const MAX_INT64 := 0x7fff_ffff_ffff_ffff

  // What the configuration lets through.
  predicate Legal(w: Windows) {
    1 <= w.live < w.stale <= MAX_INT64
  }

  // Whole seconds and the rest, as the source takes an instant apart.
  function Unix(instant: int): int {
    instant / NANOS
  }

  function Nanosecond(instant: int): nat {
    instant % NANOS
  }

  function AgeSeconds(at: int, contact: int): nat {
    var borrowed := Unix(at) - Unix(contact) - if Nanosecond(at) - Nanosecond(contact) < 0 then 1 else 0;
    if borrowed < 0 then 0 else borrowed
  }

  function Evaluate(at: int, contact: Option<int>, w: Windows): Value {
    match contact
    case None => NoPosition
    case Some(c) =>
      var age := AgeSeconds(at, c);
      if age <= w.live then Live else if age <= w.stale then Recent else Stale
  }

  /** The age is the truncation of the difference, not a difference of truncations, and zero under a skew. */
  lemma AgeTruncatesTheDifference(at: int, contact: int)
    ensures AgeSeconds(at, contact) == if at < contact then 0 else (at - contact) / NANOS
  {
    var d := at - contact;
    assert at == NANOS * Unix(at) + Nanosecond(at) && contact == NANOS * Unix(contact) + Nanosecond(contact);
    assert d == NANOS * (d / NANOS) + d % NANOS;
  }

  /** The bands in real time: each boundary second belongs to the fresher side, to its last nanosecond. */
  lemma Bands(at: int, contact: int, w: Windows)
    requires Legal(w)
    ensures var v := Evaluate(at, Some(contact), w);
            && (v == Live <==> at - contact < (w.live + 1) * NANOS)
            && (v == Stale <==> at - contact >= (w.stale + 1) * NANOS)
            && v != NoPosition
  {
    AgeTruncatesTheDifference(at, contact);
    hide AgeSeconds;
    var d := at - contact;
    assert d == NANOS * (d / NANOS) + d % NANOS;
  }

  // The source's division truncates toward zero.
  function Halved(n: int): int {
    if n >= 0 then n / 2 else -(-n / 2)
  }

  function SweepBound(w: Windows): int {
    var band := w.stale - w.live;
    var smaller := if band < w.live then band else w.live;
    if Halved(smaller) > 1 then Halved(smaller) else 1
  }

  /** The sweep bound is the longest whole number of seconds that fits twice into the live window and twice into
      the recent band; or one second, when none does. */
  lemma SweepBoundFitsTwice(w: Windows, n: int)
    requires Legal(w) && n > 1
    ensures n <= SweepBound(w) <==> 2 * n <= w.live && 2 * n <= w.stale - w.live
    ensures SweepBound(w) >= 1
  {
  }

  // Polls no further apart than the sweep bound.
  ghost predicate Swept(polls: seq<int>, w: Windows) {
    forall i :: 0 < i < |polls| ==> polls[i] - polls[i - 1] <= SweepBound(w) * NANOS
  }

  /** No band is stepped over: polls that find a device live and, later, stale find it recent in between,
      however narrow the band and whatever the clock does meanwhile. */
  lemma {:induction false} NoBandSteppedOver(polls: seq<int>, contact: int, w: Windows)
    requires Legal(w) && Swept(polls, w) && polls != []
    requires Evaluate(polls[0], Some(contact), w) == Live
    requires Evaluate(polls[|polls| - 1], Some(contact), w) == Stale
    ensures exists i :: 0 < i < |polls| - 1 && Evaluate(polls[i], Some(contact), w) == Recent
    decreases |polls|
  {
    var n := |polls| - 1;
    Bands(polls[0], contact, w);
    Bands(polls[n], contact, w);
    var before := polls[..n];
    assert polls[n] - polls[n - 1] <= SweepBound(w) * NANOS;
    Bands(polls[n - 1], contact, w);
    assert Evaluate(polls[n - 1], Some(contact), w) != Live;
    if Evaluate(polls[n - 1], Some(contact), w) == Stale {
      assert before[|before| - 1] == polls[n - 1] && before[0] == polls[0];
      NoBandSteppedOver(before, contact, w);
      var i :| 0 < i < |before| - 1 && Evaluate(before[i], Some(contact), w) == Recent;
      assert Evaluate(polls[i], Some(contact), w) == Recent;
    }
  }

  // ---- the cadence of one open stream --------------------------------------------------------------

  const STREAM_POLL_INTERVAL := NANOS

  // A 64-bit product, wrapped around.
  function Wrapped(n: int): int {
    (n + 0x8000_0000_0000_0000) % 0x1_0000_0000_0000_0000 - 0x8000_0000_0000_0000
  }

  function StreamPollTick(w: Windows): int {
    var half := Halved(Wrapped(SweepBound(w) * NANOS));
    if 0 < half < STREAM_POLL_INTERVAL then half else STREAM_POLL_INTERVAL
  }

  /** The tick is one a ticker accepts, never slower than a second, and two of them fit in the sweep bound,
      overflow included. */
  lemma TickMeetsTheBound(w: Windows)
    ensures 0 < StreamPollTick(w) <= STREAM_POLL_INTERVAL
    ensures 2 * StreamPollTick(w) <= SweepBound(w) * NANOS
  {
  }

  /** The cadence is the documented one (a second, or half a second when the bound is one) exactly when the
      64-bit product does not wrap onto a short positive number. */
  lemma TickIsTheDocumentedOne(w: Windows)
    requires Legal(w)
    ensures StreamPollTick(w) == (if SweepBound(w) == 1 then STREAM_POLL_INTERVAL / 2 else STREAM_POLL_INTERVAL)
            <==> SweepBound(w) == 1
                 || !(2 <= (SweepBound(w) * NANOS) % 0x1_0000_0000_0000_0000 < 2 * STREAM_POLL_INTERVAL)
    ensures SweepBound(w) <= MAX_INT64 / NANOS
            ==> StreamPollTick(w) == if SweepBound(w) == 1 then STREAM_POLL_INTERVAL / 2 else STREAM_POLL_INTERVAL
  {
    var p := SweepBound(w) * NANOS;
    WrappedSmall(p);
  }

  lemma WrappedSmall(p: int)
    requires p >= 0
    ensures p <= MAX_INT64 ==> Wrapped(p) == p
    ensures var r := p % 0x1_0000_0000_0000_0000;
            Wrapped(p) == if r <= MAX_INT64 then r else r - 0x1_0000_0000_0000_0000
  {
    var m := 0x1_0000_0000_0000_0000;
    assert p == m * (p / m) + p % m;
  }

  /** Windows the configuration accepts for which the product wraps: the stream then polls every 256
      nanoseconds instead of every second. */
  lemma TickCanCollapse()
    ensures var w := Windows(40423014371506394, 80846028743012788);
            Legal(w) && SweepBound(w) > 2 && StreamPollTick(w) == 256
  {
  }
}
