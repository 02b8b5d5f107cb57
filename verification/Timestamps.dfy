/** Conversions between the file times of the platforms and signed 64-bit nanoseconds. Every
    intermediate value has the width the code gives it, so that each conversion is also shown never to
    overflow or underflow on the way. */
module Timestamps {
  import opened Common

  newtype Int64 = x: int | MIN_INT64 <= x <= MAX_INT64
  newtype UInt64 = x: int | 0 <= x <= MAX_UINT64

  const PER_SECOND: Int64 := 1_000_000_000
  const PER_TICK: UInt64 := 100
  const PER_TICK_SIGNED: Int64 := 100

  /** Ticks of 100 ns between the Windows and the Unix epoch. */
  const EPOCH_TICKS: UInt64 := 116_444_736_000_000_000

  datatype TimeError = OutOfRange

  /** Division and remainder as the machine does them, truncating toward zero. */
  function Quotient(a: Int64, b: Int64): (q: Int64)
    requires b > 1
    ensures a >= 0 ==> q == a / b
    ensures a < 0 ==> q as int == -(-(a as int) / b as int)
  {
    if a >= 0 then a / b else (-(-(a as int) / b as int)) as Int64
  }

  function Remainder(a: Int64, b: Int64): (r: Int64)
    requires b > 1
    ensures -b < r < b && r as int == a as int - Quotient(a, b) as int * b as int
  {
    if a >= 0 then a % b else (a as int - Quotient(a, b) as int * b as int) as Int64
  }

  // ----- seconds and nanoseconds ---------------------------------------------------------------

  function NanosecondsSinceEpoch(seconds: Int64, nanoseconds: Int64): Result<Int64, TimeError> {
    var maximum: Int64 := 0x7FFF_FFFF_FFFF_FFFF;
    var minimum: Int64 := -0x8000_0000_0000_0000;
    if nanoseconds < 0 || nanoseconds >= PER_SECOND || seconds > Quotient(maximum, PER_SECOND) || seconds < Quotient(minimum, PER_SECOND) then
      Err(OutOfRange)
    else
      var whole := seconds * PER_SECOND;
      if whole > maximum - nanoseconds then Err(OutOfRange) else Ok(whole + nanoseconds)
  }

  method RestoredModificationTime(modified: Int64) returns (seconds: Int64, nanoseconds: Int64)
    ensures 0 <= nanoseconds < PER_SECOND
    ensures seconds as int * 1_000_000_000 + nanoseconds as int == modified as int
  {
    seconds := Quotient(modified, PER_SECOND);
    nanoseconds := Remainder(modified, PER_SECOND);
    if nanoseconds < 0 {
      seconds := seconds - 1;
      nanoseconds := nanoseconds + PER_SECOND;
    }
  }

  /** A pair of whole seconds and a nanosecond part is determined by the instant it denotes. */
  lemma PairIsUnique(s: int, n: int, s': int, n': int)
    requires 0 <= n < 1_000_000_000 && 0 <= n' < 1_000_000_000
    requires s * 1_000_000_000 + n == s' * 1_000_000_000 + n'
    ensures s == s' && n == n'
  {
  }

  /** Which pairs are accepted, and what they become. */
  lemma AcceptedPairs(seconds: Int64, nanoseconds: Int64)
    ensures var r := NanosecondsSinceEpoch(seconds, nanoseconds);
            var instant := seconds as int * 1_000_000_000 + nanoseconds as int;
            && (r.Ok? <==> 0 <= nanoseconds < PER_SECOND && -9_223_372_036 <= seconds <= 9_223_372_036 && instant <= MAX_INT64)
            && (r.Ok? ==> r.value as int == instant)
  {
  }

  /** Round trip: an accepted pair, before or after the epoch, comes back unchanged. */
  method PairRoundTrip(seconds: Int64, nanoseconds: Int64) returns (s: Int64, n: Int64)
    requires NanosecondsSinceEpoch(seconds, nanoseconds).Ok?
    ensures s == seconds && n == nanoseconds
  {
    AcceptedPairs(seconds, nanoseconds);
    s, n := RestoredModificationTime(NanosecondsSinceEpoch(seconds, nanoseconds).value);
    PairIsUnique(s as int, n as int, seconds as int, nanoseconds as int);
  }

  /** The other way round it holds exactly down to a whole second above the smallest 64-bit value: an
      instant before that can be restored, but its pair would not be accepted again. */
  lemma InstantRoundTripIff(instant: Int64, seconds: Int64, nanoseconds: Int64)
    requires 0 <= nanoseconds < PER_SECOND && seconds as int * 1_000_000_000 + nanoseconds as int == instant as int
    ensures NanosecondsSinceEpoch(seconds, nanoseconds) == Ok(instant) <==> instant >= -9_223_372_036_000_000_000
  {
    AcceptedPairs(seconds, nanoseconds);
  }

  // ----- FILETIME ------------------------------------------------------------------------------

  function UnixTimeNanoseconds(ticks: UInt64): Result<Int64, TimeError> {
    var maximum: UInt64 := 0x7FFF_FFFF_FFFF_FFFF;
    if ticks >= EPOCH_TICKS then
      var unixTicks := ticks - EPOCH_TICKS;
      if unixTicks > maximum / PER_TICK then Err(OutOfRange) else Ok((unixTicks * PER_TICK) as Int64)
    else
      var before := EPOCH_TICKS - ticks;
      var minimumMagnitude := maximum + 1;
      if before > minimumMagnitude / PER_TICK then Err(OutOfRange)
      else
        var magnitude := before * PER_TICK;
        if magnitude == minimumMagnitude then Ok(-0x8000_0000_0000_0000) else Ok(-(magnitude as Int64))
  }

  method RestoredFiletime(modified: Int64) returns (ticks: UInt64)
    ensures ticks as int == EPOCH_TICKS as int + Quotient(modified, PER_TICK_SIGNED) as int
  {
    var unixTicks := Quotient(modified, PER_TICK_SIGNED);
    ticks := EPOCH_TICKS;
    if unixTicks >= 0 {
      ticks := ticks + unixTicks as UInt64;
    } else {
      ticks := ticks - ((-(unixTicks + 1)) as UInt64 + 1);
    }
  }

  /** Which tick values are accepted, and what they become. */
  lemma AcceptedTicks(ticks: UInt64)
    ensures var r := UnixTimeNanoseconds(ticks); var instant := (ticks as int - EPOCH_TICKS as int) * 100;
            && (r.Ok? <==> MIN_INT64 <= instant <= MAX_INT64)
            && (r.Ok? ==> r.value as int == instant)
  {
  }

  /** Round trip: an accepted tick value comes back unchanged. */
  method TicksRoundTrip(ticks: UInt64) returns (back: UInt64)
    requires UnixTimeNanoseconds(ticks).Ok?
    ensures back == ticks
  {
    AcceptedTicks(ticks);
    back := RestoredFiletime(UnixTimeNanoseconds(ticks).value);
  }

  /** The other way round it holds exactly for multiples of a tick. */
  lemma NanosecondsRoundTripIff(instant: Int64, ticks: UInt64)
    requires ticks as int == EPOCH_TICKS as int + Quotient(instant, PER_TICK_SIGNED) as int
    ensures UnixTimeNanoseconds(ticks) == Ok(instant) <==> instant as int % 100 == 0
  {
    AcceptedTicks(ticks);
    var q := Quotient(instant, PER_TICK_SIGNED) as int;
    assert instant >= 0 ==> q == instant as int / 100;
    assert instant < 0 ==> -q == (-(instant as int)) / 100;
  }
}
