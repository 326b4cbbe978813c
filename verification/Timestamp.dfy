/** values.go: binary timestamptz, microseconds since 2000, for instants counted in
    nanoseconds since 1970. Encoding floors; decoding uses Go's truncating division. */
module Timestamp {
  import opened Bytes

  const Y2K_MICROS: int := 946684800 * 1000000

  /** Go's / and % on integers truncate toward zero. */
  function Quo(a: int, b: nat): int
    requires b > 0
  {
    if a >= 0 then a / b else -((-a) / b)
  }

  function Rem(a: int, b: nat): int
    requires b > 0
  {
    a - b * Quo(a, b)
  }

  /** t.Unix() and t.Nanosecond(): whole seconds, floored, and the rest. */
  function Seconds(t: int): int { t / 1000000000 }

  function Nanos(t: int): nat { t % 1000000000 }

  /** time.Unix(sec, nsec) normalises nanoseconds outside [0, 1e9). */
  function Unix(sec: int, nsec: int): int {
    sec * 1000000000 + nsec
  }

  /** encodeTimestampTz, in int64 arithmetic. */
  function Encode(t: int): int {
    var sinceUnix := WrapSigned(WrapSigned(Seconds(t) * 1000000, 8) + Nanos(t) / 1000, 8);
    WrapSigned(sinceUnix - Y2K_MICROS, 8)
  }

  /** decodeTimestampTz, in int64 arithmetic. */
  function Decode(micros: int): int {
    var sinceUnix := WrapSigned(Y2K_MICROS + micros, 8);
    Unix(Quo(sinceUnix, 1000000), Rem(sinceUnix, 1000000) * 1000)
  }

  /** The microseconds of t since 1970, floored. */
  function FlooredMicros(t: int): int { t / 1000 }

  lemma SplitMicros(t: int)
    ensures Seconds(t) * 1000000 + Nanos(t) / 1000 == FlooredMicros(t)
  {
  }

  lemma EncodeIsMicros(t: int)
    ensures Encode(t) == WrapSigned(FlooredMicros(t) - Y2K_MICROS, 8)
  {
    hide WrapSigned;
    SplitMicros(t);
    WrapNested(Seconds(t) * 1000000, Nanos(t) / 1000, 8);
    WrapNested(FlooredMicros(t), -Y2K_MICROS, 8);
  }

  /** What the wire carries is the microseconds since 2000 exactly when they fit an int64. */
  lemma EncodedExactly(t: int)
    ensures Encode(t) == FlooredMicros(t) - Y2K_MICROS <==> FitsSigned(FlooredMicros(t) - Y2K_MICROS, 8)
  {
    hide WrapSigned;
    EncodeIsMicros(t);
    WrapSignedFits(FlooredMicros(t) - Y2K_MICROS, 8);
  }

  lemma TruncatingSplit(m: int)
    ensures Unix(Quo(m, 1000000), Rem(m, 1000000) * 1000) == m * 1000
  {
  }

  /** Decoding what was encoded gives the instant floored to the microsecond, before and
      after 1970 and 2000, exactly when the microseconds since 1970 fit an int64. The
      two shifts by the epoch may overflow: they wrap, and undo each other. */
  lemma RoundTrip(t: int)
    ensures Decode(Encode(t)) == FlooredMicros(t) * 1000 <==> FitsSigned(FlooredMicros(t), 8)
  {
    hide WrapSigned, FitsSigned;
    EncodeIsMicros(t);
    WrapNested(FlooredMicros(t) - Y2K_MICROS, Y2K_MICROS, 8);
    var m := WrapSigned(FlooredMicros(t), 8);
    TruncatingSplit(m);
    WrapSignedFits(FlooredMicros(t), 8);
  }
}
