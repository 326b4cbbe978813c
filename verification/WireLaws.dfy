/** The octets of the PostgreSQL wire formats themselves, by position and by number, and what
    single reads take of them. */
module WireLaws {
  import opened Sequences
  import opened Wrappers
  import opened Bytes
  import opened Messages
  import opened Reader
  import opened Arrays
  import opened ArrayReader
  import Bits
  import Bind
  import Timestamp

  // ---- integers ----

  /** Two's complement in k octets, most significant first. */
  lemma SignedOctets(n: int, k: nat)
    requires k >= 1 && FitsSigned(n, k)
    ensures BigEndianValue(PutSigned(n, k)) == if n >= 0 then n else n + Pow256(k)
  {
    hide BigEndian, BigEndianValue, Pow256;
    BigEndianRoundTrip(n % Pow256(k), k);
    SmallModulo(n, Pow256(k));
  }

  lemma SmallModulo(n: int, m: nat)
    requires m >= 1 && n < m && n + m >= 0
    ensures n % m == (if n >= 0 then n else n + m) && n % m % m == n % m
  {
    if n < 0 {
      SameModulo(n, m, -1);
    }
  }

  lemma Reads(n: int, k: nat)
    requires k >= 1 && FitsSigned(n, k)
    ensures GetSigned(PutSigned(n, k)) == n
  {
    SignedRoundTrip(n, k);
  }

  /** A non-negative int32, written and read. */
  lemma ReadsSmall(n: nat)
    requires n < 0x8000_0000
    ensures GetSigned(PutSigned(n, 4)) == n
  {
    PowerValues();
    Reads(n, 4);
  }

  // ---- messages ----

  /** A message is its type, a length that counts itself and the payload but not the type,
      and the payload. */
  lemma MessageOctets(m: Msg)
    requires |m.payload| + 4 < 0x1_0000_0000
    ensures var s := Encode(m);
      && |s| == 5 + |m.payload| && s[0] == m.t && s[5..] == m.payload
      && BigEndianValue(s[1..5]) == |m.payload| + 4
  {
    hide BigEndian, BigEndianValue;
    PowerValues();
    BigEndianExact(|m.payload| + 4, 4);
    var word := BigEndian(|m.payload| + 4, 4);
    assert Encode(m)[1..5] == word;
  }

  // ---- msgReader ----

  /** A read within the message's budget returns exactly the next octets; one beyond it, or
      beyond the input, returns nothing and fails for good. */
  lemma TakeDecided(r: R, k: nat)
    requires r.err == NoError && 0 <= r.remaining < 0x8000_0000 && k < 0x8000_0000
    ensures k <= r.remaining && k <= |r.stream| ==>
        Take(r, k) == (R(r.stream[k..], r.remaining - k, NoError), Some(r.stream[..k]))
    ensures k > r.remaining || k > |r.stream| ==> Take(r, k).0.err != NoError && Take(r, k).1 == None
  {
    hide Sub32;
    Sub32Exact(r.remaining, k);
  }

  /** The same for a value, whose budget is counted as well. */
  lemma ValueDecided(v: V, k: nat)
    requires v.Ok() && 0 <= v.left <= v.r.remaining < 0x8000_0000 && k < 0x8000_0000
    ensures k <= v.left && k <= |v.r.stream| ==>
        VTake(v, k) == (V(R(v.r.stream[k..], v.r.remaining - k, NoError), v.left - k, false), Some(v.r.stream[..k]))
    ensures k > v.left ==> VTake(v, k).0.failed && VTake(v, k).1 == None && VTake(v, k).0.r == v.r
  {
    hide Sub32;
    Sub32Signed(v.left, k);
    TakeDecided(v.r, k);
    hide Take;
    if k > v.left {
      Sub32Exact(v.left, k);
    }
  }

  /** readCString returns the octets before the first NUL and leaves those after it. */
  lemma CStringRead(s: seq<byte>, more: seq<byte>, remaining: nat)
    requires 0 !in s && |s| + 1 <= remaining < 0x8000_0000
    ensures TakeCString(R(s + [0] + more, remaining, NoError)) == (R(more, remaining - |s| - 1, NoError), Some(s))
  {
    hide Sub32;
    var t := s + [0] + more;
    FirstZero(s, more);
    Sub32Exact(remaining, |s| + 1);
    assert t[|s| + 1..] == more && t[..|s|] == s;
  }

  lemma FirstZero(s: seq<byte>, more: seq<byte>)
    requires 0 !in s
    ensures ZeroAt(s + [0] + more) == |s|
  {
    var t := s + [0] + more;
    assert t[..|s|] == s;
    ZeroFound(t, |s|);
  }

  lemma {:induction false} ZeroFound(t: seq<byte>, z: nat)
    requires z < |t| && t[z] == 0 && 0 !in t[..z]
    ensures ZeroAt(t) == z
    decreases z
  {
    if z > 0 {
      assert t[..z] == [t[0]] + t[1..][..z - 1];
      ZeroFound(t[1..], z - 1);
    }
  }

  /** Without a NUL, or with one beyond the message, it fails. */
  lemma CStringFails(r: R)
    requires r.err == NoError && 0 <= r.remaining < 0x8000_0000 && |r.stream| < 0x7fff_ffff
    requires ZeroAt(r.stream) >= r.remaining || 0 !in r.stream
    ensures TakeCString(r).0.err != NoError && TakeCString(r).1 == None
  {
    hide Sub32;
    var i := ZeroAt(r.stream);
    hide ZeroAt;
    Sub32Exact(r.remaining, i + 1);
    assert i < |r.stream| ==> r.stream[i] in r.stream;
  }

  // ---- arrays ----

  /** Type numbers and widths: bool 16, int2 21, int4 23 and int8 20, in arrays 1000, 1005,
      1007 and 1016. */
  lemma KindTable()
    ensures BoolKind.Oid() == 16 && BoolKind.ArrayOid() == 1000 && BoolKind.Size() == 1
    ensures Int2Kind.Oid() == 21 && Int2Kind.ArrayOid() == 1005 && Int2Kind.Size() == 2
    ensures Int4Kind.Oid() == 23 && Int4Kind.ArrayOid() == 1007 && Int4Kind.Size() == 4
    ensures Int8Kind.Oid() == 20 && Int8Kind.ArrayOid() == 1016 && Int8Kind.Size() == 8
  {
  }

  /** An array's first twenty octets: one dimension, no NULLs, the element's type, the
      length, and 1 as the lower bound. */
  lemma HeaderOctets(oid: nat, n: nat)
    requires oid < 0x8000_0000 && n < 0x8000_0000
    ensures var s := Header(oid, n);
      && |s| == 20 && GetSigned(s[0..4]) == 1 && GetSigned(s[4..8]) == 0 && GetSigned(s[8..12]) == oid
      && GetSigned(s[12..16]) == n && GetSigned(s[16..20]) == 1
  {
    hide PutSigned, GetSigned;
    ReadsSmall(1);
    ReadsSmall(0);
    ReadsSmall(oid);
    ReadsSmall(n);
    var s := Header(oid, n);
    assert s[0..4] == PutSigned(1, 4) && s[4..8] == PutSigned(0, 4) && s[8..12] == PutSigned(oid, 4);
    assert s[12..16] == PutSigned(n, 4);
    LastFour(PutSigned(1, 4) + PutSigned(0, 4) + PutSigned(oid, 4) + PutSigned(n, 4), PutSigned(1, 4));
  }

  lemma LastFour(a: seq<byte>, b: seq<byte>)
    requires |a| == 16 && |b| == 4
    ensures (a + b)[16..20] == b
  {
  }

  /** Element i of a fixed-width array: its width, and its value in that many octets. */
  lemma {:induction false} ElementOctets(kind: Kind, vals: seq<int>, i: nat)
    requires i < |vals|
    ensures var w := 4 + kind.Size(); var s := Elements(kind, vals);
      && |s| == |vals| * w && i * w + w <= |s|
      && s[i * w..i * w + w] == PutSigned(kind.Size(), 4) + PutSigned(vals[i], kind.Size())
    decreases |vals|
  {
    hide PutSigned;
    var k, w := |vals| - 1, 4 + kind.Size();
    ElementsSize(kind, vals);
    ElementsSize(kind, vals[..k]);
    Bits.MulMonotone(w, i + 1, |vals|);
    assert w * (i + 1) == i * w + w && w * |vals| == |vals| * w;
    assert |vals| * w == k * w + w;
    assert Elements(kind, vals) == Elements(kind, vals[..k]) + Element(kind, vals[k]);
    if i < k {
      ElementOctets(kind, vals[..k], i);
    }
    hide Elements;
    SliceOf(Elements(kind, vals[..k]), Element(kind, vals[k]), i * w, i * w + w);
  }

  lemma TextOctets(t: seq<byte>)
    requires |t| < 0x8000_0000
    ensures var s := TextElement(t); |s| == 4 + |t| && GetSigned(s[..4]) == |t| && s[4..] == t
  {
    hide PutSigned, GetSigned;
    ReadsSmall(|t|);
    assert TextElement(t)[..4] == PutSigned(|t|, 4);
  }

  /** NULL arrays and arrays of another type or format are not read at all; the latter two
      are errors. */
  lemma DecodeRefuses(v: V, kind: Kind, dataType: int, format: int)
    ensures v.left == -1 ==> Decode(v, kind, dataType, format) == (v, NilSlice)
    ensures v.left != -1 && (dataType != kind.ArrayOid() || format != 1) ==>
        Decode(v, kind, dataType, format) == (v.(failed := true), NilSlice)
    ensures v.left == -1 ==> DecodeText(v, dataType, format) == (v, NilSlice)
    ensures v.left != -1 && ((dataType != 1009 && dataType != 1015) || format != 1) ==>
        DecodeText(v, dataType, format) == (v.(failed := true), NilSlice)
  {
    hide HeaderLength;
  }

  /** An element of another size, a NULL among them, ends the decoding with an error. */
  lemma ElementRefused(v: V, kind: Kind, vals: seq<int>, n: nat)
    requires n > 0 && VInt(v, 4).1 != kind.Size()
    ensures DecodeElements(v, kind, vals, n).1 == NilSlice && DecodeElements(v, kind, vals, n).0.failed
  {
    hide VInt;
  }

  /** A bool is true exactly when its octet is 1. */
  lemma BoolElement(n: int)
    ensures ElementValue(BoolKind, n) == if n == 1 then 1 else 0
    ensures ElementValue(Int2Kind, n) == n && ElementValue(Int4Kind, n) == n && ElementValue(Int8Kind, n) == n
  {
  }

  // ---- columns and rows ----

  /** A column is an int32 and that many octets, or -1 and none. */
  lemma ColumnOctets(c: Column)
    requires c.Some? ==> |c.value| < 0x8000_0000
    ensures var s := ColumnBytes(c);
      && |s| == 4 + (if c.Some? then |c.value| else 0)
      && GetSigned(s[..4]) == (if c.Some? then |c.value| else -1)
      && s[4..] == (if c.Some? then c.value else [])
  {
    hide PutSigned, GetSigned;
    PowerValues();
    if c.Some? {
      ReadsSmall(|c.value|);
      assert ColumnBytes(c)[..4] == PutSigned(|c.value|, 4);
    } else {
      Reads(-1, 4);
      assert PutSigned(-1, 4)[..4] == PutSigned(-1, 4);
    }
  }

  // ---- timestamps ----

  /** The wire counts from the start of 2000, which is thirty years and seven leap days after
      1970: that instant is 0, a microsecond before it -1. */
  lemma Epoch()
    ensures Timestamp.Encode((30 * 365 + 7) * 86400 * 1000000000) == 0
    ensures Timestamp.Encode((30 * 365 + 7) * 86400 * 1000000000 - 1) == -1
    ensures Timestamp.Decode(0) == (30 * 365 + 7) * 86400 * 1000000000
  {
    PowerValues();
    hide WrapSigned;
    Timestamp.EncodeIsMicros((30 * 365 + 7) * 86400 * 1000000000);
    Timestamp.EncodeIsMicros((30 * 365 + 7) * 86400 * 1000000000 - 1);
    WrapSignedFits(0, 8);
    WrapSignedFits(-1, 8);
    WrapSignedFits(Timestamp.Y2K_MICROS, 8);
    Timestamp.TruncatingSplit(Timestamp.Y2K_MICROS);
  }

  // ---- parameters ----

  /** The format of a parameter: a string is sent as text, an Encoder chooses, and anything
      else is sent in binary exactly for these types: bool, bytea, int2, int4, int8, float4,
      float8, timestamptz, oid, and the arrays of bool, int2, int4, int8, float4, float8,
      text, varchar, timestamp and timestamptz. */
  lemma Formats(oid: int, arg: Bind.Arg)
    ensures arg.Str? ==> Bind.FormatOf(oid, arg) == 0
    ensures arg.Encoder? ==> Bind.FormatOf(oid, arg) == arg.format
    ensures !arg.Str? && !arg.Encoder? ==> Bind.FormatOf(oid, arg) == (if Bind.BinaryOid(oid) then 1 else 0)
    ensures Bind.BinaryOid(oid) <==>
      (oid == 16 || oid == 17 || oid == 21 || oid == 23 || oid == 20 || oid == 700 || oid == 701 || oid == 1184 || oid == 26
       || oid == 1000 || oid == 1005 || oid == 1007 || oid == 1016 || oid == 1021 || oid == 1022
       || oid == 1009 || oid == 1015 || oid == 1115 || oid == 1185)
  {
  }

  /** The value that a parameter carries, or its refusal, for everything but integers. */
  lemma Values(oid: int, b: bool, s: seq<byte>, o: nat, t: int)
    ensures Bind.ValueOf(oid, Bind.Nil) == Some(None)
    ensures Bind.ValueOf(oid, Bind.Bool(b)) == if oid == 16 then Some(Some([if b then 1 else 0])) else None
    ensures Bind.ValueOf(oid, Bind.Str(s)) == Some(Some(s))
    ensures Bind.ValueOf(oid, Bind.Octets(s)) == if oid == 17 || oid == 25 || oid == 1043 then Some(Some(s)) else None
    ensures o < 0x8000_0000 ==>
        match Bind.ValueOf(oid, Bind.Oid(o))
        case Some(Some(w)) => oid == 26 && |w| == 4 && GetSigned(w) == o
        case r => oid != 26 && r == None
    ensures match Bind.ValueOf(oid, Bind.Time(t))
        case Some(Some(w)) => oid == 1184 && |w| == 8 && GetSigned(w) == Timestamp.Encode(t)
        case r => oid != 1184 && r == None
  {
    hide PutSigned, GetSigned;
    if o < 0x8000_0000 {
      ReadsSmall(o);
    }
    TimeFits(t);
    hide Timestamp.Encode;
    Reads(Timestamp.Encode(t), 8);
  }

  lemma TimeFits(t: int)
    ensures FitsSigned(Timestamp.Encode(t), 8)
  {
    hide WrapSigned;
    WrappedFits(Timestamp.FlooredMicros(t) - Timestamp.Y2K_MICROS);
    Timestamp.EncodeIsMicros(t);
  }

  lemma WrappedFits(n: int)
    ensures FitsSigned(WrapSigned(n, 8), 8)
  {
  }

  /** Integers: two octets for int2, four for int4 and eight for int8, refused above the
      type's maximum and for any other type. */
  lemma IntegerValues(oid: int, n: int)
    ensures match Bind.ValueOf(oid, Bind.Integer(n))
      case Some(Some(w)) =>
        || (oid == 21 && n <= 32767 && |w| == 2 && (n >= -32768 <==> GetSigned(w) == n))
        || (oid == 23 && n <= 2147483647 && |w| == 4 && (n >= -2147483648 <==> GetSigned(w) == n))
        || (oid == 20 && n <= 9223372036854775807 && |w| == 8 && (n >= -9223372036854775808 <==> GetSigned(w) == n))
      case r =>
        && r == None && (oid == 21 ==> n > 32767) && (oid == 23 ==> n > 2147483647)
        && (oid == 20 ==> n > 9223372036854775807)
  {
    PowerValues();
    hide PutSigned, GetSigned, Pow256;
    SignedRoundTrip(n, 2);
    SignedRoundTrip(n, 4);
    SignedRoundTrip(n, 8);
  }

  /** Values whose conversion is a library's are accepted for their own type: float4, float8
      and their arrays, date, timestamp, and the arrays of timestamp and timestamptz. */
  lemma ConvertedValues(oid: int, o: int, b: seq<byte>)
    ensures Bind.ValueOf(oid, Bind.Converted(o, b)) == if oid == o && Bind.ConvertedOid(oid) then Some(Some(b)) else None
    ensures Bind.ConvertedOid(oid) <==>
      (oid == 700 || oid == 701 || oid == 1021 || oid == 1022 || oid == 1082 || oid == 1114 || oid == 1115 || oid == 1185)
  {
  }

  /** Slices are accepted for the array type of their elements alone. */
  lemma SliceValues(oid: int, kind: Kind, vals: seq<int>, texts: seq<seq<byte>>)
    requires AllHold(kind, vals)
    ensures Bind.ValueOf(oid, Bind.Slice(kind, vals))
         == if oid == kind.ArrayOid() then Some(Some(Header(kind.Oid(), |vals|) + Elements(kind, vals))) else None
    ensures Bind.ValueOf(oid, Bind.Texts(texts))
         == if oid == 1009 then Some(Some(Header(25, |texts|) + TextElements(texts)))
            else if oid == 1015 then Some(Some(Header(1043, |texts|) + TextElements(texts))) else None
  {
    hide Header, Elements, TextElements;
  }

  // ---- the header of the next message ----

  /** rxMsg skips what is left of the current message, as far as there is input, and then
      takes five octets: a type and a length that counts itself but not the type. */
  lemma RxDecided(r: R)
    ensures r.err != NoError ==> Rx(r) == Unread
    ensures r.err == NoError ==>
        var n := if r.remaining <= 0 then 0 else if r.remaining < |r.stream| then r.remaining else |r.stream|;
        var s := r.stream[n..];
        if |s| < 5 then Rx(r) == Broken
        else Rx(r) == Received(s[0], R(s[5..], DeclaredLength(s[1..5]), NoError))
  {
    hide DeclaredLength;
  }

  lemma DeclaredDecided(s: seq<byte>)
    requires |s| == 4 && 4 <= BigEndianValue(s) < 0x8000_0000
    ensures DeclaredLength(s) == BigEndianValue(s) - 4
  {
    PowerValues();
    hide BigEndianValue;
    WrapSignedFits(BigEndianValue(s), 4);
    WrapSignedFits(BigEndianValue(s) - 4, 4);
  }

  /** No dimensions are no elements; more than one, or a lower bound other than 1, is an
      error; the length is the fourth number. */
  lemma HeaderDecided(v: V)
    ensures VInt(v, 4).1 == 0 ==> HeaderLength(v) == (VInt(v, 4).0, Some(0))
    ensures VInt(v, 4).1 != 0 && VInt(v, 4).1 != 1 ==> HeaderLength(v) == (VInt(v, 4).0, None)
    ensures VInt(v, 4).1 == 1 ==>
        var v3 := VInt(VInt(VInt(v, 4).0, 4).0, 4).0; var (v4, n) := VInt(v3, 4); var (v5, first) := VInt(v4, 4);
        HeaderLength(v) == (v5, if first == 1 then Some(n) else None)
  {
    hide VInt;
  }

  // ---- Bind ----

  /** The parts of a Bind message, in their order: the unnamed portal, the statement, the
      parameter formats, the parameters and the result formats, each list behind its count. */
  lemma BindParts(name: seq<byte>, formats: seq<int>, count: nat, params: seq<byte>, results: seq<int>)
    ensures Bind.BindPayload(name, formats, count, params, results)
         == [0] + name + [0] + PutSigned(|formats|, 2) + Bind.Int16s(formats) + PutSigned(count, 2) + params
            + PutSigned(|results|, 2) + Bind.Int16s(results)
  {
    hide PutSigned, Bind.Int16s;
  }

  lemma {:induction false} Int16sSize(ns: seq<int>)
    ensures |Bind.Int16s(ns)| == 2 * |ns|
    decreases |ns|
  {
    hide PutSigned;
    if ns != [] {
      Int16sSize(ns[..|ns| - 1]);
    }
  }

  lemma {:induction false} Int16At(ns: seq<int>, i: nat)
    requires i < |ns|
    ensures |Bind.Int16s(ns)| == 2 * |ns| && Bind.Int16s(ns)[2 * i..2 * i + 2] == PutSigned(ns[i], 2)
    decreases |ns|
  {
    hide PutSigned;
    var k := |ns| - 1;
    Int16sSize(ns);
    Int16sSize(ns[..k]);
    assert Bind.Int16s(ns) == Bind.Int16s(ns[..k]) + PutSigned(ns[k], 2);
    if i < k {
      Int16At(ns[..k], i);
    }
    hide Bind.Int16s;
    SliceOf(Bind.Int16s(ns[..k]), PutSigned(ns[k], 2), 2 * i, 2 * i + 2);
  }

  /** A slice of a + b that lies in a, or is b. */
  lemma SliceOf<T>(a: seq<T>, b: seq<T>, lo: nat, hi: nat)
    requires lo <= hi <= |a| + |b|
    ensures hi <= |a| ==> (a + b)[lo..hi] == a[lo..hi]
    ensures lo == |a| && hi == |a| + |b| ==> (a + b)[lo..hi] == b
  {
  }

  // ---- arithmetic ----

  /** Wrapping to k octets keeps the number modulo 256^k and brings it into their signed range. */
  lemma Wrapped(n: int, k: nat)
    requires k >= 1
    ensures WrapSigned(n, k) % Pow256(k) == n % Pow256(k)
    ensures 0 <= 2 * WrapSigned(n, k) + Pow256(k) < 2 * Pow256(k)
  {
    var m := Pow256(k);
    EvenPower(k);
    hide Pow256;
    SameRemainder(n % m, m);
  }

  lemma SameRemainder(r: nat, m: nat)
    requires r < m
    ensures r % m == r && (r - m) % m == r
  {
    Bits.ModuloUnique(r, m, 0, r);
    Bits.ModuloUnique(r - m, m, -1, r);
  }

  lemma EvenPower(k: nat)
    requires k >= 1
    ensures Pow256(k) % 2 == 0
  {
  }

  /** int16, int32 and int64. */
  lemma Widths(n: int)
    ensures FitsSigned(n, 2) <==> -32768 <= n <= 32767
    ensures FitsSigned(n, 4) <==> -2147483648 <= n <= 2147483647
    ensures FitsSigned(n, 8) <==> -9223372036854775808 <= n <= 9223372036854775807
  {
    PowerValues();
  }

  /** Go's quotient drops the fraction, and the remainder has the sign of the dividend. */
  lemma Truncates(a: int, b: nat)
    requires b > 0
    ensures a >= 0 ==> Timestamp.Quo(a, b) == a / b && 0 <= Timestamp.Rem(a, b) < b
    ensures a < 0 ==> Timestamp.Quo(a, b) == -((-a) / b) && 0 <= Timestamp.Rem(a, b) + b - 1 < b
    ensures Timestamp.Quo(-7, 2) == -3 && Timestamp.Rem(-7, 2) == -1
  {
    var n := if a >= 0 then a else -a;
    var q, rem := Bits.Divide(n, b);
    var i: int := q;
    assert b * (-i) == -(b * i);
  }
}
