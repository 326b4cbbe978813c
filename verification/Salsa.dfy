/** Salsa20/8 on sixteen 32-bit words: the quarter-round definition of the Salsa20
    core, and the unrolled, interleaved code that scrypt runs. */
module Salsa {
  import Bits
  import opened Windows

  const WORD: nat := 0x1_0000_0000

  type word = n: nat | n < WORD

  type Block = s: seq<word> | |s| == 16 witness seq(16, i => 0)

  function AddWord(a: word, b: word): word {
    (a + b) % WORD
  }

  function XorWord(a: word, b: word): word {
    Bits.Pow2Values();
    Bits.XorBelow(a, b, 32);
    Bits.Xor(a, b)
  }

  /** `u<<k | u>>(32-k)` on a 32-bit word. */
  function Rotl(u: word, k: nat): word
    requires 0 < k < 32
  {
    var high: word, low: word := (u * Bits.Pow2(k)) % WORD, Bits.Shr(u, 32 - k);
    Bits.Pow2Values();
    Bits.OrBelow(high, low, 32);
    Bits.Or(high, low)
  }

  /** The step of every round: `u = p + q; x ^= u<<k | u>>(32-k)`. */
  function Mix(x: word, p: word, q: word, k: nat): word
    requires 0 < k < 32
  {
    XorWord(x, Rotl(AddWord(p, q), k))
  }

  datatype Quad = Quad(a: word, b: word, c: word, d: word)

  /** quarterround: each word is mixed with the rotated sum of the two before it. */
  function QuarterRound(y: Quad): Quad {
    var b := Mix(y.b, y.a, y.d, 7);
    var c := Mix(y.c, b, y.a, 9);
    var d := Mix(y.d, c, b, 13);
    var a := Mix(y.a, d, c, 18);
    Quad(a, b, c, d)
  }

  /** One quarter round down each column, starting on the diagonal. */
  function ColumnRound(x: Block): (z: seq<word>)
    ensures |z| == 16
  {
    var c0 := QuarterRound(Quad(x[0], x[4], x[8], x[12]));
    var c1 := QuarterRound(Quad(x[5], x[9], x[13], x[1]));
    var c2 := QuarterRound(Quad(x[10], x[14], x[2], x[6]));
    var c3 := QuarterRound(Quad(x[15], x[3], x[7], x[11]));
    [c0.a, c1.d, c2.c, c3.b, c0.b, c1.a, c2.d, c3.c, c0.c, c1.b, c2.a, c3.d, c0.d, c1.c, c2.b, c3.a]
  }

  /** One quarter round along each row, starting on the diagonal. */
  function RowRound(x: Block): (z: seq<word>)
    ensures |z| == 16
  {
    var r0 := QuarterRound(Quad(x[0], x[1], x[2], x[3]));
    var r1 := QuarterRound(Quad(x[5], x[6], x[7], x[4]));
    var r2 := QuarterRound(Quad(x[10], x[11], x[8], x[9]));
    var r3 := QuarterRound(Quad(x[15], x[12], x[13], x[14]));
    [r0.a, r0.b, r0.c, r0.d, r1.d, r1.a, r1.b, r1.c, r2.c, r2.d, r2.a, r2.b, r3.b, r3.c, r3.d, r3.a]
  }

  function DoubleRounds(x: Block, n: nat): Block {
    if n == 0 then x else RowRound(ColumnRound(DoubleRounds(x, n - 1)))
  }

  function AddWords(x: Block, y: Block): (z: Block) {
    seq(16, i requires 0 <= i < 16 => AddWord(x[i], y[i]))
  }

  function XorWords(a: seq<word>, b: seq<word>): (c: seq<word>)
    requires |a| == |b|
    ensures |c| == |a|
  {
    seq(|a|, i requires 0 <= i < |a| => XorWord(a[i], b[i]))
  }

  /** Salsa20/8: eight rounds, fed forward. */
  function Salsa8(x: Block): Block {
    AddWords(DoubleRounds(x, 4), x)
  }

  /** The first half of the loop body of salsaXOR. */
  method ColumnStep(v: Block) returns (x: Block)
    ensures x == ColumnRound(v)
  {
    hide Mix;
    var x0, x1, x2, x3, x4, x5, x6, x7 := v[0], v[1], v[2], v[3], v[4], v[5], v[6], v[7];
    var x8, x9, x10, x11, x12, x13, x14, x15 := v[8], v[9], v[10], v[11], v[12], v[13], v[14], v[15];

    x4 := Mix(x4, x0, x12, 7);
    x8 := Mix(x8, x4, x0, 9);
    x12 := Mix(x12, x8, x4, 13);
    x0 := Mix(x0, x12, x8, 18);
    assert Quad(x0, x4, x8, x12) == QuarterRound(Quad(v[0], v[4], v[8], v[12]));

    x9 := Mix(x9, x5, x1, 7);
    x13 := Mix(x13, x9, x5, 9);
    x1 := Mix(x1, x13, x9, 13);
    x5 := Mix(x5, x1, x13, 18);
    assert Quad(x5, x9, x13, x1) == QuarterRound(Quad(v[5], v[9], v[13], v[1]));

    x14 := Mix(x14, x10, x6, 7);
    x2 := Mix(x2, x14, x10, 9);
    x6 := Mix(x6, x2, x14, 13);
    x10 := Mix(x10, x6, x2, 18);
    assert Quad(x10, x14, x2, x6) == QuarterRound(Quad(v[10], v[14], v[2], v[6]));

    x3 := Mix(x3, x15, x11, 7);
    x7 := Mix(x7, x3, x15, 9);
    x11 := Mix(x11, x7, x3, 13);
    x15 := Mix(x15, x11, x7, 18);
    assert Quad(x15, x3, x7, x11) == QuarterRound(Quad(v[15], v[3], v[7], v[11]));

    x := [x0, x1, x2, x3, x4, x5, x6, x7, x8, x9, x10, x11, x12, x13, x14, x15];
  }

  /** The second half of the loop body of salsaXOR. */
  method RowStep(v: Block) returns (x: Block)
    ensures x == RowRound(v)
  {
    hide Mix;
    var x0, x1, x2, x3, x4, x5, x6, x7 := v[0], v[1], v[2], v[3], v[4], v[5], v[6], v[7];
    var x8, x9, x10, x11, x12, x13, x14, x15 := v[8], v[9], v[10], v[11], v[12], v[13], v[14], v[15];

    x1 := Mix(x1, x0, x3, 7);
    x2 := Mix(x2, x1, x0, 9);
    x3 := Mix(x3, x2, x1, 13);
    x0 := Mix(x0, x3, x2, 18);
    assert Quad(x0, x1, x2, x3) == QuarterRound(Quad(v[0], v[1], v[2], v[3]));

    x6 := Mix(x6, x5, x4, 7);
    x7 := Mix(x7, x6, x5, 9);
    x4 := Mix(x4, x7, x6, 13);
    x5 := Mix(x5, x4, x7, 18);
    assert Quad(x5, x6, x7, x4) == QuarterRound(Quad(v[5], v[6], v[7], v[4]));

    x11 := Mix(x11, x10, x9, 7);
    x8 := Mix(x8, x11, x10, 9);
    x9 := Mix(x9, x8, x11, 13);
    x10 := Mix(x10, x9, x8, 18);
    assert Quad(x10, x11, x8, x9) == QuarterRound(Quad(v[10], v[11], v[8], v[9]));

    x12 := Mix(x12, x15, x14, 7);
    x13 := Mix(x13, x12, x15, 9);
    x14 := Mix(x14, x13, x12, 13);
    x15 := Mix(x15, x14, x13, 18);
    assert Quad(x15, x12, x13, x14) == QuarterRound(Quad(v[15], v[12], v[13], v[14]));

    x := [x0, x1, x2, x3, x4, x5, x6, x7, x8, x9, x10, x11, x12, x13, x14, x15];
  }

  /** The eight rounds and the feed-forward of salsaXOR, on sixteen local words. */
  method Rounds(w: Block) returns (z: Block)
    ensures z == Salsa8(w)
  {
    hide ColumnRound, RowRound;
    var x := w;
    var i := 0;
    while i < 8
      invariant 0 <= i <= 8 && i % 2 == 0
      invariant x == DoubleRounds(w, i / 2)
    {
      x := ColumnStep(x);
      x := RowStep(x);
      assert (i + 2) / 2 == i / 2 + 1;
      i := i + 2;
    }
    z := AddWords(x, w);
  }

  /** The sixteen pairs of stores that end salsaXOR. */
  method StoreBoth(tmp: array<word>, output: array<word>, outOff: nat, x: Block)
    requires tmp.Length == 16 && tmp != output && outOff + 16 <= output.Length
    modifies tmp, output
    ensures tmp[..] == x && output[outOff..outOff + 16] == x
    ensures OnlyChanges(output[..], old(output[..]), outOff, 16)
  {
    for k := 0 to 16
      invariant forall j :: 0 <= j < k ==> tmp[j] == x[j] && output[outOff + j] == x[j]
      invariant forall j :: 0 <= j < output.Length && !(outOff <= j < outOff + 16) ==> output[j] == old(output[j])
    {
      output[outOff + k], tmp[k] := x[k], x[k];
    }
  }

  /** salsaXOR: Salsa20/8 of tmp xor in, stored in both tmp and out. */
  method SalsaXor(tmp: array<word>, input: array<word>, inOff: nat, output: array<word>, outOff: nat)
    requires tmp.Length == 16 && tmp != input && tmp != output
    requires inOff + 16 <= input.Length && outOff + 16 <= output.Length
    modifies tmp, output
    ensures tmp[..] == Salsa8(XorWords(old(tmp[..]), old(input[inOff..inOff + 16])))
    ensures output[outOff..outOff + 16] == tmp[..]
    ensures OnlyChanges(output[..], old(output[..]), outOff, 16)
  {
    hide Salsa8;
    var w := seq(16, k requires 0 <= k < 16 reads tmp, input => XorWord(tmp[k], input[inOff + k]));
    assert w == XorWords(tmp[..], input[inOff..inOff + 16]);
    var x := Rounds(w);
    StoreBoth(tmp, output, outOff, x);
  }
}
