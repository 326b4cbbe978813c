/** What the operations of Salsa20/8 are, apart from their definitions: laws of rotation and
    addition, the two rounds as transposes of each other, and the first examples that the
    Salsa20 specification gives. */
module SalsaVectors {
  import opened Salsa
  import Bits

  /** A rotation by k moves the low 32-k bits up and brings the high k bits round. */
  lemma RotlValue(u: word, k: nat)
    requires 0 < k < 32
    ensures Rotl(u, k) == Bits.Pow2(k) * (u % Bits.Pow2(32 - k)) + u / Bits.Pow2(32 - k)
  {
    hide Bits.Or, Bits.Pow2, Bits.Shr;
    var c, m := Bits.Pow2(k), Bits.Pow2(32 - k);
    Bits.Pow2Sum(k, 32 - k);
    Bits.Pow2Values();
    Bits.ShrDivides(u, 32 - k);
    HighPart(u, c, m);
    Bits.OrCommutes(c * (u % m), u / m);
    Bits.OrDisjoint(u / m, u % m, k);
  }

  lemma HighPart(u: nat, c: nat, m: nat)
    requires c >= 1 && m >= 1 && u < c * m
    ensures (u * c) % (c * m) == c * (u % m) && u / m < c
  {
    var q, rem := Bits.Divide(u, m);
    Bits.ModProduct(u * c, c, m);
    Bits.ModuloUnique(u * c, c, u, 0);
    assert m * c == c * m;
    if q >= c {
      Bits.MulMonotone(m, c, q);
    }
  }

  lemma AddWordValue(a: word, b: word)
    ensures AddWord(a, b) == if a + b < 0x1_0000_0000 then a + b else a + b - 0x1_0000_0000
  {
  }

  lemma XorZero(b: word)
    ensures XorWord(0, b) == b
  {
    XorNothing(b);
  }

  lemma {:induction false} XorNothing(b: nat)
    ensures Bits.Xor(0, b) == b
  {
    if b > 0 {
      XorNothing(b / 2);
    }
  }

  /** Flipping the lowest bit of an even word. */
  lemma XorOne(b: word)
    requires b % 2 == 0
    ensures XorWord(1, b) == b + 1
  {
    XorNothing(b / 2);
    assert Bits.Xor(1, b) == 2 * Bits.Xor(0, b / 2) + 1;
  }

  lemma Powers()
    ensures Bits.Pow2(7) == 0x80 && Bits.Pow2(9) == 0x200 && Bits.Pow2(13) == 0x2000 && Bits.Pow2(18) == 0x4_0000
    ensures Bits.Pow2(25) == 0x200_0000 && Bits.Pow2(23) == 0x80_0000 && Bits.Pow2(19) == 0x8_0000 && Bits.Pow2(14) == 0x4000
  {
    Bits.Pow2Values();
    assert Bits.Pow2(9) == 2 * Bits.Pow2(8) && Bits.Pow2(25) == 2 * Bits.Pow2(24) && Bits.Pow2(24) == 2 * Bits.Pow2(23);
    Bits.Pow2Sum(9, 4);
    Bits.Pow2Sum(9, 9);
    Bits.Pow2Sum(18, 1);
    Bits.Pow2Sum(13, 1);
    assert Bits.Pow2(1) == 2;
  }

  /** `u<<k | u>>(32-k)` for the four counts of a quarter round. */
  lemma Rotations(u: word)
    ensures Rotl(u, 7) == 0x80 * (u % 0x200_0000) + u / 0x200_0000
    ensures Rotl(u, 9) == 0x200 * (u % 0x80_0000) + u / 0x80_0000
    ensures Rotl(u, 13) == 0x2000 * (u % 0x8_0000) + u / 0x8_0000
    ensures Rotl(u, 18) == 0x4_0000 * (u % 0x4000) + u / 0x4000
  {
    hide Rotl, Bits.Pow2;
    Powers();
    RotlValue(u, 7);
    RotlValue(u, 9);
    RotlValue(u, 13);
    RotlValue(u, 18);
  }

  // ---- the quarter round ----

  /** A quarter round whose first input alone is set. */
  lemma FirstSet()
    ensures QuarterRound(Quad(1, 0, 0, 0)) == Quad(0x08008145, 0x00000080, 0x00010200, 0x20500000)
  {
    hide Rotl, XorWord;
    Rotations(1);
    Rotations(0x81);
    Rotations(0x10280);
    Rotations(0x20510200);
    XorZero(0x80);
    XorZero(0x10200);
    XorZero(0x20500000);
    XorOne(0x08008144);
  }

  lemma SecondSet()
    ensures QuarterRound(Quad(0, 1, 0, 0)) == Quad(0x88000100, 0x00000001, 0x00000200, 0x00402000)
  {
    hide Rotl, XorWord;
    Rotations(0);
    Rotations(1);
    Rotations(0x201);
    Rotations(0x402200);
    XorOne(0);
    XorZero(0x200);
    XorZero(0x402000);
    XorZero(0x88000100);
  }

  lemma ThirdSet()
    ensures QuarterRound(Quad(0, 0, 1, 0)) == Quad(0x80040000, 0x00000000, 0x00000001, 0x00002000)
  {
    hide Rotl, XorWord;
    Rotations(0);
    Rotations(1);
    Rotations(0x2001);
    XorZero(0);
    XorOne(0);
    XorZero(0x2000);
    XorZero(0x80040000);
  }

  lemma FourthSet()
    ensures QuarterRound(Quad(0, 0, 0, 1)) == Quad(0x00048044, 0x00000080, 0x00010000, 0x20100001)
  {
    hide Rotl, XorWord;
    Rotations(1);
    Rotations(0x80);
    Rotations(0x10080);
    Rotations(0x20110001);
    XorZero(0x80);
    XorZero(0x10000);
    XorOne(0x20100000);
    XorZero(0x00048044);
  }

  // ---- the rounds ----

  /** The first example of rowround: every row starts with 1. */
  lemma RowRoundExample()
    ensures RowRound([1, 0, 0, 0, 1, 0, 0, 0, 1, 0, 0, 0, 1, 0, 0, 0])
         == [0x08008145, 0x00000080, 0x00010200, 0x20500000,
             0x20100001, 0x00048044, 0x00000080, 0x00010000,
             0x00000001, 0x00002000, 0x80040000, 0x00000000,
             0x00000001, 0x00000200, 0x00402000, 0x88000100]
  {
    hide QuarterRound;
    FirstSet();
    SecondSet();
    ThirdSet();
    FourthSet();
  }

  /** The sixteen words as a matrix, turned about its diagonal. */
  function Transpose(x: Block): Block {
    [x[0], x[4], x[8], x[12], x[1], x[5], x[9], x[13], x[2], x[6], x[10], x[14], x[3], x[7], x[11], x[15]]
  }

  /** A column round is a row round of the transpose, transposed back. */
  lemma ColumnIsTransposedRow(x: Block)
    ensures Transpose(ColumnRound(x)) == RowRound(Transpose(x))
  {
    hide QuarterRound;
  }

  /** Every word is mixed once in a round, with the words of its own row only. */
  lemma RowsApart(x: Block)
    ensures var q := QuarterRound(Quad(x[0], x[1], x[2], x[3])); RowRound(x)[..4] == [q.a, q.b, q.c, q.d]
    ensures var q := QuarterRound(Quad(x[5], x[6], x[7], x[4])); RowRound(x)[4..8] == [q.d, q.a, q.b, q.c]
    ensures var q := QuarterRound(Quad(x[10], x[11], x[8], x[9])); RowRound(x)[8..12] == [q.c, q.d, q.a, q.b]
    ensures var q := QuarterRound(Quad(x[15], x[12], x[13], x[14])); RowRound(x)[12..] == [q.b, q.c, q.d, q.a]
  {
    hide QuarterRound;
  }

  /** Salsa20/8 is four double rounds, eight rounds in all, a column round first in each,
      added word by word to its input. */
  lemma EightRounds(x: Block, a: Block, b: Block, c: Block, d: Block, i: nat)
    requires a == RowRound(ColumnRound(x)) && b == RowRound(ColumnRound(a))
    requires c == RowRound(ColumnRound(b)) && d == RowRound(ColumnRound(c)) && i < 16
    ensures var u: nat, v: nat := d[i], x[i]; Salsa8(x)[i] == (u + v) % 0x1_0000_0000
  {
    hide *;
    FourDoubles(x, a, b, c, d);
    FedForward(x);
    SumAt(d, x, i);
  }

  lemma FourDoubles(x: Block, a: Block, b: Block, c: Block, d: Block)
    requires a == RowRound(ColumnRound(x)) && b == RowRound(ColumnRound(a))
    requires c == RowRound(ColumnRound(b)) && d == RowRound(ColumnRound(c))
    ensures DoubleRounds(x, 4) == d
  {
    hide *;
    DoubleNone(x);
    DoubleMore(x, 0);
    DoubleMore(x, 1);
    DoubleMore(x, 2);
    DoubleMore(x, 3);
  }

  lemma FedForward(x: Block)
    ensures Salsa8(x) == AddWords(DoubleRounds(x, 4), x)
  {
    hide DoubleRounds, AddWords;
  }

  lemma SumAt(x: Block, y: Block, i: nat)
    requires i < 16
    ensures var u: nat, v: nat := x[i], y[i]; AddWords(x, y)[i] == (u + v) % 0x1_0000_0000
  {
  }

  lemma DoubleNone(x: Block)
    ensures DoubleRounds(x, 0) == x
  {
  }

  lemma DoubleMore(x: Block, n: nat)
    ensures DoubleRounds(x, n + 1) == RowRound(ColumnRound(DoubleRounds(x, n)))
  {
    hide RowRound, ColumnRound;
  }
}
