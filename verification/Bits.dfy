/** Bitwise operations on naturals, bit by bit from the least significant end, and
    the division facts they rest on. Go's unsigned words are naturals below a bound;
    none of these operations sets a bit above its operands. */
module Bits {

  function Pow2(k: nat): (p: nat)
    ensures p >= 1
  {
    if k == 0 then 1 else 2 * Pow2(k - 1)
  }

  function And(a: nat, b: nat): nat {
    if a == 0 || b == 0 then 0
    else 2 * And(a / 2, b / 2) + (if a % 2 == 1 && b % 2 == 1 then 1 else 0)
  }

  /** The right shift a >> k. */
  function Shr(a: nat, k: nat): (r: nat)
    ensures r <= a
  {
    if k == 0 then a else Shr(a / 2, k - 1)
  }

  function Or(a: nat, b: nat): nat {
    if a == 0 then b
    else if b == 0 then a
    else 2 * Or(a / 2, b / 2) + (if a % 2 == 1 || b % 2 == 1 then 1 else 0)
  }

  function Xor(a: nat, b: nat): nat
    decreases a + b
  {
    if a == 0 && b == 0 then 0
    else 2 * Xor(a / 2, b / 2) + (if a % 2 != b % 2 then 1 else 0)
  }

  ghost predicate IsPowerOfTwo(n: int) {
    exists k: nat :: n == Pow2(k)
  }

  // ---- division ----

  lemma MulAtLeast(m: nat, d: int)
    requires d >= 1
    ensures m * d >= m
  {
    assert m * d == m + m * (d - 1);
  }

  lemma ModuloUnique(x: int, m: nat, q: int, rem: nat)
    requires m >= 1 && x == m * q + rem && rem < m
    ensures x % m == rem && x / m == q
  {
    var q', rem' := x / m, x % m;
    assert x == m * q' + rem' && rem' < m;
    assert m * (q - q') == m * q - m * q' && m * (q' - q) == m * q' - m * q;
    if q > q' {
      MulAtLeast(m, q - q');
    } else if q < q' {
      MulAtLeast(m, q' - q);
    }
  }

  /** Reducing modulo a product, one factor at a time. */
  lemma ModProduct(x: nat, c: nat, m: nat)
    requires c >= 1 && m >= 1
    ensures c * m >= 1
    ensures x % (c * m) == c * ((x / c) % m) + x % c
  {
    var y, low := Divide(x, c);
    var q, rem := Divide(y, m);
    MulAtLeast(c, m);
    Regroup(c, m, q, rem, low);
    ModuloUnique(x, c * m, q, c * rem + low);
  }

  lemma Divide(x: nat, m: nat) returns (q: nat, rem: nat)
    requires m >= 1
    ensures x == m * q + rem && rem < m
    ensures q == x / m && rem == x % m
  {
    q, rem := x / m, x % m;
  }

  lemma Regroup(c: nat, m: nat, q: nat, rem: nat, low: nat)
    requires rem < m && low < c
    ensures c * (m * q + rem) + low == (c * m) * q + (c * rem + low)
    ensures c * rem + low < c * m
  {
    assert c * (m * q + rem) == c * (m * q) + c * rem && c * (m * q) == (c * m) * q;
    MulMonotone(c, rem, m - 1);
    assert c * (m - 1) == c * m - c;
  }

  lemma MulMonotone(m: nat, a: int, b: int)
    requires a <= b
    ensures m * a <= m * b
  {
    assert m * b == m * a + m * (b - a);
  }

  lemma TwiceProduct(m: nat, h: nat)
    ensures (2 * m) * h == 2 * (m * h)
  {
  }

  // ---- and ----

  /** Masking with N-1 is reduction modulo N when N is a power of two. */
  lemma {:induction false} AndMask(x: nat, k: nat)
    ensures And(x, Pow2(k) - 1) == x % Pow2(k)
  {
    if k > 0 {
      AndMask(x / 2, k - 1);
      ModProduct(x, 2, Pow2(k - 1));
      var m := Pow2(k) - 1;
      assert m % 2 == 1 && m / 2 == Pow2(k - 1) - 1;
    }
  }

  lemma AndDouble(a: nat, c: nat)
    ensures And(a, 2 * c) == 2 * And(a / 2, c)
  {
    assert (2 * c) / 2 == c && (2 * c) % 2 == 0;
  }

  /** A single-bit mask isolates that bit. */
  lemma {:induction false} AndBit(a: nat, k: nat)
    ensures And(a, Pow2(k)) == Pow2(k) * (Shr(a, k) % 2)
  {
    if k == 0 {
      assert And(a / 2, 0) == 0;
    } else {
      AndBit(a / 2, k - 1);
      AndDouble(a, Pow2(k - 1));
      TwiceProduct(Pow2(k - 1), Shr(a, k) % 2);
    }
  }

  lemma {:induction false} ShrSum(a: nat, j: nat, k: nat)
    ensures Shr(a, j + k) == Shr(Shr(a, j), k)
  {
    if j > 0 {
      ShrSum(a / 2, j - 1, k);
    }
  }

  lemma ShrFour(a: nat)
    ensures Shr(a, 4) == a / 16 && Shr(a, 3) == a / 8
  {
    assert Shr(a / 2 / 2 / 2 / 2, 0) == a / 16;
    assert Shr(a / 2 / 2, 1) == Shr(a / 2 / 2 / 2, 0) && Shr(a / 2 / 2, 2) == Shr(a / 2 / 2 / 2, 1);
    assert Shr(a / 2 / 2 / 2, 1) == Shr(a / 2 / 2 / 2 / 2, 0);
  }

  lemma ShrOctet(a: nat)
    ensures Shr(a, 8) == a / 256 && Shr(a, 7) == a / 128
  {
    ShrSum(a, 4, 3);
    ShrSum(a, 4, 4);
    ShrFour(a);
    ShrFour(a / 16);
  }

  lemma {:induction false} AndSelf(a: nat)
    ensures And(a, a) == a
  {
    if a > 0 {
      AndSelf(a / 2);
    }
  }

  /** The test `N&(N-1) == 0` accepts exactly the powers of two. */
  lemma {:induction false} AndPredecessor(n: nat)
    requires n >= 1
    ensures And(n, n - 1) == 0 <==> IsPowerOfTwo(n)
  {
    if n == 1 {
      assert Pow2(0) == 1;
    } else if n % 2 == 1 {
      assert (n - 1) / 2 == n / 2 && n / 2 >= 1;
      AndSelf(n / 2);
      forall k: nat ensures n != Pow2(k) {
        assert k > 0 ==> Pow2(k) % 2 == 0;
      }
    } else {
      assert (n - 1) / 2 == n / 2 - 1;
      AndPredecessor(n / 2);
      if IsPowerOfTwo(n / 2) {
        var k: nat :| n / 2 == Pow2(k);
        assert n == Pow2(k + 1);
      }
      if IsPowerOfTwo(n) {
        var k: nat :| n == Pow2(k);
        assert k > 0 && n / 2 == Pow2(k - 1);
      }
    }
  }

  // ---- or ----

  lemma {:induction false} OrCommutes(a: nat, b: nat)
    ensures Or(a, b) == Or(b, a)
  {
    if a > 0 && b > 0 {
      OrCommutes(a / 2, b / 2);
    }
  }

  lemma OrDouble(a: nat, h: nat)
    ensures Or(a, 2 * h) == 2 * Or(a / 2, h) + a % 2
  {
    assert (2 * h) / 2 == h && (2 * h) % 2 == 0;
  }

  /** Or-ing in a value shifted past every bit of the other operand is addition. */
  lemma {:induction false} OrDisjoint(a: nat, b: nat, k: nat)
    requires a < Pow2(k)
    ensures Or(a, Pow2(k) * b) == a + Pow2(k) * b
  {
    if k > 0 {
      OrDisjoint(a / 2, b, k - 1);
      TwiceProduct(Pow2(k - 1), b);
      OrDouble(a, Pow2(k - 1) * b);
    }
  }

  lemma {:induction false} OrBelow(a: nat, b: nat, k: nat)
    requires a < Pow2(k) && b < Pow2(k)
    ensures Or(a, b) < Pow2(k)
  {
    if k > 0 {
      OrBelow(a / 2, b / 2, k - 1);
    }
  }

  // ---- xor ----

  lemma XorHalves(a: nat, b: nat)
    ensures Xor(a, b) / 2 == Xor(a / 2, b / 2)
    ensures Xor(a, b) % 2 == if a % 2 != b % 2 then 1 else 0
  {
  }

  lemma {:induction false} XorUndo(a: nat, b: nat)
    ensures Xor(Xor(a, b), b) == a
    decreases a + b
  {
    if a + b > 0 {
      XorHalves(a, b);
      XorUndo(a / 2, b / 2);
    }
  }

  lemma {:induction false} XorBelow(a: nat, b: nat, k: nat)
    requires a < Pow2(k) && b < Pow2(k)
    ensures Xor(a, b) < Pow2(k)
  {
    if k > 0 {
      XorBelow(a / 2, b / 2, k - 1);
    }
  }

  /** The number with the k low bits of l below the bits of h. */
  function Join(h: nat, l: nat, k: nat): nat {
    if k == 0 then h else 2 * Join(h, l / 2, k - 1) + l % 2
  }

  lemma {:induction false} JoinValue(h: nat, l: nat, k: nat)
    requires l < Pow2(k)
    ensures Join(h, l, k) == Pow2(k) * h + l
  {
    if k > 0 {
      JoinValue(h, l / 2, k - 1);
      TwiceProduct(Pow2(k - 1), h);
    }
  }

  /** Xor works independently above and below any bit position. */
  lemma {:induction false} XorJoin(h1: nat, l1: nat, h2: nat, l2: nat, k: nat)
    ensures Xor(Join(h1, l1, k), Join(h2, l2, k)) == Join(Xor(h1, h2), Xor(l1, l2), k)
  {
    if k > 0 {
      XorJoin(h1, l1 / 2, h2, l2 / 2, k - 1);
      XorDouble(Join(h1, l1 / 2, k - 1), l1 % 2, Join(h2, l2 / 2, k - 1), l2 % 2);
      XorHalves(l1, l2);
    }
  }

  /** Xor of two numbers, octet by octet. */
  lemma XorOctet(a: nat, b: nat)
    ensures Xor(a, b) / 256 == Xor(a / 256, b / 256)
    ensures Xor(a, b) % 256 == Xor(a % 256, b % 256)
  {
    hide Xor, Join, Pow2;
    var h1, l1, h2, l2 := a / 256, a % 256, b / 256, b % 256;
    Pow2Values();
    XorBelow(l1, l2, 8);
    JoinValue(h1, l1, 8);
    JoinValue(h2, l2, 8);
    JoinValue(Xor(h1, h2), Xor(l1, l2), 8);
    XorJoin(h1, l1, h2, l2, 8);
  }

  lemma XorDouble(a: nat, i: nat, b: nat, j: nat)
    requires i < 2 && j < 2
    ensures Xor(2 * a + i, 2 * b + j) == 2 * Xor(a, b) + (if i != j then 1 else 0)
  {
  }

  lemma {:induction false} Pow2Sum(a: nat, b: nat)
    ensures Pow2(a + b) == Pow2(a) * Pow2(b)
  {
    if a > 0 {
      Pow2Sum(a - 1, b);
      assert 2 * (Pow2(a - 1) * Pow2(b)) == (2 * Pow2(a - 1)) * Pow2(b);
    }
  }

  lemma {:induction false} ExponentBelow(k: nat, j: nat)
    requires Pow2(k) < Pow2(j)
    ensures k < j
  {
    if k >= j {
      Pow2Sum(j, k - j);
      MulAtLeast(Pow2(j), Pow2(k - j));
    }
  }

  // ---- what the operators are, bit by bit ----

  /** Bit k of a. */
  predicate Has(a: nat, k: nat) {
    a / Pow2(k) % 2 == 1
  }

  lemma {:induction false} ShrDivides(a: nat, k: nat)
    ensures Shr(a, k) == a / Pow2(k)
  {
    if k > 0 {
      ShrDivides(a / 2, k - 1);
      HalfFirst(a, Pow2(k - 1));
    }
  }

  lemma HalfFirst(a: nat, m: nat)
    requires m >= 1
    ensures a / 2 / m == a / (2 * m)
  {
    var y, low := Divide(a, 2);
    var q, rem := Divide(y, m);
    Regroup(2, m, q, rem, low);
    ModuloUnique(a, 2 * m, q, 2 * rem + low);
  }

  lemma HasHalf(a: nat, k: nat)
    requires k > 0
    ensures Has(a, k) <==> Has(a / 2, k - 1)
  {
    HalfFirst(a, Pow2(k - 1));
  }

  lemma {:induction false} AndHas(a: nat, b: nat, k: nat)
    ensures Has(And(a, b), k) <==> Has(a, k) && Has(b, k)
  {
    if a == 0 || b == 0 {
      ZeroHas(k);
    } else if k > 0 {
      AndHas(a / 2, b / 2, k - 1);
      HasHalf(a, k);
      HasHalf(b, k);
      HasHalf(And(a, b), k);
      hide Has;
      assert And(a, b) / 2 == And(a / 2, b / 2);
    }
  }

  lemma {:induction false} OrHas(a: nat, b: nat, k: nat)
    ensures Has(Or(a, b), k) <==> Has(a, k) || Has(b, k)
    decreases k
  {
    if a == 0 || b == 0 {
      ZeroHas(k);
    } else if k > 0 {
      OrHas(a / 2, b / 2, k - 1);
      HasHalf(a, k);
      HasHalf(b, k);
      HasHalf(Or(a, b), k);
      OrHalf(a, b);
      hide Has, Or;
    }
  }

  lemma OrHalf(a: nat, b: nat)
    requires a > 0 && b > 0
    ensures Or(a, b) / 2 == Or(a / 2, b / 2)
  {
  }

  lemma {:induction false} XorHas(a: nat, b: nat, k: nat)
    ensures Has(Xor(a, b), k) <==> Has(a, k) != Has(b, k)
    decreases k
  {
    XorHalves(a, b);
    if k > 0 {
      XorHas(a / 2, b / 2, k - 1);
      HasHalf(a, k);
      HasHalf(b, k);
      HasHalf(Xor(a, b), k);
    }
  }

  lemma ZeroHas(k: nat)
    ensures !Has(0, k)
  {
    ModuloUnique(0, Pow2(k), 0, 0);
  }

  lemma Pow2Values()
    ensures Pow2(4) == 16 && Pow2(7) == 0x80 && Pow2(8) == 0x100 && Pow2(16) == 0x1_0000
    ensures Pow2(24) == 0x100_0000 && Pow2(32) == 0x1_0000_0000 && Pow2(64) == 0x1_0000_0000_0000_0000
  {
    assert Pow2(4) == 16;
    Pow2Sum(4, 4);
    Pow2Sum(8, 8);
    Pow2Sum(8, 16);
    Pow2Sum(16, 16);
    Pow2Sum(32, 32);
  }
}
