/** PBKDF2 (section 5.2 of RFC 2898) over any pseudorandom function of fixed output
    length, and pbkdf2.go, which builds every block in place at the end of dk. */
module Pbkdf2 {
  import opened Bytes
  import opened Windows
  import Bits

  /** A keyed function of a message, such as HMAC. */
  datatype Prf = Prf(size: nat, run: (seq<byte>, seq<byte>) -> seq<byte>)
  {
    ghost predicate Valid() {
      size > 0 && forall key, msg :: |run(key, msg)| == size
    }
  }

  /** INT(i): the four-octet encoding of i, most significant octet first. */
  function Int4(i: nat): (s: seq<byte>) {
    BigEndian(i, 4)
  }

  lemma Int4Encodes(i: nat)
    ensures BigEndianValue(Int4(i)) == i <==> i < 0x1_0000_0000
  {
    BigEndianExact(i, 4);
    assert Pow256(4) == 256 * Pow256(3) && Pow256(3) == 256 * Pow256(2) && Pow256(2) == 65536;
  }

  /** U_c, for block i. */
  function U(prf: Prf, password: seq<byte>, salt: seq<byte>, i: nat, c: nat): seq<byte>
    requires c >= 1
  {
    if c == 1 then prf.run(password, salt + Int4(i))
    else prf.run(password, U(prf, password, salt, i, c - 1))
  }

  /** F(P, S, c, i) = U_1 xor U_2 xor ... xor U_c. */
  ghost function F(prf: Prf, password: seq<byte>, salt: seq<byte>, c: nat, i: nat): (t: seq<byte>)
    requires prf.Valid() && c >= 1
    ensures |t| == prf.size
  {
    if c == 1 then U(prf, password, salt, i, 1)
    else
      var u := U(prf, password, salt, i, c);
      XorBytes(F(prf, password, salt, c - 1, i), u)
  }

  /** T_1 || T_2 || ... || T_l. */
  ghost function Blocks(prf: Prf, password: seq<byte>, salt: seq<byte>, c: nat, l: nat): (s: seq<byte>)
    requires prf.Valid() && c >= 1
    ensures |s| == l * prf.size
  {
    if l == 0 then [] else Blocks(prf, password, salt, c, l - 1) + F(prf, password, salt, c, l)
  }

  /** l, the number of blocks that cover dkLen octets. */
  function BlockCount(dkLen: nat, hLen: nat): (l: nat)
    requires hLen > 0
    ensures dkLen <= l * hLen < dkLen + hLen
  {
    (dkLen + hLen - 1) / hLen
  }

  /** PBKDF2(P, S, c, dkLen): the first dkLen octets of the blocks. */
  ghost function Derive(prf: Prf, password: seq<byte>, salt: seq<byte>, c: nat, dkLen: nat): (dk: seq<byte>)
    requires prf.Valid() && c >= 1
    ensures |dk| == dkLen
  {
    Blocks(prf, password, salt, c, BlockCount(dkLen, prf.size))[..dkLen]
  }

  /** `prf.Sum(dk)`: append the digest s at off. */
  method Put(a: array<byte>, off: nat, s: seq<byte>)
    requires off + |s| <= a.Length
    modifies a
    ensures a[off..off + |s|] == s && OnlyChanges(a[..], old(a[..]), off, |s|)
  {
    forall k | 0 <= k < |s| {
      a[off + k] := s[k];
    }
  }

  /** `for x := range U { T[x] ^= U[x] }`, with T the window of dk at off. */
  method XorInto(dk: array<byte>, off: nat, u: array<byte>)
    requires dk != u && off + u.Length <= dk.Length
    modifies dk
    ensures dk[off..off + u.Length] == XorBytes(old(dk[off..off + u.Length]), u[..])
    ensures OnlyChanges(dk[..], old(dk[..]), off, u.Length)
  {
    hide XorByte;
    ghost var was := dk[..];
    for x := 0 to u.Length
      invariant OnlyChanges(dk[..], was, off, x)
      invariant forall k :: off <= k < off + x ==> dk[k] == XorByte(was[k], u[k - off])
    {
      dk[off + x] := XorByte(dk[off + x], u[x]);
    }
  }

  /** The octets of buf for block number i. */
  lemma CounterOctets(i: nat)
    ensures Int4(i) == [i / 0x100_0000 % 256, i / 0x1_0000 % 256, i / 0x100 % 256, i % 256]
  {
    var a, b, c := i / 0x100, i / 0x1_0000, i / 0x100_0000;
    assert a / 0x100 == b && b / 0x100 == c;
    assert BigEndian(c, 1) == [c % 256];
    assert BigEndian(b, 2) == BigEndian(c, 1) + [b % 256];
    assert BigEndian(a, 3) == BigEndian(b, 2) + [a % 256];
    assert BigEndian(i, 4) == BigEndian(a, 3) + [i % 256];
  }

  /** One block: T_i computed in the window of dk at off. */
  method Block(prf: Prf, password: seq<byte>, salt: seq<byte>, iter: int, dk: array<byte>, off: nat, u: array<byte>,
               block: nat)
    requires prf.Valid() && u.Length == prf.size && dk != u && off + prf.size <= dk.Length
    modifies dk, u
    ensures dk[off..off + prf.size] == F(prf, password, salt, if iter >= 1 then iter else 1, block)
    ensures OnlyChanges(dk[..], old(dk[..]), off, prf.size)
  {
    hide XorBytes, OnlyChanges;
    var buf := [block / 0x100_0000 % 256, block / 0x1_0000 % 256, block / 0x100 % 256, block % 256];
    CounterOctets(block);
    ghost var was := dk[..];
    Put(dk, off, prf.run(password, salt + buf));
    Put(u, 0, dk[off..off + prf.size]);
    assert u[..] == u[0..prf.size];
    var n := 2;
    while n <= iter
      invariant 2 <= n && (n == 2 || n <= iter + 1)
      invariant u[..] == U(prf, password, salt, block, n - 1)
      invariant dk[off..off + prf.size] == F(prf, password, salt, n - 1, block)
      invariant OnlyChanges(dk[..], was, off, prf.size)
    {
      ghost var dk0 := dk[..];
      Put(u, 0, prf.run(password, u[..]));
      assert u[..] == u[0..prf.size];
      XorInto(dk, off, u);
      Compose(dk[..], dk0, was, off, prf.size, off, prf.size, off, prf.size);
      n := n + 1;
    }
  }

  /** The outer loop's body: one more block after the first block - 1 of them. */
  method NextBlock(prf: Prf, password: seq<byte>, salt: seq<byte>, iter: int, dk: array<byte>, len: nat, u: array<byte>,
                   block: nat)
    requires prf.Valid() && u.Length == prf.size && dk != u && block >= 1 && len + prf.size <= dk.Length
    requires dk[..len] == Blocks(prf, password, salt, if iter >= 1 then iter else 1, block - 1)
    modifies dk, u
    ensures dk[..len + prf.size] == Blocks(prf, password, salt, if iter >= 1 then iter else 1, block)
  {
    hide F, OnlyChanges;
    ghost var was := dk[..];
    Block(prf, password, salt, iter, dk, len, u, block);
    SliceKept(dk[..], was, len, prf.size, 0, len);
    Glue(dk[..], 0, len, len + prf.size);
  }

  /** pbkdf2.Key; the key is the first keyLen octets of the array returned. */
  method Key(prf: Prf, password: seq<byte>, salt: seq<byte>, iter: int, keyLen: nat) returns (dk: array<byte>)
    requires prf.Valid()
    ensures fresh(dk) && keyLen <= dk.Length
    ensures dk[..keyLen] == Derive(prf, password, salt, if iter >= 1 then iter else 1, keyLen)
  {
    var hashLen := prf.size;
    var numBlocks := BlockCount(keyLen, hashLen);
    dk := new byte[numBlocks * hashLen];
    var u := new byte[hashLen];
    ghost var c := if iter >= 1 then iter else 1;
    var len := 0;
    var block := 1;
    assert dk[..0] == Blocks(prf, password, salt, c, 0);
    hide Blocks;
    while block <= numBlocks
      invariant 1 <= block <= numBlocks + 1 && len == (block - 1) * hashLen
      invariant len <= dk.Length && dk[..len] == Blocks(prf, password, salt, c, block - 1)
    {
      BlockFits(block, numBlocks, hashLen);
      NextBlock(prf, password, salt, iter, dk, len, u, block);
      len := len + hashLen;
      block := block + 1;
    }
  }

  lemma BlockFits(block: nat, count: nat, hLen: nat)
    requires 1 <= block <= count
    ensures (block - 1) * hLen + hLen == block * hLen <= count * hLen
  {
    Bits.MulMonotone(hLen, block, count);
  }

  /** Asking for a longer key only appends to the shorter one. */
  lemma {:induction false} DeriveExtends(prf: Prf, password: seq<byte>, salt: seq<byte>, c: nat, short: nat, long: nat)
    requires prf.Valid() && c >= 1 && short <= long
    ensures Derive(prf, password, salt, c, short) == Derive(prf, password, salt, c, long)[..short]
  {
    var a, b := BlockCount(short, prf.size), BlockCount(long, prf.size);
    if a > b {
      Bits.MulMonotone(prf.size, b + 1, a);
    }
    BlocksExtend(prf, password, salt, c, a, b);
  }

  lemma {:induction false} BlocksExtend(prf: Prf, password: seq<byte>, salt: seq<byte>, c: nat, a: nat, b: nat)
    requires prf.Valid() && c >= 1 && a <= b
    ensures Blocks(prf, password, salt, c, a) <= Blocks(prf, password, salt, c, b)
  {
    if a < b {
      BlocksExtend(prf, password, salt, c, a, b - 1);
    }
  }
}
