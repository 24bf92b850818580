/** Bit strings as Redis sees them: bit 0 is the most significant bit of the first byte
    (bitops.c:188-207). */
module Bits {

  /** 1 << (7 - k), the mask of bit `k` of a byte. */
  function Mask(k: nat): bv8
    requires k < 8
  {
    if k == 0 then 0x80 else if k == 1 then 0x40 else if k == 2 then 0x20 else if k == 3 then 0x10
    else if k == 4 then 0x08 else if k == 5 then 0x04 else if k == 6 then 0x02 else 0x01
  }

  predicate Bit(b: bv8, k: nat)
    requires k < 8
  {
    b & Mask(k) != 0
  }

  /** Bit `i` of a byte string. */
  predicate BitAt(s: seq<bv8>, i: nat)
    requires i < 8 * |s|
  {
    Bit(s[i / 8], i % 8)
  }

  function One(b: bool): nat { if b then 1 else 0 }

  /** The number of bits set in a byte (the table bitsinbyte of bitops.c:44). */
  function PopByte(b: bv8): nat {
    One(Bit(b, 0)) + One(Bit(b, 1)) + One(Bit(b, 2)) + One(Bit(b, 3))
    + One(Bit(b, 4)) + One(Bit(b, 5)) + One(Bit(b, 6)) + One(Bit(b, 7))
  }

  function Popcount(s: seq<bv8>): nat {
    if s == [] then 0 else PopByte(s[0]) + Popcount(s[1..])
  }

  lemma {:induction false} PopcountConcat(a: seq<bv8>, b: seq<bv8>)
    ensures Popcount(a + b) == Popcount(a) + Popcount(b)
  {
    if a == [] {
      assert a + b == b;
    } else {
      assert (a + b)[1..] == a[1..] + b;
      PopcountConcat(a[1..], b);
    }
  }

  function PopAt(s: seq<bv8>, i: nat): nat
    requires i < |s|
  {
    PopByte(s[i])
  }

  /** The bits set in the first `i` bytes. */
  function PopPrefix(s: seq<bv8>, i: nat): nat
    requires i <= |s|
  {
    Popcount(s[..i])
  }

  lemma PopPrefixStep(s: seq<bv8>, i: nat, n: nat)
    requires i + n <= |s|
    ensures PopPrefix(s, i + n) == PopPrefix(s, i) + Popcount(s[i..i + n])
  {
    assert s[..i + n] == s[..i] + s[i..i + n];
    PopcountConcat(s[..i], s[i..i + n]);
  }

  lemma PopPrefixNext(s: seq<bv8>, i: nat)
    requires i < |s|
    ensures PopPrefix(s, i + 1) == PopPrefix(s, i) + PopAt(s, i)
  {
    hide PopByte;
    PopPrefixStep(s, i, 1);
    assert s[i..i + 1] == [s[i]];
    assert Popcount([s[i]]) == PopByte(s[i]) + Popcount([s[i]][1..]);
  }

  lemma PopPrefixEnds(s: seq<bv8>)
    ensures PopPrefix(s, 0) == 0 && PopPrefix(s, |s|) == Popcount(s)
  {
    assert s[..|s|] == s;
  }

  // ---- Bits as numbers ----

  function Pow2(n: nat): (p: nat)
    ensures p >= 1
  {
    if n == 0 then 1 else 2 * Pow2(n - 1)
  }

  /** The number written by `b` in binary, most significant bit first. */
  function BitsVal(b: seq<bool>): nat {
    if b == [] then 0 else 2 * BitsVal(b[..|b| - 1]) + One(b[|b| - 1])
  }

  lemma {:induction false} BitsValBound(b: seq<bool>)
    ensures BitsVal(b) < Pow2(|b|)
  {
    if b != [] { BitsValBound(b[..|b| - 1]); }
  }

  /** The digits of the number are the bits. */
  lemma {:induction false} BitsValDigit(b: seq<bool>, i: nat)
    requires i < |b|
    ensures (BitsVal(b) / Pow2(|b| - 1 - i)) % 2 == One(b[i])
    decreases |b|
  {
    var n := |b| - 1;
    var v, x := BitsVal(b[..n]), One(b[n]);
    assert BitsVal(b) == 2 * v + x;
    if i < n {
      BitsValDigit(b[..n], i);
      var p := Pow2(n - 1 - i);
      assert Pow2(n - i) == 2 * p;
      hide BitsVal, Pow2;
      HalveDiv(v, x, p);
    } else {
      assert Pow2(0) == 1;
      hide BitsVal, Pow2;
    }
  }

  lemma HalveDiv(v: nat, x: nat, p: nat)
    requires x < 2 && p > 0
    ensures (2 * v + x) / (2 * p) == v / p
  {
    var q, r := v / p, v % p;
    assert v == p * q + r;
    assert 2 * v + x == (2 * p) * q + (2 * r + x);
    assert 2 * r + x < 2 * p;
    DivUnique(2 * v + x, 2 * p, q, 2 * r + x);
  }

  lemma DivUnique(n: nat, d: nat, q: nat, r: nat)
    requires d > 0 && n == d * q + r && r < d
    ensures n / d == q && n % d == r
  {
    var q', r' := n / d, n % d;
    assert n == d * q' + r';
    DivOrder(d, q, q');
    DivOrder(d, q', q);
  }

  lemma DivOrder(d: nat, a: nat, b: nat)
    ensures a < b ==> d * a + d <= d * b
  {
    assert a < b ==> d * (a + 1) <= d * b;
  }

  function ByteBits(b: bv8): (r: seq<bool>)
    ensures |r| == 8 && forall k :: 0 <= k < 8 ==> r[k] == Bit(b, k)
  {
    [Bit(b, 0), Bit(b, 1), Bit(b, 2), Bit(b, 3), Bit(b, 4), Bit(b, 5), Bit(b, 6), Bit(b, 7)]
  }

  /** Bit `i` of the string continued with zeros for ever. */
  predicate PadBit(s: seq<bv8>, i: nat) { i < 8 * |s| && BitAt(s, i) }
}
