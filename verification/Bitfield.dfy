/** Integer fields of 1 to 63 bits inside a bit string (bitops.c:209-375) and the operations of
    BITFIELD (bitops.c:914-1117). uint64_t and int64_t values are integers, with wrap-around
    written out; masking the low n bits is the remainder by 2^n. */
module Bitfield {
  import opened Bits
  import Bitop
  import Bitpos

  datatype Type = Type(signed: bool, bits: nat)
  datatype Overflow = Wrap | Sat | Fail
  datatype Reply = Nil | Int(n: int)

  predicate Supported(t: Type) { 1 <= t.bits <= 63 }

  predicate U64(x: int) { 0 <= x < Pow2(64) }
  predicate I64(x: int) { 0 - Pow2(63) <= x < Pow2(63) }

  /** Conversion to int64_t: two's complement. */
  function S64(x: int): int {
    var u := x % Pow2(64);
    if u >= Pow2(63) then u - Pow2(64) else u
  }

  // ---- Meaning ----

  function Max(t: Type): int
    requires Supported(t)
  {
    if t.signed then Pow2(t.bits - 1) - 1 else Pow2(t.bits) - 1
  }

  function Min(t: Type): int
    requires Supported(t)
  {
    if t.signed then 0 - Pow2(t.bits - 1) else 0
  }

  predicate InRange(t: Type, v: int)
    requires Supported(t)
  {
    Min(t) <= v <= Max(t)
  }

  function ToSigned(u: nat, bits: nat): int
    requires bits >= 1
  {
    if u >= Pow2(bits - 1) then u - Pow2(bits) else u
  }

  /** The low bits of a number, negative ones in two's complement. */
  function Low(v: int, bits: nat): nat { v % Pow2(bits) }

  /** `v` brought into the range of the type. */
  function Reduce(t: Type, v: int): int
    requires Supported(t)
  {
    if t.signed then ToSigned(Low(v, t.bits), t.bits) else Low(v, t.bits)
  }

  /** The bits of a field of the string continued with zeros. */
  function FieldBits(s: seq<bv8>, offset: nat, bits: nat): (r: seq<bool>)
    ensures |r| == bits
  {
    seq(bits, j requires 0 <= j => PadBit(s, offset + j))
  }

  function Field(s: seq<bv8>, offset: nat, bits: nat): nat { BitsVal(FieldBits(s, offset, bits)) }

  function Read(s: seq<bv8>, t: Type, offset: nat): int
    requires Supported(t)
  {
    Reduce(t, Field(s, offset, t.bits))
  }

  // ---- Arithmetic ----

  lemma Pow2Half(n: nat)
    requires n >= 1
    ensures Pow2(n) == 2 * Pow2(n - 1)
  {
  }

  lemma {:induction false} Pow2Add(a: nat, b: nat)
    ensures Pow2(a + b) == Pow2(a) * Pow2(b)
  {
    if a > 0 {
      Pow2Add(a - 1, b);
      var p, q := Pow2(a - 1), Pow2(b);
      assert Pow2(a + b) == 2 * (p * q) == (2 * p) * q;
    }
  }

  /** The sizes that matter for a width. */
  lemma Sizes(bits: nat)
    requires 1 <= bits <= 63
    ensures Pow2(64) == 2 * Pow2(63) && Pow2(bits) == 2 * Pow2(bits - 1)
    ensures Pow2(bits - 1) <= Pow2(62) && Pow2(63) == 2 * Pow2(62) && Pow2(bits) <= Pow2(63)
  {
    Pow2Half(64);
    Pow2Half(63);
    Pow2Half(bits);
    Bitpos.Pow2Monotone(bits - 1, 62);
  }

  lemma RemainderIs(n: int, d: nat, q: int, r: nat)
    requires d > 0 && n == d * q + r && r < d
    ensures n % d == r
  {
    var q', r' := n / d, n % d;
    assert n == d * q' + r';
    assert d * (q - q') == r' - r;
    Between(d, q - q', r' - r);
  }

  lemma Between(d: nat, k: int, x: int)
    requires d > 0 && d * k == x && 0 - d < x < d
    ensures x == 0
  {
  }

  lemma RemainderShift(x: int, d: nat, k: int)
    requires d > 0
    ensures (x + d * k) % d == x % d
  {
    var q, r := x / d, x % d;
    assert x + d * k == d * (q + k) + r;
    RemainderIs(x + d * k, d, q + k, r);
  }

  /** Reducing modulo 2^64 on the way does not change the low bits. */
  lemma LowBits(x: int, bits: nat)
    requires bits <= 64
    ensures Low(Low(x, 64), bits) == Low(x, bits)
  {
    Pow2Add(bits, 64 - bits);
    hide Pow2;
    RemainderTwice(x, Pow2(64), Pow2(bits), Pow2(64 - bits));
  }

  lemma RemainderTwice(x: int, m: nat, p: nat, c: nat)
    requires p > 0 && c > 0 && m == p * c && m > 0
    ensures (x % m) % p == x % p
  {
    var q, r := x / m, x % m;
    assert x == m * q + r;
    var k := c * q;
    assert x == r + p * k;
    RemainderShift(r, p, k);
  }

  lemma S64Fits(x: int)
    requires I64(x)
    ensures S64(x) == x
  {
    hide Pow2;
    Pow2Half(64);
    if x >= 0 {
      RemainderIs(x, Pow2(64), 0, x);
    } else {
      RemainderIs(x, Pow2(64), -1, x + Pow2(64));
    }
  }

  lemma S64Over(x: int)
    requires Pow2(63) <= x < Pow2(64)
    ensures S64(x) == x - Pow2(64)
  {
    hide Pow2;
    RemainderIs(x, Pow2(64), 0, x);
  }

  /** Reduce gives the one value of the range that differs from `v` by a multiple of 2^bits. */
  lemma ReduceMeaning(t: Type, v: int)
    requires Supported(t)
    ensures InRange(t, Reduce(t, v))
    ensures exists k: int :: Reduce(t, v) == v + Pow2(t.bits) * k
    ensures InRange(t, v) ==> Reduce(t, v) == v
  {
    hide Pow2;
    Sizes(t.bits);
    Congruent(v, Pow2(t.bits));
    assert 0 <= v % Pow2(t.bits) < Pow2(t.bits);
    if InRange(t, v) { SmallRemainder(v, Pow2(t.bits)); }
  }

  lemma Congruent(v: int, p: nat)
    requires p > 0
    ensures exists k: int :: v % p == v + p * k
    ensures exists k: int :: v % p - p == v + p * k
  {
    var q, r := v / p, v % p;
    assert r == v + p * (0 - q);
    assert r - p == v + p * (0 - q - 1);
  }

  lemma SmallRemainder(v: int, p: nat)
    requires 0 - p <= v < p && p > 0
    ensures v % p == if v >= 0 then v else v + p
  {
    if v >= 0 { RemainderIs(v, p, 0, v); } else { RemainderIs(v, p, -1, v + p); }
  }

  lemma ReduceShift(t: Type, v: int)
    requires Supported(t)
    ensures Reduce(t, Low(v, t.bits)) == Reduce(t, v)
    ensures Reduce(t, Low(v, 64)) == Reduce(t, v)
  {
    var p := Pow2(t.bits);
    LowBits(v, t.bits);
    hide Pow2;
    RemainderIs(v % p, p, 0, v % p);
  }

  // ---- Storing and fetching bit by bit ----

  /** Bit `k` of the byte replaced. */
  function PutBit(b: bv8, k: nat, bit: bool): bv8
    requires k < 8
  {
    (b & !Mask(k)) | (if bit then Mask(k) else 0)
  }

  lemma PutBitIs(b: bv8, k: nat, bit: bool, i: nat)
    requires k < 8 && i < 8
    ensures Bit(PutBit(b, k, bit), i) == if i == k then bit else Bit(b, i)
  {
  }

  method PutBitAt(p: array<bv8>, pos: nat, bit: bool)
    requires pos < 8 * p.Length
    modifies p
    ensures forall i: nat :: i < 8 * p.Length ==> BitAt(p[..], i) == if i == pos then bit else old(BitAt(p[..], i))
  {
    hide Bit, PutBit;
    p[pos / 8] := PutBit(p[pos / 8], pos % 8, bit);
    forall i: nat | i < 8 * p.Length ensures BitAt(p[..], i) == if i == pos then bit else old(BitAt(p[..], i)) {
      PutBitIs(old(p[pos / 8]), pos % 8, bit, i % 8);
    }
  }

  /** Bit `n` of a number, from the least significant. */
  predicate Digit(value: nat, n: nat) { (value / Pow2(n)) % 2 == 1 }

  lemma DigitHalf(value: nat, n: nat)
    ensures Digit(value, n + 1) == Digit(value / 2, n)
  {
    hide Pow2;
    Pow2Half(n + 1);
    HalveDiv(value / 2, value % 2, Pow2(n));
  }

  lemma HalfRemainder(value: nat, p: nat)
    requires p > 0
    ensures value % (2 * p) == 2 * ((value / 2) % p) + value % 2
  {
    var h := value / 2;
    var q, r := h / p, h % p;
    assert h == p * q + r;
    assert (2 * p) * q == 2 * (p * q);
    RemainderIs(value, 2 * p, q, 2 * r + value % 2);
  }

  /** The number written with the low digits of `value` is `value` modulo 2^n. */
  lemma {:induction false} DigitsVal(b: seq<bool>, value: nat)
    requires forall j :: 0 <= j < |b| ==> b[j] == Digit(value, |b| - 1 - j)
    ensures BitsVal(b) == Low(value, |b|)
    decreases |b|
  {
    if b != [] {
      var n := |b| - 1;
      forall j | 0 <= j < n ensures b[..n][j] == Digit(value / 2, n - 1 - j) { DigitHalf(value, n - 1 - j); }
      DigitsVal(b[..n], value / 2);
      assert b[n] == Digit(value, 0);
      assert Pow2(0) == 1;
      assert One(b[n]) == value % 2;
      Pow2Half(n + 1);
      HalfRemainder(value, Pow2(n));
    }
  }

  /** Every bit outside the field is as it was. */
  predicate SameOutside(s: seq<bv8>, s': seq<bv8>, offset: nat, bits: nat) {
    && |s'| == |s|
    && forall i: nat :: i < 8 * |s| && !(offset <= i < offset + bits) ==> BitAt(s', i) == BitAt(s, i)
  }

  /** setUnsignedBitfield: the low bits of the value, most significant first, and nothing else. */
  method SetUnsigned(p: array<bv8>, offset: nat, bits: nat, value: nat)
    requires offset + bits <= 8 * p.Length && bits <= 64 && U64(value)
    modifies p
    ensures Field(p[..], offset, bits) == Low(value, bits)
    ensures SameOutside(old(p[..]), p[..], offset, bits)
  {
    hide Digit, BitAt, BitsVal;
    for j := 0 to bits
      invariant forall i: nat :: i < 8 * p.Length ==>
                  BitAt(p[..], i)
                  == if offset <= i < offset + j then Digit(value, bits - 1 - (i - offset)) else old(BitAt(p[..], i))
    {
      PutBitAt(p, offset + j, DigitOf(value, bits - 1 - j));
    }
    FieldHolds(p[..], offset, bits, value);
  }

  function DigitOf(value: nat, n: nat): (bit: bool)
    ensures bit == Digit(value, n)
  {
    (value / Pow2(n)) % 2 != 0
  }

  lemma FieldHolds(s: seq<bv8>, offset: nat, bits: nat, value: nat)
    requires offset + bits <= 8 * |s|
    requires forall i: nat :: offset <= i < offset + bits ==> BitAt(s, i) == Digit(value, bits - 1 - (i - offset))
    ensures Field(s, offset, bits) == Low(value, bits)
  {
    hide BitAt, Digit, BitsVal;
    var b := FieldBits(s, offset, bits);
    forall j | 0 <= j < bits ensures b[j] == Digit(value, bits - 1 - j) {
      assert b[j] == PadBit(s, offset + j) == BitAt(s, offset + j);
      assert bits - 1 - ((offset + j) - offset) == bits - 1 - j;
    }
    DigitsVal(b, value);
  }

  /** setSignedBitfield */
  method SetSigned(p: array<bv8>, offset: nat, bits: nat, value: int)
    requires offset + bits <= 8 * p.Length && bits <= 64 && I64(value)
    modifies p
    ensures Field(p[..], offset, bits) == Low(value, bits)
    ensures SameOutside(old(p[..]), p[..], offset, bits)
  {
    LowBits(value, bits);
    SetUnsigned(p, offset, bits, Low(value, 64));
  }

  /** getUnsignedBitfield */
  method GetUnsigned(s: seq<bv8>, offset: nat, bits: nat) returns (value: nat)
    requires offset + bits <= 8 * |s| && bits <= 64
    ensures value == Field(s, offset, bits)
  {
    hide BitsVal, Pow2, Bit;
    value := 0;
    assert Field(s, offset, 0) == 0 by { NoFieldBits(s, offset); }
    for j := 0 to bits
      invariant value == Field(s, offset, j)
    {
      FieldSnoc(s, offset, j);
      var bit := Bit(s[(offset + j) / 8], (offset + j) % 8);
      value := (value * 2) % Pow2(64) + One(bit);
    }
  }

  lemma NoFieldBits(s: seq<bv8>, offset: nat)
    ensures Field(s, offset, 0) == 0
  {
  }

  /** One more bit; shifting 64 bits loses nothing. */
  lemma FieldSnoc(s: seq<bv8>, offset: nat, j: nat)
    requires j < 64
    ensures Field(s, offset, j + 1) == (Field(s, offset, j) * 2) % Pow2(64) + One(PadBit(s, offset + j))
  {
    hide PadBit;
    var b := FieldBits(s, offset, j);
    assert FieldBits(s, offset, j + 1) == b + [PadBit(s, offset + j)];
    BitsValBound(b);
    Pow2Half(64);
    Bitpos.Pow2Monotone(j, 63);
    hide Pow2, BitsVal;
    RemainderIs(2 * BitsVal(b), Pow2(64), 0, 2 * BitsVal(b));
  }

  /** getSignedBitfield: when the top bit is set, every higher bit of the word is set too. */
  method GetSigned(s: seq<bv8>, offset: nat, bits: nat) returns (value: int)
    requires offset + bits <= 8 * |s| && 1 <= bits <= 63
    ensures value == ToSigned(Field(s, offset, bits), bits)
  {
    hide Field, Pow2;
    var u := GetUnsigned(s, offset, bits);
    FieldBound(s, offset, bits);
    Sizes(bits);
    TopDigit(u, Pow2(bits - 1));
    if (u / Pow2(bits - 1)) % 2 == 1 {
      S64Over(u + (Pow2(64) - Pow2(bits)));
      value := S64(u + (Pow2(64) - Pow2(bits)));
    } else {
      S64Fits(u);
      value := S64(u);
    }
  }

  lemma FieldBound(s: seq<bv8>, offset: nat, bits: nat)
    ensures Field(s, offset, bits) < Pow2(bits)
  {
    BitsValBound(FieldBits(s, offset, bits));
  }

  lemma TopDigit(u: nat, p: nat)
    requires p > 0 && u < 2 * p
    ensures (u / p) % 2 == 1 <==> u >= p
  {
    if u >= p { DivUnique(u, p, 1, u - p); } else { DivUnique(u, p, 0, u); }
  }

  // ---- Overflow ----

  /** checkUnsignedBitfieldOverflow (bitops.c:288-323) */
  method CheckUnsigned(value: nat, incr: int, bits: nat, ow: Overflow) returns (r: int, limit: int)
    requires U64(value) && I64(incr) && 1 <= bits <= 63
    ensures r == 0 <==> 0 <= value + incr < Pow2(bits) && value < Pow2(bits)
    ensures r != 0 ==> r == if ow != Wrap && value < Pow2(bits) && value + incr < 0 then -1 else 1
    ensures r != 0 && ow == Wrap ==> limit == Low(value + incr, bits)
    ensures r != 0 && ow == Sat ==> limit == if value + incr < 0 && value < Pow2(bits) then 0 else Pow2(bits) - 1
  {
    hide Pow2, S64, Low, U64, I64;
    UnsignedIncrements(value, bits);
    var max := Pow2(bits) - 1;
    var maxincr, minincr := S64(max - value), S64(0 - value);
    limit := 0;
    if value > max || (incr > 0 && incr > maxincr) {
      if ow == Sat { limit := max; }
      if ow != Wrap { return 1, limit; }
    } else if incr < 0 && incr < minincr {
      if ow == Sat { limit := 0; }
      if ow != Wrap { return -1, limit; }
    } else {
      return 0, limit;
    }
    LowBits(value + incr, bits);
    return 1, Low(Low(value + incr, 64), bits);
  }

  lemma UnsignedIncrements(value: nat, bits: nat)
    requires 1 <= bits <= 63
    ensures value < Pow2(bits) ==> S64(Pow2(bits) - 1 - value) == Pow2(bits) - 1 - value && S64(0 - value) == 0 - value
  {
    hide Pow2, S64;
    Sizes(bits);
    UnsignedIncrementsOf(value, Pow2(bits), Pow2(63));
  }

  lemma UnsignedIncrementsOf(value: nat, p: nat, w: nat)
    requires w == Pow2(63) && p <= w
    ensures value < p ==> S64(p - 1 - value) == p - 1 - value && S64(0 - value) == 0 - value
  {
    hide Pow2, S64;
    if value < p {
      S64Fits(p - 1 - value);
      S64Fits(0 - value);
    }
  }

  /** So far below the range that max - value does not fit an int64_t (bitops.c:332). */
  predicate FarBelow(value: int, bits: nat)
    requires bits >= 1
  {
    Pow2(bits - 1) - 1 - value >= Pow2(63)
  }

  /** checkSignedBitfieldOverflow (bitops.c:325-375), for a value in range or no increment. */
  method CheckSigned(value: int, incr: int, bits: nat, ow: Overflow) returns (r: int, limit: int)
    requires I64(value) && I64(incr) && 1 <= bits <= 63
    requires InRange(Type(true, bits), value) || incr == 0
    ensures r == 0 <==> InRange(Type(true, bits), value + incr)
    ensures r != 0 ==>
              r == if ow == Wrap || value + incr > Max(Type(true, bits)) || (incr == 0 && FarBelow(value, bits))
                   then 1 else -1
    ensures r != 0 && ow == Wrap ==> limit == ToSigned(Low(value + incr, bits), bits)
    ensures r != 0 && ow == Sat ==>
              limit == if value + incr > Max(Type(true, bits)) || (incr == 0 && FarBelow(value, bits))
                                             then Max(Type(true, bits)) else Min(Type(true, bits))
  {
    hide Pow2, S64, ToSigned, Low, I64, FarBelow;
    Pow2Half(bits);
    var max := Pow2(bits - 1) - 1;
    var min := (-max) - 1;
    Increments(value, bits);
    var maxincr, minincr := S64(max - value), S64(min - value);
    limit := 0;
    if value > max || incr > maxincr || (value >= 0 && incr > 0 && incr > maxincr) {
      if ow == Sat { limit := max; }
      if ow != Wrap { return 1, limit; }
    } else if value < min || incr < minincr || (value < 0 && incr < 0 && incr < minincr) {
      if ow == Sat { limit := min; }
      if ow != Wrap { return -1, limit; }
    } else {
      return 0, limit;
    }
    limit := WrapSigned(value + incr, bits);
    return 1, limit;
  }

  /** The two differences are exact where they are used; a value far below the range makes the
      first one negative. */
  lemma Increments(value: int, bits: nat)
    requires I64(value) && 1 <= bits <= 63
    ensures var h := Pow2(bits - 1);
            && (0 - h <= value < h ==> S64(h - 1 - value) == h - 1 - value && S64(0 - h - value) == 0 - h - value)
            && (value < 0 - h ==> (S64(h - 1 - value) < 0 <==> FarBelow(value, bits)))
            && (FarBelow(value, bits) ==> value < 0 - h)
  {
    hide Pow2, S64;
    Sizes(bits);
    IncrementsOf(value, Pow2(bits - 1), Pow2(63), Pow2(64));
  }

  lemma IncrementsOf(value: int, h: nat, w: nat, m: nat)
    requires w == Pow2(63) && m == Pow2(64) == 2 * w && 0 - w <= value < w && 0 < h && 2 * h <= w
    ensures 0 - h <= value < h ==> S64(h - 1 - value) == h - 1 - value && S64(0 - h - value) == 0 - h - value
    ensures value < 0 - h ==> (S64(h - 1 - value) < 0 <==> h - 1 - value >= w)
    ensures h - 1 - value >= w ==> value < 0 - h
  {
    hide Pow2, S64;
    if h - 1 - value >= w {
      S64Over(h - 1 - value);
    } else if value < h {
      S64Fits(h - 1 - value);
      if 0 - h <= value { S64Fits(0 - h - value); }
    }
  }

  /** bitops.c:357-372 */
  method WrapSigned(sum: int, bits: nat) returns (limit: int)
    requires 1 <= bits <= 63
    ensures limit == ToSigned(Low(sum, bits), bits)
  {
    Sizes(bits);
    LowBits(sum, bits);
    var c := Low(sum, 64);
    hide Pow2;
    LowTopDigit(c, bits);
    if (c / Pow2(bits - 1)) % 2 == 1 {
      c := Low(c, bits) + (Pow2(64) - Pow2(bits));
      S64Over(c);
    } else {
      c := Low(c, bits);
      S64Fits(c);
    }
    limit := S64(c);
  }

  /** The sign bit of the field is the top bit of the low bits. */
  lemma LowTopDigit(c: nat, bits: nat)
    requires 1 <= bits <= 63
    ensures (c / Pow2(bits - 1)) % 2 == 1 <==> Low(c, bits) >= Pow2(bits - 1)
  {
    hide Pow2;
    Pow2Half(bits);
    SecondDigit(c, Pow2(bits - 1));
  }

  lemma SecondDigit(c: nat, p: nat)
    requires p > 0
    ensures (c / p) % 2 == 1 <==> c % (2 * p) >= p
  {
    var q, r := Divide(c, 2 * p);
    SecondDigitAt(c, p, q, r);
  }

  lemma Divide(c: nat, d: nat) returns (q: nat, r: nat)
    requires d > 0
    ensures c == d * q + r && r == c % d && r < d
  {
    q, r := c / d, c % d;
  }

  lemma SecondDigitAt(c: nat, p: nat, q: nat, r: nat)
    requires p > 0 && c == p * (2 * q) + r && r < 2 * p
    ensures (c / p) % 2 == 1 <==> r >= p
  {
    if r >= p { DivUnique(c, p, 2 * q + 1, r - p); } else { DivUnique(c, p, 2 * q, r); }
  }

  // ---- The operations of BITFIELD ----

  datatype Op =
    | Get(t: Type, offset: nat)
    | Store(t: Type, offset: nat, incr: bool, arg: int, ow: Overflow)

  predicate ValidOp(op: Op) { Supported(op.t) && (op.Store? ==> I64(op.arg)) }

  /** The number SET or INCRBY asks for; an unsigned SET takes its operand as a uint64_t. */
  function Wanted(op: Op, current: int): int
    requires ValidOp(op) && op.Store?
  {
    if op.incr then current + op.arg else if op.t.signed then op.arg else Low(op.arg, 64)
  }

  predicate Misjudged(op: Op)
    requires ValidOp(op) && op.Store?
  {
    !op.incr && op.t.signed && FarBelow(op.arg, op.t.bits)
  }

  /** What is stored, or Nil when the field is left alone. */
  function Target(op: Op, current: int): Reply
    requires ValidOp(op) && op.Store?
  {
    var v := Wanted(op, current);
    if InRange(op.t, v) then Int(v)
    else match op.ow
      case Wrap => Int(Reduce(op.t, v))
      case Sat => Int(if v > Max(op.t) || Misjudged(op) then Max(op.t) else Min(op.t))
      case Fail => Nil
  }

  /** What one operation does to the string, and its reply. */
  ghost predicate Does(s: seq<bv8>, op: Op, s': seq<bv8>, reply: Reply)
    requires ValidOp(op)
  {
    var current := Read(s, op.t, op.offset);
    match op
    case Get(t, offset) => s' == s && reply == Int(current)
    case Store(t, offset, incr, arg, ow) =>
      var v := Target(op, current);
      if v.Nil? then s' == s && reply == Nil
      else
        && SameOutside(s, s', offset, t.bits) && Read(s', t, offset) == v.n
        && reply == Int(if incr then v.n else current)
  }

  /** The number asked for, with the operand as the caller gave it. */
  function Asked(op: Op, current: int): int
    requires op.Store?
  {
    if op.incr then current + op.arg else op.arg
  }

  function Nearest(t: Type, v: int): int
    requires Supported(t)
  {
    if v > Max(t) then Max(t) else if v < Min(t) then Min(t) else v
  }

  /** An unsigned SET of a negative number. */
  predicate NegativeSet(op: Op)
    requires op.Store?
  {
    !op.incr && !op.t.signed && op.arg < 0
  }

  lemma WantedIsAsked(op: Op, current: int)
    requires ValidOp(op) && op.Store?
    ensures Wanted(op, current) == if NegativeSet(op) then op.arg + Pow2(64) else Asked(op, current)
  {
    hide Pow2;
    Sizes(op.t.bits);
    if !op.incr && !op.t.signed { SmallRemainder(op.arg, Pow2(64)); }
  }

  /** Saturating stores the value of the range nearest to what was asked for, except in exactly two
      cases a caller can see beforehand: a signed SET so far below the range that the difference
      wraps, and an unsigned SET of a negative number. Both store the maximum. */
  lemma SaturatesIff(op: Op, current: int)
    requires ValidOp(op) && op.Store? && op.ow == Sat
    ensures Target(op, current) == Int(Nearest(op.t, Asked(op, current))) <==> !Misjudged(op) && !NegativeSet(op)
    ensures Misjudged(op) || NegativeSet(op) ==> Target(op, current) == Int(Max(op.t))
  {
    hide Pow2, Low;
    Sizes(op.t.bits);
    WantedIsAsked(op, current);
  }

  /** Wrapping and failing treat the operand as it was given, always. */
  lemma OthersExact(op: Op, current: int)
    requires ValidOp(op) && op.Store? && op.ow != Sat
    ensures Target(op, current) == if op.ow == Wrap then Int(Reduce(op.t, Asked(op, current)))
                                   else if InRange(op.t, Asked(op, current)) then Int(Asked(op, current)) else Nil
  {
    hide Pow2, Low, Reduce;
    Sizes(op.t.bits);
    WantedIsAsked(op, current);
    ReduceMeaning(op.t, Wanted(op, current));
    if NegativeSet(op) { ReduceShift(op.t, op.arg); }
  }

  /** SET i8 of the least int64_t, saturating, stores 127. */
  lemma MisjudgedExample(current: int)
    ensures var op := Store(Type(true, 8), 0, false, 0 - Pow2(63), Sat);
            ValidOp(op) && Target(op, current) == Int(127)
  {
    assert Pow2(7) == 128 by { Pow2Add(4, 3); }
    hide Pow2;
    Sizes(8);
  }

  /** SET u8 of -1, saturating, stores 255. */
  lemma NegativeSetExample(current: int)
    ensures var op := Store(Type(false, 8), 0, false, -1, Sat);
            ValidOp(op) && !Misjudged(op) && Target(op, current) == Int(255)
  {
    assert Pow2(8) == 256 by { Pow2Add(4, 4); }
    hide Pow2, Low;
    Sizes(8);
    WantedIsAsked(Store(Type(false, 8), 0, false, -1, Sat), current);
  }

  function Distance(a: int, b: int): nat { if a <= b then b - a else a - b }

  /** What a SET or INCRBY of `arg` does, told without its description: SET answers what the field
      held before it, INCRBY what it holds after it, and Nil says that the policy is to fail and the
      number asked for is out of range, in which case nothing changes. A number in range is stored as
      it is. Otherwise wrapping stores the one congruent to it, and saturating the nearest one. */
  lemma DoesStore(s: seq<bv8>, op: Op, s': seq<bv8>, reply: Reply)
    requires ValidOp(op) && op.Store? && Does(s, op, s', reply)
    ensures var before, after := Read(s, op.t, op.offset), Read(s', op.t, op.offset);
            var asked := if op.incr then before + op.arg else op.arg;
            && (reply == Nil <==> op.ow == Fail && !InRange(op.t, asked))
            && (reply == Nil ==> s' == s)
            && (reply != Nil ==> reply == Int(if op.incr then after else before))
            && (InRange(op.t, asked) ==> after == asked)
            && (op.ow == Wrap ==> exists k: int :: after == asked + Pow2(op.t.bits) * k)
            && (op.ow == Sat && !Misjudged(op) && !NegativeSet(op) ==>
                forall v :: InRange(op.t, v) ==> Distance(after, asked) <= Distance(v, asked))
  {
    hide Pow2, Reduce, SameOutside, Read, FarBelow;
    var current := Read(s, op.t, op.offset);
    WantedIsAsked(op, current);
    Sizes(op.t.bits);
    if op.ow == Sat {
      SaturatesIff(op, current);
    } else {
      OthersExact(op, current);
      ReduceMeaning(op.t, Asked(op, current));
    }
  }

  lemma RangeFits(t: Type, v: int)
    requires Supported(t) && InRange(t, v)
    ensures I64(v) && (v >= 0 ==> U64(v))
  {
    hide Pow2;
    Sizes(t.bits);
  }

  lemma ReadInRange(s: seq<bv8>, t: Type, offset: nat)
    requires Supported(t)
    ensures InRange(t, Read(s, t, offset))
    ensures t.signed ==> Read(s, t, offset) == ToSigned(Field(s, offset, t.bits), t.bits)
    ensures !t.signed ==> Read(s, t, offset) == Field(s, offset, t.bits)
  {
    FieldBound(s, offset, t.bits);
    hide Pow2, Field;
    ReduceMeaning(t, Field(s, offset, t.bits));
    SmallRemainder(Field(s, offset, t.bits), Pow2(t.bits));
  }

  /** Storing a value of the range and reading it back. */
  lemma ReadBack(s: seq<bv8>, t: Type, offset: nat, v: int)
    requires Supported(t) && InRange(t, v) && Field(s, offset, t.bits) == Low(v, t.bits)
    ensures Read(s, t, offset) == v
  {
    hide Low, Pow2, Field;
    ReduceShift(t, v);
    ReduceMeaning(t, v);
  }

  lemma TargetInRange(op: Op, current: int)
    requires ValidOp(op) && op.Store?
    ensures Target(op, current).Int? ==> InRange(op.t, Target(op, current).n)
  {
    hide Pow2, Reduce, FarBelow, I64, Low;
    ReduceMeaning(op.t, Wanted(op, current));
    Pow2Half(op.t.bits);
  }

  lemma ZeroFits()
    ensures I64(0)
  {
    hide Pow2;
  }

  lemma Low64(v: int)
    ensures U64(Low(v, 64))
  {
    hide Pow2;
  }

  /** The signed half of bitops.c:1022-1051 */
  method StoreSigned(p: array<bv8>, op: Op) returns (reply: Reply)
    requires ValidOp(op) && op.Store? && op.t.signed && op.offset + op.t.bits <= 8 * p.Length
    modifies p
    ensures Does(old(p[..]), op, p[..], reply)
    ensures var before, after := old(Read(p[..], op.t, op.offset)), Read(p[..], op.t, op.offset);
            && (reply == Nil <==> op.ow == Fail && !InRange(op.t, if op.incr then before + op.arg else op.arg))
            && (reply != Nil ==> reply == Int(if op.incr then after else before))
  {
    hide Pow2, Field, Low, SameOutside, I64, U64, FarBelow;
    var bits := op.t.bits;
    var oldval := GetSigned(p[..], op.offset, bits);
    ReadInRange(p[..], op.t, op.offset);
    RangeFits(op.t, oldval);
    ZeroFits();
    TargetInRange(op, oldval);
    var newval, overflow, wrapped, retval;
    if op.incr {
      newval := oldval + op.arg;
      overflow, wrapped := CheckSigned(oldval, op.arg, bits, op.ow);
      if overflow != 0 { newval := wrapped; }
      retval := newval;
    } else {
      newval := op.arg;
      overflow, wrapped := CheckSigned(newval, 0, bits, op.ow);
      if overflow != 0 { newval := wrapped; }
      retval := oldval;
    }
    if !(overflow != 0 && op.ow == Fail) {
      RangeFits(op.t, newval);
      SetSigned(p, op.offset, bits, newval);
      ReadBack(p[..], op.t, op.offset, newval);
      return Int(retval);
    }
    return Nil;
  }

  /** The unsigned half of bitops.c:1052-1081 */
  method StoreUnsigned(p: array<bv8>, op: Op) returns (reply: Reply)
    requires ValidOp(op) && op.Store? && !op.t.signed && op.offset + op.t.bits <= 8 * p.Length
    modifies p
    ensures Does(old(p[..]), op, p[..], reply)
    ensures var before, after := old(Read(p[..], op.t, op.offset)), Read(p[..], op.t, op.offset);
            && (reply == Nil <==> op.ow == Fail && !InRange(op.t, if op.incr then before + op.arg else op.arg))
            && (reply != Nil ==> reply == Int(if op.incr then after else before))
  {
    hide Pow2, Field, Low, SameOutside, I64, U64;
    var bits := op.t.bits;
    var oldval := GetUnsigned(p[..], op.offset, bits);
    ReadInRange(p[..], op.t, op.offset);
    RangeFits(op.t, oldval);
    ZeroFits();
    Low64(op.arg);
    TargetInRange(op, oldval);
    var newval, overflow, wrapped, retval;
    if op.incr {
      newval := oldval + op.arg;
      overflow, wrapped := CheckUnsigned(oldval, op.arg, bits, op.ow);
      if overflow != 0 { newval := wrapped; }
      retval := newval;
    } else {
      newval := Low(op.arg, 64);
      overflow, wrapped := CheckUnsigned(newval, 0, bits, op.ow);
      if overflow != 0 { newval := wrapped; }
      retval := oldval;
    }
    if op.ow == Fail { OthersExact(op, oldval); }
    if !(overflow != 0 && op.ow == Fail) {
      RangeFits(op.t, newval);
      SetUnsigned(p, op.offset, bits, newval);
      ReadBack(p[..], op.t, op.offset, newval);
      return Int(retval);
    }
    return Nil;
  }

  /** GET (bitops.c:1083-1116): through a window of nine bytes. */
  method GetField(s: seq<bv8>, t: Type, offset: nat) returns (reply: Reply)
    requires Supported(t)
    ensures reply == Int(Read(s, t, offset))
  {
    hide Pow2, Field;
    var buf := new bv8[9](_ => 0);
    var byte := offset / 8;
    var i := 0;
    while i < 9 && i + byte < |s|
      invariant i <= 9
      invariant forall j :: 0 <= j < i ==> j + byte < |s| && buf[j] == s[j + byte]
      invariant forall j :: i <= j < 9 ==> buf[j] == 0
    {
      buf[i] := s[i + byte];
      i := i + 1;
    }
    WindowField(s, buf[..], offset, t.bits);
    ReadInRange(s, t, offset);
    var val;
    if t.signed {
      val := GetSigned(buf[..], offset - byte * 8, t.bits);
    } else {
      val := GetUnsigned(buf[..], offset - byte * 8, t.bits);
    }
    return Int(val);
  }

  lemma WindowField(s: seq<bv8>, buf: seq<bv8>, offset: nat, bits: nat)
    requires |buf| == 9 && bits <= 64
    requires forall j :: 0 <= j < 9 ==> buf[j] == if j + offset / 8 < |s| then s[j + offset / 8] else 0
    ensures Field(buf, offset % 8, bits) == Field(s, offset, bits)
  {
    hide PadBit;
    var a, b := FieldBits(buf, offset % 8, bits), FieldBits(s, offset, bits);
    forall j | 0 <= j < bits ensures a[j] == b[j] { WindowBit(s, buf, offset, j); }
    assert a == b;
  }

  lemma WindowBit(s: seq<bv8>, buf: seq<bv8>, offset: nat, j: nat)
    requires |buf| == 9 && j < 64
    requires forall j :: 0 <= j < 9 ==> buf[j] == if j + offset / 8 < |s| then s[j + offset / 8] else 0
    ensures PadBit(buf, offset % 8 + j) == PadBit(s, offset + j)
  {
    hide Bit;
    var b := (offset % 8 + j) / 8;
    assert (offset + j) / 8 == b + offset / 8 && (offset % 8 + j) % 8 == (offset + j) % 8;
    if b + offset / 8 >= |s| { Bitpos.SkippedByte(0, true, (offset + j) % 8); }
  }

  // ---- What an operation determines ----

  /** A field that does not overlap the one written reads as before; the written one reads what
      was stored. */
  lemma ReadAfter(s: seq<bv8>, op: Op, s': seq<bv8>, reply: Reply, t: Type, offset: nat)
    requires ValidOp(op) && op.Store? && Does(s, op, s', reply) && Supported(t)
    ensures offset + t.bits <= op.offset || op.offset + op.t.bits <= offset ==>
            Read(s', t, offset) == Read(s, t, offset)
    ensures t == op.t && offset == op.offset ==>
              Read(s', t, offset) == if reply.Nil? then Read(s, t, offset) else Target(op, Read(s, t, offset)).n
  {
    hide BitAt, Pow2, Reduce, Target, BitsVal;
    if offset + t.bits <= op.offset || op.offset + op.t.bits <= offset {
      var a, b := FieldBits(s', offset, t.bits), FieldBits(s, offset, t.bits);
      forall j | 0 <= j < t.bits ensures a[j] == b[j] {
        assert a[j] == PadBit(s', offset + j) && b[j] == PadBit(s, offset + j);
      }
      assert a == b;
    }
  }

  lemma {:induction false} BitsValInjective(a: seq<bool>, b: seq<bool>)
    requires |a| == |b| && BitsVal(a) == BitsVal(b)
    ensures a == b
    decreases |a|
  {
    if a != [] {
      var n := |a| - 1;
      BitsValInjective(a[..n], b[..n]);
      assert a == a[..n] + [a[n]] && b == b[..n] + [b[n]];
    }
  }

  lemma ReduceInjective(t: Type, u: nat, v: nat)
    requires Supported(t) && u < Pow2(t.bits) && v < Pow2(t.bits) && Reduce(t, u) == Reduce(t, v)
    ensures u == v
  {
    hide Pow2;
    Pow2Half(t.bits);
    SmallRemainder(u, Pow2(t.bits));
    SmallRemainder(v, Pow2(t.bits));
  }

  lemma SameByte(a: bv8, b: bv8)
    requires forall k: nat :: k < 8 ==> Bit(a, k) == Bit(b, k)
    ensures a == b
  {
    assert Bit(a, 0) == Bit(b, 0) && Bit(a, 1) == Bit(b, 1) && Bit(a, 2) == Bit(b, 2) && Bit(a, 3) == Bit(b, 3);
    assert Bit(a, 4) == Bit(b, 4) && Bit(a, 5) == Bit(b, 5) && Bit(a, 6) == Bit(b, 6) && Bit(a, 7) == Bit(b, 7);
  }

  lemma SameBytes(a: seq<bv8>, b: seq<bv8>)
    requires |a| == |b| && forall i: nat :: i < 8 * |a| ==> BitAt(a, i) == BitAt(b, i)
    ensures a == b
  {
    hide Bit;
    forall j | 0 <= j < |a| ensures a[j] == b[j] {
      forall k: nat | k < 8 ensures Bit(a[j], k) == Bit(b[j], k) {
        assert BitAt(a, 8 * j + k) == BitAt(b, 8 * j + k);
        assert (8 * j + k) / 8 == j && (8 * j + k) % 8 == k;
      }
      SameByte(a[j], b[j]);
    }
  }

  /** The description leaves nothing open: one string and one reply. */
  lemma DoesUnique(s: seq<bv8>, op: Op, a: seq<bv8>, ra: Reply, b: seq<bv8>, rb: Reply)
    requires ValidOp(op) && Does(s, op, a, ra) && Does(s, op, b, rb)
    requires op.Store? ==> op.offset + op.t.bits <= 8 * |s|
    ensures a == b && ra == rb
  {
    hide BitAt, Pow2, Reduce, Target, BitsVal;
    if op.Store? && !ra.Nil? {
      var x, y := FieldBits(a, op.offset, op.t.bits), FieldBits(b, op.offset, op.t.bits);
      FieldBound(a, op.offset, op.t.bits);
      FieldBound(b, op.offset, op.t.bits);
      ReduceInjective(op.t, BitsVal(x), BitsVal(y));
      BitsValInjective(x, y);
      forall i: nat | i < 8 * |s| ensures BitAt(a, i) == BitAt(b, i) {
        if op.offset <= i < op.offset + op.t.bits {
          assert x[i - op.offset] == PadBit(a, op.offset + (i - op.offset));
          assert y[i - op.offset] == PadBit(b, op.offset + (i - op.offset));
        }
      }
      SameBytes(a, b);
    }
  }

  // ---- The command ----

  predicate AllGets(ops: seq<Op>) { forall i :: 0 <= i < |ops| ==> ops[i].Get? }

  predicate ValidOps(ops: seq<Op>) { forall i :: 0 <= i < |ops| ==> ValidOp(ops[i]) }

  predicate RoomFor(ops: seq<Op>, len: nat) {
    forall i :: 0 <= i < |ops| && ops[i].Store? ==> ops[i].offset + ops[i].t.bits <= 8 * len
  }

  /** The string made long enough, with zeros. */
  function Grow(s: seq<bv8>, len: nat): seq<bv8> {
    if |s| >= len then s else s + seq(len - |s|, _ => 0)
  }

  lemma GrowKeepsBits(s: seq<bv8>, len: nat, i: nat)
    ensures PadBit(Grow(s, len), i) == PadBit(s, i)
    ensures |Grow(s, len)| >= |s| && |Grow(s, len)| >= len && (|Grow(s, len)| == |s| || |Grow(s, len)| == len)
  {
    hide Bit;
    if 8 * |s| <= i < 8 * len { Bitpos.SkippedByte(0, true, i % 8); }
  }

  /** bitops.c:969-972: the highest bit any operation writes. */
  method HighestWrite(ops: seq<Op>) returns (readonly: bool, highest: nat)
    requires ValidOps(ops)
    ensures readonly == AllGets(ops)
    ensures !readonly ==> RoomFor(ops, highest / 8 + 1)
    ensures !readonly ==> exists i :: 0 <= i < |ops| && ops[i].Store? && highest == ops[i].offset + ops[i].t.bits - 1
  {
    readonly, highest := true, 0;
    ghost var at := 0;
    for j := 0 to |ops|
      invariant readonly == AllGets(ops[..j])
      invariant forall i :: 0 <= i < j && ops[i].Store? ==> ops[i].offset + ops[i].t.bits - 1 <= highest
      invariant if readonly then highest == 0
                else 0 <= at < j && ops[at].Store? && highest == ops[at].offset + ops[at].t.bits - 1
    {
      assert ops[..j + 1] == ops[..j] + [ops[j]];
      if ops[j].Store? {
        if readonly || highest < ops[j].offset + ops[j].t.bits - 1 { at := j; }
        readonly := false;
        if highest < ops[j].offset + ops[j].t.bits - 1 { highest := ops[j].offset + ops[j].t.bits - 1; }
      }
    }
    assert ops[..|ops|] == ops;
  }

  ghost predicate Steps(ops: seq<Op>, replies: seq<Reply>, trace: seq<seq<bv8>>)
    requires ValidOps(ops)
  {
    && |replies| == |ops| && |trace| == |ops| + 1
    && forall i :: 0 <= i < |ops| ==> Does(trace[i], ops[i], trace[i + 1], replies[i])
  }

  lemma StepsSnoc(ops: seq<Op>, replies: seq<Reply>, trace: seq<seq<bv8>>, op: Op, reply: Reply, s: seq<bv8>)
    requires ValidOps(ops) && ValidOp(op) && Steps(ops, replies, trace) && Does(trace[|ops|], op, s, reply)
    ensures ValidOps(ops + [op]) && Steps(ops + [op], replies + [reply], trace + [s])
  {
    hide Does;
  }

  /** The replies of a command, operation by operation, against the string before and after each:
      GET and SET answer what the field held before them, INCRBY what it holds after it, and Nil means
      the policy is to fail on a number out of range. */
  lemma StepReplies(ops: seq<Op>, replies: seq<Reply>, trace: seq<seq<bv8>>, i: nat)
    requires ValidOps(ops) && Steps(ops, replies, trace) && i < |ops|
    ensures var op := ops[i];
            var before, after := Read(trace[i], op.t, op.offset), Read(trace[i + 1], op.t, op.offset);
            && (op.Get? ==> replies[i] == Int(before))
            && (op.Store? ==>
                  (replies[i] == Nil <==>
                   op.ow == Fail && !InRange(op.t, if op.incr then before + op.arg else op.arg)))
            && (op.Store? && replies[i] != Nil ==> replies[i] == Int(if op.incr then after else before))
            && (op.Get? || replies[i] == Nil ==> trace[i + 1] == trace[i])
  {
    hide Pow2, InRange, Read, Misjudged, SameOutside, Target;
    if ops[i].Store? { DoesStore(trace[i], ops[i], trace[i + 1], replies[i]); }
  }

  /** A GET just before a SET of the same field gives the SET's reply. */
  lemma GetThenSet(ops: seq<Op>, replies: seq<Reply>, trace: seq<seq<bv8>>, i: nat)
    requires ValidOps(ops) && Steps(ops, replies, trace) && i + 1 < |ops|
    requires ops[i].Get? && ops[i + 1].Store? && !ops[i + 1].incr && replies[i + 1] != Nil
    requires ops[i].t == ops[i + 1].t && ops[i].offset == ops[i + 1].offset
    ensures replies[i] == replies[i + 1]
  {
    hide Steps, Pow2, Read;
    StepReplies(ops, replies, trace, i);
    StepReplies(ops, replies, trace, i + 1);
  }

  /** A GET just after an INCRBY of the same field gives the INCRBY's reply. */
  lemma IncrThenGet(ops: seq<Op>, replies: seq<Reply>, trace: seq<seq<bv8>>, i: nat)
    requires ValidOps(ops) && Steps(ops, replies, trace) && i + 1 < |ops|
    requires ops[i].Store? && ops[i].incr && replies[i] != Nil && ops[i + 1].Get?
    requires ops[i].t == ops[i + 1].t && ops[i].offset == ops[i + 1].offset
    ensures replies[i] == replies[i + 1]
  {
    hide Steps, Pow2, Read;
    StepReplies(ops, replies, trace, i);
    StepReplies(ops, replies, trace, i + 1);
  }

  /** One operation of the command. */
  method RunOp(p: array<bv8>, op: Op) returns (reply: Reply)
    requires ValidOp(op) && (op.Store? ==> op.offset + op.t.bits <= 8 * p.Length)
    modifies p
    ensures Does(old(p[..]), op, p[..], reply) && (op.Get? ==> p[..] == old(p[..]))
  {
    hide Does;
    if op.Get? {
      reply := GetField(p[..], op.t, op.offset);
      GetDoes(p[..], op, reply);
    } else if op.t.signed {
      reply := StoreSigned(p, op);
    } else {
      reply := StoreUnsigned(p, op);
    }
  }

  /** BITFIELD: the operations one after the other on the string grown for the farthest write; a
      command of GETs only changes nothing and needs no string. */
  method BitfieldCommand(o: Bitop.Source, ops: seq<Op>)
    returns (wrongType: bool, replies: seq<Reply>, out: Bitop.Source, ghost trace: seq<seq<bv8>>, ghost len: nat)
    requires ValidOps(ops)
    ensures wrongType <==> o.WrongType?
    ensures wrongType || AllGets(ops) ==> out == o && len == 0
    ensures !wrongType ==> Steps(ops, replies, trace) && trace[0] == Grow(Bitop.BytesOf(o), len)
    ensures !wrongType && !AllGets(ops) ==> out == Bitop.Str(trace[|ops|]) && RoomFor(ops, len)
    ensures !wrongType && !AllGets(ops) ==>
              exists i :: 0 <= i < |ops| && ops[i].Store? && len == (ops[i].offset + ops[i].t.bits - 1) / 8 + 1
  {
    hide Does;
    wrongType, replies, out, trace, len := o.WrongType?, [], o, [], 0;
    if wrongType { return; }
    var readonly, highest := HighestWrite(ops);
    var s := match o case Str(bytes) => bytes case _ => [];
    if !readonly {
      len := highest / 8 + 1;
      s := Grow(s, highest / 8 + 1);
    }
    var p := new bv8[|s|](i requires 0 <= i < |s| => s[i]);
    assert p[..] == s;
    trace := [s];
    for j := 0 to |ops|
      invariant ValidOps(ops[..j]) && Steps(ops[..j], replies, trace)
      invariant trace[0] == s && trace[j] == p[..]
      invariant readonly ==> p[..] == s
    {
      var op := ops[j];
      var reply := RunOp(p, op);
      StepsSnoc(ops[..j], replies, trace, op, reply, p[..]);
      assert ops[..j + 1] == ops[..j] + [op];
      replies, trace := replies + [reply], trace + [p[..]];
    }
    assert ops[..|ops|] == ops;
    if !readonly { out := Bitop.Str(p[..]); }
  }

  lemma GetDoes(s: seq<bv8>, op: Op, reply: Reply)
    requires ValidOp(op) && op.Get? && reply == Int(Read(s, op.t, op.offset))
    ensures Does(s, op, s, reply)
  {
  }
}
