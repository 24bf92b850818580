/** redisBitpos (bitops.c:101-186) and the ranges of BITPOS and BITCOUNT (bitops.c:769-893). */
module Bitpos {
  import opened Bits
  import Bitop
  import PopcountWords

  // ---- What is searched for ----

  /** `pos` is the least position that holds `bit` in the zero-padded string. */
  predicate IsFirst(s: seq<bv8>, bit: bool, pos: nat) {
    PadBit(s, pos) == bit && forall i: nat :: i < pos ==> PadBit(s, i) != bit
  }

  predicate NoneSet(s: seq<bv8>) { forall i: nat :: i < 8 * |s| ==> !BitAt(s, i) }

  // ---- Bytes and words that can be skipped ----

  function SkipByte(bit: bool): bv8 { if bit then 0 else 0xff }

  lemma SkippedByte(b: bv8, bit: bool, k: nat)
    requires k < 8
    ensures b == SkipByte(bit) ==> Bit(b, k) != bit
  {
  }

  lemma NotSkippedByte(b: bv8, bit: bool) returns (k: nat)
    requires b != SkipByte(bit)
    ensures k < 8 && Bit(b, k) == bit
  {
    k := if Bit(b, 0) == bit then 0 else if Bit(b, 1) == bit then 1 else if Bit(b, 2) == bit then 2
         else if Bit(b, 3) == bit then 3 else if Bit(b, 4) == bit then 4 else if Bit(b, 5) == bit then 5
         else if Bit(b, 6) == bit then 6 else 7;
  }

  function SkipWord(bit: bool): bv64 { if bit then 0 else 0xffff_ffff_ffff_ffff }

  /** The first `i` bytes hold nothing of interest. */
  predicate Skipped(s: seq<bv8>, bit: bool, i: nat) {
    i <= |s| && forall b :: 0 <= b < i ==> s[b] == SkipByte(bit)
  }

  lemma SkippedBits(s: seq<bv8>, bit: bool, i: nat)
    requires Skipped(s, bit, i)
    ensures forall j: nat :: j < 8 * i ==> PadBit(s, j) != bit
  {
    forall j: nat | j < 8 * i ensures PadBit(s, j) != bit {
      SkippedByte(s[j / 8], bit, j % 8);
    }
  }

  // ---- The last word ----

  /** The first `n` bits of the zero-padded string. */
  function PadBits(s: seq<bv8>, n: nat): (r: seq<bool>)
    ensures |r| == n
  {
    seq(n, i requires 0 <= i => PadBit(s, i))
  }

  lemma {:induction false} BitsValConcat(a: seq<bool>, b: seq<bool>)
    ensures BitsVal(a + b) == BitsVal(a) * Pow2(|b|) + BitsVal(b)
    decreases |b|
  {
    if b == [] {
      assert a + b == a;
    } else {
      var b' := b[..|b| - 1];
      assert (a + b)[..|a + b| - 1] == a + b';
      BitsValConcat(a, b');
      Double(BitsVal(a), Pow2(|b'|), BitsVal(b'));
    }
  }

  lemma Double(x: nat, p: nat, y: nat)
    ensures 2 * (x * p + y) == x * (2 * p) + 2 * y
  {
  }

  function ByteVal(b: bv8): nat { BitsVal(ByteBits(b)) }

  lemma PadByte(s: seq<bv8>, j: nat)
    ensures PadBits(s, 8 * (j + 1)) == PadBits(s, 8 * j) + ByteBits(if j < |s| then s[j] else 0)
  {
    hide Bit, ByteBits;
    var b := if j < |s| then s[j] else 0;
    forall k | 0 <= k < 8 ensures PadBit(s, 8 * j + k) == Bit(b, k) {
      if j >= |s| { SkippedByte(0, true, k); }
    }
  }

  lemma {:induction false} Pow2Monotone(a: nat, b: nat)
    requires a <= b
    ensures Pow2(a) <= Pow2(b)
    decreases b - a
  {
    if a < b { Pow2Monotone(a, b - 1); }
  }

  /** A 64-bit word shifted left by eight, with the byte in the bits the shift cleared. */
  function PushByte(word: nat, b: nat): nat { (word * 256) % Pow2(64) + b }

  lemma ShiftFits(v: nat, j: nat)
    requires j < 8 && v < Pow2(8 * j)
    ensures (v * 256) % Pow2(64) == v * 256
  {
    Pow2Monotone(8 * j, 56);
    hide Pow2;
    assert Pow2(64) == 256 * Pow2(56) by { Pow2By8(56); }
    assert v * 256 < Pow2(64);
    SmallMod(v * 256, Pow2(64));
  }

  lemma Pow2By8(n: nat)
    ensures Pow2(n + 8) == 256 * Pow2(n)
  {
    assert Pow2(n + 2) == 4 * Pow2(n);
    assert Pow2(n + 4) == 4 * Pow2(n + 2);
    assert Pow2(n + 6) == 4 * Pow2(n + 4);
    assert Pow2(n + 8) == 4 * Pow2(n + 6);
  }

  lemma SmallMod(x: nat, m: nat)
    requires x < m
    ensures x % m == x
  {
  }

  lemma PushByteBits(s: seq<bv8>, j: nat)
    requires j < 8
    ensures PushByte(BitsVal(PadBits(s, 8 * j)), ByteVal(if j < |s| then s[j] else 0))
            == BitsVal(PadBits(s, 8 * (j + 1)))
  {
    assert Pow2(8) == 256 by { Pow2By8(0); }
    hide Pow2, BitsVal, ByteBits, PadBits;
    PadByte(s, j);
    BitsValConcat(PadBits(s, 8 * j), ByteBits(if j < |s| then s[j] else 0));
    BitsValBound(PadBits(s, 8 * j));
    ShiftFits(BitsVal(PadBits(s, 8 * j)), j);
  }

  /** bitops.c:151-159 */
  method LoadWord(s: seq<bv8>) returns (word: nat)
    ensures word == BitsVal(PadBits(s, 64))
  {
    hide BitsVal, ByteBits;
    word := 0;
    assert BitsVal(PadBits(s, 0)) == 0 by { NoBits(s); }
    for j := 0 to 8
      invariant word == BitsVal(PadBits(s, 8 * j))
    {
      PushByteBits(s, j);
      ZeroByte();
      word := PushByte(word, if j < |s| then ByteVal(s[j]) else 0);
    }
  }

  lemma NoBits(s: seq<bv8>)
    ensures BitsVal(PadBits(s, 0)) == 0
  {
  }

  lemma ZeroByte()
    ensures ByteVal(0) == 0
  {
    AllFalse(ByteBits(0));
  }

  lemma {:induction false} AllFalse(b: seq<bool>)
    requires forall i :: 0 <= i < |b| ==> !b[i]
    ensures BitsVal(b) == 0
  {
    if b != [] { AllFalse(b[..|b| - 1]); }
  }

  lemma {:induction false} SomeTrue(b: seq<bool>, i: nat)
    requires i < |b| && b[i]
    ensures BitsVal(b) > 0
    decreases |b|
  {
    if i < |b| - 1 { SomeTrue(b[..|b| - 1], i); }
  }

  // ---- The search ----

  /** Bytes up to an address that is a multiple of eight (bitops.c:119-130). */
  method SkipHead(s: seq<bv8>, addr: nat, bit: bool) returns (i: nat, found: bool)
    ensures Skipped(s, bit, i) && (found ==> i < |s| && s[i] != SkipByte(bit))
  {
    i, found := 0, false;
    while (addr + i) % 8 != 0 && i < |s|
      invariant Skipped(s, bit, i)
      decreases |s| - i
    {
      if s[i] != SkipByte(bit) {
        found := true;
        return;
      }
      i := i + 1;
    }
  }

  /** Whole words (bitops.c:135-141): stops short of a word that is worth looking into. */
  method SkipWords(s: seq<bv8>, bit: bool, from: nat) returns (i: nat)
    requires Skipped(s, bit, from)
    ensures Skipped(s, bit, i)
    ensures |s| - i >= 8 ==> exists b :: i <= b < i + 8 && s[b] != SkipByte(bit)
  {
    i := from;
    while |s| - i >= 8
      invariant Skipped(s, bit, i)
    {
      if Bitop.Load(s[i..i + 8]) != SkipWord(bit) { return; }
      i := i + 8;
    }
  }

  /** Something to find among the next eight bytes, counting the zeros after the end. */
  predicate WorthLooking(s: seq<bv8>, bit: bool, i: nat) {
    (exists b :: i <= b < |s| && b < i + 8 && s[b] != SkipByte(bit)) || |s| - i < 8
  }

  lemma FoundInWord(s: seq<bv8>, bit: bool, i: nat) returns (t: nat)
    requires i <= |s| && WorthLooking(s, bit, i)
    requires bit ==> BitsVal(PadBits(s[i..], 64)) != 0
    ensures t < 64 && PadBit(s[i..], t) == bit
  {
    hide BitsVal, Bit;
    var r := s[i..];
    if bit {
      if forall t: nat :: t < 64 ==> !PadBit(r, t) { AllFalse(PadBits(r, 64)); }
      t :| t < 64 && PadBit(r, t);
    } else if |r| < 8 {
      t := 63;
    } else {
      t := InterestingBit(s, bit, i);
    }
  }

  lemma InterestingBit(s: seq<bv8>, bit: bool, i: nat) returns (t: nat)
    requires i <= |s| && exists b :: i <= b < |s| && b < i + 8 && s[b] != SkipByte(bit)
    ensures t < 64 && t < 8 * |s[i..]| && PadBit(s[i..], t) == bit
  {
    hide Bit;
    var b :| i <= b < |s| && b < i + 8 && s[b] != SkipByte(bit);
    var k := NotSkippedByte(s[b], bit);
    t := 8 * (b - i) + k;
    assert t / 8 == b - i && t % 8 == k;
  }

  lemma NothingLeft(s: seq<bv8>, i: nat)
    requires Skipped(s, true, i) && WorthLooking(s, true, i) && BitsVal(PadBits(s[i..], 64)) == 0
    ensures NoneSet(s)
  {
    hide BitsVal, Bit;
    if |s| - i >= 8 {
      var t := InterestingBit(s, true, i);
      SomeTrue(PadBits(s[i..], 64), t);
    }
    SkippedBits(s, true, i);
    forall j: nat | j < 8 * |s| ensures !BitAt(s, j) {
      assert BitAt(s, j) == PadBit(s, j);
      if j >= 8 * i && BitAt(s, j) {
        PadShift(s, i, j - 8 * i);
        SomeTrue(PadBits(s[i..], 64), j - 8 * i);
      }
    }
  }

  lemma FirstAfter(s: seq<bv8>, bit: bool, i: nat, k: nat)
    requires Skipped(s, bit, i)
    requires PadBit(s[i..], k) == bit && forall t: nat :: t < k ==> PadBit(s[i..], t) != bit
    ensures IsFirst(s, bit, 8 * i + k)
  {
    hide PadBit;
    SkippedBits(s, bit, i);
    PadShift(s, i, k);
    forall j: nat | j < 8 * i + k ensures PadBit(s, j) != bit {
      if j >= 8 * i { PadShift(s, i, j - 8 * i); }
    }
  }

  /** bitops.c:172-180. The panic after the loop is never reached. */
  method ScanWord(word: nat, bits: seq<bool>, bit: bool, ghost found: nat) returns (t: nat)
    requires |bits| == 64 && word == BitsVal(bits) && found < 64 && bits[found] == bit
    ensures t < 64 && bits[t] == bit && forall i :: 0 <= i < t ==> bits[i] != bit
  {
    var one := Pow2(63);
    t := 0;
    while one != 0
      invariant t <= 64 && one == if t < 64 then Pow2(63 - t) else 0
      invariant forall i :: 0 <= i < t ==> bits[i] != bit
      decreases 64 - t
    {
      BitsValDigit(bits, t);
      if ((word / one) % 2 == 1) == bit { return; }
      t := t + 1;
      one := one / 2;
    }
    assert false;
  }

  lemma PadShift(s: seq<bv8>, i: nat, t: nat)
    requires i <= |s|
    ensures PadBit(s[i..], t) == PadBit(s, 8 * i + t)
  {
    hide Bit;
    assert (8 * i + t) / 8 == i + t / 8 && (8 * i + t) % 8 == t % 8;
  }

  /** redisBitpos of the bytes `s`, which start at address `addr`. */
  method RedisBitpos(s: seq<bv8>, addr: nat, bit: bool) returns (pos: int)
    ensures pos == -1 <==> bit && NoneSet(s)
    ensures pos != -1 ==> pos >= 0 && IsFirst(s, bit, pos)
  {
    hide BitsVal, PadBit, NoneSet;
    var i, found := SkipHead(s, addr, bit);
    if !found { i := SkipWords(s, bit, i); }
    var word := LoadWord(s[i..]);
    if bit && word == 0 {
      NothingLeft(s, i);
      return -1;
    }
    ghost var t := FoundInWord(s, bit, i);
    var k := ScanWord(word, PadBits(s[i..], 64), bit, t);
    pos := 8 * i + k;
    assert forall j: nat :: j < 64 ==> PadBit(s[i..], j) == PadBits(s[i..], 64)[j];
    FirstAfter(s, bit, i, k);
    if bit { SetSomewhere(s, pos); }
  }

  lemma SetSomewhere(s: seq<bv8>, pos: nat)
    requires PadBit(s, pos)
    ensures !NoneSet(s)
  {
  }

  // ---- BITPOS and BITCOUNT ----

  datatype Range = Whole | From(start: int) | FromTo(start: int, end: int)
  datatype Reply = WrongTypeError | BadBitError | SyntaxError | Number(n: int)

  /** An index counted from the end when negative, and 0 when that falls before the string. */
  function Clip(i: int, len: nat): int {
    if i >= 0 then i else if len + i < 0 then 0 else len + i
  }

  function First(r: Range, len: nat): int { if r.Whole? then 0 else Clip(r.start, len) }

  function Last(r: Range, len: nat): int {
    if r.FromTo? && Clip(r.end, len) < len then Clip(r.end, len) else len - 1
  }

  /** The bytes of a range: a negative end counts from the end of the string, and one before its
      start stands for the first byte. */
  lemma RangeMeans(r: Range, len: nat, b: nat)
    requires b < len
    ensures First(r, len) <= b <= Last(r, len) <==>
              && (r.Whole? || r.start <= (if r.start >= 0 then b else b - len))
              && (r.FromTo? ==> (if r.end >= 0 then b else b - len) <= r.end || (b == 0 && r.end + len < 0))
  {
  }

  /** `p` holds `bit` and lies in the range. Only a range with an explicit end stops; any other
      goes on into the zeros after the string. */
  predicate Candidate(s: seq<bv8>, bit: int, r: Range, p: nat) {
    && 8 * First(r, |s|) <= p && PadBit(s, p) == (bit == 1)
    && (r.FromTo? ==> p < 8 * (Last(r, |s|) + 1))
  }

  /** bitops.c:791-795 and 856-860, for the negative indexes. */
  method ClipRange(start: int, end: int, len: nat) returns (first: int, last: int)
    ensures first == Clip(start, len) && last == if Clip(end, len) < len then Clip(end, len) else len - 1
  {
    first, last := start, end;
    if first < 0 { first := len + first; }
    if last < 0 { last := len + last; }
    if first < 0 { first := 0; }
    if last < 0 { last := 0; }
    if last >= len { last := len - 1; }
  }

  lemma InSlice(s: seq<bv8>, first: nat, last: nat, t: nat)
    requires first <= last < |s|
    ensures last == |s| - 1 || t < 8 * (last + 1 - first) ==> PadBit(s[first..last + 1], t) == PadBit(s, 8 * first + t)
    ensures PadBit(s[first..last + 1], t) ==> PadBit(s, 8 * first + t)
  {
    hide Bit;
    assert (8 * first + t) / 8 == first + t / 8 && (8 * first + t) % 8 == t % 8;
  }

  /** Searching the slice finds nothing inside the range: there is nothing. */
  lemma RangeNone(s: seq<bv8>, bit: int, r: Range, p: nat)
    requires 0 <= First(r, |s|) <= Last(r, |s|)
    requires var w := s[First(r, |s|)..Last(r, |s|) + 1];
             (bit == 1 && NoneSet(w)) || (r.FromTo? && bit == 0 && IsFirst(w, false, 8 * |w|))
    ensures !Candidate(s, bit, r, p)
  {
    hide BitAt;
    var first, last := First(r, |s|), Last(r, |s|);
    if Candidate(s, bit, r, p) { InSlice(s, first, last, p - 8 * first); }
  }

  /** The first hit in the slice is the first in the range. */
  lemma RangeFound(s: seq<bv8>, bit: int, r: Range, pos: nat)
    requires 0 <= First(r, |s|) <= Last(r, |s|)
    requires var w := s[First(r, |s|)..Last(r, |s|) + 1];
             (bit == 0 || bit == 1) && IsFirst(w, bit == 1, pos) && !(r.FromTo? && bit == 0 && pos == 8 * |w|)
    ensures Candidate(s, bit, r, 8 * First(r, |s|) + pos)
    ensures forall p: nat :: p < 8 * First(r, |s|) + pos ==> !Candidate(s, bit, r, p)
  {
    hide BitAt;
    var first, last := First(r, |s|), Last(r, |s|);
    var w := s[first..last + 1];
    assert pos > 8 * |w| ==> PadBit(w, 8 * |w|) != (bit == 1);
    InSlice(s, first, last, pos);
    forall p: nat | p < 8 * first + pos ensures !Candidate(s, bit, r, p) {
      if p >= 8 * first { InSlice(s, first, last, p - 8 * first); }
    }
  }

  /** BITPOS: the least position in the range, or -1 exactly when there is none. */
  method BitposCommand(o: Bitop.Source, addr: nat, bit: int, r: Range) returns (reply: Reply)
    ensures bit != 0 && bit != 1 ==> reply == BadBitError
    ensures (bit == 0 || bit == 1) && o.WrongType? ==> reply == WrongTypeError
    ensures (bit == 0 || bit == 1) && o.Missing? ==> reply == Number(if bit == 1 then -1 else 0)
    ensures (bit == 0 || bit == 1) && o.Str? && First(r, |o.bytes|) > Last(r, |o.bytes|) ==> reply == Number(-1)
    ensures (bit == 0 || bit == 1) && o.Str? && First(r, |o.bytes|) <= Last(r, |o.bytes|) ==>
              && reply.Number?
              && (reply.n == -1 <==> forall p: nat :: !Candidate(o.bytes, bit, r, p))
              && (reply.n != -1 ==> reply.n >= 0 && Candidate(o.bytes, bit, r, reply.n)
                                    && forall p: nat :: p < reply.n ==> !Candidate(o.bytes, bit, r, p))
  {
    hide PadBit, NoneSet, IsFirst, Candidate;
    if bit != 0 && bit != 1 { return BadBitError; }
    if o.Missing? { return Number(if bit == 1 then -1 else 0); }
    if o.WrongType? { return WrongTypeError; }
    var s := o.bytes;
    var start, end := 0, |s| - 1;
    match r {
      case Whole =>
      case From(i) => start, end := ClipRange(i, |s| - 1, |s|);
      case FromTo(i, j) => start, end := ClipRange(i, j, |s|);
    }
    if start > end { return Number(-1); }
    var n := end - start + 1;
    var pos := RedisBitpos(s[start..end + 1], addr + start, bit == 1);
    if r.FromTo? && bit == 0 && pos == n * 8 {
      forall p: nat { RangeNone(s, bit, r, p); }
      return Number(-1);
    }
    if pos != -1 {
      RangeFound(s, bit, r, pos);
      pos := pos + start * 8;
    } else {
      forall p: nat { RangeNone(s, bit, r, p); }
    }
    return Number(pos);
  }

  /** BITCOUNT: the bits set in the range, which is empty when both ends are negative and the wrong
      way round. */
  method BitcountCommand(o: Bitop.Source, addr: nat, r: Range) returns (reply: Reply)
    ensures o.Missing? ==> reply == Number(0)
    ensures o.WrongType? ==> reply == WrongTypeError
    ensures o.Str? && r.From? ==> reply == SyntaxError
    ensures o.Str? && !r.From? ==>
              var first, last := First(r, |o.bytes|), Last(r, |o.bytes|);
              if first > last || (r.FromTo? && r.end < r.start < 0) then reply == Number(0)
              else reply == Number(Popcount(o.bytes[first..last + 1]))
  {
    if o.Missing? { return Number(0); }
    if o.WrongType? { return WrongTypeError; }
    var s := o.bytes;
    var start, end := 0, |s| - 1;
    if r.From? { return SyntaxError; }
    if r.FromTo? {
      if r.start < 0 && r.end < 0 && r.start > r.end { return Number(0); }
      start, end := ClipRange(r.start, r.end, |s|);
    }
    if start > end { return Number(0); }
    var bits := PopcountWords.RedisPopcount(s[start..end + 1], addr + start);
    return Number(bits);
  }
}
