/** redisPopcount (bitops.c:40-92): bytes up to a 4-byte boundary, then seven 32-bit words at a
    time with the partial sums kept inside byte lanes, then the remaining bytes. */
module PopcountWords {
  import opened Bits

  /** Four bytes in a word, the first in the least significant lane. */
  function Join(a: bv8, b: bv8, c: bv8, d: bv8): bv32 {
    (a as bv32) | ((b as bv32) << 8) | ((c as bv32) << 16) | ((d as bv32) << 24)
  }

  /** The uint32_t at byte `k`. */
  function Word(s: seq<bv8>, k: nat): bv32
    requires k + 4 <= |s|
  {
    Join(s[k], s[k + 1], s[k + 2], s[k + 3])
  }

  function Plus(x: bv32, y: bv32): bv32 { x + y }

  /** bitops.c:66 */
  function PairCounts(w: bv32): bv32 { Minus(w, High5(w)) }

  function Low5(w: bv32): bv32 { w & 0x55555555 }
  function High5(w: bv32): bv32 { (w >> 1) & 0x55555555 }
  function Low3(w: bv32): bv32 { w & 0x33333333 }
  function High3(w: bv32): bv32 { (w >> 2) & 0x33333333 }
  function LowF(w: bv32): bv32 { w & 0x0F0F0F0F }
  function HighF(w: bv32): bv32 { (w >> 4) & 0x0F0F0F0F }

  /** bitops.c:67 */
  function NibbleCounts(w: bv32): bv32 { Plus(Low3(PairCounts(w)), High3(PairCounts(w))) }

  /** The first half of a term of bitops.c:80-86. */
  function ByteCounts(aux: bv32): bv32 { (aux + (aux >> 4)) & 0x0F0F0F0F }

  function Spread(x: bv32): bv32 { x * 0x01010101 }
  function Top(x: bv32): bv32 { x >> 24 }

  /** bitops.c:80-86 */
  function Batch(w1: bv32, w2: bv32, w3: bv32, w4: bv32, w5: bv32, w6: bv32, w7: bv32): bv32 {
    Top(Spread(Plus(Plus(Plus(Plus(Plus(Plus(Counts(w1), Counts(w2)), Counts(w3)), Counts(w4)), Counts(w5)),
                         Counts(w6)), Counts(w7))))
  }

  function Counts(w: bv32): bv32 { ByteCounts(NibbleCounts(w)) }

  // ---- Lanes do not disturb each other ----

  lemma AddLanes(a: bv8, b: bv8, c: bv8, d: bv8, a': bv8, b': bv8, c': bv8, d': bv8)
    requires a <= 127 && b <= 127 && c <= 127 && d <= 127
    requires a' <= 127 && b' <= 127 && c' <= 127 && d' <= 127
    ensures Plus(Join(a, b, c, d), Join(a', b', c', d')) == Join(a + a', b + b', c + c', d + d')
  {
    hide Plus, Join, Widen, Sum4;
    JoinIsSum(a, b, c, d);
    JoinIsSum(a', b', c', d');
    JoinIsSum(a + a', b + b', c + c', d + d');
    PlusLanes(Widen(a), Widen(b), Widen(c), Widen(d), Widen(a'), Widen(b'), Widen(c'), Widen(d'));
    AddLane(a, a');
    AddLane(b, b');
    AddLane(c, c');
    AddLane(d, d');
  }

  lemma AddLane(a: bv8, b: bv8)
    requires a <= 127 && b <= 127
    ensures Plus(Widen(a), Widen(b)) == Widen(a + b)
  {
  }

  lemma MaskLanes5(a: bv8, b: bv8, c: bv8, d: bv8)
    ensures Low5(Join(a, b, c, d)) == Join(a & 0x55, b & 0x55, c & 0x55, d & 0x55)
    ensures High5(Join(a, b, c, d)) == Join((a >> 1) & 0x55, (b >> 1) & 0x55, (c >> 1) & 0x55, (d >> 1) & 0x55)
  {
  }

  lemma MaskLanes3(a: bv8, b: bv8, c: bv8, d: bv8)
    ensures Low3(Join(a, b, c, d)) == Join(a & 0x33, b & 0x33, c & 0x33, d & 0x33)
    ensures High3(Join(a, b, c, d)) == Join((a >> 2) & 0x33, (b >> 2) & 0x33, (c >> 2) & 0x33, (d >> 2) & 0x33)
  {
  }

  lemma MaskLanesF(a: bv8, b: bv8, c: bv8, d: bv8)
    ensures LowF(Join(a, b, c, d)) == Join(a & 0x0F, b & 0x0F, c & 0x0F, d & 0x0F)
    ensures HighF(Join(a, b, c, d)) == Join((a >> 4) & 0x0F, (b >> 4) & 0x0F, (c >> 4) & 0x0F, (d >> 4) & 0x0F)
  {
  }

  lemma ClearLanes8(a: bv8, b: bv8, c: bv8, d: bv8)
    requires a & 0x88 == 0 && b & 0x88 == 0 && c & 0x88 == 0 && d & 0x88 == 0
    ensures Join(a, b, c, d) & 0x88888888 == 0
  {
  }

  // ---- One word ----

  /** Two-bit fields: the subtraction is the sum of the two bits. */
  lemma PairsAdd(w: bv32)
    ensures PairCounts(w) == Plus(Low5(w), High5(w))
  {
    hide Plus, Low5, High5, Minus, PlusTwice;
    PairsSplit(w);
    LessOnce(Low5(w), High5(w));
  }

  function Minus(x: bv32, y: bv32): bv32 { x - y }
  function PlusTwice(x: bv32, y: bv32): bv32 { x + 2 * y }

  lemma PairsSplit(w: bv32)
    ensures w == PlusTwice(Low5(w), High5(w))
  {
  }

  lemma LessOnce(l: bv32, h: bv32)
    ensures Minus(PlusTwice(l, h), h) == Plus(l, h)
  {
    calc {
      Minus(PlusTwice(l, h), h);
      Minus(l + 2 * h, h);
      l + 2 * h - h;
      l + h;
      Plus(l, h);
    }
  }

  /** Four-bit fields of at most seven: adding the neighbour does not carry out of the field. */
  lemma NibblesAdd(b: bv32)
    requires b & 0x88888888 == 0
    ensures ByteCounts(b) == Plus(LowF(b), HighF(b))
  {
  }

  function Pairs(p: bv8): bv8 { (p & 0x55) + ((p >> 1) & 0x55) }
  function Nibbles(p: bv8): bv8 { (Pairs(p) & 0x33) + ((Pairs(p) >> 2) & 0x33) }
  function Ones(p: bv8): bv8 { (Nibbles(p) & 0x0F) + ((Nibbles(p) >> 4) & 0x0F) }

  lemma NibblesSmall(p: bv8)
    ensures Nibbles(p) & 0x88 == 0
  {
  }

  lemma PairLanes(p: bv8, q: bv8, r: bv8, s: bv8)
    ensures PairCounts(Join(p, q, r, s)) == Join(Pairs(p), Pairs(q), Pairs(r), Pairs(s))
  {
    hide Join, Plus, PairCounts, Low5, High5;
    PairsAdd(Join(p, q, r, s));
    MaskLanes5(p, q, r, s);
    AddLanes(p & 0x55, q & 0x55, r & 0x55, s & 0x55, (p >> 1) & 0x55, (q >> 1) & 0x55, (r >> 1) & 0x55,
             (s >> 1) & 0x55);
  }

  lemma NibbleLanes(a: bv8, b: bv8, c: bv8, d: bv8)
    ensures Plus(Low3(Join(a, b, c, d)), High3(Join(a, b, c, d)))
            == Join((a & 0x33) + ((a >> 2) & 0x33), (b & 0x33) + ((b >> 2) & 0x33),
                    (c & 0x33) + ((c >> 2) & 0x33), (d & 0x33) + ((d >> 2) & 0x33))
  {
    hide Join, Plus, Low3, High3;
    MaskLanes3(a, b, c, d);
    AddLanes(a & 0x33, b & 0x33, c & 0x33, d & 0x33, (a >> 2) & 0x33, (b >> 2) & 0x33, (c >> 2) & 0x33,
             (d >> 2) & 0x33);
  }

  lemma NibbleCountsLanes(p: bv8, q: bv8, r: bv8, s: bv8)
    ensures NibbleCounts(Join(p, q, r, s)) == Join(Nibbles(p), Nibbles(q), Nibbles(r), Nibbles(s))
  {
    hide Join, Pairs, PairCounts, Plus, Low3, High3;
    PairLanes(p, q, r, s);
    NibbleLanes(Pairs(p), Pairs(q), Pairs(r), Pairs(s));
  }

  lemma ByteLanes(a: bv8, b: bv8, c: bv8, d: bv8)
    requires a & 0x88 == 0 && b & 0x88 == 0 && c & 0x88 == 0 && d & 0x88 == 0
    ensures ByteCounts(Join(a, b, c, d))
            == Join((a & 0x0F) + ((a >> 4) & 0x0F), (b & 0x0F) + ((b >> 4) & 0x0F),
                    (c & 0x0F) + ((c >> 4) & 0x0F), (d & 0x0F) + ((d >> 4) & 0x0F))
  {
    hide Join, Plus, ByteCounts, LowF, HighF;
    ClearLanes8(a, b, c, d);
    NibblesAdd(Join(a, b, c, d));
    MaskLanesF(a, b, c, d);
    AddLanes(a & 0x0F, b & 0x0F, c & 0x0F, d & 0x0F, (a >> 4) & 0x0F, (b >> 4) & 0x0F, (c >> 4) & 0x0F,
             (d >> 4) & 0x0F);
  }

  /** A word of four bytes becomes the word of their bit counts. */
  lemma ByteCountsLanes(p: bv8, q: bv8, r: bv8, s: bv8)
    ensures Counts(Join(p, q, r, s)) == Join(Ones(p), Ones(q), Ones(r), Ones(s))
  {
    hide Join, Nibbles, NibbleCounts, ByteCounts;
    NibblesSmall(p);
    NibblesSmall(q);
    NibblesSmall(r);
    NibblesSmall(s);
    NibbleCountsLanes(p, q, r, s);
    ByteLanes(Nibbles(p), Nibbles(q), Nibbles(r), Nibbles(s));
  }

  // ---- Seven words ----

  /** A word as the sum of its lanes. Modulo 2^32 the next two lemmas hold for lanes of any size. */
  function Sum4(a: bv32, b: bv32, c: bv32, d: bv32): bv32 { a + b * 0x100 + c * 0x10000 + d * 0x1000000 }

  function Widen(b: bv8): bv32 { b as bv32 }

  lemma JoinIsSum(a: bv8, b: bv8, c: bv8, d: bv8)
    ensures Join(a, b, c, d) == Sum4(Widen(a), Widen(b), Widen(c), Widen(d))
  {
  }

  lemma PlusPlus(a: bv32, b: bv32, c: bv32, d: bv32)
    ensures Plus(a, b) == a + b
    ensures Plus(Plus(a, b), c) == a + b + c
    ensures Plus(Plus(Plus(a, b), c), d) == a + b + c + d
  {
    assert Plus(a + b, c) == a + b + c;
    assert Plus(a + b + c, d) == a + b + c + d;
  }

  lemma PlusLanes(a: bv32, b: bv32, c: bv32, d: bv32, a': bv32, b': bv32, c': bv32, d': bv32)
    ensures Plus(Sum4(a, b, c, d), Sum4(a', b', c', d')) == Sum4(Plus(a, a'), Plus(b, b'), Plus(c, c'), Plus(d, d'))
  {
    calc {
      Plus(Sum4(a, b, c, d), Sum4(a', b', c', d'));
      Plus(a + b * 0x100 + c * 0x10000 + d * 0x1000000, a' + b' * 0x100 + c' * 0x10000 + d' * 0x1000000);
      (a + b * 0x100 + c * 0x10000 + d * 0x1000000) + (a' + b' * 0x100 + c' * 0x10000 + d' * 0x1000000);
      (a + a') + (b + b') * 0x100 + (c + c') * 0x10000 + (d + d') * 0x1000000;
      Sum4(a + a', b + b', c + c', d + d');
      Sum4(Plus(a, a'), Plus(b, b'), Plus(c, c'), Plus(d, d'));
    }
  }

  /** The multiplication leaves in each lane the sum of the lanes up to it. */
  lemma SpreadLanes(a: bv32, b: bv32, c: bv32, d: bv32)
    ensures Spread(Sum4(a, b, c, d)) == Sum4(a, Plus(a, b), Plus(Plus(a, b), c), Plus(Plus(Plus(a, b), c), d))
  {
    calc {
      Spread(Sum4(a, b, c, d));
      Spread(a + b * 0x100 + c * 0x10000 + d * 0x1000000);
      (a + b * 0x100 + c * 0x10000 + d * 0x1000000) * 0x01010101;
      a + (a + b) * 0x100 + (a + b + c) * 0x10000 + (a + b + c + d) * 0x1000000;
      Sum4(a, a + b, a + b + c, a + b + c + d);
      { PlusPlus(a, b, c, d); }
      Sum4(a, Plus(a, b), Plus(Plus(a, b), c), Plus(Plus(Plus(a, b), c), d));
    }
  }

  /** Only here do the sizes matter: with lanes that fit in a byte the top one comes out whole. */
  lemma TopLane(a: bv32, b: bv32, c: bv32, d: bv32)
    requires a <= 255 && b <= 255 && c <= 255 && d <= 255
    ensures Top(Sum4(a, b, c, d)) == d
  {
    calc {
      Top(Sum4(a, b, c, d));
      Top(a + b * 0x100 + c * 0x10000 + d * 0x1000000);
      (a + b * 0x100 + c * 0x10000 + d * 0x1000000) >> 24;
      d;
    }
  }

  // ---- From registers to numbers ----

  /** The number a register holds, counted up from zero. */
  function Num(x: bv32): nat
    decreases x
  {
    if x == 0 then 0 else 1 + Num(x - 1)
  }

  lemma NumStep(x: bv32)
    requires x != 0
    ensures Num(x) == 1 + Num(x - 1)
  {
  }

  lemma NumZero()
    ensures Num(0) == 0
  {
  }

  lemma {:induction false} NumAdd(x: bv32, y: bv32)
    requires x <= 216 && y <= 8
    ensures Num(x + y) == Num(x) + Num(y)
    decreases y
  {
    hide Num;
    if y == 0 {
      NumZero();
    } else {
      NumAdd(x, y - 1);
      NumStep(y);
      NumStep(x + y);
    }
  }

  lemma {:induction false} NumIsInt(x: bv32)
    requires x <= 255
    ensures Num(x) == x as int
    decreases x
  {
    if x != 0 {
      NumIsInt(x - 1);
      assert (x - 1) + 1 == x;
    }
  }

  /** The register `x` holds the number `v`, at most 255. */
  predicate Holds(x: bv32, v: nat) { x <= 255 && Num(x) == v }

  lemma HoldsAdd(x: bv32, v: nat, y: bv32, w: nat)
    requires Holds(x, v) && Holds(y, w) && v <= 216 && w <= 8
    ensures Holds(Plus(x, y), v + w)
  {
    NumIsInt(x);
    NumIsInt(y);
    NumAdd(x, y);
  }

  function Sum7(a: bv32, b: bv32, c: bv32, d: bv32, e: bv32, f: bv32, g: bv32): bv32 {
    Plus(Plus(Plus(Plus(Plus(Plus(a, b), c), d), e), f), g)
  }

  lemma PlusAssoc(x: bv32, y: bv32, z: bv32)
    ensures Plus(x, Plus(y, z)) == Plus(Plus(x, y), z)
  {
    calc {
      Plus(x, Plus(y, z));
      Plus(x, y + z);
      x + y + z;
      Plus(x + y, z);
      Plus(Plus(x, y), z);
    }
  }

  /** Adding a sum of seven is adding the seven one after the other. */
  lemma PlusSum7(x: bv32, a: bv32, b: bv32, c: bv32, d: bv32, e: bv32, f: bv32, g: bv32)
    ensures Plus(x, Sum7(a, b, c, d, e, f, g)) == Sum7(Plus(x, a), b, c, d, e, f, g)
  {
    hide Plus;
    PlusAssoc(x, a, b);
    PlusAssoc(x, Plus(a, b), c);
    PlusAssoc(x, Plus(Plus(a, b), c), d);
    PlusAssoc(x, Plus(Plus(Plus(a, b), c), d), e);
    PlusAssoc(x, Plus(Plus(Plus(Plus(a, b), c), d), e), f);
    PlusAssoc(x, Plus(Plus(Plus(Plus(Plus(a, b), c), d), e), f), g);
  }

  /** Seven counts on top of a register. */
  lemma HoldsSeven(x: bv32, v: nat, a: bv32, b: bv32, c: bv32, d: bv32, e: bv32, f: bv32, g: bv32, n: seq<nat>)
    requires |n| == 7 && v <= 168 && (forall i :: 0 <= i < 7 ==> n[i] <= 8)
    requires Holds(x, v) && Holds(a, n[0]) && Holds(b, n[1]) && Holds(c, n[2]) && Holds(d, n[3])
             && Holds(e, n[4]) && Holds(f, n[5]) && Holds(g, n[6])
    ensures Holds(Plus(x, Sum7(a, b, c, d, e, f, g)), v + (n[0] + n[1] + n[2] + n[3] + n[4] + n[5] + n[6]))
  {
    PlusSum7(x, a, b, c, d, e, f, g);
    hide Holds, Plus;
    var r, u := Plus(x, a), v + n[0];
    HoldsAdd(x, v, a, n[0]);
    HoldsAdd(r, u, b, n[1]);
    r, u := Plus(r, b), u + n[1];
    HoldsAdd(r, u, c, n[2]);
    r, u := Plus(r, c), u + n[2];
    HoldsAdd(r, u, d, n[3]);
    r, u := Plus(r, d), u + n[3];
    HoldsAdd(r, u, e, n[4]);
    r, u := Plus(r, e), u + n[4];
    HoldsAdd(r, u, f, n[5]);
    r, u := Plus(r, f), u + n[5];
    HoldsAdd(r, u, g, n[6]);
  }

  /** A bit of the byte, shifted down into a register. */
  function BitReg(p: bv8, k: nat): bv32
    requires k < 8
  {
    if Bit(p, k) then 1 else 0
  }

  lemma BitRegs(p: bv8)
    ensures (p >> 7) as bv32 == BitReg(p, 0)
    ensures ((p >> 6) & 1) as bv32 == BitReg(p, 1)
    ensures ((p >> 5) & 1) as bv32 == BitReg(p, 2)
    ensures ((p >> 4) & 1) as bv32 == BitReg(p, 3)
    ensures ((p >> 3) & 1) as bv32 == BitReg(p, 4)
    ensures ((p >> 2) & 1) as bv32 == BitReg(p, 5)
    ensures ((p >> 1) & 1) as bv32 == BitReg(p, 6)
    ensures (p & 1) as bv32 == BitReg(p, 7)
  {
  }

  lemma OnesAdds(p: bv8)
    ensures (Ones(p) as bv32)
            == Plus((p >> 7) as bv32, Sum7(((p >> 6) & 1) as bv32, ((p >> 5) & 1) as bv32, ((p >> 4) & 1) as bv32,
                                           ((p >> 3) & 1) as bv32, ((p >> 2) & 1) as bv32, ((p >> 1) & 1) as bv32,
                                           (p & 1) as bv32))
  {
  }

  lemma OnesIsBits(p: bv8)
    ensures (Ones(p) as bv32)
            == Plus(BitReg(p, 0), Sum7(BitReg(p, 1), BitReg(p, 2), BitReg(p, 3), BitReg(p, 4), BitReg(p, 5),
                                       BitReg(p, 6), BitReg(p, 7)))
  {
    hide Ones, BitReg, Sum7, Plus;
    OnesAdds(p);
    BitRegs(p);
  }

  lemma HoldsBit(p: bv8, k: nat)
    requires k < 8
    ensures Holds(BitReg(p, k), One(Bit(p, k)))
  {
    NumZero();
    NumStep(1);
  }

  lemma OnesIsPopByte(p: bv8)
    ensures Holds(Ones(p) as bv32, PopByte(p))
  {
    OnesIsBits(p);
    hide Ones, Holds, BitReg, Bit, Sum7, Plus;
    forall k: nat | k < 8 ensures Holds(BitReg(p, k), One(Bit(p, k))) { HoldsBit(p, k); }
    HoldsSeven(BitReg(p, 0), One(Bit(p, 0)), BitReg(p, 1), BitReg(p, 2), BitReg(p, 3), BitReg(p, 4), BitReg(p, 5),
               BitReg(p, 6), BitReg(p, 7),
               [One(Bit(p, 1)), One(Bit(p, 2)), One(Bit(p, 3)), One(Bit(p, 4)), One(Bit(p, 5)), One(Bit(p, 6)),
                One(Bit(p, 7))]);
  }

  // ---- A batch ----

  /** A byte's count in a register. */
  function Reg(p: bv8): bv32 { Widen(Ones(p)) }

  function RegAt(s: seq<bv8>, i: nat): bv32
    requires i < |s|
  {
    Reg(s[i])
  }

  lemma RegHolds(s: seq<bv8>, i: nat)
    requires i < |s|
    ensures Holds(RegAt(s, i), PopAt(s, i)) && PopAt(s, i) <= 8
  {
    hide Holds, Ones;
    OnesIsPopByte(s[i]);
  }

  lemma PopcountFour(s: seq<bv8>, k: nat)
    requires k + 4 <= |s|
    ensures PopPrefix(s, k + 4) == PopPrefix(s, k) + (PopAt(s, k) + PopAt(s, k + 1) + PopAt(s, k + 2) + PopAt(s, k + 3))
  {
    hide PopAt, PopPrefix;
    PopPrefixNext(s, k);
    PopPrefixNext(s, k + 1);
    PopPrefixNext(s, k + 2);
    PopPrefixNext(s, k + 3);
  }

  /** The counts of bytes k, k+4, ..., k+24, as registers and as numbers. */
  function LaneSum(s: seq<bv8>, k: nat): bv32
    requires |s| == 28 && k < 4
  {
    Sum7(RegAt(s, k), RegAt(s, k + 4), RegAt(s, k + 8), RegAt(s, k + 12),
         RegAt(s, k + 16), RegAt(s, k + 20), RegAt(s, k + 24))
  }

  function LaneCount(s: seq<bv8>, k: nat): nat
    requires |s| == 28 && k < 4
  {
    PopAt(s, k) + PopAt(s, k + 4) + PopAt(s, k + 8) + PopAt(s, k + 12)
    + PopAt(s, k + 16) + PopAt(s, k + 20) + PopAt(s, k + 24)
  }

  lemma HoldsLane(x: bv32, v: nat, s: seq<bv8>, k: nat)
    requires |s| == 28 && k < 4 && Holds(x, v) && v <= 168
    ensures Holds(Plus(x, LaneSum(s, k)), v + LaneCount(s, k)) && LaneCount(s, k) <= 56
  {
    hide Holds, RegAt, Sum7, Plus, PopAt;
    forall i | 0 <= i < 28 ensures Holds(RegAt(s, i), PopAt(s, i)) && PopAt(s, i) <= 8 {
      RegHolds(s, i);
    }
    HoldsSeven(x, v, RegAt(s, k), RegAt(s, k + 4), RegAt(s, k + 8), RegAt(s, k + 12),
               RegAt(s, k + 16), RegAt(s, k + 20), RegAt(s, k + 24),
               [PopAt(s, k), PopAt(s, k + 4), PopAt(s, k + 8), PopAt(s, k + 12),
                PopAt(s, k + 16), PopAt(s, k + 20), PopAt(s, k + 24)]);
  }

  lemma Popcount28(s: seq<bv8>)
    requires |s| == 28
    ensures Popcount(s) == LaneCount(s, 0) + LaneCount(s, 1) + LaneCount(s, 2) + LaneCount(s, 3)
  {
    hide PopAt, Popcount, PopPrefix;
    PopPrefixEnds(s);
    PopcountFour(s, 0);
    PopcountFour(s, 4);
    PopcountFour(s, 8);
    PopcountFour(s, 12);
    PopcountFour(s, 16);
    PopcountFour(s, 20);
    PopcountFour(s, 24);
  }

  lemma RegsAreSum(p: bv8, q: bv8, r: bv8, t: bv8)
    ensures Join(Ones(p), Ones(q), Ones(r), Ones(t)) == Sum4(Reg(p), Reg(q), Reg(r), Reg(t))
  {
    hide Join, Ones, Sum4, Widen;
    JoinIsSum(Ones(p), Ones(q), Ones(r), Ones(t));
  }

  lemma CountsOfBytes(p: bv8, q: bv8, r: bv8, t: bv8)
    ensures Counts(Join(p, q, r, t)) == Sum4(Reg(p), Reg(q), Reg(r), Reg(t))
  {
    hide Join, Ones, Sum4, Counts, Reg;
    ByteCountsLanes(p, q, r, t);
    RegsAreSum(p, q, r, t);
  }

  lemma CountsOfWord(s: seq<bv8>, k: nat)
    requires k + 4 <= |s|
    ensures Counts(Word(s, k)) == Sum4(RegAt(s, k), RegAt(s, k + 1), RegAt(s, k + 2), RegAt(s, k + 3))
  {
    hide Counts, Join, Sum4, Reg;
    CountsOfBytes(s[k], s[k + 1], s[k + 2], s[k + 3]);
  }

  /** The seven words added up: lane by lane. */
  lemma AddWords(l: seq<bv32>)
    requires |l| == 28
    ensures Sum7(Sum4(l[0], l[1], l[2], l[3]), Sum4(l[4], l[5], l[6], l[7]), Sum4(l[8], l[9], l[10], l[11]),
                 Sum4(l[12], l[13], l[14], l[15]), Sum4(l[16], l[17], l[18], l[19]), Sum4(l[20], l[21], l[22], l[23]),
                 Sum4(l[24], l[25], l[26], l[27]))
            == Sum4(Sum7(l[0], l[4], l[8], l[12], l[16], l[20], l[24]),
                    Sum7(l[1], l[5], l[9], l[13], l[17], l[21], l[25]),
                    Sum7(l[2], l[6], l[10], l[14], l[18], l[22], l[26]),
                    Sum7(l[3], l[7], l[11], l[15], l[19], l[23], l[27]))
  {
    hide Plus, Sum4;
    var a, b, c, d := l[0], l[1], l[2], l[3];
    PlusLanes(a, b, c, d, l[4], l[5], l[6], l[7]);
    a, b, c, d := Plus(a, l[4]), Plus(b, l[5]), Plus(c, l[6]), Plus(d, l[7]);
    PlusLanes(a, b, c, d, l[8], l[9], l[10], l[11]);
    a, b, c, d := Plus(a, l[8]), Plus(b, l[9]), Plus(c, l[10]), Plus(d, l[11]);
    PlusLanes(a, b, c, d, l[12], l[13], l[14], l[15]);
    a, b, c, d := Plus(a, l[12]), Plus(b, l[13]), Plus(c, l[14]), Plus(d, l[15]);
    PlusLanes(a, b, c, d, l[16], l[17], l[18], l[19]);
    a, b, c, d := Plus(a, l[16]), Plus(b, l[17]), Plus(c, l[18]), Plus(d, l[19]);
    PlusLanes(a, b, c, d, l[20], l[21], l[22], l[23]);
    a, b, c, d := Plus(a, l[20]), Plus(b, l[21]), Plus(c, l[22]), Plus(d, l[23]);
    PlusLanes(a, b, c, d, l[24], l[25], l[26], l[27]);
  }

  function BatchOf(s: seq<bv8>): bv32
    requires |s| == 28
  {
    Batch(Word(s, 0), Word(s, 4), Word(s, 8), Word(s, 12), Word(s, 16), Word(s, 20), Word(s, 24))
  }

  lemma BatchIsLanes(s: seq<bv8>)
    requires |s| == 28
    ensures BatchOf(s) == Top(Spread(Sum4(LaneSum(s, 0), LaneSum(s, 1), LaneSum(s, 2), LaneSum(s, 3))))
  {
    hide Counts, LaneSum, Sum4, Top, Spread, Word, Plus;
    WordsAreLanes(s);
  }

  lemma WordsAreLanes(s: seq<bv8>)
    requires |s| == 28
    ensures Sum7(Counts(Word(s, 0)), Counts(Word(s, 4)), Counts(Word(s, 8)), Counts(Word(s, 12)),
                 Counts(Word(s, 16)), Counts(Word(s, 20)), Counts(Word(s, 24)))
            == Sum4(LaneSum(s, 0), LaneSum(s, 1), LaneSum(s, 2), LaneSum(s, 3))
  {
    hide Counts, RegAt, Sum4, Word, Sum7;
    CountsOfWord(s, 0);
    CountsOfWord(s, 4);
    CountsOfWord(s, 8);
    CountsOfWord(s, 12);
    CountsOfWord(s, 16);
    CountsOfWord(s, 20);
    CountsOfWord(s, 24);
    AddWords(seq(28, i requires 0 <= i < 28 => RegAt(s, i)));
  }

  lemma HoldsZero(x: bv32)
    ensures Holds(0, 0) && Plus(0, x) == x
  {
  }

  /** Counting 28 bytes at once gives what counting them one by one gives. */
  lemma BatchCounts(s: seq<bv8>)
    requires |s| == 28
    ensures BatchOf(s) as int == Popcount(s)
  {
    hide LaneSum, LaneCount, Plus, Sum4, Top, Spread, BatchOf, Popcount, Holds;
    var a, b, c, d := LaneSum(s, 0), LaneSum(s, 1), LaneSum(s, 2), LaneSum(s, 3);
    var m, n, o, p := LaneCount(s, 0), LaneCount(s, 1), LaneCount(s, 2), LaneCount(s, 3);
    HoldsZero(a);
    HoldsLane(0, 0, s, 0);
    HoldsLane(a, m, s, 1);
    HoldsLane(Plus(a, b), m + n, s, 2);
    HoldsLane(Plus(Plus(a, b), c), m + n + o, s, 3);
    BatchIsLanes(s);
    SpreadLanes(a, b, c, d);
    TopHolds(a, m, Plus(a, b), m + n, Plus(Plus(a, b), c), m + n + o, Plus(Plus(Plus(a, b), c), d), m + n + o + p);
    Popcount28(s);
  }

  lemma TopHolds(a: bv32, m: nat, b: bv32, n: nat, c: bv32, o: nat, d: bv32, p: nat)
    requires Holds(a, m) && Holds(b, n) && Holds(c, o) && Holds(d, p)
    ensures Top(Sum4(a, b, c, d)) as int == p
  {
    hide Num, Top, Sum4;
    TopLane(a, b, c, d);
    NumIsInt(d);
  }

  /** The bytes up to the first address that is a multiple of four. */
  method CountHead(s: seq<bv8>, addr: nat) returns (bits: nat, i: nat)
    ensures i <= |s| && bits == PopPrefix(s, i)
  {
    bits, i := 0, 0;
    hide PopAt, PopPrefix;
    PopPrefixEnds(s);
    while (addr + i) % 4 != 0 && i < |s|
      invariant i <= |s| && bits == PopPrefix(s, i)
      decreases |s| - i
    {
      PopPrefixNext(s, i);
      bits := bits + PopAt(s, i);
      i := i + 1;
    }
  }

  /** redisPopcount of the bytes `s`, which start at address `addr`. */
  method RedisPopcount(s: seq<bv8>, addr: nat) returns (bits: nat)
    ensures bits == Popcount(s)
  {
    hide PopAt, PopPrefix, Popcount, BatchOf;
    PopPrefixEnds(s);
    var i;
    bits, i := CountHead(s, addr);
    while |s| - i >= 28
      invariant i <= |s| && bits == PopPrefix(s, i)
    {
      BatchCounts(s[i..i + 28]);
      PopPrefixStep(s, i, 28);
      bits := bits + BatchOf(s[i..i + 28]) as int;
      i := i + 28;
    }
    while i < |s|
      invariant i <= |s| && bits == PopPrefix(s, i)
    {
      PopPrefixNext(s, i);
      bits := bits + PopAt(s, i);
      i := i + 1;
    }
  }
}
