/** The computation of BITOP (bitops.c:591-765): a fast path of four 64-bit words at a time as
    long as every source has data, then byte by byte with short sources extended by zeros. */
module Bitop {

  import opened Bits

  datatype Op = And | Or | Xor | Not

  /** A source key: absent, a string, or another type. */
  datatype Source = Missing | Str(bytes: seq<bv8>) | WrongType

  /** An empty value means that the target key is deleted. */
  datatype Reply = NotNeedsOneKey | WrongTypeError | Value(bytes: seq<bv8>)

  function Apply(op: Op, x: bv8, y: bv8): bv8 {
    match op
    case And => x & y
    case Or => x | y
    case Xor => x ^ y
    case Not => x
  }

  // ---- What BITOP means ----

  function ByteAt(s: seq<bv8>, j: nat): bv8 { if j < |s| then s[j] else 0 }

  /** The operator folded over byte `j` of the first `n` sources, each extended with zeros. */
  function Fold(op: Op, srcs: seq<seq<bv8>>, j: nat, n: nat): bv8
    requires 1 <= n <= |srcs|
  {
    if n == 1 then (if op == Not then InvertByte(ByteAt(srcs[0], j)) else ByteAt(srcs[0], j))
    else Apply(op, Fold(op, srcs, j, n - 1), ByteAt(srcs[n - 1], j))
  }

  function MaxLen(srcs: seq<seq<bv8>>): nat {
    if srcs == [] then 0 else if |srcs[0]| > MaxLen(srcs[1..]) then |srcs[0]| else MaxLen(srcs[1..])
  }

  function Meaning(op: Op, srcs: seq<seq<bv8>>): seq<bv8>
    requires srcs != []
  {
    seq(MaxLen(srcs), j requires 0 <= j => Fold(op, srcs, j, |srcs|))
  }

  // ---- The meaning bit by bit ----

  /** Masking with one bit turns the operators on bytes into connectives. */
  lemma MaskOps(x: bv8, y: bv8, m: bv8)
    requires m == 0x80 || m == 0x40 || m == 0x20 || m == 0x10 || m == 8 || m == 4 || m == 2 || m == 1
    ensures (x & y) & m != 0 <==> x & m != 0 && y & m != 0
    ensures (x | y) & m != 0 <==> x & m != 0 || y & m != 0
    ensures (x ^ y) & m != 0 <==> (x & m != 0) != (y & m != 0)
    ensures !x & m != 0 <==> x & m == 0
  {
  }

  lemma OneBit(k: nat)
    requires k < 8
    ensures var m := Mask(k);
            m == 0x80 || m == 0x40 || m == 0x20 || m == 0x10 || m == 8 || m == 4 || m == 2 || m == 1
  {
  }

  lemma AndBit(x: bv8, y: bv8, k: nat)
    requires k < 8
    ensures Bit(x & y, k) <==> Bit(x, k) && Bit(y, k)
  {
    hide Mask;
    OneBit(k);
    MaskOps(x, y, Mask(k));
  }

  lemma OrBit(x: bv8, y: bv8, k: nat)
    requires k < 8
    ensures Bit(x | y, k) <==> Bit(x, k) || Bit(y, k)
  {
    hide Mask;
    OneBit(k);
    MaskOps(x, y, Mask(k));
  }

  lemma XorBit(x: bv8, y: bv8, k: nat)
    requires k < 8
    ensures Bit(x ^ y, k) <==> Bit(x, k) != Bit(y, k)
  {
    hide Mask;
    OneBit(k);
    MaskOps(x, y, Mask(k));
  }

  lemma NotBit(x: bv8, k: nat)
    requires k < 8
    ensures Bit(!x, k) <==> !Bit(x, k)
  {
    hide Mask;
    OneBit(k);
    MaskOps(x, 0, Mask(k));
  }

  lemma ByteOps(x: bv8, y: bv8, k: nat)
    requires k < 8
    ensures Bit(Apply(And, x, y), k) <==> Bit(x, k) && Bit(y, k)
    ensures Bit(Apply(Or, x, y), k) <==> Bit(x, k) || Bit(y, k)
    ensures Bit(Apply(Xor, x, y), k) <==> Bit(x, k) != Bit(y, k)
    ensures Bit(InvertByte(x), k) <==> !Bit(x, k)
  {
    hide Bit;
    AndBit(x, y, k);
    OrBit(x, y, k);
    XorBit(x, y, k);
    NotBit(x, k);
  }

  lemma NoBit(k: nat)
    requires k < 8
    ensures !Bit(0, k)
  {
  }

  /** The sources among the first `n` in which bit `i` is set. */
  function Setters(srcs: seq<seq<bv8>>, i: nat, n: nat): set<nat>
    requires n <= |srcs|
  {
    set k: nat | k < n && PadBit(srcs[k], i)
  }

  lemma SettersStep(srcs: seq<seq<bv8>>, i: nat, n: nat)
    requires n < |srcs|
    ensures Setters(srcs, i, n + 1) == Setters(srcs, i, n) + if PadBit(srcs[n], i) then {n} else {}
    ensures |Setters(srcs, i, n + 1)| == |Setters(srcs, i, n)| + if PadBit(srcs[n], i) then 1 else 0
  {
    hide PadBit;
    assert Setters(srcs, i, n + 1) == Setters(srcs, i, n) + if PadBit(srcs[n], i) then {n} else {};
  }

  lemma SomeStep(srcs: seq<seq<bv8>>, i: nat, n: nat)
    requires n < |srcs|
    ensures (exists k :: 0 <= k < n + 1 && PadBit(srcs[k], i)) <==>
              (exists k :: 0 <= k < n && PadBit(srcs[k], i)) || PadBit(srcs[n], i)
  {
    hide PadBit;
  }

  lemma ByteBit(s: seq<bv8>, i: nat)
    ensures Bit(ByteAt(s, i / 8), i % 8) == PadBit(s, i)
  {
    hide Bit;
    NoBit(i % 8);
  }

  /** Folding up to source `n` gives each bit the connective of the bits of those sources. */
  lemma {:induction false} FoldBits(op: Op, srcs: seq<seq<bv8>>, i: nat, n: nat)
    requires 1 <= n <= |srcs| && op != Not
    ensures var b := Bit(Fold(op, srcs, i / 8, n), i % 8);
            && (op == And ==> (b <==> forall k :: 0 <= k < n ==> PadBit(srcs[k], i)))
            && (op == Or ==> (b <==> exists k :: 0 <= k < n && PadBit(srcs[k], i)))
            && (op == Xor ==> (b <==> |Setters(srcs, i, n)| % 2 == 1))
  {
    hide Bit, Apply, PadBit, ByteAt, Setters;
    ByteBit(srcs[n - 1], i);
    SettersStep(srcs, i, n - 1);
    SomeStep(srcs, i, n - 1);
    if n == 1 {
      NoSetters(srcs, i);
    } else {
      FoldBits(op, srcs, i, n - 1);
      ByteOps(Fold(op, srcs, i / 8, n - 1), ByteAt(srcs[n - 1], i / 8), i % 8);
    }
  }

  lemma NoSetters(srcs: seq<seq<bv8>>, i: nat)
    ensures Setters(srcs, i, 0) == {}
  {
  }

  /** AND sets the bits set in all sources, OR those set in some, XOR those set in an odd number of
      them, and NOT those clear in its one source. */
  lemma MeaningBits(op: Op, srcs: seq<seq<bv8>>, i: nat)
    requires srcs != [] && (op == Not ==> |srcs| == 1) && i < 8 * |Meaning(op, srcs)|
    ensures op == And ==> (PadBit(Meaning(op, srcs), i) <==> forall k :: 0 <= k < |srcs| ==> PadBit(srcs[k], i))
    ensures op == Or ==> (PadBit(Meaning(op, srcs), i) <==> exists k :: 0 <= k < |srcs| && PadBit(srcs[k], i))
    ensures op == Xor ==>
              (PadBit(Meaning(op, srcs), i) <==> |set k: nat | k < |srcs| && PadBit(srcs[k], i)| % 2 == 1)
    ensures op == Not ==> (PadBit(Meaning(op, srcs), i) <==> !PadBit(srcs[0], i))
  {
    hide Bit, Apply;
    if op == Not {
      ByteOps(ByteAt(srcs[0], i / 8), 0, i % 8);
      NoBit(i % 8);
    } else {
      FoldBits(op, srcs, i, |srcs|);
    }
  }

  /** The result is as long as the longest source. */
  lemma {:induction false} MaxLenMeans(srcs: seq<seq<bv8>>)
    requires srcs != []
    ensures forall k :: 0 <= k < |srcs| ==> |srcs[k]| <= MaxLen(srcs)
    ensures exists k :: 0 <= k < |srcs| && |srcs[k]| == MaxLen(srcs)
  {
    if |srcs| == 1 {
      assert |srcs[0]| == MaxLen(srcs);
    } else {
      MaxLenMeans(srcs[1..]);
      assert forall k :: 1 <= k < |srcs| ==> srcs[k] == srcs[1..][k - 1];
      if |srcs[0]| > MaxLen(srcs[1..]) {
        assert |srcs[0]| == MaxLen(srcs);
      } else {
        var k :| 0 <= k < |srcs[1..]| && |srcs[1..][k]| == MaxLen(srcs[1..]);
        assert |srcs[k + 1]| == MaxLen(srcs);
      }
    }
  }

  function BytesOf(s: Source): seq<bv8> { if s.Str? then s.bytes else [] }

  // ---- Words ----

  /** The unsigned long made of eight consecutive bytes. */
  function Join8(a: bv8, b: bv8, c: bv8, d: bv8, e: bv8, f: bv8, g: bv8, h: bv8): bv64 {
    (a as bv64) | ((b as bv64) << 8) | ((c as bv64) << 16) | ((d as bv64) << 24)
    | ((e as bv64) << 32) | ((f as bv64) << 40) | ((g as bv64) << 48) | ((h as bv64) << 56)
  }

  function WordOp(op: Op, x: bv64, y: bv64): bv64 {
    match op
    case And => x & y
    case Or => x | y
    case Xor => x ^ y
    case Not => x
  }

  function ByteOfWord(w: bv64, k: nat): bv8
    requires k < 8
  {
    if k == 0 then (w & 0xff) as bv8
    else if k == 1 then ((w >> 8) & 0xff) as bv8
    else if k == 2 then ((w >> 16) & 0xff) as bv8
    else if k == 3 then ((w >> 24) & 0xff) as bv8
    else if k == 4 then ((w >> 32) & 0xff) as bv8
    else if k == 5 then ((w >> 40) & 0xff) as bv8
    else if k == 6 then ((w >> 48) & 0xff) as bv8
    else ((w >> 56) & 0xff) as bv8
  }

  lemma SplitJoined(a: bv8, b: bv8, c: bv8, d: bv8, e: bv8, f: bv8, g: bv8, h: bv8)
    ensures var w := Join8(a, b, c, d, e, f, g, h);
            && ByteOfWord(w, 0) == a && ByteOfWord(w, 1) == b && ByteOfWord(w, 2) == c && ByteOfWord(w, 3) == d
            && ByteOfWord(w, 4) == e && ByteOfWord(w, 5) == f && ByteOfWord(w, 6) == g && ByteOfWord(w, 7) == h
  {
  }

  lemma JoinAnd(a: bv8, b: bv8, c: bv8, d: bv8, e: bv8, f: bv8, g: bv8, h: bv8,
                a': bv8, b': bv8, c': bv8, d': bv8, e': bv8, f': bv8, g': bv8, h': bv8)
    ensures WordOp(And, Join8(a, b, c, d, e, f, g, h), Join8(a', b', c', d', e', f', g', h'))
            == Join8(Apply(And, a, a'), Apply(And, b, b'), Apply(And, c, c'), Apply(And, d, d'),
                     Apply(And, e, e'), Apply(And, f, f'), Apply(And, g, g'), Apply(And, h, h'))
  {
  }

  lemma JoinOr(a: bv8, b: bv8, c: bv8, d: bv8, e: bv8, f: bv8, g: bv8, h: bv8,
               a': bv8, b': bv8, c': bv8, d': bv8, e': bv8, f': bv8, g': bv8, h': bv8)
    ensures WordOp(Or, Join8(a, b, c, d, e, f, g, h), Join8(a', b', c', d', e', f', g', h'))
            == Join8(Apply(Or, a, a'), Apply(Or, b, b'), Apply(Or, c, c'), Apply(Or, d, d'),
                     Apply(Or, e, e'), Apply(Or, f, f'), Apply(Or, g, g'), Apply(Or, h, h'))
  {
  }

  lemma JoinXor(a: bv8, b: bv8, c: bv8, d: bv8, e: bv8, f: bv8, g: bv8, h: bv8,
                a': bv8, b': bv8, c': bv8, d': bv8, e': bv8, f': bv8, g': bv8, h': bv8)
    ensures WordOp(Xor, Join8(a, b, c, d, e, f, g, h), Join8(a', b', c', d', e', f', g', h'))
            == Join8(Apply(Xor, a, a'), Apply(Xor, b, b'), Apply(Xor, c, c'), Apply(Xor, d, d'),
                     Apply(Xor, e, e'), Apply(Xor, f, f'), Apply(Xor, g, g'), Apply(Xor, h, h'))
  {
  }

  function Load(s: seq<bv8>): bv64
    requires |s| == 8
  {
    Join8(s[0], s[1], s[2], s[3], s[4], s[5], s[6], s[7])
  }

  function Bytes8(w: bv64): (s: seq<bv8>)
    ensures |s| == 8
  {
    [ByteOfWord(w, 0), ByteOfWord(w, 1), ByteOfWord(w, 2), ByteOfWord(w, 3),
     ByteOfWord(w, 4), ByteOfWord(w, 5), ByteOfWord(w, 6), ByteOfWord(w, 7)]
  }

  lemma JoinOp(op: Op, a: bv8, b: bv8, c: bv8, d: bv8, e: bv8, f: bv8, g: bv8, h: bv8,
               a': bv8, b': bv8, c': bv8, d': bv8, e': bv8, f': bv8, g': bv8, h': bv8)
    ensures WordOp(op, Join8(a, b, c, d, e, f, g, h), Join8(a', b', c', d', e', f', g', h'))
            == Join8(Apply(op, a, a'), Apply(op, b, b'), Apply(op, c, c'), Apply(op, d, d'),
                     Apply(op, e, e'), Apply(op, f, f'), Apply(op, g, g'), Apply(op, h, h'))
  {
    hide Join8, WordOp, Apply;
    match op
    case And => JoinAnd(a, b, c, d, e, f, g, h, a', b', c', d', e', f', g', h');
    case Or => JoinOr(a, b, c, d, e, f, g, h, a', b', c', d', e', f', g', h');
    case Xor => JoinXor(a, b, c, d, e, f, g, h, a', b', c', d', e', f', g', h');
    case Not => JoinSame(a, b, c, d, e, f, g, h, a', b', c', d', e', f', g', h');
  }

  lemma JoinSame(a: bv8, b: bv8, c: bv8, d: bv8, e: bv8, f: bv8, g: bv8, h: bv8,
                 a': bv8, b': bv8, c': bv8, d': bv8, e': bv8, f': bv8, g': bv8, h': bv8)
    ensures WordOp(Not, Join8(a, b, c, d, e, f, g, h), Join8(a', b', c', d', e', f', g', h'))
            == Join8(Apply(Not, a, a'), Apply(Not, b, b'), Apply(Not, c, c'), Apply(Not, d, d'),
                     Apply(Not, e, e'), Apply(Not, f, f'), Apply(Not, g, g'), Apply(Not, h, h'))
  {
    hide Join8;
  }

  function Invert(w: bv64): bv64 { !w }
  function InvertByte(b: bv8): bv8 { !b }

  lemma JoinNot(a: bv8, b: bv8, c: bv8, d: bv8, e: bv8, f: bv8, g: bv8, h: bv8)
    ensures !Join8(a, b, c, d, e, f, g, h) == Join8(!a, !b, !c, !d, !e, !f, !g, !h)
  {
  }

  lemma JoinInvert(a: bv8, b: bv8, c: bv8, d: bv8, e: bv8, f: bv8, g: bv8, h: bv8)
    ensures Invert(Join8(a, b, c, d, e, f, g, h))
            == Join8(InvertByte(a), InvertByte(b), InvertByte(c), InvertByte(d),
                     InvertByte(e), InvertByte(f), InvertByte(g), InvertByte(h))
  {
    hide Join8;
    JoinNot(a, b, c, d, e, f, g, h);
  }

  /** An operation on a word is the operation on each of its bytes. */
  lemma WordOpBytes(op: Op, x: seq<bv8>, y: seq<bv8>)
    requires |x| == 8 && |y| == 8
    ensures var r := Bytes8(WordOp(op, Load(x), Load(y)));
            forall k :: 0 <= k < 8 ==> r[k] == Apply(op, x[k], y[k])
  {
    hide Join8, ByteOfWord, WordOp, Apply;
    JoinOp(op, x[0], x[1], x[2], x[3], x[4], x[5], x[6], x[7], y[0], y[1], y[2], y[3], y[4], y[5], y[6], y[7]);
    SplitJoined(Apply(op, x[0], y[0]), Apply(op, x[1], y[1]), Apply(op, x[2], y[2]), Apply(op, x[3], y[3]),
                Apply(op, x[4], y[4]), Apply(op, x[5], y[5]), Apply(op, x[6], y[6]), Apply(op, x[7], y[7]));
  }

  lemma WordInvertBytes(x: seq<bv8>)
    requires |x| == 8
    ensures var r := Bytes8(Invert(Load(x))); forall k :: 0 <= k < 8 ==> r[k] == InvertByte(x[k])
  {
    hide Join8, ByteOfWord, Invert, InvertByte;
    JoinInvert(x[0], x[1], x[2], x[3], x[4], x[5], x[6], x[7]);
    SplitJoined(InvertByte(x[0]), InvertByte(x[1]), InvertByte(x[2]), InvertByte(x[3]),
                InvertByte(x[4]), InvertByte(x[5]), InvertByte(x[6]), InvertByte(x[7]));
  }

  // ---- The computation ----

  /** One word of the result combined with one word of a source, in place. */
  method CombineWord(op: Op, res: array<bv8>, src: seq<bv8>, off: nat)
    requires off + 8 <= res.Length && off + 8 <= |src|
    modifies res
    ensures forall b :: 0 <= b < res.Length ==>
              res[b] == if off <= b < off + 8 then Apply(op, old(res[b]), src[b]) else old(res[b])
  {
    ghost var x, y := res[off..off + 8], src[off..off + 8];
    var w := WordOp(op, Load(res[off..off + 8]), Load(src[off..off + 8]));
    WordOpBytes(op, x, y);
    StoreWord(res, off, w);
    hide Apply, Bytes8;
    forall b | off <= b < off + 8 ensures res[b] == Apply(op, old(res[b]), src[b]) {
      assert res[b] == Bytes8(w)[b - off] == Apply(op, x[b - off], y[b - off]);
    }
  }

  method InvertWord(res: array<bv8>, off: nat)
    requires off + 8 <= res.Length
    modifies res
    ensures forall b :: 0 <= b < res.Length ==>
              res[b] == if off <= b < off + 8 then InvertByte(old(res[b])) else old(res[b])
  {
    ghost var x := res[off..off + 8];
    var w := Invert(Load(res[off..off + 8]));
    WordInvertBytes(x);
    StoreWord(res, off, w);
    hide InvertByte, Bytes8;
    forall b | off <= b < off + 8 ensures res[b] == InvertByte(old(res[b])) {
      assert res[b] == Bytes8(w)[b - off] == InvertByte(x[b - off]);
    }
  }

  method StoreWord(res: array<bv8>, off: nat, w: bv64)
    requires off + 8 <= res.Length
    modifies res
    ensures forall b :: 0 <= b < res.Length ==>
              res[b] == if off <= b < off + 8 then Bytes8(w)[b - off] else old(res[b])
  {
    var bytes := Bytes8(w);
    hide Bytes8;
    for k := 0 to 8
      invariant forall b :: 0 <= b < res.Length ==>
                  res[b] == if off <= b < off + k then bytes[b - off] else old(res[b])
    {
      res[off + k] := bytes[k];
    }
  }

  /** Four words of the result, combined in place with four of one source. */
  method CombineFour(op: Op, res: array<bv8>, src: seq<bv8>, off: nat)
    requires off + 32 <= res.Length && off + 32 <= |src|
    modifies res
    ensures forall b :: 0 <= b < res.Length ==>
              res[b] == if off <= b < off + 32 then Apply(op, old(res[b]), src[b]) else old(res[b])
  {
    hide Apply;
    CombineWord(op, res, src, off);
    CombineWord(op, res, src, off + 8);
    CombineWord(op, res, src, off + 16);
    CombineWord(op, res, src, off + 24);
  }

  method InvertFour(res: array<bv8>, off: nat)
    requires off + 32 <= res.Length
    modifies res
    ensures forall b :: 0 <= b < res.Length ==>
              res[b] == if off <= b < off + 32 then InvertByte(old(res[b])) else old(res[b])
  {
    hide InvertByte;
    InvertWord(res, off);
    InvertWord(res, off + 8);
    InvertWord(res, off + 16);
    InvertWord(res, off + 24);
  }

  /** One 32-byte block of the fast path: it holds the first source and ends as the fold. */
  method FastBlock(op: Op, srcs: seq<seq<bv8>>, res: array<bv8>, j: nat)
    requires srcs != [] && (op == Not ==> |srcs| == 1)
    requires j + 32 <= res.Length && forall i :: 0 <= i < |srcs| ==> j + 32 <= |srcs[i]|
    requires forall b :: j <= b < j + 32 ==> res[b] == srcs[0][b]
    modifies res
    ensures forall b :: 0 <= b < res.Length ==>
              res[b] == if j <= b < j + 32 then Fold(op, srcs, b, |srcs|) else old(res[b])
  {
    hide Apply, InvertByte;
    if op == Not {
      InvertFour(res, j);
    } else {
      for i := 1 to |srcs|
        invariant forall b :: 0 <= b < res.Length ==>
                    res[b] == if j <= b < j + 32 then Fold(op, srcs, b, i) else old(res[b])
      {
        CombineFour(op, res, srcs[i], j);
      }
    }
  }

  /** One byte of the result by the plain loop (bitops.c:733-743). */
  method SlowByte(op: Op, srcs: seq<seq<bv8>>, j: nat) returns (output: bv8)
    requires srcs != [] && (op == Not ==> |srcs| == 1)
    ensures output == Fold(op, srcs, j, |srcs|)
  {
    hide Apply, InvertByte;
    output := ByteAt(srcs[0], j);
    if op == Not { output := InvertByte(output); }
    for i := 1 to |srcs|
      invariant output == Fold(op, srcs, j, i)
    {
      output := Apply(op, output, ByteAt(srcs[i], j));
    }
  }

  /** bitops.c:657-745: `minlen` is no longer than any source. */
  method Compute(op: Op, srcs: seq<seq<bv8>>, minlen: nat, maxlen: nat) returns (res: array<bv8>)
    requires srcs != [] && (op == Not ==> |srcs| == 1) && minlen <= maxlen
    requires forall i :: 0 <= i < |srcs| ==> minlen <= |srcs[i]|
    ensures fresh(res) && res.Length == maxlen
    ensures forall b :: 0 <= b < maxlen ==> res[b] == Fold(op, srcs, b, |srcs|)
  {
    res := new bv8[maxlen](_ => 0);
    var j := 0;
    if minlen >= 32 && |srcs| <= 16 {
      forall b | 0 <= b < minlen { res[b] := srcs[0][b]; }
      var left := minlen;
      while left >= 32
        invariant j + left == minlen
        invariant forall b :: 0 <= b < j ==> res[b] == Fold(op, srcs, b, |srcs|)
        invariant forall b :: j <= b < minlen ==> res[b] == srcs[0][b]
      {
        FastBlock(op, srcs, res, j);
        j := j + 32;
        left := left - 32;
      }
    }
    while j < maxlen
      invariant 0 <= j <= maxlen
      invariant forall b :: 0 <= b < j ==> res[b] == Fold(op, srcs, b, |srcs|)
    {
      res[j] := SlowByte(op, srcs, j);
      j := j + 1;
    }
  }

  lemma {:induction false} MaxLenSnoc(srcs: seq<seq<bv8>>, s: seq<bv8>)
    ensures MaxLen(srcs + [s]) == if |s| > MaxLen(srcs) then |s| else MaxLen(srcs)
  {
    if srcs == [] {
      assert (srcs + [s])[1..] == [];
    } else {
      assert (srcs + [s])[1..] == srcs[1..] + [s];
      MaxLenSnoc(srcs[1..], s);
    }
  }

  /** The lookup loop (bitops.c:627-654). A missing key counts as an empty string. */
  method Lookup(sources: seq<Source>) returns (wrongType: bool, srcs: seq<seq<bv8>>, minlen: nat, maxlen: nat)
    ensures wrongType <==> WrongType in sources
    ensures !wrongType ==>
              && |srcs| == |sources| && (forall i :: 0 <= i < |srcs| ==> srcs[i] == BytesOf(sources[i]))
              && maxlen == MaxLen(srcs) && minlen <= maxlen
              && forall i :: 0 <= i < |srcs| ==> minlen <= |srcs[i]|
  {
    wrongType, srcs, minlen, maxlen := false, [], 0, 0;
    for j := 0 to |sources|
      invariant WrongType !in sources[..j]
      invariant |srcs| == j && forall i :: 0 <= i < j ==> srcs[i] == BytesOf(sources[i])
      invariant maxlen == MaxLen(srcs) && minlen <= maxlen
      invariant forall i :: 0 <= i < j ==> minlen <= |srcs[i]|
    {
      MaxLenSnoc(srcs, BytesOf(sources[j]));
      match sources[j] {
        case Missing =>
          srcs := srcs + [[]];
          minlen := 0;
        case WrongType =>
          wrongType := true;
          return;
        case Str(bytes) =>
          srcs := srcs + [bytes];
          if |bytes| > maxlen { maxlen := |bytes|; }
          if j == 0 || |bytes| < minlen { minlen := |bytes|; }
      }
    }
  }

  lemma MeaningLength(op: Op, srcs: seq<seq<bv8>>)
    requires srcs != []
    ensures |Meaning(op, srcs)| == MaxLen(srcs)
  {
  }

  lemma IsMeaning(op: Op, srcs: seq<seq<bv8>>, res: seq<bv8>)
    requires srcs != [] && |res| == MaxLen(srcs)
    requires forall b :: 0 <= b < |res| ==> res[b] == Fold(op, srcs, b, |srcs|)
    ensures res == Meaning(op, srcs)
  {
  }

  lemma MeaningForall(op: Op, sources: seq<Source>, srcs: seq<seq<bv8>>)
    requires srcs != [] && (op == Not ==> |srcs| == 1)
    requires |srcs| == |sources| && forall k :: 0 <= k < |srcs| ==> srcs[k] == BytesOf(sources[k])
    ensures op == And ==> forall i: nat :: i < 8 * |Meaning(op, srcs)| ==>
              (PadBit(Meaning(op, srcs), i) <==> forall k :: 0 <= k < |sources| ==> PadBit(BytesOf(sources[k]), i))
    ensures op == Or ==> forall i: nat :: i < 8 * |Meaning(op, srcs)| ==>
              (PadBit(Meaning(op, srcs), i) <==> exists k :: 0 <= k < |sources| && PadBit(BytesOf(sources[k]), i))
    ensures op == Xor ==> forall i: nat :: i < 8 * |Meaning(op, srcs)| ==>
              (PadBit(Meaning(op, srcs), i) <==>
               |set k: nat | k < |sources| && PadBit(BytesOf(sources[k]), i)| % 2 == 1)
    ensures op == Not ==> forall i: nat :: i < 8 * |Meaning(op, srcs)| ==>
              (PadBit(Meaning(op, srcs), i) <==> !PadBit(BytesOf(sources[0]), i))
  {
    hide PadBit, Meaning;
    forall i: nat | i < 8 * |Meaning(op, srcs)|
      ensures var r := PadBit(Meaning(op, srcs), i);
              && (op == And ==> (r <==> forall k :: 0 <= k < |sources| ==> PadBit(BytesOf(sources[k]), i)))
              && (op == Or ==> (r <==> exists k :: 0 <= k < |sources| && PadBit(BytesOf(sources[k]), i)))
              && (op == Xor ==> (r <==> |set k: nat | k < |sources| && PadBit(BytesOf(sources[k]), i)| % 2 == 1))
              && (op == Not ==> (r <==> !PadBit(BytesOf(sources[0]), i)))
    {
      MeaningBits(op, srcs, i);
      assert (set k: nat | k < |srcs| && PadBit(srcs[k], i))
          == (set k: nat | k < |sources| && PadBit(BytesOf(sources[k]), i));
    }
  }

  /** bitopCommand: every bit of the result is the connective of the same bit of the sources, each
      extended with zeros to the length of the longest. */
  method BitopCommand(op: Op, sources: seq<Source>) returns (r: Reply)
    requires sources != []
    ensures op == Not && |sources| != 1 ==> r == NotNeedsOneKey
    ensures !(op == Not && |sources| != 1) && WrongType in sources ==> r == WrongTypeError
    ensures !(op == Not && |sources| != 1) && WrongType !in sources ==>
              r == Value(Meaning(op, seq(|sources|, i requires 0 <= i < |sources| => BytesOf(sources[i]))))
    ensures r.Value? ==> (forall k :: 0 <= k < |sources| ==> |BytesOf(sources[k])| <= |r.bytes|)
                         && exists k :: 0 <= k < |sources| && |BytesOf(sources[k])| == |r.bytes|
    ensures r.Value? && op == And ==> forall i: nat :: i < 8 * |r.bytes| ==>
              (PadBit(r.bytes, i) <==> forall k :: 0 <= k < |sources| ==> PadBit(BytesOf(sources[k]), i))
    ensures r.Value? && op == Or ==> forall i: nat :: i < 8 * |r.bytes| ==>
              (PadBit(r.bytes, i) <==> exists k :: 0 <= k < |sources| && PadBit(BytesOf(sources[k]), i))
    ensures r.Value? && op == Xor ==> forall i: nat :: i < 8 * |r.bytes| ==>
              (PadBit(r.bytes, i) <==> |set k: nat | k < |sources| && PadBit(BytesOf(sources[k]), i)| % 2 == 1)
    ensures r.Value? && op == Not ==> forall i: nat :: i < 8 * |r.bytes| ==>
              (PadBit(r.bytes, i) <==> !PadBit(BytesOf(sources[0]), i))
  {
    hide PadBit, Fold, Meaning;
    if op == Not && |sources| != 1 { return NotNeedsOneKey; }
    var wrongType, srcs, minlen, maxlen := Lookup(sources);
    if wrongType { return WrongTypeError; }
    assert srcs == seq(|sources|, i requires 0 <= i < |sources| => BytesOf(sources[i]));
    MaxLenMeans(srcs);
    MeaningLength(op, srcs);
    if maxlen > 0 {
      var res := Compute(op, srcs, minlen, maxlen);
      r := Value(res[..]);
      IsMeaning(op, srcs, res[..]);
    } else {
      r := Value([]);
      IsMeaning(op, srcs, []);
    }
    MeaningForall(op, sources, srcs);
  }
}
