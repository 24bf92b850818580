/** The cluster's index of keys by hash slot (db.c:1365-1444): a radix tree, kept here as the set
    of its byte strings in lexicographic order. */
module SlotIndex {

  type Byte = char
  type Key = seq<Byte>
  type Slots = Key -> nat

  const SLOTS: nat := 16384

  /** Any hash of keys into slots will do. */
  ghost predicate IsHash(slotOf: Slots) { forall k :: slotOf(k) < SLOTS }

  /** The slot, big endian. */
  function Prefix(h: nat): (p: seq<Byte>)
    requires h < SLOTS
    ensures |p| == 2
  {
    [(h / 256) as char, (h % 256) as char]
  }

  function Indexed(slotOf: Slots, k: Key): (e: seq<Byte>)
    requires slotOf(k) < SLOTS
    ensures |e| == |k| + 2
  {
    Prefix(slotOf(k)) + k
  }

  lemma IndexedParts(slotOf: Slots, k: Key)
    requires slotOf(k) < SLOTS
    ensures Indexed(slotOf, k)[2..] == k && Indexed(slotOf, k)[..2] == Prefix(slotOf(k))
  {
  }

  /** The keys of a slot. */
  function SlotKeys(slotOf: Slots, keys: set<Key>, h: nat): set<Key> { set k | k in keys && slotOf(k) == h }

  ghost predicate IndexFor(slotOf: Slots, keys: set<Key>, index: set<seq<Byte>>)
    requires IsHash(slotOf)
  {
    && (forall k :: k in keys ==> Indexed(slotOf, k) in index)
    && (forall e :: e in index ==> |e| >= 2 && e[2..] in keys && e == Indexed(slotOf, e[2..]))
  }

  ghost predicate CountsFor(slotOf: Slots, keys: set<Key>, counts: seq<nat>) {
    |counts| == SLOTS && forall h :: 0 <= h < SLOTS ==> counts[h] == |SlotKeys(slotOf, keys, h)|
  }

  lemma AddIndex(slotOf: Slots, keys: set<Key>, index: set<seq<Byte>>, k: Key)
    requires IsHash(slotOf) && IndexFor(slotOf, keys, index)
    ensures IndexFor(slotOf, keys + {k}, index + {Indexed(slotOf, k)})
  {
    hide Indexed, Prefix;
    IndexedParts(slotOf, k);
  }

  lemma AddKey(slotOf: Slots, keys: set<Key>, index: set<seq<Byte>>, counts: seq<nat>, k: Key)
    requires IsHash(slotOf) && IndexFor(slotOf, keys, index) && CountsFor(slotOf, keys, counts) && k !in keys
    ensures IndexFor(slotOf, keys + {k}, index + {Indexed(slotOf, k)})
    ensures CountsFor(slotOf, keys + {k}, counts[slotOf(k) := counts[slotOf(k)] + 1])
  {
    hide Indexed, IndexFor;
    AddIndex(slotOf, keys, index, k);
    forall h | 0 <= h < SLOTS
      ensures |SlotKeys(slotOf, keys + {k}, h)| == |SlotKeys(slotOf, keys, h)| + (if h == slotOf(k) then 1 else 0)
    {
      var s := SlotKeys(slotOf, keys, h);
      assert SlotKeys(slotOf, keys + {k}, h) == if h == slotOf(k) then s + {k} else s;
    }
  }

  lemma RemoveKey(slotOf: Slots, keys: set<Key>, index: set<seq<Byte>>, counts: seq<nat>, k: Key)
    requires IsHash(slotOf) && IndexFor(slotOf, keys, index) && CountsFor(slotOf, keys, counts) && k in keys
    ensures IndexFor(slotOf, keys - {k}, index - {Indexed(slotOf, k)})
    ensures counts[slotOf(k)] > 0 && CountsFor(slotOf, keys - {k}, counts[slotOf(k) := counts[slotOf(k)] - 1])
  {
    IndexedParts(slotOf, k);
    assert k in SlotKeys(slotOf, keys, slotOf(k));
    forall h | 0 <= h < SLOTS
      ensures |SlotKeys(slotOf, keys - {k}, h)| == |SlotKeys(slotOf, keys, h)| - (if h == slotOf(k) then 1 else 0)
    {
      var s := SlotKeys(slotOf, keys, h);
      assert SlotKeys(slotOf, keys - {k}, h) == if h == slotOf(k) then s - {k} else s;
    }
    forall x | x in keys - {k} ensures Indexed(slotOf, x) in index - {Indexed(slotOf, k)} {
      IndexedParts(slotOf, x);
    }
  }

  lemma NoKeys(slotOf: Slots)
    requires IsHash(slotOf)
    ensures IndexFor(slotOf, {}, {}) && CountsFor(slotOf, {}, seq(SLOTS, _ => 0))
  {
    forall h | 0 <= h < SLOTS ensures SlotKeys(slotOf, {}, h) == {} { }
  }

  // ---- The order of the tree ----

  predicate AtMost(a: seq<Byte>, b: seq<Byte>) {
    a == [] || (b != [] && (a[0] < b[0] || (a[0] == b[0] && AtMost(a[1..], b[1..]))))
  }

  lemma {:induction false} AtMostTotal(a: seq<Byte>, b: seq<Byte>)
    ensures AtMost(a, b) || AtMost(b, a)
  {
    if a != [] && b != [] { AtMostTotal(a[1..], b[1..]); }
  }

  lemma {:induction false} AtMostTransitive(a: seq<Byte>, b: seq<Byte>, c: seq<Byte>)
    requires AtMost(a, b) && AtMost(b, c)
    ensures AtMost(a, c)
  {
    if a != [] && b != [] && c != [] && a[0] == b[0] == c[0] { AtMostTransitive(a[1..], b[1..], c[1..]); }
  }

  /** Between a two-byte prefix and a string that starts with it, everything starts with it. */
  /** The prefix is big endian: the entries of the tree come slot by slot. */
  lemma SlotOrder(slotOf: Slots, a: Key, b: Key)
    requires IsHash(slotOf) && slotOf(a) < slotOf(b)
    ensures AtMost(Indexed(slotOf, a), Indexed(slotOf, b)) && !AtMost(Indexed(slotOf, b), Indexed(slotOf, a))
  {
    var x, y := Indexed(slotOf, a), Indexed(slotOf, b);
    var h, i := slotOf(a), slotOf(b);
    assert x[0] == (h / 256) as char && y[0] == (i / 256) as char;
    if h / 256 == i / 256 {
      assert x[1..][0] == (h % 256) as char && y[1..][0] == (i % 256) as char;
    }
  }

  lemma Sandwich(p: seq<Byte>, e: seq<Byte>, x: seq<Byte>)
    requires |p| == 2 && |x| >= 2 && x[..2] == p && AtMost(p, e) && AtMost(e, x)
    ensures |e| >= 2 && e[..2] == p
  {
    assert x[0] == p[0] && x[1] == p[1];
    assert AtMost(p[1..], e[1..]) && AtMost(e[1..], x[1..]);
  }

  lemma {:induction false} PrefixAtMost(p: seq<Byte>, k: seq<Byte>)
    ensures AtMost(p, p + k)
  {
    if p != [] {
      PrefixAtMost(p[1..], k);
      assert (p + k)[1..] == p[1..] + k;
    }
  }

  /** raxSeek(">=") then raxNext: the least string not below `p`, if any. */
  method Next(tree: set<seq<Byte>>, p: seq<Byte>) returns (found: bool, e: seq<Byte>)
    ensures found <==> exists x :: x in tree && AtMost(p, x)
    ensures found ==> e in tree && AtMost(p, e) && forall x :: x in tree && AtMost(p, x) ==> AtMost(e, x)
  {
    found, e := false, [];
    var rest := tree;
    while rest != {}
      invariant rest <= tree
      invariant !found ==> forall x :: x in tree - rest ==> !AtMost(p, x)
      invariant found ==> e in tree && AtMost(p, e) && forall x :: x in tree - rest && AtMost(p, x) ==> AtMost(e, x)
      decreases |rest|
    {
      var x :| x in rest;
      ghost var before := e;
      if AtMost(p, x) {
        AtMostTotal(x, x);
        if !found {
          found, e := true, x;
        } else {
          AtMostTotal(e, x);
          if !AtMost(e, x) {
            forall y | y in tree - rest && AtMost(p, y) ensures AtMost(x, y) { AtMostTransitive(x, e, y); }
            e := x;
          }
        }
      }
      rest := rest - {x};
    }
  }

  /** While a slot has keys, the least string not below its prefix belongs to it. */
  lemma LeastOfSlot(slotOf: Slots, keys: set<Key>, index: set<seq<Byte>>, h: nat, k: Key, e: seq<Byte>)
    requires IsHash(slotOf) && IndexFor(slotOf, keys, index) && h < SLOTS && k in keys && slotOf(k) == h
    requires e in index && AtMost(Prefix(h), e) && AtMost(e, Indexed(slotOf, k))
    ensures e[2..] in keys && slotOf(e[2..]) == h
  {
    IndexedParts(slotOf, k);
    Sandwich(Prefix(h), e, Indexed(slotOf, k));
    IndexedParts(slotOf, e[2..]);
  }

  lemma SlotEntry(slotOf: Slots, keys: set<Key>, index: set<seq<Byte>>, k: Key)
    requires IsHash(slotOf) && IndexFor(slotOf, keys, index) && k in keys
    ensures Indexed(slotOf, k) in index && AtMost(Prefix(slotOf(k)), Indexed(slotOf, k))
  {
    PrefixAtMost(Prefix(slotOf(k)), k);
  }

  /** getKeysInSlot: distinct keys of the slot, as many as asked for or as there are. */
  method GetKeysInSlot(slotOf: Slots, index: set<seq<Byte>>, h: nat, count: nat, ghost keys: set<Key>)
    returns (found: seq<Key>)
    requires IsHash(slotOf) && IndexFor(slotOf, keys, index) && h < SLOTS
    ensures forall i :: 0 <= i < |found| ==> found[i] in SlotKeys(slotOf, keys, h)
    ensures forall i, j :: 0 <= i < j < |found| ==> found[i] != found[j]
    ensures |found| == if count <= |SlotKeys(slotOf, keys, h)| then count else |SlotKeys(slotOf, keys, h)|
  {
    found := [];
    var rest, left := index, count;
    ghost var seen := {};
    while left > 0
      invariant 0 <= left && left + |found| == count
      invariant forall i :: 0 <= i < |found| ==> found[i] in seen
      invariant forall i, j :: 0 <= i < j < |found| ==> found[i] != found[j]
      invariant seen <= SlotKeys(slotOf, keys, h) && |seen| == |found|
      invariant rest <= index && forall k :: k in keys ==> (Indexed(slotOf, k) in rest <==> k !in seen)
    {
      var more, e := Next(rest, Prefix(h));
      if !more || |e| < 2 || e[..2] != Prefix(h) {
        NoMore(slotOf, keys, index, rest, h, seen, more, e);
        break;
      }
      var k := e[2..];
      IndexedParts(slotOf, k);
      forall x | x in keys ensures Indexed(slotOf, x) in rest - {e} <==> x !in seen + {k} { IndexedParts(slotOf, x); }
      found, rest, seen, left := found + [k], rest - {e}, seen + {k}, left - 1;
    }
    Fewer(seen, SlotKeys(slotOf, keys, h));
  }

  lemma NoMore(slotOf: Slots, keys: set<Key>, index: set<seq<Byte>>, rest: set<seq<Byte>>, h: nat, seen: set<Key>,
               more: bool, e: seq<Byte>)
    requires IsHash(slotOf) && IndexFor(slotOf, keys, index) && h < SLOTS && rest <= index
    requires forall k :: k in keys ==> (Indexed(slotOf, k) in rest <==> k !in seen)
    requires more <==> exists x :: x in rest && AtMost(Prefix(h), x)
    requires more ==> e in rest && AtMost(Prefix(h), e)
    requires more ==> forall x :: x in rest && AtMost(Prefix(h), x) ==> AtMost(e, x)
    requires more ==> |e| < 2 || e[..2] != Prefix(h)
    ensures SlotKeys(slotOf, keys, h) <= seen
  {
    forall k | k in SlotKeys(slotOf, keys, h) ensures k in seen {
      if k !in seen {
        SlotEntry(slotOf, keys, index, k);
        IndexedParts(slotOf, k);
        Sandwich(Prefix(h), e, Indexed(slotOf, k));
      }
    }
  }

  lemma Fewer(a: set<Key>, b: set<Key>)
    requires a <= b
    ensures |a| <= |b| && (b <= a ==> |a| == |b|)
  {
    assert b == a + (b - a);
    if b <= a { assert a == b; }
  }
}
