/** The doubly linked list of adlist.c: heap nodes, a head, a tail and a length. */
module Adlist {
  import opened Common

  class Node<T> {
    const value: T
    var prev: Node?<T>
    var next: Node?<T>

    constructor (value: T)
      ensures this.value == value && prev == null && next == null
    {
      this.value, prev, next := value, null, null;
    }
  }

  ghost function Values<T>(nodes: seq<Node<T>>): (vs: seq<T>)
    ensures |vs| == |nodes| && forall i :: 0 <= i < |vs| ==> vs[i] == nodes[i].value
  {
    if nodes == [] then [] else [nodes[0].value] + Values(nodes[1..])
  }

  lemma ValuesConcat<T>(a: seq<Node<T>>, b: seq<Node<T>>)
    ensures Values(a + b) == Values(a) + Values(b)
  {
  }

  ghost predicate Distinct<T>(nodes: seq<Node<T>>) { forall i, j :: 0 <= i < j < |nodes| ==> nodes[i] != nodes[j] }

  lemma DistinctSplit<T>(a: seq<Node<T>>, b: seq<Node<T>>)
    requires Distinct(a + b)
    ensures Distinct(a) && Distinct(b) && forall n :: n in a ==> n !in b
  {
    forall i, j | 0 <= i < j < |a| ensures a[i] != a[j] { assert (a + b)[i] != (a + b)[j]; }
    forall i, j | 0 <= i < j < |b| ensures b[i] != b[j] { assert (a + b)[|a| + i] != (a + b)[|a| + j]; }
    forall i, j | 0 <= i < |a| && 0 <= j < |b| ensures a[i] != b[j] { assert (a + b)[i] != (a + b)[|a| + j]; }
  }

  lemma DistinctJoin<T>(a: seq<Node<T>>, b: seq<Node<T>>)
    requires Distinct(a) && Distinct(b) && forall n :: n in a ==> n !in b
    ensures Distinct(a + b)
  {
    forall i, j | 0 <= i < j < |a + b| ensures (a + b)[i] != (a + b)[j] {
      if i < |a| <= j { assert a[i] in a && b[j - |a|] in b; }
    }
  }

  ghost function First<T>(nodes: seq<Node<T>>, otherwise: Node?<T>): Node?<T> {
    if nodes == [] then otherwise else nodes[0]
  }
  ghost function Last<T>(nodes: seq<Node<T>>, otherwise: Node?<T>): Node?<T> {
    if nodes == [] then otherwise else nodes[|nodes| - 1]
  }

  /** A stretch of the list: linked both ways inside, with `before` and `after` around it. */
  ghost predicate Stretch<T>(before: Node?<T>, nodes: seq<Node<T>>, after: Node?<T>)
    reads nodes
    decreases |nodes|
  {
    nodes != [] ==>
      && nodes[0].prev == before && nodes[0].next == First(nodes[1..], after)
      && Stretch(nodes[0], nodes[1..], after)
  }

  /** Two stretches that point at each other make one, and the other way round. */
  lemma {:induction false} Splice<T>(before: Node?<T>, a: seq<Node<T>>, b: seq<Node<T>>, after: Node?<T>)
    ensures Stretch(before, a + b, after) <==> Stretch(before, a, First(b, after)) && Stretch(Last(a, before), b, after)
    decreases |a|
  {
    if a == [] {
      assert a + b == b;
    } else {
      assert (a + b)[1..] == a[1..] + b;
      Splice(a[0], a[1..], b, after);
    }
  }

  lemma StretchOne<T>(before: Node?<T>, n: Node<T>, after: Node?<T>)
    ensures Stretch(before, [n], after) <==> n.prev == before && n.next == after
  {
  }

  lemma Neighbours<T>(before: Node?<T>, nodes: seq<Node<T>>, after: Node?<T>, k: nat)
    requires Stretch(before, nodes, after) && k < |nodes|
    ensures nodes[k].prev == Last(nodes[..k], before) && nodes[k].next == First(nodes[k + 1..], after)
  {
    hide Stretch;
    var l, r := nodes[..k], nodes[k + 1..];
    assert nodes == l + ([nodes[k]] + r);
    Splice(before, l, [nodes[k]] + r, after);
    Splice(Last(l, before), [nodes[k]], r, after);
    StretchOne(Last(l, before), nodes[k], First(r, after));
  }

  lemma NoStretch<T>(before: Node?<T>, after: Node?<T>)
    ensures Stretch(before, [], after)
  {
  }

  /** What lies left and right of position `k`. */
  lemma Sides<T>(nodes: seq<Node<T>>, k: nat)
    requires Distinct(nodes) && Stretch(null, nodes, null) && k <= |nodes|
    ensures var l, r := nodes[..k], nodes[k..];
            && Stretch(null, l, First(r, null)) && Stretch(Last(l, null), r, null) && Distinct(l) && Distinct(r)
            && (k > 0 ==> nodes[k - 1] !in r) && (k < |nodes| ==> nodes[k] !in l)
  {
    var l, r := nodes[..k], nodes[k..];
    assert nodes == l + r;
    DistinctSplit(l, r);
    hide Stretch, Distinct;
    Splice(null, l, r, null);
    assert k > 0 ==> nodes[k - 1] in l;
    assert k < |nodes| ==> nodes[k] in r;
  }

  lemma Rejoin<T>(l: seq<Node<T>>, r: seq<Node<T>>)
    requires Stretch(null, l, First(r, null)) && Stretch(Last(l, null), r, null)
    ensures Stretch(null, l + r, null)
  {
    Splice(null, l, r, null);
  }

  lemma DistinctWithout<T>(nodes: seq<Node<T>>, k: nat)
    requires Distinct(nodes) && k < |nodes|
    ensures Distinct(nodes[..k] + nodes[k + 1..])
  {
    var m := nodes[..k] + nodes[k + 1..];
    forall i, j | 0 <= i < j < |m| ensures m[i] != m[j] {
      assert m[i] == nodes[if i < k then i else i + 1] && m[j] == nodes[if j < k then j else j + 1];
    }
  }

  /** The last node of a stretch is made to point to `to`. */
  method SetNext<T>(x: Node<T>, to: Node?<T>, ghost before: Node?<T>, ghost nodes: seq<Node<T>>, ghost after: Node?<T>)
    requires nodes != [] && x == nodes[|nodes| - 1] && Stretch(before, nodes, after) && Distinct(nodes)
    modifies x`next
    ensures Stretch(before, nodes, to)
  {
    hide Stretch, Distinct;
    ghost var front := nodes[..|nodes| - 1];
    assert nodes == front + [x] && x in [x];
    Splice(before, front, [x], after);
    StretchOne(Last(front, before), x, after);
    DistinctSplit(front, [x]);
    x.next := to;
    StretchOne(Last(front, before), x, to);
    Splice(before, front, [x], to);
  }

  /** The first node of a stretch is made to point back to `to`. */
  method SetPrev<T>(x: Node<T>, to: Node?<T>, ghost before: Node?<T>, ghost nodes: seq<Node<T>>, ghost after: Node?<T>)
    requires nodes != [] && x == nodes[0] && Stretch(before, nodes, after) && Distinct(nodes)
    modifies x`prev
    ensures Stretch(to, nodes, after)
  {
    ghost var rest := nodes[1..];
    assert nodes == [x] + rest;
    DistinctSplit([x], rest);
    x.prev := to;
  }

  /** The neighbours of a new node are made to point at it (adlist.c:153-158). */
  method Hook<T>(node: Node<T>, ghost l: seq<Node<T>>, ghost r: seq<Node<T>>)
    requires node.prev == Last(l, null) && node.next == First(r, null) && node !in l && node !in r
    requires Stretch(null, l, First(r, null)) && Stretch(Last(l, null), r, null) && Distinct(l) && Distinct(r)
    requires (l != [] ==> l[|l| - 1] !in r) && (r != [] ==> r[0] !in l)
    modifies set n | n in l, set n | n in r
    ensures Stretch(null, l, node) && Stretch(node, r, null)
    ensures node.prev == old(node.prev) && node.next == old(node.next)
  {
    hide Stretch, Distinct;
    if node.prev != null { SetNext(node.prev, node, null, l, First(r, null)); } else { NoStretch<T>(null, node); }
    if node.next != null { SetPrev(node.next, node, Last(l, null), r, null); } else { NoStretch<T>(node, null); }
  }

  class List<T(==)> {
    var head: Node?<T>
    var tail: Node?<T>
    var len: nat
    ghost var nodes: seq<Node<T>>

    ghost predicate Valid()
      reads this, nodes
    {
      && len == |nodes| && head == First(nodes, null) && tail == Last(nodes, null)
      && Distinct(nodes) && Stretch(null, nodes, null)
    }

    ghost function Contents(): seq<T>
      reads this
    {
      Values(nodes)
    }

    constructor ()
      ensures Valid() && nodes == []
    {
      head, tail, len, nodes := null, null, 0, [];
    }

    /** The node on the left, or the head when there is none, points to `to`. */
    method LinkLeft(prev: Node?<T>, to: Node?<T>, ghost l: seq<Node<T>>, ghost after: Node?<T>)
      requires prev == Last(l, null) && Stretch(null, l, after) && Distinct(l) && head == First(l, after)
      modifies this`head, if l == [] then {} else {l[|l| - 1]}
      ensures Stretch(null, l, to) && head == First(l, to)
    {
      if prev != null { SetNext(prev, to, null, l, after); } else { head := to; }
    }

    /** The node on the right, or the tail when there is none, points back to `to`. */
    method LinkRight(next: Node?<T>, to: Node?<T>, ghost before: Node?<T>, ghost r: seq<Node<T>>)
      requires next == First(r, null) && Stretch(before, r, null) && Distinct(r) && tail == Last(r, before)
      modifies this`tail, if r == [] then {} else {r[0]}
      ensures Stretch(to, r, null) && tail == Last(r, to)
    {
      if next != null { SetPrev(next, to, before, r, null); } else { tail := to; }
    }

    /** listDelNode */
    method DelNode(node: Node<T>, ghost k: nat)
      requires Valid() && k < |nodes| && nodes[k] == node
      modifies this, nodes
      ensures Valid() && nodes == old(nodes)[..k] + old(nodes)[k + 1..]
      ensures Contents() == old(Contents())[..k] + old(Contents())[k + 1..]
    {
      hide Stretch, Distinct, Values;
      ghost var l, r := nodes[..k], nodes[k + 1..];
      Sides(nodes, k);
      Sides(nodes, k + 1);
      Neighbours(null, nodes, null, k);
      LinkLeft(node.prev, node.next, l, node);
      LinkRight(node.next, node.prev, node, r);
      Rejoin(l, r);
      DistinctWithout(nodes, k);
      ValuesWithout(nodes, k);
      len, nodes := len - 1, l + r;
    }

    method AddNodeHead(value: T)
      requires Valid()
      modifies this, nodes
      ensures Valid() && Contents() == [value] + old(Contents())
      ensures nodes != [] && fresh(nodes[0]) && nodes[1..] == old(nodes)
    {
      hide Stretch, Distinct, Values;
      var node := new Node(value);
      if len == 0 {
        head, tail := node, node;
        NoStretch<T>(node, null);
      } else {
        node.next := head;
        SetPrev(head, node, null, nodes, null);
        head := node;
      }
      NoStretch<T>(null, node);
      Insert(node, nodes, 0);
      len, nodes := len + 1, [node] + nodes;
    }

    method AddNodeTail(value: T)
      requires Valid()
      modifies this, nodes
      ensures Valid() && Contents() == old(Contents()) + [value]
      ensures nodes != [] && fresh(nodes[|nodes| - 1]) && nodes[..|nodes| - 1] == old(nodes)
    {
      hide Stretch, Distinct, Values;
      var node := new Node(value);
      if len == 0 {
        head, tail := node, node;
        NoStretch<T>(null, node);
      } else {
        node.prev := tail;
        SetNext(tail, node, null, nodes, null);
        tail := node;
      }
      NoStretch<T>(node, null);
      assert nodes[..|nodes|] == nodes;
      Insert(node, nodes, |nodes|);
      len, nodes := len + 1, nodes + [node];
    }

    /** Where a new node beside node `k` goes. */
    lemma Beside(k: nat, after: bool)
      requires Valid() && k < |nodes|
      ensures var p := if after then k + 1 else k;
              && Last(nodes[..p], null) == (if after then nodes[k] else nodes[k].prev)
              && First(nodes[p..], null) == (if after then nodes[k].next else nodes[k])
              && (after ==> (tail == nodes[k] <==> p == |nodes|)) && (!after ==> (head == nodes[k] <==> p == 0))
    {
      hide Stretch;
      Neighbours(null, nodes, null, k);
    }

    /** listInsertNode, next to node `k` of the list. */
    method InsertNode(oldNode: Node<T>, value: T, after: bool, ghost k: nat)
      requires Valid() && k < |nodes| && nodes[k] == oldNode
      modifies this, nodes
      ensures Valid()
      ensures var p := if after then k + 1 else k;
              && Contents() == old(Contents())[..p] + [value] + old(Contents())[p..]
              && |nodes| == |old(nodes)| + 1 && fresh(nodes[p])
              && nodes == old(nodes)[..p] + [nodes[p]] + old(nodes)[p..]
    {
      hide Stretch, Distinct, Values;
      ghost var p := if after then k + 1 else k;
      ghost var l, r := nodes[..p], nodes[p..];
      Sides(nodes, p);
      Beside(k, after);
      var node := new Node(value);
      if after {
        node.prev := oldNode;
        node.next := oldNode.next;
        if tail == oldNode { tail := node; }
      } else {
        node.next := oldNode;
        node.prev := oldNode.prev;
        if head == oldNode { head := node; }
      }
      Hook(node, l, r);
      Insert(node, nodes, p);
      len, nodes := len + 1, l + [node] + r;
    }

    /** listRotate: the last element becomes the first. */
    method Rotate()
      requires Valid()
      modifies this, nodes
      ensures Valid()
      ensures var n := old(nodes); nodes == if |n| <= 1 then n else [n[|n| - 1]] + n[..|n| - 1]
      ensures var c := old(Contents()); Contents() == if |c| <= 1 then c else [c[|c| - 1]] + c[..|c| - 1]
    {
      hide Stretch, Distinct, Values;
      var last := tail;
      if len <= 1 { return; }
      ghost var f := nodes[..|nodes| - 1];
      Sides(nodes, |nodes| - 1);
      Neighbours(null, nodes, null, |nodes| - 1);
      Turned(nodes);
      NoStretch<T>(null, last);
      tail := last.prev;
      SetNext(tail, null, null, f, last);
      SetPrev(head, last, null, f, null);
      last.prev := null;
      last.next := head;
      head := last;
      Insert(last, f, 0);
      nodes := [last] + f;
    }

    /** listJoin, for two lists that share no node. */
    method Join(o: List<T>)
      requires Valid() && o.Valid() && this != o
      requires forall n :: n in nodes ==> n !in o.nodes
      modifies this, nodes, o, o.nodes
      ensures Valid() && o.Valid() && o.nodes == [] && nodes == old(nodes) + old(o.nodes)
      ensures Contents() == old(Contents()) + old(o.Contents())
    {
      hide Stretch, Distinct, Values;
      ghost var a, b := nodes, o.nodes;
      DistinctJoin(a, b);
      ValuesConcat(a, b);
      NothingLinked<T>();
      assert b != [] ==> b[0] in b && b[0] !in a;
      assert a != [] ==> a[|a| - 1] in a && a[|a| - 1] !in b;
      if o.head != null { SetPrev(o.head, tail, null, b, null); } else { NoStretch(tail, null); }
      LinkLeft(tail, o.head, a, null);
      if o.tail != null { tail := o.tail; }
      len := len + o.len;
      o.head, o.tail, o.len := null, null, 0;
      Rejoin(a, b);
      nodes, o.nodes := a + b, [];
    }

    // ---- Looking without changing ----

    ghost function NodeAt(i: int): Node?<T>
      reads this
    {
      if 0 <= i < |nodes| then nodes[i] else null
    }

    lemma Links(k: nat)
      requires Valid() && k < |nodes|
      ensures nodes[k].prev == NodeAt(k - 1) && nodes[k].next == NodeAt(k + 1)
    {
      hide Stretch;
      Neighbours(null, nodes, null, k);
    }

    /** listIndex: counted from the tail when negative, null when out of range. */
    method Index(index: int) returns (n: Node?<T>)
      requires Valid()
      ensures n == NodeAt(if index < 0 then |nodes| + index else index)
    {
      hide Stretch, Distinct;
      var i := index;
      if i < 0 {
        i := (-i) - 1;
        n := tail;
        while i > 0 && n != null
          invariant 0 <= i <= -index - 1
          invariant n == NodeAt(|nodes| - 1 - ((-index - 1) - i))
        {
          Links(|nodes| - 1 - ((-index - 1) - i));
          i, n := i - 1, n.prev;
        }
      } else {
        n := head;
        while i > 0 && n != null
          invariant 0 <= i <= index && n == NodeAt(index - i)
        {
          Links(index - i);
          i, n := i - 1, n.next;
        }
      }
    }

    /** listSearchKey: the first element that matches. */
    method SearchKey(key: T, matches: (T, T) -> bool) returns (n: Node?<T>, ghost k: nat)
      requires Valid()
      ensures k <= |nodes| && n == NodeAt(k)
      ensures n != null ==> matches(n.value, key)
      ensures forall i :: 0 <= i < k ==> !matches(Contents()[i], key)
    {
      hide Stretch, Distinct;
      n, k := head, 0;
      while n != null
        invariant k <= |nodes| && n == NodeAt(k)
        invariant forall i :: 0 <= i < k ==> !matches(Contents()[i], key)
        decreases |nodes| - k
      {
        if matches(n.value, key) { return; }
        Links(k);
        n, k := n.next, k + 1;
      }
    }

    /** listEmpty: walks all the nodes and forgets them. */
    method Empty()
      requires Valid()
      modifies this
      ensures Valid() && nodes == []
    {
      hide Stretch, Distinct;
      var current, left := head, len;
      while left > 0
        invariant Valid() && nodes == old(nodes) && 0 <= left <= |nodes| && current == NodeAt(|nodes| - left)
      {
        Links(|nodes| - left);
        current, left := current.next, left - 1;
      }
      NothingLinked<T>();
      head, tail, len, nodes := null, null, 0, [];
    }
  }

  // ---- Iterators ----

  class Iter<T(==)> {
    var next: Node?<T>
    var forward: bool

    /** The next `visited` is node number `pos`, counted in the iterator's direction. */
    ghost predicate On(list: List<T>, pos: nat)
      reads this, list
    {
      pos <= |list.nodes| && next == list.NodeAt(if forward then pos else |list.nodes| - 1 - pos)
    }

    /** listGetIterator, listRewind, listRewindTail */
    constructor (list: List<T>, forward: bool)
      requires list.Valid()
      ensures On(list, 0) && this.forward == forward
    {
      next := if forward then list.head else list.tail;
      this.forward := forward;
    }

    /** listNext */
    method Next(ghost list: List<T>, ghost pos: nat) returns (current: Node?<T>)
      requires list.Valid() && On(list, pos)
      modifies this`next
      ensures current == old(next) && (current == null <==> pos == |list.nodes|)
      ensures On(list, if current == null then pos else pos + 1)
    {
      current := next;
      if current != null {
        list.Links(if forward then pos else |list.nodes| - 1 - pos);
        if forward { next := current.next; } else { next := current.prev; }
      }
    }
  }

  /** A value as the list's dup method copies it, or itself when there is none. */
  function Copied<T>(v: T, dup: Option<T -> Option<T>>): Option<T> { if dup.Some? then dup.value(v) else Some(v) }

  /** `cs` are the copies of the first values of `vs`. */
  ghost predicate CopiesOf<T>(vs: seq<T>, cs: seq<T>, dup: Option<T -> Option<T>>) {
    |cs| <= |vs| && forall i :: 0 <= i < |cs| ==> Copied(vs[i], dup) == Some(cs[i])
  }

  lemma CopiesMore<T>(vs: seq<T>, cs: seq<T>, dup: Option<T -> Option<T>>, c: T)
    requires CopiesOf(vs, cs, dup) && |cs| < |vs| && Copied(vs[|cs|], dup) == Some(c)
    ensures CopiesOf(vs, cs + [c], dup)
  {
  }

  ghost predicate Copyable<T>(vs: seq<T>, dup: Option<T -> Option<T>>) {
    forall i :: 0 <= i < |vs| ==> Copied(vs[i], dup).Some?
  }

  lemma CopiedSoFar<T>(vs: seq<T>, cs: seq<T>, dup: Option<T -> Option<T>>)
    requires CopiesOf(vs, cs, dup)
    ensures |cs| == |vs| ==> Copyable(vs, dup)
    ensures |cs| < |vs| && Copied(vs[|cs|], dup).None? ==> !Copyable(vs, dup)
  {
  }

  lemma NoCopies<T>(vs: seq<T>, dup: Option<T -> Option<T>>)
    ensures CopiesOf(vs, [], dup)
  {
  }

  /** One value of the original copied to the end of the copy. */
  method AppendCopy<T(==)>(c: List<T>, value: T, dup: Option<T -> Option<T>>, ghost vs: seq<T>) returns (ok: bool)
    requires c.Valid() && CopiesOf(vs, c.Contents(), dup) && |c.Contents()| < |vs| && value == vs[|c.Contents()|]
    modifies c, c.nodes
    ensures ok <==> Copied(value, dup).Some?
    ensures ok ==>
              && c.Valid() && CopiesOf(vs, c.Contents(), dup) && |c.Contents()| == |old(c.Contents())| + 1
              && fresh(set n | n in c.nodes && n !in old(c.nodes))
  {
    hide Stretch, Distinct, Values, First, Last, CopiesOf, List.Valid;
    var copied := Copied(value, dup);
    ok := copied.Some?;
    if ok {
      CopiesMore(vs, c.Contents(), dup, copied.value);
      c.AddNodeTail(copied.value);
      assert c.nodes == old(c.nodes) + [c.nodes[|c.nodes| - 1]];
    }
  }

  /** listDup: nothing when a value cannot be copied; the original is not touched. */
  method Dup<T(==)>(orig: List<T>, dup: Option<T -> Option<T>>) returns (copy: List?<T>)
    requires orig.Valid()
    ensures copy == null <==> !Copyable(orig.Contents(), dup)
    ensures copy != null ==>
              && fresh(copy) && fresh(copy.nodes) && copy.Valid()
              && |copy.Contents()| == |orig.Contents()| && CopiesOf(orig.Contents(), copy.Contents(), dup)
  {
    hide Stretch, Distinct, Values, First, Last, CopiesOf, Copyable, Copied, List.Valid;
    var c := new List<T>();
    var iter := new Iter(orig, true);
    ghost var vs, pos := orig.Contents(), 0;
    NoCopies(vs, dup);
    while true
      invariant fresh(iter) && fresh(c) && fresh(c.nodes) && c.Valid() && orig.Valid() && iter.On(orig, pos)
                && iter.forward
      invariant |c.Contents()| == pos && CopiesOf(vs, c.Contents(), dup) && pos <= |vs|
      decreases |vs| - pos
    {
      CopiedSoFar(vs, c.Contents(), dup);
      var node := iter.Next(orig, pos);
      if node == null { break; }
      var ok := AppendCopy(c, node.value, dup, vs);
      if !ok { return null; }
      pos := pos + 1;
    }
    copy := c;
  }

  /** What remains when the doomed elements go. */
  ghost function Kept<T>(vs: seq<T>, doomed: T -> bool): seq<T> {
    if vs == [] then [] else (if doomed(vs[0]) then [] else [vs[0]]) + Kept(vs[1..], doomed)
  }

  lemma {:induction false} KeptConcat<T>(a: seq<T>, b: seq<T>, doomed: T -> bool)
    ensures Kept(a + b, doomed) == Kept(a, doomed) + Kept(b, doomed)
    decreases |a|
  {
    if a == [] {
      assert a + b == b;
    } else {
      assert (a + b)[1..] == a[1..] + b;
      KeptConcat(a[1..], b, doomed);
    }
  }

  function Without<T>(vs: seq<T>, k: nat): seq<T>
    requires k < |vs|
  {
    vs[..k] + vs[k + 1..]
  }

  ghost function NodeSet<T>(nodes: seq<Node<T>>): set<Node<T>> { set n | n in nodes }

  lemma SetWithin<T>(nodes: seq<Node<T>>)
    ensures Within(nodes, NodeSet(nodes)) && forall n :: n in NodeSet(nodes) ==> n in nodes
  {
  }

  ghost predicate Within<T>(nodes: seq<Node<T>>, pool: set<Node<T>>) {
    forall k :: 0 <= k < |nodes| ==> nodes[k] in pool
  }

  /** Where the element number `pos` in a direction is, in a list of `n`. */
  function Place(n: nat, pos: nat, forward: bool): int { if forward then pos else n - 1 - pos }

  /** One round of a walk in either direction: the next element is met, and deleted if doomed. The
      iterator then stands on the one after it. */
  method Meet<T(==)>(list: List<T>, iter: Iter<T>, doomed: T -> bool, ghost pos: nat, ghost pool: set<Node<T>>)
    returns (node: Node?<T>)
    requires list.Valid() && iter.On(list, pos) && Within(list.nodes, pool)
    modifies list, pool, iter
    ensures list.Valid() && Within(list.nodes, pool)
    ensures iter.forward == old(iter.forward)
    ensures node == null <==> pos == |old(list.Contents())|
    ensures node == null ==> list.Contents() == old(list.Contents()) && iter.On(list, pos)
    ensures node != null ==>
              && var q := Place(|old(list.Contents())|, pos, iter.forward);
              && 0 <= q < |old(list.Contents())| && node.value == old(list.Contents())[q]
              && list.Contents() == (if doomed(node.value) then Without(old(list.Contents()), q)
                                     else old(list.Contents()))
              && iter.On(list, if doomed(node.value) then pos else pos + 1)
  {
    hide Stretch, Distinct, Values, First, Last, List.Valid, Within;
    node := iter.Next(list, pos);
    if node != null && doomed(node.value) {
      FewerWithin(list.nodes, Place(|list.nodes|, pos, iter.forward), pool);
      ghost var nodes, q := list.nodes, Place(|list.nodes|, pos, iter.forward);
      list.DelNode(node, q);
      AfterDeletion(nodes, pos, iter.forward);
    }
  }

  lemma FewerWithin<T>(nodes: seq<Node<T>>, q: nat, pool: set<Node<T>>)
    requires Within(nodes, pool) && q < |nodes|
    ensures Within(nodes[..q] + nodes[q + 1..], pool) && forall k :: 0 <= k < |nodes| ==> nodes[k] in pool
  {
  }

  /** Without element number `pos`, the one after it has its number. */
  lemma AfterDeletion<T>(nodes: seq<Node<T>>, pos: nat, forward: bool)
    requires pos < |nodes|
    ensures var n, q := |nodes|, Place(|nodes|, pos, forward);
            var i, j := Place(n - 1, pos, forward), Place(n, pos + 1, forward);
            && 0 <= q < n && (0 <= i < n - 1 <==> 0 <= j < n) && (0 <= i < n - 1 ==> Without(nodes, q)[i] == nodes[j])
  {
  }

  /** The walk the list supports, from either end: every element is met once, in order, and the one
      just met may be deleted. */
  method DeleteWhileWalking<T(==)>(list: List<T>, doomed: T -> bool, forward: bool) returns (ghost met: seq<T>)
    requires list.Valid()
    modifies list, list.nodes
    ensures list.Valid() && list.Contents() == Kept(old(list.Contents()), doomed)
    ensures met == Met(old(list.Contents()), |old(list.Contents())|, forward)
  {
    hide Stretch, Distinct, Values, Kept, Walking, Without, Met, Place, Within, NodeSet, List.Valid, Iter.On;
    ghost var pool := NodeSet(list.nodes);
    SetWithin(list.nodes);
    var iter := new Iter(list, forward);
    ghost var all, pos, i := list.Contents(), 0, 0;
    met := [];
    WalkBegins(all, doomed, forward);
    while true
      invariant fresh(iter) && list.Valid() && iter.On(list, pos) && iter.forward == forward
      invariant Within(list.nodes, pool) && Walking(list.Contents(), all, i, pos, met, doomed, forward) && i <= |all|
      decreases |all| - i
    {
      var more;
      more, pos, met := WalkOn(list, iter, doomed, all, i, pos, met, pool);
      if !more { break; }
      i := i + 1;
    }
  }

  method WalkOn<T(==)>(list: List<T>, iter: Iter<T>, doomed: T -> bool,
                       ghost all: seq<T>, ghost i: nat, ghost at: nat, ghost before: seq<T>, ghost pool: set<Node<T>>)
    returns (more: bool, ghost pos: nat, ghost met: seq<T>)
    requires list.Valid() && iter.On(list, at) && Within(list.nodes, pool)
    requires Walking(list.Contents(), all, i, at, before, doomed, iter.forward)
    modifies list, pool, iter
    ensures list.Valid() && iter.On(list, pos) && Within(list.nodes, pool) && iter.forward == old(iter.forward)
    ensures more ==> i < |all| && Walking(list.Contents(), all, i + 1, pos, met, doomed, iter.forward)
    ensures !more ==> i == |all| && list.Contents() == Kept(all, doomed) && met == Met(all, |all|, iter.forward)
  {
    hide Stretch, Distinct, Values, Kept, Walking, Without, Met, Within, List.Valid;
    pos, met := at, before;
    WalkStep(list.Contents(), all, i, pos, met, doomed, iter.forward);
    var node := Meet(list, iter, doomed, pos, pool);
    more := node != null;
    if node != null {
      met := met + [node.value];
      if !doomed(node.value) { pos := pos + 1; }
    }
  }

  /** The walk stands after `i` elements: `c` is the list, `met` what was met. */
  ghost predicate Walking<T>(c: seq<T>, all: seq<T>, i: nat, pos: nat, met: seq<T>, doomed: T -> bool, forward: bool) {
    && i <= |all| && c == Walked(all, i, doomed, forward) && pos == |KeptSoFar(all, i, doomed, forward)|
    && met == Met(all, i, forward)
  }

  lemma WalkBegins<T>(all: seq<T>, doomed: T -> bool, forward: bool)
    ensures Walking(all, all, 0, 0, [], doomed, forward)
  {
    hide Walked, KeptSoFar, Met;
    WalkedEnds(all, doomed, forward);
  }

  lemma WalkStep<T>(c: seq<T>, all: seq<T>, i: nat, pos: nat, met: seq<T>, doomed: T -> bool, forward: bool)
    requires Walking(c, all, i, pos, met, doomed, forward)
    ensures pos == |c| ==> i == |all| && c == Kept(all, doomed) && met == Met(all, |all|, forward)
    ensures pos != |c| ==>
              var q := Place(|c|, pos, forward);
              && 0 <= q < |c| && i < |all|
              && Walking(if doomed(c[q]) then Without(c, q) else c, all, i + 1, if doomed(c[q]) then pos else pos + 1,
                         met + [c[q]], doomed, forward)
  {
    hide Walked, KeptSoFar, Met, Without, Kept, Place;
    WalkedStep(all, i, doomed, forward);
  }

  /** The first `i` elements in a direction. */
  ghost function Met<T>(all: seq<T>, i: nat, forward: bool): seq<T>
    requires i <= |all|
  {
    seq(i, m requires 0 <= m < i => all[Place(|all|, m, forward)])
  }

  ghost function KeptSoFar<T>(all: seq<T>, i: nat, doomed: T -> bool, forward: bool): seq<T>
    requires i <= |all|
  {
    Kept(if forward then all[..i] else all[|all| - i..], doomed)
  }

  /** The list after meeting `i` elements. */
  ghost function Walked<T>(all: seq<T>, i: nat, doomed: T -> bool, forward: bool): seq<T>
    requires i <= |all|
  {
    if forward then KeptSoFar(all, i, doomed, forward) + all[i..]
    else all[..|all| - i] + KeptSoFar(all, i, doomed, forward)
  }

  lemma WalkedEnds<T>(all: seq<T>, doomed: T -> bool, forward: bool)
    ensures Walked(all, 0, doomed, forward) == all && KeptSoFar(all, 0, doomed, forward) == []
            && Met(all, 0, forward) == []
    ensures Walked(all, |all|, doomed, forward) == Kept(all, doomed) == KeptSoFar(all, |all|, doomed, forward)
  {
    assert all[..|all|] == all;
  }

  lemma WalkedStep<T>(all: seq<T>, i: nat, doomed: T -> bool, forward: bool)
    requires i <= |all|
    ensures var w, pos := Walked(all, i, doomed, forward), |KeptSoFar(all, i, doomed, forward)|;
            && (pos == |w| <==> i == |all|) && (i == |all| ==> w == Kept(all, doomed))
            && (i < |all| ==>
                  var q, x := Place(|w|, pos, forward), all[Place(|all|, i, forward)];
                  && 0 <= q < |w| && w[q] == x && Met(all, i + 1, forward) == Met(all, i, forward) + [x]
                  && |KeptSoFar(all, i + 1, doomed, forward)| == (if doomed(x) then pos else pos + 1)
                  && Walked(all, i + 1, doomed, forward) == if doomed(x) then Without(w, q) else w)
  {
    hide Kept, Met, KeptSoFar, Walked, Without, Place;
    if i == |all| {
      WalkedEnds(all, doomed, forward);
    } else {
      MetStep(all, i, forward);
      if forward { ForwardStep(all, i, doomed); } else { BackwardStep(all, i, doomed); }
    }
    WalkedLength(all, i, doomed, forward);
  }

  lemma WalkedLength<T>(all: seq<T>, i: nat, doomed: T -> bool, forward: bool)
    requires i <= |all|
    ensures |Walked(all, i, doomed, forward)| == |KeptSoFar(all, i, doomed, forward)| + |all| - i
  {
    hide Kept;
  }

  lemma ForwardStep<T>(all: seq<T>, i: nat, doomed: T -> bool)
    requires i < |all|
    ensures var w, x := Walked(all, i, doomed, true), all[Place(|all|, i, true)];
            var pos := |KeptSoFar(all, i, doomed, true)|;
            var q := Place(|w|, pos, true);
            && 0 <= q < |w| && w[q] == x
            && |KeptSoFar(all, i + 1, doomed, true)| == (if doomed(x) then pos else pos + 1)
            && Walked(all, i + 1, doomed, true) == if doomed(x) then Without(w, q) else w
  {
    hide Kept;
    KeptStep(all, i, doomed);
    OneMore(KeptSoFar(all, i, doomed, true), all[i..]);
    assert all[i..][1..] == all[i + 1..];
  }

  lemma BackwardStep<T>(all: seq<T>, i: nat, doomed: T -> bool)
    requires i < |all|
    ensures var w, x := Walked(all, i, doomed, false), all[Place(|all|, i, false)];
            var pos := |KeptSoFar(all, i, doomed, false)|;
            var q := Place(|w|, pos, false);
            && 0 <= q < |w| && w[q] == x
            && |KeptSoFar(all, i + 1, doomed, false)| == (if doomed(x) then pos else pos + 1)
            && Walked(all, i + 1, doomed, false) == if doomed(x) then Without(w, q) else w
  {
    hide Kept;
    var n := |all| - i;
    KeptStepBack(all, n - 1, doomed);
    OneLess(all[..n], KeptSoFar(all, i, doomed, false));
    assert all[..n][..n - 1] == all[..n - 1];
  }

  lemma MetStep<T>(all: seq<T>, i: nat, forward: bool)
    requires i < |all|
    ensures Met(all, i + 1, forward) == Met(all, i, forward) + [all[Place(|all|, i, forward)]]
  {
  }

  lemma OneMore<T>(done: seq<T>, rest: seq<T>)
    requires rest != []
    ensures (done + rest)[|done|] == rest[0]
    ensures (done + rest)[..|done|] + (done + rest)[|done| + 1..] == done + rest[1..]
    ensures done + rest == (done + [rest[0]]) + rest[1..]
  {
  }

  lemma OneLess<T>(rest: seq<T>, done: seq<T>)
    requires rest != []
    ensures var n := |rest| - 1;
            && (rest + done)[n] == rest[n] && (rest + done)[..n] + (rest + done)[n + 1..] == rest[..n] + done
            && rest + done == rest[..n] + ([rest[n]] + done)
  {
  }

  lemma KeptOne<T>(x: T, doomed: T -> bool)
    ensures Kept([x], doomed) == if doomed(x) then [] else [x]
  {
    assert [x][1..] == [];
  }

  lemma KeptStep<T>(vs: seq<T>, i: nat, doomed: T -> bool)
    requires i < |vs|
    ensures Kept(vs[..i + 1], doomed) == Kept(vs[..i], doomed) + if doomed(vs[i]) then [] else [vs[i]]
  {
    assert vs[..i + 1] == vs[..i] + [vs[i]];
    KeptConcat(vs[..i], [vs[i]], doomed);
    KeptOne(vs[i], doomed);
  }

  lemma KeptStepBack<T>(vs: seq<T>, i: nat, doomed: T -> bool)
    requires i < |vs|
    ensures Kept(vs[i..], doomed) == (if doomed(vs[i]) then [] else [vs[i]]) + Kept(vs[i + 1..], doomed)
  {
    assert vs[i..] == [vs[i]] + vs[i + 1..];
    KeptConcat([vs[i]], vs[i + 1..], doomed);
    KeptOne(vs[i], doomed);
  }

  lemma NothingLinked<T>()
    ensures Stretch<T>(null, [], null) && Distinct<T>([])
  {
  }

  lemma ValuesWithout<T>(nodes: seq<Node<T>>, k: nat)
    requires k < |nodes|
    ensures Values(nodes[..k] + nodes[k + 1..]) == Values(nodes)[..k] + Values(nodes)[k + 1..]
  {
    hide Values;
    ValuesConcat(nodes[..k], nodes[k + 1..]);
    ValuesFrom(nodes, 0, k);
    ValuesFrom(nodes, k + 1, |nodes|);
  }

  lemma ValuesFrom<T>(nodes: seq<Node<T>>, i: nat, j: nat)
    requires i <= j <= |nodes|
    ensures Values(nodes[i..j]) == Values(nodes)[i..j]
  {
    hide Values;
  }

  lemma Turned<T>(nodes: seq<Node<T>>)
    requires Distinct(nodes) && nodes != []
    ensures var n := |nodes| - 1;
            && Distinct(nodes[..n]) && nodes[n] !in nodes[..n]
            && Values([nodes[n]] + nodes[..n]) == [Values(nodes)[n]] + Values(nodes)[..n]
  {
    hide Values, Distinct;
    var n := |nodes| - 1;
    var f, last := nodes[..n], [nodes[n]];
    assert nodes == f + last;
    DistinctSplit(f, last);
    assert nodes[n] in last;
    ValuesConcat(last, f);
    ValuesConcat(f, last);
    OneValue(nodes[n]);
  }

  lemma OneValue<T>(n: Node<T>)
    ensures Values([n]) == [n.value]
  {
  }

  /** A node whose links name the ends of the two halves of a list completes it. */
  lemma Insert<T>(node: Node<T>, nodes: seq<Node<T>>, p: nat)
    requires p <= |nodes| && node !in nodes && Distinct(nodes)
    requires node.prev == Last(nodes[..p], null) && node.next == First(nodes[p..], null)
    requires Stretch(null, nodes[..p], node) && Stretch(node, nodes[p..], null)
    ensures var m := nodes[..p] + [node] + nodes[p..];
            && Stretch(null, m, null) && Distinct(m)
            && Values(m) == Values(nodes)[..p] + [node.value] + Values(nodes)[p..]
            && (p == 0 ==> m == [node] + nodes) && (p == |nodes| ==> m == nodes + [node])
  {
    hide Stretch, Distinct, Values;
    var l, r := nodes[..p], nodes[p..];
    InsertDistinct(node, nodes, p);
    InsertValues(node, nodes, p);
    Assoc(l, [node], r);
    StretchOne(Last(l, null), node, First(r, null));
    Splice(Last(l, null), [node], r, null);
    Splice(null, l, [node] + r, null);
  }

  lemma InsertValues<T>(node: Node<T>, nodes: seq<Node<T>>, p: nat)
    requires p <= |nodes|
    ensures var m := nodes[..p] + [node] + nodes[p..];
            && Values(m) == Values(nodes)[..p] + [node.value] + Values(nodes)[p..]
            && (p == 0 ==> m == [node] + nodes) && (p == |nodes| ==> m == nodes + [node])
  {
    hide Values;
    var l, r := nodes[..p], nodes[p..];
    ValuesConcat(l + [node], r);
    ValuesConcat(l, [node]);
    OneValue(node);
    ValuesFrom(nodes, 0, p);
    ValuesFrom(nodes, p, |nodes|);
  }

  lemma InsertDistinct<T>(node: Node<T>, nodes: seq<Node<T>>, p: nat)
    requires p <= |nodes| && node !in nodes && Distinct(nodes)
    ensures Distinct(nodes[..p] + [node] + nodes[p..])
  {
    var m := nodes[..p] + [node] + nodes[p..];
    forall i, j | 0 <= i < j < |m| ensures m[i] != m[j] {
      assert i < p ==> m[i] == nodes[i];
      assert i > p ==> m[i] == nodes[i - 1];
      assert j < p ==> m[j] == nodes[j];
      assert j > p ==> m[j] == nodes[j - 1];
    }
  }
}
