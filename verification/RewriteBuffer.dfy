/** The block list that accumulates the differences while a child rewrites the file
    (aof.c:46-194). Only the order and the content of the bytes matter to its users. */
module RewriteBuffer {
  import opened Common
  import opened Resp

  /** `data` is buf[..used]. */
  datatype Block = Block(data: Bytes, free: nat)

  function Joined(blocks: seq<Block>): Bytes {
    if blocks == [] then [] else blocks[0].data + Joined(blocks[1..])
  }

  lemma {:induction false} JoinedConcat(a: seq<Block>, b: seq<Block>)
    ensures Joined(a + b) == Joined(a) + Joined(b)
  {
    if a == [] {
      assert a + b == b;
    } else {
      assert (a + b)[1..] == a[1..] + b;
      JoinedConcat(a[1..], b);
    }
  }

  lemma JoinedSnoc(blocks: seq<Block>, b: Block)
    ensures Joined(blocks + [b]) == Joined(blocks) + b.data
  {
    JoinedConcat(blocks, [b]);
    assert [b][1..] == [];
    assert b.data + [] == b.data;
  }

  predicate FullSized(blocks: seq<Block>, size: nat) {
    forall i :: 0 <= i < |blocks| ==> |blocks[i].data| + blocks[i].free == size
  }

  /** The outcome of a write call for `len` bytes: -1 or a count; past the script, -1. */
  function Written(outcomes: seq<int>, i: nat, len: nat): (n: int)
    ensures -1 <= n <= len
  {
    if i >= |outcomes| || outcomes[i] < -1 then -1 else if outcomes[i] > len then len else outcomes[i]
  }

  class Buffer {
    const blockSize: nat
    var blocks: seq<Block>
    /** aof_stop_sending_diff, and whether the writable handler of the pipe is installed. */
    var stop: bool
    var installed: bool

    /** Blocks are full-sized, and bytes waiting to be sent have a handler to send them. */
    ghost predicate Valid()
      reads this
    {
      && blockSize > 0
      && FullSized(blocks, blockSize)
      && (installed || stop || blocks == [])
    }

    ghost function Content(): Bytes
      reads this
    {
      Joined(blocks)
    }

    constructor (size: nat)
      requires size > 0
      ensures Valid() && blocks == [] && blockSize == size && !stop
    {
      blockSize, blocks, stop, installed := size, [], false, false;
    }

    /** aofRewriteBufferReset. */
    method Reset()
      requires Valid()
      modifies this
      ensures Valid() && blocks == [] && stop == old(stop)
    {
      blocks := [];
    }

    /** aofCreatePipes: differences may be sent again, and no handler is installed yet. */
    method OpenPipes()
      requires Valid() && blocks == []
      modifies this
      ensures Valid() && blocks == [] && !stop
    {
      stop, installed := false, false;
    }

    /** aofChildPipeReadable: the child asked to stop. */
    method StopSending()
      requires Valid()
      modifies this
      ensures Valid() && blocks == old(blocks) && stop
    {
      stop := true;
    }

    /** aofRewriteBufferSize. */
    method Size() returns (size: nat)
      ensures size == |Content()|
    {
      size := 0;
      for i := 0 to |blocks|
        invariant size == |Joined(blocks[..i])|
      {
        JoinedSnoc(blocks[..i], blocks[i]);
        assert blocks[..i] + [blocks[i]] == blocks[..i + 1];
        size := size + |blocks[i].data|;
      }
      assert blocks[..|blocks|] == blocks;
    }

    /** aofRewriteBufferAppend: fill the last block, then allocate new ones. */
    method Append(s: Bytes)
      requires Valid()
      modifies this
      ensures Valid() && Content() == old(Content()) + s && stop == old(stop)
    {
      var rest := s;
      ghost var total := Joined(blocks) + s;
      while rest != []
        invariant FullSized(blocks, blockSize)
        invariant Joined(blocks) + rest == total
        invariant stop == old(stop)
        decreases |rest|, if blocks == [] || Last(blocks).free == 0 then 1 else 0
      {
        hide Joined, FullSized, Filled;
        if blocks != [] {
          var thislen := if Last(blocks).free < |rest| then Last(blocks).free else |rest|;
          if thislen > 0 {
            var part := rest[..thislen];
            FillLast(blocks, part, blockSize);
            Assoc(Joined(blocks), part, rest[thislen..]);
            assert rest == part + rest[thislen..];
            blocks := Filled(blocks, part);
            rest := rest[thislen..];
          }
        }
        if rest != [] {
          AddEmpty(blocks, blockSize);
          blocks := blocks + [Block([], blockSize)];
        }
      }
      assert Joined(blocks) + [] == Joined(blocks);
      if !installed { installed := true; }
    }

    /** aofChildWriteDiffData: send from the front of the list until the pipe refuses, the child
        asked to stop, or nothing is left. */
    method SendDiff(outcomes: seq<int>) returns (sent: Bytes, ghost calls: nat)
      requires Valid()
      modifies this
      ensures Valid() && stop == old(stop)
      ensures old(Content()) == sent + Content()
      ensures (stop ==> sent == []) && (old(blocks) == [] ==> blocks == [])
      ensures stop || Content() == [] || (blocks != [] && Written(outcomes, calls, |blocks[0].data|) <= 0)
    {
      sent, calls := [], 0;
      var i := 0;
      ghost var total := Joined(blocks);
      while true
        invariant FullSized(blocks, blockSize)
        invariant total == sent + Joined(blocks)
        invariant stop == old(stop) && installed == old(installed) && (stop ==> sent == [])
        invariant old(blocks) == [] ==> blocks == []
        decreases |Joined(blocks)|, |blocks|
      {
        hide Joined;
        if stop || blocks == [] {
          installed := false;
          return;
        }
        if |blocks[0].data| > 0 {
          var n := Written(outcomes, i, |blocks[0].data|);
          calls := i;
          if n <= 0 { return; }
          SendFirst(blocks, sent, n);
          sent := sent + blocks[0].data[..n];
          blocks := blocks[0 := Block(blocks[0].data[n..], blocks[0].free + n)];
          i := i + 1;
        }
        if |blocks[0].data| == 0 {
          DropEmpty(blocks);
          blocks := blocks[1..];
        }
      }
    }

    /** Every block is written whole. */
    predicate WritesAll(outcomes: seq<int>)
      reads this
    {
      forall i :: 0 <= i < |blocks| && blocks[i].data != [] ==>
        Written(outcomes, i, |blocks[i].data|) == |blocks[i].data|
    }

    /** aofRewriteBufferWrite: all blocks to a file, or an error at the first short write. */
    method WriteAll(outcomes: seq<int>) returns (written: Bytes, ok: bool)
      ensures ok <==> WritesAll(outcomes)
      ensures written <= Content() && (ok ==> written == Content())
    {
      written, ok := [], true;
      for i := 0 to |blocks|
        invariant written == Joined(blocks[..i])
        invariant forall k :: 0 <= k < i && blocks[k].data != [] ==>
                  Written(outcomes, k, |blocks[k].data|) == |blocks[k].data|
      {
        var b := blocks[i];
        if |b.data| > 0 {
          var n := Written(outcomes, i, |b.data|);
          if n != |b.data| {
            JoinedConcat(blocks[..i], blocks[i..]);
            assert blocks == blocks[..i] + blocks[i..];
            return written, false;
          }
        }
        JoinedSnoc(blocks[..i], b);
        assert blocks[..i] + [b] == blocks[..i + 1];
        written := written + b.data;
      }
      assert blocks[..|blocks|] == blocks;
    }
  }

  lemma DropEmpty(blocks: seq<Block>)
    requires blocks != [] && blocks[0].data == []
    ensures Joined(blocks[1..]) == Joined(blocks)
  {
  }

  lemma AddEmpty(blocks: seq<Block>, size: nat)
    requires FullSized(blocks, size)
    ensures FullSized(blocks + [Block([], size)], size)
    ensures Joined(blocks + [Block([], size)]) == Joined(blocks)
  {
    JoinedSnoc(blocks, Block([], size));
  }

  function Last(blocks: seq<Block>): Block
    requires blocks != []
  {
    blocks[|blocks| - 1]
  }

  /** The list after `part` was copied into its last block. */
  function Filled(blocks: seq<Block>, part: Bytes): seq<Block>
    requires blocks != [] && |part| <= Last(blocks).free
  {
    if |blocks| == 1 then [Block(blocks[0].data + part, blocks[0].free - |part|)]
    else [blocks[0]] + Filled(blocks[1..], part)
  }

  lemma {:induction false} FillLast(blocks: seq<Block>, part: Bytes, size: nat)
    requires blocks != [] && |part| <= Last(blocks).free && FullSized(blocks, size)
    ensures FullSized(Filled(blocks, part), size)
    ensures Joined(Filled(blocks, part)) == Joined(blocks) + part
    ensures Filled(blocks, part) != [] && Last(Filled(blocks, part)).free == Last(blocks).free - |part|
  {
    if |blocks| == 1 {
      assert blocks[1..] == [] && Filled(blocks, part)[1..] == [];
    } else {
      FillLast(blocks[1..], part, size);
      assert Filled(blocks, part)[1..] == Filled(blocks[1..], part);
      Assoc(blocks[0].data, Joined(blocks[1..]), part);
    }
  }

  lemma SendFirst(blocks: seq<Block>, sent: Bytes, n: nat)
    requires blocks != [] && n <= |blocks[0].data|
    ensures var b := Block(blocks[0].data[n..], blocks[0].free + n);
            && sent + Joined(blocks) == (sent + blocks[0].data[..n]) + Joined(blocks[0 := b])
            && |Joined(blocks[0 := b])| == |Joined(blocks)| - n
  {
    var b := Block(blocks[0].data[n..], blocks[0].free + n);
    var rest := Joined(blocks[1..]);
    assert blocks[0 := b][1..] == blocks[1..];
    assert blocks[0].data == blocks[0].data[..n] + blocks[0].data[n..];
    Assoc(blocks[0].data[..n], blocks[0].data[n..], rest);
    Assoc(sent, blocks[0].data[..n], b.data + rest);
  }
}
