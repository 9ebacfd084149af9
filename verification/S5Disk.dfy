/**
 The S5 file system on disk (tools/fsmaker/api.py, kernel/fs/s5fs/s5fs_subr.c): the chained
 list of free blocks and the files' direct, indirect and sparse blocks.

 Data blocks are bytes; block numbers in them are 32-bit little-endian words. The fields of
 the super block and of the inodes, which lie in blocks of their own, are records.
 */
module S5Disk {
  import opened Lists
  import opened Words

  const BLOCK_SIZE := 4096
  const NDIRECT := 28
  const NINDIRECT := 1024
  const NENTRIES := 29
  const MAX_BLOCKS := 1052
  const MAX_SIZE := 4308992
  const END := 0xffff_ffff

  const FREE := 0
  const DATA := 1
  const DIR := 2

  // The size of a free inode is the number of the next free one.
  datatype Inode = Inode(kind: nat, size: nat, direct: seq<nat>, indirect: nat)

  datatype Disk = Disk(nfree: nat, free: seq<nat>, last: nat, freeInode: nat, inodes: map<nat, Inode>, blocks: map<nat,
                       Bytes>)

  // ---------- words in a block ----------

  function Word(b: Bytes, i: nat): (v: nat)
    ensures v < WORD
  {
    if 4 * i + 4 <= |b| then Decode(b[4 * i..4 * i + 4]) else 0
  }

  function WithWord(b: Bytes, i: nat, v: nat): (r: Bytes)
    requires |b| == BLOCK_SIZE && i < NINDIRECT && v < WORD
    ensures |r| == BLOCK_SIZE
  {
    Spliced(b, 4 * i, Encode(v))
  }

  lemma WordWithWord(b: Bytes, i: nat, v: nat, j: nat)
    requires |b| == BLOCK_SIZE && i < NINDIRECT && v < WORD && j < NINDIRECT
    ensures Word(WithWord(b, i, v), j) == if j == i then v else Word(b, j)
  {
    hide Encode, Decode;
    DecodeEncode(v);
    var r := WithWord(b, i, v);
    if j == i { assert r[4 * j..4 * j + 4] == Encode(v); } else { assert r[4 * j..4 * j + 4] == b[4 * j..4 * j + 4]; }
  }

  function Zeros(): (r: Bytes)
    ensures |r| == BLOCK_SIZE && forall i :: 0 <= i < |r| ==> r[i] == 0
  {
    seq(BLOCK_SIZE, _ => 0)
  }

  lemma WordZeros(i: nat)
    requires i < NINDIRECT
    ensures Word(Zeros(), i) == 0
  {
    hide Zeros;
    var b := Zeros()[4 * i..4 * i + 4];
    assert forall k :: 0 <= k < 4 ==> b[k] == 0;
  }

  // ---------- the free list ----------

  ghost predicate IsBlocks(blocks: map<nat, Bytes>)
  {
    forall b :: b in blocks ==> 0 < b < END && |blocks[b]| == BLOCK_SIZE
  }

  // The entries of a full node of the list.
  function Entries(b: Bytes): (r: seq<nat>)
    ensures |r| == NENTRIES && forall i :: 0 <= i < NENTRIES ==> r[i] == Word(b, i)
  {
    seq(NENTRIES, i requires i >= 0 => Word(b, i))
  }

  // From block b the chain goes back through the nodes, the last of them first.
  ghost predicate IsChain(blocks: map<nat, Bytes>, b: nat, nodes: seq<nat>)
    decreases |nodes|
  {
    if nodes == [] then b == END else
      var n := |nodes| - 1;
      b == nodes[n] && b in blocks && IsChain(blocks, Word(blocks[b], NENTRIES), nodes[..n])
  }

  ghost function Chained(blocks: map<nat, Bytes>, nodes: seq<nat>): seq<nat>
  {
    if nodes == [] then [] else
      var n := |nodes| - 1;
      Chained(blocks, nodes[..n]) + (if nodes[n] in blocks then Entries(blocks[nodes[n]]) else []) + [nodes[n]]
  }

  // The free blocks as a stack, the next to be allocated at its end.
  ghost function Stack(d: Disk, nodes: seq<nat>): seq<nat>
  {
    Chained(d.blocks, nodes) + if d.nfree <= |d.free| then d.free[..d.nfree] else []
  }

  ghost predicate FreeShape(d: Disk)
  {
    && IsBlocks(d.blocks) && |d.free| == NENTRIES && d.nfree <= NENTRIES && d.last < WORD
    && forall i :: 0 <= i < NENTRIES ==> d.free[i] < WORD
  }

  ghost predicate FreeOk(d: Disk, nodes: seq<nat>)
  {
    && FreeShape(d)
    && (forall b :: b in nodes ==> b in d.blocks) && IsChain(d.blocks, d.last, nodes)
    && NoDup(Stack(d, nodes)) && forall b :: b in Stack(d, nodes) ==> b in d.blocks
  }

  // What is in the blocks that are on the list is all that matters to it.
  lemma {:induction false} ChainFrame(blocks: map<nat, Bytes>, blocks': map<nat, Bytes>, b: nat, nodes: seq<nat>)
    requires IsBlocks(blocks) && IsBlocks(blocks') && (forall x :: x in nodes ==> x in blocks)
             && IsChain(blocks, b, nodes)
    requires forall x :: x in nodes ==> x in blocks' && blocks'[x] == blocks[x]
    ensures IsChain(blocks', b, nodes) && Chained(blocks', nodes) == Chained(blocks, nodes)
    decreases |nodes|
  {
    if nodes != [] {
      var n := |nodes| - 1;
      ChainFrame(blocks, blocks', Word(blocks[b], NENTRIES), nodes[..n]);
    }
  }

  lemma {:induction false} NodesFree(blocks: map<nat, Bytes>, nodes: seq<nat>)
    requires IsBlocks(blocks) && forall b :: b in nodes ==> b in blocks
    ensures forall b :: b in nodes ==> b in Chained(blocks, nodes)
  {
    if nodes != [] {
      var n := |nodes| - 1;
      NodesFree(blocks, nodes[..n]);
      assert nodes == nodes[..n] + [nodes[n]];
    }
  }

  // Writing into a block that is not free leaves the list alone.
  lemma FreeFrame(d: Disk, d': Disk, nodes: seq<nat>)
    requires FreeOk(d, nodes) && d'.nfree == d.nfree && d'.free == d.free && d'.last == d.last && IsBlocks(d'.blocks)
    requires d'.blocks.Keys == d.blocks.Keys && forall x :: x in Stack(d, nodes) ==> d'.blocks[x] == d.blocks[x]
    ensures FreeOk(d', nodes) && Stack(d', nodes) == Stack(d, nodes)
  {
    NodesFree(d.blocks, nodes);
    assert forall x :: x in nodes ==> x in Stack(d, nodes);
    ChainFrame(d.blocks, d'.blocks, d.last, nodes);
  }

  // The node written when the super block is full: its entries and the old last block.
  function NodeFrom(b: Bytes, free: seq<nat>, last: nat, i: nat): (r: Bytes)
    requires |b| == BLOCK_SIZE && |free| == NENTRIES && last < WORD && i <= NENTRIES
    requires forall k :: 0 <= k < NENTRIES ==> free[k] < WORD
    ensures |r| == BLOCK_SIZE
    decreases NENTRIES - i
  {
    if i == NENTRIES then WithWord(b, NENTRIES, last) else NodeFrom(WithWord(b, i, free[i]), free, last, i + 1)
  }

  lemma {:induction false} NodeWords(b: Bytes, free: seq<nat>, last: nat, i: nat, k: nat)
    requires |b| == BLOCK_SIZE && |free| == NENTRIES && last < WORD && i <= NENTRIES && k < NINDIRECT
    requires forall k :: 0 <= k < NENTRIES ==> free[k] < WORD
    ensures Word(NodeFrom(b, free, last, i), k) ==
            if i <= k < NENTRIES then free[k] else if k == NENTRIES then last else Word(b, k)
    decreases NENTRIES - i
  {
    hide Word, WithWord;
    if i == NENTRIES {
      WordWithWord(b, NENTRIES, last, k);
    } else {
      NodeWords(WithWord(b, i, free[i]), free, last, i + 1, k);
      WordWithWord(b, i, free[i], k);
    }
  }

  // Block.free and s5_free_block
  ghost function Freed(d: Disk, x: nat): Disk
    requires FreeShape(d) && x in d.blocks
  {
    if d.nfree < NENTRIES then d.(free := d.free[d.nfree := x], nfree := d.nfree + 1)
    else d.(blocks := d.blocks[x := NodeFrom(d.blocks[x], d.free, d.last, 0)], last := x, nfree := 0)
  }

  ghost function NodesFreed(d: Disk, nodes: seq<nat>, x: nat): seq<nat>
  {
    if d.nfree < NENTRIES then nodes else nodes + [x]
  }

  // Freeing a block pushes it.
  lemma FreedPushes(d: Disk, nodes: seq<nat>, x: nat)
    requires FreeOk(d, nodes) && x in d.blocks && x !in Stack(d, nodes)
    ensures FreeOk(Freed(d, x), NodesFreed(d, nodes, x))
    ensures Stack(Freed(d, x), NodesFreed(d, nodes, x)) == Stack(d, nodes) + [x]
  {
    hide IsChain, Chained, NoDup, Stack, Freed;
    if d.nfree < NENTRIES { PushEntry(d, nodes, x); } else { PushNode(d, nodes, x); }
  }

  lemma SnocNoDup(l: seq<nat>, x: nat)
    requires NoDup(l) && x !in l
    ensures NoDup(l + [x]) && forall b :: b in l + [x] <==> b in l || b == x
  {
  }

  lemma PushEntry(d: Disk, nodes: seq<nat>, x: nat)
    requires FreeOk(d, nodes) && x in d.blocks && x !in Stack(d, nodes) && d.nfree < NENTRIES
    ensures FreeOk(Freed(d, x), nodes) && Stack(Freed(d, x), nodes) == Stack(d, nodes) + [x]
  {
    hide IsChain, Chained, NoDup;
    var d' := Freed(d, x);
    SnocNoDup(Stack(d, nodes), x);
    assert d'.free[..d'.nfree] == d.free[..d.nfree] + [x];
    assert Stack(d', nodes) == Stack(d, nodes) + [x];
  }

  lemma PushNode(d: Disk, nodes: seq<nat>, x: nat)
    requires FreeOk(d, nodes) && x in d.blocks && x !in Stack(d, nodes) && d.nfree == NENTRIES
    ensures FreeOk(Freed(d, x), nodes + [x]) && Stack(Freed(d, x), nodes + [x]) == Stack(d, nodes) + [x]
  {
    hide Word, NodeFrom, NoDup, Chained, IsChain, Entries;
    var d', n := Freed(d, x), nodes + [x];
    SnocNoDup(Stack(d, nodes), x);
    NodesFree(d.blocks, nodes);
    ChainFrame(d.blocks, d'.blocks, d.last, nodes);
    NodeIs(d, x);
    ChainSnoc(d'.blocks, d.last, nodes, x);
    assert d.free[..NENTRIES] == d.free && d'.free[..0] == [];
    assert Stack(d', n) == Stack(d, nodes) + [x];
  }

  lemma ChainSnoc(blocks: map<nat, Bytes>, b: nat, nodes: seq<nat>, x: nat)
    requires IsChain(blocks, b, nodes) && x in blocks && Word(blocks[x], NENTRIES) == b
    ensures IsChain(blocks, x, nodes + [x])
            && Chained(blocks, nodes + [x]) == Chained(blocks, nodes) + Entries(blocks[x]) + [x]
  {
    hide Word, Entries;
    assert (nodes + [x])[..|nodes|] == nodes;
  }

  lemma NodeIs(d: Disk, x: nat)
    requires FreeShape(d) && x in d.blocks
    ensures var b := NodeFrom(d.blocks[x], d.free, d.last, 0); Entries(b) == d.free && Word(b, NENTRIES) == d.last
  {
    hide Word, NodeFrom;
    var b := NodeFrom(d.blocks[x], d.free, d.last, 0);
    forall k | 0 <= k <= NENTRIES ensures Word(b, k) == if k < NENTRIES then d.free[k] else d.last {
      NodeWords(d.blocks[x], d.free, d.last, 0, k);
    }
  }

  // Simdisk.alloc_block, where there is a free block
  ghost function Taken(d: Disk): (Disk, nat)
    requires FreeShape(d) && (d.nfree == 0 ==> d.last in d.blocks)
  {
    if d.nfree > 0 then (d.(nfree := d.nfree - 1), d.free[d.nfree - 1])
    else (d.(free := Entries(d.blocks[d.last]), last := Word(d.blocks[d.last], NENTRIES), nfree := NENTRIES), d.last)
  }

  ghost function NodesTaken(d: Disk, nodes: seq<nat>): seq<nat>
  {
    if d.nfree > 0 || nodes == [] then nodes else nodes[..|nodes| - 1]
  }

  // There is none exactly if the stack is empty, and else allocating pops it.
  lemma TakenPops(d: Disk, nodes: seq<nat>)
    requires FreeOk(d, nodes)
    ensures d.nfree == 0 && d.last == END <==> Stack(d, nodes) == []
    ensures Stack(d, nodes) != [] ==>
              && (d.nfree == 0 ==> d.last in d.blocks)
              && FreeOk(Taken(d).0, NodesTaken(d, nodes))
              && Stack(Taken(d).0, NodesTaken(d, nodes)) + [Taken(d).1] == Stack(d, nodes)
  {
    hide Word;
    var l := Stack(d, nodes);
    if d.nfree > 0 {
      assert d.free[..d.nfree] == d.free[..d.nfree - 1] + [d.free[d.nfree - 1]];
      PopNoDup(l, Stack(Taken(d).0, nodes), Taken(d).1);
    } else if nodes != [] {
      var n := |nodes| - 1;
      assert d.free[..0] == [];
      assert nodes == nodes[..n] + [nodes[n]];
      var d' := Taken(d).0;
      assert d'.free[..NENTRIES] == d'.free;
      assert Stack(d', nodes[..n]) + [d.last] == l;
      PopNoDup(l, Stack(d', nodes[..n]), d.last);
    }
  }

  lemma PopNoDup(l: seq<nat>, m: seq<nat>, x: nat)
    requires NoDup(l) && l == m + [x]
    ensures NoDup(m) && x !in m && forall b :: b in l <==> b in m || b == x
  {
    forall i, j | 0 <= i < j < |m| ensures m[i] != m[j] {
      assert l[i] == m[i] && l[j] == m[j];
    }
    forall i | 0 <= i < |m| ensures m[i] != x {
      assert l[i] == m[i] && l[|m|] == x;
    }
  }

  // Freeing a block and then allocating one gives the same block and the same list back,
  // across a full super block too.
  lemma FreedThenTaken(d: Disk, nodes: seq<nat>, x: nat)
    requires FreeOk(d, nodes) && x in d.blocks && x !in Stack(d, nodes)
    ensures var d' := Freed(d, x); var n := NodesFreed(d, nodes, x);
            && (d'.nfree == 0 ==> d'.last in d'.blocks) && FreeOk(Taken(d').0, NodesTaken(d', n))
            && Taken(d').1 == x && Stack(Taken(d').0, NodesTaken(d', n)) == Stack(d, nodes)
  {
    hide Freed, Taken, Stack, IsChain, Chained, NoDup, NodesFreed, NodesTaken;
    FreedPushes(d, nodes, x);
    var d', n := Freed(d, x), NodesFreed(d, nodes, x);
    TakenPops(d', n);
    SnocInjective(Stack(Taken(d').0, NodesTaken(d', n)), Taken(d').1, Stack(d, nodes), x);
  }

  lemma SnocInjective(l: seq<nat>, x: nat, m: seq<nat>, y: nat)
    requires l + [x] == m + [y]
    ensures l == m && x == y
  {
    var k := l + [x];
    assert |l| == |m| && k[|l|] == x && k[|m|] == y;
    assert l == k[..|l|] && m == k[..|m|];
  }
}
