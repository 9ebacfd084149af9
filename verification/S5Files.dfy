/**
 Files on the S5 disk: reading and writing through direct, indirect and sparse blocks
 (tools/fsmaker/api.py), and freeing an inode (kernel/fs/s5fs/s5fs_subr.c). Every data block
 is free once or belongs to exactly one slot of one file.
 */
module S5Files {
  import opened Lists
  import opened Words
  import opened S5Disk

  // ---------- which block is where ----------

  ghost predicate IsFile(d: Disk, ino: nat)
  {
    ino in d.inodes && (d.inodes[ino].kind == DATA || d.inodes[ino].kind == DIR)
  }

  ghost predicate InodesOk(d: Disk)
  {
    forall i :: i in d.inodes ==> |d.inodes[i].direct| == NDIRECT
  }

  // Slots 0 to MAX_BLOCKS - 1 of a file are its blocks, slot MAX_BLOCKS its indirect block.
  ghost function Slot(d: Disk, ino: nat, k: nat): nat
  {
    if ino in d.inodes then SlotOf(d.inodes[ino], d.blocks, k) else 0
  }

  ghost function SlotOf(x: Inode, blocks: map<nat, Bytes>, k: nat): nat
  {
    if k < NDIRECT then if k < |x.direct| then x.direct[k] else 0
    else if k == MAX_BLOCKS then x.indirect
    else if x.indirect == 0 || x.indirect !in blocks then 0
    else Word(blocks[x.indirect], k - NDIRECT)
  }

  ghost predicate Uses(d: Disk, ino: nat, k: nat, b: nat)
  {
    IsFile(d, ino) && k <= MAX_BLOCKS && Slot(d, ino, k) == b && b != 0
  }

  // Each block is on the free list, or has exactly one slot.
  ghost predicate DiskOk(d: Disk, nodes: seq<nat>)
  {
    && FreeOk(d, nodes) && InodesOk(d)
    && (forall i, k, b :: Uses(d, i, k, b) ==> b in d.blocks && b !in Stack(d, nodes))
    && (forall i, k, j, l, b :: Uses(d, i, k, b) && Uses(d, j, l, b) ==> i == j && k == l)
    && (forall b :: b in d.blocks && b !in Stack(d, nodes) ==> exists i, k :: Uses(d, i, k, b))
  }

  // The byte at an offset of a file; holes are zero.
  ghost function ByteAt(d: Disk, ino: nat, off: nat): Byte
  {
    BlockByte(d, Slot(d, ino, off / BLOCK_SIZE), off % BLOCK_SIZE)
  }

  ghost function BlockByte(d: Disk, b: nat, i: nat): Byte
  {
    if b == 0 || b !in d.blocks || |d.blocks[b]| <= i then 0 else d.blocks[b][i]
  }

  // Where that byte is on the disk: 28 blocks of 4096 bytes are named in the inode, and those
  // after them by the words of the indirect block.
  lemma ByteWhere(d: Disk, ino: nat, off: nat)
    requires ino in d.inodes && |d.inodes[ino].direct| == 28 && off < 4308992
    ensures var x, k := d.inodes[ino], off / 4096;
            var table := if x.indirect != 0 && x.indirect in d.blocks then d.blocks[x.indirect] else [];
            var w := 4 * (k - 28);
            var b := if k < 28 then x.direct[k]
                     else if w + 4 <= |table| then table[w] as int + 0x100 * table[w + 1] as int
                                                   + 0x1_0000 * table[w + 2] as int + 0x100_0000 * table[w + 3] as int
                     else 0;
            ByteAt(d, ino, off)
            == if b != 0 && b in d.blocks && off % 4096 < |d.blocks[b]| then d.blocks[b][off % 4096] else 0
  {
    hide Decode;
  }

  // All files have the same bytes, sizes and kinds.
  ghost predicate SameFiles(d: Disk, d': Disk)
  {
    && d'.inodes.Keys == d.inodes.Keys && d'.freeInode == d.freeInode
    && (forall i :: i in d.inodes ==> d'.inodes[i].kind == d.inodes[i].kind && d'.inodes[i].size == d.inodes[i].size)
    && forall i, off :: IsFile(d, i) && 0 <= off < MAX_SIZE ==> ByteAt(d', i, off) == ByteAt(d, i, off)
  }

  // ---------- a block goes from the free list to an empty slot ----------

  lemma Grown(d: Disk, nodes: seq<nat>, d': Disk, nodes': seq<nat>, ino: nat, k: nat, b: nat)
    requires DiskOk(d, nodes) && FreeOk(d', nodes') && InodesOk(d')
    requires Stack(d', nodes') + [b] == Stack(d, nodes) && d'.blocks.Keys == d.blocks.Keys
    requires forall x :: !Uses(d, ino, k, x)
    requires forall i, j, x :: Uses(d', i, j, x) <==> Uses(d, i, j, x) || (i == ino && j == k && x == b)
    ensures DiskOk(d', nodes')
  {
    hide FreeOk, Uses, Stack, NoDup;
    var l := Stack(d', nodes');
    assert forall x :: x in Stack(d, nodes) <==>
           x in l || x == b by { assert forall x :: x in l + [b] <==> x in l || x == b; }
    assert b !in l by { StackNoDup(d, nodes); PopNoDup(Stack(d, nodes), l, b); }
    forall x | x in d'.blocks && x !in l ensures exists i, j :: Uses(d', i, j, x) {
      if x == b {
        assert Uses(d', ino, k, b);
      } else {
        var i, j :| Uses(d, i, j, x);
        assert Uses(d', i, j, x);
      }
    }
    StackIn(d, nodes);
  }

  lemma StackNoDup(d: Disk, nodes: seq<nat>)
    requires FreeOk(d, nodes)
    ensures NoDup(Stack(d, nodes))
  {
  }

  lemma StackIn(d: Disk, nodes: seq<nat>)
    requires FreeOk(d, nodes)
    ensures forall b :: b in Stack(d, nodes) ==> b in d.blocks
  {
  }

  // A file's indirect block is one of its slots.
  lemma IndirectUsed(d: Disk, nodes: seq<nat>, i: nat)
    requires DiskOk(d, nodes) && IsFile(d, i) && d.inodes[i].indirect != 0
    ensures Uses(d, i, MAX_BLOCKS, d.inodes[i].indirect)
    ensures d.inodes[i].indirect in d.blocks && d.inodes[i].indirect !in Stack(d, nodes)
  {
    hide FreeOk;
    assert Uses(d, i, MAX_BLOCKS, d.inodes[i].indirect);
  }

  lemma UsedOnce(d: Disk, nodes: seq<nat>, i: nat, k: nat, j: nat, l: nat, b: nat)
    requires DiskOk(d, nodes) && Uses(d, i, k, b) && Uses(d, j, l, b)
    ensures i == j && k == l && b in d.blocks && b !in Stack(d, nodes)
  {
    hide FreeOk, Uses, Stack;
  }

  // Slots depend on the inode and the indirect block alone.
  lemma SlotSame(d: Disk, d': Disk, i: nat, k: nat)
    requires i in d.inodes && i in d'.inodes && d'.inodes[i] == d.inodes[i] && d'.blocks.Keys == d.blocks.Keys
    requires d.inodes[i].indirect in d.blocks && d.inodes[i].indirect != 0 ==>
               d'.blocks[d.inodes[i].indirect] == d.blocks[d.inodes[i].indirect]
    ensures Slot(d', i, k) == Slot(d, i, k)
  {
  }

  // A block is taken off the free list and cleared.
  ghost function Fresh(d: Disk): (Disk, nat)
    requires FreeShape(d) && (d.nfree == 0 ==> d.last in d.blocks)
  {
    var (d1, b) := Taken(d);
    (d1.(blocks := d1.blocks[b := Zeros()]), b)
  }

  lemma FreshOk(d: Disk, nodes: seq<nat>)
    requires DiskOk(d, nodes) && Stack(d, nodes) != []
    ensures d.nfree == 0 ==> d.last in d.blocks
    ensures var (d2, b) := Fresh(d);
            && FreeOk(d2, NodesTaken(d, nodes)) && Stack(d2, NodesTaken(d, nodes)) + [b] == Stack(d, nodes)
            && d2.inodes == d.inodes && d2.freeInode == d.freeInode && d2.blocks == d.blocks[b := Zeros()]
               && b in d.blocks
            && b in Stack(d, nodes) && 0 < b < END
  {
    hide IsChain, Chained, NoDup, Uses, Zeros, Entries, Word;
    TakenPops(d, nodes);
    var (d1, b) := Taken(d);
    var n := NodesTaken(d, nodes);
    StackNoDup(d, nodes);
    PopNoDup(Stack(d, nodes), Stack(d1, n), b);
    assert d1.blocks == d.blocks;
    FreeFrame(d1, Fresh(d).0, n);
  }

  // Nothing that a file uses is on the free list.
  lemma FreshSlots(d: Disk, nodes: seq<nat>, d2: Disk, b: nat, i: nat, k: nat)
    requires DiskOk(d, nodes) && b in Stack(d, nodes) && b in d.blocks && d2.inodes == d.inodes
    requires d2.blocks == d.blocks[b := Zeros()]
    requires IsFile(d, i)
    ensures Slot(d2, i, k) == Slot(d, i, k)
    ensures k <= MAX_BLOCKS ==> Slot(d, i, k) != b || b == 0
  {
    hide FreeOk, Stack, Zeros;
    if d.inodes[i].indirect != 0 { IndirectUsed(d, nodes, i); }
    SlotSame(d, d2, i, k);
    assert k <= MAX_BLOCKS && Slot(d, i, k) != 0 ==> Uses(d, i, k, Slot(d, i, k));
  }

  // The slot of ino at k, empty before, holds the cleared block b; nothing else has changed.
  ghost predicate Attached(d: Disk, d': Disk, ino: nat, k: nat, b: nat)
  {
    && IsFile(d, ino) && k <= MAX_BLOCKS && Slot(d, ino, k) == 0 && b != 0 && b in d.blocks
    && d'.inodes.Keys == d.inodes.Keys && d'.blocks.Keys == d.blocks.Keys && d'.freeInode == d.freeInode
    && (forall i :: i in d.inodes && i != ino ==> d'.inodes[i] == d.inodes[i])
    && d'.inodes[ino] == d.inodes[ino].(direct := d'.inodes[ino].direct, indirect := d'.inodes[ino].indirect)
    && (forall i, j: nat :: IsFile(d, i) && j <= MAX_BLOCKS ==>
        Slot(d', i, j) == if i == ino && j == k then b else Slot(d, i, j))
    && d'.blocks[b] == Zeros()
    && (forall i, j: nat, x :: Uses(d, i, j, x) && j < MAX_BLOCKS && x in d.blocks ==> d'.blocks[x] == d.blocks[x])
  }

  lemma AttachedOk(d: Disk, nodes: seq<nat>, d': Disk, nodes': seq<nat>, ino: nat, k: nat, b: nat)
    requires DiskOk(d, nodes) && FreeOk(d', nodes') && InodesOk(d') && Attached(d, d', ino, k, b)
    requires Stack(d', nodes') + [b] == Stack(d, nodes)
    ensures DiskOk(d', nodes') && SameFiles(d, d')
  {
    hide FreeOk, Slot, Stack, NoDup, Zeros;
    forall i, j, x ensures Uses(d', i, j, x) <==> Uses(d, i, j, x) || (i == ino && j == k && x == b) {
      assert IsFile(d', i) <==> IsFile(d, i);
    }
    Grown(d, nodes, d', nodes', ino, k, b);
    forall i, off | IsFile(d, i) && 0 <= off < MAX_SIZE ensures ByteAt(d', i, off) == ByteAt(d, i, off) {
      AttachedByte(d, nodes, d', ino, k, b, i, off);
    }
  }

  lemma AttachedByte(d: Disk, nodes: seq<nat>, d': Disk, ino: nat, k: nat, b: nat, i: nat, off: nat)
    requires DiskOk(d, nodes) && Attached(d, d', ino, k, b) && IsFile(d, i) && off < MAX_SIZE
    ensures ByteAt(d', i, off) == ByteAt(d, i, off)
  {
    hide FreeOk, Slot, Stack, NoDup, Zeros;
    var j := off / BLOCK_SIZE;
    var x := Slot(d, i, j);
    assert j < MAX_BLOCKS;
    if x != 0 {
      assert Uses(d, i, j, x);
    }
  }

  // ---------- the three ways to fill a slot ----------

  function SetDirect(d: Disk, ino: nat, k: nat, b: nat): Disk
    requires ino in d.inodes && k < |d.inodes[ino].direct|
  {
    d.(inodes := d.inodes[ino := d.inodes[ino].(direct := d.inodes[ino].direct[k := b])])
  }

  function SetIndirect(d: Disk, ino: nat, b: nat): Disk
    requires ino in d.inodes
  {
    d.(inodes := d.inodes[ino := d.inodes[ino].(indirect := b)])
  }

  function SetEntry(d: Disk, t: nat, i: nat, b: nat): Disk
    requires t in d.blocks && |d.blocks[t]| == BLOCK_SIZE && i < NINDIRECT && b < WORD
  {
    d.(blocks := d.blocks[t := WithWord(d.blocks[t], i, b)])
  }

  // What clearing a free block leaves of the files.
  ghost predicate Cleared(d: Disk, nodes: seq<nat>, d2: Disk, nodes2: seq<nat>, b: nat)
  {
    && FreeOk(d2, nodes2) && Stack(d2, nodes2) + [b] == Stack(d, nodes) && d2.inodes == d.inodes
       && d2.freeInode == d.freeInode
    && b in d.blocks && b in Stack(d, nodes) && 0 < b < END && d2.blocks == d.blocks[b := Zeros()]
  }

  // A free block is not in use.
  lemma ClearedBlocks(d: Disk, nodes: seq<nat>, d2: Disk, nodes2: seq<nat>, b: nat, i: nat, j: nat, x: nat)
    requires DiskOk(d, nodes) && Cleared(d, nodes, d2, nodes2, b) && Uses(d, i, j, x)
    ensures x != b && x in d.blocks && d2.blocks[x] == d.blocks[x] && x !in Stack(d2, nodes2)
  {
    hide FreeOk, Slot, Stack, NoDup, Zeros;
    assert x !in Stack(d, nodes);
    assert forall y :: y in Stack(d2, nodes2) ==> y in Stack(d2, nodes2) + [b];
  }

  lemma ClearedSlots(d: Disk, nodes: seq<nat>, d2: Disk, nodes2: seq<nat>, b: nat, i: nat, k: nat)
    requires DiskOk(d, nodes) && Cleared(d, nodes, d2, nodes2, b) && IsFile(d, i)
    ensures Slot(d2, i, k) == Slot(d, i, k)
  {
    hide FreeOk, Stack, DiskOk, Zeros;
    FreshSlots(d, nodes, d2, b, i, k);
  }

  lemma FreeOkShape(d: Disk, nodes: seq<nat>)
    requires FreeOk(d, nodes)
    ensures IsBlocks(d.blocks)
  {
  }

  lemma DirectAttached(d: Disk, nodes: seq<nat>, d2: Disk, nodes2: seq<nat>, b: nat, ino: nat, k: nat)
    requires DiskOk(d, nodes) && Cleared(d, nodes, d2, nodes2, b) && IsFile(d, ino) && k < NDIRECT
    requires Slot(d, ino, k) == 0
    ensures ino in d2.inodes && k < |d2.inodes[ino].direct|
    ensures var d' := SetDirect(d2, ino, k, b);
            FreeOk(d', nodes2) && InodesOk(d') && Attached(d, d', ino, k, b)
                && Stack(d', nodes2) + [b] == Stack(d, nodes)
  {
    hide FreeOk, Slot, Stack, NoDup, Zeros;
    var d' := SetDirect(d2, ino, k, b);
    FreeOkShape(d2, nodes2);
    FreeFrame(d2, d', nodes2);
    forall i, j: nat | IsFile(d, i) && j <= MAX_BLOCKS
      ensures Slot(d', i, j) == if i == ino && j == k then b else Slot(d, i, j)
    {
      ClearedSlots(d, nodes, d2, nodes2, b, i, j);
      DirectSlot(d2, ino, k, b, i, j);
    }
    forall i, j: nat, x | Uses(d, i, j, x) && j < MAX_BLOCKS && x in d.blocks ensures d'.blocks[x] == d.blocks[x] {
      ClearedBlocks(d, nodes, d2, nodes2, b, i, j, x);
    }
  }

  lemma DirectSlot(d: Disk, ino: nat, k: nat, b: nat, i: nat, j: nat)
    requires ino in d.inodes && k < NDIRECT == |d.inodes[ino].direct|
    ensures Slot(SetDirect(d, ino, k, b), i, j) == if i == ino && j == k then b else Slot(d, i, j)
  {
  }

  lemma IndirectAttached(d: Disk, nodes: seq<nat>, d2: Disk, nodes2: seq<nat>, b: nat, ino: nat)
    requires DiskOk(d, nodes) && Cleared(d, nodes, d2, nodes2, b) && IsFile(d, ino) && d.inodes[ino].indirect == 0
    ensures ino in d2.inodes
    ensures var d' := SetIndirect(d2, ino, b);
            FreeOk(d', nodes2) && InodesOk(d') && Attached(d, d', ino, MAX_BLOCKS, b)
                && Stack(d', nodes2) + [b] == Stack(d, nodes)
  {
    hide FreeOk, Slot, Stack, NoDup, Zeros;
    var d' := SetIndirect(d2, ino, b);
    FreeOkShape(d2, nodes2);
    FreeFrame(d2, d', nodes2);
    NoIndirect(d, ino);
    forall i, j: nat | IsFile(d, i) && j <= MAX_BLOCKS
      ensures Slot(d', i, j) == if i == ino && j == MAX_BLOCKS then b else Slot(d, i, j)
    {
      ClearedSlots(d, nodes, d2, nodes2, b, i, j);
      IndirectSlot(d2, ino, b, i, j);
    }
    forall i, j: nat, x | Uses(d, i, j, x) && j < MAX_BLOCKS && x in d.blocks ensures d'.blocks[x] == d.blocks[x] {
      ClearedBlocks(d, nodes, d2, nodes2, b, i, j, x);
    }
  }

  lemma NoIndirect(d: Disk, ino: nat)
    requires ino in d.inodes && d.inodes[ino].indirect == 0
    ensures Slot(d, ino, MAX_BLOCKS) == 0
  {
  }

  lemma IndirectSlot(d: Disk, ino: nat, b: nat, i: nat, j: nat)
    requires ino in d.inodes && d.inodes[ino].indirect == 0 && b in d.blocks && d.blocks[b] == Zeros()
    requires j <= MAX_BLOCKS
    ensures Slot(SetIndirect(d, ino, b), i, j) == if i == ino && j == MAX_BLOCKS then b else Slot(d, i, j)
  {
    hide Zeros, Word;
    if i == ino && NDIRECT <= j < MAX_BLOCKS { WordZeros(j - NDIRECT); }
  }

  lemma EntryAttached(d: Disk, nodes: seq<nat>, d2: Disk, nodes2: seq<nat>, b: nat, ino: nat, k: nat)
    requires DiskOk(d, nodes) && Cleared(d, nodes, d2, nodes2, b) && IsFile(d, ino) && NDIRECT <= k < MAX_BLOCKS
    requires Slot(d, ino, k) == 0 && d.inodes[ino].indirect != 0
    ensures var t := d.inodes[ino].indirect;
            && t in d2.blocks && |d2.blocks[t]| == BLOCK_SIZE
            && var d' := SetEntry(d2, t, k - NDIRECT, b);
               FreeOk(d', nodes2) && InodesOk(d') && Attached(d, d', ino, k, b)
                   && Stack(d', nodes2) + [b] == Stack(d, nodes)
  {
    hide FreeOk, Slot, Stack, NoDup, Zeros, WithWord;
    var t := d.inodes[ino].indirect;
    FreeOkShape(d2, nodes2);
    IndirectUsed(d, nodes, ino);
    ClearedBlocks(d, nodes, d2, nodes2, b, ino, MAX_BLOCKS, t);
    var d' := SetEntry(d2, t, k - NDIRECT, b);
    FreeFrame(d2, d', nodes2);
    forall i, j: nat | IsFile(d, i) && j <= MAX_BLOCKS
      ensures Slot(d', i, j) == if i == ino && j == k then b else Slot(d, i, j)
    {
      ClearedSlots(d, nodes, d2, nodes2, b, i, j);
      if i != ino && d.inodes[i].indirect != 0 {
        IndirectUsed(d, nodes, i);
        assert d.inodes[i].indirect != t;
      }
      EntrySlot(d2, ino, k, b, i, j);
    }
    forall i, j: nat, x | Uses(d, i, j, x) && j < MAX_BLOCKS && x in d.blocks ensures d'.blocks[x] == d.blocks[x] {
      ClearedBlocks(d, nodes, d2, nodes2, b, i, j, x);
      assert x != t;
    }
  }

  lemma EntrySlot(d: Disk, ino: nat, k: nat, b: nat, i: nat, j: nat)
    requires ino in d.inodes && NDIRECT <= k < MAX_BLOCKS && b < WORD && j <= MAX_BLOCKS
    requires var t := d.inodes[ino].indirect; t != 0 && t in d.blocks && |d.blocks[t]| == BLOCK_SIZE
    requires i in d.inodes && i != ino && d.inodes[i].indirect != 0 ==> d.inodes[i].indirect != d.inodes[ino].indirect
    ensures Slot(SetEntry(d, d.inodes[ino].indirect, k - NDIRECT, b), i, j)
            == if i == ino && j == k then b else Slot(d, i, j)
  {
    hide WithWord, Word;
    if i == ino && NDIRECT <= j < MAX_BLOCKS {
                                              WordWithWord(d.blocks[d.inodes[ino].indirect], k - NDIRECT, b,
                                                           j - NDIRECT); }
  }

  // ---------- writing into a block ----------

  function BlockWritten(d: Disk, b: nat, off: nat, data: Bytes): Disk
    requires b in d.blocks && off + |data| <= |d.blocks[b]|
  {
    d.(blocks := d.blocks[b := Spliced(d.blocks[b], off, data)])
  }

  lemma BlockWrittenSlots(d: Disk, nodes: seq<nat>, ino: nat, k: nat, b: nat, off: nat, data: Bytes, i: nat, j: nat)
    requires DiskOk(d, nodes) && Uses(d, ino, k, b) && k < MAX_BLOCKS && b in d.blocks && off + |data| <= |d.blocks[b]|
    requires IsFile(d, i)
    ensures Slot(BlockWritten(d, b, off, data), i, j) == Slot(d, i, j)
  {
    hide FreeOk, Stack, NoDup, Spliced;
    if d.inodes[i].indirect != 0 {
      IndirectUsed(d, nodes, i);
      assert d.inodes[i].indirect != b;
    }
    SlotSame(d, BlockWritten(d, b, off, data), i, j);
  }

  lemma BlockWrittenOk(d: Disk, nodes: seq<nat>, ino: nat, k: nat, b: nat, off: nat, data: Bytes)
    requires DiskOk(d, nodes) && Uses(d, ino, k, b) && k < MAX_BLOCKS && b in d.blocks && off + |data| <= |d.blocks[b]|
    ensures DiskOk(BlockWritten(d, b, off, data), nodes)
  {
    hide FreeOk, Slot, Stack, NoDup, Spliced;
    var d' := BlockWritten(d, b, off, data);
    FreeOkShape(d, nodes);
    assert b !in Stack(d, nodes);
    FreeFrame(d, d', nodes);
    forall i, j, x ensures Uses(d', i, j, x) <==> Uses(d, i, j, x) {
      if IsFile(d, i) { BlockWrittenSlots(d, nodes, ino, k, b, off, data, i, j); }
    }
    forall x | x in d'.blocks && x !in Stack(d', nodes) ensures exists i, j :: Uses(d', i, j, x) {
      var i, j :| Uses(d, i, j, x);
      assert Uses(d', i, j, x);
    }
  }

  lemma BlockWrittenByte(d: Disk, nodes: seq<nat>, ino: nat, k: nat, b: nat, off: nat, data: Bytes, i: nat, o: nat)
    requires DiskOk(d, nodes) && Uses(d, ino, k, b) && k < MAX_BLOCKS && b in d.blocks
    requires off + |data| <= |d.blocks[b]| == BLOCK_SIZE
    requires IsFile(d, i) && o < MAX_SIZE
    ensures ByteAt(BlockWritten(d, b, off, data), i, o) ==
            if i == ino && k * BLOCK_SIZE + off <= o < k * BLOCK_SIZE + off + |data| then
              data[o - k * BLOCK_SIZE - off]
            else ByteAt(d, i, o)
  {
    hide FreeOk, Slot, Stack, NoDup;
    var j := o / BLOCK_SIZE;
    BlockWrittenSlots(d, nodes, ino, k, b, off, data, i, j);
    assert o == j * BLOCK_SIZE + o % BLOCK_SIZE;
    var x := Slot(d, i, j);
    if x == b {
      assert Uses(d, i, j, b);
      UsedOnce(d, nodes, ino, k, i, j, b);
    } else {
      assert i == ino ==> j != k;
    }
  }

  // The bytes of ino from off on are data; all other bytes, sizes and kinds are as before.
  ghost predicate SplicedFile(d: Disk, d': Disk, ino: nat, off: nat, data: Bytes)
  {
    && d'.inodes.Keys == d.inodes.Keys && d'.freeInode == d.freeInode
    && (forall i :: i in d.inodes ==> d'.inodes[i].kind == d.inodes[i].kind && d'.inodes[i].size == d.inodes[i].size)
    && (forall i, o :: IsFile(d, i) && 0 <= o < MAX_SIZE ==>
          ByteAt(d', i, o) == if i == ino && off <= o < off + |data| then data[o - off] else ByteAt(d, i, o))
  }

  lemma SplicedMore(d: Disk, c: Disk, nodes': seq<nat>, ino: nat, off: nat, data: Bytes, k: nat, b: nat, more: Bytes)
    requires IsFile(d, ino) && SplicedFile(d, c, ino, off, data) && DiskOk(c, nodes') && Uses(c, ino, k, b)
    requires k < MAX_BLOCKS
    requires k * BLOCK_SIZE <= off + |data| && b in c.blocks && |c.blocks[b]| == BLOCK_SIZE
    requires off + |data| - k * BLOCK_SIZE + |more| <= BLOCK_SIZE
    ensures SplicedFile(d, BlockWritten(c, b, off + |data| - k * BLOCK_SIZE, more), ino, off, data + more)
  {
    hide FreeOk, Slot, Stack, NoDup, Spliced, ByteAt, DiskOk, Uses;
    var at := off + |data| - k * BLOCK_SIZE;
    var c' := BlockWritten(c, b, at, more);
    forall i, o | IsFile(d, i) && 0 <= o < MAX_SIZE
      ensures ByteAt(c', i, o)
              == if i == ino && off <= o < off + |data + more| then (data + more)[o - off] else ByteAt(d, i, o)
    {
      assert IsFile(c, i);
      BlockWrittenByte(c, nodes', ino, k, b, at, more, i, o);
    }
  }

  // ---------- contents ----------

  ghost function Contents(d: Disk, ino: nat, n: nat): Bytes { seq(n, o requires o >= 0 => ByteAt(d, ino, o)) }

  // Past its size a file has no bytes but zero.
  ghost predicate ZeroTail(d: Disk)
  {
    forall i, o :: IsFile(d, i) && d.inodes[i].size <= o < MAX_SIZE ==> ByteAt(d, i, o) == 0
  }

  function ZeroExtended(s: Bytes, n: nat): Bytes { if |s| < n then s + seq(n - |s|, _ => 0) else s }

  // ---------- how many blocks a write takes ----------

  // The blocks that slot k of a file lacks, the indirect block included.
  ghost function Lacks(d: Disk, ino: nat, k: nat): nat
  {
    (if Slot(d, ino, k) == 0 then 1 else 0) + (if k >= NDIRECT && Slot(d, ino, MAX_BLOCKS) == 0 then 1 else 0)
  }

  ghost function Holes(d: Disk, ino: nat, lo: nat, hi: nat): nat
    decreases hi - lo
  {
    if lo >= hi then 0 else (if Slot(d, ino, lo) == 0 then 1 else 0) + Holes(d, ino, lo + 1, hi)
  }

  // The blocks that slots lo to hi - 1 lack.
  ghost function Need(d: Disk, ino: nat, lo: nat, hi: nat): nat
  {
    Holes(d, ino, lo, hi) + (if lo < hi && hi > NDIRECT && Slot(d, ino, MAX_BLOCKS) == 0 then 1 else 0)
  }

  // The blocks that the bytes from off on, n of them, lack.
  ghost function Needed(d: Disk, ino: nat, off: nat, n: nat): nat
  {
    if n == 0 then 0 else Need(d, ino, off / BLOCK_SIZE, (off + n - 1) / BLOCK_SIZE + 1)
  }

  // Slot k may have been filled, and the indirect block it takes is there.
  ghost predicate OnlyFills(d: Disk, d': Disk, ino: nat, k: nat)
  {
    && (forall j: nat :: j < MAX_BLOCKS && j != k ==> Slot(d', ino, j) == Slot(d, ino, j))
    && (Slot(d', ino, MAX_BLOCKS) == 0 <==> Slot(d, ino, MAX_BLOCKS) == 0 && k < NDIRECT)
  }

  lemma {:induction false} HolesSnoc(d: Disk, ino: nat, lo: nat, hi: nat)
    requires lo <= hi
    ensures Holes(d, ino, lo, hi + 1) == Holes(d, ino, lo, hi) + if Slot(d, ino, hi) == 0 then 1 else 0
    decreases hi - lo
  {
    hide Slot;
    if lo < hi { HolesSnoc(d, ino, lo + 1, hi); }
  }

  // A write from slot lo on has come to slot k of file ino, and the disk is now c.
  ghost predicate FilledTo(d: Disk, c: Disk, ino: nat, lo: nat, k: nat)
  {
    && (forall j: nat :: k <= j < MAX_BLOCKS ==> Slot(c, ino, j) == Slot(d, ino, j))
    && (Slot(c, ino, MAX_BLOCKS) == 0 <==> Slot(d, ino, MAX_BLOCKS) == 0 && !(lo < k && NDIRECT < k))
  }

  lemma NeedNext(d: Disk, c: Disk, ino: nat, lo: nat, k: nat)
    requires lo <= k < MAX_BLOCKS && FilledTo(d, c, ino, lo, k)
    ensures Need(d, ino, lo, k + 1) == Need(d, ino, lo, k) + Lacks(c, ino, k)
  {
    hide Slot, Holes;
    HolesSnoc(d, ino, lo, k);
  }

  lemma FilledNext(d: Disk, c: Disk, e: Disk, ino: nat, lo: nat, k: nat)
    requires lo <= k < MAX_BLOCKS && FilledTo(d, c, ino, lo, k) && OnlyFills(c, e, ino, k)
    ensures FilledTo(d, e, ino, lo, k + 1)
  {
    hide Slot;
  }

  lemma {:induction false} NeedGrows(d: Disk, ino: nat, lo: nat, a: nat, b: nat)
    requires lo <= a <= b
    ensures Need(d, ino, lo, a) <= Need(d, ino, lo, b)
    decreases b - a
  {
    hide Slot, Holes;
    if a < b {
      HolesSnoc(d, ino, lo, b - 1);
      NeedGrows(d, ino, lo, a, b - 1);
    }
  }

  // How much of a write gets done with so many free blocks: up to the first block that cannot
  // be had.
  ghost predicate StopsAt(d: Disk, ino: nat, off: nat, done: nat, available: nat)
  {
    var k := (off + done) / BLOCK_SIZE;
    && (done == 0 || (off + done) % BLOCK_SIZE == 0)
    && Need(d, ino, off / BLOCK_SIZE, k) <= available < Need(d, ino, off / BLOCK_SIZE, k + 1)
  }

  // Which block a turn of the loop of write is in, and what the next one is.
  lemma NextBlock(off: nat, remaining: nat, amount: nat, end: nat)
    requires remaining > 0 && end == off + remaining <= MAX_SIZE
    requires amount == if BLOCK_SIZE - off % BLOCK_SIZE < remaining then BLOCK_SIZE - off % BLOCK_SIZE else remaining
    ensures off / BLOCK_SIZE < (end - 1) / BLOCK_SIZE + 1 <= MAX_BLOCKS
    ensures amount < remaining ==> (off + amount) / BLOCK_SIZE == off / BLOCK_SIZE + 1
    ensures amount == remaining ==> off / BLOCK_SIZE == (end - 1) / BLOCK_SIZE
  {
  }

  // The bytes of a file after data has been stored: extended with zeros up to where the data
  // ends, with the data in place.
  function Stored(b: Bytes, off: nat, data: Bytes): Bytes
  {
    Spliced(ZeroExtended(b, if off + |data| > |b| then off + |data| else |b|), off, data)
  }

  // Byte by byte: the data where they were put, zeros in a gap before them, and else the old.
  lemma StoredExact(b: Bytes, off: nat, data: Bytes)
    ensures |Stored(b, off, data)| == if off + |data| > |b| then off + |data| else |b|
    ensures forall k :: 0 <= k < |Stored(b, off, data)| ==>
              Stored(b, off, data)[k] == if off <= k < off + |data| then data[k - off] else if k < |b| then b[k] else 0
  {
  }

  // d' is d after a write of data at off into file ino that has succeeded.
  ghost predicate Wrote(d: Disk, d': Disk, ino: nat, off: nat, data: Bytes)
  {
    && IsFile(d, ino) && d.inodes[ino].size <= MAX_SIZE && off + |data| <= MAX_SIZE && ino in d'.inodes
    && SplicedFile(d, WithSize(d', ino, d.inodes[ino].size), ino, off, data)
    && d'.inodes[ino].size == if off + |data| > d.inodes[ino].size then off + |data| else d.inodes[ino].size
  }

  ghost function WithSize(d: Disk, ino: nat, size: nat): Disk
    requires ino in d.inodes
  {
    d.(inodes := d.inodes[ino := d.inodes[ino].(size := size)])
  }

  lemma WroteBytes(d: Disk, d': Disk, ino: nat, off: nat, data: Bytes, i: nat, o: nat)
    requires Wrote(d, d', ino, off, data) && o < MAX_SIZE && IsFile(d', i)
    ensures IsFile(d, i) && (i != ino ==> d'.inodes[i].size == d.inodes[i].size)
    ensures ByteAt(d', i, o) == if i == ino && off <= o < off + |data| then data[o - off] else ByteAt(d, i, o)
  {
    hide Slot;
    var e := WithSize(d', ino, d.inodes[ino].size);
    SizeByte(d', ino, d.inodes[ino].size, i, o);
    assert i in e.inodes && e.inodes[i].kind == d'.inodes[i].kind;
  }

  // The file reads as it should exactly if there was nothing but zeros between its end and
  // the data: a write that failed before may have left something there.
  lemma WrittenExact(d: Disk, d': Disk, ino: nat, off: nat, data: Bytes)
    requires Wrote(d, d', ino, off, data)
    ensures Contents(d', ino, d'.inodes[ino].size) == Stored(Contents(d, ino, d.inodes[ino].size), off, data) <==>
            forall o :: d.inodes[ino].size <= o < off ==> ByteAt(d, ino, o) == 0
  {
    hide ByteAt, SplicedFile;
    var n, m := d.inodes[ino].size, d'.inodes[ino].size;
    var c, z := Contents(d', ino, m), Stored(Contents(d, ino, n), off, data);
    assert IsFile(d', ino) by { WroteFile(d, d', ino, off, data); }
    forall o | 0 <= o < m
      ensures c[o] == (if off <= o < off + |data| then data[o - off] else ByteAt(d, ino, o))
      ensures z[o] == if off <= o < off + |data| then data[o - off] else if o < n then ByteAt(d, ino, o) else 0
    {
      WroteBytes(d, d', ino, off, data, ino, o);
    }
    if c == z {
      forall o | n <= o < off ensures ByteAt(d, ino, o) == 0 {
        assert c[o] == z[o];
      }
    }
  }

  lemma WroteFile(d: Disk, d': Disk, ino: nat, off: nat, data: Bytes)
    requires Wrote(d, d', ino, off, data)
    ensures IsFile(d', ino)
  {
    hide ByteAt;
    var e := WithSize(d', ino, d.inodes[ino].size);
    assert e.inodes[ino].kind == d.inodes[ino].kind;
  }

  // So it does where nothing but zeros lies past the end of any file, and that is kept.
  lemma WrittenContents(d: Disk, d': Disk, ino: nat, off: nat, data: Bytes)
    requires Wrote(d, d', ino, off, data) && ZeroTail(d)
    ensures Contents(d', ino, d'.inodes[ino].size) == Stored(Contents(d, ino, d.inodes[ino].size), off, data)
    ensures ZeroTail(d')
  {
    hide ByteAt, Wrote, Stored;
    assert IsFile(d, ino) && off + |data| <= MAX_SIZE && ino in d'.inodes by { WroteParts(d, d', ino, off, data); }
    WrittenExact(d, d', ino, off, data);
    forall i, o | IsFile(d', i) && d'.inodes[i].size <= o < MAX_SIZE ensures ByteAt(d', i, o) == 0 {
      WroteBytes(d, d', ino, off, data, i, o);
      WroteParts(d, d', ino, off, data);
    }
  }

  lemma WroteParts(d: Disk, d': Disk, ino: nat, off: nat, data: Bytes)
    requires Wrote(d, d', ino, off, data)
    ensures IsFile(d, ino) && off + |data| <= MAX_SIZE && ino in d'.inodes && d'.inodes.Keys == d.inodes.Keys
    ensures d'.inodes[ino].size == if off + |data| > d.inodes[ino].size then off + |data| else d.inodes[ino].size
  {
  }

  lemma SizeByte(d: Disk, ino: nat, size: nat, i: nat, o: nat)
    requires ino in d.inodes
    ensures ByteAt(d.(inodes := d.inodes[ino := d.inodes[ino].(size := size)]), i, o) == ByteAt(d, i, o)
  {
  }

  // ---------- the free inodes ----------

  ghost predicate InodeChain(d: Disk, i: nat, inos: seq<nat>)
    decreases |inos|
  {
    if inos == [] then i == END
    else i == inos[0] && i in d.inodes && InodeChain(d, d.inodes[i].size, inos[1..])
  }

  // The chain from the super block holds each free inode once.
  ghost predicate InodesFree(d: Disk, inos: seq<nat>)
  {
    && InodeChain(d, d.freeInode, inos) && NoDup(inos) && END !in d.inodes
    && forall i :: i in inos <==> i in d.inodes && d.inodes[i].kind == FREE
  }

  lemma {:induction false} InodeChainFrame(d: Disk, d': Disk, i: nat, inos: seq<nat>)
    requires InodeChain(d, i, inos) && forall x :: x in inos ==>
               x in d'.inodes && x in d.inodes && d'.inodes[x].size == d.inodes[x].size
    ensures InodeChain(d', i, inos)
    decreases |inos|
  {
    if inos != [] { InodeChainFrame(d, d', d.inodes[i].size, inos[1..]); }
  }

  // The inode is an empty file of the given kind.
  function Blank(kind: nat): Inode { Inode(kind, 0, seq(NDIRECT, _ => 0), 0) }

  function Created(d: Disk, kind: nat): Disk
    requires d.freeInode in d.inodes
  {
    d.(inodes := d.inodes[d.freeInode := Blank(kind)], freeInode := d.inodes[d.freeInode].size)
  }

  lemma CreatedOk(d: Disk, nodes: seq<nat>, inos: seq<nat>, kind: nat)
    requires DiskOk(d, nodes) && InodesFree(d, inos) && d.freeInode != END && (kind == DATA || kind == DIR)
    ensures inos != [] && d.freeInode == inos[0] && d.freeInode in d.inodes
    ensures var d' := Created(d, kind);
            && DiskOk(d', nodes) && InodesFree(d', inos[1..]) && Stack(d', nodes) == Stack(d, nodes)
            && IsFile(d', d.freeInode) && d'.inodes[d.freeInode].kind == kind && d'.inodes[d.freeInode].size == 0
            && (forall o :: ByteAt(d', d.freeInode, o) == 0) && !IsFile(d, d.freeInode)
            && forall i, o :: IsFile(d, i) ==> i != d.freeInode && ByteAt(d', i, o) == ByteAt(d, i, o)
  {
    hide FreeOk, Stack;
    var d', ino := Created(d, kind), d.freeInode;
    FreeOkShape(d, nodes);
    FreeFrame(d, d', nodes);
    InodeChainFrame(d, d', d.inodes[ino].size, inos[1..]);
    assert inos == [inos[0]] + inos[1..];
    forall k ensures Slot(d', ino, k) == 0 {
    }
    forall i, j, x ensures Uses(d', i, j, x) <==> Uses(d, i, j, x) {
      assert i != ino ==> Slot(d', i, j) == Slot(d, i, j);
    }
    forall x | x in d'.blocks && x !in Stack(d', nodes) ensures exists i, j :: Uses(d', i, j, x) {
      var i, j :| Uses(d, i, j, x);
      assert Uses(d', i, j, x);
    }
  }

  // A new file keeps it that nothing but zeros is past the end of a file.
  lemma CreatedTail(d: Disk, nodes: seq<nat>, inos: seq<nat>, kind: nat)
    requires DiskOk(d, nodes) && InodesFree(d, inos) && d.freeInode != END && (kind == DATA || kind == DIR)
             && ZeroTail(d)
    ensures d.freeInode in d.inodes && ZeroTail(Created(d, kind))
  {
    hide DiskOk, ByteAt;
    CreatedOk(d, nodes, inos, kind);
    var d' := Created(d, kind);
    forall i, o | IsFile(d', i) && d'.inodes[i].size <= o < MAX_SIZE ensures ByteAt(d', i, o) == 0 {
      assert i != d.freeInode ==> IsFile(d, i);
    }
  }

  // ---------- freeing an inode ----------

  // The blocks in the first n slots of a file, in order.
  ghost function Owned(d: Disk, ino: nat, n: nat): seq<nat>
  {
    if n == 0 then [] else Owned(d, ino, n - 1) + if Slot(d, ino, n - 1) != 0 then [Slot(d, ino, n - 1)] else []
  }

  lemma {:induction false} OwnedIs(d: Disk, ino: nat, n: nat)
    ensures forall b :: b in Owned(d, ino, n) <==> exists k: nat :: k < n && Slot(d, ino, k) == b && b != 0
  {
    hide Slot;
    if n > 0 {
      OwnedIs(d, ino, n - 1);
      forall b ensures b in Owned(d, ino, n) <==> exists k: nat :: k < n && Slot(d, ino, k) == b && b != 0 {
        if k: nat :| k < n && Slot(d, ino, k) == b && b != 0 {
          assert k < n - 1 || k == n - 1;
        }
      }
    }
  }

  // The first n slots of ino have been freed: their blocks are on the free list, direct
  // slots are cleared, and no other block or inode has changed.
  ghost predicate Freeing(d: Disk, nodes: seq<nat>, c: Disk, nodes': seq<nat>, ino: nat, n: nat)
  {
    && FreeOk(c, nodes') && Stack(c, nodes') == Stack(d, nodes) + Owned(d, ino, n)
    && c.blocks.Keys == d.blocks.Keys
       && (forall b :: b in d.blocks && b !in Owned(d, ino, n) ==> c.blocks[b] == d.blocks[b])
    && c.freeInode == d.freeInode && ino in d.inodes && c.inodes.Keys == d.inodes.Keys
    && (forall i :: i in d.inodes && i != ino ==> c.inodes[i] == d.inodes[i])
    && c.inodes[ino] == d.inodes[ino].(direct := c.inodes[ino].direct)
       && |c.inodes[ino].direct| == NDIRECT == |d.inodes[ino].direct|
    && (forall k: nat :: n <= k < NDIRECT ==> c.inodes[ino].direct[k] == d.inodes[ino].direct[k])
  }

  lemma FreeingStart(d: Disk, nodes: seq<nat>, ino: nat)
    requires DiskOk(d, nodes) && IsFile(d, ino)
    ensures Freeing(d, nodes, d, nodes, ino, 0)
  {
    assert Stack(d, nodes) + [] == Stack(d, nodes);
  }

  // The block of the next slot is not free yet, and its slot and the indirect block have
  // not been overwritten.
  lemma FreeingNext(d: Disk, nodes: seq<nat>, c: Disk, nodes': seq<nat>, ino: nat, n: nat)
    requires DiskOk(d, nodes) && IsFile(d, ino) && Freeing(d, nodes, c, nodes', ino, n) && n <= MAX_BLOCKS
    requires Slot(d, ino, n) != 0
    ensures Slot(d, ino, n) in c.blocks && Slot(d, ino, n) !in Stack(c, nodes')
  {
    hide FreeOk, Stack, Slot;
    var x := Slot(d, ino, n);
    assert Uses(d, ino, n, x);
    OwnedIs(d, ino, n);
    forall k: nat | k < n ensures Slot(d, ino, k) != x {
      assert Slot(d, ino, k) == x ==> Uses(d, ino, k, x);
    }
  }

  lemma FreeingTable(d: Disk, nodes: seq<nat>, c: Disk, nodes': seq<nat>, ino: nat, n: nat)
    requires DiskOk(d, nodes) && IsFile(d, ino) && Freeing(d, nodes, c, nodes', ino, n) && n <= MAX_BLOCKS
    requires d.inodes[ino].indirect != 0
    ensures d.inodes[ino].indirect in c.blocks && c.blocks[d.inodes[ino].indirect] == d.blocks[d.inodes[ino].indirect]
    ensures n < MAX_BLOCKS ==> Slot(d, ino, n) != d.inodes[ino].indirect
  {
    hide FreeOk, Stack;
    var t := d.inodes[ino].indirect;
    IndirectUsed(d, nodes, ino);
    OwnedIs(d, ino, n);
    forall k: nat | k < n ensures Slot(d, ino, k) != t {
      assert Slot(d, ino, k) == t ==> Uses(d, ino, k, t);
    }
    assert n < MAX_BLOCKS && Slot(d, ino, n) == t ==> Uses(d, ino, n, t);
  }

  lemma FreeingStep(d: Disk, nodes: seq<nat>, c: Disk, nodes': seq<nat>, c': Disk, nodes'': seq<nat>, ino: nat, n: nat)
    requires Freeing(d, nodes, c, nodes', ino, n) && Slot(d, ino, n) != 0 && Slot(d, ino, n) in c.blocks
    requires FreeShape(c) && FreeOk(c', nodes'') && Stack(c', nodes'') == Stack(c, nodes') + [Slot(d, ino, n)]
    requires c'.blocks == Freed(c, Slot(d, ino, n)).blocks && c'.freeInode == c.freeInode
    requires c'.inodes == if n < NDIRECT then c.inodes[ino := c.inodes[ino].(direct := c.inodes[ino].direct[n := 0])]
             else c.inodes
    ensures Freeing(d, nodes, c', nodes'', ino, n + 1)
  {
    hide FreeOk, Stack, Slot, NodeFrom;
    assert Stack(c', nodes'') == Stack(d, nodes) + Owned(d, ino, n + 1);
    forall b | b in d.blocks && b !in Owned(d, ino, n + 1) ensures c'.blocks[b] == d.blocks[b] {
      assert b !in Owned(d, ino, n);
    }
  }

  lemma FreeingSkip(d: Disk, nodes: seq<nat>, c: Disk, nodes': seq<nat>, ino: nat, n: nat)
    requires Freeing(d, nodes, c, nodes', ino, n) && Slot(d, ino, n) == 0
    ensures Freeing(d, nodes, c, nodes', ino, n + 1)
  {
    hide FreeOk, Stack, Slot;
    assert Owned(d, ino, n + 1) == Owned(d, ino, n);
  }

  // A file without an indirect block has nothing in the slots past the direct ones.
  lemma {:induction false} OwnedDirect(d: Disk, ino: nat, n: nat)
    requires ino in d.inodes && d.inodes[ino].indirect == 0 && NDIRECT <= n <= MAX_BLOCKS + 1
    ensures Owned(d, ino, n) == Owned(d, ino, NDIRECT)
  {
    if n > NDIRECT { OwnedDirect(d, ino, n - 1); }
  }

  // The inode as s5_free_inode leaves it, and the disk.
  function Reset(c: Disk, ino: nat): Disk
    requires ino in c.inodes
  {
    c.(inodes := c.inodes[ino := c.inodes[ino].(indirect := 0, kind := FREE, size := c.freeInode)], freeInode := ino)
  }

  lemma ResetUses(d: Disk, nodes: seq<nat>, c: Disk, nodes': seq<nat>, ino: nat, i: nat, j: nat, x: nat)
    requires DiskOk(d, nodes) && IsFile(d, ino) && Freeing(d, nodes, c, nodes', ino, MAX_BLOCKS + 1)
    ensures Uses(Reset(c, ino), i, j, x) <==> i != ino && Uses(d, i, j, x)
    ensures i != ino && Uses(d, i, j, x) ==> x !in Owned(d, ino, MAX_BLOCKS + 1)
  {
    hide FreeOk, Stack;
    if i != ino && IsFile(d, i) {
      if d.inodes[i].indirect != 0 {
        IndirectUsed(d, nodes, i);
        NotOwned(d, nodes, ino, i, MAX_BLOCKS, d.inodes[i].indirect);
      }
      SlotSame(d, Reset(c, ino), i, j);
      if Uses(d, i, j, x) { NotOwned(d, nodes, ino, i, j, x); }
    }
  }

  lemma NotOwned(d: Disk, nodes: seq<nat>, ino: nat, i: nat, j: nat, x: nat)
    requires DiskOk(d, nodes) && IsFile(d, ino) && Uses(d, i, j, x) && i != ino
    ensures x !in Owned(d, ino, MAX_BLOCKS + 1)
  {
    hide FreeOk, Stack, Slot;
    OwnedIs(d, ino, MAX_BLOCKS + 1);
    forall k: nat | k < MAX_BLOCKS + 1 ensures Slot(d, ino, k) != x {
      assert Slot(d, ino, k) == x ==> Uses(d, ino, k, x);
    }
  }

  lemma ResetByte(d: Disk, nodes: seq<nat>, c: Disk, nodes': seq<nat>, ino: nat, i: nat, o: nat)
    requires DiskOk(d, nodes) && IsFile(d, ino) && Freeing(d, nodes, c, nodes', ino, MAX_BLOCKS + 1)
    requires IsFile(d, i) && i != ino && o < MAX_SIZE
    ensures ByteAt(Reset(c, ino), i, o) == ByteAt(d, i, o)
  {
    hide FreeOk, Stack, Slot;
    var j := o / BLOCK_SIZE;
    var x, y := Slot(d, i, j), Slot(Reset(c, ino), i, j);
    ResetUses(d, nodes, c, nodes', ino, i, j, x);
    ResetUses(d, nodes, c, nodes', ino, i, j, y);
    assert x != 0 ==> Uses(d, i, j, x);
    assert y != 0 ==> Uses(Reset(c, ino), i, j, y);
  }

  lemma ResetInodes(d: Disk, inos: seq<nat>, c: Disk, ino: nat)
    requires InodesFree(d, inos) && IsFile(d, ino) && c.inodes.Keys == d.inodes.Keys && c.freeInode == d.freeInode
    requires forall i :: i in d.inodes && i != ino ==> c.inodes[i] == d.inodes[i]
    ensures InodesFree(Reset(c, ino), [ino] + inos)
  {
    var d' := Reset(c, ino);
    InodeChainFrame(d, d', d.freeInode, inos);
    assert ([ino] + inos)[1..] == inos;
    assert forall i :: i in [ino] + inos <==> i == ino || i in inos;
  }

  // Freeing an inode puts exactly its blocks on the free list, each once, and leaves all
  // other files as they are.
  lemma ResetOk(d: Disk, nodes: seq<nat>, inos: seq<nat>, c: Disk, nodes': seq<nat>, ino: nat)
    requires DiskOk(d, nodes) && InodesFree(d, inos) && IsFile(d, ino)
    requires Freeing(d, nodes, c, nodes', ino, MAX_BLOCKS + 1)
    ensures DiskOk(Reset(c, ino), nodes') && InodesFree(Reset(c, ino), [ino] + inos)
    ensures Stack(Reset(c, ino), nodes') == Stack(d, nodes) + Owned(d, ino, MAX_BLOCKS + 1)
    ensures forall i, o :: IsFile(d, i) && i != ino && 0 <= o < MAX_SIZE ==>
              ByteAt(Reset(c, ino), i, o) == ByteAt(d, i, o)
  {
    hide FreeOk, Stack, Slot, InodesFree;
    var d' := Reset(c, ino);
    FreeOkShape(c, nodes');
    FreeFrame(c, d', nodes');
    ResetInodes(d, inos, c, ino);
    forall i, j, x ensures Uses(d', i, j, x) <==> i != ino && Uses(d, i, j, x) {
      ResetUses(d, nodes, c, nodes', ino, i, j, x);
    }
    forall i, j, x | Uses(d', i, j, x) ensures x in d'.blocks && x !in Stack(d', nodes') {
      ResetUses(d, nodes, c, nodes', ino, i, j, x);
    }
    forall x | x in d'.blocks && x !in Stack(d', nodes') ensures exists i, j :: Uses(d', i, j, x) {
      var i, j :| Uses(d, i, j, x);
      OwnedIs(d, ino, MAX_BLOCKS + 1);
      assert Uses(d', i, j, x);
    }
    forall i, o | IsFile(d, i) && i != ino && 0 <= o < MAX_SIZE ensures ByteAt(d', i, o) == ByteAt(d, i, o) {
      ResetByte(d, nodes, c, nodes', ino, i, o);
    }
  }
}
