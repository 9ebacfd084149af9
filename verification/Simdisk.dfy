/**
 The operations on the S5 disk as they change it in place: api.py's Simdisk, Block and Inode
 methods, and the freeing of an inode in the kernel.
 */
module Simdisk {
  import opened Common
  import opened Lists
  import opened Words
  import opened S5Disk
  import opened S5Files

  class Simdisk {
    var nfree: nat
    const free: array<nat>
    var last: nat
    var freeInode: nat
    var inodes: map<nat, Inode>
    var blocks: map<nat, Bytes>
    // The full nodes of the free block list and the free inodes.
    ghost var nodes: seq<nat>
    ghost var inos: seq<nat>

    ghost function Value(): Disk
      reads this, free
    {
      Disk(nfree, free[..], last, freeInode, inodes, blocks)
    }

    ghost predicate Valid()
      reads this, free
    {
      DiskOk(Value(), nodes) && InodesFree(Value(), inos)
    }

    // A disk that is well formed.
    constructor (d: Disk, ghost nodes: seq<nat>, ghost inos: seq<nat>)
      requires DiskOk(d, nodes) && InodesFree(d, inos)
      ensures Valid() && Value() == d && this.nodes == nodes && this.inos == inos
    {
      nfree, last, freeInode, inodes, blocks := d.nfree, d.last, d.freeInode, d.inodes, d.blocks;
      this.nodes, this.inos := nodes, inos;
      free := new nat[|d.free|](i requires 0 <= i < |d.free| => d.free[i]);
      new;
      assert free[..] == d.free;
    }

    // Block.free and s5_free_block
    method FreeBlock(x: nat)
      requires FreeOk(Value(), nodes) && x in blocks && x !in Stack(Value(), nodes)
      modifies this`nfree, this`last, this`blocks, this`nodes, free
      ensures FreeShape(old(Value())) && Value() == Freed(old(Value()), x)
      ensures FreeOk(Value(), nodes) && Stack(Value(), nodes) == Stack(old(Value()), old(nodes)) + [x]
    {
      hide IsChain, Chained, NoDup, Stack, WithWord, NodeFrom;
      ghost var d := Value();
      FreedPushes(d, nodes, x);
      if nfree < NENTRIES {
        free[nfree] := x;
        nfree := nfree + 1;
        assert free[..] == d.free[d.nfree := x];
      } else {
        var i := 0;
        while i < NENTRIES
          invariant 0 <= i <= NENTRIES && x in blocks && Value() == d.(blocks := d.blocks[x := blocks[x]])
                    && nodes == old(nodes)
          invariant |blocks[x]| == BLOCK_SIZE
          invariant NodeFrom(blocks[x], d.free, d.last, i) == NodeFrom(d.blocks[x], d.free, d.last, 0)
        {
          NodeStep(blocks[x], d.free, d.last, i);
          blocks := blocks[x := WithWord(blocks[x], i, free[i])];
          i := i + 1;
        }
        NodeEnd(blocks[x], d.free, d.last);
        blocks := blocks[x := WithWord(blocks[x], NENTRIES, last)];
        last := x;
        nfree := 0;
        assert blocks == Freed(d, x).blocks;
      }
      nodes := NodesFreed(d, nodes, x);
    }

    // Simdisk.alloc_block
    method AllocBlock() returns (b: Option<nat>)
      requires FreeOk(Value(), nodes)
      modifies this`nfree, this`last, this`nodes, free
      ensures FreeOk(Value(), nodes)
      ensures b.None? <==> Stack(old(Value()), old(nodes)) == []
      ensures b.None? ==> Value() == old(Value()) && nodes == old(nodes)
      ensures b.Some? ==> && FreeShape(old(Value())) && (old(nfree) == 0 ==> old(last) in blocks)
                          && (Value(), b.value) == Taken(old(Value())) && nodes == NodesTaken(old(Value()), old(nodes))
    {
      hide IsChain, Chained, NoDup, Stack, Word;
      ghost var d := Value();
      TakenPops(d, nodes);
      if nfree == 0 {
        if last == END {
          b := None;
        } else {
          var block := last;
          var i := 0;
          while i < NENTRIES
            invariant 0 <= i <= NENTRIES && nfree == d.nfree && last == d.last && nodes == old(nodes)
            invariant forall k :: 0 <= k < i ==> free[k] == Word(blocks[block], k)
          {
            free[i] := Word(blocks[block], i);
            i := i + 1;
          }
          assert free[..] == Entries(blocks[block]);
          last := Word(blocks[block], NENTRIES);
          nfree := NENTRIES;
          nodes := NodesTaken(d, nodes);
          b := Some(block);
        }
      } else {
        nfree := nfree - 1;
        nodes := NodesTaken(d, nodes);
        b := Some(free[nfree]);
      }
    }

    // alloc_block and zero
    method AllocZeroed() returns (b: Option<nat>)
      requires DiskOk(Value(), nodes)
      modifies this`nfree, this`last, this`nodes, this`blocks, free
      ensures b.None? <==> Stack(old(Value()), old(nodes)) == []
      ensures b.None? ==> Value() == old(Value()) && nodes == old(nodes)
      ensures b.Some? ==> Cleared(old(Value()), old(nodes), Value(), nodes, b.value)
    {
      hide FreeOk, Stack, Uses, Taken, NodesTaken, Zeros;
      ghost var d := Value();
      if Stack(d, nodes) != [] { FreshOk(d, nodes); }
      b := AllocBlock();
      if b.Some? {
        blocks := blocks[b.value := Zeros()];
      }
    }

    // The block of slot k of a file: what read looks up.
    method Lookup(ino: nat, k: nat) returns (b: nat)
      requires DiskOk(Value(), nodes) && IsFile(Value(), ino) && k < MAX_BLOCKS
      ensures b == Slot(Value(), ino, k) && (b != 0 ==> b in blocks && |blocks[b]| == BLOCK_SIZE)
    {
      hide FreeOk, Stack, Word;
      FreeOkShape(Value(), nodes);
      if k < NDIRECT {
        b := inodes[ino].direct[k];
      } else if inodes[ino].indirect == 0 {
        b := 0;
      } else {
        IndirectUsed(Value(), nodes, ino);
        b := Word(blocks[inodes[ino].indirect], k - NDIRECT);
      }
      assert b != 0 ==> Uses(Value(), ino, k, b);
    }

    // The file gets an indirect block if it has none.
    method EnsureIndirect(ino: nat) returns (ok: bool)
      requires DiskOk(Value(), nodes) && IsFile(Value(), ino)
      modifies this`nfree, this`last, this`nodes, this`blocks, this`inodes, free
      ensures DiskOk(Value(), nodes) && SameFiles(old(Value()), Value()) && IsFile(Value(), ino)
      ensures ok ==> inodes[ino].indirect != 0
      ensures var n := if Slot(old(Value()), ino, MAX_BLOCKS) == 0 then 1 else 0;
              && (ok <==> n <= |Stack(old(Value()), old(nodes))|)
              && (ok ==>
                    && |Stack(Value(), nodes)| + n == |Stack(old(Value()), old(nodes))|
                    && Slot(Value(), ino, MAX_BLOCKS) != 0)
      ensures forall k: nat :: k < MAX_BLOCKS ==> Slot(Value(), ino, k) == Slot(old(Value()), ino, k)
    {
      hide DiskOk, Uses, Slot, Zeros, FreeOk, Stack;
      ghost var d := Value();
      LastSlot(d, ino);
      ok := true;
      if inodes[ino].indirect == 0 {
        var t := AllocZeroed();
        ok := t.Some?;
        if ok {
          IndirectAttached(d, old(nodes), Value(), nodes, t.value, ino);
          inodes := inodes[ino := inodes[ino].(indirect := t.value)];
          AttachedOk(d, old(nodes), Value(), nodes, ino, MAX_BLOCKS, t.value);
        }
      }
    }

    // An empty slot gets a cleared block.
    method FillSlot(ino: nat, k: nat) returns (b: Option<nat>)
      requires DiskOk(Value(), nodes) && IsFile(Value(), ino) && k < MAX_BLOCKS && Slot(Value(), ino, k) == 0
      requires k >= NDIRECT ==> inodes[ino].indirect != 0
      modifies this`nfree, this`last, this`nodes, this`blocks, this`inodes, free
      ensures DiskOk(Value(), nodes) && SameFiles(old(Value()), Value())
      ensures b.None? <==> Stack(old(Value()), old(nodes)) == []
      ensures b.Some? ==>
                Uses(Value(), ino, k, b.value) && |Stack(Value(), nodes)| + 1 == |Stack(old(Value()), old(nodes))|
      ensures b.Some? ==> forall j: nat :: j <= MAX_BLOCKS && j != k ==>
                Slot(Value(), ino, j) == Slot(old(Value()), ino, j)
    {
      hide DiskOk, Slot, Zeros, FreeOk, Stack, WithWord;
      ghost var d := Value();
      b := AllocZeroed();
      if b.Some? {
        if k < NDIRECT {
          DirectAttached(d, old(nodes), Value(), nodes, b.value, ino, k);
          inodes := inodes[ino := inodes[ino].(direct := inodes[ino].direct[k := b.value])];
        } else {
          EntryAttached(d, old(nodes), Value(), nodes, b.value, ino, k);
          var t := inodes[ino].indirect;
          blocks := blocks[t := WithWord(blocks[t], k - NDIRECT, b.value)];
        }
        AttachedOk(d, old(nodes), Value(), nodes, ino, k, b.value);
      }
    }

    // The block of slot k, allocated where the file has none: the first part of a turn of
    // Inode.write. There may be no free block left; files read the same in any case.
    method EnsureBlock(ino: nat, k: nat) returns (b: Option<nat>)
      requires DiskOk(Value(), nodes) && IsFile(Value(), ino) && k < MAX_BLOCKS
      modifies this`nfree, this`last, this`nodes, this`blocks, this`inodes, free
      ensures DiskOk(Value(), nodes) && SameFiles(old(Value()), Value())
      ensures b.Some? <==> Lacks(old(Value()), ino, k) <= |Stack(old(Value()), old(nodes))|
      ensures b.Some? ==> Uses(Value(), ino, k, b.value) && OnlyFills(old(Value()), Value(), ino, k)
      ensures b.Some? ==> |Stack(Value(), nodes)| + Lacks(old(Value()), ino, k) == |Stack(old(Value()), old(nodes))|
    {
      hide DiskOk, Slot, ByteAt, Stack;
      var blockno := Lookup(ino, k);
      if k >= NDIRECT {
        var ok := EnsureIndirect(ino);
        if !ok {
          return None;
        }
      }
      if blockno == 0 {
        b := FillSlot(ino, k);
      } else {
        b := Some(blockno);
      }
    }

    // Inode.write. It succeeds exactly on a file, within the largest size, when there are as
    // many free blocks as it takes; else it has written what comes before the first block
    // that it could not get.
    method Write(ino: nat, offset: nat, data: Bytes) returns (ok: bool, ghost done: nat)
      requires Valid()
      modifies this`nfree, this`last, this`nodes, this`blocks, this`inodes, free
      ensures Valid() && done <= |data|
      ensures ok <==> && IsFile(old(Value()), ino) && offset + |data| <= MAX_SIZE
                      && Needed(old(Value()), ino, offset, |data|) <= |Stack(old(Value()), old(nodes))|
      ensures ok ==> done == |data|
      ensures !IsFile(old(Value()), ino) || offset + |data| > MAX_SIZE ==> Value() == old(Value())
      ensures IsFile(old(Value()), ino) && offset + |data| <= MAX_SIZE ==>
                && ino in inodes
                && inodes[ino].size
                   == (if ok && offset + |data| > old(inodes)[ino].size then offset + |data| else old(inodes)[ino].size)
                && SplicedFile(old(Value()), WithSize(Value(), ino, old(inodes)[ino].size), ino, offset, data[..done])
      ensures IsFile(old(Value()), ino) && offset + |data| <= MAX_SIZE && !ok ==>
                StopsAt(old(Value()), ino, offset, done, |Stack(old(Value()), old(nodes))|)
    {
      hide DiskOk, Slot, ByteAt, InodesFree, Spliced, SplicedFile, SameFiles, StopsAt, Needed, Stack;
      ok, done := false, 0;
      if ino in inodes && (inodes[ino].kind == DATA || inodes[ino].kind == DIR) && offset + |data| <= MAX_SIZE {
        ghost var d := Value();
        ok, done := WriteBlocks(ino, offset, data);
        SplicedParts(d, Value(), ino, offset, data[..done], inos);
        assert inodes[ino := inodes[ino].(size := d.inodes[ino].size)] == inodes;
        if ok && offset + |data| > inodes[ino].size {
          ghost var e := Value();
          SizeOk(e, nodes, inos, ino, offset + |data|);
          inodes := inodes[ino := inodes[ino].(size := offset + |data|)];
          assert inodes[ino := inodes[ino].(size := d.inodes[ino].size)] == e.inodes;
        }
      }
    }

    // The loop of Inode.write.
    method WriteBlocks(ino: nat, offset: nat, data: Bytes) returns (ok: bool, ghost done: nat)
      requires DiskOk(Value(), nodes) && IsFile(Value(), ino) && offset + |data| <= MAX_SIZE
      modifies this`nfree, this`last, this`nodes, this`blocks, this`inodes, free
      ensures DiskOk(Value(), nodes) && done <= |data| && (ok ==> done == |data|)
      ensures ok <==> Needed(old(Value()), ino, offset, |data|) <= |Stack(old(Value()), old(nodes))|
      ensures !ok ==> StopsAt(old(Value()), ino, offset, done, |Stack(old(Value()), old(nodes))|)
      ensures SplicedFile(old(Value()), Value(), ino, offset, data[..done])
    {
      hide DiskOk, Slot, ByteAt, Spliced, SplicedFile, SameFiles, Uses, Stack, Need, Lacks, OnlyFills, FilledTo;
      ghost var d := Value();
      ghost var end, lo := offset + |data|, offset / BLOCK_SIZE;
      ghost var next, hi := lo, if data == [] then 0 else (end - 1) / BLOCK_SIZE + 1;
      NoneFilled(d, ino, lo);
      var remaining, off := |data|, offset;
      SplicedNone(d, ino, offset, data[..0]);
      while remaining > 0
        invariant 0 <= remaining <= |data| && off == offset + |data| - remaining
        invariant DiskOk(Value(), nodes) && IsFile(Value(), ino)
        invariant SplicedFile(d, Value(), ino, offset, data[..|data| - remaining])
        invariant lo <= next && (remaining > 0 ==> off / BLOCK_SIZE == next && (off == offset || off % BLOCK_SIZE == 0))
        invariant data != [] && remaining == 0 ==> next == hi
        invariant FilledTo(d, Value(), ino, lo, next)
        invariant |Stack(Value(), nodes)| + Need(d, ino, lo, next) == |Stack(d, old(nodes))|
      {
        var k, blockoff := off / BLOCK_SIZE, off % BLOCK_SIZE;
        var amount := if BLOCK_SIZE - blockoff < remaining then BLOCK_SIZE - blockoff else remaining;
        ghost var c, at := Value(), |data| - remaining;
        NextBlock(off, remaining, amount, end);
        NeedNext(d, c, ino, lo, k);
        NeedGrows(d, ino, lo, k + 1, hi);
        var b := EnsureBlock(ino, k);
        SplicedSame(d, c, Value(), ino, offset, data[..at]);
        if b.None? {
          return false, at;
        }
        ghost var e := Value();
        FilledNext(d, c, e, ino, lo, k);
        UsedBlock(e, nodes, ino, k, b.value);
        var part := data[|data| - remaining..|data| - remaining + amount];
        assert data[..at] + part == data[..at + amount];
        BlockWrittenOk(e, nodes, ino, k, b.value, blockoff, part);
        SplicedMore(d, e, nodes, ino, offset, data[..at], k, b.value, part);
        WrittenFills(e, nodes, ino, k, b.value, blockoff, part, d, lo);
        blocks := blocks[b.value := Spliced(blocks[b.value], blockoff, part)];
        remaining, off, next := remaining - amount, off + amount, next + 1;
      }
      ok, done := true, |data|;
    }

    // Inode.read
    method Read(ino: nat, offset: nat, size: nat) returns (res: Option<Bytes>)
      requires Valid()
      ensures res.None? <==> !IsFile(Value(), ino)
      ensures res.Some? ==> && |res.value| == Readable(inodes[ino].size, offset, size)
                            && forall k :: 0 <= k < |res.value| ==> res.value[k] == ByteAt(Value(), ino, offset + k)
    {
      hide DiskOk, Slot, ByteAt, InodesFree;
      if ino !in inodes || (inodes[ino].kind != DATA && inodes[ino].kind != DIR) {
        return None;
      }
      var total := Readable(inodes[ino].size, offset, size);
      var left, off, r := total, offset, [];
      while left > 0
        invariant 0 <= left <= total && off == offset + total - left && |r| == total - left
        invariant forall k :: 0 <= k < |r| ==> r[k] == ByteAt(Value(), ino, offset + k)
      {
        var blockoff := off % BLOCK_SIZE;
        var amount := if BLOCK_SIZE - blockoff < left then BLOCK_SIZE - blockoff else left;
        var b := Lookup(ino, off / BLOCK_SIZE);
        var part := if b == 0 then seq(amount, _ => 0) else blocks[b][blockoff..blockoff + amount];
        forall k | 0 <= k < amount ensures part[k] == ByteAt(Value(), ino, off + k) {
          ByteIn(Value(), ino, off, k, b);
        }
        r := r + part;
        left, off := left - amount, off + amount;
      }
      res := Some(r);
    }

    // alloc_inode and the setting up of the new file in create and mkdir
    method Create(kind: nat) returns (ino: Option<nat>)
      requires Valid() && (kind == DATA || kind == DIR)
      modifies this`freeInode, this`inodes, this`inos
      ensures Valid() && (ino.None? <==> old(inos) == [])
      ensures ino.None? ==> Value() == old(Value())
      ensures ino.Some? ==> && old(inos) == [ino.value] + inos && Value() == Created(old(Value()), kind)
                            && !IsFile(old(Value()), ino.value) && IsFile(Value(), ino.value)
                            && inodes[ino.value].kind == kind && inodes[ino.value].size == 0
                            && (forall i :: i in old(inodes) && i != ino.value ==>
                                i in inodes && inodes[i] == old(inodes)[i])
                            && (forall o :: ByteAt(Value(), ino.value, o) == 0)
                            && forall i, o :: IsFile(old(Value()), i) ==>
                               ByteAt(Value(), i, o) == ByteAt(old(Value()), i, o)
    {
      hide DiskOk, ByteAt;
      if freeInode == END {
        return None;
      }
      CreatedOk(Value(), nodes, inos, kind);
      var i := freeInode;
      freeInode := inodes[i].size;
      inodes := inodes[i := Blank(kind)];
      inos := inos[1..];
      ino := Some(i);
    }

    // s5_free_inode, of a regular file or a directory
    method FreeInode(ino: nat)
      requires Valid() && IsFile(Value(), ino)
      modifies this, free
      ensures Valid() && inos == [ino] + old(inos)
      ensures Stack(Value(), nodes) == Stack(old(Value()), old(nodes)) + Owned(old(Value()), ino, MAX_BLOCKS + 1)
      ensures ino in inodes && inodes[ino].kind == FREE && inodes[ino].indirect == 0
      ensures forall i :: i in old(inodes) && i != ino ==> i in inodes && inodes[i] == old(inodes)[i]
      ensures forall i, o :: IsFile(old(Value()), i) && i != ino && 0 <= o < MAX_SIZE ==>
                ByteAt(Value(), i, o) == ByteAt(old(Value()), i, o)
    {
      hide DiskOk, ByteAt, InodesFree, Freeing, FreeOk, Stack, Slot;
      ghost var d, n := Value(), nodes;
      FreeingStart(d, nodes, ino);
      FreeDirect(ino, d, n);
      FreeIndirect(ino, d, n);
      ghost var c := Value();
      FreeingParts(d, n, c, nodes, ino, MAX_BLOCKS + 1);
      FreeingOthers(d, n, c, nodes, ino, MAX_BLOCKS + 1);
      ResetOk(d, n, inos, c, nodes, ino);
      inodes := inodes[ino := inodes[ino].(indirect := 0, kind := FREE, size := freeInode)];
      freeInode := ino;
      inos := [ino] + inos;
    }

    method FreeDirect(ino: nat, ghost d: Disk, ghost n: seq<nat>)
      requires DiskOk(d, n) && IsFile(d, ino) && Freeing(d, n, Value(), nodes, ino, 0)
      modifies this`nfree, this`last, this`blocks, this`nodes, this`inodes, free
      ensures Freeing(d, n, Value(), nodes, ino, NDIRECT)
    {
      hide DiskOk, FreeOk, Stack, Freeing, Freed;
      var i := 0;
      while i < NDIRECT
        invariant 0 <= i <= NDIRECT && Freeing(d, n, Value(), nodes, ino, i)
      {
        ghost var c, m := Value(), nodes;
        FreeingParts(d, n, c, m, ino, i);
        DirectIs(d, n, c, m, ino, i);
        var x := inodes[ino].direct[i];
        if x != 0 {
          FreeingNext(d, n, c, m, ino, i);
          FreeBlock(x);
          ghost var e := Value();
          inodes := inodes[ino := inodes[ino].(direct := inodes[ino].direct[i := 0])];
          SameFree(e, Value(), nodes);
          FreedInodes(c, x);
          FreeingStep(d, n, c, m, Value(), nodes, ino, i);
        } else {
          FreeingSkip(d, n, c, m, ino, i);
        }
        i := i + 1;
      }
    }

    method FreeIndirect(ino: nat, ghost d: Disk, ghost n: seq<nat>)
      requires DiskOk(d, n) && IsFile(d, ino) && Freeing(d, n, Value(), nodes, ino, NDIRECT)
      modifies this`nfree, this`last, this`blocks, this`nodes, free
      ensures Freeing(d, n, Value(), nodes, ino, MAX_BLOCKS + 1)
    {
      hide DiskOk, FreeOk, Stack, Freeing, Freed, Word;
      FreeingParts(d, n, Value(), nodes, ino, NDIRECT);
      var t := inodes[ino].indirect;
      if t == 0 {
        OwnedDirect(d, ino, MAX_BLOCKS + 1);
        FreeingAll(d, n, Value(), nodes, ino);
        return;
      }
      FreeingTable(d, n, Value(), nodes, ino, NDIRECT);
      IndirectUsed(d, n, ino);
      var table := blocks[t];
      var i := 0;
      while i < NINDIRECT
        invariant 0 <= i <= NINDIRECT && Freeing(d, n, Value(), nodes, ino, NDIRECT + i)
      {
        ghost var c, m := Value(), nodes;
        FreeingParts(d, n, c, m, ino, NDIRECT + i);
        FreeingTable(d, n, c, m, ino, NDIRECT + i);
        TableIs(d, ino, i);
        var x := Word(table, i);
        assert x != t;
        if x != 0 {
          FreeingNext(d, n, c, m, ino, NDIRECT + i);
          FreeBlock(x);
          FreedInodes(c, x);
          FreeingStep(d, n, c, m, Value(), nodes, ino, NDIRECT + i);
        } else {
          FreeingSkip(d, n, c, m, ino, NDIRECT + i);
        }
        i := i + 1;
      }
      ghost var c, m := Value(), nodes;
      FreeingParts(d, n, c, m, ino, MAX_BLOCKS);
      TableIs(d, ino, 0);
      FreeingNext(d, n, c, m, ino, MAX_BLOCKS);
      FreeBlock(t);
      FreedInodes(c, t);
      FreeingStep(d, n, c, m, Value(), nodes, ino, MAX_BLOCKS);
    }
  }

  lemma FreeingParts(d: Disk, nodes: seq<nat>, c: Disk, nodes': seq<nat>, ino: nat, n: nat)
    requires Freeing(d, nodes, c, nodes', ino, n)
    ensures ino in d.inodes && ino in c.inodes && |c.inodes[ino].direct| == NDIRECT == |d.inodes[ino].direct|
            && c.inodes[ino].indirect == d.inodes[ino].indirect
    ensures FreeOk(c, nodes') && FreeShape(c)
    ensures forall k: nat :: n <= k < NDIRECT ==> c.inodes[ino].direct[k] == d.inodes[ino].direct[k]
  {
  }

  lemma FreeingOthers(d: Disk, nodes: seq<nat>, c: Disk, nodes': seq<nat>, ino: nat, n: nat)
    requires Freeing(d, nodes, c, nodes', ino, n)
    ensures forall i :: i in d.inodes && i != ino ==> i in c.inodes && c.inodes[i] == d.inodes[i]
  {
  }

  lemma DirectIs(d: Disk, nodes: seq<nat>, c: Disk, nodes': seq<nat>, ino: nat, k: nat)
    requires Freeing(d, nodes, c, nodes', ino, k) && k < NDIRECT
    ensures ino in c.inodes && k < |c.inodes[ino].direct| && c.inodes[ino].direct[k] == Slot(d, ino, k)
  {
  }

  lemma TableIs(d: Disk, ino: nat, i: nat)
    requires ino in d.inodes && d.inodes[ino].indirect != 0 && d.inodes[ino].indirect in d.blocks
    ensures Slot(d, ino, MAX_BLOCKS) == d.inodes[ino].indirect
    ensures i < NINDIRECT ==> Slot(d, ino, NDIRECT + i) == Word(d.blocks[d.inodes[ino].indirect], i)
  {
  }

  // The free list does not depend on the inodes.
  lemma SameFree(d: Disk, d': Disk, nodes: seq<nat>)
    requires FreeOk(d, nodes) && d' == d.(inodes := d'.inodes)
    ensures FreeOk(d', nodes) && Stack(d', nodes) == Stack(d, nodes)
  {
    hide Chained;
    FreeFrame(d, d', nodes);
  }

  lemma FreedInodes(c: Disk, x: nat)
    requires FreeShape(c) && x in c.blocks
    ensures Freed(c, x).inodes == c.inodes && Freed(c, x).freeInode == c.freeInode
  {
  }

  lemma FreeingAll(d: Disk, nodes: seq<nat>, c: Disk, nodes': seq<nat>, ino: nat)
    requires Freeing(d, nodes, c, nodes', ino, NDIRECT) && Owned(d, ino, MAX_BLOCKS + 1) == Owned(d, ino, NDIRECT)
    ensures Freeing(d, nodes, c, nodes', ino, MAX_BLOCKS + 1)
  {
    hide Owned, Stack, FreeOk;
  }

  // How many bytes a read of `size` bytes at an offset gives.
  function Readable(fileSize: nat, offset: nat, size: nat): nat
  {
    var end := if fileSize < MAX_SIZE then fileSize else MAX_SIZE;
    if end <= offset then 0 else if size < end - offset then size else end - offset
  }

  lemma ByteIn(d: Disk, ino: nat, off: nat, k: nat, b: nat)
    requires b == Slot(d, ino, off / BLOCK_SIZE) && off % BLOCK_SIZE + k < BLOCK_SIZE
    requires b != 0 ==> b in d.blocks && |d.blocks[b]| == BLOCK_SIZE
    ensures ByteAt(d, ino, off + k) == if b == 0 then 0 else d.blocks[b][off % BLOCK_SIZE + k]
  {
    hide Slot;
    assert (off + k) / BLOCK_SIZE == off / BLOCK_SIZE && (off + k) % BLOCK_SIZE == off % BLOCK_SIZE + k;
  }

  lemma SplicedNone(d: Disk, ino: nat, off: nat, data: Bytes)
    requires data == []
    ensures SplicedFile(d, d, ino, off, data)
  {
  }

  lemma SplicedSame(d: Disk, c: Disk, e: Disk, ino: nat, off: nat, data: Bytes)
    requires SplicedFile(d, c, ino, off, data) && SameFiles(c, e)
    ensures SplicedFile(d, e, ino, off, data) && (IsFile(c, ino) ==> IsFile(e, ino))
  {
    hide ByteAt;
    forall i, o | IsFile(d, i) && 0 <= o < MAX_SIZE
      ensures ByteAt(e, i, o) == if i == ino && off <= o < off + |data| then data[o - off] else ByteAt(d, i, o)
    {
      assert IsFile(c, i);
    }
  }

  lemma LastSlot(d: Disk, ino: nat)
    requires ino in d.inodes
    ensures Slot(d, ino, MAX_BLOCKS) == d.inodes[ino].indirect
  {
  }

  lemma NoneFilled(d: Disk, ino: nat, lo: nat)
    ensures FilledTo(d, d, ino, lo, lo) && Need(d, ino, lo, lo) == 0
  {
    hide Slot;
  }

  // Writing data takes no block and empties no slot.
  lemma WrittenFills(c: Disk, nodes: seq<nat>, ino: nat, k: nat, b: nat, off: nat, data: Bytes, d: Disk, lo: nat)
    requires DiskOk(c, nodes) && Uses(c, ino, k, b) && k < MAX_BLOCKS && b in c.blocks && off + |data| <= |c.blocks[b]|
    requires FilledTo(d, c, ino, lo, k + 1)
    ensures var c' := BlockWritten(c, b, off, data);
            FilledTo(d, c', ino, lo, k + 1) && Stack(c', nodes) == Stack(c, nodes)
  {
    hide FreeOk, Slot, Stack, NoDup, Spliced;
    var c' := BlockWritten(c, b, off, data);
    forall j: nat | j <= MAX_BLOCKS ensures Slot(c', ino, j) == Slot(c, ino, j) {
      BlockWrittenSlots(c, nodes, ino, k, b, off, data, ino, j);
    }
    FreeOkShape(c, nodes);
    assert b !in Stack(c, nodes);
    FreeFrame(c, c', nodes);
  }

  lemma UsedBlock(d: Disk, nodes: seq<nat>, ino: nat, k: nat, b: nat)
    requires DiskOk(d, nodes) && Uses(d, ino, k, b)
    ensures b in d.blocks && |d.blocks[b]| == BLOCK_SIZE && IsFile(d, ino)
  {
    hide Stack, IsChain, NoDup;
  }

  // A splice leaves the free inodes and the inode's size alone.
  lemma SplicedParts(d: Disk, d': Disk, ino: nat, off: nat, data: Bytes, inos: seq<nat>)
    requires SplicedFile(d, d', ino, off, data) && InodesFree(d, inos) && ino in d.inodes
    ensures InodesFree(d', inos) && ino in d'.inodes && d'.inodes[ino].size == d.inodes[ino].size
    ensures d'.inodes[ino].kind == d.inodes[ino].kind
  {
    InodeChainFrame(d, d', d.freeInode, inos);
  }

  lemma SizeOk(d: Disk, nodes: seq<nat>, inos: seq<nat>, ino: nat, size: nat)
    requires DiskOk(d, nodes) && InodesFree(d, inos) && IsFile(d, ino)
    ensures var d' := d.(inodes := d.inodes[ino := d.inodes[ino].(size := size)]);
            DiskOk(d', nodes) && InodesFree(d', inos)
  {
    hide FreeOk, Stack, Slot;
    var d' := d.(inodes := d.inodes[ino := d.inodes[ino].(size := size)]);
    FreeOkShape(d, nodes);
    FreeFrame(d, d', nodes);
    InodeChainFrame(d, d', d.freeInode, inos);
    forall i, j, x ensures Uses(d', i, j, x) <==> Uses(d, i, j, x) {
      SizeSlot(d, ino, size, i, j);
    }
    forall x | x in d'.blocks && x !in Stack(d', nodes) ensures exists i, j :: Uses(d', i, j, x) {
      var i, j :| Uses(d, i, j, x);
      assert Uses(d', i, j, x);
    }
  }

  lemma SizeSlot(d: Disk, ino: nat, size: nat, i: nat, j: nat)
    requires ino in d.inodes
    ensures Slot(d.(inodes := d.inodes[ino := d.inodes[ino].(size := size)]), i, j) == Slot(d, i, j)
  {
  }

  lemma NodeStep(b: Bytes, free: seq<nat>, last: nat, i: nat)
    requires |b| == BLOCK_SIZE && |free| == NENTRIES && last < WORD && i < NENTRIES
    requires forall k :: 0 <= k < NENTRIES ==> free[k] < WORD
    ensures NodeFrom(WithWord(b, i, free[i]), free, last, i + 1) == NodeFrom(b, free, last, i)
  {
  }

  lemma NodeEnd(b: Bytes, free: seq<nat>, last: nat)
    requires |b| == BLOCK_SIZE && |free| == NENTRIES && last < WORD
    requires forall k :: 0 <= k < NENTRIES ==> free[k] < WORD
    ensures NodeFrom(b, free, last, NENTRIES) == WithWord(b, NENTRIES, last)
  {
  }

  // ---------- runs ----------

  // Nothing but zeros past the end of a file, and no file too long.
  ghost predicate Sound(d: Disk) { ZeroTail(d) && forall i :: IsFile(d, i) ==> d.inodes[i].size <= MAX_SIZE }

  // The files of a disk.
  ghost function Files(d: Disk): map<nat, Bytes>
  {
    map i | i in d.inodes && IsFile(d, i) :: Contents(d, i, d.inodes[i].size)
  }

  lemma SameContents(d: Disk, d': Disk, i: nat, n: nat)
    requires forall o :: 0 <= o < n ==> ByteAt(d', i, o) == ByteAt(d, i, o)
    ensures Contents(d', i, n) == Contents(d, i, n)
  {
    hide ByteAt;
  }

  lemma WroteFiles(d: Disk, d': Disk, ino: nat, off: nat, data: Bytes)
    requires Sound(d) && Wrote(d, d', ino, off, data)
    ensures Sound(d') && ino in Files(d) && Files(d') == Files(d)[ino := Stored(Files(d)[ino], off, data)]
  {
    hide ByteAt, Contents, Stored, SplicedFile;
    WrittenContents(d, d', ino, off, data);
    WroteParts(d, d', ino, off, data);
    WroteFile(d, d', ino, off, data);
    forall i | i in d.inodes ensures IsFile(d', i) <==> IsFile(d, i) {
      WroteKinds(d, d', ino, off, data, i);
    }
    forall i | IsFile(d', i) && i != ino
      ensures d'.inodes[i].size == d.inodes[i].size
              && Contents(d', i, d.inodes[i].size) == Contents(d, i, d.inodes[i].size)
    {
      WroteBytes(d, d', ino, off, data, i, 0);
      forall o | 0 <= o < d.inodes[i].size ensures ByteAt(d', i, o) == ByteAt(d, i, o) {
        WroteBytes(d, d', ino, off, data, i, o);
      }
      SameContents(d, d', i, d.inodes[i].size);
    }
  }

  lemma WroteKinds(d: Disk, d': Disk, ino: nat, off: nat, data: Bytes, i: nat)
    requires Wrote(d, d', ino, off, data) && i in d.inodes
    ensures i in d'.inodes && d'.inodes[i].kind == d.inodes[i].kind
  {
    hide ByteAt;
    var e := WithSize(d', ino, d.inodes[ino].size);
    assert e.inodes[i].kind == d.inodes[i].kind;
  }

  lemma MadeFiles(d: Disk, nodes: seq<nat>, inos: seq<nat>, kind: nat)
    requires DiskOk(d, nodes) && InodesFree(d, inos) && d.freeInode != END && (kind == DATA || kind == DIR) && Sound(d)
    ensures d.freeInode in d.inodes && Sound(Created(d, kind)) && Files(Created(d, kind)) == Files(d)[d.freeInode := []]
  {
    hide ByteAt, Contents, DiskOk, InodesFree;
    CreatedOk(d, nodes, inos, kind);
    CreatedTail(d, nodes, inos, kind);
    var d' := Created(d, kind);
    assert Contents(d', d.freeInode, 0) == [] by { NoBytes(d', d.freeInode); }
    forall i | IsFile(d, i) ensures Contents(d', i, d.inodes[i].size) == Contents(d, i, d.inodes[i].size) {
      SameContents(d, d', i, d.inodes[i].size);
    }
  }

  lemma NoBytes(d: Disk, i: nat)
    ensures Contents(d, i, 0) == []
  {
  }

  // Making a file of a kind, and storing data in one.
  datatype Op = Make(kind: nat) | Store(ino: nat, off: nat, data: Bytes)

  ghost predicate GoodOps(ops: seq<Op>)
  {
    forall i :: 0 <= i < |ops| && ops[i].Make? ==> ops[i].kind == DATA || ops[i].kind == DIR
  }

  // What the files are after a run of operations that all succeed, where `inos` are the
  // inodes that new files get.
  ghost function Replayed(fs: map<nat, Bytes>, inos: seq<nat>, ops: seq<Op>): map<nat, Bytes>
    decreases |ops|
  {
    if ops == [] then fs
    else match ops[0]
         case Make(_) => if inos == [] then fs else Replayed(fs[inos[0] := []], inos[1..], ops[1..])
         case Store(ino, off, data) =>
           if ino !in fs then fs else Replayed(fs[ino := Stored(fs[ino], off, data)], inos, ops[1..])
  }

  // The bytes of a file from an offset on, as many as there are.
  function Part(b: Bytes, offset: nat, size: nat): Bytes
  {
    if offset >= |b| then [] else if size < |b| - offset then b[offset..offset + size] else b[offset..]
  }

  lemma FreeInodeIs(d: Disk, inos: seq<nat>)
    requires InodesFree(d, inos) && inos != []
    ensures d.freeInode == inos[0] && d.freeInode != END
  {
  }

  lemma SoundSize(d: Disk, ino: nat)
    requires Sound(d) && IsFile(d, ino)
    ensures d.inodes[ino].size <= MAX_SIZE
  {
  }

  // The disk cannot do an operation: there is no inode, or no such file, or not enough room.
  ghost predicate Refuses(d: Disk, nodes: seq<nat>, inos: seq<nat>, op: Op)
  {
    match op
    case Make(_) => inos == []
    case Store(ino, off, data) =>
      || !IsFile(d, ino)
      || off + |data| > MAX_SIZE
      || Needed(d, ino, off, |data|) > |Stack(d, nodes)|
  }

  // A run of operations, up to the first that fails. `d` is the disk that operation `n` meets.
  method Replay(disk: Simdisk, ops: seq<Op>) returns (ok: bool, n: nat, ghost d: Disk, ghost rest: seq<nat>)
    requires disk.Valid() && Sound(disk.Value()) && GoodOps(ops)
    modifies disk, disk.free
    ensures disk.Valid() && n <= |ops| && (ok <==> n == |ops|) && Sound(d)
    ensures Replayed(Files(d), rest, ops[n..]) == Replayed(old(Files(disk.Value())), old(disk.inos), ops)
    ensures ok ==> Sound(disk.Value()) && Files(disk.Value()) == Replayed(old(Files(disk.Value())), old(disk.inos), ops)
    ensures !ok ==> exists nodes :: DiskOk(d, nodes) && InodesFree(d, rest) && Refuses(d, nodes, rest, ops[n])
  {
    hide DiskOk, InodesFree, Sound, Files, Stored, SplicedFile, ByteAt, Stack, Needed, StopsAt;
    n := 0;
    assert ops[0..] == ops;
    while n < |ops|
      invariant 0 <= n <= |ops| && disk.Valid() && Sound(disk.Value())
      invariant Replayed(Files(disk.Value()), disk.inos, ops[n..])
                == Replayed(old(Files(disk.Value())), old(disk.inos), ops)
    {
      d, rest := disk.Value(), disk.inos;
      ghost var nodes := disk.nodes;
      assert ops[n..][0] == ops[n] && ops[n..][1..] == ops[n + 1..];
      match ops[n] {
        case Make(kind) =>
          var ino := disk.Create(kind);
          if ino.None? {
            assert Refuses(d, nodes, rest, ops[n]);
            ok := false;
            return;
          }
          FreeInodeIs(d, rest);
          MadeFiles(d, nodes, rest, kind);
        case Store(ino, off, data) =>
          var good;
          ghost var done;
          good, done := disk.Write(ino, off, data);
          if !good {
            assert Refuses(d, nodes, rest, ops[n]);
            ok := false;
            return;
          }
          assert data[..|data|] == data;
          assert Wrote(d, disk.Value(), ino, off, data) by { SoundSize(d, ino); }
          WroteFiles(d, disk.Value(), ino, off, data);
      }
      n := n + 1;
    }
    ok, d, rest := true, disk.Value(), disk.inos;
  }

  // Over every run of creating and writing, reading gives the bytes that the run says.
  method ReplayThenRead(disk: Simdisk, ops: seq<Op>, ino: nat, offset: nat, size: nat)
      returns (ok: bool, res: Option<Bytes>)
    requires disk.Valid() && Sound(disk.Value()) && GoodOps(ops)
    modifies disk, disk.free
    ensures disk.Valid()
    ensures ok ==> var fs := Replayed(old(Files(disk.Value())), old(disk.inos), ops);
                   res == if ino in fs then Some(Part(fs[ino], offset, size)) else None
  {
    hide DiskOk, InodesFree, Replayed, ByteAt;
    res := None;
    var n;
    ghost var d, rest;
    ok, n, d, rest := Replay(disk, ops);
    if ok {
      res := disk.Read(ino, offset, size);
      if res.Some? {
        ReadPart(disk.Value(), ino, offset, size, res.value);
      }
    }
  }

  // What has been written can be read back.
  method WriteThenRead(disk: Simdisk, ino: nat, offset: nat, data: Bytes) returns (ok: bool, res: Option<Bytes>)
    requires disk.Valid()
    modifies disk, disk.free
    ensures disk.Valid() && (ok ==> res == Some(data))
  {
    hide DiskOk, InodesFree, ByteAt, Needed, Stack, StopsAt;
    ghost var done, d := 0, disk.Value();
    res := None;
    ok, done := disk.Write(ino, offset, data);
    if ok {
      assert data[..|data|] == data;
      ghost var e := disk.Value();
      assert WithSize(e, ino, d.inodes[ino].size).inodes[ino].kind == d.inodes[ino].kind;
      res := disk.Read(ino, offset, |data|);
      assert res.Some? && |res.value| == |data|;
      forall k | 0 <= k < |data| ensures ByteAt(e, ino, offset + k) == data[k] {
        SizeByte(e, ino, d.inodes[ino].size, ino, offset + k);
      }
      assert res.value == data;
    }
  }

  lemma ReadPart(d: Disk, ino: nat, offset: nat, size: nat, r: Bytes)
    requires IsFile(d, ino) && Sound(d) && |r| == Readable(d.inodes[ino].size, offset, size)
    requires forall k :: 0 <= k < |r| ==> r[k] == ByteAt(d, ino, offset + k)
    ensures ino in Files(d) && r == Part(Files(d)[ino], offset, size)
  {
    hide ByteAt;
    assert d.inodes[ino].size <= MAX_SIZE;
  }
}
