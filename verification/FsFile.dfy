/** Files as flat byte sequences, what one turn of the loop of `writei` does to them, and how many blocks
    it logs. */
module FsFile {
  import opened Basics
  import opened FsBlocks
  import opened FsState
  import opened FsCode

  const MAXBYTES := MAXFILE * BSIZE

  /** Number of blocks a file of s bytes occupies. */
  function Blocks(s: nat): nat { (s + BSIZE - 1) / BSIZE }

  predicate IsInode(f: Fs, i: int) { 0 <= i < |f.inodes| && |f.inodes[i].addrs| == NDIRECT + 1 }

  ghost function ByteAt(f: Fs, i: int, pos: int): byte
    requires IsInode(f, i) && 0 <= pos < MAXBYTES
  {
    if 0 < Addr(f, i, pos / BSIZE) < |f.blocks| then f.blocks[Addr(f, i, pos / BSIZE)][pos % BSIZE] else 0
  }

  /** Exactly the first n file blocks of inode i are mapped, and the indirect block if needed. */
  ghost predicate Extent(f: Fs, i: int, n: int)
    requires IsInode(f, i)
  {
    && (forall k | 0 <= k < MAXFILE :: Addr(f, i, k) != 0 <==> k < n)
    && (Addr(f, i, IND) != 0 <==> n > NDIRECT)
  }

  ghost predicate FileOk(f: Fs, i: int) {
    IsInode(f, i) && f.inodes[i].size <= MAXBYTES && Extent(f, i, Blocks(f.inodes[i].size))
  }

  /** The bytes of the file. */
  ghost function Contents(f: Fs, i: int): seq<byte>
    requires IsInode(f, i) && f.inodes[i].size <= MAXBYTES
  {
    seq(f.inodes[i].size, pos requires 0 <= pos < f.inodes[i].size => ByteAt(f, i, pos))
  }

  /** Inode j, its slots and its data are as before. */
  ghost predicate SameFile(f: Fs, f': Fs, j: int)
    requires IsInode(f, j)
  {
    && IsInode(f', j) && f'.inodes[j].size == f.inodes[j].size
    && (forall k | 0 <= k <= IND :: Addr(f', j, k) == Addr(f, j, k))
    && (forall pos | 0 <= pos < MAXBYTES :: ByteAt(f', j, pos) == ByteAt(f, j, pos))
  }

  lemma SameFileSame(f: Fs, f': Fs, j: int)
    requires IsInode(f, j) && SameFile(f, f', j)
    ensures FileOk(f, j) ==> FileOk(f', j) && Contents(f', j) == Contents(f, j)
    ensures forall n | Extent(f, j, n) :: Extent(f', j, n)
  {
    hide Addr, ByteAt;
  }

  // ---------- what bmap does to files ----------

  lemma MappedOthers(sb: Super, f: Fs, owner: map<nat, Slot>, f': Fs, owner': map<nat, Slot>,
                     i: int, bn: int, a: nat, j: int)
    requires Base(sb, f, owner) && IsSlot(f, i, bn) && bn < MAXFILE && Mapped(sb, f, owner, f', owner', i, bn, a)
    requires 0 <= j < |f.inodes| && j != i
    ensures SameFile(f, f', j)
  {
    hide Addr, UsedIs;
    assert forall k | 0 <= k <= IND :: IsSlot(f, j, k);
    forall pos | 0 <= pos < MAXBYTES ensures ByteAt(f', j, pos) == ByteAt(f, j, pos) {
      SlotBlockSame(sb, f, owner, f', j, pos / BSIZE);
    }
  }

  /** A file block at the same address with the same data. */
  lemma SlotBlockSame(sb: Super, f: Fs, owner: map<nat, Slot>, f': Fs, j: int, k: int)
    requires Base(sb, f, owner) && IsSlot(f, j, k) && k < MAXFILE && SameData(f, f', owner)
    requires Shape(sb, f')
    ensures Addr(f, j, k) != 0 ==> Addr(f, j, k) < |f.blocks| && f'.blocks[Addr(f, j, k)] == f.blocks[Addr(f, j, k)]
  {
    hide Addr, UsedIs;
  }

  /** For inode i itself: one more block may be mapped, and bytes already there stay. */
  lemma MappedSelf(sb: Super, f: Fs, owner: map<nat, Slot>, f': Fs, owner': map<nat, Slot>,
                   i: int, bn: int, a: nat, n: int)
    requires Base(sb, f, owner) && IsSlot(f, i, bn) && bn < MAXFILE && Mapped(sb, f, owner, f', owner', i, bn, a)
    requires Extent(f, i, n) && 0 <= bn <= n
    ensures IsInode(f', i) && Extent(f', i, if bn < n then n else bn + 1)
    ensures forall pos | 0 <= pos < MAXBYTES && pos / BSIZE < n :: ByteAt(f', i, pos) == ByteAt(f, i, pos)
  {
    hide Addr, UsedIs;
    assert forall k | 0 <= k <= IND :: IsSlot(f, i, k);
    forall pos | 0 <= pos < MAXBYTES && pos / BSIZE < n ensures ByteAt(f', i, pos) == ByteAt(f, i, pos) {
      SlotBlockSame(sb, f, owner, f', i, pos / BSIZE);
      assert Addr(f, i, pos / BSIZE) != 0;
    }
  }

  // ---------- writing into one block ----------

  /** memmove(bp->data + o, data, |data|) */
  function Patch(b: Block, o: nat, data: seq<byte>): Block
    requires o + |data| <= BSIZE
  {
    b[..o] + data + b[o + |data|..]
  }

  /** Data written into the block of slot bn changes those bytes of that file and nothing else. */
  lemma PatchEffect(sb: Super, f: Fs, owner: map<nat, Slot>, i: int, bn: int, o: nat, data: seq<byte>)
    requires Base(sb, f, owner) && IsSlot(f, i, bn) && bn < MAXFILE && Addr(f, i, bn) != 0 && o + |data| <= BSIZE
    ensures Addr(f, i, bn) < |f.blocks|
    ensures var a := Addr(f, i, bn); var f' := Fs(f.blocks[a := Patch(f.blocks[a], o, data)], f.inodes);
            && Base(sb, f', owner) && SameAddrs(f, f')
            && forall j, pos | 0 <= j < |f.inodes| && 0 <= pos < MAXBYTES ::
                 ByteAt(f', j, pos) ==
                   if j == i && pos / BSIZE == bn && o <= pos % BSIZE < o + |data| then data[pos % BSIZE - o]
                   else ByteAt(f, j, pos)
  {
    var a := Addr(f, i, bn);
    var f' := Fs(f.blocks[a := Patch(f.blocks[a], o, data)], f.inodes);
    WriteDataKeeps(sb, f, owner, a, Patch(f.blocks[a], o, data));
    hide Addr;
    forall j, pos | 0 <= j < |f.inodes| && 0 <= pos < MAXBYTES
      ensures ByteAt(f', j, pos) ==
                if j == i && pos / BSIZE == bn && o <= pos % BSIZE < o + |data| then data[pos % BSIZE - o]
                else ByteAt(f, j, pos)
    {
      assert IsSlot(f, j, pos / BSIZE);
    }
  }

  // ---------- writei ----------

  /** File bytes [bn * BSIZE + o, ...) became `data`; n blocks were mapped before. */
  ghost predicate Wrote(f: Fs, f': Fs, i: int, bn: int, o: nat, data: seq<byte>, n: int)
    requires IsInode(f, i)
  {
    && SameSizes(f, f') && IsInode(f', i) && Extent(f', i, if bn < n then n else bn + 1)
    && (forall j | 0 <= j < |f.inodes| && j != i && IsInode(f, j) :: SameFile(f, f', j))
    && (forall pos | 0 <= pos < MAXBYTES && pos / BSIZE == bn && o <= pos % BSIZE < o + |data| ::
          ByteAt(f', i, pos) == data[pos % BSIZE - o])
    && (forall pos | 0 <= pos < MAXBYTES && pos / BSIZE < n
          && !(pos / BSIZE == bn && o <= pos % BSIZE < o + |data|) :: ByteAt(f', i, pos) == ByteAt(f, i, pos))
  }

  lemma MappedWrote(sb: Super, f: Fs, owner: map<nat, Slot>, f1: Fs, owner1: map<nat, Slot>,
                    i: int, bn: int, a: nat, n: int)
    requires Base(sb, f, owner) && IsSlot(f, i, bn) && bn < MAXFILE && Mapped(sb, f, owner, f1, owner1, i, bn, a)
    requires Extent(f, i, n) && 0 <= bn <= n
    ensures Wrote(f, f1, i, bn, 0, [], n)
  {
    hide Addr, ByteAt, Owned, UsedIs, SameData, Zero, SameFile, Extent;
    MappedSelf(sb, f, owner, f1, owner1, i, bn, a, n);
    forall j | 0 <= j < |f.inodes| && j != i ensures SameFile(f, f1, j) {
      MappedOthers(sb, f, owner, f1, owner1, i, bn, a, j);
    }
  }

  lemma PatchWrote(sb: Super, f: Fs, f1: Fs, owner1: map<nat, Slot>, i: int, bn: int, n: int, o: nat, data: seq<byte>)
    requires Shape(sb, f) && Base(sb, f1, owner1) && IsSlot(f, i, bn) && bn < MAXFILE
    requires Wrote(f, f1, i, bn, 0, [], n) && Addr(f1, i, bn) != 0 && o + |data| <= BSIZE
    ensures Addr(f1, i, bn) < |f1.blocks|
    ensures var a := Addr(f1, i, bn); var f2 := Fs(f1.blocks[a := Patch(f1.blocks[a], o, data)], f1.inodes);
            Base(sb, f2, owner1) && Wrote(f, f2, i, bn, o, data, n) && SameAddrs(f1, f2)
  {
    hide Addr, ByteAt, Owned, UsedIs;
    PatchEffect(sb, f1, owner1, i, bn, o, data);
    var a := Addr(f1, i, bn);
    var f2 := Fs(f1.blocks[a := Patch(f1.blocks[a], o, data)], f1.inodes);
    hide Patch;
    assert forall k | 0 <= k <= IND :: IsSlot(f1, i, k) && Addr(f2, i, k) == Addr(f1, i, k);
    forall j | 0 <= j < |f.inodes| && j != i && IsInode(f, j) ensures SameFile(f, f2, j) {
      assert SameFile(f, f1, j);
    }
  }

  /** One turn of the loop of `writei`: bread(bmap(..)), memmove, log_write. False is the
      panic of `balloc`. */
  method PutBlock(fs: FileSystem, i: nat, bn: nat, o: nat, data: seq<byte>, ghost n: int)
    returns (ok: bool, ghost a: nat, ghost maps: set<nat>)
    requires Base(fs.sb, fs.f, fs.owner) && IsInode(fs.f, i) && bn < MAXFILE && o + |data| <= BSIZE
    requires Extent(fs.f, i, n) && bn <= n
    modifies fs`f, fs`logged, fs`owner
    ensures !ok ==> Shape(fs.sb, fs.f) && forall b | 0 <= b < fs.sb.size :: Used(fs.sb, fs.f, b)
    ensures ok ==>
              && Base(fs.sb, fs.f, fs.owner) && Wrote(old(fs.f), fs.f, i, bn, o, data, n)
              && |maps| <= NewBlocks(old(fs.f), i, bn)
              && fs.logged <= old(fs.logged) + maps + {a} + Indirect(fs.f, i)
              && (bn < n ==> fs.f.inodes == old(fs.f).inodes)
              && (Addr(old(fs.f), i, IND) != 0 ==> Addr(fs.f, i, IND) == Addr(old(fs.f), i, IND))
              && Ahead(fs.sb, old(fs.f), fs.f, old(fs.logged), fs.logged)
  {
    hide Addr, ByteAt, Owned, UsedIs, Used, SameData, Zero, Wrote;
    var r;
    r, maps := fs.Bmap(i, bn);
    if r.None? {
      return false, 0, {};
    }
    a := r.value;
    ghost var f1 := fs.f;
    OwnedLogs(fs.sb, f1, fs.owner, a);
    MappedWrote(fs.sb, old(fs.f), old(fs.owner), f1, fs.owner, i, bn, a, n);
    PatchWrote(fs.sb, old(fs.f), f1, fs.owner, i, bn, n, o, data);
    fs.f := Fs(fs.f.blocks[r.value := Patch(fs.f.blocks[r.value], o, data)], fs.f.inodes);
    fs.logged := fs.logged + {r.value};
    ok := true;
  }

  /** Mapped blocks once a write into a file of s bytes has got as far as off. */
  function Reach(s: nat, off: nat): nat { if Blocks(off) > Blocks(s) then Blocks(off) else Blocks(s) }

  /** The part of `src` before off has been written, starting at start. */
  ghost predicate Progress(f: Fs, f': Fs, i: int, src: seq<byte>, start: nat, off: nat)
    requires IsInode(f, i) && start <= off <= start + |src|
  {
    && SameSizes(f, f') && IsInode(f', i) && Extent(f', i, Reach(f.inodes[i].size, off))
    && (forall j | 0 <= j < |f.inodes| && j != i && IsInode(f, j) :: SameFile(f, f', j))
    && (forall pos | start <= pos < off && pos < MAXBYTES :: ByteAt(f', i, pos) == src[pos - start])
    && (forall pos | 0 <= pos < MAXBYTES && pos / BSIZE < Blocks(f.inodes[i].size) && !(start <= pos < off) ::
          ByteAt(f', i, pos) == ByteAt(f, i, pos))
  }

  /** The next chunk ends at the end of src or at the end of a block. */
  predicate IsChunk(off: nat, end: nat, m: nat) {
    off < end && m == if end - off < BSIZE - off % BSIZE then end - off else BSIZE - off % BSIZE
  }

  lemma ChunkArithmetic(s: nat, start: nat, off: nat, end: nat, m: nat)
    requires IsChunk(off, end, m) && start <= off && start <= s && end <= MAXBYTES
    requires off == start || off % BSIZE == 0
    ensures 0 < m && off + m <= end && off % BSIZE + m <= BSIZE && off / BSIZE < MAXFILE
    ensures off + m == end || (off + m) % BSIZE == 0
    ensures off / BSIZE <= Reach(s, off) && (off + m <= s ==> off / BSIZE < Reach(s, off))
    ensures Reach(s, off + m) == if off / BSIZE < Reach(s, off) then Reach(s, off) else off / BSIZE + 1
    ensures forall pos: nat :: off <= pos < off + m <==>
              pos / BSIZE == off / BSIZE && off % BSIZE <= pos % BSIZE < off % BSIZE + m
  {
    forall pos: nat
      ensures off <= pos < off + m <==>
              pos / BSIZE == off / BSIZE && off % BSIZE <= pos % BSIZE < off % BSIZE + m
    {
    }
  }

  lemma ProgressStep(f: Fs, f1: Fs, f2: Fs, i: int, src: seq<byte>, start: nat, off: nat, m: nat)
    requires IsInode(f, i) && start <= off && IsChunk(off, start + |src|, m)
    requires start <= f.inodes[i].size && start + |src| <= MAXBYTES && (off == start || off % BSIZE == 0)
    requires Progress(f, f1, i, src, start, off)
    requires off % BSIZE + m <= BSIZE && off + m <= start + |src|
    requires Wrote(f1, f2, i, off / BSIZE, off % BSIZE, src[off - start..off - start + m], Reach(f.inodes[i].size, off))
    ensures Progress(f, f2, i, src, start, off + m)
  {
    hide ByteAt, Addr, Extent;
    ChunkArithmetic(f.inodes[i].size, start, off, start + |src|, m);
    forall j | 0 <= j < |f.inodes| && j != i && IsInode(f, j) ensures SameFile(f, f2, j) {
      assert SameFile(f, f1, j);
    }
    hide Reach, SameFile, SameSizes;
    assert forall pos | off <= pos < off + m :: ByteAt(f2, i, pos) == src[pos - start];
  }

  /** Chunks into which `writei` has cut the bytes from start to off. */
  function Chunks(start: nat, off: nat): int {
    if off <= start then 0 else (off - 1) / BSIZE - start / BSIZE + 1
  }

  /** Upper bound on the blocks logged by a write of bytes [start, end): each data block, a bitmap
      block for each newly mapped one, one more for the indirect block, the indirect block and
      the inode. A first block that is written only in part is mapped already. */
  function LogBudget(start: nat, end: nat): int {
    if end <= start then 0
    else Chunks(start, end) + (Chunks(start, end) - if start % BSIZE != 0 then 1 else 0) + 3
  }

  /** What the loop of `writei` has logged so far. */
  ghost predicate Accounted(f: Fs, f': Fs, i: int, start: nat, off: nat, logged: set<nat>, logged': set<nat>,
                            data: set<nat>, maps: set<nat>)
    requires IsInode(f, i) && IsInode(f', i)
  {
    && logged' <= logged + maps + data + Indirect(f', i) && |data| <= Chunks(start, off)
    && |maps| <= Reach(f.inodes[i].size, off) - Blocks(f.inodes[i].size)
                 + (if Blocks(f.inodes[i].size) <= NDIRECT < Reach(f.inodes[i].size, off) then 1 else 0)
  }

  lemma AccountStep(f: Fs, f1: Fs, f2: Fs, i: int, start: nat, off: nat, end: nat, m: nat,
                    logged: set<nat>, logged1: set<nat>, logged2: set<nat>,
                    data: set<nat>, maps: set<nat>, a: nat, more: set<nat>)
    requires IsInode(f, i) && IsInode(f1, i) && IsInode(f2, i)
    requires IsChunk(off, end, m) && start <= off && end <= MAXBYTES && (off == start || off % BSIZE == 0)
    requires start <= f.inodes[i].size && Extent(f1, i, Reach(f.inodes[i].size, off))
    requires Accounted(f, f1, i, start, off, logged, logged1, data, maps)
    requires off / BSIZE < MAXFILE && |more| <= NewBlocks(f1, i, off / BSIZE)
    requires logged2 <= logged1 + more + {a} + Indirect(f2, i)
    requires Addr(f1, i, IND) != 0 ==> Addr(f2, i, IND) == Addr(f1, i, IND)
    ensures Accounted(f, f2, i, start, off + m, logged, logged2, data + {a}, maps + more)
  {
    hide Addr, Extent, Blocks, Chunks, Reach;
    ChunkArithmetic(f.inodes[i].size, start, off, end, m);
    ChunkCount(start, off, end, m);
    NewBlocksCount(f1, i, off / BSIZE, Reach(f.inodes[i].size, off));
    ReachGrows(f.inodes[i].size, off);
    UnionSize(maps, more);
    UnionSize(data, {a});
    hide NewBlocks, IsChunk;
  }

  lemma ReachGrows(s: nat, off: nat)
    ensures Blocks(s) <= Reach(s, off)
  {
  }

  lemma ChunkCount(start: nat, off: nat, end: nat, m: nat)
    requires IsChunk(off, end, m) && start <= off && (off == start || off % BSIZE == 0)
    ensures Chunks(start, off + m) == Chunks(start, off) + 1
  {
  }

  lemma NewBlocksCount(f: Fs, i: int, bn: int, n: int)
    requires IsInode(f, i) && 0 <= bn < MAXFILE && Extent(f, i, n)
    ensures NewBlocks(f, i, bn) == (if bn >= n then 1 else 0) + (if bn >= NDIRECT >= n then 1 else 0)
  {
    hide Addr;
  }
}
