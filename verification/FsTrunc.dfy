/** `itrunc` (fs.c) and the chunked `filewrite` (file.c). */
module FsTrunc {
  import opened Basics
  import opened FsBlocks
  import opened FsState
  import opened FsCode
  import opened FsFile
  import opened FsIo

  // ---------- filewrite ----------

  const CHUNK := (MAXOPBLOCKS - 1 - 1 - 2) / 2 * 512

  /** n1 in `filewrite`, for n bytes still to write */
  function ChunkSize(n: nat): (n1: nat)
    ensures n1 <= CHUNK && n1 <= n && (0 < n ==> 0 < n1)
  {
    if n > CHUNK then CHUNK else n
  }

  /** A chunk of `filewrite` logs at most MAXOPBLOCKS blocks, wherever it starts. */
  lemma ChunkFitsInTransaction(start: nat, n: nat)
    requires n <= CHUNK
    ensures LogBudget(start, start + n) <= MAXOPBLOCKS
  {
  }

  lemma SpliceTwice(c: seq<byte>, off: nat, a: seq<byte>, b: seq<byte>)
    requires off <= |c|
    ensures off + |a| <= |Splice(c, off, a)|
    ensures Splice(Splice(c, off, a), off + |a|, b) == Splice(c, off, a + b)
  {
  }

  lemma OthersTrans(f: Fs, f1: Fs, f2: Fs, i: int)
    requires forall j | 0 <= j < |f.inodes| :: IsInode(f, j)
    requires forall j | 0 <= j < |f1.inodes| :: IsInode(f1, j)
    requires OthersSame(f, f1, i) && OthersSame(f1, f2, i)
    ensures OthersSame(f, f2, i)
  {
    hide ByteAt, Addr;
    forall j | 0 <= j < |f.inodes| && j != i ensures SameFile(f, f2, j) {
      assert SameFile(f, f1, j) && SameFile(f1, f2, j);
    }
  }

  ghost predicate AllInodes(f: Fs) { forall j | 0 <= j < |f.inodes| :: IsInode(f, j) }

  /** The state of `filewrite` after its first `done` bytes. */
  ghost predicate Written(f: Fs, f': Fs, i: int, off: nat, data: seq<byte>, done: nat)
    requires FileOk(f, i) && AllInodes(f) && done <= |data|
  {
    && FileOk(f', i) && OthersSame(f, f', i)
    && (off <= f.inodes[i].size ==> Contents(f', i) == Splice(Contents(f, i), off, data[..done]))
    && (done == 0 ==> f' == f)
  }

  /** `filewrite` between two transactions: the file is the old one with the first `done` bytes
      of the data laid over it. */
  ghost predicate InProgress(fs: FileSystem, f: Fs, i: int, off: nat, data: seq<byte>, done: nat)
    reads fs
  {
    && Ready(fs) && 0 <= i < |fs.f.inodes| == |f.inodes| && FileOk(f, i) && AllInodes(f)
    && done <= |data| && Written(f, fs.f, i, off, data, done)
    && (done > 0 ==> off <= f.inodes[i].size && off + done <= MAXBYTES)
  }

  /** The next chunk, as `writei` sees it, is refused. */
  ghost predicate NextRefused(fs: FileSystem, i: int, off: nat, n: nat)
    reads fs
  {
    0 <= i < |fs.f.inodes| && Refused(fs.f.inodes[i].size, off, ChunkSize(n))
  }

  ghost predicate DiskFull(fs: FileSystem)
    reads fs
  {
    Shape(fs.sb, fs.f) && forall b | 0 <= b < fs.sb.size :: Used(fs.sb, fs.f, b)
  }

  /** `filewrite` on an inode: the data goes in as one splice although each chunk is its own
      transaction, and the largest of these transactions logs at most MAXOPBLOCKS blocks. On an
      error the chunks before the refused one remain. */
  method FileWrite(fs: FileSystem, i: nat, data: seq<byte>, off0: nat)
    returns (r: Ret, off: nat, done: nat, ghost largest: nat)
    requires Ready(fs) && i < |fs.f.inodes| && off0 < UINT
    modifies fs`f, fs`dinodes, fs`logged, fs`owner
    ensures largest <= MAXOPBLOCKS
    ensures !r.Panic? ==> InProgress(fs, old(fs.f), i, off0, data, done) && off == off0 + done
    ensures r.Count? ==> r.n == done == |data|
    ensures r.Error? ==> done < |data| && NextRefused(fs, i, off, |data| - done)
    ensures r.Panic? ==> DiskFull(fs)
  {
    hide InProgress, NextRefused, DiskFull, Ready, Ahead;
    ghost var f0 := fs.f;
    StartWritten(fs, i, off0, data);
    off, done, largest := off0, 0, 0;
    r := Count(|data|);
    while done < |data|
      invariant done <= |data| && off == off0 + done && largest <= MAXOPBLOCKS && r == Count(|data|)
      invariant InProgress(fs, f0, i, off0, data, done)
    {
      ghost var tx;
      var n1 := ChunkSize(|data| - done);
      r, tx := Transaction(fs, i, data, off0, done, f0);
      largest := if |tx| > largest then |tx| else largest;
      if !r.Count? { return; }
      off, done := off + n1, done + n1;
      r := Count(|data|);
    }
  }

  lemma StartWritten(fs: FileSystem, i: int, off: nat, data: seq<byte>)
    requires Ready(fs) && 0 <= i < |fs.f.inodes|
    ensures InProgress(fs, fs.f, i, off, data, 0)
  {
    hide Base, Addr, ByteAt, Extent, Contents;
    assert forall j | 0 <= j < |fs.f.inodes| :: SameFile(fs.f, fs.f, j);
    assert FileOk(fs.f, i) && data[..0] == [];
    ContentsLength(fs.f, i);
    if off <= fs.f.inodes[i].size {
      assert Splice(Contents(fs.f, i), off, []) == Contents(fs.f, i);
    }
  }

  /** begin_op, writei, end_op on the next chunk. */
  method Transaction(fs: FileSystem, i: nat, data: seq<byte>, off0: nat, k: nat, ghost f0: Fs)
    returns (r: Ret, tx: set<nat>)
    requires InProgress(fs, f0, i, off0, data, k) && k < |data| && off0 < UINT
    modifies fs`f, fs`dinodes, fs`logged, fs`owner
    ensures |tx| <= MAXOPBLOCKS
    ensures r.Panic? ==> DiskFull(fs)
    ensures r.Error? ==>
              InProgress(fs, f0, i, off0, data, k) && NextRefused(fs, i, off0 + k, |data| - k) && fs.f == old(fs.f)
    ensures r.Count? ==> InProgress(fs, f0, i, off0, data, k + ChunkSize(|data| - k))
    ensures r.Count? ==>
            Ahead(fs.sb, old(fs.f), fs.f, {}, tx) && (fs.dinodes == old(fs.dinodes) || fs.sb.IBlock(i) in tx)
  {
    hide Base, Used, Extent, Contents, LogBudget, OthersSame, Written, Ahead;
    var n := ChunkSize(|data| - k);
    fs.logged := {};
    ghost var f1 := fs.f;
    ChunkFitsInTransaction(off0 + k, n);
    NoWrap(off0 + k, n);
    assert FileOk(f1, i);
    r := Writei(fs, i, data[k..k + n], off0 + k);
    tx := if r.Panic? then {} else fs.logged;
    assert fs.logged - {} == fs.logged;
    if r.Count? {
      ContentsLength(f1, i);
      WrittenMore(f0, f1, fs.f, i, off0, data, k, n);
    }
  }

  lemma WrittenMore(f: Fs, f1: Fs, f2: Fs, i: int, off: nat, data: seq<byte>, k: nat, n: nat)
    requires FileOk(f, i) && AllInodes(f) && k + n <= |data| && Written(f, f1, i, off, data, k)
    requires AllInodes(f1) && FileOk(f2, i) && OthersSame(f1, f2, i) && 0 < n
    requires off + k <= |Contents(f1, i)| && (k == 0 || off <= f.inodes[i].size)
    requires Contents(f2, i) == Splice(Contents(f1, i), off + k, data[k..k + n])
    ensures Written(f, f2, i, off, data, k + n) && off <= f.inodes[i].size
  {
    OthersTrans(f, f1, f2, i);
    assert |Contents(f1, i)| == f1.inodes[i].size;
    hide OthersSame, Contents, Extent;
    SpliceTwice(Contents(f, i), off, data[..k], data[k..k + n]);
    assert data[..k] + data[k..k + n] == data[..k + n];
  }

  // ---------- itrunc ----------

  /** Data blocks are untouched, and inodes other than i. */
  ghost predicate OnlyInode(sb: Super, f: Fs, f': Fs, i: int)
    requires Shape(sb, f)
  {
    && Shape(sb, f') && (forall j | 0 <= j < |f.inodes| && j != i :: f'.inodes[j] == f.inodes[j])
    && forall a | sb.DataStart() <= a < sb.size :: f'.blocks[a] == f.blocks[a]
  }

  lemma OnlyInodeOthers(sb: Super, f: Fs, owner: map<nat, Slot>, f': Fs, i: int)
    requires Shape(sb, f) && Owned(sb, f, owner) && OnlyInode(sb, f, f', i)
    ensures (forall j | 0 <= j < |f.inodes| :: IsInode(f, j)) && OthersSame(f, f', i)
  {
    forall j, k | IsSlot(f, j, k) && j != i ensures Addr(f', j, k) == Addr(f, j, k) {
      assert IsSlot(f, j, IND);
      assert Addr(f, j, IND) != 0 ==> owner[Addr(f, j, IND)] == Slot(j, IND);
    }
    hide Addr;
    forall j | 0 <= j < |f.inodes| && j != i ensures SameFile(f, f', j) {
      forall pos | 0 <= pos < MAXBYTES ensures ByteAt(f', j, pos) == ByteAt(f, j, pos) {
        assert IsSlot(f, j, pos / BSIZE);
      }
    }
  }

  /** A direct block is freed and its slot cleared. */
  lemma FreeDirect(sb: Super, f: Fs, owner: map<nat, Slot>, i: int, k: int)
    requires Base(sb, f, owner) && IsSlot(f, i, k) && k < NDIRECT && Addr(f, i, k) != 0
    ensures Addr(f, i, k) in owner && Addr(f, i, k) < sb.size && Used(sb, f, Addr(f, i, k))
    ensures var b := Addr(f, i, k); var f' := StoreSlot(Release(sb, f, b), i, k, 0);
            && Base(sb, f', owner - {b}) && OneSlot(sb, f, f', i, k, 0) && OnlyInode(sb, f, f', i)
            && f'.inodes[i].size == f.inodes[i].size
  {
    var b := Addr(f, i, k);
    var f1 := Release(sb, f, b);
    ReleaseKeeps(sb, f, owner, owner.Keys, b);
    assert OnlyInode(sb, f, f1, i);
    hide Used, Owned, UsedIs, OneSlot, OnlyInode, ClearBlockBit;
    assert Addr(f1, i, k) == b;
    ClearDirect(sb, f1, owner, i, k);
    hide Addr;
    OnlyInodeOneSlot(sb, f, f1, StoreSlot(f1, i, k, 0), i, k);
  }

  lemma OnlyInodeOneSlot(sb: Super, f: Fs, f1: Fs, f': Fs, i: int, k: int)
    requires Shape(sb, f) && SameAddrs(f, f1) && OnlyInode(sb, f, f1, i)
    requires OneSlot(sb, f1, f', i, k, 0) && OnlyInode(sb, f1, f', i)
    ensures OneSlot(sb, f, f', i, k, 0) && OnlyInode(sb, f, f', i)
  {
    hide Addr;
  }

  /** ip->addrs[k] = 0, once the bit of the block is clear */
  lemma ClearDirect(sb: Super, f: Fs, owner: map<nat, Slot>, i: int, k: int)
    requires Shape(sb, f) && Owned(sb, f, owner) && IsSlot(f, i, k) && k < NDIRECT && Addr(f, i, k) != 0
    requires UsedIs(sb, f, owner.Keys - {Addr(f, i, k)})
    ensures var f' := StoreSlot(f, i, k, 0);
            && Base(sb, f', owner - {Addr(f, i, k)}) && OneSlot(sb, f, f', i, k, 0) && OnlyInode(sb, f, f', i)
            && f'.inodes[i].size == f.inodes[i].size
  {
    var b, f' := Addr(f, i, k), StoreSlot(f, i, k, 0);
    StoreAddrSlot(sb, f, i, k, 0);
    StoreSlotBits(sb, f, i, k, 0);
    assert (owner - {b}).Keys == owner.Keys - {b};
    hide Used, Addr;
    assert Owned(sb, f', owner - {b});
    hide Owned, OneSlot;
  }

  /** The first k slots of inode i are empty and every other slot is as in f. */
  ghost predicate Cleared(sb: Super, f: Fs, f': Fs, i: int, k: int)
    requires Shape(sb, f)
  {
    Shape(sb, f') && forall j, m | IsSlot(f, j, m) :: Addr(f', j, m) == if j == i && m < k then 0 else Addr(f, j, m)
  }

  lemma ClearedStep(sb: Super, f: Fs, f1: Fs, f2: Fs, i: int, k: int)
    requires Shape(sb, f) && Cleared(sb, f, f1, i, k) && OnlyInode(sb, f, f1, i) && 0 <= i < |f.inodes|
             && 0 <= k < NDIRECT
    requires OneSlot(sb, f1, f2, i, k, 0) && OnlyInode(sb, f1, f2, i)
    ensures Cleared(sb, f, f2, i, k + 1) && OnlyInode(sb, f, f2, i)
  {
    hide Addr;
  }

  /** A block is freed and a slot outside the indirect block cleared: only the bitmap block changes. */
  lemma FreeAhead(sb: Super, f: Fs, i: int, k: int, b: nat, logged: set<nat>)
    requires Shape(sb, f) && b < sb.size && Used(sb, f, b) && IsSlot(f, i, k)
    ensures var f1 := Release(sb, f, b);
            && Shape(sb, f1) && IsSlot(f1, i, k) && Ahead(sb, f, f1, logged, logged + {sb.BBlock(b)})
            && (k < NDIRECT || k == IND ==> StoreSlot(f1, i, k, 0).blocks == f1.blocks)
  {
    hide Used, ClearBlockBit;
  }

  /** The first loop of `itrunc`: it never frees a free block. */
  method FreeDirects(fs: FileSystem, i: nat)
    requires Base(fs.sb, fs.f, fs.owner) && i < |fs.f.inodes|
    modifies fs`f, fs`logged, fs`owner
    ensures Base(fs.sb, fs.f, fs.owner) && fs.f.inodes[i].size == old(fs.f).inodes[i].size
    ensures Cleared(fs.sb, old(fs.f), fs.f, i, NDIRECT) && OnlyInode(fs.sb, old(fs.f), fs.f, i)
    ensures Ahead(fs.sb, old(fs.f), fs.f, old(fs.logged), fs.logged)
  {
    hide Owned, UsedIs, OneSlot, Used, Cleared, OnlyInode, Ahead;
    ghost var f0 := fs.f;
    AheadSame(fs.sb, f0, fs.logged);
    assert Cleared(fs.sb, f0, f0, i, 0) && OnlyInode(fs.sb, f0, f0, i) by { NothingCleared(fs.sb, f0, i); }
    var k := 0;
    while k < NDIRECT
      invariant 0 <= k <= NDIRECT && Base(fs.sb, fs.f, fs.owner) && i < |fs.f.inodes|
      invariant fs.f.inodes[i].size == f0.inodes[i].size
      invariant Cleared(fs.sb, f0, fs.f, i, k) && OnlyInode(fs.sb, f0, fs.f, i)
      invariant Ahead(fs.sb, f0, fs.f, old(fs.logged), fs.logged)
    {
      ghost var f1, l1 := fs.f, fs.logged;
      if fs.f.inodes[i].addrs[k] != 0 {
        FreeDirect(fs.sb, fs.f, fs.owner, i, k);
        ghost var b := fs.f.inodes[i].addrs[k];
        FreeAhead(fs.sb, f1, i, k, b, l1);
        var ok := fs.Bfree(fs.f.inodes[i].addrs[k]);
        assert ok;
        fs.f := StoreSlot(fs.f, i, k, 0);
        fs.owner := fs.owner - {b};
        AheadBlocks(fs.sb, f1, Release(fs.sb, f1, b), fs.f, l1, fs.logged);
        AheadTrans(fs.sb, f0, f1, fs.f, old(fs.logged), l1, fs.logged);
      } else {
        NothingStored(fs.sb, fs.f, i, k);
      }
      ClearedStep(fs.sb, f0, f1, fs.f, i, k);
      k := k + 1;
    }
  }

  lemma NothingCleared(sb: Super, f: Fs, i: int)
    requires Shape(sb, f) && 0 <= i < |f.inodes|
    ensures Cleared(sb, f, f, i, 0) && OnlyInode(sb, f, f, i)
  {
  }

  lemma NothingStored(sb: Super, f: Fs, i: int, k: int)
    requires Shape(sb, f) && IsSlot(f, i, k) && Addr(f, i, k) == 0
    ensures OneSlot(sb, f, f, i, k, 0) && OnlyInode(sb, f, f, i)
  {
    hide Addr;
  }

  /** The blocks named by the first j words of the indirect block. */
  ghost function Entries(f: Fs, i: int, j: int): set<nat>
    requires IsInode(f, i) && 0 <= j <= NINDIRECT
  {
    set m | NDIRECT <= m < NDIRECT + j && Addr(f, i, m) != 0 :: Addr(f, i, m)
  }

  lemma EntriesStep(f: Fs, i: int, j: int)
    requires IsInode(f, i) && 0 <= j < NINDIRECT
    ensures Entries(f, i, j + 1) ==
            if Addr(f, i, NDIRECT + j) != 0 then Entries(f, i, j) + {Addr(f, i, NDIRECT + j)} else Entries(f, i, j)
  {
    hide Addr;
  }

  lemma EntryNotFreed(sb: Super, f: Fs, owner: map<nat, Slot>, i: int, j: int)
    requires Shape(sb, f) && Owned(sb, f, owner) && IsInode(f, i) && 0 <= j < NINDIRECT
    ensures Addr(f, i, NDIRECT + j) != 0 ==>
              Addr(f, i, NDIRECT + j) in owner && Addr(f, i, NDIRECT + j) !in Entries(f, i, j)
              && sb.DataStart() <= Addr(f, i, NDIRECT + j) < sb.size
    ensures Addr(f, i, IND) != 0 ==>
              Addr(f, i, IND) in owner && Addr(f, i, IND) !in Entries(f, i, NINDIRECT)
              && sb.DataStart() <= Addr(f, i, IND) < sb.size
  {
    hide Addr;
    assert IsSlot(f, i, NDIRECT + j) && IsSlot(f, i, IND);
  }

  /** In the second half of `itrunc`: the blocks in `gone` are free, and the slots still name them. */
  ghost predicate Draining(sb: Super, f: Fs, f': Fs, owner: map<nat, Slot>, i: int, gone: set<nat>)
    requires Shape(sb, f)
  {
    && Shape(sb, f') && Owned(sb, f', owner) && UsedIs(sb, f', owner.Keys - gone)
    && SameAddrs(f, f') && OnlyInode(sb, f, f', i) && f'.inodes == f.inodes
  }

  lemma DrainOne(sb: Super, f: Fs, f': Fs, owner: map<nat, Slot>, i: int, gone: set<nat>, b: nat)
    requires Shape(sb, f) && Draining(sb, f, f', owner, i, gone)
    requires b in owner && b !in gone && sb.DataStart() <= b < sb.size
    ensures Used(sb, f', b) && Draining(sb, f, Release(sb, f', b), owner, i, gone + {b})
  {
    ReleaseKeeps(sb, f', owner, owner.Keys - gone, b);
    assert owner.Keys - gone - {b} == owner.Keys - (gone + {b});
    hide Addr, Owned, UsedIs;
  }

  /** ip->addrs[NDIRECT] = 0, once everything below it is free */
  lemma ClearIndirect(sb: Super, f: Fs, f': Fs, owner: map<nat, Slot>, i: int)
    requires Shape(sb, f) && IsInode(f, i) && Addr(f, i, IND) != 0
             && (forall k | 0 <= k < NDIRECT :: Addr(f, i, k) == 0)
    requires Draining(sb, f, f', owner, i, Entries(f, i, NINDIRECT) + {Addr(f, i, IND)})
    ensures var f2 := StoreSlot(f', i, IND, 0); var owner2 := owner - (Entries(f, i, NINDIRECT) + {Addr(f, i, IND)});
            && Base(sb, f2, owner2) && Cleared(sb, f, f2, i, IND + 1) && OnlyInode(sb, f, f2, i)
  {
    var gone := Entries(f, i, NINDIRECT) + {Addr(f, i, IND)};
    var f2, owner2 := StoreSlot(f', i, IND, 0), owner - gone;
    assert owner2.Keys == owner.Keys - gone;
    StoreSlotBits(sb, f', i, IND, 0);
    ClearIndirectAddrs(sb, f, f', owner, i);
    hide Used, StoreSlot;
    assert UsedIs(sb, f2, owner2.Keys);
    hide UsedIs;
    forall a | a in owner && a !in gone ensures owner[a].i != i {
      assert Addr(f', owner[a].i, owner[a].k) == a;
      assert IsSlot(f, owner[a].i, owner[a].k);
      hide Addr;
    }
    hide Addr;
    assert forall j, k | IsSlot(f, j, k) && j != i && Addr(f, j, k) != 0 :: Addr(f, j, k) !in gone;
  }

  lemma ClearIndirectAddrs(sb: Super, f: Fs, f': Fs, owner: map<nat, Slot>, i: int)
    requires Shape(sb, f) && IsInode(f, i) && (forall k | 0 <= k < NDIRECT :: Addr(f, i, k) == 0)
    requires Shape(sb, f') && SameAddrs(f, f') && f'.inodes == f.inodes && OnlyInode(sb, f, f', i)
    ensures var f2 := StoreSlot(f', i, IND, 0); Cleared(sb, f, f2, i, IND + 1) && OnlyInode(sb, f, f2, i)
  {
    var f2 := StoreSlot(f', i, IND, 0);
    forall j, m | IsSlot(f, j, m) ensures Addr(f2, j, m) == if j == i && m < IND + 1 then 0 else Addr(f, j, m) {
      assert Addr(f', j, m) == Addr(f, j, m);
      if j == i && m < NDIRECT { assert Addr(f, i, m) == 0; }
    }
  }

  /** The second half of `itrunc`: the entries of the indirect block, then the block itself. */
  method FreeIndirect(fs: FileSystem, i: nat)
    requires Base(fs.sb, fs.f, fs.owner) && i < |fs.f.inodes| && Addr(fs.f, i, IND) != 0
    requires forall k | 0 <= k < NDIRECT :: Addr(fs.f, i, k) == 0
    modifies fs`f, fs`logged, fs`owner
    ensures Base(fs.sb, fs.f, fs.owner)
    ensures Cleared(fs.sb, old(fs.f), fs.f, i, IND + 1) && OnlyInode(fs.sb, old(fs.f), fs.f, i)
    ensures Ahead(fs.sb, old(fs.f), fs.f, old(fs.logged), fs.logged)
  {
    hide Owned, UsedIs, Used, Draining, Entries, Cleared, OnlyInode, Ahead;
    ghost var f0 := fs.f;
    AheadSame(fs.sb, f0, fs.logged);
    StartDraining(fs.sb, f0, fs.owner, i);
    IndirectInRange(fs.sb, f0, fs.owner, i);
    var ind := fs.f.inodes[i].addrs[NDIRECT];
    var a := fs.f.blocks[ind];
    var j := 0;
    while j < NINDIRECT
      invariant 0 <= j <= NINDIRECT && fs.owner == old(fs.owner)
      invariant Draining(fs.sb, f0, fs.f, fs.owner, i, Entries(f0, i, j))
      invariant Ahead(fs.sb, f0, fs.f, old(fs.logged), fs.logged)
    {
      EntriesStep(f0, i, j);
      EntryNotFreed(fs.sb, f0, fs.owner, i, j);
      if Word(a, j) != 0 {
        DrainOne(fs.sb, f0, fs.f, fs.owner, i, Entries(f0, i, j), Word(a, j));
        ghost var f1, l1 := fs.f, fs.logged;
        var ok := ShapeFree(fs, f0, i, Entries(f0, i, j), Word(a, j));
        assert ok;
        AheadTrans(fs.sb, f0, f1, fs.f, old(fs.logged), l1, fs.logged);
      }
      j := j + 1;
    }
    EntryNotFreed(fs.sb, f0, fs.owner, i, 0);
    DrainOne(fs.sb, f0, fs.f, fs.owner, i, Entries(f0, i, NINDIRECT), ind);
    ghost var f1, l1 := fs.f, fs.logged;
    var ok := ShapeFree(fs, f0, i, Entries(f0, i, NINDIRECT), ind);
    assert ok;
    AheadTrans(fs.sb, f0, f1, fs.f, old(fs.logged), l1, fs.logged);
    ghost var f2 := fs.f;
    ClearIndirect(fs.sb, f0, fs.f, fs.owner, i);
    DrainingShape(fs.sb, f0, fs.f, fs.owner, i, Entries(f0, i, NINDIRECT) + {ind});
    fs.f := StoreSlot(fs.f, i, IND, 0);
    AheadBlocks(fs.sb, f0, f2, fs.f, old(fs.logged), fs.logged);
    fs.owner := fs.owner - (Entries(f0, i, NINDIRECT) + {ind});
  }

  /** A call of `bfree` while the indirect block is drained. */
  method ShapeFree(fs: FileSystem, ghost f0: Fs, i: nat, ghost gone: set<nat>, b: nat) returns (ok: bool)
    requires Shape(fs.sb, f0) && Draining(fs.sb, f0, fs.f, fs.owner, i, gone) && b < fs.sb.size && Used(fs.sb, fs.f, b)
    modifies fs`f, fs`logged
    ensures ok && fs.f == Release(fs.sb, old(fs.f), b) && Ahead(fs.sb, old(fs.f), fs.f, old(fs.logged), fs.logged)
  {
    hide Owned, UsedIs, Used, ClearBlockBit;
    ok := fs.Bfree(b);
  }

  lemma DrainingShape(sb: Super, f: Fs, f': Fs, owner: map<nat, Slot>, i: int, gone: set<nat>)
    requires Shape(sb, f) && Draining(sb, f, f', owner, i, gone)
    ensures Shape(sb, f') && |f'.inodes| == |f.inodes|
  {
  }

  lemma StartDraining(sb: Super, f: Fs, owner: map<nat, Slot>, i: int)
    requires Base(sb, f, owner) && 0 <= i < |f.inodes|
    ensures IsInode(f, i) && Draining(sb, f, f, owner, i, Entries(f, i, 0))
  {
    hide Addr;
    assert owner.Keys - Entries(f, i, 0) == owner.Keys;
  }

  /** `itrunc`: the file becomes empty, its blocks and only those become free, no other file
      changes, `bfree` never meets a block that is already free, and what changed is logged. */
  method Itrunc(fs: FileSystem, i: nat)
    requires Ready(fs) && i < |fs.f.inodes|
    modifies fs`f, fs`dinodes, fs`logged, fs`owner
    ensures Ready(fs) && FileOk(fs.f, i) && Contents(fs.f, i) == []
    ensures AllInodes(old(fs.f)) && OthersSame(old(fs.f), fs.f, i) && IsSlot(fs.f, i, 0)
    ensures forall k | 0 <= k <= IND :: Addr(fs.f, i, k) == 0
    ensures Ahead(fs.sb, old(fs.f), fs.f, old(fs.logged), fs.logged) && fs.sb.IBlock(i) in fs.logged
  {
    ghost var f0, owner0 := fs.f, fs.owner;
    FreeBlocks(fs, i);
    ghost var f2, l2 := fs.f, fs.logged;
    SetSizeKeeps(fs.sb, f2, fs.owner, i, 0);
    Truncated(fs.sb, f0, owner0, f2, i);
    hide Base, Addr, ByteAt, FileOk, Contents, OthersSame, Cleared, OnlyInode, SameAddrs;
    fs.f := SetSize(fs.f, i, 0);
    Iupdate(fs, i);
    AheadBlocks(fs.sb, f0, f2, fs.f, old(fs.logged), l2);
    AheadMore(fs.sb, f0, fs.f, old(fs.logged), l2, fs.logged);
  }

  /** Both halves of `itrunc`. */
  method FreeBlocks(fs: FileSystem, i: nat)
    requires Base(fs.sb, fs.f, fs.owner) && i < |fs.f.inodes|
    modifies fs`f, fs`logged, fs`owner
    ensures Base(fs.sb, fs.f, fs.owner) && |fs.f.inodes| == |old(fs.f).inodes|
    ensures Cleared(fs.sb, old(fs.f), fs.f, i, IND + 1) && OnlyInode(fs.sb, old(fs.f), fs.f, i)
    ensures Ahead(fs.sb, old(fs.f), fs.f, old(fs.logged), fs.logged)
  {
    hide Owned, UsedIs, Addr, OnlyInode, Cleared, Ahead;
    ghost var f0 := fs.f;
    FreeDirects(fs, i);
    ghost var f1, l1 := fs.f, fs.logged;
    AfterDirects(fs.sb, f0, f1, i);
    if fs.f.inodes[i].addrs[NDIRECT] != 0 {
      FreeIndirect(fs, i);
      AheadTrans(fs.sb, f0, f1, fs.f, old(fs.logged), l1, fs.logged);
      ClearedTwice(fs.sb, f0, f1, fs.f, i);
    } else {
      AllCleared(fs.sb, f0, f1, i);
    }
  }

  lemma AfterDirects(sb: Super, f: Fs, f1: Fs, i: int)
    requires Shape(sb, f) && 0 <= i < |f.inodes| && Cleared(sb, f, f1, i, NDIRECT)
    requires |f1.inodes| == |f.inodes|
    ensures Addr(f1, i, IND) == f1.inodes[i].addrs[NDIRECT] && forall k | 0 <= k < NDIRECT :: Addr(f1, i, k) == 0
  {
    assert forall k | 0 <= k < NDIRECT :: IsSlot(f, i, k);
  }

  lemma ClearedTwice(sb: Super, f: Fs, f1: Fs, f2: Fs, i: int)
    requires Shape(sb, f) && 0 <= i < |f.inodes| && Cleared(sb, f, f1, i, NDIRECT) && OnlyInode(sb, f, f1, i)
    requires Cleared(sb, f1, f2, i, IND + 1) && OnlyInode(sb, f1, f2, i)
    ensures Cleared(sb, f, f2, i, IND + 1) && OnlyInode(sb, f, f2, i)
  {
    hide Addr;
  }

  lemma AllCleared(sb: Super, f: Fs, f1: Fs, i: int)
    requires Shape(sb, f) && 0 <= i < |f.inodes| && Cleared(sb, f, f1, i, NDIRECT) && IsSlot(f1, i, IND)
    requires Addr(f1, i, IND) == 0
    ensures Cleared(sb, f, f1, i, IND + 1)
  {
    forall j, m | IsSlot(f, j, m) && j == i ensures Addr(f1, j, m) == 0 {
      assert IsSlot(f, i, IND);
    }
  }

  lemma Truncated(sb: Super, f: Fs, owner: map<nat, Slot>, f2: Fs, i: int)
    requires Base(sb, f, owner) && 0 <= i < |f.inodes| && (forall j | 0 <= j < |f.inodes| :: FileOk(f, j))
    requires Cleared(sb, f, f2, i, IND + 1) && OnlyInode(sb, f, f2, i)
    ensures var f3 := SetSize(f2, i, 0);
            && AllInodes(f) && OthersSame(f, f3, i) && FileOk(f3, i) && Contents(f3, i) == []
            && (forall k | 0 <= k <= IND :: Addr(f3, i, k) == 0)
            && (forall j | 0 <= j < |f.inodes| :: FileOk(f3, j)) && f3.inodes == f.inodes[i := f3.inodes[i]]
  {
    var f3 := SetSize(f2, i, 0);
    assert OnlyInode(sb, f, f3, i);
    OnlyInodeOthers(sb, f, owner, f3, i);
    assert forall k | 0 <= k <= IND :: IsSlot(f, i, k) && Addr(f3, i, k) == Addr(f2, i, k) == 0;
    hide Addr, Owned, UsedIs;
    WriteDone(f, f3, i);
  }
}
