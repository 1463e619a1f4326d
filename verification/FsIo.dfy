/** `readi`, `writei` and `iupdate` proved against files as byte sequences. */
module FsIo {
  import opened Basics
  import opened FsBlocks
  import opened FsState
  import opened FsCode
  import opened FsFile

  /** A return value: a byte count, -1, or a halt in `panic`. */
  datatype Ret = Count(n: nat) | Error | Panic

  /** Between operations: ownership is exact, files have no holes, inodes are on disk. */
  ghost predicate Ready(fs: FileSystem)
    reads fs
  {
    && Base(fs.sb, fs.f, fs.owner) && fs.dinodes == fs.f.inodes
    && forall i | 0 <= i < |fs.f.inodes| :: IsInode(fs.f, i) && FileOk(fs.f, i)
  }

  /** `src` laid over c from position off. */
  function Splice(c: seq<byte>, off: nat, src: seq<byte>): seq<byte>
    requires off <= |c|
  {
    c[..off] + src + if off + |src| < |c| then c[off + |src|..] else []
  }

  /** The file that a write of n bytes at off would be refused for. */
  predicate Refused(size: nat, off: nat, n: nat) {
    off > size || (off + n) % UINT < off || (off + n) % UINT > MAXBYTES
  }

  /** The sum may wrap around in the source's test, yet what is refused is exactly a write that begins past the
      end of the file or would end past the largest size. */
  lemma RefusedMeans(size: nat, off: nat, n: nat)
    requires size <= MAXBYTES && n < UINT
    ensures Refused(size, off, n) <==> off > size || off + n > MAXBYTES
  {
    if off <= size {
      if off + n >= UINT {
        assert (off + n) % UINT == off + n - UINT;
      } else {
        assert (off + n) % UINT == off + n;
      }
    }
  }

  function SetSize(f: Fs, i: int, s: nat): Fs
    requires 0 <= i < |f.inodes|
  {
    Fs(f.blocks, f.inodes[i := Inode(s, f.inodes[i].addrs)])
  }

  lemma SetSizeKeeps(sb: Super, f: Fs, owner: map<nat, Slot>, i: int, s: nat)
    requires Base(sb, f, owner) && IsInode(f, i)
    ensures Base(sb, SetSize(f, i, s), owner) && SameAddrs(f, SetSize(f, i, s))
    ensures forall j, pos | 0 <= j < |f.inodes| && 0 <= pos < MAXBYTES ::
              ByteAt(SetSize(f, i, s), j, pos) == ByteAt(f, j, pos)
  {
    var f' := SetSize(f, i, s);
    assert forall j, k | IsSlot(f, j, k) :: Addr(f', j, k) == Addr(f, j, k);
    forall b: nat | b < sb.size ensures Used(sb, f', b) == Used(sb, f, b) { UsedFrame(sb, f, f', b); }
    hide Addr, Used;
  }

  /** The finished loop, with the new size stored, is the splice. */
  lemma FinishWrite(sb: Super, f: Fs, f1: Fs, owner1: map<nat, Slot>, i: int, src: seq<byte>, start: nat, s: nat)
    requires Shape(sb, f) && Base(sb, f1, owner1) && 0 <= i < |f.inodes| && FileOk(f, i)
    requires start <= f.inodes[i].size && start + |src| <= MAXBYTES
    requires Progress(f, f1, i, src, start, start + |src|)
    requires s == if start + |src| > f.inodes[i].size then start + |src| else f.inodes[i].size
    ensures var f2 := SetSize(f1, i, s);
            && Base(sb, f2, owner1) && FileOk(f2, i)
            && Contents(f2, i) == Splice(Contents(f, i), start, src)
            && forall j | 0 <= j < |f.inodes| && j != i :: SameFile(f, f2, j)
  {
    var f2 := SetSize(f1, i, s);
    SetSizeKeeps(sb, f1, owner1, i, s);
    hide Addr, ByteAt, Owned, UsedIs;
    assert Extent(f2, i, Blocks(s)) by {
      assert forall k | 0 <= k <= IND :: IsSlot(f1, i, k) && Addr(f2, i, k) == Addr(f1, i, k);
    }
    FinishContents(f, f1, f2, i, src, start, s);
    forall j | 0 <= j < |f.inodes| && j != i ensures SameFile(f, f2, j) {
      assert IsInode(f, j) && SameFile(f, f1, j);
      assert forall k | 0 <= k <= IND :: IsSlot(f1, j, k) && Addr(f2, j, k) == Addr(f1, j, k);
    }
  }

  lemma FinishContents(f: Fs, f1: Fs, f2: Fs, i: int, src: seq<byte>, start: nat, s: nat)
    requires IsInode(f, i) && IsInode(f2, i) && f.inodes[i].size <= MAXBYTES
    requires start <= f.inodes[i].size && start + |src| <= MAXBYTES
    requires Progress(f, f1, i, src, start, start + |src|)
    requires s == if start + |src| > f.inodes[i].size then start + |src| else f.inodes[i].size
    requires f2.inodes[i].size == s && forall pos | 0 <= pos < MAXBYTES :: ByteAt(f2, i, pos) == ByteAt(f1, i, pos)
    ensures Contents(f2, i) == Splice(Contents(f, i), start, src)
  {
    hide Addr, ByteAt, Extent, SameFile;
    var c, c2 := Contents(f, i), Contents(f2, i);
    assert |c2| == |Splice(c, start, src)|;
    forall pos | 0 <= pos < s ensures c2[pos] == Splice(c, start, src)[pos] {
      assert pos < f.inodes[i].size ==> pos / BSIZE < Blocks(f.inodes[i].size);
    }
  }

  /** All files other than i are untouched. */
  ghost predicate OthersSame(f: Fs, f': Fs, i: int)
    requires forall j | 0 <= j < |f.inodes| :: IsInode(f, j)
  {
    |f'.inodes| == |f.inodes| && forall j | 0 <= j < |f.inodes| && j != i :: SameFile(f, f', j)
  }

  /** One turn of the loop of `writei`, with what it has written and logged so far. */
  method WriteChunk(fs: FileSystem, i: nat, src: seq<byte>, start: nat, off: nat, m: nat,
                    ghost f0: Fs, ghost logged0: set<nat>, ghost data0: set<nat>, ghost maps0: set<nat>)
    returns (ok: bool, ghost data: set<nat>, ghost maps: set<nat>)
    requires Base(fs.sb, fs.f, fs.owner) && IsInode(fs.f, i) && IsInode(f0, i)
    requires start <= f0.inodes[i].size && start + |src| <= MAXBYTES
    requires start <= off && IsChunk(off, start + |src|, m) && (off == start || off % BSIZE == 0)
    requires Progress(f0, fs.f, i, src, start, off)
    requires Accounted(f0, fs.f, i, start, off, logged0, fs.logged, data0, maps0)
    requires off <= f0.inodes[i].size ==> fs.f.inodes == f0.inodes
    modifies fs`f, fs`logged, fs`owner
    ensures 0 < m && off + m <= start + |src| && (off + m == start + |src| || (off + m) % BSIZE == 0)
    ensures !ok ==> Shape(fs.sb, fs.f) && forall b | 0 <= b < fs.sb.size :: Used(fs.sb, fs.f, b)
    ensures ok ==>
              && Base(fs.sb, fs.f, fs.owner) && IsInode(fs.f, i)
              && Progress(f0, fs.f, i, src, start, off + m)
              && Accounted(f0, fs.f, i, start, off + m, logged0, fs.logged, data, maps)
              && (off + m <= f0.inodes[i].size ==> fs.f.inodes == f0.inodes)
              && Ahead(fs.sb, old(fs.f), fs.f, old(fs.logged), fs.logged)
  {
    hide Addr, ByteAt, Owned, UsedIs, Used, Wrote, Extent, SameFile, Progress, Accounted, NewBlocks, Reach, Ahead;
    ghost var f1, logged1 := fs.f, fs.logged;
    ChunkArithmetic(f0.inodes[i].size, start, off, start + |src|, m);
    ProgressExtent(f0, f1, i, src, start, off);
    ghost var a, more;
    ghost var n := Reach(f0.inodes[i].size, off);
    ok, a, more := PutBlock(fs, i, off / BSIZE, off % BSIZE, src[off - start..off - start + m], n);
    data, maps := data0 + {a}, maps0 + more;
    if ok {
      ProgressStep(f0, f1, fs.f, i, src, start, off, m);
      ProgressExtent(f0, fs.f, i, src, start, off + m);
      AccountStep(f0, f1, fs.f, i, start, off, start + |src|, m, logged0, logged1, fs.logged, data0, maps0, a, more);
    }
  }

  /** The loop of `writei`. */
  method WriteLoop(fs: FileSystem, i: nat, src: seq<byte>, start: nat)
    returns (ok: bool, ghost data: set<nat>, ghost maps: set<nat>)
    requires Base(fs.sb, fs.f, fs.owner) && IsInode(fs.f, i) && FileOk(fs.f, i)
    requires start <= fs.f.inodes[i].size && start + |src| <= MAXBYTES
    modifies fs`f, fs`logged, fs`owner
    ensures !ok ==> Shape(fs.sb, fs.f) && forall b | 0 <= b < fs.sb.size :: Used(fs.sb, fs.f, b)
    ensures |src| == 0 ==> fs.logged == old(fs.logged)
    ensures ok ==>
              && Base(fs.sb, fs.f, fs.owner) && IsInode(fs.f, i)
              && Progress(old(fs.f), fs.f, i, src, start, start + |src|)
              && (start + |src| <= old(fs.f).inodes[i].size ==> fs.f.inodes == old(fs.f).inodes)
              && Accounted(old(fs.f), fs.f, i, start, start + |src|, old(fs.logged), fs.logged, data, maps)
              && Ahead(fs.sb, old(fs.f), fs.f, old(fs.logged), fs.logged)
  {
    hide Owned, UsedIs, Used, Extent, Progress, Accounted, Ahead;
    ghost var f0 := fs.f;
    var n, tot, off := |src|, 0, start;
    data, maps := {}, {};
    StartLoop(fs.f, i, src, start, fs.logged);
    AheadSame(fs.sb, fs.f, fs.logged);
    while tot < n
      invariant tot <= n && off == start + tot && (tot == 0 || tot == n || off % BSIZE == 0)
      invariant Base(fs.sb, fs.f, fs.owner) && Progress(f0, fs.f, i, src, start, off) && IsInode(fs.f, i)
      invariant Accounted(f0, fs.f, i, start, off, old(fs.logged), fs.logged, data, maps)
      invariant off <= f0.inodes[i].size ==> fs.f.inodes == f0.inodes
      invariant tot == 0 ==> fs.logged == old(fs.logged)
      invariant Ahead(fs.sb, f0, fs.f, old(fs.logged), fs.logged)
    {
      ghost var f1, l1 := fs.f, fs.logged;
      var m := if n - tot < BSIZE - off % BSIZE then n - tot else BSIZE - off % BSIZE;
      ok, data, maps := WriteChunk(fs, i, src, start, off, m, f0, old(fs.logged), data, maps);
      if !ok { return; }
      AheadTrans(fs.sb, f0, f1, fs.f, old(fs.logged), l1, fs.logged);
      tot, off := tot + m, off + m;
    }
    ok := true;
  }

  lemma StartLoop(f: Fs, i: int, src: seq<byte>, start: nat, logged: set<nat>)
    requires IsInode(f, i) && FileOk(f, i) && start <= f.inodes[i].size
    ensures Progress(f, f, i, src, start, start)
    ensures Accounted(f, f, i, start, start, logged, logged, {}, {})
  {
    hide Addr, ByteAt;
    assert Blocks(start) <= Blocks(f.inodes[i].size);
  }

  lemma ProgressExtent(f: Fs, f': Fs, i: int, src: seq<byte>, start: nat, off: nat)
    requires IsInode(f, i) && start <= off <= start + |src| && Progress(f, f', i, src, start, off)
    ensures SameSizes(f, f') && IsInode(f', i) && Extent(f', i, Reach(f.inodes[i].size, off))
  {
  }

  lemma SameFileInode(f: Fs, f': Fs, j: int)
    requires IsInode(f, j) && SameFile(f, f', j)
    ensures f'.inodes[j] == f.inodes[j]
  {
    hide ByteAt;
    assert forall k | 0 <= k < NDIRECT :: f'.inodes[j].addrs[k] == Addr(f', j, k) == Addr(f, j, k);
    assert f'.inodes[j].addrs[NDIRECT] == Addr(f', j, IND) == Addr(f, j, IND);
    assert f'.inodes[j].addrs == f.inodes[j].addrs;
  }

  lemma BudgetBounds(f: Fs, f': Fs, i: int, start: nat, end: nat, logged: set<nat>, logged': set<nat>,
                     data: set<nat>, maps: set<nat>, iblock: nat)
    requires IsInode(f, i) && IsInode(f', i) && start < end && start <= f.inodes[i].size
    requires Accounted(f, f', i, start, end, logged, logged', data, maps)
    ensures |logged' + {iblock} - logged| <= LogBudget(start, end)
  {
    ReachBound(f.inodes[i].size, start, end);
    hide Addr, Chunks, Blocks, Reach;
    var all := maps + data + Indirect(f', i) + {iblock};
    SubsetSize(logged' + {iblock} - logged, all);
    UnionSize(maps, data);
    UnionSize(maps + data, Indirect(f', i));
    UnionSize(maps + data + Indirect(f', i), {iblock});
  }

  /** Newly mapped blocks are among those written, and not a partly written first one. */
  lemma ReachBound(s: nat, start: nat, end: nat)
    requires start <= s && start < end
    ensures Reach(s, end) - Blocks(s) <= Chunks(start, end) - if start % BSIZE != 0 then 1 else 0
  {
  }

  lemma EmptyBudget(start: nat)
    ensures LogBudget(start, start) == 0
  {
  }

  /** `iupdate` */
  method Iupdate(fs: FileSystem, i: nat)
    requires i < |fs.f.inodes| == |fs.dinodes|
    modifies fs`dinodes, fs`logged
    ensures fs.dinodes == old(fs.dinodes)[i := fs.f.inodes[i]]
    ensures fs.logged == old(fs.logged) + {fs.sb.IBlock(i)}
  {
    fs.dinodes := fs.dinodes[i := fs.f.inodes[i]];
    fs.logged := fs.logged + {fs.sb.IBlock(i)};
  }

  /** `writei`: refused, or else the file is the old one with `src` laid over it at `start`, no
      other file changes, the inode is written through, and every block that changed is logged, few
      in all. */
  method Writei(fs: FileSystem, i: nat, src: seq<byte>, start: nat) returns (r: Ret)
    requires Ready(fs) && i < |fs.f.inodes| && start < UINT && |src| < UINT
    modifies fs`f, fs`dinodes, fs`logged, fs`owner
    ensures r.Error? <==> Refused(old(fs.f).inodes[i].size, start, |src|)
    ensures r.Error? ==> fs.f == old(fs.f) && fs.dinodes == old(fs.dinodes) && fs.logged == old(fs.logged) && Ready(fs)
    ensures r.Panic? ==> Shape(fs.sb, fs.f) && forall b | 0 <= b < fs.sb.size :: Used(fs.sb, fs.f, b)
    ensures r.Count? ==>
              && r.n == |src| && Ready(fs) && OthersSame(old(fs.f), fs.f, i) && |fs.f.inodes| == |old(fs.f).inodes|
              && FileOk(fs.f, i) && FileOk(old(fs.f), i)
              && Contents(fs.f, i) == Splice(Contents(old(fs.f), i), start, src)
              && |fs.logged - old(fs.logged)| <= LogBudget(start, start + |src|)
              && Ahead(fs.sb, old(fs.f), fs.f, old(fs.logged), fs.logged)
              && (fs.dinodes == old(fs.dinodes) || fs.sb.IBlock(i) in fs.logged)
  {
    hide Addr, Owned, UsedIs, Used, Extent, Progress, Accounted, SameFile, Contents, LogBudget, Ahead;
    ghost var f0 := fs.f;
    var n := |src|;
    if start > fs.f.inodes[i].size || (start + n) % UINT < start {
      return Error;
    }
    if (start + n) % UINT > MAXBYTES {
      return Error;
    }
    var ok;
    ghost var data, maps;
    ok, data, maps := WriteLoop(fs, i, src, start);
    if !ok {
      return Panic;
    }
    var off := start + n;
    ghost var f1 := fs.f;
    ghost var s := if off > f0.inodes[i].size then off else f0.inodes[i].size;
    FinishWrite(fs.sb, f0, f1, fs.owner, i, src, start, s);
    ProgressExtent(f0, f1, i, src, start, off);
    if n > 0 {
      BudgetBounds(f0, f1, i, start, off, old(fs.logged), fs.logged, data, maps, fs.sb.IBlock(i));
      SubsetSize(fs.logged - old(fs.logged), fs.logged + {fs.sb.IBlock(i)} - old(fs.logged));
    } else {
      assert LogBudget(start, off) == 0 by { EmptyBudget(start); }
    }
    WriteDone(f0, SetSize(f1, i, s), i);
    ghost var l1 := fs.logged;
    AheadBlocks(fs.sb, f0, f1, SetSize(f1, i, s), old(fs.logged), l1);
    if n > 0 && off > fs.f.inodes[i].size {
      fs.f := SetSize(fs.f, i, off);
      Iupdate(fs, i);
      AheadMore(fs.sb, f0, fs.f, old(fs.logged), l1, fs.logged);
    } else {
      assert SetSize(f1, i, s) == f1;
    }
    return Count(n);
  }

  lemma WriteDone(f: Fs, f': Fs, i: int)
    requires forall j | 0 <= j < |f.inodes| :: FileOk(f, j)
    requires |f'.inodes| == |f.inodes|
    requires forall j | 0 <= j < |f.inodes| && j != i :: IsInode(f, j) && SameFile(f, f', j)
    requires 0 <= i < |f.inodes| && FileOk(f', i)
    ensures forall j | 0 <= j < |f.inodes| :: FileOk(f', j)
    ensures f'.inodes == f.inodes[i := f'.inodes[i]]
  {
    forall j | 0 <= j < |f.inodes| ensures FileOk(f', j) && (j != i ==> f'.inodes[j] == f.inodes[j]) {
      if j != i {
        SameFileSame(f, f', j);
        SameFileInode(f, f', j);
      }
    }
  }

  // ---------- readi ----------

  lemma BytesOfBlock(f: Fs, i: int, off: nat, m: nat, a: nat)
    requires FileOk(f, i) && off + m <= f.inodes[i].size && off % BSIZE + m <= BSIZE && 0 < m
    requires off / BSIZE < MAXFILE && a == Addr(f, i, off / BSIZE) && 0 < a < |f.blocks|
    ensures f.blocks[a][off % BSIZE..off % BSIZE + m] == Contents(f, i)[off..off + m]
  {
    var x, y := f.blocks[a][off % BSIZE..off % BSIZE + m], Contents(f, i)[off..off + m];
    hide Addr, Extent;
    forall k | 0 <= k < m ensures x[k] == y[k] {
      assert (off + k) / BSIZE == off / BSIZE && (off + k) % BSIZE == off % BSIZE + k;
      assert y[k] == ByteAt(f, i, off + k);
    }
  }

  lemma BelowSizeIsMapped(f: Fs, i: int, off: nat)
    requires FileOk(f, i) && off < f.inodes[i].size
    ensures off / BSIZE < MAXFILE && Addr(f, i, off / BSIZE) != 0
  {
    hide Addr;
  }

  /** `readi`: the part of the file from `start`, clipped to its size. It calls `bmap`, which
      could allocate, but every block below the size is mapped and nothing changes. */
  method Readi(fs: FileSystem, i: nat, start: nat, count: nat) returns (r: Ret, dst: seq<byte>)
    requires Ready(fs) && i < |fs.f.inodes| && start < UINT && count < UINT
    modifies fs`f, fs`logged, fs`owner
    ensures fs.f == old(fs.f) && fs.owner == old(fs.owner) && fs.logged == old(fs.logged)
    ensures FileOk(fs.f, i) && !r.Panic?
    ensures r.Error? <==> start > fs.f.inodes[i].size || (start + count) % UINT < start
    ensures r.Count? ==>
              var c := Contents(fs.f, i);
              r.n == |dst| && start <= |c| && dst == c[start..if start + count > |c| then |c| else start + count]
  {
    assert FileOk(fs.f, i);
    ContentsLength(fs.f, i);
    NoWrap(start, count);
    hide Base, Extent, Contents, FileOk;
    dst := [];
    if start > fs.f.inodes[i].size || (start + count) % UINT < start {
      return Error, [];
    }
    var n := if (start + count) % UINT > fs.f.inodes[i].size then fs.f.inodes[i].size - start else count;
    dst := ReadLoop(fs, i, start, n);
    return Count(n), dst;
  }

  /** The loop of `readi`. */
  method ReadLoop(fs: FileSystem, i: nat, start: nat, n: nat) returns (dst: seq<byte>)
    requires Base(fs.sb, fs.f, fs.owner) && FileOk(fs.f, i) && start + n <= fs.f.inodes[i].size
    requires |Contents(fs.f, i)| == fs.f.inodes[i].size
    modifies fs`f, fs`logged, fs`owner
    ensures fs.f == old(fs.f) && fs.owner == old(fs.owner) && fs.logged == old(fs.logged)
    ensures dst == Contents(fs.f, i)[start..start + n]
  {
    hide Addr, Owned, UsedIs, Extent, Contents;
    var tot, off := 0, start;
    dst := [];
    while tot < n
      invariant fs.f == old(fs.f) && fs.owner == old(fs.owner) && fs.logged == old(fs.logged)
      invariant tot <= n && off == start + tot && dst == Contents(fs.f, i)[start..off]
    {
      BelowSizeIsMapped(fs.f, i, off);
      var m := if n - tot < BSIZE - off % BSIZE then n - tot else BSIZE - off % BSIZE;
      var a;
      ghost var maps;
      a, maps := ReadMap(fs, i, off / BSIZE);
      BytesOfBlock(fs.f, i, off, m, a);
      dst := dst + fs.f.blocks[a][off % BSIZE..off % BSIZE + m];
      tot, off := tot + m, off + m;
    }
  }

  /** The overflow test of `readi` and `writei`. */
  lemma NoWrap(off: nat, n: nat)
    requires off < UINT && n < UINT
    ensures (off + n) % UINT == if off + n < UINT then off + n else off + n - UINT
  {
  }

  lemma ContentsLength(f: Fs, i: int)
    requires FileOk(f, i)
    ensures |Contents(f, i)| == f.inodes[i].size
  {
  }

  /** A call of `bmap` on a mapped block. */
  method ReadMap(fs: FileSystem, i: nat, bn: nat) returns (a: nat, ghost maps: set<nat>)
    requires Base(fs.sb, fs.f, fs.owner) && i < |fs.f.inodes| && bn < MAXFILE && Addr(fs.f, i, bn) != 0
    modifies fs`f, fs`logged, fs`owner
    ensures fs.f == old(fs.f) && fs.owner == old(fs.owner) && fs.logged == old(fs.logged)
    ensures a == Addr(fs.f, i, bn) && 0 < a < |fs.f.blocks|
  {
    hide Addr, Owned, UsedIs, Used, SameData, SameSizes, Zero, Extends;
    var r;
    r, maps := fs.Bmap(i, bn);
    a := r.value;
  }
}
