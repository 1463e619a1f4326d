/** `filewrite` through the log: what a crash at any block write leaves of the file, and that operations
    can go on from there. */
module FsCrash {
  import opened Basics
  import opened FsBlocks
  import opened FsState
  import opened FsCode
  import opened FsFile
  import opened FsIo
  import opened FsTrunc
  import opened FsInit
  import opened FsDisk
  import L = WriteAheadLog
  import LC = WriteAheadLogCorrect
  import C = WriteAheadLogCode

  // ---------- one transaction on the disk ----------

  /** The contents of block b once inode i and the blocks of f are stored in it. */
  function NewBlock(sb: Super, w: L.Block, f: Fs, i: nat, b: int): L.Block
    requires Shape(sb, f) && sb.Logs(b) && i < |f.inodes|
  {
    if b == sb.IBlock(i) then PutInode(w, i, f.inodes[i])
    else if InodeBlock(sb, b) then w else WordsOf(f.blocks[b])
  }

  /** The blocks in `done` are those of f, the others as in d. */
  ghost predicate Replaced(sb: Super, d: map<int, L.Block>, d': map<int, L.Block>, f: Fs, i: nat, done: set<nat>)
    requires Shape(sb, f) && i < |f.inodes|
  {
    && d'.Keys == d.Keys && (forall b | b in done :: sb.Logs(b) && b in d && d'[b] == NewBlock(sb, d[b], f, i, b))
    && forall b | b in d && b !in done :: d'[b] == d[b]
  }

  /** Storing all logged blocks turns a disk of f into a disk of f'. */
  lemma TransactionStands(sb: Super, d: map<int, L.Block>, f: Fs, d': map<int, L.Block>, f': Fs, i: nat, tx: set<nat>)
    requires StandsFor(sb, d, f) && Shape(sb, f') && i < |f.inodes| == |f'.inodes| && Replaced(sb, d, d', f', i, tx)
    requires Ahead(sb, f, f', {}, tx) && f'.inodes == f.inodes[i := f'.inodes[i]]
    requires f'.inodes == f.inodes || sb.IBlock(i) in tx
    ensures StandsFor(sb, d', f')
  {
    hide WordsOf, PutInode, HoldsInode;
    forall j: nat | j < |f'.inodes| ensures sb.Logs(sb.IBlock(j)) && HoldsInode(d'[sb.IBlock(j)], j, f'.inodes[j]) {
      var b := sb.IBlock(j);
      assert HoldsInode(d[b], j, f.inodes[j]) && b in d;
      if b in tx && b == sb.IBlock(i) {
        SameIBlock(i, j);
        PutInodeHolds(d[b], i, f'.inodes[i], j, f'.inodes[j]);
      }
    }
  }

  lemma SameIBlock(i: nat, j: nat)
    ensures i / IPB == j / IPB && i % IPB == j % IPB ==> i == j
  {
  }

  /** Log and file system agree on the disk: nothing is in progress, and what is durable stands for f. */
  ghost predicate Synced(fs: FileSystem, log: C.Log)
    reads fs, log, log.block
  {
    && Fit(log.l, fs.sb) && log.l.nlog > MAXOPBLOCKS + 1 && log.Quiet()
    && StandsFor(fs.sb, LC.Abstract(log.l, log.View()).durable, fs.f)
  }

  /** An operation is in progress in the log. */
  ghost predicate InOp(log: C.Log)
    reads log, log.block
  {
    log.Valid() && log.Alone() && LC.Inv(log.l, log.View()) && log.phase == L.Running && log.op.Some?
  }

  /** One logged block is read, changed and logged. */
  method StoreOne(log: C.Log, sb: Super, f: Fs, i: nat, b: nat, ghost done: set<nat>, ghost d: map<int, L.Block>)
    requires Fit(log.l, sb) && Shape(sb, f) && i < |f.inodes| && sb.Logs(b) && b !in done
    requires InOp(log) && log.op.value.used == done && |done| < MAXOPBLOCKS && MAXOPBLOCKS + 1 < log.l.nlog
    requires log.n == |done| && (forall x | x in log.block[..log.n] :: x in done)
    requires Replaced(sb, d, LC.Abstract(log.l, log.View()).current, f, i, done)
    modifies log`cache, log`n, log`op, log.block
    ensures InOp(log) && log.op.value.used == done + {b}
    ensures log.n == |done| + 1 && (forall x | x in log.block[..log.n] :: x in done + {b})
    ensures LC.Abstract(log.l, log.View()).durable == old(LC.Abstract(log.l, log.View()).durable)
    ensures Replaced(sb, d, LC.Abstract(log.l, log.View()).current, f, i, done + {b})
  {
    hide LC.Abstract, LC.Inv, NewBlock;
    var w := log.Read(b);
    var _ := log.Update(b, NewBlock(sb, w, f, i, b));
  }

  /** Every block that the operation logged. */
  method StoreAll(log: C.Log, sb: Super, f: Fs, i: nat, tx: set<nat>)
    requires Fit(log.l, sb) && Shape(sb, f) && i < |f.inodes| && (forall b | b in tx :: sb.Logs(b))
    requires InOp(log) && log.n == 0 && log.op.value.used == {} && |tx| <= MAXOPBLOCKS && MAXOPBLOCKS + 1 < log.l.nlog
    modifies log`cache, log`n, log`op, log.block
    ensures InOp(log) && LC.Abstract(log.l, log.View()).durable == old(LC.Abstract(log.l, log.View()).durable)
    ensures log.n == |tx|
    ensures Replaced(sb, old(LC.Abstract(log.l, log.View()).current), LC.Abstract(log.l, log.View()).current, f, i, tx)
  {
    hide LC.Abstract, LC.DiskOk, LC.HomesOnly, LC.Fits, LC.CacheInv, LC.PinInv, LC.PhaseInv, L.SpaceInv, NewBlock,
         Replaced;
    ghost var d, durable := LC.Abstract(log.l, log.View()).current, LC.Abstract(log.l, log.View()).durable;
    NothingReplaced(sb, d, f, i);
    var done, rest := {}, tx;
    while rest != {}
      invariant InOp(log) && LC.Abstract(log.l, log.View()).durable == durable
      invariant Replaced(sb, d, LC.Abstract(log.l, log.View()).current, f, i, done)
      invariant done !! rest && done + rest == tx && |done| + |rest| == |tx|
      invariant log.op.value.used == done && log.n == |done| && (forall x | x in log.block[..log.n] :: x in done)
      decreases |rest|
    {
      var b :| b in rest;
      StoreOne(log, sb, f, i, b, done, d);
      done, rest := done + {b}, rest - {b};
    }
    assert done == tx;
  }

  lemma NothingReplaced(sb: Super, d: map<int, L.Block>, f: Fs, i: nat)
    requires Shape(sb, f) && i < |f.inodes|
    ensures Replaced(sb, d, d, f, i, {})
  {
  }

  // ---------- whole writes ----------

  /** The places where a transaction of `filewrite` ends, in n bytes. */
  predicate Boundary(m: nat, n: nat) { m <= n && (m == n || m % CHUNK == 0) }

  /** Ownership is exact and files have no holes: what every operation relies on. */
  ghost predicate Sound(sb: Super, f: Fs) {
    (exists owner :: Base(sb, f, owner)) && forall i | 0 <= i < |f.inodes| :: IsInode(f, i) && FileOk(f, i)
  }

  /** These home blocks hold a sound file system, with every other file of f0 as it was, and file i with the
      first bytes of the data laid over it, up to the end of some transaction. */
  ghost predicate HoldsPart(sb: Super, d: map<int, L.Block>, f0: Fs, i: nat, off: nat, data: seq<byte>) {
    exists m: nat, f: Fs :: StandsFor(sb, d, f) && Sound(sb, f) && IsPart(f0, f, i, off, data, m)
  }

  ghost predicate IsPart(f0: Fs, f: Fs, i: nat, off: nat, data: seq<byte>, m: nat) {
    && FileOk(f0, i) && AllInodes(f0) && Boundary(m, |data|) && Written(f0, f, i, off, data, m)
    && (m > 0 ==> off <= f0.inodes[i].size)
  }

  /** After a crash with this disk, recovery leaves such blocks. */
  ghost predicate Safe(l: L.Layout, sb: Super, disk: seq<L.Block>, f0: Fs, i: nat, off: nat, data: seq<byte>) {
    Fit(l, sb) && exists d :: C.Means(l, disk, d) && HoldsPart(sb, d, f0, i, off, data)
  }

  ghost predicate AllSafe(l: L.Layout, sb: Super, disks: seq<seq<L.Block>>, f0: Fs, i: nat, off: nat, data: seq<byte>) {
    forall k | 0 <= k < |disks| :: Safe(l, sb, disks[k], f0, i, off, data)
  }

  lemma PartHeld(fs: FileSystem, d: map<int, L.Block>, f0: Fs, i: nat, off: nat, data: seq<byte>, m: nat)
    requires InProgress(fs, f0, i, off, data, m) && Boundary(m, |data|) && StandsFor(fs.sb, d, fs.f)
    ensures HoldsPart(fs.sb, d, f0, i, off, data)
  {
    hide StandsFor, Written, Base;
    assert Sound(fs.sb, fs.f) && IsPart(f0, fs.f, i, off, data, m);
  }

  lemma EitherSafe(l: L.Layout, sb: Super, disks: seq<seq<L.Block>>, was: map<int, L.Block>, now: map<int, L.Block>,
                   f0: Fs, i: nat, off: nat, data: seq<byte>)
    requires Fit(l, sb) && C.OldOrNew(l, disks, was, now)
    requires HoldsPart(sb, was, f0, i, off, data) && HoldsPart(sb, now, f0, i, off, data)
    ensures AllSafe(l, sb, disks, f0, i, off, data)
  {
    hide HoldsPart, C.Means;
  }

  /** What one transaction of `filewrite` does: the blocks in tx are logged, and only inode i changes. */
  ghost predicate OneTransaction(sb: Super, f: Fs, f': Fs, i: nat, tx: set<nat>) {
    && Shape(sb, f') && i < |f.inodes| == |f'.inodes| && Ahead(sb, f, f', {}, tx) && |tx| <= MAXOPBLOCKS
    && f'.inodes == f.inodes[i := f'.inodes[i]] && (f'.inodes == f.inodes || sb.IBlock(i) in tx)
  }

  lemma OnlyOneInode(fs: FileSystem, f0: Fs, f: Fs, i: nat, off: nat, data: seq<byte>, k: nat, m: nat)
    requires FileOk(f0, i) && AllInodes(f0) && k <= |data| && Written(f0, f, i, off, data, k)
    requires InProgress(fs, f0, i, off, data, m)
    ensures Shape(fs.sb, fs.f) && |f.inodes| == |fs.f.inodes| && i < |f.inodes|
            && fs.f.inodes == f.inodes[i := fs.f.inodes[i]]
  {
    hide Addr, ByteAt, Contents, SameFile;
    forall j | 0 <= j < |f.inodes| && j != i ensures fs.f.inodes[j] == f.inodes[j] {
      assert IsInode(f0, j) && SameFile(f0, f, j) && SameFile(f0, fs.f, j);
      SameFileInode(f0, f, j);
      SameFileInode(f0, fs.f, j);
    }
  }

  /** The blocks of the transaction go through the log. */
  method CommitChunk(log: C.Log, sb: Super, f: Fs, i: nat, tx: set<nat>, ghost f1: Fs)
    requires Fit(log.l, sb) && OneTransaction(sb, f1, f, i, tx) && MAXOPBLOCKS + 1 < log.l.nlog
    requires InOp(log) && log.n == 0 && log.op.value.used == {}
    requires StandsFor(sb, LC.Abstract(log.l, log.View()).current, f1)
    modifies log, log.block
    ensures log.Quiet() && old(log.disks) <= log.disks
    ensures StandsFor(sb, LC.Abstract(log.l, log.View()).durable, f)
    ensures C.OldOrNew(log.l, log.disks[|old(log.disks)|..], old(LC.Abstract(log.l, log.View()).durable),
                       LC.Abstract(log.l, log.View()).durable)
  {
    hide LC.Abstract, LC.DiskOk, LC.HomesOnly, LC.Fits, LC.CacheInv, LC.PinInv, LC.PhaseInv, L.SpaceInv, StandsFor,
         Replaced, C.OldOrNew;
    ghost var d := LC.Abstract(log.l, log.View()).current;
    StoreAll(log, sb, f, i, tx);
    TransactionStands(sb, d, f1, LC.Abstract(log.l, log.View()).current, f, i, tx);
    log.EndOp();
  }

  /** begin_op, writei of the next chunk, end_op. */
  method LoggedChunk(fs: FileSystem, log: C.Log, i: nat, data: seq<byte>, off0: nat, k: nat, ghost f0: Fs)
    returns (r: Ret)
    requires Synced(fs, log) && InProgress(fs, f0, i, off0, data, k) && k < |data| && off0 < UINT && Boundary(k, |data|)
    modifies fs`f, fs`dinodes, fs`logged, fs`owner, log, log.block
    ensures old(log.disks) <= log.disks
    ensures AllSafe(log.l, fs.sb, log.disks[|old(log.disks)|..], f0, i, off0, data)
    ensures r.Count? ==> Synced(fs, log) && InProgress(fs, f0, i, off0, data, k + ChunkSize(|data| - k))
    ensures r.Error? ==>
            Synced(fs, log) && InProgress(fs, f0, i, off0, data, k) && NextRefused(fs, i, off0 + k, |data| - k)
    ensures r.Panic? ==> DiskFull(fs) && log.disks == old(log.disks)
  {
    hide LC.Abstract, LC.DiskOk, LC.HomesOnly, LC.Fits, LC.CacheInv, LC.PinInv, LC.PhaseInv, L.SpaceInv, StandsFor,
         Written, HoldsPart, AllSafe, NextRefused, C.OldOrNew, Ahead;
    ghost var was, f1 := LC.Abstract(log.l, log.View()).durable, fs.f;
    PartHeld(fs, was, f0, i, off0, data, k);
    log.BeginOp();
    var tx;
    r, tx := Transaction(fs, i, data, off0, k, f0);
    if r.Panic? {
      assert log.disks[|old(log.disks)|..] == [];
      NoneSafe(log.l, fs.sb, f0, i, off0, data);
      return;
    }
    ghost var m := if r.Count? then k + ChunkSize(|data| - k) else k;
    OnlyOneInode(fs, f0, f1, i, off0, data, k, m);
    if r.Error? {
      tx := {};
      AheadSame(fs.sb, f1, {});
    }
    CommitChunk(log, fs.sb, fs.f, i, tx, f1);
    ghost var now := LC.Abstract(log.l, log.View()).durable;
    PartHeld(fs, now, f0, i, off0, data, m);
    EitherSafe(log.l, fs.sb, log.disks[|old(log.disks)|..], was, now, f0, i, off0, data);
  }

  lemma NoneSafe(l: L.Layout, sb: Super, f0: Fs, i: nat, off: nat, data: seq<byte>)
    ensures AllSafe(l, sb, [], f0, i, off, data)
  {
  }

  lemma SafeConcat(l: L.Layout, sb: Super, a: seq<seq<L.Block>>, b: seq<seq<L.Block>>, f0: Fs, i: nat, off: nat,
                   data: seq<byte>)
    requires AllSafe(l, sb, a, f0, i, off, data) && AllSafe(l, sb, b, f0, i, off, data)
    ensures AllSafe(l, sb, a + b, f0, i, off, data)
  {
    hide Safe;
  }

  /** `filewrite` through the log: the disk before it and the disk after every block that it writes, in
      every commit, are ones from which recovery restores the file with a whole number of
      transactions done, and every other file. A full disk stops it in a panic, with such a disk. */
  method LoggedFileWrite(fs: FileSystem, log: C.Log, i: nat, data: seq<byte>, off0: nat) returns (r: Ret, done: nat)
    requires Synced(fs, log) && Ready(fs) && i < |fs.f.inodes| && off0 < UINT
    modifies fs`f, fs`dinodes, fs`logged, fs`owner, log, log.block
    ensures old(log.disks) <= log.disks
    ensures AllSafe(log.l, fs.sb, [old(log.disk)] + log.disks[|old(log.disks)|..], old(fs.f), i, off0, data)
    ensures !r.Panic? ==> Synced(fs, log) && InProgress(fs, old(fs.f), i, off0, data, done) && Boundary(done, |data|)
    ensures r.Count? ==> r.n == done == |data|
    ensures r.Error? ==> done < |data| && NextRefused(fs, i, off0 + done, |data| - done)
    ensures r.Panic? ==> DiskFull(fs)
  {
    hide InProgress, NextRefused, DiskFull, Ready, Synced, AllSafe;
    ghost var f0, disks := fs.f, [log.disk];
    StartSafe(fs, log, i, off0, data);
    assert [log.disk] + log.disks[|log.disks|..] == disks;
    done, r := 0, Count(|data|);
    while done < |data|
      invariant r == Count(|data|) && Boundary(done, |data|)
      invariant Synced(fs, log) && InProgress(fs, f0, i, off0, data, done)
      invariant old(log.disks) <= log.disks && disks == [old(log.disk)] + log.disks[|old(log.disks)|..]
      invariant AllSafe(log.l, fs.sb, disks, f0, i, off0, data)
    {
      ghost var d1 := log.disks;
      r := LoggedChunk(fs, log, i, data, off0, done, f0);
      SafeConcat(log.l, fs.sb, disks, log.disks[|d1|..], f0, i, off0, data);
      disks := disks + log.disks[|d1|..];
      TraceGrows(old(log.disk), old(log.disks), d1, log.disks);
      if !r.Count? { return; }
      done := done + ChunkSize(|data| - done);
      r := Count(|data|);
    }
  }

  lemma TraceGrows(d: seq<L.Block>, a: seq<seq<L.Block>>, b: seq<seq<L.Block>>, c: seq<seq<L.Block>>)
    requires a <= b <= c
    ensures [d] + b[|a|..] + c[|b|..] == [d] + c[|a|..]
  {
  }

  lemma StartSafe(fs: FileSystem, log: C.Log, i: nat, off: nat, data: seq<byte>)
    requires Synced(fs, log) && Ready(fs) && i < |fs.f.inodes|
    ensures InProgress(fs, fs.f, i, off, data, 0) && AllSafe(log.l, fs.sb, [log.disk], fs.f, i, off, data)
  {
    StartWritten(fs, i, off, data);
    var d := LC.Abstract(log.l, log.View()).durable;
    PartHeld(fs, d, fs.f, i, off, data, 0);
    C.MeanNow(log.l, log.View());
    hide HoldsPart, StandsFor, Written;
    assert C.Means(log.l, [log.disk][0], d);
  }

  // ---------- starting ----------

  /** The machine starts with a disk that means d, which stands for f: recovery, and what the kernel then
      finds on the disk, give a log and a file system that agree, with the files of f. */
  method Mount(l: L.Layout, sb: Super, disk: seq<L.Block>, ghost d: map<int, L.Block>, ghost f: Fs)
    returns (fs: FileSystem, log: C.Log)
    requires Fit(l, sb) && l.nlog > MAXOPBLOCKS + 1 && C.Means(l, disk, d) && StandsFor(sb, d, f) && Sound(sb, f)
    ensures fresh(fs) && fresh(log) && fresh(log.block) && fs.sb == sb && log.l == l
    ensures Synced(fs, log) && Ready(fs) && SameFs(sb, f, fs.f)
  {
    hide StandsFor, LC.CacheInv, LC.PinInv, LC.PhaseInv, L.SpaceInv, LC.HomesOnly, Base, SameFs, Decode;
    log := new C.Log(l, disk);
    log.InitLog();
    HomesAre(l, log.disk, d);
    DecodeStands(l, sb, log.disk, f);
    fs := new FileSystem(sb, Decode(sb, log.disk));
    ghost var owner :| Base(sb, f, owner);
    fs.owner := owner;
    MountedFs(sb, f, owner, fs.f);
  }

  lemma HomesAre(l: L.Layout, disk: seq<L.Block>, d: map<int, L.Block>)
    requires |disk| == l.size && (forall b :: b in d <==> l.Home(b)) && forall b | l.Home(b) :: disk[b] == d[b]
    ensures Homes(l, disk) == d
  {
  }

  lemma MountedFs(sb: Super, f: Fs, owner: map<nat, Slot>, f': Fs)
    requires Base(sb, f, owner) && Sound(sb, f) && SameFs(sb, f, f')
    ensures Base(sb, f', owner) && forall i | 0 <= i < |f'.inodes| :: IsInode(f', i) && FileOk(f', i)
  {
    SameFsSame(sb, f, owner, f');
    hide Base, Addr, ByteAt, Extent;
    forall i | 0 <= i < |f'.inodes| ensures IsInode(f', i) && FileOk(f', i) {
      assert IsInode(f, i) && SameFile(f, f', i);
      SameFileSame(f, f', i);
    }
  }

  /** File i of f is that of f0 with the first m bytes of the data laid over it at off, or as it was if
      off lies past its end; every other file is as it was. */
  ghost predicate Shows(f0: Fs, f: Fs, i: nat, off: nat, data: seq<byte>, m: nat)
    requires FileOk(f0, i) && AllInodes(f0) && m <= |data|
  {
    && FileOk(f, i) && OthersSame(f0, f, i)
    && if off <= f0.inodes[i].size then Contents(f, i) == Splice(Contents(f0, i), off, data[..m])
       else SameFile(f0, f, i)
  }

  lemma PartShows(sb: Super, f0: Fs, f: Fs, f': Fs, i: nat, off: nat, data: seq<byte>, m: nat)
    requires Sound(sb, f) && IsPart(f0, f, i, off, data, m) && Shape(sb, f) && SameFs(sb, f, f')
    ensures Shows(f0, f', i, off, data, m)
  {
    hide Base, Addr, ByteAt, Extent, Contents, Splice, SameFile;
    var owner :| Base(sb, f, owner);
    SameFsSame(sb, f, owner, f');
    assert SameFile(f, f', i);
    SameFileSame(f, f', i);
    forall j | 0 <= j < |f0.inodes| && j != i ensures SameFile(f0, f', j) {
      assert SameFile(f0, f, j) && SameFile(f, f', j);
      SameFileTrans(f0, f, f', j);
    }
    if off > f0.inodes[i].size {
      assert f == f0;
    }
  }

  lemma SameFileTrans(f: Fs, f1: Fs, f2: Fs, j: int)
    requires IsInode(f, j) && SameFile(f, f1, j) && IsInode(f1, j) && SameFile(f1, f2, j)
    ensures SameFile(f, f2, j)
  {
    hide Addr, ByteAt;
  }

  /** The reboot after a crash during `filewrite`: recovery and mounting give a log and a file system that
      agree and are ready for more, in which the file has a whole number of transactions done. */
  method RecoverFile(l: L.Layout, sb: Super, disk: seq<L.Block>, ghost f0: Fs, ghost i: nat, ghost off: nat,
                     ghost data: seq<byte>)
    returns (fs: FileSystem, log: C.Log, ghost m: nat)
    requires Safe(l, sb, disk, f0, i, off, data) && l.nlog > MAXOPBLOCKS + 1
    ensures fresh(fs) && fresh(log) && fresh(log.block) && fs.sb == sb && log.l == l && Synced(fs, log) && Ready(fs)
    ensures FileOk(f0, i) && AllInodes(f0) && Boundary(m, |data|) && Shows(f0, fs.f, i, off, data, m)
  {
    hide StandsFor, Sound, Written, Ready, Synced, SameFs, Shows, C.Means;
    ghost var d :| C.Means(l, disk, d) && HoldsPart(sb, d, f0, i, off, data);
    ghost var f;
    m, f :| StandsFor(sb, d, f) && Sound(sb, f) && IsPart(f0, f, i, off, data, m);
    StandsShape(sb, d, f);
    fs, log := Mount(l, sb, disk, d, f);
    PartShows(sb, f0, f, fs.f, i, off, data, m);
  }

  lemma StandsShape(sb: Super, d: map<int, L.Block>, f: Fs)
    requires StandsFor(sb, d, f)
    ensures Shape(sb, f)
  {
  }

  /** mkfs and the first boot: an empty file system with an empty log in front of it. */
  method MakeDisk(l: L.Layout, sb: Super) returns (fs: FileSystem, log: C.Log)
    requires Fit(l, sb) && l.nlog > MAXOPBLOCKS + 1 && sb.DataStart() < BPB
    ensures fresh(fs) && fresh(log) && fresh(log.block) && fs.sb == sb && log.l == l && Synced(fs, log) && Ready(fs)
    ensures forall i | 0 <= i < sb.ninodes :: Contents(fs.f, i) == []
  {
    var empty := Format(sb);
    ghost var f := empty.f;
    assert Sound(sb, f);
    hide StandsFor, Sound, Image, C.Means, Base, Extent;
    forall i | 0 <= i < sb.ninodes ensures f.inodes[i].size == 0 { ContentsLength(f, i); }
    ImageStands(l, sb, f);
    ImageMeans(l, sb, f);
    fs, log := Mount(l, sb, Image(sb, empty.f), Homes(l, Image(sb, f)), f);
    forall i | 0 <= i < sb.ninodes ensures Contents(fs.f, i) == [] { ContentsLength(fs.f, i); }
  }

  /** With an empty log a disk means what is in its home blocks. */
  lemma ImageMeans(l: L.Layout, sb: Super, f: Fs)
    requires Fit(l, sb) && Shape(sb, f)
    ensures |Image(sb, f)| == l.size && C.Means(l, Image(sb, f), Homes(l, Image(sb, f)))
  {
    ImageStands(l, sb, f);
    hide Image, StandsFor;
    assert L.HeadOf(NoWords()) == [];
  }
}
