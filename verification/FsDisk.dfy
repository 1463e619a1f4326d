/** The disk that log.c writes, seen as the file system of fs.c: words become bytes and inodes. A disk
    stands for a file system when its blocks behind the log are the words of the file system's blocks
    and its inode blocks hold the inodes. */
module FsDisk {
  import opened Basics
  import opened FsBlocks
  import opened FsState
  import opened FsCode
  import opened FsFile
  import L = WriteAheadLog

  // ---------- blocks on disk ----------

  const DWORDS := 16 // words of a dinode: two for type, device and links, one for size, then addresses

  function WordsOf(b: Block): L.Block { seq(L.WORDS, j requires 0 <= j < L.WORDS => Word(b, j)) }

  /** Byte k of a word, least significant first. */
  function ByteOf(w: int, k: int): byte
    requires 0 <= k < 4
  {
    (if k == 0 then w else if k == 1 then w / 0x100 else if k == 2 then w / 0x1_0000 else w / 0x100_0000) % 0x100
  }

  function BlockOf(w: L.Block): Block {
    seq(BSIZE, x requires 0 <= x < BSIZE => ByteOf(w[x / 4], x % 4))
  }

  lemma FourBytes(a: byte, b: byte, c: byte, d: byte)
    ensures var w := a as int + 0x100 * b as int + 0x1_0000 * c as int + 0x100_0000 * d as int;
            ByteOf(w, 0) == a && ByteOf(w, 1) == b && ByteOf(w, 2) == c && ByteOf(w, 3) == d
  {
    var w := a as int + 0x100 * b as int + 0x1_0000 * c as int + 0x100_0000 * d as int;
    Quotient(w, a, b as int + 0x100 * c as int + 0x1_0000 * d as int);
    Quotient(w / 0x100, b, c as int + 0x100 * d as int);
    Quotient(w / 0x1_0000, c, d);
    assert w / 0x1_0000 == w / 0x100 / 0x100 && w / 0x100_0000 == w / 0x1_0000 / 0x100;
  }

  lemma Quotient(w: int, low: int, high: int)
    requires 0 <= low < 0x100 && w == low + 0x100 * high
    ensures w / 0x100 == high && w % 0x100 == low
  {
  }

  lemma BlockRoundTrip(b: Block)
    ensures BlockOf(WordsOf(b)) == b
  {
    forall x | 0 <= x < BSIZE ensures BlockOf(WordsOf(b))[x] == b[x] {
      var j := x / 4;
      FourBytes(b[4 * j], b[4 * j + 1], b[4 * j + 2], b[4 * j + 3]);
      assert WordsOf(b)[j] == Word(b, j);
      hide ByteOf;
      assert x == 4 * j + x % 4;
    }
  }

  /** The words of a block determine its bytes. */
  lemma WordsDetermineBytes(a: Block, b: Block)
    requires WordsOf(a) == WordsOf(b)
    ensures a == b
  {
    BlockRoundTrip(a);
    BlockRoundTrip(b);
  }

  /** Word x of an inode as `iupdate` writes it: the size, then the addresses. */
  function InodeWord(ip: Inode, x: int): int
    requires |ip.addrs| == NDIRECT + 1 && 2 <= x < DWORDS
  {
    if x == 2 then ip.size else ip.addrs[x - 3]
  }

  /** Where word x of inode i is in its block. */
  function Place(i: nat, x: int): (y: int)
    requires 0 <= x < DWORDS
    ensures 0 <= y < L.WORDS && y / DWORDS == i % IPB && y % DWORDS == x
  {
    i % IPB * DWORDS + x
  }

  /** Inode i is in this inode block. */
  ghost predicate HoldsInode(w: L.Block, i: nat, ip: Inode) {
    |ip.addrs| == NDIRECT + 1 && forall x | 2 <= x < DWORDS :: w[Place(i, x)] == InodeWord(ip, x)
  }

  /** The block after `iupdate`, which leaves the words of the other inodes. */
  function PutInode(w: L.Block, i: nat, ip: Inode): L.Block
    requires |ip.addrs| == NDIRECT + 1
  {
    seq(L.WORDS, x requires 0 <= x < L.WORDS =>
      if x / DWORDS == i % IPB && x % DWORDS >= 2 then InodeWord(ip, x % DWORDS) else w[x])
  }

  /** `iupdate` stores its inode and no other. */
  lemma PutInodeHolds(w: L.Block, i: nat, ip: Inode, j: nat, jp: Inode)
    requires |ip.addrs| == NDIRECT + 1 && (j % IPB != i % IPB ==> HoldsInode(w, j, jp)) && (j == i ==> jp == ip)
    requires j % IPB == i % IPB ==> j == i
    ensures HoldsInode(PutInode(w, i, ip), j, jp)
  {
  }

  // ---------- disks and file systems ----------

  /** The log lies in front of the inode blocks of the same disk. */
  ghost predicate Fit(l: L.Layout, sb: Super) {
    l.Valid() && sb.Valid() && l.size == sb.size && l.start + l.nlog <= sb.inodestart
  }

  predicate InodeBlock(sb: Super, b: int) { sb.inodestart <= b < sb.bmapstart }

  /** The home blocks d hold the file system f. */
  ghost predicate StandsFor(sb: Super, d: map<int, L.Block>, f: Fs) {
    && Shape(sb, f)
    && (forall b | sb.Logs(b) :: b in d && (!InodeBlock(sb, b) ==> d[b] == WordsOf(f.blocks[b])))
    && forall i: nat | i < |f.inodes| :: sb.Logs(sb.IBlock(i)) && HoldsInode(d[sb.IBlock(i)], i, f.inodes[i])
  }

  lemma InodesAgree(w: L.Block, i: nat, ip: Inode, jp: Inode)
    requires HoldsInode(w, i, ip) && HoldsInode(w, i, jp)
    ensures ip == jp
  {
    assert ip.size == w[Place(i, 2)] == jp.size;
    forall k | 0 <= k <= NDIRECT ensures ip.addrs[k] == jp.addrs[k] {
      assert ip.addrs[k] == InodeWord(ip, k + 3) == w[Place(i, k + 3)] == InodeWord(jp, k + 3);
    }
  }

  /** What a disk stands for is one file system, as far as files go. */
  lemma DiskDeterminesFiles(sb: Super, d: map<int, L.Block>, f: Fs, owner: map<nat, Slot>, f': Fs,
                            owner': map<nat, Slot>, i: nat)
    requires StandsFor(sb, d, f) && StandsFor(sb, d, f') && Base(sb, f, owner) && Base(sb, f', owner') && i < sb.ninodes
    ensures IsInode(f, i) && SameFile(f, f', i)
  {
    InodesAgree(d[sb.IBlock(i)], i, f.inodes[i], f'.inodes[i]);
    hide UsedIs;
    forall a: nat | sb.DataStart() <= a < sb.size ensures f.blocks[a] == f'.blocks[a] {
      WordsDetermineBytes(f.blocks[a], f'.blocks[a]);
    }
    SameBlocksSameFile(sb, f, owner, f', i);
  }

  lemma SameBlocksSameFile(sb: Super, f: Fs, owner: map<nat, Slot>, f': Fs, i: nat)
    requires Base(sb, f, owner) && Shape(sb, f') && i < |f.inodes| && f'.inodes[i] == f.inodes[i]
    requires forall a: nat | sb.DataStart() <= a < sb.size :: f.blocks[a] == f'.blocks[a]
    ensures IsInode(f, i) && SameFile(f, f', i)
  {
    hide UsedIs;
    assert forall k | 0 <= k <= IND :: IsSlot(f, i, k);
    forall k | 0 <= k <= IND ensures Addr(f', i, k) == Addr(f, i, k) {
      assert Addr(f, i, IND) == f.inodes[i].addrs[NDIRECT];
      assert Addr(f, i, IND) != 0 ==> sb.DataStart() <= Addr(f, i, IND) < sb.size;
    }
    hide Addr;
    forall pos | 0 <= pos < MAXBYTES ensures ByteAt(f', i, pos) == ByteAt(f, i, pos) {
      assert IsSlot(f, i, pos / BSIZE);
    }
  }

  // ---------- the file system on a disk ----------

  function NatOf(x: int): nat { if x < 0 then 0 else x }

  /** Inode i as it is in its block. */
  function InodeOf(w: L.Block, i: nat): Inode {
    Inode(NatOf(w[Place(i, 2)]), seq(NDIRECT + 1, k requires 0 <= k <= NDIRECT => NatOf(w[Place(i, k + 3)])))
  }

  lemma InodeRoundTrip(w: L.Block, i: nat, ip: Inode)
    requires HoldsInode(w, i, ip)
    ensures InodeOf(w, i) == ip
  {
    assert w[Place(i, 2)] == InodeWord(ip, 2) == ip.size;
    forall k | 0 <= k <= NDIRECT ensures InodeOf(w, i).addrs[k] == ip.addrs[k] {
      assert w[Place(i, k + 3)] == InodeWord(ip, k + 3);
    }
  }

  /** What a kernel finds on the disk: inodes from the inode blocks, everything behind them as bytes. */
  function Decode(sb: Super, disk: seq<L.Block>): Fs
    requires sb.Valid() && |disk| == sb.size
  {
    Fs(seq(sb.size, b requires 0 <= b < sb.size =>
             if sb.Logs(b) && !InodeBlock(sb, b) then BlockOf(disk[b]) else Zero()),
       seq(sb.ninodes, i requires 0 <= i < sb.ninodes => InodeOf(disk[sb.IBlock(i)], i)))
  }

  ghost function Homes(l: L.Layout, disk: seq<L.Block>): map<int, L.Block>
    requires |disk| == l.size
  {
    map b | 0 <= b < l.size && l.Home(b) :: disk[b]
  }

  /** Inodes, bitmap, indirect and data blocks are the same. */
  ghost predicate SameFs(sb: Super, f: Fs, f': Fs)
    requires Shape(sb, f)
  {
    Shape(sb, f') && f'.inodes == f.inodes && forall b | sb.bmapstart <= b < sb.size :: f'.blocks[b] == f.blocks[b]
  }

  /** Decoding a disk gives the file system that it stands for. */
  lemma DecodeStands(l: L.Layout, sb: Super, disk: seq<L.Block>, f: Fs)
    requires Fit(l, sb) && |disk| == l.size && StandsFor(sb, Homes(l, disk), f)
    ensures SameFs(sb, f, Decode(sb, disk)) && StandsFor(sb, Homes(l, disk), Decode(sb, disk))
  {
    hide WordsOf, BlockOf, InodeOf, HoldsInode, Place;
    var d, f' := Homes(l, disk), Decode(sb, disk);
    forall b | sb.bmapstart <= b < sb.size ensures f'.blocks[b] == f.blocks[b] {
      assert sb.Logs(b) && d[b] == disk[b];
      BlockRoundTrip(f.blocks[b]);
    }
    forall i: nat | i < sb.ninodes ensures f'.inodes[i] == f.inodes[i] {
      assert sb.Logs(sb.IBlock(i)) && d[sb.IBlock(i)] == disk[sb.IBlock(i)];
      InodeRoundTrip(disk[sb.IBlock(i)], i, f.inodes[i]);
    }
    assert f'.inodes == f.inodes;
  }

  /** The same inodes and blocks are the same files, owned alike. */
  lemma SameFsSame(sb: Super, f: Fs, owner: map<nat, Slot>, f': Fs)
    requires Base(sb, f, owner) && SameFs(sb, f, f')
    ensures Base(sb, f', owner) && forall i: nat | i < |f.inodes| :: IsInode(f, i) && SameFile(f, f', i)
  {
    AddrsFrame(sb, f, owner, f');
    forall b: nat | b < sb.size ensures Used(sb, f', b) == Used(sb, f, b) {
      UsedFrame(sb, f, f', b);
    }
    hide Addr, Used;
    forall i: nat | i < |f.inodes| ensures IsInode(f, i) && SameFile(f, f', i) {
      SameBlocksSameFile(sb, f, owner, f', i);
    }
  }

  // ---------- writing a disk ----------

  /** The block that holds inodes first to first + IPB - 1, of those that there are. */
  function InodesBlock(inodes: seq<Inode>, first: nat): L.Block
    requires forall i | 0 <= i < |inodes| :: |inodes[i].addrs| == NDIRECT + 1
  {
    seq(L.WORDS, x requires 0 <= x < L.WORDS =>
      if first + x / DWORDS < |inodes| && x % DWORDS >= 2 then InodeWord(inodes[first + x / DWORDS], x % DWORDS) else 0)
  }

  lemma InodesBlockHolds(inodes: seq<Inode>, i: nat)
    requires (forall j | 0 <= j < |inodes| :: |inodes[j].addrs| == NDIRECT + 1) && i < |inodes|
    ensures HoldsInode(InodesBlock(inodes, i / IPB * IPB), i, inodes[i])
  {
    assert i == i / IPB * IPB + i % IPB;
  }

  function NoWords(): L.Block { seq(L.WORDS, _ => 0) }

  /** The disk of a file system, with an empty log in front of it: what mkfs writes. */
  function Image(sb: Super, f: Fs): seq<L.Block>
    requires Shape(sb, f)
  {
    seq(sb.size, b requires 0 <= b < sb.size => ImageBlock(sb, f, b))
  }

  function ImageBlock(sb: Super, f: Fs, b: nat): L.Block
    requires Shape(sb, f) && b < sb.size
  {
    if b < sb.inodestart then NoWords()
    else if InodeBlock(sb, b) then InodesBlock(f.inodes, (b - sb.inodestart) * IPB)
    else WordsOf(f.blocks[b])
  }

  lemma ImageStands(l: L.Layout, sb: Super, f: Fs)
    requires Fit(l, sb) && Shape(sb, f)
    ensures |Image(sb, f)| == l.size && Image(sb, f)[l.start] == NoWords()
    ensures StandsFor(sb, Homes(l, Image(sb, f)), f)
  {
    hide WordsOf, InodesBlock, HoldsInode, Place, InodeWord;
    var d := Homes(l, Image(sb, f));
    forall i: nat | i < |f.inodes| ensures sb.Logs(sb.IBlock(i)) && HoldsInode(d[sb.IBlock(i)], i, f.inodes[i]) {
      InodesBlockHolds(f.inodes, i);
      assert InodeBlock(sb, sb.IBlock(i)) && l.Home(sb.IBlock(i));
    }
  }
}
