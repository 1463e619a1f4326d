/** The file system that mkfs starts from: every inode empty, the metadata blocks marked in use. */
module FsInit {
  import opened FsBlocks
  import opened FsState
  import opened FsCode
  import opened FsFile
  import opened FsIo

  lemma ZeroBits()
    ensures forall k | 0 <= k < BPB :: !BlockBit(Zero(), k)
  {
    forall k | 0 <= k < BPB ensures !BlockBit(Zero(), k) { ZeroBit(k % 8); }
  }

  lemma {:induction false} ZeroBit(i: nat)
    ensures !Bit(0, i)
  {
    if i > 0 {
      ZeroBit(i - 1);
    }
  }

  /** mkfs, `balloc`: the first bits of a bitmap block. */
  method MarkUsed(used: nat) returns (buf: Block)
    requires used < BPB
    ensures forall k | 0 <= k < BPB :: BlockBit(buf, k) <==> k < used
  {
    hide BlockBit, SetBlockBit, Zero;
    buf := Zero();
    ZeroBits();
    var i := 0;
    while i < used
      invariant 0 <= i <= used && forall k | 0 <= k < BPB :: BlockBit(buf, k) <==> k < i
    {
      SetBlockBitBits(buf, i);
      buf := SetBlockBit(buf, i);
      i := i + 1;
    }
  }

  function EmptyInode(): Inode { Inode(0, seq(NDIRECT + 1, _ => 0)) }

  /** An empty file system is one in which ownership is exact and files have no holes: the state that
      balloc, bmap, readi, writei, itrunc and filewrite keep. */
  method Format(sb: Super) returns (fs: FileSystem)
    requires sb.Valid() && sb.DataStart() < BPB
    ensures fresh(fs) && fs.sb == sb && Ready(fs) && forall i | 0 <= i < sb.ninodes :: Contents(fs.f, i) == []
  {
    var bitmap := MarkUsed(sb.DataStart());
    var blocks: seq<Block> := seq(sb.size, _ => Zero());
    var f := Fs(blocks[sb.bmapstart := bitmap], seq(sb.ninodes, _ => EmptyInode()));
    fs := new FileSystem(sb, f);
    EmptyIsReady(sb, f, bitmap);
  }

  lemma EmptyIsReady(sb: Super, f: Fs, bitmap: Block)
    requires sb.Valid() && sb.DataStart() < BPB && |f.blocks| == sb.size && |f.inodes| == sb.ninodes
    requires forall k | 0 <= k < BPB :: BlockBit(bitmap, k) <==> k < sb.DataStart()
    requires forall b | 0 <= b < sb.size :: f.blocks[b] == if b == sb.bmapstart then bitmap else Zero()
    requires forall i | 0 <= i < sb.ninodes :: f.inodes[i] == EmptyInode()
    ensures Base(sb, f, map[])
    ensures forall i | 0 <= i < sb.ninodes :: IsInode(f, i) && FileOk(f, i) && Contents(f, i) == []
  {
    ZeroBits();
    forall b: nat | b < sb.size ensures Used(sb, f, b) <==> b < sb.DataStart() {
      assert b / BPB == 0 <==> b < BPB;
      assert b < BPB ==> b % BPB == b;
    }
    forall i, k | IsSlot(f, i, k) ensures Addr(f, i, k) == 0 { }
  }
}
