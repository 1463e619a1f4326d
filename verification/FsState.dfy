/** Inodes, their block addresses and the free bitmap as values, with the ownership
    invariant that ties them together (fs.c). */
module FsState {
  import opened FsBlocks

  const IPB := 8 // inodes per block
  const IND := MAXFILE // the slot of an inode that holds its indirect block

  datatype Super = Super(size: nat, ninodes: nat, inodestart: nat, bmapstart: nat) {
    /** The first block after the bitmap: everything below is metadata. */
    function DataStart(): nat { bmapstart + size / BPB + 1 }

    ghost predicate Valid() {
      1 < inodestart && inodestart + ninodes / IPB < bmapstart && DataStart() <= size < UINT
    }

    function BBlock(b: nat): nat { bmapstart + b / BPB }

    function IBlock(i: nat): nat { inodestart + i / IPB }

    /** The blocks after the boot block, this block and the log. */
    predicate Logs(b: int) { inodestart <= b < size }
  }

  datatype Inode = Inode(size: nat, addrs: seq<nat>)

  /** The contents of every disk block as the log layer presents them, and the inodes. */
  datatype Fs = Fs(blocks: seq<Block>, inodes: seq<Inode>)

  ghost predicate Shape(sb: Super, f: Fs) {
    && sb.Valid() && |f.blocks| == sb.size && |f.inodes| == sb.ninodes
    && forall i | 0 <= i < |f.inodes| :: |f.inodes[i].addrs| == NDIRECT + 1
  }

  predicate IsSlot(f: Fs, i: int, k: int) { 0 <= i < |f.inodes| && 0 <= k <= IND }

  /** The block number in slot k of inode i: file block k, or the indirect block for k == IND. */
  function Addr(f: Fs, i: int, k: int): nat
    requires IsSlot(f, i, k) && |f.inodes[i].addrs| == NDIRECT + 1
  {
    if k < NDIRECT then f.inodes[i].addrs[k]
    else if k == IND then f.inodes[i].addrs[NDIRECT]
    else if f.inodes[i].addrs[NDIRECT] == 0 || f.inodes[i].addrs[NDIRECT] >= |f.blocks| then 0
    else Word(f.blocks[f.inodes[i].addrs[NDIRECT]], k - NDIRECT)
  }

  predicate Used(sb: Super, f: Fs, b: int)
    requires sb.Valid() && |f.blocks| == sb.size && 0 <= b < sb.size
  {
    BlockBit(f.blocks[sb.BBlock(b)], b % BPB)
  }

  datatype Slot = Slot(i: int, k: int)

  /** The nonzero slots and the blocks in `owner` correspond one to one. */
  ghost predicate Owned(sb: Super, f: Fs, owner: map<nat, Slot>)
    requires Shape(sb, f)
  {
    && (forall i, k | IsSlot(f, i, k) ::
          Addr(f, i, k) != 0 ==> Addr(f, i, k) in owner && owner[Addr(f, i, k)] == Slot(i, k))
    && (forall a | a in owner ::
          && sb.DataStart() <= a < sb.size && IsSlot(f, owner[a].i, owner[a].k)
          && Addr(f, owner[a].i, owner[a].k) == a)
  }

  /** The bits set in the bitmap are those of the metadata blocks and of the blocks in `u`. */
  ghost predicate UsedIs(sb: Super, f: Fs, u: set<nat>)
    requires Shape(sb, f)
  {
    forall b: nat | b < sb.size :: Used(sb, f, b) <==> b < sb.DataStart() || b in u
  }

  ghost predicate SameAddrs(f: Fs, f': Fs) {
    && |f'.inodes| == |f.inodes| && |f'.blocks| == |f.blocks|
    && (forall i | 0 <= i < |f.inodes| :: |f'.inodes[i].addrs| == |f.inodes[i].addrs| == NDIRECT + 1)
    && forall i, k | IsSlot(f, i, k) :: Addr(f', i, k) == Addr(f, i, k)
  }

  /** Addresses change only with the inodes or with an indirect block. */
  lemma AddrsFrame(sb: Super, f: Fs, owner: map<nat, Slot>, f': Fs)
    requires Shape(sb, f) && Owned(sb, f, owner)
    requires f'.inodes == f.inodes && |f'.blocks| == |f.blocks|
    requires forall a | a in owner && owner[a].k == IND :: f'.blocks[a] == f.blocks[a]
    ensures Shape(sb, f') && SameAddrs(f, f') && Owned(sb, f', owner)
  {
    forall i, k | IsSlot(f, i, k) ensures Addr(f', i, k) == Addr(f, i, k) {
      assert IsSlot(f, i, IND);
      assert Addr(f, i, IND) != 0 ==> owner[Addr(f, i, IND)] == Slot(i, IND);
    }
  }

  /** A bitmap bit changes only with the block that holds it. */
  lemma UsedFrame(sb: Super, f: Fs, f': Fs, b: nat)
    requires sb.Valid() && |f.blocks| == sb.size == |f'.blocks| && b < sb.size
    requires f'.blocks[sb.BBlock(b)] == f.blocks[sb.BBlock(b)]
    ensures Used(sb, f', b) == Used(sb, f, b)
  {
  }

  lemma BitPosition(b: nat, x: nat)
    ensures b / BPB == x / BPB && b % BPB == x % BPB ==> b == x
  {
  }

  // ---------- one block changes ----------

  /** Writing file data moves no address and leaves the bitmap alone. */
  lemma WriteDataKeeps(sb: Super, f: Fs, owner: map<nat, Slot>, a: nat, data: Block)
    requires Shape(sb, f) && Owned(sb, f, owner) && a in owner && owner[a].k != IND
    ensures var f' := Fs(f.blocks[a := data], f.inodes);
            Shape(sb, f') && SameAddrs(f, f') && Owned(sb, f', owner)
            && forall b | 0 <= b < sb.size :: Used(sb, f', b) == Used(sb, f, b)
  {
    AddrsFrame(sb, f, owner, Fs(f.blocks[a := data], f.inodes));
  }

  /** `balloc` after it has found the clear bit b: set it and zero the block. */
  function Allocate(sb: Super, f: Fs, b: nat): Fs
    requires Shape(sb, f) && b < sb.size && !Used(sb, f, b)
  {
    Fs(f.blocks[sb.BBlock(b) := SetBlockBit(f.blocks[sb.BBlock(b)], b % BPB)][b := Zero()], f.inodes)
  }

  lemma AllocateKeeps(sb: Super, f: Fs, owner: map<nat, Slot>, u: set<nat>, b: nat)
    requires Shape(sb, f) && Owned(sb, f, owner) && UsedIs(sb, f, u) && owner.Keys <= u
    requires b < sb.size && !Used(sb, f, b)
    ensures var f' := Allocate(sb, f, b);
            && Shape(sb, f') && SameAddrs(f, f') && Owned(sb, f', owner) && UsedIs(sb, f', u + {b})
            && sb.DataStart() <= b && b !in u && f'.blocks[b] == Zero()
            && forall a | sb.DataStart() <= a < sb.size && a != b :: f'.blocks[a] == f.blocks[a]
  {
    var f' := Allocate(sb, f, b);
    AddrsFrame(sb, f, owner, f');
    SetBlockBitBits(f.blocks[sb.BBlock(b)], b % BPB);
    forall x: nat | x < sb.size ensures Used(sb, f', x) <==> Used(sb, f, x) || x == b {
      BitPosition(b, x);
      if sb.BBlock(x) != sb.BBlock(b) { UsedFrame(sb, f, f', x); }
    }
  }

  /** `bfree`: clear the bit of a block in use. */
  function Release(sb: Super, f: Fs, b: nat): Fs
    requires Shape(sb, f) && b < sb.size && Used(sb, f, b)
  {
    Fs(f.blocks[sb.BBlock(b) := ClearBlockBit(f.blocks[sb.BBlock(b)], b % BPB)], f.inodes)
  }

  lemma ReleaseKeeps(sb: Super, f: Fs, owner: map<nat, Slot>, u: set<nat>, b: nat)
    requires Shape(sb, f) && Owned(sb, f, owner) && UsedIs(sb, f, u)
    requires sb.DataStart() <= b < sb.size && b in u && Used(sb, f, b)
    ensures var f' := Release(sb, f, b);
            && Shape(sb, f') && SameAddrs(f, f') && Owned(sb, f', owner) && UsedIs(sb, f', u - {b})
            && forall a | sb.DataStart() <= a < sb.size :: f'.blocks[a] == f.blocks[a]
  {
    var f' := Release(sb, f, b);
    AddrsFrame(sb, f, owner, f');
    ClearBlockBitBits(f.blocks[sb.BBlock(b)], b % BPB);
    forall x: nat | x < sb.size ensures Used(sb, f', x) <==> Used(sb, f, x) && x != b {
      BitPosition(b, x);
      if sb.BBlock(x) != sb.BBlock(b) { UsedFrame(sb, f, f', x); }
    }
  }

  // ---------- a slot changes ----------

  function SetAddr(ip: Inode, k: int, b: nat): Inode
    requires 0 <= k < |ip.addrs|
  {
    Inode(ip.size, ip.addrs[k := b])
  }

  function StoreEntry(f: Fs, ind: nat, j: int, b: nat): Fs
    requires ind < |f.blocks| && 0 <= j < NINDIRECT && b < UINT
  {
    Fs(f.blocks[ind := SetWord(f.blocks[ind], j, b)], f.inodes)
  }

  /** Store block number b in slot k of inode i, where the slot lives. */
  function StoreSlot(f: Fs, i: int, k: int, b: nat): Fs
    requires IsSlot(f, i, k) && |f.inodes[i].addrs| == NDIRECT + 1 && b < UINT
    requires NDIRECT <= k < IND ==> 0 < f.inodes[i].addrs[NDIRECT] < |f.blocks|
  {
    if NDIRECT <= k < IND then StoreEntry(f, f.inodes[i].addrs[NDIRECT], k - NDIRECT, b)
    else Fs(f.blocks, f.inodes[i := SetAddr(f.inodes[i], if k == IND then NDIRECT else k, b)])
  }

  /** Only slot k of inode i differs, and it holds b. */
  ghost predicate OneSlot(sb: Super, f: Fs, f': Fs, i: int, k: int, b: nat)
    requires Shape(sb, f)
  {
    && Shape(sb, f')
    && forall j, m | IsSlot(f, j, m) :: Addr(f', j, m) == if j == i && m == k then b else Addr(f, j, m)
  }

  lemma StoreEntrySlot(sb: Super, f: Fs, owner: map<nat, Slot>, i: int, k: int, b: nat)
    requires Shape(sb, f) && Owned(sb, f, owner) && IsSlot(f, i, k) && NDIRECT <= k < IND
    requires 0 < f.inodes[i].addrs[NDIRECT] < |f.blocks| && b < sb.size
    ensures OneSlot(sb, f, StoreSlot(f, i, k, b), i, k, b)
  {
    var f', ind := StoreSlot(f, i, k, b), Addr(f, i, IND);
    assert owner[ind] == Slot(i, IND);
    WordAfterSet(f.blocks[ind], k - NDIRECT, b);
    hide Word, SetWord;
    forall j, m | IsSlot(f, j, m)
      ensures Addr(f', j, m) == if j == i && m == k then b else Addr(f, j, m)
    {
      assert IsSlot(f, j, IND);
      assert Addr(f, j, IND) != 0 ==> owner[Addr(f, j, IND)] == Slot(j, IND);
    }
  }

  lemma StoreAddrSlot(sb: Super, f: Fs, i: int, k: int, b: nat)
    requires Shape(sb, f) && IsSlot(f, i, k) && !(NDIRECT <= k < IND)
    requires k == IND ==> Addr(f, i, IND) == 0 && b < sb.size && f.blocks[b] == Zero()
    requires b < UINT
    ensures OneSlot(sb, f, StoreSlot(f, i, k, b), i, k, b)
  {
    ZeroWords();
    hide Word;
  }

  /** A fresh zeroed block stored in an empty slot is owned by that slot. */
  lemma StoreSlotOwned(sb: Super, f: Fs, owner: map<nat, Slot>, i: int, k: int, b: nat)
    requires Shape(sb, f) && Owned(sb, f, owner) && IsSlot(f, i, k) && Addr(f, i, k) == 0
    requires NDIRECT <= k < IND ==> 0 < f.inodes[i].addrs[NDIRECT] < |f.blocks|
    requires sb.DataStart() <= b < sb.size && b !in owner && f.blocks[b] == Zero()
    ensures var f' := StoreSlot(f, i, k, b);
            OneSlot(sb, f, f', i, k, b) && Owned(sb, f', owner[b := Slot(i, k)])
  {
    if NDIRECT <= k < IND {
      StoreEntrySlot(sb, f, owner, i, k, b);
    } else {
      StoreAddrSlot(sb, f, i, k, b);
    }
    hide Addr;
  }
}
