/** Block allocation and the mapping of file blocks to disk blocks (fs.c), as code. */
module FsCode {
  import opened Basics
  import opened FsBlocks
  import opened FsState

  /** Every set bit of the bitmap is a metadata block or the block of exactly one slot. */
  ghost predicate Base(sb: Super, f: Fs, owner: map<nat, Slot>) {
    Shape(sb, f) && Owned(sb, f, owner) && UsedIs(sb, f, owner.Keys)
  }

  /** No two slots share a block, and a block is marked in use exactly if it is metadata
      or some slot of some inode holds it. */
  lemma OwnershipIsExact(sb: Super, f: Fs, owner: map<nat, Slot>)
    requires Base(sb, f, owner)
    ensures forall i, k, j, m | IsSlot(f, i, k) && IsSlot(f, j, m) && Addr(f, i, k) == Addr(f, j, m) != 0 ::
              i == j && k == m
    ensures forall b: nat | b < sb.size ::
              Used(sb, f, b) <==> b < sb.DataStart() || exists i, k | IsSlot(f, i, k) :: Addr(f, i, k) == b
  {
    forall b: nat | b < sb.size && Used(sb, f, b) && b >= sb.DataStart()
      ensures exists i, k | IsSlot(f, i, k) :: Addr(f, i, k) == b
    {
      assert Addr(f, owner[b].i, owner[b].k) == b;
    }
  }

  /** File data: the blocks in `owner` other than indirect blocks keep their contents. */
  ghost predicate SameData(f: Fs, f': Fs, owner: map<nat, Slot>) {
    && |f'.blocks| == |f.blocks|
    && forall a | a in owner && owner[a].k != IND :: a < |f.blocks| && f'.blocks[a] == f.blocks[a]
  }

  ghost predicate SameSizes(f: Fs, f': Fs) {
    |f'.inodes| == |f.inodes| && forall i | 0 <= i < |f.inodes| :: f'.inodes[i].size == f.inodes[i].size
  }

  /** Slot k of inode i received the fresh zeroed block b, and nothing else moved. */
  ghost predicate Alloced(sb: Super, f: Fs, owner: map<nat, Slot>, f': Fs, owner': map<nat, Slot>,
                          i: int, k: int, b: nat)
    requires Shape(sb, f)
  {
    && Base(sb, f', owner') && 0 < b < sb.size && b !in owner && owner' == owner[b := Slot(i, k)]
    && OneSlot(sb, f, f', i, k, b) && f'.blocks[b] == Zero() && SameData(f, f', owner) && SameSizes(f, f')
  }

  /** What a call of `bmap` for file block bn of inode i may change, and that a is its block. */
  ghost predicate Mapped(sb: Super, f: Fs, owner: map<nat, Slot>, f': Fs, owner': map<nat, Slot>,
                         i: int, bn: int, a: nat)
    requires Shape(sb, f) && IsSlot(f, i, bn)
  {
    && Base(sb, f', owner') && SameSizes(f, f') && SameData(f, f', owner) && Extends(owner, owner')
    && IsSlot(f', i, bn) && a == Addr(f', i, bn) && a in owner' && 0 < a < sb.size
    && (forall j, m | IsSlot(f, j, m) && !(j == i && (m == bn || m == IND)) :: Addr(f', j, m) == Addr(f, j, m))
    && (Addr(f, i, bn) != 0 ==> f' == f && owner' == owner)
    && (Addr(f, i, bn) == 0 ==> a !in owner && f'.blocks[a] == Zero())
    && (bn < NDIRECT || Addr(f, i, IND) != 0 ==> Addr(f', i, IND) == Addr(f, i, IND))
    && (bn >= NDIRECT ==> Addr(f', i, IND) != 0)
  }

  /** Every block that changed is among those logged since, and only blocks behind the log are logged. */
  ghost predicate Ahead(sb: Super, f: Fs, f': Fs, logged: set<nat>, logged': set<nat>) {
    && logged <= logged' && |f'.blocks| == |f.blocks|
    && (forall b | 0 <= b < |f.blocks| && f'.blocks[b] != f.blocks[b] :: b in logged')
    && forall b | b in logged' && b !in logged :: sb.Logs(b)
  }

  lemma AheadSame(sb: Super, f: Fs, logged: set<nat>)
    ensures Ahead(sb, f, f, logged, logged)
  {
  }

  lemma AheadTrans(sb: Super, f0: Fs, f1: Fs, f2: Fs, l0: set<nat>, l1: set<nat>, l2: set<nat>)
    requires Ahead(sb, f0, f1, l0, l1) && Ahead(sb, f1, f2, l1, l2)
    ensures Ahead(sb, f0, f2, l0, l2)
  {
  }

  lemma AheadMore(sb: Super, f: Fs, f': Fs, l0: set<nat>, l1: set<nat>, l2: set<nat>)
    requires Ahead(sb, f, f', l0, l1) && l1 <= l2 && forall b | b in l2 && b !in l1 :: sb.Logs(b)
    ensures Ahead(sb, f, f', l0, l2)
  {
  }

  lemma AheadBlocks(sb: Super, f: Fs, f1: Fs, f2: Fs, logged: set<nat>, logged': set<nat>)
    requires Ahead(sb, f, f1, logged, logged') && f2.blocks == f1.blocks
    ensures Ahead(sb, f, f2, logged, logged')
  {
  }

  lemma AllocAhead(sb: Super, f: Fs, owner: map<nat, Slot>, i: int, k: int, b: nat, logged: set<nat>)
    requires Base(sb, f, owner) && IsSlot(f, i, k) && b < sb.size && !Used(sb, f, b)
    requires NDIRECT <= k < IND ==> 0 < f.inodes[i].addrs[NDIRECT] < |f.blocks|
    ensures var f1 := Allocate(sb, f, b);
            && IsSlot(f1, i, k) && |f1.inodes[i].addrs| == NDIRECT + 1
            && (NDIRECT <= k < IND ==> 0 < f1.inodes[i].addrs[NDIRECT] < |f1.blocks|)
            && Ahead(sb, f, StoreSlot(f1, i, k, b), logged,
                     logged + {sb.BBlock(b), b} + if NDIRECT <= k < IND then {f.inodes[i].addrs[NDIRECT]} else {})
  {
    assert sb.Logs(b) && sb.Logs(sb.BBlock(b));
    assert NDIRECT <= k < IND ==> sb.Logs(Addr(f, i, IND)) by {
      assert IsSlot(f, i, IND);
    }
    hide SetBlockBit, SetWord, Zero, Used, Owned, UsedIs;
  }

  lemma OwnedLogs(sb: Super, f: Fs, owner: map<nat, Slot>, a: nat)
    requires Base(sb, f, owner) && a in owner
    ensures sb.Logs(a)
  {
  }

  ghost predicate Extends(owner: map<nat, Slot>, owner': map<nat, Slot>) {
    forall a | a in owner :: a in owner' && owner'[a] == owner[a]
  }

  /** The indirect block of inode i, if it has one. */
  function Indirect(f: Fs, i: int): set<nat>
    requires IsSlot(f, i, IND) && |f.inodes[i].addrs| == NDIRECT + 1
  {
    if Addr(f, i, IND) == 0 then {} else {Addr(f, i, IND)}
  }

  /** Blocks that `bmap` has to allocate for file block bn. */
  function NewBlocks(f: Fs, i: int, bn: int): nat
    requires IsSlot(f, i, bn) && |f.inodes[i].addrs| == NDIRECT + 1
  {
    (if Addr(f, i, bn) == 0 then 1 else 0) + (if bn >= NDIRECT && Addr(f, i, IND) == 0 then 1 else 0)
  }

  class FileSystem {
    const sb: Super
    var f: Fs
    var dinodes: seq<Inode> // the inodes as last written to their disk blocks
    ghost var owner: map<nat, Slot>
    var logged: set<nat> // the blocks logged by the current operation

    constructor (sb: Super, f: Fs)
      ensures this.sb == sb && this.f == f && dinodes == f.inodes && owner == map[] && logged == {}
    {
      this.sb, this.f, dinodes, owner, logged := sb, f, f.inodes, map[], {};
    }

    /** `balloc`: the first clear bit is set and its block zeroed; None stands for the panic
        taken when every block is in use. */
    method Balloc() returns (r: Option<nat>)
      requires Shape(sb, f)
      modifies this`f, this`logged
      ensures r.None? ==> f == old(f) && logged == old(logged) && forall b | 0 <= b < sb.size :: Used(sb, f, b)
      ensures r.Some? ==>
                && r.value < sb.size && !Used(sb, old(f), r.value) && f == Allocate(sb, old(f), r.value)
                && (forall b | 0 <= b < r.value :: Used(sb, old(f), b))
                && logged == old(logged) + {sb.BBlock(r.value), r.value}
    {
      var b := 0;
      while b < sb.size
        invariant b % BPB == 0 && f == old(f) && logged == old(logged)
        invariant forall x | 0 <= x < b && x < sb.size :: Used(sb, f, x)
      {
        var bp := f.blocks[sb.BBlock(b)];
        var bi := 0;
        while bi < BPB && b + bi < sb.size
          invariant 0 <= bi <= BPB && f == old(f) && logged == old(logged)
          invariant forall x | 0 <= x < b + bi && x < sb.size :: Used(sb, f, x)
        {
          assert (b + bi) / BPB == b / BPB && (b + bi) % BPB == bi;
          if !BlockBit(bp, bi) {
            f := Fs(f.blocks[sb.BBlock(b) := SetBlockBit(bp, bi)], f.inodes);
            logged := logged + {sb.BBlock(b)};
            f := Fs(f.blocks[b + bi := Zero()], f.inodes);
            logged := logged + {b + bi};
            return Some(b + bi);
          }
          bi := bi + 1;
        }
        b := b + BPB;
      }
      return None;
    }

    /** `bfree`: panics (false) exactly if the block is already free. */
    method Bfree(b: nat) returns (ok: bool)
      requires Shape(sb, f) && b < sb.size
      modifies this`f, this`logged
      ensures ok == Used(sb, old(f), b)
      ensures ok ==> f == Release(sb, old(f), b) && logged == old(logged) + {sb.BBlock(b)}
      ensures !ok ==> f == old(f) && logged == old(logged)
    {
      var bp := f.blocks[sb.BBlock(b)];
      if !BlockBit(bp, b % BPB) {
        return false;
      }
      f := Fs(f.blocks[sb.BBlock(b) := ClearBlockBit(bp, b % BPB)], f.inodes);
      logged := logged + {sb.BBlock(b)};
      return true;
    }

    /** Allocate a block for an empty slot: the assignments of `balloc` in `bmap`. */
    method AllocSlot(i: nat, k: nat) returns (r: Option<nat>)
      requires Base(sb, f, owner) && IsSlot(f, i, k) && Addr(f, i, k) == 0
      requires NDIRECT <= k < IND ==> Addr(f, i, IND) != 0
      modifies this`f, this`logged, this`owner
      ensures r.None? ==> f == old(f) && owner == old(owner) && forall b | 0 <= b < sb.size :: Used(sb, f, b)
      ensures r.Some? ==>
                && Alloced(sb, old(f), old(owner), f, owner, i, k, r.value)
                && logged == old(logged) + {sb.BBlock(r.value), r.value}
                   + (if NDIRECT <= k < IND then {Addr(f, i, IND)} else {})
                && Ahead(sb, old(f), f, old(logged), logged)
    {
      hide Owned, UsedIs, Alloced, Used, Zero, SetBlockBit, Addr, SetWord, Ahead;
      ghost var f0 := f;
      SlotIndirect(sb, f0, owner, i, k);
      r := Balloc();
      if r.Some? {
        AllocSlotKeeps(sb, f0, owner, i, k, r.value);
        AllocAhead(sb, f0, owner, i, k, r.value, old(logged));
        if NDIRECT <= k < IND {
          logged := logged + {f.inodes[i].addrs[NDIRECT]};
        }
        f := StoreSlot(f, i, k, r.value);
        owner := owner[r.value := Slot(i, k)];
      }
    }
  
    /** `bmap`: the block of file block bn, allocated (and the indirect block with it) if absent.
        Besides that block and the indirect block, only bitmap blocks `maps` are logged. None is
        a panic: past the largest file, or with every block in use. */
    method Bmap(i: nat, bn: nat) returns (r: Option<nat>, ghost maps: set<nat>)
      requires Base(sb, f, owner) && i < |f.inodes|
      modifies this`f, this`logged, this`owner
      ensures bn >= MAXFILE ==> r.None? && f == old(f) && owner == old(owner) && logged == old(logged)
      ensures bn < MAXFILE && Addr(old(f), i, bn) != 0 ==> r.Some?
      ensures bn < MAXFILE && r.None? ==> Shape(sb, f) && forall b | 0 <= b < sb.size :: Used(sb, f, b)
      ensures r.Some? ==>
                && bn < MAXFILE
                && Mapped(sb, old(f), old(owner), f, owner, i, bn, r.value)
                && |maps| <= NewBlocks(old(f), i, bn) && logged <= old(logged) + maps + {r.value} + Indirect(f, i)
                && (Addr(old(f), i, bn) != 0 ==> logged == old(logged)) && Ahead(sb, old(f), f, old(logged), logged)
    {
      hide Mapped, SameData, Zero, Owned, UsedIs, Used, Ahead;
      maps := {};
      ghost var f0, owner0 := f, owner;
      if bn >= MAXFILE {
        return None, maps;
      }
      if bn < NDIRECT {
        var addr := f.inodes[i].addrs[bn];
        if addr == 0 {
          r := AllocSlot(i, bn);
          if r.Some? {
            maps := {sb.BBlock(r.value)};
            AllocedIsMapped(sb, f0, owner0, f, owner, i, bn, r.value);
          }
          return;
        }
        UnchangedIsMapped(sb, f, owner, i, bn);
        AheadSame(sb, f, logged);
        return Some(addr), maps;
      }
      AheadSame(sb, f, logged);
      if f.inodes[i].addrs[NDIRECT] == 0 {
        r := AllocSlot(i, IND);
        if r.None? { return; }
        maps := {sb.BBlock(r.value)};
      }
      ghost var f1, l1 := f, logged;
      r, maps := BmapEntry(i, bn, f0, owner0, maps);
      if r.Some? {
        AheadTrans(sb, f0, f1, f, old(logged), l1, logged);
      }
    }

    /** The second half of `bmap`, with the indirect block present. */
    method BmapEntry(i: nat, bn: nat, ghost f0: Fs, ghost owner0: map<nat, Slot>, ghost maps0: set<nat>)
      returns (r: Option<nat>, ghost maps: set<nat>)
      requires Base(sb, f0, owner0) && IsSlot(f0, i, bn) && NDIRECT <= bn < MAXFILE
      requires if Addr(f0, i, IND) == 0 then
                 Base(sb, f, owner) && IsSlot(f, i, IND)
                 && Alloced(sb, f0, owner0, f, owner, i, IND, Addr(f, i, IND)) && |maps0| <= 1
               else f == f0 && owner == owner0 && maps0 == {}
      modifies this`f, this`logged, this`owner
      ensures Addr(f0, i, bn) != 0 ==> r.Some?
      ensures r.None? ==> Shape(sb, f) && forall b | 0 <= b < sb.size :: Used(sb, f, b)
      ensures r.Some? ==>
                && Mapped(sb, f0, owner0, f, owner, i, bn, r.value)
                && |maps| <= NewBlocks(f0, i, bn) && logged <= old(logged) + maps + {r.value} + Indirect(f, i)
                && maps0 <= maps && (Addr(f0, i, bn) != 0 ==> logged == old(logged))
                && Addr(f, i, IND) == Addr(old(f), i, IND) && Ahead(sb, old(f), f, old(logged), logged)
    {
      hide Mapped, Owned, UsedIs, Used, SameData, SameSizes, Zero, Ahead;
      maps := maps0;
      ghost var f1, owner1 := f, owner;
      var ind := f.inodes[i].addrs[NDIRECT];
      IndirectInRange(sb, f, owner, i);
      var entry := Word(f.blocks[ind], bn - NDIRECT);
      assert entry == Addr(f, i, bn);
      if entry == 0 {
        r := AllocSlot(i, bn);
        if r.Some? {
          maps := maps + {sb.BBlock(r.value)};
          if Addr(f0, i, IND) == 0 {
            TwoAllocsMapped(sb, f0, owner0, f1, owner1, f, owner, i, bn, ind, r.value);
          } else {
            AllocedIsMapped(sb, f0, owner0, f, owner, i, bn, r.value);
          }
        }
        return;
      }
      UnchangedIsMapped(sb, f, owner, i, bn);
      AheadSame(sb, f, logged);
      r := Some(entry);
    }
  }

  lemma SlotIndirect(sb: Super, f: Fs, owner: map<nat, Slot>, i: int, k: int)
    requires Base(sb, f, owner) && IsSlot(f, i, k) && (NDIRECT <= k < IND ==> Addr(f, i, IND) != 0)
    ensures NDIRECT <= k < IND ==>
            0 < f.inodes[i].addrs[NDIRECT] < |f.blocks| && Addr(f, i, IND) == f.inodes[i].addrs[NDIRECT]
  {
    if NDIRECT <= k < IND {
      IndirectInRange(sb, f, owner, i);
    }
  }

  lemma IndirectInRange(sb: Super, f: Fs, owner: map<nat, Slot>, i: int)
    requires Base(sb, f, owner) && IsSlot(f, i, IND) && Addr(f, i, IND) != 0
    ensures Addr(f, i, IND) < sb.size
  {
  }

  lemma UnchangedIsMapped(sb: Super, f: Fs, owner: map<nat, Slot>, i: int, bn: int)
    requires Base(sb, f, owner) && IsSlot(f, i, bn) && bn < MAXFILE && Addr(f, i, bn) != 0
    ensures Mapped(sb, f, owner, f, owner, i, bn, Addr(f, i, bn))
  {
    assert NDIRECT <= bn ==> Addr(f, i, IND) != 0;
    hide Addr;
  }

  lemma AllocedIsMapped(sb: Super, f: Fs, owner: map<nat, Slot>, f': Fs, owner': map<nat, Slot>, i: int, bn: int,
                        b: nat)
    requires Base(sb, f, owner) && IsSlot(f, i, bn) && bn < MAXFILE && Addr(f, i, bn) == 0
    requires NDIRECT <= bn ==> Addr(f, i, IND) != 0
    requires Alloced(sb, f, owner, f', owner', i, bn, b)
    ensures Mapped(sb, f, owner, f', owner', i, bn, b) && Addr(f', i, IND) == Addr(f, i, IND)
  {
    hide Addr, Owned, UsedIs, SameData;
    assert IsSlot(f, i, IND);
  }

  lemma TwoAllocsMapped(sb: Super, f: Fs, owner: map<nat, Slot>, f1: Fs, owner1: map<nat, Slot>,
                        f2: Fs, owner2: map<nat, Slot>, i: int, bn: int, ind: nat, b: nat)
    requires Base(sb, f, owner) && IsSlot(f, i, bn) && NDIRECT <= bn < MAXFILE && Addr(f, i, IND) == 0
    requires Alloced(sb, f, owner, f1, owner1, i, IND, ind) && Alloced(sb, f1, owner1, f2, owner2, i, bn, b)
    ensures Mapped(sb, f, owner, f2, owner2, i, bn, b) && Addr(f2, i, IND) == ind && Addr(f, i, bn) == 0
  {
    hide SameData, SameSizes, OneSlot, Addr, Owned, UsedIs, Zero, Shape;
    NoIndirectNoEntry(sb, f, i, bn);
    TwoSlots(sb, f, f1, f2, i, bn, ind, b);
    DataCompose(f, f1, f2, owner, owner1, owner2);
  }

  lemma NoIndirectNoEntry(sb: Super, f: Fs, i: int, bn: int)
    requires Shape(sb, f) && IsSlot(f, i, bn) && NDIRECT <= bn < MAXFILE && Addr(f, i, IND) == 0
    ensures Addr(f, i, bn) == 0
  {
  }

  lemma DataCompose(f: Fs, f1: Fs, f2: Fs, owner: map<nat, Slot>, owner1: map<nat, Slot>, owner2: map<nat, Slot>)
    requires SameData(f, f1, owner) && SameSizes(f, f1) && SameData(f1, f2, owner1) && SameSizes(f1, f2)
    requires Extends(owner, owner1) && Extends(owner1, owner2)
    ensures SameData(f, f2, owner) && SameSizes(f, f2) && Extends(owner, owner2)
  {
  }

  lemma TwoSlots(sb: Super, f: Fs, f1: Fs, f2: Fs, i: int, bn: int, ind: nat, b: nat)
    requires Shape(sb, f) && IsSlot(f, i, bn) && NDIRECT <= bn < MAXFILE
    requires OneSlot(sb, f, f1, i, IND, ind) && OneSlot(sb, f1, f2, i, bn, b) && SameSizes(f, f1)
    ensures IsSlot(f2, i, bn) && Addr(f2, i, bn) == b && Addr(f2, i, IND) == ind
    ensures forall j, m | IsSlot(f, j, m) && !(j == i && (m == bn || m == IND)) :: Addr(f2, j, m) == Addr(f, j, m)
  {
    assert IsSlot(f, i, IND) && IsSlot(f1, i, IND) && IsSlot(f1, i, bn);
    hide Addr;
    forall j, m | IsSlot(f, j, m) && !(j == i && (m == bn || m == IND)) ensures Addr(f2, j, m) == Addr(f, j, m) {
      assert Addr(f1, j, m) == Addr(f, j, m);
    }
  }

  /** A zeroed block marked in use and not yet owned becomes the block of an empty slot. */
  lemma StoreKeeps(sb: Super, f: Fs, owner: map<nat, Slot>, i: int, k: int, b: nat)
    requires Shape(sb, f) && Owned(sb, f, owner) && UsedIs(sb, f, owner.Keys + {b})
    requires IsSlot(f, i, k) && Addr(f, i, k) == 0 && (NDIRECT <= k < IND ==> Addr(f, i, IND) != 0)
    requires sb.DataStart() <= b < sb.size && b !in owner && f.blocks[b] == Zero()
    ensures NDIRECT <= k < IND ==> 0 < f.inodes[i].addrs[NDIRECT] < |f.blocks|
    ensures var f' := StoreSlot(f, i, k, b);
            && Base(sb, f', owner[b := Slot(i, k)]) && OneSlot(sb, f, f', i, k, b)
            && f'.blocks[b] == Zero() && SameData(f, f', owner) && SameSizes(f, f')
  {
    hide Used, OneSlot, Zero, SetWord;
    assert NDIRECT <= k < IND ==> owner[Addr(f, i, IND)] == Slot(i, IND);
    StoreSlotOwned(sb, f, owner, i, k, b);
    StoreSlotBits(sb, f, i, k, b);
    assert owner[b := Slot(i, k)].Keys == owner.Keys + {b};
    hide Owned;
  }

  /** A clear bit becomes a zeroed block of its own in the slot. */
  lemma AllocSlotKeeps(sb: Super, f: Fs, owner: map<nat, Slot>, i: int, k: int, b: nat)
    requires Base(sb, f, owner) && IsSlot(f, i, k) && Addr(f, i, k) == 0
    requires NDIRECT <= k < IND ==> Addr(f, i, IND) != 0
    requires b < sb.size && !Used(sb, f, b)
    ensures var f1 := Allocate(sb, f, b);
            && IsSlot(f1, i, k) && |f1.inodes[i].addrs| == NDIRECT + 1
            && (NDIRECT <= k < IND ==> 0 < f1.inodes[i].addrs[NDIRECT] < |f1.blocks|)
            && (NDIRECT <= k < IND ==> f1.inodes[i].addrs[NDIRECT] == Addr(StoreSlot(f1, i, k, b), i, IND))
    ensures Alloced(sb, f, owner, StoreSlot(Allocate(sb, f, b), i, k, b), owner[b := Slot(i, k)], i, k, b)
  {
    AllocateKeeps(sb, f, owner, owner.Keys, b);
    var f1 := Allocate(sb, f, b);
    assert SameData(f, f1, owner) && SameSizes(f, f1);
    hide Used, Owned, UsedIs, Zero, OneSlot, SameData, SameSizes;
    assert Addr(f1, i, k) == 0 && (NDIRECT <= k < IND ==> Addr(f1, i, IND) != 0);
    hide SameAddrs;
    StoreKeeps(sb, f1, owner, i, k, b);
    assert sb.DataStart() > 0;
    Compose(sb, f, f1, StoreSlot(f1, i, k, b), owner, i, k, b);
  }

  lemma Compose(sb: Super, f: Fs, f1: Fs, f': Fs, owner: map<nat, Slot>, i: int, k: int, b: nat)
    requires Shape(sb, f) && Shape(sb, f1)
    requires SameAddrs(f, f1) && SameData(f, f1, owner) && SameSizes(f, f1)
    requires OneSlot(sb, f1, f', i, k, b) && SameData(f1, f', owner) && SameSizes(f1, f')
    ensures OneSlot(sb, f, f', i, k, b) && SameData(f, f', owner) && SameSizes(f, f')
  {
    hide Addr;
  }

  lemma StoreSlotBits(sb: Super, f: Fs, i: int, k: int, b: nat)
    requires Shape(sb, f) && IsSlot(f, i, k) && b < UINT
    requires NDIRECT <= k < IND ==> sb.DataStart() <= f.inodes[i].addrs[NDIRECT] < |f.blocks|
    ensures Shape(sb, StoreSlot(f, i, k, b))
    ensures forall x: nat | x < sb.size :: Used(sb, StoreSlot(f, i, k, b), x) == Used(sb, f, x)
  {
    forall x: nat | x < sb.size ensures Used(sb, StoreSlot(f, i, k, b), x) == Used(sb, f, x) {
      UsedFrame(sb, f, StoreSlot(f, i, k, b), x);
    }
  }
}
