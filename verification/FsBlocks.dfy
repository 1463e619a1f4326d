/** Disk blocks as bytes: the words of an indirect block and the bits of a bitmap block. */
module FsBlocks {
  import opened Basics

  const BSIZE := 512
  const NDIRECT := 12
  const NINDIRECT := 128 // BSIZE / sizeof(uint)
  const MAXFILE := NDIRECT + NINDIRECT
  const BPB := 4096 // BSIZE * 8
  const UINT := 0x1_0000_0000

  type Block = b: seq<byte> | |b| == BSIZE witness seq(BSIZE, _ => 0)

  function Zero(): Block { seq(BSIZE, _ => 0) }

  // ---------- words, least significant byte first ----------

  function Word(b: Block, j: int): int
    requires 0 <= j < NINDIRECT
  {
    b[4 * j] as int + 0x100 * b[4 * j + 1] as int + 0x1_0000 * b[4 * j + 2] as int + 0x100_0000 * b[4 * j + 3] as int
  }

  function SetWord(b: Block, j: int, v: int): Block
    requires 0 <= j < NINDIRECT && 0 <= v < UINT
  {
    b[4 * j := v % 0x100][4 * j + 1 := v / 0x100 % 0x100]
     [4 * j + 2 := v / 0x1_0000 % 0x100][4 * j + 3 := v / 0x100_0000]
  }

  /** Storing one word reads back, and disturbs no other. */
  lemma WordAfterSet(b: Block, j: int, v: int)
    requires 0 <= j < NINDIRECT && 0 <= v < UINT
    ensures forall k | 0 <= k < NINDIRECT :: Word(SetWord(b, j, v), k) == if k == j then v else Word(b, k)
  {
    forall k | 0 <= k < NINDIRECT ensures Word(SetWord(b, j, v), k) == if k == j then v else Word(b, k) {
      OneWordAfterSet(b, j, v, k);
    }
  }

  lemma OneWordAfterSet(b: Block, j: int, v: int, k: int)
    requires 0 <= j < NINDIRECT && 0 <= v < UINT && 0 <= k < NINDIRECT
    ensures Word(SetWord(b, j, v), k) == if k == j then v else Word(b, k)
  {
    ByteSum(v);
    var c := SetWord(b, j, v);
    if k == j {
      assert c[4 * j] == v % 0x100 && c[4 * j + 1] == v / 0x100 % 0x100;
      assert c[4 * j + 2] == v / 0x1_0000 % 0x100 && c[4 * j + 3] == v / 0x100_0000;
    } else {
      assert c[4 * k] == b[4 * k] && c[4 * k + 1] == b[4 * k + 1];
      assert c[4 * k + 2] == b[4 * k + 2] && c[4 * k + 3] == b[4 * k + 3];
    }
  }

  lemma ByteSum(v: int)
    requires 0 <= v < UINT
    ensures v == v % 0x100 + 0x100 * (v / 0x100 % 0x100) + 0x1_0000 * (v / 0x1_0000 % 0x100)
            + 0x100_0000 * (v / 0x100_0000)
  {
    var a, c := v / 0x100, v / 0x1_0000;
    assert a / 0x100 == c && c / 0x100 == v / 0x100_0000;
    assert v == 0x100 * a + v % 0x100 && a == 0x100 * c + a % 0x100;
    assert c == 0x100 * (c / 0x100) + c % 0x100;
  }

  lemma ZeroWords()
    ensures forall k | 0 <= k < NINDIRECT :: Word(Zero(), k) == 0
  {
  }

  // ---------- bits ----------

  /** 1 << i */
  function Shl(i: nat): nat { if i == 0 then 1 else 2 * Shl(i - 1) }

  /** (x & 1 << i) != 0 */
  predicate Bit(x: nat, i: nat) { if i == 0 then x % 2 == 1 else Bit(x / 2, i - 1) }

  lemma {:induction false} BitOr(x: nat, i: nat, n: nat)
    requires !Bit(x, i) && i < n && x < Shl(n)
    ensures x + Shl(i) < Shl(n)
    ensures forall k: nat :: Bit(x + Shl(i), k) <==> k == i || Bit(x, k)
  {
    if i > 0 {
      BitOr(x / 2, i - 1, n - 1);
      assert (x + Shl(i)) / 2 == x / 2 + Shl(i - 1);
    } else {
      assert (x + 1) / 2 == x / 2;
      assert Shl(n) == 2 * Shl(n - 1);
    }
  }

  lemma {:induction false} BitAndNot(x: nat, i: nat)
    requires Bit(x, i)
    ensures 0 <= x - Shl(i)
    ensures forall k: nat :: Bit(x - Shl(i), k) <==> k != i && Bit(x, k)
  {
    if i > 0 {
      BitAndNot(x / 2, i - 1);
      assert (x - Shl(i)) / 2 == x / 2 - Shl(i - 1);
    } else {
      assert (x - 1) / 2 == x / 2;
    }
  }

  /** Bit bi of a bitmap block. */
  predicate BlockBit(b: Block, bi: int)
    requires 0 <= bi < BPB
  {
    Bit(b[bi / 8], bi % 8)
  }

  /** data[bi/8] |= 1 << (bi % 8), for a clear bit */
  function SetBlockBit(b: Block, bi: int): Block
    requires 0 <= bi < BPB
  {
    b[bi / 8 := (b[bi / 8] as int + Shl(bi % 8)) % 0x100]
  }

  lemma SetBlockBitBits(b: Block, bi: int)
    requires 0 <= bi < BPB && !BlockBit(b, bi)
    ensures forall k | 0 <= k < BPB :: BlockBit(SetBlockBit(b, bi), k) <==> k == bi || BlockBit(b, k)
  {
    BitOr(b[bi / 8], bi % 8, 8);
  }

  /** data[bi/8] &= ~(1 << (bi % 8)), for a set bit */
  function ClearBlockBit(b: Block, bi: int): Block
    requires 0 <= bi < BPB
  {
    b[bi / 8 := (b[bi / 8] as int - Shl(bi % 8)) % 0x100]
  }

  lemma ClearBlockBitBits(b: Block, bi: int)
    requires 0 <= bi < BPB && BlockBit(b, bi)
    ensures forall k | 0 <= k < BPB :: BlockBit(ClearBlockBit(b, bi), k) <==> k != bi && BlockBit(b, k)
  {
    BitAndNot(b[bi / 8], bi % 8);
  }
}
