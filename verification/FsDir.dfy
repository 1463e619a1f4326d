/** Directories (fs.c): files of 16-byte entries, over files as byte sequences. */
module FsDir {
  import opened Basics
  import opened FsBlocks
  import opened FsState
  import opened FsCode
  import opened FsFile
  import opened FsIo
  import opened FsTrunc

  const DIRSIZ := 14
  const DIRENT := 16
  const USHORT := 0x1_0000

  /** A file name: a C string without its terminator. */
  type Name = s: seq<byte> | 0 !in s

  /** The part of a name that counts. */
  function Key(name: Name): Name { if |name| <= DIRSIZ then name else name[..DIRSIZ] }

  /** The bytes before the first NUL. */
  function CutNul(s: seq<byte>): (r: Name)
    ensures |r| <= |s|
  {
    if s == [] || s[0] == 0 then [] else [s[0]] + CutNul(s[1..])
  }

  function Zeros(n: nat): seq<byte> { seq(n, _ => 0) }

  /** A directory entry: the inode number in two bytes, and the name padded with NULs. */
  function Encode(inum: nat, name: Name): (e: seq<byte>)
    ensures |e| == DIRENT
  {
    [inum % 0x100, inum / 0x100 % 0x100] + Key(name) + Zeros(DIRSIZ - |Key(name)|)
  }

  function Inum(e: seq<byte>): nat
    requires |e| == DIRENT
  {
    e[0] as int + 0x100 * e[1] as int
  }

  function NameOf(e: seq<byte>): Name
    requires |e| == DIRENT
  {
    CutNul(e[2..])
  }

  lemma {:induction false} CutPadded(k: Name, n: nat)
    ensures CutNul(k + Zeros(n)) == k
    decreases |k|
  {
    var s := k + Zeros(n);
    if k != [] {
      CutPadded(k[1..], n);
      assert s[1..] == k[1..] + Zeros(n);
      assert s[0] == k[0] && k[0] in k;
    }
  }

  /** An entry reads back as what was stored: the name up to 14 bytes, the number modulo 2^16. */
  lemma EntryRoundTrip(inum: nat, name: Name)
    ensures Inum(Encode(inum, name)) == inum % USHORT && NameOf(Encode(inum, name)) == Key(name)
  {
    var k := Key(name);
    CutPadded(k, DIRSIZ - |k|);
    assert Encode(inum, name)[2..] == k + Zeros(DIRSIZ - |k|);
    assert inum % USHORT == inum % 0x100 + 0x100 * (inum / 0x100 % 0x100);
  }

  // ---------------------------------------------------------------- a directory as a list of entries

  /** Entry k of a directory with contents c. */
  function Entry(c: seq<byte>, k: int): (e: seq<byte>)
    requires 0 <= k && DIRENT * (k + 1) <= |c|
    ensures |e| == DIRENT
  {
    c[DIRENT * k..DIRENT * (k + 1)]
  }

  predicate InDir(c: seq<byte>, k: int) { 0 <= k && DIRENT * (k + 1) <= |c| }

  predicate Live(c: seq<byte>, k: int) { InDir(c, k) && Inum(Entry(c, k)) != 0 }

  /** Entry k stands for the name. */
  predicate Names(c: seq<byte>, k: int, name: Name) { Live(c, k) && NameOf(Entry(c, k)) == Key(name) }

  /** No name is entered twice. */
  ghost predicate Unique(c: seq<byte>) {
    forall k, j | Live(c, k) && Live(c, j) && NameOf(Entry(c, k)) == NameOf(Entry(c, j)) :: k == j
  }

  /** The directory as a map: what a name stands for, 0 for nothing. */
  ghost function Lookup(c: seq<byte>, name: Name): nat {
    if k :| Names(c, k, name) then Inum(Entry(c, k)) else 0
  }

  /** The entry written at k. */
  function Link(c: seq<byte>, k: nat, inum: nat, name: Name): seq<byte>
    requires DIRENT * k <= |c|
  {
    Splice(c, DIRENT * k, Encode(inum, name))
  }

  lemma LinkEntries(c: seq<byte>, k: nat, inum: nat, name: Name)
    requires |c| % DIRENT == 0 && DIRENT * k <= |c|
    ensures var d := Link(c, k, inum, name);
            && |d| % DIRENT == 0 && InDir(d, k) && Entry(d, k) == Encode(inum, name)
            && (forall j :: InDir(d, j) <==> InDir(c, j) || j == k)
            && (forall j | j != k && InDir(c, j) :: Entry(d, j) == Entry(c, j))
  {
    var d := Link(c, k, inum, name);
    assert InDir(c, k) || |c| == DIRENT * k;
    forall j | j != k && InDir(c, j) ensures InDir(d, j) && Entry(d, j) == Entry(c, j) {
      if j < k {
        assert DIRENT * (j + 1) <= DIRENT * k;
      } else {
        assert DIRENT * (k + 1) <= DIRENT * j;
      }
    }
  }

  /** dirlink in a free place: the name now stands for the number modulo 2^16, every other name for
      what it stood for, and no name is entered twice. */
  lemma LinkThenLookup(c: seq<byte>, k: nat, inum: nat, name: Name, other: Name)
    requires |c| % DIRENT == 0 && DIRENT * k <= |c| && !Live(c, k) && Unique(c) && forall j :: !Names(c, j, name)
    ensures var d := Link(c, k, inum, name);
            Unique(d) && Lookup(d, other) == if Key(other) == Key(name) then inum % USHORT else Lookup(c, other)
  {
    var d := Link(c, k, inum, name);
    LinkEntries(c, k, inum, name);
    EntryRoundTrip(inum, name);
    hide Encode, Inum, NameOf, Entry, Key, Link;
    assert forall j | j != k :: Live(d, j) <==> Live(c, j);
    assert forall j | j != k :: Names(d, j, other) <==> Names(c, j, other);
    assert Names(d, k, other) <==> inum % USHORT != 0 && Key(other) == Key(name);
    assert Key(other) == Key(name) ==> forall j :: Names(c, j, other) <==> Names(c, j, name);
    assert Unique(d) by {
      forall i, j | Live(d, i) && Live(d, j) && NameOf(Entry(d, i)) == NameOf(Entry(d, j)) ensures i == j {
        assert Live(c, i) && i != k ==> !Names(c, i, name);
        assert Live(c, j) && j != k ==> !Names(c, j, name);
      }
    }
    LookupIs(d, other);
    LookupIs(c, other);
  }

  /** With unique names any entry for the name tells what it stands for. */
  lemma LookupIs(c: seq<byte>, name: Name)
    requires Unique(c)
    ensures forall k | Names(c, k, name) :: Lookup(c, name) == Inum(Entry(c, k))
    ensures (forall k :: !Names(c, k, name)) ==> Lookup(c, name) == 0
  {
  }

  // ---------------------------------------------------------------- the code

  /** The first i bytes of the name and of the field agree. */
  ghost predicate Agree(name: Name, q: seq<byte>, i: int) {
    0 <= i <= |name| && i <= |q| && CutNul(q) == name[..i] + CutNul(q[i..])
  }

  lemma AgreeNone(name: Name, q: seq<byte>)
    ensures Agree(name, q, 0)
  {
    assert q[0..] == q;
  }

  lemma AgreeMore(name: Name, q: seq<byte>, i: int)
    requires Agree(name, q, i) && i < |name| && i < |q| && name[i] == q[i]
    ensures Agree(name, q, i + 1)
  {
    CutFrom(q, i);
    assert name[i] in name;
  }

  lemma AgreeAll(name: Name, q: seq<byte>)
    requires Agree(name, q, |q|) && |q| == DIRSIZ
    ensures CutNul(q) == Key(name)
  {
    assert q[|q|..] == [];
    assert name[..DIRSIZ] == Key(name);
  }

  lemma CutFrom(s: seq<byte>, i: nat)
    requires i < |s|
    ensures CutNul(s[i..]) == if s[i] == 0 then [] else [s[i]] + CutNul(s[i + 1..])
  {
    assert s[i..][1..] == s[i + 1..];
  }

  lemma FirstDifference(name: Name, q: seq<byte>, i: nat)
    requires |q| == DIRSIZ && i < DIRSIZ && Agree(name, q, i) && (i < |name| ==> name[i] != q[i])
    ensures CutNul(q) == Key(name) <==> (if i < |name| then name[i] else 0) == q[i]
  {
    CutFrom(q, i);
    if i < |name| {
      assert |Key(name)| > i && Key(name)[i] == name[i];
      assert |CutNul(q)| > i ==> CutNul(q)[i] == q[i];
    } else {
      assert name[..i] == name && Key(name) == name;
    }
  }

  /** `namecmp`: strncmp of a name and the name field of an entry. */
  method NameCmp(name: Name, de: seq<byte>) returns (same: bool)
    requires |de| == DIRENT
    ensures same <==> NameOf(de) == Key(name)
  {
    hide CutNul, Agree, Key;
    var q := de[2..];
    var i := 0;
    AgreeNone(name, q);
    while i < DIRSIZ && i < |name| && name[i] == q[i]
      invariant 0 <= i <= DIRSIZ && i <= |name| && Agree(name, q, i)
    {
      AgreeMore(name, q, i);
      i := i + 1;
    }
    if i == DIRSIZ {
      AgreeAll(name, q);
      return true;
    }
    FirstDifference(name, q, i);
    same := (if i < |name| then name[i] else 0) == q[i];
  }

  datatype Found = At(inum: nat, k: nat) | Absent | Halt

  /** readi of one entry, as both loops do it. */
  method ReadEntry(fs: FileSystem, i: nat, k: nat) returns (ok: bool, de: seq<byte>)
    requires Ready(fs) && i < |fs.f.inodes| && DIRENT * k < fs.f.inodes[i].size
    modifies fs`f, fs`logged, fs`owner
    ensures fs.f == old(fs.f) && fs.owner == old(fs.owner) && fs.logged == old(fs.logged) && Ready(fs)
            && FileOk(fs.f, i)
    ensures ok <==> InDir(Contents(fs.f, i), k)
    ensures ok ==> de == Entry(Contents(fs.f, i), k)
    ensures !ok ==> |Contents(fs.f, i)| % DIRENT != 0
  {
    hide Base, Contents, Extent;
    assert FileOk(fs.f, i);
    ContentsLength(fs.f, i);
    SmallFile(fs.f, i);
    var r;
    r, de := Readi(fs, i, DIRENT * k, DIRENT);
    ok := r == Count(DIRENT);
  }

  /** The first k entries are whole and none of them is for the name. */
  ghost predicate Passed(c: seq<byte>, k: int, name: Name) {
    0 <= k && DIRENT * k <= |c| && forall j | 0 <= j < k :: !Names(c, j, name)
  }

  lemma PassedOn(c: seq<byte>, k: int, name: Name, de: seq<byte>)
    requires Passed(c, k, name) && InDir(c, k) && de == Entry(c, k)
    ensures Names(c, k, name) <==> Inum(de) != 0 && NameOf(de) == Key(name)
    ensures !Names(c, k, name) ==> Passed(c, k + 1, name)
  {
  }

  lemma PassedAll(c: seq<byte>, k: int, name: Name)
    requires Passed(c, k, name) && |c| < DIRENT * (k + 1)
    ensures forall j :: !Names(c, j, name)
    ensures |c| == DIRENT * k <==> |c| % DIRENT == 0
  {
    hide Inum, NameOf, Entry, Key;
    forall j ensures !Names(c, j, name) {
      if j >= k {
        assert DIRENT * (j + 1) >= DIRENT * (k + 1);
      }
    }
  }

  /** `dirlookup`: the first entry with the name; the panic (Halt) if a partial entry is reached. */
  method Dirlookup(fs: FileSystem, i: nat, name: Name) returns (r: Found)
    requires Ready(fs) && i < |fs.f.inodes|
    modifies fs`f, fs`logged, fs`owner
    ensures fs.f == old(fs.f) && fs.owner == old(fs.owner) && fs.logged == old(fs.logged) && Ready(fs)
            && FileOk(fs.f, i)
    ensures var c := Contents(fs.f, i);
            && (r.At? ==>
                  && Names(c, r.k, name) && r.inum == Inum(Entry(c, r.k))
                  && forall j | 0 <= j < r.k :: !Names(c, j, name))
            && (r.Absent? ==> |c| % DIRENT == 0 && forall j :: !Names(c, j, name))
            && (r.Halt? ==> |c| % DIRENT != 0 && forall j :: !Names(c, j, name))
  {
    assert FileOk(fs.f, i);
    ContentsLength(fs.f, i);
    hide Ready, Contents, FileOk, Inum, NameOf, Entry, Names, Key;
    ghost var c := Contents(fs.f, i);
    var k := 0;
    while DIRENT * k < fs.f.inodes[i].size
      invariant fs.f == old(fs.f) && fs.owner == old(fs.owner) && fs.logged == old(fs.logged) && Ready(fs)
      invariant Passed(c, k, name)
      decreases fs.f.inodes[i].size - DIRENT * k
    {
      var ok, de := ReadEntry(fs, i, k);
      if !ok {
        PassedAll(c, k, name);
        return Halt;
      }
      PassedOn(c, k, name, de);
      if Inum(de) != 0 {
        var same := NameCmp(name, de);
        if same {
          return At(Inum(de), k);
        }
      }
      k := k + 1;
    }
    PassedAll(c, k, name);
    r := Absent;
  }

  lemma SmallFile(f: Fs, i: int)
    requires FileOk(f, i)
    ensures f.inodes[i].size <= MAXBYTES < UINT - DIRENT
  {
  }

  /** strncpy and the store of the number: the entry, byte by byte. */
  method MakeEntry(inum: nat, name: Name) returns (de: seq<byte>)
    ensures de == Encode(inum, name)
  {
    de := [inum % 0x100, inum / 0x100 % 0x100];
    var i := 0;
    while i < DIRSIZ && i < |name|
      invariant 0 <= i <= DIRSIZ && i <= |name| && de == [inum % 0x100, inum / 0x100 % 0x100] + name[..i]
    {
      de := de + [name[i]];
      i := i + 1;
    }
    assert name[..i] == Key(name);
    while i < DIRSIZ
      invariant |Key(name)| <= i <= DIRSIZ
                && de == [inum % 0x100, inum / 0x100 % 0x100] + Key(name) + Zeros(i - |Key(name)|)
    {
      assert Zeros(i - |Key(name)|) + [0] == Zeros(i + 1 - |Key(name)|);
      de := de + [0];
      i := i + 1;
    }
  }

  datatype Linked = Done(k: nat) | Exists | Full

  /** `dirlink`: nothing if the name is entered; otherwise the entry goes into the first free place, or
      at the end. Full is the panic: no room in the file or on the disk, or a partial entry. */
  method Dirlink(fs: FileSystem, i: nat, name: Name, inum: nat) returns (r: Linked)
    requires Ready(fs) && i < |fs.f.inodes|
    modifies fs`f, fs`dinodes, fs`logged, fs`owner
    ensures FileOk(old(fs.f), i)
    ensures r.Full? ==>
              var n := |Contents(old(fs.f), i)|; n % DIRENT != 0 || n + DIRENT > MAXBYTES || DiskFull(fs)
    ensures r.Exists? ==> fs.f == old(fs.f) && exists j :: Names(Contents(old(fs.f), i), j, name)
    ensures r.Done? ==>
              && Ready(fs) && FileOk(fs.f, i) && AllInodes(old(fs.f)) && OthersSame(old(fs.f), fs.f, i)
              && var c := Contents(old(fs.f), i);
                 && |c| % DIRENT == 0 && (forall j :: !Names(c, j, name)) && (forall j | 0 <= j < r.k :: Live(c, j))
                 && DIRENT * r.k <= |c| && !Live(c, r.k) && Contents(fs.f, i) == Link(c, r.k, inum, name)
    ensures r.Done? ==>
              && Ahead(fs.sb, old(fs.f), fs.f, old(fs.logged), fs.logged)
              && (fs.dinodes == old(fs.dinodes) || fs.sb.IBlock(i) in fs.logged)
  {
    hide Base, Extent, Contents, Inum, NameOf, Entry, Names, Key, Live, Splice, Ahead;
    assert FileOk(fs.f, i);
    ContentsLength(fs.f, i);
    SmallFile(fs.f, i);
    var found := Dirlookup(fs, i, name);
    if found.At? {
      return Exists;
    }
    if found.Halt? {
      return Full;
    }
    var ok, k := FreePlace(fs, i);
    if !ok {
      return Full;
    }
    var de := MakeEntry(inum, name);
    var w := Writei(fs, i, de, DIRENT * k);
    if w != Count(DIRENT) {
      return Full;
    }
    r := Done(k);
  }

  /** The search of `dirlink` for an empty entry; the panic (false) if a partial entry is reached. */
  method FreePlace(fs: FileSystem, i: nat) returns (ok: bool, k: nat)
    requires Ready(fs) && i < |fs.f.inodes| && FileOk(fs.f, i)
    modifies fs`f, fs`logged, fs`owner
    ensures fs.f == old(fs.f) && fs.owner == old(fs.owner) && fs.logged == old(fs.logged) && Ready(fs)
    ensures var c := Contents(fs.f, i); DIRENT * k <= |c| && !Live(c, k) && forall j | 0 <= j < k :: Live(c, j)
    ensures !ok ==> |Contents(fs.f, i)| % DIRENT != 0
  {
    ContentsLength(fs.f, i);
    hide Ready, Contents, FileOk, Inum, Entry, Live;
    ghost var c := Contents(fs.f, i);
    ok, k := true, 0;
    while DIRENT * k < fs.f.inodes[i].size
      invariant fs.f == old(fs.f) && fs.owner == old(fs.owner) && fs.logged == old(fs.logged) && Ready(fs) && ok
                && Busy(c, k)
      decreases fs.f.inodes[i].size - DIRENT * k
    {
      var de;
      ok, de := ReadEntry(fs, i, k);
      if !ok {
        PastEnd(c, k);
        return;
      }
      BusyOn(c, k, de);
      if Inum(de) == 0 {
        return;
      }
      k := k + 1;
    }
    PastEnd(c, k);
  }

  /** The first k entries are in use. */
  ghost predicate Busy(c: seq<byte>, k: int) {
    0 <= k && DIRENT * k <= |c| && forall j | 0 <= j < k :: Live(c, j)
  }

  lemma BusyOn(c: seq<byte>, k: int, de: seq<byte>)
    requires Busy(c, k) && InDir(c, k) && de == Entry(c, k)
    ensures Live(c, k) <==> Inum(de) != 0
    ensures Live(c, k) ==> Busy(c, k + 1)
  {
  }

  lemma PastEnd(c: seq<byte>, k: int)
    requires !InDir(c, k) || |c| <= DIRENT * k
    ensures !Live(c, k)
  {
  }
}
