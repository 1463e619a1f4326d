/** Two-level page tables in physical memory, the flat map they stand for, and who owns which frame.
    Addresses are page and frame numbers; a word of memory is a frame number and twelve flag bits. */
module PageTables {
  import opened Basics

  const NPTE := 1024            // words in a page: entries of a directory or a table
  const NFRAMES := 57344        // PHYSTOP / PGSIZE
  const USERPAGES := 524288     // KERNBASE / PGSIZE
  const NPAGES := 1048576       // pages of the address space

  datatype Entry = Entry(frame: int, flags: int)

  type Memory = seq<seq<Entry>>

  const PTE_P := 1
  const PTE_W := 2
  const PTE_U := 4

  predicate Present(e: Entry) { e.flags % 2 == 1 }

  /** flags | PTE_P */
  function WithP(flags: int): (r: int)
    ensures r % 2 == 1 && r / 2 == flags / 2
  {
    if flags % 2 == 1 then flags else flags + 1
  }

  function ZeroPage(): (p: seq<Entry>)
    ensures |p| == NPTE && forall i | 0 <= i < NPTE :: p[i] == Entry(0, 0)
  {
    seq(NPTE, _ => Entry(0, 0))
  }

  /** PDX and PTX of a page. */
  function Dx(v: int): int { v / NPTE }
  function Tx(v: int): int { v % NPTE }

  predicate IsPage(v: int) { 0 <= v < NPAGES }

  lemma Indices(v: int)
    requires IsPage(v)
    ensures 0 <= Dx(v) < NPTE && 0 <= Tx(v) < NPTE && v == Dx(v) * NPTE + Tx(v)
    ensures v < USERPAGES <==> Dx(v) < USERPAGES / NPTE
  {
  }

  lemma IndicesOf(v: int, w: int)
    requires IsPage(v) && IsPage(w) && Dx(v) == Dx(w) && Tx(v) == Tx(w)
    ensures v == w
  {
  }

  predicate Sized(mem: Memory) {
    |mem| == NFRAMES && forall f | 0 <= f < NFRAMES :: |mem[f]| == NPTE
  }

  predicate IsFrame(f: int) { 0 <= f < NFRAMES }

  /** The directory entry for a page. */
  function Pde(mem: Memory, dir: int, v: int): Entry
    requires Sized(mem) && IsFrame(dir) && IsPage(v)
  {
    Indices(v);
    mem[dir][Dx(v)]
  }

  predicate HasTable(mem: Memory, dir: int, v: int)
    requires Sized(mem) && IsFrame(dir) && IsPage(v)
  {
    Present(Pde(mem, dir, v)) && IsFrame(Pde(mem, dir, v).frame)
  }

  /** The table entry for a page. */
  function Pte(mem: Memory, dir: int, v: int): Entry
    requires Sized(mem) && IsFrame(dir) && IsPage(v) && HasTable(mem, dir, v)
  {
    Indices(v);
    mem[Pde(mem, dir, v).frame][Tx(v)]
  }

  predicate Maps(mem: Memory, dir: int, v: int)
    requires Sized(mem) && IsFrame(dir) && IsPage(v)
  {
    HasTable(mem, dir, v) && Present(Pte(mem, dir, v))
  }

  /** The flat map: what a page is mapped to. */
  function Look(mem: Memory, dir: int, v: int): Option<Entry>
    requires Sized(mem) && IsFrame(dir) && IsPage(v)
  {
    if Maps(mem, dir, v) then Some(Pte(mem, dir, v)) else None
  }

  // ---------------------------------------------------------------- ownership

  /** What an address space uses a frame for: the table of a directory entry, or a user page. */
  datatype Role = Directory | Table(d: int) | User(v: int)

  type Owned = map<int, Role>

  predicate TableOwned(mem: Memory, dir: int, own: Owned, d: int)
    requires Sized(mem) && IsFrame(dir) && 0 <= d < NPTE
  {
    Present(mem[dir][d]) ==>
      mem[dir][d].frame in own && own[mem[dir][d].frame] == Table(d) && mem[dir][d].flags == PTE_P + PTE_W + PTE_U
  }

  predicate UserOwned(mem: Memory, dir: int, own: Owned, v: int)
    requires Sized(mem) && IsFrame(dir) && IsPage(v)
  {
    Maps(mem, dir, v) ==> Pte(mem, dir, v).frame in own && own[Pte(mem, dir, v).frame] == User(v)
  }

  /** The frame is used for what its role says. */
  predicate Used(mem: Memory, dir: int, f: int, r: Role)
    requires Sized(mem) && IsFrame(dir)
  {
    match r
    case Directory => f == dir
    case Table(d) => 0 <= d < NPTE && Present(mem[dir][d]) && mem[dir][d].frame == f
    case User(v) => 0 <= v < USERPAGES && Maps(mem, dir, v) && Pte(mem, dir, v).frame == f
  }

  /** own tells exactly which frames the address space uses, each for one purpose. */
  ghost predicate IsSpace(mem: Memory, dir: int, own: Owned) {
    && Sized(mem) && dir in own && own[dir] == Directory
    && (forall f | f in own :: IsFrame(f))
    && (forall f | f in own :: Used(mem, dir, f, own[f]))
    && (forall d | 0 <= d < NPTE :: TableOwned(mem, dir, own, d))
    && (forall v | 0 <= v < USERPAGES :: UserOwned(mem, dir, own, v))
  }

  /** The frames that hold the directory and the tables. */
  predicate Structural(own: Owned, f: int) { f in own && !own[f].User? }

  lemma TableIn(mem: Memory, dir: int, own: Owned, v: int)
    requires IsSpace(mem, dir, own) && IsPage(v) && Present(Pde(mem, dir, v))
    ensures HasTable(mem, dir, v) && Pde(mem, dir, v).frame in own && own[Pde(mem, dir, v).frame] == Table(Dx(v))
    ensures Pde(mem, dir, v).frame != dir
  {
    Indices(v);
    assert TableOwned(mem, dir, own, Dx(v));
  }

  /** Pages other than the directory and the tables may change. */
  lemma SpaceFrame(mem: Memory, m: Memory, dir: int, own: Owned)
    requires IsSpace(mem, dir, own) && Sized(m) && forall f | IsFrame(f) && Structural(own, f) :: m[f] == mem[f]
    ensures IsSpace(m, dir, own) && forall v | IsPage(v) :: Look(m, dir, v) == Look(mem, dir, v)
  {
    forall v | IsPage(v) ensures HasTable(m, dir, v) == HasTable(mem, dir, v) && Look(m, dir, v) == Look(mem, dir, v)
                                 && (HasTable(mem, dir, v) ==> Pte(m, dir, v) == Pte(mem, dir, v))
    {
      SameLook(mem, m, dir, own, v);
    }
    hide Dx, Tx;
    forall f | f in own ensures Used(m, dir, f, own[f]) { assert Used(mem, dir, f, own[f]); }
    forall d | 0 <= d < NPTE ensures TableOwned(m, dir, own, d) { assert TableOwned(mem, dir, own, d); }
    forall v | 0 <= v < USERPAGES ensures UserOwned(m, dir, own, v) { assert UserOwned(mem, dir, own, v); }
  }

  lemma SameLook(mem: Memory, m: Memory, dir: int, own: Owned, v: int)
    requires IsSpace(mem, dir, own) && Sized(m) && IsPage(v)
    requires forall f | IsFrame(f) && Structural(own, f) :: m[f] == mem[f]
    ensures Pde(m, dir, v) == Pde(mem, dir, v) && Look(m, dir, v) == Look(mem, dir, v)
    ensures HasTable(mem, dir, v) ==> HasTable(m, dir, v) && Pte(m, dir, v) == Pte(mem, dir, v)
  {
    assert Structural(own, dir);
    assert Pde(m, dir, v) == Pde(mem, dir, v);
    if Present(Pde(mem, dir, v)) {
      TableIn(mem, dir, own, v);
      assert Structural(own, Pde(mem, dir, v).frame);
    }
  }

  // ---------------------------------------------------------------- writing entries

  /** *pte = e */
  function SetPte(mem: Memory, dir: int, v: int, e: Entry): (m: Memory)
    requires Sized(mem) && IsFrame(dir) && IsPage(v) && HasTable(mem, dir, v)
    ensures Sized(m)
  {
    Indices(v);
    var tab := Pde(mem, dir, v).frame;
    mem[tab := mem[tab][Tx(v) := e]]
  }

  lemma SetPteAt(mem: Memory, dir: int, own: Owned, v: int, e: Entry, w: int)
    requires IsSpace(mem, dir, own) && IsPage(v) && IsPage(w) && Present(Pde(mem, dir, v))
    ensures HasTable(mem, dir, v)
    ensures var m := SetPte(mem, dir, v, e);
            && Pde(m, dir, w) == Pde(mem, dir, w)
            && (HasTable(mem, dir, w) ==> Pte(m, dir, w) == if w == v then e else Pte(mem, dir, w))
            && Look(m, dir, w) == if w != v then Look(mem, dir, w) else if Present(e) then Some(e) else None
  {
    TableIn(mem, dir, own, v);
    Indices(v);
    Indices(w);
    if Present(Pde(mem, dir, w)) {
      TableIn(mem, dir, own, w);
      if Dx(v) == Dx(w) && Tx(v) == Tx(w) {
        IndicesOf(v, w);
      }
      assert Pde(mem, dir, v).frame == Pde(mem, dir, w).frame ==> Dx(v) == Dx(w);
    }
  }

  lemma SetPteDir(mem: Memory, dir: int, own: Owned, v: int, e: Entry)
    requires IsSpace(mem, dir, own) && IsPage(v) && Present(Pde(mem, dir, v))
    ensures HasTable(mem, dir, v) && SetPte(mem, dir, v, e)[dir] == mem[dir]
  {
    TableIn(mem, dir, own, v);
  }

  /** A user page is mapped to a frame that was not in use. */
  lemma MapUser(mem: Memory, dir: int, own: Owned, v: int, e: Entry)
    requires IsSpace(mem, dir, own) && 0 <= v < USERPAGES && Present(Pde(mem, dir, v)) && !Maps(mem, dir, v)
    requires Present(e) && IsFrame(e.frame) && e.frame !in own
    ensures HasTable(mem, dir, v) && IsSpace(SetPte(mem, dir, v, e), dir, own[e.frame := User(v)])
  {
    TableIn(mem, dir, own, v);
    var m, own' := SetPte(mem, dir, v, e), own[e.frame := User(v)];
    SetPteDir(mem, dir, own, v, e);
    hide SetPte, Pde, Pte, Look;
    forall f | f in own' ensures Used(m, dir, f, own'[f]) {
      if f == e.frame {
        SetPteAt(mem, dir, own, v, e, v);
        PteOfLook(m, dir, v);
      } else {
        assert Used(mem, dir, f, own[f]);
        UsedAfter(mem, dir, own, v, e, f, own[f]);
      }
    }
    forall d | 0 <= d < NPTE ensures TableOwned(m, dir, own', d) { assert TableOwned(mem, dir, own, d); }
    forall w | 0 <= w < USERPAGES ensures UserOwned(m, dir, own', w) {
      assert UserOwned(mem, dir, own, w);
      SetPteAt(mem, dir, own, v, e, w);
      PteOfLook(m, dir, w);
      PteOfLook(mem, dir, w);
    }
  }

  lemma PteOfLook(mem: Memory, dir: int, v: int)
    requires Sized(mem) && IsFrame(dir) && IsPage(v)
    ensures Look(mem, dir, v) == if Maps(mem, dir, v) then Some(Pte(mem, dir, v)) else None
  {
  }

  /** A frame stays in use when another page's entry is written. */
  lemma UsedAfter(mem: Memory, dir: int, own: Owned, v: int, e: Entry, f: int, r: Role)
    requires IsSpace(mem, dir, own) && IsPage(v) && Present(Pde(mem, dir, v)) && Used(mem, dir, f, r) && r != User(v)
    ensures HasTable(mem, dir, v) && Used(SetPte(mem, dir, v, e), dir, f, r)
  {
    TableIn(mem, dir, own, v);
    SetPteDir(mem, dir, own, v, e);
    if r.User? {
      SetPteAt(mem, dir, own, v, e, r.v);
      PteOfLook(mem, dir, r.v);
      PteOfLook(SetPte(mem, dir, v, e), dir, r.v);
    }
  }

  /** A kernel page is mapped: its frame is not owned by the address space. */
  lemma MapKernel(mem: Memory, dir: int, own: Owned, v: int, e: Entry)
    requires IsSpace(mem, dir, own) && USERPAGES <= v < NPAGES && Present(Pde(mem, dir, v))
    ensures HasTable(mem, dir, v) && IsSpace(SetPte(mem, dir, v, e), dir, own)
  {
    TableIn(mem, dir, own, v);
    var m := SetPte(mem, dir, v, e);
    SetPteDir(mem, dir, own, v, e);
    hide SetPte, Pde, Pte, Look;
    forall f | f in own ensures Used(m, dir, f, own[f]) {
      assert Used(mem, dir, f, own[f]);
      UsedAfter(mem, dir, own, v, e, f, own[f]);
    }
    forall d | 0 <= d < NPTE ensures TableOwned(m, dir, own, d) { assert TableOwned(mem, dir, own, d); }
    forall w | 0 <= w < USERPAGES ensures UserOwned(m, dir, own, w) {
      assert UserOwned(mem, dir, own, w);
      SetPteAt(mem, dir, own, v, e, w);
      PteOfLook(m, dir, w);
      PteOfLook(mem, dir, w);
    }
  }

  /** A user page is unmapped: its frame is no longer owned. */
  lemma UnmapUser(mem: Memory, dir: int, own: Owned, v: int)
    requires IsSpace(mem, dir, own) && 0 <= v < USERPAGES && Maps(mem, dir, v)
    ensures Pte(mem, dir, v).frame in own && own[Pte(mem, dir, v).frame] == User(v)
    ensures IsSpace(SetPte(mem, dir, v, Entry(0, 0)), dir, own - {Pte(mem, dir, v).frame})
  {
    assert UserOwned(mem, dir, own, v);
    var e, g := Entry(0, 0), Pte(mem, dir, v).frame;
    var m, own' := SetPte(mem, dir, v, e), own - {g};
    SetPteDir(mem, dir, own, v, e);
    hide SetPte, Pde, Pte, Look;
    forall f | f in own' ensures Used(m, dir, f, own'[f]) {
      assert Used(mem, dir, f, own[f]);
      UsedAfter(mem, dir, own, v, e, f, own[f]);
    }
    forall d | 0 <= d < NPTE ensures TableOwned(m, dir, own', d) { assert TableOwned(mem, dir, own, d); }
    forall w | 0 <= w < USERPAGES ensures UserOwned(m, dir, own', w) {
      assert UserOwned(mem, dir, own, w);
      SetPteAt(mem, dir, own, v, e, w);
      PteOfLook(m, dir, w);
      PteOfLook(mem, dir, w);
    }
  }

  /** A new table, all zero, for a directory entry that had none. */
  function AddTable(mem: Memory, dir: int, v: int, f: int): (m: Memory)
    requires Sized(mem) && IsFrame(dir) && IsPage(v) && IsFrame(f)
    ensures Sized(m)
  {
    Indices(v);
    var z := mem[f := ZeroPage()];
    z[dir := z[dir][Dx(v) := Entry(f, PTE_P + PTE_W + PTE_U)]]
  }

  lemma AddTableAt(mem: Memory, dir: int, own: Owned, v: int, f: int, w: int)
    requires IsSpace(mem, dir, own) && IsPage(v) && IsPage(w) && !Present(Pde(mem, dir, v)) && IsFrame(f) && f !in own
    ensures var m := AddTable(mem, dir, v, f);
            && Look(m, dir, w) == Look(mem, dir, w)
            && (Dx(w) != Dx(v) ==> Pde(m, dir, w) == Pde(mem, dir, w) && HasTable(m, dir, w) == HasTable(mem, dir, w))
            && (HasTable(mem, dir, w) ==> Pde(m, dir, w) == Pde(mem, dir, w) && Pte(m, dir, w) == Pte(mem, dir, w))
  {
    Indices(v);
    Indices(w);
    if Present(Pde(mem, dir, w)) {
      TableIn(mem, dir, own, w);
    }
  }

  lemma AddTableSpace(mem: Memory, dir: int, own: Owned, v: int, f: int)
    requires IsSpace(mem, dir, own) && IsPage(v) && !Present(Pde(mem, dir, v)) && IsFrame(f) && f !in own
    ensures var m := AddTable(mem, dir, v, f);
            IsSpace(m, dir, own[f := Table(Dx(v))]) && Pde(m, dir, v) == Entry(f, PTE_P + PTE_W + PTE_U)
  {
    Indices(v);
    var m, own' := AddTable(mem, dir, v, f), own[f := Table(Dx(v))];
    assert m[dir] == mem[dir][Dx(v) := Entry(f, PTE_P + PTE_W + PTE_U)];
    hide AddTable, Pde, Pte, Look, Dx, Tx;
    forall g | g in own' ensures Used(m, dir, g, own'[g]) {
      if g != f {
        assert Used(mem, dir, g, own[g]);
        if own[g].User? {
          AddTableAt(mem, dir, own, v, f, own[g].v);
          PteOfLook(mem, dir, own[g].v);
          PteOfLook(m, dir, own[g].v);
        }
      }
    }
    forall d | 0 <= d < NPTE ensures TableOwned(m, dir, own', d) { assert TableOwned(mem, dir, own, d); }
    forall w | 0 <= w < USERPAGES ensures UserOwned(m, dir, own', w) {
      assert UserOwned(mem, dir, own, w);
      AddTableAt(mem, dir, own, v, f, w);
      PteOfLook(m, dir, w);
      PteOfLook(mem, dir, w);
    }
  }
}
