/** kalloc.c: the list of free frames, linked through the first word of each. */
module FrameList {
  import opened PageTables

  const NULL := -1

  /** A kernel pointer to a frame, as a word of memory. */
  function Pointer(f: int): Entry { if f == NULL then Entry(0, 0) else Entry(USERPAGES + f, 0) }
  function Pointee(e: Entry): int { if e == Entry(0, 0) then NULL else e.frame - USERPAGES }

  /** What memset(v, 1, PGSIZE) leaves: its words look present. */
  function JunkPage(): (p: seq<Entry>)
    ensures |p| == NPTE
  {
    seq(NPTE, _ => Entry(0x1010, 0x101))
  }

  function After(free: seq<int>, i: int): int { if 0 <= i < |free| - 1 then free[i + 1] else NULL }
  function First(free: seq<int>): int { if free == [] then NULL else free[0] }

  /** From head the pointers run through exactly the frames of free, each once. */
  ghost predicate Linked(mem: Memory, head: int, free: seq<int>, end: int) {
    && Sized(mem) && 0 < end && head == First(free)
    && (forall i | 0 <= i < |free| :: end <= free[i] < NFRAMES)
    && (forall i, j | 0 <= i < j < |free| :: free[i] != free[j])
    && (forall i | 0 <= i < |free| :: mem[free[i]][0] == Pointer(After(free, i)))
  }

  lemma LinkedFrame(mem: Memory, m: Memory, head: int, free: seq<int>, end: int)
    requires Linked(mem, head, free, end) && Sized(m) && forall f | f in free && IsFrame(f) :: m[f] == mem[f]
    ensures Linked(m, head, free, end)
  {
  }

  lemma Pop(mem: Memory, head: int, free: seq<int>, end: int)
    requires Linked(mem, head, free, end) && free != []
    ensures free[0] !in free[1..] && Linked(mem, Pointee(mem[free[0]][0]), free[1..], end)
  {
    var tail := free[1..];
    forall i | 0 <= i < |tail| ensures mem[tail[i]][0] == Pointer(After(tail, i)) {
      assert tail[i] == free[i + 1] && After(tail, i) == After(free, i + 1);
    }
    assert After(free, 0) == First(tail);
  }

  lemma Push(mem: Memory, head: int, free: seq<int>, end: int, f: int)
    requires Linked(mem, head, free, end) && end <= f < NFRAMES && f !in free
    ensures Linked(mem[f := JunkPage()[0 := Pointer(head)]], f, [f] + free, end)
  {
    var m, list := mem[f := JunkPage()[0 := Pointer(head)]], [f] + free;
    forall i | 0 <= i < |list| ensures m[list[i]][0] == Pointer(After(list, i)) {
      if i > 0 {
        assert list[i] == free[i - 1] && After(list, i) == After(free, i - 1);
      } else {
        assert After(list, 0) == First(free);
      }
    }
  }

}

/** kalloc.c and vm.c on physical memory. Methods that work on an address space get and return, as
    ghosts, the frames it owns, and a set of frames outside which they touch nothing. */
module VmCode {
  import opened Basics
  import opened PageTables
  import opened FrameList

  const PGSIZE := 4096
  const KERNBASE := USERPAGES * PGSIZE

  /** PGROUNDUP, in pages. */
  function Up(sz: int): int { (sz + PGSIZE - 1) / PGSIZE }

  datatype Ret = Done | NoMemory | Panic

  /** The frames that are free or owned. */
  function Total(free: seq<int>, own: Owned): (r: set<int>)
    ensures forall f :: f in r <==> f in free || f in own
  {
    (set f | f in free) + own.Keys
  }

  lemma TotalPop(free: seq<int>, own: Owned)
    requires free != []
    ensures Total(free, own) == Total(free[1..], own) + {free[0]}
  {
    assert free == [free[0]] + free[1..];
  }

  lemma TotalPush(free: seq<int>, own: Owned, f: int)
    ensures Total([f] + free, own) == Total(free, own) + {f}
  {
  }

  lemma TotalGive(free: seq<int>, own: Owned, f: int, r: Role)
    ensures Total(free, own[f := r]) == Total(free, own) + {f}
  {
  }

  lemma TotalTake(free: seq<int>, own: Owned, f: int)
    requires f in own
    ensures Total([f] + free, own - {f}) == Total(free, own)
  {
  }

  /** The free frames and the frames of directory and tables are in x. */
  ghost predicate Bounded(free: seq<int>, own: Owned, x: set<int>) {
    (forall f | f in free :: f in x) && (forall f | Structural(own, f) :: f in x)
  }

  /** Every frame keeps its role; new tables, if any, come from the free list. */
  ghost predicate Took(own: Owned, own': Owned, free: seq<int>, free': seq<int>) {
    && (forall f | f in own :: f in own' && own'[f] == own[f])
    && (forall f | f in free' :: f in free)
    && (forall f | Structural(own', f) && f !in own :: f in free)
  }

  /** Only free frames, directory and tables were written. */
  ghost predicate Apart(mem: Memory, m: Memory, own: Owned, free: seq<int>)
    requires Sized(mem) && Sized(m)
  {
    forall f | IsFrame(f) && !Structural(own, f) && f !in free :: m[f] == mem[f]
  }

  /** Outside x nothing changed: neither contents nor ownership. */
  ghost predicate Untouched(mem: Memory, m: Memory, own: Owned, own': Owned, x: set<int>)
    requires Sized(mem) && Sized(m)
  {
    forall f | IsFrame(f) && f !in x :: m[f] == mem[f] && (f in own' <==> f in own) && (f in own ==> own'[f] == own[f])
  }

  lemma TookTrans(m0: Memory, m1: Memory, m2: Memory, o0: Owned, o1: Owned, o2: Owned, f0: seq<int>, f1: seq<int>,
                  f2: seq<int>)
    requires Sized(m0) && Sized(m1) && Sized(m2)
    requires Took(o0, o1, f0, f1) && Took(o1, o2, f1, f2) && Apart(m0, m1, o0, f0) && Apart(m1, m2, o1, f1)
    ensures Took(o0, o2, f0, f2) && Apart(m0, m2, o0, f0)
  {
  }

  /** A frame that a user page may get: not in use, in free memory, and in x. */
  predicate Spare(f: int, own: Owned, free: seq<int>, x: set<int>, end: int) {
    f in x && f !in own && f !in free && end <= f < NFRAMES
  }

  /** The frames of the user pages among k pages from v. */
  function Taken(v: int, pa: int, k: int): (r: set<int>)
    ensures forall f | f in r :: pa <= f < pa + k
  {
    if k <= 0 then {} else Taken(v, pa, k - 1) + if v + k - 1 < USERPAGES then {pa + k - 1} else {}
  }

  lemma {:induction false} NoneTaken(v: int, pa: int, k: int)
    requires v >= USERPAGES
    ensures Taken(v, pa, k) == {}
    decreases k
  {
    if k > 0 {
      NoneTaken(v, pa, k - 1);
    }
  }

  lemma StillSpare(own: Owned, own': Owned, free: seq<int>, free': seq<int>, x: set<int>, end: int, v: int, pa: int,
                   k: int)
    requires Spare(pa + k, own, free, x, end) && Total(free', own') == Total(free, own) + Taken(v, pa, k)
    ensures Spare(pa + k, own', free', x, end)
  {
    assert pa + k !in Total(free', own');
  }

  /** A table is written, and a user's frame gets its role. */
  lemma TookEntry(m: Memory, m': Memory, own: Owned, free: seq<int>, tab: int, f: int, r: Role)
    requires Sized(m) && Sized(m') && IsFrame(tab) && m' == m[tab := m'[tab]] && Structural(own, tab)
    ensures Took(own, own, free, free) && Apart(m, m', own, free)
    ensures f !in own && r.User? ==> Took(own, own[f := r], free, free)
  {
  }

  // ---------------------------------------------------------------- how many frames

  /** The directory entries that have a table. */
  ghost function Tables(mem: Memory, dir: int): (r: set<int>)
    requires Sized(mem) && IsFrame(dir)
    ensures forall d :: d in r <==> 0 <= d < NPTE && Present(mem[dir][d])
  {
    set d | 0 <= d < NPTE && Present(mem[dir][d])
  }

  /** The directory entries of the pages from lo to hi. */
  ghost function Dirs(lo: int, hi: int): (r: set<int>)
    ensures forall d :: d in r <==> lo < hi && Dx(lo) <= d <= Dx(hi - 1)
  {
    if lo >= hi then {} else Between(Dx(lo), Dx(hi - 1) + 1)
  }

  function Between(a: int, b: int): (r: set<int>)
    ensures (forall d :: d in r <==> a <= d < b) && |r| == if a < b then b - a else 0
    decreases b - a
  {
    if a >= b then {} else Between(a, b - 1) + {b - 1}
  }

  /** From one memory to the other, tables were added for exactly the entries in dirs, and the frames for
      them and for as many pages were taken from the free list. */
  ghost predicate Paid(mem: Memory, m: Memory, dir: int, free: seq<int>, free': seq<int>, pages: int, dirs: set<int>)
    requires Sized(mem) && Sized(m) && IsFrame(dir)
  {
    && Tables(m, dir) == Tables(mem, dir) + dirs
    && |free'| + |Tables(m, dir)| + pages == |free| + |Tables(mem, dir)|
  }

  lemma PaidNothing(mem: Memory, m: Memory, dir: int, free: seq<int>)
    requires Sized(mem) && Sized(m) && IsFrame(dir) && m[dir] == mem[dir]
    ensures Paid(mem, m, dir, free, free, 0, {})
  {
    assert Tables(m, dir) == Tables(mem, dir);
  }

  lemma PaidSame(m0: Memory, m1: Memory, m2: Memory, dir: int, f0: seq<int>, f1: seq<int>, dirs: set<int>)
    requires Sized(m0) && Sized(m1) && Sized(m2) && IsFrame(dir)
    requires Paid(m0, m1, dir, f0, f1, 0, dirs) && m2[dir] == m1[dir]
    ensures Paid(m0, m2, dir, f0, f1, 0, dirs)
  {
    assert Tables(m2, dir) == Tables(m1, dir);
  }

  lemma PaidTrans(m0: Memory, m1: Memory, m2: Memory, dir: int, f0: seq<int>, f1: seq<int>, f2: seq<int>,
                  p: int, q: int, a: set<int>, b: set<int>)
    requires Sized(m0) && Sized(m1) && Sized(m2) && IsFrame(dir)
    requires Paid(m0, m1, dir, f0, f1, p, a) && Paid(m1, m2, dir, f1, f2, q, b)
    ensures Paid(m0, m2, dir, f0, f2, p + q, a + b)
  {
    hide Tables;
    assert Tables(m0, dir) + a + b == Tables(m0, dir) + (a + b);
  }

  lemma PaidNone(mem: Memory, dir: int, free: seq<int>, v: int)
    requires Sized(mem) && IsFrame(dir)
    ensures Paid(mem, mem, dir, free, free, 0, Dirs(v, v))
  {
    assert Dirs(v, v) == {};
    PaidNothing(mem, mem, dir, free);
  }

  lemma DirsStep(v: int, k: int)
    requires 0 <= k
    ensures Dirs(v, v + k) + {Dx(v + k)} == Dirs(v, v + k + 1)
  {
    if k > 0 {
      assert Dx(v) <= Dx(v + k - 1) <= Dx(v + k) <= Dx(v + k - 1) + 1;
    }
  }

  /** A table is entered in the directory. */
  lemma PaidTable(mem: Memory, m: Memory, dir: int, free: seq<int>, free': seq<int>, d: int, e: Entry)
    requires Sized(mem) && Sized(m) && IsFrame(dir) && 0 <= d < NPTE && !Present(mem[dir][d]) && Present(e)
    requires m[dir] == mem[dir][d := e] && |free'| == |free| - 1
    ensures Paid(mem, m, dir, free, free', 0, {d})
  {
    assert Tables(m, dir) == Tables(mem, dir) + {d};
  }

  lemma PaidPresent(mem: Memory, dir: int, free: seq<int>, d: int)
    requires Sized(mem) && IsFrame(dir) && 0 <= d < NPTE && Present(mem[dir][d])
    ensures Paid(mem, mem, dir, free, free, 0, {d})
  {
    assert Tables(mem, dir) + {d} == Tables(mem, dir);
  }

  lemma PdeInTables(mem: Memory, dir: int, v: int)
    requires Sized(mem) && IsFrame(dir) && IsPage(v)
    ensures Present(Pde(mem, dir, v)) <==> Dx(v) in Tables(mem, dir)
  {
    Indices(v);
  }

  lemma Shape(mem: Memory, dir: int, own: Owned)
    requires IsSpace(mem, dir, own)
    ensures Sized(mem) && IsFrame(dir) && dir in own && own[dir] == Directory
  {
  }

  lemma NoTable(mem: Memory, dir: int, v: int)
    requires Sized(mem) && IsFrame(dir) && IsPage(v) && !Present(Pde(mem, dir, v))
    ensures !Maps(mem, dir, v)
  {
  }

  lemma MapsLook(mem: Memory, m: Memory, dir: int, v: int)
    requires Sized(mem) && Sized(m) && IsFrame(dir) && IsPage(v) && Look(mem, dir, v) == Look(m, dir, v)
    ensures Maps(mem, dir, v) == Maps(m, dir, v)
  {
  }

  lemma EntryPresent(pa: int, perm: int)
    ensures Present(Entry(pa, WithP(perm)))
  {
  }

  /** The entry of a page, given its table. */
  lemma EntryAt(mem: Memory, dir: int, v: int, tab: int)
    requires Sized(mem) && IsFrame(dir) && IsPage(v) && HasTable(mem, dir, v) && Pde(mem, dir, v).frame == tab
    ensures IsFrame(tab) && 0 <= Tx(v) < NPTE && Pte(mem, dir, v) == mem[tab][Tx(v)]
    ensures Maps(mem, dir, v) <==> Present(mem[tab][Tx(v)])
    ensures forall e :: SetPte(mem, dir, v, e) == mem[tab := mem[tab][Tx(v) := e]]
  {
  }

  lemma TableThere(mem: Memory, dir: int, own: Owned, v: int)
    requires IsSpace(mem, dir, own) && IsPage(v) && Present(Pde(mem, dir, v))
    ensures HasTable(mem, dir, v) && Pde(mem, dir, v).frame != NULL
  {
    TableIn(mem, dir, own, v);
  }

  lemma NothingDone(mem: Memory, own: Owned, free: seq<int>, x: set<int>)
    requires Sized(mem)
    ensures Untouched(mem, mem, own, own, x) && Took(own, own, free, free) && Apart(mem, mem, own, free)
  {
  }

  lemma UntouchedTrans(m0: Memory, m1: Memory, m2: Memory, a: Owned, b: Owned, c: Owned, x: set<int>)
    requires Sized(m0) && Sized(m1) && Sized(m2)
    requires Untouched(m0, m1, a, b, x) && Untouched(m1, m2, b, c, x)
    ensures Untouched(m0, m2, a, c, x)
  {
  }

  lemma TableNotDir(mem: Memory, dir: int, own: Owned, v: int)
    requires IsSpace(mem, dir, own) && IsPage(v) && Present(Pde(mem, dir, v))
    ensures Pde(mem, dir, v).frame != dir
  {
    TableIn(mem, dir, own, v);
  }

  lemma TableStructural(mem: Memory, dir: int, own: Owned, v: int)
    requires IsSpace(mem, dir, own) && IsPage(v) && Present(Pde(mem, dir, v))
    ensures Structural(own, Pde(mem, dir, v).frame) && Pde(mem, dir, v).frame in own
  {
    TableIn(mem, dir, own, v);
  }

  /** A user's frame is not one of directory and tables. */
  lemma StructuralUser(own: Owned, f: int, v: int)
    requires f !in own
    ensures forall g :: Structural(own[f := User(v)], g) <==> Structural(own, g)
  {
  }

  /** A user's page is unmapped after its frame was overwritten. */
  lemma Unmapping(was: Memory, m: Memory, dir: int, v: int, f: int, own: Owned)
    requires IsSpace(was, dir, own) && 0 <= v < USERPAGES && Maps(was, dir, v) && Pte(was, dir, v).frame == f
    requires Sized(m) && forall g | IsFrame(g) && g != f :: m[g] == was[g]
    ensures f in own && own[f] == User(v) && IsSpace(m, dir, own) && HasTable(m, dir, v)
    ensures Pde(m, dir, v) == Pde(was, dir, v) && Pde(was, dir, v).frame in own && Pde(was, dir, v).frame != f
    ensures IsSpace(SetPte(m, dir, v, Entry(0, 0)), dir, own - {f})
    ensures forall w | IsPage(w) ::
            Look(SetPte(m, dir, v, Entry(0, 0)), dir, w) == if w == v then None else Look(was, dir, w)
  {
    assert UserOwned(was, dir, own, v);
    SpaceFrame(was, m, dir, own);
    SameLook(was, m, dir, own, v);
    PteOfLook(was, dir, v);
    PteOfLook(m, dir, v);
    UnmapUser(m, dir, own, v);
    TableIn(m, dir, own, v);
    forall w | IsPage(w)
      ensures Look(SetPte(m, dir, v, Entry(0, 0)), dir, w) == if w == v then None else Look(was, dir, w)
    {
      SetPteAt(m, dir, own, v, Entry(0, 0), w);
    }
  }

  /** Without a table none of the pages up to the next directory entry is mapped. */
  lemma SkipTable(mem: Memory, dir: int, v: int, w: int)
    requires Sized(mem) && IsFrame(dir) && IsPage(v) && !Present(Pde(mem, dir, v)) && v <= w < (Dx(v) + 1) * NPTE
             && IsPage(w)
    ensures Look(mem, dir, w) == None
  {
    assert Dx(w) == Dx(v);
  }

  lemma RoundUp(sz: int, v: int)
    requires 0 <= sz
    ensures v * PGSIZE < sz <==> v < Up(sz)
    ensures 0 <= Up(sz) && (sz <= KERNBASE ==> Up(sz) <= USERPAGES)
  {
  }

  lemma UpMonotone(a: int, b: int)
    requires 0 <= a <= b
    ensures Up(a) <= Up(b)
  {
  }

  lemma NextDirectory(v: int)
    requires 0 <= v < USERPAGES
    ensures v < (Dx(v) + 1) * NPTE <= USERPAGES
  {
  }

  /** The user frames of pages lo to hi are in x. */
  ghost predicate RangeIn(own: Owned, lo: int, hi: int, x: set<int>) {
    forall f | f in own && own[f].User? && lo <= own[f].v < hi :: f in x
  }

  /** The map with pages lo to hi unmapped. */
  ghost predicate Cleared(mem: Memory, m: Memory, dir: int, lo: int, hi: int)
    requires Sized(mem) && Sized(m) && IsFrame(dir)
  {
    forall w | IsPage(w) :: Look(m, dir, w) == if lo <= w < hi then None else Look(mem, dir, w)
  }

  lemma ClearedNone(mem: Memory, dir: int, lo: int)
    requires Sized(mem) && IsFrame(dir)
    ensures Cleared(mem, mem, dir, lo, lo)
  {
  }

  lemma ClearedSkip(mem: Memory, m: Memory, dir: int, lo: int, v: int, hi: int)
    requires v <= hi <= (Dx(v) + 1) * NPTE && Sized(mem) && Sized(m) && IsFrame(dir) && IsPage(v) && lo <= v
             && Cleared(mem, m, dir, lo, v) && !Present(Pde(m, dir, v))
    ensures Cleared(mem, m, dir, lo, hi)
  {
    forall w | IsPage(w) ensures Look(m, dir, w) == if lo <= w < hi then None else Look(mem, dir, w) {
      if v <= w < hi {
        SkipTable(m, dir, v, w);
      }
    }
  }

  lemma ClearedStep(mem: Memory, m: Memory, m': Memory, dir: int, lo: int, v: int)
    requires Sized(mem) && Sized(m) && Sized(m') && IsFrame(dir) && IsPage(v) && lo <= v && Cleared(mem, m, dir, lo, v)
    requires forall w | IsPage(w) :: Look(m', dir, w) == if w == v then None else Look(m, dir, w)
    ensures Cleared(mem, m', dir, lo, v + 1)
  {
  }

  lemma MapsTable(mem: Memory, dir: int, v: int)
    requires Sized(mem) && IsFrame(dir) && IsPage(v) && Maps(mem, dir, v)
    ensures HasTable(mem, dir, v) && Present(Pde(mem, dir, v))
  {
  }

  class Kernel {
    var mem: Memory
    var freelist: int
    ghost var free: seq<int>
    const end: int

    ghost predicate Valid()
      reads this
    {
      Linked(mem, freelist, free, end)
    }

    /** dir is the directory of an address space that owns the frames of own, none of them free. */
    ghost predicate Ready(dir: int, own: Owned)
      reads this
    {
      Valid() && IsSpace(mem, dir, own) && forall f | f in own :: f !in free && end <= f
    }

    /** Before kinit: no frame is free yet. */
    constructor (end: int)
      requires 0 < end
      ensures Valid() && free == [] && this.end == end
    {
      this.end := end;
      mem := seq(NFRAMES, _ => ZeroPage());
      freelist, free := NULL, [];
    }

    /** `kalloc`: the first free frame, as it is; none only if none is free. */
    method Kalloc() returns (f: int)
      requires Valid()
      modifies `freelist, `free
      ensures Valid()
      ensures old(free) == [] ==> f == NULL && free == []
      ensures old(free) != [] ==>
              f == old(free)[0] && end <= f < NFRAMES && IsFrame(f) && free == old(free)[1..] && f !in free
    {
      f := freelist;
      if f != NULL {
        Pop(mem, freelist, free, end);
        freelist := Pointee(mem[f][0]);
        free := free[1..];
      }
    }

    /** `kfree` of a frame that is not free; the panic for one outside the range of free memory. */
    method Kfree(f: int) returns (ok: bool)
      requires Valid() && f !in free
      modifies this
      ensures Valid() && (ok <==> end <= f < NFRAMES)
      ensures ok ==> free == [f] + old(free) && mem == old(mem)[f := JunkPage()[0 := Pointer(First(old(free)))]]
      ensures !ok ==> free == old(free) && mem == old(mem)
    {
      if f < end || f >= NFRAMES {
        return false;
      }
      Push(mem, freelist, free, end, f);
      mem := mem[f := JunkPage()[0 := Pointer(freelist)]];
      freelist := f;
      free := [f] + free;
      ok := true;
    }

    /** `freerange`: every whole frame between the two addresses is put on the list; the panic if the
        addresses are in the wrong order or some frame between them is outside free memory. */
    method Freerange(vstart: int, vend: int) returns (ok: bool)
      requires Valid() && 0 <= vstart && 0 <= vend && forall f | f in free :: !(Up(vstart) <= f < vend / PGSIZE)
      modifies this
      ensures Valid()
      ensures ok <==> vstart <= vend && (Up(vstart) >= vend / PGSIZE || (end <= Up(vstart) && vend / PGSIZE <= NFRAMES))
      ensures ok ==> forall f :: f in free <==> f in old(free) || Up(vstart) <= f < vend / PGSIZE
    {
      hide Linked, JunkPage, Pointer, First;
      if vend < vstart {
        return false;
      }
      var p := Up(vstart);
      while (p + 1) * PGSIZE <= vend
        invariant Up(vstart) <= p && (p <= vend / PGSIZE || p == Up(vstart)) && Valid()
        invariant forall f :: f in free <==> f in old(free) || Up(vstart) <= f < p
        invariant p > Up(vstart) ==> end <= Up(vstart) && p <= NFRAMES
        decreases vend - p * PGSIZE
      {
        ok := Kfree(p);
        if !ok {
          return;
        }
        p := p + 1;
      }
      ok := true;
    }

    /** `walkpgdir`: the table with the entry of page v. If there is none and alloc is set, a frame is
        taken for it, if there is one. The flat map stays as it is. */
    method Walk(dir: int, v: int, alloc: bool, ghost own: Owned, ghost x: set<int>)
      returns (tab: int, ghost own': Owned)
      requires Ready(dir, own) && Bounded(free, own, x) && IsPage(v)
      modifies this
      ensures Ready(dir, own') && Bounded(free, own', x) && Untouched(old(mem), mem, own, own', x)
      ensures forall w | IsPage(w) :: Look(mem, dir, w) == old(Look(mem, dir, w))
      ensures Total(free, own') == Total(old(free), own)
      ensures tab == NULL <==> !old(Present(Pde(mem, dir, v))) && (!alloc || old(free) == [])
      ensures tab == NULL ==> mem == old(mem) && own' == own && free == old(free)
      ensures tab != NULL ==> Present(Pde(mem, dir, v)) && Pde(mem, dir, v).frame == tab && HasTable(mem, dir, v)
      ensures !alloc ==> mem == old(mem) && own' == own && free == old(free)
      ensures Took(own, own', old(free), free) && Apart(old(mem), mem, own, old(free))
      ensures tab != NULL ==> Paid(old(mem), mem, dir, old(free), free, 0, {Dx(v)})
    {
      hide IsSpace, Linked, Look, Maps, Paid, Tables, Took, Apart, Total, Untouched, Bounded;
      own' := own;
      Shape(mem, dir, own);
      Indices(v);
      NothingDone(mem, own, free, x);
      var pde := mem[dir][Dx(v)];
      if Present(pde) {
        TableThere(mem, dir, own, v);
        PaidPresent(mem, dir, free, Dx(v));
        return pde.frame, own';
      }
      if !alloc {
        return NULL, own';
      }
      tab, own' := MakeTable(dir, v, own, x);
    }

    /** A zeroed frame, if there is one, becomes the table of page v. */
    method MakeTable(dir: int, v: int, ghost own: Owned, ghost x: set<int>) returns (tab: int, ghost own': Owned)
      requires Ready(dir, own) && Bounded(free, own, x) && IsPage(v) && Sized(mem) && IsFrame(dir)
      requires !Present(Pde(mem, dir, v))
      modifies this
      ensures Ready(dir, own') && Sized(old(mem)) && Sized(mem)
      ensures Bounded(free, own', x) && Untouched(old(mem), mem, own, own', x)
      ensures forall w | IsPage(w) :: Look(mem, dir, w) == old(Look(mem, dir, w))
      ensures Total(free, own') == Total(old(free), own)
      ensures tab == NULL <==> old(free) == []
      ensures tab == NULL ==> mem == old(mem) && own' == own && free == old(free)
      ensures tab != NULL ==> Present(Pde(mem, dir, v)) && Pde(mem, dir, v).frame == tab && HasTable(mem, dir, v)
      ensures Took(own, own', old(free), free) && Apart(old(mem), mem, own, old(free))
      ensures tab != NULL ==> Paid(old(mem), mem, dir, old(free), free, 0, {Dx(v)})
    {
      hide IsSpace, Linked, Look, Maps, Paid, Tables, Total;
      own' := own;
      Shape(mem, dir, own);
      Indices(v);
      tab := Kalloc();
      if tab == NULL {
        NothingDone(mem, own, free, x);
        return;
      }
      NewTable(dir, v, tab, own);
      TotalPop(old(free), own);
      TotalGive(free, own, tab, Table(Dx(v)));
      mem := mem[tab := ZeroPage()];
      mem := mem[dir := mem[dir][Dx(v) := Entry(tab, PTE_P + PTE_W + PTE_U)]];
      own' := own[tab := Table(Dx(v))];
      PaidTable(old(mem), mem, dir, old(free), free, Dx(v), Entry(tab, PTE_P + PTE_W + PTE_U));
    }

    lemma NewTable(dir: int, v: int, f: int, own: Owned)
      requires Ready(dir, own) && IsPage(v) && !Present(Pde(mem, dir, v)) && end <= f < NFRAMES && f !in own
               && f !in free
      ensures var m := AddTable(mem, dir, v, f);
              && IsSpace(m, dir, own[f := Table(Dx(v))]) && Linked(m, freelist, free, end)
              && Pde(m, dir, v) == Entry(f, PTE_P + PTE_W + PTE_U) && HasTable(m, dir, v)
              && forall w | IsPage(w) :: Look(m, dir, w) == Look(mem, dir, w)
    {
      var m := AddTable(mem, dir, v, f);
      AddTableSpace(mem, dir, own, v, f);
      forall w | IsPage(w) ensures Look(m, dir, w) == Look(mem, dir, w) { AddTableAt(mem, dir, own, v, f, w); }
      LinkedFrame(mem, m, freelist, free, end);
    }

    /** One turn of the loop of `mappages`: page v gets frame pa. The user's frames are owned. */
    method MapOne(dir: int, v: int, pa: int, perm: int, ghost own: Owned, ghost x: set<int>)
      returns (r: Ret, ghost own': Owned)
      requires Ready(dir, own) && Bounded(free, own, x) && IsPage(v)
      requires v < USERPAGES ==> Spare(pa, own, free, x, end)
      modifies this
      ensures Ready(dir, own') && Bounded(free, own', x) && Untouched(old(mem), mem, own, own', x)
      ensures r == Done ==> forall w | IsPage(w) ::
                Look(mem, dir, w) == if w == v then Some(Entry(pa, WithP(perm))) else old(Look(mem, dir, w))
      ensures r != Done ==> forall w | IsPage(w) :: Look(mem, dir, w) == old(Look(mem, dir, w))
      ensures r == NoMemory ==> free == [] && own' == own
      ensures r == NoMemory ==> mem == old(mem) && old(free) == [] && Dx(v) !in Tables(mem, dir)
      ensures r == Done ==> Paid(old(mem), mem, dir, old(free), free, 0, {Dx(v)})
      ensures r == Panic <==> old(Maps(mem, dir, v))
      ensures Total(free, own') == Total(old(free), own) + if r == Done && v < USERPAGES then {pa} else {}
      ensures Took(own, own', old(free), free) && Apart(old(mem), mem, own, old(free))
    {
      hide IsSpace, Linked, Look, Maps, Present, Pde, Pte, HasTable, WithP, SetPte, Took, Apart, Paid, Tables, Dx, Tx,
           Total;
      Shape(mem, dir, own);
      PteOfLook(mem, dir, v);
      PdeInTables(mem, dir, v);
      var tab;
      tab, own' := Walk(dir, v, true, own, x);
      ghost var m, o := mem, own';
      Shape(mem, dir, own');
      PteOfLook(mem, dir, v);
      if tab == NULL {
        NoTable(old(mem), dir, v);
        return NoMemory, own';
      }
      EntryAt(mem, dir, v, tab);
      if Present(mem[tab][Tx(v)]) {
        return Panic, own';
      }
      EntryPresent(pa, perm);
      own' := PutEntry(dir, v, tab, Entry(pa, WithP(perm)), own', x);
      PaidSame(old(mem), m, mem, dir, old(free), free, {Dx(v)});
      UntouchedTrans(old(mem), m, mem, own, o, own', x);
      TookTrans(old(mem), m, mem, own, o, own', old(free), free, free);
      r := Done;
    }

    /** The entry of page v is written into its table. */
    method PutEntry(dir: int, v: int, tab: int, e: Entry, ghost own: Owned, ghost x: set<int>)
      returns (ghost own': Owned)
      requires Ready(dir, own) && Bounded(free, own, x) && IsPage(v) && Sized(mem) && IsFrame(dir)
      requires HasTable(mem, dir, v) && Present(Pde(mem, dir, v)) && Pde(mem, dir, v).frame == tab
      requires !Maps(mem, dir, v) && Present(e) && (v < USERPAGES ==> Spare(e.frame, own, free, x, end))
      modifies `mem
      ensures Ready(dir, own') && Bounded(free, own', x) && Sized(mem) && Sized(old(mem)) && IsFrame(dir)
      ensures mem[dir] == old(mem)[dir] && Untouched(old(mem), mem, own, own', x)
      ensures forall w | IsPage(w) :: Look(mem, dir, w) == if w == v then Some(e) else old(Look(mem, dir, w))
      ensures Total(free, own') == Total(free, own) + if v < USERPAGES then {e.frame} else {}
      ensures Took(own, own', free, free) && Apart(old(mem), mem, own, free)
    {
      hide IsSpace, Linked, Look, Maps, Present, Pde, HasTable, SetPte, Structural, Took, Apart, Total;
      own' := own;
      EntryAt(mem, dir, v, tab);
      TableStructural(mem, dir, own, v);
      TableNotDir(mem, dir, own, v);
      NewEntry(dir, v, e, own);
      ghost var m := mem;
      mem := mem[tab := mem[tab][Tx(v) := e]];
      if v < USERPAGES {
        StructuralUser(own, e.frame, v);
        TotalGive(free, own, e.frame, User(v));
        own' := own[e.frame := User(v)];
      }
      TookEntry(m, mem, own, free, tab, e.frame, User(v));
    }

    lemma NewEntry(dir: int, v: int, e: Entry, own: Owned)
      requires Ready(dir, own) && IsPage(v) && Present(Pde(mem, dir, v)) && !Maps(mem, dir, v) && Present(e)
      requires v < USERPAGES ==> e.frame !in own && e.frame !in free && end <= e.frame < NFRAMES
      ensures HasTable(mem, dir, v)
      ensures var m := SetPte(mem, dir, v, e);
              && IsSpace(m, dir, if v < USERPAGES then own[e.frame := User(v)] else own)
              && Linked(m, freelist, free, end)
              && forall w | IsPage(w) :: Look(m, dir, w) == if w == v then Some(e) else Look(mem, dir, w)
    {
      TableIn(mem, dir, own, v);
      var m := SetPte(mem, dir, v, e);
      if v < USERPAGES {
        MapUser(mem, dir, own, v, e);
      } else {
        MapKernel(mem, dir, own, v, e);
      }
      forall w | IsPage(w) ensures Look(m, dir, w) == if w == v then Some(e) else Look(mem, dir, w) {
        SetPteAt(mem, dir, own, v, e, w);
      }
      LinkedFrame(mem, m, freelist, free, end);
    }

    /** `mappages`: n pages from v get the frames from pa on, in order, up to the first one that is mapped
        already (a panic) or for which there is no memory. */
    method Mappages(dir: int, v: int, n: int, pa: int, perm: int, ghost own: Owned, ghost x: set<int>)
      returns (r: Ret, ghost own': Owned, ghost k: int)
      requires Ready(dir, own) && Bounded(free, own, x) && 0 < n && 0 <= v <= v + n <= NPAGES
      requires forall f | pa <= f < pa + n && v + f - pa < USERPAGES :: Spare(f, own, free, x, end)
      modifies this
      ensures Ready(dir, own') && Bounded(free, own', x) && Untouched(old(mem), mem, own, own', x)
      ensures 0 <= k <= n && (r == Done <==> k == n)
      ensures forall w | IsPage(w) ::
                Look(mem, dir, w) == if v <= w < v + k then Some(Entry(pa + (w - v), WithP(perm)))
                  else old(Look(mem, dir, w))
      ensures r == NoMemory ==> free == [] && Dx(v + k) !in Tables(mem, dir)
      ensures Paid(old(mem), mem, dir, old(free), free, 0, Dirs(v, v + k)) || r == Panic
      ensures r == Panic <==> k < n && old(Maps(mem, dir, v + k))
      ensures forall w | v <= w < v + k :: !old(Maps(mem, dir, w))
      ensures Total(free, own') == Total(old(free), own) + Taken(v, pa, k)
      ensures Took(own, own', old(free), free) && Apart(old(mem), mem, own, old(free))
    {
      hide IsSpace, Linked, Look, WithP, Maps, Took, Apart, Total, Paid, Tables, Dirs, Dx, Untouched, Bounded;
      Shape(mem, dir, own);
      own', k := own, 0;
      NothingDone(mem, own, free, x);
      PaidNone(mem, dir, free, v);
      var a, p := v, pa;
      while true
        invariant v <= a < v + n && k == a - v && p == pa + k
        invariant Ready(dir, own') && Sized(mem) && Bounded(free, own', x) && Untouched(old(mem), mem, own, own', x)
        invariant forall w | IsPage(w) ::
                    Look(mem, dir, w) == if v <= w < v + k then Some(Entry(pa + (w - v), WithP(perm)))
                      else old(Look(mem, dir, w))
        invariant Total(free, own') == Total(old(free), own) + Taken(v, pa, k)
        invariant forall w | v <= w < v + k :: !old(Maps(mem, dir, w))
        invariant Took(own, own', old(free), free) && Apart(old(mem), mem, own, old(free))
        invariant Paid(old(mem), mem, dir, old(free), free, 0, Dirs(v, v + k))
        decreases v + n - a
      {
        MapsLook(mem, old(mem), dir, a);
        if a < USERPAGES {
          assert Spare(pa + k, own, old(free), x, end);
          StillSpare(own, own', old(free), free, x, end, v, pa, k);
        }
        ghost var m, o, f := mem, own', free;
        r, own' := MapOne(dir, a, p, perm, own', x);
        Shape(mem, dir, own');
        TookTrans(old(mem), m, mem, own, o, own', old(free), f, free);
        UntouchedTrans(old(mem), m, mem, own, o, own', x);
        if r != Done {
          return;
        }
        PaidTrans(old(mem), m, mem, dir, old(free), f, free, 0, 0, Dirs(v, v + k), {Dx(v + k)});
        DirsStep(v, k);
        k := k + 1;
        if a == v + n - 1 {
          return;
        }
        a, p := a + 1, p + 1;
      }
    }

    /** One turn of the loop of `deallocuvm`, at a mapped page: kfree, then *pte = 0. */
    method FreeUser(dir: int, v: int, tab: int, ghost own: Owned) returns (ghost own': Owned, ghost f: int)
      requires Ready(dir, own) && 0 <= v < USERPAGES && Maps(mem, dir, v) && Pde(mem, dir, v).frame == tab
      modifies this
      ensures f in own && own[f] == User(v) && own' == own - {f} && free == [f] + old(free)
      ensures Ready(dir, own') && tab in own
      ensures forall g | IsFrame(g) && g != f && g != tab :: mem[g] == old(mem)[g]
      ensures forall w | IsPage(w) :: Look(mem, dir, w) == if w == v then None else old(Look(mem, dir, w))
    {
      hide IsSpace, Maps, Look, Pte, Pde, HasTable, SetPte;
      Shape(mem, dir, own);
      MapsTable(mem, dir, v);
      EntryAt(mem, dir, v, tab);
      var pa := mem[tab][Tx(v)].frame;
      Unmapping(mem, mem, dir, v, pa, own);
      f := pa;
      own' := own - {f};
      ghost var was := mem;
      var ok := Kfree(pa);
      assert ok;
      Unmapping(was, mem, dir, v, f, own);
      EntryAt(mem, dir, v, tab);
      ghost var m := mem;
      mem := mem[tab := mem[tab][Tx(v) := Entry(0, 0)]];
      LinkedFrame(m, mem, freelist, free, end);
    }

    /** `deallocuvm`: the pages from newsz to oldsz are unmapped and their frames freed; where a whole
        table is missing its pages are skipped. */
    method Deallocuvm(dir: int, oldsz: int, newsz: int, ghost own: Owned, ghost x: set<int>)
      returns (sz: int, ghost own': Owned)
      requires Ready(dir, own) && Bounded(free, own, x) && 0 <= newsz && oldsz <= KERNBASE
               && RangeIn(own, Up(newsz), Up(oldsz), x)
      modifies this
      ensures Ready(dir, own') && Bounded(free, own', x) && Untouched(old(mem), mem, own, own', x)
      ensures sz == if newsz >= oldsz then oldsz else newsz
      ensures newsz >= oldsz ==> mem == old(mem) && own' == own && free == old(free)
      ensures newsz < oldsz ==> Cleared(old(mem), mem, dir, Up(newsz), Up(oldsz))
      ensures Total(free, own') == Total(old(free), own)
      ensures forall f | f in own' :: f in own && own'[f] == own[f]
    {
      hide IsSpace, Linked, Look, Pde, Pte, HasTable, Maps, Up, Dx, Tx, Cleared, Total;
      own' := own;
      if newsz >= oldsz {
        return oldsz, own';
      }
      Shape(mem, dir, own);
      RoundUp(newsz, 0);
      RoundUp(oldsz, Up(newsz));
      UpMonotone(newsz, oldsz);
      var v := Up(newsz);
      ClearedNone(mem, dir, v);
      RoundUp(oldsz, v);
      while v * PGSIZE < oldsz
        invariant Up(newsz) <= v && (v * PGSIZE < oldsz <==> v < Up(oldsz))
                  && (forall f | f in own' :: f in own && own'[f] == own[f])
        invariant Ready(dir, own') && Sized(mem) && Bounded(free, own', x) && Untouched(old(mem), mem, own, own', x)
        invariant Cleared(old(mem), mem, dir, Up(newsz), if v <= Up(oldsz) then v else Up(oldsz))
        invariant Total(free, own') == Total(old(free), own)
        decreases Up(oldsz) - v
      {
        var tab;
        ghost var same;
        tab, same := Walk(dir, v, false, own', x);
        if tab == NULL {
          NextDirectory(v);
          ghost var w := (Dx(v) + 1) * NPTE;
          ClearedSkip(old(mem), mem, dir, Up(newsz), v, if w <= Up(oldsz) then w else Up(oldsz));
          v := (Dx(v) + 1) * NPTE;
        } else {
          EntryAt(mem, dir, v, tab);
          TableStructural(mem, dir, own', v);
          ghost var m := mem;
          if Present(mem[tab][Tx(v)]) {
            ghost var f, o, l := 0, own', free;
            own', f := FreeUser(dir, v, tab, own');
            TotalTake(l, o, f);
            Shape(mem, dir, own');
          } else {
            PteOfLook(mem, dir, v);
          }
          ClearedStep(old(mem), m, mem, dir, Up(newsz), v);
          v := v + 1;
        }
        RoundUp(oldsz, v);
      }
      sz := newsz;
    }
  }
}
