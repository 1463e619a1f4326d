/** vm.c: setupkvm and copyuvm. */
module VmCopy {
  import opened Basics
  import opened PageTables
  import opened FrameList
  import opened VmCode
  import opened VmSpaces

  // ---------------------------------------------------------------- the kernel's part

  const EXTPAGES := 0x100     // EXTMEM / PGSIZE
  const DEVPAGE := 0xFE000    // DEVSPACE / PGSIZE

  /** A row of kmap, in pages. */
  datatype Kmap = Kmap(virt: int, phys: int, n: int, perm: int)

  /** data: the frame where the kernel's writable data begins. */
  predicate Layout(data: int) { EXTPAGES < data < NFRAMES }

  function Row(data: int, i: int): Kmap {
    if i == 0 then Kmap(USERPAGES, 0, EXTPAGES, PTE_W)
    else if i == 1 then Kmap(USERPAGES + EXTPAGES, EXTPAGES, data - EXTPAGES, 0)
    else if i == 2 then Kmap(USERPAGES + data, data, NFRAMES - data, PTE_W)
    else Kmap(DEVPAGE, DEVPAGE, NPAGES - DEVPAGE, PTE_W)
  }

  /** The map of the first n rows. */
  function KernelMap(data: int, n: nat, v: int): Option<Entry> {
    if n == 0 then None
    else
      var r := Row(data, n - 1);
      if r.virt <= v < r.virt + r.n then Some(Entry(r.phys + (v - r.virt), WithP(r.perm)))
      else KernelMap(data, n - 1, v)
  }

  /** The whole map: kernel memory, then a gap, then devices; nothing below KERNBASE. */
  lemma KernelMapMeans(data: int, v: int)
    requires Layout(data) && IsPage(v)
    ensures KernelMap(data, 4, v) ==
            if v < USERPAGES then None
            else if v < USERPAGES + NFRAMES then
              Some(Entry(v - USERPAGES, if USERPAGES + EXTPAGES <= v < USERPAGES + data then PTE_P else PTE_P + PTE_W))
            else if v < DEVPAGE then None
            else Some(Entry(v, PTE_P + PTE_W))
  {
    assert KernelMap(data, 1, v)
           == if USERPAGES <= v < USERPAGES + EXTPAGES then Some(Entry(v - USERPAGES, 3)) else None;
    assert KernelMap(data, 2, v) == if USERPAGES + EXTPAGES <= v < USERPAGES + data then Some(Entry(v - USERPAGES, 1))
                                    else KernelMap(data, 1, v);
    assert KernelMap(data, 3, v) == if USERPAGES + data <= v < USERPAGES + NFRAMES then Some(Entry(v - USERPAGES, 3))
                                    else KernelMap(data, 2, v);
  }

  /** The rows do not overlap. */
  lemma RowsApart(data: int, i: int, v: int)
    requires Layout(data) && 0 <= i < 4 && Row(data, i).virt <= v < Row(data, i).virt + Row(data, i).n
    ensures KernelMap(data, i, v) == None
  {
    assert KernelMap(data, 0, v) == None;
    assert i >= 1 ==> KernelMap(data, 1, v) == None;
    assert i >= 2 ==> KernelMap(data, 2, v) == None;
  }

  lemma RowShape(data: int, i: int)
    requires Layout(data) && 0 <= i < 4
    ensures var r := Row(data, i); USERPAGES <= r.virt && 0 < r.n && r.virt + r.n <= NPAGES
  {
  }

  /** The map is that of the first n rows. */
  ghost predicate IsKernel(mem: Memory, dir: int, data: int, n: nat)
    requires Sized(mem) && IsFrame(dir)
  {
    forall w | IsPage(w) :: Look(mem, dir, w) == KernelMap(data, n, w)
  }

  /** A zeroed directory maps nothing. */
  lemma EmptySpace(mem: Memory, dir: int, data: int)
    requires Sized(mem) && IsFrame(dir)
    ensures var m := mem[dir := ZeroPage()]; Sized(m) && IsSpace(m, dir, map[dir := Directory])
    ensures IsKernel(mem[dir := ZeroPage()], dir, data, 0)
  {
    var m := mem[dir := ZeroPage()];
    forall v | IsPage(v) ensures !Maps(m, dir, v) { Indices(v); }
  }

  lemma KernelStep(m: Memory, m': Memory, dir: int, data: int, i: nat)
    requires Sized(m) && Sized(m') && IsFrame(dir) && IsKernel(m, dir, data, i)
    requires forall w | IsPage(w) :: Look(m', dir, w) ==
               var r := Row(data, i);
               if r.virt <= w < r.virt + r.n then Some(Entry(r.phys + (w - r.virt), WithP(r.perm))) else Look(m, dir, w)
    ensures IsKernel(m', dir, data, i + 1)
  {
  }

  /** Nothing owned is for the user when no user page is mapped. */
  lemma KernelOwns(m: Memory, dir: int, own: Owned, data: int, n: nat, x: set<int>, free: seq<int>)
    requires IsSpace(m, dir, own) && IsKernel(m, dir, data, n) && Layout(data) && n <= 4 && Bounded(free, own, x)
    ensures forall f | f in own :: f in x && !own[f].User?
    ensures RangeIn(own, 0, USERPAGES, x)
  {
    forall f | f in own ensures !own[f].User? {
      assert Used(m, dir, f, own[f]);
      if own[f].User? {
        PteOfLook(m, dir, own[f].v);
        KernelNotUser(data, n, own[f].v);
      }
    }
    forall f | f in own ensures f in x { assert Structural(own, f); }
  }

  lemma {:induction false} KernelNotUser(data: int, n: nat, v: int)
    requires Layout(data) && 0 <= v < USERPAGES && n <= 4
    ensures KernelMap(data, n, v) == None
  {
    if n > 0 {
      KernelNotUser(data, n - 1, v);
    }
  }

  // ---------------------------------------------------------------- the frames it takes

  /** The directory entries of kernel memory and of the devices: 64 tables. */
  ghost function KernelDirs(): set<int> { Dirs(USERPAGES, USERPAGES + NFRAMES) + Dirs(DEVPAGE, NPAGES) }

  /** setupkvm takes a directory and the tables of the kernel's part. */
  const KERNELFRAMES := 65

  lemma KernelDirsSize()
    ensures |KernelDirs()| == KERNELFRAMES - 1
    ensures forall d :: d in KernelDirs() <==> 512 <= d < 568 || 1016 <= d < 1024
  {
    hide Between;
    assert KernelDirs() == Between(512, 568) + Between(1016, 1024);
  }

  /** Of n frames one was taken for the directory and one for each table, and all tables are the kernel's. */
  ghost predicate KernelPaid(mem: Memory, dir: int, free: seq<int>, n: int)
    requires Sized(mem) && IsFrame(dir)
  {
    Tables(mem, dir) <= KernelDirs() && |free| + |Tables(mem, dir)| + 1 == n
  }

  lemma RowDirs(data: int, i: int, k: int, n: int)
    requires Layout(data) && 0 <= i < 4 && 0 <= k <= Row(data, i).n && n == Row(data, i).virt
    ensures Dirs(n, n + k) <= KernelDirs() && (k < Row(data, i).n ==> Dx(n + k) in KernelDirs())
  {
    hide Between;
    KernelDirsSize();
  }

  lemma RowPaid(m: Memory, m': Memory, dir: int, f: seq<int>, f': seq<int>, n: int, dirs: set<int>)
    requires Sized(m) && Sized(m') && IsFrame(dir) && dirs <= KernelDirs()
    requires KernelPaid(m, dir, f, n) && Paid(m, m', dir, f, f', 0, dirs)
    ensures KernelPaid(m', dir, f', n)
  {
  }

  lemma RowTooFew(m: Memory, dir: int, f: seq<int>, n: int, d: int)
    requires Sized(m) && IsFrame(dir) && KernelPaid(m, dir, f, n) && f == [] && d in KernelDirs() - Tables(m, dir)
    ensures n < KERNELFRAMES
  {
    hide KernelDirs;
    KernelDirsSize();
    SubsetSize(Tables(m, dir) + {d}, KernelDirs());
  }

  /** The whole kernel map has all its tables. */
  lemma KernelTables(m: Memory, dir: int, data: int, free: seq<int>, n: int)
    requires Sized(m) && IsFrame(dir) && Layout(data) && IsKernel(m, dir, data, 4) && KernelPaid(m, dir, free, n)
    ensures Tables(m, dir) == KernelDirs() && |free| == n - KERNELFRAMES
  {
    hide Between, Dirs, KernelDirs;
    KernelDirsSize();
    forall d | d in KernelDirs() ensures d in Tables(m, dir) {
      var v := d * NPTE;
      KernelMapMeans(data, v);
      assert Dx(v) == d;
      PteOfLook(m, dir, v);
      PdeInTables(m, dir, v);
    }
  }

  lemma NoTables(mem: Memory, dir: int, free: seq<int>, n: int)
    requires Sized(mem) && IsFrame(dir) && mem[dir] == ZeroPage() && |free| + 1 == n
    ensures KernelPaid(mem, dir, free, n)
  {
    assert Tables(mem, dir) == {};
  }

  /** `setupkvm`: an address space with the kernel's map and nothing else, of 65 frames; or, exactly if fewer
      are free, none, with every frame free that was. */
  method Setupkvm(k: Kernel, data: int, ghost x: set<int>) returns (dir: int, ghost own: Owned)
    requires k.Valid() && Layout(data) && forall f | f in k.free :: f in x
    modifies k
    ensures k.Valid() && Sized(k.mem) && Sized(old(k.mem))
    ensures forall f | IsFrame(f) && f !in x :: k.mem[f] == old(k.mem)[f]
    ensures dir == NULL ==> forall f :: f in k.free <==> f in old(k.free)
    ensures dir != NULL ==>
            k.Ready(dir, own) && IsFrame(dir) && Bounded(k.free, own, x) && IsKernel(k.mem, dir, data, 4)
    ensures dir != NULL ==> Total(k.free, own) == Total(old(k.free), map[])
    ensures dir != NULL ==> (forall f | f in own :: f in x) && forall f | f in k.free :: f in old(k.free)
    ensures dir == NULL <==> |old(k.free)| < KERNELFRAMES
    ensures dir != NULL ==> |k.free| == |old(k.free)| - KERNELFRAMES && Tables(k.mem, dir) == KernelDirs()
  {
    hide IsSpace, Look, Linked, IsKernel, Row, KernelMap, Total, Apart, Maps, RangeIn, WithP, KernelPaid, Tables,
         KernelDirs;
    own := map[];
    LinkedShape(k.mem, k.freelist, k.free, k.end);
    ghost var l := k.free;
    dir := k.Kalloc();
    if dir == NULL {
      return;
    }
    TotalPop(l, map[]);
    EmptySpace(k.mem, dir, data);
    ghost var m := k.mem;
    k.mem := k.mem[dir := ZeroPage()];
    LinkedFrame(m, k.mem, k.freelist, k.free, k.end);
    own := map[dir := Directory];
    TotalGive(k.free, map[], dir, Directory);
    NoTables(k.mem, dir, k.free, |l|);
    var i := 0;
    while i < 4
      invariant 0 <= i <= 4 && k.Ready(dir, own) && Sized(k.mem) && IsFrame(dir) && Bounded(k.free, own, x)
      invariant IsKernel(k.mem, dir, data, i) && Total(k.free, own) == Total(old(k.free), map[])
      invariant forall f | IsFrame(f) && f !in x :: k.mem[f] == old(k.mem)[f]
      invariant forall f | f in k.free :: f in old(k.free)
      invariant KernelPaid(k.mem, dir, k.free, |l|)
    {
      var ok;
      ok, own := MapRow(k, dir, data, i, own, x, |l|);
      if !ok {
        Freevm(k, dir, own, x);
        assert forall f :: f in k.free <==> f in Total(old(k.free), map[]);
        return NULL, own;
      }
      i := i + 1;
    }
    KernelOwns(k.mem, dir, own, data, 4, x, k.free);
    KernelTables(k.mem, dir, data, k.free, |l|);
  }

  /** One turn of the loop of `setupkvm`: the pages of a row are never mapped already. */
  method MapRow(k: Kernel, dir: int, data: int, i: nat, ghost own: Owned, ghost x: set<int>, ghost n: int)
    returns (ok: bool, ghost own': Owned)
    requires k.Ready(dir, own) && Sized(k.mem) && IsFrame(dir) && Bounded(k.free, own, x) && Layout(data) && i < 4
    requires IsKernel(k.mem, dir, data, i) && KernelPaid(k.mem, dir, k.free, n)
    modifies k
    ensures k.Ready(dir, own') && Sized(k.mem) && Sized(old(k.mem)) && Bounded(k.free, own', x)
    ensures Total(k.free, own') == Total(old(k.free), own) && forall f | f in k.free :: f in old(k.free)
    ensures forall f | IsFrame(f) && f !in x :: k.mem[f] == old(k.mem)[f]
    ensures ok ==> IsKernel(k.mem, dir, data, i + 1)
    ensures !ok ==> RangeIn(own', 0, USERPAGES, x) && n < KERNELFRAMES
    ensures KernelPaid(k.mem, dir, k.free, n)
  {
    hide IsSpace, Look, Linked, IsKernel, Row, KernelMap, Apart, Maps, RangeIn, WithP, KernelPaid, Tables, KernelDirs,
         Paid, Dirs, Dx, Total, Taken, Bounded, Structural, Spare, Layout;
    RowShape(data, i);
    var row := Row(data, i);
    ghost var done, was := 0, k.mem;
    var r;
    r, own', done := k.Mappages(dir, row.virt, row.n, row.phys, row.perm, own, x);
    NoneTaken(row.virt, row.phys, done);
    Shape(k.mem, dir, own');
    RowFree(was, dir, data, i, done);
    assert r != Panic;
    RowDirs(data, i, done, row.virt);
    RowPaid(was, k.mem, dir, old(k.free), k.free, n, Dirs(row.virt, row.virt + done));
    ok := r == Done;
    if ok {
      KernelStep(was, k.mem, dir, data, i);
    } else {
      FailedSetup(was, k.mem, dir, own', data, i, done, x, k.free);
      RowTooFew(k.mem, dir, k.free, n, Dx(row.virt + done));
    }
  }

  lemma RowFree(m: Memory, dir: int, data: int, i: nat, k: int)
    requires Sized(m) && IsFrame(dir) && IsKernel(m, dir, data, i) && Layout(data) && i < 4 && 0 <= k <= Row(data, i).n
    ensures var v := Row(data, i).virt + k; k < Row(data, i).n ==> IsPage(v) && !Maps(m, dir, v)
  {
    var v := Row(data, i).virt + k;
    if k < Row(data, i).n {
      RowShape(data, i);
      RowsApart(data, i, v);
      PteOfLook(m, dir, v);
    }
  }

  /** A row that failed half way: still no user page is mapped. */
  lemma FailedSetup(m: Memory, m': Memory, dir: int, own: Owned, data: int, i: nat, done: int, x: set<int>,
                    free: seq<int>)
    requires Sized(m) && IsSpace(m', dir, own) && Sized(m') && IsFrame(dir) && IsKernel(m, dir, data, i) && Layout(data)
             && i < 4
    requires Bounded(free, own, x)
    requires forall w | IsPage(w) :: Look(m', dir, w) ==
               var r := Row(data, i);
               if r.virt <= w < r.virt + done then Some(Entry(r.phys + (w - r.virt), WithP(r.perm)))
               else Look(m, dir, w)
    ensures RangeIn(own, 0, USERPAGES, x)
  {
    forall f | f in own ensures !own[f].User? {
      assert Used(m', dir, f, own[f]);
      if own[f].User? {
        PteOfLook(m', dir, own[f].v);
        KernelNotUser(data, i, own[f].v);
        RowShape(data, i);
      }
    }
  }

  lemma LinkedShape(mem: Memory, head: int, free: seq<int>, end: int)
    requires Linked(mem, head, free, end)
    ensures Sized(mem)
  {
  }

  // ---------------------------------------------------------------- copyuvm

  /** What the copy of a page is to be like: the flags and contents of the original. */
  function Original(mem: Memory, dir: int, w: int): Want
    requires Sized(mem) && IsFrame(dir)
  {
    if IsPage(w) && Look(mem, dir, w).Some? && IsFrame(Look(mem, dir, w).value.frame)
    then Want(Look(mem, dir, w).value.flags, mem[Look(mem, dir, w).value.frame]) else Want(0, [])
  }

  /** Below n the child's pages are copies of the parent's in frames that were free; above is the kernel. */
  ghost predicate Copied(m0: Memory, parent: int, m: Memory, child: int, n: int, data: int, free: seq<int>)
    requires Sized(m0) && Sized(m) && IsFrame(parent) && IsFrame(child)
  {
    forall w | IsPage(w) ::
      if w < n then Maps(m0, parent, w) && NewPage(m, child, w, free, Original(m0, parent, w))
      else Look(m, child, w) == KernelMap(data, 4, w)
  }

  lemma GrownIsCopy(m0: Memory, parent: int, ms: Memory, m: Memory, child: int, n: int, data: int, free: seq<int>,
                    want: int -> Want)
    requires Sized(m0) && Sized(ms) && Sized(m) && IsFrame(parent) && IsFrame(child) && 0 <= n
    requires IsKernel(ms, child, data, 4) && Grown(ms, m, child, 0, n, free, want)
    requires forall w | IsPage(w) && w < n :: Maps(m0, parent, w) && want(w) == Original(m0, parent, w)
    ensures Copied(m0, parent, m, child, n, data, free)
  {
  }

  /** The parent does not notice what happens to frames that are not its own. */
  lemma ParentKept(m0: Memory, m: Memory, dir: int, own: Owned, x: set<int>)
    requires IsSpace(m0, dir, own) && Sized(m) && (forall f | f in own :: f !in x)
    requires forall f | IsFrame(f) && f !in x :: m[f] == m0[f]
    ensures IsSpace(m, dir, own) && forall w | IsPage(w) :: Look(m, dir, w) == Look(m0, dir, w)
  {
    SpaceFrame(m0, m, dir, own);
  }

  /** The original of a mapped page, read through its table entry. */
  lemma ReadOriginal(m0: Memory, m: Memory, dir: int, own: Owned, v: int, x: set<int>)
    requires IsSpace(m0, dir, own) && IsSpace(m, dir, own) && Sized(m0) && IsFrame(dir) && 0 <= v < USERPAGES
             && Maps(m, dir, v)
    requires (forall f | f in own :: f !in x) && (forall f | IsFrame(f) && f !in x :: m[f] == m0[f])
    requires forall w | IsPage(w) :: Look(m, dir, w) == Look(m0, dir, w)
    ensures Maps(m0, dir, v) && IsFrame(Pte(m, dir, v).frame) && |m[Pte(m, dir, v).frame]| == NPTE
    ensures Original(m0, dir, v) == Want(WithP(Pte(m, dir, v).flags), m[Pte(m, dir, v).frame])
  {
    PteOfLook(m, dir, v);
    PteOfLook(m0, dir, v);
    assert UserOwned(m, dir, own, v);
  }

  lemma ChildNotMapped(ms: Memory, m: Memory, d: int, v: int, data: int, free: seq<int>, want: int -> Want)
    requires Sized(ms) && Sized(m) && IsFrame(d) && 0 <= v < USERPAGES && Layout(data)
    requires IsKernel(ms, d, data, 4) && Grown(ms, m, d, 0, v, free, want)
    ensures !Maps(m, d, v)
  {
    KernelNotUser(data, 4, v);
    PteOfLook(m, d, v);
  }

  /** The child of copyuvm while it is made. */
  ghost predicate Child(k: Kernel, d: int, own: Owned, x: set<int>, free0: seq<int>)
    reads k
  {
    && k.Ready(d, own) && IsFrame(d) && Sized(k.mem) && Bounded(k.free, own, x)
    && (forall f | f in own :: f in x) && (forall f | f in k.free :: f in free0)
  }

  /** The frames a copy of n pages takes: the kernel's, one for each page, and one table for each 1024 of them. */
  function CopyFrames(n: int): int { KERNELFRAMES + n + (n + NPTE - 1) / NPTE }

  lemma CopyNeed(ms: Memory, d: int, n: int)
    requires Sized(ms) && IsFrame(d) && Tables(ms, d) == KernelDirs() && 0 <= n <= USERPAGES
    ensures KERNELFRAMES + Need(ms, d, 0, n) == CopyFrames(n)
  {
    hide Between, KernelDirs;
    KernelDirsSize();
    assert Dirs(0, n) - Tables(ms, d) == Between(0, (n + NPTE - 1) / NPTE);
  }

  /** `copyuvm`: a copy of the pages below sz, equal in contents and flags, in frames that were free; or,
      for want of memory, every frame free that was; or the panic, over a page that is not mapped. With all pages
      mapped, memory is short exactly if fewer than CopyFrames are free. The parent, and every frame outside x,
      stays as it is. */
  method Copyuvm(k: Kernel, data: int, pgdir: int, sz: int, ghost ownP: Owned, ghost x: set<int>)
    returns (r: Ret, d: int, ghost own: Owned)
    requires k.Ready(pgdir, ownP) && Layout(data) && 0 <= sz <= KERNBASE
    requires (forall f | f in k.free :: f in x) && (forall f | f in ownP :: f !in x)
    modifies k
    ensures k.Valid() && Sized(k.mem) && Sized(old(k.mem)) && IsFrame(pgdir)
    ensures forall f | IsFrame(f) && f !in x :: k.mem[f] == old(k.mem)[f]
    ensures r == Done ==>
            Child(k, d, own, x, old(k.free)) && Copied(old(k.mem), pgdir, k.mem, d, Up(sz), data, old(k.free))
    ensures r == Done ==> Total(k.free, own) == Total(old(k.free), map[])
    ensures r == NoMemory ==> forall f :: f in k.free <==> f in old(k.free)
    ensures r == Panic ==> exists w :: 0 <= w < Up(sz) && IsPage(w) && !old(Maps(k.mem, pgdir, w))
    ensures r == NoMemory ==> |old(k.free)| < CopyFrames(Up(sz))
    ensures r == Done ==> |k.free| == |old(k.free)| - CopyFrames(Up(sz))
  {
    hide IsSpace, Look, Linked, IsKernel, Total, Maps, Up, Grown, Copied, Pde, Pte, RangeIn, Dx, Tx, WithP, Original,
         HasTable, Present, Paid, Need, Tables, Dirs, KernelDirs;
    Shape(k.mem, pgdir, ownP);
    ghost var m0, free0 := k.mem, k.free;
    d, own := Setupkvm(k, data, x);
    RoundUp(sz, 0);
    if d == NULL {
      return NoMemory, NULL, own;
    }
    ghost var ms, freeS := k.mem, k.free;
    CopyNeed(ms, d, Up(sz));
    PaidNone(ms, d, freeS, 0);
    ghost var want := w => Original(m0, pgdir, w);
    GrownNone(ms, d, 0, free0, want);
    var v := 0;
    while v * PGSIZE < sz
      invariant 0 <= v <= Up(sz) && (v * PGSIZE < sz <==> v < Up(sz)) && Child(k, d, own, x, free0)
      invariant Total(k.free, own) == Total(free0, map[]) && Grown(ms, k.mem, d, 0, v, free0, want)
      invariant forall f | IsFrame(f) && f !in x :: k.mem[f] == m0[f]
      invariant forall w | 0 <= w < v :: Maps(m0, pgdir, w)
      invariant Paid(ms, k.mem, d, freeS, k.free, v, Dirs(0, v))
      decreases Up(sz) - v
    {
      ParentKept(m0, k.mem, pgdir, ownP, x);
      var tab;
      ghost var same;
      tab, same := k.Walk(pgdir, v, false, ownP, x + ownP.Keys);
      Shape(k.mem, pgdir, ownP);
      if tab == NULL {
        NoTable(k.mem, pgdir, v);
        MapsLook(m0, k.mem, pgdir, v);
        return Panic, NULL, own;
      }
      EntryAt(k.mem, pgdir, v, tab);
      MapsLook(m0, k.mem, pgdir, v);
      if !Present(k.mem[tab][Tx(v)]) {
        return Panic, NULL, own;
      }
      ReadOriginal(m0, k.mem, pgdir, ownP, v, x);
      ChildNotMapped(ms, k.mem, d, v, data, free0, want);
      r, own := CopyOne(k, d, k.mem[tab][Tx(v)], v, own, x, ms, Up(sz), free0, freeS, want);
      if r != Done {
        return NoMemory, NULL, own;
      }
      v := v + 1;
      RoundUp(sz, v);
    }
    GrownIsCopy(m0, pgdir, ms, k.mem, d, Up(sz), data, free0, want);
    Spent(ms, k.mem, d, freeS, k.free, 0, v);
    r := Done;
  }

  /** One turn of the loop of `copyuvm`, for a page with the entry e; on failure, the branch `bad`. */
  method CopyOne(k: Kernel, d: int, e: Entry, v: int, ghost own: Owned, ghost x: set<int>,
                 ghost ms: Memory, ghost hi: int, ghost free0: seq<int>, ghost freeS: seq<int>,
                 ghost want: int -> Want)
    returns (r: Ret, ghost own': Owned)
    requires Child(k, d, own, x, free0) && (forall f | f in free0 :: f in x) && 0 <= v < hi <= USERPAGES && Sized(ms)
    requires IsFrame(e.frame) && want(v) == Want(WithP(e.flags), k.mem[e.frame]) && |k.mem[e.frame]| == NPTE
    requires Grown(ms, k.mem, d, 0, v, free0, want) && Total(k.free, own) == Total(free0, map[])
    requires !Maps(k.mem, d, v) && Paid(ms, k.mem, d, freeS, k.free, v, Dirs(0, v))
    modifies k
    ensures k.Valid() && Sized(k.mem) && Sized(old(k.mem))
    ensures forall f | IsFrame(f) && f !in x :: k.mem[f] == old(k.mem)[f]
    ensures r == Done ==> Child(k, d, own', x, free0) && Grown(ms, k.mem, d, 0, v + 1, free0, want)
                          && Total(k.free, own') == Total(free0, map[])
    ensures r != Done ==> r == NoMemory && forall f :: f in k.free <==> f in free0
    ensures r == Done ==> Paid(ms, k.mem, d, freeS, k.free, v + 1, Dirs(0, v + 1))
    ensures r == NoMemory ==> |freeS| < Need(ms, d, 0, hi)
  {
    hide IsSpace, Look, Linked, Total, Maps, Grown, WithP, Paid, Need, Tables, Dirs, Dx;
    own' := own;
    ghost var l := k.free;
    var page := k.Kalloc();
    if page == NULL {
      TooFew(ms, k.mem, d, freeS, l, 0, v, hi);
      assert forall f :: f in Total(l, own) <==> f in Total(free0, map[]);
      Freevm(k, d, own, x);
      return NoMemory, own';
    }
    TotalPop(l, own);
    ghost var m1 := k.mem;
    r, own' := GrowOne(k, d, page, v, k.mem[e.frame], e.flags, own, x, ms, 0, hi, free0, want);
    Shape(k.mem, d, own');
    if r != Done {
      TooFew(ms, m1, d, freeS, l, 0, v, hi);
      assert forall f :: f in Total(k.free, own') + {page} <==> f in Total(free0, map[]);
      GiveBack(k, page, d, own');
      Freevm(k, d, own', x);
      return NoMemory, own';
    }
    PaidPage(ms, m1, k.mem, d, freeS, l, k.free, 0, v);
  }
}
