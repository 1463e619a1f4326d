/** vm.c: whole address spaces. They grow, are copied, and are freed. */
module VmSpaces {
  import opened Basics
  import opened PageTables
  import opened FrameList
  import opened VmCode

  /** A frame outside the address space is filled; the space does not notice. */
  method Fill(k: Kernel, f: int, page: seq<Entry>, dir: int, ghost own: Owned)
    requires k.Ready(dir, own) && f !in own && f !in k.free && IsFrame(f) && |page| == NPTE
    modifies k`mem
    ensures k.Ready(dir, own) && Sized(old(k.mem)) && k.mem == old(k.mem)[f := page]
    ensures forall w | IsPage(w) :: Look(k.mem, dir, w) == Look(old(k.mem), dir, w)
  {
    ghost var m := k.mem;
    Shape(m, dir, own);
    k.mem := k.mem[f := page];
    SpaceFrame(m, k.mem, dir, own);
    LinkedFrame(m, k.mem, k.freelist, k.free, k.end);
  }

  /** A frame outside the address space is freed. */
  method GiveBack(k: Kernel, f: int, dir: int, ghost own: Owned)
    requires k.Ready(dir, own) && f !in own && f !in k.free && k.end <= f < NFRAMES
    modifies k
    ensures k.Ready(dir, own) && k.free == [f] + old(k.free)
    ensures Sized(old(k.mem)) && forall g | IsFrame(g) && g != f :: k.mem[g] == old(k.mem)[g]
    ensures forall w | IsPage(w) :: Look(k.mem, dir, w) == Look(old(k.mem), dir, w)
  {
    ghost var m := k.mem;
    Shape(m, dir, own);
    var ok := k.Kfree(f);
    SpaceFrame(m, k.mem, dir, own);
  }

  /** What a new page is to be like. */
  datatype Want = Want(flags: int, page: seq<Entry>)

  /** allocuvm: a zeroed frame for the user to read and write. */
  function Blank(): Want { Want(PTE_P + PTE_W + PTE_U, ZeroPage()) }

  /** A new page: mapped to a frame that was free, with the contents and flags that are wanted. */
  ghost predicate NewPage(mem: Memory, dir: int, w: int, free: seq<int>, want: Want)
    requires Sized(mem) && IsFrame(dir) && IsPage(w)
  {
    var e := Look(mem, dir, w);
    && e.Some? && e.value.flags == want.flags && e.value.frame in free && IsFrame(e.value.frame)
    && mem[e.value.frame] == want.page
  }

  /** The map with the pages from lo to hi new. */
  ghost predicate Grown(mem: Memory, m: Memory, dir: int, lo: int, hi: int, free: seq<int>, want: int -> Want)
    requires Sized(mem) && Sized(m) && IsFrame(dir)
  {
    forall w | IsPage(w) ::
      if lo <= w < hi then NewPage(m, dir, w, free, want(w)) else Look(m, dir, w) == Look(mem, dir, w)
  }

  lemma UserFrame(mem: Memory, dir: int, own: Owned, w: int)
    requires IsSpace(mem, dir, own) && 0 <= w < USERPAGES && Look(mem, dir, w).Some?
    ensures Look(mem, dir, w).value.frame in own && own[Look(mem, dir, w).value.frame] == User(w)
  {
    assert UserOwned(mem, dir, own, w);
  }

  /** One more page. */
  lemma GrownStep(mem: Memory, m: Memory, m': Memory, dir: int, own: Owned, lo: int, v: int, free: seq<int>,
                  want: int -> Want, now: seq<int>, f: int)
    requires Sized(mem) && IsSpace(m, dir, own) && Sized(m') && 0 <= lo <= v < USERPAGES
             && Grown(mem, m, dir, lo, v, free, want)
    requires f in free && IsFrame(f) && m[f] == want(v).page && f !in own && f !in now
    requires Apart(m, m', own, now) && forall g | g in own :: g !in now
    requires forall w | IsPage(w) ::
             Look(m', dir, w) == if w == v then Some(Entry(f, want(v).flags)) else Look(m, dir, w)
    ensures Grown(mem, m', dir, lo, v + 1, free, want)
  {
    forall w | IsPage(w) && lo <= w < v + 1 ensures NewPage(m', dir, w, free, want(w)) {
      if w == v {
        assert m'[f] == m[f];
      } else {
        assert NewPage(m, dir, w, free, want(w));
        UserFrame(m, dir, own, w);
      }
    }
  }

  lemma GrownFill(mem: Memory, m: Memory, m': Memory, dir: int, own: Owned, lo: int, v: int, free: seq<int>,
                  want: int -> Want, f: int)
    requires Sized(mem) && IsSpace(m, dir, own) && Sized(m') && 0 <= lo <= v <= USERPAGES
             && Grown(mem, m, dir, lo, v, free, want)
    requires f !in own && (forall g | IsFrame(g) && g != f :: m'[g] == m[g])
             && forall w | IsPage(w) :: Look(m', dir, w) == Look(m, dir, w)
    ensures Grown(mem, m', dir, lo, v, free, want)
  {
    forall w | IsPage(w) && lo <= w < v ensures NewPage(m', dir, w, free, want(w)) {
      assert NewPage(m, dir, w, free, want(w));
      UserFrame(m, dir, own, w);
    }
  }

  /** What was grown up to v and then cleared from lo to hi is the old map, cleared. */
  lemma GrownCleared(mem: Memory, m: Memory, m': Memory, dir: int, lo: int, v: int, hi: int, free: seq<int>,
                     want: int -> Want)
    requires Sized(mem) && Sized(m) && Sized(m') && IsFrame(dir) && lo <= v <= hi
    requires Grown(mem, m, dir, lo, v, free, want) && Cleared(m, m', dir, lo, hi)
    ensures Cleared(mem, m', dir, lo, hi)
  {
  }

  // ---------------------------------------------------------------- the frames it takes

  /** The frames that new pages from lo to hi take: one for each page, one for each table that is missing. */
  ghost function Need(mem: Memory, dir: int, lo: int, hi: int): int
    requires Sized(mem) && IsFrame(dir)
  {
    hi - lo + |Dirs(lo, hi) - Tables(mem, dir)|
  }

  lemma Spent(mem: Memory, m: Memory, dir: int, free: seq<int>, free': seq<int>, lo: int, v: int)
    requires Sized(mem) && Sized(m) && IsFrame(dir) && Paid(mem, m, dir, free, free', v - lo, Dirs(lo, v))
    ensures |free'| == |free| - Need(mem, dir, lo, v)
  {
    var d, t := Dirs(lo, v), Tables(mem, dir);
    assert t + d == t + (d - t) && t !! (d - t);
  }

  /** One page more: a frame for it, and perhaps one for its table. */
  lemma PaidPage(m0: Memory, m: Memory, m': Memory, dir: int, f0: seq<int>, f: seq<int>, f': seq<int>, lo: int, v: int)
    requires Sized(m0) && Sized(m) && Sized(m') && IsFrame(dir) && lo <= v && f != []
    requires Paid(m0, m, dir, f0, f, v - lo, Dirs(lo, v)) && Paid(m, m', dir, f[1..], f', 0, {Dx(v)})
    ensures Paid(m0, m', dir, f0, f', v + 1 - lo, Dirs(lo, v + 1))
  {
    hide Tables, Dirs, Dx;
    DirsStep(lo, v - lo);
    assert Tables(m0, dir) + Dirs(lo, v) + {Dx(v)} == Tables(m0, dir) + (Dirs(lo, v) + {Dx(v)});
  }

  /** Page v fails for want of a frame, or of one for its table: there were too few for all pages. */
  lemma TooFew(m0: Memory, m: Memory, dir: int, f0: seq<int>, f: seq<int>, lo: int, v: int, hi: int)
    requires Sized(m0) && Sized(m) && IsFrame(dir) && lo <= v < hi && Paid(m0, m, dir, f0, f, v - lo, Dirs(lo, v))
    requires f == [] || (|f| == 1 && Dx(v) !in Tables(m, dir))
    ensures |f0| < Need(m0, dir, lo, hi)
  {
    Spent(m0, m, dir, f0, f, lo, v);
    var t := Tables(m0, dir);
    var some, all := Dirs(lo, v) - t, Dirs(lo, hi) - t;
    if v > lo {
      assert Dx(lo) <= Dx(v - 1) <= Dx(v) <= Dx(hi - 1);
    }
    assert Dx(lo) <= Dx(v) <= Dx(hi - 1);
    assert some <= all;
    SubsetSize(some, all);
    if Dx(v) !in Tables(m, dir) {
      assert Dx(v) in all && some + {Dx(v)} <= all;
      SubsetSize(some + {Dx(v)}, all);
    }
  }

  /** `allocuvm`: the pages from oldsz to newsz are new; or, for want of memory, all pages of that range
      are unmapped and no frame is lost; or the panic, over a page that was mapped before. Memory is short
      exactly if fewer frames are free than the pages and the tables they lack need. */
  method Allocuvm(k: Kernel, dir: int, oldsz: int, newsz: int, ghost own: Owned, ghost x: set<int>)
    returns (r: Ret, sz: int, ghost own': Owned)
    requires k.Ready(dir, own) && Bounded(k.free, own, x) && 0 <= oldsz && RangeIn(own, Up(oldsz), Up(newsz), x)
    modifies k
    ensures k.Ready(dir, own') && IsFrame(dir) && Sized(old(k.mem))
    ensures newsz >= KERNBASE ==> r == NoMemory && k.mem == old(k.mem) && own' == own && k.free == old(k.free)
    ensures newsz < KERNBASE && newsz < oldsz ==>
            r == Done && sz == oldsz && k.mem == old(k.mem) && own' == own && k.free == old(k.free)
    ensures r == Done && oldsz <= newsz ==>
            sz == newsz && Grown(old(k.mem), k.mem, dir, Up(oldsz), Up(newsz), old(k.free), _ => Blank())
    ensures r == NoMemory ==> sz == 0 && (newsz < KERNBASE ==> Cleared(old(k.mem), k.mem, dir, Up(oldsz), Up(newsz)))
    ensures r == Panic ==> exists w :: Up(oldsz) <= w < Up(newsz) && IsPage(w) && old(Maps(k.mem, dir, w))
    ensures r != Panic ==> Untouched(old(k.mem), k.mem, own, own', x) && Bounded(k.free, own', x)
    ensures r != Panic ==> Total(k.free, own') == Total(old(k.free), own)
    ensures r == NoMemory && newsz < KERNBASE ==> |old(k.free)| < Need(old(k.mem), dir, Up(oldsz), Up(newsz))
    ensures r == Done && oldsz <= newsz ==>
            |k.free| == |old(k.free)| - Need(old(k.mem), dir, Up(oldsz), Up(newsz))
  {
    hide IsSpace, Linked, Look, Maps, Up, Grown, Cleared, Took, Apart, Total, Paid, Need, Tables, Dirs, Dx, Structural,
         ZeroPage, Blank;
    own' := own;
    Shape(k.mem, dir, own);
    if newsz >= KERNBASE {
      return NoMemory, 0, own';
    }
    if newsz < oldsz {
      return Done, oldsz, own';
    }
    RoundUp(oldsz, 0);
    RoundUp(newsz, 0);
    UpMonotone(oldsz, newsz);
    ghost var lo, hi := Up(oldsz), Up(newsz);
    var v := Up(oldsz);
    ghost var want := _ => Blank();
    GrownNone(k.mem, dir, lo, k.free, want);
    PaidNone(k.mem, dir, k.free, lo);
    RoundUp(newsz, v);
    while v * PGSIZE < newsz
      invariant lo <= v <= hi && (v * PGSIZE < newsz <==> v < hi)
      invariant k.Ready(dir, own') && Sized(k.mem) && Bounded(k.free, own', x) && RangeIn(own', lo, hi, x)
      invariant Untouched(old(k.mem), k.mem, own, own', x) && Grown(old(k.mem), k.mem, dir, lo, v, old(k.free), want)
      invariant Total(k.free, own') == Total(old(k.free), own)
      invariant forall f | f in k.free :: f in old(k.free)
      invariant Paid(old(k.mem), k.mem, dir, old(k.free), k.free, v - lo, Dirs(lo, v))
      decreases hi - v
    {
      ghost var l := k.free;
      var page := k.Kalloc();
      ghost var m := k.mem;
      if page == NULL {
        TooFew(old(k.mem), m, dir, old(k.free), l, lo, v, hi);
        sz, own' := k.Deallocuvm(dir, newsz, oldsz, own', x);
        Shape(k.mem, dir, own');
        FailedGrowth(old(k.mem), m, k.mem, dir, lo, v, hi, oldsz, newsz, old(k.free), want);
        return NoMemory, 0, own';
      }
      TotalPop(l, own');
      FlagsOfUser();
      r, own' := GrowOne(k, dir, page, v, ZeroPage(), PTE_W + PTE_U, own', x, old(k.mem), lo, hi, old(k.free), want);
      Shape(k.mem, dir, own');
      if r == Panic {
        MappedBefore(old(k.mem), m, dir, lo, v, hi, old(k.free), want);
        return Panic, 0, own';
      }
      if r == NoMemory {
        TooFew(old(k.mem), m, dir, old(k.free), l, lo, v, hi);
        m := k.mem;
        sz, own' := k.Deallocuvm(dir, newsz, oldsz, own', x);
        Shape(k.mem, dir, own');
        FailedGrowth(old(k.mem), m, k.mem, dir, lo, v, hi, oldsz, newsz, old(k.free), want);
        m := k.mem;
        TotalPush(k.free, own', page);
        GiveBack(k, page, dir, own');
        Shape(k.mem, dir, own');
        ClearedSame(old(k.mem), m, k.mem, dir, lo, hi);
        return NoMemory, 0, own';
      }
      PaidPage(old(k.mem), m, k.mem, dir, old(k.free), l, k.free, lo, v);
      v := v + 1;
      RoundUp(newsz, v);
    }
    Spent(old(k.mem), k.mem, dir, old(k.free), k.free, lo, hi);
    return Done, newsz, own';
  }

  lemma GrownNone(mem: Memory, dir: int, lo: int, free: seq<int>, want: int -> Want)
    requires Sized(mem) && IsFrame(dir)
    ensures Grown(mem, mem, dir, lo, lo, free, want)
  {
  }

  lemma ClearedSame(mem: Memory, m: Memory, m': Memory, dir: int, lo: int, hi: int)
    requires Sized(mem) && Sized(m) && Sized(m') && IsFrame(dir) && Cleared(mem, m, dir, lo, hi)
    requires forall w | IsPage(w) :: Look(m', dir, w) == Look(m, dir, w)
    ensures Cleared(mem, m', dir, lo, hi)
  {
  }

  lemma MappedBefore(mem: Memory, m: Memory, dir: int, lo: int, v: int, hi: int, free: seq<int>, want: int -> Want)
    requires Sized(mem) && Sized(m) && IsFrame(dir) && IsPage(v) && lo <= v < hi
             && Grown(mem, m, dir, lo, v, free, want) && Maps(m, dir, v)
    ensures Maps(mem, dir, v)
  {
    PteOfLook(mem, dir, v);
    PteOfLook(m, dir, v);
  }

  /** The failed growth is undone: also when there was nothing left to clear. */
  lemma FailedGrowth(mem: Memory, m: Memory, m': Memory, dir: int, lo: int, v: int, hi: int, oldsz: int, newsz: int,
                     free: seq<int>, want: int -> Want)
    requires Sized(mem) && Sized(m) && Sized(m') && IsFrame(dir) && lo <= v < hi && lo == Up(oldsz) && hi == Up(newsz)
             && oldsz <= newsz
    requires Grown(mem, m, dir, lo, v, free, want)
    requires oldsz >= newsz ==> m' == m
    requires oldsz < newsz ==> Cleared(m, m', dir, Up(oldsz), Up(newsz))
    ensures Cleared(mem, m', dir, lo, hi)
  {
    GrownCleared(mem, m, m', dir, lo, v, hi, free, want);
  }

  /** One turn of the loop of `allocuvm` or `copyuvm`, with its frame: memset or memmove, then mappages. */
  method GrowOne(k: Kernel, dir: int, page: int, v: int, contents: seq<Entry>, perm: int, ghost own: Owned,
                 ghost x: set<int>,
                 ghost m0: Memory, ghost lo: int, ghost hi: int, ghost free0: seq<int>, ghost want: int -> Want)
    returns (r: Ret, ghost own': Owned)
    requires k.Ready(dir, own) && Bounded(k.free, own, x) && Sized(m0) && 0 <= lo <= v < hi <= USERPAGES
             && RangeIn(own, lo, hi, x)
    requires page in x && page in free0 && page !in own && page !in k.free && k.end <= page < NFRAMES && IsFrame(page)
    requires |contents| == NPTE && want(v) == Want(WithP(perm), contents)
    requires IsFrame(dir) && Sized(k.mem) && Grown(m0, k.mem, dir, lo, v, free0, want)
    modifies k
    ensures k.Ready(dir, own') && IsFrame(dir) && Bounded(k.free, own', x) && RangeIn(own', lo, hi, x)
            && Untouched(old(k.mem), k.mem, own, own', x)
    ensures r == Done ==>
            Grown(m0, k.mem, dir, lo, v + 1, free0, want) && Total(k.free, own') == Total(old(k.free), own) + {page}
    ensures r == NoMemory ==>
            Grown(m0, k.mem, dir, lo, v, free0, want) && Total(k.free, own') == Total(old(k.free), own)
                              && page !in own' && page !in k.free
    ensures r == Panic <==> old(Maps(k.mem, dir, v))
    ensures forall f | f in k.free :: f in old(k.free)
    ensures r == Done ==> Paid(old(k.mem), k.mem, dir, old(k.free), k.free, 0, {Dx(v)})
    ensures r == NoMemory ==> old(k.free) == [] && Dx(v) !in Tables(old(k.mem), dir)
  {
    hide IsSpace, Linked, Look, Grown, Maps, Paid, Tables, Dirs, Dx;
    Shape(k.mem, dir, own);
    ghost var m := k.mem;
    Fill(k, page, contents, dir, own);
    GrownFill(m0, m, k.mem, dir, own, lo, v, free0, want, page);
    MapsLook(m, k.mem, dir, v);
    m := k.mem;
    ghost var f, n := k.free, 0;
    r, own', n := k.Mappages(dir, v, 1, page, perm, own, x);
    assert Taken(v, page, 1) == {page} && Taken(v, page, 0) == {};
    Shape(k.mem, dir, own');
    OneEntry(old(k.mem), m, k.mem, dir, f, k.free, v, n, r);
    if r == Done {
      GrownStep(m0, m, k.mem, dir, own, lo, v, free0, want, f, page);
    } else {
      GrownFail(m0, m, k.mem, dir, own, lo, v, free0, want, f);
    }
  }

  lemma OneEntry(m0: Memory, m: Memory, m': Memory, dir: int, f: seq<int>, f': seq<int>, v: int, n: int, r: Ret)
    requires Sized(m0) && Sized(m) && Sized(m') && IsFrame(dir) && m[dir] == m0[dir] && 0 <= n <= 1
    requires r != Panic ==> Paid(m, m', dir, f, f', 0, Dirs(v, v + n)) && (r == Done <==> n == 1)
    requires r == NoMemory ==> f' == [] && Dx(v + n) !in Tables(m', dir)
    ensures r == Done ==> Paid(m0, m', dir, f, f', 0, {Dx(v)})
    ensures r == NoMemory ==> f == [] && Dx(v) !in Tables(m0, dir)
  {
    assert Tables(m0, dir) == Tables(m, dir);
    assert Dirs(v, v) == {} && Dirs(v, v + 1) == {Dx(v)};
  }

  lemma FlagsOfUser()
    ensures Blank() == Want(WithP(PTE_W + PTE_U), ZeroPage())
  {
  }

  lemma GrownFail(mem: Memory, m: Memory, m': Memory, dir: int, own: Owned, lo: int, v: int, free: seq<int>,
                  want: int -> Want, now: seq<int>)
    requires Sized(mem) && IsSpace(m, dir, own) && Sized(m') && 0 <= lo <= v < USERPAGES
             && Grown(mem, m, dir, lo, v, free, want)
    requires Apart(m, m', own, now) && forall g | g in own :: g !in now
    requires forall w | IsPage(w) :: Look(m', dir, w) == Look(m, dir, w)
    ensures Grown(mem, m', dir, lo, v, free, want)
  {
    forall w | IsPage(w) && lo <= w < v ensures NewPage(m', dir, w, free, want(w)) {
      assert NewPage(m, dir, w, free, want(w));
      UserFrame(m, dir, own, w);
    }
  }

  /** After a failure the flat map is as before exactly if no page of the range was mapped. */
  lemma FailureKeepsMapIff(mem: Memory, m: Memory, dir: int, lo: int, hi: int)
    requires Sized(mem) && Sized(m) && IsFrame(dir) && 0 <= lo && hi <= NPAGES && Cleared(mem, m, dir, lo, hi)
    ensures (forall w | IsPage(w) :: Look(m, dir, w) == Look(mem, dir, w)) <==>
            (forall w | lo <= w < hi :: !Maps(mem, dir, w))
  {
    forall w | IsPage(w) ensures Maps(mem, dir, w) <==> Look(mem, dir, w).Some? { PteOfLook(mem, dir, w); }
  }

  // ---------------------------------------------------------------- freevm

  /** With no user page mapped only directory and tables are left. */
  lemma NoUsersLeft(mem: Memory, m: Memory, dir: int, own: Owned)
    requires IsSpace(m, dir, own) && Sized(mem) && Cleared(mem, m, dir, 0, USERPAGES)
    ensures forall f | f in own :: own[f].Directory? || own[f].Table?
  {
    forall f | f in own ensures !own[f].User? {
      assert Used(m, dir, f, own[f]);
      if own[f].User? {
        PteOfLook(m, dir, own[f].v);
      }
    }
  }

  lemma TableAt(mem: Memory, dir: int, own: Owned, d: int)
    requires IsSpace(mem, dir, own) && 0 <= d < NPTE && Present(mem[dir][d])
    ensures mem[dir][d].frame in own && own[mem[dir][d].frame] == Table(d) && IsFrame(mem[dir][d].frame)
  {
    assert TableOwned(mem, dir, own, d);
  }

  lemma TableFrom(mem: Memory, dir: int, own: Owned, f: int)
    requires IsSpace(mem, dir, own) && f in own
    ensures own[f].Table? ==> 0 <= own[f].d < NPTE && Present(mem[dir][own[f].d]) && mem[dir][own[f].d].frame == f
    ensures own[f].Directory? ==> f == dir
  {
    assert Used(mem, dir, f, own[f]);
  }

  /** The loop of `freevm` over the directory: every table is freed. */
  method FreeTables(k: Kernel, dir: int, ghost own: Owned, ghost x: set<int>)
    requires k.Ready(dir, own) && Bounded(k.free, own, x)
    modifies k
    ensures k.Valid() && Sized(k.mem) && Sized(old(k.mem))
    ensures forall f :: f in k.free <==> f in old(k.free) || (f in own && own[f].Table? && own[f].d < NPTE)
    ensures forall f | IsFrame(f) && f !in x :: k.mem[f] == old(k.mem)[f]
  {
    hide IsSpace, Look, Present, Linked, JunkPage, Pointer, First;
    Shape(k.mem, dir, own);
    ghost var m, free0 := k.mem, k.free;
    forall f | f in own ensures TableDone(m, dir, own, f) { TableFrom(m, dir, own, f); }
    var i := 0;
    while i < NPTE
      invariant 0 <= i <= NPTE && k.Valid() && Sized(k.mem) && k.mem[dir] == m[dir]
      invariant forall f :: f in k.free <==> f in free0 || (f in own && own[f].Table? && own[f].d < i)
      invariant forall f | IsFrame(f) && f !in x :: k.mem[f] == m[f]
    {
      if Present(k.mem[dir][i]) {
        TableAt(m, dir, own, i);
        var ok := k.Kfree(k.mem[dir][i].frame);
      }
      i := i + 1;
    }
  }

  /** `freevm`: every frame the address space owns, and no other, is put on the free list, once. */
  method Freevm(k: Kernel, dir: int, ghost own: Owned, ghost x: set<int>)
    requires k.Ready(dir, own) && Bounded(k.free, own, x) && RangeIn(own, 0, USERPAGES, x)
    modifies k
    ensures k.Valid() && Sized(k.mem) && Sized(old(k.mem))
            && (forall f :: f in k.free <==> f in old(k.free) || f in own)
    ensures forall f | IsFrame(f) && f !in x :: k.mem[f] == old(k.mem)[f]
  {
    hide IsSpace, Look, Cleared, RangeIn, Linked, Total, JunkPage, Pointer, First;
    Shape(k.mem, dir, own);
    assert Up(KERNBASE) == USERPAGES && Up(0) == 0;
    var sz;
    ghost var o;
    sz, o := k.Deallocuvm(dir, KERNBASE, 0, own, x);
    Shape(k.mem, dir, o);
    NoUsersLeft(old(k.mem), k.mem, dir, o);
    ghost var free0 := k.free;
    forall f | f in o ensures TableDone(k.mem, dir, o, f) { TableFrom(k.mem, dir, o, f); }
    FreeTables(k, dir, o, x);
    var ok := k.Kfree(dir);
    assert forall f :: f in free0 || f in o <==> f in Total(free0, o);
    assert forall f :: f in Total(free0, o) <==> f in old(k.free) || f in own;
  }

  ghost predicate TableDone(mem: Memory, dir: int, own: Owned, f: int)
    requires Sized(mem) && IsFrame(dir) && f in own
  {
    && (own[f].Table? ==> 0 <= own[f].d < NPTE && Present(mem[dir][own[f].d]) && mem[dir][own[f].d].frame == f)
    && (own[f].Directory? ==> f == dir)
  }
}
