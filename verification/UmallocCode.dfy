/** `free`, `morecore` and `malloc` (umalloc.c) as code over the heap. */
module UmallocCode {
  import Basics
  import opened Umalloc

  /** The words of the blocks in use, other than block bp, are as before. */
  ghost predicate Untouched(m: Memory, m': Memory, g: Ghost, bp: int) {
    forall u | u in g.own && g.own[u] in g.live && g.own[u] != bp ::
      (u in m' <==> u in m) && (u in m ==> m'[u] == m[u])
  }

  /** A header on the free list, or the one being freed, is no word of another block in use. */
  lemma FreeHeaderApart(m: Memory, brk: int, g: Ghost, p: int, u: int)
    requires Heap(m, brk, g, APART) && u in g.own && g.own[u] in g.live
    ensures p in g.list ==> u != p && p >= BASE
    ensures p in g.live && u == p ==> g.own[u] == p
  {
    assert IsBlock(g, p) ==> Has(m, p, p);
  }

  lemma ListAboveNull(m: Memory, list: seq<int>, p: int)
    requires ListInv(m, list, APART) && p in list
    ensures p >= BASE
  {
  }

  lemma LiveSize(m: Memory, g: Ghost, bp: int)
    requires LiveInv(m, g) && bp in g.live
    ensures bp in m && m[bp].size == g.live[bp]
  {
  }

  lemma NextInMemory(m: Memory, list: seq<int>, t: int)
    requires ListInv(m, list, APART) && 0 <= t < |list|
    ensures Next(list, t) in m
  {
  }

  lemma FindPlace(m: Memory, list: seq<int>, bp: int) returns (t: int)
    requires ListInv(m, list, APART) && BASE < bp && bp !in list
    ensures Before(list, t, bp)
  {
    t := |list| - 1;
    while bp < list[t]
      invariant 0 <= t < |list| && (t + 1 < |list| ==> bp < list[t + 1])
    {
      t := t - 1;
    }
  }

  /** The search of `free` may stop at position i exactly if bp belongs there. */
  lemma SearchStops(m: Memory, list: seq<int>, bp: int, i: int)
    requires ListInv(m, list, APART) && BASE < bp && bp !in list && 0 <= i < |list|
    ensures var p := list[i]; var next := m[p].ptr;
            (p < bp < next) || (p >= next && (bp > p || bp < next)) <==> Before(list, i, bp)
  {
    assert m[list[i]].ptr == Next(list, i);
  }

  lemma OnePlace(m: Memory, list: seq<int>, bp: int, i: int, t: int)
    requires ListInv(m, list, APART) && Before(list, i, bp) && Before(list, t, bp)
    ensures i == t
  {
  }

  class Allocator {
    var m: Memory
    var freep: int
    var brk: int
    var calls: nat
    ghost var g: Ghost

    /** What the system answers to the i-th call of sbrk, for n units: failure, or how far above the old
        break the new units begin. */
    const answer: (nat, nat) -> Basics.Option<nat>

    ghost predicate Valid()
      reads this
    {
      Inv(m, freep, brk, g)
    }

    /** A program that has not called malloc yet. */
    constructor (brk: int, answer: (nat, nat) -> Basics.Option<nat>)
      requires BASE < brk
      ensures Valid() && freep == NULL && this.brk == brk && calls == 0 && this.answer == answer
    {
      this.answer := answer;
      m, freep, this.brk, calls, g := map[], NULL, brk, 0, Ghost([], map[], map[]);
    }

    /** `free` of the block whose header is at bp: the search loop ends, the block is merged with
        the neighbours it touches, and no other block in use is written to. */
    method Free(bp: int) returns (ghost c: int)
      requires Valid() && bp in g.live
      modifies this`m, this`freep, this`g
      ensures Valid() && g.live == old(g.live) - {bp} && g.own.Keys == old(g.own.Keys)
      ensures Untouched(old(m), m, old(g), bp)
      ensures freep != NULL && c in g.list && c in m && m[c].size >= old(g.live)[bp] && c != BASE
    {
      assert BASE < bp && bp !in g.list;
      hide LiveInv, OwnInv, Ordered, Untouched;
      ghost var t := FindPlace(m, g.list, bp);
      var p := freep;
      ghost var i :| 0 <= i < |g.list| && g.list[i] == p;
      SearchStops(m, g.list, bp, i);
      while !(p < bp < m[p].ptr)
        invariant m == old(m) && g == old(g) && freep == old(freep) && 0 <= i < |g.list| && p == g.list[i] && p in m
        invariant (p < bp < m[p].ptr) ==> Before(g.list, i, bp)
        invariant Before(g.list, i, bp) || i != t
        decreases if i <= t then t - i else |g.list| - i + t
      {
        SearchStops(m, g.list, bp, i);
        if p >= m[p].ptr && (bp > p || bp < m[p].ptr) {
          break;
        }
        assert m[p].ptr == Next(g.list, i);
        p, i := m[p].ptr, if i + 1 < |g.list| then i + 1 else 0;
        SearchStops(m, g.list, bp, i);
      }
      OnePlace(m, g.list, bp, i, t);
      Finish(p, bp, t);
      c := if p + old(m)[p].size == bp then p else bp;
    }

    /** The relinking at the end of `free`. */
    method Finish(p: int, bp: int, ghost t: int)
      requires Valid() && bp in g.live && Before(g.list, t, bp) && p == g.list[t]
      modifies this`m, this`freep, this`g
      ensures Valid() && g.live == old(g.live) - {bp} && g.own.Keys == old(g.own.Keys)
      ensures Untouched(old(m), m, old(g), bp) && freep == p && p in old(m) && bp in old(m)
      ensures var c := if p + old(m)[p].size == bp then p else bp;
              c in g.list && c in m && m[c].size >= old(g.live)[bp] && c != BASE
    {
      hide ListInv, LiveInv, OwnInv;
      ghost var g' := FreeKeepsHeap(m, brk, g, t, bp);
      FreedBlockIsLarge(m, brk, g, t, bp);
      LinkNextIs(m, brk, g, t, bp);
      NextInMemory(m, g.list, t);
      forall u | u in g.own && g.own[u] in g.live ensures u != p && (u == bp ==> g.own[u] == bp) {
        FreeHeaderApart(m, brk, g, p, u);
        FreeHeaderApart(m, brk, g, bp, u);
      }
      LiveSize(m, g, bp);
      ListAboveNull(m, g.list, p);
      var next := m[p].ptr;
      if bp + m[bp].size == next {
        m := m[bp := Header(m[next].ptr, m[bp].size + m[next].size)];
      } else {
        m := m[bp := Header(next, m[bp].size)];
      }
      if p + m[p].size == bp {
        m := m[p := Header(m[bp].ptr, m[p].size + m[bp].size)];
      } else {
        m := m[p := Header(bp, m[p].size)];
      }
      freep := p;
      g := g';
    }
  
    /** sbrk fails or returns a fresh range above everything obtained before, as the system answers. */
    method Sbrk(n: nat) returns (p: int)
      requires BASE < brk
      modifies this`brk, this`calls
      ensures calls == old(calls) + 1
      ensures p == -1 <==> answer(old(calls), n).None?
      ensures p == -1 ==> brk == old(brk)
      ensures p != -1 ==> p == old(brk) + answer(old(calls), n).value && brk == p + n
    {
      var gap := answer(calls, n);
      calls := calls + 1;
      if gap.None? {
        return -1;
      }
      p := brk + gap.value;
      brk := p + n;
    }

    /** `morecore` from the call of sbrk on: a new block of n units is freed into the list. */
    method Grow(n: nat) returns (p: int, ghost obtained: set<int>, ghost c: int)
      requires Valid() && freep != NULL && 0 < n
      modifies this`m, this`freep, this`g, this`brk, this`calls
      ensures Valid() && freep != NULL && g.live == old(g.live)
      ensures calls == old(calls) + 1 && (p == NULL <==> answer(old(calls), n).None?)
      ensures Gained(old(g.own.Keys), g.own.Keys, obtained)
      ensures p == NULL ==> g == old(g) && m == old(m) && freep == old(freep) && obtained == {}
      ensures p != NULL ==> p == freep && c in g.list && c in m && m[c].size >= n && c != BASE
      ensures p != NULL ==> exists hp :: obtained == Range(hp, n)
      ensures Untouched(old(m), m, old(g), NULL)
    {
      obtained, c := {}, BASE;
      var hp := Sbrk(n);
      if hp == -1 {
        GrowBreak(m, old(brk), brk, g);
        return NULL, obtained, c;
      }
      hide Heap, Untouched;
      NewBlock(m, old(brk), brk, g, hp, n);
      obtained := Range(hp, n);
      m := m[hp := Header(if hp in m then m[hp].ptr else NULL, n)];
      g := WithBlock(g, hp, n);
      ghost var g1, m1 := g, m;
      c := Free(hp);
      MorecoreFrame(old(m), old(g), m1, m, hp, n);
      assert g.live == old(g.live);
      p := freep;
    }

    /** `morecore`: nu units, or 4096 if that is more, are asked of sbrk and join the free list as one block;
        NULL exactly if sbrk fails. */
    method Morecore(nu: nat) returns (p: int, ghost obtained: set<int>, ghost c: int)
      requires Valid() && freep != NULL && 0 < nu
      modifies this`m, this`freep, this`g, this`brk, this`calls
      ensures Valid() && freep != NULL && g.live == old(g.live)
      ensures calls == old(calls) + 1 && (p == NULL <==> answer(old(calls), AtLeast4096(nu)).None?)
      ensures Gained(old(g.own.Keys), g.own.Keys, obtained)
      ensures p == NULL ==> g == old(g) && m == old(m) && freep == old(freep) && obtained == {}
      ensures p != NULL ==> p == freep && c in g.list && c in m && m[c].size >= nu && c != BASE
      ensures p != NULL ==> Obtained(obtained, nu, m[c].size)
      ensures Untouched(old(m), m, old(g), NULL)
    {
      hide Heap, Untouched, Range;
      var n := if nu < 4096 then 4096 else nu;
      p, obtained, c := Grow(n);
      if p != NULL {
        ghost var hp :| obtained == Range(hp, n);
        RangeSize(hp, n);
      }
    }

    /** A block that is large enough is handed out, whole or its tail. */
    method Take(prevp: int, p: int, nunits: nat, ghost k: int) returns (q: int)
      requires Valid() && freep != NULL && 0 < k < |g.list| && prevp == g.list[k - 1] && p == g.list[k]
      requires prevp in m && p in m && 0 < nunits <= m[p].size
      modifies this`m, this`freep, this`g
      ensures Valid() && freep != NULL && q > NULL && q !in old(g.live) && g.live == old(g.live)[q := nunits]
      ensures g.own.Keys == old(g.own.Keys) && Untouched(old(m), m, old(g), NULL)
    {
      hide ListInv, LiveInv, OwnInv;
      ListAboveNull(m, g.list, prevp);
      ListAboveNull(m, g.list, p);
      forall u | u in g.own && g.own[u] in g.live
        ensures u != prevp && u != p && (nunits < m[p].size ==> u != p + m[p].size - nunits)
      {
        FreeHeaderApart(m, brk, g, prevp, u);
        FreeHeaderApart(m, brk, g, p, u);
        FreeUnitsApart(m, brk, g, k, u);
      }
      if m[p].size == nunits {
        ghost var g' := UnlinkKeepsHeap(m, brk, g, k);
        m := m[prevp := Header(m[p].ptr, m[prevp].size)];
        g, q := g', p;
      } else {
        ghost var g' := CarveKeepsHeap(m, brk, g, k, nunits);
        ghost var m0 := m;
        m := m[p := Header(m[p].ptr, m[p].size - nunits)];
        q := p + m[p].size;
        m := m[q := Header(if q in m then m[q].ptr else NULL, nunits)];
        assert m == Carve(m0, p, nunits);
        g := g';
      }
      freep := prevp;
    }

    /** `malloc`: a block of its own, large enough, at address r; or NULL. Memory is obtained from
        sbrk, once, exactly if no free block is large enough; NULL exactly if sbrk then fails. Both loops end. */
    method Malloc(nbytes: nat) returns (r: int, ghost obtained: set<int>)
      requires Valid()
      modifies this
      ensures Valid() && freep != NULL
      ensures Gained(old(g.own.Keys), g.own.Keys, obtained)
      ensures Untouched(old(m), m, old(g), NULL)
      ensures var n := AtLeast4096((nbytes + UNIT - 1) / UNIT + 1);
              var full := NoneFits(old(m), old(g).list, (nbytes + UNIT - 1) / UNIT + 1);
              Asked(full, n, answer(old(calls), n), calls - old(calls), r, obtained)
      ensures r == NULL ==> g.live == old(g.live)
      ensures r != NULL ==>
                && r - 1 !in old(g.live) && r - 1 in g.live && g.live == old(g.live)[r - 1 := g.live[r - 1]]
                && (g.live[r - 1] - 1) * UNIT >= nbytes > (g.live[r - 1] - 2) * UNIT
    {
      hide AtLeast4096, NoneFits, Untouched, Inv, Gained;
      var nunits := (nbytes + UNIT - 1) / UNIT + 1;
      Start();
      ghost var m1, g1 := m, g;
      r, obtained := Search(nunits);
      UntouchedTwice(old(m), m1, m, old(g), g1);
      if r != NULL { r := r + 1; }
    }

    /** The first call of `malloc`: the list is the empty block alone. */
    method Start()
      requires Valid()
      modifies this`m, this`freep, this`g
      ensures Valid() && freep != NULL && g.live == old(g.live) && g.own == old(g.own)
      ensures forall n | 0 < n :: NoneFits(m, g.list, n) <==> NoneFits(old(m), old(g).list, n)
      ensures Untouched(old(m), m, old(g), NULL)
    {
      if freep == NULL {
        m := m[BASE := Header(BASE, 0)];
        freep := BASE;
        g := Ghost([BASE], map[], map[]);
        OnlyBase(m, brk);
      }
    }

    /** The loop of `malloc`. */
    method Search(nunits: nat) returns (q: int, ghost obtained: set<int>)
      requires Valid() && freep != NULL && 0 < nunits
      modifies this`m, this`freep, this`g, this`brk, this`calls
      ensures Valid() && freep != NULL
      ensures Gained(old(g.own.Keys), g.own.Keys, obtained)
      ensures Untouched(old(m), m, old(g), NULL)
      ensures var n := AtLeast4096(nunits);
              Asked(NoneFits(old(m), old(g).list, nunits), n, answer(old(calls), n), calls - old(calls), q, obtained)
      ensures q == NULL ==> g.live == old(g.live)
      ensures q != NULL ==> q > NULL && q !in old(g.live) && g.live == old(g.live)[q := nunits]
    {
      hide Inv, Heap, ListInv, Untouched, Passed, NoneFits, Waiting, AtLeast4096, Obtained, Rank, Prev, After, Gained;
      Parts(m, freep, brk, g);
      GainedNone(g.own.Keys);
      UntouchedSame(m, g);
      var prevp := freep;
      var p := m[prevp].ptr;
      obtained := {};
      ghost var grown := false;
      ghost var fi :| 0 <= fi < |g.list| && g.list[fi] == freep;
      ghost var k := After(g.list, fi);
      StartSearch(m, g.list, fi);
      while true
        invariant Valid() && freep != NULL && g.live == old(g.live)
        invariant Gained(old(g.own.Keys), g.own.Keys, obtained)
        invariant Untouched(old(m), m, old(g), NULL) && (!grown ==> g == old(g) && m == old(m) && obtained == {})
        invariant 0 <= fi < |g.list| && g.list[fi] == freep && 0 <= k < |g.list| && p == g.list[k] && p in m
        invariant prevp == Prev(g.list, k) && prevp in m
        invariant grown ==> Waiting(m, g.list, fi, k, nunits)
        invariant if grown then NoneFits(old(m), old(g).list, nunits) else Passed(m, g.list, fi, k, nunits)
        invariant calls == old(calls) + (if grown then 1 else 0)
        invariant grown ==> answer(old(calls), AtLeast4096(nunits)).Some? && |obtained| == AtLeast4096(nunits)
        decreases !grown, |g.list| - Rank(|g.list|, fi, k)
      {
        Parts(m, freep, brk, g);
        RankBounds(|g.list|, fi, k);
        if m[p].size >= nunits {
          PrevIs(g.list, k);
          BaseIsEmpty(m, g.list);
          OneFits(m, g.list, k, nunits);
          ghost var m1, g1 := m, g;
          q := Take(prevp, p, nunits, k);
          LiveUnits(old(m), old(brk), old(g), m1, brk, g1);
          UntouchedTwice(old(m), m1, m, old(g), g1);
          return;
        }
        if p == freep {
          LastOne(m, g.list, fi, k, nunits);
          ghost var c;
          ghost var m1, g1 := m, g;
          p, obtained, c := Morecore(nunits);
          UntouchedTwice(old(m), m1, m, old(g), g1);
          if p == NULL {
            return NULL, obtained;
          }
          ObtainedSize(obtained, nunits, m[c].size);
          grown := true;
          Parts(m, freep, brk, g);
          fi :| 0 <= fi < |g.list| && g.list[fi] == freep;
          StartSearch(m, g.list, fi);
          ghost var j :| 0 <= j < |g.list| && g.list[j] == c;
          NowWaiting(m, g.list, fi, j, nunits);
          k := fi;
        } else {
          WaitOn(m, g.list, fi, k, nunits);
        }
        NextInList(m, g.list, k);
        prevp, p, k := p, m[p].ptr, After(g.list, k);
      }
    }
  }

  // ---------- the order in which malloc's loop visits the list ----------

  function After(list: seq<int>, k: int): (r: int)
    requires 0 <= k < |list|
    ensures 0 <= r < |list|
  {
    if k + 1 < |list| then k + 1 else 0
  }

  function Prev(list: seq<int>, k: int): int
    requires 0 <= k < |list|
  {
    if k > 0 then list[k - 1] else list[|list| - 1]
  }

  /** How many blocks the loop visits before the one at position k, starting after fi. */
  function Rank(n: int, fi: int, k: int): int { if k > fi then k - fi - 1 else k + n - fi - 1 }

  /** No block on the list has n units. */
  ghost predicate NoneFits(m: Memory, list: seq<int>, n: int) {
    forall j | 1 <= j < |list| && list[j] in m :: m[list[j]].size < n
  }

  /** The blocks visited so far are too small. */
  ghost predicate Passed(m: Memory, list: seq<int>, fi: int, k: int, n: int) {
    forall j | 0 <= j < |list| && list[j] in m && Rank(|list|, fi, j) < Rank(|list|, fi, k) :: m[list[j]].size < n
  }

  /** A block that is large enough has not been visited yet. */
  ghost predicate Waiting(m: Memory, list: seq<int>, fi: int, k: int, nunits: int) {
    exists j | 0 <= j < |list| ::
      list[j] in m && m[list[j]].size >= nunits && Rank(|list|, fi, j) >= Rank(|list|, fi, k)
  }

  lemma RankBounds(n: int, fi: int, j: int)
    requires 0 <= fi < n && 0 <= j < n
    ensures 0 <= Rank(n, fi, j) < n && (Rank(n, fi, j) == n - 1 <==> j == fi)
    ensures Rank(n, fi, if fi + 1 < n then fi + 1 else 0) == 0
    ensures j != fi ==> Rank(n, fi, if j + 1 < n then j + 1 else 0) == Rank(n, fi, j) + 1
  {
  }

  lemma SameRank(n: int, fi: int, j: int, k: int)
    requires 0 <= fi < n && 0 <= j < n && 0 <= k < n && Rank(n, fi, j) == Rank(n, fi, k)
    ensures j == k
  {
  }

  lemma NextInList(m: Memory, list: seq<int>, k: int)
    requires ListInv(m, list, APART) && 0 <= k < |list|
    ensures list[k] in m && m[list[k]].ptr == list[After(list, k)] && list[After(list, k)] in m
    ensures Prev(list, After(list, k)) == list[k]
  {
    assert m[list[k]].ptr == Next(list, k);
  }

  lemma StartSearch(m: Memory, list: seq<int>, fi: int)
    requires ListInv(m, list, APART) && 0 <= fi < |list|
    ensures list[fi] in m && m[list[fi]].ptr == list[After(list, fi)] && list[After(list, fi)] in m
    ensures Prev(list, After(list, fi)) == list[fi] && Rank(|list|, fi, After(list, fi)) == 0
    ensures forall n :: Passed(m, list, fi, After(list, fi), n)
  {
    NextInList(m, list, fi);
    RankBounds(|list|, fi, fi);
    forall j | 0 <= j < |list| ensures Rank(|list|, fi, j) >= 0 { RankBounds(|list|, fi, j); }
  }

  lemma Parts(m: Memory, freep: int, brk: int, g: Ghost)
    requires Inv(m, freep, brk, g) && freep != NULL
    ensures Heap(m, brk, g, APART) && ListInv(m, g.list, APART) && freep in g.list && freep in m
  {
  }

  lemma PrevIs(list: seq<int>, k: int)
    requires 0 < k < |list|
    ensures Prev(list, k) == list[k - 1]
  {
  }

  lemma BaseIsEmpty(m: Memory, list: seq<int>)
    requires ListInv(m, list, APART)
    ensures list[0] in m && m[list[0]].size == 0
  {
  }

  lemma OneFits(m: Memory, list: seq<int>, k: int, n: int)
    requires 1 <= k < |list| && list[k] in m && m[list[k]].size >= n
    ensures !NoneFits(m, list, n)
  {
  }

  /** At freep every block has been visited: had the list been grown, the search would be over. */
  lemma LastOne(m: Memory, list: seq<int>, fi: int, k: int, nunits: int)
    requires ListInv(m, list, APART) && 0 <= fi < |list| && 0 <= k < |list| && list[k] == list[fi]
    requires m[list[k]].size < nunits
    ensures !Waiting(m, list, fi, k, nunits)
    ensures Passed(m, list, fi, k, nunits) ==> NoneFits(m, list, nunits)
  {
    DistinctElements(m, list);
    forall j | 0 <= j < |list| ensures j == k || Rank(|list|, fi, j) < Rank(|list|, fi, k) {
      RankBounds(|list|, fi, j);
      RankBounds(|list|, fi, k);
    }
    forall j | 0 <= j < |list| && Rank(|list|, fi, j) >= Rank(|list|, fi, k) ensures j == k {
      RankBounds(|list|, fi, j);
      RankBounds(|list|, fi, k);
    }
  }

  lemma NowWaiting(m: Memory, list: seq<int>, fi: int, j: int, nunits: int)
    requires 0 <= fi < |list| && 0 <= j < |list| && list[j] in m && m[list[j]].size >= nunits
    ensures Waiting(m, list, fi, After(list, fi), nunits)
  {
    RankBounds(|list|, fi, j);
  }

  /** A block that is too small may be passed. */
  lemma WaitOn(m: Memory, list: seq<int>, fi: int, k: int, nunits: int)
    requires 0 <= fi < |list| && 0 <= k < |list| && k != fi && list[k] in m && m[list[k]].size < nunits
    ensures Waiting(m, list, fi, k, nunits) ==> Waiting(m, list, fi, After(list, k), nunits)
    ensures Rank(|list|, fi, After(list, k)) == Rank(|list|, fi, k) + 1 < |list|
    ensures Passed(m, list, fi, k, nunits) ==> Passed(m, list, fi, After(list, k), nunits)
  {
    RankBounds(|list|, fi, k);
    RankBounds(|list|, fi, After(list, k));
    forall j | 0 <= j < |list| && Rank(|list|, fi, j) == Rank(|list|, fi, k) ensures j == k {
      SameRank(|list|, fi, j, k);
    }
    if Waiting(m, list, fi, k, nunits) {
      var j :| 0 <= j < |list| && list[j] in m && m[list[j]].size >= nunits
        && Rank(|list|, fi, j) >= Rank(|list|, fi, k);
      if Rank(|list|, fi, j) == Rank(|list|, fi, k) { SameRank(|list|, fi, j, k); }
    }
  }

  lemma OnlyBase(m: Memory, brk: int)
    requires BASE < brk && BASE in m && m[BASE] == Header(BASE, 0)
    ensures Heap(m, brk, Ghost([BASE], map[], map[]), APART)
  {
  }

  lemma FreeUnitsApart(m: Memory, brk: int, g: Ghost, k: int, u: int)
    requires Heap(m, brk, g, APART) && 0 < k < |g.list| && u in g.own && g.own[u] in g.live
    ensures !Has(m, g.list[k], u)
  {
    assert BASE < g.list[k] && IsBlock(g, g.list[k]);
  }

  /** As long as the blocks in use stay the same, so do their units. */
  lemma LiveUnits(m: Memory, brk: int, g: Ghost, m1: Memory, brk1: int, g1: Ghost)
    requires Heap(m, brk, g, APART) && Heap(m1, brk1, g1, APART) && g1.live == g.live
    ensures forall u | u in g.own && g.own[u] in g.live :: u in g1.own && g1.own[u] == g.own[u]
  {
    forall u | u in g.own && g.own[u] in g.live ensures u in g1.own && g1.own[u] == g.own[u] {
      assert Has(m, g.own[u], u) && Has(m1, g.own[u], u) && IsBlock(g1, g.own[u]);
    }
  }

  lemma UntouchedSame(m: Memory, g: Ghost)
    ensures Untouched(m, m, g, NULL)
  {
  }

  lemma UntouchedTwice(m: Memory, m1: Memory, m2: Memory, g: Ghost, g1: Ghost)
    requires Untouched(m, m1, g, NULL) && Untouched(m1, m2, g1, NULL)
    requires g1.live == g.live && forall u | u in g.own && g.own[u] in g.live :: u in g1.own && g1.own[u] == g.own[u]
    ensures Untouched(m, m2, g, NULL)
  {
  }

  ghost function WithBlock(g: Ghost, hp: int, n: int): Ghost {
    Ghost(g.list, g.live[hp := n], g.own + map u | u in Range(hp, n) :: hp)
  }

  /** sbrk is asked for 4096 units at least, and they all joined one block. */
  /** The heap has the units it had and those obtained, which are new. */
  predicate Gained(units: set<int>, units': set<int>, obtained: set<int>) {
    units' == units + obtained && obtained !! units
  }

  lemma GainedNone(units: set<int>)
    ensures Gained(units, units, {})
  {
  }

  /** What a call of malloc does: it asks sbrk for n units, once, exactly if no block fits, and it fails exactly
      if it asks and is given nothing. */
  predicate Asked(full: bool, n: nat, given: Basics.Option<nat>, calls: int, r: int, obtained: set<int>) {
    && calls == (if full then 1 else 0)
    && (r == NULL <==> full && given.None?)
    && |obtained| == if full && given.Some? then n else 0
  }

  lemma ObtainedSize(units: set<int>, nu: nat, size: int)
    requires Obtained(units, nu, size)
    ensures |units| == AtLeast4096(nu)
  {
  }

  /** The units that morecore asks for. */
  function AtLeast4096(nu: nat): nat { if nu < 4096 then 4096 else nu }

  predicate Obtained(units: set<int>, nu: int, size: int) {
    0 <= nu && |units| == AtLeast4096(nu) <= size
  }

  predicate InRange(a: int, n: int, u: int) { a <= u < a + n }

  ghost function Range(a: int, n: int): set<int> { set u | a <= u < a + n && InRange(a, n, u) }

  lemma {:induction false} RangeSize(a: int, n: nat)
    ensures |Range(a, n)| == n
  {
    if n > 0 {
      RangeSize(a, n - 1);
      assert forall u | a <= u < a + n :: InRange(a, n, u) && (u < a + n - 1 ==> InRange(a, n - 1, u));
      assert Range(a, n) == Range(a, n - 1) + {a + n - 1};
    } else {
      assert Range(a, n) == {};
    }
  }

  lemma MorecoreFrame(m: Memory, g: Ghost, m1: Memory, m2: Memory, hp: int, n: int)
    requires forall u | u in g.own :: u < hp
    requires forall u | u in g.own && g.own[u] in g.live :: g.own[u] != hp && u != hp
    requires hp in m1 && m1 == m[hp := m1[hp]] && Untouched(m1, m2, WithBlock(g, hp, n), hp)
    ensures Untouched(m, m2, g, NULL) && WithBlock(g, hp, n).own.Keys == g.own.Keys + Range(hp, n)
    ensures g.own.Keys !! Range(hp, n)
  {
  }

  lemma GrowBreak(m: Memory, brk: int, brk': int, g: Ghost)
    requires Heap(m, brk, g, APART) && brk <= brk'
    ensures Heap(m, brk', g, APART)
  {
  }

  lemma BelowBreak(m: Memory, brk: int, g: Ghost)
    requires Heap(m, brk, g, APART) && BASE < brk
    ensures forall a | IsBlock(g, a) :: a in m && a + m[a].size <= brk && BASE < a
    ensures forall u | u in g.own :: u < brk
  {
    forall a | IsBlock(g, a) ensures a in m && a + m[a].size <= brk && BASE < a {
      assert Has(m, a, a + m[a].size - 1);
    }
  }

  /** A fresh range from sbrk, with its header written, is one more block in use. */
  lemma NewBlock(m: Memory, brk: int, brk': int, g: Ghost, hp: int, n: int)
    requires Heap(m, brk, g, APART) && BASE < brk <= hp && 0 < n && brk' == hp + n
    ensures var m' := m[hp := Header(if hp in m then m[hp].ptr else NULL, n)];
            Heap(m', brk', WithBlock(g, hp, n), APART)
    ensures hp !in g.live && forall u | u in g.own :: u < hp
    ensures forall u | u in g.own && g.own[u] in g.live :: g.own[u] != hp && u != hp
  {
    BelowBreak(m, brk, g);
    var m', g' := m[hp := Header(if hp in m then m[hp].ptr else NULL, n)], WithBlock(g, hp, n);
    assert !IsBlock(g, hp) by { assert IsBlock(g, hp) ==> Has(m, hp, hp); }
    NewBlockList(m, m', g.list, hp);
    hide ListInv;
    assert forall a :: IsBlock(g', a) <==> IsBlock(g, a) || a == hp;
    assert forall a, u | a != hp :: Has(m', a, u) == Has(m, a, u);
    assert forall u :: Has(m', hp, u) <==> hp <= u < hp + n;
    hide Has;
  }

  lemma NewBlockList(m: Memory, m': Memory, list: seq<int>, hp: int)
    requires ListInv(m, list, APART) && hp !in list && hp in m' && m' == m[hp := m'[hp]]
    ensures ListInv(m', list, APART)
  {
  }

  /** Free blocks and blocks in use are disjoint, and together they are exactly what sbrk gave. */
  lemma BlocksPartitionUnits(m: Memory, freep: int, brk: int, g: Ghost)
    requires Inv(m, freep, brk, g) && freep != NULL
    ensures forall a, b, u | IsBlock(g, a) && IsBlock(g, b) && Has(m, a, u) && Has(m, b, u) :: a == b
    ensures forall u :: u in g.own <==> exists a :: IsBlock(g, a) && Has(m, a, u)
  {
    forall u | u in g.own ensures exists a :: IsBlock(g, a) && Has(m, a, u) {
      assert IsBlock(g, g.own[u]) && Has(m, g.own[u], u);
    }
  }
}
