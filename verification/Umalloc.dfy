/** The Kernighan and Ritchie allocator (umalloc.c): a circular, address-ordered free list
    of blocks, merged with their neighbours when freed. Addresses count header-sized units. */
module Umalloc {

  const NULL := 0
  const BASE := 1 // the static header `base`, below the heap
  const UNIT := 8 // sizeof(Header)

  datatype Header = Header(ptr: int, size: int)

  type Memory = map<int, Header>

  /** `list` holds base and then the free blocks; `live` the blocks handed out, with their
      sizes; `own` maps every unit obtained from sbrk to the block it belongs to. */
  datatype Ghost = Ghost(list: seq<int>, live: map<int, int>, own: map<int, int>)

  ghost predicate IsBlock(g: Ghost, a: int) { a in g.live || (a in g.list && a != BASE) }

  function Next(list: seq<int>, i: int): int
    requires 0 <= i < |list|
  {
    if i + 1 < |list| then list[i + 1] else list[0]
  }

  ghost predicate InMemory(m: Memory, list: seq<int>) {
    forall i | 0 <= i < |list| :: list[i] in m
  }

  /** Blocks in address order; only the blocks at t and t + 1 may touch. */
  ghost predicate Ordered(m: Memory, list: seq<int>, t: int)
    requires InMemory(m, list)
  {
    forall i, j | 0 <= i < j < |list| ::
      if i == t && j == t + 1 then list[i] + m[list[i]].size <= list[j] else list[i] + m[list[i]].size < list[j]
  }

  /** One cycle through base in address order, where no two free blocks touch (except at t). */
  ghost predicate ListInv(m: Memory, list: seq<int>, t: int) {
    && |list| > 0 && list[0] == BASE && InMemory(m, list) && m[BASE].size == 0
    && (forall i | 0 < i < |list| :: 0 < m[list[i]].size)
    && Ordered(m, list, t) && Cycle(m, list)
  }

  /** Each header points to the next one, and the last to the first. */
  ghost predicate Cycle(m: Memory, list: seq<int>)
    requires InMemory(m, list)
  {
    forall i {:trigger Next(list, i)} | 0 <= i < |list| :: m[list[i]].ptr == Next(list, i)
  }

  /** Blocks in use carry their size; they are not on the free list. */
  ghost predicate LiveInv(m: Memory, g: Ghost) {
    forall a | a in g.live :: BASE < a && a in m && m[a].size == g.live[a] > 0 && a !in g.list
  }

  /** The blocks partition the units obtained. */
  ghost predicate OwnInv(m: Memory, g: Ghost, brk: int) {
    && (forall u | u in g.own :: BASE < u < brk && IsBlock(g, g.own[u]) && Has(m, g.own[u], u))
    && (forall a, u {:trigger Has(m, a, u)} | IsBlock(g, a) && Has(m, a, u) :: u in g.own && g.own[u] == a)
  }

  /** Unit u lies in the block with header a. */
  predicate Has(m: Memory, a: int, u: int) { a in m && a <= u < a + m[a].size }

  ghost predicate Heap(m: Memory, brk: int, g: Ghost, t: int) {
    ListInv(m, g.list, t) && LiveInv(m, g) && OwnInv(m, g, brk)
  }

  /** Nothing touches: the invariant between calls. */
  const APART := -1

  ghost predicate Inv(m: Memory, freep: int, brk: int, g: Ghost) {
    && BASE < brk
    && if freep == NULL then g == Ghost([], map[], map[])
       else Heap(m, brk, g, APART) && freep in g.list
  }

  // ---------- free ----------

  /** The place in the list where bp belongs. */
  ghost predicate Before(list: seq<int>, t: int, bp: int) {
    0 <= t < |list| && list[t] < bp && (t + 1 < |list| ==> bp < list[t + 1])
  }

  /** A live block does not overlap its neighbours on the free list. */
  lemma Gap(m: Memory, brk: int, g: Ghost, t: int, bp: int)
    requires Heap(m, brk, g, APART) && bp in g.live && Before(g.list, t, bp)
    ensures forall i | 0 <= i <= t :: g.list[i] + m[g.list[i]].size <= bp
    ensures forall i | t < i < |g.list| :: bp + m[bp].size <= g.list[i]
  {
    assert IsBlock(g, bp) && Has(m, bp, bp);
    forall i | 0 <= i <= t ensures g.list[i] + m[g.list[i]].size <= bp {
      if i > 0 && g.list[i] + m[g.list[i]].size > bp {
        assert Has(m, g.list[i], bp);
      }
    }
    forall i | t < i < |g.list| ensures bp + m[bp].size <= g.list[i] {
      if bp + m[bp].size > g.list[i] {
        assert Has(m, bp, g.list[i]) && Has(m, g.list[i], g.list[i]);
      }
    }
  }

  /** The first half of `free`: link bp after p = list[t], taking in the next block if it touches. */
  function LinkNext(m: Memory, p: int, bp: int): Memory
    requires p in m && bp in m
  {
    var next := m[p].ptr;
    if bp + m[bp].size == next && next in m
    then m[bp := Header(m[next].ptr, m[bp].size + m[next].size)]
    else m[bp := Header(next, m[bp].size)]
  }

  /** The second half: let p point to bp, or take bp in if it touches. */
  function LinkPrev(m: Memory, p: int, bp: int): Memory
    requires p in m && bp in m
  {
    if p + m[p].size == bp
    then m[p := Header(m[bp].ptr, m[p].size + m[bp].size)]
    else m[p := Header(bp, m[p].size)]
  }

  /** The units of block a become units of block b. */
  ghost function Reown(own: map<int, int>, a: int, b: int): map<int, int> {
    map u | u in own :: if own[u] == a then b else own[u]
  }

  ghost predicate Touches(m: Memory, list: seq<int>, t: int, bp: int)
    requires bp in m && 0 <= t
  {
    t + 1 < |list| && bp + m[bp].size == list[t + 1]
  }

  /** bp enters the list after position t; the next block goes if it touches. */
  ghost function Enter(m: Memory, g: Ghost, t: int, bp: int): Ghost
    requires bp in m && 0 <= t < |g.list|
  {
    if Touches(m, g.list, t, bp)
    then Ghost(g.list[t + 1 := bp], g.live - {bp}, Reown(g.own, g.list[t + 1], bp))
    else Ghost(g.list[..t + 1] + [bp] + g.list[t + 1..], g.live - {bp}, g.own)
  }

  /** Memory once bp is linked after p, before p may take it in. */
  function Linked(m: Memory, p: int, bp: int): Memory
    requires p in m && bp in m
  {
    LinkNext(m, p, bp)[p := Header(bp, m[p].size)]
  }

  lemma LinkNextIs(m: Memory, brk: int, g: Ghost, t: int, bp: int)
    requires Heap(m, brk, g, APART) && bp in g.live && Before(g.list, t, bp)
    ensures var p := g.list[t]; p in m && bp in m && m[p].ptr == Next(g.list, t)
    ensures LinkNext(m, g.list[t], bp) ==
              if Touches(m, g.list, t, bp)
              then m[bp := Header(Next(g.list, t + 1), m[bp].size + m[g.list[t + 1]].size)]
              else m[bp := Header(Next(g.list, t), m[bp].size)]
  {
  }

  /** bp takes the place of the touching block at t + 1. */
  lemma TakeNextList(m: Memory, m': Memory, list: seq<int>, t: int, bp: int)
    requires ListInv(m, list, APART) && 0 <= t && t + 1 < |list| && bp in m && bp !in list && m[bp].size > 0
    requires list[t] + m[list[t]].size <= bp && bp + m[bp].size == list[t + 1]
    requires m' == m[bp := Header(Next(list, t + 1), m[bp].size + m[list[t + 1]].size)]
                    [list[t] := Header(bp, m[list[t]].size)]
    ensures ListInv(m', list[t + 1 := bp], t)
  {
    var list' := list[t + 1 := bp];
    DistinctElements(m, list);
    assert InMemory(m', list');
    TakeNextOrdered(m, m', list, t, bp);
    hide Ordered;
    forall i | 0 <= i < |list'| ensures m'[list'[i]].ptr == Next(list', i) {
      assert i != t && i != t + 1 ==> m[list[i]].ptr == Next(list, i);
    }
  }

  lemma DistinctElements(m: Memory, list: seq<int>)
    requires ListInv(m, list, APART)
    ensures forall i, j | 0 <= i < j < |list| :: list[i] != list[j]
  {
  }

  lemma InsertList(m: Memory, m': Memory, list: seq<int>, t: int, bp: int)
    requires ListInv(m, list, APART) && 0 <= t < |list| && bp in m && bp !in list && m[bp].size > 0
    requires list[t] + m[list[t]].size <= bp && (t + 1 < |list| ==> bp + m[bp].size < list[t + 1])
    requires m' == m[bp := Header(Next(list, t), m[bp].size)][list[t] := Header(bp, m[list[t]].size)]
    ensures ListInv(m', list[..t + 1] + [bp] + list[t + 1..], t)
  {
    hide Ordered;
    DistinctElements(m, list);
    assert forall i | 0 <= i < |list| :: m'[list[i]].size == m[list[i]].size;
    InsertOrdered(m, m', list, t, bp);
    var list' := list[..t + 1] + [bp] + list[t + 1..];
    forall i | 0 <= i < |list'| ensures m'[list'[i]].ptr == Next(list', i) && (0 < i ==> 0 < m'[list'[i]].size) {
      if i <= t {
        assert list'[i] == list[i] && m[list[i]].ptr == Next(list, i);
      } else if i > t + 1 {
        assert list'[i] == list[i - 1] && m[list[i - 1]].ptr == Next(list, i - 1);
      }
    }
  }

  lemma TakeNextOrdered(m: Memory, m': Memory, list: seq<int>, t: int, bp: int)
    requires InMemory(m, list) && Ordered(m, list, APART) && 0 <= t && t + 1 < |list| && bp in m' && 0 < m'[bp].size
    requires InMemory(m', list[t + 1 := bp])
    requires forall i | 0 <= i < |list| && i != t + 1 :: list[i] in m' && m'[list[i]].size == m[list[i]].size >= 0
    requires list[t] + m[list[t]].size <= bp && bp + m'[bp].size == list[t + 1] + m[list[t + 1]].size
    ensures Ordered(m', list[t + 1 := bp], t)
  {
    var list' := list[t + 1 := bp];
    forall i, j | 0 <= i < j < |list'|
      ensures if i == t && j == t + 1 then list'[i] + m'[list'[i]].size <= list'[j]
              else list'[i] + m'[list'[i]].size < list'[j]
    {
    }
  }

  lemma InsertOrdered(m: Memory, m': Memory, list: seq<int>, t: int, bp: int)
    requires InMemory(m, list) && Ordered(m, list, APART) && 0 <= t < |list| && bp in m'
    requires forall i | 0 <= i < |list| :: list[i] in m' && m'[list[i]].size == m[list[i]].size && m[list[i]].size >= 0
    requires list[t] + m[list[t]].size <= bp && (t + 1 < |list| ==> bp + m'[bp].size < list[t + 1])
    requires 0 < m'[bp].size
    ensures InMemory(m', list[..t + 1] + [bp] + list[t + 1..])
    ensures Ordered(m', list[..t + 1] + [bp] + list[t + 1..], t)
  {
    var list' := list[..t + 1] + [bp] + list[t + 1..];
    forall i, j | 0 <= i < j < |list'|
      ensures if i == t && j == t + 1 then list'[i] + m'[list'[i]].size <= list'[j]
              else list'[i] + m'[list'[i]].size < list'[j]
    {
    }
  }

  lemma EnterList(m: Memory, brk: int, g: Ghost, t: int, bp: int)
    requires Heap(m, brk, g, APART) && bp in g.live && Before(g.list, t, bp)
    ensures g.list[t] in m && bp in m
    ensures ListInv(Linked(m, g.list[t], bp), Enter(m, g, t, bp).list, t)
  {
    LinkNextIs(m, brk, g, t, bp);
    Gap(m, brk, g, t, bp);
    hide OwnInv, LinkNext, ListInv;
    if Touches(m, g.list, t, bp) {
      TakeNextList(m, Linked(m, g.list[t], bp), g.list, t, bp);
    } else {
      InsertList(m, Linked(m, g.list[t], bp), g.list, t, bp);
    }
  }

  lemma EnterLive(m: Memory, brk: int, g: Ghost, t: int, bp: int)
    requires Heap(m, brk, g, APART) && bp in g.live && Before(g.list, t, bp) && g.list[t] in m && bp in m
    ensures LiveInv(Linked(m, g.list[t], bp), Enter(m, g, t, bp))
  {
    hide OwnInv, Ordered, Cycle;
    var m', g' := Linked(m, g.list[t], bp), Enter(m, g, t, bp);
    forall a | a in g'.live ensures a !in g'.list && a in m' && m'[a] == m[a] {
      assert a !in g.list && a != bp;
      if Touches(m, g.list, t, bp) {
        assert forall i | 0 <= i < |g'.list| :: g'.list[i] == bp || g'.list[i] == g.list[i];
      }
    }
  }

  lemma EnterOwn(m: Memory, brk: int, g: Ghost, t: int, bp: int)
    requires Heap(m, brk, g, APART) && bp in g.live && Before(g.list, t, bp) && g.list[t] in m && bp in m
    ensures OwnInv(Linked(m, g.list[t], bp), Enter(m, g, t, bp), brk)
  {
    LinkNextIs(m, brk, g, t, bp);
    hide LinkNext, Ordered, Cycle;
    var p, m', g' := g.list[t], Linked(m, g.list[t], bp), Enter(m, g, t, bp);
    if Touches(m, g.list, t, bp) {
      var next := g.list[t + 1];
      TakeNextBlocks(m, brk, g, t, bp);
      assert forall a, u | IsBlock(g', a) && a != bp :: Has(m', a, u) == Has(m, a, u);
      assert forall u :: Has(m', bp, u) <==> Has(m, bp, u) || Has(m, next, u);
    } else {
      InsertBlocks(g, t, bp);
      assert forall a, u | IsBlock(g', a) :: Has(m', a, u) == Has(m, a, u);
    }
  }

  lemma InsertBlocks(g: Ghost, t: int, bp: int)
    requires 0 <= t < |g.list| && bp in g.live && bp !in g.list && bp != BASE
    ensures var g' := Ghost(g.list[..t + 1] + [bp] + g.list[t + 1..], g.live - {bp}, g.own);
            forall a :: IsBlock(g', a) <==> IsBlock(g, a)
  {
    var list' := g.list[..t + 1] + [bp] + g.list[t + 1..];
    forall a ensures a in list' <==> a in g.list || a == bp {
      assert g.list == g.list[..t + 1] + g.list[t + 1..];
    }
  }

  lemma TakeNextBlocks(m: Memory, brk: int, g: Ghost, t: int, bp: int)
    requires Heap(m, brk, g, APART) && bp in g.live && 0 <= t && t + 1 < |g.list|
    ensures var g' := Ghost(g.list[t + 1 := bp], g.live - {bp}, Reown(g.own, g.list[t + 1], bp));
            forall a :: IsBlock(g', a) <==> IsBlock(g, a) && a != g.list[t + 1]
  {
    hide OwnInv;
    DistinctElements(m, g.list);
    hide Ordered, Cycle;
    var list' := g.list[t + 1 := bp];
    forall a ensures a in list' <==> (a in g.list && a != g.list[t + 1]) || a == bp {
      if a in g.list && a != g.list[t + 1] {
        var i :| 0 <= i < |g.list| && g.list[i] == a;
        assert list'[i] == a;
      }
      assert list'[t + 1] == bp;
    }
  }

  /** p = list[t] takes in the touching block at t + 1. */
  ghost function Absorb(g: Ghost, t: int): Ghost
    requires 0 <= t && t + 1 < |g.list|
  {
    Ghost(g.list[..t + 1] + g.list[t + 2..], g.live, Reown(g.own, g.list[t + 1], g.list[t]))
  }

  ghost predicate Mergeable(m: Memory, brk: int, g: Ghost, t: int) {
    Heap(m, brk, g, t) && 0 < t && t + 1 < |g.list| && g.list[t] + m[g.list[t]].size == g.list[t + 1]
  }

  function Merged(m: Memory, p: int, bp: int): Memory
    requires p in m && bp in m
  {
    m[p := Header(m[bp].ptr, m[p].size + m[bp].size)]
  }

  lemma DistinctWeak(m: Memory, list: seq<int>, t: int)
    requires ListInv(m, list, t) && 0 <= t
    ensures forall i, j | 0 <= i < j < |list| && (i != t || m[list[t]].size > 0) :: list[i] != list[j]
  {
  }

  lemma AbsorbList(m: Memory, brk: int, g: Ghost, t: int)
    requires Mergeable(m, brk, g, t)
    ensures ListInv(Merged(m, g.list[t], g.list[t + 1]), Absorb(g, t).list, APART)
  {
    hide OwnInv, LiveInv;
    AbsorbOrdered(m, g.list, t);
    var m', list, list' := Merged(m, g.list[t], g.list[t + 1]), g.list, Absorb(g, t).list;
    DistinctWeak(m, list, t);
    hide Ordered;
    forall i | 0 <= i < |list'|
      ensures list'[i] in m' && m'[list'[i]].ptr == Next(list', i) && (0 < i ==> 0 < m'[list'[i]].size)
    {
      assert list'[i] == if i <= t then list[i] else list[i + 1];
      assert i < t ==> m[list[i]].ptr == Next(list, i);
      assert i >= t ==> m[list[i + 1]].ptr == Next(list, i + 1);
    }
  }

  lemma AbsorbOrdered(m: Memory, list: seq<int>, t: int)
    requires InMemory(m, list) && 0 <= t && t + 1 < |list| && Ordered(m, list, t)
    requires forall i | 0 < i < |list| :: m[list[i]].size > 0
    requires 0 < t && list[t] + m[list[t]].size == list[t + 1]
    ensures InMemory(Merged(m, list[t], list[t + 1]), list[..t + 1] + list[t + 2..])
    ensures Ordered(Merged(m, list[t], list[t + 1]), list[..t + 1] + list[t + 2..], APART)
  {
    var m', list' := Merged(m, list[t], list[t + 1]), list[..t + 1] + list[t + 2..];
    assert forall i | 0 <= i < |list'| :: list'[i] == if i <= t then list[i] else list[i + 1];
    forall i, j | 0 <= i < j < |list'| ensures list'[i] + m'[list'[i]].size < list'[j] {
      var i1, j1 := if i <= t then i else i + 1, if j <= t then j else j + 1;
      assert list[i1] + m[list[i1]].size < list[j1];
      if i == t {
        assert list[t + 1] + m[list[t + 1]].size < list[j1];
      } else if i < t {
        assert list[i] != list[t];
      } else {
        assert list[t] + m[list[t]].size < list[i1];
      }
    }
  }

  lemma AbsorbBlocks(m: Memory, brk: int, g: Ghost, t: int)
    requires Mergeable(m, brk, g, t)
    ensures forall a :: a in Absorb(g, t).list <==> a in g.list && a != g.list[t + 1]
  {
    hide OwnInv, LiveInv, Cycle;
    var list' := Absorb(g, t).list;
    forall a | a in g.list && a != g.list[t + 1] ensures a in list' {
      var i :| 0 <= i < |g.list| && g.list[i] == a;
      assert if i <= t then list'[i] == a else list'[i - 1] == a;
    }
    assert forall i | 0 <= i < |list'| :: list'[i] == if i <= t then g.list[i] else g.list[i + 1];
    DistinctWeak(m, g.list, t);
  }

  lemma AbsorbRest(m: Memory, brk: int, g: Ghost, t: int)
    requires Mergeable(m, brk, g, t)
    ensures LiveInv(Merged(m, g.list[t], g.list[t + 1]), Absorb(g, t))
    ensures OwnInv(Merged(m, g.list[t], g.list[t + 1]), Absorb(g, t), brk)
  {
    AbsorbBlocks(m, brk, g, t);
    DistinctWeak(m, g.list, t);
    hide Ordered, Cycle;
    var p, bp, m', g' := g.list[t], g.list[t + 1], Merged(m, g.list[t], g.list[t + 1]), Absorb(g, t);
    assert p != BASE && bp != BASE && IsBlock(g, p) && IsBlock(g, bp);
    assert forall a :: IsBlock(g', a) <==> IsBlock(g, a) && a != bp;
    assert forall a, u | a != p :: Has(m', a, u) == Has(m, a, u);
    assert forall u :: Has(m', p, u) <==> Has(m, p, u) || Has(m, bp, u);
  }

  /** `free`, once its search has found p: the heap invariant holds again, with the block free. */
  lemma FreeKeepsHeap(m: Memory, brk: int, g: Ghost, t: int, bp: int) returns (g': Ghost)
    requires Heap(m, brk, g, APART) && bp in g.live && Before(g.list, t, bp)
    ensures g.list[t] in m && bp in m && g.list[t] in LinkNext(m, g.list[t], bp)
    ensures Heap(LinkPrev(LinkNext(m, g.list[t], bp), g.list[t], bp), brk, g', APART)
    ensures g'.live == g.live - {bp} && g'.own.Keys == g.own.Keys && g.list[t] in g'.list
    ensures g.list[t] + m[g.list[t]].size != bp ==> bp in g'.list
  {
    EnterList(m, brk, g, t, bp);
    EnterLive(m, brk, g, t, bp);
    EnterOwn(m, brk, g, t, bp);
    BaseApart(m, brk, g, t, bp);
    hide ListInv, LiveInv, OwnInv;
    var p := g.list[t];
    var m1, g1 := Linked(m, p, bp), Enter(m, g, t, bp);
    var m2 := LinkPrev(LinkNext(m, p, bp), p, bp);
    assert g1.list[t] == p && g1.list[t + 1] == bp && m1[p].size == m[p].size;
    if p + m[p].size == bp {
      AbsorbList(m1, brk, g1, t);
      AbsorbRest(m1, brk, g1, t);
      g' := Absorb(g1, t);
      assert m2 == Merged(m1, p, bp);
      assert g'.list[t] == p;
    } else {
      NotTouching(m1, g1.list, t);
      g' := g1;
      assert m2 == m1;
    }
  }

  lemma BaseApart(m: Memory, brk: int, g: Ghost, t: int, bp: int)
    requires Heap(m, brk, g, APART) && bp in g.live && Before(g.list, t, bp)
    ensures g.list[t] in m && bp in m && g.list[t] != bp && (t == 0 ==> g.list[t] + m[g.list[t]].size != bp)
  {
  }

  /** The freed units end up in one block at least as large. */
  lemma FreedBlockIsLarge(m: Memory, brk: int, g: Ghost, t: int, bp: int)
    requires Heap(m, brk, g, APART) && bp in g.live && Before(g.list, t, bp) && g.list[t] in m && bp in m
    ensures var c := if g.list[t] + m[g.list[t]].size == bp then g.list[t] else bp;
            var m' := LinkPrev(LinkNext(m, g.list[t], bp), g.list[t], bp);
            c != BASE && c in m' && m'[c].size >= m[bp].size
  {
    LinkNextIs(m, brk, g, t, bp);
    hide LinkNext;
  }

  lemma NotTouching(m: Memory, list: seq<int>, t: int)
    requires ListInv(m, list, t) && 0 <= t && t + 1 < |list| && list[t] in m && list[t] + m[list[t]].size != list[t + 1]
    ensures ListInv(m, list, APART)
  {
  }

  // ---------- malloc ----------

  /** A block of exactly the right size leaves the list. */
  function Unlink(m: Memory, prevp: int, p: int): Memory
    requires prevp in m && p in m
  {
    m[prevp := Header(m[p].ptr, m[prevp].size)]
  }

  /** The tail of a larger block is cut off; only the size of its header is written. */
  function Carve(m: Memory, p: int, n: int): Memory
    requires p in m
  {
    var q := p + m[p].size - n;
    m[p := Header(m[p].ptr, m[p].size - n)][q := Header(if q in m then m[q].ptr else NULL, n)]
  }

  lemma UnlinkList(m: Memory, list: seq<int>, k: int)
    requires ListInv(m, list, APART) && 0 < k < |list|
    ensures ListInv(Unlink(m, list[k - 1], list[k]), list[..k] + list[k + 1..], APART)
  {
    var m', list' := Unlink(m, list[k - 1], list[k]), list[..k] + list[k + 1..];
    DistinctElements(m, list);
    UnlinkOrdered(m, m', list, k);
    hide Ordered;
    forall i | 0 <= i < |list'| ensures m'[list'[i]].ptr == Next(list', i) && (0 < i ==> 0 < m'[list'[i]].size) {
      assert list'[i] == if i < k then list[i] else list[i + 1];
      assert i < k - 1 ==> m[list[i]].ptr == Next(list, i);
      assert i >= k - 1 ==> m[list[i + 1]].ptr == Next(list, i + 1);
    }
  }

  lemma UnlinkOrdered(m: Memory, m': Memory, list: seq<int>, k: int)
    requires InMemory(m, list) && Ordered(m, list, APART) && 0 < k < |list| && m' == Unlink(m, list[k - 1], list[k])
    ensures InMemory(m', list[..k] + list[k + 1..]) && Ordered(m', list[..k] + list[k + 1..], APART)
  {
    var list' := list[..k] + list[k + 1..];
    forall i, j | 0 <= i < j < |list'| ensures list'[i] + m'[list'[i]].size < list'[j] {
      var i1, j1 := if i < k then i else i + 1, if j < k then j else j + 1;
      assert list'[i] == list[i1] && list'[j] == list[j1];
    }
  }

  lemma UnlinkMembers(m: Memory, list: seq<int>, k: int)
    requires ListInv(m, list, APART) && 0 < k < |list|
    ensures forall a :: a in list[..k] + list[k + 1..] <==> a in list && a != list[k]
  {
    DistinctElements(m, list);
    hide ListInv;
    var list' := list[..k] + list[k + 1..];
    assert forall i | 0 <= i < |list'| :: list'[i] == if i < k then list[i] else list[i + 1];
    forall a | a in list && a != list[k] ensures a in list' {
      var i :| 0 <= i < |list| && list[i] == a;
      assert if i < k then list'[i] == a else list'[i - 1] == a;
    }
  }

  lemma UnlinkKeepsHeap(m: Memory, brk: int, g: Ghost, k: int) returns (g': Ghost)
    requires Heap(m, brk, g, APART) && 0 < k < |g.list|
    ensures g.list[k - 1] in m && g.list[k] in m
    ensures Heap(Unlink(m, g.list[k - 1], g.list[k]), brk, g', APART)
    ensures g'.live == g.live[g.list[k] := m[g.list[k]].size] && g'.own == g.own && g.list[k - 1] in g'.list
    ensures g.list[k] !in g.live
  {
    var p, prevp := g.list[k], g.list[k - 1];
    UnlinkList(m, g.list, k);
    UnlinkMembers(m, g.list, k);
    assert BASE < p && prevp < p && p in m && 0 < m[p].size && prevp in m;
    hide ListInv;
    g' := Ghost(g.list[..k] + g.list[k + 1..], g.live[p := m[p].size], g.own);
    var m' := Unlink(m, prevp, p);
    assert forall a :: IsBlock(g', a) <==> IsBlock(g, a);
    assert forall a, u :: Has(m', a, u) == Has(m, a, u);
    hide IsBlock, Has;
  }

  lemma CarveKeepsHeap(m: Memory, brk: int, g: Ghost, k: int, n: int) returns (g': Ghost)
    requires Heap(m, brk, g, APART) && 0 < k < |g.list| && 0 < n && g.list[k] in m && n < m[g.list[k]].size
    ensures var p := g.list[k]; var q := p + m[p].size - n;
            && Heap(Carve(m, p, n), brk, g', APART)
            && g'.live == g.live[q := n] && g'.own.Keys == g.own.Keys && g'.list == g.list && q !in g.live
  {
    var p := g.list[k];
    var q := p + m[p].size - n;
    var m' := Carve(m, p, n);
    g' := Ghost(g.list, g.live[q := n], map u | u in g.own :: if g.own[u] == p && q <= u then q else g.own[u]);
    assert BASE < p;
    CarveApart(m, brk, g, p, q);
    CarveList(m, m', g.list, k, n);
    hide ListInv;
    assert forall a :: IsBlock(g', a) <==> IsBlock(g, a) || a == q;
    assert forall a, u | a != p && a != q :: Has(m', a, u) == Has(m, a, u);
    assert forall u :: Has(m', p, u) <==> Has(m, p, u) && u < q;
    assert forall u :: Has(m', q, u) <==> Has(m, p, u) && q <= u;
    hide Has;
  }

  lemma CarveApart(m: Memory, brk: int, g: Ghost, p: int, q: int)
    requires Heap(m, brk, g, APART) && p in g.list && p != BASE && p < q && Has(m, p, q)
    ensures q !in g.live && q !in g.list && p !in g.live && IsBlock(g, p)
  {
    assert IsBlock(g, p) && Has(m, p, p);
    assert IsBlock(g, q) ==> Has(m, q, q);
  }

  lemma CarveList(m: Memory, m': Memory, list: seq<int>, k: int, n: int)
    requires ListInv(m, list, APART) && 0 < k < |list| && 0 < n < m[list[k]].size
    requires m' == Carve(m, list[k], n) && list[k] + m[list[k]].size - n !in list
    ensures ListInv(m', list, APART)
  {
    DistinctElements(m, list);
    assert forall i | 0 <= i < |list| :: list[i] in m' && m'[list[i]].ptr == m[list[i]].ptr
                                        && m'[list[i]].size <= m[list[i]].size;
  }
}
