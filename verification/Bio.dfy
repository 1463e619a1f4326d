/** The list of the buffer cache: one ring of prev/next pointers through all buffers, most recently
    released first. Buffers are numbered; HEAD is the list head, which is not a buffer. */
module BufferList {
  import opened Basics

  const HEAD := NBUF

  /** The ring laid open: the head at both ends. */
  function Line(order: seq<int>): seq<int> { [HEAD] + order + [HEAD] }

  predicate Nodes(order: seq<int>) {
    && (forall i | 0 <= i < |order| :: 0 <= order[i] < NBUF)
    && (forall i, j | 0 <= i < j < |order| :: order[i] != order[j])
  }

  predicate Link(prev: seq<int>, next: seq<int>, a: int, b: int) {
    0 <= a < |next| && 0 <= b < |prev| && next[a] == b && prev[b] == a
  }

  /** prev and next form one ring through the head and the buffers of order, in that order. */
  ghost predicate Ring(prev: seq<int>, next: seq<int>, order: seq<int>) {
    && |prev| == |next| == NBUF + 1
    && Nodes(order)
    && forall i, j | 0 <= i < |order| + 1 && j == i + 1 :: Link(prev, next, Line(order)[i], Line(order)[j])
  }

  function Without(order: seq<int>, k: int): seq<int>
    requires 0 <= k < |order|
  {
    order[..k] + order[k + 1..]
  }

  /** The list after its element k moved to the front. */
  function ToFront(order: seq<int>, k: int): seq<int>
    requires 0 <= k < |order|
  {
    [order[k]] + Without(order, k)
  }

  lemma NodesWithout(order: seq<int>, k: int)
    requires Nodes(order) && 0 <= k < |order|
    ensures Nodes(Without(order, k)) && order[k] !in Without(order, k)
  {
  }

  lemma Around(prev: seq<int>, next: seq<int>, order: seq<int>, k: int)
    requires Ring(prev, next, order) && 0 <= k < |order|
    ensures next[order[k]] == Line(order)[k + 2] && prev[order[k]] == Line(order)[k]
  {
    var l := Line(order);
    assert Link(prev, next, l[k], l[k + 1]) && Link(prev, next, l[k + 1], l[k + 2]);
  }

  /** b->next->prev = b->prev; b->prev->next = b->next takes b out of the ring. */
  lemma Unlink(prev: seq<int>, next: seq<int>, order: seq<int>, k: int)
    requires Ring(prev, next, order) && 0 <= k < |order|
    ensures var b := order[k];
            && 0 <= prev[b] <= NBUF && 0 <= next[b] <= NBUF
            && Ring(prev[next[b] := prev[b]], next[prev[b] := next[b]], Without(order, k))
  {
    Around(prev, next, order, k);
    NodesWithout(order, k);
    var b, l, l' := order[k], Line(order), Line(Without(order, k));
    var prev', next' := prev[next[b] := prev[b]], next[prev[b] := next[b]];
    forall i, j | 0 <= i < |order| && j == i + 1 ensures Link(prev', next', l'[i], l'[j]) {
      if i < k {
        assert Link(prev, next, l[i], l[j]);
      } else if i == k {
        assert l'[i] == l[k] && l'[j] == l[k + 2];
      } else {
        assert l'[i] == l[i + 1] && l'[j] == l[j + 1];
        assert Link(prev, next, l[i + 1], l[j + 1]);
      }
    }
  }

  /** b->next = head.next; b->prev = head; head.next->prev = b; head.next = b puts b in front. */
  lemma PushFront(prev: seq<int>, next: seq<int>, order: seq<int>, b: int)
    requires Ring(prev, next, order) && 0 <= b < NBUF && b !in order
    ensures 0 <= next[HEAD] <= NBUF && next[HEAD] != b
    ensures Ring(prev[b := HEAD][next[HEAD] := b], next[b := next[HEAD]][HEAD := b], [b] + order)
  {
    var l, l' := Line(order), Line([b] + order);
    assert Link(prev, next, l[0], l[1]);
    assert l[1] == if order == [] then HEAD else order[0];
    var prev', next' := prev[b := HEAD][next[HEAD] := b], next[b := next[HEAD]][HEAD := b];
    forall i, j | 0 <= i < |order| + 2 && j == i + 1 ensures Link(prev', next', l'[i], l'[j]) {
      if i == 0 {
        assert l'[0] == HEAD && l'[1] == b;
      } else if i == 1 {
        assert l'[1] == b && l'[2] == l[1];
      } else {
        assert l'[i] == l[i - 1] && l'[j] == l[j - 1];
        assert Link(prev, next, l[i - 1], l[j - 1]);
      }
    }
  }

  function UpTo(n: nat): (r: set<int>)
    ensures |r| == n && forall i :: i in r <==> 0 <= i < n
  {
    if n == 0 then {} else UpTo(n - 1) + {n - 1}
  }

  /** Every buffer is in a ring of NBUF distinct ones. */
  lemma AllIn(order: seq<int>, b: int)
    requires Nodes(order) && |order| == NBUF && 0 <= b < NBUF
    ensures b in order
  {
    Pigeonhole(order, |order|, b);
  }

  lemma Pigeonhole(order: seq<int>, n: nat, b: int)
    requires Nodes(order) && |order| == n && 0 <= b < n
    requires forall i | 0 <= i < n :: order[i] < n
    ensures b in order
  {
    var got, left := set i | 0 <= i < n :: order[i], UpTo(n) - {b};
    Cardinals(order, n);
    SubsetSize(got * left, left);
    assert b !in order ==> got * left == got;
  }

  lemma {:induction false} Cardinals(order: seq<int>, n: nat)
    requires Nodes(order) && n <= |order|
    ensures |set i | 0 <= i < n :: order[i]| == n
  {
    if n > 0 {
      Cardinals(order, n - 1);
      assert (set i | 0 <= i < n :: order[i]) == (set i | 0 <= i < n - 1 :: order[i]) + {order[n - 1]};
    }
  }

  // ---------------------------------------------------------------- the cache's bookkeeping

  datatype Buf = Buf(dev: int, blockno: int, refcnt: nat, valid: bool, dirty: bool)

  predicate Caches(b: Buf, dev: int, blockno: int) { b.dev == dev && b.blockno == blockno }
  predicate Recyclable(b: Buf) { b.refcnt == 0 && !b.dirty }

  /** No block of a real device is in two buffers. */
  ghost predicate Unique(bufs: seq<Buf>) {
    forall b, c | 0 <= b < c < |bufs| && bufs[b].dev != 0 :: !Caches(bufs[c], bufs[b].dev, bufs[b].blockno)
  }

  /** The list is in the order of release, latest first; stamp 0 means never released. */
  ghost predicate ByRelease(order: seq<int>, stamp: seq<int>, clock: int) {
    && |stamp| == NBUF && Nodes(order)
    && (forall b | 0 <= b < NBUF :: 0 <= stamp[b] <= clock)
    && (forall i, j | 0 <= i < j < |order| ::
          stamp[order[i]] > stamp[order[j]] || stamp[order[i]] == stamp[order[j]] == 0)
  }

  lemma RefKeepsUnique(bufs: seq<Buf>, b: int, n: nat)
    requires Unique(bufs) && 0 <= b < |bufs|
    ensures Unique(bufs[b := bufs[b].(refcnt := n)])
  {
  }

  lemma ReleaseKeepsOrder(order: seq<int>, stamp: seq<int>, clock: int, k: int)
    requires ByRelease(order, stamp, clock) && 0 <= k < |order| && clock >= 0
    ensures ByRelease(ToFront(order, k), stamp[order[k] := clock + 1], clock + 1)
  {
    NodesWithout(order, k);
    var o, t := ToFront(order, k), stamp[order[k] := clock + 1];
    forall i, j | 0 <= i < j < |o| ensures t[o[i]] > t[o[j]] || t[o[i]] == t[o[j]] == 0 {
      var i', j' := if i <= k then i - 1 else i, if j <= k then j - 1 else j;
      assert o[j] == order[j'] && (i > 0 ==> o[i] == order[i']);
    }
  }
}

/** bio.c: binit, bget and brelse. */
module BufferCache {
  import opened Basics
  import opened BufferList

  class Bcache {
    const prev: array<int>
    const next: array<int>
    const buf: array<Buf>
    ghost var order: seq<int>
    ghost var stamp: seq<int>
    ghost var clock: int

    ghost predicate Shaped()
      reads this
    {
      prev.Length == next.Length == NBUF + 1 && buf.Length == NBUF && prev != next
    }

    ghost predicate Valid()
      reads this, prev, next, buf
    {
      && Shaped()
      && Ring(prev[..], next[..], order) && |order| == NBUF
      && Unique(buf[..])
      && ByRelease(order, stamp, clock) && clock >= 0
    }

    /** `b` goes to the front of a ring it is not in. */
    method Link(b: int)
      requires Shaped() && Ring(prev[..], next[..], order) && 0 <= b < NBUF && b !in order
      modifies prev, next, `order
      ensures order == [b] + old(order) && Ring(prev[..], next[..], order)
    {
      PushFront(prev[..], next[..], order, b);
      ghost var p, n := prev[..], next[..];
      next[b] := next[HEAD];
      prev[b] := HEAD;
      prev[next[HEAD]] := b;
      next[HEAD] := b;
      order := [b] + order;
      assert prev[..] == p[b := HEAD][n[HEAD] := b];
      assert next[..] == n[b := n[HEAD]][HEAD := b];
    }

    /** `binit`: all buffers zero, so of device 0, in one ring with the last buffer in front. */
    constructor ()
      ensures Valid() && fresh(prev) && fresh(next) && fresh(buf)
      ensures forall b | 0 <= b < NBUF :: buf[b] == Buf(0, 0, 0, false, false)
      ensures forall i | 0 <= i < NBUF :: order[i] == NBUF - 1 - i
    {
      prev := new int[NBUF + 1](_ => HEAD);
      next := new int[NBUF + 1](_ => HEAD);
      buf := new Buf[NBUF](_ => Buf(0, 0, 0, false, false));
      order, stamp, clock := [], seq(NBUF, _ => 0), 0;
      new;
      var b := 0;
      while b < NBUF
        invariant 0 <= b <= NBUF && Shaped() && Ring(prev[..], next[..], order) && |order| == b
        invariant forall i | 0 <= i < b :: order[i] == b - 1 - i
        invariant stamp == seq(NBUF, _ => 0) && clock == 0
        invariant forall i | 0 <= i < NBUF :: buf[i] == Buf(0, 0, 0, false, false)
      {
        Link(b);
        b := b + 1;
      }
    }

    /** The first loop of `bget`: the buffer of the block, if there is one. */
    method Lookup(dev: int, blockno: int) returns (b: int)
      requires Valid()
      ensures 0 <= b <= HEAD
      ensures b != HEAD ==> Caches(buf[b], dev, blockno)
      ensures b == HEAD ==> forall c | 0 <= c < NBUF :: !Caches(buf[c], dev, blockno)
    {
      hide ByRelease, Unique;
      assert BufferList.Link(prev[..], next[..], Line(order)[0], Line(order)[1]);
      b := next[HEAD];
      ghost var i := 0;
      while b != HEAD
        invariant 0 <= i <= NBUF && b == Line(order)[i + 1]
        invariant forall j | 0 <= j < i :: !Caches(buf[order[j]], dev, blockno)
        decreases NBUF - i
      {
        if buf[b].dev == dev && buf[b].blockno == blockno {
          return;
        }
        Around(prev[..], next[..], order, i);
        b := next[b];
        i := i + 1;
      }
      forall c | 0 <= c < NBUF ensures !Caches(buf[c], dev, blockno) { AllIn(order, c); }
    }

    /** The second loop of `bget`: from the other end, the first buffer that may be recycled. */
    method Victim() returns (b: int)
      requires Valid()
      ensures 0 <= b <= HEAD
      ensures b != HEAD ==> Recyclable(buf[b])
      ensures b != HEAD ==> forall c | 0 <= c < NBUF && Recyclable(buf[c]) :: stamp[b] <= stamp[c]
      ensures b == HEAD ==> forall c | 0 <= c < NBUF :: !Recyclable(buf[c])
    {
      hide Unique;
      assert BufferList.Link(prev[..], next[..], Line(order)[NBUF], Line(order)[NBUF + 1]);
      b := prev[HEAD];
      ghost var i := NBUF;
      while b != HEAD
        invariant 0 <= i <= NBUF && b == Line(order)[i]
        invariant forall j | i <= j < NBUF :: !Recyclable(buf[order[j]])
        decreases i
      {
        if buf[b].refcnt == 0 && !buf[b].dirty {
          forall c | 0 <= c < NBUF && Recyclable(buf[c]) ensures stamp[b] <= stamp[c] { AllIn(order, c); }
          return;
        }
        Around(prev[..], next[..], order, i - 1);
        b := prev[b];
        i := i - 1;
      }
      forall c | 0 <= c < NBUF ensures !Recyclable(buf[c]) { AllIn(order, c); }
    }

    /** `bget`: the cached buffer, with one more reference; or the buffer released longest ago among
        those that are neither referenced nor dirty, now empty and for this block; or the panic, when
        every buffer is referenced or dirty, for which HEAD is returned. No other buffer changes. */
    method Bget(dev: int, blockno: int) returns (b: int)
      requires Valid()
      modifies buf
      ensures Valid() && 0 <= b <= HEAD
      ensures forall c | 0 <= c < NBUF && c != b :: buf[c] == old(buf[c])
      ensures b != HEAD && old(Caches(buf[b], dev, blockno)) ==>
                buf[b] == old(buf[b]).(refcnt := old(buf[b]).refcnt + 1)
      ensures b != HEAD && !old(Caches(buf[b], dev, blockno)) ==>
                && buf[b] == Buf(dev, blockno, 1, false, false)
                && (forall c | 0 <= c < NBUF :: !old(Caches(buf[c], dev, blockno)))
                && old(Recyclable(buf[b]))
                && forall c | 0 <= c < NBUF && old(Recyclable(buf[c])) :: stamp[b] <= stamp[c]
      ensures b == HEAD <==> forall c | 0 <= c < NBUF :: !old(Caches(buf[c], dev, blockno)) && !old(Recyclable(buf[c]))
    {
      b := Lookup(dev, blockno);
      if b != HEAD {
        buf[b] := buf[b].(refcnt := buf[b].refcnt + 1);
        return;
      }
      b := Victim();
      if b != HEAD {
        buf[b] := Buf(dev, blockno, 1, false, false);
      }
    }

    /** `iderw` and `log_write` change the flags of a buffer and nothing the list depends on. */
    method SetFlags(b: int, valid: bool, dirty: bool)
      requires Valid() && 0 <= b < NBUF
      modifies buf
      ensures Valid() && buf[..] == old(buf[..])[b := old(buf[b]).(valid := valid, dirty := dirty)]
    {
      buf[b] := buf[b].(valid := valid, dirty := dirty);
    }

    /** `b`, element k of the ring, is taken out. */
    method Cut(b: int, ghost k: int)
      requires Shaped() && Ring(prev[..], next[..], order) && 0 <= k < |order| && order[k] == b
      modifies prev, next, `order
      ensures order == Without(old(order), k) && Ring(prev[..], next[..], order) && b !in order
    {
      Unlink(prev[..], next[..], order, k);
      NodesWithout(order, k);
      Around(prev[..], next[..], order, k);
      ghost var p, n := prev[..], next[..];
      prev[next[b]] := prev[b];
      next[prev[b]] := next[b];
      assert prev[..] == p[n[b] := p[b]];
      assert next[..] == n[p[b] := n[b]];
      order := Without(order, k);
    }

    /** `b`, element k of the ring, goes to the front. */
    method MoveToFront(b: int, ghost k: int)
      requires Shaped() && Ring(prev[..], next[..], order) && 0 <= k < |order| && order[k] == b
      modifies prev, next, `order
      ensures order == ToFront(old(order), k) && Ring(prev[..], next[..], order)
    {
      assert 0 <= b < NBUF;
      hide Ring;
      Cut(b, k);
      Link(b);
    }

    /** b->refcnt-- */
    method Unref(b: int)
      requires Valid() && 0 <= b < NBUF && buf[b].refcnt > 0
      modifies buf
      ensures Valid() && buf[..] == old(buf[..])[b := old(buf[b]).(refcnt := old(buf[b]).refcnt - 1)]
    {
      buf[b] := buf[b].(refcnt := buf[b].refcnt - 1);
    }

    /** Nobody refers to the buffer any more: it is the one released last. */
    method Unused(b: int)
      requires Valid() && 0 <= b < NBUF
      modifies prev, next, `order, `stamp, `clock
      ensures Valid()
      ensures exists k :: 0 <= k < NBUF && old(order)[k] == b && order == ToFront(old(order), k)
      ensures stamp == old(stamp)[b := clock] && forall c | 0 <= c < NBUF && c != b :: stamp[c] < clock
    {
      hide Ring, Unique;
      AllIn(order, b);
      ghost var k :| 0 <= k < |order| && order[k] == b;
      ReleaseKeepsOrder(order, stamp, clock, k);
      MoveToFront(b, k);
      stamp, clock := stamp[b := clock + 1], clock + 1;
    }

    /** `brelse` of a buffer the caller has a reference to: the last release moves it to the front. */
    method Brelse(b: int)
      requires Valid() && 0 <= b < NBUF && buf[b].refcnt > 0
      modifies buf, prev, next, `order, `stamp, `clock
      ensures Valid()
      ensures buf[..] == old(buf[..])[b := old(buf[b]).(refcnt := old(buf[b]).refcnt - 1)]
      ensures buf[b].refcnt > 0 ==> order == old(order) && stamp == old(stamp)
      ensures buf[b].refcnt == 0 ==>
                && (exists k :: 0 <= k < NBUF && old(order)[k] == b && order == ToFront(old(order), k))
                && stamp == old(stamp)[b := clock] && forall c | 0 <= c < NBUF && c != b :: stamp[c] < clock
    {
      hide Ring, Unique, ByRelease;
      Unref(b);
      if buf[b].refcnt == 0 {
        Unused(b);
      }
    }
  }
}
