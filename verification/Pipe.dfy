/** The ring buffer of a pipe: 512 bytes and two counters that run on past 2^32. */
module PipeRing {
  import opened Basics

  const PIPESIZE := 512
  const WORD := 0x1_0000_0000

  /** Unsigned addition of two words. */
  function Plus(a: int, b: int): (r: int)
    requires 0 <= a < WORD && 0 <= b < WORD
    ensures 0 <= r < WORD && r % PIPESIZE == (a + b) % PIPESIZE
  {
    if a + b < WORD then a + b else a + b - WORD
  }

  datatype Ring = Ring(data: seq<byte>, nread: int, nwrite: int) {
    function Count(): int { if nread <= nwrite then nwrite - nread else nwrite - nread + WORD }

    predicate Sized() { |data| == PIPESIZE && 0 <= nread < WORD && 0 <= nwrite < WORD }

    predicate Valid() { Sized() && Count() <= PIPESIZE }

    /** The bytes in the pipe, oldest first. */
    function Queue(): (q: seq<byte>)
      requires Valid()
      ensures |q| == Count()
    {
      seq(Count(), k requires 0 <= k < Count() => data[Plus(nread, k) % PIPESIZE])
    }

    predicate Empty() { nread == nwrite }

    predicate Full()
      requires Valid()
    {
      nwrite == Plus(nread, PIPESIZE)
    }

    function Put(b: byte): (r: Ring)
      requires Sized()
      ensures r.Sized()
    {
      Ring(data[nwrite % PIPESIZE := b], nread, Plus(nwrite, 1))
    }

    function PutAll(bs: seq<byte>): (r: Ring)
      requires Sized()
      ensures r.Sized()
    {
      if bs == [] then this else PutAll(bs[..|bs| - 1]).Put(bs[|bs| - 1])
    }

    function Advance(): (r: Ring)
      requires Sized()
      ensures r.Sized()
    {
      Ring(data, Plus(nread, 1), nwrite)
    }

    function AdvanceBy(n: nat): (r: Ring)
      requires Sized()
      ensures r.Sized()
    {
      if n == 0 then this else AdvanceBy(n - 1).Advance()
    }
  }

  /** The tests of the code, on counters that may have wrapped, are tests of the number of bytes. */
  lemma CountersCount(r: Ring)
    requires r.Valid()
    ensures r.Empty() <==> r.Queue() == []
    ensures r.Full() <==> |r.Queue()| == PIPESIZE
  {
  }

  lemma PutAppends(r: Ring, b: byte)
    requires r.Valid() && !r.Full()
    ensures r.Put(b).Valid() && r.Put(b).Queue() == r.Queue() + [b]
  {
    var q, p := r.Queue(), r.Put(b);
    assert p.Count() == r.Count() + 1;
    assert Plus(r.nread, r.Count()) == r.nwrite;
    assert r.nwrite % PIPESIZE == (r.nread + r.Count()) % PIPESIZE;
    hide Plus;
    forall k | 0 <= k < r.Count() ensures p.Queue()[k] == q[k] { OtherSlot(r.nread, k, r.Count()); }
    assert p.Queue()[r.Count()] == b;
  }

  lemma OtherSlot(a: int, k: int, n: int)
    requires 0 <= k < n < PIPESIZE
    ensures (a + k) % PIPESIZE != (a + n) % PIPESIZE
  {
  }

  lemma AdvanceTakesFirst(r: Ring)
    requires r.Valid() && !r.Empty()
    ensures r.Queue() != [] && r.data[r.nread % PIPESIZE] == r.Queue()[0]
    ensures r.Advance().Valid() && r.Advance().Queue() == r.Queue()[1..]
  {
    var q, p := r.Queue(), r.Advance();
    assert Plus(r.nread, 0) == r.nread;
    forall k | 0 <= k < r.Count() - 1 ensures p.Queue()[k] == q[k + 1] {
      assert Plus(p.nread, k) == Plus(r.nread, k + 1);
    }
  }

  lemma {:induction false} PutAllAppends(r: Ring, bs: seq<byte>)
    requires r.Valid() && |r.Queue()| + |bs| <= PIPESIZE
    ensures r.PutAll(bs).Valid() && r.PutAll(bs).Queue() == r.Queue() + bs
    decreases |bs|
  {
    if bs != [] {
      var front := bs[..|bs| - 1];
      PutAllAppends(r, front);
      CountersCount(r.PutAll(front));
      PutAppends(r.PutAll(front), bs[|bs| - 1]);
      assert bs == front + [bs[|bs| - 1]];
    }
  }

  lemma {:induction false} AdvanceTakesFront(r: Ring, n: nat)
    requires r.Valid() && n <= |r.Queue()|
    ensures r.AdvanceBy(n).Valid() && r.AdvanceBy(n).Queue() == r.Queue()[n..]
  {
    if n > 0 {
      AdvanceTakesFront(r, n - 1);
      CountersCount(r.AdvanceBy(n - 1));
      AdvanceTakesFirst(r.AdvanceBy(n - 1));
    }
  }
}

/** pipewrite, piperead and pipeclose between two points where the pipe's lock is taken and given up:
    on entry or on return from sleep, and at sleep or on return. */
module PipeCode {
  import opened Basics
  import opened PipeRing

  datatype Outcome = Done | Killed | Sleeps

  function Min(a: int, b: int): int { if a <= b then a else b }

  /** What stops a writer that still has bytes when the pipe is full. */
  function AtFull(more: bool, readopen: bool, killed: bool): Outcome {
    if !more then Done else if !readopen || killed then Killed else Sleeps
  }

  lemma OneMore(q: seq<byte>, done: seq<byte>, left: seq<byte>)
    requires q == done + left && left != []
    ensures q == (done + [left[0]]) + left[1..]
  {
  }

  class Pipe {
    const data: array<byte>
    var nread: int
    var nwrite: int
    var readopen: bool
    var writeopen: bool

    ghost function View(): Ring
      reads this, data
    {
      Ring(data[..], nread, nwrite)
    }

    ghost predicate Valid()
      reads this, data
    {
      View().Valid()
    }

    /** `pipealloc` */
    constructor ()
      ensures Valid() && View().Queue() == [] && readopen && writeopen
    {
      data := new byte[PIPESIZE];
      nread, nwrite, readopen, writeopen := 0, 0, true, true;
    }

    /** `pipewrite` from byte i on: copies what fits, in order; if something is left the pipe is full. */
    method Write(addr: seq<byte>, i: nat, killed: bool) returns (j: nat, out: Outcome)
      requires Valid() && i <= |addr|
      modifies `nwrite, data
      ensures Valid()
      ensures j == Min(|addr|, i + PIPESIZE - |old(View().Queue())|)
      ensures View() == old(View()).PutAll(addr[i..j]) && View().Queue() == old(View().Queue()) + addr[i..j]
      ensures out == AtFull(j < |addr|, readopen, killed)
    {
      j := i;
      while j < |addr|
        invariant i <= j <= |addr| && Valid() && nread == old(nread)
        invariant View() == old(View()).PutAll(addr[i..j])
        invariant View().Queue() == old(View().Queue()) + addr[i..j]
      {
        CountersCount(View());
        if nwrite == Plus(nread, PIPESIZE) {
          return j, if !readopen || killed then Killed else Sleeps;
        }
        PutAppends(View(), addr[j]);
        ghost var v := View();
        data[nwrite % PIPESIZE] := addr[j];
        nwrite := Plus(nwrite, 1);
        assert View() == v.Put(addr[j]);
        assert addr[i..j + 1][..j - i] == addr[i..j];
        j := j + 1;
      }
      out := Done;
    }

    /** `piperead`: takes the oldest bytes, as many as asked for if there are so many; it waits only on
        an empty pipe that someone may still write to. */
    method Read(n: nat, killed: bool) returns (addr: seq<byte>, out: Outcome)
      requires Valid()
      modifies `nread
      ensures Valid()
      ensures out == if old(View().Queue()) == [] && writeopen then (if killed then Killed else Sleeps) else Done
      ensures |addr| == if out == Done then Min(n, |old(View().Queue())|) else 0
      ensures View() == old(View()).AdvanceBy(|addr|) && old(View().Queue()) == addr + View().Queue()
    {
      hide Ring.Queue;
      addr := [];
      CountersCount(View());
      if nread == nwrite && writeopen {
        return [], if killed then Killed else Sleeps;
      }
      while |addr| < n
        invariant |addr| <= n && Valid() && View() == old(View()).AdvanceBy(|addr|)
        invariant old(View().Queue()) == addr + View().Queue()
      {
        CountersCount(View());
        if nread == nwrite {
          break;
        }
        ghost var v, q := View(), old(View().Queue());
        AdvanceTakesFirst(v);
        OneMore(q, addr, v.Queue());
        addr := addr + [data[nread % PIPESIZE]];
        nread := Plus(nread, 1);
        assert View() == v.Advance();
      }
      out := Done;
    }

    /** `pipeclose`: the page of the pipe is freed when the second end is closed. */
    method Close(writable: bool) returns (free: bool)
      modifies `readopen, `writeopen
      ensures readopen == (old(readopen) && writable) && writeopen == (old(writeopen) && !writable)
      ensures free <==> !readopen && !writeopen
    {
      if writable {
        writeopen := false;
      } else {
        readopen := false;
      }
      free := !readopen && !writeopen;
    }
  }
}
