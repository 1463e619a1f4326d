/** Whole calls of pipewrite and piperead, over every run: which bytes a call puts in or takes out. */
module PipeCalls {
  import opened Basics
  import opened PipeRing
  import opened PipeCode
  import opened PipeProtocol

  /** Process q calls op at step a, and the call has not returned before step b. */
  ghost predicate InCall(states: seq<Sys>, steps: seq<Step>, a: int, b: int, q: int, op: Op) {
    && |states| == |steps| + 1 && 0 <= a < b <= |steps| && steps[a] == Start(q, op)
    && forall i | a < i < b :: StaysIn(states, i, q)
  }

  ghost predicate StaysIn(states: seq<Sys>, i: int, q: int)
    requires 0 <= i < |states| - 1
  {
    q in states[i + 1].pcs && !states[i + 1].pcs[q].Idle?
  }

  /** The bytes that q has put in since step a. */
  ghost function Gains(states: seq<Sys>, steps: seq<Step>, a: int, b: int, q: int): seq<byte>
    requires |states| == |steps| + 1 && 0 <= a < b <= |steps|
  {
    if b == a + 1 then []
    else
      Gains(states, steps, a, b - 1, q)
      + if steps[b - 1].q == q then Added(states[b - 1].accepted, states[b].accepted) else []
  }

  function Added(a: seq<byte>, b: seq<byte>): seq<byte> { if |a| <= |b| then b[|a|..] else [] }

  /** Process q is in a write of addr, and got bytes has put in. */
  ghost predicate Writing(s: Sys, q: int, addr: seq<byte>, got: seq<byte>) {
    && q in s.pcs && Busy(s.pcs[q]) && s.pcs[q].op.Write? && s.pcs[q].op.addr == addr && s.pcs[q].op.Ok()
    && got == if s.pcs[q].Leaving? || (s.pcs[q].Waking? && !s.pcs[q].more) then addr else addr[..s.pcs[q].op.i]
  }

  lemma StartsWriting(s: Sys, st: Step)
    requires Enabled(s, st) && st.Start? && st.op.Write?
    ensures Writing(Next(s, st), st.q, st.op.addr, [])
  {
  }

  /** A step of another process leaves q where it is, or wakes it up. */
  lemma OtherMoves(s: Sys, st: Step, q: int)
    requires Inv(s) && Enabled(s, st) && st.q != q && q in s.pcs
    ensures q in Next(s, st).pcs
    ensures var pc := Next(s, st).pcs[q]; pc == s.pcs[q] || (s.pcs[q].Asleep? && pc == Entering(s.pcs[q].op))
  {
    StepMoves(s, st);
    hide Inv, Next, PcOk, Passed;
  }

  lemma OthersWriting(s: Sys, st: Step, q: int, addr: seq<byte>, got: seq<byte>)
    requires Inv(s) && Enabled(s, st) && st.q != q && Writing(s, q, addr, got)
    ensures Writing(Next(s, st), q, addr, got)
  {
    hide Inv, Next, Enabled;
    OtherMoves(s, st, q);
  }

  /** A step of its own, that is not the end of the call. */
  lemma OwnWriting(s: Sys, st: Step, addr: seq<byte>, got: seq<byte>)
    requires Inv(s) && Enabled(s, st) && Writing(s, st.q, addr, got) && !st.Go?
    requires st.q in Next(s, st).pcs && !Next(s, st).pcs[st.q].Idle?
    ensures Writing(Next(s, st), st.q, addr, got) && Next(s, st).accepted == s.accepted
  {
    hide Ring.Queue, Ring.PutAll, Ring.AdvanceBy, Ring.Valid, Fifo, Ends, FreedOnce, WritersWait, MayStart;
    assert PcOk(s.pcs[st.q]);
  }

  /** The stretch in which bytes are put in: as many as there is room for. */
  lemma GoWriting(s: Sys, st: Step, addr: seq<byte>, got: seq<byte>)
    requires Inv(s) && Enabled(s, st) && Writing(s, st.q, addr, got) && st.Go?
    ensures var r := Next(s, st);
            var all := got + Added(s.accepted, r.accepted);
            && st.q in r.pcs && all <= addr && |all| == Min(|addr|, |got| + PIPESIZE - |s.Queue()|)
            && (r.pcs[st.q].Idle? <==> |all| < |addr| && (st.killed || !s.readopen))
            && (!r.pcs[st.q].Idle? ==> Writing(r, st.q, addr, all))
  {
    hide Ring.Queue, Ring.PutAll, Ring.AdvanceBy, Ring.Valid, Ends, FreedOnce, WritersWait, MayStart, GoRead, GoClose;
    CountAtMost(s.ring);
    var op := s.pcs[st.q].op;
    var j := Min(|addr|, op.i + PIPESIZE - |s.Queue()|);
    var r := Next(s, st);
    assert r.accepted == s.accepted + addr[op.i..j];
    assert Added(s.accepted, r.accepted) == addr[op.i..j];
    assert addr[..op.i] + addr[op.i..j] == addr[..j];
  }

  lemma {:induction false} WriteRun(states: seq<Sys>, steps: seq<Step>, a: int, b: int, q: int, addr: seq<byte>)
    requires IsRun(states, steps) && InCall(states, steps, a, b, q, Write(addr, 0))
    ensures Writing(states[b], q, addr, Gains(states, steps, a, b, q))
    decreases b
  {
    hide Inv, Init, Next, Enabled, Writing;
    RunInv(states, steps, b - 1);
    assert Follows(states, steps, b - 1);
    var s, st := states[b - 1], steps[b - 1];
    if b == a + 1 {
      StartsWriting(s, st);
    } else {
      WriteRun(states, steps, a, b - 1, q, addr);
      assert StaysIn(states, b - 1, q);
      var got := Gains(states, steps, a, b - 1, q);
      if st.q != q {
        OthersWriting(s, st, q, addr, got);
        assert got + [] == got;
      } else if st.Go? {
        GoWriting(s, st, addr, got);
      } else {
        OwnWriting(s, st, addr, got);
        assert got + [] == got;
      }
    }
  }

  /** In every run: a write that returns from its end has put in its bytes, all of them and in order. */
  lemma WritePutsAll(states: seq<Sys>, steps: seq<Step>, a: int, b: int, q: int, addr: seq<byte>)
    requires IsRun(states, steps) && InCall(states, steps, a, b, q, Write(addr, 0)) && b < |steps|
    requires steps[b] == Leave(q)
    ensures Gains(states, steps, a, b, q) == addr
  {
    WriteRun(states, steps, a, b, q, addr);
    assert Follows(states, steps, b);
  }

  /** In every run: a write that returns -1 has put in some of its first bytes and left the pipe full; it was
      killed, or nobody can read any more. No other write returns before its end. */
  lemma WriteFailsWhenFull(states: seq<Sys>, steps: seq<Step>, a: int, b: int, q: int, addr: seq<byte>)
    requires IsRun(states, steps) && InCall(states, steps, a, b, q, Write(addr, 0)) && b < |steps|
    requires steps[b].q == q && q in states[b + 1].pcs && states[b + 1].pcs[q].Idle? && steps[b] != Leave(q)
    ensures steps[b].Go? && (steps[b].killed || !states[b].readopen)
    ensures Gains(states, steps, a, b + 1, q) < addr
    ensures |states[b + 1].accepted| - |states[b + 1].delivered| == PIPESIZE
  {
    WriteRun(states, steps, a, b, q, addr);
    RunInv(states, steps, b);
    RunInv(states, steps, b + 1);
    assert Follows(states, steps, b);
    var s, st := states[b], steps[b];
    hide Ring.Queue, Ring.PutAll, Ring.AdvanceBy, Ring.Valid, Ends, FreedOnce, WritersWait, MayStart, GoRead, GoClose;
    GoWriting(s, st, addr, Gains(states, steps, a, b, q));
    WriteFills(s, s.pcs[q].op);
  }

  // ---------------------------------------------------------------- read

  ghost predicate Reading(s: Sys, q: int, n: nat) { q in s.pcs && Busy(s.pcs[q]) && s.pcs[q].op == Read(n) }

  lemma StepReading(s: Sys, st: Step, q: int, n: nat)
    requires Inv(s) && Enabled(s, st) && Reading(s, q, n)
    requires q in Next(s, st).pcs && !Next(s, st).pcs[q].Idle?
    ensures Reading(Next(s, st), q, n)
  {
    hide Inv, Next, Enabled;
    if st.q == q {
      OwnReading(s, st, n);
    } else {
      OtherMoves(s, st, q);
    }
  }

  lemma OwnReading(s: Sys, st: Step, n: nat)
    requires Inv(s) && Enabled(s, st) && Reading(s, st.q, n)
    requires st.q in Next(s, st).pcs && !Next(s, st).pcs[st.q].Idle?
    ensures Reading(Next(s, st), st.q, n)
  {
    hide Ring.Queue, Ring.PutAll, Ring.AdvanceBy, Ring.Valid, Fifo, Ends, FreedOnce, WritersWait, MayStart;
    assert PcOk(s.pcs[st.q]);
  }

  lemma {:induction false} ReadRun(states: seq<Sys>, steps: seq<Step>, a: int, b: int, q: int, n: nat)
    requires IsRun(states, steps) && InCall(states, steps, a, b, q, Read(n))
    ensures Reading(states[b], q, n)
    decreases b
  {
    hide Inv, Init, Ring.Queue, Ring.PutAll, Ring.AdvanceBy, Ring.Valid;
    RunInv(states, steps, b - 1);
    assert Follows(states, steps, b - 1);
    if b > a + 1 {
      hide Next, Enabled;
      ReadRun(states, steps, a, b - 1, q, n);
      assert StaysIn(states, b - 1, q);
      StepReading(states[b - 1], steps[b - 1], q, n);
    }
  }

  /** In every run: the stretch of a read with the lock. Of an empty pipe that may still be written to it takes
      nothing, and it returns only if killed; otherwise it takes the oldest bytes, as many as it wants or there
      are, and goes on to wake the writers. */
  lemma ReadTakesOldest(states: seq<Sys>, steps: seq<Step>, a: int, b: int, q: int, n: nat)
    requires IsRun(states, steps) && InCall(states, steps, a, b, q, Read(n)) && b < |steps|
    requires steps[b].q == q && steps[b].Go?
    ensures var s, r := states[b], states[b + 1];
            var present := |s.accepted| - |s.delivered|;
            && r.accepted == s.accepted && 0 <= present && q in r.pcs
            && if present == 0 && s.writeopen then
                 r.delivered == s.delivered && (r.pcs[q].Idle? <==> steps[b].killed)
               else
                 |r.delivered| == |s.delivered| + Min(n, present) && r.delivered == s.accepted[..|r.delivered|]
                 && r.pcs[q] == Waking(Read(n), NWRITE, false)
  {
    ReadRun(states, steps, a, b, q, n);
    RunInv(states, steps, b);
    RunInv(states, steps, b + 1);
    assert Follows(states, steps, b);
    hide Ring.Queue, Ring.PutAll, Ring.AdvanceBy, Ring.Valid, Ends, FreedOnce, WritersWait, MayStart, GoWrite, GoClose;
    CountersCount(states[b].ring);
  }

  // ---------------------------------------------------------------- close

  /** Process q is on its way to free the page. */
  predicate WillFree(pc: Pc) { pc.Freeing? || ((pc.Waking? || pc.Leaving?) && pc.op.Close?) }

  ghost predicate NotLeaked(s: Sys) {
    !s.readopen && !s.writeopen ==> s.frees == 1 || exists q :: q in s.pcs && WillFree(s.pcs[q])
  }

  lemma StepNotLeaked(s: Sys, st: Step)
    requires Inv(s) && NotLeaked(s) && Enabled(s, st)
    ensures NotLeaked(Next(s, st))
  {
    hide Fifo, WritersWait, Ring.Queue, Ring.PutAll, Ring.AdvanceBy, Ring.Valid, MayStart, Roused;
    var r := Next(s, st);
    if !r.readopen && !r.writeopen && !(st.Free? || (st.Go? && s.pcs[st.q].op.Close?)) {
      if s.frees != 1 {
        var q :| q in s.pcs && WillFree(s.pcs[q]);
        if q == st.q {
          assert WillFree(r.pcs[q]);
        } else {
          OtherMoves(s, st, q);
          assert WillFree(r.pcs[q]);
        }
      }
    } else if st.Go? && s.pcs[st.q].op.Close? {
      assert WillFree(r.pcs[st.q]);
    }
  }

  lemma {:induction false} RunNotLeaked(states: seq<Sys>, steps: seq<Step>, k: nat)
    requires IsRun(states, steps) && k <= |steps|
    ensures NotLeaked(states[k])
  {
    hide Inv, Next, Enabled, NotLeaked;
    if k == 0 {
      InitNotLeaked(states[0]);
    } else {
      RunNotLeaked(states, steps, k - 1);
      RunInv(states, steps, k - 1);
      assert Follows(states, steps, k - 1);
      StepNotLeaked(states[k - 1], steps[k - 1]);
    }
  }

  lemma InitNotLeaked(s: Sys)
    requires Init(s)
    ensures NotLeaked(s) && Closing(s)
  {
  }

  /** An end that is to be closed, and is not yet, has a process that will. */
  ghost predicate Closing(s: Sys) {
    forall end: bool | end in s.closed && s.closed[end] && s.Open(end) :: exists q :: WillClose(s, q, end)
  }

  predicate WillClose(s: Sys, q: int, end: bool) {
    q in s.pcs && (s.pcs[q] == Entering(Close(end)) || s.pcs[q] == Inside(Close(end)))
  }

  lemma StepClosing(s: Sys, st: Step)
    requires Inv(s) && Closing(s) && Enabled(s, st)
    ensures Closing(Next(s, st))
  {
    hide Fifo, WritersWait, Ring.Queue, Ring.PutAll, Ring.AdvanceBy, Ring.Valid, FreedOnce, Roused;
    var r := Next(s, st);
    forall end: bool | end in r.closed && r.closed[end] && r.Open(end) ensures exists q :: WillClose(r, q, end) {
      if st.Start? && st.op == Close(end) {
        assert WillClose(r, st.q, end);
      } else {
        var q :| WillClose(s, q, end);
        if q != st.q {
          OtherMoves(s, st, q);
        }
        assert WillClose(r, q, end);
      }
    }
  }

  lemma {:induction false} RunClosing(states: seq<Sys>, steps: seq<Step>, k: nat)
    requires IsRun(states, steps) && k <= |steps|
    ensures Closing(states[k])
  {
    hide Inv, Next, Enabled, Closing;
    if k == 0 {
      InitNotLeaked(states[0]);
    } else {
      RunClosing(states, steps, k - 1);
      RunInv(states, steps, k - 1);
      assert Follows(states, steps, k - 1);
      StepClosing(states[k - 1], steps[k - 1]);
    }
  }

  /** In every run: when no process is in a call, the page has been freed, once, if and only if both ends have
      been closed. */
  lemma FreedIffBothClosed(states: seq<Sys>, steps: seq<Step>, k: nat)
    requires IsRun(states, steps) && k <= |steps| && forall q | q in states[k].pcs :: states[k].pcs[q].Idle?
    ensures states[k].closed.Keys == {true, false}
    ensures states[k].frees == if states[k].closed[true] && states[k].closed[false] then 1 else 0
  {
    RunInv(states, steps, k);
    RunNotLeaked(states, steps, k);
    RunClosing(states, steps, k);
  }

  // ---------------------------------------------------------------- no deadlock

  /** In a call, and not asleep. */
  predicate Awake(pc: Pc) { !pc.Idle? && !pc.Asleep? }

  /** A step by which a process goes on with its call. */
  predicate GoesOn(st: Step) { !st.Start? && !st.Kick? }

  lemma OneCanStep(s: Sys, q: int) returns (st: Step)
    requires s.ring.Valid() && q in s.pcs && Awake(s.pcs[q]) && PcOk(s.pcs[q])
    requires (s.table.Some? ==> s.table == Some(q)) && (HoldsTable(s.pcs[q]) <==> s.table == Some(q))
    requires s.lock.Some? && s.table.None? ==> Holds(s.pcs[q])
    ensures GoesOn(st) && Enabled(s, st)
  {
    hide Ring.Valid;
    st := match s.pcs[q]
      case Inside(_) => Go(q, false)
      case Waking(_, _, _) => Wakeup(q)
      case Leaving(_) => Leave(q)
      case Sleepy(_) => Doze(q)
      case Dozing(_) => Drop(q)
      case Falling(_) => Fall(q)
      case Freeing => Free(q)
      case _ => Acquire(q);
  }

  /** In every run: while some process is in a call and awake, some process can go on with its call. */
  lemma NoDeadlock(states: seq<Sys>, steps: seq<Step>, k: nat, q: int) returns (st: Step)
    requires IsRun(states, steps) && k <= |steps| && q in states[k].pcs && Awake(states[k].pcs[q])
    ensures GoesOn(st) && Enabled(states[k], st)
  {
    RunInv(states, steps, k);
    var s := states[k];
    hide Enabled, PcOk, Ring.Valid, WritersWait, Ends, FreedOnce;
    st := OneCanStep(s, if s.table.Some? then s.table.value else if s.lock.Some? then s.lock.value else q);
  }
}
