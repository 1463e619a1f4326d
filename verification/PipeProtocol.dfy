/** Any number of processes using one pipe. A step of a process is a stretch of code between two points
    where it takes or gives up the pipe's lock or ptable.lock; a process that sleeps holds ptable.lock
    from before it gives up the pipe's lock until it is marked asleep. */
module PipeProtocol {
  import opened Basics
  import opened PipeRing
  import opened PipeCode

  datatype Op = Write(addr: seq<byte>, i: nat) | Read(n: nat) | Close(writable: bool) {
    predicate Ok() { Write? ==> i <= |addr| }
    /** The end of the pipe the operation is on. */
    function End(): bool { Write? || (Close? && writable) }
  }

  /** The two addresses processes sleep on. */
  datatype Chan = NREAD | NWRITE

  datatype Pc =
    | Idle
    | Entering(op: Op)                       // acquire(&p->lock), at the start or at the end of sleep
    | Inside(op: Op)
    | Waking(op: Op, chan: Chan, more: bool) // wakeup(chan), then sleep or leave
    | Leaving(op: Op)
    | Sleepy(op: Op)                         // sleep: acquire(&ptable.lock)
    | Dozing(op: Op)                         // sleep: release(&p->lock)
    | Falling(op: Op)                        // sleep: state = SLEEPING
    | Asleep(op: Op)
    | Freeing                                // kfree, after the lock is released

  predicate Holds(pc: Pc) { pc.Inside? || pc.Waking? || pc.Leaving? || pc.Sleepy? || pc.Dozing? }
  predicate HoldsTable(pc: Pc) { pc.Dozing? || pc.Falling? }

  /** Committed to sleep, or asleep. */
  predicate Waits(pc: Pc) { pc.Sleepy? || pc.Dozing? || pc.Falling? || pc.Asleep? || (pc.Waking? && pc.more) }
  predicate Reads(pc: Pc) { Waits(pc) && pc.op.Read? }
  predicate Writes(pc: Pc) { Waits(pc) && pc.op.Write? }
  predicate Busy(pc: Pc) { !pc.Idle? && !pc.Freeing? }

  datatype Sys = Sys(ring: Ring, readopen: bool, writeopen: bool, lock: Option<int>, table: Option<int>,
                     pcs: map<int, Pc>, accepted: seq<byte>, delivered: seq<byte>,
                     closed: map<bool, bool>, frees: nat) {
    predicate Open(end: bool) { if end then writeopen else readopen }
    function Queue(): seq<byte>
      requires ring.Valid()
    {
      ring.Queue()
    }
  }

  datatype Step =
    | Start(q: int, op: Op)
    | Acquire(q: int)
    | Go(q: int, killed: bool)
    | Wakeup(q: int)
    | Leave(q: int)
    | Doze(q: int)
    | Drop(q: int)
    | Fall(q: int)
    | Kick(q: int)  // kill, or a wakeup on a channel that happens to be the same
    | Free(q: int)

  function ChanOf(op: Op): Chan { if op.Read? then NREAD else NWRITE }

  /** The file layer closes an end once, when no process is using it, and does not use it again. */
  ghost predicate MayStart(s: Sys, op: Op)
  {
    && (op.Write? ==> op.i == 0) && op.End() in s.closed && !s.closed[op.End()]
    && (op.Close? ==> forall q | q in s.pcs && Busy(s.pcs[q]) :: s.pcs[q].op.End() != op.End())
  }

  ghost predicate Enabled(s: Sys, st: Step) {
    && s.ring.Valid() && st.q in s.pcs
    && var pc := s.pcs[st.q];
       match st
       case Start(_, op) => pc.Idle? && MayStart(s, op)
       case Acquire(_) => pc.Entering? && s.lock.None?
       case Go(_, _) => pc.Inside? && pc.op.Ok()
       case Wakeup(_) => pc.Waking? && s.table.None?
       case Leave(_) => pc.Leaving?
       case Doze(_) => pc.Sleepy? && s.table.None?
       case Drop(_) => pc.Dozing?
       case Fall(_) => pc.Falling?
       case Kick(_) => pc.Asleep? && s.table.None?
       case Free(_) => pc.Freeing?
  }

  ghost function To(s: Sys, q: int, pc: Pc): Sys { s.(pcs := s.pcs[q := pc]) }

  /** wakeup1: every process asleep on the channel becomes runnable. */
  function Roused(pcs: map<int, Pc>, chan: Chan): (r: map<int, Pc>)
    ensures r.Keys == pcs.Keys
  {
    map q | q in pcs :: if pcs[q].Asleep? && ChanOf(pcs[q].op) == chan then Entering(pcs[q].op) else pcs[q]
  }

  ghost function GoWrite(s: Sys, q: int, op: Op, killed: bool): Sys
    requires s.ring.Valid() && op.Write? && op.Ok()
  {
    var j := Min(|op.addr|, op.i + PIPESIZE - |s.Queue()|);
    var t := s.(ring := s.ring.PutAll(op.addr[op.i..j]), accepted := s.accepted + op.addr[op.i..j]);
    match AtFull(j < |op.addr|, s.readopen, killed)
    case Done => To(t, q, Waking(op, NREAD, false))
    case Sleeps => To(t, q, Waking(Write(op.addr, j), NREAD, true))
    case Killed => To(t, q, Idle).(lock := None)
  }

  ghost function GoRead(s: Sys, q: int, op: Op, killed: bool): Sys
    requires s.ring.Valid() && op.Read?
  {
    if s.ring.Empty() && s.writeopen then
      (if killed then To(s, q, Idle).(lock := None) else To(s, q, Sleepy(op)))
    else
      var k := Min(op.n, |s.Queue()|);
      To(s.(ring := s.ring.AdvanceBy(k), delivered := s.delivered + s.Queue()[..k]), q, Waking(op, NWRITE, false))
  }

  ghost function GoClose(s: Sys, q: int, op: Op): Sys
    requires op.Close?
  {
    To(s.(readopen := s.readopen && op.writable, writeopen := s.writeopen && !op.writable),
       q, Waking(op, if op.writable then NREAD else NWRITE, false))
  }

  ghost function Next(s: Sys, st: Step): Sys
    requires Enabled(s, st)
  {
    var q, pc := st.q, s.pcs[st.q];
    match st
    case Start(_, op) =>
      To(s, q, Entering(op)).(closed := if op.Close? then s.closed[op.End() := true] else s.closed)
    case Acquire(_) => To(s, q, Inside(pc.op)).(lock := Some(q))
    case Go(_, killed) =>
      (match pc.op
       case Write(_, _) => GoWrite(s, q, pc.op, killed)
       case Read(_) => GoRead(s, q, pc.op, killed)
       case Close(_) => GoClose(s, q, pc.op))
    case Wakeup(_) =>
      s.(pcs := Roused(s.pcs, pc.chan)[q := if pc.more then Sleepy(pc.op) else Leaving(pc.op)])
    case Leave(_) =>
      To(s, q, if pc.op.Close? && !s.readopen && !s.writeopen then Freeing else Idle).(lock := None)
    case Doze(_) => To(s, q, Dozing(pc.op)).(table := Some(q))
    case Drop(_) => To(s, q, Falling(pc.op)).(lock := None)
    case Fall(_) => To(s, q, Asleep(pc.op)).(table := None)
    case Kick(_) => To(s, q, Entering(pc.op))
    case Free(_) => To(s, q, Idle).(frees := s.frees + 1)
  }

  ghost predicate Init(s: Sys) {
    && s.ring.Valid() && s.ring.Queue() == [] && s.readopen && s.writeopen && s.lock.None? && s.table.None?
    && s.accepted == [] && s.delivered == [] && s.closed == map[true := false, false := false] && s.frees == 0
    && forall q | q in s.pcs :: s.pcs[q].Idle?
  }

  // ---------------------------------------------------------------- invariants

  /** What came out, then what is in the pipe, is what went in. */
  ghost predicate Fifo(s: Sys) { s.ring.Valid() && s.delivered + s.Queue() == s.accepted }

  predicate PcOk(pc: Pc) {
    && (Busy(pc) ==> pc.op.Ok())
    && (Waits(pc) ==> !pc.op.Close?)
    && (pc.Waking? && pc.more ==> pc.op.Write? && pc.chan == NREAD)
  }

  /** Each lock has the one holder its processes' positions say. */
  ghost predicate LocksOf(lock: Option<int>, table: Option<int>, pcs: map<int, Pc>) {
    && (lock.Some? ==> lock.value in pcs) && (table.Some? ==> table.value in pcs)
    && (forall q | q in pcs :: PcOk(pcs[q]))
    && (forall q | q in pcs :: Holds(pcs[q]) <==> lock == Some(q))
    && (forall q | q in pcs :: HoldsTable(pcs[q]) <==> table == Some(q))
  }

  ghost predicate Locks(s: Sys) { LocksOf(s.lock, s.table, s.pcs) }

  /** The holder of the lock is about to wake up the sleepers on a channel. */
  ghost predicate Pending(s: Sys, chan: Chan) {
    s.lock.Some? && s.lock.value in s.pcs && s.pcs[s.lock.value].Waking? && s.pcs[s.lock.value].chan == chan
  }

  ghost predicate WritersWait(s: Sys)
    requires s.ring.Valid()
  {
    forall q | q in s.pcs && Writes(s.pcs[q]) :: (s.ring.Full() && s.readopen) || Pending(s, NWRITE)
  }

  ghost predicate ReadersWait(s: Sys)
    requires s.ring.Valid()
  {
    forall q | q in s.pcs && Reads(s.pcs[q]) :: (s.ring.Empty() && s.writeopen) || Pending(s, NREAD)
  }

  /** The ends: an end that is closed, or being closed, has no other user. */
  ghost predicate Ends(s: Sys) {
    && s.closed.Keys == {true, false}
    && (forall end: bool :: !s.Open(end) ==> s.closed[end])
    && (forall q | q in s.pcs && Busy(s.pcs[q]) :: EndOk(s, q, s.pcs[q]))
  }

  ghost predicate EndOk(s: Sys, q: int, pc: Pc)
    requires s.closed.Keys == {true, false} && Busy(pc)
  {
    && (pc.op.Close? <==> s.closed[pc.op.End()])
    && (pc.op.Close? ==> (s.Open(pc.op.End()) <==> pc.Entering? || pc.Inside?))
    && (pc.op.Close? ==> forall p | p in s.pcs && p != q && Busy(s.pcs[p]) :: s.pcs[p].op.End() != pc.op.End())
  }

  /** The page of the pipe is freed once, and nobody uses the pipe from then on. */
  ghost predicate FreedOnce(s: Sys) {
    && s.closed.Keys == {true, false} && s.frees <= 1
    && (forall q | q in s.pcs && s.pcs[q].Freeing? ::
          s.frees == 0 && s.closed[true] && s.closed[false] && forall p | p in s.pcs && p != q :: s.pcs[p].Idle?)
    && (s.frees == 1 ==> s.closed[true] && s.closed[false] && forall p | p in s.pcs :: s.pcs[p].Idle?)
  }

  ghost predicate Inv(s: Sys) {
    Fifo(s) && Locks(s) && WritersWait(s) && Ends(s) && FreedOnce(s)
  }

  lemma CountAtMost(r: Ring)
    requires r.Valid()
    ensures |r.Queue()| <= PIPESIZE
  {
  }

  lemma InitInv(s: Sys)
    requires Init(s)
    ensures Inv(s) && ReadersWait(s)
  {
  }

  lemma WriteFifo(s: Sys, q: int, op: Op, killed: bool)
    requires Fifo(s) && op.Write? && op.Ok()
    ensures Fifo(GoWrite(s, q, op, killed))
  {
    hide Ring.Queue, Ring.PutAll, Ring.Valid;
    var j := Min(|op.addr|, op.i + PIPESIZE - |s.Queue()|);
    CountAtMost(s.ring);
    PutAllAppends(s.ring, op.addr[op.i..j]);
  }

  lemma ReadFifo(s: Sys, q: int, op: Op, killed: bool)
    requires Fifo(s) && op.Read?
    ensures Fifo(GoRead(s, q, op, killed))
  {
    hide Ring.Queue, Ring.AdvanceBy, Ring.Valid;
    if !(s.ring.Empty() && s.writeopen) {
      var k := Min(op.n, |s.Queue()|);
      AdvanceTakesFront(s.ring, k);
      assert s.Queue() == s.Queue()[..k] + s.Queue()[k..];
    }
  }

  lemma StepFifo(s: Sys, st: Step)
    requires Fifo(s) && Enabled(s, st)
    ensures Fifo(Next(s, st))
  {
    hide Ring.Queue, Ring.AdvanceBy, Ring.PutAll, Ring.Valid, GoWrite, GoRead, MayStart;
    if st.Go? {
      var op := s.pcs[st.q].op;
      if op.Write? {
        WriteFifo(s, st.q, op, st.killed);
      } else if op.Read? {
        ReadFifo(s, st.q, op, st.killed);
      }
    }
  }

  lemma MoveLocks(lock: Option<int>, table: Option<int>, pcs: map<int, Pc>, q: int, pc: Pc)
    requires LocksOf(lock, table, pcs) && q in pcs && PcOk(pc)
    requires Holds(pc) ==> lock.None? || lock == Some(q)
    requires HoldsTable(pc) ==> table.None? || table == Some(q)
    ensures LocksOf(Passed(lock, q, Holds(pc)), Passed(table, q, HoldsTable(pc)), pcs[q := pc])
  {
  }

  lemma RouseLocks(lock: Option<int>, table: Option<int>, pcs: map<int, Pc>, chan: Chan)
    requires LocksOf(lock, table, pcs)
    ensures LocksOf(lock, table, Roused(pcs, chan))
  {
  }

  /** A step moves one process, after a wakeup of others in one case, and passes its locks on. */
  ghost predicate Moved(s: Sys, st: Step, t: Sys)
    requires Enabled(s, st)
  {
    && var pcs := if st.Wakeup? then Roused(s.pcs, s.pcs[st.q].chan) else s.pcs;
       st.q in t.pcs && var pc := t.pcs[st.q];
       && t.pcs == pcs[st.q := pc] && PcOk(pc)
       && t.lock == Passed(s.lock, st.q, Holds(pc)) && t.table == Passed(s.table, st.q, HoldsTable(pc))
       && (Holds(pc) ==> s.lock.None? || s.lock == Some(st.q))
       && (HoldsTable(pc) ==> s.table.None? || s.table == Some(st.q))
  }

  lemma GoMoves(s: Sys, st: Step)
    requires Locks(s) && Enabled(s, st) && st.Go?
    ensures Moved(s, st, Next(s, st))
  {
    hide Ring.Queue, Ring.PutAll, Ring.AdvanceBy, Ring.Valid, Ring.Count, Ring.Sized, Plus, MayStart;
    var q, op := st.q, s.pcs[st.q].op;
    assert s.lock == Some(q) && s.table != Some(q);
    hide LocksOf;
    if op.Write? {
      hide GoRead, GoClose;
      WritePc(s, q, op, st.killed);
      hide GoWrite;
    } else if op.Read? {
      hide GoWrite, GoClose;
    } else {
      hide GoWrite, GoRead;
    }
  }

  lemma WritePc(s: Sys, q: int, op: Op, killed: bool)
    requires s.ring.Valid() && op.Write? && op.Ok()
    ensures var t := GoWrite(s, q, op, killed);
            && q in t.pcs && t.pcs == s.pcs[q := t.pcs[q]] && PcOk(t.pcs[q]) && t.table == s.table
            && ((t.pcs[q] == Idle && t.lock == None) || (t.pcs[q].Waking? && t.lock == s.lock))
  {
    hide Ring.PutAll, Plus, Ring.Queue;
    CountAtMost(s.ring);
  }

  lemma StepMoves(s: Sys, st: Step)
    requires Locks(s) && Enabled(s, st)
    ensures Moved(s, st, Next(s, st))
  {
    hide Ring.Queue, Ring.PutAll, Ring.AdvanceBy, Ring.Valid, Roused, GoWrite, GoRead, GoClose;
    if st.Go? {
      GoMoves(s, st);
    } else {
      assert PcOk(s.pcs[st.q]);
      assert Holds(s.pcs[st.q]) <==> s.lock == Some(st.q);
      assert HoldsTable(s.pcs[st.q]) <==> s.table == Some(st.q);
      hide LocksOf;
    }
  }

  lemma StepLocks(s: Sys, st: Step)
    requires Locks(s) && Enabled(s, st)
    ensures Locks(Next(s, st))
  {
    StepMoves(s, st);
    var t := Next(s, st);
    hide *;
    MovedLocks(s, st, t);
  }

  lemma MovedLocks(s: Sys, st: Step, t: Sys)
    requires Locks(s) && Enabled(s, st) && Moved(s, st, t)
    ensures Locks(t)
  {
    hide PcOk, LocksOf, Passed, Ring.Valid, MayStart;
    assert LocksOf(s.lock, s.table, s.pcs);
    if st.Wakeup? {
      RouseLocks(s.lock, s.table, s.pcs, s.pcs[st.q].chan);
      MoveLocks(s.lock, s.table, Roused(s.pcs, s.pcs[st.q].chan), st.q, t.pcs[st.q]);
    } else {
      MoveLocks(s.lock, s.table, s.pcs, st.q, t.pcs[st.q]);
    }
  }

  /** A writer that goes to sleep has filled the pipe. */
  lemma WriteFills(s: Sys, op: Op)
    requires s.ring.Valid() && op.Write? && op.Ok()
    ensures var j := Min(|op.addr|, op.i + PIPESIZE - |s.Queue()|);
            var r := s.ring.PutAll(op.addr[op.i..j]);
            && op.i <= j && r.Valid() && |r.Queue()| == |s.Queue()| + j - op.i
            && (j < |op.addr| ==> r.Full())
  {
    var j := Min(|op.addr|, op.i + PIPESIZE - |s.Queue()|);
    PutAllAppends(s.ring, op.addr[op.i..j]);
    CountersCount(s.ring.PutAll(op.addr[op.i..j]));
  }

  lemma GoWritersWait(s: Sys, st: Step)
    requires Fifo(s) && Locks(s) && WritersWait(s) && Ends(s) && Enabled(s, st) && st.Go?
    ensures Fifo(Next(s, st)) && WritersWait(Next(s, st))
  {
    StepFifo(s, st);
    hide Ring.Queue, Ring.PutAll, Ring.AdvanceBy, Plus, MayStart;
    var op := s.pcs[st.q].op;
    if op.Write? {
      hide GoRead, GoClose;
      WriteFills(s, op);
      CountersCount(s.ring);
      CountersCount(Next(s, st).ring);
    } else if op.Read? {
      hide GoWrite, GoClose;
    } else {
      hide GoWrite, GoRead;
    }
  }

  lemma StepWritersWait(s: Sys, st: Step)
    requires Fifo(s) && Locks(s) && WritersWait(s) && Ends(s) && Enabled(s, st)
    ensures Fifo(Next(s, st)) && WritersWait(Next(s, st))
  {
    StepFifo(s, st);
    hide Ring.Queue, Ring.PutAll, Ring.AdvanceBy, Ring.Count, Plus, GoWrite, GoRead, GoClose, MayStart, Ends;
    if st.Go? {
      GoWritersWait(s, st);
    }
  }

  lemma GoEnds(s: Sys, st: Step)
    requires Ends(s) && Locks(s) && Enabled(s, st) && st.Go?
    ensures Ends(Next(s, st))
  {
    hide Ring.Queue, Ring.PutAll, Ring.AdvanceBy, Ring.Valid, MayStart, PcOk;
    var op := s.pcs[st.q].op;
    if op.Write? {
      hide GoRead, GoClose;
    } else if op.Read? {
      hide GoWrite, GoClose;
    } else {
      hide GoWrite, GoRead;
    }
  }

  lemma WakeupEnds(s: Sys, st: Step)
    requires Ends(s) && Locks(s) && Enabled(s, st) && st.Wakeup?
    ensures Ends(Next(s, st))
  {
    hide Ring.Queue, Ring.PutAll, Ring.AdvanceBy, Ring.Valid, GoWrite, GoRead, GoClose, MayStart;
  }

  lemma StartEnds(s: Sys, st: Step)
    requires Ends(s) && Locks(s) && FreedOnce(s) && Enabled(s, st) && st.Start?
    ensures Ends(Next(s, st))
  {
    hide Ring.Queue, Ring.PutAll, Ring.AdvanceBy, Ring.Valid, GoWrite, GoRead, GoClose, Roused;
  }

  lemma StepEnds(s: Sys, st: Step)
    requires Ends(s) && Locks(s) && FreedOnce(s) && Enabled(s, st)
    ensures Ends(Next(s, st))
  {
    hide Ring.Queue, Ring.PutAll, Ring.AdvanceBy, Ring.Valid, GoWrite, GoRead, GoClose, Roused, MayStart;
    if st.Start? {
      StartEnds(s, st);
    } else if st.Go? {
      GoEnds(s, st);
    } else if st.Wakeup? {
      WakeupEnds(s, st);
    }
  }

  lemma GoFreedOnce(s: Sys, st: Step)
    requires FreedOnce(s) && Enabled(s, st) && st.Go?
    ensures FreedOnce(Next(s, st))
  {
    hide Ring.Queue, Ring.PutAll, Ring.AdvanceBy, Ring.Valid;
  }

  lemma StepFreedOnce(s: Sys, st: Step)
    requires Ends(s) && Locks(s) && FreedOnce(s) && Enabled(s, st)
    ensures FreedOnce(Next(s, st))
  {
    hide Ring.Queue, Ring.PutAll, Ring.AdvanceBy, Ring.Valid, GoWrite, GoRead, GoClose;
    if st.Go? {
      GoFreedOnce(s, st);
    }
  }

  lemma StepInv(s: Sys, st: Step)
    requires Inv(s) && Enabled(s, st)
    ensures Inv(Next(s, st))
  {
    StepFifo(s, st);
    StepLocks(s, st);
    StepWritersWait(s, st);
    StepEnds(s, st);
    StepFreedOnce(s, st);
  }

  // ---------------------------------------------------------------- sleeping readers

  /** A killed writer fills the pipe with some of its bytes and returns without a wakeup, while a reader
      waits: the branch of pipewrite at a full pipe, with bytes copied since the lock was taken. */
  ghost predicate Silent(s: Sys, st: Step)
    requires Enabled(s, st)
  {
    && st.Go? && st.killed && s.pcs[st.q].op.Write? && s.readopen
    && 0 < PIPESIZE - |s.Queue()| < |s.pcs[st.q].op.addr| - s.pcs[st.q].op.i
    && exists q :: q in s.pcs && Reads(s.pcs[q])
  }

  lemma NoReaderOnceClosed(s: Sys)
    requires Ends(s) && Locks(s) && !s.readopen
    ensures forall q | q in s.pcs :: !Reads(s.pcs[q])
  {
    assert !s.Open(false);
  }

  lemma WriterKeepsReaders(s: Sys, st: Step)
    requires Inv(s) && ReadersWait(s) && Enabled(s, st) && st.Go? && s.pcs[st.q].op.Write?
    ensures Fifo(Next(s, st)) && (ReadersWait(Next(s, st)) <==> !Silent(s, st))
  {
    StepFifo(s, st);
    hide Ring.Queue, Ring.PutAll, Ring.AdvanceBy, Roused, GoRead, GoClose, WritersWait, FreedOnce, Ends;
    WriteFills(s, s.pcs[st.q].op);
    CountersCount(s.ring);
    CountersCount(Next(s, st).ring);
    assert !Pending(s, NREAD);
    if !s.readopen {
      NoReaderOnceClosed(s);
    }
    if Silent(s, st) {
      SilentStrands(s, st);
    }
  }

  /** A step leaves every waiting reader in front of an empty pipe that may still be written to, or
      about to be woken, unless the step is a silent one. */
  lemma StepReadersWait(s: Sys, st: Step)
    requires Inv(s) && ReadersWait(s) && Enabled(s, st)
    ensures Fifo(Next(s, st)) && (ReadersWait(Next(s, st)) <==> !Silent(s, st))
  {
    StepFifo(s, st);
    hide Ring.Queue, Ring.PutAll, Ring.AdvanceBy, GoWrite, WritersWait, FreedOnce, EndOk;
    if st.Go? && s.pcs[st.q].op.Write? {
      WriterKeepsReaders(s, st);
    }
  }

  /** With the lock free, a reader asleep on a pipe that has bytes or no writer left. */
  ghost predicate Stranded(s: Sys)
    requires s.ring.Valid()
  {
    s.lock.None? && (exists q :: q in s.pcs && Reads(s.pcs[q])) && !(s.ring.Empty() && s.writeopen)
  }

  lemma SilentStrands(s: Sys, st: Step)
    requires Inv(s) && Enabled(s, st) && Silent(s, st)
    ensures Fifo(Next(s, st)) && Stranded(Next(s, st))
  {
    StepFifo(s, st);
    hide Ring.Queue, Ring.PutAll, Ring.AdvanceBy, Roused, GoRead, GoClose, WritersWait, FreedOnce, Ends;
    WriteFills(s, s.pcs[st.q].op);
    CountersCount(s.ring);
    CountersCount(Next(s, st).ring);
    var q :| q in s.pcs && Reads(s.pcs[q]);
    assert q in Next(s, st).pcs && Reads(Next(s, st).pcs[q]);
  }

  // ---------------------------------------------------------------- whole runs

  ghost predicate IsRun(states: seq<Sys>, steps: seq<Step>) {
    && |states| == |steps| + 1 && Init(states[0])
    && forall i | 0 <= i < |steps| :: Follows(states, steps, i)
  }

  ghost predicate Follows(states: seq<Sys>, steps: seq<Step>, i: int)
    requires |states| == |steps| + 1 && 0 <= i < |steps|
  {
    Enabled(states[i], steps[i]) && states[i + 1] == Next(states[i], steps[i])
  }

  lemma {:induction false} RunInv(states: seq<Sys>, steps: seq<Step>, k: nat)
    requires IsRun(states, steps) && k <= |steps|
    ensures Inv(states[k])
  {
    hide Inv, Init, Next, Enabled;
    if k == 0 {
      InitInv(states[0]);
    } else {
      RunInv(states, steps, k - 1);
      assert Follows(states, steps, k - 1);
      StepInv(states[k - 1], steps[k - 1]);
    }
  }

  /** In every run: what is delivered is a prefix of what is accepted, with at most 512 bytes between. */
  lemma DeliveredInOrder(states: seq<Sys>, steps: seq<Step>, k: nat)
    requires IsRun(states, steps) && k <= |steps|
    ensures states[k].delivered <= states[k].accepted
    ensures |states[k].accepted| - |states[k].delivered| <= PIPESIZE
  {
    RunInv(states, steps, k);
    CountAtMost(states[k].ring);
  }

  /** In every run: with the lock free, a sleeping writer faces a full pipe that may still be read. */
  lemma WriterSleepsOnlyWhenFull(states: seq<Sys>, steps: seq<Step>, k: nat, q: int)
    requires IsRun(states, steps) && k <= |steps|
    requires states[k].lock.None? && q in states[k].pcs && states[k].pcs[q].Asleep? && states[k].pcs[q].op.Write?
    ensures states[k].ring.Valid() && |states[k].Queue()| == PIPESIZE && states[k].readopen
  {
    RunInv(states, steps, k);
    CountersCount(states[k].ring);
    assert Writes(states[k].pcs[q]);
  }

  /** In every run: the page is freed at most once, and no process is inside afterwards. */
  lemma FreedAtMostOnce(states: seq<Sys>, steps: seq<Step>, k: nat)
    requires IsRun(states, steps) && k <= |steps|
    ensures states[k].frees <= 1
    ensures states[k].frees == 1 ==> forall q | q in states[k].pcs :: states[k].pcs[q].Idle?
  {
    RunInv(states, steps, k);
  }

  lemma {:induction false} RunReadersWait(states: seq<Sys>, steps: seq<Step>, k: nat)
    requires IsRun(states, steps) && k <= |steps|
    requires forall i | 0 <= i < k :: Enabled(states[i], steps[i]) && !Silent(states[i], steps[i])
    ensures states[k].ring.Valid() && ReadersWait(states[k])
  {
    hide Inv, Init, Next, Enabled, Silent, ReadersWait, Ring.Valid;
    if k == 0 {
      InitInv(states[0]);
      InvRing(states[0]);
    } else {
      RunReadersWait(states, steps, k - 1);
      assert Follows(states, steps, k - 1);
      RunInv(states, steps, k - 1);
      RunInv(states, steps, k);
      InvRing(states[k]);
      StepReadersWait(states[k - 1], steps[k - 1]);
    }
  }

  lemma InvRing(s: Sys)
    requires Inv(s)
    ensures s.ring.Valid() && Fifo(s)
  {
  }

  lemma NotStranded(s: Sys)
    requires s.ring.Valid() && ReadersWait(s)
    ensures !Stranded(s)
  {
  }

  /** In a run, with the lock free, every sleeping reader faces an empty pipe that may still be written
      to, if and only if no killed writer left the pipe full without a wakeup while a reader waited. */
  lemma ReadersStrandedOnlyByKilledWriter(states: seq<Sys>, steps: seq<Step>)
    requires IsRun(states, steps)
    ensures forall i | 0 <= i < |steps| :: Enabled(states[i], steps[i])
    ensures forall k | 0 <= k < |states| :: states[k].ring.Valid()
    ensures (forall k | 0 <= k < |states| :: !Stranded(states[k]))
            <==> (forall i | 0 <= i < |steps| :: !Silent(states[i], steps[i]))
  {
    forall i | 0 <= i < |steps| ensures Enabled(states[i], steps[i]) { assert Follows(states, steps, i); }
    forall k | 0 <= k < |states| ensures Inv(states[k]) && states[k].ring.Valid() && Fifo(states[k]) {
      RunInv(states, steps, k);
      InvRing(states[k]);
    }
    hide Inv, Init, Next, Enabled, Silent, ReadersWait, Ring.Valid, Stranded, Fifo;
    if i :| 0 <= i < |steps| && Silent(states[i], steps[i]) {
      assert Follows(states, steps, i);
      assert Fifo(states[i + 1]);
      SilentStrands(states[i], steps[i]);
    }
    if forall i | 0 <= i < |steps| :: !Silent(states[i], steps[i]) {
      forall k | 0 <= k < |states| ensures !Stranded(states[k]) {
        RunReadersWait(states, steps, k);
        NotStranded(states[k]);
      }
    }
  }

  // ---------------------------------------------------------------- the stranded reader

  function NewRing(): (r: Ring)
    ensures r.Valid() && r.Queue() == [] && r.Empty()
  {
    Ring(seq(PIPESIZE, _ => 0), 0, 0)
  }

  function Two(reader: Pc, writer: Pc, lock: Option<int>, table: Option<int>): Sys {
    Sys(NewRing(), true, true, lock, table, map[1 := reader, 2 := writer], [], [],
        map[true := false, false := false], 0)
  }

  ghost predicate Leads(a: Sys, st: Step, b: Sys) { Enabled(a, st) && Next(a, st) == b }

  lemma ReaderEnters(r: Op)
    requires r.Read?
    ensures Leads(Two(Idle, Idle, None, None), Start(1, r), Two(Entering(r), Idle, None, None))
    ensures Leads(Two(Entering(r), Idle, None, None), Acquire(1), Two(Inside(r), Idle, Some(1), None))
    ensures Leads(Two(Inside(r), Idle, Some(1), None), Go(1, false), Two(Sleepy(r), Idle, Some(1), None))
  {
    hide Ring.Queue, Ring.PutAll, Ring.AdvanceBy, Roused, NewRing, Ring.Valid, Ring.Empty, GoWrite, GoClose;
  }

  lemma ReaderDozes(r: Op)
    ensures Leads(Two(Sleepy(r), Idle, Some(1), None), Doze(1), Two(Dozing(r), Idle, Some(1), Some(1)))
    ensures Leads(Two(Dozing(r), Idle, Some(1), Some(1)), Drop(1), Two(Falling(r), Idle, None, Some(1)))
  {
    hide Ring.Queue, Roused, NewRing, Ring.Valid, GoWrite, GoRead, GoClose, MayStart;
  }

  lemma ReaderFallsAsleep(r: Op)
    ensures Leads(Two(Falling(r), Idle, None, Some(1)), Fall(1), Two(Asleep(r), Idle, None, None))
  {
    hide Ring.Queue, Roused, NewRing, Ring.Valid, GoWrite, GoRead, GoClose, MayStart;
  }

  lemma WriterEnters(r: Op, w: Op)
    requires w.Write? && w.i == 0
    ensures Leads(Two(Asleep(r), Idle, None, None), Start(2, w), Two(Asleep(r), Entering(w), None, None))
    ensures Leads(Two(Asleep(r), Entering(w), None, None), Acquire(2), Two(Asleep(r), Inside(w), Some(2), None))
  {
    hide Ring.Queue, Roused, NewRing, Ring.Valid, GoWrite, GoRead, GoClose;
  }

  lemma WriterAborts(r: Op, w: Op) returns (b: Sys)
    requires w.Write? && w.i == 0 && |w.addr| > PIPESIZE
    ensures Leads(Two(Asleep(r), Inside(w), Some(2), None), Go(2, true), b)
    ensures b.pcs == map[1 := Asleep(r), 2 := Idle] && b.lock.None?
    ensures b.ring.Valid() && b.Queue() == w.addr[..PIPESIZE]
  {
    hide Ring.Queue, Ring.PutAll, Roused, GoRead, GoClose, MayStart;
    PutAllAppends(NewRing(), w.addr[0..PIPESIZE]);
    assert w.addr[0..PIPESIZE] == w.addr[..PIPESIZE];
    b := Next(Two(Asleep(r), Inside(w), Some(2), None), Go(2, true));
  }

  lemma FreshInit()
    ensures Init(Two(Idle, Idle, None, None))
  {
  }

  /** A reader sleeps; a killed writer puts in the first 512 of its bytes and returns -1: the reader
      sleeps on, with the lock free and the pipe full. */
  lemma KilledWriterStrandsReader(n: nat, addr: seq<byte>) returns (states: seq<Sys>, steps: seq<Step>)
    requires |addr| > PIPESIZE
    ensures IsRun(states, steps)
    ensures var s := states[|steps|]; s.pcs == map[1 := Asleep(Read(n)), 2 := Idle] && s.lock.None?
                                      && s.ring.Valid() && s.Queue() == addr[..PIPESIZE]
  {
    hide Ring.Queue, Ring.Valid, Next, Enabled, Two, Init;
    var r, w := Read(n), Write(addr, 0);
    FreshInit();
    ReaderEnters(r);
    ReaderDozes(r);
    ReaderFallsAsleep(r);
    WriterEnters(r, w);
    var b := WriterAborts(r, w);
    states := [Two(Idle, Idle, None, None), Two(Entering(r), Idle, None, None), Two(Inside(r), Idle, Some(1), None),
               Two(Sleepy(r), Idle, Some(1), None), Two(Dozing(r), Idle, Some(1), Some(1)),
               Two(Falling(r), Idle, None, Some(1)), Two(Asleep(r), Idle, None, None),
               Two(Asleep(r), Entering(w), None, None), Two(Asleep(r), Inside(w), Some(2), None), b];
    steps := [Start(1, r), Acquire(1), Go(1, false), Doze(1), Drop(1), Fall(1), Start(2, w), Acquire(2), Go(2, true)];
    forall i | 0 <= i < |steps| ensures Follows(states, steps, i) {
      assert Leads(states[i], steps[i], states[i + 1]);
    }
  }
}
