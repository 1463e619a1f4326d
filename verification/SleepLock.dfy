/** acquiresleep and releasesleep over sleep and wakeup: any number of processes and sleep-locks, one
    step for each point where a spinlock is taken or given up. A process that sleeps takes ptable.lock
    before it gives up the lock's inner spinlock, and keeps it until it is marked asleep. */
module SleepLock {
  import opened Basics

  /** A struct sleeplock; inner is the process that holds its spinlock. */
  datatype Lk = Lk(locked: bool, pid: int, inner: Option<int>)

  datatype Pc =
    | Idle
    | Entering(l: int)   // acquiresleep, or the end of sleep: acquire(&lk->lk)
    | Testing(l: int)    // while (lk->locked)
    | Sleepy(l: int)     // sleep: acquire(&ptable.lock)
    | Dozing(l: int)     // sleep: release(&lk->lk)
    | Falling(l: int)    // sleep: p->chan = lk, p->state = SLEEPING
    | Asleep(l: int)
    | Leaving(l: int)    // release(&lk->lk), and return
    | Releasing(l: int)  // releasesleep: acquire(&lk->lk)
    | Clearing(l: int)   // lk->locked = 0, lk->pid = 0
    | Waking(l: int)     // wakeup(lk)

  predicate Inside(pc: Pc, l: int) {
    pc in {Testing(l), Sleepy(l), Dozing(l), Leaving(l), Clearing(l), Waking(l)}
  }

  predicate HoldsTable(pc: Pc) { pc.Dozing? || pc.Falling? }

  /** Committed to sleep on lock l, or asleep on it. */
  predicate Waits(pc: Pc, l: int) { pc in {Sleepy(l), Dozing(l), Falling(l), Asleep(l)} }

  datatype Sys = Sys(lks: map<int, Lk>, table: Option<int>, pcs: map<int, Pc>)

  /** What holdingsleep answers to process q. */
  predicate Holding(lk: Lk, q: int) { lk.locked && lk.pid == q }

  datatype Step =
    | Acquire(q: int, l: int)
    | Release(q: int, l: int)
    | Enter(q: int)
    | Test(q: int)
    | Doze(q: int)
    | Drop(q: int)
    | Fall(q: int)
    | Clear(q: int)
    | Wakeup(q: int)
    | Leave(q: int)
    | Kick(q: int)  // kill, or any other cause that makes a sleeping process runnable

  ghost predicate Enabled(s: Sys, st: Step) {
    && st.q in s.pcs
    && var pc := s.pcs[st.q];
       && (!pc.Idle? ==> pc.l in s.lks)
       && match st
          case Acquire(_, l) => pc.Idle? && l in s.lks
          case Release(q, l) => pc.Idle? && l in s.lks && Holding(s.lks[l], q)  // brelse, iunlock
          case Enter(_) => (pc.Entering? || pc.Releasing?) && s.lks[pc.l].inner.None?
          case Test(_) => pc.Testing?
          case Doze(_) => pc.Sleepy? && s.table.None?
          case Drop(_) => pc.Dozing?
          case Fall(_) => pc.Falling?
          case Clear(_) => pc.Clearing?
          case Wakeup(_) => pc.Waking? && s.table.None?
          case Leave(_) => pc.Leaving?
          case Kick(_) => pc.Asleep? && s.table.None?
  }

  ghost function To(s: Sys, q: int, pc: Pc): Sys { s.(pcs := s.pcs[q := pc]) }

  function Roused(pcs: map<int, Pc>, l: int): (r: map<int, Pc>)
    ensures r.Keys == pcs.Keys
  {
    map q | q in pcs :: if pcs[q] == Asleep(l) then Entering(l) else pcs[q]
  }

  ghost function Next(s: Sys, st: Step): Sys
    requires Enabled(s, st)
  {
    var q, pc := st.q, s.pcs[st.q];
    match st
    case Acquire(_, l) => To(s, q, Entering(l))
    case Release(_, l) => To(s, q, Releasing(l))
    case Enter(_) =>
      var next := if pc.Entering? then Testing(pc.l) else Clearing(pc.l);
      To(s, q, next).(lks := s.lks[pc.l := s.lks[pc.l].(inner := Some(q))])
    case Test(_) =>
      if s.lks[pc.l].locked then To(s, q, Sleepy(pc.l))
      else To(s, q, Leaving(pc.l)).(lks := s.lks[pc.l := s.lks[pc.l].(locked := true, pid := q)])
    case Doze(_) => To(s, q, Dozing(pc.l)).(table := Some(q))
    case Drop(_) => To(s, q, Falling(pc.l)).(lks := s.lks[pc.l := s.lks[pc.l].(inner := None)])
    case Fall(_) => To(s, q, Asleep(pc.l)).(table := None)
    case Clear(_) =>
      To(s, q, Waking(pc.l)).(lks := s.lks[pc.l := s.lks[pc.l].(locked := false, pid := 0)])
    case Wakeup(_) => s.(pcs := Roused(s.pcs, pc.l)[q := Leaving(pc.l)])
    case Leave(_) => To(s, q, Idle).(lks := s.lks[pc.l := s.lks[pc.l].(inner := None)])
    case Kick(_) => To(s, q, Entering(pc.l))
  }

  ghost predicate Init(s: Sys) {
    && (forall l | l in s.lks :: s.lks[l] == Lk(false, 0, None))
    && s.table.None? && forall q | q in s.pcs :: s.pcs[q].Idle?
  }

  // ---------------------------------------------------------------- invariants

  ghost predicate Spinlocks(s: Sys) {
    && (forall q | q in s.pcs && !s.pcs[q].Idle? :: s.pcs[q].l in s.lks)
    && (forall q, l | q in s.pcs && l in s.lks :: Inside(s.pcs[q], l) <==> s.lks[l].inner == Some(q))
    && (forall l | l in s.lks && s.lks[l].inner.Some? :: s.lks[l].inner.value in s.pcs)
    && (forall q | q in s.pcs :: HoldsTable(s.pcs[q]) <==> s.table == Some(q))
    && (s.table.Some? ==> s.table.value in s.pcs)
  }

  /** A lock that is held names a process that there is, and one that is not names none. */
  ghost predicate Named(s: Sys) {
    forall l | l in s.lks :: if s.lks[l].locked then s.lks[l].pid in s.pcs else s.lks[l].pid == 0
  }

  /** Whoever waits for a lock waits for one that is held, or is about to be woken. */
  ghost predicate NoLostWakeup(s: Sys) {
    forall q, l | q in s.pcs && l in s.lks && Waits(s.pcs[q], l) ::
      s.lks[l].locked || (s.lks[l].inner.Some? && s.lks[l].inner.value in s.pcs
        && s.pcs[s.lks[l].inner.value] == Waking(l))
  }

  ghost predicate Inv(s: Sys) { Spinlocks(s) && Named(s) && NoLostWakeup(s) }

  lemma InitInv(s: Sys)
    requires Init(s)
    ensures Inv(s)
  {
  }

  lemma WakeupSpinlocks(s: Sys, st: Step)
    requires Spinlocks(s) && Enabled(s, st) && st.Wakeup?
    ensures Spinlocks(Next(s, st))
  {
  }

  lemma StepSpinlocks(s: Sys, st: Step)
    requires Spinlocks(s) && Enabled(s, st)
    ensures Spinlocks(Next(s, st))
  {
    hide Roused;
    if st.Wakeup? {
      WakeupSpinlocks(s, st);
    }
  }

  lemma WakeupWakes(s: Sys, st: Step)
    requires Spinlocks(s) && NoLostWakeup(s) && Enabled(s, st) && st.Wakeup?
    ensures NoLostWakeup(Next(s, st))
  {
  }

  lemma StepNoLostWakeup(s: Sys, st: Step)
    requires Spinlocks(s) && NoLostWakeup(s) && Enabled(s, st)
    ensures NoLostWakeup(Next(s, st))
  {
    hide Roused;
    if st.Wakeup? {
      WakeupWakes(s, st);
    }
  }

  lemma StepInv(s: Sys, st: Step)
    requires Inv(s) && Enabled(s, st)
    ensures Inv(Next(s, st))
  {
    StepSpinlocks(s, st);
    StepNoLostWakeup(s, st);
  }

  // ---------------------------------------------------------------- whole runs

  ghost predicate IsRun(states: seq<Sys>, steps: seq<Step>) {
    && |states| == |steps| + 1 && Init(states[0])
    && forall i | 0 <= i < |steps| :: Follows(states, steps, i)
  }

  ghost predicate Follows(states: seq<Sys>, steps: seq<Step>, i: int)
    requires |states| == |steps| + 1 && 0 <= i < |steps|
  {
    Enabled(states[i], steps[i]) && states[i + 1] == Next(states[i], steps[i])
  }

  lemma {:induction false} RunInv(states: seq<Sys>, steps: seq<Step>, k: nat)
    requires IsRun(states, steps) && k <= |steps|
    ensures Inv(states[k])
  {
    hide Inv, Init, Next, Enabled;
    if k == 0 {
      InitInv(states[0]);
    } else {
      RunInv(states, steps, k - 1);
      assert Follows(states, steps, k - 1);
      StepInv(states[k - 1], steps[k - 1]);
    }
  }

  // ---------------------------------------------------------------- who holds a lock, by the calls alone

  /** The call that a process is in. */
  datatype Call = NoCall | InAcquire(l: int) | InRelease(l: int)

  /** A call begins with Acquire or Release, and it returns with Leave. */
  function CallOf(steps: seq<Step>, q: int): Call {
    if steps == [] then NoCall
    else
      var st := steps[|steps| - 1];
      if st.q != q then CallOf(steps[..|steps| - 1], q)
      else match st
        case Acquire(_, l) => InAcquire(l)
        case Release(_, l) => InRelease(l)
        case Leave(_) => NoCall
        case _ => CallOf(steps[..|steps| - 1], q)
  }

  /** q has returned from acquiresleep of lock l and has not called releasesleep since. */
  predicate Holds(steps: seq<Step>, q: int, l: int) {
    steps != [] &&
    var st, before := steps[|steps| - 1], steps[..|steps| - 1];
    if st == Leave(q) && CallOf(before, q) == InAcquire(l) then true
    else st != Release(q, l) && Holds(before, q, l)
  }

  /** The place in the code fits the call. */
  predicate Within(pc: Pc, c: Call) {
    match c
    case NoCall => pc.Idle?
    case InAcquire(l) => pc == Entering(l) || pc == Testing(l) || Waits(pc, l) || pc == Leaving(l)
    case InRelease(l) => pc == Releasing(l) || pc == Clearing(l) || pc == Waking(l) || pc == Leaving(l)
  }

  /** Process q has lock l: from the end of the loop in acquiresleep to the assignment in releasesleep. */
  predicate Has(pc: Pc, c: Call, holds: bool, l: int) {
    holds || (pc == Leaving(l) && c == InAcquire(l)) || pc == Releasing(l) || pc == Clearing(l)
  }

  /** The fields of lock l tell whether q has it. */
  ghost predicate Told(s: Sys, steps: seq<Step>, q: int, l: int)
    requires q in s.pcs && l in s.lks
  {
    && Within(s.pcs[q], CallOf(steps, q)) && (CallOf(steps, q) == InRelease(l) ==> !Holds(steps, q, l))
    && (Has(s.pcs[q], CallOf(steps, q), Holds(steps, q, l), l) <==> Holding(s.lks[l], q))
  }

  /** So for all, and a process or lock that there is not holds nothing and is not held. */
  ghost predicate AllTold(s: Sys, steps: seq<Step>) {
    && (forall q, l | q in s.pcs && l in s.lks :: Told(s, steps, q, l))
    && (forall q, l | Holds(steps, q, l) :: q in s.pcs && l in s.lks)
  }

  lemma LastStep(steps: seq<Step>, st: Step, q: int, l: int)
    ensures CallOf(steps + [st], q) ==
            if st.q != q then CallOf(steps, q)
            else match st
              case Acquire(_, m) => InAcquire(m)
              case Release(_, m) => InRelease(m)
              case Leave(_) => NoCall
              case _ => CallOf(steps, q)
    ensures Holds(steps + [st], q, l) <==>
            (st == Leave(q) && CallOf(steps, q) == InAcquire(l)) || (st != Release(q, l) && Holds(steps, q, l))
  {
    assert (steps + [st])[..|steps|] == steps;
  }

  lemma ToldStep(s: Sys, steps: seq<Step>, st: Step, q: int, l: int)
    requires Inv(s) && Enabled(s, st) && AllTold(s, steps) && q in s.pcs && l in s.lks
    ensures q in Next(s, st).pcs && l in Next(s, st).lks && Told(Next(s, st), steps + [st], q, l)
  {
    hide Inv, Told, Next, Enabled;
    if q == st.q {
      ToldSelf(s, steps, st, l);
    } else {
      ToldOther(s, steps, st, q, l);
    }
  }

  lemma ToldSelf(s: Sys, steps: seq<Step>, st: Step, l: int)
    requires Inv(s) && Enabled(s, st) && AllTold(s, steps) && l in s.lks
    ensures st.q in Next(s, st).pcs && l in Next(s, st).lks && Told(Next(s, st), steps + [st], st.q, l)
  {
    hide CallOf, Holds, Inv;
    LastStep(steps, st, st.q, l);
    assert Told(s, steps, st.q, l);
    if !s.pcs[st.q].Idle? {
      assert Told(s, steps, st.q, s.pcs[st.q].l);
    }
  }

  lemma ToldOther(s: Sys, steps: seq<Step>, st: Step, q: int, l: int)
    requires Inv(s) && Enabled(s, st) && AllTold(s, steps) && q in s.pcs && l in s.lks && q != st.q
    ensures q in Next(s, st).pcs && l in Next(s, st).lks && Told(Next(s, st), steps + [st], q, l)
  {
    hide CallOf, Holds, NoLostWakeup, Named;
    LastStep(steps, st, q, l);
    assert Told(s, steps, q, l);
    if !s.pcs[st.q].Idle? {
      assert Told(s, steps, st.q, s.pcs[st.q].l);
      assert Told(s, steps, q, s.pcs[st.q].l);
    }
  }

  lemma {:induction false} RunTold(states: seq<Sys>, steps: seq<Step>, k: nat)
    requires IsRun(states, steps) && k <= |steps|
    ensures AllTold(states[k], steps[..k])
  {
    hide Inv, Told, Enabled, Next;
    if k == 0 {
      InitTold(states[0]);
      assert steps[..0] == [];
    } else {
      RunTold(states, steps, k - 1);
      RunInv(states, steps, k - 1);
      assert Follows(states, steps, k - 1);
      var s, st := states[k - 1], steps[k - 1];
      assert steps[..k] == steps[..k - 1] + [st];
      SameNames(s, st);
      forall q, l | q in states[k].pcs && l in states[k].lks ensures Told(states[k], steps[..k], q, l) {
        ToldStep(s, steps[..k - 1], st, q, l);
      }
      forall q, l | Holds(steps[..k], q, l) ensures q in states[k].pcs && l in states[k].lks {
        StillThere(s, steps[..k - 1], st, q, l);
      }
    }
  }

  lemma InitTold(s: Sys)
    requires Init(s)
    ensures AllTold(s, [])
  {
  }

  lemma SameNames(s: Sys, st: Step)
    requires Enabled(s, st)
    ensures Next(s, st).pcs.Keys == s.pcs.Keys && Next(s, st).lks.Keys == s.lks.Keys
  {
  }

  lemma StillThere(s: Sys, steps: seq<Step>, st: Step, q: int, l: int)
    requires Inv(s) && Enabled(s, st) && AllTold(s, steps) && Holds(steps + [st], q, l)
    ensures q in s.pcs && l in s.lks
  {
    hide CallOf, Holds, NoLostWakeup, Named;
    LastStep(steps, st, q, l);
    if !Holds(steps, q, l) {
      assert Told(s, steps, q, s.pcs[q].l);
    }
  }

  /** In every run: at most one process holds a sleep-lock, and its fields name that one; a process they name
      holds it, or is on its way out of acquiresleep or into releasesleep. */
  lemma AtMostOneHolder(states: seq<Sys>, steps: seq<Step>, k: nat, p: int, q: int, l: int)
    requires IsRun(states, steps) && k <= |steps| && l in states[k].lks
    ensures Holds(steps[..k], p, l) && Holds(steps[..k], q, l) ==> p == q
    ensures Holds(steps[..k], q, l) ==> states[k].lks[l].locked && states[k].lks[l].pid == q
    ensures !states[k].lks[l].locked ==> states[k].lks[l].pid == 0
    ensures states[k].lks[l].locked && states[k].lks[l].pid == q ==>
            Holds(steps[..k], q, l) || CallOf(steps[..k], q) in {InAcquire(l), InRelease(l)}
  {
    RunTold(states, steps, k);
    RunInv(states, steps, k);
    if q in states[k].pcs {
      assert Told(states[k], steps[..k], q, l);
    }
    if p in states[k].pcs {
      assert Told(states[k], steps[..k], p, l);
    }
  }

  /** `holdingsleep` answers a process that is in no call of its own exactly whether it holds the lock. */
  lemma HoldingsleepIsExact(states: seq<Sys>, steps: seq<Step>, k: nat, q: int, l: int)
    requires IsRun(states, steps) && k <= |steps| && l in states[k].lks && CallOf(steps[..k], q) == NoCall
    ensures Holding(states[k].lks[l], q) <==> Holds(steps[..k], q, l)
  {
    AtMostOneHolder(states, steps, k, q, q, l);
  }

  /** When releasesleep has returned, its caller does not hold the lock and is not named in it. */
  lemma ReleasedAfterReturn(states: seq<Sys>, steps: seq<Step>, k: nat, q: int, l: int)
    requires IsRun(states, steps) && k < |steps| && l in states[k + 1].lks
    requires steps[k] == Leave(q) && CallOf(steps[..k], q) == InRelease(l)
    ensures !Holds(steps[..k + 1], q, l) && !(states[k + 1].lks[l].locked && states[k + 1].lks[l].pid == q)
  {
    RunTold(states, steps, k);
    assert Follows(states, steps, k);
    assert Told(states[k], steps[..k], q, l);
    assert steps[..k + 1] == steps[..k] + [Leave(q)];
    LastStep(steps[..k], Leave(q), q, l);
    HoldingsleepIsExact(states, steps, k + 1, q, l);
  }

  /** In every run: while its inner spinlock is free, no process sleeps on an unlocked sleep-lock; some process
      holds it, or is about to give it up. */
  lemma SleepersWaitForHolder(states: seq<Sys>, steps: seq<Step>, k: nat, q: int, l: int)
    requires IsRun(states, steps) && k <= |steps| && l in states[k].lks && states[k].lks[l].inner.None?
    requires q in states[k].pcs && states[k].pcs[q] == Asleep(l)
    ensures states[k].lks[l].locked
    ensures var p := states[k].lks[l].pid; Holds(steps[..k], p, l) || CallOf(steps[..k], p) == InRelease(l)
  {
    RunInv(states, steps, k);
    RunTold(states, steps, k);
    assert Waits(states[k].pcs[q], l);
    var p := states[k].lks[l].pid;
    assert Told(states[k], steps[..k], p, l);
    assert !Inside(states[k].pcs[p], l);
  }

  // ---------------------------------------------------------------- no deadlock among the spinlocks

  /** In a call, and not asleep. */
  predicate Awake(pc: Pc) { !pc.Idle? && !pc.Asleep? }

  /** A step by which a process goes on with its call. */
  predicate GoesOn(st: Step) { !st.Acquire? && !st.Release? && !st.Kick? }

  lemma OneCanStep(s: Sys, q: int) returns (st: Step)
    requires Spinlocks(s) && q in s.pcs && Awake(s.pcs[q])
    requires s.table.Some? ==> s.table == Some(q)
    requires !Inside(s.pcs[q], s.pcs[q].l) ==> s.table == Some(q) || forall l | l in s.lks :: s.lks[l].inner.None?
    ensures GoesOn(st) && Enabled(s, st)
  {
    st := match s.pcs[q]
      case Testing(_) => Test(q)
      case Sleepy(_) => Doze(q)
      case Dozing(_) => Drop(q)
      case Falling(_) => Fall(q)
      case Leaving(_) => Leave(q)
      case Clearing(_) => Clear(q)
      case Waking(_) => Wakeup(q)
      case _ => Enter(q);
  }

  /** In every run: while some process is in a call and awake, some process can go on with its call. So whoever
      waits for a spinlock waits for one that will be free; the other processes are asleep or in no call. */
  lemma NoDeadlock(states: seq<Sys>, steps: seq<Step>, k: nat, q: int) returns (st: Step)
    requires IsRun(states, steps) && k <= |steps| && q in states[k].pcs && Awake(states[k].pcs[q])
    ensures GoesOn(st) && Enabled(states[k], st)
  {
    RunInv(states, steps, k);
    var s := states[k];
    hide Enabled, NoLostWakeup, Named;
    if s.table.Some? {
      st := OneCanStep(s, s.table.value);
    } else if l :| l in s.lks && s.lks[l].inner.Some? {
      st := OneCanStep(s, s.lks[l].inner.value);
    } else {
      st := OneCanStep(s, q);
    }
  }
}
