/** proc.c over every run, by the steps alone: what one scan of the scheduler dispatches, and what the table
    holds when a process has done what it took ptable.lock for. */
module ProcRuns {
  import opened Basics
  import opened ProcTable
  import opened ProcProtocol
  import opened ProcCorrect

  /** The same processes are runnable, with the same priorities. */
  ghost predicate SameRunnable(t: Table, u: Table) {
    && |u| == |t|
    && forall q | 0 <= q < |t| :: (u[q].state == RUNNABLE <==> t[q].state == RUNNABLE) && u[q].priority == t[q].priority
  }

  /** While CPU c has the lock, the others only change embryos of their own. */
  lemma OtherStep(s: Sys, st: Step, c: int)
    requires Inv(s) && Enabled(s, st) && s.lock == Some(c) && st.c != c
    ensures var r := Next(s, st);
            && r.cpu == s.cpu && r.cproc == s.cproc && r.lock == s.lock && r.init == s.init && SameRunnable(s.t, r.t)
            && (forall q | 0 <= q < |s.t| :: r.t[q].parent == s.t[q].parent || s.t[q].parent == NONE)
            && |r.pos| == |s.pos| && forall q | 0 <= q < |s.pos| && q == s.cproc[c] :: r.pos[q] == s.pos[q]
  {
    hide WaitersOk, ActsOk;
    assert HasLock(s.cpu[st.c]) <==> s.lock == Some(st.c);
    assert st.Abort? || st.SetParent?;
    FamilyShape(s);
    assert HasEmbryo(s.t, s.pos, s.cpu[st.c].p);
  }

  /** The number of steps of CPU c after step a and before step b. */
  function Turns(steps: seq<Step>, a: int, b: int, c: int): (n: nat)
    requires 0 <= a < b <= |steps|
    ensures n <= b - a - 1
  {
    if b == a + 1 then 0 else Turns(steps, a, b - 1, c) + if steps[b - 1].c == c then 1 else 0
  }

  // ---------------------------------------------------------------- one scan of the scheduler

  /** CPU c enters its scheduler's loop at step a, or comes back to it, and only scans from then to step b. */
  ghost predicate OneScan(steps: seq<Step>, a: int, b: int, c: int) {
    && 0 <= a < b <= |steps| && (steps[a] == SchedLock(c) || steps[a] == Clear(c))
    && forall i | a < i < b && steps[i].c == c :: steps[i].Look? || steps[i].Compare?
  }

  /** The slot at which the scan begins: the first, or the one after the process that was switched to last. */
  ghost function From(states: seq<Sys>, steps: seq<Step>, a: int): int
    requires 0 <= a < |steps| < |states| && 0 <= steps[a].c < |states[a].cproc|
  {
    if steps[a].SchedLock? then 0 else states[a].cproc[steps[a].c] + 1
  }

  /** h leads at slot j of the inner loop, which was entered with i. */
  predicate Leads(t: Table, i: int, h: int, j: int)
    requires 0 <= i < |t|
  {
    && 0 <= h < |t| && 0 <= j <= |t| && t[h].state == RUNNABLE
    && (h == i || (t[h].priority < t[i].priority
                   && forall q | 0 <= q < h && t[q].state == RUNNABLE :: t[h].priority < t[q].priority))
    && forall q | 0 <= q < j && t[q].state == RUNNABLE :: t[h].priority <= t[q].priority
  }

  predicate NoneFrom(t: Table, p: int, i: int) {
    0 <= p <= i <= |t| && forall q | p <= q < i :: t[q].state != RUNNABLE
  }

  /** Where a scan from slot p is after n turns of its loops. */
  predicate Scanned(t: Table, x: Cpu, p: int, n: int) {
    if x.Scan? then x.i == p + n && NoneFrom(t, p, x.i)
    else
      && x.Choose?
      && var i := p + n - 1 - x.j;
         NoneFrom(t, p, i) && i < |t| && t[i].state == RUNNABLE && Leads(t, i, x.h, x.j)
  }

  lemma ScannedSame(t: Table, u: Table, x: Cpu, p: int, n: int)
    requires SameRunnable(t, u) && Scanned(t, x, p, n)
    ensures Scanned(u, x, p, n)
  {
  }

  /** One turn of the outer loop or of the inner one. */
  lemma ScanStep(s: Sys, st: Step, p: int, n: int)
    requires Enabled(s, st) && (st.Look? || st.Compare?) && Scanned(s.t, s.cpu[st.c], p, n)
    ensures Scanned(s.t, Next(s, st).cpu[st.c], p, n + 1) && Next(s, st).t == s.t && Next(s, st).lock == s.lock
  {
  }

  lemma ScanStart(s: Sys, st: Step)
    requires Inv(s) && Enabled(s, st) && (st.SchedLock? || st.Clear?)
    ensures var r := Next(s, st);
            var p := if st.SchedLock? then 0 else s.cproc[st.c] + 1;
            Scanned(r.t, r.cpu[st.c], p, 0) && r.t == s.t && r.lock == Some(st.c)
  {
  }

  lemma {:induction false} ScanRun(states: seq<Sys>, steps: seq<Step>, a: int, b: int, c: int)
    requires IsRun(states, steps) && OneScan(steps, a, b, c)
    ensures 0 <= c < |states[a].cproc| && 0 <= c < |states[b].cpu| && states[b].lock == Some(c)
    ensures Scanned(states[b].t, states[b].cpu[c], From(states, steps, a), Turns(steps, a, b, c))
    ensures SameRunnable(states[a].t, states[b].t)
    decreases b
  {
    hide Inv, Init, Next, Enabled, Scanned;
    RunInv(states, steps, b - 1);
    assert Follows(states, steps, b - 1);
    Named(states[b - 1], steps[b - 1]);
    var s, st := states[b - 1], steps[b - 1];
    if b == a + 1 {
      ScanStart(s, st);
    } else {
      ScanRun(states, steps, a, b - 1, c);
      var p, n := From(states, steps, a), Turns(steps, a, b - 1, c);
      if st.c == c {
        ScanStep(s, st, p, n);
      } else {
        OtherStep(s, st, c);
        ScannedSame(s.t, states[b].t, s.cpu[c], p, n);
      }
    }
  }

  /** The step is of a CPU that there is, and every CPU stays. */
  lemma Named(s: Sys, st: Step)
    requires Enabled(s, st)
    ensures 0 <= st.c < |s.cpu| == |s.cproc| == |Next(s, st).cpu| == |Next(s, st).cproc| && |Next(s, st).t| == |s.t|
  {
    hide Woken, WokenProc, AdoptOne;
  }

  lemma LeaderPicked(t: Table, p: int, i: int, h: int)
    requires NoneFrom(t, p, i) && i < |t| && t[i].state == RUNNABLE && Leads(t, i, h, |t|)
    ensures Picks(t, p, h)
  {
    assert Best(t, h) && (h == i || !Best(t, i));
    assert h == i || forall q | 0 <= q < h && Best(t, q) :: t[q].priority <= t[h].priority;
  }

  lemma PicksSame(t: Table, u: Table, p: int, h: int)
    requires SameRunnable(t, u) && Picks(u, p, h)
    ensures Picks(t, p, h)
  {
    forall q ensures Best(t, q) <==> Best(u, q) { }
  }

  lemma ScanEnd(s: Sys, st: Step, p: int, n: int)
    requires Enabled(s, st) && Scanned(s.t, s.cpu[st.c], p, n) && !st.Look? && !st.Compare?
    ensures (st.Dispatch? && Picks(s.t, p, Next(s, st).cproc[st.c])) || (st.SchedUnlock? && Picks(s.t, p, NONE))
  {
    if st.Dispatch? {
      var x := s.cpu[st.c];
      LeaderPicked(s.t, p, p + n - 1 - x.j, x.h);
    }
  }

  /** In every run: a scan of the scheduler ends with a dispatch of what `Ptable.Pick` chooses on the table it
      began with, or, exactly if no slot from where it began is runnable, with the release of the lock. */
  lemma ScanPicks(states: seq<Sys>, steps: seq<Step>, a: int, b: int, c: int)
    requires IsRun(states, steps) && OneScan(steps, a, b, c)
    requires b < |steps| && steps[b].c == c && !steps[b].Look? && !steps[b].Compare?
    ensures 0 <= c < |states[a].cproc| && 0 <= c < |states[b + 1].cproc|
    ensures steps[b] == Dispatch(c) || steps[b] == SchedUnlock(c)
    ensures var h := if steps[b].Dispatch? then states[b + 1].cproc[c] else NONE;
            Picks(states[a].t, From(states, steps, a), h) && Picks(states[b].t, From(states, steps, a), h)
  {
    hide Inv, Init, Next, Enabled, Scanned, Picks;
    ScanRun(states, steps, a, b, c);
    RunInv(states, steps, b);
    assert Follows(states, steps, b);
    Named(states[b], steps[b]);
    ScanEnd(states[b], steps[b], From(states, steps, a), Turns(steps, a, b, c));
    var h := if steps[b].Dispatch? then states[b + 1].cproc[c] else NONE;
    PicksSame(states[a].t, states[b].t, From(states, steps, a), h);
  }

  /** In every run: a scan is over after at most twice as many turns as there are slots. */
  lemma ScanEnds(states: seq<Sys>, steps: seq<Step>, a: int, b: int, c: int)
    requires IsRun(states, steps) && OneScan(steps, a, b, c)
    ensures Turns(steps, a, b, c) <= 2 * |states[b].t|
  {
    ScanRun(states, steps, a, b, c);
  }

  // ---------------------------------------------------------------- what a process does with the lock

  /** CPU c takes the lock at step a, for its process, and does nothing more before step b. */
  ghost predicate Takes(steps: seq<Step>, a: int, b: int, c: int) {
    0 <= a < b < |steps| && steps[a].Lock? && steps[a].c == c == steps[b].c && forall i | a < i < b :: steps[i].c != c
  }

  lemma LockStep(s: Sys, st: Step)
    requires Inv(s) && Enabled(s, st) && st.Lock?
    ensures var r := Next(s, st);
            && r.cpu[st.c] == Locked(s.cproc[st.c], st.act) && r.lock == Some(st.c) && r.cproc == s.cproc
            && r.pos == s.pos
  {
  }

  lemma {:induction false} TakesRun(states: seq<Sys>, steps: seq<Step>, a: int, b: int, c: int)
    requires IsRun(states, steps) && 0 <= a < b <= |steps| && steps[a].Lock? && steps[a].c == c
    requires forall i | a < i < b :: steps[i].c != c
    ensures 0 <= c < |states[a].cproc| && 0 <= c < |states[b].cpu| == |states[b].cproc| && states[b].lock == Some(c)
    ensures states[b].cpu[c] == Locked(states[a].cproc[c], steps[a].act) && states[b].cproc[c] == states[a].cproc[c]
    decreases b
  {
    hide Inv, Init, Next, Enabled;
    RunInv(states, steps, b - 1);
    assert Follows(states, steps, b - 1);
    Named(states[b - 1], steps[b - 1]);
    if b == a + 1 {
      LockStep(states[a], steps[a]);
    } else {
      TakesRun(states, steps, a, b - 1, c);
      OtherStep(states[b - 1], steps[b - 1], c);
    }
  }

  /** The table before and after what process p does with the lock, for each of the short actions. */
  ghost predicate Effect(t: Table, u: Table, p: int, act: Act) {
    && |u| == |t| && 0 <= p < |t| && t[p].state == RUNNING
    && match act
       case Yielding => u == t[p := t[p].(state := RUNNABLE)]
       case Sleeping(chan) => u == t[p := t[p].(state := SLEEPING, chan := chan)]
       case Waking(chan) => forall q | 0 <= q < |t| :: Roused(t[q], u[q], t[q].chan == chan)
       case Killing(q) =>
         0 <= q < |t| && u == t[q := u[q]] && u[q].killed && Roused(t[q].(killed := true), u[q], true)
       case Nicing(q, prio) => 0 <= q < |t| && u == t[q := t[q].(priority := prio)]
       case Finishing => exists np :: IsChild(t, p, np) && u == t[np := t[np].(state := RUNNABLE, priority := 0)]
       case _ => true
  }

  /** np is the slot that the fork of p got. */
  predicate IsChild(t: Table, p: int, np: int) { 0 <= np < |t| && t[np].state == EMBRYO && t[np].parent == p }

  predicate Short(act: Act) {
    act.Yielding? || act.Sleeping? || act.Waking? || act.Killing? || act.Nicing? || act.Finishing?
  }

  lemma EffectStep(s: Sys, st: Step)
    requires Inv(s) && Enabled(s, st) && s.cpu[st.c].Locked? && Short(s.cpu[st.c].act)
    ensures var r, act := Next(s, st), s.cpu[st.c].act;
            && st.Do? && Effect(s.t, r.t, s.cpu[st.c].p, act) && r.cproc == s.cproc
            && r.lock == if act.Yielding? || act.Sleeping? then s.lock else None
  {
    hide DoExit, DoWait;
    Holder(s, st.c);
    if s.cpu[st.c].act.Finishing? {
      assert HasEmbryo(s.t, s.pos, s.cpu[st.c].p);
      assert IsChild(s.t, s.cpu[st.c].p, s.pos[s.cpu[st.c].p].np);
    }
  }

  /** In every run: what the table holds after each completed yield, sleep, wakeup, kill, nice and fork. The
      process stays on its CPU and the lock is free, except that in yield and sleep it is left to the scheduler. */
  lemma ActsTakeEffect(states: seq<Sys>, steps: seq<Step>, a: int, b: int, c: int)
    requires IsRun(states, steps) && Takes(steps, a, b, c) && Short(steps[a].act)
    ensures 0 <= c < |states[a].cproc| && 0 <= c < |states[b + 1].cproc|
    ensures var p, act := states[a].cproc[c], steps[a].act;
            && steps[b] == Do(c) && Effect(states[b].t, states[b + 1].t, p, act) && states[b + 1].cproc[c] == p
            && states[b + 1].lock == if act.Yielding? || act.Sleeping? then Some(c) else None
  {
    hide Inv, Init, Next, Enabled, Effect;
    TakesRun(states, steps, a, b, c);
    RunInv(states, steps, b);
    assert Follows(states, steps, b);
    Named(states[b], steps[b]);
    EffectStep(states[b], steps[b]);
  }

  /** In every run: `allocproc` in fork takes the first unused slot, or finds none. */
  lemma AllocTakesEffect(states: seq<Sys>, steps: seq<Step>, a: int, b: int, c: int)
    requires IsRun(states, steps) && Takes(steps, a, b, c) && steps[a].act.Allocating?
    ensures steps[b].Alloc? && states[b + 1].lock.None?
    ensures var t, u, np := states[b].t, states[b + 1].t, steps[b].np;
            if np == NONE then u == t && forall i | 0 <= i < |t| :: t[i].state != UNUSED
            else FirstUnused(t, np) && u == t[np := t[np].(state := EMBRYO, priority := 0)]
  {
    TakesRun(states, steps, a, b, c);
    assert Follows(states, steps, b);
  }

  // ---------------------------------------------------------------- fork, from allocproc to its end

  /** Process p forks, into slot np, and has not come to the last part of it. */
  ghost predicate ForksInto(s: Sys, p: int, np: int) {
    && 0 <= p < |s.pos| && Forking(s.pos[p]) && s.pos[p].np == np
    && forall c | 0 <= c < |s.cpu| :: s.cpu[c] != Locked(p, Finishing)
  }

  /** Step i is not one with which process p ends its fork. */
  ghost predicate KeepsOn(states: seq<Sys>, steps: seq<Step>, i: int, p: int)
    requires 0 <= i < |steps| < |states|
  {
    var c := steps[i].c;
    0 <= c < |states[i].cproc| && states[i].cproc[c] == p ==> !steps[i].Abort? && steps[i] != Lock(c, Finishing)
  }

  lemma AllocStep(s: Sys, st: Step)
    requires Inv(s) && Enabled(s, st) && st.Alloc? && st.np != NONE
    ensures ForksInto(Next(s, st), s.cproc[st.c], st.np)
  {
    hide Family, WaitersOk;
    FamilyShape(s);
    Holder(s, st.c);
    assert s.cproc[st.c] == On(s.cpu[st.c]);
  }

  lemma ForkStep(s: Sys, st: Step, p: int, np: int)
    requires Inv(s) && Enabled(s, st) && ForksInto(s, p, np)
    requires s.cproc[st.c] == p ==> !st.Abort? && st != Lock(st.c, Finishing)
    ensures ForksInto(Next(s, st), p, np)
  {
    hide Family, WaitersOk, AdoptOne, Woken, WokenProc;
    FamilyShape(s);
    assert s.cproc[st.c] == On(s.cpu[st.c]);
    if s.cpu[st.c].Locked? {
      Holder(s, st.c);
    }
  }

  lemma {:induction false} ForkRun(states: seq<Sys>, steps: seq<Step>, e: int, k: int, p: int)
    requires IsRun(states, steps) && 0 <= e < k <= |steps| && steps[e].Alloc? && steps[e].np != NONE
    requires 0 <= steps[e].c < |states[e].cproc| && states[e].cproc[steps[e].c] == p
    requires forall i | e < i < k :: KeepsOn(states, steps, i, p)
    ensures ForksInto(states[k], p, steps[e].np)
    decreases k
  {
    hide Inv, Init, Next, Enabled, ForksInto;
    RunInv(states, steps, k - 1);
    assert Follows(states, steps, k - 1);
    Named(states[k - 1], steps[k - 1]);
    if k == e + 1 {
      AllocStep(states[e], steps[e]);
    } else {
      ForkRun(states, steps, e, k - 1, p);
      assert KeepsOn(states, steps, k - 1, p);
      ForkStep(states[k - 1], steps[k - 1], p, steps[e].np);
    }
  }

  lemma {:induction false} LastPart(states: seq<Sys>, steps: seq<Step>, a: int, b: int, c: int)
    requires IsRun(states, steps) && 0 <= a < b <= |steps| && steps[a] == Lock(c, Finishing)
    requires forall i | a < i < b :: steps[i].c != c
    requires 0 <= c < |states[a].cproc| && 0 <= states[a].cproc[c] < |states[a].pos|
    ensures |states[b].pos| == |states[a].pos| && states[b].pos[states[a].cproc[c]] == states[a].pos[states[a].cproc[c]]
    decreases b
  {
    hide Inv, Init, Next, Enabled;
    RunInv(states, steps, b - 1);
    assert Follows(states, steps, b - 1);
    if b == a + 1 {
      LockStep(states[a], steps[a]);
    } else {
      LastPart(states, steps, a, b - 1, c);
      TakesRun(states, steps, a, b - 1, c);
      OtherStep(states[b - 1], steps[b - 1], c);
    }
  }

  /** In every run: the slot that fork takes at step e is an embryo until the fork is over; then its process is
      runnable, a child of the one that forked, with priority 0. */
  lemma ForkMakesChild(states: seq<Sys>, steps: seq<Step>, e: int, a: int, b: int, c: int)
    requires IsRun(states, steps) && 0 <= e < a && Takes(steps, a, b, c) && steps[a].act.Finishing?
    requires steps[e].Alloc? && steps[e].np != NONE && 0 <= steps[e].c < |states[e].cproc|
    requires 0 <= c < |states[a].cproc| && states[a].cproc[c] == states[e].cproc[steps[e].c]
    requires forall i | e < i < a :: KeepsOn(states, steps, i, states[a].cproc[c])
    ensures var p, np, t := states[a].cproc[c], steps[e].np, states[b].t;
            IsChild(t, p, np) && states[b + 1].t == t[np := t[np].(state := RUNNABLE, priority := 0)]
  {
    hide Init, WaitersOk, CpusOk;
    var p := states[a].cproc[c];
    ForkRun(states, steps, e, a, p);
    TakesRun(states, steps, a, b, c);
    LastPart(states, steps, a, b, c);
    RunInv(states, steps, b);
    assert Follows(states, steps, b);
    assert HasEmbryo(states[b].t, states[b].pos, p);
  }

  /** In every run: a fork that fails leaves its slot unused again. */
  lemma AbortFreesSlot(states: seq<Sys>, steps: seq<Step>, e: int, k: int)
    requires IsRun(states, steps) && 0 <= e < k < |steps| && steps[k].Abort? && 0 <= steps[k].c < |states[k].cproc|
    requires steps[e].Alloc? && steps[e].np != NONE && 0 <= steps[e].c < |states[e].cproc|
    requires states[k].cproc[steps[k].c] == states[e].cproc[steps[e].c]
    requires forall i | e < i < k :: KeepsOn(states, steps, i, states[e].cproc[steps[e].c])
    ensures var np, t := steps[e].np, states[k].t;
            0 <= np < |t| && t[np].state == EMBRYO && states[k + 1].t == t[np := t[np].(state := UNUSED)]
  {
    hide Init, WaitersOk;
    var p := states[e].cproc[steps[e].c];
    ForkRun(states, steps, e, k, p);
    RunInv(states, steps, k);
    assert Follows(states, steps, k);
    assert On(states[k].cpu[steps[k].c]) == p;
    assert HasEmbryo(states[k].t, states[k].pos, p);
  }

  // ---------------------------------------------------------------- exit and wait

  /** CPU c is n turns into exit of process p, which began with the table t0. */
  ghost predicate Exiting(s: Sys, c: int, p: int, n: int, t0: Table) {
    && 0 <= c < |s.cpu| && 0 <= p < |s.t| == |t0| && 0 <= s.init < |s.t| && 0 <= n && p != NONE
    && (if n == 0 then s.cpu[c] == Locked(p, ExitWake)
        else if n <= |s.t| + 1 then s.cpu[c] == Locked(p, ExitScan(n - 1))
        else n == |s.t| + 2 && s.cpu[c] == Back(p) && s.t[p].state == ZOMBIE)
    && forall q | 0 <= q < |s.t| && t0[q].parent == p :: s.t[q].parent == if q < n - 1 then s.init else p
  }

  lemma ExitStep(s: Sys, st: Step, p: int, n: int, t0: Table)
    requires Inv(s) && Enabled(s, st) && Exiting(s, st.c, p, n, t0) && n < |s.t| + 2
    ensures st.Do? && Next(s, st).lock == s.lock && Exiting(Next(s, st), st.c, p, n + 1, t0)
  {
    hide Family, WaitersOk, DoWait;
    FamilyShape(s);
    Holder(s, st.c);
  }

  lemma ExitSame(s: Sys, r: Sys, c: int, p: int, n: int, t0: Table)
    requires Exiting(s, c, p, n, t0) && r.cpu == s.cpu && r.init == s.init && |r.t| == |s.t| && n < |s.t| + 2
    requires forall q | 0 <= q < |s.t| :: r.t[q].parent == s.t[q].parent || s.t[q].parent == NONE
    ensures Exiting(r, c, p, n, t0)
  {
  }

  lemma ExitStart(s: Sys, st: Step)
    requires Inv(s) && Enabled(s, st) && st.Lock? && st.act.ExitWake?
    ensures Exiting(Next(s, st), st.c, s.cproc[st.c], 0, s.t)
  {
    FamilyShape(s);
    assert s.cproc[st.c] == On(s.cpu[st.c]);
  }

  lemma {:induction false} ExitRun(states: seq<Sys>, steps: seq<Step>, a: int, b: int, c: int)
    requires IsRun(states, steps) && 0 <= a < b <= |steps| && steps[a] == Lock(c, ExitWake)
    requires Turns(steps, a, b, c) <= |states[a].t| + 2
    requires Turns(steps, a, b, c) == |states[a].t| + 2 ==> steps[b - 1].c == c
    ensures 0 <= c < |states[a].cproc| && states[b].lock == Some(c) && |states[b].t| == |states[a].t|
    ensures Exiting(states[b], c, states[a].cproc[c], Turns(steps, a, b, c), states[a].t)
    decreases b
  {
    hide Inv, Init, Next, Enabled, Exiting;
    RunInv(states, steps, b - 1);
    assert Follows(states, steps, b - 1);
    Named(states[b - 1], steps[b - 1]);
    if b == a + 1 {
      LockStep(states[a], steps[a]);
      ExitStart(states[a], steps[a]);
    } else {
      ExitRun(states, steps, a, b - 1, c);
      var s, st, p, n := states[b - 1], steps[b - 1], states[a].cproc[c], Turns(steps, a, b - 1, c);
      if st.c == c {
        ExitStep(s, st, p, n, states[a].t);
      } else {
        OtherStep(s, st, c);
        ExitSame(s, states[b], c, p, n, states[a].t);
      }
    }
  }

  /** In every run: when exit has done its turns, its process is a zombie without children, and those it had
      are children of init. */
  lemma ExitTakesEffect(states: seq<Sys>, steps: seq<Step>, a: int, b: int, c: int)
    requires IsRun(states, steps) && 0 <= a < b < |steps| && steps[a] == Lock(c, ExitWake) && steps[b].c == c
    requires Turns(steps, a, b, c) == |states[a].t| + 1
    ensures 0 <= c < |states[a].cproc| && 0 <= states[a].cproc[c] < |states[a].t| == |states[b + 1].t|
    ensures var p, t, u := states[a].cproc[c], states[a].t, states[b + 1].t;
            && steps[b] == Do(c) && u[p].state == ZOMBIE && states[b + 1].lock == Some(c)
            && (forall q | 0 <= q < |t| && t[q].parent == p :: u[q].parent == states[b + 1].init)
            && (forall q | 0 <= q < |t| :: u[q].parent != p)
  {
    hide Inv, Init, Next, Enabled;
    ExitRun(states, steps, a, b, c);
    ExitRun(states, steps, a, b + 1, c);
    RunInv(states, steps, b);
    assert Follows(states, steps, b);
    ExitStep(states[b], steps[b], states[a].cproc[c], |states[a].t| + 1, states[a].t);
    LastExit(states[b], steps[b]);
  }

  lemma LastExit(s: Sys, st: Step)
    requires Inv(s) && Enabled(s, st) && st.Do? && s.cpu[st.c].act == ExitScan(|s.t|)
    ensures forall q | 0 <= q < |s.t| :: Next(s, st).t[q].parent != s.cpu[st.c].p
  {
    hide Family, WaitersOk, CpusOk;
    Holder(s, st.c);
  }

  /** The table before and after one turn of wait, at slot i: a zombie child is reaped; at the end, without
      children or when killed, nothing is done, and otherwise the process sleeps. free: the call returns. */
  ghost predicate WaitTurn(t: Table, u: Table, p: int, i: int, free: bool) {
    && 0 <= p < |t| && 0 <= i <= |t| && (forall j | 0 <= j < i :: !IsZombieChild(t, p, j))
    && if i < |t| then
         if IsZombieChild(t, p, i)
         then u == t[i := t[i].(pid := 0, parent := NONE, killed := false, state := UNUSED)] && free
         else u == t && !free
       else if t[p].killed || forall j | 0 <= j < |t| :: t[j].parent != p then u == t && free
       else u == t[p := t[p].(state := SLEEPING, chan := Self(p))] && !free
  }

  lemma WaitStep(s: Sys, st: Step)
    requires Inv(s) && Enabled(s, st) && s.cpu[st.c].Locked? && s.cpu[st.c].act.WaitScan?
    ensures var r, p, i := Next(s, st), s.cpu[st.c].p, s.cpu[st.c].act.i;
            && st.Do? && WaitTurn(s.t, r.t, p, i, r.lock.None?) && s.t[p].state == RUNNING
            && (i < |s.t| && !IsZombieChild(s.t, p, i) ==>
                  r.cpu[st.c].Locked? && r.cpu[st.c].p == p && r.cpu[st.c].act.WaitScan? && r.cpu[st.c].act.i == i + 1
                  && r.lock == s.lock)
  {
    hide Family, WaitersOk, CpusOk, DoExit;
    Holder(s, st.c);
  }

  /** CPU c begins a scan of wait at step a: the call, or the return from its sleep. */
  ghost predicate EntersWait(states: seq<Sys>, steps: seq<Step>, a: int, c: int)
    requires 0 <= a < |steps| < |states|
  {
    || steps[a] == Lock(c, WaitScan(0, false))
    || (steps[a] == Dispatch(c) && 0 <= c < |states[a + 1].cproc|
        && 0 <= states[a + 1].cproc[c] < |states[a].pos| && states[a].pos[states[a + 1].cproc[c]].InWait?)
  }

  lemma WaitStart(s: Sys, st: Step)
    requires Inv(s) && Enabled(s, st)
    requires var r := Next(s, st);
             st == Lock(st.c, WaitScan(0, false)) || (st.Dispatch? && |r.cproc| == |s.cproc| && 0 <= st.c < |s.cproc|
               && 0 <= r.cproc[st.c] < |s.pos| && s.pos[r.cproc[st.c]].InWait?)
    ensures var r := Next(s, st);
            0 <= st.c < |r.cproc| == |r.cpu| && r.cpu[st.c] == Locked(r.cproc[st.c], WaitScan(0, false))
            && r.lock == Some(st.c)
  {
    FamilyShape(s);
    assert st.Dispatch? ==> HasLock(s.cpu[st.c]);
    assert st.Lock? ==> s.cproc[st.c] == On(s.cpu[st.c]);
  }

  /** Where a scan of wait is, if its turns so far have not ended it. */
  ghost predicate Waiting(s: Sys, c: int, p: int, n: int) {
    && 0 <= c < |s.cpu| && s.cpu[c].Locked? && s.cpu[c].p == p && s.cpu[c].act.WaitScan? && s.cpu[c].act.i == n
    && s.lock == Some(c)
  }

  lemma {:induction false} WaitRun(states: seq<Sys>, steps: seq<Step>, a: int, b: int, c: int)
    requires IsRun(states, steps) && 0 <= a < b <= |steps| && EntersWait(states, steps, a, c)
    requires forall i | a < i < b && steps[i].c == c :: Passes(states, steps, i, c)
    ensures 0 <= c < |states[a + 1].cproc| && |states[b].t| == |states[a].t|
    ensures Waiting(states[b], c, states[a + 1].cproc[c], Turns(steps, a, b, c))
    decreases b
  {
    hide Inv, Init, Next, Enabled;
    RunInv(states, steps, b - 1);
    assert Follows(states, steps, b - 1);
    Named(states[b - 1], steps[b - 1]);
    if b == a + 1 {
      WaitStart(states[a], steps[a]);
    } else {
      WaitRun(states, steps, a, b - 1, c);
      if steps[b - 1].c == c {
        assert Passes(states, steps, b - 1, c);
        WaitStep(states[b - 1], steps[b - 1]);
      } else {
        OtherStep(states[b - 1], steps[b - 1], c);
      }
    }
  }

  /** The turn at step i neither reaps, nor returns, nor sleeps: the same table, the lock kept. */
  ghost predicate Passes(states: seq<Sys>, steps: seq<Step>, i: int, c: int)
    requires 0 <= i < |steps| < |states|
  {
    states[i + 1].t == states[i].t && states[i + 1].lock == Some(c)
  }

  /** In every run: each turn of a scan of wait does what the source does at its slot. */
  lemma WaitTakesEffect(states: seq<Sys>, steps: seq<Step>, a: int, b: int, c: int)
    requires IsRun(states, steps) && 0 <= a < b < |steps| && EntersWait(states, steps, a, c) && steps[b].c == c
    requires forall i | a < i < b && steps[i].c == c :: Passes(states, steps, i, c)
    ensures 0 <= c < |states[a + 1].cproc| && steps[b] == Do(c)
    ensures WaitTurn(states[b].t, states[b + 1].t, states[a + 1].cproc[c], Turns(steps, a, b, c),
                     states[b + 1].lock.None?)
  {
    hide Inv, Init, Next, Enabled, WaitTurn;
    WaitRun(states, steps, a, b, c);
    RunInv(states, steps, b);
    assert Follows(states, steps, b);
    WaitStep(states[b], steps[b]);
  }

  // ---------------------------------------------------------------- no deadlock

  /** A step by which CPU c goes on, on its own part: with what it holds the lock for, or in order to take it. */
  lemma CanStep(s: Sys, c: int) returns (st: Step)
    requires Inv(s) && 0 <= c < |s.cpu| && (s.lock.None? || s.lock == Some(c))
    ensures st.c == c && Enabled(s, st)
  {
    hide WaitersOk;
    FamilyShape(s);
    assert HasLock(s.cpu[c]) <==> s.lock == Some(c);
    match s.cpu[c] {
      case Idle => st := SchedLock(c);
      case Scan(i) => st := if i < |s.t| then Look(c) else SchedUnlock(c);
      case Choose(h, j) =>
        assert BestBelow(s.t, h, j);
        st := if j < |s.t| then Compare(c) else Dispatch(c);
      case Runs(p) => st := Lock(c, Yielding);
      case Back(p) =>
        assert On(s.cpu[c]) == p;
        st := Clear(c);
      case Locked(p, act) =>
        Holder(s, c);
        st := LockedStep(s, c);
    }
  }

  lemma LockedStep(s: Sys, c: int) returns (st: Step)
    requires Inv(s) && 0 <= c < |s.cpu| && s.cpu[c].Locked?
    ensures st.c == c && Enabled(s, st)
  {
    Holder(s, c);
    var p, act := s.cpu[c].p, s.cpu[c].act;
    if act.Allocating? {
      st := Alloc(c, FindUnused(s.t, |s.t|));
    } else {
      if act.Finishing? {
        assert HasEmbryo(s.t, s.pos, p);
      }
      st := Do(c);
    }
  }

  function FindUnused(t: Table, n: nat): (np: int)
    requires n <= |t|
    ensures if np == NONE then forall i | 0 <= i < n :: t[i].state != UNUSED else np < n && FirstUnused(t, np)
  {
    if n == 0 then NONE
    else
      var np := FindUnused(t, n - 1);
      if np != NONE then np else if t[n - 1].state == UNUSED then n - 1 else NONE
  }

  /** In every run: the CPU that has ptable.lock can go on, and when the lock is free every CPU can. */
  lemma NoDeadlock(states: seq<Sys>, steps: seq<Step>, k: nat, c: int) returns (st: Step)
    requires IsRun(states, steps) && k <= |steps| && 0 <= c < |states[k].cpu|
    ensures Enabled(states[k], st)
    ensures st.c == if states[k].lock.Some? then states[k].lock.value else c
  {
    RunInv(states, steps, k);
    hide Enabled, Family, WaitersOk, ActsOk;
    st := CanStep(states[k], if states[k].lock.Some? then states[k].lock.value else c);
  }
}
