/** Every step keeps the invariant; what that means whenever ptable.lock is free. */
module ProcCorrect {
  import opened Basics
  import opened ProcTable
  import opened ProcProtocol

  // ---------------------------------------------------------------- the CPUs

  /** A CPU goes on with its process, or its process gives it up. */
  lemma MoveCpu(t: Table, u: Table, cpu: seq<Cpu>, cproc: seq<int>, lock: Option<int>, c: int, x: Cpu)
    requires CpusOk(t, cpu, cproc, lock) && 0 <= c < |cpu| && |u| == |t|
    requires On(x) == On(cpu[c]) != NONE && !cpu[c].Back?
    requires forall p | 0 <= p < |t| && p != On(x) :: u[p].state == RUNNING <==> t[p].state == RUNNING
    requires u[On(x)].state == RUNNING <==> !x.Back?
    requires HasLock(x) ==> lock.None? || lock == Some(c)
    ensures CpusOk(u, cpu[c := x], cproc, Passed(lock, c, HasLock(x)))
  {
    var cpu' := cpu[c := x];
    forall p | 0 <= p < |u| && u[p].state == RUNNING ensures exists d :: Executes(cpu', d, p) {
      if p == On(x) {
        assert Executes(cpu', c, p);
      } else {
        var d :| Executes(cpu, d, p);
        assert Executes(cpu', d, p);
      }
    }
  }

  lemma DispatchCpu(t: Table, cpu: seq<Cpu>, cproc: seq<int>, lock: Option<int>, c: int, p: int, act: Act)
    requires CpusOk(t, cpu, cproc, lock) && 0 <= c < |cpu| && cpu[c].Choose? && 0 <= p < |t| && t[p].state == RUNNABLE
    ensures CpusOk(SetState(t, p, RUNNING), cpu[c := Locked(p, act)], cproc[c := p], lock)
  {
    var u, cpu' := SetState(t, p, RUNNING), cpu[c := Locked(p, act)];
    forall q | 0 <= q < |u| && u[q].state == RUNNING ensures exists d :: Executes(cpu', d, q) {
      if q == p {
        assert Executes(cpu', c, p);
      } else {
        var d :| Executes(cpu, d, q);
        assert Executes(cpu', d, q);
      }
    }
  }

  /** A CPU moves within its scheduler. */
  lemma SchedCpu(t: Table, cpu: seq<Cpu>, cproc: seq<int>, lock: Option<int>, c: int, x: Cpu)
    requires CpusOk(t, cpu, cproc, lock) && 0 <= c < |cpu| && !cpu[c].Runs? && !cpu[c].Locked? && On(x) == NONE
             && !x.Runs? && !x.Locked? && !x.Back?
    requires HasLock(x) ==> lock.None? || lock == Some(c)
    ensures CpusOk(t, cpu[c := x], cproc[c := NONE], Passed(lock, c, HasLock(x)))
  {
    var cpu' := cpu[c := x];
    forall q | 0 <= q < |t| && t[q].state == RUNNING ensures exists d :: Executes(cpu', d, q) {
      var d :| Executes(cpu, d, q);
      assert Executes(cpu', d, q);
    }
  }

  // ---------------------------------------------------------------- the actions

  /** The holder of the lock, or a CPU that takes it, moves: no other CPU is in an action. */
  lemma HolderActs(s: Sys, r: Sys, c: int)
    requires |s.pos| == |s.t| == |r.t| == |r.pos| && CpusOk(s.t, s.cpu, s.cproc, s.lock) && ActsOk(s)
    requires 0 <= c < |s.cpu| && (s.lock.None? || s.lock == Some(c)) && |r.cpu| == |s.cpu|
             && r.cpu == s.cpu[c := r.cpu[c]]
    requires forall p | 0 <= p < |s.pos| && p != On(s.cpu[c]) :: r.pos[p] == s.pos[p]
    requires On(r.cpu[c]) != NONE ==> 0 <= On(r.cpu[c]) < |r.t|
    requires r.cpu[c].Locked? ==> r.cpu[c].p >= 0 && ActOk(r, r.cpu[c].p, r.cpu[c].act)
    requires r.cpu[c].Runs? ==> r.cpu[c].p >= 0 && !r.pos[r.cpu[c].p].InWait?
    requires r.cpu[c].Back? ==> 0 <= r.cpu[c].p
    requires r.cpu[c].Scan? ==> 0 <= r.cpu[c].i <= |r.t|
    requires r.cpu[c].Choose? ==> BestBelow(r.t, r.cpu[c].h, r.cpu[c].j)
    ensures ActsOk(r)
  {
  }

  /** A process without the lock changes its embryo: nothing an action of another depends on. */
  lemma ForkerAct(s: Sys, r: Sys, f: int, np: int, p: int, act: Act)
    requires |s.pos| == |s.t| == |r.t| == |r.pos| && 0 <= np < |s.t| && 0 <= p < |s.t| && 0 <= f < |s.t|
    requires r.init == s.init && r.t == s.t[np := r.t[np]] && !Alive(r.t[np].state) && r.t[np].state != ZOMBIE
    requires s.t[np].parent == NONE && (r.t[np].parent == NONE || r.t[np].parent == f)
    requires r.pos == s.pos[f := r.pos[f]] && p != f && p != np && ActOk(s, p, act)
    ensures ActOk(r, p, act)
  {
    assert forall i | 0 <= i < |s.t| && i != np :: r.t[i] == s.t[i];
    if act.ExitScan? {
      assert forall j | 0 <= j < act.i :: r.t[j].parent != p;
    } else if act.WaitScan? {
      forall j | 0 <= j < act.i ensures !IsZombieChild(r.t, p, j) { assert !IsZombieChild(s.t, p, j); }
      assert forall j | 0 <= j < |s.t| :: r.t[j].parent == p <==> s.t[j].parent == p;
    }
  }

  lemma ForkerActs(s: Sys, r: Sys, c: int, np: int)
    requires Inv(s) && 0 <= c < |s.cpu| && s.cpu[c].Runs? && 0 <= np < |s.t| == |r.t| && |r.pos| == |s.pos|
    requires r.cpu == s.cpu && r.init == s.init
    requires s.t[np].state == EMBRYO && r.t == s.t[np := r.t[np]] && !Alive(r.t[np].state) && r.t[np].state != ZOMBIE
    requires s.t[np].parent == NONE && (r.t[np].parent == NONE || r.t[np].parent == s.cpu[c].p)
    requires 0 <= s.cpu[c].p < |s.t| && r.pos == s.pos[s.cpu[c].p := r.pos[s.cpu[c].p]] && !r.pos[s.cpu[c].p].InWait?
    ensures |r.pos| == |r.t| && ActsOk(r)
  {
    FamilyShape(s);
    hide WaitersOk, Family, ActOk;
    forall d | 0 <= d < |s.cpu| && s.cpu[d].Locked?
      ensures 0 <= r.cpu[d].p < |r.t| && ActOk(r, r.cpu[d].p, r.cpu[d].act)
    {
      var p, act := s.cpu[d].p, s.cpu[d].act;
      assert d != c && p != s.cpu[c].p by { assert On(s.cpu[c]) == s.cpu[c].p != NONE && On(s.cpu[d]) == p; }
      assert s.t[p].state == RUNNING;
      ForkerAct(s, r, s.cpu[c].p, np, p, act);
    }
    forall d | 0 <= d < |s.cpu| && s.cpu[d].Choose? ensures BestBelow(r.t, r.cpu[d].h, r.cpu[d].j) {
      assert BestBelow(s.t, s.cpu[d].h, s.cpu[d].j);
      assert forall i | 0 <= i < |s.t| && i != np :: r.t[i] == s.t[i];
    }
  }

  // ---------------------------------------------------------------- the steps

  lemma SchedInv(s: Sys, st: Step)
    requires Inv(s) && Enabled(s, st) && (st.SchedLock? || st.SchedUnlock? || st.Look? || st.Compare? || st.Clear?)
    ensures Inv(Next(s, st))
  {
    hide Family, WaitersOk;
    var r := Next(s, st);
    assert HasLock(s.cpu[st.c]) <==> s.lock == Some(st.c);
    SchedCpu(s.t, s.cpu, s.cproc, s.lock, st.c, r.cpu[st.c]);
    assert s.cproc[st.c] == On(s.cpu[st.c]);
    assert st.Clear? || s.cproc[st.c := NONE] == s.cproc;
    assert |s.pos| == |s.t| by { FamilyShape(s); }
    HolderActs(s, r, st.c);
  }

  lemma FamilyShape(s: Sys)
    requires Family(s.t, s.pos, s.init)
    ensures |s.pos| == |s.t| && 0 <= s.init < |s.t| && Alive(s.t[s.init].state)
  {
  }

  lemma DispatchInv(s: Sys, st: Step)
    requires Inv(s) && Enabled(s, st) && st.Dispatch?
    ensures Inv(Next(s, st))
  {
    var r, p := Next(s, st), s.cpu[st.c].h;
    assert BestBelow(s.t, p, s.cpu[st.c].j);
    KinFamily(s.t, r.t, s.pos, s.init);
    QuietWaiters(s.t, r.t);
    FamilyShape(s);
    assert Forking(s.pos[p]) || s.pos[p].Out? || s.pos[p].InWait?;
    hide Family, WaitersOk;
    DispatchCpu(s.t, s.cpu, s.cproc, s.lock, st.c, p, r.cpu[st.c].act);
    assert HasLock(s.cpu[st.c]) && s.lock == Some(st.c);
    HolderActs(s, r, st.c);
  }

  lemma LockInv(s: Sys, st: Step)
    requires Inv(s) && Enabled(s, st) && st.Lock?
    ensures Inv(Next(s, st))
  {
    FamilyShape(s);
    hide Family, WaitersOk;
    var r, p := Next(s, st), s.cpu[st.c].p;
    assert !s.pos[p].InWait?;
    MoveCpu(s.t, s.t, s.cpu, s.cproc, s.lock, st.c, r.cpu[st.c]);
    HolderActs(s, r, st.c);
  }

  /** A process gives up or keeps its CPU, and its parents, zombies and forks stay as they are. */
  lemma PlainInv(s: Sys, c: int, u: Table, x: Cpu)
    requires Inv(s) && 0 <= c < |s.cpu| && s.cpu[c].Locked? && On(x) == s.cpu[c].p && (x.Runs? || x.Back?)
             && 0 <= x.p
    requires SameKin(s.t, u) && Quiet(s.t, u) && !s.pos[On(x)].InWait?
    requires forall p | 0 <= p < |s.t| && p != On(x) :: u[p].state == RUNNING <==> s.t[p].state == RUNNING
    requires u[On(x)].state == RUNNING <==> !x.Back?
    ensures Inv(s.(t := u, cpu := s.cpu[c := x], lock := Passed(s.lock, c, HasLock(x))))
  {
    var r := s.(t := u, cpu := s.cpu[c := x], lock := Passed(s.lock, c, HasLock(x)));
    KinFamily(s.t, u, s.pos, s.init);
    QuietWaiters(s.t, u);
    FamilyShape(s);
    hide Family, WaitersOk;
    assert HasLock(s.cpu[c]) && s.lock == Some(c);
    assert On(s.cpu[c]) != NONE;
    MoveCpu(s.t, u, s.cpu, s.cproc, s.lock, c, x);
    HolderActs(s, r, c);
  }

  /** What is known of the process that holds the lock. */
  lemma Holder(s: Sys, c: int)
    requires Inv(s) && 0 <= c < |s.cpu| && s.cpu[c].Locked?
    ensures |s.pos| == |s.t| && 0 <= s.init < |s.t| && 0 <= s.cpu[c].p < |s.t| && s.lock == Some(c)
    ensures s.t[s.cpu[c].p].state == RUNNING && ActOk(s, s.cpu[c].p, s.cpu[c].act)
    ensures s.t[s.cpu[c].p].parent != s.cpu[c].p
  {
    FamilyShape(s);
    assert HasLock(s.cpu[c]) && On(s.cpu[c]) == s.cpu[c].p;
  }

  lemma PlainActInv(s: Sys, st: Step)
    requires Inv(s) && Enabled(s, st) && st.Do?
    requires var act := s.cpu[st.c].act;
             act.Return? || act.Yielding? || act.Sleeping? || act.Waking? || act.Killing? || act.Nicing?
    ensures Inv(Next(s, st))
  {
    hide Inv, DoExit, DoWait;
    var c, r := st.c, Next(s, st);
    Holder(s, c);
    PlainInv(s, c, r.t, r.cpu[c]);
  }

  /** The process keeps its CPU and the lock, and goes on with its exit or wait. */
  lemma OnwardInv(s: Sys, c: int, u: Table, act: Act)
    requires Inv(s) && 0 <= c < |s.cpu| && s.cpu[c].Locked? && |u| == |s.t|
    requires Family(u, s.pos, s.init) && WaitersOk(u)
    requires forall p | 0 <= p < |s.t| :: u[p].state == RUNNING <==> s.t[p].state == RUNNING
    requires 0 <= s.cpu[c].p < |s.t| == |s.pos| && ActOk(s.(t := u), s.cpu[c].p, act)
    ensures Inv(s.(t := u, cpu := s.cpu[c := Locked(s.cpu[c].p, act)]))
  {
    hide Family, WaitersOk, ActOk;
    Holder(s, c);
    var r := s.(t := u, cpu := s.cpu[c := Locked(s.cpu[c].p, act)]);
    MoveCpu(s.t, u, s.cpu, s.cproc, s.lock, c, r.cpu[c]);
    SameAct(s.(t := u), r, s.cpu[c].p, act);
    HolderActs(s, r, c);
  }

  lemma SameAct(s: Sys, r: Sys, p: int, act: Act)
    requires 0 <= p < |s.pos| == |s.t| && r.pos == s.pos && r.t == s.t && r.init == s.init && ActOk(s, p, act)
    ensures ActOk(r, p, act)
  {
  }

  lemma ExitWakeInv(s: Sys, st: Step)
    requires Inv(s) && Enabled(s, st) && st.Do? && s.cpu[st.c].act.ExitWake?
    ensures Inv(Next(s, st))
  {
    hide Family, WaitersOk, CpusOk, ActsOk, DoExit, DoWait;
    var c, r := st.c, Next(s, st);
    Holder(s, c);
    KinFamily(s.t, r.t, s.pos, s.init);
    QuietWaiters(s.t, r.t);
    OnwardInv(s, c, r.t, ExitScan(0));
  }

  lemma AdoptAct(s: Sys, p: int, i: int)
    requires 0 <= p < |s.pos| == |s.t| && 0 <= s.init < |s.t| && 0 <= i < |s.t| && s.t[p].parent != p
    requires ActOk(s, p, ExitScan(i))
    ensures var u := AdoptOne(s.t, p, s.init, i);
            && ActOk(s.(t := u), p, ExitScan(i + 1))
            && forall q | 0 <= q < |s.t| :: u[q].state == RUNNING <==> s.t[q].state == RUNNING
  {
    var u := AdoptOne(s.t, p, s.init, i);
    assert forall q | 0 <= q < |s.t| :: u[q].parent == if q == i && s.t[i].parent == p then s.init else s.t[q].parent;
  }

  lemma HolderIsOut(s: Sys, p: int, i: int)
    requires 0 <= p < |s.pos| == |s.t| && ActOk(s, p, ExitScan(i))
    ensures s.pos[p].Out? && p != s.init
  {
  }

  lemma AdoptNext(s: Sys, st: Step)
    requires Enabled(s, st) && st.Do? && s.cpu[st.c].act.ExitScan? && s.cpu[st.c].act.i < |s.t|
    ensures var p, i := s.cpu[st.c].p, s.cpu[st.c].act.i;
            Next(s, st) == s.(t := AdoptOne(s.t, p, s.init, i), cpu := s.cpu[st.c := Locked(p, ExitScan(i + 1))])
  {
    hide AdoptOne;
  }

  lemma AdoptInv(s: Sys, st: Step)
    requires Inv(s) && Enabled(s, st) && st.Do? && s.cpu[st.c].act.ExitScan? && s.cpu[st.c].act.i < |s.t|
    ensures Inv(Next(s, st))
  {
    hide AdoptOne, ActsOk, CpusOk, Next, ActOk, Family, WaitersOk, Best, MayDo;
    var c, p, i := st.c, s.cpu[st.c].p, s.cpu[st.c].act.i;
    AdoptNext(s, st);
    Holder(s, c);
    AdoptAct(s, p, i);
    HolderIsOut(s, p, i);
    AdoptFamily(s.t, s.pos, s.init, p, i);
    AdoptWaiters(s.t, p, s.init, i);
    OnwardInv(s, c, AdoptOne(s.t, p, s.init, i), ExitScan(i + 1));
  }

  lemma ZombieInv(s: Sys, st: Step)
    requires Inv(s) && Enabled(s, st) && st.Do? && s.cpu[st.c].act.ExitScan? && s.cpu[st.c].act.i == |s.t|
    ensures Inv(Next(s, st))
  {
    var c, p, r := st.c, s.cpu[st.c].p, Next(s, st);
    Holder(s, c);
    ZombieFamily(s.t, s.pos, s.init, p);
    ZombieWaiters(s.t, p);
    hide Family, WaitersOk;
    MoveCpu(s.t, r.t, s.cpu, s.cproc, s.lock, c, r.cpu[c]);
    HolderActs(s, r, c);
  }

  lemma WaitOnInv(s: Sys, st: Step)
    requires Inv(s) && Enabled(s, st) && st.Do? && s.cpu[st.c].act.WaitScan? && s.cpu[st.c].act.i < |s.t|
    requires !IsZombieChild(s.t, s.cpu[st.c].p, s.cpu[st.c].act.i)
    ensures Inv(Next(s, st))
  {
    hide Family, WaitersOk, CpusOk, ActsOk;
    var c, r := st.c, Next(s, st);
    Holder(s, c);
    OnwardInv(s, c, s.t, r.cpu[c].act);
    assert s.(t := s.t) == s;
  }

  /** wait is left: with a child reaped, or without. */
  lemma LeaveWaitInv(s: Sys, c: int, u: Table)
    requires Inv(s) && 0 <= c < |s.cpu| && s.cpu[c].Locked? && s.cpu[c].act.WaitScan? && |u| == |s.t|
    requires 0 <= s.cpu[c].p < |s.pos| && Family(u, s.pos[s.cpu[c].p := Out], s.init) && WaitersOk(u)
    requires forall p | 0 <= p < |s.t| :: u[p].state == RUNNING <==> s.t[p].state == RUNNING
    ensures Inv(Unlock(s.(t := u, pos := s.pos[s.cpu[c].p := Out]), c, s.cpu[c].p))
  {
    Holder(s, c);
    hide Family, WaitersOk;
    var p := s.cpu[c].p;
    var r := Unlock(s.(t := u, pos := s.pos[p := Out]), c, p);
    MoveCpu(s.t, u, s.cpu, s.cproc, s.lock, c, Runs(p));
    HolderActs(s, r, c);
  }

  lemma ReapInv(s: Sys, st: Step)
    requires Inv(s) && Enabled(s, st) && st.Do? && s.cpu[st.c].act.WaitScan? && s.cpu[st.c].act.i < |s.t|
    requires IsZombieChild(s.t, s.cpu[st.c].p, s.cpu[st.c].act.i)
    ensures Inv(Next(s, st))
  {
    var c, p, i, r := st.c, s.cpu[st.c].p, s.cpu[st.c].act.i, Next(s, st);
    Holder(s, c);
    ReapFamily(s.t, s.pos, s.init, i);
    WaitFamily(r.t, s.pos, s.init, p, Out);
    QuietWaiters(s.t, r.t);
    hide Inv, Family, WaitersOk;
    LeaveWaitInv(s, c, r.t);
  }

  lemma WaitEndInv(s: Sys, st: Step)
    requires Inv(s) && Enabled(s, st) && st.Do? && s.cpu[st.c].act.WaitScan? && s.cpu[st.c].act.i == |s.t|
    ensures Inv(Next(s, st))
  {
    var c, p, r := st.c, s.cpu[st.c].p, Next(s, st);
    Holder(s, c);
    if !s.cpu[c].act.kids || s.t[p].killed {
      WaitFamily(s.t, s.pos, s.init, p, Out);
      hide Family, WaitersOk;
      LeaveWaitInv(s, c, s.t);
      assert s.(t := s.t) == s;
    } else {
      SleepWaiters(s.t, p);
      KinFamily(s.t, r.t, s.pos, s.init);
      WaitFamily(r.t, s.pos, s.init, p, InWait);
      hide Family, WaitersOk;
      MoveCpu(s.t, r.t, s.cpu, s.cproc, s.lock, c, r.cpu[c]);
      HolderActs(s, r, c);
    }
  }

  lemma FinishInv(s: Sys, st: Step)
    requires Inv(s) && Enabled(s, st) && st.Do? && s.cpu[st.c].act.Finishing?
    ensures Inv(Next(s, st))
  {
    var c, p, r := st.c, s.cpu[st.c].p, Next(s, st);
    Holder(s, c);
    FinishFamily(s.t, s.pos, s.init, p);
    assert HasEmbryo(s.t, s.pos, p);
    QuietWaiters(s.t, r.t);
    hide Family, WaitersOk;
    MoveCpu(s.t, r.t, s.cpu, s.cproc, s.lock, c, r.cpu[c]);
    HolderActs(s, r, c);
  }

  lemma AllocInv(s: Sys, st: Step)
    requires Inv(s) && Enabled(s, st) && st.Alloc?
    ensures Inv(Next(s, st))
  {
    var c, p, r := st.c, s.cpu[st.c].p, Next(s, st);
    Holder(s, c);
    if st.np != NONE {
      AllocFamily(s.t, s.pos, s.init, p, st.np);
    }
    QuietWaiters(s.t, r.t);
    hide Family, WaitersOk;
    MoveCpu(s.t, r.t, s.cpu, s.cproc, s.lock, c, r.cpu[c]);
    HolderActs(s, r, c);
  }

  lemma ForkInv(s: Sys, st: Step)
    requires Inv(s) && Enabled(s, st) && (st.Abort? || st.SetParent?)
    ensures Inv(Next(s, st))
  {
    var c, p, r := st.c, s.cpu[st.c].p, Next(s, st);
    FamilyShape(s);
    assert On(s.cpu[c]) == p && s.t[p].state == RUNNING;
    assert HasEmbryo(s.t, s.pos, p);
    AbortFamily(s.t, s.pos, s.init, p);
    SetParentFamily(s.t, s.pos, s.init, p);
    QuietWaiters(s.t, r.t);
    ForkerActs(s, r, c, s.pos[p].np);
    hide Family, WaitersOk, ActsOk;
    EmbryoCpus(s.t, r.t, s.cpu, s.cproc, s.lock);
  }

  lemma EmbryoCpus(t: Table, u: Table, cpu: seq<Cpu>, cproc: seq<int>, lock: Option<int>)
    requires CpusOk(t, cpu, cproc, lock) && |u| == |t|
    requires forall p | 0 <= p < |t| :: u[p].state == RUNNING <==> t[p].state == RUNNING
    ensures CpusOk(u, cpu, cproc, lock)
  {
  }

  lemma StepInv(s: Sys, st: Step)
    requires Inv(s) && Enabled(s, st)
    ensures Inv(Next(s, st))
  {
    if st.Do? {
      Holder(s, st.c);
      DoInv(s, st);
    } else {
      hide Inv, Next;
      if st.Dispatch? { DispatchInv(s, st); }
      else if st.Lock? { LockInv(s, st); }
      else if st.Alloc? { AllocInv(s, st); }
      else if st.Abort? || st.SetParent? { ForkInv(s, st); }
      else { SchedInv(s, st); }
    }
  }

  lemma DoInv(s: Sys, st: Step)
    requires Inv(s) && Enabled(s, st) && st.Do?
    ensures Inv(Next(s, st))
  {
    Holder(s, st.c);
    hide Inv, Next;
    var act := s.cpu[st.c].act;
    if act.ExitWake? { ExitWakeInv(s, st); }
    else if act.ExitScan? {
      if act.i < |s.t| { AdoptInv(s, st); } else { ZombieInv(s, st); }
    } else if act.WaitScan? {
      if act.i == |s.t| { WaitEndInv(s, st); }
      else if IsZombieChild(s.t, s.cpu[st.c].p, act.i) { ReapInv(s, st); }
      else { WaitOnInv(s, st); }
    } else if act.Finishing? { FinishInv(s, st); }
    else { PlainActInv(s, st); }
  }

  // ---------------------------------------------------------------- whole runs

  ghost predicate IsRun(states: seq<Sys>, steps: seq<Step>) {
    && |states| == |steps| + 1 && Init(states[0])
    && forall i | 0 <= i < |steps| :: Follows(states, steps, i)
  }

  ghost predicate Follows(states: seq<Sys>, steps: seq<Step>, i: int)
    requires |states| == |steps| + 1 && 0 <= i < |steps|
  {
    Enabled(states[i], steps[i]) && states[i + 1] == Next(states[i], steps[i])
  }

  lemma {:induction false} RunInv(states: seq<Sys>, steps: seq<Step>, k: nat)
    requires IsRun(states, steps) && k <= |steps|
    ensures Inv(states[k])
  {
    hide Inv, Init, Next, Enabled;
    if k == 0 {
      InitInv(states[0]);
    } else {
      RunInv(states, steps, k - 1);
      assert Follows(states, steps, k - 1);
      StepInv(states[k - 1], steps[k - 1]);
    }
  }

  /** In every run: every fully forked process other than init has a parent that is neither unused nor
      a zombie, so no process is ever left without someone to wait for it. */
  lemma ParentsLive(states: seq<Sys>, steps: seq<Step>, k: nat, q: int)
    requires IsRun(states, steps) && k <= |steps| && 0 <= q < |states[k].t| && q != states[k].init
    requires states[k].t[q].state != UNUSED && states[k].t[q].state != EMBRYO
    ensures var t := states[k].t; 0 <= t[q].parent < |t| && Alive(t[t[q].parent].state)
  {
    RunInv(states, steps, k);
    assert HasParent(states[k].t, q);
  }

  /** In every run: no process sleeps in wait while it has a zombie child. */
  lemma NoWaitOverZombie(states: seq<Sys>, steps: seq<Step>, k: nat, p: int, q: int)
    requires IsRun(states, steps) && k <= |steps| && 0 <= q < |states[k].t| && AsleepInWait(states[k].t, p)
    ensures !IsZombieChild(states[k].t, p, q)
  {
    RunInv(states, steps, k);
  }

  /** In every run, whenever the lock is free: a process is running if and only if one CPU's proc field
      names it, and that CPU is the only one. */
  lemma RunningOnOneCpu(states: seq<Sys>, steps: seq<Step>, k: nat, p: int)
    requires IsRun(states, steps) && k <= |steps| && 0 <= p < |states[k].t| && states[k].lock.None?
    ensures states[k].t[p].state == RUNNING <==> exists c :: 0 <= c < |states[k].cproc| && states[k].cproc[c] == p
    ensures forall c, d | 0 <= c < d < |states[k].cproc| && states[k].cproc[c] == p :: states[k].cproc[d] != p
  {
    RunInv(states, steps, k);
    var s := states[k];
    if s.t[p].state == RUNNING {
      var c :| Executes(s.cpu, c, p);
      assert s.cproc[c] == p;
    }
  }

  /** In every run: no two CPUs execute one process, the lock held or not. */
  lemma NoTwoCpusOnOneProcess(states: seq<Sys>, steps: seq<Step>, k: nat, c: int, d: int, p: int)
    requires IsRun(states, steps) && k <= |steps| && Executes(states[k].cpu, c, p) && Executes(states[k].cpu, d, p)
             && p != NONE
    ensures c == d && 0 <= p < |states[k].t| && states[k].t[p].state == RUNNING
  {
    RunInv(states, steps, k);
  }

  /** In every run: the process dispatched was on no CPU, and no runnable process has a lower priority
      value. */
  lemma DispatchesBest(states: seq<Sys>, steps: seq<Step>, k: nat)
    requires IsRun(states, steps) && k < |steps| && steps[k].Dispatch?
    ensures var c := steps[k].c; 0 <= c < |states[k + 1].cproc| && Best(states[k].t, states[k + 1].cproc[c])
    ensures forall c | 0 <= c < |states[k].cproc| :: states[k].cproc[c] != states[k + 1].cproc[steps[k].c]
  {
    RunInv(states, steps, k);
    assert Follows(states, steps, k);
    var s, p := states[k], states[k].cpu[steps[k].c].h;
    assert BestBelow(s.t, p, s.cpu[steps[k].c].j);
    forall c | 0 <= c < |s.cproc| ensures s.cproc[c] != p {
      assert HasLock(s.cpu[steps[k].c]) && s.lock == Some(steps[k].c);
      assert s.cproc[c] == On(s.cpu[c]);
    }
  }
}
