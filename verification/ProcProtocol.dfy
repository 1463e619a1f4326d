/** Processes and CPUs: the scheduler, yield, sleep, wakeup, kill, nice, fork, exit and wait as steps of
    CPUs, with ptable.lock explicit. The lock belongs to a CPU: a process that gives up its CPU in sched
    leaves it to the scheduler, and a process that is dispatched finds it held. Any number of processes
    and CPUs. */
module ProcProtocol {
  import opened Basics
  import opened ProcTable

  /** Where a process is in fork or wait. */
  datatype Pos = Out | Embryo(np: int) | Parented(np: int) | InWait

  /** What a process does while it holds ptable.lock. */
  datatype Act =
    | Return                         // back from sched in yield, sleep or forkret
    | Yielding
    | Sleeping(chan: Chan)
    | Waking(chan: Chan)
    | Killing(q: int)
    | Nicing(q: int, prio: int)
    | Allocating
    | Finishing                      // fork: the child becomes runnable
    | ExitWake
    | ExitScan(i: int)
    | WaitScan(i: int, kids: bool)

  datatype Cpu =
    | Idle                           // in scheduler, without the lock
    | Scan(i: int)                   // in scheduler, with the lock: the outer loop is at slot i
    | Choose(h: int, j: int)         // the inner loop is at slot j, and h is the best so far
    | Runs(p: int)
    | Locked(p: int, act: Act)
    | Back(p: int)                   // in scheduler after swtch, c->proc not yet cleared

  /** cproc is the proc field of each CPU. */
  datatype Sys = Sys(t: Table, init: int, pos: seq<Pos>, cpu: seq<Cpu>, cproc: seq<int>, lock: Option<int>)

  datatype Step =
    | SchedLock(c: int)
    | SchedUnlock(c: int)
    | Look(c: int)                   // one turn of the outer loop, up to the inner one
    | Compare(c: int)                // one turn of the inner loop
    | Dispatch(c: int)
    | Clear(c: int)
    | Lock(c: int, act: Act)
    | Do(c: int)
    | Alloc(c: int, np: int)         // np is NONE if no slot is unused
    | Abort(c: int)                  // kalloc or copyuvm failed: the embryo is unused again; no lock
    | SetParent(c: int)              // fork: np->parent = curproc; no lock

  predicate HasLock(x: Cpu) { x.Scan? || x.Choose? || x.Locked? || x.Back? }
  function On(x: Cpu): int { if x.Runs? || x.Locked? || x.Back? then x.p else NONE }

  predicate MayDo(s: Sys, p: int, act: Act)
    requires 0 <= p < |s.pos|
  {
    match act
    case Return => false
    case Yielding => true
    case Sleeping(chan) => !chan.Self?
    case Waking(chan) => true
    case Killing(q) => 0 <= q < |s.t|
    case Nicing(q, _) => 0 <= q < |s.t|
    case Allocating => s.pos[p].Out?
    case Finishing => s.pos[p].Parented?
    case ExitWake => s.pos[p].Out? && p != s.init
    case ExitScan(_) => false
    case WaitScan(i, kids) => s.pos[p].Out? && i == 0 && !kids
  }

  predicate Shaped(s: Sys, c: int) {
    && |s.pos| == |s.t| && |s.cproc| == |s.cpu| && 0 <= c < |s.cpu|
    && (s.cpu[c].Runs? || s.cpu[c].Locked? || s.cpu[c].Back? ==> 0 <= s.cpu[c].p < |s.t|)
    && (s.cpu[c].Scan? ==> 0 <= s.cpu[c].i) && (s.cpu[c].Choose? ==> 0 <= s.cpu[c].h < |s.t| && 0 <= s.cpu[c].j)
  }

  /** A lock-held action that Do can take: its slot numbers are in the table. */
  predicate CanDo(s: Sys, p: int, act: Act)
    requires 0 <= p < |s.pos| == |s.t|
  {
    match act
    case Killing(q) => 0 <= q < |s.t|
    case Nicing(q, _) => 0 <= q < |s.t|
    case Allocating => false
    case Finishing => s.pos[p].Parented? && 0 <= s.pos[p].np < |s.t|
    case ExitScan(i) => 0 <= i <= |s.t|
    case WaitScan(i, _) => 0 <= i <= |s.t|
    case Return => true
    case Yielding => true
    case Sleeping(_) => true
    case Waking(_) => true
    case ExitWake => true
  }

  predicate FirstUnused(t: Table, np: int) {
    0 <= np < |t| && t[np].state == UNUSED && forall i | 0 <= i < np :: t[i].state != UNUSED
  }

  predicate Enabled(s: Sys, st: Step) {
    && Shaped(s, st.c)
    && var x := s.cpu[st.c];
       match st
       case SchedLock(_) => x.Idle? && s.lock.None?
       case SchedUnlock(_) => x.Scan? && x.i >= |s.t|
       case Look(_) => x.Scan? && x.i < |s.t|
       case Compare(_) => x.Choose? && x.j < |s.t|
       case Dispatch(_) => x.Choose? && x.j >= |s.t|
       case Clear(_) => x.Back?
       case Lock(_, act) => x.Runs? && s.lock.None? && MayDo(s, x.p, act)
       case Do(_) => x.Locked? && CanDo(s, x.p, x.act)
       case Alloc(_, np) => x.Locked? && x.act.Allocating?
         && (if np == NONE then forall i | 0 <= i < |s.t| :: s.t[i].state != UNUSED else FirstUnused(s.t, np))
       case Abort(_) => x.Runs? && s.pos[x.p].Embryo? && 0 <= s.pos[x.p].np < |s.t|
       case SetParent(_) => x.Runs? && s.pos[x.p].Embryo? && 0 <= s.pos[x.p].np < |s.t|
  }

  function Become(s: Sys, c: int, x: Cpu): Sys
    requires 0 <= c < |s.cpu|
  {
    s.(cpu := s.cpu[c := x])
  }

  /** Process p goes on without the lock. */
  function Unlock(s: Sys, c: int, p: int): Sys
    requires 0 <= c < |s.cpu|
  {
    s.(cpu := s.cpu[c := Runs(p)], lock := None)
  }

  function SetState(t: Table, p: int, st: State): Table
    requires 0 <= p < |t|
  {
    t[p := t[p].(state := st)]
  }

  function DoExit(s: Sys, c: int, p: int, i: int): Sys
    requires Shaped(s, c) && 0 <= p < |s.t| && 0 <= i <= |s.t|
  {
    if i < |s.t| then Become(s.(t := AdoptOne(s.t, p, s.init, i)), c, Locked(p, ExitScan(i + 1)))
    else Become(s.(t := SetState(s.t, p, ZOMBIE)), c, Back(p))
  }

  function DoWait(s: Sys, c: int, p: int, i: int, kids: bool): Sys
    requires Shaped(s, c) && 0 <= p < |s.t| && 0 <= i <= |s.t|
  {
    if i < |s.t| then
      if s.t[i].parent != p then Become(s, c, Locked(p, WaitScan(i + 1, kids)))
      else if s.t[i].state != ZOMBIE then Become(s, c, Locked(p, WaitScan(i + 1, true)))
      else
        Unlock(s.(t := s.t[i := s.t[i].(pid := 0, parent := NONE, killed := false, state := UNUSED)],
                  pos := s.pos[p := Out]), c, p)
    else if !kids || s.t[p].killed then Unlock(s.(pos := s.pos[p := Out]), c, p)
    else
      Become(s.(t := s.t[p := s.t[p].(state := SLEEPING, chan := Self(p))], pos := s.pos[p := InWait]), c, Back(p))
  }

  function DoAct(s: Sys, c: int, p: int, act: Act): Sys
    requires Shaped(s, c) && 0 <= p < |s.t| && CanDo(s, p, act)
  {
    match act
    case Return => Unlock(s, c, p)
    case Yielding => Become(s.(t := SetState(s.t, p, RUNNABLE)), c, Back(p))
    case Sleeping(chan) => Become(s.(t := s.t[p := s.t[p].(state := SLEEPING, chan := chan)]), c, Back(p))
    case Waking(chan) => Unlock(s.(t := Woken(s.t, chan)), c, p)
    case Killing(q) => Unlock(s.(t := s.t[q := WokenProc(s.t[q], s.t[q].chan).(killed := true)]), c, p)
    case Nicing(q, prio) => Unlock(s.(t := s.t[q := s.t[q].(priority := prio)]), c, p)
    case Finishing =>
      var np := s.pos[p].np;
      Unlock(s.(t := s.t[np := s.t[np].(state := RUNNABLE, priority := 0)], pos := s.pos[p := Out]), c, p)
    case ExitWake => Become(s.(t := Woken(s.t, Self(s.t[p].parent))), c, Locked(p, ExitScan(0)))
    case ExitScan(i) => DoExit(s, c, p, i)
    case WaitScan(i, kids) => DoWait(s, c, p, i, kids)
  }

  function Next(s: Sys, st: Step): Sys
    requires Enabled(s, st)
  {
    var c, x := st.c, s.cpu[st.c];
    match st
    case SchedLock(_) => Become(s, c, Scan(0)).(lock := Some(c))
    case SchedUnlock(_) => Become(s, c, Idle).(lock := None)
    case Look(_) => Become(s, c, if s.t[x.i].state == RUNNABLE then Choose(x.i, 0) else Scan(x.i + 1))
    case Compare(_) =>
      var better := s.t[x.j].state == RUNNABLE && s.t[x.h].priority > s.t[x.j].priority;
      Become(s, c, Choose(if better then x.j else x.h, x.j + 1))
    case Dispatch(_) =>
      Become(s.(t := SetState(s.t, x.h, RUNNING), cproc := s.cproc[c := x.h]), c,
             Locked(x.h, if s.pos[x.h].InWait? then WaitScan(0, false) else Return))
    case Clear(_) => Become(s.(cproc := s.cproc[c := NONE]), c, Scan(x.p + 1))
    case Lock(_, act) => Become(s, c, Locked(x.p, act)).(lock := Some(c))
    case Do(_) => DoAct(s, c, x.p, x.act)
    case Alloc(_, np) =>
      if np == NONE then Unlock(s, c, x.p)
      else Unlock(s.(t := s.t[np := s.t[np].(state := EMBRYO, priority := 0)], pos := s.pos[x.p := Embryo(np)]), c, x.p)
    case Abort(_) => s.(t := SetState(s.t, s.pos[x.p].np, UNUSED), pos := s.pos[x.p := Out])
    case SetParent(_) =>
      var np := s.pos[x.p].np;
      s.(t := s.t[np := s.t[np].(parent := x.p)], pos := s.pos[x.p := Parented(np)])
  }

  /** After userinit: init is runnable, every other slot unused, every CPU in its scheduler. */
  predicate Init(s: Sys) {
    && |s.pos| == |s.t| && |s.cproc| == |s.cpu| && 0 <= s.init < |s.t| && s.lock.None?
    && (forall c | 0 <= c < |s.cpu| :: s.cpu[c].Idle? && s.cproc[c] == NONE)
    && (forall i | 0 <= i < |s.t| ::
          s.t[i].state == (if i == s.init then RUNNABLE else UNUSED) && s.t[i].parent == NONE && s.pos[i].Out?)
  }

  // ---------------------------------------------------------------- invariants

  predicate Forking(x: Pos) { x.Embryo? || x.Parented? }

  /** Who is whose parent, over the table and the positions of the processes. */
  ghost predicate Family(t: Table, pos: seq<Pos>, init: int) {
    && |pos| == |t| && 0 <= init < |t| && Alive(t[init].state) && t[init].parent == NONE
    && (forall i | 0 <= i < |t| :: t[i].parent != i && (t[i].state == UNUSED ==> t[i].parent == NONE))
    && (forall i | 0 <= i < |t| :: t[i].state == EMBRYO ==> t[i].parent == NONE || ParentForks(t, pos, i))
    && (forall p | 0 <= p < |t| :: !pos[p].Out? ==> Alive(t[p].state))
    && (forall p | 0 <= p < |t| :: Forking(pos[p]) ==> HasEmbryo(t, pos, p))
    && (forall p, q | 0 <= p < q < |t| && Forking(pos[p]) && Forking(pos[q]) :: pos[p].np != pos[q].np)
    && (forall i | 0 <= i < |t| && i != init && (Alive(t[i].state) || t[i].state == ZOMBIE) :: HasParent(t, i))
  }

  predicate ParentForks(t: Table, pos: seq<Pos>, i: int)
    requires |pos| == |t| && 0 <= i < |t|
  {
    0 <= t[i].parent < |t| && pos[t[i].parent] == Parented(i)
  }

  predicate HasEmbryo(t: Table, pos: seq<Pos>, p: int)
    requires |pos| == |t| && 0 <= p < |t| && Forking(pos[p])
  {
    0 <= pos[p].np < |t| && t[pos[p].np].state == EMBRYO && t[pos[p].np].parent == if pos[p].Embryo? then NONE else p
  }

  /** The parent is neither unused nor a zombie. */
  predicate HasParent(t: Table, i: int)
    requires 0 <= i < |t|
  {
    0 <= t[i].parent < |t| && Alive(t[t[i].parent].state)
  }

  /** A process asleep in wait sleeps on its own entry, and has no zombie child. */
  ghost predicate WaitersOk(t: Table) {
    forall p | 0 <= p < |t| && t[p].state == SLEEPING && t[p].chan.Self? ::
      t[p].chan == Self(p) && forall q | 0 <= q < |t| :: !IsZombieChild(t, p, q)
  }

  predicate AsleepInWait(t: Table, p: int) { 0 <= p < |t| && t[p].state == SLEEPING && t[p].chan == Self(p) }

  ghost predicate ActOk(s: Sys, p: int, act: Act)
    requires 0 <= p < |s.pos| == |s.t|
  {
    match act
    case Return => !s.pos[p].InWait?
    case Yielding => !s.pos[p].InWait?
    case Sleeping(chan) => !chan.Self? && !s.pos[p].InWait?
    case Waking(_) => !s.pos[p].InWait?
    case Killing(q) => !s.pos[p].InWait? && 0 <= q < |s.t|
    case Nicing(q, _) => !s.pos[p].InWait? && 0 <= q < |s.t|
    case Allocating => s.pos[p].Out?
    case Finishing => s.pos[p].Parented?
    case ExitWake => s.pos[p].Out? && p != s.init
    case ExitScan(i) =>
      && s.pos[p].Out? && p != s.init && 0 <= i <= |s.t| && !AsleepInWait(s.t, s.t[p].parent)
      && forall j | 0 <= j < i :: s.t[j].parent != p
    case WaitScan(i, kids) =>
      && !Forking(s.pos[p]) && 0 <= i <= |s.t| && (kids <==> exists j :: 0 <= j < i && s.t[j].parent == p)
      && forall j | 0 <= j < i :: !IsZombieChild(s.t, p, j)
  }

  predicate Executes(cpu: seq<Cpu>, c: int, p: int) { 0 <= c < |cpu| && cpu[c] != Back(p) && On(cpu[c]) == p }

  /** The lock, the proc fields and the running processes agree with what the CPUs do. */
  ghost predicate CpusOk(t: Table, cpu: seq<Cpu>, cproc: seq<int>, lock: Option<int>) {
    && |cproc| == |cpu| && (lock.Some? ==> 0 <= lock.value < |cpu|)
    && (forall c | 0 <= c < |cpu| :: HasLock(cpu[c]) <==> lock == Some(c))
    && (forall c | 0 <= c < |cpu| :: cproc[c] == On(cpu[c]) && (On(cpu[c]) == NONE || 0 <= On(cpu[c]) < |t|))
    && (forall c, d | 0 <= c < d < |cpu| :: On(cpu[c]) == NONE || On(cpu[c]) != On(cpu[d]))
    && (forall c | 0 <= c < |cpu| && On(cpu[c]) != NONE :: (t[On(cpu[c])].state == RUNNING <==> !cpu[c].Back?))
    && (forall p | 0 <= p < |t| && t[p].state == RUNNING :: exists c :: Executes(cpu, c, p))
  }

  /** h is runnable, and none of the slots below j is runnable with a lower priority value. */
  predicate BestBelow(t: Table, h: int, j: int) {
    && 0 <= h < |t| && 0 <= j <= |t| && t[h].state == RUNNABLE
    && forall q | 0 <= q < j && t[q].state == RUNNABLE :: t[h].priority <= t[q].priority
  }

  ghost predicate ActsOk(s: Sys)
    requires |s.pos| == |s.t|
  {
    && (forall c | 0 <= c < |s.cpu| && s.cpu[c].Scan? :: 0 <= s.cpu[c].i <= |s.t|)
    && (forall c | 0 <= c < |s.cpu| && s.cpu[c].Choose? :: BestBelow(s.t, s.cpu[c].h, s.cpu[c].j))
    && (forall c | 0 <= c < |s.cpu| && s.cpu[c].Locked? ::
          0 <= s.cpu[c].p < |s.t| && ActOk(s, s.cpu[c].p, s.cpu[c].act))
    && (forall c | 0 <= c < |s.cpu| && s.cpu[c].Runs? :: 0 <= s.cpu[c].p < |s.t| && !s.pos[s.cpu[c].p].InWait?)
    && (forall c | 0 <= c < |s.cpu| && s.cpu[c].Back? :: 0 <= s.cpu[c].p < |s.t|)
  }

  ghost predicate Inv(s: Sys) {
    && Family(s.t, s.pos, s.init) && WaitersOk(s.t) && CpusOk(s.t, s.cpu, s.cproc, s.lock) && ActsOk(s)
  }

  lemma InitInv(s: Sys)
    requires Init(s)
    ensures Inv(s)
  {
  }

  // ---------------------------------------------------------------- the family, step by step

  /** Parents stay, and states change only between sleeping, runnable and running. */
  ghost predicate SameKin(t: Table, u: Table) {
    && |u| == |t|
    && forall i | 0 <= i < |t| ::
         u[i].parent == t[i].parent && (u[i].state == t[i].state || (Alive(u[i].state) && Alive(t[i].state)))
  }

  lemma KinFamily(t: Table, u: Table, pos: seq<Pos>, init: int)
    requires Family(t, pos, init) && SameKin(t, u)
    ensures Family(u, pos, init)
  {
  }

  /** wait: in and out of it. */
  lemma WaitFamily(t: Table, pos: seq<Pos>, init: int, p: int, x: Pos)
    requires Family(t, pos, init) && 0 <= p < |t| && Alive(t[p].state) && !Forking(pos[p]) && !Forking(x)
    ensures Family(t, pos[p := x], init)
  {
  }

  lemma AllocFamily(t: Table, pos: seq<Pos>, init: int, p: int, np: int)
    requires Family(t, pos, init) && 0 <= p < |t| && Alive(t[p].state) && pos[p].Out?
    requires 0 <= np < |t| && t[np].state == UNUSED
    ensures Family(t[np := t[np].(state := EMBRYO, priority := 0)], pos[p := Embryo(np)], init)
  {
    var u, pos' := t[np := t[np].(state := EMBRYO, priority := 0)], pos[p := Embryo(np)];
    assert t[np].parent == NONE;
    assert forall q | 0 <= q < |t| && Forking(pos[q]) :: HasEmbryo(t, pos, q) && pos[q].np != np;
    forall i | 0 <= i < |t| && u[i].state == EMBRYO && u[i].parent != NONE ensures ParentForks(u, pos', i) {
      assert ParentForks(t, pos, i);
    }
    forall q | 0 <= q < |t| && Forking(pos'[q]) ensures HasEmbryo(u, pos', q) {
      assert q != p ==> HasEmbryo(t, pos, q);
    }
    forall i | 0 <= i < |t| && i != init && (Alive(u[i].state) || u[i].state == ZOMBIE) ensures HasParent(u, i) {
      assert HasParent(t, i);
    }
  }

  lemma AbortFamily(t: Table, pos: seq<Pos>, init: int, p: int)
    requires Family(t, pos, init) && 0 <= p < |t| && Alive(t[p].state) && pos[p].Embryo?
    ensures 0 <= pos[p].np < |t| && Family(SetState(t, pos[p].np, UNUSED), pos[p := Out], init)
  {
    assert HasEmbryo(t, pos, p);
  }

  lemma SetParentFamily(t: Table, pos: seq<Pos>, init: int, p: int)
    requires Family(t, pos, init) && 0 <= p < |t| && Alive(t[p].state) && pos[p].Embryo?
    ensures 0 <= pos[p].np < |t|
    ensures Family(t[pos[p].np := t[pos[p].np].(parent := p)], pos[p := Parented(pos[p].np)], init)
  {
    assert HasEmbryo(t, pos, p);
  }

  lemma FinishFamily(t: Table, pos: seq<Pos>, init: int, p: int)
    requires Family(t, pos, init) && 0 <= p < |t| && Alive(t[p].state) && pos[p].Parented?
    ensures 0 <= pos[p].np < |t|
    ensures Family(t[pos[p].np := t[pos[p].np].(state := RUNNABLE, priority := 0)], pos[p := Out], init)
  {
    assert HasEmbryo(t, pos, p);
  }

  /** The children of a process that is not forking have a state of their own. */
  lemma AdoptFamily(t: Table, pos: seq<Pos>, init: int, p: int, i: int)
    requires Family(t, pos, init) && 0 <= p < |t| && pos[p].Out? && p != init && 0 <= i < |t|
    ensures Family(AdoptOne(t, p, init, i), pos, init)
  {
    if t[i].parent == p {
      var u := t[i := t[i].(parent := init)];
      assert Family(u, pos, init);
      KinFamily(u, AdoptOne(t, p, init, i), pos, init);
    }
  }

  lemma ZombieFamily(t: Table, pos: seq<Pos>, init: int, p: int)
    requires Family(t, pos, init) && 0 <= p < |t| && pos[p].Out? && p != init && Alive(t[p].state)
    requires forall j | 0 <= j < |t| :: t[j].parent != p
    ensures Family(SetState(t, p, ZOMBIE), pos, init)
  {
  }

  lemma ReapFamily(t: Table, pos: seq<Pos>, init: int, i: int)
    requires Family(t, pos, init) && 0 <= i < |t| && t[i].state == ZOMBIE
    ensures Family(t[i := t[i].(pid := 0, parent := NONE, killed := false, state := UNUSED)], pos, init)
  {
  }

  // ---------------------------------------------------------------- the waiters, step by step

  /** No process falls asleep in wait and nobody gets a zombie child. */
  ghost predicate Quiet(t: Table, u: Table) {
    && |u| == |t|
    && (forall p | 0 <= p < |t| && u[p].state == SLEEPING && u[p].chan.Self? ::
          t[p].state == SLEEPING && t[p].chan == u[p].chan)
    && (forall q | 0 <= q < |t| && u[q].state == ZOMBIE :: t[q].state == ZOMBIE && t[q].parent == u[q].parent)
  }

  lemma QuietWaiters(t: Table, u: Table)
    requires WaitersOk(t) && Quiet(t, u)
    ensures WaitersOk(u)
  {
    forall p, q | 0 <= p < |u| && u[p].state == SLEEPING && u[p].chan.Self? && 0 <= q < |u|
      ensures u[p].chan == Self(p) && !IsZombieChild(u, p, q)
    {
      assert !IsZombieChild(t, p, q);
    }
  }

  lemma SleepWaiters(t: Table, p: int)
    requires WaitersOk(t) && 0 <= p < |t| && t[p].state != ZOMBIE && forall q | 0 <= q < |t| :: !IsZombieChild(t, p, q)
    ensures WaitersOk(t[p := t[p].(state := SLEEPING, chan := Self(p))])
  {
    var u := t[p := t[p].(state := SLEEPING, chan := Self(p))];
    forall r, q | 0 <= r < |u| && 0 <= q < |u| && u[r].state == SLEEPING && u[r].chan.Self?
      ensures !IsZombieChild(u, r, q)
    {
      assert !IsZombieChild(t, r, q);
    }
  }

  lemma ZombieWaiters(t: Table, p: int)
    requires WaitersOk(t) && 0 <= p < |t| && !AsleepInWait(t, t[p].parent)
    ensures WaitersOk(SetState(t, p, ZOMBIE))
  {
    var u := SetState(t, p, ZOMBIE);
    forall r, q | 0 <= r < |u| && 0 <= q < |u| && u[r].state == SLEEPING && u[r].chan.Self?
      ensures u[r].chan == Self(r) && !IsZombieChild(u, r, q)
    {
      assert !IsZombieChild(t, r, q);
    }
  }

  lemma AdoptWaiters(t: Table, p: int, init: int, i: int)
    requires WaitersOk(t) && 0 <= i < |t|
    ensures WaitersOk(AdoptOne(t, p, init, i))
  {
    var u := AdoptOne(t, p, init, i);
    forall r, q | 0 <= r < |u| && 0 <= q < |u| && u[r].state == SLEEPING && u[r].chan.Self?
      ensures u[r].chan == Self(r) && !IsZombieChild(u, r, q)
    {
      assert !IsZombieChild(t, r, q);
    }
  }
}
