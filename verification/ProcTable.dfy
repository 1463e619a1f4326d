/** The process table and the loops over it: allocproc, wakeup1, the reparenting in exit, the search in
    wait, kill, and the choice of the scheduler. A parent is a slot number, or NONE. */
module ProcTable {
  const NONE := -1

  datatype State = UNUSED | EMBRYO | SLEEPING | RUNNABLE | RUNNING | ZOMBIE

  /** What a process sleeps on: its own table entry, in wait, or some other address. */
  datatype Chan = Nothing | Self(p: int) | Other(a: int)

  datatype Proc = Proc(state: State, pid: int, parent: int, chan: Chan, priority: int, killed: bool)

  type Table = seq<Proc>

  predicate Alive(st: State) { st == SLEEPING || st == RUNNABLE || st == RUNNING }

  /** wakeup1 for one slot. */
  function WokenProc(p: Proc, chan: Chan): Proc {
    if p.state == SLEEPING && p.chan == chan then p.(state := RUNNABLE) else p
  }

  /** A process before and after a wakeup: if it slept, and the wakeup was for it, it is runnable; nothing else
      changes. */
  predicate Roused(p: Proc, q: Proc, meant: bool) {
    && q.pid == p.pid && q.parent == p.parent && q.chan == p.chan && q.priority == p.priority && q.killed == p.killed
    && (q.state == RUNNABLE <==> p.state == RUNNABLE || (p.state == SLEEPING && meant))
    && (q.state != RUNNABLE ==> q.state == p.state)
  }

  /** wakeup1 */
  function Woken(t: Table, chan: Chan): (r: Table)
    ensures |r| == |t| && forall i | 0 <= i < |t| :: r[i] == WokenProc(t[i], chan)
  {
    seq(|t|, i requires 0 <= i < |t| => WokenProc(t[i], chan))
  }

  /** exit: one turn of the loop that passes abandoned children to init. */
  function AdoptOne(t: Table, p: int, init: int, i: int): (r: Table)
    requires 0 <= i < |t|
    ensures |r| == |t|
  {
    if t[i].parent != p then t
    else
      var u := t[i := t[i].(parent := init)];
      if t[i].state == ZOMBIE then Woken(u, Self(init)) else u
  }

  /** The loop, up to slot n. */
  function Adopt(t: Table, p: int, init: int, n: nat): (r: Table)
    requires n <= |t|
    ensures |r| == |t|
  {
    if n == 0 then t else AdoptOne(Adopt(t, p, init, n - 1), p, init, n - 1)
  }

  predicate IsZombieChild(t: Table, p: int, i: int)
    requires 0 <= i < |t|
  {
    t[i].parent == p && t[i].state == ZOMBIE
  }

  /** What the loop amounts to: init gets the children, and is woken if one of them is a zombie. */
  lemma {:induction false} AdoptMeans(t: Table, p: int, init: int, n: nat)
    requires n <= |t| && init != p
    ensures var r := Adopt(t, p, init, n);
            && (forall i | 0 <= i < |t| :: r[i].parent == if i < n && t[i].parent == p then init else t[i].parent)
            && (forall i | 0 <= i < |t| ::
                  r[i] == (if (exists k :: 0 <= k < n && IsZombieChild(t, p, k)) then WokenProc(t[i], Self(init))
                    else t[i])
                          .(parent := r[i].parent))
  {
    if n > 0 {
      AdoptMeans(t, p, init, n - 1);
      var q := Adopt(t, p, init, n - 1);
      assert q[n - 1].parent == t[n - 1].parent && (q[n - 1].state == ZOMBIE <==> t[n - 1].state == ZOMBIE);
      if IsZombieChild(t, p, n - 1) {
        assert Adopt(t, p, init, n) == Woken(q[n - 1 := q[n - 1].(parent := init)], Self(init));
      } else {
        assert (exists k :: 0 <= k < n && IsZombieChild(t, p, k))
          <==> (exists k :: 0 <= k < n - 1 && IsZombieChild(t, p, k));
      }
    }
  }

  /** The process the scheduler may dispatch: runnable, and none that is has a lower priority value. */
  predicate Best(t: Table, p: int) {
    && 0 <= p < |t| && t[p].state == RUNNABLE
    && forall q | 0 <= q < |t| && t[q].state == RUNNABLE :: t[p].priority <= t[q].priority
  }

  /** What the scheduler dispatches from slot p of its outer loop on: nothing, if no slot from there on is
      runnable; otherwise the first of them that is, unless a process of a lower priority value is runnable;
      then the first of those with the lowest. */
  ghost predicate Picks(t: Table, p: int, h: int) {
    if h == NONE then forall q | 0 <= q < |t| && p <= q :: t[q].state != RUNNABLE
    else
      && Best(t, h)
      && exists i ::
           && 0 <= i < |t| && p <= i && t[i].state == RUNNABLE
           && (forall q | 0 <= q < i && p <= q :: t[q].state != RUNNABLE)
           && (h == i || (!Best(t, i) && forall q | 0 <= q < h :: !Best(t, q)))
  }

  /** There is one such answer. */
  lemma PicksOne(t: Table, p: int, h: int, h': int)
    requires Picks(t, p, h) && Picks(t, p, h')
    ensures h == h'
  {
  }

  class Ptable {
    const proc: array<Proc>
    var nextpid: int

    constructor (n: nat)
      ensures proc.Length == n && forall i | 0 <= i < n :: proc[i] == Proc(UNUSED, 0, NONE, Nothing, 0, false)
      ensures nextpid == 1
    {
      proc := new Proc[n](_ => Proc(UNUSED, 0, NONE, Nothing, 0, false));
      nextpid := 1;
    }

    /** `allocproc` under the lock: the first unused slot becomes an embryo with a new pid. */
    method Alloc() returns (p: int)
      modifies proc, `nextpid
      ensures p == NONE ==> nextpid == old(nextpid) && proc[..] == old(proc[..])
                            && forall i | 0 <= i < proc.Length :: proc[i].state != UNUSED
      ensures p != NONE ==> 0 <= p < proc.Length && nextpid == old(nextpid) + 1
                            && old(proc[p]).state == UNUSED && (forall i | 0 <= i < p :: old(proc[i]).state != UNUSED)
                            && proc[..] == old(proc[..])[
                                 p := old(proc[p]).(state := EMBRYO, pid := old(nextpid), priority := 0)]
    {
      p := 0;
      while p < proc.Length
        invariant 0 <= p <= proc.Length && forall i | 0 <= i < p :: proc[i].state != UNUSED
      {
        if proc[p].state == UNUSED {
          proc[p] := proc[p].(state := EMBRYO, pid := nextpid, priority := 0);
          nextpid := nextpid + 1;
          return;
        }
        p := p + 1;
      }
      p := NONE;
    }

    /** `wakeup1` */
    method Wakeup1(chan: Chan)
      modifies proc
      ensures proc[..] == Woken(old(proc[..]), chan)
      ensures forall i | 0 <= i < proc.Length :: Roused(old(proc[i]), proc[i], old(proc[i]).chan == chan)
    {
      var i := 0;
      while i < proc.Length
        invariant 0 <= i <= proc.Length
        invariant forall k | 0 <= k < proc.Length ::
                  proc[k] == if k < i then WokenProc(old(proc[k]), chan) else old(proc[k])
      {
        if proc[i].state == SLEEPING && proc[i].chan == chan {
          proc[i] := proc[i].(state := RUNNABLE);
        }
        i := i + 1;
      }
    }

    /** `exit`, between acquire and sched: the parent is woken, init gets the children, p is a zombie. */
    method Exit(p: int, init: int)
      requires 0 <= p < proc.Length
      modifies proc
      ensures var t := Adopt(Woken(old(proc[..]), Self(old(proc[p]).parent)), p, init, proc.Length);
              proc[..] == t[p := t[p].(state := ZOMBIE)]
    {
      Wakeup1(Self(proc[p].parent));
      ghost var t := proc[..];
      var i := 0;
      while i < proc.Length
        invariant 0 <= i <= proc.Length && proc[..] == Adopt(t, p, init, i)
      {
        ghost var u := proc[..];
        if proc[i].parent == p {
          proc[i] := proc[i].(parent := init);
          assert proc[..] == u[i := u[i].(parent := init)];
          if proc[i].state == ZOMBIE {
            Wakeup1(Self(init));
          }
        }
        assert proc[..] == AdoptOne(u, p, init, i);
        i := i + 1;
      }
      proc[p] := proc[p].(state := ZOMBIE);
    }

    /** `wait`, one scan: the first zombie child is reaped and its pid returned; if there is none, whether
        there are children at all. */
    method Reap(p: int) returns (pid: int, found: bool, havekids: bool)
      modifies proc
      ensures found <==> exists i :: 0 <= i < proc.Length && IsZombieChild(old(proc[..]), p, i)
      ensures !found ==> proc[..] == old(proc[..])
      ensures !found ==> (havekids <==> exists i :: 0 <= i < proc.Length && proc[i].parent == p)
      ensures found ==> exists i ::
                && 0 <= i < proc.Length && IsZombieChild(old(proc[..]), p, i)
                && (forall j | 0 <= j < i :: !IsZombieChild(old(proc[..]), p, j))
                && pid == old(proc[i]).pid
                && proc[..] == old(proc[..])[
                     i := old(proc[i]).(pid := 0, parent := NONE, killed := false, state := UNUSED)]
    {
      pid, found, havekids := 0, false, false;
      var i := 0;
      ghost var t := proc[..];
      while i < proc.Length
        invariant 0 <= i <= proc.Length && proc[..] == t
        invariant havekids <==> exists k :: 0 <= k < i && t[k].parent == p
        invariant forall j | 0 <= j < i :: !IsZombieChild(t, p, j)
      {
        if proc[i].parent == p {
          havekids := true;
          if proc[i].state == ZOMBIE {
            pid, found := proc[i].pid, true;
            assert IsZombieChild(t, p, i);
            proc[i] := proc[i].(pid := 0, parent := NONE, killed := false, state := UNUSED);
            assert proc[..] == t[i := t[i].(pid := 0, parent := NONE, killed := false, state := UNUSED)];
            return;
          }
        }
        i := i + 1;
      }
    }

    /** `kill`: the first slot with that pid, in use or not, is marked, and woken if asleep. */
    method Kill(pid: int) returns (r: int)
      modifies proc
      ensures r == -1 <==> forall i | 0 <= i < proc.Length :: old(proc[i]).pid != pid
      ensures r == -1 ==> proc[..] == old(proc[..])
      ensures r != -1 ==> r == 0 && exists i ::
                && 0 <= i < proc.Length && old(proc[i]).pid == pid && (forall j | 0 <= j < i :: old(proc[j]).pid != pid)
                && proc[..] == old(proc[..])[i := proc[i]] && proc[i].killed
                && Roused(old(proc[i]).(killed := true), proc[i], true)
    {
      var i := 0;
      while i < proc.Length
        invariant 0 <= i <= proc.Length && proc[..] == old(proc[..])
        invariant forall j | 0 <= j < i :: proc[j].pid != pid
      {
        if proc[i].pid == pid {
          proc[i] := proc[i].(killed := true);
          if proc[i].state == SLEEPING {
            proc[i] := proc[i].(state := RUNNABLE);
          }
          assert proc[..] == old(proc[..])[i := proc[i]];
          return 0;
        }
        i := i + 1;
      }
      return -1;
    }

    /** The scheduler, from slot p of its outer loop: the process it dispatches next, or none if the
        loop ends. It runs to the end only past slots that are not runnable. */
    method Pick(p: nat) returns (h: int)
      ensures Picks(proc[..], p, h)
    {
      var i := p;
      while i < proc.Length
        invariant p <= i && forall q | p <= q < i && q < proc.Length :: proc[q].state != RUNNABLE
      {
        if proc[i].state == RUNNABLE {
          h := i;
          var j := 0;
          while j < proc.Length
            invariant 0 <= j <= proc.Length && 0 <= h < proc.Length && proc[h].state == RUNNABLE
            invariant h == i || (proc[h].priority < proc[i].priority
                                 && forall q | 0 <= q < h && proc[q].state == RUNNABLE ::
                                      proc[h].priority < proc[q].priority)
            invariant forall q | 0 <= q < j && proc[q].state == RUNNABLE :: proc[h].priority <= proc[q].priority
          {
            if proc[j].state == RUNNABLE && proc[h].priority > proc[j].priority {
              h := j;
            }
            j := j + 1;
          }
          return;
        }
        i := i + 1;
      }
      h := NONE;
    }
  }
}
