/** What the overrun of the log area does to crash atomicity, to reads and to home blocks, within the
    NBUF buffers of the cache; and exactly when every run has these properties.

    In an overfull log the last block has its log block on the first home block. Copying it there
    destroys the first block before the commit; installing the first block then destroys the copy. The
    commit needs a buffer besides the ones pinned by the log: with an area of LOGSIZE blocks there is
    none left, and nothing is destroyed. */
module WriteAheadLogOverrun {
  import opened Basics
  import opened WriteAheadLog
  import opened WriteAheadLogCorrect
  import opened WriteAheadLogRuns
  import opened WriteAheadLogRace

  // ---------- paths of steps ----------

  /** What the steps of a path may do: crash, commit, and modify any block but one. */
  datatype Limits = Limits(crash: bool, commit: bool, spare: int)

  predicate Within(lim: Limits, st: Step) {
    (st.Crash? ==> lim.crash) && (st.CommitHead? ==> lim.commit) && !(st.Modify? && st.b == lim.spare)
  }

  ghost predicate Follows(l: Layout, run: seq<Sys>, steps: seq<Step>, i: int)
    requires |run| == |steps| + 1 && 0 <= i < |steps|
  {
    Enabled(l, run[i], steps[i]) && run[i + 1] == Apply(l, run[i], steps[i])
  }

  ghost predicate IsPath(l: Layout, run: seq<Sys>, steps: seq<Step>, lim: Limits) {
    && |run| == |steps| + 1 && Bounded(run)
    && forall i | 0 <= i < |steps| :: Follows(l, run, steps, i) && Within(lim, steps[i])
  }

  ghost predicate Goes(l: Layout, s: Sys, s': Sys, lim: Limits) {
    exists run, steps :: IsPath(l, run, steps, lim) && run[0] == s && run[|steps|] == s'
  }

  lemma GoesNowhere(l: Layout, s: Sys, lim: Limits)
    requires |s.cache| <= NBUF
    ensures Goes(l, s, s, lim)
  {
    var run, steps: seq<Step> := [s], [];
    assert IsPath(l, run, steps, lim) && run[0] == s && run[|steps|] == s;
  }

  lemma GoesOn(l: Layout, s0: Sys, s: Sys, lim: Limits, st: Step) returns (s': Sys)
    requires Goes(l, s0, s, lim) && Enabled(l, s, st) && Within(lim, st) && |Apply(l, s, st).cache| <= NBUF
    ensures s' == Apply(l, s, st) && Goes(l, s0, s', lim)
  {
    hide Enabled, Apply;
    s' := Apply(l, s, st);
    var run, steps :| IsPath(l, run, steps, lim) && run[0] == s0 && run[|steps|] == s;
    var run', steps' := run + [s'], steps + [st];
    forall i | 0 <= i < |steps'| ensures Follows(l, run', steps', i) && Within(lim, steps'[i]) {
      assert i < |steps| ==> Follows(l, run, steps, i);
    }
    assert run'[0] == s0 && run'[|steps'|] == s';
  }

  /** A run and a path from its last state make a run. */
  lemma Joined(l: Layout, run: seq<Sys>, steps: seq<Step>, more: seq<Sys>, next: seq<Step>, lim: Limits)
    requires IsRun(l, run, steps) && Bounded(run) && IsPath(l, more, next, lim) && more[0] == run[|steps|]
    ensures IsRun(l, run + more[1..], steps + next) && Bounded(run + more[1..])
    ensures forall i | 0 <= i < |more| :: (run + more[1..])[|steps| + i] == more[i]
  {
    hide Enabled, Apply, Init;
    var run', steps' := run + more[1..], steps + next;
    forall i | 0 <= i < |steps'| ensures Enabled(l, run'[i], steps'[i]) && run'[i + 1] == Apply(l, run'[i], steps'[i]) {
      if i >= |steps| {
        assert Follows(l, more, next, i - |steps|);
        assert run'[i] == more[i - |steps|];
      }
    }
  }

  // ---------- the overrun ----------

  function OneBlock(): (b: Block)
    ensures b != ZeroBlock()
  {
    var b := seq(WORDS, _ => 1);
    assert b[0] != ZeroBlock()[0];
    b
  }

  /** The last block that the log takes: its log block is the first target. */
  function Last(l: Layout): int { Target(l, l.nlog - 1) }

  /** An area that the operations overrun, with a buffer to spare for the commit. */
  ghost predicate Overfull(l: Layout) { l.Valid() && 2 <= l.nlog < LOGSIZE && l.start + 2 * l.nlog <= l.size }

  /** The disk is zero, and to readers every block but the last. */
  ghost predicate OnlyLast(l: Layout, s: Sys) {
    forall b | 0 <= b < |s.disk| ::
      s.disk[b] == ZeroBlock() && s.Val(b) == if b == Last(l) then OneBlock() else ZeroBlock()
  }

  /** Nobody holds or has changed a buffer. */
  ghost predicate Calm(s: Sys) { forall b | b in s.cache :: s.cache[b].holder.None? && !s.cache[b].modified }

  ghost predicate ListsTargets(l: Layout, s: Sys, k: nat) {
    |s.lh| == k && forall i | 0 <= i < k :: s.lh[i] == Target(l, i)
  }

  /** Two operations hold the last two targets, past the unlocked test. */
  ghost predicate Raced(l: Layout, s: Sys, p: nat, q: nat) {
    var b, c := Target(l, l.nlog - 2), Last(l);
    && |s.disk| == l.size && |s.ops| == 3 && s.booted && s.phase.Running? && !s.committing && s.outstanding == 3
    && p < 3 && q < 3 && p != q && s.Holds(p, b) && s.Holds(q, c) && !s.cache[b].modified
    && s.cache.Keys == Targets(l, l.nlog) && Pins(s, Targets(l, l.nlog - 2))
    && ListsTargets(l, s, l.nlog - 2)
    && (forall r | 0 <= r < 3 :: s.ops[r].Some?)
    && s.ops[p].value.guarded == Some(b) && s.ops[q].value.guarded == Some(c)
    && |s.ops[p].value.used| < MAXOPBLOCKS && |s.ops[q].value.used| < MAXOPBLOCKS
  }

  lemma Race(l: Layout) returns (s: Sys, p: nat, q: nat)
    requires Overfull(l)
    ensures Reachable(l, s) && Raced(l, s, p, q) && AllZero(s)
  {
    hide Reachable, Pins, Targets, Racer, Stage, Ready, Roomy, ZeroBlock, SameVals;
    var k := l.nlog - 2;
    s := LogMany(l, 3, k);
    StageZero(l, s, 3, k);
    NoneReady(l, s, 3, k);
    var s1 := OneReady(l, s, 3, k, 0);
    var s2 := OneReady(l, s1, 3, k, 1);
    StaysZero(s, s1);
    StaysZero(s1, s2);
    s, p, q := s2, Racer(k, 0), Racer(k, 1);
    RacedNow(l, s, k);
  }

  lemma StageZero(l: Layout, s: Sys, n: nat, k: nat)
    requires Stage(l, s, n, k)
    ensures AllZero(s)
  {
  }

  lemma StaysZero(s: Sys, s': Sys)
    requires AllZero(s) && SameVals(s, s')
    ensures AllZero(s')
  {
  }

  lemma RacedNow(l: Layout, s: Sys, k: nat)
    requires Overfull(l) && k == l.nlog - 2 && Racers(l, s, 3, k, 0, 2)
    ensures Reachable(l, s) && Raced(l, s, Racer(k, 0), Racer(k, 1))
  {
    hide Reachable, Pins, Targets, Racer;
    RacersDiffer(k, 0, 1);
    assert Ready(l, s, k, 0) && Ready(l, s, k, 1) && Roomy(s, k, 0) && Roomy(s, k, 1);
    assert s.InOp(0) && s.InOp(1) && s.InOp(2);
  }

  /** One operation fills the last block. */
  lemma Fill(l: Layout, s: Sys, p: nat, q: nat)
    requires Overfull(l) && Raced(l, s, p, q) && AllZero(s)
    ensures Enabled(l, s, Modify(q, Last(l), OneBlock())) && |s.cache| <= NBUF
    ensures var s' := Apply(l, s, Modify(q, Last(l), OneBlock()));
            Raced(l, s', p, q) && OnlyLast(l, s') && |s'.cache| <= NBUF
  {
    hide OneBlock, ZeroBlock, Targets;
    var s' := Apply(l, s, Modify(q, Last(l), OneBlock()));
    assert s'.cache.Keys == s.cache.Keys;
  }

  /** Both blocks are recorded and released. */
  ghost predicate Recorded(l: Layout, s: Sys) {
    && |s.disk| == l.size && |s.ops| == 3 && s.booted && s.phase.Running? && !s.committing && s.outstanding == 3
    && s.cache.Keys == Targets(l, l.nlog) && Calm(s) && ListsTargets(l, s, l.nlog)
    && forall r | 0 <= r < 3 :: s.ops[r].Some?
  }

  lemma Record(l: Layout, s: Sys, p: nat, q: nat, lim: Limits) returns (s': Sys)
    requires Overfull(l) && Raced(l, s, p, q) && OnlyLast(l, s)
    ensures Goes(l, s, s', lim) && Recorded(l, s') && OnlyLast(l, s')
  {
    hide Goes, OneBlock, ZeroBlock, Targets, OnlyLast;
    var b, c := Target(l, l.nlog - 2), Last(l);
    GoesNowhere(l, s, lim);
    s' := StoreOne(l, s, s, p, b, lim);
    var s1 := s';
    s' := StoreOne(l, s, s1, q, c, lim);
    LastStays(l, s, s1);
    LastStays(l, s1, s');
  }

  lemma LastStays(l: Layout, s: Sys, s': Sys)
    requires OnlyLast(l, s) && SameVals(s, s')
    ensures OnlyLast(l, s')
  {
  }

  /** An operation past the test records its block and lets go of the buffer. */
  lemma StoreOne(l: Layout, s0: Sys, s: Sys, p: nat, b: int, lim: Limits) returns (s': Sys)
    requires Goes(l, s0, s, lim) && s.booted && s.InOp(p) && s.Holds(p, b) && l.Home(b) && b !in s.lh
    requires s.ops[p].value.guarded == Some(b) && |s.ops[p].value.used| < MAXOPBLOCKS && |s.cache| <= NBUF
    ensures Goes(l, s0, s', lim) && SameVals(s, s') && s'.cache.Keys == s.cache.Keys
    ensures s' == s.(lh := s.lh + [b], cache := s'.cache, ops := s.ops[p := Some(Op(s.ops[p].value.used + {b}, None))])
    ensures s'.cache[b].holder.None? && !s'.cache[b].modified
    ensures forall x | x in s.cache && x != b :: s'.cache[x] == s.cache[x]
  {
    hide Goes;
    s' := GoesOn(l, s0, s, lim, LogStore(p, b));
    assert s'.cache.Keys == s.cache.Keys;
    s' := GoesOn(l, s0, s', lim, Brelse(p, b));
    assert s'.cache.Keys == s.cache.Keys;
  }

  /** The log is being copied: t blocks are done. Only the targets are cached. */
  ghost predicate Copying(l: Layout, s: Sys, t: nat) {
    && Overfull(l) && |s.disk| == l.size && |s.ops| == 3 && s.booted && s.phase == Phase.Copying(t) && t <= l.nlog
    && s.cache.Keys == Targets(l, l.nlog) && Calm(s) && ListsTargets(l, s, l.nlog)
    && (forall x | l.Home(x) && !(t == l.nlog && x == Target(l, 0)) ::
          s.disk[x] == ZeroBlock() && (x != Last(l) ==> s.Val(x) == ZeroBlock()))
    && s.Val(Last(l)) == OneBlock() && s.disk[l.start] == ZeroBlock()
    && (forall u | 0 <= u < t && u < l.nlog - 1 :: s.disk[l.Slot(u)] == ZeroBlock())
    && (t == l.nlog ==> s.disk[Target(l, 0)] == OneBlock())
  }

  /** The three operations end, and the commit begins. */
  lemma EndAll(l: Layout, s0: Sys, s: Sys, lim: Limits) returns (s': Sys)
    requires Overfull(l) && Goes(l, s0, s, lim) && Recorded(l, s) && OnlyLast(l, s)
    ensures Goes(l, s0, s', lim) && Copying(l, s', 0)
  {
    hide Goes, OneBlock, ZeroBlock, Targets, OnlyLast, ListsTargets;
    s' := GoesOn(l, s0, s, lim, EndOp(0));
    s' := GoesOn(l, s0, s', lim, EndOp(1));
    s' := GoesOn(l, s0, s', lim, EndOp(2));
    CopyStarts(l, s, s');
  }

  lemma CopyStarts(l: Layout, s: Sys, s': Sys)
    requires Overfull(l) && Recorded(l, s) && OnlyLast(l, s) && |s'.ops| == 3
    requires s' == s.(ops := s'.ops, outstanding := s'.outstanding, committing := true, phase := Phase.Copying(0))
    ensures Copying(l, s', 0)
  {
    hide OneBlock, ZeroBlock, Targets;
    assert forall x | 0 <= x < |s.disk| :: s'.Val(x) == s.Val(x);
    assert l.Home(Last(l)) && !l.Home(l.start);
  }

  // ---------- one block copied, and its buffer recycled ----------

  /** What a step that reads blocks a and b and writes block w with data d does. */
  ghost predicate Wrote(s: Sys, s': Sys, a: int, b: int, w: int, d: Block) {
    && 0 <= w < |s.disk| && s'.disk == s.disk[w := d] && s'.lh == s.lh && s'.ops == s.ops && s'.booted == s.booted
    && (forall x | 0 <= x < |s.disk| :: s'.Val(x) == if x == w then d else s.Val(x))
    && s'.cache.Keys == s.cache.Keys + {a} + {b} && (Calm(s) ==> Calm(s'))
    && (a in s'.cache && (a == w || a !in s.cache) ==> !s'.cache[a].dirty)
  }

  lemma Loads(s: Sys, b: int)
    requires 0 <= b < |s.disk|
    ensures var s' := s.Load(b);
            && s' == s.(cache := s'.cache) && s'.cache.Keys == s.cache.Keys + {b} && (Calm(s) ==> Calm(s'))
            && (forall x | 0 <= x < |s.disk| :: s'.Val(x) == s.Val(x))
            && (b !in s.cache ==> !s'.cache[b].dirty) && forall x | x in s.cache :: s'.cache[x] == s.cache[x]
  {
  }

  /** The write itself. */
  lemma Writes(s: Sys, b: int, d: Block)
    requires 0 <= b < |s.disk| && b in s.cache
    ensures var s' := s.Bwrite(b, d);
            && s' == s.(cache := s'.cache, disk := s.disk[b := d]) && s'.cache.Keys == s.cache.Keys
            && (Calm(s) ==> Calm(s')) && !s'.cache[b].dirty
            && (forall x | 0 <= x < |s.disk| :: s'.Val(x) == if x == b then d else s.Val(x))
            && forall x | x in s.cache && x != b :: s'.cache[x] == s.cache[x]
  {
  }

  /** Reading blocks a and b and then writing one of them. */
  lemma ReadThenWrite(s: Sys, a: int, b: int, w: int, d: Block)
    requires 0 <= a < |s.disk| && 0 <= b < |s.disk| && (w == a || w == b)
    ensures Wrote(s, s.Load(a).Load(b).Bwrite(w, d), a, b, w, d)
    ensures s.Load(a).Load(b).Bwrite(w, d).phase == s.phase
    ensures s.Load(a).Load(b).cache.Keys == s.cache.Keys + {a} + {b}
    ensures s.Load(a).Load(b).cache[a].data == s.Val(a) && s.Load(a).Load(b).cache[b].data == s.Val(b)
  {
    hide Sys.Load, Sys.Bwrite, Calm;
    Loads(s, a);
    Loads(s.Load(a), b);
    Writes(s.Load(a).Load(b), w, d);
    assert s.Load(a).Load(b).Val(a) == s.Val(a) && s.Load(a).Load(b).Val(b) == s.Val(b);
  }

  lemma CopyWrites(l: Layout, s: Sys)
    requires Enabled(l, s, CopyLog)
    ensures var t := s.phase.tail;
            && Wrote(s, Apply(l, s, CopyLog), l.Slot(t), s.lh[t], l.Slot(t), s.Val(s.lh[t]))
            && Apply(l, s, CopyLog).phase == Phase.Copying(t + 1)
  {
    var t := s.phase.tail;
    ReadThenWrite(s, l.Slot(t), s.lh[t], l.Slot(t), s.Val(s.lh[t]));
    hide Sys.Load, Sys.Bwrite, SetHead, HeadOf;
  }

  lemma InstallWrites(l: Layout, s: Sys)
    requires Enabled(l, s, Install)
    ensures var t := s.phase.tail;
            && Wrote(s, Apply(l, s, Install), l.Slot(t), s.lh[t], s.lh[t], s.Val(l.Slot(t)))
            && Apply(l, s, Install).phase == Phase.Installing(t + 1)
  {
    var t := s.phase.tail;
    ReadThenWrite(s, l.Slot(t), s.lh[t], s.lh[t], s.Val(l.Slot(t)));
    hide Sys.Load, Sys.Bwrite, SetHead, HeadOf;
  }

  /** A clean buffer that agrees with the disk is recycled. */
  lemma Recycle(l: Layout, s0: Sys, s: Sys, b: int, lim: Limits) returns (s': Sys)
    requires Goes(l, s0, s, lim) && b in s.cache && Calm(s) && !s.cache[b].dirty && |s.cache| <= NBUF
    requires 0 <= b < |s.disk| && s.Val(b) == s.disk[b]
    ensures Goes(l, s0, s', lim) && s' == s.(cache := s'.cache) && s'.cache.Keys == s.cache.Keys - {b} && Calm(s')
    ensures forall x | 0 <= x < |s.disk| :: s'.Val(x) == s.Val(x)
  {
    hide Goes;
    assert (s.cache - {b}).Keys == s.cache.Keys - {b};
    SubsetSize(s.cache.Keys - {b}, s.cache.Keys);
    s' := GoesOn(l, s0, s, lim, Evict(b));
  }

  // ---------- the commit ----------

  lemma CopyStep(l: Layout, s: Sys, t: nat)
    requires Copying(l, s, t) && t < l.nlog
    ensures Enabled(l, s, CopyLog)
    ensures var s' := Apply(l, s, CopyLog);
            && Wrote(s, s', l.Slot(t), Target(l, t), l.Slot(t), s.Val(Target(l, t))) && s'.phase == Phase.Copying(t + 1)
            && |s'.cache| <= NBUF && s'.cache.Keys == Targets(l, l.nlog) + {l.Slot(t)}
  {
    hide OneBlock, ZeroBlock, Apply, Targets, Wrote;
    CopyWrites(l, s);
    CopyKeys(l, s, Apply(l, s, CopyLog), t);
  }

  lemma CopyKeys(l: Layout, s: Sys, s': Sys, t: nat)
    requires Copying(l, s, t) && t < l.nlog && Wrote(s, s', l.Slot(t), Target(l, t), l.Slot(t), s.Val(Target(l, t)))
    ensures |s'.cache| <= NBUF && s'.cache.Keys == Targets(l, l.nlog) + {l.Slot(t)}
  {
    hide OneBlock, ZeroBlock, Targets;
    assert s'.cache.Keys == Targets(l, l.nlog) + {l.Slot(t)};
    UnionSize(Targets(l, l.nlog), {l.Slot(t)});
  }

  lemma CopyOne(l: Layout, s0: Sys, s: Sys, t: nat, lim: Limits) returns (s': Sys)
    requires Goes(l, s0, s, lim) && Copying(l, s, t) && t < l.nlog
    ensures Goes(l, s0, s', lim) && Copying(l, s', t + 1)
  {
    hide Goes, OneBlock, ZeroBlock, Enabled, Apply, Sys.Val, Targets;
    CopyStep(l, s, t);
    s' := GoesOn(l, s0, s, lim, CopyLog);
    assert l.Slot(l.nlog - 1) == Target(l, 0);
    if t < l.nlog - 1 {
      s' := Recycle(l, s0, s', l.Slot(t), lim);
      assert s'.cache.Keys == Targets(l, l.nlog);
    }
  }

  lemma {:induction false} CopyAll(l: Layout, s0: Sys, s: Sys, t: nat, lim: Limits) returns (s': Sys)
    requires Goes(l, s0, s, lim) && Copying(l, s, t)
    ensures Goes(l, s0, s', lim) && Copying(l, s', l.nlog)
    decreases l.nlog - t
  {
    hide Goes, Copying, Enabled, Apply;
    if t >= l.nlog {
      s' := s;
      CopyBound(l, s, t);
    } else {
      s' := CopyOne(l, s0, s, t, lim);
      s' := CopyAll(l, s0, s', t + 1, lim);
    }
  }

  lemma CopyBound(l: Layout, s: Sys, t: nat)
    requires Copying(l, s, t) && t >= l.nlog
    ensures t == l.nlog
  {
  }

  /** The log is being installed, after the commit or by recovery: t blocks are done. */
  ghost predicate Installing(l: Layout, s: Sys, t: nat) {
    && Overfull(l) && |s.disk| == l.size && |s.ops| == 3 && s.phase == Phase.Installing(t) && t <= l.nlog
    && s.cache.Keys <= Targets(l, l.nlog) && Calm(s) && ListsTargets(l, s, l.nlog)
    && (forall u | 0 <= u < l.nlog - 1 :: s.disk[l.Slot(u)] == ZeroBlock())
    && (t >= 1 ==> s.Val(Target(l, 0)) == ZeroBlock())
    && (t == l.nlog ==> s.Val(Last(l)) == s.disk[Last(l)] == ZeroBlock())
  }

  lemma InstallStep(l: Layout, s: Sys, t: nat)
    requires Installing(l, s, t) && t < l.nlog
    ensures Enabled(l, s, Install)
    ensures var s' := Apply(l, s, Install);
            && Wrote(s, s', l.Slot(t), Target(l, t), Target(l, t), s.Val(l.Slot(t)))
            && s'.phase == Phase.Installing(t + 1)
            && |s'.cache| <= NBUF && s'.cache.Keys <= Targets(l, l.nlog) + {l.Slot(t)}
    ensures t < l.nlog - 1 ==> s.Val(l.Slot(t)) == s.disk[l.Slot(t)] && l.Slot(t) !in s.cache
  {
    hide ZeroBlock, Apply, Targets, Wrote;
    InstallWrites(l, s);
    InstallKeys(l, s, Apply(l, s, Install), t);
  }

  lemma InstallKeys(l: Layout, s: Sys, s': Sys, t: nat)
    requires Installing(l, s, t) && t < l.nlog
    requires Wrote(s, s', l.Slot(t), Target(l, t), Target(l, t), s.Val(l.Slot(t)))
    ensures |s'.cache| <= NBUF && s'.cache.Keys <= Targets(l, l.nlog) + {l.Slot(t)}
  {
    hide ZeroBlock, Targets;
    UnionSize(Targets(l, l.nlog), {l.Slot(t)});
    SubsetSize(s'.cache.Keys, Targets(l, l.nlog) + {l.Slot(t)});
  }

  /** The log block was read into a buffer of its own, which is clean. */
  lemma SlotIsClean(l: Layout, s: Sys, s': Sys, t: nat)
    requires Installing(l, s, t) && t < l.nlog - 1 && l.Slot(t) !in s.cache
    requires s.Val(l.Slot(t)) == s.disk[l.Slot(t)]
    requires Wrote(s, s', l.Slot(t), Target(l, t), Target(l, t), s.Val(l.Slot(t)))
    ensures l.Slot(t) in s'.cache && Calm(s') && !s'.cache[l.Slot(t)].dirty && |s'.disk| == l.size
    ensures s'.Val(l.Slot(t)) == s'.disk[l.Slot(t)]
  {
    hide ZeroBlock, Targets, Sys.Val;
  }

  lemma InstalledOne(l: Layout, s: Sys, s': Sys, t: nat)
    requires Installing(l, s, t) && t < l.nlog && (t < l.nlog - 1 ==> s.Val(l.Slot(t)) == s.disk[l.Slot(t)])
    requires |s'.disk| == |s.disk| && s'.disk == s.disk[Target(l, t) := s.Val(l.Slot(t))]
    requires s'.lh == s.lh && s'.ops == s.ops && s'.phase == Phase.Installing(t + 1)
    requires s'.cache.Keys <= Targets(l, l.nlog) && Calm(s')
    requires forall x | 0 <= x < |s.disk| :: s'.Val(x) == if x == Target(l, t) then s.Val(l.Slot(t)) else s.Val(x)
    ensures Installing(l, s', t + 1)
  {
    hide ZeroBlock, Targets, Sys.Val;
    assert l.Slot(l.nlog - 1) == Target(l, 0);
  }

  lemma InstallOne(l: Layout, s0: Sys, s: Sys, t: nat, lim: Limits) returns (s': Sys)
    requires Goes(l, s0, s, lim) && Installing(l, s, t) && t < l.nlog
    ensures Goes(l, s0, s', lim) && Installing(l, s', t + 1) && s'.booted == s.booted
  {
    hide Goes, ZeroBlock, Enabled, Apply, Targets, Sys.Val, Installing, Calm;
    InstallStep(l, s, t);
    s' := GoesOn(l, s0, s, lim, Install);
    InstallingFacts(l, s, t);
    if t < l.nlog - 1 {
      SlotIsClean(l, s, s', t);
      s' := Recycle(l, s0, s', l.Slot(t), lim);
    }
    InstalledOne(l, s, s', t);
  }

  lemma InstallingFacts(l: Layout, s: Sys, t: nat)
    requires Installing(l, s, t) && t < l.nlog
    ensures |s.disk| == l.size && Calm(s) && l.Slot(t) < l.size
    ensures t == l.nlog - 1 ==> l.Slot(t) in Targets(l, l.nlog)
  {
    hide Targets;
  }

  lemma {:induction false} InstallAll(l: Layout, s0: Sys, s: Sys, t: nat, lim: Limits) returns (s': Sys)
    requires Goes(l, s0, s, lim) && Installing(l, s, t)
    ensures Goes(l, s0, s', lim) && Installing(l, s', l.nlog) && s'.booted == s.booted
    decreases l.nlog - t
  {
    hide Goes, Installing, Enabled, Apply;
    if t >= l.nlog {
      s' := s;
      InstallBound(l, s, t);
    } else {
      s' := InstallOne(l, s0, s, t, lim);
      s' := InstallAll(l, s0, s', t + 1, lim);
    }
  }

  lemma InstallBound(l: Layout, s: Sys, t: nat)
    requires Installing(l, s, t) && t >= l.nlog
    ensures t == l.nlog
  {
  }

  /** The header write. The header block takes the spare buffer. */
  lemma CommitStep(l: Layout, s: Sys)
    requires Copying(l, s, l.nlog)
    ensures Enabled(l, s, CommitHead)
    ensures var s' := Apply(l, s, CommitHead);
            && s'.cache.Keys == Targets(l, l.nlog) + {l.start} && |s'.cache| <= NBUF && Calm(s') && s'.booted
            && s'.phase == Phase.Installing(0) && |s'.disk| == l.size && s'.lh == s.lh && |s'.ops| == 3
            && !s'.cache[l.start].dirty && HeadOf(s'.disk[l.start]) == s.lh && s'.Val(l.start) == s'.disk[l.start]
            && forall u | 0 <= u < l.nlog - 1 :: s'.disk[l.Slot(u)] == ZeroBlock()
  {
    hide OneBlock, ZeroBlock, SetHead, HeadOf, Targets;
    HeadRoundTrip(s.Val(l.start), s.lh);
    assert Apply(l, s, CommitHead).cache.Keys == Targets(l, l.nlog) + {l.start};
    UnionSize(Targets(l, l.nlog), {l.start});
  }

  /** After the header write the commit goes on to install. */
  lemma CommitThen(l: Layout, s0: Sys, s: Sys, lim: Limits) returns (s': Sys)
    requires Goes(l, s0, s, lim) && Copying(l, s, l.nlog) && lim.commit
    ensures Goes(l, s0, s', lim) && Installing(l, s', 0) && s'.booted
  {
    hide Goes, OneBlock, ZeroBlock, Enabled, Apply, Targets, HeadOf;
    CommitStep(l, s);
    s' := GoesOn(l, s0, s, lim, CommitHead);
    s' := Recycle(l, s0, s', l.start, lim);
  }

  /** A crash right after the header write: recovery installs the same. */
  lemma CrashThen(l: Layout, s: Sys, lim: Limits) returns (s': Sys)
    requires Copying(l, s, l.nlog) && lim.crash && Enabled(l, s, CommitHead)
    ensures Goes(l, Apply(l, s, CommitHead), s', lim) && Installing(l, s', 0) && !s'.booted
  {
    hide Goes, OneBlock, ZeroBlock, SetHead, HeadOf, Targets;
    CommitStep(l, s);
    var s1 := Apply(l, s, CommitHead);
    GoesNowhere(l, s1, lim);
    s' := Reboot(l, s1, lim);
  }

  lemma Reboot(l: Layout, s: Sys, lim: Limits) returns (s': Sys)
    requires Overfull(l) && Goes(l, s, s, lim) && lim.crash && |s.disk| == l.size && |s.ops| == 3
    requires HeadOf(s.disk[l.start]) == s.lh && ListsTargets(l, s, l.nlog)
    requires forall u | 0 <= u < l.nlog - 1 :: s.disk[l.Slot(u)] == ZeroBlock()
    ensures Goes(l, s, s', lim) && Installing(l, s', 0) && !s'.booted
  {
    hide Goes, ZeroBlock, HeadOf, Targets;
    s' := GoesOn(l, s, s, lim, Crash);
    assert Apply(l, s', ReadHead).cache.Keys == {l.start};
    s' := GoesOn(l, s, s', lim, ReadHead);
    s' := Recycle(l, s, s', l.start, lim);
    assert s'.cache.Keys == {};
  }

  // ---------- whole runs ----------

  lemma ReachedBy(l: Layout, s: Sys) returns (run: seq<Sys>, steps: seq<Step>)
    requires Reachable(l, s)
    ensures IsRun(l, run, steps) && Bounded(run) && run[|steps|] == s
  {
    run, steps :| IsRun(l, run, steps) && Bounded(run) && run[|run| - 1] == s;
  }

  lemma PathOf(l: Layout, s: Sys, s': Sys, lim: Limits) returns (run: seq<Sys>, steps: seq<Step>)
    requires Goes(l, s, s', lim)
    ensures IsPath(l, run, steps, lim) && run[0] == s && run[|steps|] == s'
  {
    run, steps :| IsPath(l, run, steps, lim) && run[0] == s && run[|steps|] == s';
  }

  /** A run to s, a step, and a path from there. */
  lemma StepThenPath(l: Layout, run: seq<Sys>, steps: seq<Step>, st: Step, s': Sys, lim: Limits)
    returns (run': seq<Sys>, steps': seq<Step>)
    requires IsRun(l, run, steps) && Bounded(run) && Enabled(l, run[|steps|], st)
    requires Goes(l, Apply(l, run[|steps|], st), s', lim)
    ensures IsRun(l, run', steps') && Bounded(run')
    ensures |steps| < |steps'| && run <= run' && steps <= steps' && steps'[|steps|] == st
    ensures run'[|steps| + 1] == Apply(l, run[|steps|], st) && run'[|steps'|] == s'
    ensures forall i | |steps| < i < |steps'| :: Within(lim, steps'[i])
  {
    hide Enabled, Apply, Init, Goes, Within;
    var s1 := Apply(l, run[|steps|], st);
    var more, next := PathOf(l, s1, s', lim);
    assert |more[0].cache| <= NBUF;
    RunOn(l, run, steps, st);
    var run1, steps1 := run + [s1], steps + [st];
    Joined(l, run1, steps1, more, next, lim);
    run', steps' := run1 + more[1..], steps1 + next;
    forall i | |steps| < i < |steps'| ensures Within(lim, steps'[i]) {
      assert steps'[i] == next[i - |steps1|];
    }
    assert more[0] == run'[|steps1|];
  }

  predicate Quiet(steps: seq<Step>, i: int, j: int) {
    forall k | 0 <= i <= k < j && k < |steps| :: !steps[k].CommitHead?
  }

  predicate Spared(steps: seq<Step>, i: int, j: int, b: int) {
    forall k | 0 <= i <= k < j && k < |steps| :: Spares(steps[k], b)
  }

  /** From the overfull log through commit, crash and recovery: the last value written to a block is
      gone, although its commit was complete, and a home block changed before the commit. */
  lemma OverrunLosesCommit(l: Layout)
    returns (run: seq<Sys>, steps: seq<Step>, i: nat, k: nat)
    requires Overfull(l)
    ensures IsRun(l, run, steps) && Bounded(run) && i < k < |steps| && l.Home(Last(l)) && l.Home(Target(l, 0))
    ensures steps[i].Modify? && steps[i].b == Last(l) && steps[i].data == OneBlock()
    ensures Spared(steps, i + 1, k, Last(l))
    ensures steps[k].CommitHead? && Quiet(steps, i, k) && Quiet(steps, k + 1, |steps|) && Recovered(run[|steps|])
    ensures |run[k].disk| == |run[i].disk| == |run[|steps|].disk| == l.size && run[i].phase.Running?
    ensures run[k].Val(Last(l)) == OneBlock() && run[|steps|].disk[Last(l)] == ZeroBlock()
    ensures run[i].disk[Target(l, 0)] == ZeroBlock() && run[k].disk[Target(l, 0)] == OneBlock()
    ensures run[i].disk[l.start] == run[k].disk[l.start] == ZeroBlock()
  {
    hide Reachable, Goes, OneBlock, ZeroBlock, Apply, Enabled, Bounded, Raced, Copying, Installing, OnlyLast, AllZero,
         Init;
    var calm, quiet := Limits(false, false, Last(l)), Limits(true, false, -1);
    var s1, p, q := Race(l);
    var fill := Modify(q, Last(l), OneBlock());
    Fill(l, s1, p, q);
    RacedVals(l, s1, p, q);
    var s4 := ToCommit(l, Apply(l, s1, fill), p, q, calm);
    CommitStep(l, s4);
    var s9 := Recover(l, s4, quiet);
    run, steps := ReachedBy(l, s1);
    i := |steps|;
    run, steps := StepThenPath(l, run, steps, fill, s4, calm);
    k := |steps|;
    ghost var run0, steps0 := run, steps;
    run, steps := StepThenPath(l, run, steps, CommitHead, s9, quiet);
    assert run[i] == run0[i] && run[k] == run0[k];
    forall m | i < m < k ensures Within(calm, steps[m]) { assert steps[m] == steps0[m]; }
    assert steps[i] == steps0[i];
    CopyingVals(l, s4);
  }

  lemma RacedVals(l: Layout, s: Sys, p: nat, q: nat)
    requires Overfull(l) && Raced(l, s, p, q) && AllZero(s)
    ensures |s.disk| == l.size && s.phase.Running? && s.disk[Target(l, 0)] == s.disk[l.start] == ZeroBlock()
  {
  }

  lemma CopyingVals(l: Layout, s: Sys)
    requires Copying(l, s, l.nlog)
    ensures |s.disk| == l.size && s.Val(Last(l)) == OneBlock() && s.disk[Target(l, 0)] == OneBlock()
    ensures s.disk[l.start] == ZeroBlock()
  {
  }

  /** From the racing operations to the end of the copy. */
  lemma ToCommit(l: Layout, s: Sys, p: nat, q: nat, lim: Limits) returns (s': Sys)
    requires Overfull(l) && Raced(l, s, p, q) && OnlyLast(l, s)
    ensures Goes(l, s, s', lim) && Copying(l, s', l.nlog)
  {
    hide Goes, Copying, Recorded, OnlyLast, Raced;
    s' := Record(l, s, p, q, lim);
    s' := EndAll(l, s, s', lim);
    s' := CopyAll(l, s, s', 0, lim);
  }

  /** A crash right after the commit, and a whole recovery. */
  lemma Recover(l: Layout, s: Sys, lim: Limits) returns (s': Sys)
    requires Copying(l, s, l.nlog) && lim.crash && Enabled(l, s, CommitHead)
    ensures Goes(l, Apply(l, s, CommitHead), s', lim)
    ensures Recovered(s') && |s'.disk| == l.size && s'.disk[Last(l)] == ZeroBlock()
  {
    hide Goes, ZeroBlock, Installing, Copying, Enabled, Apply;
    var s1 := Apply(l, s, CommitHead);
    s' := CrashThen(l, s, lim);
    s' := InstallAll(l, s1, s', 0, lim);
    s' := EndRecovery(l, s1, s', lim);
  }

  lemma EndRecovery(l: Layout, s0: Sys, s: Sys, lim: Limits) returns (s': Sys)
    requires Goes(l, s0, s, lim) && Installing(l, s, l.nlog) && !s.booted
    ensures Goes(l, s0, s', lim) && Recovered(s') && |s'.disk| == l.size && s'.disk[Last(l)] == ZeroBlock()
  {
    hide Goes, ZeroBlock, SetHead, Targets;
    SubsetSize(s.cache.Keys, Targets(l, l.nlog));
    s' := GoesOn(l, s0, s, lim, ForgetLog);
    assert Apply(l, s', ClearHead).cache.Keys == s.cache.Keys + {l.start};
    UnionSize(s.cache.Keys, {l.start});
    s' := GoesOn(l, s0, s', lim, ClearHead);
  }

  /** The same without a crash: the next read of the block finds what was there before. */
  lemma OverrunLosesWrite(l: Layout) returns (run: seq<Sys>, steps: seq<Step>, i: nat)
    requires Overfull(l)
    ensures IsRun(l, run, steps) && Bounded(run) && i < |steps| - 1
    ensures steps[i].Modify? && steps[i].b == Last(l) && steps[i].data == OneBlock()
    ensures Spared(steps, i + 1, |steps| - 1, Last(l)) && steps[|steps| - 1] == Bread(0, Last(l))
    ensures Last(l) in run[|steps|].cache && run[|steps|].cache[Last(l)].data == ZeroBlock()
  {
    hide Reachable, Goes, OneBlock, ZeroBlock, Apply, Enabled, Bounded, Raced, Copying, Installing, OnlyLast, AllZero,
         Init;
    var lim := Limits(false, true, Last(l));
    var s1, p, q := Race(l);
    var fill := Modify(q, Last(l), OneBlock());
    Fill(l, s1, p, q);
    var s2 := Apply(l, s1, fill);
    var s4 := ToCommit(l, s2, p, q, lim);
    var s5 := CommitThen(l, s2, s4, lim);
    var s6 := InstallAll(l, s2, s5, 0, lim);
    run, steps := ReachedBy(l, s1);
    i := |steps|;
    run, steps := StepThenPath(l, run, steps, fill, s6, lim);
    ReadAfterInstall(l, s6);
    ghost var steps0 := steps;
    var j := |steps|;
    RunOn(l, run, steps, Bread(0, Last(l)));
    run, steps := run + [Apply(l, s6, Bread(0, Last(l)))], steps + [Bread(0, Last(l))];
    forall m | i < m < j ensures Within(lim, steps[m]) { assert steps[m] == steps0[m]; }
  }

  lemma ReadAfterInstall(l: Layout, s: Sys)
    requires Installing(l, s, l.nlog) && s.booted
    ensures Enabled(l, s, Bread(0, Last(l)))
    ensures var s' := Apply(l, s, Bread(0, Last(l)));
            Last(l) in s'.cache && s'.cache[Last(l)].data == ZeroBlock() && |s'.cache| <= NBUF
  {
    hide ZeroBlock, Targets;
    var s' := Apply(l, s, Bread(0, Last(l)));
    assert s'.cache.Keys == s.cache.Keys + {Last(l)};
    SubsetSize(s'.cache.Keys, Targets(l, l.nlog));
  }
}
