/** Whole runs of the write-ahead log: crash atomicity, reads, and log space. */
module WriteAheadLogRuns {
  import opened Basics
  import opened WriteAheadLog
  import opened WriteAheadLogCorrect

  /** The machine about to recover from a disk whose header lists home blocks. */
  ghost predicate Init(l: Layout, s: Sys) {
    && l.Valid() && |s.disk| == l.size && Loggable(l, HeadOf(s.disk[l.start]))
    && s == Sys(s.disk, map[], [], s.ops, 0, false, Booting, false)
    && forall p | 0 <= p < |s.ops| :: s.ops[p].None?
  }

  ghost predicate IsRun(l: Layout, run: seq<Sys>, steps: seq<Step>) {
    && |run| == |steps| + 1 && Init(l, run[0])
    && forall i | 0 <= i < |steps| :: Enabled(l, run[i], steps[i]) && run[i + 1] == Apply(l, run[i], steps[i])
  }

  /** No state of the run has more blocks in the cache than there are buffers. */
  ghost predicate Bounded(run: seq<Sys>) { forall i | 0 <= i < |run| :: |run[i].cache| <= NBUF }

  /** The log stays inside its area, or full and uncopied, in every state. */
  ghost predicate FittingRun(l: Layout, run: seq<Sys>, steps: seq<Step>) {
    IsRun(l, run, steps) && forall i | 0 <= i < |run| :: Fits(l, run[i])
  }

  lemma InitInv(l: Layout, s: Sys)
    requires Init(l, s)
    ensures SpaceInv(s)
    ensures Inv(l, s)
  {
    NoOps(s.ops);
  }

  // ---------- log space, in every run ----------

  /** Logged blocks plus unused reservations never exceed LOGSIZE, and a commit never
      overlaps an operation, whatever the interleaving and whatever is on the disk. */
  lemma {:induction false} RunKeepsSpace(l: Layout, run: seq<Sys>, steps: seq<Step>, i: nat)
    requires IsRun(l, run, steps) && i < |run|
    ensures SpaceInv(run[i])
  {
    if i == 0 {
      InitInv(l, run[0]);
    } else {
      RunKeepsSpace(l, run, steps, i - 1);
      hide SpaceInv;
      SpaceStep(l, run[i - 1], steps[i - 1]);
    }
  }

  /** `log_write` indexes the header array in bounds although its size test is made
      without the lock, and `end_op` never finds a commit in progress. */
  lemma RunIndexInBounds(l: Layout, run: seq<Sys>, steps: seq<Step>, i: nat)
    requires IsRun(l, run, steps) && i < |steps|
    ensures steps[i].LogStore? ==> Find(run[i].lh, steps[i].b) < LOGSIZE && |Absorb(run[i].lh, steps[i].b)| <= LOGSIZE
    ensures steps[i].EndOp? ==> !run[i].committing && run[i].outstanding >= 1
  {
    RunKeepsSpace(l, run, steps, i);
    ReservedNonNegative(run[i].ops);
    if steps[i].LogStore? {
      StoreKeepsSpace(l, run[i], steps[i].p, steps[i].b);
      if steps[i].b in run[i].lh { assert Find(run[i].lh, steps[i].b) < |run[i].lh|; }
    } else if steps[i].EndOp? {
      InOpIsActive(run[i], steps[i].p);
    }
  }

  // ---------- refinement, in every run that fits ----------

  lemma {:induction false} RunInv(l: Layout, run: seq<Sys>, steps: seq<Step>, i: nat)
    requires FittingRun(l, run, steps) && i < |run|
    ensures Inv(l, run[i])
  {
    hide Inv, Enabled, Apply, Init;
    if i == 0 {
      InitInv(l, run[0]);
    } else {
      RunInv(l, run, steps, i - 1);
      StepFits(l, run, steps, i - 1);
    }
  }

  lemma StepFits(l: Layout, run: seq<Sys>, steps: seq<Step>, i: nat)
    requires FittingRun(l, run, steps) && i < |steps| && Inv(l, run[i])
    ensures Inv(l, run[i + 1]) && Refines(l, run[i], steps[i], run[i + 1])
  {
    hide CacheInv, PinInv, PhaseInv, SpaceInv, Refines;
    assert Fits(l, run[i + 1]);
    StepRefines(l, run[i], steps[i]);
  }

  /** Cache, log and disk together are the two-copy store: each step writes one block of
      the current copy, commits all of it, falls back to the durable copy, or does nothing. */
  lemma RunRefinesStore(l: Layout, run: seq<Sys>, steps: seq<Step>, i: nat)
    requires FittingRun(l, run, steps) && i < |steps|
    ensures Inv(l, run[i]) && Inv(l, run[i + 1])
    ensures Abstract(l, run[i + 1]) == SpecStep(Abstract(l, run[i]), steps[i])
  {
    RunInv(l, run, steps, i);
    hide CacheInv, PinInv, PhaseInv, SpaceInv, Abstract, Enabled, Apply, SpecStep;
    StepFits(l, run, steps, i);
  }

  /** What `bread` finds is the current copy of the store. */
  lemma ReadReturnsCurrent(l: Layout, s: Sys, p: nat, b: int)
    requires Inv(l, s) && Enabled(l, s, Bread(p, b)) && l.Home(b)
    ensures Apply(l, s, Bread(p, b)).cache[b].data == Abstract(l, s).current[b]
  {
    hide CacheInv, PinInv, PhaseInv, SpaceInv;
    assert Abstract(l, s).current[b] == CurrentAt(l, s, b);
  }

  /** The step leaves the current copy of block b alone. */
  predicate Spares(st: Step, b: int) { !st.Crash? && !(st.Modify? && st.b == b) }

  lemma {:induction false} CurrentKept(l: Layout, run: seq<Sys>, steps: seq<Step>, i: nat, j: nat, b: int)
    requires FittingRun(l, run, steps) && i <= j < |run| && l.Home(b)
    requires forall k | i <= k < j :: Spares(steps[k], b)
    ensures DiskInv(l, run[i]) && DiskInv(l, run[j])
    ensures Abstract(l, run[j]).current[b] == Abstract(l, run[i]).current[b]
    decreases j
  {
    hide DiskInv, Abstract, CacheInv, PinInv, PhaseInv, SpaceInv, Enabled, Apply;
    if i < j {
      CurrentKept(l, run, steps, i, j - 1, b);
      assert Spares(steps[j - 1], b);
      RunRefinesStore(l, run, steps, j - 1);
      CurrentDomain(l, run[j - 1]);
    } else {
      RunInv(l, run, steps, i);
    }
  }

  lemma CurrentDomain(l: Layout, s: Sys)
    requires DiskInv(l, s)
    ensures forall b | l.Home(b) :: b in Abstract(l, s).current && b in Abstract(l, s).durable
  {
    hide DurableAt, CurrentAt, Loggable;
  }

  /** A read returns the last value written to the block, through any number of commits. */
  lemma ReadsLastWrite(l: Layout, run: seq<Sys>, steps: seq<Step>, i: nat, j: nat)
    requires FittingRun(l, run, steps) && i < j < |steps| && steps[i].Modify? && steps[j].Bread?
             && steps[j].b == steps[i].b
    requires forall k | i < k < j :: Spares(steps[k], steps[i].b)
    ensures steps[i].b in run[j + 1].cache && run[j + 1].cache[steps[i].b].data == steps[i].data
  {
    var b := steps[i].b;
    assert Enabled(l, run[i], steps[i]);
    assert l.Home(b);
    hide CacheInv, PinInv, PhaseInv, SpaceInv, Abstract, Enabled, Apply, Loggable, HeadOf;
    ReadStep(l, run, steps, j);
    RunRefinesStore(l, run, steps, i);
    CurrentKept(l, run, steps, i + 1, j, b);
  }

  /** After a crash a read returns what readers saw at the last header write that committed. */
  lemma ReadsCommittedAfterCrash(l: Layout, run: seq<Sys>, steps: seq<Step>, k: nat, c: nat, j: nat)
    requires FittingRun(l, run, steps) && k < c < j < |steps| && steps[k].CommitHead? && steps[c].Crash?
             && steps[j].Bread?
    requires (forall i | k < i < j :: !steps[i].CommitHead?) && (forall i | c < i < j :: Spares(steps[i], steps[j].b))
    requires l.Home(steps[j].b)
    ensures DiskInv(l, run[k]) && steps[j].b in run[j + 1].cache
    ensures run[j + 1].cache[steps[j].b].data == CurrentAt(l, run[k], steps[j].b)
  {
    hide CacheInv, PinInv, PhaseInv, SpaceInv, CurrentAt, Abstract, Enabled, Apply, Loggable, HeadOf;
    var b := steps[j].b;
    ReadStep(l, run, steps, j);
    RunRefinesStore(l, run, steps, k);
    DurableBetweenCommits(l, run, steps, k + 1, c);
    RunRefinesStore(l, run, steps, c);
    CurrentKept(l, run, steps, c + 1, j, b);
    CurrentIs(l, run[k], b);
  }

  lemma ReadStep(l: Layout, run: seq<Sys>, steps: seq<Step>, j: nat)
    requires FittingRun(l, run, steps) && j < |steps| && steps[j].Bread? && l.Home(steps[j].b)
    ensures DiskInv(l, run[j]) && steps[j].b in run[j + 1].cache && steps[j].b in Abstract(l, run[j]).current
    ensures run[j + 1].cache[steps[j].b].data == Abstract(l, run[j]).current[steps[j].b]
  {
    RunInv(l, run, steps, j);
    assert Enabled(l, run[j], steps[j]) && run[j + 1] == Apply(l, run[j], steps[j]);
    hide CacheInv, PinInv, PhaseInv, SpaceInv;
    ReadReturnsCurrent(l, run[j], steps[j].p, steps[j].b);
    CurrentDomain(l, run[j]);
  }

  lemma CurrentIs(l: Layout, s: Sys, b: int)
    requires DiskInv(l, s) && l.Home(b)
    ensures b in Abstract(l, s).current && Abstract(l, s).current[b] == CurrentAt(l, s, b)
  {
    hide CurrentAt, DurableAt, Loggable;
  }

  // ---------- home blocks wait for the commit ----------

  /** Once the header on disk is empty only a header write that commits lets home blocks change. */
  lemma EmptyHeadStep(l: Layout, s: Sys, st: Step)
    requires Inv(l, s) && Enabled(l, s, st) && !st.CommitHead? && HeadOf(s.disk[l.start]) == []
    ensures |Apply(l, s, st).disk| == l.size && HeadOf(Apply(l, s, st).disk[l.start]) == []
    ensures forall b | l.Home(b) :: Apply(l, s, st).disk[b] == s.disk[b]
  {
    hide CacheInv, PinInv, SpaceInv;
    if st.ClearHead? {
      HeadRoundTrip(s.Val(l.start), []);
    }
  }

  lemma {:induction false} EmptyHeadKept(l: Layout, run: seq<Sys>, steps: seq<Step>, i: nat, j: nat)
    requires FittingRun(l, run, steps) && i <= j < |run| && run[i].phase.Running?
    requires forall k | i <= k < j :: !steps[k].CommitHead?
    ensures DiskInv(l, run[i]) && DiskInv(l, run[j]) && HeadOf(run[j].disk[l.start]) == []
    ensures forall b | l.Home(b) :: run[j].disk[b] == run[i].disk[b]
    decreases j
  {
    hide CacheInv, PinInv, PhaseInv, SpaceInv, Loggable, Enabled, Apply, HeadOf;
    RunInv(l, run, steps, j);
    if i < j {
      EmptyHeadKept(l, run, steps, i, j - 1);
      RunInv(l, run, steps, j - 1);
      assert run[j] == Apply(l, run[j - 1], steps[j - 1]);
      EmptyHeadStep(l, run[j - 1], steps[j - 1]);
    } else {
      RunningHead(l, run[i]);
    }
  }

  lemma RunningHead(l: Layout, s: Sys)
    requires Inv(l, s) && s.phase.Running?
    ensures HeadOf(s.disk[l.start]) == []
  {
  }

  /** From a moment with no commit in progress, every home block on disk keeps its value until the
      next header write that commits, whatever crashes and recoveries come before it. */
  lemma HomeWaitsForCommit(l: Layout, run: seq<Sys>, steps: seq<Step>, i: nat, j: nat, b: int)
    requires FittingRun(l, run, steps) && i <= j < |run| && run[i].phase.Running? && l.Home(b)
    requires forall k | i <= k < j :: !steps[k].CommitHead?
    ensures |run[i].disk| == |run[j].disk| == l.size && run[j].disk[b] == run[i].disk[b]
  {
    EmptyHeadKept(l, run, steps, i, j);
  }

  /** Once a commit has finished, no buffer is left dirty and the log is empty. */
  lemma CommitLeavesCacheClean(l: Layout, s: Sys)
    requires Inv(l, s) && Enabled(l, s, EndCommit)
    ensures var s' := Apply(l, s, EndCommit);
            s'.lh == [] && (forall b | b in s'.cache :: !s'.cache[b].dirty && s'.cache[b].data == s'.disk[b])
  {
    QuietCache(l, s);
    EndCommitCore(l, s);
    hide PinInv, SpaceInv;
  }

  // ---------- crash atomicity ----------

  lemma {:induction false} DurableBetweenCommits(l: Layout, run: seq<Sys>, steps: seq<Step>, i: nat, j: nat)
    requires FittingRun(l, run, steps) && i <= j < |run|
    requires forall k | i <= k < j :: !steps[k].CommitHead?
    ensures DiskInv(l, run[i]) && DiskInv(l, run[j])
    ensures Abstract(l, run[j]).durable == Abstract(l, run[i]).durable
    decreases j
  {
    hide Abstract, CacheInv, PinInv, PhaseInv, SpaceInv, Enabled, Apply;
    if i < j {
      DurableBetweenCommits(l, run, steps, i, j - 1);
      RunRefinesStore(l, run, steps, j - 1);
    } else {
      RunInv(l, run, steps, i);
    }
  }

  // ---------- the last operation to end commits ----------

  /** No operation is in progress, and the blocks they logged have not been committed. */
  ghost predicate Uncommitted(s: Sys) {
    s.booted && s.committing && s.phase.Copying? && s.lh != [] && s.outstanding == 0
  }

  lemma UncommittedStep(l: Layout, s: Sys, st: Step)
    requires SpaceInv(s) && Uncommitted(s) && Enabled(l, s, st) && !st.CommitHead? && !st.Crash?
    ensures Uncommitted(Apply(l, s, st)) && !st.BeginOp? && !st.Modify?
  {
    NoOps(s.ops);
  }

  lemma LastEndOp(l: Layout, s: Sys, p: nat)
    requires Enabled(l, s, EndOp(p)) && s.outstanding == 1 && s.lh != []
    ensures Uncommitted(Apply(l, s, EndOp(p)))
  {
  }

  lemma {:induction false} StaysUncommitted(l: Layout, run: seq<Sys>, steps: seq<Step>, i: nat, j: nat)
    requires IsRun(l, run, steps) && i < j < |run| && steps[i].EndOp? && run[i].outstanding == 1 && run[i].lh != []
    requires forall k | i < k < j :: !steps[k].CommitHead? && !steps[k].Crash?
    ensures Uncommitted(run[j]) && forall k | i < k < j :: !steps[k].BeginOp? && !steps[k].Modify?
    decreases j
  {
    hide Enabled, Apply, SpaceInv, Uncommitted, Init;
    RunKeepsSpace(l, run, steps, j - 1);
    if j == i + 1 {
      LastEndOp(l, run[i], steps[i].p);
    } else {
      StaysUncommitted(l, run, steps, i, j - 1);
      UncommittedStep(l, run[j - 1], steps[j - 1]);
    }
  }

  /** In every run: when the last operation in progress has ended, no other begins before the blocks they logged
      are committed, unless the machine crashes; and nothing is modified before that commit. */
  lemma CommitsBeforeNextOp(l: Layout, run: seq<Sys>, steps: seq<Step>, i: nat, j: nat)
    requires IsRun(l, run, steps) && i < j < |steps| && steps[i].EndOp? && run[i].outstanding == 1 && run[i].lh != []
    requires steps[j].BeginOp? && forall k | i < k < j :: !steps[k].Crash?
    ensures exists k :: i < k < j && steps[k].CommitHead? && forall m | i < m < k :: !steps[m].Modify?
  {
    assert Enabled(l, run[j], steps[j]);
    var k := i + 1;
    while k < j && !steps[k].CommitHead?
      invariant i < k <= j && forall m | i < m < k :: !steps[m].CommitHead?
    {
      k := k + 1;
    }
    StaysUncommitted(l, run, steps, i, k);
    assert k < j && steps[k].CommitHead?;
  }

  /** Recovery has finished replaying the log. */
  ghost predicate Recovered(s: Sys) { s.phase.Done? && !s.booted }

  lemma RecoveredDiskIsDurable(l: Layout, s: Sys)
    requires Inv(l, s) && Recovered(s)
    ensures forall b | l.Home(b) :: s.disk[b] == Abstract(l, s).durable[b]
  {
    hide CacheInv, PinInv, SpaceInv;
    forall b | l.Home(b) ensures s.disk[b] == Abstract(l, s).durable[b] {
      assert Abstract(l, s).durable[b] == DurableAt(l, s.disk, b);
    }
  }

  /** Crash atomicity. However often the machine crashed, in operations, in commits or in
      recovery itself, a finished recovery leaves in every home block exactly what readers
      saw at the last header write that committed. */
  lemma RecoveryRestoresLastCommit(l: Layout, run: seq<Sys>, steps: seq<Step>, k: nat, j: nat)
    requires FittingRun(l, run, steps) && k < j < |run| && Recovered(run[j])
    requires steps[k].CommitHead? && forall i | k < i < j :: !steps[i].CommitHead?
    ensures DiskInv(l, run[k]) && |run[j].disk| == l.size
    ensures forall b | l.Home(b) :: run[j].disk[b] == CurrentAt(l, run[k], b)
  {
    hide CacheInv, PinInv, PhaseInv, SpaceInv, CurrentAt, DurableAt, Enabled, Apply;
    RunInv(l, run, steps, j);
    RunRefinesStore(l, run, steps, k);
    DurableBetweenCommits(l, run, steps, k + 1, j);
    RecoveredDiskIsDurable(l, run[j]);
    assert Abstract(l, run[k + 1]).durable == Abstract(l, run[k]).current;
    forall b | l.Home(b) ensures run[j].disk[b] == CurrentAt(l, run[k], b) {
      assert Abstract(l, run[k]).current[b] == CurrentAt(l, run[k], b);
    }
  }

  /** With no commit at all, recovery restores what the first disk meant. */
  lemma RecoveryRestoresInitial(l: Layout, run: seq<Sys>, steps: seq<Step>, j: nat)
    requires FittingRun(l, run, steps) && j < |run| && Recovered(run[j])
    requires forall i | 0 <= i < j :: !steps[i].CommitHead?
    ensures DiskInv(l, run[0]) && |run[j].disk| == l.size
    ensures forall b | l.Home(b) :: run[j].disk[b] == DurableAt(l, run[0].disk, b)
  {
    hide CacheInv, PinInv, PhaseInv, SpaceInv, CurrentAt, DurableAt, Enabled, Apply;
    DurableBetweenCommits(l, run, steps, 0, j);
    RunInv(l, run, steps, j);
    RecoveredDiskIsDurable(l, run[j]);
    forall b | l.Home(b) ensures run[j].disk[b] == DurableAt(l, run[0].disk, b) {
      assert Abstract(l, run[0]).durable[b] == DurableAt(l, run[0].disk, b);
    }
  }
}
