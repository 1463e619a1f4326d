/** Exactly when the log keeps its promises, in every run within the NBUF buffers of the cache: every
    step a step of the two-copy store, crash atomicity, reads that find the last write, and home
    blocks that wait for the commit.

    The log may overrun its area whenever that has 2 to LOGSIZE blocks. With fewer than LOGSIZE the
    overrun destroys committed data. With LOGSIZE blocks, as mkfs makes them, it cannot: the commit
    stops in the panic of `bget` before it writes a block, and a crash follows. */
module WriteAheadLogExact {
  import opened Basics
  import opened WriteAheadLog
  import opened WriteAheadLogCorrect
  import opened WriteAheadLogRuns
  import opened WriteAheadLogRace
  import opened WriteAheadLogOverrun

  /** The log area has room for nothing, or for all that the operations can log but one block. */
  predicate Ample(l: Layout) { l.nlog == 1 || l.nlog >= LOGSIZE }

  lemma {:induction false} AmpleInv(l: Layout, run: seq<Sys>, steps: seq<Step>, i: nat)
    requires IsRun(l, run, steps) && Bounded(run) && l.nlog >= LOGSIZE && i < |run|
    ensures Inv(l, run[i])
  {
    hide Inv, Enabled, Apply, Init;
    if i == 0 {
      InitInv(l, run[0]);
    } else {
      AmpleInv(l, run, steps, i - 1);
      assert |run[i].cache| <= NBUF && run[i] == Apply(l, run[i - 1], steps[i - 1]);
      BoundedStepRefines(l, run[i - 1], steps[i - 1]);
    }
  }

  lemma AmpleFits(l: Layout, run: seq<Sys>, steps: seq<Step>)
    requires IsRun(l, run, steps) && Bounded(run) && Ample(l)
    ensures FittingRun(l, run, steps)
  {
    hide CacheInv, PinInv, PhaseInv, SpaceInv, Enabled, Apply, Init;
    forall i | 0 <= i < |run| ensures Fits(l, run[i]) {
      if l.nlog == 1 {
        OneBlockLogsNothing(l, run, steps, i);
      } else {
        AmpleInv(l, run, steps, i);
      }
    }
  }

  // ---------- refinement ----------

  /** Every step is a step of the store with a durable and a current copy. */
  ghost predicate RefinesStore(l: Layout, run: seq<Sys>, steps: seq<Step>)
    requires |run| == |steps| + 1
  {
    forall i | 0 <= i < |steps| :: IsStoreStep(l, run[i], steps[i], run[i + 1])
  }

  ghost predicate IsStoreStep(l: Layout, s: Sys, st: Step, s': Sys) {
    DiskOk(l, s) && DiskOk(l, s') && Abstract(l, s') == SpecStep(Abstract(l, s), st)
  }

  lemma FittingRefines(l: Layout, run: seq<Sys>, steps: seq<Step>)
    requires FittingRun(l, run, steps)
    ensures RefinesStore(l, run, steps)
  {
    hide CacheInv, PinInv, PhaseInv, SpaceInv, Enabled, Apply, Init, Abstract, SpecStep, HomesOnly, Fits;
    forall i | 0 <= i < |steps| ensures IsStoreStep(l, run[i], steps[i], run[i + 1]) {
      RunRefinesStore(l, run, steps, i);
    }
  }

  lemma {:induction false} StoreKeepsDurable(l: Layout, run: seq<Sys>, steps: seq<Step>, i: nat, j: nat)
    requires |run| == |steps| + 1 && RefinesStore(l, run, steps) && i <= j < |run| && Quiet(steps, i, j)
    requires DiskOk(l, run[i])
    ensures DiskOk(l, run[j]) && Abstract(l, run[j]).durable == Abstract(l, run[i]).durable
    decreases j
  {
    hide DiskOk, Abstract;
    if i < j {
      StoreKeepsDurable(l, run, steps, i, j - 1);
      assert IsStoreStep(l, run[j - 1], steps[j - 1], run[j]);
    }
  }

  lemma EmptyHeadDurable(l: Layout, s: Sys, b: int)
    requires l.Valid() && |s.disk| == l.size && s.disk[l.start] == ZeroBlock() && l.Home(b)
    ensures DiskOk(l, s) && b in Abstract(l, s).durable && Abstract(l, s).durable[b] == s.disk[b]
  {
    ZeroHead();
  }

  /** Cache, log and disk together are the two-copy store in every run, if and only if the log area has
      one block, or LOGSIZE blocks or more. */
  lemma RefinesStoreIff(l: Layout)
    requires l.Valid() && (l.nlog < LOGSIZE ==> l.start + 2 * l.nlog <= l.size)
    ensures (forall run: seq<Sys>, steps: seq<Step> | IsRun(l, run, steps) && Bounded(run) ::
               RefinesStore(l, run, steps))
            <==> Ample(l)
  {
    hide Enabled, Apply, Init, RefinesStore, Bounded;
    if Ample(l) {
      forall run: seq<Sys>, steps: seq<Step> | IsRun(l, run, steps) && Bounded(run)
        ensures RefinesStore(l, run, steps)
      {
        AmpleFits(l, run, steps);
        FittingRefines(l, run, steps);
      }
    } else {
      var run, steps, i, k := OverrunLosesCommit(l);
      if RefinesStore(l, run, steps) {
        var b := Target(l, 0);
        EmptyHeadDurable(l, run[i], b);
        EmptyHeadDurable(l, run[k], b);
        StoreKeepsDurable(l, run, steps, i, k);
        assert false;
      }
    }
  }

  // ---------- crash atomicity ----------

  /** Disk s' holds in every home block what readers of s see. */
  ghost predicate Restores(l: Layout, s: Sys, s': Sys) {
    |s.disk| == |s'.disk| == l.size && forall b | l.Home(b) :: s'.disk[b] == s.Val(b)
  }

  /** Disk s' holds in every home block what recovery from the given disk restores. */
  ghost predicate RestoresDisk(l: Layout, disk: seq<Block>, s': Sys) {
    && l.Valid() && |disk| == |s'.disk| == l.size && |HeadOf(disk[l.start])| < l.nlog
    && forall b | l.Home(b) :: s'.disk[b] == DurableAt(l, disk, b)
  }

  /** Every finished recovery restores the last commit, or the first disk. */
  ghost predicate CrashAtomic(l: Layout, run: seq<Sys>, steps: seq<Step>)
    requires |run| == |steps| + 1
  {
    && (forall k, j | 0 <= k < j < |run| && steps[k].CommitHead? && Recovered(run[j]) && Quiet(steps, k + 1, j) ::
          Restores(l, run[k], run[j]))
    && (forall j | 0 <= j < |run| && Recovered(run[j]) && Quiet(steps, 0, j) :: RestoresDisk(l, run[0].disk, run[j]))
  }

  lemma FittingIsAtomic(l: Layout, run: seq<Sys>, steps: seq<Step>)
    requires FittingRun(l, run, steps)
    ensures CrashAtomic(l, run, steps)
  {
    hide Inv, Enabled, Apply, Init, DurableAt;
    forall k, j | 0 <= k < j < |run| && steps[k].CommitHead? && Recovered(run[j]) && Quiet(steps, k + 1, j)
      ensures Restores(l, run[k], run[j])
    {
      RecoveryRestoresLastCommit(l, run, steps, k, j);
      RunInv(l, run, steps, k);
      CommitterSees(l, run[k], steps[k]);
    }
    forall j | 0 <= j < |run| && Recovered(run[j]) && Quiet(steps, 0, j) ensures RestoresDisk(l, run[0].disk, run[j]) {
      RecoveryRestoresInitial(l, run, steps, j);
    }
  }

  lemma CommitterSees(l: Layout, s: Sys, st: Step)
    requires Inv(l, s) && Enabled(l, s, st) && st.CommitHead?
    ensures |s.disk| == l.size && forall b | l.Home(b) :: CurrentAt(l, s, b) == s.Val(b)
  {
    hide CacheInv, PinInv;
  }

  lemma NotAtomic(l: Layout, run: seq<Sys>, steps: seq<Step>, k: nat)
    requires |run| == |steps| + 1 && k < |steps| && steps[k].CommitHead? && Quiet(steps, k + 1, |steps|)
    requires Recovered(run[|steps|]) && |run[k].disk| == |run[|steps|].disk| == l.size && l.Home(Last(l))
    requires run[k].Val(Last(l)) == OneBlock() && run[|steps|].disk[Last(l)] == ZeroBlock()
    ensures !CrashAtomic(l, run, steps)
  {
    hide OneBlock, ZeroBlock;
    assert !Restores(l, run[k], run[|steps|]);
  }

  /** However often the machine crashed, a finished recovery leaves in every home block what readers saw
      at the last header write that committed: in every run, under the same condition. */
  lemma CrashAtomicIff(l: Layout)
    requires l.Valid() && (l.nlog < LOGSIZE ==> l.start + 2 * l.nlog <= l.size)
    ensures (forall run: seq<Sys>, steps: seq<Step> | IsRun(l, run, steps) && Bounded(run) ::
               CrashAtomic(l, run, steps))
            <==> Ample(l)
  {
    hide Enabled, Apply, Init, CrashAtomic, Bounded;
    if Ample(l) {
      forall run: seq<Sys>, steps: seq<Step> | IsRun(l, run, steps) && Bounded(run) ensures CrashAtomic(l, run, steps) {
        AmpleFits(l, run, steps);
        FittingIsAtomic(l, run, steps);
      }
    } else {
      var run, steps, i, k := OverrunLosesCommit(l);
      NotAtomic(l, run, steps, k);
    }
  }

  // ---------- reads ----------

  /** Every read finds the last value written to the block since the last crash; after a crash and until
      it is written again, what readers saw at the last commit. */
  ghost predicate ReadsRight(l: Layout, run: seq<Sys>, steps: seq<Step>)
    requires |run| == |steps| + 1
  {
    && (forall i, j | 0 <= i < j < |steps| && WritesThenReads(steps, i, j) ::
          Reads(run[j + 1], steps[i].b, steps[i].data))
    && (forall k, c, j | 0 <= k < c < j < |steps| && CommitsThenReads(l, steps, k, c, j) ::
          0 <= steps[j].b < |run[k].disk| && Reads(run[j + 1], steps[j].b, run[k].Val(steps[j].b)))
  }

  ghost predicate Reads(s: Sys, b: int, data: Block) { b in s.cache && s.cache[b].data == data }

  predicate WritesThenReads(steps: seq<Step>, i: int, j: int)
    requires 0 <= i < j < |steps|
  {
    steps[i].Modify? && steps[j].Bread? && steps[j].b == steps[i].b && Spared(steps, i + 1, j, steps[i].b)
  }

  predicate CommitsThenReads(l: Layout, steps: seq<Step>, k: int, c: int, j: int)
    requires 0 <= k < c < j < |steps|
  {
    && steps[k].CommitHead? && steps[c].Crash? && steps[j].Bread? && l.Home(steps[j].b)
    && Quiet(steps, k + 1, j) && Spared(steps, c + 1, j, steps[j].b)
  }

  lemma FittingReadsRight(l: Layout, run: seq<Sys>, steps: seq<Step>)
    requires FittingRun(l, run, steps)
    ensures ReadsRight(l, run, steps)
  {
    hide Enabled, Apply, Init, Inv;
    forall i, j | 0 <= i < j < |steps| && WritesThenReads(steps, i, j)
      ensures Reads(run[j + 1], steps[i].b, steps[i].data)
    {
      ReadsLastWrite(l, run, steps, i, j);
    }
    forall k, c, j | 0 <= k < c < j < |steps| && CommitsThenReads(l, steps, k, c, j)
      ensures 0 <= steps[j].b < |run[k].disk| && Reads(run[j + 1], steps[j].b, run[k].Val(steps[j].b))
    {
      ReadsCommittedAfterCrash(l, run, steps, k, c, j);
      RunInv(l, run, steps, k);
      CommitterSees(l, run[k], steps[k]);
    }
  }

  /** Reads find the last value written, or committed before the last crash: in every run, under the same
      condition. */
  lemma ReadsRightIff(l: Layout)
    requires l.Valid() && (l.nlog < LOGSIZE ==> l.start + 2 * l.nlog <= l.size)
    ensures (forall run: seq<Sys>, steps: seq<Step> | IsRun(l, run, steps) && Bounded(run) :: ReadsRight(l, run, steps))
            <==> Ample(l)
  {
    hide Enabled, Apply, Init, ReadsRight, Bounded;
    if Ample(l) {
      forall run: seq<Sys>, steps: seq<Step> | IsRun(l, run, steps) && Bounded(run) ensures ReadsRight(l, run, steps) {
        AmpleFits(l, run, steps);
        FittingReadsRight(l, run, steps);
      }
    } else {
      var run, steps, i := OverrunLosesWrite(l);
      NotRight(l, run, steps, i);
    }
  }

  lemma NotRight(l: Layout, run: seq<Sys>, steps: seq<Step>, i: nat)
    requires |run| == |steps| + 1 && i < |steps| - 1 && WritesThenReads(steps, i, |steps| - 1)
    requires !Reads(run[|steps|], steps[i].b, steps[i].data)
    ensures !ReadsRight(l, run, steps)
  {
    assert run[(|steps| - 1) + 1] == run[|steps|];
  }

  // ---------- home blocks ----------

  ghost predicate SameHomes(l: Layout, s: Sys, s': Sys) {
    |s.disk| == |s'.disk| == l.size && forall b | l.Home(b) :: s'.disk[b] == s.disk[b]
  }

  /** Home blocks wait for the header write that commits. */
  ghost predicate HomesWait(l: Layout, run: seq<Sys>, steps: seq<Step>)
    requires |run| == |steps| + 1
  {
    forall i, j | 0 <= i <= j < |run| && run[i].phase.Running? && Quiet(steps, i, j) :: SameHomes(l, run[i], run[j])
  }

  lemma FittingHomesWait(l: Layout, run: seq<Sys>, steps: seq<Step>)
    requires FittingRun(l, run, steps)
    ensures HomesWait(l, run, steps)
  {
    hide Enabled, Apply, Init, Inv;
    forall i, j | 0 <= i <= j < |run| && run[i].phase.Running? && Quiet(steps, i, j)
      ensures SameHomes(l, run[i], run[j])
    {
      RunInv(l, run, steps, i);
      RunInv(l, run, steps, j);
      InvSize(l, run[i]);
      InvSize(l, run[j]);
      forall b | l.Home(b) ensures run[j].disk[b] == run[i].disk[b] { HomeWaitsForCommit(l, run, steps, i, j, b); }
    }
  }

  lemma InvSize(l: Layout, s: Sys)
    requires Inv(l, s)
    ensures |s.disk| == l.size
  {
  }

  /** From a moment with no commit in progress, every home block on disk keeps its value until the next
      header write that commits: in every run, under the same condition. */
  lemma HomesWaitIff(l: Layout)
    requires l.Valid() && (l.nlog < LOGSIZE ==> l.start + 2 * l.nlog <= l.size)
    ensures (forall run: seq<Sys>, steps: seq<Step> | IsRun(l, run, steps) && Bounded(run) :: HomesWait(l, run, steps))
            <==> Ample(l)
  {
    hide Enabled, Apply, Init, Bounded;
    if Ample(l) {
      forall run: seq<Sys>, steps: seq<Step> | IsRun(l, run, steps) && Bounded(run) ensures HomesWait(l, run, steps) {
        AmpleFits(l, run, steps);
        FittingHomesWait(l, run, steps);
      }
    } else {
      var run, steps, i, k := OverrunLosesCommit(l);
      assert !SameHomes(l, run[i], run[k]);
      assert !HomesWait(l, run, steps);
    }
  }
}
