/** What every run of the write-ahead log keeps: space in the log, the meaning of the
    disk under recovery, and agreement with a store that commits atomically. */
module WriteAheadLogCorrect {
  import opened Basics
  import opened WriteAheadLog

  // ---------- log space ----------

  lemma InOpIsActive(s: Sys, p: nat)
    requires SpaceInv(s) && s.InOp(p)
    ensures s.outstanding >= 1 && s.booted && s.phase.Running? && !s.committing
  {
    NoOps(s.ops);
  }

  lemma StoreKeepsSpace(l: Layout, s: Sys, p: nat, b: int)
    requires SpaceInv(s) && Enabled(l, s, LogStore(p, b))
    ensures SpaceInv(DoLogStore(s, p, b))
    ensures b !in s.lh ==> |s.lh| < LOGSIZE
  {
    var s' := DoLogStore(s, p, b);
    InOpIsActive(s, p);
    OpsUpdate(s.ops, p, s'.ops[p]);
    assert forall q | 0 <= q < |s'.ops| :: s'.ops[q].Some? ==> |s'.ops[q].value.used| <= MAXOPBLOCKS;
    ReservedNonNegative(s'.ops);
  }

  lemma OpStepsKeepSpace(l: Layout, s: Sys, st: Step)
    requires SpaceInv(s) && Enabled(l, s, st) && (st.BeginOp? || st.EndOp? || st.LogGuard?)
    ensures SpaceInv(Apply(l, s, st))
  {
    var s' := Apply(l, s, st);
    OpsUpdate(s.ops, st.p, s'.ops[st.p]);
    ReservedBound(s.ops);
    if !st.BeginOp? { InOpIsActive(s, st.p); }
  }

  lemma SpaceStep(l: Layout, s: Sys, st: Step)
    requires SpaceInv(s) && Enabled(l, s, st)
    ensures SpaceInv(Apply(l, s, st))
  {
    if st.LogStore? {
      StoreKeepsSpace(l, s, st.p, st.b);
    } else if st.BeginOp? || st.EndOp? || st.LogGuard? {
      OpStepsKeepSpace(l, s, st);
    } else {
      NoOps(Apply(l, s, st).ops);
    }
  }

  lemma {:induction false} ReservedBound(ops: seq<Option<Op>>)
    ensures Reserved(ops) <= Active(ops) * MAXOPBLOCKS
  {
    if ops != [] { ReservedBound(ops[..|ops| - 1]); }
  }

  // ---------- what the disk means ----------

  ghost predicate Distinct(lh: seq<int>) {
    forall i, j | 0 <= i < j < |lh| :: lh[i] != lh[j]
  }

  ghost predicate HomesOnly(l: Layout, lh: seq<int>) {
    Distinct(lh) && forall i | 0 <= i < |lh| :: l.Home(lh[i])
  }

  /** A list of home blocks whose logged copies fit in the log. */
  ghost predicate Loggable(l: Layout, lh: seq<int>) { |lh| < l.nlog && HomesOnly(l, lh) }

  ghost function Find(lh: seq<int>, b: int): (i: nat)
    ensures i <= |lh|
    ensures b in lh <==> i < |lh|
    ensures i < |lh| ==> lh[i] == b
  {
    if b in lh then var i :| 0 <= i < |lh| && lh[i] == b; i else |lh|
  }

  /** The contents of home block b once recovery has replayed the log found on disk. */
  ghost function DurableAt(l: Layout, disk: seq<Block>, b: int): Block
    requires |disk| == l.size && l.Valid() && l.Home(b) && |HeadOf(disk[l.start])| < l.nlog
  {
    var h := HeadOf(disk[l.start]);
    var i := Find(h, b);
    if i < |h| then disk[l.Slot(i)] else disk[b]
  }

  /** What a crash at this moment, followed by recovery, would leave in the home blocks. */
  ghost function DurableOf(l: Layout, disk: seq<Block>): map<int, Block>
    requires |disk| == l.size && l.Valid() && |HeadOf(disk[l.start])| < l.nlog
  {
    map b | 0 <= b < l.size && l.Home(b) :: DurableAt(l, disk, b)
  }

  // ---------- the invariant ----------

  /** The blocks logged so far have log blocks inside the log. */
  predicate Inside(l: Layout, s: Sys) { |s.lh| < l.nlog }

  /** The header is full, one block more than the log has room for, and nothing is copied yet. With as
      many buffers as the header lists, a commit cannot get a buffer for its first log block. */
  predicate Full(l: Layout, s: Sys) {
    |s.lh| == l.nlog == LOGSIZE && (s.phase.Running? || s.phase == Copying(0))
  }

  predicate Fits(l: Layout, s: Sys) { Inside(l, s) || Full(l, s) }

  /** Recovery can make sense of the disk. */
  ghost predicate DiskOk(l: Layout, s: Sys) {
    l.Valid() && |s.disk| == l.size && Loggable(l, HeadOf(s.disk[l.start]))
  }

  ghost predicate DiskInv(l: Layout, s: Sys) { DiskOk(l, s) && HomesOnly(l, s.lh) && Fits(l, s) }

  /** Only logged or just modified buffers may differ from the disk. */
  ghost predicate CacheInv(l: Layout, s: Sys)
    requires |s.disk| == l.size
  {
    forall b | b in s.cache ::
      && 0 <= b < l.size
      && (s.cache[b].dirty || s.cache[b].modified ==> l.Home(b))
      && (!s.cache[b].dirty && !s.cache[b].modified ==> s.cache[b].data == s.disk[b])
      && (s.cache[b].modified ==> s.cache[b].holder.Some? && s.InOp(s.cache[b].holder.value))
  }

  /** The first log entry whose home block still waits for its committed data. */
  function Pinned(s: Sys): nat {
    if s.phase.Installing? then (if s.booted then s.phase.tail else |s.lh|) else 0
  }

  /** The cache holds, dirty, exactly the logged blocks that are not yet home. */
  ghost predicate PinInv(s: Sys) {
    && Pinned(s) <= |s.lh|
    && (forall i | Pinned(s) <= i < |s.lh| :: s.lh[i] in s.cache && s.cache[s.lh[i]].dirty)
    && (forall b | b in s.cache && s.cache[b].dirty :: exists i | Pinned(s) <= i < |s.lh| :: s.lh[i] == b)
  }

  /** The first t log blocks hold what a reader of the logged blocks would see. */
  ghost predicate Copied(l: Layout, s: Sys, t: nat)
    requires DiskInv(l, s) && t <= |s.lh| && t < l.nlog
  {
    forall i | 0 <= i < t :: s.disk[l.Slot(i)] == s.Val(s.lh[i])
  }

  /** The first t blocks listed in h hold their logged data at home. */
  ghost predicate Installed(l: Layout, disk: seq<Block>, h: seq<int>, t: nat)
    requires l.Valid() && |disk| == l.size && Loggable(l, h) && t <= |h|
  {
    forall i | 0 <= i < t :: disk[h[i]] == disk[l.Slot(i)]
  }

  ghost predicate PhaseInv(l: Layout, s: Sys)
    requires DiskInv(l, s)
  {
    var h := HeadOf(s.disk[l.start]);
    && (s.phase.Running? ==> h == [] && s.booted)
    && (s.phase.Copying? ==>
          h == [] && s.booted && s.phase.tail <= |s.lh| && s.phase.tail < l.nlog && Copied(l, s, s.phase.tail))
    && (s.phase.Installing? ==> h == s.lh && s.phase.tail <= |h| && Installed(l, s.disk, h, s.phase.tail))
    && (s.phase.Installing? && s.booted ==> Copied(l, s, |s.lh|))
    && (s.phase.Clearing? ==> s.lh == [] && Installed(l, s.disk, h, |h|))
    && (s.phase.Done? ==> h == [] && s.lh == [])
    && (s.phase.Booting? ==> s.lh == [] && s.cache == map[] && !s.booted)
  }

  ghost predicate Inv(l: Layout, s: Sys) {
    SpaceInv(s) && DiskInv(l, s) && CacheInv(l, s) && PinInv(s) && PhaseInv(l, s)
  }

  /** What a reader of block b sees; while booting, what recovery is about to restore. */
  ghost function CurrentAt(l: Layout, s: Sys, b: int): Block
    requires DiskOk(l, s) && l.Home(b)
  {
    if s.booted then s.Val(b) else DurableAt(l, s.disk, b)
  }

  // ---------- the specification ----------

  /** A store with a volatile and a durable copy of every home block. */
  datatype Store = Store(durable: map<int, Block>, current: map<int, Block>)

  ghost function Abstract(l: Layout, s: Sys): Store
    requires DiskOk(l, s)
  {
    Store(DurableOf(l, s.disk),
          map b | 0 <= b < l.size && l.Home(b) :: CurrentAt(l, s, b))
  }

  /** The only steps of the store: write one block, commit everything, lose what is not committed. */
  ghost function SpecStep(a: Store, st: Step): Store {
    match st
    case Modify(_, b, data) => a.(current := a.current[b := data])
    case CommitHead => Store(a.current, a.current)
    case Crash => Store(a.durable, a.durable)
    case _ => a
  }

  // ---------- every step keeps the invariant and follows the specification ----------

  /** The part of the invariant that concerns blocks rather than operations. */
  ghost predicate Core(l: Layout, s: Sys) {
    DiskInv(l, s) && CacheInv(l, s) && PinInv(s) && PhaseInv(l, s)
  }

  /** No step but a modification, a commit or a crash changes what the disk or a reader means. */
  ghost predicate SameMeaning(l: Layout, s: Sys, s': Sys)
    requires DiskInv(l, s) && DiskInv(l, s')
  {
    forall b | l.Home(b) ::
      DurableAt(l, s'.disk, b) == DurableAt(l, s.disk, b) && CurrentAt(l, s', b) == CurrentAt(l, s, b)
  }

  /** A change of the cache that keeps every block's value and every dirty flag. */
  ghost predicate SameValues(l: Layout, s: Sys, s': Sys)
    requires |s.disk| == l.size
  {
    && s'.disk == s.disk && s'.lh == s.lh && s'.phase == s.phase && s'.booted == s.booted
    && (forall b | 0 <= b < l.size :: s'.Val(b) == s.Val(b))
    && (forall b :: b in s'.cache && s'.cache[b].dirty <==> b in s.cache && s.cache[b].dirty)
    && (s.phase.Booting? ==> s'.cache == map[])
  }

  lemma FrameCore(l: Layout, s: Sys, s': Sys)
    requires Core(l, s) && SameValues(l, s, s') && CacheInv(l, s')
    ensures Core(l, s') && SameMeaning(l, s, s')
  {
    assert PinInv(s') by {
      forall b | b in s'.cache && s'.cache[b].dirty
        ensures exists i | Pinned(s') <= i < |s'.lh| :: s'.lh[i] == b
      {
        assert b in s.cache && s.cache[b].dirty;
      }
    }
  }

  lemma LoadCore(l: Layout, s: Sys, b: int)
    requires Core(l, s) && 0 <= b < l.size && !s.phase.Booting?
    ensures var s' := s.Load(b); Core(l, s') && SameMeaning(l, s, s') && SameValues(l, s, s')
  {
    FrameCore(l, s, s.Load(b));
  }

  /** Steps by processes on one buffer, and evictions. */
  lemma BufferCore(l: Layout, s: Sys, st: Step)
    requires Core(l, s) && Enabled(l, s, st) && (st.Bread? || st.Brelse? || st.Evict?)
    requires !s.phase.Booting?
    ensures var s' := Apply(l, s, st); Core(l, s') && SameMeaning(l, s, s')
  {
    hide PinInv, PhaseInv, SameMeaning;
    FrameCore(l, s, Apply(l, s, st));
  }

  /** A loaded block is written to its log block. */
  lemma CopyCore(l: Layout, s: Sys, t: nat)
    requires Core(l, s) && s.phase == Copying(t) && t < |s.lh| && Inside(l, s)
    requires s.lh[t] in s.cache
    ensures var s' := s.Bwrite(l.Slot(t), s.cache[s.lh[t]].data).(phase := Copying(t + 1));
            Core(l, s') && SameMeaning(l, s, s')
  {
    hide HeadOf;
  }

  /** Writing a logged block home does not change what recovery would restore. */
  lemma InstallDisk(l: Layout, disk: seq<Block>, t: nat)
    requires l.Valid() && |disk| == l.size && Loggable(l, HeadOf(disk[l.start]))
    requires t < |HeadOf(disk[l.start])| && Installed(l, disk, HeadOf(disk[l.start]), t)
    ensures var h := HeadOf(disk[l.start]); var disk' := disk[h[t] := disk[l.Slot(t)]];
            && HeadOf(disk'[l.start]) == h && Installed(l, disk', h, t + 1)
            && forall b | l.Home(b) :: DurableAt(l, disk', b) == DurableAt(l, disk, b)
  {
  }

  lemma InstallCache(l: Layout, s: Sys, t: nat)
    requires Core(l, s) && s.phase == Installing(t) && t < |s.lh|
    requires l.Slot(t) in s.cache
    ensures var s' := s.Bwrite(s.lh[t], s.cache[l.Slot(t)].data).(phase := Installing(t + 1));
            && |s'.disk| == l.size && CacheInv(l, s') && PinInv(s')
            && (s.booted ==> forall b | l.Home(b) :: s'.Val(b) == s.Val(b))
            && s.cache[l.Slot(t)].data == s.disk[l.Slot(t)]
  {
    hide HeadOf, DurableAt;
  }

  lemma InstallCore(l: Layout, s: Sys, t: nat)
    requires Core(l, s) && s.phase == Installing(t) && t < |s.lh|
    requires l.Slot(t) in s.cache
    ensures var s' := s.Bwrite(s.lh[t], s.cache[l.Slot(t)].data).(phase := Installing(t + 1));
            Core(l, s') && SameMeaning(l, s, s')
  {
    InstallDisk(l, s.disk, t);
    InstallCache(l, s, t);
    var s' := s.Bwrite(s.lh[t], s.cache[l.Slot(t)].data).(phase := Installing(t + 1));
    assert forall i | 0 <= i < |s.lh| :: s'.disk[l.Slot(i)] == s.disk[l.Slot(i)];
  }

  /** The header write that commits: the durable contents become the current ones. */
  lemma CommitHeadCore(l: Layout, s: Sys)
    requires Core(l, s) && s.phase == Copying(|s.lh|) && 0 < |s.lh| <= LOGSIZE
    requires forall b | b in s.cache :: !s.cache[b].modified
    ensures var s' := s.Bwrite(l.start, SetHead(s.Val(l.start), s.lh)).(phase := Installing(0));
            && Core(l, s')
            && forall b | l.Home(b) ::
                 DurableAt(l, s'.disk, b) == CurrentAt(l, s, b) == CurrentAt(l, s', b)
  {
    hide SetHead, HeadOf;
    HeadRoundTrip(s.Val(l.start), s.lh);
  }

  lemma ClearHeadCore(l: Layout, s: Sys)
    requires Core(l, s) && s.phase == Clearing
    ensures var s' := s.Bwrite(l.start, SetHead(s.Val(l.start), [])).(phase := Done);
            Core(l, s') && SameMeaning(l, s, s')
  {
    hide SetHead, HeadOf;
    HeadRoundTrip(s.Val(l.start), []);
  }

  lemma ModifyCore(l: Layout, s: Sys, p: nat, b: int, data: Block)
    requires Core(l, s) && s.phase.Running? && s.InOp(p) && s.Holds(p, b) && l.Home(b)
    ensures var s' := s.(cache := s.cache[b := s.cache[b].(data := data, modified := true)]);
            && Core(l, s')
            && forall x | l.Home(x) ::
                 && DurableAt(l, s'.disk, x) == DurableAt(l, s.disk, x)
                 && CurrentAt(l, s', x) == if x == b then data else CurrentAt(l, s, x)
  {
  }

  lemma LogStoreCore(l: Layout, s: Sys, p: nat, b: int)
    requires Core(l, s) && s.phase.Running? && s.InOp(p) && s.Holds(p, b) && l.Home(b)
    requires Fits(l, DoLogStore(s, p, b))
    ensures var s' := DoLogStore(s, p, b); Core(l, s') && SameMeaning(l, s, s')
  {
    var s' := DoLogStore(s, p, b);
    assert forall x | 0 <= x < l.size :: s'.Val(x) == s.Val(x);
    assert PinInv(s') by {
      forall x | x in s'.cache && s'.cache[x].dirty
        ensures exists i | 0 <= i < |s'.lh| :: s'.lh[i] == x
      {
        assert x in s'.lh;
      }
    }
  }

  /** Only the operations' own records change. */
  lemma OpsCore(l: Layout, s: Sys, s': Sys)
    requires Core(l, s)
    requires s' == s.(ops := s'.ops, outstanding := s'.outstanding)
    requires forall b | b in s.cache :: s.cache[b].modified ==>
               s.cache[b].holder.Some? && s'.InOp(s.cache[b].holder.value)
    ensures Core(l, s') && SameMeaning(l, s, s')
  {
  }

  lemma StartCommitCore(l: Layout, s: Sys)
    requires Core(l, s) && s.phase.Running?
    ensures var s' := s.(committing := true, phase := Copying(0)); Core(l, s') && SameMeaning(l, s, s')
  {
  }

  lemma ForgetLogCore(l: Layout, s: Sys)
    requires Core(l, s) && s.phase == Installing(|s.lh|)
    ensures var s' := s.(lh := [], phase := Clearing); Core(l, s') && SameMeaning(l, s, s')
  {
  }

  lemma EndCommitCore(l: Layout, s: Sys)
    requires Core(l, s) && (s.phase.Done? || (s.phase.Copying? && s.lh == []))
    requires forall b | b in s.cache :: !s.cache[b].modified
    ensures var s' := s.(committing := false, phase := Running, booted := true);
            && Core(l, s') && SameMeaning(l, s, s')
            && forall b | b in s'.cache :: !s'.cache[b].dirty
  {
  }

  lemma CrashCore(l: Layout, s: Sys)
    requires Core(l, s)
    ensures var s' := DoCrash(s);
            && Core(l, s')
            && forall b | l.Home(b) ::
                 DurableAt(l, s'.disk, b) == DurableAt(l, s.disk, b) == CurrentAt(l, s', b)
  {
  }

  lemma ReadHeadCore(l: Layout, s: Sys)
    requires Core(l, s) && s.phase.Booting?
    ensures var s' := s.Load(l.start).(lh := HeadOf(s.Val(l.start)), phase := Installing(0));
            Core(l, s') && SameMeaning(l, s, s')
  {
  }

  /** With no operation in progress, no buffer waits to be logged. */
  lemma QuietCache(l: Layout, s: Sys)
    requires SpaceInv(s) && Core(l, s) && !(s.booted && s.phase.Running?)
    ensures forall b | b in s.cache :: !s.cache[b].modified
  {
    NoOps(s.ops);
  }

  lemma SameAbstract(l: Layout, s: Sys, s': Sys)
    requires DiskInv(l, s) && DiskInv(l, s') && SameMeaning(l, s, s')
    ensures Abstract(l, s') == Abstract(l, s)
  {
    hide DurableAt, CurrentAt, Loggable;
  }

  ghost predicate Refines(l: Layout, s: Sys, st: Step, s': Sys)
    requires DiskInv(l, s)
  {
    DiskInv(l, s') && Abstract(l, s') == SpecStep(Abstract(l, s), st)
  }

  lemma CommitAbstract(l: Layout, s: Sys, s': Sys)
    requires DiskInv(l, s) && DiskInv(l, s')
    requires forall b | l.Home(b) :: DurableAt(l, s'.disk, b) == CurrentAt(l, s, b) == CurrentAt(l, s', b)
    ensures Abstract(l, s') == Store(Abstract(l, s).current, Abstract(l, s).current)
  {
    hide DurableAt, CurrentAt, Loggable;
  }

  lemma CrashAbstract(l: Layout, s: Sys, s': Sys)
    requires DiskInv(l, s) && DiskInv(l, s')
    requires forall b | l.Home(b) :: DurableAt(l, s'.disk, b) == DurableAt(l, s.disk, b) == CurrentAt(l, s', b)
    ensures Abstract(l, s') == Store(Abstract(l, s).durable, Abstract(l, s).durable)
  {
    hide DurableAt, CurrentAt, Loggable;
  }

  lemma ModifyRefines(l: Layout, s: Sys, p: nat, b: int, data: Block)
    requires SpaceInv(s) && Core(l, s) && Enabled(l, s, Modify(p, b, data))
    ensures var s' := Apply(l, s, Modify(p, b, data)); Core(l, s') && Refines(l, s, Modify(p, b, data), s')
  {
    InOpIsActive(s, p);
    ModifyCore(l, s, p, b, data);
    hide CacheInv, PinInv, PhaseInv, SpaceInv, DurableAt, CurrentAt;
  }

  lemma CommitHeadRefines(l: Layout, s: Sys)
    requires SpaceInv(s) && Core(l, s) && Enabled(l, s, CommitHead)
    ensures var s' := Apply(l, s, CommitHead); Core(l, s') && Refines(l, s, CommitHead, s')
  {
    QuietCache(l, s);
    CommitHeadCore(l, s);
    hide CacheInv, PinInv, PhaseInv, SpaceInv;
    CommitAbstract(l, s, Apply(l, s, CommitHead));
  }

  lemma CrashRefines(l: Layout, s: Sys)
    requires Core(l, s)
    ensures var s' := DoCrash(s); Core(l, s') && Refines(l, s, Crash, s')
  {
    hide CacheInv, PinInv, PhaseInv, DurableAt, CurrentAt, Loggable, Abstract, DoCrash;
    CrashCore(l, s);
    CrashAbstract(l, s, DoCrash(s));
  }

  lemma OpCore(l: Layout, s: Sys, st: Step)
    requires SpaceInv(s) && Core(l, s) && Enabled(l, s, st) && (st.LogGuard? || st.BeginOp? || st.EndOp?)
    ensures Core(l, Apply(l, s, st)) && SameMeaning(l, s, Apply(l, s, st))
  {
    hide PinInv, PhaseInv;
    if st.EndOp? {
      InOpIsActive(s, st.p);
      var s1 := s.(ops := s.ops[st.p := None], outstanding := s.outstanding - 1);
      OpsCore(l, s, s1);
      if s1.outstanding == 0 { StartCommitCore(l, s1); }
    } else {
      OpsCore(l, s, Apply(l, s, st));
    }
  }

  lemma CopyLogCore(l: Layout, s: Sys)
    requires Core(l, s) && Enabled(l, s, CopyLog) && Inside(l, s)
    ensures Core(l, DoCopyLog(l, s)) && SameMeaning(l, s, DoCopyLog(l, s))
  {
    hide CacheInv, PinInv, PhaseInv, DurableAt, CurrentAt, SameValues;
    var t := s.phase.tail;
    LoadCore(l, s, l.Slot(t));
    LoadCore(l, s.Load(l.Slot(t)), s.lh[t]);
    CopyCore(l, s.Load(l.Slot(t)).Load(s.lh[t]), t);
  }

  lemma InstallLogCore(l: Layout, s: Sys)
    requires Core(l, s) && Enabled(l, s, Install)
    ensures Core(l, DoInstall(l, s)) && SameMeaning(l, s, DoInstall(l, s))
  {
    hide CacheInv, PinInv, PhaseInv, DurableAt, CurrentAt, SameValues, HeadOf;
    var t := s.phase.tail;
    LoadCore(l, s, l.Slot(t));
    LoadCore(l, s.Load(l.Slot(t)), s.lh[t]);
    InstallCore(l, s.Load(l.Slot(t)).Load(s.lh[t]), t);
  }

  /** The steps that leave the meaning of disk and cache alone. */
  lemma SilentStep(l: Layout, s: Sys, st: Step)
    requires SpaceInv(s) && Core(l, s) && Enabled(l, s, st)
    requires !st.Modify? && !st.CommitHead? && !st.Crash? && !st.Bread? && !st.Brelse? && !st.Evict?
    requires st.LogStore? ==> Fits(l, Apply(l, s, st))
    requires st.CopyLog? ==> Inside(l, s)
    ensures Core(l, Apply(l, s, st)) && SameMeaning(l, s, Apply(l, s, st))
  {
    hide CacheInv, PinInv, PhaseInv, SameMeaning;
    if st.LogStore? {
      InOpIsActive(s, st.p);
      LogStoreCore(l, s, st.p, st.b);
    } else if st.CopyLog? {
      CopyLogCore(l, s);
    } else if st.Install? {
      InstallLogCore(l, s);
    } else if st.ForgetLog? {
      ForgetLogCore(l, s);
    } else if st.ClearHead? {
      ClearHeadCore(l, s);
    } else if st.EndCommit? {
      QuietCache(l, s);
      EndCommitCore(l, s);
    } else if st.ReadHead? {
      ReadHeadCore(l, s);
    } else {
      OpCore(l, s, st);
    }
  }

  /** A step that neither takes the log past its area nor copies a log that is past it. */
  lemma FittingStepRefines(l: Layout, s: Sys, st: Step)
    requires Inv(l, s) && Enabled(l, s, st)
    requires st.LogStore? ==> Fits(l, Apply(l, s, st))
    requires st.CopyLog? ==> Inside(l, s)
    ensures Inv(l, Apply(l, s, st)) && Refines(l, s, st, Apply(l, s, st))
  {
    hide CacheInv, PinInv, SpaceInv, SameMeaning, Abstract;
    var s' := Apply(l, s, st);
    SpaceStep(l, s, st);
    assert Core(l, s);
    if st.Modify? {
      ModifyRefines(l, s, st.p, st.b, st.data);
    } else if st.CommitHead? {
      CommitHeadRefines(l, s);
    } else if st.Crash? {
      CrashRefines(l, s);
    } else {
      if st.Bread? || st.Brelse? || st.Evict? {
        BufferCore(l, s, st);
      } else {
        SilentStep(l, s, st);
      }
      SameAbstract(l, s, s');
    }
  }

  /** Every step of every process, of the committer, of recovery and of a crash keeps the invariant if
      and only if the log still fits, and then it refines the store. Only the recording of a block can
      take the log past its area, and only the copying of a full header does the damage. */
  lemma StepRefines(l: Layout, s: Sys, st: Step)
    requires Inv(l, s) && Enabled(l, s, st)
    ensures Inv(l, Apply(l, s, st)) <==> Fits(l, Apply(l, s, st))
    ensures Inv(l, Apply(l, s, st)) ==> Refines(l, s, st, Apply(l, s, st))
    ensures !st.LogStore? && !(st.CopyLog? && Full(l, s)) ==> Inv(l, Apply(l, s, st))
  {
    var s' := Apply(l, s, st);
    if (st.LogStore? && !Fits(l, s')) || (st.CopyLog? && !Inside(l, s)) {
      assert !Fits(l, s');
    } else {
      hide Refines, Apply, Enabled, CacheInv, PinInv, PhaseInv, SpaceInv;
      FittingStepRefines(l, s, st);
    }
  }

  // ---------- within NBUF buffers ----------

  ghost function Listed(lh: seq<int>): set<int> { set b | b in lh }

  lemma {:induction false} ListedSize(lh: seq<int>)
    ensures |Listed(lh)| <= |lh| && (Distinct(lh) ==> |Listed(lh)| == |lh|)
  {
    if lh != [] {
      var n := |lh| - 1;
      ListedSize(lh[..n]);
      assert Listed(lh) == Listed(lh[..n]) + {lh[n]} by {
        assert lh == lh[..n] + [lh[n]];
      }
      assert Distinct(lh) ==> lh[n] !in lh[..n];
    }
  }

  /** A commit of a full header would need a buffer more than there are. */
  lemma FullHasNoBuffer(l: Layout, s: Sys)
    requires Inv(l, s) && Full(l, s) && Enabled(l, s, CopyLog)
    ensures |Apply(l, s, CopyLog).cache| > NBUF
  {
    hide CacheInv, PhaseInv, SpaceInv;
    var s' := Apply(l, s, CopyLog);
    ListedSize(s.lh);
    var all := Listed(s.lh) + {l.Slot(0)};
    assert l.Slot(0) !in s.lh;
    forall b | b in all ensures b in s'.cache.Keys {
      if b in s.lh {
        var i :| 0 <= i < |s.lh| && s.lh[i] == b;
        assert b in s.cache;
      }
    }
    SubsetSize(all, s'.cache.Keys);
  }

  /** With a log area of LOGSIZE blocks or more, every step within NBUF buffers keeps the invariant and
      refines the store. */
  lemma BoundedStepRefines(l: Layout, s: Sys, st: Step)
    requires Inv(l, s) && Enabled(l, s, st) && l.nlog >= LOGSIZE && |Apply(l, s, st).cache| <= NBUF
    ensures Inv(l, Apply(l, s, st)) && Refines(l, s, st, Apply(l, s, st))
  {
    StepRefines(l, s, st);
    if st.LogStore? {
      StoreKeepsSpace(l, s, st.p, st.b);
      InOpIsActive(s, st.p);
      ReservedNonNegative(Apply(l, s, st).ops);
    } else if st.CopyLog? && Full(l, s) {
      FullHasNoBuffer(l, s);
    }
  }
}
