/** Buffers at commit. The cache has NBUF buffers, no more than the log may pin: `bget` panics when
    all of them are pinned or held, and a commit starts with a `bread` of a log block. */
module WriteAheadLogBuffers {
  import opened Basics
  import opened WriteAheadLog
  import opened WriteAheadLogCorrect
  import opened WriteAheadLogRuns
  import opened WriteAheadLogRace
  import O = WriteAheadLogOverrun

  /** What `bget` may recycle. */
  predicate Idle(s: Sys, b: int) { b in s.cache && s.Free(b) && !s.cache[b].dirty && !s.cache[b].modified }

  /** `bget` finds a buffer for block b: the block's own, one never used, or one to recycle. */
  ghost predicate FindsBuffer(s: Sys, b: int) {
    b in s.cache || |s.cache| < NBUF || exists c :: Idle(s, c)
  }

  /** A buffer is modified only by its holder. */
  ghost predicate HeldToModify(s: Sys) { forall b | b in s.cache && s.cache[b].modified :: s.cache[b].holder.Some? }

  // ---------- counting, in one state ----------

  /** The buffers that hold neither a logged block nor a free one. */
  ghost function HeldOnly(s: Sys): set<int> {
    set b | b in s.cache && s.cache[b].holder.Some? && !s.cache[b].dirty
  }

  ghost function Dirty(s: Sys): set<int> { set b | b in s.cache && s.cache[b].dirty }

  /** All buffers are taken exactly when the dirty ones and the ones held make NBUF. */
  lemma FindsBufferIff(s: Sys, b: int)
    requires |s.cache| <= NBUF && HeldToModify(s) && b !in s.cache
    ensures FindsBuffer(s, b) <==> |Dirty(s)| + |HeldOnly(s)| < NBUF
  {
    var busy := Dirty(s) + HeldOnly(s);
    assert |busy| == |Dirty(s)| + |HeldOnly(s)|;
    SubsetSize(busy, s.cache.Keys);
    if FindsBuffer(s, b) {
      if |s.cache| == NBUF {
        var c :| Idle(s, c);
        SubsetSize(busy, s.cache.Keys - {c});
      }
    } else {
      forall c | c in s.cache.Keys ensures c in busy { assert !Idle(s, c); }
      assert busy == s.cache.Keys && |busy| == |s.cache.Keys|;
    }
  }

  /** A commit finds a buffer for its next log block, unless that is cached, exactly when the logged
      blocks and the blocks that other processes hold leave one of the NBUF buffers. */
  lemma CommitFindsBufferIff(l: Layout, s: Sys)
    requires Inv(l, s) && |s.cache| <= NBUF && s.phase.Copying? && s.phase.tail < |s.lh|
    requires l.Slot(s.phase.tail) !in s.cache
    ensures FindsBuffer(s, l.Slot(s.phase.tail)) <==> |s.lh| + |HeldOnly(s)| < NBUF
  {
    FindsBufferIff(s, l.Slot(s.phase.tail));
    ListedSize(s.lh);
    hide CacheInv, PhaseInv, SpaceInv;
    forall b ensures b in Dirty(s) <==> b in Listed(s.lh) {
      if b in s.lh {
        var i :| 0 <= i < |s.lh| && s.lh[i] == b;
      }
    }
    assert Dirty(s) == Listed(s.lh);
  }

  // ---------- how many blocks are ever logged ----------

  function Guards(ops: seq<Option<Op>>): nat {
    if ops == [] then 0 else Guards(ops[..|ops| - 1]) + Guarding(ops[|ops| - 1])
  }

  function Guarding(o: Option<Op>): nat { if o.Some? && o.value.guarded.Some? then 1 else 0 }

  lemma {:induction false} GuardsUpdate(ops: seq<Option<Op>>, p: nat, o: Option<Op>)
    requires p < |ops|
    ensures Guards(ops[p := o]) == Guards(ops) - Guarding(ops[p]) + Guarding(o)
  {
    var n := |ops| - 1;
    if p == n {
      assert ops[p := o][..n] == ops[..n];
    } else {
      assert ops[p := o][..n] == ops[..n][p := o];
      GuardsUpdate(ops[..n], p, o);
    }
  }

  lemma {:induction false} GuardsActive(ops: seq<Option<Op>>)
    ensures Guards(ops) <= Active(ops)
  {
    if ops != [] { GuardsActive(ops[..|ops| - 1]); }
  }

  const CONCURRENT := LOGSIZE / MAXOPBLOCKS

  /** At most CONCURRENT operations run, and each may have passed the unlocked test when the last
      block that it allows was still free. */
  ghost predicate Few(l: Layout, s: Sys) {
    s.outstanding <= CONCURRENT && |s.lh| + Guards(s.ops) <= l.nlog - 2 + CONCURRENT
  }

  /** The header block is written by `write_head` only. */
  ghost predicate HeadKept(l: Layout, s: Sys) {
    && l.Valid() && |s.disk| == l.size && |HeadOf(s.disk[l.start])| <= l.nlog - 2 + CONCURRENT
    && s.Val(l.start) == s.disk[l.start]
    && (forall i | 0 <= i < |s.lh| :: l.Home(s.lh[i]))
    && forall b | b in HeadOf(s.disk[l.start]) :: l.Home(b)
  }

  function Installs(s: Sys): nat { if s.phase.Installing? then s.phase.tail else 0 }

  /** Only logged blocks that are not yet installed are dirty. */
  ghost predicate DirtyListed(s: Sys) {
    && Installs(s) <= |s.lh| && (s.phase.Booting? ==> s.lh == [])
    && forall b | IsDirty(s, b) :: b in s.lh[Installs(s)..]
  }

  lemma FewStep(l: Layout, s: Sys, st: Step)
    requires SpaceInv(s) && Few(l, s) && HeadKept(l, s) && Enabled(l, s, st)
    ensures Few(l, Apply(l, s, st))
  {
    var s' := Apply(l, s, st);
    GuardsActive(s.ops);
    if st.LogGuard? || st.LogStore? || st.BeginOp? || st.EndOp? {
      GuardsUpdate(s.ops, st.p, s'.ops[st.p]);
      if st.LogGuard? {
        OpStepsKeepSpace(l, s, st);
        GuardsActive(s'.ops);
      }
    } else if st.Crash? || st.ReadHead? {
      NoOps(s'.ops);
      GuardsActive(s'.ops);
    }
  }

  lemma HeadStep(l: Layout, s: Sys, st: Step)
    requires HeadKept(l, s) && Few(l, s) && Enabled(l, s, st)
    ensures HeadKept(l, Apply(l, s, st))
  {
    if st.CommitHead? || st.ClearHead? {
      HeadWritten(l, s, st);
    } else if st.CopyLog? || st.Install? {
      hide SetHead, HeadOf, Apply;
      if st.CopyLog? { O.CopyWrites(l, s); } else { O.InstallWrites(l, s); }
    } else {
      HeadLeft(l, s, st);
    }
  }

  lemma HeadWritten(l: Layout, s: Sys, st: Step)
    requires HeadKept(l, s) && Few(l, s) && Enabled(l, s, st) && (st.CommitHead? || st.ClearHead?)
    ensures HeadKept(l, Apply(l, s, st))
  {
    hide SetHead, HeadOf;
    HeadRoundTrip(s.Val(l.start), if st.CommitHead? then s.lh else []);
  }

  lemma HeadLeft(l: Layout, s: Sys, st: Step)
    requires HeadKept(l, s) && Enabled(l, s, st)
    requires !st.CommitHead? && !st.ClearHead? && !st.CopyLog? && !st.Install?
    ensures HeadKept(l, Apply(l, s, st))
  {
    hide SetHead, HeadOf;
  }

  predicate IsDirty(s: Sys, b: int) { b in s.cache && s.cache[b].dirty }

  lemma LoadFlags(s: Sys, b: int)
    requires 0 <= b < |s.disk|
    ensures s.Load(b) == s.(cache := s.Load(b).cache) && b in s.Load(b).cache
    ensures HeldToModify(s) ==> HeldToModify(s.Load(b))
    ensures forall x :: IsDirty(s.Load(b), x) ==> IsDirty(s, x)
  {
  }

  lemma WriteFlags(s: Sys, b: int, data: Block)
    requires 0 <= b < |s.disk|
    ensures HeldToModify(s) ==> HeldToModify(s.Bwrite(b, data))
    ensures forall x :: IsDirty(s.Bwrite(b, data), x) ==> IsDirty(s, x) && x != b
  {
  }

  lemma {:induction false} CommitFlags(l: Layout, s: Sys, st: Step)
    requires Enabled(l, s, st) && (st.CopyLog? || st.Install?) && HeldToModify(s)
    ensures HeldToModify(Apply(l, s, st)) && Apply(l, s, st).lh == s.lh
    ensures forall x :: IsDirty(Apply(l, s, st), x) ==> IsDirty(s, x) && (st.Install? ==> x != s.lh[s.phase.tail])
  {
    var t := s.phase.tail;
    var s1 := s.Load(l.Slot(t));
    var s2 := s1.Load(s.lh[t]);
    LoadFlags(s, l.Slot(t));
    LoadFlags(s1, s.lh[t]);
    hide Sys.Load, Sys.Bwrite, HeldToModify, IsDirty;
    if st.CopyLog? {
      WriteFlags(s2, l.Slot(t), s2.cache[s.lh[t]].data);
    } else {
      WriteFlags(s2, s.lh[t], s2.cache[l.Slot(t)].data);
    }
  }

  lemma DirtyStep(l: Layout, s: Sys, st: Step)
    requires SpaceInv(s) && DirtyListed(s) && HeldToModify(s) && Enabled(l, s, st)
    ensures DirtyListed(Apply(l, s, st)) && HeldToModify(Apply(l, s, st))
  {
    if st.CopyLog? || st.Install? {
      hide SpaceInv, HeldToModify;
      CommitFlags(l, s, st);
    } else {
      if st.LogStore? || st.EndOp? || st.LogGuard? {
        InOpIsActive(s, st.p);
      }
      hide SpaceInv, SetHead, HeadOf;
      DirtyLeft(l, s, st);
    }
  }

  lemma DirtyLeft(l: Layout, s: Sys, st: Step)
    requires DirtyListed(s) && HeldToModify(s) && Enabled(l, s, st) && !st.CopyLog? && !st.Install?
    requires st.LogStore? || st.EndOp? || st.LogGuard? ==> s.phase.Running?
    ensures DirtyListed(Apply(l, s, st)) && HeldToModify(Apply(l, s, st))
  {
    hide SetHead, HeadOf;
    if st.LogStore? {
      StoreFlags(l, s, st.p, st.b);
    } else if st.Bread? || st.Modify? || st.Brelse? || st.Evict? {
      BufferFlags(l, s, st);
    } else {
      var s' := Apply(l, s, st);
      forall b | IsDirty(s', b) ensures b in s'.lh[Installs(s')..] {
        assert IsDirty(s, b);
        assert Installs(s') == Installs(s) || st.ForgetLog?;
      }
    }
  }

  lemma BufferFlags(l: Layout, s: Sys, st: Step)
    requires DirtyListed(s) && HeldToModify(s) && Enabled(l, s, st)
    requires st.Bread? || st.Modify? || st.Brelse? || st.Evict?
    ensures DirtyListed(Apply(l, s, st)) && HeldToModify(Apply(l, s, st))
  {
    var s' := Apply(l, s, st);
    assert s' == s.(cache := s'.cache);
    forall b | IsDirty(s', b) ensures b in s'.lh[Installs(s')..] {
      assert IsDirty(s, b);
    }
  }

  lemma StoreFlags(l: Layout, s: Sys, p: nat, b: int)
    requires DirtyListed(s) && HeldToModify(s) && Enabled(l, s, LogStore(p, b)) && s.phase.Running?
    ensures DirtyListed(DoLogStore(s, p, b)) && HeldToModify(DoLogStore(s, p, b))
  {
    var s' := DoLogStore(s, p, b);
    forall x | IsDirty(s', x) ensures x in s'.lh[Installs(s')..] {
      assert x == b || x in s.lh[Installs(s)..];
    }
  }

  ghost predicate Counted(l: Layout, s: Sys) {
    SpaceInv(s) && Few(l, s) && HeadKept(l, s) && DirtyListed(s) && HeldToModify(s)
  }

  lemma InitCounted(l: Layout, s: Sys)
    requires Init(l, s)
    ensures Counted(l, s)
  {
    InitInv(l, s);
    NoOps(s.ops);
    GuardsActive(s.ops);
  }

  /** In every run, racing or not, crashed or not. */
  lemma {:induction false} RunCounted(l: Layout, run: seq<Sys>, steps: seq<Step>, i: nat)
    requires IsRun(l, run, steps) && i < |run|
    ensures Counted(l, run[i])
  {
    if i == 0 {
      InitCounted(l, run[0]);
    } else {
      RunCounted(l, run, steps, i - 1);
      hide SpaceInv, Few, HeadKept, DirtyListed, HeldToModify, Enabled, Apply, Init;
      SpaceStep(l, run[i - 1], steps[i - 1]);
      FewStep(l, run[i - 1], steps[i - 1]);
      HeadStep(l, run[i - 1], steps[i - 1]);
      DirtyStep(l, run[i - 1], steps[i - 1]);
    }
  }

  // ---------- how many blocks pin a buffer ----------

  /** The largest number of blocks that a log area of this size ever has logged. */
  function Most(l: Layout): int {
    if l.nlog == 1 then 0 else if l.nlog + 1 < LOGSIZE then l.nlog + 1 else LOGSIZE
  }

  /** With at most h clean buffers held, `bget` finds one for any block. */
  ghost predicate Supplied(s: Sys, h: nat) { |HeldOnly(s)| <= h ==> forall b: int :: FindsBuffer(s, b) }

  lemma AtMost(l: Layout, run: seq<Sys>, steps: seq<Step>, i: nat)
    requires IsRun(l, run, steps) && i < |run|
    ensures |run[i].lh| <= Most(l)
  {
    hide Enabled, Apply, Init, HeadKept, DirtyListed, HeldToModify, Inv;
    RunCounted(l, run, steps, i);
    ReservedNonNegative(run[i].ops);
    if l.nlog == 1 {
      OneBlockLogsNothing(l, run, steps, i);
    }
  }

  lemma FewPinnedSupplies(s: Sys, n: nat, h: nat)
    requires DirtyListed(s) && HeldToModify(s) && |s.cache| <= NBUF && |s.lh| <= n && n + h < NBUF
    ensures Supplied(s, h)
  {
    ListedSize(s.lh);
    forall c | c in Dirty(s) ensures c in Listed(s.lh) { assert IsDirty(s, c); }
    SubsetSize(Dirty(s), Listed(s.lh));
    if |HeldOnly(s)| <= h {
      forall b: int ensures FindsBuffer(s, b) {
        if b !in s.cache { FindsBufferIff(s, b); }
      }
    }
  }

  // ---------- all buffers taken ----------

  /** Three operations pass the test together, if it lets any pass, and fill the log as far as it goes. */
  lemma FillUp(l: Layout, n: nat, k: nat) returns (s: Sys)
    requires l.Valid() && n >= 3 && k < l.nlog - 1 && k + 3 <= LOGSIZE && Target(l, k + 3) <= l.size
    ensures Racers(l, s, n, k, 3, 3)
  {
    hide Stage, Racers;
    s := LogMany(l, n, k);
    NoneReady(l, s, n, k);
    s := OneReady(l, s, n, k, 0);
    s := OneReady(l, s, n, k, 1);
    s := OneReady(l, s, n, k, 2);
    s := OneStored(l, s, n, k, 0, 3);
    s := OneStored(l, s, n, k, 1, 3);
    s := OneStored(l, s, n, k, 2, 3);
  }

  /** The first m targets are pinned by the log, and the next h are held by a process each. */
  ghost predicate Taken(l: Layout, s: Sys, n: nat, m: nat, h: nat) {
    && Reachable(l, s) && |s.disk| == l.size && |s.ops| == n && s.booted
    && s.cache.Keys == Targets(l, m + h) && Pins(s, Targets(l, m)) && HeldToModify(s)
    && forall b | Target(l, m) <= b < Target(l, m + h) :: HeldClean(s, b)
  }

  predicate HeldClean(s: Sys, b: int) { b in s.cache && s.cache[b].holder.Some? && !s.cache[b].dirty }

  /** Without a log area, nothing pins a buffer. */
  lemma Pinned(l: Layout, n: nat) returns (s: Sys)
    requires l.Valid() && n >= 3 && Target(l, LOGSIZE) <= l.size
    ensures Taken(l, s, n, Most(l), 0)
  {
    hide Reachable, Pins, Targets, AllZero, Racing, Logged;
    if l.nlog == 1 {
      s := LogMany(l, n, 0);
    } else {
      s := FillUp(l, n, Most(l) - 3);
    }
    AllUnmodified(l, s, Most(l));
  }

  lemma AllUnmodified(l: Layout, s: Sys, m: nat)
    requires s.cache.Keys == Targets(l, m) && Pins(s, Targets(l, m))
    ensures HeldToModify(s)
  {
  }

  /** One more process reads a block and holds it. */
  lemma HoldOne(l: Layout, s: Sys, n: nat, m: nat, h: nat) returns (s': Sys)
    requires Taken(l, s, n, m, h) && h < n && m + h < NBUF && Target(l, m + h) < l.size
    ensures Taken(l, s', n, m, h + 1)
  {
    hide Reachable, Targets;
    var b := Target(l, m + h);
    assert s.Load(b) == s.(cache := s.cache[b := Buf(s.disk[b], false, None, false)]);
    ghost var c := Apply(l, s, Bread(h, b)).cache;
    assert c.Keys == s.cache.Keys + {b};
    s' := Advance(l, s, Bread(h, b));
    TakenOne(l, s, s', n, m, h);
  }

  lemma TakenOne(l: Layout, s: Sys, s': Sys, n: nat, m: nat, h: nat)
    requires Taken(l, s, n, m, h) && Reachable(l, s') && 0 <= Target(l, m + h) < |s.disk|
    requires s' == s.(cache := s.cache[Target(l, m + h) := Buf(s.disk[Target(l, m + h)], false, Some(h), false)])
    ensures Taken(l, s', n, m, h + 1)
  {
    hide Reachable, Targets, HeldClean;
    var b := Target(l, m + h);
    MoreTargets(l, m + h);
    HeldFrame(s, s', b, h);
    assert s'.cache.Keys == s.cache.Keys + {b};
    forall x | Target(l, m) <= x < Target(l, m + (h + 1)) ensures HeldClean(s', x) {
      assert x != b ==> HeldClean(s, x);
    }
  }

  lemma HeldFrame(s: Sys, s': Sys, b: int, p: nat)
    requires 0 <= b < |s.disk| && s' == s.(cache := s.cache[b := Buf(s.disk[b], false, Some(p), false)])
    ensures HeldClean(s', b) && (HeldToModify(s) ==> HeldToModify(s'))
    ensures forall x | x != b :: HeldClean(s, x) ==> HeldClean(s', x)
  {
  }

  lemma {:induction false} HoldMany(l: Layout, n: nat, h: nat) returns (s: Sys)
    requires l.Valid() && n >= 3 && h <= n && Most(l) + h <= NBUF && Target(l, NBUF) <= l.size
    ensures Taken(l, s, n, Most(l), h)
  {
    hide Taken;
    if h == 0 {
      s := Pinned(l, n);
    } else {
      s := HoldMany(l, n, h - 1);
      s := HoldOne(l, s, n, Most(l), h - 1);
    }
  }

  /** All NBUF buffers are pinned or held: `bget` panics for any other block. */
  lemma TakenStops(l: Layout, s: Sys, n: nat, m: nat, h: nat)
    requires l.Valid() && Taken(l, s, n, m, h) && m + h == NBUF
    ensures Reachable(l, s) && |HeldOnly(s)| <= h && !FindsBuffer(s, l.start)
  {
    hide Reachable, Targets;
    var held := HeldOnly(s);
    assert Targets(l, m) <= s.cache.Keys && |s.cache.Keys| == NBUF;
    forall b | b in held ensures b in s.cache.Keys - Targets(l, m) {
      if b in Targets(l, m) { assert false; }
    }
    SubsetSize(held, s.cache.Keys - Targets(l, m));
    assert |s.cache.Keys - Targets(l, m)| == h;
    forall c ensures !Idle(s, c) {
      if c in s.cache {
        assert c in Targets(l, m) || HeldClean(s, c);
      }
    }
  }

  /** In every run within NBUF buffers, whenever processes hold at most h clean buffers, `bget` finds a
      buffer for every block: if and only if the blocks that the operations can log and the ones held
      leave one of the NBUF. With mkfs's area the operations alone can take them all. */
  lemma AlwaysFindsBufferIff(l: Layout, h: nat)
    requires l.Valid() && Target(l, NBUF) <= l.size
    ensures (forall run: seq<Sys>, steps: seq<Step> | IsRun(l, run, steps) && Bounded(run) ::
               Supplied(run[|run| - 1], h))
            <==> Most(l) + h < NBUF
  {
    hide Init, Enabled, Apply, SpaceInv, Few, HeadKept, DirtyListed, HeldToModify, Supplied, Taken;
    if Most(l) + h < NBUF {
      forall run: seq<Sys>, steps: seq<Step> | IsRun(l, run, steps) && Bounded(run)
        ensures Supplied(run[|run| - 1], h)
      {
        RunCounted(l, run, steps, |run| - 1);
        AtMost(l, run, steps, |run| - 1);
        FewPinnedSupplies(run[|run| - 1], Most(l), h);
      }
    } else {
      var s := HoldMany(l, NBUF + 3, NBUF - Most(l));
      TakenStops(l, s, NBUF + 3, Most(l), NBUF - Most(l));
      NotSupplied(l, s, NBUF - Most(l), h);
    }
  }

  lemma NotSupplied(l: Layout, s: Sys, held: nat, h: nat)
    requires Reachable(l, s) && |HeldOnly(s)| <= held <= h && !FindsBuffer(s, l.start)
    ensures exists run: seq<Sys>, steps: seq<Step> ::
              IsRun(l, run, steps) && Bounded(run) && !Supplied(run[|run| - 1], h)
  {
    hide Init, Enabled, Apply;
    var run: seq<Sys>, steps: seq<Step> :| IsRun(l, run, steps) && Bounded(run) && run[|run| - 1] == s;
    assert !Supplied(run[|run| - 1], h);
  }

  /** The commit of a full log meets the panic of `bget`, on its first log block, with no buffer held. */
  lemma FullLogStopsCommit(l: Layout) returns (s: Sys)
    requires l.Valid() && l.nlog > LOGSIZE - 2 && Target(l, LOGSIZE) <= l.size
    ensures Reachable(l, s) && (forall b | b in s.cache :: s.cache[b].holder.None?)
    ensures s.phase == Copying(0) && |s.lh| == LOGSIZE && !FindsBuffer(s, l.Slot(0))
  {
    hide Reachable, Ready, Roomy;
    s := FillUp(l, 3, LOGSIZE - 3);
    s := EndThree(l, s);
  }

  lemma EndThree(l: Layout, s: Sys) returns (s': Sys)
    requires Reachable(l, s) && |s.ops| == 3 && s.booted && s.outstanding == 3 && |s.cache| <= NBUF
    requires forall b | b in s.cache :: !s.cache[b].modified
    requires forall p: nat | p < 3 :: s.InOp(p)
    ensures Reachable(l, s') && s'.phase == Copying(0) && s'.lh == s.lh && s'.cache == s.cache
  {
    hide Reachable;
    assert s.InOp(0) && s.InOp(1) && s.InOp(2);
    s' := Advance(l, s, EndOp(0));
    s' := Advance(l, s', EndOp(1));
    s' := Advance(l, s', EndOp(2));
  }
}
