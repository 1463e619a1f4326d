/** Exactly when the logged blocks stay inside the log.

    `log_write` compares `log.lh.n` with `log.size - 1` before taking the lock, so several processes may
    pass the test together and all append. The log then outgrows its area unless the area has room
    for all LOGSIZE reserved blocks; mkfs makes it one too small.

    This is about log.c under its own contract, that an operation logs at most MAXOPBLOCKS blocks: the
    overrun takes operations that use up what `begin_op` reserves for them. A transaction of `filewrite`
    stays below that on a disk with one bitmap block, such as mkfs makes. What an overrun leads to
    depends on the buffers left for the commit: with an area of LOGSIZE blocks there are none. */
module WriteAheadLogRace {
  import opened Basics
  import opened WriteAheadLog
  import opened WriteAheadLogCorrect
  import opened WriteAheadLogRuns

  /** Some run within NBUF buffers ends in s. */
  ghost predicate Reachable(l: Layout, s: Sys) {
    exists run: seq<Sys>, steps: seq<Step> :: IsRun(l, run, steps) && Bounded(run) && run[|run| - 1] == s
  }

  lemma RunOn(l: Layout, run: seq<Sys>, steps: seq<Step>, st: Step)
    requires IsRun(l, run, steps) && Bounded(run)
    requires Enabled(l, run[|run| - 1], st) && |Apply(l, run[|run| - 1], st).cache| <= NBUF
    ensures var run' := run + [Apply(l, run[|run| - 1], st)]; IsRun(l, run', steps + [st]) && Bounded(run')
  {
    hide Enabled, Apply, Init;
  }

  lemma Advance(l: Layout, s: Sys, st: Step) returns (s': Sys)
    requires Reachable(l, s) && Enabled(l, s, st) && |Apply(l, s, st).cache| <= NBUF
    ensures Reachable(l, s') && s' == Apply(l, s, st)
  {
    hide Enabled, Apply, Init, Bounded;
    s' := Apply(l, s, st);
    var run: seq<Sys>, steps: seq<Step> :| IsRun(l, run, steps) && Bounded(run) && run[|run| - 1] == s;
    RunOn(l, run, steps, st);
    var longer := run + [s'];
    assert longer[|longer| - 1] == s';
  }

  // ---------- the disk is blank, and the targets are logged in order ----------

  /** The k-th home block after the log. */
  function Target(l: Layout, k: int): int { l.start + l.nlog + k }

  ghost function Targets(l: Layout, k: nat): (r: set<int>)
    ensures |r| == k && forall b :: b in r <==> Target(l, 0) <= b < Target(l, k)
  {
    if k == 0 then {} else Targets(l, k - 1) + {Target(l, k - 1)}
  }

  lemma MoreTargets(l: Layout, k: nat)
    ensures Targets(l, k + 1) == Targets(l, k) + {Target(l, k)}
  {
  }

  function ZeroBlock(): Block { seq(WORDS, _ => 0) }

  ghost predicate AllZero(s: Sys) {
    forall b | 0 <= b < |s.disk| :: s.disk[b] == ZeroBlock() == s.Val(b)
  }

  /** Neither the disk nor what readers see has changed. */
  ghost predicate SameVals(s: Sys, s': Sys) {
    s'.disk == s.disk && forall b | 0 <= b < |s.disk| :: s'.Val(b) == s.Val(b)
  }

  lemma ZeroHead()
    ensures HeadOf(ZeroBlock()) == [] && SetHead(ZeroBlock(), []) == ZeroBlock()
  {
  }

  /** The first state of n processes on a blank disk. */
  function Blank(l: Layout, n: nat): Sys {
    Sys(seq(l.size, _ => ZeroBlock()), map[], [], seq(n, _ => None), 0, false, Booting, false)
  }

  lemma BlankReachable(l: Layout, n: nat)
    requires l.Valid()
    ensures Reachable(l, Blank(l, n))
  {
    hide SetHead, HeadOf, ZeroBlock, Enabled, Apply;
    ZeroHead();
    var run, steps: seq<Step> := [Blank(l, n)], [];
    assert IsRun(l, run, steps) && Bounded(run) && run[|run| - 1] == Blank(l, n);
  }

  lemma RecoverBlank(l: Layout, n: nat) returns (s: Sys)
    requires l.Valid()
    ensures Reachable(l, s) && s.phase.Done? && !s.committing && s.outstanding == 0 && s.lh == []
    ensures |s.ops| == n && (forall p | 0 <= p < n :: s.ops[p].None?) && |s.disk| == l.size && AllZero(s)
    ensures s.cache.Keys == {l.start} && !s.cache[l.start].dirty && s.cache[l.start].holder.None?
    ensures !s.cache[l.start].modified
  {
    hide Reachable, SetHead, HeadOf, ZeroBlock;
    ZeroHead();
    BlankReachable(l, n);
    s := Blank(l, n);
    s := Advance(l, s, ReadHead);
    assert s.lh == [] && s.cache.Keys == {l.start};
    s := Advance(l, s, ForgetLog);
    s := Advance(l, s, ClearHead);
    assert s.cache.Keys == {l.start};
  }

  lemma BeginThree(l: Layout, s: Sys) returns (s': Sys)
    requires Reachable(l, s) && s.booted && !s.committing && s.outstanding == 0 && s.lh == []
    requires |s.ops| >= 3 && (forall p | 0 <= p < |s.ops| :: s.ops[p].None?) && s.cache == map[]
    ensures Reachable(l, s') && s' == s.(ops := s'.ops, outstanding := 3) && |s'.ops| == |s.ops|
    ensures forall p | 0 <= p < 3 :: s'.ops[p] == Some(Op({}, None))
  {
    hide Reachable;
    s' := Advance(l, s, BeginOp(0));
    s' := Advance(l, s', BeginOp(1));
    s' := Advance(l, s', BeginOp(2));
  }

  // ---------- three operations take turns ----------

  /** These blocks are in the cache only because they are logged. */
  ghost predicate Pins(s: Sys, blocks: set<int>) {
    forall b | b in blocks :: b in s.cache && s.cache[b].holder.None? && !s.cache[b].modified && s.cache[b].dirty
  }

  /** How many of k blocks logged in turn operation p has logged. */
  function Share(k: nat, p: int): int { (k + 2 - p) / 3 }

  lemma Turn(k: nat, p: int)
    requires 0 <= p < 3
    ensures Share(k + 1, p) == Share(k, p) + if p == k % 3 then 1 else 0
  {
  }

  /** The operation whose turn the i-th block after the k-th is. */
  function Racer(k: nat, i: nat): (p: nat)
    ensures p < 3
  {
    (k + i) % 3
  }

  lemma RacersDiffer(k: nat, i: nat, j: nat)
    requires i < j < 3
    ensures Racer(k, i) != Racer(k, j)
  {
  }

  lemma RacerHasRoom(k: nat, i: nat)
    requires i < 3 && k + i < LOGSIZE
    ensures Share(k, Racer(k, i)) < MAXOPBLOCKS
  {
  }

  /** An operation that has logged n blocks, all below block `end`. */
  ghost predicate Logged(o: Option<Op>, n: int, end: int) {
    o.Some? && |o.value.used| == n && forall b | b in o.value.used :: b < end
  }

  /** A running machine with three operations in progress. */
  ghost predicate Busy(l: Layout, s: Sys, n: nat) {
    && Reachable(l, s) && |s.disk| == l.size && |s.ops| == n >= 3
    && s.booted && s.phase.Running? && !s.committing && s.outstanding == 3
  }

  /** They have taken turns to log the first k targets; nothing else is cached, and all is zero. */
  ghost predicate Stage(l: Layout, s: Sys, n: nat, k: nat) {
    && Busy(l, s, n) && AllZero(s)
    && s.cache.Keys == Targets(l, k) && Pins(s, Targets(l, k))
    && |s.lh| == k && (forall i | 0 <= i < k :: s.lh[i] == Target(l, i))
    && forall p | 0 <= p < 3 :: Logged(s.ops[p], Share(k, p), Target(l, k))
  }

  /** From boot to three operations in progress. */
  lemma Boot(l: Layout, n: nat) returns (s: Sys)
    requires l.Valid() && n >= 3
    ensures Stage(l, s, n, 0)
  {
    hide Reachable, SetHead, HeadOf, ZeroBlock;
    s := RecoverBlank(l, n);
    s := Advance(l, s, EndCommit);
    s := Advance(l, s, Evict(l.start));
    assert s.cache == map[];
    s := BeginThree(l, s);
  }

  /** An operation brings in a block and passes the unlocked test of `log_write`. */
  lemma Guard(l: Layout, s: Sys, p: nat, b: int, pins: set<int>) returns (s': Sys)
    requires Reachable(l, s) && s.booted && s.InOp(p) && s.outstanding >= 1
    requires l.Home(b) && l.size == |s.disk| && b !in s.cache && |s.cache| < NBUF && Pins(s, pins)
    requires |s.lh| < l.nlog - 1 && |s.lh| < LOGSIZE
    ensures Reachable(l, s') && s'.Holds(p, b) && !s'.cache[b].modified && Pins(s', pins) && SameVals(s, s')
    ensures s' == s.(cache := s'.cache, ops := s.ops[p := Some(Op(s.ops[p].value.used, Some(b)))])
    ensures s'.cache.Keys == s.cache.Keys + {b} && forall x | x in s.cache :: s'.cache[x] == s.cache[x]
  {
    hide Reachable;
    assert Apply(l, s, Bread(p, b)).cache.Keys == s.cache.Keys + {b};
    s' := Advance(l, s, Bread(p, b));
    s' := Advance(l, s', LogGuard(p, b));
  }

  /** It records the block and lets go of the buffer. */
  lemma StoreAndRelease(l: Layout, s: Sys, p: nat, b: int, pins: set<int>) returns (s': Sys)
    requires Reachable(l, s) && s.booted && s.InOp(p) && s.Holds(p, b) && l.Home(b) && b !in s.lh
    requires s.ops[p].value.guarded == Some(b) && |s.ops[p].value.used| < MAXOPBLOCKS
    requires |s.cache| <= NBUF && Pins(s, pins)
    ensures Reachable(l, s') && s'.lh == s.lh + [b] && s'.cache.Keys == s.cache.Keys && Pins(s', pins + {b})
    ensures s' == s.(lh := s'.lh, cache := s'.cache, ops := s.ops[p := Some(Op(s.ops[p].value.used + {b}, None))])
    ensures SameVals(s, s') && forall x | x in s.cache && x != b :: s'.cache[x] == s.cache[x]
  {
    hide Reachable;
    s' := Advance(l, s, LogStore(p, b));
    assert s'.cache.Keys == s.cache.Keys;
    s' := Advance(l, s', Brelse(p, b));
    assert s'.cache.Keys == s.cache.Keys;
  }

  /** What logging block b, by operation p, does. */
  ghost predicate LoggedOne(s: Sys, s': Sys, p: nat, b: int) {
    && s.InOp(p) && SameVals(s, s') && s'.cache.Keys == s.cache.Keys + {b}
    && s' == s.(cache := s'.cache, lh := s.lh + [b], ops := s.ops[p := Some(Op(s.ops[p].value.used + {b}, None))])
  }

  lemma LogOne(l: Layout, s: Sys, p: nat, b: int, pins: set<int>) returns (s': Sys)
    requires Reachable(l, s) && s.booted && s.InOp(p) && s.outstanding >= 1
    requires l.Home(b) && l.size == |s.disk| && b !in s.cache && |s.cache| < NBUF && Pins(s, pins)
    requires |s.lh| < l.nlog - 1 && |s.lh| < LOGSIZE && b !in s.lh && |s.ops[p].value.used| < MAXOPBLOCKS
    ensures Reachable(l, s') && LoggedOne(s, s', p, b) && Pins(s', pins + {b})
  {
    hide Reachable, Enabled, Apply, Pins;
    s' := Guard(l, s, p, b, pins);
    s' := StoreAndRelease(l, s', p, b, pins);
  }

  lemma SharesOne(ops: seq<Option<Op>>, l: Layout, k: nat, q: nat)
    requires |ops| >= 3 && q < 3
    requires forall p | 0 <= p < 3 :: Logged(ops[p], Share(k, p), Target(l, k))
    ensures ops[k % 3].Some?
    ensures Logged(ops[k % 3 := Some(Op(ops[k % 3].value.used + {Target(l, k)}, None))][q],
                   Share(k + 1, q), Target(l, k + 1))
  {
    assert Logged(ops[k % 3], Share(k, k % 3), Target(l, k)) && Logged(ops[q], Share(k, q), Target(l, k));
    Turn(k, q);
    hide Share;
  }

  lemma StageOne(l: Layout, s: Sys, s': Sys, n: nat, k: nat)
    requires Stage(l, s, n, k) && Reachable(l, s') && LoggedOne(s, s', k % 3, Target(l, k))
    requires Pins(s', Targets(l, k) + {Target(l, k)})
    ensures Stage(l, s', n, k + 1)
  {
    hide Reachable, Pins, Share, Targets, Logged, ZeroBlock;
    MoreTargets(l, k);
    forall q | 0 <= q < 3 ensures Logged(s'.ops[q], Share(k + 1, q), Target(l, k + 1)) {
      SharesOne(s.ops, l, k, q);
    }
  }

  lemma LogNext(l: Layout, s: Sys, n: nat, k: nat) returns (s': Sys)
    requires Stage(l, s, n, k) && k < l.nlog - 1 && k < LOGSIZE && Target(l, k) < l.size
    ensures Stage(l, s', n, k + 1)
  {
    hide Reachable, Pins, Share, Targets, LoggedOne, AllZero;
    RacerHasRoom(k, 0);
    assert Logged(s.ops[k % 3], Share(k, k % 3), Target(l, k));
    s' := LogOne(l, s, k % 3, Target(l, k), Targets(l, k));
    StageOne(l, s, s', n, k);
  }

  lemma {:induction false} LogMany(l: Layout, n: nat, k: nat) returns (s: Sys)
    requires l.Valid() && n >= 3 && k < l.nlog && k <= LOGSIZE && Target(l, k) <= l.size
    ensures Stage(l, s, n, k)
  {
    hide Stage;
    if k == 0 {
      s := Boot(l, n);
    } else {
      s := LogMany(l, n, k - 1);
      s := LogNext(l, s, n, k - 1);
    }
  }

  // ---------- several operations pass the test together ----------

  /** Operation Racer(k, i) holds the block of its turn and has passed the test. */
  ghost predicate Ready(l: Layout, s: Sys, k: nat, i: nat) {
    var p, b := Racer(k, i), Target(l, k + i);
    s.InOp(p) && s.ops[p].value.guarded == Some(b) && s.Holds(p, b) && !s.cache[b].modified
  }

  ghost predicate Roomy(s: Sys, k: nat, i: nat) {
    s.InOp(Racer(k, i)) && (k + i < LOGSIZE ==> |s.ops[Racer(k, i)].value.used| < MAXOPBLOCKS)
  }

  ghost predicate Racing(l: Layout, s: Sys, k: nat, m: nat, r: nat) {
    && (forall p: nat | p < 3 :: s.InOp(p)) && (forall i: nat | m <= i < 3 :: Roomy(s, k, i))
    && forall i: nat | m <= i < r :: Ready(l, s, k, i)
  }

  /** With k targets logged, the next r operations have passed the test, each for the block of its turn,
      and the first m of them have stored it. */
  ghost predicate Racers(l: Layout, s: Sys, n: nat, k: nat, m: nat, r: nat) {
    && Busy(l, s, n) && m <= r <= 3 && s.cache.Keys == Targets(l, k + r) && Pins(s, Targets(l, k + m))
    && |s.lh| == k + m && (forall i | 0 <= i < k + m :: s.lh[i] == Target(l, i)) && Racing(l, s, k, m, r)
  }

  lemma NoneReady(l: Layout, s: Sys, n: nat, k: nat)
    requires Stage(l, s, n, k)
    ensures Racers(l, s, n, k, 0, 0)
  {
    hide Reachable, Pins, Targets, ZeroBlock, Racer;
    forall p: nat | p < 3 ensures s.InOp(p) {
      assert Logged(s.ops[p], Share(k, p), Target(l, k));
    }
    forall i: nat | i < 3 ensures Roomy(s, k, i) {
      assert Logged(s.ops[Racer(k, i)], Share(k, Racer(k, i)), Target(l, k));
      if k + i < LOGSIZE { RacerHasRoom(k, i); }
    }
  }

  lemma OneReady(l: Layout, s: Sys, n: nat, k: nat, r: nat) returns (s': Sys)
    requires Racers(l, s, n, k, 0, r) && r < 3 && k < l.nlog - 1 && k + r < LOGSIZE && Target(l, k + r) < l.size
    ensures Racers(l, s', n, k, 0, r + 1) && SameVals(s, s')
  {
    hide Racers, Reachable, Enabled, Apply, Pins, Targets, Racer, SameVals;
    MayGuard(l, s, n, k, r);
    s' := Guard(l, s, Racer(k, r), Target(l, k + r), Targets(l, k));
    Guarded(l, s, s', n, k, r);
  }

  lemma MayGuard(l: Layout, s: Sys, n: nat, k: nat, r: nat)
    requires Racers(l, s, n, k, 0, r) && r < 3 && k + r < LOGSIZE && Target(l, k + r) < l.size
    ensures Busy(l, s, n) && Roomy(s, k, r) && l.Home(Target(l, k + r)) && Target(l, k + r) !in s.cache
    ensures |s.cache| < NBUF && Pins(s, Targets(l, k)) && |s.lh| == k
  {
    hide Reachable, Pins, Racer, Ready, Targets;
  }

  lemma Guarded(l: Layout, s: Sys, s': Sys, n: nat, k: nat, r: nat)
    requires Racers(l, s, n, k, 0, r) && r < 3 && Reachable(l, s') && Pins(s', Targets(l, k)) && Roomy(s, k, r)
    requires s' == s.(cache := s'.cache, ops := s'.ops)
    requires s'.ops == s.ops[Racer(k, r) := Some(Op(s.ops[Racer(k, r)].value.used, Some(Target(l, k + r))))]
    requires s'.Holds(Racer(k, r), Target(l, k + r)) && !s'.cache[Target(l, k + r)].modified
    requires s'.cache.Keys == s.cache.Keys + {Target(l, k + r)}
    requires forall x | x in s.cache :: s'.cache[x] == s.cache[x]
    ensures Racers(l, s', n, k, 0, r + 1)
  {
    hide Reachable, Pins, Targets, Racer, Racing, Sys.Holds;
    GuardKeeps(l, s, s', k, r);
    MoreTargets(l, k + r);
    hide Target, Roomy;
  }

  lemma GuardKeeps(l: Layout, s: Sys, s': Sys, k: nat, r: nat)
    requires r < 3 && Roomy(s, k, r) && Racing(l, s, k, 0, r)
    requires s'.ops == s.ops[Racer(k, r) := Some(Op(s.ops[Racer(k, r)].value.used, Some(Target(l, k + r))))]
    requires s'.Holds(Racer(k, r), Target(l, k + r)) && !s'.cache[Target(l, k + r)].modified
    requires s.cache.Keys <= s'.cache.Keys
    requires forall x | x in s.cache :: s'.cache[x] == s.cache[x]
    ensures Racing(l, s', k, 0, r + 1)
  {
    hide Racer;
    forall i: nat | i < 3 ensures Roomy(s', k, i) {
      assert Roomy(s, k, i);
    }
    forall i: nat | i <= r ensures Ready(l, s', k, i) {
      if i < r {
        assert Ready(l, s, k, i);
        RacersDiffer(k, i, r);
      }
    }
    forall p: nat | p < 3 ensures s'.InOp(p) { assert s.InOp(p); }
  }

  lemma OneStored(l: Layout, s: Sys, n: nat, k: nat, m: nat, r: nat) returns (s': Sys)
    requires Racers(l, s, n, k, m, r) && m < r && k + r <= LOGSIZE && Target(l, k + r) <= l.size
    ensures Racers(l, s', n, k, m + 1, r) && SameVals(s, s')
  {
    hide Reachable, Enabled, Apply, Pins, Targets, Racer, SameVals;
    assert Ready(l, s, k, m) && Roomy(s, k, m);
    s' := StoreAndRelease(l, s, Racer(k, m), Target(l, k + m), Targets(l, k + m));
    forall i: nat | m + 1 <= i < 3 ensures Roomy(s', k, i) && (i < r ==> Ready(l, s', k, i)) {
      assert Roomy(s, k, i) && (i < r ==> Ready(l, s, k, i));
      RacersDiffer(k, m, i);
    }
    forall p: nat | p < 3 ensures s'.InOp(p) { assert s.InOp(p); }
    MoreTargets(l, k + m);
  }

  /** Two operations pass the unlocked test together, and the log ends one block past its area. */
  lemma UnlockedGuardOverflows(l: Layout) returns (s: Sys)
    requires l.Valid() && 2 <= l.nlog <= LOGSIZE && l.start + 2 * l.nlog <= l.size
    ensures Reachable(l, s) && |s.lh| == l.nlog
    ensures l.start + l.nlog <= l.Slot(|s.lh| - 1)
  {
    hide Reachable, Pins, Targets, Racer, SameVals, Ready, Roomy, Stage;
    var k := l.nlog - 2;
    s := LogMany(l, 3, k);
    NoneReady(l, s, 3, k);
    s := OneReady(l, s, 3, k, 0);
    s := OneReady(l, s, 3, k, 1);
    s := OneStored(l, s, 3, k, 0, 2);
    s := OneStored(l, s, 3, k, 1, 2);
  }

  // ---------- the exact condition ----------

  ghost predicate NoneGuarded(s: Sys) {
    forall p | 0 <= p < |s.ops| :: s.ops[p].Some? ==> s.ops[p].value.guarded.None?
  }

  lemma OneBlockStep(l: Layout, s: Sys, st: Step)
    requires l.nlog == 1 && NoneGuarded(s) && Enabled(l, s, st)
    ensures NoneGuarded(Apply(l, s, st)) && !st.LogStore?
  {
  }

  /** With a single log block the test never passes, and nothing is ever logged. */
  lemma {:induction false} OneBlockLogsNothing(l: Layout, run: seq<Sys>, steps: seq<Step>, i: nat)
    requires IsRun(l, run, steps) && i < |run| && l.nlog == 1
    ensures Inv(l, run[i]) && run[i].lh == [] && NoneGuarded(run[i])
  {
    if i == 0 {
      InitInv(l, run[0]);
    } else {
      OneBlockLogsNothing(l, run, steps, i - 1);
      OneBlockStep(l, run[i - 1], steps[i - 1]);
      hide CacheInv, PinInv, PhaseInv, SpaceInv, Enabled, Apply;
      StepRefines(l, run[i - 1], steps[i - 1]);
    }
  }

  ghost predicate EndsInside(l: Layout, run: seq<Sys>) { run != [] && Inside(l, run[|run| - 1]) }

  lemma RoomKeepsInside(l: Layout, run: seq<Sys>, steps: seq<Step>)
    requires IsRun(l, run, steps) && (l.nlog == 1 || l.nlog > LOGSIZE)
    ensures EndsInside(l, run)
  {
    if l.nlog == 1 {
      OneBlockLogsNothing(l, run, steps, |run| - 1);
    } else {
      RunKeepsSpace(l, run, steps, |run| - 1);
      ReservedNonNegative(run[|run| - 1].ops);
    }
  }

  /** Every run keeps the logged blocks inside the log, if and only if the log has room for all LOGSIZE
      blocks (or for none); and the same for the runs within NBUF buffers alone. */
  lemma AlwaysInsideIff(l: Layout)
    requires l.Valid() && l.start + 2 * l.nlog <= l.size
    ensures (forall run: seq<Sys>, steps: seq<Step> | IsRun(l, run, steps) :: EndsInside(l, run))
            <==> l.nlog == 1 || l.nlog > LOGSIZE
    ensures (forall run: seq<Sys>, steps: seq<Step> | IsRun(l, run, steps) && Bounded(run) :: EndsInside(l, run))
            <==> l.nlog == 1 || l.nlog > LOGSIZE
  {
    hide Enabled, Apply, Init;
    if l.nlog == 1 || l.nlog > LOGSIZE {
      forall run: seq<Sys>, steps: seq<Step> | IsRun(l, run, steps) ensures EndsInside(l, run) {
        RoomKeepsInside(l, run, steps);
      }
    } else {
      var s := UnlockedGuardOverflows(l);
      var run: seq<Sys>, steps: seq<Step> :| IsRun(l, run, steps) && Bounded(run) && run[|run| - 1] == s;
      assert !EndsInside(l, run);
    }
  }
}
