/** The functions of log.c as code: a log header updated in place, and loops that write one
    disk block at a time. Every intermediate disk is recorded, since a crash may stop there. */
module WriteAheadLogCode {
  import opened Basics
  import opened WriteAheadLog
  import opened WriteAheadLogCorrect
  import opened WriteAheadLogRuns

  class Log {
    const l: Layout
    const block: array<int>
    var n: int
    var outstanding: int
    var disk: seq<Block>
    var cache: map<int, Buf>
    ghost var phase: Phase
    ghost var booted: bool
    ghost var op: Option<Op> // the operation in progress
    ghost var disks: seq<seq<Block>> // the disk after each block written

    ghost predicate Valid()
      reads this, block
    {
      && block.Length == LOGSIZE && 0 <= n <= LOGSIZE && |disk| == l.size && l.Valid() && disk[l.start][0] <= LOGSIZE
      && outstanding == if op.Some? then 1 else 0
    }

    /** This object as a state of the step system with one process. */
    ghost function View(): Sys
      requires Valid()
      reads this, block
    {
      Sys(disk, cache, block[..n], [op], outstanding, booted && !phase.Running?, phase, booted)
    }

    /** No other process holds a buffer, so `bread` does not wait. */
    ghost predicate Alone()
      reads this
    {
      forall b | b in cache :: cache[b].holder.None?
    }

    /** The machine starts with what is on the disk. */
    constructor (l: Layout, disk: seq<Block>)
      requires l.Valid() && |disk| == l.size && Loggable(l, HeadOf(disk[l.start])) && disk[l.start][0] <= LOGSIZE
      ensures Valid() && Alone() && Inv(l, View()) && phase == Booting && fresh(block)
      ensures this.l == l && this.disk == disk && DurableOf(l, disk) == Abstract(l, View()).durable
    {
      this.l, this.disk, cache, n, outstanding, disks := l, disk, map[], 0, 0, [];
      block := new int[LOGSIZE];
      phase, booted, op := Booting, false, None;
      new;
      InitInv(l, View());
    }

    method Bread(b: int) returns (data: Block)
      requires Valid() && 0 <= b < l.size && Alone()
      modifies this`cache
      ensures Valid() && View() == old(View()).Load(b) && Alone()
      ensures b in cache && data == cache[b].data == old(View()).Val(b)
    {
      if b !in cache {
        cache := cache[b := Buf(disk[b], false, None, false)];
      }
      data := cache[b].data;
    }

    method Bwrite(b: int, data: Block)
      requires Valid() && 0 <= b < l.size && Alone() && (b == l.start ==> data[0] <= LOGSIZE)
      modifies this`disk, this`cache, this`disks
      ensures Valid() && View() == old(View()).Bwrite(b, data) && Alone()
      ensures disks == old(disks) + [disk]
    {
      disk := disk[b := data];
      cache := cache[b := Buf(data, false, None, false)];
      disks := disks + [disk];
    }

    /** The loop of `write_head`: the header block receives n and the first n block numbers. */
    method FillHead(hb0: Block) returns (hb: Block)
      requires block.Length == LOGSIZE && 0 <= n <= LOGSIZE
      ensures hb == SetHead(hb0, block[..n])
    {
      var words: seq<int> := hb0[0 := n];
      var i := 0;
      while i < n
        invariant 0 <= i <= n && |words| == WORDS
        invariant words == [n] + block[..i] + hb0[1 + i..]
      {
        words := words[1 + i := block[i]];
        i := i + 1;
      }
      hb := words;
    }

    /** `write_head` */
    method WriteHead()
      requires Valid() && Alone()
      modifies this`disk, this`cache, this`disks
      ensures Valid() && Alone()
      ensures View() == old(View()).Bwrite(l.start, SetHead(old(View()).Val(l.start), block[..n]))
      ensures disks == old(disks) + [disk]
    {
      ghost var s := View();
      var hb := Bread(l.start);
      hb := FillHead(hb);
      Bwrite(l.start, hb);
      assert View() == s.Bwrite(l.start, hb);
    }

    /** `read_head`. A negative number of blocks lists none: every loop over them ends at once. */
    method ReadHead()
      requires Valid() && Alone() && HeadCount() <= LOGSIZE
      modifies this`cache, this`n, block
      ensures Valid() && Alone()
      ensures View() == old(View()).Load(l.start).(lh := HeadOf(old(View()).Val(l.start)))
    {
      var hb := Bread(l.start);
      n := if hb[0] < 0 then 0 else hb[0];
      var i := 0;
      while i < n
        invariant 0 <= i <= n && Valid()
        invariant forall j | 0 <= j < i :: block[j] == hb[1 + j]
        modifies block
      {
        block[i] := hb[1 + i];
        i := i + 1;
      }
      assert block[..n] == hb[1..1 + n];
    }

    ghost function HeadCount(): int
      requires Valid()
      reads this, block
    {
      View().Val(l.start)[0]
    }

    /** The scan of `log_write`: a block already in the header keeps its place. */
    method RecordBlock(b: int)
      requires Valid()
      requires b in block[..n] || n < LOGSIZE
      modifies this`n, block
      ensures Valid() && block[..n] == Absorb(old(block[..n]), b)
    {
      ghost var lh := block[..n];
      var i := 0;
      while i < n && block[i] != b
        invariant 0 <= i <= n && b !in block[..i]
      {
        i := i + 1;
      }
      assert i < n ==> lh[i] == b;
      assert i == n ==> b !in lh;
      block[i] := b;
      if i == n {
        n := n + 1;
      }
      assert block[..n] == Absorb(lh, b);
    }
  
    // ---------- commit and recovery ----------

    /** One turn of the loop of `write_log`. */
    method CopyOne(tail: nat)
      requires Valid() && Alone() && Inv(l, View()) && phase == Copying(tail) && tail < n < l.nlog
      modifies this`disk, this`cache, this`disks, this`phase
      ensures Valid() && Alone() && Inv(l, View()) && phase == Copying(tail + 1)
      ensures Abstract(l, View()) == old(Abstract(l, View()))
      ensures disks == old(disks) + [disk]
    {
      hide Inv, DiskInv, Abstract, Absorb, Enabled, Apply, Sys.Load, Sys.Bwrite, Sys.Val;
      ghost var s := View();
      CommitReady(l, s, CopyLog);
      Refined(l, s, CopyLog);
      CopyIs(l, s);
      var to := l.Slot(tail);
      var _ := Bread(to);
      var from := Bread(block[tail]);
      Bwrite(to, from);
      phase := Copying(tail + 1);
      assert View() == Apply(l, s, CopyLog);
    }

    /** One turn of the loop of `install_trans`. */
    method InstallOne(tail: nat)
      requires Valid() && Alone() && Inv(l, View()) && phase == Installing(tail) && tail < n
      modifies this`disk, this`cache, this`disks, this`phase
      ensures Valid() && Alone() && Inv(l, View()) && phase == Installing(tail + 1)
      ensures Abstract(l, View()) == old(Abstract(l, View()))
      ensures disks == old(disks) + [disk]
    {
      hide Inv, DiskInv, Abstract, Absorb, Enabled, Apply, Sys.Load, Sys.Bwrite, Sys.Val;
      ghost var s := View();
      CommitReady(l, s, Install);
      Refined(l, s, Install);
      InstallIs(l, s);
      var lbuf := Bread(l.Slot(tail));
      var _ := Bread(block[tail]);
      Bwrite(block[tail], lbuf);
      phase := Installing(tail + 1);
      assert View() == Apply(l, s, Install);
    }

    /** `write_log`: copy each logged block from the cache to its log block. */
    method WriteLog()
      requires Valid() && Alone() && Inv(l, View()) && phase == Copying(0) && n < l.nlog
      modifies this`disk, this`cache, this`disks, this`phase
      ensures Valid() && Alone() && Inv(l, View()) && phase == Copying(n)
      ensures Abstract(l, View()) == old(Abstract(l, View()))
      ensures |disks| == |old(disks)| + n && old(disks) <= disks
      ensures Mean(l, disks[|old(disks)|..], old(Abstract(l, View()).durable))
    {
      hide CacheInv, PinInv, SpaceInv, PhaseInv, DurableOf;
      var tail := 0;
      while tail < n
        invariant Valid() && Alone() && Inv(l, View()) && phase == Copying(tail) && 0 <= tail <= n
        invariant Abstract(l, View()) == old(Abstract(l, View()))
        invariant |disks| == |old(disks)| + tail && old(disks) <= disks
        invariant Mean(l, disks[|old(disks)|..], old(Abstract(l, View()).durable))
      {
        CopyOne(tail);
        tail := tail + 1;
      }
    }

    /** `install_trans`: copy each log block to its home block. */
    method InstallTrans()
      requires Valid() && Alone() && Inv(l, View()) && phase == Installing(0)
      modifies this`disk, this`cache, this`disks, this`phase
      ensures Valid() && Alone() && Inv(l, View()) && phase == Installing(n)
      ensures Abstract(l, View()) == old(Abstract(l, View()))
      ensures |disks| == |old(disks)| + n && old(disks) <= disks
      ensures Mean(l, disks[|old(disks)|..], old(Abstract(l, View()).durable))
    {
      hide CacheInv, PinInv, SpaceInv, PhaseInv, DurableOf;
      var tail := 0;
      while tail < n
        invariant Valid() && Alone() && Inv(l, View()) && phase == Installing(tail) && 0 <= tail <= n
        invariant Abstract(l, View()) == old(Abstract(l, View()))
        invariant |disks| == |old(disks)| + tail && old(disks) <= disks
        invariant Mean(l, disks[|old(disks)|..], old(Abstract(l, View()).durable))
      {
        InstallOne(tail);
        tail := tail + 1;
      }
    }

    /** Forget the transaction in memory and then on disk: the end of `commit` and of recovery. */
    method EraseLog()
      requires Valid() && Alone() && Inv(l, View()) && phase == Installing(n)
      modifies this`disk, this`cache, this`disks, this`phase, this`n
      ensures Valid() && Alone() && Inv(l, View()) && phase == Done && n == 0
      ensures Abstract(l, View()) == old(Abstract(l, View()))
      ensures disks == old(disks) + [disk] && Mean(l, [disk], Abstract(l, View()).durable)
    {
      hide CacheInv, PinInv, PhaseInv, SpaceInv, Distinct, Abstract, Mean;
      ghost var s := View();
      StepRefines(l, s, ForgetLog);
      n, phase := 0, Clearing;
      assert View() == Apply(l, s, ForgetLog);
      StepRefines(l, View(), ClearHead);
      ghost var s1 := View();
      WriteHead();
      phase := Done;
      assert View() == Apply(l, s1, ClearHead);
      MeanNow(l, View());
    }

    /** The header write in the middle of `commit`. */
    method CommitPoint()
      requires Valid() && Alone() && Inv(l, View()) && phase == Copying(n) && 0 < n
      modifies this`disk, this`cache, this`disks, this`phase
      ensures Valid() && Alone() && Inv(l, View()) && phase == Installing(0)
      ensures Abstract(l, View()).durable == Abstract(l, View()).current == old(Abstract(l, View()).current)
      ensures disks == old(disks) + [disk] && Mean(l, [disk], Abstract(l, View()).durable)
    {
      hide CacheInv, PinInv, PhaseInv, SpaceInv, Distinct, Abstract, Mean;
      ghost var s := View();
      StepRefines(l, s, CommitHead);
      WriteHead();
      phase := Installing(0);
      assert View() == Apply(l, s, CommitHead);
      MeanNow(l, View());
    }

    /** `commit`: whichever of the 2n + 2 block writes a crash follows, the disk then means
        either the old contents (the first n) or all the new ones (the rest). */
    method Commit()
      requires Valid() && Alone() && Inv(l, View()) && phase == Copying(0) && n < l.nlog
      modifies this`disk, this`cache, this`disks, this`phase, this`n
      ensures Valid() && Alone() && Inv(l, View()) && n == 0
      ensures Abstract(l, View()).current == old(Abstract(l, View()).current)
      ensures old(n) > 0 ==> Abstract(l, View()).durable == old(Abstract(l, View()).current)
      ensures old(n) > 0 ==> |disks| == |old(disks)| + 2 * old(n) + 2 && old(disks) <= disks
      ensures old(n) > 0 ==>
                && Mean(l, disks[|old(disks)|..|old(disks)| + old(n)], old(Abstract(l, View()).durable))
                && Mean(l, disks[|old(disks)| + old(n)..], old(Abstract(l, View()).current))
      ensures old(n) == 0 ==> disks == old(disks)
      ensures phase == if old(n) > 0 then Done else Copying(0)
    {
      hide CacheInv, PinInv, SpaceInv, PhaseInv, Distinct, Abstract, Mean;
      if n > 0 {
        ghost var was, now := Abstract(l, View()).durable, Abstract(l, View()).current;
        WriteLog();
        ghost var d1 := disks;
        CommitPoint();
        ghost var d2 := disks;
        InstallTrans();
        ghost var d3 := disks;
        EraseLog();
        CommitTrace(l, old(disks), d1, d2, d3, disks, was, now);
      }
    }

    /** The list of blocks to install is read. */
    method StartRecovery()
      requires Valid() && Alone() && Inv(l, View()) && phase == Booting
      modifies this`cache, this`phase, this`n, block
      ensures Valid() && Alone() && Inv(l, View()) && phase == Installing(0)
      ensures Abstract(l, View()) == old(Abstract(l, View()))
    {
      hide CacheInv, PinInv, SpaceInv, Abstract, Mean, Distinct, Copied, Installed;
      ghost var s := View();
      Refined(l, s, WriteAheadLog.ReadHead);
      ReadHead();
      phase := Installing(0);
      assert View() == Apply(l, s, WriteAheadLog.ReadHead);
    }

    /** `recover_from_log`: replays the log found on disk; a crash at any of its writes leaves
        a disk that means the same. */
    method RecoverFromLog()
      requires Valid() && Alone() && Inv(l, View()) && phase == Booting
      modifies this`disk, this`cache, this`disks, this`phase, this`n, block
      ensures Valid() && Alone() && Inv(l, View()) && phase == Done && n == 0
      ensures Abstract(l, View()) == old(Abstract(l, View()))
      ensures old(disks) <= disks && Mean(l, disks[|old(disks)|..], old(Abstract(l, View()).durable))
      ensures forall b | l.Home(b) :: disk[b] == old(Abstract(l, View()).durable[b])
    {
      hide CacheInv, PinInv, SpaceInv, DurableOf, Abstract, Mean, HomesOnly, Copied, Installed;
      StartRecovery();
      InstallTrans();
      ghost var d1 := disks;
      EraseLog();
      MeanConcat(l, d1[|old(disks)|..], [disk], old(Abstract(l, View()).durable));
      assert disks[|old(disks)|..] == d1[|old(disks)|..] + [disk];
      EmptyLogDisk(l, View());
    }

    /** The end of a commit or of the recovery: operations may begin. */
    method Resume()
      requires Valid() && Alone() && Inv(l, View()) && n == 0 && op == None && Enabled(l, View(), EndCommit)
      modifies this`phase, this`booted
      ensures Quiet() && Abstract(l, View()).current == old(Abstract(l, View()).current)
    {
      hide CacheInv, PinInv, PhaseInv, SpaceInv, Abstract, HomesOnly, HeadOf, Fits;
      ghost var s := View();
      CommitEnds(l, s);
      phase, booted := Running, true;
      assert View() == Apply(l, s, EndCommit);
    }

    /** `initlog` returns after the recovery: the log is ready for operations. */
    method InitLog()
      requires Valid() && Alone() && Inv(l, View()) && phase == Booting
      modifies this`disk, this`cache, this`disks, this`phase, this`n, this`booted, block
      ensures Quiet() && Abstract(l, View()).durable == old(Abstract(l, View()).durable)
      ensures forall b | l.Home(b) :: disk[b] == old(Abstract(l, View()).durable[b])
    {
      hide CacheInv, PinInv, SpaceInv, DurableOf, Abstract, CurrentAt, HomesOnly, HeadOf;
      BootState(l, View());
      RecoverFromLog();
      Resume();
    }

    // ---------- operations ----------

    /** Between operations: no operation, an empty log, and everything written is durable. */
    ghost predicate Quiet()
      reads this, block
    {
      && Valid() && Alone() && Inv(l, View()) && phase == Running && n == 0 && op == None
      && Abstract(l, View()).durable == Abstract(l, View()).current
    }

    /** `begin_op` */
    method BeginOp()
      requires Quiet()
      modifies this`outstanding, this`op
      ensures Valid() && Alone() && Inv(l, View()) && phase == Running && n == 0 && op == Some(Op({}, None))
      ensures Abstract(l, View()) == old(Abstract(l, View()))
    {
      hide CacheInv, PinInv, PhaseInv, SpaceInv, Distinct, Abstract;
      ghost var s := View();
      RunningIsBooted(l, s);
      StepRefines(l, s, WriteAheadLog.BeginOp(0));
      outstanding, op := outstanding + 1, Some(Op({}, None));
      assert View() == Apply(l, s, WriteAheadLog.BeginOp(0));
    }

    /** `bread` and `brelse` of a home block. */
    method Read(b: int) returns (data: Block)
      requires Valid() && Alone() && Inv(l, View()) && phase == Running && l.Home(b)
      modifies this`cache
      ensures Valid() && Alone() && Inv(l, View()) && Abstract(l, View()) == old(Abstract(l, View()))
      ensures b in Abstract(l, View()).current && data == Abstract(l, View()).current[b]
    {
      hide CacheInv, PinInv, PhaseInv, SpaceInv, Distinct, Abstract;
      ghost var s := View();
      ReadRefines(l, s, b);
      data := Bread(b);
    }

    /** `bread`, a change of the block, `log_write` and `brelse`; or a panic of `log_write`. */
    method Update(b: int, data: Block) returns (ok: bool)
      requires Valid() && Alone() && Inv(l, View()) && phase == Running && l.Home(b)
      requires op.Some? ==> |op.value.used + {b}| <= MAXOPBLOCKS
      modifies this`cache, this`n, this`op, block
      ensures ok <==> old(op.Some? && n < LOGSIZE && n < l.nlog - 1)
      ensures !ok ==> n == old(n) && op == old(op) && block[..] == old(block[..])
      ensures ok ==> Valid() && Alone() && Inv(l, View()) && op == Some(Op(old(op).value.used + {b}, None))
      ensures ok ==> block[..n] == Absorb(old(block[..n]), b)
      ensures ok ==>
                Abstract(l, View()) == old(Abstract(l, View())).(current := old(Abstract(l, View()).current)[b := data])
    {
      hide Inv, Abstract, HomesOnly, Fits, HeadOf, Absorb;
      ghost var s := View();
      RunningIsBooted(l, s);
      var _ := Bread(b);
      if n >= LOGSIZE || n >= l.nlog - 1 || outstanding < 1 {
        return false;
      }
      UpdateRefines(l, s, b, data);
      cache := cache[b := Buf(data, true, None, false)];
      RecordBlock(b);
      op := Some(Op(op.value.used + {b}, None));
      assert View() == Updated(s, b, data);
      ok := true;
    }

    /** `commit`, as seen by recovery. */
    method CommitAll()
      requires Valid() && Alone() && Inv(l, View()) && phase == Copying(0) && n < l.nlog
      modifies this`disk, this`cache, this`disks, this`phase, this`n
      ensures Valid() && Alone() && Inv(l, View()) && n == 0 && Enabled(l, View(), EndCommit) && old(disks) <= disks
      ensures Abstract(l, View()).current == old(Abstract(l, View()).current)
      ensures OldOrNew(l, disks[|old(disks)|..], old(Abstract(l, View()).durable), old(Abstract(l, View()).current))
    {
      hide CacheInv, PinInv, PhaseInv, SpaceInv, Distinct, Abstract, Mean, OldOrNew;
      ghost var d0, n0, was, now := disks, n, Abstract(l, View()).durable, Abstract(l, View()).current;
      Commit();
      EitherMeaning(l, d0, n0, disks, was, now);
    }

    /** The last operation is over: the commit begins. */
    method StartCommit()
      requires Valid() && Alone() && Inv(l, View()) && phase == Running && op.Some?
      modifies this`phase, this`outstanding, this`op
      ensures Valid() && Alone() && Inv(l, View()) && phase == Copying(0) && op == None
      ensures Abstract(l, View()) == old(Abstract(l, View()))
    {
      hide CacheInv, PinInv, PhaseInv, SpaceInv, Abstract, HomesOnly, HeadOf;
      ghost var s := View();
      RunningIsBooted(l, s);
      EndReady(l, s);
      Refined(l, s, WriteAheadLog.EndOp(0));
      outstanding, op, phase := outstanding - 1, None, Copying(0);
      assert View() == Apply(l, s, WriteAheadLog.EndOp(0));
    }

    /** `end_op` of the only operation: the commit, and then the log is free again. Every disk on the way
        means either what was durable before or all that the operation wrote. */
    method EndOp()
      requires Valid() && Alone() && Inv(l, View()) && phase == Running && op.Some? && n < l.nlog
      modifies this`disk, this`cache, this`disks, this`phase, this`n, this`outstanding, this`op, this`booted
      ensures Quiet() && old(disks) <= disks
      ensures Abstract(l, View()).current == old(Abstract(l, View()).current)
      ensures OldOrNew(l, disks[|old(disks)|..], old(Abstract(l, View()).durable), old(Abstract(l, View()).current))
    {
      hide CacheInv, PinInv, PhaseInv, SpaceInv, Abstract, OldOrNew, HomesOnly, HeadOf;
      StartCommit();
      CommitAll();
      Resume();
    }
  }

  lemma BootState(l: Layout, s: Sys)
    requires Inv(l, s) && s.phase.Booting?
    ensures s.outstanding == 0 && Abstract(l, s).current == Abstract(l, s).durable
  {
    hide CacheInv, PinInv;
  }

  lemma RunningIsBooted(l: Layout, s: Sys)
    requires Inv(l, s) && s.phase.Running?
    ensures s.booted
  {
  }

  /** The state after process 0 has read, changed, logged and released block b. */
  function Updated(s: Sys, b: int, data: Block): Sys
    requires 0 <= b < |s.disk| && s.InOp(0)
  {
    LoggedAndReleased(Touched(s, b, data), b)
  }

  lemma UpdateRefines(l: Layout, s: Sys, b: int, data: Block)
    requires Inv(l, s) && s.booted && s.InOp(0) && l.Home(b) && s.Free(b)
    requires |s.lh| < l.nlog - 1 && |s.lh| < LOGSIZE && s.outstanding >= 1
    requires |s.ops[0].value.used + {b}| <= MAXOPBLOCKS
    ensures DiskInv(l, s) && DiskInv(l, Updated(s, b, data)) && Inv(l, Updated(s, b, data))
    ensures Abstract(l, Updated(s, b, data)) == Abstract(l, s).(current := Abstract(l, s).current[b := data])
  {
    TouchRefines(l, s, b, data);
    hide Inv, DiskInv, Abstract, Absorb;
    LogRefines(l, Touched(s, b, data), b);
  }

  lemma ReadRefines(l: Layout, s: Sys, b: int)
    requires Inv(l, s) && s.phase.Running? && 0 < |s.ops| && l.Home(b) && s.Free(b)
    ensures DiskInv(l, s) && DiskInv(l, s.Load(b)) && Inv(l, s.Load(b)) && Abstract(l, s.Load(b)) == Abstract(l, s)
    ensures b in Abstract(l, s).current && Abstract(l, s).current[b] == s.Val(b)
  {
    assert s.booted && (b in s.cache ==> !s.cache[b].modified);
    hide Inv, DiskInv, Absorb;
    Refined(l, s, WriteAheadLog.Bread(0, b));
    var s1 := Apply(l, s, WriteAheadLog.Bread(0, b));
    Refined(l, s1, Brelse(0, b));
    assert Apply(l, s1, Brelse(0, b)) == s.Load(b) by {
      assert Apply(l, s1, Brelse(0, b)).cache == s.Load(b).cache;
    }
  }

  /** Process 0 holds block b, which it has changed. */
  function Touched(s: Sys, b: int, data: Block): Sys
    requires 0 <= b < |s.disk|
  {
    s.(cache := s.Load(b).cache[b := Buf(data, s.Load(b).cache[b].dirty, Some(0), true)])
  }

  lemma TouchRefines(l: Layout, s: Sys, b: int, data: Block)
    requires Inv(l, s) && s.booted && s.InOp(0) && l.Home(b) && s.Free(b)
    ensures DiskInv(l, s) && DiskInv(l, Touched(s, b, data)) && Inv(l, Touched(s, b, data))
    ensures Abstract(l, Touched(s, b, data)) == Abstract(l, s).(current := Abstract(l, s).current[b := data])
  {
    TouchSteps(l, s, b, data);
    hide Inv, DiskInv, Abstract, Absorb, Enabled, Apply, Touched;
    Refined(l, s, WriteAheadLog.Bread(0, b));
    Refined(l, Apply(l, s, WriteAheadLog.Bread(0, b)), Modify(0, b, data));
  }

  lemma TouchSteps(l: Layout, s: Sys, b: int, data: Block)
    requires s.booted && s.InOp(0) && l.Home(b) && s.Free(b) && |s.disk| == l.size
    ensures Enabled(l, s, WriteAheadLog.Bread(0, b))
    ensures var s1 := Apply(l, s, WriteAheadLog.Bread(0, b));
            Enabled(l, s1, Modify(0, b, data)) && Apply(l, s1, Modify(0, b, data)) == Touched(s, b, data)
  {
    hide SetHead, HeadOf, Absorb;
  }

  /** The state after process 0 has logged and released block b. */
  function LoggedAndReleased(s: Sys, b: int): Sys
    requires s.InOp(0) && s.Holds(0, b)
  {
    s.(cache := s.cache[b := s.cache[b].(dirty := true, modified := false, holder := None)], lh := Absorb(s.lh, b),
       ops := s.ops[0 := Some(Op(s.ops[0].value.used + {b}, None))])
  }

  lemma LogRefines(l: Layout, s: Sys, b: int)
    requires Inv(l, s) && s.booted && s.InOp(0) && l.Home(b) && s.Holds(0, b)
    requires |s.lh| < l.nlog - 1 && |s.lh| < LOGSIZE && s.outstanding >= 1
    requires |s.ops[0].value.used + {b}| <= MAXOPBLOCKS
    ensures DiskInv(l, s) && DiskInv(l, LoggedAndReleased(s, b)) && Inv(l, LoggedAndReleased(s, b))
    ensures Abstract(l, LoggedAndReleased(s, b)) == Abstract(l, s)
  {
    hide Inv, DiskInv, Abstract, Absorb;
    Refined(l, s, LogGuard(0, b));
    var s1 := Apply(l, s, LogGuard(0, b));
    StoreFits(s1.lh, b);
    Refined(l, s1, LogStore(0, b));
    var s2 := Apply(l, s1, LogStore(0, b));
    Refined(l, s2, Brelse(0, b));
    assert Apply(l, s2, Brelse(0, b)) == LoggedAndReleased(s, b);
  }

  lemma Refined(l: Layout, s: Sys, st: Step)
    requires Inv(l, s) && Enabled(l, s, st)
    requires (st.LogStore? ==> |Absorb(s.lh, st.b)| < l.nlog) && (st.CopyLog? ==> Inside(l, s))
    ensures Inv(l, Apply(l, s, st)) && DiskInv(l, s) && DiskInv(l, Apply(l, s, st))
    ensures Abstract(l, Apply(l, s, st)) == SpecStep(Abstract(l, s), st)
  {
    StepRefines(l, s, st);
    hide CacheInv, PinInv, PhaseInv, SpaceInv, Distinct, Abstract, SpecStep;
  }

  /** The committer's next copy can be made: its blocks are on the disk, and nobody holds them. */
  lemma CommitReady(l: Layout, s: Sys, st: Step)
    requires Inv(l, s) && (forall b | b in s.cache :: s.cache[b].holder.None?) && (st.CopyLog? || st.Install?)
    requires if st.CopyLog? then s.phase.Copying? else s.phase.Installing?
    requires s.phase.tail < |s.lh|
    ensures DiskInv(l, s) && Enabled(l, s, st) && l.Home(s.lh[s.phase.tail]) && l.Slot(s.phase.tail) < |s.disk|
  {
    hide CacheInv, PinInv, PhaseInv, SpaceInv;
  }

  /** Both copies read the log block and the home block and write one of them. */
  lemma CopyIs(l: Layout, s: Sys)
    requires Enabled(l, s, CopyLog)
    ensures var t := s.phase.tail; var s1 := s.Load(l.Slot(t)).Load(s.lh[t]);
            Apply(l, s, CopyLog) == s1.Bwrite(l.Slot(t), s.Load(l.Slot(t)).Val(s.lh[t])).(phase := Copying(t + 1))
  {
  }

  lemma InstallIs(l: Layout, s: Sys)
    requires Enabled(l, s, Install)
    ensures var t := s.phase.tail; var s1 := s.Load(l.Slot(t)).Load(s.lh[t]);
            Apply(l, s, Install) == s1.Bwrite(s.lh[t], s.Val(l.Slot(t))).(phase := Installing(t + 1))
  {
  }

  lemma EndReady(l: Layout, s: Sys)
    requires Inv(l, s) && s.booted && s.InOp(0) && forall b | b in s.cache :: s.cache[b].holder.None?
    ensures Enabled(l, s, WriteAheadLog.EndOp(0))
  {
    hide PinInv, PhaseInv, DiskInv, SpaceInv;
  }

  lemma StoreFits(lh: seq<int>, b: int)
    ensures |Absorb(lh, b)| <= |lh| + 1
  {
  }

  lemma CommitEnds(l: Layout, s: Sys)
    requires Inv(l, s) && Enabled(l, s, EndCommit) && forall b | b in s.cache :: s.cache[b].holder.None?
    ensures var s' := Apply(l, s, EndCommit);
            && Inv(l, s') && Abstract(l, s').current == Abstract(l, s).current
            && Abstract(l, s').durable == Abstract(l, s').current
  {
    StepRefines(l, s, EndCommit);
    CommitLeavesCacheClean(l, s);
    QuietIsDurable(l, Apply(l, s, EndCommit));
  }

  /** With an empty log and clean buffers, what readers see is what a crash would leave. */
  lemma QuietIsDurable(l: Layout, s: Sys)
    requires DiskInv(l, s) && s.booted && HeadOf(s.disk[l.start]) == []
    requires forall b | b in s.cache :: 0 <= b < |s.disk| && s.cache[b].data == s.disk[b]
    ensures Abstract(l, s).durable == Abstract(l, s).current
  {
  }

  /** To recovery, each of these disks means one or the other. */
  ghost predicate OldOrNew(l: Layout, disks: seq<seq<Block>>, was: map<int, Block>, now: map<int, Block>)
    requires l.Valid()
  {
    forall k | 0 <= k < |disks| :: Means(l, disks[k], was) || Means(l, disks[k], now)
  }

  lemma EitherMeaning(l: Layout, d0: seq<seq<Block>>, n: nat, d: seq<seq<Block>>, was: map<int, Block>,
                      now: map<int, Block>)
    requires l.Valid() && d0 <= d
    requires n > 0 ==> |d0| + n <= |d| && Mean(l, d[|d0|..|d0| + n], was) && Mean(l, d[|d0| + n..], now)
    requires n == 0 ==> d == d0
    ensures OldOrNew(l, d[|d0|..], was, now)
  {
    hide Means;
    var e := d[|d0|..];
    forall k | 0 <= k < |e| ensures Means(l, e[k], was) || Means(l, e[k], now) {
      assert if k < n then e[k] == d[|d0|..|d0| + n][k] else e[k] == d[|d0| + n..][k - n];
    }
  }

  lemma MeanNow(l: Layout, s: Sys)
    requires DiskInv(l, s) && s.disk[l.start][0] <= LOGSIZE
    ensures Mean(l, [s.disk], Abstract(l, s).durable)
  {
  }

  lemma MeanConcat(l: Layout, a: seq<seq<Block>>, b: seq<seq<Block>>, d: map<int, Block>)
    requires l.Valid() && Mean(l, a, d) && Mean(l, b, d)
    ensures Mean(l, a + b, d)
  {
  }

  lemma CommitTrace(l: Layout, d0: seq<seq<Block>>, d1: seq<seq<Block>>, d2: seq<seq<Block>>,
                    d3: seq<seq<Block>>, d4: seq<seq<Block>>, was: map<int, Block>, now: map<int, Block>)
    requires l.Valid() && d0 <= d1 && d1 <= d2 <= d3 <= d4
    requires |d2| == |d1| + 1 && |d4| == |d3| + 1
    requires Mean(l, d1[|d0|..], was) && Mean(l, [d2[|d1|]], now)
    requires Mean(l, d3[|d2|..], now) && Mean(l, [d4[|d3|]], now)
    ensures d0 <= d4 && Mean(l, d4[|d0|..|d1|], was) && Mean(l, d4[|d1|..], now)
  {
    assert d4[|d0|..|d1|] == d1[|d0|..];
    assert d4[|d1|..] == [d2[|d1|]] + d3[|d2|..] + [d4[|d3|]];
    hide Mean;
    MeanConcat(l, [d2[|d1|]], d3[|d2|..], now);
    MeanConcat(l, [d2[|d1|]] + d3[|d2|..], [d4[|d3|]], now);
  }

  /** With an empty log, recovery would leave the home blocks as they are. */
  lemma EmptyLogDisk(l: Layout, s: Sys)
    requires DiskInv(l, s) && HeadOf(s.disk[l.start]) == []
    ensures forall b | l.Home(b) :: Abstract(l, s).durable[b] == s.disk[b]
  {
  }

  /** To recovery, this disk means d. */
  ghost predicate Means(l: Layout, disk: seq<Block>, d: map<int, Block>)
    requires l.Valid()
  {
    |disk| == l.size && Loggable(l, HeadOf(disk[l.start])) && disk[l.start][0] <= LOGSIZE && DurableOf(l, disk) == d
  }

  /** To recovery, each of these disks means d. */
  ghost predicate Mean(l: Layout, disks: seq<seq<Block>>, d: map<int, Block>)
    requires l.Valid()
  {
    forall k | 0 <= k < |disks| :: Means(l, disks[k], d)
  }
}
