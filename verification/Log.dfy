/** The write-ahead log (log.c) above the buffer cache (bio.c), as a system of steps.

    Any number of processes interleave `bread`, modification, `log_write`, `brelse`,
    `begin_op` and `end_op`; the committer and crash recovery take one step per disk
    block written; the machine may crash between any two steps. */
module WriteAheadLog {
  import opened Basics

  const WORDS := 128 // BSIZE / sizeof(int)

  /** A disk block, seen as the words that the log header is made of. */
  type Block = b: seq<int> | |b| == WORDS witness seq(WORDS, _ => 0)

  // ---------- the on-disk log header ----------

  /** `read_head`: the block numbers recorded in a header block. */
  function HeadOf(b: Block): seq<int> {
    if 0 <= b[0] <= LOGSIZE then b[1..1 + b[0]] else []
  }

  /** `write_head`: the words after the recorded numbers keep their old contents. */
  function SetHead(b: Block, lh: seq<int>): Block
    requires |lh| <= LOGSIZE
  {
    [|lh|] + lh + b[1 + |lh|..]
  }

  lemma HeadRoundTrip(b: Block, lh: seq<int>)
    requires |lh| <= LOGSIZE
    ensures HeadOf(SetHead(b, lh)) == lh
  {
    assert SetHead(b, lh)[1..1 + |lh|] == lh;
  }

  // ---------- state ----------

  /** Where the log lies: header block `start`, then `nlog - 1` log blocks. */
  datatype Layout = Layout(start: nat, nlog: nat, size: nat) {
    ghost predicate Valid() { 0 < nlog && start + nlog <= size }

    predicate Home(b: int) { 0 <= b < size && !(start <= b < start + nlog) }

    function Slot(tail: nat): nat { start + 1 + tail }
  }

  /** A cached block. `modified` marks data changed by the lock holder and not yet logged. */
  datatype Buf = Buf(data: Block, dirty: bool, holder: Option<nat>, modified: bool)

  /** A file system operation in progress: the distinct blocks it has logged, and the
      block for which it has passed the unlocked test at the top of `log_write`. */
  datatype Op = Op(used: set<int>, guarded: Option<int>)

  datatype Phase = Running | Copying(tail: nat) | Installing(tail: nat) | Clearing | Done | Booting

  datatype Sys = Sys(
    disk: seq<Block>,
    cache: map<int, Buf>,
    lh: seq<int>,
    ops: seq<Option<Op>>,
    outstanding: int,
    committing: bool,
    phase: Phase,
    booted: bool)
  {
    predicate Free(b: int) { b in cache ==> cache[b].holder.None? }

    predicate Holds(p: nat, b: int) { b in cache && cache[b].holder == Some(p) }

    predicate InOp(p: nat) { p < |ops| && ops[p].Some? }

    /** What `bread` finds: the cached copy, or else the disk block. */
    function Val(b: int): Block
      requires 0 <= b < |disk|
    {
      if b in cache then cache[b].data else disk[b]
    }

    function Load(b: int): Sys
      requires 0 <= b < |disk|
    {
      if b in cache then this else this.(cache := cache[b := Buf(disk[b], false, None, false)])
    }

    /** `bwrite` of data into block b: written through, and clean afterwards. */
    function Bwrite(b: int, data: Block): Sys
      requires 0 <= b < |disk|
    {
      this.(disk := disk[b := data], cache := cache[b := Buf(data, false, None, false)])
    }
  }

  // ---------- steps ----------

  datatype Step =
    | Bread(p: nat, b: int)
    | Modify(p: nat, b: int, data: Block)
    | LogGuard(p: nat, b: int)
    | LogStore(p: nat, b: int)
    | Brelse(p: nat, b: int)
    | Evict(b: int)
    | BeginOp(p: nat)
    | EndOp(p: nat)
    | CopyLog
    | CommitHead
    | Install
    | ForgetLog
    | ClearHead
    | EndCommit
    | Crash
    | ReadHead

  /** When a step may be taken. The conditions on `Home`, on `modified` and on the number
      of blocks per operation are what log.c asks of the file system code above it. */
  predicate Enabled(l: Layout, s: Sys, st: Step) {
    match st
    case Bread(p, b) => s.booted && p < |s.ops| && 0 <= b < |s.disk| && s.Free(b)
    case Modify(p, b, _) => s.booted && s.InOp(p) && s.Holds(p, b) && l.Home(b)
    case LogGuard(p, b) =>
      s.booted && s.InOp(p) && s.Holds(p, b) && l.Home(b) && |s.lh| < LOGSIZE && |s.lh| < l.nlog - 1
        && s.outstanding >= 1
    case LogStore(p, b) =>
      s.booted && s.InOp(p) && s.Holds(p, b) && l.Home(b) && s.ops[p].value.guarded == Some(b)
      && |s.ops[p].value.used + {b}| <= MAXOPBLOCKS
    case Brelse(p, b) => s.booted && s.Holds(p, b) && !s.cache[b].modified
    case Evict(b) => b in s.cache && s.Free(b) && !s.cache[b].dirty && !s.cache[b].modified
    case BeginOp(p) =>
      s.booted && p < |s.ops| && s.ops[p].None? && !s.committing
      && |s.lh| + (s.outstanding + 1) * MAXOPBLOCKS <= LOGSIZE
    case EndOp(p) =>
      s.booted && s.InOp(p) && forall b | b in s.cache :: s.Holds(p, b) ==> !s.cache[b].modified
    case CopyLog =>
      s.phase.Copying? && s.phase.tail < |s.lh|
      && 0 <= s.lh[s.phase.tail] < |s.disk| && l.Slot(s.phase.tail) < |s.disk|
      && s.Free(s.lh[s.phase.tail]) && s.Free(l.Slot(s.phase.tail))
    case CommitHead =>
      s.phase.Copying? && s.phase.tail == |s.lh| && 0 < |s.lh| <= LOGSIZE && l.start < |s.disk| && s.Free(l.start)
    case Install =>
      s.phase.Installing? && s.phase.tail < |s.lh|
      && 0 <= s.lh[s.phase.tail] < |s.disk| && l.Slot(s.phase.tail) < |s.disk|
      && s.Free(s.lh[s.phase.tail]) && s.Free(l.Slot(s.phase.tail))
    case ForgetLog => s.phase.Installing? && s.phase.tail == |s.lh|
    case ClearHead => s.phase.Clearing? && l.start < |s.disk| && s.Free(l.start)
    case EndCommit => s.phase.Done? || (s.phase.Copying? && s.lh == [])
    case Crash => true
    case ReadHead => s.phase.Booting? && l.start < |s.disk|
  }

  /** `log_write` under the lock: an already logged block is absorbed. */
  function Absorb(lh: seq<int>, b: int): (r: seq<int>) {
    if b in lh then lh else lh + [b]
  }

  function DoLogStore(s: Sys, p: nat, b: int): Sys
    requires s.InOp(p) && s.Holds(p, b)
  {
    s.(lh := Absorb(s.lh, b),
       cache := s.cache[b := s.cache[b].(dirty := true, modified := false)],
       ops := s.ops[p := Some(Op(s.ops[p].value.used + {b}, None))])
  }

  function DoEndOp(s: Sys, p: nat): Sys
    requires s.InOp(p)
  {
    var s1 := s.(ops := s.ops[p := None], outstanding := s.outstanding - 1);
    if s1.outstanding == 0 then s1.(committing := true, phase := Copying(0)) else s1
  }

  function DoCopyLog(l: Layout, s: Sys): Sys
    requires Enabled(l, s, CopyLog)
  {
    var t := s.phase.tail;
    var s1 := s.Load(l.Slot(t)).Load(s.lh[t]);
    s1.Bwrite(l.Slot(t), s1.cache[s.lh[t]].data).(phase := Copying(t + 1))
  }

  function DoInstall(l: Layout, s: Sys): Sys
    requires Enabled(l, s, Install)
  {
    var t := s.phase.tail;
    var s1 := s.Load(l.Slot(t)).Load(s.lh[t]);
    s1.Bwrite(s.lh[t], s1.cache[l.Slot(t)].data).(phase := Installing(t + 1))
  }

  function DoCrash(s: Sys): Sys {
    Sys(s.disk, map[], [], seq(|s.ops|, _ => None), 0, false, Booting, false)
  }

  function Apply(l: Layout, s: Sys, st: Step): Sys
    requires Enabled(l, s, st)
  {
    match st
    case Bread(p, b) => var s1 := s.Load(b); s1.(cache := s1.cache[b := s1.cache[b].(holder := Some(p))])
    case Modify(p, b, data) => s.(cache := s.cache[b := s.cache[b].(data := data, modified := true)])
    case LogGuard(p, b) => s.(ops := s.ops[p := Some(s.ops[p].value.(guarded := Some(b)))])
    case LogStore(p, b) => DoLogStore(s, p, b)
    case Brelse(p, b) => s.(cache := s.cache[b := s.cache[b].(holder := None)])
    case Evict(b) => s.(cache := s.cache - {b})
    case BeginOp(p) => s.(ops := s.ops[p := Some(Op({}, None))], outstanding := s.outstanding + 1)
    case EndOp(p) => DoEndOp(s, p)
    case CopyLog => DoCopyLog(l, s)
    case CommitHead => s.Bwrite(l.start, SetHead(s.Val(l.start), s.lh)).(phase := Installing(0))
    case Install => DoInstall(l, s)
    case ForgetLog => s.(lh := [], phase := Clearing)
    case ClearHead => s.Bwrite(l.start, SetHead(s.Val(l.start), [])).(phase := Done)
    case EndCommit => s.(committing := false, phase := Running, booted := true)
    case Crash => DoCrash(s)
    case ReadHead => s.Load(l.start).(lh := HeadOf(s.Val(l.start)), phase := Installing(0))
  }

  // ---------- log space ----------

  /** Log blocks that the operations in progress may still take. */
  function Reserved(ops: seq<Option<Op>>): int {
    if ops == [] then 0
    else Reserved(ops[..|ops| - 1]) + ReservedBy(ops[|ops| - 1])
  }

  function ReservedBy(o: Option<Op>): int {
    if o.None? then 0 else MAXOPBLOCKS - |o.value.used|
  }

  function Active(ops: seq<Option<Op>>): nat {
    if ops == [] then 0
    else Active(ops[..|ops| - 1]) + if ops[|ops| - 1].None? then 0 else 1
  }

  lemma {:induction false} OpsUpdate(ops: seq<Option<Op>>, p: nat, o: Option<Op>)
    requires p < |ops|
    ensures Reserved(ops[p := o]) == Reserved(ops) - ReservedBy(ops[p]) + ReservedBy(o)
    ensures Active(ops[p := o]) == Active(ops) - (if ops[p].None? then 0 else 1) + (if o.None? then 0 else 1)
  {
    var n := |ops| - 1;
    if p == n {
      assert ops[p := o][..n] == ops[..n];
    } else {
      assert ops[p := o][..n] == ops[..n][p := o];
      OpsUpdate(ops[..n], p, o);
    }
  }

  lemma {:induction false} NoOps(ops: seq<Option<Op>>)
    ensures Active(ops) == 0 <==> forall p | 0 <= p < |ops| :: ops[p].None?
    ensures Active(ops) == 0 ==> Reserved(ops) == 0
  {
    if ops != [] { NoOps(ops[..|ops| - 1]); }
  }

  lemma {:induction false} ReservedNonNegative(ops: seq<Option<Op>>)
    requires forall p | 0 <= p < |ops| :: ops[p].Some? ==> |ops[p].value.used| <= MAXOPBLOCKS
    ensures 0 <= Reserved(ops)
  {
    if ops != [] { ReservedNonNegative(ops[..|ops| - 1]); }
  }

  /** The reservation invariant: logged blocks plus unused reservations fit in the log. */
  ghost predicate SpaceInv(s: Sys) {
    && s.outstanding == Active(s.ops)
    && |s.lh| + Reserved(s.ops) <= LOGSIZE
    && (forall p | 0 <= p < |s.ops| :: s.ops[p].Some? ==>
          |s.ops[p].value.used| <= MAXOPBLOCKS && forall b | b in s.ops[p].value.used :: b in s.lh)
    && (s.committing ==> s.outstanding == 0)
    && (s.committing <==> s.booted && !s.phase.Running?)
    && (!s.booted ==> s.outstanding == 0)
  }
}
