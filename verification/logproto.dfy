/**
 The block cache and its write-ahead log as a state machine.

 Every action is one critical section, one block transferred to or from the device, or
 one change a client makes to a block it holds locked. Any number of threads interleave,
 and a crash may fall between any two actions. Recovery runs the same install loop as a
 commit does, so a crash simply restarts at that loop with an empty cache.
 */
module LogProtocol {
  import opened Common
  import opened Bytes

  const OP_MAX_NUM_BLOCKS: nat := 10
  const EVICTION_THRESHOLD: nat := 20
  const LOG_MAX_SIZE: nat := 63

  type Tid = nat
  type Disk = map<nat, Block>

  /** The part of the super block the log needs. */
  datatype Layout = Layout(numBlocks: nat, numLogBlocks: nat, logStart: nat) {
    predicate Valid() {
      && 1 <= numLogBlocks
      && logStart + numLogBlocks <= numBlocks <= 0x1_0000_0000
    }

    /** A block outside the log area. */
    predicate Home(b: nat) {
      b < numBlocks && !(logStart <= b < logStart + numLogBlocks)
    }

    /** The log block that holds the copy of header entry `i`. */
    function LogBlock(i: nat): nat {
      logStart + 1 + i
    }

    /** How many blocks one group commit may log. */
    function LogSpace(): nat
      requires Valid()
    {
      if numLogBlocks - 1 < LOG_MAX_SIZE then numLogBlocks - 1 else LOG_MAX_SIZE
    }
  }

  // ---------------------------------------------------------------- log header

  type U64 = v: int | 0 <= v < 0x1_0000_0000_0000_0000

  datatype LogHeader = LogHeader(num: U64, blockNo: seq<U64>)

  /** The on-disk image of a header: its count and then its block numbers. */
  function HeaderBlock(h: LogHeader): Block
    requires |h.blockNo| == LOG_MAX_SIZE
  {
    WordBytes([h.num] + h.blockNo, 8)
  }

  lemma Pow256Of8()
    ensures Pow256(8) == 0x1_0000_0000_0000_0000
  {
    assert Pow256(4) == 0x1_0000_0000;
    assert Pow256(8) == 0x1_0000_0000 * Pow256(4);
  }

  function WordAt(b: Block, i: nat): U64
    requires i <= LOG_MAX_SIZE
  {
    Pow256Of8();
    LeBound(b[i * 8..i * 8 + 8]);
    GetWord(b, 8, i)
  }

  function HeaderOf(b: Block): LogHeader {
    LogHeader(WordAt(b, 0), seq(LOG_MAX_SIZE, i requires 0 <= i < LOG_MAX_SIZE => WordAt(b, i + 1)))
  }

  /** The count stands in the first eight bytes of the header block, entry `i` in the eight from `8 + 8 * i` on. */
  lemma HeaderLayout(h: LogHeader, i: nat)
    requires |h.blockNo| == LOG_MAX_SIZE && i < LOG_MAX_SIZE
    ensures StoredAt(HeaderBlock(h), 0, 8, h.num) && StoredAt(HeaderBlock(h), 8 + 8 * i, 8, h.blockNo[i])
  {
    var ws := [h.num] + h.blockNo;
    WordsStored(ws, 8, 0, 0);
    WordsStored(ws, 8, i + 1, 8 + 8 * i);
  }

  /** A header written to disk is read back unchanged. */
  lemma HeaderRoundTrip(h: LogHeader)
    requires |h.blockNo| == LOG_MAX_SIZE
    ensures HeaderOf(HeaderBlock(h)) == h
  {
    Pow256Of8();
    var ws := [h.num] + h.blockNo;
    GetWordBytes(ws, 8, 0);
    forall i | 0 <= i < LOG_MAX_SIZE
      ensures WordAt(HeaderBlock(h), i + 1) == h.blockNo[i]
    {
      assert ws[i + 1] == h.blockNo[i];
      GetWordBytes(ws, 8, i + 1);
    }
    assert HeaderOf(HeaderBlock(h)).blockNo == h.blockNo;
  }

  /** The first entry of a header that names block `b`, or `num` when none does. */
  function Slot(h: LogHeader, b: nat, from: nat := 0): (i: nat)
    requires from <= h.num <= |h.blockNo|
    ensures from <= i <= h.num
    ensures i < h.num ==> h.blockNo[i] == b
    decreases h.num - from
  {
    if from == h.num || h.blockNo[from] == b then from else Slot(h, b, from + 1)
  }

  lemma {:induction false} SlotIsFirst(h: LogHeader, b: nat, from: nat, j: nat)
    requires from <= j < h.num <= |h.blockNo| && h.blockNo[j] == b
    ensures Slot(h, b, from) <= j
    decreases j - from
  {
    if h.blockNo[from] != b {
      SlotIsFirst(h, b, from + 1, j);
    }
  }

  /** The entries in use name different home blocks and fit both the header and the log area. */
  ghost predicate HeaderOk(l: Layout, h: LogHeader)
    requires l.Valid()
  {
    && |h.blockNo| == LOG_MAX_SIZE
    && h.num <= l.LogSpace()
    && (forall i :: 0 <= i < h.num ==> l.Home(h.blockNo[i]) && Slot(h, h.blockNo[i]) == i)
  }

  // ---------------------------------------------------------------- states

  /** A cached block. `holder` and `waiters` are its sleep lock: the owner and the sleepers, newest first. */
  datatype Buf = Buf(data: Block, valid: bool, pinned: bool, acquired: bool,
                     holder: Option<Tid>, waiters: seq<Tid>)

  /** Where the thread that commits, or the boot thread that recovers, has got to. */
  datatype Phase =
    | Idle
    | WriteLog(c: Tid, i: nat)
    | Install(c: Tid, i: nat, boot: bool)
    | Cleared(c: Tid)

  /**
   `lru` lists the cached block numbers, most recently used first. `ops` maps each outstanding
   operation to the blocks it may still log (`rm`). `dirty` is the set of blocks changed by
   their holder since its last `sync`. `ended` are the threads on their way to sleep on
   `end_sem`, `sleepers` those asleep on it, `posting` the committers still to wake them.
   */
  datatype State = State(disk: Disk, bufs: map<nat, Buf>, lru: seq<nat>, hdr: LogHeader,
                         outstanding: nat, committing: bool, realUse: nat,
                         ops: map<Tid, nat>, dirty: set<nat>, phase: Phase,
                         ended: set<Tid>, sleepers: set<Tid>, posting: set<Tid>)

  predicate Booting(s: State) {
    s.phase.Install? && s.phase.boot
  }

  /** Clients stay out of the log area; only the committing or recovering thread enters it. */
  predicate MayAcquire(l: Layout, s: State, t: Tid, b: nat) {
    l.Home(b) || (!s.phase.Idle? && s.phase.c == t && l.logStart < b < l.logStart + l.numLogBlocks)
  }

  predicate Held(s: State, t: Tid, b: nat) {
    b in s.bufs && s.bufs[b].valid && s.bufs[b].holder == Some(t)
  }

  /** The two blocks of step `i` of a copy loop are locked by the thread that runs it. */
  predicate HoldsPair(l: Layout, s: State, t: Tid, i: nat) {
    && i < s.hdr.num <= |s.hdr.blockNo|
    && Held(s, t, s.hdr.blockNo[i])
    && Held(s, t, l.LogBlock(i))
  }

  // ---------------------------------------------------------------- actions

  function Put(s: State, b: nat, c: Buf): State {
    s.(bufs := s.bufs[b := c])
  }

  function HitNext(s: State, t: Tid, b: nat): State
    requires b in s.bufs
  {
    var c := s.bufs[b];
    if c.holder.None? then Put(s, b, c.(acquired := true, holder := Some(t)))
    else Put(s, b, c.(acquired := true, waiters := [t] + c.waiters))
  }

  function MissNext(s: State, t: Tid, b: nat): State {
    Put(s, b, Buf(Zeros(BLOCK_SIZE), false, false, true, Some(t), [])).(lru := [b] + s.lru)
  }

  function LoadNext(s: State, b: nat): State
    requires b in s.bufs && b in s.disk
  {
    Put(s, b, s.bufs[b].(data := s.disk[b], valid := true))
  }

  function TouchNext(s: State, b: nat): State {
    s.(lru := [b] + Without(s.lru, b))
  }

  predicate MayEvict(s: State) {
    && |s.lru| > EVICTION_THRESHOLD
    && var b := s.lru[|s.lru| - 1]; b in s.bufs && !s.bufs[b].pinned && !s.bufs[b].acquired
  }

  function EvictNext(s: State): State
    requires s.lru != []
  {
    s.(lru := s.lru[..|s.lru| - 1], bufs := s.bufs - {s.lru[|s.lru| - 1]})
  }

  function ReleaseNext(s: State, b: nat): State
    requires b in s.bufs
  {
    var c := s.bufs[b];
    if c.waiters == [] then Put(s, b, c.(acquired := false, holder := None))
    else var n := |c.waiters| - 1; Put(s, b, c.(holder := Some(c.waiters[n]), waiters := c.waiters[..n]))
  }

  function BeginNext(s: State, t: Tid): State {
    s.(outstanding := s.outstanding + 1, ops := s.ops[t := OP_MAX_NUM_BLOCKS],
       realUse := s.realUse + OP_MAX_NUM_BLOCKS)
  }

  function ModifyNext(s: State, b: nat, data: Block): State
    requires b in s.bufs
  {
    Put(s, b, s.bufs[b].(data := data)).(dirty := s.dirty + {b})
  }

  /** The operation may log the block: it is logged already, or there is reserved space left. */
  predicate SyncFits(l: Layout, s: State, t: Tid, b: nat)
    requires l.Valid()
  {
    && l.Home(b) && t in s.ops
    && s.hdr.num <= |s.hdr.blockNo| == LOG_MAX_SIZE
    && (Slot(s.hdr, b) == s.hdr.num ==> 0 < s.ops[t] && s.hdr.num < LOG_MAX_SIZE)
  }

  function SyncNext(l: Layout, s: State, t: Tid, b: nat): State
    requires l.Valid() && b in s.bufs && SyncFits(l, s, t, b)
  {
    var s' := Put(s, b, s.bufs[b].(pinned := true)).(dirty := s.dirty - {b});
    var i := Slot(s.hdr, b);
    if i < s.hdr.num then s'
    else s'.(hdr := LogHeader(s.hdr.num + 1, s.hdr.blockNo[i := b]), ops := s.ops[t := s.ops[t] - 1])
  }

  /** A `sync` that belongs to no operation: the block goes to its home at once. */
  function DirectNext(s: State, b: nat): State
    requires b in s.bufs
  {
    s.(disk := s.disk[b := s.bufs[b].data], dirty := s.dirty - {b})
  }

  function EndNext(s: State, t: Tid): State
    requires t in s.ops && 0 < s.outstanding && s.ops[t] <= s.realUse
  {
    var s' := s.(outstanding := s.outstanding - 1, realUse := s.realUse - s.ops[t], ops := s.ops - {t});
    if s'.outstanding == 0 then s'.(committing := true, phase := WriteLog(t, 0))
    else s'.(ended := s.ended + {t})
  }

  /** Copies buffer `from` to log block `to`, in memory and on disk. */
  function LogCopyNext(l: Layout, s: State): State
    requires s.phase.WriteLog? && HoldsPair(l, s, s.phase.c, s.phase.i)
  {
    var from, to := s.hdr.blockNo[s.phase.i], l.LogBlock(s.phase.i);
    var data := s.bufs[from].data;
    Put(s, to, s.bufs[to].(data := data)).(disk := s.disk[to := data], phase := WriteLog(s.phase.c, s.phase.i + 1))
  }

  function WriteHeaderNext(l: Layout, s: State): State
    requires s.phase.WriteLog? && |s.hdr.blockNo| == LOG_MAX_SIZE
  {
    s.(disk := s.disk[l.logStart := HeaderBlock(s.hdr)], phase := Install(s.phase.c, 0, false))
  }

  /** Copies log block `from` to its home block `to`, in memory and on disk, and unpins it. */
  function InstallCopyNext(l: Layout, s: State): State
    requires s.phase.Install? && HoldsPair(l, s, s.phase.c, s.phase.i)
  {
    var from, to := l.LogBlock(s.phase.i), s.hdr.blockNo[s.phase.i];
    var data := s.bufs[from].data;
    Put(s, to, s.bufs[to].(data := data, pinned := false))
    .(disk := s.disk[to := data], phase := Install(s.phase.c, s.phase.i + 1, s.phase.boot))
  }

  function ClearHeaderNext(l: Layout, s: State): State
    requires s.phase.Install? && |s.hdr.blockNo| == LOG_MAX_SIZE
  {
    var h := s.hdr.(num := 0);
    s.(hdr := h, disk := s.disk[l.logStart := HeaderBlock(h)],
       phase := if s.phase.boot then Idle else Cleared(s.phase.c))
  }

  function FinishNext(s: State): State
    requires s.phase.Cleared?
  {
    s.(committing := false, realUse := 0, phase := Idle, posting := s.posting + {s.phase.c})
  }

  /** Power returns: only the disk survives, and boot thread `t` has read the header. */
  function Boot(l: Layout, d: Disk, t: Tid): State
    requires l.logStart in d
  {
    State(d, map[], [], HeaderOf(d[l.logStart]), 0, false, 0, map[], {}, Install(t, 0, true), {}, {}, {})
  }

  datatype Action =
    | AcquireHit(t: Tid, b: nat)
    | AcquireMiss(t: Tid, b: nat)
    | Load(t: Tid, b: nat)
    | Touch(t: Tid, b: nat)
    | Evict
    | Release(t: Tid, b: nat)
    | Begin(t: Tid)
    | Modify(t: Tid, b: nat, data: Block)
    | Sync(t: Tid, b: nat)
    | Direct(t: Tid, b: nat)
    | End(t: Tid)
    | LogCopy
    | WriteHeader
    | InstallCopy
    | ClearHeader
    | Finish
    | Sleep(t: Tid)
    | PostEnd(t: Tid)
    | Crash(t: Tid)

  /** What the code, and the rules its callers must follow, allow in state `s`. */
  predicate Enabled(l: Layout, s: State, a: Action)
    requires l.Valid()
  {
    match a
    case AcquireHit(t, b) => MayAcquire(l, s, t, b) && b in s.bufs
    case AcquireMiss(t, b) => MayAcquire(l, s, t, b) && b !in s.bufs
    case Load(t, b) => b in s.bufs && b in s.disk && !s.bufs[b].valid && s.bufs[b].holder == Some(t)
    case Touch(t, b) => Held(s, t, b)
    case Evict => MayEvict(s)
    case Release(t, b) => Held(s, t, b) && b !in s.dirty
    case Begin(t) =>
      && t !in s.ops && !s.committing && !Booting(s)
      && s.realUse + OP_MAX_NUM_BLOCKS <= l.numLogBlocks - 1
      && s.realUse + OP_MAX_NUM_BLOCKS <= LOG_MAX_SIZE
    case Modify(t, b, _) => Held(s, t, b) && t in s.ops && l.Home(b)
    case Sync(t, b) => Held(s, t, b) && SyncFits(l, s, t, b)
    case Direct(t, b) => Held(s, t, b) && l.Home(b) && !Booting(s)
    case End(t) =>
      && t in s.ops && 0 < s.outstanding && s.ops[t] <= s.realUse
      && forall b :: b in s.dirty ==> !Held(s, t, b)
    case LogCopy => s.phase.WriteLog? && HoldsPair(l, s, s.phase.c, s.phase.i)
    case WriteHeader => s.phase.WriteLog? && s.phase.i == s.hdr.num && |s.hdr.blockNo| == LOG_MAX_SIZE
    case InstallCopy => s.phase.Install? && HoldsPair(l, s, s.phase.c, s.phase.i)
    case ClearHeader => s.phase.Install? && s.phase.i == s.hdr.num && |s.hdr.blockNo| == LOG_MAX_SIZE
    case Finish => s.phase.Cleared?
    case Sleep(t) => t in s.ended
    case PostEnd(t) => t in s.posting
    case Crash(_) => l.logStart in s.disk
  }

  function Next(l: Layout, s: State, a: Action): State
    requires l.Valid() && Enabled(l, s, a)
  {
    match a
    case AcquireHit(t, b) => HitNext(s, t, b)
    case AcquireMiss(t, b) => MissNext(s, t, b)
    case Load(t, b) => LoadNext(s, b)
    case Touch(t, b) => TouchNext(s, b)
    case Evict => EvictNext(s)
    case Release(t, b) => ReleaseNext(s, b)
    case Begin(t) => BeginNext(s, t)
    case Modify(t, b, data) => ModifyNext(s, b, data)
    case Sync(t, b) => SyncNext(l, s, t, b)
    case Direct(t, b) => DirectNext(s, b)
    case End(t) => EndNext(s, t)
    case LogCopy => LogCopyNext(l, s)
    case WriteHeader => WriteHeaderNext(l, s)
    case InstallCopy => InstallCopyNext(l, s)
    case ClearHeader => ClearHeaderNext(l, s)
    case Finish => FinishNext(s)
    case Sleep(t) => s.(ended := s.ended - {t}, sleepers := s.sleepers + {t})
    case PostEnd(t) => s.(posting := s.posting - {t}, sleepers := {})
    case Crash(t) => Boot(l, s.disk, t)
  }

  /** The state after the actions, or `None` when one of them was not enabled. */
  function Exec(l: Layout, s: State, acts: seq<Action>): Option<State>
    requires l.Valid()
    decreases |acts|
  {
    if acts == [] then Some(s)
    else if Enabled(l, s, acts[0]) then Exec(l, Next(l, s, acts[0]), acts[1..])
    else None
  }

  // ---------------------------------------------------------------- invariant

  ghost predicate DiskOk(l: Layout, d: Disk)
    requires l.Valid()
  {
    && (forall b :: 0 <= b < l.numBlocks ==> b in d)
    && HeaderOk(l, HeaderOf(d[l.logStart]))
  }

  /** What block `b` will hold once the log found on `d` has been replayed. */
  function RecoveredAt(l: Layout, d: Disk, b: nat): Block
    requires l.Valid() && DiskOk(l, d) && l.Home(b)
  {
    var h := HeaderOf(d[l.logStart]);
    var i := Slot(h, b);
    if i < h.num then d[l.LogBlock(i)] else d[b]
  }

  /** The contents a fresh boot would give the home blocks: what has been committed. */
  function Durable(l: Layout, s: State): map<nat, Block>
    requires l.Valid() && DiskOk(l, s.disk)
  {
    map b | 0 <= b < l.numBlocks && l.Home(b) :: RecoveredAt(l, s.disk, b)
  }

  function CachedAt(d: Disk, bufs: map<nat, Buf>, b: nat): Block
    requires b in d
  {
    if b in bufs && bufs[b].valid then bufs[b].data else d[b]
  }

  /** The contents the home blocks have for whoever acquires them next. */
  function Mem(l: Layout, s: State): map<nat, Block>
    requires l.Valid() && DiskOk(l, s.disk)
  {
    if Booting(s) then Durable(l, s)
    else map b | 0 <= b < l.numBlocks && l.Home(b) :: CachedAt(s.disk, s.bufs, b)
  }

  ghost function SumRm(ops: map<Tid, nat>): nat
    decreases |ops.Keys|
  {
    if ops == map[] then 0
    else
      var t :| t in ops;
      assert (ops - {t}).Keys == ops.Keys - {t};
      ops[t] + SumRm(ops - {t})
  }

  /** A block that is neither pinned nor being changed equals its disk copy. */
  ghost predicate BufOk(l: Layout, d: Disk, dirty: set<nat>, owners: set<Tid>, b: nat, c: Buf) {
    && b < l.numBlocks && b != l.logStart && b in d
    && (c.acquired <==> c.holder.Some?)
    && (c.holder.None? ==> c.waiters == [])
    && (!c.valid ==> c.holder.Some? && !c.pinned && b !in dirty)
    && (c.valid && !c.pinned && b !in dirty ==> c.data == d[b])
    && (b in dirty ==> l.Home(b) && c.holder.Some? && c.holder.value in owners)
  }

  ghost predicate CacheOk(l: Layout, d: Disk, bufs: map<nat, Buf>, dirty: set<nat>, owners: set<Tid>) {
    && (forall b :: b in bufs ==> BufOk(l, d, dirty, owners, b, bufs[b]))
    && dirty <= bufs.Keys
  }

  /** First header entry whose change may still be missing from its home block. */
  function Pending(ph: Phase): nat {
    if ph.Install? then ph.i else 0
  }

  predicate Pinned(bufs: map<nat, Buf>, b: nat) {
    b in bufs && bufs[b].pinned
  }

  /** Exactly the logged blocks that are not yet installed are pinned. */
  ghost predicate PinsOk(l: Layout, bufs: map<nat, Buf>, h: LogHeader, ph: Phase)
    requires l.Valid() && HeaderOk(l, h)
  {
    var boot := ph.Install? && ph.boot;
    && (forall b :: Pinned(bufs, b) ==> !boot && Pending(ph) <= Slot(h, b) < h.num)
    && (!boot ==> forall i :: Pending(ph) <= i < h.num ==> Pinned(bufs, h.blockNo[i]))
  }

  /** The reservation account of `begin_op`, `sync` and `end_op`. */
  ghost predicate AccountOk(l: Layout, s: State)
    requires l.Valid()
  {
    && s.outstanding == |s.ops|
    && s.realUse <= l.LogSpace()
    && (s.phase.Idle? || s.phase.WriteLog? ==> s.realUse == s.hdr.num + SumRm(s.ops))
    && (!s.phase.Idle? ==> s.ops == map[])
    && (Booting(s) ==> s.realUse == 0)
    && (s.committing <==> !s.phase.Idle? && !Booting(s))
  }

  /** The first `k` log blocks hold what a client would read from their home blocks. */
  ghost predicate Logged(l: Layout, d: Disk, bufs: map<nat, Buf>, h: LogHeader, k: nat)
    requires l.Valid() && DiskOk(l, d) && HeaderOk(l, h) && k <= h.num
  {
    forall i :: 0 <= i < k ==> d[l.LogBlock(i)] == CachedAt(d, bufs, h.blockNo[i])
  }

  /** How far the log on disk and the home blocks have followed the header. */
  ghost predicate LogOk(l: Layout, d: Disk, bufs: map<nat, Buf>, hdr: LogHeader, ph: Phase)
    requires l.Valid() && DiskOk(l, d) && HeaderOk(l, hdr)
  {
    var h := HeaderOf(d[l.logStart]);
    match ph
    case Idle => h.num == 0
    case Cleared(_) => h.num == 0 && hdr.num == 0
    case WriteLog(_, k) => h.num == 0 && k <= hdr.num && Logged(l, d, bufs, hdr, k)
    case Install(_, k, boot) =>
      && h == hdr && k <= hdr.num
      && (!boot ==> Logged(l, d, bufs, hdr, hdr.num))
      && (forall i :: 0 <= i < k ==> d[hdr.blockNo[i]] == d[l.LogBlock(i)])
  }

  ghost predicate Inv(l: Layout, s: State)
    requires l.Valid()
  {
    && DiskOk(l, s.disk)
    && HeaderOk(l, s.hdr)
    && CacheOk(l, s.disk, s.bufs, s.dirty, s.ops.Keys)
    && PinsOk(l, s.bufs, s.hdr, s.phase)
    && AccountOk(l, s)
    && LogOk(l, s.disk, s.bufs, s.hdr, s.phase)
    && (forall t :: t in s.ops ==> s.ops[t] <= OP_MAX_NUM_BLOCKS)
  }

  /** The list holds each cached block exactly once, and nothing else. */
  ghost predicate ListOk(s: State) {
    |s.lru| == |s.bufs| && forall b :: b in s.lru <==> b in s.bufs
  }
}
