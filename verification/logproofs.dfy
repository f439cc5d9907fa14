/** Every action of the log protocol keeps its invariant and refines an atomic disk. */
module LogProofs {
  import opened Common
  import opened Bytes
  import opened LogProtocol

  /** The disk the clients are promised: what they see, and what a crash would leave. */
  datatype Spec = Spec(mem: map<nat, Block>, durable: map<nat, Block>)

  /**
   A client's change is seen at once, committed at a header write, and lost at a crash before that.
   A direct write commits one block alone.
   */
  function SpecNext(x: Spec, a: Action): Spec {
    match a
    case Modify(_, b, data) => x.(mem := x.mem[b := data])
    case WriteHeader => x.(durable := x.mem)
    case Direct(_, b) => if b in x.mem then x.(durable := x.durable[b := x.mem[b]]) else x
    case Crash(_) => x.(mem := x.durable)
    case _ => x
  }

  function Abs(l: Layout, s: State): Spec
    requires l.Valid() && DiskOk(l, s.disk)
  {
    Spec(Mem(l, s), Durable(l, s))
  }

  // ---------------------------------------------------------------- sums and slots

  lemma {:induction false} SumRemove(ops: map<Tid, nat>, t: Tid)
    requires t in ops
    ensures SumRm(ops) == ops[t] + SumRm(ops - {t})
  {
    var u :| u in ops && SumRm(ops) == ops[u] + SumRm(ops - {u});
    if u != t {
      SumRemove(ops - {u}, t);
      SumRemove(ops - {t}, u);
      assert ops - {u} - {t} == ops - {t} - {u};
    }
  }

  lemma SumUpdate(ops: map<Tid, nat>, t: Tid, v: nat)
    ensures SumRm(ops[t := v]) == v + SumRm(ops - {t})
  {
    SumRemove(ops[t := v], t);
    assert ops[t := v] - {t} == ops - {t};
  }

  // ---------------------------------------------------------------- actions on the cache alone

  /** Changes that keep the disk, the header, the account and the phase. */
  ghost predicate SameLog(s: State, s': State) {
    && s'.disk == s.disk && s'.hdr == s.hdr && s'.phase == s.phase
    && s'.ops == s.ops && s'.outstanding == s.outstanding && s'.realUse == s.realUse
    && s'.committing == s.committing
  }

  ghost predicate SameView(d: Disk, bufs: map<nat, Buf>, bufs': map<nat, Buf>) {
    forall b :: b in d ==> CachedAt(d, bufs', b) == CachedAt(d, bufs, b)
  }

  ghost predicate SamePins(bufs: map<nat, Buf>, bufs': map<nat, Buf>) {
    forall b :: Pinned(bufs', b) <==> Pinned(bufs, b)
  }

  lemma SameAbs(l: Layout, s: State, s': State)
    requires l.Valid() && DiskOk(l, s.disk) && s'.disk == s.disk && Booting(s) == Booting(s')
    requires SameView(s.disk, s.bufs, s'.bufs)
    ensures Abs(l, s') == Abs(l, s)
  {
    assert Mem(l, s') == Mem(l, s);
  }

  /** The parts of the invariant about the log depend on the cache only through what it shows. */
  lemma CacheOnly(l: Layout, s: State, s': State)
    requires l.Valid() && Inv(l, s) && SameLog(s, s')
    requires SameView(s.disk, s.bufs, s'.bufs) && SamePins(s.bufs, s'.bufs)
    requires CacheOk(l, s'.disk, s'.bufs, s'.dirty, s'.ops.Keys)
    ensures Inv(l, s') && Abs(l, s') == Abs(l, s)
  {
    SameAbs(l, s, s');
  }

  /** Locking a block, unlocking it or filling it from disk changes nothing a client can see. */
  lemma PutOk(l: Layout, d: Disk, bufs: map<nat, Buf>, dirty: set<nat>, owners: set<Tid>, b: nat, c: Buf)
    requires CacheOk(l, d, bufs, dirty, owners) && b in bufs && BufOk(l, d, dirty, owners, b, c)
    requires var o := bufs[b]; c.pinned == o.pinned && (o.valid ==> c.valid && c.data == o.data)
    ensures var bufs' := bufs[b := c];
            CacheOk(l, d, bufs', dirty, owners) && SameView(d, bufs, bufs') && SamePins(bufs, bufs')
  {
  }

  lemma PutKeeps(l: Layout, s: State, b: nat, c: Buf)
    requires l.Valid() && Inv(l, s) && b in s.bufs && BufOk(l, s.disk, s.dirty, s.ops.Keys, b, c)
    requires var o := s.bufs[b]; c.pinned == o.pinned && (o.valid ==> c.valid && c.data == o.data)
    ensures Inv(l, Put(s, b, c)) && Abs(l, Put(s, b, c)) == Abs(l, s)
  {
    PutOk(l, s.disk, s.bufs, s.dirty, s.ops.Keys, b, c);
    CacheOnly(l, s, Put(s, b, c));
  }

  lemma HitKeeps(l: Layout, s: State, t: Tid, b: nat)
    requires l.Valid() && Inv(l, s) && b in s.bufs
    ensures var s' := HitNext(s, t, b); Inv(l, s') && Abs(l, s') == Abs(l, s)
  {
    var c := s.bufs[b];
    if c.holder.None? {
      PutKeeps(l, s, b, c.(acquired := true, holder := Some(t)));
    } else {
      PutKeeps(l, s, b, c.(acquired := true, waiters := [t] + c.waiters));
    }
  }

  lemma MissOk(l: Layout, d: Disk, bufs: map<nat, Buf>, dirty: set<nat>, owners: set<Tid>, b: nat, c: Buf)
    requires CacheOk(l, d, bufs, dirty, owners) && b !in bufs && BufOk(l, d, dirty, owners, b, c)
    requires !c.valid
    ensures var bufs' := bufs[b := c];
            CacheOk(l, d, bufs', dirty, owners) && SameView(d, bufs, bufs') && SamePins(bufs, bufs')
  {
  }

  lemma MissKeeps(l: Layout, s: State, t: Tid, b: nat)
    requires l.Valid() && Inv(l, s) && MayAcquire(l, s, t, b) && b !in s.bufs
    ensures var s' := MissNext(s, t, b); Inv(l, s') && Abs(l, s') == Abs(l, s)
  {
    var s' := MissNext(s, t, b);
    MissOk(l, s.disk, s.bufs, s.dirty, s.ops.Keys, b, s'.bufs[b]);
    CacheOnly(l, s, s');
  }

  lemma LoadKeeps(l: Layout, s: State, t: Tid, b: nat)
    requires l.Valid() && Inv(l, s) && b in s.bufs && b in s.disk && !s.bufs[b].valid
    ensures var s' := LoadNext(s, b); Inv(l, s') && Abs(l, s') == Abs(l, s)
  {
    PutKeeps(l, s, b, s.bufs[b].(data := s.disk[b], valid := true));
  }

  lemma TouchKeeps(l: Layout, s: State, b: nat)
    requires l.Valid() && Inv(l, s) && b in s.bufs
    ensures var s' := TouchNext(s, b); Inv(l, s') && Abs(l, s') == Abs(l, s)
  {
    CacheOnly(l, s, TouchNext(s, b));
  }

  /** Only a block equal to its disk copy is ever evicted. */
  lemma EvictOk(l: Layout, d: Disk, bufs: map<nat, Buf>, dirty: set<nat>, owners: set<Tid>, b: nat)
    requires CacheOk(l, d, bufs, dirty, owners) && b in bufs && !bufs[b].pinned && !bufs[b].acquired
    ensures var bufs' := bufs - {b};
            CacheOk(l, d, bufs', dirty, owners) && SameView(d, bufs, bufs') && SamePins(bufs, bufs')
  {
  }

  lemma EvictKeeps(l: Layout, s: State)
    requires l.Valid() && Inv(l, s) && MayEvict(s)
    ensures var s' := EvictNext(s); Inv(l, s') && Abs(l, s') == Abs(l, s)
  {
    EvictOk(l, s.disk, s.bufs, s.dirty, s.ops.Keys, s.lru[|s.lru| - 1]);
    CacheOnly(l, s, EvictNext(s));
  }

  lemma ReleaseKeeps(l: Layout, s: State, t: Tid, b: nat)
    requires l.Valid() && Inv(l, s) && Held(s, t, b) && b !in s.dirty
    ensures var s' := ReleaseNext(s, b); Inv(l, s') && Abs(l, s') == Abs(l, s)
  {
    var c := s.bufs[b];
    if c.waiters == [] {
      PutKeeps(l, s, b, c.(acquired := false, holder := None));
    } else {
      var n := |c.waiters| - 1;
      PutKeeps(l, s, b, c.(holder := Some(c.waiters[n]), waiters := c.waiters[..n]));
    }
  }

  // ---------------------------------------------------------------- operations

  lemma BeginKeeps(l: Layout, s: State, t: Tid)
    requires l.Valid() && Inv(l, s) && Enabled(l, s, Begin(t))
    ensures var s' := BeginNext(s, t); Inv(l, s') && Abs(l, s') == Abs(l, s)
  {
    var s' := BeginNext(s, t);
    SumUpdate(s.ops, t, OP_MAX_NUM_BLOCKS);
    assert s.ops - {t} == s.ops;
    SameAbs(l, s, s');
  }

  lemma ModifyOk(l: Layout, d: Disk, bufs: map<nat, Buf>, dirty: set<nat>, owners: set<Tid>, b: nat, c: Buf)
    requires CacheOk(l, d, bufs, dirty, owners) && b in bufs && BufOk(l, d, dirty + {b}, owners, b, c)
    requires c.pinned == bufs[b].pinned
    ensures var bufs' := bufs[b := c];
            && CacheOk(l, d, bufs', dirty + {b}, owners) && SamePins(bufs, bufs')
            && forall x :: x in d && x != b ==> CachedAt(d, bufs', x) == CachedAt(d, bufs, x)
  {
  }

  lemma ModifyKeeps(l: Layout, s: State, t: Tid, b: nat, data: Block)
    requires l.Valid() && Inv(l, s) && Held(s, t, b) && t in s.ops && l.Home(b)
    ensures var s' := ModifyNext(s, b, data);
            Inv(l, s') && Mem(l, s') == Mem(l, s)[b := data] && Durable(l, s') == Durable(l, s)
  {
    var s' := ModifyNext(s, b, data);
    ModifyOk(l, s.disk, s.bufs, s.dirty, s.ops.Keys, b, s'.bufs[b]);
    assert Mem(l, s') == Mem(l, s)[b := data];
  }

  lemma DirectCache(l: Layout, d: Disk, bufs: map<nat, Buf>, dirty: set<nat>, owners: set<Tid>, b: nat)
    requires CacheOk(l, d, bufs, dirty, owners) && b in bufs && bufs[b].valid && b in d
    ensures var d' := d[b := bufs[b].data];
            CacheOk(l, d', bufs, dirty - {b}, owners) && forall x :: x in d ==>
                CachedAt(d', bufs, x) == CachedAt(d, bufs, x)
  {
  }

  /** A logged home block that is being installed already reads as its log copy. */
  lemma DirectIsLogged(l: Layout, d: Disk, bufs: map<nat, Buf>, hdr: LogHeader, ph: Phase, b: nat)
    requires l.Valid() && DiskOk(l, d) && HeaderOk(l, hdr) && LogOk(l, d, bufs, hdr, ph) && !(ph.Install? && ph.boot)
    requires l.Home(b) && b in d
    ensures var h := HeaderOf(d[l.logStart]); Slot(h, b) < h.num ==> d[l.LogBlock(Slot(h, b))] == CachedAt(d, bufs, b)
  {
  }

  lemma DirectRecovered(l: Layout, d: Disk, d': Disk, b: nat, data: Block, x: nat)
    requires l.Valid() && DiskOk(l, d) && DiskOk(l, d') && l.Home(b) && l.Home(x) && d' == d[b := data]
    requires var h := HeaderOf(d[l.logStart]); Slot(h, b) < h.num ==> d[l.LogBlock(Slot(h, b))] == data
    ensures RecoveredAt(l, d', x) == if x == b then data else RecoveredAt(l, d, x)
  {
    var h := HeaderOf(d[l.logStart]);
    assert d'[l.logStart] == d[l.logStart];
    if Slot(h, x) < h.num {
      assert l.LogBlock(Slot(h, x)) != b;
    }
  }

  lemma DirectDurable(l: Layout, s: State, s': State, b: nat, data: Block)
    requires l.Valid() && DiskOk(l, s.disk) && l.Home(b) && s'.disk == s.disk[b := data]
    requires var h := HeaderOf(s.disk[l.logStart]); Slot(h, b) < h.num ==> s.disk[l.LogBlock(Slot(h, b))] == data
    ensures DiskOk(l, s'.disk) && Durable(l, s') == Durable(l, s)[b := data]
  {
    assert s'.disk[l.logStart] == s.disk[l.logStart];
    forall x | 0 <= x < l.numBlocks && l.Home(x)
      ensures RecoveredAt(l, s'.disk, x) == if x == b then data else RecoveredAt(l, s.disk, x)
    {
      DirectRecovered(l, s.disk, s'.disk, b, data, x);
    }
  }

  lemma DirectLogOk(l: Layout, d: Disk, d': Disk, bufs: map<nat, Buf>, hdr: LogHeader, ph: Phase, b: nat)
    requires l.Valid() && DiskOk(l, d) && HeaderOk(l, hdr) && LogOk(l, d, bufs, hdr, ph) && !(ph.Install? && ph.boot)
    requires l.Home(b) && b in bufs && bufs[b].valid && d' == d[b := bufs[b].data] && DiskOk(l, d')
    ensures LogOk(l, d', bufs, hdr, ph)
  {
    assert forall i :: 0 <= i < hdr.num ==> d'[l.LogBlock(i)] == d[l.LogBlock(i)];
    assert forall i :: 0 <= i < hdr.num ==> CachedAt(d', bufs, hdr.blockNo[i]) == CachedAt(d, bufs, hdr.blockNo[i]);
  }

  /** A direct write makes that block durable and no other. */
  lemma DirectKeeps(l: Layout, s: State, t: Tid, b: nat)
    requires l.Valid() && Inv(l, s) && Held(s, t, b) && l.Home(b) && !Booting(s)
    ensures var s' := DirectNext(s, b);
            Inv(l, s') && Mem(l, s') == Mem(l, s) && b in Mem(l, s) &&
              Durable(l, s') == Durable(l, s)[b := Mem(l, s)[b]]
  {
    var s' := DirectNext(s, b);
    DirectCache(l, s.disk, s.bufs, s.dirty, s.ops.Keys, b);
    DirectIsLogged(l, s.disk, s.bufs, s.hdr, s.phase, b);
    DirectDurable(l, s, s', b, s.bufs[b].data);
    DirectLogOk(l, s.disk, s'.disk, s.bufs, s.hdr, s.phase, b);
    MemExcept(l, s, s', b);
  }

  lemma SyncOk(l: Layout, d: Disk, bufs: map<nat, Buf>, dirty: set<nat>, owners: set<Tid>, b: nat)
    requires CacheOk(l, d, bufs, dirty, owners) && b in bufs && bufs[b].valid
    ensures var bufs' := bufs[b := bufs[b].(pinned := true)];
            CacheOk(l, d, bufs', dirty - {b}, owners) && SameView(d, bufs, bufs')
  {
  }

  lemma SyncAccount(l: Layout, s: State, t: Tid, b: nat)
    requires l.Valid() && b in s.bufs && SyncFits(l, s, t, b) && AccountOk(l, s)
    ensures AccountOk(l, SyncNext(l, s, t, b))
    ensures Slot(s.hdr, b) == s.hdr.num ==> s.hdr.num < l.LogSpace()
  {
    SumRemove(s.ops, t);
    if Slot(s.hdr, b) == s.hdr.num {
      SumUpdate(s.ops, t, s.ops[t] - 1);
      assert s.ops[t := s.ops[t] - 1].Keys == s.ops.Keys;
    }
  }

  lemma SyncPins(l: Layout, bufs: map<nat, Buf>, h: LogHeader, b: nat, c: Buf)
    requires l.Valid() && HeaderOk(l, h) && PinsOk(l, bufs, h, Idle) && c.pinned
    requires l.Home(b) && (Slot(h, b) == h.num ==> h.num < l.LogSpace())
    ensures var i := Slot(h, b);
            var h' := if i < h.num then h else LogHeader(h.num + 1, h.blockNo[h.num := b]);
            HeaderOk(l, h') && PinsOk(l, bufs[b := c], h', Idle)
  {
    if Slot(h, b) == h.num {
      HeaderGrows(l, h, b);
    }
  }

  lemma SyncKeeps(l: Layout, s: State, t: Tid, b: nat)
    requires l.Valid() && Inv(l, s) && Held(s, t, b) && SyncFits(l, s, t, b)
    ensures var s' := SyncNext(l, s, t, b); Inv(l, s') && Abs(l, s') == Abs(l, s)
  {
    var s' := SyncNext(l, s, t, b);
    assert s'.ops.Keys == s.ops.Keys;
    SyncOk(l, s.disk, s.bufs, s.dirty, s.ops.Keys, b);
    SyncAccount(l, s, t, b);
    SyncPins(l, s.bufs, s.hdr, b, s'.bufs[b]);
    SameAbs(l, s, s');
  }

  lemma HeaderGrows(l: Layout, h: LogHeader, b: nat)
    requires l.Valid() && HeaderOk(l, h) && l.Home(b) && Slot(h, b) == h.num < l.LogSpace()
    ensures var h' := LogHeader(h.num + 1, h.blockNo[h.num := b]);
            && HeaderOk(l, h')
            && forall x: nat :: Slot(h', x) == if x == b then h.num else if Slot(h, x) < h.num then Slot(h, x)
              else h'.num
  {
    forall x: nat {
      SlotGrows(h, b, x, 0);
    }
  }

  lemma {:induction false} SlotGrows(h: LogHeader, b: nat, x: nat, from: nat)
    requires from <= h.num < |h.blockNo| == LOG_MAX_SIZE && b < 0x1_0000_0000 && Slot(h, b, from) == h.num
    ensures var h' := LogHeader(h.num + 1, h.blockNo[h.num := b]); var i := Slot(h, x, from);
            Slot(h', x, from) == if x == b then h.num else if i < h.num then i else h'.num
    decreases h.num - from
  {
    if from < h.num {
      SlotGrows(h, b, x, from + 1);
    }
  }

  lemma EndOk(l: Layout, s: State, t: Tid)
    requires CacheOk(l, s.disk, s.bufs, s.dirty, s.ops.Keys)
    requires forall b :: b in s.dirty ==> !Held(s, t, b)
    ensures CacheOk(l, s.disk, s.bufs, s.dirty, s.ops.Keys - {t})
  {
  }

  lemma EndKeeps(l: Layout, s: State, t: Tid)
    requires l.Valid() && Inv(l, s) && Enabled(l, s, End(t))
    ensures var s' := EndNext(s, t); Inv(l, s') && Abs(l, s') == Abs(l, s)
  {
    var s' := EndNext(s, t);
    SumRemove(s.ops, t);
    assert s'.ops.Keys == s.ops.Keys - {t};
    EndOk(l, s, t);
    SameAbs(l, s, s');
  }

  // ---------------------------------------------------------------- commit and recovery

  /** With no operation outstanding no block is being changed. */
  lemma NothingDirty(l: Layout, d: Disk, bufs: map<nat, Buf>, dirty: set<nat>)
    requires CacheOk(l, d, bufs, dirty, {})
    ensures dirty == {}
  {
    assert forall b :: b in dirty ==> b in bufs && !BufOk(l, d, dirty, {}, b, bufs[b]);
  }

  /** Writing a block of the log area changes neither the header nor any home block. */
  lemma LogWriteKeepsDurable(l: Layout, s: State, s': State, i: nat, data: Block)
    requires l.Valid() && DiskOk(l, s.disk) && i < l.LogSpace()
    requires HeaderOf(s.disk[l.logStart]).num == 0
    requires s'.disk == s.disk[l.LogBlock(i) := data]
    ensures DiskOk(l, s'.disk) && Durable(l, s') == Durable(l, s)
    ensures HeaderOf(s'.disk[l.logStart]).num == 0
  {
    assert s'.disk[l.logStart] == s.disk[l.logStart];
    assert forall b :: 0 <= b < l.numBlocks && l.Home(b) ==>
      RecoveredAt(l, s'.disk, b) == RecoveredAt(l, s.disk, b);
  }

  /** Writing a block and its buffer together keeps the cache in step with the disk. */
  lemma CopyOk(l: Layout, d: Disk, bufs: map<nat, Buf>, b: nat, c: Buf)
    requires CacheOk(l, d, bufs, {}, {}) && b in bufs && bufs[b].valid
    requires c.valid && c.acquired == bufs[b].acquired && c.holder == bufs[b].holder && c.waiters == bufs[b].waiters
    ensures CacheOk(l, d[b := c.data], bufs[b := c], {}, {})
    ensures forall x :: x in d && x != b ==> CachedAt(d[b := c.data], bufs[b := c], x) == CachedAt(d, bufs, x)
    ensures CachedAt(d[b := c.data], bufs[b := c], b) == c.data
  {
  }

  lemma MemExcept(l: Layout, s: State, s': State, b: nat)
    requires l.Valid() && DiskOk(l, s.disk) && DiskOk(l, s'.disk) && !Booting(s) && !Booting(s')
    requires s'.disk.Keys >= s.disk.Keys
    requires forall x :: x in s.disk && x != b ==> CachedAt(s'.disk, s'.bufs, x) == CachedAt(s.disk, s.bufs, x)
    requires l.Home(b) ==> CachedAt(s'.disk, s'.bufs, b) == CachedAt(s.disk, s.bufs, b)
    ensures Mem(l, s') == Mem(l, s)
  {
  }

  lemma LogCopyLogged(l: Layout, s: State, s': State, k: nat)
    requires l.Valid() && DiskOk(l, s.disk) && DiskOk(l, s'.disk) && HeaderOk(l, s.hdr) && k < s.hdr.num
    requires Logged(l, s.disk, s.bufs, s.hdr, k)
    requires forall b :: b in s.disk && b != l.LogBlock(k) ==>
      b in s'.disk && s'.disk[b] == s.disk[b] && CachedAt(s'.disk, s'.bufs, b) == CachedAt(s.disk, s.bufs, b)
    requires s'.disk[l.LogBlock(k)] == CachedAt(s.disk, s.bufs, s.hdr.blockNo[k])
    ensures Logged(l, s'.disk, s'.bufs, s.hdr, k + 1)
  {
  }

  lemma LogCopyKeeps(l: Layout, s: State)
    requires l.Valid() && Inv(l, s) && Enabled(l, s, LogCopy)
    ensures var s' := LogCopyNext(l, s); Inv(l, s') && Abs(l, s') == Abs(l, s)
  {
    var s' := LogCopyNext(l, s);
    var k := s.phase.i;
    var to := l.LogBlock(k);
    NothingDirty(l, s.disk, s.bufs, s.dirty);
    LogWriteKeepsDurable(l, s, s', k, s'.bufs[to].data);
    CopyOk(l, s.disk, s.bufs, to, s'.bufs[to]);
    MemExcept(l, s, s', to);
    LogCopyLogged(l, s, s', k);
    assert SamePins(s.bufs, s'.bufs);
  }

  lemma HeaderWriteKeepsCache(l: Layout, d: Disk, bufs: map<nat, Buf>, data: Block)
    requires l.Valid() && CacheOk(l, d, bufs, {}, {})
    ensures CacheOk(l, d[l.logStart := data], bufs, {}, {})
    ensures forall b :: b in d && b != l.logStart ==> CachedAt(d[l.logStart := data], bufs, b) == CachedAt(d, bufs, b)
  {
  }

  /** The commit point: the log on disk now replays to exactly what the clients see. */
  lemma WriteHeaderKeeps(l: Layout, s: State)
    requires l.Valid() && Inv(l, s) && Enabled(l, s, WriteHeader)
    ensures var s' := WriteHeaderNext(l, s);
            Inv(l, s') && Mem(l, s') == Mem(l, s) && Durable(l, s') == Mem(l, s)
  {
    var s' := WriteHeaderNext(l, s);
    HeaderRoundTrip(s.hdr);
    NothingDirty(l, s.disk, s.bufs, s.dirty);
    HeaderWriteKeepsCache(l, s.disk, s.bufs, HeaderBlock(s.hdr));
    MemExcept(l, s, s', l.logStart);
    ReplayIsMem(l, s');
  }

  lemma ReplayIsMem(l: Layout, s: State)
    requires l.Valid() && DiskOk(l, s.disk) && HeaderOk(l, s.hdr) && CacheOk(l, s.disk, s.bufs, {}, {})
    requires PinsOk(l, s.bufs, s.hdr, s.phase) && LogOk(l, s.disk, s.bufs, s.hdr, s.phase)
    requires s.phase.Install? && !s.phase.boot
    ensures Durable(l, s) == Mem(l, s)
  {
    forall b | 0 <= b < l.numBlocks && l.Home(b)
      ensures RecoveredAt(l, s.disk, b) == CachedAt(s.disk, s.bufs, b)
    {
      var i := Slot(s.hdr, b);
      if i == s.hdr.num && b in s.bufs {
        assert !Pinned(s.bufs, b);
      }
    }
  }

  /** Copying a logged block home changes nothing that a crash would leave. */
  lemma InstallKeepsDurable(l: Layout, s: State, s': State, i: nat)
    requires l.Valid() && DiskOk(l, s.disk) && HeaderOf(s.disk[l.logStart]) == s.hdr && i < s.hdr.num
    requires s'.disk == s.disk[s.hdr.blockNo[i] := s.disk[l.LogBlock(i)]]
    ensures DiskOk(l, s'.disk) && Durable(l, s') == Durable(l, s)
    ensures HeaderOf(s'.disk[l.logStart]) == s.hdr
    ensures forall j :: 0 <= j < s.hdr.num ==> s'.disk[l.LogBlock(j)] == s.disk[l.LogBlock(j)]
  {
    assert s'.disk[l.logStart] == s.disk[l.logStart];
    assert forall b :: 0 <= b < l.numBlocks && l.Home(b) ==>
      RecoveredAt(l, s'.disk, b) == RecoveredAt(l, s.disk, b);
  }

  lemma InstallPins(l: Layout, bufs: map<nat, Buf>, h: LogHeader, ph: Phase, c: Buf)
    requires l.Valid() && HeaderOk(l, h) && ph.Install? && ph.i < h.num && PinsOk(l, bufs, h, ph)
    requires !c.pinned
    ensures PinsOk(l, bufs[h.blockNo[ph.i] := c], h, Install(ph.c, ph.i + 1, ph.boot))
  {
    var bufs' := bufs[h.blockNo[ph.i] := c];
    assert forall b :: Pinned(bufs', b) ==> b != h.blockNo[ph.i] && Pinned(bufs, b);
    forall i | ph.i + 1 <= i < h.num && !ph.boot
      ensures Pinned(bufs', h.blockNo[i])
    {
      assert Pinned(bufs, h.blockNo[i]) && Slot(h, h.blockNo[i]) == i;
    }
  }

  lemma InstallLogOk(l: Layout, s: State, s': State, k: nat)
    requires l.Valid() && DiskOk(l, s.disk) && DiskOk(l, s'.disk) && HeaderOk(l, s.hdr) && k < s.hdr.num
    requires s.phase.Install? && s.phase.i == k
    requires LogOk(l, s.disk, s.bufs, s.hdr, s.phase) && HeaderOf(s'.disk[l.logStart]) == s.hdr
    requires forall b :: b in s.disk && b != s.hdr.blockNo[k] ==> b in s'.disk && s'.disk[b] == s.disk[b]
    requires s'.disk[s.hdr.blockNo[k]] == s.disk[l.LogBlock(k)]
    requires !s.phase.boot ==> SameView2(s, s')
    ensures LogOk(l, s'.disk, s'.bufs, s.hdr, Install(s.phase.c, k + 1, s.phase.boot))
  {
    assert forall i :: 0 <= i < s.hdr.num ==> s'.disk[l.LogBlock(i)] == s.disk[l.LogBlock(i)];
    forall i | 0 <= i < k
      ensures s'.disk[s.hdr.blockNo[i]] == s'.disk[l.LogBlock(i)]
    {
      assert Slot(s.hdr, s.hdr.blockNo[i]) == i && Slot(s.hdr, s.hdr.blockNo[k]) == k;
    }
  }

  ghost predicate SameView2(s: State, s': State) {
    s.disk.Keys <= s'.disk.Keys &&
    forall b :: b in s.disk ==> CachedAt(s'.disk, s'.bufs, b) == CachedAt(s.disk, s.bufs, b)
  }

  lemma LogBufferIsClean(l: Layout, s: State, k: nat)
    requires l.Valid() && HeaderOk(l, s.hdr) && CacheOk(l, s.disk, s.bufs, {}, {}) && PinsOk(l, s.bufs, s.hdr, s.phase)
    requires k < s.hdr.num && s.phase.Install? && Held(s, s.phase.c, l.LogBlock(k))
    ensures l.LogBlock(k) in s.disk && s.bufs[l.LogBlock(k)].data == s.disk[l.LogBlock(k)]
  {
    var from := l.LogBlock(k);
    assert BufOk(l, s.disk, {}, {}, from, s.bufs[from]);
    assert !Pinned(s.bufs, from);
  }

  lemma InstallKeepsMem(l: Layout, s: State, s': State, to: nat)
    requires l.Valid() && Inv(l, s) && Enabled(l, s, InstallCopy) && s' == InstallCopyNext(l, s)
    requires to == s.hdr.blockNo[s.phase.i] && DiskOk(l, s'.disk) && Durable(l, s') == Durable(l, s)
    requires s'.bufs[to].data == s.disk[l.LogBlock(s.phase.i)]
    ensures Mem(l, s') == Mem(l, s)
  {
    if !s.phase.boot {
      assert CachedAt(s.disk, s.bufs, to) == s'.bufs[to].data;
      MemExcept(l, s, s', to);
    }
  }

  lemma InstallCopyKeeps(l: Layout, s: State)
    requires l.Valid() && Inv(l, s) && Enabled(l, s, InstallCopy)
    ensures var s' := InstallCopyNext(l, s); Inv(l, s') && Abs(l, s') == Abs(l, s)
  {
    var s' := InstallCopyNext(l, s);
    var k := s.phase.i;
    var to := s.hdr.blockNo[k];
    NothingDirty(l, s.disk, s.bufs, s.dirty);
    LogBufferIsClean(l, s, k);
    InstallKeepsDurable(l, s, s', k);
    CopyOk(l, s.disk, s.bufs, to, s'.bufs[to]);
    InstallPins(l, s.bufs, s.hdr, s.phase, s'.bufs[to]);
    InstallKeepsMem(l, s, s', to);
    InstallLogOk(l, s, s', k);
  }

  /** Once every logged block is home the log is no longer needed. */
  lemma ClearKeepsDurable(l: Layout, s: State, s': State)
    requires l.Valid() && DiskOk(l, s.disk) && HeaderOf(s.disk[l.logStart]) == s.hdr
    requires forall i :: 0 <= i < s.hdr.num ==> s.disk[s.hdr.blockNo[i]] == s.disk[l.LogBlock(i)]
    requires s'.disk == s.disk[l.logStart := HeaderBlock(s.hdr.(num := 0))]
    ensures DiskOk(l, s'.disk) && Durable(l, s') == Durable(l, s)
    ensures HeaderOf(s'.disk[l.logStart]) == s.hdr.(num := 0)
  {
    HeaderRoundTrip(s.hdr.(num := 0));
    assert forall b :: 0 <= b < l.numBlocks && l.Home(b) ==>
      RecoveredAt(l, s'.disk, b) == RecoveredAt(l, s.disk, b);
  }

  lemma ClearHeaderKeeps(l: Layout, s: State)
    requires l.Valid() && Inv(l, s) && Enabled(l, s, ClearHeader)
    ensures var s' := ClearHeaderNext(l, s); Inv(l, s') && Abs(l, s') == Abs(l, s)
  {
    var s' := ClearHeaderNext(l, s);
    NothingDirty(l, s.disk, s.bufs, s.dirty);
    ClearKeepsDurable(l, s, s');
    HeaderWriteKeepsCache(l, s.disk, s.bufs, HeaderBlock(s.hdr.(num := 0)));
    assert forall b :: !Pinned(s.bufs, b);
    if s.phase.boot {
      CleanCacheShowsDisk(l, s');
    } else {
      MemExcept(l, s, s', l.logStart);
    }
  }

  /** With nothing pinned, nothing being changed and an empty log, clients see the disk. */
  lemma CleanCacheShowsDisk(l: Layout, s: State)
    requires l.Valid() && DiskOk(l, s.disk) && CacheOk(l, s.disk, s.bufs, {}, {})
    requires HeaderOf(s.disk[l.logStart]).num == 0 && forall b :: !Pinned(s.bufs, b)
    ensures Mem(l, s) == Durable(l, s)
  {
    forall b | 0 <= b < l.numBlocks && l.Home(b)
      ensures RecoveredAt(l, s.disk, b) == CachedAt(s.disk, s.bufs, b)
    {
      assert !Pinned(s.bufs, b);
    }
  }

  lemma FinishKeeps(l: Layout, s: State)
    requires l.Valid() && Inv(l, s) && Enabled(l, s, Finish)
    ensures var s' := FinishNext(s); Inv(l, s') && Abs(l, s') == Abs(l, s)
  {
    SameAbs(l, s, FinishNext(s));
  }

  lemma BootKeeps(l: Layout, s: State, t: Tid)
    requires l.Valid() && Inv(l, s)
    ensures var s' := Boot(l, s.disk, t);
            Inv(l, s') && Mem(l, s') == Durable(l, s) && Durable(l, s') == Durable(l, s)
  {
  }

  // ---------------------------------------------------------------- the list

  lemma {:induction false} WithoutElements(lru: seq<nat>, b: nat)
    requires b in lru
    ensures |Without(lru, b)| == |lru| - 1
    ensures forall x :: x in [b] + Without(lru, b) <==> x in lru
  {
    assert lru == [lru[0]] + lru[1..];
    if lru[0] != b {
      WithoutElements(lru[1..], b);
    }
  }

  lemma {:induction false} CountElements(lru: seq<nat>, bs: set<nat>)
    requires forall b :: b in bs ==> b in lru
    ensures |bs| <= |lru|
  {
    if lru == [] {
      assert bs == {};
    } else {
      assert lru == [lru[0]] + lru[1..];
      CountElements(lru[1..], bs - {lru[0]});
    }
  }

  lemma EvictList(s: State)
    requires ListOk(s) && s.lru != []
    ensures ListOk(EvictNext(s))
  {
    var n := |s.lru| - 1;
    var prefix, b := s.lru[..n], s.lru[n];
    assert s.lru == prefix + [b];
    if b in prefix {
      CountElements(prefix, s.bufs.Keys);
      assert false;
    }
    assert EvictNext(s).bufs.Keys == s.bufs.Keys - {b};
  }

  predicate KeepsList(a: Action) {
    !a.AcquireMiss? && !a.Touch? && !a.Evict? && !a.Crash?
  }

  lemma SameKeys(l: Layout, s: State, a: Action)
    requires l.Valid() && Enabled(l, s, a) && KeepsList(a)
    ensures Next(l, s, a).lru == s.lru && Next(l, s, a).bufs.Keys == s.bufs.Keys
  {
  }

  lemma MissList(s: State, t: Tid, b: nat)
    requires ListOk(s) && b !in s.bufs
    ensures ListOk(MissNext(s, t, b))
  {
    assert MissNext(s, t, b).bufs.Keys == s.bufs.Keys + {b};
  }

  lemma TouchList(s: State, b: nat)
    requires ListOk(s) && b in s.bufs
    ensures ListOk(TouchNext(s, b))
  {
    WithoutElements(s.lru, b);
  }

  /** No block number is ever cached twice. */
  lemma StepKeepsList(l: Layout, s: State, a: Action)
    requires l.Valid() && ListOk(s) && Enabled(l, s, a)
    ensures ListOk(Next(l, s, a))
  {
    if KeepsList(a) {
      SameKeys(l, s, a);
    } else if a.AcquireMiss? {
      MissList(s, a.t, a.b);
    } else if a.Touch? {
      TouchList(s, a.b);
    } else if a.Evict? {
      EvictList(s);
    }
  }

  // ---------------------------------------------------------------- whole runs

  predicate CacheAction(a: Action) {
    a.AcquireHit? || a.AcquireMiss? || a.Load? || a.Touch? || a.Evict? || a.Release?
  }

  lemma CacheStepRefines(l: Layout, s: State, a: Action)
    requires l.Valid() && Inv(l, s) && Enabled(l, s, a) && CacheAction(a)
    ensures var s' := Next(l, s, a); Inv(l, s') && Abs(l, s') == Abs(l, s)
  {
    match a
    case AcquireHit(t, b) => HitKeeps(l, s, t, b);
    case AcquireMiss(t, b) => MissKeeps(l, s, t, b);
    case Load(t, b) => LoadKeeps(l, s, t, b);
    case Touch(t, b) => TouchKeeps(l, s, b);
    case Evict => EvictKeeps(l, s);
    case Release(t, b) => ReleaseKeeps(l, s, t, b);
  }

  predicate CommitAction(a: Action) {
    a.LogCopy? || a.WriteHeader? || a.InstallCopy? || a.ClearHeader? || a.Finish? || a.Crash?
  }

  lemma CommitStepRefines(l: Layout, s: State, a: Action)
    requires l.Valid() && Inv(l, s) && Enabled(l, s, a) && CommitAction(a)
    ensures var s' := Next(l, s, a); Inv(l, s') && Abs(l, s') == SpecNext(Abs(l, s), a)
  {
    match a
    case LogCopy => LogCopyKeeps(l, s);
    case WriteHeader => WriteHeaderKeeps(l, s);
    case InstallCopy => InstallCopyKeeps(l, s);
    case ClearHeader => ClearHeaderKeeps(l, s);
    case Finish => FinishKeeps(l, s);
    case Crash(t) => BootKeeps(l, s, t);
  }

  /** Every enabled action keeps the invariant and does exactly what the atomic disk would do. */
  lemma StepRefines(l: Layout, s: State, a: Action)
    requires l.Valid() && Inv(l, s) && Enabled(l, s, a)
    ensures var s' := Next(l, s, a); Inv(l, s') && Abs(l, s') == SpecNext(Abs(l, s), a)
  {
    if CacheAction(a) {
      CacheStepRefines(l, s, a);
    } else if CommitAction(a) {
      CommitStepRefines(l, s, a);
    } else {
      match a
      case Begin(t) => BeginKeeps(l, s, t);
      case Modify(t, b, data) => ModifyKeeps(l, s, t, b, data);
      case Sync(t, b) => SyncKeeps(l, s, t, b);
      case Direct(t, b) => DirectKeeps(l, s, t, b);
      case End(t) => EndKeeps(l, s, t);
      case Sleep(t) => SameAbs(l, s, Next(l, s, a));
      case PostEnd(t) => SameAbs(l, s, Next(l, s, a));
    }
  }

  function SpecExec(x: Spec, acts: seq<Action>): Spec
    decreases |acts|
  {
    if acts == [] then x else SpecExec(SpecNext(x, acts[0]), acts[1..])
  }

  /**
   Whatever the threads do, wherever power fails, and however often recovery is itself cut
   short: clients always read their own latest changes, and a boot always finds exactly
   the state of the last header write.
   */
  lemma {:induction false} RunRefines(l: Layout, s: State, acts: seq<Action>)
    requires l.Valid() && Inv(l, s) && ListOk(s) && Exec(l, s, acts).Some?
    ensures var s' := Exec(l, s, acts).value;
            Inv(l, s') && ListOk(s') && Abs(l, s') == SpecExec(Abs(l, s), acts)
    decreases |acts|
  {
    if acts != [] {
      StepRefines(l, s, acts[0]);
      StepKeepsList(l, s, acts[0]);
      RunRefines(l, Next(l, s, acts[0]), acts[1..]);
    }
  }
}
