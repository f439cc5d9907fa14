/**
 The block cache as the kernel runs it: one thread's path through `cache_acquire`,
 `cache_release`, `cache_begin_op`, `cache_sync`, `cache_end_op` and `init_bcache`.

 The ghost field `run` records the actions of the log protocol the code has performed since
 `origin`. Everything proved about runs, with a crash between any two actions, thus holds
 for the code. A path on which the thread would sleep is excluded by a precondition;
 the protocol covers what other threads do in the meantime.
 */
module BlockCache {
  import opened Common
  import opened Bytes
  import opened LogProtocol
  import opened LogProofs
  import opened LogTheorems
  import opened CacheRuns

  /** Mentioning `Unfold` lets the verifier look inside `Good`, which most methods only pass on. */
  ghost predicate Unfold(n: nat) {
    true
  }

  ghost predicate Good(l: Layout, s: State) {
    l.Valid() && DiskOk(l, s.disk) && forall n: nat :: Unfold(n) ==> Inv(l, s) && ListOk(s)
  }

  /** An unlocked block has been read from disk. */
  lemma UnlockedIsLoaded(l: Layout, s: State, b: nat)
    requires Good(l, s) && b in s.bufs && s.bufs[b].holder.None?
    ensures s.bufs[b].valid && s.bufs[b].waiters == []
  {
    assert Unfold(0);
    assert BufOk(l, s.disk, s.dirty, s.ops.Keys, b, s.bufs[b]);
  }

  /** Reading a block into the cache puts it in front, and drops the last block if that is one too many and free. */
  lemma MissEffect(s: State, t: Tid, b: nat, s': State)
    requires b !in s.bufs && b in s.disk && Without(s.lru, b) == s.lru
    requires var m := LoadNext(MissNext(s, t, b), b); s' == if MayEvict(m) then EvictNext(m) else m
    ensures Fronted(s.lru, b, s'.lru)
    ensures s'.bufs.Keys == CachedWith(s.lru, s.bufs, b)
  {
    var m := LoadNext(MissNext(s, t, b), b);
    assert m.lru == [b] + s.lru && m.bufs.Keys == s.bufs.Keys + {b};
    if s.lru != [] {
      assert m.lru[|m.lru| - 1] == s.lru[|s.lru| - 1];
    }
    FrontedOk(s.lru, b, s'.lru);
  }

  /** One block more is too many, and the last one of the list is free to go. */
  ghost predicate TailCanGo(lru: seq<nat>, bufs: map<nat, Buf>) {
    |lru| >= 20 && var e := lru[|lru| - 1]; e in bufs && !bufs[e].pinned && !bufs[e].acquired
  }

  /** What is cached after block `b` has been read: it, and all that was cached but for a block that can go. */
  ghost function CachedWith(lru: seq<nat>, bufs: map<nat, Buf>, b: nat): set<nat> {
    bufs.Keys + {b} - if TailCanGo(lru, bufs) then {lru[|lru| - 1]} else {}
  }

  class Bcache {
    const layout: Layout
    var disk: Disk
    var bufs: map<nat, Buf>
    var lru: seq<nat>
    var header: LogHeader
    var outstanding: nat
    var committing: bool
    var realUse: nat
    var contexts: map<Tid, nat>
    ghost var dirty: set<nat>
    ghost var phase: Phase
    ghost var ended: set<Tid>
    ghost var sleepers: set<Tid>
    ghost var posting: set<Tid>
    ghost var origin: State
    ghost var run: seq<Action>
    ghost var view: Spec

    ghost function St(): State
      reads this
    {
      State(disk, bufs, lru, header, outstanding, committing, realUse, contexts, dirty, phase,
            ended, sleepers, posting)
    }

    ghost predicate Reached(s: State)
      reads this
    {
      && Good(layout, origin) && Exec(layout, origin, run) == Some(s)
      && view == SpecExec(Abs(layout, origin), run)
    }

    ghost predicate Valid()
      reads this
    {
      Reached(St())
    }

    /** The fields mean what the atomic disk holds. */
    lemma ViewIsReal()
      requires Valid()
      ensures Good(layout, St()) && Inv(layout, St()) && ListOk(St()) && Abs(layout, St()) == view
    {
      assert Unfold(0);
      RunRefines(layout, origin, run);
    }

    /** The run grows by an action; the caller then updates the fields accordingly. */
    ghost method Record(a: Action)
      requires Valid() && Enabled(layout, St(), a)
      modifies this`run, this`view
      ensures Reached(Next(layout, St(), a)) && view == SpecNext(old(view), a)
    {
      SpecAppend(Abs(layout, origin), run, [a]);
      var x := SpecExec(Abs(layout, origin), run);
      assert SpecExec(x, [a]) == SpecExec(SpecNext(x, a), []);
      run := Then(layout, origin, run, St(), a);
      view := SpecNext(view, a);
    }

    ghost method RecordQuiet(a: Action)
      requires Valid() && Enabled(layout, St(), a) && !a.Modify? && !a.WriteHeader? && !a.Crash? && !a.Direct?
      modifies this`run
      ensures Reached(Next(layout, St(), a))
    {
      SpecAppend(Abs(layout, origin), run, [a]);
      var x := SpecExec(Abs(layout, origin), run);
      assert SpecExec(x, [a]) == SpecExec(SpecNext(x, a), []);
      run := Then(layout, origin, run, St(), a);
    }

    /** The search loop of `cache_acquire`. */
    method Search(b: nat) returns (found: bool)
      requires Valid()
      ensures found <==> b in bufs
    {
      found := false;
      var i := 0;
      while i < |lru|
        invariant i <= |lru|
        invariant b !in lru[..i]
        invariant !found
      {
        if lru[i] == b {
          found := true;
          break;
        }
        i := i + 1;
      }
      assert found <==> b in lru by {
        if !found {
          assert lru[..i] == lru;
        }
      }
      ViewIsReal();
    }

    ghost predicate AllUnlocked()
      reads this
    {
      forall b :: b in bufs ==> bufs[b].holder.None?
    }

    // ------------------------------------------------------------ field updates

    method LockBlock(t: Tid, b: nat)
      requires b in bufs && bufs[b].holder.None?
      modifies this`bufs
      ensures St() == HitNext(old(St()), t, b)
    {
      bufs := bufs[b := bufs[b].(acquired := true, holder := Some(t))];
    }

    method InsertBlock(t: Tid, b: nat)
      modifies this`bufs, this`lru
      ensures St() == MissNext(old(St()), t, b)
    {
      bufs := bufs[b := Buf(Zeros(BLOCK_SIZE), false, false, true, Some(t), [])];
      lru := [b] + lru;
    }

    method ReadBlock(b: nat)
      requires b in bufs && b in disk
      modifies this`bufs
      ensures St() == LoadNext(old(St()), b)
    {
      bufs := bufs[b := bufs[b].(data := disk[b], valid := true)];
    }

    method MoveToFront(b: nat)
      modifies this`lru
      ensures St() == TouchNext(old(St()), b)
    {
      lru := [b] + Without(lru, b);
    }

    method DropLast()
      requires lru != []
      modifies this`lru, this`bufs
      ensures St() == EvictNext(old(St()))
    {
      var n := |lru| - 1;
      var b := lru[n];
      lru := lru[..n];
      bufs := bufs - {b};
    }

    method UnlockBlock(b: nat)
      requires b in bufs
      modifies this`bufs
      ensures St() == ReleaseNext(old(St()), b)
    {
      var c := bufs[b];
      if c.waiters == [] {
        bufs := bufs[b := c.(acquired := false, holder := None)];
      } else {
        var n := |c.waiters| - 1;
        bufs := bufs[b := c.(holder := Some(c.waiters[n]), waiters := c.waiters[..n])];
      }
    }

    // ------------------------------------------------------------ acquire and release

    /** Other blocks stay as they are; only an unpinned, unlocked one may leave the cache. */
    twostate predicate OthersKept(b: nat)
      reads this
    {
      && (forall x :: x in bufs && x != b ==> x in old(bufs) && bufs[x] == old(bufs[x]))
      && (forall x :: x in old(bufs) && x != b && (old(bufs[x]).pinned || old(bufs[x]).acquired) ==> x in bufs)
    }

    method EvictTail()
      requires Valid() && MayEvict(St())
      modifies this`lru, this`bufs, this`run
      ensures Valid() && St() == EvictNext(old(St()))
    {
      RecordQuiet(Evict);
      DropLast();
    }

    lemma TailIsCached()
      requires Valid() && lru != []
      ensures lru[|lru| - 1] in bufs
    {
      ViewIsReal();
      assert lru[|lru| - 1] in lru;
    }

    /** A full cache gives up its least recently used block, unless that is pinned or locked. */
    method EvictIfFull()
      requires Valid()
      modifies this`lru, this`bufs, this`run
      ensures Valid()
      ensures MayEvict(old(St())) ==> St() == EvictNext(old(St()))
      ensures !MayEvict(old(St())) ==> bufs == old(bufs) && lru == old(lru)
    {
      if |lru| > EVICTION_THRESHOLD {
        TailIsCached();
        var b := lru[|lru| - 1];
        if !bufs[b].pinned && !bufs[b].acquired {
          EvictTail();
        }
      }
    }

    lemma UnlockedBlock(b: nat)
      requires Valid() && b in bufs && bufs[b].holder.None?
      ensures bufs[b].valid && bufs[b].waiters == []
    {
      ViewIsReal();
      UnlockedIsLoaded(layout, St(), b);
    }

    method AcquireCached(t: Tid, b: nat)
      requires Valid() && MayAcquire(layout, St(), t, b) && b in bufs && bufs[b].holder.None?
      modifies this`bufs, this`lru, this`run
      ensures Valid() && Held(St(), t, b) && OthersKept(b)
      ensures St() == TouchNext(HitNext(old(St()), t, b), b)
      ensures bufs[b] == old(bufs[b]).(acquired := true, holder := Some(t))
      ensures old(bufs[b]).valid && bufs[b].waiters == [] && bufs.Keys == old(bufs).Keys && Fronted(old(lru), b, lru)
    {
      FrontedOk(lru, b, [b] + Without(lru, b));
      UnlockedBlock(b);
      RecordQuiet(AcquireHit(t, b));
      LockBlock(t, b);
      RecordQuiet(Touch(t, b));
      MoveToFront(b);
    }

    method AddBlock(t: Tid, b: nat)
      requires Valid() && MayAcquire(layout, St(), t, b) && b !in bufs
      modifies this`bufs, this`lru, this`run
      ensures Valid() && St() == MissNext(old(St()), t, b)
    {
      RecordQuiet(AcquireMiss(t, b));
      InsertBlock(t, b);
    }

    method LoadBlock(t: Tid, b: nat)
      requires Valid() && b in bufs && b in disk && !bufs[b].valid && bufs[b].holder == Some(t)
      modifies this`bufs, this`run
      ensures Valid() && St() == LoadNext(old(St()), b)
    {
      RecordQuiet(Load(t, b));
      ReadBlock(b);
    }

    method AcquireFromDisk(t: Tid, b: nat)
      requires Valid() && MayAcquire(layout, St(), t, b) && b !in bufs && b in disk
      modifies this`bufs, this`lru, this`run
      ensures Valid() && b in bufs && bufs[b] == Buf(disk[b], true, false, true, Some(t), [])
      ensures St() == LoadNext(MissNext(old(St()), t, b), b)
      ensures forall x :: x != b && x in bufs ==> x in old(bufs) && bufs[x] == old(bufs[x])
      ensures forall x :: x in old(bufs) ==> x in bufs
    {
      AddBlock(t, b);
      LoadBlock(t, b);
    }

    lemma CacheShowsView(b: nat)
      requires Valid() && layout.Home(b) && !Booting(St()) && b in disk
      ensures b in view.mem && view.mem[b] == CachedAt(disk, bufs, b)
    {
      ViewIsReal();
    }

    lemma NotInList(b: nat)
      requires Valid() && b !in bufs
      ensures Without(lru, b) == lru && forall x :: x in lru <==> x in bufs
    {
      ViewIsReal();
      WithoutAbsent(lru, b);
    }

    /** The list orders the cached blocks by their last use in the run, since the boot that emptied the cache. */
    lemma LeastRecentlyUsed()
      requires Valid() && origin.lru == []
      ensures ByUse(run, lru) && forall b :: b in lru <==> b in bufs
    {
      assert Unfold(0);
      ListIsByUse(layout, origin, run);
    }

    method AcquireUncached(t: Tid, b: nat)
      requires Valid() && MayAcquire(layout, St(), t, b) && b !in bufs && b in disk
      modifies this`bufs, this`lru, this`run
      ensures Valid() && OthersKept(b) && b in bufs
      ensures bufs[b] == Buf(disk[b], true, false, true, Some(t), [])
      ensures var s := LoadNext(MissNext(old(St()), t, b), b); St() == if MayEvict(s) then EvictNext(s) else s
      ensures Fronted(old(lru), b, lru)
      ensures bufs.Keys == CachedWith(old(lru), old(bufs), b)
    {
      ghost var s := St();
      NotInList(b);
      AcquireFromDisk(t, b);
      EvictIfFull();
      MissEffect(s, t, b, St());
    }

    /**
     Locks block `b` and returns its contents: those of the cache when it is cached, those of the
     disk when it is not.
     */
    method Acquire(t: Tid, b: nat) returns (data: Block)
      requires Valid() && MayAcquire(layout, St(), t, b) && b in disk
      requires b in bufs ==> bufs[b].holder.None?
      modifies this`bufs, this`lru, this`run
      ensures Valid() && Held(St(), t, b) && data == bufs[b].data == CachedAt(disk, old(bufs), b)
      ensures OthersKept(b) && bufs[b].acquired && bufs[b].waiters == []
      ensures b in old(bufs) ==> St() == TouchNext(HitNext(old(St()), t, b), b)
      ensures b !in old(bufs) ==> var s := LoadNext(MissNext(old(St()), t, b), b);
                St() == if MayEvict(s) then EvictNext(s) else s
      ensures Fronted(old(lru), b, lru)
      ensures b in old(bufs) ==> bufs.Keys == old(bufs).Keys
      ensures b !in old(bufs) ==> bufs.Keys == CachedWith(old(lru), old(bufs), b)
      ensures bufs[b].pinned == Pinned(old(bufs), b)
      ensures layout.Home(b) && !Booting(St()) ==> b in view.mem && data == view.mem[b]
    {
      if layout.Home(b) && !Booting(St()) {
        CacheShowsView(b);
      }
      var found := Search(b);
      if found {
        AcquireCached(t, b);
      } else {
        AcquireUncached(t, b);
      }
      data := bufs[b].data;
    }

    method Release(t: Tid, b: nat)
      requires Valid() && Held(St(), t, b) && b !in dirty
      modifies this`bufs, this`run
      ensures Valid() && St() == ReleaseNext(old(St()), b)
    {
      RecordQuiet(LogProtocol.Release(t, b));
      UnlockBlock(b);
    }

    // ------------------------------------------------------------ operations

    method Reserve(t: Tid)
      modifies this`outstanding, this`contexts, this`realUse
      ensures St() == BeginNext(old(St()), t)
    {
      outstanding := outstanding + 1;
      contexts := contexts[t := OP_MAX_NUM_BLOCKS];
      realUse := realUse + OP_MAX_NUM_BLOCKS;
    }

    /** One turn of the loop of `begin_op`: the operation starts, or the thread must sleep. */
    method TryBeginOp(t: Tid) returns (started: bool)
      requires Valid() && t !in contexts && !Booting(St())
      modifies this`outstanding, this`contexts, this`realUse, this`run
      ensures Valid()
      ensures started <==> !old(committing) && old(realUse) + 10 <= layout.numLogBlocks - 1 && old(realUse) + 10 <= 63
      ensures started ==> St() == BeginNext(old(St()), t) && outstanding == old(outstanding) + 1 &&
                          realUse == old(realUse) + 10 && contexts == old(contexts)[t := 10]
      ensures !started ==> St() == old(St())
    {
      if committing
         || realUse + OP_MAX_NUM_BLOCKS > layout.numLogBlocks - 1
         || realUse + OP_MAX_NUM_BLOCKS > LOG_MAX_SIZE {
        started := false;
      } else {
        started := true;
        RecordQuiet(Begin(t));
        Reserve(t);
      }
    }

    method StoreData(b: nat, data: Block)
      requires b in bufs
      modifies this`bufs, this`dirty
      ensures St() == ModifyNext(old(St()), b, data)
    {
      bufs := bufs[b := bufs[b].(data := data)];
      dirty := dirty + {b};
    }

    /** A client changes a block it has locked. */
    method Change(t: Tid, b: nat, data: Block)
      requires Valid() && Held(St(), t, b) && t in contexts && layout.Home(b)
      modifies this`bufs, this`dirty, this`run, this`view
      ensures Valid() && St() == ModifyNext(old(St()), b, data)
      ensures view == Spec(old(view).mem[b := data], old(view).durable)
    {
      Record(Modify(t, b, data));
      StoreData(b, data);
    }

    /** The search loop of `cache_sync`. */
    method FindSlot(b: nat) returns (i: nat)
      requires header.num <= |header.blockNo|
      ensures i == Slot(header, b)
    {
      i := 0;
      while i < header.num
        invariant i <= header.num
        invariant Slot(header, b) == Slot(header, b, i)
      {
        if header.blockNo[i] == b {
          break;
        }
        i := i + 1;
      }
    }

    method PinAndLog(t: Tid, b: nat)
      requires layout.Valid() && b in bufs && SyncFits(layout, St(), t, b)
      modifies this`bufs, this`dirty, this`header, this`contexts
      ensures St() == SyncNext(layout, old(St()), t, b)
    {
      bufs := bufs[b := bufs[b].(pinned := true)];
      dirty := dirty - {b};
      var i := FindSlot(b);
      if i == header.num {
        header := LogHeader(header.num + 1, header.blockNo[i := b]);
        contexts := contexts[t := contexts[t] - 1];
      }
    }

    /** The operation logs the block already, or it has budget left for one more. */
    ghost predicate WithinBudget(t: Tid, b: nat)
      requires t in contexts
      reads this
    {
      0 < contexts[t] || (header.num <= |header.blockNo| && Slot(header, b) < header.num)
    }

    lemma BudgetFits(t: Tid, b: nat)
      requires Valid() && t in contexts && layout.Home(b) && WithinBudget(t, b)
      ensures SyncFits(layout, St(), t, b)
    {
      ViewIsReal();
      SyncAlwaysFits(layout, St(), t, b);
    }

    method SyncLogged(t: Tid, b: nat)
      requires Valid() && Held(St(), t, b) && t in contexts && layout.Home(b) && WithinBudget(t, b)
      modifies this`bufs, this`dirty, this`header, this`contexts, this`run
      ensures Valid() && SyncFits(layout, old(St()), t, b) && St() == SyncNext(layout, old(St()), t, b)
    {
      BudgetFits(t, b);
      RecordQuiet(LogProtocol.Sync(t, b));
      PinAndLog(t, b);
    }

    method PutHome(b: nat)
      requires b in bufs
      modifies this`disk, this`dirty
      ensures St() == DirectNext(old(St()), b)
    {
      disk := disk[b := bufs[b].data];
      dirty := dirty - {b};
    }

    method SyncDirect(t: Tid, b: nat)
      requires Valid() && Held(St(), t, b) && layout.Home(b) && !Booting(St())
      modifies this`disk, this`dirty, this`run, this`view
      ensures Valid() && St() == DirectNext(old(St()), b) && b in old(view).mem
      ensures view == Spec(old(view).mem, old(view).durable[b := old(view).mem[b]])
    {
      assert b in view.mem by {
        ViewIsReal();
        HomeIsThere(layout, St(), b);
      }
      Record(Direct(t, b));
      PutHome(b);
    }

    /**
     Inside an operation, adds block `b` to the log unless it is there already; the kernel panics
     (`!ok`) exactly when it is not and the operation's budget is spent, and otherwise the
     log and the header always have room. Outside an operation, the block goes home.
     */
    method Sync(t: Tid, inOp: bool, b: nat) returns (ok: bool)
      requires Valid() && Held(St(), t, b) && layout.Home(b) && !Booting(St()) && (inOp ==> t in contexts)
      modifies this`bufs, this`dirty, this`header, this`contexts, this`run, this`disk, this`view
      ensures Valid() && origin == old(origin)
      ensures ok <==> inOp ==> old(WithinBudget(t, b))
      ensures ok && inOp ==>
                SyncFits(layout, old(St()), t, b) && St() == SyncNext(layout, old(St()), t, b) && view == old(view)
      ensures !inOp ==>
                && St() == DirectNext(old(St()), b) && b in old(view).mem
                && view == Spec(old(view).mem, old(view).durable[b := old(view).mem[b]])
      ensures !ok ==> St() == old(St()) && view == old(view)
    {
      ok := true;
      if inOp {
        HeaderFacts();
        var i := FindSlot(b);
        if i == header.num && contexts[t] == 0 {
          ok := false;
        } else {
          SyncLogged(t, b);
        }
      } else {
        SyncDirect(t, b);
      }
    }

    // ------------------------------------------------------------ commit

    method EndRaw(t: Tid)
      requires t in contexts && 0 < outstanding && contexts[t] <= realUse
      modifies this`outstanding, this`realUse, this`contexts, this`committing, this`phase, this`ended
      ensures St() == EndNext(old(St()), t)
    {
      outstanding := outstanding - 1;
      realUse := realUse - contexts[t];
      contexts := contexts - {t};
      if outstanding == 0 {
        committing := true;
        phase := WriteLog(t, 0);
      } else {
        ended := ended + {t};
      }
    }

    method CopyToLog(i: nat)
      requires phase.WriteLog? && phase.i == i && HoldsPair(layout, St(), phase.c, i)
      modifies this`bufs, this`disk, this`phase
      ensures St() == LogCopyNext(layout, old(St()))
    {
      var from, to := header.blockNo[i], layout.LogBlock(i);
      var data := bufs[from].data;
      bufs := bufs[to := bufs[to].(data := data)];
      disk := disk[to := data];
      phase := WriteLog(phase.c, i + 1);
    }

    method CopyHome(i: nat)
      requires phase.Install? && phase.i == i && HoldsPair(layout, St(), phase.c, i)
      modifies this`bufs, this`disk, this`phase
      ensures St() == InstallCopyNext(layout, old(St()))
    {
      var from, to := layout.LogBlock(i), header.blockNo[i];
      var data := bufs[from].data;
      bufs := bufs[to := bufs[to].(data := data, pinned := false)];
      disk := disk[to := data];
      phase := Install(phase.c, i + 1, phase.boot);
    }

    method PutHeader()
      requires phase.WriteLog? && |header.blockNo| == LOG_MAX_SIZE
      modifies this`disk, this`phase
      ensures St() == WriteHeaderNext(layout, old(St()))
    {
      disk := disk[layout.logStart := HeaderBlock(header)];
      phase := Install(phase.c, 0, false);
    }

    method EmptyHeader()
      requires phase.Install? && |header.blockNo| == LOG_MAX_SIZE
      modifies this`header, this`disk, this`phase
      ensures St() == ClearHeaderNext(layout, old(St()))
    {
      header := header.(num := 0);
      disk := disk[layout.logStart := HeaderBlock(header)];
      phase := if phase.boot then Idle else Cleared(phase.c);
    }

    method ResetLog()
      requires phase.Cleared?
      modifies this`committing, this`realUse, this`phase, this`posting
      ensures St() == FinishNext(old(St()))
    {
      committing := false;
      realUse := 0;
      posting := posting + {phase.c};
      phase := Idle;
    }

    method WakeSleepers(t: Tid)
      modifies this`posting, this`sleepers
      ensures St() == old(St()).(posting := old(posting) - {t}, sleepers := {})
    {
      posting := posting - {t};
      sleepers := {};
    }

    /** What the copy loops need to know about entry `i`. */
    lemma EntryFacts(t: Tid, i: nat)
      requires Valid() && !phase.Idle? && phase.c == t && i < header.num
      ensures |header.blockNo| == LOG_MAX_SIZE && header.num <= LOG_MAX_SIZE && dirty == {}
      ensures layout.Home(header.blockNo[i]) && header.blockNo[i] in disk
      ensures MayAcquire(layout, St(), t, layout.LogBlock(i)) && layout.LogBlock(i) in disk
      ensures header.blockNo[i] != layout.LogBlock(i)
    {
      ViewIsReal();
      NothingDirty(layout, disk, bufs, dirty);
    }

    /** Locks the two blocks of entry `i`, home block first or last as the loop does. */
    method AcquirePair(t: Tid, first: nat, second: nat)
      requires Valid() && AllUnlocked() && first != second && dirty == {}
      requires MayAcquire(layout, St(), t, first) && first in disk
      requires MayAcquire(layout, St(), t, second) && second in disk
      modifies this`bufs, this`lru, this`run
      ensures Valid() && Held(St(), t, first) && Held(St(), t, second)
      ensures bufs[first].waiters == [] && bufs[second].waiters == []
      ensures forall b :: b in bufs && b != first && b != second ==> bufs[b].holder.None?
    {
      var _ := Acquire(t, first);
      var _ := Acquire(t, second);
    }

    method ReleasePair(t: Tid, first: nat, second: nat)
      requires Valid() && Held(St(), t, first) && Held(St(), t, second) && first != second && dirty == {}
      requires bufs[first].waiters == [] && bufs[second].waiters == []
      requires forall b :: b in bufs && b != first && b != second ==> bufs[b].holder.None?
      modifies this`bufs, this`run
      ensures Valid() && AllUnlocked()
    {
      Release(t, first);
      Release(t, second);
    }

    method DoLogCopy(i: nat)
      requires Valid() && phase.WriteLog? && phase.i == i && HoldsPair(layout, St(), phase.c, i)
      modifies this`bufs, this`disk, this`phase, this`run
      ensures Valid() && St() == LogCopyNext(layout, old(St()))
    {
      RecordQuiet(LogCopy);
      CopyToLog(i);
    }

    method DoInstallCopy(i: nat)
      requires Valid() && phase.Install? && phase.i == i && HoldsPair(layout, St(), phase.c, i)
      modifies this`bufs, this`disk, this`phase, this`run
      ensures Valid() && St() == InstallCopyNext(layout, old(St()))
    {
      RecordQuiet(InstallCopy);
      CopyHome(i);
    }

    method LogEntry(t: Tid, i: nat)
      requires Valid() && phase == WriteLog(t, i) && i < header.num && AllUnlocked()
      modifies this`bufs, this`lru, this`disk, this`phase, this`run
      ensures Valid() && phase == WriteLog(t, i + 1) && AllUnlocked()
    {
      EntryFacts(t, i);
      var from, to := header.blockNo[i], layout.LogBlock(i);
      AcquirePair(t, from, to);
      DoLogCopy(i);
      ReleasePair(t, from, to);
    }

    method InstallEntry(t: Tid, i: nat)
      requires Valid() && phase.Install? && phase.c == t && phase.i == i && i < header.num && AllUnlocked()
      modifies this`bufs, this`lru, this`disk, this`phase, this`run
      ensures Valid() && phase == Install(t, i + 1, old(phase).boot) && AllUnlocked()
    {
      EntryFacts(t, i);
      var from, to := layout.LogBlock(i), header.blockNo[i];
      AcquirePair(t, from, to);
      DoInstallCopy(i);
      ReleasePair(t, from, to);
    }

    lemma HeaderFacts()
      requires Valid()
      ensures |header.blockNo| == LOG_MAX_SIZE && header.num <= LOG_MAX_SIZE
    {
      ViewIsReal();
    }

    method DoWriteHeader()
      requires Valid() && phase.WriteLog? && phase.i == header.num
      modifies this`disk, this`phase, this`run, this`view
      ensures Valid() && phase == Install(old(phase).c, 0, false) && view == Spec(old(view).mem, old(view).mem)
      ensures header == old(header)
    {
      HeaderFacts();
      Record(WriteHeader);
      PutHeader();
    }

    method DoClearHeader()
      requires Valid() && phase.Install? && phase.i == header.num
      modifies this`header, this`disk, this`phase, this`run
      ensures Valid() && header.num == 0
      ensures phase == if old(phase).boot then Idle else Cleared(old(phase).c)
    {
      HeaderFacts();
      RecordQuiet(ClearHeader);
      EmptyHeader();
    }

    /** The loop that copies the logged blocks home, used by a commit and by recovery alike. */
    method InstallAll(t: Tid)
      requires Valid() && phase.Install? && phase.c == t && phase.i == 0 && AllUnlocked()
      modifies this`bufs, this`lru, this`disk, this`phase, this`run, this`header
      ensures Valid() && AllUnlocked() && header.num == 0
      ensures phase == if old(phase).boot then Idle else Cleared(t)
    {
      var i := 0;
      while i < header.num
        invariant i <= header.num && header == old(header)
        invariant Valid() && AllUnlocked() && phase == Install(t, i, old(phase).boot)
      {
        InstallEntry(t, i);
        i := i + 1;
      }
      DoClearHeader();
    }

    method LogAll(t: Tid)
      requires Valid() && phase == WriteLog(t, 0) && AllUnlocked()
      modifies this`bufs, this`lru, this`disk, this`phase, this`run
      ensures Valid() && AllUnlocked() && phase == WriteLog(t, header.num)
    {
      var i := 0;
      while i < header.num
        invariant i <= header.num
        invariant Valid() && AllUnlocked() && phase == WriteLog(t, i)
      {
        LogEntry(t, i);
        i := i + 1;
      }
    }

    /** The last operation to end commits the whole group; its log, once full, is installed and emptied. */
    method Commit(t: Tid)
      requires Valid() && phase == WriteLog(t, 0) && AllUnlocked()
      modifies this`bufs, this`lru, this`disk, this`phase, this`run, this`header, this`view
      ensures Valid() && AllUnlocked() && phase == Cleared(t) && header.num == 0
      ensures view == Spec(old(view).mem, old(view).mem)
    {
      LogAll(t);
      DoWriteHeader();
      InstallAll(t);
    }

    method Finalize(t: Tid)
      requires Valid() && phase == Cleared(t)
      modifies this`committing, this`realUse, this`phase, this`posting, this`sleepers, this`run
      ensures Valid() && phase.Idle? && !committing && realUse == 0 && sleepers == {}
    {
      RecordQuiet(Finish);
      ResetLog();
      RecordQuiet(PostEnd(t));
      WakeSleepers(t);
    }

    lemma AllOnDisk()
      requires Valid() && phase.Idle?
      ensures forall b :: layout.Home(b) ==> b in disk && b in view.durable && disk[b] == view.durable[b]
    {
      ViewIsReal();
      HomeBlocksAreDurable(layout, St());
    }

    lemma MayEnd(t: Tid)
      requires Valid() && t in contexts
      ensures 0 < outstanding && contexts[t] <= realUse && phase.Idle?
    {
      ViewIsReal();
      EndNeverUnderflows(layout, St(), t);
    }

    method DoEnd(t: Tid)
      requires Valid() && t in contexts && forall b :: b in dirty ==> !Held(St(), t, b)
      modifies this`outstanding, this`realUse, this`contexts, this`committing, this`phase, this`ended, this`run
      ensures 0 < old(outstanding) && old(contexts)[t] <= old(realUse)
      ensures Valid() && St() == EndNext(old(St()), t)
    {
      MayEnd(t);
      RecordQuiet(End(t));
      EndRaw(t);
    }

    /**
     Ends an operation. The last one to end returns only when everything clients have written is
     on disk, in its home blocks; any other one is on its way to sleep until a commit.
     */
    method EndOp(t: Tid)
      requires Valid() && t in contexts && forall b :: b in dirty ==> !Held(St(), t, b)
      requires outstanding == 1 ==> AllUnlocked()
      modifies this
      ensures Valid() && origin == old(origin)
      ensures old(outstanding) == 1 ==>
                && view == Spec(old(view).mem, old(view).mem)
                && header.num == 0 && realUse == 0 && outstanding == 0 && !committing
                && forall b :: layout.Home(b) ==> b in disk && b in old(view).mem && disk[b] == old(view).mem[b]
      ensures 0 < old(outstanding) && old(contexts)[t] <= old(realUse)
      ensures old(outstanding) != 1 ==> St() == EndNext(old(St()), t) && view == old(view) && t in ended
    {
      DoEnd(t);
      if outstanding == 0 {
        Commit(t);
        Finalize(t);
        AllOnDisk();
      }
    }

    // ------------------------------------------------------------ recovery

    /**
     Boots from whatever a crash left on the disk. When it returns, every home block holds what
     the last committed group left in it, and the log is empty.
     */
    constructor (l: Layout, d: Disk, t: Tid)
      requires l.Valid() && DiskOk(l, d)
      ensures Valid() && layout == l && header.num == 0 && contexts == map[] && origin.lru == []
      ensures forall b :: l.Home(b) ==> b in disk && disk[b] == RecoveredAt(l, d, b)
    {
      layout := l;
      disk, bufs, lru, header := d, map[], [], HeaderOf(d[l.logStart]);
      outstanding, committing, realUse, contexts := 0, false, 0, map[];
      dirty, phase, ended, sleepers, posting := {}, Install(t, 0, true), {}, {}, {};
      origin, run := Boot(l, d, t), [];
      BootIsGood(l, d, t);
      view := Abs(l, Boot(l, d, t));
      new;
      InstallAll(t);
      AllOnDisk();
    }
  }

  lemma BootIsGood(l: Layout, d: Disk, t: Tid)
    requires l.Valid() && DiskOk(l, d)
    ensures Good(l, Boot(l, d, t))
    ensures forall b :: l.Home(b) ==>
              b in Abs(l, Boot(l, d, t)).durable && Abs(l, Boot(l, d, t)).durable[b] == RecoveredAt(l, d, b)
  {
  }
}
