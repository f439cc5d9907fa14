/** What the refinement means for callers: atomic commits, durability, and the log space. */
module LogTheorems {
  import opened Common
  import opened Bytes
  import opened LogProtocol
  import opened LogProofs

  /** A file system that has just finished booting. */
  function Fresh(d: Disk, h: LogHeader): State {
    State(d, map[], [], h, 0, false, 0, map[], {}, Idle, {}, {}, {})
  }

  /** A disk whose log is empty boots into a state that satisfies the invariant. */
  lemma FreshIsOk(l: Layout, d: Disk)
    requires l.Valid() && DiskOk(l, d) && HeaderOf(d[l.logStart]).num == 0
    ensures var s := Fresh(d, HeaderOf(d[l.logStart]));
            && Inv(l, s) && ListOk(s)
            && Mem(l, s) == Durable(l, s)
            && forall b :: l.Home(b) ==> b in Mem(l, s) && Mem(l, s)[b] == d[b]
  {
    CleanCacheShowsDisk(l, Fresh(d, HeaderOf(d[l.logStart])));
  }

  // ---------------------------------------------------------------- one block over a run

  /** The run changes block `b`. */
  predicate Changed(acts: seq<Action>, b: nat) {
    exists i :: 0 <= i < |acts| && acts[i].Modify? && acts[i].b == b
  }

  /** Before any crash, a header write or a direct write of `b` reached the disk. */
  predicate Saved(acts: seq<Action>, b: nat) {
    && acts != [] && !acts[0].Crash?
    && (acts[0].WriteHeader? || (acts[0].Direct? && acts[0].b == b) || Saved(acts[1..], b))
  }

  /** The header write of the interrupted commit reached the disk. */
  predicate Committed(acts: seq<Action>) {
    acts != [] && !acts[0].Crash? && (acts[0].WriteHeader? || Committed(acts[1..]))
  }

  predicate Undirected(acts: seq<Action>) {
    forall i :: 0 <= i < |acts| ==> !acts[i].Direct?
  }

  lemma {:induction false} SavedIsCommitted(acts: seq<Action>, b: nat)
    requires Undirected(acts)
    ensures Saved(acts, b) == Committed(acts)
  {
    if acts != [] {
      assert forall i :: 0 <= i < |acts| - 1 ==> acts[1..][i] == acts[i + 1];
      SavedIsCommitted(acts[1..], b);
    }
  }

  lemma UnchangedTail(acts: seq<Action>, b: nat)
    requires acts != [] && !Changed(acts, b)
    ensures !Changed(acts[1..], b) && !(acts[0].Modify? && acts[0].b == b)
  {
    assert forall i :: 0 <= i < |acts| - 1 ==> acts[1..][i] == acts[i + 1];
  }

  /** What becomes durable of a block that is not changed again, whatever happens to all others. */
  lemma {:induction false} SpecBlock(x: Spec, acts: seq<Action>, b: nat)
    requires b in x.mem && b in x.durable && !Changed(acts, b)
    ensures var y := SpecExec(x, acts);
            b in y.mem && b in y.durable && y.durable[b] == if Saved(acts, b) then x.mem[b] else x.durable[b]
    decreases |acts|
  {
    if acts != [] {
      UnchangedTail(acts, b);
      SpecBlock(SpecNext(x, acts[0]), acts[1..], b);
    }
  }

  lemma HomeIsThere(l: Layout, s: State, b: nat)
    requires l.Valid() && DiskOk(l, s.disk) && l.Home(b)
    ensures b in Mem(l, s) && b in Durable(l, s)
  {
  }

  // ---------------------------------------------------------------- atomic commit

  /**
   Crash atomicity. Let a commit start in `s`, and let anything follow: any part of the commit,
   crashes, and recoveries cut short any number of times. Once the system is up again, every
   home block that was not changed meanwhile holds its new contents if the header write of
   the commit came before the first crash, or a direct write of that block did, and its
   old contents otherwise. Without direct writes all blocks are new or all are old.
   */
  lemma CommitIsAtomic(l: Layout, s: State, acts: seq<Action>)
    requires l.Valid() && Inv(l, s) && ListOk(s) && s.phase.WriteLog?
    requires Exec(l, s, acts).Some? && Exec(l, s, acts).value.phase.Idle?
    ensures var d := Exec(l, s, acts).value.disk;
            forall b :: l.Home(b) && !Changed(acts, b) ==>
              b in d && d[b] == (if Saved(acts, b) then Mem(l, s) else Durable(l, s))[b]
    ensures var d := Exec(l, s, acts).value.disk;
            Undirected(acts) ==> forall b :: l.Home(b) && !Changed(acts, b) ==>
              b in d && d[b] == (if Committed(acts) then Mem(l, s) else Durable(l, s))[b]
  {
    var s' := Exec(l, s, acts).value;
    RunRefines(l, s, acts);
    HomeBlocksAreDurable(l, s');
    forall b | l.Home(b) && !Changed(acts, b)
      ensures b in s'.disk && s'.disk[b] == (if Saved(acts, b) then Mem(l, s) else Durable(l, s))[b]
      ensures Undirected(acts) ==> Saved(acts, b) == Committed(acts)
    {
      HomeIsThere(l, s, b);
      SpecBlock(Abs(l, s), acts, b);
      if Undirected(acts) {
        SavedIsCommitted(acts, b);
      }
    }
  }

  /** Outside a commit the home blocks themselves hold the committed contents. */
  lemma HomeBlocksAreDurable(l: Layout, s: State)
    requires l.Valid() && Inv(l, s) && (s.phase.Idle? || s.phase.WriteLog? || s.phase.Cleared?)
    ensures forall b :: l.Home(b) ==> b in s.disk && b in Durable(l, s) && Durable(l, s)[b] == s.disk[b]
  {
    forall b | l.Home(b)
      ensures b in s.disk && RecoveredAt(l, s.disk, b) == s.disk[b]
    {
    }
  }

  // ---------------------------------------------------------------- durability on return

  ghost predicate CommitCarries(l: Layout, s: State, m: map<nat, Block>)
    requires l.Valid() && DiskOk(l, s.disk)
  {
    && Mem(l, s) == m && !Booting(s)
    && (s.phase.WriteLog? || (!s.phase.Idle? && Durable(l, s) == m))
  }

  lemma CommitStep(l: Layout, s: State, a: Action, m: map<nat, Block>)
    requires l.Valid() && Inv(l, s) && Enabled(l, s, a) && !a.Crash? && !a.Finish?
    requires CommitCarries(l, s, m)
    ensures Inv(l, Next(l, s, a)) && CommitCarries(l, Next(l, s, a), m)
  {
    if a.Direct? {
      DirectKeeps(l, s, a.t, a.b);
      assert m[a.b := m[a.b]] == m;
    } else {
      StepRefines(l, s, a);
      assert !a.Modify?;
    }
  }

  /**
   `end_op` keeps its promise to the caller that runs the commit: when that commit finishes,
   whatever the other threads did meanwhile, all that was visible when it began is on disk.
   */
  lemma {:induction false} CommitterIsDurable(l: Layout, s: State, acts: seq<Action>, m: map<nat, Block>)
    requires l.Valid() && Inv(l, s) && CommitCarries(l, s, m)
    requires Exec(l, s, acts + [Finish]).Some?
    requires forall i :: 0 <= i < |acts| ==> !acts[i].Crash? && !acts[i].Finish?
    ensures var s' := Exec(l, s, acts + [Finish]).value;
            && Inv(l, s') && Durable(l, s') == m && Mem(l, s') == m
            && forall b :: l.Home(b) ==> b in s'.disk && b in m && s'.disk[b] == m[b]
    decreases |acts|
  {
    if acts == [] {
      assert Exec(l, s, [Finish]) == Exec(l, FinishNext(s), []);
      StepRefines(l, s, Finish);
      HomeBlocksAreDurable(l, FinishNext(s));
    } else {
      var rest := acts + [Finish];
      assert rest[0] == acts[0] && rest[1..] == acts[1..] + [Finish];
      CommitStep(l, s, acts[0], m);
      CommitterIsDurable(l, Next(l, s, acts[0]), acts[1..], m);
    }
  }

  lemma {:induction false} SpecAppend(x: Spec, a: seq<Action>, b: seq<Action>)
    ensures SpecExec(x, a + b) == SpecExec(SpecExec(x, a), b)
    decreases |a|
  {
    if a == [] {
      assert a + b == b;
    } else {
      assert (a + b)[0] == a[0] && (a + b)[1..] == a[1..] + b;
      SpecAppend(SpecNext(x, a[0]), a[1..], b);
    }
  }

  predicate Written(acts: seq<Action>, b: nat) {
    exists i :: 0 <= i < |acts| && (acts[i].WriteHeader? || (acts[i].Direct? && acts[i].b == b))
  }

  lemma {:induction false} DurableNeedsWrite(x: Spec, acts: seq<Action>, b: nat)
    requires b in x.mem && b in x.durable && !Written(acts, b)
    ensures var y := SpecExec(x, acts); b in y.mem && b in y.durable && y.durable[b] == x.durable[b]
    decreases |acts|
  {
    if acts != [] {
      assert forall i :: 0 <= i < |acts| - 1 ==> acts[1..][i] == acts[i + 1];
      DurableNeedsWrite(SpecNext(x, acts[0]), acts[1..], b);
    }
  }

  lemma {:induction false} SpecHas(x: Spec, acts: seq<Action>, b: nat)
    requires b in x.mem && b in x.durable
    ensures var y := SpecExec(x, acts); b in y.mem && b in y.durable
    decreases |acts|
  {
    if acts != [] {
      SpecHas(SpecNext(x, acts[0]), acts[1..], b);
    }
  }

  lemma SpecLastHeader(x: Spec, before: seq<Action>, after: seq<Action>, b: nat)
    requires b in x.mem && b in x.durable && !Written(after, b)
    ensures var y := SpecExec(x, before + [WriteHeader] + after);
            b in y.durable && b in SpecExec(x, before).mem && y.durable[b] == SpecExec(x, before).mem[b]
  {
    SpecAppend(x, before + [WriteHeader], after);
    SpecAppend(x, before, [WriteHeader]);
    SpecHas(x, before, b);
    var y := SpecExec(x, before);
    assert SpecExec(y, [WriteHeader]) == SpecExec(SpecNext(y, WriteHeader), []);
    DurableNeedsWrite(SpecExec(x, before + [WriteHeader]), after, b);
  }

  /**
   In every run, what a crash would leave of a block is what the clients saw of it at the last
   header write, unless it was written directly since.
   */
  lemma DurableIsLastHeader(l: Layout, s: State, before: seq<Action>, after: seq<Action>, b: nat)
    requires l.Valid() && Inv(l, s) && ListOk(s) && l.Home(b)
    requires Exec(l, s, before + [WriteHeader] + after).Some? && !Written(after, b)
    ensures var s', x := Exec(l, s, before + [WriteHeader] + after).value, SpecExec(Abs(l, s), before);
            Inv(l, s') && b in Durable(l, s') && b in x.mem && Durable(l, s')[b] == x.mem[b]
  {
    HomeIsThere(l, s, b);
    SpecLastHeader(Abs(l, s), before, after, b);
    RunRefines(l, s, before + [WriteHeader] + after);
  }

  lemma {:induction false} ExecAppend(l: Layout, s: State, a: seq<Action>, b: seq<Action>)
    requires l.Valid() && Exec(l, s, a).Some?
    ensures Exec(l, s, a + b) == Exec(l, Exec(l, s, a).value, b)
    decreases |a|
  {
    if a == [] {
      assert a + b == b;
    } else {
      assert (a + b)[0] == a[0] && (a + b)[1..] == a[1..] + b;
      ExecAppend(l, Next(l, s, a[0]), a[1..], b);
    }
  }

  predicate Crashless(acts: seq<Action>) {
    forall i :: 0 <= i < |acts| ==> !acts[i].Crash?
  }

  /** Extends a run by one enabled action. */
  lemma Then(l: Layout, s0: State, acts: seq<Action>, s: State, a: Action) returns (acts': seq<Action>)
    requires l.Valid() && Exec(l, s0, acts) == Some(s) && Enabled(l, s, a)
    ensures acts' == acts + [a] && Exec(l, s0, acts') == Some(Next(l, s, a))
    ensures Crashless(acts) && !a.Crash? ==> Crashless(acts')
  {
    acts' := acts + [a];
    ExecAppend(l, s0, acts, [a]);
    assert Exec(l, s, [a]) == Exec(l, Next(l, s, a), [a][1..]);
  }

  lemma EmptyOperation(l: Layout, d: Disk, h: LogHeader) returns (acts: seq<Action>)
    requires l.Valid() && h.num == 0 && l.LogSpace() >= 20
    ensures Exec(l, Fresh(d, h), acts) == Some(Fresh(d, h).(committing := true, phase := WriteLog(1, 0)))
    ensures Crashless(acts)
  {
    var s := Fresh(d, h);
    acts := Then(l, s, [], s, Begin(1));
    var s1 := BeginNext(s, 1);
    acts := Then(l, s, acts, s1, End(1));
    assert EndNext(s1, 1) == s.(committing := true, phase := WriteLog(1, 0));
  }

  /** A commit of thread 1 with nothing to write, up to but not including its wake-up of the sleepers. */
  lemma EmptyCommit(l: Layout, d: Disk, h: LogHeader) returns (acts: seq<Action>)
    requires l.Valid() && |h.blockNo| == LOG_MAX_SIZE && h.num == 0 && l.LogSpace() >= 20
    ensures Exec(l, Fresh(d, h), acts) == Some(Fresh(d[l.logStart := HeaderBlock(h)], h).(posting := {1}))
    ensures Crashless(acts)
  {
    var s := Fresh(d, h);
    acts := EmptyOperation(l, d, h);
    var s2 := s.(committing := true, phase := WriteLog(1, 0));
    acts := Then(l, s, acts, s2, WriteHeader);
    var s3 := WriteHeaderNext(l, s2);
    acts := Then(l, s, acts, s3, ClearHeader);
    var s4 := ClearHeaderNext(l, s3);
    assert h.(num := 0) == h && s4.disk == d[l.logStart := HeaderBlock(h)];
    acts := Then(l, s, acts, s4, Finish);
    assert FinishNext(s4) == Fresh(s4.disk, h).(posting := {1});
  }

  /** Threads 2 and 3 begin operations and thread 2 reads block `b`. */
  lemma SecondOperationReads(l: Layout, s: State, b: nat) returns (acts: seq<Action>, s': State)
    requires l.Valid() && s == Fresh(s.disk, s.hdr).(posting := {1}) && l.LogSpace() >= 20
    requires l.Home(b) && b in s.disk
    ensures Exec(l, s, acts) == Some(s') && Crashless(acts)
    ensures s' == s.(ops := map[2 := 10, 3 := 10], outstanding := 2, realUse := 20, lru := [b],
                     bufs := map[b := Buf(s.disk[b], true, false, true, Some(2), [])])
  {
    acts := Then(l, s, [], s, Begin(2));
    var s1 := BeginNext(s, 2);
    acts := Then(l, s, acts, s1, Begin(3));
    var s2 := BeginNext(s1, 3);
    acts := Then(l, s, acts, s2, AcquireMiss(2, b));
    var s3 := MissNext(s2, 2, b);
    acts := Then(l, s, acts, s3, Load(2, b));
    s' := LoadNext(s3, b);
  }

  /** Thread 2 changes block `b` and ends its operation while thread 3 is still working. */
  lemma SecondOperationEnds(l: Layout, s: State, b: nat, data: Block) returns (acts: seq<Action>, s': State)
    requires l.Valid() && Held(s, 2, b) && s.dirty == {} && s.bufs.Keys == {b} && s.bufs[b].waiters == []
    requires s.ops == map[2 := 10, 3 := 10] && s.outstanding == 2 && s.realUse == 20
    requires s.hdr.num == 0 && |s.hdr.blockNo| == LOG_MAX_SIZE && l.Home(b)
    ensures Exec(l, s, acts) == Some(s') && End(2) in acts && Crashless(acts)
    ensures 2 !in s'.ops && 2 in s'.ended && s'.posting == s.posting && s'.phase == s.phase
    ensures s'.disk == s.disk && b in s'.bufs && s'.bufs[b].valid && s'.bufs[b].data == data
  {
    acts := Then(l, s, [], s, Modify(2, b, data));
    var s1 := ModifyNext(s, b, data);
    acts := Then(l, s, acts, s1, Sync(2, b));
    var s2 := SyncNext(l, s1, 2, b);
    acts := Then(l, s, acts, s2, Release(2, b));
    var s3 := ReleaseNext(s2, b);
    acts := Then(l, s, acts, s3, End(2));
    s' := EndNext(s3, 2);
    assert acts[3] == End(2);
  }

  /** Thread 2 sleeps, and the signal of the group before wakes it. */
  lemma SecondOperationReturns(l: Layout, s: State, b: nat, data: Block) returns (acts: seq<Action>, s': State)
    requires l.Valid() && Held(s, 2, b) && s.dirty == {} && s.bufs.Keys == {b} && s.bufs[b].waiters == []
    requires s.ops == map[2 := 10, 3 := 10] && s.outstanding == 2 && s.realUse == 20 && 1 in s.posting
    requires s.hdr.num == 0 && |s.hdr.blockNo| == LOG_MAX_SIZE && l.Home(b)
    ensures Exec(l, s, acts) == Some(s') && End(2) in acts && Crashless(acts)
    ensures 2 !in s'.ops && 2 !in s'.ended && 2 !in s'.sleepers && s'.phase == s.phase
    ensures s'.disk == s.disk && b in s'.bufs && s'.bufs[b].valid && s'.bufs[b].data == data
  {
    var s1, s2;
    acts, s1 := SecondOperationEnds(l, s, b, data);
    acts := Then(l, s, acts, s1, Sleep(2));
    s2 := Next(l, s1, Sleep(2));
    acts := Then(l, s, acts, s2, PostEnd(1));
    s' := Next(l, s2, PostEnd(1));
  }

  /**
   The promise fails for a caller that has to wait, because the wake-up is not tied to a commit.
   Thread 1 commits and has yet to wake the sleepers; thread 2 ends an operation that
   changed `b` and goes to sleep; thread 1 then wakes it. Its `end_op` has returned
   with no crash in sight, and its change would not survive one.
   */
  lemma WaiterMayReturnEarly(l: Layout, d: Disk, b: nat, data: Block) returns (acts: seq<Action>, s': State)
    requires l.Valid() && DiskOk(l, d) && HeaderOf(d[l.logStart]).num == 0 && l.LogSpace() >= 20
    requires l.Home(b) && data != d[b]
    ensures Exec(l, Fresh(d, HeaderOf(d[l.logStart])), acts) == Some(s') && Crashless(acts)
    ensures End(2) in acts && 2 !in s'.ops && 2 !in s'.ended && 2 !in s'.sleepers
    ensures Inv(l, s') && b in Mem(l, s') && b in Durable(l, s')
    ensures Mem(l, s')[b] == data && Durable(l, s')[b] == d[b]
  {
    FreshIsOk(l, d);
    acts, s' := EarlyReturn(l, d, HeaderOf(d[l.logStart]), b, data);
    RunRefines(l, Fresh(d, HeaderOf(d[l.logStart])), acts);
    HomeBlocksAreDurable(l, s');
  }

  lemma EarlyReturn(l: Layout, d: Disk, h: LogHeader, b: nat, data: Block) returns (acts: seq<Action>, s': State)
    requires l.Valid() && |h.blockNo| == LOG_MAX_SIZE && h.num == 0 && l.LogSpace() >= 20
    requires l.Home(b) && b in d
    ensures Exec(l, Fresh(d, h), acts) == Some(s') && Crashless(acts)
    ensures End(2) in acts && 2 !in s'.ops && 2 !in s'.ended && 2 !in s'.sleepers
    ensures s'.phase.Idle? && b in s'.disk && s'.disk[b] == d[b]
    ensures b in s'.bufs && s'.bufs[b].valid && s'.bufs[b].data == data
  {
    var s := Fresh(d, h);
    acts := EmptyCommit(l, d, h);
    var s1 := Exec(l, s, acts).value;
    var first, s2 := SecondOperationReads(l, s1, b);
    ExecAppend(l, s, acts, first);
    acts := acts + first;
    var last;
    last, s' := SecondOperationReturns(l, s2, b, data);
    ExecAppend(l, s, acts, last);
    assert End(2) in acts + last;
    acts := acts + last;
  }

  /**
   Exactly when a return from `end_op` is safe for a block: from any state `s` on, until that block
   is changed again, what was visible of it in `s` is durable if and only if a header write or
   a direct write of it has followed `s` (or there was nothing to write). The other threads
   may do, and change, what they like.
   */
  lemma DurableIffHeaderWritten(l: Layout, s: State, acts: seq<Action>, b: nat)
    requires l.Valid() && Inv(l, s) && ListOk(s) && Exec(l, s, acts).Some? && l.Home(b) && !Changed(acts, b)
    ensures var s' := Exec(l, s, acts).value;
            && Inv(l, s') && b in Durable(l, s') && b in Mem(l, s) && b in Durable(l, s)
            && (Durable(l, s')[b] == Mem(l, s)[b] <==> Saved(acts, b) || Durable(l, s)[b] == Mem(l, s)[b])
  {
    HomeIsThere(l, s, b);
    RunRefines(l, s, acts);
    SpecBlock(Abs(l, s), acts, b);
  }

  // ---------------------------------------------------------------- sync without an operation

  /** A map with one entry of another is the first or the second exactly when little else differs. */
  lemma OneEntry(m: map<nat, Block>, d: map<nat, Block>, b: nat)
    requires m.Keys == d.Keys && b in d
    ensures d[b := m[b]] == d || d[b := m[b]] == m <==> m[b] == d[b] || forall x :: x in d && x != b ==> m[x] == d[x]
  {
    var n := d[b := m[b]];
    if m[b] != d[b] {
      assert n[b] != d[b];
      if x :| x in d && x != b && m[x] != d[x] {
        assert n[x] == d[x];
      } else {
        assert n == m;
      }
    }
  }

  /** All other home blocks are durable. */
  ghost predicate OnlyPending(l: Layout, s: State, b: nat)
    requires l.Valid() && DiskOk(l, s.disk)
  {
    forall x :: l.Home(x) && x != b ==> x in Mem(l, s) && x in Durable(l, s) && Mem(l, s)[x] == Durable(l, s)[x]
  }

  /**
   `sync` without an operation makes one block durable alone. What a crash then leaves is what it
   would have left before, or what clients see, if and only if the block was durable
   already or no other block waits to become so. Otherwise operations are torn apart.
   */
  lemma DirectSync(l: Layout, s: State, t: Tid, b: nat)
    requires l.Valid() && Inv(l, s) && Enabled(l, s, Direct(t, b))
    ensures var s' := DirectNext(s, b);
            && Inv(l, s') && Mem(l, s') == Mem(l, s) && b in Mem(l, s) && b in Durable(l, s)
            && Durable(l, s') == Durable(l, s)[b := Mem(l, s)[b]]
            && (Durable(l, s') == Durable(l, s) || Durable(l, s') == Mem(l, s) <==>
                  Mem(l, s)[b] == Durable(l, s)[b] || OnlyPending(l, s, b))
  {
    DirectKeeps(l, s, t, b);
    OneEntry(Mem(l, s), Durable(l, s), b);
  }

  /** Neither logged by a running group nor changed since its last `sync`. */
  predicate Clean(s: State, x: nat) {
    !Pinned(s.bufs, x) && x !in s.dirty
  }

  lemma CleanIsDurable(l: Layout, s: State, x: nat)
    requires l.Valid() && Inv(l, s) && l.Home(x) && Clean(s, x) && !Booting(s)
    ensures x in Mem(l, s) && x in Durable(l, s) && Mem(l, s)[x] == Durable(l, s)[x]
  {
    HomeIsThere(l, s, x);
    DirectIsLogged(l, s.disk, s.bufs, s.hdr, s.phase, x);
    if x in s.bufs {
      assert BufOk(l, s.disk, s.dirty, s.ops.Keys, x, s.bufs[x]);
    }
  }

  /**
   What a caller can look at first: a direct write of a block that is neither pinned nor
   changed, or of the only block that is, tears nothing.
   */
  lemma DirectSyncIsSafe(l: Layout, s: State, t: Tid, b: nat)
    requires l.Valid() && Inv(l, s) && Enabled(l, s, Direct(t, b))
    ensures Clean(s, b) || (forall x :: l.Home(x) && x != b ==> Clean(s, x)) ==>
              var s' := DirectNext(s, b); Inv(l, s') && (Durable(l, s') == Durable(l, s) || Durable(l, s') == Mem(l, s))
  {
    DirectSync(l, s, t, b);
    if Clean(s, b) {
      CleanIsDurable(l, s, b);
    } else if forall x :: l.Home(x) && x != b ==> Clean(s, x) {
      forall x | l.Home(x) && x != b
        ensures x in Mem(l, s) && x in Durable(l, s) && Mem(l, s)[x] == Durable(l, s)[x]
      {
        CleanIsDurable(l, s, x);
      }
    }
  }

  /** While no commit runs, the pinned blocks are those the header names. */
  lemma CleanIffNotLogged(l: Layout, s: State, x: nat)
    requires l.Valid() && Inv(l, s) && s.phase.Idle? && l.Home(x)
    ensures Clean(s, x) <==> Slot(s.hdr, x) == s.hdr.num && x !in s.dirty
  {
    if Slot(s.hdr, x) < s.hdr.num {
      assert Pinned(s.bufs, s.hdr.blockNo[Slot(s.hdr, x)]);
    }
  }

  /** What a thread does to change a block. */
  function Changing(t: Tid, b: nat, data: Block): seq<Action> {
    [AcquireMiss(t, b), Load(t, b), Modify(t, b, data), Sync(t, b), Release(t, b)]
  }

  lemma FetchBlock(l: Layout, s: State, t: Tid, b: nat) returns (acts: seq<Action>, s': State)
    requires l.Valid() && l.Home(b) && b in s.disk && b !in s.bufs
    ensures acts == [AcquireMiss(t, b), Load(t, b)] && Exec(l, s, acts) == Some(s')
    ensures s' == s.(bufs := s.bufs[b := Buf(s.disk[b], true, false, true, Some(t), [])], lru := [b] + s.lru)
  {
    acts := Then(l, s, [], s, AcquireMiss(t, b));
    var s1 := MissNext(s, t, b);
    acts := Then(l, s, acts, s1, Load(t, b));
    s' := LoadNext(s1, b);
    assert s'.bufs == s.bufs[b := Buf(s.disk[b], true, false, true, Some(t), [])];
  }

  lemma StoreBlock(l: Layout, s: State, t: Tid, b: nat, data: Block) returns (acts: seq<Action>, s': State)
    requires l.Valid() && l.Home(b) && b in s.bufs &&
             s.bufs[b] == Buf(s.bufs[b].data, true, false, true, Some(t), []) && s.dirty == {}
    requires t in s.ops && 0 < s.ops[t] && s.hdr.num < |s.hdr.blockNo| == LOG_MAX_SIZE && Slot(s.hdr, b) == s.hdr.num
    ensures acts == [Modify(t, b, data), Sync(t, b), Release(t, b)] && Exec(l, s, acts) == Some(s')
    ensures s' == s.(bufs := s.bufs[b := Buf(data, true, true, false, None, [])],
                     hdr := LogHeader(s.hdr.num + 1, s.hdr.blockNo[s.hdr.num := b]), ops := s.ops[t := s.ops[t] - 1])
  {
    acts := Then(l, s, [], s, Modify(t, b, data));
    var s1 := ModifyNext(s, b, data);
    acts := Then(l, s, acts, s1, Sync(t, b));
    var s2 := SyncNext(l, s1, t, b);
    acts := Then(l, s, acts, s2, Release(t, b));
    s' := ReleaseNext(s2, b);
    assert s'.bufs == s.bufs[b := Buf(data, true, true, false, None, [])];
  }

  /** Thread `t` reads block `b`, changes it, logs it and lets go of it. */
  lemma ChangeBlock(l: Layout, s: State, t: Tid, b: nat, data: Block) returns (acts: seq<Action>, s': State)
    requires l.Valid() && l.Home(b) && b in s.disk && b !in s.bufs && s.dirty == {}
    requires t in s.ops && 0 < s.ops[t] && s.hdr.num < |s.hdr.blockNo| == LOG_MAX_SIZE && Slot(s.hdr, b) == s.hdr.num
    ensures Exec(l, s, acts) == Some(s') && acts == Changing(t, b, data)
    ensures s' == s.(bufs := s.bufs[b := Buf(data, true, true, false, None, [])], lru := [b] + s.lru,
                     hdr := LogHeader(s.hdr.num + 1, s.hdr.blockNo[s.hdr.num := b]), ops := s.ops[t := s.ops[t] - 1])
  {
    var first, s1 := FetchBlock(l, s, t, b);
    var second;
    second, s' := StoreBlock(l, s1, t, b, data);
    ExecAppend(l, s, first, second);
    acts := first + second;
    assert s'.bufs == s.bufs[b := Buf(data, true, true, false, None, [])];
  }

  lemma ReadAndSync(l: Layout, s: State, b: nat) returns (s': State)
    requires l.Valid() && l.Home(b) && b in s.bufs && s.bufs[b].valid && s.bufs[b].holder.None? && !Booting(s)
    ensures Exec(l, s, [AcquireHit(4, b), Direct(4, b)]) == Some(s')
    ensures s'.disk == s.disk[b := s.bufs[b].data]
  {
    var acts := Then(l, s, [], s, AcquireHit(4, b));
    var s1 := HitNext(s, 4, b);
    acts := Then(l, s, acts, s1, Direct(4, b));
    s' := DirectNext(s1, b);
  }

  /** Thread 4 reads a cached block, syncs it directly, and power fails; the log is empty at the restart. */
  lemma ReadAndCrash(l: Layout, s: State, b: nat) returns (acts: seq<Action>, s': State)
    requires l.Valid() && l.Home(b) && b in s.bufs && s.bufs[b].valid && s.bufs[b].holder.None? && !Booting(s)
    requires l.logStart in s.disk && HeaderOf(s.disk[l.logStart]).num == 0
    ensures Exec(l, s, acts) == Some(s') && s'.phase.Idle?
    ensures acts == [AcquireHit(4, b), Direct(4, b), Crash(5), ClearHeader]
    ensures b in s'.disk && s'.disk[b] == s.bufs[b].data
    ensures forall x :: x in s.disk && x != b && x != l.logStart ==> x in s'.disk && s'.disk[x] == s.disk[x]
  {
    var s2 := ReadAndSync(l, s, b);
    acts := Then(l, s, [AcquireHit(4, b), Direct(4, b)], s2, Crash(5));
    var s3 := Boot(l, s2.disk, 5);
    acts := Then(l, s, acts, s3, ClearHeader);
    s' := ClearHeaderNext(l, s3);
  }

  lemma ChangeFirst(l: Layout, d: Disk, h: LogHeader, a: nat, da: Block) returns (s: State)
    requires l.Valid() && |h.blockNo| == LOG_MAX_SIZE && h.num == 0 && l.LogSpace() >= 10 && l.Home(a) && a in d
    ensures Exec(l, Fresh(d, h), [Begin(2)] + Changing(2, a, da)) == Some(s)
    ensures s.disk == d && s.phase.Idle? && s.dirty == {} && s.bufs == map[a := Buf(da, true, true, false, None, [])]
    ensures s.ops == map[2 := 9] && s.hdr == LogHeader(1, h.blockNo[0 := a])
  {
    var s0 := Fresh(d, h);
    var begin := Then(l, s0, [], s0, Begin(2));
    var first;
    first, s := ChangeBlock(l, BeginNext(s0, 2), 2, a, da);
    ExecAppend(l, s0, begin, first);
  }

  lemma ChangeTwo(l: Layout, d: Disk, h: LogHeader, a: nat, b: nat, da: Block, db: Block) returns (s: State)
    requires l.Valid() && |h.blockNo| == LOG_MAX_SIZE && h.num == 0 && l.LogSpace() >= 10
    requires l.Home(a) && l.Home(b) && a in d && b in d && a != b
    ensures Exec(l, Fresh(d, h), [Begin(2)] + Changing(2, a, da) + Changing(2, b, db)) == Some(s)
    ensures s.disk == d && s.phase.Idle?
    ensures s.bufs == map[a := Buf(da, true, true, false, None, [])][b := Buf(db, true, true, false, None, [])]
  {
    var s1 := ChangeFirst(l, d, h, a, da);
    assert Slot(s1.hdr, b, 1) == 1 && Slot(s1.hdr, b) == 1;
    var second;
    second, s := ChangeBlock(l, s1, 2, b, db);
    ExecAppend(l, Fresh(d, h), [Begin(2)] + Changing(2, a, da), second);
  }

  /**
   A direct write tears an operation apart. Thread 2 changes and logs blocks `a` and `b`; thread 4,
   which only reads, syncs `b` directly; power fails. After recovery `b` is new and `a` is old.
   */
  lemma DirectSyncTears(l: Layout, d: Disk, a: nat, b: nat, da: Block, db: Block)
    returns (before: seq<Action>, after: seq<Action>, s: State, s': State)
    requires l.Valid() && DiskOk(l, d) && HeaderOf(d[l.logStart]).num == 0 && l.LogSpace() >= 10
    requires l.Home(a) && l.Home(b) && a != b && da != d[a] && db != d[b]
    ensures Exec(l, Fresh(d, HeaderOf(d[l.logStart])), before) == Some(s)
    ensures before == [Begin(2)] + Changing(2, a, da) + Changing(2, b, db)
    ensures after == [AcquireHit(4, b), Direct(4, b), Crash(5), ClearHeader] && Exec(l, s, after) == Some(s') &&
            s'.phase.Idle?
    ensures Inv(l, s) && a in Mem(l, s) && Mem(l, s)[a] == da && b in Mem(l, s) && Mem(l, s)[b] == db
    ensures a in s'.disk && s'.disk[a] == d[a] && b in s'.disk && s'.disk[b] == db
  {
    before := [Begin(2)] + Changing(2, a, da) + Changing(2, b, db);
    s := ChangeTwo(l, d, HeaderOf(d[l.logStart]), a, b, da, db);
    FreshIsOk(l, d);
    RunRefines(l, Fresh(d, HeaderOf(d[l.logStart])), before);
    after, s' := ReadAndCrash(l, s, b);
  }

  // ---------------------------------------------------------------- who wakes a waiter

  predicate Wakes(a: Action) {
    a.PostEnd? || a.Crash?
  }

  /** A thread asleep in `end_op` is woken by the next committer that gets round to it, and by nothing else. */
  lemma {:induction false} WokenIffPosted(l: Layout, s: State, acts: seq<Action>, t: Tid)
    requires l.Valid() && Exec(l, s, acts).Some? && t in s.sleepers && Sleep(t) !in acts
    ensures t in Exec(l, s, acts).value.sleepers <==> forall i :: 0 <= i < |acts| ==> !Wakes(acts[i])
    decreases |acts|
  {
    if acts != [] {
      assert forall i :: 0 <= i < |acts| - 1 ==> acts[1..][i] == acts[i + 1];
      var s1 := Next(l, s, acts[0]);
      if Wakes(acts[0]) {
        StaysAwake(l, s1, acts[1..], t);
      } else {
        WokenIffPosted(l, s1, acts[1..], t);
      }
    }
  }

  lemma {:induction false} StaysAwake(l: Layout, s: State, acts: seq<Action>, t: Tid)
    requires l.Valid() && Exec(l, s, acts).Some? && t !in s.sleepers && Sleep(t) !in acts
    ensures t !in Exec(l, s, acts).value.sleepers
    decreases |acts|
  {
    if acts != [] {
      assert forall i :: 0 <= i < |acts| - 1 ==> acts[1..][i] == acts[i + 1];
      assert acts[0] != Sleep(t);
      StaysAwake(l, Next(l, s, acts[0]), acts[1..], t);
    }
  }

  lemma TwoBegin(l: Layout, s: State)
    requires l.Valid() && s.hdr.num == 0 && l.LogSpace() >= 20 && s.ops == map[] && s.realUse == 0 && s.phase.Idle? &&
             !s.committing
    ensures Exec(l, s, [Begin(2), Begin(3)])
            == Some(s.(outstanding := s.outstanding + 2, realUse := 20, ops := map[2 := 10, 3 := 10]))
  {
    var acts := Then(l, s, [], s, Begin(2));
    acts := Then(l, s, acts, BeginNext(s, 2), Begin(3));
  }

  /** Threads 2 and 3 begin; 2 ends, and then 3, who has to commit. */
  lemma TwoEnd(l: Layout, d: Disk, h: LogHeader) returns (acts: seq<Action>, s: State)
    requires l.Valid() && h.num == 0 && l.LogSpace() >= 20
    ensures acts == [Begin(2), Begin(3), End(2), End(3)] && Exec(l, Fresh(d, h), acts) == Some(s)
    ensures s == Fresh(d, h).(committing := true, phase := WriteLog(3, 0), ended := {2})
  {
    var s0 := Fresh(d, h);
    TwoBegin(l, s0);
    var s2 := s0.(outstanding := 2, realUse := 20, ops := map[2 := 10, 3 := 10]);
    acts := Then(l, s0, [Begin(2), Begin(3)], s2, End(2));
    var s3 := EndNext(s2, 2);
    assert s3.ops == map[3 := 10];
    acts := Then(l, s0, acts, s3, End(3));
    s := EndNext(s3, 3);
    assert s.ops == map[];
  }

  lemma CommitNothing(l: Layout, s: State, t: Tid) returns (acts: seq<Action>, s': State)
    requires l.Valid() && s.phase == WriteLog(t, 0) && s.hdr.num == 0 && |s.hdr.blockNo| == LOG_MAX_SIZE
    ensures acts == [WriteHeader, ClearHeader] && Exec(l, s, acts) == Some(s')
    ensures s' == s.(phase := Cleared(t), disk := s'.disk)
  {
    acts := Then(l, s, [], s, WriteHeader);
    var s1 := WriteHeaderNext(l, s);
    acts := Then(l, s, acts, s1, ClearHeader);
    s' := ClearHeaderNext(l, s1);
    assert s.hdr.(num := 0) == s.hdr;
  }

  lemma WakeThenSleep(l: Layout, s: State) returns (acts: seq<Action>, s': State)
    requires l.Valid() && s.phase == Cleared(3) && s.posting == {} && s.ended == {2}
    ensures acts == [Finish, PostEnd(3), Sleep(2)] && Exec(l, s, acts) == Some(s')
    ensures 2 in s'.sleepers && s'.posting == {} && s'.ops == s.ops && s'.phase.Idle?
  {
    acts := Then(l, s, [], s, Finish);
    var s1 := FinishNext(s);
    acts := Then(l, s, acts, s1, PostEnd(3));
    var s2 := Next(l, s1, PostEnd(3));
    acts := Then(l, s, acts, s2, Sleep(2));
    s' := Next(l, s2, Sleep(2));
  }

  /**
   A waiter may sleep on although all is durable: thread 2 ends its operation, thread 3 ends the
   last one, commits and wakes the sleepers, and only then does thread 2 go to sleep. No
   one is left to wake it until another operation commits.
   */
  lemma WaiterMayOversleep(l: Layout, d: Disk) returns (acts: seq<Action>, s': State)
    requires l.Valid() && DiskOk(l, d) && HeaderOf(d[l.logStart]).num == 0 && l.LogSpace() >= 20
    ensures Exec(l, Fresh(d, HeaderOf(d[l.logStart])), acts) == Some(s')
    ensures acts == [Begin(2), Begin(3), End(2), End(3), WriteHeader, ClearHeader, Finish, PostEnd(3), Sleep(2)]
    ensures 2 in s'.sleepers && s'.posting == {} && s'.ops == map[] && s'.phase.Idle?
    ensures Inv(l, s') && Durable(l, s') == Mem(l, s')
  {
    var h := HeaderOf(d[l.logStart]);
    var s0 := Fresh(d, h);
    var ends, s1 := TwoEnd(l, d, h);
    var commit, s2 := CommitNothing(l, s1, 3);
    ExecAppend(l, s0, ends, commit);
    var last;
    last, s' := WakeThenSleep(l, s2);
    ExecAppend(l, s0, ends + commit, last);
    acts := ends + commit + last;
    NothingPending(l, d, acts);
  }

  lemma NothingPending(l: Layout, d: Disk, acts: seq<Action>)
    requires l.Valid() && DiskOk(l, d) && HeaderOf(d[l.logStart]).num == 0
    requires Exec(l, Fresh(d, HeaderOf(d[l.logStart])), acts).Some? && Quiet(acts)
    ensures var s' := Exec(l, Fresh(d, HeaderOf(d[l.logStart])), acts).value; Inv(l, s') && Durable(l, s') == Mem(l, s')
  {
    var s := Fresh(d, HeaderOf(d[l.logStart]));
    FreshIsOk(l, d);
    RunRefines(l, s, acts);
    SpecQuiet(Abs(l, s), acts);
  }

  predicate Quiet(acts: seq<Action>) {
    forall i :: 0 <= i < |acts| ==> !acts[i].Modify? && !acts[i].Crash? && !acts[i].Direct?
  }

  /** With no change, crash or direct write, clients see what they saw; durable stays, or becomes that. */
  lemma {:induction false} SpecQuiet(x: Spec, acts: seq<Action>)
    requires x.mem == x.durable && Quiet(acts)
    ensures SpecExec(x, acts) == x
    decreases |acts|
  {
    if acts != [] {
      assert forall i :: 0 <= i < |acts| - 1 ==> acts[1..][i] == acts[i + 1];
      SpecQuiet(SpecNext(x, acts[0]), acts[1..]);
    }
  }

  // ---------------------------------------------------------------- log space

  /** `sync` never runs out of header or log space before the operation exhausts its own budget. */
  lemma SyncAlwaysFits(l: Layout, s: State, t: Tid, b: nat)
    requires l.Valid() && Inv(l, s) && t in s.ops && l.Home(b)
    ensures SyncFits(l, s, t, b) <==> (0 < s.ops[t] || Slot(s.hdr, b) < s.hdr.num)
    ensures SyncFits(l, s, t, b) ==>
              && Slot(s.hdr, b) < LOG_MAX_SIZE
              && l.logStart < l.LogBlock(Slot(s.hdr, b)) < l.logStart + l.numLogBlocks
  {
    SumRemove(s.ops, t);
  }

  /** `end_op` never drives its unsigned counters below zero. */
  lemma EndNeverUnderflows(l: Layout, s: State, t: Tid)
    requires l.Valid() && Inv(l, s) && t in s.ops
    ensures 0 < s.outstanding && s.ops[t] <= s.realUse
  {
    SumRemove(s.ops, t);
    assert t in s.ops.Keys;
  }

  /**
   The reservation account after every run: outside a commit the space in use is what is logged
   plus what operations may still log, it never exceeds the log, and the header's entries are
   different home blocks whose copies lie inside the log area.
   */
  lemma LogSpaceAccounted(l: Layout, s: State, acts: seq<Action>)
    requires l.Valid() && Inv(l, s) && ListOk(s) && Exec(l, s, acts).Some?
    ensures var s' := Exec(l, s, acts).value;
            && s'.realUse <= l.LogSpace() && s'.hdr.num <= l.LogSpace() && s'.hdr.num <= |s'.hdr.blockNo|
            && (!s'.committing && !Booting(s') ==> s'.realUse == s'.hdr.num + SumRm(s'.ops))
            && (forall i, j :: 0 <= i < j < s'.hdr.num ==> s'.hdr.blockNo[i] != s'.hdr.blockNo[j])
            && (forall i :: 0 <= i < s'.hdr.num ==>
                  l.Home(s'.hdr.blockNo[i]) && l.logStart < l.LogBlock(i) < l.logStart + l.numLogBlocks)
  {
    RunRefines(l, s, acts);
    var s' := Exec(l, s, acts).value;
    forall i, j | 0 <= i < j < s'.hdr.num
      ensures s'.hdr.blockNo[i] != s'.hdr.blockNo[j]
    {
      assert Slot(s'.hdr, s'.hdr.blockNo[i]) == i && Slot(s'.hdr, s'.hdr.blockNo[j]) == j;
    }
  }

  /**
   Transparency after every run: whoever acquires a home block next sees what a cache that never
   evicts would show, a block neither pinned nor being changed equals the disk, and the block
   eviction would take is neither pinned nor held and equals the disk.
   */
  lemma CacheIsTransparent(l: Layout, s: State, acts: seq<Action>, b: nat)
    requires l.Valid() && Inv(l, s) && ListOk(s) && Exec(l, s, acts).Some?
    ensures var s' := Exec(l, s, acts).value;
            && (l.Home(b) && !Booting(s') ==>
                  && b in s'.disk && b in SpecExec(Abs(l, s), acts).mem
                  && CachedAt(s'.disk, s'.bufs, b) == SpecExec(Abs(l, s), acts).mem[b])
            && (b in s'.bufs && s'.bufs[b].valid && !s'.bufs[b].pinned && b !in s'.dirty ==>
                  b in s'.disk && s'.bufs[b].data == s'.disk[b])
            && (MayEvict(s') ==>
                  var x := s'.lru[|s'.lru| - 1];
                  && !s'.bufs[x].pinned && s'.bufs[x].holder.None? && s'.bufs[x].valid
                  && x in s'.disk && s'.bufs[x].data == s'.disk[x])
  {
    RunRefines(l, s, acts);
    var s' := Exec(l, s, acts).value;
    if b in s'.bufs {
      assert BufOk(l, s'.disk, s'.dirty, s'.ops.Keys, b, s'.bufs[b]);
    }
    if MayEvict(s') {
      var x := s'.lru[|s'.lru| - 1];
      assert BufOk(l, s'.disk, s'.dirty, s'.ops.Keys, x, s'.bufs[x]);
    }
  }
}
