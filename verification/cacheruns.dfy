/** What runs of the cache do to its list and its locks, told from the actions alone. */
module CacheRuns {
  import opened Common
  import opened Bytes
  import opened LogProtocol
  import opened LogProofs
  import opened LogTheorems

  /** Mentioning `Look` opens the predicate below, which most proofs only pass along. */
  ghost predicate Look(n: nat) {
    true
  }

  /** Action `a` leads from `s` to `s'`. */
  ghost predicate Goes(l: Layout, s: State, a: Action, s': State) {
    l.Valid() && forall n: nat :: Look(n) ==> Enabled(l, s, a) && Next(l, s, a) == s'
  }

  /** The last action of a run, and the run before it. */
  lemma LastStep(l: Layout, s: State, acts: seq<Action>) returns (s1: State)
    requires l.Valid() && acts != [] && Exec(l, s, acts).Some?
    ensures var n := |acts| - 1; Exec(l, s, acts[..n]) == Some(s1) && Goes(l, s1, acts[n], Exec(l, s, acts).value)
  {
    var n := |acts| - 1;
    var a, b := acts[..n], [acts[n]];
    assert acts == a + b;
    PrefixRuns(l, s, a, b);
    ExecAppend(l, s, a, b);
    s1 := Exec(l, s, a).value;
    assert b[1..] == [];
    assert Exec(l, Next(l, s1, b[0]), []) == Some(Next(l, s1, b[0]));
  }

  lemma {:induction false} PrefixRuns(l: Layout, s: State, a: seq<Action>, b: seq<Action>)
    requires l.Valid() && Exec(l, s, a + b).Some?
    ensures Exec(l, s, a).Some?
    decreases |a|
  {
    if a != [] {
      assert (a + b)[0] == a[0] && (a + b)[1..] == a[1..] + b;
      PrefixRuns(l, Next(l, s, a[0]), a[1..], b);
    }
  }

  // ---------------------------------------------------------------- least recently used

  /** A thread begins to use block `b`: it brings it into the cache, or has got its lock there. */
  predicate Uses(a: Action, b: nat) {
    (a.AcquireMiss? || a.Touch?) && a.b == b
  }

  /** When block `b` was last used, counting actions; -1 if never. */
  ghost function LastUse(acts: seq<Action>, b: nat): int {
    if acts == [] then -1
    else if Uses(acts[|acts| - 1], b) then |acts| - 1
    else LastUse(acts[..|acts| - 1], b)
  }

  /** All have been used, the first one last. */
  ghost predicate ByUse(acts: seq<Action>, lru: seq<nat>) {
    && (forall i :: 0 <= i < |lru| ==> LastUse(acts, lru[i]) >= 0)
    && forall i, j :: 0 <= i < j < |lru| ==> LastUse(acts, lru[i]) > LastUse(acts, lru[j])
  }

  lemma {:induction false} UsedBefore(acts: seq<Action>, b: nat)
    ensures LastUse(acts, b) < |acts|
  {
    if acts != [] {
      UsedBefore(acts[..|acts| - 1], b);
    }
  }

  /** Where an element of the list without `b` stood before. */
  function Place(s: seq<nat>, b: nat, i: nat): (k: nat)
    requires i < |Without(s, b)|
    ensures i <= k < |s| && s[k] == Without(s, b)[i]
    ensures k == i || (b in s[..k] && k == i + 1)
  {
    if s[0] == b then i + 1 else if i == 0 then 0 else Place(s[1..], b, i - 1) + 1
  }

  lemma {:induction false} PlacesInOrder(s: seq<nat>, b: nat, i: nat, j: nat)
    requires i < j < |Without(s, b)|
    ensures Place(s, b, i) < Place(s, b, j)
  {
    if s[0] != b && i > 0 {
      PlacesInOrder(s[1..], b, i - 1, j - 1);
    }
  }

  /** `x` stands before `y` in the list. */
  ghost predicate Before(s: seq<nat>, x: nat, y: nat) {
    exists i, j :: 0 <= i < j < |s| && s[i] == x && s[j] == y
  }

  /** `b` has come to the front of the list; the others that stay keep their order. */
  ghost predicate Fronted(s: seq<nat>, b: nat, r: seq<nat>) {
    r != [] && r[0] == b && forall x, y :: x != b && Before(r, x, y) ==> Before(s, x, y)
  }

  lemma StoodBefore(s: seq<nat>, b: nat, i: nat, j: nat)
    requires i < j < |Without(s, b)|
    ensures Before(s, Without(s, b)[i], Without(s, b)[j])
  {
    PlacesInOrder(s, b, i, j);
    var k, m := Place(s, b, i), Place(s, b, j);
    assert s[k] == Without(s, b)[i] && s[m] == Without(s, b)[j];
  }

  lemma FrontedOk(s: seq<nat>, b: nat, r: seq<nat>)
    requires r != [] && r <= [b] + Without(s, b)
    ensures Fronted(s, b, r)
  {
    var rest := Without(s, b);
    forall x, y | x != b && Before(r, x, y)
      ensures Before(s, x, y)
    {
      var i, j :| 0 <= i < j < |r| && r[i] == x && r[j] == y;
      assert r[i] == ([b] + rest)[i] && r[j] == ([b] + rest)[j];
      StoodBefore(s, b, i - 1, j - 1);
    }
  }

  lemma UseGrows(acts: seq<Action>, a: Action, b: nat)
    ensures LastUse(acts + [a], b) == if Uses(a, b) then |acts| else LastUse(acts, b)
  {
    assert (acts + [a])[..|acts|] == acts;
  }

  /** A block that is used goes to the front and the others stay in order. */
  lemma UsedToFront(acts: seq<Action>, a: Action, b: nat, rest: seq<nat>)
    requires ByUse(acts, rest) && b !in rest && Uses(a, b)
    ensures ByUse(acts + [a], [b] + rest)
  {
    var lru := [b] + rest;
    forall i | 0 <= i < |lru|
      ensures LastUse(acts + [a], lru[i]) == if i == 0 then |acts| else LastUse(acts, rest[i - 1])
    {
      UseGrows(acts, a, lru[i]);
      assert i > 0 ==> lru[i] == rest[i - 1] && rest[i - 1] in rest;
    }
    forall i | 0 <= i < |rest|
      ensures LastUse(acts, rest[i]) < |acts|
    {
      UsedBefore(acts, rest[i]);
    }
  }

  lemma WithoutByUse(acts: seq<Action>, lru: seq<nat>, b: nat)
    requires ByUse(acts, lru)
    ensures ByUse(acts, Without(lru, b)) && b !in Without(lru, b)
  {
    var rest := Without(lru, b);
    forall i, j | 0 <= i < j < |rest|
      ensures LastUse(acts, rest[i]) > LastUse(acts, rest[j])
    {
      PlacesInOrder(lru, b, i, j);
    }
    forall i | 0 <= i < |rest|
      ensures LastUse(acts, rest[i]) >= 0
    {
      assert rest[i] == lru[Place(lru, b, i)];
    }
    forall i, j | 0 <= i < j < |lru|
      ensures lru[i] != lru[j]
    {
      assert LastUse(acts, lru[i]) > LastUse(acts, lru[j]);
    }
    WithoutOk(lru, b);
  }

  lemma OtherByUse(acts: seq<Action>, a: Action, lru: seq<nat>)
    requires ByUse(acts, lru) && !a.AcquireMiss? && !a.Touch?
    ensures ByUse(acts + [a], lru)
  {
    forall b: nat
      ensures LastUse(acts + [a], b) == LastUse(acts, b)
    {
      UseGrows(acts, a, b);
    }
  }

  /** What an action does to the list. */
  lemma ListAfter(l: Layout, s: State, a: Action, s': State)
    requires Goes(l, s, a, s') && ListOk(s)
    ensures ListOk(s') && (KeepsList(a) ==> s'.lru == s.lru) && (a.Crash? ==> s'.lru == [])
    ensures a.AcquireMiss? ==> a.b !in s.lru && s'.lru == [a.b] + s.lru
    ensures a.Touch? ==> s'.lru == [a.b] + Without(s.lru, a.b)
    ensures a.Evict? ==> s.lru != [] && s'.lru == s.lru[..|s.lru| - 1]
  {
    assert Look(0);
    StepKeepsList(l, s, a);
    if KeepsList(a) {
      SameKeys(l, s, a);
    }
  }

  lemma StepByUse(l: Layout, s: State, a: Action, s': State, acts: seq<Action>)
    requires Goes(l, s, a, s') && ByUse(acts, s.lru) && ListOk(s)
    ensures ByUse(acts + [a], s'.lru) && ListOk(s')
  {
    ListAfter(l, s, a, s');
    if KeepsList(a) {
      OtherByUse(acts, a, s.lru);
    } else if a.AcquireMiss? {
      UsedToFront(acts, a, a.b, s.lru);
    } else if a.Touch? {
      WithoutByUse(acts, s.lru, a.b);
      UsedToFront(acts, a, a.b, Without(s.lru, a.b));
    } else if a.Evict? {
      OtherByUse(acts, a, s.lru[..|s.lru| - 1]);
    } else {
      OtherByUse(acts, a, []);
    }
  }

  /** In every run from an empty cache, crashes included, the list is in the order of last use. */
  lemma {:induction false} ListIsByUse(l: Layout, s: State, acts: seq<Action>)
    requires l.Valid() && ListOk(s) && s.lru == [] && Exec(l, s, acts).Some?
    ensures ByUse(acts, Exec(l, s, acts).value.lru) && ListOk(Exec(l, s, acts).value)
    decreases |acts|
  {
    if acts != [] {
      var n := |acts| - 1;
      var s1 := LastStep(l, s, acts);
      ListIsByUse(l, s, acts[..n]);
      StepByUse(l, s1, acts[n], Exec(l, s, acts).value, acts[..n]);
      assert acts[..n] + [acts[n]] == acts;
    }
  }

  /** Eviction drops, of all cached blocks, the one whose last use is the longest ago. */
  lemma EvictsLeastRecent(l: Layout, s: State, acts: seq<Action>) returns (e: nat)
    requires l.Valid() && ListOk(s) && s.lru == [] && Exec(l, s, acts).Some? &&
             Enabled(l, Exec(l, s, acts).value, Evict)
    ensures var s' := Exec(l, s, acts).value;
            && e in s'.bufs && Next(l, s', Evict).bufs == s'.bufs - {e}
            && forall b :: b in s'.bufs && b != e ==> LastUse(acts, b) > LastUse(acts, e)
  {
    var s' := Exec(l, s, acts).value;
    ListIsByUse(l, s, acts);
    var n := |s'.lru| - 1;
    e := s'.lru[n];
    forall b | b in s'.bufs && b != e
      ensures LastUse(acts, b) > LastUse(acts, e)
    {
      assert b in s'.lru;
      var i :| 0 <= i < |s'.lru| && s'.lru[i] == b;
    }
  }

  // ---------------------------------------------------------------- first come, first served

  ghost function Owner(s: State, b: nat): Option<Tid> {
    if b in s.bufs then s.bufs[b].holder else None
  }

  /** Who waits for the lock of block `b`, longest first. */
  ghost function Queue(s: State, b: nat): seq<Tid> {
    if b in s.bufs then Reversed(s.bufs[b].waiters) else []
  }

  function Reversed(s: seq<Tid>): (r: seq<Tid>)
    ensures |r| == |s|
  {
    if s == [] then [] else Reversed(s[1..]) + [s[0]]
  }

  predicate Asks(a: Action, b: nat) {
    (a.AcquireHit? || a.AcquireMiss?) && a.b == b
  }

  /** The threads that have asked for block `b` since the last crash, in order. */
  ghost function Asked(acts: seq<Action>, b: nat): seq<Tid> {
    if acts == [] then []
    else
      var a, before := acts[|acts| - 1], Asked(acts[..|acts| - 1], b);
      if a.Crash? then [] else if Asks(a, b) then before + [a.t] else before
  }

  /** Who gets the lock of block `b` by an action: its holder after a free lock is asked for, or after a release. */
  ghost function Grants(s: State, a: Action, s': State, b: nat): seq<Tid> {
    if Owner(s', b).Some? && ((Asks(a, b) && Owner(s, b).None?) || (a.Release? && a.b == b))
    then [Owner(s', b).value] else []
  }

  /** The threads that have got the lock of block `b` since the last crash, in order. */
  ghost function Granted(l: Layout, s: State, acts: seq<Action>, b: nat): seq<Tid>
    requires l.Valid() && Exec(l, s, acts).Some?
  {
    if acts == [] then []
    else
      var n := |acts| - 1;
      assert acts == acts[..n] + acts[n..];
      PrefixRuns(l, s, acts[..n], acts[n..]);
      if acts[n].Crash? then []
      else Granted(l, s, acts[..n], b) + Grants(Exec(l, s, acts[..n]).value, acts[n], Exec(l, s, acts).value, b)
  }

  lemma {:induction false} ReversedLast(s: seq<Tid>)
    requires s != []
    ensures Reversed(s) == [s[|s| - 1]] + Reversed(s[..|s| - 1])
  {
    if |s| > 1 {
      ReversedLast(s[1..]);
      var n := |s| - 1;
      assert s[1..][..n - 1] == s[..n][1..] && s[..n][0] == s[0];
    } else {
      assert s[1..] == [] && s[..0] == [];
    }
  }

  /** Actions that take, give or drop no lock. */
  predicate KeepsLocks(a: Action) {
    !a.AcquireHit? && !a.AcquireMiss? && !a.Release? && !a.Evict? && !a.Crash?
  }

  lemma SameLocks(l: Layout, s: State, a: Action, b: nat)
    requires l.Valid() && Enabled(l, s, a) && KeepsLocks(a)
    ensures var s' := Next(l, s, a); Owner(s', b) == Owner(s, b) && Queue(s', b) == Queue(s, b)
  {
    if a.LogCopy? || a.InstallCopy? {
      CopyLocks(l, s, a, b);
    } else if a.Modify? || a.Sync? || a.Load? {
      BlockLocks(l, s, a, b);
    }
  }

  lemma CopyLocks(l: Layout, s: State, a: Action, b: nat)
    requires l.Valid() && Enabled(l, s, a) && (a.LogCopy? || a.InstallCopy?)
    ensures var s' := Next(l, s, a); Owner(s', b) == Owner(s, b) && Queue(s', b) == Queue(s, b)
  {
  }

  lemma BlockLocks(l: Layout, s: State, a: Action, b: nat)
    requires l.Valid() && Enabled(l, s, a) && (a.Modify? || a.Sync? || a.Load?)
    ensures var s' := Next(l, s, a); Owner(s', b) == Owner(s, b) && Queue(s', b) == Queue(s, b)
  {
  }

  /** A free lock has no queue, and a block that is dropped has no owner. */
  lemma LockFacts(l: Layout, s: State, b: nat)
    requires l.Valid() && Inv(l, s)
    ensures Owner(s, b).None? ==> Queue(s, b) == []
    ensures MayEvict(s) && s.lru[|s.lru| - 1] == b ==> Owner(s, b).None?
  {
    if b in s.bufs {
      assert BufOk(l, s.disk, s.dirty, s.ops.Keys, b, s.bufs[b]);
    }
  }

  lemma CrashForgets(l: Layout, s: State, a: Action, s': State)
    requires Goes(l, s, a, s') && a.Crash?
    ensures s'.bufs == map[]
  {
    assert Look(0);
  }

  /** What an action adds to those who asked is granted, or queues up. */
  lemma StepServes(l: Layout, s: State, a: Action, s': State, b: nat)
    requires Goes(l, s, a, s') && !a.Crash?
    requires Inv(l, s)
    ensures Grants(s, a, s', b) + Queue(s', b) == Queue(s, b) + if Asks(a, b) then [a.t] else []
  {
    LockFacts(l, s, b);
    if KeepsLocks(a) {
      assert Look(0);
      SameLocks(l, s, a, b);
    } else {
      LockServes(l, s, a, s', b);
    }
  }

  lemma LockServes(l: Layout, s: State, a: Action, s': State, b: nat)
    requires Goes(l, s, a, s') && !a.Crash? && !KeepsLocks(a)
    requires Owner(s, b).None? ==> Queue(s, b) == []
    requires MayEvict(s) && s.lru[|s.lru| - 1] == b ==> Owner(s, b).None?
    ensures Grants(s, a, s', b) + Queue(s', b) == Queue(s, b) + if Asks(a, b) then [a.t] else []
  {
    if a.Release? && a.b == b {
      assert Look(0);
      ReleaseServes(l, s, a.t, b);
    } else if Asks(a, b) {
      AskServes(l, s, a, s', b);
    } else {
      OtherServes(l, s, a, s', b);
    }
  }

  lemma AskServes(l: Layout, s: State, a: Action, s': State, b: nat)
    requires Goes(l, s, a, s') && Asks(a, b) && (Owner(s, b).None? ==> Queue(s, b) == [])
    ensures Grants(s, a, s', b) + Queue(s', b) == Queue(s, b) + [a.t]
  {
    assert Look(0);
    if b in s.bufs && s.bufs[b].holder.Some? {
      var w := s.bufs[b].waiters;
      assert s'.bufs[b].waiters == [a.t] + w && ([a.t] + w)[1..] == w;
    }
  }

  /** Other blocks' locks, and the eviction of a block that is not locked. */
  lemma OtherServes(l: Layout, s: State, a: Action, s': State, b: nat)
    requires Goes(l, s, a, s') && (a.Evict? || ((a.AcquireHit? || a.AcquireMiss? || a.Release?) && a.b != b))
    requires Owner(s, b).None? ==> Queue(s, b) == []
    requires MayEvict(s) && s.lru[|s.lru| - 1] == b ==> Owner(s, b).None?
    ensures Grants(s, a, s', b) == [] && Queue(s', b) == Queue(s, b)
  {
    assert Look(0);
  }

  lemma ReleaseServes(l: Layout, s: State, t: Tid, b: nat)
    requires l.Valid() && Enabled(l, s, Release(t, b))
    ensures var s' := Next(l, s, Release(t, b)); Grants(s, Release(t, b), s', b) + Queue(s', b) == Queue(s, b)
  {
    var w := s.bufs[b].waiters;
    if w != [] {
      ReversedLast(w);
    }
  }

  lemma Regroup<T>(g: seq<T>, h: seq<T>, q: seq<T>, r: seq<T>, x: seq<T>)
    requires h + r == q + x
    ensures g + h + r == g + q + x
  {
    assert g + h + r == g + (h + r) == g + (q + x);
  }

  /** The run before kept the law, and so does its next action. */
  lemma ServesOn(l: Layout, s: State, acts: seq<Action>, s1: State, a: Action, s': State, b: nat, g: seq<Tid>,
                 asked: seq<Tid>)
    requires l.Valid() && Inv(l, s) && ListOk(s) && Exec(l, s, acts) == Some(s1) && Goes(l, s1, a, s') && !a.Crash?
    requires g + Queue(s1, b) == asked
    ensures g + Grants(s1, a, s', b) + Queue(s', b) == asked + if Asks(a, b) then [a.t] else []
  {
    RunRefines(l, s, acts);
    StepServes(l, s1, a, s', b);
    Regroup(g, Grants(s1, a, s', b), Queue(s1, b), Queue(s', b), if Asks(a, b) then [a.t] else []);
  }

  /**
   Over every run, those who have got the lock of a block and those who still wait for it are, in order,
   those who asked for it.
   */
  lemma {:induction false} FirstComeFirstServed(l: Layout, s: State, acts: seq<Action>, b: nat)
    requires l.Valid() && Inv(l, s) && ListOk(s) && s.bufs == map[] && Exec(l, s, acts).Some?
    ensures Granted(l, s, acts, b) + Queue(Exec(l, s, acts).value, b) == Asked(acts, b)
    decreases |acts|
  {
    if acts != [] {
      var n := |acts| - 1;
      var before, a, s' := acts[..n], acts[n], Exec(l, s, acts).value;
      var s1 := LastStep(l, s, acts);
      if a.Crash? {
        CrashForgets(l, s1, a, s');
      } else {
        FirstComeFirstServed(l, s, before, b);
        ServesOn(l, s, before, s1, a, s', b, Granted(l, s, before, b), Asked(before, b));
        assert Asked(before, b) + [] == Asked(before, b);
      }
    }
  }
}
