/** Run queues, processors and charges: what every scheduling step keeps. */
module SchedModel {
  import opened Common

  /** The root container. */
  const TOP: nat := 0

  datatype PState = Unused | Runnable | Running | Sleeping | DeepSleeping | Zombie

  /** What a run queue holds: processes, and the containers nested in this one. */
  datatype Ent = Task(p: nat) | Group(g: nat)

  /** `home` is the container of the process. */
  datatype Proc = Proc(state: PState, home: nat, idle: bool, killed: bool)

  datatype Cont = Cont(parent: nat, queue: seq<Ent>)

  datatype Cpu = Cpu(cur: nat, idle: nat)

  type Procs = map<nat, Proc>
  type Conts = map<nat, Cont>

  // ---------------------------------------------------------------- containers and their queues

  predicate Queued(ps: Procs, c: nat, p: nat) {
    p in ps && !ps[p].idle && ps[p].state == Runnable && ps[p].home == c
  }

  /** The queue of `c` holds, once each, its runnable processes and nothing else but nested containers. */
  ghost predicate QueueOk(ps: Procs, cs: Conts, c: nat)
    requires c in cs
  {
    && NoDup(cs[c].queue)
    && (forall p: nat :: Task(p) in cs[c].queue <==> Queued(ps, c, p))
    && (forall g: nat :: Group(g) in cs[c].queue ==> g in cs && c < g && cs[g].parent == c)
  }

  /** Mentioning `Unfold` opens the invariants below, which most proofs only pass along. */
  ghost predicate Unfold(cs: Conts, n: nat) {
    true
  }

  /** Containers nest below the root, and every queue is right. */
  ghost predicate QueuesOk(ps: Procs, cs: Conts) {
    && TOP in cs
    && forall n: nat :: Unfold(cs, n) ==>
         && (forall c {:trigger QueueOk(ps, cs, c)} :: c in cs ==> QueueOk(ps, cs, c))
         && (forall c {:trigger cs[c].parent} :: c in cs && c != TOP ==> cs[c].parent in cs && cs[c].parent < c)
         && (forall p :: p in ps && !ps[p].idle ==> ps[p].home in cs)
  }

  function WithState(ps: Procs, p: nat, st: PState): Procs
    requires p in ps
  {
    ps[p := ps[p].(state := st)]
  }

  function Enqueue(cs: Conts, c: nat, e: Ent): Conts
    requires c in cs
  {
    cs[c := cs[c].(queue := [e] + cs[c].queue)]
  }

  function Dequeue(cs: Conts, c: nat, e: Ent): Conts
    requires c in cs
  {
    cs[c := cs[c].(queue := Without(cs[c].queue, e))]
  }

  lemma QueueFacts(ps: Procs, cs: Conts, c: nat)
    requires QueuesOk(ps, cs) && c in cs
    ensures QueueOk(ps, cs, c) && (c != TOP ==> cs[c].parent in cs && cs[c].parent < c)
  {
    assert Unfold(cs, 0);
  }

  lemma HomeFacts(ps: Procs, cs: Conts, p: nat)
    requires QueuesOk(ps, cs) && p in ps && !ps[p].idle
    ensures ps[p].home in cs
  {
    assert Unfold(cs, 0);
  }

  lemma EnqueueOk(ps: Procs, cs: Conts, p: nat)
    requires QueuesOk(ps, cs) && p in ps && !ps[p].idle && ps[p].state != Runnable && ps[p].home in cs
    ensures QueuesOk(WithState(ps, p, Runnable), Enqueue(cs, ps[p].home, Task(p)))
  {
    assert Unfold(cs, 0);
    var h := ps[p].home;
    var qs, ds := WithState(ps, p, Runnable), Enqueue(cs, h, Task(p));
    forall c | c in ds
      ensures QueueOk(qs, ds, c)
    {
      assert QueueOk(ps, cs, c);
      if c == h {
        assert Task(p) !in cs[h].queue;
        assert forall e :: e in ds[h].queue <==> e == Task(p) || e in cs[h].queue;
      }
      QueueSame(ps, qs, p, c);
    }
  }

  /** Who is queued where depends on nothing but the process whose state changes. */
  lemma QueueSame(ps: Procs, qs: Procs, p: nat, c: nat)
    requires p in ps && p in qs && qs == ps[p := qs[p]] && qs[p].home == ps[p].home && qs[p].idle == ps[p].idle
    ensures forall x: nat :: x != p ==> (Queued(qs, c, x) <==> Queued(ps, c, x))
    ensures Queued(qs, c, p) <==> !ps[p].idle && qs[p].state == Runnable && ps[p].home == c
  {
  }

  lemma DequeueOk(ps: Procs, cs: Conts, p: nat, st: PState)
    requires QueuesOk(ps, cs) && p in ps && Queued(ps, ps[p].home, p) && st != Runnable && ps[p].home in cs
    ensures QueuesOk(WithState(ps, p, st), Dequeue(cs, ps[p].home, Task(p)))
  {
    assert Unfold(cs, 0);
    var h := ps[p].home;
    var qs, ds := WithState(ps, p, st), Dequeue(cs, h, Task(p));
    forall c | c in ds
      ensures QueueOk(qs, ds, c)
    {
      assert QueueOk(ps, cs, c);
      WithoutOk(cs[c].queue, Task(p));
      QueueSame(ps, qs, p, c);
    }
  }

  /** States other than runnable, and the idle processes, do not concern the queues. */
  lemma StateOk(ps: Procs, cs: Conts, p: nat, st: PState)
    requires QueuesOk(ps, cs) && p in ps && (ps[p].idle || (ps[p].state != Runnable && st != Runnable))
    ensures QueuesOk(WithState(ps, p, st), cs)
  {
    assert Unfold(cs, 0);
    var qs := WithState(ps, p, st);
    forall c | c in cs
      ensures QueueOk(qs, cs, c)
    {
      assert QueueOk(ps, cs, c);
      QueueSame(ps, qs, p, c);
    }
  }

  /** A new container, empty and not yet linked into its parent's queue. */
  lemma NestOk(ps: Procs, cs: Conts, parent: nat, g: nat)
    requires QueuesOk(ps, cs) && parent in cs && g !in cs && parent < g
    ensures QueuesOk(ps, cs[g := Cont(parent, [])])
  {
    assert Unfold(cs, 0);
    var ds := cs[g := Cont(parent, [])];
    forall c | c in ds
      ensures QueueOk(ps, ds, c)
    {
      if c == g {
        assert forall p: nat :: !Queued(ps, g, p);
      } else {
        assert QueueOk(ps, cs, c);
      }
    }
  }

  /** Linking a container into its parent's queue. */
  lemma LinkOk(ps: Procs, cs: Conts, g: nat)
    requires QueuesOk(ps, cs) && g in cs && g != TOP && cs[g].parent in cs && Group(g) !in cs[cs[g].parent].queue
    ensures QueuesOk(ps, Enqueue(cs, cs[g].parent, Group(g)))
  {
    assert Unfold(cs, 0);
    var h := cs[g].parent;
    var ds := Enqueue(cs, h, Group(g));
    forall c | c in ds
      ensures QueueOk(ps, ds, c)
    {
      assert QueueOk(ps, cs, c);
      if c == h {
        assert forall e :: e in ds[h].queue <==> e == Group(g) || e in cs[h].queue;
      }
    }
  }

  /** A new process, not yet runnable. */
  lemma CreateOk(ps: Procs, cs: Conts, p: nat, home: nat, killed: bool)
    requires QueuesOk(ps, cs) && p !in ps && home in cs
    ensures QueuesOk(ps[p := Proc(Unused, home, false, killed)], cs)
  {
    assert Unfold(cs, 0);
    var qs := ps[p := Proc(Unused, home, false, killed)];
    forall c | c in cs
      ensures QueueOk(qs, cs, c)
    {
      assert QueueOk(ps, cs, c);
      assert forall x: nat :: Queued(qs, c, x) <==> Queued(ps, c, x);
    }
  }

  // ---------------------------------------------------------------- processors

  predicate Current(cpus: seq<Cpu>, p: nat) {
    exists k :: 0 <= k < |cpus| && cpus[k].cur == p
  }

  /** A process runs exactly if it is the current one of a processor, and then of one only. */
  ghost predicate CpusOk(ps: Procs, cpus: seq<Cpu>) {
    && (forall k :: 0 <= k < |cpus| ==> cpus[k].cur in ps && cpus[k].idle in ps && ps[cpus[k].idle].idle)
    && (forall k, l :: 0 <= k < l < |cpus| ==> cpus[k].cur != cpus[l].cur && cpus[k].idle != cpus[l].idle)
    && (forall k :: 0 <= k < |cpus| && ps[cpus[k].cur].idle ==> cpus[k].cur == cpus[k].idle)
    && (forall p :: p in ps ==> (ps[p].state == Running <==> Current(cpus, p)))
    && (forall k :: 0 <= k < |cpus| && cpus[k].cur != cpus[k].idle ==> ps[cpus[k].idle].state == Runnable)
  }

  /** Processor `k` gives up its process for another that is runnable and runs nowhere. */
  lemma SwitchOk(ps: Procs, cpus: seq<Cpu>, k: nat, st: PState, next: nat)
    requires CpusOk(ps, cpus) && k < |cpus| && st != Running && (ps[cpus[k].cur].idle ==> st == Runnable)
    requires next in ps && (next == cpus[k].cur || !Current(cpus, next)) && (ps[next].idle ==> next == cpus[k].idle)
    ensures var qs := WithState(WithState(ps, cpus[k].cur, st), next, Running);
            CpusOk(qs, cpus[k := cpus[k].(cur := next)])
  {
    var qs, ds := WithState(WithState(ps, cpus[k].cur, st), next, Running), cpus[k := cpus[k].(cur := next)];
    forall p | p in qs
      ensures qs[p].state == Running <==> Current(ds, p)
    {
      SwitchCurrent(cpus, ds, k, next, p);
    }
  }

  lemma SwitchCurrent(cpus: seq<Cpu>, ds: seq<Cpu>, k: nat, next: nat, p: nat)
    requires k < |cpus| && ds == cpus[k := cpus[k].(cur := next)]
    requires forall l :: 0 <= l < |cpus| && l != k ==> cpus[l].cur != cpus[k].cur
    ensures Current(ds, p) <==> p == next || (p != cpus[k].cur && Current(cpus, p))
  {
    if p == next {
      assert ds[k].cur == p;
    } else if p != cpus[k].cur && Current(cpus, p) {
      var l :| 0 <= l < |cpus| && cpus[l].cur == p;
      assert ds[l].cur == p;
    }
  }

  /** Changing the state of a process that does not run, to another in which it does not. */
  lemma StillOk(ps: Procs, cpus: seq<Cpu>, p: nat, st: PState)
    requires CpusOk(ps, cpus) && p in ps && !ps[p].idle && ps[p].state != Running && st != Running
    ensures CpusOk(WithState(ps, p, st), cpus)
  {
  }

  // ---------------------------------------------------------------- who is next

  /** An entry of the queue of `c` that leads to a process. */
  predicate Busy(cs: Conts, top: nat, c: nat, e: Ent)
    decreases if top > c then top - c else 0, 0
  {
    e.Task? || (c < e.g < top && NonEmpty(cs, top, e.g))
  }

  /** The container has a process queued in it or in one linked below it. */
  predicate NonEmpty(cs: Conts, top: nat, c: nat)
    decreases if top > c then top - c else 0, 1
  {
    c in cs && c < top && exists e :: e in cs[c].queue && Busy(cs, top, c, e)
  }

  /** Process `p` is queued in `c` or in a container linked below it. */
  ghost predicate Reach(cs: Conts, top: nat, c: nat, p: nat)
    decreases if top > c then top - c else 0
  {
    && c in cs && c < top
    && (Task(p) in cs[c].queue || exists g: nat :: Group(g) in cs[c].queue && c < g < top && Reach(cs, top, g, p))
  }

  lemma {:induction false} ReachIsNonEmpty(cs: Conts, top: nat, c: nat, p: nat)
    requires Reach(cs, top, c, p)
    ensures NonEmpty(cs, top, c)
    decreases top - c
  {
    if Task(p) in cs[c].queue {
      assert Busy(cs, top, c, Task(p));
    } else {
      var g: nat :| Group(g) in cs[c].queue && c < g < top && Reach(cs, top, g, p);
      ReachIsNonEmpty(cs, top, g, p);
      assert Busy(cs, top, c, Group(g));
    }
  }

  /** With every container linked into its parent, a queued process is reached from the root. */
  lemma {:induction false} LinkedIsReached(ps: Procs, cs: Conts, top: nat, c: nat, p: nat)
    requires QueuesOk(ps, cs) && (forall g :: g in cs ==> g < top)
    requires forall g :: g in cs && g != TOP ==> cs[g].parent in cs && Group(g) in cs[cs[g].parent].queue
    requires c in cs && Reach(cs, top, c, p)
    ensures Reach(cs, top, TOP, p)
    decreases c
  {
    if c != TOP {
      QueueFacts(ps, cs, c);
      var h := cs[c].parent;
      assert Group(c) in cs[h].queue && h < c < top && Reach(cs, top, c, p);
      LinkedIsReached(ps, cs, top, h, p);
    }
  }

  // ---------------------------------------------------------------- least occupied

  const U64: nat := 0x1_0000_0000_0000_0000

  type Times = map<Ent, nat>

  function Time(occ: Times, e: Ent): nat {
    if e in occ then occ[e] else 0
  }

  /** A 64-bit counter stored in an `int`. */
  function Narrow(x: nat): int {
    var y := x % 0x1_0000_0000;
    if y < 0x8000_0000 then y else y - 0x1_0000_0000
  }

  /** No time is, or passes for, the -1 that marks the start of a search. */
  predicate Clear(occ: Times) {
    forall e :: e in occ ==> occ[e] < 0xFFFF_FFFF
  }

  /** `e` leads to a process, and none that does has been given less time. */
  ghost predicate Best(cs: Conts, top: nat, occ: Times, c: nat, e: Ent)
    requires c in cs
  {
    && e in cs[c].queue && Busy(cs, top, c, e)
    && forall f :: f in cs[c].queue && Busy(cs, top, c, f) ==> Time(occ, e) <= Time(occ, f)
  }

  /** The times of the entries that lead to a process all lie between the same two multiples of 2^31. */
  ghost predicate OneSide(cs: Conts, top: nat, occ: Times, c: nat)
    requires c in cs
  {
    forall e, f :: e in cs[c].queue && f in cs[c].queue && Busy(cs, top, c, e) && Busy(cs, top, c, f) ==>
      Time(occ, e) / 0x8000_0000 == Time(occ, f) / 0x8000_0000
  }

  /** No entry that leads to a process has a time that passes for the -1 that marks the start of a search. */
  ghost predicate Unmarked(cs: Conts, top: nat, occ: Times, c: nat)
    requires c in cs
  {
    forall e :: e in cs[c].queue && Busy(cs, top, c, e) ==> Narrow(Time(occ, e)) != -1
  }

  /** The upper halves of those times agree. */
  ghost predicate SameEra(cs: Conts, top: nat, occ: Times, c: nat)
    requires c in cs
  {
    forall e, f :: e in cs[c].queue && f in cs[c].queue && Busy(cs, top, c, e) && Busy(cs, top, c, f) ==>
      Time(occ, e) / 0x1_0000_0000 == Time(occ, f) / 0x1_0000_0000
  }

  lemma ClearIsFine(cs: Conts, top: nat, occ: Times, c: nat)
    requires c in cs && Clear(occ)
    ensures Unmarked(cs, top, occ, c) && SameEra(cs, top, occ, c)
  {
  }

  /** `int` and 64-bit order agree between two multiples of 2^31, and within 2^32 nowhere else. */
  lemma NarrowOrder(x: nat, y: nat)
    ensures x / 0x8000_0000 == y / 0x8000_0000 ==> (Narrow(x) <= Narrow(y) <==> x <= y)
    ensures x / 0x1_0000_0000 == y / 0x1_0000_0000 && x / 0x8000_0000 != y / 0x8000_0000 ==>
              (Narrow(x) <= Narrow(y) <==> y <= x)
    ensures x / 0x1_0000_0000 == y / 0x1_0000_0000 && x / 0x8000_0000 != y / 0x8000_0000 ==> x != y
    ensures x / 0x8000_0000 == y / 0x8000_0000 ==> x / 0x1_0000_0000 == y / 0x1_0000_0000
  {
    assert x == x / 0x1_0000_0000 * 0x1_0000_0000 + x % 0x1_0000_0000;
    assert y == y / 0x1_0000_0000 * 0x1_0000_0000 + y % 0x1_0000_0000;
    Halves(x);
    Halves(y);
  }

  lemma Halves(x: nat)
    ensures x / 0x8000_0000 == 2 * (x / 0x1_0000_0000) + if x % 0x1_0000_0000 < 0x8000_0000 then 0 else 1
  {
  }

  /** Least as an `int` among the entries that lead to a process. */
  ghost predicate LeastInt(cs: Conts, top: nat, occ: Times, c: nat, e: Ent)
    requires c in cs
  {
    && e in cs[c].queue && Busy(cs, top, c, e)
    && forall f :: f in cs[c].queue && Busy(cs, top, c, f) ==> Narrow(Time(occ, e)) <= Narrow(Time(occ, f))
  }

  /** Least as an `int` is least in truth when the times lie on one side, and within 2^32 only then. */
  lemma LeastNarrow(cs: Conts, top: nat, occ: Times, c: nat, e: Ent)
    requires c in cs && LeastInt(cs, top, occ, c, e)
    ensures OneSide(cs, top, occ, c) ==> Best(cs, top, occ, c, e)
    ensures SameEra(cs, top, occ, c) ==> (Best(cs, top, occ, c, e) <==> OneSide(cs, top, occ, c))
  {
    forall f | f in cs[c].queue && Busy(cs, top, c, f)
      ensures OneSide(cs, top, occ, c) ==> Time(occ, e) <= Time(occ, f)
      ensures SameEra(cs, top, occ, c) && Time(occ, e) <= Time(occ, f) ==>
                Time(occ, e) / 0x8000_0000 == Time(occ, f) / 0x8000_0000
    {
      NarrowOrder(Time(occ, e), Time(occ, f));
    }
  }

  // ---------------------------------------------------------------- the search

  /** What the search has found: the least `int` so far, or -1, and whose it is. */
  datatype Found = Found(least: int, best: Option<Ent>)

  function Looked(cs: Conts, top: nat, occ: Times, c: nat, e: Ent, f: Found): Found {
    if Busy(cs, top, c, e) &&
      (f.least == -1 || Narrow(Time(occ, e)) < f.least) then Found(Narrow(Time(occ, e)), Some(e)) else f
  }

  /** The search of the first `i` entries of the queue of `c`. */
  function Search(cs: Conts, top: nat, occ: Times, c: nat, i: nat): Found
    requires c in cs && i <= |cs[c].queue|
  {
    if i == 0 then Found(-1, None) else Looked(cs, top, occ, c, cs[c].queue[i - 1], Search(cs, top, occ, c, i - 1))
  }

  /** The entry of the queue of `c` that the scheduler follows. */
  function Chosen(cs: Conts, top: nat, occ: Times, c: nat): Option<Ent>
    requires c in cs
  {
    Search(cs, top, occ, c, |cs[c].queue|).best
  }

  /** Whatever the times, an entry that leads to a process is found if there is one. */
  lemma {:induction false} SearchFinds(cs: Conts, top: nat, occ: Times, c: nat, i: nat)
    requires c in cs && i <= |cs[c].queue|
    ensures var f := Search(cs, top, occ, c, i);
            && (f.best.None? ==> f.least == -1)
            && (f.best.None? <==> forall j :: 0 <= j < i ==> !Busy(cs, top, c, cs[c].queue[j]))
            && (f.best.Some? ==> f.best.value in cs[c].queue[..i] && Busy(cs, top, c, f.best.value))
  {
    if i > 0 {
      SearchFinds(cs, top, occ, c, i - 1);
      var q := cs[c].queue;
      assert q[..i] == q[..i - 1] + [q[i - 1]];
    }
  }

  /** On one side, nothing is more than the mark if anything is equal to it. */
  lemma MarkIsMost(cs: Conts, top: nat, occ: Times, c: nat, e: Ent, f: Ent)
    requires c in cs && OneSide(cs, top, occ, c) && e in cs[c].queue && f in cs[c].queue
    requires Busy(cs, top, c, e) && Busy(cs, top, c, f) && Narrow(Time(occ, e)) == -1
    ensures Narrow(Time(occ, f)) <= -1
  {
    Halves(Time(occ, e));
    Halves(Time(occ, f));
  }

  /** What is found is least as an `int`, unless the times are on both sides and one of them passes for the mark. */
  lemma {:induction false} SearchLeast(cs: Conts, top: nat, occ: Times, c: nat, i: nat)
    requires c in cs && i <= |cs[c].queue| && (Unmarked(cs, top, occ, c) || OneSide(cs, top, occ, c))
    ensures var f, q := Search(cs, top, occ, c, i), cs[c].queue;
            f.best.Some? ==>
              && f.least == Narrow(Time(occ, f.best.value))
              && (forall j :: 0 <= j < i && Busy(cs, top, c, q[j]) ==> f.least <= Narrow(Time(occ, q[j])))
  {
    if i > 0 {
      SearchLeast(cs, top, occ, c, i - 1);
      SearchFinds(cs, top, occ, c, i - 1);
      var q, f := cs[c].queue, Search(cs, top, occ, c, i - 1);
      assert q[i - 1] in q;
      if f.best.Some? && f.least == -1 && Busy(cs, top, c, q[i - 1]) {
        assert f.best.value in q && !Unmarked(cs, top, occ, c);
        MarkIsMost(cs, top, occ, c, f.best.value, q[i - 1]);
      }
    }
  }

  /** Of several with the least `int` the first is found. */
  lemma {:induction false} SearchFirst(cs: Conts, top: nat, occ: Times, c: nat, i: nat) returns (at: nat)
    requires c in cs && i <= |cs[c].queue| && Unmarked(cs, top, occ, c)
    ensures var f, q := Search(cs, top, occ, c, i), cs[c].queue;
            f.best.Some? ==>
              && at < i && q[at] == f.best.value && f.least == Narrow(Time(occ, q[at])) != -1
              && (forall j :: 0 <= j < at && Busy(cs, top, c, q[j]) ==> f.least < Narrow(Time(occ, q[j])))
  {
    at := 0;
    if i > 0 {
      at := SearchFirst(cs, top, occ, c, i - 1);
      SearchFinds(cs, top, occ, c, i - 1);
      SearchLeast(cs, top, occ, c, i - 1);
      var q, f := cs[c].queue, Search(cs, top, occ, c, i - 1);
      assert q[i - 1] in q;
      if Search(cs, top, occ, c, i) != f {
        at := i - 1;
      }
    }
  }

  /**
   The entry followed. There is one if a process is queued below, whatever the times. It is a least one
   if the times lie on one side; and, while they agree above 2^32 and none passes for the
   mark, only if they do.
   */
  lemma ChosenOk(cs: Conts, top: nat, occ: Times, c: nat)
    requires c in cs && c < top
    ensures var r := Chosen(cs, top, occ, c);
            && (r.None? <==> !NonEmpty(cs, top, c))
            && (r.Some? ==> r.value in cs[c].queue && Busy(cs, top, c, r.value))
            && (r.Some? && Unmarked(cs, top, occ, c) ==> LeastInt(cs, top, occ, c, r.value))
            && (r.Some? && OneSide(cs, top, occ, c) ==> Best(cs, top, occ, c, r.value))
            && (r.Some? && Unmarked(cs, top, occ, c) && SameEra(cs, top, occ, c) ==>
                  (Best(cs, top, occ, c, r.value) <==> OneSide(cs, top, occ, c)))
  {
    var q, r := cs[c].queue, Chosen(cs, top, occ, c);
    SearchFinds(cs, top, occ, c, |q|);
    assert q[..|q|] == q;
    if r.None? {
      forall e | e in q
        ensures !Busy(cs, top, c, e)
      {
        var j :| 0 <= j < |q| && q[j] == e;
      }
    } else if Unmarked(cs, top, occ, c) || OneSide(cs, top, occ, c) {
      SearchLeast(cs, top, occ, c, |q|);
      forall f | f in q && Busy(cs, top, c, f)
        ensures Narrow(Time(occ, r.value)) <= Narrow(Time(occ, f))
      {
        var j :| 0 <= j < |q| && q[j] == f;
      }
      LeastNarrow(cs, top, occ, c, r.value);
    }
  }

  /** A queue on which the entry followed is not a least one: 2^31 reads as a negative `int`. */
  lemma WrongChoice() returns (ps: Procs, cs: Conts, occ: Times)
    ensures QueuesOk(ps, cs) && Clear(occ)
    ensures Chosen(cs, 1, occ, TOP) == Some(Task(1)) && !Best(cs, 1, occ, TOP, Task(1)) &&
            Best(cs, 1, occ, TOP, Task(2))
  {
    var a, b := Task(1), Task(2);
    ps := map[1 := Proc(Runnable, TOP, false, false), 2 := Proc(Runnable, TOP, false, false)];
    cs, occ := map[TOP := Cont(TOP, [a, b])], map[a := 0x8000_0000, b := 1];
    assert QueueOk(ps, cs, TOP);
    assert Search(cs, 1, occ, TOP, 1) == Found(-0x8000_0000, Some(a));
    assert a in cs[TOP].queue && b in cs[TOP].queue && Time(occ, b) < Time(occ, a);
  }

  /** A queue on which it is not even least as an `int`: 2^32 - 1 passes for the mark, and what comes next is taken. */
  lemma MarkedChoice() returns (ps: Procs, cs: Conts, occ: Times)
    ensures QueuesOk(ps, cs)
    ensures Chosen(cs, 1, occ, TOP) == Some(Task(3)) && !LeastInt(cs, 1, occ, TOP, Task(3)) &&
            Best(cs, 1, occ, TOP, Task(1))
  {
    var a, b, d, p := Task(1), Task(2), Task(3), Proc(Runnable, TOP, false, false);
    ps := map[1 := p, 2 := p, 3 := p];
    cs, occ := map[TOP := Cont(TOP, [a, b, d])], map[a := 5, b := 0xFFFF_FFFF, d := 7];
    assert QueueOk(ps, cs, TOP);
    assert Search(cs, 1, occ, TOP, 1) == Found(5, Some(a));
    assert Search(cs, 1, occ, TOP, 2) == Found(-1, Some(b));
    assert a in cs[TOP].queue && Narrow(Time(occ, a)) < Narrow(Time(occ, d));
  }

  // ---------------------------------------------------------------- the path

  /** The process that is found by following the chosen entry at each level. */
  ghost function Followed(cs: Conts, top: nat, occ: Times, c: nat): Option<nat>
    decreases if top > c then top - c else 0
  {
    if c !in cs then None
    else
      match Chosen(cs, top, occ, c)
      case Some(Task(p)) => Some(p)
      case Some(Group(g)) => if c < g < top then Followed(cs, top, occ, g) else None
      case None => None
  }

  /** Process `p` is found by following a least occupied entry at each level. */
  ghost predicate LeastPath(cs: Conts, top: nat, occ: Times, c: nat, p: nat)
    decreases if top > c then top - c else 0
  {
    && c in cs && c < top
    && (Best(cs, top, occ, c, Task(p))
        || exists g: nat :: Best(cs, top, occ, c, Group(g)) && c < g < top && LeastPath(cs, top, occ, g, p))
  }

  /** The times lie on one side at each level of the path that is followed from `c`. */
  ghost predicate OneSidePath(cs: Conts, top: nat, occ: Times, c: nat)
    decreases if top > c then top - c else 0
  {
    c in cs && c < top ==>
      && OneSide(cs, top, occ, c)
      && match Chosen(cs, top, occ, c)
         case Some(Group(g)) => c < g < top ==> OneSidePath(cs, top, occ, g)
         case _ => true
  }

  /** A process lies below one entry of a queue at most. */
  lemma {:induction false} OneWayDown(ps: Procs, cs: Conts, top: nat, c: nat, p: nat)
    requires QueuesOk(ps, cs) && Reach(cs, top, c, p)
    ensures p in ps && Inside(cs, ps[p].home, c) && ps[p].home in cs
    decreases top - c
  {
    QueueFacts(ps, cs, c);
    if Task(p) !in cs[c].queue {
      var g: nat :| Group(g) in cs[c].queue && c < g < top && Reach(cs, top, g, p);
      OneWayDown(ps, cs, top, g, p);
      InsideStep(cs, ps[p].home, g);
    }
  }

  lemma {:induction false} InsideStep(cs: Conts, c: nat, g: nat)
    requires Inside(cs, c, g) && g in cs && g != TOP && cs[g].parent < g
    ensures Inside(cs, c, cs[g].parent)
    decreases c
  {
    if c != g {
      InsideStep(cs, cs[c].parent, g);
    }
  }

  /** Of two containers with the same parent a third lies in one at most. */
  lemma {:induction false} OneBranch(cs: Conts, h: nat, g: nat, g': nat)
    requires Inside(cs, h, g) && Inside(cs, h, g') && g in cs && g' in cs && cs[g].parent == cs[g'].parent
    requires cs[g].parent < g && cs[g'].parent < g' && g != TOP && g' != TOP
    ensures g == g'
    decreases h
  {
    if g != g' {
      if h == g {
        InsideUp(cs, cs[g].parent, g');
      } else if h == g' {
        InsideUp(cs, cs[g'].parent, g);
      } else {
        OneBranch(cs, cs[h].parent, g, g');
      }
    }
  }

  lemma {:induction false} ReachedIsQueued(ps: Procs, cs: Conts, top: nat, c: nat, p: nat)
    requires QueuesOk(ps, cs) && Reach(cs, top, c, p)
    ensures p in ps && Queued(ps, ps[p].home, p) && ps[p].home in cs
    decreases top - c
  {
    QueueFacts(ps, cs, c);
    if Task(p) !in cs[c].queue {
      var g: nat :| Group(g) in cs[c].queue && c < g < top && Reach(cs, top, g, p);
      ReachedIsQueued(ps, cs, top, g, p);
    }
  }

  // ---------------------------------------------------------------- charges

  /** Container `c` is `g` or lies below it. */
  predicate Inside(cs: Conts, c: nat, g: nat)
    decreases c
  {
    c == g || (c != TOP && c in cs && cs[c].parent < c && Inside(cs, cs[c].parent, g))
  }

  lemma {:induction false} InsideUp(cs: Conts, c: nat, g: nat)
    requires Inside(cs, c, g)
    ensures g <= c && (c in cs && c != g ==> c != TOP)
    decreases c
  {
    if c != g {
      InsideUp(cs, cs[c].parent, g);
    }
  }

  ghost predicate SameParents(cs: Conts, ds: Conts) {
    forall c :: c in cs ==> c in ds && ds[c].parent == cs[c].parent
  }

  ghost predicate HasParent(cs: Conts, x: nat) {
    x in cs && x != TOP ==> cs[x].parent in cs
  }

  ghost predicate ParentsIn(cs: Conts) {
    forall x: nat {:trigger HasParent(cs, x)} :: HasParent(cs, x)
  }

  lemma ParentsOk(ps: Procs, cs: Conts)
    requires QueuesOk(ps, cs)
    ensures ParentsIn(cs)
  {
    forall x: nat
      ensures HasParent(cs, x)
    {
      if x in cs {
        QueueFacts(ps, cs, x);
      }
    }
  }

  /** Nesting is a matter of parents only, and a container that is new has nothing inside but itself. */
  lemma {:induction false} InsideSame(cs: Conts, ds: Conts, c: nat, g: nat)
    requires SameParents(cs, ds) && c in cs && ParentsIn(cs)
    ensures Inside(ds, c, g) == Inside(cs, c, g) && (g !in cs ==> !Inside(cs, c, g))
    decreases c
  {
    if c != g && c != TOP && cs[c].parent < c {
      assert HasParent(cs, c);
      InsideSame(cs, ds, cs[c].parent, g);
    }
  }

  /** A charge of `time` to process `p` of container `home`. */
  datatype Charge = Charge(p: nat, home: nat, time: int)

  /** All that was charged to process `p`. */
  ghost function ChargedTo(log: seq<Charge>, p: nat): int {
    if log == [] then 0
    else
      var last := log[|log| - 1];
      ChargedTo(log[..|log| - 1], p) + (if last.p == p then last.time else 0)
  }

  /** All that was charged to processes in `g` and below. */
  ghost function Charged(cs: Conts, log: seq<Charge>, g: nat): int {
    if log == [] then 0
    else
      var last := log[|log| - 1];
      Charged(cs, log[..|log| - 1], g) + (if Inside(cs, last.home, g) then last.time else 0)
  }

  lemma {:induction false} ChargedSame(cs: Conts, ds: Conts, log: seq<Charge>, g: nat)
    requires SameParents(cs, ds) && ParentsIn(cs)
    requires forall i :: 0 <= i < |log| ==> log[i].home in cs
    ensures Charged(ds, log, g) == Charged(cs, log, g) && (g !in cs ==> Charged(cs, log, g) == 0)
  {
    if log != [] {
      ChargedSame(cs, ds, log[..|log| - 1], g);
      InsideSame(cs, ds, log[|log| - 1].home, g);
    }
  }

  /** Every process has been given its charges, modulo 2^64, and every nested container those of all processes in it. */
  ghost predicate TimesOk(cs: Conts, occ: Times, log: seq<Charge>) {
    && (forall p: nat :: Time(occ, Task(p)) == ChargedTo(log, p) % U64)
    && (forall i :: 0 <= i < |log| ==> log[i].home in cs)
    && (forall g: nat :: g in cs && g != TOP ==> Time(occ, Group(g)) == Charged(cs, log, g) % U64)
  }

  /** Linking and unlinking queue entries moves no container. */
  lemma TimesSame(ps: Procs, cs: Conts, ds: Conts, occ: Times, log: seq<Charge>)
    requires QueuesOk(ps, cs) && TimesOk(cs, occ, log) && SameParents(cs, ds)
    requires forall g: nat :: g in ds && g !in cs ==> Time(occ, Group(g)) == 0
    ensures TimesOk(ds, occ, log)
  {
    ParentsOk(ps, cs);
    forall g: nat | g in ds && g != TOP
      ensures Time(occ, Group(g)) == Charged(ds, log, g) % U64
    {
      ChargedSame(cs, ds, log, g);
    }
  }

  /** The containers from `home` up to but not including `c` have had `d` added. */
  ghost predicate AddedAt(cs: Conts, occ: Times, occ': Times, home: nat, c: nat, d: int, g: nat) {
    Time(occ', Group(g)) == if Inside(cs, home, g) &&
      !Inside(cs, c, g) then (Time(occ, Group(g)) + d) % U64 else Time(occ, Group(g))
  }

  ghost predicate AddedUpTo(cs: Conts, occ: Times, occ': Times, home: nat, c: nat, d: int) {
    forall g: nat :: g in cs && g != TOP ==> AddedAt(cs, occ, occ', home, c, d, g)
  }

  lemma InsideParent(cs: Conts, c: nat, g: nat)
    requires c in cs && c != TOP && cs[c].parent < c
    ensures Inside(cs, c, g) <==> g == c || Inside(cs, cs[c].parent, g)
    ensures Inside(cs, cs[c].parent, g) ==> g < c
  {
    if Inside(cs, cs[c].parent, g) {
      InsideUp(cs, cs[c].parent, g);
    }
  }

  lemma AddOneAt(cs: Conts, occ: Times, occ': Times, home: nat, c: nat, d: int, g: nat)
    requires AddedAt(cs, occ, occ', home, c, d, g) && c in cs && c != TOP && cs[c].parent < c && Inside(cs, home, c)
    ensures AddedAt(cs, occ, occ'[Group(c) := (Time(occ', Group(c)) + d) % U64], home, cs[c].parent, d, g)
  {
    InsideParent(cs, c, g);
    var t := (Time(occ', Group(c)) + d) % U64;
    if g != c {
      assert Time(occ'[Group(c) := t], Group(g)) == Time(occ', Group(g));
    }
  }

  lemma AddOne(cs: Conts, occ: Times, occ': Times, home: nat, c: nat, d: int)
    requires AddedUpTo(cs, occ, occ', home, c, d) && c in cs && c != TOP && cs[c].parent < c && Inside(cs, home, c)
    ensures AddedUpTo(cs, occ, occ'[Group(c) := (Time(occ', Group(c)) + d) % U64], home, cs[c].parent, d)
  {
    var occ2 := occ'[Group(c) := (Time(occ', Group(c)) + d) % U64];
    forall g: nat | g in cs && g != TOP
      ensures AddedAt(cs, occ, occ2, home, cs[c].parent, d, g)
    {
      AddOneAt(cs, occ, occ', home, c, d, g);
    }
  }

  lemma ModAdd(a: int, d: int)
    ensures (a % U64 + d) % U64 == (a + d) % U64
  {
    var q := a / U64;
    assert a + d == a % U64 + d + U64 * q;
    ModMultiple(a % U64 + d, q);
  }

  lemma ModMultiple(a: int, q: int)
    ensures (a + U64 * q) % U64 == a % U64
  {
  }

  lemma ChargedPlus(cs: Conts, log: seq<Charge>, p: nat, home: nat, d: int, g: nat)
    ensures Charged(cs, log + [Charge(p, home, d)], g) == Charged(cs, log, g) + if Inside(cs, home, g) then d else 0
    ensures ChargedTo(log + [Charge(p, home, d)], g) == ChargedTo(log, g) + if g == p then d else 0
  {
    assert (log + [Charge(p, home, d)])[..|log|] == log;
  }

  /** A charge that has been added to the process and has reached the root container is recorded. */
  lemma ChargeDone(cs: Conts, occ: Times, occ1: Times, occ': Times, log: seq<Charge>, p: nat, home: nat, d: int)
    requires TimesOk(cs, occ, log) && home in cs && AddedUpTo(cs, occ1, occ', home, TOP, d)
    requires occ1 == occ[Task(p) := (Time(occ, Task(p)) + d) % U64]
    requires forall q: nat :: Time(occ', Task(q)) == Time(occ1, Task(q))
    ensures TimesOk(cs, occ', log + [Charge(p, home, d)])
  {
    var log' := log + [Charge(p, home, d)];
    forall q: nat
      ensures Time(occ', Task(q)) == ChargedTo(log', q) % U64
    {
      ChargedPlus(cs, log, p, home, d, q);
      ModAdd(ChargedTo(log, q), d);
    }
    forall g: nat | g in cs && g != TOP
      ensures Time(occ', Group(g)) == Charged(cs, log', g) % U64
    {
      assert AddedAt(cs, occ1, occ', home, TOP, d, g);
      assert Time(occ1, Group(g)) == Time(occ, Group(g));
      ChargedPlus(cs, log, p, home, d, g);
      ModAdd(Charged(cs, log, g), d);
    }
  }

  // ---------------------------------------------------------------- when a process was switched to

  datatype Switched = Switched(p: nat, time: nat)

  /** When process `p` was last switched to, 0 if never. */
  ghost function LastSwitch(history: seq<Switched>, p: nat): nat {
    if history == [] then 0
    else
      var last := history[|history| - 1];
      if last.p == p then last.time else LastSwitch(history[..|history| - 1], p)
  }

  function StartOf(start: map<nat, nat>, p: nat): nat {
    if p in start then start[p] else 0
  }

  ghost predicate StartsOk(start: map<nat, nat>, history: seq<Switched>) {
    forall p: nat :: StartOf(start, p) == LastSwitch(history, p)
  }

  lemma SwitchStarts(start: map<nat, nat>, history: seq<Switched>, p: nat, time: nat)
    requires StartsOk(start, history)
    ensures StartsOk(start[p := time], history + [Switched(p, time)])
  {
    var h := history + [Switched(p, time)];
    assert h[..|h| - 1] == history;
    forall q: nat
      ensures StartOf(start[p := time], q) == LastSwitch(h, q)
    {
      assert StartOf(start, q) == LastSwitch(history, q);
    }
  }

  // ---------------------------------------------------------------- what the invariants give

  /** A process is queued, running or neither as its state says, and in one place at most. */
  lemma StateTellsPlace(ps: Procs, cs: Conts, cpus: seq<Cpu>, p: nat)
    requires QueuesOk(ps, cs) && CpusOk(ps, cpus) && p in ps && !ps[p].idle
    ensures ps[p].home in cs && NoDup(cs[ps[p].home].queue)
    ensures ps[p].state == Runnable <==> Task(p) in cs[ps[p].home].queue
    ensures forall c :: c in cs && c != ps[p].home ==> Task(p) !in cs[c].queue
    ensures ps[p].state == Running <==> Current(cpus, p)
    ensures forall k, l :: 0 <= k < |cpus| && 0 <= l < |cpus| && cpus[k].cur == p && cpus[l].cur == p ==> k == l
  {
    HomeFacts(ps, cs, p);
    QueueFacts(ps, cs, ps[p].home);
    forall c | c in cs && c != ps[p].home
      ensures Task(p) !in cs[c].queue
    {
      QueueFacts(ps, cs, c);
    }
  }
}
