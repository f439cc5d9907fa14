/** The scheduler's operations, each one critical section under its lock. */
module Scheduler {
  import opened Common
  import opened SchedModel

  /** Whether a process is queued in the container or below it. */
  method NotEmpty(cs: Conts, top: nat, c: nat, ghost ps: Procs) returns (busy: bool)
    requires QueuesOk(ps, cs) && c in cs && forall g :: g in cs ==> g < top
    ensures busy <==> NonEmpty(cs, top, c)
    decreases top - c
  {
    QueueFacts(ps, cs, c);
    var q, i := cs[c].queue, 0;
    while i < |q|
      invariant 0 <= i <= |q|
      invariant forall j :: 0 <= j < i ==> !Busy(cs, top, c, q[j])
    {
      var b := true;
      if q[i].Group? {
        assert Group(q[i].g) in q;
        b := NotEmpty(cs, top, q[i].g, ps);
      }
      if b {
        assert q[i] in cs[c].queue && Busy(cs, top, c, q[i]);
        return true;
      }
      i := i + 1;
    }
    busy := false;
  }

  /** The entry to follow. */
  method Choose(cs: Conts, top: nat, occ: Times, c: nat, ghost ps: Procs) returns (best: Option<Ent>)
    requires QueuesOk(ps, cs) && c in cs && forall g :: g in cs ==> g < top
    ensures best == Chosen(cs, top, occ, c)
    ensures best.None? <==> !NonEmpty(cs, top, c)
    ensures best.Some? ==> best.value in cs[c].queue && Busy(cs, top, c, best.value)
    ensures best.Some? && Unmarked(cs, top, occ, c) ==>
              forall f :: f in cs[c].queue && Busy(cs, top, c, f) ==>
                  Narrow(Time(occ, best.value)) <= Narrow(Time(occ, f))
    ensures best.Some? && OneSide(cs, top, occ, c) ==> Best(cs, top, occ, c, best.value)
    ensures best.Some? && Clear(occ) ==> (Best(cs, top, occ, c, best.value) <==> OneSide(cs, top, occ, c))
  {
    QueueFacts(ps, cs, c);
    best := None;
    var q, i, least := cs[c].queue, 0, -1;
    while i < |q|
      invariant 0 <= i <= |q| && Search(cs, top, occ, c, i) == Found(least, best)
    {
      var skip := false;
      if q[i].Group? {
        assert Group(q[i].g) in q;
        var b := NotEmpty(cs, top, q[i].g, ps);
        skip := !b;
      }
      if !skip {
        var t := Narrow(Time(occ, q[i]));
        if least == -1 || t < least {
          least := t;
          best := Some(q[i]);
        }
      }
      i := i + 1;
    }
    ChosenOk(cs, top, occ, c);
    if Clear(occ) {
      ClearIsFine(cs, top, occ, c);
    }
  }

  /** Two least paths from `c` to the same process are one. */
  lemma PathsAgree(ps: Procs, cs: Conts, top: nat, occ: Times, c: nat, g: nat, p: nat)
    requires QueuesOk(ps, cs) && LeastPath(cs, top, occ, c, p) && Group(g) in cs[c].queue && c < g < top &&
             Reach(cs, top, g, p)
    ensures Best(cs, top, occ, c, Group(g)) && LeastPath(cs, top, occ, g, p)
  {
    QueueFacts(ps, cs, c);
    OneWayDown(ps, cs, top, g, p);
    InsideUp(cs, ps[p].home, g);
    assert Task(p) in cs[c].queue <==> Queued(ps, c, p);
    var g': nat :| Best(cs, top, occ, c, Group(g')) && c < g' < top && LeastPath(cs, top, occ, g', p);
    LeastIsReached(cs, top, occ, g', p);
    OneWayDown(ps, cs, top, g', p);
    OneBranch(cs, ps[p].home, g, g');
  }

  lemma {:induction false} LeastIsReached(cs: Conts, top: nat, occ: Times, c: nat, p: nat)
    requires LeastPath(cs, top, occ, c, p)
    ensures Reach(cs, top, c, p)
    decreases top - c
  {
    if !Best(cs, top, occ, c, Task(p)) {
      var g: nat :| Best(cs, top, occ, c, Group(g)) && c < g < top && LeastPath(cs, top, occ, g, p);
      LeastIsReached(cs, top, occ, g, p);
    }
  }

  lemma TaskPath(ps: Procs, cs: Conts, top: nat, occ: Times, c: nat, p: nat)
    requires QueuesOk(ps, cs) && c in cs && c < top && Task(p) in cs[c].queue
    ensures LeastPath(cs, top, occ, c, p) <==> Best(cs, top, occ, c, Task(p))
  {
    QueueFacts(ps, cs, c);
    assert Task(p) in cs[c].queue <==> Queued(ps, c, p);
    if LeastPath(cs, top, occ, c, p) && !Best(cs, top, occ, c, Task(p)) {
      var g: nat :| Best(cs, top, occ, c, Group(g)) && c < g < top && LeastPath(cs, top, occ, g, p);
      LeastIsReached(cs, top, occ, g, p);
      OneWayDown(ps, cs, top, g, p);
      InsideUp(cs, ps[p].home, g);
    }
  }

  /**
   Follow the entries down to a process. It is found by a least entry at each level if the times lie on
   one side at each; and, for times below 2^32 - 1, only if they do.
   */
  method Traverse(cs: Conts, top: nat, occ: Times, c: nat, ghost ps: Procs) returns (r: Option<nat>)
    requires QueuesOk(ps, cs) && c in cs && forall g :: g in cs ==> g < top
    ensures r.None? <==> !NonEmpty(cs, top, c)
    ensures r == Followed(cs, top, occ, c)
    ensures r.Some? ==> Reach(cs, top, c, r.value)
    ensures r.Some? && OneSidePath(cs, top, occ, c) ==> LeastPath(cs, top, occ, c, r.value)
    ensures r.Some? && Clear(occ) ==> (LeastPath(cs, top, occ, c, r.value) <==> OneSidePath(cs, top, occ, c))
    decreases top - c
  {
    var best := Choose(cs, top, occ, c, ps);
    match best {
      case None =>
        r := None;
      case Some(Task(p)) =>
        r := Some(p);
        TaskPath(ps, cs, top, occ, c, p);
      case Some(Group(g)) =>
        r := Traverse(cs, top, occ, g, ps);
        assert Group(g) in cs[c].queue && c < g < top;
        if LeastPath(cs, top, occ, c, r.value) {
          PathsAgree(ps, cs, top, occ, c, g, r.value);
        }
    }
  }

  function IdleProcs(n: nat): (ps: Procs)
    ensures forall p :: p in ps <==> 0 <= p < n
    ensures forall p :: p in ps ==> ps[p] == Proc(Running, TOP, true, false)
  {
    if n == 0 then map[] else IdleProcs(n - 1)[n - 1 := Proc(Running, TOP, true, false)]
  }

  function IdleCpus(n: nat): (cpus: seq<Cpu>)
    ensures |cpus| == n && forall k :: 0 <= k < n ==> cpus[k] == Cpu(k, k)
  {
    if n == 0 then [] else IdleCpus(n - 1) + [Cpu(n - 1, n - 1)]
  }

  /** The time since `start`, as an `int` takes it from 64-bit clocks. */
  function Elapsed(start: nat, now: nat): int {
    Narrow((now - start) % U64)
  }

  /** It is the time `d` that has passed, also when the clock has wrapped, exactly if that is less than 2^31. */
  lemma ElapsedIs(start: nat, d: nat)
    requires start < U64
    ensures Elapsed(start, (start + d) % U64) == d <==> d < 0x8000_0000
  {
    if d < 0x8000_0000 {
      var now := (start + d) % U64;
      assert now == if start + d < U64 then start + d else start + d - U64;
      assert (now - start) % U64 == d;
    }
  }

  /** What process `p` is charged when it gives way: the time since it was last switched to. Idle processes are not. */
  ghost function Due(ps: Procs, history: seq<Switched>, p: nat, now: nat): seq<Charge>
    requires p in ps
  {
    if ps[p].idle then [] else [Charge(p, ps[p].home, Elapsed(LastSwitch(history, p), now))]
  }

  /** The queues the scheduler chooses from: the process that gives way stands first in its own if it can go on. */
  ghost function Offered(ps: Procs, cs: Conts, p: nat, st: PState): Conts
    requires p in ps && (!ps[p].idle ==> ps[p].home in cs)
  {
    if st != Runnable || ps[p].idle then cs
    else var h := ps[p].home; cs[h := Cont(cs[h].parent, [Task(p)] + cs[h].queue)]
  }

  /** Process `next` was chosen from the queues `cs` and is on none of `cs'`. */
  ghost predicate ChosenFrom(cs: Conts, cs': Conts, top: nat, occ: Times, home: nat, next: nat) {
    && Followed(cs, top, occ, TOP) == Some(next) && Reach(cs, top, TOP, next)
    && (OneSidePath(cs, top, occ, TOP) ==> LeastPath(cs, top, occ, TOP, next))
    && (Clear(occ) ==> (LeastPath(cs, top, occ, TOP, next) <==> OneSidePath(cs, top, occ, TOP)))
    && home in cs && Task(next) in cs[home].queue
    && cs' == cs[home := Cont(cs[home].parent, Without(cs[home].queue, Task(next)))]
  }

  ghost predicate NextFrom(cs: Conts, cs': Conts, top: nat, occ: Times, idle: nat, home: nat, next: nat, panic: bool) {
    && (panic ==> next == idle)
    && (!panic ==> (next == idle <==> !NonEmpty(cs, top, TOP)))
    && (next == idle ==> cs' == cs)
    && (next != idle ==> ChosenFrom(cs, cs', top, occ, home, next))
  }

  /**
   Who runs next, of the queues `cs`: in a panic the idle process; else the idle process exactly if none is
   queued, and otherwise the one chosen, which leaves its queue. (`Unfold` keeps this closed till it is needed.)
   */
  ghost predicate RunsNext(cs: Conts, cs': Conts, top: nat, occ: Times, idle: nat, home: nat, next: nat, panic: bool) {
    forall n: nat :: Unfold(cs, n) ==> NextFrom(cs, cs', top, occ, idle, home, next, panic)
  }

  class Sched {
    var ps: Procs
    var cs: Conts
    var cpus: seq<Cpu>
    var occ: Times
    var start: map<nat, nat>
    var top: nat
    ghost var log: seq<Charge>
    ghost var history: seq<Switched>

    ghost predicate Valid()
      reads this
    {
      && QueuesOk(ps, cs) && CpusOk(ps, cpus) && TimesOk(cs, occ, log) && StartsOk(start, history)
      && (forall g :: g in cs ==> g < top) && forall g: nat :: g !in cs ==> Group(g) !in occ
    }

    /** One processor an idle process, which runs. */
    constructor (n: nat)
      ensures Valid() && |cpus| == n && cs.Keys == {TOP} && log == [] && history == []
      ensures forall p :: p in ps ==> ps[p].idle
    {
      ps := IdleProcs(n);
      cs := map[TOP := Cont(TOP, [])];
      cpus := IdleCpus(n);
      occ, start, top, log, history := map[], map[], 1, [], [];
      new;
      FreshStart(ps, cs, cpus, n);
    }

    method Spawn(p: nat, home: nat, killed: bool)
      requires Valid() && p !in ps && home in cs
      modifies `ps
      ensures Valid() && ps == old(ps)[p := Proc(Unused, home, false, killed)]
    {
      CreateOk(ps, cs, p, home, killed);
      NewProcStill(ps, cpus, p, Proc(Unused, home, false, killed));
      ps := ps[p := Proc(Unused, home, false, killed)];
    }

    /** A container nested in `parent`, empty and not in any queue. */
    method Nest(parent: nat) returns (g: nat)
      requires Valid() && parent in cs
      modifies `cs, `top
      ensures Valid() && g !in old(cs) && cs == old(cs)[g := Cont(parent, [])]
    {
      g := top;
      ghost var cs0 := cs;
      NestOk(ps, cs, parent, g);
      cs := cs[g := Cont(parent, [])];
      top := top + 1;
      TimesSame(ps, cs0, cs, occ, log);
    }

    method ActivateGroup(g: nat)
      requires Valid() && g in cs && g != TOP && cs[g].parent in cs && Group(g) !in cs[cs[g].parent].queue
      modifies `cs
      ensures Valid()
      ensures var h := old(cs)[g].parent; cs == old(cs)[h := Cont(old(cs)[h].parent, [Group(g)] + old(cs)[h].queue)]
    {
      ghost var cs0 := cs;
      LinkOk(ps, cs, g);
      var parent := cs[g].parent;
      cs := Enqueue(cs, parent, Group(g));
      TimesSame(ps, cs0, cs, occ, log);
    }

    /** Make a process runnable, if it is asleep in a way that allows it. */
    method Activate(p: nat, onalert: bool) returns (done: bool)
      requires Valid() && p in ps && !ps[p].idle
      modifies `ps, `cs
      ensures Valid()
      ensures done <==> old(ps)[p].state in {Sleeping, Unused} || (old(ps)[p].state == DeepSleeping && !onalert)
      ensures ps == if done then WithState(old(ps), p, Runnable) else old(ps)
      ensures !done ==> cs == old(cs)
      ensures done ==> var h := old(ps)[p].home;
                       h in old(cs) && cs == old(cs)[h := Cont(old(cs)[h].parent, [Task(p)] + old(cs)[h].queue)]
    {
      var st := ps[p].state;
      if st == Running || st == Runnable {
        return false;
      }
      if st == Sleeping || st == Unused || (st == DeepSleeping && !onalert) {
        HomeFacts(ps, cs, p);
        EnqueueOk(ps, cs, p);
        StillOk(ps, cpus, p, Runnable);
        ghost var ps0, cs0 := ps, cs;
        var home := ps[p].home;
        ps := WithState(ps, p, Runnable);
        cs := Enqueue(cs, home, Task(p));
        TimesSame(ps0, cs0, cs, occ, log);
        return true;
      }
      return false;
    }

    /** Add `d` to the account of every container from `home` up, the root container excepted. */
    method ChargeUp(home: nat, d: int)
      requires QueuesOk(ps, cs) && home in cs && forall g: nat :: g !in cs ==> Group(g) !in occ
      modifies `occ
      ensures AddedUpTo(cs, old(occ), occ, home, TOP, d) && forall g: nat :: g !in cs ==> Group(g) !in occ
      ensures forall p: nat :: Time(occ, Task(p)) == Time(old(occ), Task(p))
    {
      var c := home;
      AddNone(cs, occ, occ, home, d);
      while c != TOP
        invariant c in cs && Inside(cs, home, c) && AddedUpTo(cs, old(occ), occ, home, c, d)
        invariant forall g: nat :: g !in cs ==> Group(g) !in occ
        invariant forall p: nat :: Time(occ, Task(p)) == Time(old(occ), Task(p))
        decreases c
      {
        QueueFacts(ps, cs, c);
        AddOne(cs, old(occ), occ, home, c, d);
        InsideStep(cs, home, c);
        occ := occ[Group(c) := (Time(occ, Group(c)) + d) % U64];
        c := cs[c].parent;
      }
    }

    method ChargeTask(p: nat, d: int)
      modifies `occ
      ensures occ == old(occ)[Task(p) := (Time(old(occ), Task(p)) + d) % U64]
    {
      occ := occ[Task(p) := (Time(occ, Task(p)) + d) % U64];
    }

    /** Add the time since it was switched to, to a process's own account and to those of the containers it is in. */
    method ChargeTime(p: nat, now: nat)
      requires TimesOk(cs, occ, log) && QueuesOk(ps, cs) && StartsOk(start, history) && p in ps && !ps[p].idle
      requires forall g: nat :: g !in cs ==> Group(g) !in occ
      modifies `occ, `log
      ensures TimesOk(cs, occ, log) && (forall g: nat :: g !in cs ==> Group(g) !in occ)
      ensures log == old(log) + Due(ps, history, p, now)
    {
      var d, home := Elapsed(StartOf(start, p), now), ps[p].home;
      assert StartOf(start, p) == LastSwitch(history, p);
      HomeFacts(ps, cs, p);
      ghost var occ0 := occ;
      ChargeTask(p, d);
      ghost var occ1 := occ;
      ChargeUp(home, d);
      ChargeDone(cs, occ0, occ1, occ, log, p, home, d);
      log := log + [Charge(p, home, d)];
    }

    /** The current process of processor `k` gives it up, and is queued if it can go on later. */
    method UpdateThis(k: nat, st: PState, now: nat)
      requires Valid() && k < |cpus| && st != Running && st != Unused && (ps[cpus[k].cur].idle ==> st == Runnable)
      modifies `ps, `cs, `occ, `log
      ensures QueuesOk(ps, cs) && TimesOk(cs, occ, log) && (forall g :: g in cs ==> g < top)
      ensures forall g: nat :: g !in cs ==> Group(g) !in occ
      ensures ps == WithState(old(ps), cpus[k].cur, st)
      ensures var p := old(ps)[cpus[k].cur];
              (!p.idle ==> p.home in old(cs)) && cs == Offered(old(ps), old(cs), cpus[k].cur, st)
      ensures log == old(log) + Due(old(ps), history, cpus[k].cur, now)
    {
      var p := cpus[k].cur;
      assert Current(cpus, p);
      ghost var ps0, cs0 := ps, cs;
      if !ps[p].idle {
        HomeFacts(ps, cs, p);
      }
      if st == Runnable && p != cpus[k].idle {
        EnqueueOk(ps, cs, p);
        var home := ps[p].home;
        cs := Enqueue(cs, home, Task(p));
      } else {
        StateOk(ps, cs, p, st);
      }
      ps := WithState(ps, p, st);
      TimesSame(ps0, cs0, cs, occ, log);
      if p != cpus[k].idle {
        ChargeTime(p, now);
      }
    }

    /** Who runs next on processor `k`: taken off its queue, or else the idle process. */
    method PickNext(k: nat, panic: bool) returns (next: nat)
      requires QueuesOk(ps, cs) && TimesOk(cs, occ, log) && k < |cpus| && cpus[k].idle in ps
      requires (forall g :: g in cs ==> g < top) && ps[cpus[k].idle].idle && ps[cpus[k].idle].state == Runnable
      modifies `cs
      ensures next in ps && ps[next].state == Runnable && (ps[next].idle ==> next == cpus[k].idle)
      ensures QueuesOk(WithState(ps, next, Running), cs) && TimesOk(cs, occ, log) && cs.Keys == old(cs).Keys
      ensures RunsNext(old(cs), cs, top, occ, cpus[k].idle, ps[next].home, next, panic)
    {
      next := cpus[k].idle;
      if panic {
        StateOk(ps, cs, next, Running);
        return;
      }
      var r := Traverse(cs, top, occ, TOP, ps);
      if r.Some? {
        next := r.value;
        ReachedIsQueued(ps, cs, top, TOP, next);
        DequeueOk(ps, cs, next, Running);
        var home := ps[next].home;
        QueueFacts(ps, cs, home);
        ghost var cs0 := cs;
        cs := Dequeue(cs, home, Task(next));
        TimesSame(ps, cs0, cs, occ, log);
      } else {
        StateOk(ps, cs, next, Running);
      }
    }

    /**
     The current process of processor `k` gives way. Without a panic the idle process runs next exactly if
     no process is queued, and else the one chosen from the queues; that one is queued no more.
     */
    method Replace(k: nat, st: PState, now: nat, later: nat, panic: bool)
      requires Valid() && k < |cpus| && st != Running && st != Unused && (ps[cpus[k].cur].idle ==> st == Runnable)
      modifies this
      ensures Valid() && |cpus| == |old(cpus)| && cpus == old(cpus)[k := old(cpus)[k].(cur := cpus[k].cur)]
      ensures top == old(top) && cpus[k].cur in old(ps)
      ensures ps == WithState(WithState(old(ps), old(cpus)[k].cur, st), cpus[k].cur, Running)
      ensures var p := old(cpus)[k].cur; !old(ps)[p].idle ==> old(ps)[p].home in old(cs)
      ensures var offered, next := Offered(old(ps), old(cs), old(cpus)[k].cur, st), cpus[k].cur;
              RunsNext(offered, cs, top, occ, cpus[k].idle, ps[next].home, next, panic)
      ensures history == old(history) + [Switched(cpus[k].cur, later)]
      ensures log == old(log) + Due(old(ps), old(history), old(cpus)[k].cur, now)
    {
      ghost var ps0 := ps;
      UpdateThis(k, st, now);
      IdleWaits(ps0, cpus, k, st);
      var next := PickNext(k, panic);
      assert ps[next].state == Runnable;
      SwitchOk(ps0, cpus, k, st, next);
      StartNext(k, next, later);
    }

    /** Processor `k` runs `next` from now on. */
    method StartNext(k: nat, next: nat, later: nat)
      requires k < |cpus| && next in ps && StartsOk(start, history)
      modifies `ps, `cpus, `start, `history
      ensures StartsOk(start, history) && history == old(history) + [Switched(next, later)]
      ensures ps == WithState(old(ps), next, Running) && cpus == old(cpus)[k := old(cpus)[k].(cur := next)]
    {
      SwitchStarts(start, history, next, later);
      cpus := cpus[k := cpus[k].(cur := next)];
      start := start[next := later];
      history := history + [Switched(next, later)];
      ps := WithState(ps, next, Running);
    }

    /**
     Switch processor `k` to another process. A killed process that is not exiting keeps it. The clock is
     read twice: for the charge, and for the start of the next process.
     */
    method Switch(k: nat, st: PState, now: nat, later: nat, panic: bool) returns (switched: bool)
      requires Valid() && k < |cpus| && st != Running && st != Unused && (ps[cpus[k].cur].idle ==> st == Runnable)
      modifies this
      ensures Valid() && top == old(top)
      ensures switched <==> !old(ps)[old(cpus)[k].cur].killed || st == Zombie
      ensures !switched ==>
                ps == old(ps) && cs == old(cs) && cpus == old(cpus) && log == old(log) && history == old(history)
      ensures switched ==> |cpus| == |old(cpus)| && cpus == old(cpus)[k := old(cpus)[k].(cur := cpus[k].cur)]
      ensures switched ==> cpus[k].cur in old(ps)
      ensures switched ==> ps == WithState(WithState(old(ps), old(cpus)[k].cur, st), cpus[k].cur, Running)
      ensures switched ==> var p := old(cpus)[k].cur; !old(ps)[p].idle ==> old(ps)[p].home in old(cs)
      ensures switched ==>
                var offered, next := Offered(old(ps), old(cs), old(cpus)[k].cur, st), cpus[k].cur;
                RunsNext(offered, cs, top, occ, cpus[k].idle, ps[next].home, next, panic)
      ensures switched ==> history == old(history) + [Switched(cpus[k].cur, later)]
      ensures switched ==> log == old(log) + Due(old(ps), old(history), old(cpus)[k].cur, now)
    {
      var p := cpus[k].cur;
      if ps[p].killed && st != Zombie {
        return false;
      }
      assert ps[p].state == Running by {
        assert Current(cpus, p);
      }
      Replace(k, st, now, later, panic);
      switched := true;
    }
  }

  /** The idle process of a processor is runnable whenever its turn may come. */
  lemma IdleWaits(ps: Procs, cpus: seq<Cpu>, k: nat, st: PState)
    requires CpusOk(ps, cpus) && k < |cpus| && (ps[cpus[k].cur].idle ==> st == Runnable)
    ensures var qs := WithState(ps, cpus[k].cur, st); qs[cpus[k].idle].state == Runnable && qs[cpus[k].idle].idle
    ensures forall p :: p in ps && p != cpus[k].cur && ps[p].state == Runnable ==> !Current(cpus, p)
  {
  }

  lemma AddNone(cs: Conts, occ: Times, occ': Times, home: nat, d: int)
    requires forall g: nat :: Time(occ', Group(g)) == Time(occ, Group(g))
    ensures AddedUpTo(cs, occ, occ', home, home, d)
  {
  }

  lemma NewProcStill(ps: Procs, cpus: seq<Cpu>, p: nat, q: Proc)
    requires CpusOk(ps, cpus) && p !in ps && q.state != Running
    ensures CpusOk(ps[p := q], cpus)
  {
  }

  lemma FreshStart(ps: Procs, cs: Conts, cpus: seq<Cpu>, n: nat)
    requires ps == IdleProcs(n)
    requires cs == map[TOP := Cont(TOP, [])] && cpus == IdleCpus(n)
    ensures QueuesOk(ps, cs) && CpusOk(ps, cpus)
  {
    assert QueueOk(ps, cs, TOP);
    forall p | p in ps
      ensures Current(cpus, p)
    {
      assert cpus[p].cur == p;
    }
  }
}
