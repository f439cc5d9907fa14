/** Counting semaphores: the value, the sleepers, and where every token goes. */
module Semaphores {
  import opened Common

  /**
   `sleep` holds the sleeping waits, newest first; `up` those that have been given a token and
   not yet returned. `posted` and `taken` count the tokens put in and handed out.
   */
  datatype Sem = Sem(val: int, sleep: seq<nat>, up: set<nat>, posted: nat, taken: nat)

  datatype Act =
    | Wait(id: nat)     // a wait begins: it takes a token or goes to sleep
    | Resume(id: nat)   // a sleeper runs again, with a token or woken by something else
    | Post
    | Get
    | GetAll
    | PostAll

  function Init(v: nat): Sem {
    Sem(v, [], {}, v, 0)
  }

  function Max(a: int, b: int): int {
    if a < b then b else a
  }

  function Ids(s: seq<nat>): set<nat> {
    set x | x in s
  }

  /** The law: the sleepers are the shortfall, and every token posted is here or was handed out. */
  ghost predicate Law(s: Sem) {
    && |s.sleep| == Max(0, -s.val) && s.posted == s.taken + Max(0, s.val)
    && NoDup(s.sleep) && forall x :: x in s.sleep ==> x !in s.up
  }

  // ---------------------------------------------------------------- steps

  predicate Enabled(s: Sem, a: Act) {
    match a
    case Wait(id) => id !in s.sleep && id !in s.up
    case Resume(id) => id in s.sleep || id in s.up
    case _ => true
  }

  function DoWait(s: Sem, id: nat): Sem {
    if s.val - 1 >= 0 then s.(val := s.val - 1, taken := s.taken + 1)
    else s.(val := s.val - 1, sleep := [id] + s.sleep)
  }

  function DoResume(s: Sem, id: nat): Sem {
    if id in s.up then s.(up := s.up - {id})
    else s.(val := s.val + 1, sleep := Without(s.sleep, id))
  }

  /** A post serves the oldest sleeper, the last in the list. */
  function DoPost(s: Sem): Sem {
    if s.val + 1 <= 0 && s.sleep != [] then
      var n := |s.sleep| - 1;
      s.(val := s.val + 1, sleep := s.sleep[..n], up := s.up + {s.sleep[n]}, posted := s.posted + 1,
        taken := s.taken + 1)
    else s.(val := s.val + 1, posted := s.posted + 1)
  }

  function DoGet(s: Sem): Sem {
    if s.val > 0 then s.(val := s.val - 1, taken := s.taken + 1) else s
  }

  function DoGetAll(s: Sem): Sem {
    if s.val > 0 then s.(val := 0, taken := s.taken + s.val) else s
  }

  /** Everyone asleep is given a token made for the purpose; the one post too many is taken back. */
  function DoPostAll(s: Sem): Sem {
    s.(val := Max(s.val, 0), sleep := [], up := s.up + Ids(s.sleep),
       posted := s.posted + |s.sleep| + 1, taken := s.taken + |s.sleep| + 1)
  }

  function Step(s: Sem, a: Act): Sem {
    match a
    case Wait(id) => DoWait(s, id)
    case Resume(id) => DoResume(s, id)
    case Post => DoPost(s)
    case Get => DoGet(s)
    case GetAll => DoGetAll(s)
    case PostAll => DoPostAll(s)
  }

  lemma StepKeepsLaw(s: Sem, a: Act)
    requires Law(s) && Enabled(s, a)
    ensures Law(Step(s, a))
  {
    match a {
      case Wait(id) =>
        assert s.val - 1 < 0 ==> forall x :: x in [id] + s.sleep <==> x == id || x in s.sleep;
      case Resume(id) =>
        WithoutOk(s.sleep, id);
      case Post =>
        if s.sleep != [] {
          var n := |s.sleep| - 1;
          assert forall x :: x in s.sleep[..n] ==> x in s.sleep;
          assert s.sleep[n] !in s.sleep[..n];
        }
      case Get =>
      case GetAll =>
      case PostAll =>
    }
  }

  predicate Runs(s: Sem, acts: seq<Act>)
    decreases |acts|
  {
    acts == [] || (Enabled(s, acts[0]) && Runs(Step(s, acts[0]), acts[1..]))
  }

  function Run(s: Sem, acts: seq<Act>): Sem
    decreases |acts|
  {
    if acts == [] then s else Run(Step(s, acts[0]), acts[1..])
  }

  /** The law holds after every run, so no token is lost and none is made up. */
  lemma {:induction false} RunKeepsLaw(s: Sem, acts: seq<Act>)
    requires Law(s) && Runs(s, acts)
    ensures Law(Run(s, acts))
    decreases |acts|
  {
    if acts != [] {
      StepKeepsLaw(s, acts[0]);
      RunKeepsLaw(Step(s, acts[0]), acts[1..]);
    }
  }

  // ---------------------------------------------------------------- first come, first served

  /** Posts serve in order of arrival: of two sleepers, the newer has a token only if the older has. */
  lemma {:induction false} OldestFirst(s: Sem, acts: seq<Act>, older: nat, newer: nat, i: nat, j: nat)
    requires Law(s) && Runs(s, acts) && i < j < |s.sleep| && s.sleep[i] == newer && s.sleep[j] == older
    requires Resume(newer) !in acts && Resume(older) !in acts
    ensures older in Run(s, acts).sleep ==> newer in Run(s, acts).sleep
    decreases |acts|
  {
    if acts != [] {
      var t := Step(s, acts[0]);
      StepKeepsLaw(s, acts[0]);
      if older in t.sleep {
        var k, l := StillBehind(s, acts[0], i, j);
        OldestFirst(t, acts[1..], older, newer, k, l);
      } else {
        LeftWithToken(s, acts[0], older);
        GoneStaysGone(t, acts[1..], older);
      }
    }
  }

  /** Nobody but the sleeper itself leaves the list without being given a token. */
  lemma LeftWithToken(s: Sem, a: Act, id: nat)
    requires Law(s) && Enabled(s, a) && id in s.sleep && a != Resume(id) && id !in Step(s, a).sleep
    ensures id in Step(s, a).up
  {
    if a.Resume? {
      WithoutOk(s.sleep, a.id);
    } else if a.Post? && s.val + 1 <= 0 {
      var n := |s.sleep| - 1;
      assert s.sleep == s.sleep[..n] + [s.sleep[n]];
    }
  }

  lemma StillBehind(s: Sem, a: Act, i: nat, j: nat) returns (k: nat, l: nat)
    requires Law(s) && Enabled(s, a) && i < j < |s.sleep|
    requires a != Resume(s.sleep[i]) && s.sleep[j] in Step(s, a).sleep
    ensures var t := Step(s, a); k < l < |t.sleep| && t.sleep[k] == s.sleep[i] && t.sleep[l] == s.sleep[j]
  {
    k, l := i, j;
    if a.Wait? {
      if s.val - 1 < 0 {
        k, l := i + 1, j + 1;
      }
    } else if a.Resume? {
      if a.id !in s.up {
        WithoutOk(s.sleep, a.id);
        k, l := WithoutOrder(s.sleep, a.id, i, j);
      }
    } else if a.Post? {
      if s.val + 1 <= 0 {
        assert s.sleep[j] in s.sleep[..|s.sleep| - 1];
      }
    }
  }

  lemma {:induction false} WithoutOrder(s: seq<nat>, x: nat, i: nat, j: nat) returns (k: nat, l: nat)
    requires NoDup(s) && i < j < |s| && s[i] != x && s[j] != x
    ensures var r := Without(s, x); k < l < |r| && r[k] == s[i] && r[l] == s[j]
  {
    if s[0] == x {
      k, l := i - 1, j - 1;
    } else if i == 0 {
      WithoutOk(s[1..], x);
      assert s[j] == s[1..][j - 1];
      assert s[j] in Without(s[1..], x);
      var m :| 0 <= m < |Without(s[1..], x)| && Without(s[1..], x)[m] == s[j];
      k, l := 0, m + 1;
    } else {
      k, l := WithoutOrder(s[1..], x, i - 1, j - 1);
      k, l := k + 1, l + 1;
    }
  }

  /** A wait that has a token does not sleep again before it has returned. */
  lemma {:induction false} GoneStaysGone(s: Sem, acts: seq<Act>, id: nat)
    requires Law(s) && Runs(s, acts) && id !in s.sleep && id in s.up && Resume(id) !in acts
    ensures id !in Run(s, acts).sleep
    decreases |acts|
  {
    if acts != [] {
      StepKeepsLaw(s, acts[0]);
      assert acts[0] != Resume(id);
      GoneStaysGone(Step(s, acts[0]), acts[1..], id);
    }
  }

  // ---------------------------------------------------------------- waking everyone

  /** `t` is `s` after its `k` oldest sleepers have been served. */
  ghost predicate Waking(s: Sem, t: Sem, k: nat) {
    && k <= |s.sleep|
    && t == s.(val := s.val + k, sleep := s.sleep[..|s.sleep| - k], up := s.up + Ids(s.sleep[|s.sleep| - k..]),
               posted := s.posted + k, taken := s.taken + k)
  }

  /** One more post and one more try: either one more sleeper is served, or all were and the rest is undone. */
  lemma WakeOne(s: Sem, k: nat)
    requires Law(s) && k <= |s.sleep|
    ensures var t := s.(val := s.val + k, sleep := s.sleep[..|s.sleep| - k],
                        up := s.up + Ids(s.sleep[|s.sleep| - k..]), posted := s.posted + k, taken := s.taken + k);
            var u := DoGet(DoPost(t));
            if k < |s.sleep| then t.val + 1 <= 0 && Waking(s, u, k + 1) else t.val + 1 > 0 && u == DoPostAll(s)
  {
    var m := |s.sleep| - k;
    if k < |s.sleep| {
      assert s.sleep[m - 1..] == [s.sleep[m - 1]] + s.sleep[m..];
      assert Ids(s.sleep[m - 1..]) == Ids(s.sleep[m..]) + {s.sleep[m - 1]};
      assert s.sleep[..m][..m - 1] == s.sleep[..m - 1];
    } else {
      assert s.sleep[m..] == s.sleep;
    }
  }

  // ---------------------------------------------------------------- the operations

  class Semaphore {
    var val: int
    var sleep: seq<nat>
    var up: set<nat>
    ghost var posted: nat
    ghost var taken: nat

    ghost function Now(): Sem
      reads this
    {
      Sem(val, sleep, up, posted, taken)
    }

    constructor (v: nat)
      ensures Law(Now()) && Now() == Init(v)
    {
      val, sleep, up, posted, taken := v, [], {}, v, 0;
    }

    /** The first half of a wait: true if it has a token, false if the caller must sleep. */
    method BeginWait(id: nat) returns (now: bool)
      requires Law(Now()) && Enabled(Now(), Wait(id))
      modifies this
      ensures Law(Now()) && Now() == Step(old(Now()), Wait(id)) && (now <==> old(val) > 0)
    {
      StepKeepsLaw(Now(), Wait(id));
      val := val - 1;
      if val >= 0 {
        taken := taken + 1;
        return true;
      }
      sleep := [id] + sleep;
      return false;
    }

    /** The second half, when the caller runs again: true if a post woke it. */
    method EndWait(id: nat) returns (got: bool)
      requires Law(Now()) && Enabled(Now(), Resume(id))
      modifies this
      ensures Law(Now()) && Now() == Step(old(Now()), Resume(id)) && (got <==> id in old(up))
    {
      StepKeepsLaw(Now(), Resume(id));
      got := id in up;
      if !got {
        val := val + 1;
        assert val <= 0;
        sleep := Without(sleep, id);
      }
      up := up - {id};
    }

    method PostOne()
      requires Law(Now())
      modifies this
      ensures Law(Now()) && Now() == Step(old(Now()), Post)
    {
      StepKeepsLaw(Now(), Post);
      val := val + 1;
      posted := posted + 1;
      if val <= 0 {
        assert sleep != [];
        var n := |sleep| - 1;
        sleep, up, taken := sleep[..n], up + {sleep[n]}, taken + 1;
      }
    }

    method TryGet() returns (ok: bool)
      requires Law(Now())
      modifies this
      ensures Law(Now()) && Now() == Step(old(Now()), Get) && (ok <==> old(val) > 0)
    {
      StepKeepsLaw(Now(), Get);
      ok := false;
      if val > 0 {
        val, taken := val - 1, taken + 1;
        ok := true;
      }
    }

    method TakeAll() returns (n: nat)
      requires Law(Now())
      modifies this
      ensures Law(Now()) && Now() == Step(old(Now()), GetAll) && n == Max(0, old(val))
    {
      StepKeepsLaw(Now(), GetAll);
      n := 0;
      if val > 0 {
        n := val;
        val, taken := 0, taken + n;
      }
    }

    /** Wake every sleeper, and count them. */
    method WakeAll() returns (n: int)
      requires Law(Now())
      modifies this
      ensures Law(Now()) && Now() == Step(old(Now()), PostAll) && n == |old(sleep)|
    {
      n := -1;
      var done := false;
      ghost var s := Now();
      StepKeepsLaw(s, PostAll);
      while !done
        invariant Law(Now()) && n + 1 >= 0
        invariant done ==> Now() == Step(s, PostAll) && n == |s.sleep|
        invariant !done ==> n < |s.sleep| && Waking(s, Now(), n + 1)
        decreases if done then 0 else 1, Max(0, 1 - val)
      {
        ghost var k := n + 1;
        PostOne();
        n := n + 1;
        done := TryGet();
        WakeOne(s, k);
      }
    }
  }
}
