/** The process tree and the counting of exited children: exit, reparenting and wait. */
module ProcessTree {
  import opened Common
  import opened Semaphores

  /** The first process; it is its own parent and stands on no list of children. */
  const ROOT: nat := 0

  /** `root` is the root process of the container the process runs in. */
  datatype Proc = Proc(parent: nat, root: nat, children: seq<nat>, zombie: bool, code: int)

  type Procs = map<nat, Proc>

  /** Mentioning `Unfold` opens the invariants below, which most proofs only pass along. */
  ghost predicate Unfold(ps: Procs, n: nat) {
    true
  }

  /** Parents and container roots are alive, and the lists of children are the parent links reversed. */
  ghost predicate TreeOk(ps: Procs) {
    forall n: nat :: Unfold(ps, n) ==> TreeAll(ps)
  }

  ghost predicate TreeAll(ps: Procs) {
    && ROOT in ps && ps[ROOT].parent == ROOT && ps[ROOT].root == ROOT
    && (forall c {:trigger LinksOk(ps, c)} :: c in ps ==> LinksOk(ps, c))
    && (forall p {:trigger ListOk(ps, p)} :: p in ps ==> ListOk(ps, p))
  }

  /** Parent and container root are alive, and a root's container is its own. */
  ghost predicate LinksOk(ps: Procs, c: nat)
    requires c in ps
  {
    Alive(ps, ps[c].parent) && Alive(ps, ps[c].root) && ps[ps[c].root].root == ps[c].root
  }

  /** The list of children is the parent links reversed. */
  ghost predicate ListOk(ps: Procs, p: nat)
    requires p in ps
  {
    NoDup(ps[p].children) && forall c :: c in ps[p].children <==> c in ps && c != ROOT && ps[c].parent == p
  }

  predicate Alive(ps: Procs, p: nat) {
    p in ps && !ps[p].zombie
  }

  /** The exited children of `p` that have not been reaped. */
  ghost function Zombies(ps: Procs, p: nat): set<nat> {
    set c | c in ps && ps[c].parent == p && ps[c].zombie
  }

  /** Tokens that can still be taken, and tokens given to a sleeper that has not run yet. */
  ghost function Tokens(s: Sem): nat {
    Max(0, s.val) + |s.up|
  }

  function Held(hold: set<nat>, p: nat): nat {
    if p in hold then 1 else 0
  }

  /** Only a process itself waits for its children; the dead do not wait. */
  ghost predicate WaitOk(ps: Procs, sem: map<nat, Sem>, hold: set<nat>, p: nat)
    requires p in ps && p in sem
  {
    && Law(sem[p]) && (forall x :: x in sem[p].sleep || x in sem[p].up ==> x == p)
    && (p in hold ==> p !in sem[p].sleep && p !in sem[p].up)
    && (ps[p].zombie ==> sem[p].sleep == [] && sem[p].up == {} && p !in hold)
  }

  ghost predicate WaitsOk(ps: Procs, sem: map<nat, Sem>, hold: set<nat>) {
    && sem.Keys == ps.Keys && hold <= ps.Keys
    && forall n: nat :: Unfold(ps, n) ==> forall p :: p in ps ==> WaitOk(ps, sem, hold, p)
  }

  /** The tokens of a living process are as many as its unreaped exited children. */
  ghost predicate CountOk(ps: Procs, sem: map<nat, Sem>, hold: set<nat>, p: nat)
    requires p in sem
  {
    |Zombies(ps, p)| == Tokens(sem[p]) + Held(hold, p)
  }

  ghost predicate CountsOk(ps: Procs, sem: map<nat, Sem>, hold: set<nat>, but: Option<nat>)
    requires sem.Keys == ps.Keys
  {
    forall p: nat :: Alive(ps, p) && but != Some(p) ==> CountOk(ps, sem, hold, p)
  }

  // ---------------------------------------------------------------- tokens

  lemma PostAddsOne(s: Sem, p: nat)
    requires Law(s) && forall x :: x in s.sleep || x in s.up ==> x == p
    ensures var t := DoPost(s); Law(t) && Tokens(t) == Tokens(s) + 1 && forall x :: x in t.sleep || x in t.up ==> x == p
  {
    StepKeepsLaw(s, Post);
    if s.val + 1 <= 0 {
      var n := |s.sleep| - 1;
      assert s.sleep[n] in s.sleep;
      assert s.sleep[n] !in s.up;
    }
  }

  // ---------------------------------------------------------------- giving a child to another parent

  /** Child `c` of `p` becomes a child of `r`. */
  function Moved(ps: Procs, p: nat, c: nat, r: nat): Procs
    requires p in ps && c in ps && r in ps
  {
    var a := ps[p := ps[p].(children := Without(ps[p].children, c))];
    var b := a[c := a[c].(parent := r)];
    b[r := b[r].(children := [c] + b[r].children)]
  }

  lemma MovedFields(ps: Procs, p: nat, c: nat, r: nat, x: nat)
    requires p in ps && c in ps && r in ps && p != r && x in ps
    ensures var q := Moved(ps, p, c, r)[x];
            && q.root == ps[x].root && q.zombie == ps[x].zombie && q.code == ps[x].code
            && q.parent == (if x == c then r else ps[x].parent)
            && q.children ==
              (if x == p then Without(ps[p].children, c) else if x == r then [c] + ps[r].children else ps[x].children)
  {
  }

  lemma MovedAll(ps: Procs, qs: Procs, p: nat, c: nat, r: nat)
    requires p in ps && c in ps && r in ps && p != r && qs == Moved(ps, p, c, r)
    ensures qs.Keys == ps.Keys
    ensures forall x :: x in ps ==> qs[x].root == ps[x].root && qs[x].zombie == ps[x].zombie && qs[x].code == ps[x].code
    ensures forall x :: x in ps ==> qs[x].parent == if x == c then r else ps[x].parent
  {
    forall x | x in ps
      ensures qs[x].root == ps[x].root && qs[x].zombie == ps[x].zombie && qs[x].code == ps[x].code
      ensures qs[x].parent == if x == c then r else ps[x].parent
    {
      MovedFields(ps, p, c, r, x);
    }
  }

  lemma MovedLists(ps: Procs, qs: Procs, p: nat, c: nat, r: nat, x: nat)
    requires TreeOk(ps) && p in ps && c in ps && r in ps && p != r && c != ROOT && ps[c].parent == p &&
             qs == Moved(ps, p, c, r)
    requires x in ps
    ensures x in qs && ListOk(qs, x)
  {
    assert Unfold(ps, 0);
    assert ListOk(ps, x) && ListOk(ps, p) && ListOk(ps, r);
    MovedAll(ps, qs, p, c, r);
    MovedFields(ps, p, c, r, x);
    if x == p {
      WithoutOk(ps[p].children, c);
    } else if x == r {
      assert c !in ps[r].children;
      assert forall y :: y in [c] + ps[r].children <==> y == c || y in ps[r].children;
    }
  }

  lemma MovedLinks(ps: Procs, qs: Procs, p: nat, c: nat, r: nat, x: nat)
    requires p in ps && c in ps && r in ps && p != r && Alive(ps, r) && qs == Moved(ps, p, c, r)
    requires x in ps && LinksOk(ps, x)
    ensures x in qs && LinksOk(qs, x)
  {
    MovedAll(ps, qs, p, c, r);
  }

  lemma MovedTree(ps: Procs, p: nat, c: nat, r: nat)
    requires TreeOk(ps) && p in ps && c in ps && r in ps && p != r && c != ROOT && ps[c].parent == p && Alive(ps, r)
    ensures TreeOk(Moved(ps, p, c, r))
  {
    assert Unfold(ps, 0);
    var qs := Moved(ps, p, c, r);
    MovedAll(ps, qs, p, c, r);
    forall x | x in qs
      ensures ListOk(qs, x) && LinksOk(qs, x)
    {
      assert LinksOk(ps, x);
      MovedLists(ps, qs, p, c, r, x);
      MovedLinks(ps, qs, p, c, r, x);
    }
  }

  lemma MovedZombies(ps: Procs, p: nat, c: nat, r: nat)
    requires p in ps && c in ps && r in ps && p != r && ps[c].parent == p
    ensures forall x :: x != p && x != r ==> Zombies(Moved(ps, p, c, r), x) == Zombies(ps, x)
    ensures Zombies(Moved(ps, p, c, r), r) == Zombies(ps, r) + (if ps[c].zombie then {c} else {})
    ensures c !in Zombies(ps, r)
  {
    var qs := Moved(ps, p, c, r);
    MovedAll(ps, qs, p, c, r);
    forall x | x != p && x != r
      ensures Zombies(qs, x) == Zombies(ps, x)
    {
    }
  }

  lemma GivenWaits(ps: Procs, sem: map<nat, Sem>, hold: set<nat>, p: nat, c: nat, r: nat, sem': map<nat, Sem>)
    requires WaitsOk(ps, sem, hold)
    requires p in ps && c in ps && r in ps && p != r && Alive(ps, r)
    requires sem' == if ps[c].zombie then sem[r := DoPost(sem[r])] else sem
    ensures WaitsOk(Moved(ps, p, c, r), sem', hold) && Tokens(DoPost(sem[r])) == Tokens(sem[r]) + 1
  {
    assert Unfold(ps, 0);
    var qs := Moved(ps, p, c, r);
    MovedAll(ps, qs, p, c, r);
    assert WaitOk(ps, sem, hold, r);
    PostAddsOne(sem[r], r);
    assert sem'.Keys == qs.Keys;
    forall x | x in qs
      ensures WaitOk(qs, sem', hold, x)
    {
      assert WaitOk(ps, sem, hold, x);
    }
  }

  /** After a child of `p` has been given away, with a token if it has exited. */
  lemma GivenAway(ps: Procs, sem: map<nat, Sem>, hold: set<nat>, p: nat, c: nat, r: nat, sem': map<nat, Sem>)
    requires WaitsOk(ps, sem, hold) && CountsOk(ps, sem, hold, Some(p))
    requires p in ps && c in ps && r in ps && p != r && ps[c].parent == p && Alive(ps, r)
    requires sem' == if ps[c].zombie then sem[r := DoPost(sem[r])] else sem
    ensures WaitsOk(Moved(ps, p, c, r), sem', hold) && CountsOk(Moved(ps, p, c, r), sem', hold, Some(p))
  {
    var qs := Moved(ps, p, c, r);
    GivenWaits(ps, sem, hold, p, c, r, sem');
    MovedAll(ps, qs, p, c, r);
    MovedZombies(ps, p, c, r);
    forall x: nat | Alive(qs, x) && x != p
      ensures CountOk(qs, sem', hold, x)
    {
      assert Alive(ps, x) && CountOk(ps, sem, hold, x);
    }
  }

  // ---------------------------------------------------------------- dying

  function Dead(ps: Procs, p: nat, code: int): Procs
    requires p in ps
  {
    ps[p := ps[p].(zombie := true, code := code)]
  }

  lemma DeadTree(ps: Procs, p: nat, code: int)
    requires TreeOk(ps) && p in ps && ps[p].root != p && ps[p].children == []
    ensures TreeOk(Dead(ps, p, code))
  {
    assert Unfold(ps, 0);
    var qs := Dead(ps, p, code);
    forall x | x in qs
      ensures ListOk(qs, x) && LinksOk(qs, x)
    {
      assert LinksOk(ps, x) && ListOk(ps, x) && ListOk(ps, p);
      assert x in ps[p].children <==> x in ps && x != ROOT && ps[x].parent == p;
    }
  }

  lemma DeadCounts(ps: Procs, sem: map<nat, Sem>, hold: set<nat>, p: nat, code: int)
    requires TreeOk(ps) && WaitsOk(ps, sem, hold) && CountsOk(ps, sem, hold, Some(p))
    requires Alive(ps, p) && ps[p].root != p && ps[p].parent in sem && ps[p].parent != p
    requires sem[p].sleep == [] && sem[p].up == {} && p !in hold
    ensures var qs, sem' := Dead(ps, p, code), sem[ps[p].parent := DoPost(sem[ps[p].parent])];
            WaitsOk(qs, sem', hold) && CountsOk(qs, sem', hold, None)
  {
    assert Unfold(ps, 0);
    var r := ps[p].parent;
    var qs, sem' := Dead(ps, p, code), sem[r := DoPost(sem[r])];
    PostAddsOne(sem[r], r);
    assert sem'.Keys == qs.Keys;
    assert Zombies(qs, r) == Zombies(ps, r) + {p};
    forall x | x in qs
      ensures WaitOk(qs, sem', hold, x)
    {
      assert WaitOk(ps, sem, hold, x);
    }
    forall x: nat | Alive(qs, x)
      ensures CountOk(qs, sem', hold, x)
    {
      assert CountOk(ps, sem, hold, x);
      if x != r {
        assert Zombies(qs, x) == Zombies(ps, x);
      }
    }
  }

  /** What one step of exit needs to know about a child and about the parent. */
  lemma ChildFacts(ps: Procs, p: nat, c: nat)
    requires TreeOk(ps) && p in ps && ps[p].root != p && c in ps[p].children
    ensures c in ps && c != ROOT && ps[c].parent == p && Alive(ps, ps[c].root) && ps[c].root != p
    ensures |Without(ps[p].children, c)| < |ps[p].children|
  {
    assert Unfold(ps, 0);
    assert ListOk(ps, p) && LinksOk(ps, c);
  }

  lemma ChildrenAre(ps: Procs, p: nat)
    requires TreeOk(ps) && p in ps
    ensures forall c :: c in ps[p].children <==> c in ps && c != ROOT && ps[c].parent == p
  {
    assert Unfold(ps, 0);
    assert ListOk(ps, p);
  }

  lemma ParentFacts(ps: Procs, p: nat)
    requires TreeOk(ps) && p in ps && ps[p].root != p && ps[p].children == []
    ensures Alive(ps, ps[p].parent) && ps[p].parent != p && p != ROOT
  {
    assert Unfold(ps, 0);
    assert ListOk(ps, p) && LinksOk(ps, p);
    assert p in ps[p].children <==> p in ps && p != ROOT && ps[p].parent == p;
  }

  // ---------------------------------------------------------------- one tree

  /** The `n`-th ancestor of a process. */
  ghost function Up(ps: Procs, x: nat, n: nat): nat
    decreases n
  {
    if n == 0 || x !in ps then x else Up(ps, ps[x].parent, n - 1)
  }

  ghost predicate Reaches(ps: Procs, x: nat) {
    exists n: nat :: Up(ps, x, n) == ROOT
  }

  /** Parent links lead every process to the first one. */
  ghost predicate Rooted(ps: Procs) {
    forall x :: x in ps ==> Reaches(ps, x)
  }

  /** A process runs in its parent's container, or is the root process of its own. */
  ghost predicate Homed(ps: Procs) {
    forall x {:trigger HomedAt(ps, x)} :: x in ps ==> HomedAt(ps, x)
  }

  ghost predicate HomedAt(ps: Procs, x: nat)
    requires x in ps
  {
    ps[x].root == x || (ps[x].parent in ps && ps[x].root == ps[ps[x].parent].root)
  }

  ghost predicate ParentIn(ps: Procs, x: nat) {
    x in ps ==> ps[x].parent in ps
  }

  ghost predicate LinksThere(ps: Procs) {
    && ROOT in ps && ps[ROOT].parent == ROOT && ps[ROOT].root == ROOT
    && forall x: nat {:trigger ParentIn(ps, x)} :: ParentIn(ps, x)
  }

  lemma {:induction false} UpAdds(ps: Procs, x: nat, m: nat, n: nat)
    ensures Up(ps, x, m + n) == Up(ps, Up(ps, x, m), n)
    decreases m
  {
    if m > 0 && x in ps {
      UpAdds(ps, ps[x].parent, m - 1, n);
    }
  }

  lemma {:induction false} UpRoot(ps: Procs, n: nat)
    requires ROOT in ps && ps[ROOT].parent == ROOT
    ensures Up(ps, ROOT, n) == ROOT
  {
    if n > 0 {
      UpRoot(ps, n - 1);
    }
  }

  /** A process that has the first one as an ancestor is not its own. */
  lemma {:induction false} NoReturn(ps: Procs, x: nat, n: nat, k: nat)
    requires ROOT in ps && ps[ROOT].parent == ROOT
    requires Up(ps, x, n) == ROOT && x != ROOT && 0 < k
    ensures Up(ps, x, k) != x
    decreases n
  {
    if k < n {
      UpAdds(ps, x, k, n - k);
      if Up(ps, x, k) == x {
        NoReturn(ps, x, n - k, k);
      }
    } else {
      UpAdds(ps, x, n, k - n);
      UpRoot(ps, k - n);
    }
  }

  lemma TreeLinks(ps: Procs)
    requires TreeOk(ps)
    ensures LinksThere(ps)
  {
    assert Unfold(ps, 0);
    forall y: nat
      ensures ParentIn(ps, y)
    {
      assert y in ps ==> LinksOk(ps, y);
    }
  }

  /** The root process of a container is an ancestor of all others in it. */
  lemma {:induction false} ContainerAbove(ps: Procs, p: nat, n: nat) returns (k: nat)
    requires LinksThere(ps) && Homed(ps) && p in ps && ps[p].root != p && Up(ps, p, n) == ROOT
    ensures 0 < k && Up(ps, p, k) == ps[p].root
    decreases n
  {
    var q := ps[p].parent;
    assert HomedAt(ps, p) && p != ROOT && n > 0;
    if q == ps[p].root {
      k := 1;
      assert Up(ps, q, 0) == q;
    } else {
      k := ContainerAbove(ps, q, n - 1);
      k := k + 1;
    }
  }

  /** No ancestor of `r` is `p`, of which `r` is an ancestor. */
  lemma NotBelow(ps: Procs, p: nat, r: nat, n: nat, k: nat, m: nat)
    requires LinksThere(ps) && Up(ps, p, n) == ROOT && p != ROOT && 0 < k && Up(ps, p, k) == r
    ensures Up(ps, r, m) != p
  {
    UpAdds(ps, p, k, m);
    NoReturn(ps, p, n, k + m);
  }

  /** Children of `p` have been given to `r`; nothing else has changed hands. */
  ghost predicate GivenTo(ps: Procs, qs: Procs, p: nat, r: nat) {
    && qs.Keys == ps.Keys
    && forall x :: x in ps ==> qs[x].parent == if x != ROOT && ps[x].parent == p then r else ps[x].parent
  }

  /** A chain of ancestors that does not meet `p` is as it was. */
  lemma {:induction false} ChainKept(ps: Procs, qs: Procs, p: nat, r: nat, x: nat, n: nat)
    requires GivenTo(ps, qs, p, r) && LinksThere(ps) && forall m: nat {:trigger Up(ps, x, m)} :: 0 < m ==>
               Up(ps, x, m) != p
    ensures Up(qs, x, n) == Up(ps, x, n)
    decreases n
  {
    if n > 0 && x in ps {
      var y := ps[x].parent;
      assert ParentIn(ps, x) && Up(ps, x, 1) == Up(ps, y, 0) == y;
      forall m: nat | 0 < m
        ensures Up(ps, y, m) != p
      {
        assert Up(ps, x, m + 1) == Up(ps, y, m);
      }
      if x == ROOT && y == p {
        assert false;
      }
      ChainKept(ps, qs, p, r, y, n - 1);
    }
  }

  lemma {:induction false} StillReaches(ps: Procs, qs: Procs, p: nat, r: nat, x: nat, n: nat)
    requires GivenTo(ps, qs, p, r) && LinksThere(ps) && Up(ps, x, n) == ROOT && Reaches(qs, r) && x in ps
    ensures Reaches(qs, x)
    decreases n
  {
    if x == ROOT {
      assert Up(qs, x, 0) == ROOT;
    } else {
      if ps[x].parent == p {
        var m: nat :| Up(qs, r, m) == ROOT;
        assert Up(qs, x, m + 1) == ROOT;
      } else {
        assert ParentIn(ps, x);
        StillReaches(ps, qs, p, r, ps[x].parent, n - 1);
        var m: nat :| Up(qs, ps[x].parent, m) == ROOT;
        assert Up(qs, x, m + 1) == ROOT;
      }
    }
  }

  /** Children given to the root process of the container they share with their parent stay in the tree. */
  lemma GivenStaysRooted(ps: Procs, qs: Procs, p: nat)
    requires LinksThere(ps) && Homed(ps) && Rooted(ps) && p in ps && ps[p].root != p && ps[p].root in ps
    requires GivenTo(ps, qs, p, ps[p].root)
    ensures Rooted(qs)
  {
    var r := ps[p].root;
    assert Reaches(ps, p) && Reaches(ps, r);
    var n: nat :| Up(ps, p, n) == ROOT;
    var k := ContainerAbove(ps, p, n);
    assert p != ROOT;
    forall m: nat | 0 < m
      ensures Up(ps, r, m) != p
    {
      NotBelow(ps, p, r, n, k, m);
    }
    var d: nat :| Up(ps, r, d) == ROOT;
    ChainKept(ps, qs, p, r, r, d);
    forall x | x in qs
      ensures Reaches(qs, x)
    {
      assert Reaches(ps, x);
      var m: nat :| Up(ps, x, m) == ROOT;
      StillReaches(ps, qs, p, r, x, m);
    }
  }

  lemma {:induction false} OwnParent(ps: Procs, c: nat, n: nat)
    requires c in ps && ps[c].parent == c
    ensures Up(ps, c, n) == c
  {
    if n > 0 {
      OwnParent(ps, c, n - 1);
    }
  }

  /** What exit leaves behind: the children of `p` are with the root processes of their containers. */
  ghost predicate Reparented(ps: Procs, qs: Procs, p: nat) {
    && qs.Keys == ps.Keys
    && forall x :: x in ps ==>
         && qs[x].root == ps[x].root
         && qs[x].parent == if x != ROOT && ps[x].parent == p then ps[x].root else ps[x].parent
  }

  /**
   Exit keeps the tree in one piece exactly when the process leaves no root process of a container
   behind, for such a child becomes its own parent.
   */
  lemma ExitKeepsTree(ps: Procs, qs: Procs, p: nat)
    requires TreeOk(ps) && Homed(ps) && Rooted(ps) && p in ps && ps[p].root != p && Reparented(ps, qs, p)
    ensures Homed(qs)
    ensures Rooted(qs) <==> forall c :: c in ps[p].children ==> c in ps && ps[c].root != c
  {
    TreeLinks(ps);
    ExitKeepsHomes(ps, qs, p);
    ChildrenAre(ps, p);
    RootLives(ps, p);
    if c :| c in ps[p].children && ps[c].root == c {
      assert qs[c].parent == c;
      CutOff(qs, c);
    } else {
      forall x | x in ps && x != ROOT && ps[x].parent == p
        ensures ps[x].root == ps[p].root
      {
        assert HomedAt(ps, x) && x in ps[p].children;
      }
      GivenStaysRooted(ps, qs, p);
    }
  }

  lemma CutOff(ps: Procs, c: nat)
    requires c in ps && ps[c].parent == c && c != ROOT
    ensures !Reaches(ps, c)
  {
    forall n: nat
      ensures Up(ps, c, n) != ROOT
    {
      OwnParent(ps, c, n);
    }
  }

  lemma RootLives(ps: Procs, x: nat)
    requires TreeOk(ps) && x in ps
    ensures ps[x].root in ps && ps[ps[x].root].root == ps[x].root
  {
    assert Unfold(ps, 0);
    assert LinksOk(ps, x);
  }

  lemma ExitKeepsHomes(ps: Procs, qs: Procs, p: nat)
    requires TreeOk(ps) && Homed(ps) && Reparented(ps, qs, p)
    ensures Homed(qs)
  {
    forall x | x in qs
      ensures HomedAt(qs, x)
    {
      assert HomedAt(ps, x);
      RootLives(ps, x);
    }
  }

  /** A new process hangs on the tree. */
  lemma BornKeepsTree(ps: Procs, p: nat, c: nat, r: nat, qs: Procs)
    requires TreeOk(ps) && p in ps && c !in ps && qs == Born(ps, p, c, r) && Rooted(ps)
    ensures Rooted(qs)
  {
    TreeLinks(ps);
    forall x | x in qs
      ensures Reaches(qs, x)
    {
      var y := if x == c then p else x;
      assert Reaches(ps, y);
      var n: nat :| Up(ps, y, n) == ROOT;
      SameChain(ps, qs, y, n);
      assert x == c ==> Up(qs, x, n + 1) == Up(qs, y, n);
    }
  }

  lemma BornKeepsHomes(ps: Procs, p: nat, c: nat, r: nat, qs: Procs)
    requires TreeOk(ps) && p in ps && c !in ps && qs == Born(ps, p, c, r) && Homed(ps) && (r == c || r == ps[p].root)
    ensures Homed(qs)
  {
    forall x | x in qs
      ensures HomedAt(qs, x)
    {
      assert x != c ==> HomedAt(ps, x);
    }
  }

  /** A process whose ancestors keep their parents keeps its ancestors. */
  lemma {:induction false} SameChain(ps: Procs, qs: Procs, x: nat, n: nat)
    requires LinksThere(ps) && x in ps
    requires forall y :: y in ps ==> y in qs && qs[y].parent == ps[y].parent
    ensures Up(qs, x, n) == Up(ps, x, n)
    decreases n
  {
    if n > 0 {
      assert ParentIn(ps, x);
      SameChain(ps, qs, ps[x].parent, n - 1);
    }
  }

  lemma NoChildrenLeft(ps: Procs, c: nat, x: nat)
    requires TreeOk(ps) && c in ps && ps[c].zombie && x in ps
    ensures ps[x].parent != c && ps[x].parent in ps
  {
    assert Unfold(ps, 0);
    assert LinksOk(ps, x);
  }

  /** An exited process has no children, so it leaves the tree in one piece. */
  lemma GoneKeepsTree(ps: Procs, p: nat, c: nat, qs: Procs)
    requires TreeOk(ps) && Alive(ps, p) && c in ps && ps[c].zombie && qs == Gone(ps, p, c) && Rooted(ps)
    ensures Rooted(qs)
  {
    forall x | x in qs
      ensures Reaches(qs, x)
    {
      assert Reaches(ps, x);
      var n: nat :| Up(ps, x, n) == ROOT;
      ChainWithout(ps, qs, c, x, n);
    }
  }

  lemma {:induction false} ChainWithout(ps: Procs, qs: Procs, c: nat, x: nat, n: nat)
    requires TreeOk(ps) && c in ps && ps[c].zombie && x in qs && qs.Keys == ps.Keys - {c}
    requires forall y :: y in qs ==> qs[y].parent == ps[y].parent
    ensures Up(qs, x, n) == Up(ps, x, n)
    decreases n
  {
    if n > 0 {
      NoChildrenLeft(ps, c, x);
      ChainWithout(ps, qs, c, ps[x].parent, n - 1);
    }
  }

  lemma GoneKeepsHomes(ps: Procs, p: nat, c: nat, qs: Procs)
    requires TreeOk(ps) && Alive(ps, p) && c in ps && ps[c].zombie && qs == Gone(ps, p, c) && Homed(ps)
    ensures Homed(qs)
  {
    forall x | x in qs
      ensures HomedAt(qs, x)
    {
      assert HomedAt(ps, x);
      NoChildrenLeft(ps, c, x);
    }
  }

  // ---------------------------------------------------------------- in what order

  /** Those of the list whose container has the root process `r`, the last one first. */
  ghost function Taken(ps: Procs, cs: seq<nat>, r: nat): seq<nat> {
    if cs == [] then []
    else
      var n := |cs| - 1;
      (if cs[n] in ps && ps[cs[n]].root == r then [cs[n]] else []) + Taken(ps, cs[..n], r)
  }

  /** The children `given` of `p` are in front of those the root processes of their containers had. */
  ghost predicate Adopted(ps: Procs, qs: Procs, p: nat, given: seq<nat>) {
    forall r {:trigger AdoptedAt(ps, qs, given, r)} :: r in ps && r != p ==> AdoptedAt(ps, qs, given, r)
  }

  ghost predicate AdoptedAt(ps: Procs, qs: Procs, given: seq<nat>, r: nat) {
    r in ps && r in qs && qs[r].children == Taken(ps, given, r) + ps[r].children
  }

  lemma TakenOne(ps: Procs, given: seq<nat>, c: nat, r: nat)
    requires c in ps
    ensures Taken(ps, given + [c], r) == if ps[c].root == r then [c] + Taken(ps, given, r) else Taken(ps, given, r)
  {
    assert (given + [c])[..|given|] == given;
    assert [] + Taken(ps, given, r) == Taken(ps, given, r);
  }

  lemma PutFirst(c: nat, s: seq<nat>, t: seq<nat>)
    ensures [c] + (s + t) == ([c] + s) + t
  {
  }

  lemma AdoptedNext(ps0: Procs, ps: Procs, qs: Procs, given: seq<nat>, c: nat, r: nat)
    requires AdoptedAt(ps0, ps, given, r) && c in ps0 && r in qs
    requires qs[r].children == if r == ps0[c].root then [c] + ps[r].children else ps[r].children
    ensures AdoptedAt(ps0, qs, given + [c], r)
  {
    TakenOne(ps0, given, c, r);
    PutFirst(c, Taken(ps0, given, r), ps0[r].children);
  }

  lemma AdoptedOn(ps0: Procs, ps: Procs, qs: Procs, p: nat, given: seq<nat>, c: nat)
    requires Adopted(ps0, ps, p, given) && ps.Keys == ps0.Keys && p in ps && c in ps && ps[c].root in ps
    requires ps[c].root != p && ps[c].root == ps0[c].root && qs == Moved(ps, p, c, ps[c].root)
    ensures Adopted(ps0, qs, p, given + [c])
  {
    forall r | r in ps0 && r != p
      ensures AdoptedAt(ps0, qs, given + [c], r)
    {
      assert AdoptedAt(ps0, ps, given, r);
      MovedFields(ps, p, c, ps[c].root, r);
      AdoptedNext(ps0, ps, qs, given, c, r);
    }
  }

  lemma AdoptedDead(ps: Procs, qs: Procs, p: nat, given: seq<nat>, code: int)
    requires Adopted(ps, qs, p, given) && p in qs
    ensures Adopted(ps, Dead(qs, p, code), p, given)
  {
    forall r | r in ps && r != p
      ensures AdoptedAt(ps, Dead(qs, p, code), given, r)
    {
      assert AdoptedAt(ps, qs, given, r);
    }
  }

  /** The children `given` of `p` have been handed over, and nothing else has changed. */
  ghost predicate Handed(ps: Procs, qs: Procs, p: nat, given: seq<nat>) {
    forall n: nat :: Unfold(ps, n) ==> HandedAll(ps, qs, p, given)
  }

  ghost predicate HandedAll(ps: Procs, qs: Procs, p: nat, given: seq<nat>) {
    && qs.Keys == ps.Keys && p in ps && ps[p].children == given + qs[p].children && Adopted(ps, qs, p, given)
    && forall c :: c in ps ==>
         && qs[c].root == ps[c].root && qs[c].zombie == ps[c].zombie && qs[c].code == ps[c].code
         && qs[c].parent == if c in given then ps[c].root else ps[c].parent
  }

  lemma HandedStart(ps: Procs, p: nat)
    requires p in ps
    ensures Handed(ps, ps, p, [])
  {
    assert [] + ps[p].children == ps[p].children;
    forall r | r in ps
      ensures AdoptedAt(ps, ps, [], r)
    {
      assert [] + ps[r].children == ps[r].children;
    }
  }

  lemma FirstGone(given: seq<nat>, s: seq<nat>)
    requires s != []
    ensures Without(s, s[0]) == s[1..] && given + [s[0]] + s[1..] == given + s
  {
  }

  lemma HandedOn(ps0: Procs, ps: Procs, qs: Procs, p: nat, given: seq<nat>, c: nat)
    requires Handed(ps0, ps, p, given) && TreeOk(ps) && p in ps && c in ps && ps[c].root in ps && ps[c].root != p
    requires ps[p].children != [] && c == ps[p].children[0] && qs == Moved(ps, p, c, ps[c].root)
    ensures Handed(ps0, qs, p, given + [c]) && p in qs && |qs[p].children| < |ps[p].children|
  {
    assert Unfold(ps0, 0);
    AdoptedOn(ps0, ps, qs, p, given, c);
    AfterGiving(ps, qs, p, c, ps[c].root);
    FirstGone(given, ps[p].children);
  }

  lemma StillAlive(ps: Procs, qs: Procs, p: nat, c: nat, r: nat)
    requires Alive(ps, p) && c in ps && r in ps && p != r && qs == Moved(ps, p, c, r)
    ensures Alive(qs, p) && qs[p].root == ps[p].root
  {
    MovedFields(ps, p, c, r, p);
  }

  lemma HandedEnd(ps: Procs, qs: Procs, p: nat, given: seq<nat>)
    requires Handed(ps, qs, p, given) && p in ps && p in qs && qs[p].children == []
    ensures HandedAll(ps, qs, p, ps[p].children)
  {
    assert Unfold(ps, 0);
    assert given + [] == given;
  }

  lemma AfterDead(ps0: Procs, ps: Procs, qs: Procs, p: nat, code: int)
    requires TreeOk(ps0) && p in ps0 && HandedAll(ps0, ps, p, ps0[p].children) && qs == Dead(ps, p, code)
    ensures Reparented(ps0, qs, p) && Adopted(ps0, qs, p, ps0[p].children)
    ensures forall c :: c in qs ==> qs[c].parent == if c in ps0[p].children then qs[c].root else ps0[c].parent
    ensures forall c :: c in qs && c != p ==> qs[c].zombie == ps0[c].zombie && qs[c].code == ps0[c].code
  {
    AdoptedDead(ps0, ps, p, ps0[p].children, code);
    ChildrenAre(ps0, p);
  }

  // ---------------------------------------------------------------- the operations

  lemma AloneOk(ps: Procs, sem: map<nat, Sem>)
    requires ps == map[ROOT := Proc(ROOT, ROOT, [], false, 0)] && sem == map[ROOT := Init(0)]
    ensures TreeOk(ps) && WaitsOk(ps, sem, {}) && CountsOk(ps, sem, {}, None)
  {
    var p := ps[ROOT];
    assert ps.Keys == {ROOT} == sem.Keys;
    assert p.children == [] && sem[ROOT].sleep == [];
    assert LinksOk(ps, ROOT) && ListOk(ps, ROOT) && Law(sem[ROOT]);
    forall x | x in ps
      ensures LinksOk(ps, x) && ListOk(ps, x) && WaitOk(ps, sem, {}, x)
    {
      assert x == ROOT;
    }
    assert Zombies(ps, ROOT) == {};
  }

  lemma AloneRooted(ps: Procs)
    requires ps == map[ROOT := Proc(ROOT, ROOT, [], false, 0)]
    ensures Homed(ps) && Rooted(ps)
  {
    assert Up(ps, ROOT, 0) == ROOT;
    assert Reaches(ps, ROOT) && HomedAt(ps, ROOT);
  }

  class ProcTable {
    var ps: Procs
    var sem: map<nat, Sem>
    /** Processes that have taken a token and not yet looked for the child it stands for. */
    var hold: set<nat>

    ghost predicate Valid()
      reads this
    {
      TreeOk(ps) && WaitsOk(ps, sem, hold) && CountsOk(ps, sem, hold, None)
    }

    /** The first process, alone. */
    constructor ()
      ensures Valid() && ps == map[ROOT := Proc(ROOT, ROOT, [], false, 0)] && hold == {} && Homed(ps) && Rooted(ps)
      ensures sem == map[ROOT := Init(0)]
    {
      AloneRooted(map[ROOT := Proc(ROOT, ROOT, [], false, 0)]);
      ps, sem, hold := map[ROOT := Proc(ROOT, ROOT, [], false, 0)], map[ROOT := Init(0)], {};
      AloneOk(map[ROOT := Proc(ROOT, ROOT, [], false, 0)], map[ROOT := Init(0)]);
    }

    /** The first child goes to the root process of its container. */
    method GiveFirst(p: nat)
      requires TreeOk(ps) && WaitsOk(ps, sem, hold) && CountsOk(ps, sem, hold, Some(p)) && Alive(ps, p)
      requires ps[p].root != p && ps[p].children != []
      modifies `ps, `sem
      ensures TreeOk(ps) && WaitsOk(ps, sem, hold) && CountsOk(ps, sem, hold, Some(p))
      ensures var c := old(ps)[p].children[0];
              c in old(ps) && old(ps)[c].root in old(ps) && old(ps)[c].root != p &&
                ps == Moved(old(ps), p, c, old(ps)[c].root)
      ensures p in sem && sem[p] == old(sem)[p] && |old(ps)[p].children| > 0
    {
      var c := ps[p].children[0];
      ChildFacts(ps, p, c);
      var r := ps[c].root;
      MovedTree(ps, p, c, r);
      ghost var sem0, ps0 := sem, ps;
      var exited := ps[c].zombie;
      ps := Moved(ps, p, c, r);
      if exited {
        sem := sem[r := DoPost(sem[r])];
      }
      GivenAway(ps0, sem0, hold, p, c, r, sem);
    }

    /** Give every child to the root process of its container, with a token for each that has exited. */
    method Reparent(p: nat)
      requires TreeOk(ps) && WaitsOk(ps, sem, hold) && CountsOk(ps, sem, hold, Some(p)) && Alive(ps, p) &&
               ps[p].root != p
      modifies `ps, `sem
      ensures TreeOk(ps) && WaitsOk(ps, sem, hold) && CountsOk(ps, sem, hold, Some(p)) && Alive(ps, p)
      ensures HandedAll(old(ps), ps, p, old(ps)[p].children) && ps[p].children == [] && ps[p].root != p
      ensures p in sem && sem[p] == old(sem)[p]
    {
      ghost var ps0, given: seq<nat> := ps, [];
      HandedStart(ps, p);
      while ps[p].children != []
        invariant TreeOk(ps) && WaitsOk(ps, sem, hold) && CountsOk(ps, sem, hold, Some(p)) && Alive(ps, p)
        invariant Handed(ps0, ps, p, given) && p in sem && sem[p] == old(sem)[p] && ps[p].root != p
        decreases |ps[p].children|
      {
        ghost var ps1, c := ps, ps[p].children[0];
        ChildFacts(ps, p, c);
        GiveFirst(p);
        HandedOn(ps0, ps1, ps, p, given, c);
        given := given + [c];
        StillAlive(ps1, ps, p, c, ps1[c].root);
      }
      HandedEnd(ps0, ps, p, given);
    }

    /** The caller must not be the root process of its container, nor in the middle of a wait. */
    method Exit(p: nat, code: int)
      requires Valid() && Alive(ps, p) && ps[p].root != p
      requires p in sem && sem[p].sleep == [] && sem[p].up == {} && p !in hold
      modifies `ps, `sem
      ensures Valid() && ps.Keys == old(ps).Keys && ps[p].zombie && ps[p].code == code
      ensures forall c :: c in ps ==> ps[c].parent == if c in old(ps)[p].children then ps[c].root else old(ps)[c].parent
      ensures forall c :: c in ps && c != p ==> ps[c].zombie == old(ps)[c].zombie && ps[c].code == old(ps)[c].code
      ensures Reparented(old(ps), ps, p) && Adopted(old(ps), ps, p, old(ps)[p].children) && ps[p].children == []
      ensures old(Homed(ps) && Rooted(ps)) ==>
                && Homed(ps)
                && (Rooted(ps) <==> forall c :: c in old(ps)[p].children ==> c in ps && ps[c].root != c)
    {
      ghost var ps0 := ps;
      Reparent(p);
      ParentFacts(ps, p);
      DeadTree(ps, p, code);
      DeadCounts(ps, sem, hold, p, code);
      AfterDead(ps0, ps, Dead(ps, p, code), p, code);
      var r := ps[p].parent;
      sem := sem[r := DoPost(sem[r])];
      ps := Dead(ps, p, code);
      if Homed(ps0) && Rooted(ps0) {
        ExitKeepsTree(ps0, ps, p);
      }
    }

    /** A new process `c`, child of `p`, in the container whose root process is `r`, or in one of its own. */
    method Spawn(p: nat, c: nat, r: nat)
      requires Valid() && Alive(ps, p) && c !in ps && (r == c || (Alive(ps, r) && ps[r].root == r))
      modifies `ps, `sem
      ensures Valid() && sem == old(sem)[c := Init(0)]
      ensures ps == old(ps)[c := Proc(p, r, [], false, 0)][p := old(ps)[p].(children := [c] + old(ps)[p].children)]
      ensures old(Rooted(ps)) ==> Rooted(ps)
      ensures old(Homed(ps)) && (r == c || r == old(ps)[p].root) ==> Homed(ps)
    {
      if Rooted(ps) {
        BornKeepsTree(ps, p, c, r, Born(ps, p, c, r));
      }
      if Homed(ps) && (r == c || r == ps[p].root) {
        BornKeepsHomes(ps, p, c, r, Born(ps, p, c, r));
      }
      BornOk(ps, sem, hold, p, c, r);
      ps := Born(ps, p, c, r);
      sem := sem[c := Init(0)];
    }

    /** The first half of a wait: no children, or a token taken, or asleep until there is one. */
    method BeginWait(p: nat) returns (r: Option<bool>)
      requires Valid() && Alive(ps, p) && p in sem && sem[p].sleep == [] && sem[p].up == {} && p !in hold
      modifies `sem, `hold
      ensures Valid() && (r.None? <==> ps[p].children == [])
      ensures r == None ==> sem == old(sem) && hold == old(hold)
      ensures r == Some(true) ==> hold == old(hold) + {p}
      ensures r == Some(false) ==> hold == old(hold) && sem[p].sleep == [p]
    {
      if ps[p].children == [] {
        return None;
      }
      ghost var sem0, hold0 := sem, hold;
      var now := sem[p].val - 1 >= 0;
      sem := sem[p := DoWait(sem[p], p)];
      if now {
        hold := hold + {p};
      }
      WaitStepOk(ps, sem0, sem, hold0, hold, p, Wait(p));
      return Some(now);
    }

    /** The second half, when the process runs again: false if it was woken without a token. */
    method EndWait(p: nat) returns (got: bool)
      requires Valid() && Alive(ps, p) && p in sem && Enabled(sem[p], Resume(p))
      modifies `sem, `hold
      ensures Valid() && (got <==> p in old(sem)[p].up)
      ensures hold == old(hold) + if got then {p} else {}
    {
      ghost var sem0, hold0 := sem, hold;
      NotHolding(ps, sem, hold, p);
      got := p in sem[p].up;
      sem := sem[p := DoResume(sem[p], p)];
      if got {
        hold := hold + {p};
      }
      WaitStepOk(ps, sem0, sem, hold0, hold, p, Resume(p));
    }

    /** A process with a token finds an exited child, every time, and removes it. */
    method Reap(p: nat) returns (c: nat, code: int)
      requires Valid() && p in hold
      modifies this
      ensures Valid() && hold == old(hold) - {p}
      ensures c in old(ps) && c in old(ps)[p].children && old(ps)[c].zombie && code == old(ps)[c].code
      ensures var cs := old(ps)[p].children; exists k :: 0 <= k < |cs| && cs[k] == c && NoneExited(old(ps), cs[..k])
      ensures c !in ps && ps.Keys == old(ps).Keys - {c} && p in ps &&
              ps[p] == old(ps)[p].(children := Without(old(ps)[p].children, c))
      ensures forall x :: x in ps && x != p ==> ps[x] == old(ps)[x]
      ensures (old(Rooted(ps)) ==> Rooted(ps)) && (old(Homed(ps)) ==> Homed(ps))
    {
      ghost var k0 := FindsZombie(ps, sem, hold, p);
      var cs, k := ps[p].children, 0;
      while !ps[cs[k]].zombie
        invariant 0 <= k <= k0 && NoneExited(ps, cs[..k])
        decreases k0 - k
      {
        k := k + 1;
      }
      c := cs[k];
      code := ps[c].code;
      GoneOk(ps, sem, hold, p, c);
      HolderLives(ps, sem, hold, p);
      if Rooted(ps) {
        GoneKeepsTree(ps, p, c, Gone(ps, p, c));
      }
      if Homed(ps) {
        GoneKeepsHomes(ps, p, c, Gone(ps, p, c));
      }
      ps := Gone(ps, p, c);
      sem := sem - {c};
      hold := hold - {p};
    }
  }

  /**
   Process 1 creates a container, whose root process is 2, and exits. Process 2 is left alive with
   itself as its parent: no list of children the first process starts leads to it.
   */
  method LeaveContainerBehind() returns (t: ProcTable)
    ensures t.Valid() && Homed(t.ps) && Alive(t.ps, 2) && t.ps[2].parent == 2 == t.ps[2].root && !Reaches(t.ps, 2)
  {
    t := new ProcTable();
    t.Spawn(ROOT, 1, ROOT);
    t.Spawn(1, 2, 2);
    assert t.ps[1].children == [2];
    t.Exit(1, 0);
    CutOff(t.ps, 2);
  }

  predicate NoneExited(ps: Procs, s: seq<nat>) {
    forall i :: 0 <= i < |s| ==> Alive(ps, s[i])
  }

  function Born(ps: Procs, p: nat, c: nat, r: nat): Procs
    requires p in ps && c !in ps
  {
    ps[c := Proc(p, r, [], false, 0)][p := ps[p].(children := [c] + ps[p].children)]
  }

  lemma NotHolding(ps: Procs, sem: map<nat, Sem>, hold: set<nat>, p: nat)
    requires WaitsOk(ps, sem, hold) && p in ps && Enabled(sem[p], Resume(p))
    ensures p !in hold
  {
    assert Unfold(ps, 0);
    assert WaitOk(ps, sem, hold, p);
  }

  lemma BornTree(ps: Procs, p: nat, c: nat, r: nat, qs: Procs)
    requires TreeOk(ps) && Alive(ps, p) && c !in ps && (r == c || (Alive(ps, r) && ps[r].root == r)) &&
             qs == Born(ps, p, c, r)
    ensures TreeOk(qs)
  {
    assert Unfold(ps, 0);
    assert qs.Keys == ps.Keys + {c};
    forall x | x in qs
      ensures ListOk(qs, x) && LinksOk(qs, x)
    {
      BornAt(ps, p, c, r, x, qs);
    }
  }

  lemma BornWaits(ps: Procs, sem: map<nat, Sem>, hold: set<nat>, p: nat, c: nat, r: nat, qs: Procs, sem': map<nat, Sem>)
    requires WaitsOk(ps, sem, hold) && Alive(ps, p) && c !in ps && qs == Born(ps, p, c, r) && sem' == sem[c := Init(0)]
    ensures WaitsOk(qs, sem', hold)
  {
    assert Unfold(ps, 0);
    assert qs.Keys == ps.Keys + {c} && sem'.Keys == qs.Keys && c !in hold;
    forall x | x in qs
      ensures WaitOk(qs, sem', hold, x)
    {
      assert x != c ==> WaitOk(ps, sem, hold, x);
    }
  }

  lemma BornOk(ps: Procs, sem: map<nat, Sem>, hold: set<nat>, p: nat, c: nat, r: nat)
    requires TreeOk(ps) && WaitsOk(ps, sem, hold) && CountsOk(ps, sem, hold, None)
    requires Alive(ps, p) && c !in ps && (r == c || (Alive(ps, r) && ps[r].root == r))
    ensures var qs, sem' := Born(ps, p, c, r), sem[c := Init(0)];
            TreeOk(qs) && WaitsOk(qs, sem', hold) && CountsOk(qs, sem', hold, None)
  {
    var qs, sem' := Born(ps, p, c, r), sem[c := Init(0)];
    BornTree(ps, p, c, r, qs);
    BornWaits(ps, sem, hold, p, c, r, qs, sem');
    NoChildrenYet(ps, c);
    assert c !in hold && Tokens(Init(0)) == 0;
    forall x: nat | Alive(qs, x)
      ensures CountOk(qs, sem', hold, x)
    {
      assert Zombies(qs, x) == Zombies(ps, x);
      if x != c {
        assert Alive(ps, x) && CountOk(ps, sem, hold, x);
      }
    }
  }

  lemma NoChildrenYet(ps: Procs, c: nat)
    requires TreeOk(ps) && c !in ps
    ensures Zombies(ps, c) == {}
  {
    assert Unfold(ps, 0);
    forall x | x in ps
      ensures ps[x].parent != c
    {
      assert LinksOk(ps, x);
    }
  }

  lemma BornAt(ps: Procs, p: nat, c: nat, r: nat, x: nat, qs: Procs)
    requires TreeOk(ps) && Alive(ps, p) && c !in ps && (r == c || (Alive(ps, r) && ps[r].root == r)) &&
             qs == Born(ps, p, c, r)
    requires x in ps || x == c
    ensures x in qs && ListOk(qs, x) && LinksOk(qs, x)
  {
    assert Unfold(ps, 0);
    if x == c {
      forall y | y in ps
        ensures ps[y].parent != c
      {
        assert LinksOk(ps, y);
      }
    } else {
      assert ListOk(ps, x) && LinksOk(ps, x);
      assert c !in ps[x].children;
      assert forall y :: y in [c] + ps[p].children <==> y == c || y in ps[p].children;
    }
  }

  /** Taking a token, going to sleep, and coming back from it, leave the count as it was. */
  lemma WaitStepOk(ps: Procs, sem: map<nat, Sem>, sem': map<nat, Sem>, hold: set<nat>, hold': set<nat>, p: nat, a: Act)
    requires TreeOk(ps) && WaitsOk(ps, sem, hold) && CountsOk(ps, sem, hold, None)
    requires Alive(ps, p) && p !in hold && (a == Wait(p) || a == Resume(p)) && Enabled(sem[p], a)
    requires sem' == sem[p := Step(sem[p], a)]
    requires hold' == if (a.Wait? && sem[p].val > 0) || (a.Resume? && p in sem[p].up) then hold + {p} else hold
    ensures WaitsOk(ps, sem', hold') && CountsOk(ps, sem', hold', None)
  {
    assert Unfold(ps, 0);
    assert WaitOk(ps, sem, hold, p) && CountOk(ps, sem, hold, p);
    StepKeepsLaw(sem[p], a);
    WithoutOk(sem[p].sleep, p);
    assert sem'.Keys == ps.Keys;
    if a.Resume? && p in sem[p].up {
      assert sem[p].up == {p};
    }
    forall x | x in ps
      ensures WaitOk(ps, sem', hold', x)
    {
      assert WaitOk(ps, sem, hold, x);
    }
    forall x: nat | Alive(ps, x)
      ensures CountOk(ps, sem', hold', x)
    {
      assert CountOk(ps, sem, hold, x);
    }
  }

  lemma FindsZombie(ps: Procs, sem: map<nat, Sem>, hold: set<nat>, p: nat) returns (k: nat)
    requires TreeOk(ps) && WaitsOk(ps, sem, hold) && CountsOk(ps, sem, hold, None) && p in hold
    ensures p in ps && k < |ps[p].children| && (forall c :: c in ps[p].children ==> c in ps) &&
            ps[ps[p].children[k]].zombie
  {
    assert Unfold(ps, 0);
    assert WaitOk(ps, sem, hold, p) && ListOk(ps, p) && LinksOk(ps, ROOT);
    assert Alive(ps, p) && CountOk(ps, sem, hold, p);
    assert Zombies(ps, p) != {};
    var c :| c in Zombies(ps, p);
    k :| 0 <= k < |ps[p].children| && ps[p].children[k] == c;
  }

  function Gone(ps: Procs, p: nat, c: nat): Procs
    requires p in ps
  {
    (ps - {c})[p := ps[p].(children := Without(ps[p].children, c))]
  }

  lemma GoneTree(ps: Procs, p: nat, c: nat, qs: Procs)
    requires TreeOk(ps) && Alive(ps, p) && c in ps[p].children && c in ps && ps[c].zombie && qs == Gone(ps, p, c)
    ensures TreeOk(qs) && ps[c].parent == p
  {
    assert Unfold(ps, 0);
    assert ListOk(ps, p) && LinksOk(ps, ROOT);
    assert qs.Keys == ps.Keys - {c};
    forall x | x in qs
      ensures ListOk(qs, x) && LinksOk(qs, x)
    {
      GoneAt(ps, p, c, x, qs);
    }
  }

  lemma GoneAt(ps: Procs, p: nat, c: nat, x: nat, qs: Procs)
    requires TreeOk(ps) && Alive(ps, p) && c in ps[p].children && c in ps && ps[c].zombie && qs == Gone(ps, p, c)
    requires x in ps && x != c
    ensures x in qs && ListOk(qs, x) && LinksOk(qs, x)
  {
    assert Unfold(ps, 0);
    assert ListOk(ps, x) && LinksOk(ps, x) && ListOk(ps, p);
    WithoutOk(ps[p].children, c);
  }

  lemma GoneWaits(ps: Procs, sem: map<nat, Sem>, hold: set<nat>, p: nat, c: nat, qs: Procs, sem': map<nat, Sem>,
                  hold': set<nat>)
    requires WaitsOk(ps, sem, hold) && Alive(ps, p) && c in ps && ps[c].zombie
    requires qs == Gone(ps, p, c) && sem' == sem - {c} && hold' == hold - {p}
    ensures WaitsOk(qs, sem', hold')
  {
    assert Unfold(ps, 0);
    assert WaitOk(ps, sem, hold, c);
    assert qs.Keys == ps.Keys - {c} && sem'.Keys == qs.Keys && hold' <= qs.Keys;
    forall x | x in qs
      ensures WaitOk(qs, sem', hold', x)
    {
      assert WaitOk(ps, sem, hold, x);
    }
  }

  lemma HolderLives(ps: Procs, sem: map<nat, Sem>, hold: set<nat>, p: nat)
    requires WaitsOk(ps, sem, hold) && p in hold
    ensures Alive(ps, p)
  {
    assert Unfold(ps, 0);
    assert WaitOk(ps, sem, hold, p);
  }

  lemma GoneOk(ps: Procs, sem: map<nat, Sem>, hold: set<nat>, p: nat, c: nat)
    requires TreeOk(ps) && WaitsOk(ps, sem, hold) && CountsOk(ps, sem, hold, None) && p in hold
    requires p in ps && c in ps[p].children && c in ps && ps[c].zombie
    ensures var qs, sem', hold' := Gone(ps, p, c), sem - {c}, hold - {p};
            TreeOk(qs) && WaitsOk(qs, sem', hold') && CountsOk(qs, sem', hold', None)
  {
    var qs, sem', hold' := Gone(ps, p, c), sem - {c}, hold - {p};
    HolderLives(ps, sem, hold, p);
    GoneTree(ps, p, c, qs);
    GoneWaits(ps, sem, hold, p, c, qs, sem', hold');
    forall x: nat | Alive(qs, x)
      ensures CountOk(qs, sem', hold', x)
    {
      assert Alive(ps, x) && CountOk(ps, sem, hold, x);
      assert Zombies(qs, x) == Zombies(ps, x) - if x == p then {c} else {};
    }
  }

  lemma AfterGiving(ps: Procs, qs: Procs, p: nat, c: nat, r: nat)
    requires TreeOk(ps) && p in ps && c in ps && r in ps && p != r && qs == Moved(ps, p, c, r)
    ensures qs.Keys == ps.Keys && forall x :: x in qs[p].children <==> x in ps[p].children && x != c
    ensures qs[p].children == Without(ps[p].children, c)
    ensures forall x :: x in ps ==> qs[x].root == ps[x].root && qs[x].zombie == ps[x].zombie && qs[x].code == ps[x].code
    ensures forall x :: x in ps ==> qs[x].parent == if x == c then r else ps[x].parent
  {
    assert Unfold(ps, 0);
    assert ListOk(ps, p);
    MovedAll(ps, qs, p, c, r);
    MovedFields(ps, p, c, r, p);
    WithoutOk(ps[p].children, c);
  }
}
