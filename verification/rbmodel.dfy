/**
 Red-black trees as values: what the loops of `__rb_insert_fix` and `__rb_erase_fix` do to the
 tree, one step at a time, and why the result is a red-black tree again.

 A tree under repair is a subtree together with the context above it.
 */
module RbModel {
  import opened Common

  datatype Color = Red | Black

  datatype Tree<T> = Leaf | Node(l: Tree<T>, c: Color, x: T, r: Tree<T>)

  /** What surrounds a subtree: it is the left (`InL`) or right (`InR`) child of `x`, and so on up. */
  datatype Ctx<T> =
    | Top
    | InL(c: Color, x: T, r: Tree<T>, up: Ctx<T>)
    | InR(l: Tree<T>, c: Color, x: T, up: Ctx<T>)

  function Plug<T>(t: Tree<T>, k: Ctx<T>): Tree<T>
    decreases k
  {
    match k
    case Top => t
    case InL(c, x, r, up) => Plug(Node(t, c, x, r), up)
    case InR(l, c, x, up) => Plug(Node(l, c, x, t), up)
  }

  function Inorder<T>(t: Tree<T>): seq<T> {
    match t
    case Leaf => []
    case Node(l, _, x, r) => Inorder(l) + [x] + Inorder(r)
  }

  function Before<T>(k: Ctx<T>): seq<T> {
    match k
    case Top => []
    case InL(_, _, _, up) => Before(up)
    case InR(l, _, x, up) => Before(up) + Inorder(l) + [x]
  }

  function After<T>(k: Ctx<T>): seq<T> {
    match k
    case Top => []
    case InL(_, x, r, up) => [x] + Inorder(r) + After(up)
    case InR(_, _, _, up) => After(up)
  }

  lemma Regroup<T>(a: seq<T>, b: seq<T>, c: seq<T>, d: seq<T>, e: seq<T>)
    ensures a + (b + c + d) + e == a + b + (c + d + e)
    ensures a + (b + c + d) + e == a + b + c + d + e
  {
  }

  lemma {:induction false} InorderPlug<T>(t: Tree<T>, k: Ctx<T>)
    ensures Inorder(Plug(t, k)) == Before(k) + Inorder(t) + After(k)
    decreases k
  {
    match k
    case Top =>
    case InL(c, x, r, up) =>
      InorderPlug(Node(t, c, x, r), up);
      Regroup(Before(up), Inorder(t), [x], Inorder(r), After(up));
    case InR(l, c, x, up) =>
      InorderPlug(Node(l, c, x, t), up);
      Regroup(Before(up), Inorder(l), [x], Inorder(t), After(up));
  }

  /** Trees with the same elements in the same order are interchangeable below any context. */
  lemma PlugSame<T>(t: Tree<T>, u: Tree<T>, k: Ctx<T>)
    requires Inorder(t) == Inorder(u)
    ensures Inorder(Plug(t, k)) == Inorder(Plug(u, k))
  {
    InorderPlug(t, k);
    InorderPlug(u, k);
  }

  lemma Rotate<T>(a: seq<T>, b: seq<T>, c: seq<T>, d: seq<T>, e: seq<T>)
    ensures (a + b + c) + d + e == a + b + (c + d + e)
  {
  }

  // ---------------------------------------------------------------- red-black trees

  predicate IsBlack<T>(t: Tree<T>) {
    t.Leaf? || t.c.Black?
  }

  predicate IsRed<T>(t: Tree<T>) {
    t.Node? && t.c.Red?
  }

  /** Every path has `n` black nodes, and a red node has black children. */
  predicate RB<T>(t: Tree<T>, n: nat) {
    match t
    case Leaf => n == 0
    case Node(l, Black, _, r) => n > 0 && RB(l, n - 1) && RB(r, n - 1)
    case Node(l, Red, _, r) => IsBlack(l) && IsBlack(r) && RB(l, n) && RB(r, n)
  }

  predicate RedAbove<T>(k: Ctx<T>) {
    !k.Top? && k.c.Red?
  }

  function AboveHeight(c: Color, n: nat): nat {
    if c.Black? then n + 1 else n
  }

  /** The context of a black root tree in which the hole must have black height `n`. */
  predicate CtxOk<T>(k: Ctx<T>, n: nat) {
    match k
    case Top => true
    case InL(c, _, r, up) =>
      && RB(r, n) && (c.Red? ==> IsBlack(r) && !up.Top? && !RedAbove(up)) && CtxOk(up, AboveHeight(c, n))
    case InR(l, c, _, up) =>
      && RB(l, n) && (c.Red? ==> IsBlack(l) && !up.Top? && !RedAbove(up)) && CtxOk(up, AboveHeight(c, n))
  }

  ghost predicate RedBlack<T>(t: Tree<T>) {
    IsBlack(t) && exists n: nat :: RB(t, n)
  }

  /** A hole may be filled with a red root only below a black node. */
  predicate Fits<T>(t: Tree<T>, k: Ctx<T>) {
    IsBlack(t) || (!k.Top? && !RedAbove(k))
  }

  lemma {:induction false} PlugRedBlack<T>(t: Tree<T>, k: Ctx<T>, n: nat)
    requires RB(t, n) && CtxOk(k, n) && Fits(t, k)
    ensures RedBlack(Plug(t, k))
    decreases k
  {
    match k
    case Top =>
    case InL(c, x, r, up) => PlugRedBlack(Node(t, c, x, r), up, AboveHeight(c, n));
    case InR(l, c, x, up) => PlugRedBlack(Node(l, c, x, t), up, AboveHeight(c, n));
  }

  /** Conversely, a place inside a red-black tree has a sound subtree and a sound context. */
  lemma {:induction false} PlaceRedBlack<T>(t: Tree<T>, k: Ctx<T>) returns (n: nat)
    requires RedBlack(Plug(t, k))
    ensures RB(t, n) && CtxOk(k, n) && Fits(t, k)
    decreases k
  {
    match k
    case Top => n :| RB(t, n);
    case InL(c, x, r, up) =>
      var m := PlaceRedBlack(Node(t, c, x, r), up);
      n := if c.Black? then m - 1 else m;
    case InR(l, c, x, up) =>
      var m := PlaceRedBlack(Node(l, c, x, t), up);
      n := if c.Black? then m - 1 else m;
  }

  function Blacken<T>(t: Tree<T>): (b: Tree<T>)
    ensures IsBlack(b) && Inorder(b) == Inorder(t)
    ensures IsBlack(t) ==> b == t
  {
    if t.Leaf? then t else t.(c := Black)
  }

  lemma BlackenRed<T>(t: Tree<T>, n: nat)
    requires RB(t, n) && IsRed(t)
    ensures RB(Blacken(t), n + 1)
  {
  }

  // ---------------------------------------------------------------- insertion

  /** One turn of a repair loop: the tree is finished, or the trouble has moved up. */
  datatype Turn<T> = Done(t: Tree<T>, k: Ctx<T>) | Again(t: Tree<T>, k: Ctx<T>)

  /** The loop of `__rb_insert_fix` can run: a red node whose parent, if red, has a parent. */
  predicate InsertReady<T>(t: Tree<T>, k: Ctx<T>) {
    IsRed(t) && (RedAbove(k) ==> !k.up.Top?)
  }

  function InsertTurn<T>(t: Tree<T>, k: Ctx<T>): (turn: Turn<T>)
    requires InsertReady(t, k)
    ensures turn.Again? ==> turn.k < k
  {
    match k
    case Top => Done(Blacken(t), Top)
    case InL(Black, _, _, _) => Done(t, k)
    case InR(_, Black, _, _) => Done(t, k)
    case InL(Red, p, pr, InL(c, g, u, up)) =>
      if IsRed(u) then Again(Node(Node(t, Black, p, pr), Red, g, Blacken(u)), up)
      else Done(Node(t, c, p, Node(Blacken(pr), Red, g, u)), up)
    case InR(pl, Red, p, InL(c, g, u, up)) =>
      if IsRed(u) then Again(Node(Node(pl, Black, p, t), Red, g, Blacken(u)), up)
      else Done(Node(Node(pl, Red, p, Blacken(t.l)), c, t.x, Node(Blacken(t.r), Red, g, u)), up)
    case InR(pl, Red, p, InR(u, c, g, up)) =>
      if IsRed(u) then Again(Node(Blacken(u), Red, g, Node(pl, Black, p, t)), up)
      else Done(Node(Node(u, Red, g, Blacken(pl)), c, p, t), up)
    case InL(Red, p, pr, InR(u, c, g, up)) =>
      if IsRed(u) then Again(Node(Blacken(u), Red, g, Node(t, Black, p, pr)), up)
      else Done(Node(Node(u, Red, g, Blacken(t.l)), c, t.x, Node(Blacken(t.r), Red, p, pr)), up)
  }

  /** The repair loop's invariant: only the edge from `t` to a red parent may be wrong. */
  lemma InsertTurnOk<T>(t: Tree<T>, k: Ctx<T>, n: nat) returns (m: nat)
    requires IsRed(t) && RB(t, n) && CtxOk(k, n)
    ensures InsertReady(t, k)
    ensures var turn := InsertTurn(t, k);
            && RB(turn.t, m) && CtxOk(turn.k, m)
            && (turn.Done? ==> Fits(turn.t, turn.k)) && (turn.Again? ==> IsRed(turn.t))
  {
    m := if k.Top? || k.c.Red? then n + 1 else n;
    match k
    case Top =>
    case InL(Red, p, pr, InL(_, g, u, up)) =>
      assert RB(Node(pr, Red, g, u), n) || IsRed(u);
    case InR(pl, Red, p, InL(_, g, u, up)) =>
      assert RB(Node(pl, Red, p, t.l), n) && (RB(Node(t.r, Red, g, u), n) || IsRed(u));
    case InR(pl, Red, p, InR(u, _, g, up)) =>
      assert RB(Node(u, Red, g, pl), n) || IsRed(u);
    case InL(Red, p, pr, InR(u, _, g, up)) =>
      assert RB(Node(t.r, Red, p, pr), n) && (RB(Node(u, Red, g, t.l), n) || IsRed(u));
    case _ =>
  }

  lemma InsertTurnInorder<T>(t: Tree<T>, k: Ctx<T>)
    requires InsertReady(t, k)
    ensures var turn := InsertTurn(t, k); Inorder(Plug(turn.t, turn.k)) == Inorder(Plug(t, k))
  {
    var turn := InsertTurn(t, k);
    match k
    case Top =>
    case InL(Red, p, pr, InL(c, g, u, up)) =>
      Rotate(Inorder(t), [p], Inorder(pr), [g], Inorder(u));
      PlugSame(turn.t, Node(Node(t, Red, p, pr), c, g, u), up);
    case InR(pl, Red, p, InL(c, g, u, up)) =>
      Rotate(Inorder(pl), [p], Inorder(t), [g], Inorder(u));
      Rotate(Inorder(pl) + [p] + Inorder(t.l), [t.x], Inorder(t.r), [g], Inorder(u));
      Rotate(Inorder(pl), [p], Inorder(t.l), [t.x], Inorder(t.r));
      PlugSame(turn.t, Node(Node(pl, Red, p, t), c, g, u), up);
    case InR(pl, Red, p, InR(u, c, g, up)) =>
      Rotate(Inorder(u), [g], Inorder(pl), [p], Inorder(t));
      PlugSame(turn.t, Node(u, c, g, Node(pl, Red, p, t)), up);
    case InL(Red, p, pr, InR(u, c, g, up)) =>
      Rotate(Inorder(u), [g], Inorder(t.l), [t.x], Inorder(t.r));
      Rotate(Inorder(t.l), [t.x], Inorder(t.r), [p], Inorder(pr));
      Rotate(Inorder(u), [g], Inorder(t.l), [t.x], Inorder(t.r) + [p] + Inorder(pr));
      PlugSame(turn.t, Node(u, c, g, Node(t, Red, p, pr)), up);
    case _ =>
  }

  // ---------------------------------------------------------------- erasure

  /** Where `__rb_erase_fix` looks: the sibling, and the sibling's inner child when it is red. */
  predicate EraseReady<T>(k: Ctx<T>) {
    match k
    case Top => false
    case InL(_, _, s, _) => s.Node? && (s.c.Red? ==> s.l.Node?)
    case InR(s, _, _, _) => s.Node? && (s.c.Red? ==> s.r.Node?)
  }

  /** The rest of a turn once the sibling `s`, to the right, is black. */
  function EraseLeft<T>(t: Tree<T>, c: Color, p: T, s: Tree<T>, up: Ctx<T>): Turn<T>
    requires s.Node?
  {
    if IsRed(s.r) then Done(Node(Node(t, Black, p, s.l), c, s.x, Blacken(s.r)), up)
    else if IsRed(s.l) then
      Done(Node(Node(t, Black, p, s.l.l), c, s.l.x, Node(Blacken(s.l.r), Black, s.x, s.r)), up)
    else
      var t' := Node(t, Black, p, s.(c := Red));
      if c.Red? || up.Top? then Done(t', up) else Again(t', up)
  }

  function EraseRight<T>(t: Tree<T>, c: Color, p: T, s: Tree<T>, up: Ctx<T>): Turn<T>
    requires s.Node?
  {
    if IsRed(s.l) then Done(Node(Blacken(s.l), c, s.x, Node(s.r, Black, p, t)), up)
    else if IsRed(s.r) then
      Done(Node(Node(s.l, Black, s.x, Blacken(s.r.l)), c, s.r.x, Node(s.r.r, Black, p, t)), up)
    else
      var t' := Node(s.(c := Red), Black, p, t);
      if c.Red? || up.Top? then Done(t', up) else Again(t', up)
  }

  function EraseTurn<T>(t: Tree<T>, k: Ctx<T>): (turn: Turn<T>)
    requires EraseReady(k)
    ensures turn.Again? ==> turn.k < k
  {
    match k
    case InL(c, p, s, up) =>
      if s.c.Red? then EraseLeft(t, Red, p, Blacken(s.l), InL(c, s.x, s.r, up)) else EraseLeft(t, c, p, s, up)
    case InR(s, c, p, up) =>
      if s.c.Red? then EraseRight(t, Red, p, Blacken(s.r), InR(s.l, c, s.x, up)) else EraseRight(t, c, p, s, up)
  }

  lemma EraseLeftOk<T>(t: Tree<T>, c: Color, p: T, s: Tree<T>, up: Ctx<T>, n: nat) returns (m: nat)
    requires s.Node? && s.c.Black? && RB(t, n) && IsBlack(t) && CtxOk(InL(c, p, s, up), n + 1)
    ensures var turn := EraseLeft(t, c, p, s, up);
            && RB(turn.t, m)
            && (turn.Done? ==> CtxOk(turn.k, m) && Fits(turn.t, turn.k))
            && (turn.Again? ==> IsBlack(turn.t) && CtxOk(turn.k, m + 1) && !turn.k.Top?)
  {
    assert RB(s.l, n) && RB(s.r, n);
    if IsRed(s.r) {
      m := AboveHeight(c, n + 1);
      BlackenRed(s.r, n);
      assert RB(Node(t, Black, p, s.l), n + 1);
    } else if IsRed(s.l) {
      m := AboveHeight(c, n + 1);
      assert RB(Node(t, Black, p, s.l.l), n + 1) && RB(Node(Blacken(s.l.r), Black, s.x, s.r), n + 1);
    } else {
      m := n + 1;
      assert RB(s.(c := Red), n);
    }
  }

  lemma EraseRightOk<T>(t: Tree<T>, c: Color, p: T, s: Tree<T>, up: Ctx<T>, n: nat) returns (m: nat)
    requires s.Node? && s.c.Black? && RB(t, n) && IsBlack(t) && CtxOk(InR(s, c, p, up), n + 1)
    ensures var turn := EraseRight(t, c, p, s, up);
            && RB(turn.t, m)
            && (turn.Done? ==> CtxOk(turn.k, m) && Fits(turn.t, turn.k))
            && (turn.Again? ==> IsBlack(turn.t) && CtxOk(turn.k, m + 1) && !turn.k.Top?)
  {
    assert RB(s.l, n) && RB(s.r, n);
    if IsRed(s.l) {
      m := AboveHeight(c, n + 1);
      BlackenRed(s.l, n);
      assert RB(Node(s.r, Black, p, t), n + 1);
    } else if IsRed(s.r) {
      m := AboveHeight(c, n + 1);
      assert RB(Node(s.r.r, Black, p, t), n + 1) && RB(Node(s.l, Black, s.x, Blacken(s.r.l)), n + 1);
    } else {
      m := n + 1;
      assert RB(s.(c := Red), n);
    }
  }

  /** The loop's invariant: `t` is sound but one black node short of what its context expects. */
  lemma EraseTurnOk<T>(t: Tree<T>, k: Ctx<T>, n: nat) returns (m: nat)
    requires RB(t, n) && IsBlack(t) && CtxOk(k, n + 1) && !k.Top?
    ensures EraseReady(k)
    ensures var turn := EraseTurn(t, k);
            && RB(turn.t, m)
            && (turn.Done? ==> CtxOk(turn.k, m) && Fits(turn.t, turn.k))
            && (turn.Again? ==> IsBlack(turn.t) && CtxOk(turn.k, m + 1) && !turn.k.Top?)
  {
    match k
    case InL(c, p, s, up) =>
      if s.c.Red? {
        assert RB(s.l, n + 1) && RB(s.r, n + 1);
        m := EraseLeftOk(t, Red, p, s.l, InL(c, s.x, s.r, up), n);
      } else {
        m := EraseLeftOk(t, c, p, s, up, n);
      }
    case InR(s, c, p, up) =>
      if s.c.Red? {
        assert RB(s.l, n + 1) && RB(s.r, n + 1);
        m := EraseRightOk(t, Red, p, s.r, InR(s.l, c, s.x, up), n);
      } else {
        m := EraseRightOk(t, c, p, s, up, n);
      }
  }

  lemma EraseLeftInorder<T>(t: Tree<T>, c: Color, p: T, s: Tree<T>, up: Ctx<T>)
    requires s.Node?
    ensures var turn := EraseLeft(t, c, p, s, up);
            Inorder(Plug(turn.t, turn.k)) == Inorder(Plug(t, InL(c, p, s, up)))
  {
    var turn := EraseLeft(t, c, p, s, up);
    Rotate(Inorder(t), [p], Inorder(s.l), [s.x], Inorder(s.r));
    if !IsRed(s.r) && IsRed(s.l) {
      var a, b := Inorder(s.l.l), Inorder(s.l.r);
      Rotate(a, [s.l.x], b, [s.x], Inorder(s.r));
      Rotate(Inorder(t), [p], a, [s.l.x], b + [s.x] + Inorder(s.r));
    }
    PlugSame(turn.t, Node(t, c, p, s), up);
  }

  lemma EraseRightInorder<T>(t: Tree<T>, c: Color, p: T, s: Tree<T>, up: Ctx<T>)
    requires s.Node?
    ensures var turn := EraseRight(t, c, p, s, up);
            Inorder(Plug(turn.t, turn.k)) == Inorder(Plug(t, InR(s, c, p, up)))
  {
    var turn := EraseRight(t, c, p, s, up);
    Rotate(Inorder(s.l), [s.x], Inorder(s.r), [p], Inorder(t));
    if !IsRed(s.l) && IsRed(s.r) {
      var a, b := Inorder(s.r.l), Inorder(s.r.r);
      Rotate(Inorder(s.l), [s.x], a, [s.r.x], b);
      Rotate(Inorder(s.l) + [s.x] + a, [s.r.x], b, [p], Inorder(t));
    }
    PlugSame(turn.t, Node(s, c, p, t), up);
  }

  lemma EraseTurnInorder<T>(t: Tree<T>, k: Ctx<T>)
    requires EraseReady(k)
    ensures var turn := EraseTurn(t, k); Inorder(Plug(turn.t, turn.k)) == Inorder(Plug(t, k))
  {
    match k
    case InL(c, p, s, up) =>
      if s.c.Red? {
        EraseLeftInorder(t, Red, p, Blacken(s.l), InL(c, s.x, s.r, up));
        Rotate(Inorder(t), [p], Inorder(s.l), [s.x], Inorder(s.r));
        PlugSame(Node(Node(t, Red, p, Blacken(s.l)), c, s.x, s.r), Node(t, c, p, s), up);
      } else {
        EraseLeftInorder(t, c, p, s, up);
      }
    case InR(s, c, p, up) =>
      if s.c.Red? {
        EraseRightInorder(t, Red, p, Blacken(s.r), InR(s.l, c, s.x, up));
        Rotate(Inorder(s.l), [s.x], Inorder(s.r), [p], Inorder(t));
        PlugSame(Node(s.l, c, s.x, Node(Blacken(s.r), Red, p, t)), Node(s, c, p, t), up);
      } else {
        EraseRightInorder(t, c, p, s, up);
      }
  }

  // ---------------------------------------------------------------- unlinking a node

  /** The context `inner` put below `outer`. */
  function Below<T>(inner: Ctx<T>, outer: Ctx<T>): Ctx<T> {
    match inner
    case Top => outer
    case InL(c, x, r, up) => InL(c, x, r, Below(up, outer))
    case InR(l, c, x, up) => InR(l, c, x, Below(up, outer))
  }

  /** The context of the leftmost node of `t`, whose own context is `k`. */
  function MinCtx<T>(t: Tree<T>, k: Ctx<T>): Ctx<T>
    requires t.Node?
    decreases t
  {
    if t.l.Leaf? then k else MinCtx(t.l, InL(t.c, t.x, t.r, k))
  }

  function Min<T>(t: Tree<T>): (m: Tree<T>)
    requires t.Node?
    ensures m.Node? && m.l.Leaf?
  {
    if t.l.Leaf? then t else Min(t.l)
  }

  /** What `__rb_erase` makes of node `t` in context `k`; `Again` asks for `__rb_erase_fix`. */
  function Unlink<T>(t: Tree<T>, k: Ctx<T>): Turn<T>
    requires t.Node?
  {
    if t.l.Leaf? then
      if t.r.Node? then Done(t.r.(c := t.c), k)
      else if t.c.Black? && !k.Top? then Again(Leaf, k)
      else Done(Leaf, k)
    else if t.r.Leaf? then Done(t.l.(c := t.c), k)
    else
      var m := Min(t.r);
      var k' := Below(MinCtx(t.r, Top), InR(t.l, t.c, m.x, k));
      if m.r.Node? then Done(Blacken(m.r), k')
      else if m.c.Black? then Again(Leaf, k')
      else Done(Leaf, k')
  }

  lemma {:induction false} MinCtxBelow<T>(t: Tree<T>, inner: Ctx<T>, outer: Ctx<T>)
    requires t.Node?
    ensures Below(MinCtx(t, inner), outer) == MinCtx(t, Below(inner, outer))
    decreases t
  {
    if t.l.Node? {
      MinCtxBelow(t.l, InL(t.c, t.x, t.r, inner), outer);
    }
  }

  lemma {:induction false} MinCtxOk<T>(t: Tree<T>, k: Ctx<T>, n: nat) returns (m: nat)
    requires t.Node? && RB(t, n) && CtxOk(k, n) && Fits(t, k) && !k.Top?
    ensures RB(Min(t), m) && CtxOk(MinCtx(t, k), m) && Fits(Min(t), MinCtx(t, k)) && !MinCtx(t, k).Top?
    decreases t
  {
    if t.l.Leaf? {
      m := n;
    } else {
      m := MinCtxOk(t.l, InL(t.c, t.x, t.r, k), if t.c.Black? then n - 1 else n);
    }
  }

  lemma {:induction false} UnlinkOk<T>(t: Tree<T>, k: Ctx<T>, n: nat) returns (m: nat)
    requires t.Node? && RB(t, n) && CtxOk(k, n) && Fits(t, k)
    ensures var turn := Unlink(t, k);
            && RB(turn.t, m)
            && (turn.Done? ==> CtxOk(turn.k, m) && Fits(turn.t, turn.k))
            && (turn.Again? ==> IsBlack(turn.t) && CtxOk(turn.k, m + 1) && !turn.k.Top?)
  {
    var turn := Unlink(t, k);
    if t.l.Leaf? || t.r.Leaf? {
      m := if turn.Again? then n - 1 else if turn.t.Leaf? && t.c.Black? then 0 else n;
    } else {
      var s := Min(t.r);
      var k' := InR(t.l, t.c, s.x, k);
      MinCtxBelow(t.r, Top, k');
      m := MinCtxOk(t.r, k', if t.c.Black? then n - 1 else n);
      if turn.Again? {
        m := m - 1;
      }
    }
  }

  lemma {:induction false} MinCtxInorder<T>(t: Tree<T>, k: Ctx<T>)
    requires t.Node?
    ensures Before(MinCtx(t, k)) == Before(k)
    ensures Inorder(t) + After(k) == [Min(t).x] + Inorder(Min(t).r) + After(MinCtx(t, k))
    decreases t
  {
    if t.l.Node? {
      MinCtxInorder(t.l, InL(t.c, t.x, t.r, k));
      assert Inorder(t.l) + [t.x] + Inorder(t.r) + After(k) == Inorder(t.l) + ([t.x] + Inorder(t.r) + After(k));
    }
  }

  lemma Splice<T>(b: seq<T>, m: seq<T>, u: seq<T>, v: seq<T>, r: seq<T>, a: seq<T>)
    requires r + a == m + u + v
    ensures b + m + u + v == b + r + a
  {
    assert b + m + u + v == b + (m + u + v);
    assert b + r + a == b + (r + a);
  }

  lemma {:induction false} UnlinkInnerInorder<T>(t: Tree<T>, k: Ctx<T>, K: Ctx<T>)
    requires t.Node? && t.r.Node? && K == MinCtx(t.r, InR(t.l, t.c, Min(t.r).x, k))
    ensures Before(K) + Inorder(Min(t.r).r) + After(K) == Before(k) + Inorder(t.l) + Inorder(t.r) + After(k)
  {
    var s := Min(t.r);
    MinCtxInorder(t.r, InR(t.l, t.c, s.x, k));
    Splice(Before(k) + Inorder(t.l), [s.x], Inorder(s.r), After(K), Inorder(t.r), After(k));
  }

  /** Unlinking removes the node's own element and keeps all the others in order. */
  lemma {:induction false} UnlinkInorder<T>(t: Tree<T>, k: Ctx<T>)
    requires t.Node?
    ensures var turn := Unlink(t, k);
            Inorder(Plug(turn.t, turn.k)) == Before(k) + Inorder(t.l) + Inorder(t.r) + After(k)
  {
    var turn := Unlink(t, k);
    InorderPlug(turn.t, turn.k);
    if t.l.Node? && t.r.Node? {
      MinCtxBelow(t.r, Top, InR(t.l, t.c, Min(t.r).x, k));
      UnlinkInnerInorder(t, k, turn.k);
    }
  }

  // ---------------------------------------------------------------- order

  ghost predicate Ordered<T>(less: (T, T) -> bool, s: seq<T>) {
    forall i, j :: 0 <= i < j < |s| ==> less(s[i], s[j])
  }

  /** `less` behaves as a strict order on the elements of `s`. */
  ghost predicate StrictOrder<T>(less: (T, T) -> bool, s: set<T>) {
    && (forall x :: x in s ==> !less(x, x))
    && (forall x, y, z :: x in s && y in s && z in s && less(x, y) && less(y, z) ==> less(x, z))
  }

  function Elements<T>(s: seq<T>): set<T> {
    set x | x in s
  }

  /** Neither of the two comes before the other. */
  predicate Same<T>(less: (T, T) -> bool, x: T, y: T) {
    !less(x, y) && !less(y, x)
  }

  datatype Search<T> = Found(t: Tree<T>, k: Ctx<T>) | Missing(k: Ctx<T>)

  /** The descent of `_rb_insert` and `_rb_lookup`: to an equal node, or to where `x` belongs. */
  function Descend<T>(less: (T, T) -> bool, x: T, t: Tree<T>, k: Ctx<T>): Search<T>
    decreases t
  {
    match t
    case Leaf => Missing(k)
    case Node(l, c, y, r) =>
      if less(x, y) then Descend(less, x, l, InL(c, y, r, k))
      else if less(y, x) then Descend(less, x, r, InR(l, c, y, k))
      else Found(t, k)
  }

  /** Everything outside the subtree is already known to lie on its side of `x`. */
  ghost predicate Brackets<T>(less: (T, T) -> bool, x: T, k: Ctx<T>) {
    (forall y :: y in Before(k) ==> less(y, x)) && (forall y :: y in After(k) ==> less(x, y))
  }

  lemma OrderedSplit<T>(less: (T, T) -> bool, a: seq<T>, x: T, b: seq<T>)
    requires Ordered(less, a + [x] + b)
    ensures forall y :: y in a ==> less(y, x)
    ensures forall y :: y in b ==> less(x, y)
  {
    var s := a + [x] + b;
    assert s[|a|] == x;
    assert forall i :: 0 <= i < |a| ==> s[i] == a[i];
    assert forall i :: 0 <= i < |b| ==> s[|a| + 1 + i] == b[i];
  }

  lemma OrderedParts<T>(less: (T, T) -> bool, t: Tree<T>, k: Ctx<T>)
    requires t.Node? && Ordered(less, Inorder(Plug(t, k)))
    ensures forall y :: y in Inorder(t.l) ==> less(y, t.x)
    ensures forall y :: y in Inorder(t.r) ==> less(t.x, y)
    ensures forall y :: y in Inorder(t) ==> y in Inorder(Plug(t, k))
  {
    InorderPlug(t, k);
    var a, b := Before(k) + Inorder(t.l), Inorder(t.r) + After(k);
    Regroup(Before(k), Inorder(t.l), [t.x], Inorder(t.r), After(k));
    assert a + [t.x] + b == Before(k) + Inorder(t.l) + ([t.x] + Inorder(t.r) + After(k));
    OrderedSplit(less, a, t.x, b);
  }

  lemma {:induction false} DescendOk<T>(less: (T, T) -> bool, x: T, t: Tree<T>, k: Ctx<T>)
    requires Ordered(less, Inorder(Plug(t, k))) && Brackets(less, x, k)
    requires StrictOrder(less, Elements(Inorder(Plug(t, k))) + {x})
    ensures match Descend(less, x, t, k)
            case Found(u, k') => u.Node? && Plug(u, k') == Plug(t, k) && Same(less, x, u.x)
            case Missing(k') => Plug(Leaf, k') == Plug(t, k) && Brackets(less, x, k')
    decreases t
  {
    if t.Node? {
      OrderedParts(less, t, k);
      assert t.x in Inorder(t);
      assert forall y :: y in Inorder(t) ==> y in Elements(Inorder(Plug(t, k)));
      if less(x, t.x) {
        forall y | y in After(InL(t.c, t.x, t.r, k))
          ensures less(x, y)
        {
          assert y == t.x || y in Inorder(t.r) || y in After(k);
        }
        DescendOk(less, x, t.l, InL(t.c, t.x, t.r, k));
      } else if less(t.x, x) {
        forall y | y in Before(InR(t.l, t.c, t.x, k))
          ensures less(y, x)
        {
          assert y == t.x || y in Inorder(t.l) || y in Before(k);
        }
        DescendOk(less, x, t.r, InR(t.l, t.c, t.x, k));
      }
    }
  }

  /** A descent finds an equal element exactly when the tree holds one. */
  lemma DescendFinds<T>(less: (T, T) -> bool, x: T, t: Tree<T>)
    requires Ordered(less, Inorder(t)) && StrictOrder(less, Elements(Inorder(t)) + {x})
    ensures Descend(less, x, t, Top).Found? <==> exists y :: y in Inorder(t) && Same(less, x, y)
  {
    DescendOk(less, x, t, Top);
    match Descend(less, x, t, Top)
    case Found(u, k) =>
      InorderPlug(u, k);
      assert u.x in Inorder(u);
    case Missing(k) =>
      InorderPlug(Leaf, k);
  }

  lemma OrderedJoin<T>(less: (T, T) -> bool, a: seq<T>, x: T, b: seq<T>)
    requires Ordered(less, a + b)
    requires (forall y :: y in a ==> less(y, x)) && (forall y :: y in b ==> less(x, y))
    ensures Ordered(less, a + [x] + b)
  {
    var s, t := a + b, a + [x] + b;
    forall i, j | 0 <= i < j < |t|
      ensures less(t[i], t[j])
    {
      if i == |a| {
        assert t[j] == b[j - |a| - 1];
      } else if j == |a| {
        assert t[i] == a[i];
      } else {
        var i', j' := if i < |a| then i else i - 1, if j < |a| then j else j - 1;
        assert s[i'] == t[i] && s[j'] == t[j];
      }
    }
  }

  /** The new node goes exactly between the elements before it and those after it. */
  lemma InsertOrdered<T>(less: (T, T) -> bool, x: T, k: Ctx<T>)
    requires Ordered(less, Inorder(Plug(Leaf, k))) && Brackets(less, x, k)
    ensures Inorder(Plug(Node(Leaf, Red, x, Leaf), k)) == Before(k) + [x] + After(k)
    ensures Ordered(less, Before(k) + [x] + After(k))
    ensures Inorder(Plug(Leaf, k)) == Before(k) + After(k)
  {
    InorderPlug(Leaf, k);
    InorderPlug(Node(Leaf, Red, x, Leaf), k);
    assert Before(k) + [] + After(k) == Before(k) + After(k);
    assert [] + [x] + [] == [x];
    OrderedJoin(less, Before(k), x, After(k));
  }

  // ---------------------------------------------------------------- height

  function Height<T>(t: Tree<T>): nat {
    match t
    case Leaf => 0
    case Node(l, _, _, r) => 1 + if Height(l) > Height(r) then Height(l) else Height(r)
  }

  lemma {:induction false} HeightBound<T>(t: Tree<T>, n: nat)
    requires RB(t, n)
    ensures Height(t) <= 2 * n + (if IsRed(t) then 1 else 0)
    ensures Pow2(n) <= |Inorder(t)| + 1
  {
    if t.Node? {
      var m := if t.c.Black? then n - 1 else n;
      HeightBound(t.l, m);
      HeightBound(t.r, m);
    }
  }

  lemma {:induction false} Pow2Monotone(a: nat, b: nat)
    requires a <= b
    ensures Pow2(a) <= Pow2(b)
    decreases b - a
  {
    if a < b {
      Pow2Monotone(a, b - 1);
    }
  }

  lemma {:induction false} Pow2Double(n: nat)
    ensures Pow2(2 * n) == Pow2(n) * Pow2(n)
  {
    if n > 0 {
      Pow2Double(n - 1);
      var p := Pow2(n - 1);
      assert Pow2(2 * n) == 2 * (2 * Pow2(2 * n - 2));
      assert Pow2(n) * Pow2(n) == (2 * p) * (2 * p) == 4 * (p * p);
    }
  }

  lemma SquareMonotone(p: nat, q: nat)
    requires p <= q
    ensures p * p <= q * q
  {
    assert p * p <= p * q && p * q <= q * q;
  }

  /** The height is at most twice the logarithm of the number of nodes plus one. */
  lemma {:induction false} Balanced<T>(t: Tree<T>)
    requires RedBlack(t)
    ensures Pow2(Height(t)) <= (|Inorder(t)| + 1) * (|Inorder(t)| + 1)
  {
    var n: nat :| RB(t, n);
    HeightBound(t, n);
    Pow2Monotone(Height(t), 2 * n);
    Pow2Double(n);
    SquareMonotone(Pow2(n), |Inorder(t)| + 1);
  }
}
