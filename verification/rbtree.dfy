/**
 The red-black tree of linked nodes with parent pointers, changed in place.

 Nodes are addresses into a memory; address 0 is the null pointer. The C code packs a node's
 parent and colour into one word; here they are two fields of its cell. Ghost variables
 carry the tree and the context that the pointers represent.
 */
module RbMemory {
  import opened Common
  import opened RbModel

  type Ptr = nat

  datatype Cell = Cell(left: Ptr, right: Ptr, parent: Ptr, color: Color)

  type Mem = map<Ptr, Cell>

  function Nodes(t: Tree<Ptr>): set<Ptr> {
    match t
    case Leaf => {}
    case Node(l, _, x, r) => Nodes(l) + {x} + Nodes(r)
  }

  function CtxNodes(k: Ctx<Ptr>): set<Ptr> {
    match k
    case Top => {}
    case InL(_, x, r, up) => {x} + Nodes(r) + CtxNodes(up)
    case InR(l, _, x, up) => {x} + Nodes(l) + CtxNodes(up)
  }

  /** Pointer `p`, stored in node `par`, is the root of tree `t`. */
  predicate IsTree(m: Mem, t: Tree<Ptr>, p: Ptr, par: Ptr) {
    match t
    case Leaf => p == 0
    case Node(l, c, x, r) =>
      && x != 0 && p == x && x in m && m[x].parent == par && m[x].color == c
      && IsTree(m, l, m[x].left, x) && IsTree(m, r, m[x].right, x)
  }

  /** Node `par` and all above it surround the pointer `hole` as `k` says. */
  predicate IsCtx(m: Mem, root: Ptr, k: Ctx<Ptr>, hole: Ptr, par: Ptr) {
    match k
    case Top => par == 0 && root == hole
    case InL(c, x, r, up) =>
      && x != 0 && par == x && x in m && m[x].left == hole && m[x].color == c
      && IsTree(m, r, m[x].right, x) && IsCtx(m, root, up, x, m[x].parent)
    case InR(l, c, x, up) =>
      && x != 0 && par == x && x in m && m[x].right == hole && m[x].color == c
      && IsTree(m, l, m[x].left, x) && IsCtx(m, root, up, x, m[x].parent)
  }

  /** No node occurs twice. */
  predicate Apart(t: Tree<Ptr>) {
    match t
    case Leaf => true
    case Node(l, _, x, r) => Apart(l) && Apart(r) && x !in Nodes(l) && x !in Nodes(r) && Nodes(l) !! Nodes(r)
  }

  predicate CtxApart(k: Ctx<Ptr>) {
    match k
    case Top => true
    case InL(_, x, r, up) =>
      Apart(r) && CtxApart(up) && x !in Nodes(r) && x !in CtxNodes(up) && Nodes(r) !! CtxNodes(up)
    case InR(l, _, x, up) =>
      Apart(l) && CtxApart(up) && x !in Nodes(l) && x !in CtxNodes(up) && Nodes(l) !! CtxNodes(up)
  }

  predicate Separate(t: Tree<Ptr>, k: Ctx<Ptr>) {
    Apart(t) && CtxApart(k) && Nodes(t) !! CtxNodes(k)
  }

  predicate EachFresh(s: seq<Ptr>) {
    s == [] || (s[0] !in s[1..] && EachFresh(s[1..]))
  }

  lemma {:induction false} FreshConcat(a: seq<Ptr>, b: seq<Ptr>)
    ensures EachFresh(a + b) <==> EachFresh(a) && EachFresh(b) && forall x :: x in a ==> x !in b
  {
    if a == [] {
      assert a + b == b;
    } else {
      assert a == [a[0]] + a[1..] && (a + b)[1..] == a[1..] + b;
      FreshConcat(a[1..], b);
    }
  }

  /** A tree names each node once exactly when its in-order sequence has no repetition. */
  lemma {:induction false} ApartInorder(t: Tree<Ptr>)
    ensures Apart(t) <==> EachFresh(Inorder(t))
    ensures forall x :: x in Nodes(t) <==> x in Inorder(t)
  {
    if t.Node? {
      ApartInorder(t.l);
      ApartInorder(t.r);
      FreshConcat(Inorder(t.l) + [t.x], Inorder(t.r));
      FreshConcat(Inorder(t.l), [t.x]);
    }
  }

  lemma {:induction false} SeparatePlug(t: Tree<Ptr>, k: Ctx<Ptr>)
    ensures Separate(t, k) <==> Apart(Plug(t, k))
    ensures Nodes(Plug(t, k)) == Nodes(t) + CtxNodes(k)
    decreases k
  {
    match k
    case Top =>
    case InL(c, x, r, up) => SeparatePlug(Node(t, c, x, r), up);
    case InR(l, c, x, up) => SeparatePlug(Node(l, c, x, t), up);
  }

  /** Rearranging a tree without changing its in-order sequence keeps its nodes apart. */
  lemma {:induction false} KeepsSeparate(t: Tree<Ptr>, k: Ctx<Ptr>, t': Tree<Ptr>, k': Ctx<Ptr>)
    requires Separate(t, k) && Inorder(Plug(t', k')) == Inorder(Plug(t, k))
    ensures Separate(t', k') && Nodes(t') + CtxNodes(k') == Nodes(t) + CtxNodes(k)
  {
    SeparatePlug(t, k);
    SeparatePlug(t', k');
    ApartInorder(Plug(t, k));
    ApartInorder(Plug(t', k'));
  }

  /** The parts of a tree whose left child is a node have no node in common. */
  lemma PartsLeft(t: Tree<Ptr>, k: Ctx<Ptr>)
    requires Separate(t, k) && t.Node? && t.l.Node?
    ensures var a, x, b, y, c := t.l.l, t.l.x, t.l.r, t.x, t.r;
            && Apart(a) && Apart(b) && Apart(c) && CtxApart(k) && x != y
            && Nodes(a) !! Nodes(b) && Nodes(a) !! Nodes(c) && Nodes(b) !! Nodes(c)
            && {x, y} !! Nodes(a) && {x, y} !! Nodes(b) && {x, y} !! Nodes(c) && {x, y} !! CtxNodes(k)
            && Nodes(a) !! CtxNodes(k) && Nodes(b) !! CtxNodes(k) && Nodes(c) !! CtxNodes(k)
  {
    assert Apart(t.l) && Nodes(t.l) == Nodes(t.l.l) + {t.l.x} + Nodes(t.l.r);
  }

  lemma PartsRight(t: Tree<Ptr>, k: Ctx<Ptr>)
    requires Separate(t, k) && t.Node? && t.r.Node?
    ensures var a, x, b, y, c := t.l, t.x, t.r.l, t.r.x, t.r.r;
            && Apart(a) && Apart(b) && Apart(c) && CtxApart(k) && x != y
            && Nodes(a) !! Nodes(b) && Nodes(a) !! Nodes(c) && Nodes(b) !! Nodes(c)
            && {x, y} !! Nodes(a) && {x, y} !! Nodes(b) && {x, y} !! Nodes(c) && {x, y} !! CtxNodes(k)
            && Nodes(a) !! CtxNodes(k) && Nodes(b) !! CtxNodes(k) && Nodes(c) !! CtxNodes(k)
  {
    assert Apart(t.r) && Nodes(t.r) == Nodes(t.r.l) + {t.r.x} + Nodes(t.r.r);
  }

  // ---------------------------------------------------------------- folded forms

  /** Mentioning `Unfold` opens the predicates below, which most proofs only pass along. */
  ghost predicate Unfold(n: nat) {
    true
  }

  ghost predicate Holds(m: Mem, t: Tree<Ptr>, p: Ptr, par: Ptr) {
    forall n: nat :: Unfold(n) ==> IsTree(m, t, p, par)
  }

  ghost predicate Around(m: Mem, root: Ptr, k: Ctx<Ptr>, hole: Ptr, par: Ptr) {
    forall n: nat :: Unfold(n) ==> IsCtx(m, root, k, hole, par)
  }

  ghost predicate Distinct(t: Tree<Ptr>, k: Ctx<Ptr>) {
    forall n: nat :: Unfold(n) ==> Separate(t, k)
  }

  /** The pointers `node` and `par` stand for the place between `t` and `k`. */
  ghost predicate At(m: Mem, root: Ptr, t: Tree<Ptr>, k: Ctx<Ptr>, node: Ptr, par: Ptr) {
    Holds(m, t, node, par) && Around(m, root, k, node, par) && Distinct(t, k)
  }

  /** As `At`, but the pointer to a root still to be installed may be missing. */
  ghost predicate Near(m: Mem, root: Ptr, t: Tree<Ptr>, k: Ctx<Ptr>, node: Ptr, par: Ptr) {
    Holds(m, t, node, par) && Distinct(t, k) && if k.Top? then par == 0 else Around(m, root, k, node, par)
  }

  /** Memories that differ at most at the nodes `xs`. */
  ghost predicate Changes(m: Mem, m': Mem, xs: set<Ptr>) {
    forall x :: x in m && x !in xs ==> x in m' && m'[x] == m[x]
  }

  lemma {:induction false} SameTree(m: Mem, m': Mem, xs: set<Ptr>, t: Tree<Ptr>, p: Ptr, par: Ptr)
    requires IsTree(m, t, p, par) && Changes(m, m', xs) && Nodes(t) !! (xs - {0})
    ensures IsTree(m', t, p, par)
  {
    if t.Node? {
      SameTree(m, m', xs, t.l, m[p].left, p);
      SameTree(m, m', xs, t.r, m[p].right, p);
    }
  }

  lemma {:induction false} SameCtx(m: Mem, m': Mem, xs: set<Ptr>, root: Ptr, k: Ctx<Ptr>, hole: Ptr, par: Ptr)
    requires IsCtx(m, root, k, hole, par) && Changes(m, m', xs) && CtxNodes(k) !! (xs - {0})
    ensures IsCtx(m', root, k, hole, par)
  {
    match k
    case Top =>
    case InL(_, x, r, up) =>
      SameTree(m, m', xs, r, m[x].right, x);
      SameCtx(m, m', xs, root, up, x, m[x].parent);
    case InR(l, _, x, up) =>
      SameTree(m, m', xs, l, m[x].left, x);
      SameCtx(m, m', xs, root, up, x, m[x].parent);
  }

  lemma KeepTree(m: Mem, m': Mem, xs: set<Ptr>, t: Tree<Ptr>, p: Ptr, par: Ptr)
    requires Holds(m, t, p, par) && Changes(m, m', xs) && Nodes(t) !! (xs - {0})
    ensures Holds(m', t, p, par)
  {
    assert Unfold(0);
    SameTree(m, m', xs, t, p, par);
  }

  lemma KeepCtx(m: Mem, m': Mem, xs: set<Ptr>, root: Ptr, k: Ctx<Ptr>, hole: Ptr, par: Ptr)
    requires Around(m, root, k, hole, par) && Changes(m, m', xs) && CtxNodes(k) !! (xs - {0})
    ensures Around(m', root, k, hole, par)
  {
    assert Unfold(0);
    SameCtx(m, m', xs, root, k, hole, par);
  }

  /** Blackening and rehanging the root of a tree leaves the rest of it alone. */
  lemma Rehang(m: Mem, m': Mem, xs: set<Ptr>, t: Tree<Ptr>, p: Ptr, par: Ptr, par': Ptr, c: Color)
    requires Holds(m, t, p, par) && Apart(t) && Changes(m, m', xs) && Nodes(t) !! (xs - {0, p})
    requires t.Node? ==> p in m && p in m' && m'[p] == m[p].(parent := par', color := c)
    ensures Holds(m', if t.Node? then t.(c := c) else t, p, par')
  {
    assert Unfold(0);
    if t.Node? {
      SameTree(m, m', xs, t.l, m[p].left, p);
      SameTree(m, m', xs, t.r, m[p].right, p);
    }
  }

  /** A node and its two subtrees make a tree. */
  lemma Join(m: Mem, l: Tree<Ptr>, c: Color, x: Ptr, r: Tree<Ptr>, par: Ptr)
    requires x != 0 && x in m && m[x].parent == par && m[x].color == c
    requires Holds(m, l, m[x].left, x) && Holds(m, r, m[x].right, x)
    ensures Holds(m, Node(l, c, x, r), x, par)
  {
    assert Unfold(0);
  }

  lemma Split(m: Mem, t: Tree<Ptr>, p: Ptr, par: Ptr)
    requires Holds(m, t, p, par)
    ensures t.Leaf? <==> p == 0
    ensures t.Node? ==>
              && t.x == p && p in m && m[p].parent == par && m[p].color == t.c && p in Nodes(t)
              && Holds(m, t.l, m[p].left, p) && Holds(m, t.r, m[p].right, p)
  {
    assert Unfold(0);
  }

  /** One level of the context, spelled out. */
  lemma OpenLeft(m: Mem, root: Ptr, t: Tree<Ptr>, k: Ctx<Ptr>, node: Ptr, par: Ptr)
    requires At(m, root, t, k, node, par) && k.InL?
    ensures par == k.x && par != 0 && par in m && m[par].left == node && m[par].color == k.c
    ensures At(m, root, Node(t, k.c, k.x, k.r), k.up, par, m[par].parent)
    ensures Holds(m, k.r, m[par].right, par) && Apart(k.r) && Apart(t)
    ensures Nodes(t) !! Nodes(k.r) && par !in Nodes(t) && par !in Nodes(k.r)
    ensures par !in CtxNodes(k.up) && Nodes(k.r) !! CtxNodes(k.up) && Nodes(t) !! CtxNodes(k.up)
  {
    assert Unfold(0);
  }

  lemma OpenRight(m: Mem, root: Ptr, t: Tree<Ptr>, k: Ctx<Ptr>, node: Ptr, par: Ptr)
    requires At(m, root, t, k, node, par) && k.InR?
    ensures par == k.x && par != 0 && par in m && m[par].right == node && m[par].color == k.c
    ensures At(m, root, Node(k.l, k.c, k.x, t), k.up, par, m[par].parent)
    ensures Holds(m, k.l, m[par].left, par) && Apart(k.l) && Apart(t)
    ensures Nodes(t) !! Nodes(k.l) && par !in Nodes(t) && par !in Nodes(k.l)
    ensures par !in CtxNodes(k.up) && Nodes(k.l) !! CtxNodes(k.up) && Nodes(t) !! CtxNodes(k.up)
  {
    assert Unfold(0);
  }

  lemma AboveIsThere(m: Mem, root: Ptr, t: Tree<Ptr>, k: Ctx<Ptr>, node: Ptr, par: Ptr)
    requires Near(m, root, t, k, node, par) || At(m, root, t, k, node, par)
    ensures k.Top? <==> par == 0
    ensures !k.Top? ==> par in CtxNodes(k) && par in m && par !in Nodes(t) && par == k.x && m[par].color == k.c
    ensures Apart(t) && CtxApart(k) && Nodes(t) !! CtxNodes(k)
  {
    assert Unfold(0);
  }

  lemma StayDistinct(t: Tree<Ptr>, k: Ctx<Ptr>, t': Tree<Ptr>, k': Ctx<Ptr>)
    requires Distinct(t, k) && Inorder(Plug(t', k')) == Inorder(Plug(t, k))
    ensures Distinct(t', k')
  {
    assert Unfold(0);
    KeepsSeparate(t, k, t', k');
  }

  // ---------------------------------------------------------------- field updates

  function SetLeft(m: Mem, x: Ptr, v: Ptr): Mem
    requires x in m
  {
    m[x := m[x].(left := v)]
  }

  function SetRight(m: Mem, x: Ptr, v: Ptr): Mem
    requires x in m
  {
    m[x := m[x].(right := v)]
  }

  function SetParentColor(m: Mem, x: Ptr, p: Ptr, c: Color): Mem
    requires x in m
  {
    m[x := m[x].(parent := p, color := c)]
  }

  /** Gives a child that is there its new parent, in black. */
  function SetBlackChild(m: Mem, x: Ptr, p: Ptr): Mem
    requires x == 0 || x in m
  {
    if x == 0 then m else SetParentColor(m, x, p, Black)
  }

  datatype Linked = Linked(m: Mem, root: Ptr)

  /** `__rb_change_child` */
  function ChangeChild(m: Mem, root: Ptr, old_: Ptr, new_: Ptr, par: Ptr): Linked
    requires par == 0 || par in m
  {
    if par == 0 then Linked(m, new_)
    else if m[par].left == old_ then Linked(SetLeft(m, par, new_), root)
    else Linked(SetRight(m, par, new_), root)
  }

  /** `__rb_rotate_set_parents` */
  function RotateSetParents(m: Mem, root: Ptr, old_: Ptr, new_: Ptr, c: Color): Linked
    requires old_ in m && new_ in m && (m[old_].parent == 0 || m[old_].parent in m)
  {
    var m1 := SetParentColor(m, new_, m[old_].parent, m[old_].color);
    var m2 := SetParentColor(m1, old_, new_, c);
    ChangeChild(m2, root, old_, new_, m[old_].parent)
  }

  lemma ChangeChildOk(m: Mem, root: Ptr, k: Ctx<Ptr>, old_: Ptr, new_: Ptr, par: Ptr)
    requires Around(m, root, k, old_, par) && CtxApart(k) && old_ != 0 && old_ !in CtxNodes(k)
    ensures par == 0 || par in m
    ensures var r := ChangeChild(m, root, old_, new_, par);
            Around(r.m, r.root, k, new_, par) && r.m.Keys == m.Keys && Changes(m, r.m, CtxNodes(k))
  {
    assert Unfold(0);
    var r := ChangeChild(m, root, old_, new_, par);
    match k
    case Top =>
    case InL(_, x, sib, up) =>
      SameTree(m, r.m, {x}, sib, m[x].right, x);
      SameCtx(m, r.m, {x}, root, up, x, m[x].parent);
    case InR(sib, _, x, up) =>
      assert m[x].left != old_ by {
        assert sib.Leaf? || m[x].left in Nodes(sib);
      }
      SameTree(m, r.m, {x}, sib, m[x].left, x);
      SameCtx(m, r.m, {x}, root, up, x, m[x].parent);
  }

  lemma RotateOk(m: Mem, root: Ptr, k: Ctx<Ptr>, old_: Ptr, new_: Ptr, c: Color)
    requires old_ in m && new_ in m && old_ != new_ && old_ != 0 && new_ != 0
    requires Around(m, root, k, old_, m[old_].parent) && CtxApart(k)
    requires old_ !in CtxNodes(k) && new_ !in CtxNodes(k)
    ensures m[old_].parent == 0 || m[old_].parent in m
    ensures var r := RotateSetParents(m, root, old_, new_, c);
            && Around(r.m, r.root, k, new_, m[old_].parent) && r.m.Keys == m.Keys
            && r.m[new_] == m[new_].(parent := m[old_].parent, color := m[old_].color)
            && r.m[old_] == m[old_].(parent := new_, color := c)
            && Changes(m, r.m, CtxNodes(k) + {old_, new_})
  {
    var par := m[old_].parent;
    var m1 := SetParentColor(m, new_, par, m[old_].color);
    var m2 := SetParentColor(m1, old_, new_, c);
    KeepCtx(m, m2, {old_, new_}, root, k, old_, par);
    ChangeChildOk(m2, root, k, old_, new_, par);
  }

  function Self(p: Ptr): set<Ptr> {
    if p == 0 then {} else {p}
  }

  /** Sequence `s'` is `s` with `x` added somewhere. */
  ghost predicate InsertedInto(s: seq<Ptr>, x: Ptr, s': seq<Ptr>) {
    exists a, b :: s == a + b && s' == a + [x] + b
  }

  class RbTree {
    var mem: Mem
    var root: Ptr
    ghost var tree: Tree<Ptr>

    /** The memory holds a red-black tree whose nodes are in order and which occur once each. */
    ghost predicate Valid(less: (Ptr, Ptr) -> bool)
      reads this
    {
      Holds(mem, tree, root, 0) && Apart(tree) && RedBlack(tree) && Ordered(less, Inorder(tree))
    }

    /** An empty tree over the memory in which nodes will live. */
    constructor (m: Mem, less: (Ptr, Ptr) -> bool)
      ensures Valid(less) && tree == Leaf && mem == m
    {
      mem, root, tree := m, 0, Leaf;
      assert RB<Ptr>(Leaf, 0);
    }

    // ------------------------------------------------------------ rotations

    /** The code of case 3: `child`, left of `top`, takes its place, with `tmp` moved across and blackened. */
    method SwingRight(child: Ptr, top: Ptr, tmp: Ptr, ghost up: Ctx<Ptr>)
      requires child != 0 && top != 0 && child != top && tmp != child && tmp != top
      requires child in mem && top in mem && (tmp == 0 || tmp in mem)
      requires Around(mem, root, up, top, mem[top].parent) && CtxApart(up)
      requires child !in CtxNodes(up) && top !in CtxNodes(up) && (tmp != 0 ==> tmp !in CtxNodes(up))
      modifies this
      ensures mem.Keys == old(mem.Keys)
      ensures mem[top] == Cell(tmp, old(mem[top].right), child, Red)
      ensures mem[child] == Cell(old(mem[child].left), top, old(mem[top].parent), old(mem[top].color))
      ensures tmp != 0 ==> mem[tmp] == old(mem[tmp]).(parent := top, color := Black)
      ensures Around(mem, root, up, child, mem[child].parent)
      ensures Changes(old(mem), mem, {top, child, tmp} + CtxNodes(up))
    {
      ghost var m := mem;
      mem := SetLeft(mem, top, tmp);
      mem := SetBlackChild(mem, tmp, top);
      mem := SetRight(mem, child, top);
      KeepCtx(m, mem, {top, child, tmp}, root, up, top, m[top].parent);
      RotateOk(mem, root, up, top, child, Red);
      var r := RotateSetParents(mem, root, top, child, Red);
      mem, root := r.m, r.root;
    }

    method SwingLeft(child: Ptr, top: Ptr, tmp: Ptr, ghost up: Ctx<Ptr>)
      requires child != 0 && top != 0 && child != top && tmp != child && tmp != top
      requires child in mem && top in mem && (tmp == 0 || tmp in mem)
      requires Around(mem, root, up, top, mem[top].parent) && CtxApart(up)
      requires child !in CtxNodes(up) && top !in CtxNodes(up) && (tmp != 0 ==> tmp !in CtxNodes(up))
      modifies this
      ensures mem.Keys == old(mem.Keys)
      ensures mem[top] == Cell(old(mem[top].left), tmp, child, Red)
      ensures mem[child] == Cell(top, old(mem[child].right), old(mem[top].parent), old(mem[top].color))
      ensures tmp != 0 ==> mem[tmp] == old(mem[tmp]).(parent := top, color := Black)
      ensures Around(mem, root, up, child, mem[child].parent)
      ensures Changes(old(mem), mem, {top, child, tmp} + CtxNodes(up))
    {
      ghost var m := mem;
      mem := SetRight(mem, top, tmp);
      mem := SetBlackChild(mem, tmp, top);
      mem := SetLeft(mem, child, top);
      KeepCtx(m, mem, {top, child, tmp}, root, up, top, m[top].parent);
      RotateOk(mem, root, up, top, child, Red);
      var r := RotateSetParents(mem, root, top, child, Red);
      mem, root := r.m, r.root;
    }

    /** The code of case 2: `node`, right of `parent`, becomes its parent, with `tmp` moved across. */
    method RaiseRight(node: Ptr, parent: Ptr, tmp: Ptr)
      requires node != parent && tmp != node && tmp != parent
      requires node in mem && parent in mem && (tmp == 0 || tmp in mem)
      modifies this`mem
      ensures mem.Keys == old(mem.Keys)
      ensures mem[parent] == Cell(old(mem[parent].left), tmp, node, Red)
      ensures mem[node] == old(mem[node]).(left := parent)
      ensures tmp != 0 ==> mem[tmp] == old(mem[tmp]).(parent := parent, color := Black)
      ensures Changes(old(mem), mem, {parent, node, tmp})
    {
      mem := SetRight(mem, parent, tmp);
      mem := SetBlackChild(mem, tmp, parent);
      mem := SetLeft(mem, node, parent);
      mem := SetParentColor(mem, parent, node, Red);
    }

    method RaiseLeft(node: Ptr, parent: Ptr, tmp: Ptr)
      requires node != parent && tmp != node && tmp != parent
      requires node in mem && parent in mem && (tmp == 0 || tmp in mem)
      modifies this`mem
      ensures mem.Keys == old(mem.Keys)
      ensures mem[parent] == Cell(tmp, old(mem[parent].right), node, Red)
      ensures mem[node] == old(mem[node]).(right := parent)
      ensures tmp != 0 ==> mem[tmp] == old(mem[tmp]).(parent := parent, color := Black)
      ensures Changes(old(mem), mem, {parent, node, tmp})
    {
      mem := SetLeft(mem, parent, tmp);
      mem := SetBlackChild(mem, tmp, parent);
      mem := SetRight(mem, node, parent);
      mem := SetParentColor(mem, parent, node, Red);
    }

    // ------------------------------------------------------------ insertion repair

    /** The loop stops here: `turn` describes the tree around the pointer to its subtree. */
    ghost predicate Reached(turn: Turn<Ptr>)
      reads this
    {
      turn.t.Node? && turn.t.x in mem && At(mem, root, turn.t, turn.k, turn.t.x, mem[turn.t.x].parent)
    }

    /**
     Case 3 with the parent to the left: one rotation to the right. The grandparent's pointer to
     the parent is not read, so it need not be up to date.
     */
    method InsertRotateRight(node: Ptr, parent: Ptr, gparent: Ptr,
                             ghost t: Tree<Ptr>, ghost pr: Tree<Ptr>, ghost u: Tree<Ptr>, ghost up: Ctx<Ptr>)
      requires parent in mem && gparent in mem && parent != 0 && gparent != 0
      requires Holds(mem, t, node, parent) && mem[parent].left == node && Holds(mem, pr, mem[parent].right, parent)
      requires Holds(mem, u, mem[gparent].right, gparent) && Around(mem, root, up, gparent, mem[gparent].parent)
      requires Separate(Node(Node(t, Red, parent, pr), Red, gparent, u), up)
      modifies this
      ensures mem.Keys == old(mem.Keys)
      ensures Holds(mem, Node(t, old(mem[gparent].color), parent, Node(Blacken(pr), Red, gparent, u)),
                    parent, mem[parent].parent)
      ensures Around(mem, root, up, parent, mem[parent].parent)
    {
      ghost var m := mem;
      PartsLeft(Node(Node(t, Red, parent, pr), Red, gparent, u), up);
      var tmp := mem[parent].right;
      Split(m, pr, tmp, parent);
      SwingRight(parent, gparent, tmp, up);
      ghost var xs := {gparent, parent, tmp} + CtxNodes(up);
      KeepTree(m, mem, xs, t, node, parent);
      KeepTree(m, mem, xs, u, m[gparent].right, gparent);
      Rehang(m, mem, xs, pr, tmp, parent, gparent, Black);
      Join(mem, Blacken(pr), Red, gparent, u, parent);
      Join(mem, t, m[gparent].color, parent, Node(Blacken(pr), Red, gparent, u), m[gparent].parent);
    }

    method InsertRotateLeft(node: Ptr, parent: Ptr, gparent: Ptr,
                            ghost t: Tree<Ptr>, ghost pl: Tree<Ptr>, ghost u: Tree<Ptr>, ghost up: Ctx<Ptr>)
      requires parent in mem && gparent in mem && parent != 0 && gparent != 0
      requires Holds(mem, t, node, parent) && mem[parent].right == node && Holds(mem, pl, mem[parent].left, parent)
      requires Holds(mem, u, mem[gparent].left, gparent) && Around(mem, root, up, gparent, mem[gparent].parent)
      requires Separate(Node(u, Red, gparent, Node(pl, Red, parent, t)), up)
      modifies this
      ensures mem.Keys == old(mem.Keys)
      ensures Holds(mem, Node(Node(u, Red, gparent, Blacken(pl)), old(mem[gparent].color), parent, t),
                    parent, mem[parent].parent)
      ensures Around(mem, root, up, parent, mem[parent].parent)
    {
      ghost var m := mem;
      PartsRight(Node(u, Red, gparent, Node(pl, Red, parent, t)), up);
      var tmp := mem[parent].left;
      Split(m, pl, tmp, parent);
      SwingLeft(parent, gparent, tmp, up);
      ghost var xs := {gparent, parent, tmp} + CtxNodes(up);
      KeepTree(m, mem, xs, t, node, parent);
      KeepTree(m, mem, xs, u, m[gparent].left, gparent);
      Rehang(m, mem, xs, pl, tmp, parent, gparent, Black);
      Join(mem, u, Red, gparent, Blacken(pl), parent);
      Join(mem, Node(u, Red, gparent, Blacken(pl)), m[gparent].color, parent, t, m[gparent].parent);
    }

    method InsertOuterRight(node: Ptr, parent: Ptr, gparent: Ptr, ghost t: Tree<Ptr>, ghost k: Ctx<Ptr>)
      requires k.InL? && k.c.Red? && k.up.InL? && !IsRed(k.up.r) && IsRed(t)
      requires At(mem, root, t, k, node, parent) && parent in mem && mem[parent].parent == gparent
      modifies this
      ensures Reached(InsertTurn(t, k)) && mem.Keys == old(mem.Keys)
    {
      InsertTurnInorder(t, k);
      StayDistinct(t, k, InsertTurn(t, k).t, k.up.up);
      OpenLeft(mem, root, t, k, node, parent);
      OpenLeft(mem, root, Node(t, k.c, k.x, k.r), k.up, parent, gparent);
      assert Unfold(0);
      InsertRotateRight(node, parent, gparent, t, k.r, k.up.r, k.up.up);
    }

    method InsertOuterLeft(node: Ptr, parent: Ptr, gparent: Ptr, ghost t: Tree<Ptr>, ghost k: Ctx<Ptr>)
      requires k.InR? && k.c.Red? && k.up.InR? && !IsRed(k.up.l) && IsRed(t)
      requires At(mem, root, t, k, node, parent) && parent in mem && mem[parent].parent == gparent
      modifies this
      ensures Reached(InsertTurn(t, k)) && mem.Keys == old(mem.Keys)
    {
      InsertTurnInorder(t, k);
      StayDistinct(t, k, InsertTurn(t, k).t, k.up.up);
      OpenRight(mem, root, t, k, node, parent);
      OpenRight(mem, root, Node(k.l, k.c, k.x, t), k.up, parent, gparent);
      assert Unfold(0);
      InsertRotateLeft(node, parent, gparent, t, k.l, k.up.l, k.up.up);
    }

    /** Cases 2 and 3 together: the node rises above its parent, then above its grandparent. */
    method InsertInnerRight(node: Ptr, parent: Ptr, gparent: Ptr, ghost t: Tree<Ptr>, ghost k: Ctx<Ptr>)
      requires k.InR? && k.c.Red? && k.up.InL? && !IsRed(k.up.r) && IsRed(t)
      requires At(mem, root, t, k, node, parent) && parent in mem && mem[parent].parent == gparent
      modifies this
      ensures Reached(InsertTurn(t, k)) && mem.Keys == old(mem.Keys)
    {
      ghost var m := mem;
      ghost var pl, u, up := k.l, k.up.r, k.up.up;
      InsertTurnInorder(t, k);
      StayDistinct(t, k, InsertTurn(t, k).t, up);
      OpenRight(m, root, t, k, node, parent);
      OpenLeft(m, root, Node(pl, k.c, k.x, t), k.up, parent, gparent);
      AboveIsThere(m, root, Node(Node(pl, k.c, k.x, t), k.up.c, gparent, u), up, gparent, m[gparent].parent);
      Split(m, t, node, parent);
      var tmp := mem[node].left;
      Split(m, t.l, tmp, node);
      RaiseRight(node, parent, tmp);
      ghost var xs := {parent, node, tmp};
      KeepCtx(m, mem, xs, root, up, gparent, m[gparent].parent);
      KeepTree(m, mem, xs, pl, m[parent].left, parent);
      KeepTree(m, mem, xs, u, m[gparent].right, gparent);
      KeepTree(m, mem, xs, t.r, m[node].right, node);
      Rehang(m, mem, xs, t.l, tmp, node, parent, Black);
      Join(mem, pl, Red, parent, Blacken(t.l), node);
      Rotate(Inorder(pl), [parent], Inorder(t.l), [node], Inorder(t.r));
      assert Inorder(Node(pl, k.c, parent, t)) == Inorder(Node(Node(pl, Red, parent, Blacken(t.l)), Red, node, t.r));
      InnerSeparate(Node(Node(pl, k.c, parent, t), k.up.c, gparent, u), up,
                    Node(Node(Node(pl, Red, parent, Blacken(t.l)), Red, node, t.r), Red, gparent, u));
      InsertRotateRight(parent, node, gparent, Node(pl, Red, parent, Blacken(t.l)), t.r, u, up);
    }

    method InsertInnerLeft(node: Ptr, parent: Ptr, gparent: Ptr, ghost t: Tree<Ptr>, ghost k: Ctx<Ptr>)
      requires k.InL? && k.c.Red? && k.up.InR? && !IsRed(k.up.l) && IsRed(t)
      requires At(mem, root, t, k, node, parent) && parent in mem && mem[parent].parent == gparent
      modifies this
      ensures Reached(InsertTurn(t, k)) && mem.Keys == old(mem.Keys)
    {
      ghost var m := mem;
      ghost var pr, u, up := k.r, k.up.l, k.up.up;
      InsertTurnInorder(t, k);
      StayDistinct(t, k, InsertTurn(t, k).t, up);
      OpenLeft(m, root, t, k, node, parent);
      OpenRight(m, root, Node(t, k.c, k.x, pr), k.up, parent, gparent);
      AboveIsThere(m, root, Node(u, k.up.c, gparent, Node(t, k.c, k.x, pr)), up, gparent, m[gparent].parent);
      Split(m, t, node, parent);
      var tmp := mem[node].right;
      Split(m, t.r, tmp, node);
      RaiseLeft(node, parent, tmp);
      ghost var xs := {parent, node, tmp};
      KeepCtx(m, mem, xs, root, up, gparent, m[gparent].parent);
      KeepTree(m, mem, xs, pr, m[parent].right, parent);
      KeepTree(m, mem, xs, u, m[gparent].left, gparent);
      KeepTree(m, mem, xs, t.l, m[node].left, node);
      Rehang(m, mem, xs, t.r, tmp, node, parent, Black);
      Join(mem, Blacken(t.r), Red, parent, pr, node);
      Rotate(Inorder(t.l), [node], Inorder(t.r), [parent], Inorder(pr));
      assert Inorder(Node(t, k.c, parent, pr)) == Inorder(Node(t.l, Red, node, Node(Blacken(t.r), Red, parent, pr)));
      InnerSeparate(Node(u, k.up.c, gparent, Node(t, k.c, parent, pr)), up,
                    Node(u, Red, gparent, Node(t.l, Red, node, Node(Blacken(t.r), Red, parent, pr))));
      InsertRotateLeft(parent, node, gparent, Node(Blacken(t.r), Red, parent, pr), t.l, u, up);
    }

    /** Case 1: a red uncle lets the colours move up. */
    method InsertRecolor(parent: Ptr, gparent: Ptr, uncle: Ptr)
      requires parent in mem && gparent in mem && uncle in mem
      requires parent != gparent && parent != uncle && gparent != uncle
      modifies this`mem
      ensures mem.Keys == old(mem.Keys) && Changes(old(mem), mem, {parent, gparent, uncle})
      ensures mem[uncle] == old(mem[uncle]).(parent := gparent, color := Black)
      ensures mem[parent] == old(mem[parent]).(parent := gparent, color := Black)
      ensures mem[gparent] == old(mem[gparent]).(color := Red)
    {
      mem := SetParentColor(mem, uncle, gparent, Black);
      mem := SetParentColor(mem, parent, gparent, Black);
      mem := SetParentColor(mem, gparent, mem[gparent].parent, Red);
    }

    method InsertRecolorLeft(node: Ptr, parent: Ptr, gparent: Ptr, uncle: Ptr, ghost t: Tree<Ptr>, ghost k: Ctx<Ptr>)
      requires RedAbove(k) && k.up.InL? && IsRed(k.up.r) && IsRed(t)
      requires At(mem, root, t, k, node, parent) && parent in mem && mem[parent].parent == gparent
      requires gparent in mem && mem[gparent].right == uncle
      modifies this
      ensures Reached(InsertTurn(t, k)) && mem.Keys == old(mem.Keys)
    {
      ghost var m := mem;
      ghost var u, up := k.up.r, k.up.up;
      InsertTurnInorder(t, k);
      StayDistinct(t, k, InsertTurn(t, k).t, up);
      ghost var inner := if k.InL? then Node(t, Red, parent, k.r) else Node(k.l, Red, parent, t);
      if k.InL? {
        OpenLeft(m, root, t, k, node, parent);
      } else {
        OpenRight(m, root, t, k, node, parent);
      }
      OpenLeft(m, root, inner, k.up, parent, gparent);
      AboveIsThere(m, root, Node(inner, k.up.c, gparent, u), up, gparent, m[gparent].parent);
      Split(m, u, uncle, gparent);
      InsertRecolor(parent, gparent, uncle);
      ghost var xs := {parent, gparent, uncle};
      KeepCtx(m, mem, xs, root, up, gparent, m[gparent].parent);
      Rehang(m, mem, xs, inner, parent, gparent, gparent, Black);
      Rehang(m, mem, xs, u, uncle, gparent, gparent, Black);
      Join(mem, Blacken(inner), Red, gparent, Blacken(u), m[gparent].parent);
    }

    method InsertRecolorRight(node: Ptr, parent: Ptr, gparent: Ptr, uncle: Ptr, ghost t: Tree<Ptr>, ghost k: Ctx<Ptr>)
      requires RedAbove(k) && k.up.InR? && IsRed(k.up.l) && IsRed(t)
      requires At(mem, root, t, k, node, parent) && parent in mem && mem[parent].parent == gparent
      requires gparent in mem && mem[gparent].left == uncle
      modifies this
      ensures Reached(InsertTurn(t, k)) && mem.Keys == old(mem.Keys)
    {
      ghost var m := mem;
      ghost var u, up := k.up.l, k.up.up;
      InsertTurnInorder(t, k);
      StayDistinct(t, k, InsertTurn(t, k).t, up);
      ghost var inner := if k.InL? then Node(t, Red, parent, k.r) else Node(k.l, Red, parent, t);
      if k.InL? {
        OpenLeft(m, root, t, k, node, parent);
      } else {
        OpenRight(m, root, t, k, node, parent);
      }
      OpenRight(m, root, inner, k.up, parent, gparent);
      AboveIsThere(m, root, Node(u, k.up.c, gparent, inner), up, gparent, m[gparent].parent);
      Split(m, u, uncle, gparent);
      InsertRecolor(parent, gparent, uncle);
      ghost var xs := {parent, gparent, uncle};
      KeepCtx(m, mem, xs, root, up, gparent, m[gparent].parent);
      Rehang(m, mem, xs, inner, parent, gparent, gparent, Black);
      Rehang(m, mem, xs, u, uncle, gparent, gparent, Black);
      Join(mem, Blacken(u), Red, gparent, Blacken(inner), m[gparent].parent);
    }

    method InsertAtTop(node: Ptr, ghost t: Tree<Ptr>)
      requires Near(mem, root, t, Top, node, 0) && IsRed(t)
      modifies this
      ensures Reached(InsertTurn(t, Top)) && mem.Keys == old(mem.Keys) && node == t.x && mem[node].parent == 0
    {
      ghost var m := mem;
      Split(m, t, node, 0);
      assert Unfold(0);
      mem := SetParentColor(mem, node, 0, Black);
      root := node;
      Rehang(m, mem, {node}, t, node, 0, 0, Black);
    }

    /** Which side of its grandparent the parent is on, read off the pointers. */
    lemma SideOfParent(node: Ptr, parent: Ptr, t: Tree<Ptr>, k: Ctx<Ptr>)
      requires At(mem, root, t, k, node, parent) && InsertReady(t, k) && RedAbove(k)
      ensures parent in mem && mem[parent].parent in mem
      ensures var g := mem[parent].parent;
              && g == k.up.x && parent == k.x && node == t.x
              && (k.up.InL? <==> parent != mem[g].right)
      ensures var g := mem[parent].parent; k.up.InL? ==>
                && (mem[g].right != 0 ==> mem[g].right in mem)
                && IsRed(k.up.r) == (mem[g].right != 0 && mem[mem[g].right].color.Red?)
      ensures var g := mem[parent].parent; k.up.InR? ==>
                && (mem[g].left != 0 ==> mem[g].left in mem)
                && IsRed(k.up.l) == (mem[g].left != 0 && mem[mem[g].left].color.Red?)
      ensures k.InL? ==> mem[parent].left == node && mem[parent].right != node
      ensures k.InR? ==> mem[parent].right == node && mem[parent].left != node
    {
      Split(mem, t, node, parent);
      if k.InL? {
        OpenLeft(mem, root, t, k, node, parent);
        Split(mem, k.r, mem[parent].right, parent);
        SideOfGrandparent(parent, mem[parent].parent, Node(t, Red, parent, k.r), k.up);
      } else {
        OpenRight(mem, root, t, k, node, parent);
        Split(mem, k.l, mem[parent].left, parent);
        SideOfGrandparent(parent, mem[parent].parent, Node(k.l, Red, parent, t), k.up);
      }
    }

    lemma SideOfGrandparent(parent: Ptr, g: Ptr, inner: Tree<Ptr>, up: Ctx<Ptr>)
      requires At(mem, root, inner, up, parent, g) && inner.Node? && !up.Top?
      ensures g in mem && g == up.x && inner.x == parent
      ensures up.InL? <==> parent != mem[g].right
      ensures up.InL? ==>
                && (mem[g].right != 0 ==> mem[g].right in mem)
                && IsRed(up.r) == (mem[g].right != 0 && mem[mem[g].right].color.Red?)
      ensures up.InR? ==>
                && (mem[g].left != 0 ==> mem[g].left in mem)
                && IsRed(up.l) == (mem[g].left != 0 && mem[mem[g].left].color.Red?)
    {
      Split(mem, inner, parent, g);
      if up.InL? {
        OpenLeft(mem, root, inner, up, parent, g);
        Split(mem, up.r, mem[g].right, g);
      } else {
        OpenRight(mem, root, inner, up, parent, g);
        Split(mem, up.l, mem[g].left, g);
      }
    }

    /** One turn of the loop below a red parent. */
    method InsertStep(node: Ptr, parent: Ptr, ghost t: Tree<Ptr>, ghost k: Ctx<Ptr>)
      returns (again: bool, top: Ptr)
      requires At(mem, root, t, k, node, parent) && InsertReady(t, k) && RedAbove(k)
      modifies this
      ensures Reached(InsertTurn(t, k)) && top == InsertTurn(t, k).t.x && again == InsertTurn(t, k).Again?
      ensures mem.Keys == old(mem.Keys)
    {
      SideOfParent(node, parent, t, k);
      var gparent := mem[parent].parent;
      var tmp := mem[gparent].right;
      if parent != tmp {
        again := tmp != 0 && mem[tmp].color.Red?;
        if again {
          InsertRecolorLeft(node, parent, gparent, tmp, t, k);
          top := gparent;
        } else if node == mem[parent].right {
          InsertInnerRight(node, parent, gparent, t, k);
          top := node;
        } else {
          InsertOuterRight(node, parent, gparent, t, k);
          top := parent;
        }
      } else {
        tmp := mem[gparent].left;
        again := tmp != 0 && mem[tmp].color.Red?;
        if again {
          InsertRecolorRight(node, parent, gparent, tmp, t, k);
          top := gparent;
        } else if node == mem[parent].left {
          InsertInnerLeft(node, parent, gparent, t, k);
          top := node;
        } else {
          InsertOuterLeft(node, parent, gparent, t, k);
          top := parent;
        }
      }
    }

    /**
     `__rb_insert_fix`: started at a red node whose only fault may be a red parent, the loop ends
     with a red-black tree of the same nodes in the same order.
     */
    method InsertFix(start: Ptr, ghost t0: Tree<Ptr>, ghost k0: Ctx<Ptr>, ghost n0: nat)
      requires IsRed(t0) && RB(t0, n0) && CtxOk(k0, n0)
      requires start in mem && Near(mem, root, t0, k0, start, mem[start].parent)
      modifies this
      ensures mem.Keys == old(mem.Keys)
      ensures Holds(mem, tree, root, 0) && Apart(tree) && RedBlack(tree)
      ensures Inorder(tree) == Inorder(Plug(t0, k0))
    {
      var node, parent := start, mem[start].parent;
      ghost var t, k, n := t0, k0, n0;
      var again := true;
      while again
        invariant mem.Keys == old(mem.Keys) && node in mem && parent == mem[node].parent
        invariant if again then Near(mem, root, t, k, node, parent) else At(mem, root, t, k, node, parent)
        invariant RB(t, n) && CtxOk(k, n)
        invariant Inorder(Plug(t, k)) == Inorder(Plug(t0, k0))
        invariant if again then IsRed(t) else Fits(t, k)
        decreases again, k
      {
        AboveIsThere(mem, root, t, k, node, parent);
        ghost var m := InsertTurnOk(t, k, n);
        ghost var turn := InsertTurn(t, k);
        InsertTurnInorder(t, k);
        if parent == 0 {
          InsertAtTop(node, t);
          again := false;
        } else if mem[parent].color.Black? {
          again := false;
        } else {
          again, node := InsertStep(node, parent, t, k);
          parent := mem[node].parent;
          AboveIsThere(mem, root, turn.t, turn.k, node, parent);
        }
        t, k, n := turn.t, turn.k, m;
      }
      PlugHolds(mem, root, t, k, node, parent);
      PlugRedBlack(t, k, n);
      tree := Plug(t, k);
    }

    // ------------------------------------------------------------ reading

    /** `_rb_first`: the least node, or null when there is none. */
    method First(less: (Ptr, Ptr) -> bool) returns (n: Ptr)
      requires Valid(less)
      ensures n == 0 <==> Inorder(tree) == []
      ensures n != 0 ==> n == Inorder(tree)[0] && forall x :: x in Nodes(tree) && x != n ==> less(n, x)
    {
      n := root;
      ApartInorder(tree);
      Split(mem, tree, root, 0);
      if n != 0 {
        ghost var t, par := tree, 0;
        while mem[n].left != 0
          invariant n != 0 && n in mem && t.Node? && Holds(mem, t, n, par)
          invariant Inorder(t) <= Inorder(tree)
          decreases t
        {
          Split(mem, t, n, par);
          par := n;
          n := mem[n].left;
          t := t.l;
          Split(mem, t, n, par);
        }
        Split(mem, t, n, par);
        Split(mem, t.l, 0, n);
        assert n == Inorder(t)[0];
      }
    }

    /** `_rb_lookup`: an equal node exactly when there is one, within twice the logarithm of the size. */
    method Lookup(node: Ptr, less: (Ptr, Ptr) -> bool) returns (found: Ptr, ghost steps: nat)
      requires Valid(less) && StrictOrder(less, Elements(Inorder(tree)) + {node})
      ensures found != 0 <==> exists y :: y in Inorder(tree) && Same(less, node, y)
      ensures found != 0 ==> found in Inorder(tree) && Same(less, node, found)
      ensures Pow2(steps) <= (|Inorder(tree)| + 1) * (|Inorder(tree)| + 1)
    {
      found, steps := root, 0;
      ghost var t, k, par := tree, Top, 0;
      DescendFinds(less, node, tree);
      DescendOk(less, node, tree, Top);
      while found != 0
        invariant Holds(mem, t, found, par) && Plug(t, k) == tree
        invariant Descend(less, node, t, k) == Descend(less, node, tree, Top)
        invariant steps + Height(t) <= Height(tree)
        decreases t
      {
        Split(mem, t, found, par);
        if less(node, found) {
          t, k := t.l, InL(t.c, t.x, t.r, k);
          par := found;
          found := mem[found].left;
        } else if less(found, node) {
          t, k := t.r, InR(t.l, t.c, t.x, k);
          par := found;
          found := mem[found].right;
        } else {
          InorderPlug(t, k);
          assert found in Inorder(t);
          break;
        }
        steps := steps + 1;
      }
      Split(mem, t, found, par);
      Balanced(tree);
      Pow2Monotone(steps, Height(tree));
    }

    // ------------------------------------------------------------ insertion

    /** Hangs a fresh red node into an empty place. */
    method Link(node: Ptr, parent: Ptr, left: bool, ghost k: Ctx<Ptr>)
      requires node in mem && node != 0 && mem[node] == Cell(0, 0, 0, Red) && node !in CtxNodes(k)
      requires Distinct(Leaf, k) && Around(mem, root, k, 0, parent) && (k.Top? <==> parent == 0)
      requires parent != 0 ==> parent in mem && (left <==> k.InL?)
      modifies this`mem
      ensures mem.Keys == old(mem.Keys) && mem[node].parent == parent
      ensures Near(mem, root, Node(Leaf, Red, node, Leaf), k, node, parent)
    {
      ghost var m := mem;
      assert Unfold(0);
      if parent != 0 {
        mem := if left then SetLeft(mem, parent, node) else SetRight(mem, parent, node);
        mem := SetParentColor(mem, node, parent, Red);
        if left {
          SameTree(m, mem, {parent, node}, k.r, m[parent].right, parent);
        } else {
          SameTree(m, mem, {parent, node}, k.l, m[parent].left, parent);
        }
        SameCtx(m, mem, {parent, node}, root, k.up, parent, m[parent].parent);
      }
    }

    /**
     `_rb_insert`: -1 when an equal node is there already, with the tree as it was; otherwise 0,
     with the new node in its place in the order and nothing else changed.
     */
    method Insert(node: Ptr, less: (Ptr, Ptr) -> bool) returns (ret: int)
      requires Valid(less) && node != 0 && node in mem && node !in Nodes(tree)
      requires StrictOrder(less, Elements(Inorder(tree)) + {node})
      modifies this
      ensures Valid(less) && mem.Keys == old(mem.Keys)
      ensures ret == 0 || ret == -1
      ensures ret == -1 <==> exists y :: y in old(Inorder(tree)) && Same(less, node, y)
      ensures ret == -1 ==> tree == old(tree)
      ensures ret == 0 ==> InsertedInto(old(Inorder(tree)), node, Inorder(tree))
    {
      ghost var m := mem;
      DescendFinds(less, node, tree);
      DescendOk(less, node, tree, Top);
      mem := mem[node := Cell(0, 0, 0, Red)];
      KeepTree(m, mem, {node}, tree, root, 0);
      var nw, parent, left := root, 0, false;
      ghost var t, k := tree, Top;
      while nw != 0
        invariant mem == m[node := Cell(0, 0, 0, Red)] && root == old(root) && tree == old(tree)
        invariant At(mem, root, t, k, nw, parent) && Plug(t, k) == tree
        invariant parent != 0 ==> (left <==> k.InL?)
        invariant Descend(less, node, t, k) == Descend(less, node, tree, Top)
        decreases t
      {
        Split(mem, t, nw, parent);
        parent := nw;
        if less(node, nw) {
          StepLeft(mem, root, t, k, nw, mem[nw].parent);
          t, k := t.l, InL(t.c, t.x, t.r, k);
          nw, left := mem[nw].left, true;
        } else if less(nw, node) {
          StepRight(mem, root, t, k, nw, mem[nw].parent);
          t, k := t.r, InR(t.l, t.c, t.x, k);
          nw, left := mem[nw].right, false;
        } else {
          return -1;
        }
      }
      Split(mem, t, nw, parent);
      AboveIsThere(mem, root, Leaf, k, 0, parent);
      SeparatePlug(Leaf, k);
      InsertOrdered(less, node, k);
      Link(node, parent, left, k);
      ghost var n := PlaceRedBlack(Leaf, k);
      InsertFix(node, Node(Leaf, Red, node, Leaf), k, n);
      assert Inorder(old(tree)) == Before(k) + After(k);
      return 0;
    }

    // ------------------------------------------------------------ erasure repair

    /** The code of case 4: `sibling`, right of `parent`, takes its place; `outer` turns black. */
    method EraseSwingLeft(parent: Ptr, sibling: Ptr, outer: Ptr, inner: Ptr, ghost up: Ctx<Ptr>)
      requires parent != 0 && sibling != 0 && outer != 0 && parent != sibling && parent != outer && sibling != outer
      requires inner != parent && inner != sibling && inner != outer
      requires parent in mem && sibling in mem && outer in mem && (inner == 0 || inner in mem)
      requires Around(mem, root, up, parent, mem[parent].parent) && CtxApart(up)
      requires {parent, sibling, outer} !! CtxNodes(up) && (inner != 0 ==> inner !in CtxNodes(up))
      modifies this
      ensures mem.Keys == old(mem.Keys)
      ensures mem[parent] == Cell(old(mem[parent].left), inner, sibling, Black)
      ensures mem[sibling] == Cell(parent, old(mem[sibling].right), old(mem[parent].parent), old(mem[parent].color))
      ensures mem[outer] == old(mem[outer]).(parent := sibling, color := Black)
      ensures inner != 0 ==> mem[inner] == old(mem[inner]).(parent := parent)
      ensures Around(mem, root, up, sibling, mem[sibling].parent)
      ensures Changes(old(mem), mem, {parent, sibling, outer, inner} + CtxNodes(up))
    {
      ghost var m := mem;
      mem := SetRight(mem, parent, inner);
      mem := if inner == 0 then mem else SetParentColor(mem, inner, parent, mem[inner].color);
      mem := SetLeft(mem, sibling, parent);
      mem := SetParentColor(mem, outer, sibling, Black);
      KeepCtx(m, mem, {parent, sibling, outer, inner}, root, up, parent, m[parent].parent);
      RotateOk(mem, root, up, parent, sibling, Black);
      var r := RotateSetParents(mem, root, parent, sibling, Black);
      mem, root := r.m, r.root;
    }

    method EraseSwingRight(parent: Ptr, sibling: Ptr, outer: Ptr, inner: Ptr, ghost up: Ctx<Ptr>)
      requires parent != 0 && sibling != 0 && outer != 0 && parent != sibling && parent != outer && sibling != outer
      requires inner != parent && inner != sibling && inner != outer
      requires parent in mem && sibling in mem && outer in mem && (inner == 0 || inner in mem)
      requires Around(mem, root, up, parent, mem[parent].parent) && CtxApart(up)
      requires {parent, sibling, outer} !! CtxNodes(up) && (inner != 0 ==> inner !in CtxNodes(up))
      modifies this
      ensures mem.Keys == old(mem.Keys)
      ensures mem[parent] == Cell(inner, old(mem[parent].right), sibling, Black)
      ensures mem[sibling] == Cell(old(mem[sibling].left), parent, old(mem[parent].parent), old(mem[parent].color))
      ensures mem[outer] == old(mem[outer]).(parent := sibling, color := Black)
      ensures inner != 0 ==> mem[inner] == old(mem[inner]).(parent := parent)
      ensures Around(mem, root, up, sibling, mem[sibling].parent)
      ensures Changes(old(mem), mem, {parent, sibling, outer, inner} + CtxNodes(up))
    {
      ghost var m := mem;
      mem := SetLeft(mem, parent, inner);
      mem := if inner == 0 then mem else SetParentColor(mem, inner, parent, mem[inner].color);
      mem := SetRight(mem, sibling, parent);
      mem := SetParentColor(mem, outer, sibling, Black);
      KeepCtx(m, mem, {parent, sibling, outer, inner}, root, up, parent, m[parent].parent);
      RotateOk(mem, root, up, parent, sibling, Black);
      var r := RotateSetParents(mem, root, parent, sibling, Black);
      mem, root := r.m, r.root;
    }

    /**
     Case 4 with the gap to the left: `sibling` rises. Its outer child's parent pointer is
     overwritten and need not be up to date.
     */
    method EraseRotateLeft(node: Ptr, parent: Ptr, sibling: Ptr, ghost outerPar: Ptr,
                           ghost t: Tree<Ptr>, ghost inner: Tree<Ptr>, ghost outer: Tree<Ptr>, ghost up: Ctx<Ptr>)
      requires parent in mem && sibling in mem && parent != 0 && sibling != 0
      requires Holds(mem, t, node, parent) && mem[parent].left == node
      requires Holds(mem, inner, mem[sibling].left, sibling)
      requires outer.Node? && Holds(mem, outer, mem[sibling].right, outerPar)
      requires Around(mem, root, up, parent, mem[parent].parent)
      requires Separate(Node(t, Red, parent, Node(inner, Red, sibling, outer)), up)
      modifies this
      ensures mem.Keys == old(mem.Keys)
      ensures Holds(mem, Node(Node(t, Black, parent, inner), old(mem[parent].color), sibling, Blacken(outer)),
                    sibling, mem[sibling].parent)
      ensures Around(mem, root, up, sibling, mem[sibling].parent)
    {
      ghost var m := mem;
      PartsRight(Node(t, Red, parent, Node(inner, Red, sibling, outer)), up);
      var tmp1, tmp2 := mem[sibling].right, mem[sibling].left;
      Split(m, outer, tmp1, outerPar);
      Split(m, inner, tmp2, sibling);
      EraseSwingLeft(parent, sibling, tmp1, tmp2, up);
      ghost var xs := {parent, sibling, tmp1, tmp2} + CtxNodes(up);
      KeepTree(m, mem, xs, t, node, parent);
      Rehang(m, mem, xs, inner, tmp2, sibling, parent, if inner.Node? then inner.c else Black);
      Rehang(m, mem, xs, outer, tmp1, outerPar, sibling, Black);
      Join(mem, t, Black, parent, inner, sibling);
      Join(mem, Node(t, Black, parent, inner), m[parent].color, sibling, Blacken(outer), m[parent].parent);
    }

    method EraseRotateRight(node: Ptr, parent: Ptr, sibling: Ptr, ghost outerPar: Ptr,
                            ghost t: Tree<Ptr>, ghost inner: Tree<Ptr>, ghost outer: Tree<Ptr>, ghost up: Ctx<Ptr>)
      requires parent in mem && sibling in mem && parent != 0 && sibling != 0
      requires Holds(mem, t, node, parent) && mem[parent].right == node
      requires Holds(mem, inner, mem[sibling].right, sibling)
      requires outer.Node? && Holds(mem, outer, mem[sibling].left, outerPar)
      requires Around(mem, root, up, parent, mem[parent].parent)
      requires Separate(Node(Node(outer, Red, sibling, inner), Red, parent, t), up)
      modifies this
      ensures mem.Keys == old(mem.Keys)
      ensures Holds(mem, Node(Blacken(outer), old(mem[parent].color), sibling, Node(inner, Black, parent, t)),
                    sibling, mem[sibling].parent)
      ensures Around(mem, root, up, sibling, mem[sibling].parent)
    {
      ghost var m := mem;
      PartsLeft(Node(Node(outer, Red, sibling, inner), Red, parent, t), up);
      var tmp1, tmp2 := mem[sibling].left, mem[sibling].right;
      Split(m, outer, tmp1, outerPar);
      Split(m, inner, tmp2, sibling);
      EraseSwingRight(parent, sibling, tmp1, tmp2, up);
      ghost var xs := {parent, sibling, tmp1, tmp2} + CtxNodes(up);
      KeepTree(m, mem, xs, t, node, parent);
      Rehang(m, mem, xs, inner, tmp2, sibling, parent, if inner.Node? then inner.c else Black);
      Rehang(m, mem, xs, outer, tmp1, outerPar, sibling, Black);
      Join(mem, inner, Black, parent, t, sibling);
      Join(mem, Blacken(outer), m[parent].color, sibling, Node(inner, Black, parent, t), m[parent].parent);
    }

    /** Case 4: the sibling's outer child is red. */
    method EraseOuterLeft(node: Ptr, parent: Ptr, sibling: Ptr, ghost t: Tree<Ptr>, ghost k: Ctx<Ptr>)
      requires k.InL? && k.r.Node? && IsRed(k.r.r)
      requires At(mem, root, t, k, node, parent) && parent in mem && mem[parent].right == sibling
      modifies this
      ensures Reached(EraseLeft(t, k.c, k.x, k.r, k.up)) && mem.Keys == old(mem.Keys)
    {
      EraseLeftInorder(t, k.c, k.x, k.r, k.up);
      StayDistinct(t, k, EraseLeft(t, k.c, k.x, k.r, k.up).t, k.up);
      OpenLeft(mem, root, t, k, node, parent);
      Split(mem, k.r, sibling, parent);
      InnerSeparate(Node(t, k.c, parent, k.r), k.up, Node(t, k.c, parent, k.r));
      EraseRotateLeft(node, parent, sibling, sibling, t, k.r.l, k.r.r, k.up);
    }

    /** The code of case 3: the sibling's inner child rises above it. */
    method EraseRaiseLeft(parent: Ptr, sibling: Ptr, tmp2: Ptr, tmp1: Ptr)
      requires parent in mem && sibling in mem && tmp2 in mem && (tmp1 == 0 || tmp1 in mem)
      requires parent != sibling && parent != tmp2 && sibling != tmp2
      requires tmp1 != parent && tmp1 != sibling && tmp1 != tmp2
      modifies this`mem
      ensures mem.Keys == old(mem.Keys) && Changes(old(mem), mem, {parent, sibling, tmp2, tmp1})
      ensures mem[sibling] == old(mem[sibling]).(left := tmp1)
      ensures mem[tmp2] == old(mem[tmp2]).(right := sibling)
      ensures mem[parent] == old(mem[parent]).(right := tmp2)
      ensures tmp1 != 0 ==> mem[tmp1] == old(mem[tmp1]).(parent := sibling, color := Black)
    {
      mem := SetLeft(mem, sibling, tmp1);
      mem := SetBlackChild(mem, tmp1, sibling);
      mem := SetRight(mem, tmp2, sibling);
      mem := SetRight(mem, parent, tmp2);
    }

    /** Cases 3 and 4 together: the sibling's inner child is red, its outer child is not. */
    method EraseInnerLeft(node: Ptr, parent: Ptr, sibling: Ptr, ghost t: Tree<Ptr>, ghost k: Ctx<Ptr>)
      requires k.InL? && k.r.Node? && k.r.c.Black? && !IsRed(k.r.r) && IsRed(k.r.l)
      requires At(mem, root, t, k, node, parent) && parent in mem && mem[parent].right == sibling
      modifies this
      ensures Reached(EraseLeft(t, k.c, k.x, k.r, k.up)) && mem.Keys == old(mem.Keys)
    {
      ghost var m, s, up := mem, k.r, k.up;
      EraseLeftInorder(t, k.c, k.x, s, up);
      StayDistinct(t, k, EraseLeft(t, k.c, k.x, s, up).t, up);
      OpenLeft(m, root, t, k, node, parent);
      Split(m, s, sibling, parent);
      AboveIsThere(m, root, Node(t, k.c, parent, k.r), up, parent, m[parent].parent);
      var tmp2 := mem[sibling].left;
      Split(m, s.l, tmp2, sibling);
      var tmp1 := mem[tmp2].right;
      Split(m, s.l.r, tmp1, tmp2);
      ghost var s1 := Node(Blacken(k.r.l.r), Black, sibling, k.r.r);
      Rotate(Inorder(s.l.l), [tmp2], Inorder(s.l.r), [sibling], Inorder(s.r));
      assert Inorder(s) == Inorder(Node(s.l.l, Red, tmp2, s1));
      InnerSeparate(Node(t, k.c, parent, k.r), up, Node(t, Red, parent, Node(k.r.l.l, Red, tmp2, s1)));
      EraseRaiseLeft(parent, sibling, tmp2, tmp1);
      ghost var xs := {parent, sibling, tmp2, tmp1};
      KeepCtx(m, mem, xs, root, up, parent, m[parent].parent);
      KeepTree(m, mem, xs, t, node, parent);
      KeepTree(m, mem, xs, s.r, m[sibling].right, sibling);
      KeepTree(m, mem, xs, s.l.l, m[tmp2].left, tmp2);
      Rehang(m, mem, xs, s.l.r, tmp1, tmp2, sibling, Black);
      Join(mem, s1.l, Black, sibling, s1.r, parent);
      EraseRotateLeft(node, parent, tmp2, parent, t, k.r.l.l, s1, k.up);
    }

    /** Case 2: a black sibling with no red child turns red. */
    method EraseRecolorLeft(node: Ptr, parent: Ptr, sibling: Ptr, ghost t: Tree<Ptr>, ghost k: Ctx<Ptr>)
      requires k.InL? && k.r.Node? && !IsRed(k.r.l) && !IsRed(k.r.r)
      requires At(mem, root, t, k, node, parent) && parent in mem && mem[parent].right == sibling
      modifies this
      ensures Reached(EraseLeft(t, k.c, k.x, k.r, k.up)) && mem.Keys == old(mem.Keys)
    {
      ghost var m, s, up := mem, k.r, k.up;
      EraseLeftInorder(t, k.c, k.x, s, up);
      StayDistinct(t, k, EraseLeft(t, k.c, k.x, s, up).t, up);
      OpenLeft(m, root, t, k, node, parent);
      AboveIsThere(m, root, Node(t, k.c, parent, k.r), up, parent, m[parent].parent);
      Split(m, s, sibling, parent);
      mem := SetParentColor(mem, sibling, parent, Red);
      if mem[parent].color.Red? {
        mem := SetParentColor(mem, parent, mem[parent].parent, Black);
      }
      ghost var xs := {parent, sibling};
      KeepCtx(m, mem, xs, root, up, parent, m[parent].parent);
      KeepTree(m, mem, xs, t, node, parent);
      Rehang(m, mem, xs, s, sibling, parent, parent, Red);
      Join(mem, t, Black, parent, s.(c := Red), m[parent].parent);
    }

    /** Case 1: a red sibling rises, which leaves the gap with a black sibling below a red parent. */
    method EraseRedSiblingLeft(node: Ptr, parent: Ptr, sibling: Ptr, ghost t: Tree<Ptr>, ghost k: Ctx<Ptr>)
      requires k.InL? && EraseReady(k) && k.r.c.Red?
      requires At(mem, root, t, k, node, parent) && parent in mem && mem[parent].right == sibling
      modifies this
      ensures mem.Keys == old(mem.Keys) && k.r.Node?
      ensures var s := k.r; At(mem, root, t, InL(Red, parent, Blacken(s.l), InL(k.c, s.x, s.r, k.up)), node, parent)
    {
      ghost var m, s, up := mem, k.r, k.up;
      OpenLeft(m, root, t, k, node, parent);
      Split(m, s, sibling, parent);
      Rotate(Inorder(t), [parent], Inorder(s.l), [s.x], Inorder(s.r));
      assert Inorder(Node(t, k.c, parent, k.r)) == Inorder(Node(Node(t, Red, parent, Blacken(s.l)), k.c, s.x, s.r));
      PlugSame(Node(t, k.c, parent, k.r), Node(Node(t, Red, parent, Blacken(s.l)), k.c, s.x, s.r), up);
      StayDistinct(t, k, t, InL(Red, parent, Blacken(s.l), InL(k.c, s.x, s.r, k.up)));
      InnerSeparate(Node(t, k.c, parent, k.r), up, Node(t, k.c, parent, k.r));
      PartsRight(Node(t, k.c, parent, k.r), up);
      var tmp1 := mem[sibling].left;
      Split(m, s.l, tmp1, sibling);
      SwingLeft(sibling, parent, tmp1, up);
      ghost var xs := {parent, sibling, tmp1} + CtxNodes(up);
      KeepTree(m, mem, xs, t, node, parent);
      KeepTree(m, mem, xs, s.r, m[sibling].right, sibling);
      Rehang(m, mem, xs, s.l, tmp1, sibling, parent, Black);
      assert Unfold(0);
    }

    /** Case 4: the sibling's outer child is red. */
    method EraseOuterRight(node: Ptr, parent: Ptr, sibling: Ptr, ghost t: Tree<Ptr>, ghost k: Ctx<Ptr>)
      requires k.InR? && k.l.Node? && IsRed(k.l.l)
      requires At(mem, root, t, k, node, parent) && parent in mem && mem[parent].left == sibling
      modifies this
      ensures Reached(EraseRight(t, k.c, k.x, k.l, k.up)) && mem.Keys == old(mem.Keys)
    {
      EraseRightInorder(t, k.c, k.x, k.l, k.up);
      StayDistinct(t, k, EraseRight(t, k.c, k.x, k.l, k.up).t, k.up);
      OpenRight(mem, root, t, k, node, parent);
      Split(mem, k.l, sibling, parent);
      InnerSeparate(Node(k.l, k.c, parent, t), k.up, Node(k.l, k.c, parent, t));
      EraseRotateRight(node, parent, sibling, sibling, t, k.l.r, k.l.l, k.up);
    }

    /** The code of case 3: the sibling's inner child rises above it. */
    method EraseRaiseRight(parent: Ptr, sibling: Ptr, tmp2: Ptr, tmp1: Ptr)
      requires parent in mem && sibling in mem && tmp2 in mem && (tmp1 == 0 || tmp1 in mem)
      requires parent != sibling && parent != tmp2 && sibling != tmp2
      requires tmp1 != parent && tmp1 != sibling && tmp1 != tmp2
      modifies this`mem
      ensures mem.Keys == old(mem.Keys) && Changes(old(mem), mem, {parent, sibling, tmp2, tmp1})
      ensures mem[sibling] == old(mem[sibling]).(right := tmp1)
      ensures mem[tmp2] == old(mem[tmp2]).(left := sibling)
      ensures mem[parent] == old(mem[parent]).(left := tmp2)
      ensures tmp1 != 0 ==> mem[tmp1] == old(mem[tmp1]).(parent := sibling, color := Black)
    {
      mem := SetRight(mem, sibling, tmp1);
      mem := SetBlackChild(mem, tmp1, sibling);
      mem := SetLeft(mem, tmp2, sibling);
      mem := SetLeft(mem, parent, tmp2);
    }

    /** Cases 3 and 4 together: the sibling's inner child is red, its outer child is not. */
    method EraseInnerRight(node: Ptr, parent: Ptr, sibling: Ptr, ghost t: Tree<Ptr>, ghost k: Ctx<Ptr>)
      requires k.InR? && k.l.Node? && k.l.c.Black? && !IsRed(k.l.l) && IsRed(k.l.r)
      requires At(mem, root, t, k, node, parent) && parent in mem && mem[parent].left == sibling
      modifies this
      ensures Reached(EraseRight(t, k.c, k.x, k.l, k.up)) && mem.Keys == old(mem.Keys)
    {
      ghost var m, s, up := mem, k.l, k.up;
      EraseRightInorder(t, k.c, k.x, s, up);
      StayDistinct(t, k, EraseRight(t, k.c, k.x, s, up).t, up);
      OpenRight(m, root, t, k, node, parent);
      Split(m, s, sibling, parent);
      AboveIsThere(m, root, Node(k.l, k.c, parent, t), up, parent, m[parent].parent);
      var tmp2 := mem[sibling].right;
      Split(m, s.r, tmp2, sibling);
      var tmp1 := mem[tmp2].left;
      Split(m, s.r.l, tmp1, tmp2);
      ghost var s1 := Node(k.l.l, Black, sibling, Blacken(k.l.r.l));
      Rotate(Inorder(s.l), [sibling], Inorder(s.r.l), [tmp2], Inorder(s.r.r));
      assert Inorder(s) == Inorder(Node(s1, Red, tmp2, s.r.r));
      InnerSeparate(Node(k.l, k.c, parent, t), up, Node(Node(s1, Red, tmp2, k.l.r.r), Red, parent, t));
      EraseRaiseRight(parent, sibling, tmp2, tmp1);
      ghost var xs := {parent, sibling, tmp2, tmp1};
      KeepCtx(m, mem, xs, root, up, parent, m[parent].parent);
      KeepTree(m, mem, xs, t, node, parent);
      KeepTree(m, mem, xs, s.l, m[sibling].left, sibling);
      KeepTree(m, mem, xs, s.r.r, m[tmp2].right, tmp2);
      Rehang(m, mem, xs, s.r.l, tmp1, tmp2, sibling, Black);
      Join(mem, s1.l, Black, sibling, s1.r, parent);
      EraseRotateRight(node, parent, tmp2, parent, t, k.l.r.r, s1, k.up);
    }

    /** Case 2: a black sibling with no red child turns red. */
    method EraseRecolorRight(node: Ptr, parent: Ptr, sibling: Ptr, ghost t: Tree<Ptr>, ghost k: Ctx<Ptr>)
      requires k.InR? && k.l.Node? && !IsRed(k.l.l) && !IsRed(k.l.r)
      requires At(mem, root, t, k, node, parent) && parent in mem && mem[parent].left == sibling
      modifies this
      ensures Reached(EraseRight(t, k.c, k.x, k.l, k.up)) && mem.Keys == old(mem.Keys)
    {
      ghost var m, s, up := mem, k.l, k.up;
      EraseRightInorder(t, k.c, k.x, s, up);
      StayDistinct(t, k, EraseRight(t, k.c, k.x, s, up).t, up);
      OpenRight(m, root, t, k, node, parent);
      AboveIsThere(m, root, Node(k.l, k.c, parent, t), up, parent, m[parent].parent);
      Split(m, s, sibling, parent);
      mem := SetParentColor(mem, sibling, parent, Red);
      if mem[parent].color.Red? {
        mem := SetParentColor(mem, parent, mem[parent].parent, Black);
      }
      ghost var xs := {parent, sibling};
      KeepCtx(m, mem, xs, root, up, parent, m[parent].parent);
      KeepTree(m, mem, xs, t, node, parent);
      Rehang(m, mem, xs, s, sibling, parent, parent, Red);
      Join(mem, s.(c := Red), Black, parent, t, m[parent].parent);
    }

    /** Case 1: a red sibling rises, which leaves the gap with a black sibling below a red parent. */
    method EraseRedSiblingRight(node: Ptr, parent: Ptr, sibling: Ptr, ghost t: Tree<Ptr>, ghost k: Ctx<Ptr>)
      requires k.InR? && EraseReady(k) && k.l.c.Red?
      requires At(mem, root, t, k, node, parent) && parent in mem && mem[parent].left == sibling
      modifies this
      ensures mem.Keys == old(mem.Keys) && k.l.Node?
      ensures var s := k.l; At(mem, root, t, InR(Blacken(s.r), Red, parent, InR(s.l, k.c, s.x, k.up)), node, parent)
    {
      ghost var m, s, up := mem, k.l, k.up;
      OpenRight(m, root, t, k, node, parent);
      Split(m, s, sibling, parent);
      Rotate(Inorder(s.l), [s.x], Inorder(s.r), [parent], Inorder(t));
      assert Inorder(Node(k.l, k.c, parent, t)) == Inorder(Node(s.l, k.c, s.x, Node(Blacken(s.r), Red, parent, t)));
      PlugSame(Node(k.l, k.c, parent, t), Node(s.l, k.c, s.x, Node(Blacken(s.r), Red, parent, t)), up);
      StayDistinct(t, k, t, InR(Blacken(s.r), Red, parent, InR(s.l, k.c, s.x, k.up)));
      InnerSeparate(Node(k.l, k.c, parent, t), up, Node(k.l, k.c, parent, t));
      PartsLeft(Node(k.l, k.c, parent, t), up);
      var tmp1 := mem[sibling].right;
      Split(m, s.r, tmp1, sibling);
      SwingRight(sibling, parent, tmp1, up);
      ghost var xs := {parent, sibling, tmp1} + CtxNodes(up);
      KeepTree(m, mem, xs, t, node, parent);
      KeepTree(m, mem, xs, s.l, m[sibling].left, sibling);
      Rehang(m, mem, xs, s.r, tmp1, sibling, parent, Black);
      assert Unfold(0);
    }

    /** The turn once the sibling is black: recolour, or rotate and be done. */
    method EraseBlackSiblingLeft(node: Ptr, parent: Ptr, sibling: Ptr, ghost t: Tree<Ptr>, ghost k: Ctx<Ptr>)
      returns (again: bool, top: Ptr)
      requires k.InL? && k.r.Node? && k.r.c.Black?
      requires At(mem, root, t, k, node, parent) && parent in mem && mem[parent].right == sibling
      modifies this
      ensures mem.Keys == old(mem.Keys) && Reached(EraseLeft(t, k.c, k.x, k.r, k.up))
      ensures top == EraseLeft(t, k.c, k.x, k.r, k.up).t.x
      ensures again == EraseLeft(t, k.c, k.x, k.r, k.up).Again?
    {
      OpenLeft(mem, root, t, k, node, parent);
      AboveIsThere(mem, root, Node(t, k.c, parent, k.r), k.up, parent, mem[parent].parent);
      Split(mem, k.r, sibling, parent);
      var tmp1, tmp2 := mem[sibling].right, mem[sibling].left;
      Split(mem, k.r.r, tmp1, sibling);
      Split(mem, k.r.l, tmp2, sibling);
      again := false;
      if tmp1 == 0 || mem[tmp1].color.Black? {
        if tmp2 == 0 || mem[tmp2].color.Black? {
          again, top := mem[parent].color.Black? && mem[parent].parent != 0, parent;
          EraseRecolorLeft(node, parent, sibling, t, k);
        } else {
          top := tmp2;
          EraseInnerLeft(node, parent, sibling, t, k);
        }
      } else {
        top := sibling;
        EraseOuterLeft(node, parent, sibling, t, k);
      }
    }

    /** The turn once the sibling is black: recolour, or rotate and be done. */
    method EraseBlackSiblingRight(node: Ptr, parent: Ptr, sibling: Ptr, ghost t: Tree<Ptr>, ghost k: Ctx<Ptr>)
      returns (again: bool, top: Ptr)
      requires k.InR? && k.l.Node? && k.l.c.Black?
      requires At(mem, root, t, k, node, parent) && parent in mem && mem[parent].left == sibling
      modifies this
      ensures mem.Keys == old(mem.Keys) && Reached(EraseRight(t, k.c, k.x, k.l, k.up))
      ensures top == EraseRight(t, k.c, k.x, k.l, k.up).t.x
      ensures again == EraseRight(t, k.c, k.x, k.l, k.up).Again?
    {
      OpenRight(mem, root, t, k, node, parent);
      AboveIsThere(mem, root, Node(k.l, k.c, parent, t), k.up, parent, mem[parent].parent);
      Split(mem, k.l, sibling, parent);
      var tmp1, tmp2 := mem[sibling].left, mem[sibling].right;
      Split(mem, k.l.l, tmp1, sibling);
      Split(mem, k.l.r, tmp2, sibling);
      again := false;
      if tmp1 == 0 || mem[tmp1].color.Black? {
        if tmp2 == 0 || mem[tmp2].color.Black? {
          again, top := mem[parent].color.Black? && mem[parent].parent != 0, parent;
          EraseRecolorRight(node, parent, sibling, t, k);
        } else {
          top := tmp2;
          EraseInnerRight(node, parent, sibling, t, k);
        }
      } else {
        top := sibling;
        EraseOuterRight(node, parent, sibling, t, k);
      }
    }

    lemma SideOfGap(node: Ptr, parent: Ptr, t: Tree<Ptr>, k: Ctx<Ptr>)
      requires At(mem, root, t, k, node, parent) && EraseReady(k)
      ensures parent in mem && parent == k.x && (k.InL? <==> node != mem[parent].right)
      ensures k.InL? ==> mem[parent].right in mem && mem[mem[parent].right].color == k.r.c
      ensures k.InR? ==> mem[parent].left in mem && mem[mem[parent].left].color == k.l.c
    {
      Split(mem, t, node, parent);
      if k.InL? {
        OpenLeft(mem, root, t, k, node, parent);
        Split(mem, k.r, mem[parent].right, parent);
      } else {
        OpenRight(mem, root, t, k, node, parent);
        Split(mem, k.l, mem[parent].left, parent);
      }
    }

    /** One turn of the loop of `__rb_erase_fix`. */
    method EraseStep(node: Ptr, parent: Ptr, ghost t: Tree<Ptr>, ghost k: Ctx<Ptr>) returns (again: bool, top: Ptr)
      requires At(mem, root, t, k, node, parent) && EraseReady(k)
      modifies this
      ensures mem.Keys == old(mem.Keys) && Reached(EraseTurn(t, k))
      ensures top == EraseTurn(t, k).t.x && again == EraseTurn(t, k).Again?
    {
      SideOfGap(node, parent, t, k);
      var sibling := mem[parent].right;
      if node != sibling {
        if mem[sibling].color.Red? {
          EraseRedSiblingLeft(node, parent, sibling, t, k);
          ghost var k' := InL(Red, parent, Blacken(k.r.l), InL(k.c, k.r.x, k.r.r, k.up));
          SideOfGap(node, parent, t, k');
          again, top := EraseBlackSiblingLeft(node, parent, mem[parent].right, t, k');
        } else {
          again, top := EraseBlackSiblingLeft(node, parent, sibling, t, k);
        }
      } else {
        sibling := mem[parent].left;
        if mem[sibling].color.Red? {
          EraseRedSiblingRight(node, parent, sibling, t, k);
          ghost var k' := InR(Blacken(k.l.r), Red, parent, InR(k.l.l, k.c, k.l.x, k.up));
          SideOfGap(node, parent, t, k');
          again, top := EraseBlackSiblingRight(node, parent, mem[parent].left, t, k');
        } else {
          again, top := EraseBlackSiblingRight(node, parent, sibling, t, k);
        }
      }
    }

    /**
     `__rb_erase_fix`: started at a subtree one black node short, the loop ends with a red-black
     tree of the same nodes in the same order.
     */
    method EraseFix(start: Ptr, ghost k0: Ctx<Ptr>)
      requires CtxOk(k0, 1) && !k0.Top? && At(mem, root, Leaf, k0, 0, start)
      modifies this
      ensures mem.Keys == old(mem.Keys)
      ensures Holds(mem, tree, root, 0) && Apart(tree) && RedBlack(tree)
      ensures Inorder(tree) == Inorder(Plug(Leaf, k0))
    {
      var node, parent, again := 0, start, true;
      ghost var t, k, n := Leaf, k0, 0;
      while again
        invariant mem.Keys == old(mem.Keys) && RB(t, n) && At(mem, root, t, k, node, parent)
        invariant Inorder(Plug(t, k)) == Inorder(Plug(Leaf, k0))
        invariant if again then IsBlack(t) && CtxOk(k, n + 1) && !k.Top? else CtxOk(k, n) && Fits(t, k)
        decreases again, k
      {
        ghost var m := EraseTurnOk(t, k, n);
        ghost var turn := EraseTurn(t, k);
        EraseTurnInorder(t, k);
        again, node := EraseStep(node, parent, t, k);
        parent := mem[node].parent;
        t, k, n := turn.t, turn.k, m;
      }
      PlugHolds(mem, root, t, k, node, parent);
      PlugRedBlack(t, k, n);
      tree := Plug(t, k);
    }

    // ------------------------------------------------------------ erasure

    /** The code for a node with at most one child: the child, if any, takes its place and colour. */
    method Bypass(node: Ptr, child: Ptr, ghost t: Tree<Ptr>, ghost u: Tree<Ptr>, ghost k: Ctx<Ptr>)
      requires node in mem && At(mem, root, t, k, node, mem[node].parent) && t.Node?
      requires (u == t.l && t.r.Leaf? && child == mem[node].left) || (u == t.r && t.l.Leaf? && child == mem[node].right)
      modifies this
      ensures mem.Keys == old(mem.Keys)
      ensures At(mem, root, if u.Node? then u.(c := t.c) else Leaf, k, child, old(mem[node].parent))
    {
      ghost var m := mem;
      var parent := mem[node].parent;
      Split(m, t, node, parent);
      Split(m, u, child, node);
      AboveIsThere(m, root, t, k, node, parent);
      ChangeChildOk(m, root, k, node, child, parent);
      var r := ChangeChild(mem, root, node, child, parent);
      mem, root := r.m, r.root;
      ghost var m1 := mem;
      if child != 0 {
        mem := SetParentColor(mem, child, parent, mem[node].color);
        KeepCtx(m1, mem, {child}, root, k, child, parent);
      }
      Rehang(m, mem, {child} + CtxNodes(k), u, child, node, parent, t.c);
      assert Unfold(0);
    }

    /** The leftmost node below `child`, and the node it hangs from. */
    method FindSuccessor(node: Ptr, child: Ptr, ghost t: Tree<Ptr>, ghost k: Ctx<Ptr>) returns (succ: Ptr, par: Ptr)
      requires At(mem, root, t, k, child, node) && t.Node?
      ensures At(mem, root, Min(t), MinCtx(t, k), succ, par)
      ensures succ == child <==> t.l.Leaf?
      ensures succ == child ==> par == node
    {
      succ, par := child, node;
      ghost var u, ku := t, k;
      Split(mem, t, child, node);
      while mem[succ].left != 0
        invariant At(mem, root, u, ku, succ, par) && u.Node? && succ in mem && Nodes(u) <= Nodes(t)
        invariant Min(u) == Min(t) && MinCtx(u, ku) == MinCtx(t, k)
        invariant u == t ==> succ == child && par == node && ku == k
        invariant u != t ==> t.l.Node? && Nodes(u) <= Nodes(t.l)
        decreases u
      {
        Split(mem, u, succ, par);
        StepLeft(mem, root, u, ku, succ, par);
        Split(mem, u.l, mem[succ].left, succ);
        par := succ;
        succ := mem[succ].left;
        u, ku := u.l, InL(u.c, u.x, u.r, ku);
        Split(mem, u, succ, par);
      }
      Split(mem, u, succ, par);
      Split(mem, u.l, 0, succ);
      AboveIsThere(mem, root, t, k, child, node);
    }

    /** The code that puts `succ`, found right below `node`, in the place of `node`. */
    method TakeOver(node: Ptr, succ: Ptr, left: Ptr, ghost k: Ctx<Ptr>)
      requires node in mem && succ in mem && left in mem && node != 0 && succ != 0
      requires node != succ && left != node && left != succ
      requires Around(mem, root, k, node, mem[node].parent) && CtxApart(k) && {node, succ, left} !! CtxNodes(k)
      modifies this
      ensures mem.Keys == old(mem.Keys)
      ensures mem[succ] == Cell(left, old(mem[succ].right), old(mem[node].parent), old(mem[node].color))
      ensures mem[left] == old(mem[left]).(parent := succ)
      ensures Around(mem, root, k, succ, mem[succ].parent)
      ensures Changes(old(mem), mem, {succ, left} + CtxNodes(k))
    {
      ghost var m := mem;
      mem := SetLeft(mem, succ, left);
      mem := SetParentColor(mem, left, succ, mem[left].color);
      KeepCtx(m, mem, {succ, left}, root, k, node, m[node].parent);
      ChangeChildOk(mem, root, k, node, succ, mem[node].parent);
      var r := ChangeChild(mem, root, node, succ, mem[node].parent);
      mem, root := r.m, r.root;
      ghost var m1 := mem;
      mem := SetParentColor(mem, succ, mem[node].parent, mem[node].color);
      KeepCtx(m1, mem, {succ}, root, k, succ, m[node].parent);
    }

    /** The successor is the right child itself. */
    method UnlinkShallow(node: Ptr, ghost t: Tree<Ptr>, ghost k: Ctx<Ptr>) returns (child2: Ptr, succ: Ptr)
      requires node in mem && At(mem, root, t, k, node, mem[node].parent)
      requires t.Node? && t.l.Node? && t.r.Node? && t.r.l.Leaf?
      modifies this
      ensures mem.Keys == old(mem.Keys)
      ensures At(mem, root, Blacken(t.r.r), InR(t.l, t.c, t.r.x, k), child2, succ)
    {
      ghost var m := mem;
      UnlinkInorder(t, k);
      GoneDistinct(t, k, Blacken(t.r.r), InR(t.l, t.c, t.r.x, k));
      Split(m, t, node, m[node].parent);
      var left := mem[node].left;
      succ := mem[node].right;
      Split(m, t.l, left, node);
      Split(m, t.r, succ, node);
      child2 := mem[succ].right;
      Split(m, t.r.r, child2, succ);
      InnerSeparate(t, k, t);
      PartsRight(t, k);
      TakeOver(node, succ, left, k);
      ghost var m1 := mem;
      mem := SetBlackChild(mem, child2, succ);
      KeepCtx(m1, mem, {child2}, root, k, succ, m[node].parent);
      ghost var xs := {succ, left, child2} + CtxNodes(k);
      Rehang(m, mem, xs, t.l, left, node, succ, t.l.c);
      Rehang(m, mem, xs, t.r.r, child2, succ, succ, Black);
      SurroundRight(mem, root, t.l, t.c, succ, k);
    }

    /** The code that detaches `succ` from below `par` and gives it the right subtree at `child`. */
    method Detach(succ: Ptr, par: Ptr, child: Ptr, child2: Ptr)
      requires succ in mem && par in mem && child in mem && (child2 == 0 || child2 in mem)
      requires succ != par && succ != child && child2 != succ && child2 != par && child2 != child
      modifies this`mem
      ensures mem.Keys == old(mem.Keys) && Changes(old(mem), mem, {succ, par, child})
      ensures mem[succ] == old(mem[succ]).(right := child)
      ensures mem[par].left == child2 && mem[child].parent == succ
      ensures mem[par].right == old(mem[par].right) && mem[par].color == old(mem[par].color)
      ensures mem[child].right == old(mem[child].right) && mem[child].color == old(mem[child].color)
      ensures par != child ==> mem[par].parent == old(mem[par].parent) && mem[child].left == old(mem[child].left)
    {
      mem := SetLeft(mem, par, child2);
      mem := SetRight(mem, succ, child);
      mem := SetParentColor(mem, child, succ, mem[child].color);
    }

    /** The code for a successor deeper down: it leaves its place, takes the right subtree, then the node's place. */
    method MoveUp(node: Ptr, succ: Ptr, par: Ptr, child: Ptr, left: Ptr, child2: Ptr, ghost k: Ctx<Ptr>)
      requires {node, succ, par, child, left} <= mem.Keys && (child2 == 0 || child2 in mem) &&
               0 !in {node, succ, par, child, left}
      requires node !in {succ, par, child, left, child2} && succ !in {par, child, left, child2}
      requires left !in {par, child, child2} && child2 !in {par, child}
      requires Around(mem, root, k, node, mem[node].parent) && CtxApart(k)
      requires {node, succ, par, child, left} !! CtxNodes(k) && (child2 != 0 ==> child2 !in CtxNodes(k))
      modifies this
      ensures mem.Keys == old(mem.Keys) && Changes(old(mem), mem, {succ, par, child, left} + Self(child2) + CtxNodes(k))
      ensures mem[succ] == Cell(left, child, old(mem[node].parent), old(mem[node].color))
      ensures mem[left] == old(mem[left]).(parent := succ)
      ensures child2 != 0 ==> mem[child2] == old(mem[child2]).(parent := par, color := Black)
      ensures mem[par].left == child2 && mem[child].parent == succ
      ensures mem[par].right == old(mem[par].right) && mem[par].color == old(mem[par].color)
      ensures mem[child].right == old(mem[child].right) && mem[child].color == old(mem[child].color)
      ensures par != child ==> mem[par].parent == old(mem[par].parent) && mem[child].left == old(mem[child].left)
      ensures Around(mem, root, k, succ, mem[succ].parent)
    {
      ghost var m := mem;
      Detach(succ, par, child, child2);
      KeepCtx(m, mem, {succ, par, child}, root, k, node, m[node].parent);
      TakeOver(node, succ, left, k);
      ghost var m1 := mem;
      mem := SetBlackChild(mem, child2, par);
      KeepCtx(m1, mem, {child2}, root, k, succ, m[node].parent);
    }

    method UnlinkDeep(node: Ptr, succ: Ptr, par: Ptr, ghost t: Tree<Ptr>, ghost k: Ctx<Ptr>) returns (child2: Ptr)
      requires node in mem && At(mem, root, t, k, node, mem[node].parent)
      requires t.Node? && t.l.Node? && t.r.Node? && t.r.l.Node?
      requires At(mem, root, Min(t.r), MinCtx(t.r, InR(t.l, t.c, node, k)), succ, par)
      modifies this
      ensures mem.Keys == old(mem.Keys)
      ensures At(mem, root, Blacken(Min(t.r).r), Below(MinCtx(t.r, Top), InR(t.l, t.c, Min(t.r).x, k)), child2, par)
    {
      ghost var m, root0 := mem, root;
      UnlinkInorder(t, k);
      GoneDistinct(t, k, Blacken(Min(t.r).r), Below(MinCtx(t.r, Top), InR(t.l, t.c, Min(t.r).x, k)));
      AboveIsThere(m, root, t, k, node, m[node].parent);
      Split(m, t, node, m[node].parent);
      var child, left := mem[node].right, mem[node].left;
      Split(m, t.l, left, node);
      StepRight(m, root, t, k, node, m[node].parent);
      PathFacts(m, root, node, child, succ, par, t, k);
      child2 := mem[succ].right;
      Split(m, Min(t.r).r, child2, succ);
      MoveUp(node, succ, par, child, left, child2, k);
      DeepDone(m, root0, mem, root, node, succ, par, t, k);
    }

    /**
     `__rb_erase`: takes the node out of the tree. The result is where a black node is now missing,
     or null when none is.
     */
    method TakeOut(node: Ptr, ghost t: Tree<Ptr>, ghost k: Ctx<Ptr>) returns (rebalance: Ptr, ghost hole: Ptr,
                   ghost par: Ptr)
      requires node in mem && At(mem, root, t, k, node, mem[node].parent) && t.Node?
      modifies this
      ensures mem.Keys == old(mem.Keys)
      ensures At(mem, root, Unlink(t, k).t, Unlink(t, k).k, hole, par)
      ensures Unlink(t, k).Again? ==> rebalance == par && rebalance != 0
      ensures Unlink(t, k).Done? ==> rebalance == 0
    {
      Split(mem, t, node, mem[node].parent);
      AboveIsThere(mem, root, t, k, node, mem[node].parent);
      var child, tmp, parent := mem[node].right, mem[node].left, mem[node].parent;
      Split(mem, t.l, tmp, node);
      Split(mem, t.r, child, node);
      if tmp == 0 {
        rebalance := if child != 0 || mem[node].color.Red? then 0 else parent;
        Bypass(node, child, t, t.r, k);
        hole, par := child, parent;
      } else if child == 0 {
        Bypass(node, tmp, t, t.l, k);
        rebalance, hole, par := 0, tmp, parent;
      } else {
        StepRight(mem, root, t, k, node, parent);
        var succ, up := FindSuccessor(node, child, t.r, InR(t.l, t.c, node, k));
        Split(mem, Min(t.r), succ, up);
        var black := mem[succ].color.Black?;
        var child2;
        if succ == child {
          child2, up := UnlinkShallow(node, t, k);
        } else {
          child2 := UnlinkDeep(node, succ, up, t, k);
        }
        rebalance := if child2 == 0 && black then up else 0;
        hole, par := child2, up;
        Split(mem, Blacken(Min(t.r).r), child2, up);
        AboveIsThere(mem, root, Blacken(Min(t.r).r), Unlink(t, k).k, child2, up);
      }
    }

    /**
     `_rb_erase`: the node leaves the tree; the other nodes stay, in the same order, in a tree that
     is red-black again.
     */
    method Erase(node: Ptr, less: (Ptr, Ptr) -> bool)
      requires Valid(less) && node in Nodes(tree)
      modifies this
      ensures Valid(less) && mem.Keys == old(mem.Keys)
      ensures InsertedInto(Inorder(tree), node, old(Inorder(tree))) && node !in Nodes(tree)
    {
      ghost var t, k := Locate(tree, node, Top);
      PlaceAt(mem, root, t, k);
      ghost var turn := Unlink(t, k);
      ghost var n := PlaceRedBlack(t, k);
      n := UnlinkOk(t, k, n);
      GoneOrdered(less, t, k, turn);
      ghost var hole, par;
      var rebalance;
      rebalance, hole, par := TakeOut(node, t, k);
      if rebalance != 0 {
        Split(mem, turn.t, hole, par);
        EraseFix(rebalance, turn.k);
      } else {
        PlugHolds(mem, root, turn.t, turn.k, hole, par);
        PlugRedBlack(turn.t, turn.k, n);
        tree := Plug(turn.t, turn.k);
      }
      ApartInorder(tree);
    }
  }

  lemma {:induction false} PlugIsTree(m: Mem, root: Ptr, t: Tree<Ptr>, k: Ctx<Ptr>, node: Ptr, par: Ptr)
    requires IsTree(m, t, node, par) && IsCtx(m, root, k, node, par)
    ensures IsTree(m, Plug(t, k), root, 0)
    decreases k
  {
    match k
    case Top =>
    case InL(c, x, r, up) => PlugIsTree(m, root, Node(t, c, x, r), up, x, m[x].parent);
    case InR(l, c, x, up) => PlugIsTree(m, root, Node(l, c, x, t), up, x, m[x].parent);
  }

  lemma PlugHolds(m: Mem, root: Ptr, t: Tree<Ptr>, k: Ctx<Ptr>, node: Ptr, par: Ptr)
    requires At(m, root, t, k, node, par)
    ensures Holds(m, Plug(t, k), root, 0) && Apart(Plug(t, k))
  {
    assert Unfold(0);
    PlugIsTree(m, root, t, k, node, par);
    SeparatePlug(t, k);
  }

  /** Walking one step down the pointers. */
  lemma StepLeft(m: Mem, root: Ptr, t: Tree<Ptr>, k: Ctx<Ptr>, node: Ptr, par: Ptr)
    requires At(m, root, t, k, node, par) && t.Node?
    ensures node in m && At(m, root, t.l, InL(t.c, t.x, t.r, k), m[node].left, node)
  {
    assert Unfold(0);
  }

  lemma StepRight(m: Mem, root: Ptr, t: Tree<Ptr>, k: Ctx<Ptr>, node: Ptr, par: Ptr)
    requires At(m, root, t, k, node, par) && t.Node?
    ensures node in m && At(m, root, t.r, InR(t.l, t.c, t.x, k), m[node].right, node)
  {
    assert Unfold(0);
  }

  lemma SurroundRight(m: Mem, root: Ptr, l: Tree<Ptr>, c: Color, x: Ptr, k: Ctx<Ptr>)
    requires x != 0 && x in m && m[x].color == c && Holds(m, l, m[x].left, x) && Around(m, root, k, x, m[x].parent)
    ensures Around(m, root, InR(l, c, x, k), m[x].right, x)
  {
    assert Unfold(0);
  }

  lemma {:induction false} MinPath(t: Tree<Ptr>, k: Ctx<Ptr>)
    requires t.Node? && LeftPath(k)
    ensures LeftPath(MinCtx(t, k)) && (t.l.Node? ==> MinCtx(t, k).InL?)
    ensures k.InL? ==> MinCtx(t, k).InL? && Upper(MinCtx(t, k)) == Upper(k)
    ensures k.Top? && t.l.Node? ==> Upper(MinCtx(t, k)) == t.x
    decreases t
  {
    if t.l.Node? {
      MinPath(t.l, InL(t.c, t.x, t.r, k));
    }
  }

  lemma {:induction false} BelowApart(p: Ctx<Ptr>, o: Ctx<Ptr>)
    ensures CtxNodes(Below(p, o)) == CtxNodes(p) + CtxNodes(o)
    ensures CtxApart(Below(p, o)) ==> CtxApart(p) && CtxApart(o) && CtxNodes(p) !! CtxNodes(o)
  {
    if !p.Top? {
      BelowApart(p.up, o);
    }
  }

  lemma FreshRemove(a: seq<Ptr>, x: Ptr, b: seq<Ptr>)
    requires EachFresh(a + [x] + b)
    ensures EachFresh(a + b) && x !in a + b
  {
    FreshConcat(a + [x], b);
    FreshConcat(a, [x]);
    FreshConcat(a, b);
  }

  lemma AroundX(a: seq<Ptr>, l: seq<Ptr>, x: seq<Ptr>, r: seq<Ptr>, b: seq<Ptr>)
    ensures a + (l + x + r) + b == (a + l) + x + (r + b)
    ensures a + l + r + b == (a + l) + (r + b)
  {
  }

  /** Removing a node from the order leaves the others distinct. */
  lemma {:induction false} GoneDistinct(t: Tree<Ptr>, k: Ctx<Ptr>, t': Tree<Ptr>, k': Ctx<Ptr>)
    requires Distinct(t, k) && t.Node?
    requires Inorder(Plug(t', k')) == Before(k) + Inorder(t.l) + Inorder(t.r) + After(k)
    ensures Distinct(t', k')
  {
    assert Unfold(0);
    SeparatePlug(t, k);
    ApartInorder(Plug(t, k));
    InorderPlug(t, k);
    AroundX(Before(k), Inorder(t.l), [t.x], Inorder(t.r), After(k));
    FreshRemove(Before(k) + Inorder(t.l), t.x, Inorder(t.r) + After(k));
    ApartInorder(Plug(t', k'));
    SeparatePlug(t', k');
  }

  /** A context made of left turns only: the path down to a leftmost node. */
  predicate LeftPath(k: Ctx<Ptr>) {
    k.Top? || (k.InL? && LeftPath(k.up))
  }

  /** The node at the upper end of a path. */
  function Upper(k: Ctx<Ptr>): Ptr
    requires k.InL?
  {
    if k.up.InL? then Upper(k.up) else k.x
  }

  lemma {:induction false} UpperIn(k: Ctx<Ptr>)
    requires k.InL? && LeftPath(k)
    ensures Upper(k) in CtxNodes(k)
  {
    if k.up.InL? {
      UpperIn(k.up);
    }
  }

  lemma {:induction false} AgreeTree(m: Mem, m': Mem, t: Tree<Ptr>, p: Ptr, par: Ptr)
    requires IsTree(m, t, p, par) && forall x :: x in Nodes(t) && x in m ==> x in m' && m'[x] == m[x]
    ensures IsTree(m', t, p, par)
  {
    if t.Node? {
      AgreeTree(m, m', t.l, m[p].left, p);
      AgreeTree(m, m', t.r, m[p].right, p);
    }
  }

  /**
   A path keeps its shape when its lower end gets a new child and its upper end a new parent,
   provided the new parent is surrounded properly.
   */
  lemma {:induction false} PathMoves(m: Mem, m': Mem, root: Ptr, root': Ptr, path: Ctx<Ptr>, outer: Ctx<Ptr>,
                                     outer': Ctx<Ptr>,
                                     hole: Ptr, hole': Ptr, par: Ptr, above: Ptr)
    requires path.InL? && LeftPath(path) && CtxApart(path)
    requires IsCtx(m, root, Below(path, outer), hole, par)
    requires forall x :: x in CtxNodes(path) && x in m ==>
               && x in m' && m'[x].right == m[x].right && m'[x].color == m[x].color
               && (x != par ==> m'[x].left == m[x].left) && (x != Upper(path) ==> m'[x].parent == m[x].parent)
    requires par in m' && m'[par].left == hole' && Upper(path) in m' && m'[Upper(path)].parent == above
    requires IsCtx(m', root', outer', Upper(path), above)
    ensures IsCtx(m', root', Below(path, outer'), hole', par)
    decreases path
  {
    var x, up := path.x, path.up;
    if up.InL? {
      UpperIn(up);
    }
    assert forall y :: y in Nodes(path.r) ==> y != x && y != Upper(path);
    AgreeTree(m, m', path.r, m[x].right, x);
    if up.InL? {
      UpperIn(up);
      PathMoves(m, m', root, root', up, outer, outer', x, x, m[x].parent, above);
    }
  }

  lemma PathMovesFolded(m: Mem, m': Mem, root: Ptr, root': Ptr, path: Ctx<Ptr>, outer: Ctx<Ptr>, outer': Ctx<Ptr>,
                        hole: Ptr, hole': Ptr, par: Ptr, above: Ptr)
    requires path.InL? && LeftPath(path) && CtxApart(path)
    requires IsCtx(m, root, Below(path, outer), hole, par)
    requires forall x :: x in CtxNodes(path) && x in m ==>
               && x in m' && m'[x].right == m[x].right && m'[x].color == m[x].color
               && (x != par ==> m'[x].left == m[x].left) && (x != Upper(path) ==> m'[x].parent == m[x].parent)
    requires par in m' && m'[par].left == hole' && Upper(path) in m' && m'[Upper(path)].parent == above
    requires Around(m', root', outer', Upper(path), above)
    ensures Around(m', root', Below(path, outer'), hole', par)
  {
    assert Unfold(0);
    PathMoves(m, m', root, root', path, outer, outer', hole, hole', par, above);
  }

  /** What the pointers say about the path from `child` down to the successor. */
  lemma PathFacts(m: Mem, root: Ptr, node: Ptr, child: Ptr, succ: Ptr, par: Ptr, t: Tree<Ptr>, k: Ctx<Ptr>)
    requires t.Node? && t.r.Node? && t.r.l.Node?
    requires At(m, root, t.r, InR(t.l, t.c, node, k), child, node)
    requires At(m, root, Min(t.r), MinCtx(t.r, InR(t.l, t.c, node, k)), succ, par)
    ensures var path := MinCtx(t.r, Top);
            && path.InL? && LeftPath(path) && CtxApart(path) && Upper(path) == child && path.x == par
            && IsCtx(m, root, Below(path, InR(t.l, t.c, node, k)), succ, par)
            && child in CtxNodes(path) && par in CtxNodes(path) && child in m && par in m
            && succ !in CtxNodes(path) && CtxNodes(path) !! Nodes(Min(t.r).r) && node !in CtxNodes(path)
            && CtxNodes(path) !! Nodes(t.l) && CtxNodes(path) !! CtxNodes(k)
    ensures succ in m && succ != 0 && child != 0 && par != 0
    ensures var s := Min(t.r);
            && Holds(m, s.r, m[succ].right, succ) && Apart(s.r) && succ == s.x
            && succ !in Nodes(s.r) && succ !in Nodes(t.l) && succ !in CtxNodes(k) && succ != node
            && Nodes(s.r) !! Nodes(t.l) && Nodes(s.r) !! CtxNodes(k) && node !in Nodes(s.r)
  {
    var path, o := MinCtx(t.r, Top), InR(t.l, t.c, node, k);
    MinCtxBelow(t.r, Top, o);
    MinPath(t.r, Top);
    Split(m, t.r, child, node);
    Split(m, Min(t.r), succ, par);
    BelowApart(path, o);
    UpperIn(path);
    assert Unfold(0);
  }

  /** The tree after the successor has moved up. */
  lemma {:induction false} DeepDone(m: Mem, root: Ptr, m': Mem, root': Ptr, node: Ptr, succ: Ptr, par: Ptr,
                                    t: Tree<Ptr>, k: Ctx<Ptr>)
    requires node in m && succ in m && succ in m' && par in m' && At(m, root, t, k, node, m[node].parent)
    requires t.Node? && t.l.Node? && t.r.Node? && t.r.l.Node?
    requires At(m, root, t.r, InR(t.l, t.c, node, k), m[node].right, node)
    requires At(m, root, Min(t.r), MinCtx(t.r, InR(t.l, t.c, node, k)), succ, par)
    requires var child, left, child2 := m[node].right, m[node].left, m[succ].right;
             && {child, left, par} <= m.Keys * m'.Keys && (child2 != 0 ==> child2 in m && child2 in m')
             && Changes(m, m', {succ, par, child, left} + Self(child2) + CtxNodes(k))
             && m'[succ] == Cell(left, child, m[node].parent, m[node].color)
             && m'[left] == m[left].(parent := succ)
             && (child2 != 0 ==> m'[child2] == m[child2].(parent := par, color := Black))
             && m'[par].left == child2 && m'[child].parent == succ
             && m'[par].right == m[par].right && m'[par].color == m[par].color
             && m'[child].right == m[child].right && m'[child].color == m[child].color
             && (par != child ==> m'[par].parent == m[par].parent && m'[child].left == m[child].left)
    requires Around(m', root', k, succ, m'[succ].parent)
    ensures Holds(m', Blacken(Min(t.r).r), m[succ].right, par)
    ensures Around(m', root', Below(MinCtx(t.r, Top), InR(t.l, t.c, succ, k)), m[succ].right, par)
  {
    var s, path := Min(t.r), MinCtx(t.r, Top);
    var child, left, child2 := m[node].right, m[node].left, m[succ].right;
    AboveIsThere(m, root, t, k, node, m[node].parent);
    Split(m, t, node, m[node].parent);
    Split(m, t.l, left, node);
    PathFacts(m, root, node, child, succ, par, t, k);
    Split(m, s.r, child2, succ);
    var xs := {succ, par, child, left} + Self(child2) + CtxNodes(k);
    Rehang(m, m', xs, t.l, left, node, succ, t.l.c);
    Rehang(m, m', xs, s.r, child2, succ, par, Black);
    SurroundRight(m', root', t.l, t.c, succ, k);
    assert forall x :: x in CtxNodes(path) && x != par && x != child ==> x !in xs;
    PathMovesFolded(m, m', root, root', path, InR(t.l, t.c, node, k), InR(t.l, t.c, succ, k), succ, child2, par, succ);
  }

  /** The place of a node in a tree that contains it. */
  lemma {:induction false} Locate(t: Tree<Ptr>, x: Ptr, k: Ctx<Ptr>) returns (u: Tree<Ptr>, ku: Ctx<Ptr>)
    requires x in Nodes(t)
    ensures u.Node? && u.x == x && Plug(u, ku) == Plug(t, k)
    decreases t
  {
    if t.x == x {
      u, ku := t, k;
    } else if x in Nodes(t.l) {
      u, ku := Locate(t.l, x, InL(t.c, t.x, t.r, k));
    } else {
      u, ku := Locate(t.r, x, InR(t.l, t.c, t.x, k));
    }
  }

  lemma {:induction false} UnplugTree(m: Mem, root: Ptr, t: Tree<Ptr>, k: Ctx<Ptr>)
    requires IsTree(m, Plug(t, k), root, 0) && t.Node?
    ensures t.x in m && IsTree(m, t, t.x, m[t.x].parent) && IsCtx(m, root, k, t.x, m[t.x].parent)
    decreases k
  {
    match k
    case Top =>
    case InL(c, x, r, up) => UnplugTree(m, root, Node(t, c, x, r), up);
    case InR(l, c, x, up) => UnplugTree(m, root, Node(l, c, x, t), up);
  }

  lemma PlaceAt(m: Mem, root: Ptr, t: Tree<Ptr>, k: Ctx<Ptr>)
    requires Holds(m, Plug(t, k), root, 0) && Apart(Plug(t, k)) && t.Node?
    ensures t.x in m && At(m, root, t, k, t.x, m[t.x].parent)
  {
    assert Unfold(0);
    UnplugTree(m, root, t, k);
    SeparatePlug(t, k);
  }

  lemma GoneOrdered(less: (Ptr, Ptr) -> bool, t: Tree<Ptr>, k: Ctx<Ptr>, turn: Turn<Ptr>)
    requires t.Node? && turn == Unlink(t, k) && Ordered(less, Inorder(Plug(t, k))) && Apart(Plug(t, k))
    ensures Ordered(less, Inorder(Plug(turn.t, turn.k)))
    ensures InsertedInto(Inorder(Plug(turn.t, turn.k)), t.x, Inorder(Plug(t, k)))
    ensures t.x !in Inorder(Plug(turn.t, turn.k))
  {
    UnlinkInorder(t, k);
    InorderPlug(t, k);
    var a, b := Before(k) + Inorder(t.l), Inorder(t.r) + After(k);
    AroundX(Before(k), Inorder(t.l), [t.x], Inorder(t.r), After(k));
    ApartInorder(Plug(t, k));
    FreshRemove(a, t.x, b);
    RemoveOrdered(less, a, t.x, b);
  }

  lemma RemoveOrdered(less: (Ptr, Ptr) -> bool, a: seq<Ptr>, x: Ptr, b: seq<Ptr>)
    requires Ordered(less, a + [x] + b)
    ensures Ordered(less, a + b)
  {
    var s, r := a + [x] + b, a + b;
    forall i, j | 0 <= i < j < |r|
      ensures less(r[i], r[j])
    {
      var i', j' := if i < |a| then i else i + 1, if j < |a| then j else j + 1;
      assert s[i'] == r[i] && s[j'] == r[j];
    }
  }

  lemma {:induction false} InnerSeparate(t: Tree<Ptr>, k: Ctx<Ptr>, t': Tree<Ptr>)
    requires Distinct(t, k) && Inorder(t') == Inorder(t)
    ensures Separate(t', k)
  {
    assert Unfold(0);
    PlugSame(t, t', k);
    KeepsSeparate(t, k, t', k);
  }
}
