/** Which blocks the operations on a file log, told from the state they start in. */
module InodeCost {
  import opened Bytes
  import opened Bitmap
  import opened InodeModel
  import opened InodeWorld

  // ---------------------------------------------------------------- the blocks that are taken next

  ghost predicate IsLeast(f: set<nat>, b: nat) {
    b in f && forall x :: x in f ==> b <= x
  }

  ghost function Least(f: set<nat>): (b: nat)
    requires f != {}
    ensures IsLeast(f, b)
  {
    var x :| x in f;
    if f == {x} then x
    else
      var y := Least(f - {x});
      assert f == f - {x} + {x};
      if x < y then x else y
  }

  /** The `n` lowest numbers of a set, or all of it: the blocks that allocation takes from it, in turn. */
  ghost function Lowest(f: set<nat>, n: nat): set<nat>
    decreases n
  {
    if n == 0 || f == {} then {} else var b := Least(f); {b} + Lowest(f - {b}, n - 1)
  }

  lemma {:induction false} LowestCount(f: set<nat>, n: nat)
    ensures Lowest(f, n) <= f
    ensures n <= |f| ==> |Lowest(f, n)| == n
    decreases n
  {
    if n != 0 && f != {} {
      var b := Least(f);
      assert f == (f - {b}) + {b};
      LowestCount(f - {b}, n - 1);
      assert b !in Lowest(f - {b}, n - 1);
    }
  }

  lemma LowestStep(f: set<nat>, n: nat, b: nat)
    requires f != {} && b == Least(f) && 0 < n
    ensures Lowest(f, n) == {b} + Lowest(f - {b}, n - 1)
  {
  }

  lemma LowestOfNone(n: nat)
    ensures Lowest({}, n) == {}
  {
  }

  lemma {:induction false} LowestAdds(f: set<nat>, n: nat, m: nat, r: set<nat>)
    requires r == Lowest(f, n)
    ensures Lowest(f, n + m) == r + Lowest(f - r, m)
    decreases n
  {
    if n == 0 {
      assert r == {} && f - r == f;
    } else if f == {} {
      assert r == {} && f - r == {};
      LowestOfNone(m);
      LowestOfNone(n + m);
    } else {
      var b := Least(f);
      var g := f - {b};
      var q := Lowest(g, n - 1);
      LowestStep(f, n, b);
      LowestStep(f, n + m, b);
      LowestAdds(g, n - 1, m, q);
      AddOne(f, b, q, Lowest(g - q, m));
    }
  }

  lemma AddOne(f: set<nat>, b: nat, q: set<nat>, p: set<nat>)
    ensures f - ({b} + q) == f - {b} - q
    ensures {b} + (q + p) == {b} + q + p
  {
  }

  lemma LeastIs(f: set<nat>, b: nat)
    requires b in f && forall x :: x in f ==> b <= x
    ensures Least(f) == b && Lowest(f, 1) == {b}
  {
    assert Lowest(f - {b}, 0) == {};
  }

  /** What it takes to allocate or to free the blocks `bs`: their bits. */
  ghost function Bitmaps(sb: SuperBlock, bs: set<nat>): set<nat> {
    set b | b in bs :: sb.BitmapBlock(b)
  }

  lemma BitmapsAdd(sb: SuperBlock, a: set<nat>, b: set<nat>)
    ensures Bitmaps(sb, a + b) == Bitmaps(sb, a) + Bitmaps(sb, b)
  {
    forall x | x in Bitmaps(sb, a) + Bitmaps(sb, b)
      ensures x in Bitmaps(sb, a + b)
    {
      if y :| y in a && x == sb.BitmapBlock(y) {
        assert y in a + b;
      } else {
        var z :| z in b && x == sb.BitmapBlock(z);
        assert z in a + b;
      }
    }
  }

  /** What it takes to allocate the blocks `bs`: their bits, and the blocks themselves, which are zeroed. */
  ghost function Allocs(sb: SuperBlock, bs: set<nat>): set<nat> {
    bs + Bitmaps(sb, bs)
  }

  lemma AllocsAdd(sb: SuperBlock, a: set<nat>, b: set<nat>)
    ensures Allocs(sb, a + b) == Allocs(sb, a) + Allocs(sb, b)
  {
    BitmapsAdd(sb, a, b);
  }

  lemma AllocsOne(sb: SuperBlock, b: nat)
    ensures Allocs(sb, {b}) == {sb.BitmapBlock(b)} + {b}
  {
    assert Bitmaps(sb, {b}) == {sb.BitmapBlock(b)};
  }

  // ---------------------------------------------------------------- growing a file

  function Max(a: nat, b: nat): nat {
    if a < b then b else a
  }

  function BlocksFor(size: nat): nat {
    (size + BLOCK_SIZE - 1) / BLOCK_SIZE
  }

  /** How many blocks a file needs to go from `n` to `m` blocks, its table included. */
  function Need(n: nat, m: nat): nat {
    (if m > n then m - n else 0) + (if n <= INODE_NUM_DIRECT < m then 1 else 0)
  }

  /** The blocks file `i` gets when it grows to `m` blocks. */
  ghost function Next(sb: SuperBlock, w: World, i: nat, m: nat): set<nat>
    requires sb.Valid() && i in w.len
  {
    Lowest(Free(sb, w), Need(w.len[i], m))
  }

  /** Mentioning `Look` opens the predicates below of that kind, which most proofs only pass along. */
  ghost predicate Look(what: Kind, n: nat) {
    true
  }

  datatype Kind = Growing | Counting | Choosing | Costing | Writing

  ghost predicate GrewInto(sb: SuperBlock, w: World, w': World, i: nat)
    requires sb.Valid() && i in w.ents && i in w.len && i in w'.ents && i in w'.len && w.len[i] <= INODE_MAX_BLOCKS
  {
    && Need(w.len[i], w'.len[i]) <= |Free(sb, w)|
    && Free(sb, w') == Free(sb, w) - Next(sb, w, i, w'.len[i])
    && (forall j :: 0 <= j < w.len[i] ==> Addr(w'.st, w'.ents[i], j) == Addr(w.st, w.ents[i], j))
    && (INODE_NUM_DIRECT < w.len[i] ==> w'.ents[i].indirect == w.ents[i].indirect)
    && (w.len[i] <= INODE_NUM_DIRECT < w'.len[i] ==> w'.ents[i].indirect in Next(sb, w, i, w'.len[i]))
  }

  /** File `i` has grown: by the lowest free blocks, and without moving what it had. */
  ghost predicate GrewTo(sb: SuperBlock, w: World, w': World, i: nat)
    requires sb.Valid()
  {
    && i in w.ents && i in w.len && i in w'.ents && i in w'.len && w.len[i] <= w'.len[i] <= INODE_MAX_BLOCKS
    && forall n: nat :: Look(Growing, n) ==> GrewInto(sb, w, w', i)
  }

  lemma GrewNot(sb: SuperBlock, w: World, w': World, i: nat)
    requires sb.Valid() && i in w.ents && i in w.len && w.len[i] <= INODE_MAX_BLOCKS
    requires i in w'.ents && i in w'.len && w'.len[i] == w.len[i] && Free(sb, w') == Free(sb, w)
    requires forall j :: 0 <= j < w.len[i] ==> Addr(w'.st, w'.ents[i], j) == Addr(w.st, w.ents[i], j)
    requires w'.ents[i].indirect == w.ents[i].indirect
    ensures GrewTo(sb, w, w', i)
  {
    assert Next(sb, w, i, w.len[i]) == {};
  }

  lemma FreeCount(sb: SuperBlock, w: World, w': World, i: nat)
    requires sb.Valid() && GrewTo(sb, w, w', i)
    ensures |Free(sb, w)| == |Free(sb, w')| + Need(w.len[i], w'.len[i])
  {
    assert Look(Growing, 0);
    LowestCount(Free(sb, w), Need(w.len[i], w'.len[i]));
    assert Free(sb, w) == Free(sb, w') + Next(sb, w, i, w'.len[i]);
  }

  lemma NextAdds(sb: SuperBlock, w: World, w1: World, i: nat, m: nat)
    requires sb.Valid() && GrewTo(sb, w, w1, i) && w1.len[i] <= m
    ensures Need(w.len[i], m) == Need(w.len[i], w1.len[i]) + Need(w1.len[i], m)
    ensures Next(sb, w, i, m) == Next(sb, w, i, w1.len[i]) + Next(sb, w1, i, m)
  {
    assert Look(Growing, 0);
    LowestAdds(Free(sb, w), Need(w.len[i], w1.len[i]), Need(w1.len[i], m), Next(sb, w, i, w1.len[i]));
  }

  lemma GrewTwice(sb: SuperBlock, w: World, w1: World, w2: World, i: nat)
    requires sb.Valid() && GrewTo(sb, w, w1, i) && GrewTo(sb, w1, w2, i)
    ensures GrewTo(sb, w, w2, i)
  {
    assert Look(Growing, 0);
    NextAdds(sb, w, w1, i, w2.len[i]);
    FreeCount(sb, w, w1, i);
    assert Free(sb, w2) == Free(sb, w) - Next(sb, w, i, w2.len[i]);
    assert forall j :: 0 <= j < w.len[i] ==> Addr(w1.st, w1.ents[i], j) == Addr(w.st, w.ents[i], j);
  }

  // ---------------------------------------------------------------- what a write logs

  /** The table of file `i`, if it has one and block `j` is reached through it. */
  ghost function TableFor(w: World, i: nat, j: nat): set<nat>
    requires i in w.ents && i in w.len
  {
    if INODE_NUM_DIRECT <= j && INODE_NUM_DIRECT < w.len[i] then {w.ents[i].indirect} else {}
  }

  /** What mapping block `j` of file `i` logs. */
  ghost function MapTouch(sb: SuperBlock, w: World, i: nat, j: nat): set<nat>
    requires sb.Valid() && i in w.ents && i in w.len
  {
    if j < w.len[i] then TableFor(w, i, j) else Allocs(sb, Next(sb, w, i, j + 1)) + TableFor(w, i, j)
  }

  /** What a write into block `j` of file `i` logs. */
  ghost function TurnTouch(sb: SuperBlock, w: World, i: nat, j: nat): set<nat>
    requires sb.Valid() && i in w.ents && i in w.len && j < INODE_MAX_BLOCKS
  {
    if j < w.len[i] then TableFor(w, i, j) + {Addr(w.st, w.ents[i], j)} else MapTouch(sb, w, i, j)
  }

  /** The blocks of file `i` from `first` up to `last` that it has. */
  ghost function Old(w: World, i: nat, first: nat, last: nat): set<nat>
    requires i in w.ents && i in w.len && w.len[i] <= INODE_MAX_BLOCKS
  {
    set j | first <= j < last && j < w.len[i] :: Addr(w.st, w.ents[i], j)
  }

  /** What writing to the blocks from `first` up to `last` of file `i` logs. */
  ghost function Touched(sb: SuperBlock, w: World, i: nat, first: nat, last: nat): set<nat>
    requires sb.Valid() && i in w.ents && i in w.len && w.len[i] <= INODE_MAX_BLOCKS
  {
    Old(w, i, first, last) + Allocs(sb, Next(sb, w, i, last)) + (if first < last then TableFor(w, i, last - 1) else {})
  }

  lemma TouchedNothing(sb: SuperBlock, w: World, i: nat, first: nat)
    requires sb.Valid() && i in w.ents && i in w.len && first <= w.len[i] <= INODE_MAX_BLOCKS
    ensures Touched(sb, w, i, first, first) == {}
  {
    assert Next(sb, w, i, first) == {};
  }

  lemma OldStep(w: World, i: nat, first: nat, last: nat)
    requires i in w.ents && i in w.len && w.len[i] <= INODE_MAX_BLOCKS && first <= last < INODE_MAX_BLOCKS
    ensures Old(w, i, first, last + 1) ==
            Old(w, i, first, last) + if last < w.len[i] then {Addr(w.st, w.ents[i], last)} else {}
  {
    forall x | x in Old(w, i, first, last)
      ensures x in Old(w, i, first, last + 1)
    {
      var j :| first <= j < last && j < w.len[i] && x == Addr(w.st, w.ents[i], j);
    }
  }

  lemma StepInside(sb: SuperBlock, w: World, w': World, i: nat, first: nat, last: nat)
    requires sb.Valid() && GrewTo(sb, w, w', i) && first <= last < w.len[i] == w'.len[i]
    ensures Touched(sb, w, i, first, last + 1) == Touched(sb, w, i, first, last) + TurnTouch(sb, w', i, last)
  {
    OldStep(w, i, first, last);
    assert Next(sb, w, i, last) == {} && Next(sb, w, i, last + 1) == {};
    assert TurnTouch(sb, w', i, last) == TurnTouch(sb, w, i, last) by {
      assert Look(Growing, 0);
    }
    assert first < last ==> TableFor(w, i, last - 1) <= TableFor(w, i, last);
  }

  lemma Regroup(a: set<nat>, n: set<nat>, m: set<nat>, t: set<nat>, u: set<nat>, v: set<nat>)
    requires t <= u && u <= v + n && v <= u + n
    ensures a + (n + m) + u == a + n + t + (m + v)
  {
  }

  lemma TablesAgree(sb: SuperBlock, w: World, w': World, i: nat, last: nat)
    requires sb.Valid() && GrewTo(sb, w, w', i) && w.len[i] <= last == w'.len[i] && 0 < last
    ensures TableFor(w, i, last - 1) <= TableFor(w, i, last) <= TableFor(w', i, last) + Next(sb, w, i, last)
    ensures TableFor(w', i, last) <= TableFor(w, i, last) + Next(sb, w, i, last)
  {
    assert Look(Growing, 0);
  }

  lemma StepOutside(sb: SuperBlock, w: World, w': World, i: nat, first: nat, last: nat)
    requires sb.Valid() && GrewTo(sb, w, w', i) && first <= w.len[i] <= last == w'.len[i] < INODE_MAX_BLOCKS
    ensures Touched(sb, w, i, first, last + 1) == Touched(sb, w, i, first, last) + TurnTouch(sb, w', i, last)
  {
    var n, m := Next(sb, w, i, last), Next(sb, w', i, last + 1);
    var t := if first < last then TableFor(w, i, last - 1) else {};
    var u, v := TableFor(w, i, last), TableFor(w', i, last);
    assert t <= u <= v + Allocs(sb, n) && v <= u + Allocs(sb, n) by {
      if last > 0 {
        TablesAgree(sb, w, w', i, last);
      }
    }
    assert Old(w, i, first, last + 1) == Old(w, i, first, last) by {
      OldStep(w, i, first, last);
    }
    assert Next(sb, w, i, last + 1) == n + m by {
      NextAdds(sb, w, w', i, last + 1);
    }
    AllocsAdd(sb, n, m);
    var a := Old(w, i, first, last);
    assert Touched(sb, w, i, first, last) == a + Allocs(sb, n) + t;
    assert Touched(sb, w, i, first, last + 1) == a + (Allocs(sb, n) + Allocs(sb, m)) + u;
    Regroup(a, Allocs(sb, n), Allocs(sb, m), t, u, v);
  }

  /** Each turn of the write loop logs what one more block adds. */
  lemma TouchedStep(sb: SuperBlock, w: World, w': World, i: nat, first: nat, last: nat)
    requires sb.Valid() && GrewTo(sb, w, w', i) && first <= w.len[i] && first <= last < INODE_MAX_BLOCKS
    requires w'.len[i] == Max(w.len[i], last)
    ensures Touched(sb, w, i, first, last + 1) == Touched(sb, w, i, first, last) + TurnTouch(sb, w', i, last)
  {
    if last < w.len[i] {
      StepInside(sb, w, w', i, first, last);
    } else {
      StepOutside(sb, w, w', i, first, last);
    }
  }

  lemma NextMore(sb: SuperBlock, w: World, i: nat, last: nat, more: nat)
    requires sb.Valid() && i in w.len && last <= more
    ensures Next(sb, w, i, last) <= Next(sb, w, i, more)
    ensures Allocs(sb, Next(sb, w, i, last)) <= Allocs(sb, Next(sb, w, i, more))
  {
    var f, n, m := Free(sb, w), Need(w.len[i], last), Need(w.len[i], more);
    var r := Lowest(f, n);
    LowestAdds(f, n, m - n, r);
    AllocsAdd(sb, r, Lowest(f - r, m - n));
  }

  lemma TouchedMore(sb: SuperBlock, w: World, i: nat, first: nat, last: nat, more: nat)
    requires sb.Valid() && i in w.ents && i in w.len && w.len[i] <= INODE_MAX_BLOCKS && first <= last <= more
    ensures Touched(sb, w, i, first, last) <= Touched(sb, w, i, first, more)
  {
    NextMore(sb, w, i, last, more);
    forall x | x in Old(w, i, first, last)
      ensures x in Old(w, i, first, more)
    {
      var j :| first <= j < last && j < w.len[i] && x == Addr(w.st, w.ents[i], j);
    }
  }

  /** One past the last block that `n` bytes at `offset` lie in. */
  function LastBlock(offset: nat, n: nat): nat {
    if n == 0 then offset / BLOCK_SIZE else BlocksFor(offset + n)
  }

  /** What writing `n` bytes at `offset` of file `i` logs, its entry included. */
  ghost function WriteTouch(sb: SuperBlock, w: World, i: nat, offset: nat, n: nat): set<nat>
    requires sb.Valid() && i in w.ents && i in w.len && w.len[i] <= INODE_MAX_BLOCKS
  {
    Touched(sb, w, i, offset / BLOCK_SIZE, LastBlock(offset, n)) + {sb.InodeBlock(i)}
  }

  /** What emptying file `i` logs: the bits of its blocks, and its entry. */
  ghost function ClearTouch(sb: SuperBlock, w: World, i: nat): set<nat> {
    Bitmaps(sb, Blocks(w.own, i)) + {sb.InodeBlock(i)}
  }

  // ---------------------------------------------------------------- how many blocks that is

  /** The blocks a file has are its own, each under its number. */
  lemma OldOwned(sb: SuperBlock, w: World, i: nat, first: nat, last: nat, b: nat)
    requires Sound(sb, w) && i in w.ents && i in w.len && last <= w.len[i] <= INODE_MAX_BLOCKS
    requires b in Old(w, i, first, last)
    ensures b in w.own && w.own[b].Data? && w.own[b].j < last
  {
    FileFacts(sb, w.st, w.own, w.ents, w.len, i);
    var j :| first <= j < last && j < w.len[i] && b == Addr(w.st, w.ents[i], j);
    assert w.own[b] == Data(i, j);
  }

  lemma LastIsNew(sb: SuperBlock, w: World, i: nat, first: nat, last: nat)
    requires Sound(sb, w) && i in w.ents && i in w.len && last < w.len[i] <= INODE_MAX_BLOCKS
    ensures Addr(w.st, w.ents[i], last) !in Old(w, i, first, last)
  {
    FileFacts(sb, w.st, w.own, w.ents, w.len, i);
    var b := Addr(w.st, w.ents[i], last);
    assert w.own[b] == Data(i, last);
    if b in Old(w, i, first, last) {
      OldOwned(sb, w, i, first, last, b);
    }
  }

  lemma {:induction false} OldCount(sb: SuperBlock, w: World, i: nat, first: nat, last: nat)
    requires Sound(sb, w) && i in w.ents && i in w.len && first <= last <= w.len[i] <= INODE_MAX_BLOCKS
    ensures |Old(w, i, first, last)| == last - first
    decreases last
  {
    if first < last {
      var k := last - 1;
      OldCount(sb, w, i, first, k);
      OldAdds(sb, w, i, first, k, Old(w, i, first, k), Addr(w.st, w.ents[i], k));
    } else {
      assert Old(w, i, first, last) == {};
    }
  }

  lemma OldAdds(sb: SuperBlock, w: World, i: nat, first: nat, k: nat, a: set<nat>, b: nat)
    requires Sound(sb, w) && i in w.ents && i in w.len && first <= k < w.len[i] <= INODE_MAX_BLOCKS
    requires a == Old(w, i, first, k) && b == Addr(w.st, w.ents[i], k)
    ensures |Old(w, i, first, k + 1)| == |a| + 1
  {
    OldStep(w, i, first, k);
    LastIsNew(sb, w, i, first, k);
    CountUnion(a, {b});
  }

  lemma OldBeyond(w: World, i: nat, first: nat, last: nat)
    requires i in w.ents && i in w.len && w.len[i] <= INODE_MAX_BLOCKS && w.len[i] <= last
    ensures Old(w, i, first, last) == Old(w, i, first, w.len[i])
  {
  }

  lemma BitmapsLow(sb: SuperBlock, bs: set<nat>, x: nat)
    requires sb.Valid() && (forall b :: b in bs ==> b < sb.DataEnd()) && x in Bitmaps(sb, bs)
    ensures sb.bitmapStart <= x < sb.dataStart
  {
  }

  lemma CountUnion(a: set<nat>, b: set<nat>)
    requires a !! b
    ensures |a + b| == |a| + |b|
  {
  }

  lemma CountThree(a: set<nat>, b: set<nat>, c: set<nat>)
    requires a !! b && a !! c && b !! c
    ensures |a + b + c| == |a| + |b| + |c|
  {
    CountUnion(a, b);
    CountUnion(a + b, c);
  }

  /** The blocks a file has, up to `last` of them. */
  lemma HadCount(sb: SuperBlock, w: World, i: nat, first: nat, last: nat)
    requires Sound(sb, w) && i in w.ents && i in w.len && first <= w.len[i] <= INODE_MAX_BLOCKS && first <= last
    ensures |Old(w, i, first, last)| == (if last < w.len[i] then last else w.len[i]) - first
    ensures forall b :: b in Old(w, i, first, last) ==> b in w.own && w.own[b].Data? && sb.dataStart <= b
  {
    OwnedIsThere(sb, w);
    var end := if last < w.len[i] then last else w.len[i];
    if last > w.len[i] {
      OldBeyond(w, i, first, last);
    }
    OldCount(sb, w, i, first, end);
    forall b | b in Old(w, i, first, end)
      ensures b in w.own && w.own[b].Data?
    {
      OldOwned(sb, w, i, first, end, b);
    }
  }

  lemma TableCount(sb: SuperBlock, w: World, i: nat, j: nat)
    requires Sound(sb, w) && i in w.ents && i in w.len
    ensures |TableFor(w, i, j)| == if INODE_NUM_DIRECT <= j && INODE_NUM_DIRECT < w.len[i] then 1 else 0
    ensures forall b :: b in TableFor(w, i, j) ==> b in w.own && w.own[b].Table? && sb.dataStart <= b
  {
    FileFacts(sb, w.st, w.own, w.ents, w.len, i);
  }

  lemma NextCount(sb: SuperBlock, w: World, i: nat, m: nat)
    requires sb.Valid() && i in w.len && Need(w.len[i], m) <= |Free(sb, w)|
    ensures |Next(sb, w, i, m)| == Need(w.len[i], m)
    ensures forall b :: b in Next(sb, w, i, m) ==> b !in w.own && sb.dataStart <= b < sb.DataEnd()
  {
    LowestCount(Free(sb, w), Need(w.len[i], m));
  }

  /** The data blocks and the table that a write to the blocks from `first` up to `last` logs. */
  lemma DataCount(sb: SuperBlock, w: World, i: nat, first: nat, last: nat)
    requires Sound(sb, w) && i in w.ents && i in w.len && first <= w.len[i] <= INODE_MAX_BLOCKS
    requires first < last <= INODE_MAX_BLOCKS && Need(w.len[i], last) <= |Free(sb, w)|
    ensures var d := Old(w, i, first, last) + Next(sb, w, i, last) + TableFor(w, i, last - 1);
            && |d| == last - first + (if INODE_NUM_DIRECT < last then 1 else 0)
            && forall b :: b in d ==> sb.dataStart <= b
  {
    HadCount(sb, w, i, first, last);
    NextCount(sb, w, i, last);
    TableCount(sb, w, i, last - 1);
    CountThree(Old(w, i, first, last), Next(sb, w, i, last), TableFor(w, i, last - 1));
  }

  lemma RegroupAll(a: set<nat>, f: set<nat>, m: set<nat>, t: set<nat>, e: set<nat>)
    ensures a + (f + m) + t + e == (a + f + t) + m + e
  {
  }

  /** How many blocks a write of `n` bytes at `offset` logs: data, the table, the free map, and the inode's block. */
  lemma WriteCount(sb: SuperBlock, w: World, i: nat, offset: nat, n: nat)
    requires Sound(sb, w) && 0 < i < sb.numInodes && i in w.ents && i in w.len
    requires offset / BLOCK_SIZE <= w.len[i] <= INODE_MAX_BLOCKS && 0 < n && offset + n <= INODE_MAX_BYTES
    requires Need(w.len[i], BlocksFor(offset + n)) <= |Free(sb, w)|
    ensures var first, last := offset / BLOCK_SIZE, BlocksFor(offset + n);
            |WriteTouch(sb, w, i, offset, n)| == last - first + (if INODE_NUM_DIRECT < last then 1 else 0)
                                                 + |Bitmaps(sb, Next(sb, w, i, last))| + 1
  {
    var first, last := offset / BLOCK_SIZE, BlocksFor(offset + n);
    assert first < last <= INODE_MAX_BLOCKS;
    BlockCount(sb, w, i, first, last);
  }

  lemma BlockCount(sb: SuperBlock, w: World, i: nat, first: nat, last: nat)
    requires Sound(sb, w) && 0 < i < sb.numInodes && i in w.ents && i in w.len && first <= w.len[i] <= INODE_MAX_BLOCKS
    requires first < last <= INODE_MAX_BLOCKS && Need(w.len[i], last) <= |Free(sb, w)|
    ensures |Touched(sb, w, i, first, last) + {sb.InodeBlock(i)}| ==
            last - first + (if INODE_NUM_DIRECT < last then 1 else 0) + |Bitmaps(sb, Next(sb, w, i, last))| + 1
  {
    var a, f, t, e := Old(w, i, first, last), Next(sb, w, i, last), TableFor(w, i, last - 1), {sb.InodeBlock(i)};
    var m := Bitmaps(sb, f);
    DataCount(sb, w, i, first, last);
    NextCount(sb, w, i, last);
    assert forall x :: x in m ==> sb.bitmapStart <= x < sb.dataStart by {
      forall x | x in m
        ensures sb.bitmapStart <= x < sb.dataStart
      {
        BitmapsLow(sb, f, x);
      }
    }
    assert sb.InodeBlock(i) < sb.bitmapStart;
    CountThree(a + f + t, m, e);
    RegroupAll(a, f, m, t, e);
  }

  // ---------------------------------------------------------------- the same, for proofs that only pass it along

  /** There are `n` free blocks. */
  ghost predicate Enough(sb: SuperBlock, w: World, n: nat) {
    sb.Valid() && forall k: nat :: Look(Counting, k) ==> n <= |Free(sb, w)|
  }

  /** Block `b` is the one that is taken next. */
  ghost predicate NextFree(sb: SuperBlock, w: World, b: nat) {
    sb.Valid() && forall k: nat :: Look(Choosing, k) ==> b in Free(sb, w) && Lowest(Free(sb, w), 1) == {b}
  }

  /** Taking a block logs `t`. */
  ghost predicate AllocCost(sb: SuperBlock, w: World, t: set<nat>) {
    sb.Valid() && forall k: nat :: Look(Costing, k) ==> t == Allocs(sb, Lowest(Free(sb, w), 1))
  }

  /** Using a slot of table `b` logs `t`; an empty slot is filled. */
  ghost predicate SlotCost(sb: SuperBlock, w: World, empty: bool, b: nat, t: set<nat>) {
    sb.Valid() && forall k: nat :: Look(Costing, k) ==>
        t == if empty then Allocs(sb, Lowest(Free(sb, w), 1)) + {b} else {b}
  }

  ghost predicate MapCost(sb: SuperBlock, w: World, i: nat, j: nat, t: set<nat>) {
    sb.Valid() && i in w.ents && i in w.len && forall k: nat :: Look(Costing, k) ==> t == MapTouch(sb, w, i, j)
  }

  ghost predicate TurnCost(sb: SuperBlock, w: World, i: nat, j: nat, t: set<nat>) {
    && sb.Valid() && i in w.ents && i in w.len && j < INODE_MAX_BLOCKS
    && forall k: nat :: Look(Costing, k) ==> t == TurnTouch(sb, w, i, j)
  }

  /** Writing to the blocks from `first` up to `last` of file `i` logs `t`. */
  ghost predicate LoopCost(sb: SuperBlock, w: World, i: nat, first: nat, last: nat, t: set<nat>) {
    && sb.Valid() && i in w.ents && i in w.len && w.len[i] <= INODE_MAX_BLOCKS
    && forall k: nat :: Look(Costing, k) ==> t == Touched(sb, w, i, first, last)
  }

  lemma CostAlloc(sb: SuperBlock, w: World, b: nat) returns (t: set<nat>)
    requires NextFree(sb, w, b)
    ensures AllocCost(sb, w, t) && t == {sb.BitmapBlock(b)} + {b} && Enough(sb, w, 1)
  {
    assert Look(Choosing, 0) && Look(Counting, 0);
    t := Allocs(sb, {b});
    AllocsOne(sb, b);
    assert Free(sb, w) == Free(sb, w) - {b} + {b};
  }

  lemma CostNone(sb: SuperBlock, w: World) returns (t: set<nat>)
    requires sb.Valid() && Free(sb, w) == {}
    ensures AllocCost(sb, w, t) && !Enough(sb, w, 1)
  {
    assert Look(Choosing, 0) && Look(Counting, 0);
    t := Allocs(sb, Lowest(Free(sb, w), 1));
  }

  lemma FoundFree(sb: SuperBlock, w: World, b: nat)
    requires sb.Valid() && b in Free(sb, w) && forall x :: x in Free(sb, w) ==> b <= x
    ensures NextFree(sb, w, b)
  {
    LeastIs(Free(sb, w), b);
  }
}
