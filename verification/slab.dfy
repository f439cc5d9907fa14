/** The kernel's allocator of small objects. */
module SlabAllocator {
  import opened Common
  import opened SlabModel

  // ---------------------------------------------------------------- lists of slabs

  /** Mentioning `Unfold` opens the invariants below, which most proofs only pass along. */
  ghost predicate Unfold(slabs: map<nat, Slab>, n: nat) {
    true
  }

  /** List `o` holds, each once, the slabs of that order that are full, or those that are not. */
  ghost predicate Listed(lists: seq<seq<nat>>, slabs: map<nat, Slab>, full: bool) {
    |lists| == SLAB_MAX + 1 && forall n: nat :: Unfold(slabs, n) ==> ListedAll(lists, slabs, full)
  }

  ghost predicate ListedAll(lists: seq<seq<nat>>, slabs: map<nat, Slab>, full: bool)
    requires |lists| == SLAB_MAX + 1
  {
    && (forall o :: 0 <= o <= SLAB_MAX ==> NoDup(lists[o]))
    && (forall o, b :: 0 <= o <= SLAB_MAX ==>
          (b in lists[o] <==> b in slabs && slabs[b].order == o && (slabs[b].objs == [] <==> full)))
  }

  lemma ListKept(lists: seq<seq<nat>>, slabs: map<nat, Slab>, slabs': map<nat, Slab>, full: bool, b: nat)
    requires Listed(lists, slabs, full) && b in slabs && b in slabs' && slabs' == slabs[b := slabs'[b]]
    requires slabs'[b].order == slabs[b].order && (slabs'[b].objs == [] <==> slabs[b].objs == [])
    ensures Listed(lists, slabs', full)
  {
    assert Unfold(slabs, 0);
  }

  /** A slab that belongs in the other list does not concern this one. */
  lemma ListOther(lists: seq<seq<nat>>, slabs: map<nat, Slab>, slabs': map<nat, Slab>, full: bool, b: nat)
    requires Listed(lists, slabs, full) && slabs' - {b} == slabs - {b}
    requires b in slabs ==> !(slabs[b].objs == [] <==> full)
    requires b in slabs' ==> !(slabs'[b].objs == [] <==> full)
    ensures Listed(lists, slabs', full)
  {
    assert Unfold(slabs, 0);
    forall o, x | 0 <= o <= SLAB_MAX
      ensures x in lists[o] <==> x in slabs' && slabs'[x].order == o && (slabs'[x].objs == [] <==> full)
    {
      assert x != b ==> (x in slabs' - {b} <==> x in slabs - {b});
      if x != b && x in slabs {
        assert (slabs' - {b})[x] == (slabs - {b})[x];
      }
    }
  }

  /** A slab that belongs in the list now, and did not before, goes to its front. */
  lemma ListPlus(lists: seq<seq<nat>>, slabs: map<nat, Slab>, slabs': map<nat, Slab>, full: bool, b: nat)
    requires Listed(lists, slabs, full) && b in slabs' && slabs' == slabs[b := slabs'[b]] && slabs'[b].order <= SLAB_MAX
    requires slabs'[b].objs == [] <==> full
    requires b in slabs ==> !(slabs[b].objs == [] <==> full)
    ensures var o := slabs'[b].order; Listed(lists[o := [b] + lists[o]], slabs', full)
  {
    assert Unfold(slabs, 0);
    var o := slabs'[b].order;
    assert b !in lists[o];
    assert forall x :: x in [b] + lists[o] <==> x == b || x in lists[o];
  }

  /** A slab that belongs in the list no longer is taken off it. */
  lemma ListMinus(lists: seq<seq<nat>>, slabs: map<nat, Slab>, slabs': map<nat, Slab>, full: bool, b: nat)
    requires Listed(lists, slabs, full) && b in slabs && slabs[b].order <= SLAB_MAX
    requires slabs' - {b} == slabs - {b} && (b in slabs' ==> !(slabs'[b].objs == [] <==> full))
    ensures var o := slabs[b].order; Listed(lists[o := Without(lists[o], b)], slabs', full)
  {
    assert Unfold(slabs, 0);
    var o := slabs[b].order;
    var lists' := lists[o := Without(lists[o], b)];
    WithoutOk(lists[o], b);
    forall p, x | 0 <= p <= SLAB_MAX
      ensures x in lists'[p] <==> x in slabs' && slabs'[x].order == p && (slabs'[x].objs == [] <==> full)
    {
      assert x != b ==> (x in slabs' - {b} <==> x in slabs - {b});
      if x != b && x in slabs {
        assert (slabs' - {b})[x] == (slabs - {b})[x];
      }
    }
  }

  // ---------------------------------------------------------------- the allocator

  /** Every page is free or a slab's, and every live object is a slot of a slab big enough for it. */
  ghost predicate PagesOk(pool: seq<nat>, slabs: map<nat, Slab>, live: map<nat, int>) {
    forall n: nat :: Unfold(slabs, n) ==> PagesAll(pool, slabs, live)
  }

  ghost predicate PagesAll(pool: seq<nat>, slabs: map<nat, Slab>, live: map<nat, int>) {
    && NoDup(pool)
    && (forall b :: b in pool ==> b % PAGE_SIZE == 0 && b !in slabs)
    && (forall b :: b in slabs ==> SlabOk(b, slabs[b], live.Keys))
    && (forall p :: p in live ==> PageOf(p) in slabs && live[p] <= Pow2(slabs[PageOf(p)].order))
  }

  lemma SlotNext(b: nat, s: nat, k: nat, x: nat)
    requires s > 0 && SlotAt(b, s, k) + s < b + PAGE_SIZE
    ensures IsSlot(b, s, SlotAt(b, s, k)) && SlotAt(b, s, k + 1) == SlotAt(b, s, k) + s
    ensures IsSlot(b, s, x) && x < SlotAt(b, s, k + 1) <==>
              (IsSlot(b, s, x) && x < SlotAt(b, s, k)) || x == SlotAt(b, s, k)
  {
    SlotIndex(s, k);
    assert (k + 1) * s == k * s + s;
    if IsSlot(b, s, x) && SlotAt(b, s, k) < x {
      SlotsApart(b, s, SlotAt(b, s, k), x);
    }
  }

  /** A page newly cut into slots, one of them handed out. */
  lemma NewSlabOk(b: nat, order: nat, objs: seq<nat>, live: set<nat>)
    requires b % PAGE_SIZE == 0 && 4 <= order <= SLAB_MAX && NoDup(objs) && objs != [] && LiveIn(live, b) == {}
    requires forall x :: x in objs <==> IsSlot(b, Pow2(order), x)
    ensures SlabOk(b, Slab(order, 1, objs[1..]), live + {objs[0]}) && PageOf(objs[0]) == b
  {
    PowMultiple(order);
    assert objs[0] in objs;
    SlotInside(b, Pow2(order), objs[0]);
    assert LiveIn(live + {objs[0]}, b) == {objs[0]};
    assert forall q :: q in objs <==> q == objs[0] || q in objs[1..];
  }

  /** A live object more or fewer in page `b` is nothing to the other slabs. */
  lemma OthersOk(slabs: map<nat, Slab>, live: set<nat>, live': set<nat>, b: nat, p: nat)
    requires PageOf(p) == b && (live' == live + {p} || live' == live - {p})
    requires forall x :: x in slabs && x != b ==> SlabOk(x, slabs[x], live)
    ensures forall x :: x in slabs && x != b ==> SlabOk(x, slabs[x], live')
  {
    forall x | x in slabs && x != b
      ensures SlabOk(x, slabs[x], live')
    {
      assert LiveIn(live', x) == LiveIn(live, x);
      Elsewhere(x, slabs[x], live, live');
    }
  }

  /** The least order, from 4 up to 13, whose size is not less than the one asked for. */
  method Log2(size: int) returns (order: nat)
    ensures 4 <= order <= 13 && (order < 13 ==> size <= Pow2(order))
    ensures forall o :: 4 <= o < order ==> Pow2(o) < size
    ensures size <= 2048 ==> order <= SLAB_MAX
  {
    order := 4;
    while order < 13 && Pow2(order) < size
      invariant 4 <= order <= 13 && forall o :: 4 <= o < order ==> Pow2(o) < size
    {
      order := order + 1;
    }
    assert Pow2(SLAB_MAX) == 2048 by {
      assert Pow2(4) == 16;
      assert Pow2(8) == 256;
    }
  }

  /** All slots of a page, the last one first. */
  ghost predicate SlotList(b: nat, s: nat, objs: seq<nat>)
    requires s > 0
  {
    && (forall i, j :: 0 <= i < j < |objs| ==> objs[i] > objs[j])
    && forall x: nat :: x in objs <==> IsSlot(b, s, x)
  }

  /** The order of the slabs that serve requests for `size` bytes. */
  ghost predicate IsOrder(size: int, order: nat) {
    4 <= order <= SLAB_MAX && size <= Pow2(order) && forall o :: 4 <= o < order ==> Pow2(o) < size
  }

  /** Some slab of the order has a free slot. */
  ghost predicate HasRoom(slabs: map<nat, Slab>, order: nat) {
    exists b :: b in slabs && slabs[b].order == order && slabs[b].objs != []
  }

  /** Slab `b` has gone to the front of its list, if it goes on this one; nothing else has moved. */
  ghost predicate NewlyListed(lists: seq<seq<nat>>, lists': seq<seq<nat>>, here: bool, order: nat, b: nat) {
    if here then order < |lists| && lists' == lists[order := [b] + lists[order]] else lists' == lists
  }

  lemma RoomIsListed(partial: seq<seq<nat>>, slabs: map<nat, Slab>, order: nat)
    requires Listed(partial, slabs, false) && order <= SLAB_MAX
    ensures HasRoom(slabs, order) <==> partial[order] != []
  {
    assert Unfold(slabs, 0);
    if partial[order] != [] {
      var b := partial[order][0];
      assert b in partial[order];
      assert b in slabs && slabs[b].order == order && slabs[b].objs != [];
    }
  }

  /** A slab is on no list but its own. */
  lemma NotListed(lists: seq<seq<nat>>, slabs: map<nat, Slab>, full: bool, b: nat)
    requires Listed(lists, slabs, full) && b in slabs && slabs[b].order <= SLAB_MAX && !(slabs[b].objs == [] <==> full)
    ensures Without(lists[slabs[b].order], b) == lists[slabs[b].order]
  {
    assert Unfold(slabs, 0);
    WithoutAbsent(lists[slabs[b].order], b);
  }

  lemma OneOrder(size: int, o: nat, q: nat)
    requires IsOrder(size, o) && IsOrder(size, q)
    ensures o == q
  {
  }

  method Cut(b: nat, s: nat) returns (objs: seq<nat>)
    requires 16 <= s <= 2048
    ensures objs != [] && NoDup(objs) && SlotList(b, s, objs)
  {
    objs := [];
    var p := b + HEADER;
    ghost var k := 0;
    while p < b + PAGE_SIZE - s
      invariant p == SlotAt(b, s, k) && NoDup(objs)
      invariant forall x: nat :: x in objs <==> IsSlot(b, s, x) && x < p
      invariant k > 0 ==> objs != []
      invariant forall i :: 0 <= i < |objs| ==> objs[i] < p
      invariant forall i, j :: 0 <= i < j < |objs| ==> objs[i] > objs[j]
      decreases b + PAGE_SIZE - p
    {
      forall x: nat
        ensures IsSlot(b, s, x) && x < p + s <==> (IsSlot(b, s, x) && x < p) || x == p
      {
        SlotNext(b, s, k, x);
      }
      SlotNext(b, s, k, p);
      assert forall x :: x in [p] + objs <==> x == p || x in objs;
      objs := [p] + objs;
      p := p + s;
      k := k + 1;
    }
  }

  lemma TailOf(s: seq<nat>, b: nat, t: seq<nat>)
    requires s == [b] + t && NoDup(s)
    ensures b in s && b !in t && NoDup(t) && forall x :: x in t ==> x in s
  {
    assert s[0] == b && s[1..] == t;
    forall i | 0 <= i < |t|
      ensures t[i] == s[i + 1] && t[i] in s && t[i] != b
    {
    }
  }

  lemma PagesAfterNew(pool: seq<nat>, pool': seq<nat>, slabs: map<nat, Slab>, live: map<nat, int>,
                      b: nat, order: nat, objs: seq<nat>, size: int)
    requires PagesOk(pool, slabs, live) && pool == [b] + pool' && 4 <= order <= SLAB_MAX && size <= Pow2(order)
    requires objs != [] && NoDup(objs) && forall x: nat :: x in objs <==> IsSlot(b, Pow2(order), x)
    ensures b !in slabs && objs[0] !in live && PageOf(objs[0]) == b
    ensures PagesOk(pool', slabs[b := Slab(order, 1, objs[1..])], live[objs[0] := size])
  {
    assert Unfold(slabs, 0);
    TailOf(pool, b, pool');
    assert LiveIn(live.Keys, b) == {};
    NewSlabOk(b, order, objs, live.Keys);
    OthersOk(slabs, live.Keys, live.Keys + {objs[0]}, b, objs[0]);
    assert live[objs[0] := size].Keys == live.Keys + {objs[0]};
  }

  lemma ListsAfterNew(partial: seq<seq<nat>>, full: seq<seq<nat>>, slabs: map<nat, Slab>, slabs': map<nat, Slab>,
                      b: nat)
    requires Listed(partial, slabs, false) && Listed(full, slabs, true)
    requires b !in slabs && b in slabs' && slabs' == slabs[b := slabs'[b]] && slabs'[b].order <= SLAB_MAX
    ensures var o := slabs'[b].order;
            if slabs'[b].objs == []
            then Listed(partial, slabs', false) && Listed(full[o := [b] + full[o]], slabs', true)
            else Listed(partial[o := [b] + partial[o]], slabs', false) && Listed(full, slabs', true)
  {
    if slabs'[b].objs == [] {
      ListPlus(full, slabs, slabs', true, b);
      ListOther(partial, slabs, slabs', false, b);
    } else {
      ListPlus(partial, slabs, slabs', false, b);
      ListOther(full, slabs, slabs', true, b);
    }
  }

  lemma PoolFacts(pool: seq<nat>, slabs: map<nat, Slab>, live: map<nat, int>)
    requires PagesOk(pool, slabs, live)
    ensures NoDup(pool) && forall b :: b in pool ==> b !in slabs
  {
    assert Unfold(slabs, 0);
  }

  lemma PoolLess(pool: seq<nat>, pool': seq<nat>, slabs: map<nat, Slab>, live: map<nat, int>, b: nat)
    requires PagesOk(pool, slabs, live) && pool == [b] + pool'
    ensures PagesOk(pool', slabs, live) && b !in slabs && b !in pool' && forall x :: x in pool <==> x == b || x in pool'
  {
    assert Unfold(slabs, 0);
    TailOf(pool, b, pool');
  }

  lemma PoolMore(pool: seq<nat>, slabs: map<nat, Slab>, live: map<nat, int>, b: nat)
    requires PagesOk(pool, slabs, live) && b !in slabs && b % PAGE_SIZE == 0
    ensures b !in pool ==> PagesOk([b] + pool, slabs, live)
  {
    assert Unfold(slabs, 0);
    assert forall x :: x in [b] + pool <==> x == b || x in pool;
  }

  /** The first slab of a list of slabs with room has room. */
  lemma PartialHasRoom(pool: seq<nat>, slabs: map<nat, Slab>, live: map<nat, int>, partial: seq<seq<nat>>, o: nat)
    requires PagesOk(pool, slabs, live) && Listed(partial, slabs, false) && o <= SLAB_MAX && partial[o] != []
    ensures partial[o][0] in slabs && slabs[partial[o][0]].order == o && slabs[partial[o][0]].objs != []
  {
    assert Unfold(slabs, 0);
    assert partial[o][0] in partial[o];
  }

  lemma PagesAfterTake(pool: seq<nat>, slabs: map<nat, Slab>, live: map<nat, int>, b: nat, size: int)
    requires PagesOk(pool, slabs, live) && b in slabs && slabs[b].objs != [] && size <= Pow2(slabs[b].order)
    ensures var p := slabs[b].objs[0];
            && p !in live && PageOf(p) == b
            && PagesOk(pool, slabs[b := slabs[b].(used := slabs[b].used + 1, objs := slabs[b].objs[1..])],
              live[p := size])
  {
    assert Unfold(slabs, 0);
    var sl, p := slabs[b], slabs[b].objs[0];
    TakeOk(b, sl, live.Keys);
    PowMultiple(sl.order);
    SlotInside(b, Pow2(sl.order), p);
    OthersOk(slabs, live.Keys, live.Keys + {p}, b, p);
    assert live[p := size].Keys == live.Keys + {p};
  }

  /** An object returned to a slab that keeps others. */
  lemma PagesAfterGive(pool: seq<nat>, slabs: map<nat, Slab>, live: map<nat, int>, p: nat)
    requires PagesOk(pool, slabs, live) && p in live && PageOf(p) in slabs && slabs[PageOf(p)].used > 1
    ensures var b := PageOf(p);
            PagesOk(pool, slabs[b := slabs[b].(used := slabs[b].used - 1, objs := [p] + slabs[b].objs)], live - {p})
  {
    assert Unfold(slabs, 0);
    var b := PageOf(p);
    GiveOk(b, slabs[b], live.Keys, p);
    OthersOk(slabs, live.Keys, live.Keys - {p}, b, p);
    assert (live - {p}).Keys == live.Keys - {p};
  }

  /** The last object of a slab returned: the page is free, and no live object lies in it. */
  lemma PagesAfterLast(pool: seq<nat>, slabs: map<nat, Slab>, live: map<nat, int>, p: nat)
    requires PagesOk(pool, slabs, live) && p in live && PageOf(p) in slabs && slabs[PageOf(p)].used == 1
    ensures var b := PageOf(p);
            && PagesOk([b] + pool, slabs - {b}, live - {p}) && forall q :: q in live - {p} ==> PageOf(q) != b
  {
    assert Unfold(slabs, 0);
    var b := PageOf(p);
    GiveOk(b, slabs[b], live.Keys, p);
    assert (live - {p}).Keys == live.Keys - {p};
    forall q | q in live - {p}
      ensures PageOf(q) != b
    {
      assert PageOf(q) == b ==> q in LiveIn(live.Keys - {p}, b);
    }
    OthersOk(slabs, live.Keys, live.Keys - {p}, b, p);
    assert forall x :: x in [b] + pool <==> x == b || x in pool;
  }

  /** A slab with more than one object in use has another live object than `p`. */
  lemma Mates(pool: seq<nat>, slabs: map<nat, Slab>, live: map<nat, int>, p: nat)
    requires PagesOk(pool, slabs, live) && p in live && PageOf(p) in slabs && slabs[PageOf(p)].used > 1
    ensures exists q :: q in live - {p} && PageOf(q) == PageOf(p)
  {
    assert Unfold(slabs, 0);
    GiveOk(PageOf(p), slabs[PageOf(p)], live.Keys, p);
    var others := LiveIn(live.Keys - {p}, PageOf(p));
    assert others != {};
    var q :| q in others;
    assert q in live - {p};
  }

  lemma LiveFacts(pool: seq<nat>, slabs: map<nat, Slab>, live: map<nat, int>, p: nat)
    requires PagesOk(pool, slabs, live) && p in live
    ensures PageOf(p) in slabs && slabs[PageOf(p)].used > 0 && 4 <= slabs[PageOf(p)].order <= SLAB_MAX
  {
    assert Unfold(slabs, 0);
  }

  /** A live object is aligned, large enough, past its page's header and inside its page. */
  lemma ObjectPlaced(pool: seq<nat>, slabs: map<nat, Slab>, live: map<nat, int>, p: nat)
    requires PagesOk(pool, slabs, live) && p in live
    ensures p % 16 == 0 && PageOf(p) + HEADER <= p && p + live[p] < PageOf(p) + PAGE_SIZE
    ensures PageOf(p) !in pool && PageOf(p) in slabs && slabs[PageOf(p)].used == |LiveIn(live.Keys, PageOf(p))|
  {
    assert Unfold(slabs, 0);
    var b := PageOf(p);
    assert p in LiveIn(live.Keys, b);
    PowMultiple(slabs[b].order);
    SlotInside(b, Pow2(slabs[b].order), p);
  }

  lemma PagesApart(p: nat, q: nat)
    requires p < q
    ensures PageOf(p) == PageOf(q) || PageOf(p) + PAGE_SIZE <= PageOf(q)
  {
    assert PageOf(p) == p / PAGE_SIZE * PAGE_SIZE && PageOf(q) == q / PAGE_SIZE * PAGE_SIZE;
  }

  lemma SameSlabApart(pool: seq<nat>, slabs: map<nat, Slab>, live: map<nat, int>, p: nat, q: nat)
    requires PagesOk(pool, slabs, live) && p in live && q in live && p < q && PageOf(p) == PageOf(q)
    ensures p + live[p] <= q
  {
    assert Unfold(slabs, 0);
    LiveApart(PageOf(p), slabs[PageOf(p)], live.Keys, p, q);
  }

  /** Two live objects never share a byte. */
  lemma ObjectsApart(pool: seq<nat>, slabs: map<nat, Slab>, live: map<nat, int>, p: nat, q: nat)
    requires PagesOk(pool, slabs, live) && p in live && q in live && p < q
    ensures p + live[p] <= q
  {
    PagesApart(p, q);
    if PageOf(p) == PageOf(q) {
      SameSlabApart(pool, slabs, live, p, q);
    } else {
      ObjectPlaced(pool, slabs, live, p);
    }
  }

  /** A page is free exactly when nobody refers to it; a slab's page is referred to once. */
  ghost predicate RefsOk(refs: map<nat, nat>, pool: seq<nat>, slabs: map<nat, Slab>) {
    && (forall b :: b in slabs ==> b in refs)
    && forall b :: b in refs ==> (refs[b] == 0 <==> b in pool) && (b in slabs ==> refs[b] == 1)
  }

  class Slabs {
    var pool: seq<nat>
    var left: nat
    var refs: map<nat, nat>
    var slabs: map<nat, Slab>
    var partial: seq<seq<nat>>
    var full: seq<seq<nat>>
    ghost var live: map<nat, int>

    ghost predicate Valid()
      reads this
    {
      && PagesOk(pool, slabs, live) && left == |pool| && RefsOk(refs, pool, slabs)
      && Listed(partial, slabs, false) && Listed(full, slabs, true)
    }

    /** All pages are free. */
    constructor (pages: seq<nat>)
      requires NoDup(pages) && forall b :: b in pages ==> b % PAGE_SIZE == 0
      ensures Valid() && live == map[] && pool == pages
    {
      pool, left, slabs, live := pages, |pages|, map[], map[];
      refs := map b | b in pages :: 0;
      partial := seq(SLAB_MAX + 1, _ => []);
      full := seq(SLAB_MAX + 1, _ => []);
    }

    /** The first free page, with one reference to it. */
    method AllocPage() returns (r: Option<nat>)
      requires left == |pool| && NoDup(pool)
      modifies `pool, `left, `refs
      ensures r.None? <==> old(pool) == []
      ensures r.None? ==> pool == old(pool) && left == old(left) && refs == old(refs)
      ensures r.Some? ==> old(pool) == [r.value] + pool && left == |pool| && refs == old(refs)[r.value := 1]
    {
      if pool == [] {
        return None;
      }
      r := Some(pool[0]);
      pool := pool[1..];
      refs := refs[r.value := 1];
      left := left - 1;
    }

    /** One more reference to a page in use. */
    method SharePage(b: nat)
      requires Valid() && b in refs && refs[b] > 0 && b !in slabs
      modifies `refs
      ensures Valid() && refs == old(refs)[b := old(refs)[b] + 1]
    {
      refs := refs[b := refs[b] + 1];
    }

    /** One reference fewer; the page is free again when it was the last. */
    method DropPage(b: nat)
      requires left == |pool| && b in refs && refs[b] > 0
      modifies `pool, `left, `refs
      ensures refs == old(refs)[b := old(refs)[b] - 1] && left == |pool|
      ensures pool == if refs[b] == 0 then [b] + old(pool) else old(pool)
    {
      refs := refs[b := refs[b] - 1];
      if refs[b] == 0 {
        pool := [b] + pool;
        left := left + 1;
      }
    }

    /** A page that is not a slab's is handed out, or given up by one of its users. */
    method TakePage() returns (r: Option<nat>)
      requires Valid()
      modifies `pool, `left, `refs
      ensures Valid() && (r.None? <==> old(pool) == [])
      ensures r.Some? ==> r.value !in slabs && refs == old(refs)[r.value := 1] && old(pool) == [r.value] + pool
    {
      PoolFacts(pool, slabs, live);
      r := AllocPage();
      if r.Some? {
        PoolLess(old(pool), pool, slabs, live, r.value);
      }
    }

    method FreePage(b: nat)
      requires Valid() && b in refs && refs[b] > 0 && b !in slabs && b % PAGE_SIZE == 0
      modifies `pool, `left, `refs
      ensures Valid() && refs == old(refs)[b := old(refs)[b] - 1]
      ensures pool == if refs[b] == 0 then [b] + old(pool) else old(pool)
    {
      PoolMore(pool, slabs, live, b);
      assert forall x :: x in [b] + pool <==> x == b || x in pool;
      DropPage(b);
    }

    /** Cut a fresh page into slots and hand out one. */
    method InitSlab(order: nat, ghost size: int) returns (r: Option<nat>)
      requires Valid() && 4 <= order <= SLAB_MAX && size <= Pow2(order)
      modifies this
      ensures Valid()
      ensures r.None? <==> old(pool) == []
      ensures r.None? ==> live == old(live) && pool == old(pool) && slabs == old(slabs)
      ensures r.Some? ==> r.value !in old(live) && live == old(live)[r.value := size]
      ensures r.Some? ==> old(pool) == [PageOf(r.value)] + pool
      ensures r.Some? ==>
                var b := PageOf(r.value);
                && b in slabs && b !in old(slabs) && slabs == old(slabs)[b := Slab(order, 1, slabs[b].objs)]
                && SlotList(b, Pow2(order), [r.value] + slabs[b].objs)
                && NewlyListed(old(partial), partial, slabs[b].objs != [], order, b)
                && NewlyListed(old(full), full, slabs[b].objs == [], order, b)
    {
      PoolFacts(pool, slabs, live);
      var page := AllocPage();
      if page.None? {
        return None;
      }
      var b := page.value;
      assert forall x :: x in old(pool) <==> x == b || x in pool;
      TailOf(old(pool), b, pool);
      PowMultiple(order);
      var objs := Cut(b, Pow2(order));
      var obj, rest := objs[0], objs[1..];
      assert [obj] + rest == objs;
      ghost var slabs0, live0 := slabs, live;
      slabs := slabs[b := Slab(order, 1, rest)];
      live := live[obj := size];
      PagesAfterNew(old(pool), pool, slabs0, live0, b, order, objs, size);
      if rest == [] {
        full := full[order := [b] + full[order]];
      } else {
        partial := partial[order := [b] + partial[order]];
      }
      ListsAfterNew(old(partial), old(full), slabs0, slabs, b);
      r := Some(obj);
    }

    /** Hand out a slot of the first slab with room, if there is one. */
    method FindInSlab(order: nat, ghost size: int) returns (r: Option<nat>)
      requires Valid() && order <= SLAB_MAX && size <= Pow2(order)
      modifies this
      ensures Valid() && pool == old(pool)
      ensures r.None? <==> old(partial)[order] == []
      ensures r.None? ==> live == old(live)
      ensures r.Some? ==> r.value !in old(live) && live == old(live)[r.value := size]
      ensures r.Some? ==> PageOf(r.value) in slabs && slabs[PageOf(r.value)].order == order
      ensures r.Some? ==>
                && var b := old(partial)[order][0];
                   && b in old(slabs) && old(slabs)[b].objs != [] && r.value == old(slabs)[b].objs[0]
                   && slabs == old(slabs)[b := Slab(order, old(slabs)[b].used + 1, old(slabs)[b].objs[1..])]
                   && partial ==
                     (if slabs[b].objs == [] then old(partial)[order := old(partial)[order][1..]] else old(partial))
                   && NewlyListed(old(full), full, slabs[b].objs == [], order, b)
      ensures r.None? ==> slabs == old(slabs) && partial == old(partial) && full == old(full)
    {
      if partial[order] == [] {
        return None;
      }
      PartialHasRoom(pool, slabs, live, partial, order);
      var b := partial[order][0];
      var sl, slabs0 := slabs[b], slabs;
      var obj := sl.objs[0];
      PagesAfterTake(pool, slabs, live, b, size);
      slabs := slabs[b := sl.(used := sl.used + 1, objs := sl.objs[1..])];
      live := live[obj := size];
      if slabs[b].objs == [] {
        assert slabs - {b} == slabs0 - {b};
        ListMinus(partial, slabs0, slabs, false, b);
        ListPlus(full, slabs0, slabs, true, b);
        partial := partial[order := Without(partial[order], b)];
        full := full[order := [b] + full[order]];
      } else {
        ListKept(partial, slabs0, slabs, false, b);
        ListKept(full, slabs0, slabs, true, b);
      }
      r := Some(obj);
    }

    /**
     An object of at least `size` bytes. A page is taken exactly if no slab of that order has a free slot;
     else the first object of the first such slab is handed out. There is none exactly if no page is left either.
     */
    method Kalloc(size: int) returns (r: Option<nat>, ghost order: nat)
      requires Valid() && size <= 2048
      modifies this
      ensures Valid() && IsOrder(size, order)
      ensures r.None? <==> old(pool) == [] && !HasRoom(old(slabs), order)
      ensures r.None? ==> live == old(live) && slabs == old(slabs) && pool == old(pool)
      ensures r.Some? ==> r.value !in old(live) && live == old(live)[r.value := size]
      ensures HasRoom(old(slabs), order) ==>
                && r.Some? && pool == old(pool) && old(partial)[order] != []
                && var b := old(partial)[order][0];
                   && b in old(slabs) && old(slabs)[b].objs != [] && r.value == old(slabs)[b].objs[0]
                   && slabs == old(slabs)[b := Slab(order, old(slabs)[b].used + 1, old(slabs)[b].objs[1..])]
                   && partial ==
                     (if slabs[b].objs == [] then old(partial)[order := old(partial)[order][1..]] else old(partial))
                   && NewlyListed(old(full), full, slabs[b].objs == [], order, b)
      ensures r.Some? && !HasRoom(old(slabs), order) ==>
                var b := PageOf(r.value);
                && old(pool) == [b] + pool && b in slabs && slabs == old(slabs)[b := Slab(order, 1, slabs[b].objs)]
                && SlotList(b, Pow2(order), [r.value] + slabs[b].objs)
                && NewlyListed(old(partial), partial, slabs[b].objs != [], order, b)
                && NewlyListed(old(full), full, slabs[b].objs == [], order, b)
    {
      var o := Log2(size);
      order := o;
      RoomIsListed(partial, slabs, o);
      r := FindInSlab(o, size);
      if r.None? {
        r := InitSlab(o, size);
      }
    }

    /**
     Return an object; its page goes back when it was the last one in it, and only then. Else it is the first
     object of the slab, and the slab the first with room.
     */
    method Kfree(p: nat)
      requires Valid() && p in live
      modifies this
      ensures Valid() && live == old(live) - {p}
      ensures PageOf(p) in old(slabs) && old(slabs)[PageOf(p)].order <= SLAB_MAX && old(slabs)[PageOf(p)].used > 0
      ensures pool == if exists q :: q in live && PageOf(q) == PageOf(p) then old(pool) else [PageOf(p)] + old(pool)
      ensures var b, stays := PageOf(p), exists q :: q in live && PageOf(q) == PageOf(p);
              var sl := old(slabs)[b];
              && slabs == (if stays then old(slabs)[b := Slab(sl.order, sl.used - 1, [p] + sl.objs)]
                else old(slabs) - {b})
              && partial == old(partial)[sl.order := (if stays then [b] else []) + Without(old(partial)[sl.order], b)]
              && full == old(full)[sl.order := Without(old(full)[sl.order], b)]
    {
      LiveFacts(pool, slabs, live, p);
      var b := PageOf(p);
      var sl, slabs0 := slabs[b], slabs;
      if sl.used - 1 == 0 {
        PagesAfterLast(pool, slabs, live, p);
        slabs := slabs - {b};
        live := live - {p};
        Unlist(slabs0, b);
        assert [] + Without(old(partial)[sl.order], b) == Without(old(partial)[sl.order], b);
        assert forall x :: x in [b] + pool <==> x == b || x in pool;
        DropPage(b);
      } else {
        Mates(pool, slabs, live, p);
        PagesAfterGive(pool, slabs, live, p);
        slabs := slabs[b := sl.(used := sl.used - 1, objs := [p] + sl.objs)];
        live := live - {p};
        Relist(slabs0, b);
      }
    }

    /** What is returned to a slab that stays is what the next request of its order gets. */
    method FreeThenAlloc(p: nat, size: int) returns (r: Option<nat>)
      requires Valid() && p in live && size <= 2048
      requires exists q :: q in live && q != p && PageOf(q) == PageOf(p)
      requires PageOf(p) in slabs && IsOrder(size, slabs[PageOf(p)].order)
      modifies this
      ensures Valid() && r == Some(p) && live == old(live)[p := size] && pool == old(pool)
    {
      ghost var q :| q in live && q != p && PageOf(q) == PageOf(p);
      ghost var o := slabs[PageOf(p)].order;
      Kfree(p);
      assert q in live && slabs[PageOf(p)].order == o;
      ghost var order;
      r, order := Kalloc(size);
      OneOrder(size, o, order);
    }

    lemma OnOneList(slabs0: map<nat, Slab>, b: nat)
      requires Listed(partial, slabs0, false) && Listed(full, slabs0, true) && b in slabs0
      requires slabs0[b].order <= SLAB_MAX
      ensures var o := slabs0[b].order;
              if slabs0[b].objs == [] then Without(partial[o], b) == partial[o] else Without(full[o], b) == full[o]
    {
      if slabs0[b].objs == [] {
        NotListed(partial, slabs0, false, b);
      } else {
        NotListed(full, slabs0, true, b);
      }
    }

    /** Take the slab off the list it is on. */
    method Unlist(slabs0: map<nat, Slab>, b: nat)
      requires Listed(partial, slabs0, false) && Listed(full, slabs0, true) && b in slabs0 &&
               slabs0[b].order <= SLAB_MAX
      requires slabs == slabs0 - {b}
      modifies `partial, `full
      ensures Listed(partial, slabs, false) && Listed(full, slabs, true)
      ensures var o := slabs0[b].order;
              && partial == old(partial)[o := Without(old(partial)[o], b)]
              && full == old(full)[o := Without(old(full)[o], b)]
    {
      var o := slabs0[b].order;
      OnOneList(slabs0, b);
      assert slabs - {b} == slabs0 - {b};
      if slabs0[b].objs == [] {
        ListMinus(full, slabs0, slabs, true, b);
        ListOther(partial, slabs0, slabs, false, b);
        full := full[o := Without(full[o], b)];
      } else {
        ListMinus(partial, slabs0, slabs, false, b);
        ListOther(full, slabs0, slabs, true, b);
        partial := partial[o := Without(partial[o], b)];
      }
    }

    /** Move the slab to the front of the list of those with room. */
    method Relist(slabs0: map<nat, Slab>, b: nat)
      requires Listed(partial, slabs0, false) && Listed(full, slabs0, true) && b in slabs0 &&
               slabs0[b].order <= SLAB_MAX
      requires b in slabs && slabs == slabs0[b := slabs[b]] && slabs[b].objs != [] && slabs[b].order == slabs0[b].order
      modifies `partial, `full
      ensures Listed(partial, slabs, false) && Listed(full, slabs, true)
      ensures var o := slabs0[b].order;
              && partial == old(partial)[o := [b] + Without(old(partial)[o], b)]
              && full == old(full)[o := Without(old(full)[o], b)]
    {
      var o := slabs0[b].order;
      OnOneList(slabs0, b);
      ghost var rest := slabs0 - {b};
      assert rest - {b} == slabs0 - {b} == slabs - {b} && rest[b := slabs[b]] == slabs;
      if slabs0[b].objs == [] {
        ListMinus(full, slabs0, rest, true, b);
        ListOther(partial, slabs0, rest, false, b);
        full := full[o := Without(full[o], b)];
      } else {
        ListMinus(partial, slabs0, rest, false, b);
        ListOther(full, slabs0, rest, true, b);
        partial := partial[o := Without(partial[o], b)];
      }
      ListPlus(partial, rest, slabs, false, b);
      ListOther(full, rest, slabs, true, b);
      partial := partial[o := [b] + partial[o]];
    }
  }
}
