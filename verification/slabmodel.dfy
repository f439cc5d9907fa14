/** Slabs: pages cut into equal slots, some free and some live. */
module SlabModel {
  import opened Common

  const PAGE_SIZE: nat := 4096
  const SLAB_MAX: nat := 11

  /** The bookkeeping at the front of a slab's page, up to its first slot. */
  const HEADER: nat := 48

  function PageOf(p: nat): nat {
    p - p % PAGE_SIZE
  }

  /** The address of slot `k` of the slab at `b`, with slots of `s` bytes. */
  function SlotAt(b: nat, s: nat, k: nat): nat {
    b + HEADER + k * s
  }

  predicate IsSlot(b: nat, s: nat, p: nat)
    requires s > 0
  {
    b + HEADER <= p && p + s < b + PAGE_SIZE && SlotAt(b, s, (p - b - HEADER) / s) == p
  }

  lemma MulMono(s: nat, a: nat, b: nat)
    requires a <= b
    ensures a * s <= b * s
  {
  }

  lemma MulCancel(s: nat, a: nat, b: nat)
    requires a * s < b * s
    ensures a < b
  {
    if b <= a {
      MulMono(s, b, a);
    }
  }

  lemma SlotIndex(s: nat, k: nat)
    requires s > 0
    ensures k * s / s == k
  {
    var q := k * s / s;
    assert q * s == s * q && (q + 1) * s == q * s + s && (k + 1) * s == k * s + s;
    MulCancel(s, q, k + 1);
    MulCancel(s, k, q + 1);
  }

  /** Slots do not overlap. */
  lemma SlotsApart(b: nat, s: nat, p: nat, q: nat)
    requires s > 0 && IsSlot(b, s, p) && IsSlot(b, s, q) && p < q
    ensures p + s <= q
  {
    var k, l := (p - b - HEADER) / s, (q - b - HEADER) / s;
    MulCancel(s, k, l);
    MulMono(s, k + 1, l);
    assert (k + 1) * s == k * s + s;
  }

  /** A slot lies in its slab's page, past the header and on a 16-byte boundary. */
  lemma SlotInside(b: nat, s: nat, p: nat)
    requires s > 0 && s % 16 == 0 && b % PAGE_SIZE == 0 && IsSlot(b, s, p)
    ensures PageOf(p) == b && PageOf(p + s - 1) == b && p % 16 == 0
  {
    var k, m := (p - b - HEADER) / s, s / 16;
    assert s == 16 * m && k * s == 16 * (k * m) by {
      assert k * (16 * m) == 16 * (k * m);
    }
    var c := b / PAGE_SIZE;
    assert b == PAGE_SIZE * c && p == 16 * (256 * c + 3 + k * m);
  }

  // ---------------------------------------------------------------- one slab

  datatype Slab = Slab(order: nat, used: nat, objs: seq<nat>)

  ghost function LiveIn(live: set<nat>, b: nat): set<nat> {
    set p | p in live && PageOf(p) == b
  }

  /** Every slot is either free, once, or live; and the live ones are counted. */
  ghost predicate SlabOk(b: nat, sl: Slab, live: set<nat>) {
    && b % PAGE_SIZE == 0 && 4 <= sl.order <= SLAB_MAX
    && NoDup(sl.objs)
    && (forall p :: IsSlot(b, Pow2(sl.order), p) <==> p in sl.objs || p in LiveIn(live, b))
    && (forall p :: p in sl.objs ==> p !in LiveIn(live, b))
    && sl.used == |LiveIn(live, b)| && sl.used > 0
  }

  lemma PowMultiple(n: nat)
    requires 4 <= n <= SLAB_MAX
    ensures Pow2(n) % 16 == 0 && 16 <= Pow2(n) <= 2048
  {
    assert Pow2(4) == 16;
    assert Pow2(6) == 64;
    assert Pow2(8) == 256;
    assert Pow2(10) == 1024;
  }

  /** Handing out the first free slot. */
  lemma TakeOk(b: nat, sl: Slab, live: set<nat>)
    requires SlabOk(b, sl, live) && sl.objs != []
    ensures SlabOk(b, sl.(used := sl.used + 1, objs := sl.objs[1..]), live + {sl.objs[0]})
    ensures sl.objs[0] !in live && IsSlot(b, Pow2(sl.order), sl.objs[0])
  {
    var p, objs := sl.objs[0], sl.objs[1..];
    assert p in sl.objs && IsSlot(b, Pow2(sl.order), p);
    PowMultiple(sl.order);
    SlotInside(b, Pow2(sl.order), p);
    assert LiveIn(live + {p}, b) == LiveIn(live, b) + {p};
    assert forall q :: q in sl.objs <==> q == p || q in objs;
    assert p !in objs;
  }

  /** Taking a live slot back. */
  lemma GiveOk(b: nat, sl: Slab, live: set<nat>, p: nat)
    requires SlabOk(b, sl, live) && p in LiveIn(live, b)
    ensures p !in sl.objs && LiveIn(live - {p}, b) == LiveIn(live, b) - {p} && |LiveIn(live - {p}, b)| == sl.used - 1
    ensures sl.used > 1 ==> SlabOk(b, sl.(used := sl.used - 1, objs := [p] + sl.objs), live - {p})
  {
    assert LiveIn(live - {p}, b) == LiveIn(live, b) - {p};
    assert forall q :: q in [p] + sl.objs <==> q == p || q in sl.objs;
  }

  /** Nothing changes for a slab in another page. */
  lemma Elsewhere(b: nat, sl: Slab, live: set<nat>, live': set<nat>)
    requires SlabOk(b, sl, live) && LiveIn(live', b) == LiveIn(live, b)
    ensures SlabOk(b, sl, live')
  {
  }

  /** Live objects of one slab do not overlap. */
  lemma LiveApart(b: nat, sl: Slab, live: set<nat>, p: nat, q: nat)
    requires SlabOk(b, sl, live) && p in LiveIn(live, b) && q in LiveIn(live, b) && p < q
    ensures p + Pow2(sl.order) <= q
  {
    SlotsApart(b, Pow2(sl.order), p, q);
  }
}
