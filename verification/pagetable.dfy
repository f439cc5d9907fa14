/** Four-level page tables: what the tables in memory mean, and that every operation keeps it. */
module PageTables {
  import opened Common
  import opened Mmu

  /** A page of physical memory, by its address. */
  datatype Page = Page(addr: bv64)

  /** An index into a table. */
  type Index = nat

  /** The entries of a table that are not zero. */
  type Table = map<Index, bv64>

  type Memory = map<Page, Table>

  function Entry(t: Table, k: Index): bv64 {
    if k in t then t[k] else 0
  }

  function WithEntry(t: Table, k: Index, e: bv64): Table {
    t[k := e]
  }

  /** Where a table sits: the root, or in entry `k` of the table above. */
  datatype Path = Root | Sub(up: Path, k: Index)

  type Places = map<Path, Page>

  function Depth(p: Path): nat {
    match p
    case Root => 0
    case Sub(up, _) => 1 + Depth(up)
  }

  /** What entry `k` of the table at `p` holds: a link to the table below, or nothing. */
  predicate LinkOk(tabs: Memory, at: Places, p: Path, k: Index)
    requires p in at && at[p] in tabs
  {
    Entry(tabs[at[p]], k) == if Sub(p, k) in at then at[Sub(p, k)].addr | PTE_TABLE else 0
  }

  /** The tables form a tree of depth four: `at` says which page holds the table at each place. */
  ghost predicate Shape(root: Option<Page>, tabs: Memory, pool: set<Page>, at: Places) {
    && (root == if Root in at then Some(at[Root]) else None)
    && (forall p :: p in at ==> Depth(p) <= 3 && at[p] in tabs && PageAddr(at[p].addr) && at[p] !in pool)
    && (forall p, q :: p in at && q in at && at[p] == at[q] ==> p == q)
    && (forall p, k: Index :: Sub(p, k) in at ==> p in at && k < 512)
    && (forall p, k: Index :: p in at && Depth(p) < 3 && k < 512 ==> LinkOk(tabs, at, p, k))
    && (forall x :: x in pool ==> PageAddr(x.addr))
  }

  function Part0(va: bv64): Index {
    VaPart0(va) as nat
  }

  function Part1(va: bv64): Index {
    VaPart1(va) as nat
  }

  function Part2(va: bv64): Index {
    VaPart2(va) as nat
  }

  function Part3(va: bv64): Index {
    VaPart3(va) as nat
  }

  lemma SmallIndex(x: bv64)
    requires x < 512
    ensures x as nat < 512
  {
  }

  lemma PartsAreSmall(va: bv64)
    ensures Part0(va) < 512 && Part1(va) < 512 && Part2(va) < 512 && Part3(va) < 512
  {
    PartBounds(va);
    SmallIndex(VaPart0(va));
    SmallIndex(VaPart1(va));
    SmallIndex(VaPart2(va));
    SmallIndex(VaPart3(va));
  }

  lemma BackFromNat(x: bv64)
    ensures (x as nat) as bv64 == x
  {
  }

  lemma SameWord(x: bv64, y: bv64)
    ensures x == y <==> x as nat == y as nat
  {
    BackFromNat(x);
    BackFromNat(y);
  }

  /** The place of the last-level table for an address. */
  function Leaf(va: bv64): Path {
    Sub(Sub(Sub(Root, Part0(va)), Part1(va)), Part2(va))
  }

  /** Entry `k` of the last-level table at `q`, 0 if there is no such table. */
  function Slot(tabs: Memory, at: Places, q: Path, k: Index): bv64 {
    if q in at && at[q] in tabs then Entry(tabs[at[q]], k) else 0
  }

  /** The entry the tables give the page of an address, 0 if there is none. */
  function Pte(tabs: Memory, at: Places, va: bv64): bv64 {
    Slot(tabs, at, Leaf(va), Part3(va))
  }

  /** No last-level entry has changed. */
  ghost predicate SameSlots(tabs: Memory, at: Places, tabs': Memory, at': Places) {
    forall q, k :: Depth(q) == 3 ==> Slot(tabs', at', q, k) == Slot(tabs, at, q, k)
  }

  lemma LeafDepth(va: bv64)
    ensures Depth(Leaf(va)) == 3
  {
    assert Depth(Sub(Root, Part0(va))) == 1;
  }

  /** The links of a table are as they were, but for the one to the table just added. */
  lemma AttachLink(tabs: Memory, tabs': Memory, at: Places, at': Places, p: Path, k: Index, x: Page, q: Path, l: Index)
    requires p in at && at[p] in tabs && Sub(p, k) !in at && x != at[p] && q in at'
    requires tabs' == tabs[x := map[]][at[p] := WithEntry(tabs[at[p]], k, x.addr | PTE_TABLE)] &&
             at' == at[Sub(p, k) := x]
    requires q in at ==> at[q] in tabs && at[q] != x && LinkOk(tabs, at, q, l) && (at[q] == at[p] ==> q == p)
    requires Sub(q, l) in at ==> q in at
    ensures at'[q] in tabs' && LinkOk(tabs', at', q, l)
  {
    assert Depth(Sub(p, k)) == Depth(p) + 1;
    if q == Sub(p, k) {
      assert Sub(q, l) != Sub(p, k);
    }
  }

  /** Linking a zeroed page in as a new table keeps the tree. */
  lemma AttachShape(root: Option<Page>, tabs: Memory, tabs': Memory, pool: set<Page>, at: Places, at': Places,
                    p: Path, k: Index, x: Page)
    requires Shape(root, tabs, pool, at) && p in at && Depth(p) < 3 && k < 512 && Sub(p, k) !in at && x in pool
    requires tabs' == tabs[x := map[]][at[p] := WithEntry(tabs[at[p]], k, x.addr | PTE_TABLE)] &&
             at' == at[Sub(p, k) := x]
    ensures Shape(root, tabs', pool - {x}, at')
  {
    assert Depth(Sub(p, k)) == Depth(p) + 1;
    forall q, l: Index | q in at' && Depth(q) < 3 && l < 512
      ensures at'[q] in tabs' && LinkOk(tabs', at', q, l)
    {
      AttachLink(tabs, tabs', at, at', p, k, x, q, l);
    }
    forall q, r | q in at' && r in at' && at'[q] == at'[r]
      ensures q == r
    {
    }
  }

  lemma AttachSlot(tabs: Memory, tabs': Memory, at: Places, at': Places, p: Path, k: Index, x: Page, t: Table, q: Path,
                   l: Index)
    requires p in at && q != p && Sub(p, k) !in at && x != at[p]
    requires q in at ==> at[q] != at[p] && at[q] != x
    requires tabs' == tabs[x := map[]][at[p] := t] && at' == at[Sub(p, k) := x]
    ensures Slot(tabs', at', q, l) == Slot(tabs, at, q, l)
  {
    if q == Sub(p, k) {
      assert tabs'[x] == map[];
      assert Entry(tabs'[x], l) == 0;
    } else {
      assert q in at' <==> q in at;
      assert q in at ==>
               at'[q] == at[q] && (at[q] in tabs <==> at[q] in tabs') &&
               (at[q] in tabs ==> tabs'[at[q]] == tabs[at[q]]);
    }
  }

  /** It maps nothing and unmaps nothing. */
  lemma AttachMap(root: Option<Page>, tabs: Memory, tabs': Memory, pool: set<Page>, at: Places, at': Places,
                  p: Path, k: Index, x: Page, t: Table)
    requires Shape(root, tabs, pool, at) && p in at && Depth(p) < 3 && Sub(p, k) !in at && x in pool
    requires tabs' == tabs[x := map[]][at[p] := t] && at' == at[Sub(p, k) := x]
    ensures SameSlots(tabs, at, tabs', at')
  {
    forall q, l | Depth(q) == 3
      ensures Slot(tabs', at', q, l) == Slot(tabs, at, q, l)
    {
      AttachSlot(tabs, tabs', at, at', p, k, x, t, q, l);
    }
  }

  lemma StoreSlot(tabs: Memory, tabs': Memory, at: Places, p: Path, k: Index, e: bv64, q: Path, l: Index)
    requires p in at && at[p] in tabs && tabs' == tabs[at[p] := WithEntry(tabs[at[p]], k, e)]
    requires q in at && at[q] == at[p] ==> q == p
    ensures Slot(tabs', at, q, l) == if q == p && l == k then e else Slot(tabs, at, q, l)
  {
  }

  /** Storing a last-level entry keeps the tree and sets that slot alone. */
  lemma StoreLeaf(root: Option<Page>, tabs: Memory, tabs': Memory, pool: set<Page>, at: Places, p: Path, k: Index,
                  e: bv64)
    requires Shape(root, tabs, pool, at) && p in at && Depth(p) == 3 &&
             tabs' == tabs[at[p] := WithEntry(tabs[at[p]], k, e)]
    ensures Shape(root, tabs', pool, at)
    ensures forall q, l :: Depth(q) == 3 ==>
              Slot(tabs', at, q, l) == if q == p && l == k then e else Slot(tabs, at, q, l)
  {
    forall q, l: Index | q in at && Depth(q) < 3 && l < 512
      ensures LinkOk(tabs', at, q, l)
    {
      assert LinkOk(tabs, at, q, l) && at[q] != at[p];
    }
    forall q, l | Depth(q) == 3
      ensures Slot(tabs', at, q, l) == if q == p && l == k then e else Slot(tabs, at, q, l)
    {
      StoreSlot(tabs, tabs', at, p, k, e, q, l);
    }
  }

  /** The slot of an address is that of its page and of no other. */
  lemma SlotIsPage(a: bv64, b: bv64)
    ensures Leaf(a) == Leaf(b) && Part3(a) == Part3(b) <==> PageOf(a) == PageOf(b)
  {
    SameWord(VaPart0(a), VaPart0(b));
    SameWord(VaPart1(a), VaPart1(b));
    SameWord(VaPart2(a), VaPart2(b));
    SameWord(VaPart3(a), VaPart3(b));
    PartsDecide(a, b);
  }

  lemma {:induction false} NoRootNoTable(root: Option<Page>, tabs: Memory, pool: set<Page>, at: Places, p: Path)
    requires Shape(root, tabs, pool, at) && root.None?
    ensures p !in at
  {
    if p.Sub? {
      NoRootNoTable(root, tabs, pool, at, p.up);
    }
  }

  lemma NoRootNoTables(root: Option<Page>, tabs: Memory, pool: set<Page>, at: Places)
    requires Shape(root, tabs, pool, at) && root.None?
    ensures at == map[]
  {
    forall p | p in at
      ensures false
    {
      NoRootNoTable(root, tabs, pool, at, p);
    }
  }

  lemma LinkMeans(e: bv64, x: Page, there: bool)
    requires e == (if there then x.addr | PTE_TABLE else 0) && (there ==> PageAddr(x.addr))
    ensures (IsValid(e) <==> there) && (e != 0 <==> there) && (there ==> PteAddress(e) == x.addr)
  {
    if there {
      TableEntry(x.addr);
    }
  }

  lemma ReadLink(root: Option<Page>, tabs: Memory, pool: set<Page>, at: Places, p: Path, k: Index)
    requires Shape(root, tabs, pool, at) && p in at && Depth(p) < 3 && k < 512
    ensures var e := Entry(tabs[at[p]], k);
            && (IsValid(e) <==> Sub(p, k) in at) && (e != 0 <==> Sub(p, k) in at)
            && (IsValid(e) ==> Page(PteAddress(e)) == at[Sub(p, k)])
  {
    assert LinkOk(tabs, at, p, k);
    LinkMeans(Entry(tabs[at[p]], k), if Sub(p, k) in at then at[Sub(p, k)] else at[p], Sub(p, k) in at);
  }

  // ---------------------------------------------------------------- freeing

  /** The place above `q` at depth `d`, or `q` itself. */
  function Above(q: Path, d: nat): (r: Path)
    requires d <= Depth(q)
    ensures Depth(r) == d
  {
    if Depth(q) == d then q else Above(q.up, d)
  }

  lemma {:induction false} AboveUp(q: Path, d: nat)
    requires d < Depth(q)
    ensures Above(q, d + 1).Sub? && Above(q, d + 1).up == Above(q, d)
  {
    if Depth(q) > d + 1 {
      AboveUp(q.up, d);
    }
  }

  lemma {:induction false} AboveIsThere(root: Option<Page>, tabs: Memory, pool: set<Page>, at: Places, q: Path, d: nat)
    requires Shape(root, tabs, pool, at) && q in at && d <= Depth(q)
    ensures Above(q, d) in at
  {
    if Depth(q) > d {
      assert q == Sub(q.up, q.k);
      AboveIsThere(root, tabs, pool, at, q.up, d);
    }
  }

  predicate Under(q: Path, p: Path) {
    Depth(q) >= Depth(p) && Above(q, Depth(p)) == p
  }

  /** Under `p`, through an entry before `i`. */
  predicate UnderBefore(q: Path, p: Path, i: nat) {
    Depth(q) > Depth(p) && Above(q, Depth(p)) == p && Above(q, Depth(p) + 1).Sub? && Above(q, Depth(p) + 1).k < i
  }

  ghost function Tables(at: Places, p: Path): set<Page> {
    set q | q in at && Under(q, p) :: at[q]
  }

  ghost function TablesBefore(at: Places, p: Path, i: nat): set<Page> {
    set q | q in at && UnderBefore(q, p, i) :: at[q]
  }

  lemma UnderNext(q: Path, p: Path, i: nat)
    ensures UnderBefore(q, p, i + 1) <==> UnderBefore(q, p, i) || Under(q, Sub(p, i))
    ensures Under(q, Sub(p, i)) ==> !UnderBefore(q, p, i)
  {
    assert Depth(Sub(p, i)) == Depth(p) + 1;
    if Depth(q) > Depth(p) {
      AboveUp(q, Depth(p));
    }
  }

  lemma TablesNext(root: Option<Page>, tabs: Memory, pool: set<Page>, at: Places, p: Path, i: nat)
    requires Shape(root, tabs, pool, at)
    ensures TablesBefore(at, p, i + 1) == TablesBefore(at, p, i) + Tables(at, Sub(p, i))
    ensures TablesBefore(at, p, i) !! Tables(at, Sub(p, i))
    ensures Sub(p, i) !in at ==> Tables(at, Sub(p, i)) == {}
  {
    forall q
      ensures UnderBefore(q, p, i + 1) <==> UnderBefore(q, p, i) || Under(q, Sub(p, i))
      ensures Under(q, Sub(p, i)) ==> !UnderBefore(q, p, i)
    {
      UnderNext(q, p, i);
    }
    forall q | q in at && Under(q, Sub(p, i))
      ensures Sub(p, i) in at
    {
      AboveIsThere(root, tabs, pool, at, q, Depth(Sub(p, i)));
    }
  }

  lemma TablesWithin(at: Places, p: Path, i: nat)
    requires Sub(p, i) in at
    ensures Tables(at, Sub(p, i)) <= Tables(at, p)
  {
    forall q | q in at && Under(q, Sub(p, i))
      ensures Under(q, p)
    {
      AboveUp(q, Depth(p));
    }
  }

  lemma {:induction false} AboveRoot(q: Path)
    ensures Above(q, 0) == Root
  {
    if q.Sub? {
      AboveRoot(q.up);
    }
  }

  lemma AllUnderRoot(at: Places)
    ensures Tables(at, Root) == at.Values
  {
    forall q
      ensures Under(q, Root)
    {
      AboveRoot(q);
    }
  }

  lemma UnderAll(root: Option<Page>, tabs: Memory, pool: set<Page>, at: Places, p: Path, q: Path)
    requires Shape(root, tabs, pool, at) && q in at
    ensures Under(q, p) <==> q == p || UnderBefore(q, p, 512)
    ensures UnderBefore(q, p, 512) ==> q != p && Depth(p) < 3
  {
    if Depth(q) > Depth(p) {
      AboveUp(q, Depth(p));
      AboveIsThere(root, tabs, pool, at, q, Depth(p) + 1);
      assert Above(q, Depth(p) + 1) == Sub(Above(q, Depth(p)), Above(q, Depth(p) + 1).k);
    }
  }

  lemma TablesSplit(at: Places, p: Path)
    requires p in at && forall q :: q in at && at[q] == at[p] ==> q == p
    requires forall q :: q in at ==> (Under(q, p) <==> q == p || UnderBefore(q, p, 512))
    requires forall q :: q in at && UnderBefore(q, p, 512) ==> q != p && Depth(p) < 3
    ensures Tables(at, p) == TablesBefore(at, p, 512) + {at[p]} && at[p] !in TablesBefore(at, p, 512)
    ensures TablesBefore(at, p, 0) == {} && (Depth(p) == 3 ==> TablesBefore(at, p, 512) == {})
  {
  }

  lemma TablesAll(root: Option<Page>, tabs: Memory, pool: set<Page>, at: Places, p: Path)
    requires Shape(root, tabs, pool, at) && p in at
    ensures Tables(at, p) == TablesBefore(at, p, 512) + {at[p]} && at[p] !in TablesBefore(at, p, 512)
    ensures TablesBefore(at, p, 0) == {} && (Depth(p) == 3 ==> TablesBefore(at, p, 512) == {})
  {
    forall q | q in at
      ensures Under(q, p) <==> q == p || UnderBefore(q, p, 512)
      ensures UnderBefore(q, p, 512) ==> q != p && Depth(p) < 3
    {
      UnderAll(root, tabs, pool, at, p, q);
    }
    TablesSplit(at, p);
  }

  /** The page and the flags mapped are read back from the entry. */
  lemma MappedReadsBack(ka: bv64, flags: bv64)
    requires PageAddr(K2P(ka)) && PteAddress(flags) == 0
    ensures P2K(PteAddress(K2P(ka) | flags)) == ka && PteFlags(K2P(ka) | flags) == flags
  {
    EntryRoundTrip(K2P(ka), flags);
    KernelRoundTrip(ka);
  }

  /** Every slot of every last-level table is that of a page. */
  lemma EverySlotIsAPage(tabs: Memory, at: Places, k0: bv64, k1: bv64, k2: bv64, k3: bv64) returns (va: bv64)
    requires k0 < 512 && k1 < 512 && k2 < 512 && k3 < 512
    ensures PageOf(va) == va
    ensures Slot(tabs, at, Sub(Sub(Sub(Root, k0 as nat), k1 as nat), k2 as nat), k3 as nat) == Pte(tabs, at, va)
  {
    va := (k0 << 39) | (k1 << 30) | (k2 << 21) | (k3 << 12);
    PartsCover(k0, k1, k2, k3);
  }

  function Absent(at: Places, p: Path): nat {
    if p in at then 0 else 1
  }

  /** How many of the tables on the way to an address there are not yet. */
  function Missing(at: Places, va: bv64): nat {
    var p0 := Sub(Root, Part0(va));
    Absent(at, Root) + Absent(at, p0) + Absent(at, Sub(p0, Part1(va))) + Absent(at, Leaf(va))
  }

  class PageTable {
    var root: Option<Page>
    var tabs: Memory
    var pool: set<Page>
    ghost var at: Places

    ghost predicate Valid()
      reads this
    {
      Shape(root, tabs, pool, at)
    }

    /** A new address space: a root table and nothing mapped. */
    constructor (free: set<Page>)
      requires free != {} && forall x :: x in free ==> PageAddr(x.addr)
      ensures Valid() && Root in at && forall va :: Pte(tabs, at, va) == 0
    {
      var x :| x in free;
      root, tabs, pool, at := Some(x), map[x := map[]], free - {x}, map[Root := x];
    }

    /** A free page, zeroed. */
    method NewTable() returns (x: Page)
      requires pool != {}
      modifies `tabs, `pool
      ensures x in old(pool) && pool == old(pool) - {x} && tabs == old(tabs)[x := map[]]
    {
      x :| x in pool;
      pool := pool - {x};
      tabs := tabs[x := map[]];
    }

    /** The table in entry `k` of table `t`, made if need be and if asked to. */
    method NextTable(t: Page, k: Index, alloc: bool, ghost p: Path) returns (r: Option<Page>)
      requires Valid() && p in at && at[p] == t && Depth(p) < 3 && k < 512 &&
               (alloc ==> Absent(at, Sub(p, k)) <= |pool|)
      modifies `tabs, `pool, `at
      ensures Valid() && SameSlots(old(tabs), old(at), tabs, at)
      ensures r.None? <==> !alloc && Sub(p, k) !in old(at)
      ensures r.Some? ==> Sub(p, k) in at && at[Sub(p, k)] == r.value
      ensures !alloc ==> tabs == old(tabs) && pool == old(pool) && at == old(at)
      ensures alloc ==> |pool| == |old(pool)| - Absent(old(at), Sub(p, k))
      ensures forall q :: q in old(at) ==> q in at && at[q] == old(at)[q]
      ensures forall q :: q in at ==> q in old(at) || q == Sub(p, k)
    {
      var e := Entry(tabs[t], k);
      ReadLink(root, tabs, pool, at, p, k);
      if !IsValid(e) && !alloc {
        return None;
      }
      if !IsValid(e) {
        ghost var tabs0, pool0, at0 := tabs, pool, at;
        var x := NewTable();
        tabs := tabs[t := WithEntry(tabs[t], k, x.addr | PTE_TABLE)];
        at := at[Sub(p, k) := x];
        AttachShape(root, tabs0, tabs, pool0, at0, at, p, k, x);
        AttachMap(root, tabs0, tabs, pool0, at0, at, p, k, x, tabs[t]);
        return Some(x);
      }
      return Some(Page(PteAddress(e)));
    }

    /** The root table, made if need be and if asked to. */
    method RootTable(alloc: bool) returns (r: Option<Page>)
      requires Valid() && (alloc ==> Absent(at, Root) <= |pool|)
      modifies this
      ensures Valid() && SameSlots(old(tabs), old(at), tabs, at)
      ensures r.None? <==> !alloc && Root !in old(at)
      ensures r.Some? ==> Root in at && at[Root] == r.value
      ensures !alloc ==> root == old(root) && tabs == old(tabs) && pool == old(pool) && at == old(at)
      ensures alloc ==> |pool| == |old(pool)| - Absent(old(at), Root)
      ensures forall q :: q in old(at) ==> q in at && at[q] == old(at)[q]
      ensures forall q :: q in at ==> q in old(at) || q == Root
    {
      if root.None? && !alloc {
        return None;
      }
      if root.None? {
        NoRootNoTables(root, tabs, pool, at);
        var x := NewTable();
        root := Some(x);
        at := map[Root := x];
      }
      return root;
    }

    /** The table two levels down on the way to an address. */
    method UpperTables(va: bv64, alloc: bool) returns (r: Option<Page>)
      requires Valid() && (alloc ==> Absent(at, Root) + Absent(at, Sub(Root, Part0(va))) <= |pool|)
      modifies this
      ensures Valid() && SameSlots(old(tabs), old(at), tabs, at)
      ensures r.None? <==> !alloc && Sub(Root, Part0(va)) !in old(at)
      ensures r.Some? ==> Sub(Root, Part0(va)) in at && r.value == at[Sub(Root, Part0(va))]
      ensures !alloc ==> root == old(root) && tabs == old(tabs) && pool == old(pool) && at == old(at)
      ensures alloc ==> |pool| == |old(pool)| - Absent(old(at), Root) - Absent(old(at), Sub(Root, Part0(va)))
      ensures forall q :: q in old(at) ==> q in at && at[q] == old(at)[q]
      ensures forall q :: q in at ==> q in old(at) || Depth(q) <= 1
    {
      PartsAreSmall(va);
      r := RootTable(alloc);
      if r.Some? {
        r := NextTable(r.value, Part0(va), alloc, Root);
      }
    }

    /** Where the entry for an address is; with `alloc`, the tables on the way to it are made. */
    method GetPte(va: bv64, alloc: bool) returns (r: Option<(Page, Index)>)
      requires Valid() && (alloc ==> Missing(at, va) <= |pool|)
      modifies this
      ensures Valid() && SameSlots(old(tabs), old(at), tabs, at)
      ensures r.None? <==> !alloc && Leaf(va) !in old(at)
      ensures r.Some? ==> Leaf(va) in at && r.value == (at[Leaf(va)], Part3(va))
      ensures !alloc ==> root == old(root) && tabs == old(tabs) && pool == old(pool) && at == old(at)
      ensures alloc ==> |pool| == |old(pool)| - Missing(old(at), va)
    {
      PartsAreSmall(va);
      var p0 := Sub(Root, Part0(va));
      var p1 := Sub(p0, Part1(va));
      var t := UpperTables(va, alloc);
      if t.Some? {
        t := NextTable(t.value, Part1(va), alloc, p0);
        if t.Some? {
          t := NextTable(t.value, Part2(va), alloc, p1);
          if t.Some? {
            return Some((t.value, Part3(va)));
          }
        }
      }
      return None;
    }

    /** Map the page of `va`, and no other page. */
    method Vmmap(va: bv64, ka: bv64, flags: bv64)
      requires Valid() && Missing(at, va) <= |pool|
      modifies this
      ensures Valid()
      ensures forall v :: Pte(tabs, at, v) == if PageOf(v) == PageOf(va) then K2P(ka) | flags
              else Pte(old(tabs), old(at), v)
      ensures |pool| == |old(pool)| - Missing(old(at), va)
    {
      var r := GetPte(va, true);
      var (t, k) := r.value;
      ghost var tabs0 := tabs;
      tabs := tabs[t := WithEntry(tabs[t], k, K2P(ka) | flags)];
      LeafDepth(va);
      StoreLeaf(root, tabs0, tabs, pool, at, Leaf(va), k, K2P(ka) | flags);
      forall v
        ensures Pte(tabs, at, v) == if PageOf(v) == PageOf(va) then K2P(ka) | flags else Pte(old(tabs), old(at), v)
      {
        LeafDepth(v);
        SlotIsPage(v, va);
      }
    }

    /** Give a page back. Doing so twice is what callers must not do. */
    method FreePage(x: Page)
      requires x !in pool
      modifies `pool
      ensures pool == old(pool) + {x}
    {
      pool := pool + {x};
    }

    /** Free the table at `p`, of `n` levels, and every table under it: each once, and nothing else. */
    method TraverseFree(t: Page, n: nat, ghost p: Path, ghost pool0: set<Page>)
      requires Shape(root, tabs, pool0, at) && p in at && at[p] == t && 1 <= n <= 4 && Depth(p) + n == 4
      requires pool !! Tables(at, p)
      modifies `pool
      ensures pool == old(pool) + Tables(at, p)
      decreases n, 1
    {
      TablesAll(root, tabs, pool0, at, p);
      if n - 1 > 0 {
        FreeBelow(t, n, p, pool0);
      }
      FreePage(t);
    }

    /** Free all tables under the one at `p`. */
    method FreeBelow(t: Page, n: nat, ghost p: Path, ghost pool0: set<Page>)
      requires Shape(root, tabs, pool0, at) && p in at && at[p] == t && 2 <= n <= 4 && Depth(p) + n == 4
      requires pool !! Tables(at, p)
      modifies `pool
      ensures pool == old(pool) + TablesBefore(at, p, 512)
      decreases n, 0
    {
      TablesAll(root, tabs, pool0, at, p);
      var i := 0;
      while i < 512
        invariant 0 <= i <= 512 && pool == old(pool) + TablesBefore(at, p, i)
      {
        TablesNext(root, tabs, pool0, at, p, i);
        ReadLink(root, tabs, pool0, at, p, i);
        var e := Entry(tabs[t], i);
        if e != 0 {
          TablesWithin(at, p, i);
          TraverseFree(Page(PteAddress(e)), n - 1, Sub(p, i), pool0);
        }
        i := i + 1;
      }
    }

    /** Free the tables of an address space; the pages it maps are left alone. */
    method FreePgdir()
      requires Valid()
      modifies `pool
      ensures pool == old(pool) + at.Values && pool - old(pool) == at.Values
    {
      if root.Some? {
        AllUnderRoot(at);
        TraverseFree(root.value, 4, Root, pool);
      } else {
        NoRootNoTables(root, tabs, pool, at);
      }
    }
  }
}
