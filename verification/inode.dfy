/** The inode layer's operations over the blocks it sees through the cache. */
module InodeLayer {
  import opened Common
  import opened Bytes
  import opened Bitmap
  import opened InodeModel
  import opened InodeWorld
  import opened InodeCost
  import opened LogBudget
  import LogProtocol

  /** An inode in memory: how many hold it, and its entry. */
  datatype Inode = Inode(rc: nat, entry: Entry)

  /** One block taken: everything but the free map and that block stays. */
  ghost predicate Took(sb: SuperBlock, w: World, w': World, b: nat) {
    && sb.BitmapBlock(b) in w.st
    && w' == w.(st := SetBit(sb, w.st, b, true)[b := Zeros(BLOCK_SIZE)], hand := w.hand + {b})
  }

  /** File `i` has got one more block, all zero, and nothing else has changed for any file. */
  ghost predicate GrewByOne(sb: SuperBlock, w: World, w': World, i: nat)
    requires sb.Valid()
  {
    && i in w.ents && i in w.len && i in w'.ents
    && w'.ents == w.ents[i := w.ents[i].(addrs := w'.ents[i].addrs, indirect := w'.ents[i].indirect)]
    && w'.len == w.len[i := w.len[i] + 1] && w'.hand == w.hand
    && Flats(w') == Flats(w)[i := FlatOf(w, i) + Zeros(BLOCK_SIZE)]
    && (forall x :: 0 <= x < sb.bitmapStart && x in w.st ==> x in w'.st && w'.st[x] == w.st[x])
    && GrewTo(sb, w, w', i)
  }

  /** Blocks that go from free to owned. */
  lemma FreeAfter(sb: SuperBlock, w: World, w': World, got: set<nat>)
    requires sb.Valid() && w'.own.Keys == w.own.Keys + got && w'.hand == w.hand
    ensures Free(sb, w') == Free(sb, w) - got
  {
    forall b
      ensures b in w'.own <==> b in w.own || b in got
    {
      assert b in w'.own <==> b in w.own.Keys + got;
    }
  }

  lemma TookFacts(sb: SuperBlock, w: World, w': World, b: nat)
    requires Sound(sb, w) && NextFree(sb, w, b) && Took(sb, w, w', b)
    ensures forall x :: 0 <= x < sb.bitmapStart && x in w.st ==> x in w'.st && w'.st[x] == w.st[x]
    ensures forall x :: x in w.own && x in w.st ==> x in w'.st && w'.st[x] == w.st[x]
    ensures b in w'.st && w'.st[b] == Zeros(BLOCK_SIZE) && b < 0x1_0000_0000
  {
    assert Look(Choosing, 0);
    OwnedIsThere(sb, w);
  }

  /** The new addresses, told from the store before the blocks were taken. */
  lemma GrewAddrs(sb: SuperBlock, w: World, w1: World, w2: World, i: nat, b: nat)
    requires Sound(sb, w) && i in w.ents && i in w.len && w.len[i] < INODE_MAX_BLOCKS && i in w2.ents
    requires forall x :: x in w.own && x in w.st ==> x in w1.st && w1.st[x] == w.st[x]
    requires AddrsGrow(w1.st, w2.st, w.ents[i], w2.ents[i], w.len[i], b)
    ensures forall j :: 0 <= j < w.len[i] ==> Addr(w2.st, w2.ents[i], j) == Addr(w.st, w.ents[i], j)
  {
    FileFacts(sb, w.st, w.own, w.ents, w.len, i);
    SameAddrs(w.st, w1.st, w.own, i, w.ents[i], w.len[i]);
  }

  lemma GrewIntoOk(sb: SuperBlock, w: World, w': World, i: nat, got: set<nat>)
    requires sb.Valid() && i in w.ents && i in w.len && i in w'.ents && w.len[i] < INODE_MAX_BLOCKS
    requires w'.len == w.len[i := w.len[i] + 1] && w'.hand == w.hand && w'.own.Keys == w.own.Keys + got
    requires got == Next(sb, w, i, w.len[i] + 1) && Need(w.len[i], w.len[i] + 1) <= |Free(sb, w)|
    requires forall j :: 0 <= j < w.len[i] ==> Addr(w'.st, w'.ents[i], j) == Addr(w.st, w.ents[i], j)
    requires INODE_NUM_DIRECT < w.len[i] ==> w'.ents[i].indirect == w.ents[i].indirect
    requires w.len[i] == INODE_NUM_DIRECT ==> w'.ents[i].indirect in got
    ensures GrewTo(sb, w, w', i)
  {
    FreeAfter(sb, w, w', got);
  }

  /** From `w`, taking some blocks gave `w1`, attaching them gave `w2`. */
  lemma GrewOk(sb: SuperBlock, w: World, w1: World, w2: World, i: nat)
    requires sb.Valid() && Flats(w1) == Flats(w) && w1.ents == w.ents
    requires i in w.ents && i in w.len && i in w2.ents
    requires w2.ents == w.ents[i := w.ents[i].(addrs := w2.ents[i].addrs, indirect := w2.ents[i].indirect)]
    requires w2.len == w.len[i := w.len[i] + 1] && w2.hand == w.hand
    requires Flats(w2) == Flats(w1)[i := FlatOf(w1, i) + Zeros(BLOCK_SIZE)]
    requires forall x :: 0 <= x < sb.bitmapStart && x in w.st ==> x in w2.st && w2.st[x] == w.st[x]
    requires GrewTo(sb, w, w2, i)
    ensures GrewByOne(sb, w, w2, i)
  {
    assert FlatOf(w1, i) == FlatOf(w, i) by {
      assert Flats(w1)[i] == Flats(w)[i];
    }
  }

  lemma TookOne(sb: SuperBlock, w: World, w': World, i: nat, b: nat)
    requires NextFree(sb, w, b) && i in w.ents && i in w.len && i in w'.ents && w.len[i] < INODE_MAX_BLOCKS
    requires w'.len == w.len[i := w.len[i] + 1] && w'.hand == w.hand && w'.own.Keys == w.own.Keys + {b}
    requires w.len[i] != INODE_NUM_DIRECT && w'.ents[i].indirect == w.ents[i].indirect
    requires forall j :: 0 <= j < w.len[i] ==> Addr(w'.st, w'.ents[i], j) == Addr(w.st, w.ents[i], j)
    ensures GrewTo(sb, w, w', i)
  {
    assert Look(Choosing, 0);
    Some1(Free(sb, w), b);
    GrewIntoOk(sb, w, w', i, {b});
  }

  lemma GrewDirect(sb: SuperBlock, w: World, w1: World, w2: World, i: nat, b: nat)
    requires Sound(sb, w) && Sound(sb, w1) && NextFree(sb, w, b) && Took(sb, w, w1, b) && Flats(w1) == Flats(w)
    requires w.hand == {} && i in w.ents && i in w.len && w.len[i] < INODE_NUM_DIRECT
    requires w2 == w1.(own := w.own[b := Data(i, w.len[i])],
                       ents := w.ents[i := w.ents[i].(addrs := w.ents[i].addrs[w.len[i] := b])],
                       len := w.len[i := w.len[i] + 1], hand := {})
    ensures Sound(sb, w2)
    ensures GrewByOne(sb, w, w2, i)
  {
    assert w1.hand - {b} == {};
    GrowDirect(sb, w1, w2, i, b);
    TookFacts(sb, w, w1, b);
    DirectGrows(w1.st, w.ents[i], w.len[i], b);
    GrewAddrs(sb, w, w1, w2, i, b);
    TookOne(sb, w, w2, i, b);
    GrewOk(sb, w, w1, w2, i);
  }

  lemma Some1(f: set<nat>, b: nat)
    requires b in f
    ensures 1 <= |f|
  {
    assert f == f - {b} + {b};
  }

  lemma GrewIndirect(sb: SuperBlock, w: World, w1: World, w2: World, i: nat, t: nat, b: nat)
    requires Sound(sb, w) && Sound(sb, w1) && NextFree(sb, w, b) && Took(sb, w, w1, b) && Flats(w1) == Flats(w)
    requires w.hand == {} && i in w.ents && i in w.len && INODE_NUM_DIRECT < w.len[i] < INODE_MAX_BLOCKS
    requires t == w.ents[i].indirect && t in w1.st && b < 0x1_0000_0000
    requires w2 == w1.(st := w1.st[t := PutWord(w1.st[t], 4, w.len[i] - INODE_NUM_DIRECT, b)],
                       own := w.own[b := Data(i, w.len[i])], len := w.len[i := w.len[i] + 1], hand := {})
    ensures Sound(sb, w2)
    ensures GrewByOne(sb, w, w2, i)
  {
    assert w1.hand - {b} == {};
    TableIsThere(sb, w1, i);
    GrowIndirect(sb, w1, w2, i, b);
    TookFacts(sb, w, w1, b);
    TableGrows(w1.st, w.ents[i], w.ents[i], w.len[i], b);
    GrewAddrs(sb, w, w1, w2, i, b);
    TookOne(sb, w, w2, i, b);
    GrewOk(sb, w, w1, w2, i);
  }

  /** A block taken is free no more. */
  lemma TookFree(sb: SuperBlock, w: World, w': World, b: nat)
    requires Sound(sb, w) && NextFree(sb, w, b) && Took(sb, w, w', b)
    ensures Free(sb, w') == Free(sb, w) - {b} && |Free(sb, w)| == |Free(sb, w')| + 1
  {
    assert Look(Choosing, 0);
    assert Free(sb, w) == Free(sb, w') + {b};
  }

  lemma TookTwo(sb: SuperBlock, w: World, w1: World, w2: World, t: nat, b: nat)
    requires Sound(sb, w) && NextFree(sb, w, t) && Took(sb, w, w1, t)
    requires Sound(sb, w1) && NextFree(sb, w1, b) && Took(sb, w1, w2, b)
    ensures forall x :: 0 <= x < sb.bitmapStart && x in w.st ==> x in w2.st && w2.st[x] == w.st[x]
    ensures forall x :: x in w.own && x in w.st ==> x in w2.st && w2.st[x] == w.st[x]
    ensures t != b && t in w2.st && w2.st[t] == Zeros(BLOCK_SIZE) && w2.st[b] == Zeros(BLOCK_SIZE)
    ensures w2.hand == w.hand + {t, b}
  {
    assert Look(Choosing, 0);
    TookFacts(sb, w, w1, t);
    TookFacts(sb, w1, w2, b);
  }

  /** The lowest free block and the lowest of the rest are the two lowest. */
  lemma LowestTwo(f: set<nat>, t: nat, b: nat)
    requires t in f && b in f && b != t && {t} == Lowest(f, 1) && {b} == Lowest(f - {t}, 1)
    ensures Lowest(f, 2) == {t, b} && 2 <= |f|
  {
    LowestAdds(f, 1, 1, {t});
    assert f == f - {t} + {t};
    Some1(f - {t}, b);
  }

  /** Blocks `t` and `b` have been taken for file `i`, whose direct blocks are full. */
  ghost predicate TookBoth(sb: SuperBlock, w: World, w1: World, w2: World, i: nat, t: nat, b: nat) {
    && Sound(sb, w) && NextFree(sb, w, t) && Took(sb, w, w1, t)
    && Sound(sb, w1) && NextFree(sb, w1, b) && Took(sb, w1, w2, b) && t in w2.st && b < 0x1_0000_0000
    && w.hand == {} && i in w.ents && i in w.len && w.len[i] == INODE_NUM_DIRECT && w.ents[i].indirect == 0
  }

  /** File `i` after it got `t` as its table and `b` as its next block. */
  ghost function WithTable(w: World, w2: World, i: nat, t: nat, b: nat): World
    requires t in w2.st && i in w.ents && b < 0x1_0000_0000
  {
    w2.(st := w2.st[t := PutWord(w2.st[t], 4, 0, b)], own := w.own[t := Table(i)][b := Data(i, INODE_NUM_DIRECT)],
        ents := w.ents[i := w.ents[i].(indirect := t)], len := w.len[i := INODE_NUM_DIRECT + 1], hand := {})
  }

  lemma BothLowest(sb: SuperBlock, w: World, w1: World, w2: World, i: nat, t: nat, b: nat)
    requires TookBoth(sb, w, w1, w2, i, t, b)
    ensures Next(sb, w, i, INODE_NUM_DIRECT + 1) == {t, b} && 2 <= |Free(sb, w)|
  {
    assert Look(Choosing, 0);
    TookFree(sb, w, w1, t);
    LowestTwo(Free(sb, w), t, b);
  }

  lemma GrewTableTo(sb: SuperBlock, w: World, w1: World, w2: World, w3: World, i: nat, t: nat, b: nat)
    requires TookBoth(sb, w, w1, w2, i, t, b) && w3 == WithTable(w, w2, i, t, b)
    ensures GrewTo(sb, w, w3, i)
  {
    BothLowest(sb, w, w1, w2, i, t, b);
    TookTwo(sb, w, w1, w2, t, b);
    TableGrows(w2.st, w.ents[i], w3.ents[i], INODE_NUM_DIRECT, b);
    GrewAddrs(sb, w, w2, w3, i, b);
    assert w3.own.Keys == w.own.Keys + {t, b};
    GrewIntoOk(sb, w, w3, i, {t, b});
  }

  lemma GrewTable(sb: SuperBlock, w: World, w1: World, w2: World, w3: World, i: nat, t: nat, b: nat)
    requires TookBoth(sb, w, w1, w2, i, t, b) && Sound(sb, w2) && w3 == WithTable(w, w2, i, t, b)
    requires Flats(w1) == Flats(w) && Flats(w2) == Flats(w1)
    ensures Sound(sb, w3)
    ensures GrewByOne(sb, w, w3, i)
  {
    TookTwo(sb, w, w1, w2, t, b);
    assert w2.hand - {t, b} == {};
    GrowTable(sb, w2, w3, i, t, b);
    GrewTableTo(sb, w, w1, w2, w3, i, t, b);
    GrewOk(sb, w, w2, w3, i);
  }

  const ROOT_INODE_NO: nat := 1
  const INODE_INVALID: nat := 0
  const INODE_DIRECTORY: nat := 1
  const INODE_DEVICE: nat := 3
  const U64: nat := 0x1_0000_0000_0000_0000

  ghost predicate TagOk(e: Entry) {
    && 0 < e.typ < 0x1_0000 && e.major < 0x1_0000 && e.minor < 0x1_0000 && e.links < 0x1_0000
    && e.size <= INODE_MAX_BYTES
  }

  /** The entry on disk agrees with the one in memory on all but what callers set before syncing. */
  ghost predicate SameFile(e: Entry, d: Entry) {
    d == e.(major := d.major, minor := d.minor, links := d.links)
  }

  /** Inode `x`: no holes, and its current entry is the one in memory, or the one on disk if nobody holds it. */
  ghost predicate LinkedAt(sb: SuperBlock, st: Store, ents: map<nat, Entry>, len: map<nat, nat>, live: map<nat, Inode>,
                           x: nat)
    requires sb.Valid() && Full(sb, st)
  {
    if x in ents then
      && 0 < x < sb.numInodes && TagOk(ents[x]) && x in len && len[x] == BlocksFor(ents[x].size)
      && if x in live
         then live[x].rc > 0 && live[x].entry == ents[x] && SameFile(ents[x], DiskEntry(sb, st, x))
         else ents[x] == DiskEntry(sb, st, x)
    else
      x !in live && (0 < x < sb.numInodes ==> DiskEntry(sb, st, x).typ == INODE_INVALID)
  }

  /** Every inode but one, which an operation may be in the middle of changing. */
  ghost predicate Linked(sb: SuperBlock, w: World, live: map<nat, Inode>, but: nat)
    requires sb.Valid() && Full(sb, w.st)
  {
    forall x: nat :: x != but ==> LinkedAt(sb, w.st, w.ents, w.len, live, x)
  }

  lemma LinkedKept(sb: SuperBlock, w: World, w': World, live: map<nat, Inode>, live': map<nat, Inode>, but: nat, i: nat)
    requires sb.Valid() && Full(sb, w.st) && Full(sb, w'.st) && Linked(sb, w, live, but)
    requires but == i || (but == 0 && 0 !in w'.ents && 0 !in live')
    requires forall x :: 0 <= x < sb.bitmapStart && x in w.st ==> x in w'.st && w'.st[x] == w.st[x]
    requires forall x :: x != i ==>
               (x in w'.ents <==> x in w.ents) && (x in w'.len <==> x in w.len) && (x in live' <==> x in live)
    requires forall x :: x in w.ents && x != i ==> w'.ents[x] == w.ents[x]
    requires forall x :: x in w.len && x != i ==> w'.len[x] == w.len[x]
    requires forall x :: x in live && x != i ==> live'[x] == live[x]
    ensures Linked(sb, w', live', i)
  {
    forall x: nat | x != i
      ensures LinkedAt(sb, w'.st, w'.ents, w'.len, live', x)
    {
      if x != but {
        assert LinkedAt(sb, w.st, w.ents, w.len, live, x);
      }
      if x < sb.numInodes {
        assert sb.InodeBlock(x) < sb.bitmapStart;
      }
    }
  }

  /** The entries on disk of all other inodes are as they were. */
  ghost predicate DiskKept(sb: SuperBlock, st: Store, st': Store, i: nat) {
    forall x :: 0 < x < sb.numInodes && x != i && sb.InodeBlock(x) in st ==>
      sb.InodeBlock(x) in st' && DiskEntry(sb, st', x) == DiskEntry(sb, st, x)
  }

  lemma DiskKeptTwice(sb: SuperBlock, st: Store, st1: Store, st2: Store, i: nat)
    requires DiskKept(sb, st, st1, i) && DiskKept(sb, st1, st2, i)
    ensures DiskKept(sb, st, st2, i)
  {
  }

  lemma InodeBlocksKept(sb: SuperBlock, st: Store, st': Store, i: nat)
    requires sb.Valid() && forall x :: 0 <= x < sb.bitmapStart && x in st ==> x in st' && st'[x] == st[x]
    ensures DiskKept(sb, st, st', i)
  {
    forall x | 0 < x < sb.numInodes && sb.InodeBlock(x) in st
      ensures sb.InodeBlock(x) in st' && DiskEntry(sb, st', x) == DiskEntry(sb, st, x)
    {
      assert sb.InodeBlock(x) < sb.bitmapStart;
    }
  }

  /** What a file is to its users. */
  datatype File = File(typ: nat, major: nat, minor: nat, links: nat, data: seq<Byte>)

  ghost function FileAt(w: World, i: nat): File
    requires i in w.ents
  {
    var e, s := w.ents[i], FlatOf(w, i);
    File(e.typ, e.major, e.minor, e.links, if e.size <= |s| then s[..e.size] else s)
  }

  ghost function Files(w: World): map<nat, File> {
    map i | i in w.ents :: FileAt(w, i)
  }

  /** A run of bytes inside one block of the file, as the block holds them. */
  lemma ChunkOfFlat(sb: SuperBlock, w: World, i: nat, j: nat, o: nat, n: nat)
    requires Sound(sb, w) && i in w.ents && i in w.len && j < w.len[i] && o + n <= BLOCK_SIZE
    ensures w.len[i] <= INODE_MAX_BLOCKS && |FlatOf(w, i)| == w.len[i] * BLOCK_SIZE && Addr(w.st, w.ents[i], j) in w.st
    ensures j * BLOCK_SIZE + o + n <= |FlatOf(w, i)|
    ensures w.st[Addr(w.st, w.ents[i], j)][o..o + n] == FlatOf(w, i)[j * BLOCK_SIZE + o..j * BLOCK_SIZE + o + n]
  {
    FileFacts(sb, w.st, w.own, w.ents, w.len, i);
    var b, k := Addr(w.st, w.ents[i], j), j * BLOCK_SIZE + o;
    var c, d := w.st[b][o..o + n], FlatOf(w, i)[k..k + n];
    forall x | 0 <= x < n
      ensures c[x] == d[x]
    {
      assert (k + x) / BLOCK_SIZE == j && (k + x) % BLOCK_SIZE == o + x;
      assert FlatOf(w, i)[k + x] == FlatAt(w.st, w.ents[i], k + x);
    }
  }

  /** How many bytes a read is given, in 64-bit arithmetic; none if its range is refused. */
  function ReadCount(size: nat, offset: nat, count: nat): (r: Option<nat>)
    requires size < U64 && offset < U64 && count < U64
    ensures r.Some? <==> offset <= size && offset + count < U64
    ensures r.Some? ==> r.value == if offset + count > size then size - offset else count
  {
    var n := if (count + offset) % U64 > size then (size - offset) % U64 else count;
    var end := (offset + n) % U64;
    if offset > size || end > size || offset > end then None else Some(n)
  }

  lemma Joined(s: seq<Byte>, a: nat, b: nat, c: nat)
    requires a <= b <= c <= |s|
    ensures s[a..b] + s[b..c] == s[a..c]
  {
  }

  lemma HasTable(sb: SuperBlock, w: World, i: nat)
    requires Sound(sb, w) && i in w.ents && i in w.len
    ensures w.ents[i].indirect != 0 <==> w.len[i] > INODE_NUM_DIRECT
  {
    FileFacts(sb, w.st, w.own, w.ents, w.len, i);
  }

  lemma SlotIsEmpty(sb: SuperBlock, w: World, i: nat, j: nat)
    requires Sound(sb, w) && i in w.ents && i in w.len
    requires INODE_NUM_DIRECT <= j < INODE_MAX_BLOCKS && j <= w.len[i] && INODE_NUM_DIRECT < w.len[i]
    ensures w.ents[i].indirect in w.st
    ensures GetWord(w.st[w.ents[i].indirect], 4, j - INODE_NUM_DIRECT) == 0 <==> j == w.len[i]
  {
    FileFacts(sb, w.st, w.own, w.ents, w.len, i);
    assert GetWord(w.st[w.ents[i].indirect], 4, j - INODE_NUM_DIRECT) == Addr(w.st, w.ents[i], j);
  }

  /** What a read returns of a file holding `data`. */
  function ReadOf(data: seq<Byte>, offset: nat, count: nat): seq<Byte>
    requires offset <= |data|
  {
    data[offset..if offset + count > |data| then |data| else offset + count]
  }

  lemma ReadOfFlat(flat: seq<Byte>, size: nat, offset: nat, count: nat)
    requires size <= |flat| && offset <= size
    ensures var n := if offset + count > size then size - offset else count;
            flat[offset..offset + n] == ReadOf(flat[..size], offset, count)
  {
  }

  // ---------------------------------------------------------------- writing

  /** The range checks of a write, in 64-bit arithmetic. */
  predicate WriteRange(size: nat, offset: nat, count: nat)
    requires size <= INODE_MAX_BYTES && offset < U64 && count < U64
    ensures WriteRange(size, offset, count) <==> offset <= size && offset + count <= INODE_MAX_BYTES
  {
    var end := (offset + count) % U64;
    offset <= size && end <= INODE_MAX_BYTES && offset <= end
  }

  /** The file's bytes after `src` is written at `offset`. */
  function Written(data: seq<Byte>, offset: nat, src: seq<Byte>): (r: seq<Byte>)
    requires offset <= |data|
    ensures |r| == if offset + |src| > |data| then offset + |src| else |data|
  {
    data[..offset] + src + (if offset + |src| < |data| then data[offset + |src|..] else [])
  }

  /** Only the addresses in the entry of `i` differ, and no inode block does. */
  ghost predicate OnlyGrew(sb: SuperBlock, w: World, w': World, i: nat) {
    && i in w.ents && i in w.len && i in w'.ents && i in w'.len && w'.hand == w.hand
    && w'.ents == w.ents[i := w.ents[i].(addrs := w'.ents[i].addrs, indirect := w'.ents[i].indirect)]
    && w'.len == w.len[i := w'.len[i]]
    && (forall x :: 0 <= x < sb.bitmapStart && x in w.st ==> x in w'.st && w'.st[x] == w.st[x])
  }

  /** The file's blocks, and a zeroed one more if `pos` lies just past them. */
  function Padded(w: World, i: nat, pos: nat): seq<Byte>
    requires i in w.len
  {
    if pos / BLOCK_SIZE == w.len[i] then FlatOf(w, i) + Zeros(BLOCK_SIZE) else FlatOf(w, i)
  }

  ghost predicate TurnedInto(sb: SuperBlock, w: World, w': World, i: nat, pos: nat, chunk: seq<Byte>)
    requires sb.Valid()
  {
    && OnlyGrew(sb, w, w', i) && |chunk| > 0 && pos % BLOCK_SIZE + |chunk| <= BLOCK_SIZE
    && w'.len[i] == Max(w.len[i], pos / BLOCK_SIZE + 1)
    && |FlatOf(w, i)| == w.len[i] * BLOCK_SIZE && pos / BLOCK_SIZE <= w.len[i]
    && pos + |chunk| <= |Padded(w, i, pos)|
    && Flats(w') == Flats(w)[i := Overwrite(Padded(w, i, pos), pos, chunk)]
    && GrewTo(sb, w, w', i)
  }

  /** One turn of the write loop: `chunk` put at `pos`, in a block added for it if need be. */
  ghost predicate Turned(sb: SuperBlock, w: World, w': World, i: nat, pos: nat, chunk: seq<Byte>)
    requires sb.Valid()
  {
    forall k: nat :: Look(Kind.Writing, k) ==> TurnedInto(sb, w, w', i, pos, chunk)
  }

  lemma MappedFlat(sb: SuperBlock, w: World, w1: World, i: nat, pos: nat)
    requires Sound(sb, w) && i in w.ents && i in w.len && i in w1.ents && i in w1.len
    requires pos / BLOCK_SIZE <= w.len[i] && if pos / BLOCK_SIZE == w.len[i] then GrewByOne(sb, w, w1, i) else w1 == w
    ensures |FlatOf(w, i)| == w.len[i] * BLOCK_SIZE
    ensures FlatOf(w1, i) == Padded(w, i, pos) && Flats(w1) == Flats(w)[i := Padded(w, i, pos)]
    ensures OnlyGrew(sb, w, w1, i) && w1.len[i] == Max(w.len[i], pos / BLOCK_SIZE + 1)
    ensures GrewTo(sb, w, w1, i)
  {
    FlatLength(sb, w, i);
    if w1 == w {
      GrewNot(sb, w, w, i);
    }
    assert Flats(w1)[i] == FlatOf(w1, i);
    if w1 == w {
      assert Flats(w)[i := FlatOf(w, i)] == Flats(w) && w.ents[i := w.ents[i]] == w.ents &&
             w.len[i := w.len[i]] == w.len;
    }
  }

  /** The chunk lands in the block that was mapped for it. */
  lemma ChunkWritten(sb: SuperBlock, w: World, w1: World, w2: World, i: nat, pos: nat, b: nat, chunk: seq<Byte>)
    requires Sound(sb, w) && Sound(sb, w1) && i in w.ents && i in w.len && i in w1.ents && i in w1.len
    requires pos / BLOCK_SIZE <= w.len[i] && if pos / BLOCK_SIZE == w.len[i] then GrewByOne(sb, w, w1, i) else w1 == w
    requires |chunk| > 0 && pos % BLOCK_SIZE + |chunk| <= BLOCK_SIZE && pos / BLOCK_SIZE < w1.len[i] <= INODE_MAX_BLOCKS
    requires b == Addr(w1.st, w1.ents[i], pos / BLOCK_SIZE) && b in w1.st
    requires w2 == w1.(st := w1.st[b := Overwrite(w1.st[b], pos % BLOCK_SIZE, chunk)])
    ensures Sound(sb, w2)
    ensures Turned(sb, w, w2, i, pos, chunk)
  {
    MappedFlat(sb, w, w1, i, pos);
    WriteData(sb, w1, w2, i, pos / BLOCK_SIZE, b, pos % BLOCK_SIZE, chunk);
    DataIsHigh(sb, w1, i, pos / BLOCK_SIZE);
    WroteData(sb, w1, w2, i, pos / BLOCK_SIZE);
    GrewTwice(sb, w, w1, w2, i);
  }

  /** Writing to a data block takes none and moves none. */
  lemma WroteData(sb: SuperBlock, w: World, w': World, i: nat, j: nat)
    requires Sound(sb, w) && i in w.ents && i in w.len && j < w.len[i] <= INODE_MAX_BLOCKS
    requires w' == w.(st := w'.st) && Addr(w.st, w.ents[i], j) in w.st && Addr(w.st, w.ents[i], j) in w'.st
    requires w'.st == w.st[Addr(w.st, w.ents[i], j) := w'.st[Addr(w.st, w.ents[i], j)]]
    ensures GrewTo(sb, w, w', i)
  {
    FileFacts(sb, w.st, w.own, w.ents, w.len, i);
    SameAddrs(w.st, w'.st, w.own, i, w.ents[i], w.len[i]);
    FreeByOwners(sb, w, w');
    GrewNot(sb, w, w', i);
  }

  // How far the loop has come

  /** After `cnt` bytes of `src` the file reads as if just those had been written. */
  ghost predicate Progress(sb: SuperBlock, w: World, w': World, i: nat, offset: nat, src: seq<Byte>)
    requires sb.Valid() && i in w.ents && i in w.len && offset <= w.ents[i].size <= |FlatOf(w, i)|
  {
    && OnlyGrew(sb, w, w', i)
    && w'.len[i] == Max(w.len[i], BlocksFor(offset + |src|))
    && |FlatOf(w', i)| == w'.len[i] * BLOCK_SIZE
    && Flats(w') == Flats(w)[i := FlatOf(w', i)]
    && FlatOf(w', i)[..Max(w.ents[i].size, offset + |src|)] == Written(FlatOf(w, i)[..w.ents[i].size], offset, src)
    && GrewTo(sb, w, w', i)
  }

  /** Sequence form of one turn: writing at the end of what is written. */
  lemma WriteOnward(data: seq<Byte>, flat: seq<Byte>, flat': seq<Byte>, offset: nat, src: seq<Byte>, chunk: seq<Byte>)
    requires offset <= |data| && Max(|data|, offset + |src|) <= |flat| <= |flat'| && offset + |src| + |chunk| <= |flat'|
    requires flat[..Max(|data|, offset + |src|)] == Written(data, offset, src)
    requires flat'[..|flat|] == flat
    ensures Overwrite(flat', offset + |src|, chunk)[..Max(|data|, offset + |src| + |chunk|)] ==
            Written(data, offset, src + chunk)
  {
    var a := Overwrite(flat', offset + |src|, chunk)[..Max(|data|, offset + |src| + |chunk|)];
    var b := Written(data, offset, src + chunk);
    var c := Written(data, offset, src);
    assert |a| == |b|;
    forall k | 0 <= k < |a|
      ensures a[k] == b[k]
    {
      if k < offset + |src| || k >= offset + |src| + |chunk| {
        assert k < |c| && flat'[k] == flat[k] == c[k];
      }
    }
  }

  lemma LengthOn(n: nat, pos: nat, k: nat)
    requires k > 0 && pos % BLOCK_SIZE + k <= BLOCK_SIZE
    ensures Max(Max(n, BlocksFor(pos)), pos / BLOCK_SIZE + 1) == Max(n, BlocksFor(pos + k))
    ensures Need(n, Max(n, BlocksFor(pos + k))) ==
            Need(n, Max(n, BlocksFor(pos))) + Need(Max(n, BlocksFor(pos)), Max(n, BlocksFor(pos + k)))
  {
    assert BlocksFor(pos + k) == pos / BLOCK_SIZE + 1;
    assert BlocksFor(pos) <= pos / BLOCK_SIZE + 1;
  }

  lemma NoneForNothing(len: nat, offset: nat, n: nat)
    requires BlocksFor(offset) <= len && offset / BLOCK_SIZE <= len
    ensures Need(len, LastBlock(offset, n)) == Need(len, BlocksFor(offset + n))
  {
  }

  lemma NeedSplit(n: nat, last: nat, end: nat)
    requires last < end
    ensures Need(n, Max(n, last)) + Need(Max(n, last), last + 1) <= Need(n, end)
  {
  }

  /** The entry of a sound file fits its place on disk. */
  lemma EntryStored(sb: SuperBlock, w: World, i: nat)
    requires Sound(sb, w) && i in w.ents && TagOk(w.ents[i])
    ensures EntryFits(w.ents[i])
  {
    FileFacts(sb, w.st, w.own, w.ents, w.len, i);
    var e := w.ents[i];
    forall j | 0 <= j < INODE_NUM_DIRECT
      ensures e.addrs[j] < 0x1_0000_0000
    {
      assert e.addrs[j] == Addr(w.st, e, j);
    }
  }

  /** Storing an entry leaves every other inode linked as it was. */
  lemma Relink(sb: SuperBlock, w: World, w': World, live: map<nat, Inode>, i: nat)
    requires Sound(sb, w) && Linked(sb, w, live, i) && i in w.ents && i in w.len && i in live && 0 < i < sb.numInodes
    requires live[i].rc > 0 && live[i].entry == w.ents[i] && TagOk(w.ents[i]) && w.len[i] == BlocksFor(w.ents[i].size)
    requires 0 !in w.ents && 0 !in live
    requires sb.InodeBlock(i) in w.st && w' == w.(st := PutEntry(sb, w.st, i, w.ents[i]))
    ensures Sound(sb, w') && Flats(w') == Flats(w)
    ensures Linked(sb, w', live, 0) && DiskEntry(sb, w'.st, i) == w.ents[i] && DiskKept(sb, w.st, w'.st, i)
  {
    EntryStored(sb, w, i);
    StoreEntry(sb, w, w', i, w.ents[i]);
    LinkedBut(sb, w, w', live, live, i, i);
  }

  lemma ProgressFlat(w: World, w1: World, w2: World, i: nat, offset: nat, src: seq<Byte>, chunk: seq<Byte>)
    requires i in w.ents && i in w1.ents && i in w2.ents && i in w1.len
    requires offset <= w.ents[i].size <= |FlatOf(w, i)|
    requires Max(w.ents[i].size, offset + |src|) <= |FlatOf(w1, i)| &&
             offset + |src| + |chunk| <= |Padded(w1, i, offset + |src|)|
    requires FlatOf(w1, i)[..Max(w.ents[i].size, offset + |src|)] ==
             Written(FlatOf(w, i)[..w.ents[i].size], offset, src)
    requires Flats(w2) == Flats(w1)[i := Overwrite(Padded(w1, i, offset + |src|), offset + |src|, chunk)]
    ensures |FlatOf(w2, i)| == |Padded(w1, i, offset + |src|)|
    ensures FlatOf(w2, i)[..Max(w.ents[i].size, offset + |src + chunk|)] ==
            Written(FlatOf(w, i)[..w.ents[i].size], offset, src + chunk)
  {
    assert Flats(w2)[i] == FlatOf(w2, i);
    var flat := Padded(w1, i, offset + |src|);
    assert flat[..|FlatOf(w1, i)|] == FlatOf(w1, i);
    WriteOnward(FlatOf(w, i)[..w.ents[i].size], FlatOf(w1, i), flat, offset, src, chunk);
  }

  lemma ProgressOn(sb: SuperBlock, w: World, w1: World, w2: World, i: nat, offset: nat, src: seq<Byte>,
                   chunk: seq<Byte>)
    requires sb.Valid() && i in w.ents && i in w.len &&
             offset <= w.ents[i].size <= |FlatOf(w, i)| == w.len[i] * BLOCK_SIZE
    requires Progress(sb, w, w1, i, offset, src) && Turned(sb, w1, w2, i, offset + |src|, chunk)
    ensures Progress(sb, w, w2, i, offset, src + chunk)
  {
    assert Look(Kind.Writing, 0);
    ProgressFlat(w, w1, w2, i, offset, src, chunk);
    LengthOn(w.len[i], offset + |src|, |chunk|);
    GrewTwice(sb, w, w1, w2, i);
    assert Flats(w2)[i] == FlatOf(w2, i);
  }

  lemma ProgressStart(sb: SuperBlock, w: World, i: nat, offset: nat)
    requires Sound(sb, w) && i in w.ents && i in w.len && offset <= w.ents[i].size &&
             w.len[i] == BlocksFor(w.ents[i].size)
    ensures w.ents[i].size <= |FlatOf(w, i)| == w.len[i] * BLOCK_SIZE
    ensures Progress(sb, w, w, i, offset, [])
  {
    FlatLength(sb, w, i);
    assert w.ents[i].size <= |FlatOf(w, i)|;
    assert BlocksFor(offset) <= w.len[i];
    assert Flats(w)[i := FlatOf(w, i)] == Flats(w);
    assert w.ents[i := w.ents[i]] == w.ents && w.len[i := w.len[i]] == w.len;
    var d := FlatOf(w, i)[..w.ents[i].size];
    assert Written(d, offset, []) == d;
    GrewNot(sb, w, w, i);
  }

  /** Only file `i` looks different. */
  lemma FilesAfter(w: World, w': World, i: nat)
    requires i in w'.ents && w'.ents == w.ents[i := w'.ents[i]] && Flats(w') == Flats(w)[i := FlatOf(w', i)]
    ensures Files(w') == Files(w)[i := FileAt(w', i)]
  {
    forall x | x in w.ents && x != i
      ensures FileAt(w', x) == FileAt(w, x)
    {
      assert Flats(w')[x] == Flats(w)[x];
    }
  }

  lemma GrownFiles(sb: SuperBlock, w: World, w1: World, w2: World, i: nat, offset: nat, src: seq<Byte>)
    requires sb.Valid() && i in w.ents && i in w.len && w.len[i] == BlocksFor(w.ents[i].size)
    requires offset <= w.ents[i].size <= |FlatOf(w, i)| && Progress(sb, w, w1, i, offset, src)
    requires i in w2.ents && w2.ents == w1.ents[i := w1.ents[i].(size := Max(w.ents[i].size, offset + |src|))]
    requires Flats(w2) == Flats(w1) && w2.len == w1.len
    ensures Files(w2) == Files(w)[i := FileAt(w, i).(data := Written(FileAt(w, i).data, offset, src))]
    ensures w2.len[i] == BlocksFor(w2.ents[i].size)
  {
    assert Flats(w2)[i] == FlatOf(w2, i) == FlatOf(w1, i);
    FilesAfter(w, w2, i);
  }

  lemma SameFiles(w: World, w': World)
    requires w'.ents == w.ents && Flats(w') == Flats(w)
    ensures Files(w') == Files(w)
  {
    forall i | i in w.ents
      ensures FileAt(w', i) == FileAt(w, i)
    {
      assert Flats(w')[i] == Flats(w)[i];
    }
  }

  lemma LinkedGrew(sb: SuperBlock, w: World, w': World, live: map<nat, Inode>, live': map<nat, Inode>, i: nat)
    requires sb.Valid() && Full(sb, w.st) && Full(sb, w'.st) && Linked(sb, w, live, 0) && 0 !in w.ents && 0 !in live
    requires OnlyGrew(sb, w, w', i) && i in live && i in live' && live' == live[i := live'[i]]
    ensures Linked(sb, w', live', i) && 0 !in w'.ents && 0 !in live'
  {
    LinkedKept(sb, w, w', live, live', 0, i);
  }

  lemma RetaggedFile(sb: SuperBlock, w: World, w': World, i: nat, e: Entry)
    requires Sound(sb, w) && i in w.ents && SameFile(w.ents[i], e) && w' == w.(ents := w.ents[i := e])
    ensures Sound(sb, w') && Flats(w') == Flats(w)
    ensures FileAt(w', i) == FileAt(w, i).(major := e.major, minor := e.minor, links := e.links)
  {
    Retag(sb, w, w', i, e);
    assert Flats(w')[i] == FlatOf(w', i) && Flats(w)[i] == FlatOf(w, i);
  }

  /** Changing the fields a caller may set changes those of that file and nothing else. */
  lemma Retagged(sb: SuperBlock, w: World, w': World, i: nat, e: Entry)
    requires Sound(sb, w) && i in w.ents && SameFile(w.ents[i], e) && w' == w.(ents := w.ents[i := e])
    ensures Sound(sb, w')
    ensures Files(w') == Files(w)[i := FileAt(w, i).(major := e.major, minor := e.minor, links := e.links)]
    ensures Files(w') - {i} == Files(w) - {i} && (e == w.ents[i] ==> w' == w)
  {
    RetaggedFile(sb, w, w', i, e);
    assert Flats(w)[i := FlatOf(w', i)] == Flats(w) by {
      assert Flats(w')[i] == FlatOf(w', i);
    }
    FilesAfter(w, w', i);
    UpdatedThenGone(Files(w), i, FileAt(w', i));
    assert w.ents[i := w.ents[i]] == w.ents;
  }

  lemma UpdatedThenGone(fs: map<nat, File>, i: nat, f: File)
    ensures fs[i := f] - {i} == fs - {i}
  {
  }

  lemma FreeByOwners(sb: SuperBlock, w: World, w': World)
    requires sb.Valid() && w'.own == w.own && w'.hand == w.hand
    ensures Free(sb, w') == Free(sb, w)
  {
  }

  lemma FilesMinus(w: World, w': World, i: nat)
    requires w'.ents == w.ents - {i} && Flats(w') == Flats(w) - {i}
    ensures Files(w') == Files(w) - {i}
  {
    forall x | x in w'.ents
      ensures FileAt(w', x) == FileAt(w, x)
    {
      assert Flats(w')[x] == Flats(w)[x];
    }
  }

  lemma DataIsHigh(sb: SuperBlock, w: World, i: nat, j: nat)
    requires Sound(sb, w) && i in w.ents && i in w.len && j < w.len[i]
    ensures j < INODE_MAX_BLOCKS && Addr(w.st, w.ents[i], j) in w.st && sb.dataStart <= Addr(w.st, w.ents[i], j)
  {
    FileFacts(sb, w.st, w.own, w.ents, w.len, i);
  }

  // ---------------------------------------------------------------- truncating

  /** The blocks of a file from its `k`-th on. */
  ghost function Rest(st: Store, e: Entry, n: nat, k: nat): set<nat>
    requires n <= INODE_MAX_BLOCKS
  {
    set j | k <= j < n :: Addr(st, e, j)
  }

  ghost function TableOf(e: Entry): set<nat> {
    if e.indirect != 0 then {e.indirect} else {}
  }

  lemma BlocksAre(sb: SuperBlock, w: World, i: nat)
    requires Sound(sb, w) && i in w.ents && i in w.len
    ensures FileOk(w.st, w.own, i, w.ents[i], w.len[i])
    ensures Blocks(w.own, i) == Rest(w.st, w.ents[i], w.len[i], 0) + TableOf(w.ents[i])
  {
    assert Unfold(w.own, 0);
    var r := Rest(w.st, w.ents[i], w.len[i], 0) + TableOf(w.ents[i]);
    forall b | b in Blocks(w.own, i)
      ensures b in r
    {
      if w.own[b].Data? {
        assert Addr(w.st, w.ents[i], w.own[b].j) in Rest(w.st, w.ents[i], w.len[i], 0);
      }
    }
  }

  /** No block of a file is counted twice. */
  lemma RestStep(st: Store, own: map<nat, Owner>, i: nat, e: Entry, n: nat, k: nat)
    requires FileOk(st, own, i, e, n) && k < n
    ensures var b := Addr(st, e, k);
              b != 0 && b in Rest(st, e, n, k) &&
              Rest(st, e, n, k) + TableOf(e) - {b} == Rest(st, e, n, k + 1) + TableOf(e)
  {
    var b := Addr(st, e, k);
    assert b in Rest(st, e, n, k);
    forall x | x in Rest(st, e, n, k + 1)
      ensures x != b && x in Rest(st, e, n, k)
    {
      var j :| k + 1 <= j < n && x == Addr(st, e, j);
      assert own[x] == Data(i, j);
    }
    forall x | x in Rest(st, e, n, k) && x != b
      ensures x in Rest(st, e, n, k + 1)
    {
      var j :| k <= j < n && x == Addr(st, e, j);
    }
  }

  /** The stores agree outside the free map. */
  ghost predicate OnlyBits(sb: SuperBlock, st: Store, st': Store) {
    forall x :: x in st && !(sb.bitmapStart <= x < sb.dataStart) ==> x in st' && st'[x] == st[x]
  }

  /** A block in hand freed. */
  ghost predicate Freed(sb: SuperBlock, w: World, w': World) {
    && w' == w.(st := w'.st, hand := w'.hand) && Flats(w') == Flats(w) && OnlyBits(sb, w.st, w'.st)
  }

  /** File `i` has lost its blocks and bytes; they are free; no other file has changed. */
  ghost predicate Emptied(sb: SuperBlock, w: World, w': World, i: nat)
    requires sb.Valid()
  {
    && i in w.ents && i in w.len && w'.hand == {}
    && w'.ents == w.ents[i := w.ents[i].(size := 0, addrs := NO_ADDRS, indirect := 0)] && w'.len == w.len[i := 0]
    && w'.own == w.own - Blocks(w.own, i) && Free(sb, w') == Free(sb, w) + Blocks(w.own, i)
    && Flats(w') == Flats(w)[i := []] && OnlyBits(sb, w.st, w'.st)
  }

  lemma EmptiedOk(sb: SuperBlock, w: World, w1: World, w2: World, i: nat)
    requires Sound(sb, w) && i in w.ents && i in w.len && w.hand == {} && Flats(w1) == Flats(w)[i := []]
    requires w1 ==
             w.(own := w.own - Blocks(w.own, i),
             ents := w.ents[i := w.ents[i].(size := 0, addrs := NO_ADDRS, indirect := 0)],
                      len := w.len[i := 0], hand := Blocks(w.own, i))
    requires Freed(sb, w1, w2) && w2.hand == {}
    ensures Emptied(sb, w, w2, i)
  {
    OwnedIsThere(sb, w);
    assert Free(sb, w2) == Free(sb, w) + Blocks(w.own, i);
  }

  function NewEntry(typ: nat): Entry {
    Entry(typ, 0, 0, 0, 0, NO_ADDRS, 0)
  }

  /** Storing the entry of inode `i` leaves the entries of all others. */
  lemma StoreEntry(sb: SuperBlock, w: World, w': World, i: nat, e: Entry)
    requires Sound(sb, w) && 0 < i < sb.numInodes && EntryFits(e)
    requires sb.InodeBlock(i) in w.st && w' == w.(st := PutEntry(sb, w.st, i, e))
    ensures Sound(sb, w') && Flats(w') == Flats(w)
    ensures DiskEntry(sb, w'.st, i) == e
    ensures forall x :: 0 < x < sb.numInodes && x != i ==> DiskEntry(sb, w'.st, x) == DiskEntry(sb, w.st, x)
  {
    InodeBlockWrite(sb, w, sb.InodeBlock(i), PutEntry(sb, w.st, i, e)[sb.InodeBlock(i)]);
    PutEntryOk(sb, w.st, i, e, i);
    forall x | 0 < x < sb.numInodes && x != i
      ensures DiskEntry(sb, w'.st, x) == DiskEntry(sb, w.st, x)
    {
      PutEntryOk(sb, w.st, i, e, x);
    }
  }

  /** Whatever an inode block holds, its entries fit their fields. */
  lemma DiskFits(sb: SuperBlock, st: Store, i: nat)
    requires sb.InodeBlock(i) in st
    ensures EntryFits(DiskEntry(sb, st, i))
  {
    Pow256Small();
    var o := i % INODE_PER_BLOCK * ENTRY_SIZE;
    var s := st[sb.InodeBlock(i)][o..o + ENTRY_SIZE];
    forall k | 0 <= k < 4
      ensures GetWord(s[..8], 2, k) < 0x1_0000
    {
      LeBound(s[..8][k * 2..k * 2 + 2]);
    }
    forall k | 0 <= k < 14
      ensures GetWord(s[8..], 4, k) < 0x1_0000_0000
    {
      LeBound(s[8..][k * 4..k * 4 + 4]);
    }
  }

  /** All but inode `i` stay linked when only it changes, in memory or on disk. */
  lemma LinkedBut(sb: SuperBlock, w: World, w': World, live: map<nat, Inode>, live': map<nat, Inode>, but: nat, i: nat)
    requires sb.Valid() && Full(sb, w.st) && Full(sb, w'.st) && Linked(sb, w, live, but) && (but == i || but == 0)
    requires 0 !in w'.ents && 0 !in live'
    requires forall x :: 0 < x < sb.numInodes && x != i ==> DiskEntry(sb, w'.st, x) == DiskEntry(sb, w.st, x)
    requires forall x :: x != i ==>
               (x in w'.ents <==> x in w.ents) && (x in w'.len <==> x in w.len) && (x in live' <==> x in live)
    requires forall x :: x in w.ents && x != i ==> w'.ents[x] == w.ents[x]
    requires forall x :: x in w.len && x != i ==> w'.len[x] == w.len[x]
    requires forall x :: x in live && x != i ==> live'[x] == live[x]
    requires LinkedAt(sb, w'.st, w'.ents, w'.len, live', i)
    ensures Linked(sb, w', live', 0)
  {
    forall x: nat | x != 0
      ensures LinkedAt(sb, w'.st, w'.ents, w'.len, live', x)
    {
      if x != but {
        assert LinkedAt(sb, w.st, w.ents, w.len, live, x);
      }
    }
  }

  // ---------------------------------------------------------------- what the invariant gives

  /** Block `b` is reached from the entry of an allocated inode. */
  ghost predicate Reached(w: World, b: nat) {
    || (exists i :: i in w.ents && w.ents[i].indirect != 0 && w.ents[i].indirect == b)
    || (exists i, j ::
          i in w.ents && i in w.len && 0 <= j < w.len[i] && j < INODE_MAX_BLOCKS && Addr(w.st, w.ents[i], j) == b)
  }

  /** Between operations the set bits are the reserved blocks and the blocks reached from inodes. */
  lemma BitsConserved(sb: SuperBlock, w: World, b: nat)
    requires Sound(sb, w) && w.hand == {} && b < sb.DataEnd()
    ensures Bit(sb, w.st, b) <==> b < sb.dataStart || Reached(w, b)
    ensures Reached(w, b) ==> sb.dataStart <= b
  {
    assert Unfold(w.own, 0);
    if b in w.own {
      match w.own[b]
      case Data(i, j) => assert Addr(w.st, w.ents[i], j) == b;
      case Table(i) => assert w.ents[i].indirect == b;
    }
    if Reached(w, b) {
      if i :| i in w.ents && w.ents[i].indirect != 0 && w.ents[i].indirect == b {
        assert FileOk(w.st, w.own, i, w.ents[i], w.len[i]);
      } else {
        var i, j :| i in w.ents && i in w.len && 0 <= j < w.len[i] && j < INODE_MAX_BLOCKS &&
          Addr(w.st, w.ents[i], j) == b;
        assert FileOk(w.st, w.own, i, w.ents[i], w.len[i]);
      }
    }
  }

  /** No block is reached twice: not from two files, not from two places in one, not as table and data. */
  lemma ReachedOnce(sb: SuperBlock, w: World, i: nat, j: nat, x: nat, y: nat)
    requires Sound(sb, w) && i in w.ents && i in w.len && x in w.ents && x in w.len
    requires j < w.len[i] && y < w.len[x]
    ensures j < INODE_MAX_BLOCKS && y < INODE_MAX_BLOCKS
    ensures Addr(w.st, w.ents[i], j) == Addr(w.st, w.ents[x], y) ==> i == x && j == y
    ensures Addr(w.st, w.ents[i], j) != w.ents[x].indirect
    ensures w.ents[i].indirect == w.ents[x].indirect != 0 ==> i == x
  {
    FileFacts(sb, w.st, w.own, w.ents, w.len, i);
    FileFacts(sb, w.st, w.own, w.ents, w.len, x);
  }

  /** What was written is what a read of the same range returns; elsewhere the old bytes are. */
  lemma ReadWritten(data: seq<Byte>, offset: nat, src: seq<Byte>, k: nat)
    requires offset <= |data|
    ensures ReadOf(Written(data, offset, src), offset, |src|) == src
    ensures k < |data| && !(offset <= k < offset + |src|) ==> Written(data, offset, src)[k] == data[k]
  {
  }

  /** Freeing one block more costs its bit; all of them cost no less. */
  lemma ReleaseTouch(sb: SuperBlock, g: Budget, g': Budget, all: set<nat>, done: set<nat>, b: nat)
    requires done <= all && b in all && Spent(g, Bitmaps(sb, done), g')
    ensures Fits(g, Bitmaps(sb, all)) ==> Fits(g', Bitmaps(sb, {b}))
    ensures forall g'' :: Spent(g', Bitmaps(sb, {b}), g'') ==> Spent(g, Bitmaps(sb, done + {b}), g'')
  {
    BitmapsAdd(sb, done, {b});
    SpendTwice(g, Bitmaps(sb, done), g', Bitmaps(sb, {b}));
    FitsLess(g, Bitmaps(sb, done + {b}), Bitmaps(sb, all));
  }

  lemma NothingFreed(sb: SuperBlock, w: World, g: Budget)
    ensures Freed(sb, w, w) && Spent(g, Bitmaps(sb, w.hand - w.hand), g)
  {
    assert w.hand - w.hand == {} && Bitmaps(sb, {}) == {};
    SpendNothing(g);
  }

  /** The table of a file that outgrows its direct blocks is taken first. */
  lemma FirstCost(sb: SuperBlock, w: World, i: nat, g: Budget, first: set<nat>) returns (t: set<nat>)
    requires AllocCost(sb, w, first) && i in w.ents && i in w.len && w.len[i] == INODE_NUM_DIRECT
    ensures MapCost(sb, w, i, INODE_NUM_DIRECT, t)
    ensures (Fits(g, t) ==> Fits(g, first)) && (Enough(sb, w, 2) ==> Enough(sb, w, 1))
  {
    assert Look(Costing, 0) && Look(Counting, 0);
    var f := Free(sb, w);
    t := MapTouch(sb, w, i, INODE_NUM_DIRECT);
    LowestAdds(f, 1, 1, Lowest(f, 1));
    AllocsAdd(sb, Lowest(f, 1), Lowest(f - Lowest(f, 1), 1));
    FitsLess(g, first, t);
  }

  lemma TableTouch(sb: SuperBlock, w: World, i: nat, t: nat)
    requires sb.Valid() && i in w.ents && i in w.len && w.len[i] == INODE_NUM_DIRECT
    requires Lowest(Free(sb, w), 1) == {t}
    ensures MapTouch(sb, w, i, INODE_NUM_DIRECT) == Allocs(sb, {t}) + (Allocs(sb, Lowest(Free(sb, w) - {t}, 1)) + {t})
  {
    var f := Free(sb, w);
    var n := Lowest(f - {t}, 1);
    LowestAdds(f, 1, 1, {t});
    AllocsAdd(sb, {t}, n);
    assert MapTouch(sb, w, i, INODE_NUM_DIRECT) == Allocs(sb, {t} + n);
  }

  /** After the table `t`, the block, and then the table again, which costs nothing more. */
  lemma SecondCost(sb: SuperBlock, w: World, w1: World, i: nat, t: nat, first: set<nat>, second: set<nat>,
                   all: set<nat>,
                   g: Budget, g': Budget)
    requires Sound(sb, w) && NextFree(sb, w, t) && Took(sb, w, w1, t) && i in w.ents && i in w.len &&
             w.len[i] == INODE_NUM_DIRECT
    requires AllocCost(sb, w, first) && SlotCost(sb, w1, true, t, second) && MapCost(sb, w, i, INODE_NUM_DIRECT, all)
    requires Spent(g, first, g')
    ensures Fits(g, all) <==> Fits(g', second)
    ensures forall g'' :: Spent(g', second, g'') ==> Spent(g, all, g'')
    ensures Enough(sb, w, 2) <==> Enough(sb, w1, 1)
  {
    assert Look(Costing, 0) && Look(Counting, 0) && Look(Choosing, 0);
    TookFree(sb, w, w1, t);
    TableTouch(sb, w, i, t);
    SpendTwice(g, first, g', second);
  }

  /** The slot of a table, first filled if it is empty. */
  lemma CostSlot(sb: SuperBlock, w: World, empty: bool, b: nat, alloc: set<nat>, g: Budget) returns (t: set<nat>)
    requires if empty then AllocCost(sb, w, alloc) else sb.Valid() && alloc == {}
    ensures SlotCost(sb, w, empty, b, t) && t == alloc + {b} && (Fits(g, t) ==> Fits(g, alloc))
  {
    assert Look(Costing, 0);
    t := alloc + {b};
    FitsLess(g, alloc, t);
  }

  lemma SlotIsMap(sb: SuperBlock, w: World, i: nat, j: nat, t: set<nat>)
    requires i in w.ents && i in w.len && INODE_NUM_DIRECT <= j <= w.len[i] && INODE_NUM_DIRECT < w.len[i]
    requires SlotCost(sb, w, j == w.len[i], w.ents[i].indirect, t)
    ensures MapCost(sb, w, i, j, t)
    ensures Need(w.len[i], j + 1) == if j == w.len[i] then 1 else 0
  {
    assert Look(Costing, 0);
  }

  lemma AllocIsMap(sb: SuperBlock, w: World, i: nat, j: nat, t: set<nat>)
    requires i in w.ents && i in w.len && j == w.len[i] < INODE_NUM_DIRECT && AllocCost(sb, w, t)
    ensures MapCost(sb, w, i, j, t)
  {
    assert Look(Costing, 0);
    assert TableFor(w, i, j) == {};
  }

  lemma MapIsFree(sb: SuperBlock, w: World, i: nat, j: nat)
    requires sb.Valid() && i in w.ents && i in w.len && j < w.len[i] && j < INODE_NUM_DIRECT
    ensures MapCost(sb, w, i, j, {})
  {
  }

  lemma EnoughMeans(sb: SuperBlock, w: World, n: nat)
    requires sb.Valid()
    ensures Enough(sb, w, n) <==> n <= |Free(sb, w)|
  {
    assert Look(Counting, 0);
  }

  /** The block after the table is among what is logged. */
  lemma BlockInCost(sb: SuperBlock, w: World, i: nat, first: set<nat>, second: set<nat>, all: set<nat>, w1: World,
                    t: nat, b: nat)
    requires Sound(sb, w) && NextFree(sb, w, t) && Took(sb, w, w1, t) && i in w.ents && i in w.len &&
             w.len[i] == INODE_NUM_DIRECT
    requires AllocCost(sb, w, first) && SlotCost(sb, w1, true, t, second) && MapCost(sb, w, i, INODE_NUM_DIRECT, all)
    requires b in second
    ensures b in all
  {
    assert Look(Costing, 0) && Look(Choosing, 0);
    TookFree(sb, w, w1, t);
    TableTouch(sb, w, i, t);
  }

  lemma NoneNeeded(sb: SuperBlock, w: World)
    requires sb.Valid()
    ensures Enough(sb, w, 0)
  {
  }

  /** Mapping a block, then writing it. */
  lemma CostTurn(sb: SuperBlock, w: World, i: nat, j: nat, b: nat, map': set<nat>, g: Budget) returns (t: set<nat>)
    requires MapCost(sb, w, i, j, map') && j < INODE_MAX_BLOCKS
    requires j < w.len[i] ==> b == Addr(w.st, w.ents[i], j)
    ensures TurnCost(sb, w, i, j, t) && (Fits(g, t) ==> Fits(g, map'))
    ensures (j < w.len[i] || b in map') ==> t == map' + {b}
  {
    assert Look(Costing, 0);
    t := TurnTouch(sb, w, i, j);
    FitsLess(g, map', t);
  }

  lemma CostNothing(sb: SuperBlock, w: World, i: nat, first: nat)
    requires sb.Valid() && i in w.ents && i in w.len && first <= w.len[i] <= INODE_MAX_BLOCKS
    ensures LoopCost(sb, w, i, first, first, {})
  {
    TouchedNothing(sb, w, i, first);
  }

  /** The loop has logged `done`; a turn logs `turn`. */
  lemma CostOn(sb: SuperBlock, w: World, w': World, i: nat, first: nat, last: nat, done: set<nat>, turn: set<nat>)
    requires sb.Valid() && GrewTo(sb, w, w', i) && first <= w.len[i] && first <= last < INODE_MAX_BLOCKS
    requires w'.len[i] == Max(w.len[i], last)
    requires LoopCost(sb, w, i, first, last, done) && TurnCost(sb, w', i, last, turn)
    ensures LoopCost(sb, w, i, first, last + 1, done + turn)
  {
    assert Look(Costing, 0);
    TouchedStep(sb, w, w', i, first, last);
  }

  lemma CostLoop(sb: SuperBlock, w: World, i: nat, offset: nat, n: nat) returns (t: set<nat>)
    requires sb.Valid() && i in w.ents && i in w.len && w.len[i] <= INODE_MAX_BLOCKS
    ensures LoopCost(sb, w, i, offset / BLOCK_SIZE, LastBlock(offset, n), t)
    ensures WriteTouch(sb, w, i, offset, n) == t + {sb.InodeBlock(i)}
  {
    t := Touched(sb, w, i, offset / BLOCK_SIZE, LastBlock(offset, n));
  }

  lemma CostGrows(sb: SuperBlock, w: World, i: nat, first: nat, last: nat, more: nat, a: set<nat>, b: set<nat>)
    requires LoopCost(sb, w, i, first, last, a) && LoopCost(sb, w, i, first, more, b) && first <= last <= more
    ensures a <= b
  {
    assert Look(Costing, 0);
    TouchedMore(sb, w, i, first, last, more);
  }

  /** Where the loop is after `cnt` bytes: at the start, or at the beginning of a block. */
  predicate AtBlock(offset: nat, cnt: nat) {
    cnt == 0 || (offset + cnt) % BLOCK_SIZE == 0
  }

  /** A turn from a block's beginning, or from the start, ends with that block. */
  lemma AtBlockFacts(offset: nat, cnt: nat, inc: nat, n: nat)
    requires AtBlock(offset, cnt) && 0 < inc && (offset + cnt) % BLOCK_SIZE + inc <= BLOCK_SIZE && cnt + inc <= n
    requires offset + n <= INODE_MAX_BYTES
    ensures (offset + cnt) / BLOCK_SIZE == LastBlock(offset, cnt) < LastBlock(offset, n) <= INODE_MAX_BLOCKS
    ensures LastBlock(offset, cnt + inc) == LastBlock(offset, cnt) + 1
    ensures BlocksFor(offset + cnt + inc) == LastBlock(offset, cnt) + 1
  {
  }

  /**
   The write loop on file `i` of `w0`, which writes to the blocks from `first` up to `end`: having done
   so up to `last` it has come to `w`, and has logged `done` of `all`.
   */
  ghost predicate LoopAt(sb: SuperBlock, w0: World, w: World, i: nat, first: nat, last: nat, end: nat, done: set<nat>,
                         all: set<nat>) {
    && sb.Valid() && GrewTo(sb, w0, w, i) && first <= w0.len[i] && first <= last <= end <= INODE_MAX_BLOCKS
    && w.len[i] == Max(w0.len[i], last)
    && LoopCost(sb, w0, i, first, last, done) && LoopCost(sb, w0, i, first, end, all)
  }

  /** What the loop logs covers what each of its turns does. */
  lemma TurnFits(sb: SuperBlock, w0: World, w: World, i: nat, first: nat, last: nat, end: nat,
                 done: set<nat>, turn: set<nat>, all: set<nat>, g: Budget, g': Budget)
    requires LoopAt(sb, w0, w, i, first, last, end, done, all) && last < end && TurnCost(sb, w, i, last, turn)
    requires Spent(g, done, g')
    ensures Fits(g, all) ==> Fits(g', turn)
  {
    CostOn(sb, w0, w, i, first, last, done, turn);
    CostGrows(sb, w0, i, first, last + 1, end, done + turn, all);
    FitsLess(g, done + turn, all);
    SpendTwice(g, done, g', turn);
  }

  /** The loop after a turn. */
  lemma LoopOn(sb: SuperBlock, w0: World, w: World, w': World, i: nat, first: nat, last: nat, end: nat,
               done: set<nat>, turn: set<nat>, all: set<nat>)
    requires LoopAt(sb, w0, w, i, first, last, end, done, all) && last < end && TurnCost(sb, w, i, last, turn)
    requires GrewTo(sb, w0, w', i) && w'.len[i] == Max(w0.len[i], last + 1)
    ensures LoopAt(sb, w0, w', i, first, last + 1, end, done + turn, all)
  {
    CostOn(sb, w0, w, i, first, last, done, turn);
  }

  lemma LoopStart(sb: SuperBlock, w: World, i: nat, offset: nat, n: nat) returns (all: set<nat>)
    requires sb.Valid() && i in w.ents && i in w.len && offset <= w.ents[i].size && offset + n <= INODE_MAX_BYTES
    requires w.len[i] == BlocksFor(w.ents[i].size) <= INODE_MAX_BLOCKS
    ensures LoopAt(sb, w, w, i, offset / BLOCK_SIZE, offset / BLOCK_SIZE, LastBlock(offset, n), {}, all)
    ensures WriteTouch(sb, w, i, offset, n) == all + {sb.InodeBlock(i)}
  {
    all := CostLoop(sb, w, i, offset, n);
    assert offset / BLOCK_SIZE <= w.len[i];
    CostNothing(sb, w, i, offset / BLOCK_SIZE);
    GrewNot(sb, w, w, i);
  }

  lemma LoopEnd(sb: SuperBlock, w0: World, w: World, i: nat, first: nat, end: nat, done: set<nat>, all: set<nat>)
    requires LoopAt(sb, w0, w, i, first, end, end, done, all) && i in w0.len
    ensures done == all && Enough(sb, w0, Need(w0.len[i], end))
  {
    assert Look(Growing, 0);
    CostGrows(sb, w0, i, first, end, end, all, done);
    CostGrows(sb, w0, i, first, end, end, done, all);
  }

  lemma StillEnough(sb: SuperBlock, w0: World, w: World, i: nat, first: nat, last: nat, end: nat, done: set<nat>,
                    all: set<nat>)
    requires LoopAt(sb, w0, w, i, first, last, end, done, all) && last < end && i in w0.len && i in w.len
    ensures Enough(sb, w0, Need(w0.len[i], end)) ==> Enough(sb, w, Need(w.len[i], last + 1))
  {
    FreeCount(sb, w0, w, i);
    NeedSplit(w0.len[i], last, end);
    EnoughMeans(sb, w0, Need(w0.len[i], end));
    EnoughMeans(sb, w, Need(w.len[i], last + 1));
  }

  /** The bytes after a turn. */
  lemma TurnOn(sb: SuperBlock, w0: World, w: World, w': World, i: nat, offset: nat, src: seq<Byte>, cnt: nat, inc: nat)
    requires sb.Valid() && i in w0.ents && i in w0.len &&
             offset <= w0.ents[i].size <= |FlatOf(w0, i)| == w0.len[i] * BLOCK_SIZE
    requires cnt < cnt + inc <= |src| && Progress(sb, w0, w, i, offset, src[..cnt])
    requires Turned(sb, w, w', i, offset + cnt, src[cnt..][..inc])
    ensures Progress(sb, w0, w', i, offset, src[..cnt + inc])
  {
    ProgressOn(sb, w0, w, w', i, offset, src[..cnt], src[cnt..][..inc]);
    assert src[..cnt] + src[cnt..][..inc] == src[..cnt + inc];
  }

  lemma FitsFresh(g: Budget, t: set<nat>)
    requires g.logged == {}
    ensures Fits(g, t) <==> |t| <= g.rm
  {
    assert Weigh(g, 0);
    assert t - g.logged == t;
  }

  /** New blocks have at least one bitmap block between them, and on a small disk only one. */
  lemma SomeBitmap(sb: SuperBlock, bs: set<nat>)
    requires sb.Valid() && bs != {} && forall b :: b in bs ==> b < sb.DataEnd()
    ensures 1 <= |Bitmaps(sb, bs)|
    ensures sb.numBlocks <= BIT_PER_BLOCK ==> |Bitmaps(sb, bs)| == 1
  {
    var b :| b in bs;
    var m := Bitmaps(sb, bs);
    assert sb.BitmapBlock(b) in m;
    Some1(m, sb.BitmapBlock(b));
    if sb.numBlocks <= BIT_PER_BLOCK {
      assert m == {sb.bitmapStart};
    }
  }

  ghost predicate CanWrite(sb: SuperBlock, w: World, g: Budget, i: nat, offset: nat, n: nat)
    requires sb.Valid() && i in w.ents && i in w.len
  {
    && offset <= |FileAt(w, i).data| && offset + n <= INODE_MAX_BYTES && w.len[i] <= INODE_MAX_BLOCKS
    && Need(w.len[i], BlocksFor(offset + n)) <= |Free(sb, w)|
    && Fits(g, WriteTouch(sb, w, i, offset, n))
  }

  /** How many of `n` bytes go to the block of `pos`. */
  function ChunkSize(pos: nat, n: nat): nat {
    if BLOCK_SIZE - pos % BLOCK_SIZE < n then BLOCK_SIZE - pos % BLOCK_SIZE else n
  }

  lemma ChunkEnds(pos: nat, n: nat)
    requires n > 0
    ensures 0 < ChunkSize(pos, n) <= n && pos % BLOCK_SIZE + ChunkSize(pos, n) <= BLOCK_SIZE
    ensures ChunkSize(pos, n) == n || (pos + ChunkSize(pos, n)) % BLOCK_SIZE == 0
  {
  }

  /** A file whose bytes end in its last block. */
  ghost predicate Filled(w: World, i: nat) {
    && i in w.ents && i in w.len && w.len[i] == BlocksFor(w.ents[i].size) <= INODE_MAX_BLOCKS
    && w.ents[i].size <= |FlatOf(w, i)| == w.len[i] * BLOCK_SIZE
  }

  ghost predicate WrittenTo(sb: SuperBlock, w0: World, w: World, i: nat, offset: nat, src: seq<Byte>, cnt: nat,
                            done: set<nat>, all: set<nat>)
    requires sb.Valid() && Filled(w0, i) && offset <= w0.ents[i].size
  {
    && cnt <= |src| && offset + |src| <= INODE_MAX_BYTES && (cnt == |src| || AtBlock(offset, cnt))
    && Progress(sb, w0, w, i, offset, src[..cnt])
    && LoopAt(sb, w0, w, i, offset / BLOCK_SIZE, LastBlock(offset, cnt), LastBlock(offset, |src|), done, all)
  }

  /** The write loop, which began in `w0`, has written `cnt` bytes of `src` and logged `done` of `all`. */
  ghost predicate WriteAt(sb: SuperBlock, w0: World, w: World, i: nat, offset: nat, src: seq<Byte>, cnt: nat,
                          done: set<nat>, all: set<nat>)
    requires sb.Valid() && Filled(w0, i) && offset <= w0.ents[i].size
  {
    forall k: nat :: Look(Kind.Writing, k) ==> WrittenTo(sb, w0, w, i, offset, src, cnt, done, all)
  }

  lemma WriteStart(sb: SuperBlock, w: World, i: nat, offset: nat, src: seq<Byte>) returns (all: set<nat>)
    requires Sound(sb, w) && Filled(w, i) && offset <= w.ents[i].size && offset + |src| <= INODE_MAX_BYTES
    ensures WriteAt(sb, w, w, i, offset, src, 0, {}, all)
    ensures WriteTouch(sb, w, i, offset, |src|) == all + {sb.InodeBlock(i)}
  {
    all := LoopStart(sb, w, i, offset, |src|);
    ProgressStart(sb, w, i, offset);
    assert src[..0] == [];
    assert WrittenTo(sb, w, w, i, offset, src, 0, {}, all);
  }

  /** What a turn may rely on. */
  lemma WriteRoom(sb: SuperBlock, w0: World, w: World, i: nat, offset: nat, src: seq<Byte>, cnt: nat, done: set<nat>,
                  all: set<nat>)
    requires sb.Valid() && Filled(w0, i) && offset <= w0.ents[i].size
    requires WriteAt(sb, w0, w, i, offset, src, cnt, done, all) && cnt < |src| && i in w.len
    ensures offset + |src| <= INODE_MAX_BYTES && (offset + cnt) / BLOCK_SIZE <= w.len[i]
  {
    assert Look(Kind.Writing, 0);
    AtBlockFacts(offset, cnt, 1, |src|);
  }

  lemma WriteOn(sb: SuperBlock, w0: World, w: World, w': World, i: nat, offset: nat, src: seq<Byte>, cnt: nat, inc: nat,
                done: set<nat>, turn: set<nat>, all: set<nat>)
    requires sb.Valid() && Filled(w0, i) && offset <= w0.ents[i].size
    requires WriteAt(sb, w0, w, i, offset, src, cnt, done, all) && cnt < cnt + inc <= |src|
    requires Turned(sb, w, w', i, offset + cnt, src[cnt..][..inc])
    requires TurnCost(sb, w, i, (offset + cnt) / BLOCK_SIZE, turn)
    requires cnt + inc == |src| || (offset + cnt + inc) % BLOCK_SIZE == 0
    ensures WriteAt(sb, w0, w', i, offset, src, cnt + inc, done + turn, all)
  {
    assert Look(Kind.Writing, 0);
    TurnOn(sb, w0, w, w', i, offset, src, cnt, inc);
    LogOn(sb, w0, w, w', i, offset, |src|, cnt, inc, done, turn, all);
    assert WrittenTo(sb, w0, w', i, offset, src, cnt + inc, done + turn, all);
  }

  lemma LogOn(sb: SuperBlock, w0: World, w: World, w': World, i: nat, offset: nat, n: nat, cnt: nat, inc: nat,
              done: set<nat>, turn: set<nat>, all: set<nat>)
    requires LoopAt(sb, w0, w, i, offset / BLOCK_SIZE, LastBlock(offset, cnt), LastBlock(offset, n), done, all)
    requires AtBlock(offset, cnt) && cnt < cnt + inc <= n && (offset + cnt) % BLOCK_SIZE + inc <= BLOCK_SIZE
    requires offset + n <= INODE_MAX_BYTES && TurnCost(sb, w, i, (offset + cnt) / BLOCK_SIZE, turn)
    requires GrewTo(sb, w0, w', i) && w'.len[i] == Max(w0.len[i], BlocksFor(offset + cnt + inc))
    ensures LoopAt(sb, w0, w', i, offset / BLOCK_SIZE, LastBlock(offset, cnt + inc), LastBlock(offset, n), done + turn,
            all)
  {
    AtBlockFacts(offset, cnt, inc, n);
    LoopOn(sb, w0, w, w', i, offset / BLOCK_SIZE, LastBlock(offset, cnt), LastBlock(offset, n), done, turn, all);
  }

  /** A turn that fails shows that the whole write has to. */
  lemma WriteFails(sb: SuperBlock, w0: World, w: World, i: nat, offset: nat, src: seq<Byte>, cnt: nat,
                   done: set<nat>, turn: set<nat>, all: set<nat>, g: Budget, g': Budget)
    requires sb.Valid() && Filled(w0, i) && offset <= w0.ents[i].size && i in w.len
    requires WriteAt(sb, w0, w, i, offset, src, cnt, done, all) && cnt < |src| && Spent(g, done, g')
    requires TurnCost(sb, w, i, (offset + cnt) / BLOCK_SIZE, turn)
    requires !Enough(sb, w, Need(w.len[i], (offset + cnt) / BLOCK_SIZE + 1)) || !Fits(g', turn)
    ensures !Enough(sb, w0, Need(w0.len[i], BlocksFor(offset + |src|))) || !Fits(g, all)
  {
    assert Look(Kind.Writing, 0);
    AtBlockFacts(offset, cnt, 1, |src|);
    var first, last, end := offset / BLOCK_SIZE, LastBlock(offset, cnt), LastBlock(offset, |src|);
    TurnFits(sb, w0, w, i, first, last, end, done, turn, all, g, g');
    StillEnough(sb, w0, w, i, first, last, end, done, all);
  }

  lemma WriteEnd(sb: SuperBlock, w0: World, w: World, i: nat, offset: nat, src: seq<Byte>, done: set<nat>,
                 all: set<nat>)
    requires sb.Valid() && Filled(w0, i) && offset <= w0.ents[i].size
    requires WriteAt(sb, w0, w, i, offset, src, |src|, done, all)
    ensures done == all && Enough(sb, w0, Need(w0.len[i], BlocksFor(offset + |src|)))
    ensures Progress(sb, w0, w, i, offset, src)
  {
    assert Look(Kind.Writing, 0);
    assert src[..|src|] == src;
    LoopEnd(sb, w0, w, i, offset / BLOCK_SIZE, LastBlock(offset, |src|), done, all);
    NoneForNothing(w0.len[i], offset, |src|);
  }

  class Inodes {
    const sb: SuperBlock
    var blocks: Store
    var live: map<nat, Inode>
    var log: Budget
    ghost var w: World

    /** Mount a sound image; the root directory, if there is one, is held from then on. */
    constructor (super: SuperBlock, image: Store, ghost world: World)
      requires Sound(super, world) && world.st == image && world.hand == {}
      requires Linked(super, world, map[], 0) && 0 !in world.ents
      requires ROOT_INODE_NO < super.numInodes ==> ROOT_INODE_NO in world.ents
      ensures Valid() && sb == super && blocks == image && w == world
      ensures live.Keys == if ROOT_INODE_NO < super.numInodes then {ROOT_INODE_NO} else {}
    {
      sb, blocks, live, log, w := super, image, map[], Budget({}, 0), world;
      new;
      if ROOT_INODE_NO < sb.numInodes {
        var ok := Get(ROOT_INODE_NO);
        assert ok;
      }
    }

    /** What holds even in the middle of an operation. */
    ghost predicate Mid()
      reads this
    {
      w.st == blocks && Sound(sb, w)
    }

    // -------------------------------------------------------------- the free map

    /** The first clear bit below the swap area. */
    method FindFree() returns (r: Option<nat>)
      requires sb.Valid() && Full(sb, blocks)
      ensures r.Some? ==> r.value < sb.DataEnd() && !Bit(sb, blocks, r.value)
      ensures forall b :: 0 <= b < (if r.Some? then r.value else sb.DataEnd()) ==> Bit(sb, blocks, b)
    {
      var i := 0;
      while i < sb.numBlocks
        invariant i % BIT_PER_BLOCK == 0
        invariant forall b :: 0 <= b < i && b < sb.DataEnd() ==> Bit(sb, blocks, b)
      {
        var s := blocks[i / BIT_PER_BLOCK + sb.bitmapStart];
        var j := 0;
        while j < BIT_PER_BLOCK && i + j < sb.DataEnd()
          invariant 0 <= j <= BIT_PER_BLOCK
          invariant forall b :: 0 <= b < i + j && b < sb.DataEnd() ==> Bit(sb, blocks, b)
        {
          assert (i + j) / BIT_PER_BLOCK == i / BIT_PER_BLOCK && (i + j) % BIT_PER_BLOCK == j;
          if !BlockBit(s, j) {
            return Some(i + j);
          }
          j := j + 1;
        }
        i := i + BIT_PER_BLOCK;
      }
      r := None;
    }

    /** A new operation may log this many blocks that the running group has not. */
    method BeginOp(logged: set<nat>)
      modifies `log
      ensures log == Budget(logged, LogProtocol.OP_MAX_NUM_BLOCKS)
    {
      log := Budget(logged, LogProtocol.OP_MAX_NUM_BLOCKS);
    }

    /** `sync` of one block inside the operation; it panics when the budget is spent. */
    method Log(b: nat) returns (ok: bool)
      modifies `log
      ensures ok <==> Fits(old(log), {b})
      ensures if ok then Spent(old(log), {b}, log) else log == old(log)
    {
      FitsOne(log, b);
      ok := b in log.logged || log.rm > 0;
      if b !in log.logged && log.rm > 0 {
        log := Budget(log.logged + {b}, log.rm - 1);
      }
    }

    /** The bit of a new block and the block itself. */
    method LogAlloc(b: nat) returns (ok: bool)
      modifies `log
      ensures ok <==> Fits(old(log), {sb.BitmapBlock(b)} + {b})
      ensures ok ==> Spent(old(log), {sb.BitmapBlock(b)} + {b}, log)
    {
      ghost var g, bits := log, {sb.BitmapBlock(b)};
      FitsLess(g, bits, bits + {b});
      ok := Log(sb.BitmapBlock(b));
      if ok {
        SpendTwice(g, bits, log, {b});
        ok := Log(b);
      }
    }

    lemma NoneFree()
      requires Mid() && forall b :: 0 <= b < sb.DataEnd() ==> Bit(sb, blocks, b)
      ensures Free(sb, w) == {}
    {
      forall b | b in Free(sb, w)
        ensures false
      {
        FreeIsClear(sb, w, b);
      }
    }

    lemma FirstClear(b: nat)
      requires Mid() && b < sb.DataEnd() && !Bit(sb, blocks, b) && forall x :: 0 <= x < b ==> Bit(sb, blocks, x)
      ensures NextFree(sb, w, b)
    {
      FreeIsClear(sb, w, b);
      forall x | x in Free(sb, w)
        ensures b <= x
      {
        FreeIsClear(sb, w, x);
      }
      FoundFree(sb, w, b);
    }

    /**
     Take the lowest free block, zeroed. It fails exactly when every bit is set, or the operation
     may not log the block and its bit, which are `t`.
     */
    method AllocBlock() returns (r: Option<nat>, ghost t: set<nat>)
      requires Mid()
      modifies `blocks, `w, `log
      ensures Mid() && AllocCost(sb, old(w), t)
      ensures r.Some? <==> Enough(sb, old(w), 1) && Fits(old(log), t)
      ensures r.None? ==> w == old(w)
      ensures r.Some? ==> NextFree(sb, old(w), r.value) && Took(sb, old(w), w, r.value) && Flats(w) == Flats(old(w))
      ensures r.Some? ==> Spent(old(log), t, log) && r.value in t
    {
      var f := FindFree();
      if f.None? {
        NoneFree();
        t := CostNone(sb, w);
        return None, t;
      }
      var b := f.value;
      FirstClear(b);
      t := CostAlloc(sb, w, b);
      var ok := LogAlloc(b);
      if !ok {
        return None, t;
      }
      TakeBlock(sb, w, b);
      blocks := SetBit(sb, blocks, b, true);
      blocks := blocks[b := Zeros(BLOCK_SIZE)];
      w := w.(st := blocks, hand := w.hand + {b});
      r := Some(b);
    }

    /** Give a block back. Its bit, that of a block in hand, is never clear; it fails for want of budget only. */
    method FreeBlock(b: nat) returns (ok: bool)
      requires Mid() && b in w.hand
      modifies `blocks, `w, `log
      ensures ok <==> Fits(old(log), Bitmaps(sb, {b}))
      ensures ok ==> Mid() && sb.BitmapBlock(b) in old(blocks) && Spent(old(log), Bitmaps(sb, {b}), log)
      ensures ok ==> w == old(w).(st := SetBit(sb, old(blocks), b, false), hand := old(w).hand - {b})
      ensures ok ==> Flats(w) == Flats(old(w))
    {
      DropBlock(sb, w, b);
      assert Bitmaps(sb, {b}) == {sb.BitmapBlock(b)};
      if !Bit(sb, blocks, b) {
        return false;
      }
      ok := Log(sb.BitmapBlock(b));
      if ok {
        blocks := SetBit(sb, blocks, b, false);
        w := w.(st := blocks, hand := w.hand - {b});
      }
    }

    // -------------------------------------------------------------- mapping

    /** File `i` is held and the operation in progress owns all blocks in flight. */
    ghost predicate Open(i: nat)
      reads this
    {
      Mid() && w.hand == {} && i in live && i in w.ents && i in w.len && live[i].entry == w.ents[i]
    }

    method MapDirect(i: nat, j: nat) returns (ok: bool, b: nat, modified: bool, ghost t: set<nat>)
      requires Open(i) && j < INODE_NUM_DIRECT && j <= w.len[i]
      modifies `blocks, `live, `w, `log
      ensures MapCost(sb, old(w), i, j, t)
      ensures ok <==> Enough(sb, old(w), Need(old(w).len[i], j + 1)) && Fits(old(log), t)
      ensures ok ==> Open(i) && live == old(live)[i := old(live)[i].(entry := w.ents[i])]
      ensures ok ==> j < w.len[i] && b == Addr(blocks, w.ents[i], j)
      ensures ok ==> (modified <==> j == old(w).len[i])
      ensures ok ==> if modified then GrewByOne(sb, old(w), w, i) && b in t else w == old(w) && log == old(log)
      ensures ok ==> Spent(old(log), t, log)
      ensures j < old(w).len[i] ==> t == {}
    {
      FileFacts(sb, w.st, w.own, w.ents, w.len, i);
      modified := false;
      var e := live[i].entry;
      assert e.addrs[j] == Addr(blocks, e, j);
      if e.addrs[j] == 0 {
        ghost var w0 := w;
        var a;
        a, t := AllocBlock();
        AllocIsMap(sb, w0, i, j, t);
        if a.None? {
          return false, 0, false, t;
        }
        live := live[i := live[i].(entry := e.(addrs := e.addrs[j := a.value]))];
        modified := true;
        ghost var w1 := w;
        w := w1.(own := w0.own[a.value := Data(i, j)], ents := w0.ents[i := live[i].entry],
                 len := w0.len[i := j + 1], hand := {});
        GrewDirect(sb, w0, w1, w, i, a.value);
      } else {
        t := {};
        MapIsFree(sb, w, i, j);
        NoneNeeded(sb, w);
        SpendNothing(log);
      }
      ok, b := true, live[i].entry.addrs[j];
    }

    /** Slot `k` of table `t` gets block `b`. */
    method SetSlot(t: nat, k: nat, b: nat)
      requires t in blocks && k < INODE_NUM_INDIRECT && b < 0x1_0000_0000
      modifies `blocks
      ensures t in blocks && blocks == old(blocks)[t := PutWord(old(blocks)[t], 4, k, b)] &&
              GetWord(blocks[t], 4, k) == b
    {
      Pow256Small();
      GetPut(blocks[t], 4, k, b, k);
      blocks := blocks[t := PutWord(blocks[t], 4, k, b)];
    }

    /** A new block in an empty slot; `w` is left for the caller to settle. */
    method NewSlot(t: nat, k: nat) returns (ok: bool, b: nat, ghost cost: set<nat>)
      requires Mid() && t in blocks && t in w.own.Keys + w.hand && k < INODE_NUM_INDIRECT
      modifies `blocks, `w, `log
      ensures AllocCost(sb, old(w), cost) && (ok <==> Enough(sb, old(w), 1) && Fits(old(log), cost))
      ensures ok ==> Sound(sb, w) && NextFree(sb, old(w), b) && Took(sb, old(w), w, b) && Flats(w) == Flats(old(w))
      ensures ok ==> t in w.st && b < 0x1_0000_0000 && blocks == w.st[t := PutWord(w.st[t], 4, k, b)]
      ensures ok ==> t in blocks && b == GetWord(blocks[t], 4, k) && b in cost && Spent(old(log), cost, log)
    {
      ghost var w0 := w;
      var a;
      a, cost := AllocBlock();
      if a.None? {
        return false, 0, cost;
      }
      TookFacts(sb, w0, w, a.value);
      ok, b := true, a.value;
      SetSlot(t, k, b);
    }

    /** The same, after which the table is logged. */
    method FillSlot(t: nat, k: nat) returns (ok: bool, b: nat, ghost cost: set<nat>)
      requires Mid() && t in blocks && t in w.own.Keys + w.hand && k < INODE_NUM_INDIRECT
      modifies `blocks, `w, `log
      ensures SlotCost(sb, old(w), true, t, cost)
      ensures ok <==> Enough(sb, old(w), 1) && Fits(old(log), cost)
      ensures ok ==> Sound(sb, w) && NextFree(sb, old(w), b) && Took(sb, old(w), w, b) && Flats(w) == Flats(old(w))
      ensures ok ==> t in w.st && b < 0x1_0000_0000 && blocks == w.st[t := PutWord(w.st[t], 4, k, b)]
      ensures ok ==> t in blocks && b == GetWord(blocks[t], 4, k) && b in cost && Spent(old(log), cost, log)
    {
      ghost var g, w0 := log, w;
      ghost var alloc;
      ok, b, alloc := NewSlot(t, k);
      cost := CostSlot(sb, w0, true, t, alloc, g);
      if ok {
        SpendTwice(g, alloc, log, {t});
        ok := Log(t);
      }
    }

    /** The file has no table yet: one is taken. */
    method NewTable(i: nat) returns (ok: bool, t: nat, ghost cost: set<nat>)
      requires Mid() && i in live
      modifies `blocks, `live, `w, `log
      ensures AllocCost(sb, old(w), cost) && (ok <==> Enough(sb, old(w), 1) && Fits(old(log), cost))
      ensures ok ==> Mid() && NextFree(sb, old(w), t) && Took(sb, old(w), w, t) && Flats(w) == Flats(old(w))
      ensures ok ==> t in blocks && GetWord(blocks[t], 4, 0) == 0 && Spent(old(log), cost, log)
      ensures ok ==> live == old(live)[i := old(live)[i].(entry := old(live)[i].entry.(indirect := t))]
    {
      ghost var w0 := w;
      var a;
      a, cost := AllocBlock();
      if a.None? {
        return false, 0, cost;
      }
      ok, t := true, a.value;
      TookFacts(sb, w0, w, t);
      GetZero(BLOCK_SIZE, 4, 0);
      live := live[i := live[i].(entry := live[i].entry.(indirect := t))];
    }

    /** The file has no table yet: one is taken, then the block. */
    method MapFirst(i: nat) returns (ok: bool, b: nat, ghost t: set<nat>)
      requires Open(i) && w.len[i] == INODE_NUM_DIRECT && live[i].entry.indirect == 0
      modifies `blocks, `live, `w, `log
      ensures MapCost(sb, old(w), i, INODE_NUM_DIRECT, t)
      ensures ok <==> Enough(sb, old(w), 2) && Fits(old(log), t)
      ensures ok ==> Open(i) && live == old(live)[i := old(live)[i].(entry := w.ents[i])]
      ensures ok ==> INODE_NUM_DIRECT < w.len[i] && b == Addr(blocks, w.ents[i], INODE_NUM_DIRECT)
      ensures ok ==> GrewByOne(sb, old(w), w, i) && b in t
      ensures ok ==> Spent(old(log), t, log)
    {
      ghost var w0, g := w, log;
      var table;
      ghost var first, second;
      b := 0;
      ok, table, first := NewTable(i);
      t := FirstCost(sb, w0, i, g, first);
      if ok {
        ghost var w1, g1 := w, log;
        ok, b, second := FillSlot(table, 0);
        SecondCost(sb, w0, w1, i, table, first, second, t, g, g1);
        if ok {
          BlockInCost(sb, w0, i, first, second, t, w1, table, b);
          ghost var w2 := w;
          w := WithTable(w0, w2, i, table, b);
          GrewTable(sb, w0, w1, w2, w, i, table, b);
        }
      }
    }

    /** The file has a table with an empty slot: it is filled. */
    method MapNext(i: nat, j: nat) returns (ok: bool, b: nat, ghost t: set<nat>)
      requires Open(i) && INODE_NUM_DIRECT < w.len[i] == j < INODE_MAX_BLOCKS
      modifies `blocks, `w, `log
      ensures MapCost(sb, old(w), i, j, t)
      ensures ok <==> Enough(sb, old(w), 1) && Fits(old(log), t)
      ensures ok ==> Open(i) && w.ents == old(w).ents && GrewByOne(sb, old(w), w, i)
      ensures ok ==> b == Addr(blocks, w.ents[i], j) && b in t && Spent(old(log), t, log)
    {
      ghost var w0 := w;
      TableIsThere(sb, w, i);
      var table := live[i].entry.indirect;
      ok, b, t := FillSlot(table, j - INODE_NUM_DIRECT);
      SlotIsMap(sb, w0, i, j, t);
      if ok {
        ghost var w1 := w;
        w := w1.(st := blocks, own := w0.own[b := Data(i, j)], len := w0.len[i := j + 1], hand := {});
        GrewIndirect(sb, w0, w1, w, i, table, b);
      }
    }

    /** The slot is in use. The table is logged all the same, unless a read asks. */
    method MapThere(i: nat, j: nat, inOp: bool) returns (ok: bool, b: nat, ghost t: set<nat>)
      requires Open(i) && INODE_NUM_DIRECT <= j < w.len[i] && j < INODE_MAX_BLOCKS
      modifies `log
      ensures MapCost(sb, w, i, j, t) && (ok <==> inOp ==> Fits(old(log), t))
      ensures ok ==> b == Addr(blocks, w.ents[i], j) && if inOp then Spent(old(log), t, log) else log == old(log)
    {
      TableIsThere(sb, w, i);
      var table := live[i].entry.indirect;
      b := GetWord(blocks[table], 4, j - INODE_NUM_DIRECT);
      t := CostSlot(sb, w, false, table, {}, log);
      assert t == {table};
      SlotIsMap(sb, w, i, j, t);
      ok := true;
      if inOp {
        ok := Log(table);
      }
    }

    method MapIndirect(i: nat, j: nat, inOp: bool) returns (ok: bool, b: nat, modified: bool, ghost t: set<nat>)
      requires Open(i) && INODE_NUM_DIRECT <= j < INODE_MAX_BLOCKS && j <= w.len[i] && (inOp || j < w.len[i])
      modifies `blocks, `live, `w, `log
      ensures MapCost(sb, old(w), i, j, t)
      ensures ok <==> Enough(sb, old(w), Need(old(w).len[i], j + 1)) && (inOp ==> Fits(old(log), t))
      ensures ok ==> Open(i) && live == old(live)[i := old(live)[i].(entry := w.ents[i])]
      ensures ok ==> j < w.len[i] && b == Addr(blocks, w.ents[i], j)
      ensures ok ==> (modified <==> j == old(w).len[i])
      ensures ok ==> if modified then GrewByOne(sb, old(w), w, i) && b in t else w == old(w)
      ensures ok ==> if inOp then Spent(old(log), t, log) else log == old(log)
    {
      HasTable(sb, w, i);
      modified := true;
      if live[i].entry.indirect == 0 {
        ok, b, t := MapFirst(i);
        return;
      }
      SlotIsEmpty(sb, w, i, j);
      if GetWord(blocks[live[i].entry.indirect], 4, j - INODE_NUM_DIRECT) == 0 {
        ok, b, t := MapNext(i, j);
      } else {
        modified := false;
        NoneNeeded(sb, w);
        ok, b, t := MapThere(i, j, inOp);
      }
    }

    /**
     Block `offset / 512` of the file, taken and attached if it is the next one after its last. What
     changes is logged, and `t` is all that is; a read, which has no operation, logs nothing.
     */
    method MapBlock(i: nat, offset: nat, inOp: bool) returns (ok: bool, b: nat, modified: bool, ghost t: set<nat>)
      requires Open(i) && offset < INODE_MAX_BYTES && offset / BLOCK_SIZE <= w.len[i]
      requires inOp || offset / BLOCK_SIZE < w.len[i]
      modifies `blocks, `live, `w, `log
      ensures var j := offset / BLOCK_SIZE;
              && MapCost(sb, old(w), i, j, t)
              && (ok <==> Enough(sb, old(w), Need(old(w).len[i], j + 1)) && (inOp ==> Fits(old(log), t)))
              && (ok ==> Open(i) && live == old(live)[i := old(live)[i].(entry := w.ents[i])])
              && (ok ==> j < w.len[i] && b == Addr(blocks, w.ents[i], j))
              && (ok ==> (modified <==> j == old(w).len[i]))
              && (ok ==> if modified then GrewByOne(sb, old(w), w, i) && b in t else w == old(w))
              && (ok ==> if inOp then Spent(old(log), t, log) else log == old(log))
    {
      var j := offset / BLOCK_SIZE;
      if j < INODE_NUM_DIRECT {
        ok, b, modified, t := MapDirect(i, j);
        if j < old(w).len[i] {
          SpendNothing(old(log));
        }
      } else {
        ok, b, modified, t := MapIndirect(i, j, inOp);
      }
    }

    // -------------------------------------------------------------- between operations

    ghost predicate Valid()
      reads this
    {
      Mid() && w.hand == {} && Linked(sb, w, live, 0) && 0 !in w.ents && 0 !in live
    }

    ghost predicate Held(i: nat)
      reads this
      ensures Held(i) ==> Valid()
    {
      Valid() && i in live && i in w.ents && i in w.len && 0 < i < sb.numInodes
    }

    lemma HeldFacts(i: nat)
      requires Held(i)
      ensures Open(i) && TagOk(w.ents[i]) && live[i].rc > 0 && w.len[i] == BlocksFor(w.ents[i].size)
      ensures w.len[i] <= INODE_MAX_BLOCKS && |FlatOf(w, i)| == w.len[i] * BLOCK_SIZE &&
              w.ents[i].size <= |FlatOf(w, i)|
      ensures FileAt(w, i).data == FlatOf(w, i)[..w.ents[i].size] && |FileAt(w, i).data| == w.ents[i].size
      ensures 0 < i < sb.numInodes && SameFile(w.ents[i], DiskEntry(sb, blocks, i))
    {
      assert LinkedAt(sb, w.st, w.ents, w.len, live, i);
      FlatLength(sb, w, i);
    }

    /** The bytes from `pos` on that lie in the same block, at most `n` of them. */
    method ReadChunk(i: nat, pos: nat, n: nat) returns (chunk: seq<Byte>)
      requires Open(i) && n > 0 && pos + n <= |FlatOf(w, i)|
      modifies `blocks, `live, `w, `log
      ensures blocks == old(blocks) && live == old(live) && w == old(w) && log == old(log)
      ensures 0 < |chunk| <= n && chunk == FlatOf(w, i)[pos..pos + |chunk|]
    {
      FlatLength(sb, w, i);
      NoneNeeded(sb, w);
      var ok, b, modified, _ := MapBlock(i, pos, false);
      assert ok && !modified;
      assert live == old(live);
      var inc := ChunkSize(pos, n);
      ChunkEnds(pos, n);
      ChunkOfFlat(sb, w, i, pos / BLOCK_SIZE, pos % BLOCK_SIZE, inc);
      chunk := blocks[b][pos % BLOCK_SIZE..pos % BLOCK_SIZE + inc];
    }

    method ReadAll(i: nat, offset: nat, n: nat, ghost flat: seq<Byte>) returns (dest: seq<Byte>)
      requires Open(i) && flat == FlatOf(w, i) && offset + n <= |flat|
      modifies `blocks, `live, `w, `log
      ensures blocks == old(blocks) && live == old(live) && w == old(w) && log == old(log)
      ensures dest == flat[offset..offset + n]
    {
      dest := [];
      var cnt := 0;
      while cnt < n
        invariant 0 <= cnt <= n
        invariant blocks == old(blocks) && live == old(live) && w == old(w) && log == old(log)
        invariant dest == flat[offset..offset + cnt]
      {
        var chunk := ReadChunk(i, offset + cnt, n - cnt);
        Joined(flat, offset, offset + cnt, offset + cnt + |chunk|);
        dest := dest + chunk;
        cnt := cnt + |chunk|;
      }
    }

    /** The bytes from `offset` on, up to `count` of them or the end of the file. */
    method Read(i: nat, offset: nat, count: nat) returns (ok: bool, dest: seq<Byte>)
      requires Held(i) && live[i].entry.typ != INODE_DEVICE && offset < U64 && count < U64
      modifies `blocks, `live, `w, `log
      ensures Held(i) && blocks == old(blocks) && live == old(live) && w == old(w) && log == old(log)
      ensures ok <==> offset <= |FileAt(w, i).data| && offset + count < U64
      ensures ok ==> dest == ReadOf(FileAt(w, i).data, offset, count)
    {
      HeldFacts(i);
      var n := ReadCount(live[i].entry.size, offset, count);
      if n.None? {
        return false, [];
      }
      ReadOfFlat(FlatOf(w, i), w.ents[i].size, offset, count);
      ok := true;
      dest := ReadAll(i, offset, n.value, FlatOf(w, i));
    }

    /** As much of `src` as fits in the block of `pos`; `t` is what has to be logged. */
    method WriteChunk(i: nat, pos: nat, src: seq<Byte>) returns (ok: bool, inc: nat, ghost t: set<nat>)
      requires Open(i) && |src| > 0 && pos + |src| <= INODE_MAX_BYTES && pos / BLOCK_SIZE <= w.len[i]
      modifies `blocks, `live, `w, `log
      ensures TurnCost(sb, old(w), i, pos / BLOCK_SIZE, t)
      ensures ok <==> Enough(sb, old(w), Need(old(w).len[i], pos / BLOCK_SIZE + 1)) && Fits(old(log), t)
      ensures ok ==> inc == ChunkSize(pos, |src|) <= |src|
      ensures ok ==> Open(i) && Turned(sb, old(w), w, i, pos, src[..inc])
      ensures ok ==> live == old(live)[i := old(live)[i].(entry := w.ents[i])]
      ensures ok ==> Spent(old(log), t, log)
    {
      ghost var w0, g, j := w, log, pos / BLOCK_SIZE;
      var b, modified;
      ok, b, modified, t := MapBlock(i, pos, true);
      ghost var mapped := t;
      if !ok {
        t := CostTurn(sb, w0, i, j, Addr(w0.st, w0.ents[i], j), mapped, g);
        return false, 0, t;
      }
      t := CostTurn(sb, w0, i, j, b, mapped, g);
      ghost var w1 := w;
      SpendTwice(g, mapped, log, {b});
      ok := Log(b);
      if !ok {
        return false, 0, t;
      }
      inc := PutChunk(i, pos, b, src);
      ChunkEnds(pos, |src|);
      ChunkWritten(sb, w0, w1, w, i, pos, b, src[..inc]);
    }

    method PutChunk(i: nat, pos: nat, b: nat, src: seq<Byte>) returns (inc: nat)
      requires Open(i) && |src| > 0 && pos / BLOCK_SIZE < w.len[i] && pos / BLOCK_SIZE < INODE_MAX_BLOCKS
      requires b == Addr(blocks, w.ents[i], pos / BLOCK_SIZE)
      modifies `blocks, `w
      ensures inc == ChunkSize(pos, |src|) <= |src|
      ensures Open(i) && b in old(blocks) && w.len[i] <= INODE_MAX_BLOCKS
      ensures w == old(w).(st := old(blocks)[b := Overwrite(old(blocks)[b], pos % BLOCK_SIZE, src[..inc])])
    {
      ghost var w1 := w;
      FlatLength(sb, w, i);
      DataIsHigh(sb, w, i, pos / BLOCK_SIZE);
      var o := pos % BLOCK_SIZE;
      inc := ChunkSize(pos, |src|);
      ChunkEnds(pos, |src|);
      blocks := blocks[b := Overwrite(blocks[b], o, src[..inc])];
      w := w.(st := blocks);
      WriteData(sb, w1, w, i, pos / BLOCK_SIZE, b, o, src[..inc]);
    }

    /** An operation on file `i` is under way; all other inodes are linked. */
    ghost predicate Working(i: nat)
      reads this
    {
      Open(i) && Linked(sb, w, live, i) && 0 < i < sb.numInodes && live[i].rc > 0 && 0 !in w.ents && 0 !in live
    }

    /** Put the entry in memory on disk. */
    method Sync(i: nat) returns (ok: bool)
      requires Working(i) && TagOk(w.ents[i]) && w.len[i] == BlocksFor(w.ents[i].size)
      modifies `blocks, `w, `log
      ensures ok <==> Fits(old(log), {sb.InodeBlock(i)})
      ensures ok ==> Spent(old(log), {sb.InodeBlock(i)}, log)
      ensures ok ==> Held(i) && w == old(w).(st := blocks) && DiskEntry(sb, blocks, i) == live[i].entry
      ensures ok ==> DiskKept(sb, old(blocks), blocks, i)
      ensures ok ==> Flats(w) == Flats(old(w))
    {
      ghost var w0 := w;
      var b, o := sb.InodeBlock(i), i % INODE_PER_BLOCK * ENTRY_SIZE;
      ok := Log(b);
      if ok {
        blocks := blocks[b := blocks[b][..o] + EncodeEntry(live[i].entry) + blocks[b][o + ENTRY_SIZE..]];
        w := w.(st := blocks);
        Relink(sb, w0, w, live, i);
      }
    }

    /** The write loop on file `i`, which began in `w0`, has written `cnt` bytes and logged `done` of `all`. */
    ghost predicate Writing(i: nat, offset: nat, src: seq<Byte>, cnt: nat, w0: World, live0: map<nat, Inode>, g: Budget,
                            done: set<nat>, all: set<nat>)
      requires sb.Valid() && Filled(w0, i) && offset <= w0.ents[i].size
      reads this
    {
      && Open(i) && WriteAt(sb, w0, w, i, offset, src, cnt, done, all) && Spent(g, done, log)
      && i in live0 && live == live0[i := live0[i].(entry := w.ents[i])]
    }

    /** One turn of the write loop. */
    method WriteTurn(i: nat, offset: nat, src: seq<Byte>, cnt: nat, ghost w0: World, ghost live0: map<nat, Inode>,
                     ghost g: Budget,
                     ghost done: set<nat>, ghost all: set<nat>)
      returns (ok: bool, inc: nat, ghost done': set<nat>)
      requires sb.Valid() && Filled(w0, i) && offset <= w0.ents[i].size
      requires Writing(i, offset, src, cnt, w0, live0, g, done, all) && cnt < |src|
      modifies `blocks, `live, `w, `log
      ensures !ok ==> !Enough(sb, w0, Need(w0.len[i], BlocksFor(offset + |src|))) || !Fits(g, all)
      ensures ok ==> 0 < inc <= |src| - cnt && Writing(i, offset, src, cnt + inc, w0, live0, g, done', all)
    {
      ghost var w1, g1 := w, log;
      ghost var turn;
      WriteRoom(sb, w0, w, i, offset, src, cnt, done, all);
      ok, inc, turn := WriteChunk(i, offset + cnt, src[cnt..]);
      done' := done + turn;
      if ok {
        ChunkEnds(offset + cnt, |src| - cnt);
        WriteOn(sb, w0, w1, w, i, offset, src, cnt, inc, done, turn, all);
        SpendTwice(g, done, g1, turn);
      } else {
        WriteFails(sb, w0, w1, i, offset, src, cnt, done, turn, all, g, g1);
      }
    }

    method WriteLoop(i: nat, offset: nat, src: seq<Byte>, ghost w0: World, ghost live0: map<nat, Inode>,
                     ghost g: Budget, ghost all: set<nat>)
      returns (ok: bool, ghost done: set<nat>)
      requires sb.Valid() && Filled(w0, i) && offset <= w0.ents[i].size
      requires Writing(i, offset, src, 0, w0, live0, g, {}, all)
      modifies `blocks, `live, `w, `log
      ensures !ok ==> !Enough(sb, w0, Need(w0.len[i], BlocksFor(offset + |src|))) || !Fits(g, all)
      ensures ok ==> Writing(i, offset, src, |src|, w0, live0, g, done, all)
    {
      done := {};
      var cnt := 0;
      ok := true;
      while cnt < |src|
        invariant 0 <= cnt <= |src| && ok
        invariant Writing(i, offset, src, cnt, w0, live0, g, done, all)
      {
        var inc;
        ok, inc, done := WriteTurn(i, offset, src, cnt, w0, live0, g, done, all);
        if !ok {
          return;
        }
        cnt := cnt + inc;
      }
    }

    /** All of `src`; `t` is what has to be logged. */
    method WriteAll(i: nat, offset: nat, src: seq<Byte>) returns (ok: bool, ghost t: set<nat>)
      requires Open(i) && Filled(w, i) && offset <= w.ents[i].size && offset + |src| <= INODE_MAX_BYTES
      modifies `blocks, `live, `w, `log
      ensures WriteTouch(sb, old(w), i, offset, |src|) == t + {sb.InodeBlock(i)}
      ensures ok <==> Enough(sb, old(w), Need(old(w).len[i], BlocksFor(offset + |src|))) && Fits(old(log), t)
      ensures ok ==> Spent(old(log), t, log)
      ensures ok ==> Open(i) && Progress(sb, old(w), w, i, offset, src)
      ensures ok ==> live == old(live)[i := old(live)[i].(entry := w.ents[i])]
    {
      ghost var w0, live0, g := w, live, log;
      t := WriteStart(sb, w, i, offset, src);
      SpendNothing(log);
      ghost var done;
      ok, done := WriteLoop(i, offset, src, w0, live0, g, t);
      if ok {
        WriteEnd(sb, w0, w, i, offset, src, done, t);
      }
    }

    /** Whether `n` bytes at `offset` of file `i` can be written: in range, with blocks to take, and budget. */
    ghost predicate WriteOk(i: nat, offset: nat, n: nat)
      requires sb.Valid() && i in w.ents && i in w.len
      reads this
    {
      CanWrite(sb, w, log, i, offset, n)
    }

    /** File `i` of `w0` has had `src` written at `offset`, and its entry stored. */
    ghost predicate Wrote(i: nat, offset: nat, src: seq<Byte>, w0: World, live0: map<nat, Inode>)
      requires i in w0.ents && i in live0
      reads this
    {
      && Held(i) && offset <= |FileAt(w0, i).data|
      && Files(w) == Files(w0)[i := FileAt(w0, i).(data := Written(FileAt(w0, i).data, offset, src))]
      && live == live0[i := live0[i].(entry := w.ents[i])]
      && sb.InodeBlock(i) in blocks && DiskEntry(sb, blocks, i) == w.ents[i] && DiskKept(sb, w0.st, blocks, i)
    }

    /** The size grows to reach the end of what was written. */
    method SetSize(i: nat, end: nat)
      requires Working(i) && TagOk(w.ents[i]) && end <= INODE_MAX_BYTES
      modifies `live, `w
      ensures Working(i) && TagOk(w.ents[i])
      ensures w == old(w).(ents := old(w).ents[i := old(w).ents[i].(size := Max(old(w).ents[i].size, end))])
      ensures live == old(live)[i := old(live)[i].(entry := w.ents[i])] && Flats(w) == Flats(old(w))
    {
      ghost var w1, live1 := w, live;
      if end > live[i].entry.size {
        live := live[i := live[i].(entry := live[i].entry.(size := end))];
      }
      w := w.(ents := w.ents[i := live[i].entry]);
      Retag(sb, w1, w, i, live[i].entry);
      LinkedKept(sb, w1, w, live1, live, i, i);
    }

    /** The writing has been done; the size follows, and the entry goes to disk. */
    method Extend(i: nat, offset: nat, src: seq<Byte>, ghost w0: World, ghost live0: map<nat, Inode>) returns (ok: bool)
      requires Working(i) && Filled(w0, i) && TagOk(w0.ents[i]) && offset <= w0.ents[i].size
      requires offset + |src| <= INODE_MAX_BYTES && Progress(sb, w0, w, i, offset, src)
      requires i in live0 && live == live0[i := live0[i].(entry := w.ents[i])]
      modifies `blocks, `live, `w, `log
      ensures ok <==> Fits(old(log), {sb.InodeBlock(i)})
      ensures ok ==> Wrote(i, offset, src, w0, live0) && Spent(old(log), {sb.InodeBlock(i)}, log)
    {
      ghost var w1 := w;
      InodeBlocksKept(sb, w0.st, w1.st, i);
      SetSize(i, offset + |src|);
      GrownFiles(sb, w0, w1, w, i, offset, src);
      ok := SyncWritten(i, offset, src, w0, live0);
    }

    method SyncWritten(i: nat, offset: nat, src: seq<Byte>, ghost w0: World, ghost live0: map<nat,
                       Inode>) returns (ok: bool)
      requires Working(i) && TagOk(w.ents[i]) && w.len[i] == BlocksFor(w.ents[i].size) && DiskKept(sb, w0.st, blocks, i)
      requires i in w0.ents && offset <= |FileAt(w0, i).data|
      requires Files(w) == Files(w0)[i := FileAt(w0, i).(data := Written(FileAt(w0, i).data, offset, src))]
      requires i in live0 && live == live0[i := live0[i].(entry := w.ents[i])]
      modifies `blocks, `w, `log
      ensures ok <==> Fits(old(log), {sb.InodeBlock(i)})
      ensures ok ==> Wrote(i, offset, src, w0, live0) && Spent(old(log), {sb.InodeBlock(i)}, log)
    {
      ghost var w2 := w;
      ok := Sync(i);
      if ok {
        SameFiles(w2, w);
        DiskKeptTwice(sb, w0.st, w2.st, blocks, i);
      }
    }

    /** The bytes are in range; `t` is what has to be logged. */
    method WriteBytes(i: nat, offset: nat, src: seq<Byte>) returns (ok: bool, ghost t: set<nat>)
      requires Held(i) && Filled(w, i) && TagOk(w.ents[i]) && live[i].rc > 0 && live[i].entry == w.ents[i]
      requires offset <= w.ents[i].size && offset + |src| <= INODE_MAX_BYTES
      modifies `blocks, `live, `w, `log
      ensures t == WriteTouch(sb, old(w), i, offset, |src|)
      ensures ok <==> Enough(sb, old(w), Need(old(w).len[i], BlocksFor(offset + |src|))) && Fits(old(log), t)
      ensures ok ==> Wrote(i, offset, src, old(w), old(live)) && Spent(old(log), t, log)
    {
      ghost var w0, live0, g := w, live, log;
      ghost var bytes;
      ok, bytes := WriteAll(i, offset, src);
      t := bytes + {sb.InodeBlock(i)};
      FitsLess(g, bytes, t);
      if ok {
        LinkedGrew(sb, w0, w, live0, live, i);
        SpendTwice(g, bytes, log, {sb.InodeBlock(i)});
        ok := Extend(i, offset, src, w0, live0);
      }
    }

    /**
     Replace exactly the bytes from `offset` on by `src`. It fails on a bad range, for want of free
     blocks, or when the operation has to log more blocks than it may.
     */
    method Write(i: nat, offset: nat, src: seq<Byte>) returns (ok: bool)
      requires Held(i) && live[i].entry.typ != INODE_DEVICE && offset < U64 && |src| < U64
      modifies `blocks, `live, `w, `log
      ensures ok <==> old(WriteOk(i, offset, |src|))
      ensures ok ==> Held(i) && Spent(old(log), WriteTouch(sb, old(w), i, offset, |src|), log)
      ensures ok ==>
                Files(w) == Files(old(w))[i := FileAt(old(w), i).(data := Written(FileAt(old(w), i).data, offset, src))]
      ensures ok ==> live == old(live)[i := old(live)[i].(entry := w.ents[i])]
      ensures ok ==> sb.InodeBlock(i) in blocks && DiskEntry(sb, blocks, i) == w.ents[i]
      ensures ok ==> DiskKept(sb, old(blocks), blocks, i)
    {
      HeldFacts(i);
      EnoughMeans(sb, w, Need(w.len[i], BlocksFor(offset + |src|)));
      if !WriteRange(live[i].entry.size, offset, |src|) {
        return false;
      }
      ghost var t;
      ok, t := WriteBytes(i, offset, src);
    }

    /**
     An operation that has the log to itself can write `n` bytes at `offset` exactly when there are
     blocks to take and, with the blocks it writes to, their table, their bits and the
     entry, it does not come to log more than ten.
     */
    lemma FreshWrite(i: nat, offset: nat, n: nat)
      requires Held(i) && log == Budget({}, LogProtocol.OP_MAX_NUM_BLOCKS)
      requires offset <= |FileAt(w, i).data| && 0 < n && offset + n <= INODE_MAX_BYTES
      requires Need(w.len[i], BlocksFor(offset + n)) <= |Free(sb, w)|
      ensures var first, last := offset / BLOCK_SIZE, BlocksFor(offset + n);
              WriteOk(i, offset, n) <==>
              last - first + (if INODE_NUM_DIRECT < last then 1 else 0) + |Bitmaps(sb, Next(sb, w, i, last))| + 1
              <= LogProtocol.OP_MAX_NUM_BLOCKS
    {
      HeldFacts(i);
      assert offset / BLOCK_SIZE <= w.len[i];
      WriteCount(sb, w, i, offset, n);
      FitsFresh(log, WriteTouch(sb, w, i, offset, n));
    }

    /**
     Writing `n` bytes to an empty file panics if `n` is over 4096, whatever room the disk has; and
     only then on a disk with a single bitmap block. Callers write any `n` as one operation.
     */
    lemma LargeWritePanics(i: nat, n: nat)
      requires Held(i) && log == Budget({}, LogProtocol.OP_MAX_NUM_BLOCKS) && FileAt(w, i).data == []
      requires 0 < n <= INODE_MAX_BYTES && Need(0, BlocksFor(n)) <= |Free(sb, w)|
      ensures n > 8 * BLOCK_SIZE ==> !WriteOk(i, 0, n)
      ensures n <= 8 * BLOCK_SIZE && sb.numBlocks <= BIT_PER_BLOCK ==> WriteOk(i, 0, n)
    {
      HeldFacts(i);
      FreshWrite(i, 0, n);
      var m := Next(sb, w, i, BlocksFor(n));
      NextCount(sb, w, i, BlocksFor(n));
      SomeBitmap(sb, m);
    }

    // -------------------------------------------------------------- truncating

    /** Blocks of a file being emptied have been freed: all that was in hand but what still is. */
    ghost predicate Freeing(w0: World, g: Budget)
      reads this
    {
      && Mid() && Freed(sb, w0, w) && w.hand <= w0.hand
      && Spent(g, Bitmaps(sb, w0.hand - w.hand), log)
    }

    /** Give back one more block that is in hand. */
    method Release(b: nat, ghost w0: World, ghost g: Budget) returns (ok: bool)
      requires Freeing(w0, g) && b in w.hand
      modifies `blocks, `w, `log
      ensures !ok ==> !Fits(g, Bitmaps(sb, w0.hand))
      ensures ok ==> Freeing(w0, g) && w.hand == old(w).hand - {b}
    {
      ghost var done := w0.hand - w.hand;
      ReleaseTouch(sb, g, log, w0.hand, done, b);
      ok := FreeBlock(b);
      if ok {
        assert w0.hand - w.hand == done + {b};
      }
    }

    method FreeDirect(i: nat, ghost st: Store, ghost own: map<nat, Owner>, ghost n: nat, ghost w0: World,
                      ghost g: Budget)
      returns (ok: bool)
      requires Freeing(w0, g) && w.hand == w0.hand && i in live && FileOk(st, own, i, live[i].entry, n)
      requires w.hand == Rest(st, live[i].entry, n, 0) + TableOf(live[i].entry)
      modifies `blocks, `live, `w, `log
      ensures !ok ==> !Fits(g, Bitmaps(sb, w0.hand))
      ensures ok ==>
                Freeing(w0, g) &&
                w.hand == Rest(st, old(live)[i].entry, n, INODE_NUM_DIRECT) + TableOf(old(live)[i].entry)
      ensures ok ==> live == old(live)[i := old(live)[i].(entry := old(live)[i].entry.(addrs := NO_ADDRS))]
    {
      ghost var e := live[i].entry;
      var k := 0;
      while k < INODE_NUM_DIRECT
        invariant 0 <= k <= INODE_NUM_DIRECT
        invariant Freeing(w0, g) && w.hand == Rest(st, e, n, k) + TableOf(e)
        invariant i in live && live == old(live)[i := old(live)[i].(entry := e.(addrs := live[i].entry.addrs))]
        invariant forall j :: 0 <= j < INODE_NUM_DIRECT ==> live[i].entry.addrs[j] == if j < k then 0 else e.addrs[j]
      {
        var b := live[i].entry.addrs[k];
        assert b == Addr(st, e, k);
        if b != 0 {
          RestStep(st, own, i, e, n, k);
          ok := Release(b, w0, g);
          if !ok {
            return;
          }
          live := live[i := live[i].(entry := live[i].entry.(addrs := live[i].entry.addrs[k := 0]))];
        } else {
          assert Rest(st, e, n, k) == Rest(st, e, n, k + 1);
        }
        k := k + 1;
      }
      assert live[i].entry.addrs == NO_ADDRS;
      ok := true;
    }

    method FreeSlots(i: nat, t: nat, ghost st: Store, ghost own: map<nat, Owner>, ghost n: nat, ghost e: Entry,
                     ghost w0: World, ghost g: Budget)
      returns (ok: bool)
      requires Freeing(w0, g) && FileOk(st, own, i, e, n) && t == e.indirect != 0
      requires t in st && t in w0.st && w0.st[t] == st[t] && sb.dataStart <= t
      requires w.hand == Rest(st, e, n, INODE_NUM_DIRECT) + TableOf(e)
      modifies `blocks, `w, `log
      ensures !ok ==> !Fits(g, Bitmaps(sb, w0.hand))
      ensures ok ==> Freeing(w0, g) && w.hand == {t}
    {
      var k := 0;
      while k < INODE_NUM_INDIRECT
        invariant 0 <= k <= INODE_NUM_INDIRECT
        invariant Freeing(w0, g) && w.hand == Rest(st, e, n, INODE_NUM_DIRECT + k) + TableOf(e)
        invariant t in blocks && blocks[t] == st[t]
      {
        var b := GetWord(blocks[t], 4, k);
        assert b == Addr(st, e, INODE_NUM_DIRECT + k);
        if b != 0 {
          RestStep(st, own, i, e, n, INODE_NUM_DIRECT + k);
          ok := Release(b, w0, g);
          if !ok {
            return;
          }
        } else {
          assert Rest(st, e, n, INODE_NUM_DIRECT + k) == Rest(st, e, n, INODE_NUM_DIRECT + k + 1);
        }
        k := k + 1;
      }
      assert Rest(st, e, n, INODE_MAX_BLOCKS) == {};
      ok := true;
    }

    method FreeIndirect(i: nat, ghost st: Store, ghost own: map<nat, Owner>, ghost n: nat, ghost e: Entry,
                        ghost w0: World, ghost g: Budget)
      returns (ok: bool)
      requires Freeing(w0, g) && i in live && FileOk(st, own, i, e, n) && live[i].entry.indirect == e.indirect != 0
      requires e.indirect in st && e.indirect in w0.st && w0.st[e.indirect] == st[e.indirect] &&
               sb.dataStart <= e.indirect
      requires w.hand == Rest(st, e, n, INODE_NUM_DIRECT) + TableOf(e)
      modifies `blocks, `live, `w, `log
      ensures !ok ==> !Fits(g, Bitmaps(sb, w0.hand))
      ensures ok ==> Freeing(w0, g) && w.hand == {}
      ensures ok ==> live == old(live)[i := old(live)[i].(entry := old(live)[i].entry.(indirect := 0))]
    {
      var t := live[i].entry.indirect;
      ok := FreeSlots(i, t, st, own, n, e, w0, g);
      if ok {
        ok := Release(t, w0, g);
        if ok {
          live := live[i := live[i].(entry := live[i].entry.(indirect := 0))];
        }
      }
    }

    /** The table and what it leads to, if the file has one. */
    method FreeTable(i: nat, ghost st: Store, ghost own: map<nat, Owner>, ghost n: nat, ghost e: Entry, ghost w0: World,
                     ghost g: Budget)
      returns (ok: bool)
      requires Freeing(w0, g) && i in live && FileOk(st, own, i, e, n) && live[i].entry.indirect == e.indirect
      requires w.hand == Rest(st, e, n, INODE_NUM_DIRECT) + TableOf(e) && w0.st == st
      requires e.indirect in own ==> sb.dataStart <= e.indirect
      modifies `blocks, `live, `w, `log
      ensures !ok ==> !Fits(g, Bitmaps(sb, w0.hand))
      ensures ok ==> Freeing(w0, g) && w.hand == {}
      ensures ok ==> live == old(live)[i := old(live)[i].(entry := old(live)[i].entry.(indirect := 0))]
    {
      ok := true;
      if live[i].entry.indirect != 0 {
        ok := FreeIndirect(i, st, own, n, e, w0, g);
      } else {
        assert Rest(st, e, n, INODE_NUM_DIRECT) == {};
      }
    }

    /** Free what is in hand: the blocks that the entry of file `i` led to. */
    method FreeAll(i: nat, ghost st: Store, ghost own: map<nat, Owner>, ghost n: nat, ghost w0: World,
                   ghost g: Budget) returns (ok: bool)
      requires Freeing(w0, g) && w.hand == w0.hand && i in live && FileOk(st, own, i, live[i].entry, n)
      requires w.hand == Rest(st, live[i].entry, n, 0) + TableOf(live[i].entry) && w0.st == st
      requires live[i].entry.indirect in own ==> sb.dataStart <= live[i].entry.indirect
      modifies `blocks, `live, `w, `log
      ensures !ok ==> !Fits(g, Bitmaps(sb, w0.hand))
      ensures ok ==> Freeing(w0, g) && w.hand == {}
      ensures ok ==>
                live ==
                old(live)[i := old(live)[i].(entry := old(live)[i].entry.(size := 0, addrs := NO_ADDRS, indirect := 0))]
    {
      ghost var e := live[i].entry;
      ok := FreeDirect(i, st, own, n, w0, g);
      if ok {
        ok := FreeTable(i, st, own, n, e, w0, g);
        if ok {
          live := live[i := live[i].(entry := live[i].entry.(size := 0))];
        }
      }
    }

    /** All of a file's blocks are taken from it. */
    ghost method TakeBlocks(i: nat)
      requires Open(i)
      modifies `w
      ensures w == old(w).(own := old(w).own - Blocks(old(w).own, i),
                           ents := old(w).ents[i := old(w).ents[i].(size := 0, addrs := NO_ADDRS, indirect := 0)],
                           len := old(w).len[i := 0], hand := Blocks(old(w).own, i))
      ensures Freeing(w, log) && Flats(w) == Flats(old(w))[i := []]
      ensures FileOk(old(w).st, old(w).own, i, old(w).ents[i], old(w).len[i])
      ensures w.hand == Rest(old(w).st, old(w).ents[i], old(w).len[i], 0) + TableOf(old(w).ents[i])
      ensures old(w).ents[i].indirect in old(w).own ==> sb.dataStart <= old(w).ents[i].indirect
    {
      ghost var w0, e := w, w.ents[i];
      BlocksAre(sb, w, i);
      OwnedIsThere(sb, w);
      w := w0.(own := w0.own - Blocks(w0.own, i), ents := w0.ents[i := e.(size := 0, addrs := NO_ADDRS, indirect := 0)],
               len := w0.len[i := 0], hand := Blocks(w0.own, i));
      assert w0.hand + Blocks(w0.own, i) == w.hand;
      Detach(sb, w0, w, i, w.ents[i]);
      NothingFreed(sb, w, log);
    }

    /** Free each block of the file, once. */
    method FreeBlocks(i: nat) returns (ok: bool)
      requires Open(i)
      modifies `blocks, `live, `w, `log
      ensures ok <==> Fits(old(log), Bitmaps(sb, Blocks(old(w).own, i)))
      ensures ok ==> Open(i) && Emptied(sb, old(w), w, i) && Spent(old(log), Bitmaps(sb, Blocks(old(w).own, i)), log)
      ensures ok ==> live == old(live)[i := old(live)[i].(entry := w.ents[i])]
    {
      ghost var w0, g := w, log;
      TakeBlocks(i);
      ghost var w1 := w;
      ok := FreeAll(i, w0.st, w0.own, w0.len[i], w1, g);
      if ok {
        assert w1.hand - w.hand == Blocks(w0.own, i);
        EmptiedOk(sb, w0, w1, w, i);
      }
    }

    /**
     Discard the contents of a file and free its blocks. It fails exactly when the operation may not
     log their bits and the entry.
     */
    method Clear(i: nat) returns (ok: bool)
      requires Held(i)
      modifies `blocks, `live, `w, `log
      ensures ok <==> Fits(old(log), ClearTouch(sb, old(w), i))
      ensures ok ==> Held(i) && Spent(old(log), ClearTouch(sb, old(w), i), log)
      ensures ok ==> Files(w) == Files(old(w))[i := FileAt(old(w), i).(data := [])]
      ensures ok ==>
                w.own == old(w).own - Blocks(old(w).own, i) && Free(sb, w) == Free(sb, old(w)) + Blocks(old(w).own, i)
      ensures ok ==> live == old(live)[i := old(live)[i].(entry := w.ents[i])]
      ensures ok ==> w.ents[i] == old(w).ents[i].(size := 0, addrs := NO_ADDRS, indirect := 0) && w.len[i] == 0
      ensures ok ==> DiskEntry(sb, blocks, i) == w.ents[i] && DiskKept(sb, old(blocks), blocks, i)
    {
      HeldFacts(i);
      ghost var w0, live0, g := w, live, log;
      ghost var bits := Bitmaps(sb, Blocks(w.own, i));
      FitsLess(g, bits, bits + {sb.InodeBlock(i)});
      ok := FreeBlocks(i);
      if ok {
        SpendTwice(g, bits, log, {sb.InodeBlock(i)});
        ok := SyncEmpty(i, w0, live0);
      }
    }

    /** The file has been emptied; the entry goes to disk. */
    method SyncEmpty(i: nat, ghost w0: World, ghost live0: map<nat, Inode>) returns (ok: bool)
      requires Open(i) && Sound(sb, w0) && Linked(sb, w0, live0, 0) && 0 !in w0.ents && 0 !in live0 && i in live0
      requires Emptied(sb, w0, w, i) && TagOk(w0.ents[i]) && live0[i].rc > 0 && 0 < i < sb.numInodes
      requires live == live0[i := live0[i].(entry := w.ents[i])]
      modifies `blocks, `w, `log
      ensures ok <==> Fits(old(log), {sb.InodeBlock(i)})
      ensures ok ==> Held(i) && Spent(old(log), {sb.InodeBlock(i)}, log) && w == old(w).(st := blocks)
      ensures ok ==> Files(w) == Files(w0)[i := FileAt(w0, i).(data := [])]
      ensures ok ==> DiskEntry(sb, blocks, i) == w.ents[i] && DiskKept(sb, w0.st, blocks, i)
    {
      InodeBlocksKept(sb, w0.st, w.st, i);
      LinkedKept(sb, w0, w, live0, live, 0, i);
      ok := Sync(i);
      if ok {
        assert Flats(w)[i] == FlatOf(w, i);
        FilesAfter(w0, w, i);
        FreeByOwners(sb, old(w), w);
      }
    }

    /** The first inode that is not in use. */
    ghost predicate FirstUnused(i: nat)
      reads this
    {
      0 < i < sb.numInodes && i !in w.ents && forall x :: 0 < x < i ==> x in w.ents
    }

    /**
     The first inode that is not in use becomes an empty file of the given type. It fails exactly when
     all are in use, or the operation may not log the block of that inode.
     */
    method Alloc(typ: nat) returns (r: Option<nat>)
      requires Valid() && 0 < typ < 0x1_0000
      modifies `blocks, `w, `log
      ensures Valid()
      ensures r.None? ==> w == old(w) && forall x :: FirstUnused(x) ==> !Fits(old(log), {sb.InodeBlock(x)})
      ensures r.Some? ==> old(FirstUnused(r.value)) && Fits(old(log), {sb.InodeBlock(r.value)})
      ensures r.Some? ==> Spent(old(log), {sb.InodeBlock(r.value)}, log) && DiskKept(sb, old(blocks), blocks, r.value)
      ensures r.Some? ==> Files(w) == Files(old(w))[r.value := File(typ, 0, 0, 0, [])] && w.own == old(w).own
    {
      var i := 1;
      while i < sb.numInodes
        invariant Valid() && w == old(w) && log == old(log) && forall x :: 0 < x < i && x < sb.numInodes ==> x in w.ents
      {
        assert LinkedAt(sb, w.st, w.ents, w.len, live, i);
        if DiskEntry(sb, blocks, i).typ == INODE_INVALID {
          var ok := TakeInode(i, typ);
          return if ok then Some(i) else None;
        }
        i := i + 1;
      }
      r := None;
    }

    method TakeInode(i: nat, typ: nat) returns (ok: bool)
      requires Valid() && 0 < typ < 0x1_0000 && 0 < i < sb.numInodes && i !in w.ents && i !in live
      modifies `blocks, `w, `log
      ensures ok <==> Fits(old(log), {sb.InodeBlock(i)})
      ensures !ok ==> Valid() && w == old(w)
      ensures ok ==> Valid() && w.own == old(w).own && Files(w) == Files(old(w))[i := File(typ, 0, 0, 0, [])]
      ensures ok ==> DiskKept(sb, old(blocks), blocks, i) && Spent(old(log), {sb.InodeBlock(i)}, log)
    {
      ok := Log(sb.InodeBlock(i));
      if ok {
        StoreNew(i, typ);
      }
    }

    method StoreNew(i: nat, typ: nat)
      requires Valid() && 0 < typ < 0x1_0000 && 0 < i < sb.numInodes && i !in w.ents && i !in live
      modifies `blocks, `w
      ensures Valid() && w.own == old(w).own && Files(w) == Files(old(w))[i := File(typ, 0, 0, 0, [])]
      ensures DiskKept(sb, old(blocks), blocks, i)
    {
      ghost var w0, e := w, NewEntry(typ);
      var b, o := sb.InodeBlock(i), i % INODE_PER_BLOCK * ENTRY_SIZE;
      blocks := blocks[b := blocks[b][..o] + EncodeEntry(NewEntry(typ)) + blocks[b][o + ENTRY_SIZE..]];
      ghost var w1 := w0.(st := blocks);
      StoreEntry(sb, w0, w1, i, e);
      w := w1.(ents := w1.ents[i := e], len := w1.len[i := 0]);
      Arrive(sb, w1, w, i, e);
      LinkedBut(sb, w0, w, live, live, 0, i);
      assert Flats(w)[i] == FlatOf(w, i);
      FilesAfter(w0, w, i);
    }

    /** Another holder of inode `i`, which is brought into memory if nobody held it. */
    method Get(i: nat) returns (ok: bool)
      requires Valid() && 0 < i < sb.numInodes
      modifies `live
      ensures ok <==> i in Files(w)
      ensures !ok ==> live == old(live)
      ensures ok ==>
                Held(i) && live == old(live)[i := Inode(if i in old(live) then old(live)[i].rc + 1 else 1, w.ents[i])]
    {
      ghost var live0 := live;
      assert LinkedAt(sb, w.st, w.ents, w.len, live, i);
      if i in live {
        live := live[i := live[i].(rc := live[i].rc + 1)];
      } else {
        var d := DiskEntry(sb, blocks, i);
        if d.typ == INODE_INVALID {
          return false;
        }
        live := live[i := Inode(1, d)];
      }
      ok := true;
      LinkedBut(sb, w, w, live0, live, 0, i);
    }

    /** Another holder of an inode that is held. */
    method Share(i: nat)
      requires Held(i)
      modifies `live
      ensures Held(i) && live == old(live)[i := old(live)[i].(rc := old(live)[i].rc + 1)]
    {
      ghost var live0 := live;
      assert LinkedAt(sb, w.st, w.ents, w.len, live, i);
      live := live[i := live[i].(rc := live[i].rc + 1)];
      LinkedBut(sb, w, w, live0, live, 0, i);
    }

    /** The caller sets the fields it may set; the disk learns of it at the next sync. */
    method SetTags(i: nat, major: nat, minor: nat, links: nat)
      requires Held(i) && major < 0x1_0000 && minor < 0x1_0000 && links < 0x1_0000
      modifies `live, `w
      ensures Held(i) &&
              Files(w) == Files(old(w))[i := FileAt(old(w), i).(major := major, minor := minor, links := links)]
      ensures live ==
              old(live)[i := old(live)[i].(entry := old(live)[i].entry.(major := major, minor := minor,
              links := links))]
    {
      HeldFacts(i);
      ghost var w0, live0 := w, live;
      live := live[i := live[i].(entry := live[i].entry.(major := major, minor := minor, links := links))];
      w := w.(ents := w.ents[i := live[i].entry]);
      Retagged(sb, w0, w, i, live[i].entry);
      LinkedBut(sb, w0, w, live0, live, 0, i);
    }

    /** The last holder of a file that still has links lets go: the entry on disk is what remains. */
    method Forget(i: nat)
      requires Held(i)
      modifies `live, `w
      ensures Valid() && live == old(live) - {i}
      ensures w == old(w).(ents := old(w).ents[i := DiskEntry(sb, blocks, i)])
      ensures DiskEntry(sb, blocks, i) == old(live)[i].entry ==> w == old(w)
      ensures Files(w) - {i} == Files(old(w)) - {i}
      ensures var d := DiskEntry(sb, blocks, i);
              Files(w) == Files(old(w))[i := FileAt(old(w), i).(major := d.major, minor := d.minor, links := d.links)]
    {
      HeldFacts(i);
      ghost var w0, live0 := w, live;
      live := live - {i};
      DiskFits(sb, blocks, i);
      w := w.(ents := w.ents[i := DiskEntry(sb, blocks, i)]);
      Retagged(sb, w0, w, i, w.ents[i]);
      LinkedBut(sb, w0, w, live0, live, 0, i);
    }

    /** An empty file gives its inode back. */
    method Erase(i: nat) returns (ok: bool)
      requires Held(i) && w.len[i] == 0
      modifies `blocks, `live, `w, `log
      ensures ok <==> Fits(old(log), {sb.InodeBlock(i)})
      ensures ok ==> Valid() && live == old(live) - {i} && Files(w) == Files(old(w)) - {i}
      ensures ok ==> w.own == old(w).own && w.hand == old(w).hand
      ensures ok ==> DiskKept(sb, old(blocks), blocks, i) && Spent(old(log), {sb.InodeBlock(i)}, log)
    {
      ok := Log(sb.InodeBlock(i));
      if ok {
        StoreNone(i);
      }
    }

    method StoreNone(i: nat)
      requires Held(i) && w.len[i] == 0
      modifies `blocks, `live, `w
      ensures Valid() && live == old(live) - {i} && Files(w) == Files(old(w)) - {i} && w.own == old(w).own &&
              w.hand == old(w).hand
      ensures DiskKept(sb, old(blocks), blocks, i)
    {
      ghost var w0, live0 := w, live;
      var b, o := sb.InodeBlock(i), i % INODE_PER_BLOCK * ENTRY_SIZE;
      blocks := blocks[b := blocks[b][..o] + EncodeEntry(NewEntry(INODE_INVALID)) + blocks[b][o + ENTRY_SIZE..]];
      ghost var w1 := w0.(st := blocks);
      StoreEntry(sb, w0, w1, i, NewEntry(INODE_INVALID));
      live := live - {i};
      w := w1.(ents := w1.ents - {i}, len := w1.len - {i});
      Leave(sb, w1, w, i);
      LinkedBut(sb, w0, w, live0, live, 0, i);
      FilesMinus(w0, w, i);
    }

    /** The last holder of a file without links lets go: its blocks and its inode are free again. */
    method Destroy(i: nat) returns (ok: bool)
      requires Held(i)
      modifies `blocks, `live, `w, `log
      ensures ok <==> Fits(old(log), ClearTouch(sb, old(w), i))
      ensures ok ==> Valid() && live == old(live) - {i} && Files(w) == Files(old(w)) - {i}
      ensures ok ==>
                w.own == old(w).own - Blocks(old(w).own, i) && Free(sb, w) == Free(sb, old(w)) + Blocks(old(w).own, i)
      ensures ok ==> DiskKept(sb, old(blocks), blocks, i) && Spent(old(log), ClearTouch(sb, old(w), i), log)
    {
      ghost var w0, st0, g := w, blocks, log;
      ok := Clear(i);
      if !ok {
        return;
      }
      ghost var w1, st1 := w, blocks;
      assert sb.InodeBlock(i) in log.logged by {
        assert Weigh(g, 0);
      }
      FitsOne(log, sb.InodeBlock(i));
      ok := Erase(i);
      FreeByOwners(sb, w1, w);
      DiskKeptTwice(sb, st0, st1, blocks, i);
      UpdatedThenGone(Files(w0), i, FileAt(w0, i).(data := []));
    }

    /** One holder fewer. It fails exactly when the last one leaves a file without links that cannot be emptied. */
    method Put(i: nat) returns (ok: bool)
      requires Held(i)
      modifies `blocks, `live, `w, `log
      ensures ok <==> old(live)[i].rc == 1 && FileAt(old(w), i).links == 0 ==> Fits(old(log), ClearTouch(sb, old(w), i))
      ensures ok ==> Valid()
      ensures old(live)[i].rc > 1 ==> w == old(w) && live == old(live)[i := old(live)[i].(rc := old(live)[i].rc - 1)]
      ensures ok && old(live)[i].rc == 1 ==> live == old(live) - {i}
      ensures old(live)[i].rc == 1 && FileAt(old(w), i).links > 0 &&
              DiskEntry(sb, old(blocks), i) == old(live)[i].entry ==>
                w == old(w)
      ensures old(live)[i].rc == 1 && FileAt(old(w), i).links > 0 ==>
                w.own == old(w).own && Files(w) - {i} == Files(old(w)) - {i}
      ensures ok && old(live)[i].rc == 1 && FileAt(old(w), i).links == 0 ==>
                && Files(w) == Files(old(w)) - {i} && Spent(old(log), ClearTouch(sb, old(w), i), log)
                && w.own == old(w).own - Blocks(old(w).own, i) &&
                  Free(sb, w) == Free(sb, old(w)) + Blocks(old(w).own, i)
      ensures old(live)[i].rc > 1 || FileAt(old(w), i).links > 0 ==> log == old(log)
      ensures ok ==> DiskKept(sb, old(blocks), blocks, i)
    {
      HeldFacts(i);
      ghost var live0 := live;
      ok := true;
      if live[i].rc > 1 {
        live := live[i := live[i].(rc := live[i].rc - 1)];
        LinkedBut(sb, w, w, live0, live, 0, i);
      } else if live[i].entry.links == 0 {
        ok := Destroy(i);
      } else {
        Forget(i);
      }
    }
  }
}
