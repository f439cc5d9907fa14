/** The inode layer's state as one value, and what each elementary change does to every file's bytes. */
module InodeWorld {
  import opened Bytes
  import opened Bitmap
  import opened InodeModel

  /**
   `ents` are the current entries of the allocated inodes, `len` how many blocks each has,
   `own` who owns which block, `hand` the blocks allocated but not yet attached or freed.
   */
  datatype World = World(st: Store, own: map<nat, Owner>, ents: map<nat, Entry>, len: map<nat, nat>, hand: set<nat>)

  /** The state between two operations: every set bit and every address is accounted for. */
  ghost predicate Sound(sb: SuperBlock, w: World) {
    && sb.Valid() && Full(sb, w.st)
    && FilesOk(sb, w.st, w.own, w.ents, w.len) && BitsOk(sb, w.st, w.own, w.hand)
    && (forall b :: b in w.hand ==> Spare(sb, w.st, w.own, b))
  }

  lemma OwnedIsThere(sb: SuperBlock, w: World)
    requires Sound(sb, w)
    ensures forall b :: b in w.own ==> b in w.st && sb.dataStart <= b < sb.DataEnd()
  {
    assert Unfold(w.own, 0);
  }

  function FlatOf(w: World, i: nat): seq<Byte> {
    if i in w.ents && i in w.len && w.len[i] <= INODE_MAX_BLOCKS
    then Flat(w.st, w.ents[i], w.len[i])
    else []
  }

  /** The blocks of every file, laid end to end. */
  function Flats(w: World): map<nat, seq<Byte>> {
    map i | i in w.ents :: FlatOf(w, i)
  }

  lemma FlatLength(sb: SuperBlock, w: World, i: nat)
    requires Sound(sb, w) && i in w.ents
    ensures i in w.len && w.len[i] <= INODE_MAX_BLOCKS
    ensures |FlatOf(w, i)| == w.len[i] * BLOCK_SIZE
  {
    assert Unfold(w.own, 0);
  }

  /** A file whose entry and blocks are left alone keeps its bytes. */
  lemma FlatKept(sb: SuperBlock, w: World, w': World, i: nat)
    requires Sound(sb, w) && i in w.ents && i in w.len && i in w'.ents && i in w'.len
    requires w'.ents[i] == w.ents[i] && w'.len[i] == w.len[i] && AgreeOn(w.st, w'.st, w.own, i)
    ensures FlatOf(w', i) == FlatOf(w, i)
  {
    assert Unfold(w.own, 0);
    SameFlat(w.st, w'.st, w.own, i, w.ents[i], w.len[i]);
  }

  /** Writing blocks that no file owns changes no file. */
  lemma FlatsSpared(sb: SuperBlock, w: World, w': World)
    requires Sound(sb, w) && w'.own == w.own && w'.ents == w.ents && w'.len == w.len
    requires forall b :: b in w.own && b in w.st ==> b in w'.st && w'.st[b] == w.st[b]
    ensures Flats(w') == Flats(w)
  {
    forall i | i in w.ents
      ensures FlatOf(w', i) == FlatOf(w, i)
    {
      FlatLength(sb, w, i);
      FlatKept(sb, w, w', i);
    }
  }

  /** Only file `i` changes. */
  lemma FlatsOthers(sb: SuperBlock, w: World, w': World, i: nat)
    requires Sound(sb, w) && i in w.ents && w'.ents.Keys == w.ents.Keys && w'.len.Keys == w.len.Keys
    requires forall x :: x in w.ents && x != i ==> w'.ents[x] == w.ents[x]
    requires forall x :: x in w.len && x != i ==> w'.len[x] == w.len[x]
    requires forall b :: b in w.own && b in w.st && w.own[b].i != i ==> b in w'.st && w'.st[b] == w.st[b]
    ensures Flats(w') == Flats(w)[i := FlatOf(w', i)]
  {
    forall x | x in w.ents && x != i
      ensures FlatOf(w', x) == FlatOf(w, x)
    {
      FlatLength(sb, w, x);
      FlatKept(sb, w, w', x);
    }
  }

  // ---------------------------------------------------------------- the free map

  lemma TakeBlock(sb: SuperBlock, w: World, b: nat)
    requires Sound(sb, w) && b < sb.DataEnd() && !Bit(sb, w.st, b)
    ensures b !in w.own && b !in w.hand && sb.dataStart <= b
    ensures var w' := w.(st := SetBit(sb, w.st, b, true)[b := Zeros(BLOCK_SIZE)], hand := w.hand + {b});
            Sound(sb, w') && Flats(w') == Flats(w)
  {
    var w' := w.(st := SetBit(sb, w.st, b, true)[b := Zeros(BLOCK_SIZE)], hand := w.hand + {b});
    OwnedIsThere(sb, w);
    TakeBit(sb, w.st, w.own, w.hand, b);
    assert forall x :: x in w.own ==> w'.st[x] == w.st[x];
    KeepFiles(sb, w.st, w'.st, w.own, w.ents, w.len);
    FlatsSpared(sb, w, w');
  }

  lemma DropBlock(sb: SuperBlock, w: World, b: nat)
    requires Sound(sb, w) && b in w.hand
    ensures b < sb.DataEnd() && Bit(sb, w.st, b)
    ensures var w' := w.(st := SetBit(sb, w.st, b, false), hand := w.hand - {b});
            Sound(sb, w') && Flats(w') == Flats(w)
  {
    var w' := w.(st := SetBit(sb, w.st, b, false), hand := w.hand - {b});
    OwnedIsThere(sb, w);
    DropBit(sb, w.st, w.own, w.hand, b);
    assert forall x :: x in w.own ==> w'.st[x] == w.st[x];
    KeepFiles(sb, w.st, w'.st, w.own, w.ents, w.len);
    FlatsSpared(sb, w, w');
  }

  /** Writing inode blocks touches neither the files' blocks nor the free map. */
  lemma InodeBlockWrite(sb: SuperBlock, w: World, b: nat, data: Block)
    requires Sound(sb, w) && sb.inodeStart <= b < sb.bitmapStart
    ensures var w' := w.(st := w.st[b := data]); Sound(sb, w') && Flats(w') == Flats(w)
  {
    var w' := w.(st := w.st[b := data]);
    OwnedIsThere(sb, w);
    KeepFiles(sb, w.st, w'.st, w.own, w.ents, w.len);
    SameBits(sb, w.st, w'.st, w.own, w.hand);
    FlatsSpared(sb, w, w');
  }

  // ---------------------------------------------------------------- growing

  /** The bytes of a grown file: those it had, then those of its new block. */
  lemma FlatGrows(st: Store, st': Store, own: map<nat, Owner>, i: nat, e: Entry, e': Entry, n: nat, b: nat)
    requires FileOk(st, own, i, e, n) && n < INODE_MAX_BLOCKS && AddrsGrow(st, st', e, e', n, b) && b in st'
    requires forall x :: x in own ==> x in st
    requires forall x :: x in own && own[x].Data? && own[x].i == i && x in st ==> x in st' && st'[x] == st[x]
    ensures Flat(st', e', n + 1) == Flat(st, e, n) + st'[b]
  {
    var s := Flat(st, e, n) + st'[b];
    forall k | 0 <= k < (n + 1) * BLOCK_SIZE
      ensures FlatAt(st', e', k) == s[k]
    {
      var j := k / BLOCK_SIZE;
      if k < n * BLOCK_SIZE {
        assert own[Addr(st, e, j)] == Data(i, j);
      } else {
        assert j == n;
      }
    }
  }

  /** Bits stay right when blocks in hand become owned. */
  lemma HandOver(sb: SuperBlock, st: Store, own: map<nat, Owner>, own': map<nat, Owner>, hand: set<nat>,
                 hand': set<nat>)
    requires sb.Valid() && Full(sb, st) && BitsOk(sb, st, own, hand) && own'.Keys + hand' == own.Keys + hand
    ensures BitsOk(sb, st, own', hand')
  {
    assert Unfold(own, 0);
    assert forall b :: (b in own || b in hand) <==> b in own.Keys + hand;
    assert forall b :: (b in own' || b in hand') <==> b in own'.Keys + hand';
  }

  /** Blocks in hand that become file `i`'s leave the whole in order and lengthen that file only. */
  lemma Attached(sb: SuperBlock, w: World, w': World, i: nat, b: nat)
    requires Sound(sb, w) && i in w.ents && i in w.len && w.len[i] < INODE_MAX_BLOCKS
    requires FilesOk(sb, w'.st, w'.own, w'.ents, w'.len) && Extends(w.own, w'.own)
    requires Full(sb, w'.st) && w'.hand <= w.hand && w'.hand !! w'.own.Keys &&
             w'.own.Keys + w'.hand == w.own.Keys + w.hand
    requires w'.ents.Keys == w.ents.Keys && w'.len == w.len[i := w.len[i] + 1] && b in w'.st
    requires forall x :: x in w.ents && x != i ==> w'.ents[x] == w.ents[x]
    requires AddrsGrow(w.st, w'.st, w.ents[i], w'.ents[i], w.len[i], b)
    requires forall x :: x in w.st && sb.bitmapStart <= x < sb.dataStart ==> x in w'.st && w'.st[x] == w.st[x]
    requires forall x :: x in w.own && x in w.st && w.own[x] != Table(i) ==> x in w'.st && w'.st[x] == w.st[x]
    ensures Sound(sb, w')
    ensures Flats(w') == Flats(w)[i := FlatOf(w, i) + w'.st[b]]
  {
    SameBits(sb, w.st, w'.st, w.own, w.hand);
    HandOver(sb, w'.st, w.own, w'.own, w.hand, w'.hand);
    FileFacts(sb, w.st, w.own, w.ents, w.len, i);
    FlatGrows(w.st, w'.st, w.own, i, w.ents[i], w'.ents[i], w.len[i], b);
    FlatsOthers(sb, w, w', i);
  }

  lemma GrowDirect(sb: SuperBlock, w: World, w': World, i: nat, b: nat)
    requires Sound(sb, w) && i in w.ents && i in w.len && w.len[i] < INODE_NUM_DIRECT && b in w.hand
    requires w' == w.(own := w.own[b := Data(i, w.len[i])],
                      ents := w.ents[i := w.ents[i].(addrs := w.ents[i].addrs[w.len[i] := b])],
                      len := w.len[i := w.len[i] + 1], hand := w.hand - {b})
    ensures Sound(sb, w')
    ensures b in w.st && Flats(w') == Flats(w)[i := FlatOf(w, i) + w.st[b]]
  {
    AttachDirect(sb, w.st, w.own, w.ents, w.len, i, b);
    DirectGrows(w.st, w.ents[i], w.len[i], b);
    Attached(sb, w, w', i, b);
  }

  lemma TableIsThere(sb: SuperBlock, w: World, i: nat)
    requires Sound(sb, w) && i in w.ents && i in w.len && INODE_NUM_DIRECT < w.len[i]
    ensures w.ents[i].indirect in w.st && sb.dataStart <= w.ents[i].indirect
    ensures w.ents[i].indirect in w.own && w.own[w.ents[i].indirect] == Table(i)
  {
    FileFacts(sb, w.st, w.own, w.ents, w.len, i);
  }

  lemma GrowIndirect(sb: SuperBlock, w: World, w': World, i: nat, b: nat)
    requires Sound(sb, w) && i in w.ents && i in w.len && INODE_NUM_DIRECT < w.len[i] < INODE_MAX_BLOCKS && b in w.hand
    requires w.ents[i].indirect in w.st
    requires w' ==
             w.(st := w.st[w.ents[i].indirect := PutWord(w.st[w.ents[i].indirect], 4, w.len[i] - INODE_NUM_DIRECT, b)],
                      own := w.own[b := Data(i, w.len[i])], len := w.len[i := w.len[i] + 1], hand := w.hand - {b})
    ensures Sound(sb, w')
    ensures b in w.st && Flats(w') == Flats(w)[i := FlatOf(w, i) + w.st[b]]
  {
    TableIsThere(sb, w, i);
    AttachIndirect(sb, w.st, w'.st, w.own, w.ents, w.len, i, b);
    TableGrows(w.st, w.ents[i], w.ents[i], w.len[i], b);
    Attached(sb, w, w', i, b);
  }

  lemma GrowTable(sb: SuperBlock, w: World, w': World, i: nat, t: nat, b: nat)
    requires Sound(sb, w) && i in w.ents && i in w.len && w.len[i] == INODE_NUM_DIRECT && w.ents[i].indirect == 0
    requires b in w.hand && t in w.hand && b != t && t in w.st && w.st[t] == Zeros(BLOCK_SIZE)
    requires w' == w.(st := w.st[t := PutWord(w.st[t], 4, 0, b)],
                      own := w.own[t := Table(i)][b := Data(i, INODE_NUM_DIRECT)],
                      ents := w.ents[i := w.ents[i].(indirect := t)],
                      len := w.len[i := INODE_NUM_DIRECT + 1], hand := w.hand - {t, b})
    ensures Sound(sb, w')
    ensures b in w.st && Flats(w') == Flats(w)[i := FlatOf(w, i) + w.st[b]]
  {
    AttachTable(sb, w.st, w.own, w.ents, w.len, i, t, b);
    TableGrows(w.st, w.ents[i], w'.ents[i], INODE_NUM_DIRECT, b);
    Attached(sb, w, w', i, b);
  }

  // ---------------------------------------------------------------- writing

  /** The sequence with `src` put at `off`. */
  function Overwrite(s: seq<Byte>, off: nat, src: seq<Byte>): (r: seq<Byte>)
    requires off + |src| <= |s|
    ensures |r| == |s|
  {
    s[..off] + src + s[off + |src|..]
  }

  /** Writing part of one data block changes exactly those bytes of that file, and no other file. */
  lemma WriteData(sb: SuperBlock, w: World, w': World, i: nat, j: nat, b: nat, o: nat, src: seq<Byte>)
    requires Sound(sb, w) && i in w.ents && i in w.len && j < w.len[i] <= INODE_MAX_BLOCKS && o + |src| <= BLOCK_SIZE
    requires b == Addr(w.st, w.ents[i], j) && b in w.st && w' == w.(st := w.st[b := Overwrite(w.st[b], o, src)])
    ensures Sound(sb, w')
    ensures |FlatOf(w, i)| == w.len[i] * BLOCK_SIZE
    ensures Flats(w') == Flats(w)[i := Overwrite(FlatOf(w, i), j * BLOCK_SIZE + o, src)]
  {
    FileFacts(sb, w.st, w.own, w.ents, w.len, i);
    KeepFiles(sb, w.st, w'.st, w.own, w.ents, w.len);
    SameBits(sb, w.st, w'.st, w.own, w.hand);
    FlatWritten(w.st, w.own, i, w.ents[i], w.len[i], j, o, src);
    FlatsOthers(sb, w, w', i);
  }

  lemma FlatWritten(st: Store, own: map<nat, Owner>, i: nat, e: Entry, n: nat, j: nat, o: nat, src: seq<Byte>)
    requires FileOk(st, own, i, e, n) && j < n && o + |src| <= BLOCK_SIZE && forall x :: x in own ==> x in st
    ensures var b := Addr(st, e, j);
            Flat(st[b := Overwrite(st[b], o, src)], e, n) == Overwrite(Flat(st, e, n), j * BLOCK_SIZE + o, src)
  {
    var b := Addr(st, e, j);
    var st' := st[b := Overwrite(st[b], o, src)];
    var s := Overwrite(Flat(st, e, n), j * BLOCK_SIZE + o, src);
    SameAddrs(st, st', own, i, e, n);
    forall k | 0 <= k < n * BLOCK_SIZE
      ensures FlatAt(st', e, k) == s[k]
    {
      var x := k / BLOCK_SIZE;
      assert own[Addr(st, e, x)] == Data(i, x);
      assert x == j <==> Addr(st, e, x) == b;
    }
  }

  // ---------------------------------------------------------------- entries coming, changing and going

  /** The blocks of file `i`. */
  ghost function Blocks(own: map<nat, Owner>, i: nat): set<nat> {
    set b | b in own && own[b].i == i
  }

  /** Entries that map the same blocks. */
  ghost predicate SameBlocks(e: Entry, e': Entry) {
    e'.addrs == e.addrs && e'.indirect == e.indirect
  }

  lemma RetagFlat(st: Store, e: Entry, e': Entry, n: nat)
    requires SameBlocks(e, e') && n <= INODE_MAX_BLOCKS
    ensures Flat(st, e', n) == Flat(st, e, n)
  {
    assert forall k :: 0 <= k < n * BLOCK_SIZE ==> FlatAt(st, e', k) == FlatAt(st, e, k);
  }

  lemma RetagFiles(sb: SuperBlock, st: Store, own: map<nat, Owner>, ents: map<nat, Entry>, len: map<nat, nat>, i: nat,
                   e: Entry)
    requires sb.Valid() && FilesOk(sb, st, own, ents, len) && i in ents && SameBlocks(ents[i], e)
    ensures FilesOk(sb, st, own, ents[i := e], len)
  {
    assert Unfold(own, 0);
    var f := ents[i];
    assert forall j :: 0 <= j < INODE_MAX_BLOCKS ==> Addr(st, e, j) == Addr(st, f, j);
    assert FileOk(st, own, i, e, len[i]);
  }

  /** Changing the type, links or size of a file moves no block. */
  lemma Retag(sb: SuperBlock, w: World, w': World, i: nat, e: Entry)
    requires Sound(sb, w) && i in w.ents && SameBlocks(w.ents[i], e) && w' == w.(ents := w.ents[i := e])
    ensures Sound(sb, w') && Flats(w') == Flats(w)
  {
    RetagFiles(sb, w.st, w.own, w.ents, w.len, i, e);
    FlatLength(sb, w, i);
    RetagFlat(w.st, w.ents[i], e, w.len[i]);
    FlatsOthers(sb, w, w', i);
  }

  const NO_ADDRS: Addresses := [0, 0, 0, 0, 0, 0, 0, 0, 0, 0, 0, 0]

  predicate Unmapped(e: Entry) {
    e.addrs == NO_ADDRS && e.indirect == 0
  }

  lemma UnmappedFile(st: Store, own: map<nat, Owner>, i: nat, e: Entry)
    requires Unmapped(e)
    ensures FileOk(st, own, i, e, 0) && Flat(st, e, 0) == []
  {
  }

  lemma ArriveFiles(sb: SuperBlock, st: Store, own: map<nat, Owner>, ents: map<nat, Entry>, len: map<nat, nat>, i: nat,
                    e: Entry)
    requires sb.Valid() && FilesOk(sb, st, own, ents, len) && i !in ents && Unmapped(e)
    ensures FilesOk(sb, st, own, ents[i := e], len[i := 0])
  {
    assert Unfold(own, 0);
    UnmappedFile(st, own, i, e);
  }

  /** An empty file arrives. */
  lemma Arrive(sb: SuperBlock, w: World, w': World, i: nat, e: Entry)
    requires Sound(sb, w) && i !in w.ents && Unmapped(e)
    requires w' == w.(ents := w.ents[i := e], len := w.len[i := 0])
    ensures Sound(sb, w') && Flats(w') == Flats(w)[i := []]
  {
    ArriveFiles(sb, w.st, w.own, w.ents, w.len, i, e);
    UnmappedFile(w.st, w.own, i, e);
    assert forall x :: x in w.ents ==> FlatOf(w', x) == FlatOf(w, x);
  }

  lemma LeaveFiles(sb: SuperBlock, st: Store, own: map<nat, Owner>, ents: map<nat, Entry>, len: map<nat, nat>, i: nat)
    requires sb.Valid() && FilesOk(sb, st, own, ents, len) && i in ents && len[i] == 0
    ensures FilesOk(sb, st, own, ents - {i}, len - {i})
  {
    assert Unfold(own, 0);
    assert FileOk(st, own, i, ents[i], 0);
    assert forall b :: b in own ==> own[b].i != i;
  }

  /** An empty file leaves. */
  lemma Leave(sb: SuperBlock, w: World, w': World, i: nat)
    requires Sound(sb, w) && i in w.ents && i in w.len && w.len[i] == 0
    requires w' == w.(ents := w.ents - {i}, len := w.len - {i})
    ensures Sound(sb, w') && Flats(w') == Flats(w) - {i}
  {
    LeaveFiles(sb, w.st, w.own, w.ents, w.len, i);
    assert forall x :: x in w'.ents ==> FlatOf(w', x) == FlatOf(w, x);
  }

  lemma DetachFiles(sb: SuperBlock, st: Store, own: map<nat, Owner>, own': map<nat, Owner>, ents: map<nat, Entry>,
                    len: map<nat, nat>, i: nat, e: Entry)
    requires sb.Valid() && FilesOk(sb, st, own, ents, len) && i in ents && Unmapped(e)
    requires own' == own - Blocks(own, i)
    ensures FilesOk(sb, st, own', ents[i := e], len[i := 0])
  {
    assert Unfold(own, 0);
    UnmappedFile(st, own', i, e);
    forall x | x in ents && x != i
      ensures FileOk(st, own', x, ents[x], len[x])
    {
    }
    forall b | b in own'
      ensures b in own && own[b] == own'[b] && own[b].i != i
    {
    }
  }

  /** All of a file's blocks are taken from it, to be freed one by one. */
  lemma Detach(sb: SuperBlock, w: World, w': World, i: nat, e: Entry)
    requires Sound(sb, w) && i in w.ents && Unmapped(e)
    requires w' == w.(own := w.own - Blocks(w.own, i), ents := w.ents[i := e], len := w.len[i := 0],
                      hand := w.hand + Blocks(w.own, i))
    ensures Sound(sb, w') && Flats(w') == Flats(w)[i := []]
  {
    OwnedIsThere(sb, w);
    DetachFiles(sb, w.st, w.own, w'.own, w.ents, w.len, i, e);
    HandOver(sb, w.st, w.own, w'.own, w.hand, w'.hand);
    FlatsOthers(sb, w, w', i);
  }

  // ---------------------------------------------------------------- what is left

  ghost function Free(sb: SuperBlock, w: World): set<nat>
    requires sb.Valid()
  {
    set b | sb.dataStart <= b < sb.DataEnd() && b !in w.own && b !in w.hand
  }

  /** The free blocks are the clear bits below the swap area. */
  lemma FreeIsClear(sb: SuperBlock, w: World, b: nat)
    requires Sound(sb, w) && b < sb.DataEnd()
    ensures b in Free(sb, w) <==> !Bit(sb, w.st, b)
  {
    assert Unfold(w.own, 0);
  }
}
