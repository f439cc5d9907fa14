/**
 What the inode layer keeps on the blocks it sees through the cache: files as chains of
 blocks found through direct and indirect addresses, the free map, and who owns what.
 */
module InodeModel {
  import opened Bytes
  import opened Bitmap

  const INODE_NUM_DIRECT: nat := 12
  const INODE_NUM_INDIRECT: nat := 128
  const INODE_MAX_BLOCKS: nat := 140
  const INODE_MAX_BYTES: nat := 71680
  const SWAP_BLOCK_NUM: nat := 200
  const INODE_PER_BLOCK: nat := 8
  const ENTRY_SIZE: nat := 64

  type Store = map<nat, Block>

  /** The layout: inode blocks, then bitmap blocks, then from `dataStart` the blocks files may own. */
  datatype SuperBlock = SuperBlock(numBlocks: nat, numInodes: nat, inodeStart: nat, bitmapStart: nat, dataStart: nat) {
    predicate Valid() {
      && inodeStart + numInodes / INODE_PER_BLOCK < bitmapStart
      && bitmapStart + numBlocks / BIT_PER_BLOCK < dataStart
      && 0 < inodeStart
      && dataStart + SWAP_BLOCK_NUM <= numBlocks < 0x1_0000_0000
    }

    function DataEnd(): nat
      requires Valid()
    {
      numBlocks - SWAP_BLOCK_NUM
    }

    function InodeBlock(i: nat): nat {
      inodeStart + i / INODE_PER_BLOCK
    }

    function BitmapBlock(b: nat): nat {
      bitmapStart + b / BIT_PER_BLOCK
    }
  }

  predicate Full(sb: SuperBlock, st: Store) {
    forall b :: 0 <= b < sb.numBlocks ==> b in st
  }

  // ---------------------------------------------------------------- entries

  type Addresses = s: seq<nat> | |s| == INODE_NUM_DIRECT witness seq(INODE_NUM_DIRECT, _ => 0)

  datatype Entry = Entry(typ: nat, major: nat, minor: nat, links: nat, size: nat, addrs: Addresses, indirect: nat)

  predicate EntryFits(e: Entry) {
    && e.typ < 0x1_0000 && e.major < 0x1_0000 && e.minor < 0x1_0000 && e.links < 0x1_0000
    && e.size < 0x1_0000_0000 && e.indirect < 0x1_0000_0000
    && forall j :: 0 <= j < INODE_NUM_DIRECT ==> e.addrs[j] < 0x1_0000_0000
  }

  function EncodeEntry(e: Entry): (s: seq<Byte>)
    ensures |s| == ENTRY_SIZE
  {
    WordBytes([e.typ, e.major, e.minor, e.links], 2) + WordBytes([e.size] + e.addrs + [e.indirect], 4)
  }

  function DecodeEntry(s: seq<Byte>): (e: Entry)
    requires |s| == ENTRY_SIZE
  {
    var a, b := s[..8], s[8..];
    Entry(GetWord(a, 2, 0), GetWord(a, 2, 1), GetWord(a, 2, 2), GetWord(a, 2, 3), GetWord(b, 4, 0),
          seq(INODE_NUM_DIRECT, j requires 0 <= j < INODE_NUM_DIRECT => GetWord(b, 4, 1 + j)), GetWord(b, 4, 13))
  }

  lemma Pow256Small()
    ensures Pow256(2) == 0x1_0000 && Pow256(4) == 0x1_0000_0000
  {
    assert Pow256(2) == 0x1_0000;
  }

  lemma {:induction false} EntryRoundTrip(e: Entry)
    requires EntryFits(e)
    ensures DecodeEntry(EncodeEntry(e)) == e
  {
    Pow256Small();
    var ws, vs := [e.typ, e.major, e.minor, e.links], [e.size] + e.addrs + [e.indirect];
    var s := EncodeEntry(e);
    assert s[..8] == WordBytes(ws, 2) && s[8..] == WordBytes(vs, 4);
    GetWordBytes(ws, 2, 0);
    GetWordBytes(ws, 2, 1);
    GetWordBytes(ws, 2, 2);
    GetWordBytes(ws, 2, 3);
    GetWordBytes(vs, 4, 0);
    GetWordBytes(vs, 4, 13);
    forall j | 0 <= j < INODE_NUM_DIRECT
      ensures GetWord(s[8..], 4, 1 + j) == e.addrs[j]
    {
      assert vs[1 + j] == e.addrs[j];
      GetWordBytes(vs, 4, 1 + j);
    }
    assert DecodeEntry(s).addrs == e.addrs;
  }

  /** The fields of a stored entry stand at the offsets of the C structure. */
  lemma EntryLayout(e: Entry, j: nat)
    requires j < INODE_NUM_DIRECT
    ensures var s := EncodeEntry(e);
            && StoredAt(s, 0, 2, e.typ) && StoredAt(s, 2, 2, e.major) && StoredAt(s, 4, 2, e.minor)
            && StoredAt(s, 6, 2, e.links) && StoredAt(s, 8, 4, e.size)
            && StoredAt(s, 12 + 4 * j, 4, e.addrs[j]) && StoredAt(s, 60, 4, e.indirect)
  {
    var ws, vs := [e.typ, e.major, e.minor, e.links], [e.size] + e.addrs + [e.indirect];
    var a, b := WordBytes(ws, 2), WordBytes(vs, 4);
    StoredInFront(ws, b, 0);
    StoredInFront(ws, b, 1);
    StoredInFront(ws, b, 2);
    StoredInFront(ws, b, 3);
    WordsStored(vs, 4, 0, 0);
    StoredBehind(a, b, 0, 4, e.size);
    WordsStored(vs, 4, 1 + j, 4 + 4 * j);
    StoredBehind(a, b, 4 + 4 * j, 4, e.addrs[j]);
    WordsStored(vs, 4, 13, 52);
    StoredBehind(a, b, 52, 4, e.indirect);
  }

  lemma StoredInFront(ws: seq<nat>, b: seq<Byte>, i: nat)
    requires i < |ws|
    ensures StoredAt(WordBytes(ws, 2) + b, 2 * i, 2, ws[i])
  {
    WordsStored(ws, 2, i, 2 * i);
    StoredBefore(WordBytes(ws, 2), b, 2 * i, 2, ws[i]);
  }

  /** The entry of inode `i` as its inode block holds it. */
  function DiskEntry(sb: SuperBlock, st: Store, i: nat): Entry
    requires sb.InodeBlock(i) in st
  {
    var o := i % INODE_PER_BLOCK * ENTRY_SIZE;
    DecodeEntry(st[sb.InodeBlock(i)][o..o + ENTRY_SIZE])
  }

  function PutEntry(sb: SuperBlock, st: Store, i: nat, e: Entry): Store
    requires sb.InodeBlock(i) in st
  {
    var b, o := sb.InodeBlock(i), i % INODE_PER_BLOCK * ENTRY_SIZE;
    st[b := st[b][..o] + EncodeEntry(e) + st[b][o + ENTRY_SIZE..]]
  }

  /** Writing one entry changes no other, not even in the same block. */
  lemma PutEntryOk(sb: SuperBlock, st: Store, i: nat, e: Entry, j: nat)
    requires sb.InodeBlock(i) in st && sb.InodeBlock(j) in st && EntryFits(e)
    ensures DiskEntry(sb, PutEntry(sb, st, i, e), j) == if j == i then e else DiskEntry(sb, st, j)
  {
    var b, o, p := sb.InodeBlock(i), i % INODE_PER_BLOCK * ENTRY_SIZE, j % INODE_PER_BLOCK * ENTRY_SIZE;
    var s, r := st[b], PutEntry(sb, st, i, e)[b];
    if j == i {
      EntryRoundTrip(e);
      assert r[o..o + ENTRY_SIZE] == EncodeEntry(e);
    } else if sb.InodeBlock(j) == b {
      assert r[p..p + ENTRY_SIZE] == s[p..p + ENTRY_SIZE];
    }
  }

  // ---------------------------------------------------------------- addresses

  /** Block `j` of the file, or 0: through the entry itself or through its indirect block. */
  function Addr(st: Store, e: Entry, j: nat): nat
    requires j < INODE_MAX_BLOCKS
  {
    if j < INODE_NUM_DIRECT then e.addrs[j]
    else if e.indirect == 0 || e.indirect !in st then 0
    else GetWord(st[e.indirect], 4, j - INODE_NUM_DIRECT)
  }

  /** Eight entries of 64 bytes to a block: that of inode `i` is entry `i % 8` of block `i / 8` of the inode area. */
  lemma EntryPlace(sb: SuperBlock, st: Store, i: nat, e: Entry)
    requires sb.inodeStart + i / 8 in st
    ensures sb.inodeStart + i / 8 in PutEntry(sb, st, i, e)
    ensures var s, o := PutEntry(sb, st, i, e)[sb.inodeStart + i / 8], 64 * (i % 8);
            && s[o..o + 64] == EncodeEntry(e)
            && s[..o] == st[sb.inodeStart + i / 8][..o] && s[o + 64..] == st[sb.inodeStart + i / 8][o + 64..]
    ensures DiskEntry(sb, st, i) == DecodeEntry(st[sb.inodeStart + i / 8][64 * (i % 8)..64 * (i % 8) + 64])
  {
    var b, o := sb.inodeStart + i / 8, 64 * (i % 8);
    var s, x := st[b], EncodeEntry(e);
    var y := s[..o] + x + s[o + 64..];
    assert y[o..o + 64] == x && y[..o] == s[..o] && y[o + 64..] == s[o + 64..];
  }

  /** Address `k` of a table stands in its bytes from `4 * k` on. */
  lemma TableLayout(st: Store, e: Entry, k: nat)
    requires k < INODE_NUM_INDIRECT && e.indirect != 0 && e.indirect in st
    ensures var s := st[e.indirect];
            Addr(st, e, INODE_NUM_DIRECT + k) ==
            (s[4 * k] as int) + 0x100 * (s[4 * k + 1] as int) + 0x1_0000 * (s[4 * k + 2] as int)
            + 0x100_0000 * (s[4 * k + 3] as int)
  {
    FourBytes(st[e.indirect][k * 4..k * 4 + 4]);
  }

  lemma FourBytes(s: seq<Byte>)
    requires |s| == 4
    ensures LeValue(s) == (s[0] as int) + 0x100 * (s[1] as int) + 0x1_0000 * (s[2] as int) + 0x100_0000 * (s[3] as int)
  {
    var t := s[1..];
    var u := t[1..];
    assert u[1..] == [s[3]] && LeValue(u[1..]) == s[3];
    assert u[0] == s[2] && t[0] == s[1];
  }

  /** Whose block it is: block `j` of file `i`, or file `i`'s table of addresses. */
  datatype Owner = Data(i: nat, j: nat) | Table(i: nat)

  /** The first `n` blocks of file `i`, and they alone, are mapped, and the file owns them. */
  ghost predicate FileOk(st: Store, own: map<nat, Owner>, i: nat, e: Entry, n: nat) {
    && n <= INODE_MAX_BLOCKS
    && (e.indirect != 0 <==> n > INODE_NUM_DIRECT)
    && (e.indirect != 0 ==> e.indirect in own && own[e.indirect] == Table(i) && e.indirect in st)
    && (forall j :: 0 <= j < n ==> Addr(st, e, j) != 0 && Addr(st, e, j) in own && own[Addr(st, e, j)] == Data(i, j))
    && (forall j :: n <= j < INODE_MAX_BLOCKS ==> Addr(st, e, j) == 0)
  }

  /** Every owned block is owned for a reason. */
  ghost predicate OwnerOk(sb: SuperBlock, st: Store, own: map<nat, Owner>, ents: map<nat, Entry>, len: map<nat, nat>)
    requires sb.Valid()
  {
    forall b :: b in own ==>
      && sb.dataStart <= b < sb.DataEnd() && b in st && own[b].i in ents && own[b].i in len
      && match own[b]
         case Data(i, j) => j < len[i] && j < INODE_MAX_BLOCKS && Addr(st, ents[i], j) == b
         case Table(i) => ents[i].indirect == b
  }

  predicate Bit(sb: SuperBlock, st: Store, b: nat)
    requires sb.BitmapBlock(b) in st
  {
    BlockBit(st[sb.BitmapBlock(b)], b % BIT_PER_BLOCK)
  }

  /** Mentioning `Unfold` opens the predicates below, which most proofs only pass along. */
  ghost predicate Unfold(own: map<nat, Owner>, n: nat) {
    true
  }

  /** The set bits are the reserved blocks, the owned blocks and those in hand. */
  ghost predicate BitsOk(sb: SuperBlock, st: Store, own: map<nat, Owner>, inHand: set<nat>)
    requires sb.Valid() && Full(sb, st)
  {
    forall n: nat :: Unfold(own, n) ==>
      forall b :: 0 <= b < sb.DataEnd() ==> (Bit(sb, st, b) <==> b < sb.dataStart || b in own || b in inHand)
  }

  ghost predicate FilesOk(sb: SuperBlock, st: Store, own: map<nat, Owner>, ents: map<nat, Entry>, len: map<nat, nat>)
    requires sb.Valid()
  {
    && ents.Keys == len.Keys
    && forall n: nat :: Unfold(own, n) ==>
         (forall i :: i in ents ==> FileOk(st, own, i, ents[i], len[i])) && OwnerOk(sb, st, own, ents, len)
  }

  // ---------------------------------------------------------------- files as flat byte sequences

  /** Byte `k` of the blocks of a file laid end to end. */
  function FlatAt(st: Store, e: Entry, k: nat): Byte
    requires k / BLOCK_SIZE < INODE_MAX_BLOCKS
  {
    var b := Addr(st, e, k / BLOCK_SIZE);
    if b in st then st[b][k % BLOCK_SIZE] else 0
  }

  function Flat(st: Store, e: Entry, n: nat): (s: seq<Byte>)
    requires n <= INODE_MAX_BLOCKS
    ensures |s| == n * BLOCK_SIZE
  {
    seq(n * BLOCK_SIZE, k requires 0 <= k < n * BLOCK_SIZE => FlatAt(st, e, k))
  }

  /** Stores that agree on every block file `i` owns. */
  ghost predicate AgreeOn(st: Store, st': Store, own: map<nat, Owner>, i: nat) {
    forall b :: b in own && own[b].i == i && b in st ==> b in st' && st'[b] == st[b]
  }

  lemma SameAddrs(st: Store, st': Store, own: map<nat, Owner>, i: nat, e: Entry, n: nat)
    requires FileOk(st, own, i, e, n)
    requires forall b :: b in own && own[b] == Table(i) && b in st ==> b in st' && st'[b] == st[b]
    ensures forall j :: 0 <= j < INODE_MAX_BLOCKS ==> Addr(st', e, j) == Addr(st, e, j)
    ensures FileOk(st', own, i, e, n)
  {
  }

  /** A file's bytes depend only on the blocks it owns. */
  lemma SameFlat(st: Store, st': Store, own: map<nat, Owner>, i: nat, e: Entry, n: nat)
    requires FileOk(st, own, i, e, n) && AgreeOn(st, st', own, i) && forall b :: b in own ==> b in st
    ensures Flat(st', e, n) == Flat(st, e, n)
  {
    SameAddrs(st, st', own, i, e, n);
    forall k | 0 <= k < n * BLOCK_SIZE
      ensures FlatAt(st', e, k) == FlatAt(st, e, k)
    {
    }
  }

  /** Changes that spare the tables of addresses keep every file in place. */
  lemma KeepFiles(sb: SuperBlock, st: Store, st': Store, own: map<nat, Owner>, ents: map<nat, Entry>, len: map<nat,
                  nat>)
    requires sb.Valid() && FilesOk(sb, st, own, ents, len)
    requires forall b :: b in own && own[b].Table? && b in st ==> b in st' && st'[b] == st[b]
    requires forall b :: b in own ==> b in st'
    ensures FilesOk(sb, st', own, ents, len)
  {
    assert Unfold(own, 0);
    forall i | i in ents
      ensures FileOk(st', own, i, ents[i], len[i])
      ensures forall j :: 0 <= j < INODE_MAX_BLOCKS ==> Addr(st', ents[i], j) == Addr(st, ents[i], j)
    {
      SameAddrs(st, st', own, i, ents[i], len[i]);
    }
  }

  // ---------------------------------------------------------------- growing a file

  /** A block nobody owns. */
  ghost predicate Spare(sb: SuperBlock, st: Store, own: map<nat, Owner>, b: nat)
    requires sb.Valid()
  {
    b !in own && sb.dataStart <= b < sb.DataEnd() && b in st
  }

  /** The addresses of a grown file: those it had, then the new block. */
  ghost predicate AddrsGrow(st: Store, st': Store, e: Entry, e': Entry, n: nat, b: nat)
  {
    forall j :: 0 <= j < INODE_MAX_BLOCKS ==> Addr(st', e', j) == if j == n then b else Addr(st, e, j)
  }

  /** New owners are added; no block changes hands. */
  ghost predicate Extends(own: map<nat, Owner>, own': map<nat, Owner>) {
    forall b :: b in own ==> b in own' && own'[b] == own[b]
  }

  lemma GrownFile(st: Store, st': Store, own: map<nat, Owner>, own': map<nat, Owner>, i: nat, e: Entry, e': Entry,
                  n: nat, b: nat)
    requires FileOk(st, own, i, e, n) && n < INODE_MAX_BLOCKS
    requires AddrsGrow(st, st', e, e', n, b) && Extends(own, own') && b != 0 && b in own' && own'[b] == Data(i, n)
    requires e'.indirect != 0 <==> n + 1 > INODE_NUM_DIRECT
    requires e'.indirect != 0 ==> e'.indirect in own' && own'[e'.indirect] == Table(i) && e'.indirect in st'
    ensures FileOk(st', own', i, e', n + 1)
  {
  }

  /** Other files do not notice changes to the table of file `i`, or new owners. */
  lemma OthersKeep(sb: SuperBlock, st: Store, st': Store, own: map<nat, Owner>, own': map<nat, Owner>,
                   ents: map<nat, Entry>, len: map<nat, nat>, i: nat)
    requires sb.Valid() && FilesOk(sb, st, own, ents, len) && Extends(own, own')
    requires forall b :: b in own && own[b].Table? && own[b].i != i && b in st ==> b in st' && st'[b] == st[b]
    ensures forall x :: x in ents && x != i ==> FileOk(st', own', x, ents[x], len[x])
    ensures forall x, j :: x in ents && x != i && 0 <= j < INODE_MAX_BLOCKS ==>
              Addr(st', ents[x], j) == Addr(st, ents[x], j)
  {
    assert Unfold(own, 0);
    forall x | x in ents && x != i
      ensures FileOk(st', own', x, ents[x], len[x])
      ensures forall j :: 0 <= j < INODE_MAX_BLOCKS ==> Addr(st', ents[x], j) == Addr(st, ents[x], j)
    {
      SameAddrs(st, st', own, x, ents[x], len[x]);
    }
  }

  lemma GrownOwners(sb: SuperBlock, st: Store, st': Store, own: map<nat, Owner>, own': map<nat, Owner>,
                    ents: map<nat, Entry>, len: map<nat, nat>, i: nat, e': Entry, b: nat)
    requires sb.Valid() && FilesOk(sb, st, own, ents, len) && Extends(own, own') && i in ents
    requires len[i] < INODE_MAX_BLOCKS && AddrsGrow(st, st', ents[i], e', len[i], b)
    requires b != 0 && b in own' && own'[b] == Data(i, len[i])
    requires forall x :: x in own' ==> sb.dataStart <= x < sb.DataEnd() && x in st'
    requires forall x :: x in own' && x !in own && x != b ==> own'[x] == Table(i) && e'.indirect == x
    requires ents[i].indirect != 0 ==> e'.indirect == ents[i].indirect
    requires forall x, j :: x in ents && x != i && 0 <= j < INODE_MAX_BLOCKS ==>
               Addr(st', ents[x], j) == Addr(st, ents[x], j)
    ensures OwnerOk(sb, st', own', ents[i := e'], len[i := len[i] + 1])
  {
    assert Unfold(own, 0);
    forall x | x in own
      ensures own[x].Table? && own[x].i == i ==> ents[i].indirect == x
    {
    }
  }

  /** A file that has grown by block `b` leaves the whole in order. */
  lemma Grown(sb: SuperBlock, st: Store, st': Store, own: map<nat, Owner>, own': map<nat, Owner>,
              ents: map<nat, Entry>, len: map<nat, nat>, i: nat, e': Entry, b: nat)
    requires sb.Valid() && FilesOk(sb, st, own, ents, len) && Extends(own, own') && i in ents
    requires len[i] < INODE_MAX_BLOCKS && AddrsGrow(st, st', ents[i], e', len[i], b)
    requires b != 0 && b in own' && own'[b] == Data(i, len[i])
    requires e'.indirect != 0 <==> len[i] + 1 > INODE_NUM_DIRECT
    requires e'.indirect != 0 ==> e'.indirect in own' && own'[e'.indirect] == Table(i)
    requires ents[i].indirect != 0 ==> e'.indirect == ents[i].indirect
    requires forall x :: x in own' ==> sb.dataStart <= x < sb.DataEnd() && x in st'
    requires forall x :: x in own' && x !in own && x != b ==> own'[x] == Table(i) && e'.indirect == x
    requires forall x :: x in own && own[x].Table? && own[x].i != i && x in st ==> st'[x] == st[x]
    ensures FilesOk(sb, st', own', ents[i := e'], len[i := len[i] + 1])
  {
    assert Unfold(own, 0);
    GrownFile(st, st', own, own', i, ents[i], e', len[i], b);
    OthersKeep(sb, st, st', own, own', ents, len, i);
    GrownOwners(sb, st, st', own, own', ents, len, i, e', b);
  }

  lemma FileFacts(sb: SuperBlock, st: Store, own: map<nat, Owner>, ents: map<nat, Entry>, len: map<nat, nat>, i: nat)
    requires sb.Valid() && FilesOk(sb, st, own, ents, len) && i in ents
    ensures FileOk(st, own, i, ents[i], len[i])
    ensures forall x :: x in own ==> sb.dataStart <= x < sb.DataEnd() && x in st
  {
    assert Unfold(own, 0);
  }

  lemma DirectGrows(st: Store, e: Entry, n: nat, b: nat)
    requires n < INODE_NUM_DIRECT
    ensures AddrsGrow(st, st, e, e.(addrs := e.addrs[n := b]), n, b)
  {
  }

  /** File `i` gets block `b` as its next direct block. */
  lemma AttachDirect(sb: SuperBlock, st: Store, own: map<nat, Owner>, ents: map<nat, Entry>, len: map<nat, nat>, i: nat,
                     b: nat)
    requires sb.Valid() && FilesOk(sb, st, own, ents, len) && Spare(sb, st, own, b)
    requires i in ents && len[i] < INODE_NUM_DIRECT
    ensures var e := ents[i].(addrs := ents[i].addrs[len[i] := b]);
            FilesOk(sb, st, own[b := Data(i, len[i])], ents[i := e], len[i := len[i] + 1])
  {
    FileFacts(sb, st, own, ents, len, i);
    DirectGrows(st, ents[i], len[i], b);
    var e := ents[i].(addrs := ents[i].addrs[len[i] := b]);
    Grown(sb, st, st, own, own[b := Data(i, len[i])], ents, len, i, e, b);
  }

  /** Storing `b` in the table entry for block `n` gives the file that block and no other change. */
  lemma TableGrows(st: Store, e: Entry, e': Entry, n: nat, b: nat)
    requires e' == e.(indirect := e'.indirect) && e'.indirect != 0 && e'.indirect in st
    requires INODE_NUM_DIRECT <= n < INODE_MAX_BLOCKS && b < 0x1_0000_0000
    requires e.indirect == e'.indirect || (e.indirect == 0 && st[e'.indirect] == Zeros(BLOCK_SIZE))
    ensures var t := e'.indirect; AddrsGrow(st, st[t := PutWord(st[t], 4, n - INODE_NUM_DIRECT, b)], e, e', n, b)
  {
    var t := e'.indirect;
    var st' := st[t := PutWord(st[t], 4, n - INODE_NUM_DIRECT, b)];
    Pow256Small();
    forall j | INODE_NUM_DIRECT <= j < INODE_MAX_BLOCKS
      ensures Addr(st', e', j) == if j == n then b else Addr(st, e, j)
    {
      GetPut(st[t], 4, n - INODE_NUM_DIRECT, b, j - INODE_NUM_DIRECT);
      if e.indirect == 0 {
        GetZero(BLOCK_SIZE, 4, j - INODE_NUM_DIRECT);
      }
    }
  }

  /** File `i`, which has a table, gets block `b` as its next block. */
  lemma AttachIndirect(sb: SuperBlock, st: Store, st': Store, own: map<nat, Owner>, ents: map<nat, Entry>, len: map<nat,
                       nat>,
                       i: nat, b: nat)
    requires sb.Valid() && FilesOk(sb, st, own, ents, len) && Spare(sb, st, own, b)
    requires i in ents && INODE_NUM_DIRECT < len[i] < INODE_MAX_BLOCKS && ents[i].indirect in st
    requires st' == st[ents[i].indirect := PutWord(st[ents[i].indirect], 4, len[i] - INODE_NUM_DIRECT, b)]
    ensures FilesOk(sb, st', own[b := Data(i, len[i])], ents, len[i := len[i] + 1])
  {
    FileFacts(sb, st, own, ents, len, i);
    TableGrows(st, ents[i], ents[i], len[i], b);
    Grown(sb, st, st', own, own[b := Data(i, len[i])], ents, len, i, ents[i], b);
    assert ents[i := ents[i]] == ents;
  }

  /** File `i` outgrows its direct blocks: block `t` becomes its table, block `b` its next block. */
  lemma AttachTable(sb: SuperBlock, st: Store, own: map<nat, Owner>, ents: map<nat, Entry>, len: map<nat, nat>,
                    i: nat, t: nat, b: nat)
    requires sb.Valid() && FilesOk(sb, st, own, ents, len) && Spare(sb, st, own, b) && Spare(sb, st, own, t) && b != t
    requires i in ents && len[i] == INODE_NUM_DIRECT && st[t] == Zeros(BLOCK_SIZE)
    ensures var st' := st[t := PutWord(st[t], 4, 0, b)];
            FilesOk(sb, st', own[t := Table(i)][b := Data(i, INODE_NUM_DIRECT)],
                    ents[i := ents[i].(indirect := t)], len[i := INODE_NUM_DIRECT + 1])
  {
    FileFacts(sb, st, own, ents, len, i);
    var n, e := INODE_NUM_DIRECT, ents[i].(indirect := t);
    TableGrows(st, ents[i], e, n, b);
    Grown(sb, st, st[t := PutWord(st[t], 4, 0, b)], own, own[t := Table(i)][b := Data(i, n)], ents, len, i, e, b);
  }

  // ---------------------------------------------------------------- the free map

  function SetBit(sb: SuperBlock, st: Store, b: nat, on: bool): Store
    requires sb.BitmapBlock(b) in st
  {
    st[sb.BitmapBlock(b) := PutBit(st[sb.BitmapBlock(b)], b % BIT_PER_BLOCK, on)]
  }

  lemma SetBitOk(sb: SuperBlock, st: Store, b: nat, on: bool, x: nat)
    requires sb.BitmapBlock(b) in st && sb.BitmapBlock(x) in st
    ensures Bit(sb, SetBit(sb, st, b, on), x) == if x == b then on else Bit(sb, st, x)
  {
    if sb.BitmapBlock(x) == sb.BitmapBlock(b) {
      PutBitOk(st[sb.BitmapBlock(b)], b % BIT_PER_BLOCK, on, x % BIT_PER_BLOCK);
    }
  }

  /** Marking a free block takes it in hand. */
  lemma TakeBit(sb: SuperBlock, st: Store, own: map<nat, Owner>, hand: set<nat>, b: nat)
    requires sb.Valid() && Full(sb, st) && BitsOk(sb, st, own, hand) && b < sb.DataEnd() && !Bit(sb, st, b)
    ensures Spare(sb, st, own, b) && b !in hand
    ensures var st' := SetBit(sb, st, b, true)[b := Zeros(BLOCK_SIZE)];
            Full(sb, st') && BitsOk(sb, st', own, hand + {b})
  {
    assert Unfold(own, 0);
    var st' := SetBit(sb, st, b, true)[b := Zeros(BLOCK_SIZE)];
    forall x | 0 <= x < sb.DataEnd()
      ensures Bit(sb, st', x) == (x == b || Bit(sb, st, x))
    {
      SetBitOk(sb, st, b, true, x);
    }
  }

  /** Clearing the bit of a block in hand lets it go. */
  lemma DropBit(sb: SuperBlock, st: Store, own: map<nat, Owner>, hand: set<nat>, b: nat)
    requires sb.Valid() && Full(sb, st) && BitsOk(sb, st, own, hand) && b in hand && b !in own
    requires sb.dataStart <= b < sb.DataEnd()
    ensures Bit(sb, st, b)
    ensures var st' := SetBit(sb, st, b, false); Full(sb, st') && BitsOk(sb, st', own, hand - {b})
  {
    assert Unfold(own, 0);
    var st' := SetBit(sb, st, b, false);
    forall x | 0 <= x < sb.DataEnd()
      ensures Bit(sb, st', x) == (x != b && Bit(sb, st, x))
    {
      SetBitOk(sb, st, b, false, x);
    }
  }

  /** The bits do not change when nothing but other blocks is written. */
  lemma SameBits(sb: SuperBlock, st: Store, st': Store, own: map<nat, Owner>, hand: set<nat>)
    requires sb.Valid() && Full(sb, st) && Full(sb, st') && BitsOk(sb, st, own, hand)
    requires forall b :: sb.bitmapStart <= b < sb.dataStart ==> b in st' && b in st && st'[b] == st[b]
    ensures BitsOk(sb, st', own, hand)
  {
    assert Unfold(own, 0);
    forall x | 0 <= x < sb.DataEnd()
      ensures Bit(sb, st', x) == Bit(sb, st, x)
    {
      assert sb.bitmapStart <= sb.BitmapBlock(x) < sb.dataStart;
    }
  }
}
