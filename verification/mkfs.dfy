/** The image `mkfs` makes when it is given no files: a root directory with two names, in the first data block. */
module Mkfs {
  import opened Common
  import opened Bytes
  import opened Bitmap
  import opened InodeModel
  import opened InodeWorld
  import opened InodeCost
  import opened InodeLayer
  import opened Directories
  import opened Paths
  import D = DirModel

  const DOT: Byte := 46

  function Sector(b: nat): Block {
    Zeros(BLOCK_SIZE)
  }

  /** All of the disk zeroed. */
  function Blank(sb: SuperBlock): Store {
    map b: nat | b < sb.numBlocks :: Sector(b)
  }

  /** A bitmap block whose first `n` bits are set. */
  function BitsBelow(n: nat): Block
    requires n <= BIT_PER_BLOCK
  {
    if n == 0 then Zeros(BLOCK_SIZE) else PutBit(BitsBelow(n - 1), n - 1, true)
  }

  function RootEntry(sb: SuperBlock): Entry {
    Entry(INODE_DIRECTORY, 0, 0, 1, BLOCK_SIZE, NO_ADDRS[0 := sb.dataStart], 0)
  }

  /** The root directory's only block. */
  function RootBlock(): (s: Block) {
    D.MakeSlot(ROOT_INODE_NO, [DOT]) + D.MakeSlot(ROOT_INODE_NO, [DOT, DOT]) + Zeros(BLOCK_SIZE - 2 * D.DIR_ENTRY_SIZE)
  }

  function Image(sb: SuperBlock): Store
    requires sb.Valid() && ROOT_INODE_NO < sb.numInodes && sb.dataStart < BIT_PER_BLOCK
  {
    PutEntry(sb, Blank(sb), ROOT_INODE_NO, RootEntry(sb))[sb.bitmapStart := BitsBelow(sb.dataStart + 1)]
    [sb.dataStart := RootBlock()]
  }

  /** The same, with who owns what. */
  ghost function Fresh(sb: SuperBlock): World
    requires sb.Valid() && ROOT_INODE_NO < sb.numInodes && sb.dataStart < BIT_PER_BLOCK
  {
    World(Image(sb), map[sb.dataStart := Data(ROOT_INODE_NO, 0)], map[ROOT_INODE_NO := RootEntry(sb)],
          map[ROOT_INODE_NO := 1], {})
  }

  // ---------------------------------------------------------------- the free map

  lemma ClearBits(k: nat)
    ensures !ByteBit(0, k)
  {
  }

  lemma {:induction false} BitsBelowOk(n: nat, j: nat)
    requires n <= BIT_PER_BLOCK && j < BIT_PER_BLOCK
    ensures BlockBit(BitsBelow(n), j) <==> j < n
  {
    if n == 0 {
      ZeroBits(j);
    } else {
      BitsBelowOk(n - 1, j);
      PutBitOk(BitsBelow(n - 1), n - 1, true, j);
    }
  }

  lemma ImageFull(sb: SuperBlock)
    requires sb.Valid() && ROOT_INODE_NO < sb.numInodes && sb.dataStart < BIT_PER_BLOCK
    ensures Full(sb, Image(sb)) && Image(sb)[sb.bitmapStart] == BitsBelow(sb.dataStart + 1)
    ensures forall m :: sb.bitmapStart < m < sb.dataStart ==> m in Image(sb) && Image(sb)[m] == Zeros(BLOCK_SIZE)
  {
    assert sb.InodeBlock(ROOT_INODE_NO) < sb.bitmapStart;
  }

  lemma ImageBit(sb: SuperBlock, b: nat)
    requires sb.Valid() && ROOT_INODE_NO < sb.numInodes && sb.dataStart < BIT_PER_BLOCK && b < sb.DataEnd()
    ensures sb.BitmapBlock(b) in Image(sb) && (Bit(sb, Image(sb), b) <==> b <= sb.dataStart)
  {
    ImageFull(sb);
    WhichBitmap(sb, b);
    if b < BIT_PER_BLOCK {
      BitsBelowOk(sb.dataStart + 1, b);
    } else {
      ZeroBits(b % BIT_PER_BLOCK);
    }
  }

  lemma ZeroBits(j: nat)
    requires j < BIT_PER_BLOCK
    ensures !BlockBit(Zeros(BLOCK_SIZE), j)
  {
    ClearBits(j % 8);
  }

  lemma WhichBitmap(sb: SuperBlock, b: nat)
    requires sb.Valid() && b < sb.DataEnd()
    ensures if b < BIT_PER_BLOCK then sb.BitmapBlock(b) == sb.bitmapStart && b % BIT_PER_BLOCK == b
            else sb.bitmapStart < sb.BitmapBlock(b) < sb.dataStart
  {
  }

  lemma ImageBits(sb: SuperBlock)
    requires sb.Valid() && ROOT_INODE_NO < sb.numInodes && sb.dataStart < BIT_PER_BLOCK && sb.dataStart < sb.DataEnd()
    ensures Full(sb, Image(sb)) && BitsOk(sb, Image(sb), Fresh(sb).own, {})
  {
    ImageFull(sb);
    forall b | 0 <= b < sb.DataEnd()
      ensures Bit(sb, Image(sb), b) <==> b <= sb.dataStart
    {
      ImageBit(sb, b);
    }
  }

  // ---------------------------------------------------------------- inodes

  lemma BlankEntry(sb: SuperBlock, x: nat)
    requires sb.Valid() && x < sb.numInodes
    ensures sb.InodeBlock(x) in Blank(sb) && DiskEntry(sb, Blank(sb), x).typ == INODE_INVALID
  {
    var o := x % INODE_PER_BLOCK * ENTRY_SIZE;
    assert Zeros(BLOCK_SIZE)[o..o + ENTRY_SIZE][..8] == Zeros(8);
    GetZero(8, 2, 0);
  }

  lemma ImageEntry(sb: SuperBlock, x: nat)
    requires sb.Valid() && ROOT_INODE_NO < sb.numInodes && sb.dataStart < BIT_PER_BLOCK && x < sb.numInodes
    ensures sb.InodeBlock(x) in Image(sb)
    ensures if x == ROOT_INODE_NO then DiskEntry(sb, Image(sb), x) == RootEntry(sb)
            else DiskEntry(sb, Image(sb), x).typ == INODE_INVALID
  {
    var b := Blank(sb);
    BlankEntry(sb, x);
    BlankEntry(sb, ROOT_INODE_NO);
    PutEntryOk(sb, b, ROOT_INODE_NO, RootEntry(sb), x);
    assert sb.InodeBlock(x) < sb.bitmapStart;
    assert Image(sb)[sb.InodeBlock(x)] == PutEntry(sb, b, ROOT_INODE_NO, RootEntry(sb))[sb.InodeBlock(x)];
  }

  lemma ImageFiles(sb: SuperBlock)
    requires sb.Valid() && ROOT_INODE_NO < sb.numInodes && sb.dataStart < BIT_PER_BLOCK && sb.dataStart < sb.DataEnd()
    ensures var w := Fresh(sb); FilesOk(sb, w.st, w.own, w.ents, w.len)
  {
    var w, e := Fresh(sb), RootEntry(sb);
    assert Addr(w.st, e, 0) == sb.dataStart;
    assert forall j :: 1 <= j < INODE_MAX_BLOCKS ==> Addr(w.st, e, j) == 0;
    assert FileOk(w.st, w.own, ROOT_INODE_NO, e, 1);
  }

  /** What `mkfs` leaves behind can be mounted: all the inode layer needs of a disk holds of it. */
  lemma ImageIsSound(sb: SuperBlock)
    requires sb.Valid() && ROOT_INODE_NO < sb.numInodes && sb.dataStart < BIT_PER_BLOCK && sb.dataStart < sb.DataEnd()
    ensures Sound(sb, Fresh(sb)) && Linked(sb, Fresh(sb), map[], 0) && 0 !in Fresh(sb).ents
  {
    var w := Fresh(sb);
    ImageBits(sb);
    ImageFiles(sb);
    forall x: nat | x != 0
      ensures LinkedAt(sb, w.st, w.ents, w.len, map[], x)
    {
      if x < sb.numInodes {
        ImageEntry(sb, x);
      }
    }
  }

  // ---------------------------------------------------------------- the root directory

  lemma NoEntries(n: nat, k: nat)
    requires k < D.Slots(Zeros(n))
    ensures D.Ents(Zeros(n))[k].ino == 0
  {
    assert D.Slot(Zeros(n), k)[..2] == Zeros(2);
    LeZeros(2);
  }

  /** An entry written into a free slot. */
  lemma AddName(data: seq<Byte>, k: nat, ino: nat, name: seq<Byte>)
    requires D.Shaped(data) && D.Unique(D.Ents(data)) && k < D.Slots(data) && D.Ents(data)[k].ino == 0
    requires 0 < ino < 0x1_0000 && D.IsString(name) && |name| <= D.FILE_NAME_MAX_LENGTH && name !in D.Dir(D.Ents(data))
    ensures EntryAt(k) <= |data|
    ensures var r := Written(data, EntryAt(k), D.MakeSlot(ino, name));
            && D.Shaped(r) && D.Ents(r) == D.Ents(data)[k := D.DirEnt(ino, name)] && D.Unique(D.Ents(r))
            && D.Dir(D.Ents(r)) == D.Dir(D.Ents(data))[name := ino]
  {
    var s := D.MakeSlot(ino, name);
    D.MakeSlotOk(ino, name);
    WrittenSlot(data, k, s);
    D.InsertOk(D.Ents(data), k, D.EntOf(s));
  }

  /** The root's block while it has but one name. */
  function OneName(): (s: Block) {
    D.MakeSlot(ROOT_INODE_NO, [DOT]) + Zeros(BLOCK_SIZE - D.DIR_ENTRY_SIZE)
  }

  lemma FirstName()
    ensures D.Shaped(OneName()) && D.Unique(D.Ents(OneName())) && D.Ents(OneName())[1].ino == 0
    ensures D.Dir(D.Ents(OneName())) == map[[DOT] := ROOT_INODE_NO]
  {
    var z, a := Zeros(BLOCK_SIZE), D.MakeSlot(ROOT_INODE_NO, [DOT]);
    NoNames();
    AddName(z, 0, ROOT_INODE_NO, [DOT]);
    FirstSlot(a);
  }

  lemma FirstSlot(a: seq<Byte>)
    requires |a| == D.DIR_ENTRY_SIZE
    ensures EntryAt(0) == 0 && Written(Zeros(BLOCK_SIZE), 0, a) == a + Zeros(BLOCK_SIZE - D.DIR_ENTRY_SIZE)
  {
    var z := Zeros(BLOCK_SIZE);
    assert z[..0] == [] && z[D.DIR_ENTRY_SIZE..] == Zeros(BLOCK_SIZE - D.DIR_ENTRY_SIZE);
  }

  lemma NoNames()
    ensures var es := D.Ents(Zeros(BLOCK_SIZE));
              |es| == 32 && D.Unique(es) && D.Dir(es) == map[] && es[0].ino == 0 && es[1].ino == 0
  {
    forall k | 0 <= k < 32
      ensures D.Ents(Zeros(BLOCK_SIZE))[k].ino == 0
    {
      NoEntries(BLOCK_SIZE, k);
    }
  }

  lemma RootNames()
    ensures D.Shaped(RootBlock()) && D.Unique(D.Ents(RootBlock()))
    ensures D.Dir(D.Ents(RootBlock())) == map[[DOT] := ROOT_INODE_NO, [DOT, DOT] := ROOT_INODE_NO]
  {
    FirstName();
    var y, b := OneName(), D.MakeSlot(ROOT_INODE_NO, [DOT, DOT]);
    assert [DOT, DOT] != [DOT] by {
      assert |[DOT, DOT]| == 2;
    }
    AddName(y, 1, ROOT_INODE_NO, [DOT, DOT]);
    assert y[..EntryAt(1)] == D.MakeSlot(ROOT_INODE_NO, [DOT]);
    assert y[EntryAt(1) + D.DIR_ENTRY_SIZE..] == Zeros(BLOCK_SIZE - 2 * D.DIR_ENTRY_SIZE);
    assert Written(y, EntryAt(1), b) == RootBlock();
  }

  /** Its tree is in order, and both names lead back to the root. */
  lemma ImageTree(sb: SuperBlock)
    requires sb.Valid() && ROOT_INODE_NO < sb.numInodes && sb.dataStart < BIT_PER_BLOCK && sb.dataStart < sb.DataEnd()
    ensures var w := Fresh(sb);
            TreeOk(w) && IsDir(w, ROOT_INODE_NO) &&
              DirOf(w, ROOT_INODE_NO) == map[[DOT] := ROOT_INODE_NO, [DOT, DOT] := ROOT_INODE_NO]
  {
    var w, e := Fresh(sb), RootEntry(sb);
    RootNames();
    var s := Flat(w.st, e, 1);
    forall k | 0 <= k < BLOCK_SIZE
      ensures s[k] == RootBlock()[k]
    {
      assert s[k] == FlatAt(w.st, e, k) && Addr(w.st, e, 0) == sb.dataStart;
    }
    assert FileAt(w, ROOT_INODE_NO).data == RootBlock();
    assert NodeOk(w, ROOT_INODE_NO);
  }
}
