/** Directory operations, each a run of reads and writes of sixteen-byte entries. */
module Directories {
  import opened Common
  import opened Bytes
  import opened InodeModel
  import opened InodeWorld
  import opened InodeCost
  import opened InodeLayer
  import opened LogBudget
  import D = DirModel

  /** The entries of directory `i`. */
  ghost function EntsOf(w: World, i: nat): seq<D.DirEnt>
    requires i in w.ents
  {
    D.Ents(FileAt(w, i).data)
  }

  ghost predicate IsDir(w: World, i: nat) {
    i in w.ents && w.ents[i].typ == INODE_DIRECTORY && D.Shaped(FileAt(w, i).data) && D.Unique(EntsOf(w, i))
  }

  ghost function DirOf(w: World, i: nat): map<seq<Byte>, nat>
    requires IsDir(w, i)
  {
    D.Dir(EntsOf(w, i))
  }

  /** Comparing at most fourteen characters decides whether the name stands for the field's key. */
  method SameName(name: seq<Byte>, field: seq<Byte>) returns (eq: bool)
    requires D.IsString(name) && |field| == D.FILE_NAME_MAX_LENGTH
    ensures eq <==> D.Key(field) == D.Trunc(name)
  {
    var p := 0;
    while p < D.FILE_NAME_MAX_LENGTH
      invariant 0 <= p <= D.FILE_NAME_MAX_LENGTH
      invariant forall q :: 0 <= q < p ==> D.CharAt(name, q) == field[q] != 0
    {
      if D.CharAt(name, p) != field[p] {
        assert |D.Key(field)| >= p;
        return false;
      }
      if field[p] == 0 {
        assert p > 0 ==> D.CharAt(name, p - 1) != 0;
        assert |D.Key(field)| == p == |name|;
        assert D.Key(field) == D.Trunc(name);
        return true;
      }
      p := p + 1;
    }
    assert D.CharAt(name, p - 1) != 0;
    assert |D.Key(field)| == p <= |name|;
    assert D.Key(field) == D.Trunc(name);
    return true;
  }

  /** Entry `k` of a directory, read from its file. */
  method ReadEntry(fs: Inodes, i: nat, k: nat) returns (s: seq<Byte>)
    requires fs.Held(i) && IsDir(fs.w, i) && k < |EntsOf(fs.w, i)|
    modifies fs
    ensures fs.Held(i) && fs.blocks == old(fs.blocks) && fs.live == old(fs.live) && fs.w == old(fs.w) &&
            fs.log == old(fs.log)
    ensures |s| == D.DIR_ENTRY_SIZE && EntsOf(fs.w, i)[k] == D.EntOf(s)
  {
    fs.HeldFacts(i);
    var ok, d := fs.Read(i, k * D.DIR_ENTRY_SIZE, D.DIR_ENTRY_SIZE);
    s := d;
    ghost var data := FileAt(fs.w, i).data;
    assert s == D.Slot(data, k);
  }

  /** How many entries the file holds. */
  method Count(fs: Inodes, i: nat) returns (n: nat)
    requires fs.Held(i) && IsDir(fs.w, i)
    ensures n == |EntsOf(fs.w, i)| && |FileAt(fs.w, i).data| == n * D.DIR_ENTRY_SIZE
  {
    fs.HeldFacts(i);
    n := fs.live[i].entry.size / D.DIR_ENTRY_SIZE;
  }

  /** The inode number the directory gives the name, or 0; and where. */
  method Lookup(fs: Inodes, i: nat, name: seq<Byte>) returns (ino: nat, index: nat)
    requires fs.Held(i) && IsDir(fs.w, i) && D.IsString(name)
    modifies fs
    ensures fs.Held(i) && fs.blocks == old(fs.blocks) && fs.live == old(fs.live) && fs.w == old(fs.w) &&
            fs.log == old(fs.log)
    ensures ino == 0 <==> D.Trunc(name) !in DirOf(fs.w, i)
    ensures ino != 0 ==> DirOf(fs.w, i)[D.Trunc(name)] == ino
    ensures ino != 0 ==> index < |EntsOf(fs.w, i)| && EntsOf(fs.w, i)[index] == D.DirEnt(ino, D.Trunc(name))
  {
    var n := Count(fs, i);
    ghost var es := EntsOf(fs.w, i);
    index := 0;
    while index < n
      invariant 0 <= index <= n
      invariant fs.Held(i) && fs.blocks == old(fs.blocks) && fs.live == old(fs.live) && fs.w == old(fs.w) &&
                fs.log == old(fs.log)
      invariant forall k :: 0 <= k < index && D.Used(es, k) ==> es[k].name != D.Trunc(name)
    {
      var s := ReadEntry(fs, i, index);
      if D.SlotIno(s) != 0 {
        var eq := SameName(name, s[2..]);
        if eq {
          D.DirHolds(es, index);
          return D.SlotIno(s), index;
        }
      }
      index := index + 1;
    }
    D.DirLacks(es, D.Trunc(name));
    ino := 0;
  }

  /** The first unused entry, or the end. */
  method FirstUnused(fs: Inodes, i: nat) returns (index: nat)
    requires fs.Held(i) && IsDir(fs.w, i)
    modifies fs
    ensures fs.Held(i) && fs.blocks == old(fs.blocks) && fs.live == old(fs.live) && fs.w == old(fs.w) &&
            fs.log == old(fs.log)
    ensures index <= |EntsOf(fs.w, i)| && forall k :: 0 <= k < index ==> D.Used(EntsOf(fs.w, i), k)
    ensures index < |EntsOf(fs.w, i)| ==> !D.Used(EntsOf(fs.w, i), index)
  {
    var n := Count(fs, i);
    ghost var es := EntsOf(fs.w, i);
    index := 0;
    while index < n
      invariant 0 <= index <= n
      invariant fs.Held(i) && fs.blocks == old(fs.blocks) && fs.live == old(fs.live) && fs.w == old(fs.w) &&
                fs.log == old(fs.log)
      invariant forall k :: 0 <= k < index ==> D.Used(es, k)
    {
      var s := ReadEntry(fs, i, index);
      if D.SlotIno(s) == 0 {
        return;
      }
      index := index + 1;
    }
  }

  /** File `i` now holds `es`, and nothing else has changed for any file. */
  ghost predicate Replaced(w: World, w': World, i: nat, es: seq<D.DirEnt>) {
    && IsDir(w', i) && i in w.ents && EntsOf(w', i) == es
    && Files(w') == Files(w)[i := FileAt(w, i).(data := FileAt(w', i).data)]
  }

  lemma WrittenSlot(data: seq<Byte>, k: nat, s: seq<Byte>)
    requires D.Shaped(data) && k <= D.Slots(data) && |s| == D.DIR_ENTRY_SIZE
    ensures k * D.DIR_ENTRY_SIZE <= |data|
    ensures var r := Written(data, k * D.DIR_ENTRY_SIZE, s);
              D.Shaped(r) && D.Ents(r) == D.SetEnt(D.Ents(data), k, D.EntOf(s))
  {
    var o := k * D.DIR_ENTRY_SIZE;
    var r := Written(data, o, s);
    if k < D.Slots(data) {
      assert r[o + D.DIR_ENTRY_SIZE..] == data[o + D.DIR_ENTRY_SIZE..];
    } else {
      assert r[o + D.DIR_ENTRY_SIZE..] == [];
    }
    D.SetSlot(data, r, k, s);
  }

  /** Where entry `k` begins. */
  function EntryAt(k: nat): nat {
    k * D.DIR_ENTRY_SIZE
  }

  /** Whether entry `k` can be written: there is a block for it, and budget to log what changes. */
  ghost predicate Room(fs: Inodes, i: nat, k: nat)
    requires fs.sb.Valid() && i in fs.w.ents && i in fs.w.len
    reads fs
  {
    fs.WriteOk(i, EntryAt(k), D.DIR_ENTRY_SIZE)
  }

  /** The first unused entry, or the end. */
  ghost function Gap(es: seq<D.DirEnt>, from: nat := 0): (k: nat)
    requires from <= |es|
    ensures from <= k <= |es| && (k < |es| ==> !D.Used(es, k))
    ensures forall x :: from <= x < k ==> D.Used(es, x)
    decreases |es| - from
  {
    if from < |es| && D.Used(es, from) then Gap(es, from + 1) else from
  }

  /** Write entry `k`. */
  method WriteEntry(fs: Inodes, i: nat, k: nat, s: seq<Byte>) returns (ok: bool)
    requires fs.Held(i) && IsDir(fs.w, i) && k <= |EntsOf(fs.w, i)| && |s| == D.DIR_ENTRY_SIZE
    requires D.Unique(D.SetEnt(EntsOf(fs.w, i), k, D.EntOf(s)))
    modifies fs
    ensures ok <==> old(Room(fs, i, k))
    ensures ok ==> fs.Held(i) && Replaced(old(fs.w), fs.w, i, D.SetEnt(EntsOf(old(fs.w), i), k, D.EntOf(s)))
    ensures ok ==> fs.live == old(fs.live)[i := old(fs.live)[i].(entry := fs.w.ents[i])]
  {
    fs.HeldFacts(i);
    ghost var w0 := fs.w;
    WrittenSlot(FileAt(w0, i).data, k, s);
    ok := fs.Write(i, EntryAt(k), s);
    if ok {
      assert Files(fs.w)[i] == FileAt(fs.w, i);
    }
  }

  datatype Inserted = Exists | NoRoom | At(index: nat)

  /** Add a name. The inode number is stored in sixteen bits. */
  method Insert(fs: Inodes, i: nat, name: seq<Byte>, ino: nat) returns (r: Inserted)
    requires fs.Held(i) && IsDir(fs.w, i) && D.IsString(name)
    modifies fs
    ensures r.Exists? <==> D.Trunc(name) in DirOf(old(fs.w), i)
    ensures r.Exists? ==> fs.w == old(fs.w) && fs.live == old(fs.live) && fs.log == old(fs.log)
    ensures r.At? <==> D.Trunc(name) !in DirOf(old(fs.w), i) && old(Room(fs, i, Gap(EntsOf(fs.w, i))))
    ensures r.At? ==> fs.Held(i) && r.index == Gap(EntsOf(old(fs.w), i))
    ensures r.At? ==>
              Replaced(old(fs.w), fs.w, i,
              D.SetEnt(EntsOf(old(fs.w), i), r.index, D.DirEnt(ino % 0x1_0000, D.Trunc(name))))
    ensures r.At? ==> DirOf(fs.w, i) == if ino % 0x1_0000 == 0 then DirOf(old(fs.w), i)
                                        else DirOf(old(fs.w), i)[D.Trunc(name) := ino % 0x1_0000]
  {
    ghost var w0, es := fs.w, EntsOf(fs.w, i);
    var found, _ := Lookup(fs, i, name);
    if found != 0 {
      return Exists;
    }
    var k := FirstUnused(fs, i);
    assert k == Gap(es);
    var s := D.MakeSlot(ino % 0x1_0000, name);
    D.MakeSlotOk(ino % 0x1_0000, name);
    D.InsertOk(es, k, D.EntOf(s));
    var ok := WriteEntry(fs, i, k, s);
    r := if ok then At(k) else NoRoom;
  }

  lemma BitmapsFew(sb: SuperBlock, bs: set<nat>)
    ensures |Bitmaps(sb, bs)| <= |bs|
    decreases |bs|
  {
    if bs == {} {
      assert Bitmaps(sb, bs) == {};
    } else {
      var b :| b in bs;
      BitmapsFew(sb, bs - {b});
      BitmapsAdd(sb, bs - {b}, {b});
      assert bs == bs - {b} + {b} && Bitmaps(sb, {b}) == {sb.BitmapBlock(b)};
    }
  }

  /** An entry lies in one block: writing it logs at most five. */
  lemma EntryCount(sb: SuperBlock, w: World, i: nat, k: nat)
    requires Sound(sb, w) && 0 < i < sb.numInodes && i in w.ents && i in w.len && w.len[i] <= INODE_MAX_BLOCKS
    requires EntryAt(k) / BLOCK_SIZE <= w.len[i] && EntryAt(k + 1) <= INODE_MAX_BYTES
    requires Need(w.len[i], BlocksFor(EntryAt(k + 1))) <= |Free(sb, w)|
    ensures |WriteTouch(sb, w, i, EntryAt(k), D.DIR_ENTRY_SIZE)| <= 5
  {
    var last := BlocksFor(EntryAt(k + 1));
    assert EntryAt(k + 1) == EntryAt(k) + D.DIR_ENTRY_SIZE;
    assert last == EntryAt(k) / BLOCK_SIZE + 1;
    WriteCount(sb, w, i, EntryAt(k), D.DIR_ENTRY_SIZE);
    NextCount(sb, w, i, last);
    BitmapsFew(sb, Next(sb, w, i, last));
  }

  /** Five blocks of budget are enough for an entry: then it fails for want of blocks or of size alone. */
  lemma EntryFits(fs: Inodes, i: nat, k: nat)
    requires fs.Held(i) && IsDir(fs.w, i) && k <= |EntsOf(fs.w, i)| && 5 <= fs.log.rm
    ensures Room(fs, i, k) <==>
              EntryAt(k + 1) <= INODE_MAX_BYTES && Need(fs.w.len[i], BlocksFor(EntryAt(k + 1))) <= |Free(fs.sb, fs.w)|
  {
    fs.HeldFacts(i);
    EntryStart(|FileAt(fs.w, i).data|, fs.w.len[i], k);
    if EntryAt(k + 1) <= INODE_MAX_BYTES && Need(fs.w.len[i], BlocksFor(EntryAt(k + 1))) <= |Free(fs.sb, fs.w)| {
      EntryCount(fs.sb, fs.w, i, k);
      FitsFew(fs.log, WriteTouch(fs.sb, fs.w, i, EntryAt(k), D.DIR_ENTRY_SIZE));
    }
  }

  lemma EntryStart(size: nat, len: nat, k: nat)
    requires EntryAt(k) <= size && len == BlocksFor(size)
    ensures EntryAt(k) / BLOCK_SIZE <= len && EntryAt(k + 1) == EntryAt(k) + D.DIR_ENTRY_SIZE
    ensures EntryAt(k + 1) <= size ==> Need(len, BlocksFor(EntryAt(k + 1))) == 0
  {
  }

  /** Within the file there are blocks already. */
  lemma EntryInside(fs: Inodes, i: nat, k: nat)
    requires fs.Held(i) && IsDir(fs.w, i) && k < |EntsOf(fs.w, i)| && 5 <= fs.log.rm
    ensures Room(fs, i, k)
  {
    fs.HeldFacts(i);
    EntryStart(|FileAt(fs.w, i).data|, fs.w.len[i], k);
    EntryFits(fs, i, k);
  }

  lemma FitsFew(g: Budget, t: set<nat>)
    requires |t| <= g.rm
    ensures Fits(g, t)
  {
    Subset(t - g.logged, t);
  }

  /** Drop the entry at `k`; nothing happens if it is not in use. It fails for want of budget only. */
  method Remove(fs: Inodes, i: nat, k: nat) returns (ok: bool)
    requires fs.Held(i) && IsDir(fs.w, i) && k < |EntsOf(fs.w, i)|
    modifies fs
    ensures ok <==> (D.Used(EntsOf(old(fs.w), i), k) ==> old(Room(fs, i, k)))
    ensures 5 <= old(fs.log.rm) ==> ok
    ensures ok ==> fs.Held(i) && IsDir(fs.w, i)
    ensures ok ==>
              Replaced(old(fs.w), fs.w, i, if D.Used(EntsOf(old(fs.w), i), k)
                                           then D.SetEnt(EntsOf(old(fs.w), i), k, D.DirEnt(0, []))
                                           else EntsOf(old(fs.w), i))
    ensures ok ==> DirOf(fs.w, i) == if D.Used(EntsOf(old(fs.w), i), k)
                                     then DirOf(old(fs.w), i) - {EntsOf(old(fs.w), i)[k].name}
                                     else DirOf(old(fs.w), i)
  {
    ghost var w0, es := fs.w, EntsOf(fs.w, i);
    if 5 <= fs.log.rm {
      EntryInside(fs, i, k);
    }
    var s := ReadEntry(fs, i, k);
    ok := true;
    if D.SlotIno(s) != 0 {
      var z := D.MakeSlot(0, []);
      D.MakeSlotOk(0, []);
      D.RemoveOk(es, k, D.EntOf(z));
      ok := WriteEntry(fs, i, k, z);
    } else {
      assert Files(w0)[i := FileAt(w0, i)] == Files(w0);
    }
  }
}
