/** A directory's bytes as a finite map from names to inode numbers, and paths as lists of names. */
module DirModel {
  import opened Bytes

  const FILE_NAME_MAX_LENGTH: nat := 14
  const DIR_ENTRY_SIZE: nat := 16

  /** A C string: no NUL inside. */
  predicate IsString(s: seq<Byte>) {
    0 !in s
  }

  /** Character `p` of a C string, whose end reads as NUL. */
  function CharAt(s: seq<Byte>, p: nat): Byte {
    if p < |s| then s[p] else 0
  }

  /** The part of a name field before its first NUL. */
  function Key(s: seq<Byte>): (k: seq<Byte>)
    ensures k <= s && IsString(k) && (|k| < |s| ==> s[|k|] == 0)
  {
    if s == [] || s[0] == 0 then [] else [s[0]] + Key(s[1..])
  }

  /** The key a name stands for: its first 14 characters. */
  function Trunc(name: seq<Byte>): seq<Byte> {
    if |name| > FILE_NAME_MAX_LENGTH then name[..FILE_NAME_MAX_LENGTH] else name
  }

  /** The characters of the string, then NULs, to fill a name field. */
  function Padded(name: seq<Byte>): (s: seq<Byte>)
    ensures |s| == FILE_NAME_MAX_LENGTH
  {
    Trunc(name) + Zeros(FILE_NAME_MAX_LENGTH - |Trunc(name)|)
  }

  lemma {:induction false} KeyOf(k: seq<Byte>, s: seq<Byte>)
    requires IsString(k) && k <= s && (|k| < |s| ==> s[|k|] == 0)
    ensures Key(s) == k
  {
    if k != [] {
      KeyOf(k[1..], s[1..]);
    }
  }

  lemma PaddedKey(name: seq<Byte>)
    requires IsString(name)
    ensures Key(Padded(name)) == Trunc(name)
  {
    KeyOf(Trunc(name), Padded(name));
  }

  // ---------------------------------------------------------------- entries

  predicate Shaped(data: seq<Byte>) {
    |data| % DIR_ENTRY_SIZE == 0
  }

  function Slots(data: seq<Byte>): nat {
    |data| / DIR_ENTRY_SIZE
  }

  function Slot(data: seq<Byte>, k: nat): (s: seq<Byte>)
    requires k < Slots(data)
    ensures |s| == DIR_ENTRY_SIZE
  {
    data[k * DIR_ENTRY_SIZE..k * DIR_ENTRY_SIZE + DIR_ENTRY_SIZE]
  }

  function SlotIno(s: seq<Byte>): nat
    requires |s| == DIR_ENTRY_SIZE
  {
    LeValue(s[..2])
  }

  function SlotName(s: seq<Byte>): seq<Byte>
    requires |s| == DIR_ENTRY_SIZE
  {
    Key(s[2..])
  }

  function MakeSlot(ino: nat, name: seq<Byte>): (s: seq<Byte>)
    ensures |s| == DIR_ENTRY_SIZE
  {
    LeBytes(ino, 2) + Padded(name)
  }

  lemma MakeSlotOk(ino: nat, name: seq<Byte>)
    requires ino < 0x1_0000 && IsString(name)
    ensures SlotIno(MakeSlot(ino, name)) == ino && SlotName(MakeSlot(ino, name)) == Trunc(name)
  {
    var s := MakeSlot(ino, name);
    assert s[..2] == LeBytes(ino, 2) && s[2..] == Padded(name);
    assert Pow256(2) == 0x1_0000;
    LeRoundTrip(ino, 2);
    PaddedKey(name);
  }

  /** The inode number stands in the first two bytes, the name in the other fourteen, filled up with NULs. */
  lemma SlotLayout(ino: nat, name: seq<Byte>, i: nat)
    requires i < FILE_NAME_MAX_LENGTH
    ensures StoredAt(MakeSlot(ino, name), 0, 2, ino) && MakeSlot(ino, name)[2 + i] == if i < |name| then name[i] else 0
  {
    var s := MakeSlot(ino, name);
    LeStored([], ino, 2, Padded(name));
    assert [] + LeBytes(ino, 2) + Padded(name) == s;
    assert s[2 + i] == Padded(name)[i];
  }

  /** An entry, used unless its inode number is 0. */
  datatype DirEnt = DirEnt(ino: nat, name: seq<Byte>)

  function EntOf(s: seq<Byte>): DirEnt
    requires |s| == DIR_ENTRY_SIZE
  {
    DirEnt(SlotIno(s), SlotName(s))
  }

  function Ents(data: seq<Byte>): (es: seq<DirEnt>)
    ensures |es| == Slots(data)
  {
    seq(Slots(data), k requires 0 <= k < Slots(data) => EntOf(Slot(data, k)))
  }

  /** Used entries have different names. */
  predicate Unique(es: seq<DirEnt>) {
    forall k, l :: 0 <= k < l < |es| && es[k].ino != 0 && es[l].ino != 0 ==> es[k].name != es[l].name
  }

  predicate Used(es: seq<DirEnt>, k: nat) {
    k < |es| && es[k].ino != 0
  }

  /** The finite map a directory stands for. */
  ghost function Dir(es: seq<DirEnt>): map<seq<Byte>, nat>
    requires Unique(es)
  {
    map k | 0 <= k < |es| && Used(es, k) :: es[k].name := es[k].ino
  }

  lemma DirHolds(es: seq<DirEnt>, k: nat)
    requires Unique(es) && Used(es, k)
    ensures es[k].name in Dir(es) && Dir(es)[es[k].name] == es[k].ino
  {
  }

  lemma DirWitness(es: seq<DirEnt>, x: seq<Byte>) returns (k: nat)
    requires Unique(es) && x in Dir(es)
    ensures Used(es, k) && es[k].name == x && Dir(es)[x] == es[k].ino
  {
    k :| 0 <= k < |es| && Used(es, k) && es[k].name == x;
    DirHolds(es, k);
  }

  /** Maps with the same bindings are equal. */
  lemma SameMap(m: map<seq<Byte>, nat>, m': map<seq<Byte>, nat>)
    requires forall x :: x in m ==> x in m' && m'[x] == m[x]
    requires forall x :: x in m' ==> x in m
    ensures m == m'
  {
  }

  lemma DirLacks(es: seq<DirEnt>, key: seq<Byte>)
    requires Unique(es) && forall k :: 0 <= k < |es| && Used(es, k) ==> es[k].name != key
    ensures key !in Dir(es)
  {
  }

  /** The entries with number `k` (the next one, if it is past the end) set to `d`. */
  function SetEnt(es: seq<DirEnt>, k: nat, d: DirEnt): seq<DirEnt>
    requires k <= |es|
  {
    if k == |es| then es + [d] else es[k := d]
  }

  lemma InsertUnique(es: seq<DirEnt>, k: nat, d: DirEnt)
    requires Unique(es) && k <= |es| && (k < |es| ==> es[k].ino == 0) && d.name !in Dir(es)
    ensures Unique(SetEnt(es, k, d))
  {
    forall l | 0 <= l < |es| && Used(es, l)
      ensures es[l].name != d.name
    {
      DirHolds(es, l);
    }
  }

  /** Putting a new name in a free slot adds it to the map. */
  lemma InsertOk(es: seq<DirEnt>, k: nat, d: DirEnt)
    requires Unique(es) && k <= |es| && (k < |es| ==> es[k].ino == 0) && d.name !in Dir(es)
    ensures Unique(SetEnt(es, k, d))
    ensures Dir(SetEnt(es, k, d)) == if d.ino == 0 then Dir(es) else Dir(es)[d.name := d.ino]
  {
    InsertUnique(es, k, d);
    var es' := SetEnt(es, k, d);
    var m, m' := if d.ino == 0 then Dir(es) else Dir(es)[d.name := d.ino], Dir(es');
    forall x | x in m
      ensures x in m' && m'[x] == m[x]
    {
      if d.ino != 0 && x == d.name {
        DirHolds(es', k);
      } else {
        var l := DirWitness(es, x);
        DirHolds(es', l);
      }
    }
    forall x | x in m'
      ensures x in m
    {
      var l := DirWitness(es', x);
      if l != k {
        DirHolds(es, l);
      }
    }
    SameMap(m, m');
  }

  lemma RemoveUnique(es: seq<DirEnt>, k: nat, d: DirEnt)
    requires Unique(es) && k < |es| && d.ino == 0
    ensures Unique(es[k := d])
  {
  }

  /** Clearing a slot takes its name, and only that, from the map. */
  lemma RemoveOk(es: seq<DirEnt>, k: nat, d: DirEnt)
    requires Unique(es) && k < |es| && d.ino == 0
    ensures Unique(es[k := d])
    ensures Dir(es[k := d]) == if es[k].ino == 0 then Dir(es) else Dir(es) - {es[k].name}
  {
    RemoveUnique(es, k, d);
    var es' := es[k := d];
    var m, m' := if es[k].ino == 0 then Dir(es) else Dir(es) - {es[k].name}, Dir(es');
    forall x | x in m
      ensures x in m' && m'[x] == m[x]
    {
      var l := DirWitness(es, x);
      DirHolds(es', l);
    }
    forall x | x in m'
      ensures x in m
    {
      var l := DirWitness(es', x);
      DirHolds(es, l);
    }
    SameMap(m, m');
  }

  /** Writing one slot's bytes sets that entry and no other. */
  lemma SetSlot(data: seq<Byte>, data': seq<Byte>, k: nat, s: seq<Byte>)
    requires Shaped(data) && |s| == DIR_ENTRY_SIZE && k <= Slots(data)
    requires |data'| == if k == Slots(data) then |data| + DIR_ENTRY_SIZE else |data|
    requires data' == data[..k * DIR_ENTRY_SIZE] + s + data'[k * DIR_ENTRY_SIZE + DIR_ENTRY_SIZE..]
    requires k < Slots(data) ==>
               data'[k * DIR_ENTRY_SIZE + DIR_ENTRY_SIZE..] == data[k * DIR_ENTRY_SIZE + DIR_ENTRY_SIZE..]
    ensures Shaped(data') && Ents(data') == SetEnt(Ents(data), k, EntOf(s))
  {
    assert Slots(data') == if k == Slots(data) then k + 1 else Slots(data);
    forall l | 0 <= l < Slots(data')
      ensures Slot(data', l) == if l == k then s else Slot(data, l)
    {
      if l < k {
        assert Slot(data', l) == Slot(data, l);
      } else if l == k {
        assert Slot(data', l) == s;
      } else {
        var a, b := data'[k * DIR_ENTRY_SIZE + DIR_ENTRY_SIZE..],
          l * DIR_ENTRY_SIZE - (k * DIR_ENTRY_SIZE + DIR_ENTRY_SIZE);
        assert Slot(data', l) == a[b..b + DIR_ENTRY_SIZE] == Slot(data, l);
      }
    }
  }
}
