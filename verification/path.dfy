/** Walking path names. */
module Paths {
  import opened Common
  import opened Bytes
  import opened InodeModel
  import opened InodeWorld
  import opened InodeCost
  import opened InodeLayer
  import opened Directories
  import D = DirModel

  const SLASH: Byte := 47

  // ---------------------------------------------------------------- what a path means

  /** The pieces of a path between its slashes, empty ones included. */
  function Split(p: seq<Byte>): (r: seq<seq<Byte>>)
    ensures |r| > 0
  {
    if p == [] then [[]]
    else
      var r := Split(p[1..]);
      if p[0] == SLASH then [[]] + r else [[p[0]] + r[0]] + r[1..]
  }

  /** The non-empty pieces, cut to the length of a file name. */
  function Names(r: seq<seq<Byte>>): seq<seq<Byte>> {
    if r == [] then []
    else (if r[0] == [] then [] else [D.Trunc(r[0])]) + Names(r[1..])
  }

  function Components(p: seq<Byte>): seq<seq<Byte>> {
    Names(Split(p))
  }

  lemma SlashMeansNothing(p: seq<Byte>)
    requires p != [] && p[0] == SLASH
    ensures Components(p) == Components(p[1..])
  {
    assert Split(p)[1..] == Split(p[1..]);
  }

  lemma {:induction false} FirstPiece(p: seq<Byte>, n: nat)
    requires n <= |p| && SLASH !in p[..n] && (n < |p| ==> p[n] == SLASH)
    ensures Split(p)[0] == p[..n] && Split(p[n..])[0] == [] && Split(p)[1..] == Split(p[n..])[1..]
  {
    if n > 0 {
      assert p[0] == p[..n][0] != SLASH;
      assert p[1..][..n - 1] == p[..n][1..] && p[1..][n - 1..] == p[n..];
      FirstPiece(p[1..], n - 1);
      assert Split(p)[1..] == Split(p[1..])[1..];
    } else if p != [] {
      assert p[..0] == [];
    }
  }

  /** A path that begins with a name: that name, then the rest. */
  lemma NameThenRest(p: seq<Byte>, n: nat)
    requires 0 < n <= |p| && SLASH !in p[..n] && (n < |p| ==> p[n] == SLASH)
    ensures Components(p) == [D.Trunc(p[..n])] + Components(p[n..])
  {
    FirstPiece(p, n);
    assert Names(Split(p[n..])) == Names(Split(p[n..])[1..]);
  }

  // ---------------------------------------------------------------- taking names off the front

  method SkipSlashes(path: seq<Byte>, at: nat) returns (to: nat)
    requires at <= |path|
    ensures at <= to <= |path| && Components(path[to..]) == Components(path[at..])
    ensures to < |path| ==> path[to] != SLASH
  {
    to := at;
    while to < |path| && path[to] == SLASH
      invariant at <= to <= |path| && Components(path[to..]) == Components(path[at..])
    {
      SlashMeansNothing(path[to..]);
      assert path[to..][1..] == path[to + 1..];
      to := to + 1;
    }
  }

  /** Where the name that starts at `s` ends. */
  method EndOfName(path: seq<Byte>, s: nat) returns (e: nat)
    requires s < |path| && path[s] != SLASH
    ensures s < e <= |path|
    ensures Components(path[s..]) == [D.Trunc(path[s..e])] + Components(path[e..])
  {
    e := s;
    while e < |path| && path[e] != SLASH
      invariant s <= e <= |path| && SLASH !in path[s..e]
    {
      e := e + 1;
    }
    assert path[s..][..e - s] == path[s..e] && path[s..][e - s..] == path[e..];
    NameThenRest(path[s..], e - s);
  }

  /** The next name of the path and where the one after it begins; none if only slashes are left. */
  method SkipElem(path: seq<Byte>, at: nat) returns (found: bool, name: seq<Byte>, next: nat)
    requires at <= |path| && D.IsString(path)
    ensures !found ==> Components(path[at..]) == []
    ensures found ==> at < next <= |path| && Components(path[at..]) == [name] + Components(path[next..])
    ensures found ==> (next == |path| <==> Components(path[next..]) == [])
    ensures found ==> |name| <= D.FILE_NAME_MAX_LENGTH && D.IsString(name)
  {
    var s := SkipSlashes(path, at);
    if s == |path| {
      assert path[s..] == [];
      return false, [], 0;
    }
    var e := EndOfName(path, s);
    name := D.Trunc(path[s..e]);
    next := SkipSlashes(path, e);
    found := true;
    if next < |path| {
      NotEmpty(path[next..]);
    } else {
      assert path[next..] == [];
    }
  }

  lemma NotEmpty(p: seq<Byte>)
    requires p != [] && p[0] != SLASH
    ensures Components(p) != []
  {
    assert Split(p)[0] == [p[0]] + Split(p[1..])[0];
  }

  // ---------------------------------------------------------------- the walk

  /** Directories are well formed, and every name in one is that of an allocated inode with links. */
  ghost predicate TreeOk(w: World) {
    forall d :: d in w.ents && w.ents[d].typ == INODE_DIRECTORY ==> NodeOk(w, d)
  }

  ghost predicate NodeOk(w: World, d: nat) {
    && IsDir(w, d)
    && forall x :: x in DirOf(w, d) ==> DirOf(w, d)[x] in w.ents && w.ents[DirOf(w, d)[x]].links > 0
  }

  /** Where a list of names leads from `at`; with `parent`, to the directory of the last name. */
  ghost function Walk(w: World, at: nat, names: seq<seq<Byte>>, parent: bool): (r: Option<nat>)
    requires TreeOk(w) && at in w.ents
    ensures r.Some? ==> r.value in w.ents
    decreases |names|
  {
    if names == [] then (if parent then None else Some(at))
    else if w.ents[at].typ != INODE_DIRECTORY then None
    else if parent && |names| == 1 then Some(at)
    else
      assert NodeOk(w, at);
      if names[0] !in DirOf(w, at) then None else Walk(w, DirOf(w, at)[names[0]], names[1..], parent)
  }

  /** The next step of a walk over names `a`, of which `rest` come after the first. */
  lemma WalkStep(w: World, at: nat, a: seq<seq<Byte>>, rest: seq<seq<Byte>>, parent: bool)
    requires TreeOk(w) && at in w.ents && a != [] && a[1..] == rest && !(parent && rest == [])
    ensures w.ents[at].typ != INODE_DIRECTORY ==> Walk(w, at, a, parent) == None
    ensures w.ents[at].typ == INODE_DIRECTORY ==> NodeOk(w, at)
    ensures w.ents[at].typ == INODE_DIRECTORY && a[0] !in DirOf(w, at) ==> Walk(w, at, a, parent) == None
    ensures w.ents[at].typ == INODE_DIRECTORY && a[0] in DirOf(w, at) ==>
              Walk(w, at, a, parent) == Walk(w, DirOf(w, at)[a[0]], rest, parent)
  {
    assert w.ents[at].typ == INODE_DIRECTORY ==> NodeOk(w, at);
  }

  /** Walking nowhere stays; one name leads where the directory says, and from no directory anywhere. */
  lemma WalkOne(w: World, at: nat, name: seq<Byte>)
    requires TreeOk(w) && at in w.ents
    ensures Walk(w, at, [], false) == Some(at)
    ensures w.ents[at].typ != INODE_DIRECTORY ==> Walk(w, at, [name], false) == None
    ensures w.ents[at].typ == INODE_DIRECTORY ==>
              NodeOk(w, at) &&
                Walk(w, at, [name], false) == if name in DirOf(w, at) then Some(DirOf(w, at)[name]) else None
  {
    WalkStep(w, at, [name], [], false);
  }

  /** Walking `a + b` is walking `a` and, from where that leads, `b`. */
  lemma {:induction false} WalkAppend(w: World, at: nat, a: seq<seq<Byte>>, b: seq<seq<Byte>>)
    requires TreeOk(w) && at in w.ents
    ensures var r := Walk(w, at, a, false);
            Walk(w, at, a + b, false) == if r.Some? then Walk(w, r.value, b, false) else None
    decreases |a|
  {
    if a == [] {
      assert a + b == b;
    } else {
      assert (a + b)[0] == a[0] && (a + b)[1..] == a[1..] + b;
      WalkStep(w, at, a, a[1..], false);
      WalkStep(w, at, a + b, a[1..] + b, false);
      if w.ents[at].typ == INODE_DIRECTORY && a[0] in DirOf(w, at) {
        WalkAppend(w, DirOf(w, at)[a[0]], a[1..], b);
      }
    }
  }

  /**
   A walk to the parent leads to `d` exactly if there is a last name, the plain walk over the names before it
   leads to `d`, and `d` is a directory.
   */
  lemma {:induction false} WalkParent(w: World, at: nat, names: seq<seq<Byte>>, d: nat)
    requires TreeOk(w) && at in w.ents
    ensures Walk(w, at, names, true) == Some(d) <==>
              && names != [] && Walk(w, at, names[..|names| - 1], false) == Some(d)
              && d in w.ents && w.ents[d].typ == INODE_DIRECTORY
    decreases |names|
  {
    if |names| == 1 {
      assert names[..0] == [];
    } else if |names| > 1 {
      var front, rest := names[..|names| - 1], names[1..];
      assert front[0] == names[0] && front[1..] == rest[..|rest| - 1];
      WalkStep(w, at, names, rest, true);
      WalkStep(w, at, front, rest[..|rest| - 1], false);
      if w.ents[at].typ == INODE_DIRECTORY && names[0] in DirOf(w, at) {
        WalkParent(w, DirOf(w, at)[names[0]], rest, d);
      }
    }
  }

  /** One more holder of `t`. */
  ghost function Plus(w: World, live: map<nat, Inode>, t: nat): map<nat, Inode>
    requires t in w.ents
  {
    live[t := Inode(if t in live then live[t].rc + 1 else 1, w.ents[t])]
  }

  lemma PlusCommutes(w: World, live: map<nat, Inode>, t: nat, u: nat)
    requires t in w.ents && u in w.ents
    ensures Plus(w, Plus(w, live, t), u) == Plus(w, Plus(w, live, u), t)
  {
  }

  /** Undo one hold: the table of inodes in memory is as it was before. */
  method LetGo(fs: Inodes, t: nat, ghost rest: map<nat, Inode>)
    requires fs.Held(t) && fs.live == Plus(fs.w, rest, t)
    requires if t in rest then rest[t].rc > 0 && rest[t].entry == fs.w.ents[t]
             else fs.w.ents[t].links > 0 && DiskEntry(fs.sb, fs.blocks, t) == fs.w.ents[t]
    modifies fs
    ensures fs.Valid() && fs.live == rest && fs.w == old(fs.w)
  {
    assert t in rest ==> rest[t := Inode(rest[t].rc, fs.w.ents[t])] == rest;
    assert t !in rest ==> rest[t := Inode(1, fs.w.ents[t])] - {t} == rest;
    fs.HeldFacts(t);
    assert FileAt(fs.w, t).links == fs.w.ents[t].links;
    var ok := fs.Put(t);
    assert ok;
  }

  /** `t` may be let go of: someone else holds it, or a name keeps it. */
  ghost predicate Kept(sb: SuperBlock, w: World, live: map<nat, Inode>, t: nat) {
    && Sound(sb, w) && Linked(sb, w, live, 0) && t in w.ents && t != 0
    && (t in live || w.ents[t].links > 0)
  }

  method Drop(fs: Inodes, t: nat, ghost live: map<nat, Inode>, ghost rest: map<nat, Inode>)
    requires fs.Held(t) && Kept(fs.sb, fs.w, live, t) && fs.live == Plus(fs.w, rest, t)
    requires rest == live || exists u :: u in fs.w.ents && rest == Plus(fs.w, live, u)
    modifies fs
    ensures fs.Valid() && fs.live == rest && fs.w == old(fs.w)
  {
    assert LinkedAt(fs.sb, fs.w.st, fs.w.ents, fs.w.len, live, t);
    LetGo(fs, t, rest);
  }

  /** From directory `t` to what it calls `name`, holding that instead; or to nothing, holding nothing. */
  method Descend(fs: Inodes, t: nat, name: seq<Byte>, ghost live: map<nat, Inode>) returns (next: nat)
    requires fs.Held(t) && Kept(fs.sb, fs.w, live, t) && fs.live == Plus(fs.w, live, t)
    requires NodeOk(fs.w, t) && D.IsString(name) && |name| <= D.FILE_NAME_MAX_LENGTH
    modifies fs
    ensures fs.Valid() && fs.w == old(fs.w)
    ensures next == 0 <==> name !in DirOf(fs.w, t)
    ensures next == 0 ==> fs.live == live
    ensures next != 0 ==> DirOf(fs.w, t)[name] == next && fs.Held(next) && Kept(fs.sb, fs.w, live, next)
    ensures next != 0 ==> fs.live == Plus(fs.w, live, next)
  {
    var ino, _ := Lookup(fs, t, name);
    assert D.Trunc(name) == name;
    if ino == 0 {
      Drop(fs, t, live, live);
      return 0;
    }
    assert LinkedAt(fs.sb, fs.w.st, fs.w.ents, fs.w.len, fs.live, ino);
    var ok := fs.Get(ino);
    assert ok;
    PlusCommutes(fs.w, live, t, ino);
    HeldStill(fs, t);
    Drop(fs, t, live, Plus(fs.w, live, ino));
    HeldStill(fs, ino);
    next := ino;
  }

  lemma HeldStill(fs: Inodes, t: nat)
    requires fs.Valid() && t in fs.live
    ensures fs.Held(t)
  {
    assert LinkedAt(fs.sb, fs.w.st, fs.w.ents, fs.w.len, fs.live, t);
  }

  /** One turn of the walk, from `t` on at position `pos` of the path: it ends there, or goes on from `t'`. */
  method WalkTurn(fs: Inodes, path: seq<Byte>, parent: bool, t: nat, pos: nat, ghost live: map<nat, Inode>)
    returns (stop: bool, r: Option<nat>, name: seq<Byte>, t': nat, pos': nat)
    requires fs.Held(t) && Kept(fs.sb, fs.w, live, t) && fs.live == Plus(fs.w, live, t) && TreeOk(fs.w)
    requires D.IsString(path) && pos <= |path|
    modifies fs
    ensures fs.Valid() && fs.w == old(fs.w)
    ensures var names := Components(path[pos..]);
            && (stop ==> r == Walk(fs.w, t, names, parent))
            && (stop ==> fs.live == if r.Some? then Plus(fs.w, live, r.value) else live)
            && (stop && parent && r.Some? ==> names != [] && name == names[|names| - 1])
            && (!stop ==> pos < pos' <= |path| && names == [name] + Components(path[pos'..]))
            && (!stop ==> fs.Held(t') && Kept(fs.sb, fs.w, live, t') && fs.live == Plus(fs.w, live, t'))
            && (!stop ==> Walk(fs.w, t, names, parent) == Walk(fs.w, t', Components(path[pos'..]), parent))
            && (!stop && parent ==> Components(path[pos'..]) != [])
  {
    var found;
    ghost var names := Components(path[pos..]);
    stop, r, t' := true, None, t;
    found, name, pos' := SkipElem(path, pos);
    if !found {
      if parent {
        Drop(fs, t, live, live);
      } else {
        r := Some(t);
      }
      return;
    }
    assert names[1..] == Components(path[pos'..]) && names[0] == name;
    if fs.live[t].entry.typ != INODE_DIRECTORY {
      Drop(fs, t, live, live);
      return;
    }
    if parent && pos' == |path| {
      r := Some(t);
      return;
    }
    assert NodeOk(fs.w, t);
    t' := Descend(fs, t, name, live);
    stop := t' == 0;
  }

  /** The walk from `at`, which is held once more than `live` says. */
  method WalkOn(fs: Inodes, path: seq<Byte>, parent: bool, at: nat, ghost live: map<nat, Inode>)
    returns (r: Option<nat>, name: seq<Byte>)
    requires fs.Held(at) && Kept(fs.sb, fs.w, live, at) && fs.live == Plus(fs.w, live, at) && TreeOk(fs.w) &&
             D.IsString(path)
    modifies fs
    ensures fs.Valid() && fs.w == old(fs.w)
    ensures r == Walk(fs.w, at, Components(path), parent)
    ensures fs.live == if r.Some? then Plus(fs.w, live, r.value) else live
    ensures parent && r.Some? ==> Components(path) != [] && name == Components(path)[|Components(path)| - 1]
  {
    var t, pos, stop := at, 0, false;
    ghost var names := Components(path);
    assert path[0..] == path;
    r, name := None, [];
    while !stop
      invariant (!stop ==> pos <= |path|) && fs.Valid() && fs.w == old(fs.w)
      invariant stop ==>
                  r == Walk(fs.w, at, names, parent) && fs.live == if r.Some? then Plus(fs.w, live, r.value) else live
      invariant stop && parent && r.Some? ==> names != [] && name == names[|names| - 1]
      invariant !stop ==> fs.Held(t) && fs.live == Plus(fs.w, live, t) && Kept(fs.sb, fs.w, live, t)
      invariant !stop ==> Walk(fs.w, at, names, parent) == Walk(fs.w, t, Components(path[pos..]), parent)
      invariant !stop ==> var rem := Components(path[pos..]);
                  rem != [] ==> names != [] && rem[|rem| - 1] == names[|names| - 1]
      decreases !stop, |path| - pos
    {
      stop, r, name, t, pos := WalkTurn(fs, path, parent, t, pos, live);
    }
  }

  /** The inode a path names, held once more; all other counts are as before. */
  method Namex(fs: Inodes, path: seq<Byte>, parent: bool, cwd: nat) returns (r: Option<nat>, name: seq<Byte>)
    requires fs.Held(cwd) && fs.Held(ROOT_INODE_NO) && TreeOk(fs.w) && D.IsString(path)
    modifies fs
    ensures fs.Valid() && fs.w == old(fs.w)
    ensures r == Walk(fs.w, if path != [] && path[0] == SLASH then ROOT_INODE_NO else cwd, Components(path), parent)
    ensures parent && r.Some? ==> r.value in fs.w.ents && fs.w.ents[r.value].typ == INODE_DIRECTORY
    ensures fs.live == if r.Some? then Plus(fs.w, old(fs.live), r.value) else old(fs.live)
    ensures parent && r.Some? ==> Components(path) != [] && name == Components(path)[|Components(path)| - 1]
  {
    ghost var live := fs.live;
    var t := if path != [] && path[0] == SLASH then ROOT_INODE_NO else cwd;
    fs.HeldFacts(t);
    if path != [] && path[0] == SLASH {
      var ok := fs.Get(t);
    } else {
      fs.Share(t);
    }
    r, name := WalkOn(fs, path, parent, t, live);
    if parent && r.Some? {
      WalkParent(fs.w, t, Components(path), r.value);
    }
  }

  // ---------------------------------------------------------------- what keeps the tree in order

  /** Directory `d` has a name for inode `n`. */
  ghost predicate Lists(w: World, d: nat, n: nat) {
    IsDir(w, d) && exists x :: x in DirOf(w, d) && DirOf(w, d)[x] == n
  }

  /** Inode `n` may be named. */
  ghost predicate Named(w: World, n: nat) {
    n in w.ents && w.ents[n].links > 0
  }

  /** Inode `n` is of the same type in both, with the same contents. */
  ghost predicate SameBytes(w: World, w': World, n: nat) {
    n in w.ents && n in w'.ents && w'.ents[n].typ == w.ents[n].typ && FileAt(w', n).data == FileAt(w, n).data
  }

  lemma SameDir(w: World, w': World, d: nat)
    requires SameBytes(w, w', d)
    ensures IsDir(w', d) <==> IsDir(w, d)
    ensures IsDir(w, d) ==> DirOf(w', d) == DirOf(w, d)
  {
  }

  lemma FromFiles(w: World, w': World, n: nat)
    requires n in w.ents && n in Files(w')
    requires Files(w')[n].typ == Files(w)[n].typ && Files(w')[n].data == Files(w)[n].data
    ensures SameBytes(w, w', n) && w'.ents[n].links == Files(w')[n].links && w.ents[n].links == Files(w)[n].links
  {
    assert Files(w)[n] == FileAt(w, n) && Files(w')[n] == FileAt(w', n);
  }

  /** A directory left alone is in order while all it names still may be named. */
  lemma NodeKept(w: World, w': World, d: nat)
    requires NodeOk(w, d) && SameBytes(w, w', d)
    ensures NodeOk(w', d) <==> forall x :: x in DirOf(w, d) ==> Named(w', DirOf(w, d)[x])
  {
    SameDir(w, w', d);
  }

  /** New entries in one directory leave the tree in order exactly when all of them may be named. */
  lemma ReplaceKeepsTree(w: World, w': World, i: nat)
    requires TreeOk(w) && IsDir(w, i) && IsDir(w', i) && Replaced(w, w', i, EntsOf(w', i))
    ensures TreeOk(w') <==> forall x :: x in DirOf(w', i) ==> Named(w, DirOf(w', i)[x])
  {
    assert Files(w').Keys == Files(w).Keys;
    forall n: nat
      ensures Named(w', n) <==> Named(w, n)
      ensures n in w'.ents && n != i ==> SameBytes(w, w', n)
    {
      assert n in w.ents <==> n in Files(w);
      assert n in w'.ents <==> n in Files(w');
      if n in w.ents && n != i {
        FromFiles(w, w', n);
      } else if n == i {
        assert Files(w')[i] == FileAt(w', i) && Files(w)[i] == FileAt(w, i);
      }
    }
    forall d | d in w'.ents && d != i && w'.ents[d].typ == INODE_DIRECTORY
      ensures NodeOk(w', d)
    {
      assert NodeOk(w, d);
      NodeKept(w, w', d);
    }
    assert TreeOk(w') <==> NodeOk(w', i);
  }

  /** `insert` keeps the tree in order exactly when the inode it names may be named. */
  lemma InsertKeepsTree(w: World, w': World, i: nat, name: seq<Byte>, n: nat)
    requires TreeOk(w) && IsDir(w, i) && IsDir(w', i) && Replaced(w, w', i, EntsOf(w', i))
    requires DirOf(w', i) == DirOf(w, i)[name := n]
    ensures TreeOk(w') <==> Named(w, n)
  {
    ReplaceKeepsTree(w, w', i);
    assert NodeOk(w, i);
    assert DirOf(w', i)[name] == n;
  }

  /** `remove` always does. */
  lemma RemoveKeepsTree(w: World, w': World, i: nat, name: seq<Byte>)
    requires TreeOk(w) && IsDir(w, i) && IsDir(w', i) && Replaced(w, w', i, EntsOf(w', i))
    requires DirOf(w', i) == DirOf(w, i) - {name}
    ensures TreeOk(w')
  {
    ReplaceKeepsTree(w, w', i);
    assert NodeOk(w, i);
  }

  /** `put` always does when it destroys the file: without links, it has no name. */
  lemma DestroyKeepsTree(w: World, w': World, i: nat)
    requires TreeOk(w) && i in w.ents && w.ents[i].links == 0 && Files(w') == Files(w) - {i}
    ensures TreeOk(w')
  {
    forall n: nat
      ensures Named(w', n) <==> Named(w, n)
      ensures n in w'.ents ==> SameBytes(w, w', n)
    {
      assert n in w'.ents <==> n in Files(w');
      assert n in Files(w') <==> n in w.ents && n != i;
      if n in w'.ents {
        FromFiles(w, w', n);
      }
    }
    forall d | d in w'.ents && w'.ents[d].typ == INODE_DIRECTORY
      ensures NodeOk(w', d)
    {
      assert NodeOk(w, d);
      NodeKept(w, w', d);
    }
  }

  /** A change of link count, by a caller or by `put` going back to the disk's, does unless it leaves a name behind. */
  lemma LinksKeepTree(w: World, w': World, i: nat, f: File)
    requires TreeOk(w) && i in w.ents && Files(w') == Files(w)[i := f]
    requires f.typ == FileAt(w, i).typ && f.data == FileAt(w, i).data
    ensures TreeOk(w') <==>
              f.links > 0 || forall d :: d in w.ents && w.ents[d].typ == INODE_DIRECTORY ==> !Lists(w, d, i)
  {
    assert Files(w').Keys == Files(w).Keys;
    forall n: nat
      ensures Named(w', n) <==> if n == i then f.links > 0 else Named(w, n)
      ensures n in w'.ents <==> n in w.ents
      ensures n in w.ents ==> SameBytes(w, w', n)
    {
      assert n in w.ents <==> n in Files(w);
      assert n in w'.ents <==> n in Files(w');
      if n in w.ents {
        assert Files(w)[n] == FileAt(w, n);
        FromFiles(w, w', n);
      }
    }
    forall d | d in w.ents && w.ents[d].typ == INODE_DIRECTORY
      ensures NodeOk(w', d) <==> f.links > 0 || !Lists(w, d, i)
    {
      assert NodeOk(w, d);
      NodeKept(w, w', d);
    }
  }
}
