/** The tree of directories: ".." links, the ancestor walk that rename relies on, and how every
    change of a directory leaves the tree a tree. */
module Tree {
  import opened Geometry
  import opened Image
  import opened Indirect
  import opened Storage
  import opened Mutate
  import opened Dirents
  import opened Dirs
  import opened Links

  /** nextufs__read_directory_parent_inode on a directory's bytes: "." first, naming the directory
      itself, then "..". */
  function ParentIn(blk: seq<byte>, self: nat): Option<nat> {
    match ReadDirent(blk, 0)
    case None => None
    case Some(a) =>
      if a.ino != self || a.name != DOT then None else
      match ReadDirent(blk, a.reclen)
      case None => None
      case Some(b) => if b.name == DOTDOT then Some(b.ino) else None
  }

  /** The directory ".." leads to, if the walk can follow it. */
  ghost function ParentOf(views: seq<View>, d: nat): Option<nat>
    requires d < |views|
  {
    if views[d].kind != Directory || |views[d].bytes| < DIRBLKSIZ then None
    else match ParentIn(views[d].bytes[..DIRBLKSIZ], d)
         case None => None
         case Some(x) => if x == d || x >= |views| then None else Some(x)
  }

  method ReadDirectoryParentInode(img: Image, d: nat) returns (r: Option<nat>)
    requires img.Valid() && Sound(img.g, img.groups, img.inodes, img.disk) && d < |img.inodes| && DirGeometry(img.g)
    ensures var v := Views(img.g, img.disk, img.inodes)[d];
            r == if v.kind != Directory || |v.bytes| < DIRBLKSIZ then None else ParentIn(v.bytes[..DIRBLKSIZ], d)
  {
    hide Superblock.Valid, CylGroup.Valid, FileBytes, FreeSet, Sound, FileOk, Owned, TooLong, CountsOwned, Unresolvable, ParentIn;
    SoundAt(img.g, img.groups, img.inodes, img.disk, d);
    ViewsAt(img.g, img.disk, img.inodes);
    var node := img.inodes[d];
    if node.kind != Directory || node.size < DIRBLKSIZ {
      return None;
    }
    FirstBlockResolves(img.g, node);
    var rc, blk := InodeReadData(img, node, 0, DIRBLKSIZ);
    assert blk == FileBytes(img.g, img.disk, node)[..DIRBLKSIZ];
    return ParentIn(blk, d);
  }

  /** The first directory block lies in the first logical block, which is a direct one. */
  lemma FirstBlockResolves(g: Geometry, ino: Inode)
    requires ino.Shaped() && DirGeometry(g) && ino.size >= DIRBLKSIZ
    ensures forall lb: nat :: Touches(g, lb, 0, Min(0 + DIRBLKSIZ, ino.size)) ==> !Unresolvable(g, ino, lb)
    ensures Min(0 + DIRBLKSIZ, ino.size) == DIRBLKSIZ
  {
    hide Superblock.Valid, Start, BlockSize;
    BlockAligned(g, 0);
    StartNext(g, 0);
    forall lb: nat | Touches(g, lb, 0, DIRBLKSIZ) ensures lb == 0 {
      StartMonotone(g, 1, lb);
    }
  }

  // ---- the walk ----

  /** ".." always leads to a directory of smaller depth, except from the root. */
  ghost predicate Ranked(views: seq<View>, depth: seq<nat>) {
    && |depth| == |views|
    && forall d | 0 <= d < |views| && d != ROOTINO && ParentOf(views, d).Some? :: depth[ParentOf(views, d).value] < depth[d]
  }

  /** a is d or lies above it: the chain of ".." links from d, up to the root, meets it. */
  ghost predicate Above(views: seq<View>, depth: seq<nat>, d: nat, a: nat)
    requires Ranked(views, depth) && d < |views|
    decreases depth[d]
  {
    d == a || (d != ROOTINO && ParentOf(views, d).Some? && Above(views, depth, ParentOf(views, d).value, a))
  }

  /** nextufs__directory_has_ancestor. */
  method DirectoryHasAncestor(img: Image, d: nat, a: nat, ghost depth: seq<nat>) returns (r: bool)
    requires img.Valid() && Sound(img.g, img.groups, img.inodes, img.disk) && d < |img.inodes| && DirGeometry(img.g)
    requires Ranked(Views(img.g, img.disk, img.inodes), depth)
    ensures r <==> Above(Views(img.g, img.disk, img.inodes), depth, d, a)
  {
    hide Superblock.Valid, CylGroup.Valid, FreeSet, Sound, Views, ParentIn;
    ghost var views := Views(img.g, img.disk, img.inodes);
    var cur: nat := d;
    while true
      invariant cur < |img.inodes| && (Above(views, depth, d, a) <==> Above(views, depth, cur, a))
      decreases depth[cur]
    {
      if cur == a {
        return true;
      }
      if cur == ROOTINO {
        return false;
      }
      var parent := ReadDirectoryParentInode(img, cur);
      if parent.None? || parent.value == cur || parent.value >= |img.inodes| {
        return false;
      }
      cur := parent.value;
    }
  }

  // ---- why the walk is enough ----

  /** Every directory but the root has a parent among the directories, by ".." links that cannot
      cycle: the links are a tree rooted at inode 2. */
  ghost predicate TreeAt(views: seq<View>, depth: seq<nat>) {
    && Ranked(views, depth) && ROOTINO < |views| && views[ROOTINO].kind == Directory
    && forall d | 0 <= d < |views| && d != ROOTINO && views[d].kind == Directory ::
         ParentOf(views, d).Some? && views[ParentOf(views, d).value].kind == Directory
  }

  /** In such a tree the root is above everything. */
  lemma {:induction false} RootAbove(views: seq<View>, depth: seq<nat>, d: nat)
    requires TreeAt(views, depth) && d < |views| && views[d].kind == Directory
    ensures Above(views, depth, d, ROOTINO)
    decreases depth[d]
  {
    if d != ROOTINO {
      RootAbove(views, depth, ParentOf(views, d).value);
    }
  }

  /** Only the ".." link of s changed, and now leads to q. */
  ghost predicate Rehung(was: seq<View>, now: seq<View>, s: nat, q: nat) {
    && |now| == |was| && s < |was| && q < |was| && s != ROOTINO
    && (forall d | 0 <= d < |was| :: now[d].kind == was[d].kind)
    && ParentOf(now, s) == Some(q) && was[s].kind == Directory && was[q].kind == Directory
    && forall d | 0 <= d < |was| && d != s :: ParentOf(now, d) == ParentOf(was, d)
  }

  /** Moving a directory below one it is not above keeps the tree. */
  lemma MoveKeepsTree(was: seq<View>, now: seq<View>, depth: seq<nat>, s: nat, q: nat) returns (depth': seq<nat>)
    requires TreeAt(was, depth) && Rehung(was, now, s, q) && !Above(was, depth, q, s)
    ensures TreeAt(now, depth')
  {
    hide ParentOf;
    depth' := seq(|was|, d requires 0 <= d < |was| => if Above(was, depth, d, s) then depth[d] + depth[q] + 1 else depth[d]);
    forall d | 0 <= d < |now| && d != ROOTINO && ParentOf(now, d).Some?
      ensures ParentOf(now, d).value < |now| && depth'[ParentOf(now, d).value] < depth'[d]
    {
      ParentInside(now, d);
      if d != s {
        assert Above(was, depth, d, s) <==> Above(was, depth, ParentOf(was, d).value, s);
      }
    }
  }

  lemma ParentInside(views: seq<View>, d: nat)
    requires d < |views| && ParentOf(views, d).Some?
    ensures ParentOf(views, d).value < |views|
  {
  }

  /** Moving it below one it is above cuts it off: no ranking fits the links any more. */
  lemma MoveBelowItself(was: seq<View>, now: seq<View>, depth: seq<nat>, s: nat, q: nat, depth': seq<nat>)
    requires TreeAt(was, depth) && Rehung(was, now, s, q) && Above(was, depth, q, s)
    ensures !TreeAt(now, depth')
  {
    hide ParentOf;
    if TreeAt(now, depth') {
      ChainKept(was, now, depth, depth', s, q, q);
    }
  }

  /** The chain from d up to s is untouched by the move, so s ranks no higher than d. */
  lemma {:induction false} ChainKept(was: seq<View>, now: seq<View>, depth: seq<nat>, depth': seq<nat>, s: nat, q: nat, d: nat)
    requires TreeAt(was, depth) && Rehung(was, now, s, q) && TreeAt(now, depth')
    requires d < |was| && Above(was, depth, d, s)
    ensures depth'[s] <= depth'[d]
    decreases depth[d]
  {
    hide ParentOf;
    if d != s {
      ParentInside(was, d);
      ChainKept(was, now, depth, depth', s, q, ParentOf(was, d).value);
    }
  }

  lemma AboveItself(views: seq<View>, depth: seq<nat>, d: nat)
    requires Ranked(views, depth) && d < |views|
    ensures Above(views, depth, d, d)
  {
  }

  // ---- rewriting ".." ----

  /** In a directory that begins with its two dots, the code's reading of the parent is the inode
      the second of them names. */
  lemma ParentIsDots(views: seq<View>, d: nat)
    requires d < |views| && views[d].kind == Directory && DirTiled(views[d].bytes) && DotsIn(Records(views[d].bytes), d).Some?
    ensures var x := DotsIn(Records(views[d].bytes), d).value;
            ParentOf(views, d) == if x == d || x >= |views| then None else Some(x)
  {
    hide ReadDirent, DirTiled, Records;
    DotsRead(views[d].bytes, d);
  }

  /** The directory's bytes with ".." renamed to q, everything else as before. */
  ghost predicate Repointed(was: seq<byte>, now: seq<byte>, self: nat, q: nat) {
    && DirTiled(now) && |Records(was)| >= 2
    && Records(now) == Records(was)[1 := Records(was)[1].(ino := q)]
    && DotsIn(Records(now), self) == Some(q) && KeepsForm(was, now)
  }

  /** nextufs__update_directory_parent_inode on a directory that begins with its two dots. */
  method UpdateDirectoryParentInode(img: Image, s: nat, q: nat) returns (rc: Rc)
    requires img.Valid() && Sound(img.g, img.groups, img.inodes, img.disk) && s < |img.inodes| && DirGeometry(img.g)
    requires IsDir(img.g, img.disk, img.inodes[s]) && 0 < q < |img.inodes| <= 0x1_0000_0000
    modifies img`disk
    ensures img.Valid() && Sound(img.g, img.groups, img.inodes, img.disk)
    ensures rc == Ok || (rc == Invalid && img.disk == old(img.disk))
    ensures var was, now := old(Views(img.g, img.disk, img.inodes)), Views(img.g, img.disk, img.inodes);
            && |now| == |was| && (forall d | 0 <= d < |was| && d != s :: now[d] == was[d])
            && now[s] == was[s].(bytes := now[s].bytes)
            && (DotsIn(Records(was[s].bytes), s).Some? ==> rc == Ok && Repointed(was[s].bytes, now[s].bytes, s, q))
    ensures Carried(img.g, img.groups, img.inodes, old(img.disk), img.groups, img.inodes, img.disk)
  {
    hide Superblock.Valid, CylGroup.Valid, FileBytes, FreeSet, Sound, FileOk, Owned, TooLong, CountsOwned, Unresolvable,
      ReadDirent, DirTiled, Tiled, Views, Start, Blocks, WriteBe32, Carried, Records, Splice, DotsIn;
    CarriedNothing(img.g, img.groups, img.inodes, img.disk);
    ghost var f, was := FileBytes(img.g, img.disk, img.inodes[s]), Views(img.g, img.disk, img.inodes);
    SoundAt(img.g, img.groups, img.inodes, img.disk, s);
    ViewsAt(img.g, img.disk, img.inodes);
    if DotsIn(Records(f), s).Some? {
      DotsRead(f, s);
      SecondIsDotDot(Records(f), s);
      SecondRenumbered(f, s, q);
    }
    var node := img.inodes[s];
    if node.size < DIRBLKSIZ {
      return Invalid;
    }
    FirstBlockResolves(img.g, node);
    var done, blk := InodeReadData(img, node, 0, DIRBLKSIZ);
    assert blk == f[..DIRBLKSIZ];
    SplitDir(f);
    var first := ReadDirent(blk, 0);
    if first.None? {
      return Invalid;
    }
    var off := first.value.reclen;
    var second := ReadDirent(blk, off);
    if second.None? || second.value.name != DOTDOT {
      return Invalid;
    }
    SecondRecord(blk, off);
    FirstBlockStored(img.g, node.size);
    WriteDirBlock(img, s, 0, off, WriteBe32(q));
    ViewsAt(img.g, img.disk, img.inodes);
    return Ok;
  }

  lemma SecondIsDotDot(rs: seq<Dirent>, self: nat)
    requires DotsIn(rs, self).Some?
    ensures |rs| >= 2 && rs[1].name == DOTDOT
  {
  }

  lemma SecondRecord(blk: seq<byte>, off: nat)
    requires ReadDirent(blk, off).Some? && |blk| == DIRBLKSIZ
    ensures off + 8 <= DIRBLKSIZ
  {
  }

  lemma FirstBlockStored(g: Geometry, size: nat)
    requires DirGeometry(g) && size >= DIRBLKSIZ
    ensures 0 < Blocks(g, size) && Start(g, 0) == 0 && DIRBLKSIZ <= Chunk(g, size, 0)
  {
    hide Superblock.Valid, BlockSize, Blocks;
    BlockAligned(g, 0);
    StartNext(g, 0);
    BlocksIs(g, size, 0);
  }


  // ---- names and ".." links together ----

  /** How often a listing names d other than as a dot. */
  ghost function KidsIn(es: seq<Entry>, d: nat): nat {
    if es == [] then 0
    else (if es[0].ino == d && es[0].name != DOT && es[0].name != DOTDOT then 1 else 0) + KidsIn(es[1..], d)
  }

  ghost function Kids(v: View, d: nat): nat {
    KidsIn(Listing(v.bytes), d)
  }

  lemma {:induction false} KidsConcat(a: seq<Entry>, b: seq<Entry>, d: nat)
    ensures KidsIn(a + b, d) == KidsIn(a, d) + KidsIn(b, d)
  {
    if a == [] {
      assert a + b == b;
    } else {
      assert (a + b)[1..] == a[1..] + b;
      KidsConcat(a[1..], b, d);
    }
  }

  lemma KidsOne(e: Entry, d: nat)
    ensures KidsIn([e], d) == if e.ino == d && e.name != DOT && e.name != DOTDOT then 1 else 0
  {
    assert [e][1..] == [];
  }

  lemma KidsInserted(was: seq<Entry>, now: seq<Entry>, e: Entry, d: nat)
    requires Inserted(was, now, e)
    ensures KidsIn(now, d) == KidsIn(was, d) + if e.ino == d && e.name != DOT && e.name != DOTDOT then 1 else 0
  {
    var k :| 0 <= k <= |was| && now == was[..k] + [e] + was[k..];
    assert was == was[..k] + was[k..];
    KidsConcat(was[..k], was[k..], d);
    KidsConcat(was[..k] + [e], was[k..], d);
    KidsConcat(was[..k], [e], d);
    KidsOne(e, d);
  }

  lemma KidsDeleted(was: seq<Entry>, now: seq<Entry>, name: seq<byte>, d: nat)
    requires Deleted(was, now, name) && name != DOT && name != DOTDOT
    ensures FirstNamed(was, name).Some?
    ensures KidsIn(was, d) == KidsIn(now, d) + if FirstNamed(was, name).value == d then 1 else 0
  {
    var a, e, c := DeletedParts(was, now, name);
    FirstNamedAfter(a, [e] + c, name);
    assert was == a + ([e] + c);
    KidsConcat(a, [e] + c, d);
    KidsConcat([e], c, d);
    KidsConcat(a, c, d);
    KidsOne(e, d);
  }

  lemma {:induction false} KidsCounted(es: seq<Entry>, d: nat)
    ensures KidsIn(es, d) <= Count(es, d)
  {
    if es != [] {
      KidsCounted(es[1..], d);
    }
  }

  lemma {:induction false} OnlyDotsNoKids(es: seq<Entry>, d: nat)
    requires forall e | e in es :: e.name == DOT || e.name == DOTDOT
    ensures KidsIn(es, d) == 0
  {
    if es != [] {
      assert es[0] in es;
      OnlyDotsNoKids(es[1..], d);
    }
  }

  lemma {:induction false} NamedIsKid(es: seq<Entry>, e: Entry)
    requires e in es && e.name != DOT && e.name != DOTDOT
    ensures KidsIn(es, e.ino) > 0
  {
    if es[0] != e {
      NamedIsKid(es[1..], e);
    }
  }

  /** What the two dots look like in the listing. */
  lemma DotsListed(rs: seq<Dirent>, self: nat)
    requires DotsIn(rs, self).Some?
    ensures List(rs) == [Entry(DOT, self), Entry(DOTDOT, DotsIn(rs, self).value)] + List(rs[2..])
    ensures Entry(DOTDOT, DotsIn(rs, self).value) in List(rs)
  {
    hide List;
    assert rs == [rs[0]] + ([rs[1]] + rs[2..]);
    ListConcat([rs[0]], [rs[1]] + rs[2..]);
    ListConcat([rs[1]], rs[2..]);
    ListOne(rs[0]);
    ListOne(rs[1]);
    var es := List(rs);
    assert es == [Entry(DOT, self), Entry(DOTDOT, DotsIn(rs, self).value)] + List(rs[2..]);
    assert es[1] == Entry(DOTDOT, DotsIn(rs, self).value);
  }

  ghost predicate IsDirView(v: View) {
    v.kind == Directory
  }

  /** Directory k names d once if it is d's parent, and not otherwise. */
  ghost predicate Hung(views: seq<View>, k: nat, d: nat)
    requires k < |views| && d < |views|
  {
    Kids(views[k], d) == if d != ROOTINO && ParentOf(views, d) == Some(k) then 1 else 0
  }

  ghost predicate Dotted(views: seq<View>, d: nat)
    requires d < |views|
  {
    DirTiled(views[d].bytes) && DotsIn(Records(views[d].bytes), d).Some?
  }

  /** The directories are a tree rooted at inode 2: each begins with its dots, and every one but the
      root has exactly one name, in the directory its ".." leads to. */
  ghost predicate TreeOk(views: seq<View>, depth: seq<nat>) {
    && TreeAt(views, depth)
    && (forall d: nat | d < |views| && IsDirView(views[d]) :: Dotted(views, d))
    && DotsIn(Records(views[ROOTINO].bytes), ROOTINO) == Some(ROOTINO)
    && forall k: nat, d: nat | k < |views| && d < |views| && IsDirView(views[k]) && IsDirView(views[d]) :: Hung(views, k, d)
  }

  ghost predicate Hangs(views: seq<View>) {
    exists depth: seq<nat> :: TreeOk(views, depth)
  }

  lemma RootHasNoParent(views: seq<View>, depth: seq<nat>)
    requires TreeOk(views, depth)
    ensures ParentOf(views, ROOTINO) == None
  {
    hide DirTiled, Records, DotsIn, ParentOf, Ranked, Kids;
    assert IsDirView(views[ROOTINO]) && Dotted(views, ROOTINO);
    ParentIsDots(views, ROOTINO);
  }

  lemma NotDirNoParent(views: seq<View>, d: nat)
    requires d < |views| && views[d].kind != Directory
    ensures ParentOf(views, d) == None
  {
  }

  /** A directory that begins as it did has the parent it had. */
  lemma SameParent(was: seq<View>, now: seq<View>, d: nat)
    requires |now| == |was| && d < |was| && was[d].kind == now[d].kind == Directory
    requires Dotted(was, d) && DirTiled(now[d].bytes) && KeepsDots(Records(was[d].bytes), Records(now[d].bytes))
    ensures ParentOf(now, d) == ParentOf(was, d) && Dotted(now, d)
    ensures DotsIn(Records(now[d].bytes), d) == DotsIn(Records(was[d].bytes), d)
  {
    hide DirTiled, Records, DotsIn, ParentOf;
    ParentIsDots(was, d);
    ParentIsDots(now, d);
  }

  lemma KeepsItself(rs: seq<Dirent>)
    ensures KeepsDots(rs, rs)
  {
  }

  /** Directory d is one before and after, and begins as it did. */
  ghost predicate SameDir(was: seq<View>, now: seq<View>, d: nat)
    requires d < |was| == |now|
  {
    (IsDirView(now[d]) <==> IsDirView(was[d]))
    && (IsDirView(was[d]) ==> DirTiled(now[d].bytes) && KeepsDots(Records(was[d].bytes), Records(now[d].bytes)))
  }

  ghost predicate SameKids(was: seq<View>, now: seq<View>, k: nat, d: nat)
    requires k < |was| == |now|
  {
    Kids(now[k], d) == Kids(was[k], d)
  }

  /** A step that neither makes, removes, moves nor renames a directory keeps the tree. */
  lemma FilesStep(was: seq<View>, now: seq<View>)
    requires Hangs(was) && |now| == |was|
    requires forall d: nat | d < |was| :: SameDir(was, now, d)
    requires forall k: nat, d: nat | k < |was| && d < |was| && IsDirView(was[k]) && IsDirView(was[d]) :: SameKids(was, now, k, d)
    ensures Hangs(now)
    ensures forall depth: seq<nat> | TreeOk(was, depth) :: TreeOk(now, depth) && SameUps(was, now)
  {
    hide SameDir, SameKids, TreeOk, SameUps;
    forall depth: seq<nat> | TreeOk(was, depth) ensures TreeOk(now, depth) && SameUps(was, now) {
      FilesStepAt(was, now, depth);
    }
    var depth: seq<nat> :| TreeOk(was, depth);
    assert TreeOk(now, depth);
  }

  /** Every ".." leads where it did. */
  ghost predicate SameUps(was: seq<View>, now: seq<View>) {
    |now| == |was| && forall d: nat | d < |was| :: ParentOf(now, d) == ParentOf(was, d)
  }

  lemma FilesStepAt(was: seq<View>, now: seq<View>, depth: seq<nat>)
    requires TreeOk(was, depth) && |now| == |was|
    requires forall d: nat | d < |was| :: SameDir(was, now, d)
    requires forall k: nat, d: nat | k < |was| && d < |was| && IsDirView(was[k]) && IsDirView(was[d]) :: SameKids(was, now, k, d)
    ensures TreeOk(now, depth) && SameUps(was, now)
  {
    hide DirTiled, Records, DotsIn, ParentOf, KeepsDots, Kids;
    forall d: nat | d < |was|
      ensures ParentOf(now, d) == ParentOf(was, d) && (IsDirView(now[d]) <==> IsDirView(was[d]))
      ensures IsDirView(was[d]) ==> Dotted(now, d) && DotsIn(Records(now[d].bytes), d) == DotsIn(Records(was[d].bytes), d)
    {
      assert SameDir(was, now, d);
      if IsDirView(was[d]) {
        assert Dotted(was, d);
        SameParent(was, now, d);
      } else {
        NotDirNoParent(was, d);
        NotDirNoParent(now, d);
      }
    }
    forall k: nat, d: nat | k < |was| && d < |was| && IsDirView(now[k]) && IsDirView(now[d]) ensures Hung(now, k, d) {
      assert SameDir(was, now, k) && SameDir(was, now, d) && Hung(was, k, d) && SameKids(was, now, k, d);
    }
    assert SameDir(was, now, ROOTINO);
    SameTree(was, now, depth);
  }

  lemma SameTree(was: seq<View>, now: seq<View>, depth: seq<nat>)
    requires TreeAt(was, depth) && |now| == |was|
    requires forall d: nat | d < |was| :: ParentOf(now, d) == ParentOf(was, d) && (IsDirView(now[d]) <==> IsDirView(was[d]))
    ensures TreeAt(now, depth)
  {
    hide ParentOf;
    assert IsDirView(was[ROOTINO]);
    forall d | 0 <= d < |now| && d != ROOTINO && ParentOf(now, d).Some?
      ensures ParentOf(now, d).value < |now| && depth[ParentOf(now, d).value] < depth[d]
    {
      ParentInside(now, d);
      assert ParentOf(was, d) == ParentOf(now, d);
    }
    forall d | 0 <= d < |now| && d != ROOTINO && now[d].kind == Directory
      ensures ParentOf(now, d).Some? && ParentOf(now, d).value < |now| && now[ParentOf(now, d).value].kind == Directory
    {
      assert IsDirView(now[d]);
      ParentInside(was, d);
      assert IsDirView(was[ParentOf(was, d).value]);
    }
  }

  /** The same, when only directory p changed its bytes. */
  lemma NamesStep(was: seq<View>, now: seq<View>, p: nat)
    requires Hangs(was) && |now| == |was| && p < |was| && IsDirView(was[p]) && IsDirView(now[p])
    requires forall d: nat | d < |was| && d != p :: SameBytes(was[d], now[d])
    requires DirTiled(now[p].bytes) && KeepsDots(Records(was[p].bytes), Records(now[p].bytes))
    requires forall d: nat | d < |was| && IsDirView(was[d]) :: SameKids(was, now, p, d)
    ensures Hangs(now)
    ensures forall depth: seq<nat> | TreeOk(was, depth) :: TreeOk(now, depth) && SameUps(was, now)
  {
    hide DirTiled, Records, DotsIn, ParentOf, KeepsDots, KidsIn, TreeOk, SameUps;
    forall d: nat | d < |was| ensures SameDir(was, now, d) {
      if d != p && IsDirView(was[d]) {
        TiledInTree(was, d);
        KeepsItself(Records(was[d].bytes));
        assert SameBytes(was[d], now[d]);
      } else if d != p {
        assert SameBytes(was[d], now[d]);
      }
    }
    forall k: nat, d: nat | k < |was| && d < |was| && IsDirView(was[k]) && IsDirView(was[d]) ensures SameKids(was, now, k, d) {
      if k != p {
        assert SameBytes(was[k], now[k]);
      }
    }
    FilesStep(was, now);
  }

  /** A directory with the bytes it had, or no directory before and after. */
  ghost predicate SameBytes(a: View, b: View) {
    (IsDirView(b) <==> IsDirView(a)) && (IsDirView(a) ==> b.bytes == a.bytes)
  }

  lemma TiledInTree(views: seq<View>, d: nat)
    requires Hangs(views) && d < |views| && IsDirView(views[d])
    ensures Dotted(views, d)
  {
    hide DirTiled, Records, DotsIn, ParentOf, Kids;
  }

  lemma CreatedKeepsTree(was: seq<View>, now: seq<View>, p: nat, i: nat, v: View, name: seq<byte>)
    requires Hangs(was) && Created(was, now, p, i, v, name) && v.kind != Directory
    ensures Hangs(now)
  {
    hide DirTiled, Records, DotsIn, KeepsDots, List, Inserted, KidsIn, Hangs, FirstNamed;
    forall d: nat | d < |was| && IsDirView(was[d]) ensures SameKids(was, now, p, d) {
      KidsInserted(Listing(was[p].bytes), Listing(now[p].bytes), Entry(name, i), d);
    }
    NamesStep(was, now, p);
  }

  lemma LinkedKeepsTree(was: seq<View>, now: seq<View>, p: nat, src: nat, name: seq<byte>)
    requires Hangs(was) && p < |was| && src < |was| && was[src].kind != Directory && was[p].kind == Directory
    requires WithEntry(was[src := was[src].(nlink := was[src].nlink + 1)], now, p, Entry(name, src))
    ensures Hangs(now)
  {
    hide DirTiled, Records, DotsIn, KeepsDots, List, Inserted, KidsIn, Hangs;
    forall d: nat | d < |was| && IsDirView(was[d]) ensures SameKids(was, now, p, d) {
      KidsInserted(Listing(was[p].bytes), Listing(now[p].bytes), Entry(name, src), d);
    }
    NamesStep(was, now, p);
  }

  lemma UnlinkedKeepsTree(was: seq<View>, now: seq<View>, p: nat, t: nat, name: seq<byte>)
    requires Hangs(was) && Unlinked(was, now, p, t, name) && was[t].kind != Directory && was[t].nlink > 0 && name != DOT && name != DOTDOT
    ensures Hangs(now)
    ensures forall depth: seq<nat> | TreeOk(was, depth) :: TreeOk(now, depth) && SameUps(was, now)
  {
    hide TreeOk, SameUps, DirTiled, Records, DotsIn, KeepsDots, List, Deleted, KidsIn, Hangs, FirstNamed;
    assert now[p] == now[t := was[t]][p];
    forall d: nat | d < |was| && IsDirView(was[d]) ensures SameKids(was, now, p, d) {
      KidsDeleted(Listing(was[p].bytes), Listing(now[p].bytes), name, d);
    }
    forall d: nat | d < |was| && d != p ensures SameBytes(was[d], now[d]) {
      assert d != t ==> now[d] == now[t := was[t]][d];
    }
    NamesStep(was, now, p);
  }

  lemma EditedKeepsTree(was: seq<View>, i: nat, bytes: seq<byte>)
    requires Hangs(was) && i < |was| && was[i].kind != Directory
    ensures Hangs(was[i := was[i].(bytes := bytes)])
  {
    hide DirTiled, Records, DotsIn, KeepsDots, Kids, Hangs;
    var now := was[i := was[i].(bytes := bytes)];
    forall d: nat | d < |was| ensures SameDir(was, now, d) {
      if IsDirView(was[d]) {
        TiledInTree(was, d);
        KeepsItself(Records(was[d].bytes));
      }
    }
    forall k: nat, d: nat | k < |was| && d < |was| && IsDirView(was[k]) && IsDirView(was[d]) ensures SameKids(was, now, k, d) {
    }
    FilesStep(was, now);
  }

  /** Nothing names an inode that is not in use. */
  lemma GoneHasNoName(was: seq<View>, i: nat, k: nat)
    requires LinksOk(was) && i < |was| && was[i] == GONE && k < |was| && IsDirView(was[k])
    ensures Kids(was[k], i) == 0
  {
    hide DirOk, Listing;
    NamedIsReferenced(was, k, i);
    KidsCounted(Listing(was[k].bytes), i);
  }

  /** mkdir hangs a new directory below p. */
  lemma DirMadeKeepsTree(was: seq<View>, now: seq<View>, p: nat, i: nat, v: View, name: seq<byte>)
    requires Hangs(was) && LinksOk(was) && DirMade(was, now, p, i, v, name) && name != DOT && name != DOTDOT
    ensures Hangs(now)
  {
    hide DirTiled, Records, DotsIn, KeepsDots, KidsIn, FirstNamed, ParentOf, Inserted, DirOk, List, Ranked, TreeAt;
    var depth: seq<nat> :| TreeOk(was, depth);
    MadeParents(was, now, depth, p, i, v, name);
    var depth' := depth[i := depth[p] + 1];
    MadeTree(was, now, depth, p, i);
    forall k: nat, d: nat | k < |now| && d < |now| && IsDirView(now[k]) && IsDirView(now[d]) ensures Hung(now, k, d) {
      MadeHung(was, now, depth, p, i, v, name, k, d);
    }
    assert TreeOk(now, depth');
  }

  /** mkdir's effect view by view. */
  lemma MadeViews(was: seq<View>, now: seq<View>, p: nat, i: nat, v: View, name: seq<byte>)
    requires DirMade(was, now, p, i, v, name)
    ensures |now| == |was| && p < |was| && i < |was| && i != p && now[i] == v && IsDirView(v) && was[i] == GONE
    ensures DirTiled(v.bytes) && DotsIn(Records(v.bytes), i) == Some(p) && Listing(v.bytes) == [Entry(DOT, i), Entry(DOTDOT, p)]
    ensures IsDirView(was[p]) && IsDirView(now[p]) && DirTiled(now[p].bytes)
    ensures KeepsDots(Records(was[p].bytes), Records(now[p].bytes))
    ensures Inserted(Listing(was[p].bytes), Listing(now[p].bytes), Entry(name, i))
    ensures forall d: nat | d < |was| && d != p && d != i :: now[d] == was[d]
  {
    hide DirTiled, Records, DotsIn, KeepsDots, FirstNamed, Inserted, List;
    var mid := now[p := now[p].(nlink := was[p].nlink)];
    assert mid[i] == now[i] == v;
    assert mid[p].bytes == now[p].bytes && mid[p].kind == now[p].kind;
    forall d: nat | d < |was| && d != p && d != i ensures now[d] == was[d] {
      assert mid[d] == now[d] && mid[d] == was[i := v][d];
    }
  }

  lemma MadeParents(was: seq<View>, now: seq<View>, depth: seq<nat>, p: nat, i: nat, v: View, name: seq<byte>)
    requires TreeOk(was, depth) && DirMade(was, now, p, i, v, name)
    ensures |now| == |was| && i < |was| && p < |was| && i != p && |depth| == |was|
    ensures forall d: nat | d < |was| && d != i :: ParentOf(now, d) == ParentOf(was, d) && (IsDirView(now[d]) <==> IsDirView(was[d]))
    ensures forall d: nat | d < |was| && IsDirView(now[d]) :: Dotted(now, d)
    ensures ParentOf(now, i) == Some(p) && IsDirView(now[i]) && IsDirView(was[p]) && !IsDirView(was[i])
    ensures DotsIn(Records(now[ROOTINO].bytes), ROOTINO) == Some(ROOTINO)
  {
    hide DirTiled, Records, DotsIn, KeepsDots, Kids, FirstNamed, ParentOf, Inserted, Listing, DirMade;
    MadeViews(was, now, p, i, v, name);
    assert IsDirView(was[ROOTINO]);
    forall d: nat | d < |was| && d != i
      ensures ParentOf(now, d) == ParentOf(was, d) && (IsDirView(now[d]) <==> IsDirView(was[d]))
      ensures IsDirView(was[d]) ==> Dotted(now, d) && DotsIn(Records(now[d].bytes), d) == DotsIn(Records(was[d].bytes), d)
    {
      if IsDirView(was[d]) {
        assert Dotted(was, d);
        KeepsItself(Records(was[d].bytes));
        SameParent(was, now, d);
      } else {
        NotDirNoParent(was, d);
        NotDirNoParent(now, d);
      }
    }
    ParentIsDots(now, i);
  }

  lemma MadeTree(was: seq<View>, now: seq<View>, depth: seq<nat>, p: nat, i: nat)
    requires TreeAt(was, depth) && |now| == |was| && i < |was| && p < |was| && i != p
    requires forall d: nat | d < |was| && d != i :: ParentOf(now, d) == ParentOf(was, d) && (IsDirView(now[d]) <==> IsDirView(was[d]))
    requires ParentOf(now, i) == Some(p) && IsDirView(now[i]) && IsDirView(was[p]) && !IsDirView(was[i])
    ensures TreeAt(now, depth[i := depth[p] + 1])
  {
    hide ParentOf;
    var depth' := depth[i := depth[p] + 1];
    forall d: nat | d < |was| && d != i && d != ROOTINO && ParentOf(now, d).Some?
      ensures ParentOf(now, d).value < |now| && depth[ParentOf(now, d).value] < depth[d]
      ensures ParentOf(now, d).value != i && IsDirView(was[ParentOf(now, d).value])
    {
      assert ParentOf(now, d) == ParentOf(was, d);
      ParentInside(was, d);
      ParentIsDir(was, depth, d);
    }
    assert IsDirView(was[ROOTINO]) && ROOTINO != i;
    forall d | 0 <= d < |now| && d != ROOTINO && ParentOf(now, d).Some?
      ensures ParentOf(now, d).value < |now| && depth'[ParentOf(now, d).value] < depth'[d]
    {
    }
    forall d | 0 <= d < |now| && d != ROOTINO && now[d].kind == Directory
      ensures ParentOf(now, d).Some? && ParentOf(now, d).value < |now| && now[ParentOf(now, d).value].kind == Directory
    {
      if d != i {
        assert IsDirView(now[d]) && ParentOf(now, d) == ParentOf(was, d);
        assert IsDirView(was[d]);
        ParentIsDir(was, depth, d);
      }
    }
  }

  lemma ParentIsDir(views: seq<View>, depth: seq<nat>, d: nat)
    requires TreeAt(views, depth) && d < |views| && d != ROOTINO && ParentOf(views, d).Some?
    ensures ParentOf(views, d).value < |views| && IsDirView(views[ParentOf(views, d).value])
  {
    hide ParentIn;
    if views[d].kind != Directory {
      NotDirNoParent(views, d);
    }
  }

  lemma MadeHung(was: seq<View>, now: seq<View>, depth: seq<nat>, p: nat, i: nat, v: View, name: seq<byte>, k: nat, d: nat)
    requires TreeOk(was, depth) && LinksOk(was) && DirMade(was, now, p, i, v, name) && name != DOT && name != DOTDOT
    requires k < |now| && d < |now| && IsDirView(now[k]) && IsDirView(now[d])
    ensures Hung(now, k, d)
  {
    hide DirTiled, Records, DotsIn, KeepsDots, Kids, FirstNamed, ParentOf, Inserted, DirOk, Listing, Ranked, DirMade, LinksOk, TreeAt;
    MadeParents(was, now, depth, p, i, v, name);
    MadeViews(was, now, p, i, v, name);
    if k == i {
      NewHasNoKids(v, i, p, d);
      NotBelowNew(was, depth, i, d);
    } else {
      assert IsDirView(was[k]);
      if d == i {
        GoneHasNoName(was, i, k);
      } else {
        assert Hung(was, k, d);
      }
      if k == p {
        KidsAfterInsert(was[p], now[p], Entry(name, i), d);
      }
    }
  }

  lemma NewHasNoKids(v: View, i: nat, p: nat, d: nat)
    requires Listing(v.bytes) == [Entry(DOT, i), Entry(DOTDOT, p)]
    ensures Kids(v, d) == 0
  {
    hide Listing;
    OnlyDotsNoKids(Listing(v.bytes), d);
  }

  lemma NotBelowNew(was: seq<View>, depth: seq<nat>, i: nat, d: nat)
    requires TreeOk(was, depth) && i < |was| && was[i] == GONE && d < |was|
    ensures ParentOf(was, d) != Some(i)
  {
    hide DirTiled, Records, DotsIn, Kids, ParentOf;
    if d == ROOTINO {
      RootHasNoParent(was, depth);
    } else if ParentOf(was, d).Some? {
      ParentIsDir(was, depth, d);
    }
  }

  lemma KidsAfterInsert(was: View, now: View, e: Entry, d: nat)
    requires Inserted(Listing(was.bytes), Listing(now.bytes), e)
    ensures Kids(now, d) == Kids(was, d) + if e.ino == d && e.name != DOT && e.name != DOTDOT then 1 else 0
  {
    hide Listing, Inserted, KidsIn;
    KidsInserted(Listing(was.bytes), Listing(now.bytes), e, d);
  }

  /** rmdir takes a directory away that nothing hangs below. */
  lemma DirRemovedKeepsTree(was: seq<View>, now: seq<View>, p: nat, t: nat, name: seq<byte>)
    requires Hangs(was) && DirRemoved(was, now, p, t, name) && name != DOT && name != DOTDOT
    ensures Hangs(now)
  {
    hide TreeOk, DirRemoved;
    var depth: seq<nat> :| TreeOk(was, depth);
    DirRemovedAt(was, now, depth, p, t, name);
  }

  lemma DirRemovedAt(was: seq<View>, now: seq<View>, depth: seq<nat>, p: nat, t: nat, name: seq<byte>)
    requires TreeOk(was, depth) && DirRemoved(was, now, p, t, name) && name != DOT && name != DOTDOT
    ensures TreeOk(now, depth)
    ensures UpsBut(was, now, t)
  {
    hide DirTiled, Records, DotsIn, KeepsDots, KidsIn, FirstNamed, ParentOf, Deleted, List, Ranked, OnlyDots, TreeAt;
    RemovedParents(was, now, depth, p, t, name);
    RemovedTree(was, now, depth, t);
    forall k: nat, d: nat | k < |now| && d < |now| && IsDirView(now[k]) && IsDirView(now[d]) ensures Hung(now, k, d) {
      assert IsDirView(was[k]) && IsDirView(was[d]) && Hung(was, k, d) && d != t && k != t;
      if k == p {
        var mid := now[t := was[t]][p := now[p].(nlink := was[p].nlink)];
        assert mid[p].bytes == now[p].bytes;
        KidsDeleted(Listing(was[p].bytes), Listing(now[p].bytes), name, d);
      } else {
        RemovedOther(was, now, p, t, name, k);
      }
    }
    forall d: nat | d < |was| && d != t ensures ParentOf(was, d) != Some(t) {
      if !IsDirView(was[d]) {
        NotDirNoParent(was, d);
      }
    }
  }

  /** Every ".." but t's leads where it did, and none leads to t. */
  ghost predicate UpsBut(was: seq<View>, now: seq<View>, t: nat) {
    |now| == |was| && forall d: nat | d < |was| && d != t :: ParentOf(now, d) == ParentOf(was, d) && ParentOf(was, d) != Some(t)
  }

  /** What lies above a directory does not change then. */
  lemma {:induction false} AboveKept(was: seq<View>, now: seq<View>, depth: seq<nat>, t: nat, d: nat, a: nat)
    requires Ranked(was, depth) && Ranked(now, depth) && UpsBut(was, now, t) && d < |was| && d != t
    ensures Above(now, depth, d, a) <==> Above(was, depth, d, a)
    decreases depth[d]
  {
    hide ParentOf;
    if d != a && d != ROOTINO && ParentOf(was, d).Some? {
      ParentInside(was, d);
      AboveKept(was, now, depth, t, ParentOf(was, d).value, a);
    }
  }

  /** Any ranking gives the same answer. */
  lemma {:induction false} AboveAlike(views: seq<View>, a: seq<nat>, b: seq<nat>, d: nat, x: nat)
    requires Ranked(views, a) && Ranked(views, b) && d < |views|
    ensures Above(views, a, d, x) <==> Above(views, b, d, x)
    decreases a[d]
  {
    hide ParentOf;
    if d != x && d != ROOTINO && ParentOf(views, d).Some? {
      ParentInside(views, d);
      AboveAlike(views, a, b, ParentOf(views, d).value, x);
    }
  }

  /** x is d or lies above it. */
  ghost predicate Inside(views: seq<View>, d: nat, x: nat) {
    exists depth: seq<nat> :: Ranked(views, depth) && d < |views| && Above(views, depth, d, x)
  }

  lemma InsideIs(views: seq<View>, depth: seq<nat>, d: nat, x: nat)
    requires Ranked(views, depth) && d < |views|
    ensures Inside(views, d, x) <==> Above(views, depth, d, x)
  {
    hide ParentOf, Ranked, Above;
    if Inside(views, d, x) {
      var other: seq<nat> :| Ranked(views, other) && d < |views| && Above(views, other, d, x);
      AboveAlike(views, other, depth, d, x);
    }
  }

  lemma RemovedOther(was: seq<View>, now: seq<View>, p: nat, t: nat, name: seq<byte>, d: nat)
    requires DirRemoved(was, now, p, t, name) && d < |was| && d != p && d != t
    ensures now[d] == was[d]
  {
    hide DirTiled, Records, KeepsDots, FirstNamed, Deleted, List, OnlyDots;
    var mid := now[t := was[t]][p := now[p].(nlink := was[p].nlink)];
    assert mid[d] == now[d];
  }

  lemma RemovedParents(was: seq<View>, now: seq<View>, depth: seq<nat>, p: nat, t: nat, name: seq<byte>)
    requires TreeOk(was, depth) && DirRemoved(was, now, p, t, name)
    ensures |now| == |was| && t < |was| && p < |was| && t != p && t != ROOTINO && !IsDirView(now[t])
    ensures forall d: nat | d < |was| && d != t :: ParentOf(now, d) == ParentOf(was, d) && (IsDirView(now[d]) <==> IsDirView(was[d]))
    ensures forall d: nat | d < |was| && IsDirView(now[d]) :: Dotted(now, d)
    ensures forall d: nat | d < |was| && d != t && IsDirView(was[d]) :: ParentOf(was, d) != Some(t)
    ensures DotsIn(Records(now[ROOTINO].bytes), ROOTINO) == Some(ROOTINO)
  {
    hide DirTiled, Records, DotsIn, KeepsDots, KidsIn, FirstNamed, ParentOf, Deleted, List, Ranked;
    assert IsDirView(was[ROOTINO]) && IsDirView(was[t]);
    RootStays(was, depth, p, t);
    forall d: nat | d < |was| && d != t
      ensures ParentOf(now, d) == ParentOf(was, d) && (IsDirView(now[d]) <==> IsDirView(was[d]))
      ensures IsDirView(was[d]) ==> Dotted(now, d) && DotsIn(Records(now[d].bytes), d) == DotsIn(Records(was[d].bytes), d)
    {
      if d != p {
        RemovedOther(was, now, p, t, name, d);
        KeepsItself(Records(was[d].bytes));
      } else {
        var mid := now[t := was[t]][p := now[p].(nlink := was[p].nlink)];
        assert mid[p].bytes == now[p].bytes && mid[p].kind == now[p].kind;
      }
      if IsDirView(was[d]) {
        assert Dotted(was, d);
        SameParent(was, now, d);
      } else {
        NotDirNoParent(was, d);
        NotDirNoParent(now, d);
      }
    }
    forall d: nat | d < |was| && d != t && IsDirView(was[d]) ensures ParentOf(was, d) != Some(t) {
      OnlyDotsNoKids(Listing(was[t].bytes), d);
      assert Hung(was, t, d);
      RootHasNoParent(was, depth);
    }
  }

  /** The root is never the directory that is removed: its ".." names itself. */
  lemma RootStays(was: seq<View>, depth: seq<nat>, p: nat, t: nat)
    requires TreeOk(was, depth) && t < |was| && was[t].kind == Directory && OnlyDots(Listing(was[t].bytes), t, p) && p != t
    ensures t != ROOTINO
  {
    hide DirTiled, Records, DotsIn, Kids, ParentOf, Ranked, List;
    DotsListedRoot(was, depth);
  }

  lemma DotsListedRoot(was: seq<View>, depth: seq<nat>)
    requires TreeOk(was, depth)
    ensures ROOTINO < |was| && Entry(DOTDOT, ROOTINO) in Listing(was[ROOTINO].bytes)
  {
    hide DirTiled, Records, Kids, ParentOf, Ranked, List;
    DotsListed(Records(was[ROOTINO].bytes), ROOTINO);
  }

  lemma RemovedTree(was: seq<View>, now: seq<View>, depth: seq<nat>, t: nat)
    requires TreeAt(was, depth) && |now| == |was| && t < |was| && t != ROOTINO && !IsDirView(now[t])
    requires forall d: nat | d < |was| && d != t :: ParentOf(now, d) == ParentOf(was, d) && (IsDirView(now[d]) <==> IsDirView(was[d]))
    requires forall d: nat | d < |was| && d != t && IsDirView(was[d]) :: ParentOf(was, d) != Some(t)
    ensures TreeAt(now, depth)
  {
    hide ParentOf;
    NotDirNoParent(now, t);
    assert IsDirView(was[ROOTINO]) && IsDirView(now[ROOTINO]);
    forall d | 0 <= d < |now| && d != ROOTINO && ParentOf(now, d).Some?
      ensures ParentOf(now, d).value < |now| && depth[ParentOf(now, d).value] < depth[d]
    {
      assert ParentOf(was, d) == ParentOf(now, d);
      ParentInside(was, d);
    }
    forall d | 0 <= d < |now| && d != ROOTINO && now[d].kind == Directory
      ensures ParentOf(now, d).Some? && ParentOf(now, d).value < |now| && now[ParentOf(now, d).value].kind == Directory
    {
      assert IsDirView(now[d]) && ParentOf(was, d) == ParentOf(now, d) && IsDirView(was[d]);
      ParentIsDir(was, depth, d);
      var x := ParentOf(was, d).value;
      assert x != t && (IsDirView(now[x]) <==> IsDirView(was[x]));
    }
  }

  // ---- renaming ----

  /** A directory that lists one name more, or one less, and begins as it did. */
  ghost predicate Gains(a: View, b: View, e: Entry) {
    && a.kind == b.kind == Directory && DirTiled(b.bytes) && KeepsForm(a.bytes, b.bytes)
    && Inserted(Listing(a.bytes), Listing(b.bytes), e) && KeepsDots(Records(a.bytes), Records(b.bytes))
  }

  ghost predicate Loses(a: View, b: View, name: seq<byte>) {
    && a.kind == b.kind == Directory && DirTiled(b.bytes) && KeepsForm(a.bytes, b.bytes)
    && Deleted(Listing(a.bytes), Listing(b.bytes), name) && KeepsDots(Records(a.bytes), Records(b.bytes))
  }

  /** Inode s is named `target` in q and no longer `name` in p. If it is a directory, its ".." and the
      two link counts follow. */
  ghost predicate Renamed(was: seq<View>, now: seq<View>, p: nat, name: seq<byte>, q: nat, target: seq<byte>, s: nat) {
    && |now| == |was| && p < |was| && q < |was| && s < |was| && p != q && s != p && s != q
    && Loses(was[p], now[p], name) && FirstNamed(Listing(was[p].bytes), name) == Some(s)
    && Gains(was[q], now[q], Entry(target, s)) && FirstNamed(Listing(was[q].bytes), target).None?
    && (if was[s].kind == Directory then
          now[p].nlink + 1 == was[p].nlink && now[q].nlink == was[q].nlink + 1
          && now[s] == was[s].(bytes := now[s].bytes) && Repointed(was[s].bytes, now[s].bytes, s, q)
        else now[p].nlink == was[p].nlink && now[q].nlink == was[q].nlink && now[s] == was[s])
    && forall d: nat | d < |was| && d != p && d != q && d != s :: now[d] == was[d]
  }

  lemma KidsAfterDelete(was: View, now: View, name: seq<byte>, d: nat)
    requires Deleted(Listing(was.bytes), Listing(now.bytes), name) && name != DOT && name != DOTDOT
    ensures FirstNamed(Listing(was.bytes), name).Some?
    ensures Kids(was, d) == Kids(now, d) + if FirstNamed(Listing(was.bytes), name).value == d then 1 else 0
  {
    hide Listing, Deleted, KidsIn, FirstNamed;
    KidsDeleted(Listing(was.bytes), Listing(now.bytes), name, d);
  }

  /** Renaming a file between directories. */
  lemma RenamedFileKeepsTree(was: seq<View>, now: seq<View>, p: nat, name: seq<byte>, q: nat, target: seq<byte>, s: nat)
    requires Hangs(was) && Renamed(was, now, p, name, q, target, s) && was[s].kind != Directory && name != DOT && name != DOTDOT
    ensures Hangs(now)
  {
    hide DirTiled, Records, DotsIn, KeepsDots, List, Inserted, Deleted, Kids, Hangs, FirstNamed;
    forall d: nat | d < |was| ensures SameDir(was, now, d) {
      if d != p && d != q && IsDirView(was[d]) {
        TiledInTree(was, d);
        KeepsItself(Records(was[d].bytes));
      }
    }
    forall k: nat, d: nat | k < |was| && d < |was| && IsDirView(was[k]) && IsDirView(was[d]) ensures SameKids(was, now, k, d) {
      if k == p {
        KidsAfterDelete(was[p], now[p], name, d);
      } else if k == q {
        KidsAfterInsert(was[q], now[q], Entry(target, s), d);
      }
    }
    FilesStep(was, now);
  }

  /** The name of a directory lies in its parent. */
  lemma NamedInParent(was: seq<View>, depth: seq<nat>, p: nat, name: seq<byte>, s: nat)
    requires TreeOk(was, depth) && p < |was| && s < |was| && IsDirView(was[p]) && IsDirView(was[s])
    requires FirstNamed(Listing(was[p].bytes), name) == Some(s) && name != DOT && name != DOTDOT
    ensures s != ROOTINO && ParentOf(was, s) == Some(p) && s != p
  {
    hide DirTiled, Records, DotsIn, ParentOf, KidsIn, Ranked, TreeAt;
    FirstNamedIs(Listing(was[p].bytes), name);
    NamedIsKid(Listing(was[p].bytes), Entry(name, s));
    assert Hung(was, p, s);
    NotOwnParent(was, s);
  }

  lemma NotOwnParent(views: seq<View>, d: nat)
    requires d < |views|
    ensures ParentOf(views, d) != Some(d)
  {
  }

  /** Renaming a directory into another one it is not above. */
  lemma RenamedDirKeepsTree(was: seq<View>, now: seq<View>, depth: seq<nat>, p: nat, name: seq<byte>, q: nat, target: seq<byte>, s: nat)
    requires TreeOk(was, depth) && Renamed(was, now, p, name, q, target, s) && was[s].kind == Directory
    requires !Above(was, depth, q, s) && name != DOT && name != DOTDOT && target != DOT && target != DOTDOT
    ensures Hangs(now)
  {
    hide DirTiled, Records, DotsIn, KeepsDots, Listing, Inserted, Deleted, Kids, FirstNamed, ParentOf, Ranked, TreeAt, Above, Rehung;
    NamedInParent(was, depth, p, name, s);
    RenamedRehung(was, now, depth, p, name, q, target, s);
    var depth' := MoveKeepsTree(was, now, depth, s, q);
    forall k: nat, d: nat | k < |now| && d < |now| && IsDirView(now[k]) && IsDirView(now[d]) ensures Hung(now, k, d) {
      RenamedHung(was, now, depth, p, name, q, target, s, k, d);
    }
    assert TreeOk(now, depth');
  }

  lemma RenamedRehung(was: seq<View>, now: seq<View>, depth: seq<nat>, p: nat, name: seq<byte>, q: nat, target: seq<byte>, s: nat)
    requires TreeOk(was, depth) && Renamed(was, now, p, name, q, target, s) && was[s].kind == Directory && s != ROOTINO
    ensures Rehung(was, now, s, q)
    ensures forall d: nat | d < |was| :: (IsDirView(now[d]) <==> IsDirView(was[d])) && (IsDirView(now[d]) ==> Dotted(now, d))
    ensures DotsIn(Records(now[ROOTINO].bytes), ROOTINO) == Some(ROOTINO)
  {
    hide DirTiled, Records, DotsIn, KeepsDots, Listing, Inserted, Deleted, Kids, FirstNamed, ParentOf, Above;
    assert IsDirView(was[ROOTINO]);
    forall d: nat | d < |was| && d != s
      ensures ParentOf(now, d) == ParentOf(was, d) && now[d].kind == was[d].kind
      ensures IsDirView(was[d]) ==> Dotted(now, d) && DotsIn(Records(now[d].bytes), d) == DotsIn(Records(was[d].bytes), d)
    {
      if IsDirView(was[d]) {
        assert Dotted(was, d);
        KeepsItself(Records(was[d].bytes));
        SameParent(was, now, d);
      } else {
        NotDirNoParent(was, d);
        NotDirNoParent(now, d);
      }
    }
    ParentIsDots(now, s);
  }

  lemma RenamedHung(was: seq<View>, now: seq<View>, depth: seq<nat>, p: nat, name: seq<byte>, q: nat, target: seq<byte>, s: nat, k: nat, d: nat)
    requires TreeOk(was, depth) && Renamed(was, now, p, name, q, target, s) && was[s].kind == Directory && s != ROOTINO
    requires Rehung(was, now, s, q) && ParentOf(was, s) == Some(p)
    requires name != DOT && name != DOTDOT && target != DOT && target != DOTDOT
    requires k < |now| && d < |now| && IsDirView(now[k]) && IsDirView(now[d])
    ensures Hung(now, k, d)
  {
    hide DirTiled, Records, DotsIn, KeepsDots, Listing, Inserted, Deleted, Kids, FirstNamed, ParentOf, Ranked, TreeAt, Above;
    assert IsDirView(was[k]) && IsDirView(was[d]) && Hung(was, k, d);
    if k == p {
      KidsAfterDelete(was[p], now[p], name, d);
    } else if k == q {
      KidsAfterInsert(was[q], now[q], Entry(target, s), d);
    } else if k == s {
      RepointedKids(was[s], now[s], s, q, d);
      assert Dotted(was, s);
    }
  }

  /** Renaming ".." changes no name but itself. */
  lemma RepointedKids(was: View, now: View, s: nat, q: nat, d: nat)
    requires Repointed(was.bytes, now.bytes, s, q)
    ensures Kids(now, d) == Kids(was, d)
  {
    hide DirTiled, Records;
    RepointedListing(was.bytes, now.bytes, s, q);
  }

  lemma RepointedListing(was: seq<byte>, now: seq<byte>, s: nat, q: nat)
    requires Repointed(was, now, s, q)
    ensures |Records(was)| >= 2
    ensures var rest := List(Records(was)[2..]);
            && (DotsIn(Records(was), s).Some? ==>
                  Listing(was) == [Entry(DOT, s), Entry(DOTDOT, DotsIn(Records(was), s).value)] + rest)
            && Listing(now) == [Entry(DOT, s), Entry(DOTDOT, q)] + rest
    ensures forall d: nat :: KidsIn(Listing(now), d) == KidsIn(Listing(was), d)
  {
    hide DirTiled, Records, List;
    var a, b := Records(was), Records(now);
    DotsListed(b, s);
    assert b[2..] == a[2..];
    if DotsIn(a, s).Some? {
      DotsListed(a, s);
    }
    forall d: nat ensures KidsIn(Listing(now), d) == KidsIn(Listing(was), d) {
      SecondNoKid(a, b, q, d);
    }
  }

  lemma SecondNoKid(a: seq<Dirent>, b: seq<Dirent>, q: nat, d: nat)
    requires |a| >= 2 && b == a[1 := a[1].(ino := q)] && a[1].name == DOTDOT
    ensures KidsIn(List(b), d) == KidsIn(List(a), d)
  {
    hide List;
    assert a == [a[0]] + ([a[1]] + a[2..]) && b == [a[0]] + ([b[1]] + a[2..]);
    ListConcat([a[0]], [a[1]] + a[2..]);
    ListConcat([a[0]], [b[1]] + a[2..]);
    ListConcat([a[1]], a[2..]);
    ListConcat([b[1]], a[2..]);
    ListOne(a[1]);
    ListOne(b[1]);
    KidsConcat(List([a[0]]), List([a[1]]) + List(a[2..]), d);
    KidsConcat(List([a[0]]), List([b[1]]) + List(a[2..]), d);
    KidsConcat(List([a[1]]), List(a[2..]), d);
    KidsConcat(List([b[1]]), List(a[2..]), d);
    KidsOne(Entry(DOTDOT, a[1].ino), d);
    KidsOne(Entry(DOTDOT, q), d);
  }

  /** The link counts after a rename: the name moved, and for a directory the ".." link with it. */
  lemma RenamedKeepsLinks(was: seq<View>, now: seq<View>, p: nat, name: seq<byte>, q: nat, target: seq<byte>, s: nat)
    requires LinksOk(was) && Renamed(was, now, p, name, q, target, s) && name != DOT && name != DOTDOT
    requires was[s].kind != Unused
    requires was[s].kind == Directory ==> DotsIn(Records(was[s].bytes), s) == Some(p)
    ensures LinksOk(now)
  {
    hide DirTiled, Records, DotsIn, DirOk, Named, Inserted, Deleted, FirstNamed, Listing, KeepsDots, Repointed;
    forall k | 0 <= k < |now| ensures now[k].nlink == Refs(now, k) {
      RenamedRefs(was, now, p, name, q, target, s, k);
    }
    forall k | 0 <= k < |now| && now[k].kind == Directory ensures DirOk(now[k].bytes, k, |now|) {
      RenamedDirOk(was, now, p, name, q, target, s, k);
    }
    NamesItself(now, p);
  }

  lemma RenamedRefs(was: seq<View>, now: seq<View>, p: nat, name: seq<byte>, q: nat, target: seq<byte>, s: nat, k: nat)
    requires LinksOk(was) && Renamed(was, now, p, name, q, target, s) && k < |was|
    requires was[s].kind == Directory ==> DotsIn(Records(was[s].bytes), s) == Some(p)
    ensures now[k].nlink == Refs(now, k)
  {
    hide DirTiled, Records, DotsIn, DirOk, Named, Inserted, Deleted, FirstNamed, Listing, KeepsDots, Repointed, Refs;
    var a := was[q := now[q]];
    var b := a[p := now[p]];
    assert now == b[s := now[s]];
    RefsUpdate(was, q, now[q], k);
    RefsUpdate(a, p, now[p], k);
    RefsUpdate(b, s, now[s], k);
    NamedInserted(was[q], now[q], Entry(target, s), k);
    NamedDeleted(was[p], now[p], name, k);
    if was[s].kind == Directory {
      RepointedNames(was[s], now[s], s, p, q, k);
    }
    assert was[k].nlink == Refs(was, k);
  }

  lemma RepointedNames(was: View, now: View, s: nat, p: nat, q: nat, k: nat)
    requires was.kind == now.kind == Directory && Repointed(was.bytes, now.bytes, s, q) && DotsIn(Records(was.bytes), s) == Some(p)
    ensures Named(now, k) + (if k == p then 1 else 0) == Named(was, k) + if k == q then 1 else 0
  {
    hide DirTiled, Records, DotsIn, List;
    RepointedListing(was.bytes, now.bytes, s, q);
    var rest := List(Records(was.bytes)[2..]);
    CountConcat([Entry(DOT, s), Entry(DOTDOT, p)], rest, k);
    CountConcat([Entry(DOT, s), Entry(DOTDOT, q)], rest, k);
    CountConcat([Entry(DOT, s)], [Entry(DOTDOT, p)], k);
    CountConcat([Entry(DOT, s)], [Entry(DOTDOT, q)], k);
    assert [Entry(DOT, s)] + [Entry(DOTDOT, p)] == [Entry(DOT, s), Entry(DOTDOT, p)];
    assert [Entry(DOT, s)] + [Entry(DOTDOT, q)] == [Entry(DOT, s), Entry(DOTDOT, q)];
    CountOne(Entry(DOTDOT, p), k);
    CountOne(Entry(DOTDOT, q), k);
  }

  lemma RenamedDirOk(was: seq<View>, now: seq<View>, p: nat, name: seq<byte>, q: nat, target: seq<byte>, s: nat, k: nat)
    requires LinksOk(was) && Renamed(was, now, p, name, q, target, s) && k < |was| && now[k].kind == Directory
    requires name != DOT && name != DOTDOT
    requires was[s].kind == Directory ==> DotsIn(Records(was[s].bytes), s) == Some(p)
    ensures DirOk(now[k].bytes, k, |now|)
  {
    hide DirTiled, Records, DotsIn, DirOk, Inserted, Deleted, FirstNamed, List, KeepsDots, Repointed, Refs;
    assert was[k].kind == Directory && DirOk(was[k].bytes, k, |was|);
    if k == q {
      InsertedOk(was[q].bytes, now[q].bytes, Entry(target, s), q, |was|);
    } else if k == p {
      DeletedOk(was[p].bytes, now[p].bytes, name, p, |was|);
    } else if k == s {
      RepointedOk(was[s].bytes, now[s].bytes, s, p, q, |was|);
    }
  }

  lemma RepointedOk(was: seq<byte>, now: seq<byte>, s: nat, p: nat, q: nat, n: nat)
    requires DirOk(was, s, n) && Repointed(was, now, s, q) && q < n && DotsIn(Records(was), s) == Some(p)
    ensures DirOk(now, s, n)
  {
    hide DirTiled, Records, DotsIn, List, FirstNamed;
    RepointedListing(was, now, s, q);
    var a, b := Listing(was), Listing(now);
    assert |a| == |b| && b == a[1 := Entry(DOTDOT, q)] && a[1].name == DOTDOT;
    assert b[0] == Entry(DOT, s) && b[1] == Entry(DOTDOT, q);
    FirstNamedIs(b, DOTDOT);
    assert forall j | 0 <= j < |b| :: b[j].name == a[j].name;
    forall e | e in b ensures e.ino < n {
      var j :| 0 <= j < |b| && b[j] == e;
      assert a[j] in a;
    }
  }
}
