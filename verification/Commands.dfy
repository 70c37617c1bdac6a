/** The commands that make and remove names, and runs of commands. */
module Commands {
  import opened Geometry
  import opened Image
  import opened Alloc
  import opened Room
  import opened Indirect
  import opened FileMap
  import opened Storage
  import opened Mutate
  import opened Tally
  import opened Dirents
  import opened Dirs
  import opened Links
  import opened Tree

  /** Inodes 0 and 1 are marked for good. */
  ghost predicate Aside(g: Geometry, groups: seq<CylGroup>) {
    InUse(g, groups, 0) && InUse(g, groups, 1)
  }

  /** What every command relies on: storage is sound, inodes 0 and 1 are set aside, the link counts
      are right and the directories form a tree. */
  ghost predicate Tidy(g: Geometry, groups: seq<CylGroup>, inodes: seq<Inode>, d: seq<byte>) {
    && Sound(g, groups, inodes, d) && DirGeometry(g) && LinksOk(Views(g, d, inodes)) && Hangs(Views(g, d, inodes))
    && 0 < |inodes| <= 0x1_0000_0000 && Aside(g, groups)
  }

  ghost predicate Ready(img: Image)
    reads img
  {
    img.Valid() && Tidy(img.g, img.groups, img.inodes, img.disk)
  }

  ghost function ViewsOf(img: Image): seq<View>
    reads img
  {
    Views(img.g, img.disk, img.inodes)
  }

  lemma TidyParts(g: Geometry, groups: seq<CylGroup>, inodes: seq<Inode>, d: seq<byte>, p: nat)
    requires Tidy(g, groups, inodes, d) && p < |inodes|
    ensures Sound(g, groups, inodes, d) && DirGeometry(g) && 0 < |inodes| <= 0x1_0000_0000 && Aside(g, groups)
    ensures inodes[p].kind == Directory ==> inodes[p].Shaped() && IsDir(g, d, inodes[p])
    ensures inodes[p].kind == Directory ==> DirOk(FileBytes(g, d, inodes[p]), p, |inodes|)
    ensures Views(g, d, inodes)[p] == ViewOf(g, d, inodes[p])
    ensures Views(g, d, inodes)[p].kind == inodes[p].kind
    ensures inodes[p].kind == Directory ==> Views(g, d, inodes)[p].bytes == FileBytes(g, d, inodes[p])
  {
    hide Superblock.Valid, FileBytes, DirTiled, FileOk, Owned, FreeSet, TooLong, InUse, Listing;
    assert InodeOk(g, d, FreeSet(g, groups), inodes[p]);
    var v := Views(g, d, inodes)[p];
    assert v == ViewOf(g, d, inodes[p]);
    assert v.kind == Directory ==> DirOk(v.bytes, p, |inodes|);
  }

  /** nextufs__insert_dirent for a new inode, undone when the name cannot be stored. */
  method InsertOrDiscard(img: Image, p: nat, name: seq<byte>, i: nat) returns (rc: Rc)
    requires img.Valid() && Sound(img.g, img.groups, img.inodes, img.disk) && DirGeometry(img.g) && NameOk(name)
    requires p < |img.inodes| && IsDir(img.g, img.disk, img.inodes[p])
    requires 0 < i < |img.inodes| <= 0x1_0000_0000 && InUse(img.g, img.groups, i)
    requires img.inodes[i].kind != Unused && img.inodes[i].Shaped() && Disposable(img.inodes[i])
    modifies img`groups, img`csum, img`total, img`disk, img`inodes
    ensures img.Valid() && Sound(img.g, img.groups, img.inodes, img.disk) && |img.inodes| == old(|img.inodes|)
    ensures rc == Ok || rc == NoSpace
    ensures rc == Ok ==> WithEntry(old(ViewsOf(img)), ViewsOf(img), p, Entry(name, i)) && SameInodes(old(img.groups), img.groups)
    ensures rc != Ok ==> ViewsOf(img) == old(ViewsOf(img))[i := GONE]
    ensures rc != Ok ==> img.Free() == old(img.Free()) + old(OwnedBy(img.g, img.disk, img.inodes[i]))
    ensures rc != Ok ==> BitSet(img.g, old(img.groups), img.groups, i, false, old(img.inodes[i].kind) == Directory)
    ensures rc == NoSpace <==> Full(img.g, old(img.groups), old(img.inodes[p]), old(ViewsOf(img))[p].bytes, DirentSize(|name|))
    ensures Carried(img.g, old(img.groups), old(img.inodes), old(img.disk), img.groups, img.inodes, img.disk)
  {
    hide Superblock.Valid, CylGroup.Valid, FileBytes, DirTiled, FreeSet, SameInodes, Sound, Views, WithEntry, BitSet, InUse,
      FileOk, Owned, TooLong, Full, Carried;
    ghost var g0, i0, d0 := img.groups, img.inodes, img.disk;
    SoundSize(img.g, img.groups, img.inodes, img.disk);
    SameInodesCount(img.groups);
    rc := InsertDirent(img, p, name, i);
    if rc != Ok {
      var done := DiscardNewInode(img, i, img.inodes[i]);
      CarriedTwice(img.g, g0, i0, d0, g0, i0, d0, img.groups, img.inodes, img.disk);
      return rc;
    }
    SoundSize(img.g, img.groups, img.inodes, img.disk);
  }

  lemma SameInodesCount(a: seq<CylGroup>)
    ensures forall b | SameInodes(a, b) :: |b| == |a|
  {
  }

  // ---- making names ----

  /** Why a new name is refused before anything is written. */
  ghost function Refusal(views: seq<View>, p: nat, name: seq<byte>): (r: Rc)
    requires p < |views|
    ensures r == Ok || r == Invalid || r == NotDir || r == Exists
  {
    if name == DOT || name == DOTDOT then Invalid
    else if views[p].kind != Directory then NotDir
    else if FirstNamed(Listing(views[p].bytes), name).Some? then Exists
    else Ok
  }

  /** The group in which a new entry's inode is looked for. */
  function Home(g: Geometry, p: nat): nat {
    p / g.inodesPerGroup
  }

  /** How a command that makes an inode and then a name ends, when its inode alone would end as
      `stored`: a directory with room in a direct block takes the name, one at its limit does not,
      and with a whole block to spare nothing else stands in the way. */
  predicate Concludes(rc: Rc, stored: Rc, room: bool, limit: bool, spare: bool) {
    if stored != Ok then rc == stored
    else (rc == Ok || rc == NoSpace) && (room ==> rc == Ok) && (limit ==> rc == NoSpace) && (spare && !limit ==> rc == Ok)
  }

  /** How it ends when its inode takes no fragment. */
  predicate ConcludesBare(rc: Rc, stored: Rc, full: bool) {
    rc == if stored != Ok then stored else if full then NoSpace else Ok
  }

  /** Directory p has a direct block with room for the name. */
  ghost predicate Roomy(g: Geometry, views: seq<View>, p: nat, name: seq<byte>) {
    p < |views| && !NoRoom(DirectPart(g, views[p].bytes), DirentSize(|name|))
  }

  /** Directory p has no direct block with room for the name and cannot grow. */
  ghost predicate Limited(g: Geometry, views: seq<View>, p: nat, name: seq<byte>) {
    p < |views| && AtLimit(g, views[p].bytes, DirentSize(|name|))
  }

  /** Directory p takes no further name. */
  ghost predicate TakesNone(g: Geometry, groups: seq<CylGroup>, ino: Inode, views: seq<View>, p: nat, name: seq<byte>) {
    p < |views| && |groups| == g.ncg && ino.Shaped() && Full(g, groups, ino, views[p].bytes, DirentSize(|name|))
  }

  lemma NameConcludes(g: Geometry, groups: seq<CylGroup>, ino: Inode, views: seq<View>, p: nat, name: seq<byte>, rc: Rc, spare: bool)
    requires p < |views| && ino.Shaped() && ino.size == |views[p].bytes| && DirTiled(views[p].bytes) && DirGeometry(g) && |groups| == g.ncg
    requires rc == if TakesNone(g, groups, ino, views, p, name) then NoSpace else Ok
    requires spare ==> Wholes(g, groups) > 0
    ensures Concludes(rc, Ok, Roomy(g, views, p, name), Limited(g, views, p, name), spare)
  {
    hide Superblock.Valid, DirTiled, AtLimit, Wholes, NoRoom, DirectPart, CannotGrow;
    FullAtLimit(g, groups, ino, views[p].bytes, DirentSize(|name|));
  }

  /** The same free set and inode side leave the same room. */
  lemma SameFull(g: Geometry, a: seq<CylGroup>, b: seq<CylGroup>, ino: Inode, views: seq<View>, p: nat, name: seq<byte>)
    requires SameFreeMaps(a, b)
    ensures TakesNone(g, a, ino, views, p, name) <==> TakesNone(g, b, ino, views, p, name)
  {
    hide Superblock.Valid, NoRoom, DirectPart, GroupFits, FragsOf, BlockSize, Start;
  }

  /** What became of the inode maps and directory counts: an inode left marked, or nothing. */
  ghost predicate Ledger(g: Geometry, ga: seq<CylGroup>, va: seq<View>, gb: seq<CylGroup>, vb: seq<View>, left: bool, i: nat, dir: bool) {
    if left then LeftOne(g, ga, va, gb, vb, i, dir) else Tallied(g, ga, va, gb, vb)
  }

  /** The checks create_file, mkdir, symlink and mknod share. */
  method CheckNewName(img: Image, p: nat, name: seq<byte>) returns (rc: Rc)
    requires Ready(img) && p < |img.inodes|
    ensures rc == Refusal(ViewsOf(img), p, name)
  {
    hide Superblock.Valid, CylGroup.Valid, FileBytes, DirTiled, FreeSet, Tidy, Sound, Views, Listing, FirstNamed, DirOk;
    TidyParts(img.g, img.groups, img.inodes, img.disk, p);
    if name == DOT || name == DOTDOT {
      return Invalid;
    }
    if img.inodes[p].kind != Directory {
      return NotDir;
    }
    var existing := FindName(img, p, name);
    return if existing.Some? then Exists else Ok;
  }

  lemma BitKept(g: Geometry, a: seq<CylGroup>, b: seq<CylGroup>, i: nat, dir: bool)
    requires BitSet(g, a, b, i, true, dir) && !InUse(g, a, i) && Aside(g, a)
    ensures InUse(g, b, i) && Aside(g, b) && i >= ROOTINO
  {
    hide InUse;
  }

  lemma NowTidy(g: Geometry, groups: seq<CylGroup>, inodes: seq<Inode>, d: seq<byte>)
    requires Sound(g, groups, inodes, d) && DirGeometry(g) && LinksOk(Views(g, d, inodes)) && Hangs(Views(g, d, inodes))
    requires 0 < |inodes| <= 0x1_0000_0000 && Aside(g, groups)
    ensures Tidy(g, groups, inodes, d)
  {
    hide Sound, InUse, Views, LinksOk, Hangs;
  }

  lemma LinksWere(g: Geometry, groups: seq<CylGroup>, inodes: seq<Inode>, d: seq<byte>)
    requires Tidy(g, groups, inodes, d)
    ensures LinksOk(Views(g, d, inodes)) && Hangs(Views(g, d, inodes))
  {
    hide LinksOk, Hangs;
  }

  /** The inode of a new file or node is in place; now its name. Either the name is there too, or
      everything is as before the inode was made. */
  method AddName(img: Image, p: nat, name: seq<byte>, i: nat, v: View, ghost was: seq<View>, ghost groups: seq<CylGroup>,
                 ghost inodes: seq<Inode>, ghost disk: seq<byte>) returns (rc: Rc)
    requires img.Valid() && Sound(img.g, img.groups, img.inodes, img.disk) && DirGeometry(img.g) && NameOk(name)
    requires LinksOk(was) && Hangs(was) && p < |was| && Refusal(was, p, name) == Ok
    requires ROOTINO <= i < |was| && was[i] == GONE && ViewsOf(img) == was[i := v] && v.kind != Directory && v.kind != Unused && v.nlink == 1
    requires |img.inodes| <= 0x1_0000_0000 && Aside(img.g, groups) && !InUse(img.g, groups, i) && BitSet(img.g, groups, img.groups, i, true, false)
    requires img.inodes[i].Shaped() && Disposable(img.inodes[i])
    requires OwnedBy(img.g, img.disk, img.inodes[i]) <= FreeSet(img.g, groups)
    requires img.Free() == FreeSet(img.g, groups) - OwnedBy(img.g, img.disk, img.inodes[i])
    requires Carried(img.g, groups, inodes, disk, img.groups, img.inodes, img.disk)
    modifies img`groups, img`csum, img`total, img`disk, img`inodes
    ensures Ready(img)
    ensures rc == Ok || rc == NoSpace
    ensures Concludes(rc, Ok, Roomy(img.g, was, p, name), Limited(img.g, was, p, name), Wholes(img.g, old(img.groups)) > 0)
    ensures ConcludesBare(rc, Ok, TakesNone(img.g, old(img.groups), old(img.inodes[p]), was, p, name))
    ensures rc == Ok ==> Created(was, ViewsOf(img), p, i, v, name)
    ensures rc != Ok ==> ViewsOf(img) == was && img.Free() == FreeSet(img.g, groups) && SameMarks(img.g, groups, img.groups)
    ensures Tallied(img.g, groups, was, img.groups, ViewsOf(img))
    ensures Carried(img.g, groups, inodes, disk, img.groups, img.inodes, img.disk)
  {
    hide Carried, Hangs, Superblock.Valid, CylGroup.Valid, FileBytes, DirTiled, FreeSet, SameInodes, Sound, Views, InUse, BitSet,
      FileOk, Owned, TooLong, Full, Listing, DirOk, Named, Inserted, FirstNamed, Tidy, LinksOk, OwnedBy, Wholes, Concludes, AtLimit, Tallied, Roomy, Limited;
    ghost var mid, g0, d0, n0 := img.groups, img.groups, img.disk, img.inodes;
    ViewsAt(img.g, img.disk, img.inodes);
    BitKept(img.g, groups, mid, i, false);
    SoundAt(img.g, img.groups, img.inodes, img.disk, p);
    LinkedDir(img.g, img.disk, img.inodes, was, p, i, v);
    rc := InsertOrDiscard(img, p, name, i);
    NameConcludes(img.g, g0, n0[p], was, p, name, rc, Wholes(img.g, g0) > 0);
    CarriedTwice(img.g, groups, inodes, disk, g0, n0, d0, img.groups, img.inodes, img.disk);
    if rc == Ok {
      InUseKept(img.g, mid, img.groups);
      CreatedKeepsLinks(was, ViewsOf(img), p, i, v, name);
      CreatedKeepsTree(was, ViewsOf(img), p, i, v, name);
      BitSetThen(img.g, groups, mid, img.groups, i, true, false);
      CreatedTallied(img.g, groups, was, img.groups, ViewsOf(img), p, i, v, name);
    } else {
      MarkUndone(img.g, groups, mid, img.groups, i, false);
      assert was[i := v][i := GONE] == was;
      TalliedMarks(img.g, groups, was, img.groups, was);
    }
    NowTidy(img.g, img.groups, img.inodes, img.disk);
  }

  /** A new inode is marked for what it is. */
  lemma CreatedTallied(g: Geometry, ga: seq<CylGroup>, was: seq<View>, gb: seq<CylGroup>, now: seq<View>, p: nat, i: nat, v: View, name: seq<byte>)
    requires Created(was, now, p, i, v, name) && BitSet(g, ga, gb, i, true, v.kind == Directory) && !InUse(g, ga, i)
    ensures Tallied(g, ga, was, gb, now)
  {
    hide BitSet, InUse, Tallied, DirTiled, Listing, Records, Inserted, FirstNamed, KeepsDots;
    TalliedOne(g, ga, was, gb, now, i, true, v.kind == Directory);
  }

  /** A directory other than the new inode is as listed before. */
  lemma LinkedDir(g: Geometry, d: seq<byte>, inodes: seq<Inode>, was: seq<View>, p: nat, i: nat, v: View)
    requires p < |was| && i < |was| && LinksOk(was) && was[p].kind == Directory && was[i] == GONE
    requires Views(g, d, inodes) == was[i := v] && inodes[p].Shaped()
    ensures p != i && IsDir(g, d, inodes[p]) && FileBytes(g, d, inodes[p]) == was[p].bytes
    ensures inodes[p].size == |was[p].bytes| && DirTiled(was[p].bytes)
  {
    hide Superblock.Valid, FileBytes, DirTiled, Listing;
    assert Views(g, d, inodes)[p] == ViewOf(g, d, inodes[p]);
    assert DirOk(was[p].bytes, p, |was|);
  }

  lemma GroupOfInode(p: nat, n: nat, m: pos)
    requires p < n * m
    ensures p / m < n
  {
    var q := p / m;
    DivBounds(p, m);
    MulMonotone(n, q, m);
  }

  lemma MulMonotone(a: nat, b: nat, m: nat)
    ensures a <= b ==> a * m <= b * m
  {
  }

  lemma SameMarksRefl(g: Geometry, groups: seq<CylGroup>)
    ensures SameMarks(g, groups, groups)
  {
  }

  lemma StoredStrandsNot(g: Geometry, groups: seq<CylGroup>, c: nat, size: nat)
    requires NewFileRc(g, groups, c, size) == Ok
    ensures !Strands(g, groups, c, size)
  {
    hide TooLong, Wholes;
  }

  /** nextufs_path_create_file, on a resolved parent. */
  method CreateFile(img: Image, p: nat, name: seq<byte>, data: seq<byte>) returns (rc: Rc, i: nat)
    requires Ready(img) && p < |img.inodes| && NameOk(name)
    modifies img`groups, img`csum, img`total, img`disk, img`inodes
    ensures Ready(img)
    ensures var refusal, stored := old(Refusal(ViewsOf(img), p, name)), NewFileRc(img.g, old(img.groups), Home(img.g, p), |data|);
            if refusal != Ok then rc == refusal
            else Concludes(rc, stored, Roomy(img.g, old(ViewsOf(img)), p, name), Limited(img.g, old(ViewsOf(img)), p, name),
                           Asked(img.g, Blocks(img.g, |data|)) < Wholes(img.g, old(img.groups)))
                 && (data == [] ==> ConcludesBare(rc, stored, TakesNone(img.g, old(img.groups), old(img.inodes[p]), old(ViewsOf(img)), p, name)))
    ensures rc == Ok ==> Created(old(ViewsOf(img)), ViewsOf(img), p, i, View(Regular, 1, data), name)
    ensures rc != Ok ==> ViewsOf(img) == old(ViewsOf(img)) && img.Free() == old(img.Free())
    ensures rc != Ok ==>
      (SameMarks(img.g, old(img.groups), img.groups)
       <==> !(old(Refusal(ViewsOf(img), p, name)) == Ok && Strands(img.g, old(img.groups), Home(img.g, p), |data|)))
    ensures Ledger(img.g, old(img.groups), old(ViewsOf(img)), img.groups, ViewsOf(img),
                   old(Refusal(ViewsOf(img), p, name)) == Ok && Strands(img.g, old(img.groups), Home(img.g, p), |data|), i, false)
    ensures Carried(img.g, old(img.groups), old(img.inodes), old(img.disk), img.groups, img.inodes, img.disk)
  {
    hide Carried, Hangs, Superblock.Valid, CylGroup.Valid, FileBytes, DirTiled, FreeSet, SameInodes, Sound, Views, InUse, BitSet,
      FileOk, Owned, TooLong, Full, Listing, DirOk, FirstNamed, LinksOk, OwnedBy, Tidy, Created, Refusal, Dense, Wholes, Asked, Blocks,
      NewFileRc, Limited, Roomy, TakesNone, Strands, Compact, Tallied, LeftOne;
    SameMarksRefl(img.g, img.groups);
    CarriedNothing(img.g, img.groups, img.inodes, img.disk);
    TalliedNothing(img.g, img.groups, ViewsOf(img));
    i := 0;
    TidyParts(img.g, img.groups, img.inodes, img.disk, p);
    LinksWere(img.g, img.groups, img.inodes, img.disk);
    rc := CheckNewName(img, p, name);
    if rc != Ok {
      return;
    }
    ghost var was, groups, inodes, disk := ViewsOf(img), img.groups, img.inodes, img.disk;
    ViewsAt(img.g, img.disk, img.inodes);
    SoundSize(img.g, img.groups, img.inodes, img.disk);
    GroupOfInode(p, img.g.ncg, img.g.inodesPerGroup);
    rc, i := NewFile(img, p / img.g.inodesPerGroup, Regular, data);
    if rc != Ok {
      NotMade(img.g, groups, was, img.groups, i, Strands(img.g, groups, Home(img.g, p), |data|));
      NowTidy(img.g, img.groups, img.inodes, img.disk);
      return;
    }
    StoredStrandsNot(img.g, groups, Home(img.g, p), |data|);
    BitKept(img.g, groups, img.groups, i, false);
    NotInodeZero(was, p, name);
    UnusedIsGone(img.g, disk, inodes, i);
    assert img.inodes[p] == inodes[p];
    if data == [] { SameFull(img.g, groups, img.groups, inodes[p], was, p, name); }
    rc := AddName(img, p, name, i, View(Regular, 1, data), was, groups, inodes, disk);
  }

  /** A file that was not made leaves nothing, or its mark. */
  lemma NotMade(g: Geometry, ga: seq<CylGroup>, was: seq<View>, gb: seq<CylGroup>, i: nat, left: bool)
    requires SameDirs(ga, gb) && Aside(g, ga)
    requires if left then i < |was| && was[i].kind == Unused && !InUse(g, ga, i) && BitSet(g, ga, gb, i, true, false)
             else SameMarks(g, ga, gb)
    ensures Ledger(g, ga, was, gb, was, left, i, false)
  {
    hide InUse, BitSet, LeftOne, Tallied;
    if left {
      assert i >= ROOTINO;
      LeftMarked(g, ga, was, gb, was, i, false);
    } else {
      TalliedMarks(g, ga, was, gb, was);
    }
  }

  /** Stores an inode that owns no fragments. */
  method StoreBare(img: Image, i: nat, ino: Inode)
    requires img.Valid() && Sound(img.g, img.groups, img.inodes, img.disk) && i < |img.inodes|
    requires img.inodes[i].kind == Unused && InUse(img.g, img.groups, i) && ino.kind != Unused
    requires ino.Shaped() && (HasStorage(ino) ==> Blank(ino) && ino.size == 0 && ino.blocks == 0)
    requires (ino.fast || ino.kind == Special ==> Kept(img.g, img.disk, ino))
    modifies img`inodes
    ensures img.Valid() && Sound(img.g, img.groups, img.inodes, img.disk)
    ensures img.inodes == old(img.inodes)[i := ino] && OwnedBy(img.g, img.disk, ino) == {}
    ensures ViewsOf(img) == old(ViewsOf(img))[i := ViewOf(img.g, img.disk, ino)]
    ensures Carried(img.g, img.groups, old(img.inodes), img.disk, img.groups, img.inodes, img.disk)
  {
    hide Superblock.Valid, CylGroup.Valid, FileBytes, FreeSet, Sound, Views, InUse, FileOk, Owned, TooLong, SameInodes, Carried, Compact;
    if HasStorage(ino) { BlankCompact(img.g, img.disk, ino); }
    ghost var inodes := img.inodes;
    NothingOwned(img.g, img.disk, ino);
    NoSectors(img.g, img.disk, ino);
    SameInodesRefl(img.groups);
    OnlyWroteNothing(img.g, img.disk);
    img.inodes := img.inodes[i := ino];
    StoredNew(img.g, img.groups, inodes, img.disk, img.groups, img.disk, i, ino);
  }

  lemma BlankCompact(g: Geometry, d: seq<byte>, ino: Inode)
    requires Blank(ino) && ino.size == 0
    ensures Compact(g, d, ino)
  {
    hide Superblock.Valid, Snug, Start;
    BlankSnug(g, d, ino);
    BlocksIs(g, 0, 0);
  }

  lemma NoSectors(g: Geometry, d: seq<byte>, ino: Inode)
    requires ino.Shaped()
    ensures Owned(g, d, ino) == {} && ino.blocks == 0 ==> CountsOwned(g, d, ino)
  {
    hide Owned;
  }

  lemma OnlyWroteNothing(g: Geometry, d: seq<byte>)
    ensures OnlyWrote(g, d, d, {})
  {
  }

  /** A new inode that owns no fragments: an empty file, a node, or a symlink whose text fits the
      pointer fields. */
  method NewBare(img: Image, c: nat, ino: Inode) returns (rc: Rc, i: nat)
    requires img.Valid() && Sound(img.g, img.groups, img.inodes, img.disk) && c < img.g.ncg && Aside(img.g, img.groups)
    requires ino.Shaped() && (HasStorage(ino) ==> Blank(ino) && ino.size == 0 && ino.blocks == 0)
    requires ino.kind != Unused && (ino.fast || ino.kind == Special ==> Kept(img.g, img.disk, ino))
    modifies img`groups, img`csum, img`total, img`inodes
    ensures img.Valid() && Sound(img.g, img.groups, img.inodes, img.disk)
    ensures rc == if InodeLeft(old(img.groups), c) then Ok else NoSpace
    ensures img.Free() == old(img.Free()) && Wholes(img.g, img.groups) == Wholes(img.g, old(img.groups))
    ensures rc != Ok ==> img.groups == old(img.groups) && img.inodes == old(img.inodes)
    ensures rc == Ok ==> i < |img.inodes| == |old(img.inodes)| && img.inodes == old(img.inodes)[i := ino] && old(ViewsOf(img))[i] == GONE
    ensures rc == Ok ==> !InUse(img.g, old(img.groups), i) && BitSet(img.g, old(img.groups), img.groups, i, true, ino.kind == Directory)
    ensures SameFreeMaps(old(img.groups), img.groups)
    ensures rc == Ok ==> ViewsOf(img) == old(ViewsOf(img))[i := ViewOf(img.g, img.disk, ino)] && OwnedBy(img.g, img.disk, ino) == {}
    ensures Carried(img.g, old(img.groups), old(img.inodes), img.disk, img.groups, img.inodes, img.disk)
  {
    hide Carried, Superblock.Valid, CylGroup.Valid, FreeSet, Sound, Views, InUse, BitSet, FileOk, Owned, TooLong, InlineText, OwnedBy, FileBytes,
      Wholes, Kept, Aside;
    ghost var groups, inodes := img.groups, img.inodes;
    rc, i := NewInode(img, c, ino.kind);
    if rc == Ok { UnusedIsGone(img.g, img.disk, inodes, i); }
    SameWholes(img.g, groups, img.groups);
    CarriedFree(img.g, groups, img.inodes, img.disk, img.groups);
    if rc == Ok {
      BitKept(img.g, groups, img.groups, i, ino.kind == Directory);
      ghost var mid := img.groups;
      StoreBare(img, i, ino);
      CarriedTwice(img.g, groups, inodes, img.disk, mid, inodes, img.disk, img.groups, img.inodes, img.disk);
    }
  }

  /** An inode with a short text in its pointer fields. */
  function InlineLink(target: seq<byte>): (ino: Inode)
    requires |target| <= INLINE_MAX
    ensures ino.Shaped() && ino.fast && ino.kind == Symlink && ino.nlink == 1 && ino.size == |target| && Disposable(ino)
  {
    StoreInline(CLEARED.(kind := Kind.Symlink, nlink := 1, size := |target|, fast := true), target)
  }

  lemma InlineView(g: Geometry, d: seq<byte>, target: seq<byte>)
    requires |target| <= INLINE_MAX
    ensures ViewOf(g, d, InlineLink(target)) == View(Kind.Symlink, 1, target) && Kept(g, d, InlineLink(target))
  {
    hide Superblock.Valid, InlineText, FileBytes;
  }

  /** An empty file, or a node whose device number sits in the first direct pointer. */
  function NodeInode(kind: Kind, dev: nat): (ino: Inode)
    ensures ino.Shaped() && !ino.fast && ino.kind == kind && ino.nlink == 1
    ensures kind == Regular || kind == Special ==> Disposable(ino)
  {
    CLEARED.(kind := kind, nlink := 1, db := if kind == Special then NO_BLOCKS[0 := dev] else NO_BLOCKS)
  }

  lemma NodeView(g: Geometry, d: seq<byte>, kind: Kind, dev: nat)
    requires kind == Regular || kind == Special
    ensures ViewOf(g, d, NodeInode(kind, dev)) == View(kind, 1, []) && (kind == Special ==> Kept(g, d, NodeInode(kind, dev)))
    ensures HasStorage(NodeInode(kind, dev)) ==> Blank(NodeInode(kind, dev)) && NodeInode(kind, dev).size == 0 && NodeInode(kind, dev).blocks == 0
  {
    hide Superblock.Valid, InlineText;
    assert kind == Regular ==> |FileBytes(g, d, NodeInode(kind, dev))| == 0;
  }

  /** How making a symlink's inode ends, and the whole blocks it takes at most. */
  ghost function SymlinkRc(g: Geometry, groups: seq<CylGroup>, c: nat, size: nat): Rc {
    if size > INLINE_MAX then NewFileRc(g, groups, c, size) else if InodeLeft(groups, c) then Ok else NoSpace
  }

  ghost function SymlinkBlocks(g: Geometry, size: nat): nat {
    if size > INLINE_MAX then Asked(g, Blocks(g, size)) else 0
  }

  /** nextufs_path_symlink: a text of up to 60 bytes lives in the inode. */
  method MakeSymlink(img: Image, p: nat, name: seq<byte>, target: seq<byte>) returns (rc: Rc, i: nat)
    requires Ready(img) && p < |img.inodes| && NameOk(name)
    modifies img`groups, img`csum, img`total, img`disk, img`inodes
    ensures Ready(img)
    ensures var refusal, stored := old(Refusal(ViewsOf(img), p, name)), SymlinkRc(img.g, old(img.groups), Home(img.g, p), |target|);
            if refusal != Ok then rc == refusal
            else Concludes(rc, stored, Roomy(img.g, old(ViewsOf(img)), p, name), Limited(img.g, old(ViewsOf(img)), p, name),
                           SymlinkBlocks(img.g, |target|) < Wholes(img.g, old(img.groups)))
                 && (|target| <= INLINE_MAX ==>
                       ConcludesBare(rc, stored, TakesNone(img.g, old(img.groups), old(img.inodes[p]), old(ViewsOf(img)), p, name)))
    ensures rc == Ok ==> Created(old(ViewsOf(img)), ViewsOf(img), p, i, View(Kind.Symlink, 1, target), name)
    ensures rc != Ok ==> ViewsOf(img) == old(ViewsOf(img)) && img.Free() == old(img.Free())
    ensures rc != Ok ==>
      (SameMarks(img.g, old(img.groups), img.groups)
       <==> !(old(Refusal(ViewsOf(img), p, name)) == Ok && |target| > INLINE_MAX
              && Strands(img.g, old(img.groups), Home(img.g, p), |target|)))
    ensures Ledger(img.g, old(img.groups), old(ViewsOf(img)), img.groups, ViewsOf(img),
                   old(Refusal(ViewsOf(img), p, name)) == Ok && |target| > INLINE_MAX
                   && Strands(img.g, old(img.groups), Home(img.g, p), |target|), i, false)
    ensures Carried(img.g, old(img.groups), old(img.inodes), old(img.disk), img.groups, img.inodes, img.disk)
  {
    hide Carried, Hangs, Superblock.Valid, CylGroup.Valid, FileBytes, DirTiled, FreeSet, SameInodes, Sound, Views, InUse, BitSet,
      FileOk, Owned, TooLong, Full, Listing, DirOk, FirstNamed, LinksOk, Tidy, Created, Refusal, Dense, InlineText, InlineLink, ViewOf, OwnedBy,
      Wholes, Asked, Blocks, NewFileRc, Limited, Roomy, TakesNone, Strands, Compact, Tallied, LeftOne, Padded, Kept;
    SameMarksRefl(img.g, img.groups);
    CarriedNothing(img.g, img.groups, img.inodes, img.disk);
    TalliedNothing(img.g, img.groups, ViewsOf(img));
    i := 0;
    TidyParts(img.g, img.groups, img.inodes, img.disk, p);
    LinksWere(img.g, img.groups, img.inodes, img.disk);
    rc := CheckNewName(img, p, name);
    if rc != Ok {
      return;
    }
    ghost var was, groups, inodes, disk := ViewsOf(img), img.groups, img.inodes, img.disk;
    ViewsAt(img.g, img.disk, img.inodes);
    SoundSize(img.g, img.groups, img.inodes, img.disk);
    GroupOfInode(p, img.g.ncg, img.g.inodesPerGroup);
    if |target| <= INLINE_MAX {
      InlineView(img.g, img.disk, target);
      rc, i := NewBare(img, p / img.g.inodesPerGroup, InlineLink(target));
      SameFull(img.g, groups, img.groups, inodes[p], was, p, name);
      if rc != Ok {
        NowTidy(img.g, img.groups, img.inodes, img.disk);
        return;
      }
    } else {
      rc, i := NewFile(img, p / img.g.inodesPerGroup, Kind.Symlink, target);
      if rc != Ok {
        if Strands(img.g, groups, Home(img.g, p), |target|) { UnusedIsGone(img.g, disk, inodes, i); }
        NotMade(img.g, groups, was, img.groups, i, Strands(img.g, groups, Home(img.g, p), |target|));
        NowTidy(img.g, img.groups, img.inodes, img.disk);
        return;
      }
      UnusedIsGone(img.g, disk, inodes, i);
      StoredStrandsNot(img.g, groups, Home(img.g, p), |target|);
    }
    NotInodeZero(was, p, name);
    assert was[i] == GONE && img.inodes[p] == inodes[p];
    BitKept(img.g, groups, img.groups, i, false);
    rc := AddName(img, p, name, i, View(Kind.Symlink, 1, target), was, groups, inodes, disk);
  }

  /** nextufs_path_mknod: an empty file or a special node; a device number sits in the first
      direct pointer without naming a fragment. */
  method MakeNode(img: Image, p: nat, name: seq<byte>, kind: Kind, dev: nat) returns (rc: Rc, i: nat)
    requires Ready(img) && p < |img.inodes| && NameOk(name)
    modifies img`groups, img`csum, img`total, img`disk, img`inodes
    ensures Ready(img)
    ensures var refusal := if kind != Regular && kind != Special then Invalid else old(Refusal(ViewsOf(img), p, name));
            if refusal != Ok then rc == refusal
            else ConcludesBare(rc, if InodeLeft(old(img.groups), Home(img.g, p)) then Ok else NoSpace,
                               TakesNone(img.g, old(img.groups), old(img.inodes[p]), old(ViewsOf(img)), p, name))
    ensures rc == Ok ==> Created(old(ViewsOf(img)), ViewsOf(img), p, i, View(kind, 1, []), name)
    ensures rc != Ok ==> ViewsOf(img) == old(ViewsOf(img)) && img.Free() == old(img.Free())
    ensures rc != Ok ==> SameMarks(img.g, old(img.groups), img.groups)
    ensures Tallied(img.g, old(img.groups), old(ViewsOf(img)), img.groups, ViewsOf(img))
    ensures Carried(img.g, old(img.groups), old(img.inodes), old(img.disk), img.groups, img.inodes, img.disk)
  {
    hide Carried, Hangs, Superblock.Valid, CylGroup.Valid, DirTiled, FileBytes, FreeSet, SameInodes, Sound, Views, InUse, BitSet,
      FileOk, Owned, TooLong, Full, Listing, DirOk, FirstNamed, LinksOk, Tidy, Created, Refusal, InlineText, OwnedBy, Wholes, Limited, Roomy,
      TakesNone, NodeInode, ViewOf, Kept, Tallied, InodeLeft, CountsOwned, Aside, InodeSide, SameMarks, SameDirs;
    SameMarksRefl(img.g, img.groups);
    CarriedNothing(img.g, img.groups, img.inodes, img.disk);
    TalliedNothing(img.g, img.groups, ViewsOf(img));
    i := 0;
    if kind != Regular && kind != Special {
      return Invalid, 0;
    }
    TidyParts(img.g, img.groups, img.inodes, img.disk, p);
    LinksWere(img.g, img.groups, img.inodes, img.disk);
    rc := CheckNewName(img, p, name);
    if rc != Ok {
      return;
    }
    ghost var was, groups, inodes, disk := ViewsOf(img), img.groups, img.inodes, img.disk;
    ViewsAt(img.g, img.disk, img.inodes);
    SoundSize(img.g, img.groups, img.inodes, img.disk);
    GroupOfInode(p, img.g.ncg, img.g.inodesPerGroup);
    NodeView(img.g, img.disk, kind, dev);
    rc, i := NewBare(img, p / img.g.inodesPerGroup, NodeInode(kind, dev));
    if rc != Ok {
      NowTidy(img.g, img.groups, img.inodes, img.disk);
      return;
    }
    SameFull(img.g, groups, img.groups, inodes[p], was, p, name);
    NotInodeZero(was, p, name);
    assert img.inodes[p] == inodes[p];
    BitKept(img.g, groups, img.groups, i, false);
    rc := AddName(img, p, name, i, View(kind, 1, []), was, groups, inodes, disk);
  }

  /** nextufs__write_new_directory_block: "." and "..", the second taking the rest of the block. */
  function NewDirBlock(self: nat, parent: nat): (bs: seq<byte>)
    requires self < 0x1_0000_0000 && parent < 0x1_0000_0000
    ensures |bs| == DIRBLKSIZ
  {
    DirentRaw(Dirent(self, DirentSize(1), DOT)) + DirentRaw(Dirent(parent, DIRBLKSIZ - DirentSize(1), DOTDOT))
  }

  lemma NewDirLists(self: nat, parent: nat)
    requires 0 < self < 0x1_0000_0000 && 0 < parent < 0x1_0000_0000
    ensures DirTiled(NewDirBlock(self, parent)) && Kempt(NewDirBlock(self, parent))
    ensures Listing(NewDirBlock(self, parent)) == [Entry(DOT, self), Entry(DOTDOT, parent)]
    ensures DotsIn(Records(NewDirBlock(self, parent)), self) == Some(parent)
  {
    hide Tiled, Records, DirentRaw, List, DirTiled, Kempt;
    var a, b := Dirent(self, DirentSize(1), DOT), Dirent(parent, DIRBLKSIZ - DirentSize(1), DOTDOT);
    RawRecord(a);
    RawRecord(b);
    KemptRaw(a);
    KemptRaw(b);
    TiledConcat(DirentRaw(a), DirentRaw(b));
    KemptConcat(DirentRaw(a), DirentRaw(b));
    OneDirblk(NewDirBlock(self, parent));
    ListConcat([a], [b]);
    ListOne(a);
    ListOne(b);
  }

  /** A directory of one block in one fragment. */
  function OneFragDir(g: Geometry, frag: nat): Inode {
    Inode(Directory, 2, DIRBLKSIZ, NO_BLOCKS[0 := frag], NO_INDIRECT, false, g.spf)
  }

  lemma OneFragFile(g: Geometry, d: seq<byte>, e: seq<byte>, frag: nat, bs: seq<byte>)
    requires |d| == |e| == g.Off(g.fragCount) && Placed(g, frag, 1) && DirGeometry(g) && |bs| == DIRBLKSIZ <= |Bytes(g, d, frag, 1)|
    requires Bytes(g, e, frag, 1) == Splice(Bytes(g, d, frag, 1), 0, bs)
    ensures var ino := OneFragDir(g, frag);
            && ino.Shaped() && FileOk(g, e, ino) && !TooLong(g, ino.size) && CountsOwned(g, e, ino)
            && Owned(g, e, ino) == Run(frag, 1) && FileBytes(g, e, ino) == bs
  {
    hide Superblock.Valid, Superblock.Off, Ptr, Blocks, Start, BlockSize, Chunk, InodeMeta, InodeSeparate, Covers, Run, TooLong, Bytes, Placed, FragsOf, Apart, FileBytes, FileOk, Owned, CountsOwned;
    var ino, blank := OneFragDir(g, frag), CLEARED.(kind := Directory, nlink := 2);
    NothingOwned(g, e, blank);
    NoSectors(g, e, blank);
    PlacedNonZero(g, frag, 1);
    BytesFit(g, e, frag, 1);
    SpliceParts(Bytes(g, d, frag, 1), 0, bs);
    BlankGrows(g, e, blank, frag, bs);
    assert FileBytes(g, e, blank) + bs == bs;
    GrownFile(g, e, Run(frag, 1), blank, e, {}, ino, Extent(0, 0), Extent(frag, 1), bs);
    GrownBytes(g, e, Run(frag, 1), blank, e, {}, ino, Extent(0, 0), Extent(frag, 1), bs);
  }

  /** A new directory is an empty one that grew into its first fragment. */
  lemma BlankGrows(g: Geometry, e: seq<byte>, blank: Inode, frag: nat, bs: seq<byte>)
    requires blank == CLEARED.(kind := Directory, nlink := 2) && Placed(g, frag, 1) && DirGeometry(g)
    requires |bs| == DIRBLKSIZ <= |Bytes(g, e, frag, 1)| && Bytes(g, e, frag, 1)[0..DIRBLKSIZ] == bs
    ensures GrownTo(g, e, Run(frag, 1), blank, e, {}, OneFragDir(g, frag), Extent(0, 0), Extent(frag, 1), bs)
  {
    hide Superblock.Valid, Superblock.Off, BlockSize, Run, Bytes, Placed, FragsOf, Start;
    StartNext(g, 0);
    AtZero(g);
    OneFragHolds(g);
    OneSector(g);
    NothingMoved(g, e, frag);
  }

  lemma AtZero(g: Geometry)
    ensures LbOf(g, 0) == 0
  {
    LbUnique(g, 0, 0);
  }

  lemma OneSector(g: Geometry)
    ensures Sectors(g, 0, 1) == g.spf
  {
  }

  lemma NothingMoved(g: Geometry, e: seq<byte>, frag: nat)
    requires Placed(g, frag, 1)
    ensures Moved(g, e, Run(frag, 1), Extent(0, 0), e, {}, Extent(frag, 1), 0)
  {
    hide Superblock.Valid, Placed, Bytes;
    assert Run(0, 0) == {};
  }


  /** The directory half of mkdir: a fragment, the two dot entries, the inode. */
  method StoreNewDir(img: Image, p: nat, i: nat) returns (rc: Rc)
    requires img.Valid() && Sound(img.g, img.groups, img.inodes, img.disk) && DirGeometry(img.g)
    requires 0 < i < |img.inodes| <= 0x1_0000_0000 && 0 < p < |img.inodes|
    requires img.inodes[i].kind == Unused && InUse(img.g, img.groups, i)
    modifies img`groups, img`csum, img`total, img`disk, img`inodes
    ensures img.Valid() && Sound(img.g, img.groups, img.inodes, img.disk) && SameInodes(old(img.groups), img.groups)
    ensures rc == if CanHave(img.g, old(img.groups), 1) then Ok else NoSpace
    ensures rc == Ok ==> Wholes(img.g, img.groups) + 1 >= Wholes(img.g, old(img.groups))
    ensures rc != Ok ==> img.groups == old(img.groups) && img.inodes == old(img.inodes) && img.disk == old(img.disk)
    ensures rc == Ok ==> |img.inodes| == |old(img.inodes)| && img.inodes[i].kind == Directory && img.inodes[i].Shaped()
    ensures rc == Ok ==> ViewsOf(img) == old(ViewsOf(img))[i := View(Directory, 2, NewDirBlock(i, p))]
    ensures rc == Ok ==> OwnedBy(img.g, img.disk, img.inodes[i]) <= old(img.Free())
    ensures rc == Ok ==> img.Free() == old(img.Free()) - OwnedBy(img.g, img.disk, img.inodes[i])
    ensures Carried(img.g, old(img.groups), old(img.inodes), old(img.disk), img.groups, img.inodes, img.disk)
  {
    hide Carried, Kept, Superblock.Valid, CylGroup.Valid, FreeSet, SameInodes, Sound, Views, InUse, Superblock.Off,
      FileOk, Owned, TooLong, GroupFits, FileBytes, NewDirBlock, Run, Bytes, Placed, Allotted, Splice, OnlyWrote, CountsOwned,
      CanHave, Wholes, Spent;
    ghost var groups, inodes, d := img.groups, img.inodes, img.disk;
    var frag;
    ghost var c, block;
    NoneFits(img.g, groups, 1);
    CarriedNothing(img.g, groups, inodes, d);
    rc, frag, c, block := AllocateFragsAnyCg(img, i / img.g.inodesPerGroup, 1);
    if rc != Ok {
      return;
    }
    FragPaid(img.g, groups, img.groups, c, block, frag);
    PlacedNonZero(img.g, frag, 1);
    BytesFit(img.g, img.disk, frag, 1);
    FragHoldsDirblk(img.g);
    img.WriteExact(frag, 1, 0, NewDirBlock(i, p));
    OnlyWroteSize(img.g, d, img.disk, Run(frag, 1));
    OneFragFile(img.g, d, img.disk, frag, NewDirBlock(i, p));
    img.inodes := img.inodes[i := OneFragDir(img.g, frag)];
    OneFragKept(img.g, img.disk, frag);
    StoredNew(img.g, groups, inodes, d, img.groups, img.disk, i, OneFragDir(img.g, frag));
  }

  lemma OneFragKept(g: Geometry, d: seq<byte>, frag: nat)
    requires frag != 0 && DirGeometry(g)
    ensures Kept(g, d, OneFragDir(g, frag))
  {
    hide Superblock.Valid, Snug, Start, BlockSize, Blocks;
    var blank := CLEARED.(kind := Directory);
    BlankSnug(g, d, blank);
    SnugDirect(g, d, blank, 0, frag);
    SnugFields(g, d, blank.(db := NO_BLOCKS[0 := frag]), OneFragDir(g, frag), 1);
    StartNext(g, 0);
    AtZero(g);
    GrownBlocks(g, 0);
  }

  lemma FragPaid(g: Geometry, was: seq<CylGroup>, now: seq<CylGroup>, c: nat, block: nat, frag: nat)
    requires |was| == g.ncg && c < g.ncg && was[c].Valid(g, c) && Allotted(g, was, now, c, block, frag, 1)
    ensures Wholes(g, now) + 1 >= Wholes(g, was)
  {
    hide Superblock.Valid, Allotted, Wholes;
    GroupParts(g, was[c], c);
    AtMostOne(g, was, now, c, block, frag, 1);
  }

  lemma FragHoldsDirblk(g: Geometry)
    requires DirGeometry(g)
    ensures DIRBLKSIZ <= g.Off(1)
  {
  }

  /** The name half of mkdir, and the parent's new link. */
  method AddDirName(img: Image, p: nat, name: seq<byte>, i: nat, ghost was: seq<View>, ghost groups: seq<CylGroup>,
                    ghost inodes: seq<Inode>, ghost disk: seq<byte>) returns (rc: Rc)
    requires img.Valid() && Sound(img.g, img.groups, img.inodes, img.disk) && DirGeometry(img.g) && NameOk(name)
    requires LinksOk(was) && Hangs(was) && 0 < p < |was| && Refusal(was, p, name) == Ok
    requires ROOTINO <= i < |was| <= 0x1_0000_0000 && was[i] == GONE && ViewsOf(img) == was[i := View(Directory, 2, NewDirBlock(i, p))]
    requires |img.inodes| <= 0x1_0000_0000 && Aside(img.g, groups) && !InUse(img.g, groups, i) && BitSet(img.g, groups, img.groups, i, true, true)
    requires img.inodes[i].Shaped() && img.inodes[i].kind == Directory
    requires OwnedBy(img.g, img.disk, img.inodes[i]) <= FreeSet(img.g, groups)
    requires img.Free() == FreeSet(img.g, groups) - OwnedBy(img.g, img.disk, img.inodes[i])
    requires Carried(img.g, groups, inodes, disk, img.groups, img.inodes, img.disk)
    modifies img`groups, img`csum, img`total, img`disk, img`inodes
    ensures Ready(img)
    ensures rc == Ok || rc == NoSpace
    ensures Concludes(rc, Ok, Roomy(img.g, was, p, name), Limited(img.g, was, p, name), Wholes(img.g, old(img.groups)) > 0)
    ensures rc == Ok ==> DirMade(was, ViewsOf(img), p, i, View(Directory, 2, NewDirBlock(i, p)), name)
    ensures rc != Ok ==> ViewsOf(img) == was && img.Free() == FreeSet(img.g, groups) && SameMarks(img.g, groups, img.groups)
    ensures Tallied(img.g, groups, was, img.groups, ViewsOf(img))
    ensures Carried(img.g, groups, inodes, disk, img.groups, img.inodes, img.disk)
  {
    hide Carried, Hangs, KeepsDots, DotsIn, Records, Superblock.Valid, CylGroup.Valid, FileBytes, DirTiled, FreeSet, SameInodes, Sound, Views, InUse, BitSet,
      FileOk, Owned, TooLong, Full, Listing, DirOk, Named, Inserted, FirstNamed, Tidy, LinksOk, OwnedBy, NewDirBlock, Wholes, Concludes, AtLimit, Roomy, Limited, Tallied;
    ghost var g0, d0, n0 := img.groups, img.disk, img.inodes;
    ghost var mid, v := img.groups, View(Directory, 2, NewDirBlock(i, p));
    ViewsAt(img.g, img.disk, img.inodes);
    BitKept(img.g, groups, mid, i, true);
    SoundAt(img.g, img.groups, img.inodes, img.disk, p);
    LinkedDir(img.g, img.disk, img.inodes, was, p, i, v);
    rc := InsertOrDiscard(img, p, name, i);
    NameConcludes(img.g, g0, n0[p], was, p, name, rc, Wholes(img.g, g0) > 0);
    CarriedTwice(img.g, groups, inodes, disk, g0, n0, d0, img.groups, img.inodes, img.disk);
    ghost var inodes1 := img.inodes;
    if rc == Ok {
      InUseKept(img.g, mid, img.groups);
      ViewsAt(img.g, img.disk, img.inodes);
      ghost var after := ViewsOf(img);
      var node := img.inodes[p];
      Relinked(img.g, img.groups, img.inodes, img.disk, p, node.nlink + 1);
      img.inodes := img.inodes[p := node.(nlink := node.nlink + 1)];
      NewDirLists(i, p);
      assert ViewsOf(img)[p := ViewsOf(img)[p].(nlink := was[p].nlink)] == after;
      DirMadeKeepsLinks(was, ViewsOf(img), p, i, v, name);
      DirMadeKeepsTree(was, ViewsOf(img), p, i, v, name);
      CarriedTwice(img.g, groups, inodes, disk, img.groups, inodes1, img.disk, img.groups, img.inodes, img.disk);
      BitSetThen(img.g, groups, mid, img.groups, i, true, true);
      DirMadeTallied(img.g, groups, was, img.groups, ViewsOf(img), p, i, v, name);
    } else {
      MarkUndone(img.g, groups, mid, img.groups, i, true);
      assert was[i := v][i := GONE] == was;
      TalliedMarks(img.g, groups, was, img.groups, was);
    }
    NowTidy(img.g, img.groups, img.inodes, img.disk);
  }

  lemma DirMadeTallied(g: Geometry, ga: seq<CylGroup>, was: seq<View>, gb: seq<CylGroup>, now: seq<View>, p: nat, i: nat, v: View, name: seq<byte>)
    requires DirMade(was, now, p, i, v, name) && BitSet(g, ga, gb, i, true, true) && !InUse(g, ga, i)
    ensures Tallied(g, ga, was, gb, now)
  {
    hide BitSet, InUse, Tallied, DirTiled, Listing, Records, Inserted, FirstNamed, KeepsDots, DotsIn;
    var mid := now[p := now[p].(nlink := was[p].nlink)];
    assert forall k | 0 <= k < |was| :: mid[k].kind == now[k].kind;
    TalliedOne(g, ga, was, gb, now, i, true, true);
  }

  lemma SameCanHave(g: Geometry, a: seq<CylGroup>, b: seq<CylGroup>, n: nat)
    requires Spent(g, a, b, 0)
    ensures CanHave(g, b, n) <==> CanHave(g, a, n)
  {
    hide Wholes, PartlyFits;
  }

  lemma MarkSeen(g: Geometry, a: seq<CylGroup>, b: seq<CylGroup>, i: nat, dir: bool)
    requires BitSet(g, a, b, i, true, dir) && !InUse(g, a, i)
    ensures !SameMarks(g, a, b)
  {
    hide InUse;
    assert InUse(g, b, i);
  }

  lemma NotInodeZero(was: seq<View>, p: nat, name: seq<byte>)
    requires LinksOk(was) && p < |was| && Refusal(was, p, name) == Ok
    ensures p != 0 && was[p].kind == Directory && FirstNamed(Listing(was[p].bytes), name).None?
  {
  }

  /** How making a directory's inode ends. */
  ghost function MkdirRc(g: Geometry, groups: seq<CylGroup>, c: nat): Rc {
    if InodeLeft(groups, c) && CanHave(g, groups, 1) then Ok else NoSpace
  }

  /** nextufs_path_mkdir. When no fragment is left the inode it picked stays marked, and that is
      the only failure that leaves a trace. */
  method Mkdir(img: Image, p: nat, name: seq<byte>) returns (rc: Rc, i: nat)
    requires Ready(img) && p < |img.inodes| && NameOk(name)
    modifies img`groups, img`csum, img`total, img`disk, img`inodes
    ensures Ready(img)
    ensures var refusal := old(Refusal(ViewsOf(img), p, name));
            if refusal != Ok then rc == refusal
            else Concludes(rc, MkdirRc(img.g, old(img.groups), Home(img.g, p)), Roomy(img.g, old(ViewsOf(img)), p, name), Limited(img.g, old(ViewsOf(img)), p, name),
                           Wholes(img.g, old(img.groups)) > 1)
    ensures rc == Ok ==> exists v: View :: DirMade(old(ViewsOf(img)), ViewsOf(img), p, i, v, name)
    ensures rc != Ok ==> ViewsOf(img) == old(ViewsOf(img)) && img.Free() == old(img.Free())
    ensures rc != Ok ==>
      (SameMarks(img.g, old(img.groups), img.groups)
       <==> !(old(Refusal(ViewsOf(img), p, name)) == Ok && InodeLeft(old(img.groups), Home(img.g, p))
              && !CanHave(img.g, old(img.groups), 1)))
    ensures Ledger(img.g, old(img.groups), old(ViewsOf(img)), img.groups, ViewsOf(img),
                   old(Refusal(ViewsOf(img), p, name)) == Ok && InodeLeft(old(img.groups), Home(img.g, p)) && !CanHave(img.g, old(img.groups), 1),
                   i, true)
    ensures old(Refusal(ViewsOf(img), p, name)) == Ok && InodeLeft(old(img.groups), Home(img.g, p)) && !CanHave(img.g, old(img.groups), 1) ==>
              Home(img.g, i) == Home(img.g, p)
    ensures Carried(img.g, old(img.groups), old(img.inodes), old(img.disk), img.groups, img.inodes, img.disk)
  {
    hide Carried, Hangs, Superblock.Valid, CylGroup.Valid, DirTiled, FreeSet, SameInodes, Sound, Views, InUse, BitSet, Superblock.Off,
      FileOk, Owned, TooLong, Full, Listing, DirOk, FirstNamed, LinksOk, Tidy, Created, Refusal, OwnedBy, GroupFits, FileBytes,
      NewDirBlock, Run, Bytes, Placed, Allotted, Splice, Wholes, PartlyFits, Limited, Roomy, SameMarks, Tallied, LeftOne;
    SameMarksRefl(img.g, img.groups);
    CarriedNothing(img.g, img.groups, img.inodes, img.disk);
    TalliedNothing(img.g, img.groups, ViewsOf(img));
    i := 0;
    TidyParts(img.g, img.groups, img.inodes, img.disk, p);
    LinksWere(img.g, img.groups, img.inodes, img.disk);
    rc := CheckNewName(img, p, name);
    if rc != Ok {
      return;
    }
    ghost var was, groups, inodes, disk := ViewsOf(img), img.groups, img.inodes, img.disk;
    ViewsAt(img.g, img.disk, img.inodes);
    SoundSize(img.g, img.groups, img.inodes, img.disk);
    GroupOfInode(p, img.g.ncg, img.g.inodesPerGroup);
    NotInodeZero(was, p, name);
    rc, i := NewInode(img, p / img.g.inodesPerGroup, Directory);
    SameRoom(img.g, groups, img.groups);
    SpentIs(img.g, groups, img.groups);
    SameCanHave(img.g, groups, img.groups, 1);
    CarriedFree(img.g, groups, inodes, disk, img.groups);
    if rc != Ok {
      NowTidy(img.g, img.groups, img.inodes, img.disk);
      return rc, 0;
    }
    BitKept(img.g, groups, img.groups, i, true);
    ghost var mid := img.groups;
    rc := StoreNewDir(img, p, i);
    CarriedTwice(img.g, groups, inodes, disk, mid, inodes, disk, img.groups, img.inodes, img.disk);
    BitSetThen(img.g, groups, mid, img.groups, i, true, true);
    if rc != Ok {
      MarkSeen(img.g, groups, img.groups, i, true);
      LeftMarked(img.g, groups, was, img.groups, was, i, true);
      NowTidy(img.g, img.groups, img.inodes, img.disk);
      return;
    }
    rc := AddDirName(img, p, name, i, was, groups, inodes, disk);
  }

  // ---- removing names ----

  /** Why a removal is refused before anything is written. */
  ghost function UnlinkRefusal(views: seq<View>, p: nat, name: seq<byte>): Rc
    requires p < |views|
  {
    if name == DOT || name == DOTDOT then Invalid
    else if views[p].kind != Directory then NotDir
    else match FirstNamed(Listing(views[p].bytes), name)
      case None => NotFound
      case Some(t) => if t < |views| && views[t].kind == Directory then IsADir else Ok
  }

  /** An entry of a well-formed directory names an inode in use. */
  lemma NamedLive(was: seq<View>, p: nat, name: seq<byte>, t: nat)
    requires LinksOk(was) && p < |was| && was[p].kind == Directory
    requires FirstNamed(Listing(was[p].bytes), name) == Some(t)
    ensures ROOTINO <= t < |was| && was[t].nlink > 0 && was[t].kind != Unused
  {
    hide DirTiled, FirstNamed, Listing;
    FirstNamedIs(Listing(was[p].bytes), name);
    assert DirOk(was[p].bytes, p, |was|);
    assert Entry(name, t).ino < |was|;
    ReferencedHere(was, p, name, t);
  }

  /** GONE is the only view without a kind. */
  lemma UnusedIsGone(g: Geometry, d: seq<byte>, inodes: seq<Inode>, t: nat)
    requires t < |inodes|
    ensures Views(g, d, inodes)[t] == ViewOf(g, d, inodes[t])
    ensures Views(g, d, inodes)[t].kind == inodes[t].kind && (inodes[t].kind != Unused ==> Views(g, d, inodes)[t].nlink == inodes[t].nlink)
    ensures inodes[t].kind == Unused ==> Views(g, d, inodes)[t] == GONE
  {
  }

  /** nextufs_path_unlink. Nothing but the directory's bytes and the inode changes, whatever the
      entry; behind a free record the directory does not stay well formed, and the promise about
      it is for removable entries. */
  method Unlink(img: Image, p: nat, name: seq<byte>) returns (rc: Rc, t: nat)
    requires Ready(img) && p < |img.inodes| && NameOk(name)
    modifies img`groups, img`csum, img`total, img`disk, img`inodes
    ensures img.Valid() && Sound(img.g, img.groups, img.inodes, img.disk)
    ensures var views := old(ViewsOf(img)); var refusal := UnlinkRefusal(views, p, name);
            rc == if refusal != Ok then refusal else RemoveOutcome(img.g, views[p].bytes, name)
    ensures rc != Ok ==> Ready(img) && ViewsOf(img) == old(ViewsOf(img)) && img.groups == old(img.groups)
    ensures rc == Ok ==> TakenFrom(old(ViewsOf(img)), ViewsOf(img), p, t, name)
    ensures rc == Ok && Removable(old(ViewsOf(img))[p].bytes, name) ==>
              Ready(img) && Unlinked(old(ViewsOf(img)), ViewsOf(img), p, t, name)
    ensures rc == Ok ==> img.Free() == old(img.Free()) + (if old(ViewsOf(img))[t].nlink == 1 then old(OwnedBy(img.g, img.disk, img.inodes[t])) else {})
    ensures Tallied(img.g, old(img.groups), old(ViewsOf(img)), img.groups, ViewsOf(img))
    ensures Carried(img.g, old(img.groups), old(img.inodes), old(img.disk), img.groups, img.inodes, img.disk)
  {
    hide Tallied, Carried, Hangs, Superblock.Valid, CylGroup.Valid, DirTiled, FreeSet, Sound, Views, InUse, BitSet,
      FileOk, Owned, TooLong, Full, Listing, DirOk, FirstNamed, LinksOk, Tidy, OwnedBy, FileBytes, WithoutEntry, Removable, RemoveOutcome,
      NoRoom, DirectPart;
    t := 0;
    ghost var was, groups, inodes, d := ViewsOf(img), img.groups, img.inodes, img.disk;
    CarriedNothing(img.g, groups, inodes, d);
    TalliedNothing(img.g, groups, was);
    TidyParts(img.g, img.groups, img.inodes, img.disk, p);
    LinksWere(img.g, img.groups, img.inodes, img.disk);
    if name == DOT || name == DOTDOT {
      return Invalid, 0;
    }
    if img.inodes[p].kind != Directory {
      return NotDir, 0;
    }
    var found := FindName(img, p, name);
    if found.None? {
      return NotFound, 0;
    }
    t := found.value;
    NamedLive(was, p, name, t);
    UnusedIsGone(img.g, img.disk, img.inodes, t);
    if img.inodes[t].kind == Directory {
      return IsADir, t;
    }
    rc := TakeFile(img, p, name, t);
  }

  /** The entry of a file goes, and one link with it. */
  method TakeFile(img: Image, p: nat, name: seq<byte>, t: nat) returns (rc: Rc)
    requires Ready(img) && p < |img.inodes| && NameOk(name) && name != DOT && name != DOTDOT
    requires ViewsOf(img)[p].kind == Directory && FirstNamed(Listing(ViewsOf(img)[p].bytes), name) == Some(t)
    requires t < |img.inodes| && img.inodes[t].kind != Directory
    modifies img`groups, img`csum, img`total, img`disk, img`inodes
    ensures img.Valid() && Sound(img.g, img.groups, img.inodes, img.disk)
    ensures rc == RemoveOutcome(img.g, old(ViewsOf(img))[p].bytes, name)
    ensures rc != Ok ==> Ready(img) && ViewsOf(img) == old(ViewsOf(img)) && img.groups == old(img.groups)
    ensures rc == Ok ==> TakenFrom(old(ViewsOf(img)), ViewsOf(img), p, t, name)
    ensures rc == Ok && Removable(old(ViewsOf(img))[p].bytes, name) ==>
              Ready(img) && Unlinked(old(ViewsOf(img)), ViewsOf(img), p, t, name)
              && !NoRoom(DirectPart(img.g, ViewsOf(img)[p].bytes), DirentSize(|name|))
    ensures rc == Ok ==> img.Free() == old(img.Free()) + (if old(ViewsOf(img))[t].nlink == 1 then old(OwnedBy(img.g, img.disk, img.inodes[t])) else {})
    ensures |img.inodes| == old(|img.inodes|) && img.inodes[p] == old(img.inodes)[p].(nlink := img.inodes[p].nlink)
    ensures Tallied(img.g, old(img.groups), old(ViewsOf(img)), img.groups, ViewsOf(img))
    ensures Carried(img.g, old(img.groups), old(img.inodes), old(img.disk), img.groups, img.inodes, img.disk)
  {
    hide Tallied, Carried, Hangs, Superblock.Valid, CylGroup.Valid, DirTiled, FreeSet, Sound, Views, InUse, BitSet,
      FileOk, Owned, TooLong, Full, Listing, DirOk, FirstNamed, LinksOk, Tidy, OwnedBy, FileBytes, WithoutEntry, Removable, RemoveOutcome,
      NoRoom, DirectPart;
    ghost var was, groups, inodes, d := ViewsOf(img), img.groups, img.inodes, img.disk;
    CarriedNothing(img.g, groups, inodes, d);
    TalliedNothing(img.g, groups, was);
    TidyParts(img.g, img.groups, img.inodes, img.disk, p);
    LinksWere(img.g, img.groups, img.inodes, img.disk);
    NamedLive(was, p, name, t);
    UnusedIsGone(img.g, img.disk, img.inodes, t);
    var removed;
    rc, removed := RemoveDirent(img, p, name);
    ghost var mid := ViewsOf(img);
    ghost var d1 := img.disk;
    if rc != Ok {
      return;
    }
    UnusedIsGone(img.g, img.disk, img.inodes, t);
    rc := RemoveLinkedInode(img, t);
    CarriedTwice(img.g, groups, inodes, d, groups, inodes, d1, img.groups, img.inodes, img.disk);
    TakenIs(was, mid, ViewsOf(img), p, t, name);
    FileTaken(img.g, groups, was, img.groups, mid, ViewsOf(img), p, t);
    if Removable(was[p].bytes, name) {
      UnlinkedIs(was, mid, ViewsOf(img), p, t, name);
      UnlinkedKeepsLinks(was, ViewsOf(img), p, t, name);
      UnlinkedKeepsTree(was, ViewsOf(img), p, t, name);
      StillMarked(img.g, groups, img.groups, t);
      NowTidy(img.g, img.groups, img.inodes, img.disk);
    }
  }

  /** What a removal changes at all: the bytes of directory p, and the inode its entry named, which
      is gone or has one link less. */
  ghost predicate TakenFrom(was: seq<View>, now: seq<View>, p: nat, t: nat, name: seq<byte>) {
    && p < |was| == |now| && t < |was| && t != p && FirstNamed(Listing(was[p].bytes), name) == Some(t)
    && (now[t] == GONE || now[t] == was[t].(nlink := now[t].nlink))
    && (forall k: nat | k < |was| && k != p && k != t :: now[k] == was[k])
    && now[p] == was[p].(bytes := now[p].bytes, nlink := now[p].nlink)
  }

  lemma TakenIs(was: seq<View>, mid: seq<View>, now: seq<View>, p: nat, t: nat, name: seq<byte>)
    requires p < |was| == |mid| && t < |was| && t != p && mid == was[p := was[p].(bytes := mid[p].bytes)] && mid[t].nlink > 0
    requires FirstNamed(Listing(was[p].bytes), name) == Some(t)
    requires now == mid[t := if mid[t].nlink == 1 then GONE else mid[t].(nlink := mid[t].nlink - 1)]
    ensures TakenFrom(was, now, p, t, name)
  {
    hide Listing, FirstNamed;
  }

  /** The inode a removal frees was a file's; one that keeps a link keeps its mark. */
  lemma FileTaken(g: Geometry, ga: seq<CylGroup>, was: seq<View>, gb: seq<CylGroup>, mid: seq<View>, now: seq<View>, p: nat, t: nat)
    requires p < |was| == |mid| && t < |was| && t != p && mid == was[p := was[p].(bytes := mid[p].bytes)]
    requires mid[t].kind != Unused && mid[t].kind != Directory && mid[t].nlink > 0
    requires now == mid[t := if mid[t].nlink == 1 then GONE else mid[t].(nlink := mid[t].nlink - 1)]
    requires if mid[t].nlink == 1 then BitSet(g, ga, gb, t, false, false) else gb == ga
    ensures Tallied(g, ga, was, gb, now)
  {
    hide BitSet, Tallied;
    if mid[t].nlink == 1 {
      TalliedOne(g, ga, was, gb, now, t, false, false);
    } else {
      SameInodesRefl(ga);
      TalliedSame(g, ga, was, gb, now);
    }
  }

  lemma DirTaken(g: Geometry, ga: seq<CylGroup>, was: seq<View>, gb: seq<CylGroup>, mid: seq<View>, now: seq<View>, p: nat, t: nat)
    requires p < |was| == |mid| && t < |was| && t != p && mid == was[p := was[p].(bytes := mid[p].bytes)]
    requires mid[t].kind == Directory && mid[p].nlink > 0 && now == mid[t := GONE][p := mid[p].(nlink := mid[p].nlink - 1)]
    requires BitSet(g, ga, gb, t, false, true)
    ensures Tallied(g, ga, was, gb, now)
  {
    hide BitSet, Tallied;
    TalliedOne(g, ga, was, gb, now, t, false, true);
  }

  lemma StillMarked(g: Geometry, a: seq<CylGroup>, b: seq<CylGroup>, t: nat)
    ensures (exists dir :: BitSet(g, a, b, t, false, dir)) && t >= ROOTINO && Aside(g, a) ==> Aside(g, b)
  {
    hide InUse;
  }

  lemma UnlinkedIs(was: seq<View>, mid: seq<View>, now: seq<View>, p: nat, t: nat, name: seq<byte>)
    requires WithoutEntry(was, mid, p, name) && t < |was| && t != p && was[p].kind == Directory && was[t].nlink > 0
    requires FirstNamed(Listing(was[p].bytes), name) == Some(t)
    requires now == mid[t := if mid[t].nlink == 1 then GONE else mid[t].(nlink := mid[t].nlink - 1)]
    ensures Unlinked(was, now, p, t, name)
  {
    hide Listing, FirstNamed, DirTiled, Deleted;
    assert now[t := was[t]] == mid;
  }

  ghost function RmdirRefusal(views: seq<View>, p: nat, name: seq<byte>): Rc
    requires p < |views|
  {
    if views[p].kind != Directory then NotDir
    else match FirstNamed(Listing(views[p].bytes), name)
      case None => NotFound
      case Some(t) =>
        if t >= |views| then NotFound
        else if views[t].kind != Directory then NotDir
        else if views[t].nlink != 2 || !OnlyDots(Listing(views[t].bytes), t, p) then NotEmpty
        else Ok
  }

  /** nextufs_path_rmdir, with the same promise. */
  method Rmdir(img: Image, p: nat, name: seq<byte>) returns (rc: Rc, t: nat)
    requires Ready(img) && p < |img.inodes| && NameOk(name)
    modifies img`groups, img`csum, img`total, img`disk, img`inodes
    ensures img.Valid() && Sound(img.g, img.groups, img.inodes, img.disk)
    ensures var views := old(ViewsOf(img)); var refusal := RmdirRefusal(views, p, name);
            rc == if refusal != Ok then refusal else RemoveOutcome(img.g, views[p].bytes, name)
    ensures rc != Ok ==> Ready(img) && ViewsOf(img) == old(ViewsOf(img)) && img.groups == old(img.groups)
    ensures rc == Ok ==> TakenFrom(old(ViewsOf(img)), ViewsOf(img), p, t, name)
    ensures rc == Ok && Removable(old(ViewsOf(img))[p].bytes, name) ==>
              Ready(img) && DirRemoved(old(ViewsOf(img)), ViewsOf(img), p, t, name)
    ensures rc == Ok ==> img.Free() == old(img.Free()) + old(OwnedBy(img.g, img.disk, img.inodes[t]))
    ensures Tallied(img.g, old(img.groups), old(ViewsOf(img)), img.groups, ViewsOf(img))
    ensures Carried(img.g, old(img.groups), old(img.inodes), old(img.disk), img.groups, img.inodes, img.disk)
  {
    hide Tallied, Carried, Hangs, Superblock.Valid, CylGroup.Valid, DirTiled, FreeSet, Sound, Views, InUse, BitSet, OnlyDots,
      FileOk, Owned, TooLong, Full, Listing, DirOk, FirstNamed, LinksOk, Tidy, OwnedBy, FileBytes, WithoutEntry, Removable, RemoveOutcome,
      NoRoom, DirectPart;
    t := 0;
    ghost var was, groups, inodes, d := ViewsOf(img), img.groups, img.inodes, img.disk;
    CarriedNothing(img.g, groups, inodes, d);
    TalliedNothing(img.g, groups, was);
    TidyParts(img.g, img.groups, img.inodes, img.disk, p);
    LinksWere(img.g, img.groups, img.inodes, img.disk);
    if img.inodes[p].kind != Directory {
      return NotDir, 0;
    }
    var found := FindName(img, p, name);
    if found.None? {
      return NotFound, 0;
    }
    t := found.value;
    NamedLive(was, p, name, t);
    TidyParts(img.g, img.groups, img.inodes, img.disk, t);
    if img.inodes[t].kind != Directory {
      return NotDir, t;
    }
    UnusedIsGone(img.g, d, inodes, t);
    var empty := DirectoryIsEmpty(img, t, p);
    if img.inodes[t].nlink != 2 || !empty {
      return NotEmpty, t;
    }
    rc := TakeDir(img, p, name, t);
  }

  /** The entry of an empty directory goes, the directory with it, and the link its ".." held. */
  method TakeDir(img: Image, p: nat, name: seq<byte>, t: nat) returns (rc: Rc)
    requires Ready(img) && p < |img.inodes| && NameOk(name)
    requires ViewsOf(img)[p].kind == Directory && FirstNamed(Listing(ViewsOf(img)[p].bytes), name) == Some(t)
    requires t < |img.inodes| && ViewsOf(img)[t].kind == Directory && ViewsOf(img)[t].nlink == 2
    requires OnlyDots(Listing(ViewsOf(img)[t].bytes), t, p)
    modifies img`groups, img`csum, img`total, img`disk, img`inodes
    ensures img.Valid() && Sound(img.g, img.groups, img.inodes, img.disk)
    ensures rc == RemoveOutcome(img.g, old(ViewsOf(img))[p].bytes, name)
    ensures rc != Ok ==> Ready(img) && ViewsOf(img) == old(ViewsOf(img)) && img.groups == old(img.groups)
    ensures rc == Ok ==> TakenFrom(old(ViewsOf(img)), ViewsOf(img), p, t, name)
    ensures rc == Ok && Removable(old(ViewsOf(img))[p].bytes, name) ==>
              Ready(img) && DirRemoved(old(ViewsOf(img)), ViewsOf(img), p, t, name)
              && !NoRoom(DirectPart(img.g, ViewsOf(img)[p].bytes), DirentSize(|name|))
    ensures rc == Ok ==> img.Free() == old(img.Free()) + old(OwnedBy(img.g, img.disk, img.inodes[t]))
    ensures |img.inodes| == old(|img.inodes|) && img.inodes[p] == old(img.inodes)[p].(nlink := img.inodes[p].nlink)
    ensures Tallied(img.g, old(img.groups), old(ViewsOf(img)), img.groups, ViewsOf(img))
    ensures Carried(img.g, old(img.groups), old(img.inodes), old(img.disk), img.groups, img.inodes, img.disk)
  {
    hide Tallied, Carried, Hangs, Superblock.Valid, CylGroup.Valid, DirTiled, FreeSet, Sound, Views, InUse, BitSet, OnlyDots,
      FileOk, Owned, TooLong, Full, Listing, DirOk, FirstNamed, LinksOk, Tidy, OwnedBy, FileBytes, WithoutEntry, Removable, RemoveOutcome,
      NoRoom, DirectPart;
    ghost var was, groups, inodes, d := ViewsOf(img), img.groups, img.inodes, img.disk;
    CarriedNothing(img.g, groups, inodes, d);
    TalliedNothing(img.g, groups, was);
    TidyParts(img.g, img.groups, img.inodes, img.disk, p);
    LinksWere(img.g, img.groups, img.inodes, img.disk);
    NamedLive(was, p, name, t);
    UnusedIsGone(img.g, d, inodes, t);
    var removed;
    rc, removed := RemoveDirent(img, p, name);
    ghost var mid, d1 := ViewsOf(img), img.disk;
    if rc != Ok {
      return;
    }
    NotItself(img.g, was, p, t, name);
    UnusedIsGone(img.g, d, inodes, p);
    rc := RemoveDirInode(img, p, t);
    CarriedTwice(img.g, groups, inodes, d, groups, inodes, d1, img.groups, img.inodes, img.disk);
    DirTaken(img.g, groups, was, img.groups, mid, ViewsOf(img), p, t);
    if Removable(was[p].bytes, name) {
      DirRemovedIs(was, mid, ViewsOf(img), p, t, name);
      DirRemovedKeepsLinks(was, ViewsOf(img), p, t, name);
      DirRemovedKeepsTree(was, ViewsOf(img), p, t, name);
      StillMarked(img.g, groups, img.groups, t);
      NowTidy(img.g, img.groups, img.inodes, img.disk);
    }
  }

  /** A directory whose only entries are dots cannot be removed from itself. */
  lemma NotItself(g: Geometry, was: seq<View>, p: nat, t: nat, name: seq<byte>)
    requires LinksOk(was) && p < |was| && t < |was| && was[p].kind == Directory && RemoveOutcome(g, was[p].bytes, name) == Ok
    requires FirstNamed(Listing(was[p].bytes), name) == Some(t) && OnlyDots(Listing(was[t].bytes), t, p)
    ensures p != t && name != DOT && name != DOTDOT && was[p].nlink > 0
  {
    hide DirTiled, FirstNamed, Listing, Records, NoMatch;
    FirstNamedIs(Listing(was[p].bytes), name);
    assert DirOk(was[p].bytes, p, |was|);
    CountPositive(Listing(was[p].bytes), Entry(DOT, p));
    NamedIsReferenced(was, p, p);
  }

  lemma DirRemovedIs(was: seq<View>, mid: seq<View>, now: seq<View>, p: nat, t: nat, name: seq<byte>)
    requires WithoutEntry(was, mid, p, name) && t < |was| && t != p && was[p].kind == Directory && was[p].nlink > 0
    requires FirstNamed(Listing(was[p].bytes), name) == Some(t)
    requires was[t].kind == Directory && was[t].nlink == 2 && OnlyDots(Listing(was[t].bytes), t, p)
    requires now == mid[t := GONE][p := mid[p].(nlink := mid[p].nlink - 1)]
    ensures DirRemoved(was, now, p, t, name)
  {
    hide Listing, FirstNamed, DirTiled, Deleted, OnlyDots;
    assert now[t := was[t]][p := now[p].(nlink := was[p].nlink)] == mid;
  }

  /** nextufs_path_link. The count goes up before the name is stored, and stays up when the name
      cannot be: the link counts are right afterwards exactly when the command succeeds or
      refuses. */
  method LinkFile(img: Image, p: nat, name: seq<byte>, src: nat) returns (rc: Rc)
    requires Ready(img) && p < |img.inodes| && NameOk(name) && src < |img.inodes| && img.inodes[src].kind != Unused
    modifies img`groups, img`csum, img`total, img`disk, img`inodes
    ensures img.Valid() && Sound(img.g, img.groups, img.inodes, img.disk)
    ensures Ready(img) <==> rc != NoSpace
    ensures rc == if name == DOT || name == DOTDOT then Invalid
                  else if old(img.inodes[src].kind) == Directory then NotPermitted
                  else if old(Refusal(ViewsOf(img), p, name)) != Ok then old(Refusal(ViewsOf(img), p, name))
                  else if old(img.inodes[p].Shaped() && Full(img.g, img.groups, img.inodes[p], ViewsOf(img)[p].bytes, DirentSize(|name|)))
                  then NoSpace else Ok
    ensures var views, now := old(ViewsOf(img)), ViewsOf(img);
            var refusal := Refusal(views, p, name);
            && (rc == Ok || rc == NoSpace ==> refusal == Ok && views[src].kind != Directory)
            && (rc == Ok ==> WithEntry(views[src := views[src].(nlink := views[src].nlink + 1)], now, p, Entry(name, src)))
            && (rc == NoSpace ==> now == views[src := views[src].(nlink := views[src].nlink + 1)])
            && (rc != Ok && rc != NoSpace ==> now == views)
    ensures Tallied(img.g, old(img.groups), old(ViewsOf(img)), img.groups, ViewsOf(img))
    ensures Carried(img.g, old(img.groups), old(img.inodes), old(img.disk), img.groups, img.inodes, img.disk)
  {
    hide Tallied, Carried, Hangs, Superblock.Valid, CylGroup.Valid, DirTiled, FreeSet, Sound, Views, InUse, SameInodes,
      FileOk, Owned, TooLong, Full, Listing, DirOk, FirstNamed, LinksOk, Tidy, OwnedBy, FileBytes, WithEntry, Refusal,
      CountsOwned, IsDir, HasStorage, AllOwned, InlineText, SumOf, NoRoom, DirectPart, BitSet, Wholes;
    ghost var was, groups, inodes0, d0 := ViewsOf(img), img.groups, img.inodes, img.disk;
    CarriedNothing(img.g, groups, inodes0, d0);
    TalliedNothing(img.g, groups, was);
    TidyParts(img.g, img.groups, img.inodes, img.disk, p);
    LinksWere(img.g, img.groups, img.inodes, img.disk);
    UnusedIsGone(img.g, img.disk, img.inodes, src);
    if name == DOT || name == DOTDOT {
      return Invalid;
    }
    if img.inodes[src].kind == Directory {
      return NotPermitted;
    }
    rc := CheckNewName(img, p, name);
    if rc != Ok {
      return;
    }
    NotInodeZero(was, p, name);
    var node := img.inodes[src];
    Relinked(img.g, img.groups, img.inodes, img.disk, src, node.nlink + 1);
    img.inodes := img.inodes[src := node.(nlink := node.nlink + 1)];
    ghost var mid, inodes1 := ViewsOf(img), img.inodes;
    SourceUsed(was, src);
    SoundSize(img.g, img.groups, img.inodes, img.disk);
    SameInodesCount(img.groups);
    LinkedSource(img.g, img.disk, inodes0, img.inodes, p, src);
    rc := InsertDirent(img, p, name, src);
    CarriedTwice(img.g, groups, inodes0, d0, groups, inodes1, d0, img.groups, img.inodes, img.disk);
    SoundSize(img.g, img.groups, img.inodes, img.disk);
    InUseKept(img.g, groups, img.groups);
    NamedTallied(img.g, groups, was, mid, img.groups, ViewsOf(img), p, src, name);
    if rc == Ok {
      LinkedKeepsLinks(was, ViewsOf(img), p, src, name);
      LinkedKeepsTree(was, ViewsOf(img), p, src, name);
      NowTidy(img.g, img.groups, img.inodes, img.disk);
    } else {
      OverCounted(was, src);
      NotTidy(img.g, img.groups, img.inodes, img.disk);
    }
  }

  /** A name more or less and a count more or less leave the kinds alone. */
  lemma NamedTallied(g: Geometry, ga: seq<CylGroup>, was: seq<View>, mid: seq<View>, gb: seq<CylGroup>, now: seq<View>, p: nat, src: nat, name: seq<byte>)
    requires SameInodes(ga, gb) && |mid| == |was| && forall k | 0 <= k < |was| :: mid[k].kind == was[k].kind
    requires now == mid || WithEntry(mid, now, p, Entry(name, src))
    ensures Tallied(g, ga, was, gb, now)
  {
    hide Tallied, SameInodes, DirTiled, Listing, Records, Inserted, KeepsDots;
    TalliedSame(g, ga, was, gb, now);
  }

  /** Raising the source's count leaves another inode, the directory, as it was. */
  lemma LinkedSource(g: Geometry, d: seq<byte>, a: seq<Inode>, b: seq<Inode>, p: nat, src: nat)
    requires p < |a| && src < |a| && a[p].kind == Directory && a[src].kind != Directory
    requires b == a[src := a[src].(nlink := a[src].nlink + 1)]
    ensures b[p] == a[p] && Views(g, d, b)[p] == Views(g, d, a)[p]
  {
    hide Superblock.Valid, FileBytes;
  }

  lemma SourceUsed(was: seq<View>, src: nat)
    requires LinksOk(was) && src < |was| && was[src].kind != Unused
    ensures src != 0
  {
  }

  lemma OverCounted(was: seq<View>, src: nat)
    requires LinksOk(was) && src < |was| && was[src].kind != Directory
    ensures !LinksOk(was[src := was[src].(nlink := was[src].nlink + 1)])
  {
    hide DirOk, Named;
    var v := was[src].(nlink := was[src].nlink + 1);
    RefsUpdate(was, src, v, src);
    NotDirNamesNothing(v, src);
    NotDirNamesNothing(was[src], src);
    assert was[src := v][src].nlink != Refs(was[src := v], src);
  }

  lemma NotTidy(g: Geometry, groups: seq<CylGroup>, inodes: seq<Inode>, d: seq<byte>)
    requires !LinksOk(Views(g, d, inodes))
    ensures !Tidy(g, groups, inodes, d)
  {
  }

  lemma LinkedKeepsLinks(was: seq<View>, now: seq<View>, p: nat, src: nat, name: seq<byte>)
    requires LinksOk(was) && p < |was| && src < |was| && was[src].kind != Directory && was[src].kind != Unused
    requires was[p].kind == Directory && FirstNamed(Listing(was[p].bytes), name).None?
    requires WithEntry(was[src := was[src].(nlink := was[src].nlink + 1)], now, p, Entry(name, src))
    ensures LinksOk(now)
  {
    hide DirTiled, DirOk, Named, Inserted, FirstNamed, Listing;
    var v := was[src].(nlink := was[src].nlink + 1);
    var mid := was[src := v];
    forall k | 0 <= k < |now| ensures now[k].nlink == Refs(now, k) {
      RefsUpdate(was, src, v, k);
      RefsUpdate(mid, p, now[p], k);
      NamedInserted(mid[p], now[p], Entry(name, src), k);
      NotDirNamesNothing(v, k);
      NotDirNamesNothing(was[src], k);
    }
    InsertedOk(was[p].bytes, now[p].bytes, Entry(name, src), p, |was|);
  }
}
