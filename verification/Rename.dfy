/** nextufs_path_rename between two directories. */
module Rename {
  import opened Geometry
  import opened Image
  import opened Storage
  import opened Mutate
  import opened Tally
  import opened Dirents
  import opened Dirs
  import opened Links
  import opened Tree
  import opened Commands

  /** What a directory lists under a name, if it is one. */
  ghost function Lookup(views: seq<View>, p: nat, name: seq<byte>): Option<nat>
    requires p < |views|
  {
    FirstNamed(Listing(views[p].bytes), name)
  }

  /** Why a rename is refused before anything is written. */
  ghost function RenameRefusal(views: seq<View>, p: nat, name: seq<byte>, q: nat, target: seq<byte>): Rc
    requires p < |views| && q < |views|
  {
    if name == DOT || name == DOTDOT then Invalid
    else if target == DOT || target == DOTDOT then NotEmpty
    else if views[p].kind != Directory then NotDir
    else match Lookup(views, p, name)
      case None => NotFound
      case Some(s) =>
        if s >= |views| then NotFound
        else if views[q].kind != Directory then NotDir
        else if views[s].kind == Directory && Inside(views, q, s) then Invalid
        else match Lookup(views, q, target)
          case None => Ok
          case Some(t) => if t == s then Ok else if t >= |views| then NotFound else ReplaceRefusal(views, q, s, t)
  }

  /** Why s may not take the place of t in q. */
  ghost function ReplaceRefusal(views: seq<View>, q: nat, s: nat, t: nat): Rc
    requires s < |views| && t < |views|
  {
    if views[s].kind == Directory then
      if views[t].kind != Directory then NotDir
      else if views[t].nlink > 2 || !OnlyDots(Listing(views[t].bytes), t, q) then NotEmpty
      else Ok
    else if views[t].kind == Directory then IsADir
    else Ok
  }

  /** Both names are links of one file: nothing is to be done. */
  ghost predicate Already(views: seq<View>, p: nat, name: seq<byte>, q: nat, target: seq<byte>)
    requires p < |views| && q < |views|
  {
    Lookup(views, p, name).Some? && Lookup(views, q, target) == Lookup(views, p, name)
  }

  /** How room for the new name is made: the old bearer of the name goes, or the directory grows. */
  ghost function WayRc(g: Geometry, groups: seq<CylGroup>, ino: Inode, views: seq<View>, q: nat, target: seq<byte>): Rc
    requires q < |views| && |groups| == g.ncg
  {
    if Lookup(views, q, target).Some? then RemoveOutcome(g, views[q].bytes, target)
    else if ino.Shaped() && Full(g, groups, ino, views[q].bytes, DirentSize(|target|)) then NoSpace
    else Ok
  }

  /** The rename gets as far as storing the new name. */
  ghost predicate Moves(g: Geometry, groups: seq<CylGroup>, ino: Inode, views: seq<View>, p: nat, name: seq<byte>, q: nat, target: seq<byte>)
    requires p < |views| && q < |views| && |groups| == g.ncg
  {
    && RenameRefusal(views, p, name, q, target) == Ok && !Already(views, p, name, q, target)
    && WayRc(g, groups, ino, views, q, target) == Ok
  }

  /** How a rename ends. */
  ghost function RenameRc(g: Geometry, groups: seq<CylGroup>, ino: Inode, views: seq<View>, p: nat, name: seq<byte>, q: nat, target: seq<byte>): Rc
    requires p < |views| && q < |views| && |groups| == g.ncg
  {
    var refusal, way := RenameRefusal(views, p, name, q, target), WayRc(g, groups, ino, views, q, target);
    if refusal != Ok then refusal
    else if Already(views, p, name, q, target) then Ok
    else if way != Ok then way
    else RemoveOutcome(g, views[p].bytes, name)
  }

  /** The views once the old bearer of the name is gone. */
  ghost predicate Vacated(was: seq<View>, mid: seq<View>, q: nat, target: seq<byte>, dir: bool)
    requires q < |was|
  {
    match Lookup(was, q, target)
    case None => mid == was
    case Some(t) => if dir then DirRemoved(was, mid, q, t, target) else Unlinked(was, mid, q, t, target)
  }

  /** The checks. */
  method CheckRename(img: Image, p: nat, name: seq<byte>, q: nat, target: seq<byte>, ghost depth: seq<nat>)
      returns (rc: Rc, s: nat, t: Option<nat>)
    requires Ready(img) && p < |img.inodes| && q < |img.inodes| && NameOk(name) && NameOk(target)
    requires TreeOk(ViewsOf(img), depth)
    ensures rc == RenameRefusal(ViewsOf(img), p, name, q, target)
    ensures rc == Ok ==> Lookup(ViewsOf(img), p, name) == Some(s) && Lookup(ViewsOf(img), q, target) == t
  {
    hide Superblock.Valid, CylGroup.Valid, FileBytes, DirTiled, FreeSet, Tidy, Sound, Views, Listing, FirstNamed, DirOk, LinksOk,
      OnlyDots, Above, ParentOf, Inside, Ranked, Kids, DotsIn, Records;
    ghost var views := ViewsOf(img);
    s, t := 0, None;
    LinksWere(img.g, img.groups, img.inodes, img.disk);
    TidyParts(img.g, img.groups, img.inodes, img.disk, p);
    TidyParts(img.g, img.groups, img.inodes, img.disk, q);
    if name == DOT || name == DOTDOT {
      return Invalid, s, t;
    }
    if target == DOT || target == DOTDOT {
      return NotEmpty, s, t;
    }
    if img.inodes[p].kind != Directory {
      return NotDir, s, t;
    }
    var source := FindName(img, p, name);
    if source.None? {
      return NotFound, s, t;
    }
    s := source.value;
    NamedLive(views, p, name, s);
    if img.inodes[q].kind != Directory {
      return NotDir, s, t;
    }
    UnusedIsGone(img.g, img.disk, img.inodes, s);
    if img.inodes[s].kind == Directory {
      var above := DirectoryHasAncestor(img, q, s, depth);
      InsideIs(views, depth, q, s);
      if above {
        return Invalid, s, t;
      }
    }
    t := FindName(img, q, target);
    if t.None? || t.value == s {
      return Ok, s, t;
    }
    NamedLive(views, q, target, t.value);
    UnusedIsGone(img.g, img.disk, img.inodes, t.value);
    rc := CheckReplace(img, q, s, t.value);
  }

  method CheckReplace(img: Image, q: nat, s: nat, t: nat) returns (rc: Rc)
    requires Ready(img) && q < |img.inodes| && s < |img.inodes| && t < |img.inodes|
    ensures rc == ReplaceRefusal(ViewsOf(img), q, s, t)
  {
    hide Superblock.Valid, CylGroup.Valid, FileBytes, DirTiled, FreeSet, Tidy, Sound, Views, Listing, DirOk, OnlyDots;
    TidyParts(img.g, img.groups, img.inodes, img.disk, s);
    TidyParts(img.g, img.groups, img.inodes, img.disk, t);
    UnusedIsGone(img.g, img.disk, img.inodes, t);
    if img.inodes[s].kind != Directory {
      return if img.inodes[t].kind == Directory then IsADir else Ok;
    }
    if img.inodes[t].kind != Directory {
      return NotDir;
    }
    var empty := DirectoryIsEmpty(img, t, q);
    return if img.inodes[t].nlink > 2 || !empty then NotEmpty else Ok;
  }

  /** An empty directory has two links: its name and its own dot. */
  lemma EmptyHasTwo(views: seq<View>, q: nat, target: seq<byte>, t: nat)
    requires LinksOk(views) && q < |views| && t < |views| && views[q].kind == Directory && views[t].kind == Directory
    requires Lookup(views, q, target) == Some(t) && OnlyDots(Listing(views[t].bytes), t, q) && target != DOT && target != DOTDOT
    ensures views[t].nlink >= 2 && t != q
  {
    hide DirTiled, DirOk, FirstNamed, Listing, Refs;
    FirstNamedIs(Listing(views[q].bytes), target);
    CountPositive(Listing(views[q].bytes), Entry(target, t));
    CountPositive(Listing(views[t].bytes), Entry(DOT, t));
    NotDirNamesNothing(GONE, t);
    RefsUpdate(views, q, GONE, t);
    NamedIsReferenced(views[q := GONE], t, t);
    assert views[t].nlink == Refs(views, t);
  }

  /** The old bearer of the name goes. */
  method MakeWay(img: Image, q: nat, target: seq<byte>, s: nat, t: nat) returns (rc: Rc)
    requires Ready(img) && q < |img.inodes| && s < |img.inodes| && t < |img.inodes| && t != s && NameOk(target)
    requires ViewsOf(img)[q].kind == Directory && Lookup(ViewsOf(img), q, target) == Some(t) && target != DOT && target != DOTDOT
    requires ReplaceRefusal(ViewsOf(img), q, s, t) == Ok && Removable(ViewsOf(img)[q].bytes, target)
    modifies img`groups, img`csum, img`total, img`disk, img`inodes
    ensures Ready(img)
    ensures rc == RemoveOutcome(img.g, old(ViewsOf(img))[q].bytes, target)
    ensures rc != Ok ==> ViewsOf(img) == old(ViewsOf(img)) && img.groups == old(img.groups)
    ensures rc == Ok ==> Vacated(old(ViewsOf(img)), ViewsOf(img), q, target, old(ViewsOf(img))[s].kind == Directory)
    ensures rc == Ok ==> !NoRoom(DirectPart(img.g, ViewsOf(img)[q].bytes), DirentSize(|target|))
    ensures |img.inodes| == old(|img.inodes|) && img.inodes[q] == old(img.inodes)[q].(nlink := img.inodes[q].nlink)
    ensures Tallied(img.g, old(img.groups), old(ViewsOf(img)), img.groups, ViewsOf(img))
    ensures Carried(img.g, old(img.groups), old(img.inodes), old(img.disk), img.groups, img.inodes, img.disk)
  {
    hide Tallied, Carried, Hangs, Superblock.Valid, CylGroup.Valid, DirTiled, FreeSet, Sound, Views, InUse, OnlyDots, LinksOk, Tidy, OwnedBy,
      FileBytes, Removable, RemoveOutcome, NoRoom, DirectPart, FirstNamed, Listing, DirRemoved, Unlinked, TakenFrom;
    ghost var views := ViewsOf(img);
    LinksWere(img.g, img.groups, img.inodes, img.disk);
    UnusedIsGone(img.g, img.disk, img.inodes, s);
    UnusedIsGone(img.g, img.disk, img.inodes, t);
    if img.inodes[s].kind == Directory {
      EmptyHasTwo(views, q, target, t);
      rc := TakeDir(img, q, target, t);
    } else {
      rc := TakeFile(img, q, target, t);
    }
  }

  // ---- moving the name ----

  lemma DirIs(g: Geometry, groups: seq<CylGroup>, inodes: seq<Inode>, d: seq<byte>, p: nat)
    requires Sound(g, groups, inodes, d) && p < |inodes| && Views(g, d, inodes)[p].kind == Directory
    requires DirTiled(Views(g, d, inodes)[p].bytes)
    ensures IsDir(g, d, inodes[p]) && FileBytes(g, d, inodes[p]) == Views(g, d, inodes)[p].bytes
  {
    hide Superblock.Valid, FileBytes, DirTiled, Sound, FreeSet, FileOk, Owned, TooLong, CountsOwned;
    SoundAt(g, groups, inodes, d, p);
    ViewsAt(g, d, inodes);
  }

  lemma EntryAdded(was: seq<View>, now: seq<View>, dir: nat, e: Entry)
    requires WithEntry(was, now, dir, e)
    ensures |now| == |was| && dir < |was| && DirTiled(now[dir].bytes) && now[dir].nlink == was[dir].nlink && now[dir].kind == was[dir].kind
    ensures forall d: nat | d < |was| && d != dir :: now[d] == was[d]
  {
    hide DirTiled, Inserted, Listing, Records, KeepsDots;
  }

  /** The new name is stored, then the old one removed. */
  method MoveEntries(img: Image, p: nat, name: seq<byte>, q: nat, target: seq<byte>, s: nat) returns (rc: Rc, ghost mid: seq<View>)
    requires Ready(img) && p < |img.inodes| && q < |img.inodes| && p != q && NameOk(name) && NameOk(target)
    requires ViewsOf(img)[p].kind == Directory && ViewsOf(img)[q].kind == Directory && 0 < s < |img.inodes|
    modifies img`groups, img`csum, img`total, img`disk, img`inodes
    ensures img.Valid() && Sound(img.g, img.groups, img.inodes, img.disk) && DirGeometry(img.g)
    ensures SameInodes(old(img.groups), img.groups) && |img.inodes| == old(|img.inodes|)
    ensures old(img.inodes[q]).Shaped() && |old(img.groups)| == img.g.ncg
    ensures var views := old(ViewsOf(img));
            && (Full(img.g, old(img.groups), old(img.inodes[q]), views[q].bytes, DirentSize(|target|)) ==>
                  rc == NoSpace && ViewsOf(img) == views)
            && (!Full(img.g, old(img.groups), old(img.inodes[q]), views[q].bytes, DirentSize(|target|)) ==>
                  && rc == RemoveOutcome(img.g, views[p].bytes, name)
                  && WithEntry(views, mid, q, Entry(target, s))
                  && p < |mid| == |ViewsOf(img)| && ViewsOf(img) == mid[p := mid[p].(bytes := ViewsOf(img)[p].bytes)]
                  && (rc != Ok ==> ViewsOf(img) == mid)
                  && (rc == Ok && Removable(views[p].bytes, name) ==> WithoutEntry(mid, ViewsOf(img), p, name)))
    ensures Carried(img.g, old(img.groups), old(img.inodes), old(img.disk), img.groups, img.inodes, img.disk)
  {
    hide Superblock.Valid, CylGroup.Valid, FileBytes, DirTiled, FreeSet, SameInodes, Sound, Views, WithEntry, InUse, LinksOk, Hangs,
      FileOk, Owned, TooLong, Full, Carried, Listing, DirOk, WithoutEntry, Removable, RemoveOutcome, NoRoom, DirectPart, OwnedBy, IsDir,
      CountsOwned;
    ghost var groups, inodes, disk, was := img.groups, img.inodes, img.disk, ViewsOf(img);
    TidyParts(img.g, img.groups, img.inodes, img.disk, p);
    TidyParts(img.g, img.groups, img.inodes, img.disk, q);
    SoundSize(img.g, img.groups, img.inodes, img.disk);
    SameInodesCount(img.groups);
    rc := InsertDirent(img, q, target, s);
    mid := ViewsOf(img);
    ghost var groups1, inodes1, disk1 := img.groups, img.inodes, img.disk;
    SoundSize(img.g, img.groups, img.inodes, img.disk);
    if rc != Ok {
      return;
    }
    EntryAdded(was, mid, q, Entry(target, s));
    TiledDir(was, p);
    DirIs(img.g, img.groups, img.inodes, img.disk, p);
    var removed;
    rc, removed := RemoveDirent(img, p, name);
    SameMid(mid, p);
    CarriedTwice(img.g, groups, inodes, disk, groups1, inodes1, disk1, img.groups, img.inodes, img.disk);
  }

  lemma SameMid(mid: seq<View>, p: nat)
    requires p < |mid|
    ensures mid == mid[p := mid[p].(bytes := mid[p].bytes)]
  {
  }

  lemma TiledDir(was: seq<View>, p: nat)
    requires LinksOk(was) && p < |was| && was[p].kind == Directory
    ensures DirTiled(was[p].bytes)
  {
    hide DirTiled, Listing;
    assert DirOk(was[p].bytes, p, |was|);
  }

  /** The views after s was hung below q instead of p. */
  ghost predicate MovedUp(was: seq<View>, now: seq<View>, p: nat, q: nat, s: nat) {
    && |now| == |was| && p < |was| && q < |was| && s < |was| && was[p].nlink > 0
    && Repointed(was[s].bytes, now[s].bytes, s, q)
    && now == was[s := was[s].(bytes := now[s].bytes)][p := was[p].(nlink := was[p].nlink - 1)][q := was[q].(nlink := was[q].nlink + 1)]
  }

  lemma MovedUpIs(was: seq<View>, a: seq<View>, p: nat, q: nat, s: nat)
    requires |a| == |was| && p < |was| && q < |was| && s < |was| && was[p].nlink > 0 && p != q && p != s && q != s
    requires (forall d | 0 <= d < |was| && d != s :: a[d] == was[d]) && a[s] == was[s].(bytes := a[s].bytes)
    requires Repointed(was[s].bytes, a[s].bytes, s, q)
    ensures MovedUp(was, a[p := a[p].(nlink := a[p].nlink - 1)][q := a[q].(nlink := a[q].nlink + 1)], p, q, s)
  {
    hide Repointed;
  }

  /** A moved directory's ".." and the two link counts. */
  method MoveUp(img: Image, p: nat, q: nat, s: nat)
    requires img.Valid() && Sound(img.g, img.groups, img.inodes, img.disk) && DirGeometry(img.g)
    requires p < |img.inodes| && 0 < q < |img.inodes| <= 0x1_0000_0000 && s < |img.inodes| && p != q && p != s && q != s
    requires ViewsOf(img)[p].kind == Directory && ViewsOf(img)[q].kind == Directory && ViewsOf(img)[s].kind == Directory
    requires DirTiled(ViewsOf(img)[s].bytes) && DotsIn(Records(ViewsOf(img)[s].bytes), s).Some? && ViewsOf(img)[p].nlink > 0
    modifies img`disk, img`inodes
    ensures img.Valid() && Sound(img.g, img.groups, img.inodes, img.disk)
    ensures MovedUp(old(ViewsOf(img)), ViewsOf(img), p, q, s)
    ensures Carried(img.g, img.groups, old(img.inodes), old(img.disk), img.groups, img.inodes, img.disk)
  {
    hide Superblock.Valid, CylGroup.Valid, FileBytes, DirTiled, FreeSet, Sound, Views, FileOk, Owned, TooLong, Carried, Records, DotsIn,
      IsDir, CountsOwned, Repointed, MovedUp;
    ghost var inodes, disk, was := img.inodes, img.disk, ViewsOf(img);
    ViewsAt(img.g, img.disk, img.inodes);
    DirIs(img.g, img.groups, img.inodes, img.disk, s);
    var rc := UpdateDirectoryParentInode(img, s, q);
    ghost var mid, disk1 := ViewsOf(img), img.disk;
    ViewsAt(img.g, img.disk, img.inodes);
    MovedUpIs(was, mid, p, q, s);
    var a := img.inodes[p];
    Relinked(img.g, img.groups, img.inodes, img.disk, p, a.nlink - 1);
    img.inodes := img.inodes[p := a.(nlink := a.nlink - 1)];
    CarriedTwice(img.g, img.groups, inodes, disk, img.groups, inodes, disk1, img.groups, img.inodes, img.disk);
    ghost var inodes1 := img.inodes;
    var b := img.inodes[q];
    Relinked(img.g, img.groups, img.inodes, img.disk, q, b.nlink + 1);
    img.inodes := img.inodes[q := b.(nlink := b.nlink + 1)];
    CarriedTwice(img.g, img.groups, inodes, disk, img.groups, inodes1, disk1, img.groups, img.inodes, img.disk);
  }

  // ---- what a rename amounts to ----

  lemma FileRenamed(was: seq<View>, mid: seq<View>, now: seq<View>, p: nat, name: seq<byte>, q: nat, target: seq<byte>, s: nat)
    requires WithEntry(was, mid, q, Entry(target, s)) && WithoutEntry(mid, now, p, name) && p < |was|
    requires s < |was| && p != q && was[p].kind == Directory && was[q].kind == Directory && was[s].kind != Directory
    requires FirstNamed(Listing(was[p].bytes), name) == Some(s) && FirstNamed(Listing(was[q].bytes), target).None?
    ensures Renamed(was, now, p, name, q, target, s)
  {
    hide DirTiled, Inserted, Deleted, Listing, Records, KeepsDots, FirstNamed, Repointed;
  }

  lemma DirRenamed(was: seq<View>, mid: seq<View>, a: seq<View>, now: seq<View>, p: nat, name: seq<byte>, q: nat, target: seq<byte>, s: nat)
    requires WithEntry(was, mid, q, Entry(target, s)) && WithoutEntry(mid, a, p, name) && MovedUp(a, now, p, q, s) && p < |was|
    requires s < |was| && p != q && p != s && q != s
    requires was[p].kind == Directory && was[q].kind == Directory && was[s].kind == Directory
    requires FirstNamed(Listing(was[p].bytes), name) == Some(s) && FirstNamed(Listing(was[q].bytes), target).None?
    ensures Renamed(was, now, p, name, q, target, s)
  {
    hide DirTiled, Inserted, Deleted, Listing, Records, KeepsDots, FirstNamed, Repointed;
  }

  /** With both names in place the count is one short. */
  lemma NamedTwice(was: seq<View>, now: seq<View>, q: nat, target: seq<byte>, s: nat)
    requires LinksOk(was) && WithEntry(was, now, q, Entry(target, s)) && s < |was| && s != q && was[q].kind == Directory
    ensures !LinksOk(now)
  {
    hide DirTiled, DirOk, Inserted, Listing, Records, KeepsDots, Refs, Named;
    assert now == was[q := now[q]];
    RefsUpdate(was, q, now[q], s);
    NamedInserted(was[q], now[q], Entry(target, s), s);
    assert now[s].nlink == was[s].nlink == Refs(was, s);
  }

  /** What a rename between p and q changes at all. */
  ghost predicate OnlyThose(was: seq<View>, now: seq<View>, p: nat, q: nat, s: nat) {
    |now| == |was| && forall d: nat | d < |was| && d != p && d != q && d != s :: now[d] == was[d]
  }

  /** The facts about the moved inode that the tree and the link counts give. */
  lemma Movable(was: seq<View>, depth: seq<nat>, p: nat, name: seq<byte>, q: nat, s: nat)
    requires LinksOk(was) && TreeOk(was, depth) && p < |was| && q < |was| && s < |was| && was[p].kind == Directory && was[q].kind == Directory
    requires FirstNamed(Listing(was[p].bytes), name) == Some(s) && name != DOT && name != DOTDOT
    requires was[s].kind == Directory ==> !Above(was, depth, q, s)
    ensures s != p && s != q && q != 0
    ensures was[s].kind == Directory ==>
              DirTiled(was[s].bytes) && DotsIn(Records(was[s].bytes), s) == Some(p) && was[p].nlink > 0
  {
    hide DirTiled, FirstNamed, Listing, Records, DotsIn, KidsIn, ParentOf, Ranked, TreeAt, Refs, Above;
    if was[s].kind == Directory {
      NamedInParent(was, depth, p, name, s);
      TreeAtRanked(was, depth);
      AboveItself(was, depth, q);
      assert Dotted(was, s);
      ParentIsDots(was, s);
      assert DirOk(was[p].bytes, p, |was|);
      CountPositive(Listing(was[p].bytes), Entry(DOT, p));
      NamedIsReferenced(was, p, p);
    }
  }

  lemma TreeAtRanked(was: seq<View>, depth: seq<nat>)
    requires TreeAt(was, depth)
    ensures Ranked(was, depth)
  {
    hide ParentOf;
  }

  /** From the checks on, when the new name is free. If the old entry cannot be removed both names
      stay, and the link counts are wrong. */
  method MoveName(img: Image, p: nat, name: seq<byte>, q: nat, target: seq<byte>, s: nat, ghost depth: seq<nat>) returns (rc: Rc)
    requires Ready(img) && p < |img.inodes| && q < |img.inodes| && p != q && NameOk(name) && NameOk(target)
    requires name != DOT && name != DOTDOT && target != DOT && target != DOTDOT && TreeOk(ViewsOf(img), depth)
    requires ViewsOf(img)[p].kind == Directory && ViewsOf(img)[q].kind == Directory && s < |img.inodes|
    requires Lookup(ViewsOf(img), p, name) == Some(s) && Lookup(ViewsOf(img), q, target) == None
    requires ViewsOf(img)[s].kind == Directory ==> !Above(ViewsOf(img), depth, q, s)
    modifies img`groups, img`csum, img`total, img`disk, img`inodes
    ensures img.Valid() && Sound(img.g, img.groups, img.inodes, img.disk) && OnlyThose(old(ViewsOf(img)), ViewsOf(img), p, q, s)
    ensures old(img.inodes[q]).Shaped() && |old(img.groups)| == img.g.ncg
    ensures var views := old(ViewsOf(img));
            && (Full(img.g, old(img.groups), old(img.inodes[q]), views[q].bytes, DirentSize(|target|)) ==>
                  rc == NoSpace && Ready(img) && ViewsOf(img) == views)
            && (!Full(img.g, old(img.groups), old(img.inodes[q]), views[q].bytes, DirentSize(|target|)) ==>
                  && rc == RemoveOutcome(img.g, views[p].bytes, name)
                  && (rc != Ok ==> WithEntry(views, ViewsOf(img), q, Entry(target, s)) && !Ready(img))
                  && (rc == Ok && Removable(views[p].bytes, name) ==> Ready(img) && Renamed(views, ViewsOf(img), p, name, q, target, s)))
    ensures Tallied(img.g, old(img.groups), old(ViewsOf(img)), img.groups, ViewsOf(img))
    ensures Carried(img.g, old(img.groups), old(img.inodes), old(img.disk), img.groups, img.inodes, img.disk)
  {
    hide Tallied, Superblock.Valid, CylGroup.Valid, FileBytes, DirTiled, FreeSet, SameInodes, Sound, Views, WithEntry, InUse, LinksOk, Hangs, TreeOk,
      FileOk, Owned, TooLong, Full, Carried, Listing, DirOk, WithoutEntry, Removable, RemoveOutcome, NoRoom, DirectPart, OwnedBy, IsDir,
      CountsOwned, Above, FirstNamed, Tidy, Renamed, MovedUp, Records, DotsIn;
    ghost var groups, inodes, disk, was := img.groups, img.inodes, img.disk, ViewsOf(img);
    LinksWere(img.g, img.groups, img.inodes, img.disk);
    TidyParts(img.g, img.groups, img.inodes, img.disk, q);
    Movable(was, depth, p, name, q, s);
    NamedLive(was, p, name, s);
    ghost var mid;
    rc, mid := MoveEntries(img, p, name, q, target, s);
    InUseKept(img.g, groups, img.groups);
    MovedTallied(img.g, groups, was, img.groups, mid, ViewsOf(img), p, q, target, s);
    if rc != Ok {
      if Full(img.g, groups, inodes[q], was[q].bytes, DirentSize(|target|)) {
        NowTidy(img.g, img.groups, img.inodes, img.disk);
      } else {
        EntryAdded(was, mid, q, Entry(target, s));
        NamedTwice(was, mid, q, target, s);
        NotTidy(img.g, img.groups, img.inodes, img.disk);
      }
      return;
    }
    EntryAdded(was, mid, q, Entry(target, s));
    ghost var inodes1, disk1, moved := img.inodes, img.disk, ViewsOf(img);
    ViewsAt(img.g, img.disk, img.inodes);
    if img.inodes[s].kind == Directory {
      MoveUp(img, p, q, s);
      MovedUpOnly(moved, ViewsOf(img), p, q, s);
      MovedUpTallied(img.g, groups, was, img.groups, moved, ViewsOf(img), p, q, s);
      CarriedTwice(img.g, groups, inodes, disk, img.groups, inodes1, disk1, img.groups, img.inodes, img.disk);
    }
    if Removable(was[p].bytes, name) {
      if was[s].kind == Directory {
        DirRenamed(was, mid, moved, ViewsOf(img), p, name, q, target, s);
        RenamedDirKeepsTree(was, ViewsOf(img), depth, p, name, q, target, s);
      } else {
        FileRenamed(was, mid, ViewsOf(img), p, name, q, target, s);
        RenamedFileKeepsTree(was, ViewsOf(img), p, name, q, target, s);
      }
      RenamedKeepsLinks(was, ViewsOf(img), p, name, q, target, s);
      NowTidy(img.g, img.groups, img.inodes, img.disk);
    }
  }

  /** Moving a name leaves the kinds alone. */
  lemma MovedTallied(g: Geometry, ga: seq<CylGroup>, was: seq<View>, gb: seq<CylGroup>, mid: seq<View>, now: seq<View>,
                     p: nat, q: nat, target: seq<byte>, s: nat)
    requires SameInodes(ga, gb) && |was| == |now| && p < |was|
    requires now == was || (WithEntry(was, mid, q, Entry(target, s)) && p < |mid| && now == mid[p := mid[p].(bytes := now[p].bytes)])
    ensures Tallied(g, ga, was, gb, now) && forall k | 0 <= k < |was| :: now[k].kind == was[k].kind
  {
    hide Tallied, SameInodes, DirTiled, Listing, Records, Inserted, KeepsDots;
    TalliedSame(g, ga, was, gb, now);
  }

  lemma MovedUpTallied(g: Geometry, ga: seq<CylGroup>, was: seq<View>, gb: seq<CylGroup>, mid: seq<View>, now: seq<View>, p: nat, q: nat, s: nat)
    requires SameInodes(ga, gb) && MovedUp(mid, now, p, q, s) && |was| == |mid| && forall k | 0 <= k < |was| :: mid[k].kind == was[k].kind
    ensures Tallied(g, ga, was, gb, now)
  {
    hide Tallied, SameInodes, Repointed;
    TalliedSame(g, ga, was, gb, now);
  }

  lemma MovedUpOnly(was: seq<View>, now: seq<View>, p: nat, q: nat, s: nat)
    requires MovedUp(was, now, p, q, s)
    ensures OnlyThose(was, now, p, q, s)
  {
    hide Repointed;
  }

  // ---- the command ----

  /** Names are distinct, so without its entry a name is free. */
  lemma FreedName(was: seq<Entry>, now: seq<Entry>, name: seq<byte>)
    requires Distinct(was) && Deleted(was, now, name)
    ensures FirstNamed(now, name) == None
  {
    hide FirstNamed;
    var a, e, c := DeletedParts(was, now, name);
    FirstNamedIs(now, name);
    DistinctParts(a, e, c);
    assert forall j | 0 <= j < |c| :: was[|a| + 1 + j] == c[j] && was[|a|] == e;
    assert forall x :: x in now ==> x in a || x in c;
  }

  /** Taking the old bearer of the new name away leaves the rename possible. */
  lemma VacatedIs(was: seq<View>, mid: seq<View>, p: nat, name: seq<byte>, q: nat, target: seq<byte>, s: nat, t: nat)
    requires LinksOk(was) && p < |was| && q < |was| && s < |was| && t < |was| && p != q && s != t && s != q
    requires was[p].kind == Directory && was[q].kind == Directory && name != DOT && name != DOTDOT
    requires Lookup(was, p, name) == Some(s) && Lookup(was, q, target) == Some(t)
    requires ReplaceRefusal(was, q, s, t) == Ok && Vacated(was, mid, q, target, was[s].kind == Directory)
    ensures |mid| == |was| && mid[p] == was[p] && mid[s] == was[s] && mid[q].kind == Directory && DirTiled(mid[q].bytes)
    ensures Lookup(mid, q, target) == None && OnlyThose(was, mid, q, q, t) && t != p && t != q
  {
    hide DirTiled, FirstNamed, Listing, Records, OnlyDots, Deleted, KeepsDots, Refs;
    assert DirOk(was[q].bytes, q, |was|);
    if was[s].kind == Directory {
      ListsMore(Listing(was[p].bytes), name, t, q);
      var now := mid[t := was[t]][q := mid[q].(nlink := was[q].nlink)];
      assert now[q].bytes == mid[q].bytes;
      FreedName(Listing(was[q].bytes), Listing(mid[q].bytes), target);
      forall d: nat | d < |was| && d != q && d != t ensures mid[d] == was[d] {
        assert now[d] == mid[d];
      }
    } else {
      assert mid[t := was[t]][q] == mid[q];
      FreedName(Listing(was[q].bytes), Listing(mid[q].bytes), target);
      forall d: nat | d < |was| && d != q && d != t ensures mid[d] == was[d] {
        assert mid[t := was[t]][d] == mid[d];
      }
    }
  }

  lemma ListsMore(es: seq<Entry>, name: seq<byte>, t: nat, q: nat)
    requires FirstNamed(es, name).Some? && name != DOT && name != DOTDOT
    ensures !OnlyDots(es, t, q)
  {
    FirstNamedIs(es, name);
  }

  /** And it does not move anything below anything else. */
  lemma VacatedTree(was: seq<View>, mid: seq<View>, depth: seq<nat>, q: nat, target: seq<byte>, t: nat, dir: bool, s: nat)
    requires LinksOk(was) && TreeOk(was, depth) && q < |was| && t < |was| && t != q && target != DOT && target != DOTDOT
    requires Lookup(was, q, target) == Some(t) && Vacated(was, mid, q, target, dir) && (!dir ==> was[t].kind != Directory)
    ensures TreeOk(mid, depth) && (Above(mid, depth, q, s) <==> Above(was, depth, q, s))
  {
    hide DirTiled, FirstNamed, Listing, Records, DotsIn, Kids, TreeOk, LinksOk, OnlyDots, Deleted, KeepsDots, Refs, ParentOf, Ranked, TreeAt,
      DirRemoved, Unlinked, UpsBut, SameUps, Above;
    if dir {
      DirRemovedAt(was, mid, depth, q, t, target);
    } else {
      assert Hangs(was);
      UnlinkedKeepsLinks(was, mid, q, t, target);
      UnlinkedKeepsTree(was, mid, q, t, target);
      FileHasNoKids(was, mid, depth, t);
    }
    TreeRanked(was, depth);
    TreeRanked(mid, depth);
    AboveKept(was, mid, depth, t, q, s);
  }

  lemma TreeRanked(views: seq<View>, depth: seq<nat>)
    requires TreeOk(views, depth)
    ensures Ranked(views, depth)
  {
    hide DirTiled, Records, DotsIn, Kids, ParentOf;
  }

  lemma FileHasNoKids(was: seq<View>, mid: seq<View>, depth: seq<nat>, t: nat)
    requires TreeOk(was, depth) && SameUps(was, mid) && t < |was| && was[t].kind != Directory
    ensures UpsBut(was, mid, t)
  {
    hide DirTiled, Records, DotsIn, Kids, ParentOf, Ranked;
    forall d: nat | d < |was| && d != t ensures ParentOf(was, d) != Some(t) {
      if d == ROOTINO {
        RootHasNoParent(was, depth);
      } else if ParentOf(was, d).Some? {
        ParentIsDir(was, depth, d);
      }
    }
  }

  lemma RoomIsNotFull(g: Geometry, groups: seq<CylGroup>, ino: Inode, f: seq<byte>, need: nat)
    requires ino.Shaped() && |groups| == g.ncg && !NoRoom(DirectPart(g, f), need)
    ensures !Full(g, groups, ino, f, need)
  {
    hide NoRoom, DirectPart, CannotGrow;
  }

  /** What a rename that stored the new name leaves, the old bearer of the name gone in `mid`. */
  ghost predicate MovedOver(was: seq<View>, mid: seq<View>, now: seq<View>, p: nat, name: seq<byte>, q: nat, target: seq<byte>,
                            rc: Rc, ready: bool) {
    && p < |was| && q < |was| && Lookup(was, p, name).Some?
    && var s := Lookup(was, p, name).value;
    && s < |was| && |mid| == |was| && Vacated(was, mid, q, target, was[s].kind == Directory) && OnlyThose(mid, now, p, q, s)
    && (rc != Ok ==> WithEntry(mid, now, q, Entry(target, s)) && !ready)
    && (rc == Ok && Removable(was[p].bytes, name) ==> ready && Renamed(mid, now, p, name, q, target, s))
  }

  /** From the checks on. */
  method MoveOver(img: Image, p: nat, name: seq<byte>, q: nat, target: seq<byte>, s: nat, t: Option<nat>, ghost depth: seq<nat>)
      returns (rc: Rc, ghost mid: seq<View>)
    requires Ready(img) && p < |img.inodes| && q < |img.inodes| && p != q && NameOk(name) && NameOk(target)
    requires TreeOk(ViewsOf(img), depth) && RenameRefusal(ViewsOf(img), p, name, q, target) == Ok
    requires Lookup(ViewsOf(img), p, name) == Some(s) && Lookup(ViewsOf(img), q, target) == t && t != Some(s)
    requires Removable(ViewsOf(img)[q].bytes, target)
    modifies img`groups, img`csum, img`total, img`disk, img`inodes
    ensures img.Valid() && Sound(img.g, img.groups, img.inodes, img.disk) && |old(img.groups)| == img.g.ncg
    ensures var was, now := old(ViewsOf(img)), ViewsOf(img);
            var way := WayRc(img.g, old(img.groups), old(img.inodes[q]), was, q, target);
            && (way != Ok ==> rc == way && Ready(img) && now == was)
            && (way == Ok ==> rc == RemoveOutcome(img.g, was[p].bytes, name)
                              && MovedOver(was, mid, now, p, name, q, target, rc, Ready(img)))
    ensures Tallied(img.g, old(img.groups), old(ViewsOf(img)), img.groups, ViewsOf(img))
    ensures Carried(img.g, old(img.groups), old(img.inodes), old(img.disk), img.groups, img.inodes, img.disk)
  {
    hide Tallied, Superblock.Valid, CylGroup.Valid, FileBytes, DirTiled, FreeSet, SameInodes, Sound, Views, WithEntry, InUse, LinksOk, TreeOk, Hangs,
      FileOk, Owned, TooLong, Full, Carried, Listing, DirOk, Removable, RemoveOutcome, NoRoom, DirectPart, OwnedBy, IsDir, OnlyThose,
      CountsOwned, Above, FirstNamed, Tidy, Renamed, Records, Vacated, Inside, RenameRefusal, ReplaceRefusal;
    ghost var groups, inodes, disk, was := img.groups, img.inodes, img.disk, ViewsOf(img);
    mid := was;
    LinksWere(img.g, img.groups, img.inodes, img.disk);
    Checked(was, depth, p, name, q, target, s);
    TalliedNothing(img.g, groups, was);
    TidyParts(img.g, img.groups, img.inodes, img.disk, q);
    CarriedNothing(img.g, groups, inodes, disk);
    if t.Some? {
      rc := MakeWay(img, q, target, s, t.value);
      if rc != Ok {
        TidyParts(img.g, img.groups, img.inodes, img.disk, q);
        return;
      }
      mid := ViewsOf(img);
      VacatedIs(was, mid, p, name, q, target, s, t.value);
      VacatedTree(was, mid, depth, q, target, t.value, was[s].kind == Directory, s);
      ViewsAt(img.g, img.disk, img.inodes);
      TidyParts(img.g, img.groups, img.inodes, img.disk, q);
      RoomIsNotFull(img.g, img.groups, img.inodes[q], mid[q].bytes, DirentSize(|target|));
    } else {
      VacatedNothing(was, q, target, was[s].kind == Directory);
    }
    ghost var groups1, inodes1, disk1 := img.groups, img.inodes, img.disk;
    ghost var views1 := ViewsOf(img);
    rc := MoveName(img, p, name, q, target, s, depth);
    TalliedTwice(img.g, groups, was, groups1, views1, img.groups, ViewsOf(img));
    CarriedTwice(img.g, groups, inodes, disk, groups1, inodes1, disk1, img.groups, img.inodes, img.disk);
  }

  /** nextufs_path_rename into another directory. It does nothing, or clears the new name and moves
      the old one there; only when the old entry cannot be removed does it stop half way, with two
      names and one link. */
  method Rename(img: Image, p: nat, name: seq<byte>, q: nat, target: seq<byte>) returns (rc: Rc, ghost mid: seq<View>)
    requires Ready(img) && p < |img.inodes| && q < |img.inodes| && p != q && NameOk(name) && NameOk(target)
    requires RenameRefusal(ViewsOf(img), p, name, q, target) == Ok ==> Removable(ViewsOf(img)[q].bytes, target)
    modifies img`groups, img`csum, img`total, img`disk, img`inodes
    ensures img.Valid() && Sound(img.g, img.groups, img.inodes, img.disk) && |old(img.groups)| == img.g.ncg
    ensures rc == RenameRc(img.g, old(img.groups), old(img.inodes[q]), old(ViewsOf(img)), p, name, q, target)
    ensures if Moves(img.g, old(img.groups), old(img.inodes[q]), old(ViewsOf(img)), p, name, q, target)
            then MovedOver(old(ViewsOf(img)), mid, ViewsOf(img), p, name, q, target, rc, Ready(img))
            else Ready(img) && ViewsOf(img) == old(ViewsOf(img))
    ensures Tallied(img.g, old(img.groups), old(ViewsOf(img)), img.groups, ViewsOf(img))
    ensures Carried(img.g, old(img.groups), old(img.inodes), old(img.disk), img.groups, img.inodes, img.disk)
  {
    hide Tallied, Superblock.Valid, CylGroup.Valid, FileBytes, DirTiled, FreeSet, Sound, Views, InUse, LinksOk, TreeOk, FileOk, Owned, TooLong,
      Full, Carried, Listing, Removable, RemoveOutcome, OwnedBy, FirstNamed, Tidy, MovedOver, RenameRefusal, WayRc;
    ghost var was := ViewsOf(img);
    mid := was;
    CarriedNothing(img.g, img.groups, img.inodes, img.disk);
    TalliedNothing(img.g, img.groups, was);
    LinksWere(img.g, img.groups, img.inodes, img.disk);
    TidyParts(img.g, img.groups, img.inodes, img.disk, q);
    ghost var depth: seq<nat> :| TreeOk(was, depth);
    var s, t;
    rc, s, t := CheckRename(img, p, name, q, target, depth);
    if rc == Ok && t != Some(s) {
      rc, mid := MoveOver(img, p, name, q, target, s, t, depth);
    }
  }

  lemma VacatedNothing(was: seq<View>, q: nat, target: seq<byte>, dir: bool)
    requires q < |was| && Lookup(was, q, target) == None
    ensures Vacated(was, was, q, target, dir)
  {
    hide FirstNamed, Listing;
  }

  /** What the checks have established. */
  lemma Checked(was: seq<View>, depth: seq<nat>, p: nat, name: seq<byte>, q: nat, target: seq<byte>, s: nat)
    requires LinksOk(was) && TreeOk(was, depth) && p < |was| && q < |was|
    requires RenameRefusal(was, p, name, q, target) == Ok && Lookup(was, p, name) == Some(s)
    ensures name != DOT && name != DOTDOT && target != DOT && target != DOTDOT
    ensures was[p].kind == Directory && was[q].kind == Directory && s < |was| && s != q && s != p
    ensures was[s].kind == Directory ==> !Above(was, depth, q, s)
    ensures var t := Lookup(was, q, target); t.Some? && t.value != s ==> t.value < |was| && ReplaceRefusal(was, q, s, t.value) == Ok
    ensures var t := Lookup(was, q, target);
            t.Some? && t.value != s && was[s].kind != Directory ==> was[t.value].kind != Directory
  {
    hide DirTiled, FirstNamed, Listing, Records, DotsIn, KidsIn, ParentOf, Ranked, TreeAt, TreeOk, Refs, Above, Inside, OnlyDots;
    TreeRanked(was, depth);
    InsideIs(was, depth, q, s);
    Movable(was, depth, p, name, q, s);
  }
}
