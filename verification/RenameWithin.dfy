/** nextufs_path_rename inside one directory. The command holds two copies of the parent inode and
    writes the older one back last. */
module RenameWithin {
  import opened Geometry
  import opened Image
  import opened Storage
  import opened Mutate
  import opened Tally
  import opened Dirents
  import opened Dirs
  import opened Links
  import opened Tree
  import opened Commands
  import opened Rename

  /** In a well-formed listing an entry is what its name is looked up to. */
  lemma FoundBy(es: seq<Entry>, name: seq<byte>, s: nat)
    requires Distinct(es) && Entry(name, s) in es
    ensures FirstNamed(es, name) == Some(s)
  {
    hide FirstNamed;
    FirstNamedIs(es, name);
    var j, k :| 0 <= j < |es| && 0 <= k < |es| && es[j] == Entry(name, s) && es[k] == Entry(name, FirstNamed(es, name).value);
  }

  lemma StillThere(was: seq<Entry>, now: seq<Entry>, name: seq<byte>, e: Entry)
    requires Deleted(was, now, name) && e in was && e.name != name
    ensures e in now
  {
    var a, x, c := DeletedParts(was, now, name);
  }

  lemma StillIn(was: seq<Entry>, now: seq<Entry>, new_: Entry, e: Entry)
    requires Inserted(was, now, new_) && e in was
    ensures e in now
  {
    var k :| 0 <= k <= |was| && now == was[..k] + [new_] + was[k..];
    assert was == was[..k] + was[k..];
  }

  /** The name of s in p is another, and the link counts are as before. */
  lemma LinksMoved(mid: seq<View>, both: seq<View>, now: seq<View>, p: nat, name: seq<byte>, target: seq<byte>, s: nat)
    requires LinksOk(mid) && p < |mid| && mid[p].kind == Directory && s < |mid|
    requires WithEntry(mid, both, p, Entry(target, s)) && WithoutEntry(both, now, p, name)
    requires FirstNamed(Listing(mid[p].bytes), target).None? && FirstNamed(Listing(both[p].bytes), name) == Some(s)
    requires name != DOT && name != DOTDOT
    ensures LinksOk(now)
  {
    hide DirTiled, Records, DirOk, Inserted, Deleted, FirstNamed, Listing, KeepsDots, Named, Refs;
    assert DirOk(mid[p].bytes, p, |mid|);
    InsertedOk(mid[p].bytes, both[p].bytes, Entry(target, s), p, |mid|);
    DeletedOk(both[p].bytes, now[p].bytes, name, p, |mid|);
    assert now == mid[p := now[p]];
    forall k: nat | k < |now| ensures now[k].nlink == Refs(now, k) {
      RefsMoved(mid, both, now, p, name, target, s, k);
      assert mid[k].nlink == Refs(mid, k);
    }
  }

  lemma RefsMoved(mid: seq<View>, both: seq<View>, now: seq<View>, p: nat, name: seq<byte>, target: seq<byte>, s: nat, k: nat)
    requires p < |mid| && mid[p].kind == Directory && WithEntry(mid, both, p, Entry(target, s)) && WithoutEntry(both, now, p, name)
    requires FirstNamed(Listing(both[p].bytes), name) == Some(s)
    ensures Refs(now, k) == Refs(mid, k)
  {
    hide DirTiled, Records, Inserted, Deleted, FirstNamed, Listing, KeepsDots, Named, Refs;
    assert now == mid[p := now[p]];
    RefsUpdate(mid, p, now[p], k);
    NamedInserted(mid[p], both[p], Entry(target, s), k);
    NamedDeleted(both[p], now[p], name, k);
  }

  /** And so is the tree. */
  lemma TreeMoved(mid: seq<View>, both: seq<View>, now: seq<View>, p: nat, name: seq<byte>, target: seq<byte>, s: nat)
    requires Hangs(mid) && p < |mid| && IsDirView(mid[p])
    requires WithEntry(mid, both, p, Entry(target, s)) && WithoutEntry(both, now, p, name)
    requires FirstNamed(Listing(both[p].bytes), name) == Some(s)
    requires name != DOT && name != DOTDOT && target != DOT && target != DOTDOT
    ensures Hangs(now)
  {
    hide DirTiled, Records, Inserted, Deleted, FirstNamed, Listing, KeepsDots, Hangs, Kids, WithEntry, WithoutEntry, TreeOk, SameKids, SameBytes, SameUps;
    DirMoved(mid, both, now, p, name, target, s);
    forall d: nat | d < |mid| && IsDirView(mid[d]) ensures SameKids(mid, now, p, d) {
      KidsMoved(mid, both, now, p, name, target, s, d);
    }
    NamesStep(mid, now, p);
  }

  lemma DirMoved(mid: seq<View>, both: seq<View>, now: seq<View>, p: nat, name: seq<byte>, target: seq<byte>, s: nat)
    requires p < |mid| && WithEntry(mid, both, p, Entry(target, s)) && WithoutEntry(both, now, p, name)
    ensures |now| == |mid| && now[p].kind == mid[p].kind && DirTiled(now[p].bytes)
    ensures forall d: nat | d < |mid| && d != p :: SameBytes(mid[d], now[d])
    ensures KeepsDots(Records(mid[p].bytes), Records(now[p].bytes))
  {
    hide DirTiled, Records, Inserted, Deleted, FirstNamed, Listing, KeepsDots;
    KeepsTwice(Records(mid[p].bytes), Records(both[p].bytes), Records(now[p].bytes));
  }

  lemma KidsMoved(mid: seq<View>, both: seq<View>, now: seq<View>, p: nat, name: seq<byte>, target: seq<byte>, s: nat, d: nat)
    requires p < |mid| && WithEntry(mid, both, p, Entry(target, s)) && WithoutEntry(both, now, p, name) && |now| == |mid|
    requires FirstNamed(Listing(both[p].bytes), name) == Some(s)
    requires name != DOT && name != DOTDOT && target != DOT && target != DOTDOT
    ensures SameKids(mid, now, p, d)
  {
    hide DirTiled, Records, Inserted, Deleted, FirstNamed, Listing, KeepsDots, Kids;
    KidsAfterInsert(mid[p], both[p], Entry(target, s), d);
    KidsAfterDelete(both[p], now[p], name, d);
  }

  lemma KeepsTwice(a: seq<Dirent>, b: seq<Dirent>, c: seq<Dirent>)
    requires KeepsDots(a, b) && KeepsDots(b, c)
    ensures KeepsDots(a, c)
  {
  }

  /** Once the old bearer of the new name is gone the moved name is still there. */
  lemma VacatedWithin(was: seq<View>, mid: seq<View>, p: nat, name: seq<byte>, target: seq<byte>, s: nat, t: nat)
    requires LinksOk(was) && LinksOk(mid) && p < |was| == |mid| && s < |was| && t < |was| && s != t && s != p && was[p].kind == Directory
    requires Lookup(was, p, name) == Some(s) && Lookup(was, p, target) == Some(t) && name != DOT && name != DOTDOT
    requires ReplaceRefusal(was, p, s, t) == Ok && Vacated(was, mid, p, target, was[s].kind == Directory)
    ensures mid[s] == was[s] && mid[p].kind == Directory && Lookup(mid, p, target) == None && Lookup(mid, p, name) == Some(s) && t != p
    ensures mid[p].nlink + (if was[s].kind == Directory then 1 else 0) == was[p].nlink
  {
    hide DirTiled, FirstNamed, Listing, Records, OnlyDots, Deleted, KeepsDots, Refs;
    assert DirOk(was[p].bytes, p, |was|);
    if was[s].kind == Directory {
      var now := mid[t := was[t]][p := mid[p].(nlink := was[p].nlink)];
      assert now[p].bytes == mid[p].bytes && now[s] == mid[s];
    } else {
      assert mid[t := was[t]][p] == mid[p] && mid[t := was[t]][s] == mid[s];
    }
    assert DirOk(mid[p].bytes, p, |mid|);
    FreedName(Listing(was[p].bytes), Listing(mid[p].bytes), target);
    FirstNamedIs(Listing(was[p].bytes), name);
    StillThere(Listing(was[p].bytes), Listing(mid[p].bytes), target, Entry(name, s));
    FoundBy(Listing(mid[p].bytes), name, s);
  }

  /** Both names in one directory. */
  lemma BothNamed(mid: seq<View>, both: seq<View>, p: nat, name: seq<byte>, target: seq<byte>, s: nat)
    requires LinksOk(mid) && p < |mid| && mid[p].kind == Directory && s < |mid| && s != p
    requires WithEntry(mid, both, p, Entry(target, s)) && Lookup(mid, p, name) == Some(s) && Lookup(mid, p, target) == None
    ensures |both| == |mid| && both[p].kind == Directory && DirTiled(both[p].bytes) && Lookup(both, p, name) == Some(s)
    ensures !LinksOk(both)
  {
    hide DirTiled, FirstNamed, Listing, Records, Inserted, KeepsDots, DirOk, Refs;
    assert DirOk(mid[p].bytes, p, |mid|);
    InsertedOk(mid[p].bytes, both[p].bytes, Entry(target, s), p, |mid|);
    FirstNamedIs(Listing(mid[p].bytes), name);
    StillIn(Listing(mid[p].bytes), Listing(both[p].bytes), Entry(target, s), Entry(name, s));
    FoundInDir(both[p].bytes, p, |mid|, name, s);
    NamedTwice(mid, both, p, target, s);
  }

  lemma FoundInDir(f: seq<byte>, self: nat, n: nat, name: seq<byte>, s: nat)
    requires DirOk(f, self, n) && Entry(name, s) in Listing(f)
    ensures FirstNamed(Listing(f), name) == Some(s)
  {
    hide DirTiled, FirstNamed, Listing;
    FoundBy(Listing(f), name, s);
  }

  /** A parent's link count one too high. */
  lemma OneTooMany(views: seq<View>, p: nat)
    requires LinksOk(views) && p < |views|
    ensures !LinksOk(views[p := views[p].(nlink := views[p].nlink + 1)])
  {
    hide DirOk, Named, Refs;
    var v := views[p].(nlink := views[p].nlink + 1);
    RefsUpdate(views, p, v, p);
    SameNames(views[p], v, p);
    assert views[p].nlink == Refs(views, p);
    assert views[p := v][p].nlink != Refs(views[p := v], p);
  }

  /** The new name goes into the directory as it is, so the two copies of its inode differ in the link
      count at most. */
  ghost predicate NotGrown(g: Geometry, groups: seq<CylGroup>, ino: Inode, views: seq<View>, p: nat, target: seq<byte>)
    requires p < |views|
  {
    Lookup(views, p, target).Some? || Roomy(g, views, p, target) || TakesNone(g, groups, ino, views, p, target)
  }

  /** What a rename inside a directory leaves once the new name is stored: `mid` without the old bearer
      of the name, `both` with the two names. The entry of the old name goes, and the link count is the
      one the directory had at first: one too high when a directory was replaced. */
  ghost predicate MovedWithin(g: Geometry, was: seq<View>, mid: seq<View>, both: seq<View>, now: seq<View>, p: nat, name: seq<byte>,
                              target: seq<byte>, rc: Rc, ready: bool) {
    && p < |was| == |mid| == |both| == |now| && Lookup(was, p, name).Some?
    && var s := Lookup(was, p, name).value;
    && s < |was| && Vacated(was, mid, p, target, was[s].kind == Directory) && WithEntry(mid, both, p, Entry(target, s))
    && rc == RemoveOutcome(g, both[p].bytes, name)
    && (rc != Ok ==> now == both && !ready)
    && (rc == Ok ==> now == both[p := both[p].(bytes := now[p].bytes, nlink := was[p].nlink)])
    && (rc == Ok && Removable(both[p].bytes, name) ==>
          && WithoutEntry(both, both[p := both[p].(bytes := now[p].bytes)], p, name)
          && (ready <==> mid[p].nlink == was[p].nlink))
  }

  /** The older copy goes back over a directory that has the moved name. */
  lemma WrittenBack(mid: seq<View>, both: seq<View>, good: seq<View>, now: seq<View>, p: nat, name: seq<byte>, target: seq<byte>, s: nat, n: nat)
    requires LinksOk(mid) && Hangs(mid) && p < |mid| && mid[p].kind == Directory && s < |mid| && s != p
    requires WithEntry(mid, both, p, Entry(target, s)) && WithoutEntry(both, good, p, name)
    requires Lookup(mid, p, name) == Some(s) && Lookup(mid, p, target) == None && (n == mid[p].nlink || n == mid[p].nlink + 1)
    requires name != DOT && name != DOTDOT && target != DOT && target != DOTDOT
    requires now == good[p := good[p].(nlink := n)]
    ensures if n == mid[p].nlink then LinksOk(now) && Hangs(now) else !LinksOk(now)
  {
    hide WithEntry, WithoutEntry, LinksOk, Hangs, FirstNamed, Listing;
    BothNamed(mid, both, p, name, target, s);
    LinksMoved(mid, both, good, p, name, target, s);
    TreeMoved(mid, both, good, p, name, target, s);
    SameCount(mid, both, good, p, name, target, s);
    if n == mid[p].nlink {
      assert now == good;
    } else {
      OneTooMany(good, p);
    }
  }

  lemma SameCount(mid: seq<View>, both: seq<View>, good: seq<View>, p: nat, name: seq<byte>, target: seq<byte>, s: nat)
    requires p < |mid| && WithEntry(mid, both, p, Entry(target, s)) && WithoutEntry(both, good, p, name)
    ensures |good| == |both| == |mid| && good[p].nlink == both[p].nlink == mid[p].nlink
    ensures forall k | 0 <= k < |mid| :: good[k].kind == both[k].kind == mid[k].kind
  {
    hide DirTiled, Inserted, Deleted, Listing, Records, KeepsDots;
  }

  /** From the checks on, when the new name is free: the new entry, then the old one, then the older
      copy of the inode. */
  method MoveEntry(img: Image, p: nat, name: seq<byte>, target: seq<byte>, s: nat, node: Inode) returns (rc: Rc, ghost both: seq<View>)
    requires Ready(img) && p < |img.inodes| && NameOk(name) && NameOk(target) && s < |img.inodes| && s != p
    requires name != DOT && name != DOTDOT && target != DOT && target != DOTDOT && ViewsOf(img)[p].kind == Directory
    requires Lookup(ViewsOf(img), p, name) == Some(s) && Lookup(ViewsOf(img), p, target) == None
    requires img.inodes[p] == node.(nlink := img.inodes[p].nlink)
    requires node.nlink == img.inodes[p].nlink || node.nlink == img.inodes[p].nlink + 1
    requires Roomy(img.g, ViewsOf(img), p, target) || TakesNone(img.g, img.groups, img.inodes[p], ViewsOf(img), p, target)
    modifies img`groups, img`csum, img`total, img`disk, img`inodes
    ensures img.Valid() && Sound(img.g, img.groups, img.inodes, img.disk)
    ensures !old(Roomy(img.g, ViewsOf(img), p, target)) ==> rc == NoSpace && Ready(img) && ViewsOf(img) == old(ViewsOf(img))
    ensures var mid, now := old(ViewsOf(img)), ViewsOf(img);
            Roomy(img.g, mid, p, target) ==>
            && p < |mid| == |both| == |now| && WithEntry(mid, both, p, Entry(target, s))
            && rc == RemoveOutcome(img.g, both[p].bytes, name)
            && (rc != Ok ==> now == both && !Ready(img))
            && (rc == Ok ==> now == both[p := both[p].(bytes := now[p].bytes, nlink := node.nlink)])
            && (rc == Ok && Removable(both[p].bytes, name) ==>
                  && WithoutEntry(both, both[p := both[p].(bytes := now[p].bytes)], p, name)
                  && (Ready(img) <==> mid[p].nlink == node.nlink))
    ensures Tallied(img.g, old(img.groups), old(ViewsOf(img)), img.groups, ViewsOf(img))
    ensures Carried(img.g, old(img.groups), old(img.inodes), old(img.disk), img.groups, img.inodes, img.disk)
  {
    hide Tallied, Superblock.Valid, CylGroup.Valid, FileBytes, DirTiled, FreeSet, SameInodes, Sound, Views, WithEntry, InUse, LinksOk, Hangs,
      FileOk, Owned, TooLong, Full, Carried, Listing, DirOk, WithoutEntry, Removable, RemoveOutcome, NoRoom, DirectPart, OwnedBy, IsDir,
      CountsOwned, FirstNamed, Tidy, Records, DotsIn;
    ghost var groups, inodes, disk, mid := img.groups, img.inodes, img.disk, ViewsOf(img);
    LinksWere(img.g, img.groups, img.inodes, img.disk);
    TidyParts(img.g, img.groups, img.inodes, img.disk, p);
    ViewsAt(img.g, img.disk, img.inodes);
    NamedLive(mid, p, name, s);
    CarriedNothing(img.g, groups, inodes, disk);
    TalliedNothing(img.g, groups, mid);
    if Roomy(img.g, mid, p, target) {
      RoomIsNotFull(img.g, img.groups, img.inodes[p], mid[p].bytes, DirentSize(|target|));
    }
    rc := InsertDirent(img, p, target, s);
    both := ViewsOf(img);
    if rc != Ok {
      return;
    }
    ghost var disk1 := img.disk;
    BothNamed(mid, both, p, name, target, s);
    DirIs(img.g, img.groups, img.inodes, img.disk, p);
    var removed;
    rc, removed := RemoveDirent(img, p, name);
    ghost var good, disk2 := ViewsOf(img), img.disk;
    SameMid(both, p);
    CarriedTwice(img.g, groups, inodes, disk, groups, inodes, disk1, img.groups, img.inodes, img.disk);
    EntryAdded(mid, both, p, Entry(target, s));
    TalliedSame(img.g, groups, mid, img.groups, good);
    if rc != Ok {
      NotTidy(img.g, img.groups, img.inodes, img.disk);
      return;
    }
    SoundSize(img.g, img.groups, img.inodes, img.disk);
    Relinked(img.g, img.groups, img.inodes, img.disk, p, node.nlink);
    img.inodes := img.inodes[p := node];
    CarriedTwice(img.g, groups, inodes, disk, groups, inodes, disk2, img.groups, img.inodes, img.disk);
    TalliedSame(img.g, groups, mid, img.groups, ViewsOf(img));
    if Removable(both[p].bytes, name) {
      WrittenBack(mid, both, good, ViewsOf(img), p, name, target, s, node.nlink);
      if node.nlink == mid[p].nlink {
        NowTidy(img.g, img.groups, img.inodes, img.disk);
      } else {
        NotTidy(img.g, img.groups, img.inodes, img.disk);
      }
    }
  }

  /** nextufs_path_rename inside one directory that need not grow for the new name. It does nothing, or
      clears the new name and moves the old one there; the links are right afterwards exactly when no
      directory was replaced. */
  method RenameWithin(img: Image, p: nat, name: seq<byte>, target: seq<byte>) returns (rc: Rc, ghost mid: seq<View>, ghost both: seq<View>)
    requires Ready(img) && p < |img.inodes| && NameOk(name) && NameOk(target)
    requires RenameRefusal(ViewsOf(img), p, name, p, target) == Ok ==>
               && Removable(ViewsOf(img)[p].bytes, target)
               && NotGrown(img.g, img.groups, img.inodes[p], ViewsOf(img), p, target)
    modifies img`groups, img`csum, img`total, img`disk, img`inodes
    ensures img.Valid() && Sound(img.g, img.groups, img.inodes, img.disk) && |old(img.groups)| == img.g.ncg
    ensures if Moves(img.g, old(img.groups), old(img.inodes[p]), old(ViewsOf(img)), p, name, p, target)
            then MovedWithin(img.g, old(ViewsOf(img)), mid, both, ViewsOf(img), p, name, target, rc, Ready(img))
            else && rc == RenameRc(img.g, old(img.groups), old(img.inodes[p]), old(ViewsOf(img)), p, name, p, target)
                 && Ready(img) && ViewsOf(img) == old(ViewsOf(img))
    ensures Tallied(img.g, old(img.groups), old(ViewsOf(img)), img.groups, ViewsOf(img))
    ensures Carried(img.g, old(img.groups), old(img.inodes), old(img.disk), img.groups, img.inodes, img.disk)
  {
    hide Tallied, Superblock.Valid, CylGroup.Valid, FileBytes, DirTiled, FreeSet, Sound, Views, InUse, LinksOk, TreeOk, FileOk, Owned, TooLong,
      Full, Carried, Listing, Removable, RemoveOutcome, OwnedBy, FirstNamed, Tidy, RenameRefusal, Vacated, WithEntry, WithoutEntry, NoRoom,
      DirectPart, ReplaceRefusal, Inside, Above, IsDir, DirOk;
    ghost var groups, inodes, disk, was := img.groups, img.inodes, img.disk, ViewsOf(img);
    mid, both := was, was;
    CarriedNothing(img.g, img.groups, img.inodes, img.disk);
    TalliedNothing(img.g, img.groups, was);
    LinksWere(img.g, img.groups, img.inodes, img.disk);
    TidyParts(img.g, img.groups, img.inodes, img.disk, p);
    ViewsAt(img.g, img.disk, img.inodes);
    ghost var depth: seq<nat> :| TreeOk(was, depth);
    var s, t;
    rc, s, t := CheckRename(img, p, name, p, target, depth);
    if rc != Ok || t == Some(s) {
      return;
    }
    Checked(was, depth, p, name, p, target, s);
    var node := img.inodes[p];
    if t.Some? {
      rc := MakeWay(img, p, target, s, t.value);
      if rc != Ok {
        TidyParts(img.g, img.groups, img.inodes, img.disk, p);
        return;
      }
      mid := ViewsOf(img);
      LinksWere(img.g, img.groups, img.inodes, img.disk);
      VacatedWithin(was, mid, p, name, target, s, t.value);
      ViewsAt(img.g, img.disk, img.inodes);
    } else {
      VacatedNothing(was, p, target, was[s].kind == Directory);
      if Roomy(img.g, was, p, target) {
        RoomIsNotFull(img.g, img.groups, img.inodes[p], was[p].bytes, DirentSize(|target|));
      }
    }
    ghost var groups1, inodes1, disk1 := img.groups, img.inodes, img.disk;
    rc, both := MoveEntry(img, p, name, target, s, node);
    TalliedTwice(img.g, groups, was, groups1, mid, img.groups, ViewsOf(img));
    CarriedTwice(img.g, groups, inodes, disk, groups1, inodes1, disk1, img.groups, img.inodes, img.disk);
  }
}
