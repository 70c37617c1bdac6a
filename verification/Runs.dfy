/** Runs of commands: what users see, what the commands answer, and what fsck finds afterwards. */
module Runs {
  import opened Geometry
  import opened Image
  import opened Room
  import opened Indirect
  import opened Storage
  import opened Mutate
  import opened Tally
  import opened Dirents
  import opened Dirs
  import opened Links
  import opened Tree
  import opened Commands
  import opened Rename
  import opened FsckClaims
  import opened FsckRead
  import opened FsckWalk
  import opened FsckClean

  datatype Op =
    | Create(p: nat, name: seq<byte>, data: seq<byte>)
    | EditIt(i: nat, e: Edit)
    | Delete(p: nat, name: seq<byte>)
    | MakeDir(p: nat, name: seq<byte>)
    | RemoveDir(p: nat, name: seq<byte>)
    | LinkTo(p: nat, name: seq<byte>, text: seq<byte>)
    | Node(p: nat, name: seq<byte>, kind: Kind, dev: nat)
    | HardLink(p: nat, name: seq<byte>, src: nat)
    | Move(p: nat, name: seq<byte>, q: nat, target: seq<byte>)
  {
    /** The inodes the command is pointed at are in the table, and its names came from paths. */
    ghost predicate Posed(n: nat) {
      match this
      case EditIt(i, _) => i < n
      case Move(p, name, q, target) => p < n && q < n && p != q && NameOk(name) && NameOk(target)
      case HardLink(p, name, src) => p < n && src < n && NameOk(name)
      case _ => this.p < n && NameOk(this.name)
    }
  }

  /** The image at one moment. */
  datatype Snap = Snap(groups: seq<CylGroup>, inodes: seq<Inode>, disk: seq<byte>)

  ghost function At(g: Geometry, s: Snap): (views: seq<View>)
    ensures |views| == |s.inodes|
  {
    Views(g, s.disk, s.inodes)
  }

  ghost function SnapOf(img: Image): Snap
    reads img
  {
    Snap(img.groups, img.inodes, img.disk)
  }

  /** What a command that succeeds does to what users see. */
  ghost predicate Did(op: Op, was: seq<View>, now: seq<View>)
    requires op.Posed(|was|)
  {
    match op
    case Create(p, name, data) => exists i: nat :: Created(was, now, p, i, View(Regular, 1, data), name)
    case EditIt(i, e) => |now| == |was| && IsEdited(e, was[i].bytes, now[i].bytes) && now == was[i := was[i].(bytes := now[i].bytes)]
    case Delete(p, name) => exists t: nat :: Unlinked(was, now, p, t, name)
    case MakeDir(p, name) => exists i: nat, v: View :: DirMade(was, now, p, i, v, name)
    case RemoveDir(p, name) => exists t: nat :: DirRemoved(was, now, p, t, name)
    case LinkTo(p, name, text) => exists i: nat :: Created(was, now, p, i, View(Kind.Symlink, 1, text), name)
    case Node(p, name, kind, _) => exists i: nat :: Created(was, now, p, i, View(kind, 1, []), name)
    case HardLink(p, name, src) => WithEntry(Counted(was, src), now, p, Entry(name, src))
    case Move(p, name, q, target) =>
      if Already(was, p, name, q, target) then now == was
      else exists s: nat, mid: seq<View> ::
             s < |was| == |mid| && Vacated(was, mid, q, target, was[s].kind == Directory) && Renamed(mid, now, p, name, q, target, s)
  }

  /** Inode i has one link more. */
  ghost function Counted(views: seq<View>, i: nat): seq<View>
    requires i < |views|
  {
    views[i := views[i].(nlink := views[i].nlink + 1)]
  }

  /** How a command may end, by the state it starts in. */
  ghost predicate Answers(g: Geometry, s: Snap, op: Op, rc: Rc)
    requires op.Posed(|s.inodes|) && |s.groups| == g.ncg
  {
    var views, groups := At(g, s), s.groups;
    match op
    case Create(p, name, data) =>
      Makes(g, s, p, name, rc, NewFileRc(g, groups, Home(g, p), |data|), Asked(g, Blocks(g, |data|)) < Wholes(g, groups), data == [])
    case LinkTo(p, name, text) =>
      Makes(g, s, p, name, rc, SymlinkRc(g, groups, Home(g, p), |text|), SymlinkBlocks(g, |text|) < Wholes(g, groups), |text| <= INLINE_MAX)
    case Node(p, name, kind, _) =>
      if kind != Regular && kind != Special then rc == Invalid
      else Makes(g, s, p, name, rc, if InodeLeft(groups, Home(g, p)) then Ok else NoSpace, false, true)
    case MakeDir(p, name) => Makes(g, s, p, name, rc, MkdirRc(g, groups, Home(g, p)), Wholes(g, groups) > 1, false)
    case EditIt(i, e) =>
      var ino := s.inodes[i];
      rc == if ino.kind != Regular then NotAFile(e)
            else if !(ino.Shaped() && Readable(g, ino, ReadsOld(e, ino.size))) then Invalid
            else StoreRc(g, groups, EditedSize(e, ino.size))
    case Delete(p, name) =>
      var refusal := UnlinkRefusal(views, p, name);
      rc == if refusal != Ok then refusal else RemoveOutcome(g, views[p].bytes, name)
    case RemoveDir(p, name) =>
      var refusal := RmdirRefusal(views, p, name);
      rc == if refusal != Ok then refusal else RemoveOutcome(g, views[p].bytes, name)
    case HardLink(p, name, src) =>
      rc == if name == DOT || name == DOTDOT then Invalid
            else if views[src].kind == Directory then NotPermitted
            else if Refusal(views, p, name) != Ok then Refusal(views, p, name)
            else if s.inodes[p].Shaped() && Full(g, groups, s.inodes[p], views[p].bytes, DirentSize(|name|)) then NoSpace
            else Ok
    case Move(p, name, q, target) => rc == RenameRc(g, groups, s.inodes[q], views, p, name, q, target)
  }

  /** The answer of a command that makes an inode and names it, one that takes no fragment if `bare`. */
  ghost predicate Makes(g: Geometry, s: Snap, p: nat, name: seq<byte>, rc: Rc, stored: Rc, spare: bool, bare: bool)
    requires p < |s.inodes|
  {
    var views := At(g, s);
    var refusal := Refusal(views, p, name);
    if refusal != Ok then rc == refusal
    else if bare then ConcludesBare(rc, stored, TakesNone(g, s.groups, s.inodes[p], views, p, name))
    else Concludes(rc, stored, Roomy(g, views, p, name), Limited(g, views, p, name), spare)
  }

  /** A hard link whose name could not be stored: the one failure that leaves a trace. */
  predicate Spoils(op: Op, rc: Rc) {
    op.HardLink? && rc == NoSpace
  }

  /** The command fails and leaves an inode marked: no fragment for a new directory, or a size past
      the reach of the pointers when not even the first block can be had. */
  ghost predicate Leaves(g: Geometry, s: Snap, op: Op)
    requires op.Posed(|s.inodes|)
  {
    var views := At(g, s);
    match op
    case Create(p, name, data) => Refusal(views, p, name) == Ok && Strands(g, s.groups, Home(g, p), |data|)
    case LinkTo(p, name, text) =>
      Refusal(views, p, name) == Ok && |text| > INLINE_MAX && Strands(g, s.groups, Home(g, p), |text|)
    case MakeDir(p, name) => Refusal(views, p, name) == Ok && InodeLeft(s.groups, Home(g, p)) && !CanHave(g, s.groups, 1)
    case _ => false
  }

  /** What became of the inode maps and the directory counts. */
  ghost predicate Filed(g: Geometry, op: Op, was: Snap, now: Snap)
    requires op.Posed(|was.inodes|)
  {
    exists i: nat :: FiledAt(g, op, was, now, i)
  }

  ghost predicate FiledAt(g: Geometry, op: Op, was: Snap, now: Snap, i: nat)
    requires op.Posed(|was.inodes|)
  {
    && Ledger(g, was.groups, At(g, was), now.groups, At(g, now), Leaves(g, was, op), i, op.MakeDir?)
    && (Leaves(g, was, op) && op.MakeDir? ==> Home(g, i) == Home(g, op.p))
  }

  /** One command: its answer, and what it did or did not do. */
  ghost predicate Step(g: Geometry, op: Op, rc: Rc, was: Snap, now: Snap)
    requires op.Posed(|was.inodes|) && |was.groups| == g.ncg
  {
    && Answers(g, was, op, rc)
    && (rc == Ok ==> Did(op, At(g, was), At(g, now)))
    && (rc != Ok && !Spoils(op, rc) ==> At(g, now) == At(g, was))
    && (Spoils(op, rc) ==> At(g, now) == Counted(At(g, was), op.src))
    && Filed(g, op, was, now)
  }

  /** No free record or far-away block of a directory spoils the command. */
  ghost predicate Safe(g: Geometry, views: seq<View>, op: Op)
    requires op.Posed(|views|)
  {
    match op
    case Delete(p, name) => Clear(views, p, name)
    case RemoveDir(p, name) => Clear(views, p, name)
    case HardLink(_, _, src) => views[src].kind != Unused
    case Move(p, name, q, target) => Clear(views, p, name) && Clear(views, q, target) && Near(g, views, p)
    case _ => true
  }

  ghost predicate Clear(views: seq<View>, p: nat, name: seq<byte>)
    requires p < |views|
  {
    views[p].kind == Directory ==> Removable(views[p].bytes, name)
  }

  /** Direct pointers reach all of a directory, as they do in every directory the program grew. */
  ghost predicate Near(g: Geometry, views: seq<View>, p: nat)
    requires p < |views|
  {
    views[p].kind == Directory ==> |views[p].bytes| <= Start(g, NDADDR)
  }

  /** Whether the entries under a name can be removed without breaking the directory. */
  method IsClear(img: Image, p: nat, name: seq<byte>) returns (ok: bool)
    requires Ready(img) && p < |img.inodes| && NameOk(name)
    ensures ok <==> Clear(ViewsOf(img), p, name)
  {
    hide Superblock.Valid, CylGroup.Valid, FileBytes, DirTiled, FreeSet, Tidy, Sound, Views, Listing, FirstNamed, DirOk,
      FileOk, Owned, TooLong, Removable, Unresolvable, CountsOwned;
    TidyParts(img.g, img.groups, img.inodes, img.disk, p);
    if img.inodes[p].kind != Directory {
      return true;
    }
    SoundAt(img.g, img.groups, img.inodes, img.disk, p);
    var rc, f := InodeReadData(img, img.inodes[p], 0, img.inodes[p].size);
    AllReadable(img.g, img.disk, img.inodes[p]);
    ok := CanRemove(f, name);
  }

  method IsSafe(img: Image, op: Op) returns (ok: bool)
    requires Ready(img) && op.Posed(|img.inodes|)
    ensures ok <==> Safe(img.g, ViewsOf(img), op)
  {
    hide Superblock.Valid, CylGroup.Valid, FileBytes, Tidy, Sound, Views, Clear, BlockSize;
    match op
    case Delete(p, name) =>
      ok := IsClear(img, p, name);
    case RemoveDir(p, name) =>
      ok := IsClear(img, p, name);
    case HardLink(_, _, src) =>
      UnusedIsGone(img.g, img.disk, img.inodes, src);
      ok := img.inodes[src].kind != Unused;
    case Move(p, name, q, target) =>
      ok := IsClear(img, p, name);
      var clear := IsClear(img, q, target);
      TidyParts(img.g, img.groups, img.inodes, img.disk, p);
      ok := ok && clear && (img.inodes[p].kind == Directory ==> img.inodes[p].size <= Start(img.g, NDADDR));
    case _ =>
      ok := true;
  }

  /** An edit of a regular file leaves the links alone. */
  method StepEdit(img: Image, i: nat, e: Edit) returns (rc: Rc)
    requires Ready(img) && i < |img.inodes|
    modifies img`groups, img`csum, img`total, img`disk, img`inodes
    ensures Ready(img) && |old(img.groups)| == img.g.ncg
    ensures Step(img.g, EditIt(i, e), rc, old(SnapOf(img)), SnapOf(img))
    ensures Carried(img.g, old(img.groups), old(img.inodes), old(img.disk), img.groups, img.inodes, img.disk)
  {
    hide Superblock.Valid, CylGroup.Valid, FileBytes, FreeSet, Tidy, Sound, Views, FileOk, Owned, TooLong, InUse,
      Readable, IsEdited, SameInodes, LinksOk, Hangs, Carried, StoreRc, CountsOwned, Tallied, LeftOne;
    ghost var was, groups, before := ViewsOf(img), img.groups, SnapOf(img);
    TidyParts(img.g, img.groups, img.inodes, img.disk, i);
    SoundAt(img.g, img.groups, img.inodes, img.disk, i);
    UnusedIsGone(img.g, img.disk, img.inodes, i);
    LinksWere(img.g, img.groups, img.inodes, img.disk);
    SoundSize(img.g, img.groups, img.inodes, img.disk);
    rc := EditFile(img, i, e);
    SoundSize(img.g, img.groups, img.inodes, img.disk);
    InUseKept(img.g, groups, img.groups);
    EditedTallied(img.g, groups, was, img.groups, ViewsOf(img), i);
    assert FiledAt(img.g, EditIt(i, e), before, SnapOf(img), 0);
    if rc == Ok {
      EditedKeepsLinks(was, i, ViewsOf(img)[i].bytes);
      EditedKeepsTree(was, i, ViewsOf(img)[i].bytes);
    }
    NowTidy(img.g, img.groups, img.inodes, img.disk);
  }

  lemma EditedTallied(g: Geometry, ga: seq<CylGroup>, was: seq<View>, gb: seq<CylGroup>, now: seq<View>, i: nat)
    requires SameInodes(ga, gb) && i < |was| == |now| && (now == was || now == was[i := was[i].(bytes := now[i].bytes)])
    ensures Tallied(g, ga, was, gb, now)
  {
    hide Tallied, SameInodes;
    TalliedSame(g, ga, was, gb, now);
  }

  method StepMake(img: Image, op: Op) returns (rc: Rc)
    requires Ready(img) && op.Posed(|img.inodes|) && (op.Create? || op.LinkTo? || op.Node? || op.MakeDir?)
    modifies img`groups, img`csum, img`total, img`disk, img`inodes
    ensures Ready(img) && |old(img.groups)| == img.g.ncg
    ensures Step(img.g, op, rc, old(SnapOf(img)), SnapOf(img))
    ensures Carried(img.g, old(img.groups), old(img.inodes), old(img.disk), img.groups, img.inodes, img.disk)
  {
    hide Superblock.Valid, CylGroup.Valid, Tidy, Views, Created, DirMade, Refusal, Carried, Concludes, Limited, NewFileRc, SymlinkRc,
      SymlinkBlocks, MkdirRc, InodeLeft, Wholes, Asked, Blocks, CanHave, Strands, SameMarks, FreeSet, ConcludesBare, Roomy, TakesNone, Tallied, LeftOne;
    ghost var before := SnapOf(img);
    var i;
    match op {
      case Create(p, name, data) => rc, i := CreateFile(img, p, name, data);
      case LinkTo(p, name, text) => rc, i := MakeSymlink(img, p, name, text);
      case Node(p, name, kind, dev) => rc, i := MakeNode(img, p, name, kind, dev);
      case MakeDir(p, name) => rc, i := Mkdir(img, p, name);
    }
    assert FiledAt(img.g, op, before, SnapOf(img), i);
  }

  method StepTake(img: Image, op: Op) returns (rc: Rc)
    requires Ready(img) && op.Posed(|img.inodes|) && (op.Delete? || op.RemoveDir?) && Safe(img.g, ViewsOf(img), op)
    modifies img`groups, img`csum, img`total, img`disk, img`inodes
    ensures Ready(img) && |old(img.groups)| == img.g.ncg
    ensures Step(img.g, op, rc, old(SnapOf(img)), SnapOf(img))
    ensures Carried(img.g, old(img.groups), old(img.inodes), old(img.disk), img.groups, img.inodes, img.disk)
  {
    hide Superblock.Valid, CylGroup.Valid, Tidy, Views, Unlinked, DirRemoved, Carried, FreeSet, Removable, RemoveOutcome, TakenFrom,
      OwnedBy, FirstNamed, Listing, OnlyDots, Tallied, LeftOne;
    ghost var before := SnapOf(img);
    var t;
    match op {
      case Delete(p, name) => rc, t := Unlink(img, p, name);
      case RemoveDir(p, name) => rc, t := Rmdir(img, p, name);
    }
    assert FiledAt(img.g, op, before, SnapOf(img), 0);
  }

  method StepLink(img: Image, p: nat, name: seq<byte>, src: nat) returns (rc: Rc)
    requires Ready(img) && HardLink(p, name, src).Posed(|img.inodes|) && ViewsOf(img)[src].kind != Unused
    modifies img`groups, img`csum, img`total, img`disk, img`inodes
    ensures img.Valid() && Sound(img.g, img.groups, img.inodes, img.disk) && |old(img.groups)| == img.g.ncg && (Ready(img) <==> !Spoils(HardLink(p, name, src), rc))
    ensures Step(img.g, HardLink(p, name, src), rc, old(SnapOf(img)), SnapOf(img))
    ensures Carried(img.g, old(img.groups), old(img.inodes), old(img.disk), img.groups, img.inodes, img.disk)
  {
    hide Superblock.Valid, CylGroup.Valid, Tidy, Sound, Views, WithEntry, Carried, FreeSet, Refusal, Full, Tallied, LeftOne;
    ghost var before := SnapOf(img);
    UnusedIsGone(img.g, img.disk, img.inodes, src);
    rc := LinkFile(img, p, name, src);
    assert FiledAt(img.g, HardLink(p, name, src), before, SnapOf(img), 0);
  }

  /** Near directories lose any entry they list. */
  lemma NearRemoves(g: Geometry, groups: seq<CylGroup>, ino: Inode, views: seq<View>, p: nat, name: seq<byte>, q: nat, target: seq<byte>)
    requires p < |views| && q < |views| && |groups| == g.ncg && Near(g, views, p)
    requires Moves(g, groups, ino, views, p, name, q, target)
    ensures RemoveOutcome(g, views[p].bytes, name) == Ok
  {
    hide Superblock.Valid, Start, BlockSize, Full, FirstNamed, List, Records, WayRc, Inside, ReplaceRefusal, NoMatch;
    ListedMatches(Records(views[p].bytes), name);
  }

  lemma ListedMatches(rs: seq<Dirent>, name: seq<byte>)
    requires FirstNamed(List(rs), name).Some?
    ensures !NoMatch(rs, name)
  {
    hide FirstNamed, List, NoMatch;
    if NoMatch(rs, name) {
      NotListed(rs, name);
      FirstNamedIs(List(rs), name);
    }
  }

  method StepMove(img: Image, p: nat, name: seq<byte>, q: nat, target: seq<byte>) returns (rc: Rc)
    requires Ready(img) && Move(p, name, q, target).Posed(|img.inodes|) && Safe(img.g, ViewsOf(img), Move(p, name, q, target))
    modifies img`groups, img`csum, img`total, img`disk, img`inodes
    ensures Ready(img) && |old(img.groups)| == img.g.ncg
    ensures Step(img.g, Move(p, name, q, target), rc, old(SnapOf(img)), SnapOf(img))
    ensures Carried(img.g, old(img.groups), old(img.inodes), old(img.disk), img.groups, img.inodes, img.disk)
  {
    hide Superblock.Valid, CylGroup.Valid, Tidy, Views, Vacated, Renamed, Carried, FreeSet, Removable, RemoveOutcome, WayRc, Near,
      FirstNamed, Listing, Inside, OnlyDots, WithEntry, OnlyThose, ReplaceRefusal, Tallied, LeftOne;
    ghost var before := SnapOf(img);
    ghost var mid, was, groups, ino := ViewsOf(img), ViewsOf(img), img.groups, img.inodes[q];
    rc, mid := Rename.Rename(img, p, name, q, target);
    if Moves(img.g, groups, ino, was, p, name, q, target) {
      NearRemoves(img.g, groups, ino, was, p, name, q, target);
    }
    assert FiledAt(img.g, Move(p, name, q, target), before, SnapOf(img), 0);
  }

  /** One command of a run. */
  method RunCommand(img: Image, op: Op) returns (rc: Rc)
    requires Ready(img) && op.Posed(|img.inodes|) && Safe(img.g, ViewsOf(img), op)
    modifies img`groups, img`csum, img`total, img`disk, img`inodes
    ensures img.Valid() && Sound(img.g, img.groups, img.inodes, img.disk) && |old(img.groups)| == img.g.ncg && (Ready(img) <==> !Spoils(op, rc))
    ensures Step(img.g, op, rc, old(SnapOf(img)), SnapOf(img))
    ensures Carried(img.g, old(img.groups), old(img.inodes), old(img.disk), img.groups, img.inodes, img.disk)
  {
    hide Superblock.Valid, CylGroup.Valid, Sound, Views, Step, Carried, FreeSet, Clear, Near, LinksOk, Hangs, InUse;
    match op
    case EditIt(i, e) => rc := StepEdit(img, i, e);
    case Delete(_, _) => rc := StepTake(img, op);
    case RemoveDir(_, _) => rc := StepTake(img, op);
    case HardLink(p, name, src) => rc := StepLink(img, p, name, src);
    case Move(p, name, q, target) => rc := StepMove(img, p, name, q, target);
    case _ => rc := StepMake(img, op);
  }

  lemma StepLength(g: Geometry, op: Op, rc: Rc, was: Snap, now: Snap)
    requires op.Posed(|was.inodes|) && |was.groups| == g.ncg && Step(g, op, rc, was, now)
    ensures |now.inodes| == |was.inodes|
  {
    hide Superblock.Valid, DirTiled, Listing, Records, FirstNamed, Inserted, Deleted, IsEdited, OnlyDots, Views, Answers, KeepsDots, Vacated,
      Repointed, DotsIn;
    assert |At(g, now)| == |now.inodes| && |At(g, was)| == |was.inodes|;
  }

  /** The trace of a run: each command answered, and did what its answer says. */
  ghost predicate Traced(g: Geometry, ops: seq<Op>, rcs: seq<Rc>, trace: seq<Snap>) {
    && |rcs| <= |ops| && |trace| == |rcs| + 1
    && forall k: nat | k < |rcs| ::
         && ops[k].Posed(|trace[k].inodes|) && |trace[k].groups| == g.ncg
         && Step(g, ops[k], rcs[k], trace[k], trace[k + 1])
  }

  ghost predicate Spoilt(ops: seq<Op>, rcs: seq<Rc>) {
    0 < |rcs| <= |ops| && Spoils(ops[|rcs| - 1], rcs[|rcs| - 1])
  }

  lemma TracedMore(g: Geometry, ops: seq<Op>, rcs: seq<Rc>, trace: seq<Snap>, rc: Rc, now: Snap)
    requires Traced(g, ops, rcs, trace) && |rcs| < |ops|
    requires ops[|rcs|].Posed(|trace[|rcs|].inodes|) && |trace[|rcs|].groups| == g.ncg && Step(g, ops[|rcs|], rc, trace[|rcs|], now)
    ensures Traced(g, ops, rcs + [rc], trace + [now])
    ensures Spoilt(ops, rcs + [rc]) <==> Spoils(ops[|rcs|], rc)
  {
    hide Step;
  }

  // ---- what a run leaves in the inode maps ----

  ghost predicate PosedAll(ops: seq<Op>, trace: seq<Snap>, n: nat) {
    n <= |ops| && n <= |trace| && forall k: nat | k < n :: ops[k].Posed(|trace[k].inodes|)
  }

  /** How many of the first n commands left an inode marked. */
  ghost function LeftBehind(g: Geometry, ops: seq<Op>, trace: seq<Snap>, n: nat): nat
    requires PosedAll(ops, trace, n)
  {
    if n == 0 then 0 else LeftBehind(g, ops, trace, n - 1) + if Leaves(g, trace[n - 1], ops[n - 1]) then 1 else 0
  }

  /** How many of them did so making a directory in group c. */
  ghost function LostDirs(g: Geometry, ops: seq<Op>, trace: seq<Snap>, c: nat, n: nat): (r: nat)
    requires PosedAll(ops, trace, n)
    ensures r <= LeftBehind(g, ops, trace, n)
  {
    if n == 0 then 0
    else LostDirs(g, ops, trace, c, n - 1)
         + if Leaves(g, trace[n - 1], ops[n - 1]) && ops[n - 1].MakeDir? && Home(g, ops[n - 1].p) == c then 1 else 0
  }

  /** Each mark without an inode is a failed command's, and each directory counted in excess a failed
      mkdir's; nothing else moves either. */
  lemma {:induction false} RunLedger(g: Geometry, ops: seq<Op>, rcs: seq<Rc>, trace: seq<Snap>, n: nat)
    requires Traced(g, ops, rcs, trace) && n <= |rcs|
    ensures PosedAll(ops, trace, n)
    ensures |trace[n].groups| == |trace[0].groups|
    ensures var was, now := Stray(g, trace[0].groups, At(g, trace[0])), Stray(g, trace[n].groups, At(g, trace[n]));
            was <= now && |now| == |was| + LeftBehind(g, ops, trace, n)
    ensures forall c: nat | c < |trace[0].groups| ::
              DirsOff(g, trace[n].groups, At(g, trace[n]), c)
              == DirsOff(g, trace[0].groups, At(g, trace[0]), c) + LostDirs(g, ops, trace, c, n)
  {
    hide Superblock.Valid, Stray, DirsOff, Leaves, Answers, Did, At;
    if n > 0 {
      RunLedger(g, ops, rcs, trace, n - 1);
      var op, was, now := ops[n - 1], trace[n - 1], trace[n];
      assert Step(g, op, rcs[n - 1], was, now);
      var i: nat :| FiledAt(g, op, was, now, i);
      forall c: nat | c < |trace[0].groups|
        ensures DirsOff(g, now.groups, At(g, now), c)
                == DirsOff(g, trace[0].groups, At(g, trace[0]), c) + LostDirs(g, ops, trace, c, n)
      {
        assert DirsOff(g, was.groups, At(g, was), c)
            == DirsOff(g, trace[0].groups, At(g, trace[0]), c) + LostDirs(g, ops, trace, c, n - 1);
      }
    }
  }

  /** A run starting with every mark and directory accounted for ends so if and only if no command
      left an inode marked. */
  lemma RunAccounts(g: Geometry, ops: seq<Op>, rcs: seq<Rc>, trace: seq<Snap>)
    requires Traced(g, ops, rcs, trace) && Accounted(g, trace[0].groups, At(g, trace[0]))
    ensures PosedAll(ops, trace, |rcs|)
    ensures Accounted(g, trace[|rcs|].groups, At(g, trace[|rcs|])) <==> LeftBehind(g, ops, trace, |rcs|) == 0
  {
    hide Superblock.Valid, Stray, DirsOff, Traced, At, LeftBehind, LostDirs;
    RunLedger(g, ops, rcs, trace, |rcs|);
  }

  // ---- short texts of symlinks ----

  /** Every text short enough to be inline is plain. */
  ghost predicate Texts(views: seq<View>) {
    forall i | 0 <= i < |views| && views[i].kind == Kind.Symlink && |views[i].bytes| <= INLINE_MAX :: Plain(views[i].bytes)
  }

  predicate PlainOp(op: Op) {
    op.LinkTo? && |op.text| <= INLINE_MAX ==> Plain(op.text)
  }

  /** A command brings no text but its own. */
  lemma StepTexts(g: Geometry, op: Op, rc: Rc, was: Snap, now: Snap)
    requires op.Posed(|was.inodes|) && |was.groups| == g.ncg && Step(g, op, rc, was, now) && Texts(At(g, was)) && PlainOp(op)
    requires forall i | 0 <= i < |was.inodes| :: At(g, was)[i].kind == was.inodes[i].kind
    ensures Texts(At(g, now))
  {
    hide Superblock.Valid, At, Filed, Plain, DirTiled, Listing, Records, FirstNamed, Inserted, Deleted, IsEdited, OnlyDots, KeepsDots, Repointed,
      DotsIn, Vacated, Makes;
    var a, b := At(g, was), At(g, now);
    if rc == Ok {
      match op
      case Move(p, name, q, target) =>
        if !Already(a, p, name, q, target) {
          var s: nat, mid: seq<View> :|
            s < |a| == |mid| && Vacated(a, mid, q, target, a[s].kind == Directory) && Renamed(mid, b, p, name, q, target, s);
          VacatedTexts(a, mid, q, target, a[s].kind == Directory);
        }
      case Delete(p, name) =>
        var t: nat :| Unlinked(a, b, p, t, name);
        UnlinkedTexts(a, b, p, t, name);
      case RemoveDir(p, name) =>
        var t: nat :| DirRemoved(a, b, p, t, name);
        RemovedTexts(a, b, p, t, name);
      case MakeDir(p, name) =>
        var i: nat, v: View :| DirMade(a, b, p, i, v, name);
        MadeTexts(a, b, p, i, v, name);
      case _ =>
    }
  }

  lemma VacatedTexts(was: seq<View>, mid: seq<View>, q: nat, target: seq<byte>, dir: bool)
    requires q < |was| && Vacated(was, mid, q, target, dir) && Texts(was)
    ensures Texts(mid)
  {
    hide Plain, Listing, FirstNamed, DirRemoved, Unlinked;
    match FirstNamed(Listing(was[q].bytes), target)
    case None =>
    case Some(t) =>
      if dir {
        RemovedTexts(was, mid, q, t, target);
      } else {
        UnlinkedTexts(was, mid, q, t, target);
      }
  }

  lemma UnlinkedTexts(was: seq<View>, now: seq<View>, p: nat, t: nat, name: seq<byte>)
    requires Unlinked(was, now, p, t, name) && Texts(was)
    ensures Texts(now)
  {
    hide Plain, Listing, FirstNamed, DirTiled, Records, Deleted, KeepsDots;
    var mid := now[t := was[t]];
    assert forall k | 0 <= k < |was| && k != t :: now[k] == mid[k];
  }

  lemma RemovedTexts(was: seq<View>, now: seq<View>, p: nat, t: nat, name: seq<byte>)
    requires DirRemoved(was, now, p, t, name) && Texts(was)
    ensures Texts(now)
  {
    hide Plain, Listing, FirstNamed, DirTiled, Records, Deleted, KeepsDots, OnlyDots;
    forall k: nat | k < |was| && k != p && k != t ensures now[k] == was[k] {
      RemovedOther(was, now, p, t, name, k);
    }
    var mid := now[t := was[t]][p := now[p].(nlink := was[p].nlink)];
    assert mid[p].kind == now[p].kind;
  }

  lemma MadeTexts(was: seq<View>, now: seq<View>, p: nat, i: nat, v: View, name: seq<byte>)
    requires DirMade(was, now, p, i, v, name) && Texts(was)
    ensures Texts(now)
  {
    hide Plain, Listing, FirstNamed, DirTiled, Records, Inserted, KeepsDots, DotsIn;
    MadeViews(was, now, p, i, v, name);
  }

  lemma {:induction false} RunTexts(g: Geometry, ops: seq<Op>, rcs: seq<Rc>, trace: seq<Snap>, n: nat)
    requires Traced(g, ops, rcs, trace) && n <= |rcs| && Texts(At(g, trace[0])) && forall k | 0 <= k < |ops| :: PlainOp(ops[k])
    ensures Texts(At(g, trace[n]))
  {
    hide Superblock.Valid, At, Step, Texts, PlainOp;
    if n > 0 {
      RunTexts(g, ops, rcs, trace, n - 1);
      KindsSeen(g, trace[n - 1]);
      StepTexts(g, ops[n - 1], rcs[n - 1], trace[n - 1], trace[n]);
    }
  }

  lemma KindsSeen(g: Geometry, s: Snap)
    ensures forall i | 0 <= i < |s.inodes| :: At(g, s)[i].kind == s.inodes[i].kind
  {
  }

  /** The text users see of an inline symlink is the one in its pointer fields. */
  lemma TextsSeen(g: Geometry, d: seq<byte>, inodes: seq<Inode>)
    requires Texts(Views(g, d, inodes)) && Neat(g, d, inodes)
    ensures forall i | 0 <= i < |inodes| && inodes[i].fast :: Plain(InlineText(inodes[i]))
  {
    hide Superblock.Valid, Plain, Compact, FileBytes;
    forall i | 0 <= i < |inodes| && inodes[i].fast ensures Plain(InlineText(inodes[i])) {
      assert Kept(g, d, inodes[i]);
      assert Views(g, d, inodes)[i] == ViewOf(g, d, inodes[i]);
      assert |InlineText(inodes[i])| == inodes[i].size;
    }
  }

  // ---- the form of directories, and what is in their names ----

  /** The name a command stores is of bytes 1 to 127. */
  predicate NamedPlain(op: Op) {
    match op
    case EditIt(_, _) => true
    case Delete(_, _) => true
    case RemoveDir(_, _) => true
    case Move(_, _, _, target) => Plain(target)
    case _ => Plain(op.name)
  }

  lemma EntryForm(was: seq<View>, now: seq<View>, p: nat, e: Entry)
    requires WithEntry(was, now, p, e)
    ensures Formed(was) ==> Formed(now)
    ensures AllNamesPlain(was) && Plain(e.name) ==> AllNamesPlain(now)
  {
    hide DirTiled, Records, KeepsDots, Kempt, Plain, Listing;
    InsertedNames(Listing(was[p].bytes), Listing(now[p].bytes), e);
  }

  lemma InsertedNames(a: seq<Entry>, b: seq<Entry>, e: Entry)
    requires Inserted(a, b, e)
    ensures NamesPlain(a) && Plain(e.name) ==> NamesPlain(b)
  {
    hide Plain;
    var k :| 0 <= k <= |a| && b == a[..k] + [e] + a[k..];
    assert forall x | x in b :: x == e || x in a;
  }

  lemma DeletedNames(a: seq<Entry>, b: seq<Entry>, name: seq<byte>)
    requires Deleted(a, b, name)
    ensures NamesPlain(a) ==> NamesPlain(b)
  {
    hide Plain;
    var x, e, c := DeletedParts(a, b, name);
  }

  lemma NoEntryForm(was: seq<View>, now: seq<View>, p: nat, name: seq<byte>)
    requires WithoutEntry(was, now, p, name)
    ensures Formed(was) ==> Formed(now)
    ensures AllNamesPlain(was) ==> AllNamesPlain(now)
  {
    hide DirTiled, Records, KeepsDots, Kempt, Plain, Listing;
    DeletedNames(Listing(was[p].bytes), Listing(now[p].bytes), name);
  }

  lemma UnlinkedForm(was: seq<View>, now: seq<View>, p: nat, t: nat, name: seq<byte>)
    requires Unlinked(was, now, p, t, name)
    ensures Formed(was) ==> Formed(now)
    ensures AllNamesPlain(was) ==> AllNamesPlain(now)
  {
    hide DirTiled, Records, KeepsDots, Kempt, NamesPlain, Listing, FirstNamed, WithoutEntry;
    var mid := now[t := was[t]];
    NoEntryForm(was, mid, p, name);
    assert forall k | 0 <= k < |was| && k != t :: now[k] == mid[k];
  }

  lemma DirRemovedForm(was: seq<View>, now: seq<View>, p: nat, t: nat, name: seq<byte>)
    requires DirRemoved(was, now, p, t, name)
    ensures Formed(was) ==> Formed(now)
    ensures AllNamesPlain(was) ==> AllNamesPlain(now)
  {
    hide DirTiled, Records, KeepsDots, Kempt, NamesPlain, Listing, FirstNamed, WithoutEntry, OnlyDots;
    var mid := now[t := was[t]][p := now[p].(nlink := was[p].nlink)];
    NoEntryForm(was, mid, p, name);
    assert forall k | 0 <= k < |was| && k != t && k != p :: now[k] == mid[k];
    assert mid[p].kind == now[p].kind && mid[p].bytes == now[p].bytes;
  }

  lemma VacatedForm(was: seq<View>, mid: seq<View>, q: nat, target: seq<byte>, dir: bool)
    requires q < |was| && Vacated(was, mid, q, target, dir)
    ensures Formed(was) ==> Formed(mid)
    ensures AllNamesPlain(was) ==> AllNamesPlain(mid)
  {
    hide Formed, AllNamesPlain, Listing, FirstNamed, DirRemoved, Unlinked;
    match FirstNamed(Listing(was[q].bytes), target)
    case None =>
    case Some(t) =>
      if dir {
        DirRemovedForm(was, mid, q, t, target);
      } else {
        UnlinkedForm(was, mid, q, t, target);
      }
  }

  lemma MadeForm(was: seq<View>, now: seq<View>, p: nat, i: nat, v: View, name: seq<byte>)
    requires DirMade(was, now, p, i, v, name)
    ensures Formed(was) ==> Formed(now)
    ensures AllNamesPlain(was) && Plain(name) ==> AllNamesPlain(now)
  {
    hide DirTiled, Records, KeepsDots, Kempt, Listing, FirstNamed, WithEntry, DotsIn;
    var mid := now[p := now[p].(nlink := was[p].nlink)];
    EntryForm(was[i := v], mid, p, Entry(name, i));
    assert NamesPlain(Listing(v.bytes));
    assert forall k | 0 <= k < |was| && k != p :: now[k] == mid[k];
    assert mid[p].kind == now[p].kind && mid[p].bytes == now[p].bytes;
  }

  lemma CreatedForm(was: seq<View>, now: seq<View>, p: nat, i: nat, v: View, name: seq<byte>)
    requires Created(was, now, p, i, v, name) && v.kind != Directory
    ensures Formed(was) ==> Formed(now)
    ensures AllNamesPlain(was) && Plain(name) ==> AllNamesPlain(now)
  {
    hide Kempt, NamesPlain, Plain, Listing, FirstNamed, WithEntry;
    EntryForm(was[i := v], now, p, Entry(name, i));
  }

  lemma RenamedForm(was: seq<View>, now: seq<View>, p: nat, name: seq<byte>, q: nat, target: seq<byte>, s: nat)
    requires Renamed(was, now, p, name, q, target, s)
    ensures Formed(was) ==> Formed(now)
    ensures AllNamesPlain(was) && Plain(target) ==> AllNamesPlain(now)
  {
    hide DirTiled, Records, KeepsDots, Kempt, Plain, Listing, FirstNamed, Inserted, Deleted, DotsIn;
    InsertedNames(Listing(was[q].bytes), Listing(now[q].bytes), Entry(target, s));
    DeletedNames(Listing(was[p].bytes), Listing(now[p].bytes), name);
    if was[s].kind == Directory {
      RepointedPlain(was[s].bytes, now[s].bytes, s, q);
    }
  }

  lemma RepointedPlain(was: seq<byte>, now: seq<byte>, s: nat, q: nat)
    requires Repointed(was, now, s, q)
    ensures NamesPlain(Listing(was)) ==> NamesPlain(Listing(now))
  {
    hide DirTiled, Records, List;
    var a, b := Records(was), Records(now);
    SplitAt(a, 1);
    SplitAt(b, 1);
    ListParts(a[..1], [a[1]], a[2..]);
    ListParts(b[..1], [b[1]], b[2..]);
    ListOne(b[1]);
    assert b[..1] == a[..1] && b[2..] == a[2..];
    assert b[1].name == DOTDOT;
    assert forall e | e in List(b) :: e in List(a) || e.name == DOTDOT;
  }

  /** A command keeps directories in good form, and brings no name but its own. */
  lemma StepForms(g: Geometry, op: Op, rc: Rc, was: Snap, now: Snap)
    requires op.Posed(|was.inodes|) && |was.groups| == g.ncg && Step(g, op, rc, was, now)
    requires forall i | 0 <= i < |was.inodes| :: At(g, was)[i].kind == was.inodes[i].kind
    ensures Formed(At(g, was)) ==> Formed(At(g, now))
    ensures AllNamesPlain(At(g, was)) && NamedPlain(op) ==> AllNamesPlain(At(g, now))
  {
    hide Superblock.Valid, At, Filed, Plain, Formed, AllNamesPlain, DirTiled, Listing, Records, FirstNamed, Inserted, Deleted, IsEdited, OnlyDots, KeepsDots,
      Repointed, DotsIn, Vacated, Makes, Created, DirMade, Unlinked, DirRemoved, Renamed, WithEntry;
    var a, b := At(g, was), At(g, now);
    if rc == Ok {
      match op
      case Create(p, name, data) =>
        var i: nat :| Created(a, b, p, i, View(Regular, 1, data), name);
        CreatedForm(a, b, p, i, View(Regular, 1, data), name);
      case LinkTo(p, name, text) =>
        var i: nat :| Created(a, b, p, i, View(Kind.Symlink, 1, text), name);
        CreatedForm(a, b, p, i, View(Kind.Symlink, 1, text), name);
      case Node(p, name, kind, _) =>
        var i: nat :| Created(a, b, p, i, View(kind, 1, []), name);
        CreatedForm(a, b, p, i, View(kind, 1, []), name);
      case EditIt(i, e) =>
        EditedForm(a, i, b[i].bytes);
      case HardLink(p, name, src) =>
        CountedForm(a, src);
        EntryForm(Counted(a, src), b, p, Entry(name, src));
      case Move(p, name, q, target) =>
        if !Already(a, p, name, q, target) {
          var s: nat, mid: seq<View> :|
            s < |a| == |mid| && Vacated(a, mid, q, target, a[s].kind == Directory) && Renamed(mid, b, p, name, q, target, s);
          VacatedForm(a, mid, q, target, a[s].kind == Directory);
          RenamedForm(mid, b, p, name, q, target, s);
        }
      case Delete(p, name) =>
        var t: nat :| Unlinked(a, b, p, t, name);
        UnlinkedForm(a, b, p, t, name);
      case RemoveDir(p, name) =>
        var t: nat :| DirRemoved(a, b, p, t, name);
        DirRemovedForm(a, b, p, t, name);
      case MakeDir(p, name) =>
        var i: nat, v: View :| DirMade(a, b, p, i, v, name);
        MadeForm(a, b, p, i, v, name);
    } else if Spoils(op, rc) {
      CountedForm(a, op.src);
    }
  }

  lemma EditedForm(was: seq<View>, i: nat, bytes: seq<byte>)
    requires i < |was| && was[i].kind != Directory
    ensures Formed(was) ==> Formed(was[i := was[i].(bytes := bytes)])
    ensures AllNamesPlain(was) ==> AllNamesPlain(was[i := was[i].(bytes := bytes)])
  {
    hide Kempt, NamesPlain, Listing;
  }

  lemma CountedForm(was: seq<View>, i: nat)
    requires i < |was|
    ensures Formed(was) ==> Formed(Counted(was, i))
    ensures AllNamesPlain(was) ==> AllNamesPlain(Counted(was, i))
  {
    hide Kempt, NamesPlain, Listing;
  }

  lemma {:induction false} RunForms(g: Geometry, ops: seq<Op>, rcs: seq<Rc>, trace: seq<Snap>, n: nat)
    requires Traced(g, ops, rcs, trace) && n <= |rcs|
    ensures Formed(At(g, trace[0])) ==> Formed(At(g, trace[n]))
    ensures AllNamesPlain(At(g, trace[0])) && (forall k | 0 <= k < |ops| :: NamedPlain(ops[k])) ==> AllNamesPlain(At(g, trace[n]))
  {
    hide Superblock.Valid, At, Step, Formed, AllNamesPlain, NamedPlain;
    if n > 0 {
      RunForms(g, ops, rcs, trace, n - 1);
      KindsSeen(g, trace[n - 1]);
      StepForms(g, ops[n - 1], rcs[n - 1], trace[n - 1], trace[n]);
    }
  }

  /** Any sequence of commands: storage stays sound, the counters exact, the links right and the
      directories a tree; every command answers as its state demands, and what users see goes
      through the same sequence of operations. A run ends early only before a command that a free
      record or a far block would spoil, and after a hard link that has. */
  method RunCommands(img: Image, ops: seq<Op>) returns (rcs: seq<Rc>, ghost trace: seq<Snap>)
    requires Ready(img) && forall k | 0 <= k < |ops| :: ops[k].Posed(|img.inodes|)
    modifies img`groups, img`csum, img`total, img`disk, img`inodes
    ensures img.Valid() && Sound(img.g, img.groups, img.inodes, img.disk)
    ensures Traced(img.g, ops, rcs, trace) && |img.inodes| == |old(img.inodes)|
    ensures trace[0] == old(SnapOf(img)) && trace[|rcs|] == SnapOf(img)
    ensures Ready(img) <==> !Spoilt(ops, rcs)
    ensures |rcs| < |ops| ==> Spoilt(ops, rcs) || !Safe(img.g, ViewsOf(img), ops[|rcs|])
    ensures Carried(img.g, old(img.groups), old(img.inodes), old(img.disk), img.groups, img.inodes, img.disk)
  {
    hide Superblock.Valid, CylGroup.Valid, Sound, Views, Safe, Step, Carried, FreeSet, LinksOk, Hangs, InUse;
    rcs, trace := [], [SnapOf(img)];
    CarriedNothing(img.g, img.groups, img.inodes, img.disk);
    while |rcs| < |ops|
      invariant Ready(img) && |img.inodes| == |old(img.inodes)| && !Spoilt(ops, rcs)
      invariant Traced(img.g, ops, rcs, trace) && trace[0] == old(SnapOf(img)) && trace[|rcs|] == SnapOf(img)
      invariant Carried(img.g, old(img.groups), old(img.inodes), old(img.disk), img.groups, img.inodes, img.disk)
      decreases |ops| - |rcs|
    {
      var op := ops[|rcs|];
      var safe := IsSafe(img, op);
      if !safe {
        return;
      }
      ghost var before := SnapOf(img);
      var rc := RunCommand(img, op);
      StepLength(img.g, op, rc, before, SnapOf(img));
      TracedMore(img.g, ops, rcs, trace, rc, SnapOf(img));
      CarriedTwice(img.g, old(img.groups), old(img.inodes), old(img.disk), before.groups, before.inodes, before.disk,
                   img.groups, img.inodes, img.disk);
      rcs, trace := rcs + [rc], trace + [SnapOf(img)];
      if Spoils(op, rc) {
        return;
      }
    }
  }

  /** And after any run the block passes of fsck find nothing: no inode is cut off or marked, no block
      count is wrong, and the map they build is the writer's, if and only if no inline symlink that
      pass 4 is told to clear has words that name a fragment in use; on a small image with plain
      texts none has. */
  method RunThenCheck(img: Image, ops: seq<Op>, found: seq<bool>, lncnt: seq<int>, zero: seq<bool>, lost: seq<bool>)
      returns (rcs: seq<Rc>, cut: bool, miscounted: bool, partial: bool, state: seq<State>, used: seq<bool>)
    requires Ready(img) && Neat(img.g, img.disk, img.inodes) && Typical(img.g)
    requires (forall k | 0 <= k < |ops| :: ops[k].Posed(|img.inodes|)) && |found| == |lncnt| == |zero| == |lost| == |img.inodes|
    modifies img`groups, img`csum, img`total, img`disk, img`inodes
    ensures !cut && !miscounted && !partial && |state| == |img.inodes| && |used| == img.g.fragCount && Tabled(img.inodes)
    ensures Settled(img.inodes, found, lncnt, zero, lost, state)
    ensures OwnersMap(img.g, img.disk, img.inodes, state, used) <==> Spared(img.g, img.disk, img.inodes, state)
    ensures Small(img.g) && old(Texts(ViewsOf(img))) && (forall k | 0 <= k < |ops| :: PlainOp(ops[k])) ==>
              OwnersMap(img.g, img.disk, img.inodes, state, used)
  {
    hide Superblock.Valid, CylGroup.Valid, Tidy, Sound, Views, Step, Carried, FreeSet, Typical, Neat, Settled, OwnersMap, Spared, Small,
      PlainOp, Texts, Tabled;
    ghost var groups, inodes, disk, trace := img.groups, img.inodes, img.disk, [];
    rcs, trace := RunCommands(img, ops);
    StaysNeat(img.g, groups, inodes, disk, img.groups, img.inodes, img.disk);
    cut, miscounted, partial, state, used := CheckBlocks(img, found, lncnt, zero, lost);
    if Small(img.g) && Texts(At(img.g, trace[0])) && forall k | 0 <= k < |ops| :: PlainOp(ops[k]) {
      RunTexts(img.g, ops, rcs, trace, |rcs|);
      TextsSeen(img.g, img.disk, img.inodes);
      PlainIsSpared(img.g, img.disk, img.inodes, state);
    }
  }

  lemma StaysNeat(g: Geometry, groups: seq<CylGroup>, inodes: seq<Inode>, d: seq<byte>,
                  groups': seq<CylGroup>, inodes': seq<Inode>, d': seq<byte>)
    requires Carried(g, groups, inodes, d, groups', inodes', d') && Neat(g, d, inodes)
    ensures Neat(g, d', inodes')
  {
    hide Space, Neat;
  }

  lemma StaysWhole(g: Geometry, groups: seq<CylGroup>, inodes: seq<Inode>, d: seq<byte>,
                   groups': seq<CylGroup>, inodes': seq<Inode>, d': seq<byte>)
    requires Carried(g, groups, inodes, d, groups', inodes', d') && Whole(g, groups, inodes, d)
    ensures Whole(g, groups', inodes', d')
  {
    hide Space, Neat, SetAside;
  }

  /** All of fsck after any run that no hard link has spoilt. It reads the directories as they are if and
      only if they are orderly; from an image whose directories are in good form that is to say, if and
      only if every name listed is of bytes 1 to 127, and it is so when the names at the start and the
      names of the commands are. Then there is nothing to repair in blocks, links, directories or
      fragment maps, and in inode maps, counters, summary table and totals exactly what failed commands
      left: from an image with every mark and directory accounted for pass 5 changes something if and
      only if some command of the run left an inode marked. Otherwise a file without a readable name
      goes to lost+found. */
  method RunThenFsck(img: Image, ops: seq<Op>)
      returns (rcs: seq<Rc>, read: seq<seq<Dirent>>, t: Option<Outcome>, r: Option<Report>, ghost trace: seq<Snap>)
    requires Ready(img) && Neat(img.g, img.disk, img.inodes) && Typical(img.g) && Whole(img.g, img.groups, img.inodes, img.disk)
    requires forall k | 0 <= k < |ops| :: ops[k].Posed(|img.inodes|)
    modifies img`groups, img`csum, img`total, img`disk, img`inodes
    ensures Traced(img.g, ops, rcs, trace) && PosedAll(ops, trace, |rcs|)
    ensures trace[0] == old(SnapOf(img)) && trace[|rcs|] == SnapOf(img)
    ensures r.Some? <==> !Spoilt(ops, rcs) && Orderly(ViewsOf(img))
    ensures !Spoilt(ops, rcs) ==> read == BaseRead(ViewsOf(img)).dirs && (read == BaseOf(ViewsOf(img)).dirs <==> Orderly(ViewsOf(img)))
    ensures old(Formed(ViewsOf(img))) ==> (Orderly(ViewsOf(img)) <==> AllNamesPlain(ViewsOf(img)))
    ensures old(Orderly(ViewsOf(img))) && (forall k | 0 <= k < |ops| :: NamedPlain(ops[k])) ==> Orderly(ViewsOf(img))
    ensures !Spoilt(ops, rcs) && old(Formed(ViewsOf(img))) ==> t.Some? && Orphans(ViewsOf(img), t.value)
    ensures r.Some? ==> NothingFound(img.g, img.groups, img.inodes, ViewsOf(img), r.value)
    ensures r.Some? ==> (SameInodeMaps(img.groups, r.value.recounts) <==> Stray(img.g, img.groups, ViewsOf(img)) == {})
    ensures r.Some? ==> (CountersKept(img.groups, img.csum, img.total, r.value) <==> Accounted(img.g, img.groups, ViewsOf(img)))
    ensures r.Some? && old(Accounted(img.g, img.groups, ViewsOf(img))) ==>
              (CountersKept(img.groups, img.csum, img.total, r.value) <==> LeftBehind(img.g, ops, trace, |rcs|) == 0)
  {
    hide Superblock.Valid, CylGroup.Valid, Views, Step, Carried, FreeSet, Typical, Neat, Whole, NothingFound, SameInodeMaps, Stray, LinksOk, Hangs,
      Sound, InUse, CountersKept, Accounted, LeftBehind, Formed, AllNamesPlain, NamedPlain, BaseOf, BaseRead, LinksKept, Orphans;
    ghost var groups, inodes, disk := img.groups, img.inodes, img.disk;
    rcs, trace := RunCommands(img, ops);
    RunForms(img.g, ops, rcs, trace, |rcs|);
    if 0 < |rcs| <= |ops| && Spoils(ops[|rcs| - 1], rcs[|rcs| - 1]) {
      return rcs, [], None, None, trace;
    }
    StaysNeat(img.g, groups, inodes, disk, img.groups, img.inodes, img.disk);
    StaysWhole(img.g, groups, inodes, disk, img.groups, img.inodes, img.disk);
    read, t, r := Fsck(img);
    if Accounted(img.g, trace[0].groups, At(img.g, trace[0])) {
      RunAccounts(img.g, ops, rcs, trace);
    }
  }
}
