/** One small image on which the commands that can go wrong do go wrong: no fragment is free, and
    the root directory has no room for a long name. */
module Witness {
  import opened Geometry
  import opened FreeMap
  import opened Image
  import opened Alloc
  import opened Room
  import opened Indirect
  import opened FileMap
  import opened Storage
  import opened Mutate
  import opened Tally
  import opened Dirents
  import opened Dirs
  import opened Links
  import opened Tree
  import opened Commands
  import opened FsckClaims
  import opened FsckRead
  import opened FsckWalk
  import opened FsckClean
  import FsckTree
  import Runs
  import opened Vdi

  /** Two fragments: the first holds metadata, the second the root directory. */
  function Tiny(): Geometry {
    var g := Superblock(1, 2, 1, 2, 1024, 1, 1, 1, 0, 1, 0, 1, 1, 0, 5);
    assert g.Base(0) == 0 && g.Base(1) == 2;
    g
  }

  function NoCounts(n: nat): (r: seq<int>)
    ensures |r| == n && forall i | 0 <= i < n :: r[i] == 0
  {
    seq(n, _ => 0)
  }

  /** Nothing is free but inode 4. */
  function TinyGroup(): CylGroup {
    CylGroup(2, Csum(1, 0, 1, 0), 0, 0, NoCounts(MAX_FRAG), NoCounts(MAX_CPG), seq(MAX_CPG, _ => NoCounts(NRPOS)),
             [true, true, true, true, false], [false, false])
  }

  function Letters(c: byte): (name: seq<byte>)
    ensures |name| == MAX_NAME && NameOk(name) && forall i | 0 <= i < |name| :: name[i] == c
  {
    seq(MAX_NAME, _ => c)
  }

  const FILE: nat := 3

  /** ".", ".." and two long names for the file, none with 264 bytes to spare. */
  function RootRecords(): seq<Dirent> {
    [Dirent(ROOTINO, 12, DOT), Dirent(ROOTINO, 272, DOTDOT), Dirent(FILE, 264, Letters(97)), Dirent(FILE, 476, Letters(98))]
  }

  function RootBlock(): (bs: seq<byte>)
    ensures |bs| == DIRBLKSIZ
  {
    DirentRaw(RootRecords()[0]) + DirentRaw(RootRecords()[1]) + DirentRaw(RootRecords()[2]) + DirentRaw(RootRecords()[3])
  }

  function TinyDisk(): (d: seq<byte>)
    ensures |d| == 2048
  {
    seq(1024, _ => 0) + RootBlock()
  }

  function TinyInodes(): seq<Inode> {
    [CLEARED, CLEARED, OneFragDir(Tiny(), 1), CLEARED.(kind := Regular, nlink := 2), CLEARED]
  }

  /** The small image. */
  method TinyImage() returns (img: Image)
    ensures fresh(img) && img.g == Tiny() && img.groups == [TinyGroup()] && img.inodes == TinyInodes() && img.disk == TinyDisk()
    ensures img.Valid()
  {
    TinyGroupValid();
    var cs := TinyGroup().cs;
    img := new Image(Tiny(), [TinyGroup()], [cs], cs, TinyInodes(), TinyDisk());
    assert [cs][1..] == [];
  }

  lemma NothingFree(off: nat, st: Stat)
    requires st.For(Tiny()) && off <= 2
    ensures Recount(Tiny(), [false, false], off, st) == 0
    decreases 2 - off
  {
    if off < 2 {
      assert Slice([false, false], off, 1) == [false];
      assert PopCount([false]) == 0;
      NothingFree(off + 1, st);
    }
  }

  lemma TinyGroupValid()
    ensures TinyGroup().Valid(Tiny(), 0)
  {
    forall st: Stat | st.For(Tiny()) ensures TinyGroup().Counter(Tiny(), st) == Recount(Tiny(), TinyGroup().free, 0, st) {
      NothingFree(0, st);
    }
    assert Tiny().GroupFrags(0) == 2;
    assert PopCount([true, true, true, true, false]) == 4;
  }

  lemma RootBlockLists()
    ensures DirTiled(RootBlock()) && Records(RootBlock()) == RootRecords()
    ensures Listing(RootBlock()) == RootEntries()
    ensures DotsIn(Records(RootBlock()), ROOTINO) == Some(ROOTINO)
  {
    hide Tiled, Records, DirentRaw, List, DirTiled;
    var a, b, c, e := RootRecords()[0], RootRecords()[1], RootRecords()[2], RootRecords()[3];
    RawRecord(a);
    RawRecord(b);
    RawRecord(c);
    RawRecord(e);
    TiledConcat(DirentRaw(a), DirentRaw(b));
    TiledConcat(DirentRaw(a) + DirentRaw(b), DirentRaw(c));
    TiledConcat(DirentRaw(a) + DirentRaw(b) + DirentRaw(c), DirentRaw(e));
    OneDirblk(RootBlock());
    ListConcat([a], [b]);
    ListConcat([a] + [b], [c]);
    ListConcat([a] + [b] + [c], [e]);
    ListOne(a);
    ListOne(b);
    ListOne(c);
    ListOne(e);
    assert [a] + [b] + [c] + [e] == RootRecords();
  }

  /** The root directory's inode, storage and bytes. */
  lemma RootFile()
    ensures var g, ino := Tiny(), OneFragDir(Tiny(), 1);
            && DirGeometry(g) && ino.Shaped() && FileOk(g, TinyDisk(), ino) && !TooLong(g, ino.size)
            && CountsOwned(g, TinyDisk(), ino) && Owned(g, TinyDisk(), ino) == Run(1, 1)
            && FileBytes(g, TinyDisk(), ino) == RootBlock()
  {
    hide FileOk, TooLong, CountsOwned, Owned, FileBytes, RootBlock;
    var g, d, e := Tiny(), seq(2048, _ => 0 as byte), TinyDisk();
    assert g.Off(2) == 2048 && g.Off(1) == 1024;
    assert Bytes(g, d, 1, 1) == d[1024..];
    assert Bytes(g, e, 1, 1) == e[1024..] == RootBlock();
    assert Splice(Bytes(g, d, 1, 1), 0, RootBlock()) == RootBlock();
    OneFragFile(g, d, e, 1, RootBlock());
  }

  /** What users see on the small image. */
  function TinyViews(): seq<View> {
    [GONE, GONE, View(Directory, 2, RootBlock()), View(Regular, 2, []), GONE]
  }

  lemma EmptyFile(g: Geometry, d: seq<byte>, ino: Inode)
    requires ino == CLEARED.(kind := Regular, nlink := 2)
    ensures InodeOk(g, d, {}, ino) && OwnedBy(g, d, ino) == {} && ViewOf(g, d, ino) == View(Regular, 2, [])
  {
    hide Superblock.Valid, FileOk, TooLong, CountsOwned, Owned, FileBytes;
    NothingOwned(g, d, ino);
    NoSectors(g, d, ino);
    assert |FileBytes(g, d, ino)| == 0;
  }

  lemma TinyMarks()
    ensures FreeSet(Tiny(), [TinyGroup()]) == {}
    ensures Aside(Tiny(), [TinyGroup()]) && InUse(Tiny(), [TinyGroup()], 2) && InUse(Tiny(), [TinyGroup()], 3)
    ensures InodeLeft([TinyGroup()], 0) && Wholes(Tiny(), [TinyGroup()]) == 0 && !CanHave(Tiny(), [TinyGroup()], 1)
  {
    NothingFree(0, NBFree);
    assert [TinyGroup()][1..] == [];
    assert PopCount([true, true, true, true, false]) == 4;
  }

  lemma TinySound()
    ensures Sound(Tiny(), [TinyGroup()], TinyInodes(), TinyDisk())
    ensures Views(Tiny(), TinyDisk(), TinyInodes()) == TinyViews()
  {
    hide Superblock.Valid, FileOk, TooLong, CountsOwned, Owned, FileBytes, RootBlock, TinyDisk, InUse, Run, FreeSet, TinyGroup, Tiny, Wholes, CanHave;
    RootFile();
    TinyMarks();
    EmptyFile(Tiny(), TinyDisk(), TinyInodes()[3]);
    RunMembers(1, 1);
    TinySize();
  }

  lemma TinySize()
    ensures Tiny().inodesPerGroup == 5
  {
  }

  function RootEntries(): seq<Entry> {
    [Entry(DOT, ROOTINO), Entry(DOTDOT, ROOTINO), Entry(Letters(97), FILE), Entry(Letters(98), FILE)]
  }

  /** What the root names, counted. */
  lemma RootNames(i: nat)
    ensures Count(RootEntries(), i) == (if i == ROOTINO || i == FILE then 2 else 0)
    ensures KidsIn(RootEntries(), i) == (if i == FILE then 2 else 0)
  {
    var a, b, c, e := RootEntries()[0], RootEntries()[1], RootEntries()[2], RootEntries()[3];
    assert RootEntries() == [a] + [b] + [c] + [e] && |c.name| == |e.name| == MAX_NAME;
    CountConcat([a] + [b] + [c], [e], i);
    CountConcat([a] + [b], [c], i);
    CountConcat([a], [b], i);
    CountOne(a, i);
    CountOne(b, i);
    CountOne(c, i);
    CountOne(e, i);
    KidsConcat([a] + [b] + [c], [e], i);
    KidsConcat([a] + [b], [c], i);
    KidsConcat([a], [b], i);
    KidsOne(a, i);
    KidsOne(b, i);
    KidsOne(c, i);
    KidsOne(e, i);
  }

  /** Where there is one directory, it makes all the references. */
  lemma {:induction false} OneDirectory(views: seq<View>, k: nat, i: nat)
    requires forall j: nat | j < |views| && j != k :: views[j].kind != Directory
    ensures Refs(views, i) == if k < |views| then Named(views[k], i) else 0
    decreases |views|
  {
    hide Named;
    if views != [] {
      var n: nat := |views| - 1;
      OneDirectory(views[..n], k, i);
      if n != k {
        NotDirNamesNothing(views[n], i);
      }
    }
  }

  lemma TinyLinks()
    ensures LinksOk(TinyViews())
  {
    hide RootBlock, DirTiled, List, Records, Refs, Count, KidsIn;
    RootBlockLists();
    var views, es := TinyViews(), RootEntries();
    forall i | 0 <= i < |views| ensures views[i].nlink == Refs(views, i) {
      OneDirectory(views, ROOTINO, i);
      RootNames(i);
    }
    assert es[2].name[0] == 97 && es[3].name[0] == 98 && |es[2].name| == |es[3].name| == MAX_NAME;
    FirstNamedIs(es, DOTDOT);
    assert es[0] == Entry(DOT, ROOTINO) && es[1] == Entry(DOTDOT, ROOTINO);
    assert DirOk(RootBlock(), ROOTINO, 5);
  }

  lemma TinyTree()
    ensures Hangs(TinyViews())
  {
    hide RootBlock, DirTiled, Records, ParentOf, List, DotsIn;
    RootBlockLists();
    var views, depth := TinyViews(), [0, 0, 0, 0, 0];
    forall d: nat | d < 5 && d != ROOTINO ensures ParentOf(views, d) == None {
      NotDirNoParent(views, d);
    }
    assert Kids(views[2], 2) == 0 by {
      RootNames(ROOTINO);
    }
    assert TreeOk(views, depth);
  }

  /** The small image is one the commands rely on. */
  lemma TinyTidy()
    ensures Tidy(Tiny(), [TinyGroup()], TinyInodes(), TinyDisk()) && ROOTINO < |TinyInodes()| == 5
  {
    hide RootBlock, Sound, LinksOk, Hangs, InUse, Views;
    TinySound();
    TinyLinks();
    TinyTree();
    TinyMarks();
    assert DirGeometry(Tiny()) by { RootFile(); }
  }

  lemma LettersPlain(c: byte)
    requires 0 < c < 0x80
    ensures Plain(Letters(c))
  {
  }

  lemma RootNamesPlain()
    ensures NamesPlain(RootEntries())
  {
    hide Letters, Plain;
    LettersPlain(97);
    LettersPlain(98);
    assert Plain(DOT) && Plain(DOTDOT) by { DotsPlain(); }
  }

  lemma DotsPlain()
    ensures Plain(DOT) && Plain(DOTDOT)
  {
  }

  /** Its directory is in good form, with names of bytes 1 to 127. */
  lemma TinyOrderly()
    ensures Orderly(TinyViews())
  {
    hide RootBlock, RootEntries, Kempt, List, Records, Plain, NamesPlain, DirTiled;
    RootBlockLists();
    RootKempt();
    RootNamesPlain();
  }

  lemma RootKempt()
    ensures Kempt(RootBlock())
  {
    hide Tiled, Records, DirentRaw, Kempt;
    var a, b, c, e := RootRecords()[0], RootRecords()[1], RootRecords()[2], RootRecords()[3];
    RawRecord(a);
    RawRecord(b);
    RawRecord(c);
    RawRecord(e);
    KemptRaw(a);
    KemptRaw(b);
    KemptRaw(c);
    KemptRaw(e);
    TiledConcat(DirentRaw(a), DirentRaw(b));
    KemptConcat(DirentRaw(a), DirentRaw(b));
    TiledConcat(DirentRaw(a) + DirentRaw(b), DirentRaw(c));
    KemptConcat(DirentRaw(a) + DirentRaw(b), DirentRaw(c));
    KemptConcat(DirentRaw(a) + DirentRaw(b) + DirentRaw(c), DirentRaw(e));
  }

  /** Nothing is wrong with it: fsck agrees. */
  method TinyIsClean() returns (img: Image, r: Report)
    ensures Ready(img) && ViewsOf(img) == TinyViews()
    ensures NothingFound(img.g, img.groups, img.inodes, ViewsOf(img), r) && CountersKept(img.groups, img.csum, img.total, r)
  {
    hide RootBlock, Tidy, Views, Sound, LinksOk, TinyGroup, Tiny, TinyDisk, NothingFound, Neat, Whole, Typical, CountersKept, Accounted,
      Orderly, BaseRead, BaseOf, Orphans, LinksKept, Formed;
    TinyAccounted();
    TinyTidy();
    TinySound();
    TinyNeat();
    TinyTypical();
    TinyWhole();
    TinyOrderly();
    img := TinyImage();
    var read, t, report := Fsck(img);
    r := report.value;
  }

  lemma TinyAccounted()
    ensures Accounted(Tiny(), [TinyGroup()], TinyViews())
  {
    hide RootBlock;
    TinyStray();
    OneDirIn(Tiny(), TinyViews());
  }

  lemma TinyStray()
    ensures Stray(Tiny(), [TinyGroup()], TinyViews()) == {}
  {
    hide RootBlock;
    assert !InUse(Tiny(), [TinyGroup()], 4);
  }

  lemma OneDirIn(g: Geometry, views: seq<View>)
    requires |views| == 5 == g.inodesPerGroup && forall k | 0 <= k < 5 :: views[k].kind == Directory <==> k == ROOTINO
    ensures DirsIn(g, views, 0) == 1
  {
    hide DirHere;
    assert views[..4][..3] == views[..3] && views[..3][..2] == views[..2] && views[..2][..1] == views[..1] && views[..1][..0] == [];
    assert DirsIn(g, views[..1], 0) == DirHere(g, views[0], 0, 0) by { assert DirsIn(g, [], 0) == 0; }
    assert DirsIn(g, views[..2], 0) == DirsIn(g, views[..1], 0) + DirHere(g, views[1], 1, 0);
    assert DirsIn(g, views[..3], 0) == DirsIn(g, views[..2], 0) + DirHere(g, views[2], 2, 0);
    assert DirsIn(g, views[..4], 0) == DirsIn(g, views[..3], 0) + DirHere(g, views[3], 3, 0);
    forall k: nat | k < 5 ensures DirHere(g, views[k], k, 0) == if k == ROOTINO then 1 else 0 {
      DirHereIs(g, views[k], k);
    }
  }

  lemma DirHereIs(g: Geometry, v: View, k: nat)
    requires k < 5 == g.inodesPerGroup
    ensures DirHere(g, v, k, 0) == if v.kind == Directory then 1 else 0
  {
  }

  lemma TinyNeat()
    ensures Neat(Tiny(), TinyDisk(), TinyInodes())
  {
    hide RootBlock, TinyDisk, Tiny, OneFragDir, Kept;
    assert DirGeometry(Tiny()) by { RootFile(); }
    OneFragKept(Tiny(), TinyDisk(), 1);
    FileKept(Tiny(), TinyDisk(), TinyInodes()[3]);
    UnusedKept(Tiny(), TinyDisk(), CLEARED);
  }

  lemma TinyTypical()
    ensures Typical(Tiny())
  {
    hide Superblock.Valid, Superblock.Upper, Superblock.Lower, Superblock.GroupFrags, PerBlock;
    TinyMetadata();
    TinyGroupSize();
    TinyPointers();
    forall c: nat | c < Tiny().ncg ensures MetadataEnd(Tiny(), c) <= Tiny().GroupFrags(c) && Tiny().Lower(c) <= Tiny().Upper(c) {
      assert c == 0;
    }
  }

  lemma TinyMetadata()
    ensures Tiny().Lower(0) == 0 && Tiny().Upper(0) == 1
  {
    var start := Tiny().CgStart(0);
    assert start == 0;
  }

  lemma TinyGroupSize()
    ensures Tiny().GroupFrags(0) == 2
  {
  }

  lemma TinyPointers()
    ensures PerBlock(Tiny()) == 256
  {
  }

  lemma FileKept(g: Geometry, d: seq<byte>, ino: Inode)
    requires ino == CLEARED.(kind := Regular, nlink := 2)
    ensures Kept(g, d, ino)
  {
    hide Superblock.Valid, Compact;
    BlankCompact(g, d, ino);
  }

  lemma UnusedKept(g: Geometry, d: seq<byte>, ino: Inode)
    requires ino == CLEARED
    ensures Kept(g, d, ino)
  {
  }

  lemma TinyWhole()
    ensures Whole(Tiny(), [TinyGroup()], TinyInodes(), TinyDisk())
  {
    hide RootBlock, TinyDisk, FileOk, Owned, TooLong, CountsOwned, FileBytes;
    RootFile();
    RunMembers(1, 1);
    assert 1 in OwnedBy(Tiny(), TinyDisk(), TinyInodes()[2]);
    assert SetAside(Tiny(), 0);
  }

  // ---- the failures ----

  lemma TinyNoRoom()
    ensures NoRoom(DirectPart(Tiny(), RootBlock()), DirentSize(MAX_NAME))
  {
    hide RootBlock, DirTiled, Records, List, Start;
    RootBlockLists();
    StartNext(Tiny(), 0);
    StartMonotone(Tiny(), 1, NDADDR);
  }

  lemma TinyCannotGrow()
    ensures OneFragDir(Tiny(), 1).Shaped() && CannotGrow(Tiny(), [TinyGroup()], OneFragDir(Tiny(), 1))
  {
    hide CanHave, GroupFits;
    TinyMarks();
    NoneFits(Tiny(), [TinyGroup()], 1);
  }

  /** A name of 255 letters finds no room, and the root cannot grow. */
  lemma TinyFull()
    ensures OneFragDir(Tiny(), 1).Shaped()
    ensures Full(Tiny(), [TinyGroup()], OneFragDir(Tiny(), 1), RootBlock(), DirentSize(MAX_NAME))
    ensures Refusal(TinyViews(), ROOTINO, Letters(99)) == Ok
  {
    hide RootBlock, DirTiled, Records, List, NoRoom, DirectPart, CannotGrow, FirstNamed;
    RootBlockLists();
    FirstNamedIs(RootEntries(), Letters(99));
    assert Letters(97)[0] == 97 && Letters(98)[0] == 98 && Letters(99)[0] == 99 && |Letters(99)| == MAX_NAME;
    TinyNoRoom();
    TinyCannotGrow();
  }

  /** link: the name cannot be stored and the count stays one too high. */
  method LinkOverCounts() returns (img: Image, rc: Rc)
    ensures rc == NoSpace && img.Valid() && Sound(img.g, img.groups, img.inodes, img.disk)
    ensures ViewsOf(img) == TinyViews()[FILE := View(Regular, 3, [])] && !LinksOk(ViewsOf(img))
  {
    hide RootBlock, Tidy, Views, Sound, LinksOk, Full, TinyGroup, Tiny, TinyDisk, Refusal, Carried;
    TinyTidy();
    TinySound();
    TinyFull();
    TinyLinks();
    img := TinyImage();
    rc := LinkFile(img, ROOTINO, Letters(99), FILE);
    OverCounted(TinyViews(), FILE);
  }

  /** mkdir: no fragment for the directory, and inode 4 stays marked. */
  method MkdirKeepsInode() returns (img: Image, rc: Rc)
    ensures Ready(img) && rc == NoSpace && ViewsOf(img) == TinyViews() && img.Free() == {}
    ensures !SameMarks(img.g, [TinyGroup()], img.groups)
    ensures |Stray(img.g, img.groups, ViewsOf(img))| == 1 && |img.groups| == 1 && DirsOff(img.g, img.groups, ViewsOf(img), 0) == 1
  {
    hide RootBlock, Tidy, Views, Sound, LinksOk, Full, TinyGroup, Tiny, TinyDisk, Refusal, Carried, FreeSet, SameMarks, InodeLeft, CanHave,
      Wholes, Limited, InUse, Roomy, Stray, DirsOff;
    TinyAccounted();
    TinyTidy();
    TinySound();
    TinyFull();
    TinyMarks();
    TinyHome();
    img := TinyImage();
    var i;
    rc, i := Mkdir(img, ROOTINO, Letters(99));
  }

  lemma TinyHome()
    ensures Home(Tiny(), ROOTINO) == 0
  {
  }

  /** One byte more than 12 + 256 + 256^2 + 256^3 blocks of 1024 bytes. */
  const OVERSIZE: nat := 17247252480 + 1

  lemma OversizeTooLong()
    ensures TooLong(Tiny(), OVERSIZE)
  {
    var g := Tiny();
    assert g.Off(1) == 1024;
    assert BlockSize(g) == 1024 && PerBlock(g) == 256;
    assert Span(g, 0) == 1 && Span(g, 1) == 256 && Span(g, 2) == 65536 && Span(g, 3) == 16777216;
    var lb := 16843020;
    assert SpotFrom(g, lb - 12 - 256 - 65536 - 16777216, 3) == Beyond;
    assert SpotFrom(g, lb - 12 - 256 - 65536, 2) == Beyond;
    assert SpotFrom(g, lb - 12 - 256, 1) == Beyond;
    assert SpotOf(g, lb) == Beyond;
    assert lb < Blocks(g, OVERSIZE);
  }

  /** A file that could never be stored leaves its inode marked too. */
  method OversizeKeepsInode(data: seq<byte>) returns (img: Image, rc: Rc)
    requires |data| == OVERSIZE
    ensures Ready(img) && rc != Ok && ViewsOf(img) == TinyViews() && img.Free() == {}
    ensures !SameMarks(img.g, [TinyGroup()], img.groups)
  {
    hide RootBlock, Tidy, Views, Sound, LinksOk, Full, TinyGroup, Tiny, TinyDisk, Refusal, Carried, FreeSet, SameMarks, InodeLeft, CanHave,
      Wholes, Limited, InUse, TooLong, Affords, Asked, Blocks;
    TinyTidy();
    TinySound();
    TinyFull();
    TinyMarks();
    TinyHome();
    OversizeTooLong();
    img := TinyImage();
    var i;
    rc, i := CreateFile(img, ROOTINO, Letters(99), data);
  }

  /** The letter e with an acute accent, in UTF-8. */
  const ACCENTED: seq<byte> := [0xC3, 0xA9]

  /** It can be had, and there is room for it behind "..". */
  lemma TinyTakes()
    ensures Refusal(TinyViews(), ROOTINO, ACCENTED) == Ok && NameOk(ACCENTED)
    ensures NewFileRc(Tiny(), [TinyGroup()], 0, 0) == Ok
    ensures !TakesNone(Tiny(), [TinyGroup()], OneFragDir(Tiny(), 1), TinyViews(), ROOTINO, ACCENTED)
  {
    hide RootBlock, DirTiled, Records, List, CannotGrow, FirstNamed, TinyGroup;
    RootBlockLists();
    TinyMarks();
    FirstNamedIs(RootEntries(), ACCENTED);
    StartNext(Tiny(), 0);
    StartMonotone(Tiny(), 1, NDADDR);
    assert RootRecords()[1] in RootRecords() && HasRoom(RootRecords()[1], DirentSize(2));
    NothingToStore(Tiny(), [TinyGroup()]);
  }

  lemma NothingToStore(g: Geometry, groups: seq<CylGroup>)
    ensures StoreRc(g, groups, 0) == Ok
  {
    hide Affordable, Blocks, TooLong, Superblock.Valid;
    BlocksIs(g, 0, 0);
    assert !TooLong(g, 0) by { NoneTooLong(g); }
    Storable(g, groups, 0);
  }

  lemma NoneTooLong(g: Geometry)
    ensures !TooLong(g, 0)
  {
    hide Blocks, SpotOf, Superblock.Valid;
    BlocksIs(g, 0, 0);
  }

  /** A file of that name alone: fsck does not read the directory as it is, and the file goes to
      lost+found. */
  method NameLost() returns (img: Image, i: nat, read: seq<seq<Dirent>>, t: Option<Outcome>, r: Option<Report>)
    ensures Ready(img) && Created(TinyViews(), ViewsOf(img), ROOTINO, i, View(Regular, 1, []), ACCENTED)
    ensures r.None? && read != BaseOf(ViewsOf(img)).dirs
    ensures t.Some? && i < |t.value.fate| && t.value.fate[i] == FsckTree.Orphan
  {
    hide RootBlock, Tidy, Views, Sound, LinksOk, TinyGroup, Tiny, TinyDisk, NothingFound, Neat, Whole, Typical, CountersKept, Accounted,
      Orderly, BaseRead, BaseOf, LinksKept, Formed, Carried, Refusal, TakesNone, NewFileRc, InodeLeft, Strands, Created, Unreadable;
    TinyTidy();
    TinySound();
    TinyNeat();
    TinyTypical();
    TinyWhole();
    TinyTakes();
    TinyHome();
    img := TinyImage();
    ghost var groups, inodes, disk := img.groups, img.inodes, img.disk;
    var rc;
    rc, i := CreateFile(img, ROOTINO, ACCENTED, []);
    Runs.StaysNeat(img.g, groups, inodes, disk, img.groups, img.inodes, img.disk);
    Runs.StaysWhole(img.g, groups, inodes, disk, img.groups, img.inodes, img.disk);
    AccentedIsLost(ViewsOf(img), i);
    read, t, r := Fsck(img);
  }

  lemma RootNumbers(x: Entry)
    requires x in RootEntries()
    ensures x.ino == ROOTINO || x.ino == FILE
  {
    hide Letters;
  }

  lemma NotPlain()
    ensures !Plain(ACCENTED)
  {
    assert ACCENTED[0] == 0xC3;
  }

  /** The root was in good form and still is; it lists the new file, under a name that is not plain. */
  lemma AccentedIsListed(views: seq<View>, i: nat)
    requires Created(TinyViews(), views, ROOTINO, i, View(Regular, 1, []), ACCENTED)
    ensures |views| == 5 && ROOTINO <= i < 5 && i != ROOTINO && i != FILE && views[i] == View(Regular, 1, [])
    ensures views == TinyViews()[i := View(Regular, 1, [])][ROOTINO := views[ROOTINO]] && views[ROOTINO].kind == Directory
    ensures Formed(views) && Inserted(RootEntries(), Listing(views[ROOTINO].bytes), Entry(ACCENTED, i))
  {
    hide RootBlock, DirTiled, Records, List, KeepsDots, Kempt, FirstNamed, Inserted, RootEntries, NamesPlain;
    TinyOrderly();
    RootBlockLists();
    var mid := TinyViews()[i := View(Regular, 1, [])];
    assert Formed(mid);
    Runs.EntryForm(mid, views, ROOTINO, Entry(ACCENTED, i));
  }

  lemma AccentedIsLost(views: seq<View>, i: nat)
    requires Created(TinyViews(), views, ROOTINO, i, View(Regular, 1, []), ACCENTED)
    ensures Formed(views) && !Orderly(views)
    ensures ROOTINO <= i < |views| && views[i] == View(Regular, 1, []) && Unreadable(views, i)
  {
    hide RootBlock, List, Records, Kempt, RootEntries, Plain, Created, Formed;
    AccentedIsListed(views, i);
    NotPlain();
    var es, e := Listing(views[ROOTINO].bytes), Entry(ACCENTED, i);
    var k :| 0 <= k <= |RootEntries()| && es == RootEntries()[..k] + [e] + RootEntries()[k..];
    assert es[k] == e && e in es;
    assert !NamesPlain(es);
    forall x | x in es && x != e ensures x.ino != i {
      RootNumbers(x);
    }
  }

  lemma NoSlots()
    ensures SlotCount([UNALLOCATED]) == 0
  {
    assert [UNALLOCATED][1..] == [];
  }

  /** A write to the one block of a disk whose parent holds a byte less: the disk has room, and the
      write fails. */
  method WriteAtShortParent() returns (disk: Backend, rc: Rc)
    ensures disk.Valid() && disk.h.size == 2 && |disk.layer.bmap| == 1 && Vdi.Packed(disk.layer) && rc == IoError
  {
    hide GuestByte, Guest, Header.SlotAt, Header.BlockAt, LayerOk, Splice, Vdi.Stored, SlotCount;
    var h := Header(2, 0, 1, 512, 516, 2);
    var layer := Layer([UNALLOCATED], 0, seq(516, _ => 0));
    SmallLayer(h, layer);
    NoSlots();
    var parent := new Backend(false, h, null, Layer([], 0, [7]));
    disk := new Backend(true, h, parent, layer);
    assert TouchedBy(h, 0, 0, 1) && !disk.Covered(0);
    ghost var done;
    rc, done := disk.Write(0, [9]);
    MapSize(h, disk.layer);
  }

  lemma SmallLayer(h: Header, layer: Layer)
    requires h == Header(2, 0, 1, 512, 516, 2) && layer == Layer([UNALLOCATED], 0, seq(516, _ => 0))
    ensures LayerOk(h, layer) && h.BlockAt(0) == 0
  {
    assert h.SlotAt(0) == 516 && h.BlockAt(1) == 2;
  }
}
