/** A directory with a block past the direct pointers: removing an entry there is refused, and a
    rename of it stops half way. */
module WitnessRename {
  import opened Geometry
  import opened FreeMap
  import opened Image
  import opened Room
  import opened Indirect
  import opened FileMap
  import opened Storage
  import opened Mutate
  import opened Dirents
  import opened Dirs
  import opened Links
  import opened Tree
  import opened Commands
  import opened Rename
  import Grow
  import Witness

  /** Twenty fragments: metadata, the root directory, and eighteen free ones. */
  function Big(): Geometry {
    var g := Superblock(1, 20, 1, 20, 1024, 1, 1, 1, 0, 1, 0, 1, 1, 0, 5);
    assert g.Base(0) == 0 && g.Base(1) == 20;
    g
  }

  const FAR: nat := 3
  const FILE: nat := 4
  const D: seq<byte> := [100]
  const F: seq<byte> := [102]
  const G: seq<byte> := [103]

  // ---- the directory's bytes ----

  function Root(): (bs: seq<byte>)
    ensures |bs| == DIRBLKSIZ
  {
    DirentRaw(Dirent(ROOTINO, 12, DOT)) + DirentRaw(Dirent(ROOTINO, 12, DOTDOT)) + DirentRaw(Dirent(FAR, 1000, D))
  }

  function FreeBlock(): (bs: seq<byte>)
    ensures |bs| == DIRBLKSIZ
  {
    DirentRaw(Dirent(0, DIRBLKSIZ, []))
  }

  function FreeBlocks(n: nat): (bs: seq<byte>)
    ensures |bs| == n * DIRBLKSIZ
  {
    if n == 0 then [] else FreeBlocks(n - 1) + FreeBlock()
  }

  /** The dots, eleven empty blocks, and the file's name in the thirteenth block. */
  function Far(): (bs: seq<byte>)
    ensures |bs| == 13 * DIRBLKSIZ
  {
    NewDirBlock(FAR, ROOTINO) + FreeBlocks(11) + DirentRaw(Dirent(FILE, DIRBLKSIZ, F))
  }

  lemma RootLists()
    ensures DirTiled(Root()) && Records(Root()) == [Dirent(ROOTINO, 12, DOT), Dirent(ROOTINO, 12, DOTDOT), Dirent(FAR, 1000, D)]
    ensures Listing(Root()) == [Entry(DOT, ROOTINO), Entry(DOTDOT, ROOTINO), Entry(D, FAR)]
  {
    hide Tiled, Records, DirentRaw, List, DirTiled;
    var a, b, c := Dirent(ROOTINO, 12, DOT), Dirent(ROOTINO, 12, DOTDOT), Dirent(FAR, 1000, D);
    RawRecord(a);
    RawRecord(b);
    RawRecord(c);
    TiledConcat(DirentRaw(a), DirentRaw(b));
    TiledConcat(DirentRaw(a) + DirentRaw(b), DirentRaw(c));
    OneDirblk(Root());
    ListConcat([a], [b]);
    ListConcat([a] + [b], [c]);
    ListOne(a);
    ListOne(b);
    ListOne(c);
    assert [a] + [b] + [c] == [a, b, c];
  }

  lemma FreeBlockLists()
    ensures DirTiled(FreeBlock()) && Records(FreeBlock()) == [Dirent(0, DIRBLKSIZ, [])] && Listing(FreeBlock()) == []
  {
    hide Tiled, Records, DirentRaw, List, DirTiled;
    RawRecord(Dirent(0, DIRBLKSIZ, []));
    OneDirblk(FreeBlock());
    ListOne(Dirent(0, DIRBLKSIZ, []));
  }

  lemma {:induction false} FreeBlocksList(n: nat)
    ensures DirTiled(FreeBlocks(n)) && Listing(FreeBlocks(n)) == [] && forall r | r in Records(FreeBlocks(n)) :: r.ino == 0
  {
    hide Tiled, Records, List, FreeBlock;
    if n == 0 {
      EmptyRecords([]);
      NothingListed();
    } else {
      FreeBlocksList(n - 1);
      FreeBlockLists();
      DirTiledConcat(FreeBlocks(n - 1), FreeBlock());
      DirTiledTiled(FreeBlocks(n - 1));
      TiledConcat(FreeBlocks(n - 1), FreeBlock());
      ListConcat(Records(FreeBlocks(n - 1)), Records(FreeBlock()));
    }
  }

  lemma NothingListed()
    ensures List([]) == []
  {
  }

  lemma LastLists()
    ensures var last := DirentRaw(Dirent(FILE, DIRBLKSIZ, F));
            DirTiled(last) && Records(last) == [Dirent(FILE, DIRBLKSIZ, F)] && Listing(last) == [Entry(F, FILE)]
  {
    hide Tiled, Records, DirentRaw, List, DirTiled;
    RawRecord(Dirent(FILE, DIRBLKSIZ, F));
    OneDirblk(DirentRaw(Dirent(FILE, DIRBLKSIZ, F)));
    ListOne(Dirent(FILE, DIRBLKSIZ, F));
  }

  /** The direct blocks of the far directory hold its dots and nothing else in use. */
  function Near(): (bs: seq<byte>)
    ensures |bs| == 12 * DIRBLKSIZ
  {
    NewDirBlock(FAR, ROOTINO) + FreeBlocks(11)
  }

  lemma FarLists()
    ensures DirTiled(Far()) && Listing(Far()) == [Entry(DOT, FAR), Entry(DOTDOT, ROOTINO), Entry(F, FILE)]
    ensures DotsIn(Records(Far()), FAR) == Some(ROOTINO)
    ensures Far()[..12 * DIRBLKSIZ] == Near() && NoMatch(Records(Near()), F)
  {
    hide Tiled, Records, DirentRaw, List, DirTiled, NewDirBlock, FreeBlocks;
    NewDirLists(FAR, ROOTINO);
    FreeBlocksList(11);
    LastLists();
    ListingParts(NewDirBlock(FAR, ROOTINO), FreeBlocks(11), DirentRaw(Dirent(FILE, DIRBLKSIZ, F)));
    DirTiledTiled(NewDirBlock(FAR, ROOTINO));
    TiledConcat(NewDirBlock(FAR, ROOTINO), FreeBlocks(11));
    NewDirRecords(FAR, ROOTINO);
  }

  lemma NewDirRecords(self: nat, parent: nat)
    requires 0 < self < 0x1_0000_0000 && 0 < parent < 0x1_0000_0000
    ensures Records(NewDirBlock(self, parent)) == [Dirent(self, DirentSize(1), DOT), Dirent(parent, DIRBLKSIZ - DirentSize(1), DOTDOT)]
  {
    hide Tiled, Records, DirentRaw;
    var a, b := Dirent(self, DirentSize(1), DOT), Dirent(parent, DIRBLKSIZ - DirentSize(1), DOTDOT);
    RawRecord(a);
    RawRecord(b);
    TiledConcat(DirentRaw(a), DirentRaw(b));
  }

  // ---- the image before the far directory is stored ----

  function AllUsed(): CylGroup {
    CylGroup(20, Csum(1, 0, 1, 0), 0, 0, Witness.NoCounts(MAX_FRAG), Witness.NoCounts(MAX_CPG), seq(MAX_CPG, _ => Witness.NoCounts(NRPOS)),
             [true, true, true, false, true], seq(20, _ => false))
  }

  lemma {:induction false} NothingFree(off: nat, st: Stat)
    requires st.For(Big()) && off <= 20
    ensures Recount(Big(), AllUsed().free, off, st) == 0
    decreases 20 - off
  {
    if off < 20 {
      assert Slice(AllUsed().free, off, 1) == [false];
      assert PopCount([false]) == 0;
      NothingFree(off + 1, st);
    }
  }

  lemma AllUsedCounted()
    ensures AllUsed().Counted(Big())
  {
    forall st: Stat | st.For(Big()) ensures AllUsed().Counter(Big(), st) == Recount(Big(), AllUsed().free, 0, st) {
      NothingFree(0, st);
    }
  }

  /** With one fragment to a block every free one is a whole block. */
  lemma {:induction false} NoLoose(g: Geometry, free: seq<bool>, off: nat)
    requires g.fpb == 1 && |free| == g.fpg && off <= g.fpg
    ensures Recount(g, free, off, NFFree) == 0
    decreases g.fpg - off
  {
    if off < g.fpg {
      NoLoose(g, free, off + 1);
      assert Slice(free, off, 1) == [free[off]];
      assert PopCount([free[off]]) == if free[off] then 1 else 0;
    }
  }

  /** The group with fragments 2 to 19 free. */
  ghost predicate HasRoomFor(group: CylGroup) {
    && group.Valid(Big(), 0) && group.iused == [true, true, true, false, true]
    && |group.free| == 20 && forall i | 0 <= i < 20 :: group.free[i] <==> i >= 2
  }

  method MakeGroup() returns (group: CylGroup)
    ensures HasRoomFor(group)
  {
    hide CylGroup.Counted;
    AllUsedCounted();
    var r := Grow.AddFreeRange(Big(), AllUsed(), 2, 20);
    group := r.value;
    assert Big().GroupFrags(0) == 20;
    assert ClearBits([true, true, true, false, true]) == 1 by { Marks(); }
  }

  lemma Marks()
    ensures PopCount([true, true, true, false, true]) == 4
  {
    assert PopCount([true]) == 1 && PopCount([false, true]) == 1 && PopCount([true, false, true]) == 2;
  }

  lemma EighteenWholes(group: CylGroup)
    requires HasRoomFor(group)
    ensures Wholes(Big(), [group]) == 18 && InodeLeft([group], 0)
  {
    hide CylGroup.Valid, Recount;
    assert [group][1..] == [];
    assert group.free[0..] == group.free;
    CountersCoverMap(Big(), group.free, 0);
    NoLoose(Big(), group.free, 0);
    FreeBits(group.free);
    Marks();
  }

  lemma FreeBits(free: seq<bool>)
    requires |free| == 20 && forall i | 0 <= i < 20 :: free[i] <==> i >= 2
    ensures PopCount(free) == 18
  {
    var rest := free[2..];
    PopCountAll(rest);
    assert free == [false] + ([false] + rest);
    assert free[1..] == [false] + rest && free[1..][1..] == rest;
  }

  function Inodes0(): seq<Inode> {
    [CLEARED, CLEARED, OneFragDir(Big(), 1).(nlink := 3), CLEARED, CLEARED.(kind := Regular, nlink := 1)]
  }

  function Disk0(): (d: seq<byte>)
    ensures |d| == 20480
  {
    seq(1024, _ => 0) + Root() + seq(18432, _ => 0)
  }

  lemma RootFile()
    ensures var g, ino := Big(), OneFragDir(Big(), 1).(nlink := 3);
            && DirGeometry(g) && ino.Shaped() && FileOk(g, Disk0(), ino) && !TooLong(g, ino.size)
            && CountsOwned(g, Disk0(), ino) && Owned(g, Disk0(), ino) == Run(1, 1)
            && FileBytes(g, Disk0(), ino) == Root()
  {
    hide FileOk, TooLong, CountsOwned, Owned, FileBytes, Root;
    var g, d, e := Big(), seq(20480, _ => 0 as byte), Disk0();
    assert g.Off(20) == 20480 && g.Off(1) == 1024 && g.Off(2) == 2048;
    assert Bytes(g, d, 1, 1) == d[1024..2048];
    assert Bytes(g, e, 1, 1) == e[1024..2048] == Root();
    assert Splice(Bytes(g, d, 1, 1), 0, Root()) == Root();
    OneFragFile(g, d, e, 1, Root());
    SameFile(g, e, OneFragDir(g, 1), OneFragDir(g, 1).(nlink := 3));
    SameCount(g, e, OneFragDir(g, 1), OneFragDir(g, 1).(nlink := 3));
  }

  lemma SameCount(g: Geometry, d: seq<byte>, a: Inode, b: Inode)
    requires a.Shaped() && b.Shaped() && b.blocks == a.blocks && Owned(g, d, b) == Owned(g, d, a) && CountsOwned(g, d, a)
    ensures CountsOwned(g, d, b)
  {
    hide Owned;
  }

  function Views0(): seq<View> {
    [GONE, GONE, View(Directory, 3, Root()), GONE, View(Regular, 1, [])]
  }

  lemma Sound0(group: CylGroup)
    requires HasRoomFor(group)
    ensures Sound(Big(), [group], Inodes0(), Disk0()) && Views(Big(), Disk0(), Inodes0()) == Views0()
    ensures Aside(Big(), [group]) && forall k: nat | k < 5 && k != 3 :: InUse(Big(), [group], k)
    ensures !InUse(Big(), [group], 3)
  {
    hide Superblock.Valid, CylGroup.Valid, FileOk, TooLong, CountsOwned, Owned, FileBytes, Root, Disk0, Run, FreeSet;
    var g, d := Big(), Disk0();
    RootFile();
    RootNotFree(group);
    EmptyFile(g, d, Inodes0()[4]);
    assert |Inodes0()| == 5;
  }

  lemma RootNotFree(group: CylGroup)
    requires HasRoomFor(group)
    ensures Run(1, 1) !! FreeSet(Big(), [group])
  {
    hide CylGroup.Valid;
    RunMembers(1, 1);
  }

  lemma EmptyFile(g: Geometry, d: seq<byte>, ino: Inode)
    requires ino == CLEARED.(kind := Regular, nlink := 1)
    ensures forall free: set<nat> :: InodeOk(g, d, free, ino)
    ensures OwnedBy(g, d, ino) == {} && ViewOf(g, d, ino) == View(Regular, 1, [])
  {
    hide Superblock.Valid, FileOk, TooLong, CountsOwned, Owned, FileBytes;
    NothingOwned(g, d, ino);
    NoSectors(g, d, ino);
    assert |FileBytes(g, d, ino)| == 0;
  }

  // ---- storing it ----

  lemma {:induction false} AskedDirect(g: Geometry, k: nat)
    requires k <= NDADDR
    ensures Asked(g, k) == k
  {
    if k > 0 {
      AskedDirect(g, k - 1);
      DirectSpot(g, k - 1);
    }
  }

  /** Thirteen data blocks and one of pointers. */
  lemma FourteenBlocks()
    ensures Blocks(Big(), 13312) == 13 && Asked(Big(), 13) == 14 && !TooLong(Big(), 13312)
  {
    hide Span;
    var g := Big();
    assert g.Off(1) == 1024 && BlockSize(g) == 1024;
    AskedDirect(g, 12);
    assert Span(g, 1) > 0;
    assert SpotOf(g, 12) == SpotFrom(g, 0, 0) == Under(0, 0);
    assert Fresh(g, 1, 0) == 1;
    if TooLong(g, 13312) {
      var lb: nat :| lb < 13 && SpotOf(g, lb) == Beyond;
      BeyondMonotone(g, lb, 12);
    }
  }

  lemma Storable14(group: CylGroup)
    requires HasRoomFor(group)
    ensures NewFileRc(Big(), [group], 0, 13312) == Ok
  {
    hide CylGroup.Valid, Wholes, TooLong, Affords, Asked, Blocks;
    EighteenWholes(group);
    FourteenBlocks();
    EnoughWholes(Big(), [group], 13312, 13);
    Storable(Big(), [group], 13312);
  }

  /** What users see once the far directory is one. */
  function FarViews(): seq<View> {
    [GONE, GONE, View(Directory, 3, Root()), View(Directory, 2, Far()), View(Regular, 1, [])]
  }

  /** A stored file becomes a directory. */
  lemma NowDirectory(g: Geometry, groups: seq<CylGroup>, inodes: seq<Inode>, d: seq<byte>, i: nat)
    requires Sound(g, groups, inodes, d) && i < |inodes| && |d| == g.Off(g.fragCount) && inodes[i].kind == Regular && inodes[i].nlink == 1
    ensures var now := inodes[i := inodes[i].(kind := Directory, nlink := 2)];
            && Sound(g, groups, now, d)
            && Views(g, d, now) == Views(g, d, inodes)[i := View(Directory, 2, Views(g, d, inodes)[i].bytes)]
  {
    hide Superblock.Valid, TooLong, FreeSet, Sound, FileOk, Owned, FileBytes;
    var new_ := inodes[i].(kind := Directory, nlink := 2);
    SoundAt(g, groups, inodes, d, i);
    SameFile(g, d, inodes[i], new_);
    assert OnlyWrote(g, d, d, {});
    Replaced(g, groups, inodes, d, groups, d, i, new_, {});
  }

  method FarImage() returns (img: Image)
    ensures fresh(img) && img.Valid() && img.g == Big() && ViewsOf(img) == FarViews() && |img.inodes| == 5 && DirGeometry(img.g)
    ensures Sound(img.g, img.groups, img.inodes, img.disk) && Aside(img.g, img.groups)
  {
    hide CylGroup.Valid, Root, Far, Disk0, Sound, Views, InUse, FreeSet, Dense, Compact, OwnedBy, Big, BitSet, Inodes0, NewFileRc, Wholes, Asked,
      Blocks, Carried, Strands, SameMarks;
    var group := MakeGroup();
    Sound0(group);
    Storable14(group);
    BigIs();
    img := new Image(Big(), [group], [group.cs], group.cs, Inodes0(), Disk0());
    OneSum(group.cs);
    ghost var groups := img.groups;
    var rc, i := NewFile(img, 0, Regular, Far());
    OnlyThree(groups, img.inodes, i);
    MarksAfter(groups, img.groups, i);
    UnusedIsGone(img.g, img.disk, img.inodes, i);
    NowDirectory(img.g, img.groups, img.inodes, img.disk, i);
    img.inodes := img.inodes[i := img.inodes[i].(kind := Directory, nlink := 2)];
  }

  lemma BigIs()
    ensures Big().ncg == 1 && DirGeometry(Big()) && Big().Off(20) == 20480 && Big().fragCount == 20 && |Inodes0()| == 5
  {
  }

  lemma OnlyThree(groups: seq<CylGroup>, inodes: seq<Inode>, i: nat)
    requires i < |inodes| == 5 && !InUse(Big(), groups, i) && forall k: nat | k < 5 && k != 3 :: InUse(Big(), groups, k)
    ensures i == 3
  {
    hide InUse;
  }

  lemma MarksAfter(a: seq<CylGroup>, b: seq<CylGroup>, i: nat)
    requires BitSet(Big(), a, b, i, true, false) && Aside(Big(), a)
    ensures Aside(Big(), b)
  {
    hide InUse;
  }

  lemma OneSum(cs: Csum)
    ensures SumOf([cs]) == cs
  {
    assert [cs][1..] == [];
  }

  // ---- a tree with right link counts ----

  function RootEntries(): seq<Entry> {
    [Entry(DOT, ROOTINO), Entry(DOTDOT, ROOTINO), Entry(D, FAR)]
  }

  function FarEntries(): seq<Entry> {
    [Entry(DOT, FAR), Entry(DOTDOT, ROOTINO), Entry(F, FILE)]
  }

  lemma Three(a: Entry, b: Entry, c: Entry, i: nat)
    ensures Count([a, b, c], i) == (if a.ino == i then 1 else 0) + (if b.ino == i then 1 else 0) + (if c.ino == i then 1 else 0)
    ensures a.name == DOT && b.name == DOTDOT && c.name != DOT && c.name != DOTDOT ==> KidsIn([a, b, c], i) == if c.ino == i then 1 else 0
  {
    assert [a, b, c] == [a] + ([b] + [c]);
    CountConcat([a], [b] + [c], i);
    CountConcat([b], [c], i);
    CountOne(a, i);
    CountOne(b, i);
    CountOne(c, i);
    KidsConcat([a], [b] + [c], i);
    KidsConcat([b], [c], i);
    KidsOne(a, i);
    KidsOne(b, i);
    KidsOne(c, i);
  }

  /** Where there are two directories, they make all the references. */
  lemma {:induction false} TwoDirectories(views: seq<View>, a: nat, b: nat, i: nat)
    requires a < b && forall j: nat | j < |views| && j != a && j != b :: views[j].kind != Directory
    ensures Refs(views, i) == (if a < |views| then Named(views[a], i) else 0) + (if b < |views| then Named(views[b], i) else 0)
    decreases |views|
  {
    hide Named;
    if views != [] {
      var n: nat := |views| - 1;
      TwoDirectories(views[..n], a, b, i);
      if n != a && n != b {
        NotDirNamesNothing(views[n], i);
      }
    }
  }

  lemma FarRefs(i: nat)
    requires i < 5
    ensures Refs(FarViews(), i) == FarViews()[i].nlink
  {
    hide Root, Far, Count, Records, List;
    RootLists();
    FarLists();
    TwoDirectories(FarViews(), ROOTINO, FAR, i);
    Three(RootEntries()[0], RootEntries()[1], RootEntries()[2], i);
    Three(FarEntries()[0], FarEntries()[1], FarEntries()[2], i);
  }

  lemma EntriesOk()
    ensures DirOk(Root(), ROOTINO, 5) && DirOk(Far(), FAR, 5)
  {
    hide Root, Far, DirTiled, Records, List, FirstNamed;
    RootLists();
    FarLists();
    FirstNamedIs(RootEntries(), DOTDOT);
    FirstNamedIs(FarEntries(), DOTDOT);
    assert RootEntries()[0] == Entry(DOT, ROOTINO) && RootEntries()[1] == Entry(DOTDOT, ROOTINO);
    assert FarEntries()[0] == Entry(DOT, FAR) && FarEntries()[1] == Entry(DOTDOT, ROOTINO);
    assert |DOT| == 1 && |DOTDOT| == 2 && D[0] == 100 && F[0] == 102 && DOT[0] == 46;
  }

  lemma FarLinks()
    ensures LinksOk(FarViews())
  {
    hide Root, Far, DirOk, Refs;
    EntriesOk();
    var views := FarViews();
    forall i | 0 <= i < |views| ensures views[i].nlink == Refs(views, i) {
      FarRefs(i);
    }
  }

  lemma FarTree()
    ensures Hangs(FarViews())
  {
    hide Root, Far, DirTiled, Records, List, DotsIn, ParentOf, KidsIn;
    RootLists();
    FarLists();
    var views, depth := FarViews(), [0, 0, 0, 1, 0];
    assert DotsIn(Records(Root()), ROOTINO) == Some(ROOTINO) by { RootDots(); }
    ParentIsDots(views, ROOTINO);
    ParentIsDots(views, FAR);
    forall d: nat | d < 5 && d != ROOTINO && d != FAR ensures ParentOf(views, d) == None {
      NotDirNoParent(views, d);
    }
    assert TreeAt(views, depth);
    forall k: nat, d: nat | k < 5 && d < 5 && IsDirView(views[k]) && IsDirView(views[d]) ensures Hung(views, k, d) {
      FarHung(k, d);
    }
    assert TreeOk(views, depth);
  }

  lemma FarKids(d: nat)
    ensures KidsIn(RootEntries(), d) == if d == FAR then 1 else 0
    ensures KidsIn(FarEntries(), d) == if d == FILE then 1 else 0
  {
    hide KidsIn;
    assert D[0] == 100 && F[0] == 102 && DOT[0] == 46 && DOTDOT[0] == 46;
    Three(RootEntries()[0], RootEntries()[1], RootEntries()[2], d);
    Three(FarEntries()[0], FarEntries()[1], FarEntries()[2], d);
  }

  lemma FarHung(k: nat, d: nat)
    requires k < 5 && d < 5 && IsDirView(FarViews()[k]) && IsDirView(FarViews()[d])
    requires ParentOf(FarViews(), FAR) == Some(ROOTINO) && ParentOf(FarViews(), ROOTINO) == None
    ensures Hung(FarViews(), k, d)
  {
    hide Root, Far, DirTiled, Records, List, DotsIn, ParentOf, KidsIn;
    RootLists();
    FarLists();
    FarKids(d);
    assert (k == ROOTINO || k == FAR) && (d == ROOTINO || d == FAR);
    assert Listing(FarViews()[k].bytes) == if k == ROOTINO then RootEntries() else FarEntries();
  }

  lemma RootDots()
    ensures DotsIn(Records(Root()), ROOTINO) == Some(ROOTINO)
  {
    hide Root, Records;
    RootLists();
  }

  /** The image is one the commands rely on, and the file's name lies past the direct blocks. */
  method ReadyImage() returns (img: Image)
    ensures fresh(img) && Ready(img) && img.g == Big() && ViewsOf(img) == FarViews() && |img.inodes| == 5
  {
    hide CylGroup.Valid, Root, Far, Sound, Views, InUse, LinksOk, Hangs, Big;
    img := FarImage();
    FarLinks();
    FarTree();
    NowTidy(img.g, img.groups, img.inodes, img.disk);
  }

  // ---- the rename ----

  lemma MayRename()
    ensures RenameRefusal(FarViews(), FAR, F, ROOTINO, G) == Ok && !Already(FarViews(), FAR, F, ROOTINO, G)
    ensures Rename.Lookup(FarViews(), FAR, F) == Some(FILE) && Rename.Lookup(FarViews(), ROOTINO, G) == None
    ensures Removable(Root(), G) && RemoveOutcome(Big(), Far(), F) == Invalid
    ensures !NoRoom(DirectPart(Big(), Root()), DirentSize(1))
  {
    hide Root, Far, DirTiled, Records, List, Removable, Near;
    RootLists();
    FarLists();
    assert D[0] == 100 && F[0] == 102 && G[0] == 103;
    assert FirstNamed(RootEntries(), G) == None by { NotThere(RootEntries(), G); }
    assert FirstNamed(FarEntries(), F) == Some(FILE) by { Third(FarEntries(), F); }
    NothingToRemove(Root(), G);
    BigStart();
    assert DirectPart(Big(), Root()) == Root() && Records(Root())[2] in Records(Root());
  }

  lemma NotThere(es: seq<Entry>, name: seq<byte>)
    requires |es| == 3 && es[0].name != name && es[1].name != name && es[2].name != name
    ensures FirstNamed(es, name) == None
  {
    hide FirstNamed;
    FirstNamedIs(es, name);
  }

  lemma Third(es: seq<Entry>, name: seq<byte>)
    requires |es| == 3 && es[0].name != name && es[1].name != name && es[2].name == name
    ensures FirstNamed(es, name) == Some(es[2].ino)
  {
    var rest := es[1..];
    assert FirstNamed(es, name) == FirstNamed(rest, name) == FirstNamed(rest[1..], name);
  }

  lemma BigStart()
    ensures Start(Big(), NDADDR) == 12 * DIRBLKSIZ
  {
    assert Big().Off(1) == 1024;
  }

  /** rename: both names are there, and the link count is one short. */
  method RenameStopsHalfWay() returns (img: Image, rc: Rc)
    ensures rc == Invalid && img.Valid() && Sound(img.g, img.groups, img.inodes, img.disk)
    ensures WithEntry(FarViews(), ViewsOf(img), ROOTINO, Entry(G, FILE)) && !LinksOk(ViewsOf(img))
  {
    hide CylGroup.Valid, Root, Far, Sound, Views, Tidy, LinksOk, Hangs, Big, Removable, RemoveOutcome, RenameRefusal, Full, NoRoom, DirectPart,
      WithEntry, Carried, OnlyThose, Rename.Lookup, FileBytes;
    img := ReadyImage();
    FarLinks();
    MayRename();
    ghost var groups, ino := img.groups, img.inodes[ROOTINO];
    TidyParts(img.g, img.groups, img.inodes, img.disk, ROOTINO);
    RoomIsNotFull(img.g, groups, ino, Root(), DirentSize(1));
    ghost var mid;
    rc, mid := Rename.Rename(img, FAR, F, ROOTINO, G);
    NamedTwice(FarViews(), ViewsOf(img), ROOTINO, G, FILE);
  }
}
