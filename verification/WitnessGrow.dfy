/** An image whose growth is refused half way: the fragment behind the summary area is found through
    an indirect block. */
module WitnessGrow {
  import opened Geometry
  import opened FreeMap
  import opened Image
  import opened Alloc
  import opened Indirect
  import opened FileMap
  import opened Storage
  import opened Mutate
  import opened Dirs
  import opened Links
  import opened Tree
  import opened Commands
  import opened Evacuate
  import opened Resize
  import FsckClaims
  import FsckClean
  import Grow
  import Witness

  const FILE: nat := 3

  /** Sixteen fragments in a group of twenty: metadata, the last block of a file, its twelve direct
      blocks, its indirect block, and the root directory. */
  function Wide(): Geometry {
    var g := Superblock(1, 20, 1, 16, 1024, 1, 1, 1, 0, 1, 0, 1, 1, 0, 5);
    assert g.Base(0) == 0 && g.Base(1) == 20;
    g
  }

  /** One fragment more, and one for the summary area. */
  function Wider(): Geometry {
    var g := Superblock(1, 20, 1, 17, 1024, 1, 1, 1, 0, 1, 0, 1, 1, 1, 5);
    assert g.Base(0) == 0 && g.Base(1) == 20;
    g
  }

  function AllUsed(n: nat): (r: seq<bool>)
    ensures |r| == n && forall i | 0 <= i < n :: !r[i]
  {
    seq(n, _ => false)
  }

  function WideGroup(): CylGroup {
    CylGroup(16, Csum(1, 0, 1, 0), 0, 0, Witness.NoCounts(MAX_FRAG), Witness.NoCounts(MAX_CPG), seq(MAX_CPG, _ => Witness.NoCounts(NRPOS)),
             [true, true, true, true, false], AllUsed(20))
  }

  /** Thirteen blocks, the last of them in fragment 1. */
  function BigFile(): (ino: Inode)
    ensures ino.Shaped()
  {
    Inode(Regular, 2, 13312, [2, 3, 4, 5, 6, 7, 8, 9, 10, 11, 12, 13], [14, 0, 0], false, 14)
  }

  function Pointers(): (bs: seq<byte>)
    ensures |bs| == 1024
  {
    WriteBe32(1) + seq(1020, _ => 0)
  }

  function WideDisk(): (d: seq<byte>)
    ensures |d| == 16384
  {
    seq(14336, _ => 0) + Pointers() + Witness.RootBlock()
  }

  function WideInodes(): seq<Inode> {
    [CLEARED, CLEARED, OneFragDir(Wide(), 15), BigFile(), CLEARED]
  }

  lemma WideFrags()
    ensures Wide().GroupFrags(0) == 16 && Wide().Upper(0) == 1
  {
    hide Superblock.Valid;
    assert Wide().Base(0) == 0;
  }

  lemma WideLower()
    ensures Wide().Lower(0) == 0
  {
    hide Superblock.Valid;
  }

  lemma WiderFrags()
    ensures Wider().GroupFrags(0) == 17 && Wider().Upper(0) == 1
  {
    hide Superblock.Valid;
    assert Wider().Base(0) == 0;
  }

  lemma WideGrows()
    ensures Grow.Grown(Wide(), Wider())
  {
    hide Superblock.Valid;
  }

  lemma WidePointers()
    ensures PerBlock(Wide()) == 256
  {
  }

  lemma WideBlock()
    ensures BlockSize(Wide()) == 1024
  {
  }

  lemma WideOff(f: nat)
    ensures Wide().Off(f) == 1024 * f
  {
    hide Superblock.Valid;
  }

  lemma {:induction false} NoneFree(free: seq<bool>, off: nat, st: Stat)
    requires st.For(Wide()) && off <= 20 == |free| && forall i | 0 <= i < 20 :: !free[i]
    ensures Recount(Wide(), free, off, st) == 0
    decreases 20 - off
  {
    if off < 20 {
      assert Slice(free, off, 1) == [false];
      assert PopCount([false]) == 0;
      NoneFree(free, off + 1, st);
    }
  }

  lemma WideGroupValid()
    ensures WideGroup().Valid(Wide(), 0)
  {
    hide Wide, Superblock.Valid, Superblock.GroupFrags, Superblock.Upper, Recount;
    WideConstants();
    forall st: Stat | st.For(Wide()) ensures WideGroup().Counter(Wide(), st) == Recount(Wide(), WideGroup().free, 0, st) {
      NoneFree(WideGroup().free, 0, st);
    }
    WideFrags();
    assert PopCount([true, true, true, true, false]) == 4;
  }

  lemma WidePlaced(f: nat)
    requires 1 <= f < 16
    ensures Placed(Wide(), f, 1)
  {
    hide Wide, Superblock.Valid, Superblock.GroupFrags, Superblock.Upper, Superblock.GroupOf, Superblock.LocalOf;
    WideFrags();
    WideConstants();
    InGroupZero(Wide(), f);
  }

  // ---- the file ----

  lemma DiskParts()
    ensures |WideDisk()| == 16384 && WideDisk()[14336..15360] == Pointers() && WideDisk()[15360..] == Witness.RootBlock()
    ensures Pointers()[0..4] == WriteBe32(1)
  {
    hide Witness.RootBlock, WriteBe32;
  }

  lemma IndirectBlock()
    ensures SlotTree(Wide(), WideDisk(), BigFile(), 0) == Leaf(14, Entries(Wide(), WideDisk(), 14))
    ensures |Entries(Wide(), WideDisk(), 14)| == 256 && Entries(Wide(), WideDisk(), 14)[0] == 1
    ensures SlotTree(Wide(), WideDisk(), BigFile(), 1) == Hole && SlotTree(Wide(), WideDisk(), BigFile(), 2) == Hole
  {
    hide WideDisk, Wide, Superblock.Valid, PerBlock, Bytes, Pointers, WriteBe32, ReadBe32;
    WidePointers();
    DiskParts();
    WideBytes(14);
    WideConstants();
  }

  lemma WideBytes(f: nat)
    requires f < 16
    ensures |WideDisk()| == 16384 && Bytes(Wide(), WideDisk(), f, 1) == WideDisk()[1024 * f..1024 * f + 1024]
  {
    hide WideDisk, Wide, Superblock.Valid, Superblock.Off;
    WideOff(f);
    WideOff(f + 1);
    DiskParts();
  }

  /** Where block j of the file lies. */
  function Place(j: nat): nat {
    if j < 12 then j + 2 else 1
  }

  lemma BigSpots(j: nat)
    requires j < 13
    ensures SpotOf(Wide(), j) == (if j < 12 then Direct(j) else Under(0, 0)) && Ptr(Wide(), WideDisk(), BigFile(), j) == Place(j)
    ensures FragsFor(Wide(), j, Chunk(Wide(), 13312, j)) == 1
  {
    hide Entries, WideDisk, Wide, Superblock.Valid, BlockSize, PerBlock, SlotTree, Start, Span;
    WideBlock();
    WideConstants();
    IndirectBlock();
    FirstSpans(j);
    if j == 12 {
      assert SpotFrom(Wide(), 0, 0) == Under(0, 0);
    }
  }

  lemma FirstSpans(j: nat)
    ensures Span(Wide(), 0) == 1 && Span(Wide(), 1) == 256 && Start(Wide(), j) == j * 1024
  {
    hide Wide, Superblock.Valid, BlockSize, PerBlock;
    WideBlock();
    WidePointers();
  }

  lemma BigBlocks()
    ensures Blocks(Wide(), 13312) == 13 && !TooLong(Wide(), 13312)
  {
    hide SpotOf, BlockSize, Wide, Superblock.Valid;
    WideBlock();
    assert Blocks(Wide(), 13312) == 13;
    forall lb: nat | lb < 13 ensures SpotOf(Wide(), lb) != Beyond { BigSpots(lb); }
  }

  lemma BigExtents()
    ensures |FileExtents(Wide(), WideDisk(), BigFile())| == 13
    ensures forall j: nat | j < 13 :: FileExtents(Wide(), WideDisk(), BigFile())[j] == Extent(Place(j), 1)
  {
    hide Ptr, FragsFor, Chunk, WideDisk, Blocks;
    BigBlocks();
    forall j: nat | j < 13 ensures FileExtents(Wide(), WideDisk(), BigFile())[j] == Extent(Place(j), 1) {
      BigSpots(j);
    }
  }

  lemma PlaceRun(j: nat)
    requires j < 13
    ensures ExtentRun(Extent(Place(j), 1)) == {Place(j)}
  {
    RunMembers(Place(j), 1);
  }

  lemma BigData()
    ensures DataFrags(Wide(), WideDisk(), BigFile()) == Run(1, 13)
    ensures Apart(Wide(), FileExtents(Wide(), WideDisk(), BigFile()))
  {
    hide WideDisk, FileExtents, Covers, ExtentRun, Run, Placed, Wide;
    BigExtents();
    var xs := FileExtents(Wide(), WideDisk(), BigFile());
    RunMembers(1, 13);
    forall j: nat | j < 13 ensures ExtentRun(xs[j]) == {Place(j)} && Placed(Wide(), Place(j), 1) && Place(j) in Covers(xs) {
      PlaceRun(j);
      WidePlaced(Place(j));
      CoversHas(xs, j);
    }
    forall f: nat ensures f in Covers(xs) <==> f in Run(1, 13) {
      if 1 <= f < 14 {
        var j: nat := if f == 1 then 12 else f - 2;
        assert Place(j) == f;
      } else {
        CoversApart(xs, {f});
      }
    }
  }

  lemma BigFileOk()
    ensures var g, d := Wide(), WideDisk();
            && FileOk(g, d, BigFile()) && !TooLong(g, BigFile().size) && CountsOwned(g, d, BigFile())
            && Owned(g, d, BigFile()) == Run(1, 14)
  {
    hide WideDisk, FileExtents, Covers, Run, Placed, Wide, Entries, TooLong, Apart;
    BigData();
    BigBlocks();
    IndirectBlock();
    WidePlaced(14);
    RunMembers(1, 13);
    RunMembers(14, 1);
    RunMembers(1, 14);
    RunSize(1, 14);
    WideConstants();
    assert Run(1, 14) == Run(1, 13) + Run(14, 1);
  }

  lemma WideConstants()
    ensures Wide().fpb == 1 && Wide().fragSize == 1024 && Wide().spf == 1 && Wide().inodesPerGroup == 5 && Wide().ncg == 1 && Wide().fragCount == 16 && Wide().fpg == 20
    ensures Wide().csumAddr == 1 && Wide().csumFrags == 0
  {
  }

  lemma RootOk()
    ensures var g, d, ino := Wide(), WideDisk(), OneFragDir(Wide(), 15);
            && DirGeometry(g) && ino.Shaped() && FileOk(g, d, ino) && !TooLong(g, ino.size) && CountsOwned(g, d, ino)
            && Owned(g, d, ino) == Run(15, 1) && FileBytes(g, d, ino) == Witness.RootBlock()
  {
    hide FileOk, TooLong, CountsOwned, Owned, FileBytes, Witness.RootBlock, Wide, WideDisk, Superblock.Valid, Superblock.Off, Placed;
    var g, d, e := Wide(), seq(16384, _ => 0 as byte), WideDisk();
    WideConstants();
    WidePlaced(15);
    DiskParts();
    WideBytes(15);
    assert g.Off(15) == 15360 && g.Off(16) == 16384 by { WideOff(15); WideOff(16); }
    assert |Bytes(g, d, 15, 1)| == 1024;
    assert Splice(Bytes(g, d, 15, 1), 0, Witness.RootBlock()) == Witness.RootBlock();
    OneFragFile(g, d, e, 15, Witness.RootBlock());
  }

  // ---- the image ----

  /** What users see: the file holds thirteen blocks. */
  ghost function WideViews(): seq<View> {
    Witness.TinyViews()[FILE := View(Regular, 2, FileBytes(Wide(), WideDisk(), BigFile()))]
  }

  lemma WideMarks()
    ensures FreeSet(Wide(), [WideGroup()]) == {}
    ensures Aside(Wide(), [WideGroup()]) && InUse(Wide(), [WideGroup()], 2) && InUse(Wide(), [WideGroup()], 3)
  {
  }

  lemma WideSound()
    ensures Sound(Wide(), [WideGroup()], WideInodes(), WideDisk())
    ensures Views(Wide(), WideDisk(), WideInodes()) == WideViews()
  {
    hide Superblock.Valid, FileOk, TooLong, CountsOwned, Owned, FileBytes, Witness.RootBlock, WideDisk, InUse, Run, FreeSet, WideGroup, Wide;
    RootOk();
    WideMarks();
    BigFileOk();
    RunMembers(1, 14);
    RunMembers(15, 1);
    WideConstants();
  }

  lemma WideTidy()
    ensures Tidy(Wide(), [WideGroup()], WideInodes(), WideDisk())
  {
    hide Witness.RootBlock, Sound, LinksOk, Hangs, InUse, Views, FileBytes, WideDisk, Wide;
    WideSound();
    WideMarks();
    Witness.TinyLinks();
    Witness.TinyTree();
    EditedKeepsLinks(Witness.TinyViews(), FILE, FileBytes(Wide(), WideDisk(), BigFile()));
    EditedKeepsTree(Witness.TinyViews(), FILE, FileBytes(Wide(), WideDisk(), BigFile()));
    assert DirGeometry(Wide()) by { RootOk(); }
  }

  lemma WideWhole()
    ensures FsckClean.Whole(Wide(), [WideGroup()], WideInodes(), WideDisk())
  {
    hide Witness.RootBlock, WideDisk, Wide, FileOk, Owned, TooLong, CountsOwned, FileBytes, Run, FreeSet, WideGroup, FsckClaims.SetAside,
      Superblock.Valid;
    RootOk();
    BigFileOk();
    RunMembers(1, 14);
    RunMembers(15, 1);
    WideConstants();
    FirstAside();
    forall f: nat | f < 16 ensures FsckClaims.SetAside(Wide(), f) || f in AllOwned(Wide(), WideDisk(), WideInodes()) {
      if f == 15 {
        assert f in OwnedBy(Wide(), WideDisk(), WideInodes()[2]);
      } else if f > 0 {
        assert f in OwnedBy(Wide(), WideDisk(), WideInodes()[3]);
      }
    }
  }

  lemma FirstAside()
    ensures FsckClaims.SetAside(Wide(), 0)
  {
    hide Wide, Superblock.Valid, Superblock.Upper, Superblock.GroupOf;
    WideFrags();
    WideConstants();
    InGroupZero(Wide(), 0);
  }

  /** Direct blocks and the indirect block are out of the way. */
  lemma WideClear()
    ensures AllDirectClear(Wide(), WideInodes(), 1, 1) && AllRootsClear(Wide(), WideInodes(), 1, 1) && TextsClear(Wide(), WideInodes(), 1, 1)
  {
    hide Superblock.Valid, Chunk, BlockSize;
    forall ino, slot | ino in WideInodes() && 0 <= slot < NDADDR ensures Evacuate.SlotClear(Wide(), ino, slot, 1, 1) {
      assert ino.db[slot] == 0 || ino.db[slot] >= 2;
    }
  }

  /** The last block is not. */
  lemma WideDeep()
    ensures !(Deep(Wide(), WideDisk(), BigFile()) !! Run(1, 1))
  {
    hide WideDisk, FileExtents, Wide, ExtentRun, Run, InodeMeta, RootBlocks;
    BigExtents();
    var xs := FileExtents(Wide(), WideDisk(), BigFile());
    assert xs[12..][0] == xs[12] == Extent(1, 1);
    CoversHas(xs[12..], 0);
    PlaceRun(12);
    RunMembers(1, 1);
    assert 1 in Deep(Wide(), WideDisk(), BigFile());
  }

  lemma DiskSize()
    ensures |WideDisk()| == 16384
  {
    hide Witness.RootBlock;
  }

  lemma OneEntry(cs: Csum)
    ensures SumOf([cs]) == cs
  {
    assert [cs][1..] == [];
  }

  method WideImage() returns (img: Image)
    ensures fresh(img) && img.g == Wide() && img.groups == [WideGroup()] && img.inodes == WideInodes() && img.disk == WideDisk()
    ensures img.Valid() && Ready(img)
  {
    hide Tidy, Wide, WideGroup, WideDisk, WideInodes, CylGroup.Valid, Superblock.Valid, Superblock.Off, SumOf;
    WideGroupValid();
    WideTidy();
    WideConstants();
    WideOff(16);
    DiskSize();
    var cs := WideGroup().cs;
    OneEntry(cs);
    img := new Image(Wide(), [WideGroup()], [cs], cs, WideInodes(), WideDisk());
    assert |img.disk| == img.g.Off(img.g.fragCount);
  }

  /** The growth is refused; every file is as it was, and the totals are no longer the sum of the
      summary table. */
  method GrowsHalfWay() returns (img: Image, rc: Rc)
    ensures rc == NoSpace && img.g == Wide() && ViewsOf(img) == WideViews() && img.total != SumOf(img.csum)
  {
    hide Wide, Wider, WideDisk, WideInodes, WideGroup, Sound, Views, FreeSet, Tidy, AllDirectClear, AllRootsClear, TextsClear, Deep, FsckClean.Whole,
      Resized, SumOf, CylGroup.Valid, Superblock.Valid, Superblock.GroupFrags, Superblock.Upper, HalfGrown, Carried, SameInodes, SameFiles, Run, WideViews, BigFile, Grow.Grown, Grow.Roomy, Grow.MetadataEndsInside, Grow.TargetFits;
    WideFacts();
    TargetFitted();
    WideConstants();
    WiderConstants();
    WideLive();
    WideSound();
    WideWhole();
    WideClear();
    WideDeep();
    img := WideImage();
    assert !(Deep(img.g, img.disk, img.inodes[FILE]) !! Run(1, 1));
    ghost var groups, inodes, d;
    var e;
    e, rc, groups, inodes, d := ResizeGrow(img, Wider());
    StillHalf(groups, img.groups, img.csum, img.total);
  }

  /** What the growth is asked. */
  lemma WideFacts()
    ensures Grow.Grown(Wide(), Wider()) && Grow.Roomy(Wide()) && Grow.MetadataEndsInside(Wide()) && Wide().csumAddr == Wide().Upper(0)
  {
    hide Wide, Wider, Superblock.GroupFrags, Superblock.Upper, Superblock.Lower, Superblock.Valid, Grow.Grown;
    WideFrags();
    WideLower();
    WideConstants();
    WideGrows();
  }

  lemma TargetFitted()
    ensures Grow.TargetFits(Wide(), Wider())
  {
    hide Wide, Wider, Superblock.GroupFrags, Superblock.Upper, Superblock.Lower, Superblock.Valid;
    WideConstants();
    WiderConstants();
  }

  lemma WiderConstants()
    ensures Wider().ncg == 1 && Wider().csumAddr == 1 && Wider().csumFrags == 1 && Wider().fpg == 20
  {
  }

  lemma WideLive()
    ensures WideInodes()[FILE] == BigFile() && |WideInodes()| == 5 && forall i | 0 <= i < 5 && HasStorage(WideInodes()[i]) :: Live(WideInodes()[i])
  {
    hide Wide, Superblock.Valid;
  }

  lemma StillHalf(groups: seq<CylGroup>, groups': seq<CylGroup>, csum': seq<Csum>, total: Csum)
    requires HalfGrown(Wide(), groups, Wider(), groups', csum', total)
    ensures total != SumOf(csum')
  {
    hide Wide, Wider, Superblock.GroupFrags, Superblock.Valid, SumOf, Grow.TailGrown;
    WideFrags();
    WiderFrags();
    WideConstants();
    Grow.TailAtOdds(Wide(), Wider(), groups, groups', SummaryOf(groups), csum', total);
  }
}
