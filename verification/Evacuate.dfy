/** resize.c's evacuation pass: before the summary area grows, data in its way moves elsewhere. */
module Evacuate {
  import opened Geometry
  import opened Image
  import opened Alloc
  import opened Indirect
  import opened FileMap
  import opened Storage
  import opened Mutate
  import opened Dirs
  import FsckClaims
  import FsckClean
  import FsckRead
  import FsckWalk
  import Grow

  // ---- one data run moved ----

  lemma {:induction false} CoversSet(g: Geometry, xs: seq<Extent>, i: nat, y: Extent)
    requires i < |xs| && Apart(g, xs) && ExtentRun(y) !! Covers(xs)
    ensures Covers(xs[i := y]) == Covers(xs) - ExtentRun(xs[i]) + ExtentRun(y)
    decreases |xs|
  {
    hide Placed, ExtentRun;
    var n := |xs| - 1;
    var init := xs[..n];
    ApartPrefix(g, xs, n);
    forall k | 0 <= k < |init| ensures ExtentRun(init[k]) !! ExtentRun(xs[n]) {
      assert init[k] == xs[k];
    }
    CoversApart(init, ExtentRun(xs[n]));
    if i == n {
      assert xs[i := y][..n] == init;
    } else {
      assert xs[i := y][..n] == init[i := y];
      CoversSet(g, init, i, y);
      CoversHas(init, i);
    }
  }

  lemma ApartSet(g: Geometry, xs: seq<Extent>, i: nat, y: Extent)
    requires i < |xs| && Apart(g, xs) && Placed(g, y.at, y.n) && ExtentRun(y) !! Covers(xs)
    ensures Apart(g, xs[i := y])
  {
    hide Placed, ExtentRun, Covers;
    var ys := xs[i := y];
    forall j, k | 0 <= j < k < |ys| ensures ExtentRun(ys[j]) !! ExtentRun(ys[k]) {
      CoversHas(xs, j);
      CoversHas(xs, k);
    }
  }

  /** What lay in run x lies in run y, and x is free for it. */
  ghost predicate RunMoved(g: Geometry, d: seq<byte>, free: set<nat>, x: Extent, e: seq<byte>, free': set<nat>, y: Extent) {
    && x.n == y.n && Placed(g, y.at, y.n) && Run(y.at, y.n) <= free && free' == free - Run(y.at, y.n) + Run(x.at, x.n)
    && OnlyWrote(g, d, e, Run(y.at, y.n)) && Bytes(g, e, y.at, y.n) == Bytes(g, d, x.at, x.n)
  }

  lemma MapMoved(g: Geometry, d: seq<byte>, e: seq<byte>, ino: Inode, slot: nat, at: nat, s: set<nat>)
    requires ino.Shaped() && slot < NDADDR && InodeSeparate(g, d, ino) && OnlyWrote(g, d, e, s) && InodeMeta(g, d, ino) !! s
    ensures var out := ino.(db := ino.db[slot := at]);
            && (forall j: nat :: Ptr(g, e, out, j) == if j == slot then at else Ptr(g, d, ino, j))
            && InodeMeta(g, e, out) == InodeMeta(g, d, ino) && InodeSeparate(g, e, out)
  {
    hide Superblock.Valid, Ptr, InodeMeta, InodeSeparate, OnlyWrote, MapGrew;
    var out := ino.(db := ino.db[slot := at]);
    DirectMapped(g, d, {}, ino, slot, at);
    SameTrees(g, d, ino, out);
    GrownMap(g, d, e, ino, out, out, slot, at, s);
  }

  lemma ExtentsMoved(g: Geometry, d: seq<byte>, e: seq<byte>, ino: Inode, out: Inode, slot: nat, y: Extent)
    requires ino.Shaped() && out.Shaped() && out.size == ino.size && slot < Blocks(g, ino.size)
    requires forall j: nat :: Ptr(g, e, out, j) == if j == slot then y.at else Ptr(g, d, ino, j)
    requires y.n == FragsFor(g, slot, Chunk(g, ino.size, slot))
    ensures FileExtents(g, e, out) == FileExtents(g, d, ino)[slot := y]
  {
    hide Superblock.Valid, Ptr, Blocks, Chunk, FragsFor;
  }

  lemma SetsMoved(P: set<nat>, M: set<nat>, X: set<nat>, Y: set<nat>, F: set<nat>, F': set<nat>)
    requires P !! M && X <= P && (P + M) !! F && Y <= F && F' == F - Y + X && |X| == |Y|
    ensures (P - X + Y) !! M && (P - X + Y + M) !! F' && P - X + Y + M <= F + (P + M) && F' <= F + (P + M)
    ensures F' + (P - X + Y + M) == F + (P + M) && |P - X + Y + M| == |P + M|
  {
    var Q := P - X;
    SetParts(P, M, X, F);
    GrownSets(Q, M, X, Y, F);
    Exchanged(X, Y, F);
  }

  lemma SetParts(P: set<nat>, M: set<nat>, X: set<nat>, F: set<nat>)
    requires P !! M && X <= P && (P + M) !! F
    ensures var Q := P - X; Q + X == P && Q !! M && Q !! X && Q !! F && M !! X && M !! F && X !! F
  {
  }

  lemma Exchanged(X: set<nat>, Y: set<nat>, F: set<nat>)
    requires X !! F && Y <= F
    ensures F + X - Y == F - Y + X
  {
  }

  /** The file's layout after the move. */
  lemma LayoutMoved(g: Geometry, d: seq<byte>, free: set<nat>, ino: Inode, e: seq<byte>, free': set<nat>, slot: nat, x: Extent, y: Extent)
    requires FileOk(g, d, ino) && Owned(g, d, ino) !! free && slot < NDADDR && slot < Blocks(g, ino.size)
    requires x == Extent(ino.db[slot], FragsFor(g, slot, Chunk(g, ino.size, slot))) && x.at != 0
    requires RunMoved(g, d, free, x, e, free', y)
    ensures var out := ino.(db := ino.db[slot := y.at]);
            && FileOk(g, e, out) && Owned(g, e, out) !! free' && |Owned(g, e, out)| == |Owned(g, d, ino)|
            && Owned(g, e, out) <= free + Owned(g, d, ino) && free' <= free + Owned(g, d, ino)
            && free' + Owned(g, e, out) == free + Owned(g, d, ino)
            && (forall j: nat :: Ptr(g, e, out, j) == if j == slot then y.at else Ptr(g, d, ino, j))
    ensures FileExtents(g, d, ino)[slot] == x && InodeMeta(g, d, ino) !! Run(y.at, y.n) && Covers(FileExtents(g, d, ino)) !! Run(y.at, y.n)
  {
    hide Superblock.Valid, Ptr, Blocks, Chunk, FragsFor, Placed, InodeMeta, InodeSeparate, Covers, Bytes, OnlyWrote, Apart, Run;
    var xs, out := FileExtents(g, d, ino), ino.(db := ino.db[slot := y.at]);
    DirectPtr(g, d, ino, slot);
    PlacedNonZero(g, y.at, y.n);
    CoversHas(xs, slot);
    MapMoved(g, d, e, ino, slot, y.at, Run(y.at, y.n));
    ExtentsMoved(g, d, e, ino, out, slot, y);
    CoversSet(g, xs, slot, y);
    ApartSet(g, xs, slot, y);
    RunSize(x.at, x.n);
    RunSize(y.at, y.n);
    SetsMoved(Covers(xs), InodeMeta(g, d, ino), Run(x.at, x.n), Run(y.at, y.n), free, free');
  }

  /** The file's bytes after the move. */
  lemma BytesMoved(g: Geometry, d: seq<byte>, free: set<nat>, ino: Inode, e: seq<byte>, free': set<nat>, slot: nat, x: Extent, y: Extent)
    requires FileOk(g, d, ino) && Owned(g, d, ino) !! free && slot < NDADDR && slot < Blocks(g, ino.size) && |d| == g.Off(g.fragCount)
    requires x == Extent(ino.db[slot], FragsFor(g, slot, Chunk(g, ino.size, slot))) && x.at != 0
    requires RunMoved(g, d, free, x, e, free', y)
    ensures FileBytes(g, e, ino.(db := ino.db[slot := y.at])) == FileBytes(g, d, ino)
  {
    hide Superblock.Valid, Ptr, Blocks, Chunk, FragsFor, Placed, InodeMeta, InodeSeparate, Covers, Bytes, OnlyWrote, Apart, Run, BlockByte,
      Start, BlockSize, Owned, RunMoved;
    var out := ino.(db := ino.db[slot := y.at]);
    LayoutMoved(g, d, free, ino, e, free', slot, x, y);
    forall p | 0 <= p < ino.size ensures FileBytes(g, e, out)[p] == FileBytes(g, d, ino)[p] {
      ByteMoved(g, d, free, ino, e, free', slot, x, y, p);
    }
  }

  lemma ByteMoved(g: Geometry, d: seq<byte>, free: set<nat>, ino: Inode, e: seq<byte>, free': set<nat>, slot: nat, x: Extent, y: Extent, p: nat)
    requires FileOk(g, d, ino) && slot < NDADDR && slot < Blocks(g, ino.size) && |d| == g.Off(g.fragCount) && p < ino.size
    requires x == Extent(ino.db[slot], FragsFor(g, slot, Chunk(g, ino.size, slot))) && x.at != 0 && FileExtents(g, d, ino)[slot] == x
    requires RunMoved(g, d, free, x, e, free', y) && Covers(FileExtents(g, d, ino)) !! Run(y.at, y.n)
    requires forall j: nat :: Ptr(g, e, ino.(db := ino.db[slot := y.at]), j) == if j == slot then y.at else Ptr(g, d, ino, j)
    ensures FileBytes(g, e, ino.(db := ino.db[slot := y.at]))[p] == FileBytes(g, d, ino)[p]
  {
    hide Superblock.Valid, Superblock.Off, Ptr, Blocks, FragsFor, Placed, InodeMeta, InodeSeparate, Covers, Bytes, OnlyWrote, Apart, Run, BlockByte,
      Start, BlockSize;
    var lb := LbOf(g, p);
    var o := p - Start(g, lb);
    BlocksIs(g, ino.size, lb);
    if lb == slot {
      DirectPtr(g, d, ino, slot);
      ExtentPlaced(g, d, ino, slot);
      PlacedNonZero(g, y.at, y.n);
      FragsForBounds(g, slot, Chunk(g, ino.size, slot));
      OnlyWroteSize(g, d, e, Run(y.at, y.n));
      BytesFit(g, d, x.at, x.n);
      BytesFit(g, e, y.at, y.n);
      BlockByteIs(g, d, x.at, x.n, o);
      BlockByteIs(g, e, y.at, y.n, o);
    } else {
      CoversHas(FileExtents(g, d, ino), lb);
      ByteFrame(g, d, e, ino, Run(y.at, y.n), lb, o);
    }
  }

  /** Over the whole table: every file keeps its bytes and every fragment its one owner. */
  lemma TableMoved(g: Geometry, groups: seq<CylGroup>, inodes: seq<Inode>, d: seq<byte>, groups': seq<CylGroup>, e: seq<byte>,
                   i: nat, slot: nat, x: Extent, y: Extent)
    requires Sound(g, groups, inodes, d) && i < |inodes| && |d| == g.Off(g.fragCount) && SameInodes(groups, groups')
    requires HasStorage(inodes[i]) && inodes[i].Shaped() && slot < NDADDR && slot < Blocks(g, inodes[i].size)
    requires x == Extent(inodes[i].db[slot], FragsFor(g, slot, Chunk(g, inodes[i].size, slot))) && x.at != 0
    requires RunMoved(g, d, FreeSet(g, groups), x, e, FreeSet(g, groups'), y)
    ensures var after := inodes[i := inodes[i].(db := inodes[i].db[slot := y.at])];
            && Sound(g, groups', after, e) && Views(g, e, after) == Views(g, d, inodes)
            && Carried(g, groups, inodes, d, groups', after, e)
  {
    hide Superblock.Valid, FileOk, Owned, TooLong, OnlyWrote, FreeSet, FileBytes, InUse, SameInodes, Sound, CountsOwned, Run, Ptr, Covers,
      Blocks, Chunk, FragsFor, Carried, Kept, Placed, Bytes;
    var ino, free, free' := inodes[i], FreeSet(g, groups), FreeSet(g, groups');
    var out := ino.(db := ino.db[slot := y.at]);
    SoundAt(g, groups, inodes, d, i);
    InUseKept(g, groups, groups');
    LayoutMoved(g, d, free, ino, e, free', slot, x, y);
    BytesMoved(g, d, free, ino, e, free', slot, x, y);
    SameCounts(g, d, ino, e, out);
    Replaced(g, groups, inodes, d, groups', e, i, out, Run(y.at, y.n));
    PlacedNonZero(g, y.at, y.n);
    if Kept(g, d, ino) {
      KeptMoved(g, d, ino, e, slot, y.at, Run(y.at, y.n));
    }
    ReplacedCarries(g, groups, inodes, d, groups', e, i, out, Run(y.at, y.n));
    ViewsAt(g, d, inodes);
    assert Views(g, d, inodes)[i := ViewOf(g, e, out)] == Views(g, d, inodes);
  }

  /** The inode's own indirect blocks. */
  ghost function RootBlocks(g: Geometry, ino: Inode): set<nat>
    requires ino.Shaped()
  {
    ExtentRun(Extent(ino.ib[0], g.fpb)) + ExtentRun(Extent(ino.ib[1], g.fpb)) + ExtentRun(Extent(ino.ib[2], g.fpb))
  }

  /** Fragments found through an indirect block: the data past the direct blocks, and the indirect
      blocks an indirect block names. */
  ghost function Deep(g: Geometry, d: seq<byte>, ino: Inode): set<nat> {
    if ino.Shaped() && HasStorage(ino) then
      var xs := FileExtents(g, d, ino);
      Covers(xs[Min(NDADDR, |xs|)..]) + (InodeMeta(g, d, ino) - RootBlocks(g, ino))
    else {}
  }

  /** The same fragments are found through indirect blocks. */
  ghost predicate SameDeep(g: Geometry, was: seq<Inode>, d: seq<byte>, now: seq<Inode>, e: seq<byte>) {
    |now| == |was| && forall i | 0 <= i < |was| :: Deep(g, e, now[i]) == Deep(g, d, was[i])
  }

  lemma DeepTwice(g: Geometry, a: seq<Inode>, d: seq<byte>, b: seq<Inode>, e: seq<byte>, c: seq<Inode>, f: seq<byte>)
    requires SameDeep(g, a, d, b, e) && SameDeep(g, b, e, c, f)
    ensures SameDeep(g, a, d, c, f)
  {
    hide Deep;
  }

  lemma DeepItself(g: Geometry, inodes: seq<Inode>, d: seq<byte>)
    ensures SameDeep(g, inodes, d, inodes, d)
  {
    hide Deep;
  }

  /** A direct run that moves changes none of them. */
  lemma DeepMoved(g: Geometry, groups: seq<CylGroup>, inodes: seq<Inode>, d: seq<byte>, groups': seq<CylGroup>, e: seq<byte>,
                  i: nat, slot: nat, x: Extent, y: Extent)
    requires Sound(g, groups, inodes, d) && i < |inodes| && |d| == g.Off(g.fragCount)
    requires HasStorage(inodes[i]) && inodes[i].Shaped() && slot < NDADDR && slot < Blocks(g, inodes[i].size)
    requires x == Extent(inodes[i].db[slot], FragsFor(g, slot, Chunk(g, inodes[i].size, slot))) && x.at != 0
    requires RunMoved(g, d, FreeSet(g, groups), x, e, FreeSet(g, groups'), y)
    ensures SameDeep(g, inodes, d, inodes[i := inodes[i].(db := inodes[i].db[slot := y.at])], e)
  {
    hide Superblock.Valid, FileOk, Owned, TooLong, OnlyWrote, FreeSet, FileBytes, InUse, Sound, CountsOwned, Run, Ptr, Covers, Blocks, Chunk,
      FragsFor, Placed, Bytes, Deep;
    var after := inodes[i := inodes[i].(db := inodes[i].db[slot := y.at])];
    PlacedNonZero(g, y.at, y.n);
    forall k: nat | k < |inodes| ensures Deep(g, e, after[k]) == Deep(g, d, inodes[k]) {
      SoundAt(g, groups, inodes, d, k);
      if k == i {
        DeepOfMoved(g, d, FreeSet(g, groups), inodes[i], e, FreeSet(g, groups'), slot, x, y);
      } else if HasStorage(inodes[k]) {
        DeepFrame(g, d, e, inodes[k], Run(y.at, y.n));
      } else {
        NothingDeep(g, d, inodes[k]);
        NothingDeep(g, e, inodes[k]);
      }
    }
  }

  lemma DeepOfMoved(g: Geometry, d: seq<byte>, free: set<nat>, ino: Inode, e: seq<byte>, free': set<nat>, slot: nat, x: Extent, y: Extent)
    requires FileOk(g, d, ino) && Owned(g, d, ino) !! free && slot < NDADDR && slot < Blocks(g, ino.size)
    requires x == Extent(ino.db[slot], FragsFor(g, slot, Chunk(g, ino.size, slot))) && x.at != 0
    requires RunMoved(g, d, free, x, e, free', y)
    ensures Deep(g, e, ino.(db := ino.db[slot := y.at])) == Deep(g, d, ino)
  {
    hide Superblock.Valid, Ptr, Blocks, Chunk, FragsFor, Placed, InodeMeta, InodeSeparate, Covers, Bytes, OnlyWrote, Apart, Run, Owned, RunMoved;
    var out := ino.(db := ino.db[slot := y.at]);
    LayoutMoved(g, d, free, ino, e, free', slot, x, y);
    assert InodeMeta(g, e, out) == InodeMeta(g, d, ino) by { MetaOfMoved(g, d, free, ino, e, free', slot, x, y); }
    var xs, ys := FileExtents(g, d, ino), FileExtents(g, e, out);
    assert ys == xs[slot := y] by { ExtentsMoved(g, d, e, ino, out, slot, Extent(y.at, x.n)); SameLength(g, d, free, x, e, free', y); }
    var k := Min(NDADDR, |xs|);
    assert ys[k..] == xs[k..];
    assert RootBlocks(g, out) == RootBlocks(g, ino);
  }

  lemma SameLength(g: Geometry, d: seq<byte>, free: set<nat>, x: Extent, e: seq<byte>, free': set<nat>, y: Extent)
    requires RunMoved(g, d, free, x, e, free', y)
    ensures y == Extent(y.at, x.n) && OnlyWrote(g, d, e, Run(y.at, y.n))
  {
  }

  lemma MetaOfMoved(g: Geometry, d: seq<byte>, free: set<nat>, ino: Inode, e: seq<byte>, free': set<nat>, slot: nat, x: Extent, y: Extent)
    requires FileOk(g, d, ino) && slot < NDADDR && RunMoved(g, d, free, x, e, free', y) && InodeMeta(g, d, ino) !! Run(y.at, y.n)
    ensures InodeMeta(g, e, ino.(db := ino.db[slot := y.at])) == InodeMeta(g, d, ino)
  {
    hide Superblock.Valid, Ptr, InodeMeta, InodeSeparate, OnlyWrote, Run;
    SameLength(g, d, free, x, e, free', y);
    MapMoved(g, d, e, ino, slot, y.at, Run(y.at, y.n));
  }

  lemma DeepFrame(g: Geometry, d: seq<byte>, e: seq<byte>, ino: Inode, s: set<nat>)
    requires FileOk(g, d, ino) && OnlyWrote(g, d, e, s) && Owned(g, d, ino) !! s
    ensures Deep(g, e, ino) == Deep(g, d, ino)
  {
    hide Superblock.Valid, InodeSeparate, InodeMeta, Ptr, Covers, Blocks, Chunk, FragsFor, OnlyWrote, Placed, RootBlocks;
    MapFrame(g, d, e, ino, s);
    assert FileExtents(g, e, ino) == FileExtents(g, d, ino);
  }

  lemma NothingDeep(g: Geometry, d: seq<byte>, ino: Inode)
    requires !HasStorage(ino)
    ensures OwnedBy(g, d, ino) == {} && Deep(g, d, ino) == {}
  {
  }

  lemma SameCounts(g: Geometry, d: seq<byte>, a: Inode, e: seq<byte>, b: Inode)
    requires a.Shaped() && b.Shaped() && b.blocks == a.blocks && |Owned(g, e, b)| == |Owned(g, d, a)| && CountsOwned(g, d, a)
    ensures CountsOwned(g, e, b)
  {
    hide Owned;
  }

  lemma KeptMoved(g: Geometry, d: seq<byte>, ino: Inode, e: seq<byte>, slot: nat, at: nat, s: set<nat>)
    requires ino.Shaped() && HasStorage(ino) && Kept(g, d, ino) && slot < NDADDR && slot < Blocks(g, ino.size) && at != 0
    requires OnlyWrote(g, d, e, s) && InodeMeta(g, d, ino) !! s
    ensures Kept(g, e, ino.(db := ino.db[slot := at]))
  {
    hide Superblock.Valid, InodeMeta, Blocks, OnlyWrote, Snug;
    var out := ino.(db := ino.db[slot := at]);
    SnugAgain(g, d, ino, slot, at, Blocks(g, ino.size));
    SameTrees(g, d, ino, out);
    SnugFrame(g, d, e, out, s, Blocks(g, ino.size));
  }

  // ---- the pass ----

  predicate Overlap(a: nat, n: nat, b: nat, m: nat) {
    a < b + m && b < a + n
  }

  /** inode_direct_frags. */
  function DirectFrags(g: Geometry, ino: Inode, slot: nat): nat {
    FragsFor(g, slot, Chunk(g, ino.size, slot))
  }

  /** Direct pointer slot has no data in the range. */
  predicate SlotClear(g: Geometry, ino: Inode, slot: nat, start: nat, n: nat)
    requires ino.Shaped() && slot < NDADDR
  {
    ino.db[slot] == 0 || DirectFrags(g, ino, slot) == 0 || !Overlap(ino.db[slot], DirectFrags(g, ino, slot), start, n)
  }

  ghost predicate DirectClear(g: Geometry, ino: Inode, start: nat, n: nat) {
    ino.Shaped() && forall slot | 0 <= slot < NDADDR :: SlotClear(g, ino, slot, start, n)
  }

  ghost predicate RootsClear(g: Geometry, ino: Inode, start: nat, n: nat) {
    ino.Shaped() && forall s | 0 <= s < NIADDR :: ino.ib[s] == 0 || !Overlap(ino.ib[s], g.fpb, start, n)
  }

  predicate Live(ino: Inode) {
    ino.kind != Unused && ino.nlink > 0
  }

  ghost predicate AllDirectClear(g: Geometry, inodes: seq<Inode>, start: nat, n: nat) {
    forall i | 0 <= i < |inodes| && Live(inodes[i]) :: DirectClear(g, inodes[i], start, n)
  }

  ghost predicate AllRootsClear(g: Geometry, inodes: seq<Inode>, start: nat, n: nat) {
    forall i | 0 <= i < |inodes| && Live(inodes[i]) :: RootsClear(g, inodes[i], start, n)
  }

  /** Pointer fields that hold text or a device number do not look like data in the range. */
  ghost predicate TextsClear(g: Geometry, inodes: seq<Inode>, start: nat, n: nat) {
    forall i | 0 <= i < |inodes| && !HasStorage(inodes[i]) :: DirectClear(g, inodes[i], start, n)
  }

  /** move_direct_fragment_run: one direct run out of the range, if it lies there. */
  method MoveDirectRun(img: Image, i: nat, slot: nat, start: nat, n: nat) returns (rc: Rc, moved: bool)
    requires img.Valid() && Sound(img.g, img.groups, img.inodes, img.disk) && i < |img.inodes| && slot < NDADDR
    requires img.inodes[i].Shaped()
    requires !HasStorage(img.inodes[i]) ==> SlotClear(img.g, img.inodes[i], slot, start, n)
    modifies img`groups, img`csum, img`total, img`disk, img`inodes
    ensures img.Valid() && Sound(img.g, img.groups, img.inodes, img.disk) && SameInodes(old(img.groups), img.groups)
    ensures Views(img.g, img.disk, img.inodes) == old(Views(img.g, img.disk, img.inodes))
    ensures Carried(img.g, old(img.groups), old(img.inodes), old(img.disk), img.groups, img.inodes, img.disk)
    ensures SameDeep(img.g, old(img.inodes), old(img.disk), img.inodes, img.disk)
    ensures rc == Ok ==> (moved <==> !old(SlotClear(img.g, img.inodes[i], slot, start, n)))
    ensures rc != Ok ==> rc == NoSpace && !moved && !old(SlotClear(img.g, img.inodes[i], slot, start, n))
    ensures if moved then img.inodes == old(img.inodes)[i := img.inodes[i]] && SlotClear(img.g, img.inodes[i], slot, start, n)
                          && img.inodes[i] == old(img.inodes)[i].(db := old(img.inodes)[i].db[slot := img.inodes[i].db[slot]])
            else img.inodes == old(img.inodes) && img.disk == old(img.disk) && (rc == Ok ==> img.groups == old(img.groups))
  {
    hide Superblock.Valid, Superblock.Off, CylGroup.Valid, FreeSet, Bytes, FragsFor, Chunk, Placed, Run, FileOk, Owned, GroupFits, Allotted,
      OnlyWrote, SameInodes, Sound, Views, Carried, SumOf, TooLong, CountsOwned, Blocks, SameDeep;
    SameInodesRefl(img.groups);
    CarriedNothing(img.g, img.groups, img.inodes, img.disk);
    DeepItself(img.g, img.inodes, img.disk);
    ghost var groups, inodes, d := img.groups, img.inodes, img.disk;
    var ino := img.inodes[i];
    var old_, frags := ino.db[slot], DirectFrags(img.g, ino, slot);
    if frags == 0 || old_ == 0 || !Overlap(old_, frags, start, n) {
      return Ok, false;
    }
    OldPlace(img.g, groups, inodes, d, i, slot);
    var buf := Bytes(img.g, img.disk, old_, frags);
    var preferred := old_ / img.g.fpg;
    if img.g.ncg > 1 {
      preferred := (preferred + 1) % img.g.ncg;
    }
    var new_;
    ghost var c, block;
    rc, new_, c, block := AllocateFragsAnyCg(img, preferred, frags);
    if rc != Ok {
      return rc, false;
    }
    ghost var taken := img.groups;
    if Overlap(new_, frags, start, n) {
      rc := FreeFragmentRun(img, new_, frags);
      GivenBack(img.g, groups, inodes, d, taken, img.groups);
      return NoSpace, false;
    }
    PlacedNonZero(img.g, new_, frags);
    BytesFit(img.g, img.disk, new_, frags);
    img.WriteExact(new_, frags, 0, buf);
    img.inodes := img.inodes[i := ino.(db := ino.db[slot := new_])];
    rc := FreeFragmentRun(img, old_, frags);
    SameInodesTrans(groups, taken, img.groups);
    TableMoved(img.g, groups, inodes, d, img.groups, img.disk, i, slot, Extent(old_, frags), Extent(new_, frags));
    DeepMoved(img.g, groups, inodes, d, img.groups, img.disk, i, slot, Extent(old_, frags), Extent(new_, frags));
    moved := true;
  }

  /** Where a file's direct data lies. */
  lemma OldPlace(g: Geometry, groups: seq<CylGroup>, inodes: seq<Inode>, d: seq<byte>, i: nat, slot: nat)
    requires Sound(g, groups, inodes, d) && i < |inodes| && HasStorage(inodes[i]) && inodes[i].Shaped() && slot < NDADDR
    requires |d| == g.Off(g.fragCount) && inodes[i].db[slot] != 0 && DirectFrags(g, inodes[i], slot) != 0
    ensures var at, n := inodes[i].db[slot], DirectFrags(g, inodes[i], slot);
            && slot < Blocks(g, inodes[i].size) && Placed(g, at, n) && n <= g.fpb && Run(at, n) !! FreeSet(g, groups)
            && |Bytes(g, d, at, n)| == g.Off(n) && at + n <= g.fragCount
  {
    hide Superblock.Valid, Superblock.Off, FreeSet, Bytes, Placed, Run, CountsOwned, TooLong, Sound, Covers, Ptr, InodeMeta, InodeSeparate, Blocks;
    var ino := inodes[i];
    SoundAt(g, groups, inodes, d, i);
    NoChunkNoFrags(g, ino.size, slot);
    DirectPtr(g, d, ino, slot);
    var xs := FileExtents(g, d, ino);
    ExtentPlaced(g, d, ino, slot);
    CoversHas(xs, slot);
    BytesFit(g, d, xs[slot].at, xs[slot].n);
  }

  lemma NoChunkNoFrags(g: Geometry, size: nat, slot: nat)
    requires slot < NDADDR
    ensures FragsFor(g, slot, Chunk(g, size, slot)) != 0 ==> slot < Blocks(g, size) && FragsFor(g, slot, Chunk(g, size, slot)) <= g.fpb
  {
    hide Superblock.Valid, Superblock.Off, Blocks, Start, BlockSize;
    BlocksIs(g, size, slot);
    CeilDiv(0, g.fragSize, 0);
    if Chunk(g, size, slot) > 0 {
      FragsForBounds(g, slot, Chunk(g, size, slot));
    }
  }

  /** A run taken and given back leaves everything as it was. */
  lemma GivenBack(g: Geometry, groups: seq<CylGroup>, inodes: seq<Inode>, d: seq<byte>, mid: seq<CylGroup>, now: seq<CylGroup>)
    requires Sound(g, groups, inodes, d) && SameInodes(groups, mid) && SameInodes(mid, now) && FreeSet(g, now) == FreeSet(g, groups)
    ensures Sound(g, now, inodes, d) && SameInodes(groups, now) && Carried(g, groups, inodes, d, now, inodes, d)
  {
    hide Superblock.Valid, FreeSet, Sound, InUse, SameInodes, Carried;
    SameInodesTrans(groups, mid, now);
    InUseKept(g, groups, now);
    StillSound(g, groups, inodes, d, now);
    CarriedFree(g, groups, inodes, d, now);
  }

  /** The three roots of one inode against the range. */
  method CheckRoots(img: Image, i: nat, start: nat, n: nat) returns (clear: bool)
    requires i < |img.inodes| && img.inodes[i].Shaped()
    ensures clear <==> RootsClear(img.g, img.inodes[i], start, n)
  {
    var ino := img.inodes[i];
    for s := 0 to NIADDR
      invariant forall k | 0 <= k < s :: ino.ib[k] == 0 || !Overlap(ino.ib[k], img.g.fpb, start, n)
    {
      if ino.ib[s] != 0 && Overlap(ino.ib[s], img.g.fpb, start, n) {
        return false;
      }
    }
    return true;
  }

  /** The twelve direct runs of one inode out of the range. */
  method MoveDirectRuns(img: Image, i: nat, start: nat, n: nat) returns (rc: Rc, moves: nat)
    requires img.Valid() && Sound(img.g, img.groups, img.inodes, img.disk) && i < |img.inodes| && img.inodes[i].Shaped()
    requires !HasStorage(img.inodes[i]) ==> DirectClear(img.g, img.inodes[i], start, n)
    modifies img`groups, img`csum, img`total, img`disk, img`inodes
    ensures img.Valid() && Sound(img.g, img.groups, img.inodes, img.disk) && SameInodes(old(img.groups), img.groups)
    ensures Views(img.g, img.disk, img.inodes) == old(Views(img.g, img.disk, img.inodes))
    ensures Carried(img.g, old(img.groups), old(img.inodes), old(img.disk), img.groups, img.inodes, img.disk)
    ensures SameDeep(img.g, old(img.inodes), old(img.disk), img.inodes, img.disk)
    ensures PointersOnly(old(img.inodes), img.inodes, i)
    ensures rc == Ok || rc == NoSpace
    ensures rc == Ok ==> DirectClear(img.g, img.inodes[i], start, n)
    ensures rc == Ok && moves == 0 ==> img.inodes == old(img.inodes) && img.disk == old(img.disk) && img.groups == old(img.groups)
    ensures rc != Ok || moves != 0 ==> !old(DirectClear(img.g, img.inodes[i], start, n))
  {
    hide Superblock.Valid, CylGroup.Valid, FreeSet, SameInodes, Sound, Views, Carried, SlotClear, SameDeep;
    SameInodesRefl(img.groups);
    CarriedNothing(img.g, img.groups, img.inodes, img.disk);
    DeepItself(img.g, img.inodes, img.disk);
    ghost var groups, inodes, d := img.groups, img.inodes, img.disk;
    rc, moves := Ok, 0;
    for slot := 0 to NDADDR
      invariant rc == Ok && img.Valid() && Sound(img.g, img.groups, img.inodes, img.disk) && SameInodes(groups, img.groups)
      invariant Views(img.g, img.disk, img.inodes) == Views(img.g, d, inodes)
      invariant Carried(img.g, groups, inodes, d, img.groups, img.inodes, img.disk)
      invariant SameDeep(img.g, inodes, d, img.inodes, img.disk)
      invariant PointersOnly(inodes, img.inodes, i)
      invariant forall k | 0 <= k < slot :: SlotClear(img.g, img.inodes[i], k, start, n)
      invariant forall k | slot <= k < NDADDR :: img.inodes[i].db[k] == inodes[i].db[k]
      invariant moves == 0 ==> img.inodes == inodes && img.disk == d && img.groups == groups
      invariant moves != 0 ==> !DirectClear(img.g, inodes[i], start, n)
    {
      ghost var groups1, inodes1, d1 := img.groups, img.inodes, img.disk;
      SlotByPointer(img.g, inodes[i], img.inodes[i], slot, start, n);
      var moved;
      rc, moved := MoveDirectRun(img, i, slot, start, n);
      SameInodesTrans(groups, groups1, img.groups);
      CarriedTwice(img.g, groups, inodes, d, groups1, inodes1, d1, img.groups, img.inodes, img.disk);
      DeepTwice(img.g, inodes, d, inodes1, d1, img.inodes, img.disk);
      if rc != Ok {
        return;
      }
      OthersStay(img.g, inodes1[i], img.inodes[i], slot, start, n);
      if moved {
        moves := moves + 1;
      }
    }
  }

  /** Only the direct pointers of inode i changed. */
  ghost predicate PointersOnly(was: seq<Inode>, now: seq<Inode>, i: nat) {
    && i < |was| == |now| && now == was[i := now[i]] && was[i].Shaped() && now[i].Shaped() && now[i] == was[i].(db := now[i].db)
  }

  /** Whether a slot is clear depends on its pointer and the file's size. */
  lemma SlotByPointer(g: Geometry, a: Inode, b: Inode, slot: nat, start: nat, n: nat)
    requires a.Shaped() && b.Shaped() && a.size == b.size && slot < NDADDR && a.db[slot] == b.db[slot]
    ensures SlotClear(g, a, slot, start, n) <==> SlotClear(g, b, slot, start, n)
  {
  }

  lemma OthersStay(g: Geometry, a: Inode, b: Inode, slot: nat, start: nat, n: nat)
    requires a.Shaped() && b.Shaped() && a.size == b.size && slot < NDADDR
    requires forall k | 0 <= k < NDADDR && k != slot :: a.db[k] == b.db[k]
    ensures forall k | 0 <= k < slot :: SlotClear(g, a, k, start, n) <==> SlotClear(g, b, k, start, n)
  {
    hide SlotClear;
    forall k: nat | k < slot ensures SlotClear(g, a, k, start, n) <==> SlotClear(g, b, k, start, n) {
      SlotByPointer(g, a, b, k, start, n);
    }
  }

  datatype Evacuation = Cleared(moves: nat) | OutOfSpace | Unsupported

  /** How the pass ends for a range of n fragments. */
  ghost predicate EvacuatedRange(g: Geometry, was: seq<Inode>, now: seq<Inode>, start: nat, n: nat, r: Evacuation) {
    match r
    case Cleared(moves) =>
      start + n <= g.fpg && AllDirectClear(g, now, start, n) && AllRootsClear(g, now, start, n) && AllRootsClear(g, was, start, n)
      && TextsClear(g, now, start, n)
      && (moves == 0 <==> AllDirectClear(g, was, start, n))
    case Unsupported => start + n > g.fpg || !AllRootsClear(g, was, start, n)
    case OutOfSpace => !AllDirectClear(g, was, start, n)
  }

  /** Only the pointers of live inodes may differ. */
  ghost predicate SameFiles(was: seq<Inode>, now: seq<Inode>) {
    |now| == |was| && forall k | 0 <= k < |was| :: now[k] == was[k].(db := now[k].db) && (!Live(was[k]) ==> now[k] == was[k])
  }

  /** The pass has come to inode i: the later ones are as they were, the earlier ones clear. */
  ghost predicate Passed(g: Geometry, was: seq<Inode>, now: seq<Inode>, i: nat, start: nat, n: nat, moves: nat) {
    && i <= |was| == |now| && (forall k | i <= k < |now| :: now[k] == was[k]) && SameFiles(was, now)
    && (forall k | 0 <= k < i && Live(now[k]) ::
          DirectClear(g, now[k], start, n) && RootsClear(g, now[k], start, n) && RootsClear(g, was[k], start, n))
    && (moves > 0 ==> !AllDirectClear(g, was, start, n)) && (moves == 0 ==> now == was)
  }

  lemma PassedOne(g: Geometry, was: seq<Inode>, mid: seq<Inode>, now: seq<Inode>, i: nat, start: nat, n: nat, moves: nat, more: nat)
    requires Passed(g, was, mid, i, start, n, moves) && PointersOnly(mid, now, i) && (more == 0 || !Live(mid[i]) ==> now == mid)
    requires more > 0 ==> Live(mid[i]) && !DirectClear(g, mid[i], start, n)
    requires i < |now| && Live(now[i]) ==> DirectClear(g, now[i], start, n) && RootsClear(g, now[i], start, n)
    ensures Passed(g, was, now, i + 1, start, n, moves + more)
  {
    hide DirectClear, RootsClear;
    SameRoots(g, mid[i], now[i], start, n);
  }

  lemma TooWide(g: Geometry, inodes: seq<Inode>, start: nat, n: nat)
    requires start + n > g.fpg
    ensures EvacuatedRange(g, inodes, inodes, start, n, Unsupported) && SameFiles(inodes, inodes)
  {
  }

  lemma PointersSame(inodes: seq<Inode>, i: nat)
    requires i < |inodes| && inodes[i].Shaped()
    ensures PointersOnly(inodes, inodes, i)
  {
  }

  lemma PassedAll(g: Geometry, was: seq<Inode>, now: seq<Inode>, start: nat, n: nat, moves: nat)
    requires Passed(g, was, now, |was|, start, n, moves) && start + n <= g.fpg && TextsClear(g, was, start, n)
    ensures EvacuatedRange(g, was, now, start, n, Cleared(moves)) && SameFiles(was, now)
  {
    hide DirectClear, RootsClear;
  }

  lemma StoppedAt(g: Geometry, was: seq<Inode>, mid: seq<Inode>, now: seq<Inode>, i: nat, start: nat, n: nat, moves: nat, r: Evacuation)
    requires Passed(g, was, mid, i, start, n, moves) && PointersOnly(mid, now, i) && Live(mid[i]) && !r.Cleared?
    requires if r.Unsupported? then !RootsClear(g, mid[i], start, n) else !DirectClear(g, mid[i], start, n)
    ensures EvacuatedRange(g, was, now, start, n, r) && SameFiles(was, now)
  {
    hide DirectClear, RootsClear;
  }

  /** One round of the pass's loop. */
  method EvacuateInode(img: Image, i: nat, start: nat, n: nat) returns (r: Evacuation)
    requires img.Valid() && Sound(img.g, img.groups, img.inodes, img.disk) && i < |img.inodes|
    requires !HasStorage(img.inodes[i]) ==> DirectClear(img.g, img.inodes[i], start, n)
    modifies img`groups, img`csum, img`total, img`disk, img`inodes
    ensures img.Valid() && Sound(img.g, img.groups, img.inodes, img.disk) && SameInodes(old(img.groups), img.groups)
    ensures Views(img.g, img.disk, img.inodes) == old(Views(img.g, img.disk, img.inodes))
    ensures Carried(img.g, old(img.groups), old(img.inodes), old(img.disk), img.groups, img.inodes, img.disk)
    ensures SameDeep(img.g, old(img.inodes), old(img.disk), img.inodes, img.disk)
    ensures PointersOnly(old(img.inodes), img.inodes, i)
    ensures r.Cleared? && Live(img.inodes[i]) ==> DirectClear(img.g, img.inodes[i], start, n) && RootsClear(img.g, img.inodes[i], start, n)
    ensures r == Cleared(0) ==> img.inodes == old(img.inodes) && img.disk == old(img.disk) && img.groups == old(img.groups)
    ensures r.Unsupported? ==> Live(old(img.inodes)[i]) && !RootsClear(img.g, old(img.inodes)[i], start, n)
    ensures r.OutOfSpace? || (r.Cleared? && r.moves > 0) ==> Live(old(img.inodes)[i]) && !DirectClear(img.g, old(img.inodes)[i], start, n)
  {
    hide Superblock.Valid, CylGroup.Valid, FreeSet, SameInodes, Sound, Views, Carried, DirectClear, RootsClear, PointersOnly, OwnedBy, FileOk, TooLong,
      CountsOwned, HasStorage, SameDeep;
    SameInodesRefl(img.groups);
    CarriedNothing(img.g, img.groups, img.inodes, img.disk);
    DeepItself(img.g, img.inodes, img.disk);
    SoundAt(img.g, img.groups, img.inodes, img.disk, i);
    PointersSame(img.inodes, i);
    ghost var was := img.inodes;
    if !Live(img.inodes[i]) {
      return Cleared(0);
    }
    var clear := CheckRoots(img, i, start, n);
    if !clear {
      return Unsupported;
    }
    var rc, moves := MoveDirectRuns(img, i, start, n);
    StillRooted(img.g, was, img.inodes, i, start, n);
    r := if rc == Ok then Cleared(moves) else OutOfSpace;
  }

  /** evacuate_summary_extension_range. Every file keeps its bytes and every fragment its one owner,
      however the pass ends; if it ends well, no live inode has direct data or an indirect root in the
      way. */
  method EvacuateSummaryRange(img: Image, csumFrags: nat) returns (r: Evacuation)
    requires img.Valid() && Sound(img.g, img.groups, img.inodes, img.disk)
    requires csumFrags > img.g.csumFrags ==>
               TextsClear(img.g, img.inodes, img.g.csumAddr + img.g.csumFrags, csumFrags - img.g.csumFrags)
    modifies img`groups, img`csum, img`total, img`disk, img`inodes
    ensures img.Valid() && Sound(img.g, img.groups, img.inodes, img.disk) && SameInodes(old(img.groups), img.groups)
    ensures Views(img.g, img.disk, img.inodes) == old(Views(img.g, img.disk, img.inodes))
    ensures Carried(img.g, old(img.groups), old(img.inodes), old(img.disk), img.groups, img.inodes, img.disk)
    ensures SameDeep(img.g, old(img.inodes), old(img.disk), img.inodes, img.disk)
    ensures csumFrags <= img.g.csumFrags ==> r == Cleared(0)
    ensures SameFiles(old(img.inodes), img.inodes)
    ensures var start, n: int := img.g.csumAddr + img.g.csumFrags, csumFrags - img.g.csumFrags;
            n > 0 ==> EvacuatedRange(img.g, old(img.inodes), img.inodes, start, n, r)
    ensures r == Cleared(0) ==> img.inodes == old(img.inodes) && img.disk == old(img.disk) && img.groups == old(img.groups)
  {
    hide Superblock.Valid, CylGroup.Valid, FreeSet, SameInodes, Sound, Views, Carried, DirectClear, RootsClear, EvacuatedRange, PointersOnly, SameDeep;
    SameInodesRefl(img.groups);
    CarriedNothing(img.g, img.groups, img.inodes, img.disk);
    DeepItself(img.g, img.inodes, img.disk);
    ghost var groups, inodes, d := img.groups, img.inodes, img.disk;
    if csumFrags <= img.g.csumFrags {
      assert SameFiles(inodes, inodes);
      return Cleared(0);
    }
    var start, n := img.g.csumAddr + img.g.csumFrags, csumFrags - img.g.csumFrags;
    if start + n > img.g.fpg {
      TooWide(img.g, inodes, start, n);
      return Unsupported;
    }
    var moves: nat := 0;
    for i := 0 to |img.inodes|
      invariant img.Valid() && Sound(img.g, img.groups, img.inodes, img.disk) && SameInodes(groups, img.groups)
      invariant Views(img.g, img.disk, img.inodes) == Views(img.g, d, inodes)
      invariant Carried(img.g, groups, inodes, d, img.groups, img.inodes, img.disk)
      invariant SameDeep(img.g, inodes, d, img.inodes, img.disk)
      invariant Passed(img.g, inodes, img.inodes, i, start, n, moves)
      invariant moves == 0 ==> img.inodes == inodes && img.disk == d && img.groups == groups
    {
      ghost var groups1, inodes1, d1 := img.groups, img.inodes, img.disk;
      var one := EvacuateInode(img, i, start, n);
      SameInodesTrans(groups, groups1, img.groups);
      CarriedTwice(img.g, groups, inodes, d, groups1, inodes1, d1, img.groups, img.inodes, img.disk);
      DeepTwice(img.g, inodes, d, inodes1, d1, img.inodes, img.disk);
      if !one.Cleared? {
        StoppedAt(img.g, inodes, inodes1, img.inodes, i, start, n, moves, one);
        return one;
      }
      PassedOne(img.g, inodes, inodes1, img.inodes, i, start, n, moves, one.moves);
      moves := moves + one.moves;
    }
    PassedAll(img.g, inodes, img.inodes, start, n, moves);
    r := Cleared(moves);
  }

  lemma StillRooted(g: Geometry, was: seq<Inode>, now: seq<Inode>, i: nat, start: nat, n: nat)
    requires PointersOnly(was, now, i)
    ensures |now| == |was| && (RootsClear(g, now[i], start, n) <==> RootsClear(g, was[i], start, n))
  {
  }

  lemma SameRoots(g: Geometry, a: Inode, b: Inode, start: nat, n: nat)
    requires a.Shaped() && b.Shaped() && a.ib == b.ib
    ensures RootsClear(g, a, start, n) <==> RootsClear(g, b, start, n)
  {
  }

  // ---- what is left in the way ----

  lemma {:induction false} CoversSplit(xs: seq<Extent>, k: nat)
    requires k <= |xs|
    ensures Covers(xs) == Covers(xs[..k]) + Covers(xs[k..])
    decreases |xs|
  {
    hide ExtentRun;
    if k == |xs| {
      assert xs[..k] == xs && xs[k..] == [];
    } else {
      var n := |xs| - 1;
      assert xs[..n][..k] == xs[..k] && xs[..n][k..] == xs[k..][..n - k];
      CoversSplit(xs[..n], k);
    }
  }

  lemma ClearIsApart(at: nat, m: nat, start: nat, n: nat)
    requires at == 0 || m == 0 || !Overlap(at, m, start, n)
    ensures ExtentRun(Extent(at, m)) !! Run(start, n)
  {
    RunMembers(at, m);
    RunMembers(start, n);
  }

  /** Of an inode whose direct data and roots are out of the way only the deep fragments can lie there. */
  lemma OnlyDeep(g: Geometry, d: seq<byte>, ino: Inode, start: nat, n: nat)
    requires ino.Shaped() && DirectClear(g, ino, start, n) && RootsClear(g, ino, start, n)
    ensures OwnedBy(g, d, ino) * Run(start, n) == Deep(g, d, ino) * Run(start, n) && Deep(g, d, ino) <= OwnedBy(g, d, ino)
  {
    hide Superblock.Valid, Run, Covers, InodeMeta, ExtentRun, Overlap, FragsFor, Chunk, Blocks, Ptr;
    if HasStorage(ino) {
      var xs := FileExtents(g, d, ino);
      var k := Min(NDADDR, |xs|);
      CoversSplit(xs, k);
      forall j | 0 <= j < k ensures ExtentRun(xs[..k][j]) !! Run(start, n) {
        assert SlotClear(g, ino, j, start, n);
        DirectPtr(g, d, ino, j);
        ClearIsApart(ino.db[j], DirectFrags(g, ino, j), start, n);
      }
      CoversApart(xs[..k], Run(start, n));
      ClearIsApart(ino.ib[0], g.fpb, start, n);
      ClearIsApart(ino.ib[1], g.fpb, start, n);
      ClearIsApart(ino.ib[2], g.fpb, start, n);
    }
  }

  lemma {:induction false} CoversBelow(g: Geometry, xs: seq<Extent>)
    requires forall i | 0 <= i < |xs| && xs[i].at != 0 :: Placed(g, xs[i].at, xs[i].n)
    ensures forall f | f in Covers(xs) :: f < g.fragCount
    decreases |xs|
  {
    hide Superblock.Valid, Placed;
    if xs != [] {
      var n := |xs| - 1;
      CoversBelow(g, xs[..n]);
      RunMembers(xs[n].at, xs[n].n);
      if xs[n].at != 0 { PlacedNonZero(g, xs[n].at, xs[n].n); }
    }
  }

  lemma {:induction false} MetaBelow(g: Geometry, t: Tree)
    requires Separate(g, t)
    ensures forall f | f in Meta(g, t) :: f < g.fragCount
    decreases t
  {
    hide Superblock.Valid, Placed, Run;
    match t
    case Hole =>
    case Leaf(at, _) =>
      PlacedNonZero(g, at, g.fpb);
      RunMembers(at, g.fpb);
    case Node(at, kids) =>
      PlacedNonZero(g, at, g.fpb);
      RunMembers(at, g.fpb);
      forall i | 0 <= i < |kids| ensures forall f | f in Meta(g, kids[i]) :: f < g.fragCount {
        MetaBelow(g, kids[i]);
      }
  }

  lemma OwnedBelow(g: Geometry, d: seq<byte>, ino: Inode)
    requires FileOk(g, d, ino)
    ensures forall f | f in Owned(g, d, ino) :: f < g.fragCount
  {
    hide Superblock.Valid, Placed, Covers, Meta, Separate, SlotTree, FileExtents;
    CoversBelow(g, FileExtents(g, d, ino));
    MetaBelow(g, SlotTree(g, d, ino, 0));
    MetaBelow(g, SlotTree(g, d, ino, 1));
    MetaBelow(g, SlotTree(g, d, ino, 2));
  }

  /** A fragment of group 0 behind the summary area is free or owned. */
  lemma FreeOrOwned(g: Geometry, groups: seq<CylGroup>, inodes: seq<Inode>, d: seq<byte>, f: nat)
    requires |groups| == g.ncg && groups[0].Valid(g, 0) && FsckClean.Whole(g, groups, inodes, d)
    requires g.csumAddr == g.Upper(0) && g.csumAddr + g.csumFrags <= f < g.GroupFrags(0)
    ensures f < |groups[0].free| && (groups[0].free[f] <==> f in FreeSet(g, groups))
    ensures f in FreeSet(g, groups) || f in AllOwned(g, d, inodes)
  {
    hide CylGroup.Counted, AllOwned;
    Grow.MapSizeOf(g, 0, groups[0]);
    DivModOf(0, f, g.fpg);
    BaseMonotone(g, 1, g.ncg);
    assert g.GroupOf(f) == 0 && g.LocalOf(f) == f && f < g.fragCount;
    assert !FsckClaims.SetAside(g, f);
  }

  ghost predicate FreeUnlessDeep(g: Geometry, free: seq<bool>, d: seq<byte>, inodes: seq<Inode>, f: nat) {
    f < |free| && (free[f] <==> f < g.GroupFrags(0) && forall i | 0 <= i < |inodes| :: f !in Deep(g, d, inodes[i]))
  }

  /** After the pass the summary area can grow exactly when it ends in what will be of group 0 and no
      fragment found through an indirect block is in its way. */
  lemma EvacuatedIsClear(g: Geometry, h: Geometry, groups: seq<CylGroup>, inodes: seq<Inode>, d: seq<byte>)
    requires |groups| == g.ncg && groups[0].Valid(g, 0) && Sound(g, groups, inodes, d) && FsckClean.Whole(g, groups, inodes, d)
    requires g.csumAddr == g.Upper(0) && Grow.Grown(g, h) && g.csumFrags < h.csumFrags && h.csumAddr + h.csumFrags <= g.fpg
    requires forall i | 0 <= i < |inodes| && HasStorage(inodes[i]) :: Live(inodes[i])
    requires var start, n := g.csumAddr + g.csumFrags, h.csumFrags - g.csumFrags;
             AllDirectClear(g, inodes, start, n) && AllRootsClear(g, inodes, start, n)
    ensures Grow.SummaryClear(g, h, groups[0].free)
            <==> h.csumAddr + h.csumFrags <= h.GroupFrags(0)
                 && forall i | 0 <= i < |inodes| :: Deep(g, d, inodes[i]) !! Run(g.csumAddr + g.csumFrags, h.csumFrags - g.csumFrags)
  {
    hide Superblock.Valid, Superblock.GroupFrags, Superblock.Upper, CylGroup.Counted, Sound, FreeSet, Run, DirectClear, RootsClear, FsckClean.Whole, Deep,
      OwnedBy, FileOk, TooLong, CountsOwned;
    var start, n := g.csumAddr + g.csumFrags, h.csumFrags - g.csumFrags;
    RunMembers(start, n);
    Grow.MapSizeOf(g, 0, groups[0]);
    forall i | 0 <= i < |inodes|
      ensures OwnedBy(g, d, inodes[i]) !! FreeSet(g, groups) && Deep(g, d, inodes[i]) <= OwnedBy(g, d, inodes[i])
      ensures OwnedBy(g, d, inodes[i]) * Run(start, n) == Deep(g, d, inodes[i]) * Run(start, n)
    {
      SoundAt(g, groups, inodes, d, i);
      if HasStorage(inodes[i]) {
        OnlyDeep(g, d, inodes[i], start, n);
      } else {
        NothingDeep(g, d, inodes[i]);
      }
    }
    forall f: nat | start <= f < start + n
      ensures FreeUnlessDeep(g, groups[0].free, d, inodes, f)
    {
      if f < g.GroupFrags(0) {
        FreeOrOwned(g, groups, inodes, d, f);
        if !groups[0].free[f] {
          var i :| 0 <= i < |inodes| && f in OwnedBy(g, d, inodes[i]);
          assert f in OwnedBy(g, d, inodes[i]) * Run(start, n);
        }
      }
    }
    forall i | 0 <= i < |inodes| ensures forall f | f in Deep(g, d, inodes[i]) :: f < g.fragCount {
      SoundAt(g, groups, inodes, d, i);
      if HasStorage(inodes[i]) { OwnedBelow(g, d, inodes[i]); } else { NothingDeep(g, d, inodes[i]); }
      DeepIsOwned(g, d, inodes[i]);
    }
    ClearIffApart(g, h, groups[0].free, d, inodes, start, n);
  }

  lemma DeepIsOwned(g: Geometry, d: seq<byte>, ino: Inode)
    requires ino.Shaped()
    ensures HasStorage(ino) ==> OwnedBy(g, d, ino) == Owned(g, d, ino)
  {
  }

  lemma ClearIffApart(g: Geometry, h: Geometry, free: seq<bool>, d: seq<byte>, inodes: seq<Inode>, start: nat, n: nat)
    requires start == g.csumAddr + g.csumFrags && start + n == h.csumAddr + h.csumFrags && 0 < n && start + n <= g.fpg == |free| && Grow.Grown(g, h)
    requires forall f: nat | start <= f < start + n :: FreeUnlessDeep(g, free, d, inodes, f)
    requires forall i, f | 0 <= i < |inodes| && f in Deep(g, d, inodes[i]) :: f < g.fragCount
    ensures Grow.SummaryClear(g, h, free)
            <==> start + n <= h.GroupFrags(0) && forall i | 0 <= i < |inodes| :: Deep(g, d, inodes[i]) !! Run(start, n)
  {
    hide Superblock.Valid, Superblock.GroupFrags, Run, Deep;
    RunMembers(start, n);
    FirstGroup(g, h);
    if !Grow.SummaryClear(g, h, free) {
      var f: nat :| start <= f < start + n && f < |free| && !free[f] && !(g.ncg == 1 && g.GroupFrags(0) <= f < h.GroupFrags(0));
      assert FreeUnlessDeep(g, free, d, inodes, f);
    } else {
      var last: nat := start + n - 1;
      assert FreeUnlessDeep(g, free, d, inodes, last);
      forall i, f: nat | 0 <= i < |inodes| && f in Deep(g, d, inodes[i]) ensures f !in Run(start, n) {
        if start <= f < start + n {
          assert FreeUnlessDeep(g, free, d, inodes, f) && free[f];
        }
      }
    }
  }

  /** Group 0 before and after the growth. */
  lemma FirstGroup(g: Geometry, h: Geometry)
    requires Grow.Grown(g, h)
    ensures g.GroupFrags(0) <= h.GroupFrags(0) && (if g.ncg == 1 then g.GroupFrags(0) == g.fragCount else g.GroupFrags(0) == h.GroupFrags(0) == g.fpg)
  {
    hide Superblock.Valid;
    GroupFragsBounds(g, 0);
    GroupFragsBounds(h, 0);
    OnlyGroup(g);
    Grow.FragsGrow(g, h, 0);
  }

  lemma OnlyGroup(g: Geometry)
    ensures g.Base(0) == 0 && (g.ncg == 1 ==> g.fragCount <= g.fpg)
  {
  }

  /** Texts of plain characters never look like data in the range. */
  lemma PlainTextsClear(g: Geometry, d: seq<byte>, inodes: seq<Inode>, start: nat, n: nat)
    requires Neat(g, d, inodes) && start + n <= 0x100_0000
    requires forall i | 0 <= i < |inodes| && !HasStorage(inodes[i]) ::
               inodes[i].kind == Special || inodes[i].kind == Unused || (inodes[i].fast && FsckRead.Plain(InlineText(inodes[i])))
    requires forall i | 0 <= i < |inodes| && inodes[i].kind == Unused :: inodes[i] == CLEARED
    ensures TextsClear(g, inodes, start, n)
  {
    hide Superblock.Valid, Kept, DirectClear, FsckRead.Plain, InlineText;
    forall i | 0 <= i < |inodes| && !HasStorage(inodes[i]) ensures DirectClear(g, inodes[i], start, n) {
      assert Kept(g, d, inodes[i]);
      if inodes[i].kind == Symlink {
        PlainTextClear(g, d, inodes[i], start, n);
      } else {
        NoDataClear(g, d, inodes[i], start, n);
      }
    }
  }

  lemma PlainTextClear(g: Geometry, d: seq<byte>, ino: Inode, start: nat, n: nat)
    requires Kept(g, d, ino) && ino.fast && FsckRead.Plain(InlineText(ino)) && start + n <= 0x100_0000
    ensures DirectClear(g, ino, start, n)
  {
    hide Superblock.Valid, Compact, Words, Unwords, FragsFor, Chunk;
    var text := InlineText(ino);
    FsckWalk.WordsBig(ZeroPadded(text, INLINE_MAX), |text|);
    assert ino.db + ino.ib == Words(ZeroPadded(text, INLINE_MAX));
    forall slot | 0 <= slot < NDADDR ensures SlotClear(g, ino, slot, start, n) {
      assert ino.db[slot] in ino.db + ino.ib;
    }
  }

  lemma NoDataClear(g: Geometry, d: seq<byte>, ino: Inode, start: nat, n: nat)
    requires Kept(g, d, ino) && (ino.kind == Special || ino == CLEARED)
    ensures DirectClear(g, ino, start, n)
  {
    hide Superblock.Valid, Compact, FragsFor, Chunk, Padded, Blocks;
    forall slot | 0 <= slot < NDADDR ensures SlotClear(g, ino, slot, start, n) {
      BlocksOfNothing(g, slot);
      NoChunkNoFrags(g, ino.size, slot);
    }
  }

  lemma BlocksOfNothing(g: Geometry, slot: nat)
    ensures slot >= Blocks(g, 0)
  {
    hide Superblock.Valid, Blocks, BlockSize;
    BlocksIs(g, 0, slot);
  }

  // ---- growing as a whole ----

  /** A second pass finds nothing to do. */
  lemma AlreadyClear(g: Geometry, was: seq<Inode>, now: seq<Inode>, after: seq<Inode>, start: nat, n: nat, first: Evacuation, second: Evacuation)
    requires EvacuatedRange(g, was, now, start, n, first) && first.Cleared? && EvacuatedRange(g, now, after, start, n, second)
    ensures second == Cleared(0)
  {
    hide AllDirectClear, AllRootsClear, TextsClear;
  }

  /** The way cleared: one pass, and another if the first moved anything. */
  method ClearTheWay(img: Image, csumFrags: nat) returns (r: Evacuation)
    requires img.Valid() && Sound(img.g, img.groups, img.inodes, img.disk)
    requires csumFrags > img.g.csumFrags ==>
               TextsClear(img.g, img.inodes, img.g.csumAddr + img.g.csumFrags, csumFrags - img.g.csumFrags)
    modifies img`groups, img`csum, img`total, img`disk, img`inodes
    ensures img.Valid() && Sound(img.g, img.groups, img.inodes, img.disk) && SameInodes(old(img.groups), img.groups)
    ensures Views(img.g, img.disk, img.inodes) == old(Views(img.g, img.disk, img.inodes)) && SameFiles(old(img.inodes), img.inodes)
    ensures Carried(img.g, old(img.groups), old(img.inodes), old(img.disk), img.groups, img.inodes, img.disk)
    ensures SameDeep(img.g, old(img.inodes), old(img.disk), img.inodes, img.disk)
    ensures r.Cleared? ==> r.moves == 0
    ensures var start, n: int := img.g.csumAddr + img.g.csumFrags, csumFrags - img.g.csumFrags;
            && (n <= 0 ==> r == Cleared(0))
            && (n > 0 && r.Cleared? ==> AllDirectClear(img.g, img.inodes, start, n) && AllRootsClear(img.g, img.inodes, start, n))
            && (n > 0 && r.Cleared? ==> AllRootsClear(img.g, old(img.inodes), start, n))
            && (n > 0 && r.Unsupported? ==> start + n > img.g.fpg || !AllRootsClear(img.g, old(img.inodes), start, n))
            && (n > 0 && r.OutOfSpace? ==> !AllDirectClear(img.g, old(img.inodes), start, n))
  {
    hide Superblock.Valid, CylGroup.Valid, FreeSet, SameInodes, Sound, Views, Carried, AllDirectClear, AllRootsClear, TextsClear, EvacuatedRange,
      SameFiles, SameDeep;
    ghost var g, groups, inodes, d := img.g, img.groups, img.inodes, img.disk;
    r := EvacuateSummaryRange(img, csumFrags);
    if csumFrags > img.g.csumFrags {
      RangeEnds(img.g, inodes, img.inodes, img.g.csumAddr + img.g.csumFrags, csumFrags - img.g.csumFrags, r);
    }
    if r.Cleared? && r.moves != 0 {
      ghost var groups1, inodes1, d1, first := img.groups, img.inodes, img.disk, r;
      r := EvacuateSummaryRange(img, csumFrags);
      AlreadyClear(img.g, inodes, inodes1, img.inodes, img.g.csumAddr + img.g.csumFrags, csumFrags - img.g.csumFrags, first, r);
    }
  }

  lemma RangeEnds(g: Geometry, was: seq<Inode>, now: seq<Inode>, start: nat, n: nat, r: Evacuation)
    requires EvacuatedRange(g, was, now, start, n, r)
    ensures r.Cleared? ==> AllDirectClear(g, now, start, n) && AllRootsClear(g, now, start, n) && TextsClear(g, now, start, n)
    ensures r.Cleared? ==> AllRootsClear(g, was, start, n)
    ensures r.Unsupported? ==> start + n > g.fpg || !AllRootsClear(g, was, start, n)
    ensures r.OutOfSpace? ==> !AllDirectClear(g, was, start, n)
  {
    hide AllDirectClear, AllRootsClear, TextsClear;
  }

  lemma WholeStill(g: Geometry, groups: seq<CylGroup>, inodes: seq<Inode>, d: seq<byte>,
                   groups': seq<CylGroup>, inodes': seq<Inode>, d': seq<byte>)
    requires Carried(g, groups, inodes, d, groups', inodes', d') && FsckClean.Whole(g, groups, inodes, d)
    ensures FsckClean.Whole(g, groups', inodes', d')
  {
    hide FreeSet, AllOwned, Neat, FsckClaims.SetAside;
  }

  lemma LiveStill(was: seq<Inode>, now: seq<Inode>)
    requires SameFiles(was, now) && forall i | 0 <= i < |was| && HasStorage(was[i]) :: Live(was[i])
    ensures forall i | 0 <= i < |now| && HasStorage(now[i]) :: Live(now[i])
  {
  }
}
