/** Directories on the image: inserting a name, growing by one block, and removing a name. */
module Dirs {
  import opened Geometry
  import opened Image
  import opened Alloc
  import opened Room
  import opened Indirect
  import opened FileMap
  import opened Storage
  import opened Mutate
  import opened Dirents

  /** Directory blocks never straddle a fragment boundary. */
  predicate DirGeometry(g: Geometry) {
    g.fragSize % DIRBLKSIZ == 0
  }

  lemma {:induction false} DirAt(f: seq<byte>, k: nat)
    requires DirTiled(f) && k <= |f| && k % DIRBLKSIZ == 0
    ensures DirTiled(f[..k]) && DirTiled(f[k..])
    decreases k
  {
    hide Tiled;
    if k == 0 {
      assert f[..0] == [] && f[0..] == f;
    } else {
      SplitDir(f);
      var n := DIRBLKSIZ;
      DirAt(f[n..], k - n);
      assert f[n..][..k - n] == f[..k][n..] && f[n..][k - n..] == f[k..] && f[..k][..n] == f[..n];
    }
  }

  lemma BlockAligned(g: Geometry, lb: nat)
    requires DirGeometry(g)
    ensures Start(g, lb) % DIRBLKSIZ == 0 && BlockSize(g) % DIRBLKSIZ == 0
  {
    var q := g.fragSize / DIRBLKSIZ;
    ProductAligned(lb, g.fpb, q, DIRBLKSIZ);
    assert g.fragSize == q * DIRBLKSIZ;
  }

  lemma ProductAligned(a: nat, b: nat, q: nat, m: nat)
    requires m > 0
    ensures (b * (q * m)) % m == 0 && (a * (b * (q * m))) % m == 0
  {
    assert b * (q * m) == (b * q) * m;
    assert a * (b * (q * m)) == (a * (b * q)) * m;
    MulMod(b * q, m);
    MulMod(a * (b * q), m);
  }

  /** A listed directory has no holes: a hole reads as zeroes, which tile nothing. */
  lemma DirDense(g: Geometry, d: seq<byte>, ino: Inode)
    requires ino.Shaped() && DirGeometry(g) && DirTiled(FileBytes(g, d, ino))
    ensures Dense(g, d, ino)
  {
    hide Superblock.Valid, Tiled, Ptr, Blocks, Start, BlockSize, DirTiled, FileBytes;
    forall lb: nat | lb < Blocks(g, ino.size) ensures Ptr(g, d, ino, lb) != 0 {
      var f, at := FileBytes(g, d, ino), Start(g, lb);
      BlocksIs(g, ino.size, lb);
      BlockAligned(g, lb);
      DirAt(f, at);
      SplitDir(f[at..]);
      NonZeroHead(f[at..][..DIRBLKSIZ]);
      var o := if f[at + 4] != 0 then 4 else 5;
      assert f[at + o] != 0;
      ChunkOf(g, ino.size, lb, o);
      FileByteAt(g, d, ino, lb, o);
    }
  }

  lemma NonZeroHead(blk: seq<byte>)
    requires Tiled(blk) && |blk| == DIRBLKSIZ
    ensures blk[4] != 0 || blk[5] != 0
  {
    assert blk[4..6] == [blk[4], blk[5]];
  }

  lemma ChunkOf(g: Geometry, size: nat, lb: nat, o: nat)
    requires Start(g, lb) + DIRBLKSIZ <= size && DirGeometry(g) && o < DIRBLKSIZ
    ensures o < Chunk(g, size, lb)
  {
    hide Superblock.Valid, Start, BlockSize;
    BlockAligned(g, lb);
  }

  /** All of a listed directory can be read. */
  lemma AllReadable(g: Geometry, d: seq<byte>, ino: Inode)
    requires ino.Shaped() && DirGeometry(g) && DirTiled(FileBytes(g, d, ino))
    ensures forall lb: nat :: Touches(g, lb, 0, Min(0 + ino.size, ino.size)) ==> !Unresolvable(g, ino, lb)
    ensures FileBytes(g, d, ino)[0..Min(0 + ino.size, ino.size)] == FileBytes(g, d, ino)
  {
    hide Superblock.Valid, FileBytes, DirTiled, Unresolvable, Start, BlockSize, Blocks;
    DirDense(g, d, ino);
    forall lb: nat | Touches(g, lb, 0, ino.size) ensures !Unresolvable(g, ino, lb) {
      BlocksIs(g, ino.size, lb);
      DenseResolves(g, d, ino, lb);
    }
  }

  /** Rewriting bytes inside one stored block changes exactly those bytes of the file. */
  lemma BlockWritten(g: Geometry, d: seq<byte>, e: seq<byte>, ino: Inode, lb: nat, o: nat, bs: seq<byte>)
    requires FileOk(g, d, ino) && |d| == g.Off(g.fragCount) && lb < Blocks(g, ino.size)
    requires var x := FileExtents(g, d, ino)[lb];
             && x.at != 0 && OnlyWrote(g, d, e, Run(x.at, x.n))
             && o + |bs| <= Chunk(g, ino.size, lb) && o + |bs| <= |Bytes(g, d, x.at, x.n)|
             && Bytes(g, e, x.at, x.n) == Splice(Bytes(g, d, x.at, x.n), o, bs)
    ensures FileOk(g, e, ino) && Owned(g, e, ino) == Owned(g, d, ino)
    ensures Start(g, lb) + o + |bs| <= ino.size
    ensures FileBytes(g, e, ino) == Splice(FileBytes(g, d, ino), Start(g, lb) + o, bs)
  {
    hide Superblock.Valid, InodeSeparate, InodeMeta, Ptr, Covers, Blocks, Chunk, FragsFor, OnlyWrote, Placed,
      Start, BlockSize, FileBytes, Bytes, Run;
    var xs := FileExtents(g, d, ino);
    var s := Run(xs[lb].at, xs[lb].n);
    CoversHas(xs, lb);
    OnlyWroteSize(g, d, e, s);
    MapFrame(g, d, e, ino, s);
    assert FileExtents(g, e, ino) == xs;
    ChunkBounds(g, ino.size, lb);
    forall p | 0 <= p < ino.size
      ensures FileBytes(g, e, ino)[p]
           == if Start(g, lb) + o <= p < Start(g, lb) + o + |bs| then bs[p - Start(g, lb) - o] else FileBytes(g, d, ino)[p]
    {
      BlockWrittenAt(g, d, e, ino, lb, o, bs, p);
    }
  }

  lemma BlockWrittenAt(g: Geometry, d: seq<byte>, e: seq<byte>, ino: Inode, lb: nat, o: nat, bs: seq<byte>, p: nat)
    requires FileOk(g, d, ino) && |e| == |d| == g.Off(g.fragCount) && lb < Blocks(g, ino.size) && p < ino.size
    requires forall j: nat :: Ptr(g, e, ino, j) == Ptr(g, d, ino, j)
    requires var x := FileExtents(g, d, ino)[lb];
             && x.at != 0 && OnlyWrote(g, d, e, Run(x.at, x.n))
             && o + |bs| <= Chunk(g, ino.size, lb) && o + |bs| <= |Bytes(g, d, x.at, x.n)|
             && Bytes(g, e, x.at, x.n) == Splice(Bytes(g, d, x.at, x.n), o, bs)
    ensures FileBytes(g, e, ino)[p]
         == if Start(g, lb) + o <= p < Start(g, lb) + o + |bs| then bs[p - Start(g, lb) - o] else FileBytes(g, d, ino)[p]
  {
    hide Superblock.Valid, InodeSeparate, InodeMeta, Ptr, Covers, Blocks, Chunk, FragsFor, OnlyWrote, Placed,
      Start, BlockSize, BlockByte, Bytes, Run, Splice;
    var xs, k := FileExtents(g, d, ino), LbOf(g, p);
    BlocksIs(g, ino.size, k);
    InChunk(g, ino.size, p);
    ChunkBounds(g, ino.size, lb);
    BlockBound(g, ino.size, lb);
    if k == lb {
      WrittenByte(g, d, e, ino, lb, o, bs, p - Start(g, lb));
    } else {
      StartMonotone(g, k, lb);
      StartMonotone(g, lb, k);
      assert if k < lb then ExtentRun(xs[k]) !! ExtentRun(xs[lb]) else ExtentRun(xs[lb]) !! ExtentRun(xs[k]);
      ByteFrame(g, d, e, ino, Run(xs[lb].at, xs[lb].n), k, p - Start(g, k));
    }
  }

  lemma OnlyWroteSize(g: Geometry, d: seq<byte>, e: seq<byte>, s: set<nat>)
    requires OnlyWrote(g, d, e, s)
    ensures |e| == |d|
  {
  }

  lemma BlockBound(g: Geometry, size: nat, lb: nat)
    ensures Chunk(g, size, lb) <= BlockSize(g)
  {
  }

  lemma InChunk(g: Geometry, size: nat, p: nat)
    requires p < size
    ensures p - Start(g, LbOf(g, p)) < Chunk(g, size, LbOf(g, p)) <= BlockSize(g)
  {
  }

  lemma WrittenByte(g: Geometry, d: seq<byte>, e: seq<byte>, ino: Inode, lb: nat, o: nat, bs: seq<byte>, q: nat)
    requires FileOk(g, d, ino) && |e| == |d| == g.Off(g.fragCount) && lb < Blocks(g, ino.size)
    requires q < Chunk(g, ino.size, lb)
    requires var x := FileExtents(g, d, ino)[lb];
             && x.at != 0
             && o + |bs| <= |Bytes(g, d, x.at, x.n)|
             && Bytes(g, e, x.at, x.n) == Splice(Bytes(g, d, x.at, x.n), o, bs)
    ensures BlockByte(g, e, Ptr(g, d, ino, lb), q)
         == if o <= q < o + |bs| then bs[q - o] else BlockByte(g, d, Ptr(g, d, ino, lb), q)
  {
    hide Superblock.Valid, InodeSeparate, InodeMeta, Ptr, Covers, Blocks, Chunk, FragsFor, Placed, Run, Superblock.Off;
    var x := FileExtents(g, d, ino)[lb];
    ChunkBounds(g, ino.size, lb);
    FragsForBounds(g, lb, Chunk(g, ino.size, lb));
    PlacedNonZero(g, x.at, x.n);
    BytesFit(g, d, x.at, x.n);
    assert Bytes(g, d, x.at, x.n)[q] == d[g.Off(x.at) + q];
    assert Bytes(g, e, x.at, x.n)[q] == e[g.Off(x.at) + q];
  }

  // ---- insertion ----

  /** A directory the commands work on. */
  ghost predicate IsDir(g: Geometry, d: seq<byte>, ino: Inode) {
    ino.Shaped() && ino.kind == Directory && DirTiled(FileBytes(g, d, ino))
  }

  ghost predicate NameOk(name: seq<byte>) {
    name != [] && |name| <= MAX_NAME
  }

  lemma ListingParts(a: seq<byte>, b: seq<byte>, c: seq<byte>)
    requires DirTiled(a) && DirTiled(b)
    ensures DirTiled(a + b + c) <==> DirTiled(c)
    ensures Records(a + b + c) == Records(a) + Records(b) + Records(c)
    ensures Listing(a + b + c) == Listing(a) + Listing(b) + Listing(c)
  {
    hide Tiled, DirTiled, Records, List;
    DirTiledConcat(a, b);
    DirTiledConcat(a + b, c);
    DirTiledTiled(a);
    DirTiledTiled(a + b);
    TiledConcat(a, b);
    TiledConcat(a + b, c);
    Around(Records(a), Records(b), Records(c));
  }

  lemma InsertedInside(a: seq<Entry>, was: seq<Entry>, now: seq<Entry>, c: seq<Entry>, e: Entry)
    requires Inserted(was, now, e)
    ensures Inserted(a + was + c, a + now + c, e)
  {
    var k :| 0 <= k <= |was| && now == was[..k] + [e] + was[k..];
    var all, j := a + was + c, |a| + k;
    assert all[..j] == a + was[..k] && all[j..] == was[k..] + c;
  }

  /** The part of a directory that direct pointers reach. */
  ghost function DirectPart(g: Geometry, f: seq<byte>): seq<byte> {
    if Start(g, NDADDR) < |f| then f[..Start(g, NDADDR)] else f
  }

  ghost predicate NoRoom(f: seq<byte>, need: nat) {
    forall r | r in Records(f) :: !HasRoom(r, need)
  }

  /** Block lb of a directory. */
  method ReadDirBlock(img: Image, ino: Inode, lb: nat) returns (chunk: seq<byte>)
    requires img.Valid() && FileOk(img.g, img.disk, ino) && !TooLong(img.g, ino.size)
    requires DirGeometry(img.g) && IsDir(img.g, img.disk, ino) && lb < Blocks(img.g, ino.size)
    ensures Start(img.g, lb) + Chunk(img.g, ino.size, lb) <= ino.size
    ensures chunk == FileBytes(img.g, img.disk, ino)[Start(img.g, lb)..Start(img.g, lb) + Chunk(img.g, ino.size, lb)]
  {
    hide Superblock.Valid, CylGroup.Valid, FileOk, FileBytes, Unresolvable, DirTiled, Start, BlockSize, Dense, Blocks;
    var rc;
    ChunkBounds(img.g, ino.size, lb);
    rc, chunk := InodeReadData(img, ino, Start(img.g, lb), Chunk(img.g, ino.size, lb));
    DirDense(img.g, img.disk, ino);
    forall k: nat | Touches(img.g, k, Start(img.g, lb), Start(img.g, lb) + Chunk(img.g, ino.size, lb))
      ensures !Unresolvable(img.g, ino, k)
    {
      BlocksIs(img.g, ino.size, k);
      DenseResolves(img.g, img.disk, ino, k);
    }
  }

  /** Writes bytes of a directory block back through its direct pointer. */
  method WriteDirBlock(img: Image, dir: nat, lb: nat, o: nat, bs: seq<byte>)
    requires img.Valid() && Sound(img.g, img.groups, img.inodes, img.disk) && dir < |img.inodes|
    requires IsDir(img.g, img.disk, img.inodes[dir]) && DirGeometry(img.g)
    requires lb < NDADDR && lb < Blocks(img.g, img.inodes[dir].size)
    requires o + |bs| <= Chunk(img.g, img.inodes[dir].size, lb)
    modifies img`disk
    ensures img.Valid() && Sound(img.g, img.groups, img.inodes, img.disk)
    ensures forall k | 0 <= k < |img.inodes| :: OwnedBy(img.g, img.disk, img.inodes[k]) == OwnedBy(img.g, old(img.disk), img.inodes[k])
    ensures Start(img.g, lb) + o + |bs| <= img.inodes[dir].size
    ensures var views := old(Views(img.g, img.disk, img.inodes));
            Views(img.g, img.disk, img.inodes)
            == views[dir := views[dir].(bytes := Splice(old(FileBytes(img.g, img.disk, img.inodes[dir])), Start(img.g, lb) + o, bs))]
    ensures Carried(img.g, img.groups, img.inodes, old(img.disk), img.groups, img.inodes, img.disk)
  {
    hide Superblock.Valid, Superblock.Off, CylGroup.Valid, FileBytes, DirTiled, Start, BlockSize, Blocks, Sound, Views, Chunk,
      FreeSet, TooLong, Apart, Bytes, Splice, CountsOwned, FragsFor, Covers, InodeMeta, InodeSeparate, OnlyWrote, Carried, Kept;
    var node := img.inodes[dir];
    ghost var d, e0 := img.disk, img.groups;
    SoundAt(img.g, img.groups, img.inodes, img.disk, dir);
    DirDense(img.g, img.disk, node);
    DirectPtr(img.g, img.disk, node, lb);
    ghost var x := FileExtents(img.g, d, node)[lb];
    ChunkBounds(img.g, node.size, lb);
    FragsForBounds(img.g, lb, Chunk(img.g, node.size, lb));
    ExtentPlaced(img.g, d, node, lb);
    BytesFit(img.g, d, x.at, x.n);
    img.WriteExact(node.db[lb], x.n, o, bs);
    BlockWritten(img.g, d, img.disk, node, lb, o, bs);
    CoversHas(FileExtents(img.g, d, node), lb);
    SameBlocks(img.g, d, img.disk, node);
    Replaced(img.g, img.groups, img.inodes, d, img.groups, img.disk, dir, node, Run(x.at, x.n));
    WrittenKept(img.g, d, img.disk, node, lb);
    ReplacedCarries(img.g, img.groups, img.inodes, d, img.groups, img.disk, dir, node, Run(x.at, x.n));
    assert img.inodes[dir := node] == img.inodes;
    ViewsAt(img.g, d, img.inodes);
  }

  /** Writing into a data run leaves the pointers alone. */
  lemma WrittenKept(g: Geometry, d: seq<byte>, e: seq<byte>, ino: Inode, lb: nat)
    requires FileOk(g, d, ino) && lb < Blocks(g, ino.size)
    requires var x := FileExtents(g, d, ino)[lb]; x.at != 0 && OnlyWrote(g, d, e, Run(x.at, x.n))
    ensures Kept(g, d, ino) ==> Kept(g, e, ino)
  {
    hide Superblock.Valid, InodeSeparate, InodeMeta, Ptr, Covers, Blocks, Chunk, FragsFor, OnlyWrote, Apart, Run, Snug;
    var x := FileExtents(g, d, ino)[lb];
    CoversHas(FileExtents(g, d, ino), lb);
    SnugFrame(g, d, e, ino, Run(x.at, x.n), Blocks(g, ino.size));
  }

  lemma SameBlocks(g: Geometry, d: seq<byte>, e: seq<byte>, ino: Inode)
    requires ino.Shaped() && Owned(g, e, ino) == Owned(g, d, ino) && CountsOwned(g, d, ino)
    ensures CountsOwned(g, e, ino)
  {
  }

  lemma DirectPtr(g: Geometry, d: seq<byte>, ino: Inode, lb: nat)
    requires ino.Shaped() && lb < NDADDR
    ensures Ptr(g, d, ino, lb) == ino.db[lb]
  {
  }

  lemma ExtentPlaced(g: Geometry, d: seq<byte>, ino: Inode, lb: nat)
    requires FileOk(g, d, ino) && lb < Blocks(g, ino.size) && FileExtents(g, d, ino)[lb].at != 0
    ensures var x := FileExtents(g, d, ino)[lb]; Placed(g, x.at, x.n) && x.at + x.n <= g.fragCount
  {
    hide Superblock.Valid, Placed, InodeSeparate, Covers, Ptr, FragsFor, Chunk, Blocks;
    PlacedNonZero(g, FileExtents(g, d, ino)[lb].at, FileExtents(g, d, ino)[lb].n);
  }

  // ---- growing by one directory block ----

  /** Fragments in use for the first n bytes of a directory's last block. */
  function FragsOf(g: Geometry, n: nat): nat {
    (n + g.fragSize - 1) / g.fragSize
  }

  /** Sectors added when a run of a fragments becomes one of b. */
  function Sectors(g: Geometry, a: nat, b: nat): nat {
    if a <= b then (b - a) * g.spf else 0
  }

  /** Making room for one more directory block: block lb was x (none if x.n is 0) and becomes y,
      which starts with the same bytes. */
  ghost predicate Relocated(g: Geometry, d: seq<byte>, free: set<nat>, ino: Inode,
                            e: seq<byte>, free': set<nat>, out: Inode, x: Extent, y: Extent)
    requires ino.Shaped()
  {
    var lb, o := LbOf(g, ino.size), ino.size - Start(g, LbOf(g, ino.size));
    && lb < NDADDR && ino.size % DIRBLKSIZ == 0
    && x == Extent(ino.db[lb], FragsOf(g, o)) && y.n == FragsOf(g, o + DIRBLKSIZ)
    && Moved(g, d, free, x, e, free', y, o)
    && out == ino.(db := ino.db[lb := y.at], size := ino.size + DIRBLKSIZ, blocks := ino.blocks + Sectors(g, x.n, y.n))
  }

  /** Run x became run y and kept its first o bytes. */
  ghost predicate Moved(g: Geometry, d: seq<byte>, free: set<nat>, x: Extent, e: seq<byte>, free': set<nat>, y: Extent, o: nat) {
    && Placed(g, y.at, y.n) && Run(y.at, y.n) <= free + Run(x.at, x.n)
    && free' == free + Run(x.at, x.n) - Run(y.at, y.n)
    && OnlyWrote(g, d, e, Run(y.at, y.n))
    && o <= |Bytes(g, d, x.at, x.n)| && o <= |Bytes(g, e, y.at, y.n)|
    && Bytes(g, e, y.at, y.n)[..o] == Bytes(g, d, x.at, x.n)[..o]
  }

  /** The same with the new directory block written. */
  ghost predicate GrownTo(g: Geometry, d: seq<byte>, free: set<nat>, ino: Inode,
                          e: seq<byte>, free': set<nat>, out: Inode, x: Extent, y: Extent, more: seq<byte>)
    requires ino.Shaped()
  {
    var o := ino.size - Start(g, LbOf(g, ino.size));
    && Relocated(g, d, free, ino, e, free', out, x, y)
    && |more| == DIRBLKSIZ && o + DIRBLKSIZ <= |Bytes(g, e, y.at, y.n)|
    && Bytes(g, e, y.at, y.n)[o..o + DIRBLKSIZ] == more
  }

  /** The block arithmetic of one more directory block. */
  lemma GrownBlocks(g: Geometry, size: nat)
    requires DirGeometry(g) && size % DIRBLKSIZ == 0
    ensures var lb := LbOf(g, size); var o := size - Start(g, lb);
            && Blocks(g, size + DIRBLKSIZ) == lb + 1
            && Blocks(g, size) == (if o == 0 then lb else lb + 1)
            && Chunk(g, size, lb) == o && Chunk(g, size + DIRBLKSIZ, lb) == o + DIRBLKSIZ <= BlockSize(g)
            && (forall k: nat | k < lb :: Chunk(g, size, k) == Chunk(g, size + DIRBLKSIZ, k) == BlockSize(g))
  {
    hide Superblock.Valid, BlockSize, Blocks, Start, Left, Chunk;
    var lb := LbOf(g, size);
    GrownFits(g, size, lb);
    forall k: nat | k < lb ensures Chunk(g, size, k) == Chunk(g, size + DIRBLKSIZ, k) == BlockSize(g) {
      StartMonotone(g, k, lb);
      WholeBlock(g, size, k);
      WholeBlock(g, size + DIRBLKSIZ, k);
    }
    BlocksCount(g, size + DIRBLKSIZ, lb + 1);
    BlocksCount(g, size, if size == Start(g, lb) then lb else lb + 1);
  }

  lemma WholeBlock(g: Geometry, size: nat, k: nat)
    requires Start(g, k) + BlockSize(g) <= size
    ensures Chunk(g, size, k) == BlockSize(g)
  {
  }

  lemma GrownFits(g: Geometry, size: nat, lb: nat)
    requires DirGeometry(g) && size % DIRBLKSIZ == 0 && lb == LbOf(g, size)
    ensures var o := size - Start(g, lb);
            && Chunk(g, size, lb) == o && Chunk(g, size + DIRBLKSIZ, lb) == o + DIRBLKSIZ <= BlockSize(g)
            && Left(g, size + DIRBLKSIZ, lb) > 0 && Left(g, size + DIRBLKSIZ, lb + 1) == 0
            && Left(g, size, lb) == o && Left(g, size, lb + 1) == 0
    ensures lb > 0 ==> Left(g, size, lb - 1) > 0
  {
    hide Superblock.Valid, BlockSize, Start, LbOf;
    BlockAligned(g, lb);
    StartNext(g, lb);
    NextMultipleFits(size - Start(g, lb), BlockSize(g));
    if lb > 0 {
      StartMonotone(g, lb - 1, lb);
    }
  }

  lemma NextMultipleFits(o: nat, bs: nat)
    requires o < bs && o % DIRBLKSIZ == 0 && bs % DIRBLKSIZ == 0
    ensures o + DIRBLKSIZ <= bs
  {
  }

  lemma BlocksCount(g: Geometry, size: nat, n: nat)
    requires Left(g, size, n) == 0 && (n > 0 ==> Left(g, size, n - 1) > 0)
    ensures Blocks(g, size) == n
  {
    hide Superblock.Valid, Left, Blocks;
    BlocksIs(g, size, n);
    if n > 0 {
      BlocksIs(g, size, n - 1);
    }
  }

  /** The set algebra of growing: P is what stays, X the old last run, Y the new one. */
  lemma GrownSets(P: set<nat>, M: set<nat>, X: set<nat>, Y: set<nat>, F: set<nat>)
    requires P !! M && P !! X && P !! F && M !! X && M !! F && X !! F && Y <= F + X
    ensures P !! Y && M !! Y
    ensures P + Y + M <= F + (P + X + M) && F + X - Y <= F + (P + X + M)
    ensures (P + Y + M) !! (F + X - Y)
    ensures |P + Y + M| + |X| == |P + X + M| + |Y|
    ensures (F + X - Y) + (P + Y + M) == F + (P + X + M)
  {
    CardinalParts(P, X, M);
    CardinalParts(P, Y, M);
  }

  lemma CardinalParts(a: set<nat>, b: set<nat>, c: set<nat>)
    requires a !! b && a !! c && b !! c
    ensures |a + b + c| == |a| + |b| + |c|
  {
  }

  /** The extents of a directory before and after it grew. */
  lemma GrownExtents(g: Geometry, d: seq<byte>, ino: Inode, e: seq<byte>, out: Inode, lb: nat, y: Extent)
    requires ino.Shaped() && out.Shaped() && DirGeometry(g) && ino.size % DIRBLKSIZ == 0
    requires lb == LbOf(g, ino.size) < NDADDR && out.size == ino.size + DIRBLKSIZ
    requires forall j: nat :: Ptr(g, e, out, j) == if j == lb then y.at else Ptr(g, d, ino, j)
    requires y.n == FragsOf(g, out.size - Start(g, lb))
    ensures lb <= |FileExtents(g, d, ino)|
    ensures FileExtents(g, e, out) == FileExtents(g, d, ino)[..lb] + [y]
    ensures FileExtents(g, d, ino)
         == FileExtents(g, d, ino)[..lb] + if ino.size == Start(g, lb) then [] else [Extent(ino.db[lb], FragsOf(g, ino.size - Start(g, lb)))]
  {
    hide Superblock.Valid, Ptr, Blocks, Start, BlockSize, Chunk;
    GrownBlocks(g, ino.size);
    DirectPtr(g, d, ino, lb);
  }

  /** What a growing directory owned, in three disjoint parts. */
  lemma GrownOwned(g: Geometry, d: seq<byte>, ino: Inode, lb: nat, x: Extent)
    requires FileOk(g, d, ino) && lb <= |FileExtents(g, d, ino)|
    requires FileExtents(g, d, ino) == FileExtents(g, d, ino)[..lb] + if x.n == 0 then [] else [x]
    requires x.n > 0 ==> x.at != 0
    ensures var p := Covers(FileExtents(g, d, ino)[..lb]);
            && p !! InodeMeta(g, d, ino) && p !! Run(x.at, x.n) && InodeMeta(g, d, ino) !! Run(x.at, x.n)
            && Owned(g, d, ino) == p + Run(x.at, x.n) + InodeMeta(g, d, ino)
    ensures x.n > 0 ==> Placed(g, x.at, x.n)
  {
    hide Superblock.Valid, Ptr, Blocks, Start, BlockSize, Chunk, Placed, InodeMeta, InodeSeparate, Covers;
    var xs := FileExtents(g, d, ino);
    if x.n > 0 {
      assert xs[lb] == x;
      CoversAppend(xs[..lb], x);
      forall i | 0 <= i < lb ensures ExtentRun(xs[..lb][i]) !! ExtentRun(x) {
        assert xs[..lb][i] == xs[i];
      }
      CoversApart(xs[..lb], ExtentRun(x));
    } else {
      assert xs == xs[..lb];
    }
  }

  /** The new layout is well formed. */
  lemma GrownFile(g: Geometry, d: seq<byte>, free: set<nat>, ino: Inode, e: seq<byte>, free': set<nat>, out: Inode,
                  x: Extent, y: Extent, more: seq<byte>)
    requires FileOk(g, d, ino) && DirGeometry(g) && GrownTo(g, d, free, ino, e, free', out, x, y, more)
    requires Owned(g, d, ino) !! free && (x.n > 0 ==> x.at != 0) && |d| == g.Off(g.fragCount) && CountsOwned(g, d, ino)
    ensures FileOk(g, e, out) && CountsOwned(g, e, out) && !TooLong(g, out.size)
    ensures Owned(g, e, out) !! free' && Owned(g, e, out) <= free + Owned(g, d, ino) && free' <= free + Owned(g, d, ino)
    ensures free' + Owned(g, e, out) == free + Owned(g, d, ino) && Run(y.at, y.n) !! InodeMeta(g, d, ino)
    ensures Run(y.at, y.n) <= Owned(g, e, out) && Run(y.at, y.n) <= free + Owned(g, d, ino) && (x.n > 0 ==> Placed(g, x.at, x.n))
    ensures forall j: nat :: Ptr(g, e, out, j) == if j == LbOf(g, ino.size) then y.at else Ptr(g, d, ino, j)
    ensures var lb := LbOf(g, ino.size);
            && lb <= |FileExtents(g, d, ino)|
            && FileExtents(g, e, out) == FileExtents(g, d, ino)[..lb] + [y]
            && Covers(FileExtents(g, d, ino)[..lb]) !! Run(y.at, y.n)
  {
    hide Superblock.Valid, Ptr, Blocks, Start, BlockSize, Chunk, Placed, InodeMeta, InodeSeparate, Covers, Bytes, Run, TooLong, OnlyWrote, Mapped, MapGrew, CountsOwned, FragsOf, Apart, Sectors;
    var lb := LbOf(g, ino.size);
    var xs, s := FileExtents(g, d, ino), Run(y.at, y.n);
    var mid := ino.(db := ino.db[lb := y.at]);
    FragsOfZero(g, ino.size - Start(g, lb));
    GrownExtentsOld(g, d, ino, lb);
    GrownOwned(g, d, ino, lb, x);
    var p := Covers(xs[..lb]);
    PartsApart(Owned(g, d, ino), p, Run(x.at, x.n), InodeMeta(g, d, ino), free);
    GrownSets(p, InodeMeta(g, d, ino), Run(x.at, x.n), s, free);
    DirectMapped(g, d, free, ino, lb, y.at);
    SameTrees(g, d, ino, mid);
    GrownMap(g, d, e, ino, mid, out, lb, y.at, s);
    GrownExtents(g, d, ino, e, out, lb, y);
    CoversAppend(xs[..lb], y);
    PlacedNonZero(g, y.at, y.n);
    ApartPrefix(g, xs, lb);
    ApartAppend(g, xs[..lb], y);
    GrownBlocks(g, ino.size);
    ReachesDirect(g, out.size, lb);
    RunSize(x.at, x.n);
    RunSize(y.at, y.n);
    FragsOfMonotone(g, ino.size - Start(g, lb), DIRBLKSIZ);
    assert Owned(g, e, out) == p + s + InodeMeta(g, d, ino);
    GrownCount(g, d, ino, e, out, x, y);
  }

  lemma GrownExtentsOld(g: Geometry, d: seq<byte>, ino: Inode, lb: nat)
    requires ino.Shaped() && DirGeometry(g) && ino.size % DIRBLKSIZ == 0 && lb == LbOf(g, ino.size) < NDADDR
    ensures lb <= |FileExtents(g, d, ino)|
    ensures FileExtents(g, d, ino)
         == FileExtents(g, d, ino)[..lb] + if ino.size == Start(g, lb) then [] else [Extent(ino.db[lb], FragsOf(g, ino.size - Start(g, lb)))]
  {
    hide Superblock.Valid, Ptr, Blocks, Start, BlockSize, Chunk;
    GrownBlocks(g, ino.size);
    DirectPtr(g, d, ino, lb);
  }

  lemma FragsOfZero(g: Geometry, n: nat)
    ensures FragsOf(g, n) == 0 <==> n == 0
  {
    CeilDiv(n, g.fragSize, 0);
  }

  lemma FragsOfMonotone(g: Geometry, n: nat, k: nat)
    ensures FragsOf(g, n) <= FragsOf(g, n + k)
  {
    var a, b := FragsOf(g, n), FragsOf(g, n + k);
    CeilDiv(n + k, g.fragSize, b);
    CeilDiv(n, g.fragSize, b);
  }

  lemma PartsApart(w: set<nat>, a: set<nat>, b: set<nat>, c: set<nat>, f: set<nat>)
    requires w == a + b + c && w !! f
    ensures a !! f && b !! f && c !! f
  {
  }

  lemma ReachesDirect(g: Geometry, size: nat, lb: nat)
    requires lb < NDADDR && Blocks(g, size) == lb + 1
    ensures !TooLong(g, size)
  {
  }

  lemma GrownMap(g: Geometry, d: seq<byte>, e: seq<byte>, ino: Inode, mid: Inode, out: Inode, lb: nat, at: nat, s: set<nat>)
    requires ino.Shaped() && mid.Shaped() && out.Shaped() && out.db == mid.db && out.ib == mid.ib
    requires Mapped(g, d, ino, d, mid, true, lb, at) && InodeMeta(g, d, mid) == InodeMeta(g, d, ino)
    requires InodeSeparate(g, d, mid) && OnlyWrote(g, d, e, s) && InodeMeta(g, d, ino) !! s
    ensures forall j: nat :: Ptr(g, e, out, j) == if j == lb then at else Ptr(g, d, ino, j)
    ensures InodeMeta(g, e, out) == InodeMeta(g, d, ino) && InodeSeparate(g, e, out)
  {
    hide Superblock.Valid, Ptr, InodeMeta, InodeSeparate, OnlyWrote;
    MapFrame(g, d, e, mid, s);
    SameMap(g, e, mid, out);
  }

  lemma GrownCount(g: Geometry, d: seq<byte>, ino: Inode, e: seq<byte>, out: Inode, x: Extent, y: Extent)
    requires ino.Shaped() && out.Shaped() && CountsOwned(g, d, ino) && out.blocks == ino.blocks + Sectors(g, x.n, y.n)
    requires x.n <= y.n && |Owned(g, e, out)| + x.n == |Owned(g, d, ino)| + y.n
    ensures CountsOwned(g, e, out)
  {
    hide Owned;
    Distribute(|Owned(g, d, ino)|, y.n - x.n, g.spf);
  }

  lemma Distribute(a: nat, k: nat, m: nat)
    ensures (a + k) * m == a * m + k * m
  {
  }

  /** A stored byte in terms of the fragments' contents. */
  lemma BlockByteIs(g: Geometry, d: seq<byte>, at: nat, n: nat, q: nat)
    requires at != 0 && at + n <= g.fragCount && |d| == g.Off(g.fragCount) && q < |Bytes(g, d, at, n)|
    ensures BlockByte(g, d, at, q) == Bytes(g, d, at, n)[q]
  {
    hide Superblock.Valid, Superblock.Off;
    BytesFit(g, d, at, n);
  }

  /** The bytes of the directory after it grew. */
  lemma GrownBytes(g: Geometry, d: seq<byte>, free: set<nat>, ino: Inode, e: seq<byte>, free': set<nat>, out: Inode,
                   x: Extent, y: Extent, more: seq<byte>)
    requires FileOk(g, d, ino) && DirGeometry(g) && GrownTo(g, d, free, ino, e, free', out, x, y, more)
    requires Owned(g, d, ino) !! free && (x.n > 0 ==> x.at != 0) && |d| == g.Off(g.fragCount) && CountsOwned(g, d, ino)
    ensures FileBytes(g, e, out) == FileBytes(g, d, ino) + more
  {
    hide Superblock.Valid, Ptr, Blocks, Start, BlockSize, Chunk, InodeMeta, InodeSeparate, Covers, Bytes, Run, TooLong,
      OnlyWrote, CountsOwned, FragsOf, Apart, Sectors, FileOk, FileBytes, Owned, Placed, GrownTo;
    GrownParts(g, d, free, ino, e, free', out, x, y, more);
    GrownFile(g, d, free, ino, e, free', out, x, y, more);
    forall p | 0 <= p < out.size ensures FileBytes(g, e, out)[p] == (FileBytes(g, d, ino) + more)[p] {
      if LbOf(g, p) < LbOf(g, ino.size) {
        EarlierByte(g, d, ino, e, out, LbOf(g, ino.size), y, p);
      } else {
        LastByte(g, d, free, ino, e, free', out, x, y, more, p);
      }
    }
  }

  lemma GrownParts(g: Geometry, d: seq<byte>, free: set<nat>, ino: Inode, e: seq<byte>, free': set<nat>, out: Inode,
                   x: Extent, y: Extent, more: seq<byte>)
    requires FileOk(g, d, ino) && GrownTo(g, d, free, ino, e, free', out, x, y, more)
    ensures ino.Shaped() && out.Shaped() && out.size == ino.size + |more| && OnlyWrote(g, d, e, Run(y.at, y.n))
    ensures out.kind == ino.kind && out.nlink == ino.nlink && |more| == DIRBLKSIZ && ino.size % DIRBLKSIZ == 0
  {
    hide Superblock.Valid, InodeSeparate, Apart, Bytes, OnlyWrote, Placed;
  }

  lemma EarlierByte(g: Geometry, d: seq<byte>, ino: Inode, e: seq<byte>, out: Inode, lb: nat, y: Extent, p: nat)
    requires FileOk(g, d, ino) && out.Shaped() && lb <= |FileExtents(g, d, ino)| && LbOf(g, p) < lb == LbOf(g, ino.size)
    requires |d| == g.Off(g.fragCount) && p < out.size && OnlyWrote(g, d, e, Run(y.at, y.n))
    requires Covers(FileExtents(g, d, ino)[..lb]) !! Run(y.at, y.n)
    requires forall j: nat :: Ptr(g, e, out, j) == if j == lb then y.at else Ptr(g, d, ino, j)
    ensures p < ino.size && FileBytes(g, e, out)[p] == FileBytes(g, d, ino)[p]
  {
    hide Superblock.Valid, Ptr, Blocks, Start, BlockSize, InodeMeta, InodeSeparate, Covers, Bytes, Run,
      OnlyWrote, Apart, Placed, BlockByte;
    var k := LbOf(g, p);
    StartMonotone(g, k, lb);
    CoversHas(FileExtents(g, d, ino)[..lb], k);
    ByteFrame(g, d, e, ino, Run(y.at, y.n), k, p - Start(g, k));
  }

  lemma LastByte(g: Geometry, d: seq<byte>, free: set<nat>, ino: Inode, e: seq<byte>, free': set<nat>, out: Inode,
                 x: Extent, y: Extent, more: seq<byte>, p: nat)
    requires ino.Shaped() && DirGeometry(g) && GrownTo(g, d, free, ino, e, free', out, x, y, more)
    requires (x.n > 0 ==> x.at != 0 && Placed(g, x.at, x.n)) && |d| == g.Off(g.fragCount)
    requires p < out.size && LbOf(g, p) >= LbOf(g, ino.size)
    requires forall j: nat :: Ptr(g, e, out, j) == if j == LbOf(g, ino.size) then y.at else Ptr(g, d, ino, j)
    ensures FileBytes(g, e, out)[p] == (FileBytes(g, d, ino) + more)[p]
  {
    hide Superblock.Valid, Superblock.Off, Ptr, Blocks, Start, BlockSize, Bytes, Run, Placed, BlockByte, FragsOf, Sectors;
    var lb := LbOf(g, ino.size);
    var o: nat := ino.size - Start(g, lb);
    GrownBlocks(g, ino.size);
    BlockBound(g, out.size, lb);
    StartMonotone(g, lb, LbOf(g, p));
    LbUnique(g, p, lb);
    OnlyWroteSize(g, d, e, Run(y.at, y.n));
    PlacedNonZero(g, y.at, y.n);
    DirectPtr(g, d, ino, lb);
    BlockByteIs(g, e, y.at, y.n, p - Start(g, lb));
    if p < ino.size {
      FragsOfZero(g, o);
      PlacedNonZero(g, x.at, x.n);
      BlockByteIs(g, d, x.at, x.n, p - Start(g, lb));
      assert Bytes(g, e, y.at, y.n)[..o][p - Start(g, lb)] == Bytes(g, d, x.at, x.n)[..o][p - Start(g, lb)];
    } else {
      assert Bytes(g, e, y.at, y.n)[o..o + DIRBLKSIZ][p - ino.size] == more[p - ino.size];
    }
  }

  lemma TailRun(f: nat, a: nat, b: nat)
    requires a <= b
    ensures Run(f, b) == Run(f, a) + Tail(f, a, b) && Run(f, a) !! Tail(f, a, b)
  {
    RunMembers(f, a);
    RunMembers(f, b);
    RunMembers(f + a, b - a);
  }

  lemma OneFragHolds(g: Geometry)
    requires DirGeometry(g)
    ensures FragsOf(g, 0) == 0 && FragsOf(g, DIRBLKSIZ) == 1
  {
    CeilDiv(DIRBLKSIZ, g.fragSize, 0);
    CeilDiv(DIRBLKSIZ, g.fragSize, 1);
    FragsOfZero(g, 0);
  }

  /** The fragments of n bytes hold n bytes. */
  lemma FragsOfHold(g: Geometry, n: nat)
    ensures n <= g.Off(FragsOf(g, n))
    ensures n <= BlockSize(g) ==> FragsOf(g, n) <= g.fpb
  {
    CeilDiv(n, g.fragSize, FragsOf(g, n));
    CeilDiv(n, g.fragSize, g.fpb);
  }

  /** The growth cannot be had: the run cannot be extended in place, and no group fits a new one. */
  ghost predicate CannotGrow(g: Geometry, groups: seq<CylGroup>, ino: Inode)
    requires ino.Shaped() && |groups| == g.ncg
  {
    var lb, o := LbOf(g, ino.size), ino.size - Start(g, LbOf(g, ino.size));
    var a, b := FragsOf(g, o), FragsOf(g, o + DIRBLKSIZ);
    lb >= NDADDR ||
    (a < b && (forall k | 0 <= k < g.ncg :: !GroupFits(g, groups[k].free, b))
     && (o > 0 && g.GroupOf(ino.db[lb]) < |groups| ==> !CanExtend(g, groups, ino.db[lb], a, b)))
  }

  /** The last run of a directory, as the growing code finds it. */
  lemma LastRun(g: Geometry, d: seq<byte>, free: set<nat>, ino: Inode)
    requires FileOk(g, d, ino) && |d| == g.Off(g.fragCount) && DirGeometry(g) && IsDir(g, d, ino)
    requires Owned(g, d, ino) !! free && LbOf(g, ino.size) < NDADDR && ino.size > Start(g, LbOf(g, ino.size))
    ensures var lb := LbOf(g, ino.size); var n := FragsOf(g, ino.size - Start(g, lb));
            && ino.db[lb] != 0 && Placed(g, ino.db[lb], n) && ino.db[lb] + n <= g.fragCount
            && Run(ino.db[lb], n) <= Owned(g, d, ino) && Run(ino.db[lb], n) !! free && n > 0
            && g.GroupOf(ino.db[lb]) < g.ncg && ino.size - Start(g, lb) + DIRBLKSIZ <= BlockSize(g)
  {
    hide Superblock.Valid, Superblock.Off, FileBytes, DirTiled, Start, BlockSize, Chunk, Placed, Bytes, Covers, InodeMeta,
      InodeSeparate, Ptr, Blocks, Run;
    var lb := LbOf(g, ino.size);
    SplitDir(FileBytes(g, d, ino));
    GrownBlocks(g, ino.size);
    DirDense(g, d, ino);
    DirectPtr(g, d, ino, lb);
    assert FileExtents(g, d, ino)[lb] == Extent(ino.db[lb], FragsOf(g, ino.size - Start(g, lb)));
    ExtentPlaced(g, d, ino, lb);
    CoversHas(FileExtents(g, d, ino), lb);
    FragsOfZero(g, ino.size - Start(g, lb));
    PlacedParts(g, ino.db[lb], FragsOf(g, ino.size - Start(g, lb)));
  }

  lemma MovedNew(g: Geometry, d: seq<byte>, free: set<nat>, x: Extent, free': set<nat>, y: Extent)
    requires x.n == 0 && Placed(g, y.at, y.n) && Run(y.at, y.n) <= free && free' == free - Run(y.at, y.n)
    ensures Moved(g, d, free, x, d, free', y, 0)
  {
    hide Superblock.Valid, Placed, Bytes;
    assert Run(x.at, 0) == {};
  }

  lemma MovedInPlace(g: Geometry, d: seq<byte>, free: set<nat>, x: Extent, free': set<nat>, y: Extent, o: nat)
    requires |d| == g.Off(g.fragCount) && y.at == x.at && x.n <= y.n && o <= g.Off(x.n)
    requires Placed(g, y.at, y.n) && Run(x.at, x.n) !! free && y.at + x.n <= g.fragCount
    requires free' == free - Tail(x.at, x.n, y.n) && Tail(x.at, x.n, y.n) <= free
    ensures Moved(g, d, free, x, d, free', y, o)
  {
    hide Superblock.Valid, Placed, Bytes, Run, Tail, Superblock.Off;
    TailRun(x.at, x.n, y.n);
    PlacedNonZero(g, y.at, y.n);
    BytesFit(g, d, x.at, x.n);
    BytesFit(g, d, y.at, y.n);
    g.OffMonotone(x.n, y.n);
    BytesPrefix(g, d, x.at, x.n, y.n, o);
  }

  lemma BytesPrefix(g: Geometry, d: seq<byte>, at: nat, a: nat, b: nat, o: nat)
    requires o <= |Bytes(g, d, at, a)| && o <= |Bytes(g, d, at, b)|
    ensures Bytes(g, d, at, b)[..o] == Bytes(g, d, at, a)[..o]
  {
  }

  lemma MovedCopy(g: Geometry, d: seq<byte>, free: set<nat>, x: Extent, e: seq<byte>, free': set<nat>, y: Extent, o: nat)
    requires |d| == g.Off(g.fragCount) && x.at + x.n <= g.fragCount && o <= g.Off(x.n)
    requires Placed(g, y.at, y.n) && Run(x.at, x.n) !! free && Run(y.at, y.n) <= free
    requires free' == free - Run(y.at, y.n) + Run(x.at, x.n) && OnlyWrote(g, d, e, Run(y.at, y.n))
    requires |Bytes(g, d, x.at, x.n)| <= g.Off(y.n)
    requires Bytes(g, e, y.at, y.n) == ZeroPadded(Bytes(g, d, x.at, x.n), g.Off(y.n))
    ensures Moved(g, d, free, x, e, free', y, o)
  {
    hide Superblock.Valid, Placed, Bytes, Run, Superblock.Off, OnlyWrote;
    BytesFit(g, d, x.at, x.n);
    ZeroPaddedPrefix(Bytes(g, d, x.at, x.n), g.Off(y.n), o);
  }

  lemma ZeroPaddedPrefix(bs: seq<byte>, n: nat, o: nat)
    requires o <= |bs| <= n
    ensures ZeroPadded(bs, n)[..o] == bs[..o]
  {
  }

  /** Where the directory's next block goes: the run it has, extended or moved if need be. */
  method PlaceBlock(img: Image, node: Inode, lb: nat, o: nat, preferred: nat) returns (rc: Rc, frag: nat)
    requires img.Valid() && FileOk(img.g, img.disk, node) && Owned(img.g, img.disk, node) !! img.Free()
    requires DirGeometry(img.g) && IsDir(img.g, img.disk, node)
    requires lb == LbOf(img.g, node.size) < NDADDR && o == node.size - Start(img.g, lb)
    modifies img`groups, img`csum, img`total, img`disk
    ensures img.Valid() && SameInodes(old(img.groups), img.groups)
    ensures rc == if CannotGrow(img.g, old(img.groups), node) then NoSpace else Ok
    ensures rc != Ok ==> img.groups == old(img.groups) && img.disk == old(img.disk)
    ensures rc == Ok ==>
      var x, y := Extent(node.db[lb], FragsOf(img.g, o)), Extent(frag, FragsOf(img.g, o + DIRBLKSIZ));
      Moved(img.g, old(img.disk), old(img.Free()), x, img.disk, img.Free(), y, o)
  {
    hide Superblock.Valid, Superblock.Off, CylGroup.Valid, FileBytes, DirTiled, Start, BlockSize, Dense, Blocks, Chunk,
      FreeSet, Apart, Bytes, Splice, FragsFor, Covers, InodeMeta, InodeSeparate, Placed, Run, FileOk, Owned, FragsOf,
      GroupFits, CanExtend, Superblock.GroupOf, OnlyWrote, SameInodes, Moved, Allotted, Tail, SumOf;
    SameInodesRefl(img.groups);
    ghost var d, free := img.disk, img.Free();
    ghost var x := Extent(node.db[lb], FragsOf(img.g, o));
    if o == 0 {
      OneFragHolds(img.g);
      ghost var c, block;
      rc, frag, c, block := AllocateFragsAnyCg(img, preferred, 1);
      if rc == Ok {
        MovedNew(img.g, d, free, x, img.Free(), Extent(frag, 1));
      }
      return;
    }
    LastRun(img.g, img.disk, img.Free(), node);
    FragsOfHold(img.g, o);
    rc, frag := MoveRun(img, node.db[lb], o, preferred);
  }

  /** The growing code's second branch: the last block is partly filled. */
  method MoveRun(img: Image, at: nat, o: nat, preferred: nat) returns (rc: Rc, frag: nat)
    requires img.Valid() && Placed(img.g, at, FragsOf(img.g, o)) && Run(at, FragsOf(img.g, o)) !! img.Free()
    requires at + FragsOf(img.g, o) <= img.g.fragCount && o + DIRBLKSIZ <= BlockSize(img.g) && img.g.GroupOf(at) < |img.groups|
    modifies img`groups, img`csum, img`total, img`disk
    ensures img.Valid() && SameInodes(old(img.groups), img.groups)
    ensures var a, b := FragsOf(img.g, o), FragsOf(img.g, o + DIRBLKSIZ);
            && a <= b
            && rc == if a < b && (forall k | 0 <= k < img.g.ncg :: !GroupFits(img.g, old(img.groups)[k].free, b))
                        && !CanExtend(img.g, old(img.groups), at, a, b) then NoSpace else Ok
    ensures rc != Ok ==> img.groups == old(img.groups) && img.disk == old(img.disk)
    ensures rc == Ok ==>
      var x, y := Extent(at, FragsOf(img.g, o)), Extent(frag, FragsOf(img.g, o + DIRBLKSIZ));
      Moved(img.g, old(img.disk), old(img.Free()), x, img.disk, img.Free(), y, o)
  {
    hide Superblock.Valid, Superblock.Off, CylGroup.Valid, BlockSize,
      FreeSet, Bytes, Placed, Run, FragsOf,
      GroupFits, CanExtend, Superblock.GroupOf, OnlyWrote, SameInodes, Moved, Allotted, Tail, SumOf;
    SameInodesRefl(img.groups);
    ghost var d, free := img.disk, img.Free();
    var oldN, newN := FragsOf(img.g, o), FragsOf(img.g, o + DIRBLKSIZ);
    frag := at;
    FragsOfMonotone(img.g, o, DIRBLKSIZ);
    FragsOfHold(img.g, o);
    FragsOfHold(img.g, o + DIRBLKSIZ);
    if newN > oldN {
      rc := ExtendFragmentRun(img, frag, oldN, newN);
      if rc == NoSpace {
        ghost var was := img.groups;
        rc, frag := ReallocateFragmentRun(img, frag, oldN, newN, preferred);
        if rc == Ok {
          MovedCopy(img.g, d, free, Extent(at, oldN), img.disk, img.Free(), Extent(frag, newN), o);
        }
        return;
      }
      MovedInPlace(img.g, d, free, Extent(at, oldN), img.Free(), Extent(at, newN), o);
      return;
    }
    TailNone(at, oldN);
    MovedInPlace(img.g, d, free, Extent(at, oldN), img.Free(), Extent(at, newN), o);
    return Ok, frag;
  }

  lemma TailNone(f: nat, n: nat)
    ensures Tail(f, n, n) == {}
  {
  }

  /** Relocated, with the address and offset the new block is to be written at. */
  ghost predicate Grew(g: Geometry, d: seq<byte>, free: set<nat>, ino: Inode,
                       e: seq<byte>, free': set<nat>, out: Inode, frag: nat, o: nat)
  {
    && ino.Shaped() && LbOf(g, ino.size) < NDADDR && o == ino.size - Start(g, LbOf(g, ino.size))
    && Relocated(g, d, free, ino, e, free', out, Extent(ino.db[LbOf(g, ino.size)], FragsOf(g, o)),
                 Extent(frag, FragsOf(g, o + DIRBLKSIZ)))
  }

  /** nextufs__grow_directory_by_dirblk: one more directory block, its inode stored. */
  method GrowDirectory(img: Image, dir: nat) returns (rc: Rc, frag: nat, o: nat)
    requires img.Valid() && dir < |img.inodes| && IsDir(img.g, img.disk, img.inodes[dir]) && DirGeometry(img.g)
    requires FileOk(img.g, img.disk, img.inodes[dir]) && Owned(img.g, img.disk, img.inodes[dir]) !! img.Free()
    modifies img`groups, img`csum, img`total, img`disk, img`inodes
    ensures img.Valid() && SameInodes(old(img.groups), img.groups) && |img.inodes| == old(|img.inodes|)
    ensures rc == if LbOf(img.g, old(img.inodes[dir].size)) >= NDADDR then TooBig
                  else if CannotGrow(img.g, old(img.groups), old(img.inodes[dir])) then NoSpace else Ok
    ensures rc != Ok ==> img.groups == old(img.groups) && img.disk == old(img.disk) && img.inodes == old(img.inodes)
    ensures rc == Ok ==>
      && img.inodes == old(img.inodes)[dir := img.inodes[dir]]
      && Grew(img.g, old(img.disk), old(img.Free()), old(img.inodes[dir]), img.disk, img.Free(), img.inodes[dir], frag, o)
  {
    hide Superblock.Valid, Superblock.Off, CylGroup.Valid, FileBytes, DirTiled, Start, BlockSize, Dense, Blocks, Chunk,
      FreeSet, Apart, Bytes, Splice, FragsFor, Covers, InodeMeta, InodeSeparate, Placed, Run, Owned, FragsOf,
      OnlyWrote, SameInodes, Moved, SumOf, CannotGrow;
    SameInodesRefl(img.groups);
    var node := img.inodes[dir];
    SplitDir(FileBytes(img.g, img.disk, node));
    var lb := LbOf(img.g, node.size);
    o := node.size - Start(img.g, lb);
    frag := 0;
    if lb >= NDADDR {
      return TooBig, 0, 0;
    }
    rc, frag := PlaceBlock(img, node, lb, o, dir / img.g.inodesPerGroup);
    if rc == Ok {
      img.inodes := img.inodes[dir := node.(db := node.db[lb := frag], size := node.size + DIRBLKSIZ,
        blocks := node.blocks + Sectors(img.g, FragsOf(img.g, o), FragsOf(img.g, o + DIRBLKSIZ)))];
    }
  }

  /** Last, the new directory block is written at its place. */
  lemma GrownAndWritten(g: Geometry, d: seq<byte>, free: set<nat>, ino: Inode, e: seq<byte>, e': seq<byte>, free': set<nat>,
                        out: Inode, x: Extent, y: Extent, more: seq<byte>)
    requires FileOk(g, d, ino) && |d| == g.Off(g.fragCount) && DirGeometry(g) && |more| == DIRBLKSIZ
    requires Relocated(g, d, free, ino, e, free', out, x, y) && OnlyWrote(g, e, e', Run(y.at, y.n))
    requires var o := ino.size - Start(g, LbOf(g, ino.size));
             o + DIRBLKSIZ <= |Bytes(g, e, y.at, y.n)| && Bytes(g, e', y.at, y.n) == Splice(Bytes(g, e, y.at, y.n), o, more)
    ensures GrownTo(g, d, free, ino, e', free', out, x, y, more)
  {
    hide Superblock.Valid, Superblock.Off, InodeMeta, InodeSeparate, Placed, Run, Bytes, OnlyWrote, Apart, FragsOf, Covers;
    OnlyWroteTrans(g, d, e, e', Run(y.at, y.n), Run(y.at, y.n));
    assert Run(y.at, y.n) + Run(y.at, y.n) == Run(y.at, y.n);
    SpliceParts(Bytes(g, e, y.at, y.n), ino.size - Start(g, LbOf(g, ino.size)), more);
  }

  lemma SpliceParts(b: seq<byte>, o: nat, more: seq<byte>)
    requires o + |more| <= |b|
    ensures Splice(b, o, more)[..o] == b[..o] && Splice(b, o, more)[o..o + |more|] == more
  {
  }

  /** A view gains an entry: the directory's bytes change, begin as they did, and list one name
      more. */
  ghost predicate WithEntry(was: seq<View>, now: seq<View>, dir: nat, e: Entry) {
    && dir < |was| == |now|
    && now == was[dir := was[dir].(bytes := now[dir].bytes)]
    && DirTiled(now[dir].bytes) && Inserted(Listing(was[dir].bytes), Listing(now[dir].bytes), e)
    && KeepsDots(Records(was[dir].bytes), Records(now[dir].bytes)) && KeepsForm(was[dir].bytes, now[dir].bytes)
  }

  /** The last part of nextufs__insert_dirent: the entry gets a directory block of its own. */
  method InsertInNewBlock(img: Image, dir: nat, name: seq<byte>, ino: nat) returns (rc: Rc)
    requires img.Valid() && Sound(img.g, img.groups, img.inodes, img.disk) && dir < |img.inodes|
    requires IsDir(img.g, img.disk, img.inodes[dir]) && DirGeometry(img.g) && NameOk(name) && 0 < ino < 0x1_0000_0000
    modifies img`groups, img`csum, img`total, img`disk, img`inodes
    ensures img.Valid() && Sound(img.g, img.groups, img.inodes, img.disk) && SameInodes(old(img.groups), img.groups)
    ensures rc == if CannotGrow(img.g, old(img.groups), old(img.inodes[dir])) then NoSpace else Ok
    ensures rc != Ok ==> img.groups == old(img.groups) && img.disk == old(img.disk) && img.inodes == old(img.inodes)
    ensures rc == Ok ==> WithEntry(old(Views(img.g, img.disk, img.inodes)), Views(img.g, img.disk, img.inodes), dir, Entry(name, ino))
    ensures Carried(img.g, old(img.groups), old(img.inodes), old(img.disk), img.groups, img.inodes, img.disk)
  {
    hide Superblock.Valid, Superblock.Off, CylGroup.Valid, FileBytes, DirTiled, Start, BlockSize, Dense, Blocks, Chunk,
      FreeSet, Apart, Bytes, Splice, FragsFor, Covers, InodeMeta, InodeSeparate, Placed, Run, Owned, FragsOf,
      OnlyWrote, SameInodes, SumOf, CannotGrow, Relocated, GrownTo, Sound, Views, Inserted, DirentRaw, List, Records,
      FileOk, CountsOwned, TooLong, KeepsDots, Carried, Kempt;
    CarriedNothing(img.g, img.groups, img.inodes, img.disk);
    ghost var d, free, groups0, inodes0 := img.disk, img.Free(), img.groups, img.inodes;
    var node := img.inodes[dir];
    var frag, o;
    SoundAt(img.g, img.groups, img.inodes, img.disk, dir);
    rc, frag, o := GrowDirectory(img, dir);
    if rc != Ok {
      assert CannotGrow(img.g, groups0, node) by { TooBigCannotGrow(img.g, groups0, node); }
      return NoSpace;
    }
    ghost var e, x, y := img.disk, Extent(node.db[LbOf(img.g, node.size)], FragsOf(img.g, o)), Extent(frag, FragsOf(img.g, o + DIRBLKSIZ));
    var more := DirentRaw(Dirent(ino, DIRBLKSIZ, name));
    RoomForMore(img.g, d, free, node, e, img.Free(), img.inodes[dir], x, y);
    img.WriteExact(frag, y.n, o, more);
    GrownAndWritten(img.g, d, free, node, e, img.disk, img.Free(), img.inodes[dir], x, y, more);
    GrownSound(img.g, groups0, inodes0, d, img.groups, img.disk, dir, img.inodes[dir], x, y, more);
    RawRecord(Dirent(ino, DIRBLKSIZ, name));
    AppendedEntry(FileBytes(img.g, d, node), Dirent(ino, DIRBLKSIZ, name));
    ViewsAt(img.g, d, inodes0);
  }

  lemma TooBigCannotGrow(g: Geometry, groups: seq<CylGroup>, ino: Inode)
    requires ino.Shaped() && |groups| == g.ncg
    ensures LbOf(g, ino.size) >= NDADDR ==> CannotGrow(g, groups, ino)
  {
    hide Superblock.Valid, Start, BlockSize;
  }

  lemma RoomForMore(g: Geometry, d: seq<byte>, free: set<nat>, ino: Inode, e: seq<byte>, free': set<nat>, out: Inode, x: Extent, y: Extent)
    requires FileOk(g, d, ino) && |e| == g.Off(g.fragCount) && DirGeometry(g)
    requires Relocated(g, d, free, ino, e, free', out, x, y)
    ensures y.at + y.n <= g.fragCount && g.fragSize > 0
    ensures var o := ino.size - Start(g, LbOf(g, ino.size));
            o + DIRBLKSIZ <= g.Off(y.n) == |Bytes(g, e, y.at, y.n)|
  {
    hide Superblock.Valid, Superblock.Off, InodeMeta, InodeSeparate, Placed, Run, Bytes, OnlyWrote, Apart, FragsOf, Covers;
    PlacedNonZero(g, y.at, y.n);
    BytesFit(g, e, y.at, y.n);
    FragsOfHold(g, ino.size - Start(g, LbOf(g, ino.size)) + DIRBLKSIZ);
  }

  lemma AppendedEntry(f: seq<byte>, r: Dirent)
    requires DirTiled(f) && r.Fits() && r.ino != 0 && r.ino < 0x1_0000_0000 && r.reclen == DIRBLKSIZ
    ensures DirTiled(f + DirentRaw(r)) && Inserted(Listing(f), Listing(f + DirentRaw(r)), Entry(r.name, r.ino))
    ensures KeepsDots(Records(f), Records(f + DirentRaw(r))) && (|r.name| <= MAX_NAME ==> KeepsForm(f, f + DirentRaw(r)))
  {
    hide Tiled, DirTiled, Records, DirentRaw, List, KeepsDots, Kempt;
    AppendKeepsDots(f, DirentRaw(r));
    RawRecord(r);
    if |r.name| <= MAX_NAME {
      KemptRaw(r);
      DirTiledTiled(f);
      KemptConcat(f, DirentRaw(r));
    }
    OneDirblk(DirentRaw(r));
    SplitDirEmpty();
    EmptyRecords([]);
    ListingParts(f, DirentRaw(r), []);
    assert f + DirentRaw(r) + [] == f + DirentRaw(r);
    ListOne(r);
    ListUnused([]);
    var was := Listing(f);
    assert Listing(f + DirentRaw(r)) == was[..|was|] + [Entry(r.name, r.ino)] + was[|was|..];
  }

  lemma AppendKeepsDots(f: seq<byte>, b: seq<byte>)
    requires DirTiled(f)
    ensures KeepsDots(Records(f), Records(f + b))
  {
    hide Tiled, DirTiled, Records;
    SplitDir(f);
    DirTiledTiled(f);
    TiledConcat(f, b);
    if f == [] {
      EmptyRecords(f);
    } else {
      DotsConcat(f, Records(b));
    }
  }

  lemma GrownSound(g: Geometry, groups: seq<CylGroup>, inodes: seq<Inode>, d: seq<byte>,
                   groups': seq<CylGroup>, e: seq<byte>, dir: nat, out: Inode, x: Extent, y: Extent, more: seq<byte>)
    requires Sound(g, groups, inodes, d) && dir < |inodes| && |d| == g.Off(g.fragCount) && DirGeometry(g)
    requires IsDir(g, d, inodes[dir]) && SameInodes(groups, groups')
    requires FileOk(g, d, inodes[dir])
    requires GrownTo(g, d, FreeSet(g, groups), inodes[dir], e, FreeSet(g, groups'), out, x, y, more)
    ensures Sound(g, groups', inodes[dir := out], e)
    ensures Views(g, e, inodes[dir := out])
         == Views(g, d, inodes)[dir := Views(g, d, inodes)[dir].(bytes := FileBytes(g, d, inodes[dir]) + more)]
    ensures Carried(g, groups, inodes, d, groups', inodes[dir := out], e)
  {
    hide Superblock.Valid, FileOk, Owned, TooLong, OnlyWrote, FreeSet, FileBytes, InUse, SameInodes, Sound, GrownTo, CountsOwned,
      DirTiled, Run, Start, FragsOf, Ptr, Covers, Blocks, Chunk, FragsFor, Carried, Kept;
    var ino, free := inodes[dir], FreeSet(g, groups);
    SoundAt(g, groups, inodes, d, dir);
    InUseKept(g, groups, groups');
    GrownParts(g, d, free, ino, e, FreeSet(g, groups'), out, x, y, more);
    OldRun(g, d, free, ino, e, FreeSet(g, groups'), out, x, y, more);
    GrownFile(g, d, free, ino, e, FreeSet(g, groups'), out, x, y, more);
    GrownBytes(g, d, free, ino, e, FreeSet(g, groups'), out, x, y, more);
    Replaced(g, groups, inodes, d, groups', e, dir, out, Run(y.at, y.n));
    if Kept(g, d, ino) {
      GrownKept(g, d, free, ino, e, FreeSet(g, groups'), out, x, y, more);
    }
    ReplacedCarries(g, groups, inodes, d, groups', e, dir, out, Run(y.at, y.n));
    ViewsAt(g, d, inodes);
  }

  /** A directory that grew is as the writer leaves it if it was before. */
  lemma GrownKept(g: Geometry, d: seq<byte>, free: set<nat>, ino: Inode, e: seq<byte>, free': set<nat>, out: Inode,
                  x: Extent, y: Extent, more: seq<byte>)
    requires FileOk(g, d, ino) && GrownTo(g, d, free, ino, e, free', out, x, y, more) && DirGeometry(g)
    requires Run(y.at, y.n) !! InodeMeta(g, d, ino) && ino.kind == Directory && Kept(g, d, ino)
    ensures Kept(g, e, out)
  {
    hide Superblock.Valid, InodeSeparate, InodeMeta, Covers, Blocks, Chunk, OnlyWrote, Apart, Run, Snug, Start, FragsOf, Sectors, Moved, BlockSize,
      TreeOf;
    GrownBlocks(g, ino.size);
    var lb, n := LbOf(g, ino.size), Blocks(g, ino.size);
    var mid := ino.(db := ino.db[lb := y.at]);
    MovedTo(g, d, free, ino, e, free', out, x, y, more);
    if lb == n {
      SnugDirect(g, d, ino, lb, y.at);
    } else {
      SnugAgain(g, d, ino, lb, y.at, n);
    }
    SameTrees(g, d, ino, mid);
    SnugFrame(g, d, e, mid, Run(y.at, y.n), lb + 1);
    SnugFields(g, e, mid, out, lb + 1);
  }

  lemma MovedTo(g: Geometry, d: seq<byte>, free: set<nat>, ino: Inode, e: seq<byte>, free': set<nat>, out: Inode,
                x: Extent, y: Extent, more: seq<byte>)
    requires ino.Shaped() && GrownTo(g, d, free, ino, e, free', out, x, y, more)
    ensures y.at != 0 && OnlyWrote(g, d, e, Run(y.at, y.n))
  {
    hide Superblock.Valid, OnlyWrote, Run, Placed, Bytes, Start, FragsOf;
    PlacedNonZero(g, y.at, y.n);
  }

  /** Another fragment for a block that is mapped already. */
  lemma SnugAgain(g: Geometry, d: seq<byte>, ino: Inode, lb: nat, v: nat, m: nat)
    requires ino.Shaped() && lb < NDADDR && lb < m && v != 0 && Snug(g, d, ino, m)
    ensures Snug(g, d, ino.(db := ino.db[lb := v]), m)
  {
    hide Superblock.Valid, SlotPart, TreeOf, Packed;
    var out := ino.(db := ino.db[lb := v]);
    assert forall s: nat | s < NIADDR :: SlotTree(g, d, out, s) == SlotTree(g, d, ino, s);
  }

  /** A partly filled last block has a fragment address. */
  lemma OldRun(g: Geometry, d: seq<byte>, free: set<nat>, ino: Inode, e: seq<byte>, free': set<nat>, out: Inode,
               x: Extent, y: Extent, more: seq<byte>)
    requires FileOk(g, d, ino) && GrownTo(g, d, free, ino, e, free', out, x, y, more) && DirGeometry(g)
    requires IsDir(g, d, ino) && |d| == g.Off(g.fragCount) && Owned(g, d, ino) !! free
    ensures x.n > 0 ==> x.at != 0
  {
    hide Superblock.Valid, FileOk, Owned, FileBytes, DirTiled, Run, Start, FragsOf, Ptr, Covers, Blocks, Chunk, FragsFor, Moved;
    if x.n > 0 {
      FragsOfZero(g, ino.size - Start(g, LbOf(g, ino.size)));
      LastRun(g, d, free, ino);
    }
  }

  // ---- whole-directory scans ----

  /** Start of block lb, or the end of a shorter file. */
  ghost function Upto(g: Geometry, size: nat, lb: nat): (n: nat)
    ensures n <= size
  {
    Min(Start(g, lb), size)
  }

  lemma UptoIs(g: Geometry, size: nat, lb: nat)
    requires lb < Blocks(g, size)
    ensures Start(g, lb) + Chunk(g, size, lb) <= size
    ensures Upto(g, size, lb) == Start(g, lb) && Upto(g, size, lb + 1) == Start(g, lb) + Chunk(g, size, lb)
  {
    hide Superblock.Valid, Blocks, BlockSize, Start;
    ChunkBounds(g, size, lb);
    StartNext(g, lb);
  }

  /** A block's end is a directory-block boundary. */
  lemma ChunkAligned(g: Geometry, size: nat, lb: nat)
    requires DirGeometry(g) && size % DIRBLKSIZ == 0 && lb < Blocks(g, size)
    ensures Start(g, lb) % DIRBLKSIZ == 0 && Chunk(g, size, lb) % DIRBLKSIZ == 0
    ensures (Start(g, lb) + Chunk(g, size, lb)) % DIRBLKSIZ == 0
  {
    hide Superblock.Valid, Blocks, BlockSize, Start;
    ChunkBounds(g, size, lb);
    BlockAligned(g, lb);
  }

  lemma SplitThree(f: seq<byte>, a: nat, n: nat)
    requires a + n <= |f|
    ensures f == f[..a] + f[a..a + n] + f[a + n..] && f[..a + n] == f[..a] + f[a..a + n]
    ensures f[a..][..n] == f[a..a + n]
  {
  }

  /** A directory split around one of its blocks. */
  lemma AroundBlock(g: Geometry, f: seq<byte>, lb: nat)
    requires DirTiled(f) && DirGeometry(g) && lb < Blocks(g, |f|)
    ensures var a, n := Start(g, lb), Chunk(g, |f|, lb);
            && a + n <= |f| && DirTiled(f[..a]) && DirTiled(f[a..a + n]) && DirTiled(f[a + n..]) && DirTiled(f[..a + n])
            && f == f[..a] + f[a..a + n] + f[a + n..] && f[..a + n] == f[..a] + f[a..a + n]
            && Upto(g, |f|, lb) == a && Upto(g, |f|, lb + 1) == a + n
            && Records(f[..a + n]) == Records(f[..a]) + Records(f[a..a + n])
            && Records(f) == Records(f[..a]) + Records(f[a..a + n]) + Records(f[a + n..])
            && Listing(f) == Listing(f[..a]) + Listing(f[a..a + n]) + Listing(f[a + n..])
  {
    hide Superblock.Valid, Tiled, DirTiled, Records, List, Blocks, Start, BlockSize, Chunk, Upto;
    var a, n := Start(g, lb), Chunk(g, |f|, lb);
    UptoIs(g, |f|, lb);
    SplitDir(f);
    ChunkAligned(g, |f|, lb);
    DirAt(f, a);
    DirAt(f, a + n);
    SplitThree(f, a, n);
    DirAt(f[a..], n);
    ListingParts(f[..a], f[a..a + n], f[a + n..]);
    DirTiledTiled(f[..a]);
    TiledConcat(f[..a], f[a..a + n]);
  }

  lemma NoRoomIs(f: seq<byte>, need: nat)
    ensures NoRoom(f, need) <==> !exists r :: r in Records(f) && HasRoom(r, need)
  {
  }

  /** No record a new name could use, and no block for it either. */
  ghost predicate Full(g: Geometry, groups: seq<CylGroup>, ino: Inode, f: seq<byte>, need: nat)
    requires ino.Shaped() && |groups| == g.ncg
  {
    NoRoom(DirectPart(g, f), need) && (NoRoom(f, need) ==> CannotGrow(g, groups, ino))
  }

  /** No direct block has room, and the directory cannot have another one. */
  ghost predicate AtLimit(g: Geometry, f: seq<byte>, need: nat) {
    NoRoom(DirectPart(g, f), need) && (NoRoom(f, need) ==> LbOf(g, |f|) >= NDADDR)
  }

  /** As long as a whole block is free, only a directory at its limit is full. */
  lemma FullAtLimit(g: Geometry, groups: seq<CylGroup>, ino: Inode, f: seq<byte>, need: nat)
    requires ino.Shaped() && |groups| == g.ncg && ino.size == |f| && DirGeometry(g) && DirTiled(f)
    ensures AtLimit(g, f, need) ==> Full(g, groups, ino, f, need)
    ensures Full(g, groups, ino, f, need) && Wholes(g, groups) > 0 ==> AtLimit(g, f, need)
  {
    hide Superblock.Valid, Wholes, NoRoom, DirectPart, DirTiled, BlockSize, Start, PartlyFits, GroupFits, CanExtend, FragsOf;
    SplitDir(f);
    GrownBlocks(g, |f|);
    var o := |f| - Start(g, LbOf(g, |f|));
    FragsOfHold(g, o + DIRBLKSIZ);
    FragsOfZero(g, o + DIRBLKSIZ);
    NoneFits(g, groups, FragsOf(g, o + DIRBLKSIZ));
  }

  /** nextufs__insert_dirent. */
  method InsertDirent(img: Image, dir: nat, name: seq<byte>, ino: nat) returns (rc: Rc)
    requires img.Valid() && Sound(img.g, img.groups, img.inodes, img.disk) && dir < |img.inodes|
    requires IsDir(img.g, img.disk, img.inodes[dir]) && DirGeometry(img.g) && NameOk(name) && 0 < ino < 0x1_0000_0000
    modifies img`groups, img`csum, img`total, img`disk, img`inodes
    ensures img.Valid() && Sound(img.g, img.groups, img.inodes, img.disk) && SameInodes(old(img.groups), img.groups)
    ensures rc == if Full(img.g, old(img.groups), old(img.inodes[dir]), old(Views(img.g, img.disk, img.inodes)[dir].bytes),
                          DirentSize(|name|)) then NoSpace else Ok
    ensures rc != Ok ==> img.groups == old(img.groups) && img.disk == old(img.disk) && img.inodes == old(img.inodes)
    ensures !NoRoom(DirectPart(img.g, old(Views(img.g, img.disk, img.inodes)[dir].bytes)), DirentSize(|name|)) ==>
              img.groups == old(img.groups) && img.inodes == old(img.inodes)
    ensures rc == Ok ==> WithEntry(old(Views(img.g, img.disk, img.inodes)), Views(img.g, img.disk, img.inodes), dir, Entry(name, ino))
    ensures Carried(img.g, old(img.groups), old(img.inodes), old(img.disk), img.groups, img.inodes, img.disk)
  {
    hide Superblock.Valid, Superblock.Off, CylGroup.Valid, FileBytes, DirTiled, Start, BlockSize, Dense, Blocks, Chunk,
      FreeSet, SameInodes, CannotGrow, Sound, Views, Inserted, List, Records, FileOk, TooLong, NoRoom, DirectPart, Left, Owned,
      CountsOwned, Upto, WithEntry, KeepsDots, Carried, Kempt, KeepsForm;
    CarriedNothing(img.g, img.groups, img.inodes, img.disk);
    SameInodesRefl(img.groups);
    SoundAt(img.g, img.groups, img.inodes, img.disk, dir);
    ViewsAt(img.g, img.disk, img.inodes);
    var node := img.inodes[dir];
    ghost var f := FileBytes(img.g, img.disk, node);
    ghost var need := DirentSize(|name|);
    var remaining, lb := node.size, 0;
    LeftNext(img.g, node.size, 0);
    NoRoomYet(img.g, f, need);
    while remaining > 0
      invariant img.Valid() && img.groups == old(img.groups) && img.disk == old(img.disk) && img.inodes == old(img.inodes)
      invariant remaining == Left(img.g, node.size, lb)
      invariant NoRoom(f[..Upto(img.g, node.size, lb)], need)
      decreases remaining
    {
      BlocksIs(img.g, node.size, lb);
      LeftNext(img.g, node.size, lb);
      ChunkBounds(img.g, node.size, lb);
      AroundBlock(img.g, f, lb);
      var chunk := ReadDirBlock(img, node, lb);
      var found, out := InsertInBlock(chunk, name, ino);
      NoRoomIs(chunk, need);
      RoomSplit(img.g, f, lb, need);
      if found {
        if lb >= NDADDR {
          FoundTooFar(img.g, f, lb, need);
          return NoSpace;
        }
        FoundNear(img.g, f, lb, need);
        ghost var views := Views(img.g, img.disk, img.inodes);
        WriteDirBlock(img, dir, lb, 0, out);
        EntryWritten(img.g, f, lb, out, Entry(name, ino));
        WithEntryIs(views, Views(img.g, img.disk, img.inodes), dir, Splice(f, Start(img.g, lb), out), Entry(name, ino));
        return Ok;
      }
      remaining, lb := remaining - Chunk(img.g, node.size, lb), lb + 1;
    }
    RoomNowhere(img.g, f, lb, need);
    rc := InsertInNewBlock(img, dir, name, ino);
  }

  lemma WithEntryIs(was: seq<View>, now: seq<View>, dir: nat, f: seq<byte>, e: Entry)
    requires dir < |was| && now == was[dir := was[dir].(bytes := f)]
    requires DirTiled(f) && Inserted(Listing(was[dir].bytes), Listing(f), e)
    requires KeepsDots(Records(was[dir].bytes), Records(f)) && KeepsForm(was[dir].bytes, f)
    ensures WithEntry(was, now, dir, e)
  {
    hide DirTiled, Inserted, Records, List, KeepsDots, Kempt;
  }

  lemma NoRoomYet(g: Geometry, f: seq<byte>, need: nat)
    ensures NoRoom(f[..Upto(g, |f|, 0)], need)
  {
    StartNext(g, 0);
    EmptyRecords(f[..Upto(g, |f|, 0)]);
  }

  lemma RoomSplit(g: Geometry, f: seq<byte>, lb: nat, need: nat)
    requires DirTiled(f) && DirGeometry(g) && lb < Blocks(g, |f|) && NoRoom(f[..Upto(g, |f|, lb)], need)
    ensures var a, n := Start(g, lb), Chunk(g, |f|, lb);
            && a + n <= |f|
            && (NoRoom(f[a..a + n], need) <==> NoRoom(f[..Upto(g, |f|, lb + 1)], need))
            && (!NoRoom(f[a..a + n], need) ==> !NoRoom(f, need))
  {
    hide Superblock.Valid, DirTiled, Records, Blocks, Start, BlockSize;
    AroundBlock(g, f, lb);
  }

  lemma RoomNowhere(g: Geometry, f: seq<byte>, lb: nat, need: nat)
    requires Left(g, |f|, lb) == 0 && NoRoom(f[..Upto(g, |f|, lb)], need) && DirTiled(f) && DirGeometry(g)
    ensures NoRoom(f, need) && NoRoom(DirectPart(g, f), need)
  {
    hide Superblock.Valid, DirTiled, Records, Start, BlockSize;
    assert f[..Upto(g, |f|, lb)] == f;
    PrefixRoom(g, f, |f|, need);
  }

  lemma PrefixRoom(g: Geometry, f: seq<byte>, k: nat, need: nat)
    requires k <= |f| && DirTiled(f) && DirTiled(f[..k]) && DirGeometry(g) && NoRoom(f[..k], need)
    ensures Start(g, NDADDR) <= k || k == |f| ==> NoRoom(DirectPart(g, f), need)
  {
    hide Superblock.Valid, DirTiled, Records, Start, BlockSize;
    var m := Start(g, NDADDR);
    if m < |f| && m <= k {
      BlockAligned(g, NDADDR);
      DirAt(f[..k], m);
      assert f[..k][..m] == f[..m] && f[..k] == f[..m] + f[..k][m..];
      DirTiledTiled(f[..m]);
      TiledConcat(f[..m], f[..k][m..]);
    } else if k == |f| {
      assert f[..k] == f;
    }
  }

  lemma FoundTooFar(g: Geometry, f: seq<byte>, lb: nat, need: nat)
    requires DirTiled(f) && DirGeometry(g) && NDADDR <= lb < Blocks(g, |f|) && NoRoom(f[..Upto(g, |f|, lb)], need)
    ensures NoRoom(DirectPart(g, f), need)
  {
    hide Superblock.Valid, DirTiled, Records, Start, BlockSize, DirectPart, NoRoom, Blocks;
    AroundBlock(g, f, lb);
    StartMonotone(g, NDADDR, lb);
    PrefixRoom(g, f, Start(g, lb), need);
  }

  lemma FoundNear(g: Geometry, f: seq<byte>, lb: nat, need: nat)
    requires DirTiled(f) && DirGeometry(g) && lb < NDADDR && lb < Blocks(g, |f|)
    requires Start(g, lb) + Chunk(g, |f|, lb) <= |f| && !NoRoom(f[Start(g, lb)..Start(g, lb) + Chunk(g, |f|, lb)], need)
    ensures !NoRoom(DirectPart(g, f), need)
  {
    hide Superblock.Valid, DirTiled, Records, Start, BlockSize, Blocks;
    AroundBlock(g, f, lb);
    var a, n, m := Start(g, lb), Chunk(g, |f|, lb), Start(g, NDADDR);
    if m < |f| {
      StartMonotone(g, lb, NDADDR);
      BlockBound(g, |f|, lb);
      BlockAligned(g, NDADDR);
      DirAt(f, m);
      assert f[..m] == f[..a + n] + f[..m][a + n..];
      DirTiledTiled(f[..a + n]);
      TiledConcat(f[..a + n], f[..m][a + n..]);
    }
  }

  lemma EntryWritten(g: Geometry, f: seq<byte>, lb: nat, out: seq<byte>, e: Entry)
    requires DirTiled(f) && DirGeometry(g) && lb < Blocks(g, |f|) && Start(g, lb) + Chunk(g, |f|, lb) <= |f|
    requires |out| == Chunk(g, |f|, lb) && DirTiled(out)
    requires Inserted(Listing(f[Start(g, lb)..Start(g, lb) + Chunk(g, |f|, lb)]), Listing(out), e)
    requires KeepsDots(Records(f[Start(g, lb)..Start(g, lb) + Chunk(g, |f|, lb)]), Records(out))
    requires KeepsForm(f[Start(g, lb)..Start(g, lb) + Chunk(g, |f|, lb)], out)
    ensures DirTiled(Splice(f, Start(g, lb), out)) && Inserted(Listing(f), Listing(Splice(f, Start(g, lb), out)), e)
    ensures KeepsDots(Records(f), Records(Splice(f, Start(g, lb), out))) && KeepsForm(f, Splice(f, Start(g, lb), out))
  {
    hide Superblock.Valid, DirTiled, Records, List, Start, BlockSize, Blocks, Chunk, KeepsDots, KeepsForm;
    AroundBlock(g, f, lb);
    BlockKeeps(g, f, lb, out);
    BlockForm(g, f, lb, out);
    var a, n := Start(g, lb), Chunk(g, |f|, lb);
    ListingParts(f[..a], out, f[a + n..]);
    InsertedInside(Listing(f[..a]), Listing(f[a..a + n]), Listing(out), Listing(f[a + n..]), e);
  }

  /** A directory with one block replaced begins as it did if the block does. */
  lemma BlockKeeps(g: Geometry, f: seq<byte>, lb: nat, out: seq<byte>)
    requires DirTiled(f) && DirGeometry(g) && lb < Blocks(g, |f|) && Start(g, lb) + Chunk(g, |f|, lb) <= |f|
    requires |out| == Chunk(g, |f|, lb) && DirTiled(out)
    requires KeepsDots(Records(f[Start(g, lb)..Start(g, lb) + Chunk(g, |f|, lb)]), Records(out))
    ensures KeepsDots(Records(f), Records(Splice(f, Start(g, lb), out)))
    ensures Records(Splice(f, Start(g, lb), out)) == Records(f[..Start(g, lb)]) + Records(out) + Records(f[Start(g, lb) + |out|..])
  {
    hide Superblock.Valid, DirTiled, Records, List, Start, BlockSize, Blocks, Chunk, KeepsDots, Tiled;
    AroundBlock(g, f, lb);
    ChunkBounds(g, |f|, lb);
    var a, n := Start(g, lb), Chunk(g, |f|, lb);
    var x, m, y := f[..a], f[a..a + n], f[a + n..];
    SplitDir(x);
    SplitDir(m);
    SplitDir(out);
    DirTiledTiled(x);
    DirTiledTiled(m);
    DirTiledTiled(out);
    ListingParts(x, out, y);
    ListingParts(x, m, y);
    KeepsInside(x, m, out, Records(y));
  }

  lemma BlockForm(g: Geometry, f: seq<byte>, lb: nat, out: seq<byte>)
    requires DirTiled(f) && DirGeometry(g) && lb < Blocks(g, |f|) && Start(g, lb) + Chunk(g, |f|, lb) <= |f|
    requires |out| == Chunk(g, |f|, lb) && DirTiled(out)
    requires KeepsForm(f[Start(g, lb)..Start(g, lb) + Chunk(g, |f|, lb)], out)
    ensures KeepsForm(f, Splice(f, Start(g, lb), out))
  {
    hide Superblock.Valid, DirTiled, Records, List, Start, BlockSize, Blocks, Chunk, Tiled, Kempt;
    AroundBlock(g, f, lb);
    var a, n := Start(g, lb), Chunk(g, |f|, lb);
    DirTiledTiled(f[..a]);
    DirTiledTiled(f[a..a + n]);
    DirTiledTiled(out);
    KemptAround(f[..a], f[a..a + n], f[a + n..]);
    KemptAround(f[..a], out, f[a + n..]);
    assert f == f[..a] + f[a..a + n] + f[a + n..];
  }

  // ---- removal ----

  /** A directory that begins as it did and lists one name less, the first with that name. */
  ghost predicate WithoutEntry(was: seq<View>, now: seq<View>, dir: nat, name: seq<byte>) {
    && dir < |was| == |now|
    && now == was[dir := was[dir].(bytes := now[dir].bytes)]
    && DirTiled(now[dir].bytes) && Deleted(Listing(was[dir].bytes), Listing(now[dir].bytes), name)
    && KeepsDots(Records(was[dir].bytes), Records(now[dir].bytes)) && KeepsForm(was[dir].bytes, now[dir].bytes)
  }

  ghost function RemoveOutcome(g: Geometry, f: seq<byte>, name: seq<byte>): Rc {
    if !NoMatch(Records(DirectPart(g, f)), name) then (if name == DOT || name == DOTDOT then Invalid else Ok)
    else if |f| > Start(g, NDADDR) then Invalid else NotFound
  }

  /** nextufs__remove_dirent. Whatever its bytes become, only the directory changes; they list the
      others and tile again whenever the entry is removable. */
  method RemoveDirent(img: Image, dir: nat, name: seq<byte>) returns (rc: Rc, removed: nat)
    requires img.Valid() && Sound(img.g, img.groups, img.inodes, img.disk) && dir < |img.inodes|
    requires IsDir(img.g, img.disk, img.inodes[dir]) && DirGeometry(img.g) && name != []
    modifies img`disk
    ensures img.Valid() && Sound(img.g, img.groups, img.inodes, img.disk)
    ensures forall k | 0 <= k < |img.inodes| :: OwnedBy(img.g, img.disk, img.inodes[k]) == OwnedBy(img.g, old(img.disk), img.inodes[k])
    ensures rc == RemoveOutcome(img.g, old(FileBytes(img.g, img.disk, img.inodes[dir])), name)
    ensures rc != Ok ==> img.disk == old(img.disk)
    ensures var was, now := old(Views(img.g, img.disk, img.inodes)), Views(img.g, img.disk, img.inodes);
            && now == was[dir := was[dir].(bytes := now[dir].bytes)]
            && (rc == Ok ==> FirstNamed(Listing(was[dir].bytes), name) == Some(removed))
            && (rc == Ok && Removable(was[dir].bytes, name) ==>
                  WithoutEntry(was, now, dir, name) && !NoRoom(DirectPart(img.g, now[dir].bytes), DirentSize(|name|)))
    ensures Carried(img.g, img.groups, img.inodes, old(img.disk), img.groups, img.inodes, img.disk)
  {
    hide Superblock.Valid, Superblock.Off, CylGroup.Valid, FileBytes, DirTiled, Start, BlockSize, Blocks, Chunk,
      FreeSet, Sound, Views, Deleted, List, Records, FileOk, TooLong, NoMatch, DirectPart, Left, Owned,
      CountsOwned, Upto, Removable, WithoutEntry, FirstNamed, KeepsDots, NoRoom, Carried, Kempt, KeepsForm;
    CarriedNothing(img.g, img.groups, img.inodes, img.disk);
    SoundAt(img.g, img.groups, img.inodes, img.disk, dir);
    ViewsAt(img.g, img.disk, img.inodes);
    removed := 0;
    var node := img.inodes[dir];
    ghost var f, views := FileBytes(img.g, img.disk, node), Views(img.g, img.disk, img.inodes);
    assert views == views[dir := views[dir].(bytes := views[dir].bytes)];
    var remaining, lb := node.size, 0;
    LeftNext(img.g, node.size, 0);
    NoMatchYet(img.g, f, name);
    while remaining > 0
      invariant img.Valid() && img.disk == old(img.disk) && lb <= NDADDR
      invariant remaining == Left(img.g, node.size, lb)
      invariant NoMatch(Records(f[..Upto(img.g, node.size, lb)]), name)
      decreases remaining
    {
      BlocksIs(img.g, node.size, lb);
      LeftNext(img.g, node.size, lb);
      ChunkBounds(img.g, node.size, lb);
      AroundBlock(img.g, f, lb);
      var chunk := ReadDirBlock(img, node, lb);
      if lb >= NDADDR || node.db[lb] == 0 {
        DirDense(img.g, img.disk, node);
        DirectOnly(img.g, img.disk, node, f, lb, name);
        return Invalid, 0;
      }
      var hit := RemoveInBlock(chunk, name);
      MatchSplit(img.g, f, lb, name);
      if hit.Refused? {
        return Invalid, 0;
      }
      if hit.Removed? {
        WriteDirBlock(img, dir, lb, 0, hit.out);
        NoRoomIs(hit.out, DirentSize(|name|));
        EntryRemoved(img.g, f, lb, hit.out, name, hit.ino);
        if Removable(f, name) {
          EntryRemovedKeeps(img.g, f, lb, hit.out, name);
        }
        WithoutEntryIs(views, Views(img.g, img.disk, img.inodes), dir, Splice(f, Start(img.g, lb), hit.out), name);
        return Ok, hit.ino;
      }
      remaining, lb := remaining - Chunk(img.g, node.size, lb), lb + 1;
    }
    MatchNowhere(img.g, f, lb, name);
    return NotFound, 0;
  }

  lemma NoMatchYet(g: Geometry, f: seq<byte>, name: seq<byte>)
    ensures NoMatch(Records(f[..Upto(g, |f|, 0)]), name)
  {
    StartNext(g, 0);
    EmptyRecords(f[..Upto(g, |f|, 0)]);
  }

  /** The scan has come to a block direct pointers do not reach. */
  lemma DirectOnly(g: Geometry, d: seq<byte>, ino: Inode, f: seq<byte>, lb: nat, name: seq<byte>)
    requires ino.Shaped() && Dense(g, d, ino) && lb < Blocks(g, |f|) && |f| == ino.size && lb <= NDADDR
    requires lb >= NDADDR || ino.db[lb] == 0
    requires NoMatch(Records(f[..Upto(g, |f|, lb)]), name)
    ensures RemoveOutcome(g, f, name) == Invalid
  {
    hide Superblock.Valid, Records, Start, BlockSize, Blocks, NoMatch;
    if lb < NDADDR {
      DirectPtr(g, d, ino, lb);
    }
    BlocksIs(g, |f|, lb);
    UptoIs(g, |f|, lb);
  }

  lemma MatchSplit(g: Geometry, f: seq<byte>, lb: nat, name: seq<byte>)
    requires DirTiled(f) && DirGeometry(g) && lb < NDADDR && lb < Blocks(g, |f|)
    requires NoMatch(Records(f[..Upto(g, |f|, lb)]), name)
    ensures var a, n := Start(g, lb), Chunk(g, |f|, lb);
            && a + n <= |f|
            && (NoMatch(Records(f[a..a + n]), name) ==> NoMatch(Records(f[..Upto(g, |f|, lb + 1)]), name))
            && (!NoMatch(Records(f[a..a + n]), name) ==> !NoMatch(Records(DirectPart(g, f)), name))
  {
    hide Superblock.Valid, DirTiled, Records, Blocks, Start, BlockSize, NoMatch;
    AroundBlock(g, f, lb);
    var a, n, m := Start(g, lb), Chunk(g, |f|, lb), Start(g, NDADDR);
    SomeMatch(Records(f[..a]), Records(f[a..a + n]), Records(f[a + n..]), name);
    if m < |f| {
      StartMonotone(g, lb, NDADDR);
      BlockBound(g, |f|, lb);
      BlockAligned(g, NDADDR);
      DirAt(f, m);
      assert f[..m] == f[..a + n] + f[..m][a + n..];
      DirTiledTiled(f[..a + n]);
      TiledConcat(f[..a + n], f[..m][a + n..]);
      SomeMatch(Records(f[..a]), Records(f[a..a + n]), Records(f[..m][a + n..]), name);
    }
  }

  lemma MatchNowhere(g: Geometry, f: seq<byte>, lb: nat, name: seq<byte>)
    requires Left(g, |f|, lb) == 0 && lb <= NDADDR && NoMatch(Records(f[..Upto(g, |f|, lb)]), name)
    ensures RemoveOutcome(g, f, name) == NotFound
  {
    hide Superblock.Valid, Records, Start, BlockSize, NoMatch;
    StartMonotone(g, lb, NDADDR);
    assert f[..Upto(g, |f|, lb)] == f;
  }

  lemma WithoutEntryIs(was: seq<View>, now: seq<View>, dir: nat, f: seq<byte>, name: seq<byte>)
    requires dir < |was| && now == was[dir := was[dir].(bytes := f)]
    ensures now == was[dir := was[dir].(bytes := now[dir].bytes)]
    ensures now[dir].bytes == f
    ensures (DirTiled(f) && Deleted(Listing(was[dir].bytes), Listing(f), name) && KeepsDots(Records(was[dir].bytes), Records(f))
             && KeepsForm(was[dir].bytes, f)) ==> WithoutEntry(was, now, dir, name)
  {
    hide DirTiled, Deleted, Records, List, KeepsDots, Kempt;
  }

  lemma EntryRemoved(g: Geometry, f: seq<byte>, lb: nat, out: seq<byte>, name: seq<byte>, ino: nat)
    requires DirTiled(f) && DirGeometry(g) && lb < Blocks(g, |f|) && Start(g, lb) + Chunk(g, |f|, lb) <= |f| && name != []
    requires |out| == Chunk(g, |f|, lb) && NoMatch(Records(f[..Upto(g, |f|, lb)]), name)
    requires var chunk := f[Start(g, lb)..Start(g, lb) + Chunk(g, |f|, lb)];
             && FirstNamed(Listing(chunk), name) == Some(ino)
             && (Removable(chunk, name) ==> DirTiled(out) && Deleted(Listing(chunk), Listing(out), name))
    ensures FirstNamed(Listing(f), name) == Some(ino)
    ensures Removable(f, name) ==>
              DirTiled(Splice(f, Start(g, lb), out)) && Deleted(Listing(f), Listing(Splice(f, Start(g, lb), out)), name)
  {
    hide Superblock.Valid, DirTiled, Records, List, Start, BlockSize, Blocks, Chunk, NoMatch, Removable, FirstNamed;
    AroundBlock(g, f, lb);
    var a, n := Start(g, lb), Chunk(g, |f|, lb);
    var x, chunk, y := f[..a], f[a..a + n], f[a + n..];
    NotListed(Records(x), name);
    FirstNamedAfter(Listing(x), Listing(chunk) + Listing(y), name);
    FirstNamedIn(Listing(chunk), Listing(y), name);
    assert Listing(x) + Listing(chunk) + Listing(y) == Listing(x) + (Listing(chunk) + Listing(y));
    if Removable(f, name) {
      RemovableInside(x, chunk, y, name);
      ListingParts(x, out, y);
      DeletedAround(Listing(x), Listing(chunk), Listing(out), Listing(y), name);
    }
  }

  /** The rest of what a removal in one block means for the directory. */
  lemma EntryRemovedKeeps(g: Geometry, f: seq<byte>, lb: nat, out: seq<byte>, name: seq<byte>)
    requires DirTiled(f) && DirGeometry(g) && lb < NDADDR && lb < Blocks(g, |f|) && Start(g, lb) + Chunk(g, |f|, lb) <= |f| && name != []
    requires |out| == Chunk(g, |f|, lb) && NoMatch(Records(f[..Upto(g, |f|, lb)]), name)
    requires var chunk := f[Start(g, lb)..Start(g, lb) + Chunk(g, |f|, lb)];
             Removable(chunk, name) ==> DirTiled(out) && KeepsDots(Records(chunk), Records(out)) && KeepsForm(chunk, out) && !NoRoom(out, DirentSize(|name|))
    requires Removable(f, name)
    ensures KeepsDots(Records(f), Records(Splice(f, Start(g, lb), out))) && KeepsForm(f, Splice(f, Start(g, lb), out))
    ensures DirTiled(Splice(f, Start(g, lb), out)) ==> !NoRoom(DirectPart(g, Splice(f, Start(g, lb), out)), DirentSize(|name|))
  {
    hide Superblock.Valid, DirTiled, Records, List, Start, BlockSize, Blocks, Chunk, NoMatch, Removable, KeepsDots, KeepsForm, NoRoom, DirectPart, Upto;
    AroundBlock(g, f, lb);
    var a, n := Start(g, lb), Chunk(g, |f|, lb);
    RemovableInside(f[..a], f[a..a + n], f[a + n..], name);
    BlockKeeps(g, f, lb, out);
    BlockForm(g, f, lb, out);
    if DirTiled(Splice(f, Start(g, lb), out)) {
      RoomStays(g, f, lb, out, DirentSize(|name|));
    }
  }

  /** Room in a replaced direct block is room in the directory. */
  lemma RoomStays(g: Geometry, f: seq<byte>, lb: nat, out: seq<byte>, need: nat)
    requires DirTiled(f) && DirGeometry(g) && lb < NDADDR && lb < Blocks(g, |f|) && Start(g, lb) + Chunk(g, |f|, lb) <= |f|
    requires |out| == Chunk(g, |f|, lb) && DirTiled(Splice(f, Start(g, lb), out)) && !NoRoom(out, need)
    ensures !NoRoom(DirectPart(g, Splice(f, Start(g, lb), out)), need)
  {
    hide Superblock.Valid, DirTiled, Records, Start, BlockSize, Blocks, Chunk, NoRoom, DirectPart;
    var now, a := Splice(f, Start(g, lb), out), Start(g, lb);
    assert now[a..a + |out|] == out;
    FoundNear(g, now, lb, need);
  }

  lemma {:induction false} FirstNamedIn(a: seq<Entry>, c: seq<Entry>, name: seq<byte>)
    requires FirstNamed(a, name).Some?
    ensures FirstNamed(a + c, name) == FirstNamed(a, name)
  {
    assert (a + c)[1..] == a[1..] + c;
    if a[0].name != name {
      FirstNamedIn(a[1..], c, name);
    }
  }

  lemma RemovableInside(x: seq<byte>, f: seq<byte>, y: seq<byte>, name: seq<byte>)
    requires DirTiled(x) && NoMatch(Records(x), name) && Removable(x + f + y, name)
    ensures Removable(f, name)
  {
    hide DirTiled, Records, NoMatch, Removable, Hit.Of;
    forall u: seq<byte>, blk: seq<byte>, v: seq<byte>, h: Hit
      | f == u + (blk + v) && DirTiled(u) && |blk| == DIRBLKSIZ && NoMatch(Records(u), name) && h.Of(Records(blk), name)
      ensures h.Clean()
    {
      RemovableAt(x, f, y, name, u, blk, v, h);
    }
    assert Removable(f, name) by { RemovableIs(f, name); }
  }

  lemma RemovableIs(f: seq<byte>, name: seq<byte>)
    requires forall u: seq<byte>, blk: seq<byte>, v: seq<byte>, h: Hit ::
      f == u + (blk + v) && DirTiled(u) && |blk| == DIRBLKSIZ && NoMatch(Records(u), name) && h.Of(Records(blk), name)
      ==> h.Clean()
    ensures Removable(f, name)
  {
    hide DirTiled, Records, NoMatch, Hit.Of, Hit.Clean;
  }

  lemma RemovableAt(x: seq<byte>, f: seq<byte>, y: seq<byte>, name: seq<byte>, u: seq<byte>, blk: seq<byte>, v: seq<byte>, h: Hit)
    requires DirTiled(x) && NoMatch(Records(x), name) && Removable(x + f + y, name)
    requires f == u + (blk + v) && DirTiled(u) && |blk| == DIRBLKSIZ && NoMatch(Records(u), name) && h.Of(Records(blk), name)
    ensures h.Clean()
  {
    hide DirTiled, Records, NoMatch, Hit.Of, Hit.Clean, Tiled;
    DirTiledConcat(x, u);
    DirTiledTiled(x);
    TiledConcat(x, u);
    SomeMatch(Records(x), Records(u), [], name);
    Regrouped(x, u, blk, v, y);
  }

  lemma Regrouped(x: seq<byte>, u: seq<byte>, blk: seq<byte>, v: seq<byte>, y: seq<byte>)
    ensures x + (u + (blk + v)) + y == (x + u) + (blk + (v + y))
  {
  }

  lemma DeletedAround(a: seq<Entry>, was: seq<Entry>, now: seq<Entry>, c: seq<Entry>, name: seq<byte>)
    requires Deleted(was, now, name) && forall j | 0 <= j < |a| :: a[j].name != name
    ensures Deleted(a + was + c, a + now + c, name)
  {
    var p, e, q := DeletedParts(was, now, name);
    DeletedIs(a + p, e, q + c);
    assert a + was + c == a + p + [e] + (q + c) && a + now + c == a + p + (q + c);
  }

  // ---- listing ----

  /** The entries of one block, in order. */
  method EntriesOfBlock(buf: seq<byte>) returns (es: seq<Entry>)
    requires DirTiled(buf)
    ensures es == Listing(buf)
  {
    hide ReadDirent, Head, Tiled, DirTiled, Records;
    var off := 0;
    BeginScan(buf);
    ghost var s := Begin(buf);
    es := [];
    while off < |buf|
      invariant s.Valid() && s.Buf() == buf && off == s.Off() && es == List(s.Seen())
    {
      ScanHead(s);
      var ent := ReadDirent(buf, off).value;
      NextScan(s, ent.reclen);
      ListConcat(s.Seen(), [ent]);
      ListOne(ent);
      if ent.ino != 0 && ent.name != [] {
        es := es + [Entry(ent.name, ent.ino)];
      }
      off := off + ent.reclen;
      s := Next(s, ent.reclen);
    }
    ScanHead(s);
    SeenAll(s);
  }

  /** nextufs_directory_iterate: the entries its callback is called with. */
  method DirectoryIterate(img: Image, dir: nat) returns (es: seq<Entry>)
    requires img.Valid() && Sound(img.g, img.groups, img.inodes, img.disk) && dir < |img.inodes|
    requires IsDir(img.g, img.disk, img.inodes[dir]) && DirGeometry(img.g)
    ensures es == Listing(FileBytes(img.g, img.disk, img.inodes[dir]))
  {
    hide Superblock.Valid, CylGroup.Valid, FileBytes, DirTiled, Start, BlockSize, Blocks, Chunk,
      FreeSet, Sound, List, Records, FileOk, TooLong, Left, Owned, CountsOwned, Upto;
    SoundAt(img.g, img.groups, img.inodes, img.disk, dir);
    var node := img.inodes[dir];
    ghost var f := FileBytes(img.g, img.disk, node);
    var remaining, lb := node.size, 0;
    LeftNext(img.g, node.size, 0);
    NothingYet(img.g, f);
    es := [];
    while remaining > 0
      invariant remaining == Left(img.g, node.size, lb)
      invariant es == Listing(f[..Upto(img.g, node.size, lb)])
      decreases remaining
    {
      BlocksIs(img.g, node.size, lb);
      LeftNext(img.g, node.size, lb);
      ChunkBounds(img.g, node.size, lb);
      AroundBlock(img.g, f, lb);
      var chunk := ReadDirBlock(img, node, lb);
      var more := EntriesOfBlock(chunk);
      ListConcat(Records(f[..Start(img.g, lb)]), Records(chunk));
      es := es + more;
      remaining, lb := remaining - Chunk(img.g, node.size, lb), lb + 1;
    }
    WholeFile(img.g, f, lb);
  }

  lemma NothingYet(g: Geometry, f: seq<byte>)
    ensures Listing(f[..Upto(g, |f|, 0)]) == []
  {
    StartNext(g, 0);
    EmptyRecords(f[..Upto(g, |f|, 0)]);
  }

  lemma WholeFile(g: Geometry, f: seq<byte>, lb: nat)
    requires Left(g, |f|, lb) == 0
    ensures f[..Upto(g, |f|, lb)] == f
  {
  }

  /** nextufs__find_name_in_directory. */
  method FindName(img: Image, dir: nat, name: seq<byte>) returns (r: Option<nat>)
    requires img.Valid() && Sound(img.g, img.groups, img.inodes, img.disk) && dir < |img.inodes|
    requires IsDir(img.g, img.disk, img.inodes[dir]) && DirGeometry(img.g)
    ensures r == FirstNamed(Listing(FileBytes(img.g, img.disk, img.inodes[dir])), name)
  {
    hide Superblock.Valid, CylGroup.Valid, FileBytes, DirTiled, FreeSet, Sound, List, Records;
    var es := DirectoryIterate(img, dir);
    for i := 0 to |es|
      invariant FirstNamed(es, name) == FirstNamed(es[i..], name)
    {
      if es[i].name == name {
        return Some(es[i].ino);
      }
    }
    return None;
  }

  /** Nothing but "." naming the directory and ".." naming its parent, and both there. */
  ghost predicate OnlyDots(es: seq<Entry>, self: nat, parent: nat) {
    && (forall e | e in es :: e == Entry(DOT, self) || e == Entry(DOTDOT, parent))
    && Entry(DOT, self) in es && Entry(DOTDOT, parent) in es
  }

  /** nextufs__directory_is_empty. */
  method DirectoryIsEmpty(img: Image, dir: nat, parent: nat) returns (r: bool)
    requires img.Valid() && Sound(img.g, img.groups, img.inodes, img.disk) && dir < |img.inodes|
    requires IsDir(img.g, img.disk, img.inodes[dir]) && DirGeometry(img.g)
    ensures r <==> OnlyDots(Listing(FileBytes(img.g, img.disk, img.inodes[dir])), dir, parent)
  {
    hide Superblock.Valid, CylGroup.Valid, FileBytes, DirTiled, FreeSet, Sound, List, Records;
    var es := DirectoryIterate(img, dir);
    var dot, dotdot := false, false;
    for i := 0 to |es|
      invariant forall e | e in es[..i] :: e == Entry(DOT, dir) || e == Entry(DOTDOT, parent)
      invariant dot <==> Entry(DOT, dir) in es[..i]
      invariant dotdot <==> Entry(DOTDOT, parent) in es[..i]
    {
      assert es[..i + 1] == es[..i] + [es[i]] && es[i] in es;
      if es[i].name == DOT {
        if es[i].ino != dir {
          return false;
        }
        dot := true;
      } else if es[i].name == DOTDOT {
        if es[i].ino != parent {
          return false;
        }
        dotdot := true;
      } else {
        return false;
      }
    }
    assert es[..|es|] == es;
    return dot && dotdot;
  }
}
