/** Whole-file storage: laying a byte string out over fragments and indirect blocks, reading it
    back, and giving every fragment back. */
module Storage {
  import opened Geometry
  import opened FreeMap
  import opened Image
  import opened Alloc
  import opened Room
  import opened Indirect
  import opened FileMap

  // ---- block arithmetic ----

  function BlockSize(g: Geometry): (bs: nat)
    ensures bs > 0 && bs == g.Off(g.fpb)
  {
    g.OffMonotone(0, g.fpb);
    assert g.Off(0) == 0;
    g.Off(g.fpb)
  }

  /** Byte offset of logical block lb in the file. */
  function Start(g: Geometry, lb: nat): nat {
    lb * BlockSize(g)
  }

  /** Bytes of a file of the given size that lie at or after logical block lb. */
  function Left(g: Geometry, size: nat, lb: nat): nat {
    if size <= Start(g, lb) then 0 else size - Start(g, lb)
  }

  function Min(a: nat, b: nat): nat {
    if a < b then a else b
  }

  /** Bytes of the file inside logical block lb. */
  function Chunk(g: Geometry, size: nat, lb: nat): nat {
    Min(Left(g, size, lb), BlockSize(g))
  }

  /** Fragments the code allocates, and frees, for a block that holds chunk bytes. */
  function FragsFor(g: Geometry, lb: nat, chunk: nat): nat {
    if lb >= NDADDR then g.fpb else (chunk + g.fragSize - 1) / g.fragSize
  }

  /** Number of logical blocks of a file. */
  ghost function Blocks(g: Geometry, size: nat): nat {
    (size + BlockSize(g) - 1) / BlockSize(g)
  }

  lemma StartNext(g: Geometry, lb: nat)
    ensures Start(g, lb + 1) == Start(g, lb) + BlockSize(g)
    ensures Start(g, 0) == 0
  {
  }

  lemma StartMonotone(g: Geometry, a: nat, b: nat)
    ensures a <= b ==> Start(g, a) <= Start(g, b)
    ensures a < b ==> Start(g, a) + BlockSize(g) <= Start(g, b)
  {
    if a < b {
      assert Start(g, b) == Start(g, a) + (b - a) * BlockSize(g);
      MulAtLeast(b - a, BlockSize(g));
    }
  }

  lemma LeftNext(g: Geometry, size: nat, lb: nat)
    ensures Left(g, size, lb + 1) == Left(g, size, lb) - Chunk(g, size, lb)
    ensures Left(g, size, 0) == size
  {
    StartNext(g, lb);
  }

  /** Block lb exists exactly when some byte of the file lies in it. */
  lemma BlocksIs(g: Geometry, size: nat, lb: nat)
    ensures lb < Blocks(g, size) <==> Left(g, size, lb) > 0
  {
    CeilDiv(size, BlockSize(g), lb);
  }

  lemma CeilDiv(x: nat, m: nat, k: nat)
    requires m > 0
    ensures k < (x + m - 1) / m <==> k * m < x
  {
    var q, r := (x + m - 1) / m, (x + m - 1) % m;
    assert x + m - 1 == q * m + r;
    assert k < q ==> (k + 1) * m <= q * m;
    assert q <= k ==> q * m <= k * m;
  }

  /** A block's fragments fit in a block and hold its bytes. */
  lemma FragsForBounds(g: Geometry, lb: nat, chunk: nat)
    requires 0 < chunk <= BlockSize(g)
    ensures 0 < FragsFor(g, lb, chunk) <= g.fpb
    ensures chunk <= g.Off(FragsFor(g, lb, chunk))
    ensures chunk == BlockSize(g) ==> FragsFor(g, lb, chunk) == g.fpb
  {
    if lb < NDADDR {
      var n := FragsFor(g, lb, chunk);
      CeilDiv(chunk, g.fragSize, 0);
      CeilDiv(chunk, g.fragSize, n);
      CeilDiv(chunk, g.fragSize, g.fpb);
      CeilDiv(chunk, g.fragSize, g.fpb - 1);
      assert g.Off(g.fpb) == g.Off(g.fpb - 1) + g.fragSize;
    }
  }

  // ---- extents ----

  datatype Extent = Extent(at: nat, n: nat)

  ghost function ExtentRun(x: Extent): set<nat> {
    if x.at == 0 then {} else Run(x.at, x.n)
  }

  ghost function Covers(xs: seq<Extent>): set<nat> {
    if xs == [] then {} else Covers(xs[..|xs| - 1]) + ExtentRun(xs[|xs| - 1])
  }

  /** Every extent is a run the allocator could have handed out, and no two overlap. */
  ghost predicate Apart(g: Geometry, xs: seq<Extent>) {
    && (forall i | 0 <= i < |xs| && xs[i].at != 0 :: Placed(g, xs[i].at, xs[i].n))
    && (forall i, j | 0 <= i < j < |xs| :: ExtentRun(xs[i]) !! ExtentRun(xs[j]))
  }

  lemma CoversAppend(xs: seq<Extent>, x: Extent)
    ensures Covers(xs + [x]) == Covers(xs) + ExtentRun(x)
  {
    assert (xs + [x])[..|xs|] == xs;
  }

  lemma {:induction false} CoversHas(xs: seq<Extent>, i: nat)
    requires i < |xs|
    ensures ExtentRun(xs[i]) <= Covers(xs)
  {
    if i < |xs| - 1 {
      CoversHas(xs[..|xs| - 1], i);
    }
  }

  /** What lies apart from every extent lies apart from their union. */
  lemma {:induction false} CoversApart(xs: seq<Extent>, s: set<nat>)
    requires forall i | 0 <= i < |xs| :: ExtentRun(xs[i]) !! s
    ensures Covers(xs) !! s
  {
    if xs != [] {
      var ys := xs[..|xs| - 1];
      forall i | 0 <= i < |ys| ensures ExtentRun(ys[i]) !! s {
        assert ys[i] == xs[i];
      }
      CoversApart(ys, s);
    }
  }

  lemma ApartAppend(g: Geometry, xs: seq<Extent>, x: Extent)
    requires Apart(g, xs) && Placed(g, x.at, x.n) && Covers(xs) !! ExtentRun(x)
    ensures Apart(g, xs + [x])
  {
    hide Placed, ExtentRun, Covers;
    var ys := xs + [x];
    forall i, j | 0 <= i < j < |ys| ensures ExtentRun(ys[i]) !! ExtentRun(ys[j]) {
      if j == |xs| {
        CoversHas(xs, i);
      }
    }
  }

  lemma ApartPrefix(g: Geometry, xs: seq<Extent>, k: nat)
    requires Apart(g, xs) && k <= |xs|
    ensures Apart(g, xs[..k])
  {
    hide Placed, ExtentRun;
    forall i, j | 0 <= i < j < k ensures ExtentRun(xs[..k][i]) !! ExtentRun(xs[..k][j]) {
      assert xs[..k][i] == xs[i] && xs[..k][j] == xs[j];
    }
  }

  // ---- what an inode owns and what it holds ----

  /** The extents of the first k logical blocks. */
  ghost function Extents(g: Geometry, d: seq<byte>, ino: Inode, k: nat): (xs: seq<Extent>)
    requires ino.Shaped()
    ensures |xs| == k
  {
    seq(k, j requires 0 <= j < k => Extent(Ptr(g, d, ino, j), FragsFor(g, j, Chunk(g, ino.size, j))))
  }

  ghost function FileExtents(g: Geometry, d: seq<byte>, ino: Inode): seq<Extent>
    requires ino.Shaped()
  {
    Extents(g, d, ino, Blocks(g, ino.size))
  }

  ghost function DataFrags(g: Geometry, d: seq<byte>, ino: Inode): set<nat>
    requires ino.Shaped()
  {
    Covers(FileExtents(g, d, ino))
  }

  /** An inline symlink keeps its text in the pointer fields. */
  predicate Inline(ino: Inode) {
    ino.kind == Symlink && ino.fast
  }

  /** Every fragment the file's storage uses. */
  ghost function Owned(g: Geometry, d: seq<byte>, ino: Inode): set<nat>
    requires ino.Shaped()
  {
    DataFrags(g, d, ino) + InodeMeta(g, d, ino)
  }

  /** The storage is well formed: data runs and indirect blocks are placed and never overlap. */
  ghost predicate FileOk(g: Geometry, d: seq<byte>, ino: Inode) {
    && ino.Shaped() && InodeSeparate(g, d, ino)
    && Apart(g, FileExtents(g, d, ino))
    && DataFrags(g, d, ino) !! InodeMeta(g, d, ino)
  }

  /** The bytes of a file: holes read as zeroes. */
  ghost function FileBytes(g: Geometry, d: seq<byte>, ino: Inode): (bs: seq<byte>)
    requires ino.Shaped()
    ensures |bs| == ino.size
  {
    seq(ino.size, p requires 0 <= p < ino.size =>
      BlockByte(g, d, Ptr(g, d, ino, LbOf(g, p)), p - Start(g, LbOf(g, p))))
  }

  /** The logical block a byte position lies in. */
  function LbOf(g: Geometry, p: nat): (lb: nat)
    ensures Start(g, lb) <= p < Start(g, lb) + BlockSize(g)
  {
    DivBounds(p, BlockSize(g));
    p / BlockSize(g)
  }

  lemma DivBounds(p: nat, m: nat)
    requires m > 0
    ensures 0 <= p / m && p / m * m <= p < p / m * m + m
  {
    assert p == p / m * m + p % m;
  }

  lemma LbUnique(g: Geometry, p: nat, lb: nat)
    requires Start(g, lb) <= p < Start(g, lb) + BlockSize(g)
    ensures LbOf(g, p) == lb
  {
    hide Superblock.Valid, Start, BlockSize;
    StartMonotone(g, lb, LbOf(g, p));
    StartMonotone(g, LbOf(g, p), lb);
  }

  ghost function BlockByte(g: Geometry, d: seq<byte>, at: nat, o: nat): byte {
    if at != 0 && g.Off(at) + o < |d| then d[g.Off(at) + o] else 0
  }

  // ---- giving storage back ----

  /** nextufs__free_file_storage: data blocks first, found through the block map, then the trees. */
  method FreeFileStorage(img: Image, ino: Inode) returns (rc: Rc, out: Inode)
    requires img.Valid() && ino.Shaped()
    requires !Inline(ino) ==> FileOk(img.g, img.disk, ino) && Owned(img.g, img.disk, ino) !! img.Free()
    modifies img`groups, img`csum, img`total
    ensures img.Valid() && SameInodes(old(img.groups), img.groups)
    ensures rc == if !Inline(ino) && TooLong(img.g, ino.size) then TooBig else Ok
    ensures img.Free() == if Inline(ino) then old(img.Free())
              else if rc == Ok then old(img.Free()) + Owned(img.g, img.disk, ino)
              else old(img.Free()) + DataFrags(img.g, img.disk, ino)
    ensures rc == Ok ==> out == ino.(db := NO_BLOCKS, ib := NO_INDIRECT, size := 0, blocks := 0,
                                     fast := ino.fast && !Inline(ino))
  {
    hide Superblock.Valid, CylGroup.Valid, FreeSet, Run, Placed, SpotOf, Ptr, InodeMeta, InodeSeparate, Covers,
      BlockSize, Start, Blocks, FragsFor;
    if Inline(ino) {
      return Ok, ino.(db := NO_BLOCKS, ib := NO_INDIRECT, size := 0, blocks := 0, fast := false);
    }
    rc := FreeData(img, ino);
    if rc != Ok {
      return rc, ino;
    }
    FreeTrees(img, ino);
    return Ok, ino.(db := NO_BLOCKS, ib := NO_INDIRECT, size := 0, blocks := 0);
  }

  /** The file reaches past the last block three levels of indirection can address. */
  ghost predicate TooLong(g: Geometry, size: nat) {
    exists lb: nat :: lb < Blocks(g, size) && SpotOf(g, lb) == Beyond
  }

  lemma CoversPrefix(xs: seq<Extent>, k: nat)
    requires k < |xs|
    ensures Covers(xs[..k + 1]) == Covers(xs[..k]) + ExtentRun(xs[k])
  {
    assert xs[..k + 1][..k] == xs[..k];
  }

  lemma {:induction false} CoversOfHoles(xs: seq<Extent>, k: nat)
    requires k <= |xs| && forall i | k <= i < |xs| :: xs[i].at == 0
    ensures Covers(xs) == Covers(xs[..k])
  {
    if k == |xs| {
      assert xs[..k] == xs;
    } else {
      assert xs[..|xs| - 1][..k] == xs[..k];
      CoversOfHoles(xs[..|xs| - 1], k);
    }
  }

  /** Extent k is still in use when the first k are gone. */
  lemma NextExtentUsed(g: Geometry, xs: seq<Extent>, k: nat, free: set<nat>)
    requires k < |xs| && Apart(g, xs) && Covers(xs) !! free
    ensures ExtentRun(xs[k]) !! free + Covers(xs[..k])
  {
    hide Placed, ExtentRun;
    CoversHas(xs, k);
    forall i | 0 <= i < k ensures ExtentRun(xs[..k][i]) !! ExtentRun(xs[k]) {
      assert xs[..k][i] == xs[i];
    }
    CoversApart(xs[..k], ExtentRun(xs[k]));
  }

  /** When block lb is out of reach the rest of the file has no storage. */
  lemma BeyondIsEmpty(g: Geometry, d: seq<byte>, ino: Inode, lb: nat)
    requires ino.Shaped() && lb < Blocks(g, ino.size) && SpotOf(g, lb) == Beyond
    ensures TooLong(g, ino.size) && DataFrags(g, d, ino) == Covers(FileExtents(g, d, ino)[..lb])
  {
    hide Superblock.Valid, SpotOf, Blocks, FragsFor, Chunk, Covers;
    var xs := FileExtents(g, d, ino);
    forall i | lb <= i < |xs| ensures xs[i].at == 0 {
      BeyondMonotone(g, lb, i);
    }
    CoversOfHoles(xs, lb);
  }

  /** One data block of the freeing loop. */
  method FreeBlock(img: Image, ino: Inode, lb: nat, chunk: nat, ghost f0: set<nat>) returns (rc: Rc)
    requires img.Valid() && FileOk(img.g, img.disk, ino) && lb < Blocks(img.g, ino.size)
    requires chunk == Chunk(img.g, ino.size, lb)
    requires Owned(img.g, img.disk, ino) !! f0
    requires img.Free() == f0 + Covers(FileExtents(img.g, img.disk, ino)[..lb])
    modifies img`groups, img`csum, img`total
    ensures img.Valid() && SameInodes(old(img.groups), img.groups)
    ensures rc == if SpotOf(img.g, lb) == Beyond then TooBig else Ok
    ensures rc == Ok ==> img.Free() == f0 + Covers(FileExtents(img.g, img.disk, ino)[..lb + 1])
    ensures rc != Ok ==> img.groups == old(img.groups)
  {
    hide Superblock.Valid, CylGroup.Valid, FreeSet, Run, Placed, SpotOf, Ptr, InodeMeta, InodeSeparate, Covers,
      Blocks, FragsFor, Chunk;
    ghost var xs := FileExtents(img.g, img.disk, ino);
    var data;
    rc, data := ResolveInodeDataBlock(img, ino, lb);
    if rc == Ok {
      CoversPrefix(xs, lb);
      NextExtentUsed(img.g, xs, lb, f0);
      assert xs[lb] == Extent(data, FragsFor(img.g, lb, chunk));
      if data != 0 {
        PlacedParts(img.g, data, FragsFor(img.g, lb, chunk));
        FragNumBound(img.g, data);
        rc := FreeFragmentRun(img, data, FragsFor(img.g, lb, chunk));
      }
    }
  }

  lemma FragNumBound(g: Geometry, f: nat)
    ensures 0 <= g.FragNum(g.LocalOf(f)) < g.fpb
  {
  }

  method FreeData(img: Image, ino: Inode) returns (rc: Rc)
    requires img.Valid() && ino.Shaped() && FileOk(img.g, img.disk, ino) && Owned(img.g, img.disk, ino) !! img.Free()
    modifies img`groups, img`csum, img`total
    ensures img.Valid() && SameInodes(old(img.groups), img.groups)
    ensures rc == if TooLong(img.g, ino.size) then TooBig else Ok
    ensures img.Free() == old(img.Free()) + DataFrags(img.g, img.disk, ino)
  {
    hide Superblock.Valid, CylGroup.Valid, FreeSet, FileOk, Owned, DataFrags, SpotOf, Covers, TooLong,
      BlockSize, Start, Left, Blocks, SameInodes;
    ghost var xs, f0 := FileExtents(img.g, img.disk, ino), img.Free();
    SameInodesRefl(img.groups);
    LeftNext(img.g, ino.size, 0);
    CoversNone(xs);
    var remaining, lb := ino.size, 0;
    while remaining > 0
      invariant img.Valid() && SameInodes(old(img.groups), img.groups)
      invariant remaining == Left(img.g, ino.size, lb) && lb <= |xs|
      invariant img.Free() == f0 + Covers(xs[..lb])
      invariant forall k | 0 <= k < lb :: SpotOf(img.g, k) != Beyond
      decreases remaining
    {
      var chunk := Min(remaining, BlockSize(img.g));
      BlocksIs(img.g, ino.size, lb);
      LeftNext(img.g, ino.size, lb);
      ghost var was := img.groups;
      rc := FreeBlock(img, ino, lb, chunk, f0);
      if rc != Ok {
        BeyondIsEmpty(img.g, img.disk, ino, lb);
        return;
      }
      SameInodesTrans(old(img.groups), was, img.groups);
      lb, remaining := lb + 1, remaining - chunk;
    }
    AllFreed(img.g, img.disk, ino, lb);
    return Ok;
  }

  lemma CoversNone(xs: seq<Extent>)
    ensures Covers(xs[..0]) == {}
  {
  }

  lemma AllFreed(g: Geometry, d: seq<byte>, ino: Inode, lb: nat)
    requires ino.Shaped() && Left(g, ino.size, lb) == 0 && lb <= Blocks(g, ino.size)
    requires forall k | 0 <= k < lb :: SpotOf(g, k) != Beyond
    ensures !TooLong(g, ino.size) && DataFrags(g, d, ino) == Covers(FileExtents(g, d, ino)[..lb])
  {
    hide SpotOf, Covers, Blocks, Left;
    BlocksIs(g, ino.size, lb);
    assert FileExtents(g, d, ino)[..lb] == FileExtents(g, d, ino);
  }

  lemma SameInodesRefl(a: seq<CylGroup>)
    ensures SameInodes(a, a)
  {
  }

  lemma SameInodesTrans(a: seq<CylGroup>, b: seq<CylGroup>, c: seq<CylGroup>)
    requires SameInodes(a, b) && SameInodes(b, c)
    ensures SameInodes(a, c)
  {
  }

  ghost function MetaOfSlots(g: Geometry, d: seq<byte>, ino: Inode, n: nat): set<nat>
    requires ino.Shaped() && n <= NIADDR
  {
    if n == 0 then {} else MetaOfSlots(g, d, ino, n - 1) + Meta(g, SlotTree(g, d, ino, n - 1))
  }

  lemma MetaOfAllSlots(g: Geometry, d: seq<byte>, ino: Inode)
    requires ino.Shaped()
    ensures MetaOfSlots(g, d, ino, NIADDR) == InodeMeta(g, d, ino)
    ensures MetaOfSlots(g, d, ino, 0) == {}
  {
    hide Meta, SlotTree;
    assert MetaOfSlots(g, d, ino, 1) == Meta(g, SlotTree(g, d, ino, 0));
    assert MetaOfSlots(g, d, ino, 2) == Meta(g, SlotTree(g, d, ino, 0)) + Meta(g, SlotTree(g, d, ino, 1));
  }

  lemma NextSlotUsed(g: Geometry, d: seq<byte>, ino: Inode, n: nat, free: set<nat>)
    requires ino.Shaped() && n < NIADDR && InodeSeparate(g, d, ino) && InodeMeta(g, d, ino) !! free
    ensures Separate(g, SlotTree(g, d, ino, n)) && Meta(g, SlotTree(g, d, ino, n)) !! free + MetaOfSlots(g, d, ino, n)
  {
    hide Meta, Separate, SlotTree;
    assert n == 0 || n == 1 || n == 2;
    assert MetaOfSlots(g, d, ino, 1) == Meta(g, SlotTree(g, d, ino, 0));
  }

  method FreeTrees(img: Image, ino: Inode)
    requires img.Valid() && ino.Shaped() && InodeSeparate(img.g, img.disk, ino)
    requires InodeMeta(img.g, img.disk, ino) !! img.Free()
    modifies img`groups, img`csum, img`total
    ensures img.Valid() && SameInodes(old(img.groups), img.groups)
    ensures img.Free() == old(img.Free()) + InodeMeta(img.g, img.disk, ino)
  {
    hide Superblock.Valid, CylGroup.Valid, FreeSet, Meta, Separate, TreeOf, InodeSeparate, InodeMeta;
    ghost var f0 := img.Free();
    MetaOfAllSlots(img.g, img.disk, ino);
    for slot := 0 to NIADDR
      invariant img.Valid() && SameInodes(old(img.groups), img.groups)
      invariant img.Free() == f0 + MetaOfSlots(img.g, img.disk, ino, slot)
    {
      NextSlotUsed(img.g, img.disk, ino, slot, f0);
      var rc := FreeIndirectMetadataTree(img, ino.ib[slot], slot + 1);
    }
  }

  // ---- laying a byte string out ----

  /** Extent x of logical block lb holds its bytes of the file, padded with zeroes. */
  ghost predicate Holds(g: Geometry, d: seq<byte>, x: Extent, data: seq<byte>, lb: nat) {
    var c := Chunk(g, |data|, lb);
    && Start(g, lb) + c <= |data| && c <= g.Off(x.n)
    && Bytes(g, d, x.at, x.n) == ZeroPadded(data[Start(g, lb)..Start(g, lb) + c], g.Off(x.n))
  }

  /** The state of the layout loop once the blocks of xs are stored: they and the indirect blocks
      are exactly what was taken from the free set, nothing else was written, and every stored
      block is mapped and holds its bytes. */
  ghost predicate Laid(g: Geometry, d0: seq<byte>, f0: set<nat>, data: seq<byte>,
                       d: seq<byte>, free: set<nat>, ino: Inode, xs: seq<Extent>, total: nat)
  {
    && ino.Shaped() && InodeSeparate(g, d, ino)
    && Apart(g, xs) && Covers(xs) !! InodeMeta(g, d, ino)
    && Covers(xs) + InodeMeta(g, d, ino) <= f0 && free == f0 - (Covers(xs) + InodeMeta(g, d, ino))
    && OnlyWrote(g, d0, d, Covers(xs) + InodeMeta(g, d, ino))
    && total == |Covers(xs) + InodeMeta(g, d, ino)|
    && forall j | 0 <= j < |xs| :: LaidBlock(g, d, ino, data, xs[j], j)
  }

  ghost predicate LaidBlock(g: Geometry, d: seq<byte>, ino: Inode, data: seq<byte>, x: Extent, j: nat)
    requires ino.Shaped()
  {
    && x.at != 0 && x.at == Ptr(g, d, ino, j) && x.n == FragsFor(g, j, Chunk(g, |data|, j))
    && Holds(g, d, x, data, j)
  }

  /** A stored block survives a write elsewhere that leaves its pointer alone. */
  lemma LaidBlockKept(g: Geometry, d: seq<byte>, ino: Inode, e: seq<byte>, ino': Inode,
                      data: seq<byte>, x: Extent, j: nat, s: set<nat>)
    requires ino.Shaped() && ino'.Shaped() && LaidBlock(g, d, ino, data, x, j)
    requires OnlyWrote(g, d, e, s) && ExtentRun(x) !! s && Ptr(g, e, ino', j) == Ptr(g, d, ino, j)
    ensures LaidBlock(g, e, ino', data, x, j)
  {
    hide Superblock.Valid, Ptr, FragsFor, Chunk, Bytes, Run;
  }

  lemma AllKept(g: Geometry, d: seq<byte>, ino: Inode, e: seq<byte>, ino': Inode,
                data: seq<byte>, xs: seq<Extent>, s: set<nat>)
    requires ino.Shaped() && ino'.Shaped() && OnlyWrote(g, d, e, s) && Covers(xs) !! s
    requires forall j | 0 <= j < |xs| :: LaidBlock(g, d, ino, data, xs[j], j)
    requires forall j | 0 <= j < |xs| :: Ptr(g, e, ino', j) == Ptr(g, d, ino, j)
    ensures forall j | 0 <= j < |xs| :: LaidBlock(g, e, ino', data, xs[j], j)
  {
    hide LaidBlock, Ptr, OnlyWrote, Covers, ExtentRun;
    forall j | 0 <= j < |xs| ensures LaidBlock(g, e, ino', data, xs[j], j) {
      CoversHas(xs, j);
      LaidBlockKept(g, d, ino, e, ino', data, xs[j], j, s);
    }
  }

  /** Mapping block |xs| (whether or not it succeeds) keeps the layout; r is the run that was
      allocated for it and is not counted as taken yet. */
  lemma LaidAfterSet(g: Geometry, d0: seq<byte>, f0: set<nat>, data: seq<byte>,
                     d: seq<byte>, free: set<nat>, ino: Inode, xs: seq<Extent>, total: nat,
                     r: set<nat>, d1: seq<byte>, free1: set<nat>, ino1: Inode, ok: bool, v: nat, more: nat)
    requires Laid(g, d0, f0, data, d, free, ino, xs, total) && r <= free && ino1.Shaped()
    requires MapGrew(g, d, free - r, ino, d1, free1, ino1) && Mapped(g, d, ino, d1, ino1, ok, |xs|, v)
    requires more == |InodeMeta(g, d1, ino1) - InodeMeta(g, d, ino)|
    ensures Laid(g, d0, f0, data, d1, free1 + r, ino1, xs, total + more)
    ensures r <= free1 + r && r !! free1 && r !! InodeMeta(g, d1, ino1)
  {
    hide Superblock.Valid, InodeSeparate, InodeMeta, Apart, Covers, Ptr, OnlyWrote, LaidBlock;
    var c, m0, m1 := Covers(xs), InodeMeta(g, d, ino), InodeMeta(g, d1, ino1);
    SetsAfterSet(f0, free, c, m0, m1, r, free1);
    AllKept(g, d, ino, d1, ino1, data, xs, m1);
    OnlyWroteTrans(g, d0, d, d1, c + m0, m1);
    OnlyWroteMore(g, d0, d1, (c + m0) + m1, c + m1);
  }

  lemma SetsAfterSet(f0: set<nat>, free: set<nat>, c: set<nat>, m0: set<nat>, m1: set<nat>, r: set<nat>, free1: set<nat>)
    requires c !! m0 && c + m0 <= f0 && free == f0 - (c + m0) && r <= free
    requires m0 <= m1 <= m0 + (free - r) && free1 == free - r - m1
    ensures c !! m1 && c + m1 <= f0 && free1 + r == f0 - (c + m1) && r !! m1 && r !! free1
    ensures (c + m0) + m1 == c + m1 && |c + m1| == |c + m0| + |m1 - m0|
  {
    assert c + m1 == (c + m0) + (m1 - m0);
    assert (c + m0) !! (m1 - m0);
  }

  /** Writing the data of the newly mapped block extends the layout by its run. */
  lemma LaidAfterWrite(g: Geometry, d0: seq<byte>, f0: set<nat>, data: seq<byte>,
                       d: seq<byte>, free: set<nat>, ino: Inode, xs: seq<Extent>, total: nat,
                       x: Extent, d1: seq<byte>)
    requires Laid(g, d0, f0, data, d, free, ino, xs, total) && x.at != 0 && Placed(g, x.at, x.n)
    requires Run(x.at, x.n) <= free && OnlyWrote(g, d, d1, Run(x.at, x.n))
    requires x.at == Ptr(g, d, ino, |xs|) && x.n == FragsFor(g, |xs|, Chunk(g, |data|, |xs|))
    requires Holds(g, d1, x, data, |xs|)
    ensures Laid(g, d0, f0, data, d1, free - Run(x.at, x.n), ino, xs + [x], total + x.n)
  {
    hide Superblock.Valid, InodeSeparate, InodeMeta, Apart, Covers, Ptr, OnlyWrote, Run, Holds, FragsFor, Chunk, Placed;
    var c, m, r := Covers(xs), InodeMeta(g, d, ino), Run(x.at, x.n);
    assert c !! r && m !! r;
    MapFrame(g, d, d1, ino, r);
    AllKept(g, d, ino, d1, ino, data, xs, r);
    CoversAppend(xs, x);
    ApartAppend(g, xs, x);
    RunSize(x.at, x.n);
    SetsAfterWrite(f0, free, c, m, r);
    OnlyWroteTrans(g, d0, d, d1, c + m, r);
    forall j | 0 <= j < |xs + [x]| ensures LaidBlock(g, d1, ino, data, (xs + [x])[j], j) {
      assert j < |xs| ==> (xs + [x])[j] == xs[j];
    }
    assert (c + m) + r == (c + r) + m;
  }

  lemma SetsAfterWrite(f0: set<nat>, free: set<nat>, c: set<nat>, m: set<nat>, r: set<nat>)
    requires c !! m && c + m <= f0 && free == f0 - (c + m) && r <= free
    ensures (c + r) !! m && (c + r) + m <= f0 && free - r == f0 - ((c + r) + m)
    ensures |(c + r) + m| == |c + m| + |r|
  {
    assert (c + r) + m == (c + m) + r;
  }

  /** The map depends on the pointer fields only. */
  lemma SameMap(g: Geometry, d: seq<byte>, a: Inode, b: Inode)
    requires a.Shaped() && b.db == a.db && b.ib == a.ib
    ensures InodeSeparate(g, d, b) == InodeSeparate(g, d, a) && InodeMeta(g, d, b) == InodeMeta(g, d, a)
    ensures forall j: nat :: Ptr(g, d, b, j) == Ptr(g, d, a, j)
  {
    hide Superblock.Valid, TreeOf, Meta, Separate, SpotOf, Lookup;
    assert forall k | 0 <= k < NIADDR :: SlotTree(g, d, b, k) == SlotTree(g, d, a, k);
  }

  predicate Blank(ino: Inode) {
    ino.db == NO_BLOCKS && ino.ib == NO_INDIRECT
  }

  lemma BlankMap(g: Geometry, d: seq<byte>, ino: Inode)
    requires Blank(ino)
    ensures ino.Shaped() && InodeSeparate(g, d, ino) && InodeMeta(g, d, ino) == {}
    ensures forall j: nat :: Ptr(g, d, ino, j) == 0
  {
    hide Superblock.Valid, SpotOf, Span;
    assert forall k | 0 <= k < NIADDR :: SlotTree(g, d, ino, k) == Hole;
  }

  /** A blank inode owns nothing, whatever its size field says. */
  lemma BlankFile(g: Geometry, d: seq<byte>, ino: Inode)
    requires Blank(ino)
    ensures FileOk(g, d, ino) && Owned(g, d, ino) == {} && DataFrags(g, d, ino) == {}
  {
    hide Superblock.Valid, InodeMeta, InodeSeparate, Ptr, Placed, Chunk, FragsFor, Blocks;
    BlankMap(g, d, ino);
    CoversOfHoles(FileExtents(g, d, ino), 0);
  }

  lemma LaidNothing(g: Geometry, data: seq<byte>, d: seq<byte>, free: set<nat>, ino: Inode)
    requires Blank(ino)
    ensures Laid(g, d, free, data, d, free, ino, [], 0)
  {
    hide Superblock.Valid, InodeMeta, InodeSeparate, Placed, LaidBlock;
    BlankMap(g, d, ino);
    assert Covers([]) + InodeMeta(g, d, ino) == {};
  }

  lemma LaidResized(g: Geometry, d0: seq<byte>, f0: set<nat>, data: seq<byte>,
                    d: seq<byte>, free: set<nat>, a: Inode, b: Inode, xs: seq<Extent>, total: nat)
    requires Laid(g, d0, f0, data, d, free, a, xs, total) && b.db == a.db && b.ib == a.ib
    ensures Laid(g, d0, f0, data, d, free, b, xs, total)
  {
    hide Superblock.Valid, InodeMeta, InodeSeparate, Ptr, Apart, Covers, OnlyWrote, Holds, FragsFor, Chunk;
    SameMap(g, d, a, b);
    forall j | 0 <= j < |xs| ensures LaidBlock(g, d, b, data, xs[j], j) {
      assert LaidBlock(g, d, a, data, xs[j], j);
    }
  }

  /** When the size field covers exactly the blocks of xs, the layout is a well-formed file. */
  lemma LaidIsFile(g: Geometry, d0: seq<byte>, f0: set<nat>, data: seq<byte>,
                   d: seq<byte>, free: set<nat>, ino: Inode, xs: seq<Extent>, total: nat)
    requires Laid(g, d0, f0, data, d, free, ino, xs, total) && Blocks(g, ino.size) == |xs|
    requires forall j | 0 <= j < |xs| :: Chunk(g, ino.size, j) == Chunk(g, |data|, j)
    ensures FileOk(g, d, ino) && FileExtents(g, d, ino) == xs
    ensures Owned(g, d, ino) == Covers(xs) + InodeMeta(g, d, ino) && !TooLong(g, ino.size)
  {
    hide Superblock.Valid, InodeMeta, InodeSeparate, Apart, Covers, OnlyWrote, Holds, FragsFor, Chunk, Blocks, SpotOf;
    forall j | 0 <= j < |xs| ensures FileExtents(g, d, ino)[j] == xs[j] && SpotOf(g, j) != Beyond {
      assert LaidBlock(g, d, ino, data, xs[j], j);
    }
    assert FileExtents(g, d, ino) == xs;
  }

  /** After k whole blocks, with more to come, the size field Start(k) covers exactly those. */
  lemma WholeBlocks(g: Geometry, size: nat, k: nat)
    requires 0 < k < Blocks(g, size)
    ensures Blocks(g, Start(g, k)) == k
    ensures forall j | 0 <= j < k :: Chunk(g, Start(g, k), j) == Chunk(g, size, j)
  {
    hide Superblock.Valid, Start, BlockSize, Blocks;
    BlocksIs(g, Start(g, k), k);
    BlocksIs(g, Start(g, k), k - 1);
    BlocksIs(g, size, k);
    StartMonotone(g, k - 1, k);
    forall j | 0 <= j < k ensures Chunk(g, Start(g, k), j) == Chunk(g, size, j) {
      StartMonotone(g, j, k);
    }
  }

  /** The stored bytes are the bytes the file reads as. */
  lemma LaidReadsBack(g: Geometry, d0: seq<byte>, f0: set<nat>, data: seq<byte>,
                      d: seq<byte>, free: set<nat>, ino: Inode, xs: seq<Extent>, total: nat)
    requires ino.Shaped() && Laid(g, d0, f0, data, d, free, ino, xs, total)
    requires ino.size == |data| && |xs| == Blocks(g, |data|)
    ensures FileBytes(g, d, ino) == data
  {
    hide Laid, InodeSeparate, InodeMeta, Ptr, Superblock.Valid;
    forall p | 0 <= p < |data| ensures FileBytes(g, d, ino)[p] == data[p] {
      var lb := LbOf(g, p);
      BlocksIs(g, |data|, lb);
      LaidAt(g, d0, f0, data, d, free, ino, xs, total, lb);
      HoldsByte(g, d, xs[lb], data, lb, p - Start(g, lb));
    }
  }

  lemma LaidAt(g: Geometry, d0: seq<byte>, f0: set<nat>, data: seq<byte>,
               d: seq<byte>, free: set<nat>, ino: Inode, xs: seq<Extent>, total: nat, lb: nat)
    requires Laid(g, d0, f0, data, d, free, ino, xs, total) && lb < |xs|
    ensures ino.Shaped() && xs[lb].at != 0 && xs[lb].at == Ptr(g, d, ino, lb) && Holds(g, d, xs[lb], data, lb)
  {
    hide InodeSeparate, InodeMeta, Ptr, Superblock.Valid, Holds, Apart, Covers, OnlyWrote;
    assert LaidBlock(g, d, ino, data, xs[lb], lb);
  }

  lemma HoldsByte(g: Geometry, d: seq<byte>, x: Extent, data: seq<byte>, lb: nat, o: nat)
    requires Holds(g, d, x, data, lb) && x.at != 0 && o < Chunk(g, |data|, lb)
    ensures Start(g, lb) + o < |data| && BlockByte(g, d, x.at, o) == data[Start(g, lb) + o]
  {
    hide Superblock.Valid, Start, Chunk, Superblock.Off;
    var b, c := Bytes(g, d, x.at, x.n), Chunk(g, |data|, lb);
    assert b[o] == data[Start(g, lb)..Start(g, lb) + c][o];
    assert b[o] == d[g.Off(x.at) + o];
  }

  lemma LaidParts(g: Geometry, d0: seq<byte>, f0: set<nat>, data: seq<byte>,
                  d: seq<byte>, free: set<nat>, ino: Inode, xs: seq<Extent>, total: nat)
    requires Laid(g, d0, f0, data, d, free, ino, xs, total)
    ensures ino.Shaped() && InodeSeparate(g, d, ino) && InodeMeta(g, d, ino) !! free
    ensures (Covers(xs) + InodeMeta(g, d, ino)) !! free && free + (Covers(xs) + InodeMeta(g, d, ino)) == f0
    ensures total == |Covers(xs) + InodeMeta(g, d, ino)|
    ensures OnlyWrote(g, d0, d, Covers(xs) + InodeMeta(g, d, ino))
    ensures Covers(xs) + InodeMeta(g, d, ino) <= f0
  {
    hide InodeSeparate, InodeMeta, Apart, Covers, OnlyWrote, LaidBlock;
  }

  // ---- what storing takes ----

  /** Whole blocks taken by the first k logical blocks of a file, indirect blocks included. */
  ghost function Asked(g: Geometry, k: nat): nat {
    if k == 0 then 0 else Asked(g, k - 1) + Cost(g, k - 1)
  }

  /** With the blocks before it stored, block lb of a file of that size can be had too: a whole
      block and its indirect blocks, or a run of a partly used block for a short last one. */
  ghost predicate Affordable(g: Geometry, groups: seq<CylGroup>, size: nat, lb: nat) {
    var n := FragsFor(g, lb, Chunk(g, size, lb));
    if n == g.fpb then Asked(g, lb + 1) <= Wholes(g, groups)
    else Asked(g, lb) < Wholes(g, groups) || (Asked(g, lb) == Wholes(g, groups) && PartlyFits(g, groups, n))
  }

  ghost predicate Affords(g: Geometry, groups: seq<CylGroup>, size: nat, k: nat) {
    forall j: nat | j < k :: Affordable(g, groups, size, j)
  }

  lemma AskedMonotone(g: Geometry, a: nat, b: nat)
    requires a <= b
    ensures Asked(g, a) <= Asked(g, b)
    ensures b - a <= Asked(g, b) - Asked(g, a)
  {
    hide Cost, Superblock.Valid;
    if a < b {
      AskedMonotone(g, a, b - 1);
      CostPositive(g, b - 1);
    }
  }

  lemma CostPositive(g: Geometry, lb: nat)
    ensures Cost(g, lb) > 0
  {
  }

  /** With a whole block for every data and indirect block the file can be stored. */
  lemma EnoughWholes(g: Geometry, groups: seq<CylGroup>, size: nat, k: nat)
    requires Asked(g, k) <= Wholes(g, groups)
    ensures Affords(g, groups, size, k)
  {
    hide Cost, Superblock.Valid, Wholes, PartlyFits, FragsFor, Chunk;
    forall j: nat | j < k ensures Affordable(g, groups, size, j) {
      AskedMonotone(g, j + 1, k);
      CostPositive(g, j);
    }
  }

  /** How one block's allocation ends: a whole block costs itself and its indirect blocks, a
      shorter run what CanHave says. */
  ghost predicate BlockPaid(g: Geometry, was: seq<CylGroup>, now: seq<CylGroup>, n: nat, beyond: bool, cost: nat, rc: Rc) {
    if n == g.fpb then
      && (rc == Ok <==> !beyond && 1 + cost <= Wholes(g, was)) && (rc == TooBig <==> beyond && 1 <= Wholes(g, was))
      && (rc == Ok ==> Spent(g, was, now, 1 + cost))
    else
      && (rc == Ok <==> CanHave(g, was, n)) && rc != TooBig
      && (rc == Ok ==> Wholes(g, now) + 1 >= Wholes(g, was))
  }

  lemma BlockNotPaid(g: Geometry, was: seq<CylGroup>, n: nat, beyond: bool, cost: nat)
    requires !CanHave(g, was, n)
    ensures BlockPaid(g, was, was, n, beyond, cost, NoSpace)
  {
    hide Wholes, PartlyFits, Spent;
  }

  /** The run is had and then mapped, or not. */
  lemma BlockIsPaid(g: Geometry, was: seq<CylGroup>, mid: seq<CylGroup>, now: seq<CylGroup>, n: nat, beyond: bool, cost: nat, rc: Rc)
    requires CanHave(g, was, n) && 0 < n <= g.fpb
    requires if n == g.fpb then Spent(g, was, mid, 1) else Wholes(g, mid) + 1 >= Wholes(g, was) && !beyond && cost == 0
    requires if beyond then rc == TooBig else rc != TooBig && Paid(g, mid, now, cost, rc == Ok)
    ensures BlockPaid(g, was, now, n, beyond, cost, rc)
  {
    hide Wholes, PartlyFits;
    if n == g.fpb && rc == Ok {
      SpentTwice(g, was, mid, now, 1, cost);
    }
  }

  /** One round of the layout loop, in terms of the room there was at the start. */
  lemma Round(g: Geometry, first: seq<CylGroup>, was: seq<CylGroup>, now: seq<CylGroup>, size: nat, lb: nat,
              d: seq<byte>, ino: Inode, rc: Rc)
    requires ino.Shaped() && Snug(g, d, ino, lb) && Spent(g, first, was, Asked(g, lb))
    requires 0 < FragsFor(g, lb, Chunk(g, size, lb)) <= g.fpb
    requires BlockPaid(g, was, now, FragsFor(g, lb, Chunk(g, size, lb)), SpotOf(g, lb) == Beyond, MapCost(g, d, ino, lb), rc)
    ensures rc == Ok <==> Affordable(g, first, size, lb) && SpotOf(g, lb) != Beyond
    ensures rc == TooBig <==> Affordable(g, first, size, lb) && SpotOf(g, lb) == Beyond
    ensures rc == Ok && FragsFor(g, lb, Chunk(g, size, lb)) == g.fpb ==> Spent(g, first, now, Asked(g, lb + 1))
    ensures rc == Ok ==> Wholes(g, now) + Asked(g, lb + 1) >= Wholes(g, first)
  {
    hide Wholes, PartlyFits, Snug, Chunk, SpotFrom, MapCost, Superblock.Valid;
    SnugCost(g, d, ino, lb);
    if FragsFor(g, lb, Chunk(g, size, lb)) != g.fpb {
      DirectSpot(g, lb);
    } else if rc == Ok {
      SpentTwice(g, first, was, now, Asked(g, lb), 1 + MapCost(g, d, ino, lb));
    }
  }

  /** How storing a file of that size ends. */
  ghost function StoreRc(g: Geometry, groups: seq<CylGroup>, size: nat): (rc: Rc)
    ensures rc == Ok || rc == NoSpace || rc == TooBig
  {
    if TooLong(g, size) then (if Affords(g, groups, size, First(g, NIADDR) + 1) then TooBig else NoSpace)
    else if Affords(g, groups, size, Blocks(g, size)) then Ok else NoSpace
  }

  lemma Storable(g: Geometry, groups: seq<CylGroup>, size: nat)
    requires !TooLong(g, size) && Affords(g, groups, size, Blocks(g, size))
    ensures StoreRc(g, groups, size) == Ok
  {
    hide TooLong, Affords, Blocks;
  }

  /** Groups with the same room store the same files. */
  lemma SameOutcome(g: Geometry, a: seq<CylGroup>, b: seq<CylGroup>, size: nat)
    requires Spent(g, a, b, 0)
    ensures StoreRc(g, b, size) == StoreRc(g, a, size)
    ensures Affordable(g, b, size, 0) <==> Affordable(g, a, size, 0)
  {
    hide Superblock.Valid, Wholes, PartlyFits, Chunk, Blocks, First, TooLong, Asked;
    forall j: nat ensures Affordable(g, b, size, j) <==> Affordable(g, a, size, j) {
    }
  }

  /** The first block that cannot be had, or is out of reach, decides how storing ends. */
  lemma Ends(g: Geometry, groups: seq<CylGroup>, size: nat, lb: nat, rc: Rc)
    requires Affords(g, groups, size, lb) && forall j: nat | j < lb :: SpotOf(g, j) != Beyond
    requires lb <= Blocks(g, size)
    requires if lb == Blocks(g, size) then rc == Ok
             else rc != Ok && (rc == TooBig <==> Affordable(g, groups, size, lb))
                  && (Affordable(g, groups, size, lb) ==> SpotOf(g, lb) == Beyond)
    ensures rc == Ok <==> !TooLong(g, size) && Affords(g, groups, size, Blocks(g, size))
    ensures rc == TooBig <==> TooLong(g, size) && Affords(g, groups, size, First(g, NIADDR) + 1)
  {
    hide Affordable, Blocks, First, SpotOf, Superblock.Valid;
    SpotOfIs(g, lb);
    if lb > 0 {
      SpotOfIs(g, lb - 1);
    }
    FirstPositive(g);
    if TooLong(g, size) {
      var k: nat :| k < Blocks(g, size) && SpotOf(g, k) == Beyond;
      SpotOfIs(g, k);
    }
  }

  lemma FirstPositive(g: Geometry)
    ensures First(g, NIADDR) > 0
  {
    FirstMonotone(g, 0, NIADDR);
  }

  /** A write outside the indirect blocks leaves a map as snug as it was. */
  lemma SnugFrame(g: Geometry, d: seq<byte>, e: seq<byte>, ino: Inode, s: set<nat>, m: nat)
    requires ino.Shaped() && OnlyWrote(g, d, e, s) && InodeMeta(g, d, ino) !! s
    ensures Snug(g, e, ino, m) <==> Snug(g, d, ino, m)
  {
    hide Superblock.Valid, OnlyWrote, InodeMeta, SlotTree, Packed, SlotPart;
    MapFrame(g, d, e, ino, s);
  }

  lemma SnugFields(g: Geometry, d: seq<byte>, a: Inode, b: Inode, m: nat)
    requires a.Shaped() && b.db == a.db && b.ib == a.ib
    ensures Snug(g, d, b, m) <==> Snug(g, d, a, m)
  {
    hide Superblock.Valid, Packed, SlotPart, TreeOf;
    assert forall s: nat | s < NIADDR :: SlotTree(g, d, b, s) == SlotTree(g, d, a, s);
  }

  lemma BlankSnug(g: Geometry, d: seq<byte>, ino: Inode)
    requires Blank(ino)
    ensures ino.Shaped() && Snug(g, d, ino, 0)
  {
    hide Superblock.Valid, Span;
    FirstMonotone(g, 0, 1);
    FirstMonotone(g, 0, 2);
  }

  /** The file's blocks are mapped from the first to the last and nothing else is. */
  ghost predicate Compact(g: Geometry, d: seq<byte>, ino: Inode) {
    ino.Shaped() && Snug(g, d, ino, Blocks(g, ino.size))
  }

  /** The failure exit: everything laid out so far goes back and the free set is as it was. */
  method UndoLayout(img: Image, out: Inode, ghost d0: seq<byte>, ghost f0: set<nat>, ghost data: seq<byte>,
                    ghost xs: seq<Extent>, ghost total: nat) returns (cleared: Inode)
    requires img.Valid() && Laid(img.g, d0, f0, data, img.disk, img.Free(), out, xs, total) && !Inline(out)
    requires |xs| < Blocks(img.g, |data|)
    requires if xs == [] then Blank(out) else out.size == Start(img.g, |xs|)
    modifies img`groups, img`csum, img`total
    ensures img.Valid() && SameInodes(old(img.groups), img.groups)
    ensures img.Free() == f0 && Blank(cleared)
    ensures cleared == out.(db := cleared.db, ib := cleared.ib, size := cleared.size, blocks := cleared.blocks)
    ensures cleared.size == if xs == [] && TooLong(img.g, out.size) then out.size else 0
  {
    hide Superblock.Valid, CylGroup.Valid, FreeSet, Laid, FileOk, Owned, DataFrags, Covers, InodeMeta,
      InodeSeparate, Start, Blocks, Chunk, TooLong, OnlyWrote;
    LaidParts(img.g, d0, f0, data, img.disk, img.Free(), out, xs, total);
    if xs == [] {
      BlankMap(img.g, img.disk, out);
      BlankFile(img.g, img.disk, out);
      CoversNone([]);
    } else {
      WholeBlocks(img.g, |data|, |xs|);
      LaidIsFile(img.g, d0, f0, data, img.disk, img.Free(), out, xs, total);
    }
    var rc;
    rc, cleared := FreeFileStorage(img, out);
    cleared := if rc == Ok then cleared else out;
  }

  /** Allocates a run for block |xs| and maps it; on failure the run goes back. */
  method MapBlock(img: Image, preferred: nat, frags: nat, ino: Inode, lb: nat, sofar: nat,
                  ghost d0: seq<byte>, ghost f0: set<nat>, ghost data: seq<byte>, ghost xs: seq<Extent>)
    returns (rc: Rc, frag: nat, out: Inode, total: nat)
    requires img.Valid() && Laid(img.g, d0, f0, data, img.disk, img.Free(), ino, xs, sofar)
    requires lb == |xs| && 0 < frags <= img.g.fpb && (lb >= NDADDR ==> frags == img.g.fpb)
    modifies img`groups, img`csum, img`total, img`disk
    ensures img.Valid() && SameInodes(old(img.groups), img.groups)
    ensures rc == Ok || rc == NoSpace || rc == TooBig
    ensures out.Shaped() && out == ino.(db := out.db, ib := out.ib)
    ensures rc == Ok ==> Placed(img.g, frag, frags) && frag != 0 && Ptr(img.g, img.disk, out, lb) == frag
    ensures rc == Ok ==> Run(frag, frags) !! img.Free()
    ensures rc == Ok ==> Laid(img.g, d0, f0, data, img.disk, img.Free() + Run(frag, frags), out, xs, total)
    ensures rc != Ok ==> Laid(img.g, d0, f0, data, img.disk, img.Free(), out, xs, total) && (lb == 0 ==> out == ino)
    ensures BlockPaid(img.g, old(img.groups), img.groups, frags, SpotOf(img.g, lb) == Beyond,
                      MapCost(img.g, old(img.disk), ino, lb), rc)
    ensures rc == Ok && Snug(img.g, old(img.disk), ino, lb) ==> Snug(img.g, img.disk, out, lb + 1)
  {
    hide Superblock.Valid, Superblock.Off, CylGroup.Valid, FreeSet, Laid, Covers, InodeMeta, InodeSeparate, MapGrew,
      Mapped, SpotFrom, OnlyWrote, Run, Placed, Allotted, Ptr, SameInodes, GroupFits, SpotOf, Superblock.GroupOf, FileOk,
      BlockPaid, Wholes, CanHave, Spent, Paid, Snug, MapCost;
    ghost var d, free, was := img.disk, img.Free(), img.groups;
    LaidParts(img.g, d0, f0, data, d, free, ino, xs, sofar);
    SameInodesRefl(was);
    NoneFits(img.g, was, frags);
    ghost var c, b;
    rc, frag, c, b := AllocateFragsAnyCg(img, preferred, frags);
    if rc != Ok {
      BlockNotPaid(img.g, was, frags, SpotOf(img.g, lb) == Beyond, MapCost(img.g, d, ino, lb));
      return rc, 0, ino, sofar;
    }
    ghost var mid := img.groups;
    RunPaid(img.g, was, mid, c, b, frag, frags);
    rc, out, total := MapRun(img, preferred, frag, frags, ino, lb, sofar, d0, f0, data, xs, free);
    SameInodesTrans(was, mid, img.groups);
    NoMapCost(img.g, d, ino, lb);
    BlockIsPaid(img.g, was, mid, img.groups, frags, SpotOf(img.g, lb) == Beyond, MapCost(img.g, d, ino, lb), rc);
  }

  lemma RunPaid(g: Geometry, was: seq<CylGroup>, now: seq<CylGroup>, c: nat, block: nat, frag: nat, n: nat)
    requires |was| == g.ncg && c < g.ncg && was[c].Valid(g, c) && 0 < n <= g.fpb && Allotted(g, was, now, c, block, frag, n)
    ensures if n == g.fpb then Spent(g, was, now, 1) else Wholes(g, now) + 1 >= Wholes(g, was)
  {
    hide Superblock.Valid, Allotted, Wholes, Spent;
    GroupParts(g, was[c], c);
    if n == g.fpb {
      WholeSpent(g, was, now, c, block, frag);
    } else {
      AtMostOne(g, was, now, c, block, frag, n);
    }
  }

  lemma NoMapCost(g: Geometry, d: seq<byte>, ino: Inode, lb: nat)
    requires ino.Shaped()
    ensures lb < NDADDR ==> MapCost(g, d, ino, lb) == 0 && SpotOf(g, lb) != Beyond
  {
  }

  /** The second half: the run is in hand; map it, or give it back. */
  method MapRun(img: Image, preferred: nat, frag: nat, frags: nat, ino: Inode, lb: nat, sofar: nat,
                ghost d0: seq<byte>, ghost f0: set<nat>, ghost data: seq<byte>, ghost xs: seq<Extent>, ghost free: set<nat>)
    returns (rc: Rc, out: Inode, total: nat)
    requires img.Valid() && Laid(img.g, d0, f0, data, img.disk, free, ino, xs, sofar)
    requires lb == |xs| && 0 < frags <= img.g.fpb && Placed(img.g, frag, frags)
    requires Run(frag, frags) <= free && img.Free() == free - Run(frag, frags)
    modifies img`groups, img`csum, img`total, img`disk
    ensures img.Valid() && SameInodes(old(img.groups), img.groups)
    ensures rc == Ok || rc == NoSpace || rc == TooBig
    ensures out.Shaped() && out == ino.(db := out.db, ib := out.ib)
    ensures rc == Ok ==> Ptr(img.g, img.disk, out, lb) == frag && Run(frag, frags) !! img.Free()
    ensures rc == Ok ==> frag != 0 && Laid(img.g, d0, f0, data, img.disk, img.Free() + Run(frag, frags), out, xs, total)
    ensures rc != Ok ==> Laid(img.g, d0, f0, data, img.disk, img.Free(), out, xs, total) && (lb == 0 ==> out == ino)
    ensures rc == TooBig <==> SpotOf(img.g, lb) == Beyond
    ensures rc != TooBig ==> Paid(img.g, old(img.groups), img.groups, MapCost(img.g, old(img.disk), ino, lb), rc == Ok)
    ensures rc == Ok && Snug(img.g, old(img.disk), ino, lb) ==> Snug(img.g, img.disk, out, lb + 1)
  {
    hide Superblock.Valid, Superblock.Off, CylGroup.Valid, FreeSet, Laid, Covers, InodeMeta, InodeSeparate, MapGrew,
      Mapped, SpotFrom, OnlyWrote, Run, Placed, Ptr, SameInodes, SpotOf, Superblock.GroupOf, FileOk, Paid, Snug, MapCost;
    ghost var d, was := img.disk, img.groups;
    LaidParts(img.g, d0, f0, data, d, free, ino, xs, sofar);
    PlacedNonZero(img.g, frag, frags);
    var more;
    rc, out, more := SetInodeDataBlock(img, ino, lb, frag, preferred);
    LaidAfterSet(img.g, d0, f0, data, d, free, ino, xs, sofar, Run(frag, frags), img.disk, img.Free(), out, rc == Ok, frag, more);
    total := sofar + more;
    if rc == Ok {
      MappedAt(img.g, d, ino, img.disk, out, lb, frag);
    } else {
      ghost var mid := img.groups;
      var freed := FreeFragmentRun(img, frag, frags);
      SameInodesTrans(was, mid, img.groups);
      if rc != TooBig { NotPaid(img.g, was, mid, img.groups, MapCost(img.g, d, ino, lb)); }
    }
  }

  /** One round of the layout loop: allocate a run, map it, write its bytes. */
  method LayBlock(img: Image, preferred: nat, data: seq<byte>, ino: Inode, lb: nat, chunk: nat, sofar: nat,
                  ghost d0: seq<byte>, ghost f0: set<nat>, ghost xs: seq<Extent>)
    returns (rc: Rc, out: Inode, total: nat, ghost ys: seq<Extent>)
    requires img.Valid() && Laid(img.g, d0, f0, data, img.disk, img.Free(), ino, xs, sofar)
    requires lb == |xs| < Blocks(img.g, |data|) && chunk == Chunk(img.g, |data|, lb)
    modifies img`groups, img`csum, img`total, img`disk
    ensures img.Valid() && SameInodes(old(img.groups), img.groups)
    ensures rc == Ok || rc == NoSpace || rc == TooBig
    ensures Laid(img.g, d0, f0, data, img.disk, img.Free(), out, ys, total)
    ensures out == ino.(db := out.db, ib := out.ib)
    ensures if rc == Ok then |ys| == |xs| + 1 else ys == xs && (lb == 0 ==> out == ino)
    ensures BlockPaid(img.g, old(img.groups), img.groups, FragsFor(img.g, lb, chunk), SpotOf(img.g, lb) == Beyond,
                      MapCost(img.g, old(img.disk), ino, lb), rc)
    ensures rc == Ok && Snug(img.g, old(img.disk), ino, lb) ==> Snug(img.g, img.disk, out, lb + 1)
  {
    hide Superblock.Valid, Superblock.Off, CylGroup.Valid, FreeSet, Laid, Start, Blocks, Chunk, FragsFor,
      OnlyWrote, Bytes, Run, Placed, Ptr, Holds, SameInodes, BlockSize, BlockPaid, Snug, MapCost, SpotOf, InodeMeta, Covers;
    WholeAbove(img.g, lb, chunk);
    ChunkBounds(img.g, |data|, lb);
    FragsForBounds(img.g, lb, chunk);
    var frags, frag := FragsFor(img.g, lb, chunk), 0;
    rc, frag, out, total := MapBlock(img, preferred, frags, ino, lb, sofar, d0, f0, data, xs);
    ys := xs;
    if rc == Ok {
      ghost var x, d1, free1 := Extent(frag, frags), img.disk, img.Free() + Run(frag, frags);
      PlacedNonZero(img.g, frag, frags);
      BytesFit(img.g, img.disk, frag, frags);
      img.WriteExact(frag, frags, 0, ZeroPadded(data[Start(img.g, lb)..Start(img.g, lb) + chunk], img.g.Off(frags)));
      WrittenHolds(img.g, img.disk, x, data, lb, chunk);
      LaidMeta(img.g, d0, f0, data, d1, free1, out, xs, total);
      SnugFrame(img.g, d1, img.disk, out, Run(frag, frags), lb + 1);
      LaidAfterWrite(img.g, d0, f0, data, d1, free1, out, xs, total, x, img.disk);
      assert free1 - Run(frag, frags) == img.Free();
      total, ys := total + frags, xs + [x];
    }
  }

  lemma WholeAbove(g: Geometry, lb: nat, chunk: nat)
    ensures lb >= NDADDR ==> FragsFor(g, lb, chunk) == g.fpb
  {
  }

  lemma LaidMeta(g: Geometry, d0: seq<byte>, f0: set<nat>, data: seq<byte>,
                 d: seq<byte>, free: set<nat>, ino: Inode, xs: seq<Extent>, total: nat)
    requires Laid(g, d0, f0, data, d, free, ino, xs, total)
    ensures ino.Shaped() && InodeMeta(g, d, ino) !! free
  {
    hide InodeSeparate, InodeMeta, Apart, Covers, OnlyWrote, LaidBlock;
  }

  lemma ChunkBounds(g: Geometry, size: nat, lb: nat)
    requires lb < Blocks(g, size)
    ensures 0 < Chunk(g, size, lb) <= BlockSize(g) && Start(g, lb) + Chunk(g, size, lb) <= size
  {
    hide Superblock.Valid, Start, BlockSize, Blocks;
    BlocksIs(g, size, lb);
  }

  lemma MappedAt(g: Geometry, d: seq<byte>, ino: Inode, e: seq<byte>, out: Inode, lb: nat, v: nat)
    requires ino.Shaped() && out.Shaped() && Mapped(g, d, ino, e, out, true, lb, v)
    ensures Ptr(g, e, out, lb) == v
  {
  }

  lemma WrittenHolds(g: Geometry, d: seq<byte>, x: Extent, data: seq<byte>, lb: nat, chunk: nat)
    requires chunk == Chunk(g, |data|, lb) && Start(g, lb) + chunk <= |data| && chunk <= g.Off(x.n)
    requires Bytes(g, d, x.at, x.n) == ZeroPadded(data[Start(g, lb)..Start(g, lb) + chunk], g.Off(x.n))
    ensures Holds(g, d, x, data, lb)
  {
  }

  /** The room used when the first lb blocks are stored; before the last, only whole blocks. */
  ghost predicate Going(g: Geometry, first: seq<CylGroup>, now: seq<CylGroup>, d: seq<byte>, ino: Inode, size: nat, lb: nat) {
    && ino.Shaped() && Snug(g, d, ino, lb) && Affords(g, first, size, lb)
    && (forall j: nat | j < lb :: SpotOf(g, j) != Beyond)
    && Wholes(g, now) + Asked(g, lb) >= Wholes(g, first)
    && (Left(g, size, lb) > 0 ==> Spent(g, first, now, Asked(g, lb)))
  }

  lemma GoingFrom(g: Geometry, groups: seq<CylGroup>, d: seq<byte>, ino: Inode, size: nat)
    requires Blank(ino)
    ensures Going(g, groups, groups, d, ino, size, 0)
  {
    hide Superblock.Valid, Snug, Wholes, PartlyFits, Start;
    BlankSnug(g, d, ino);
    SpentNothing(g, groups);
  }

  lemma GoingOn(g: Geometry, first: seq<CylGroup>, was: seq<CylGroup>, now: seq<CylGroup>, size: nat, lb: nat,
                d: seq<byte>, ino: Inode, e: seq<byte>, out: Inode, rc: Rc)
    requires Going(g, first, was, d, ino, size, lb) && lb < Blocks(g, size) && out.Shaped()
    requires BlockPaid(g, was, now, FragsFor(g, lb, Chunk(g, size, lb)), SpotOf(g, lb) == Beyond, MapCost(g, d, ino, lb), rc)
    requires rc == Ok ==> Snug(g, e, out, lb + 1)
    ensures rc == Ok ==> Going(g, first, now, e, out, size, lb + 1) && Affordable(g, first, size, lb)
    ensures rc != Ok ==> (rc == TooBig <==> Affordable(g, first, size, lb))
    ensures rc != Ok && Affordable(g, first, size, lb) ==> SpotOf(g, lb) == Beyond
  {
    hide Superblock.Valid, Snug, Wholes, Spent, Start, Blocks, Chunk, FragsFor, SpotOf, Affordable, MapCost, BlockPaid, BlockSize, Left;
    ChunkBounds(g, size, lb);
    BlocksIs(g, size, lb);
    LeftNext(g, size, lb);
    FragsForBounds(g, lb, Chunk(g, size, lb));
    Round(g, first, was, now, size, lb, d, ino, rc);
    LastOrWhole(g, size, lb);
  }

  lemma LastOrWhole(g: Geometry, size: nat, lb: nat)
    ensures Left(g, size, lb + 1) > 0 ==> Chunk(g, size, lb) == BlockSize(g)
  {
    StartNext(g, lb);
  }

  lemma GoingFields(g: Geometry, first: seq<CylGroup>, now: seq<CylGroup>, d: seq<byte>, a: Inode, b: Inode, size: nat, lb: nat)
    requires Going(g, first, now, d, a, size, lb) && b.db == a.db && b.ib == a.ib
    ensures Going(g, first, now, d, b, size, lb)
  {
    hide Superblock.Valid, Snug, Wholes, Spent, Start, SpotOf, Affords, Left;
    SnugFields(g, d, a, b, lb);
  }

  function InSectors(g: Geometry, frags: nat): nat {
    frags * g.spf
  }

  /** One round with the size and block count brought up to date. */
  method LayRound(img: Image, preferred: nat, data: seq<byte>, ino: Inode, lb: nat, sofar: nat,
                  ghost d0: seq<byte>, ghost f0: set<nat>, ghost groups0: seq<CylGroup>, ghost xs: seq<Extent>)
    returns (rc: Rc, out: Inode, total: nat, ghost ys: seq<Extent>)
    requires img.Valid() && Laid(img.g, d0, f0, data, img.disk, img.Free(), ino, xs, sofar)
    requires lb == |xs| < Blocks(img.g, |data|) && SameInodes(groups0, img.groups)
    requires Going(img.g, groups0, img.groups, img.disk, ino, |data|, lb)
    modifies img`groups, img`csum, img`total, img`disk
    ensures img.Valid() && SameInodes(groups0, img.groups)
    ensures rc == Ok || rc == NoSpace || rc == TooBig
    ensures Laid(img.g, d0, f0, data, img.disk, img.Free(), out, ys, total)
    ensures if rc == Ok then |ys| == |xs| + 1 else ys == xs && (lb == 0 ==> out == ino)
    ensures out == if rc == Ok then ino.(db := out.db, ib := out.ib, size := Start(img.g, lb) + Chunk(img.g, |data|, lb), blocks := InSectors(img.g, total))
                   else ino.(db := out.db, ib := out.ib)
    ensures rc == Ok ==> Going(img.g, groups0, img.groups, img.disk, out, |data|, lb + 1) && Affordable(img.g, groups0, |data|, lb)
    ensures rc != Ok ==> (rc == TooBig <==> Affordable(img.g, groups0, |data|, lb))
    ensures rc != Ok && Affordable(img.g, groups0, |data|, lb) ==> SpotOf(img.g, lb) == Beyond
  {
    hide Superblock.Valid, CylGroup.Valid, FreeSet, Laid, Start, Blocks, Chunk, SameInodes, Left, BlockSize, BlockPaid, FragsFor, MapCost,
      Affordable, SpotOf, Affords, Spent, Wholes, Snug;
    ghost var was, d := img.groups, img.disk;
    LaidShaped(img.g, d0, f0, data, img.disk, img.Free(), ino, xs, sofar);
    rc, out, total, ys := LayBlock(img, preferred, data, ino, lb, Chunk(img.g, |data|, lb), sofar, d0, f0, xs);
    SameInodesTrans(groups0, was, img.groups);
    LaidShaped(img.g, d0, f0, data, img.disk, img.Free(), out, ys, total);
    GoingOn(img.g, groups0, was, img.groups, |data|, lb, d, ino, img.disk, out, rc);
    if rc == Ok {
      ghost var before := out;
      out := out.(size := Start(img.g, lb) + Chunk(img.g, |data|, lb), blocks := InSectors(img.g, total));
      LaidResized(img.g, d0, f0, data, img.disk, img.Free(), before, out, ys, total);
      GoingFields(img.g, groups0, img.groups, img.disk, before, out, |data|, lb + 1);
    }
  }

  lemma LaidShaped(g: Geometry, d0: seq<byte>, f0: set<nat>, data: seq<byte>,
                   d: seq<byte>, free: set<nat>, ino: Inode, xs: seq<Extent>, total: nat)
    requires Laid(g, d0, f0, data, d, free, ino, xs, total)
    ensures ino.Shaped()
  {
  }

  lemma GoingParts(g: Geometry, first: seq<CylGroup>, now: seq<CylGroup>, d: seq<byte>, ino: Inode, size: nat, lb: nat)
    requires Going(g, first, now, d, ino, size, lb)
    ensures Affords(g, first, size, lb) && (forall j: nat | j < lb :: SpotOf(g, j) != Beyond)
    ensures ino.Shaped() && Snug(g, d, ino, lb) && Wholes(g, now) + Asked(g, lb) >= Wholes(g, first)
  {
  }

  lemma GaveUp(g: Geometry, groups: seq<CylGroup>, size: nat, lb: nat, rc: Rc)
    requires Affords(g, groups, size, lb) && (forall j: nat | j < lb :: SpotOf(g, j) != Beyond) && lb < Blocks(g, size)
    requires rc != Ok && (rc == TooBig <==> Affordable(g, groups, size, lb))
    requires Affordable(g, groups, size, lb) ==> SpotOf(g, lb) == Beyond
    ensures TooLong(g, size) || !Affords(g, groups, size, Blocks(g, size))
    ensures rc == TooBig <==> TooLong(g, size) && Affords(g, groups, size, First(g, NIADDR) + 1)
    ensures rc == NoSpace || rc == TooBig ==> rc == StoreRc(g, groups, size)
    ensures lb == 0 ==> !Affordable(g, groups, size, 0)
  {
    hide Affordable, Blocks, First, SpotOf, Superblock.Valid, TooLong, Affords;
    Ends(g, groups, size, lb, rc);
    DirectSpot(g, 0);
  }

  /** The loop is through: the file is stored. */
  lemma Finished(g: Geometry, d0: seq<byte>, f0: set<nat>, groups0: seq<CylGroup>, data: seq<byte>,
                 d: seq<byte>, groups: seq<CylGroup>, before: Inode, out: Inode, xs: seq<Extent>, total: nat)
    requires Laid(g, d0, f0, data, d, FreeSet(g, groups), before, xs, total) && |xs| == Blocks(g, |data|)
    requires Going(g, groups0, groups, d, before, |data|, |xs|)
    requires out == before.(size := |data|, blocks := InSectors(g, total))
    ensures !TooLong(g, |data|) && Affords(g, groups0, |data|, Blocks(g, |data|))
    ensures FileOk(g, d, out) && Dense(g, d, out) && Compact(g, d, out) && out.Shaped()
    ensures Owned(g, d, out) <= f0 && FreeSet(g, groups) == f0 - Owned(g, d, out)
    ensures OnlyWrote(g, d0, d, Owned(g, d, out)) && OnlyWrote(g, d0, d, f0)
    ensures FileBytes(g, d, out) == data && out.blocks == |Owned(g, d, out)| * g.spf
    ensures Wholes(g, groups) + Asked(g, Blocks(g, |data|)) >= Wholes(g, groups0)
  {
    hide Superblock.Valid, FreeSet, Laid, FileOk, Owned, Covers, TooLong, Dense, FileBytes, InodeMeta,
      Start, Blocks, Chunk, OnlyWrote, Left, BlockSize, Going, Affordable, Affords, SpotOf, First, Wholes, Snug;
    var free := FreeSet(g, groups);
    GoingParts(g, groups0, groups, d, before, |data|, |xs|);
    LaidResized(g, d0, f0, data, d, free, before, out, xs, total);
    LaidParts(g, d0, f0, data, d, free, out, xs, total);
    LaidIsFile(g, d0, f0, data, d, free, out, xs, total);
    LaidReadsBack(g, d0, f0, data, d, free, out, xs, total);
    LaidIsDense(g, d0, f0, data, d, free, out, xs, total);
    OnlyWroteMore(g, d0, d, Covers(xs) + InodeMeta(g, d, out), f0);
    SnugFields(g, d, before, out, |xs|);
    Ends(g, groups0, |data|, |xs|, Ok);
  }

  /** nextufs__allocate_data_for_inode: store data as the contents of a blank inode. On failure
      nothing stays allocated; on success the inode owns exactly what was taken, has no holes and
      no other pointer, and reads back as data. It succeeds exactly when every block is in reach
      and can be had. */
  method AllocateDataForInode(img: Image, preferred: nat, data: seq<byte>, ino: Inode) returns (rc: Rc, out: Inode)
    requires img.Valid() && Blank(ino) && !Inline(ino)
    modifies img`groups, img`csum, img`total, img`disk
    ensures img.Valid() && SameInodes(old(img.groups), img.groups)
    ensures rc == StoreRc(img.g, old(img.groups), |data|)
    ensures rc != Ok ==> img.Free() == old(img.Free()) && Blank(out)
    ensures rc != Ok ==> out == ino.(db := out.db, ib := out.ib, size := out.size, blocks := out.blocks)
    ensures rc != Ok ==>
              out.size == if TooLong(img.g, ino.size) && !Affordable(img.g, old(img.groups), |data|, 0) then ino.size else 0
    ensures OnlyWrote(img.g, old(img.disk), img.disk, old(img.Free()))
    ensures rc == Ok ==> out == ino.(db := out.db, ib := out.ib, size := |data|, blocks := out.blocks)
    ensures rc == Ok ==> FileOk(img.g, img.disk, out) && Dense(img.g, img.disk, out) && !TooLong(img.g, out.size)
    ensures rc == Ok ==> Compact(img.g, img.disk, out)
    ensures rc == Ok ==> Owned(img.g, img.disk, out) <= old(img.Free())
    ensures rc == Ok ==> img.Free() == old(img.Free()) - Owned(img.g, img.disk, out)
    ensures rc == Ok ==> OnlyWrote(img.g, old(img.disk), img.disk, Owned(img.g, img.disk, out))
    ensures rc == Ok ==> FileBytes(img.g, img.disk, out) == data
    ensures rc == Ok ==> out.blocks == |Owned(img.g, img.disk, out)| * img.g.spf
    ensures rc == Ok ==> Wholes(img.g, img.groups) + Asked(img.g, Blocks(img.g, |data|)) >= Wholes(img.g, old(img.groups))
    ensures |data| == 0 ==> img.groups == old(img.groups)
  {
    hide Superblock.Valid, CylGroup.Valid, FreeSet, Laid, FileOk, Owned, Covers, TooLong, Dense, FileBytes, InodeMeta,
      Start, Blocks, Chunk, OnlyWrote, SameInodes, Left, BlockSize, Going, Affordable, Affords, SpotOf, First, Wholes, Compact, StoreRc, Asked, Superblock.Off;
    ghost var d0, f0, groups0, xs := img.disk, img.Free(), img.groups, [];
    LaidNothing(img.g, data, img.disk, img.Free(), ino);
    GoingFrom(img.g, img.groups, img.disk, ino, |data|);
    SameInodesRefl(img.groups);
    LeftNext(img.g, |data|, 0);
    var remaining: nat, lb: nat, total: nat := |data|, 0, 0;
    out := ino;
    while remaining > 0
      invariant img.Valid() && SameInodes(groups0, img.groups)
      invariant Laid(img.g, d0, f0, data, img.disk, img.Free(), out, xs, total)
      invariant Going(img.g, groups0, img.groups, img.disk, out, |data|, lb)
      invariant lb == |xs| && remaining == Left(img.g, |data|, lb) && lb <= Blocks(img.g, |data|)
      invariant out == ino.(db := out.db, ib := out.ib, size := out.size, blocks := out.blocks)
      invariant lb == 0 ==> out == ino && img.groups == groups0
      invariant |data| == 0 ==> lb == 0
      invariant lb > 0 && remaining > 0 ==> out.size == Start(img.g, lb)
      invariant lb > 0 ==> Affordable(img.g, groups0, |data|, 0)
      decreases remaining
    {
      BlocksIs(img.g, |data|, lb);
      BlocksIs(img.g, |data|, lb + 1);
      LeftNext(img.g, |data|, lb);
      ChunkBounds(img.g, |data|, lb);
      WholeChunk(img.g, |data|, lb);
      GoingParts(img.g, groups0, img.groups, img.disk, out, |data|, lb);
      rc, out, total, xs := LayRound(img, preferred, data, out, lb, total, d0, f0, groups0, xs);
      if rc != Ok {
        LaidParts(img.g, d0, f0, data, img.disk, img.Free(), out, xs, total);
        OnlyWroteMore(img.g, d0, img.disk, Covers(xs) + InodeMeta(img.g, img.disk, out), f0);
        GaveUp(img.g, groups0, |data|, lb, rc);
        ghost var was := img.groups;
        out := UndoLayout(img, out, d0, f0, data, xs, total);
        SameInodesTrans(groups0, was, img.groups);
        return;
      }
      lb, remaining := lb + 1, remaining - Chunk(img.g, |data|, lb);
    }
    ghost var before := out;
    out := out.(size := |data|, blocks := InSectors(img.g, total));
    BlocksIs(img.g, |data|, lb);
    Finished(img.g, d0, f0, groups0, data, img.disk, img.groups, before, out, xs, total);
    Storable(img.g, groups0, |data|);
    return Ok, out;
  }

  /** No logical block of the file is a hole. */
  ghost predicate Dense(g: Geometry, d: seq<byte>, ino: Inode) {
    ino.Shaped() && forall lb: nat | lb < Blocks(g, ino.size) :: Ptr(g, d, ino, lb) != 0
  }

  lemma LaidIsDense(g: Geometry, d0: seq<byte>, f0: set<nat>, data: seq<byte>,
                    d: seq<byte>, free: set<nat>, ino: Inode, xs: seq<Extent>, total: nat)
    requires Laid(g, d0, f0, data, d, free, ino, xs, total) && Blocks(g, ino.size) == |xs|
    ensures Dense(g, d, ino)
  {
    hide Superblock.Valid, Ptr, Laid, Blocks;
    LaidParts(g, d0, f0, data, d, free, ino, xs, total);
    forall lb: nat | lb < |xs| ensures Ptr(g, d, ino, lb) != 0 {
      LaidAt(g, d0, f0, data, d, free, ino, xs, total, lb);
    }
  }

  /** A block that is not the last one is full. */
  lemma WholeChunk(g: Geometry, size: nat, lb: nat)
    ensures Left(g, size, lb + 1) > 0 ==> Start(g, lb) + Chunk(g, size, lb) == Start(g, lb + 1)
  {
    StartNext(g, lb);
  }

  // ---- reading back ----

  /** The reader cannot resolve this block: out of reach, or its top-level pointer is missing. */
  ghost predicate Unresolvable(g: Geometry, ino: Inode, lb: nat)
    requires ino.Shaped()
  {
    SpotOf(g, lb) == Beyond || NoRoot(g, ino, lb)
  }

  ghost predicate Touches(g: Geometry, lb: nat, start: nat, end: nat) {
    start < end && Start(g, lb) < end && start < Start(g, lb) + BlockSize(g)
  }

  lemma FileByteAt(g: Geometry, d: seq<byte>, ino: Inode, lb: nat, o: nat)
    requires ino.Shaped() && o < Chunk(g, ino.size, lb)
    ensures Start(g, lb) + o < ino.size
    ensures FileBytes(g, d, ino)[Start(g, lb) + o] == BlockByte(g, d, Ptr(g, d, ino, lb), o)
  {
    hide Superblock.Valid, Start, BlockSize, Ptr, BlockByte;
    LbUnique(g, Start(g, lb) + o, lb);
  }

  /** A stored block's bytes lie on the disk. */
  lemma ChunkOnDisk(g: Geometry, d: seq<byte>, ino: Inode, lb: nat)
    requires FileOk(g, d, ino) && |d| == g.Off(g.fragCount) && lb < Blocks(g, ino.size) && Ptr(g, d, ino, lb) != 0
    ensures g.Off(Ptr(g, d, ino, lb)) + Chunk(g, ino.size, lb) <= |d|
  {
    hide Superblock.Valid, Start, BlockSize, Ptr, Chunk, Blocks, FragsFor, Placed, InodeSeparate, Covers, Superblock.Off;
    var x := FileExtents(g, d, ino)[lb];
    ChunkBounds(g, ino.size, lb);
    FragsForBounds(g, lb, Chunk(g, ino.size, lb));
    PlacedNonZero(g, x.at, x.n);
    BytesFit(g, d, x.at, x.n);
  }

  /** One round of the read loop: n bytes at offset o of logical block lb. */
  method ReadChunk(img: Image, ino: Inode, lb: nat, o: nat, n: nat) returns (rc: Rc, buf: seq<byte>)
    requires img.Valid() && FileOk(img.g, img.disk, ino) && 0 < n && o + n <= Chunk(img.g, ino.size, lb)
    ensures rc == if Unresolvable(img.g, ino, lb) then Invalid else Ok
    ensures rc == Ok ==> Start(img.g, lb) + o + n <= ino.size
    ensures rc == Ok ==> buf == FileBytes(img.g, img.disk, ino)[Start(img.g, lb) + o..Start(img.g, lb) + o + n]
  {
    hide Superblock.Valid, CylGroup.Valid, Start, BlockSize, Ptr, Chunk, Blocks, FragsFor, SpotOf, Superblock.Off,
      InodeSeparate, Apart, Covers, FileBytes, NoRoot;
    ghost var all := FileBytes(img.g, img.disk, ino);
    var data;
    rc, data := ResolveFileBlockFrag(img, ino, lb);
    if rc != Ok {
      return rc, [];
    }
    FileByteAt(img.g, img.disk, ino, lb, o + n - 1);
    if data == 0 {
      buf := seq(n, _ => 0);
    } else {
      BlocksOfChunk(img.g, ino.size, lb);
      ChunkOnDisk(img.g, img.disk, ino, lb);
      buf := img.disk[img.g.Off(data) + o..img.g.Off(data) + o + n];
    }
    forall k | 0 <= k < n ensures buf[k] == all[Start(img.g, lb) + o + k] {
      FileByteAt(img.g, img.disk, ino, lb, o + k);
    }
  }

  lemma BlocksOfChunk(g: Geometry, size: nat, lb: nat)
    requires Chunk(g, size, lb) > 0
    ensures lb < Blocks(g, size)
  {
    hide Superblock.Valid, Start, BlockSize, Blocks;
    BlocksIs(g, size, lb);
  }

  /** nextufs_inode_read_data: up to count bytes from start; fails exactly when a block it has to
      read cannot be resolved. */
  method InodeReadData(img: Image, ino: Inode, start: nat, count: nat) returns (rc: Rc, buf: seq<byte>)
    requires img.Valid() && ino.Shaped() && FileOk(img.g, img.disk, ino)
    ensures rc == Ok || rc == Invalid
    ensures rc == Ok <==>
              forall lb: nat :: Touches(img.g, lb, start, Min(start + count, ino.size)) ==> !Unresolvable(img.g, ino, lb)
    ensures rc == Ok ==>
              buf == if start >= ino.size then [] else FileBytes(img.g, img.disk, ino)[start..Min(start + count, ino.size)]
  {
    hide Superblock.Valid, CylGroup.Valid, FileOk, Start, BlockSize, Chunk, Unresolvable, FileBytes;
    if start >= ino.size {
      return Ok, [];
    }
    ghost var all, end := FileBytes(img.g, img.disk, ino), Min(start + count, ino.size);
    var remaining, lb := Min(ino.size - start, count), LbOf(img.g, start);
    var offset: nat := start - Start(img.g, lb);
    forall k: nat | k < lb ensures !Touches(img.g, k, start, end) {
      StartMonotone(img.g, k, lb);
    }
    buf := [];
    while remaining > 0
      invariant 0 <= remaining <= end - start && buf == all[start..end - remaining]
      invariant if remaining > 0 then Start(img.g, lb) + offset == end - remaining && offset < BlockSize(img.g)
                else start == end || end <= Start(img.g, lb)
      invariant forall k: nat | k < lb && Touches(img.g, k, start, end) :: !Unresolvable(img.g, ino, k)
    {
      var chunk := Min(BlockSize(img.g) - offset, remaining);
      var part;
      WithinChunk(img.g, ino.size, lb, offset, chunk);
      StartNext(img.g, lb);
      rc, part := ReadChunk(img, ino, lb, offset, chunk);
      if rc != Ok {
        assert Touches(img.g, lb, start, end);
        return;
      }
      assert all[start..end - remaining] + all[end - remaining..end - remaining + chunk]
          == all[start..end - remaining + chunk];
      buf := buf + part;
      remaining, lb, offset := remaining - chunk, lb + 1, 0;
    }
    forall k: nat | Touches(img.g, k, start, end) ensures k < lb {
      StartMonotone(img.g, lb, k);
    }
    return Ok, buf;
  }

  lemma WithinChunk(g: Geometry, size: nat, lb: nat, o: nat, n: nat)
    requires o + n <= BlockSize(g) && Start(g, lb) + o + n <= size
    ensures o + n <= Chunk(g, size, lb)
  {
  }

  /** A file without holes can be read in full. */
  lemma DenseResolves(g: Geometry, d: seq<byte>, ino: Inode, lb: nat)
    requires Dense(g, d, ino) && lb < Blocks(g, ino.size)
    ensures !Unresolvable(g, ino, lb)
  {
    hide Superblock.Valid, SpotFrom, Blocks, Meta, Separate;
    assert Ptr(g, d, ino, lb) != 0;
  }

  /** The free set and the inode side of the groups determine every bitmap and counter. */
  lemma FreeSetDetermines(g: Geometry, a: seq<CylGroup>, b: seq<CylGroup>, c: nat)
    requires |a| == |b| == g.ncg && c < g.ncg && a[c].Valid(g, c) && b[c].Valid(g, c)
    requires SameInodes(a, b) && FreeSet(g, a) == FreeSet(g, b)
    ensures b[c].free == a[c].free && b[c].cs == a[c].cs
    ensures forall st: Stat | st.For(g) :: b[c].Counter(g, st) == a[c].Counter(g, st)
  {
    hide Superblock.Valid, Superblock.Base, FreeSet;
    forall i | 0 <= i < g.fpg ensures b[c].free[i] == a[c].free[i] {
      FreeSetBit(g, a, c, i);
      FreeSetBit(g, b, c, i);
    }
    assert b[c].free == a[c].free;
    assert b[c].Counter(g, NBFree) == a[c].Counter(g, NBFree);
    assert b[c].Counter(g, NFFree) == a[c].Counter(g, NFFree);
    assert InodeSide(b[c]) == InodeSide(a[c]);
  }

  lemma FreeSetBit(g: Geometry, a: seq<CylGroup>, c: nat, i: nat)
    requires c < |a| && |a[c].free| == g.fpg && i < g.fpg
    ensures g.Base(c) + i in FreeSet(g, a) <==> a[c].free[i]
  {
    GlobalRun(g, c, i, 1, g.Base(c) + i);
    RunBound(g.fpg, |a|, c, i, 1);
    assert IsFree(g, a, g.Base(c) + i) <==> a[c].free[i];
  }

  // ---- round trips ----

  /** What was stored is what a read returns, at every offset and length, through every level of
      indirection. */
  method StoreThenRead(img: Image, preferred: nat, data: seq<byte>, ino: Inode, start: nat, count: nat) returns (rc: Rc, buf: seq<byte>)
    requires img.Valid() && Blank(ino) && !Inline(ino)
    modifies img`groups, img`csum, img`total, img`disk
    ensures img.Valid() && (rc == Ok || rc == NoSpace || rc == TooBig)
    ensures rc == Ok ==> buf == if start >= |data| then [] else data[start..Min(start + count, |data|)]
  {
    hide Superblock.Valid, CylGroup.Valid, FreeSet, FileOk, Owned, TooLong, Dense, FileBytes, Start, BlockSize, Unresolvable,
      OnlyWrote, SameInodes;
    var out;
    rc, out := AllocateDataForInode(img, preferred, data, ino);
    if rc != Ok {
      return rc, [];
    }
    DenseReads(img.g, img.disk, out);
    rc, buf := InodeReadData(img, out, start, count);
  }

  lemma DenseReads(g: Geometry, d: seq<byte>, ino: Inode)
    requires Dense(g, d, ino)
    ensures ino.Shaped()
    ensures forall lb: nat, a: nat, b: nat :: Touches(g, lb, a, Min(b, ino.size)) ==> !Unresolvable(g, ino, lb)
  {
    hide Superblock.Valid, Start, BlockSize, Unresolvable, Blocks;
    forall lb: nat, a: nat, b: nat | Touches(g, lb, a, Min(b, ino.size)) ensures !Unresolvable(g, ino, lb) {
      BlocksIs(g, ino.size, lb);
      DenseResolves(g, d, ino, lb);
    }
  }

  /** Storing and then freeing, or failing to store, brings every bitmap and every counter of every
      group back. */
  method StoreThenFree(img: Image, preferred: nat, data: seq<byte>, ino: Inode) returns (rc: Rc)
    requires img.Valid() && Blank(ino) && !Inline(ino)
    modifies img`groups, img`csum, img`total, img`disk
    ensures img.Valid() && img.Free() == old(img.Free())
    ensures forall c | 0 <= c < img.g.ncg :: SameMaps(img.g, old(img.groups), img.groups, c)
  {
    hide Superblock.Valid, CylGroup.Valid, FileOk, Owned, TooLong, Dense, FileBytes, OnlyWrote, SameInodes, SameMaps, FreeSet;
    ghost var was, free := img.groups, img.Free();
    var out;
    rc, out := AllocateDataForInode(img, preferred, data, ino);
    ghost var mid := img.groups;
    if rc == Ok {
      OwnedShaped(img.g, img.disk, out);
      rc, out := FreeFileStorage(img, out);
      SameInodesTrans(was, mid, img.groups);
    }
    forall c | 0 <= c < img.g.ncg ensures SameMaps(img.g, was, img.groups, c) {
      MapsReturn(img.g, was, img.groups, c);
    }
  }

  lemma MapsReturn(g: Geometry, a: seq<CylGroup>, b: seq<CylGroup>, c: nat)
    requires |a| == |b| == g.ncg && c < g.ncg && a[c].Valid(g, c) && b[c].Valid(g, c)
    requires SameInodes(a, b) && FreeSet(g, a) == FreeSet(g, b)
    ensures SameMaps(g, a, b, c)
  {
    hide Superblock.Valid, FreeSet, SameInodes, Recount;
    FreeSetDetermines(g, a, b, c);
  }

  /** Two states of one group have the same map and the same counters. */
  ghost predicate SameMaps(g: Geometry, a: seq<CylGroup>, b: seq<CylGroup>, c: nat) {
    && c < |a| == |b| && a[c].Shaped(g) && b[c].Shaped(g)
    && b[c].free == a[c].free && b[c].cs == a[c].cs
    && forall st: Stat | st.For(g) :: b[c].Counter(g, st) == a[c].Counter(g, st)
  }

  lemma OwnedShaped(g: Geometry, d: seq<byte>, ino: Inode)
    requires FileOk(g, d, ino)
    ensures ino.Shaped()
  {
  }
}
