/** resize_grow as a whole: what a larger image keeps of the smaller one. */
module Resize {
  import opened Geometry
  import opened FreeMap
  import opened Image
  import opened Alloc
  import opened Indirect
  import opened FileMap
  import opened Storage
  import opened Mutate
  import opened Dirents
  import opened Dirs
  import opened Links
  import opened Tree
  import opened Commands
  import opened Evacuate
  import Tally
  import FsckClaims
  import FsckClean
  import FsckRead
  import FsckWalk
  import Grow

  // ---- the same shapes in a larger image ----

  /** The larger image begins with the bytes of the smaller one and is zero behind them. */
  ghost predicate Larger(g: Geometry, h: Geometry, d: seq<byte>, e: seq<byte>) {
    && Grow.Grown(g, h) && |d| == g.Off(g.fragCount) && |d| <= |e| && e[..|d|] == d
    && forall k | |d| <= k < |e| :: e[k] == 0
  }

  /** The fragments the summary area gains. */
  ghost function Gained(g: Superblock, h: Superblock): set<nat> {
    if g.csumFrags <= h.csumFrags then Run(g.csumAddr + g.csumFrags, h.csumFrags - g.csumFrags) else {}
  }

  lemma SizesSame(g: Geometry, h: Geometry)
    requires Grow.Grown(g, h)
    ensures PerBlock(h) == PerBlock(g) && BlockSize(h) == BlockSize(g)
    ensures forall f: nat :: h.Off(f) == g.Off(f)
  {
  }

  lemma BlocksSame(g: Geometry, h: Geometry, size: nat, lb: nat)
    requires Grow.Grown(g, h)
    ensures Blocks(h, size) == Blocks(g, size) && Start(h, lb) == Start(g, lb) && LbOf(h, lb) == LbOf(g, lb)
    ensures Chunk(h, size, lb) == Chunk(g, size, lb)
    ensures forall n: nat :: FragsFor(h, lb, n) == FragsFor(g, lb, n)
  {
    hide Superblock.Valid, BlockSize;
    SizesSame(g, h);
  }

  lemma {:induction false} SpanSame(g: Geometry, h: Geometry, level: nat)
    requires Grow.Grown(g, h)
    ensures Span(h, level) == Span(g, level)
  {
    hide Superblock.Valid, PerBlock;
    SizesSame(g, h);
    if level > 0 {
      SpanSame(g, h, level - 1);
    }
  }

  lemma {:induction false} LookupSame(g: Geometry, h: Geometry, t: Indirect.Tree, level: nat, idx: nat)
    requires Grow.Grown(g, h)
    ensures Lookup(h, t, level, idx) == Lookup(g, t, level, idx)
    decreases t
  {
    hide Superblock.Valid, Span;
    match t
    case Hole =>
    case Leaf(_, _) =>
    case Node(_, kids) =>
      if level > 0 {
        SpanSame(g, h, level - 1);
        var i := idx / Span(g, level - 1);
        if i < |kids| {
          LookupSame(g, h, kids[i], level - 1, idx % Span(g, level - 1));
        }
      }
  }

  lemma {:induction false} SpotFromSame(g: Geometry, h: Geometry, local: nat, slot: nat)
    requires Grow.Grown(g, h) && slot <= NIADDR
    ensures SpotFrom(h, local, slot) == SpotFrom(g, local, slot)
    decreases NIADDR - slot
  {
    hide Superblock.Valid, Span;
    if slot < NIADDR {
      SpanSame(g, h, slot + 1);
      if local >= Span(g, slot + 1) {
        SpotFromSame(g, h, local - Span(g, slot + 1), slot + 1);
      }
    }
  }

  lemma SpotSame(g: Geometry, h: Geometry, lb: nat)
    requires Grow.Grown(g, h)
    ensures SpotOf(h, lb) == SpotOf(g, lb)
  {
    hide Superblock.Valid, SpotFrom;
    if lb >= NDADDR {
      SpotFromSame(g, h, lb - NDADDR, 0);
    }
  }

  lemma {:induction false} MetaSame(g: Geometry, h: Geometry, t: Indirect.Tree)
    requires Grow.Grown(g, h)
    ensures Meta(h, t) == Meta(g, t)
    decreases t
  {
    hide Superblock.Valid, Run;
    match t
    case Hole =>
    case Leaf(_, _) =>
    case Node(_, kids) =>
      forall i | 0 <= i < |kids| ensures Meta(h, kids[i]) == Meta(g, kids[i]) {
        MetaSame(g, h, kids[i]);
      }
  }

  /** A run clear of what the summary area gains is placed as well in the larger image. */
  lemma PlacedGrown(g: Geometry, h: Geometry, f: nat, n: nat)
    requires Grow.Grown(g, h) && Placed(g, f, n) && Run(f, n) !! Gained(g, h)
    ensures Placed(h, f, n)
  {
    hide Superblock.Valid, Superblock.GroupFrags, Superblock.Base;
    Grow.FragsGrow(g, h, g.GroupOf(f));
    RunMembers(f, n);
    RunMembers(g.csumAddr + g.csumFrags, h.csumFrags - g.csumFrags);
    forall i | g.LocalOf(f) <= i < g.LocalOf(f) + n ensures !h.Reserved(g.GroupOf(f), i) {
      assert !g.Reserved(g.GroupOf(f), i);
      if g.GroupOf(f) == 0 {
        assert g.LocalOf(f) == f;
        assert i in Run(f, n);
      }
    }
  }

  lemma {:induction false} SeparateGrown(g: Geometry, h: Geometry, t: Indirect.Tree)
    requires Grow.Grown(g, h) && Separate(g, t) && Meta(g, t) !! Gained(g, h)
    ensures Separate(h, t)
    decreases t
  {
    hide Superblock.Valid, Run, Placed, Gained;
    match t
    case Hole =>
    case Leaf(at, _) => PlacedGrown(g, h, at, g.fpb);
    case Node(at, kids) =>
      PlacedGrown(g, h, at, g.fpb);
      forall i | 0 <= i < |kids| ensures Separate(h, kids[i]) && Meta(h, kids[i]) == Meta(g, kids[i]) {
        assert Meta(g, kids[i]) <= Meta(g, t);
        SeparateGrown(g, h, kids[i]);
        MetaSame(g, h, kids[i]);
      }
  }

  lemma EntriesSame(g: Geometry, h: Geometry, d: seq<byte>, e: seq<byte>, f: nat)
    requires Larger(g, h, d, e) && Placed(g, f, g.fpb)
    ensures Entries(h, e, f) == Entries(g, d, f)
  {
    hide Superblock.Valid, Superblock.Off, EntriesOf, PerBlock, Placed;
    SizesSame(g, h);
    PlacedNonZero(g, f, g.fpb);
    BytesFit(g, d, f, g.fpb);
    g.OffMonotone(f, f + g.fpb);
    SliceOfPrefix(e, |d|, g.Off(f), g.Off(f + g.fpb));
  }

  lemma SliceOfPrefix(e: seq<byte>, n: nat, a: nat, b: nat)
    requires a <= b <= n <= |e|
    ensures e[..n][a..b] == e[a..b]
  {
  }

  lemma {:induction false} TreeSame(g: Geometry, h: Geometry, d: seq<byte>, e: seq<byte>, root: nat, level: nat)
    requires Larger(g, h, d, e) && Separate(g, TreeOf(g, d, root, level))
    ensures TreeOf(h, e, root, level) == TreeOf(g, d, root, level)
    decreases level
  {
    hide Superblock.Valid, Superblock.Off, Run, PerBlock, Entries, Placed, Larger;
    if root != 0 {
      LargerIs(g, h, d, e);
      SizesSame(g, h);
      EntriesSame(g, h, d, e, root);
      if level > 1 {
        var es, t := Entries(g, d, root), TreeOf(g, d, root, level);
        forall i | 0 <= i < |es| ensures TreeOf(h, e, es[i], level - 1) == TreeOf(g, d, es[i], level - 1) {
          assert t.kids[i] == TreeOf(g, d, es[i], level - 1);
          TreeSame(g, h, d, e, es[i], level - 1);
        }
      }
    }
  }

  lemma LargerIs(g: Geometry, h: Geometry, d: seq<byte>, e: seq<byte>)
    requires Larger(g, h, d, e)
    ensures Grow.Grown(g, h) && |d| == g.Off(g.fragCount)
  {
  }

  lemma PartSame(g: Geometry, h: Geometry, level: nat, m: nat, i: nat)
    requires Grow.Grown(g, h) && level > 0
    ensures Part(h, level, m, i) == Part(g, level, m, i)
  {
    hide Superblock.Valid, Span;
    SpanSame(g, h, level - 1);
  }

  lemma {:induction false} FilledSame(g: Geometry, h: Geometry, t: Indirect.Tree, level: nat, m: nat)
    requires Grow.Grown(g, h)
    ensures Filled(h, t, level, m) <==> Filled(g, t, level, m)
    decreases t
  {
    hide Superblock.Valid, Part, PerBlock;
    SizesSame(g, h);
    match t
    case Hole =>
    case Leaf(_, _) =>
    case Node(_, kids) =>
      if level > 1 {
        forall i: nat | i < |kids|
          ensures Part(h, level, m, i) == Part(g, level, m, i)
          ensures Filled(h, kids[i], level - 1, Part(g, level, m, i)) <==> Filled(g, kids[i], level - 1, Part(g, level, m, i))
        {
          PartSame(g, h, level, m, i);
          FilledSame(g, h, kids[i], level - 1, Part(g, level, m, i));
        }
      }
  }

  lemma {:induction false} FirstSame(g: Geometry, h: Geometry, slot: nat)
    requires Grow.Grown(g, h)
    ensures First(h, slot) == First(g, slot)
  {
    hide Superblock.Valid, Span;
    if slot > 0 {
      FirstSame(g, h, slot - 1);
      SpanSame(g, h, slot);
    }
  }

  lemma SlotPartSame(g: Geometry, h: Geometry, m: nat, slot: nat)
    requires Grow.Grown(g, h)
    ensures SlotPart(h, m, slot) == SlotPart(g, m, slot)
  {
    hide Superblock.Valid, Span, First;
    FirstSame(g, h, slot);
    SpanSame(g, h, slot + 1);
  }

  // ---- one file ----

  /** An inode's map and its indirect blocks. */
  lemma MapSame(g: Geometry, h: Geometry, d: seq<byte>, e: seq<byte>, ino: Inode)
    requires Larger(g, h, d, e) && ino.Shaped() && InodeSeparate(g, d, ino)
    ensures forall k | 0 <= k < NIADDR :: SlotTree(h, e, ino, k) == SlotTree(g, d, ino, k)
    ensures InodeMeta(h, e, ino) == InodeMeta(g, d, ino)
    ensures forall j: nat :: Ptr(h, e, ino, j) == Ptr(g, d, ino, j)
  {
    hide Superblock.Valid, Superblock.Off, Larger, TreeOf, Meta, Separate, Lookup, SpotOf;
    LargerIs(g, h, d, e);
    forall k | 0 <= k < NIADDR ensures SlotTree(h, e, ino, k) == SlotTree(g, d, ino, k) {
      assert Separate(g, SlotTree(g, d, ino, k));
      TreeSame(g, h, d, e, ino.ib[k], k + 1);
    }
    MetaSame(g, h, SlotTree(g, d, ino, 0));
    MetaSame(g, h, SlotTree(g, d, ino, 1));
    MetaSame(g, h, SlotTree(g, d, ino, 2));
    forall j: nat ensures Ptr(h, e, ino, j) == Ptr(g, d, ino, j) {
      SpotSame(g, h, j);
      match SpotOf(g, j)
      case Under(s, idx) => if s < NIADDR { LookupSame(g, h, SlotTree(g, d, ino, s), s + 1, idx); }
      case _ =>
    }
  }

  lemma SeparateSame(g: Geometry, h: Geometry, d: seq<byte>, e: seq<byte>, ino: Inode)
    requires Larger(g, h, d, e) && ino.Shaped() && InodeSeparate(g, d, ino) && InodeMeta(g, d, ino) !! Gained(g, h)
    ensures InodeSeparate(h, e, ino)
  {
    hide Superblock.Valid, Superblock.Off, Larger, SlotTree, Meta, Separate, Ptr, Gained;
    LargerIs(g, h, d, e);
    MapSame(g, h, d, e, ino);
    forall k | 0 <= k < NIADDR
      ensures Separate(h, SlotTree(h, e, ino, k)) && Meta(h, SlotTree(h, e, ino, k)) == Meta(g, SlotTree(g, d, ino, k))
    {
      assert k == 0 || k == 1 || k == 2;
      SeparateGrown(g, h, SlotTree(g, d, ino, k));
      MetaSame(g, h, SlotTree(g, d, ino, k));
    }
  }

  lemma ExtentsSame(g: Geometry, h: Geometry, d: seq<byte>, e: seq<byte>, ino: Inode)
    requires Grow.Grown(g, h) && ino.Shaped() && forall j: nat :: Ptr(h, e, ino, j) == Ptr(g, d, ino, j)
    ensures FileExtents(h, e, ino) == FileExtents(g, d, ino)
  {
    hide Superblock.Valid, Ptr, Blocks, Chunk, FragsFor, Start, LbOf;
    BlocksSame(g, h, ino.size, 0);
    forall j: nat | j < Blocks(g, ino.size) ensures FileExtents(h, e, ino)[j] == FileExtents(g, d, ino)[j] {
      BlocksSame(g, h, ino.size, j);
    }
  }

  lemma ApartGrown(g: Geometry, h: Geometry, xs: seq<Extent>)
    requires Grow.Grown(g, h) && Apart(g, xs) && Covers(xs) !! Gained(g, h)
    ensures Apart(h, xs)
  {
    hide Superblock.Valid, Placed, Gained, Covers, Run;
    forall i | 0 <= i < |xs| && xs[i].at != 0 ensures Placed(h, xs[i].at, xs[i].n) {
      CoversHas(xs, i);
      PlacedGrown(g, h, xs[i].at, xs[i].n);
    }
  }

  lemma ReadsSame(g: Geometry, h: Geometry, d: seq<byte>, e: seq<byte>, ino: Inode)
    requires Larger(g, h, d, e) && ino.Shaped() && forall j: nat :: Ptr(h, e, ino, j) == Ptr(g, d, ino, j)
    ensures FileBytes(h, e, ino) == FileBytes(g, d, ino)
  {
    hide Superblock.Valid, Superblock.Off, Ptr, Start, LbOf, Blocks, Chunk, FragsFor;
    SizesSame(g, h);
    forall p | 0 <= p < ino.size ensures FileBytes(h, e, ino)[p] == FileBytes(g, d, ino)[p] {
      BlocksSame(g, h, 0, p);
      BlocksSame(g, h, 0, LbOf(g, p));
      var at, o := Ptr(g, d, ino, LbOf(g, p)), p - Start(g, LbOf(g, p));
      if at != 0 && g.Off(at) + o < |e| {
        assert g.Off(at) + o < |d| ==> e[..|d|][g.Off(at) + o] == d[g.Off(at) + o];
      }
    }
  }

  lemma TooLongSame(g: Geometry, h: Geometry, size: nat)
    requires Grow.Grown(g, h)
    ensures TooLong(h, size) <==> TooLong(g, size)
  {
    hide Superblock.Valid, Blocks, Chunk, FragsFor, Start, LbOf, SpotOf;
    BlocksSame(g, h, size, 0);
    forall lb: nat ensures SpotOf(h, lb) == SpotOf(g, lb) {
      SpotSame(g, h, lb);
    }
  }

  lemma CompactSame(g: Geometry, h: Geometry, d: seq<byte>, e: seq<byte>, ino: Inode)
    requires Larger(g, h, d, e) && ino.Shaped() && InodeSeparate(g, d, ino) && Compact(g, d, ino)
    ensures Compact(h, e, ino)
  {
    hide Superblock.Valid, Superblock.Off, Larger, SlotTree, Filled, Blocks, Chunk, FragsFor, Start, LbOf, SlotPart, InodeSeparate, Ptr;
    LargerIs(g, h, d, e);
    MapSame(g, h, d, e, ino);
    BlocksSame(g, h, ino.size, 0);
    var m := Blocks(g, ino.size);
    forall s: nat | s < NIADDR ensures Packed(h, SlotTree(h, e, ino, s), s + 1, SlotPart(h, m, s)) {
      SlotPartSame(g, h, m, s);
      FilledSame(g, h, SlotTree(g, d, ino, s), s + 1, SlotPart(g, m, s));
    }
  }

  /** A file whose fragments the summary area does not take is the same file in the larger image. */
  lemma FileSame(g: Geometry, h: Geometry, d: seq<byte>, e: seq<byte>, ino: Inode)
    requires Larger(g, h, d, e) && FileOk(g, d, ino) && Owned(g, d, ino) !! Gained(g, h)
    ensures FileOk(h, e, ino) && Owned(h, e, ino) == Owned(g, d, ino) && FileBytes(h, e, ino) == FileBytes(g, d, ino)
    ensures CountsOwned(h, e, ino) <==> CountsOwned(g, d, ino)
    ensures Compact(g, d, ino) ==> Compact(h, e, ino)
  {
    hide Superblock.Valid, Superblock.Off, Larger, Ptr, Blocks, InodeMeta, InodeSeparate, Apart, Covers, Gained, FileBytes, Compact;
    LargerIs(g, h, d, e);
    MapSame(g, h, d, e, ino);
    SeparateSame(g, h, d, e, ino);
    ExtentsSame(g, h, d, e, ino);
    ApartGrown(g, h, FileExtents(g, d, ino));
    ReadsSame(g, h, d, e, ino);
    if Compact(g, d, ino) {
      CompactSame(g, h, d, e, ino);
    }
  }

  // ---- the free fragments of the larger image ----

  /** Data fragments that were not there before. */
  ghost function NewSpace(g: Geometry, h: Geometry): set<nat> {
    set f: nat | g.fragCount <= f < h.fragCount && !h.Reserved(h.GroupOf(f), h.LocalOf(f))
  }

  /** A fragment of an old group. */
  lemma OldFragment(g: Geometry, h: Geometry, was: seq<CylGroup>, now: seq<CylGroup>, f: nat)
    requires Grow.Grown(g, h) && Grow.GrownGroups(g, h, was, now) && g.GroupOf(f) < g.ncg && SummaryInside(g, h)
    requires was[g.GroupOf(f)].Valid(g, g.GroupOf(f))
    ensures IsFree(h, now, f) <==> f !in Gained(g, h) && (IsFree(g, was, f) || g.fragCount <= f < h.fragCount)
    ensures IsFree(g, was, f) ==> f < g.fragCount
  {
    hide Superblock.Valid, CylGroup.Counted, Grow.Built, Grow.SameMarked, Superblock.GroupFrags, Grow.GrownGroups, Superblock.Base,
      Superblock.GroupOf, Superblock.LocalOf;
    var c, i := g.GroupOf(f), g.LocalOf(f);
    Located(g, h, f);
    GrownAt(g, h, was, now, c, i);
    RunMembers(g.csumAddr + g.csumFrags, h.csumFrags - g.csumFrags);
    assert f in Gained(g, h) <==> c == 0 && g.csumAddr + g.csumFrags <= i < h.csumAddr + h.csumFrags;
  }

  /** The longer summary area stays in group 0. */
  ghost predicate SummaryInside(g: Superblock, h: Superblock) {
    h.csumFrags > g.csumFrags ==> h.csumAddr + h.csumFrags <= g.fpg
  }

  lemma GrownAt(g: Geometry, h: Geometry, was: seq<CylGroup>, now: seq<CylGroup>, c: nat, i: nat)
    requires Grow.GrownGroups(g, h, was, now) && c < g.ncg && i < g.fpg
    ensures |was| == g.ncg && |now| == h.ncg >= g.ncg && Grow.GrownBit(g, h, was[c].free, now[c].free, c, i)
  {
    hide Superblock.Valid, Grow.Built, Grow.SameMarked, Grow.GrownBit;
  }

  /** Where a fragment of an old group lies, in numbers. */
  lemma Located(g: Geometry, h: Geometry, f: nat)
    requires Grow.Grown(g, h) && g.GroupOf(f) < g.ncg
    ensures var c, i := g.GroupOf(f), g.LocalOf(f);
            && h.GroupOf(f) == c && h.LocalOf(f) == i < g.fpg && f == g.Base(c) + i
            && (f < g.fragCount <==> i < g.GroupFrags(c))
            && (f < h.fragCount <==> i < h.GroupFrags(c))
            && (g.fragCount <= f < h.fragCount ==> c == g.ncg - 1)
            && (if c == 0 then f == i else f >= g.fpg)
  {
    hide Superblock.Valid;
    var c := g.GroupOf(f);
    DivBounds(f, g.fpg);
    GroupSizes(g, c);
    GroupSizes(h, c);
    if c > 0 { MulAtLeast(c, g.fpg); }
  }

  lemma GroupSizes(g: Geometry, c: nat)
    requires c < g.ncg
    ensures c < g.ncg - 1 ==> g.Base(c) + g.fpg <= g.fragCount && g.GroupFrags(c) == g.fpg
    ensures g.Base(c) < g.fragCount && g.GroupFrags(c) == (if g.fragCount - g.Base(c) < g.fpg then g.fragCount - g.Base(c) else g.fpg)
  {
    hide Superblock.Base;
    GroupFragsBounds(g, c);
  }

  /** A fragment of a new group. */
  lemma NewFragment(g: Geometry, h: Geometry, now: seq<CylGroup>, f: nat)
    requires Grow.Grown(g, h) && g.ncg <= h.GroupOf(f) < h.ncg == |now| && SummaryInside(g, h)
    requires Grow.Built(h, h.GroupOf(f), now[h.GroupOf(f)]) && h.Upper(h.GroupOf(f)) <= h.GroupFrags(h.GroupOf(f))
    ensures f >= g.fragCount && f !in Gained(g, h)
    ensures IsFree(h, now, f) <==> f < h.fragCount && !h.Reserved(h.GroupOf(f), h.LocalOf(f))
  {
    hide Superblock.Valid, Superblock.Lower, Superblock.Upper;
    var c := h.GroupOf(f);
    DivBounds(f, h.fpg);
    GroupSizes(h, c);
    BaseMonotone(g, g.ncg, c);
    BaseMonotone(g, 1, c);
    Grow.MetadataOrder(h, c);
    assert f == h.Base(c) + h.LocalOf(f);
    RunMembers(g.csumAddr + g.csumFrags, h.csumFrags - g.csumFrags);
    LastBase(g);
  }

  lemma LastBase(g: Geometry)
    ensures g.fragCount <= g.Base(g.ncg) && g.Base(1) == g.fpg
  {
  }

  /** What the old groups gain is data, or the summary area's. */
  lemma TailIsData(g: Geometry, h: Geometry, f: nat)
    requires Grow.Grown(g, h) && g.GroupOf(f) < g.ncg && g.fragCount <= f < h.fragCount
    requires Grow.Roomy(g) && Grow.MetadataEndsInside(g)
    ensures h.Reserved(h.GroupOf(f), h.LocalOf(f)) ==> f in Gained(g, h)
  {
    hide Superblock.Valid, Superblock.GroupFrags, Superblock.Base, Superblock.GroupOf, Superblock.LocalOf;
    Located(g, h, f);
    RunMembers(g.csumAddr + g.csumFrags, h.csumFrags - g.csumFrags);
    assert g.Lower(g.ncg - 1) <= g.Upper(g.ncg - 1) <= g.GroupFrags(g.ncg - 1);
  }

  /** Growing adds the data fragments that were not there, and takes those of the longer summary area. */
  lemma FreeSetGrown(g: Geometry, h: Geometry, was: seq<CylGroup>, now: seq<CylGroup>)
    requires Grow.Grown(g, h) && Grow.GrownGroups(g, h, was, now) && SummaryInside(g, h)
    requires |was| == g.ncg && (forall c | 0 <= c < g.ncg :: was[c].Valid(g, c)) && Grow.Roomy(g) && Grow.MetadataEndsInside(g)
    requires forall c: nat | g.ncg <= c < h.ncg :: h.Upper(c) <= h.GroupFrags(c)
    ensures FreeSet(h, now) == FreeSet(g, was) + NewSpace(g, h) - Gained(g, h)
  {
    hide Superblock.Valid, Superblock.GroupFrags, Superblock.GroupOf, Superblock.LocalOf, Superblock.Upper, Superblock.Base, CylGroup.Valid, IsFree,
      Gained, Superblock.Reserved, Grow.Roomy, Grow.MetadataEndsInside, Grow.GrownBit, Grow.Built, Grow.SameMarked;
    forall f: nat
      ensures f in FreeSet(h, now) <==> (f in FreeSet(g, was) || f in NewSpace(g, h)) && f !in Gained(g, h)
    {
      Bounds(g, f);
      Bounds(h, f);
      SameGroup(g, h, f);
      if h.GroupOf(f) < g.ncg {
        OldFragment(g, h, was, now, f);
        if g.fragCount <= f < h.fragCount { TailIsData(g, h, f); }
      } else if h.GroupOf(f) < h.ncg {
        NewFragment(g, h, now, f);
      }
    }
  }

  lemma SameGroup(g: Geometry, h: Geometry, f: nat)
    requires Grow.Grown(g, h)
    ensures h.GroupOf(f) == g.GroupOf(f) && g.ncg <= h.ncg && g.fragCount <= h.fragCount
  {
  }

  lemma Bounds(g: Geometry, f: nat)
    ensures g.GroupOf(f) < g.ncg <==> f < g.Base(g.ncg)
    ensures f < g.fragCount ==> f < g.Base(g.ncg)
  {
    AddressInRun(g.fpg, f, 0, 0, g.fpg);
    DivBounds(f, g.fpg);
    BaseMonotone(g, g.GroupOf(f) + 1, g.ncg);
    BaseMonotone(g, g.ncg, g.GroupOf(f));
    BaseNext(g, g.GroupOf(f));
  }

  // ---- the whole table ----

  /** The fragments the summary area takes were free, or not there. */
  lemma GainedFree(g: Geometry, h: Geometry, groups: seq<CylGroup>)
    requires Grow.Grown(g, h) && SummaryInside(g, h) && |groups| == g.ncg && groups[0].Valid(g, 0)
    requires h.csumFrags > g.csumFrags ==> Grow.SummaryClear(g, h, groups[0].free)
    ensures forall f | f in Gained(g, h) :: f in FreeSet(g, groups) || f >= g.fragCount
  {
    hide Superblock.Valid, CylGroup.Counted, Superblock.GroupFrags, Superblock.Base, Superblock.GroupOf, Superblock.LocalOf, CylGroup.Valid;
    RunMembers(g.csumAddr + g.csumFrags, h.csumFrags - g.csumFrags);
    forall f: nat | f in Gained(g, h) ensures f in FreeSet(g, groups) || f >= g.fragCount {
      Grow.MapSizeOf(g, 0, groups[0]);
      InGroupZero(g, f);
      Located(g, h, f);
      Bounds(g, f);
    }
  }

  lemma InGroupZero(g: Geometry, f: nat)
    requires f < g.fpg
    ensures g.GroupOf(f) == 0 && g.LocalOf(f) == f
  {
  }

  /** One inode of the old table, in the larger image. */
  lemma InodeSame(g: Geometry, h: Geometry, d: seq<byte>, e: seq<byte>, free: set<nat>, free': set<nat>, ino: Inode)
    requires Larger(g, h, d, e) && InodeOk(g, d, free, ino)
    requires forall f | f in free' :: f in free || f >= g.fragCount
    requires forall f | f in Gained(g, h) :: f in free || f >= g.fragCount
    ensures InodeOk(h, e, free', ino) && OwnedBy(h, e, ino) == OwnedBy(g, d, ino) && ViewOf(h, e, ino) == ViewOf(g, d, ino)
    ensures Kept(g, d, ino) ==> Kept(h, e, ino)
    ensures forall f | f in OwnedBy(g, d, ino) :: f < g.fragCount
  {
    hide Superblock.Valid, Superblock.Off, Larger, FileOk, Owned, FileBytes, CountsOwned, Compact, Gained, TooLong;
    LargerIs(g, h, d, e);
    TooLongSame(g, h, ino.size);
    if HasStorage(ino) {
      OwnedBelow(g, d, ino);
      FileSame(g, h, d, e, ino);
    }
  }

  /** An inode in use in an old group is so in the larger image, and no other is. */
  lemma InUseGrown(g: Geometry, h: Geometry, was: seq<CylGroup>, now: seq<CylGroup>, i: nat)
    requires Grow.Grown(g, h) && Grow.GrownGroups(g, h, was, now)
    ensures InUse(h, now, i) <==> InUse(g, was, i)
    ensures i >= g.ncg * g.inodesPerGroup ==> !InUse(h, now, i)
  {
    hide Superblock.Valid, Grow.GrownBit, Grow.DataMap;
    var c := i / g.inodesPerGroup;
    DivBounds(i, g.inodesPerGroup);
    if c < g.ncg {
      assert Grow.SameMarked(was[c], now[c]);
      MulAtMost(c + 1, g.ncg, g.inodesPerGroup);
      DistributeOne(c, g.inodesPerGroup);
    } else if c < h.ncg {
      assert Grow.Built(h, c, now[c]);
    }
  }

  lemma MulAtMost(a: nat, b: nat, m: nat)
    requires a <= b
    ensures a * m <= b * m
  {
  }

  lemma DistributeOne(a: nat, m: nat)
    ensures (a + 1) * m == a * m + m
  {
  }

  /** The old inodes and as many cleared ones as the new groups hold. */
  ghost predicate Extended(h: Geometry, inodes: seq<Inode>, inodes': seq<Inode>) {
    && |inodes'| == h.ncg * h.inodesPerGroup >= |inodes| && inodes'[..|inodes|] == inodes
    && forall k | |inodes| <= k < |inodes'| :: inodes'[k] == CLEARED
  }

  /** What a growth starts from and comes to. */
  ghost predicate Regrown(g: Geometry, h: Geometry, groups: seq<CylGroup>, inodes: seq<Inode>, d: seq<byte>,
                          groups': seq<CylGroup>, inodes': seq<Inode>, e: seq<byte>) {
    && Larger(g, h, d, e) && |groups| == g.ncg && (forall c | 0 <= c < g.ncg :: groups[c].Valid(g, c))
    && Grow.GrownGroups(g, h, groups, groups') && SummaryInside(g, h) && Grow.Roomy(g) && Grow.MetadataEndsInside(g)
    && (forall c: nat | g.ncg <= c < h.ncg :: h.Upper(c) <= h.GroupFrags(c))
    && (h.csumFrags > g.csumFrags ==> Grow.SummaryClear(g, h, groups[0].free))
    && Extended(h, inodes, inodes')
  }

  lemma InodesGrown(g: Geometry, h: Geometry, groups: seq<CylGroup>, inodes: seq<Inode>, d: seq<byte>,
                    groups': seq<CylGroup>, inodes': seq<Inode>, e: seq<byte>, i: nat)
    requires Regrown(g, h, groups, inodes, d, groups', inodes', e) && Sound(g, groups, inodes, d) && i < |inodes'|
    ensures InodeOk(h, e, FreeSet(h, groups'), inodes'[i])
    ensures i < |inodes| ==> inodes'[i] == inodes[i] && OwnedBy(h, e, inodes[i]) == OwnedBy(g, d, inodes[i])
                             && ViewOf(h, e, inodes[i]) == ViewOf(g, d, inodes[i]) && (Kept(g, d, inodes[i]) ==> Kept(h, e, inodes[i]))
                             && forall f | f in OwnedBy(g, d, inodes[i]) :: f < g.fragCount
    ensures i >= |inodes| ==> inodes'[i] == CLEARED && OwnedBy(h, e, CLEARED) == {}
  {
    hide Superblock.Valid, CylGroup.Valid, Superblock.GroupFrags, Superblock.Upper, FreeSet, InodeOk, OwnedBy, Kept, Gained, Sound, Grow.GrownGroups,
      Larger, NewSpace, ViewOf;
    LargerIs(g, h, d, e);
    FreeSetGrown(g, h, groups, groups');
    GainedFree(g, h, groups);
    forall f | f in NewSpace(g, h) ensures f >= g.fragCount { NewIsNew(g, h, f); }
    if i < |inodes| {
      assert inodes'[..|inodes|][i] == inodes'[i];
      SoundAt(g, groups, inodes, d, i);
      InodeSame(g, h, d, e, FreeSet(g, groups), FreeSet(h, groups'), inodes[i]);
    } else {
      ClearedOk(h, e, FreeSet(h, groups'));
    }
  }

  lemma NewIsNew(g: Geometry, h: Geometry, f: nat)
    requires f in NewSpace(g, h)
    ensures f >= g.fragCount
  {
  }

  lemma ClearedOk(h: Geometry, e: seq<byte>, free: set<nat>)
    ensures InodeOk(h, e, free, CLEARED) && OwnedBy(h, e, CLEARED) == {} && ViewOf(h, e, CLEARED) == GONE && Kept(h, e, CLEARED)
  {
    hide Superblock.Valid, FileOk, Owned;
  }

  /** What users see of the inodes that were not there before. */
  ghost function Gone(n: nat): (v: seq<View>)
    ensures |v| == n && forall k | 0 <= k < n :: v[k] == GONE
  {
    seq(n, _ => GONE)
  }

  /** Users see what they saw, and nothing in the new inodes. */
  ghost predicate MoreViews(was: seq<View>, now: seq<View>) {
    |was| <= |now| && now == was + Gone(|now| - |was|)
  }

  /** Growing keeps every file's bytes and every fragment's one owner. */
  lemma GrownSound(g: Geometry, h: Geometry, groups: seq<CylGroup>, inodes: seq<Inode>, d: seq<byte>,
                   groups': seq<CylGroup>, inodes': seq<Inode>, e: seq<byte>)
    requires Regrown(g, h, groups, inodes, d, groups', inodes', e) && Sound(g, groups, inodes, d)
    ensures Sound(h, groups', inodes', e)
    ensures |inodes| <= |inodes'| && MoreViews(Views(g, d, inodes), Views(h, e, inodes'))
    ensures Neat(g, d, inodes) ==> Neat(h, e, inodes')
    ensures AllOwned(h, e, inodes') == AllOwned(g, d, inodes)
  {
    hide Superblock.Valid, CylGroup.Valid, FreeSet, InodeOk, OwnedBy, Kept, Gained, Grow.GrownGroups, Larger, NewSpace, ViewOf, InUse;
    assert Grow.Grown(g, h) by { LargerIs(g, h, d, e); }
    var n := |inodes|;
    forall i: nat | i < |inodes'|
      ensures InodeOk(h, e, FreeSet(h, groups'), inodes'[i])
      ensures i < n ==> inodes'[i] == inodes[i] && OwnedBy(h, e, inodes'[i]) == OwnedBy(g, d, inodes[i])
                        && ViewOf(h, e, inodes'[i]) == ViewOf(g, d, inodes[i]) && (Kept(g, d, inodes[i]) ==> Kept(h, e, inodes'[i]))
      ensures i >= n ==> inodes'[i].kind == Unused && OwnedBy(h, e, inodes'[i]) == {} && ViewOf(h, e, inodes'[i]) == GONE && Kept(h, e, inodes'[i])
      ensures inodes'[i].kind != Unused ==> InUse(h, groups', i)
    {
      InodesGrown(g, h, groups, inodes, d, groups', inodes', e, i);
      InUseGrown(g, h, groups, groups', i);
      if i >= n { ClearedOk(h, e, {}); }
    }
    assert |groups'| == h.ncg by { GrownLength(g, h, groups, groups'); }
  }

  lemma GrownLength(g: Geometry, h: Geometry, groups: seq<CylGroup>, groups': seq<CylGroup>)
    requires Grow.GrownGroups(g, h, groups, groups')
    ensures |groups'| == h.ncg
  {
    hide Grow.GrownBit, Grow.SameMarked, Grow.Built;
  }

  // ---- no fragment lost ----

  lemma AsideGrown(g: Geometry, h: Geometry, f: nat)
    requires Grow.Grown(g, h) && FsckClaims.SetAside(g, f)
    ensures FsckClaims.SetAside(h, f)
  {
    hide Superblock.Valid;
  }

  lemma GainedAside(g: Geometry, h: Geometry, f: nat)
    requires Grow.Grown(g, h) && SummaryInside(g, h) && g.csumAddr == g.Upper(0) && f in Gained(g, h) && f < h.fragCount
    ensures FsckClaims.SetAside(h, f)
  {
    hide Superblock.Valid, Superblock.GroupOf, Superblock.LocalOf, Superblock.Upper;
    RunMembers(g.csumAddr + g.csumFrags, h.csumFrags - g.csumFrags);
    InGroupZero(h, f);
    assert h.Upper(0) == g.Upper(0) by { SameUpper(g, h); }
  }

  lemma SameUpper(g: Geometry, h: Geometry)
    requires Grow.Grown(g, h)
    ensures h.Upper(0) == g.Upper(0)
  {
    hide Superblock.Valid;
  }

  lemma ReservedAside(h: Geometry, f: nat)
    requires 0 < f < h.fragCount && h.csumAddr == h.Upper(0) && h.Reserved(h.GroupOf(f), h.LocalOf(f))
    ensures FsckClaims.SetAside(h, f)
  {
    hide Superblock.Valid, Superblock.Lower, Superblock.Upper;
    DivBounds(f, h.fpg);
    assert f == h.Base(h.GroupOf(f)) + h.LocalOf(f);
  }

  lemma GrownWhole(g: Geometry, h: Geometry, groups: seq<CylGroup>, inodes: seq<Inode>, d: seq<byte>,
                   groups': seq<CylGroup>, inodes': seq<Inode>, e: seq<byte>)
    requires Regrown(g, h, groups, inodes, d, groups', inodes', e) && Sound(g, groups, inodes, d)
    requires FsckClean.Whole(g, groups, inodes, d) && g.csumAddr == g.Upper(0)
    ensures FsckClean.Whole(h, groups', inodes', e)
  {
    hide Superblock.Valid, CylGroup.Valid, FreeSet, Gained, Grow.GrownGroups, Larger, AllOwned, FsckClaims.SetAside, Superblock.Reserved,
      Superblock.GroupOf, Superblock.LocalOf, Superblock.Upper, Sound;
    assert Grow.Grown(g, h) by { LargerIs(g, h, d, e); }
    FreeSetGrown(g, h, groups, groups');
    GrownSound(g, h, groups, inodes, d, groups', inodes', e);
    SameUpper(g, h);
    forall f: nat | f < h.fragCount ensures FsckClaims.SetAside(h, f) || f in Space(h, groups', inodes', e) {
      if f in Gained(g, h) {
        GainedAside(g, h, f);
      } else if f < g.fragCount {
        if FsckClaims.SetAside(g, f) { AsideGrown(g, h, f); }
      } else if h.Reserved(h.GroupOf(f), h.LocalOf(f)) {
        SomeFragments(g);
        ReservedAside(h, f);
      }
    }
  }

  lemma SomeFragments(g: Geometry)
    ensures g.fragCount > 0
  {
  }

  // ---- links, directories and marks ----

  lemma {:induction false} CountNone(es: seq<Entry>, i: nat)
    requires forall e | e in es :: e.ino != i
    ensures Count(es, i) == 0
  {
    if es != [] {
      assert es[0] in es;
      CountNone(es[1..], i);
    }
  }

  lemma {:induction false} RefsMore(views: seq<View>, n: nat, i: nat)
    ensures Refs(views + Gone(n), i) == Refs(views, i)
    decreases n
  {
    hide Named;
    if n == 0 {
      assert views + Gone(0) == views;
    } else {
      RefsMore(views, n - 1, i);
      assert (views + Gone(n))[..|views| + n - 1] == views + Gone(n - 1);
      NotDirNamesNothing(GONE, i);
    }
  }

  lemma {:induction false} NoRefs(views: seq<View>, i: nat)
    requires forall k, e | 0 <= k < |views| && views[k].kind == Directory && e in Listing(views[k].bytes) :: e.ino != i
    ensures Refs(views, i) == 0
    decreases |views|
  {
    hide List, Records;
    if views != [] {
      var n := |views| - 1;
      NoRefs(views[..n], i);
      if views[n].kind == Directory {
        CountNone(Listing(views[n].bytes), i);
      }
    }
  }

  lemma LinksMore(views: seq<View>, n: nat)
    requires LinksOk(views)
    ensures LinksOk(views + Gone(n))
  {
    hide DirTiled, List, Records, Refs, ListingOk;
    var more := views + Gone(n);
    forall i: nat | i < |more| ensures more[i].nlink == Refs(more, i) {
      RefsMore(views, n, i);
      if i >= |views| {
        forall k, e | 0 <= k < |views| && views[k].kind == Directory && e in Listing(views[k].bytes) ensures e.ino != i {
          assert DirOk(views[k].bytes, k, |views|);
        }
        NoRefs(views, i);
      }
    }
    forall k | 0 <= k < |more| && more[k].kind == Directory ensures DirOk(more[k].bytes, k, |more|) {
      assert more[k] == views[k] && DirOk(views[k].bytes, k, |views|);
    }
  }

  lemma ParentMore(views: seq<View>, depth: seq<nat>, n: nat, d: nat)
    requires TreeOk(views, depth) && d < |views| + n
    ensures ParentOf(views + Gone(n), d) == if d < |views| then ParentOf(views, d) else None
  {
    hide DirTiled, List, Records, DotsIn, Hung, ParentOf;
    var more := views + Gone(n);
    if d < |views| && IsDirView(views[d]) {
      assert Dotted(views, d) && more[d] == views[d];
      ParentIsDots(views, d);
      ParentIsDots(more, d);
    } else {
      NotDirNoParent(more, d);
      if d < |views| { NotDirNoParent(views, d); }
    }
  }

  ghost function Zeroes(n: nat): (z: seq<nat>)
    ensures |z| == n
  {
    seq(n, _ => 0)
  }

  lemma TreeMore(views: seq<View>, depth: seq<nat>, n: nat)
    requires TreeOk(views, depth)
    ensures TreeOk(views + Gone(n), depth + Zeroes(n))
  {
    hide DirTiled, List, Records, DotsIn, ParentOf, Kids;
    var more := views + Gone(n);
    forall d: nat | d < |more|
      ensures ParentOf(more, d) == if d < |views| then ParentOf(views, d) else None
      ensures d < |views| && ParentOf(views, d).Some? ==> ParentOf(views, d).value < |views|
    {
      ParentMore(views, depth, n, d);
      if d < |views| && ParentOf(views, d).Some? { ParentInside(views, d); }
    }
    forall k: nat, d: nat | k < |more| && d < |more| && IsDirView(more[k]) && IsDirView(more[d]) ensures Hung(more, k, d) {
      assert more[k] == views[k] && more[d] == views[d] && Hung(views, k, d);
    }
    forall d: nat | d < |more| && IsDirView(more[d]) ensures Dotted(more, d) {
      assert more[d] == views[d] && Dotted(views, d);
    }
  }

  lemma HangsMore(views: seq<View>, n: nat)
    requires Hangs(views)
    ensures Hangs(views + Gone(n))
  {
    hide TreeOk;
    var depth: seq<nat> :| TreeOk(views, depth);
    TreeMore(views, depth, n);
  }

  lemma {:induction false} DirsMore(g: Geometry, h: Geometry, views: seq<View>, n: nat, c: nat)
    requires h.inodesPerGroup == g.inodesPerGroup
    ensures Tally.DirsIn(h, views + Gone(n), c) == Tally.DirsIn(g, views, c)
    decreases |views| + n
  {
    hide Superblock.Valid;
    if n > 0 {
      DirsMore(g, h, views, n - 1, c);
      assert (views + Gone(n))[..|views| + n - 1] == views + Gone(n - 1);
    } else {
      assert views + Gone(0) == views;
      if views != [] {
        DirsMore(g, h, views[..|views| - 1], 0, c);
        assert views[..|views| - 1] + Gone(0) == views[..|views| - 1];
      }
    }
  }

  lemma {:induction false} NoDirsThere(g: Geometry, views: seq<View>, c: nat)
    requires |views| <= c * g.inodesPerGroup
    ensures Tally.DirsIn(g, views, c) == 0
    decreases |views|
  {
    hide Superblock.Valid;
    if views != [] {
      NoDirsThere(g, views[..|views| - 1], c);
      AddressInRun(g.inodesPerGroup, |views| - 1, c, 0, g.inodesPerGroup);
    }
  }

  /** No mark and no counted directory comes or goes. */
  lemma GrownTally(g: Geometry, h: Geometry, groups: seq<CylGroup>, groups': seq<CylGroup>, views: seq<View>, n: nat)
    requires Grow.Grown(g, h) && Grow.GrownGroups(g, h, groups, groups') && |views| == g.ncg * g.inodesPerGroup
    ensures |groups| == g.ncg <= h.ncg == |groups'|
    ensures Tally.Stray(h, groups', views + Gone(n)) == Tally.Stray(g, groups, views)
    ensures forall c: nat | c < h.ncg ::
              Tally.DirsOff(h, groups', views + Gone(n), c) == if c < g.ncg then Tally.DirsOff(g, groups, views, c) else 0
  {
    hide Superblock.Valid, InUse, Tally.DirsIn, Grow.GrownBit, Grow.DataMap;
    forall i: nat ensures InUse(h, groups', i) <==> InUse(g, groups, i)
                  ensures i >= |views| ==> !InUse(h, groups', i) {
      InUseGrown(g, h, groups, groups', i);
    }
    forall c: nat | c < h.ncg
      ensures Tally.DirsOff(h, groups', views + Gone(n), c) == if c < g.ncg then Tally.DirsOff(g, groups, views, c) else 0
    {
      DirsMore(g, h, views, n, c);
      if c < g.ncg {
        assert Grow.SameMarked(groups[c], groups'[c]);
      } else {
        assert Grow.Built(h, c, groups'[c]);
        MulAtMost(g.ncg, c, g.inodesPerGroup);
        NoDirsThere(g, views, c);
      }
    }
  }

  // ---- growing as a whole ----

  ghost function SummaryOf(groups: seq<CylGroup>): seq<Csum> {
    seq(|groups|, c requires 0 <= c < |groups| => groups[c].cs)
  }

  /** An image the commands rely on stays one. */
  lemma GrownTidy(g: Geometry, h: Geometry, groups: seq<CylGroup>, inodes: seq<Inode>, d: seq<byte>,
                  groups': seq<CylGroup>, inodes': seq<Inode>, e: seq<byte>)
    requires Regrown(g, h, groups, inodes, d, groups', inodes', e) && Tidy(g, groups, inodes, d) && |inodes'| <= 0x1_0000_0000
    ensures Tidy(h, groups', inodes', e)
  {
    hide Superblock.Valid, CylGroup.Valid, Sound, Views, LinksOk, Hangs, Larger, Grow.GrownGroups, InUse, Superblock.GroupFrags, Superblock.Upper,
      Grow.SummaryClear, Grow.Roomy;
    LargerIs(g, h, d, e);
    GrownSound(g, h, groups, inodes, d, groups', inodes', e);
    LinksMore(Views(g, d, inodes), |inodes'| - |inodes|);
    HangsMore(Views(g, d, inodes), |inodes'| - |inodes|);
    InUseGrown(g, h, groups, groups', 0);
    InUseGrown(g, h, groups, groups', 1);
    SameDirGeometry(g, h);
  }

  lemma SameDirGeometry(g: Geometry, h: Geometry)
    requires Grow.Grown(g, h)
    ensures DirGeometry(h) <==> DirGeometry(g)
  {
  }

  lemma GrownAccounted(g: Geometry, h: Geometry, groups: seq<CylGroup>, inodes: seq<Inode>, d: seq<byte>,
                       groups': seq<CylGroup>, inodes': seq<Inode>, e: seq<byte>)
    requires Regrown(g, h, groups, inodes, d, groups', inodes', e) && Sound(g, groups, inodes, d)
    ensures FsckClean.Accounted(h, groups', Views(h, e, inodes')) <==> FsckClean.Accounted(g, groups, Views(g, d, inodes))
  {
    hide Superblock.Valid, CylGroup.Valid, Sound, Views, Larger, Grow.GrownGroups, Superblock.GroupFrags, Superblock.Upper, Grow.SummaryClear, Grow.Roomy,
      Tally.Stray, Tally.DirsOff;
    LargerIs(g, h, d, e);
    SoundSize(g, groups, inodes, d);
    GrownSound(g, h, groups, inodes, d, groups', inodes', e);
    GrownTally(g, h, groups, groups', Views(g, d, inodes), |inodes'| - |inodes|);
  }

  /** What growing has done to an image: the same files and as many more unused inodes, the free set
      with the new data fragments and without the longer summary area, no fragment lost, and no mark
      or counted directory more or less. */
  ghost predicate Resized(g: Geometry, groups: seq<CylGroup>, inodes: seq<Inode>, d: seq<byte>,
                          h: Geometry, groups': seq<CylGroup>, inodes': seq<Inode>, e: seq<byte>) {
    && Sound(h, groups', inodes', e) && |inodes'| == h.ncg * h.inodesPerGroup >= |inodes|
    && MoreViews(Views(g, d, inodes), Views(h, e, inodes'))
    && FreeSet(h, groups') == FreeSet(g, groups) + NewSpace(g, h) - Gained(g, h)
    && FsckClean.Whole(h, groups', inodes', e)
    && (Neat(g, d, inodes) ==> Neat(h, e, inodes'))
    && (Tidy(g, groups, inodes, d) && |inodes'| <= 0x1_0000_0000 ==> Tidy(h, groups', inodes', e))
    && (FsckClean.Accounted(h, groups', Views(h, e, inodes')) <==> FsckClean.Accounted(g, groups, Views(g, d, inodes)))
  }

  lemma RegrownResized(g: Geometry, h: Geometry, groups: seq<CylGroup>, inodes: seq<Inode>, d: seq<byte>,
                       groups': seq<CylGroup>, inodes': seq<Inode>, e: seq<byte>)
    requires Regrown(g, h, groups, inodes, d, groups', inodes', e) && Sound(g, groups, inodes, d)
    requires FsckClean.Whole(g, groups, inodes, d) && g.csumAddr == g.Upper(0)
    ensures Resized(g, groups, inodes, d, h, groups', inodes', e)
  {
    hide Superblock.Valid, CylGroup.Valid, Sound, Views, Larger, Grow.GrownGroups, Superblock.GroupFrags, Superblock.Upper, Grow.SummaryClear, Grow.Roomy,
      FreeSet, Gained, NewSpace, FsckClean.Whole, Neat, Tidy, FsckClean.Accounted, Regrown, Grow.MetadataEndsInside;
    RegrownParts(g, h, groups, inodes, d, groups', inodes', e);
    GrownSound(g, h, groups, inodes, d, groups', inodes', e);
    FreeSetGrown(g, h, groups, groups');
    GrownWhole(g, h, groups, inodes, d, groups', inodes', e);
    GrownAccounted(g, h, groups, inodes, d, groups', inodes', e);
    if Tidy(g, groups, inodes, d) && |inodes'| <= 0x1_0000_0000 {
      GrownTidy(g, h, groups, inodes, d, groups', inodes', e);
    }
  }

  lemma RegrownParts(g: Geometry, h: Geometry, groups: seq<CylGroup>, inodes: seq<Inode>, d: seq<byte>,
                     groups': seq<CylGroup>, inodes': seq<Inode>, e: seq<byte>)
    requires Regrown(g, h, groups, inodes, d, groups', inodes', e)
    ensures Grow.Grown(g, h) && Grow.GrownGroups(g, h, groups, groups') && SummaryInside(g, h)
    ensures |groups| == g.ncg && (forall c | 0 <= c < g.ncg :: groups[c].Valid(g, c)) && Grow.Roomy(g) && Grow.MetadataEndsInside(g)
    ensures forall c: nat | g.ncg <= c < h.ncg :: h.Upper(c) <= h.GroupFrags(c)
    ensures |inodes'| == h.ncg * h.inodesPerGroup >= |inodes|
  {
    hide Superblock.Valid, CylGroup.Valid, Superblock.GroupFrags, Superblock.Upper, Grow.SummaryClear, Grow.Roomy, Grow.GrownGroups, Grow.MetadataEndsInside;
  }

  /** What has happened when a growth was refused at the summary range: the old last group has grown,
      and the superblock's totals do not say so. */
  ghost predicate HalfGrown(g: Geometry, groups: seq<CylGroup>, h: Geometry, groups': seq<CylGroup>, csum': seq<Csum>, total: Csum) {
    Grow.TailGrown(g, h, groups, groups', SummaryOf(groups), csum', total)
  }

  /** resize_grow: the checks, the evacuation until there is nothing to move, then the growth. Every file
      keeps its bytes, whether it is refused or not. It grows if and only if the way could be cleared,
      group 0 will hold the longer summary area, and no fragment found through an indirect block of
      the old image is in its way; roots in the way are never moved. When the way could be cleared and
      the rest is not so, it leaves the old last group grown. */
  method ResizeGrow(img: Image, h: Geometry)
      returns (r: Evacuation, rc: Rc, ghost groups: seq<CylGroup>, ghost inodes: seq<Inode>, ghost d: seq<byte>)
    requires img.Valid() && Sound(img.g, img.groups, img.inodes, img.disk) && FsckClean.Whole(img.g, img.groups, img.inodes, img.disk)
    requires Grow.Grown(img.g, h) && Grow.Roomy(img.g) && Grow.MetadataEndsInside(img.g) && img.g.csumAddr == img.g.Upper(0)
    requires forall i | 0 <= i < |img.inodes| && HasStorage(img.inodes[i]) :: Live(img.inodes[i])
    requires h.csumFrags > img.g.csumFrags ==>
               TextsClear(img.g, img.inodes, img.g.csumAddr + img.g.csumFrags, h.csumFrags - img.g.csumFrags)
    modifies img
    ensures var g := old(img.g);
            && Sound(g, groups, inodes, d) && Views(g, d, inodes) == old(Views(img.g, img.disk, img.inodes)) && SameFiles(old(img.inodes), inodes)
            && Carried(g, old(img.groups), old(img.inodes), old(img.disk), groups, inodes, d) && SameInodes(old(img.groups), groups)
    ensures var g := old(img.g);
            && (rc == Ok || rc == NoSpace || rc == Invalid) && (rc == Invalid <==> !Grow.TargetFits(g, h))
            && (rc == Invalid ==> unchanged(img))
            && (rc != Ok ==> img.g == g && img.disk == d && img.inodes == inodes)
            && (rc == NoSpace && !r.Cleared? ==> img.Valid() && img.groups == groups)
            && (rc == NoSpace && r.Cleared? ==> HalfGrown(g, groups, h, img.groups, img.csum, img.total))
            && (rc == Ok ==> img.Valid() && img.g == h && Resized(g, groups, inodes, d, h, img.groups, img.inodes, img.disk))
    ensures var g := old(img.g); var start, n: int := g.csumAddr + g.csumFrags, h.csumFrags - g.csumFrags;
            rc != Invalid ==>
              && (rc == Ok <==> r.Cleared? && (n > 0 ==> start + n <= h.GroupFrags(0)
                                                         && forall i | 0 <= i < |old(img.inodes)| ::
                                                              Deep(g, old(img.disk), old(img.inodes)[i]) !! Run(start, n)))
              && (n > 0 && r.Cleared? ==> AllRootsClear(g, old(img.inodes), start, n))
              && (!r.Cleared? ==> n > 0 && !(AllDirectClear(g, old(img.inodes), start, n) && AllRootsClear(g, old(img.inodes), start, n)))
  {
    hide Superblock.Valid, Superblock.GroupFrags, Superblock.Upper, Superblock.Off, CylGroup.Valid, FreeSet, SameInodes, Sound, Views,
      Carried, AllDirectClear, AllRootsClear, TextsClear, Deep, FsckClean.Whole, Grow.SummaryClear, Grow.TailGrown, Grow.MetadataEndsInside,
      Grow.NewData, SumOf, Resized, Grow.GrownGroups, Grow.Roomy, Grow.Blanks;
    ghost var g := img.g;
    r, rc, groups, inodes, d := Cleared(0), Invalid, img.groups, img.inodes, img.disk;
    assert SameFiles(inodes, inodes);
    CarriedNothing(g, groups, inodes, d);
    SameInodesRefl(groups);
    Grow.GrownFacts(img.g, h);
    var fits := Grow.GrowChecks(img.g, h);
    if !fits {
      return;
    }
    ghost var groups0, inodes0, d0 := img.groups, img.inodes, img.disk;
    SoundSize(img.g, img.groups, img.inodes, img.disk);
    r := ClearTheWay(img, h.csumFrags);
    groups, inodes, d := img.groups, img.inodes, img.disk;
    if !r.Cleared? {
      rc := NoSpace;
      return;
    }
    SoundSize(img.g, img.groups, img.inodes, img.disk);
    WholeStill(img.g, groups0, inodes0, d0, img.groups, img.inodes, img.disk);
    if h.csumFrags > img.g.csumFrags {
      LiveStill(inodes0, img.inodes);
      EvacuatedIsClear(img.g, h, img.groups, img.inodes, img.disk);
      assert forall i | 0 <= i < |inodes| :: Deep(g, d, inodes[i]) == Deep(g, d0, inodes0[i]);
    }
    ghost var csum := img.csum;
    var dNb, dNf, dSize;
    rc, dNb, dNf, dSize := Grow.GrowImage(img, h);
    assert csum == SummaryOf(groups);
    if rc == Ok {
      IsRegrown(g, h, groups, inodes, d, img.groups, img.inodes, img.disk);
      RegrownResized(g, h, groups, inodes, d, img.groups, img.inodes, img.disk);
    }
  }

  lemma IsRegrown(g: Geometry, h: Geometry, groups: seq<CylGroup>, inodes: seq<Inode>, d: seq<byte>,
                  groups': seq<CylGroup>, inodes': seq<Inode>, e: seq<byte>)
    requires Grow.Grown(g, h) && |groups| == g.ncg && (forall c | 0 <= c < g.ncg :: groups[c].Valid(g, c)) && |d| == g.Off(g.fragCount)
    requires Grow.TargetFits(g, h) && Grow.Roomy(g) && Grow.MetadataEndsInside(g) && Grow.GrownGroups(g, h, groups, groups')
    requires h.csumFrags > g.csumFrags ==> Grow.SummaryClear(g, h, groups[0].free)
    requires |d| <= |e| && e[..|d|] == d && |inodes| <= |inodes'| == h.ncg * h.inodesPerGroup && inodes'[..|inodes|] == inodes
    requires Grow.Blanks(|d|, e, |inodes|, inodes')
    ensures Regrown(g, h, groups, inodes, d, groups', inodes', e)
  {
    hide Superblock.Valid, CylGroup.Valid, Superblock.GroupFrags, Superblock.Upper, Grow.SummaryClear, Grow.Roomy, Grow.GrownGroups,
      Grow.MetadataEndsInside, Superblock.Off;
  }

  // ---- growing and checking ----

  /** Geometry fsck can work on stays so. */
  lemma GrownTypical(g: Geometry, h: Geometry)
    requires FsckWalk.Typical(g) && Grow.Grown(g, h) && Grow.TargetFits(g, h)
    requires h.csumFrags > g.csumFrags ==> h.csumAddr + h.csumFrags <= h.GroupFrags(0)
    ensures FsckWalk.Typical(h)
  {
    hide Superblock.Valid, Superblock.GroupFrags, PerBlock;
    SizesSame(g, h);
    SameUpper(g, h);
    forall c: nat | c < h.ncg ensures FsckClaims.MetadataEnd(h, c) <= h.GroupFrags(c) && h.Lower(c) <= h.Upper(c) {
      Grow.MetadataOrder(h, c);
      if c < g.ncg {
        Grow.FragsGrow(g, h, c);
        assert FsckClaims.MetadataEnd(g, c) <= g.GroupFrags(c);
      }
    }
  }

  lemma TypicalRoomy(g: Geometry)
    requires FsckWalk.Typical(g)
    ensures Grow.Roomy(g) && Grow.MetadataEndsInside(g) && g.csumAddr == g.Upper(0)
  {
    hide Superblock.Valid, Superblock.GroupFrags, Superblock.Lower, Superblock.Upper, PerBlock;
    GroupFragsBounds(g, 0);
    assert FsckClaims.MetadataEnd(g, 0) <= g.GroupFrags(0);
    forall c: nat | c < g.ncg ensures g.Lower(c) <= g.Upper(c) <= g.GroupFrags(c) {
      assert FsckClaims.MetadataEnd(g, c) <= g.GroupFrags(c);
    }
  }

  lemma AllLive(g: Geometry, groups: seq<CylGroup>, inodes: seq<Inode>, d: seq<byte>)
    requires Tidy(g, groups, inodes, d)
    ensures forall i | 0 <= i < |inodes| && HasStorage(inodes[i]) :: Live(inodes[i])
  {
    hide Superblock.Valid, Sound, Hangs, InUse, DirOk, Refs, FileBytes, InlineText;
    forall i | 0 <= i < |inodes| && HasStorage(inodes[i]) ensures Live(inodes[i]) {
      assert Views(g, d, inodes)[i] == ViewOf(g, d, inodes[i]);
    }
  }

  lemma OrderlyMore(views: seq<View>, n: nat)
    ensures FsckClean.Orderly(views + Gone(n)) <==> FsckClean.Orderly(views)
  {
    hide Kempt, FsckRead.NamesPlain, List, Records;
    var more := views + Gone(n);
    assert forall i | 0 <= i < |views| :: more[i] == views[i];
    assert forall i | |views| <= i < |more| :: more[i] == GONE;
  }

  /** An image that has grown gives fsck as little to do as before: what it reads, and whether it
      changes a mark or a counter, depends on the old image alone. */
  method GrowThenFsck(img: Image, h: Geometry) returns (rc: Rc, t: Option<FsckClean.Outcome>, r: Option<FsckClean.Report>)
    requires Ready(img) && Neat(img.g, img.disk, img.inodes) && FsckWalk.Typical(img.g)
    requires FsckClean.Whole(img.g, img.groups, img.inodes, img.disk)
    requires Grow.Grown(img.g, h) && h.ncg * h.inodesPerGroup <= 0x1_0000_0000
    requires h.csumFrags > img.g.csumFrags ==>
               TextsClear(img.g, img.inodes, img.g.csumAddr + img.g.csumFrags, h.csumFrags - img.g.csumFrags)
    modifies img
    ensures rc == Ok ==> Ready(img) && img.g == h && MoreViews(old(ViewsOf(img)), ViewsOf(img))
    ensures rc == Ok ==> (r.Some? <==> old(FsckClean.Orderly(ViewsOf(img))))
    ensures rc == Ok && r.Some? ==>
              && FsckClean.NothingFound(img.g, img.groups, img.inodes, ViewsOf(img), r.value)
              && (FsckClean.CountersKept(img.groups, img.csum, img.total, r.value)
                  <==> old(FsckClean.Accounted(img.g, img.groups, ViewsOf(img))))
  {
    hide Superblock.Valid, Superblock.GroupFrags, Superblock.Upper, CylGroup.Valid, FreeSet, SameInodes, Sound, Views, Carried, Tidy, Neat, TextsClear,
      FsckClean.Whole, Grow.MetadataEndsInside, Grow.Roomy, AllRootsClear, AllDirectClear, Deep, FsckWalk.Typical, FsckClean.Orderly,
      FsckClean.NothingFound, FsckClean.CountersKept, FsckClean.Accounted, NewSpace, Gained, HalfGrown, Grow.TargetFits, Grow.Grown, SameFiles,
      FsckClean.Orphans, FsckClean.LinksKept, FsckClean.BaseRead, FsckClean.BaseOf, FsckClean.Formed, Resized, Run, Gone, FsckClean.SameInodeMaps,
      Tally.Stray;
    ghost var g, groups0, inodes0, d0 := img.g, img.groups, img.inodes, img.disk;
    TypicalRoomy(img.g);
    AllLive(img.g, img.groups, img.inodes, img.disk);
    TidySound(img.g, img.groups, img.inodes, img.disk);
    ghost var groups, inodes, d;
    var e;
    e, rc, groups, inodes, d := ResizeGrow(img, h);
    if rc != Ok {
      return rc, None, None;
    }
    Grow.GrownFacts(g, h);
    ResizedSize(g, groups, inodes, d, h, img.groups, img.inodes, img.disk);
    StaysCheckable(g, groups0, inodes0, d0, groups, inodes, d, h, img.groups, img.inodes, img.disk);
    GrownTypical(g, h);
    var read;
    read, t, r := FsckClean.Fsck(img);
  }

  lemma ResizedSize(g: Geometry, groups: seq<CylGroup>, inodes: seq<Inode>, d: seq<byte>,
                    h: Geometry, groups': seq<CylGroup>, inodes': seq<Inode>, e: seq<byte>)
    requires Resized(g, groups, inodes, d, h, groups', inodes', e)
    ensures |inodes'| == h.ncg * h.inodesPerGroup
  {
    hide Sound, Views, FreeSet, FsckClean.Whole, Neat, Tidy, FsckClean.Accounted;
  }

  /** What fsck asks of an image, over the evacuation and the growth. */
  lemma StaysCheckable(g: Geometry, groups0: seq<CylGroup>, inodes0: seq<Inode>, d0: seq<byte>,
                       groups: seq<CylGroup>, inodes: seq<Inode>, d: seq<byte>,
                       h: Geometry, groups': seq<CylGroup>, inodes': seq<Inode>, e: seq<byte>)
    requires Tidy(g, groups0, inodes0, d0) && Neat(g, d0, inodes0)
    requires Sound(g, groups, inodes, d) && Views(g, d, inodes) == Views(g, d0, inodes0) && SameInodes(groups0, groups) && |inodes| == |inodes0|
    requires Carried(g, groups0, inodes0, d0, groups, inodes, d)
    requires Resized(g, groups, inodes, d, h, groups', inodes', e) && |inodes'| <= 0x1_0000_0000
    ensures Tidy(h, groups', inodes', e) && Neat(h, e, inodes') && FsckClean.Whole(h, groups', inodes', e) && |inodes| <= |inodes'|
    ensures MoreViews(Views(g, d0, inodes0), Views(h, e, inodes'))
    ensures FsckClean.Orderly(Views(h, e, inodes')) <==> FsckClean.Orderly(Views(g, d0, inodes0))
    ensures FsckClean.Accounted(h, groups', Views(h, e, inodes')) <==> FsckClean.Accounted(g, groups0, Views(g, d0, inodes0))
  {
    hide Superblock.Valid, FreeSet, SameInodes, Sound, Views, Carried, Tidy, Neat, FsckClean.Whole, FsckClean.Orderly, FsckClean.Accounted, NewSpace,
      Gained, Gone;
    StayTidy(g, groups0, inodes0, d0, groups, inodes, d);
    StayAccounted(g, groups0, inodes0, d0, groups, inodes, d);
    StayNeat(g, groups0, inodes0, d0, groups, inodes, d);
    OrderlyMore(Views(g, d, inodes), |inodes'| - |inodes|);
  }

  lemma TidySound(g: Geometry, groups: seq<CylGroup>, inodes: seq<Inode>, d: seq<byte>)
    requires Tidy(g, groups, inodes, d)
    ensures Sound(g, groups, inodes, d)
  {
    hide Sound, LinksOk, Hangs, InUse;
  }

  lemma StayTidy(g: Geometry, groups: seq<CylGroup>, inodes: seq<Inode>, d: seq<byte>,
                 groups': seq<CylGroup>, inodes': seq<Inode>, d': seq<byte>)
    requires Tidy(g, groups, inodes, d) && Sound(g, groups', inodes', d') && Views(g, d', inodes') == Views(g, d, inodes)
    requires SameInodes(groups, groups') && |inodes'| == |inodes|
    ensures Tidy(g, groups', inodes', d')
  {
    hide Superblock.Valid, Sound, LinksOk, Hangs, InUse, SameInodes, Views;
    InUseKept(g, groups, groups');
  }

  lemma StayAccounted(g: Geometry, groups: seq<CylGroup>, inodes: seq<Inode>, d: seq<byte>,
                      groups': seq<CylGroup>, inodes': seq<Inode>, d': seq<byte>)
    requires Views(g, d', inodes') == Views(g, d, inodes) && SameInodes(groups, groups')
    ensures FsckClean.Accounted(g, groups', Views(g, d', inodes')) <==> FsckClean.Accounted(g, groups, Views(g, d, inodes))
  {
    hide Superblock.Valid, InUse, Views, Tally.DirsIn;
    InUseKept(g, groups, groups');
    var views := Views(g, d, inodes);
    assert Tally.Stray(g, groups', views) == Tally.Stray(g, groups, views);
    forall c: nat | c < |groups| ensures Tally.DirsOff(g, groups', views, c) == Tally.DirsOff(g, groups, views, c) {
      assert InodeSide(groups'[c]) == InodeSide(groups[c]);
    }
  }

  lemma StayNeat(g: Geometry, groups: seq<CylGroup>, inodes: seq<Inode>, d: seq<byte>,
                 groups': seq<CylGroup>, inodes': seq<Inode>, d': seq<byte>)
    requires Carried(g, groups, inodes, d, groups', inodes', d') && Neat(g, d, inodes)
    ensures Neat(g, d', inodes')
  {
    hide Space, Neat;
  }
}
