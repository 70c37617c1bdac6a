/** The block map of one inode: twelve direct pointers and three pointer trees. */
module FileMap {
  import opened Geometry
  import opened Image
  import opened Room
  import opened Indirect

  /** Where a logical block's pointer lives. */
  datatype Spot = Direct(i: nat) | Under(slot: nat, idx: nat) | Beyond

  ghost function SpotFrom(g: Geometry, local: nat, slot: nat): Spot
    requires slot <= NIADDR
    decreases NIADDR - slot
  {
    if slot == NIADDR then Beyond
    else if local < Span(g, slot + 1) then Under(slot, local)
    else SpotFrom(g, local - Span(g, slot + 1), slot + 1)
  }

  ghost function SpotOf(g: Geometry, lb: nat): Spot {
    if lb < NDADDR then Direct(lb) else SpotFrom(g, lb - NDADDR, 0)
  }

  /** Distinct logical blocks have distinct places, and a place is always inside its tree. */
  lemma {:induction false} SpotFromInjective(g: Geometry, a: nat, b: nat, slot: nat)
    requires slot <= NIADDR
    ensures SpotFrom(g, a, slot) == SpotFrom(g, b, slot) ==> a == b || SpotFrom(g, a, slot).Beyond?
    ensures SpotFrom(g, a, slot).Under? || SpotFrom(g, a, slot).Beyond?
    ensures SpotFrom(g, a, slot).Under? ==>
              slot <= SpotFrom(g, a, slot).slot < NIADDR
              && SpotFrom(g, a, slot).idx < Span(g, SpotFrom(g, a, slot).slot + 1)
    decreases NIADDR - slot
  {
    hide Span;
    if slot < NIADDR {
      var s := Span(g, slot + 1);
      if s <= a { SpotFromInjective(g, a - s, if s <= b then b - s else 0, slot + 1); }
      if s <= b { SpotFromInjective(g, b - s, if s <= a then a - s else 0, slot + 1); }
    }
  }

  lemma SpotInjective(g: Geometry, a: nat, b: nat)
    ensures SpotOf(g, a) == SpotOf(g, b) ==> a == b || SpotOf(g, a).Beyond?
    ensures SpotOf(g, a).Direct? ==> SpotOf(g, a).i < NDADDR
    ensures SpotOf(g, a).Under? ==> SpotOf(g, a).slot < NIADDR && SpotOf(g, a).idx < Span(g, SpotOf(g, a).slot + 1)
  {
    if a >= NDADDR { SpotFromInjective(g, a - NDADDR, if b >= NDADDR then b - NDADDR else 0, 0); }
    if b >= NDADDR { SpotFromInjective(g, b - NDADDR, if a >= NDADDR then a - NDADDR else 0, 0); }
  }

  /** Past the first unreachable block every block is unreachable. */
  lemma BeyondMonotone(g: Geometry, a: nat, b: nat)
    requires a <= b && SpotOf(g, a) == Beyond
    ensures SpotOf(g, b) == Beyond
  {
    if a >= NDADDR {
      BeyondFrom(g, a - NDADDR, b - NDADDR, 0);
    }
  }

  lemma BeyondFrom(g: Geometry, a: nat, b: nat, slot: nat)
    requires slot <= NIADDR && a <= b && SpotFrom(g, a, slot) == Beyond
    ensures SpotFrom(g, b, slot) == Beyond
    decreases NIADDR - slot
  {
    if slot < NIADDR {
      var s := Span(g, slot + 1);
      BeyondFrom(g, a - s, b - s, slot + 1);
    }
  }

  ghost function SlotTree(g: Geometry, d: seq<byte>, ino: Inode, slot: nat): Tree
    requires ino.Shaped() && slot < NIADDR
  {
    TreeOf(g, d, ino.ib[slot], slot + 1)
  }

  /** The data fragment of logical block lb, 0 for a hole. */
  ghost function Ptr(g: Geometry, d: seq<byte>, ino: Inode, lb: nat): nat
    requires ino.Shaped()
  {
    match SpotOf(g, lb)
    case Direct(i) => if i < NDADDR then ino.db[i] else 0
    case Under(s, idx) => if s < NIADDR then Lookup(g, SlotTree(g, d, ino, s), s + 1, idx) else 0
    case Beyond => 0
  }

  /** The fragments of all the inode's indirect blocks. */
  ghost function InodeMeta(g: Geometry, d: seq<byte>, ino: Inode): set<nat>
    requires ino.Shaped()
  {
    Meta(g, SlotTree(g, d, ino, 0)) + Meta(g, SlotTree(g, d, ino, 1)) + Meta(g, SlotTree(g, d, ino, 2))
  }

  ghost predicate InodeSeparate(g: Geometry, d: seq<byte>, ino: Inode)
    requires ino.Shaped()
  {
    && (forall s | 0 <= s < NIADDR :: Separate(g, SlotTree(g, d, ino, s)))
    && (forall s, t | 0 <= s < t < NIADDR :: Meta(g, SlotTree(g, d, ino, s)) !! Meta(g, SlotTree(g, d, ino, t)))
  }

  /** Over a write that avoids its indirect blocks, an inode's map reads the same. */
  lemma MapFrame(g: Geometry, d: seq<byte>, e: seq<byte>, ino: Inode, s: set<nat>)
    requires ino.Shaped() && OnlyWrote(g, d, e, s) && InodeMeta(g, d, ino) !! s
    ensures forall k | 0 <= k < NIADDR :: SlotTree(g, e, ino, k) == SlotTree(g, d, ino, k)
    ensures InodeMeta(g, e, ino) == InodeMeta(g, d, ino)
    ensures InodeSeparate(g, e, ino) <==> InodeSeparate(g, d, ino)
    ensures forall j: nat :: Ptr(g, e, ino, j) == Ptr(g, d, ino, j)
  {
    hide Superblock.Valid, OnlyWrote, TreeOf, Meta, Separate, Lookup, SpotOf;
    forall k | 0 <= k < NIADDR ensures SlotTree(g, e, ino, k) == SlotTree(g, d, ino, k) {
      assert k == 0 || k == 1 || k == 2;
      TreeFrame(g, d, e, ino.ib[k], k + 1, s);
    }
  }

  // ---- storing a pointer ----

  /** An inode's map grew: it added free blocks, took exactly those, and wrote only into its own. */
  ghost predicate MapGrew(g: Geometry, d0: seq<byte>, free0: set<nat>, ino0: Inode,
                          d1: seq<byte>, free1: set<nat>, ino1: Inode)
    requires ino0.Shaped() && ino1.Shaped()
  {
    && InodeSeparate(g, d1, ino1)
    && InodeMeta(g, d0, ino0) <= InodeMeta(g, d1, ino1) <= InodeMeta(g, d0, ino0) + free0
    && free1 == free0 - InodeMeta(g, d1, ino1)
    && OnlyWrote(g, d0, d1, InodeMeta(g, d1, ino1))
  }

  /** One logical block was mapped, the others are as before. */
  ghost predicate Mapped(g: Geometry, d0: seq<byte>, ino0: Inode, d1: seq<byte>, ino1: Inode, ok: bool, lb: nat, v: nat)
    requires ino0.Shaped() && ino1.Shaped()
  {
    forall j: nat :: Ptr(g, d1, ino1, j) == if ok && j == lb then v else Ptr(g, d0, ino0, j)
  }

  lemma FreshGrew(g: Geometry, d: seq<byte>, e: seq<byte>, free: set<nat>, f: nat, level: nat)
    requires f != 0 && level > 0 && Placed(g, f, g.fpb) && Run(f, g.fpb) <= free && OnlyWrote(g, d, e, Run(f, g.fpb))
    requires forall i | 0 <= i < PerBlock(g) :: Entries(g, e, f)[i] == 0
    ensures Grew(g, d, free, Hole, e, free - Run(f, g.fpb), TreeOf(g, e, f, level))
    ensures Stored(g, Hole, TreeOf(g, e, f, level), level, false, 0, 0)
    ensures |Meta(g, TreeOf(g, e, f, level)) - Meta(g, Hole)| == g.fpb
    ensures Empty(TreeOf(g, e, f, level))
  {
    hide Superblock.Valid, Run, Placed, PerBlock, Entries, Span, OnlyWrote, TreeOf;
    FreshTree(g, e, f, level);
    HoleStored(g, TreeOf(g, e, f, level), level);
    RunSize(f, g.fpb);
    assert Meta(g, TreeOf(g, e, f, level)) - Meta(g, Hole) == Run(f, g.fpb);
  }

  /** A missing root costs one more block, and an empty one is ready for the first pointer. */
  lemma RootMissing(g: Geometry, e: seq<byte>, f: nat, level: nat, idx: nat)
    requires f != 0 && level > 0 && idx < Span(g, level) && Empty(TreeOf(g, e, f, level))
    ensures Missing(g, Hole, level, idx) == Missing(g, TreeOf(g, e, f, level), level, idx) + 1
    ensures forall u: Tree, ok: bool, v: nat ::
              Appended(g, TreeOf(g, e, f, level), u, level, ok, idx, v) ==> Appended(g, Hole, u, level, ok, idx, v)
  {
    hide Superblock.Valid, PerBlock, Entries, Span, TreeOf, Empty;
    TreeShape(g, e, f, level);
    EmptyFilled(g, TreeOf(g, e, f, level), level);
  }

  /** The body of one round of nextufs__set_inode_data_block's loop: create the root block when
      there is none, then store below it. */
  method SetUnderRoot(img: Image, root: nat, level: nat, idx: nat, data: nat, preferred: nat)
    returns (rc: Rc, newRoot: nat, metaFrags: nat)
    requires img.Valid() && 0 < level && idx < Span(img.g, level) && data < 0x1_0000_0000
    requires Separate(img.g, TreeOf(img.g, img.disk, root, level))
    requires Meta(img.g, TreeOf(img.g, img.disk, root, level)) !! img.Free()
    modifies img`groups, img`csum, img`total, img`disk
    ensures SameInodes(old(img.groups), img.groups)
    ensures img.Valid()
    ensures rc == Ok || rc == NoSpace
    ensures Grew(img.g, old(img.disk), old(img.Free()), old(TreeOf(img.g, img.disk, root, level)),
                 img.disk, img.Free(), TreeOf(img.g, img.disk, newRoot, level))
    ensures Stored(img.g, old(TreeOf(img.g, img.disk, root, level)), TreeOf(img.g, img.disk, newRoot, level),
                   level, rc == Ok, idx, data)
    ensures metaFrags == |Meta(img.g, TreeOf(img.g, img.disk, newRoot, level))
                          - old(Meta(img.g, TreeOf(img.g, img.disk, root, level)))|
    ensures Paid(img.g, old(img.groups), img.groups,
                 Missing(img.g, old(TreeOf(img.g, img.disk, root, level)), level, idx), rc == Ok)
    ensures Appended(img.g, old(TreeOf(img.g, img.disk, root, level)), TreeOf(img.g, img.disk, newRoot, level),
                     level, rc == Ok, idx, data)
  {
    hide Superblock.Valid, Placed, PerBlock, Entries, Span, OnlyWrote, Run, FreeSet, CylGroup.Valid,
      Meta, Separate, Grew, Stored, Lookup, Spent, Paid, Appended, Wholes, Empty, TreeOf;
    ghost var d0, f0, t0, g0 := img.disk, img.Free(), TreeOf(img.g, img.disk, root, level), img.groups;
    GrewNothing(img.g, d0, f0, t0, level);
    TreeShape(img.g, d0, root, level);
    SpentNothing(img.g, g0);
    newRoot, metaFrags := root, 0;
    if root == 0 {
      rc, newRoot := AllocateZeroedFullBlock(img, preferred);
      if rc != Ok {
        CannotPay(img.g, g0, img.groups, level);
        AppendedNot(img.g, t0, level, idx, data);
        return NoSpace, 0, 0;
      }
      FreshGrew(img.g, d0, img.disk, f0, newRoot, level);
      RootMissing(img.g, img.disk, newRoot, level, idx);
      metaFrags := img.g.fpb;
    }
    ghost var d1, f1, t1, g1 := img.disk, img.Free(), TreeOf(img.g, img.disk, newRoot, level), img.groups;
    GrewParts(img.g, d0, f0, t0, d1, f1, t1);
    var more;
    rc, more := SetIndirectDataBlock(img, newRoot, level, idx, data, preferred);
    PaidAfter(img.g, g0, g1, img.groups, if root == 0 then 1 else 0, Missing(img.g, t1, level, idx), rc == Ok);
    GrewTwice(img.g, d0, f0, t0, d1, f1, t1, img.disk, img.Free(), TreeOf(img.g, img.disk, newRoot, level),
              level, rc == Ok, idx, data);
    metaFrags := metaFrags + more;
  }

  /** Growth of one slot's tree is growth of the whole map. */
  lemma SlotGrew(g: Geometry, d: seq<byte>, e: seq<byte>, free: set<nat>, free': set<nat>,
                 ino: Inode, slot: nat, root: nat, ok: bool, idx: nat, lb: nat, v: nat)
    requires ino.Shaped() && slot < NIADDR && InodeSeparate(g, d, ino) && InodeMeta(g, d, ino) !! free
    requires SpotOf(g, lb) == Under(slot, idx)
    requires Grew(g, d, free, SlotTree(g, d, ino, slot), e, free', TreeOf(g, e, root, slot + 1))
    requires Stored(g, SlotTree(g, d, ino, slot), TreeOf(g, e, root, slot + 1), slot + 1, ok, idx, v)
    ensures var ino' := ino.(ib := ino.ib[slot := root]);
            && MapGrew(g, d, free, ino, e, free', ino')
            && Mapped(g, d, ino, e, ino', ok, lb, v)
            && InodeMeta(g, e, ino') - InodeMeta(g, d, ino)
               == Meta(g, TreeOf(g, e, root, slot + 1)) - Meta(g, SlotTree(g, d, ino, slot))
            && SlotTree(g, e, ino', slot) == TreeOf(g, e, root, slot + 1)
            && forall s: nat | s < NIADDR && s != slot :: SlotTree(g, e, ino', s) == SlotTree(g, d, ino, s)
  {
    hide Superblock.Valid, OnlyWrote, Meta, Separate, Lookup, Span, SpotOf;
    var ino', t' := ino.(ib := ino.ib[slot := root]), TreeOf(g, e, root, slot + 1);
    assert SlotTree(g, e, ino', slot) == t';
    forall k | 0 <= k < NIADDR && k != slot
      ensures SlotTree(g, e, ino', k) == SlotTree(g, d, ino, k) && Meta(g, SlotTree(g, d, ino, k)) !! Meta(g, t')
    {
      SlotsApart(g, d, ino, free, slot, k);
      TreeFrame(g, d, e, ino.ib[k], k + 1, Meta(g, t'));
    }
    SlotMapped(g, d, e, ino, slot, root, ok, idx, lb, v);
    OnlyWroteMore(g, d, e, Meta(g, t'), InodeMeta(g, e, ino'));
  }

  lemma SlotsApart(g: Geometry, d: seq<byte>, ino: Inode, free: set<nat>, a: nat, b: nat)
    requires ino.Shaped() && a < NIADDR && b < NIADDR && a != b
    requires InodeSeparate(g, d, ino) && InodeMeta(g, d, ino) !! free
    ensures Meta(g, SlotTree(g, d, ino, b)) !! Meta(g, SlotTree(g, d, ino, a)) + free
  {
    hide Superblock.Valid, Meta, Separate, SlotTree;
    assert b == 0 || b == 1 || b == 2;
    assert if a < b then Meta(g, SlotTree(g, d, ino, a)) !! Meta(g, SlotTree(g, d, ino, b))
           else Meta(g, SlotTree(g, d, ino, b)) !! Meta(g, SlotTree(g, d, ino, a));
  }

  lemma SlotMapped(g: Geometry, d: seq<byte>, e: seq<byte>, ino: Inode, slot: nat, root: nat, ok: bool, idx: nat, lb: nat, v: nat)
    requires ino.Shaped() && slot < NIADDR && SpotOf(g, lb) == Under(slot, idx)
    requires var ino' := ino.(ib := ino.ib[slot := root]);
             forall k | 0 <= k < NIADDR && k != slot :: SlotTree(g, e, ino', k) == SlotTree(g, d, ino, k)
    requires Stored(g, SlotTree(g, d, ino, slot), TreeOf(g, e, root, slot + 1), slot + 1, ok, idx, v)
    ensures Mapped(g, d, ino, e, ino.(ib := ino.ib[slot := root]), ok, lb, v)
  {
    hide Superblock.Valid, Lookup, Span, SpotOf, TreeOf;
    var ino' := ino.(ib := ino.ib[slot := root]);
    forall j: nat ensures Ptr(g, e, ino', j) == if ok && j == lb then v else Ptr(g, d, ino, j) {
      SpotInjective(g, j, lb);
    }
  }

  lemma DirectMapped(g: Geometry, d: seq<byte>, free: set<nat>, ino: Inode, lb: nat, v: nat)
    requires ino.Shaped() && lb < NDADDR && InodeSeparate(g, d, ino) && InodeMeta(g, d, ino) !! free
    ensures var ino' := ino.(db := ino.db[lb := v]);
            && MapGrew(g, d, free, ino, d, free, ino')
            && Mapped(g, d, ino, d, ino', true, lb, v)
            && InodeMeta(g, d, ino') == InodeMeta(g, d, ino)
  {
    hide Superblock.Valid, Lookup, Span, SpotFrom, TreeOf, Meta, Separate;
    var ino' := ino.(db := ino.db[lb := v]);
    assert forall k | 0 <= k < NIADDR :: SlotTree(g, d, ino', k) == SlotTree(g, d, ino, k);
    forall j: nat ensures Ptr(g, d, ino', j) == if j == lb then v else Ptr(g, d, ino, j) {
      SpotInjective(g, j, lb);
    }
  }

  lemma MapGrewNothing(g: Geometry, d: seq<byte>, free: set<nat>, ino: Inode)
    requires ino.Shaped() && InodeSeparate(g, d, ino) && InodeMeta(g, d, ino) !! free
    ensures MapGrew(g, d, free, ino, d, free, ino)
    ensures InodeMeta(g, d, ino) - InodeMeta(g, d, ino) == {}
    ensures forall lb: nat, v: nat :: Mapped(g, d, ino, d, ino, false, lb, v)
  {
  }

  // ---- maps that hold their first blocks and nothing else ----

  /** The first logical block under a slot; for slot 3, the first out of reach. */
  ghost function First(g: Geometry, slot: nat): nat {
    if slot == 0 then NDADDR else First(g, slot - 1) + Span(g, slot)
  }

  /** How many of the first m logical blocks lie under a slot. */
  ghost function SlotPart(g: Geometry, m: nat, slot: nat): (p: nat)
    ensures p <= Span(g, slot + 1)
  {
    if m <= First(g, slot) then 0 else if m - First(g, slot) < Span(g, slot + 1) then m - First(g, slot) else Span(g, slot + 1)
  }

  /** The inode maps its first m logical blocks and has no other pointer or indirect block. */
  ghost predicate Snug(g: Geometry, d: seq<byte>, ino: Inode, m: nat)
    requires ino.Shaped()
  {
    && (forall i | 0 <= i < NDADDR :: ino.db[i] != 0 <==> i < m)
    && (forall s: nat | s < NIADDR :: Packed(g, SlotTree(g, d, ino, s), s + 1, SlotPart(g, m, s)))
  }

  /** Indirect blocks that mapping a block takes. */
  ghost function MapCost(g: Geometry, d: seq<byte>, ino: Inode, lb: nat): nat
    requires ino.Shaped()
  {
    match SpotOf(g, lb)
    case Under(s, idx) => if s < NIADDR then Missing(g, SlotTree(g, d, ino, s), s + 1, idx) else 0
    case _ => 0
  }

  /** Whole blocks that storing logical block lb takes, with its indirect blocks, when blocks are
      stored in order. */
  ghost function Cost(g: Geometry, lb: nat): nat {
    match SpotOf(g, lb)
    case Under(s, idx) => 1 + Fresh(g, s + 1, idx)
    case _ => 1
  }

  lemma SpotIs(g: Geometry, local: nat, slot: nat)
    requires slot <= NIADDR
    ensures SpotFrom(g, local, slot).Beyond? <==> First(g, slot) + local >= First(g, NIADDR)
    ensures SpotFrom(g, local, slot).Under? ==>
              var u := SpotFrom(g, local, slot);
              slot <= u.slot < NIADDR && u.idx < Span(g, u.slot + 1) && First(g, u.slot) + u.idx == First(g, slot) + local
    ensures !SpotFrom(g, local, slot).Direct?
    decreases NIADDR - slot
  {
    hide Span;
    if slot < NIADDR {
      assert First(g, slot + 1) == First(g, slot) + Span(g, slot + 1);
      if local >= Span(g, slot + 1) {
        SpotIs(g, local - Span(g, slot + 1), slot + 1);
      } else {
        FirstMonotone(g, slot + 1, NIADDR);
      }
    }
  }

  lemma FirstMonotone(g: Geometry, a: nat, b: nat)
    requires a <= b
    ensures First(g, a) <= First(g, b)
  {
    hide Span;
    if a < b {
      FirstMonotone(g, a, b - 1);
    }
  }

  lemma SpotOfIs(g: Geometry, lb: nat)
    ensures SpotOf(g, lb).Beyond? <==> lb >= First(g, NIADDR)
    ensures SpotOf(g, lb).Under? ==>
              var u := SpotOf(g, lb); u.slot < NIADDR && u.idx < Span(g, u.slot + 1) && First(g, u.slot) + u.idx == lb
    ensures SpotOf(g, lb).Direct? <==> lb < NDADDR
  {
    hide Span, SpotFrom;
    FirstMonotone(g, 0, NIADDR);
    if lb >= NDADDR {
      SpotIs(g, lb - NDADDR, 0);
    }
  }

  /** One more block moves one slot's part by one. */
  lemma SlotPartNext(g: Geometry, lb: nat)
    ensures var u := SpotOf(g, lb);
            forall s: nat | s < NIADDR ::
              SlotPart(g, lb + 1, s) == SlotPart(g, lb, s) + if u.Under? && u.slot == s then 1 else 0
    ensures var u := SpotOf(g, lb); u.Under? ==> u.slot < NIADDR && SlotPart(g, lb, u.slot) == u.idx < Span(g, u.slot + 1)
  {
    hide Span, SpotOf;
    SpotOfIs(g, lb);
    FirstMonotone(g, 0, NIADDR);
    forall s: nat | s < NIADDR
      ensures var u := SpotOf(g, lb); SlotPart(g, lb + 1, s) == SlotPart(g, lb, s) + if u.Under? && u.slot == s then 1 else 0
    {
      FirstMonotone(g, 0, s);
      FirstMonotone(g, s + 1, NIADDR);
      assert First(g, s + 1) == First(g, s) + Span(g, s + 1);
      if SpotOf(g, lb).Under? {
        var t := SpotOf(g, lb).slot;
        if t < s { FirstMonotone(g, t + 1, s); } else if s < t { FirstMonotone(g, s + 1, t); }
        assert First(g, t + 1) == First(g, t) + Span(g, t + 1);
      }
    }
  }

  lemma SnugCost(g: Geometry, d: seq<byte>, ino: Inode, lb: nat)
    requires ino.Shaped() && Snug(g, d, ino, lb)
    ensures 1 + MapCost(g, d, ino, lb) == Cost(g, lb)
  {
    hide Span, SpotOf, Superblock.Valid, SlotPart, SlotTree, Packed, Missing, Fresh;
    SlotPartNext(g, lb);
    var u := SpotOf(g, lb);
    if u.Under? {
      MissingIsFresh(g, SlotTree(g, d, ino, u.slot), u.slot + 1, u.idx);
    }
  }

  /** A snug map has data exactly at its first m blocks. */
  lemma SnugHolds(g: Geometry, d: seq<byte>, ino: Inode, m: nat, lb: nat)
    requires ino.Shaped() && Snug(g, d, ino, m) && lb < First(g, NIADDR)
    ensures Ptr(g, d, ino, lb) != 0 <==> lb < m
  {
    hide Span, SpotOf, Superblock.Valid, SlotTree, Packed, Lookup;
    SpotOfIs(g, lb);
    var u := SpotOf(g, lb);
    if u.Under? {
      PackedHolds(g, SlotTree(g, d, ino, u.slot), u.slot + 1, SlotPart(g, m, u.slot), u.idx);
    } else {
      assert u == Direct(lb) by { DirectSpot(g, lb); }
    }
  }

  lemma DirectSpot(g: Geometry, lb: nat)
    requires lb < NDADDR
    ensures SpotOf(g, lb) == Direct(lb)
  {
  }

  lemma SnugDirect(g: Geometry, d: seq<byte>, ino: Inode, lb: nat, v: nat)
    requires ino.Shaped() && lb < NDADDR && v != 0
    ensures Snug(g, d, ino, lb) ==> Snug(g, d, ino.(db := ino.db[lb := v]), lb + 1)
  {
    hide Span, SpotOf, Superblock.Valid, SlotPart, TreeOf, Packed;
    SlotPartNext(g, lb);
    DirectSpot(g, lb);
    var out := ino.(db := ino.db[lb := v]);
    assert forall s: nat | s < NIADDR :: SlotTree(g, d, out, s) == SlotTree(g, d, ino, s);
  }

  lemma SnugSlot(g: Geometry, d: seq<byte>, e: seq<byte>, ino: Inode, out: Inode, slot: nat, idx: nat, lb: nat, v: nat)
    requires ino.Shaped() && slot < NIADDR && SpotOf(g, lb) == Under(slot, idx) && v != 0
    requires out.Shaped() && out.db == ino.db
    requires forall s: nat | s < NIADDR && s != slot :: SlotTree(g, e, out, s) == SlotTree(g, d, ino, s)
    requires Appended(g, SlotTree(g, d, ino, slot), SlotTree(g, e, out, slot), slot + 1, true, idx, v)
    ensures Snug(g, d, ino, lb) ==> Snug(g, e, out, lb + 1)
  {
    hide Span, SpotOf, Superblock.Valid, SlotPart, SlotTree, Packed, Filled;
    SlotPartNext(g, lb);
    SpotOfIs(g, lb);
  }

  /** nextufs__set_inode_data_block: map logical block lb to fragment data. */
  method SetInodeDataBlock(img: Image, ino: Inode, lb: nat, data: nat, preferred: nat)
    returns (rc: Rc, out: Inode, metaFrags: nat)
    requires img.Valid() && ino.Shaped() && data < 0x1_0000_0000
    requires InodeSeparate(img.g, img.disk, ino) && InodeMeta(img.g, img.disk, ino) !! img.Free()
    modifies img`groups, img`csum, img`total, img`disk
    ensures SameInodes(old(img.groups), img.groups)
    ensures img.Valid() && out.Shaped() && out == ino.(db := out.db, ib := out.ib)
    ensures rc == Ok || rc == NoSpace || rc == TooBig
    ensures rc == TooBig <==> SpotOf(img.g, lb) == Beyond
    ensures lb < NDADDR ==> rc == Ok
    ensures MapGrew(img.g, old(img.disk), old(img.Free()), ino, img.disk, img.Free(), out)
    ensures Mapped(img.g, old(img.disk), ino, img.disk, out, rc == Ok, lb, data)
    ensures metaFrags == |InodeMeta(img.g, img.disk, out) - InodeMeta(img.g, old(img.disk), ino)|
    ensures rc != TooBig ==> Paid(img.g, old(img.groups), img.groups, MapCost(img.g, old(img.disk), ino, lb), rc == Ok)
    ensures rc == Ok && data != 0 && Snug(img.g, old(img.disk), ino, lb) ==> Snug(img.g, img.disk, out, lb + 1)
  {
    hide Superblock.Valid, OnlyWrote, FreeSet, CylGroup.Valid, Grew, Stored, MapGrew, Mapped,
      InodeMeta, Meta, Separate, TreeOf, Lookup, PerBlock, Paid, Snug, Appended, Missing;
    MapGrewNothing(img.g, img.disk, img.Free(), ino);
    PaidNothing(img.g, img.groups);
    if lb < NDADDR {
      DirectMapped(img.g, img.disk, img.Free(), ino, lb, data);
      if data != 0 { SnugDirect(img.g, img.disk, ino, lb, data); }
      return Ok, ino.(db := ino.db[lb := data]), 0;
    }
    var local: nat, span: nat := lb - NDADDR, PerBlock(img.g);
    var slot := 0;
    while slot < NIADDR
      invariant slot <= NIADDR && span == Span(img.g, slot + 1)
      invariant img.groups == old(img.groups) && img.disk == old(img.disk) && img.Valid()
      invariant SpotOf(img.g, lb) == SpotFrom(img.g, local, slot)
    {
      if local < span {
        ghost var d0, f0 := img.disk, img.Free();
        SlotClear(img.g, d0, ino, f0, slot);
        var root;
        rc, root, metaFrags := SetUnderRoot(img, ino.ib[slot], slot + 1, local, data, preferred);
        SlotGrew(img.g, d0, img.disk, f0, img.Free(), ino, slot, root, rc == Ok, local, lb, data);
        if rc == Ok && data != 0 {
          SnugSlot(img.g, d0, img.disk, ino, ino.(ib := ino.ib[slot := root]), slot, local, lb, data);
        }
        return rc, ino.(ib := ino.ib[slot := root]), metaFrags;
      }
      local := local - span;
      span := PerBlock(img.g) * span;
      slot := slot + 1;
    }
    return TooBig, ino, 0;
  }

  lemma SlotClear(g: Geometry, d: seq<byte>, ino: Inode, free: set<nat>, slot: nat)
    requires ino.Shaped() && slot < NIADDR && InodeSeparate(g, d, ino) && InodeMeta(g, d, ino) !! free
    ensures Separate(g, SlotTree(g, d, ino, slot)) && Meta(g, SlotTree(g, d, ino, slot)) !! free
  {
    assert slot == 0 || slot == 1 || slot == 2;
  }

  // ---- the two inode-level resolvers ----

  /** nextufs__resolve_inode_data_block, the deallocator's view. */
  method ResolveInodeDataBlock(img: Image, ino: Inode, lb: nat) returns (rc: Rc, data: nat)
    requires img.Valid() && ino.Shaped() && InodeSeparate(img.g, img.disk, ino)
    ensures rc == if SpotOf(img.g, lb) == Beyond then TooBig else Ok
    ensures rc == Ok ==> data == Ptr(img.g, img.disk, ino, lb)
  {
    hide Superblock.Valid, Meta, Separate, TreeOf, Lookup, PerBlock, CylGroup.Valid;
    if lb < NDADDR {
      return Ok, ino.db[lb];
    }
    var local: nat, span: nat := lb - NDADDR, PerBlock(img.g);
    for slot := 0 to NIADDR
      invariant span == Span(img.g, slot + 1) && SpotOf(img.g, lb) == SpotFrom(img.g, local, slot)
    {
      if local < span {
        assert Separate(img.g, SlotTree(img.g, img.disk, ino, slot));
        rc, data := ResolveIndirectDataBlock(img, ino.ib[slot], slot + 1, local);
        return;
      }
      local := local - span;
      span := PerBlock(img.g) * span;
    }
    return TooBig, 0;
  }

  /** The reader reports a block whose top-level indirect pointer is missing as an error. */
  ghost predicate NoRoot(g: Geometry, ino: Inode, lb: nat)
    requires ino.Shaped()
  {
    var s := SpotOf(g, lb);
    s.Under? && s.slot < NIADDR && ino.ib[s.slot] == 0
  }

  /** resolve_file_block_frag, the reader's view: it agrees with the other resolver exactly when
      the block is in range and its tree has a root. */
  method ResolveFileBlockFrag(img: Image, ino: Inode, lb: nat) returns (rc: Rc, data: nat)
    requires img.Valid() && ino.Shaped() && InodeSeparate(img.g, img.disk, ino)
    ensures rc == if SpotOf(img.g, lb) == Beyond || NoRoot(img.g, ino, lb) then Invalid else Ok
    ensures rc == Ok ==> data == Ptr(img.g, img.disk, ino, lb)
  {
    hide Superblock.Valid, Meta, Separate, TreeOf, Lookup, PerBlock, CylGroup.Valid;
    if lb < NDADDR {
      return Ok, ino.db[lb];
    }
    var local: nat, span: nat := lb - NDADDR, PerBlock(img.g);
    for slot := 0 to NIADDR
      invariant span == Span(img.g, slot + 1) && SpotOf(img.g, lb) == SpotFrom(img.g, local, slot)
    {
      if local < span {
        assert Separate(img.g, SlotTree(img.g, img.disk, ino, slot));
        rc, data := ResolveIndirectBlockFrag(img, ino.ib[slot], slot + 1, local);
        return;
      }
      local := local - span;
      span := PerBlock(img.g) * span;
    }
    return Invalid, 0;
  }
}
