/** Indirect blocks: the pointer trees that the writer builds, two resolvers walk and the
    deallocator tears down, all over the same raw bytes the allocator manages. */
module Indirect {
  import opened Geometry
  import opened Image
  import opened Alloc
  import opened Room

  // ---- entries of one indirect block ----

  /** nextufs__read_be32. */
  function ReadBe32(bs: seq<byte>): (v: nat)
    requires |bs| == 4
    ensures v < 0x1_0000_0000
  {
    ((bs[0] as int * 0x100 + bs[1] as int) * 0x100 + bs[2] as int) * 0x100 + bs[3] as int
  }

  /** nextufs__write_be32. */
  function WriteBe32(v: nat): (bs: seq<byte>)
    requires v < 0x1_0000_0000
    ensures |bs| == 4 && ReadBe32(bs) == v
  {
    var hi, lo := v / 0x1_0000, v % 0x1_0000;
    [(hi / 0x100) as byte, (hi % 0x100) as byte, (lo / 0x100) as byte, (lo % 0x100) as byte]
  }

  /** Pointers per indirect block: block_size / 4. */
  function PerBlock(g: Geometry): (e: nat)
    ensures e > 0 && 4 * e == g.Off(g.fpb)
  {
    assert g.fragSize == 4 * (g.fragSize / 4);
    assert g.Off(g.fpb) == 4 * (g.fpb * (g.fragSize / 4)) by { PerBlockProduct(g.fpb, g.fragSize / 4); }
    g.Off(g.fpb) / 4
  }

  lemma PerBlockProduct(fpb: nat, q: nat)
    requires fpb > 0
    ensures fpb * (4 * q) == 4 * (fpb * q) && (q > 0 ==> fpb * q > 0)
  {
    if q > 0 {
      MulAtLeast(fpb, q);
    }
  }

  /** The pointers stored in the block at f. */
  ghost function Entries(g: Geometry, d: seq<byte>, f: nat): (es: seq<nat>)
    ensures |es| == PerBlock(g)
  {
    EntriesOf(Bytes(g, d, f, g.fpb), PerBlock(g))
  }

  ghost function EntriesOf(b: seq<byte>, e: nat): (es: seq<nat>)
    ensures |es| == e
  {
    seq(e, i requires 0 <= i < e => if |b| == 4 * e then ReadBe32(b[4 * i..4 * i + 4]) else 0)
  }

  lemma WriteEntry(b: seq<byte>, e: nat, i: nat, v: nat)
    requires |b| == 4 * e && i < e && v < 0x1_0000_0000
    ensures EntriesOf(Splice(b, 4 * i, WriteBe32(v)), e) == EntriesOf(b, e)[i := v]
  {
    var c := Splice(b, 4 * i, WriteBe32(v));
    forall j | 0 <= j < e ensures ReadBe32(c[4 * j..4 * j + 4]) == if j == i then v else ReadBe32(b[4 * j..4 * j + 4]) {
      if j == i {
        assert c[4 * j..4 * j + 4] == WriteBe32(v);
      } else {
        assert c[4 * j..4 * j + 4] == b[4 * j..4 * j + 4];
      }
    }
  }

  lemma ZeroEntries(b: seq<byte>, e: nat)
    requires forall i | 0 <= i < |b| :: b[i] == 0
    ensures forall i | 0 <= i < e :: EntriesOf(b, e)[i] == 0
  {
  }

  // ---- pointer trees ----

  /** A pointer tree as stored on disk: a hole, a block of data pointers, or a block of subtrees. */
  datatype Tree = Hole | Leaf(at: nat, ptrs: seq<nat>) | Node(at: nat, kids: seq<Tree>)

  ghost function TreeOf(g: Geometry, d: seq<byte>, root: nat, level: nat): Tree
    decreases level
  {
    if root == 0 then Hole
    else if level <= 1 then Leaf(root, Entries(g, d, root))
    else
      var es := Entries(g, d, root);
      Node(root, seq(PerBlock(g), i requires 0 <= i < |es| => TreeOf(g, d, es[i], level - 1)))
  }

  /** Data blocks reachable through one subtree of the given level. */
  ghost function Span(g: Geometry, level: nat): (s: nat)
    ensures s > 0
  {
    if level == 0 then 1 else MulAtLeast(PerBlock(g), Span(g, level - 1)); PerBlock(g) * Span(g, level - 1)
  }

  /** The data pointer stored at position idx, 0 if any block on the path is a hole. */
  ghost function Lookup(g: Geometry, t: Tree, level: nat, idx: nat): nat
  {
    match t
    case Hole => 0
    case Leaf(_, ptrs) => if idx < |ptrs| then ptrs[idx] else 0
    case Node(_, kids) =>
      if level == 0 then 0 else
      var i := idx / Span(g, level - 1);
      if i < |kids| then Lookup(g, kids[i], level - 1, idx % Span(g, level - 1)) else 0
  }

  // ---- trees that hold their first pointers and nothing else ----

  /** How many of the first m pointers lie under subtree i. */
  ghost function Part(g: Geometry, level: nat, m: nat, i: nat): (p: nat)
    requires level > 0
    ensures p <= Span(g, level - 1)
  {
    var s := Span(g, level - 1);
    if m <= i * s then 0 else if m - i * s < s then m - i * s else s
  }

  /** The tree has a root, holds exactly its first m pointers, and has no block without a pointer
      below the root. */
  ghost predicate Filled(g: Geometry, t: Tree, level: nat, m: nat) {
    match t
    case Hole => false
    case Leaf(_, ptrs) => level == 1 && |ptrs| == PerBlock(g) && forall i | 0 <= i < |ptrs| :: ptrs[i] != 0 <==> i < m
    case Node(_, kids) =>
      && level > 1 && |kids| == PerBlock(g)
      && forall i: nat | i < |kids| ::
           var p := Part(g, level, m, i);
           if p == 0 then kids[i] == Hole else Filled(g, kids[i], level - 1, p)
  }

  /** The same with no root when there is nothing to hold. */
  ghost predicate Packed(g: Geometry, t: Tree, level: nat, m: nat) {
    if m == 0 then t == Hole else Filled(g, t, level, m)
  }

  lemma KidPacked(g: Geometry, t: Tree, level: nat, m: nat, idx: nat)
    requires Filled(g, t, level, m) && t.Node? && idx < Span(g, level)
    ensures var s := Span(g, level - 1); var i := idx / s;
            i < |t.kids| && idx % s < s && Packed(g, t.kids[i], level - 1, Part(g, level, m, i))
  {
    hide Superblock.Valid, Span, Part;
    IndexInSpan(g, level, idx);
  }

  /** A root without any pointer. */
  predicate Empty(t: Tree) {
    match t
    case Hole => false
    case Leaf(_, ptrs) => forall i | 0 <= i < |ptrs| :: ptrs[i] == 0
    case Node(_, kids) => forall i | 0 <= i < |kids| :: kids[i] == Hole
  }

  /** Blocks that do not exist yet on the way to position idx. */
  ghost function Missing(g: Geometry, t: Tree, level: nat, idx: nat): nat {
    match t
    case Hole => level
    case Leaf(_, _) => 0
    case Node(_, kids) =>
      if level == 0 then 0 else
      var i := idx / Span(g, level - 1);
      if i < |kids| then Missing(g, kids[i], level - 1, idx % Span(g, level - 1)) else 0
  }

  /** The same when pointers are stored in order. */
  ghost function Fresh(g: Geometry, level: nat, idx: nat): nat {
    if level == 0 then 0 else if idx == 0 then level else Fresh(g, level - 1, idx % Span(g, level - 1))
  }

  /** The part under the subtree position idx falls in. */
  lemma PartAt(g: Geometry, level: nat, idx: nat)
    requires level > 0 && idx < Span(g, level)
    ensures var s := Span(g, level - 1); var i := idx / s;
            && i < PerBlock(g)
            && Part(g, level, idx, i) == idx % s && Part(g, level, idx + 1, i) == idx % s + 1
            && forall j: nat | j != i :: Part(g, level, idx + 1, j) == Part(g, level, idx, j)
  {
    hide Superblock.Valid;
    IndexInSpan(g, level, idx);
    var s := Span(g, level - 1);
    var i := idx / s;
    forall j: nat | j != i ensures Part(g, level, idx + 1, j) == Part(g, level, idx, j) {
      SpanApart(i, j, s);
    }
  }

  lemma SpanApart(i: nat, j: nat, s: nat)
    ensures i < j ==> i * s + s <= j * s
    ensures j < i ==> j * s + s <= i * s
  {
    if i < j {
      assert (i + 1) * s <= j * s;
    } else if j < i {
      assert (j + 1) * s <= i * s;
    }
  }

  /** In a packed tree the next pointer needs a known number of new blocks. */
  lemma {:induction false} MissingIsFresh(g: Geometry, t: Tree, level: nat, idx: nat)
    requires Packed(g, t, level, idx) && idx < Span(g, level)
    ensures Missing(g, t, level, idx) == Fresh(g, level, idx)
    decreases level
  {
    hide Superblock.Valid, Span, Part;
    if idx > 0 {
      NothingFresh(g, idx % Span(g, level - 1));
      if t.Node? {
        PartAt(g, level, idx);
        KidPacked(g, t, level, idx, idx);
        MissingIsFresh(g, t.kids[idx / Span(g, level - 1)], level - 1, idx % Span(g, level - 1));
      }
    }
  }

  lemma NothingFresh(g: Geometry, idx: nat)
    ensures Fresh(g, 0, idx) == 0
  {
  }

  /** A packed tree has data exactly at its first m positions. */
  lemma {:induction false} PackedHolds(g: Geometry, t: Tree, level: nat, m: nat, idx: nat)
    requires Packed(g, t, level, m) && level > 0 && idx < Span(g, level)
    ensures Lookup(g, t, level, idx) != 0 <==> idx < m
    decreases level
  {
    hide Superblock.Valid, Span, Part;
    if m > 0 && t.Node? {
      var s := Span(g, level - 1);
      KidPacked(g, t, level, m, idx);
      PartIs(g, level, m, idx);
      PackedHolds(g, t.kids[idx / s], level - 1, Part(g, level, m, idx / s), idx % s);
    } else if m > 0 && t.Leaf? {
      SpanOne(g);
    }
  }

  lemma PartIs(g: Geometry, level: nat, m: nat, idx: nat)
    requires level > 0
    ensures var s := Span(g, level - 1); idx % s < Part(g, level, m, idx / s) <==> idx < m
  {
    hide Superblock.Valid, Span;
    var s := Span(g, level - 1);
    assert idx == idx / s * s + idx % s;
  }

  /** An empty tree is ready for its first pointer. */
  lemma EmptyFilled(g: Geometry, t: Tree, level: nat)
    requires Empty(t) && level > 0
    requires t.Leaf? ==> level == 1 && |t.ptrs| == PerBlock(g)
    requires t.Node? ==> level > 1 && |t.kids| == PerBlock(g)
    ensures Filled(g, t, level, 0)
    ensures forall idx: nat | idx < Span(g, level) :: Missing(g, t, level, idx) == level - 1
  {
    hide Superblock.Valid, Span, Missing, PerBlock;
    forall idx: nat | idx < Span(g, level) ensures Missing(g, t, level, idx) == level - 1 {
      MissingInEmpty(g, t, level, idx);
    }
    NoParts(g, level);
  }

  lemma NoParts(g: Geometry, level: nat)
    requires level > 0
    ensures forall i: nat :: Part(g, level, 0, i) == 0
  {
    hide Superblock.Valid, Span;
  }

  lemma MissingInEmpty(g: Geometry, t: Tree, level: nat, idx: nat)
    requires Empty(t) && level > 0 && idx < Span(g, level)
    requires t.Leaf? ==> level == 1
    requires t.Node? ==> level > 1 && |t.kids| == PerBlock(g)
    ensures Missing(g, t, level, idx) == level - 1
  {
    hide Superblock.Valid, Span;
    IndexInSpan(g, level, idx);
  }

  /** Filling the subtree at position idx fills the tree. */
  lemma FilledBelow(g: Geometry, t: Tree, level: nat, idx: nat, c: Tree)
    requires Filled(g, t, level, idx) && level > 1 && t.Node? && idx < Span(g, level)
    requires Filled(g, c, level - 1, idx % Span(g, level - 1) + 1)
    ensures idx / Span(g, level - 1) < |t.kids|
    ensures Filled(g, Node(t.at, t.kids[idx / Span(g, level - 1) := c]), level, idx + 1)
  {
    hide Superblock.Valid, Span, Part;
    PartAt(g, level, idx);
  }

  /** The fragments that hold a tree's own blocks. */
  ghost function Meta(g: Geometry, t: Tree): set<nat> {
    match t
    case Hole => {}
    case Leaf(at, _) => Run(at, g.fpb)
    case Node(at, kids) => Run(at, g.fpb) + (set i, x | 0 <= i < |kids| && x in Meta(g, kids[i]) :: x)
  }

  /** Every block of the tree is a whole placed block and no two of them overlap. */
  ghost predicate Separate(g: Geometry, t: Tree) {
    match t
    case Hole => true
    case Leaf(at, _) => Placed(g, at, g.fpb)
    case Node(at, kids) =>
      && Placed(g, at, g.fpb)
      && (forall i | 0 <= i < |kids| :: Separate(g, kids[i]) && Run(at, g.fpb) !! Meta(g, kids[i]))
      && (forall i, j | 0 <= i < j < |kids| :: Meta(g, kids[i]) !! Meta(g, kids[j]))
  }

  /** A write that stays clear of a tree's blocks leaves the tree as it was. */
  lemma {:induction false} TreeFrame(g: Geometry, d: seq<byte>, e: seq<byte>, root: nat, level: nat, s: set<nat>)
    requires OnlyWrote(g, d, e, s) && Meta(g, TreeOf(g, d, root, level)) !! s
    ensures TreeOf(g, e, root, level) == TreeOf(g, d, root, level)
    decreases level
  {
    hide Superblock.Valid, Run, PerBlock, EntriesOf, Bytes;
    if root != 0 {
      assert Run(root, g.fpb) !! s;
      var es := Entries(g, d, root);
      if level > 1 {
        forall i | 0 <= i < |es| ensures TreeOf(g, e, es[i], level - 1) == TreeOf(g, d, es[i], level - 1) {
          var t := TreeOf(g, d, root, level);
          assert t.kids[i] == TreeOf(g, d, es[i], level - 1);
          assert Meta(g, t.kids[i]) <= Meta(g, t);
          TreeFrame(g, d, e, es[i], level - 1, s);
        }
      }
    }
  }

  /** Rewriting entry i of a block, and blocks outside the other subtrees, replaces subtree i. */
  lemma KidReplaced(g: Geometry, d: seq<byte>, e: seq<byte>, root: nat, level: nat, i: nat, v: nat, s: set<nat>)
    requires root != 0 && level > 1 && i < PerBlock(g) && OnlyWrote(g, d, e, s)
    requires Entries(g, e, root) == Entries(g, d, root)[i := v]
    requires forall j | 0 <= j < PerBlock(g) && j != i :: Meta(g, TreeOf(g, d, root, level).kids[j]) !! s
    ensures TreeOf(g, e, root, level) == Node(root, TreeOf(g, d, root, level).kids[i := TreeOf(g, e, v, level - 1)])
  {
    hide Superblock.Valid, Run, PerBlock, Entries, Meta, OnlyWrote;
    var es, kids := Entries(g, d, root), TreeOf(g, d, root, level).kids;
    forall j | 0 <= j < PerBlock(g) && j != i ensures TreeOf(g, e, es[j], level - 1) == kids[j] {
      assert kids[j] == TreeOf(g, d, es[j], level - 1);
      TreeFrame(g, d, e, es[j], level - 1, s);
    }
  }

  /** Putting a grown subtree in place of subtree i keeps the blocks apart. */
  lemma GraftSeparate(g: Geometry, at: nat, kids: seq<Tree>, i: nat, t: Tree)
    requires i < |kids| && Separate(g, Node(at, kids)) && Separate(g, t)
    requires Meta(g, kids[i]) <= Meta(g, t)
    requires (Meta(g, t) - Meta(g, kids[i])) !! Meta(g, Node(at, kids))
    ensures Separate(g, Node(at, kids[i := t]))
    ensures Meta(g, Node(at, kids[i := t])) == Meta(g, Node(at, kids)) + Meta(g, t)
  {
    hide Superblock.Valid, Run, Placed;
    var new_ := kids[i := t];
    forall j | 0 <= j < |kids| ensures Meta(g, kids[j]) <= Meta(g, Node(at, kids)) {
    }
    assert Run(at, g.fpb) !! Meta(g, t);
    forall j | 0 <= j < |kids| && j != i ensures Meta(g, kids[j]) !! Meta(g, t) {
      assert Meta(g, kids[j]) !! Meta(g, kids[i]) by {
        assert j < i || Meta(g, kids[i]) !! Meta(g, kids[j]);
      }
    }
    GraftMeta(g, at, kids, i, t);
  }

  /** What the node's blocks become. */
  lemma GraftMeta(g: Geometry, at: nat, kids: seq<Tree>, i: nat, t: Tree)
    requires i < |kids| && Meta(g, kids[i]) <= Meta(g, t)
    ensures Meta(g, Node(at, kids[i := t])) == Meta(g, Node(at, kids)) + Meta(g, t)
  {
    hide Superblock.Valid, Run;
    var new_ := kids[i := t];
    forall x ensures x in Meta(g, Node(at, new_)) <==> x in Meta(g, Node(at, kids)) + Meta(g, t) {
      if x in Meta(g, t) {
        assert x in Meta(g, new_[i]);
      } else if x in Meta(g, Node(at, kids)) && x !in Run(at, g.fpb) {
        var j :| 0 <= j < |kids| && x in Meta(g, kids[j]);
        assert new_[j] == kids[j];
      }
    }
  }

  /** A fresh all-zero block is a tree without data and without further blocks. */
  lemma FreshTree(g: Geometry, d: seq<byte>, f: nat, level: nat)
    requires f != 0 && level > 0 && Placed(g, f, g.fpb)
    requires forall i | 0 <= i < PerBlock(g) :: Entries(g, d, f)[i] == 0
    ensures var t := TreeOf(g, d, f, level);
            Empty(t) && Meta(g, t) == Run(f, g.fpb) && Separate(g, t) && forall j: nat :: Lookup(g, t, level, j) == 0
  {
    hide Superblock.Valid, PerBlock, Entries, Placed, Run, Span;
    var t := TreeOf(g, d, f, level);
    if level > 1 {
      forall i | 0 <= i < |t.kids| ensures t.kids[i] == Hole {
        assert Entries(g, d, f)[i] == 0 && TreeOf(g, d, 0, level - 1) == Hole;
      }
    }
  }

  // ---- reading and writing entries ----

  /** nextufs__read_indirect_entry. */
  method ReadIndirectEntry(img: Image, block: nat, i: nat) returns (rc: Rc, v: nat)
    requires img.Valid() && Placed(img.g, block, img.g.fpb)
    ensures rc == if i < PerBlock(img.g) then Ok else Invalid
    ensures rc == Ok ==> v == Entries(img.g, img.disk, block)[i] && v < 0x1_0000_0000
  {
    hide Superblock.Valid, Superblock.Off, Superblock.Base, Placed;
    if i >= PerBlock(img.g) {
      return Invalid, 0;
    }
    PlacedNonZero(img.g, block, img.g.fpb);
    BytesFit(img.g, img.disk, block, img.g.fpb);
    var raw := Bytes(img.g, img.disk, block, img.g.fpb)[4 * i..4 * i + 4];
    return Ok, ReadBe32(raw);
  }

  /** nextufs__write_indirect_entry. */
  method WriteIndirectEntry(img: Image, block: nat, i: nat, v: nat) returns (rc: Rc)
    requires img.Valid() && Placed(img.g, block, img.g.fpb) && v < 0x1_0000_0000
    modifies img`disk
    ensures img.Valid()
    ensures rc == if i < PerBlock(img.g) then Ok else Invalid
    ensures rc == Ok ==> Entries(img.g, img.disk, block) == old(Entries(img.g, img.disk, block))[i := v]
    ensures rc == Ok ==> OnlyWrote(img.g, old(img.disk), img.disk, Run(block, img.g.fpb))
    ensures rc != Ok ==> img.disk == old(img.disk)
  {
    hide Superblock.Valid, Superblock.Off, Superblock.Base, Placed, EntriesOf, OnlyWrote, Run;
    if i >= PerBlock(img.g) {
      return Invalid;
    }
    PlacedNonZero(img.g, block, img.g.fpb);
    BytesFit(img.g, img.disk, block, img.g.fpb);
    WriteEntry(Bytes(img.g, img.disk, block, img.g.fpb), PerBlock(img.g), i, v);
    img.WriteExact(block, img.g.fpb, 4 * i, WriteBe32(v));
    return Ok;
  }

  /** nextufs__allocate_zeroed_full_block. */
  method AllocateZeroedFullBlock(img: Image, preferred: nat) returns (rc: Rc, frag: nat)
    requires img.Valid()
    modifies img`groups, img`csum, img`total, img`disk
    ensures SameInodes(old(img.groups), img.groups)
    ensures img.Valid()
    ensures rc == Ok || rc == NoSpace
    ensures rc == Ok ==> Placed(img.g, frag, img.g.fpb) && Run(frag, img.g.fpb) <= old(img.Free()) && frag != 0
    ensures rc == Ok ==> img.Free() == old(img.Free()) - Run(frag, img.g.fpb)
    ensures rc == Ok ==> forall i | 0 <= i < PerBlock(img.g) :: Entries(img.g, img.disk, frag)[i] == 0
    ensures rc == Ok ==> OnlyWrote(img.g, old(img.disk), img.disk, Run(frag, img.g.fpb)) && frag < 0x1_0000_0000
    ensures rc != Ok ==> img.groups == old(img.groups) && img.disk == old(img.disk)
    ensures rc == NoSpace <==> Wholes(img.g, old(img.groups)) == 0
    ensures rc == Ok ==> Spent(img.g, old(img.groups), img.groups, 1)
  {
    hide Superblock.Valid, Superblock.Off, Superblock.Base, Placed, EntriesOf, OnlyWrote, Run, FreeSet,
      CylGroup.Valid, Allotted, GroupFits, Wholes, PartlyFits, Spent, SameInodes, Bytes, PerBlock, Splice;
    ghost var c, block, was := 0, 0, img.groups;
    NoneFits(img.g, was, img.g.fpb);
    rc, frag, c, block := AllocateFragsAnyCg(img, preferred, img.g.fpb);
    if rc != Ok {
      return;
    }
    GroupParts(img.g, was[c], c);
    WholeSpent(img.g, was, img.groups, c, block, frag);
    PlacedNonZero(img.g, frag, img.g.fpb);
    BytesFit(img.g, img.disk, frag, img.g.fpb);
    var zero: seq<byte> := seq(img.g.Off(img.g.fpb), _ => 0);
    ghost var disk := img.disk;
    img.WriteExact(frag, img.g.fpb, 0, zero);
    Overwritten(img.g, disk, frag, zero);
    ZeroEntries(zero, PerBlock(img.g));
  }

  /** Writing a whole block leaves nothing of the old one. */
  lemma Overwritten(g: Geometry, d: seq<byte>, f: nat, bs: seq<byte>)
    requires |bs| == |Bytes(g, d, f, g.fpb)|
    ensures Splice(Bytes(g, d, f, g.fpb), 0, bs) == bs
  {
  }

  // ---- storing one data pointer ----

  /** From tree t0 to t1 the writer only added free blocks, took exactly those, and wrote only
      into the tree's own blocks. */
  ghost predicate Grew(g: Geometry, d0: seq<byte>, free0: set<nat>, t0: Tree,
                       d1: seq<byte>, free1: set<nat>, t1: Tree)
  {
    && Separate(g, t1) && Meta(g, t0) <= Meta(g, t1) <= Meta(g, t0) + free0
    && free1 == free0 - Meta(g, t1)
    && OnlyWrote(g, d0, d1, Meta(g, t1))
  }

  /** One position of the tree was set, all others read as before. */
  ghost predicate Stored(g: Geometry, t0: Tree, t1: Tree, level: nat, ok: bool, idx: nat, v: nat) {
    forall j: nat | j < Span(g, level) :: Lookup(g, t1, level, j) == if ok && j == idx then v else Lookup(g, t0, level, j)
  }

  lemma Grafted(g: Geometry, d: seq<byte>, e: seq<byte>, root: nat, level: nat, i: nat, v: nat, s: set<nat>)
    requires root != 0 && level > 1 && i < PerBlock(g) && OnlyWrote(g, d, e, s)
    requires Entries(g, e, root) == Entries(g, d, root)[i := v]
    requires var t, c := TreeOf(g, d, root, level), TreeOf(g, e, v, level - 1);
             && Separate(g, t) && Separate(g, c)
             && (forall j | 0 <= j < PerBlock(g) && j != i :: Meta(g, t.kids[j]) !! s)
             && Meta(g, t.kids[i]) <= Meta(g, c) && (Meta(g, c) - Meta(g, t.kids[i])) !! Meta(g, t)
    ensures var t, c, u := TreeOf(g, d, root, level), TreeOf(g, e, v, level - 1), TreeOf(g, e, root, level);
            u == Node(root, t.kids[i := c]) && Separate(g, u) && Meta(g, u) == Meta(g, t) + Meta(g, c)
  {
    hide Meta, Separate, OnlyWrote, Entries;
    KidReplaced(g, d, e, root, level, i, v, s);
    GraftSeparate(g, root, TreeOf(g, d, root, level).kids, i, TreeOf(g, e, v, level - 1));
  }

  /** Linking a fresh zeroed block under an empty entry. */
  lemma Attached(g: Geometry, d: seq<byte>, e: seq<byte>, free: set<nat>, root: nat, level: nat, i: nat, next: nat)
    requires root != 0 && next != 0 && level > 1 && i < PerBlock(g) && Entries(g, d, root)[i] == 0
    requires Separate(g, TreeOf(g, d, root, level)) && Meta(g, TreeOf(g, d, root, level)) !! free
    requires Placed(g, next, g.fpb) && Run(next, g.fpb) <= free
    requires OnlyWrote(g, d, e, Run(next, g.fpb) + Run(root, g.fpb))
    requires Entries(g, e, root) == Entries(g, d, root)[i := next]
    requires forall k | 0 <= k < PerBlock(g) :: Entries(g, e, next)[k] == 0
    ensures var t, u := TreeOf(g, d, root, level), TreeOf(g, e, root, level);
            && Grew(g, d, free, t, e, free - Run(next, g.fpb), u)
            && Meta(g, u) == Meta(g, t) + Run(next, g.fpb) && |Meta(g, u) - Meta(g, t)| == g.fpb
            && Stored(g, t, u, level, false, 0, 0)
            && u == Node(root, t.kids[i := TreeOf(g, e, next, level - 1)]) && Empty(TreeOf(g, e, next, level - 1))
  {
    hide Superblock.Valid, Run, Placed, PerBlock, Entries, Span, OnlyWrote, Meta, Separate, Stored;
    var r, t, c := Run(next, g.fpb), TreeOf(g, d, root, level), TreeOf(g, e, next, level - 1);
    FreshTree(g, e, next, level - 1);
    RunSize(next, g.fpb);
    HoleApart(g, t, i, free, r);
    Grafted(g, d, e, root, level, i, next, r + Run(root, g.fpb));
    var u := TreeOf(g, e, root, level);
    SetGrown(Meta(g, u), Meta(g, t), r, free);
    OnlyWroteMore(g, d, e, r + Run(root, g.fpb), Meta(g, u));
    HoleStored(g, c, level - 1);
    StoredBelow(g, t, c, level, i, 0, false, 0);
    StoredNothing(g, t, u, level, i * Span(g, level - 1), 0);
  }

  lemma HoleApart(g: Geometry, t: Tree, i: nat, free: set<nat>, r: set<nat>)
    requires t.Node? && i < |t.kids| && t.kids[i] == Hole && Separate(g, t) && Meta(g, t) !! free && r <= free
    ensures forall j | 0 <= j < |t.kids| && j != i :: Meta(g, t.kids[j]) !! r + Run(t.at, g.fpb)
    ensures Meta(g, t.kids[i]) == {} && Run(t.at, g.fpb) <= Meta(g, t)
  {
    hide Superblock.Valid, Run, Placed;
    forall j | 0 <= j < |t.kids| && j != i ensures Meta(g, t.kids[j]) !! r + Run(t.at, g.fpb) {
      assert Meta(g, t.kids[j]) <= Meta(g, t);
    }
  }

  lemma HoleStored(g: Geometry, c: Tree, level: nat)
    requires forall j: nat :: Lookup(g, c, level, j) == 0
    ensures Stored(g, Hole, c, level, false, 0, 0)
  {
  }

  lemma StoredNothing(g: Geometry, t: Tree, u: Tree, level: nat, i: nat, v: nat)
    requires Stored(g, t, u, level, false, i, v)
    ensures Stored(g, t, u, level, false, 0, 0)
  {
    hide Lookup, Span;
  }

  lemma SetGrown(u: set<nat>, t: set<nat>, r: set<nat>, free: set<nat>)
    requires u == t + r && t !! free && r <= free
    ensures u - t == r && t <= u <= t + free && free - r == free - u
  {
  }

  lemma OnlyWroteMore(g: Geometry, d: seq<byte>, e: seq<byte>, s: set<nat>, t: set<nat>)
    requires OnlyWrote(g, d, e, s) && s <= t
    ensures OnlyWrote(g, d, e, t)
  {
  }

  /** A store below subtree i is a store in the whole tree. */
  lemma GrewBelow(g: Geometry, d: seq<byte>, e: seq<byte>, free: set<nat>, free': set<nat>,
                  root: nat, level: nat, i: nat, rem: nat, ok: bool, v: nat)
    requires root != 0 && level > 1 && i < PerBlock(g) && rem < Span(g, level - 1)
    requires var t := TreeOf(g, d, root, level); Separate(g, t) && Meta(g, t) !! free
    requires var next := Entries(g, d, root)[i];
             var c0, c1 := TreeOf(g, d, next, level - 1), TreeOf(g, e, next, level - 1);
             Grew(g, d, free, c0, e, free', c1) && Stored(g, c0, c1, level - 1, ok, rem, v)
    ensures var t, u := TreeOf(g, d, root, level), TreeOf(g, e, root, level);
            && Grew(g, d, free, t, e, free', u)
            && Meta(g, u) - Meta(g, t)
               == Meta(g, TreeOf(g, e, Entries(g, d, root)[i], level - 1)) - Meta(g, TreeOf(g, d, Entries(g, d, root)[i], level - 1))
            && Stored(g, t, u, level, ok, i * Span(g, level - 1) + rem, v)
            && u == Node(root, t.kids[i := TreeOf(g, e, Entries(g, d, root)[i], level - 1)])
  {
    hide Superblock.Valid, Run, PerBlock, Span, OnlyWrote, Entries, Meta, Separate, Stored;
    var next, t := Entries(g, d, root)[i], TreeOf(g, d, root, level);
    var c0, c1 := TreeOf(g, d, next, level - 1), TreeOf(g, e, next, level - 1);
    OthersApart(g, t, i, c1, free);
    SameEntries(g, d, e, root, Meta(g, c1));
    Grafted(g, d, e, root, level, i, next, Meta(g, c1));
    OnlyWroteMore(g, d, e, Meta(g, c1), Meta(g, TreeOf(g, e, root, level)));
    StoredBelow(g, t, c1, level, i, rem, ok, v);
  }

  /** A subtree that only grew into free fragments stays clear of its siblings and its parent. */
  lemma OthersApart(g: Geometry, t: Tree, i: nat, c: Tree, free: set<nat>)
    requires t.Node? && i < |t.kids| && Separate(g, t) && Meta(g, t) !! free
    requires Meta(g, c) <= Meta(g, t.kids[i]) + free
    ensures forall j | 0 <= j < |t.kids| && j != i :: Meta(g, t.kids[j]) !! Meta(g, c)
    ensures Run(t.at, g.fpb) !! Meta(g, c) && Meta(g, t.kids[i]) <= Meta(g, t)
  {
    hide Superblock.Valid, Run, Placed;
    forall j | 0 <= j < |t.kids| && j != i ensures Meta(g, t.kids[j]) !! Meta(g, c) {
      assert Meta(g, t.kids[j]) <= Meta(g, t);
      assert if j < i then Meta(g, t.kids[j]) !! Meta(g, t.kids[i]) else Meta(g, t.kids[i]) !! Meta(g, t.kids[j]);
    }
  }

  lemma SameEntries(g: Geometry, d: seq<byte>, e: seq<byte>, root: nat, s: set<nat>)
    requires OnlyWrote(g, d, e, s) && Run(root, g.fpb) !! s
    ensures Entries(g, e, root) == Entries(g, d, root)
  {
  }

  lemma StoredBelow(g: Geometry, t: Tree, c: Tree, level: nat, i: nat, rem: nat, ok: bool, v: nat)
    requires t.Node? && level > 1 && i < |t.kids| && rem < Span(g, level - 1)
    requires Stored(g, t.kids[i], c, level - 1, ok, rem, v)
    ensures Stored(g, t, Node(t.at, t.kids[i := c]), level, ok, i * Span(g, level - 1) + rem, v)
  {
    hide Superblock.Valid, Span, Lookup;
    var s, u, at := Span(g, level - 1), Node(t.at, t.kids[i := c]), i * Span(g, level - 1) + rem;
    DivModOf(i, rem, s);
    forall j: nat | j < Span(g, level)
      ensures Lookup(g, u, level, j) == if ok && j == at then v else Lookup(g, t, level, j)
    {
      LookupNode(g, t.at, t.kids, level, j);
      LookupNode(g, t.at, t.kids[i := c], level, j);
      AddressInRun(s, j, i, rem, 1);
    }
  }

  /** A lookup goes to the entry the index falls under. */
  lemma LookupNode(g: Geometry, at: nat, kids: seq<Tree>, level: nat, j: nat)
    requires level > 0
    ensures var i, s := j / Span(g, level - 1), Span(g, level - 1);
            Lookup(g, Node(at, kids), level, j) == if i < |kids| then Lookup(g, kids[i], level - 1, j % s) else 0
  {
    hide Superblock.Valid, Span;
  }

  /** The loop that multiplies out the span of one entry. */
  method SpanBelow(g: Geometry, level: nat) returns (span: nat)
    requires level > 0
    ensures span == Span(g, level - 1)
  {
    span := 1;
    for i := 1 to level
      invariant span == Span(g, i - 1)
    {
      span := PerBlock(g) * span;
    }
  }

  lemma IndexInSpan(g: Geometry, level: nat, idx: nat)
    requires level > 0 && idx < Span(g, level)
    ensures var s := Span(g, level - 1);
            idx / s < PerBlock(g) && idx % s < s && idx == idx / s * s + idx % s
  {
    var s := Span(g, level - 1);
    assert idx == idx / s * s + idx % s;
    var q := idx / s;
    assert PerBlock(g) <= q ==> PerBlock(g) * s <= q * s;
  }

  /** The missing-child step: allocate a zeroed block and link it under entry i. */
  method AttachBlock(img: Image, block: nat, level: nat, i: nat, preferred: nat) returns (rc: Rc, next: nat)
    requires img.Valid() && block != 0 && level > 1 && i < PerBlock(img.g)
    requires Entries(img.g, img.disk, block)[i] == 0
    requires Separate(img.g, TreeOf(img.g, img.disk, block, level))
    requires Meta(img.g, TreeOf(img.g, img.disk, block, level)) !! img.Free()
    modifies img`groups, img`csum, img`total, img`disk
    ensures SameInodes(old(img.groups), img.groups)
    ensures img.Valid()
    ensures rc == Ok || rc == NoSpace
    ensures rc != Ok ==> img.groups == old(img.groups) && img.disk == old(img.disk)
    ensures rc == Ok ==> next != 0 && Entries(img.g, img.disk, block)[i] == next
    ensures rc == Ok ==>
      Grew(img.g, old(img.disk), old(img.Free()), old(TreeOf(img.g, img.disk, block, level)),
           img.disk, img.Free(), TreeOf(img.g, img.disk, block, level))
    ensures rc == Ok ==>
      Stored(img.g, old(TreeOf(img.g, img.disk, block, level)), TreeOf(img.g, img.disk, block, level), level, false, 0, 0)
    ensures rc == Ok ==> img.g.fpb == |Meta(img.g, TreeOf(img.g, img.disk, block, level))
                                       - old(Meta(img.g, TreeOf(img.g, img.disk, block, level)))|
    ensures rc == NoSpace <==> Wholes(img.g, old(img.groups)) == 0
    ensures rc == Ok ==> Spent(img.g, old(img.groups), img.groups, 1)
    ensures rc == Ok ==> Opened(img.g, old(TreeOf(img.g, img.disk, block, level)), TreeOf(img.g, img.disk, block, level),
                                level, i, 1)
    ensures old(TreeOf(img.g, img.disk, block, level)).Node?
  {
    hide Superblock.Valid, Placed, PerBlock, Entries, Span, OnlyWrote, Run, FreeSet, CylGroup.Valid,
      TreeOf, Meta, Separate, Grew, Stored, Wholes, Spent, Empty, Opened;
    ghost var d0, f0, t0 := img.disk, img.Free(), TreeOf(img.g, img.disk, block, level);
    RootBlock(img.g, img.disk, block, level);
    TreeIsNode(img.g, img.disk, block, level);
    rc, next := AllocateZeroedFullBlock(img, preferred);
    if rc == Ok {
      ghost var d := img.disk;
      BlockApart(img.g, d0, d, f0, block, level, next);
      rc := WriteIndirectEntry(img, block, i, next);
      EntriesKept(img.g, d, img.disk, block, next);
      OnlyWroteTrans(img.g, d0, d, img.disk, Run(next, img.g.fpb), Run(block, img.g.fpb));
      Attached(img.g, d0, img.disk, f0, block, level, i, next);
      NowOpen(img.g, d0, img.disk, block, level, i, next);
    }
  }

  lemma TreeIsNode(g: Geometry, d: seq<byte>, root: nat, level: nat)
    requires root != 0 && level > 1
    ensures var t := TreeOf(g, d, root, level);
            && t.Node? && t.at == root && |t.kids| == PerBlock(g)
            && forall i: nat | i < PerBlock(g) :: t.kids[i] == TreeOf(g, d, Entries(g, d, root)[i], level - 1)
  {
    hide Superblock.Valid, PerBlock, Entries;
  }

  /** Storing the next pointer of a packed tree keeps it packed. */
  ghost predicate Appended(g: Geometry, t: Tree, u: Tree, level: nat, ok: bool, idx: nat, v: nat) {
    ok && v != 0 && (Packed(g, t, level, idx) || Filled(g, t, level, idx)) ==> Packed(g, u, level, idx + 1)
  }

  lemma AppendedNot(g: Geometry, t: Tree, level: nat, idx: nat, v: nat)
    ensures Appended(g, t, t, level, false, idx, v)
  {
  }

  lemma AppendedLeaf(g: Geometry, d: seq<byte>, e: seq<byte>, block: nat, idx: nat, v: nat)
    requires block != 0 && idx < PerBlock(g) && Entries(g, e, block) == Entries(g, d, block)[idx := v]
    ensures Appended(g, TreeOf(g, d, block, 1), TreeOf(g, e, block, 1), 1, true, idx, v)
    ensures Missing(g, TreeOf(g, d, block, 1), 1, idx) == 0
  {
    hide Superblock.Valid, PerBlock;
  }

  /** t1 is t0 with an empty block for subtree i if that was missing, which cost one block. */
  ghost predicate Opened(g: Geometry, t0: Tree, t1: Tree, level: nat, i: nat, cost: nat) {
    && level > 1 && t0.Node? && t1.Node? && |t0.kids| == |t1.kids| == PerBlock(g) && i < |t0.kids|
    && (if t0.kids[i] == Hole then cost == 1 && Empty(t1.kids[i]) && t1 == Node(t0.at, t0.kids[i := t1.kids[i]])
        else cost == 0 && t1 == t0)
    && (t1.kids[i].Leaf? ==> level == 2 && |t1.kids[i].ptrs| == PerBlock(g))
    && (t1.kids[i].Node? ==> level > 2 && |t1.kids[i].kids| == PerBlock(g))
  }

  lemma AlreadyOpen(g: Geometry, d: seq<byte>, root: nat, level: nat, i: nat)
    requires root != 0 && level > 1 && i < PerBlock(g) && Entries(g, d, root)[i] != 0
    ensures Opened(g, TreeOf(g, d, root, level), TreeOf(g, d, root, level), level, i, 0)
  {
    hide Superblock.Valid, PerBlock, Entries, Empty, TreeOf;
    TreeIsNode(g, d, root, level);
    TreeShape(g, d, Entries(g, d, root)[i], level - 1);
  }

  lemma NowOpen(g: Geometry, d: seq<byte>, e: seq<byte>, root: nat, level: nat, i: nat, next: nat)
    requires root != 0 && level > 1 && i < PerBlock(g) && Entries(g, d, root)[i] == 0
    requires var t, c := TreeOf(g, d, root, level), TreeOf(g, e, next, level - 1);
             t.Node? && i < |t.kids| && Empty(c) && TreeOf(g, e, root, level) == Node(root, t.kids[i := c])
    ensures Opened(g, TreeOf(g, d, root, level), TreeOf(g, e, root, level), level, i, 1)
  {
    hide Superblock.Valid, PerBlock, Entries, Empty, TreeOf;
    TreeIsNode(g, d, root, level);
    TreeShape(g, d, 0, level - 1);
    TreeShape(g, e, next, level - 1);
  }

  lemma HoleAt(g: Geometry, d: seq<byte>, root: nat, level: nat, idx: nat)
    requires root != 0 && level > 1 && idx < Span(g, level)
    requires idx / Span(g, level - 1) < PerBlock(g) && Entries(g, d, root)[idx / Span(g, level - 1)] == 0
    ensures Missing(g, TreeOf(g, d, root, level), level, idx) == level - 1
  {
    hide Superblock.Valid, PerBlock, Entries, Span;
    TreeIsNode(g, d, root, level);
  }

  /** What the blocks on the path cost and do, one level down. */
  lemma AppendedBelow(g: Geometry, t0: Tree, t1: Tree, c: Tree, level: nat, cost: nat, ok: bool, idx: nat, v: nat)
    requires level > 1 && idx < Span(g, level) && Opened(g, t0, t1, level, idx / Span(g, level - 1), cost)
    requires Appended(g, t1.kids[idx / Span(g, level - 1)], c, level - 1, ok, idx % Span(g, level - 1), v)
    ensures var i := idx / Span(g, level - 1);
            && Appended(g, t0, Node(t1.at, t1.kids[i := c]), level, ok, idx, v)
            && Missing(g, t0, level, idx) == Missing(g, t1.kids[i], level - 1, idx % Span(g, level - 1)) + cost
  {
    hide Superblock.Valid, Span, Part, PerBlock, Empty;
    var s := Span(g, level - 1);
    var i, rem := idx / s, idx % s;
    IndexInSpan(g, level, idx);
    if t0.kids[i] == Hole {
      MissingInEmpty(g, t1.kids[i], level - 1, rem);
      EmptyFilled(g, t1.kids[i], level - 1);
    }
    if ok && v != 0 && Filled(g, t0, level, idx) {
      PartAt(g, level, idx);
      KidPacked(g, t0, level, idx, idx);
      HoleHoldsNothing(g, level - 1, rem);
      FilledBelow(g, t0, level, idx, c);
      assert t1.kids[i := c] == t0.kids[i := c];
    }
  }

  /** A store below the subtree on the path, seen from the block above it. */
  lemma Deeper(g: Geometry, d0: seq<byte>, d: seq<byte>, e: seq<byte>, free: set<nat>, free': set<nat>,
               root: nat, level: nat, idx: nat, next: nat, cost: nat, ok: bool, v: nat)
    requires root != 0 && level > 1 && idx < Span(g, level) && idx / Span(g, level - 1) < PerBlock(g)
    requires Entries(g, d, root)[idx / Span(g, level - 1)] == next
    requires var t := TreeOf(g, d, root, level); Separate(g, t) && Meta(g, t) !! free
    requires Opened(g, TreeOf(g, d0, root, level), TreeOf(g, d, root, level), level, idx / Span(g, level - 1), cost)
    requires var c0, c1, rem := TreeOf(g, d, next, level - 1), TreeOf(g, e, next, level - 1), idx % Span(g, level - 1);
             && Grew(g, d, free, c0, e, free', c1) && Stored(g, c0, c1, level - 1, ok, rem, v)
             && Appended(g, c0, c1, level - 1, ok, rem, v)
    ensures var t, u := TreeOf(g, d, root, level), TreeOf(g, e, root, level);
            && Grew(g, d, free, t, e, free', u) && Stored(g, t, u, level, ok, idx, v)
            && Meta(g, u) - Meta(g, t) == Meta(g, TreeOf(g, e, next, level - 1)) - Meta(g, TreeOf(g, d, next, level - 1))
            && Appended(g, TreeOf(g, d0, root, level), u, level, ok, idx, v)
            && Missing(g, TreeOf(g, d0, root, level), level, idx)
               == Missing(g, TreeOf(g, d, next, level - 1), level - 1, idx % Span(g, level - 1)) + cost
  {
    hide Superblock.Valid, PerBlock, Entries, Span, Missing, Appended, Grew, Stored, TreeOf, Meta, Separate, Opened;
    var i, rem := idx / Span(g, level - 1), idx % Span(g, level - 1);
    IndexInSpan(g, level, idx);
    TreeIsNode(g, d, root, level);
    GrewBelow(g, d, e, free, free', root, level, i, rem, ok, v);
    AppendedBelow(g, TreeOf(g, d0, root, level), TreeOf(g, d, root, level), TreeOf(g, e, next, level - 1), level, cost, ok, idx, v);
  }

  lemma HoleHoldsNothing(g: Geometry, level: nat, m: nat)
    ensures Packed(g, Hole, level, m) ==> m == 0
  {
  }

  lemma TreeShape(g: Geometry, d: seq<byte>, root: nat, level: nat)
    requires level > 0
    ensures var t := TreeOf(g, d, root, level);
            && (t.Leaf? ==> level == 1 && |t.ptrs| == PerBlock(g))
            && (t.Node? ==> level > 1 && |t.kids| == PerBlock(g))
            && (t == Hole <==> root == 0)
  {
    hide Superblock.Valid, PerBlock, Entries;
  }

  /** nextufs__set_indirect_data_block: store a data pointer, creating the blocks on its path. */
  method SetIndirectDataBlock(img: Image, block: nat, level: nat, idx: nat, data: nat, preferred: nat)
    returns (rc: Rc, metaFrags: nat)
    requires img.Valid() && block != 0 && 0 < level && idx < Span(img.g, level) && data < 0x1_0000_0000
    requires Separate(img.g, TreeOf(img.g, img.disk, block, level))
    requires Meta(img.g, TreeOf(img.g, img.disk, block, level)) !! img.Free()
    modifies img`groups, img`csum, img`total, img`disk
    ensures SameInodes(old(img.groups), img.groups)
    ensures img.Valid()
    ensures rc == Ok || rc == NoSpace
    ensures Grew(img.g, old(img.disk), old(img.Free()), old(TreeOf(img.g, img.disk, block, level)),
                 img.disk, img.Free(), TreeOf(img.g, img.disk, block, level))
    ensures Stored(img.g, old(TreeOf(img.g, img.disk, block, level)), TreeOf(img.g, img.disk, block, level),
                   level, rc == Ok, idx, data)
    ensures metaFrags == |Meta(img.g, TreeOf(img.g, img.disk, block, level))
                          - old(Meta(img.g, TreeOf(img.g, img.disk, block, level)))|
    ensures Paid(img.g, old(img.groups), img.groups,
                 Missing(img.g, old(TreeOf(img.g, img.disk, block, level)), level, idx), rc == Ok)
    ensures Appended(img.g, old(TreeOf(img.g, img.disk, block, level)), TreeOf(img.g, img.disk, block, level),
                     level, rc == Ok, idx, data)
    decreases level
  {
    hide Superblock.Valid, Placed, PerBlock, Entries, Span, OnlyWrote, Run, FreeSet, CylGroup.Valid,
      TreeOf, Meta, Separate, Grew, Stored, Spent, Appended, Missing, Wholes, Empty, Paid, Opened;
    ghost var d0, f0, t0, g0 := img.disk, img.Free(), TreeOf(img.g, img.disk, block, level), img.groups;
    RootBlock(img.g, img.disk, block, level);
    GrewNothing(img.g, img.disk, img.Free(), t0, level);
    SpentNothing(img.g, g0);
    if level == 1 {
      SpanOne(img.g);
      rc := WriteIndirectEntry(img, block, idx, data);
      LeafStored(img.g, d0, img.disk, img.Free(), block, idx, data);
      AppendedLeaf(img.g, d0, img.disk, block, idx, data);
      PaidNothing(img.g, g0);
      return Ok, 0;
    }
    var span := SpanBelow(img.g, level);
    IndexInSpan(img.g, level, idx);
    var i, next := idx / span, 0;
    rc, next := ReadIndirectEntry(img, block, i);
    metaFrags := 0;
    ghost var cost := if next == 0 then 1 else 0;
    if next == 0 {
      rc, next := AttachBlock(img, block, level, i, preferred);
      if rc != Ok {
        HoleAt(img.g, d0, block, level, idx);
        CannotPay(img.g, g0, g0, level - 1);
        AppendedNot(img.g, t0, level, idx, data);
        return NoSpace, 0;
      }
      metaFrags := img.g.fpb;
    } else {
      AlreadyOpen(img.g, d0, block, level, i);
    }
    ghost var d1, f1, t1, g1 := img.disk, img.Free(), TreeOf(img.g, img.disk, block, level), img.groups;
    GrewParts(img.g, d0, f0, t0, d1, f1, t1);
    SubtreeAt(img.g, d1, f1, block, level, i);
    var more;
    rc, more := SetIndirectDataBlock(img, next, level - 1, idx % span, data, preferred);
    Deeper(img.g, d0, d1, img.disk, f1, img.Free(), block, level, idx, next, cost, rc == Ok, data);
    PaidAfter(img.g, g0, g1, img.groups, cost, Missing(img.g, TreeOf(img.g, d1, next, level - 1), level - 1, idx % span), rc == Ok);
    GrewTwice(img.g, d0, f0, t0, d1, f1, t1, img.disk, img.Free(), TreeOf(img.g, img.disk, block, level),
              level, rc == Ok, idx, data);
    metaFrags := metaFrags + more;
  }

  lemma SpanOne(g: Geometry)
    ensures Span(g, 1) == PerBlock(g)
  {
  }

  lemma RootBlock(g: Geometry, d: seq<byte>, root: nat, level: nat)
    requires root != 0 && Separate(g, TreeOf(g, d, root, level))
    ensures Placed(g, root, g.fpb) && Run(root, g.fpb) <= Meta(g, TreeOf(g, d, root, level))
  {
  }

  lemma GrewNothing(g: Geometry, d: seq<byte>, free: set<nat>, t: Tree, level: nat)
    requires Separate(g, t) && Meta(g, t) !! free
    ensures Grew(g, d, free, t, d, free, t) && Meta(g, t) - Meta(g, t) == {}
    ensures forall i: nat, v: nat :: Stored(g, t, t, level, false, i, v)
  {
  }

  lemma LeafStored(g: Geometry, d: seq<byte>, e: seq<byte>, free: set<nat>, block: nat, idx: nat, v: nat)
    requires block != 0 && idx < PerBlock(g) && OnlyWrote(g, d, e, Run(block, g.fpb))
    requires Entries(g, e, block) == Entries(g, d, block)[idx := v]
    requires Separate(g, TreeOf(g, d, block, 1)) && Meta(g, TreeOf(g, d, block, 1)) !! free
    ensures Grew(g, d, free, TreeOf(g, d, block, 1), e, free, TreeOf(g, e, block, 1))
    ensures Stored(g, TreeOf(g, d, block, 1), TreeOf(g, e, block, 1), 1, true, idx, v)
    ensures Meta(g, TreeOf(g, e, block, 1)) - Meta(g, TreeOf(g, d, block, 1)) == {}
  {
    hide Superblock.Valid, OnlyWrote, Run, Placed, PerBlock;
  }

  /** A fresh block is none of the blocks of the tree. */
  lemma BlockApart(g: Geometry, d0: seq<byte>, d: seq<byte>, free: set<nat>, root: nat, level: nat, next: nat)
    requires root != 0 && OnlyWrote(g, d0, d, Run(next, g.fpb)) && Run(next, g.fpb) <= free
    requires Meta(g, TreeOf(g, d0, root, level)) !! free
    ensures Run(root, g.fpb) !! Run(next, g.fpb) && Entries(g, d, root) == Entries(g, d0, root)
  {
    SameEntries(g, d0, d, root, Run(next, g.fpb));
  }

  lemma EntriesKept(g: Geometry, d: seq<byte>, e: seq<byte>, root: nat, next: nat)
    requires OnlyWrote(g, d, e, Run(root, g.fpb)) && Run(root, g.fpb) !! Run(next, g.fpb)
    ensures Entries(g, e, next) == Entries(g, d, next)
  {
  }

  lemma GrewParts(g: Geometry, d0: seq<byte>, f0: set<nat>, t0: Tree, d1: seq<byte>, f1: set<nat>, t1: Tree)
    requires Grew(g, d0, f0, t0, d1, f1, t1)
    ensures Separate(g, t1) && Meta(g, t1) !! f1
  {
  }

  lemma SubtreeAt(g: Geometry, d: seq<byte>, free: set<nat>, root: nat, level: nat, i: nat)
    requires root != 0 && level > 1 && i < PerBlock(g)
    requires Separate(g, TreeOf(g, d, root, level)) && Meta(g, TreeOf(g, d, root, level)) !! free
    ensures var c := TreeOf(g, d, Entries(g, d, root)[i], level - 1);
            Separate(g, c) && Meta(g, c) !! free && Meta(g, c) <= Meta(g, TreeOf(g, d, root, level))
  {
    hide Superblock.Valid, Run, Placed, PerBlock, Entries;
    var t := TreeOf(g, d, root, level);
    assert t.kids[i] == TreeOf(g, d, Entries(g, d, root)[i], level - 1);
  }

  lemma GrewTwice(g: Geometry, d0: seq<byte>, f0: set<nat>, t0: Tree, d1: seq<byte>, f1: set<nat>, t1: Tree,
                  d2: seq<byte>, f2: set<nat>, t2: Tree, level: nat, ok: bool, idx: nat, v: nat)
    requires Grew(g, d0, f0, t0, d1, f1, t1) && Grew(g, d1, f1, t1, d2, f2, t2)
    requires Stored(g, t0, t1, level, false, 0, 0) && Stored(g, t1, t2, level, ok, idx, v)
    ensures Grew(g, d0, f0, t0, d2, f2, t2) && Stored(g, t0, t2, level, ok, idx, v)
    ensures |Meta(g, t2) - Meta(g, t0)| == |Meta(g, t1) - Meta(g, t0)| + |Meta(g, t2) - Meta(g, t1)|
  {
    hide Superblock.Valid, Meta, Separate, OnlyWrote, Lookup, Span, Stored;
    SetsGrewTwice(Meta(g, t0), Meta(g, t1), Meta(g, t2), f0, f1, f2);
    OnlyWroteMore(g, d0, d1, Meta(g, t1), Meta(g, t2));
    OnlyWroteTwice(g, d0, d1, d2, Meta(g, t2));
    StoredTwice(g, t0, t1, t2, level, ok, idx, v);
  }

  lemma SetsGrewTwice(a: set<nat>, b: set<nat>, c: set<nat>, f0: set<nat>, f1: set<nat>, f2: set<nat>)
    requires a <= b <= a + f0 && f1 == f0 - b && b <= c <= b + f1 && f2 == f1 - c
    ensures a <= c <= a + f0 && f2 == f0 - c
    ensures |c - a| == |b - a| + |c - b|
  {
    assert c - a == (b - a) + (c - b);
  }

  lemma OnlyWroteTwice(g: Geometry, d0: seq<byte>, d1: seq<byte>, d2: seq<byte>, s: set<nat>)
    requires OnlyWrote(g, d0, d1, s) && OnlyWrote(g, d1, d2, s)
    ensures OnlyWrote(g, d0, d2, s)
  {
  }

  lemma StoredTwice(g: Geometry, t0: Tree, t1: Tree, t2: Tree, level: nat, ok: bool, idx: nat, v: nat)
    requires Stored(g, t0, t1, level, false, 0, 0) && Stored(g, t1, t2, level, ok, idx, v)
    ensures Stored(g, t0, t2, level, ok, idx, v)
  {
    hide Lookup, Span;
  }

  // ---- the two resolvers ----

  lemma LookupStep(g: Geometry, d: seq<byte>, root: nat, level: nat, idx: nat)
    requires root != 0 && level > 0 && idx < Span(g, level)
    ensures var s := Span(g, level - 1);
            && idx / s < PerBlock(g)
            && Lookup(g, TreeOf(g, d, root, level), level, idx)
               == if level == 1 then Entries(g, d, root)[idx / s]
                  else Lookup(g, TreeOf(g, d, Entries(g, d, root)[idx / s], level - 1), level - 1, idx % s)
  {
    hide Superblock.Valid, PerBlock, Entries;
    IndexInSpan(g, level, idx);
  }

  /** nextufs__resolve_indirect_data_block: the writer's own resolver reads holes as 0. */
  method ResolveIndirectDataBlock(img: Image, block: nat, level: nat, idx: nat) returns (rc: Rc, data: nat)
    requires img.Valid() && 0 < level && idx < Span(img.g, level)
    requires Separate(img.g, TreeOf(img.g, img.disk, block, level))
    ensures rc == Ok && data == Lookup(img.g, TreeOf(img.g, img.disk, block, level), level, idx)
    decreases level
  {
    hide Superblock.Valid, Superblock.Off, PerBlock, Entries, Span, Meta, Separate, Placed, CylGroup.Valid, SumOf, Lookup;
    if block == 0 {
      NothingThere(img.g, img.disk, level, idx);
      return Ok, 0;
    }
    RootBlock(img.g, img.disk, block, level);
    LookupStep(img.g, img.disk, block, level, idx);
    if level == 1 {
      SpanZero(img.g);
      rc, data := ReadIndirectEntry(img, block, idx);
      return;
    }
    var span := SpanBelow(img.g, level);
    IndexInSpan(img.g, level, idx);
    var next;
    rc, next := ReadIndirectEntry(img, block, idx / span);
    KidSeparate(img.g, img.disk, block, level, idx / span);
    rc, data := ResolveIndirectDataBlock(img, next, level - 1, idx % span);
  }

  lemma NothingThere(g: Geometry, d: seq<byte>, level: nat, idx: nat)
    ensures Lookup(g, TreeOf(g, d, 0, level), level, idx) == 0
  {
  }

  lemma SpanZero(g: Geometry)
    ensures Span(g, 0) == 1
  {
  }

  lemma KidSeparate(g: Geometry, d: seq<byte>, root: nat, level: nat, i: nat)
    requires root != 0 && level > 1 && i < PerBlock(g) && Separate(g, TreeOf(g, d, root, level))
    ensures Separate(g, TreeOf(g, d, Entries(g, d, root)[i], level - 1))
  {
    SubtreeAt(g, d, {}, root, level, i);
  }

  /** resolve_indirect_block_frag in the reader: the same walk, except that it refuses to start
      from a missing root block. */
  method ResolveIndirectBlockFrag(img: Image, block: nat, level: nat, idx: nat) returns (rc: Rc, data: nat)
    requires img.Valid() && idx < Span(img.g, level)
    requires Separate(img.g, TreeOf(img.g, img.disk, block, level))
    ensures rc == if block == 0 || level == 0 then Invalid else Ok
    ensures rc == Ok ==> data == Lookup(img.g, TreeOf(img.g, img.disk, block, level), level, idx)
    decreases level
  {
    hide Superblock.Valid, PerBlock, Entries, Span, Meta, Separate, Placed;
    if block == 0 || level == 0 {
      return Invalid, 0;
    }
    var span := SpanBelow(img.g, level);
    RootBlock(img.g, img.disk, block, level);
    LookupStep(img.g, img.disk, block, level, idx);
    IndexInSpan(img.g, level, idx);
    var next;
    rc, next := ReadIndirectEntry(img, block, idx / span);
    if level == 1 {
      return Ok, next;
    }
    if next == 0 {
      return Ok, 0;
    }
    KidSeparate(img.g, img.disk, block, level, idx / span);
    rc, data := ResolveIndirectBlockFrag(img, next, level - 1, idx % span);
  }

  // ---- tearing a tree down ----

  /** The blocks of the first n subtrees. */
  ghost function MetaOfFirst(g: Geometry, kids: seq<Tree>, n: nat): set<nat>
    requires n <= |kids|
  {
    if n == 0 then {} else MetaOfFirst(g, kids, n - 1) + Meta(g, kids[n - 1])
  }

  lemma {:induction false} MetaOfFirstMembers(g: Geometry, kids: seq<Tree>, n: nat, x: nat)
    requires n <= |kids|
    ensures x in MetaOfFirst(g, kids, n) <==> exists i :: 0 <= i < n && x in Meta(g, kids[i])
  {
    if n > 0 {
      MetaOfFirstMembers(g, kids, n - 1, x);
    }
  }

  lemma MetaIsAll(g: Geometry, t: Tree)
    requires t.Node?
    ensures Meta(g, t) == Run(t.at, g.fpb) + MetaOfFirst(g, t.kids, |t.kids|)
  {
    forall x ensures x in MetaOfFirst(g, t.kids, |t.kids|) <==> exists i :: 0 <= i < |t.kids| && x in Meta(g, t.kids[i]) {
      if x >= 0 {
        MetaOfFirstMembers(g, t.kids, |t.kids|, x);
      }
    }
  }

  /** The next subtree, and the root block, are still in use when the first n are gone. */
  lemma NextStillUsed(g: Geometry, t: Tree, n: nat, free: set<nat>)
    requires t.Node? && n <= |t.kids| && Separate(g, t) && Meta(g, t) !! free
    ensures n < |t.kids| ==> Separate(g, t.kids[n]) && Meta(g, t.kids[n]) !! free + MetaOfFirst(g, t.kids, n)
    ensures Run(t.at, g.fpb) !! free + MetaOfFirst(g, t.kids, n)
  {
    forall x: nat | x in MetaOfFirst(g, t.kids, n)
      ensures x !in Run(t.at, g.fpb) && (n < |t.kids| ==> x !in Meta(g, t.kids[n]))
    {
      MetaOfFirstMembers(g, t.kids, n, x);
    }
    assert n < |t.kids| ==> Meta(g, t.kids[n]) <= Meta(g, t);
  }

  /** nextufs__free_indirect_metadata_tree: every block of the tree goes back, data stays. */
  method FreeIndirectMetadataTree(img: Image, block: nat, level: nat) returns (rc: Rc)
    requires img.Valid() && 0 < level && Separate(img.g, TreeOf(img.g, img.disk, block, level))
    requires Meta(img.g, TreeOf(img.g, img.disk, block, level)) !! img.Free()
    modifies img`groups, img`csum, img`total
    ensures SameInodes(old(img.groups), img.groups)
    ensures img.Valid() && rc == Ok
    ensures img.Free() == old(img.Free()) + Meta(img.g, TreeOf(img.g, img.disk, block, level))
    decreases level
  {
    hide Superblock.Valid, PerBlock, Entries, Placed, Run, FreeSet, CylGroup.Valid, Separate, Meta;
    if block == 0 {
      MetaHole(img.g);
      return Ok;
    }
    ghost var t, f0 := TreeOf(img.g, img.disk, block, level), img.Free();
    RootBlock(img.g, img.disk, block, level);
    if level > 1 {
      for i := 0 to PerBlock(img.g)
        invariant img.Valid() && SameInodes(old(img.groups), img.groups)
        invariant img.Free() == f0 + MetaOfFirst(img.g, t.kids, i)
      {
        var child;
        rc, child := ReadIndirectEntry(img, block, i);
        assert t.kids[i] == TreeOf(img.g, img.disk, child, level - 1);
        NextStillUsed(img.g, t, i, f0);
        if child == 0 {
          MetaHole(img.g);
        } else {
          rc := FreeIndirectMetadataTree(img, child, level - 1);
        }
      }
      NextStillUsed(img.g, t, |t.kids|, f0);
      MetaIsAll(img.g, t);
    } else {
      MetaLeaf(img.g, t);
    }
    rc := FreeFragmentRun(img, block, img.g.fpb);
  }

  lemma MetaHole(g: Geometry)
    ensures Meta(g, Hole) == {}
  {
  }

  lemma MetaLeaf(g: Geometry, t: Tree)
    requires t.Leaf?
    ensures Meta(g, t) == Run(t.at, g.fpb)
  {
  }
}
