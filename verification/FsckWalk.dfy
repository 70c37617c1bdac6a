/** fsck's own walk over the blocks of an inode, and what it finds on the files the writer makes:
    every data and indirect fragment once, as many as the inode's block count says. */
module FsckWalk {
  import opened Geometry
  import opened Image
  import opened Alloc
  import opened Indirect
  import opened FileMap
  import opened Storage
  import opened Mutate
  import opened FsckClaims
  import opened FsckRead

  // ---- the walk ----

  /** Integer division as C does it. */
  function TruncDiv(a: int, b: pos): int {
    if a >= 0 then a / b else -(-a / b)
  }

  /** A product of two ints, wrapped to 32 bits. */
  function Int32(x: int): (y: int)
    ensures -0x8000_0000 <= y < 0x8000_0000 && (-0x8000_0000 <= x < 0x8000_0000 ==> y == x) && (x >= 0 ==> y <= x)
  {
    (x + 0x8000_0000) % 0x1_0000_0000 - 0x8000_0000
  }

  /** Bytes below one pointer of an indirect block of the given level. */
  ghost function SizePb(g: Geometry, level: nat): nat
    requires level > 0
  {
    Start(g, Span(g, level - 1))
  }

  lemma SizePbPositive(g: Geometry, level: nat)
    requires level > 0
    ensures SizePb(g, level) > 0
  {
    hide Superblock.Valid, BlockSize, Span;
    StartMonotone(g, 0, Span(g, level - 1));
  }

  /** Pointers of the block that iblock looks at: the ones the remaining size may reach. */
  function Nif(per: nat, sizepb: pos, isize: int): (n: nat)
    ensures n <= per
  {
    var n := TruncDiv(isize, sizepb) + 1;
    if n < 0 then 0 else if n > per then per else n
  }

  /** The size iblock passes down for its n-th pointer, the product computed in 32 bits. */
  ghost function Rest(g: Geometry, level: nat, isize: int, n: nat): int
    requires level > 0
  {
    isize - Int32(n * SizePb(g, level))
  }

  ghost function NifAt(g: Geometry, level: nat, isize: int): (n: nat)
    requires level > 0
    ensures n <= PerBlock(g)
  {
    SizePbPositive(g, level);
    Nif(PerBlock(g), SizePb(g, level), isize)
  }

  /** How many pointers a block has, and whether one of them is not zero. */
  ghost function Width(t: Tree): nat {
    match t
    case Hole => 0
    case Leaf(_, ptrs) => |ptrs|
    case Node(_, kids) => |kids|
  }

  ghost predicate HasPointer(t: Tree, i: nat) {
    match t
    case Hole => false
    case Leaf(_, ptrs) => i < |ptrs| && ptrs[i] != 0
    case Node(_, kids) => i < |kids| && kids[i] != Hole
  }

  /** The pointers iblock follows: none in a block out of range. */
  ghost function Followed(g: Geometry, t: Tree, level: nat, isize: int): (n: nat)
    ensures n <= Width(t)
  {
    if t == Hole || level == 0 || OutRange(g, t.at, g.fpb) then 0 else Min(Width(t), NifAt(g, level, isize))
  }

  /** The runs iblock visits: the block itself, then what its pointers name. */
  ghost function IWalk(g: Geometry, t: Tree, level: nat, isize: int): seq<Extent>
    decreases level, 1, 0
  {
    if t == Hole then [] else [Extent(t.at, g.fpb)] + Below(g, t, level, isize, Followed(g, t, level, isize))
  }

  ghost function Below(g: Geometry, t: Tree, level: nat, isize: int, n: nat): seq<Extent>
    requires n <= Width(t)
    decreases level, 0, n
  {
    if n == 0 || level == 0 then []
    else Below(g, t, level, isize, n - 1) +
         match t
         case Leaf(_, ptrs) => (if ptrs[n - 1] == 0 then [] else [Extent(ptrs[n - 1], g.fpb)])
         case Node(_, kids) => IWalk(g, kids[n - 1], level - 1, Rest(g, level, isize, n))
  }

  /** A pointer past the ones looked at, here or further down: the message "partially truncated
      inode". */
  ghost predicate Trailing(g: Geometry, t: Tree, level: nat, isize: int)
    decreases level, 1, 0
  {
    && t != Hole && level > 0 && !OutRange(g, t.at, g.fpb)
    && ((exists i: nat :: NifAt(g, level, isize) <= i < Width(t) && HasPointer(t, i))
        || TrailingBelow(g, t, level, isize, Followed(g, t, level, isize)))
  }

  ghost predicate TrailingBelow(g: Geometry, t: Tree, level: nat, isize: int, n: nat)
    requires n <= Width(t)
    decreases level, 0, n
  {
    n > 0 && level > 0
    && (TrailingBelow(g, t, level, isize, n - 1)
        || (t.Node? && Trailing(g, t.kids[n - 1], level - 1, Rest(g, level, isize, n))))
  }

  /** Fragments fsck counts for direct pointer i. */
  function RunLen(g: Geometry, size: nat, i: nat): nat {
    var ndb := (size + BlockSize(g) - 1) / BlockSize(g);
    if i + 1 == ndb && size % BlockSize(g) != 0 then (size % BlockSize(g) + g.fragSize - 1) / g.fragSize else g.fpb
  }

  ghost function DirectWalk(g: Geometry, ino: Inode, k: nat): seq<Extent>
    requires ino.Shaped() && k <= NDADDR
  {
    if k == 0 then []
    else DirectWalk(g, ino, k - 1) + if ino.db[k - 1] == 0 then [] else [Extent(ino.db[k - 1], RunLen(g, ino.size, k - 1))]
  }

  ghost function SlotsWalk(g: Geometry, d: seq<byte>, ino: Inode, k: nat): seq<Extent>
    requires ino.Shaped() && k <= NIADDR
  {
    if k == 0 then []
    else SlotsWalk(g, d, ino, k - 1) + IWalk(g, SlotTree(g, d, ino, k - 1), k, ino.size - Start(g, NDADDR))
  }

  /** The runs ckinode visits, in order. */
  ghost function CkWalk(g: Geometry, d: seq<byte>, ino: Inode): seq<Extent>
    requires ino.Shaped()
  {
    if ino.kind == Special then [] else DirectWalk(g, ino, NDADDR) + SlotsWalk(g, d, ino, NIADDR)
  }

  /** What id_entryno counts: the fragments of every run visited. */
  ghost function FragsVisited(xs: seq<Extent>): nat {
    if xs == [] then 0 else FragsVisited(xs[..|xs| - 1]) + xs[|xs| - 1].n
  }

  // ---- the walk as code ----

  /** One pointer of the indirect block at blk. */
  method PointerAt(g: Geometry, d: seq<byte>, blk: nat, i: nat) returns (v: nat)
    requires |d| == g.Off(g.fragCount) && blk + g.fpb <= g.fragCount && i < PerBlock(g)
    ensures v == Entries(g, d, blk)[i]
  {
    hide Superblock.Valid, Superblock.Off;
    BytesFit(g, d, blk, g.fpb);
    v := ReadBe32(Bytes(g, d, blk, g.fpb)[4 * i..4 * i + 4]);
  }

  /** Pointers of a block that the remaining size may reach. */
  method CountPointers(g: Geometry, level: nat, isize: int) returns (sizepb: nat, nif: nat)
    requires level > 0
    ensures sizepb == SizePb(g, level) && nif == NifAt(g, level, isize)
  {
    hide Superblock.Valid, PerBlock, BlockSize;
    var span := SpanBelow(g, level);
    SizePbPositive(g, level);
    sizepb := Start(g, span);
    nif := Nif(PerBlock(g), sizepb, isize);
  }

  /** The tree at a block as its pointers show it. */
  lemma BlockIs(g: Geometry, d: seq<byte>, blk: nat, level: nat)
    requires blk != 0 && level > 0
    ensures var t := TreeOf(g, d, blk, level);
            && t != Hole && t.at == blk && Width(t) == PerBlock(g) && (t.Leaf? <==> level == 1)
            && forall i: nat | i < PerBlock(g) ::
                 && (HasPointer(t, i) <==> Entries(g, d, blk)[i] != 0)
                 && (t.Leaf? ==> t.ptrs[i] == Entries(g, d, blk)[i])
                 && (t.Node? ==> t.kids[i] == TreeOf(g, d, Entries(g, d, blk)[i], level - 1))
  {
    hide Superblock.Valid, PerBlock, Entries;
    if level > 1 {
      TreeIsNode(g, d, blk, level);
    }
  }

  /** One more pointer followed. */
  lemma BelowNext(g: Geometry, d: seq<byte>, blk: nat, level: nat, isize: int, i: nat)
    requires blk != 0 && level > 0 && i < PerBlock(g)
    ensures var t, v := TreeOf(g, d, blk, level), Entries(g, d, blk)[i];
            && Width(t) == PerBlock(g)
            && Below(g, t, level, isize, i + 1) == Below(g, t, level, isize, i)
               + (if v == 0 then [] else if level == 1 then [Extent(v, g.fpb)]
                  else IWalk(g, TreeOf(g, d, v, level - 1), level - 1, Rest(g, level, isize, i + 1)))
            && (TrailingBelow(g, t, level, isize, i + 1)
                <==> (TrailingBelow(g, t, level, isize, i)
                      || (v != 0 && level > 1 && Trailing(g, TreeOf(g, d, v, level - 1), level - 1, Rest(g, level, isize, i + 1)))))
  {
    hide Superblock.Valid, OutRange, PerBlock, Entries, Span, NifAt, SizePb, TreeOf, HasPointer;
    BlockIs(g, d, blk, level);
    NoBlock(g, d, level - 1);
  }

  /** The check that nothing lies past the pointers that count. */
  method PastEnd(g: Geometry, d: seq<byte>, blk: nat, ghost level: nat, nif: nat) returns (found: bool)
    requires |d| == g.Off(g.fragCount) && blk != 0 && level > 0 && blk + g.fpb <= g.fragCount && nif <= PerBlock(g)
    ensures var t := TreeOf(g, d, blk, level);
            found <==> exists i: nat :: nif <= i < Width(t) && HasPointer(t, i)
  {
    hide Superblock.Valid, PerBlock, Entries, TreeOf, HasPointer;
    BlockIs(g, d, blk, level);
    found := false;
    for i := nif to PerBlock(g)
      invariant found <==> exists k: nat :: nif <= k < i && HasPointer(TreeOf(g, d, blk, level), k)
    {
      var v := PointerAt(g, d, blk, i);
      found := found || v != 0;
    }
  }

  /** iblock, with a function that always answers "keep on". */
  method IBlock(g: Geometry, d: seq<byte>, blk: nat, level: nat, isize: int) returns (walk: seq<Extent>, trailing: bool)
    requires |d| == g.Off(g.fragCount) && blk != 0 && level > 0
    ensures walk == IWalk(g, TreeOf(g, d, blk, level), level, isize)
    ensures trailing <==> Trailing(g, TreeOf(g, d, blk, level), level, isize)
    decreases level
  {
    hide Superblock.Valid, OutRange, PerBlock, Entries, Span, NifAt, SizePb, TreeOf, HasPointer, Below, TrailingBelow;
    ghost var t := TreeOf(g, d, blk, level);
    BlockIs(g, d, blk, level);
    walk, trailing := [Extent(blk, g.fpb)], false;
    var out := OutRange(g, blk, g.fpb);
    NothingBelow(g, t, level, isize);
    if out {
      return;
    }
    EndsOnDisk(g, blk, g.fpb);
    var sizepb, nif := CountPointers(g, level, isize);
    trailing := PastEnd(g, d, blk, level, nif);
    ghost var past := trailing;
    for i := 0 to nif
      invariant walk == [Extent(blk, g.fpb)] + Below(g, t, level, isize, i)
      invariant trailing <==> past || TrailingBelow(g, t, level, isize, i)
    {
      BelowNext(g, d, blk, level, isize, i);
      var v := PointerAt(g, d, blk, i);
      var more, tail := [], false;
      if v != 0 {
        if level > 1 {
          more, tail := IBlock(g, d, v, level - 1, isize - Int32((i + 1) * sizepb));
        } else {
          more := [Extent(v, g.fpb)];
        }
      }
      walk, trailing := walk + more, trailing || tail;
    }
  }

  lemma NothingBelow(g: Geometry, t: Tree, level: nat, isize: int)
    ensures Below(g, t, level, isize, 0) == [] && !TrailingBelow(g, t, level, isize, 0)
  {
  }

  lemma NoBlock(g: Geometry, d: seq<byte>, level: nat)
    ensures TreeOf(g, d, 0, level) == Hole
  {
  }

  /** ckinode, with a function that always answers "keep on". */
  method CkInode(g: Geometry, d: seq<byte>, ino: Inode) returns (walk: seq<Extent>, trailing: bool)
    requires |d| == g.Off(g.fragCount) && ino.Shaped()
    ensures walk == CkWalk(g, d, ino)
    ensures trailing <==> ino.kind != Special && exists s: nat ::
              s < NIADDR && Trailing(g, SlotTree(g, d, ino, s), s + 1, ino.size - Start(g, NDADDR))
  {
    hide Superblock.Valid, IWalk, Trailing, BlockSize, Start, TreeOf;
    walk, trailing := [], false;
    if ino.kind == Special {
      return;
    }
    var ndb: int := (ino.size + BlockSize(g) - 1) / BlockSize(g);
    var ndb0 := ndb;
    for i := 0 to NDADDR
      invariant ndb == ndb0 - i && walk == DirectWalk(g, ino, i)
    {
      ndb := ndb - 1;
      var offset := ino.size % BlockSize(g);
      var frags := if ndb == 0 && offset != 0 then (offset + g.fragSize - 1) / g.fragSize else g.fpb;
      if ino.db[i] != 0 {
        walk := walk + [Extent(ino.db[i], frags)];
      }
    }
    ghost var direct := walk;
    for n := 0 to NIADDR
      invariant walk == direct + SlotsWalk(g, d, ino, n)
      invariant trailing <==> exists s: nat :: s < n && Trailing(g, SlotTree(g, d, ino, s), s + 1, ino.size - Start(g, NDADDR))
    {
      var more, tail := [], false;
      if ino.ib[n] != 0 {
        more, tail := IBlock(g, d, ino.ib[n], n + 1, ino.size - Start(g, NDADDR));
      } else {
        NoBlock(g, d, n + 1);
        NoBlockWalk(g, n + 1, ino.size - Start(g, NDADDR));
      }
      walk, trailing := walk + more, trailing || tail;
    }
  }

  lemma NoBlockWalk(g: Geometry, level: nat, isize: int)
    ensures IWalk(g, Hole, level, isize) == [] && !Trailing(g, Hole, level, isize)
  {
  }

  // ---- what the walk covers ----

  /** The data fragments a tree points at: of its first n pointers, and of all. */
  ghost function DataBelow(g: Geometry, t: Tree, n: nat): set<nat>
    requires n <= Width(t)
    decreases t, 0, n
  {
    if n == 0 then {}
    else DataBelow(g, t, n - 1) +
         match t
         case Leaf(_, ptrs) => (if ptrs[n - 1] == 0 then {} else Run(ptrs[n - 1], g.fpb))
         case Node(_, kids) => TreeData(g, kids[n - 1])
  }

  ghost function TreeData(g: Geometry, t: Tree): set<nat>
    decreases t, 1, 0
  {
    DataBelow(g, t, Width(t))
  }

  /** Every data pointer of the tree names a placed block. */
  ghost predicate DataOk(g: Geometry, t: Tree) {
    match t
    case Hole => true
    case Leaf(_, ptrs) => forall i | 0 <= i < |ptrs| && ptrs[i] != 0 :: Placed(g, ptrs[i], g.fpb)
    case Node(_, kids) => forall i | 0 <= i < |kids| :: DataOk(g, kids[i])
  }

  ghost function MetaBelow(g: Geometry, t: Tree, n: nat): set<nat>
    requires n <= Width(t)
  {
    if t.Node? then MetaOfFirst(g, t.kids, n) else {}
  }

  function Frags(g: Geometry, blocks: nat): nat {
    blocks * g.fpb
  }

  lemma FragsAdd(g: Geometry, a: nat, b: nat)
    ensures Frags(g, a + b) == Frags(g, a) + Frags(g, b)
    ensures Frags(g, 0) == 0 && Frags(g, 1) == g.fpb
  {
  }

  /** Of the first m pointers, how many lie below the first n entries. */
  ghost function PartsUpto(g: Geometry, level: nat, m: nat, n: nat): nat
    requires level > 0
  {
    if n == 0 then 0 else PartsUpto(g, level, m, n - 1) + Part(g, level, m, n - 1)
  }

  lemma PartsUptoIs(g: Geometry, level: nat, m: nat, n: nat)
    requires level > 0
    ensures PartsUpto(g, level, m, n) == if m <= n * Span(g, level - 1) then m else n * Span(g, level - 1)
  {
    hide Superblock.Valid, Span;
    var s := Span(g, level - 1);
    if n > 0 {
      PartsUptoIs(g, level, m, n - 1);
      assert n * s == (n - 1) * s + s;
    }
  }

  ghost predicate AllPlaced(g: Geometry, xs: seq<Extent>) {
    forall k | 0 <= k < |xs| :: xs[k].at != 0 && Placed(g, xs[k].at, xs[k].n)
  }

  lemma {:induction false} CoversConcat(a: seq<Extent>, b: seq<Extent>)
    ensures Covers(a + b) == Covers(a) + Covers(b)
    ensures FragsVisited(a + b) == FragsVisited(a) + FragsVisited(b)
  {
    if b == [] {
      assert a + b == a;
    } else {
      assert (a + b)[..|a + b| - 1] == a + b[..|b| - 1];
      CoversConcat(a, b[..|b| - 1]);
    }
  }

  lemma OneRun(g: Geometry, x: Extent)
    ensures Covers([x]) == ExtentRun(x) && FragsVisited([x]) == x.n
  {
    assert [x][..0] == [];
  }

  lemma PlacedConcat(g: Geometry, a: seq<Extent>, b: seq<Extent>)
    requires AllPlaced(g, a) && AllPlaced(g, b)
    ensures AllPlaced(g, a + b)
  {
    hide Placed;
  }

  /** A run the allocator may hand out is in range for fsck. */
  lemma PlacedInRange(g: Geometry, f: nat, n: nat)
    requires Placed(g, f, n) && g.sbOff < g.dataOff
    ensures f != 0 && !OutRange(g, f, n)
  {
    hide Superblock.Valid, Superblock.FragNum, Superblock.CgStart;
    var c := g.GroupOf(f);
    PlacedNonZero(g, f, n);
    PlacedParts(g, f, n);
    BaseNext(g, c);
    GroupFragsBounds(g, c);
    assert c > 0 ==> g.Reserved(c, g.Lower(c));
    assert !g.Reserved(c, g.LocalOf(f));
  }

  // ---- how far the remaining size reaches ----

  /** The remaining size, as ckinode passes it down, still covers the first m pointers of a tree
      of that level. */
  ghost predicate Reaches(g: Geometry, level: nat, isize: int, m: nat)
    requires level > 0 && m > 0
  {
    FirstMonotone(g, 0, level - 1);
    isize > Start(g, m - 1) + Start(g, First(g, level - 1) - NDADDR)
  }

  lemma StartSum(g: Geometry, a: nat, b: nat)
    ensures Start(g, a + b) == Start(g, a) + Start(g, b)
    ensures a <= b ==> Start(g, b - a) == Start(g, b) - Start(g, a)
  {
    hide Superblock.Valid, BlockSize;
    SumTimes(a, b, BlockSize(g));
    if a <= b { SumTimes(a, b - a, BlockSize(g)); }
  }

  lemma SumTimes(a: nat, b: nat, m: nat)
    ensures (a + b) * m == a * m + b * m
  {
  }

  lemma StartTimes(g: Geometry, c: nat, s: nat)
    ensures Start(g, c * s) == c * Start(g, s)
  {
    hide Superblock.Valid, BlockSize;
    Reassociate(c, s, BlockSize(g));
  }

  lemma Reassociate(a: nat, b: nat, c: nat)
    ensures (a * b) * c == a * (b * c)
  {
  }

  lemma QuotientAtLeast(x: nat, c: nat, m: nat)
    requires m > 0 && x >= c * m
    ensures x / m >= c
  {
    var q := x / m;
    assert x == q * m + x % m;
    assert q < c ==> (q + 1) * m <= c * m;
  }

  /** An entry with something below it is looked at, and its own share of the size reaches far
      enough. */
  lemma ReachesKid(g: Geometry, level: nat, isize: int, m: nat, c: nat)
    requires level > 0 && m > 0 && Reaches(g, level, isize, m) && c < PerBlock(g) && Part(g, level, m, c) > 0
    ensures c < NifAt(g, level, isize)
    ensures level > 1 ==> Reaches(g, level - 1, Rest(g, level, isize, c + 1), Part(g, level, m, c))
  {
    hide Superblock.Valid, BlockSize, Span, Start, PerBlock;
    var s, p := Span(g, level - 1), Part(g, level, m, c);
    SizePbPositive(g, level);
    StartTimes(g, c, s);
    StartMonotone(g, c * s, m - 1);
    StartMonotone(g, 0, 0);
    QuotientAtLeast(isize, c, SizePb(g, level));
    if level > 1 {
      FirstMonotone(g, 0, level - 2);
      StartSum(g, First(g, level - 2) - NDADDR, s);
      assert First(g, level - 1) - NDADDR == First(g, level - 2) - NDADDR + s;
      StartSum(g, c * s, m - 1);
      StartMonotone(g, p - 1, m - 1 - c * s);
      SumTimes(c, 1, SizePb(g, level));
    }
  }

  // ---- a tree of the writer's ----

  /** What the lemmas below ask of a tree: its first m pointers, no two blocks overlapping, all in
      the data area, and a size that reaches them. */
  ghost predicate Visited(g: Geometry, t: Tree, level: nat, m: nat, isize: int) {
    && level > 0 && 0 < m <= Span(g, level) && g.sbOff < g.dataOff && Filled(g, t, level, m) && Separate(g, t) && DataOk(g, t)
    && Reaches(g, level, isize, m)
  }

  lemma KidVisited(g: Geometry, t: Tree, level: nat, m: nat, isize: int, c: nat)
    requires Visited(g, t, level, m, isize) && t.Node? && c < Width(t)
    ensures level > 1 && c < PerBlock(g)
    ensures var p := Part(g, level, m, c);
            if p == 0 then t.kids[c] == Hole
            else Visited(g, t.kids[c], level - 1, p, Rest(g, level, isize, c + 1))
  {
    hide Superblock.Valid, Span, PerBlock, NifAt, SizePb, Reaches, Placed;
    if Part(g, level, m, c) > 0 {
      ReachesKid(g, level, isize, m, c);
    }
  }

  /** The first n entries of a block of pointers to data. */
  lemma {:induction false} LeafCovers(g: Geometry, t: Tree, m: nat, isize: int, n: nat)
    requires Visited(g, t, 1, m, isize) && t.Leaf? && n <= Width(t)
    ensures Covers(Below(g, t, 1, isize, n)) == DataBelow(g, t, n)
    ensures FragsVisited(Below(g, t, 1, isize, n)) == Frags(g, if n <= m then n else m)
    ensures AllPlaced(g, Below(g, t, 1, isize, n)) && !TrailingBelow(g, t, 1, isize, n)
  {
    hide Superblock.Valid, Span, PerBlock, NifAt, SizePb, Reaches, Placed, Frags;
    FragsAdd(g, 0, 0);
    if n > 0 {
      LeafCovers(g, t, m, isize, n - 1);
      var x := Extent(t.ptrs[n - 1], g.fpb);
      if t.ptrs[n - 1] != 0 {
        CoversConcat(Below(g, t, 1, isize, n - 1), [x]);
        OneRun(g, x);
        FragsAdd(g, n - 1, 1);
        PlacedConcat(g, Below(g, t, 1, isize, n - 1), [x]);
      } else {
        CoversConcat(Below(g, t, 1, isize, n - 1), []);
      }
    }
  }

  /** What one more entry adds. */
  lemma BelowStep(g: Geometry, t: Tree, level: nat, isize: int, n: nat)
    requires t.Node? && level > 0 && 0 < n <= Width(t)
    ensures var kid, rest := t.kids[n - 1], Rest(g, level, isize, n);
            && Below(g, t, level, isize, n) == Below(g, t, level, isize, n - 1) + IWalk(g, kid, level - 1, rest)
            && DataBelow(g, t, n) == DataBelow(g, t, n - 1) + TreeData(g, kid)
            && (TrailingBelow(g, t, level, isize, n)
                <==> (TrailingBelow(g, t, level, isize, n - 1) || Trailing(g, kid, level - 1, rest)))
  {
    hide Superblock.Valid, IWalk, SizePb, TreeData, Trailing;
  }

  lemma PartsStep(g: Geometry, level: nat, m: nat, n: nat)
    requires level > 0 && n > 0
    ensures Frags(g, PartsUpto(g, level, m, n)) == Frags(g, PartsUpto(g, level, m, n - 1)) + Frags(g, Part(g, level, m, n - 1))
  {
    hide Superblock.Valid, Part, Frags;
    FragsAdd(g, PartsUpto(g, level, m, n - 1), Part(g, level, m, n - 1));
  }

  /** One entry's walk. */
  lemma {:induction false} KidCovers(g: Geometry, t: Tree, level: nat, m: nat, isize: int, c: nat)
    requires Visited(g, t, level, m, isize) && t.Node? && c < Width(t)
    ensures level > 1
    ensures var kid, walk := t.kids[c], IWalk(g, t.kids[c], level - 1, Rest(g, level, isize, c + 1));
            && Covers(walk) == Meta(g, kid) + TreeData(g, kid)
            && FragsVisited(walk) == |Meta(g, kid)| + Frags(g, Part(g, level, m, c))
            && AllPlaced(g, walk) && !Trailing(g, kid, level - 1, Rest(g, level, isize, c + 1))
    decreases level, 0, 0
  {
    hide Superblock.Valid, Span, PerBlock, SizePb, Frags, IWalk, Trailing, Meta, Part, TreeData, Visited;
    KidVisited(g, t, level, m, isize, c);
    var rest := Rest(g, level, isize, c + 1);
    if Part(g, level, m, c) == 0 {
      NoBlockWalk(g, level - 1, rest);
      NothingInHole(g);
      FragsAdd(g, 0, 0);
    } else {
      TreeCovers(g, t.kids[c], level - 1, Part(g, level, m, c), rest);
    }
  }

  lemma NoneCovers(g: Geometry, t: Tree, level: nat, m: nat, isize: int)
    requires t.Node? && level > 0
    ensures Below(g, t, level, isize, 0) == [] && DataBelow(g, t, 0) == {} && MetaOfFirst(g, t.kids, 0) == {}
    ensures Covers([]) == {} && FragsVisited([]) == 0 && Frags(g, PartsUpto(g, level, m, 0)) == 0
    ensures AllPlaced(g, []) && !TrailingBelow(g, t, level, isize, 0)
  {
    hide Superblock.Valid;
    FragsAdd(g, 0, 0);
  }

  /** The first n entries of a block of pointers to further blocks. */
  lemma {:induction false} NodeCovers(g: Geometry, t: Tree, level: nat, m: nat, isize: int, n: nat)
    requires Visited(g, t, level, m, isize) && t.Node? && n <= Width(t)
    ensures Covers(Below(g, t, level, isize, n)) == MetaOfFirst(g, t.kids, n) + DataBelow(g, t, n)
    ensures FragsVisited(Below(g, t, level, isize, n)) == |MetaOfFirst(g, t.kids, n)| + Frags(g, PartsUpto(g, level, m, n))
    ensures AllPlaced(g, Below(g, t, level, isize, n)) && !TrailingBelow(g, t, level, isize, n)
    decreases level, 1, n
  {
    hide Superblock.Valid, Span, PerBlock, SizePb, Frags, IWalk, Trailing, Meta, Part, TreeData, Visited, AllPlaced,
      Below, TrailingBelow, DataBelow, MetaOfFirst, PartsUpto, Covers, FragsVisited;
    VisitedParts(g, t, level, m, isize);
    if n == 0 {
      NoneCovers(g, t, level, m, isize);
    } else {
      NodeCovers(g, t, level, m, isize, n - 1);
      KidCovers(g, t, level, m, isize, n - 1);
      BelowStep(g, t, level, isize, n);
      PartsStep(g, level, m, n);
      var walk := IWalk(g, t.kids[n - 1], level - 1, Rest(g, level, isize, n));
      CoversConcat(Below(g, t, level, isize, n - 1), walk);
      PlacedConcat(g, Below(g, t, level, isize, n - 1), walk);
      NextMetaApart(g, t, n - 1);
    }
  }

  lemma VisitedParts(g: Geometry, t: Tree, level: nat, m: nat, isize: int)
    requires Visited(g, t, level, m, isize)
    ensures level > 0 && m > 0 && Separate(g, t) && m <= Span(g, level) && g.sbOff < g.dataOff
  {
    hide Separate, Filled, DataOk, Reaches, Span;
  }

  lemma NothingInHole(g: Geometry)
    ensures TreeData(g, Hole) == {} && Meta(g, Hole) == {} && AllPlaced(g, []) && Covers([]) == {} && FragsVisited([]) == 0
  {
  }

  lemma PartsAtHole(g: Geometry, t: Tree, level: nat, m: nat, isize: int, c: nat)
    requires Visited(g, t, level, m, isize) && t.Node? && c < Width(t) && t.kids[c] == Hole
    ensures Part(g, level, m, c) == 0
  {
    hide Visited, Part;
    KidVisited(g, t, level, m, isize, c);
    VisitedNotHole(g, level - 1, Part(g, level, m, c), Rest(g, level, isize, c + 1));
  }

  lemma VisitedNotHole(g: Geometry, level: nat, m: nat, isize: int)
    ensures !Visited(g, Hole, level, m, isize)
  {
  }

  lemma NextMetaApart(g: Geometry, t: Tree, c: nat)
    requires t.Node? && Separate(g, t) && c < |t.kids|
    ensures MetaOfFirst(g, t.kids, c + 1) == MetaOfFirst(g, t.kids, c) + Meta(g, t.kids[c])
    ensures |MetaOfFirst(g, t.kids, c + 1)| == |MetaOfFirst(g, t.kids, c)| + |Meta(g, t.kids[c])|
  {
    NextStillUsed(g, t, c, {});
  }

  /** Entries past the ones followed have nothing below them. */
  lemma {:induction false} RestEmpty(g: Geometry, t: Tree, level: nat, m: nat, isize: int, n: nat)
    requires Visited(g, t, level, m, isize) && NifAt(g, level, isize) <= n <= Width(t)
    ensures MetaBelow(g, t, Width(t)) == MetaBelow(g, t, n) && DataBelow(g, t, Width(t)) == DataBelow(g, t, n)
    ensures forall i: nat :: n <= i < Width(t) ==> !HasPointer(t, i)
    decreases Width(t) - n
  {
    hide Superblock.Valid, Span, PerBlock, NifAt, SizePb, Reaches, Placed, Separate, DataOk;
    if n < Width(t) {
      RestEmpty(g, t, level, m, isize, n + 1);
      EntryEmpty(g, t, level, m, isize, n);
      NothingInHole(g);
    }
  }

  lemma EntryEmpty(g: Geometry, t: Tree, level: nat, m: nat, isize: int, c: nat)
    requires Visited(g, t, level, m, isize) && NifAt(g, level, isize) <= c < Width(t)
    ensures !HasPointer(t, c)
  {
    hide Superblock.Valid, Span, NifAt, SizePb, Reaches, Placed, Separate, DataOk;
    if Part(g, level, m, c) > 0 {
      ReachesKid(g, level, isize, m, c);
    }
    SpanIsOne(g);
  }

  lemma SpanIsOne(g: Geometry)
    ensures forall m: nat, c: nat :: Part(g, 1, m, c) == if m <= c then 0 else 1
  {
  }

  /** What the entries of a block lead to. */
  lemma {:induction false} BlockCovers(g: Geometry, t: Tree, level: nat, m: nat, isize: int, n: nat)
    requires Visited(g, t, level, m, isize) && n == Min(Width(t), NifAt(g, level, isize))
    ensures n <= Width(t)
    ensures Run(t.at, g.fpb) + Covers(Below(g, t, level, isize, n)) == Meta(g, t) + TreeData(g, t)
    ensures g.fpb + FragsVisited(Below(g, t, level, isize, n)) == |Meta(g, t)| + Frags(g, m)
    ensures AllPlaced(g, Below(g, t, level, isize, n)) && !TrailingBelow(g, t, level, isize, n)
    ensures forall i: nat :: NifAt(g, level, isize) <= i < Width(t) ==> !HasPointer(t, i)
    decreases level, 2, 0
  {
    hide Superblock.Valid, Span, PerBlock, NifAt, SizePb, Frags, HasPointer, Below, Meta, Visited, DataBelow, TrailingBelow, Run,
      AllPlaced, Covers, FragsVisited, MetaOfFirst, PartsUpto, Placed;
    RootPlaced(g, t, level, m, isize);
    RunSize(t.at, g.fpb);
    if n < Width(t) {
      RestEmpty(g, t, level, m, isize, n);
    }
    if t.Leaf? {
      LeafCovers(g, t, m, isize, n);
      LeafFull(g, t, m, isize, n);
      MetaLeaf(g, t);
    } else {
      NodeCovers(g, t, level, m, isize, n);
      NodeFull(g, t, level, m, isize, n);
      MetaIsAll(g, t);
      VisitedParts(g, t, level, m, isize);
      NextStillUsed(g, t, |t.kids|, {});
    }
  }

  /** The walk over one tree covers its blocks and its data, each fragment counted once. */
  lemma {:induction false} TreeCovers(g: Geometry, t: Tree, level: nat, m: nat, isize: int)
    requires Visited(g, t, level, m, isize)
    ensures Covers(IWalk(g, t, level, isize)) == Meta(g, t) + TreeData(g, t)
    ensures FragsVisited(IWalk(g, t, level, isize)) == |Meta(g, t)| + Frags(g, m)
    ensures AllPlaced(g, IWalk(g, t, level, isize)) && !Trailing(g, t, level, isize)
    decreases level, 3, 0
  {
    hide Superblock.Valid, Span, PerBlock, NifAt, SizePb, Placed, Frags, Visited, HasPointer, Below, Meta, OutRange, TreeData, TrailingBelow,
      Run, Covers, FragsVisited;
    RootPlaced(g, t, level, m, isize);
    var own := Extent(t.at, g.fpb);
    VisitedParts(g, t, level, m, isize);
    PlacedInRange(g, t.at, g.fpb);
    var n := Min(Width(t), NifAt(g, level, isize));
    BlockCovers(g, t, level, m, isize, n);
    assert Followed(g, t, level, isize) == n;
    OneRun(g, own);
    CoversConcat([own], Below(g, t, level, isize, n));
    PlacedConcat(g, [own], Below(g, t, level, isize, n));
  }

  lemma RootPlaced(g: Geometry, t: Tree, level: nat, m: nat, isize: int)
    requires Visited(g, t, level, m, isize)
    ensures t != Hole && Placed(g, t.at, g.fpb) && (t.Leaf? <==> level == 1) && Width(t) == PerBlock(g)
  {
    hide Superblock.Valid, Span, Reaches, Placed, DataOk;
  }

  lemma LeafFull(g: Geometry, t: Tree, m: nat, isize: int, n: nat)
    requires Visited(g, t, 1, m, isize) && t.Leaf? && n <= Width(t)
    requires n < Width(t) ==> forall i: nat :: n <= i < Width(t) ==> !HasPointer(t, i)
    ensures m <= n
  {
    hide Superblock.Valid, Reaches, Placed;
    SpanOne(g);
    assert n < Width(t) && n < m ==> HasPointer(t, n);
  }

  lemma NodeFull(g: Geometry, t: Tree, level: nat, m: nat, isize: int, n: nat)
    requires Visited(g, t, level, m, isize) && t.Node? && n <= Width(t)
    requires n < Width(t) ==> forall i: nat :: n <= i < Width(t) ==> !HasPointer(t, i)
    ensures PartsUpto(g, level, m, n) == m
  {
    hide Superblock.Valid, Reaches, Placed, Span;
    PartsUptoIs(g, level, m, n);
    RootPlaced(g, t, level, m, isize);
    SpanIs(g, level);
    if n < Width(t) {
      assert !HasPointer(t, n);
      PartsAtHole(g, t, level, m, isize, n);
    }
  }

  lemma SpanIs(g: Geometry, level: nat)
    requires level > 0
    ensures Span(g, level) == PerBlock(g) * Span(g, level - 1)
  {
  }

  // ---- a whole file ----

  /** Position idx of the tree names a data block that holds f. */
  ghost predicate HitAt(g: Geometry, t: Tree, level: nat, idx: nat, f: nat) {
    idx < Span(g, level) && Lookup(g, t, level, idx) != 0 && f in Run(Lookup(g, t, level, idx), g.fpb)
  }

  ghost predicate InEntry(g: Geometry, t: Tree, i: nat, f: nat) {
    match t
    case Hole => false
    case Leaf(_, ptrs) => i < |ptrs| && ptrs[i] != 0 && f in Run(ptrs[i], g.fpb)
    case Node(_, kids) => i < |kids| && f in TreeData(g, kids[i])
  }

  lemma {:induction false} DataBelowIs(g: Geometry, t: Tree, n: nat, f: nat)
    requires n <= Width(t)
    ensures f in DataBelow(g, t, n) <==> exists i: nat :: i < n && InEntry(g, t, i, f)
  {
    hide Superblock.Valid, TreeData, Run;
    if n > 0 {
      DataBelowIs(g, t, n - 1, f);
      assert f in DataBelow(g, t, n) <==> f in DataBelow(g, t, n - 1) || InEntry(g, t, n - 1, f);
    }
  }

  lemma {:induction false} TreeDataIs(g: Geometry, t: Tree, level: nat, m: nat, f: nat)
    requires Packed(g, t, level, m) && level > 0
    ensures f in TreeData(g, t) <==> exists idx: nat :: HitAt(g, t, level, idx, f)
    decreases level
  {
    hide Superblock.Valid, Span, Part, Run, DataBelow;
    DataBelowIs(g, t, Width(t), f);
    if t.Leaf? {
      LeafHits(g, t, f);
    } else if t.Node? {
      if f in TreeData(g, t) {
        var i: nat :| i < Width(t) && InEntry(g, t, i, f);
        NodeHitUp(g, t, level, m, i, f);
      }
      if exists idx: nat :: HitAt(g, t, level, idx, f) {
        var idx: nat :| HitAt(g, t, level, idx, f);
        NodeHitDown(g, t, level, m, idx, f);
      }
    }
  }

  lemma LeafHits(g: Geometry, t: Tree, f: nat)
    requires t.Leaf? && |t.ptrs| == PerBlock(g)
    ensures (exists i: nat :: i < Width(t) && InEntry(g, t, i, f)) <==> exists idx: nat :: HitAt(g, t, 1, idx, f)
  {
    hide Superblock.Valid, Run, PerBlock;
    SpanOne(g);
    forall idx: nat ensures HitAt(g, t, 1, idx, f) <==> idx < Width(t) && InEntry(g, t, idx, f) {
    }
  }

  lemma NodeHitUp(g: Geometry, t: Tree, level: nat, m: nat, i: nat, f: nat)
    requires Filled(g, t, level, m) && t.Node? && i < Width(t) && f in TreeData(g, t.kids[i])
    ensures exists idx: nat :: HitAt(g, t, level, idx, f)
    decreases level, 0
  {
    hide Superblock.Valid, Span, Part, Run, TreeData;
    TreeDataIs(g, t.kids[i], level - 1, Part(g, level, m, i), f);
    var j: nat :| HitAt(g, t.kids[i], level - 1, j, f);
    var s := Span(g, level - 1);
    DivModOf(i, j, s);
    SpanIs(g, level);
    MulBelow(i, PerBlock(g), s, j);
    assert HitAt(g, t, level, i * s + j, f);
  }

  lemma MulBelow(i: nat, n: nat, s: nat, j: nat)
    requires i < n && j < s
    ensures i * s + j < n * s
  {
    assert (i + 1) * s <= n * s;
  }

  lemma NodeHitDown(g: Geometry, t: Tree, level: nat, m: nat, idx: nat, f: nat)
    requires Filled(g, t, level, m) && t.Node? && HitAt(g, t, level, idx, f)
    ensures exists i: nat :: i < Width(t) && InEntry(g, t, i, f)
    decreases level, 0
  {
    hide Superblock.Valid, Span, Part, Run, TreeData;
    var s := Span(g, level - 1);
    KidPacked(g, t, level, m, idx);
    TreeDataIs(g, t.kids[idx / s], level - 1, Part(g, level, m, idx / s), f);
    assert HitAt(g, t.kids[idx / s], level - 1, idx % s, f);
    assert InEntry(g, t, idx / s, f);
  }

  /** Position idx is empty or names a placed block. */
  ghost predicate PlacedAt(g: Geometry, t: Tree, level: nat, idx: nat) {
    idx < Span(g, level) && Lookup(g, t, level, idx) != 0 ==> Placed(g, Lookup(g, t, level, idx), g.fpb)
  }

  ghost predicate PlacedThroughout(g: Geometry, t: Tree, level: nat) {
    forall idx: nat :: PlacedAt(g, t, level, idx)
  }

  /** When every position names a placed block, so does every pointer. */
  lemma {:induction false} DataOkIf(g: Geometry, t: Tree, level: nat, m: nat)
    requires Packed(g, t, level, m) && level > 0
    requires PlacedThroughout(g, t, level)
    ensures DataOk(g, t)
    decreases level
  {
    hide Superblock.Valid, Span, Part, Placed;
    if t.Leaf? {
      SpanOne(g);
      forall i | 0 <= i < |t.ptrs| && t.ptrs[i] != 0 ensures Placed(g, t.ptrs[i], g.fpb) {
        assert PlacedAt(g, t, 1, i);
      }
    } else if t.Node? {
      forall i | 0 <= i < |t.kids| ensures DataOk(g, t.kids[i]) {
        KidData(g, t, level, m, i);
        DataOkIf(g, t.kids[i], level - 1, Part(g, level, m, i));
      }
    }
  }

  lemma KidData(g: Geometry, t: Tree, level: nat, m: nat, i: nat)
    requires Filled(g, t, level, m) && t.Node? && i < |t.kids|
    requires PlacedThroughout(g, t, level)
    ensures PlacedThroughout(g, t.kids[i], level - 1)
  {
    hide Superblock.Valid, Span, Part, Placed;
    var s, kid, below := Span(g, level - 1), t.kids[i], level - 1;
    SpanIs(g, level);
    forall j: nat ensures PlacedAt(g, kid, below, j) {
      if j < s {
        DivModOf(i, j, s);
        MulBelow(i, PerBlock(g), s, j);
        assert PlacedAt(g, t, level, i * s + j);
      }
    }
  }

  /** A position of a slot's tree is a logical block of the file. */
  lemma SlotSpot(g: Geometry, s: nat, idx: nat)
    requires s < NIADDR && idx < Span(g, s + 1)
    ensures SpotOf(g, First(g, s) + idx) == Under(s, idx) && First(g, s) + idx >= NDADDR
  {
    hide Superblock.Valid, Span, SpotOf;
    FirstMonotone(g, 0, s);
    FirstMonotone(g, s + 1, NIADDR);
    SpotOfIs(g, First(g, s) + idx);
    assert First(g, s + 1) == First(g, s) + Span(g, s + 1);
    var u := SpotOf(g, First(g, s) + idx);
    if u.slot < s {
      FirstMonotone(g, u.slot + 1, s);
    } else if s < u.slot {
      FirstMonotone(g, s + 1, u.slot);
    }
    assert First(g, u.slot + 1) == First(g, u.slot) + Span(g, u.slot + 1);
  }

  /** The direct pointers are the file's first blocks, in order. */
  lemma {:induction false} DirectIsFile(g: Geometry, d: seq<byte>, ino: Inode, k: nat)
    requires Compact(g, d, ino) && k <= NDADDR
    ensures DirectWalk(g, ino, k) == FileExtents(g, d, ino)[..Min(k, Blocks(g, ino.size))]
  {
    hide Superblock.Valid, SlotTree, Packed, SlotPart, Blocks, Chunk, FragsFor, RunLen, Lookup;
    if k > 0 {
      DirectIsFile(g, d, ino, k - 1);
      if k - 1 < Blocks(g, ino.size) {
        RunLenIs(g, ino.size, k - 1);
        DirectSpot(g, k - 1);
      }
    }
  }

  lemma RunLenIs(g: Geometry, size: nat, i: nat)
    requires i < Blocks(g, size) && i < NDADDR
    ensures RunLen(g, size, i) == FragsFor(g, i, Chunk(g, size, i))
  {
    hide Superblock.Valid, BlockSize;
    var bs, n := BlockSize(g), Blocks(g, size);
    BlocksIs(g, size, i);
    BlocksIs(g, size, i + 1);
    FragsForBounds(g, i, Chunk(g, size, i));
    if i + 1 == n {
      LastOffset(size, bs, i);
    } else {
      LastOrWhole(g, size, i);
    }
  }

  lemma LastOffset(size: nat, bs: pos, i: nat)
    requires i * bs < size <= (i + 1) * bs
    ensures size % bs == if size - i * bs == bs then 0 else size - i * bs
  {
    if size - i * bs == bs {
      DivModOf(i + 1, 0, bs);
    } else {
      DivModOf(i, size - i * bs, bs);
    }
  }

  ghost function SlotData(g: Geometry, d: seq<byte>, ino: Inode, k: nat): set<nat>
    requires ino.Shaped() && k <= NIADDR
  {
    if k == 0 then {} else SlotData(g, d, ino, k - 1) + TreeData(g, SlotTree(g, d, ino, k - 1))
  }

  ghost function SlotParts(g: Geometry, m: nat, k: nat): nat {
    if k == 0 then 0 else SlotParts(g, m, k - 1) + SlotPart(g, m, k - 1)
  }

  lemma SlotPartsIs(g: Geometry, m: nat, k: nat)
    ensures SlotParts(g, m, k) == if m <= NDADDR then 0 else if m <= First(g, k) then m - NDADDR else First(g, k) - NDADDR
  {
    hide Superblock.Valid, Span;
    FirstMonotone(g, 0, k);
    if k > 0 {
      SlotPartsIs(g, m, k - 1);
      FirstMonotone(g, 0, k - 1);
    }
  }

  /** A file of the writer's: well formed, its blocks mapped from the first to the last, in reach. */
  ghost predicate Written(g: Geometry, d: seq<byte>, ino: Inode) {
    FileOk(g, d, ino) && Compact(g, d, ino) && !TooLong(g, ino.size) && ino.kind != Special && g.sbOff < g.dataOff
  }

  /** The size passed to iblock reaches the last block of each slot. */
  lemma SlotReaches(g: Geometry, size: nat, s: nat)
    requires s < NIADDR && SlotPart(g, Blocks(g, size), s) > 0
    ensures Reaches(g, s + 1, size - Start(g, NDADDR), SlotPart(g, Blocks(g, size), s))
  {
    hide Superblock.Valid, BlockSize, Span, Start, Blocks, Left;
    var n, m := Blocks(g, size), SlotPart(g, Blocks(g, size), s);
    BlocksIs(g, size, n - 1);
    LeftAt(g, size, n - 1);
    FirstMonotone(g, 0, s);
    StartSum(g, m - 1, First(g, s) - NDADDR);
    StartSum(g, m - 1 + (First(g, s) - NDADDR), NDADDR);
    StartMonotone(g, m - 1 + First(g, s), n - 1);
  }

  lemma LeftAt(g: Geometry, size: nat, lb: nat)
    ensures Left(g, size, lb) > 0 <==> size > Start(g, lb)
  {
  }

  lemma SlotVisited(g: Geometry, d: seq<byte>, ino: Inode, s: nat)
    requires Written(g, d, ino) && s < NIADDR
    ensures var m := SlotPart(g, Blocks(g, ino.size), s);
            if m == 0 then SlotTree(g, d, ino, s) == Hole
            else Visited(g, SlotTree(g, d, ino, s), s + 1, m, ino.size - Start(g, NDADDR))
  {
    hide Superblock.Valid, BlockSize, Span, Start, Blocks, SlotTree, Reaches, Filled, Placed, Apart, SpotOf, Lookup, SlotPart;
    var n := Blocks(g, ino.size);
    var m, t := SlotPart(g, n, s), SlotTree(g, d, ino, s);
    if m > 0 {
      SlotReaches(g, ino.size, s);
      SlotDataPlaced(g, d, ino, s);
      DataOkIf(g, t, s + 1, m);
      assert Separate(g, t);
    }
  }

  lemma SlotDataPlaced(g: Geometry, d: seq<byte>, ino: Inode, s: nat)
    requires Written(g, d, ino) && s < NIADDR
    ensures PlacedThroughout(g, SlotTree(g, d, ino, s), s + 1)
  {
    hide Superblock.Valid, BlockSize, Span, Start, Blocks, SlotTree, Placed, SpotOf, Lookup, Covers, Chunk, InodeSeparate, Compact, TooLong;
    var t, level := SlotTree(g, d, ino, s), s + 1;
    forall idx: nat ensures PlacedAt(g, t, level, idx) {
      if idx < Span(g, s + 1) && Lookup(g, t, s + 1, idx) != 0 {
        SlotSpot(g, s, idx);
        MappedBelow(g, d, ino, First(g, s) + idx);
        var x := FileExtents(g, d, ino)[First(g, s) + idx];
        assert x == Extent(Lookup(g, t, s + 1, idx), g.fpb);
      }
    }
  }

  /** A block with data is a block of the file. */
  lemma MappedBelow(g: Geometry, d: seq<byte>, ino: Inode, lb: nat)
    requires Compact(g, d, ino) && Ptr(g, d, ino, lb) != 0
    ensures lb < Blocks(g, ino.size)
  {
    hide Superblock.Valid, Blocks, Span, Snug, SpotFrom, Lookup;
    SpotOfIs(g, lb);
    SnugHolds(g, d, ino, Blocks(g, ino.size), lb);
  }

  lemma WrittenShaped(g: Geometry, d: seq<byte>, ino: Inode)
    requires Written(g, d, ino)
    ensures ino.Shaped() && FileOk(g, d, ino)
  {
  }

  lemma SlotsStep(g: Geometry, d: seq<byte>, ino: Inode, k: nat)
    requires ino.Shaped() && 0 < k <= NIADDR
    ensures SlotsWalk(g, d, ino, k) == SlotsWalk(g, d, ino, k - 1) + IWalk(g, SlotTree(g, d, ino, k - 1), k, ino.size - Start(g, NDADDR))
    ensures MetaOfSlots(g, d, ino, k) == MetaOfSlots(g, d, ino, k - 1) + Meta(g, SlotTree(g, d, ino, k - 1))
    ensures SlotData(g, d, ino, k) == SlotData(g, d, ino, k - 1) + TreeData(g, SlotTree(g, d, ino, k - 1))
    ensures Frags(g, SlotParts(g, Blocks(g, ino.size), k))
         == Frags(g, SlotParts(g, Blocks(g, ino.size), k - 1)) + Frags(g, SlotPart(g, Blocks(g, ino.size), k - 1))
  {
    hide Superblock.Valid, Start, Blocks, SlotTree, SlotPart, IWalk, TreeData, Meta, Frags;
    FragsAdd(g, SlotParts(g, Blocks(g, ino.size), k - 1), SlotPart(g, Blocks(g, ino.size), k - 1));
  }

  lemma NoSlots(g: Geometry, d: seq<byte>, ino: Inode)
    requires ino.Shaped()
    ensures SlotsWalk(g, d, ino, 0) == [] && MetaOfSlots(g, d, ino, 0) == {} && SlotData(g, d, ino, 0) == {}
    ensures Covers([]) == {} && FragsVisited([]) == 0 && AllPlaced(g, []) && Frags(g, SlotParts(g, Blocks(g, ino.size), 0)) == 0
  {
    hide Superblock.Valid, Blocks;
    FragsAdd(g, 0, 0);
  }

  lemma {:induction false} SlotsCover(g: Geometry, d: seq<byte>, ino: Inode, k: nat)
    requires Written(g, d, ino) && k <= NIADDR
    ensures Covers(SlotsWalk(g, d, ino, k)) == MetaOfSlots(g, d, ino, k) + SlotData(g, d, ino, k)
    ensures FragsVisited(SlotsWalk(g, d, ino, k))
         == |MetaOfSlots(g, d, ino, k)| + Frags(g, SlotParts(g, Blocks(g, ino.size), k))
    ensures AllPlaced(g, SlotsWalk(g, d, ino, k))
    ensures forall s: nat | s < k :: !Trailing(g, SlotTree(g, d, ino, s), s + 1, ino.size - Start(g, NDADDR))
  {
    hide Superblock.Valid, Start, Blocks, SlotTree, SlotPart, IWalk, Trailing, TreeData, Meta, Frags, Written,
      SlotsWalk, MetaOfSlots, SlotData, SlotParts, Covers, FragsVisited, AllPlaced;
    WrittenShaped(g, d, ino);
    if k == 0 {
      NoSlots(g, d, ino);
    } else {
      SlotsCover(g, d, ino, k - 1);
      SlotCovers(g, d, ino, k - 1);
      SlotsStep(g, d, ino, k);
      var walk := IWalk(g, SlotTree(g, d, ino, k - 1), k, ino.size - Start(g, NDADDR));
      CoversConcat(SlotsWalk(g, d, ino, k - 1), walk);
      PlacedConcat(g, SlotsWalk(g, d, ino, k - 1), walk);
      SlotMetaApart(g, d, ino, k - 1);
    }
  }

  lemma SlotCovers(g: Geometry, d: seq<byte>, ino: Inode, s: nat)
    requires Written(g, d, ino) && s < NIADDR
    ensures var t := SlotTree(g, d, ino, s); var walk := IWalk(g, t, s + 1, ino.size - Start(g, NDADDR));
            && Covers(walk) == Meta(g, t) + TreeData(g, t)
            && FragsVisited(walk) == |Meta(g, t)| + Frags(g, SlotPart(g, Blocks(g, ino.size), s))
            && AllPlaced(g, walk) && !Trailing(g, t, s + 1, ino.size - Start(g, NDADDR))
  {
    hide Superblock.Valid, Start, Blocks, SlotTree, Visited, SlotPart, IWalk, Trailing, TreeData, Meta, Frags, Written, Covers, FragsVisited,
      AllPlaced;
    WrittenShaped(g, d, ino);
    SlotVisited(g, d, ino, s);
    if SlotPart(g, Blocks(g, ino.size), s) == 0 {
      NoBlockWalk(g, s + 1, ino.size - Start(g, NDADDR));
      NothingInHole(g);
      FragsAdd(g, 0, 0);
    } else {
      TreeCovers(g, SlotTree(g, d, ino, s), s + 1, SlotPart(g, Blocks(g, ino.size), s), ino.size - Start(g, NDADDR));
    }
  }

  lemma SlotMetaApart(g: Geometry, d: seq<byte>, ino: Inode, s: nat)
    requires FileOk(g, d, ino) && s < NIADDR
    ensures |MetaOfSlots(g, d, ino, s + 1)| == |MetaOfSlots(g, d, ino, s)| + |Meta(g, SlotTree(g, d, ino, s))|
  {
    hide Superblock.Valid, SlotTree, Meta, InodeSeparate, Apart, Covers;
    NextSlotUsed(g, d, ino, s, {});
  }

  lemma {:induction false} CoversIs(xs: seq<Extent>, f: nat)
    ensures f in Covers(xs) <==> exists k: nat :: k < |xs| && f in ExtentRun(xs[k])
  {
    hide ExtentRun;
    if xs != [] {
      CoversIs(xs[..|xs| - 1], f);
      assert f in Covers(xs) <==> f in Covers(xs[..|xs| - 1]) || f in ExtentRun(xs[|xs| - 1]);
      assert forall k: nat | k < |xs| - 1 :: xs[..|xs| - 1][k] == xs[k];
    }
  }

  lemma SlotDataIs(g: Geometry, d: seq<byte>, ino: Inode, k: nat, f: nat)
    requires ino.Shaped() && k <= NIADDR
    ensures f in SlotData(g, d, ino, k) <==> exists s: nat :: s < k && f in TreeData(g, SlotTree(g, d, ino, s))
  {
    hide Superblock.Valid, TreeData, SlotTree;
    if k > 0 {
      SlotDataIs(g, d, ino, k - 1, f);
      assert f in SlotData(g, d, ino, k) <==> f in SlotData(g, d, ino, k - 1) || f in TreeData(g, SlotTree(g, d, ino, k - 1));
    }
  }

  /** A data fragment past the direct blocks is below one of the trees, and the other way round. */
  lemma DataSplit(g: Geometry, d: seq<byte>, ino: Inode)
    requires Written(g, d, ino)
    ensures var xs := FileExtents(g, d, ino); var k := Min(NDADDR, |xs|);
            Covers(xs) == Covers(xs[..k]) + SlotData(g, d, ino, NIADDR)
  {
    hide Superblock.Valid, Written, Blocks, SlotTree, TreeData, FileExtents, SlotData, ExtentRun, Covers;
    WrittenShaped(g, d, ino);
    var xs := FileExtents(g, d, ino);
    var k := Min(NDADDR, |xs|);
    forall f: nat ensures f in Covers(xs) <==> f in Covers(xs[..k]) + SlotData(g, d, ino, NIADDR) {
      CoversIs(xs, f);
      CoversIs(xs[..k], f);
      SlotDataIs(g, d, ino, NIADDR, f);
      if f in Covers(xs) {
        var lb: nat :| lb < |xs| && f in ExtentRun(xs[lb]);
        if lb < k {
          assert xs[..k][lb] == xs[lb];
        } else {
          BlockInSlot(g, d, ino, lb, f);
        }
      }
      if exists j: nat :: j < k && f in ExtentRun(xs[..k][j]) {
        var j: nat :| j < k && f in ExtentRun(xs[..k][j]);
        assert xs[..k][j] == xs[j];
      }
      if f in SlotData(g, d, ino, NIADDR) {
        var s: nat :| s < NIADDR && f in TreeData(g, SlotTree(g, d, ino, s));
        SlotInFile(g, d, ino, s, f);
      }
    }
  }

  lemma SlotPacked(g: Geometry, d: seq<byte>, ino: Inode, s: nat)
    requires Written(g, d, ino) && s < NIADDR
    ensures Packed(g, SlotTree(g, d, ino, s), s + 1, SlotPart(g, Blocks(g, ino.size), s))
  {
    hide Superblock.Valid, FileOk, Packed, SlotTree, SlotPart, Blocks, TooLong;
  }

  lemma BlockInSlot(g: Geometry, d: seq<byte>, ino: Inode, lb: nat, f: nat)
    requires Written(g, d, ino) && NDADDR <= lb < |FileExtents(g, d, ino)| && f in ExtentRun(FileExtents(g, d, ino)[lb])
    ensures exists s: nat :: s < NIADDR && f in TreeData(g, SlotTree(g, d, ino, s))
  {
    hide Superblock.Valid, Written, Blocks, SlotTree, TreeData, Span, SpotFrom, Lookup, Chunk, Run, Packed, TooLong;
    WrittenShaped(g, d, ino);
    InReach(g, d, ino, lb);
    SpotOfIs(g, lb);
    var u := SpotOf(g, lb);
    SlotPacked(g, d, ino, u.slot);
    var t := SlotTree(g, d, ino, u.slot);
    assert HitAt(g, t, u.slot + 1, u.idx, f);
    TreeDataIs(g, t, u.slot + 1, SlotPart(g, Blocks(g, ino.size), u.slot), f);
  }

  lemma InReach(g: Geometry, d: seq<byte>, ino: Inode, lb: nat)
    requires Written(g, d, ino) && lb < Blocks(g, ino.size)
    ensures SpotOf(g, lb) != Beyond && lb < First(g, NIADDR)
  {
    hide Superblock.Valid, FileOk, Compact, Blocks, SpotOf;
    SpotOfIs(g, lb);
  }

  lemma SlotInFile(g: Geometry, d: seq<byte>, ino: Inode, s: nat, f: nat)
    requires Written(g, d, ino) && s < NIADDR && f in TreeData(g, SlotTree(g, d, ino, s))
    ensures exists lb: nat :: lb < |FileExtents(g, d, ino)| && f in ExtentRun(FileExtents(g, d, ino)[lb])
  {
    hide Superblock.Valid, FileOk, Blocks, SlotTree, TreeData, Span, SpotOf, Lookup, Chunk, Run, Packed, TooLong, Compact;
    WrittenShaped(g, d, ino);
    SlotPacked(g, d, ino, s);
    var t, level := SlotTree(g, d, ino, s), s + 1;
    TreeDataIs(g, t, level, SlotPart(g, Blocks(g, ino.size), s), f);
    var idx: nat :| HitAt(g, t, level, idx, f);
    SlotSpot(g, s, idx);
    MappedBelow(g, d, ino, First(g, s) + idx);
    assert FileExtents(g, d, ino)[First(g, s) + idx] == Extent(Lookup(g, t, s + 1, idx), g.fpb);
  }

  /** Disjoint runs count for as many fragments as they cover. */
  lemma {:induction false} ApartCount(g: Geometry, xs: seq<Extent>)
    requires Apart(g, xs) && forall k | 0 <= k < |xs| :: xs[k].at != 0
    ensures |Covers(xs)| == FragsVisited(xs)
  {
    hide Placed;
    if xs != [] {
      var n := |xs| - 1;
      ApartPrefix(g, xs, n);
      ApartCount(g, xs[..n]);
      forall i | 0 <= i < n ensures ExtentRun(xs[..n][i]) !! ExtentRun(xs[n]) {
        assert xs[..n][i] == xs[i];
      }
      CoversApart(xs[..n], ExtentRun(xs[n]));
      RunSize(xs[n].at, xs[n].n);
    }
  }

  /** Past the direct blocks every block is whole. */
  lemma {:induction false} WholeAfterDirect(g: Geometry, d: seq<byte>, ino: Inode, k: nat)
    requires ino.Shaped() && NDADDR <= k <= |FileExtents(g, d, ino)|
    ensures FragsVisited(FileExtents(g, d, ino)[..k])
         == FragsVisited(FileExtents(g, d, ino)[..NDADDR]) + Frags(g, k - NDADDR)
  {
    hide Superblock.Valid, Ptr, Chunk, Blocks, Frags;
    var xs := FileExtents(g, d, ino);
    FragsAdd(g, k - NDADDR, 1);
    if k > NDADDR {
      WholeAfterDirect(g, d, ino, k - 1);
      assert xs[..k][..k - 1] == xs[..k - 1];
      FragsAdd(g, k - 1 - NDADDR, 1);
    }
  }

  lemma ExtentsGood(g: Geometry, d: seq<byte>, ino: Inode)
    requires Written(g, d, ino)
    ensures Apart(g, FileExtents(g, d, ino)) && AllPlaced(g, FileExtents(g, d, ino))
  {
    hide Superblock.Valid, Ptr, Chunk, Blocks, FragsFor, Placed, InodeSeparate, Covers, TooLong, SpotOf, Snug, ExtentRun;
    forall lb: nat | lb < Blocks(g, ino.size) ensures Ptr(g, d, ino, lb) != 0 {
      InReach(g, d, ino, lb);
      SnugHolds(g, d, ino, Blocks(g, ino.size), lb);
    }
  }

  lemma DirectCount(g: Geometry, d: seq<byte>, ino: Inode)
    requires Written(g, d, ino)
    ensures var xs := FileExtents(g, d, ino);
            FragsVisited(xs) == FragsVisited(xs[..Min(NDADDR, |xs|)]) + Frags(g, SlotParts(g, |xs|, NIADDR))
  {
    hide Superblock.Valid, FileOk, Compact, Blocks, SpotOf, Extents, Frags, FragsVisited, SlotParts;
    WrittenShaped(g, d, ino);
    var xs := FileExtents(g, d, ino);
    SlotPartsIs(g, |xs|, NIADDR);
    FragsAdd(g, 0, 0);
    assert xs[..|xs|] == xs;
    if |xs| > NDADDR {
      WholeAfterDirect(g, d, ino, |xs|);
      InReach(g, d, ino, |xs| - 1);
    }
  }

  /** ckinode visits exactly the fragments a written file owns, and counts each once: what it
      compares with the stored block count is the number of owned fragments. */
  lemma WalkOfFile(g: Geometry, d: seq<byte>, ino: Inode)
    requires Written(g, d, ino)
    ensures ino.Shaped()
    ensures Covers(CkWalk(g, d, ino)) == Owned(g, d, ino) && FragsVisited(CkWalk(g, d, ino)) == |Owned(g, d, ino)|
    ensures AllPlaced(g, CkWalk(g, d, ino))
    ensures forall s: nat | s < NIADDR :: !Trailing(g, SlotTree(g, d, ino, s), s + 1, ino.size - Start(g, NDADDR))
  {
    hide Superblock.Valid, FileOk, Blocks, Extents, Frags, FragsVisited, SlotParts, DirectWalk, SlotsWalk, SlotTree, SlotData,
      MetaOfSlots, InodeMeta, Covers, AllPlaced, Compact, TooLong, Trailing, Start;
    WrittenShaped(g, d, ino);
    var xs, walk := FileExtents(g, d, ino), SlotsWalk(g, d, ino, NIADDR);
    var k := Min(NDADDR, |xs|);
    DirectIsFile(g, d, ino, NDADDR);
    ExtentsGood(g, d, ino);
    PlacedPrefix(g, xs, k);
    SlotsCover(g, d, ino, NIADDR);
    MetaOfAllSlots(g, d, ino);
    CoversConcat(xs[..k], walk);
    PlacedConcat(g, xs[..k], walk);
    DataSplit(g, d, ino);
    DirectCount(g, d, ino);
    DataCount(g, xs);
    DataApart(g, d, ino);
  }

  lemma DataCount(g: Geometry, xs: seq<Extent>)
    requires Apart(g, xs) && AllPlaced(g, xs)
    ensures |Covers(xs)| == FragsVisited(xs)
  {
    hide Placed, Covers, FragsVisited, ExtentRun;
    ApartCount(g, xs);
  }

  lemma PlacedPrefix(g: Geometry, xs: seq<Extent>, k: nat)
    requires AllPlaced(g, xs) && k <= |xs|
    ensures AllPlaced(g, xs[..k])
  {
    hide Placed;
  }

  lemma DataApart(g: Geometry, d: seq<byte>, ino: Inode)
    requires FileOk(g, d, ino)
    ensures |Owned(g, d, ino)| == |DataFrags(g, d, ino)| + |InodeMeta(g, d, ino)|
  {
    hide Superblock.Valid, Apart, InodeSeparate, InodeMeta, DataFrags;
  }

  // ---- the claims of a walk ----

  /** A run in range claims all its fragments, in order. */
  lemma {:induction false} RunClaimsAll(g: Geometry, x: Extent, n: nat)
    requires MetadataFits(g) && !OutRange(g, x.at, x.n) && n <= x.n
    ensures |RunClaims(g, x.at, n)| == n
    ensures forall f: nat :: f in RunClaims(g, x.at, n) <==> f in Run(x.at, n)
  {
    hide Superblock.Valid, MetadataFits, OutRange;
    if n > 0 {
      RunClaimsAll(g, x, n - 1);
      InRangeParts(g, x.at, x.n, n - 1);
    }
  }

  lemma {:induction false} ClaimsAll(g: Geometry, xs: seq<Extent>)
    requires MetadataFits(g) && g.sbOff < g.dataOff && AllPlaced(g, xs)
    ensures |Claims(g, xs)| == FragsVisited(xs)
    ensures forall f: nat :: f in Claims(g, xs) <==> f in Covers(xs)
    ensures !HasBadRun(g, xs)
  {
    hide Superblock.Valid, MetadataFits, OutRange, RunClaims, Placed, Run;
    if xs != [] {
      var n := |xs| - 1;
      ClaimsAll(g, xs[..n]);
      PlacedInRange(g, xs[n].at, xs[n].n);
      RunClaimsAll(g, xs[n], xs[n].n);
      forall k | 0 <= k < |xs| ensures !OutRange(g, xs[k].at, xs[k].n) {
        PlacedInRange(g, xs[k].at, xs[k].n);
      }
    }
  }

  /** A list as long as the set of its elements has no element twice. */
  lemma {:induction false} NoneTwice(xs: seq<nat>)
    ensures |Elems(xs)| <= |xs|
    ensures |Elems(xs)| == |xs| ==> forall f: nat :: multiset(xs)[f] == if f in Elems(xs) then 1 else 0
  {
    if xs != [] {
      var n := |xs| - 1;
      NoneTwice(xs[..n]);
      assert xs == xs[..n] + [xs[n]];
      assert Elems(xs) == Elems(xs[..n]) + {xs[n]};
    }
  }

  /** A walk that covers as many fragments as it counts claims each of them once. */
  lemma ClaimedOnce(g: Geometry, xs: seq<Extent>)
    requires MetadataFits(g) && g.sbOff < g.dataOff && AllPlaced(g, xs) && FragsVisited(xs) == |Covers(xs)|
    ensures !HasBadRun(g, xs)
    ensures forall f: nat :: multiset(Claims(g, xs))[f] == if f in Covers(xs) then 1 else 0
  {
    hide Superblock.Valid, MetadataFits, Claims, AllPlaced, HasBadRun, Covers;
    ClaimsAll(g, xs);
    assert Elems(Claims(g, xs)) == Covers(xs);
    NoneTwice(Claims(g, xs));
  }

  /** The summary area follows group 0's metadata: what pass 1 sets aside is what is never handed
      out. */
  lemma PlacedNotAside(g: Geometry, at: nat, n: nat, f: nat)
    requires Placed(g, at, n) && f in Run(at, n) && g.csumAddr == g.Upper(0)
    ensures !SetAside(g, f)
  {
    hide Superblock.Valid, Superblock.CgStart, Superblock.FragNum;
    RunMembers(at, n);
    PlacedParts(g, at, n);
    GlobalRun(g, g.GroupOf(at), g.LocalOf(at), n, f);
    assert !g.Reserved(g.GroupOf(f), g.LocalOf(f));
  }

  lemma {:induction false} CoversNotAside(g: Geometry, xs: seq<Extent>, f: nat)
    requires AllPlaced(g, xs) && f in Covers(xs) && g.csumAddr == g.Upper(0)
    ensures !SetAside(g, f)
  {
    hide Superblock.Valid, Placed, SetAside;
    CoversIs(xs, f);
    var k: nat :| k < |xs| && f in ExtentRun(xs[k]);
    PlacedNotAside(g, xs[k].at, xs[k].n, f);
  }

  // ---- pass 1's look at one inode ----

  function Quotient(x: nat, n: pos): nat {
    DivBounds(x, n);
    x / n
  }

  lemma QuotientSmaller(x: nat, n: pos)
    requires n > 1 && x > 0
    ensures Quotient(x, n) < x
  {
    var q := Quotient(x, n);
    DivBounds(x, n);
    Twice(q, n);
  }

  lemma Twice(q: nat, n: nat)
    requires n > 1
    ensures q * n >= 2 * q
  {
    assert q * n == q * (n - 2) + 2 * q;
  }

  lemma QuotientLeast(x: nat, c: nat, n: pos)
    requires x >= c * n
    ensures Quotient(x, n) >= c
  {
    QuotientAtLeast(x, c, n);
  }

  /** Number of digits of x in base n. */
  function Digits(n: nat, x: nat): nat
    requires n > 1
    decreases x
  {
    hide Quotient;
    if x == 0 then 0 else QuotientSmaller(x, n); 1 + Digits(n, Quotient(x, n))
  }

  /** No pointer past the blocks the size asks for: direct ones exactly, indirect ones by the
      number of levels. */
  ghost predicate Plausible(g: Geometry, ino: Inode)
    requires ino.Shaped() && PerBlock(g) > 1
  {
    var ndb := (ino.size + BlockSize(g) - 1) / BlockSize(g) + if ino.kind == Special then 1 else 0;
    && (forall j | 0 <= j < NDADDR && j >= ndb :: ino.db[j] == 0)
    && (forall j | 0 <= j < NIADDR && j >= Digits(PerBlock(g), if ndb > NDADDR then ndb - NDADDR else 0) :: ino.ib[j] == 0)
  }

  method CheckPointers(g: Geometry, ino: Inode) returns (ok: bool)
    requires ino.Shaped() && PerBlock(g) > 1
    ensures ok <==> Plausible(g, ino)
  {
    hide Superblock.Valid, PerBlock, BlockSize, Quotient;
    var ndb := (ino.size + BlockSize(g) - 1) / BlockSize(g) + if ino.kind == Special then 1 else 0;
    var j := ndb;
    while j < NDADDR
      invariant j >= ndb
      invariant forall k | 0 <= k < NDADDR && ndb <= k < j :: ino.db[k] == 0
    {
      if ino.db[j] != 0 {
        return false;
      }
      j := j + 1;
    }
    var rest: nat := if ndb > NDADDR then ndb - NDADDR else 0;
    ghost var rest0 := rest;
    j := 0;
    while rest > 0
      invariant j + Digits(PerBlock(g), rest) == Digits(PerBlock(g), rest0)
      decreases rest
    {
      QuotientSmaller(rest, PerBlock(g));
      rest := Quotient(rest, PerBlock(g));
      j := j + 1;
    }
    ghost var from := j;
    while j < NIADDR
      invariant j >= from
      invariant forall k | 0 <= k < NIADDR && from <= k < j :: ino.ib[k] == 0
    {
      if ino.ib[j] != 0 {
        return false;
      }
      j := j + 1;
    }
    return true;
  }

  lemma DigitsReach(n: nat, x: nat)
    requires n > 1
    ensures x > 0 ==> Digits(n, x) >= 1
    ensures x >= n ==> Digits(n, x) >= 2
    ensures x >= n * n ==> Digits(n, x) >= 3
  {
    hide Quotient;
    if x >= n {
      QuotientLeast(x, 1, n);
      if x >= n * n {
        QuotientLeast(x, n, n);
        var q := Quotient(x, n);
        QuotientLeast(q, 1, n);
        assert Digits(n, Quotient(q, n)) >= 1;
      }
    }
  }

  lemma SpansAre(g: Geometry)
    ensures Span(g, 1) == PerBlock(g) && Span(g, 2) == PerBlock(g) * PerBlock(g)
    ensures First(g, 0) == NDADDR && First(g, 1) == NDADDR + Span(g, 1) && First(g, 2) == First(g, 1) + Span(g, 2)
  {
    hide Superblock.Valid, PerBlock;
    SpanOne(g);
    SpanIs(g, 2);
  }

  /** fsck has nothing to say about the pointers of an inode the writer left. */
  lemma KeptIsPlausible(g: Geometry, d: seq<byte>, ino: Inode)
    requires ino.Shaped() && PerBlock(g) > 1 && Kept(g, d, ino) && (HasStorage(ino) || ino.kind == Special)
    ensures Plausible(g, ino)
  {
    hide Superblock.Valid, PerBlock, BlockSize, Span, Packed, TreeOf;
    var n := Blocks(g, ino.size);
    SizeZero(g);
    if HasStorage(ino) {
      SpansAre(g);
      var x := if n > NDADDR then n - NDADDR else 0;
      DigitsReach(PerBlock(g), x);
      forall j: nat | j < NIADDR && j >= Digits(PerBlock(g), x) ensures ino.ib[j] == 0 {
        assert SlotPart(g, n, j) == 0;
        PackedNothing(g, d, ino, j);
      }
    }
  }

  lemma SizeZero(g: Geometry)
    ensures (0 + BlockSize(g) - 1) / BlockSize(g) == 0
  {
    hide Superblock.Valid, BlockSize;
    DivModOf(0, BlockSize(g) - 1, BlockSize(g));
  }

  lemma PackedNothing(g: Geometry, d: seq<byte>, ino: Inode, s: nat)
    requires Compact(g, d, ino) && s < NIADDR && SlotPart(g, Blocks(g, ino.size), s) == 0
    ensures ino.ib[s] == 0
  {
    hide Superblock.Valid, Blocks, PerBlock, Span, SlotPart;
    assert SlotTree(g, d, ino, s) == Hole;
    TreeShape(g, d, ino.ib[s], s + 1);
  }

  /** The bytes below one pointer of a used tree are fewer than the file has, so for files under 2 GiB
      every divisor of the walk fits the 32-bit integer it is computed in. */
  lemma SizesFit(g: Geometry, d: seq<byte>, ino: Inode, s: nat)
    requires Compact(g, d, ino) && s < NIADDR && ino.ib[s] != 0
    ensures SizePb(g, s + 1) < ino.size
  {
    hide Superblock.Valid, Blocks, PerBlock, Span, Start, Packed, TreeOf, Snug;
    if SlotPart(g, Blocks(g, ino.size), s) == 0 {
      PackedNothing(g, d, ino, s);
    }
    BlocksIs(g, ino.size, First(g, s));
    SpansAre(g);
    SpanZero(g);
    assert s == 0 || s == 1 || s == 2;
    assert Span(g, s) <= First(g, s);
    StartMonotone(g, Span(g, s), First(g, s));
  }

  /** The products still can leave 32 bits: with blocks of 8192 bytes the last one for a file just
      under 2 GiB does. What is passed down is too large then, and the pointers past the file are
      zero. */
  lemma LastProductWraps(g: Geometry, size: nat)
    requires BlockSize(g) == 8192 && size == 0x7fff_ffff
    ensures NifAt(g, 2, size - Start(g, NDADDR)) == 128
    ensures Rest(g, 2, size - Start(g, NDADDR), 128) == size - Start(g, NDADDR) + 0x8000_0000
  {
    hide Superblock.Valid, BlockSize, PerBlock;
    assert PerBlock(g) == 2048;
    SpanOne(g);
    assert SizePb(g, 2) == 0x100_0000;
    assert Start(g, NDADDR) == 98304;
  }

  // ---- passes 1, 1b and 4 on an image ----

  /** Metadata comes first in every group, the summary area directly after it in group 0, an
      indirect block holds more than one pointer, and the first inodes are in one group. */
  ghost predicate Typical(g: Geometry) {
    MetadataFits(g) && g.sbOff < g.dataOff && g.csumAddr == g.Upper(0) && PerBlock(g) > 1 && g.inodesPerGroup >= ROOTINO
  }

  /** The state pass 1 gives an inode, with every question answered yes. */
  ghost function Seen(g: Geometry, ino: Inode, i: nat): State
    requires ino.Shaped() && PerBlock(g) > 1
  {
    if i < ROOTINO || ino.kind == Unused then Unallocated
    else if ino.fast && ino.kind != Symlink then Unallocated
    else if !ino.fast && !Plausible(g, ino) then Unallocated
    else if ino.kind == Directory then Dir else File
  }

  /** The runs it claims. */
  ghost function WalkSeen(g: Geometry, d: seq<byte>, ino: Inode, i: nat): seq<Extent>
    requires ino.Shaped() && PerBlock(g) > 1
  {
    if Seen(g, ino, i) == Unallocated || ino.fast then [] else CkWalk(g, d, ino)
  }

  /** The runs ckinode visits when passes 1b and 4 call it: they do not skip inline symlinks, whose
      words it takes for block addresses. */
  ghost function WalkAgain(g: Geometry, d: seq<byte>, ino: Inode, i: nat): seq<Extent>
    requires ino.Shaped() && PerBlock(g) > 1
  {
    if Seen(g, ino, i) == Unallocated then [] else CkWalk(g, d, ino)
  }

  ghost predicate Miscounted(g: Geometry, d: seq<byte>, ino: Inode, i: nat)
    requires ino.Shaped() && PerBlock(g) > 1
  {
    Seen(g, ino, i) != Unallocated && !ino.fast && FragsVisited(WalkSeen(g, d, ino, i)) * g.spf != ino.blocks
  }

  /** Pass 1 asks for an inode without a kind to have no pointer and no size. */
  predicate Partial(ino: Inode, i: nat) {
    i >= ROOTINO && ino.kind == Unused && (ino.db != NO_BLOCKS || ino.ib != NO_INDIRECT || ino.size != 0)
  }

  ghost predicate Tabled(inodes: seq<Inode>) {
    forall i | 0 <= i < |inodes| :: inodes[i].Shaped()
  }

  method CountFrags(xs: seq<Extent>) returns (n: nat)
    ensures n == FragsVisited(xs)
  {
    n := 0;
    for k := 0 to |xs|
      invariant n == FragsVisited(xs[..k])
    {
      assert xs[..k + 1][..k] == xs[..k];
      n := n + xs[k].n;
    }
    assert xs[..|xs|] == xs;
  }

  /** Pass 1's view of one inode: its state, its walk, and whether the block count is off; and the
      walk later passes make. */
  method ScanInode(g: Geometry, d: seq<byte>, ino: Inode, i: nat) returns (s: State, walk: seq<Extent>, again: seq<Extent>, off: bool, partial: bool)
    requires |d| == g.Off(g.fragCount) && ino.Shaped() && PerBlock(g) > 1
    ensures s == Seen(g, ino, i) && walk == WalkSeen(g, d, ino, i) && again == WalkAgain(g, d, ino, i)
    ensures off <==> Miscounted(g, d, ino, i)
    ensures partial <==> Partial(ino, i)
  {
    hide Superblock.Valid, PerBlock, Plausible, CkWalk, FragsVisited, Superblock.Off, Trailing;
    if i < ROOTINO {
      return Unallocated, [], [], false, false;
    }
    if ino.kind == Unused {
      return Unallocated, [], [], false, ino.db != NO_BLOCKS || ino.ib != NO_INDIRECT || ino.size != 0;
    }
    if ino.fast && ino.kind != Symlink {
      return Unallocated, [], [], false, false;
    }
    var trailing;
    if ino.fast {
      again, trailing := CkInode(g, d, ino);
      return File, [], again, false, false;
    }
    var ok := CheckPointers(g, ino);
    if !ok {
      return Unallocated, [], [], false, false;
    }
    walk, trailing := CkInode(g, d, ino);
    var n := CountFrags(walk);
    return if ino.kind == Directory then Dir else File, walk, walk, n * g.spf != ino.blocks, false;
  }

  method ScanInodes(g: Geometry, d: seq<byte>, inodes: seq<Inode>)
      returns (state: seq<State>, walks: seq<seq<Extent>>, again: seq<seq<Extent>>, miscounted: bool, partial: bool)
    requires |d| == g.Off(g.fragCount) && Tabled(inodes) && PerBlock(g) > 1
    ensures |state| == |walks| == |again| == |inodes|
    ensures forall i | 0 <= i < |inodes| :: state[i] == Seen(g, inodes[i], i) && walks[i] == WalkSeen(g, d, inodes[i], i)
    ensures forall i | 0 <= i < |inodes| :: again[i] == WalkAgain(g, d, inodes[i], i)
    ensures miscounted <==> exists i | 0 <= i < |inodes| :: Miscounted(g, d, inodes[i], i)
    ensures partial <==> exists i | 0 <= i < |inodes| :: Partial(inodes[i], i)
  {
    hide Superblock.Valid, PerBlock, Superblock.Off, Seen, WalkSeen, WalkAgain, Miscounted, Partial;
    state, walks, again, miscounted, partial := [], [], [], false, false;
    for i := 0 to |inodes|
      invariant |state| == |walks| == |again| == i
      invariant forall k | 0 <= k < i :: state[k] == Seen(g, inodes[k], k) && walks[k] == WalkSeen(g, d, inodes[k], k)
      invariant forall k | 0 <= k < i :: again[k] == WalkAgain(g, d, inodes[k], k)
      invariant miscounted <==> exists k | 0 <= k < i :: Miscounted(g, d, inodes[k], k)
      invariant partial <==> exists k | 0 <= k < i :: Partial(inodes[k], k)
    {
      var s, walk, more, off, part := ScanInode(g, d, inodes[i], i);
      state, walks, again, miscounted, partial := state + [s], walks + [walk], again + [more], miscounted || off, partial || part;
    }
  }

  /** What fsck sees of an inode the writer left: its kind, every fragment it owns once, none of
      them set aside, and the block count it has stored. */
  lemma SeenAsOwned(g: Geometry, d: seq<byte>, free: set<nat>, ino: Inode, i: nat)
    requires InodeOk(g, d, free, ino) && Kept(g, d, ino) && Typical(g)
    ensures ino.Shaped()
    ensures Seen(g, ino, i) == if i < ROOTINO || ino.kind == Unused then Unallocated else if ino.kind == Directory then Dir else File
    ensures !Miscounted(g, d, ino, i)
    ensures !HasBadRun(g, WalkSeen(g, d, ino, i))
    ensures forall f: nat :: multiset(Claims(g, WalkSeen(g, d, ino, i)))[f]
              == if Seen(g, ino, i) != Unallocated && f in OwnedBy(g, d, ino) then 1 else 0
    ensures forall f: nat :: f in Claims(g, WalkSeen(g, d, ino, i)) ==> !SetAside(g, f)
  {
    hide Superblock.Valid, PerBlock, Plausible, FileOk, Owned, TooLong, Compact, HasBadRun, Claims, MetadataFits, SetAside, Covers, AllPlaced,
      FragsVisited, DirectWalk, SlotsWalk;
    if HasStorage(ino) || ino.kind == Special {
      KeptIsPlausible(g, d, ino);
    }
    NothingSeen(g);
    if HasStorage(ino) {
      WalkOfFile(g, d, ino);
      ClaimedOnce(g, CkWalk(g, d, ino));
      forall f: nat | f in Claims(g, WalkSeen(g, d, ino, i)) ensures !SetAside(g, f) {
        PlusAt(multiset{}, Claims(g, WalkSeen(g, d, ino, i)), f);
        CoversNotAside(g, CkWalk(g, d, ino), f);
      }
    }
  }

  lemma NothingSeen(g: Geometry)
    ensures !HasBadRun(g, []) && Claims(g, []) == [] && FragsVisited([]) == 0
  {
  }

  ghost predicate ImageKept(img: Image)
    reads img
  {
    img.Valid() && Sound(img.g, img.groups, img.inodes, img.disk) && Neat(img.g, img.disk, img.inodes) && Typical(img.g)
  }

  /** No inode of the writer's shares a fragment. */
  lemma NoneShared(g: Geometry, groups: seq<CylGroup>, inodes: seq<Inode>, d: seq<byte>,
                   walks: seq<seq<Extent>>, state: seq<State>, i: nat)
    requires Sound(g, groups, inodes, d) && Neat(g, d, inodes) && Typical(g) && Tabled(inodes) && i < |inodes| == |walks| == |state|
    requires forall k | 0 <= k < |inodes| :: state[k] == Seen(g, inodes[k], k) && walks[k] == WalkSeen(g, d, inodes[k], k)
    ensures !HasBadRun(g, walks[i]) && !SharesFragment(g, walks, state, i)
  {
    hide Superblock.Valid, PerBlock, Claims, MetadataFits, SetAside, HasBadRun, Seen, WalkSeen, InodeOk, Kept, OwnedBy, InUse, FreeSet, Miscounted,
      Typical;
    SeenAsOwned(g, d, FreeSet(g, groups), inodes[i], i);
    forall f: nat | f in Claims(g, walks[i]) ensures !SharedClaim(g, walks, state, i, f) {
      PlusAt(multiset{}, Claims(g, walks[i]), f);
      forall j: nat | j < |walks| && j != i && Walked(state, j) ensures f !in Claims(g, walks[j]) {
        SeenAsOwned(g, d, FreeSet(g, groups), inodes[j], j);
        PlusAt(multiset{}, Claims(g, walks[j]), f);
        OwnersApart(g, groups, inodes, d, i, j);
      }
    }
  }

  lemma OwnersApart(g: Geometry, groups: seq<CylGroup>, inodes: seq<Inode>, d: seq<byte>, i: nat, j: nat)
    requires Sound(g, groups, inodes, d) && i < |inodes| && j < |inodes| && i != j
    ensures OwnedBy(g, d, inodes[i]) !! OwnedBy(g, d, inodes[j])
  {
    hide Superblock.Valid, InodeOk, OwnedBy, InUse, FreeSet;
    assert if i < j then OwnedBy(g, d, inodes[i]) !! OwnedBy(g, d, inodes[j]) else OwnedBy(g, d, inodes[j]) !! OwnedBy(g, d, inodes[i]);
  }

  /** A directory pass 2 has found. */
  function AfterPass2(s: State, found: bool): State {
    if s == Dir && found then DirFound else s
  }

  /** Some inode that pass 4 clears names fragment f when it is walked for the last time. */
  ghost predicate Released(g: Geometry, again: seq<seq<Extent>>, state: seq<State>, lncnt: seq<int>, zero: seq<bool>, lost: seq<bool>,
                           n: nat, f: nat)
    requires n <= |again| == |state| == |lncnt| == |zero| == |lost|
  {
    exists i | ROOTINO <= i < n :: Doomed(state[i], lncnt[i], zero[i], lost[i]) && f in Claims(g, again[i])
  }

  /** The states pass 4 starts from. */
  ghost function Rechecked(states: seq<State>, found: seq<bool>): (r: seq<State>)
    requires |states| == |found|
    ensures |r| == |states|
  {
    seq(|states|, i requires 0 <= i < |states| => AfterPass2(states[i], found[i]))
  }

  /** Passes 1, 1b and 4 over walks of which none is bad or shares a fragment: the map ends with what
      is set aside or claimed and that no cleared inode names. */
  method RunPasses(g: Geometry, states: seq<State>, walks: seq<seq<Extent>>, again: seq<seq<Extent>>, found: seq<bool>,
                   lncnt: seq<int>, zero: seq<bool>, lost: seq<bool>) returns (cut: bool, state: seq<State>, used: seq<bool>)
    requires MetadataFits(g) && |walks| == |again| == |states| == |found| == |lncnt| == |zero| == |lost|
    requires forall i | 0 <= i < |states| :: states[i] == Unallocated || ((states[i] == File || states[i] == Dir) && i >= ROOTINO)
    requires forall i | 0 <= i < |walks| :: !HasBadRun(g, walks[i]) && !SharesFragment(g, walks, states, i)
    ensures !cut && |state| == |walks| && |used| == g.fragCount
    ensures forall i | 0 <= i < |walks| ::
              var s := AfterPass2(states[i], found[i]);
              state[i] == if i >= ROOTINO && Doomed(s, lncnt[i], zero[i], lost[i]) then Unallocated else s
    ensures forall f | 0 <= f < g.fragCount ::
              used[f] <==> (SetAside(g, f) || exists i | 0 <= i < |walks| :: Walked(states, i) && f in Claims(g, walks[i]))
                           && !Released(g, again, Rechecked(states, found), lncnt, zero, lost, |again|, f)
  {
    hide Superblock.Valid, Claims, HasBadRun, MetadataFits, SetAside, SharesFragment, ClaimsUpto, Plus, SetAsideBag, Tally, Prefixed,
      Doomed, OutRange, Minus, GivenUp, GivesUpOwn, Released;
    var checker := new Checker(g, states);
    StartBag(g, checker.owed);
    cut := checker.FindDuplicates(walks, again);
    ghost var marked, owed := checker.state, checker.owed;
    SameWalks(g, walks, states, marked);
    NothingTwice(g, walks, states, owed);
    NothingMarked(g, walks, states, marked);
    checker.state := seq(|states|, i requires 0 <= i < |states| => AfterPass2(states[i], found[i]));
    assert checker.state == Rechecked(states, found);
    checker.Pass4(walks, again, lncnt, zero, lost);
    forall f | 0 <= f < g.fragCount
      ensures checker.used[f] <==> (SetAside(g, f) || exists i | 0 <= i < |walks| :: Walked(states, i) && f in Claims(g, walks[i]))
                                   && !Released(g, again, Rechecked(states, found), lncnt, zero, lost, |again|, f)
    {
      LeftOver(g, walks, states, owed, again, Rechecked(states, found), lncnt, zero, lost, f);
    }
    return cut, checker.state, checker.used;
  }

  /** No shared fragment, so no claim is made twice. */
  lemma NothingTwice(g: Geometry, walks: seq<seq<Extent>>, state: seq<State>, owed: multiset<nat>)
    requires |walks| == |state| && owed == Plus(SetAsideBag(g), ClaimsUpto(g, walks, state, |walks|))
    requires forall i | 0 <= i < |walks| :: !SharesFragment(g, walks, state, i)
    ensures NoneTwiceOwed(owed)
  {
    hide Claims, ClaimsUpto, SetAsideBag, SharesFragment, SetAside, Plus;
    forall f: nat ensures owed[f] <= 1 {
      PlusAt(SetAsideBag(g), ClaimsUpto(g, walks, state, |walks|), f);
      SetAsideAt(g, f);
      SomeoneClaims(g, walks, state, |walks|, f);
      if owed[f] > 1 {
        var i :| 0 <= i < |walks| && Walked(state, i) && f in Claims(g, walks[i]);
        SharedMeans(g, walks, state, i);
        LateIs(owed, Claims(g, walks[i]), f);
      }
    }
  }

  /** A claim made once is left unless it is given up. */
  lemma {:induction false} LeftOver(g: Geometry, walks: seq<seq<Extent>>, states: seq<State>, owed: multiset<nat>, again: seq<seq<Extent>>, state: seq<State>,
                 lncnt: seq<int>, zero: seq<bool>, lost: seq<bool>, f: nat)
    requires |walks| == |states| && |again| == |state| == |lncnt| == |zero| == |lost|
    requires owed == Plus(SetAsideBag(g), ClaimsUpto(g, walks, states, |walks|)) && owed[f] <= 1
    ensures Minus(owed, GivenUp(g, again, state, lncnt, zero, lost, |again|))[f] > 0
       <==> (SetAside(g, f) || exists i | 0 <= i < |walks| :: Walked(states, i) && f in Claims(g, walks[i]))
            && !Released(g, again, state, lncnt, zero, lost, |again|, f)
  {
    hide Claims, ClaimsUpto, SetAsideBag, SetAside, Plus, Minus, GivenUp, Released, Walked;
    PlusAt(SetAsideBag(g), ClaimsUpto(g, walks, states, |walks|), f);
    SetAsideAt(g, f);
    SomeoneClaims(g, walks, states, |walks|, f);
    ReleasedIs(g, again, state, lncnt, zero, lost, |again|, f);
    LastOfOne(owed, GivenUp(g, again, state, lncnt, zero, lost, |again|), f);
  }

  lemma LastOfOne(owed: multiset<nat>, claims: seq<nat>, f: nat)
    requires owed[f] <= 1
    ensures Minus(owed, claims)[f] > 0 <==> owed[f] > 0 && multiset(claims)[f] == 0
  {
  }

  lemma {:induction false} ReleasedIs(g: Geometry, again: seq<seq<Extent>>, state: seq<State>, lncnt: seq<int>, zero: seq<bool>, lost: seq<bool>,
                                      n: nat, f: nat)
    requires n <= |again| == |state| == |lncnt| == |zero| == |lost|
    ensures multiset(GivenUp(g, again, state, lncnt, zero, lost, n))[f] > 0 <==> Released(g, again, state, lncnt, zero, lost, n, f)
  {
    hide Claims, Doomed, GivenUp;
    if n == 0 {
      NothingGivenUp(g, again, state, lncnt, zero, lost);
    } else {
      ReleasedIs(g, again, state, lncnt, zero, lost, n - 1, f);
      GivenUpNext(g, again, state, lncnt, zero, lost, n - 1);
      PlusAt(multiset(GivenUp(g, again, state, lncnt, zero, lost, n - 1)), Claims(g, again[n - 1]), f);
    }
  }

  /** Every inode has the state its kind and the later passes give it. */
  ghost predicate Settled(inodes: seq<Inode>, found: seq<bool>, lncnt: seq<int>, zero: seq<bool>, lost: seq<bool>, state: seq<State>) {
    && |found| == |lncnt| == |zero| == |lost| == |state| == |inodes|
    && forall i | 0 <= i < |inodes| ::
         var s := AfterPass2(KindState(inodes[i].kind, i), found[i]);
         state[i] == if i >= ROOTINO && Doomed(s, lncnt[i], zero[i], lost[i]) then Unallocated else s
  }

  /** The map holds the reserved areas and what the inodes that stay own. */
  ghost predicate OwnersMap(g: Geometry, d: seq<byte>, inodes: seq<Inode>, state: seq<State>, used: seq<bool>) {
    && |state| == |inodes| && |used| == g.fragCount
    && forall f | 0 <= f < g.fragCount ::
         used[f] <==> SetAside(g, f) || exists i | 0 <= i < |inodes| :: Walked(state, i) && f in OwnedBy(g, d, inodes[i])
  }

  /** Pass 4 cleared the inode. */
  predicate WasCleared(inodes: seq<Inode>, state: seq<State>, i: nat)
    requires i < |inodes| == |state|
  {
    KindState(inodes[i].kind, i) != Unallocated && state[i] == Unallocated
  }

  /** No inline symlink that pass 4 cleared has words that name a fragment still in use. */
  ghost predicate Spared(g: Geometry, d: seq<byte>, inodes: seq<Inode>, state: seq<State>)
    requires Tabled(inodes) && |state| == |inodes|
  {
    forall i: nat, f: nat | i < |inodes| && WasCleared(inodes, state, i) && inodes[i].fast && f in Claims(g, CkWalk(g, d, inodes[i])) ::
      !HeldBy(g, d, inodes, state, f)
  }

  /** Fragment f is set aside or owned by an inode that stays. */
  ghost predicate HeldBy(g: Geometry, d: seq<byte>, inodes: seq<Inode>, state: seq<State>, f: nat)
    requires |state| == |inodes|
  {
    SetAside(g, f) || exists i | 0 <= i < |inodes| :: Walked(state, i) && f in OwnedBy(g, d, inodes[i])
  }

  /** Passes 1, 1b and 4 on an image the writer made: no inode is cut off or marked, no block count
      is wrong, and whatever pass 4 gives up, the map ends with exactly the reserved areas and the
      fragments of the inodes that stay, if and only if no inline symlink it clears has words that
      name one of those. */
  method CheckBlocks(img: Image, found: seq<bool>, lncnt: seq<int>, zero: seq<bool>, lost: seq<bool>)
    returns (cut: bool, miscounted: bool, partial: bool, state: seq<State>, used: seq<bool>)
    requires ImageKept(img) && |found| == |lncnt| == |zero| == |lost| == |img.inodes|
    ensures !cut && !miscounted && !partial && |state| == |img.inodes| && |used| == img.g.fragCount && Tabled(img.inodes)
    ensures Settled(img.inodes, found, lncnt, zero, lost, state)
    ensures OwnersMap(img.g, img.disk, img.inodes, state, used) <==> Spared(img.g, img.disk, img.inodes, state)
  {
    hide Superblock.Valid, CylGroup.Valid, PerBlock, Seen, WalkSeen, WalkAgain, InodeOk, Kept, OwnedBy, InUse, FreeSet, Miscounted, Claims, HasBadRun,
      MetadataFits, SetAside, SharesFragment, Superblock.Off, Sound, Neat, Doomed, Released, Spared, OwnersMap, HeldBy, Rechecked, CkWalk, Partial;
    var g, d, inodes := img.g, img.disk, img.inodes;
    SoundTabled(g, img.groups, inodes, d);
    var states, walks, again;
    states, walks, again, miscounted, partial := ScanInodes(g, d, inodes);
    NonePartial(g, d, inodes);
    forall i | 0 <= i < |inodes|
      ensures !HasBadRun(g, walks[i]) && !SharesFragment(g, walks, states, i)
      ensures states[i] == KindState(inodes[i].kind, i) && !Miscounted(g, d, inodes[i], i)
    {
      NoneShared(g, img.groups, inodes, d, walks, states, i);
      SeenInSound(g, img.groups, inodes, d, i);
    }
    cut, state, used := RunPasses(g, states, walks, again, found, lncnt, zero, lost);
    UsedByOwners(g, img.groups, inodes, d, walks, states, states);
    forall f: nat | f < g.fragCount
      ensures used[f] <==> (SetAside(g, f) || exists i | 0 <= i < |inodes| :: Walked(states, i) && f in OwnedBy(g, d, inodes[i]))
                           && !LetGo(g, inodes, again, state, f)
    {
      LetGoIs(g, inodes, states, again, found, lncnt, zero, lost, state, f);
    }
    MapExact(g, img.groups, inodes, d, again, states, state, used);
  }

  lemma NonePartial(g: Geometry, d: seq<byte>, inodes: seq<Inode>)
    requires Neat(g, d, inodes)
    ensures forall i | 0 <= i < |inodes| :: !Partial(inodes[i], i)
  {
    hide Compact, Padded;
    forall i | 0 <= i < |inodes| ensures !Partial(inodes[i], i) {
      assert Kept(g, d, inodes[i]);
    }
  }

  /** A cleared inode's last walk names fragment f. */
  ghost predicate LetGo(g: Geometry, inodes: seq<Inode>, again: seq<seq<Extent>>, state: seq<State>, f: nat)
    requires |again| == |inodes| == |state|
  {
    exists i: nat | i < |inodes| :: WasCleared(inodes, state, i) && f in Claims(g, again[i])
  }

  lemma LetGoIs(g: Geometry, inodes: seq<Inode>, states: seq<State>, again: seq<seq<Extent>>, found: seq<bool>,
                lncnt: seq<int>, zero: seq<bool>, lost: seq<bool>, state: seq<State>, f: nat)
    requires |inodes| == |states| == |again| == |found| == |lncnt| == |zero| == |lost| == |state|
    requires forall i | 0 <= i < |inodes| :: states[i] == KindState(inodes[i].kind, i)
    requires forall i | 0 <= i < |inodes| ::
              var s := AfterPass2(states[i], found[i]);
              state[i] == if i >= ROOTINO && Doomed(s, lncnt[i], zero[i], lost[i]) then Unallocated else s
    ensures Released(g, again, Rechecked(states, found), lncnt, zero, lost, |again|, f) <==> LetGo(g, inodes, again, state, f)
  {
    hide Claims, Doomed;
    forall i: nat | i < |inodes|
      ensures WasCleared(inodes, state, i)
         <==> i >= ROOTINO && Doomed(Rechecked(states, found)[i], lncnt[i], zero[i], lost[i])
    {
      DoomedAllocated(Rechecked(states, found)[i], lncnt[i], zero[i], lost[i]);
    }
  }

  lemma DoomedAllocated(s: State, lncnt: int, zero: bool, lost: bool)
    ensures Doomed(s, lncnt, zero, lost) ==> s != Unallocated
  {
  }

  /** What a cleared inode that is no inline symlink lets go is its own. */
  lemma MapExact(g: Geometry, groups: seq<CylGroup>, inodes: seq<Inode>, d: seq<byte>, again: seq<seq<Extent>>,
                 states: seq<State>, state: seq<State>, used: seq<bool>)
    requires Sound(g, groups, inodes, d) && Neat(g, d, inodes) && Typical(g) && Tabled(inodes)
    requires |inodes| == |again| == |states| == |state| && |used| == g.fragCount
    requires forall i | 0 <= i < |inodes| :: states[i] == KindState(inodes[i].kind, i) == Seen(g, inodes[i], i)
    requires forall i | 0 <= i < |inodes| :: again[i] == WalkAgain(g, d, inodes[i], i)
    requires forall i | 0 <= i < |inodes| :: states[i] == Unallocated ==> state[i] == Unallocated
    requires forall f: nat | f < g.fragCount ::
              used[f] <==> (SetAside(g, f) || exists i | 0 <= i < |inodes| :: Walked(states, i) && f in OwnedBy(g, d, inodes[i]))
                           && !LetGo(g, inodes, again, state, f)
    ensures OwnersMap(g, d, inodes, state, used) <==> Spared(g, d, inodes, state)
  {
    hide Superblock.Valid, PerBlock, Claims, MetadataFits, SetAside, HasBadRun, Seen, InodeOk, Kept, OwnedBy, InUse, FreeSet, Miscounted,
      CkWalk, LetGo, HeldBy, Sound, Neat, WalkAgain;
    if Spared(g, d, inodes, state) {
      forall f: nat | f < g.fragCount ensures used[f] <==> HeldBy(g, d, inodes, state, f) {
        SparedAt(g, groups, inodes, d, again, states, state, f);
      }
      assert OwnersMap(g, d, inodes, state, used) by { HeldIsOwned(g, d, inodes, state, used); }
    } else {
      var i: nat, f: nat :| i < |inodes| && WasCleared(inodes, state, i) && inodes[i].fast && f in Claims(g, CkWalk(g, d, inodes[i]))
                            && HeldBy(g, d, inodes, state, f);
      ClaimsInside(g, CkWalk(g, d, inodes[i]), f);
      assert states[i] == Seen(g, inodes[i], i);
      assert again[i] == CkWalk(g, d, inodes[i]) by { AgainIs(g, d, inodes[i], i); }
      assert LetGo(g, inodes, again, state, f) by { LetGoBy(g, inodes, again, state, i, f); }
      NotOwners(g, d, inodes, state, used, f);
    }
  }

  lemma AgainIs(g: Geometry, d: seq<byte>, ino: Inode, i: nat)
    requires ino.Shaped() && PerBlock(g) > 1 && Seen(g, ino, i) != Unallocated
    ensures WalkAgain(g, d, ino, i) == CkWalk(g, d, ino) && (!ino.fast ==> WalkSeen(g, d, ino, i) == CkWalk(g, d, ino))
  {
    hide Seen, CkWalk, PerBlock;
  }

  lemma LetGoBy(g: Geometry, inodes: seq<Inode>, again: seq<seq<Extent>>, state: seq<State>, i: nat, f: nat)
    requires |again| == |inodes| == |state| && i < |inodes| && WasCleared(inodes, state, i) && f in Claims(g, again[i])
    ensures LetGo(g, inodes, again, state, f)
  {
    hide Claims;
  }

  lemma HeldIsOwned(g: Geometry, d: seq<byte>, inodes: seq<Inode>, state: seq<State>, used: seq<bool>)
    requires |state| == |inodes| && |used| == g.fragCount
    requires forall f: nat | f < g.fragCount :: used[f] <==> HeldBy(g, d, inodes, state, f)
    ensures OwnersMap(g, d, inodes, state, used)
  {
    hide SetAside, OwnedBy, Walked;
  }

  lemma NotOwners(g: Geometry, d: seq<byte>, inodes: seq<Inode>, state: seq<State>, used: seq<bool>, f: nat)
    requires |state| == |inodes| && |used| == g.fragCount && f < g.fragCount && !used[f] && HeldBy(g, d, inodes, state, f)
    ensures !OwnersMap(g, d, inodes, state, used)
  {
    hide SetAside, OwnedBy, Walked;
  }

  lemma {:induction false} ClaimsInside(g: Geometry, xs: seq<Extent>, f: nat)
    requires f in Claims(g, xs)
    ensures f < g.fragCount
    decreases |xs|
  {
    hide RunClaims;
    if f in Claims(g, xs[..|xs| - 1]) {
      ClaimsInside(g, xs[..|xs| - 1], f);
    } else {
      RunClaimsInside(g, xs[|xs| - 1].at, xs[|xs| - 1].n, f);
    }
  }

  lemma {:induction false} RunClaimsInside(g: Geometry, at: nat, n: nat, f: nat)
    requires f in RunClaims(g, at, n)
    ensures f < g.fragCount
  {
    if InRange(g, at + n - 1) && f == at + n - 1 {
      EndsOnDisk(g, f, 1);
    } else {
      RunClaimsInside(g, at, n - 1, f);
    }
  }

  lemma SparedAt(g: Geometry, groups: seq<CylGroup>, inodes: seq<Inode>, d: seq<byte>, again: seq<seq<Extent>>,
                 states: seq<State>, state: seq<State>, f: nat)
    requires Sound(g, groups, inodes, d) && Neat(g, d, inodes) && Typical(g) && Tabled(inodes)
    requires |inodes| == |again| == |states| == |state| && f < g.fragCount && Spared(g, d, inodes, state)
    requires forall i | 0 <= i < |inodes| :: states[i] == KindState(inodes[i].kind, i) == Seen(g, inodes[i], i)
    requires forall i | 0 <= i < |inodes| :: again[i] == WalkAgain(g, d, inodes[i], i)
    requires forall i | 0 <= i < |inodes| :: states[i] == Unallocated ==> state[i] == Unallocated
    ensures HeldBy(g, d, inodes, state, f)
       <==> (SetAside(g, f) || exists i | 0 <= i < |inodes| :: Walked(states, i) && f in OwnedBy(g, d, inodes[i]))
            && !LetGo(g, inodes, again, state, f)
  {
    hide Superblock.Valid, PerBlock, Claims, MetadataFits, SetAside, HasBadRun, Seen, InodeOk, Kept, OwnedBy, InUse, FreeSet, Miscounted,
      Typical, CkWalk, Sound, Neat, WalkAgain, WalkSeen;
    forall i: nat | i < |inodes| && WasCleared(inodes, state, i)
      ensures !inodes[i].fast ==> (f in Claims(g, again[i]) <==> f in OwnedBy(g, d, inodes[i]))
      ensures inodes[i].fast ==> f !in OwnedBy(g, d, inodes[i]) && again[i] == CkWalk(g, d, inodes[i])
      ensures f in OwnedBy(g, d, inodes[i]) ==> !SetAside(g, f)
    {
      ClearedOwns(g, groups, inodes, d, i, f);
    }
    forall i: nat, j: nat | i < |inodes| && j < |inodes| && i != j ensures OwnedBy(g, d, inodes[i]) !! OwnedBy(g, d, inodes[j]) {
      OwnersApart(g, groups, inodes, d, i, j);
    }
  }

  lemma ClearedOwns(g: Geometry, groups: seq<CylGroup>, inodes: seq<Inode>, d: seq<byte>, i: nat, f: nat)
    requires Sound(g, groups, inodes, d) && Neat(g, d, inodes) && Typical(g) && Tabled(inodes) && i < |inodes|
    requires Seen(g, inodes[i], i) != Unallocated
    ensures !inodes[i].fast ==> (f in Claims(g, WalkAgain(g, d, inodes[i], i)) <==> f in OwnedBy(g, d, inodes[i]))
    ensures inodes[i].fast ==> f !in OwnedBy(g, d, inodes[i]) && WalkAgain(g, d, inodes[i], i) == CkWalk(g, d, inodes[i])
    ensures f in OwnedBy(g, d, inodes[i]) ==> !SetAside(g, f)
  {
    hide Superblock.Valid, PerBlock, Claims, MetadataFits, SetAside, HasBadRun, Seen, InodeOk, InUse, FreeSet, Miscounted, CkWalk, WalkSeen,
      WalkAgain, Compact, Owned, Plausible;
    AgainIs(g, d, inodes[i], i);
    SeenAsOwned(g, d, FreeSet(g, groups), inodes[i], i);
    PlusAt(multiset{}, Claims(g, WalkSeen(g, d, inodes[i], i)), f);
    assert Kept(g, d, inodes[i]);
  }

  // ---- inline texts as block addresses ----

  /** An image of fewer fragments than the least word such a text can make. */
  predicate Small(g: Geometry) {
    g.fragCount <= 0x100_0000
  }

  lemma WordOf(bs: seq<byte>)
    requires |bs| == 4 && (bs[0] == 0 ==> bs == [0, 0, 0, 0])
    ensures ReadBe32(bs) == 0 || ReadBe32(bs) >= 0x100_0000
  {
  }

  lemma {:induction false} WordsBig(bs: seq<byte>, n: nat)
    requires |bs| % 4 == 0 && n <= |bs| && (forall k | 0 <= k < n :: bs[k] != 0) && forall k | n <= k < |bs| :: bs[k] == 0
    ensures forall w | w in Words(bs) :: w == 0 || w >= 0x100_0000
    decreases |bs|
  {
    hide ReadBe32;
    if bs != [] {
      WordOf(bs[..4]);
      WordsBig(bs[4..], if n < 4 then 0 else n - 4);
    }
  }

  /** Where every word of a symlink is zero or past the end of the image, its walk claims nothing. */
  lemma FarWords(g: Geometry, d: seq<byte>, ino: Inode)
    requires ino.Shaped()
    requires (forall w | w in ino.db :: w == 0 || w >= g.fragCount) && forall w | w in ino.ib :: w == 0 || w >= g.fragCount
    ensures Claims(g, CkWalk(g, d, ino)) == []
  {
    hide Superblock.Valid, Claims, TreeOf;
    NothingClaimed(g, []);
    if ino.kind != Special {
      FarDirect(g, ino, NDADDR);
      FarSlots(g, d, ino, NIADDR);
      NothingClaimed(g, DirectWalk(g, ino, NDADDR) + SlotsWalk(g, d, ino, NIADDR));
    }
  }

  ghost predicate Far(g: Geometry, xs: seq<Extent>) {
    forall k | 0 <= k < |xs| :: xs[k].at >= g.fragCount
  }

  lemma {:induction false} FarDirect(g: Geometry, ino: Inode, k: nat)
    requires ino.Shaped() && k <= NDADDR && forall w | w in ino.db :: w == 0 || w >= g.fragCount
    ensures Far(g, DirectWalk(g, ino, k))
  {
    if k > 0 {
      FarDirect(g, ino, k - 1);
      assert ino.db[k - 1] in ino.db;
    }
  }

  lemma {:induction false} FarSlots(g: Geometry, d: seq<byte>, ino: Inode, k: nat)
    requires ino.Shaped() && k <= NIADDR && forall w | w in ino.ib :: w == 0 || w >= g.fragCount
    ensures Far(g, SlotsWalk(g, d, ino, k))
  {
    hide Superblock.Valid, Start, IWalk, TreeOf;
    if k > 0 {
      FarSlots(g, d, ino, k - 1);
      assert ino.ib[k - 1] in ino.ib;
      FarTree(g, d, ino.ib[k - 1], k, ino.size - Start(g, NDADDR));
    }
  }

  lemma FarTree(g: Geometry, d: seq<byte>, root: nat, level: nat, isize: int)
    requires level > 0 && (root == 0 || root >= g.fragCount)
    ensures Far(g, IWalk(g, TreeOf(g, d, root, level), level, isize))
  {
    hide Superblock.Valid, TreeOf, NifAt, Below;
    NoBlock(g, d, level);
    if root != 0 {
      BlockIs(g, d, root, level);
      FarOut(g, root, g.fpb);
      NothingBelow(g, TreeOf(g, d, root, level), level, isize);
    }
  }

  lemma FarOut(g: Geometry, f: nat, n: nat)
    requires f >= g.fragCount && n > 0
    ensures OutRange(g, f, n)
  {
  }

  lemma {:induction false} NothingClaimed(g: Geometry, xs: seq<Extent>)
    requires Far(g, xs)
    ensures Claims(g, xs) == []
    decreases |xs|
  {
    if xs != [] {
      NothingClaimed(g, xs[..|xs| - 1]);
      NoneInRun(g, xs[|xs| - 1].at, xs[|xs| - 1].n);
    }
  }

  lemma {:induction false} NoneInRun(g: Geometry, f: nat, n: nat)
    requires f >= g.fragCount
    ensures RunClaims(g, f, n) == []
  {
    if n > 0 {
      NoneInRun(g, f, n - 1);
      FarOut(g, f + n - 1, 1);
    }
  }

  /** On a small image a plain text names nothing. */
  lemma PlainNamesNothing(g: Geometry, d: seq<byte>, ino: Inode)
    requires Small(g) && Padded(ino) && Plain(InlineText(ino))
    ensures Claims(g, CkWalk(g, d, ino)) == []
  {
    hide Superblock.Valid, Claims, CkWalk, Words, Unwords;
    var text := InlineText(ino);
    WordsBig(ZeroPadded(text, INLINE_MAX), |text|);
    assert ino.db + ino.ib == Words(ZeroPadded(text, INLINE_MAX));
    forall w | w in ino.db || w in ino.ib ensures w == 0 || w >= g.fragCount {
      assert w in ino.db + ino.ib;
    }
    FarWords(g, d, ino);
  }

  /** So if every inline text is plain, the map is exact whatever pass 4 clears. */
  lemma PlainIsSpared(g: Geometry, d: seq<byte>, inodes: seq<Inode>, state: seq<State>)
    requires Small(g) && Tabled(inodes) && |state| == |inodes| && Neat(g, d, inodes)
    requires forall i | 0 <= i < |inodes| && inodes[i].fast :: Plain(InlineText(inodes[i]))
    ensures Spared(g, d, inodes, state)
  {
    hide Superblock.Valid, Claims, CkWalk, HeldBy, Compact, Padded, InlineText;
    forall i: nat | i < |inodes| && inodes[i].fast ensures Claims(g, CkWalk(g, d, inodes[i])) == [] {
      assert Kept(g, d, inodes[i]);
      PlainNamesNothing(g, d, inodes[i]);
    }
  }

  lemma {:induction false} ClaimsHas(g: Geometry, xs: seq<Extent>, k: nat, f: nat)
    requires k < |xs| && f in RunClaims(g, xs[k].at, xs[k].n)
    ensures f in Claims(g, xs)
    decreases |xs|
  {
    hide RunClaims;
    if k < |xs| - 1 {
      ClaimsHas(g, xs[..|xs| - 1], k, f);
    }
  }

  lemma {:induction false} RunHasFirst(g: Geometry, f: nat, n: nat)
    requires n > 0 && InRange(g, f)
    ensures f in RunClaims(g, f, n)
  {
    if n > 1 {
      RunHasFirst(g, f, n - 1);
    }
  }

  lemma {:induction false} FirstPointer(g: Geometry, ino: Inode, k: nat)
    requires ino.Shaped() && 0 < k <= NDADDR && ino.db[0] != 0
    ensures |DirectWalk(g, ino, k)| > 0 && DirectWalk(g, ino, k)[0] == Extent(ino.db[0], RunLen(g, ino.size, 0))
  {
    if k > 1 {
      FirstPointer(g, ino, k - 1);
    } else {
      assert DirectWalk(g, ino, 0) == [];
    }
  }

  /** A text that is not plain can name a fragment: the walk of the text 1, 1, 1, 1 starts at
      fragment 0x01010101. */
  lemma SymlinkNamesFragment(g: Geometry, d: seq<byte>, ino: Inode)
    requires ino.Shaped() && ino.kind == Symlink && ino.fast && InRange(g, 0x101_0101)
    requires ino.size == 4 && InlineText(ino) == [1, 1, 1, 1] && Padded(ino)
    ensures 0x101_0101 in Claims(g, CkWalk(g, d, ino))
  {
    hide Superblock.Valid, Claims, SlotsWalk, DirectWalk, InRange, Unwords;
    assert Words(ZeroPadded([1, 1, 1, 1], INLINE_MAX))[0] == ReadBe32([1, 1, 1, 1]) == 0x101_0101;
    assert ino.db[0] == 0x101_0101;
    FirstPointer(g, ino, NDADDR);
    FirstRunLen(g, 4);
    RunHasFirst(g, 0x101_0101, RunLen(g, 4, 0));
    ClaimsHas(g, CkWalk(g, d, ino), 0, 0x101_0101);
  }

  /** Clearing such a symlink spoils the map when an inode that stays owns that fragment. */
  lemma SymlinkSpoils(g: Geometry, d: seq<byte>, inodes: seq<Inode>, state: seq<State>, i: nat, k: nat)
    requires Tabled(inodes) && |state| == |inodes| && i < |inodes| && k < |inodes| && InRange(g, 0x101_0101)
    requires inodes[i].kind == Symlink && inodes[i].fast && inodes[i].size == 4 && InlineText(inodes[i]) == [1, 1, 1, 1] && Padded(inodes[i])
    requires WasCleared(inodes, state, i) && Walked(state, k) && 0x101_0101 in OwnedBy(g, d, inodes[k])
    ensures !Spared(g, d, inodes, state)
  {
    hide Superblock.Valid, Claims, CkWalk, InRange, Unwords, OwnedBy, SetAside;
    SymlinkNamesFragment(g, d, inodes[i]);
    assert HeldBy(g, d, inodes, state, 0x101_0101);
  }

  lemma FirstRunLen(g: Geometry, size: nat)
    requires size > 0
    ensures RunLen(g, size, 0) > 0
  {
    hide Superblock.Valid, BlockSize;
    if size % BlockSize(g) != 0 {
      DivLeast(size % BlockSize(g), g.fragSize);
    }
  }

  lemma DivLeast(x: nat, m: pos)
    requires x > 0
    ensures (x + m - 1) / m > 0
  {
    QuotientAtLeast(x + m - 1, 1, m);
  }

  lemma SeenInSound(g: Geometry, groups: seq<CylGroup>, inodes: seq<Inode>, d: seq<byte>, i: nat)
    requires Sound(g, groups, inodes, d) && Neat(g, d, inodes) && Typical(g) && Tabled(inodes) && i < |inodes|
    ensures Seen(g, inodes[i], i) == KindState(inodes[i].kind, i) && !Miscounted(g, d, inodes[i], i)
  {
    hide Superblock.Valid, PerBlock, Seen, InodeOk, Kept, OwnedBy, InUse, FreeSet, Miscounted, Typical, Claims, SetAside, HasBadRun, WalkSeen;
    SeenAsOwned(g, d, FreeSet(g, groups), inodes[i], i);
  }

  function KindState(k: Kind, i: nat): State {
    if i < ROOTINO || k == Unused then Unallocated else if k == Directory then Dir else File
  }

  lemma SoundTabled(g: Geometry, groups: seq<CylGroup>, inodes: seq<Inode>, d: seq<byte>)
    requires Sound(g, groups, inodes, d)
    ensures Tabled(inodes)
  {
    hide Superblock.Valid, FileOk, Owned, TooLong, FreeSet, InUse;
    forall i | 0 <= i < |inodes| ensures inodes[i].Shaped() {
      assert InodeOk(g, d, FreeSet(g, groups), inodes[i]);
    }
  }

  lemma StartBag(g: Geometry, owed: multiset<nat>)
    requires forall f: nat :: owed[f] == if SetAside(g, f) then 1 else 0
    ensures owed == SetAsideBag(g)
  {
    hide SetAside;
  }

  /** Nothing is bad, so every state is as it was. */
  lemma NothingMarked(g: Geometry, walks: seq<seq<Extent>>, was: seq<State>, now: seq<State>)
    requires |walks| == |was| == |now| && forall i | 0 <= i < |walks| :: Rested(was[i], now[i])
    requires forall i | 0 <= i < |walks| :: was[i] == Unallocated || was[i] == File || was[i] == Dir
    requires forall i | 0 <= i < |walks| && Walked(was, i) :: !Bad(now[i])
    requires forall i: nat | i < |walks| && i < ROOTINO :: was[i] == Unallocated
    ensures now == was
  {
    forall i | 0 <= i < |was| ensures now[i] == was[i] {
      assert Rested(was[i], now[i]);
    }
  }

  lemma SameWalked(g: Geometry, walks: seq<seq<Extent>>, a: seq<State>, b: seq<State>)
    requires |walks| == |a| == |b| && forall i | 0 <= i < |a| :: a[i] == Unallocated <==> b[i] == Unallocated
    ensures ClaimsUpto(g, walks, a, |walks|) == ClaimsUpto(g, walks, b, |walks|)
  {
    hide Claims;
    for k := 0 to |walks|
      invariant ClaimsUpto(g, walks, a, k) == ClaimsUpto(g, walks, b, k)
    {
    }
  }

  /** A surviving inode claims what it owns. */
  lemma UsedByOwners(g: Geometry, groups: seq<CylGroup>, inodes: seq<Inode>, d: seq<byte>,
                     walks: seq<seq<Extent>>, state: seq<State>, left: seq<State>)
    requires Sound(g, groups, inodes, d) && Neat(g, d, inodes) && Typical(g) && Tabled(inodes) && |inodes| == |walks| == |state| == |left|
    requires forall k | 0 <= k < |inodes| :: state[k] == Seen(g, inodes[k], k) && walks[k] == WalkSeen(g, d, inodes[k], k)
    requires forall k | 0 <= k < |inodes| :: left[k] != Unallocated ==> state[k] != Unallocated
    ensures forall f: nat, i: nat | i < |inodes| && Walked(left, i) :: f in Claims(g, walks[i]) <==> f in OwnedBy(g, d, inodes[i])
  {
    hide Superblock.Valid, PerBlock, Claims, MetadataFits, SetAside, HasBadRun, Seen, WalkSeen, InodeOk, Kept, OwnedBy, InUse, FreeSet, Miscounted,
      Typical;
    forall f: nat, i: nat | i < |inodes| && Walked(left, i) ensures f in Claims(g, walks[i]) <==> f in OwnedBy(g, d, inodes[i]) {
      SeenAsOwned(g, d, FreeSet(g, groups), inodes[i], i);
      PlusAt(multiset{}, Claims(g, walks[i]), f);
    }
  }
}
