/** Growing an image, formatting a group, and the recount of fsck's pass 5: three ways to the same
    cylinder group. */
module Grow {
  import opened Geometry
  import opened FreeMap
  import opened Image
  import opened Alloc
  import opened Inodes
  import opened FsckClaims

  // ---- counters are determined by the map ----

  /** Two groups with the same map, counted, have the same counters. */
  lemma CountsDetermined(g: Geometry, a: CylGroup, b: CylGroup)
    requires a.Counted(g) && b.Counted(g) && a.free == b.free
    requires forall s | 0 <= s < MAX_FRAG && !(1 <= s < g.fpb) :: a.frsum[s] == b.frsum[s]
    ensures a.frsum == b.frsum && a.btot == b.btot && a.b == b.b
    ensures a.cs.nbfree == b.cs.nbfree && a.cs.nffree == b.cs.nffree
  {
    hide Superblock.Valid, Recount;
    assert a.Counter(g, NBFree) == b.Counter(g, NBFree) && a.Counter(g, NFFree) == b.Counter(g, NFFree);
    forall s | 0 <= s < MAX_FRAG ensures a.frsum[s] == b.frsum[s] {
      if 1 <= s < g.fpb {
        assert a.Counter(g, FrSum(s)) == b.Counter(g, FrSum(s));
      }
    }
    forall c | 0 <= c < MAX_CPG ensures a.btot[c] == b.btot[c] && a.b[c] == b.b[c] {
      assert a.Counter(g, BTot(c)) == b.Counter(g, BTot(c));
      forall p | 0 <= p < NRPOS ensures a.b[c][p] == b.b[c][p] {
        assert a.Counter(g, BPos(c, p)) == b.Counter(g, BPos(c, p));
      }
    }
  }

  /** The two free counters of a counted group cover its map. */
  lemma CountedCovers(g: Geometry, a: CylGroup)
    requires a.Counted(g)
    ensures g.fpb * a.cs.nbfree + a.cs.nffree == PopCount(a.free)
  {
    hide Superblock.Valid, Recount, PopCount;
    CountersCoverMap(g, a.free, 0);
    assert a.Counter(g, NBFree) == Recount(g, a.free, 0, NBFree);
    assert a.Counter(g, NFFree) == Recount(g, a.free, 0, NFFree);
    assert a.free[0..] == a.free;
  }

  // ---- adding a free range ----

  /** The other fields of a group, which its free range has nothing to do with. */
  ghost predicate OnlyFreeSide(g: Geometry, a: CylGroup, b: CylGroup) {
    && |a.frsum| == |b.frsum| == MAX_FRAG
    && b == a.(free := b.free, frsum := b.frsum, btot := b.btot, b := b.b,
               cs := a.cs.(nbfree := b.cs.nbfree, nffree := b.cs.nffree))
    && forall s | 0 <= s < MAX_FRAG && !(1 <= s < g.fpb) :: b.frsum[s] == a.frsum[s]
  }

  /** add_free_frag_range: fragments [start, end) become free, block by block; the deltas it reports
      are applied to the group's own counters here. */
  method AddFreeRange(g: Geometry, buf: CylGroup, start: nat, end: nat) returns (r: Option<CylGroup>)
    requires buf.Counted(g)
    ensures r.None? <==> start > end || end > g.fpg || exists i :: start <= i < end && buf.free[i]
    ensures r.Some? ==> r.value.Counted(g) && OnlyFreeSide(g, buf, r.value) && r.value.free == Fill(buf.free, start, end - start, true)
  {
    hide Superblock.Valid, Recount, Superblock.FragNum, CylGroup.Counted;
    CountedShape(g, buf);
    if start > end || end > g.fpg {
      return None;
    }
    var pos, cur := start, buf;
    assert Fill(buf.free, start, 0, true) == buf.free;
    while pos < end
      invariant start <= pos <= end && cur.Counted(g) && OnlyFreeSide(g, buf, cur) && |cur.free| == g.fpg
      invariant cur.free == Fill(buf.free, start, pos - start, true)
      invariant forall i | start <= i < pos :: !buf.free[i]
    {
      var block := g.BlkNum(pos);
      BlockAround(g, pos);
      var addEnd := if end < block + g.fpb then end else block + g.fpb;
      var next := ReturnRun(g, cur, block, pos, addEnd - pos);
      FilledMore(buf.free, start, pos, addEnd);
      if next.None? {
        var i :| pos <= i < addEnd && cur.free[i];
        assert buf.free[i];
        return None;
      }
      CountedShape(g, next.value);
      pos, cur := addEnd, next.value;
    }
    return Some(cur);
  }

  lemma CountedShape(g: Geometry, a: CylGroup)
    requires a.Counted(g)
    ensures a.Shaped(g) && |a.free| == g.fpg && |a.frsum| == MAX_FRAG
  {
  }

  lemma BlockAround(g: Geometry, pos: nat)
    requires pos < g.fpg
    ensures g.Aligned(g.BlkNum(pos)) && 0 <= g.BlkNum(pos) <= pos < g.BlkNum(pos) + g.fpb <= g.fpg
  {
    var q := pos / g.fpb;
    assert pos == q * g.fpb + pos % g.fpb;
    MulMod(q, g.fpb);
    NextBlock(g, g.BlkNum(pos));
  }

  lemma FilledMore(free: seq<bool>, start: nat, pos: nat, end: nat)
    requires start <= pos <= end <= |free|
    ensures Fill(Fill(free, start, pos - start, true), pos, end - pos, true) == Fill(free, start, end - start, true)
    ensures forall i | pos <= i < end :: Fill(free, start, pos - start, true)[i] == free[i]
  {
  }

  /** Conservation: what the two counters gain, weighted, is the number of fragments added. */
  lemma RangeConserves(g: Geometry, a: CylGroup, b: CylGroup, start: nat, end: nat)
    requires a.Counted(g) && b.Counted(g) && start <= end <= g.fpg && b.free == Fill(a.free, start, end - start, true)
    requires forall i | start <= i < end :: !a.free[i]
    ensures g.fpb * (b.cs.nbfree - a.cs.nbfree) + (b.cs.nffree - a.cs.nffree) == end - start
  {
    hide Superblock.Valid, Recount, PopCount, CylGroup.Counted;
    CountedShape(g, a);
    CountedCovers(g, a);
    CountedCovers(g, b);
    assert a.free == Fill(b.free, start, end - start, false);
    PopCountFill(b.free, start, end - start);
    DistributeDiff(g.fpb, b.cs.nbfree, a.cs.nbfree);
  }

  lemma DistributeDiff(m: nat, a: int, b: int)
    ensures m * (a - b) == m * a - m * b
  {
  }

  /** Extending in two steps is extending in one. */
  lemma TwoSteps(g: Geometry, a: CylGroup, m: CylGroup, two: CylGroup, one: CylGroup, start: nat, mid: nat, end: nat)
    requires a.Counted(g) && start <= mid <= end <= g.fpg
    requires m.Counted(g) && OnlyFreeSide(g, a, m) && m.free == Fill(a.free, start, mid - start, true)
    requires two.Counted(g) && OnlyFreeSide(g, m, two) && two.free == Fill(m.free, mid, end - mid, true)
    requires one.Counted(g) && OnlyFreeSide(g, a, one) && one.free == Fill(a.free, start, end - start, true)
    ensures two == one
  {
    hide Superblock.Valid, CylGroup.Counted;
    CountedShape(g, a);
    FilledMore(a.free, start, mid, end);
    CountsDetermined(g, two, one);
  }

  // ---- taking a free range out of use ----

  /** count_free_bits. */
  method CountFreeBits(free: seq<bool>, start: nat, n: nat) returns (total: nat)
    requires start + n <= |free|
    ensures total == PopCount(Slice(free, start, n))
  {
    total := 0;
    ghost var bs := Slice(free, start, n);
    for i := 0 to n
      invariant total == PopCount(bs[..i])
    {
      assert bs[..i + 1] == bs[..i] + [bs[i]];
      PopCountConcat(bs[..i], [bs[i]]);
      if free[start + i] {
        total := total + 1;
      }
    }
    assert bs[..n] == bs;
  }

  /** The loop body of reserve_summary_extension: part of one block goes out of use. */
  method ClearPart(g: Geometry, buf: CylGroup, block: nat, start: nat, n: nat) returns (r: Option<CylGroup>)
    requires buf.Counted(g) && 0 < n && g.Aligned(block) && block + g.fpb <= g.fpg
    requires block <= start && start + n <= block + g.fpb
    ensures r.None? <==> exists i :: start <= i < start + n && !buf.free[i]
    ensures r.Some? ==> r.value.Counted(g) && OnlyFreeSide(g, buf, r.value) && r.value.free == Fill(buf.free, start, n, false)
  {
    for i := 0 to n
      invariant forall j | start <= j < start + i :: buf.free[j]
    {
      if !buf.free[start + i] {
        return None;
      }
    }
    var beforeFree := CountFreeBits(buf.free, block, g.fpb);
    var before := CountFreeRuns(buf.free, block, g.fpb);
    var free := WriteRun(buf.free, start, n, false);
    var afterFree := CountFreeBits(free, block, g.fpb);
    var after := CountFreeRuns(free, block, g.fpb);
    var frsum := ApplyFrsumDelta(buf.frsum, before, after, g.fpb);
    var x := buf.(free := free, frsum := frsum);
    var whole := beforeFree == g.fpb;
    ClearedWhole(buf.free, block, start, n, g.fpb);
    if whole && afterFree != g.fpb {
      x := x.(cs := x.cs.(nbfree := x.cs.nbfree - 1, nffree := x.cs.nffree + afterFree));
      x := AdjustRotation(g, x, block, -1);
    } else {
      x := x.(cs := x.cs.(nffree := x.cs.nffree + afterFree - beforeFree));
    }
    ClearPartCounts(g, buf, x, block, start, n, whole);
    return Some(x);
  }

  lemma ClearedWhole(free: seq<bool>, block: nat, start: nat, n: nat, fpb: nat)
    requires 0 < n && block <= start && start + n <= block + fpb <= |free|
    ensures PopCount(Slice(Fill(free, start, n, false), block, fpb)) != fpb
    ensures PopCount(Slice(free, block, fpb)) == fpb <==> AllFree(Slice(free, block, fpb))
  {
    var bs := Slice(Fill(free, start, n, false), block, fpb);
    assert !bs[start - block];
    PopCountAll(bs);
    PopCountAll(Slice(free, block, fpb));
  }

  lemma ClearPartCounts(g: Geometry, a: CylGroup, b: CylGroup, block: nat, start: nat, n: nat, whole: bool)
    requires a.Counted(g) && b.Shaped(g) && 0 < n && g.Aligned(block) && block + g.fpb <= g.fpg
    requires block <= start && start + n <= block + g.fpb
    requires b.free == Fill(a.free, start, n, false)
    requires whole <==> AllFree(Slice(a.free, block, g.fpb))
    requires b.cs.nbfree == a.cs.nbfree - if whole then 1 else 0
    requires b.cs.nffree == a.cs.nffree + PopCount(Slice(b.free, block, g.fpb)) - if whole then 0 else PopCount(Slice(a.free, block, g.fpb))
    requires forall s | 1 <= s < g.fpb :: b.frsum[s] == a.frsum[s]
               + Runs(Slice(b.free, block, g.fpb), s) - Runs(Slice(a.free, block, g.fpb), s)
    requires forall c | 0 <= c < MAX_CPG :: b.btot[c] == a.btot[c] - if whole && c == g.CylNo(block) then 1 else 0
    requires forall c, p | 0 <= c < MAX_CPG && 0 <= p < NRPOS ::
               b.b[c][p] == a.b[c][p] - if whole && c == g.CylNo(block) && p == g.RotPos(block) then 1 else 0
    ensures b.Counted(g)
  {
    hide Superblock.Valid, RunsFrom, PopCount, Superblock.CylNo, Superblock.RotPos;
    var new_ := Slice(b.free, block, g.fpb);
    FillInBlock(g, a.free, block, start, n, false);
    assert !new_[start - block];
    CountedAfter(g, a, b, block);
  }

  /** The loop of reserve_summary_extension over [pos, end). */
  method ClearRange(g: Geometry, buf: CylGroup, start: nat, end: nat) returns (r: Option<CylGroup>)
    requires buf.Counted(g) && start <= end <= g.fpg
    ensures r.None? <==> exists i :: start <= i < end && !buf.free[i]
    ensures r.Some? ==> r.value.Counted(g) && OnlyFreeSide(g, buf, r.value) && r.value.free == Fill(buf.free, start, end - start, false)
  {
    hide Superblock.Valid, Recount, Superblock.FragNum, CylGroup.Counted;
    CountedShape(g, buf);
    var pos, cur := start, buf;
    assert Fill(buf.free, start, 0, false) == buf.free;
    while pos < end
      invariant start <= pos <= end && cur.Counted(g) && OnlyFreeSide(g, buf, cur) && |cur.free| == g.fpg
      invariant cur.free == Fill(buf.free, start, pos - start, false)
      invariant forall i | start <= i < pos :: buf.free[i]
    {
      var block := g.BlkNum(pos);
      BlockAround(g, pos);
      var clearEnd := if end < block + g.fpb then end else block + g.fpb;
      var next := ClearPart(g, cur, block, pos, clearEnd - pos);
      if next.None? {
        var i :| pos <= i < clearEnd && !cur.free[i];
        assert !buf.free[i];
        return None;
      }
      CountedShape(g, next.value);
      ClearedMore(buf.free, start, pos, clearEnd);
      pos, cur := clearEnd, next.value;
    }
    return Some(cur);
  }

  lemma ClearedMore(free: seq<bool>, start: nat, pos: nat, end: nat)
    requires start <= pos <= end <= |free|
    ensures Fill(Fill(free, start, pos - start, false), pos, end - pos, false) == Fill(free, start, end - start, false)
    ensures forall i | pos <= i < end :: Fill(free, start, pos - start, false)[i] == free[i]
  {
  }

  // ---- a new group ----

  /** A cleared group buffer (memset, and the zeroing of acg's counters). */
  function ZeroCg(g: Geometry): CylGroup {
    CylGroup(0, Csum(0, 0, 0, 0), 0, 0,
             [0, 0, 0, 0, 0, 0, 0, 0], seq(MAX_CPG, _ => 0), seq(MAX_CPG, _ => [0, 0, 0, 0, 0, 0, 0, 0]),
             seq(g.inodesPerGroup, _ => false), seq(g.fpg, _ => false))
  }

  lemma ZeroCounted(g: Geometry)
    ensures ZeroCg(g).Counted(g)
  {
    hide Superblock.CylNo, Superblock.RotPos, Runs, Recount;
    var z := ZeroCg(g);
    assert forall s | 0 <= s < MAX_FRAG :: z.frsum[s] == 0;
    assert forall c, p | 0 <= c < MAX_CPG && 0 <= p < NRPOS :: z.b[c][p] == 0;
    forall st: Stat | st.For(g) ensures z.Counter(g, st) == Recount(g, z.free, 0, st) {
      NothingFree(g, z.free, 0, st);
    }
  }

  lemma {:induction false} NothingFree(g: Geometry, free: seq<bool>, off: nat, st: Stat)
    requires forall i | 0 <= i < |free| :: !free[i]
    requires st.For(g)
    ensures Recount(g, free, off, st) == 0
    decreases g.fpg - off
  {
    if off < g.fpg {
      NothingFree(g, free, off + g.fpb, st);
      var bs := Slice(free, off, g.fpb);
      assert !bs[0];
      PopCountAll(bs);
      if st.FrSum? {
        NoRunStarts(bs, 0, |bs|, st.size);
      }
    }
  }

  /** The fragments of a group above 0 that hold data: below the metadata, and above it up to n. */
  ghost predicate DataMap(g: Geometry, c: nat, n: nat, free: seq<bool>) {
    |free| == g.fpg && forall i | 0 <= i < g.fpg :: free[i] <==> i < g.Lower(c) || g.Upper(c) <= i < n
  }

  /** build_new_cg, fragment range by fragment range. */
  method BuildNewCg(g: Geometry, c: nat, n: nat) returns (r: Option<CylGroup>)
    requires g.Lower(c) <= g.Upper(c)
    ensures r.None? <==> n > g.fpg || n < g.Upper(c)
    ensures r.Some? ==> r.value.Counted(g) && DataMap(g, c, n, r.value.free)
    ensures r.Some? ==> OnlyFreeSide(g, NewCg(g, n), r.value)
    ensures r.Some? ==> g.fpb * r.value.cs.nbfree + r.value.cs.nffree == g.Lower(c) + n - g.Upper(c)
    ensures r.Some? && n == g.GroupFrags(c) ==> g.fpb * r.value.cs.nbfree + r.value.cs.nffree == NewData(g, c, c + 1)
  {
    hide Superblock.Valid, Recount, Superblock.FragNum, CylGroup.Counted;
    if n > g.fpg || n < g.Upper(c) {
      return None;
    }
    var cg := NewCg(g, n);
    NewCounted(g, n);
    CountedShape(g, cg);
    var low := AddFreeRange(g, cg, 0, g.Lower(c));
    assert low.Some?;
    r := AddFreeRange(g, low.value, g.Upper(c), n);
    RangeConserves(g, cg, low.value, 0, g.Lower(c));
    RangeConserves(g, low.value, r.value, g.Upper(c), n);
    DistributeDiff(g.fpb, low.value.cs.nbfree, 0);
    DistributeDiff(g.fpb, r.value.cs.nbfree, low.value.cs.nbfree);
  }

  /** The fields build_new_cg and initcg store before they mark anything free. */
  function NewCg(g: Geometry, n: nat): CylGroup {
    ZeroCg(g).(ndblk := n, cs := Csum(0, 0, g.inodesPerGroup, 0))
  }

  lemma NewCounted(g: Geometry, n: nat)
    ensures NewCg(g, n).Counted(g)
  {
    hide Recount;
    ZeroCounted(g);
    assert forall st: Stat | st.For(g) :: NewCg(g, n).Counter(g, st) == ZeroCg(g).Counter(g, st);
  }

  // ---- the formatter ----

  /** A whole block becomes free in a block that had nothing free. */
  method SetWhole(g: Geometry, acg: CylGroup, d: nat, ghost clean: CylGroup) returns (r: CylGroup, ghost next: CylGroup)
    requires Tracks(g, acg, clean, d) && g.Aligned(d) && d + g.fpb <= g.fpg
    ensures Tracks(g, r, next, d + g.fpb) && OnlyFreeSide(g, clean, next) && next.free == Fill(clean.free, d, g.fpb, true)
  {
    hide CylGroup.Counted;
    CountedShape(g, clean);
    var free := WriteRun(acg.free, d, g.fpb, true);
    var x := acg.(free := free, cs := acg.cs.(nbfree := acg.cs.nbfree + 1));
    r := AdjustRotation(g, x, d, 1);
    next := r.(free := Fill(clean.free, d, g.fpb, true));
    SetCounts(g, clean, next, d, d, g.fpb);
  }

  /** A run inside a block that had nothing free; the rest of the block stays in use. */
  method SetPart(g: Geometry, acg: CylGroup, block: nat, start: nat, n: nat, ghost clean: CylGroup)
    returns (r: CylGroup, ghost next: CylGroup)
    requires Tracks(g, acg, clean, start) && g.Aligned(block) && block + g.fpb <= g.fpg
    requires 0 < n < g.fpb && block <= start && start + n <= block + g.fpb
    requires forall i | block <= i < start :: !clean.free[i]
    ensures Tracks(g, r, next, start + n) && OnlyFreeSide(g, clean, next) && next.free == Fill(clean.free, start, n, true)
  {
    hide CylGroup.Counted;
    CountedShape(g, clean);
    var free := WriteRun(acg.free, start, n, true);
    r := acg.(free := free, frsum := acg.frsum[n := acg.frsum[n] + 1],
              cs := acg.cs.(nffree := acg.cs.nffree + n));
    next := r.(free := Fill(clean.free, start, n, true));
    SetCounts(g, clean, next, block, start, n);
  }

  /** acg below d is done and counted; clean is the same group with nothing free above d, where acg
      still holds the previous group's bits. */
  ghost predicate Tracks(g: Geometry, acg: CylGroup, clean: CylGroup, d: nat) {
    && clean.Counted(g) && |clean.free| == |acg.free| == g.fpg && d <= g.fpg
    && acg == clean.(free := acg.free)
    && (forall i | 0 <= i < d :: acg.free[i] == clean.free[i])
    && (forall i | d <= i < g.fpg :: !clean.free[i])
  }

  lemma SetCounts(g: Geometry, a: CylGroup, b: CylGroup, block: nat, start: nat, n: nat)
    requires a.Counted(g) && b.Shaped(g) && 0 < n <= g.fpb && g.Aligned(block) && block + g.fpb <= g.fpg
    requires block <= start && start + n <= block + g.fpb
    requires forall j | block <= j < block + g.fpb :: !a.free[j]
    requires b.free == Fill(a.free, start, n, true)
    requires var whole := n == g.fpb;
             && b.cs.nbfree == a.cs.nbfree + (if whole then 1 else 0)
             && b.cs.nffree == a.cs.nffree + (if whole then 0 else n)
             && (forall s | 1 <= s < g.fpb :: b.frsum[s] == a.frsum[s] + if s == n then 1 else 0)
             && (forall c | 0 <= c < MAX_CPG :: b.btot[c] == a.btot[c] + if whole && c == g.CylNo(block) then 1 else 0)
             && (forall c, p | 0 <= c < MAX_CPG && 0 <= p < NRPOS ::
                   b.b[c][p] == a.b[c][p] + if whole && c == g.CylNo(block) && p == g.RotPos(block) then 1 else 0)
    ensures b.Counted(g)
  {
    hide Superblock.Valid, RunsFrom, PopCount, Superblock.CylNo, Superblock.RotPos, CylGroup.Counted, Runs;
    CountedShape(g, a);
    var old_, new_ := Slice(a.free, block, g.fpb), Slice(b.free, block, g.fpb);
    forall s | 1 <= s < g.fpb ensures Runs(old_, s) == 0 && Runs(new_, s) == if s == n then 1 else 0 {
      RunsOfOne(old_, 0, 0, s);
      RunsOfOne(new_, start - block, n, s);
    }
    if n < g.fpb {
      var k := if start > block then 0 else n;
      assert !new_[k];
    }
    ReturnRunCounts(g, a, b, block, start, n, n == g.fpb);
  }

  /** A block with one run, or none, has one run of that length. */
  lemma RunsOfOne(bs: seq<bool>, i: nat, n: nat, s: nat)
    requires i + n <= |bs| && 0 < s < |bs|
    requires forall j | 0 <= j < |bs| :: bs[j] <==> i <= j < i + n
    ensures Runs(bs, s) == if n > 0 && s == n then 1 else 0
  {
    if n == 0 {
      NoRunStarts(bs, 0, |bs|, s);
    } else {
      NoRunStarts(bs, 0, i, s);
      SkipRun(bs, i, n, s);
      NoRunStarts(bs, i + n, |bs|, s);
    }
  }

  /** Where the formatter starts handing out data fragments. */
  function DataFrom(g: Geometry, c: nat): nat {
    g.Upper(c) + if c == 0 then g.csumFrags else 0
  }

  /** Free fragments of a fresh group. */
  ghost predicate FreshMap(g: Geometry, c: nat, free: seq<bool>) {
    |free| == g.fpg
    && forall i | 0 <= i < g.fpg :: free[i] <==> (c != 0 && i < g.Lower(c)) || DataFrom(g, c) <= i < g.GroupFrags(c)
  }

  /** What the formatter needs of a group: block-aligned metadata, and room for the rest of the block
      the metadata ends in. */
  ghost predicate Formattable(g: Geometry, c: nat) {
    && g.Aligned(g.Lower(c)) && g.Lower(c) <= g.Upper(c)
    && g.BlkNum(DataFrom(g, c) + g.fpb - 1) <= g.GroupFrags(c) <= g.fpg
    && DataFrom(g, c) <= g.GroupFrags(c)
  }

  /** The stretch of whole blocks [d, end) is set or cleared. */
  method FormatBlocks(g: Geometry, acg: CylGroup, d: nat, end: nat, v: bool, ghost clean: CylGroup)
    returns (r: CylGroup, at: nat, ghost next: CylGroup)
    requires Tracks(g, acg, clean, d) && g.Aligned(d) && d <= end <= g.fpg
    ensures d <= at && g.Aligned(at) && (at < end + g.fpb) && (end <= at || at == d)
    ensures at >= end && (d < end ==> at - g.fpb < end)
    ensures Tracks(g, r, next, at) && OnlyFreeSide(g, clean, next)
    ensures next.free == if v then Fill(clean.free, d, at - d, true) else clean.free
  {
    hide CylGroup.Counted, Superblock.FragNum, Superblock.Valid;
    r, at, next := acg, d, clean;
    CountedShape(g, clean);
    assert Fill(clean.free, d, 0, true) == clean.free;
    while at < end
      invariant d <= at && g.Aligned(at) && at <= g.fpg && (at > d ==> at - g.fpb < end)
      invariant Tracks(g, r, next, at) && OnlyFreeSide(g, clean, next)
      invariant next.free == if v then Fill(clean.free, d, at - d, true) else clean.free
      decreases end - at
    {
      NextBlock(g, at);
      if v {
        r, next := SetWhole(g, r, at, next);
        FilledMore(clean.free, d, at, at + g.fpb);
      } else {
        r := ClearBlock(g, r, at, next);
      }
      at := at + g.fpb;
    }
  }

  /** clrblock: a block goes out of use, whatever bits it held. */
  method ClearBlock(g: Geometry, acg: CylGroup, d: nat, ghost clean: CylGroup) returns (r: CylGroup)
    requires Tracks(g, acg, clean, d) && d + g.fpb <= g.fpg
    ensures Tracks(g, r, clean, d + g.fpb)
  {
    hide CylGroup.Counted;
    CountedShape(g, clean);
    var free := WriteRun(acg.free, d, g.fpb, false);
    r := acg.(free := free);
  }

  /** The fields initcg stores first; inodes 0 and 1 are never handed out. */
  function FreshCg(g: Geometry, c: nat): CylGroup
    requires c == 0 ==> g.inodesPerGroup >= ROOTINO
  {
    var cg := NewCg(g, g.GroupFrags(c));
    if c == 0 then cg.(iused := cg.iused[0 := true][1 := true], cs := cg.cs.(nifree := cg.cs.nifree - 2)) else cg
  }

  lemma FreshCounted(g: Geometry, c: nat)
    requires c == 0 ==> g.inodesPerGroup >= ROOTINO
    ensures FreshCg(g, c).Counted(g) && FreshCg(g, c).cs.nifree == ClearBits(FreshCg(g, c).iused)
  {
    hide Recount, CylGroup.Counted;
    NewCounted(g, g.GroupFrags(c));
    var cg := NewCg(g, g.GroupFrags(c));
    PopCountAll(cg.iused);
    if c == 0 {
      PopCountUpdate(cg.iused, 0, true);
      PopCountUpdate(cg.iused[0 := true], 1, true);
    }
    SameCounts(g, cg, FreshCg(g, c));
  }

  lemma SameCounts(g: Geometry, a: CylGroup, b: CylGroup)
    requires a.Counted(g) && b == a.(iused := b.iused, ndblk := b.ndblk, cs := a.cs.(ndir := b.cs.ndir, nifree := b.cs.nifree))
    ensures b.Counted(g)
  {
    hide Recount;
    assert forall st: Stat | st.For(g) :: b.Counter(g, st) == a.Counter(g, st);
  }

  /** initcg, block by block, into a buffer that still holds another group's bits. */
  method InitCg(g: Geometry, c: nat, stale: seq<bool>) returns (r: CylGroup, dsize: int)
    requires c < g.ncg && Formattable(g, c) && |stale| == g.fpg && (c == 0 ==> g.inodesPerGroup >= ROOTINO)
    ensures r.Counted(g) && FreshMap(g, c, r.free) && OnlyFreeSide(g, FreshCg(g, c), r)
    ensures dsize == (if c == 0 then 0 else g.Lower(c)) + g.GroupFrags(c) - DataFrom(g, c)
    ensures g.fpb * r.cs.nbfree + r.cs.nffree == dsize
  {
    hide CylGroup.Counted, Superblock.FragNum, Superblock.Valid, Superblock.Lower, Superblock.Upper, Superblock.GroupFrags, Tracks, FreshMap;
    var n := g.GroupFrags(c);
    var acg := FreshCg(g, c).(free := stale);
    ghost var clean := FreshCg(g, c);
    FreshCounted(g, c);
    FreshTracks(g, c, stale);
    var d;
    acg, d, dsize, clean := FormatHead(g, c, acg, clean);
    ghost var head, from := clean.free, d;
    GroupAligned(g);
    acg, d, clean := FormatRest(g, acg, d, n, clean);
    acg, d, clean := FormatBlocks(g, acg, d, g.fpg, false, clean);
    AtEnd(g, d);
    TracksAll(g, acg, clean);
    HeadAndRest(g, c, from, head, clean.free);
    r := acg;
    FreshConserves(g, c, r);
  }

  /** The first part of initcg: the blocks below the metadata, the metadata, and the rest of the
      block the metadata ends in. */
  method FormatHead(g: Geometry, c: nat, acg: CylGroup, ghost clean: CylGroup)
    returns (r: CylGroup, d: nat, dsize: int, ghost next: CylGroup)
    requires c < g.ncg && Formattable(g, c) && Tracks(g, acg, clean, 0)
    ensures Tracks(g, r, next, d) && OnlyFreeSide(g, clean, next) && g.Aligned(d) && DataFrom(g, c) <= d <= g.GroupFrags(c)
    ensures HeadMap(g, c, d, next.free)
    ensures dsize == (if c == 0 then 0 else g.Lower(c)) + g.GroupFrags(c) - DataFrom(g, c)
  {
    hide CylGroup.Counted, Superblock.FragNum, Superblock.Valid, Superblock.Lower, Superblock.Upper, Superblock.GroupFrags;
    var dlower, dupper, n := g.Lower(c), DataFrom(g, c), g.GroupFrags(c);
    GroupAligned(g);
    r, d, next := FormatBlocks(g, acg, 0, dlower, c != 0, clean);
    AlignedMeet(g, d, dlower);
    dsize := if c != 0 then dlower else 0;
    dsize := dsize + n - dupper;
    r, d, next := FormatBlocks(g, r, d, dupper, false, next);
    UpRounded(g, d, dupper);
    if d > dupper {
      BackToBlock(g, d);
      NoneBetween(g, dlower, d);
      r, next := SetPart(g, r, d - g.fpb, dupper, d - dupper, next);
    }
  }

  /** What is free once the first part of initcg is done. */
  ghost predicate HeadMap(g: Geometry, c: nat, d: nat, free: seq<bool>) {
    |free| == g.fpg && forall i | 0 <= i < g.fpg :: free[i] <==> (c != 0 && i < g.Lower(c)) || DataFrom(g, c) <= i < d
  }

  lemma UpRounded(g: Geometry, d: nat, m: nat)
    requires g.Aligned(d) && m <= d < m + g.fpb
    ensures d == g.BlkNum(m + g.fpb - 1)
  {
    var x := m + g.fpb - 1;
    DivModOf(d / g.fpb, x - d, g.fpb);
  }

  lemma FreshTracks(g: Geometry, c: nat, stale: seq<bool>)
    requires |stale| == g.fpg && (c == 0 ==> g.inodesPerGroup >= ROOTINO) && FreshCg(g, c).Counted(g)
    ensures Tracks(g, FreshCg(g, c).(free := stale), FreshCg(g, c), 0)
  {
    hide CylGroup.Counted, Superblock.Valid;
  }

  lemma TracksAll(g: Geometry, acg: CylGroup, clean: CylGroup)
    requires Tracks(g, acg, clean, g.fpg)
    ensures acg == clean && clean.Counted(g)
  {
    hide CylGroup.Counted, Superblock.Valid;
    assert acg.free == clean.free;
  }

  lemma HeadAndRest(g: Geometry, c: nat, d: nat, head: seq<bool>, free: seq<bool>)
    requires DataFrom(g, c) <= d <= g.GroupFrags(c) && HeadMap(g, c, d, head) && free == Fill(head, d, g.GroupFrags(c) - d, true)
    ensures FreshMap(g, c, free)
  {
    hide Superblock.Valid, Superblock.Lower, Superblock.Upper, Superblock.GroupFrags;
  }

  /** A fresh group's counters cover exactly its data fragments. */
  lemma FreshConserves(g: Geometry, c: nat, a: CylGroup)
    requires c < g.ncg && Formattable(g, c) && a.Counted(g) && FreshMap(g, c, a.free)
    ensures g.fpb * a.cs.nbfree + a.cs.nffree == (if c == 0 then 0 else g.Lower(c)) + g.GroupFrags(c) - DataFrom(g, c)
  {
    hide Superblock.Valid, CylGroup.Counted, PopCount, Superblock.Lower, Superblock.Upper, Superblock.GroupFrags, Superblock.FragNum;
    CountedCovers(g, a);
    var m := DataFrom(g, c);
    var high := Fill(a.free, m, g.GroupFrags(c) - m, false);
    PopCountFill(a.free, m, g.GroupFrags(c) - m);
    var low := if c == 0 then 0 else g.Lower(c);
    PopCountFill(high, 0, low);
    PopCountAll(Fill(high, 0, low, false));
  }

  /** The tail of initcg: whole blocks up to n, then the part of the last one. */
  method FormatRest(g: Geometry, acg: CylGroup, d: nat, n: nat, ghost clean: CylGroup)
    returns (r: CylGroup, at: nat, ghost next: CylGroup)
    requires Tracks(g, acg, clean, d) && g.Aligned(d) && d <= n <= g.fpg && g.Aligned(g.fpg)
    ensures Tracks(g, r, next, at) && OnlyFreeSide(g, clean, next) && g.Aligned(at) && d <= at <= g.fpg
    ensures next.free == Fill(clean.free, d, n - d, true)
  {
    hide CylGroup.Counted, Superblock.FragNum, Superblock.Valid;
    BlockFloor(g, d, n);
    r, at, next := FormatBlocks(g, acg, d, g.BlkNum(n), true, clean);
    AlignedMeet(g, at, g.BlkNum(n));
    if at < n {
      NextBlock(g, at);
      FilledMore(clean.free, d, at, n);
      ghost var was := next;
      r, next := SetPart(g, r, at, at, n - at, next);
      var free := WriteRun(r.free, n, at + g.fpb - n, false);
      r := r.(free := free);
      at := at + g.fpb;
    }
  }

  lemma GroupAligned(g: Geometry)
    ensures g.Aligned(g.fpg) && g.Aligned(0)
  {
  }

  lemma AlignedMeet(g: Geometry, a: nat, b: nat)
    requires g.Aligned(a) && g.Aligned(b) && b <= a
    ensures a - g.fpb < b ==> a == b
  {
    if b < a {
      AlignedStep(g.fpb, b, a);
    }
  }

  lemma NoneBetween(g: Geometry, a: nat, b: nat)
    requires g.Aligned(a) && g.Aligned(b) && a < b
    ensures a + g.fpb <= b
  {
    AlignedStep(g.fpb, a, b);
  }

  lemma BackToBlock(g: Geometry, d: nat)
    requires g.Aligned(d) && 0 < d
    ensures d >= g.fpb && g.Aligned(d - g.fpb)
  {
    AlignedStep(g.fpb, 0, d);
    var q := d / g.fpb;
    assert d == q * g.fpb && d - g.fpb == (q - 1) * g.fpb;
    MulMod(q - 1, g.fpb);
  }

  lemma BlockFloor(g: Geometry, d: nat, n: nat)
    requires g.Aligned(d) && d <= n <= g.fpg && g.Aligned(g.fpg)
    ensures g.Aligned(g.BlkNum(n)) && d <= g.BlkNum(n) <= n < g.BlkNum(n) + g.fpb && g.BlkNum(n) <= g.fpg
  {
    var q := n / g.fpb;
    assert n == q * g.fpb + n % g.fpb;
    MulMod(q, g.fpb);
    if g.BlkNum(n) < d {
      AlignedStep(g.fpb, g.BlkNum(n), d);
    }
  }

  lemma AtEnd(g: Geometry, d: nat)
    requires d <= g.fpg || d < g.fpg + g.fpb
    ensures g.Aligned(d) && d >= g.fpg && g.Aligned(g.fpg) ==> d == g.fpg
  {
    if g.Aligned(d) && d >= g.fpg && g.Aligned(g.fpg) {
      AlignedMeet(g, d, g.fpg);
    }
  }

  /** For groups above 0 the resizer and the formatter build the same group, and count the same data
      fragments for it. */
  lemma BuiltIsFormatted(g: Geometry, c: nat, built: CylGroup, formatted: CylGroup, dsize: int)
    requires 0 < c < g.ncg && g.fpb * formatted.cs.nbfree + formatted.cs.nffree == dsize
    requires g.fpb * built.cs.nbfree + built.cs.nffree == NewData(g, c, c + 1)
    requires built.Counted(g) && DataMap(g, c, g.GroupFrags(c), built.free) && OnlyFreeSide(g, NewCg(g, g.GroupFrags(c)), built)
    requires formatted.Counted(g) && FreshMap(g, c, formatted.free) && OnlyFreeSide(g, FreshCg(g, c), formatted)
    ensures built == formatted && NewData(g, c, c + 1) == dsize
  {
    hide Superblock.Valid, CylGroup.Counted, NewData;
    CountedShape(g, built);
    CountedShape(g, formatted);
    assert built.free == formatted.free;
    CountsDetermined(g, built, formatted);
  }

  // ---- the recount ----

  /** What pass 5 makes of a group: its map is the complement of the used map. */
  ghost predicate ComplementMap(g: Geometry, c: nat, used: seq<bool>, free: seq<bool>)
    requires |used| == g.fragCount && c < g.ncg
  {
    |free| == g.fpg
    && forall i | 0 <= i < g.fpg :: free[i] <==> i < g.GroupFrags(c) && InMap(g, c, i) && !used[g.Base(c) + i]
  }

  ghost predicate InMap(g: Geometry, c: nat, i: nat) {
    g.Base(c) + i < g.fragCount
  }

  /** The bits of block `at` are recounted into a group that had nothing free there. */
  method CountBlock(g: Geometry, cur: CylGroup, at: nat, n: nat, base: nat, used: seq<bool>) returns (r: CylGroup)
    requires cur.Counted(g) && g.Aligned(at) && at + g.fpb <= g.fpg && at < n <= g.fpg && base + n <= |used|
    requires forall i | at <= i < g.fpg :: !cur.free[i]
    ensures r.Counted(g) && OnlyFreeSide(g, cur, r)
    ensures forall i | 0 <= i < g.fpg ::
              r.free[i] == if at <= i < at + g.fpb then i < n && !used[base + i] else cur.free[i]
  {
    hide Superblock.Valid, Recount, Runs, PopCount, CylGroup.Counted, Superblock.CylNo, Superblock.RotPos;
    CountedShape(g, cur);
    BlockFitsTable(g);
    var free, frags := CopyBlock(cur.free, at, g.fpb, n, base, used);
    r := cur.(free := free);
    if frags == g.fpb {
      r := r.(cs := r.cs.(nbfree := r.cs.nbfree + 1));
      r := AdjustRotation(g, r, at, 1);
    } else if frags > 0 {
      var runs := CountFreeRuns(free, at, g.fpb);
      var frsum := ApplyFrsumDelta(r.frsum, seq(g.fpb + 1, _ => 0), runs, g.fpb);
      r := r.(cs := r.cs.(nffree := r.cs.nffree + frags), frsum := frsum);
    }
    RecountedBlock(g, cur, r, at, frags);
  }

  lemma BlockFitsTable(g: Geometry)
    ensures g.fpb <= MAX_FRAG
  {
  }

  /** The inner loop of pass 5: a block's bits from the used map, and how many were set. */
  method CopyBlock(was: seq<bool>, at: nat, fpb: nat, n: nat, base: nat, used: seq<bool>) returns (free: seq<bool>, frags: nat)
    requires at + fpb <= |was| && base + n <= |used| && forall i | at <= i < |was| :: !was[i]
    ensures |free| == |was| && frags == PopCount(Slice(free, at, fpb))
    ensures forall i | 0 <= i < |was| :: free[i] == if at <= i < at + fpb then i < n && !used[base + i] else was[i]
  {
    hide PopCount;
    free, frags := was, 0;
    NoBits(free[at..at]);
    for j := 0 to fpb
      invariant |free| == |was|
      invariant forall i | 0 <= i < |was| :: free[i] == if at <= i < at + j then i < n && !used[base + i] else was[i]
      invariant frags == PopCount(free[at..at + j])
    {
      ghost var before := free[at..at + j];
      var bit := at + j < n && !used[base + at + j];
      if bit {
        free := free[at + j := true];
        frags := frags + 1;
      }
      assert free[at..at + j + 1] == before + [bit];
      PopCountConcat(before, [bit]);
      OneBit(bit);
    }
    assert free[at..at + fpb] == Slice(free, at, fpb);
  }

  lemma NoBits(bs: seq<bool>)
    requires bs == []
    ensures PopCount(bs) == 0
  {
  }

  lemma OneBit(bit: bool)
    ensures PopCount([bit]) == if bit then 1 else 0
  {
    assert [bit][1..] == [];
  }

  lemma RecountedBlock(g: Geometry, a: CylGroup, b: CylGroup, at: nat, frags: nat)
    requires a.Counted(g) && b.Shaped(g) && g.Aligned(at) && at + g.fpb <= g.fpg
    requires forall i | at <= i < g.fpg :: !a.free[i]
    requires SameOutside(g, a.free, b.free, at)
    requires frags == PopCount(Slice(b.free, at, g.fpb))
    requires b.cs.nbfree == a.cs.nbfree + if frags == g.fpb then 1 else 0
    requires b.cs.nffree == a.cs.nffree + if frags == g.fpb then 0 else frags
    requires forall s | 1 <= s < g.fpb ::
               b.frsum[s] == a.frsum[s] + if 0 < frags < g.fpb then Runs(Slice(b.free, at, g.fpb), s) else 0
    requires forall c | 0 <= c < MAX_CPG :: b.btot[c] == a.btot[c] + if frags == g.fpb && c == g.CylNo(at) then 1 else 0
    requires forall c, p | 0 <= c < MAX_CPG && 0 <= p < NRPOS ::
               b.b[c][p] == a.b[c][p] + if frags == g.fpb && c == g.CylNo(at) && p == g.RotPos(at) then 1 else 0
    ensures b.Counted(g)
  {
    hide Superblock.Valid, RunsFrom, PopCount, Superblock.CylNo, Superblock.RotPos;
    var old_, new_ := Slice(a.free, at, g.fpb), Slice(b.free, at, g.fpb);
    PopCountAll(old_);
    PopCountAll(new_);
    assert !old_[0];
    forall s | 1 <= s < g.fpb
      ensures Runs(old_, s) == 0 && (frags == g.fpb || frags == 0 ==> Runs(new_, s) == 0)
    {
      RunsOfOne(old_, 0, 0, s);
      if frags == g.fpb {
        RunsOfFull(new_, s);
      } else if frags == 0 {
        RunsOfOne(new_, 0, 0, s);
      }
    }
    CountedAfter(g, a, b, at);
  }

  /** The free side of pass 5 for one group. */
  method RecountFree(g: Geometry, c: nat, used: seq<bool>, start: CylGroup) returns (r: CylGroup)
    requires c < g.ncg && |used| == g.fragCount && start.Counted(g) && g.GroupFrags(c) <= g.fpg
    requires forall i | 0 <= i < |start.free| :: !start.free[i]
    ensures r.Counted(g) && ComplementMap(g, c, used, r.free) && OnlyFreeSide(g, start, r)
  {
    hide Superblock.Valid, CylGroup.Counted, Superblock.FragNum, Superblock.Base, Superblock.GroupFrags;
    var n, at := g.GroupFrags(c), 0;
    GroupFragsBounds(g, c);
    CountedShape(g, start);
    GroupAligned(g);
    r := start;
    while at < n
      invariant g.Aligned(at) && at <= g.fpg && r.Counted(g) && OnlyFreeSide(g, start, r) && |r.free| == g.fpg
      invariant forall i | 0 <= i < g.fpg :: r.free[i] <==> i < at && i < n && !used[g.Base(c) + i]
      decreases g.fpg - at
    {
      NextBlock(g, at);
      r := CountBlock(g, r, at, n, g.Base(c), used);
      CountedShape(g, r);
      at := at + g.fpb;
    }
  }

  /** Inodes of a state pass 5 counts as in use, and as directories. */
  predicate Taken(s: State) {
    s != Unallocated
  }

  predicate IsADirectory(s: State) {
    s == Dir || s == DirClear || s == DirFound
  }

  /** The states of a group's inodes. */
  ghost function StatesOf(g: Geometry, c: nat, state: seq<State>): (mine: seq<State>)
    requires c < g.ncg && |state| == g.ncg * g.inodesPerGroup
    ensures |mine| == g.inodesPerGroup
  {
    RunBound(g.inodesPerGroup, g.ncg, c, 0, g.inodesPerGroup);
    state[c * g.inodesPerGroup..c * g.inodesPerGroup + g.inodesPerGroup]
  }

  /** The inode side of a group recounted from the inode states: its map, its free inodes and its
      directories. */
  ghost predicate InodesCounted(g: Geometry, c: nat, state: seq<State>, a: CylGroup)
    requires c < g.ncg && |state| == g.ncg * g.inodesPerGroup
  {
    && |a.iused| == g.inodesPerGroup && a.cs.nifree == ClearBits(a.iused)
    && (forall i | 0 <= i < g.inodesPerGroup :: a.iused[i] <==> Taken(StatesOf(g, c, state)[i]) || (c == 0 && i < ROOTINO))
    && a.cs.ndir == DirCount(StatesOf(g, c, state))
  }

  /** Pass 5's inode side of one group. */
  method RecountInodes(g: Geometry, c: nat, state: seq<State>, start: CylGroup) returns (r: CylGroup)
    requires c < g.ncg && |state| == g.ncg * g.inodesPerGroup && start.Counted(g)
    requires start.iused == seq(g.inodesPerGroup, _ => false) && start.cs.nifree == g.inodesPerGroup && start.cs.ndir == 0
    requires c == 0 ==> g.inodesPerGroup >= ROOTINO && state[0] == Unallocated == state[1]
    ensures r.Counted(g) && r == start.(iused := r.iused, cs := start.cs.(nifree := r.cs.nifree, ndir := r.cs.ndir))
    ensures InodesCounted(g, c, state, r)
  {
    hide Superblock.Valid, CylGroup.Counted, PopCount, DirCount;
    RunBound(g.inodesPerGroup, g.ncg, c, 0, g.inodesPerGroup);
    var first, ipg := c * g.inodesPerGroup, g.inodesPerGroup;
    ghost var mine := StatesOf(g, c, state);
    PopCountAll(start.iused);
    NoDirs();
    var iused, nifree, ndir := start.iused, start.cs.nifree, 0;
    for i := 0 to ipg
      invariant |iused| == ipg && nifree == ClearBits(iused)
      invariant forall k | 0 <= k < ipg :: iused[k] <==> k < i && Taken(mine[k])
      invariant ndir == DirCount(mine[..i])
    {
      var s := state[first + i];
      assert mine[..i + 1] == mine[..i] + [s];
      DirCountAppend(mine[..i], s);
      if IsADirectory(s) {
        ndir := ndir + 1;
      }
      if Taken(s) {
        PopCountUpdate(iused, i, true);
        iused, nifree := iused[i := true], nifree - 1;
      }
    }
    assert mine[..ipg] == mine;
    if c == 0 {
      assert mine[0] == state[0] && mine[1] == state[1];
      PopCountUpdate(iused, 0, true);
      PopCountUpdate(iused[0 := true], 1, true);
      iused, nifree := iused[0 := true][1 := true], nifree - 2;
    }
    r := start.(iused := iused, cs := start.cs.(nifree := nifree, ndir := ndir));
    SameCounts(g, start, r);
  }

  lemma NoDirs()
    ensures DirCount([]) == 0
  {
  }

  ghost function DirCount(state: seq<State>): nat {
    if state == [] then 0 else DirCount(state[..|state| - 1]) + if IsADirectory(state[|state| - 1]) then 1 else 0
  }

  lemma DirCountAppend(state: seq<State>, s: State)
    ensures DirCount(state + [s]) == DirCount(state) + if IsADirectory(s) then 1 else 0
  {
    assert (state + [s])[..|state|] == state;
  }

  /** pass5 over all groups: every counter is a recount of the used map, every summary entry its
      group's, and the totals their sum. */
  method Pass5(g: Geometry, used: seq<bool>, state: seq<State>) returns (groups: seq<CylGroup>, csum: seq<Csum>, total: Csum)
    requires |used| == g.fragCount && |state| == g.ncg * g.inodesPerGroup && g.inodesPerGroup >= ROOTINO
    requires state[0] == Unallocated == state[1]
    ensures |groups| == |csum| == g.ncg && total == SumOf(csum)
    ensures forall c | 0 <= c < g.ncg ::
              && groups[c].Counted(g) && ComplementMap(g, c, used, groups[c].free) && csum[c] == groups[c].cs
              && groups[c].ndblk == g.GroupFrags(c) && InodesCounted(g, c, state, groups[c])
  {
    hide Superblock.Valid, CylGroup.Counted, Superblock.FragNum, Superblock.Base, Superblock.GroupFrags, ComplementMap, StatesOf, DirCount;
    groups, csum, total := [], [], NO_CHANGE;
    for c := 0 to g.ncg
      invariant |groups| == |csum| == c && total == SumOf(csum)
      invariant forall k | 0 <= k < c ::
              && groups[k].Counted(g) && ComplementMap(g, k, used, groups[k].free) && csum[k] == groups[k].cs
              && groups[k].ndblk == g.GroupFrags(k) && InodesCounted(g, k, state, groups[k])
    {
      GroupFragsBounds(g, c);
      NewCounted(g, g.GroupFrags(c));
      var newcg := RecountInodes(g, c, state, NewCg(g, g.GroupFrags(c)));
      CountedShape(g, newcg);
      newcg := RecountFree(g, c, used, newcg);
      SumOfAppend(csum, newcg.cs);
      total := total.Plus(newcg.cs);
      groups, csum := groups + [newcg], csum + [newcg.cs];
    }
  }

  /** On an image whose counters are right, and a used map that is the complement of its free
      fragments, the recount finds nothing to correct. */
  lemma RecountAgrees(g: Geometry, c: nat, used: seq<bool>, stored: CylGroup, recount: CylGroup)
    requires c < g.ncg && |used| == g.fragCount && stored.Valid(g, c) && recount.Counted(g) && ComplementMap(g, c, used, recount.free)
    requires forall i | 0 <= i < g.GroupFrags(c) && InMap(g, c, i) :: stored.free[i] <==> !used[g.Base(c) + i]
    ensures recount.free == stored.free
    ensures forall st: Stat | st.For(g) :: recount.Counter(g, st) == stored.Counter(g, st)
  {
    hide Superblock.Valid, Recount, Superblock.Base, Superblock.GroupFrags, Superblock.Reserved;
    GroupFragsBounds(g, c);
    assert recount.free == stored.free;
  }

  // ---- growing the image ----

  /** The same layout with more fragments, more groups, or a longer summary area. */
  ghost predicate Grown(g: Superblock, h: Superblock) {
    && h == g.(ncg := h.ncg, fragCount := h.fragCount, csumFrags := h.csumFrags)
    && g.ncg <= h.ncg && g.fragCount <= h.fragCount && g.csumFrags <= h.csumFrags
  }

  lemma {:induction false} RecountSame(g: Geometry, h: Geometry, free: seq<bool>, off: nat, st: Stat)
    requires Grown(g, h)
    ensures Recount(h, free, off, st) == Recount(g, free, off, st)
    decreases g.fpg - off
  {
    hide Superblock.Valid, PopCount, RunsFrom;
    if off < g.fpg {
      RecountSame(g, h, free, off + g.fpb, st);
      assert g.CylNo(off) == h.CylNo(off) && g.RotPos(off) == h.RotPos(off);
      assert Contribution(g, Slice(free, off, g.fpb), off, st) == Contribution(h, Slice(free, off, g.fpb), off, st);
    }
  }

  lemma CountedSame(g: Geometry, h: Geometry, a: CylGroup)
    requires Grown(g, h) && a.Counted(g)
    ensures a.Counted(h)
  {
    hide Superblock.Valid, Recount;
    forall st: Stat | st.For(h) ensures a.Counter(h, st) == Recount(h, a.free, 0, st) {
      assert a.Counter(g, st) == Recount(g, a.free, 0, st);
      RecountSame(g, h, a.free, 0, st);
    }
  }

  /** A group that was full stays as it was when more groups follow. */
  lemma FullGroupSame(g: Geometry, h: Geometry, c: nat, a: CylGroup)
    requires Grown(g, h) && c < g.ncg - 1 && a.Valid(g, c) && (c == 0 ==> h.csumFrags == g.csumFrags)
    ensures a.Valid(h, c)
  {
    hide Superblock.Valid, Recount, CylGroup.Counted, Superblock.GroupFrags;
    CountedSame(g, h, a);
    GroupFragsBounds(g, c);
    GroupFragsBounds(h, c);
  }

  /** expand_old_last_cg: the fragments the old last group gains become free. */
  method ExpandOldLastCg(g: Geometry, h: Geometry, a: CylGroup) returns (r: CylGroup, dsize: nat)
    requires Grown(g, h) && h.csumFrags == g.csumFrags && a.Valid(g, g.ncg - 1)
    requires g.ncg == 1 ==> MetadataEndsInside(g)
    requires g.Upper(g.ncg - 1) <= g.GroupFrags(g.ncg - 1)
    ensures r.Valid(h, g.ncg - 1) && InodeSide(r) == (h.GroupFrags(g.ncg - 1), a.irotor, a.iused, a.cs.ndir, a.cs.nifree)
    ensures dsize == h.GroupFrags(g.ncg - 1) - g.GroupFrags(g.ncg - 1)
    ensures r.free == Fill(a.free, g.GroupFrags(g.ncg - 1), dsize, true)
    ensures g.fpb * (r.cs.nbfree - a.cs.nbfree) + (r.cs.nffree - a.cs.nffree) == dsize
  {
    hide Superblock.Valid, Recount, CylGroup.Counted, Superblock.GroupFrags;
    var c := g.ncg - 1;
    GroupFragsBounds(g, c);
    GroupFragsBounds(h, c);
    FragsGrow(g, h, c);
    var start, end := g.GroupFrags(c), h.GroupFrags(c);
    CountedShape(g, a);
    var next := AddFreeRange(g, a, start, end);
    assert next.Some?;
    RangeConserves(g, a, next.value, start, end);
    SameCounts(g, next.value, next.value.(ndblk := end));
    r, dsize := next.value.(ndblk := end), end - start;
    CountedSame(g, h, r);
  }

  /** Metadata of group 0, summary area included, lies in what exists of it. */
  ghost predicate MetadataEndsInside(g: Superblock) {
    g.csumAddr + g.csumFrags <= g.GroupFrags(0) && 0 < g.GroupFrags(0)
  }

  lemma FragsGrow(g: Geometry, h: Geometry, c: nat)
    requires Grown(g, h)
    ensures g.GroupFrags(c) <= h.GroupFrags(c)
  {
  }

  /** reserve_summary_extension on group 0. */
  method ReserveSummaryExtension(g: Geometry, h: Geometry, a: CylGroup) returns (r: Option<CylGroup>)
    requires Grown(g, h) && h == g.(csumFrags := h.csumFrags) && a.Valid(g, 0) && h.csumAddr + h.csumFrags <= g.fpg
    ensures r.None? <==> exists i :: g.csumAddr + g.csumFrags <= i < h.csumAddr + h.csumFrags && !a.free[i]
    ensures r.Some? ==> r.value.Valid(h, 0) && InodeSide(r.value) == InodeSide(a)
    ensures r.Some? ==>
      r.value.free == Fill(a.free, g.csumAddr + g.csumFrags, h.csumFrags - g.csumFrags, false)
    ensures r.Some? ==>
      g.fpb * (r.value.cs.nbfree - a.cs.nbfree) + (r.value.cs.nffree - a.cs.nffree) == -((h.csumFrags - g.csumFrags) as int)
  {
    hide Superblock.Valid, Recount, CylGroup.Counted, Superblock.GroupFrags;
    CountedShape(g, a);
    var start, end := g.csumAddr + g.csumFrags, h.csumAddr + h.csumFrags;
    r := ClearRange(g, a, start, end);
    if r.Some? {
      var x := r.value;
      CountedShape(g, x);
      CountedSame(g, h, x);
      assert a.free == Fill(x.free, start, end - start, true);
      RangeConserves(g, x, a, start, end);
      DistributeDiff(g.fpb, a.cs.nbfree, x.cs.nbfree);
      DistributeDiff(g.fpb, x.cs.nbfree, a.cs.nbfree);
      SameFrags(g, h, 0);
    }
  }

  lemma SameFrags(g: Superblock, h: Superblock, c: nat)
    requires h == g.(csumFrags := h.csumFrags)
    ensures h.GroupFrags(c) == g.GroupFrags(c)
  {
  }

  /** A built group is a valid group of the grown image. */
  lemma BuiltValid(g: Geometry, c: nat, a: CylGroup)
    requires 0 < c < g.ncg && a.Counted(g) && DataMap(g, c, g.GroupFrags(c), a.free)
    requires OnlyFreeSide(g, NewCg(g, g.GroupFrags(c)), a) && g.Lower(c) <= g.Upper(c) <= g.GroupFrags(c)
    ensures a.Valid(g, c)
  {
    hide Superblock.Valid, Recount, CylGroup.Counted, Superblock.GroupFrags;
    GroupFragsBounds(g, c);
    PopCountAll(NewCg(g, g.GroupFrags(c)).iused);
  }

  // ---- the groups of a grown image ----

  /** The same inodes in use, and as many directories. */
  ghost predicate SameMarked(a: CylGroup, b: CylGroup) {
    b.iused == a.iused && b.cs.ndir == a.cs.ndir
  }

  /** One bit of an old group: what the last group gains becomes free, what the summary area gains
      is taken. */
  ghost predicate GrownBit(g: Superblock, h: Superblock, was: seq<bool>, now: seq<bool>, c: nat, i: nat) {
    && i < |was| && i < |now|
    && (now[i] <==> !(c == 0 && g.csumAddr + g.csumFrags <= i < h.csumAddr + h.csumFrags)
                    && (was[i] || (c == g.ncg - 1 && g.GroupFrags(c) <= i < h.GroupFrags(c))))
  }

  /** A new group: no inode in use, all its data fragments free. */
  ghost predicate Built(h: Geometry, c: nat, a: CylGroup) {
    && DataMap(h, c, h.GroupFrags(c), a.free) && a.cs.ndir == 0
    && |a.iused| == h.inodesPerGroup && forall i | 0 <= i < |a.iused| :: !a.iused[i]
  }

  ghost predicate GrownGroups(g: Geometry, h: Geometry, was: seq<CylGroup>, now: seq<CylGroup>) {
    && |was| == g.ncg <= h.ncg == |now|
    && (forall c: nat | c < g.ncg :: SameMarked(was[c], now[c]))
    && (forall c: nat, i: nat | c < g.ncg && i < g.fpg :: GrownBit(g, h, was[c].free, now[c].free, c, i))
    && forall c: nat | g.ncg <= c < h.ncg :: Built(h, c, now[c])
  }

  lemma NewIsBuilt(h: Geometry, c: nat, a: CylGroup)
    requires DataMap(h, c, h.GroupFrags(c), a.free) && OnlyFreeSide(h, NewCg(h, h.GroupFrags(c)), a)
    ensures Built(h, c, a)
  {
    hide DataMap, Superblock.GroupFrags, Superblock.Valid;
  }

  /** The three steps together. */
  lemma GroupsGrown(g: Geometry, h: Geometry, m: Geometry, was: seq<CylGroup>, tail: seq<CylGroup>, sum: seq<CylGroup>, now: seq<CylGroup>, dSize: nat)
    requires Grown(g, h) && m == g.(ncg := h.ncg, fragCount := h.fragCount) && |was| == |tail| == |sum| == g.ncg && |now| == h.ncg
    requires forall c | 0 <= c < g.ncg :: |was[c].free| == g.fpg
    requires dSize == m.GroupFrags(g.ncg - 1) - g.GroupFrags(g.ncg - 1)
    requires (forall c | 0 <= c < g.ncg - 1 :: tail[c] == was[c]) && SameMarked(was[g.ncg - 1], tail[g.ncg - 1])
    requires tail[g.ncg - 1].free == Fill(was[g.ncg - 1].free, g.GroupFrags(g.ncg - 1), dSize, true)
    requires if h.csumFrags > g.csumFrags then
               && sum[1..] == tail[1..] && SameMarked(tail[0], sum[0])
               && sum[0].free == Fill(tail[0].free, g.csumAddr + g.csumFrags, h.csumFrags - g.csumFrags, false)
             else sum == tail
    requires now[..g.ncg] == sum && forall c: nat | g.ncg <= c < h.ncg :: Built(h, c, now[c])
    ensures GrownGroups(g, h, was, now)
  {
    hide Superblock.Valid, Superblock.GroupFrags, Built;
    SameFrags(m, h, g.ncg - 1);
    forall c: nat | c < g.ncg ensures SameMarked(was[c], now[c]) && now[c] == sum[c] && (c > 0 ==> sum[c] == tail[c]) {
      assert now[..g.ncg][c] == now[c];
      if c > 0 && h.csumFrags > g.csumFrags { assert sum[1..][c - 1] == tail[1..][c - 1]; }
    }
    forall c: nat, i: nat | c < g.ncg && i < g.fpg ensures GrownBit(g, h, was[c].free, now[c].free, c, i) {
    }
  }

  /** Every group holds its own metadata. */
  ghost predicate Roomy(g: Superblock) {
    forall c: nat | c < g.ncg :: g.Lower(c) <= g.Upper(c) <= g.GroupFrags(c)
  }

  /** The groups so far are valid and the summary table mirrors them. */
  ghost predicate Standing(g: Geometry, groups: seq<CylGroup>, csum: seq<Csum>) {
    && |groups| == |csum| <= g.ncg
    && forall c | 0 <= c < |groups| :: groups[c].Valid(g, c) && csum[c] == groups[c].cs
  }

  /** Sum of the summary table after one entry moved. */
  lemma SumMoved(csum: seq<Csum>, c: nat, now: Csum)
    requires c < |csum|
    ensures SumOf(csum[c := now]) == SumOf(csum).Plus(Csum(now.ndir - csum[c].ndir, now.nbfree - csum[c].nbfree,
                                                            now.nifree - csum[c].nifree, now.nffree - csum[c].nffree))
  {
    hide SumOf;
    var d := Csum(now.ndir - csum[c].ndir, now.nbfree - csum[c].nbfree, now.nifree - csum[c].nifree, now.nffree - csum[c].nffree);
    assert csum[c].Plus(d) == now;
    SumOfUpdate(csum, c, d);
  }

  method GrowTail(g: Geometry, h: Geometry, groups: seq<CylGroup>, csum: seq<Csum>)
    returns (groups': seq<CylGroup>, csum': seq<Csum>, dNb: int, dNf: int, dSize: int)
    requires Standing(g, groups, csum) && |groups| == g.ncg && Grown(g, h) && h.csumFrags == g.csumFrags
    requires Roomy(g) && MetadataEndsInside(g)
    ensures Standing(h, groups', csum') && |groups'| == g.ncg
    ensures SumOf(csum') == SumOf(csum).Plus(Csum(0, dNb, 0, dNf)) && g.fpb * dNb + dNf == dSize
    ensures 0 <= dSize == h.GroupFrags(g.ncg - 1) - g.GroupFrags(g.ncg - 1)
    ensures forall c | 0 <= c < g.ncg - 1 :: groups'[c] == groups[c]
    ensures groups'[g.ncg - 1].free == Fill(groups[g.ncg - 1].free, g.GroupFrags(g.ncg - 1), dSize, true)
    ensures csum' == csum[g.ncg - 1 := groups'[g.ncg - 1].cs]
    ensures groups'[0].free == if g.ncg == 1 then Fill(groups[0].free, g.GroupFrags(0), dSize, true) else groups[0].free
    ensures SameMarked(groups[g.ncg - 1], groups'[g.ncg - 1])
  {
    hide Superblock.Valid, Recount, CylGroup.Counted, CylGroup.Valid, Superblock.GroupFrags, SumOf, Superblock.Lower, Superblock.Upper, MetadataEndsInside;
    var last: nat := g.ncg - 1;
    var r;
    r, dSize := ExpandOldLastCg(g, h, groups[last]);
    SumMoved(csum, last, r.cs);
    dNb, dNf := r.cs.nbfree - csum[last].nbfree, r.cs.nffree - csum[last].nffree;
    groups', csum' := groups[last := r], csum[last := r.cs];
    forall c | 0 <= c < |groups'| ensures groups'[c].Valid(h, c) {
      if c < last {
        FullGroupSame(g, h, c, groups[c]);
      }
    }
  }

  method GrowSummary(g: Geometry, h: Geometry, groups: seq<CylGroup>, csum: seq<Csum>)
    returns (ok: bool, groups': seq<CylGroup>, csum': seq<Csum>, dNb: int, dNf: int)
    requires Standing(g, groups, csum) && |groups| > 0 && Grown(g, h) && h == g.(csumFrags := h.csumFrags)
    requires h.csumAddr + h.csumFrags <= g.fpg
    ensures ok <==> forall i | g.csumAddr + g.csumFrags <= i < h.csumAddr + h.csumFrags && i < |groups[0].free| :: groups[0].free[i]
    ensures ok ==> Standing(h, groups', csum') && |groups'| == |groups| && groups'[1..] == groups[1..] && SameMarked(groups[0], groups'[0])
    ensures ok ==> groups'[0].free == Fill(groups[0].free, g.csumAddr + g.csumFrags, h.csumFrags - g.csumFrags, false)
    ensures ok ==> SumOf(csum') == SumOf(csum).Plus(Csum(0, dNb, 0, dNf))
    ensures ok ==> g.fpb * dNb + dNf == -((h.csumFrags - g.csumFrags) as int)
  {
    hide Superblock.Valid, Recount, CylGroup.Counted, CylGroup.Valid, Superblock.GroupFrags, SumOf;
    groups', csum', dNb, dNf := groups, csum, 0, 0;
    MapSizeOf(g, 0, groups[0]);
    var r := ReserveSummaryExtension(g, h, groups[0]);
    ok := r.Some?;
    if ok {
      SumMoved(csum, 0, r.value.cs);
      dNb, dNf := r.value.cs.nbfree - csum[0].nbfree, r.value.cs.nffree - csum[0].nffree;
      groups', csum' := groups[0 := r.value], csum[0 := r.value.cs];
      forall c | 0 < c < |groups| ensures groups[c].Valid(h, c) {
        LaterGroupSame(g, h, c, groups[c]);
      }
    }
  }

  lemma MapSizeOf(g: Geometry, c: nat, a: CylGroup)
    requires c < g.ncg && a.Valid(g, c)
    ensures |a.free| == g.fpg
  {
  }

  /** The summary area concerns group 0 only. */
  lemma LaterGroupSame(g: Geometry, h: Geometry, c: nat, a: CylGroup)
    requires h == g.(csumFrags := h.csumFrags) && g.csumFrags <= h.csumFrags && 0 < c < g.ncg && a.Valid(g, c)
    ensures a.Valid(h, c)
  {
    hide Superblock.Valid, Recount, CylGroup.Counted, Superblock.GroupFrags;
    CountedSame(g, h, a);
    SameFrags(g, h, c);
  }

  /** Data fragments of the groups from a up to b. */
  ghost function NewData(h: Superblock, a: nat, b: nat): int
    decreases b
  {
    if b <= a then 0 else NewData(h, a, b - 1) + h.Lower(b - 1) + h.GroupFrags(b - 1) - h.Upper(b - 1)
  }

  method GrowGroups(h: Geometry, groups: seq<CylGroup>, csum: seq<Csum>)
    returns (groups': seq<CylGroup>, csum': seq<Csum>, dNb: int, dNi: int, dNf: int, dSize: int)
    requires Standing(h, groups, csum) && 0 < |groups|
    requires forall c: nat | |groups| <= c < h.ncg :: h.Lower(c) <= h.Upper(c) <= h.GroupFrags(c)
    ensures Standing(h, groups', csum') && |groups'| == h.ncg && |groups| <= |groups'|
    ensures groups'[..|groups|] == groups && forall c: nat | |groups| <= c < h.ncg :: Built(h, c, groups'[c])
    ensures SumOf(csum') == SumOf(csum).Plus(Csum(0, dNb, dNi, dNf))
    ensures h.fpb * dNb + dNf == dSize == NewData(h, |groups|, h.ncg)
  {
    hide Superblock.Valid, Recount, CylGroup.Counted, CylGroup.Valid, Superblock.GroupFrags, SumOf, Superblock.Lower, Superblock.Upper;
    groups', csum', dNb, dNi, dNf, dSize := groups, csum, 0, 0, 0, 0;
    assert SumOf(csum) == SumOf(csum).Plus(Csum(0, 0, 0, 0));
    for c := |groups| to h.ncg
      invariant Standing(h, groups', csum') && |groups'| == c
      invariant groups'[..|groups|] == groups && forall k: nat | |groups| <= k < c :: Built(h, k, groups'[k])
      invariant SumOf(csum') == SumOf(csum).Plus(Csum(0, dNb, dNi, dNf))
      invariant h.fpb * dNb + dNf == dSize == NewData(h, |groups|, c)
    {
      GroupFragsBounds(h, c);
      var cg := BuildNewCg(h, c, h.GroupFrags(c));
      assert cg.Some?;
      BuiltValid(h, c, cg.value);
      NewIsBuilt(h, c, cg.value);
      SumOfAppend(csum', cg.value.cs);
      DistributeSum(h.fpb, dNb, cg.value.cs.nbfree);
      groups', csum' := groups' + [cg.value], csum' + [cg.value.cs];
      dNb, dNi, dNf := dNb + cg.value.cs.nbfree, dNi + cg.value.cs.nifree, dNf + cg.value.cs.nffree;
      dSize := dSize + h.Lower(c) + (h.GroupFrags(c) - h.Upper(c));
    }
  }

  lemma DistributeSum(m: nat, a: int, b: int)
    ensures m * (a + b) == m * a + m * b
  {
  }

  lemma MidValid(g: Geometry, h: Geometry, m: Superblock)
    requires Grown(g, h) && m == g.(ncg := h.ncg, fragCount := h.fragCount)
    ensures m.Valid() && Grown(g, m) && Grown(m, h) && h == m.(csumFrags := h.csumFrags)
    ensures forall c: nat :: m.GroupFrags(c) == h.GroupFrags(c) && m.Lower(c) == h.Lower(c) && m.Upper(c) == h.Upper(c)
  {
  }

  lemma MetadataOrder(g: Geometry, c: nat)
    ensures g.Lower(c) <= g.Upper(c)
  {
  }

  lemma DiskRoom(g: Geometry, h: Geometry)
    requires Grown(g, h)
    ensures g.Off(g.fragCount) <= h.Off(h.fragCount) && g.fragSize == h.fragSize
    ensures g.ncg * g.inodesPerGroup <= h.ncg * h.inodesPerGroup
  {
    g.OffMonotone(g.fragCount, h.fragCount);
    MulAll(g.ncg, h.ncg, g.inodesPerGroup);
  }

  lemma MulAll(a: nat, b: nat, m: nat)
    requires a <= b
    ensures a * m <= b * m
  {
  }

  lemma SummaryMirrors(g: Geometry, groups: seq<CylGroup>, csum: seq<Csum>)
    requires Standing(g, groups, csum)
    ensures forall c | 0 <= c < |groups| :: csum[c] == groups[c].cs
  {
    hide CylGroup.Valid;
  }

  /** Each new group has room for its metadata, and the longer summary area stays inside group 0. */
  ghost predicate TargetFits(g: Superblock, h: Superblock) {
    && (forall c: nat | g.ncg <= c < h.ncg :: h.Upper(c) <= h.GroupFrags(c))
    && (h.csumFrags > g.csumFrags ==> h.csumAddr + h.csumFrags <= h.fpg)
  }

  method GrowChecks(g: Geometry, h: Geometry) returns (ok: bool)
    requires g.ncg <= h.ncg
    ensures ok <==> TargetFits(g, h)
  {
    hide Superblock.Valid, Superblock.GroupFrags, Superblock.Upper;
    for c := g.ncg to h.ncg
      invariant forall k: nat | g.ncg <= k < c :: h.Upper(k) <= h.GroupFrags(k)
    {
      if h.GroupFrags(c) < h.Upper(c) {
        return false;
      }
    }
    return !(h.csumFrags > g.csumFrags && h.csumAddr + h.csumFrags > h.fpg);
  }

  /** Every fragment of the longer summary area is free, or comes into being with the last group's
      new end. */
  ghost predicate SummaryClear(g: Superblock, h: Superblock, free: seq<bool>) {
    forall i | g.csumAddr + g.csumFrags <= i < h.csumAddr + h.csumFrags && i < |free| ::
      free[i] || (g.ncg == 1 && g.GroupFrags(0) <= i < h.GroupFrags(0))
  }

  /** Where growing stops at the summary range: the old last group has its new fragments, counted in
      its summary entry, and the superblock's totals fall short by just those. */
  ghost predicate TailGrown(g: Geometry, h: Geometry, was: seq<CylGroup>, now: seq<CylGroup>, csum: seq<Csum>, csum': seq<Csum>, total: Csum)
  {
    && |was| == |now| == |csum| == g.ncg && total == SumOf(csum)
    && var last: nat := g.ncg - 1; var more := h.GroupFrags(last) - g.GroupFrags(last);
    && more >= 0 && now[last].Counted(h) && now[last].free == Fill(was[last].free, g.GroupFrags(last), more, true)
    && csum' == csum[last := now[last].cs]
    && g.fpb * (SumOf(csum').nbfree - total.nbfree) + (SumOf(csum').nffree - total.nffree) == more
  }

  /** resize_grow's writes, after its evacuation pass: the old last group, the summary area, the new
      groups, the totals, and zeroes for the new inode tables. It reports the change of the free
      totals and of the data-fragment count. A summary range that is not clear stops it when the old
      last group has grown already and the superblock has not. */
  method GrowImage(img: Image, h: Geometry) returns (rc: Rc, dNb: int, dNf: int, dSize: int)
    requires img.Valid() && Grown(img.g, h) && Roomy(img.g) && MetadataEndsInside(img.g)
    requires |img.inodes| == img.g.ncg * img.g.inodesPerGroup
    modifies img
    ensures rc == if !TargetFits(old(img.g), h) then Invalid
                  else if h.csumFrags > old(img.g.csumFrags) && !SummaryClear(old(img.g), h, old(img.groups)[0].free) then NoSpace
                  else Ok
    ensures rc == Invalid ==> unchanged(img)
    ensures rc == NoSpace ==>
              img.g == old(img.g) && img.total == old(img.total) && img.disk == old(img.disk) && img.inodes == old(img.inodes)
    ensures rc == NoSpace ==>
              |img.groups| == |old(img.groups)| && forall c | 0 <= c < |img.groups| - 1 :: img.groups[c] == old(img.groups)[c]
    ensures rc == NoSpace ==> TailGrown(img.g, h, old(img.groups), img.groups, old(img.csum), img.csum, img.total)
    ensures rc == Ok ==> img.Valid() && img.g == h && |img.inodes| == h.ncg * h.inodesPerGroup
    ensures rc == Ok ==> h.fpb * dNb + dNf == dSize
    ensures rc == Ok ==> img.total.nbfree == old(img.total.nbfree) + dNb && img.total.nffree == old(img.total.nffree) + dNf
    ensures var g := old(img.g);
            rc == Ok ==> dSize == h.GroupFrags(g.ncg - 1) - g.GroupFrags(g.ncg - 1) - (h.csumFrags - g.csumFrags) + NewData(h, g.ncg, h.ncg)
    ensures rc == Ok ==> |old(img.disk)| <= |img.disk| && img.disk[..|old(img.disk)|] == old(img.disk)
    ensures rc == Ok ==> |old(img.inodes)| <= |img.inodes| && img.inodes[..|old(img.inodes)|] == old(img.inodes)
    ensures rc == Ok ==> GrownGroups(old(img.g), h, old(img.groups), img.groups) && Blanks(|old(img.disk)|, img.disk, |old(img.inodes)|, img.inodes)
  {
    hide Superblock.Valid, Recount, CylGroup.Counted, CylGroup.Valid, Superblock.GroupFrags, SumOf, Superblock.Off,
      Superblock.Lower, Superblock.Upper, NewData, MetadataEndsInside, Grown, FreeSet, SummaryClear, GrownGroups, Built, Blanks, SameMarked,
      TailGrown, Fill, Roomy;
    var g := img.g;
    GrownFacts(g, h);
    var fits := GrowChecks(g, h);
    if !fits {
      return Invalid, 0, 0, 0;
    }
    var mid := g.(ncg := h.ncg, fragCount := h.fragCount);
    MidValid(g, h, mid);
    forall c: nat | c < h.ncg ensures h.Lower(c) <= h.Upper(c) { MetadataOrder(h, c); }
    DiskRoom(g, h);
    var groups, csum, dNi;
    groups, csum, dNb, dNf, dSize := GrowTail(g, mid, img.groups, img.csum);
    ClearAfterTail(g, h, mid, img.groups[0], groups[0], dSize);
    ghost var tail, gained := groups, dSize;
    if h.csumFrags > mid.csumFrags {
      var ok, nb, nf, groups', csum';
      ok, groups', csum', nb, nf := GrowSummary(mid, h, groups, csum);
      if !ok {
        TailOnly(g, h, mid, img.groups, groups, img.csum, csum, img.total, dNb, dNf, dSize);
        img.groups, img.csum := groups, csum;
        return NoSpace, 0, 0, 0;
      }
      groups, csum := groups', csum';
      DistributeSum(h.fpb, dNb, nb);
      dNb, dNf, dSize := dNb + nb, dNf + nf, dSize - (h.csumFrags - mid.csumFrags);
    } else {
      assert mid == h;
    }
    ghost var sum := groups;
    var nb, nf, ds;
    groups, csum, nb, dNi, nf, ds := GrowGroups(h, groups, csum);
    forall c | 0 <= c < g.ncg ensures |img.groups[c].free| == g.fpg { MapSizeOf(g, c, img.groups[c]); }
    GroupsGrown(g, h, mid, img.groups, tail, sum, groups, gained);
    DistributeSum(h.fpb, dNb, nb);
    dNb, dNf, dSize := dNb + nb, dNf + nf, dSize + ds;
    Install(img, h, groups, csum, Csum(0, dNb, dNi, dNf));
    rc := Ok;
  }

  lemma TailOnly(g: Geometry, h: Geometry, m: Geometry, was: seq<CylGroup>, now: seq<CylGroup>, csum: seq<Csum>, csum': seq<Csum>,
                 total: Csum, dNb: int, dNf: int, dSize: int)
    requires Grown(g, h) && m == g.(ncg := h.ncg, fragCount := h.fragCount) && |was| == |csum| == g.ncg && total == SumOf(csum)
    requires Standing(m, now, csum') && |now| == g.ncg
    requires SumOf(csum') == SumOf(csum).Plus(Csum(0, dNb, 0, dNf)) && g.fpb * dNb + dNf == dSize
    requires 0 <= dSize == m.GroupFrags(g.ncg - 1) - g.GroupFrags(g.ncg - 1)
    requires now[g.ncg - 1].free == Fill(was[g.ncg - 1].free, g.GroupFrags(g.ncg - 1), dSize, true)
    requires csum' == csum[g.ncg - 1 := now[g.ncg - 1].cs]
    ensures TailGrown(g, h, was, now, csum, csum', total)
  {
    hide Superblock.Valid, SumOf, Superblock.GroupFrags, Recount;
    SameFrags(m, h, g.ncg - 1);
    CountedSame(m, h, now[g.ncg - 1]);
  }

  /** Then the totals are not the sum of the summary table, if the last group gained anything. */
  lemma TailAtOdds(g: Geometry, h: Geometry, was: seq<CylGroup>, now: seq<CylGroup>, csum: seq<Csum>, csum': seq<Csum>, total: Csum)
    requires TailGrown(g, h, was, now, csum, csum', total)
    ensures total == SumOf(csum') ==> h.GroupFrags(g.ncg - 1) == g.GroupFrags(g.ncg - 1)
  {
    hide Superblock.Valid, SumOf, Superblock.GroupFrags, CylGroup.Counted;
  }

  /** After the last group grew, the summary range is free in group 0 exactly when it was clear. */
  lemma ClearAfterTail(g: Geometry, h: Geometry, m: Geometry, was: CylGroup, now: CylGroup, dsize: nat)
    requires Grown(g, h) && m == g.(ncg := h.ncg, fragCount := h.fragCount) && was.Valid(g, 0)
    requires dsize == m.GroupFrags(g.ncg - 1) - g.GroupFrags(g.ncg - 1)
    requires now.free == if g.ncg == 1 then Fill(was.free, g.GroupFrags(0), dsize, true) else was.free
    ensures SummaryClear(g, h, was.free) <==>
              forall i | m.csumAddr + m.csumFrags <= i < h.csumAddr + h.csumFrags && i < |now.free| :: now.free[i]
  {
    hide Superblock.Valid, CylGroup.Counted, Superblock.GroupFrags;
    SameFrags(m, h, 0);
    forall i | g.csumAddr + g.csumFrags <= i < h.csumAddr + h.csumFrags && i < |was.free|
      ensures now.free[i] <==> was.free[i] || (g.ncg == 1 && g.GroupFrags(0) <= i < h.GroupFrags(0))
    {
    }
  }

  /** New bytes of the disk and new inodes are zero. */
  ghost predicate Blanks(n: nat, disk: seq<byte>, m: nat, inodes: seq<Inode>) {
    (forall k | n <= k < |disk| :: disk[k] == 0) && forall k | m <= k < |inodes| :: inodes[k] == CLEARED
  }

  /** The grown groups and summary in place, the totals patched, the new space zeroed. */
  method Install(img: Image, h: Geometry, groups: seq<CylGroup>, csum: seq<Csum>, add: Csum)
    requires Standing(h, groups, csum) && |groups| == h.ncg && SumOf(csum) == img.total.Plus(add)
    requires |img.disk| <= h.Off(h.fragCount) && |img.inodes| <= h.ncg * h.inodesPerGroup
    modifies img
    ensures img.Valid() && img.g == h && img.total == old(img.total).Plus(add) && |img.inodes| == h.ncg * h.inodesPerGroup
    ensures |old(img.disk)| <= |img.disk| && img.disk[..|old(img.disk)|] == old(img.disk)
    ensures |old(img.inodes)| <= |img.inodes| && img.inodes[..|old(img.inodes)|] == old(img.inodes)
    ensures img.groups == groups && Blanks(|old(img.disk)|, img.disk, |old(img.inodes)|, img.inodes)
  {
    hide Superblock.Valid, CylGroup.Valid, SumOf, Superblock.Off;
    SummaryMirrors(h, groups, csum);
    img.g, img.groups, img.csum := h, groups, csum;
    img.total := img.total.Plus(add);
    img.disk := img.disk + seq(h.Off(h.fragCount) - |img.disk|, _ => 0);
    img.inodes := img.inodes + seq(h.ncg * h.inodesPerGroup - |img.inodes|, _ => CLEARED);
  }

  lemma GrownFacts(g: Geometry, h: Geometry)
    requires Grown(g, h)
    ensures g.fpb == h.fpb && g.fpg == h.fpg && g.csumAddr == h.csumAddr && g.ncg <= h.ncg && g.csumFrags <= h.csumFrags
    ensures g.inodesPerGroup == h.inodesPerGroup
  {
  }
}
