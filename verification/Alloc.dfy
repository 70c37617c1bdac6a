/** The fragment allocator: first fit inside a group, round robin over groups, extension,
    release and relocation of runs, each keeping every derived counter exact. */
module Alloc {
  import opened Geometry
  import opened FreeMap
  import opened Image

  // ---- what a group can offer ----

  /** n free fragments at `start`, inside the aligned block at `block`. */
  predicate Fits(g: Geometry, free: seq<bool>, block: nat, start: nat, n: nat)
  {
    && g.Aligned(block) && block < g.fpg
    && block <= start && start + n <= block + g.fpb
    && AllFree(Slice(free, start, n))
  }

  /** As Fits, in a block that is not entirely free. */
  predicate FitsPartial(g: Geometry, free: seq<bool>, block: nat, start: nat, n: nat)
  {
    Fits(g, free, block, start, n) && !AllFree(Slice(free, block, g.fpb))
  }

  predicate WholeFree(g: Geometry, free: seq<bool>, block: nat)
  {
    g.Aligned(block) && block < g.fpg && AllFree(Slice(free, block, g.fpb))
  }

  /** The allocator's choice: the lowest fitting run of a partly used block if there is one,
      otherwise the start of the lowest whole free block. */
  ghost predicate FirstFit(g: Geometry, free: seq<bool>, block: nat, start: nat, n: nat)
  {
    if n < g.fpb && (exists b: nat, s: nat :: FitsPartial(g, free, b, s, n)) then
      FitsPartial(g, free, block, start, n) && forall b: nat, s: nat :: FitsPartial(g, free, b, s, n) ==> start <= s
    else
      WholeFree(g, free, block) && start == block && forall b: nat :: WholeFree(g, free, b) ==> block <= b
  }

  // ---- counter bookkeeping of one block ----

  lemma SliceFill(free: seq<bool>, off: nat, m: nat, start: nat, n: nat, v: bool)
    requires off + m <= |free| && off <= start && start + n <= off + m
    ensures Slice(Fill(free, start, n, v), off, m) == Fill(Slice(free, off, m), start - off, n, v)
  {
  }

  lemma FillInBlock(g: Geometry, free: seq<bool>, off: nat, start: nat, n: nat, v: bool)
    requires off <= start && start + n <= off + g.fpb
    ensures SameOutside(g, free, Fill(free, start, n, v), off)
  {
  }

  /** nextufs__apply_cg_frsum_delta. */
  method ApplyFrsumDelta(frsum: seq<int>, before: seq<nat>, after: seq<nat>, fpb: nat) returns (r: seq<int>)
    requires |frsum| == MAX_FRAG && |before| == |after| == fpb + 1 && fpb <= MAX_FRAG
    ensures |r| == MAX_FRAG
    ensures forall s | 1 <= s < fpb :: r[s] == frsum[s] + after[s] - before[s]
    ensures forall s | 0 <= s < MAX_FRAG && !(1 <= s < fpb) :: r[s] == frsum[s]
  {
    r := frsum;
    var i := 1;
    while i < fpb
      invariant 1 <= i && |r| == MAX_FRAG
      invariant forall s | 0 <= s < MAX_FRAG && !(1 <= s < fpb) :: r[s] == frsum[s]
      invariant forall s | 1 <= s < fpb :: r[s] == if s < i then frsum[s] + after[s] - before[s] else frsum[s]
    {
      var delta := after[i] as int - before[i] as int;
      if delta != 0 {
        r := r[i := r[i] + delta];
      }
      i := i + 1;
    }
  }

  /** The rotational tables after one more (or one fewer) whole block at `off`. */
  method AdjustRotation(g: Geometry, buf: CylGroup, off: nat, d: int) returns (r: CylGroup)
    requires buf.Shaped(g)
    ensures r.Shaped(g) && r == buf.(btot := r.btot, b := r.b)
    ensures forall c | 0 <= c < MAX_CPG :: r.btot[c] == buf.btot[c] + if c == g.CylNo(off) then d else 0
    ensures forall c, p | 0 <= c < MAX_CPG && 0 <= p < NRPOS ::
              r.b[c][p] == buf.b[c][p] + if c == g.CylNo(off) && p == g.RotPos(off) then d else 0
  {
    var cyl, rot := g.CylNo(off), g.RotPos(off);
    r := buf;
    if cyl < MAX_CPG && rot < NRPOS {
      r := r.(btot := r.btot[cyl := r.btot[cyl] + d],
              b := r.b[cyl := r.b[cyl][rot := r.b[cyl][rot] + d]]);
    }
  }

  /** Clears a free run inside a partly used block; only the loose-fragment counters move. */
  method TakePartial(g: Geometry, buf: CylGroup, block: nat, start: nat, n: nat) returns (r: CylGroup)
    requires buf.Counted(g) && 0 < n
    requires FitsPartial(g, buf.free, block, start, n) && block + g.fpb <= g.fpg
    ensures r.Counted(g)
    ensures r == buf.(frsum := r.frsum, free := Fill(buf.free, start, n, false),
                      cs := buf.cs.(nffree := buf.cs.nffree - n))
  {
    var before := CountFreeRuns(buf.free, block, g.fpb);
    var free := WriteRun(buf.free, start, n, false);
    var after := CountFreeRuns(free, block, g.fpb);
    var frsum := ApplyFrsumDelta(buf.frsum, before, after, g.fpb);
    r := buf.(free := free, frsum := frsum, cs := buf.cs.(nffree := buf.cs.nffree - n));
    TakePartialCounts(g, buf, r, block, start, n);
  }

  lemma TakePartialCounts(g: Geometry, a: CylGroup, b: CylGroup, block: nat, start: nat, n: nat)
    requires a.Counted(g) && b.Shaped(g) && 0 < n
    requires FitsPartial(g, a.free, block, start, n) && block + g.fpb <= g.fpg
    requires b.free == Fill(a.free, start, n, false) && b.cs == a.cs.(nffree := a.cs.nffree - n)
    requires b.btot == a.btot && b.b == a.b
    requires forall s | 1 <= s < g.fpb :: b.frsum[s] == a.frsum[s]
               + Runs(Slice(b.free, block, g.fpb), s) - Runs(Slice(a.free, block, g.fpb), s)
    ensures b.Counted(g)
  {
    hide Superblock.Valid, RunsFrom, PopCount, Superblock.CylNo, Superblock.RotPos;
    var old_, new_ := Slice(a.free, block, g.fpb), Slice(b.free, block, g.fpb);
    SliceFill(a.free, block, g.fpb, start, n, false);
    FillInBlock(g, a.free, block, start, n, false);
    assert PopCount(new_) == PopCount(old_) - n by {
      forall j | start - block <= j < start - block + n ensures old_[j] {
        assert Slice(a.free, start, n)[j - (start - block)];
      }
      PopCountFill(old_, start - block, n);
    }
    assert !new_[start - block];
    CountedAfter(g, a, b, block);
  }

  /** Splits a whole free block: its first n fragments are taken, the rest becomes one run. */
  method TakeWhole(g: Geometry, buf: CylGroup, block: nat, n: nat) returns (r: CylGroup)
    requires buf.Counted(g) && 0 < n <= g.fpb
    requires WholeFree(g, buf.free, block) && block + g.fpb <= g.fpg
    ensures r.Counted(g)
    ensures r == buf.(rotor := block, frsum := r.frsum, btot := r.btot, b := r.b,
                      free := Fill(buf.free, block, n, false),
                      cs := buf.cs.(nbfree := buf.cs.nbfree - 1, nffree := buf.cs.nffree + (g.fpb - n)))
  {
    var free := WriteRun(buf.free, block, n, false);
    var rest := g.fpb - n;
    r := buf.(free := free, rotor := block,
              cs := buf.cs.(nbfree := buf.cs.nbfree - 1, nffree := buf.cs.nffree + rest));
    if rest > 0 {
      r := r.(frsum := r.frsum[rest := r.frsum[rest] + 1]);
    }
    r := AdjustRotation(g, r, block, -1);
    TakeWholeCounts(g, buf, r, block, n);
  }

  lemma TakeWholeCounts(g: Geometry, a: CylGroup, b: CylGroup, block: nat, n: nat)
    requires a.Counted(g) && b.Shaped(g) && 0 < n <= g.fpb
    requires WholeFree(g, a.free, block) && block + g.fpb <= g.fpg
    requires b.free == Fill(a.free, block, n, false)
    requires b.cs == a.cs.(nbfree := a.cs.nbfree - 1, nffree := a.cs.nffree + (g.fpb - n))
    requires forall s | 1 <= s < g.fpb :: b.frsum[s] == a.frsum[s] + if s == g.fpb - n then 1 else 0
    requires forall c | 0 <= c < MAX_CPG :: b.btot[c] == a.btot[c] - if c == g.CylNo(block) then 1 else 0
    requires forall c, p | 0 <= c < MAX_CPG && 0 <= p < NRPOS ::
               b.b[c][p] == a.b[c][p] - if c == g.CylNo(block) && p == g.RotPos(block) then 1 else 0
    ensures b.Counted(g)
  {
    hide Superblock.Valid, RunsFrom, PopCount, Superblock.CylNo, Superblock.RotPos;
    var old_, new_ := Slice(a.free, block, g.fpb), Slice(b.free, block, g.fpb);
    SliceFill(a.free, block, g.fpb, block, n, false);
    FillInBlock(g, a.free, block, block, n, false);
    PopCountFill(old_, 0, n);
    PopCountAll(old_);
    assert !new_[0];
    forall s | 1 <= s < g.fpb
      ensures Runs(old_, s) == 0 && Runs(new_, s) == if s == g.fpb - n then 1 else 0
    {
      RunsOfFull(old_, s);
      RunsOfTail(old_, n, s);
    }
    CountedAfter(g, a, b, block);
  }

  /** Sets a used run free again; when that completes a whole block, its loose fragments are
      reclassified. Returns None if some fragment of the run was free already. */
  method ReturnRun(g: Geometry, buf: CylGroup, block: nat, start: nat, n: nat) returns (r: Option<CylGroup>)
    requires buf.Counted(g) && 0 < n && g.Aligned(block) && block + g.fpb <= g.fpg
    requires block <= start && start + n <= block + g.fpb
    ensures r.None? <==> exists i :: start <= i < start + n && buf.free[i]
    ensures r.Some? ==>
      var whole := AllFree(Slice(r.value.free, block, g.fpb));
      && r.value.Counted(g)
      && (forall s | 0 <= s < MAX_FRAG && !(1 <= s < g.fpb) :: r.value.frsum[s] == buf.frsum[s])
      && r.value == buf.(frsum := r.value.frsum, btot := r.value.btot, b := r.value.b,
                         free := Fill(buf.free, start, n, true),
                         cs := buf.cs.(nbfree := buf.cs.nbfree + (if whole then 1 else 0),
                                       nffree := buf.cs.nffree + n - (if whole then g.fpb else 0)))
  {
    var before := CountFreeRuns(buf.free, block, g.fpb);
    var free := buf.free;
    for i := 0 to n
      invariant free == Fill(buf.free, start, i, true)
      invariant forall j | start <= j < start + i :: !buf.free[j]
    {
      if free[start + i] {
        return None;
      }
      free := free[start + i := true];
    }
    var after := CountFreeRuns(free, block, g.fpb);
    var frsum := ApplyFrsumDelta(buf.frsum, before, after, g.fpb);
    var x := buf.(free := free, frsum := frsum);
    var whole := RunIsFree(free, block, g.fpb);
    if whole {
      x := x.(cs := x.cs.(nffree := x.cs.nffree + n - g.fpb, nbfree := x.cs.nbfree + 1));
      x := AdjustRotation(g, x, block, 1);
    } else {
      x := x.(cs := x.cs.(nffree := x.cs.nffree + n));
    }
    ReturnRunCounts(g, buf, x, block, start, n, whole);
    return Some(x);
  }

  lemma ReturnRunCounts(g: Geometry, a: CylGroup, b: CylGroup, block: nat, start: nat, n: nat, whole: bool)
    requires a.Counted(g) && b.Shaped(g) && 0 < n && g.Aligned(block) && block + g.fpb <= g.fpg
    requires block <= start && start + n <= block + g.fpb
    requires forall j | start <= j < start + n :: !a.free[j]
    requires b.free == Fill(a.free, start, n, true)
    requires whole <==> AllFree(Slice(b.free, block, g.fpb))
    requires b.cs.nbfree == a.cs.nbfree + if whole then 1 else 0
    requires b.cs.nffree == a.cs.nffree + n - if whole then g.fpb else 0
    requires forall s | 1 <= s < g.fpb :: b.frsum[s] == a.frsum[s]
               + Runs(Slice(b.free, block, g.fpb), s) - Runs(Slice(a.free, block, g.fpb), s)
    requires forall c | 0 <= c < MAX_CPG :: b.btot[c] == a.btot[c] + if whole && c == g.CylNo(block) then 1 else 0
    requires forall c, p | 0 <= c < MAX_CPG && 0 <= p < NRPOS ::
               b.b[c][p] == a.b[c][p] + if whole && c == g.CylNo(block) && p == g.RotPos(block) then 1 else 0
    ensures b.Counted(g)
  {
    hide Superblock.Valid, RunsFrom, PopCount, Superblock.CylNo, Superblock.RotPos;
    var old_, new_ := Slice(a.free, block, g.fpb), Slice(b.free, block, g.fpb);
    SliceFill(a.free, block, g.fpb, start, n, true);
    FillInBlock(g, a.free, block, start, n, true);
    assert !old_[start - block];
    assert old_ == Fill(new_, start - block, n, false);
    assert PopCount(old_) == PopCount(new_) - n && (AllFree(new_) ==> PopCount(new_) == g.fpb) by {
      PopCountFill(new_, start - block, n);
      PopCountAll(new_);
    }
    CountedAfter(g, a, b, block);
  }

  // ---- one group ----

  /** Writes a changed group buffer back and moves the summary entry and the totals with it. */
  method WriteBack(img: Image, c: nat, buf: CylGroup, ghost start: nat, ghost n: nat, ghost v: bool)
    requires img.Valid() && c < img.g.ncg && buf.Valid(img.g, c)
    requires start + n <= img.g.fpg && buf.free == Fill(img.groups[c].free, start, n, v)
    requires InodeSide(buf) == InodeSide(img.groups[c])
    modifies img`groups, img`csum, img`total
    ensures SameInodes(old(img.groups), img.groups)
    ensures img.Valid()
    ensures img.groups == old(img.groups)[c := buf]
    ensures var r := Run(img.g.Base(c) + start, n);
            img.Free() == if v then old(img.Free()) + r else old(img.Free()) - r
  {
    FreeSetFill(img.g, img.groups, c, buf, start, n, v);
    var was := img.groups[c].cs;
    img.groups := img.groups[c := buf];
    img.UpdateSummaryCounts(c, Csum(0, buf.cs.nbfree - was.nbfree, 0, buf.cs.nffree - was.nffree));
  }

  /** A fitting run lies in the data area of its group, so it may be handed out. */
  lemma FitsIsPlaced(g: Geometry, groups: seq<CylGroup>, c: nat, block: nat, start: nat, n: nat)
    requires |groups| == g.ncg && c < g.ncg && groups[c].Valid(g, c)
    requires Fits(g, groups[c].free, block, start, n) && 0 < n
    ensures block + g.fpb <= g.fpg && g.BlkNum(start) == block
    ensures Placed(g, g.Base(c) + start, n)
    ensures Run(g.Base(c) + start, n) <= FreeSet(g, groups)
  {
    hide Placed, FreeSet, Run, Superblock.Base;
    var free := groups[c].free;
    AlignedStep(g.fpb, block, g.fpg);
    BlockStart(g.fpb, block, start);
    forall i | start <= i < start + n ensures free[i] {
      assert Slice(free, start, n)[i - start];
    }
    TailIsClear(g, groups[c], c, start, n);
    PlacedIf(g, c, start, n);
    FreeRunIn(g, groups, c, start, n);
  }

  lemma PlacedIf(g: Geometry, c: nat, start: nat, n: nat)
    requires c < g.ncg && 0 < n && g.FragNum(start) + n <= g.fpb
    requires start + n <= g.GroupFrags(c) && forall i | start <= i < start + n :: !g.Reserved(c, i)
    ensures Placed(g, g.Base(c) + start, n)
  {
    DivModOf(c, start, g.fpg);
  }

  lemma FreeRunIn(g: Geometry, groups: seq<CylGroup>, c: nat, start: nat, n: nat)
    requires c < |groups| && |groups[c].free| == g.fpg && start + n <= g.fpg
    requires forall i | start <= i < start + n :: groups[c].free[i]
    ensures Run(g.Base(c) + start, n) <= FreeSet(g, groups)
  {
    RunMembers(g.Base(c) + start, n);
    forall x | x in Run(g.Base(c) + start, n) ensures x in FreeSet(g, groups) {
      GlobalRun(g, c, start, n, x);
      RunBound(g.fpg, |groups|, c, start, n);
      assert IsFree(g, groups, x);
    }
  }

  /** A partly used block with a fitting run contributes at least n loose fragments, and a
      whole free block contributes to nbfree: the counter guards never hide a fitting run. */
  lemma GuardsAreSound(g: Geometry, cg: CylGroup, block: nat, start: nat, n: nat)
    requires cg.Counted(g) && 0 < n
    ensures FitsPartial(g, cg.free, block, start, n) ==> cg.cs.nffree >= n
    ensures WholeFree(g, cg.free, block) ==> cg.cs.nbfree > 0
  {
    if g.Aligned(block) && block < g.fpg {
      RecountAtLeast(g, cg.free, 0, block, NFFree);
      RecountAtLeast(g, cg.free, 0, block, NBFree);
      assert cg.Counter(g, NFFree) == Recount(g, cg.free, 0, NFFree);
      assert cg.Counter(g, NBFree) == Recount(g, cg.free, 0, NBFree);
      if FitsPartial(g, cg.free, block, start, n) {
        var bs := Slice(cg.free, block, g.fpb);
        forall j | start - block <= j < start - block + n ensures bs[j] {
          assert Slice(cg.free, start, n)[j - (start - block)];
        }
        PopCountAtLeast(bs, start - block, n);
      }
    }
  }

  /** Once no partly used block fits, a fitting run means a whole free block, which nbfree shows. */
  lemma OnlyWholeLeft(g: Geometry, cg: CylGroup, c: nat, n: nat)
    requires c < g.ncg && cg.Valid(g, c) && 0 < n <= g.fpb
    requires n < g.fpb && cg.cs.nffree >= n ==> forall b: nat, s: nat :: !FitsPartial(g, cg.free, b, s, n)
    ensures n < g.fpb ==> forall b: nat, s: nat :: !FitsPartial(g, cg.free, b, s, n)
    ensures forall b: nat, s: nat | Fits(g, cg.free, b, s, n) :: WholeFree(g, cg.free, b) && cg.cs.nbfree > 0
  {
    forall b: nat, s: nat | Fits(g, cg.free, b, s, n)
      ensures !(n < g.fpb && FitsPartial(g, cg.free, b, s, n))
      ensures WholeFree(g, cg.free, b) && cg.cs.nbfree > 0
    {
      GuardsAreSound(g, cg, b, s, n);
      assert n == g.fpb ==> b == s;
    }
  }

  /** The search for a fitting run of a partly used block, lowest address first. */
  method FindPartial(g: Geometry, cg: CylGroup, ghost c: nat, n: nat) returns (found: bool, block: nat, start: nat)
    requires c < g.ncg && cg.Valid(g, c) && 0 < n < g.fpb
    ensures found ==> FitsPartial(g, cg.free, block, start, n)
    ensures found ==> forall b: nat, s: nat :: FitsPartial(g, cg.free, b, s, n) ==> start <= s
    ensures !found ==> forall b: nat, s: nat :: !FitsPartial(g, cg.free, b, s, n)
  {
    var local, limit := 0, cg.ndblk;
    while local < limit
      invariant g.Aligned(local)
      invariant forall b: nat, s: nat :: FitsPartial(g, cg.free, b, s, n) ==> local <= b
      decreases g.fpg - local
    {
      AlignedStep(g.fpb, local, g.fpg);
      var end := if local + g.fpb > limit then limit else local + g.fpb;
      var whole := RunIsFree(cg.free, local, g.fpb);
      if !(end - local == g.fpb && whole) {
        start := local;
        while start + n <= end
          invariant local <= start
          invariant forall s: nat :: FitsPartial(g, cg.free, local, s, n) ==> start <= s
        {
          var fits := RunIsFree(cg.free, start, n);
          if fits {
            NotWholeTail(g, cg, c, local, whole);
            forall b: nat, s: nat | FitsPartial(g, cg.free, b, s, n) && b != local ensures local + g.fpb <= b {
              AlignedStep(g.fpb, local, b);
            }
            return true, local, start;
          }
          start := start + 1;
        }
        forall s: nat ensures FitsPartial(g, cg.free, local, s, n) ==> s + n <= end {
          if FitsPartial(g, cg.free, local, s, n) {
            TailIsClear(g, cg, c, s, n);
          }
        }
      }
      forall b: nat, s: nat | FitsPartial(g, cg.free, b, s, n) && b != local ensures local + g.fpb <= b {
        AlignedStep(g.fpb, local, b);
      }
      AlignedNext(g.fpb, local);
      local := local + g.fpb;
    }
    forall b: nat, s: nat ensures FitsPartial(g, cg.free, b, s, n) ==> b < limit {
      if FitsPartial(g, cg.free, b, s, n) {
        TailIsClear(g, cg, c, s, n);
      }
    }
    return false, 0, 0;
  }

  lemma TailIsClear(g: Geometry, cg: CylGroup, c: nat, start: nat, n: nat)
    requires c < g.ncg && cg.Valid(g, c) && 0 < n && AllFree(Slice(cg.free, start, n))
    ensures start + n <= cg.ndblk
  {
    assert Slice(cg.free, start, n)[n - 1];
  }

  lemma NotWholeTail(g: Geometry, cg: CylGroup, c: nat, block: nat, whole: bool)
    requires c < g.ncg && cg.Valid(g, c)
    requires whole <==> AllFree(Slice(cg.free, block, g.fpb))
    ensures whole ==> block + g.fpb <= cg.ndblk
  {
    if whole {
      TailIsClear(g, cg, c, block, g.fpb);
    }
  }

  /** The search for a whole free block. */
  method FindWhole(g: Geometry, cg: CylGroup, ghost c: nat) returns (found: bool, block: nat)
    requires c < g.ncg && cg.Valid(g, c)
    ensures found ==> WholeFree(g, cg.free, block) && forall b: nat :: WholeFree(g, cg.free, b) ==> block <= b
    ensures !found ==> forall b: nat :: !WholeFree(g, cg.free, b)
  {
    block := 0;
    while block + g.fpb <= cg.ndblk
      invariant g.Aligned(block)
      invariant forall b: nat :: WholeFree(g, cg.free, b) ==> block <= b
    {
      var whole := RunIsFree(cg.free, block, g.fpb);
      if whole {
        return true, block;
      }
      forall b: nat | WholeFree(g, cg.free, b) ensures block + g.fpb <= b {
        AlignedStep(g.fpb, block, b);
      }
      AlignedNext(g.fpb, block);
      block := block + g.fpb;
    }
    forall b: nat ensures WholeFree(g, cg.free, b) ==> b + g.fpb <= cg.ndblk {
      if WholeFree(g, cg.free, b) {
        TailIsClear(g, cg, c, b, g.fpb);
      }
    }
    return false, 0;
  }

  /** Exactly the bits of one run of one group's map were cleared. */
  ghost predicate Took(was: seq<CylGroup>, now: seq<CylGroup>, c: nat, start: nat, n: nat) {
    && c < |was| == |now| && now == was[c := now[c]]
    && now[c].free == Fill(was[c].free, start, n, false)
  }

  lemma WholeFits(g: Geometry, free: seq<bool>, block: nat, n: nat)
    requires WholeFree(g, free, block) && n <= g.fpb
    ensures Fits(g, free, block, block, n)
  {
    forall i | 0 <= i < n ensures Slice(free, block, n)[i] {
      assert Slice(free, block, g.fpb)[i];
    }
  }

  lemma PartialIsFirst(g: Geometry, free: seq<bool>, block: nat, start: nat, n: nat)
    requires g.fpb > n && FitsPartial(g, free, block, start, n)
    requires forall b: nat, s: nat :: FitsPartial(g, free, b, s, n) ==> start <= s
    ensures FirstFit(g, free, block, start, n)
  {
  }

  lemma WholeIsFirst(g: Geometry, free: seq<bool>, block: nat, n: nat)
    requires WholeFree(g, free, block)
    requires n < g.fpb ==> forall b: nat, s: nat :: !FitsPartial(g, free, b, s, n)
    requires forall b: nat :: WholeFree(g, free, b) ==> block <= b
    ensures FirstFit(g, free, block, block, n)
  {
  }

  /** Claims a fitting run of a partly used block of group c. */
  method ClaimPartial(img: Image, c: nat, block: nat, start: nat, n: nat)
    requires img.Valid() && c < img.g.ncg && 0 < n
    requires FitsPartial(img.g, img.groups[c].free, block, start, n)
    modifies img`groups, img`csum, img`total
    ensures SameInodes(old(img.groups), img.groups)
    ensures img.Valid()
    ensures Took(old(img.groups), img.groups, c, start, n)
    ensures img.Free() == old(img.Free()) - Run(img.g.Base(c) + start, n)
  {
    hide Superblock.Base, FreeSet, Run;
    AlignedStep(img.g.fpb, block, img.g.fpg);
    var buf := TakePartial(img.g, img.groups[c], block, start, n);
    WriteBack(img, c, buf, start, n, false);
  }

  /** First half of nextufs__allocate_frags_in_group: reuse a partly used block. */
  method TakeFromPartial(img: Image, c: nat, n: nat) returns (found: bool, frag: nat, block: nat)
    requires img.Valid() && c < img.g.ncg && 0 < n < img.g.fpb
    modifies img`groups, img`csum, img`total
    ensures SameInodes(old(img.groups), img.groups)
    ensures img.Valid()
    ensures found ==> Allotted(img.g, old(img.groups), img.groups, c, block, frag, n)
    ensures !found ==> img.groups == old(img.groups) && img.csum == old(img.csum) && img.total == old(img.total)
    ensures !found ==> forall b: nat, s: nat :: !FitsPartial(img.g, img.groups[c].free, b, s, n)
  {
    hide Superblock.Base, FirstFit, Placed, FreeSet, Run;
    var start;
    found, block, start := FindPartial(img.g, img.groups[c], c, n);
    frag := img.g.Base(c) + start;
    if found {
      FitsIsPlaced(img.g, img.groups, c, block, start, n);
      PartialIsFirst(img.g, img.groups[c].free, block, start, n);
      ClaimPartial(img, c, block, start, n);
    }
  }

  /** Second half: split the lowest whole free block. */
  method TakeFromWhole(img: Image, c: nat, n: nat) returns (found: bool, frag: nat, block: nat)
    requires img.Valid() && c < img.g.ncg && 0 < n <= img.g.fpb
    requires n < img.g.fpb ==> forall b: nat, s: nat :: !FitsPartial(img.g, img.groups[c].free, b, s, n)
    modifies img`groups, img`csum, img`total
    ensures SameInodes(old(img.groups), img.groups)
    ensures img.Valid()
    ensures found ==> Allotted(img.g, old(img.groups), img.groups, c, block, frag, n)
    ensures !found ==> img.groups == old(img.groups) && img.csum == old(img.csum) && img.total == old(img.total)
    ensures !found ==> forall b: nat :: !WholeFree(img.g, img.groups[c].free, b)
  {
    hide Superblock.Base, FirstFit, Placed, FreeSet, Run;
    var buf := img.groups[c];
    found, block := FindWhole(img.g, buf, c);
    frag := img.g.Base(c) + block;
    if found {
      WholeFits(img.g, buf.free, block, n);
      FitsIsPlaced(img.g, img.groups, c, block, block, n);
      WholeIsFirst(img.g, buf.free, block, n);
      buf := TakeWhole(img.g, buf, block, n);
      WriteBack(img, c, buf, block, n, false);
    }
  }

  /** The result of a successful allocation from group c: the first fit was taken, it is a run
      that may be handed out, it was free, and nothing else changed hands. */
  ghost predicate Allotted(g: Geometry, was: seq<CylGroup>, now: seq<CylGroup>, c: nat, block: nat, frag: nat, n: nat)
    requires c < |was|
  {
    && g.Base(c) <= frag
    && FirstFit(g, was[c].free, block, frag - g.Base(c), n)
    && Took(was, now, c, frag - g.Base(c), n)
    && Placed(g, frag, n) && Run(frag, n) <= FreeSet(g, was)
    && FreeSet(g, now) == FreeSet(g, was) - Run(frag, n)
  }

  lemma AllottedFits(g: Geometry, was: seq<CylGroup>, now: seq<CylGroup>, c: nat, block: nat, frag: nat, n: nat)
    requires c < |was| && 0 < n <= g.fpb && Allotted(g, was, now, c, block, frag, n)
    ensures GroupFits(g, was[c].free, n)
  {
    var start := frag - g.Base(c);
    if WholeFree(g, was[c].free, block) && start == block {
      WholeFits(g, was[c].free, block, n);
    }
    assert Fits(g, was[c].free, block, start, n);
  }

  /** nextufs__allocate_frags_in_group; block is where the chosen run's block begins. */
  method AllocateFragsInGroup(img: Image, c: nat, n: nat) returns (rc: Rc, frag: nat, ghost block: nat)
    requires img.Valid() && c < img.g.ncg
    modifies img`groups, img`csum, img`total
    ensures SameInodes(old(img.groups), img.groups)
    ensures img.Valid()
    ensures rc == Ok || rc == NoSpace || rc == Invalid
    ensures rc == Invalid <==> n == 0 || n > img.g.fpb
    ensures rc == NoSpace <==> 0 < n <= img.g.fpb && !GroupFits(img.g, old(img.groups)[c].free, n)
    ensures rc == Ok ==> Allotted(img.g, old(img.groups), img.groups, c, block, frag, n)
    ensures rc != Ok ==> img.groups == old(img.groups) && img.csum == old(img.csum) && img.total == old(img.total)
  {
    hide CylGroup.Valid, Allotted;
    if n == 0 || n > img.g.fpb {
      return Invalid, 0, 0;
    }
    ghost var was := img.groups;
    var g, buf := img.g, img.groups[c];
    var found, b;
    if n < g.fpb && buf.cs.nffree >= n {
      found, frag, b := TakeFromPartial(img, c, n);
      if found {
        AllottedFits(g, was, img.groups, c, b, frag, n);
        return Ok, frag, b;
      }
    }
    OnlyWholeLeft(g, buf, c, n);
    if buf.cs.nbfree == 0 {
      return NoSpace, 0, 0;
    }
    found, frag, b := TakeFromWhole(img, c, n);
    if found {
      AllottedFits(g, was, img.groups, c, b, frag, n);
    }
    return if found then Ok else NoSpace, frag, b;
  }

  /** Some aligned block of the group has a run of n free fragments. */
  ghost predicate GroupFits(g: Geometry, free: seq<bool>, n: nat)
  {
    exists b: nat, s: nat :: Fits(g, free, b, s, n)
  }

  // ---- the whole image ----

  /** The i-th group tried when p is preferred. */
  function Rotated(p: nat, i: nat, m: nat): (c: nat)
    requires m > 0
    ensures c < m
  {
    (p + i) % m
  }

  /** Round robin reaches every group. */
  lemma RotationReaches(p: nat, m: nat, c: nat) returns (i: nat)
    requires c < m
    ensures i < m && Rotated(p, i, m) == c
  {
    var q, r := p / m, p % m;
    assert p == q * m + r;
    if r <= c {
      i := c - r;
      DivModOf(q, c, m);
    } else {
      i := m - r + c;
      assert p + i == (q + 1) * m + c;
      DivModOf(q + 1, c, m);
    }
  }

  /** nextufs__allocate_frags_anycg: the first group, from the preferred one round, that fits. */
  method AllocateFragsAnyCg(img: Image, preferred: nat, n: nat) returns (rc: Rc, frag: nat, ghost c: nat, ghost block: nat)
    requires img.Valid()
    modifies img`groups, img`csum, img`total
    ensures SameInodes(old(img.groups), img.groups)
    ensures img.Valid()
    ensures rc == Ok || rc == NoSpace || rc == Invalid
    ensures rc == Invalid <==> n == 0 || n > img.g.fpb
    ensures rc == NoSpace <==>
              (0 < n <= img.g.fpb && forall k | 0 <= k < img.g.ncg :: !GroupFits(img.g, old(img.groups)[k].free, n))
    ensures rc == Ok ==> c < img.g.ncg && Allotted(img.g, old(img.groups), img.groups, c, block, frag, n)
    ensures rc == Ok ==> Placed(img.g, frag, n) && Run(frag, n) <= old(img.Free()) && frag != 0
    ensures rc == Ok ==> img.Free() == old(img.Free()) - Run(frag, n)
    ensures rc != Ok ==> img.groups == old(img.groups) && img.csum == old(img.csum) && img.total == old(img.total)
  {
    assert img.g.ncg > 0;
    frag, c, block := 0, 0, 0;
    hide CylGroup.Valid, FreeSet, Run, FirstFit, Took, Rotated, Superblock.Valid, Placed, GroupFits;
    ghost var was, g := img.groups, img.g;
    for i := 0 to img.g.ncg
      invariant img.Valid() && img.groups == was && img.csum == old(img.csum) && img.total == old(img.total)
      invariant i > 0 ==> 0 < n <= g.fpb
      invariant forall j | 0 <= j < i :: !GroupFits(g, was[Rotated(preferred, j, g.ncg)].free, n)
    {
      var cg := Rotated(preferred, i, img.g.ncg);
      c := cg;
      rc, frag, block := AllocateFragsInGroup(img, cg, n);
      if rc == Ok {
        AllottedFits(g, was, img.groups, c, block, frag, n);
        PlacedNonZero(g, frag, n);
        return;
      }
      if rc != NoSpace {
        return;
      }
    }
    forall k | 0 <= k < img.g.ncg ensures !GroupFits(g, was[k].free, n) {
      var j := RotationReaches(preferred, g.ncg, k);
    }
    rc := NoSpace;
  }

  /** Fragment 0 means "hole" in an inode, and it is never handed out. */
  lemma PlacedNonZero(g: Geometry, f: nat, n: nat)
    requires Placed(g, f, n)
    ensures f != 0 && f + n <= g.fragCount && f < 0x1_0000_0000
  {
    hide Superblock.FragNum, Superblock.GroupFrags;
    var c, local := g.GroupOf(f), g.LocalOf(f);
    assert !g.Reserved(c, local) && f == g.Base(c) + local;
    GroupFragsBounds(g, c);
  }

  /** The run can grow in place: it stays within its block and the fragments after it are free. */
  ghost predicate CanExtend(g: Geometry, groups: seq<CylGroup>, f: nat, a: nat, b: nat)
    requires g.GroupOf(f) < |groups| && a <= b
  {
    g.FragNum(g.LocalOf(f)) + b <= g.fpb && AllFree(Slice(groups[g.GroupOf(f)].free, g.LocalOf(f) + a, b - a))
  }

  /** nextufs__extend_fragment_run: grow a used run in place, within its block. */
  method ExtendFragmentRun(img: Image, frag: nat, oldN: nat, newN: nat) returns (rc: Rc)
    requires img.Valid() && Placed(img.g, frag, oldN) && Run(frag, oldN) !! img.Free()
    modifies img`groups, img`csum, img`total
    ensures SameInodes(old(img.groups), img.groups)
    ensures img.Valid()
    ensures rc == if newN <= oldN || newN > img.g.fpb then Invalid
                  else if CanExtend(img.g, old(img.groups), frag, oldN, newN) then Ok else NoSpace
    ensures rc == Ok ==> Placed(img.g, frag, newN) && Tail(frag, oldN, newN) <= old(img.Free())
    ensures rc == Ok ==> img.Free() == old(img.Free()) - Tail(frag, oldN, newN)
    ensures rc != Ok ==> img.groups == old(img.groups) && img.csum == old(img.csum) && img.total == old(img.total)
  {
    hide Placed, FreeSet, Run, CylGroup.Valid, Took, AllFree, Slice, SumOf, Fits, FitsPartial,
      Superblock.Valid, Superblock.Base, Superblock.LocalOf, Superblock.GroupOf, Superblock.FragNum;
    PlacedParts(img.g, frag, oldN);
    if newN <= oldN || newN > img.g.fpb {
      return Invalid;
    }
    rc := NoSpace;
    var c, local, added := img.g.GroupOf(frag), img.g.LocalOf(frag), newN - oldN;
    if img.g.FragNum(local) + newN <= img.g.fpb {
      ExtensionInMap(img.g, img.groups, frag, oldN, added);
      var fits := RunIsFree(img.groups[c].free, local + oldN, added);
      if fits {
        ExtensionFits(img.g, img.groups, frag, oldN, added);
        ClaimPartial(img, c, img.g.BlkNum(local), local + oldN, added);
        rc := Ok;
      }
    }
  }

  lemma ExtensionInMap(g: Geometry, groups: seq<CylGroup>, f: nat, a: nat, b: nat)
    requires |groups| == g.ncg && Placed(g, f, a) && g.FragNum(g.LocalOf(f)) + a + b <= g.fpb
    requires groups[g.GroupOf(f)].Valid(g, g.GroupOf(f))
    ensures g.LocalOf(f) + a + b <= |groups[g.GroupOf(f)].free| == g.fpg
  {
    hide Placed, Superblock.Base, Superblock.LocalOf, Superblock.GroupOf, Superblock.FragNum, Superblock.BlkNum;
    PlacedParts(g, f, a);
    BlockInGroup(g, g.LocalOf(f));
  }

  /** The fragments after a used run, when free, fit in its partly used block. */
  lemma ExtensionFits(g: Geometry, groups: seq<CylGroup>, f: nat, a: nat, b: nat)
    requires |groups| == g.ncg && Placed(g, f, a) && 0 < b
    requires g.FragNum(g.LocalOf(f)) + a + b <= g.fpb
    requires groups[g.GroupOf(f)].Valid(g, g.GroupOf(f))
    requires Run(f, a) !! FreeSet(g, groups)
    requires AllFree(Slice(groups[g.GroupOf(f)].free, g.LocalOf(f) + a, b))
    ensures FitsPartial(g, groups[g.GroupOf(f)].free, g.BlkNum(g.LocalOf(f)), g.LocalOf(f) + a, b)
    ensures Placed(g, f, a + b) && Run(f + a, b) <= FreeSet(g, groups)
  {
    hide Superblock.Base, Superblock.LocalOf, Superblock.GroupOf, Superblock.FragNum, Superblock.BlkNum,
      Superblock.Aligned, FreeSet, Run, Placed;
    var c, local := g.GroupOf(f), g.LocalOf(f);
    var block := g.BlkNum(local);
    PlacedParts(g, f, a);
    BlockInGroup(g, local);
    RunBits(g, groups, f, c, local, a);
    assert !Slice(groups[c].free, block, g.fpb)[local - block];
    FitsIsPlaced(g, groups, c, block, local + a, b);
    PlacedJoin(g, f, a, b);
  }

  lemma PlacedParts(g: Geometry, f: nat, n: nat)
    requires Placed(g, f, n)
    ensures f == g.Base(g.GroupOf(f)) + g.LocalOf(f) && g.GroupOf(f) < g.ncg
    ensures 0 < n && g.FragNum(g.LocalOf(f)) + n <= g.fpb && g.LocalOf(f) + n <= g.fpg
  {
    hide Superblock.Valid, Superblock.Reserved, Superblock.FragNum;
    GroupFragsBounds(g, g.GroupOf(f));
  }

  lemma PlacedJoin(g: Geometry, f: nat, a: nat, b: nat)
    requires Placed(g, f, a) && Placed(g, f + a, b) && g.LocalOf(f) + a + b <= g.fpg
    requires g.FragNum(g.LocalOf(f)) + a + b <= g.fpb
    ensures Placed(g, f, a + b)
  {
    var c, local := g.GroupOf(f), g.LocalOf(f);
    PlacedParts(g, f, a);
    DivModOf(c, local + a, g.fpg);
  }

  /** A run of addresses is free (or used) exactly when its group's bits say so. */
  lemma RunBits(g: Geometry, groups: seq<CylGroup>, f: nat, c: nat, local: nat, n: nat)
    requires c < |groups| && |groups[c].free| == g.fpg && local + n <= g.fpg
    requires f == g.Base(c) + local
    ensures Run(f, n) <= FreeSet(g, groups) <==> AllFree(Slice(groups[c].free, local, n))
    ensures Run(f, n) !! FreeSet(g, groups) <==> forall i | local <= i < local + n :: !groups[c].free[i]
  {
    hide Run;
    RunMembers(f, n);
    var free, s := groups[c].free, FreeSet(g, groups);
    forall i | local <= i < local + n
      ensures f + (i - local) in Run(f, n) && (f + (i - local) in s <==> free[i])
      ensures Slice(free, local, n)[i - local] == free[i]
    {
      GlobalRun(g, c, local, n, f + (i - local));
      RunBound(g.fpg, |groups|, c, local, n);
      assert IsFree(g, groups, f + (i - local)) <==> free[i];
    }
    forall x | x in Run(f, n) ensures x in s <==> free[local + (x - f)] {
      assert f + (local + (x - f) - local) == x;
    }
  }

  lemma BlockInGroup(g: Geometry, local: nat)
    requires local < g.fpg
    ensures var b := g.BlkNum(local);
            g.Aligned(b) && b + g.FragNum(local) == local && b + g.fpb <= g.fpg && g.FragNum(local) < g.fpb
  {
    var q := local / g.fpb;
    MulMod(q, g.fpb);
    AlignedStep(g.fpb, q * g.fpb, g.fpg);
  }

  /** nextufs__free_fragment_run: give a run back; a run that is partly free already is refused. */
  method FreeFragmentRun(img: Image, frag: nat, n: nat) returns (rc: Rc)
    requires img.Valid() && (0 < n <= img.g.fpb ==> Placed(img.g, frag, n))
    modifies img`groups, img`csum, img`total
    ensures SameInodes(old(img.groups), img.groups)
    ensures img.Valid()
    ensures rc == if 0 < n <= img.g.fpb && Run(frag, n) !! old(img.Free()) then Ok else Invalid
    ensures rc == Ok ==> img.Free() == old(img.Free()) + Run(frag, n)
    ensures rc != Ok ==> img.groups == old(img.groups) && img.csum == old(img.csum) && img.total == old(img.total)
  {
    hide Placed, FreeSet, Run, CylGroup.Valid, Slice, AllFree,
      Superblock.Valid, Superblock.Base, Superblock.LocalOf, Superblock.GroupOf, Superblock.FragNum, Superblock.BlkNum;
    if n == 0 || n > img.g.fpb {
      return Invalid;
    }
    PlacedParts(img.g, frag, n);
    var c, local := img.g.GroupOf(frag), img.g.LocalOf(frag);
    BlockInGroup(img.g, local);
    GroupParts(img.g, img.groups[c], c);
    RunBits(img.g, img.groups, frag, c, local, n);
    var r := ReturnRun(img.g, img.groups[c], img.g.BlkNum(local), local, n);
    if r.None? {
      return Invalid;
    }
    ReturnedValid(img.g, c, img.groups[c], r.value, frag, n);
    WriteBack(img, c, r.value, local, n, true);
    return Ok;
  }

  lemma GroupParts(g: Geometry, cg: CylGroup, c: nat)
    requires c < g.ncg && cg.Valid(g, c)
    ensures cg.Counted(g) && |cg.free| == g.fpg
  {
  }

  lemma ReturnedValid(g: Geometry, c: nat, a: CylGroup, b: CylGroup, frag: nat, n: nat)
    requires c == g.GroupOf(frag) < g.ncg && a.Valid(g, c) && Placed(g, frag, n) && b.Counted(g)
    requires b.free == Fill(a.free, g.LocalOf(frag), n, true)
    requires b.ndblk == a.ndblk && b.iused == a.iused && b.cs.nifree == a.cs.nifree
    ensures b.Valid(g, c)
  {
    hide CylGroup.Counted, Superblock.Reserved, Superblock.FragNum;
    GroupParts(g, a, c);
  }

  /** nextufs__reallocate_fragment_run: copy a run to a larger one elsewhere and free the old one. */
  method ReallocateFragmentRun(img: Image, old_: nat, oldN: nat, newN: nat, preferred: nat) returns (rc: Rc, frag: nat)
    requires img.Valid() && Placed(img.g, old_, oldN) && Run(old_, oldN) !! img.Free() && oldN <= newN <= img.g.fpb
    modifies img`groups, img`csum, img`total, img`disk
    ensures SameInodes(old(img.groups), img.groups)
    ensures img.Valid()
    ensures rc == if forall k | 0 <= k < img.g.ncg :: !GroupFits(img.g, old(img.groups)[k].free, newN) then NoSpace else Ok
    ensures rc == Ok ==> Placed(img.g, frag, newN) && Run(frag, newN) <= old(img.Free())
    ensures rc == Ok ==> img.Free() == old(img.Free()) - Run(frag, newN) + Run(old_, oldN)
    ensures rc == Ok ==> OnlyWrote(img.g, old(img.disk), img.disk, Run(frag, newN))
    ensures rc == Ok ==> |Bytes(img.g, old(img.disk), old_, oldN)| <= img.g.Off(newN)
    ensures rc == Ok ==>
              Bytes(img.g, img.disk, frag, newN) == ZeroPadded(Bytes(img.g, old(img.disk), old_, oldN), img.g.Off(newN))
    ensures rc != Ok ==> img.groups == old(img.groups) && img.csum == old(img.csum) && img.total == old(img.total)
    ensures rc != Ok ==> img.disk == old(img.disk)
  {
    hide Placed, FreeSet, Run, CylGroup.Valid, Superblock.Valid, Superblock.Base, Superblock.Off, Bytes, Allotted, GroupFits;
    PlacedParts(img.g, old_, oldN);
    PlacedNonZero(img.g, old_, oldN);
    BytesFit(img.g, img.disk, old_, oldN);
    img.g.OffMonotone(oldN, newN);
    var tmp := ZeroPadded(Bytes(img.g, img.disk, old_, oldN), img.g.Off(newN));
    ghost var c, block;
    rc, frag, c, block := AllocateFragsAnyCg(img, preferred, newN);
    if rc != Ok {
      return;
    }
    PlacedNonZero(img.g, frag, newN);
    BytesFit(img.g, img.disk, frag, newN);
    img.WriteExact(frag, newN, 0, tmp);
    rc := FreeFragmentRun(img, old_, oldN);
  }
}
