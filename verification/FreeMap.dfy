/** The free-fragment bitmap of one cylinder group, the counters derived from it, and the
    from-scratch recount that gives those counters their meaning. */
module FreeMap {
  import opened Geometry

  /** Bits at offsets [off, off + n); offsets past the end of the map read as "in use". */
  function Slice(free: seq<bool>, off: nat, n: nat): (bs: seq<bool>)
    ensures |bs| == n
  {
    seq(n, i requires 0 <= i < n => off + i < |free| && free[off + i])
  }

  predicate AllFree(bs: seq<bool>) {
    forall i | 0 <= i < |bs| :: bs[i]
  }

  function PopCount(bs: seq<bool>): (c: nat)
    ensures c <= |bs|
  {
    if bs == [] then 0 else (if bs[0] then 1 else 0) + PopCount(bs[1..])
  }

  /** A maximal run of exactly s free fragments starts at i. */
  predicate IsMaxRun(bs: seq<bool>, i: nat, s: nat) {
    && 0 < s && i + s <= |bs|
    && (i == 0 || !bs[i - 1])
    && (forall j | i <= j < i + s :: bs[j])
    && (i + s == |bs| || !bs[i + s])
  }

  function RunsFrom(bs: seq<bool>, i: nat, s: nat): nat
    decreases |bs| - i
  {
    if i >= |bs| then 0 else (if IsMaxRun(bs, i, s) then 1 else 0) + RunsFrom(bs, i + 1, s)
  }

  /** Number of maximal runs of exactly s free fragments. */
  function Runs(bs: seq<bool>, s: nat): nat {
    RunsFrom(bs, 0, s)
  }

  /** The derived counters: free whole blocks, free fragments outside whole blocks, runs of a
      given length, whole blocks per cylinder, whole blocks per cylinder and rotational position. */
  datatype Stat = NBFree | NFFree | FrSum(size: nat) | BTot(cyl: nat) | BPos(cyl_: nat, rot: nat)
  {
    predicate For(g: Geometry) {
      match this
      case NBFree => true
      case NFFree => true
      case FrSum(s) => 1 <= s < g.fpb
      case BTot(c) => c < MAX_CPG
      case BPos(c, r) => c < MAX_CPG && r < NRPOS
    }
  }

  /** What one aligned block contributes to a counter. */
  function Contribution(g: Geometry, bs: seq<bool>, off: nat, st: Stat): nat
  {
    match st
    case NBFree => if AllFree(bs) then 1 else 0
    case NFFree => if AllFree(bs) then 0 else PopCount(bs)
    case FrSum(s) => if s < |bs| then Runs(bs, s) else 0
    case BTot(c) => if AllFree(bs) && g.CylNo(off) == c then 1 else 0
    case BPos(c, r) => if AllFree(bs) && g.CylNo(off) == c && g.RotPos(off) == r then 1 else 0
  }

  function BlockStat(g: Geometry, free: seq<bool>, off: nat, st: Stat): nat
  {
    Contribution(g, Slice(free, off, g.fpb), off, st)
  }

  /** The counter recomputed from the bitmap, block by block from offset `off`. */
  function Recount(g: Geometry, free: seq<bool>, off: nat, st: Stat): nat
    decreases g.fpg - off
  {
    if off >= g.fpg then 0
    else BlockStat(g, free, off, st) + Recount(g, free, off + g.fpb, st)
  }

  /** The map with the n bits from `start` set to v. */
  function Fill(free: seq<bool>, start: nat, n: nat, v: bool): (r: seq<bool>)
    ensures |r| == |free|
  {
    seq(|free|, i requires 0 <= i < |free| => if start <= i < start + n then v else free[i])
  }

  ghost predicate SameOutside(g: Geometry, a: seq<bool>, b: seq<bool>, off: nat) {
    |a| == |b| && forall i | 0 <= i < |a| && !(off <= i < off + g.fpb) :: a[i] == b[i]
  }

  /** Changing the bits of one aligned block changes every recount by that block's share. */
  lemma {:induction false} RecountChange(g: Geometry, a: seq<bool>, b: seq<bool>, at: nat, from: nat, st: Stat)
    requires SameOutside(g, a, b, at)
    requires g.Aligned(at) && g.Aligned(from) && at < g.fpg
    ensures Recount(g, b, from, st) - Recount(g, a, from, st)
         == if from <= at then BlockStat(g, b, at, st) - BlockStat(g, a, at, st) else 0
    decreases g.fpg - from
  {
    if from < g.fpg {
      AlignedNext(g.fpb, from);
      RecountChange(g, a, b, at, from + g.fpb, st);
      if from != at {
        if from < at { AlignedStep(g.fpb, from, at); } else { AlignedStep(g.fpb, at, from); }
        assert Slice(a, from, g.fpb) == Slice(b, from, g.fpb);
      }
    }
  }

  // ---- facts about one block ----

  lemma {:induction false} PopCountAll(bs: seq<bool>)
    ensures PopCount(bs) == |bs| <==> AllFree(bs)
    ensures PopCount(bs) == 0 <==> forall i | 0 <= i < |bs| :: !bs[i]
  {
    if bs != [] {
      PopCountAll(bs[1..]);
      assert bs == [bs[0]] + bs[1..];
      assert AllFree(bs) <==> bs[0] && AllFree(bs[1..]);
      assert (forall i | 0 <= i < |bs| :: !bs[i]) <==> !bs[0] && forall i | 0 <= i < |bs[1..]| :: !bs[1..][i];
    }
  }

  lemma {:induction false} PopCountConcat(a: seq<bool>, b: seq<bool>)
    ensures PopCount(a + b) == PopCount(a) + PopCount(b)
  {
    if a == [] {
      assert a + b == b;
    } else {
      assert (a + b)[1..] == a[1..] + b;
      PopCountConcat(a[1..], b);
    }
  }

  /** Turning a run of n set bits into n clear bits lowers the population by n. */
  lemma PopCountFill(bs: seq<bool>, i: nat, n: nat)
    requires i + n <= |bs| && (forall j | i <= j < i + n :: bs[j])
    ensures PopCount(Fill(bs, i, n, false)) == PopCount(bs) - n
  {
    var f := Fill(bs, i, n, false);
    assert f[..i] == bs[..i] && f[i + n..] == bs[i + n..];
    PopCountSwap(bs, f, i, n);
  }

  lemma PopCountSwap(bs: seq<bool>, f: seq<bool>, i: nat, n: nat)
    requires i + n <= |bs| == |f| && f[..i] == bs[..i] && f[i + n..] == bs[i + n..]
    requires forall j | i <= j < i + n :: bs[j] && !f[j]
    ensures PopCount(f) == PopCount(bs) - n
  {
    PopCountParts(bs, i, n);
    PopCountParts(f, i, n);
    PopCountAll(bs[i..i + n]);
    PopCountAll(f[i..i + n]);
  }

  lemma PopCountParts(bs: seq<bool>, i: nat, n: nat)
    requires i + n <= |bs|
    ensures PopCount(bs) == PopCount(bs[..i]) + PopCount(bs[i..i + n]) + PopCount(bs[i + n..])
  {
    assert bs == bs[..i] + bs[i..] && bs[i..] == bs[i..i + n] + bs[i + n..];
    PopCountConcat(bs[..i], bs[i..]);
    PopCountConcat(bs[i..i + n], bs[i + n..]);
  }

  /** A free run of n fragments inside the block is counted by its population. */
  lemma PopCountAtLeast(bs: seq<bool>, i: nat, n: nat)
    requires i + n <= |bs| && (forall j | i <= j < i + n :: bs[j])
    ensures PopCount(bs) >= n
  {
    PopCountFill(bs, i, n);
  }

  /** No maximal run starts inside a stretch of set bits or on a clear bit. */
  lemma {:induction false} NoRunStarts(bs: seq<bool>, i: nat, j: nat, s: nat)
    requires i <= j <= |bs|
    requires forall k | i <= k < j :: !bs[k] || (k > 0 && bs[k - 1])
    ensures RunsFrom(bs, i, s) == RunsFrom(bs, j, s)
    decreases j - i
  {
    if i < j {
      NoRunStarts(bs, i + 1, j, s);
      assert bs[i] || !IsMaxRun(bs, i, s);
    }
  }

  /** Skipping over the maximal run of length r that starts at i. */
  lemma SkipRun(bs: seq<bool>, i: nat, r: nat, s: nat)
    requires IsMaxRun(bs, i, r)
    ensures RunsFrom(bs, i, s) == (if s == r then 1 else 0) + RunsFrom(bs, i + r, s)
  {
    NoRunStarts(bs, i + 1, i + r, s);
    assert 0 < s < r ==> bs[i + s];
    assert i + r == |bs| || !bs[i + r];
  }

  /** A whole free block has one run, of block length. */
  lemma RunsOfFull(bs: seq<bool>, s: nat)
    requires AllFree(bs) && 0 < s < |bs|
    ensures Runs(bs, s) == 0
  {
    SkipRun(bs, 0, |bs|, s);
  }

  /** Taking the first n fragments of a free block leaves one run of the rest. */
  lemma RunsOfTail(bs: seq<bool>, n: nat, s: nat)
    requires AllFree(bs) && 0 < n <= |bs| && 0 < s < |bs|
    ensures Runs(Fill(bs, 0, n, false), s) == if s == |bs| - n then 1 else 0
  {
    var f := Fill(bs, 0, n, false);
    NoRunStarts(f, 0, n, s);
    if n < |bs| {
      SkipRun(f, n, |bs| - n, s);
    }
  }

  // ---- whole-map facts ----

  /** Every free fragment is counted exactly once: in a whole block or as a loose fragment. */
  lemma {:induction false} CountersCoverMap(g: Geometry, free: seq<bool>, off: nat)
    requires |free| == g.fpg && off <= g.fpg && g.Aligned(off)
    ensures g.fpb * Recount(g, free, off, NBFree) + Recount(g, free, off, NFFree) == PopCount(free[off..])
    decreases g.fpg - off
  {
    hide Superblock.Valid, Slice, AllFree;
    if off < g.fpg {
      NextBlock(g, off);
      CountersCoverMap(g, free, off + g.fpb);
      hide Superblock.Aligned;
      var bs := Slice(free, off, g.fpb);
      SliceIs(free, off, g.fpb);
      PopCountConcat(bs, free[off + g.fpb..]);
      PopCountAll(bs);
      BlockWeight(g.fpb, if AllFree(bs) then 1 else 0, Recount(g, free, off + g.fpb, NBFree));
    }
  }

  lemma SliceIs(free: seq<bool>, off: nat, n: nat)
    requires off + n <= |free|
    ensures free[off..] == Slice(free, off, n) + free[off + n..]
  {
  }

  lemma BlockWeight(fpb: nat, x: nat, r: nat)
    requires x <= 1
    ensures fpb * (x + r) == (if x == 1 then fpb else 0) + fpb * r
  {
  }

  /** A recount is zero exactly when no block contributes. */
  lemma {:induction false} RecountZero(g: Geometry, free: seq<bool>, from: nat, st: Stat)
    requires g.Aligned(from)
    ensures Recount(g, free, from, st) == 0
       <==> forall k: nat | from <= k < g.fpg && g.Aligned(k) :: BlockStat(g, free, k, st) == 0
    decreases g.fpg - from
  {
    if from < g.fpg {
      AlignedNext(g.fpb, from);
      RecountZero(g, free, from + g.fpb, st);
      forall k: nat | from < k < g.fpg && g.Aligned(k) ensures from + g.fpb <= k {
        AlignedStep(g.fpb, from, k);
      }
    }
  }

  /** One block's share never exceeds the recount. */
  lemma {:induction false} RecountAtLeast(g: Geometry, free: seq<bool>, from: nat, at: nat, st: Stat)
    requires g.Aligned(from) && g.Aligned(at) && from <= at < g.fpg
    ensures Recount(g, free, from, st) >= BlockStat(g, free, at, st)
    decreases g.fpg - from
  {
    if from != at {
      AlignedStep(g.fpb, from, at);
      AlignedNext(g.fpb, from);
      RecountAtLeast(g, free, from + g.fpb, at, st);
    }
  }

  // ---- the scanning loops shared by the allocator, the resizer and the formatter ----

  /** nextufs__block_is_free and nextufs__set_run_bits: are all n bits from base set? */
  method RunIsFree(free: seq<bool>, base: nat, n: nat) returns (r: bool)
    requires base + n <= |free|
    ensures r <==> AllFree(Slice(free, base, n))
  {
    ghost var bs := Slice(free, base, n);
    for i := 0 to n
      invariant AllFree(bs[..i])
    {
      assert bs[i] == free[base + i];
      if !free[base + i] {
        return false;
      }
    }
    assert bs[..n] == bs;
    return true;
  }

  /** nextufs__clear_block_bits and its setting counterpart. */
  method WriteRun(free: seq<bool>, base: nat, n: nat, v: bool) returns (r: seq<bool>)
    requires base + n <= |free|
    ensures r == Fill(free, base, n, v)
  {
    r := free;
    for i := 0 to n
      invariant r == Fill(free, base, i, v)
    {
      r := r[base + i := v];
    }
  }

  /** nextufs__count_free_runs_in_block: one left-to-right pass over the block. */
  method CountFreeRuns(free: seq<bool>, base: nat, fpb: nat) returns (counts: seq<nat>)
    requires base + fpb <= |free|
    ensures |counts| == fpb + 1
    ensures forall s | 1 <= s < fpb :: counts[s] == Runs(Slice(free, base, fpb), s)
  {
    ghost var bs := Slice(free, base, fpb);
    counts := seq(fpb + 1, _ => 0);
    var i := 0;
    while i < fpb
      invariant i <= fpb && |counts| == fpb + 1
      invariant i == 0 || i == fpb || !bs[i - 1] || !bs[i]
      invariant forall s | 1 <= s < fpb :: counts[s] + RunsFrom(bs, i, s) == Runs(bs, s)
    {
      var run := 0;
      while i + run < fpb && free[base + i + run]
        invariant i + run <= fpb
        invariant forall j | i <= j < i + run :: bs[j]
      {
        assert bs[i + run];
        run := run + 1;
      }
      if run > 0 {
        assert IsMaxRun(bs, i, run) by {
          assert bs[i];
          assert i + run < fpb ==> bs[i + run] == free[base + i + run];
        }
        forall s | 1 <= s < fpb
          ensures RunsFrom(bs, i, s) == (if s == run then 1 else 0) + RunsFrom(bs, i + run, s)
        {
          SkipRun(bs, i, run, s);
        }
      } else {
        assert !bs[i];
      }
      if 0 < run < fpb {
        counts := counts[run := counts[run] + 1];
      }
      i := i + if run > 0 then run else 1;
    }
  }
}
