/** How much the allocator can still hand out: whole free blocks, and fitting runs of partly used
    blocks. These two decide every "no space" of the writing code. */
module Room {
  import opened Geometry
  import opened FreeMap
  import opened Image
  import opened Alloc

  /** Whole free blocks of all groups, recounted. */
  ghost function Wholes(g: Geometry, groups: seq<CylGroup>): nat {
    if groups == [] then 0 else Recount(g, groups[0].free, 0, NBFree) + Wholes(g, groups[1..])
  }

  /** On a valid image this is the superblock's own count. */
  lemma {:induction false} WholesIsTotal(g: Geometry, groups: seq<CylGroup>, csum: seq<Csum>)
    requires |groups| == |csum| && forall c | 0 <= c < |groups| :: groups[c].Counted(g) && csum[c] == groups[c].cs
    ensures SumOf(csum).nbfree == Wholes(g, groups)
  {
    hide Recount;
    if groups != [] {
      WholesIsTotal(g, groups[1..], csum[1..]);
      assert groups[0].Counter(g, NBFree) == Recount(g, groups[0].free, 0, NBFree);
    }
  }

  lemma {:induction false} WholesUpdate(g: Geometry, groups: seq<CylGroup>, c: nat, x: CylGroup)
    requires c < |groups|
    ensures Wholes(g, groups[c := x]) - Wholes(g, groups)
         == Recount(g, x.free, 0, NBFree) - Recount(g, groups[c].free, 0, NBFree)
  {
    hide Recount;
    var now := groups[c := x];
    if c == 0 {
      assert now[1..] == groups[1..];
    } else {
      assert now[1..] == groups[1..][c - 1 := x];
      WholesUpdate(g, groups[1..], c - 1, x);
    }
  }

  lemma {:induction false} SameWholes(g: Geometry, a: seq<CylGroup>, b: seq<CylGroup>)
    requires |a| == |b| && forall c | 0 <= c < |a| :: a[c].free == b[c].free
    ensures Wholes(g, a) == Wholes(g, b)
  {
    hide Recount;
    if a != [] {
      SameWholes(g, a[1..], b[1..]);
    }
  }

  lemma {:induction false} SomeWhole(g: Geometry, groups: seq<CylGroup>)
    ensures Wholes(g, groups) > 0 <==> exists c: nat, b: nat :: HasWhole(g, groups, c, b)
  {
    hide Recount, Superblock.Valid;
    if groups != [] {
      var rest := groups[1..];
      SomeWhole(g, rest);
      WholeInGroup(g, groups[0].free);
      if Recount(g, groups[0].free, 0, NBFree) > 0 {
        var b: nat :| WholeFree(g, groups[0].free, b);
        assert HasWhole(g, groups, 0, b);
      }
      if Wholes(g, rest) > 0 {
        var c: nat, b: nat :| HasWhole(g, rest, c, b);
        assert HasWhole(g, groups, c + 1, b);
      }
      forall c: nat, b: nat | HasWhole(g, groups, c, b) ensures Wholes(g, groups) > 0 {
        if c > 0 {
          assert HasWhole(g, rest, c - 1, b);
        }
      }
    }
  }

  ghost predicate HasWhole(g: Geometry, groups: seq<CylGroup>, c: nat, b: nat) {
    c < |groups| && WholeFree(g, groups[c].free, b)
  }

  lemma WholeInGroup(g: Geometry, free: seq<bool>)
    ensures Recount(g, free, 0, NBFree) > 0 <==> exists b: nat :: WholeFree(g, free, b)
  {
    hide Superblock.Valid, Slice, AllFree;
    RecountZero(g, free, 0, NBFree);
    if Recount(g, free, 0, NBFree) > 0 {
      var b: nat :| b < g.fpg && g.Aligned(b) && BlockStat(g, free, b, NBFree) != 0;
      assert WholeFree(g, free, b);
    }
    forall b: nat | WholeFree(g, free, b) ensures BlockStat(g, free, b, NBFree) != 0 {
    }
  }

  /** Some partly used block has a run of n free fragments. */
  ghost predicate PartlyFits(g: Geometry, groups: seq<CylGroup>, n: nat) {
    n > 0 && exists c: nat, b: nat, s: nat :: FitsIn(g, groups, c, b, s, n)
  }

  ghost predicate FitsIn(g: Geometry, groups: seq<CylGroup>, c: nat, b: nat, s: nat, n: nat) {
    c < |groups| && FitsPartial(g, groups[c].free, b, s, n)
  }

  /** A run of n fragments can be had from somewhere. */
  ghost predicate CanHave(g: Geometry, groups: seq<CylGroup>, n: nat) {
    Wholes(g, groups) > 0 || (n < g.fpb && PartlyFits(g, groups, n))
  }

  /** The allocator's condition over all groups, in these terms. */
  lemma NoneFits(g: Geometry, groups: seq<CylGroup>, n: nat)
    requires |groups| == g.ncg && 0 < n <= g.fpb
    ensures (forall k | 0 <= k < g.ncg :: !GroupFits(g, groups[k].free, n)) <==> !CanHave(g, groups, n)
  {
    hide Superblock.Valid, Superblock.Aligned, Slice, AllFree, Wholes, FitsPartial;
    SomeWhole(g, groups);
    if CanHave(g, groups, n) {
      if Wholes(g, groups) > 0 {
        var c: nat, b: nat :| HasWhole(g, groups, c, b);
        WholeFits(g, groups[c].free, b, n);
        assert GroupFits(g, groups[c].free, n);
      } else {
        var c: nat, b: nat, s: nat :| FitsIn(g, groups, c, b, s, n);
        PartialFits(g, groups[c].free, b, s, n);
        assert GroupFits(g, groups[c].free, n);
      }
    }
    forall k: nat | k < g.ncg && GroupFits(g, groups[k].free, n) ensures CanHave(g, groups, n) {
      var b: nat, s: nat :| Fits(g, groups[k].free, b, s, n);
      FitsEither(g, groups[k].free, b, s, n);
      assert WholeFree(g, groups[k].free, b) ==> HasWhole(g, groups, k, b);
      assert FitsPartial(g, groups[k].free, b, s, n) ==> FitsIn(g, groups, k, b, s, n);
    }
  }

  lemma PartialFits(g: Geometry, free: seq<bool>, b: nat, s: nat, n: nat)
    requires FitsPartial(g, free, b, s, n)
    ensures Fits(g, free, b, s, n)
  {
  }

  lemma FitsEither(g: Geometry, free: seq<bool>, b: nat, s: nat, n: nat)
    requires Fits(g, free, b, s, n)
    ensures WholeFree(g, free, b) || (n < g.fpb && FitsPartial(g, free, b, s, n))
  {
  }

  /** k whole blocks were taken, and no partly used block was touched. */
  ghost predicate Spent(g: Geometry, was: seq<CylGroup>, now: seq<CylGroup>, k: nat) {
    && Wholes(g, now) + k == Wholes(g, was)
    && forall n: nat :: PartlyFits(g, now, n) <==> PartlyFits(g, was, n)
  }

  lemma SpentNothing(g: Geometry, groups: seq<CylGroup>)
    ensures Spent(g, groups, groups, 0)
  {
  }

  lemma SpentTwice(g: Geometry, a: seq<CylGroup>, b: seq<CylGroup>, c: seq<CylGroup>, j: nat, k: nat)
    requires Spent(g, a, b, j) && Spent(g, b, c, k)
    ensures Spent(g, a, c, j + k)
  {
    hide Wholes, PartlyFits;
  }

  /** An operation that needs some whole blocks succeeds exactly when they are there, and then
      takes exactly those. */
  ghost predicate Paid(g: Geometry, was: seq<CylGroup>, now: seq<CylGroup>, need: nat, ok: bool) {
    (ok <==> need <= Wholes(g, was)) && (ok ==> Spent(g, was, now, need))
  }

  lemma PaidNothing(g: Geometry, groups: seq<CylGroup>)
    ensures Paid(g, groups, groups, 0, true)
  {
  }

  lemma CannotPay(g: Geometry, was: seq<CylGroup>, now: seq<CylGroup>, need: nat)
    requires need > Wholes(g, was)
    ensures Paid(g, was, now, need, false)
  {
  }

  lemma NotPaid(g: Geometry, was: seq<CylGroup>, mid: seq<CylGroup>, now: seq<CylGroup>, need: nat)
    requires Paid(g, was, mid, need, false)
    ensures Paid(g, was, now, need, false)
  {
  }

  lemma PaidAfter(g: Geometry, a: seq<CylGroup>, b: seq<CylGroup>, c: seq<CylGroup>, j: nat, k: nat, ok: bool)
    requires Spent(g, a, b, j) && Paid(g, b, c, k, ok)
    ensures Paid(g, a, c, j + k, ok)
  {
    hide Wholes, PartlyFits;
  }

  /** Groups with the same maps have the same room. */
  lemma SameRoom(g: Geometry, a: seq<CylGroup>, b: seq<CylGroup>)
    requires |a| == |b| && forall c | 0 <= c < |a| :: a[c].free == b[c].free
    ensures Spent(g, a, b, 0)
  {
    hide Superblock.Valid, FitsPartial;
    SameWholes(g, a, b);
    forall n: nat, c: nat, x: nat, s: nat ensures FitsIn(g, b, c, x, s, n) <==> FitsIn(g, a, c, x, s, n) {
    }
  }

  /** Taking a whole block leaves one whole block less and the partly used blocks alone. */
  lemma WholeSpent(g: Geometry, was: seq<CylGroup>, now: seq<CylGroup>, c: nat, block: nat, frag: nat)
    requires c < |was| && |was[c].free| == g.fpg && Allotted(g, was, now, c, block, frag, g.fpb)
    ensures Spent(g, was, now, 1)
  {
    hide Superblock.Valid, FitsPartial, Placed, FreeSet, Run, Wholes, WholeFree, Recount, Superblock.Base;
    var a, b := was[c].free, now[c].free;
    WholeTaken(g, a, b, block);
    WholesUpdate(g, was, c, now[c]);
    forall n: nat ensures PartlyFits(g, now, n) <==> PartlyFits(g, was, n) {
      if n > 0 { SamePartly(g, was, now, c, n); }
    }
  }

  lemma SamePartly(g: Geometry, was: seq<CylGroup>, now: seq<CylGroup>, c: nat, n: nat)
    requires c < |was| && |was| == |now| && now == was[c := now[c]]
    requires forall x: nat, s: nat :: FitsPartial(g, now[c].free, x, s, n) <==> FitsPartial(g, was[c].free, x, s, n)
    ensures PartlyFits(g, now, n) <==> PartlyFits(g, was, n)
  {
    hide Superblock.Valid, FitsPartial;
    forall k: nat, x: nat, s: nat ensures FitsIn(g, now, k, x, s, n) <==> FitsIn(g, was, k, x, s, n) {
      if k < |was| && k != c {
        assert now[k] == was[k];
      }
    }
  }

  lemma WholeTaken(g: Geometry, a: seq<bool>, b: seq<bool>, block: nat)
    requires |a| == g.fpg && WholeFree(g, a, block) && b == Fill(a, block, g.fpb, false)
    ensures Recount(g, b, 0, NBFree) + 1 == Recount(g, a, 0, NBFree)
    ensures forall n: nat, x: nat, s: nat | n > 0 :: FitsPartial(g, b, x, s, n) <==> FitsPartial(g, a, x, s, n)
  {
    hide Superblock.Valid, FitsPartial, Recount, Slice, AllFree;
    FillInBlock(g, a, block, block, g.fpb, false);
    RecountChange(g, a, b, block, 0, NBFree);
    NowUsed(g, a, b, block);
    forall n: nat, x: nat, s: nat | n > 0 ensures FitsPartial(g, b, x, s, n) <==> FitsPartial(g, a, x, s, n) {
      PartialElsewhere(g, a, b, block, x, s, n);
    }
  }

  lemma NowUsed(g: Geometry, a: seq<bool>, b: seq<bool>, block: nat)
    requires |a| == g.fpg && WholeFree(g, a, block) && b == Fill(a, block, g.fpb, false)
    ensures block + g.fpb <= g.fpg && !AllFree(Slice(b, block, g.fpb))
  {
    AlignedStep(g.fpb, block, g.fpg);
    assert !Slice(b, block, g.fpb)[0];
  }

  lemma PartialElsewhere(g: Geometry, a: seq<bool>, b: seq<bool>, block: nat, x: nat, s: nat, n: nat)
    requires |a| == g.fpg && WholeFree(g, a, block) && b == Fill(a, block, g.fpb, false) && n > 0
    ensures FitsPartial(g, b, x, s, n) <==> FitsPartial(g, a, x, s, n)
  {
    if g.Aligned(x) && x < g.fpg && x <= s && s + n <= x + g.fpb {
      if x == block {
        AlignedStep(g.fpb, block, g.fpg);
        assert !Slice(b, s, n)[0];
        assert !AllFree(Slice(b, s, n)) && !FitsPartial(g, a, x, s, n);
      } else {
        if x < block { AlignedStep(g.fpb, x, block); } else { AlignedStep(g.fpb, block, x); }
        assert Slice(b, x, g.fpb) == Slice(a, x, g.fpb);
        assert Slice(b, s, n) == Slice(a, s, n);
      }
    }
  }

  /** Any allocation costs at most one whole block. */
  lemma AtMostOne(g: Geometry, was: seq<CylGroup>, now: seq<CylGroup>, c: nat, block: nat, frag: nat, n: nat)
    requires c < |was| && |was[c].free| == g.fpg && 0 < n <= g.fpb && Allotted(g, was, now, c, block, frag, n)
    ensures Wholes(g, now) + 1 >= Wholes(g, was)
  {
    hide Superblock.Valid, Placed, FreeSet, Run, Wholes, Recount, Superblock.Base, Superblock.Aligned, Slice;
    WholesUpdate(g, was, c, now[c]);
    FirstFitIn(g, was[c].free, block, frag - g.Base(c), n);
    ZeroAligned(g);
    FillInBlock(g, was[c].free, block, frag - g.Base(c), n, false);
    RecountChange(g, was[c].free, now[c].free, block, 0, NBFree);
  }

  lemma ZeroAligned(g: Geometry)
    ensures g.Aligned(0)
  {
  }

  lemma FirstFitIn(g: Geometry, free: seq<bool>, block: nat, start: nat, n: nat)
    requires FirstFit(g, free, block, start, n) && n <= g.fpb
    ensures g.Aligned(block) && block < g.fpg && block <= start && start + n <= block + g.fpb
  {
  }
}
