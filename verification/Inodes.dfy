/** Inode allocation: the per-group inode bitmap and its counters. */
module Inodes {
  import opened Geometry
  import opened FreeMap
  import opened Image
  import opened Alloc

  lemma PopCountUpdate(bs: seq<bool>, i: nat, v: bool)
    requires i < |bs| && bs[i] != v
    ensures PopCount(bs[i := v]) == PopCount(bs) + if v then 1 else -1
  {
    var t := bs[i := v];
    assert t[..i] == bs[..i] && t[i + 1..] == bs[i + 1..];
    PopCountParts(bs, i, 1);
    PopCountParts(t, i, 1);
    assert bs[i..i + 1] == [bs[i]] && t[i..i + 1] == [v];
  }

  /** Stores a group whose inode side changed and moves the summary and the totals with it. */
  method StoreInodeSide(img: Image, c: nat, buf: CylGroup)
    requires img.Valid() && c < img.g.ncg && buf.Valid(img.g, c) && buf.free == img.groups[c].free
    modifies img`groups, img`csum, img`total
    ensures img.Valid() && img.groups == old(img.groups)[c := buf]
    ensures img.Free() == old(img.Free())
  {
    hide Superblock.Valid;
    var was := img.groups[c].cs;
    ghost var before := img.groups;
    img.groups := img.groups[c := buf];
    SameFree(img.g, before, img.groups);
    img.UpdateSummaryCounts(c, Csum(buf.cs.ndir - was.ndir, buf.cs.nbfree - was.nbfree,
                                    buf.cs.nifree - was.nifree, buf.cs.nffree - was.nffree));
  }

  lemma SameFree(g: Geometry, a: seq<CylGroup>, b: seq<CylGroup>)
    requires |a| == |b| && forall c | 0 <= c < |a| :: a[c].free == b[c].free
    ensures FreeSet(g, a) == FreeSet(g, b)
  {
    hide Superblock.Valid, Superblock.Base, Superblock.GroupOf, Superblock.LocalOf;
    assert forall f: nat :: IsFree(g, a, f) <==> IsFree(g, b, f);
  }

  /** The i-th bit tried, going round from start, is the first clear one. */
  ghost predicate ClearAfter(iused: seq<bool>, start: nat, i: nat) {
    i < |iused| && !iused[Rotated(start, i, |iused|)] && forall j | 0 <= j < i :: iused[Rotated(start, j, |iused|)]
  }

  /** The first clear bit at or after the rotor, going round; a rotor out of range counts as 0. */
  ghost predicate FirstClear(cg: CylGroup, k: int)
    requires |cg.iused| > 0
  {
    var start := if cg.irotor >= |cg.iused| then 0 else cg.irotor;
    exists i: nat :: ClearAfter(cg.iused, start, i) && Rotated(start, i, |cg.iused|) == k
  }

  /** nextufs__allocate_inode_in_group: the first clear bit from the rotor round. */
  method AllocateInodeInGroup(img: Image, c: nat, isDir: bool) returns (rc: Rc, ino: nat)
    requires img.Valid() && c < img.g.ncg
    modifies img`groups, img`csum, img`total
    ensures img.Valid() && img.Free() == old(img.Free())
    ensures rc == if ClearBits(old(img.groups)[c].iused) == 0 then NoSpace else Ok
    ensures rc != Ok ==> img.groups == old(img.groups)
    ensures rc == Ok ==> FirstClear(old(img.groups)[c], ino - c * img.g.inodesPerGroup)
    ensures rc == Ok ==>
      var ipg, was := img.g.inodesPerGroup, old(img.groups)[c];
      && c * ipg <= ino < c * ipg + ipg && !was.iused[ino - c * ipg]
      && img.groups == old(img.groups)[c := was.(
           iused := was.iused[ino - c * ipg := true], irotor := ino - c * ipg,
           cs := was.cs.(nifree := was.cs.nifree - 1, ndir := was.cs.ndir + if isDir then 1 else 0))]
  {
    hide Superblock.Valid, FreeSet, FirstClear;
    var buf, ipg := img.groups[c], img.g.inodesPerGroup;
    rc, ino := NoSpace, 0;
    if buf.cs.nifree == 0 {
      return;
    }
    SomeClear(buf.iused);
    var idx := FindClear(buf, ipg);
    PopCountUpdate(buf.iused, idx, true);
    buf := buf.(iused := buf.iused[idx := true], irotor := idx, cs := buf.cs.(nifree := buf.cs.nifree - 1));
    if isDir {
      buf := buf.(cs := buf.cs.(ndir := buf.cs.ndir + 1));
    }
    StoreInodeSide(img, c, buf);
    return Ok, c * ipg + idx;
  }

  lemma SomeClear(bs: seq<bool>)
    requires ClearBits(bs) != 0
    ensures exists k | 0 <= k < |bs| :: !bs[k]
  {
    PopCountAll(bs);
  }

  lemma IsFirstClear(cg: CylGroup, start: nat, i: nat)
    requires |cg.iused| > 0 && start == (if cg.irotor >= |cg.iused| then 0 else cg.irotor) && ClearAfter(cg.iused, start, i)
    ensures FirstClear(cg, Rotated(start, i, |cg.iused|))
  {
  }

  /** The search round from the rotor; a clear bit there is. */
  method FindClear(cg: CylGroup, ipg: pos) returns (idx: nat)
    requires |cg.iused| == ipg && exists k | 0 <= k < ipg :: !cg.iused[k]
    ensures idx < ipg && !cg.iused[idx] && FirstClear(cg, idx)
  {
    hide Rotated;
    var start := if cg.irotor >= ipg then 0 else cg.irotor;
    for i := 0 to ipg
      invariant forall j | 0 <= j < i :: cg.iused[Rotated(start, j, ipg)]
    {
      idx := Rotated(start, i, ipg);
      if !cg.iused[idx] {
        IsFirstClear(cg, start, i);
        return;
      }
    }
    idx := 0;
    ghost var k :| 0 <= k < ipg && !cg.iused[k];
    ghost var at := RotationReaches(start, ipg, k);
    assert false; // the search goes all the way round
  }

  /** nextufs__free_inode_in_group: refuses an inode whose bit is clear. */
  method FreeInodeInGroup(img: Image, ino: nat, isDir: bool) returns (rc: Rc)
    requires img.Valid() && ino / img.g.inodesPerGroup < img.g.ncg
    modifies img`groups, img`csum, img`total
    ensures img.Valid() && img.Free() == old(img.Free())
    ensures var c, local := ino / img.g.inodesPerGroup, ino % img.g.inodesPerGroup;
            var was := old(img.groups)[c];
            && rc == (if was.iused[local] then Ok else Invalid)
            && img.groups == if rc != Ok then old(img.groups) else
                 old(img.groups)[c := was.(
                   iused := was.iused[local := false],
                   cs := was.cs.(nifree := was.cs.nifree + 1, ndir := was.cs.ndir - if isDir then 1 else 0))]
  {
    hide Superblock.Valid, FreeSet;
    var c, local := ino / img.g.inodesPerGroup, ino % img.g.inodesPerGroup;
    var buf := img.groups[c];
    if !buf.iused[local] {
      return Invalid;
    }
    PopCountUpdate(buf.iused, local, false);
    buf := buf.(iused := buf.iused[local := false], cs := buf.cs.(nifree := buf.cs.nifree + 1));
    if isDir {
      buf := buf.(cs := buf.cs.(ndir := buf.cs.ndir - 1));
    }
    StoreInodeSide(img, c, buf);
    return Ok;
  }
}
