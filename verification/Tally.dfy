/** What the inode maps and directory counts say beyond the inode table: inodes marked that nobody
    uses, and directories counted that are not there. */
module Tally {
  import opened Geometry
  import opened Image
  import opened Storage
  import opened Mutate

  /** Inodes that are marked and not used; 0 and 1 are so for good. */
  ghost function Stray(g: Geometry, groups: seq<CylGroup>, views: seq<View>): set<nat> {
    set k: nat | ROOTINO <= k < |views| && InUse(g, groups, k) && views[k].kind == Unused
  }

  /** Directories in group c. */
  ghost function DirsIn(g: Geometry, views: seq<View>, c: nat): nat {
    if views == [] then 0
    else DirsIn(g, views[..|views| - 1], c) + DirHere(g, views[|views| - 1], |views| - 1, c)
  }

  ghost function DirHere(g: Geometry, v: View, k: nat, c: nat): nat {
    if v.kind == Directory && k / g.inodesPerGroup == c then 1 else 0
  }

  /** By how much a group's directory count is too high. */
  ghost function DirsOff(g: Geometry, groups: seq<CylGroup>, views: seq<View>, c: nat): int
    requires c < |groups|
  {
    groups[c].cs.ndir - DirsIn(g, views, c)
  }

  /** Neither has changed. */
  ghost predicate Tallied(g: Geometry, groups: seq<CylGroup>, views: seq<View>, groups': seq<CylGroup>, views': seq<View>) {
    && |groups'| == |groups| && |views'| == |views| && Stray(g, groups', views') == Stray(g, groups, views)
    && forall c: nat | c < |groups| :: DirsOff(g, groups', views', c) == DirsOff(g, groups, views, c)
  }

  /** Inode i was left marked, as a directory's or not. */
  ghost predicate LeftOne(g: Geometry, groups: seq<CylGroup>, views: seq<View>, groups': seq<CylGroup>, views': seq<View>, i: nat, dir: bool) {
    && |groups'| == |groups| && |views'| == |views| && i !in Stray(g, groups, views)
    && Stray(g, groups', views') == Stray(g, groups, views) + {i}
    && forall c: nat | c < |groups| ::
         DirsOff(g, groups', views', c) == DirsOff(g, groups, views, c) + if dir && c == i / g.inodesPerGroup then 1 else 0
  }

  lemma {:induction false} DirsUpdate(g: Geometry, views: seq<View>, i: nat, v: View, c: nat)
    requires i < |views|
    ensures DirsIn(g, views[i := v], c) + DirHere(g, views[i], i, c) == DirsIn(g, views, c) + DirHere(g, v, i, c)
    decreases |views|
  {
    hide DirHere;
    var n := |views| - 1;
    if i == n {
      assert views[i := v][..n] == views[..n];
    } else {
      assert views[i := v][..n] == views[..n][i := v];
      DirsUpdate(g, views[..n], i, v, c);
    }
  }

  lemma {:induction false} SameKinds(g: Geometry, a: seq<View>, b: seq<View>, c: nat)
    requires |a| == |b| && forall k | 0 <= k < |a| :: b[k].kind == a[k].kind
    ensures DirsIn(g, b, c) == DirsIn(g, a, c)
    decreases |a|
  {
    if a != [] {
      SameKinds(g, a[..|a| - 1], b[..|b| - 1], c);
    }
  }

  lemma TalliedNothing(g: Geometry, groups: seq<CylGroup>, views: seq<View>)
    ensures Tallied(g, groups, views, groups, views)
  {
  }

  lemma TalliedTwice(g: Geometry, ga: seq<CylGroup>, va: seq<View>, gb: seq<CylGroup>, vb: seq<View>, gc: seq<CylGroup>, vc: seq<View>)
    requires Tallied(g, ga, va, gb, vb) && Tallied(g, gb, vb, gc, vc)
    ensures Tallied(g, ga, va, gc, vc)
  {
    hide Stray, DirsIn;
    forall c: nat | c < |ga| ensures DirsOff(g, gc, vc, c) == DirsOff(g, ga, va, c) {
      assert DirsOff(g, gb, vb, c) == DirsOff(g, ga, va, c);
    }
  }

  /** The same inode side and the same kinds. */
  lemma TalliedSame(g: Geometry, ga: seq<CylGroup>, va: seq<View>, gb: seq<CylGroup>, vb: seq<View>)
    requires SameInodes(ga, gb) && |va| == |vb| && forall k | 0 <= k < |va| :: vb[k].kind == va[k].kind
    ensures Tallied(g, ga, va, gb, vb)
  {
    hide InUse, DirsIn;
    InUseKept(g, ga, gb);
    forall c: nat | c < |ga| ensures DirsOff(g, gb, vb, c) == DirsOff(g, ga, va, c) {
      SameKinds(g, va, vb, c);
      assert InodeSide(gb[c]) == InodeSide(ga[c]);
    }
  }

  /** One inode became a file or was one no more, and its mark went with it. */
  lemma TalliedOne(g: Geometry, ga: seq<CylGroup>, va: seq<View>, gb: seq<CylGroup>, vb: seq<View>, i: nat, v: bool, dir: bool)
    requires BitSet(g, ga, gb, i, v, dir) && |va| == |vb| && i < |va|
    requires forall k | 0 <= k < |va| && k != i :: vb[k].kind == va[k].kind
    requires if v then va[i].kind == Unused && !InUse(g, ga, i) && vb[i].kind != Unused && (dir <==> vb[i].kind == Directory)
             else va[i].kind != Unused && vb[i].kind == Unused && (dir <==> va[i].kind == Directory)
    ensures Tallied(g, ga, va, gb, vb)
  {
    hide InUse, DirsIn;
    var mid := va[i := vb[i]];
    forall c: nat | c < |ga| ensures DirsOff(g, gb, vb, c) == DirsOff(g, ga, va, c) {
      DirsUpdate(g, va, i, vb[i], c);
      SameKinds(g, mid, vb, c);
    }
  }

  /** A mark was set and no file came of it. */
  lemma LeftMarked(g: Geometry, ga: seq<CylGroup>, va: seq<View>, gb: seq<CylGroup>, vb: seq<View>, i: nat, dir: bool)
    requires BitSet(g, ga, gb, i, true, dir) && !InUse(g, ga, i) && |va| == |vb| && ROOTINO <= i < |va| && va[i].kind == Unused
    requires forall k | 0 <= k < |va| :: vb[k].kind == va[k].kind
    ensures LeftOne(g, ga, va, gb, vb, i, dir)
  {
    hide InUse, DirsIn;
    forall c: nat | c < |ga|
      ensures DirsOff(g, gb, vb, c) == DirsOff(g, ga, va, c) + if dir && c == i / g.inodesPerGroup then 1 else 0
    {
      SameKinds(g, va, vb, c);
    }
  }

  /** The same marks and counts, and the same kinds. */
  lemma TalliedMarks(g: Geometry, ga: seq<CylGroup>, va: seq<View>, gb: seq<CylGroup>, vb: seq<View>)
    requires SameMarks(g, ga, gb) && SameDirs(ga, gb) && |va| == |vb| && forall k | 0 <= k < |va| :: vb[k].kind == va[k].kind
    ensures Tallied(g, ga, va, gb, vb)
  {
    hide InUse, DirsIn;
    forall c: nat | c < |ga| ensures DirsOff(g, gb, vb, c) == DirsOff(g, ga, va, c) {
      SameKinds(g, va, vb, c);
    }
  }

  /** A mark that came and went. */
  lemma MarkUndone(g: Geometry, a: seq<CylGroup>, b: seq<CylGroup>, c: seq<CylGroup>, i: nat, dir: bool)
    requires BitSet(g, a, b, i, true, dir) && BitSet(g, b, c, i, false, dir) && !InUse(g, a, i)
    ensures SameMarks(g, a, c) && SameDirs(a, c)
  {
    hide InUse;
  }
}
