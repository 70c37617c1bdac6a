/** The image as the code sees it: cylinder-group buffers, the cylinder summary table, the
    superblock totals, the inode table and the raw bytes of every fragment. */
module Image {
  import opened Geometry
  import opened FreeMap

  /** struct csum: the four counters kept per group, per summary entry and in the superblock. */
  datatype Csum = Csum(ndir: int, nbfree: int, nifree: int, nffree: int) {
    function Plus(o: Csum): Csum {
      Csum(ndir + o.ndir, nbfree + o.nbfree, nifree + o.nifree, nffree + o.nffree)
    }
  }

  const NO_CHANGE := Csum(0, 0, 0, 0)

  function SumOf(cs: seq<Csum>): Csum {
    if cs == [] then NO_CHANGE else cs[0].Plus(SumOf(cs[1..]))
  }

  lemma {:induction false} SumOfUpdate(cs: seq<Csum>, i: nat, d: Csum)
    requires i < |cs|
    ensures SumOf(cs[i := cs[i].Plus(d)]) == SumOf(cs).Plus(d)
  {
    var t := cs[i := cs[i].Plus(d)];
    if i == 0 {
      assert t[1..] == cs[1..];
    } else {
      assert t[1..] == cs[1..][i - 1 := cs[1..][i - 1].Plus(d)];
      SumOfUpdate(cs[1..], i - 1, d);
    }
  }

  lemma {:induction false} SumOfAppend(cs: seq<Csum>, d: Csum)
    ensures SumOf(cs + [d]) == SumOf(cs).Plus(d)
  {
    if cs == [] {
      assert cs + [d] == [d];
    } else {
      assert (cs + [d])[1..] == cs[1..] + [d];
      SumOfAppend(cs[1..], d);
    }
  }

  /** A cylinder-group block: ndblk is cg_ndblk, b is the rotational table, iused and free are
      the inode and fragment bitmaps. */
  datatype CylGroup = CylGroup(
    ndblk: nat, cs: Csum, rotor: nat, irotor: nat,
    frsum: seq<int>, btot: seq<int>, b: seq<seq<int>>,
    iused: seq<bool>, free: seq<bool>)
  {
    predicate Shaped(g: Geometry) {
      && |free| == g.fpg && |frsum| == MAX_FRAG && |btot| == MAX_CPG && |b| == MAX_CPG
      && (forall c | 0 <= c < MAX_CPG :: |b[c]| == NRPOS)
    }

    function Counter(g: Geometry, st: Stat): int
      requires Shaped(g) && st.For(g)
    {
      match st
      case NBFree => cs.nbfree
      case NFFree => cs.nffree
      case FrSum(s) => frsum[s]
      case BTot(c) => btot[c]
      case BPos(c, r) => b[c][r]
    }

    /** Every stored counter equals the recount of the bitmap. */
    ghost predicate Counted(g: Geometry)
    {
      Shaped(g) && forall st: Stat | st.For(g) :: Counter(g, st) == Recount(g, free, 0, st)
    }

    ghost predicate Valid(g: Geometry, c: nat)
      requires c < g.ncg
    {
      && Counted(g)
      && ndblk == g.GroupFrags(c)
      && (forall i | ndblk <= i < g.fpg :: !free[i])
      && (forall i | 0 <= i < g.fpg && g.Reserved(c, i) :: !free[i])
      && |iused| == g.inodesPerGroup
      && cs.nifree == ClearBits(iused)
    }
  }

  function ClearBits(bs: seq<bool>): nat {
    |bs| - PopCount(bs)
  }

  /** When one aligned block's bits change and each counter moves by that block's share,
      the counters stay equal to the recount. */
  lemma CountedAfter(g: Geometry, a: CylGroup, b: CylGroup, at: nat)
    requires a.Counted(g) && b.Shaped(g) && g.Aligned(at) && at < g.fpg
    requires SameOutside(g, a.free, b.free, at)
    requires forall st: Stat | st.For(g) :: b.Counter(g, st) - a.Counter(g, st)
               == BlockStat(g, b.free, at, st) - BlockStat(g, a.free, at, st)
    ensures b.Counted(g)
  {
    forall st: Stat | st.For(g) ensures b.Counter(g, st) == Recount(g, b.free, 0, st) {
      RecountChange(g, a.free, b.free, at, 0, st);
    }
  }

  /** The fragments f, f + 1, ..., f + n - 1. */
  ghost function Run(f: nat, n: nat): set<nat> {
    if n == 0 then {} else Run(f, n - 1) + {f + n - 1}
  }

  lemma {:induction false} RunMembers(f: nat, n: nat)
    ensures forall x :: x in Run(f, n) <==> f <= x < f + n
  {
    if n > 0 {
      RunMembers(f, n - 1);
    }
  }

  lemma RunSize(f: nat, n: nat)
    ensures |Run(f, n)| == n
  {
    if n > 0 {
      RunSize(f, n - 1);
      RunMembers(f, n - 1);
    }
  }

  /** What a run of n fragments gains when it grows to m. */
  ghost function Tail(f: nat, n: nat, m: nat): set<nat> {
    if n <= m then Run(f + n, m - n) else {}
  }

  /** Global fragment addresses whose bit is set in some group's map. */
  ghost function FreeSet(g: Geometry, groups: seq<CylGroup>): set<nat>
  {
    set f: nat | f < g.Base(|groups|) && IsFree(g, groups, f)
  }

  predicate IsFree(g: Geometry, groups: seq<CylGroup>, f: nat)
  {
    g.GroupOf(f) < |groups| && g.LocalOf(f) < |groups[g.GroupOf(f)].free| && groups[g.GroupOf(f)].free[g.LocalOf(f)]
  }

  /** Fragment operations leave the inode side of every group alone. */
  ghost predicate SameInodes(was: seq<CylGroup>, now: seq<CylGroup>) {
    |was| == |now| && forall c | 0 <= c < |was| :: InodeSide(now[c]) == InodeSide(was[c])
  }

  function InodeSide(cg: CylGroup): (nat, nat, seq<bool>, int, int) {
    (cg.ndblk, cg.irotor, cg.iused, cg.cs.ndir, cg.cs.nifree)
  }

  /** A run the allocator may hand out: inside one aligned block of one group, outside metadata. */
  ghost predicate Placed(g: Geometry, f: nat, n: nat)
  {
    && 0 < n && g.GroupOf(f) < g.ncg
    && g.FragNum(g.LocalOf(f)) + n <= g.fpb
    && g.LocalOf(f) + n <= g.GroupFrags(g.GroupOf(f))
    && (forall i | g.LocalOf(f) <= i < g.LocalOf(f) + n :: !g.Reserved(g.GroupOf(f), i))
  }

  /** A run of a group in global terms: its fragments share the group's quotient. */
  lemma GlobalRun(g: Geometry, c: nat, local: nat, n: nat, x: nat)
    requires local + n <= g.fpg && g.Base(c) + local <= x < g.Base(c) + local + n
    ensures g.GroupOf(x) == c && g.LocalOf(x) == x - g.Base(c)
  {
    DivModOf(c, x - g.Base(c), g.fpg);
  }

  /** Rewriting a run of one group's bitmap changes the free set by exactly that run. */
  lemma FreeSetFill(g: Geometry, groups: seq<CylGroup>, c: nat, new_: CylGroup, local: nat, n: nat, v: bool)
    requires c < |groups| && |groups[c].free| == g.fpg && local + n <= g.fpg
    requires new_.free == Fill(groups[c].free, local, n, v)
    ensures var f := FreeSet(g, groups); var r := Run(g.Base(c) + local, n);
            FreeSet(g, groups[c := new_]) == if v then f + r else f - r
  {
    var after := groups[c := new_];
    var r := Run(g.Base(c) + local, n);
    RunMembers(g.Base(c) + local, n);
    forall x: nat
      ensures IsFree(g, after, x) == if x in r then v else IsFree(g, groups, x)
      ensures x in r ==> x < g.Base(|groups|)
    {
      BitAfterFill(g, groups, c, new_, local, n, v, x);
      RunBound(g.fpg, |groups|, c, local, n);
    }
  }

  lemma BitAfterFill(g: Geometry, groups: seq<CylGroup>, c: nat, new_: CylGroup, local: nat, n: nat, v: bool, x: nat)
    requires c < |groups| && |groups[c].free| == g.fpg && local + n <= g.fpg
    requires new_.free == Fill(groups[c].free, local, n, v)
    ensures IsFree(g, groups[c := new_], x)
         == if x in Run(g.Base(c) + local, n) then v else IsFree(g, groups, x)
  {
    hide Superblock.Valid, Superblock.Base, Superblock.GroupOf, Superblock.LocalOf, Run;
    InGroupRun(g, x, c, local, n);
    var q, r := g.GroupOf(x), g.LocalOf(x);
    assert q < |groups| ==> groups[c := new_][q] == if q == c then new_ else groups[q];
    assert q == c ==> new_.free[r] == if local <= r < local + n then v else groups[c].free[r];
  }

  lemma InGroupRun(g: Geometry, x: nat, c: nat, local: nat, n: nat)
    requires local + n <= g.fpg
    ensures x in Run(g.Base(c) + local, n) <==> g.GroupOf(x) == c && local <= g.LocalOf(x) < local + n
    ensures g.LocalOf(x) < g.fpg
  {
    RunMembers(g.Base(c) + local, n);
    AddressInRun(g.fpg, x, c, local, n);
  }

  lemma RunBound(m: nat, groups: nat, c: nat, local: nat, n: nat)
    requires c < groups && local + n <= m
    ensures c * m + local + n <= groups * m
  {
    assert (c + 1) * m <= groups * m;
  }

  datatype Kind = Unused | Regular | Directory | Symlink | Special

  /** The inode fields the model uses; fast is the inline-symlink flag. */
  datatype Inode = Inode(kind: Kind, nlink: nat, size: nat, db: seq<nat>, ib: seq<nat>, fast: bool, blocks: nat)
  {
    predicate Shaped() { |db| == NDADDR && |ib| == NIADDR }
  }

  /** The root directory; inodes 0 and 1 are never used. */
  const ROOTINO: nat := 2

  const NDADDR: nat := 12
  const NIADDR: nat := 3
  const NO_BLOCKS: seq<nat> := [0, 0, 0, 0, 0, 0, 0, 0, 0, 0, 0, 0]
  const NO_INDIRECT: seq<nat> := [0, 0, 0]
  const CLEARED := Inode(Unused, 0, 0, NO_BLOCKS, NO_INDIRECT, false, 0)

  newtype byte = x: int | 0 <= x < 256

  datatype Option<T> = None | Some(value: T)

  datatype Rc = Ok | NoSpace | Invalid | TooBig | NotFound | NotEmpty | NotDir | IsADir | Exists | NotPermitted | IoError

  // ---- raw bytes ----

  function Splice(d: seq<byte>, off: nat, bs: seq<byte>): (r: seq<byte>)
    requires off + |bs| <= |d|
    ensures |r| == |d|
  {
    d[..off] + bs + d[off + |bs|..]
  }

  /** calloc'ed buffer of n bytes that starts with bs. */
  function ZeroPadded(bs: seq<byte>, n: nat): (r: seq<byte>)
    requires |bs| <= n
    ensures |r| == n && r[..|bs|] == bs
  {
    bs + seq(n - |bs|, _ => 0)
  }

  /** The bytes of n fragments from f; an address past the end of the disk has none. */
  function Bytes(g: Geometry, d: seq<byte>, f: nat, n: nat): seq<byte> {
    if g.Off(f) <= g.Off(f + n) <= |d| then d[g.Off(f)..g.Off(f + n)] else []
  }

  /** No fragment outside s differs between the two disks. */
  ghost predicate OnlyWrote(g: Geometry, d: seq<byte>, e: seq<byte>, s: set<nat>) {
    |d| == |e| && forall f: nat, n: nat | Run(f, n) !! s :: Bytes(g, d, f, n) == Bytes(g, e, f, n)
  }

  lemma OnlyWroteTrans(g: Geometry, a: seq<byte>, b: seq<byte>, c: seq<byte>, s: set<nat>, t: set<nat>)
    requires OnlyWrote(g, a, b, s) && OnlyWrote(g, b, c, t)
    ensures OnlyWrote(g, a, c, s + t)
  {
    forall f: nat, n: nat | Run(f, n) !! s + t ensures Bytes(g, a, f, n) == Bytes(g, c, f, n) {
      assert Run(f, n) !! s && Run(f, n) !! t;
    }
  }

  lemma BytesFit(g: Geometry, d: seq<byte>, f: nat, n: nat)
    requires |d| == g.Off(g.fragCount) && f + n <= g.fragCount
    ensures g.Off(f) + g.Off(n) == g.Off(f + n) <= |d|
    ensures |Bytes(g, d, f, n)| == g.Off(n)
  {
    g.OffPlus(f, n);
    g.OffMonotone(f + n, g.fragCount);
  }

  lemma WriteHits(g: Geometry, d: seq<byte>, f: nat, n: nat, o: nat, bs: seq<byte>)
    requires |d| == g.Off(g.fragCount) && f + n <= g.fragCount && o + |bs| <= g.Off(n)
    ensures g.Off(f) + o + |bs| <= |d| && o + |bs| <= |Bytes(g, d, f, n)|
    ensures Bytes(g, Splice(d, g.Off(f) + o, bs), f, n) == Splice(Bytes(g, d, f, n), o, bs)
  {
    hide Superblock.Off;
    BytesFit(g, d, f, n);
  }

  lemma WriteMisses(g: Geometry, d: seq<byte>, f: nat, n: nat, o: nat, bs: seq<byte>)
    requires g.fragSize > 0 && |d| == g.Off(g.fragCount) && f + n <= g.fragCount && o + |bs| <= g.Off(n)
    requires g.Off(f) + o + |bs| <= |d|
    ensures OnlyWrote(g, d, Splice(d, g.Off(f) + o, bs), Run(f, n))
  {
    assert n == 0 ==> bs == [];
    hide Superblock.Off, Superblock.Valid;
    var at := g.Off(f) + o;
    BytesFit(g, d, f, n);
    forall f': nat, n': nat | Run(f', n') !! Run(f, n)
      ensures Bytes(g, d, f', n') == Bytes(g, Splice(d, at, bs), f', n')
    {
      if bs == [] {
        assert Splice(d, at, bs) == d;
      } else if n' > 0 {
        RunsApart(f, n, f', n');
        WriteMissesRun(g, d, f, n, o, bs, f', n');
      }
    }
  }

  lemma WriteMissesRun(g: Geometry, d: seq<byte>, f: nat, n: nat, o: nat, bs: seq<byte>, f': nat, n': nat)
    requires |d| == g.Off(g.fragCount) && f + n <= g.fragCount && o + |bs| <= g.Off(n)
    requires g.Off(f) + o + |bs| <= |d| && (f + n <= f' || f' + n' <= f)
    ensures Bytes(g, d, f', n') == Bytes(g, Splice(d, g.Off(f) + o, bs), f', n')
  {
    hide Superblock.Off, Superblock.Valid;
    BytesFit(g, d, f, n);
    if g.Off(f') <= g.Off(f' + n') <= |d| {
      g.OffMonotone(f + n, f');
      g.OffMonotone(f' + n', f);
      SpliceApart(d, g.Off(f) + o, bs, g.Off(f'), g.Off(f' + n'));
    }
  }

  lemma SpliceApart(d: seq<byte>, off: nat, bs: seq<byte>, lo: nat, hi: nat)
    requires off + |bs| <= |d| && lo <= hi <= |d| && (hi <= off || off + |bs| <= lo)
    ensures Splice(d, off, bs)[lo..hi] == d[lo..hi]
  {
  }

  lemma RunsApart(a: nat, n: nat, b: nat, m: nat)
    requires n > 0 && m > 0 && Run(a, n) !! Run(b, m)
    ensures a + n <= b || b + m <= a
  {
    RunMembers(a, n);
    RunMembers(b, m);
    assert a in Run(b, m) || a < b || b + m <= a;
    assert b in Run(a, n) || b < a || a + n <= b;
  }

  class Image {
    var g: Geometry
    var groups: seq<CylGroup>
    var csum: seq<Csum>
    var total: Csum
    var inodes: seq<Inode>
    var disk: seq<byte>

    constructor (g: Geometry, groups: seq<CylGroup>, csum: seq<Csum>, total: Csum,
                 inodes: seq<Inode>, disk: seq<byte>)
      ensures this.g == g && this.groups == groups && this.csum == csum && this.total == total
      ensures this.inodes == inodes && this.disk == disk
    {
      this.g, this.groups, this.csum, this.total := g, groups, csum, total;
      this.inodes, this.disk := inodes, disk;
    }

    /** Every group counts its own bitmap, every summary entry mirrors its group, the superblock
        totals are the sums, and the disk has room for every fragment. */
    ghost predicate Valid()
      reads this
    {
      && |groups| == g.ncg && |csum| == g.ncg
      && (forall c | 0 <= c < g.ncg :: groups[c].Valid(g, c))
      && (forall c | 0 <= c < g.ncg :: csum[c] == groups[c].cs)
      && total == SumOf(csum)
      && |disk| == g.Off(g.fragCount)
    }

    ghost function Free(): set<nat>
      reads this
    {
      FreeSet(g, groups)
    }

    /** nextufs__update_summary_counts: the superblock totals and one summary entry move together. */
    method UpdateSummaryCounts(c: nat, d: Csum)
      requires c < |csum| && total == SumOf(csum)
      modifies this`csum, this`total
      ensures csum == old(csum)[c := old(csum)[c].Plus(d)]
      ensures total == old(total).Plus(d) == SumOf(csum)
    {
      SumOfUpdate(csum, c, d);
      total := total.Plus(d);
      csum := csum[c := csum[c].Plus(d)];
    }

    /** nextufs__write_exact on a run of n fragments, starting o bytes into it. */
    method WriteExact(f: nat, ghost n: nat, o: nat, bs: seq<byte>)
      requires g.fragSize > 0 && |disk| == g.Off(g.fragCount)
      requires f + n <= g.fragCount && o + |bs| <= g.Off(n)
      modifies this`disk
      ensures |disk| == old(|disk|)
      ensures Bytes(g, disk, f, n) == Splice(old(Bytes(g, disk, f, n)), o, bs)
      ensures OnlyWrote(g, old(disk), disk, Run(f, n))
    {
      BytesFit(g, disk, f, n);
      WriteHits(g, disk, f, n, o, bs);
      WriteMisses(g, disk, f, n, o, bs);
      disk := Splice(disk, g.Off(f) + o, bs);
    }
  }
}
