/** Superblock geometry: the constants every other module measures the image with. */
module Geometry {

  type pos = x: int | 0 < x witness 1

  // MAXFRAG, MAXCPG and NRPOS bound the counter tables of a cylinder group.
  const MAX_FRAG: nat := 8
  const MAX_CPG: nat := 32
  const NRPOS: nat := 8

  /** The superblock fields the model needs. `fpb`, `fpg`, `spf`, `spc`, `spt` are the
      superblock's frags per block, frags per group and sectors per frag, cylinder and track.
      The cylinder-group mask only ever appears as `c & ~mask`, that is `c % cycle`. */
  datatype Superblock = Superblock(
    fpb: pos, fpg: pos, ncg: pos, fragCount: nat, fragSize: pos,
    spf: nat, spc: pos, spt: pos,
    cgDelta: nat, cycle: pos, sbOff: nat, dataOff: nat, csumAddr: nat, csumFrags: nat,
    inodesPerGroup: pos)
  {
    ghost predicate Valid() {
      && (fpb == 1 || fpb == 2 || fpb == 4 || fpb == 8)
      && Aligned(fpg)
      && Base(ncg - 1) < fragCount <= Base(ncg)
      && fragSize % 4 == 0 && fragCount <= 0x1_0000_0000
      && sbOff <= dataOff
    }

    /** First fragment address of group c (cgbase). */
    function Base(c: nat): nat {
      c * fpg
    }

    /** Byte offset of fragment f on the disk. */
    function Off(f: nat): nat {
      f * fragSize
    }

    lemma OffMonotone(a: nat, b: nat)
      ensures a <= b ==> Off(a) <= Off(b)
      ensures a < b && fragSize > 0 ==> Off(a) < Off(b)
    {
      if a < b {
        OffPlus(a, b - a);
        MulAtLeast(b - a, fragSize);
      }
    }

    lemma OffPlus(a: nat, n: nat)
      ensures Off(a + n) == Off(a) + Off(n)
    {
    }

    /** Group of a fragment address, and its offset in the group (dtog and dtogd). */
    function GroupOf(f: nat): nat
    {
      f / fpg
    }

    function LocalOf(f: nat): nat
    {
      f % fpg
    }

    /** Position in its block, and start of its block, of an offset (fragnum and blknum). */
    function FragNum(l: nat): nat
    {
      l % fpb
    }

    predicate Aligned(l: nat)
    {
      FragNum(l) == 0
    }

    function BlkNum(l: nat): nat
    {
      l - l % fpb
    }

    /** The number of fragments of group c that exist (cg_ndblk). */
    function GroupFrags(c: nat): nat {
      if fragCount < Base(c) then 0 else if fragCount - Base(c) < fpg then fragCount - Base(c) else fpg
    }

    /** Offset of a group's metadata inside the group; it rotates with the group number. */
    function CgStart(c: nat): nat
    {
      cgDelta * (c % cycle)
    }

    /** First metadata fragment of group c (cgsblock relative to cgbase). */
    function Lower(c: nat): nat
    {
      CgStart(c) + sbOff
    }

    /** First data fragment after the metadata of group c (cgdmin relative to cgbase). */
    function Upper(c: nat): nat
    {
      CgStart(c) + dataOff
    }

    /** Fragments that hold metadata and are never handed out: in group 0 everything below the
        data area and the summary area that follows, elsewhere the superblock copy, group block
        and inode table. */
    predicate Reserved(c: nat, local: nat)
    {
      if c == 0 then local < Upper(0) || csumAddr <= local < csumAddr + csumFrags || local == 0
      else Lower(c) <= local < Upper(c)
    }

    function CylNo(local: nat): nat
    {
      local * spf / spc
    }

    function RotPos(local: nat): (r: nat)
      ensures r < NRPOS
    {
      var x := local * spf % spc % spt;
      assert x < spt;
      RotPosBound(x);
      x * NRPOS / spt
    }

    lemma RotPosBound(x: nat)
      requires x < spt
      ensures 0 <= x * NRPOS / spt < NRPOS
    {
      assert x * NRPOS < NRPOS * spt;
      var q := x * NRPOS / spt;
      assert q * spt <= x * NRPOS;
      assert q >= NRPOS ==> q * spt >= NRPOS * spt;
    }
  }

  /** The superblocks the code works on: a power-of-two block, block-aligned groups, and a last
      group that is not empty. */
  type Geometry = g: Superblock | g.Valid()
    ghost witness Superblock(1, 1, 1, 1, 4, 1, 1, 1, 0, 1, 0, 0, 0, 0, 1)

  /** From an aligned offset inside a group one more block still fits, and ends aligned. */
  lemma NextBlock(g: Geometry, off: nat)
    requires g.Aligned(off) && off < g.fpg
    ensures off + g.fpb <= g.fpg && g.Aligned(off + g.fpb)
  {
    AlignedStep(g.fpb, off, g.fpg);
    AlignedNext(g.fpb, off);
  }

  /** Every group has fragments; all but the last are full. */
  lemma GroupFragsBounds(g: Geometry, c: nat)
    requires c < g.ncg
    ensures 0 < g.GroupFrags(c) <= g.fpg && g.Base(c) + g.GroupFrags(c) <= g.fragCount
    ensures c < g.ncg - 1 ==> g.GroupFrags(c) == g.fpg
  {
    hide Superblock.Base;
    BaseMonotone(g, c + 1, g.ncg - 1);
    BaseMonotone(g, c, g.ncg - 1);
    BaseNext(g, c);
  }

  lemma BaseMonotone(g: Superblock, a: nat, b: nat)
    ensures a <= b ==> g.Base(a) <= g.Base(b)
  {
    if a <= b {
      assert b * g.fpg == a * g.fpg + (b - a) * g.fpg;
    }
  }

  lemma BaseNext(g: Superblock, c: nat)
    ensures g.Base(c + 1) == g.Base(c) + g.fpg
  {
  }

  /** Two aligned offsets that differ are at least a whole block apart. */
  lemma AlignedStep(fpb: nat, a: nat, b: nat)
    requires fpb > 0 && a % fpb == 0 && b % fpb == 0 && a < b
    ensures a + fpb <= b
  {
    var qa, qb := a / fpb, b / fpb;
    assert a == qa * fpb && b == qb * fpb;
    assert qa < qb;
    assert (qa + 1) * fpb <= qb * fpb;
  }

  lemma AlignedNext(fpb: nat, a: nat)
    requires fpb > 0 && a % fpb == 0
    ensures (a + fpb) % fpb == 0
  {
    var q := a / fpb;
    assert a + fpb == (q + 1) * fpb;
    MulMod(q + 1, fpb);
  }

  lemma MulAtLeast(k: nat, m: nat)
    requires k > 0
    ensures k * m >= m
  {
    assert k * m == (k - 1) * m + m;
  }

  /** The aligned block an offset lies in. */
  lemma BlockStart(fpb: nat, block: nat, start: nat)
    requires fpb > 0 && block % fpb == 0 && block <= start < block + fpb
    ensures start % fpb == start - block
  {
    DivModOf(block / fpb, start - block, fpb);
  }

  lemma MulMod(q: nat, m: nat)
    requires m > 0
    ensures (q * m) % m == 0 && (q * m) / m == q
  {
    DivModOf(q, 0, m);
  }

  /** Quotient and remainder are determined by any decomposition. */
  lemma DivModOf(q: nat, r: nat, m: nat)
    requires r < m
    ensures (q * m + r) / m == q && (q * m + r) % m == r
  {
    var x := q * m + r;
    var q', r' := x / m, x % m;
    assert x == q' * m + r';
    assert q' < q ==> (q' + 1) * m <= q * m;
    assert q' > q ==> (q + 1) * m <= q' * m;
  }

  /** An address belongs to a run of group c exactly when its quotient is c and its remainder
      falls in the local range. */
  lemma AddressInRun(m: nat, x: nat, c: nat, local: nat, n: nat)
    requires m > 0 && local + n <= m
    ensures c * m + local <= x < c * m + local + n <==> x / m == c && local <= x % m < local + n
  {
    var q, r := x / m, x % m;
    assert x == q * m + r;
    if q < c {
      assert (q + 1) * m <= c * m;
    } else if c < q {
      assert (c + 1) * m <= q * m;
    }
  }
}
