/** The mutation commands on the inode table: every fragment has at most one owner, and each
    command refines an operation on byte strings. */
module Mutate {
  import opened Geometry
  import opened Image
  import opened Alloc
  import opened Room
  import opened Indirect
  import opened FileMap
  import opened Storage
  import opened Inodes

  // ---- ownership over the whole inode table ----

  /** Special nodes and inline symlinks use their pointer fields for other things. */
  predicate HasStorage(ino: Inode) {
    ino.kind == Regular || ino.kind == Directory || (ino.kind == Symlink && !ino.fast)
  }

  ghost function OwnedBy(g: Geometry, d: seq<byte>, ino: Inode): set<nat> {
    if ino.Shaped() && HasStorage(ino) then Owned(g, d, ino) else {}
  }

  /** The stored block count is the number of sectors of the fragments the inode owns. */
  ghost predicate CountsOwned(g: Geometry, d: seq<byte>, ino: Inode)
    requires ino.Shaped()
  {
    ino.blocks == |Owned(g, d, ino)| * g.spf
  }

  /** One inode's storage is well formed, allocated, and counted by its block count. */
  ghost predicate InodeOk(g: Geometry, d: seq<byte>, free: set<nat>, ino: Inode) {
    && ino.Shaped()
    && (HasStorage(ino) ==> FileOk(g, d, ino) && !TooLong(g, ino.size) && CountsOwned(g, d, ino))
    && OwnedBy(g, d, ino) !! free
  }

  predicate InUse(g: Geometry, groups: seq<CylGroup>, i: nat) {
    var c, local := i / g.inodesPerGroup, i % g.inodesPerGroup;
    c < |groups| && local < |groups[c].iused| && groups[c].iused[local]
  }

  /** No fragment is both free and referenced, or referenced twice, and every inode that is not
      unused is marked in its group. */
  ghost predicate Sound(g: Geometry, groups: seq<CylGroup>, inodes: seq<Inode>, d: seq<byte>) {
    && (forall i | 0 <= i < |inodes| :: InodeOk(g, d, FreeSet(g, groups), inodes[i]))
    && (forall i, j | 0 <= i < j < |inodes| :: OwnedBy(g, d, inodes[i]) !! OwnedBy(g, d, inodes[j]))
    && (forall i | 0 <= i < |inodes| && inodes[i].kind != Unused :: InUse(g, groups, i))
    && |inodes| == |groups| * g.inodesPerGroup
  }

  /** The pointer fields of an inline symlink hold its text and zeroes. */
  predicate Padded(ino: Inode) {
    ino.Shaped() && ino.size <= INLINE_MAX && StoreInline(ino, InlineText(ino)) == ino
  }

  /** An inode as the writer leaves it: a file maps its blocks from the first to the last and has
      no other pointer, an inline symlink holds its text, a special node at most a device number, and
      one not in use is all zeroes. */
  ghost predicate Kept(g: Geometry, d: seq<byte>, ino: Inode) {
    && (HasStorage(ino) ==> Compact(g, d, ino)) && (ino.fast ==> ino.kind == Symlink && Padded(ino))
    && (ino.kind == Unused ==> ino == CLEARED)
    && (ino.kind == Special ==>
          ino.Shaped() && ino.size == 0 && ino.ib == NO_INDIRECT && ino.blocks == 0
          && forall i | 0 < i < NDADDR :: ino.db[i] == 0)
  }

  ghost predicate Neat(g: Geometry, d: seq<byte>, inodes: seq<Inode>) {
    forall i | 0 <= i < |inodes| :: Kept(g, d, inodes[i])
  }

  /** What a user sees of an inode: its kind, its link count and its bytes. */
  datatype View = View(kind: Kind, nlink: nat, bytes: seq<byte>)

  const GONE := View(Unused, 0, [])

  ghost function ViewOf(g: Geometry, d: seq<byte>, ino: Inode): View {
    if ino.kind == Unused then GONE else
      View(ino.kind, ino.nlink,
           if ino.Shaped() && HasStorage(ino) then FileBytes(g, d, ino)
           else if ino.Shaped() && Inline(ino) then InlineText(ino) else [])
  }

  // ---- text kept in the pointer fields ----

  function Words(bs: seq<byte>): (ws: seq<nat>)
    ensures |ws| == |bs| / 4
  {
    if |bs| < 4 then [] else [ReadBe32(bs[..4])] + Words(bs[4..])
  }

  function Unwords(ws: seq<nat>): (bs: seq<byte>)
    ensures |bs| == 4 * |ws|
  {
    if ws == [] then [] else WriteBe32(ws[0] % 0x1_0000_0000) + Unwords(ws[1..])
  }

  lemma {:induction false} UnwordsOfWords(bs: seq<byte>)
    requires |bs| % 4 == 0
    ensures Unwords(Words(bs)) == bs
  {
    hide ReadBe32, WriteBe32;
    if bs != [] {
      UnwordsOfWords(bs[4..]);
      Be32Inverse(bs[..4]);
      var ws := Words(bs);
      assert ws[0] == ReadBe32(bs[..4]) && ws[1..] == Words(bs[4..]);
      assert bs == bs[..4] + bs[4..];
    }
  }

  lemma Be32Inverse(bs: seq<byte>)
    requires |bs| == 4
    ensures WriteBe32(ReadBe32(bs)) == bs
  {
    hide WriteBe32;
    var c := WriteBe32(ReadBe32(bs));
    Digits((bs[0] as int * 0x100 + bs[1] as int) * 0x100 + bs[2] as int,
           (c[0] as int * 0x100 + c[1] as int) * 0x100 + c[2] as int, bs[3], c[3]);
    Digits(bs[0] as int * 0x100 + bs[1] as int, c[0] as int * 0x100 + c[1] as int, bs[2], c[2]);
    Digits(bs[0] as int, c[0] as int, bs[1], c[1]);
  }

  lemma Digits(a: int, b: int, x: byte, y: byte)
    requires a * 0x100 + x as int == b * 0x100 + y as int
    ensures a == b && x == y
  {
  }

  const INLINE_MAX: nat := 60

  /** decode_inline_symlink: nothing if the size does not fit the fields. */
  function InlineText(ino: Inode): seq<byte>
    requires ino.Shaped()
  {
    if ino.size > INLINE_MAX then [] else Unwords(ino.db + ino.ib)[..ino.size]
  }

  /** nextufs__store_inline_symlink: the text, zero padded, big-endian in the pointer fields. */
  function StoreInline(ino: Inode, text: seq<byte>): (r: Inode)
    requires |text| <= INLINE_MAX && ino.size == |text|
    ensures r.Shaped() && r == ino.(db := r.db, ib := r.ib)
    ensures InlineText(r) == text
  {
    var ws := Words(ZeroPadded(text, INLINE_MAX));
    UnwordsOfWords(ZeroPadded(text, INLINE_MAX));
    assert ws[..NDADDR] + ws[NDADDR..] == ws;
    ino.(db := ws[..NDADDR], ib := ws[NDADDR..])
  }

  ghost function Views(g: Geometry, d: seq<byte>, inodes: seq<Inode>): (v: seq<View>)
    ensures |v| == |inodes|
  {
    seq(|inodes|, i requires 0 <= i < |inodes| => ViewOf(g, d, inodes[i]))
  }

  /** A write that avoids a file's fragments changes neither its layout nor its bytes. */
  lemma FileFrame(g: Geometry, d: seq<byte>, e: seq<byte>, ino: Inode, s: set<nat>)
    requires FileOk(g, d, ino) && OnlyWrote(g, d, e, s) && Owned(g, d, ino) !! s
    requires |d| == g.Off(g.fragCount)
    ensures FileOk(g, e, ino) && Owned(g, e, ino) == Owned(g, d, ino) && FileBytes(g, e, ino) == FileBytes(g, d, ino)
  {
    hide Superblock.Valid, InodeSeparate, InodeMeta, Ptr, Covers, Blocks, Chunk, FragsFor, OnlyWrote, Placed, FileBytes;
    MapFrame(g, d, e, ino, s);
    assert FileExtents(g, e, ino) == FileExtents(g, d, ino);
    assert DataFrags(g, d, ino) !! s;
    BytesFrame(g, d, e, ino, s);
  }

  lemma BytesFrame(g: Geometry, d: seq<byte>, e: seq<byte>, ino: Inode, s: set<nat>)
    requires FileOk(g, d, ino) && OnlyWrote(g, d, e, s) && DataFrags(g, d, ino) !! s
    requires |d| == g.Off(g.fragCount)
    requires forall j: nat :: Ptr(g, e, ino, j) == Ptr(g, d, ino, j)
    ensures FileBytes(g, e, ino) == FileBytes(g, d, ino)
  {
    hide Superblock.Valid, InodeSeparate, InodeMeta, Ptr, Covers, Blocks, FragsFor, OnlyWrote, Placed,
      Start, BlockSize, BlockByte;
    forall p | 0 <= p < ino.size ensures FileBytes(g, e, ino)[p] == FileBytes(g, d, ino)[p] {
      var lb := LbOf(g, p);
      BlocksIs(g, ino.size, lb);
      CoversHas(FileExtents(g, d, ino), lb);
      ByteFrame(g, d, e, ino, s, lb, p - Start(g, lb));
    }
  }

  lemma ByteFrame(g: Geometry, d: seq<byte>, e: seq<byte>, ino: Inode, s: set<nat>, lb: nat, o: nat)
    requires FileOk(g, d, ino) && OnlyWrote(g, d, e, s)
    requires |d| == g.Off(g.fragCount) && lb < Blocks(g, ino.size) && o < Chunk(g, ino.size, lb)
    requires ExtentRun(FileExtents(g, d, ino)[lb]) !! s
    ensures BlockByte(g, e, Ptr(g, d, ino, lb), o) == BlockByte(g, d, Ptr(g, d, ino, lb), o)
  {
    hide Superblock.Valid, InodeSeparate, InodeMeta, Ptr, Covers, Blocks, Chunk, FragsFor, Placed, Run, Superblock.Off;
    var x := FileExtents(g, d, ino)[lb];
    if x.at != 0 {
      ChunkBounds(g, ino.size, lb);
      FragsForBounds(g, lb, Chunk(g, ino.size, lb));
      PlacedNonZero(g, x.at, x.n);
      BytesFit(g, d, x.at, x.n);
      assert Bytes(g, d, x.at, x.n)[o] == d[g.Off(x.at) + o];
      assert Bytes(g, e, x.at, x.n)[o] == e[g.Off(x.at) + o];
    }
  }

  /** The frame step of every command: inode i gets new storage drawn from the free set and its
      own old storage, nothing else is written, and so every other file keeps its bytes. */
  lemma Replaced(g: Geometry, groups: seq<CylGroup>, inodes: seq<Inode>, d: seq<byte>,
                 groups': seq<CylGroup>, e: seq<byte>, i: nat, new_: Inode, s: set<nat>)
    requires Sound(g, groups, inodes, d) && i < |inodes| && |d| == g.Off(g.fragCount)
    requires var mine := FreeSet(g, groups) + OwnedBy(g, d, inodes[i]);
             s <= mine && OnlyWrote(g, d, e, s) && OwnedBy(g, e, new_) <= mine && FreeSet(g, groups') <= mine
    requires InodeOk(g, e, FreeSet(g, groups'), new_) && |groups'| == |groups|
    requires forall k: nat | k < |inodes| && k != i :: InUse(g, groups, k) ==> InUse(g, groups', k)
    requires new_.kind != Unused ==> InUse(g, groups', i)
    ensures Sound(g, groups', inodes[i := new_], e)
    ensures Views(g, e, inodes[i := new_]) == Views(g, d, inodes)[i := ViewOf(g, e, new_)]
    ensures forall k | 0 <= k < |inodes| && k != i :: OwnedBy(g, e, inodes[k]) == OwnedBy(g, d, inodes[k])
  {
    hide Superblock.Valid, FileOk, Owned, TooLong, OnlyWrote, FreeSet, FileBytes, InUse;
    var after, mine := inodes[i := new_], FreeSet(g, groups) + OwnedBy(g, d, inodes[i]);
    forall k | 0 <= k < |inodes| && k != i
      ensures OwnedBy(g, d, inodes[k]) !! mine
      ensures OwnedBy(g, e, inodes[k]) == OwnedBy(g, d, inodes[k])
      ensures InodeOk(g, e, FreeSet(g, groups'), inodes[k]) && ViewOf(g, e, inodes[k]) == ViewOf(g, d, inodes[k])
    {
      assert InodeOk(g, d, FreeSet(g, groups), inodes[k]);
      assert if k < i then OwnedBy(g, d, inodes[k]) !! OwnedBy(g, d, inodes[i])
             else OwnedBy(g, d, inodes[i]) !! OwnedBy(g, d, inodes[k]);
      if HasStorage(inodes[k]) {
        FileFrame(g, d, e, inodes[k], s);
      }
    }
    forall k, l | 0 <= k < l < |after| ensures OwnedBy(g, e, after[k]) !! OwnedBy(g, e, after[l]) {
      if k != i && l != i {
        assert OwnedBy(g, d, inodes[k]) !! OwnedBy(g, d, inodes[l]);
      }
    }
  }

  // ---- what every step carries over the whole table ----

  ghost function AllOwned(g: Geometry, d: seq<byte>, inodes: seq<Inode>): set<nat> {
    set i, f | 0 <= i < |inodes| && f in OwnedBy(g, d, inodes[i]) :: f
  }

  /** Every fragment that is free or somebody's: what is in neither is lost. */
  ghost function Space(g: Geometry, groups: seq<CylGroup>, inodes: seq<Inode>, d: seq<byte>): set<nat> {
    FreeSet(g, groups) + AllOwned(g, d, inodes)
  }

  /** No fragment is lost or conjured up, and inodes as the writer leaves them stay so. */
  ghost predicate Carried(g: Geometry, groups: seq<CylGroup>, inodes: seq<Inode>, d: seq<byte>,
                          groups': seq<CylGroup>, inodes': seq<Inode>, d': seq<byte>) {
    && Space(g, groups', inodes', d') == Space(g, groups, inodes, d)
    && (Neat(g, d, inodes) ==> Neat(g, d', inodes'))
  }

  lemma CarriedNothing(g: Geometry, groups: seq<CylGroup>, inodes: seq<Inode>, d: seq<byte>)
    ensures Carried(g, groups, inodes, d, groups, inodes, d)
  {
  }

  lemma CarriedTwice(g: Geometry, g0: seq<CylGroup>, i0: seq<Inode>, d0: seq<byte>, g1: seq<CylGroup>, i1: seq<Inode>, d1: seq<byte>,
                     g2: seq<CylGroup>, i2: seq<Inode>, d2: seq<byte>)
    requires Carried(g, g0, i0, d0, g1, i1, d1) && Carried(g, g1, i1, d1, g2, i2, d2)
    ensures Carried(g, g0, i0, d0, g2, i2, d2)
  {
    hide Space, Neat;
  }

  /** The same free set, table and disk. */
  lemma CarriedFree(g: Geometry, groups: seq<CylGroup>, inodes: seq<Inode>, d: seq<byte>, groups': seq<CylGroup>)
    requires FreeSet(g, groups') == FreeSet(g, groups)
    ensures Carried(g, groups, inodes, d, groups', inodes, d)
  {
    hide FreeSet, AllOwned, Neat;
  }

  lemma KeptFrame(g: Geometry, d: seq<byte>, e: seq<byte>, ino: Inode, s: set<nat>)
    requires ino.Shaped() && OnlyWrote(g, d, e, s) && OwnedBy(g, d, ino) !! s
    ensures Kept(g, e, ino) <==> Kept(g, d, ino)
  {
    hide Superblock.Valid, OnlyWrote, InodeMeta, Snug, Blocks, DataFrags;
    if HasStorage(ino) {
      SnugFrame(g, d, e, ino, s, Blocks(g, ino.size));
    }
  }

  lemma SpaceReplaced(g: Geometry, groups: seq<CylGroup>, inodes: seq<Inode>, d: seq<byte>,
                      groups': seq<CylGroup>, e: seq<byte>, i: nat, new_: Inode)
    requires i < |inodes|
    requires FreeSet(g, groups') + OwnedBy(g, e, new_) == FreeSet(g, groups) + OwnedBy(g, d, inodes[i])
    requires forall k | 0 <= k < |inodes| && k != i :: OwnedBy(g, e, inodes[k]) == OwnedBy(g, d, inodes[k])
    ensures Space(g, groups', inodes[i := new_], e) == Space(g, groups, inodes, d)
  {
    hide Superblock.Valid, FreeSet, OwnedBy;
    var after := inodes[i := new_];
    forall f: nat
      ensures f in AllOwned(g, e, after) <==> f in OwnedBy(g, e, new_) || exists k | 0 <= k < |inodes| :: k != i && f in OwnedBy(g, d, inodes[k])
      ensures f in AllOwned(g, d, inodes) <==> f in OwnedBy(g, d, inodes[i]) || exists k | 0 <= k < |inodes| :: k != i && f in OwnedBy(g, d, inodes[k])
    {
      assert after[i] == new_ && forall k | 0 <= k < |inodes| && k != i :: after[k] == inodes[k];
    }
  }

  /** The frame step once more: fragments only change hands between the free set and the inode. */
  lemma ReplacedCarries(g: Geometry, groups: seq<CylGroup>, inodes: seq<Inode>, d: seq<byte>,
                        groups': seq<CylGroup>, e: seq<byte>, i: nat, new_: Inode, s: set<nat>)
    requires Sound(g, groups, inodes, d) && i < |inodes| && |d| == g.Off(g.fragCount)
    requires var mine := FreeSet(g, groups) + OwnedBy(g, d, inodes[i]);
             s <= mine && OnlyWrote(g, d, e, s) && FreeSet(g, groups') + OwnedBy(g, e, new_) == mine
    requires forall k | 0 <= k < |inodes| && k != i :: OwnedBy(g, e, inodes[k]) == OwnedBy(g, d, inodes[k])
    requires Kept(g, d, inodes[i]) ==> Kept(g, e, new_)
    ensures Carried(g, groups, inodes, d, groups', inodes[i := new_], e)
  {
    hide Superblock.Valid, FreeSet, OwnedBy, Kept, OnlyWrote, FileOk, TooLong, CountsOwned, Space, InUse;
    SpaceReplaced(g, groups, inodes, d, groups', e, i, new_);
    if Neat(g, d, inodes) {
      var after := inodes[i := new_];
      forall k | 0 <= k < |inodes| ensures Kept(g, e, after[k]) {
        assert Kept(g, d, inodes[k]);
        if k != i {
          assert InodeOk(g, d, FreeSet(g, groups), inodes[k]);
          OwnedApart(g, groups, inodes, d, i, k);
          KeptFrame(g, d, e, inodes[k], s);
        }
      }
    }
  }

  lemma OwnedApart(g: Geometry, groups: seq<CylGroup>, inodes: seq<Inode>, d: seq<byte>, i: nat, k: nat)
    requires Sound(g, groups, inodes, d) && i < |inodes| && k < |inodes| && i != k
    ensures OwnedBy(g, d, inodes[k]) !! FreeSet(g, groups) + OwnedBy(g, d, inodes[i])
  {
    hide Superblock.Valid, FreeSet, OwnedBy, FileOk, TooLong, CountsOwned, InUse;
    assert InodeOk(g, d, FreeSet(g, groups), inodes[k]);
    assert if k < i then OwnedBy(g, d, inodes[k]) !! OwnedBy(g, d, inodes[i]) else OwnedBy(g, d, inodes[i]) !! OwnedBy(g, d, inodes[k]);
  }

  lemma SameInodesInUse(g: Geometry, a: seq<CylGroup>, b: seq<CylGroup>, i: nat)
    requires SameInodes(a, b)
    ensures InUse(g, b, i) == InUse(g, a, i)
  {
    assert i / g.inodesPerGroup < |a| ==> InodeSide(b[i / g.inodesPerGroup]) == InodeSide(a[i / g.inodesPerGroup]);
  }

  // ---- rewriting a file ----

  /** nextufs__rewrite_inode_contents: lay the new contents out beside the old ones, store the
      inode, then free the old storage. If the new storage cannot be allocated nothing a user can
      see has changed. */
  method RewriteInodeContents(img: Image, i: nat, preferred: nat, data: seq<byte>) returns (rc: Rc)
    requires img.Valid() && Sound(img.g, img.groups, img.inodes, img.disk)
    requires i < |img.inodes| && HasStorage(img.inodes[i])
    modifies img`groups, img`csum, img`total, img`disk, img`inodes
    ensures img.Valid() && Sound(img.g, img.groups, img.inodes, img.disk)
    ensures rc == StoreRc(img.g, old(img.groups), |data|)
    ensures rc != Ok ==> img.inodes == old(img.inodes) && img.Free() == old(img.Free())
    ensures var views := old(Views(img.g, img.disk, img.inodes));
            Views(img.g, img.disk, img.inodes) == if rc == Ok then views[i := views[i].(bytes := data)] else views
    ensures rc == Ok ==> Dense(img.g, img.disk, img.inodes[i]) && Compact(img.g, img.disk, img.inodes[i])
    ensures SameInodes(old(img.groups), img.groups)
    ensures Carried(img.g, old(img.groups), old(img.inodes), old(img.disk), img.groups, img.inodes, img.disk)
  {
    hide Superblock.Valid, CylGroup.Valid, FileOk, Owned, TooLong, OnlyWrote, FreeSet, FileBytes, InUse, Dense, SameInodes, Sound,
      StoreRc, Affordable, Wholes, Compact, Carried;
    ghost var groups0, d0, f0, inodes0 := img.groups, img.disk, img.Free(), img.inodes;
    var was := img.inodes[i];
    var blank := was.(db := NO_BLOCKS, ib := NO_INDIRECT, size := 0, blocks := 0);
    var new_;
    SoundAt(img.g, img.groups, img.inodes, img.disk, i);
    rc, new_ := AllocateDataForInode(img, preferred, data, blank);
    if rc != Ok {
      FileFrame(img.g, d0, img.disk, was, f0);
      Restored(img.g, groups0, inodes0, d0, img.groups, img.disk, i);
      return;
    }
    img.inodes := img.inodes[i := new_];
    FileOkShaped(img.g, img.disk, new_);
    FileFrame(img.g, d0, img.disk, was, Owned(img.g, img.disk, new_));
    ghost var mid := img.groups;
    var out;
    rc, out := FreeFileStorage(img, was);
    SameInodesTrans(groups0, mid, img.groups);
    Rewritten(img.g, groups0, inodes0, d0, img.groups, img.disk, i, new_);
  }

  lemma FileOkShaped(g: Geometry, d: seq<byte>, ino: Inode)
    requires FileOk(g, d, ino)
    ensures ino.Shaped()
  {
  }

  lemma SoundAt(g: Geometry, groups: seq<CylGroup>, inodes: seq<Inode>, d: seq<byte>, i: nat)
    requires Sound(g, groups, inodes, d) && i < |inodes|
    ensures InodeOk(g, d, FreeSet(g, groups), inodes[i])
    ensures inodes[i].kind != Unused ==> InUse(g, groups, i)
  {
    hide Superblock.Valid, InodeOk, InUse;
  }

  /** A failed allocation wrote only into free fragments. */
  lemma Restored(g: Geometry, groups: seq<CylGroup>, inodes: seq<Inode>, d: seq<byte>,
                 groups': seq<CylGroup>, e: seq<byte>, i: nat)
    requires Sound(g, groups, inodes, d) && i < |inodes| && |d| == g.Off(g.fragCount) && HasStorage(inodes[i])
    requires OnlyWrote(g, d, e, FreeSet(g, groups)) && FreeSet(g, groups') == FreeSet(g, groups)
    requires SameInodes(groups, groups')
    ensures Sound(g, groups', inodes, e) && Views(g, e, inodes) == Views(g, d, inodes)
    ensures Carried(g, groups, inodes, d, groups', inodes, e)
  {
    hide Superblock.Valid, FileOk, Owned, TooLong, OnlyWrote, FreeSet, FileBytes, InUse, SameInodes, Sound, Carried, Kept;
    SoundAt(g, groups, inodes, d, i);
    FileFrame(g, d, e, inodes[i], FreeSet(g, groups));
    InUseKept(g, groups, groups');
    Replaced(g, groups, inodes, d, groups', e, i, inodes[i], FreeSet(g, groups));
    KeptFrame(g, d, e, inodes[i], FreeSet(g, groups));
    ReplacedCarries(g, groups, inodes, d, groups', e, i, inodes[i], FreeSet(g, groups));
    assert inodes[i := inodes[i]] == inodes;
    assert Views(g, d, inodes)[i := ViewOf(g, e, inodes[i])] == Views(g, d, inodes);
  }

  lemma InUseKept(g: Geometry, a: seq<CylGroup>, b: seq<CylGroup>)
    requires SameInodes(a, b)
    ensures |a| == |b| && forall k: nat :: InUse(g, b, k) == InUse(g, a, k)
  {
    hide InUse;
    forall k: nat ensures InUse(g, b, k) == InUse(g, a, k) {
      SameInodesInUse(g, a, b, k);
    }
  }

  /** New storage came out of the free set and the old storage went back. */
  lemma Rewritten(g: Geometry, groups: seq<CylGroup>, inodes: seq<Inode>, d: seq<byte>,
                  groups': seq<CylGroup>, e: seq<byte>, i: nat, new_: Inode)
    requires Sound(g, groups, inodes, d) && i < |inodes| && |d| == g.Off(g.fragCount) && HasStorage(inodes[i])
    requires new_.kind == inodes[i].kind && new_.fast == inodes[i].fast && new_.Shaped() && FileOk(g, e, new_) && !TooLong(g, new_.size)
    requires CountsOwned(g, e, new_)
    requires Owned(g, e, new_) <= FreeSet(g, groups) && OnlyWrote(g, d, e, Owned(g, e, new_))
    requires inodes[i].Shaped() && FreeSet(g, groups') == FreeSet(g, groups) - Owned(g, e, new_) + Owned(g, d, inodes[i])
    requires SameInodes(groups, groups') && Compact(g, e, new_)
    ensures Sound(g, groups', inodes[i := new_], e)
    ensures Views(g, e, inodes[i := new_]) == Views(g, d, inodes)[i := ViewOf(g, e, new_)]
    ensures Carried(g, groups, inodes, d, groups', inodes[i := new_], e)
  {
    hide Superblock.Valid, FileOk, Owned, TooLong, OnlyWrote, FreeSet, FileBytes, InUse, SameInodes, Sound, Carried, Compact, CountsOwned, Views;
    SoundAt(g, groups, inodes, d, i);
    InUseKept(g, groups, groups');
    Replaced(g, groups, inodes, d, groups', e, i, new_, Owned(g, e, new_));
    ReplacedCarries(g, groups, inodes, d, groups', e, i, new_, Owned(g, e, new_));
  }

  // ---- the four file commands ----

  datatype Edit = Overwrite(data: seq<byte>) | Append(data: seq<byte>) | Truncate(size: nat)
                | Pwrite(data: seq<byte>, at: nat)

  /** What a command answers about something that is no regular file. */
  function NotAFile(e: Edit): Rc {
    if e.Overwrite? || e.Append? then IsADir else Invalid
  }

  function Max(a: nat, b: nat): nat {
    if a < b then b else a
  }

  /** Each command as an operation on a byte string; a position nothing wrote reads as zero. */
  function EditedSize(e: Edit, size: nat): nat {
    match e
    case Overwrite(data) => |data|
    case Append(data) => size + |data|
    case Truncate(n) => n
    case Pwrite(data, at) => Max(size, at + |data|)
  }

  function EditedByte(e: Edit, was: seq<byte>, p: nat): byte {
    var kept := if p < |was| then was[p] else 0;
    match e
    case Overwrite(data) => if p < |data| then data[p] else 0
    case Append(data) => if |was| <= p < |was| + |data| then data[p - |was|] else kept
    case Truncate(n) => kept
    case Pwrite(data, at) => if at <= p < at + |data| then data[p - at] else kept
  }

  ghost predicate IsEdited(e: Edit, was: seq<byte>, now: seq<byte>) {
    && |now| == EditedSize(e, |was|)
    && forall p | 0 <= p < |now| :: now[p] == EditedByte(e, was, p)
  }

  /** How much of the old contents a command reads back first. */
  function ReadsOld(e: Edit, size: nat): nat {
    match e
    case Overwrite(_) => 0
    case Append(_) => size
    case Truncate(n) => Min(size, n)
    case Pwrite(_, _) => size
  }

  /** Every block of the first n bytes can be resolved. */
  ghost predicate Readable(g: Geometry, ino: Inode, n: nat)
    requires ino.Shaped()
  {
    forall lb: nat :: Touches(g, lb, 0, n) ==> !Unresolvable(g, ino, lb)
  }

  /** The buffer each command builds before it rewrites the file. */
  method NewContents(img: Image, ino: Inode, e: Edit) returns (rc: Rc, buf: seq<byte>)
    requires img.Valid() && ino.Shaped() && FileOk(img.g, img.disk, ino)
    ensures rc == if Readable(img.g, ino, ReadsOld(e, ino.size)) then Ok else Invalid
    ensures rc == Ok ==> IsEdited(e, FileBytes(img.g, img.disk, ino), buf)
  {
    hide Superblock.Valid, CylGroup.Valid, FileOk, FileBytes, Unresolvable, Touches, IsEdited;
    var was;
    var n := ReadsOld(e, ino.size);
    rc, was := InodeReadData(img, ino, 0, n);
    assert Min(0 + n, ino.size) == n;
    assert rc == Ok ==> was == FileBytes(img.g, img.disk, ino)[..n];
    if rc != Ok {
      return rc, [];
    }
    buf := FillBuffer(e, FileBytes(img.g, img.disk, ino), was);
  }

  /** The buffer filled from what was read back. */
  method FillBuffer(e: Edit, ghost old_: seq<byte>, was: seq<byte>) returns (buf: seq<byte>)
    requires ReadsOld(e, |old_|) <= |old_| && was == old_[..ReadsOld(e, |old_|)]
    ensures IsEdited(e, old_, buf)
  {
    match e
    case Overwrite(data) => buf := data;
    case Append(data) => buf := was + data;
    case Truncate(size) => buf := ZeroPadded(was, size);
    case Pwrite(data, at) =>
      buf := ZeroPadded(was, Max(|was|, at + |data|));
      if |data| != 0 {
        buf := Splice(buf, at, data);
      }
  }

  lemma EditedLength(e: Edit, was: seq<byte>, now: seq<byte>)
    requires IsEdited(e, was, now)
    ensures |now| == EditedSize(e, |was|)
  {
  }

  /** nextufs_path_overwrite_file, append_file, truncate and pwrite on a resolved inode: refused
      unless it is a regular file that can be read as far as needed, and otherwise all or nothing,
      as storing the new contents goes. */
  method EditFile(img: Image, i: nat, e: Edit) returns (rc: Rc)
    requires img.Valid() && Sound(img.g, img.groups, img.inodes, img.disk) && i < |img.inodes|
    modifies img`groups, img`csum, img`total, img`disk, img`inodes
    ensures img.Valid() && Sound(img.g, img.groups, img.inodes, img.disk)
    ensures rc == if old(img.inodes[i].kind != Regular) then NotAFile(e)
                  else if !old(Readable(img.g, img.inodes[i], ReadsOld(e, img.inodes[i].size))) then Invalid
                  else StoreRc(img.g, old(img.groups), EditedSize(e, old(img.inodes[i].size)))
    ensures rc != Ok ==> img.inodes == old(img.inodes) && Views(img.g, img.disk, img.inodes) == old(Views(img.g, img.disk, img.inodes))
    ensures rc == Ok ==>
      var views := old(Views(img.g, img.disk, img.inodes));
      var now := Views(img.g, img.disk, img.inodes);
      IsEdited(e, views[i].bytes, now[i].bytes) && now == views[i := views[i].(bytes := now[i].bytes)]
    ensures SameInodes(old(img.groups), img.groups)
    ensures Carried(img.g, old(img.groups), old(img.inodes), old(img.disk), img.groups, img.inodes, img.disk)
  {
    hide Superblock.Valid, CylGroup.Valid, FileOk, Sound, FileBytes, Readable, IsEdited, SameInodes, CountsOwned, Owned, TooLong, FreeSet,
      StoreRc, Carried;
    SameInodesRefl(img.groups);
    CarriedNothing(img.g, img.groups, img.inodes, img.disk);
    SoundAt(img.g, img.groups, img.inodes, img.disk, i);
    if img.inodes[i].kind != Regular {
      return NotAFile(e);
    }
    var buf;
    rc, buf := NewContents(img, img.inodes[i], e);
    if rc != Ok {
      return;
    }
    EditedLength(e, FileBytes(img.g, img.disk, img.inodes[i]), buf);
    rc := RewriteInodeContents(img, i, i / img.g.inodesPerGroup, buf);
  }

  // ---- giving an inode up ----

  lemma OtherInode(ipg: pos, i: nat, k: nat)
    requires i != k
    ensures i / ipg != k / ipg || i % ipg != k % ipg
  {
    assert i == i / ipg * ipg + i % ipg && k == k / ipg * ipg + k % ipg;
  }

  /** One bit of the inode map changed, and with it the directory count of its group if the inode is
      a directory's. */
  ghost predicate BitSet(g: Geometry, was: seq<CylGroup>, now: seq<CylGroup>, i: nat, v: bool, dir: bool) {
    && |was| == |now| && i / g.inodesPerGroup < |was|
    && (forall k: nat :: InUse(g, now, k) == if k == i then v else InUse(g, was, k))
    && (forall c | 0 <= c < |was| ::
          now[c].cs.ndir == was[c].cs.ndir + if dir && c == i / g.inodesPerGroup then (if v then 1 else -1) else 0)
  }

  /** The directory counts are as before. */
  ghost predicate SameDirs(was: seq<CylGroup>, now: seq<CylGroup>) {
    |was| == |now| && forall c | 0 <= c < |was| :: now[c].cs.ndir == was[c].cs.ndir
  }

  lemma OneBit(g: Geometry, was: seq<CylGroup>, now: seq<CylGroup>, i: nat, v: bool, dir: bool)
    requires |was| == |now| && i / g.inodesPerGroup < |was|
    requires forall c | 0 <= c < |was| && c != i / g.inodesPerGroup :: now[c].iused == was[c].iused && now[c].cs.ndir == was[c].cs.ndir
    requires var c, local := i / g.inodesPerGroup, i % g.inodesPerGroup;
             && local < |was[c].iused| && now[c].iused == was[c].iused[local := v]
             && now[c].cs.ndir == was[c].cs.ndir + if dir then (if v then 1 else -1) else 0
    ensures BitSet(g, was, now, i, v, dir)
  {
    forall k: nat ensures InUse(g, now, k) == if k == i then v else InUse(g, was, k) {
      if k != i {
        OtherInode(g.inodesPerGroup, i, k);
      }
      BitAt(was, now, i / g.inodesPerGroup, i % g.inodesPerGroup, k / g.inodesPerGroup, k % g.inodesPerGroup, v);
    }
  }

  lemma BitAt(was: seq<CylGroup>, now: seq<CylGroup>, c: nat, local: nat, c': nat, local': nat, v: bool)
    requires |was| == |now| && c < |was| && local < |was[c].iused| && now[c].iused == was[c].iused[local := v]
    requires forall k | 0 <= k < |was| && k != c :: now[k].iused == was[k].iused
    ensures (c' < |now| && local' < |now[c'].iused| && now[c'].iused[local'])
        <==> if c == c' && local == local' then v else c' < |was| && local' < |was[c'].iused| && was[c'].iused[local']
  {
  }

  /** A change of link count leaves everything else as it was. */
  lemma Relinked(g: Geometry, groups: seq<CylGroup>, inodes: seq<Inode>, d: seq<byte>, i: nat, n: nat)
    requires Sound(g, groups, inodes, d) && i < |inodes| && |d| == g.Off(g.fragCount) && inodes[i].kind != Unused
    ensures Sound(g, groups, inodes[i := inodes[i].(nlink := n)], d)
    ensures Views(g, d, inodes[i := inodes[i].(nlink := n)])
         == Views(g, d, inodes)[i := Views(g, d, inodes)[i].(nlink := n)]
    ensures Carried(g, groups, inodes, d, groups, inodes[i := inodes[i].(nlink := n)], d)
  {
    hide Superblock.Valid, TooLong, FreeSet, Sound, FileOk, Owned, FileBytes, Carried, Snug, Blocks;
    var new_ := inodes[i].(nlink := n);
    SoundAt(g, groups, inodes, d, i);
    SameFile(g, d, inodes[i], new_);
    assert OnlyWrote(g, d, d, {});
    Replaced(g, groups, inodes, d, groups, d, i, new_, {});
    SnugFields(g, d, inodes[i], new_, Blocks(g, new_.size));
    ReplacedCarries(g, groups, inodes, d, groups, d, i, new_, {});
  }

  /** A file depends on its pointers and its size only. */
  lemma SameFile(g: Geometry, d: seq<byte>, a: Inode, b: Inode)
    requires a.Shaped() && b == a.(kind := b.kind, nlink := b.nlink, fast := b.fast, blocks := b.blocks)
    ensures Owned(g, d, b) == Owned(g, d, a) && (FileOk(g, d, b) <==> FileOk(g, d, a))
    ensures FileBytes(g, d, b) == FileBytes(g, d, a)
  {
    hide Superblock.Valid, TreeOf, Meta, Separate, Lookup, SpotOf, Covers, Placed, BlockByte;
    assert forall k | 0 <= k < NIADDR :: SlotTree(g, d, b, k) == SlotTree(g, d, a, k);
    assert forall j: nat :: Ptr(g, d, b, j) == Ptr(g, d, a, j);
    assert FileExtents(g, d, b) == FileExtents(g, d, a);
  }

  /** The inode is cleared and its storage is free again. */
  lemma Cleared(g: Geometry, groups: seq<CylGroup>, inodes: seq<Inode>, d: seq<byte>, groups': seq<CylGroup>, i: nat)
    requires Sound(g, groups, inodes, d) && i < |inodes| && |d| == g.Off(g.fragCount)
    requires FreeSet(g, groups') == FreeSet(g, groups) + OwnedBy(g, d, inodes[i])
    requires exists dir :: BitSet(g, groups, groups', i, false, dir)
    ensures Sound(g, groups', inodes[i := CLEARED], d)
    ensures Views(g, d, inodes[i := CLEARED]) == Views(g, d, inodes)[i := GONE]
    ensures Carried(g, groups, inodes, d, groups', inodes[i := CLEARED], d)
  {
    hide Superblock.Valid, TooLong, FreeSet, Sound, FileOk, Owned, Carried;
    SoundAt(g, groups, inodes, d, i);
    assert OnlyWrote(g, d, d, {});
    Replaced(g, groups, inodes, d, groups', d, i, CLEARED, {});
    ReplacedCarries(g, groups, inodes, d, groups', d, i, CLEARED, {});
  }

  lemma InUseIs(g: Geometry, groups: seq<CylGroup>, i: nat)
    ensures InUse(g, groups, i) <==>
              i / g.inodesPerGroup < |groups| && i % g.inodesPerGroup < |groups[i / g.inodesPerGroup].iused|
              && groups[i / g.inodesPerGroup].iused[i % g.inodesPerGroup]
  {
  }

  /** Writes a cleared inode over slot i and clears its bit. */
  method ClearInode(img: Image, i: nat, isDir: bool) returns (rc: Rc)
    requires img.Valid() && i < |img.inodes| && InUse(img.g, img.groups, i) && |img.inodes| == img.g.ncg * img.g.inodesPerGroup
    modifies img`groups, img`csum, img`total, img`inodes
    ensures img.Valid() && rc == Ok && img.Free() == old(img.Free())
    ensures img.inodes == old(img.inodes)[i := CLEARED]
    ensures BitSet(img.g, old(img.groups), img.groups, i, false, isDir)
  {
    hide Superblock.Valid, FreeSet, CylGroup.Valid, BitSet, Superblock.Base, SumOf;
    ghost var was := img.groups;
    InUseIs(img.g, was, i);
    img.inodes := img.inodes[i := CLEARED];
    rc := FreeInodeInGroup(img, i, isDir);
    OneBit(img.g, was, img.groups, i, false, isDir);
  }

  /** Storage and link count a removal sees when it frees unconditionally: special nodes have none. */
  predicate Disposable(ino: Inode) {
    ino.kind == Special ==> ino.size == 0 && ino.ib == NO_INDIRECT
  }

  /** nextufs__remove_linked_inode: one link fewer; the last link takes storage and inode with it. */
  method RemoveLinkedInode(img: Image, i: nat) returns (rc: Rc)
    requires img.Valid() && Sound(img.g, img.groups, img.inodes, img.disk) && i < |img.inodes|
    requires img.inodes[i].kind != Unused
    modifies img`groups, img`csum, img`total, img`inodes
    ensures img.Valid() && Sound(img.g, img.groups, img.inodes, img.disk)
    ensures var n, views := old(img.inodes[i].nlink), old(Views(img.g, img.disk, img.inodes));
            && rc == (if n == 0 then Invalid else Ok)
            && Views(img.g, img.disk, img.inodes)
               == (if n == 0 then views else views[i := if n == 1 then GONE else views[i].(nlink := n - 1)])
            && img.Free() == old(img.Free()) + (if n == 1 then old(OwnedBy(img.g, img.disk, img.inodes[i])) else {})
            && (if n == 1 then BitSet(img.g, old(img.groups), img.groups, i, false, old(img.inodes[i].kind) == Directory) else img.groups == old(img.groups))
    ensures |img.inodes| == old(|img.inodes|) && forall k | 0 <= k < |img.inodes| && k != i :: img.inodes[k] == old(img.inodes)[k]
    ensures Carried(img.g, old(img.groups), old(img.inodes), img.disk, img.groups, img.inodes, img.disk)
  {
    hide Superblock.Valid, FreeSet, CylGroup.Valid, BitSet, FileOk, Owned, TooLong, Sound, Views, InUse, SameInodes, Carried;
    CarriedNothing(img.g, img.groups, img.inodes, img.disk);
    ghost var groups0, inodes0 := img.groups, img.inodes;
    var ino := img.inodes[i];
    SoundAt(img.g, img.groups, img.inodes, img.disk, i);
    SoundSize(img.g, img.groups, img.inodes, img.disk);
    if ino.nlink == 0 {
      return Invalid;
    }
    if ino.nlink > 1 {
      Relinked(img.g, img.groups, img.inodes, img.disk, i, ino.nlink - 1);
      img.inodes := img.inodes[i := ino.(nlink := ino.nlink - 1)];
      return Ok;
    }
    SameInodesRefl(img.groups);
    if ino.kind != Special {
      var out;
      rc, out := FreeFileStorage(img, ino);
    }
    ghost var mid := img.groups;
    InUseKept(img.g, groups0, mid);
    rc := ClearInode(img, i, ino.kind == Directory);
    BitSetAfter(img.g, groups0, mid, img.groups, i, false, ino.kind == Directory);
    Cleared(img.g, groups0, inodes0, img.disk, img.groups, i);
  }

  lemma BitSetAfter(g: Geometry, a: seq<CylGroup>, b: seq<CylGroup>, c: seq<CylGroup>, i: nat, v: bool, dir: bool)
    requires SameInodes(a, b) && BitSet(g, b, c, i, v, dir)
    ensures BitSet(g, a, c, i, v, dir)
  {
    hide InUse;
    InUseKept(g, a, b);
  }

  lemma BitSetThen(g: Geometry, a: seq<CylGroup>, b: seq<CylGroup>, c: seq<CylGroup>, i: nat, v: bool, dir: bool)
    requires BitSet(g, a, b, i, v, dir) && SameInodes(b, c)
    ensures BitSet(g, a, c, i, v, dir)
  {
    hide InUse;
    InUseKept(g, b, c);
  }

  lemma SoundSize(g: Geometry, groups: seq<CylGroup>, inodes: seq<Inode>, d: seq<byte>)
    requires Sound(g, groups, inodes, d)
    ensures |inodes| == |groups| * g.inodesPerGroup
  {
  }

  /** nextufs__remove_dir_inode: the directory goes, and its parent loses the link of its "..". */
  method RemoveDirInode(img: Image, parent: nat, i: nat) returns (rc: Rc)
    requires img.Valid() && Sound(img.g, img.groups, img.inodes, img.disk) && i < |img.inodes|
    requires img.inodes[i].kind == Directory
    requires parent < |img.inodes| && parent != i && img.inodes[parent].kind == Directory && img.inodes[parent].nlink > 0
    modifies img`groups, img`csum, img`total, img`inodes
    ensures img.Valid() && Sound(img.g, img.groups, img.inodes, img.disk) && rc == Ok
    ensures var views := old(Views(img.g, img.disk, img.inodes));
            Views(img.g, img.disk, img.inodes)
            == views[i := GONE][parent := views[parent].(nlink := views[parent].nlink - 1)]
    ensures |img.inodes| == old(|img.inodes|)
    ensures img.inodes[parent] == old(img.inodes)[parent].(nlink := old(img.inodes)[parent].nlink - 1)
    ensures img.Free() == old(img.Free()) + old(OwnedBy(img.g, img.disk, img.inodes[i]))
    ensures BitSet(img.g, old(img.groups), img.groups, i, false, true)
    ensures Carried(img.g, old(img.groups), old(img.inodes), img.disk, img.groups, img.inodes, img.disk)
  {
    hide Superblock.Valid, FreeSet, CylGroup.Valid, BitSet, FileOk, Owned, TooLong, Sound, Views, InUse, SameInodes, Carried;
    ghost var groups0, inodes0 := img.groups, img.inodes;
    SoundAt(img.g, img.groups, img.inodes, img.disk, i);
    SoundSize(img.g, img.groups, img.inodes, img.disk);
    var out;
    rc, out := FreeFileStorage(img, img.inodes[i]);
    ghost var mid := img.groups;
    InUseKept(img.g, groups0, mid);
    rc := ClearInode(img, i, true);
    BitSetAfter(img.g, groups0, mid, img.groups, i, false, true);
    Cleared(img.g, groups0, inodes0, img.disk, img.groups, i);
    ViewsAt(img.g, img.disk, inodes0);
    var ino := img.inodes[parent];
    ghost var inodes1 := img.inodes;
    Relinked(img.g, img.groups, img.inodes, img.disk, parent, ino.nlink - 1);
    img.inodes := img.inodes[parent := ino.(nlink := ino.nlink - 1)];
    CarriedTwice(img.g, groups0, inodes0, img.disk, img.groups, inodes1, img.disk, img.groups, img.inodes, img.disk);
  }

  lemma ViewsAt(g: Geometry, d: seq<byte>, inodes: seq<Inode>)
    ensures forall k | 0 <= k < |inodes| :: Views(g, d, inodes)[k] == ViewOf(g, d, inodes[k])
  {
  }

  lemma UnusedView(g: Geometry, d: seq<byte>, inodes: seq<Inode>, i: nat)
    requires i < |inodes|
    ensures inodes[i].kind == Unused ==> Views(g, d, inodes)[i := GONE] == Views(g, d, inodes)
  {
  }

  /** nextufs__discard_new_inode, on an inode just stored or, when its data could not be
      allocated, on one that never was. If the abandoned size is past what three levels of
      indirection address, the inode stays marked. */
  method DiscardNewInode(img: Image, i: nat, ino: Inode) returns (rc: Rc)
    requires img.Valid() && Sound(img.g, img.groups, img.inodes, img.disk) && i < |img.inodes|
    requires InUse(img.g, img.groups, i) && ino.kind != Unused && Disposable(ino)
    requires (img.inodes[i] == ino && ino.Shaped()) || (img.inodes[i].kind == Unused && Blank(ino) && !Inline(ino))
    modifies img`groups, img`csum, img`total, img`inodes
    ensures img.Valid() && Sound(img.g, img.groups, img.inodes, img.disk)
    ensures rc == if old(img.inodes[i].kind) == Unused && TooLong(img.g, ino.size) then TooBig else Ok
    ensures Views(img.g, img.disk, img.inodes) == old(Views(img.g, img.disk, img.inodes))[i := GONE]
    ensures img.Free() == old(img.Free()) + old(OwnedBy(img.g, img.disk, img.inodes[i]))
    ensures if rc == Ok then BitSet(img.g, old(img.groups), img.groups, i, false, ino.kind == Directory)
            else SameInodes(old(img.groups), img.groups)
    ensures Carried(img.g, old(img.groups), old(img.inodes), img.disk, img.groups, img.inodes, img.disk)
  {
    hide Superblock.Valid, FreeSet, CylGroup.Valid, BitSet, FileOk, Owned, TooLong, Sound, InUse, SameInodes, Views, DataFrags,
      CountsOwned, Carried;
    ghost var groups0, inodes0 := img.groups, img.inodes;
    SoundAt(img.g, img.groups, img.inodes, img.disk, i);
    SoundSize(img.g, img.groups, img.inodes, img.disk);
    NothingOwned(img.g, img.disk, ino);
    UnusedView(img.g, img.disk, img.inodes, i);
    var out;
    rc, out := FreeFileStorage(img, ino);
    InUseKept(img.g, groups0, img.groups);
    if rc != Ok {
      StillSound(img.g, groups0, inodes0, img.disk, img.groups);
      CarriedFree(img.g, groups0, inodes0, img.disk, img.groups);
      return;
    }
    ghost var mid := img.groups;
    rc := ClearInode(img, i, ino.kind == Directory);
    BitSetAfter(img.g, groups0, mid, img.groups, i, false, ino.kind == Directory);
    Cleared(img.g, groups0, inodes0, img.disk, img.groups, i);
  }

  /** An inode with no pointers, or with no bytes and no trees, owns nothing. */
  lemma NothingOwned(g: Geometry, d: seq<byte>, ino: Inode)
    ensures Blank(ino) ==> ino.Shaped() && FileOk(g, d, ino) && Owned(g, d, ino) == {} && DataFrags(g, d, ino) == {}
    ensures ino.Shaped() && ino.size == 0 && ino.ib == NO_INDIRECT ==>
              FileOk(g, d, ino) && Owned(g, d, ino) == {} && !TooLong(g, ino.size)
  {
    hide Superblock.Valid, InodeMeta, InodeSeparate, Ptr, Placed, SpotOf;
    if Blank(ino) {
      BlankFile(g, d, ino);
    }
    if ino.Shaped() && ino.size == 0 && ino.ib == NO_INDIRECT {
      BlankMap(g, d, ino.(db := NO_BLOCKS));
      SameTrees(g, d, ino, ino.(db := NO_BLOCKS));
      BlocksIs(g, 0, 0);
      assert Blocks(g, 0) == 0;
      assert FileExtents(g, d, ino) == [];
    }
  }

  lemma SameTrees(g: Geometry, d: seq<byte>, a: Inode, b: Inode)
    requires a.Shaped() && b.Shaped() && a.ib == b.ib
    ensures InodeMeta(g, d, a) == InodeMeta(g, d, b) && (InodeSeparate(g, d, a) <==> InodeSeparate(g, d, b))
  {
    hide Superblock.Valid, TreeOf, Meta, Separate;
    assert forall k | 0 <= k < NIADDR :: SlotTree(g, d, b, k) == SlotTree(g, d, a, k);
  }

  /** Soundness needs the free set and the inode map of the groups only. */
  lemma StillSound(g: Geometry, groups: seq<CylGroup>, inodes: seq<Inode>, d: seq<byte>, groups': seq<CylGroup>)
    requires Sound(g, groups, inodes, d)
    requires FreeSet(g, groups') == FreeSet(g, groups) && |groups'| == |groups|
    requires forall k: nat :: InUse(g, groups', k) == InUse(g, groups, k)
    ensures Sound(g, groups', inodes, d)
  {
    hide Superblock.Valid, FreeSet, InodeOk, OwnedBy;
  }

  // ---- making inodes ----

  /** nextufs__allocate_inode_in_group on a sound image: the inode it picks is not in use. */
  method NewInode(img: Image, c: nat, kind: Kind) returns (rc: Rc, i: nat)
    requires img.Valid() && Sound(img.g, img.groups, img.inodes, img.disk) && c < img.g.ncg
    modifies img`groups, img`csum, img`total
    ensures img.Valid() && Sound(img.g, img.groups, img.inodes, img.disk)
    ensures img.Free() == old(img.Free())
    ensures rc == if InodeLeft(old(img.groups), c) then Ok else NoSpace
    ensures rc != Ok ==> img.groups == old(img.groups)
    ensures |img.groups| == old(|img.groups|) && forall k | 0 <= k < |img.groups| :: img.groups[k].free == old(img.groups)[k].free
    ensures rc == Ok ==> i < |img.inodes| && img.inodes[i].kind == Unused && !InUse(img.g, old(img.groups), i)
    ensures rc == Ok ==> i / img.g.inodesPerGroup == c
    ensures rc == Ok ==> BitSet(img.g, old(img.groups), img.groups, i, true, kind == Directory)
  {
    hide Superblock.Valid, FreeSet, CylGroup.Valid, Sound;
    ghost var groups0 := img.groups;
    rc, i := AllocateInodeInGroup(img, c, kind == Directory);
    if rc == Ok {
      SoundSize(img.g, groups0, img.inodes, img.disk);
      InodeMapSize(img.g, groups0, c);
      DivModOf(c, i - c * img.g.inodesPerGroup, img.g.inodesPerGroup);
      RunBound(img.g.inodesPerGroup, img.g.ncg, c, i - c * img.g.inodesPerGroup, 1);
      OneBit(img.g, groups0, img.groups, i, true, kind == Directory);
      SoundAt(img.g, groups0, img.inodes, img.disk, i);
      MarkedSound(img.g, groups0, img.inodes, img.disk, img.groups, i, kind == Directory);
    }
  }

  lemma InodeMapSize(g: Geometry, groups: seq<CylGroup>, c: nat)
    requires c < |groups| && c < g.ncg && groups[c].Valid(g, c)
    ensures |groups[c].iused| == g.inodesPerGroup
  {
  }

  lemma MarkedSound(g: Geometry, groups: seq<CylGroup>, inodes: seq<Inode>, d: seq<byte>, groups': seq<CylGroup>, i: nat, dir: bool)
    requires Sound(g, groups, inodes, d) && FreeSet(g, groups') == FreeSet(g, groups)
    requires BitSet(g, groups, groups', i, true, dir)
    ensures Sound(g, groups', inodes, d)
  {
    hide Superblock.Valid, FreeSet, InodeOk, OwnedBy, InUse;
  }

  /** A new inode takes its storage from the free set. */
  lemma StoredNew(g: Geometry, groups: seq<CylGroup>, inodes: seq<Inode>, d: seq<byte>,
               groups': seq<CylGroup>, e: seq<byte>, i: nat, new_: Inode)
    requires Sound(g, groups, inodes, d) && i < |inodes| && |d| == g.Off(g.fragCount)
    requires inodes[i].kind == Unused && InUse(g, groups, i)
    requires new_.Shaped()
    requires HasStorage(new_) ==> FileOk(g, e, new_) && !TooLong(g, new_.size) && CountsOwned(g, e, new_)
    requires OwnedBy(g, e, new_) <= FreeSet(g, groups) && OnlyWrote(g, d, e, OwnedBy(g, e, new_))
    requires FreeSet(g, groups') == FreeSet(g, groups) - OwnedBy(g, e, new_)
    requires SameInodes(groups, groups') && Kept(g, e, new_)
    ensures Sound(g, groups', inodes[i := new_], e)
    ensures Views(g, e, inodes[i := new_]) == Views(g, d, inodes)[i := ViewOf(g, e, new_)]
    ensures Carried(g, groups, inodes, d, groups', inodes[i := new_], e)
  {
    hide Superblock.Valid, FileOk, Owned, TooLong, OnlyWrote, FreeSet, FileBytes, InUse, SameInodes, Sound, Carried, Kept;
    SoundAt(g, groups, inodes, d, i);
    InUseKept(g, groups, groups');
    Replaced(g, groups, inodes, d, groups', e, i, new_, OwnedBy(g, e, new_));
    ReplacedCarries(g, groups, inodes, d, groups', e, i, new_, OwnedBy(g, e, new_));
  }

  /** The free maps are as before. */
  ghost predicate SameFreeMaps(was: seq<CylGroup>, now: seq<CylGroup>) {
    |was| == |now| && forall c | 0 <= c < |was| :: now[c].free == was[c].free
  }

  /** Both inode maps are the same. */
  ghost predicate SameMarks(g: Geometry, was: seq<CylGroup>, now: seq<CylGroup>) {
    forall k: nat :: InUse(g, now, k) == InUse(g, was, k)
  }

  /** Making a file fails and its inode stays marked: its size is out of reach, and not even its
      first block can be had. */
  ghost predicate Strands(g: Geometry, groups: seq<CylGroup>, c: nat, size: nat) {
    InodeLeft(groups, c) && TooLong(g, size) && Wholes(g, groups) == 0
  }

  predicate InodeLeft(groups: seq<CylGroup>, c: nat) {
    c < |groups| && ClearBits(groups[c].iused) > 0
  }

  /** How making a file in group c ends. */
  ghost function NewFileRc(g: Geometry, groups: seq<CylGroup>, c: nat, size: nat): Rc {
    if InodeLeft(groups, c) then StoreRc(g, groups, size) else NoSpace
  }

  lemma FirstOfLong(g: Geometry, groups: seq<CylGroup>, size: nat)
    requires TooLong(g, size)
    ensures Affordable(g, groups, size, 0) <==> Wholes(g, groups) > 0
  {
    hide Superblock.Valid, Wholes, PartlyFits, Blocks, SpotFrom, Start, BlockSize, Left;
    var k: nat :| k < Blocks(g, size) && SpotOf(g, k) == Beyond;
    BlocksIs(g, size, k);
    BlocksIs(g, size, 1);
    LeftNext(g, size, 0);
    ChunkBounds(g, size, 0);
    LastOrWhole(g, size, 0);
    FragsForBounds(g, 0, Chunk(g, size, 0));
    DirectSpot(g, 0);
    assert Cost(g, 0) == 1 && Asked(g, 1) == Asked(g, 0) + Cost(g, 0);
  }

  /** The inode half of create_file and of a symlink too long to keep inline. It succeeds exactly
      when the group has an inode and the data can be stored; on failure the inode map is as
      before except in the case Strands describes. */
  method NewFile(img: Image, c: nat, kind: Kind, data: seq<byte>) returns (rc: Rc, i: nat)
    requires img.Valid() && Sound(img.g, img.groups, img.inodes, img.disk) && c < img.g.ncg
    requires kind == Regular || kind == Symlink
    modifies img`groups, img`csum, img`total, img`inodes, img`disk
    ensures img.Valid() && Sound(img.g, img.groups, img.inodes, img.disk)
    ensures rc == NewFileRc(img.g, old(img.groups), c, |data|)
    ensures rc == Ok ==> i < |img.inodes| && !InUse(img.g, old(img.groups), i) && BitSet(img.g, old(img.groups), img.groups, i, true, false)
    ensures rc == Ok ==> Views(img.g, img.disk, img.inodes) == old(Views(img.g, img.disk, img.inodes))[i := View(kind, 1, data)]
    ensures rc == Ok ==> img.inodes[i].Shaped() && !Inline(img.inodes[i]) && Dense(img.g, img.disk, img.inodes[i])
    ensures rc == Ok ==> Compact(img.g, img.disk, img.inodes[i])
    ensures rc == Ok ==> OwnedBy(img.g, img.disk, img.inodes[i]) <= old(img.Free())
    ensures rc == Ok ==> img.Free() == old(img.Free()) - OwnedBy(img.g, img.disk, img.inodes[i])
    ensures rc == Ok ==> i < |old(img.inodes)| && old(img.inodes[i].kind) == Unused && img.inodes[i].kind == kind
    ensures rc == Ok ==> img.inodes == old(img.inodes)[i := img.inodes[i]]
    ensures rc == Ok ==> Wholes(img.g, img.groups) + Asked(img.g, Blocks(img.g, |data|)) >= Wholes(img.g, old(img.groups))
    ensures rc == Ok && |data| == 0 ==> SameFreeMaps(old(img.groups), img.groups)
    ensures rc != Ok ==> Views(img.g, img.disk, img.inodes) == old(Views(img.g, img.disk, img.inodes))
    ensures rc != Ok ==> img.Free() == old(img.Free())
    ensures rc != Ok ==> forall k: nat :: InUse(img.g, old(img.groups), k) ==> InUse(img.g, img.groups, k)
    ensures rc != Ok ==>
              (SameMarks(img.g, old(img.groups), img.groups) <==> !Strands(img.g, old(img.groups), c, |data|))
    ensures rc != Ok ==> |img.inodes| == old(|img.inodes|) && SameDirs(old(img.groups), img.groups)
    ensures rc != Ok && Strands(img.g, old(img.groups), c, |data|) ==>
              i < |old(img.inodes)| && old(img.inodes[i].kind) == Unused && !InUse(img.g, old(img.groups), i)
              && BitSet(img.g, old(img.groups), img.groups, i, true, false)
    ensures Carried(img.g, old(img.groups), old(img.inodes), old(img.disk), img.groups, img.inodes, img.disk)
  {
    hide Superblock.Valid, FreeSet, CylGroup.Valid, FileOk, Owned, TooLong, Sound, InUse, SameInodes, FileBytes,
      Dense, OnlyWrote, Compact, StoreRc, Affordable, Wholes, Asked, Blocks, Spent, Carried;
    ghost var groups0, inodes0, d0 := img.groups, img.inodes, img.disk;
    CarriedNothing(img.g, img.groups, img.inodes, img.disk);
    rc, i := NewInode(img, c, kind);
    if rc != Ok {
      return;
    }
    var ino;
    ghost var groups1 := img.groups;
    CarriedFree(img.g, groups0, inodes0, d0, groups1);
    SameRoom(img.g, groups0, groups1);
    SameOutcome(img.g, groups0, groups1, |data|);
    SpentIs(img.g, groups0, groups1);
    rc, ino := AllocateDataForInode(img, c, data, CLEARED.(kind := kind, nlink := 1, size := |data|));
    var done;
    InUseKept(img.g, groups1, img.groups);
    if rc != Ok {
      ghost var groups2 := img.groups;
      if TooLong(img.g, |data|) { FirstOfLong(img.g, groups1, |data|); }
      NotTooLong(img.g);
      Abandoned(img.g, groups1, inodes0, d0, img.groups, img.disk, i);
      NothingOwned(img.g, img.disk, ino);
      CarriedTwice(img.g, groups0, inodes0, d0, groups1, inodes0, d0, groups2, inodes0, img.disk);
      done := DiscardNewInode(img, i, ino);
      CarriedTwice(img.g, groups0, inodes0, d0, groups2, inodes0, img.disk, img.groups, img.inodes, img.disk);
      Unmarked(img.g, groups0, groups1, groups2, img.groups, i, done != Ok);
      return;
    }
    FileOkShaped(img.g, img.disk, ino);
    BitSetThen(img.g, groups0, groups1, img.groups, i, true, false);
    img.inodes := img.inodes[i := ino];
    StoredNew(img.g, groups1, inodes0, d0, img.groups, img.disk, i, ino);
    CarriedTwice(img.g, groups0, inodes0, d0, groups1, inodes0, d0, img.groups, img.inodes, img.disk);
  }

  lemma NotTooLong(g: Geometry)
    ensures !TooLong(g, 0)
  {
    hide Superblock.Valid, SpotOf, Start;
    BlocksIs(g, 0, 0);
  }

  lemma SpentIs(g: Geometry, a: seq<CylGroup>, b: seq<CylGroup>)
    requires Spent(g, a, b, 0)
    ensures Wholes(g, b) == Wholes(g, a)
  {
    hide Wholes, PartlyFits;
  }

  /** The mark set for a new inode went away again, or not. */
  lemma Unmarked(g: Geometry, a: seq<CylGroup>, b: seq<CylGroup>, c: seq<CylGroup>, e: seq<CylGroup>, i: nat, v: bool)
    requires BitSet(g, a, b, i, true, false) && !InUse(g, a, i) && SameInodes(b, c)
    requires if v then SameInodes(c, e) else BitSet(g, c, e, i, false, false)
    ensures SameMarks(g, a, e) <==> !v
    ensures forall k: nat :: InUse(g, a, k) ==> InUse(g, e, k)
    ensures SameDirs(a, e) && (v ==> BitSet(g, a, e, i, true, false))
  {
    hide InUse;
    InUseKept(g, b, c);
    if v {
      InUseKept(g, c, e);
    }
    assert InUse(g, e, i) == v;
  }

  /** A failed allocation for an inode that is not stored yet. */
  lemma Abandoned(g: Geometry, groups: seq<CylGroup>, inodes: seq<Inode>, d: seq<byte>,
                  groups': seq<CylGroup>, e: seq<byte>, i: nat)
    requires Sound(g, groups, inodes, d) && i < |inodes| && |d| == g.Off(g.fragCount)
    requires inodes[i].kind == Unused && OnlyWrote(g, d, e, FreeSet(g, groups)) && FreeSet(g, groups') == FreeSet(g, groups)
    requires SameInodes(groups, groups')
    ensures Sound(g, groups', inodes, e) && Views(g, e, inodes) == Views(g, d, inodes)
    ensures OwnedBy(g, e, inodes[i]) == {}
    ensures Carried(g, groups, inodes, d, groups', inodes, e)
  {
    hide Superblock.Valid, FileOk, Owned, TooLong, OnlyWrote, FreeSet, FileBytes, InUse, SameInodes, Sound, Carried;
    SoundAt(g, groups, inodes, d, i);
    InUseKept(g, groups, groups');
    Replaced(g, groups, inodes, d, groups', e, i, inodes[i], FreeSet(g, groups));
    ReplacedCarries(g, groups, inodes, d, groups', e, i, inodes[i], FreeSet(g, groups));
    assert inodes[i := inodes[i]] == inodes;
    assert Views(g, d, inodes)[i := ViewOf(g, e, inodes[i])] == Views(g, d, inodes);
  }
}
