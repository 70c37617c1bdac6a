/** The copy-on-write VDI backend: a block map over a host file, on top of an optional parent. */
module Vdi {
  import opened Geometry
  import opened Image
  import opened Storage

  const UNALLOCATED: nat := 0xffff_ffff
  const ZERO: nat := 0xffff_fffe
  const BLOCKS_ALLOC_OFF: nat := 0x184

  /** The header fields that never change; slots are `extra` bytes of slack and a block. */
  datatype Header = Header(blockSize: pos, extra: nat, count: nat, mapOff: nat, dataOff: nat, size: nat)
  {
    predicate Valid() {
      && 0 < count <= ZERO && BLOCKS_ALLOC_OFF + 4 <= mapOff && mapOff + 4 * count <= dataOff
      && size <= BlockAt(count)
    }

    /** First guest byte of a block. */
    function BlockAt(i: nat): nat {
      i * blockSize
    }

    /** Host offset of a slot. */
    function SlotAt(e: nat): nat {
      dataOff + e * (blockSize + extra)
    }

    function BlockOf(p: nat): (i: nat)
      ensures BlockAt(i) <= p < BlockAt(i) + blockSize
    {
      DivBounds(p, blockSize);
      p / blockSize
    }

    lemma BlockNext(i: nat)
      ensures BlockAt(i + 1) == BlockAt(i) + blockSize && BlockAt(0) == 0
    {
    }

    lemma BlockMonotone(a: nat, b: nat)
      ensures a <= b ==> BlockAt(a) <= BlockAt(b)
      ensures a < b ==> BlockAt(a) + blockSize <= BlockAt(b)
    {
      if a < b {
        assert BlockAt(b) == BlockAt(a) + (b - a) * blockSize;
        MulAtLeast(b - a, blockSize);
      }
    }

    lemma BlockUnique(p: nat, i: nat)
      requires BlockAt(i) <= p < BlockAt(i) + blockSize
      ensures BlockOf(p) == i
    {
      hide BlockAt, BlockOf;
      BlockMonotone(i, BlockOf(p));
      BlockMonotone(BlockOf(p), i);
    }

    lemma SlotMonotone(a: nat, b: nat)
      ensures a < b ==> SlotAt(a) + extra + blockSize <= SlotAt(b)
      ensures SlotAt(a) >= dataOff
    {
      if a < b {
        assert SlotAt(b) == SlotAt(a) + (b - a) * (blockSize + extra);
        MulAtLeast(b - a, blockSize + extra);
      }
    }
  }

  /** What changes: the block map in memory, the slot count, and the host file. */
  datatype Layer = Layer(bmap: seq<nat>, used: nat, file: seq<byte>)

  predicate Slotted(e: nat) {
    e != UNALLOCATED && e != ZERO
  }

  /** Used slots lie below the count, each used once, and are in the file. */
  ghost predicate LayerOk(h: Header, l: Layer) {
    && h.Valid() && |l.bmap| == h.count
    && (forall i | 0 <= i < h.count && Slotted(l.bmap[i]) :: l.bmap[i] < l.used)
    && (forall i, j | 0 <= i < j < h.count && Slotted(l.bmap[i]) :: l.bmap[i] != l.bmap[j])
    && h.SlotAt(l.used) <= |l.file|
  }

  /** One guest byte: from its slot, zero, or from below; past the parent's end it is zero. */
  ghost function GuestByte(h: Header, l: Layer, below: Option<seq<byte>>, p: nat): byte
    requires LayerOk(h, l) && p < h.size
  {
    h.BlockMonotone(h.count, h.BlockOf(p));
    var e := l.bmap[h.BlockOf(p)];
    if e == ZERO then 0
    else if e == UNALLOCATED then
      (if below.Some? && p < |below.value| then below.value[p] else 0)
    else
      var at := h.SlotAt(e) + h.extra + (p - h.BlockAt(h.BlockOf(p)));
      if at < |l.file| then l.file[at] else 0
  }

  /** The disk as one flat byte array. */
  ghost function Guest(h: Header, l: Layer, below: Option<seq<byte>>): (d: seq<byte>)
    requires LayerOk(h, l)
    ensures |d| == h.size
  {
    seq(h.size, p requires 0 <= p < h.size => GuestByte(h, l, below, p))
  }

  // ---- host files ----

  /** pwrite: bytes past the end extend the file. */
  function Put(f: seq<byte>, off: nat, bs: seq<byte>): (r: seq<byte>)
    ensures |r| == if off + |bs| <= |f| then |f| else off + |bs|
  {
    if off + |bs| <= |f| then f[..off] + bs + f[off + |bs|..]
    else if off <= |f| then f[..off] + bs
    else f + seq(off - |f|, _ => 0) + bs
  }

  lemma PutAt(f: seq<byte>, off: nat, bs: seq<byte>, k: nat)
    requires k < |Put(f, off, bs)|
    ensures off <= k < off + |bs| ==> Put(f, off, bs)[k] == bs[k - off]
    ensures k < |f| && (k < off || off + |bs| <= k) ==> Put(f, off, bs)[k] == f[k]
  {
  }

  function ReadLe32(bs: seq<byte>): nat
    requires |bs| == 4
  {
    bs[0] as int + 0x100 * (bs[1] as int + 0x100 * (bs[2] as int + 0x100 * bs[3] as int))
  }

  function WriteLe32(v: nat): (bs: seq<byte>)
    requires v < 0x1_0000_0000
    ensures |bs| == 4 && ReadLe32(bs) == v
  {
    var q := v / 0x100;
    var r := q / 0x100;
    [(v % 0x100) as byte, (q % 0x100) as byte, (r % 0x100) as byte, (r / 0x100) as byte]
  }

  /** The file's own copy of the map and of the slot count. */
  ghost predicate Stored(h: Header, l: Layer) {
    && h.mapOff + 4 * h.count <= |l.file| && |l.bmap| == h.count && BLOCKS_ALLOC_OFF + 4 <= |l.file|
    && (forall i | 0 <= i < h.count :: ReadLe32(l.file[h.mapOff + 4 * i..h.mapOff + 4 * i + 4]) == l.bmap[i])
    && ReadLe32(l.file[BLOCKS_ALLOC_OFF..BLOCKS_ALLOC_OFF + 4]) == l.used
  }

  // ---- one block gets a slot ----

  /** The four host writes of a materialisation: slack, block, map entry, slot count. */
  function Granted(h: Header, l: Layer, i: nat, block: seq<byte>): Layer
    requires i < |l.bmap| && l.used + 1 < 0x1_0000_0000
  {
    var at := h.SlotAt(l.used);
    var f1 := if h.extra != 0 then Put(l.file, at, seq(h.extra, _ => 0)) else l.file;
    var f2 := Put(f1, at + h.extra, block);
    var f3 := Put(f2, h.mapOff + 4 * i, WriteLe32(l.used));
    Layer(l.bmap[i := l.used], l.used + 1, Put(f3, BLOCKS_ALLOC_OFF, WriteLe32(l.used + 1)))
  }

  /** What the writes leave: the new block in its slot, older slots untouched. */
  lemma GrantedBytes(h: Header, l: Layer, i: nat, block: seq<byte>)
    requires LayerOk(h, l) && i < h.count && l.used < h.count && |block| == h.blockSize
    ensures var f := Granted(h, l, i, block).file; var at := h.SlotAt(l.used);
            && |f| >= |l.file| && at + h.extra + h.blockSize == h.SlotAt(l.used + 1) <= |f|
            && (forall k | 0 <= k < h.blockSize :: f[at + h.extra + k] == block[k])
            && forall k | h.dataOff <= k < at :: f[k] == l.file[k]
  {
    hide Header.SlotAt, Header.BlockAt, Put;
    h.SlotMonotone(l.used, l.used + 1);
    SlotNext(h, l.used);
    var at := h.SlotAt(l.used);
    forall k | 0 <= k < h.blockSize ensures Granted(h, l, i, block).file[at + h.extra + k] == block[k] {
      GrantedByte(h, l, i, block, at + h.extra + k);
    }
    forall k | h.dataOff <= k < at ensures Granted(h, l, i, block).file[k] == l.file[k] {
      GrantedByte(h, l, i, block, k);
    }
  }

  lemma GrantedByte(h: Header, l: Layer, i: nat, block: seq<byte>, k: nat)
    requires LayerOk(h, l) && i < h.count && l.used < h.count && |block| == h.blockSize
    requires h.dataOff <= k < h.SlotAt(l.used) || h.SlotAt(l.used) + h.extra <= k < h.SlotAt(l.used) + h.extra + h.blockSize
    ensures k < |Granted(h, l, i, block).file|
    ensures Granted(h, l, i, block).file[k] == if k < h.SlotAt(l.used) then l.file[k] else block[k - h.SlotAt(l.used) - h.extra]
  {
    hide Header.SlotAt, Header.BlockAt, Put;
    h.SlotMonotone(l.used, l.used);
    var at := h.SlotAt(l.used);
    var f1 := if h.extra != 0 then Put(l.file, at, seq(h.extra, _ => 0)) else l.file;
    var f2 := Put(f1, at + h.extra, block);
    var f3 := Put(f2, h.mapOff + 4 * i, WriteLe32(l.used));
    if h.extra != 0 && k < |f1| {
      PutAt(l.file, at, seq(h.extra, _ => 0), k);
    }
    PutAt(f1, at + h.extra, block, k);
    PutAt(f2, h.mapOff + 4 * i, WriteLe32(l.used), k);
    PutAt(f3, BLOCKS_ALLOC_OFF, WriteLe32(l.used + 1), k);
  }

  lemma SlotNext(h: Header, e: nat)
    ensures h.SlotAt(e + 1) == h.SlotAt(e) + h.extra + h.blockSize
  {
  }

  /** Giving a block a slot that holds its present bytes changes no guest byte. */
  lemma GrantedGuest(h: Header, l: Layer, below: Option<seq<byte>>, i: nat, block: seq<byte>)
    requires LayerOk(h, l) && i < h.count && !Slotted(l.bmap[i]) && l.used < h.count && |block| == h.blockSize
    requires forall k | 0 <= k < h.blockSize && h.BlockAt(i) + k < h.size :: block[k] == GuestByte(h, l, below, h.BlockAt(i) + k)
    ensures LayerOk(h, Granted(h, l, i, block))
    ensures Guest(h, Granted(h, l, i, block), below) == Guest(h, l, below)
  {
    hide Header.SlotAt, Header.BlockAt, Granted, Put;
    var l' := Granted(h, l, i, block);
    GrantedMap(h, l, i, block);
    GrantedBytes(h, l, i, block);
    forall p | 0 <= p < h.size ensures GuestByte(h, l', below, p) == GuestByte(h, l, below, p) {
      var b := h.BlockOf(p);
      var o := p - h.BlockAt(b);
      h.BlockMonotone(h.count, b);
      if b == i {
        assert l'.file[h.SlotAt(l.used) + h.extra + o] == block[o];
      } else if Slotted(l.bmap[b]) {
        h.SlotMonotone(l.bmap[b], l.used);
      }
    }
  }

  lemma GrantedMap(h: Header, l: Layer, i: nat, block: seq<byte>)
    requires LayerOk(h, l) && i < h.count && !Slotted(l.bmap[i]) && l.used < h.count && |block| == h.blockSize
    ensures var l' := Granted(h, l, i, block);
            && l'.bmap == l.bmap[i := l.used] && l'.used == l.used + 1
            && LayerOk(h, l') && Slotted(l.used)
  {
    hide Header.SlotAt, Header.BlockAt, Put;
    GrantedBytes(h, l, i, block);
  }

  /** Bytes written into a slot appear at their guest offset and nowhere else. */
  lemma SlotWritten(h: Header, l: Layer, below: Option<seq<byte>>, i: nat, o: nat, bs: seq<byte>)
    requires LayerOk(h, l) && i < h.count && Slotted(l.bmap[i]) && o + |bs| <= h.blockSize && h.BlockAt(i) + o + |bs| <= h.size
    ensures var l' := l.(file := Put(l.file, h.SlotAt(l.bmap[i]) + h.extra + o, bs));
            && LayerOk(h, l')
            && Guest(h, l', below) == Splice(Guest(h, l, below), h.BlockAt(i) + o, bs)
  {
    hide Header.SlotAt, Header.BlockAt, Put;
    var e := l.bmap[i];
    var at := h.SlotAt(e) + h.extra + o;
    var l' := l.(file := Put(l.file, at, bs));
    h.SlotMonotone(e, l.used);
    forall p | 0 <= p < h.size
      ensures GuestByte(h, l', below, p)
           == if h.BlockAt(i) + o <= p < h.BlockAt(i) + o + |bs| then bs[p - h.BlockAt(i) - o] else GuestByte(h, l, below, p)
    {
      WrittenGuestByte(h, l, below, i, o, bs, p);
    }
  }

  lemma WrittenGuestByte(h: Header, l: Layer, below: Option<seq<byte>>, i: nat, o: nat, bs: seq<byte>, p: nat)
    requires LayerOk(h, l) && i < h.count && Slotted(l.bmap[i]) && o + |bs| <= h.blockSize && p < h.size
    requires h.SlotAt(l.bmap[i]) + h.extra + h.blockSize <= |l.file|
    requires LayerOk(h, l.(file := Put(l.file, h.SlotAt(l.bmap[i]) + h.extra + o, bs)))
    ensures GuestByte(h, l.(file := Put(l.file, h.SlotAt(l.bmap[i]) + h.extra + o, bs)), below, p)
         == if h.BlockAt(i) + o <= p < h.BlockAt(i) + o + |bs| then bs[p - h.BlockAt(i) - o] else GuestByte(h, l, below, p)
  {
    hide Header.SlotAt, Header.BlockAt, Put;
    var e, b := l.bmap[i], h.BlockOf(p);
    var at := h.SlotAt(e) + h.extra + o;
    var f := Put(l.file, at, bs);
    h.BlockMonotone(h.count, b);
    h.BlockMonotone(i, b);
    h.BlockMonotone(b, i);
    if b == i {
      PutAt(l.file, at, bs, h.SlotAt(e) + h.extra + (p - h.BlockAt(b)));
    } else if Slotted(l.bmap[b]) {
      assert l.bmap[b] != e;
      h.SlotMonotone(l.bmap[b], e);
      h.SlotMonotone(e, l.bmap[b]);
      h.SlotMonotone(l.bmap[b], l.used);
      PutAt(l.file, at, bs, h.SlotAt(l.bmap[b]) + h.extra + (p - h.BlockAt(b)));
    }
  }

  // ---- the map on disk ----

  lemma PutSlice(f: seq<byte>, off: nat, bs: seq<byte>, a: nat, n: nat)
    requires a + n <= |f| && (a + n <= off || off + |bs| <= a)
    ensures Put(f, off, bs)[a..a + n] == f[a..a + n]
  {
    hide Put;
    forall k | a <= k < a + n ensures Put(f, off, bs)[k] == f[k] {
      PutAt(f, off, bs, k);
    }
  }

  lemma PutExact(f: seq<byte>, off: nat, bs: seq<byte>)
    ensures Put(f, off, bs)[off..off + |bs|] == bs
  {
    hide Put;
    forall k | off <= k < off + |bs| ensures Put(f, off, bs)[k] == bs[k - off] {
      PutAt(f, off, bs, k);
    }
  }

  /** Writes above the map leave the stored map alone. */
  lemma StoredAbove(h: Header, l: Layer, off: nat, bs: seq<byte>)
    requires h.Valid() && Stored(h, l) && off >= h.dataOff
    ensures Stored(h, l.(file := Put(l.file, off, bs)))
  {
    hide Put, ReadLe32;
    PutSlice(l.file, off, bs, BLOCKS_ALLOC_OFF, 4);
    forall j | 0 <= j < h.count ensures Put(l.file, off, bs)[h.mapOff + 4 * j..h.mapOff + 4 * j + 4] == l.file[h.mapOff + 4 * j..h.mapOff + 4 * j + 4] {
      PutSlice(l.file, off, bs, h.mapOff + 4 * j, 4);
    }
  }

  lemma StoredEntry(h: Header, l: Layer, i: nat, v: nat)
    requires h.Valid() && Stored(h, l) && i < h.count && v < 0x1_0000_0000
    ensures Stored(h, l.(bmap := l.bmap[i := v], file := Put(l.file, h.mapOff + 4 * i, WriteLe32(v))))
  {
    hide Put, ReadLe32, WriteLe32;
    var at := h.mapOff + 4 * i;
    var f := Put(l.file, at, WriteLe32(v));
    PutSlice(l.file, at, WriteLe32(v), BLOCKS_ALLOC_OFF, 4);
    PutExact(l.file, at, WriteLe32(v));
    forall j | 0 <= j < h.count && j != i ensures f[h.mapOff + 4 * j..h.mapOff + 4 * j + 4] == l.file[h.mapOff + 4 * j..h.mapOff + 4 * j + 4] {
      PutSlice(l.file, at, WriteLe32(v), h.mapOff + 4 * j, 4);
    }
  }

  lemma StoredCount(h: Header, l: Layer, v: nat)
    requires h.Valid() && Stored(h, l) && v < 0x1_0000_0000
    ensures Stored(h, l.(used := v, file := Put(l.file, BLOCKS_ALLOC_OFF, WriteLe32(v))))
  {
    hide Put, ReadLe32, WriteLe32;
    var f := Put(l.file, BLOCKS_ALLOC_OFF, WriteLe32(v));
    PutExact(l.file, BLOCKS_ALLOC_OFF, WriteLe32(v));
    forall j | 0 <= j < h.count ensures f[h.mapOff + 4 * j..h.mapOff + 4 * j + 4] == l.file[h.mapOff + 4 * j..h.mapOff + 4 * j + 4] {
      PutSlice(l.file, BLOCKS_ALLOC_OFF, WriteLe32(v), h.mapOff + 4 * j, 4);
    }
  }

  /** Materialisation keeps the file's map and count in step with memory. */
  lemma GrantedStored(h: Header, l: Layer, i: nat, block: seq<byte>)
    requires h.Valid() && Stored(h, l) && i < h.count && l.used < h.count
    ensures Stored(h, Granted(h, l, i, block))
  {
    hide Put, ReadLe32, WriteLe32, Stored, Header.SlotAt;
    h.SlotMonotone(l.used, l.used);
    MapSizeStored(h, l);
    var at := h.SlotAt(l.used);
    var l1 := if h.extra != 0 then l.(file := Put(l.file, at, seq(h.extra, _ => 0))) else l;
    StoredAbove(h, l, at, seq(h.extra, _ => 0));
    var l2 := l1.(file := Put(l1.file, at + h.extra, block));
    StoredAbove(h, l1, at + h.extra, block);
    var l3 := l2.(bmap := l2.bmap[i := l.used], file := Put(l2.file, h.mapOff + 4 * i, WriteLe32(l.used)));
    StoredEntry(h, l2, i, l.used);
    StoredCount(h, l3, l.used + 1);
  }

  lemma MapSizeStored(h: Header, l: Layer)
    requires Stored(h, l)
    ensures |l.bmap| == h.count
  {
  }

  // ---- counting slots ----

  ghost function SlotCount(es: seq<nat>): nat {
    if es == [] then 0 else SlotCount(es[1..]) + if Slotted(es[0]) then 1 else 0
  }

  /** The used slots are exactly those below the count. */
  ghost predicate Packed(l: Layer) {
    SlotCount(l.bmap) == l.used
  }

  lemma {:induction false} SlotCountUpdate(es: seq<nat>, i: nat, e: nat)
    requires i < |es| && !Slotted(es[i]) && Slotted(e)
    ensures SlotCount(es[i := e]) == SlotCount(es) + 1 && SlotCount(es) < |es|
  {
    SlotCountBound(es[1..]);
    if i == 0 {
      assert es[i := e][1..] == es[1..];
    } else {
      assert es[i := e][1..] == es[1..][i - 1 := e];
      SlotCountUpdate(es[1..], i - 1, e);
    }
  }

  lemma {:induction false} SlotCountBound(es: seq<nat>)
    ensures SlotCount(es) <= |es|
  {
    if es != [] {
      SlotCountBound(es[1..]);
    }
  }

  // ---- the backend ----

  class Backend {
    const vdi: bool
    const h: Header
    const parent: Backend?
    var layer: Layer
    ghost const rank: nat
    ghost const Repr: set<Backend>

    /** A raw image, or a map over a host file and at most one parent. */
    constructor (vdi: bool, h: Header, parent: Backend?, layer: Layer)
      requires vdi ==> LayerOk(h, layer)
      requires parent != null ==> vdi && parent.Valid()
      ensures Valid() && this.vdi == vdi && this.h == h && this.parent == parent && this.layer == layer
    {
      this.vdi, this.h, this.parent, this.layer := vdi, h, parent, layer;
      rank := if parent == null then 0 else parent.rank + 1;
      Repr := {this} + if parent == null then {} else parent.Repr;
    }

    ghost predicate Valid()
      reads this, Repr
      decreases rank
    {
      && this in Repr
      && (vdi ==> LayerOk(h, layer))
      && (parent != null ==>
            && vdi && parent in Repr && parent.Repr <= Repr && this !in parent.Repr && parent.rank < rank
            && parent.Valid())
    }

    ghost function Below(): Option<seq<byte>>
      reads this, Repr
      requires Valid()
      decreases rank, 0
    {
      if parent == null then None else Some(parent.Bytes())
    }

    /** What a reader sees: one flat byte array. */
    ghost function Bytes(): (d: seq<byte>)
      reads this, Repr
      requires Valid()
      ensures |d| == Size()
      decreases rank, 1
    {
      if vdi then Guest(h, layer, Below()) else layer.file
    }

    /** image_size. */
    function Size(): nat
      reads this
    {
      if vdi then h.size else |layer.file|
    }

    /** nextufs_vdi_backend_read, or a read of a raw file. */
    method Read(offset: nat, size: nat) returns (rc: Rc, buf: seq<byte>)
      requires Valid()
      ensures rc == if offset + size <= Size() then Ok else IoError
      ensures rc == Ok ==> buf == Bytes()[offset..offset + size]
      decreases rank
    {
      hide LayerOk, GuestByte, Header.BlockAt;
      if offset + size > Size() {
        return IoError, [];
      }
      if !vdi {
        return Ok, layer.file[offset..offset + size];
      }
      ghost var all := Bytes();
      buf := [];
      while |buf| < size
        invariant |buf| <= size && buf == all[offset..offset + |buf|]
        decreases size - |buf|
      {
        var at := offset + |buf|;
        var i := h.BlockOf(at);
        var o := at - h.BlockAt(i);
        var chunk := Min(h.blockSize - o, size - |buf|);
        var part := ReadChunk(i, o, chunk);
        assert all[offset..at] + all[at..at + chunk] == all[offset..at + chunk];
        buf := buf + part;
      }
      rc := Ok;
    }

    /** One round of the read loop: n bytes from offset o of block i. */
    method ReadChunk(i: nat, o: nat, n: nat) returns (part: seq<byte>)
      requires Valid() && vdi && 0 < n && o + n <= h.blockSize && h.BlockAt(i) + o + n <= h.size
      ensures part == Bytes()[h.BlockAt(i) + o..h.BlockAt(i) + o + n]
      decreases rank, 0
    {
      hide Header.SlotAt, Header.BlockAt, GuestByte;
      BlockInMap(h, layer, i, o);
      var e, at := layer.bmap[i], h.BlockAt(i) + o;
      if e == UNALLOCATED {
        if parent != null {
          if at >= parent.Size() {
            part := seq(n, _ => 0);
          } else {
            var got := Min(n, parent.Size() - at);
            var rc, buf := parent.Read(at, got);
            part := ZeroPadded(buf, n);
          }
        } else {
          part := seq(n, _ => 0);
        }
      } else if e == ZERO {
        part := seq(n, _ => 0);
      } else {
        SlotInFile(h, layer, i);
        var pos := h.SlotAt(e) + h.extra + o;
        part := layer.file[pos..pos + n];
      }
      ghost var all := Bytes();
      forall k | 0 <= k < n ensures part[k] == all[at + k] {
        GuestByteIs(h, layer, Below(), i, o + k);
      }
      SliceIs(all, at, part);
    }

    /** The block can be given a slot: one is left, and what a parent has to supply it has in full. */
    ghost predicate CanGrant(i: nat)
      reads this, Repr
      requires Valid() && vdi && i < |layer.bmap|
    {
      Slotted(layer.bmap[i]) ||
      (layer.used < h.count && (layer.bmap[i] == UNALLOCATED && parent != null ==> h.BlockAt(i) + h.blockSize <= parent.Size()))
    }

    /** nextufs_vdi_materialize_block: no guest byte changes, and no parent. */
    method Materialize(i: nat) returns (rc: Rc)
      requires Valid() && vdi && i < h.count
      modifies this`layer
      ensures Valid() && Bytes() == old(Bytes())
      ensures rc == Ok <==> old(CanGrant(i))
      ensures rc == NoSpace <==> !Slotted(old(layer.bmap)[i]) && old(layer.used) >= h.count
      ensures rc == Ok || rc == NoSpace || rc == IoError
      ensures rc == Ok ==> Slotted(layer.bmap[i]) && layer.bmap == old(layer.bmap)[i := layer.bmap[i]]
      ensures rc != Ok ==> layer == old(layer)
      ensures old(Packed(layer)) ==> Packed(layer)
      ensures old(Stored(h, layer)) ==> Stored(h, layer)
      ensures Below() == old(Below())
    {
      hide GuestByte, Guest, Header.SlotAt, Header.BlockAt, LayerOk, SlotCount, Granted, Stored;
      MapSize(h, layer);
      var e := layer.bmap[i];
      if e != UNALLOCATED && e != ZERO {
        assert layer.bmap == layer.bmap[i := e];
        return Ok;
      }
      if layer.used >= h.count {
        return NoSpace;
      }
      var block;
      rc, block := BlockToCopy(i);
      if rc == Ok {
        GrantedGuest(h, layer, Below(), i, block);
        GrantedMap(h, layer, i, block);
        SlotCountUpdate(layer.bmap, i, layer.used);
        HeaderOk(h, layer);
        if Stored(h, layer) {
          GrantedStored(h, layer, i, block);
        }
        layer := Granted(h, layer, i, block);
      }
    }

    /** nextufs_vdi_backend_write: on success the disk reads as before with the bytes spliced in, on
        failure with a prefix of them. With packed slots the only failures are writes past the end
        and blocks whose parent ends inside them. */
    method Write(offset: nat, bs: seq<byte>) returns (rc: Rc, ghost done: nat)
      requires Valid() && vdi
      modifies this`layer
      ensures Valid() && Below() == old(Below())
      ensures done <= |bs| && (rc == Ok ==> done == |bs|) && (done > 0 ==> offset + |bs| <= h.size)
      ensures Bytes() == if offset + |bs| <= h.size then Splice(old(Bytes()), offset, bs[..done]) else old(Bytes())
      ensures old(Packed(layer)) ==> Packed(layer)
      ensures old(Packed(layer)) ==>
        (rc == Ok <==> offset + |bs| <= h.size && forall i | 0 <= i < h.count && TouchedBy(h, i, offset, |bs|) :: old(Covered(i)))
      ensures (rc == Ok || rc == NoSpace || rc == IoError) && (rc == NoSpace ==> !old(Packed(layer)))
      ensures old(Stored(h, layer)) ==> Stored(h, layer)
    {
      hide GuestByte, Guest, Header.SlotAt, Header.BlockAt, LayerOk, SlotCount, Splice, Stored;
      done := 0;
      MapSize(h, layer);
      if offset + |bs| > h.size {
        return IoError, 0;
      }
      ghost var was, old_ := Bytes(), layer;
      SpliceNothing(was, offset, bs);
      var k := 0;
      while k < |bs|
        invariant Valid() && Below() == old(Below()) && |layer.bmap| == h.count
        invariant k <= |bs| && Bytes() == Splice(was, offset, bs[..k])
        invariant 0 < k < |bs| ==> h.BlockAt(h.BlockOf(offset + k)) == offset + k
        invariant Packed(old_) ==> Packed(layer)
        invariant Stored(h, old_) ==> Stored(h, layer)
        invariant k < |bs| ==> forall j | h.BlockOf(offset + k) <= j < h.count :: layer.bmap[j] == old_.bmap[j]
        invariant forall j | 0 <= j < h.count && TouchedBy(h, j, offset, k) :: old(Covered(j))
        decreases |bs| - k
      {
        var at := offset + k;
        var i := h.BlockOf(at);
        BlockInMap(h, layer, i, at - h.BlockAt(i));
        PackedRoom(h, layer, i);
        ghost var before := layer;
        rc := Materialize(i);
        if rc != Ok {
          TouchedHere(h, i, offset, k, |bs|);
          done := k;
          return;
        }
        var o := at - h.BlockAt(i);
        var n := Min(h.blockSize - o, |bs| - k);
        WriteChunk(i, o, bs[k..k + n]);
        SpliceMore(was, offset, bs, k, n);
        NextRound(h, i, offset, k, n, |bs|);
        k := k + n;
      }
      rc, done := Ok, k;
      assert bs[..k] == bs;
    }

    /** One round of the write loop: bytes into the slot of block i. */
    method WriteChunk(i: nat, o: nat, w: seq<byte>)
      requires Valid() && vdi && i < h.count == |layer.bmap| && Slotted(layer.bmap[i])
      requires o + |w| <= h.blockSize && h.BlockAt(i) + o + |w| <= h.size
      modifies this`layer
      ensures Valid() && Below() == old(Below())
      ensures Bytes() == Splice(old(Bytes()), h.BlockAt(i) + o, w)
      ensures layer == old(layer).(file := layer.file)
      ensures old(Stored(h, layer)) ==> Stored(h, layer)
    {
      hide GuestByte, Guest, Header.SlotAt, Header.BlockAt, LayerOk, Splice, Stored, Put;
      SlotWritten(h, layer, Below(), i, o, w);
      if Stored(h, layer) {
        HeaderOk(h, layer);
        h.SlotMonotone(layer.bmap[i], layer.bmap[i]);
        StoredAbove(h, layer, h.SlotAt(layer.bmap[i]) + h.extra + o, w);
      }
      layer := layer.(file := Put(layer.file, h.SlotAt(layer.bmap[i]) + h.extra + o, w));
    }

    /** A block the parent can supply in full, if it has to. */
    ghost predicate Covered(i: nat)
      reads this, Repr
      requires Valid() && vdi && i < |layer.bmap|
    {
      layer.bmap[i] == UNALLOCATED && parent != null ==> h.BlockAt(i) + h.blockSize <= parent.Size()
    }

    /** The present contents of a block without a slot. */
    method BlockToCopy(i: nat) returns (rc: Rc, block: seq<byte>)
      requires Valid() && vdi && i < h.count && |layer.bmap| == h.count && !Slotted(layer.bmap[i])
      ensures rc == if layer.bmap[i] == UNALLOCATED && parent != null && h.BlockAt(i) + h.blockSize > parent.Size() then IoError else Ok
      ensures rc == Ok ==> |block| == h.blockSize
      ensures rc == Ok ==> forall k | 0 <= k < h.blockSize && h.BlockAt(i) + k < h.size ::
                block[k] == GuestByte(h, layer, Below(), h.BlockAt(i) + k)
    {
      hide GuestByte, Guest, Header.SlotAt, Header.BlockAt, LayerOk;
      if layer.bmap[i] == UNALLOCATED && parent != null {
        rc, block := parent.Read(h.BlockAt(i), h.blockSize);
        if rc != Ok {
          return;
        }
      } else {
        rc, block := Ok, seq(h.blockSize, _ => 0);
      }
      BlockIsGuest(h, layer, Below(), i, block);
    }
  }

  lemma HeaderOk(h: Header, l: Layer)
    requires LayerOk(h, l)
    ensures h.Valid()
  {
  }

  lemma MapSize(h: Header, l: Layer)
    requires LayerOk(h, l)
    ensures |l.bmap| == h.count <= ZERO
  {
  }

  /** What materialisation copies is what the guest sees of the block. */
  lemma BlockIsGuest(h: Header, l: Layer, below: Option<seq<byte>>, i: nat, block: seq<byte>)
    requires LayerOk(h, l) && i < h.count && !Slotted(l.bmap[i]) && |block| == h.blockSize
    requires if l.bmap[i] == UNALLOCATED && below.Some? then
               h.BlockAt(i) + h.blockSize <= |below.value| && block == below.value[h.BlockAt(i)..h.BlockAt(i) + h.blockSize]
             else block == seq(h.blockSize, _ => 0)
    ensures forall k | 0 <= k < h.blockSize && h.BlockAt(i) + k < h.size :: block[k] == GuestByte(h, l, below, h.BlockAt(i) + k)
  {
    hide Header.SlotAt, Header.BlockAt, GuestByte;
    forall k | 0 <= k < h.blockSize && h.BlockAt(i) + k < h.size
      ensures block[k] == GuestByte(h, l, below, h.BlockAt(i) + k)
    {
      GuestByteIs(h, l, below, i, k);
      assert Guest(h, l, below)[h.BlockAt(i) + k] == GuestByte(h, l, below, h.BlockAt(i) + k);
    }
  }

  lemma SliceIs(d: seq<byte>, at: nat, part: seq<byte>)
    requires at + |part| <= |d| && forall k | 0 <= k < |part| :: part[k] == d[at + k]
    ensures part == d[at..at + |part|]
  {
  }

  lemma BlockInMap(h: Header, l: Layer, i: nat, o: nat)
    requires LayerOk(h, l) && h.BlockAt(i) + o < h.size
    ensures i < h.count == |l.bmap|
  {
    h.BlockMonotone(h.count, i);
  }

  lemma SlotInFile(h: Header, l: Layer, i: nat)
    requires LayerOk(h, l) && i < h.count && Slotted(l.bmap[i])
    ensures h.SlotAt(l.bmap[i]) + h.extra + h.blockSize <= |l.file|
  {
    h.SlotMonotone(l.bmap[i], l.used);
  }

  /** A guest byte by block and offset. */
  lemma GuestByteIs(h: Header, l: Layer, below: Option<seq<byte>>, i: nat, o: nat)
    requires LayerOk(h, l) && i < h.count && o < h.blockSize && h.BlockAt(i) + o < h.size
    ensures var p := h.BlockAt(i) + o;
            Guest(h, l, below)[p] ==
            if l.bmap[i] == ZERO then 0
            else if l.bmap[i] == UNALLOCATED then (if below.Some? && p < |below.value| then below.value[p] else 0)
            else if h.SlotAt(l.bmap[i]) + h.extra + o < |l.file| then l.file[h.SlotAt(l.bmap[i]) + h.extra + o] else 0
  {
    hide Header.SlotAt, Header.BlockAt;
    h.BlockUnique(h.BlockAt(i) + o, i);
  }

  predicate TouchedBy(h: Header, i: nat, offset: nat, n: nat) {
    0 < n && h.BlockAt(i) < offset + n && offset < h.BlockAt(i) + h.blockSize
  }

  lemma SpliceNothing(d: seq<byte>, offset: nat, bs: seq<byte>)
    requires offset <= |d|
    ensures Splice(d, offset, bs[..0]) == d
  {
  }

  lemma SpliceMore(d: seq<byte>, offset: nat, bs: seq<byte>, done: nat, n: nat)
    requires done + n <= |bs| && offset + |bs| <= |d|
    ensures Splice(Splice(d, offset, bs[..done]), offset + done, bs[done..done + n]) == Splice(d, offset, bs[..done + n])
  {
    var x := Splice(d, offset, bs[..done]);
    assert bs[..done + n] == bs[..done] + bs[done..done + n];
    assert x[..offset + done] == d[..offset] + bs[..done];
    assert x[offset + done + n..] == d[offset + done + n..];
  }

  /** With packed slots a block without one means a slot is left. */
  lemma PackedRoom(h: Header, l: Layer, i: nat)
    requires |l.bmap| == h.count && i < h.count
    ensures Packed(l) && !Slotted(l.bmap[i]) ==> l.used < h.count
  {
    if !Slotted(l.bmap[i]) {
      SlotCountUpdate(l.bmap, i, 0);
    }
  }

  lemma TouchedHere(h: Header, i: nat, offset: nat, done: nat, n: nat)
    requires i == h.BlockOf(offset + done) && done < n
    ensures TouchedBy(h, i, offset, n)
  {
  }

  /** A round ends at the end of its block or of the write. */
  lemma NextRound(h: Header, i: nat, offset: nat, done: nat, n: nat, total: nat)
    requires i == h.BlockOf(offset + done) && done < total
    requires n == Min(h.blockSize - (offset + done - h.BlockAt(i)), total - done)
    ensures done + n < total ==> h.BlockOf(offset + done + n) == i + 1 && h.BlockAt(i + 1) == offset + done + n
    ensures forall j: nat :: TouchedBy(h, j, offset, done + n) ==> j == i || TouchedBy(h, j, offset, done)
  {
    hide Header.BlockAt, Header.BlockOf;
    h.BlockNext(i);
    if done + n < total {
      h.BlockUnique(offset + done + n, i + 1);
    }
    forall j: nat | TouchedBy(h, j, offset, done + n) && j != i ensures TouchedBy(h, j, offset, done) {
      h.BlockMonotone(j, i);
      h.BlockMonotone(i + 1, j);
    }
  }

  /** nextufs_init_backend's part for the map: entry by entry out of the file, and the slot count. */
  method Open(h: Header, file: seq<byte>) returns (r: Option<Layer>)
    requires BLOCKS_ALLOC_OFF + 4 <= h.mapOff
    ensures r.None? <==> |file| < h.mapOff + 4 * h.count
    ensures r.Some? ==> r.value.file == file && Stored(h, r.value)
  {
    hide ReadLe32;
    if |file| < h.mapOff + 4 * h.count {
      return None;
    }
    var bmap := [];
    for i := 0 to h.count
      invariant |bmap| == i
      invariant forall j | 0 <= j < i :: ReadLe32(file[h.mapOff + 4 * j..h.mapOff + 4 * j + 4]) == bmap[j]
    {
      bmap := bmap + [ReadLe32(file[h.mapOff + 4 * i..h.mapOff + 4 * i + 4])];
    }
    return Some(Layer(bmap, ReadLe32(file[BLOCKS_ALLOC_OFF..BLOCKS_ALLOC_OFF + 4]), file));
  }

  /** What Open returns for a file that writes kept in step is the layer they left: the same map, and
      so the same disk. */
  lemma Reopened(h: Header, l: Layer, again: Layer, below: Option<seq<byte>>)
    requires LayerOk(h, l) && Stored(h, l) && Stored(h, again) && again.file == l.file
    ensures again == l && LayerOk(h, again) && Guest(h, again, below) == Guest(h, l, below)
  {
    assert again.bmap == l.bmap;
  }
}
