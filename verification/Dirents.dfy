/** Directory records: variable-length records that tile 1024-byte directory blocks. */
module Dirents {
  import opened Image
  import opened Indirect

  const DIRBLKSIZ: nat := 1024
  const MAX_NAME: nat := 255
  const DOT: seq<byte> := [46]
  const DOTDOT: seq<byte> := [46, 46]

  datatype Dirent = Dirent(ino: nat, reclen: nat, name: seq<byte>)
  {
    /** The name lies inside the record; an entry in use has one, padded to a word. */
    predicate Fits() {
      8 + |name| <= reclen && (ino != 0 ==> name != [] && DirentSize(|name|) <= reclen)
    }
  }

  datatype Entry = Entry(name: seq<byte>, ino: nat)

  function ReadBe16(bs: seq<byte>): (v: nat)
    requires |bs| == 2
    ensures v < 0x1_0000
  {
    bs[0] as int * 0x100 + bs[1] as int
  }

  function WriteBe16(v: nat): (bs: seq<byte>)
    requires v < 0x1_0000
    ensures |bs| == 2 && ReadBe16(bs) == v
  {
    [(v / 0x100) as byte, (v % 0x100) as byte]
  }

  /** nextufs__dirent_size: eight header bytes and the name with its terminator, to a word. */
  function DirentSize(n: nat): (r: nat)
    ensures r >= 8 + n + 1
  {
    8 + (n + 4) / 4 * 4
  }

  /** nextufs__read_dirent. */
  function ReadDirent(buf: seq<byte>, off: nat): (r: Option<Dirent>)
    ensures r.Some? ==> off + r.value.reclen <= |buf| && 8 <= r.value.reclen < 0x1_0000
  {
    if off + 8 > |buf| then None else
    var reclen, namlen := ReadBe16(buf[off + 4..off + 6]), ReadBe16(buf[off + 6..off + 8]);
    if reclen < 8 || off + reclen > |buf| || off + 8 + namlen > |buf| then None
    else Some(Dirent(ReadBe32(buf[off..off + 4]), reclen, buf[off + 8..off + 8 + namlen]))
  }

  /** The record at the start of a buffer. */
  function Head(buf: seq<byte>): (r: Option<Dirent>)
    ensures r.Some? ==> 8 <= r.value.reclen <= |buf| && r.value.reclen < 0x1_0000
  {
    ReadDirent(buf, 0)
  }

  /** nextufs__write_dirent_raw: a zeroed record of reclen bytes with its header and name. */
  function DirentRaw(r: Dirent): (bs: seq<byte>)
    requires r.Fits() && r.ino < 0x1_0000_0000 && r.reclen < 0x1_0000
    ensures |bs| == r.reclen
  {
    WriteBe32(r.ino) + WriteBe16(r.reclen) + WriteBe16(|r.name|) + ZeroPadded(r.name, r.reclen - 8)
  }

  // ---- tilings ----

  /** Records follow one another without a gap from the first byte to the last. */
  ghost predicate Tiled(buf: seq<byte>)
    decreases |buf|
  {
    buf == [] || (Head(buf).Some? && Head(buf).value.Fits() && Tiled(buf[Head(buf).value.reclen..]))
  }

  /** The records a scan sees; it stops at the first malformed one. */
  ghost function Records(buf: seq<byte>): seq<Dirent>
    decreases |buf|
  {
    match Head(buf)
    case None => []
    case Some(r) => [r] + Records(buf[r.reclen..])
  }

  /** The names and inodes a directory lists: records not in use are skipped. */
  ghost function List(rs: seq<Dirent>): seq<Entry> {
    if rs == [] then []
    else (if rs[0].ino != 0 && rs[0].name != [] then [Entry(rs[0].name, rs[0].ino)] else []) + List(rs[1..])
  }

  ghost function Listing(buf: seq<byte>): seq<Entry> {
    List(Records(buf))
  }

  /** Each block of 1024 bytes is tiled: no record crosses a block boundary. */
  ghost predicate DirTiled(f: seq<byte>)
    decreases |f|
  {
    f == [] || (|f| >= DIRBLKSIZ && Tiled(f[..DIRBLKSIZ]) && DirTiled(f[DIRBLKSIZ..]))
  }

  lemma {:induction false} ListConcat(a: seq<Dirent>, b: seq<Dirent>)
    ensures List(a + b) == List(a) + List(b)
  {
    if a == [] {
      assert a + b == b;
    } else {
      assert (a + b)[1..] == a[1..] + b;
      ListConcat(a[1..], b);
    }
  }

  /** A read depends only on the bytes from its offset on. */
  lemma ReadShifted(buf: seq<byte>, off: nat)
    requires off <= |buf|
    ensures ReadDirent(buf, off) == Head(buf[off..])
  {
    var t := buf[off..];
    if off + 8 <= |buf| {
      assert t[4..6] == buf[off + 4..off + 6] && t[6..8] == buf[off + 6..off + 8] && t[0..4] == buf[off..off + 4];
      var namlen := ReadBe16(t[6..8]);
      assert off + 8 + namlen <= |buf| ==> t[8..8 + namlen] == buf[off + 8..off + 8 + namlen];
    }
  }

  /** A record that fits in its own bytes reads the same whatever follows it. */
  lemma HeadLocal(a: seq<byte>, b: seq<byte>)
    ensures Head(a).Some? && Head(a).value.Fits() ==> Head(a + b) == Head(a)
    ensures Head(a + b).Some? && Head(a + b).value.Fits() && Head(a + b).value.reclen <= |a| ==> Head(a) == Head(a + b)
  {
    var c := a + b;
    if |a| >= 8 {
      assert c[4..6] == a[4..6] && c[6..8] == a[6..8] && c[0..4] == a[0..4];
      var namlen := ReadBe16(a[6..8]);
      assert 8 + namlen <= |a| ==> c[8..8 + namlen] == a[8..8 + namlen];
    }
  }

  lemma {:induction false} TiledConcat(a: seq<byte>, b: seq<byte>)
    requires Tiled(a)
    ensures Tiled(a + b) <==> Tiled(b)
    ensures Records(a + b) == Records(a) + Records(b)
    decreases |a|
  {
    hide ReadDirent;
    if a == [] {
      assert a + b == b;
      EmptyRecords(a);
    } else {
      HeadLocal(a, b);
      var n := Head(a).value.reclen;
      assert (a + b)[n..] == a[n..] + b;
      TiledConcat(a[n..], b);
    }
  }

  lemma EmptyRecords(a: seq<byte>)
    requires a == []
    ensures Records(a) == [] && Tiled(a)
  {
  }

  /** One record by itself. */
  lemma OneRecord(one: seq<byte>)
    requires Head(one).Some? && Head(one).value.Fits() && Head(one).value.reclen == |one|
    ensures Tiled(one) && Records(one) == [Head(one).value]
  {
    EmptyRecords(one[|one|..]);
  }

  /** A tiled buffer is its first record followed by a tiled rest. */
  lemma SplitHead(buf: seq<byte>)
    requires Tiled(buf) && buf != []
    ensures var r := Head(buf).value;
            && Tiled(buf[..r.reclen]) && Records(buf[..r.reclen]) == [r] && Tiled(buf[r.reclen..])
            && Head(buf[..r.reclen]) == Some(r)
            && Records(buf) == [r] + Records(buf[r.reclen..])
  {
    hide ReadDirent;
    var n := Head(buf).value.reclen;
    assert buf == buf[..n] + buf[n..];
    HeadLocal(buf[..n], buf[n..]);
    OneRecord(buf[..n]);
  }

  lemma {:induction false} DirTiledConcat(a: seq<byte>, b: seq<byte>)
    requires DirTiled(a)
    ensures DirTiled(a + b) <==> DirTiled(b)
    decreases |a|
  {
    hide Tiled;
    if a == [] {
      assert a + b == b;
    } else {
      assert (a + b)[..DIRBLKSIZ] == a[..DIRBLKSIZ] && (a + b)[DIRBLKSIZ..] == a[DIRBLKSIZ..] + b;
      DirTiledConcat(a[DIRBLKSIZ..], b);
    }
  }

  lemma {:induction false} DirTiledTiled(f: seq<byte>)
    requires DirTiled(f)
    ensures Tiled(f)
    decreases |f|
  {
    if f != [] {
      DirTiledTiled(f[DIRBLKSIZ..]);
      TiledConcat(f[..DIRBLKSIZ], f[DIRBLKSIZ..]);
      assert f == f[..DIRBLKSIZ] + f[DIRBLKSIZ..];
    }
  }

  lemma OneDirblk(b: seq<byte>)
    requires Tiled(b) && |b| == DIRBLKSIZ
    ensures DirTiled(b)
  {
    assert b[..DIRBLKSIZ] == b;
    assert DirTiled(b[DIRBLKSIZ..]);
  }

  // ---- records in good form ----

  /** A record is word-aligned and has room for its name and a NUL; in use, the NUL is there. */
  ghost predicate InForm(one: seq<byte>, r: Dirent) {
    && r.reclen % 4 == 0 && |r.name| <= MAX_NAME && DirentSize(|r.name|) <= r.reclen <= |one|
    && (r.ino != 0 ==> one[8 + |r.name|] == 0)
  }

  /** All records of a buffer are. */
  ghost predicate Kempt(buf: seq<byte>)
    decreases |buf|
  {
    buf == [] || (Head(buf).Some? && InForm(buf, Head(buf).value) && Kempt(buf[Head(buf).value.reclen..]))
  }

  /** What was in good form stays so. */
  ghost predicate KeepsForm(was: seq<byte>, now: seq<byte>) {
    Kempt(was) ==> Kempt(now)
  }

  lemma {:induction false} KemptConcat(a: seq<byte>, b: seq<byte>)
    requires Tiled(a)
    ensures Kempt(a + b) <==> Kempt(a) && Kempt(b)
    decreases |a|
  {
    hide ReadDirent;
    if a == [] {
      assert a + b == b;
    } else {
      HeadLocal(a, b);
      var r := Head(a).value;
      assert InForm(a + b, r) <==> InForm(a, r);
      assert (a + b)[r.reclen..] == a[r.reclen..] + b;
      KemptConcat(a[r.reclen..], b);
    }
  }

  lemma KemptEmpty()
    ensures Kempt([])
  {
  }

  lemma KemptAround(x: seq<byte>, m: seq<byte>, y: seq<byte>)
    requires Tiled(x) && Tiled(m)
    ensures Kempt(x + m + y) <==> Kempt(x) && Kempt(m) && Kempt(y)
  {
    hide Kempt, Tiled, Records;
    TiledConcat(x, m);
    KemptConcat(x, m);
    KemptConcat(x + m, y);
  }

  /** A record by itself. */
  lemma KemptRecord(one: seq<byte>)
    requires Head(one).Some? && Head(one).value.reclen == |one|
    ensures Kempt(one) <==> InForm(one, Head(one).value)
  {
    hide ReadDirent;
    assert one[|one|..] == [];
  }

  // ---- records written and patched ----

  lemma KemptRaw(r: Dirent)
    requires r.Fits() && r.ino < 0x1_0000_0000 && r.reclen < 0x1_0000
    requires r.reclen % 4 == 0 && |r.name| <= MAX_NAME && DirentSize(|r.name|) <= r.reclen
    ensures Kempt(DirentRaw(r))
  {
    hide Kempt, Tiled, Records;
    RawRecord(r);
    RawHead(r);
    KemptRecord(DirentRaw(r));
  }

  lemma RawHead(r: Dirent)
    requires r.Fits() && r.ino < 0x1_0000_0000 && r.reclen < 0x1_0000
    ensures Head(DirentRaw(r)) == Some(r)
    ensures 8 + |r.name| < r.reclen ==> DirentRaw(r)[8 + |r.name|] == 0
  {
    var bs := DirentRaw(r);
    assert bs[0..4] == WriteBe32(r.ino) && bs[4..6] == WriteBe16(r.reclen) && bs[6..8] == WriteBe16(|r.name|);
    assert bs[8..8 + |r.name|] == ZeroPadded(r.name, r.reclen - 8)[..|r.name|] == r.name;
  }

  lemma RawRecord(r: Dirent)
    requires r.Fits() && r.ino < 0x1_0000_0000 && r.reclen < 0x1_0000
    ensures Tiled(DirentRaw(r)) && Records(DirentRaw(r)) == [r]
  {
    var bs := DirentRaw(r);
    assert bs[0..4] == WriteBe32(r.ino) && bs[4..6] == WriteBe16(r.reclen) && bs[6..8] == WriteBe16(|r.name|);
    assert bs[8..8 + |r.name|] == ZeroPadded(r.name, r.reclen - 8)[..|r.name|] == r.name;
    OneRecord(bs);
  }

  /** A record whose length field is rewritten, cut or extended to the new length. */
  lemma Resized(one: seq<byte>, two: seq<byte>, n: nat)
    requires Head(one).Some? && Head(one).value.Fits() && |two| == n < 0x1_0000
    requires Head(one).value.(reclen := n).Fits()
    requires var k := 8 + |Head(one).value.name|;
             two[..4] == one[..4] && two[4..6] == WriteBe16(n) && two[6..k] == one[6..k]
    ensures Tiled(two) && Records(two) == [Head(one).value.(reclen := n)]
  {
    var k := 8 + |Head(one).value.name|;
    assert two[0..4] == one[0..4];
    assert two[6..8] == two[6..k][..2] == one[6..k][..2] == one[6..8];
    assert two[8..k] == two[6..k][2..] == one[6..k][2..] == one[8..k];
    OneRecord(two);
  }

  lemma PartsSame(one: seq<byte>, two: seq<byte>, a: nat, b: nat, i: nat, j: nat)
    requires a <= i <= j <= b <= |one| && b <= |two| && two[a..b] == one[a..b]
    ensures two[i..j] == one[i..j]
  {
    forall k | 0 <= k < j - i ensures two[i..j][k] == one[i..j][k] {
      assert two[a..b][i - a + k] == one[a..b][i - a + k];
    }
  }

  lemma KemptResized(one: seq<byte>, two: seq<byte>, n: nat)
    requires Head(one).Some? && Head(one).value.Fits() && |two| == n < 0x1_0000 && InForm(one, Head(one).value)
    requires n % 4 == 0 && DirentSize(|Head(one).value.name|) <= n
    requires var k := 9 + |Head(one).value.name|;
             two[..4] == one[..4] && two[4..6] == WriteBe16(n) && two[6..k] == one[6..k]
    ensures Kempt(two)
  {
    hide Kempt, Tiled, Records;
    var k := 9 + |Head(one).value.name|;
    assert two[0..4] == one[0..4];
    PartsSame(one, two, 6, k, 6, 8);
    PartsSame(one, two, 6, k, 8, k - 1);
    PartsSame(one, two, 6, k, k - 1, k);
    assert one[k - 1..k][0] == two[k - 1..k][0];
    assert Head(two) == Some(Head(one).value.(reclen := n));
    KemptRecord(two);
  }

  lemma KemptRenumbered(one: seq<byte>, two: seq<byte>, v: nat)
    requires Head(one).Some? && |two| == |one| == Head(one).value.reclen && InForm(one, Head(one).value)
    requires v < 0x1_0000_0000 && two[..4] == WriteBe32(v) && two[4..] == one[4..] && (Head(one).value.ino != 0 || v == 0)
    ensures Kempt(two)
  {
    hide Kempt, Tiled, Records;
    var k := 8 + |Head(one).value.name|;
    assert two[0..4] == WriteBe32(v);
    assert forall j | 4 <= j < |one| :: two[j] == two[4..][j - 4] == one[j];
    assert two[4..6] == one[4..6];
    assert two[6..8] == one[6..8];
    assert two[8..k] == one[8..k];
    assert Head(two) == Some(Head(one).value.(ino := v));
    KemptRecord(two);
  }

  /** A record whose inode number is rewritten. */
  lemma Renumbered(one: seq<byte>, two: seq<byte>, v: nat)
    requires Head(one).Some? && Head(one).value.Fits() && |two| == |one| == Head(one).value.reclen
    requires v < 0x1_0000_0000 && two[..4] == WriteBe32(v) && two[4..] == one[4..] && Head(one).value.(ino := v).Fits()
    ensures Tiled(two) && Records(two) == [Head(one).value.(ino := v)]
  {
    var k := 8 + |Head(one).value.name|;
    assert two[0..4] == WriteBe32(v);
    assert forall j | 4 <= j < |one| :: two[j] == two[4..][j - 4] == one[j];
    assert two[4..6] == one[4..6];
    assert two[6..8] == one[6..8];
    assert two[8..k] == one[8..k];
    OneRecord(two);
  }

  // ---- a scan's position ----

  /** Where a scan of a directory stands: whole blocks done, then the records of the current block
      before and after the position, then the blocks to come. */
  datatype Scan = Scan(done: seq<byte>, pre: seq<byte>, rest: seq<byte>, tail: seq<byte>)
  {
    function Buf(): seq<byte> { done + (pre + rest) + tail }

    function Off(): nat { |done| + |pre| }

    ghost predicate Valid() {
      && DirTiled(done) && Tiled(pre) && Tiled(rest) && DirTiled(tail)
      && if rest == [] then pre == [] && tail == [] else |pre| + |rest| == DIRBLKSIZ
    }

    ghost function Seen(): seq<Dirent> { Records(done) + Records(pre) }
  }

  /** A block of the directory rebuilt from tiled parts. */
  lemma Rebuilt(done: seq<byte>, pre: seq<byte>, mid: seq<byte>, post: seq<byte>, tail: seq<byte>)
    requires DirTiled(done) && Tiled(pre) && Tiled(mid) && Tiled(post) && DirTiled(tail)
    requires |pre| + |mid| + |post| == DIRBLKSIZ
    ensures DirTiled(done + (pre + (mid + post)) + tail)
    ensures Records(done + (pre + (mid + post)) + tail)
         == Records(done) + Records(pre) + Records(mid) + (Records(post) + Records(tail))
  {
    hide Tiled, Records, DirTiled;
    TiledConcat(mid, post);
    TiledConcat(pre, mid + post);
    OneDirblk(pre + (mid + post));
    DirTiledConcat(done, pre + (mid + post));
    DirTiledConcat(done + (pre + (mid + post)), tail);
    DirTiledTiled(done + (pre + (mid + post)));
    TiledConcat(done + (pre + (mid + post)), tail);
    DirTiledTiled(done);
    TiledConcat(done, pre + (mid + post));
  }

  function Begin(buf: seq<byte>): (s: Scan)
    requires |buf| == 0 || |buf| >= DIRBLKSIZ
    ensures s.Buf() == buf && s.Off() == 0
  {
    if buf == [] then Scan([], [], [], []) else Scan([], [], buf[..DIRBLKSIZ], buf[DIRBLKSIZ..])
  }

  /** Past the record at the position. */
  function Next(s: Scan, n: nat): Scan
    requires n <= |s.rest|
  {
    if n < |s.rest| then Scan(s.done, s.pre + s.rest[..n], s.rest[n..], s.tail)
    else if |s.tail| < DIRBLKSIZ then Scan(s.done + (s.pre + s.rest), [], [], s.tail)
    else Scan(s.done + (s.pre + s.rest), [], s.tail[..DIRBLKSIZ], s.tail[DIRBLKSIZ..])
  }

  lemma NextScan(s: Scan, n: nat)
    requires s.Valid() && s.rest != [] && n == Head(s.rest).value.reclen
    ensures Next(s, n).Valid() && Next(s, n).Buf() == s.Buf() && Next(s, n).Off() == s.Off() + n
    ensures Next(s, n).Seen() == s.Seen() + [Head(s.rest).value]
  {
    hide ReadDirent, Tiled, Records, DirTiled;
    ScanHead(s);
    SplitHead(s.rest);
    TiledConcat(s.pre, s.rest[..n]);
    EmptyRecords([]);
    if n == |s.rest| {
      assert s.rest[..n] == s.rest;
      TiledConcat(s.pre, s.rest);
      OneDirblk(s.pre + s.rest);
      DirTiledConcat(s.done, s.pre + s.rest);
      DirTiledTiled(s.done);
      TiledConcat(s.done, s.pre + s.rest);
      SplitDir(s.tail);
    } else {
      assert s.pre + s.rest[..n] + s.rest[n..] == s.pre + s.rest;
    }
  }

  lemma {:induction false} SplitDir(f: seq<byte>)
    requires DirTiled(f)
    ensures f == [] || (|f| >= DIRBLKSIZ && Tiled(f[..DIRBLKSIZ]) && DirTiled(f[DIRBLKSIZ..]))
    ensures DirTiled([]) && |f| % DIRBLKSIZ == 0
    decreases |f|
  {
    hide Tiled;
    if f != [] {
      SplitDir(f[DIRBLKSIZ..]);
    }
  }

  lemma BeginScan(buf: seq<byte>)
    requires DirTiled(buf)
    ensures (buf == [] || |buf| >= DIRBLKSIZ) && Begin(buf).Valid() && Begin(buf).Seen() == []
  {
    hide ReadDirent;
    SplitDir(buf);
    EmptyRecords([]);
  }

  /** What a read at the position sees. */
  lemma ScanHead(s: Scan)
    requires s.Valid()
    ensures s.Off() < |s.Buf()| <==> s.rest != []
    ensures s.rest != [] ==> ReadDirent(s.Buf(), s.Off()) == Head(s.rest) && Head(s.rest).Some? && Head(s.rest).value.Fits()
  {
    hide ReadDirent;
    if s.rest != [] {
      ReadShifted(s.Buf(), s.Off());
      assert s.Buf()[s.Off()..] == s.rest + s.tail;
      HeadLocal(s.rest, s.tail);
    }
  }

  lemma SeenAll(s: Scan)
    requires s.Valid() && s.rest == []
    ensures Records(s.Buf()) == s.Seen()
  {
    hide Tiled, Records, DirTiled;
    EmptyRecords([]);
    assert s.Buf() == s.done;
  }

  /** The record at the position and what follows it. */
  lemma SeenRest(s: Scan)
    requires s.Valid() && s.rest != []
    ensures var n := Head(s.rest).value.reclen;
            && s.Buf() == s.done + (s.pre + (s.rest[..n] + s.rest[n..])) + s.tail
            && Records(s.Buf()) == s.Seen() + [Head(s.rest).value] + (Records(s.rest[n..]) + Records(s.tail))
            && Head(s.rest).value in Records(s.Buf())
  {
    hide ReadDirent, Tiled, Records, DirTiled;
    ScanHead(s);
    SplitHead(s.rest);
    var n := Head(s.rest).value.reclen;
    assert s.rest[..n] + s.rest[n..] == s.rest;
    Rebuilt(s.done, s.pre, s.rest[..n], s.rest[n..], s.tail);
  }

  /** The directory after the record at the position was replaced by other records. */
  lemma RecordReplaced(s: Scan, two: seq<byte>)
    requires s.Valid() && s.rest != [] && Tiled(two) && |two| == Head(s.rest).value.reclen
    ensures var out := Splice(s.Buf(), s.Off(), two);
            && DirTiled(out)
            && Records(out) == s.Seen() + Records(two) + (Records(s.rest[|two|..]) + Records(s.tail))
  {
    hide ReadDirent, Tiled, Records, DirTiled;
    ScanHead(s);
    SplitHead(s.rest);
    SeenRest(s);
    Rebuilt(s.done, s.pre, two, s.rest[|two|..], s.tail);
    assert Splice(s.Buf(), s.Off(), two) == s.done + (s.pre + (two + s.rest[|two|..])) + s.tail;
  }

  /** The directory is in good form if its records around the position and those at it are. */
  lemma KemptScan(s: Scan)
    requires s.Valid() && s.rest != []
    ensures var n := Head(s.rest).value.reclen;
            && (Kempt(s.Buf()) <==> Kempt(s.done) && Kempt(s.pre) && Kempt(s.rest[..n]) && Kempt(s.rest[n..]) && Kempt(s.tail))
            && (Kempt(s.rest[..n]) <==> InForm(s.rest[..n], Head(s.rest).value)) && Head(s.rest[..n]) == Head(s.rest)
  {
    hide ReadDirent, Tiled, Records, DirTiled, Kempt;
    ScanHead(s);
    SplitHead(s.rest);
    var n := Head(s.rest).value.reclen;
    assert s.rest[..n] + s.rest[n..] == s.rest;
    KemptRecord(s.rest[..n]);
    KemptParts(s.done, s.pre, s.rest[..n], s.rest[n..], s.tail);
  }

  lemma KemptParts(done: seq<byte>, pre: seq<byte>, mid: seq<byte>, post: seq<byte>, tail: seq<byte>)
    requires DirTiled(done) && Tiled(pre) && Tiled(mid) && Tiled(post) && DirTiled(tail)
    requires |pre| + |mid| + |post| == DIRBLKSIZ
    ensures Kempt(done + (pre + (mid + post)) + tail) <==> Kempt(done) && Kempt(pre) && Kempt(mid) && Kempt(post) && Kempt(tail)
  {
    hide Tiled, Records, DirTiled, Kempt;
    DirTiledTiled(done);
    TiledConcat(mid, post);
    TiledConcat(pre, mid + post);
    KemptConcat(mid, post);
    KemptConcat(pre, mid + post);
    KemptAround(done, pre + (mid + post), tail);
  }

  lemma KemptReplaced(s: Scan, two: seq<byte>)
    requires s.Valid() && s.rest != [] && Tiled(two) && |two| == Head(s.rest).value.reclen && Kempt(s.Buf()) && Kempt(two)
    ensures Kempt(Splice(s.Buf(), s.Off(), two))
  {
    hide ReadDirent, Tiled, Records, DirTiled, Kempt;
    ScanHead(s);
    SplitHead(s.rest);
    KemptScan(s);
    KemptParts(s.done, s.pre, two, s.rest[|two|..], s.tail);
    SeenRest(s);
    assert Splice(s.Buf(), s.Off(), two) == s.done + (s.pre + (two + s.rest[|two|..])) + s.tail;
  }

  // ---- the two records every directory begins with ----

  /** "." with nothing to spare, then "..": the result is the inode ".." names. */
  ghost function DotsIn(rs: seq<Dirent>, self: nat): Option<nat> {
    if |rs| >= 2 && self != 0 && rs[0].ino == self && rs[0].name == DOT && rs[0].reclen < 2 * DirentSize(1)
       && rs[1].ino != 0 && rs[1].name == DOTDOT then Some(rs[1].ino) else None
  }

  ghost predicate KeepsDots(was: seq<Dirent>, now: seq<Dirent>) {
    forall self: nat | DotsIn(was, self).Some? :: DotsIn(now, self) == DotsIn(was, self)
  }

  /** Any buffer longer than "." decides what it begins with. */
  lemma DotsConcat(x: seq<byte>, b: seq<Dirent>)
    requires Tiled(x) && |x| >= 2 * DirentSize(1)
    ensures forall self: nat :: DotsIn(Records(x) + b, self) == DotsIn(Records(x), self)
  {
    hide ReadDirent, Tiled, Records;
    SizeOfRecords(x);
    if |Records(x)| == 1 {
      SizeOfOne(Records(x)[0]);
      assert Records(x) == [Records(x)[0]];
    }
  }

  /** A record replaced by others that begin with it, or that is none of the first two. */
  lemma KeepsHeads(a: seq<Dirent>, r: Dirent, mid: seq<Dirent>, c: seq<Dirent>)
    requires |mid| > 0
    requires a == [] ==> r.ino == 0 || r.name != DOT || r.reclen >= 2 * DirentSize(1)
    requires |a| == 1 ==> r.ino == 0 || (mid[0].ino == r.ino && mid[0].name == r.name)
    ensures KeepsDots(a + [r] + c, a + mid + c)
  {
  }

  /** Replacing a tiled part of a directory by another keeps the beginning if the part does. */
  lemma KeepsInside(x: seq<byte>, m: seq<byte>, n: seq<byte>, y: seq<Dirent>)
    requires Tiled(x) && Tiled(m) && Tiled(n) && |m| >= 2 * DirentSize(1) && |n| >= 2 * DirentSize(1)
    requires x == [] || |x| >= 2 * DirentSize(1)
    requires KeepsDots(Records(m), Records(n))
    ensures KeepsDots(Records(x) + Records(m) + y, Records(x) + Records(n) + y)
  {
    hide ReadDirent, Tiled, Records, DotsIn;
    if x == [] {
      EmptyRecords(x);
      DotsConcat(m, y);
      DotsConcat(n, y);
      assert Records(x) + Records(m) + y == Records(m) + y && Records(x) + Records(n) + y == Records(n) + y;
    } else {
      DotsConcat(x, Records(m) + y);
      DotsConcat(x, Records(n) + y);
      assert Records(x) + Records(m) + y == Records(x) + (Records(m) + y);
      assert Records(x) + Records(n) + y == Records(x) + (Records(n) + y);
    }
  }

  /** Records of a tiled buffer hold their names. */
  lemma {:induction false} RecordsFit(buf: seq<byte>)
    requires Tiled(buf)
    ensures forall r | r in Records(buf) :: r.Fits()
    decreases |buf|
  {
    hide ReadDirent;
    if buf == [] {
      EmptyRecords(buf);
    } else {
      SplitHead(buf);
      RecordsFit(buf[Head(buf).value.reclen..]);
    }
  }

  /** The position of the second record, which "." leads to. */
  function AtSecond(f: seq<byte>): (off: nat)
    requires Head(f).Some?
  {
    Head(f).value.reclen
  }

  /** A directory's first two records, read off its bytes. */
  lemma DotsRead(f: seq<byte>, self: nat)
    requires DirTiled(f) && DotsIn(Records(f), self).Some?
    ensures |f| >= DIRBLKSIZ && Head(f).Some? && Head(f).value == Records(f)[0]
    ensures AtSecond(f) + 8 <= DIRBLKSIZ
    ensures ReadDirent(f[..DIRBLKSIZ], 0) == Some(Records(f)[0]) && ReadDirent(f[..DIRBLKSIZ], AtSecond(f)) == Some(Records(f)[1])
  {
    hide ReadDirent, Tiled, DirTiled, Records, Scan.Seen;
    var s := Second(f, self);
    var b := f[..DIRBLKSIZ];
    SecondFits(f, self);
    ScanHead(s);
    assert b == s.pre + s.rest && b[0..] == b && b[s.Off()..] == s.rest;
    ReadShifted(b, 0);
    ReadShifted(b, s.Off());
    RestLong(s.rest);
  }

  lemma RestLong(rest: seq<byte>)
    requires Head(rest).Some?
    ensures |rest| >= 8
  {
  }

  lemma SecondFits(f: seq<byte>, self: nat)
    requires DirTiled(f) && DotsIn(Records(f), self).Some?
    ensures |f| >= DIRBLKSIZ && Head(f[..DIRBLKSIZ]).Some? && Head(f[..DIRBLKSIZ]).value.Fits()
    ensures Head(f[..DIRBLKSIZ]).value == Records(f)[0]
  {
    hide ReadDirent;
    SplitDir(f);
    if f == [] {
      EmptyRecords(f);
    } else {
      assert f == f[..DIRBLKSIZ] + f[DIRBLKSIZ..];
      HeadLocal(f[..DIRBLKSIZ], f[DIRBLKSIZ..]);
    }
  }

  /** The scan standing at the second record. */
  ghost function Second(f: seq<byte>, self: nat): (s: Scan)
    requires DirTiled(f) && DotsIn(Records(f), self).Some?
    ensures s.Valid() && s.Buf() == f && s.rest != [] && s.done == [] && Head(s.rest) == Some(Records(f)[1])
    ensures s.Seen() == [Records(f)[0]] && |f| >= DIRBLKSIZ && s.Off() == Records(f)[0].reclen && Head(f) == Some(Records(f)[0])
  {
    hide ReadDirent, Tiled, DirTiled, Records;
    SplitDir(f);
    EmptyRecords([]);
    BeginScan(f);
    AtFirst(f, self);
    var r := Head(f[..DIRBLKSIZ]).value;
    NextScan(Begin(f), r.reclen);
    var s := Next(Begin(f), r.reclen);
    SeenRest(s);
    ScanHead(s);
    s
  }

  lemma AtFirst(f: seq<byte>, self: nat)
    requires DirTiled(f) && DotsIn(Records(f), self).Some?
    ensures |f| >= DIRBLKSIZ && Head(f[..DIRBLKSIZ]).Some? && Head(f[..DIRBLKSIZ]).value == Records(f)[0]
    ensures Head(f) == Head(f[..DIRBLKSIZ])
    ensures Begin(f).Valid() && Begin(f).rest == f[..DIRBLKSIZ] && Records(f)[0].reclen < DIRBLKSIZ
    ensures Begin(f).Seen() == []
  {
    hide ReadDirent;
    BeginScan(f);
    SecondFits(f, self);
    assert f == f[..DIRBLKSIZ] + f[DIRBLKSIZ..];
    HeadLocal(f[..DIRBLKSIZ], f[DIRBLKSIZ..]);
  }

  /** Rewriting the inode number of the second record, and nothing else. */
  lemma SecondRenumbered(f: seq<byte>, self: nat, q: nat)
    requires DirTiled(f) && DotsIn(Records(f), self).Some? && 0 < q < 0x1_0000_0000
    ensures Head(f).Some? && AtSecond(f) + 4 <= |f|
    ensures var now := Splice(f, AtSecond(f), WriteBe32(q));
            && DirTiled(now) && Records(now) == Records(f)[1 := Records(f)[1].(ino := q)]
            && DotsIn(Records(now), self) == Some(q) && KeepsForm(f, now)
  {
    hide ReadDirent, Tiled, DirTiled, Records, WriteBe32, Scan.Valid, Splice, Kempt;
    var s := Second(f, self);
    ScanHead(s);
    var r := Head(s.rest).value;
    RenumberedHead(s, r, q);
    RecordAt(Records(f), s.Seen()[0], r, q, Records(s.rest[r.reclen..]) + Records(s.tail));
  }

  lemma RecordAt(rs: seq<Dirent>, a: Dirent, r: Dirent, q: nat, c: seq<Dirent>)
    requires |rs| >= 2 && rs == [a] + [r] + c
    ensures rs[1 := r.(ino := q)] == [a] + [r.(ino := q)] + c
  {
  }

  /** The record at a scan's position gets another inode number. */
  lemma RenumberedHead(s: Scan, r: Dirent, q: nat)
    requires s.Valid() && s.rest != [] && Head(s.rest) == Some(r) && r.ino != 0 && 0 < q < 0x1_0000_0000
    ensures s.Off() + 4 <= |s.Buf()| && r.reclen <= |s.rest|
    ensures var now := Splice(s.Buf(), s.Off(), WriteBe32(q));
            && DirTiled(now)
            && Records(now) == s.Seen() + [r.(ino := q)] + (Records(s.rest[r.reclen..]) + Records(s.tail))
            && Records(s.Buf()) == s.Seen() + [r] + (Records(s.rest[r.reclen..]) + Records(s.tail))
            && KeepsForm(s.Buf(), now)
  {
    hide ReadDirent, Tiled, DirTiled, Records, WriteBe32, Kempt, InForm;
    ScanHead(s);
    SplitHead(s.rest);
    var one := s.rest[..r.reclen];
    var two := Splice(one, 0, WriteBe32(q));
    Renumbered(one, two, q);
    RecordReplaced(s, two);
    if Kempt(s.Buf()) {
      KemptScan(s);
      KemptRenumbered(one, two, q);
      KemptReplaced(s, two);
    }
    SeenRest(s);
    assert s.Buf()[s.Off()..s.Off() + |one|] == one;
    SpliceHead(s.Buf(), s.Off(), one, WriteBe32(q));
  }

  lemma SpliceHead(f: seq<byte>, off: nat, one: seq<byte>, w: seq<byte>)
    requires off + |one| <= |f| && f[off..off + |one|] == one && |w| <= |one|
    ensures Splice(f, off, Splice(one, 0, w)) == Splice(f, off, w)
  {
  }

  // ---- insertion ----

  predicate HasRoom(r: Dirent, need: nat) {
    if r.ino == 0 then r.reclen >= need else r.reclen >= DirentSize(|r.name|) + need
  }

  /** One entry more, the others in their order. */
  ghost predicate Inserted(was: seq<Entry>, now: seq<Entry>, e: Entry) {
    exists k | 0 <= k <= |was| :: now == was[..k] + [e] + was[k..]
  }

  /** What becomes of a record that takes an entry: a free one is taken whole, one in use gives up what
      it does not need. */
  ghost function Shared(r: Dirent, name: seq<byte>, ino: nat): seq<Dirent>
    requires HasRoom(r, DirentSize(|name|))
  {
    if r.ino == 0 then [Dirent(ino, r.reclen, name)]
    else [r.(reclen := DirentSize(|r.name|))] + [Dirent(ino, r.reclen - DirentSize(|r.name|), name)]
  }

  ghost predicate TakesAt(was: seq<Dirent>, now: seq<Dirent>, k: nat, name: seq<byte>, ino: nat) {
    && k < |was| && HasRoom(was[k], DirentSize(|name|)) && (forall j | 0 <= j < k :: !HasRoom(was[j], DirentSize(|name|)))
    && now == was[..k] + Shared(was[k], name, ino) + was[k + 1..]
  }

  /** The first record with room has taken the entry. */
  ghost predicate FirstFit(was: seq<Dirent>, now: seq<Dirent>, name: seq<byte>, ino: nat) {
    exists k: nat :: TakesAt(was, now, k, name, ino)
  }

  lemma FirstFitAt(a: seq<Dirent>, r: Dirent, c: seq<Dirent>, name: seq<byte>, ino: nat)
    requires HasRoom(r, DirentSize(|name|)) && forall x | x in a :: !HasRoom(x, DirentSize(|name|))
    ensures FirstFit(a + [r] + c, a + Shared(r, name, ino) + c, name, ino)
  {
    hide HasRoom, Shared;
    var was := a + [r] + c;
    assert was[..|a|] == a && was[|a| + 1..] == c && was[|a|] == r;
    assert forall j | 0 <= j < |a| :: was[j] in a;
    assert TakesAt(was, a + Shared(r, name, ino) + c, |a|, name, ino);
  }

  /** The scan of one block of nextufs__insert_dirent: the first record with room takes the entry. */
  method InsertInBlock(buf: seq<byte>, name: seq<byte>, ino: nat) returns (found: bool, out: seq<byte>)
    requires DirTiled(buf) && name != [] && |name| <= MAX_NAME && 0 < ino < 0x1_0000_0000
    ensures |out| == |buf| && DirTiled(out)
    ensures found <==> exists r :: r in Records(buf) && HasRoom(r, DirentSize(|name|))
    ensures if found then Inserted(Listing(buf), Listing(out), Entry(name, ino)) else out == buf
    ensures found ==> FirstFit(Records(buf), Records(out), name, ino)
    ensures KeepsDots(Records(buf), Records(out)) && KeepsForm(buf, out)
  {
    hide ReadDirent, Head, Tiled, DirTiled, Records, DirentRaw, DotsIn, FirstFit, Kempt;
    var need, off := DirentSize(|name|), 0;
    BeginScan(buf);
    ghost var s := Begin(buf);
    out := buf;
    while off < |buf|
      invariant s.Valid() && s.Buf() == buf && off == s.Off()
      invariant forall r | r in s.Seen() :: !HasRoom(r, need)
    {
      ScanHead(s);
      var ent := ReadDirent(buf, off).value;
      NextScan(s, ent.reclen);
      SeenRest(s);
      var used := if ent.ino == 0 then 0 else DirentSize(|ent.name|);
      if ent.ino == 0 && ent.reclen >= need {
        out := Splice(buf, off, DirentRaw(Dirent(ino, ent.reclen, name)));
        FilledFree(s, name, ino);
        KemptFilled(s, name, ino);
        return true, out;
      } else {
        var slack: nat := ent.reclen - used;
        if ent.ino != 0 && slack >= need {
          out := Splice(buf, off + 4, WriteBe16(used));
          out := Splice(out, off + used, DirentRaw(Dirent(ino, slack, name)));
          SplitUsed(s, name, ino, out);
          KemptSplit(s, name, ino, out);
          return true, out;
        }
        off := off + ent.reclen;
      }
      s := Next(s, ent.reclen);
    }
    ScanHead(s);
    SeenAll(s);
    return false, buf;
  }

  lemma FilledFree(s: Scan, name: seq<byte>, ino: nat)
    requires s.Valid() && s.rest != [] && name != [] && 0 < ino < 0x1_0000_0000
    requires Head(s.rest).value.ino == 0 && Head(s.rest).value.reclen >= DirentSize(|name|)
    requires forall r | r in s.Seen() :: !HasRoom(r, DirentSize(|name|))
    ensures FirstFit(Records(s.Buf()), Records(Splice(s.Buf(), s.Off(), DirentRaw(Dirent(ino, Head(s.rest).value.reclen, name)))), name, ino)
    ensures var out := Splice(s.Buf(), s.Off(), DirentRaw(Dirent(ino, Head(s.rest).value.reclen, name)));
            DirTiled(out) && Inserted(Listing(s.Buf()), Listing(out), Entry(name, ino)) && KeepsDots(Records(s.Buf()), Records(out))
  {
    hide ReadDirent, Tiled, DirTiled, Records, DirentRaw, List, KeepsDots, FirstFit;
    ScanHead(s);
    var r := Head(s.rest).value;
    var new_ := Dirent(ino, r.reclen, name);
    RawRecord(new_);
    RecordReplaced(s, DirentRaw(new_));
    SeenRest(s);
    var post := Records(s.rest[r.reclen..]) + Records(s.tail);
    FirstFitAt(s.Seen(), r, post, name, ino);
    KeepsHeads(s.Seen(), r, [new_], post);
    Around(s.Seen(), [r], post);
    Around(s.Seen(), [new_], post);
    ListOne(r);
    ListOne(new_);
    var k := |List(s.Seen())|;
    var was := Listing(s.Buf());
    assert was[..k] == List(s.Seen()) && was[k..] == List(post);
  }

  lemma SplitUsed(s: Scan, name: seq<byte>, ino: nat, out: seq<byte>)
    requires s.Valid() && s.rest != [] && name != [] && 0 < ino < 0x1_0000_0000
    requires var r := Head(s.rest).value; var used := DirentSize(|r.name|);
             && r.ino != 0 && r.reclen >= used + DirentSize(|name|)
             && out == Splice(Splice(s.Buf(), s.Off() + 4, WriteBe16(used)), s.Off() + used,
                              DirentRaw(Dirent(ino, r.reclen - used, name)))
    requires forall r | r in s.Seen() :: !HasRoom(r, DirentSize(|name|))
    ensures FirstFit(Records(s.Buf()), Records(out), name, ino)
    ensures |out| == |s.Buf()| && DirTiled(out) && Inserted(Listing(s.Buf()), Listing(out), Entry(name, ino))
    ensures KeepsDots(Records(s.Buf()), Records(out))
  {
    hide ReadDirent, Tiled, DirTiled, Records, DirentRaw, List, Splice, Scan.Buf, Scan.Off, Scan.Seen, KeepsDots, FirstFit;
    ScanHead(s);
    var r := Head(s.rest).value;
    var used := DirentSize(|r.name|);
    var new_ := Dirent(ino, r.reclen - used, name);
    SplitHead(s.rest);
    var cut := Cut(s.rest[..r.reclen], used);
    RawRecord(new_);
    TiledConcat(cut, DirentRaw(new_));
    TwoWrites(s, used, DirentRaw(new_));
    RecordReplaced(s, cut + DirentRaw(new_));
    SeenRest(s);
    var post := Records(s.rest[r.reclen..]) + Records(s.tail);
    FirstFitAt(s.Seen(), r, post, name, ino);
    KeepsHeads(s.Seen(), r, [r.(reclen := used)] + [new_], post);
    SplitListing(s.Seen(), r, r.(reclen := used), new_, post);
  }

  lemma KemptFilled(s: Scan, name: seq<byte>, ino: nat)
    requires s.Valid() && s.rest != [] && name != [] && |name| <= MAX_NAME && 0 < ino < 0x1_0000_0000
    requires Head(s.rest).value.reclen >= DirentSize(|name|)
    ensures KeepsForm(s.Buf(), Splice(s.Buf(), s.Off(), DirentRaw(Dirent(ino, Head(s.rest).value.reclen, name))))
  {
    hide ReadDirent, Tiled, DirTiled, Records, DirentRaw, Kempt;
    if Kempt(s.Buf()) {
      ScanHead(s);
      KemptScan(s);
      var new_ := Dirent(ino, Head(s.rest).value.reclen, name);
      RawRecord(new_);
      KemptRaw(new_);
      KemptReplaced(s, DirentRaw(new_));
    }
  }

  lemma KemptSplit(s: Scan, name: seq<byte>, ino: nat, out: seq<byte>)
    requires s.Valid() && s.rest != [] && name != [] && |name| <= MAX_NAME && 0 < ino < 0x1_0000_0000
    requires var r := Head(s.rest).value; var used := DirentSize(|r.name|);
             && r.ino != 0 && r.reclen >= used + DirentSize(|name|)
             && out == Splice(Splice(s.Buf(), s.Off() + 4, WriteBe16(used)), s.Off() + used,
                              DirentRaw(Dirent(ino, r.reclen - used, name)))
    ensures KeepsForm(s.Buf(), out)
  {
    hide ReadDirent, Tiled, DirTiled, Records, DirentRaw, Splice, Scan.Buf, Scan.Off, Kempt;
    if Kempt(s.Buf()) {
      ScanHead(s);
      KemptScan(s);
      var r := Head(s.rest).value;
      var used := DirentSize(|r.name|);
      var new_ := Dirent(ino, r.reclen - used, name);
      SplitHead(s.rest);
      var cut := Cut(s.rest[..r.reclen], used);
      CutKempt(s.rest[..r.reclen], used);
      RawRecord(new_);
      KemptRaw(new_);
      TiledConcat(cut, DirentRaw(new_));
      KemptConcat(cut, DirentRaw(new_));
      TwoWrites(s, used, DirentRaw(new_));
      KemptReplaced(s, cut + DirentRaw(new_));
    }
  }

  lemma CutKempt(one: seq<byte>, used: nat)
    requires Head(one).Some? && Head(one).value.Fits() && Head(one).value.reclen == |one| && InForm(one, Head(one).value)
    requires DirentSize(|Head(one).value.name|) <= used <= |one| && used % 4 == 0
    ensures Kempt(Cut(one, used))
  {
    hide ReadDirent, Tiled, Records, Kempt;
    var two := Splice(one, 4, WriteBe16(used))[..used];
    KemptResized(one, two, used);
  }

  lemma SplitListing(a: seq<Dirent>, r: Dirent, old_: Dirent, new_: Dirent, c: seq<Dirent>)
    requires r.ino != 0 && new_.ino != 0 && r.name != [] && new_.name != [] && old_ == r.(reclen := old_.reclen)
    ensures Inserted(List(a + [r] + c), List(a + ([old_] + [new_]) + c), Entry(new_.name, new_.ino))
  {
    hide List;
    Around(a, [r], c);
    Around(a, [old_] + [new_], c);
    ListOne(r);
    ListOne(old_);
    ListOne(new_);
    ListConcat([old_], [new_]);
    var was, k := List(a + [r] + c), |List(a)| + 1;
    assert was[..k] == List(a) + [Entry(r.name, r.ino)] && was[k..] == List(c);
  }

  /** A record cut down to the bytes it uses. */
  ghost function Cut(one: seq<byte>, used: nat): (two: seq<byte>)
    requires Head(one).Some? && Head(one).value.Fits() && Head(one).value.reclen == |one|
    requires DirentSize(|Head(one).value.name|) <= used <= |one|
    ensures |two| == used && Tiled(two) && Records(two) == [Head(one).value.(reclen := used)]
  {
    Resized(one, Splice(one, 4, WriteBe16(used))[..used], used);
    Splice(one, 4, WriteBe16(used))[..used]
  }

  /** Rewriting the length field and then the space behind it rewrites the whole record. */
  lemma TwoWrites(s: Scan, used: nat, raw: seq<byte>)
    requires s.Valid() && s.rest != [] && Head(s.rest).Some? && Tiled(s.rest)
    requires var r := Head(s.rest).value; r.Fits() && DirentSize(|r.name|) <= used && used + |raw| == r.reclen
    ensures var one := s.rest[..used + |raw|];
            && Head(one) == Head(s.rest)
            && Splice(Splice(s.Buf(), s.Off() + 4, WriteBe16(used)), s.Off() + used, raw)
               == Splice(s.Buf(), s.Off(), Cut(one, used) + raw)
  {
    hide ReadDirent, Tiled, Records, DirTiled, Splice, WriteBe16;
    var one := s.rest[..used + |raw|];
    SplitHead(s.rest);
    var pre, post := s.done + s.pre, s.rest[used + |raw|..] + s.tail;
    assert s.Buf() == pre + one + post;
    SpliceInside(pre, one, post, used, WriteBe16(used), raw);
  }

  lemma SpliceInside(pre: seq<byte>, one: seq<byte>, post: seq<byte>, used: nat, w: seq<byte>, raw: seq<byte>)
    requires |w| == 2 && 8 <= used && used + |raw| == |one|
    ensures Splice(Splice(pre + one + post, |pre| + 4, w), |pre| + used, raw)
         == Splice(pre + one + post, |pre|, Splice(one, 4, w)[..used] + raw)
  {
    var b := pre + one + post;
    var c := Splice(b, |pre| + 4, w);
    assert c[..|pre| + used] == pre + Splice(one, 4, w)[..used];
    assert c[|pre| + used + |raw|..] == post;
    assert b[..|pre|] == pre && b[|pre| + |one|..] == post;
  }

  lemma Around(a: seq<Dirent>, b: seq<Dirent>, c: seq<Dirent>)
    ensures List(a + b + c) == List(a) + List(b) + List(c)
  {
    ListConcat(a + b, c);
    ListConcat(a, b);
  }

  lemma ListOne(r: Dirent)
    ensures List([r]) == if r.ino != 0 && r.name != [] then [Entry(r.name, r.ino)] else []
  {
    assert List([r][1..]) == [];
  }

  // ---- removal ----

  predicate Matches(r: Dirent, name: seq<byte>) {
    r.ino != 0 && r.name == name
  }

  ghost predicate NoMatch(rs: seq<Dirent>, name: seq<byte>) {
    forall r | r in rs :: !Matches(r, name)
  }

  ghost predicate AllUnused(rs: seq<Dirent>) {
    forall r | r in rs :: r.ino == 0
  }

  /** The records of one block around the first one with a given name: prev is the last record in
      use before it, gap the free records between the two. */
  datatype Hit = Hit(before: seq<Dirent>, prev: Option<Dirent>, gap: seq<Dirent>, target: Dirent, after: seq<Dirent>)
  {
    ghost function Front(): seq<Dirent> {
      before + (if prev.Some? then [prev.value] else []) + gap
    }

    ghost predicate Of(rs: seq<Dirent>, name: seq<byte>) {
      && rs == Front() + [target] + after
      && Matches(target, name) && NoMatch(Front(), name) && AllUnused(gap)
      && (prev.None? ==> before == [])
      && (prev.Some? ==> prev.value.ino != 0)
    }

    /** The target is directly preceded by a record in use, or by free records only. */
    ghost predicate Clean() {
      prev.None? || gap == []
    }
  }

  /** One entry less: the first with the name. */
  ghost predicate Deleted(was: seq<Entry>, now: seq<Entry>, name: seq<byte>) {
    exists k: nat :: FirstAt(was, k, name) && now == was[..k] + was[k + 1..]
  }

  ghost predicate FirstAt(es: seq<Entry>, k: nat, name: seq<byte>) {
    k < |es| && es[k].name == name && Unnamed(es[..k], name)
  }

  ghost predicate Unnamed(es: seq<Entry>, name: seq<byte>) {
    forall j | 0 <= j < |es| :: es[j].name != name
  }

  /** Deletion with the entries before and after the deleted one named. */
  lemma DeletedIs(a: seq<Entry>, e: Entry, c: seq<Entry>)
    requires Unnamed(a, e.name)
    ensures Deleted(a + [e] + c, a + c, e.name)
  {
    var was := a + [e] + c;
    assert was[..|a|] == a && was[|a| + 1..] == c;
    assert FirstAt(was, |a|, e.name);
  }

  lemma DeletedParts(was: seq<Entry>, now: seq<Entry>, name: seq<byte>) returns (a: seq<Entry>, e: Entry, c: seq<Entry>)
    requires Deleted(was, now, name)
    ensures was == a + [e] + c && now == a + c && e.name == name && Unnamed(a, name)
  {
    var k: nat :| FirstAt(was, k, name) && now == was[..k] + was[k + 1..];
    a, e, c := was[..k], was[k], was[k + 1..];
  }

  /** The inode a lookup finds: the first entry with the name. */
  ghost function FirstNamed(es: seq<Entry>, name: seq<byte>): Option<nat> {
    if es == [] then None else if es[0].name == name then Some(es[0].ino) else FirstNamed(es[1..], name)
  }

  lemma {:induction false} FirstNamedAfter(a: seq<Entry>, c: seq<Entry>, name: seq<byte>)
    requires forall j | 0 <= j < |a| :: a[j].name != name
    ensures FirstNamed(a + c, name) == FirstNamed(c, name)
  {
    if a == [] {
      assert a + c == c;
    } else {
      assert (a + c)[1..] == a[1..] + c;
      FirstNamedAfter(a[1..], c, name);
    }
  }

  datatype Removal = Absent | Refused | Removed(ino: nat, out: seq<byte>)

  ghost function SizeOf(rs: seq<Dirent>): nat {
    if rs == [] then 0 else rs[0].reclen + SizeOf(rs[1..])
  }

  /** What removing the target leaves in its block. With no record in use before it, its inode is
      zeroed; otherwise the previous record grows by the target's length, and a scan goes on from
      wherever that ends. */
  ghost predicate RemovedFrom(blk: seq<byte>, out: seq<byte>, h: Hit) {
    && |out| == |blk|
    && if h.prev.None? then
         Tiled(out) && Records(out) == h.gap + [h.target.(ino := 0)] + h.after
       else
         var n := h.prev.value.reclen + h.target.reclen;
         var end := SizeOf(h.before) + n;
         && end <= |blk|
         && (Tiled(out) <==> Tiled(blk[end..]))
         && Records(out) == h.before + [h.prev.value.(reclen := n)] + Records(blk[end..])
  }

  /** The scan of one directory block of nextufs__remove_dirent. */
  method RemoveInDirblk(blk: seq<byte>, name: seq<byte>) returns (hit: Removal, ghost h: Hit)
    requires Tiled(blk) && |blk| == DIRBLKSIZ
    ensures hit.Absent? <==> NoMatch(Records(blk), name)
    ensures hit.Refused? ==> name == DOT || name == DOTDOT
    ensures hit.Removed? ==> h.Of(Records(blk), name) && hit.ino == h.target.ino && RemovedFrom(blk, hit.out, h)
    ensures hit.Removed? ==> name != DOT && name != DOTDOT && |hit.out| == |blk|
    ensures hit.Removed? && h.Clean() ==> KeepsForm(blk, hit.out)
  {
    hide ReadDirent, Tiled, Records, NoMatch, RemovedFrom, Kempt;
    var off, prevOff: Option<nat> := 0, None;
    ghost var w := Walk([], [], [], blk);
    h := Hit([], None, [], Dirent(0, 0, []), []);
    EmptyRecords([]);
    NothingMatches(name);
    while off < |blk|
      invariant w.Valid() && w.Buf() == blk && off == w.Off()
      invariant prevOff == if w.one == [] then None else Some(|w.a|)
      invariant NoMatch(Records(w.a + w.one + w.gap), name)
    {
      WalkHead(w);
      var ent := ReadDirent(blk, off).value;
      if ent.ino != 0 && ent.name == name {
        h := HitAt(w, name);
        if name == DOT || name == DOTDOT {
          return Refused, h;
        }
        if prevOff.Some? {
          PrevHead(w);
          var prevEnt := ReadDirent(blk, prevOff.value);
          var out := Splice(blk, prevOff.value + 4, WriteBe16(prevEnt.value.reclen + ent.reclen));
          Merged(w, name, out);
          KemptMerged(w, name, out);
          return Removed(ent.ino, out), h;
        }
        var out := Splice(blk, off, WriteBe32(0));
        Blanked(w, name, out);
        KemptBlanked(w, name, out);
        return Removed(ent.ino, out), h;
      }
      StepWalk(w, name);
      if ent.ino != 0 {
        prevOff := Some(off);
      }
      off := off + ent.reclen;
      w := w.Step();
    }
    WalkEnd(w);
    return Absent, h;
  }

  lemma NothingMatches(name: seq<byte>)
    ensures NoMatch(Records([]), name)
  {
    EmptyRecords([]);
  }

  /** A walk through one block: a, the last record in use, the free records since, the rest. */
  datatype Walk = Walk(a: seq<byte>, one: seq<byte>, gap: seq<byte>, rest: seq<byte>)
  {
    function Buf(): seq<byte> { a + one + gap + rest }

    function Off(): nat { |a| + |one| + |gap| }

    ghost predicate Valid() {
      && Tiled(a) && Tiled(one) && Tiled(gap) && Tiled(rest) && AllUnused(Records(gap))
      && if one == [] then a == [] else IsRecord(one) && Head(one).value.ino != 0
    }

    function Step(): Walk
      requires Head(rest).Some?
    {
      var r := Head(rest).value;
      if r.ino == 0 then Walk(a, one, gap + rest[..r.reclen], rest[r.reclen..])
      else Walk(a + one + gap, rest[..r.reclen], [], rest[r.reclen..])
    }
  }

  ghost predicate IsRecord(one: seq<byte>) {
    Head(one).Some? && Head(one).value.Fits() && Head(one).value.reclen == |one| && Records(one) == [Head(one).value]
  }

  lemma WalkHead(w: Walk)
    requires w.Valid()
    ensures w.Off() < |w.Buf()| <==> w.rest != []
    ensures w.rest != [] ==>
      ReadDirent(w.Buf(), w.Off()) == Head(w.rest) && Head(w.rest).Some? && Head(w.rest).value.Fits() && w.Step().Buf() == w.Buf()
  {
    hide ReadDirent, Records;
    if w.rest != [] {
      ReadShifted(w.Buf(), w.Off());
      assert w.Buf()[w.Off()..] == w.rest;
    }
  }

  lemma PrevHead(w: Walk)
    requires w.Valid() && w.one != []
    ensures ReadDirent(w.Buf(), |w.a|) == Head(w.one)
  {
    hide ReadDirent, Records, Tiled;
    ReadShifted(w.Buf(), |w.a|);
    assert w.Buf()[|w.a|..] == w.one + (w.gap + w.rest);
    HeadLocal(w.one, w.gap + w.rest);
  }

  lemma WalkRecords(w: Walk)
    requires w.Valid()
    ensures Tiled(w.a + w.one + w.gap)
    ensures Records(w.a + w.one + w.gap) == Records(w.a) + Records(w.one) + Records(w.gap)
    ensures Records(w.Buf()) == Records(w.a + w.one + w.gap) + Records(w.rest)
  {
    hide ReadDirent, Records, Tiled;
    TiledConcat(w.a, w.one);
    TiledConcat(w.a + w.one, w.gap);
    TiledConcat(w.a + w.one + w.gap, w.rest);
  }

  lemma WalkEnd(w: Walk)
    requires w.Valid() && w.Off() >= |w.Buf()|
    ensures Records(w.Buf()) == Records(w.a + w.one + w.gap)
  {
    hide ReadDirent, Records, Tiled;
    EmptyRecords(w.rest);
    WalkRecords(w);
  }

  lemma StepWalk(w: Walk, name: seq<byte>)
    requires w.Valid() && w.rest != [] && NoMatch(Records(w.a + w.one + w.gap), name)
    requires Head(w.rest).Some? && !Matches(Head(w.rest).value, name)
    ensures w.Step().Valid() && NoMatch(Records(w.Step().a + w.Step().one + w.Step().gap), name)
  {
    hide ReadDirent, Records, Tiled;
    var r, next := Head(w.rest).value, w.Step();
    SplitHead(w.rest);
    WalkHead(w);
    WalkRecords(w);
    TiledConcat(w.gap, w.rest[..r.reclen]);
    EmptyRecords([]);
    assert next.Valid();
    WalkRecords(next);
  }

  ghost function HitAt(w: Walk, name: seq<byte>): (h: Hit)
    requires w.Valid() && w.rest != [] && NoMatch(Records(w.a + w.one + w.gap), name)
    requires Head(w.rest).Some? && Matches(Head(w.rest).value, name)
    ensures h.Of(Records(w.Buf()), name) && h.target == Head(w.rest).value && !NoMatch(Records(w.Buf()), name)
  {
    hide ReadDirent, Records, Tiled, NoMatch, Matches, AllUnused;
    WalkRecords(w);
    SplitHead(w.rest);
    EmptyRecords([]);
    var h := Hit(Records(w.a), if w.one == [] then None else Head(w.one), Records(w.gap), Head(w.rest).value,
                 Records(w.rest[Head(w.rest).value.reclen..]));
    assert h.Front() == Records(w.a + w.one + w.gap);
    assert Records(w.Buf()) == h.Front() + [h.target] + h.after;
    TargetMatches(h, Records(w.Buf()), name);
    h
  }

  lemma TargetMatches(h: Hit, rs: seq<Dirent>, name: seq<byte>)
    requires rs == h.Front() + [h.target] + h.after && Matches(h.target, name)
    ensures !NoMatch(rs, name)
  {
    assert rs[|h.Front()|] == h.target;
  }

  lemma {:induction false} SizeOfRecords(buf: seq<byte>)
    requires Tiled(buf)
    ensures SizeOf(Records(buf)) == |buf|
    decreases |buf|
  {
    hide ReadDirent;
    if buf == [] {
      EmptyRecords(buf);
    } else {
      SplitHead(buf);
      SizeOfRecords(buf[Head(buf).value.reclen..]);
    }
  }

  lemma Blanked(w: Walk, name: seq<byte>, out: seq<byte>)
    requires w.Valid() && w.rest != [] && NoMatch(Records(w.a + w.one + w.gap), name) && w.one == []
    requires Head(w.rest).Some? && Matches(Head(w.rest).value, name)
    requires out == Splice(w.Buf(), w.Off(), WriteBe32(0))
    ensures RemovedFrom(w.Buf(), out, HitAt(w, name))
  {
    hide ReadDirent, Records, Tiled, NoMatch, Matches, AllUnused, WriteBe32, Hit.Of, SizeOf;
    var r := Head(w.rest).value;
    SplitHead(w.rest);
    WalkHead(w);
    var one := w.rest[..r.reclen];
    var two := Splice(one, 0, WriteBe32(0));
    Renumbered(one, two, 0);
    EmptyRecords([]);
    TiledConcat(w.gap, two);
    TiledConcat(w.gap + two, w.rest[r.reclen..]);
    assert w.Buf() == w.gap + (one + w.rest[r.reclen..]);
    BlankBytes(w.gap, one, w.rest[r.reclen..], WriteBe32(0));
  }

  lemma BlankBytes(gap: seq<byte>, one: seq<byte>, post: seq<byte>, w: seq<byte>)
    requires |w| <= |one|
    ensures Splice(gap + (one + post), |gap|, w) == gap + Splice(one, 0, w) + post
  {
  }

  lemma Merged(w: Walk, name: seq<byte>, out: seq<byte>)
    requires w.Valid() && w.rest != [] && NoMatch(Records(w.a + w.one + w.gap), name) && w.one != []
    requires Head(w.rest).Some? && Matches(Head(w.rest).value, name) && |w.Buf()| < 0x1_0000
    requires out == Splice(w.Buf(), |w.a| + 4, WriteBe16(Head(w.one).value.reclen + Head(w.rest).value.reclen))
    ensures RemovedFrom(w.Buf(), out, HitAt(w, name))
  {
    hide ReadDirent, Records, Tiled, SizeOf, NoMatch, Matches, AllUnused, WriteBe16, Hit.Of;
    var n := Head(w.one).value.reclen + Head(w.rest).value.reclen;
    var end := |w.a| + n;
    SizeOfRecords(w.a);
    var two := out[|w.a|..end];
    assert w.Buf() == w.a + w.one + (w.gap + w.rest);
    MergedBytes(w.a, w.one, w.gap + w.rest, n, 8 + |Head(w.one).value.name|);
    Resized(w.one, two, n);
    assert out == w.a + two + w.Buf()[end..];
    TiledConcat(w.a, two);
    TiledConcat(w.a + two, w.Buf()[end..]);
  }

  lemma MergedBytes(a: seq<byte>, one: seq<byte>, rest: seq<byte>, n: nat, k: nat)
    requires 8 <= k <= |one| <= n < 0x1_0000 && n <= |one| + |rest|
    ensures var two := Splice(a + one + rest, |a| + 4, WriteBe16(n))[|a|..|a| + n];
            two[..4] == one[..4] && two[4..6] == WriteBe16(n) && two[6..k] == one[6..k]
  {
    var b := one + rest;
    assert a + one + rest == a + b;
    var w := WriteBe16(n);
    var t := b[..4] + w + b[6..];
    assert Splice(a + b, |a| + 4, w) == a + t;
    var two := t[..n];
    assert (a + t)[|a|..|a| + n] == two;
    assert two[..4] == b[..4] == one[..4];
    assert two[4..6] == w;
    assert two[6..k] == b[6..k] == one[6..k];
  }

  lemma KemptWalk(w: Walk)
    requires w.Valid() && w.rest != [] && Head(w.rest).Some?
    ensures var n := Head(w.rest).value.reclen;
            && Head(w.rest[..n]) == Head(w.rest)
            && (Kempt(w.Buf()) <==> Kempt(w.a) && Kempt(w.one) && Kempt(w.gap) && Kempt(w.rest[..n]) && Kempt(w.rest[n..]))
            && (Kempt(w.rest[..n]) <==> InForm(w.rest[..n], Head(w.rest).value))
            && (w.one != [] ==> (Kempt(w.one) <==> InForm(w.one, Head(w.one).value)))
  {
    hide ReadDirent, Tiled, Records, Kempt, AllUnused;
    SplitHead(w.rest);
    var n := Head(w.rest).value.reclen;
    assert w.rest[..n] + w.rest[n..] == w.rest;
    KemptRecord(w.rest[..n]);
    if w.one != [] { KemptRecord(w.one); }
    TiledConcat(w.a, w.one);
    KemptConcat(w.rest[..n], w.rest[n..]);
    KemptConcat(w.a, w.one);
    KemptAround(w.a + w.one, w.gap, w.rest);
  }

  lemma KemptBlanked(w: Walk, name: seq<byte>, out: seq<byte>)
    requires w.Valid() && w.rest != [] && w.one == [] && Head(w.rest).Some?
    requires out == Splice(w.Buf(), w.Off(), WriteBe32(0))
    ensures KeepsForm(w.Buf(), out)
  {
    hide ReadDirent, Records, Tiled, AllUnused, WriteBe32, Kempt, InForm, Splice;
    if Kempt(w.Buf()) {
      KemptWalk(w);
      SplitHead(w.rest);
      WalkHead(w);
      var r := Head(w.rest).value;
      var one, post := w.rest[..r.reclen], w.rest[r.reclen..];
      KemptBlank(w.gap, one, post);
      assert w.rest == one + post;
      assert w.Buf() == w.gap + (one + post);
      BlankBytes(w.gap, one, post, WriteBe32(0));
    }
  }

  lemma KemptBlank(gap: seq<byte>, one: seq<byte>, post: seq<byte>)
    requires Tiled(gap) && Kempt(gap) && Kempt(post) && Tiled(one) && Kempt(one)
    requires Head(one).Some? && Head(one).value.reclen == |one| && Head(one).value.Fits()
    ensures Kempt(gap + Splice(one, 0, WriteBe32(0)) + post)
  {
    hide ReadDirent, Records, Tiled, WriteBe32, Kempt, InForm;
    var two := Splice(one, 0, WriteBe32(0));
    KemptRecord(one);
    KemptRenumbered(one, two, 0);
    Renumbered(one, two, 0);
    KemptAround(gap, two, post);
  }

  lemma NoRecordsNoBytes(gap: seq<byte>)
    requires Tiled(gap) && Records(gap) == []
    ensures gap == []
  {
  }

  lemma KemptMerged(w: Walk, name: seq<byte>, out: seq<byte>)
    requires w.Valid() && w.rest != [] && w.one != [] && Head(w.rest).Some? && Head(w.rest).value.Fits() && |w.Buf()| < 0x1_0000
    requires out == Splice(w.Buf(), |w.a| + 4, WriteBe16(Head(w.one).value.reclen + Head(w.rest).value.reclen))
    ensures Records(w.gap) == [] ==> KeepsForm(w.Buf(), out)
  {
    hide ReadDirent, Records, Tiled, AllUnused, WriteBe16, Kempt, Splice;
    if Records(w.gap) == [] && Kempt(w.Buf()) {
      NoRecordsNoBytes(w.gap);
      KemptWalk(w);
      SplitHead(w.rest);
      assert w.Buf() == w.a + w.one + w.rest;
      KemptMerge(w.a, w.one, w.rest, Head(w.rest).value.reclen);
    }
  }

  lemma KemptMerge(a: seq<byte>, one: seq<byte>, rest: seq<byte>, m: nat)
    requires Tiled(a) && Kempt(a) && Head(one).Some? && Head(one).value.Fits() && Head(one).value.reclen == |one| && InForm(one, Head(one).value)
    requires m <= |rest| && m % 4 == 0 && Kempt(rest[m..]) && |a + one + rest| < 0x1_0000
    ensures Kempt(Splice(a + one + rest, |a| + 4, WriteBe16(|one| + m)))
  {
    hide ReadDirent, Records, Tiled, WriteBe16, Kempt;
    var n := |one| + m;
    var out := Splice(a + one + rest, |a| + 4, WriteBe16(n));
    var two := out[|a|..|a| + n];
    MergedBytes(a, one, rest, n, 9 + |Head(one).value.name|);
    MergedBytes(a, one, rest, n, 8 + |Head(one).value.name|);
    Resized(one, two, n);
    KemptResized(one, two, n);
    assert out == a + two + rest[m..];
    KemptAround(a, two, rest[m..]);
  }

  // ---- what a removal is worth ----

  /** After its first k records a tiled buffer holds the others. */
  lemma {:induction false} DropRecords(buf: seq<byte>, k: nat)
    requires Tiled(buf) && k <= |Records(buf)|
    ensures SizeOf(Records(buf)[..k]) <= |buf|
    ensures var rest := buf[SizeOf(Records(buf)[..k])..]; Tiled(rest) && Records(rest) == Records(buf)[k..]
    decreases k
  {
    hide ReadDirent;
    if k > 0 {
      EmptyRecords([]);
      SplitHead(buf);
      var n := Head(buf).value.reclen;
      assert Records(buf)[..k][1..] == Records(buf[n..])[..k - 1];
      DropRecords(buf[n..], k - 1);
      var m := SizeOf(Records(buf[n..])[..k - 1]);
      assert buf[n..][m..] == buf[n + m..];
    }
  }

  lemma {:induction false} SizeOfConcat(a: seq<Dirent>, b: seq<Dirent>)
    ensures SizeOf(a + b) == SizeOf(a) + SizeOf(b)
  {
    if a == [] {
      assert a + b == b;
    } else {
      assert (a + b)[1..] == a[1..] + b;
      SizeOfConcat(a[1..], b);
    }
  }

  lemma SizeOfOne(r: Dirent)
    ensures SizeOf([r]) == r.reclen
  {
    assert SizeOf([r][1..]) == 0;
  }

  lemma FrontSize(h: Hit)
    requires h.prev.Some?
    ensures SizeOf(h.Front()) == SizeOf(h.before) + h.prev.value.reclen + SizeOf(h.gap)
    ensures SizeOf(h.Front() + [h.target]) == SizeOf(h.Front()) + h.target.reclen
  {
    SizeOfConcat(h.before + [h.prev.value], h.gap);
    SizeOfConcat(h.before, [h.prev.value]);
    SizeOfConcat(h.Front(), [h.target]);
    SizeOfOne(h.prev.value);
    SizeOfOne(h.target);
  }

  /** A removal merges exactly the previous record and the target, and leaves the tiling whole, if
      and only if no free record lies between the two. */
  lemma MergeIsExactWhenAdjacent(blk: seq<byte>, out: seq<byte>, name: seq<byte>, h: Hit)
    requires Tiled(blk) && h.Of(Records(blk), name) && RemovedFrom(blk, out, h) && h.prev.Some?
    ensures (Tiled(out)
             && Records(out) == h.before + [h.prev.value.(reclen := h.prev.value.reclen + h.target.reclen)] + h.after)
            <==> h.gap == []
  {
    hide ReadDirent, Tiled, Records, SizeOf, NoMatch;
    var end := SizeOf(h.before) + h.prev.value.reclen + h.target.reclen;
    var k := |h.Front()| + 1;
    FrontSize(h);
    assert Records(blk)[..k] == h.Front() + [h.target] && Records(blk)[k..] == h.after;
    DropRecords(blk, k);
    if h.gap != [] {
      SizeOfRecords(blk[SizeOf(Records(blk)[..k])..]);
      GapSize(blk, h, name);
      if Tiled(out) {
        SizeOfRecords(blk[end..]);
        var pre := h.before + [h.prev.value.(reclen := h.prev.value.reclen + h.target.reclen)];
        SamePrefix(pre, h.after, Records(blk[end..]));
      }
    } else {
      assert SizeOf(h.gap) == 0 by { EmptySize(); }
    }
  }

  lemma SamePrefix(pre: seq<Dirent>, x: seq<Dirent>, y: seq<Dirent>)
    ensures pre + x == pre + y ==> x == y
  {
    assert (pre + x)[|pre|..] == x && (pre + y)[|pre|..] == y;
  }

  lemma EmptySize()
    ensures SizeOf([]) == 0
  {
  }

  lemma GapSize(blk: seq<byte>, h: Hit, name: seq<byte>)
    requires Tiled(blk) && h.Of(Records(blk), name) && h.prev.Some? && h.gap != []
    ensures SizeOf(h.gap) > 0
  {
    hide ReadDirent, NoMatch;
    var k := |h.before| + 1;
    DropRecords(blk, k);
    assert Records(blk)[k] == h.gap[0];
    var rest := blk[SizeOf(Records(blk)[..k])..];
    assert Records(rest)[0] == Head(rest).value;
  }

  lemma {:induction false} ListUnused(rs: seq<Dirent>)
    requires AllUnused(rs)
    ensures List(rs) == []
  {
    if rs != [] {
      assert rs[0] in rs;
      ListUnused(rs[1..]);
    }
  }

  lemma {:induction false} NotListed(rs: seq<Dirent>, name: seq<byte>)
    requires NoMatch(rs, name)
    ensures forall j | 0 <= j < |List(rs)| :: List(rs)[j].name != name
  {
    if rs != [] {
      assert rs[0] in rs;
      NotListed(rs[1..], name);
    }
  }

  lemma ListFront(h: Hit)
    requires AllUnused(h.gap) && (h.prev.None? ==> h.before == []) && (h.prev.Some? ==> h.prev.value.ino != 0)
    ensures List(h.Front()) == List(h.before) + (if h.prev.Some? && h.prev.value.name != [] then [Entry(h.prev.value.name, h.prev.value.ino)] else [])
    ensures h.prev.Some? ==> forall n: nat :: List([h.prev.value.(reclen := n)]) == List([h.prev.value])
  {
    hide List;
    ListUnused(h.gap);
    ListUnused([]);
    ListConcat(h.before + (if h.prev.Some? then [h.prev.value] else []), h.gap);
    if h.prev.Some? {
      ListConcat(h.before, [h.prev.value]);
      ListOne(h.prev.value);
      forall n: nat ensures List([h.prev.value.(reclen := n)]) == List([h.prev.value]) {
        ListOne(h.prev.value.(reclen := n));
      }
    }
  }

  /** A clean removal keeps the tiling and takes exactly the first entry with the name. */
  lemma CleanRemoval(blk: seq<byte>, out: seq<byte>, name: seq<byte>, h: Hit)
    requires Tiled(blk) && name != [] && h.Of(Records(blk), name) && RemovedFrom(blk, out, h) && h.Clean()
    ensures Tiled(out)
    ensures Listing(blk) == List(h.Front()) + [Entry(name, h.target.ino)] + List(h.after)
    ensures Listing(out) == List(h.Front()) + List(h.after)
    ensures forall j | 0 <= j < |List(h.Front())| :: List(h.Front())[j].name != name
  {
    hide ReadDirent, Tiled, Records, SizeOf, NoMatch, List;
    NotListed(h.Front(), name);
    Around(h.Front(), [h.target], h.after);
    ListOne(h.target);
    ListFront(h);
    if h.prev.None? {
      Around(h.gap, [h.target.(ino := 0)], h.after);
      ListOne(h.target.(ino := 0));
      assert h.Front() == h.gap;
    } else {
      MergeIsExactWhenAdjacent(blk, out, name, h);
      var merged := h.prev.value.(reclen := h.prev.value.reclen + h.target.reclen);
      Around(h.before, [merged], h.after);
      ListOne(merged);
    }
  }

  /** The opposite case: when the free records in the gap are as long as the target, the removal
      reports success and the directory lists the name as before. */
  lemma GapKeepsTarget(blk: seq<byte>, out: seq<byte>, name: seq<byte>, h: Hit)
    requires Tiled(blk) && name != [] && h.Of(Records(blk), name) && RemovedFrom(blk, out, h)
    requires h.prev.Some? && SizeOf(h.gap) == h.target.reclen
    ensures Tiled(out) && Listing(out) == Listing(blk)
    ensures Entry(name, h.target.ino) in Listing(out)
  {
    hide ReadDirent, Tiled, Records, SizeOf, NoMatch, List;
    var k := |h.Front()|;
    FrontSize(h);
    assert Records(blk)[..k] == h.Front() && Records(blk)[k..] == [h.target] + h.after;
    DropRecords(blk, k);
    var merged := h.prev.value.(reclen := h.prev.value.reclen + h.target.reclen);
    Around(h.before, [merged], [h.target] + h.after);
    Around(h.Front(), [h.target], h.after);
    ListConcat([h.target], h.after);
    ListFront(h);
    ListOne(h.target);
    ListOne(merged);
    assert Listing(blk)[|List(h.Front())|] == Entry(name, h.target.ino);
  }

  /** Such a block exists: an entry, a free record, the target, and another entry. */
  lemma GapExample() returns (blk: seq<byte>, h: Hit)
    ensures |blk| == DIRBLKSIZ && Tiled(blk) && h.Of(Records(blk), [98]) && h.prev.Some?
    ensures SizeOf(h.gap) == h.target.reclen
  {
    hide ReadDirent, Tiled, Records, DirentRaw;
    var a, free, b, c := Dirent(2, 12, [97]), Dirent(0, 12, []), Dirent(3, 12, [98]), Dirent(4, 988, [99]);
    RawRecord(a);
    RawRecord(free);
    RawRecord(b);
    RawRecord(c);
    blk := DirentRaw(a) + DirentRaw(free) + DirentRaw(b) + DirentRaw(c);
    TiledConcat(DirentRaw(a), DirentRaw(free));
    TiledConcat(DirentRaw(a) + DirentRaw(free), DirentRaw(b));
    TiledConcat(DirentRaw(a) + DirentRaw(free) + DirentRaw(b), DirentRaw(c));
    h := Hit([], Some(a), [free], b, [c]);
    SizeOfOne(free);
  }

  ghost predicate Ordinary(name: seq<byte>) {
    name != DOT && name != DOTDOT && name != []
  }

  /** Three entries at the start of a directory block, and a name that fits the first record. */
  ghost predicate ThreeInUse(rs: seq<Dirent>, a: seq<byte>, b: seq<byte>, c: seq<byte>, x: seq<byte>) {
    && |rs| >= 3 && rs[0].name == a && rs[1].name == b && rs[2].name == c
    && rs[0].ino != 0 && rs[1].ino != 0 && rs[2].ino != 0
    && a != b && a != c && b != c && x != c && DirentSize(|x|) <= rs[0].reclen
    && Ordinary(a) && Ordinary(b) && Ordinary(c)
  }

  /** How the commands come to such a block: a and b are removed, x takes the first of the two records,
      and c is removed. All four succeed, and the last takes nothing away when the records of b and c
      are of one length. */
  method GapRun(blk: seq<byte>, a: seq<byte>, b: seq<byte>, c: seq<byte>, x: seq<byte>, ino: nat) returns (out: seq<byte>, ghost h: Hit)
    requires Tiled(blk) && |blk| == DIRBLKSIZ && ThreeInUse(Records(blk), a, b, c, x)
    requires x != [] && |x| <= MAX_NAME && 0 < ino < 0x1_0000_0000
    ensures !h.Clean() && h.target == Records(blk)[2]
    ensures Records(blk)[1].reclen == Records(blk)[2].reclen ==>
              Tiled(out) && Listing(out) == [Entry(x, ino)] + List(Records(blk)[2..])
  {
    hide ReadDirent, Tiled, DirTiled, Records, DirentRaw, List, KeepsDots, Inserted, FirstFit, RemovedFrom, Hit.Of, NoMatch, HasRoom, SizeOf, AllUnused;
    ghost var rs := Records(blk);
    out := FreeTwo(blk, a, b);
    OneDirblk(out);
    RoomInFirst(Records(out), x);
    var found, now := InsertInBlock(out, x, ino);
    TakesFirst(Records(out), Records(now), x, ino);
    TiledDirblk(now);
    out := now;
    Found(Records(out), 2, c);
    var hit;
    hit, h := RemoveInDirblk(out, c);
    BehindGap(Records(out), c, h);
    AfterGap(out, hit.out, c, h);
    assert [h.target] + h.after == rs[2..];
    out := hit.out;
  }

  /** The first two entries removed. */
  method FreeTwo(blk: seq<byte>, a: seq<byte>, b: seq<byte>) returns (out: seq<byte>)
    requires Tiled(blk) && |blk| == DIRBLKSIZ && |Records(blk)| >= 2 && Matches(Records(blk)[0], a) && Matches(Records(blk)[1], b)
    requires Ordinary(a) && Ordinary(b)
    ensures Tiled(out) && |out| == DIRBLKSIZ
    ensures Records(out) == [Records(blk)[0].(ino := 0)] + [Records(blk)[1].(ino := 0)] + Records(blk)[2..]
  {
    hide ReadDirent, Tiled, Records, RemovedFrom, Hit.Of, NoMatch, SizeOf;
    ghost var rs := Records(blk);
    var hit;
    ghost var h;
    Found(rs, 0, a);
    hit, h := RemoveInDirblk(blk, a);
    Freed(blk, hit.out, [], a, h);
    out := hit.out;
    Found(Records(out), 1, b);
    hit, h := RemoveInDirblk(out, b);
    Freed(out, hit.out, [rs[0].(ino := 0)], b, h);
    out := hit.out;
  }

  /** A block to start from. */
  lemma GapStart() returns (blk: seq<byte>)
    ensures |blk| == DIRBLKSIZ && Tiled(blk) && ThreeInUse(Records(blk), [97], [98], [99], [120])
    ensures Records(blk)[1].reclen == Records(blk)[2].reclen
  {
    hide ReadDirent, Tiled, Records, DirentRaw;
    var a, b, c, d := Dirent(2, 12, [97]), Dirent(3, 12, [98]), Dirent(4, 12, [99]), Dirent(5, 988, [100]);
    RawRecord(a);
    RawRecord(b);
    RawRecord(c);
    RawRecord(d);
    blk := DirentRaw(a) + DirentRaw(b) + DirentRaw(c) + DirentRaw(d);
    TiledConcat(DirentRaw(a), DirentRaw(b));
    TiledConcat(DirentRaw(a) + DirentRaw(b), DirentRaw(c));
    TiledConcat(DirentRaw(a) + DirentRaw(b) + DirentRaw(c), DirentRaw(d));
  }

  lemma Found(rs: seq<Dirent>, k: nat, name: seq<byte>)
    requires k < |rs| && Matches(rs[k], name)
    ensures !NoMatch(rs, name)
  {
    assert rs[k] in rs;
  }

  /** The first entry behind free records only becomes free too. */
  lemma Freed(blk: seq<byte>, out: seq<byte>, free: seq<Dirent>, name: seq<byte>, h: Hit)
    requires Tiled(blk) && |free| < |Records(blk)| && Records(blk)[..|free|] == free && AllUnused(free) && Matches(Records(blk)[|free|], name)
    requires h.Of(Records(blk), name) && RemovedFrom(blk, out, h)
    ensures |out| == |blk| && Tiled(out)
    ensures Records(out) == free + [Records(blk)[|free|].(ino := 0)] + Records(blk)[|free| + 1..]
    ensures AllUnused(free + [Records(blk)[|free|].(ino := 0)])
  {
    hide ReadDirent, Tiled, Records, SizeOf, NoMatch, Hit.Of;
    BehindFree(Records(blk), free, name, h);
  }

  lemma BehindFree(rs: seq<Dirent>, free: seq<Dirent>, name: seq<byte>, h: Hit)
    requires |free| < |rs| && rs[..|free|] == free && AllUnused(free) && Matches(rs[|free|], name) && h.Of(rs, name)
    ensures h == Hit([], None, free, rs[|free|], rs[|free| + 1..])
  {
    var n := |free|;
    assert rs == free + [rs[n]] + rs[n + 1..];
    HitUnique(rs, name, h, Hit([], None, free, rs[n], rs[n + 1..]));
  }

  lemma RoomInFirst(rs: seq<Dirent>, name: seq<byte>)
    requires rs != [] && rs[0].ino == 0 && rs[0].reclen >= DirentSize(|name|)
    ensures exists r :: r in rs && HasRoom(r, DirentSize(|name|))
  {
    assert rs[0] in rs;
  }

  lemma TakesFirst(was: seq<Dirent>, now: seq<Dirent>, name: seq<byte>, ino: nat)
    requires FirstFit(was, now, name, ino) && was != [] && was[0].ino == 0 && was[0].reclen >= DirentSize(|name|)
    ensures now == [Dirent(ino, was[0].reclen, name)] + was[1..]
  {
    var k: nat :| TakesAt(was, now, k, name, ino);
  }

  lemma TiledDirblk(b: seq<byte>)
    requires DirTiled(b) && |b| == DIRBLKSIZ
    ensures Tiled(b)
  {
    assert b[..DIRBLKSIZ] == b;
  }

  lemma BehindGap(rs: seq<Dirent>, name: seq<byte>, h: Hit)
    requires |rs| >= 3 && rs[0].ino != 0 && rs[0].name != name && rs[1].ino == 0 && Matches(rs[2], name) && h.Of(rs, name)
    ensures h == Hit([], Some(rs[0]), [rs[1]], rs[2], rs[3..])
  {
    assert rs == [rs[0]] + [rs[1]] + [rs[2]] + rs[3..];
    HitUnique(rs, name, h, Hit([], Some(rs[0]), [rs[1]], rs[2], rs[3..]));
  }

  lemma AfterGap(blk: seq<byte>, out: seq<byte>, name: seq<byte>, h: Hit)
    requires Tiled(blk) && name != [] && h.Of(Records(blk), name) && RemovedFrom(blk, out, h)
    requires h.prev.Some? && h.before == [] && |h.gap| == 1 && h.prev.value.name != []
    ensures h.gap[0].reclen == h.target.reclen ==>
              && Tiled(out)
              && Listing(out) == [Entry(h.prev.value.name, h.prev.value.ino)] + List([h.target] + h.after)
  {
    hide ReadDirent, Tiled, Records, List;
    SizeOfOne(h.gap[0]);
    assert h.gap == [h.gap[0]];
    if h.gap[0].reclen == h.target.reclen {
      GapKeepsTarget(blk, out, name, h);
      ListFront(h);
      ListUnused([]);
      ListOne(h.prev.value);
      ListConcat(h.Front(), [h.target] + h.after);
      assert Records(blk) == h.Front() + ([h.target] + h.after);
    }
  }

  /** In the first block that has the name, nothing free lies between the entry and the record in
      use before it. */
  ghost predicate Removable(f: seq<byte>, name: seq<byte>) {
    forall x: seq<byte>, blk: seq<byte>, y: seq<byte>, h: Hit ::
      f == x + (blk + y) && DirTiled(x) && |blk| == DIRBLKSIZ && NoMatch(Records(x), name) && h.Of(Records(blk), name)
      ==> h.Clean()
  }

  /** The block scan of nextufs__remove_dirent over a buffer of whole directory blocks. */
  method RemoveInBlock(buf: seq<byte>, name: seq<byte>) returns (hit: Removal)
    requires DirTiled(buf) && name != []
    ensures hit.Absent? <==> NoMatch(Records(buf), name)
    ensures hit.Refused? ==> name == DOT || name == DOTDOT
    ensures hit.Removed? ==> |hit.out| == |buf| && name != DOT && name != DOTDOT
    ensures hit.Removed? ==> FirstNamed(Listing(buf), name) == Some(hit.ino)
    ensures hit.Removed? && Removable(buf, name) ==> DirTiled(hit.out) && Deleted(Listing(buf), Listing(hit.out), name)
    ensures hit.Removed? && Removable(buf, name) ==> KeepsDots(Records(buf), Records(hit.out)) && KeepsForm(buf, hit.out)
    ensures hit.Removed? && Removable(buf, name) ==> exists r :: r in Records(hit.out) && HasRoom(r, DirentSize(|name|))
  {
    hide ReadDirent, Tiled, DirTiled, Records, NoMatch, RemovedFrom, Removable, Deleted, List, KeepsDots, HasRoom, Kempt, KeepsForm, Hit.Clean;
    var base := 0;
    SplitDir(buf);
    EmptyRecords([]);
    SplitDirEmpty();
    NothingMatches(name);
    assert buf[..0] == [] && buf[0..] == buf;
    while base < |buf|
      invariant base <= |buf| && DirTiled(buf[..base]) && DirTiled(buf[base..])
      invariant NoMatch(Records(buf[..base]), name)
    {
      SplitDir(buf[base..]);
      ghost var x, rest := buf[..base], buf[base + DIRBLKSIZ..];
      var blk := buf[base..base + DIRBLKSIZ];
      assert buf[base..][..DIRBLKSIZ] == blk && buf[base..][DIRBLKSIZ..] == rest;
      BlockRecords(x, blk, rest);
      assert buf == x + (blk + rest);
      var inner;
      ghost var h;
      inner, h := RemoveInDirblk(blk, name);
      if inner.Removed? {
        var out := buf[..base] + inner.out + buf[base + DIRBLKSIZ..];
        SomeMatch(Records(x), Records(blk), Records(rest), name);
        FirstHit(x, blk, rest, name, h);
        if Removable(buf, name) {
          CleanlyRemoved(x, blk, rest, inner.out, name, h);
          RemovedKeeps(x, blk, rest, inner.out, name, h);
          RemovedForm(x, blk, rest, inner.out, name, h);
        }
        return Removed(inner.ino, out);
      }
      SomeMatch(Records(x), Records(blk), Records(rest), name);
      if inner.Refused? {
        return Refused;
      }
      base := base + DIRBLKSIZ;
      assert x + blk == buf[..base];
    }
    assert buf[..base] == buf;
    return Absent;
  }

  lemma RemovedForm(x: seq<byte>, blk: seq<byte>, rest: seq<byte>, out: seq<byte>, name: seq<byte>, h: Hit)
    requires DirTiled(x) && Tiled(blk) && |blk| == DIRBLKSIZ && DirTiled(rest) && name != []
    requires NoMatch(Records(x), name) && h.Of(Records(blk), name) && RemovedFrom(blk, out, h)
    requires Removable(x + (blk + rest), name) && (h.Clean() ==> KeepsForm(blk, out))
    ensures KeepsForm(x + (blk + rest), x + out + rest)
  {
    hide ReadDirent, Tiled, DirTiled, Records, NoMatch, List, SizeOf, RemovedFrom, Hit.Of, Kempt;
    assert h.Clean();
    CleanRemoval(blk, out, name, h);
    DirTiledTiled(x);
    assert x + (blk + rest) == x + blk + rest;
    KemptAround(x, blk, rest);
    KemptAround(x, out, rest);
  }

  lemma SplitDirEmpty()
    ensures DirTiled([])
  {
  }

  lemma BlockRecords(x: seq<byte>, blk: seq<byte>, rest: seq<byte>)
    requires DirTiled(x) && Tiled(blk) && |blk| == DIRBLKSIZ && DirTiled(rest)
    ensures DirTiled(x + blk) && Records(x + blk) == Records(x) + Records(blk)
    ensures DirTiled(x + (blk + rest)) && Records(x + (blk + rest)) == Records(x) + Records(blk) + Records(rest)
    ensures DirTiled(blk + rest) && Records(blk + rest) == Records(blk) + Records(rest)
    ensures x + blk + rest == x + (blk + rest)
  {
    hide Tiled, DirTiled, Records;
    OneDirblk(blk);
    DirTiledTiled(x);
    DirTiledConcat(blk, rest);
    DirTiledConcat(x, blk);
    DirTiledConcat(x, blk + rest);
    TiledConcat(x, blk);
    TiledConcat(blk, rest);
    TiledConcat(x, blk + rest);
  }

  lemma SomeMatch(a: seq<Dirent>, b: seq<Dirent>, c: seq<Dirent>, name: seq<byte>)
    ensures NoMatch(a, name) && NoMatch(b, name) ==> NoMatch(a + b, name)
    ensures !NoMatch(b, name) ==> !NoMatch(a + b + c, name)
  {
    if !NoMatch(b, name) {
      var r :| r in b && Matches(r, name);
      assert r in a + b + c;
    }
  }

  lemma CleanlyRemoved(x: seq<byte>, blk: seq<byte>, rest: seq<byte>, out: seq<byte>, name: seq<byte>, h: Hit)
    requires DirTiled(x) && Tiled(blk) && |blk| == DIRBLKSIZ && DirTiled(rest) && name != []
    requires NoMatch(Records(x), name) && h.Of(Records(blk), name) && RemovedFrom(blk, out, h)
    requires Removable(x + (blk + rest), name)
    ensures DirTiled(x + out + rest)
    ensures Deleted(Listing(x + (blk + rest)), Listing(x + out + rest), name)
  {
    hide ReadDirent, Tiled, DirTiled, Records, NoMatch, List, SizeOf, RemovedFrom, Hit.Of, Deleted;
    assert h.Clean();
    assert RemovedFrom(blk, out, h) ==> |out| == |blk| by { SameLength(blk, out, h); }
    CleanRemoval(blk, out, name, h);
    BlockRecords(x, blk, rest);
    BlockRecords(x, out, rest);
    Around(Records(x), Records(blk), Records(rest));
    Around(Records(x), Records(out), Records(rest));
    NotListed(Records(x), name);
    DeletedInside(List(Records(x)), List(h.Front()), Entry(name, h.target.ino), List(h.after), List(Records(rest)));
  }

  /** A clean removal of a name that is no dot leaves the two dots first, and room for the name. */
  lemma RemovedKeeps(x: seq<byte>, blk: seq<byte>, rest: seq<byte>, out: seq<byte>, name: seq<byte>, h: Hit)
    requires DirTiled(x) && Tiled(blk) && |blk| == DIRBLKSIZ && DirTiled(rest) && name != [] && name != DOT && name != DOTDOT
    requires NoMatch(Records(x), name) && h.Of(Records(blk), name) && RemovedFrom(blk, out, h)
    requires Removable(x + (blk + rest), name)
    ensures KeepsDots(Records(x + (blk + rest)), Records(x + out + rest))
    ensures exists r :: r in Records(x + out + rest) && HasRoom(r, DirentSize(|name|))
  {
    hide ReadDirent, Tiled, DirTiled, Records, NoMatch, List, SizeOf, RemovedFrom, Hit.Of, Deleted, KeepsDots, HasRoom;
    assert h.Clean();
    SameLength(blk, out, h);
    CleanRemoval(blk, out, name, h);
    BlockRecords(x, blk, rest);
    BlockRecords(x, out, rest);
    BlockKeepsDots(blk, out, name, h);
    SplitDir(x);
    DirTiledTiled(x);
    KeepsInside(x, blk, out, Records(rest));
    var r := RoomLeft(blk, out, name, h);
    assert r in Records(x) + Records(out) + Records(rest);
  }

  lemma BlockKeepsDots(blk: seq<byte>, out: seq<byte>, name: seq<byte>, h: Hit)
    requires Tiled(blk) && h.Of(Records(blk), name) && RemovedFrom(blk, out, h) && name != DOT && name != DOTDOT
    ensures KeepsDots(Records(blk), Records(out))
  {
    hide ReadDirent, Tiled, Records, NoMatch, SizeOf, Removable;
    var rs := Records(blk);
    forall self: nat | DotsIn(rs, self).Some? ensures DotsIn(Records(out), self) == DotsIn(rs, self) {
      DotsInFront(rs, name, h, self);
    }
  }

  /** The dots lie before the target: the second of them is the record in use before it or an
      earlier one. */
  lemma DotsInFront(rs: seq<Dirent>, name: seq<byte>, h: Hit, self: nat)
    requires h.Of(rs, name) && name != DOT && name != DOTDOT && DotsIn(rs, self).Some?
    ensures h.prev.Some? && |h.before| >= 1 && rs[0] == h.before[0]
    ensures rs[1] == if |h.before| == 1 then h.prev.value else h.before[1]
  {
    FirstTwo(rs, name, h);
  }

  lemma FirstTwo(rs: seq<Dirent>, name: seq<byte>, h: Hit)
    requires h.Of(rs, name) && |rs| >= 2
    ensures h.prev.None? ==> rs[0] == h.target || rs[0].ino == 0
    ensures h.prev.Some? && h.before == [] ==> rs[1] == h.target || rs[1].ino == 0
    ensures h.prev.Some? && h.before != [] ==> rs[0] == h.before[0] && rs[1] == if |h.before| == 1 then h.prev.value else h.before[1]
  {
    if h.gap != [] {
      assert h.gap[0] in h.gap && h.gap[0].ino == 0;
      assert h.prev.None? ==> rs[0] == h.gap[0];
      assert h.prev.Some? && h.before == [] ==> rs[1] == h.gap[0];
    } else {
      assert h.prev.None? ==> rs[0] == h.target;
      assert h.prev.Some? && h.before == [] ==> rs[1] == h.target;
    }
  }

  /** What a clean removal frees is enough for the name. */
  lemma RoomLeft(blk: seq<byte>, out: seq<byte>, name: seq<byte>, h: Hit) returns (r: Dirent)
    requires Tiled(blk) && name != [] && h.Of(Records(blk), name) && RemovedFrom(blk, out, h) && h.Clean()
    ensures r in Records(out) && HasRoom(r, DirentSize(|name|))
  {
    hide ReadDirent, Tiled, Records, NoMatch, SizeOf;
    RecordsFit(blk);
    assert Records(blk)[|h.Front()|] == h.target && h.target in Records(blk);
    if h.prev.None? {
      r := h.target.(ino := 0);
      assert (h.gap + [r] + h.after)[|h.gap|] == r;
    } else {
      r := h.prev.value.(reclen := h.prev.value.reclen + h.target.reclen);
      assert Records(blk)[|h.before|] == h.prev.value && h.prev.value in Records(blk);
      assert Records(out)[|h.before|] == r;
    }
  }

  lemma FirstHit(x: seq<byte>, blk: seq<byte>, rest: seq<byte>, name: seq<byte>, h: Hit)
    requires DirTiled(x) && Tiled(blk) && |blk| == DIRBLKSIZ && DirTiled(rest) && name != []
    requires NoMatch(Records(x), name) && h.Of(Records(blk), name)
    ensures FirstNamed(Listing(x + (blk + rest)), name) == Some(h.target.ino)
  {
    hide ReadDirent, Tiled, DirTiled, Records, NoMatch, List;
    BlockRecords(x, blk, rest);
    Around(Records(x), Records(blk), Records(rest));
    Around(h.Front(), [h.target], h.after);
    ListOne(h.target);
    NotListed(Records(x), name);
    NotListed(h.Front(), name);
    var a, c := List(Records(x)) + List(h.Front()), [Entry(name, h.target.ino)] + (List(h.after) + List(Records(rest)));
    assert Listing(x + (blk + rest)) == a + c;
    FirstNamedAfter(a, c, name);
  }

  lemma SameLength(blk: seq<byte>, out: seq<byte>, h: Hit)
    requires RemovedFrom(blk, out, h)
    ensures |out| == |blk|
  {
  }

  lemma DeletedInside(a: seq<Entry>, f: seq<Entry>, e: Entry, g: seq<Entry>, c: seq<Entry>)
    requires forall j | 0 <= j < |a| :: a[j].name != e.name
    requires forall j | 0 <= j < |f| :: f[j].name != e.name
    ensures Deleted(a + (f + [e] + g) + c, a + (f + g) + c, e.name)
  {
    DeletedIs(a + f, e, g + c);
    assert a + (f + [e] + g) + c == a + f + [e] + (g + c) && a + (f + g) + c == a + f + (g + c);
  }

  // ---- checking beforehand ----

  /** A block's records determine the hit. */
  lemma HitUnique(rs: seq<Dirent>, name: seq<byte>, a: Hit, b: Hit)
    requires a.Of(rs, name) && b.Of(rs, name)
    ensures a == b
  {
    FrontIs(rs, name, a, b);
    FrontIs(rs, name, b, a);
    assert a.Front() == rs[..|a.Front()|] == b.Front() && a.target == rs[|a.Front()|] == b.target;
    assert a.after == rs[|a.Front()| + 1..] == b.after;
    PrevIs(a, b);
    PrevIs(b, a);
    assert a.gap == a.Front()[|a.Front()| - |a.gap|..] == b.gap;
    assert a.before == a.Front()[..|a.before|] == b.before;
    assert a.prev.Some? ==> a.prev.value == a.Front()[|a.before|] == b.prev.value;
  }

  lemma FrontIs(rs: seq<Dirent>, name: seq<byte>, a: Hit, b: Hit)
    requires a.Of(rs, name) && b.Of(rs, name)
    ensures |a.Front()| >= |b.Front()|
  {
    hide NoMatch;
    if |a.Front()| < |b.Front()| {
      EarlyTarget(rs, name, a, b);
    }
  }

  lemma EarlyTarget(rs: seq<Dirent>, name: seq<byte>, a: Hit, b: Hit)
    requires a.Of(rs, name) && rs == b.Front() + [b.target] + b.after && |a.Front()| < |b.Front()|
    ensures !NoMatch(b.Front(), name)
  {
    assert rs[|a.Front()|] == a.target == b.Front()[|a.Front()|];
  }

  lemma PrevIs(a: Hit, b: Hit)
    requires a.Front() == b.Front() && AllUnused(a.gap) && AllUnused(b.gap)
    requires (a.prev.None? ==> a.before == []) && (b.prev.None? ==> b.before == [])
    requires (a.prev.Some? ==> a.prev.value.ino != 0) && (b.prev.Some? ==> b.prev.value.ino != 0)
    ensures |a.gap| >= |b.gap| && (a.prev.Some? ==> b.prev.Some?)
  {
    if a.prev.Some? && (b.prev.None? || |a.gap| < |b.gap|) {
      UsedInFront(a, b);
    }
  }

  lemma UsedInFront(a: Hit, b: Hit)
    requires a.Front() == b.Front() && a.prev.Some? && a.prev.value.ino != 0
    requires if b.prev.None? then b.before == [] else |a.gap| < |b.gap|
    ensures !AllUnused(b.gap)
  {
    var n := |a.Front()|;
    var i := n - |a.gap| - 1;
    assert a.Front()[i] == a.prev.value;
    assert b.Front()[i] == b.gap[i - (n - |b.gap|)];
  }

  /** The scan of RemoveInDirblk without the writes. */
  method FindHit(blk: seq<byte>, name: seq<byte>) returns (found: bool, clean: bool, ghost h: Hit)
    requires Tiled(blk)
    ensures found <==> !NoMatch(Records(blk), name)
    ensures found ==> h.Of(Records(blk), name) && (clean <==> h.Clean())
  {
    hide ReadDirent, Tiled, Records, NoMatch;
    var off, used, gap := 0, false, false;
    ghost var w := Walk([], [], [], blk);
    h := Hit([], None, [], Dirent(0, 0, []), []);
    EmptyRecords([]);
    NothingMatches(name);
    while off < |blk|
      invariant w.Valid() && w.Buf() == blk && off == w.Off()
      invariant used <==> w.one != []
      invariant gap <==> w.gap != []
      invariant NoMatch(Records(w.a + w.one + w.gap), name)
    {
      WalkHead(w);
      var ent := ReadDirent(blk, off).value;
      if ent.ino != 0 && ent.name == name {
        h := HitAt(w, name);
        GapOf(w, name);
        return true, !used || !gap, h;
      }
      StepWalk(w, name);
      if ent.ino != 0 {
        used, gap := true, false;
      } else {
        gap := true;
      }
      off := off + ent.reclen;
      w := w.Step();
    }
    WalkEnd(w);
    return false, true, h;
  }

  lemma GapOf(w: Walk, name: seq<byte>)
    requires w.Valid() && w.rest != [] && NoMatch(Records(w.a + w.one + w.gap), name)
    requires Head(w.rest).Some? && Matches(Head(w.rest).value, name)
    ensures HitAt(w, name).gap == [] <==> w.gap == []
    ensures HitAt(w, name).prev.None? <==> w.one == []
  {
    hide ReadDirent, NoMatch, Matches;
    EmptyRecords([]);
    if w.gap != [] {
      SplitHead(w.gap);
    }
  }

  /** Whether a removal of the name will leave the directory tiled. */
  method CanRemove(f: seq<byte>, name: seq<byte>) returns (ok: bool)
    requires DirTiled(f) && name != []
    ensures ok <==> Removable(f, name)
  {
    hide ReadDirent, Tiled, DirTiled, Records, NoMatch, Removable, Hit.Of, Hit.Clean;
    var base := 0;
    SplitDir(f);
    EmptyRecords([]);
    SplitDirEmpty();
    NothingMatches(name);
    assert f[..0] == [] && f[0..] == f;
    while base < |f|
      invariant base <= |f| && DirTiled(f[..base]) && DirTiled(f[base..])
      invariant NoMatch(Records(f[..base]), name)
    {
      SplitDir(f[base..]);
      ghost var x, rest := f[..base], f[base + DIRBLKSIZ..];
      var blk := f[base..base + DIRBLKSIZ];
      assert f[base..][..DIRBLKSIZ] == blk && f[base..][DIRBLKSIZ..] == rest;
      BlockRecords(x, blk, rest);
      assert f == x + (blk + rest);
      var found, clean;
      ghost var h;
      found, clean, h := FindHit(blk, name);
      if found {
        CleanIsRemovable(x, blk, rest, name, h);
        return clean;
      }
      SomeMatch(Records(x), Records(blk), Records(rest), name);
      base := base + DIRBLKSIZ;
      assert x + blk == f[..base];
    }
    assert f[..base] == f;
    NothingToRemove(f, name);
    return true;
  }

  lemma CleanIsRemovable(x: seq<byte>, blk: seq<byte>, rest: seq<byte>, name: seq<byte>, h: Hit)
    requires DirTiled(x) && Tiled(blk) && |blk| == DIRBLKSIZ && DirTiled(rest) && name != []
    requires NoMatch(Records(x), name) && h.Of(Records(blk), name)
    ensures h.Clean() <==> Removable(x + (blk + rest), name)
  {
    hide Tiled, DirTiled, Records, Hit.Clean, Hit.Of, NoMatch;
    var f := x + (blk + rest);
    forall u: seq<byte>, b: seq<byte>, v: seq<byte>, k: Hit
      | f == u + (b + v) && DirTiled(u) && |b| == DIRBLKSIZ && NoMatch(Records(u), name) && k.Of(Records(b), name)
      ensures k == h
    {
      SameBlock(x, blk, rest, u, b, v, name, h, k);
      HitUnique(Records(blk), name, h, k);
    }
  }

  lemma NothingToRemove(f: seq<byte>, name: seq<byte>)
    requires DirTiled(f) && name != []
    ensures NoMatch(Records(f), name) ==> Removable(f, name)
  {
    hide Tiled, DirTiled, Records, Hit.Clean, Hit.Of, NoMatch;
    forall u: seq<byte>, b: seq<byte>, v: seq<byte>, k: Hit
      | f == u + (b + v) && DirTiled(u) && |b| == DIRBLKSIZ && NoMatch(Records(u), name) && k.Of(Records(b), name)
      ensures !NoMatch(Records(f), name)
    {
      FirstBlockMatches(f, u, b, v, name, k);
    }
  }

  /** A block with a hit, in a directory, is a block of it. */
  lemma FirstBlockMatches(f: seq<byte>, u: seq<byte>, b: seq<byte>, v: seq<byte>, name: seq<byte>, k: Hit)
    requires f == u + (b + v) && DirTiled(f) && DirTiled(u) && |b| == DIRBLKSIZ && k.Of(Records(b), name)
    ensures Tiled(b) && DirTiled(v) && !NoMatch(Records(u) + Records(b), name) && !NoMatch(Records(f), name)
  {
    hide Tiled, Records, DirTiled;
    DirTiledConcat(u, b + v);
    SplitDir(b + v);
    assert (b + v)[..DIRBLKSIZ] == b && (b + v)[DIRBLKSIZ..] == v;
    BlockRecords(u, b, v);
    HitMatches(k, Records(b), name);
    SomeMatch(Records(u), Records(b), Records(v), name);
    SomeMatch(Records(u), Records(b), [], name);
    assert Records(u) + Records(b) + [] == Records(u) + Records(b);
  }

  lemma HitMatches(h: Hit, rs: seq<Dirent>, name: seq<byte>)
    requires h.Of(rs, name)
    ensures !NoMatch(rs, name)
  {
    TargetMatches(h, rs, name);
  }

  lemma SameBlock(x: seq<byte>, blk: seq<byte>, rest: seq<byte>, u: seq<byte>, b: seq<byte>, v: seq<byte>,
                  name: seq<byte>, h: Hit, k: Hit)
    requires x + (blk + rest) == u + (b + v) && DirTiled(x) && DirTiled(u) && DirTiled(rest) && Tiled(blk)
    requires |blk| == DIRBLKSIZ == |b| && NoMatch(Records(x), name) && NoMatch(Records(u), name)
    requires h.Of(Records(blk), name) && k.Of(Records(b), name)
    ensures b == blk
  {
    hide Tiled, Records, DirTiled, NoMatch, Hit.Of;
    if |u| < |x| {
      BlockInside(x, blk + rest, u, b, v, name, k);
    } else if |x| < |u| {
      BlockInside(u, b + v, x, blk, rest, name, h);
    } else {
      Overlap(x, blk + rest, u, b + v);
      assert x[|u|..] + (blk + rest) == blk + rest;
      Overlap(blk, rest, b, v);
      assert blk[|b|..] == [];
    }
  }

  /** Two ways to cut one sequence. */
  lemma Overlap(x: seq<byte>, y: seq<byte>, u: seq<byte>, t: seq<byte>)
    requires x + y == u + t && |u| <= |x|
    ensures x == u + x[|u|..] && t == x[|u|..] + y
  {
    assert u == (u + t)[..|u|] == (x + y)[..|u|] == x[..|u|];
    assert t == (u + t)[|u|..] == (x + y)[|u|..] == x[|u|..] + y;
  }

  lemma NextMultiple(a: nat, b: nat)
    requires a % DIRBLKSIZ == 0 && b % DIRBLKSIZ == 0 && a < b
    ensures a + DIRBLKSIZ <= b
  {
  }

  /** A block that starts before the end of x lies in x, so x has a match. */
  lemma BlockInside(x: seq<byte>, y: seq<byte>, u: seq<byte>, b: seq<byte>, v: seq<byte>, name: seq<byte>, k: Hit)
    requires x + y == u + (b + v) && DirTiled(x) && DirTiled(u) && |b| == DIRBLKSIZ && |u| < |x|
    requires k.Of(Records(b), name)
    ensures !NoMatch(Records(x), name)
  {
    hide Tiled, Records, DirTiled, NoMatch, Hit.Of;
    SplitDir(x);
    SplitDir(u);
    NextMultiple(|u|, |x|);
    Overlap(x, y, u, b + v);
    Overlap(x[|u|..], y, b, v);
    FirstBlockMatches(x, u, b, x[|u|..][|b|..], name, k);
  }
}
