/** fsck's own reader of directories, stricter than the writer's: dir_scan.c. */
module FsckRead {
  import opened Image
  import opened Indirect
  import opened Dirents

  // ---- one record ----

  /** dircheck, on what is left of a directory block: the record is in range, word-aligned and holds
      its name with a NUL; in use, the name has neither NULs nor bytes with the high bit set. */
  predicate Passes(rest: seq<byte>, imax: nat) {
    && |rest| >= DirentSize(0)
    && var ino, reclen, namlen := ReadBe32(rest[0..4]), ReadBe16(rest[4..6]), ReadBe16(rest[6..8]);
    && ino < imax && reclen != 0 && reclen <= |rest| && reclen % 4 == 0 && DirentSize(namlen) <= reclen && namlen <= MAX_NAME
    && (ino == 0 || (Plain(rest[8..8 + namlen]) && rest[8 + namlen] == 0))
  }

  /** A name or a text of bytes 1 to 127. */
  predicate Plain(name: seq<byte>) {
    forall k | 0 <= k < |name| :: 0 < name[k] < 0x80
  }

  method DirCheck(rest: seq<byte>, imax: nat) returns (ok: bool)
    ensures ok <==> Passes(rest, imax)
  {
    if |rest| < DirentSize(0) {
      return false;
    }
    var ino, reclen, namlen := ReadBe32(rest[0..4]), ReadBe16(rest[4..6]), ReadBe16(rest[6..8]);
    if !(ino < imax && reclen != 0 && reclen <= |rest| && reclen % 4 == 0 && DirentSize(namlen) <= reclen && namlen <= MAX_NAME) {
      return false;
    }
    if ino == 0 {
      return true;
    }
    var k := 0;
    while k < namlen
      invariant k <= namlen && Plain(rest[8..8 + k])
    {
      if rest[8 + k] == 0 || rest[8 + k] >= 0x80 {
        assert rest[8..8 + namlen][k] == rest[8 + k];
        return false;
      }
      assert rest[8..8 + k + 1] == rest[8..8 + k] + [rest[8 + k]];
      k := k + 1;
    }
    return rest[8 + namlen] == 0;
  }

  /** A record that passes is one the writer reads the same. */
  lemma PassesHead(rest: seq<byte>, imax: nat)
    requires Passes(rest, imax)
    ensures Head(rest).Some? && Head(rest).value.ino < imax && DirentSize(0) <= Head(rest).value.reclen <= |rest|
  {
  }

  /** Which of the writer's records pass. */
  lemma PassesIs(rest: seq<byte>, imax: nat)
    requires Head(rest).Some? && Head(rest).value.ino < imax
    ensures var r := Head(rest).value; Passes(rest, imax) <==> InForm(rest, r) && (r.ino != 0 ==> Plain(r.name))
  {
  }

  // ---- a block and a directory ----

  /** What is read of the rest of a block whose first record passes: where a record does not, the one
      before it takes all that is left. */
  ghost function ReadRest(rest: seq<byte>, imax: nat): seq<Dirent>
    requires Passes(rest, imax)
    decreases |rest|
  {
    PassesHead(rest, imax);
    var r := Head(rest).value;
    var next := rest[r.reclen..];
    if next == [] then [r]
    else if !Passes(next, imax) then [r.(reclen := |rest|)]
    else [r] + ReadRest(next, imax)
  }

  /** A block whose very first record does not pass is read as free. */
  ghost function ReadBlock(blk: seq<byte>, imax: nat): seq<Dirent> {
    if Passes(blk, imax) then ReadRest(blk, imax) else [Dirent(0, DIRBLKSIZ, [])]
  }

  ghost function ReadAll(f: seq<byte>, imax: nat): seq<Dirent>
    decreases |f|
  {
    if |f| < DIRBLKSIZ then [] else ReadBlock(f[..DIRBLKSIZ], imax) + ReadAll(f[DIRBLKSIZ..], imax)
  }

  /** Every record of the rest of a block passes. */
  ghost predicate AllPass(rest: seq<byte>, imax: nat)
    decreases |rest|
  {
    rest == [] || (Passes(rest, imax) && (PassesHead(rest, imax); AllPass(rest[Head(rest).value.reclen..], imax)))
  }

  ghost predicate Legible(f: seq<byte>, imax: nat)
    decreases |f|
  {
    |f| < DIRBLKSIZ || (AllPass(f[..DIRBLKSIZ], imax) && Legible(f[DIRBLKSIZ..], imax))
  }

  // ---- when it reads what the writer reads ----

  lemma {:induction false} RestIsRecords(rest: seq<byte>, imax: nat)
    requires Tiled(rest) && Passes(rest, imax)
    ensures ReadRest(rest, imax) == Records(rest) <==> AllPass(rest, imax)
    decreases |rest|
  {
    hide ReadDirent, Passes;
    PassesHead(rest, imax);
    var r := Head(rest).value;
    var next := rest[r.reclen..];
    if next == [] {
      EmptyRecords(next);
    } else if Passes(next, imax) {
      RestIsRecords(next, imax);
      assert ReadRest(rest, imax)[1..] == ReadRest(next, imax) && Records(rest)[1..] == Records(next);
    } else {
      assert Records(rest)[0] == r && ReadRest(rest, imax)[0] != r;
    }
  }

  lemma BlockIsRecords(blk: seq<byte>, imax: nat)
    requires Tiled(blk) && |blk| == DIRBLKSIZ && imax > 0
    ensures ReadBlock(blk, imax) == Records(blk) <==> AllPass(blk, imax)
  {
    hide ReadDirent;
    if Passes(blk, imax) {
      RestIsRecords(blk, imax);
    } else if Records(blk) == [Dirent(0, DIRBLKSIZ, [])] {
      assert Records(blk)[0] == Head(blk).value;
      PassesIs(blk, imax);
    }
  }

  lemma {:induction false} SizeOfRest(rest: seq<byte>, imax: nat)
    requires Passes(rest, imax)
    ensures SizeOf(ReadRest(rest, imax)) == |rest| && ReadRest(rest, imax) != []
    decreases |rest|
  {
    hide ReadDirent, Passes;
    PassesHead(rest, imax);
    var r := Head(rest).value;
    var next := rest[r.reclen..];
    if next == [] {
      SizeOfOne(r);
    } else if Passes(next, imax) {
      SizeOfRest(next, imax);
      SizeOfOne(r);
      SizeOfConcat([r], ReadRest(next, imax));
    } else {
      SizeOfOne(r.(reclen := |rest|));
    }
  }

  /** Sequences of records of one size, one behind the other, differ if their parts do. */
  lemma {:induction false} PartsDiffer(a: seq<Dirent>, x: seq<Dirent>, b: seq<Dirent>, y: seq<Dirent>)
    requires SizeOf(a) == SizeOf(b) && a + x == b + y
    requires (forall r | r in a :: r.reclen > 0) && forall r | r in b :: r.reclen > 0
    ensures a == b && x == y
    decreases |a|
  {
    PositiveSize(a);
    PositiveSize(b);
    if a == [] {
      assert a + x == x && b + y == y;
    } else {
      assert (a + x)[0] == a[0] && (b + y)[0] == b[0];
      assert (a + x)[1..] == a[1..] + x && (b + y)[1..] == b[1..] + y;
      PartsDiffer(a[1..], x, b[1..], y);
      assert a == [a[0]] + a[1..] && b == [b[0]] + b[1..];
    }
  }

  lemma PositiveSize(rs: seq<Dirent>)
    requires forall r | r in rs :: r.reclen > 0
    ensures rs != [] ==> SizeOf(rs) > 0
  {
    assert rs != [] ==> rs[0] in rs;
  }

  /** A directory of the writer's is read as it is if and only if every record passes. */
  lemma {:induction false} ReadIsRecords(f: seq<byte>, imax: nat)
    requires DirTiled(f) && imax > 0
    ensures ReadAll(f, imax) == Records(f) <==> Legible(f, imax)
    decreases |f|
  {
    hide ReadDirent, Tiled, Records, ReadBlock, AllPass;
    if f == [] {
      EmptyRecords(f);
    } else {
      var blk, rest := f[..DIRBLKSIZ], f[DIRBLKSIZ..];
      assert f == blk + rest;
      TiledConcat(blk, rest);
      BlockIsRecords(blk, imax);
      ReadIsRecords(rest, imax);
      if ReadAll(f, imax) == Records(f) {
        BlockSizes(blk, imax);
        PartsDiffer(ReadBlock(blk, imax), ReadAll(rest, imax), Records(blk), Records(rest));
      }
    }
  }

  lemma BlockSizes(blk: seq<byte>, imax: nat)
    requires Tiled(blk) && |blk| == DIRBLKSIZ
    ensures SizeOf(ReadBlock(blk, imax)) == DIRBLKSIZ == SizeOf(Records(blk))
    ensures forall r | r in ReadBlock(blk, imax) :: r.reclen > 0
    ensures forall r | r in Records(blk) :: r.reclen > 0
  {
    hide ReadDirent, Tiled, Records, ReadRest;
    SizeOfRecords(blk);
    RecordsFit(blk);
    if Passes(blk, imax) {
      SizeOfRest(blk, imax);
      RestPositive(blk, imax);
    } else {
      SizeOfOne(Dirent(0, DIRBLKSIZ, []));
    }
  }

  lemma {:induction false} RestPositive(rest: seq<byte>, imax: nat)
    requires Passes(rest, imax)
    ensures forall r | r in ReadRest(rest, imax) :: r.reclen > 0
    decreases |rest|
  {
    hide ReadDirent, Passes;
    PassesHead(rest, imax);
    var next := rest[Head(rest).value.reclen..];
    if next != [] && Passes(next, imax) {
      RestPositive(next, imax);
    }
  }

  // ---- what that means for the bytes ----

  ghost predicate NamesPlain(es: seq<Entry>) {
    forall e | e in es :: Plain(e.name)
  }

  lemma {:induction false} AllPassIs(rest: seq<byte>, imax: nat)
    requires Tiled(rest) && imax > 0 && forall e | e in Listing(rest) :: e.ino < imax
    ensures AllPass(rest, imax) <==> Kempt(rest) && NamesPlain(Listing(rest))
    decreases |rest|
  {
    hide ReadDirent, Passes, Plain, InForm;
    if rest == [] {
      EmptyRecords(rest);
    } else {
      var r := Head(rest).value;
      var next := rest[r.reclen..];
      SplitHead(rest);
      ListConcat([r], Records(next));
      ListOne(r);
      assert forall e :: e in Listing(rest) <==> e in List([r]) || e in Listing(next);
      assert r.ino < imax by {
        if r.ino != 0 { assert Entry(r.name, r.ino) in Listing(rest); }
      }
      PassesIs(rest, imax);
      AllPassIs(next, imax);
    }
  }

  /** For a directory that names inodes of the table only: every record passes if and only if all are
      in good form and every name listed is of bytes 1 to 127. */
  lemma {:induction false} LegibleIs(f: seq<byte>, imax: nat)
    requires DirTiled(f) && imax > 0 && forall e | e in Listing(f) :: e.ino < imax
    ensures Legible(f, imax) <==> Kempt(f) && NamesPlain(Listing(f))
    decreases |f|
  {
    hide ReadDirent, Tiled, Records, AllPass, Kempt, Plain, List;
    if f == [] {
      EmptyRecords(f);
      KemptEmpty();
      ListUnused([]);
    } else {
      var blk, rest := f[..DIRBLKSIZ], f[DIRBLKSIZ..];
      assert f == blk + rest;
      TiledConcat(blk, rest);
      KemptConcat(blk, rest);
      ListConcat(Records(blk), Records(rest));
      assert forall e :: e in Listing(f) <==> e in Listing(blk) || e in Listing(rest);
      AllPassIs(blk, imax);
      LegibleIs(rest, imax);
    }
  }

  // ---- what is read of a directory in any case ----

  /** A record in use that is read is one the writer lists, its name in bytes 1 to 127. */
  ghost predicate Genuine(rs: seq<Dirent>, es: seq<Entry>) {
    forall r | r in rs && r.ino != 0 :: Entry(r.name, r.ino) in es && Plain(r.name)
  }

  lemma {:induction false} RestGenuine(rest: seq<byte>, imax: nat)
    requires Tiled(rest) && Passes(rest, imax)
    ensures Genuine(ReadRest(rest, imax), Listing(rest))
    decreases |rest|
  {
    hide ReadDirent, Passes, Plain, List;
    PassesHead(rest, imax);
    var r := Head(rest).value;
    PassesIs(rest, imax);
    SplitHead(rest);
    var next := rest[r.reclen..];
    ListConcat([r], Records(next));
    ListOne(r);
    assert forall e :: e in Listing(rest) <==> e in List([r]) || e in Listing(next);
    if next != [] && Passes(next, imax) {
      RestGenuine(next, imax);
    }
  }

  lemma {:induction false} ReadGenuine(f: seq<byte>, imax: nat)
    requires DirTiled(f)
    ensures Genuine(ReadAll(f, imax), Listing(f))
    decreases |f|
  {
    hide ReadDirent, Passes, Plain, List, Tiled, Records, ReadRest;
    if f != [] {
      var blk, rest := f[..DIRBLKSIZ], f[DIRBLKSIZ..];
      assert f == blk + rest;
      TiledConcat(blk, rest);
      ListConcat(Records(blk), Records(rest));
      assert forall e :: e in Listing(f) <==> e in Listing(blk) || e in Listing(rest);
      if Passes(blk, imax) {
        RestGenuine(blk, imax);
      }
      ReadGenuine(rest, imax);
    }
  }

  /** The dots of a directory in good form are read, whatever follows. */
  lemma DotsPass(f: seq<byte>, self: nat, imax: nat)
    requires DirTiled(f) && Kempt(f) && DotsIn(Records(f), self).Some? && forall e | e in Listing(f) :: e.ino < imax
    ensures var rs := ReadAll(f, imax);
            && |rs| >= 2 && rs[0] == Records(f)[0] && rs[1] == Records(f)[1].(reclen := rs[1].reclen)
  {
    hide ReadDirent, Passes, Tiled, DirTiled, Records, List, Kempt;
    AtFirst(f, self);
    SplitDir(f);
    var blk := f[..DIRBLKSIZ];
    assert f == blk + f[DIRBLKSIZ..];
    TiledConcat(blk, f[DIRBLKSIZ..]);
    KemptConcat(blk, f[DIRBLKSIZ..]);
    ListConcat(Records(blk), Records(f[DIRBLKSIZ..]));
    assert forall e :: e in Listing(blk) ==> e in Listing(f);
    SecondRead(blk, imax);
  }

  lemma SecondRead(blk: seq<byte>, imax: nat)
    requires Tiled(blk) && blk != [] && Kempt(blk) && Head(blk).Some? && Head(blk).value.reclen < |blk| == DIRBLKSIZ
    requires Head(blk).value.name == DOT && Head(blk).value.ino != 0
    requires |Records(blk)| >= 2 ==> Records(blk)[1].name == DOTDOT && Records(blk)[1].ino != 0
    requires forall e | e in Listing(blk) :: e.ino < imax
    ensures var rs := ReadBlock(blk, imax);
            && |rs| >= 2 && |Records(blk)| >= 2 && rs[0] == Records(blk)[0] && rs[1] == Records(blk)[1].(reclen := rs[1].reclen)
  {
    hide ReadDirent, Passes, List, Records, Tiled, Kempt, ReadRest, ReadBlock;
    var r := Head(blk).value;
    SplitHead(blk);
    var next := blk[r.reclen..];
    SplitHead(next);
    NextHead(next);
    var q := Head(next).value;
    assert Records(blk) == [r] + Records(next) && Records(next) == [q] + Records(next[q.reclen..]);
    ListConcat([r], Records(next));
    ListOne(r);
    ListConcat([q], Records(next[q.reclen..]));
    ListOne(q);
    assert Entry(r.name, r.ino) in Listing(blk) && Entry(q.name, q.ino) in Listing(blk);
    KemptHead(blk);
    KemptHead(next);
    PassesIs(blk, imax);
    PassesIs(next, imax);
    TwoRead(blk, imax);
  }

  lemma NextHead(next: seq<byte>)
    requires Tiled(next) && next != []
    ensures Head(next).Some? && Head(next).value.Fits()
  {
  }

  lemma KemptHead(buf: seq<byte>)
    requires Kempt(buf) && buf != []
    ensures Head(buf).Some? && InForm(buf, Head(buf).value) && Kempt(buf[Head(buf).value.reclen..])
  {
    hide ReadDirent, InForm;
  }

  lemma TwoRead(blk: seq<byte>, imax: nat)
    requires Passes(blk, imax) && Head(blk).Some? && Head(blk).value.reclen < |blk|
    requires var next := blk[Head(blk).value.reclen..]; Passes(next, imax) && Head(next).Some?
    ensures var rs := ReadBlock(blk, imax); var q := Head(blk[Head(blk).value.reclen..]).value;
            |rs| >= 2 && rs[0] == Head(blk).value && rs[1] == q.(reclen := rs[1].reclen)
  {
    hide ReadDirent, Passes;
    var next := blk[Head(blk).value.reclen..];
    FirstRead(next, imax);
    assert ReadRest(blk, imax) == [Head(blk).value] + ReadRest(next, imax);
  }

  lemma FirstRead(rest: seq<byte>, imax: nat)
    requires Passes(rest, imax) && Head(rest).Some?
    ensures var rs := ReadRest(rest, imax); rs != [] && rs[0] == Head(rest).value.(reclen := rs[0].reclen)
  {
    hide ReadDirent, Passes;
  }

  // ---- from one position on ----

  /** What is left of the block at a position, and the blocks after it. */
  function RestAt(buf: seq<byte>, loc: nat): seq<byte> {
    var left := DIRBLKSIZ - loc % DIRBLKSIZ;
    if loc + left <= |buf| then buf[loc..loc + left] else []
  }

  ghost function LaterAt(buf: seq<byte>, loc: nat): seq<byte> {
    var left := DIRBLKSIZ - loc % DIRBLKSIZ;
    if loc + left <= |buf| then buf[loc + left..] else []
  }

  /** A scan can stand here: at a block, or at a record that has passed. */
  ghost predicate Stands(buf: seq<byte>, loc: nat, imax: nat) {
    |buf| % DIRBLKSIZ == 0 && loc <= |buf| && (loc % DIRBLKSIZ != 0 ==> Passes(RestAt(buf, loc), imax))
  }

  ghost function Come(buf: seq<byte>, loc: nat, imax: nat): seq<Dirent>
    requires Stands(buf, loc, imax)
  {
    if loc % DIRBLKSIZ == 0 then ReadAll(buf[loc..], imax)
    else ReadRest(RestAt(buf, loc), imax) + ReadAll(LaterAt(buf, loc), imax)
  }

  ghost predicate Good(buf: seq<byte>, loc: nat, imax: nat)
    requires Stands(buf, loc, imax)
  {
    if loc % DIRBLKSIZ == 0 then Legible(buf[loc..], imax)
    else AllPass(RestAt(buf, loc), imax) && Legible(LaterAt(buf, loc), imax)
  }

  lemma AtBlock(buf: seq<byte>, loc: nat, imax: nat)
    requires |buf| % DIRBLKSIZ == 0 && loc % DIRBLKSIZ == 0 && loc < |buf|
    ensures |RestAt(buf, loc)| == DIRBLKSIZ && loc + DIRBLKSIZ <= |buf| && LaterAt(buf, loc) == buf[loc + DIRBLKSIZ..]
    ensures ReadAll(buf[loc..], imax) == ReadBlock(RestAt(buf, loc), imax) + ReadAll(LaterAt(buf, loc), imax)
    ensures Legible(buf[loc..], imax) <==> AllPass(RestAt(buf, loc), imax) && Legible(LaterAt(buf, loc), imax)
  {
    hide Passes, ReadBlock, AllPass;
    assert buf[loc..][..DIRBLKSIZ] == RestAt(buf, loc) && buf[loc..][DIRBLKSIZ..] == LaterAt(buf, loc);
  }

  /** The first record of a block does not pass. */
  lemma SkipsBlock(buf: seq<byte>, loc: nat, imax: nat)
    requires Stands(buf, loc, imax) && loc % DIRBLKSIZ == 0 && loc < |buf| && !Passes(RestAt(buf, loc), imax)
    ensures Stands(buf, loc + DIRBLKSIZ, imax) && !Good(buf, loc, imax)
    ensures Come(buf, loc, imax) == [Dirent(0, DIRBLKSIZ, [])] + Come(buf, loc + DIRBLKSIZ, imax)
  {
    hide Passes, ReadRest;
    AtBlock(buf, loc, imax);
    assert AllPass(RestAt(buf, loc), imax) ==> RestAt(buf, loc) == [];
  }

  /** Where the record at the position ends, and what is left of its block there. */
  lemma NextRest(buf: seq<byte>, loc: nat, n: nat)
    requires |buf| % DIRBLKSIZ == 0 && loc < |buf| && 0 < n <= |RestAt(buf, loc)|
    ensures |RestAt(buf, loc)| == DIRBLKSIZ - loc % DIRBLKSIZ && loc + |RestAt(buf, loc)| <= |buf|
    ensures (loc + n) % DIRBLKSIZ == 0 <==> n == |RestAt(buf, loc)|
    ensures n < |RestAt(buf, loc)| ==> RestAt(buf, loc + n) == RestAt(buf, loc)[n..] && LaterAt(buf, loc + n) == LaterAt(buf, loc)
    ensures n == |RestAt(buf, loc)| ==> buf[loc + n..] == LaterAt(buf, loc) && RestAt(buf, loc)[n..] == []
  {
    assert (loc + n) % DIRBLKSIZ == if loc % DIRBLKSIZ + n == DIRBLKSIZ then 0 else loc % DIRBLKSIZ + n;
  }

  lemma InsideBlock(buf: seq<byte>, loc: nat, imax: nat)
    requires Stands(buf, loc, imax) && loc < |buf| && Passes(RestAt(buf, loc), imax)
    ensures Come(buf, loc, imax) == ReadRest(RestAt(buf, loc), imax) + ReadAll(LaterAt(buf, loc), imax)
    ensures Good(buf, loc, imax) <==> AllPass(RestAt(buf, loc), imax) && Legible(LaterAt(buf, loc), imax)
  {
    hide Passes, ReadRest, AllPass;
    if loc % DIRBLKSIZ == 0 {
      AtBlock(buf, loc, imax);
    }
  }

  /** The first record of the rest of a block, and what comes after it. */
  lemma RestStep(rest: seq<byte>, imax: nat)
    requires Passes(rest, imax)
    ensures Head(rest).Some? && 0 < Head(rest).value.reclen <= |rest|
    ensures var r := Head(rest).value;
            var next := rest[r.reclen..];
            && (next == [] ==> ReadRest(rest, imax) == [r] && AllPass(rest, imax))
            && (Passes(next, imax) ==> ReadRest(rest, imax) == [r] + ReadRest(next, imax) && (AllPass(rest, imax) <==> AllPass(next, imax)))
            && (next != [] && !Passes(next, imax) ==> ReadRest(rest, imax) == [r.(reclen := |rest|)] && !AllPass(rest, imax))
  {
    hide ReadDirent, Passes;
    PassesHead(rest, imax);
    PassesSome(rest[Head(rest).value.reclen..], imax);
  }

  lemma PassesSome(rest: seq<byte>, imax: nat)
    ensures Passes(rest, imax) ==> rest != []
  {
  }

  /** The record at the position is read, with what does not pass behind it. */
  lemma TakesRecord(buf: seq<byte>, loc: nat, imax: nat)
    requires Stands(buf, loc, imax) && loc < |buf| && Passes(RestAt(buf, loc), imax)
    ensures Head(RestAt(buf, loc)).Some?
    ensures var rest := RestAt(buf, loc);
            var r := Head(rest).value;
            var now, end := loc + r.reclen, loc + |rest|;
            && 0 < r.reclen <= |rest| <= DIRBLKSIZ && end <= |buf| && end % DIRBLKSIZ == 0
            && if now % DIRBLKSIZ == 0 || Passes(RestAt(buf, now), imax) then
                 && Stands(buf, now, imax) && Come(buf, loc, imax) == [r] + Come(buf, now, imax)
                 && (Good(buf, loc, imax) <==> Good(buf, now, imax))
               else
                 && Stands(buf, end, imax) && Come(buf, loc, imax) == [r.(reclen := |rest|)] + Come(buf, end, imax)
                 && !Good(buf, loc, imax) && now < end && end - now == DIRBLKSIZ - now % DIRBLKSIZ
  {
    hide ReadDirent, Passes, ReadRest, AllPass, Stands, Come, Good, RestAt, LaterAt;
    StandsInside(buf, loc, imax);
    var rest := RestAt(buf, loc);
    RestStep(rest, imax);
    var r := Head(rest).value;
    var now, end := loc + r.reclen, loc + |rest|;
    NextRest(buf, loc, r.reclen);
    NextRest(buf, loc, |rest|);
    InsideBlock(buf, loc, imax);
    AtEnd(buf, end, imax);
    if r.reclen < |rest| {
      assert now % DIRBLKSIZ == loc % DIRBLKSIZ + r.reclen;
      if Passes(rest[r.reclen..], imax) {
        StandsAt(buf, now, imax);
        InsideBlock(buf, now, imax);
      }
    } else {
      assert rest[r.reclen..] == [];
    }
  }

  /** At the start of a block. */
  lemma AtEnd(buf: seq<byte>, end: nat, imax: nat)
    requires |buf| % DIRBLKSIZ == 0 && end % DIRBLKSIZ == 0 && end <= |buf|
    ensures Stands(buf, end, imax) && Come(buf, end, imax) == ReadAll(buf[end..], imax) && (Good(buf, end, imax) <==> Legible(buf[end..], imax))
  {
    hide Passes;
  }

  lemma StandsAt(buf: seq<byte>, now: nat, imax: nat)
    requires |buf| % DIRBLKSIZ == 0 && now <= |buf| && Passes(RestAt(buf, now), imax)
    ensures Stands(buf, now, imax)
  {
    hide Passes, RestAt;
  }

  /** What is written behind the position does not matter. */
  lemma Unread(buf: seq<byte>, now: seq<byte>, loc: nat, imax: nat)
    requires Stands(buf, loc, imax) && |now| == |buf| && now[loc..] == buf[loc..]
    ensures Stands(now, loc, imax) && Come(now, loc, imax) == Come(buf, loc, imax)
    ensures Good(now, loc, imax) <==> Good(buf, loc, imax)
  {
    hide Passes, ReadRest, AllPass, ReadAll, Legible;
    assert RestAt(now, loc) == RestAt(buf, loc) by {
      var left := DIRBLKSIZ - loc % DIRBLKSIZ;
      if loc + left <= |buf| {
        assert now[loc..][..left] == now[loc..loc + left] && buf[loc..][..left] == buf[loc..loc + left];
      }
    }
    assert LaterAt(now, loc) == LaterAt(buf, loc) by {
      var left := DIRBLKSIZ - loc % DIRBLKSIZ;
      if loc + left <= |buf| {
        assert now[loc..][left..] == now[loc + left..] && buf[loc..][left..] == buf[loc + left..];
      }
    }
  }

  // ---- the reader ----

  /** A free record over a whole block, as far as it is written. */
  function FreeHead(): (bs: seq<byte>)
    ensures |bs| == 9
  {
    WriteBe32(0) + WriteBe16(DIRBLKSIZ) + WriteBe16(0) + [0]
  }

  /** The part of an inodesc the reader works on: the directory's bytes, where it stands in them and
      how many are left, and whether it has corrected any. */
  class DirReader {
    const imax: nat
    var buf: seq<byte>
    var loc: nat
    var filesize: nat
    var altered: bool

    ghost predicate Valid()
      reads this
    {
      Stands(buf, loc, imax) && loc + filesize == |buf|
    }

    constructor (f: seq<byte>, imax: nat)
      requires |f| % DIRBLKSIZ == 0
      ensures Valid() && buf == f && loc == 0 && !altered && this.imax == imax
    {
      this.imax, buf, loc, filesize, altered := imax, f, 0, |f|, false;
    }

    /** fsck_readdir. */
    method Next() returns (r: Option<Dirent>)
      requires Valid()
      modifies this
      ensures Valid() && (r.None? <==> old(filesize) == 0) && (r.None? ==> altered == old(altered) && loc == old(loc) && buf == old(buf))
      ensures r.Some? ==> old(Come(buf, loc, imax)) == [r.value] + Come(buf, loc, imax) && filesize < old(filesize)
      ensures !altered && Good(buf, loc, imax) <==> !old(altered) && old(Good(buf, loc, imax))
    {
      hide ReadDirent, Passes, Stands, Come, Good, RestAt, LaterAt, WriteBe16, FreeHead;
      StandsInside(buf, loc, imax);
      if loc % DIRBLKSIZ == 0 && filesize > 0 {
        var ok := DirCheck(RestAt(buf, loc), imax);
        if !ok {
          SkipsBlock(buf, loc, imax);
          ghost var was := buf;
          StandsInside(buf, loc + DIRBLKSIZ, imax);
          buf := buf[..loc] + FreeHead() + buf[loc + 9..];
          altered := true;
          loc, filesize := loc + DIRBLKSIZ, filesize - DIRBLKSIZ;
          Patched(was, loc - DIRBLKSIZ, FreeHead(), loc);
          Unread(was, buf, loc, imax);
          return Some(Dirent(0, DIRBLKSIZ, []));
        }
      }
      if filesize == 0 {
        return None;
      }
      TakesRecord(buf, loc, imax);
      var dp := Head(RestAt(buf, loc)).value;
      var at := loc;
      loc, filesize := loc + dp.reclen, filesize - dp.reclen;
      if loc % DIRBLKSIZ == 0 {
        return Some(dp);
      }
      var ok := DirCheck(RestAt(buf, loc), imax);
      if filesize > 0 && !ok {
        var size := DIRBLKSIZ - loc % DIRBLKSIZ;
        ghost var was := buf;
        dp := dp.(reclen := dp.reclen + size);
        buf := buf[..at + 4] + WriteBe16(dp.reclen) + buf[at + 6..];
        altered := true;
        loc, filesize := loc + size, filesize - size;
        Patched(was, at + 4, WriteBe16(dp.reclen), loc);
        Unread(was, buf, loc, imax);
      }
      return Some(dp);
    }
  }

  lemma StandsInside(buf: seq<byte>, loc: nat, imax: nat)
    requires Stands(buf, loc, imax)
    ensures |buf| % DIRBLKSIZ == 0 && loc <= |buf| && (loc % DIRBLKSIZ != 0 ==> Passes(RestAt(buf, loc), imax) && loc < |buf|)
  {
    hide Passes;
  }

  lemma Patched(was: seq<byte>, at: nat, w: seq<byte>, loc: nat)
    requires at + |w| <= loc <= |was|
    ensures var now := was[..at] + w + was[at + |w|..]; |now| == |was| && now[loc..] == was[loc..]
  {
  }

  /** dirscan over a whole directory: the records handed on, and whether any was corrected. */
  method ReadDirectory(f: seq<byte>, imax: nat) returns (rs: seq<Dirent>, altered: bool)
    requires |f| % DIRBLKSIZ == 0
    ensures rs == ReadAll(f, imax) && (altered <==> !Legible(f, imax))
  {
    hide Passes, Stands, Come, Good, RestAt, LaterAt;
    Starts(f, imax);
    var d := new DirReader(f, imax);
    rs := [];
    while true
      invariant fresh(d) && d.Valid() && d.imax == imax && rs + Come(d.buf, d.loc, imax) == ReadAll(f, imax)
      invariant !d.altered && Good(d.buf, d.loc, imax) <==> Legible(f, imax)
      decreases d.filesize
    {
      ghost var come := Come(d.buf, d.loc, imax);
      var r := d.Next();
      if r.None? {
        Ends(d.buf, d.loc, imax);
        return rs, d.altered;
      }
      assert rs + come == rs + [r.value] + Come(d.buf, d.loc, imax);
      rs := rs + [r.value];
    }
  }

  lemma Starts(f: seq<byte>, imax: nat)
    requires |f| % DIRBLKSIZ == 0
    ensures Stands(f, 0, imax) && Come(f, 0, imax) == ReadAll(f, imax) && (Good(f, 0, imax) <==> Legible(f, imax))
  {
    assert f[0..] == f;
  }

  lemma Ends(buf: seq<byte>, loc: nat, imax: nat)
    requires Stands(buf, loc, imax) && loc == |buf|
    ensures Come(buf, loc, imax) == [] && Good(buf, loc, imax)
  {
  }
}
