/** fsck on an image the writer left: passes 1, 1b, 2, 4 and 5 find nothing to repair. */
module FsckClean {
  import opened Geometry
  import opened FreeMap
  import opened Image
  import opened Indirect
  import opened Storage
  import opened Mutate
  import opened Tally
  import opened Dirents
  import opened Dirs
  import opened Links
  import opened Tree
  import opened Commands
  import opened FsckClaims
  import opened FsckRead
  import opened FsckWalk
  import FsckTree
  import Grow

  // ---- what pass 2 starts from ----

  /** States, link counts and directory records as pass 1 finds them. */
  ghost function BaseOf(views: seq<View>): (b: FsckTree.Base)
    ensures |b.state| == |b.lncnt| == |b.dirs| == |views|
  {
    FsckTree.Base(seq(|views|, i requires 0 <= i < |views| => KindState(views[i].kind, i)),
                  seq(|views|, i requires 0 <= i < |views| => views[i].nlink),
                  seq(|views|, i requires 0 <= i < |views| => RecordsIn(views[i])))
  }

  ghost function RecordsIn(v: View): seq<Dirent> {
    if v.kind == Directory then Records(v.bytes) else []
  }

  /** A writer's image is one pass 2 can work on. */
  lemma BaseValid(views: seq<View>, depth: seq<nat>)
    requires LinksOk(views) && TreeOk(views, depth)
    ensures BaseOf(views).Valid()
    ensures forall i: nat | i < |views| && IsDirView(views[i]) :: i >= ROOTINO && RecordsIn(views[i]) != [] && BaseOf(views).state[i] == Dir
    ensures forall i: nat | i < |views| && !IsDirView(views[i]) :: RecordsIn(views[i]) == [] && BaseOf(views).state[i] != Dir
  {
    hide DirTiled, Records, Kids, Refs, DirOk, ParentOf, TreeAt;
    forall i: nat | i < |views| && IsDirView(views[i])
      ensures i >= ROOTINO && RecordsIn(views[i]) != [] && BaseOf(views).state[i] == Dir && FsckTree.Dotted(RecordsIn(views[i]))
    {
      assert Dotted(views, i);
    }
  }

  // ---- records and the entries they list ----

  lemma RecordsFitDir(f: seq<byte>)
    requires DirTiled(f)
    ensures forall r | r in Records(f) :: r.Fits()
  {
    hide DirTiled, Tiled, Records;
    DirTiledTiled(f);
    RecordsFit(f);
  }

  /** A record in use is listed, and nothing else. */
  lemma {:induction false} ListedRecord(rs: seq<Dirent>, e: Entry) returns (k: nat)
    requires e in List(rs)
    ensures k < |rs| && rs[k].ino == e.ino != 0 && rs[k].name == e.name
  {
    if rs[0].ino != 0 && rs[0].name != [] && Entry(rs[0].name, rs[0].ino) == e {
      k := 0;
    } else {
      k := ListedRecord(rs[1..], e);
      k := k + 1;
    }
  }

  lemma SplitAt(rs: seq<Dirent>, k: nat)
    requires k < |rs|
    ensures rs == rs[..k] + ([rs[k]] + rs[k + 1..])
  {
  }

  lemma ListParts(a: seq<Dirent>, b: seq<Dirent>, c: seq<Dirent>)
    ensures List(a + (b + c)) == List(a) + (List(b) + List(c))
  {
    hide List;
    ListConcat(a, b + c);
    ListConcat(b, c);
  }

  lemma RecordListed(rs: seq<Dirent>, k: nat)
    requires k < |rs| && rs[k].ino != 0 && rs[k].name != []
    ensures Entry(rs[k].name, rs[k].ino) in List(rs)
    ensures rs[k].name != DOT && rs[k].name != DOTDOT ==> KidsIn(List(rs), rs[k].ino) > 0
  {
    hide List, KidsIn;
    SplitAt(rs, k);
    ListParts(rs[..k], [rs[k]], rs[k + 1..]);
    ListOne(rs[k]);
    if rs[k].name != DOT && rs[k].name != DOTDOT {
      NamedIsKid(List(rs), Entry(rs[k].name, rs[k].ino));
    }
  }

  /** Two names for one inode are two kids. */
  lemma TwoRecords(rs: seq<Dirent>, j: nat, k: nat, t: nat)
    requires j < k < |rs| && rs[j].ino == rs[k].ino == t != 0 && rs[j].Fits() && rs[k].Fits()
    requires rs[j].name != DOT && rs[j].name != DOTDOT && rs[k].name != DOT && rs[k].name != DOTDOT
    ensures KidsIn(List(rs), t) >= 2
  {
    hide List, KidsIn;
    SplitAt(rs, j);
    ListParts(rs[..j], [rs[j]], rs[j + 1..]);
    ListOne(rs[j]);
    KidsConcat(List(rs[..j]), List([rs[j]]) + List(rs[j + 1..]), t);
    KidsConcat(List([rs[j]]), List(rs[j + 1..]), t);
    KidsOne(Entry(rs[j].name, t), t);
    assert rs[j + 1..][k - j - 1] == rs[k];
    RecordListed(rs[j + 1..], k - j - 1);
  }

  lemma {:induction false} KidEntry(es: seq<Entry>, t: nat) returns (e: Entry)
    requires KidsIn(es, t) > 0
    ensures e in es && e.ino == t && e.name != DOT && e.name != DOTDOT
  {
    if es[0].ino == t && es[0].name != DOT && es[0].name != DOTDOT {
      e := es[0];
    } else {
      e := KidEntry(es[1..], t);
    }
  }

  /** The bag of a directory's records counts as its listing does. */
  lemma {:induction false} BagIsCount(rs: seq<Dirent>, t: nat)
    requires t != 0 && forall r | r in rs :: r.Fits()
    ensures FsckTree.Bag(rs)[t] == Count(List(rs), t)
    decreases |rs|
  {
    hide List;
    if rs == [] {
      assert List(rs) == [] by { EmptyList(); }
    } else {
      var a, r := rs[..|rs| - 1], rs[|rs| - 1];
      assert rs == a + [r] && r in rs;
      BagIsCount(a, t);
      ListConcat(a, [r]);
      ListOne(r);
      CountConcat(List(a), List([r]), t);
      if r.ino != 0 { CountOne(Entry(r.name, r.ino), t); }
    }
  }

  lemma EmptyList()
    ensures List([]) == []
  {
  }

  // ---- every directory is reached ----

  /** A record past the dots that names t. */
  ghost predicate Names(views: seq<View>, i: nat, k: nat, t: nat)
    requires i < |views|
  {
    && IsDirView(views[i]) && 2 <= k < |RecordsIn(views[i])|
    && RecordsIn(views[i])[k].ino == t != 0 && RecordsIn(views[i])[k].name != DOT && RecordsIn(views[i])[k].name != DOTDOT
  }

  /** The directory ".." leads to has a record for this one. */
  lemma ParentNames(views: seq<View>, depth: seq<nat>, d: nat) returns (p: nat, k: nat)
    requires TreeOk(views, depth) && d < |views| && IsDirView(views[d]) && d != ROOTINO
    ensures p < |views| && Names(views, p, k, d) && ParentOf(views, d) == Some(p) && |depth| == |views| && depth[p] < depth[d]
  {
    hide DirTiled, Records, KidsIn, ParentOf, List, DotsIn;
    assert ParentOf(views, d).Some?;
    ParentInside(views, d);
    p := ParentOf(views, d).value;
    assert IsDirView(views[p]) && Hung(views, p, d) && Dotted(views, p);
    var e := KidEntry(Listing(views[p].bytes), d);
    k := ListedRecord(RecordsIn(views[p]), e);
    PastDots(RecordsIn(views[p]), p, k);
  }

  lemma PastDots(rs: seq<Dirent>, self: nat, k: nat)
    requires DotsIn(rs, self).Some? && k < |rs| && rs[k].name != DOT && rs[k].name != DOTDOT
    ensures k >= 2
  {
  }

  lemma NamesIsEdge(views: seq<View>, i: nat, k: nat, t: nat)
    requires i < |views| && t < |views| && Names(views, i, k, t) && IsDirView(views[t]) && t >= ROOTINO
    ensures FsckTree.Edge(BaseOf(views), i, t)
  {
    hide Records;
    assert FsckTree.Follows(BaseOf(views), BaseOf(views).dirs[i][k]);
  }

  lemma {:induction false} DirReached(views: seq<View>, depth: seq<nat>, d: nat)
    requires LinksOk(views) && TreeOk(views, depth) && d < |views| && IsDirView(views[d])
    ensures FsckTree.Reach(BaseOf(views), d)
    decreases if |depth| == |views| then depth[d] else 0
  {
    hide DirTiled, Records, Kids, ParentOf, DotsIn, Refs, DirOk, FsckTree.Edge, FsckTree.Reach;
    if d == ROOTINO {
      FsckTree.ReachRoot(BaseOf(views));
    } else {
      var p, k := ParentNames(views, depth, d);
      DirReached(views, depth, p);
      BaseValid(views, depth);
      NamesIsEdge(views, p, k, d);
      FsckTree.ReachStep(BaseOf(views), p, d);
    }
  }

  // ---- every record is kept ----

  /** A name past the dots in directory i makes i the parent. */
  lemma NamedByParent(views: seq<View>, depth: seq<nat>, i: nat, k: nat, t: nat)
    requires TreeOk(views, depth) && i < |views| && t < |views| && Names(views, i, k, t) && IsDirView(views[t])
    ensures t != ROOTINO && ParentOf(views, t) == Some(i)
    ensures forall j: nat | Names(views, i, j, t) :: j == k
  {
    hide DirTiled, Records, KidsIn, ParentOf, List, DotsIn, TreeAt;
    var rs := RecordsIn(views[i]);
    assert Hung(views, i, t) && Dotted(views, i);
    RecordsFitDir(views[i].bytes);
    assert rs[k] in rs;
    RecordListed(rs, k);
    forall j: nat | Names(views, i, j, t) ensures j == k {
      assert rs[j] in rs;
      if j < k {
        TwoRecords(rs, j, k, t);
      } else if k < j {
        TwoRecords(rs, k, j, t);
      }
    }
  }

  /** A record in use past the dots has a name of its own and names an inode in use. */
  lemma RecordLive(views: seq<View>, depth: seq<nat>, i: nat, k: nat)
    requires LinksOk(views) && TreeOk(views, depth) && i < |views| && IsDirView(views[i]) && 2 <= k < |RecordsIn(views[i])|
    requires RecordsIn(views[i])[k].ino != 0
    ensures var t := RecordsIn(views[i])[k].ino;
            && Names(views, i, k, t) && ROOTINO <= t < |views| && views[t].kind != Unused
            && BaseOf(views).state[t] == if IsDirView(views[t]) then Dir else File
  {
    hide DirTiled, Records, Kids, ParentOf, List, DotsIn, TreeAt, FirstNamed;
    var rs := RecordsIn(views[i]);
    assert Dotted(views, i) && DirOk(views[i].bytes, i, |views|);
    RecordsFitDir(views[i].bytes);
    assert rs[k] in rs;
    NoLaterDots(rs, i, k);
    RecordListed(rs, k);
    CountPositive(Listing(views[i].bytes), Entry(rs[k].name, rs[k].ino));
    NamedIsReferenced(views, i, rs[k].ino);
  }

  /** Names are distinct, so the dots do not come again. */
  lemma {:induction false} NoLaterDots(rs: seq<Dirent>, self: nat, k: nat)
    requires DotsIn(rs, self).Some? && Distinct(List(rs)) && 2 <= k < |rs| && rs[k].ino != 0 && rs[k].Fits()
    ensures rs[k].name != DOT && rs[k].name != DOTDOT
  {
    hide List;
    DotsListed(rs, self);
    assert rs[2..][k - 2] == rs[k];
    SplitAt(rs[2..], k - 2);
    ListParts(rs[2..][..k - 2], [rs[k]], rs[2..][k - 1..]);
    ListOne(rs[k]);
    var es, e := List(rs), Entry(rs[k].name, rs[k].ino);
    var n := 2 + |List(rs[2..][..k - 2])|;
    assert es[n] == e && es[0].name == DOT && es[1].name == DOTDOT;
  }

  /** Pass 2 has run on a writer's image. */
  ghost predicate Ran(views: seq<View>, depth: seq<nat>, s: FsckTree.Snap) {
    && LinksOk(views) && TreeOk(views, depth)
    && FsckTree.Inv(BaseOf(views), s) && FsckTree.Done(BaseOf(views), s) && s.par[ROOTINO] == ROOTINO
    && forall i: nat | i < |views| && IsDirView(views[i]) :: s.state[i] == DirFound
  }

  lemma RanSized(views: seq<View>, depth: seq<nat>, s: FsckTree.Snap)
    requires Ran(views, depth, s)
    ensures FsckTree.Sized(BaseOf(views), s) && |s.state| == |s.dirs| == |s.par| == |s.birth| == |s.pos| == |views|
    ensures forall i: nat | i < |views| && IsDirView(views[i]) :: s.pos[i] == |s.dirs[i]| == |RecordsIn(views[i])|
    ensures forall i: nat, k: nat | i < |views| && IsDirView(views[i]) && k < |s.dirs[i]| :: FsckTree.Settled(BaseOf(views), s, i, k)
    ensures forall i: nat | i < |views| && !IsDirView(views[i]) :: s.state[i] == BaseOf(views).state[i]
  {
    hide LinksOk, TreeOk, FsckTree.Settled, FsckTree.Counted, FsckTree.NamedOnce, FsckTree.Reach, Records;
    forall i: nat | i < |views| && !IsDirView(views[i]) ensures s.state[i] == BaseOf(views).state[i] {
      assert FsckTree.StateOk(BaseOf(views), s, i);
    }
  }

  /** A kept record past the dots is the one the image had. */
  lemma KeptRecord(views: seq<View>, depth: seq<nat>, s: FsckTree.Snap, i: nat, k: nat)
    requires Ran(views, depth, s) && i < |views| && IsDirView(views[i]) && |s.dirs| == |views| && 2 <= k < |s.dirs[i]|
    requires s.dirs[i][k].ino != 0
    ensures k < |RecordsIn(views[i])| && s.dirs[i][k] == RecordsIn(views[i])[k] && Names(views, i, k, s.dirs[i][k].ino)
  {
    hide LinksOk, TreeOk, FsckTree.Inv, FsckTree.Done, Records;
    RanSized(views, depth, s);
    assert FsckTree.Settled(BaseOf(views), s, i, k);
  }

  /** The directory a found directory was entered from is its parent. */
  lemma EnteredFromParent(views: seq<View>, depth: seq<nat>, s: FsckTree.Snap, t: nat) returns (k: nat)
    requires Ran(views, depth, s) && t < |views| && IsDirView(views[t]) && t != ROOTINO && |s.par| == |s.dirs| == |views|
    ensures s.par[t] < |views| && ParentOf(views, t) == Some(s.par[t]) && IsDirView(views[s.par[t]])
    ensures k < |s.dirs[s.par[t]]| && s.dirs[s.par[t]][k].ino == t && Names(views, s.par[t], k, t)
  {
    hide LinksOk, TreeOk, FsckTree.Inv, FsckTree.Done, Records, ParentOf;
    RanSized(views, depth, s);
    FsckTree.FoundHangs(BaseOf(views), s, t);
    var p := s.par[t];
    OnlyDirsFound(views, depth, s, p);
    k :| 2 <= k < |s.dirs[p]| && s.dirs[p][k].ino == t;
    NotZero(views, depth, t);
    KeptRecord(views, depth, s, p, k);
    NamedByParent(views, depth, p, k, t);
  }

  lemma OnlyDirsFound(views: seq<View>, depth: seq<nat>, s: FsckTree.Snap, p: nat)
    requires Ran(views, depth, s) && p < |views| == |s.state| && s.state[p] == DirFound
    ensures IsDirView(views[p])
  {
    hide LinksOk, TreeOk, FsckTree.Inv, FsckTree.Done, Records;
    RanSized(views, depth, s);
  }

  lemma NotZero(views: seq<View>, depth: seq<nat>, t: nat)
    requires LinksOk(views) && t < |views| && views[t].kind != Unused
    ensures t >= ROOTINO
  {
    hide DirOk, Refs;
  }

  lemma FirstTwoKept(views: seq<View>, depth: seq<nat>, s: FsckTree.Snap, i: nat, k: nat)
    requires Ran(views, depth, s) && i < |views| == |s.dirs| && IsDirView(views[i]) && k < |s.dirs[i]| == |RecordsIn(views[i])| && k < 2
    ensures s.dirs[i][k] == RecordsIn(views[i])[k]
  {
    hide LinksOk, FsckTree.Inv, FsckTree.Done, Records, ParentOf, Kids, TreeAt, DirTiled;
    RanSized(views, depth, s);
    assert FsckTree.Settled(BaseOf(views), s, i, k) && Dotted(views, i);
    if k == 1 && i != ROOTINO {
      var j := EnteredFromParent(views, depth, s, i);
      ParentIsDots(views, i);
    }
  }

  lemma LaterKept(views: seq<View>, depth: seq<nat>, s: FsckTree.Snap, i: nat, k: nat)
    requires Ran(views, depth, s) && i < |views| == |s.dirs| && IsDirView(views[i]) && 2 <= k < |s.dirs[i]| == |RecordsIn(views[i])|
    ensures s.dirs[i][k] == RecordsIn(views[i])[k]
  {
    hide LinksOk, TreeOk, FsckTree.Inv, FsckTree.Done, Records, ParentOf;
    RanSized(views, depth, s);
    var b := BaseOf(views);
    assert FsckTree.Settled(b, s, i, k);
    var e, t := RecordsIn(views[i])[k], RecordsIn(views[i])[k].ino;
    if s.dirs[i][k].ino == 0 && t != 0 {
      RecordLive(views, depth, i, k);
      if IsDirView(views[t]) {
        NamedByParent(views, depth, i, k, t);
        var j := EnteredFromParent(views, depth, s, t);
        assert false;
      } else {
        assert false;
      }
    } else if s.dirs[i][k].ino != 0 {
      KeptRecord(views, depth, s, i, k);
    }
  }

  /** Pass 2 changes no record of a writer's image. */
  lemma NothingChanged(views: seq<View>, depth: seq<nat>, s: FsckTree.Snap)
    requires Ran(views, depth, s)
    ensures s.dirs == BaseOf(views).dirs
  {
    hide LinksOk, TreeOk, FsckTree.Inv, FsckTree.Done, Records, FsckTree.Settled;
    RanSized(views, depth, s);
    BaseValid(views, depth);
    forall i: nat | i < |views| ensures s.dirs[i] == BaseOf(views).dirs[i] {
      if IsDirView(views[i]) {
        forall k: nat | k < |s.dirs[i]| ensures s.dirs[i][k] == RecordsIn(views[i])[k] {
          if k < 2 {
            FirstTwoKept(views, depth, s, i, k);
          } else {
            LaterKept(views, depth, s, i, k);
          }
        }
      }
    }
  }

  // ---- the counts come down to nothing ----

  lemma {:induction false} KeptAreRefs(views: seq<View>, state: seq<State>, n: nat, t: nat)
    requires n <= |views| == |state| && t != 0
    requires forall i: nat | i < |views| :: (state[i] == DirFound <==> IsDirView(views[i])) && (IsDirView(views[i]) ==> DirTiled(views[i].bytes))
    ensures FsckTree.KeptNames(state, BaseOf(views).dirs, 0, n)[t] == Refs(views[..n], t)
  {
    hide Records, FsckTree.Bag, DirTiled, List;
    if n > 0 {
      KeptAreRefs(views, state, n - 1, t);
      assert views[..n][..n - 1] == views[..n - 1] && views[..n][n - 1] == views[n - 1];
      if IsDirView(views[n - 1]) {
        RecordsFitDir(views[n - 1].bytes);
        BagIsCount(Records(views[n - 1].bytes), t);
        assert BaseOf(views).dirs[n - 1][0..] == Records(views[n - 1].bytes);
      }
    }
  }

  /** After pass 2 every count is down to zero. */
  lemma CountedDown(views: seq<View>, depth: seq<nat>, s: FsckTree.Snap, t: nat)
    requires Ran(views, depth, s) && 0 < t < |views| && |s.state| == |s.dirs| == |s.lncnt| == |views|
    requires s.lncnt[t] == BaseOf(views).lncnt[t] - FsckTree.KeptNames(s.state, s.dirs, 0, |s.dirs|)[t]
    ensures s.lncnt[t] == 0
  {
    hide FsckTree.Inv, FsckTree.Done, Records, DirTiled, List, Kids, TreeAt, FsckTree.KeptNames, DirOk, Refs;
    NothingChanged(views, depth, s);
    forall i: nat | i < |views| ensures (s.state[i] == DirFound <==> IsDirView(views[i])) && (IsDirView(views[i]) ==> DirTiled(views[i].bytes)) {
      if IsDirView(views[i]) {
        assert Dotted(views, i);
      } else if s.state[i] == DirFound {
        OnlyDirsFound(views, depth, s, i);
      }
    }
    KeptAreRefs(views, s.state, |views|, t);
    assert views[..|views|] == views;
  }

  // ---- reading the image ----

  /** The records fsck reads of an inode. */
  ghost function ReadIn(v: View, imax: nat): seq<Dirent> {
    if v.kind == Directory then ReadAll(v.bytes, imax) else []
  }

  /** What pass 2 starts from: the same states and link counts, and the records as fsck reads them. */
  ghost function BaseRead(views: seq<View>): (b: FsckTree.Base)
    ensures |b.state| == |b.lncnt| == |b.dirs| == |views|
  {
    FsckTree.Base(BaseOf(views).state, BaseOf(views).lncnt,
                  seq(|views|, i requires 0 <= i < |views| => ReadIn(views[i], |views|)))
  }

  ghost predicate AllLegible(views: seq<View>) {
    forall i | 0 <= i < |views| && views[i].kind == Directory :: Legible(views[i].bytes, |views|)
  }

  /** Every record of every directory is in good form, and every name in bytes 1 to 127. */
  ghost predicate Orderly(views: seq<View>) {
    Formed(views) && AllNamesPlain(views)
  }

  ghost predicate Formed(views: seq<View>) {
    forall i | 0 <= i < |views| && views[i].kind == Directory :: Kempt(views[i].bytes)
  }

  ghost predicate AllNamesPlain(views: seq<View>) {
    forall i | 0 <= i < |views| && views[i].kind == Directory :: NamesPlain(Listing(views[i].bytes))
  }

  /** fsck reads the records the writer reads if and only if the directories are orderly. */
  lemma ReadUnaltered(views: seq<View>)
    requires LinksOk(views)
    ensures AllLegible(views) <==> Orderly(views)
    ensures AllLegible(views) <==> BaseRead(views).dirs == BaseOf(views).dirs
  {
    hide DirTiled, Records, Listing, ReadAll, Legible, NamesPlain, Kempt, ListingOk, Refs;
    forall i | 0 <= i < |views| && views[i].kind == Directory
      ensures Legible(views[i].bytes, |views|) <==> Kempt(views[i].bytes) && NamesPlain(Listing(views[i].bytes))
      ensures Legible(views[i].bytes, |views|) <==> BaseRead(views).dirs[i] == BaseOf(views).dirs[i]
    {
      assert DirOk(views[i].bytes, i, |views|);
      LegibleIs(views[i].bytes, |views|);
      ReadIsRecords(views[i].bytes, |views|);
    }
    if AllLegible(views) {
      assert forall i | 0 <= i < |views| :: BaseRead(views).dirs[i] == BaseOf(views).dirs[i];
    } else {
      var i :| 0 <= i < |views| && views[i].kind == Directory && !Legible(views[i].bytes, |views|);
      assert BaseRead(views).dirs[i] != BaseOf(views).dirs[i];
    }
  }

  /** The records of one inode. */
  method ReadRecords(img: Image, i: nat) returns (rs: seq<Dirent>, altered: bool)
    requires Ready(img) && i < |img.inodes|
    ensures rs == ReadIn(ViewsOf(img)[i], |img.inodes|)
    ensures altered <==> ViewsOf(img)[i].kind == Directory && !Legible(ViewsOf(img)[i].bytes, |img.inodes|)
  {
    hide Superblock.Valid, CylGroup.Valid, FileBytes, DirTiled, FreeSet, Tidy, Sound, Views, Listing, FirstNamed, DirOk,
      FileOk, Owned, TooLong, Unresolvable, CountsOwned, ReadAll, Legible;
    TidyParts(img.g, img.groups, img.inodes, img.disk, i);
    if img.inodes[i].kind != Directory {
      return [], false;
    }
    SoundAt(img.g, img.groups, img.inodes, img.disk, i);
    var rc, f := InodeReadData(img, img.inodes[i], 0, img.inodes[i].size);
    AllReadable(img.g, img.disk, img.inodes[i]);
    SplitDir(f);
    rs, altered := ReadDirectory(f, |img.inodes|);
  }

  /** What passes 1 and 2 read of the whole table. */
  method ReadBase(img: Image) returns (b: FsckTree.Base, altered: bool)
    requires Ready(img)
    ensures b == BaseRead(ViewsOf(img)) && (altered <==> !AllLegible(ViewsOf(img)))
  {
    hide Superblock.Valid, CylGroup.Valid, Tidy, Views, ReadIn, Legible;
    ghost var views := ViewsOf(img);
    var state, lncnt, dirs := [], [], [];
    altered := false;
    for i := 0 to |img.inodes|
      invariant |state| == |lncnt| == |dirs| == i
      invariant forall k | 0 <= k < i :: state[k] == KindState(views[k].kind, k) && lncnt[k] == views[k].nlink && dirs[k] == ReadIn(views[k], |views|)
      invariant altered <==> exists k | 0 <= k < i :: views[k].kind == Directory && !Legible(views[k].bytes, |views|)
    {
      UnusedIsGone(img.g, img.disk, img.inodes, i);
      var rs, other := ReadRecords(img, i);
      altered := altered || other;
      state, lncnt, dirs := state + [KindState(img.inodes[i].kind, i)], lncnt + [if img.inodes[i].kind == Unused then 0 else img.inodes[i].nlink], dirs + [rs];
    }
    return FsckTree.Base(state, lncnt, dirs), altered;
  }

  // ---- passes 2 and 4 on directories and links ----

  /** What passes 2 and 4 come to: states, counts left, records, links and verdicts. */
  datatype Outcome = Outcome(state: seq<State>, lncnt: seq<int>, dirs: seq<seq<Dirent>>, nlink: seq<int>, fate: seq<FsckTree.Fate>)

  /** Every directory as fsck reads it begins with its dots; what pass 2 does otherwise is not modelled. */
  ghost predicate DotsFirst(views: seq<View>) {
    forall i | 0 <= i < |views| && views[i].kind == Directory :: FsckTree.Dotted(ReadIn(views[i], |views|))
  }

  lemma FormedDots(views: seq<View>, depth: seq<nat>)
    requires LinksOk(views) && TreeOk(views, depth) && Formed(views)
    ensures DotsFirst(views)
  {
    hide DirTiled, Records, Kids, Refs, ParentOf, TreeAt, Listing, ReadAll, Kempt, ListingOk;
    forall i | 0 <= i < |views| && views[i].kind == Directory ensures FsckTree.Dotted(ReadIn(views[i], |views|)) {
      assert Dotted(views, i) && DirOk(views[i].bytes, i, |views|);
      DotsPass(views[i].bytes, i, |views|);
    }
  }

  lemma ReadValid(views: seq<View>, depth: seq<nat>)
    requires LinksOk(views) && TreeOk(views, depth) && DotsFirst(views)
    ensures BaseRead(views).Valid() && ROOTINO < |views| && BaseRead(views).state[ROOTINO] == Dir && BaseRead(views).dirs[ROOTINO] != []
    ensures forall i | 0 <= i < |views| && BaseRead(views).state[i] != Unallocated :: BaseRead(views).lncnt[i] > 0
  {
    hide DirTiled, Records, Kids, Refs, DirOk, ParentOf, ReadAll;
    BaseRoot(views, depth);
  }

  method DotsChecked(b: FsckTree.Base) returns (ok: bool)
    requires |b.state| == |b.dirs|
    ensures ok <==> forall i | 0 <= i < |b.state| && b.state[i] == Dir :: FsckTree.Dotted(b.dirs[i])
  {
    for i := 0 to |b.state|
      invariant forall k | 0 <= k < i && b.state[k] == Dir :: FsckTree.Dotted(b.dirs[k])
    {
      if b.state[i] == Dir && !FsckTree.Dotted(b.dirs[i]) {
        return false;
      }
    }
    return true;
  }

  /** No directory lists inode t under a name fsck can read. */
  ghost predicate Unreadable(views: seq<View>, t: nat) {
    forall i: nat, e: Entry | i < |views| && IsDirView(views[i]) && e in Listing(views[i].bytes) && e.ino == t :: !Plain(e.name)
  }

  /** No record that pass 2 keeps names such a file. */
  lemma NothingNames(views: seq<View>, s: FsckTree.Snap, t: nat)
    requires FsckTree.Inv(BaseRead(views), s) && FsckTree.Done(BaseRead(views), s) && LinksOk(views)
    requires ROOTINO <= t < |views| == |s.state| == |s.dirs| && views[t].kind != Directory && Unreadable(views, t)
    ensures FsckTree.KeptNames(s.state, s.dirs, 0, |s.dirs|)[t] == 0
  {
    hide FsckTree.Reach, Records, DirTiled, Listing, ReadAll, Plain, Refs, ListingOk, FsckTree.NamesFrom, FsckTree.Counted, FsckTree.NamedOnce;
    var b := BaseRead(views);
    FsckTree.KeptIsSettled(b, s, 0, |s.dirs|);
    if FsckTree.NamesFrom(s.dirs, s.pos, 0, |s.dirs|)[t] > 0 {
      var i, k := FsckTree.NamesWitness(s.dirs, s.pos, 0, |s.dirs|, t);
      assert FsckTree.Settled(b, s, i, k) && FsckTree.StateOk(b, s, i) && FsckTree.StateOk(b, s, t);
      assert s.state[i] == DirFound;
      if k >= 2 {
        assert s.dirs[i][k] == b.dirs[i][k] && b.dirs[i][k] in b.dirs[i];
        assert IsDirView(views[i]) && DirOk(views[i].bytes, i, |views|);
        ReadGenuine(views[i].bytes, |views|);
      }
    }
  }

  /** Passes 2 and 4. Where the directories are orderly they find every one, change no record, and leave
      every inode with the links it has; otherwise the reader corrects some, and a file listed under
      unreadable names only is left without one and goes to lost+found. */
  method CheckTree(img: Image) returns (read: seq<seq<Dirent>>, altered: bool, t: Option<Outcome>)
    requires Ready(img)
    ensures read == BaseRead(ViewsOf(img)).dirs
    ensures altered <==> !Orderly(ViewsOf(img))
    ensures altered <==> read != BaseOf(ViewsOf(img)).dirs
    ensures t.Some? <==> DotsFirst(ViewsOf(img))
    ensures Formed(ViewsOf(img)) ==> t.Some?
    ensures t.Some? ==> LinksKept(BaseRead(ViewsOf(img)), t.value) && Orphans(ViewsOf(img), t.value)
    ensures !altered ==> t.Some? && NothingLost(ViewsOf(img), t.value)
  {
    hide Superblock.Valid, CylGroup.Valid, Tidy, Views, RecordsIn, ReadIn, LinksOk, TreeOk, Ran, FsckTree.Inv, FsckTree.Done, FsckTree.Reach,
      FsckTree.KeptNames, FsckTree.Hangs, FsckTree.Base.Valid, Orderly, AllLegible, DotsFirst, Orphans, NothingLost, Formed;
    ghost var views := ViewsOf(img);
    LinksWere(img.g, img.groups, img.inodes, img.disk);
    ghost var depth: seq<nat> :| TreeOk(views, depth);
    var b;
    b, altered := ReadBase(img);
    ReadUnaltered(views);
    read := b.dirs;
    if Formed(views) { FormedDots(views, depth); }
    if Orderly(views) { OrderlyIsFormed(views); }
    var ok := DotsChecked(b);
    DotsAre(views);
    if !ok {
      return read, altered, None;
    }
    ReadValid(views, depth);
    var d, nlink, fate := FsckTree.CheckLinks(b, []);
    FsckTree.SizedNow(b, d.Now());
    var o := Outcome(d.state, d.lncnt, d.dirs, nlink, fate);
    t := Some(o);
    KeptAre(b, d.Now());
    assert LinksKept(b, o);
    OrphansAre(views, d.Now(), o);
    if !altered {
      ReadSame(views);
      assert b == BaseOf(views);
      NothingIsLost(views, depth, d.Now(), o);
    }
  }

  lemma OrderlyIsFormed(views: seq<View>)
    requires Orderly(views)
    ensures Formed(views)
  {
  }

  lemma DotsAre(views: seq<View>)
    requires LinksOk(views)
    ensures DotsFirst(views) <==> forall i | 0 <= i < |views| && BaseRead(views).state[i] == Dir :: FsckTree.Dotted(BaseRead(views).dirs[i])
  {
    hide DirOk, Refs, ReadAll, FsckTree.Dotted;
    var b := BaseRead(views);
    forall i | 0 <= i < |views|
      ensures b.state[i] == Dir <==> views[i].kind == Directory
      ensures b.dirs[i] == ReadIn(views[i], |views|)
    {
      assert views[0] == GONE && views[1] == GONE;
    }
  }

  /** Every inode in use has a link, so none is without one to begin with. */
  lemma KeptAre(b: FsckTree.Base, s: FsckTree.Snap)
    requires FsckTree.Inv(b, s) && forall i | 0 <= i < |b.state| && b.state[i] != Unallocated :: b.lncnt[i] > 0
    ensures |s.state| == |b.state| == |b.lncnt|
    ensures forall i | 0 <= i < |s.state| && s.state[i] != Unallocated :: b.lncnt[i] > 0
  {
    hide FsckTree.Inv, FsckTree.Reach;
    FsckTree.SizedNow(b, s);
    forall i: nat | i < |s.state| && s.state[i] != Unallocated ensures b.lncnt[i] > 0 {
      FsckTree.StillAllocated(b, s, i);
    }
  }

  /** The links of what is left: an inode that kept records name stays with one link for each, one that
      none names goes to lost+found. */
  ghost predicate LinksKept(b: FsckTree.Base, o: Outcome) {
    && |o.state| == |o.lncnt| == |o.dirs| == |o.nlink| == |o.fate| == |b.state| == |b.dirs|
    && (forall i | 0 <= i < |b.state| && b.state[i] == Dir :: o.state[i] == DirFound <==> FsckTree.Reach(b, i) && b.dirs[i] != [])
    && forall i | ROOTINO <= i < |b.state| && (o.state[i] == File || o.state[i] == DirFound) ::
         var kept := FsckTree.KeptNames(o.state, o.dirs, 0, |o.dirs|)[i];
         if kept > 0 then o.fate[i] == FsckTree.Stays && o.nlink[i] == kept else o.fate[i] == FsckTree.Orphan
  }

  /** A file that no directory lists under a readable name goes to lost+found. */
  ghost predicate Orphans(views: seq<View>, o: Outcome) {
    && |o.fate| == |views|
    && forall t: nat | ROOTINO <= t < |views| && views[t].kind != Directory && views[t].kind != Unused && Unreadable(views, t) ::
         o.fate[t] == FsckTree.Orphan
  }

  ghost predicate NothingLost(views: seq<View>, o: Outcome) {
    && |o.state| == |o.lncnt| == |o.dirs| == |o.nlink| == |o.fate| == |views|
    && o.dirs == BaseOf(views).dirs
    && (forall i | 0 <= i < |views| :: o.state[i] == DirFound <==> views[i].kind == Directory)
    && (forall i | 0 < i < |views| :: o.lncnt[i] == 0)
    && forall i | ROOTINO <= i < |views| :: o.fate[i] == FsckTree.Stays && o.nlink[i] == views[i].nlink
  }

  lemma ReadSame(views: seq<View>)
    requires BaseRead(views).dirs == BaseOf(views).dirs
    ensures BaseRead(views) == BaseOf(views)
  {
  }

  lemma OrphansAre(views: seq<View>, s: FsckTree.Snap, o: Outcome)
    requires FsckTree.Inv(BaseRead(views), s) && FsckTree.Done(BaseRead(views), s) && LinksOk(views)
    requires o.state == s.state && o.dirs == s.dirs && |s.state| == |s.dirs| == |views| && LinksKept(BaseRead(views), o)
    ensures Orphans(views, o)
  {
    hide LinksOk, FsckTree.Done, FsckTree.Reach, FsckTree.KeptNames, Unreadable, ReadIn, FsckTree.Inv;
    FsckTree.SizedNow(BaseRead(views), s);
    forall t: nat | ROOTINO <= t < |views| && views[t].kind != Directory && views[t].kind != Unused && Unreadable(views, t)
      ensures o.fate[t] == FsckTree.Orphan
    {
      NothingNames(views, s, t);
      assert FsckTree.StateOk(BaseRead(views), s, t);
    }
  }

  lemma NothingIsLost(views: seq<View>, depth: seq<nat>, s: FsckTree.Snap, o: Outcome)
    requires LinksOk(views) && TreeOk(views, depth) && FsckTree.Inv(BaseOf(views), s) && FsckTree.Done(BaseOf(views), s)
    requires |s.par| == |s.state| == |s.dirs| == |s.lncnt| == |views| > ROOTINO && s.par[ROOTINO] == ROOTINO
    requires o.state == s.state && o.dirs == s.dirs && o.lncnt == s.lncnt && LinksKept(BaseOf(views), o)
    requires forall t: nat | t < |views| :: s.lncnt[t] == BaseOf(views).lncnt[t] - FsckTree.KeptNames(s.state, s.dirs, 0, |s.dirs|)[t]
    requires forall i | ROOTINO <= i < |views| && o.state[i] == Unallocated :: o.fate[i] == FsckTree.Stays && o.nlink[i] == views[i].nlink
    ensures NothingLost(views, o)
  {
    hide LinksOk, TreeOk, Ran, FsckTree.Inv, FsckTree.Done, FsckTree.Reach, FsckTree.KeptNames, RecordsIn, FsckTree.StateOk;
    BaseValid(views, depth);
    forall i: nat | i < |views| && IsDirView(views[i]) ensures s.state[i] == DirFound {
      DirReached(views, depth, i);
    }
    RanIs(views, depth, s);
    RanSized(views, depth, s);
    NothingChanged(views, depth, s);
    forall i: nat | i < |views| ensures s.state[i] == DirFound <==> views[i].kind == Directory {
      if s.state[i] == DirFound { OnlyDirsFound(views, depth, s, i); }
    }
    forall t: nat | 0 < t < |views| ensures s.lncnt[t] == 0 {
      CountedDown(views, depth, s, t);
    }
    forall i: nat | ROOTINO <= i < |views| ensures o.fate[i] == FsckTree.Stays && o.nlink[i] == views[i].nlink {
      UsedHasLinks(views, i);
      assert i < |views| && !IsDirView(views[i]) ==> s.state[i] == BaseOf(views).state[i];
    }
  }

  lemma UsedHasLinks(views: seq<View>, i: nat)
    requires LinksOk(views) && i < |views|
    ensures views[i].kind != Unused ==> views[i].nlink > 0
  {
    hide DirOk, Refs;
  }

  lemma BaseRoot(views: seq<View>, depth: seq<nat>)
    requires TreeOk(views, depth)
    ensures ROOTINO < |views| && IsDirView(views[ROOTINO])
  {
    hide DirTiled, Records, Kids, ParentOf, DotsIn;
  }

  lemma RanIs(views: seq<View>, depth: seq<nat>, s: FsckTree.Snap)
    requires LinksOk(views) && TreeOk(views, depth)
    requires FsckTree.Inv(BaseOf(views), s) && FsckTree.Done(BaseOf(views), s) && |s.par| == |s.state| == |views| > ROOTINO && s.par[ROOTINO] == ROOTINO
    requires forall i: nat | i < |views| && IsDirView(views[i]) :: s.state[i] == DirFound
    ensures Ran(views, depth, s)
  {
    hide LinksOk, TreeOk, FsckTree.Inv, FsckTree.Done;
  }

  // ---- the used map is the complement of the free map ----

  /** No fragment is lost: each is set aside, free, or some inode's. */
  ghost predicate Whole(g: Geometry, groups: seq<CylGroup>, inodes: seq<Inode>, d: seq<byte>) {
    forall f: nat | f < g.fragCount :: SetAside(g, f) || f in Space(g, groups, inodes, d)
  }

  lemma AsideNotFree(g: Geometry, groups: seq<CylGroup>, f: nat)
    requires |groups| == g.ncg && (forall c | 0 <= c < g.ncg :: groups[c].Valid(g, c)) && g.csumAddr == g.Upper(0) && f < g.fragCount
    ensures SetAside(g, f) ==> f !in FreeSet(g, groups)
  {
    hide Superblock.Valid, CylGroup.Counted, Superblock.Base;
    var c := g.GroupOf(f);
    GroupBelow(g, f);
    assert groups[c].Valid(g, c);
    if SetAside(g, f) {
      GlobalRun(g, c, 0, g.fpg, f);
      assert c == 0 ==> g.Base(0) == 0 by { ZeroBase(g); }
      assert g.Reserved(c, g.LocalOf(f));
    }
  }

  lemma ZeroBase(g: Geometry)
    ensures g.Base(0) == 0
  {
  }

  /** fsck's map of used fragments is right. */
  lemma UsedIsNotFree(g: Geometry, groups: seq<CylGroup>, inodes: seq<Inode>, d: seq<byte>, state: seq<State>, used: seq<bool>)
    requires |groups| == g.ncg && (forall c | 0 <= c < g.ncg :: groups[c].Valid(g, c)) && g.csumAddr == g.Upper(0)
    requires Sound(g, groups, inodes, d) && Whole(g, groups, inodes, d) && OwnersMap(g, d, inodes, state, used)
    requires forall i | 0 <= i < |inodes| && inodes[i].kind != Unused :: Walked(state, i)
    ensures forall f | 0 <= f < g.fragCount :: used[f] <==> f !in FreeSet(g, groups)
  {
    hide Superblock.Valid, CylGroup.Valid, SetAside, FreeSet, Owned, FileOk, TooLong, CountsOwned, Walked, InUse;
    forall f | 0 <= f < g.fragCount ensures used[f] <==> f !in FreeSet(g, groups) {
      AsideNotFree(g, groups, f);
      if f in FreeSet(g, groups) {
        forall i | 0 <= i < |inodes| ensures f !in OwnedBy(g, d, inodes[i]) {
          assert InodeOk(g, d, FreeSet(g, groups), inodes[i]);
        }
      } else if !SetAside(g, f) {
        assert f in AllOwned(g, d, inodes);
        var i :| 0 <= i < |inodes| && f in OwnedBy(g, d, inodes[i]);
        assert Walked(state, i);
      }
    }
  }

  /** What pass 5 recounts is what the groups say. */
  ghost predicate Recounted(g: Geometry, groups: seq<CylGroup>, recounts: seq<CylGroup>) {
    && |groups| == |recounts| == g.ncg
    && forall c | 0 <= c < g.ncg :: SameFrags(g, groups[c], recounts[c])
  }

  ghost predicate SameFrags(g: Geometry, a: CylGroup, b: CylGroup) {
    a.Shaped(g) && b.Shaped(g) && b.free == a.free && forall st: Stat | st.For(g) :: b.Counter(g, st) == a.Counter(g, st)
  }

  lemma RecountIsStored(g: Geometry, groups: seq<CylGroup>, used: seq<bool>, c: nat, recount: CylGroup)
    requires |groups| == g.ncg && (forall k | 0 <= k < g.ncg :: groups[k].Valid(g, k)) && |used| == g.fragCount && c < g.ncg
    requires forall f | 0 <= f < g.fragCount :: used[f] <==> f !in FreeSet(g, groups)
    requires recount.Counted(g) && Grow.ComplementMap(g, c, used, recount.free)
    ensures SameFrags(g, groups[c], recount)
  {
    hide Superblock.Valid, Recount, Superblock.Base, Superblock.GroupOf, Superblock.LocalOf, Superblock.GroupFrags, Superblock.Reserved;
    var stored := groups[c];
    assert stored.Valid(g, c);
    GroupFragsBounds(g, c);
    BaseNext(g, c);
    BaseMonotone(g, c + 1, g.ncg);
    forall i | 0 <= i < g.GroupFrags(c) && Grow.InMap(g, c, i) ensures stored.free[i] <==> !used[g.Base(c) + i] {
      GlobalRun(g, c, 0, g.fpg, g.Base(c) + i);
    }
    Grow.RecountAgrees(g, c, used, stored, recount);
  }

  // ---- the inode maps ----

  ghost predicate SameInodeMap(a: CylGroup, b: CylGroup) {
    a.iused == b.iused
  }

  ghost predicate SameInodeMaps(groups: seq<CylGroup>, recounts: seq<CylGroup>) {
    |groups| == |recounts| && forall c | 0 <= c < |groups| :: SameInodeMap(groups[c], recounts[c])
  }

  /** One bit of the recounted inode map. */
  lemma InodeBit(g: Geometry, groups: seq<CylGroup>, views: seq<View>, state: seq<State>, c: nat, i: nat, recount: CylGroup)
    requires c < g.ncg == |groups| && |state| == |views| == g.ncg * g.inodesPerGroup && i < g.inodesPerGroup == |groups[c].iused|
    requires forall k | 0 <= k < |views| :: state[k] == Unallocated <==> views[k].kind == Unused
    requires g.inodesPerGroup >= ROOTINO && Grow.InodesCounted(g, c, state, recount)
    ensures var k := c * g.inodesPerGroup + i;
            && k < |views| && |recount.iused| == g.inodesPerGroup
            && (groups[c].iused[i] <==> InUse(g, groups, k))
            && (recount.iused[i] <==> views[k].kind != Unused || k < ROOTINO)
  {
    hide Superblock.Valid, Grow.DirCount;
    RunBound(g.inodesPerGroup, g.ncg, c, 0, g.inodesPerGroup);
    DivModOf(c, i, g.inodesPerGroup);
    assert Grow.StatesOf(g, c, state)[i] == state[c * g.inodesPerGroup + i];
    if c > 0 {
      MulAtLeast(c, g.inodesPerGroup);
    }
  }

  // ---- the counters of inodes and directories ----

  /** Stray inodes of one group. */
  ghost predicate StrayIn(g: Geometry, groups: seq<CylGroup>, views: seq<View>, c: nat) {
    exists k: nat :: k in Stray(g, groups, views) && k / g.inodesPerGroup == c
  }

  lemma {:induction false} PopCountLess(a: seq<bool>, b: seq<bool>)
    requires |a| == |b| && forall i | 0 <= i < |a| :: b[i] ==> a[i]
    ensures PopCount(b) <= PopCount(a) && (PopCount(b) == PopCount(a) <==> a == b)
  {
    if a != [] {
      PopCountLess(a[1..], b[1..]);
      assert a == [a[0]] + a[1..] && b == [b[0]] + b[1..];
    }
  }

  /** A bit pass 5 does not set again is a stray inode's. */
  lemma BitDiffers(g: Geometry, groups: seq<CylGroup>, views: seq<View>, state: seq<State>, c: nat, i: nat, recount: CylGroup)
    requires c < g.ncg == |groups| && |state| == |views| == g.ncg * g.inodesPerGroup && g.inodesPerGroup >= ROOTINO
    requires i < g.inodesPerGroup == |groups[c].iused|
    requires forall k | 0 <= k < |views| :: state[k] == Unallocated <==> views[k].kind == Unused
    requires Grow.InodesCounted(g, c, state, recount)
    requires Aside(g, groups) && forall k: nat | k < |views| && views[k].kind != Unused :: InUse(g, groups, k)
    ensures |recount.iused| == g.inodesPerGroup && (recount.iused[i] ==> groups[c].iused[i])
    ensures groups[c].iused[i] && !recount.iused[i] <==> c * g.inodesPerGroup + i in Stray(g, groups, views)
  {
    hide Superblock.Valid, InUse, Grow.InodesCounted;
    InodeBit(g, groups, views, state, c, i, recount);
    var k: nat := c * g.inodesPerGroup + i;
    assert k < ROOTINO ==> k == 0 || k == 1;
  }

  lemma StrayBit(g: Geometry, groups: seq<CylGroup>, views: seq<View>, state: seq<State>, c: nat, i: nat, recount: CylGroup)
    requires c < g.ncg == |groups| && |state| == |views| == g.ncg * g.inodesPerGroup && g.inodesPerGroup >= ROOTINO
    requires i < g.inodesPerGroup == |groups[c].iused|
    requires forall k | 0 <= k < |views| :: state[k] == Unallocated <==> views[k].kind == Unused
    requires Grow.InodesCounted(g, c, state, recount)
    requires Aside(g, groups) && forall k: nat | k < |views| && views[k].kind != Unused :: InUse(g, groups, k)
    ensures |recount.iused| == g.inodesPerGroup && recount.cs.nifree == ClearBits(recount.iused)
    ensures recount.iused[i] ==> groups[c].iused[i]
    ensures groups[c].iused[i] && !recount.iused[i] ==> StrayIn(g, groups, views, c)
  {
    hide Superblock.Valid, InUse, Grow.StatesOf, Grow.DirCount, PopCount, Stray, ClearBits;
    BitDiffers(g, groups, views, state, c, i, recount);
    DivModOf(c, i, g.inodesPerGroup);
  }

  lemma StrayShows(g: Geometry, groups: seq<CylGroup>, views: seq<View>, state: seq<State>, c: nat, recount: CylGroup) returns (i: nat)
    requires c < g.ncg == |groups| && |state| == |views| == g.ncg * g.inodesPerGroup && g.inodesPerGroup >= ROOTINO
    requires |groups[c].iused| == g.inodesPerGroup && StrayIn(g, groups, views, c)
    requires forall k | 0 <= k < |views| :: state[k] == Unallocated <==> views[k].kind == Unused
    requires Grow.InodesCounted(g, c, state, recount)
    requires Aside(g, groups) && forall k: nat | k < |views| && views[k].kind != Unused :: InUse(g, groups, k)
    ensures i < |groups[c].iused| == |recount.iused| && groups[c].iused[i] && !recount.iused[i]
  {
    hide Superblock.Valid, InUse, Grow.StatesOf, Grow.DirCount, PopCount, Stray, ClearBits, Grow.InodesCounted;
    var k: nat :| k in Stray(g, groups, views) && k / g.inodesPerGroup == c;
    DivBounds(k, g.inodesPerGroup);
    i := k - c * g.inodesPerGroup;
    BitDiffers(g, groups, views, state, c, i, recount);
  }

  /** The free inodes pass 5 counts in a group are the stored number exactly when no inode of the
      group is stray. */
  lemma FreeInodesAgree(g: Geometry, groups: seq<CylGroup>, views: seq<View>, state: seq<State>, c: nat, recount: CylGroup)
    requires c < g.ncg == |groups| && |state| == |views| == g.ncg * g.inodesPerGroup && g.inodesPerGroup >= ROOTINO
    requires forall k | 0 <= k < |views| :: state[k] == Unallocated <==> views[k].kind == Unused
    requires |groups[c].iused| == g.inodesPerGroup && Grow.InodesCounted(g, c, state, recount) && groups[c].cs.nifree == ClearBits(groups[c].iused)
    requires Aside(g, groups) && forall k: nat | k < |views| && views[k].kind != Unused :: InUse(g, groups, k)
    ensures recount.cs.nifree == groups[c].cs.nifree <==> !StrayIn(g, groups, views, c)
    ensures SameInodeMap(groups[c], recount) <==> !StrayIn(g, groups, views, c)
  {
    hide Superblock.Valid, InUse, Grow.InodesCounted, PopCount, Stray, StrayIn;
    var a, b := groups[c].iused, recount.iused;
    forall i: nat | i < g.inodesPerGroup
      ensures |b| == g.inodesPerGroup && (b[i] ==> a[i])
      ensures a[i] && !b[i] ==> StrayIn(g, groups, views, c)
    {
      StrayBit(g, groups, views, state, c, i, recount);
    }
    StrayBit(g, groups, views, state, c, 0, recount);
    PopCountLess(a, b);
    if StrayIn(g, groups, views, c) {
      var i := StrayShows(g, groups, views, state, c, recount);
      assert a != b;
    }
  }

  /** Pass 5 finds the inode maps as they are exactly when no inode is stray. */
  lemma MapsAgree(g: Geometry, groups: seq<CylGroup>, views: seq<View>, recounts: seq<CylGroup>)
    requires |groups| == |recounts| == g.ncg && |views| == g.ncg * g.inodesPerGroup
    requires forall c: nat | c < g.ncg :: SameInodeMap(groups[c], recounts[c]) <==> !StrayIn(g, groups, views, c)
    ensures SameInodeMaps(groups, recounts) <==> Stray(g, groups, views) == {}
  {
    hide Superblock.Valid, SameInodeMap, Stray;
    forall k: nat | k in Stray(g, groups, views) ensures exists c: nat :: c < g.ncg && StrayIn(g, groups, views, c) {
      StrayGroup(g, groups, views, k);
      assert StrayIn(g, groups, views, k / g.inodesPerGroup);
    }
    if Stray(g, groups, views) == {} {
      assert forall c: nat | c < g.ncg :: !StrayIn(g, groups, views, c);
    } else {
      var k :| k in Stray(g, groups, views);
    }
  }

  /** Directories below the first n inodes, group by group. */
  lemma {:induction false} DirsCountedUpto(g: Geometry, views: seq<View>, state: seq<State>, c: nat, n: nat)
    requires n <= |views| == |state| && c * g.inodesPerGroup + g.inodesPerGroup <= |state|
    requires forall k | 0 <= k < |views| :: Grow.IsADirectory(state[k]) <==> views[k].kind == Directory
    ensures var lo := c * g.inodesPerGroup;
            var hi := Min(n, lo + g.inodesPerGroup);
            DirsIn(g, views[..n], c) == if n <= lo then 0 else Grow.DirCount(state[lo..hi])
  {
    hide Grow.DirCount, Superblock.Valid;
    var lo, ipg := c * g.inodesPerGroup, g.inodesPerGroup;
    if n == 0 {
    } else {
      DirsCountedUpto(g, views, state, c, n - 1);
      assert views[..n][..n - 1] == views[..n - 1] && views[..n][n - 1] == views[n - 1];
      GroupIs(n - 1, c, ipg);
      if lo < n <= lo + ipg {
        assert state[lo..n] == state[lo..n - 1] + [state[n - 1]];
        Grow.DirCountAppend(state[lo..n - 1], state[n - 1]);
        if n - 1 == lo {
          assert state[lo..n - 1] == [];
          Grow.NoDirs();
        }
      }
    }
  }

  lemma GroupIs(k: nat, c: nat, m: pos)
    ensures k / m == c <==> c * m <= k < c * m + m
  {
    AddressInRun(m, k, c, 0, m);
  }

  lemma DirsCounted(g: Geometry, views: seq<View>, state: seq<State>, c: nat)
    requires c < g.ncg && |views| == |state| == g.ncg * g.inodesPerGroup
    requires forall k | 0 <= k < |views| :: Grow.IsADirectory(state[k]) <==> views[k].kind == Directory
    ensures Grow.DirCount(Grow.StatesOf(g, c, state)) == DirsIn(g, views, c)
  {
    hide Grow.DirCount, DirsIn, Superblock.Valid;
    RunBound(g.inodesPerGroup, g.ncg, c, 0, g.inodesPerGroup);
    DirsCountedUpto(g, views, state, c, |views|);
    assert views[..|views|] == views;
  }

  /** What pass 5 counts of inodes and directories in a group, against what the group says. */
  ghost predicate InodeSideIs(g: Geometry, groups: seq<CylGroup>, views: seq<View>, c: nat, recount: CylGroup)
    requires c < |groups|
  {
    && recount.cs.ndir == groups[c].cs.ndir - DirsOff(g, groups, views, c)
    && (recount.cs.nifree == groups[c].cs.nifree <==> !StrayIn(g, groups, views, c))
    && (SameInodeMap(groups[c], recount) <==> !StrayIn(g, groups, views, c))
  }

  /** Every mark is an inode's and every counted directory is there. */
  ghost predicate Accounted(g: Geometry, groups: seq<CylGroup>, views: seq<View>) {
    Stray(g, groups, views) == {} && forall c: nat | c < |groups| :: DirsOff(g, groups, views, c) == 0
  }

  /** Pass 5 leaves every inode map, every counter of every group, the summary table and the totals
      as they are. */
  ghost predicate CountersKept(groups: seq<CylGroup>, csum: seq<Csum>, total: Csum, r: Report) {
    && |r.recounts| == |groups| && (forall c: nat | c < |groups| :: r.recounts[c].cs == groups[c].cs && SameInodeMap(groups[c], r.recounts[c]))
    && r.csum == csum && r.total == total
  }

  lemma NoneStray(g: Geometry, groups: seq<CylGroup>, views: seq<View>)
    requires forall k: nat | k in Stray(g, groups, views) :: k / g.inodesPerGroup < g.ncg
    requires forall c: nat | c < g.ncg :: !StrayIn(g, groups, views, c)
    ensures Stray(g, groups, views) == {}
  {
    hide Superblock.Valid, Stray;
    if k :| k in Stray(g, groups, views) {
      assert StrayIn(g, groups, views, k / g.inodesPerGroup);
    }
  }

  /** It does so exactly when nothing is stray and no directory is counted that is not there. */
  lemma CountersAgree(g: Geometry, groups: seq<CylGroup>, csum: seq<Csum>, total: Csum, views: seq<View>, r: Report)
    requires |groups| == |csum| == |r.recounts| == |r.csum| == g.ncg
    requires forall c: nat | c < g.ncg :: csum[c] == groups[c].cs && r.csum[c] == r.recounts[c].cs
    requires total == SumOf(csum) && r.total == SumOf(r.csum)
    requires forall c: nat | c < g.ncg :: SameFrags(g, groups[c], r.recounts[c]) && InodeSideIs(g, groups, views, c, r.recounts[c])
    requires forall k: nat | k in Stray(g, groups, views) :: k / g.inodesPerGroup < g.ncg
    ensures CountersKept(groups, csum, total, r) <==> Accounted(g, groups, views)
  {
    hide Superblock.Valid, Stray, DirsOff, SumOf, SameInodeMap;
    forall c: nat | c < g.ncg ensures r.recounts[c].cs.nbfree == groups[c].cs.nbfree && r.recounts[c].cs.nffree == groups[c].cs.nffree {
      assert SameFrags(g, groups[c], r.recounts[c]);
      assert groups[c].Counter(g, NBFree) == r.recounts[c].Counter(g, NBFree);
      assert groups[c].Counter(g, NFFree) == r.recounts[c].Counter(g, NFFree);
    }
    if Accounted(g, groups, views) {
      forall c: nat | c < g.ncg ensures r.recounts[c].cs == groups[c].cs && SameInodeMap(groups[c], r.recounts[c]) {
        assert InodeSideIs(g, groups, views, c, r.recounts[c]);
      }
      assert r.csum == csum;
    }
    if CountersKept(groups, csum, total, r) {
      forall c: nat | c < g.ncg ensures DirsOff(g, groups, views, c) == 0 && !StrayIn(g, groups, views, c) {
        assert InodeSideIs(g, groups, views, c, r.recounts[c]);
      }
      NoneStray(g, groups, views);
    }
  }

  // ---- all passes ----

  /** What fsck comes to: whether an inode was cut off, a block count is wrong or an unused inode is not
      clear, the states and records it ends with, pass 4's verdicts and link counts, and pass 5's
      groups, summary table and totals. */
  datatype Report = Report(cut: bool, miscounted: bool, partial: bool, state: seq<State>, dirs: seq<seq<Dirent>>,
                           fate: seq<FsckTree.Fate>, nlink: seq<int>, recounts: seq<CylGroup>, csum: seq<Csum>, total: Csum)

  /** Nothing to repair but inode marks and directory counts: every inode stays with its links, every
      record, every fragment map and every fragment counter as it is. What pass 5 makes of the inode
      side differs by the stray inodes and the directories that are not there, and by nothing else. */
  ghost predicate NothingFound(g: Geometry, groups: seq<CylGroup>, inodes: seq<Inode>, views: seq<View>, r: Report) {
    && !r.cut && !r.miscounted && !r.partial && r.dirs == BaseOf(views).dirs
    && |r.state| == |r.fate| == |r.nlink| == |inodes| == |views|
    && (forall i | 0 <= i < |inodes| :: r.state[i] == Unallocated <==> inodes[i].kind == Unused)
    && (forall i | ROOTINO <= i < |inodes| :: r.fate[i] == FsckTree.Stays && r.nlink[i] == views[i].nlink)
    && Recounted(g, groups, r.recounts)
    && (forall c: nat | c < |groups| :: InodeSideIs(g, groups, views, c, r.recounts[c]))
    && |r.csum| == |r.recounts| && (forall c: nat | c < |r.csum| :: r.csum[c] == r.recounts[c].cs) && r.total == SumOf(r.csum)
  }

  /** The state an inode ends with when nothing is found. */
  lemma StaysAllocated(inodes: seq<Inode>, views: seq<View>, found: seq<bool>, lncnt: seq<int>, none: seq<bool>, state: seq<State>)
    requires LinksOk(views) && |views| == |inodes| && (forall i | 0 <= i < |inodes| :: views[i].kind == inodes[i].kind)
    requires Settled(inodes, found, lncnt, none, none, state) && forall i | 0 <= i < |none| :: !none[i]
    requires (forall i | 0 <= i < |inodes| :: found[i] <==> inodes[i].kind == Directory) && forall i | 0 < i < |inodes| :: lncnt[i] == 0
    ensures forall i | 0 <= i < |inodes| :: state[i] == Unallocated <==> inodes[i].kind == Unused
    ensures forall i | 0 <= i < |inodes| && inodes[i].kind != Unused :: Walked(state, i)
    ensures forall i | 0 <= i < |inodes| :: Grow.IsADirectory(state[i]) <==> views[i].kind == Directory
    ensures state[0] == Unallocated == state[1]
  {
    hide DirOk, Refs;
    forall i | 0 <= i < |inodes|
      ensures state[i] == Unallocated <==> inodes[i].kind == Unused
      ensures inodes[i].kind != Unused ==> i >= ROOTINO
    {
      assert views[0] == GONE && views[1] == GONE;
      assert i >= ROOTINO || inodes[i].kind == Unused;
    }
  }

  /** Where no inode is cleared there is none to name another's fragments. */
  lemma NoneCleared(g: Geometry, d: seq<byte>, inodes: seq<Inode>, state: seq<State>)
    requires Tabled(inodes) && |state| == |inodes|
    requires forall i | 0 <= i < |inodes| :: state[i] == Unallocated <==> inodes[i].kind == Unused
    ensures Spared(g, d, inodes, state)
  {
    hide HeldBy, Claims, CkWalk;
  }

  /** fsck on an image the writer left, with no fragment lost. It reads the directories' records as they
      are if and only if the directories are orderly, and then finds nothing but inodes that are marked
      and not used and directories that are counted and not there; pass 5 changes something if and
      only if there are such. Otherwise it corrects directories, and what passes 2 and 4 make of that
      is all that is said. */
  method Fsck(img: Image) returns (read: seq<seq<Dirent>>, t: Option<Outcome>, r: Option<Report>)
    requires Ready(img) && Neat(img.g, img.disk, img.inodes) && Typical(img.g) && Whole(img.g, img.groups, img.inodes, img.disk)
    ensures read == BaseRead(ViewsOf(img)).dirs && (read == BaseOf(ViewsOf(img)).dirs <==> Orderly(ViewsOf(img)))
    ensures r.Some? <==> Orderly(ViewsOf(img))
    ensures r.Some? ==> NothingFound(img.g, img.groups, img.inodes, ViewsOf(img), r.value)
    ensures r.Some? ==> (SameInodeMaps(img.groups, r.value.recounts) <==> Stray(img.g, img.groups, ViewsOf(img)) == {})
    ensures r.Some? ==> (CountersKept(img.groups, img.csum, img.total, r.value) <==> Accounted(img.g, img.groups, ViewsOf(img)))
    ensures Formed(ViewsOf(img)) ==> t.Some?
    ensures t.Some? ==> LinksKept(BaseRead(ViewsOf(img)), t.value) && Orphans(ViewsOf(img), t.value)
  {
    hide SameInodeMaps, SameInodeMap, Superblock.Valid, CylGroup.Valid, Views, LinksOk, Hangs, Sound, Neat, Whole, BaseOf, BaseRead, Settled, OwnersMap,
      MetadataFits, PerBlock, SameFrags, FreeSet, CylGroup.Counted, Walked, InUse, Grow.ComplementMap, Grow.InodesCounted, Stray, DirsOff,
      StrayIn, CountersKept, Accounted, SumOf, Orderly, Formed, LinksKept, Orphans, DotsFirst;
    var altered;
    read, altered, t := CheckTree(img);
    if altered {
      return read, t, None;
    }
    var lncnt, dirs, nlink, fate := t.value.lncnt, t.value.dirs, t.value.nlink, t.value.fate;
    var found := seq(|t.value.state|, i requires 0 <= i < |t.value.state| => t.value.state[i] == DirFound);
    var none := seq(|img.inodes|, _ => false);
    var cut, miscounted, partial, state, used := CheckBlocks(img, found, lncnt, none, none);
    ghost var views := ViewsOf(img);
    forall i | 0 <= i < |img.inodes| ensures views[i].kind == img.inodes[i].kind {
      UnusedIsGone(img.g, img.disk, img.inodes, i);
    }
    StaysAllocated(img.inodes, views, found, lncnt, none, state);
    assert OwnersMap(img.g, img.disk, img.inodes, state, used) by { NoneCleared(img.g, img.disk, img.inodes, state); }
    UsedIsNotFree(img.g, img.groups, img.inodes, img.disk, state, used);
    SoundSize(img.g, img.groups, img.inodes, img.disk);
    var recounts, csum, total := Grow.Pass5(img.g, used, state);
    var report := Report(cut, miscounted, partial, state, dirs, fate, nlink, recounts, csum, total);
    r := Some(report);
    forall k: nat | k < |img.inodes| && img.inodes[k].kind != Unused ensures InUse(img.g, img.groups, k) {
      SoundAt(img.g, img.groups, img.inodes, img.disk, k);
    }
    forall c | 0 <= c < img.g.ncg
      ensures SameFrags(img.g, img.groups[c], recounts[c]) && InodeSideIs(img.g, img.groups, views, c, recounts[c])
      ensures |img.groups[c].iused| == img.g.inodesPerGroup
    {
      RecountIsStored(img.g, img.groups, used, c, recounts[c]);
      InodeMapSize(img.g, img.groups, c);
      SideRecounted(img.g, img.groups, views, state, c, recounts[c]);
    }
    forall c: nat | c < img.g.ncg ensures SameInodeMap(img.groups[c], recounts[c]) <==> !StrayIn(img.g, img.groups, views, c) {
      assert InodeSideIs(img.g, img.groups, views, c, recounts[c]);
    }
    MapsAgree(img.g, img.groups, views, recounts);
    forall k: nat | k in Stray(img.g, img.groups, views) ensures k / img.g.inodesPerGroup < img.g.ncg {
      StrayGroup(img.g, img.groups, views, k);
    }
    CountersAgree(img.g, img.groups, img.csum, img.total, views, report);
  }

  lemma StrayGroup(g: Geometry, groups: seq<CylGroup>, views: seq<View>, k: nat)
    requires k in Stray(g, groups, views) && |views| == g.ncg * g.inodesPerGroup
    ensures k / g.inodesPerGroup < g.ncg
  {
    hide InUse;
    GroupOfInode(k, g.ncg, g.inodesPerGroup);
  }

  lemma SideRecounted(g: Geometry, groups: seq<CylGroup>, views: seq<View>, state: seq<State>, c: nat, recount: CylGroup)
    requires c < g.ncg == |groups| && |state| == |views| == g.ncg * g.inodesPerGroup && g.inodesPerGroup >= ROOTINO
    requires forall k | 0 <= k < |views| :: state[k] == Unallocated <==> views[k].kind == Unused
    requires forall k | 0 <= k < |views| :: Grow.IsADirectory(state[k]) <==> views[k].kind == Directory
    requires groups[c].Valid(g, c) && Grow.InodesCounted(g, c, state, recount)
    requires Aside(g, groups) && forall k: nat | k < |views| && views[k].kind != Unused :: InUse(g, groups, k)
    ensures InodeSideIs(g, groups, views, c, recount)
  {
    hide Superblock.Valid, CylGroup.Counted, InUse, Stray, StrayIn, SameInodeMap, DirsIn, Grow.DirCount, Grow.StatesOf;
    FreeInodesAgree(g, groups, views, state, c, recount);
    DirsCounted(g, views, state, c);
  }
}
