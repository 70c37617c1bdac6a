/** Link counts: how often the directories name an inode, and what each command does to it. */
module Links {
  import opened Image
  import opened Dirents
  import opened Mutate
  import opened Dirs

  ghost function Count(es: seq<Entry>, i: nat): nat {
    if es == [] then 0 else (if es[0].ino == i then 1 else 0) + Count(es[1..], i)
  }

  /** Times a directory's listing names inode i; other files have no listing. */
  ghost function Named(v: View, i: nat): nat {
    if v.kind == Directory then Count(Listing(v.bytes), i) else 0
  }

  ghost function Refs(views: seq<View>, i: nat): nat {
    if views == [] then 0 else Refs(views[..|views| - 1], i) + Named(views[|views| - 1], i)
  }

  lemma {:induction false} CountConcat(a: seq<Entry>, b: seq<Entry>, i: nat)
    ensures Count(a + b, i) == Count(a, i) + Count(b, i)
  {
    if a == [] {
      assert a + b == b;
    } else {
      assert (a + b)[1..] == a[1..] + b;
      CountConcat(a[1..], b, i);
    }
  }

  lemma CountOne(e: Entry, i: nat)
    ensures Count([e], i) == if e.ino == i then 1 else 0
  {
    assert [e][1..] == [];
  }

  lemma CountInserted(was: seq<Entry>, now: seq<Entry>, e: Entry, i: nat)
    requires Inserted(was, now, e)
    ensures Count(now, i) == Count(was, i) + if e.ino == i then 1 else 0
  {
    var k :| 0 <= k <= |was| && now == was[..k] + [e] + was[k..];
    assert was == was[..k] + was[k..];
    CountConcat(was[..k], was[k..], i);
    CountConcat(was[..k] + [e], was[k..], i);
    CountConcat(was[..k], [e], i);
    CountOne(e, i);
  }

  lemma CountDeleted(was: seq<Entry>, now: seq<Entry>, name: seq<byte>, i: nat)
    requires Deleted(was, now, name)
    ensures FirstNamed(was, name).Some?
    ensures Count(was, i) == Count(now, i) + if FirstNamed(was, name).value == i then 1 else 0
  {
    var a, e, c := DeletedParts(was, now, name);
    FirstNamedAfter(a, [e] + c, name);
    assert was == a + ([e] + c);
    CountConcat(a, [e] + c, i);
    CountConcat([e], c, i);
    CountConcat(a, c, i);
    CountOne(e, i);
  }

  /** One changed view changes the references by the difference of its own. */
  lemma {:induction false} RefsUpdate(views: seq<View>, k: nat, v: View, i: nat)
    requires k < |views|
    ensures Refs(views[k := v], i) + Named(views[k], i) == Refs(views, i) + Named(v, i)
    decreases |views|
  {
    hide Named;
    var n := |views| - 1;
    var now := views[k := v];
    if k == n {
      assert now[..n] == views[..n];
    } else {
      assert now[..n] == views[..n][k := v];
      RefsUpdate(views[..n], k, v, i);
    }
  }

  lemma {:induction false} NamedIsReferenced(views: seq<View>, k: nat, i: nat)
    requires k < |views|
    ensures Named(views[k], i) <= Refs(views, i)
    decreases |views|
  {
    hide Named;
    if k < |views| - 1 {
      NamedIsReferenced(views[..|views| - 1], k, i);
    }
  }

  ghost predicate Distinct(es: seq<Entry>) {
    forall j, k | 0 <= j < k < |es| :: es[j].name != es[k].name
  }

  lemma DistinctParts(a: seq<Entry>, e: Entry, c: seq<Entry>)
    ensures Distinct(a + [e] + c) ==> Distinct(a + c)
    ensures Distinct(a + c) && Unnamed(a, e.name) && Unnamed(c, e.name) ==> Distinct(a + [e] + c)
    ensures forall x :: x in a + [e] + c <==> x in a + c || x == e
  {
    var was, now := a + c, a + [e] + c;
    assert forall j | 0 <= j < |was| :: was[j] == now[if j < |a| then j else j + 1];
    forall j, k | Distinct(was) && Unnamed(a, e.name) && Unnamed(c, e.name) && 0 <= j < k < |now|
      ensures now[j].name != now[k].name
    {
      assert j != |a| ==> now[j] == was[if j < |a| then j else j - 1];
      assert k != |a| ==> now[k] == was[if k < |a| then k else k - 1];
      assert j == |a| ==> now[k] == c[k - |a| - 1];
    }
  }

  /** Names are distinct; "." names the directory itself and there is a "..". */
  ghost predicate ListingOk(es: seq<Entry>, self: nat) {
    && Distinct(es)
    && Entry(DOT, self) in es && FirstNamed(es, DOTDOT).Some?
  }

  /** Every link count is the number of entries that name the inode, no entry points outside the
      inode table, every directory is well formed, nothing in use is without a name, and inodes 0
      and 1 are never used. */
  ghost predicate LinksOk(views: seq<View>) {
    && |views| > ROOTINO && views[0] == GONE && views[1] == GONE
    && (forall i | 0 <= i < |views| && views[i].kind != Unused :: views[i].nlink > 0)
    && (forall i | 0 <= i < |views| && views[i].kind == Unused :: views[i] == GONE)
    && (forall i | 0 <= i < |views| :: views[i].nlink == Refs(views, i))
    && (forall k | 0 <= k < |views| && views[k].kind == Directory :: DirOk(views[k].bytes, k, |views|))
  }

  ghost predicate DirOk(f: seq<byte>, self: nat, n: nat) {
    && DirTiled(f) && ListingOk(Listing(f), self)
    && forall e | e in Listing(f) :: e.ino < n
  }

  lemma {:induction false} FirstNamedIs(es: seq<Entry>, name: seq<byte>)
    ensures FirstNamed(es, name).Some? <==> exists e :: e in es && e.name == name
    ensures FirstNamed(es, name).Some? ==> Entry(name, FirstNamed(es, name).value) in es
  {
    if es != [] && es[0].name != name {
      FirstNamedIs(es[1..], name);
      assert forall e :: e in es <==> e == es[0] || e in es[1..];
    }
  }

  lemma {:induction false} CountPositive(es: seq<Entry>, e: Entry)
    requires e in es
    ensures Count(es, e.ino) > 0
  {
    if es[0] != e {
      CountPositive(es[1..], e);
    }
  }

  /** A new name keeps a listing well formed. */
  lemma InsertedOk(was: seq<byte>, now: seq<byte>, e: Entry, self: nat, n: nat)
    requires DirOk(was, self, n) && DirTiled(now) && Inserted(Listing(was), Listing(now), e) && e.ino < n
    requires FirstNamed(Listing(was), e.name).None?
    ensures DirOk(now, self, n)
  {
    hide DirTiled, Records, List;
    InsertedListing(Listing(was), Listing(now), e, self, n);
  }

  lemma InsertedListing(was: seq<Entry>, now: seq<Entry>, e: Entry, self: nat, n: nat)
    requires ListingOk(was, self) && (forall x | x in was :: x.ino < n) && Inserted(was, now, e) && e.ino < n
    requires FirstNamed(was, e.name).None?
    ensures ListingOk(now, self) && forall x | x in now :: x.ino < n
  {
    var k :| 0 <= k <= |was| && now == was[..k] + [e] + was[k..];
    var a, c := was[..k], was[k..];
    assert was == a + c;
    InsertedBetween(a, e, c, self, n);
  }

  lemma InsertedBetween(a: seq<Entry>, e: Entry, c: seq<Entry>, self: nat, n: nat)
    requires ListingOk(a + c, self) && (forall x | x in a + c :: x.ino < n) && e.ino < n
    requires FirstNamed(a + c, e.name).None?
    ensures ListingOk(a + [e] + c, self) && forall x | x in a + [e] + c :: x.ino < n
  {
    hide Distinct, FirstNamed;
    NotNamed(a, c, e.name);
    DistinctParts(a, e, c);
    FirstNamedIs(a + c, DOTDOT);
    FirstNamedIs(a + [e] + c, DOTDOT);
  }

  lemma NotNamed(a: seq<Entry>, c: seq<Entry>, name: seq<byte>)
    requires FirstNamed(a + c, name).None?
    ensures Unnamed(a, name) && Unnamed(c, name)
  {
    hide FirstNamed;
    FirstNamedIs(a + c, name);
    assert forall j | 0 <= j < |a| :: a[j] in a + c;
    assert forall j | 0 <= j < |c| :: c[j] in a + c;
  }

  /** Without a name other than the dots a listing stays well formed. */
  lemma DeletedOk(was: seq<byte>, now: seq<byte>, name: seq<byte>, self: nat, n: nat)
    requires DirOk(was, self, n) && DirTiled(now) && Deleted(Listing(was), Listing(now), name)
    requires name != DOT && name != DOTDOT
    ensures DirOk(now, self, n)
  {
    hide DirTiled, Records, List;
    DeletedListing(Listing(was), Listing(now), name, self, n);
  }

  lemma DeletedListing(was: seq<Entry>, now: seq<Entry>, name: seq<byte>, self: nat, n: nat)
    requires ListingOk(was, self) && (forall x | x in was :: x.ino < n) && Deleted(was, now, name)
    requires name != DOT && name != DOTDOT
    ensures ListingOk(now, self) && forall x | x in now :: x.ino < n
  {
    var a, e, c := DeletedParts(was, now, name);
    FirstNamedIs(was, DOTDOT);
    FirstNamedIs(now, DOTDOT);
    DistinctParts(a, e, c);
  }

  // ---- what the commands do to the views ----

  /** Inode i came into being and directory p names it. */
  ghost predicate Created(was: seq<View>, now: seq<View>, p: nat, i: nat, v: View, name: seq<byte>) {
    && p < |was| && ROOTINO <= i < |was| && i != p && was[i] == GONE && v.kind != Unused && was[p].kind == Directory
    && FirstNamed(Listing(was[p].bytes), name).None?
    && WithEntry(was[i := v], now, p, Entry(name, i))
  }

  lemma CreatedKeepsLinks(was: seq<View>, now: seq<View>, p: nat, i: nat, v: View, name: seq<byte>)
    requires LinksOk(was) && Created(was, now, p, i, v, name) && v.kind != Directory && v.nlink == 1
    ensures LinksOk(now)
  {
    hide DirTiled, DirOk, Named, Inserted, FirstNamed, Listing;
    var mid := was[i := v];
    forall k | 0 <= k < |now| ensures now[k].nlink == Refs(now, k) {
      RefsUpdate(was, i, v, k);
      RefsUpdate(mid, p, now[p], k);
      NamedInserted(was[p], now[p], Entry(name, i), k);
      NotDirNamesNothing(v, k);
      NotDirNamesNothing(GONE, k);
    }
    InsertedOk(was[p].bytes, now[p].bytes, Entry(name, i), p, |was|);
  }

  lemma NotDirNamesNothing(v: View, k: nat)
    requires v.kind != Directory
    ensures Named(v, k) == 0
  {
  }

  lemma NamedInserted(was: View, now: View, e: Entry, k: nat)
    requires was.kind == now.kind == Directory && Inserted(Listing(was.bytes), Listing(now.bytes), e)
    ensures Named(now, k) == Named(was, k) + if e.ino == k then 1 else 0
  {
    hide Inserted, Listing;
    CountInserted(Listing(was.bytes), Listing(now.bytes), e, k);
  }

  lemma NamedDeleted(was: View, now: View, name: seq<byte>, k: nat)
    requires was.kind == now.kind == Directory && Deleted(Listing(was.bytes), Listing(now.bytes), name)
    ensures FirstNamed(Listing(was.bytes), name).Some?
    ensures Named(was, k) == Named(now, k) + if FirstNamed(Listing(was.bytes), name).value == k then 1 else 0
  {
    hide Deleted, Listing;
    CountDeleted(Listing(was.bytes), Listing(now.bytes), name, k);
  }

  /** One link of a file is gone: its entry, and one from its count or the file itself. */
  ghost predicate Unlinked(was: seq<View>, now: seq<View>, p: nat, t: nat, name: seq<byte>) {
    && p < |was| == |now| && t < |was| && t != p && was[t].nlink > 0
    && was[p].kind == Directory && FirstNamed(Listing(was[p].bytes), name) == Some(t)
    && (was[t].nlink == 1 ==> now[t] == GONE) && (was[t].nlink > 1 ==> now[t] == was[t].(nlink := was[t].nlink - 1))
    && WithoutEntry(was, now[t := was[t]], p, name)
  }

  lemma UnlinkedKeepsLinks(was: seq<View>, now: seq<View>, p: nat, t: nat, name: seq<byte>)
    requires LinksOk(was) && Unlinked(was, now, p, t, name) && was[t].kind != Directory && name != DOT && name != DOTDOT
    ensures LinksOk(now) && was[t].nlink > 0
  {
    hide DirTiled, DirOk, Named, Deleted, FirstNamed, Listing;
    var mid := now[t := was[t]];
    assert now == mid[t := now[t]];
    ReferencedHere(was, p, name, t);
    forall k | 0 <= k < |now| ensures now[k].nlink == Refs(now, k) {
      RefsUpdate(was, p, mid[p], k);
      RefsUpdate(mid, t, now[t], k);
      NamedDeleted(was[p], mid[p], name, k);
      NotDirNamesNothing(was[t], k);
      NotDirNamesNothing(now[t], k);
    }
    DeletedOk(was[p].bytes, mid[p].bytes, name, p, |was|);
  }

  lemma ReferencedHere(was: seq<View>, p: nat, name: seq<byte>, t: nat)
    requires LinksOk(was) && p < |was| && was[p].kind == Directory && t < |was|
    requires FirstNamed(Listing(was[p].bytes), name) == Some(t)
    ensures was[t].nlink > 0
  {
    hide DirTiled, DirOk, FirstNamed, Listing;
    FirstNamedIs(Listing(was[p].bytes), name);
    CountPositive(Listing(was[p].bytes), Entry(name, t));
    NamedIsReferenced(was, p, t);
  }

  /** The bytes of a file that is no directory do not matter to the links. */
  lemma EditedKeepsLinks(was: seq<View>, i: nat, bytes: seq<byte>)
    requires LinksOk(was) && i < |was| && was[i].kind != Directory && was[i].kind != Unused
    ensures LinksOk(was[i := was[i].(bytes := bytes)])
  {
    hide DirTiled, DirOk, Listing;
    var now := was[i := was[i].(bytes := bytes)];
    forall k | 0 <= k < |now| ensures now[k].nlink == Refs(now, k) {
      RefsUpdate(was, i, now[i], k);
    }
  }

  /** A new directory i with its two dot entries, named in p, whose ".." link p gained. */
  ghost predicate DirMade(was: seq<View>, now: seq<View>, p: nat, i: nat, v: View, name: seq<byte>) {
    && p < |was| == |now| && Created(was, now[p := now[p].(nlink := was[p].nlink)], p, i, v, name)
    && v.kind == Directory && v.nlink == 2 && DirTiled(v.bytes) && Kempt(v.bytes)
    && Listing(v.bytes) == [Entry(DOT, i), Entry(DOTDOT, p)] && DotsIn(Records(v.bytes), i) == Some(p)
    && now[p].nlink == was[p].nlink + 1
  }

  lemma DirMadeKeepsLinks(was: seq<View>, now: seq<View>, p: nat, i: nat, v: View, name: seq<byte>)
    requires LinksOk(was) && DirMade(was, now, p, i, v, name)
    ensures LinksOk(now)
  {
    hide DirTiled, DirOk, Named, Inserted, FirstNamed, Listing;
    var made := was[i := v];
    var mid := now[p := now[p].(nlink := was[p].nlink)];
    assert now == mid[p := now[p]];
    forall k | 0 <= k < |now| ensures now[k].nlink == Refs(now, k) {
      RefsUpdate(was, i, v, k);
      RefsUpdate(made, p, mid[p], k);
      RefsUpdate(mid, p, now[p], k);
      NamedInserted(was[p], mid[p], Entry(name, i), k);
      NotDirNamesNothing(GONE, k);
      SameNames(mid[p], now[p], k);
      TwoDots(v, i, p, k);
    }
    InsertedOk(was[p].bytes, mid[p].bytes, Entry(name, i), p, |was|);
    NewListingOk(v, i, p, |was|);
  }

  lemma SameNames(a: View, b: View, k: nat)
    requires a.kind == b.kind && a.bytes == b.bytes
    ensures Named(a, k) == Named(b, k)
  {
  }

  lemma TwoDots(v: View, i: nat, p: nat, k: nat)
    requires v.kind == Directory && Listing(v.bytes) == [Entry(DOT, i), Entry(DOTDOT, p)]
    ensures Named(v, k) == (if k == i then 1 else 0) + (if k == p then 1 else 0)
  {
    hide Listing;
    CountOne(Entry(DOTDOT, p), k);
    assert [Entry(DOT, i), Entry(DOTDOT, p)][1..] == [Entry(DOTDOT, p)];
  }

  lemma NewListingOk(v: View, i: nat, p: nat, n: nat)
    requires v.kind == Directory && DirTiled(v.bytes) && Listing(v.bytes) == [Entry(DOT, i), Entry(DOTDOT, p)]
    requires i < n && p < n
    ensures DirOk(v.bytes, i, n)
  {
    hide Listing, DirTiled;
    FirstNamedIs(Listing(v.bytes), DOTDOT);
    assert Listing(v.bytes)[1] == Entry(DOTDOT, p);
  }

  /** Directory t is gone from p, and with it the link its ".." held. */
  ghost predicate DirRemoved(was: seq<View>, now: seq<View>, p: nat, t: nat, name: seq<byte>) {
    && p < |was| == |now| && t < |was| && t != p
    && was[p].kind == Directory && was[t].kind == Directory && FirstNamed(Listing(was[p].bytes), name) == Some(t)
    && was[t].nlink == 2 && OnlyDots(Listing(was[t].bytes), t, p)
    && now[t] == GONE && now[p].nlink + 1 == was[p].nlink
    && WithoutEntry(was, now[t := was[t]][p := now[p].(nlink := was[p].nlink)], p, name)
  }

  lemma DirRemovedKeepsLinks(was: seq<View>, now: seq<View>, p: nat, t: nat, name: seq<byte>)
    requires LinksOk(was) && DirRemoved(was, now, p, t, name) && name != DOT && name != DOTDOT
    ensures LinksOk(now)
  {
    hide DirTiled, DirOk, Named, Deleted, FirstNamed, Listing, OnlyDots;
    var mid := now[t := was[t]][p := now[p].(nlink := was[p].nlink)];
    var gone := mid[t := GONE];
    assert now == gone[p := now[p]];
    forall k | 0 <= k < |now| ensures now[k].nlink == Refs(now, k) {
      RefsUpdate(was, p, mid[p], k);
      RefsUpdate(mid, t, GONE, k);
      RefsUpdate(gone, p, now[p], k);
      NamedDeleted(was[p], mid[p], name, k);
      NotDirNamesNothing(GONE, k);
      SameNames(mid[p], now[p], k);
      OnlyDotsNames(was, t, p, k);
    }
    DeletedOk(was[p].bytes, mid[p].bytes, name, p, |was|);
    NamesItself(now, p);
  }

  /** A well-formed directory has its own dot for a name. */
  lemma NamesItself(views: seq<View>, p: nat)
    requires p < |views| && views[p].kind == Directory && DirOk(views[p].bytes, p, |views|)
    ensures Refs(views, p) > 0
  {
    hide DirTiled, Listing, FirstNamed;
    CountPositive(Listing(views[p].bytes), Entry(DOT, p));
    NamedIsReferenced(views, p, p);
  }

  lemma OnlyDotsNames(was: seq<View>, t: nat, p: nat, k: nat)
    requires t < |was| && was[t].kind == Directory && OnlyDots(Listing(was[t].bytes), t, p) && t != p
    requires DirOk(was[t].bytes, t, |was|)
    ensures Named(was[t], k) == (if k == t then 1 else 0) + (if k == p then 1 else 0)
  {
    hide Listing, DirTiled, FirstNamed;
    JustDots(Listing(was[t].bytes), t, p, k);
  }

  lemma JustDots(es: seq<Entry>, t: nat, p: nat, k: nat)
    requires OnlyDots(es, t, p) && Distinct(es)
    ensures Count(es, k) == (if k == t then 1 else 0) + (if k == p then 1 else 0)
  {
    var a, b :| 0 <= a < |es| && 0 <= b < |es| && es[a] == Entry(DOT, t) && es[b] == Entry(DOTDOT, p);
    assert |es| == 2 by {
      hide Distinct;
      DotsOnly(es, t, p);
      if |es| > 2 {
        ThreeNames(es);
      }
    }
    CountOne(es[1], k);
    assert es[1..] == [es[1]];
  }

  lemma DotsOnly(es: seq<Entry>, t: nat, p: nat)
    requires OnlyDots(es, t, p)
    ensures forall j | 0 <= j < |es| :: es[j].name == DOT || es[j].name == DOTDOT
  {
    assert forall j | 0 <= j < |es| :: es[j] in es;
  }

  lemma ThreeNames(es: seq<Entry>)
    requires |es| > 2 && forall j | 0 <= j < |es| :: es[j].name == DOT || es[j].name == DOTDOT
    ensures !Distinct(es)
  {
    assert es[0].name == es[1].name || es[0].name == es[2].name || es[1].name == es[2].name;
  }
}
