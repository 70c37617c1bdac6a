/** fsck's claim accounting: the used-fragment map and the duplicate list of passes 1, 1b and 4. */
module FsckClaims {
  import opened Geometry
  import opened FreeMap
  import opened Image
  import opened Storage
  import opened Inodes

  const MAX_DUP: nat := 10
  const MAX_BAD: nat := 10

  /** fsck's inode states. */
  datatype State = Unallocated | File | Dir | DirFound | FileClear | DirClear

  predicate Bad(s: State) {
    s == FileClear || s == DirClear
  }

  // ---- what an inode claims ----

  /** outrange: part of the run lies past the end, or in a group's metadata. */
  predicate OutRange(g: Geometry, f: nat, n: nat) {
    var c := g.GroupOf(f);
    f + n > g.fragCount ||
    if f < g.Base(c) + g.Upper(c) then f + n > g.Base(c) + g.Lower(c) else f + n > g.Base(c + 1)
  }

  predicate InRange(g: Geometry, f: nat) {
    !OutRange(g, f, 1)
  }

  /** The fragments of a run that count as claims, in the order they are visited. */
  ghost function RunClaims(g: Geometry, f: nat, n: nat): seq<nat> {
    if n == 0 then []
    else RunClaims(g, f, n - 1) + if InRange(g, f + n - 1) then [f + n - 1] else []
  }

  ghost function Claims(g: Geometry, runs: seq<Extent>): seq<nat> {
    if runs == [] then []
    else Claims(g, runs[..|runs| - 1]) + RunClaims(g, runs[|runs| - 1].at, runs[|runs| - 1].n)
  }

  /** The inode refers to a fragment it cannot have. */
  ghost predicate HasBadRun(g: Geometry, runs: seq<Extent>) {
    exists k | 0 <= k < |runs| :: OutRange(g, runs[k].at, runs[k].n)
  }

  /** Each group holds its own metadata, and group 0 the summary area too. */
  ghost predicate MetadataFits(g: Geometry) {
    forall c: nat | c < g.ncg :: MetadataEnd(g, c) <= g.GroupFrags(c) && g.Lower(c) <= g.Upper(c)
  }

  function MetadataEnd(g: Geometry, c: nat): nat {
    g.Upper(c) + if c == 0 then g.csumFrags else 0
  }

  lemma SameGroup(g: Geometry, f: nat, k: nat)
    requires f + k < g.Base(g.GroupOf(f) + 1)
    ensures g.GroupOf(f + k) == g.GroupOf(f)
  {
    var c := g.GroupOf(f);
    DivBounds(f, g.fpg);
    BaseNext(g, c);
    DivModOf(c, f + k - g.Base(c), g.fpg);
  }

  lemma GroupBelow(g: Geometry, f: nat)
    requires f < g.fragCount
    ensures g.GroupOf(f) < g.ncg && g.Base(g.GroupOf(f)) <= f < g.Base(g.GroupOf(f)) + g.fpg
  {
    DivBounds(f, g.fpg);
    BaseMonotone(g, g.ncg, g.GroupOf(f));
  }

  lemma EndsOnDisk(g: Geometry, f: nat, n: nat)
    requires !OutRange(g, f, n)
    ensures f + n <= g.fragCount
  {
  }

  /** Every fragment of a run in range is in range. */
  lemma InRangeParts(g: Geometry, f: nat, n: nat, k: nat)
    requires MetadataFits(g) && !OutRange(g, f, n) && k < n
    ensures InRange(g, f + k)
  {
    hide Superblock.Valid, Superblock.GroupOf, Superblock.Base;
    var c := g.GroupOf(f);
    GroupBelow(g, f);
    BaseNext(g, c);
    GroupFragsBounds(g, c);
    SameGroup(g, f, k);
  }

  // ---- reserved areas ----

  /** Fragments pass 1 marks before it looks at any inode. */
  ghost predicate SetAside(g: Geometry, f: nat) {
    var c := g.GroupOf(f);
    f < g.fragCount && (c == 0 || g.Base(c) + g.Lower(c) <= f) && f < g.Base(c) + MetadataEnd(g, c)
  }

  method MarkReserved(g: Geometry) returns (bits: seq<bool>)
    requires MetadataFits(g)
    ensures |bits| == g.fragCount
    ensures forall f | 0 <= f < g.fragCount :: bits[f] <==> SetAside(g, f)
  {
    hide Superblock.Valid, Superblock.Base, Superblock.GroupOf;
    bits := seq(g.fragCount, _ => false);
    for c := 0 to g.ncg
      invariant |bits| == g.fragCount
      invariant forall f | 0 <= f < g.fragCount :: bits[f] <==> SetAside(g, f) && g.GroupOf(f) < c
    {
      var lo, hi := if c == 0 then g.Base(c) else g.Base(c) + g.Lower(c), g.Base(c) + MetadataEnd(g, c);
      GroupFragsBounds(g, c);
      ghost var was := bits;
      for i := lo to hi
        invariant |bits| == g.fragCount && hi <= g.fragCount
        invariant forall f | 0 <= f < g.fragCount :: bits[f] <==> was[f] || lo <= f < i
      {
        bits := bits[i := true];
      }
      forall f | 0 <= f < g.fragCount
        ensures bits[f] <==> SetAside(g, f) && g.GroupOf(f) < c + 1
      {
        GroupBelow(g, f);
        InGroup(g, c, f);
      }
    }
    forall f | 0 <= f < g.fragCount ensures g.GroupOf(f) < g.ncg {
      GroupBelow(g, f);
    }
  }

  lemma InGroup(g: Geometry, c: nat, f: nat)
    requires c < g.ncg && f < g.fragCount
    ensures g.Base(0) == 0
    ensures g.Base(c) <= f < g.Base(c) + g.fpg ==> g.GroupOf(f) == c
  {
    if g.Base(c) <= f < g.Base(c) + g.fpg {
      DivModOf(c, f - g.Base(c), g.fpg);
    }
  }

  // ---- the tally ----

  /** One bit plus the duplicate entries of a fragment make its outstanding claims. */
  ghost predicate Tally(used: seq<bool>, dups: seq<nat>, owed: multiset<nat>) {
    forall f: nat ::
      && (if f < |used| && used[f] then 1 else 0) + multiset(dups)[f] == owed[f]
      && (f in dups ==> f < |used| && used[f])
  }

  ghost predicate NoRepeats(xs: seq<nat>) {
    forall i, j | 0 <= i < j < |xs| :: xs[i] != xs[j]
  }

  /** The nodes up to muldup hold every duplicated fragment once. */
  ghost predicate Prefixed(dups: seq<nat>, prefix: nat) {
    && prefix <= |dups| && (prefix == 0 ==> dups == [])
    && NoRepeats(dups[..prefix])
    && forall f | f in dups :: f in dups[..prefix]
  }

  lemma BagInsert(xs: seq<nat>, k: nat, f: nat)
    requires k <= |xs|
    ensures multiset(xs[..k] + [f] + xs[k..]) == multiset(xs) + multiset{f}
    ensures forall x :: x in xs[..k] + [f] + xs[k..] <==> x == f || x in xs
  {
    assert xs == xs[..k] + xs[k..];
  }

  lemma BagSwap(xs: seq<nat>, i: nat, j: nat)
    requires i < |xs| && j < |xs|
    ensures multiset(xs[i := xs[j]][j := xs[i]]) == multiset(xs)
    ensures forall x :: x in xs[i := xs[j]][j := xs[i]] <==> x in xs
  {
    var ys := xs[i := xs[j]][j := xs[i]];
    assert forall x :: x in xs <==> x in multiset(xs);
    assert forall x :: x in ys <==> x in multiset(ys);
  }

  lemma TallyAt(used: seq<bool>, dups: seq<nat>, owed: multiset<nat>, f: nat)
    requires Tally(used, dups, owed)
    ensures owed[f] > 0 <==> f < |used| && used[f]
    ensures f in dups <==> owed[f] > 1
  {
  }

  lemma MarkUsed(used: seq<bool>, dups: seq<nat>, owed: multiset<nat>, f: nat)
    requires Tally(used, dups, owed) && f < |used| && !used[f]
    ensures Tally(used[f := true], dups, owed + multiset{f})
  {
    hide NoRepeats;
    assert f !in dups && multiset(dups)[f] == 0;
  }

  /** The list grows behind muldup, which moves on when the fragment is new to the list. */
  lemma DupAdded(used: seq<bool>, dups: seq<nat>, prefix: nat, owed: multiset<nat>, f: nat)
    requires Tally(used, dups, owed) && Prefixed(dups, prefix) && f < |used| && used[f]
    ensures prefix <= |dups| && (prefix == 0 ==> dups == [])
    ensures var now := dups[..prefix] + [f] + dups[prefix..];
            && Tally(used, now, owed + multiset{f})
            && Prefixed(now, if f in dups[..prefix] then prefix else prefix + 1)
            && forall x | x in now :: x == f || x in dups
  {
    var now := dups[..prefix] + [f] + dups[prefix..];
    BagInsert(dups, prefix, f);
    assert now[..prefix] == dups[..prefix] && now[..prefix + 1] == dups[..prefix] + [f];
    if f !in dups[..prefix] {
      assert forall x | x in now :: x in now[..prefix + 1];
    }
  }

  class Checker {
    const g: Geometry
    var used: seq<bool>
    var dups: seq<nat>
    var prefix: nat
    var head: nat
    var nBlks: int
    var state: seq<State>
    ghost var owed: multiset<nat>
    ghost var setAside: nat

    ghost predicate Valid()
      reads this
    {
      && MetadataFits(g) && |used| == g.fragCount
      && Tally(used, dups, owed) && Prefixed(dups, prefix) && head <= prefix <= |dups|
      && nBlks + setAside == PopCount(used)
      && (forall f | f in dups :: InRange(g, f))
    }

    /** Pass 1 starts with the reserved areas claimed once and nothing else. */
    constructor (g: Geometry, state: seq<State>)
      requires MetadataFits(g)
      ensures Valid() && this.g == g && this.state == state && dups == []
      ensures forall f: nat :: owed[f] == if SetAside(g, f) then 1 else 0
      ensures nBlks == 0
    {
      this.g, this.state := g, state;
      var bits := MarkReserved(g);
      used, dups, prefix, head, nBlks := bits, [], 0, 0, 0;
      owed := SetAsideBag(g);
      setAside := PopCount(bits);
    }

    /** blkerr. */
    method Blkerr(i: nat)
      requires i < |state| && (state[i] == File || state[i] == Dir || Bad(state[i]))
      modifies this`state
      ensures state == old(state)[i := Marked(old(state)[i])]
    {
      if state[i] == File {
        state := state[i := FileClear];
      } else if state[i] == Dir {
        state := state[i := DirClear];
      }
      assert state == old(state)[i := Marked(old(state)[i])];
    }

    /** pass1check for one fragment in range: the first claim sets the bit, a later one is a
        duplicate. */
    method Claim(f: nat) returns (dup: bool)
      requires Valid() && f < g.fragCount && InRange(g, f)
      modifies this`used, this`dups, this`prefix, this`nBlks, this`owed
      ensures Valid() && owed == old(owed) + multiset{f}
      ensures dup <==> old(owed)[f] > 0
    {
      hide Prefixed, PopCount, MetadataFits, Tally, OutRange;
      TallyAt(used, dups, owed, f);
      owed := owed + multiset{f};
      if !used[f] {
        MarkUsed(used, dups, old(owed), f);
        PopCountUpdate(used, f, true);
        nBlks := nBlks + 1;
        used := used[f := true];
        return false;
      }
      DupAdded(used, dups, prefix, old(owed), f);
      dups, prefix := InsertDup(dups, prefix, f);
      return true;
    }

    /** One fragment of an inode's run. */
    method ClaimFor(i: nat, f: nat) returns (dup: bool)
      requires Valid() && f < g.fragCount && InRange(g, f) && i < |state| && Markable(state[i])
      modifies this`used, this`dups, this`prefix, this`nBlks, this`owed, this`state
      ensures Valid() && owed == Plus(old(owed), [f]) && (dup <==> old(owed)[f] > 0)
      ensures state == old(state)[i := if dup then Marked(old(state)[i]) else old(state)[i]]
    {
      hide Tally, Prefixed, MetadataFits, Superblock.Valid, PopCount;
      dup := Claim(f);
      if dup {
        Blkerr(i);
      }
    }

    /** pass1check: stop is the MAXBAD or MAXDUP cut-off. */
    method Pass1Check(i: nat, x: Extent, badblk: nat, dupblk: nat) returns (stop: bool, badblk': nat, dupblk': nat)
      requires Valid() && i < |state| && Markable(state[i])
      modifies this`used, this`dups, this`prefix, this`nBlks, this`owed, this`state
      ensures Valid() && setAside == old(setAside)
      ensures stop ==> OutRange(g, x.at, x.n) || LateIn(old(owed), RunClaims(g, x.at, x.n))
      ensures !stop ==> owed == Plus(old(owed), RunClaims(g, x.at, x.n))
      ensures !stop ==> state == old(state)[i :=
                if OutRange(g, x.at, x.n) || Late(owed, RunClaims(g, x.at, x.n)) then Marked(old(state)[i]) else old(state)[i]]
      ensures |state| == |old(state)| && forall k | 0 <= k < |state| && k != i :: state[k] == old(state)[k]
      ensures Rested(old(state)[i], state[i])
    {
      hide Tally, Prefixed, MetadataFits, Superblock.Valid, PopCount, Late, LateIn, OutRange, Marked, RunClaims, Plus;
      NoClaims(g, x.at);
      PlusNone(owed);
      badblk', dupblk' := badblk, dupblk;
      ghost var s0, owed0, states := state[i], owed, state;
      MarkedTwice(s0);
      var anyout := OutRange(g, x.at, x.n);
      if anyout {
        Blkerr(i);
        badblk' := badblk' + 1;
        if badblk' >= MAX_BAD {
          return true, badblk', dupblk';
        }
      }
      NeverLate(owed);
      for k := 0 to x.n
        invariant Valid() && setAside == old(setAside)
        invariant owed == Plus(owed0, RunClaims(g, x.at, k))
        invariant state == states[i := if anyout || Late(owed, RunClaims(g, x.at, k)) then Marked(s0) else s0]
      {
        InRangeOrOut(g, x, k);
        if !anyout || !OutRange(g, x.at + k, 1) {
          InRangeBound(g, x.at + k);
          ClaimsOwed(owed0, RunClaims(g, x.at, k));
          LateStep(owed, RunClaims(g, x.at, k), x.at + k);
          var dup := ClaimFor(i, x.at + k);
          PlusPlus(owed0, RunClaims(g, x.at, k), [x.at + k]);
          if dup {
            dupblk' := dupblk' + 1;
            if dupblk' >= MAX_DUP {
              LateWhenDup(g, owed0, x, k);
              return true, badblk', dupblk';
            }
          }
        }
      }
      stop := false;
    }

    /** Pass 1's walk of one inode. */
    method Pass1Inode(i: nat, runs: seq<Extent>) returns (stop: bool)
      requires Valid() && i < |state| && (state[i] == File || state[i] == Dir)
      modifies this`used, this`dups, this`prefix, this`nBlks, this`owed, this`state
      ensures Valid()
      ensures stop ==> HasBadRun(g, runs) || LateIn(old(owed), Claims(g, runs))
      ensures !stop ==> owed == Plus(old(owed), Claims(g, runs))
      ensures !stop ==> state == old(state)[i :=
                if HasBadRun(g, runs) || Late(owed, Claims(g, runs)) then Marked(old(state)[i]) else old(state)[i]]
      ensures |state| == |old(state)| && forall k | 0 <= k < |state| && k != i :: state[k] == old(state)[k]
      ensures Rested(old(state)[i], state[i])
    {
      hide Tally, Prefixed, MetadataFits, Superblock.Valid, PopCount, OutRange, RunClaims, Late, LateIn, HasBadRun, Marked, Plus;
      var badblk, dupblk := 0, 0;
      ghost var s0, owed0, states := state[i], owed, state;
      MarkedTwice(s0);
      NeverLate(owed);
      NeverBad(g);
      PlusNone(owed);
      assert runs[..0] == [];
      for k := 0 to |runs|
        invariant Valid()
        invariant owed == Plus(owed0, Claims(g, runs[..k]))
        invariant state == states[i := if HasBadRun(g, runs[..k]) || Late(owed, Claims(g, runs[..k])) then Marked(s0) else s0]
      {
        assert runs[..k + 1][..k] == runs[..k];
        ghost var was := owed;
        stop, badblk, dupblk := Pass1Check(i, runs[k], badblk, dupblk);
        if stop {
          StopMeans(g, owed0, runs, k);
          return;
        }
        BadRunStep(g, runs, k);
        ClaimsOwed(owed0, Claims(g, runs[..k]));
        LateAppend(was, Claims(g, runs[..k]), RunClaims(g, runs[k].at, runs[k].n));
        PlusPlus(owed0, Claims(g, runs[..k]), RunClaims(g, runs[k].at, runs[k].n));
      }
      assert runs[..|runs|] == runs;
      stop := false;
    }

    /** Pass 1 over all inodes: a cut-off inode does not stop it. */
    method Pass1(walks: seq<seq<Extent>>) returns (cut: bool)
      requires Valid() && |walks| == |state|
      requires forall i | 0 <= i < |state| :: state[i] == Unallocated || state[i] == File || state[i] == Dir
      modifies this`used, this`dups, this`prefix, this`nBlks, this`owed, this`state
      ensures Valid() && |state| == |walks|
      ensures cut ==> Faulty(g, walks, old(owed), old(state))
      ensures !cut ==> owed == Plus(old(owed), ClaimsUpto(g, walks, old(state), |walks|))
      ensures !cut ==> forall i | 0 <= i < |walks| :: AfterPass1(g, walks, old(owed), old(state), state, i)
      ensures forall i | 0 <= i < |walks| :: Rested(old(state)[i], state[i])
    {
      hide Tally, Prefixed, MetadataFits, Superblock.Valid, PopCount, OutRange, Late, LateIn, HasBadRun, Claims, Plus, ClaimsUpto, Faulty;
      cut := false;
      NoClaimsUpto(g, walks, state);
      ghost var owed0, states := owed, state;
      PlusNone(owed);
      for i := 0 to |walks|
        invariant Valid() && |state| == |walks|
        invariant cut ==> Faulty(g, walks, owed0, states)
        invariant !cut ==> owed == Plus(owed0, ClaimsUpto(g, walks, states, i))
        invariant !cut ==> forall k | 0 <= k < i :: AfterPass1(g, walks, owed0, states, state, k)
        invariant forall k | 0 <= k < i :: Rested(states[k], state[k])
        invariant forall k | i <= k < |walks| :: state[k] == states[k]
      {
        ghost var before := state;
        ClaimsNext(g, walks, states, i);
        if i >= ROOTINO && state[i] != Unallocated {
          ghost var was := owed;
          var stop := Pass1Inode(i, walks[i]);
          if stop && !cut { FaultyAt(g, walks, owed0, states, i); }
          PlusPlus(owed0, ClaimsUpto(g, walks, states, i), Claims(g, walks[i]));
          ghost var now := state;
          assert forall k | 0 <= k < i :: AfterPass1(g, walks, owed0, states, now, k) <==> AfterPass1(g, walks, owed0, states, before, k);
          cut := cut || stop;
        }
      }
    }

    /** Pass 1b's search for one fragment. */
    method FindFirst(i: nat, f: nat)
      requires Valid() && i < |state| && Markable(state[i]) && (dups == [] || head < prefix)
      modifies this`dups, this`head, this`state
      ensures Valid() && Elems(dups) == old(Elems(dups)) && |dups| == |old(dups)|
      ensures Found() == old(Found()) + (if f in old(Elems(dups)) then {f} else {})
      ensures state == old(state)[i := if f in Found() && f !in old(Found()) then Marked(old(state)[i]) else old(state)[i]]
    {
      hide Tally, MetadataFits, Superblock.Valid, PopCount, OutRange, Marked, Prefixed, Elems, Swapped;
      ghost var dups0, head0 := dups, head;
      var hit;
      dups, head, hit := SwapFound(dups, prefix, head, f);
      if hit {
        Blkerr(i);
      }
      FoundAfter(dups0, dups, prefix, head0, head, f, hit);
      TallyKept(used, dups0, dups, owed);
    }

    /** pass1bcheck: stop once every duplicated fragment has been met. */
    method Pass1bCheck(i: nat, x: Extent) returns (stop: bool)
      requires Valid() && i < |state| && Markable(state[i]) && (dups == [] || head < prefix)
      modifies this`dups, this`head, this`state
      ensures Valid() && Elems(dups) == old(Elems(dups)) && |dups| == |old(dups)|
      ensures Met(old(Found()), Found(), Elems(dups), RunClaims(g, x.at, x.n), stop)
      ensures state == old(state)[i := if Found() == old(Found()) then old(state)[i] else Marked(old(state)[i])]
      ensures !stop ==> dups == [] || head < prefix
    {
      hide Tally, MetadataFits, Superblock.Valid, PopCount, OutRange, Marked, Prefixed, Elems, RunClaims, InRange;
      ghost var found0, all, s0, states := Found(), Elems(dups), state[i], state;
      MarkedTwice(s0);
      NoClaims(g, x.at);
      for k := 0 to x.n
        invariant Valid() && Elems(dups) == all && |dups| == |old(dups)| && (dups == [] || head < prefix)
        invariant Met(found0, Found(), all, RunClaims(g, x.at, k), false)
        invariant state == states[i := if Found() == found0 then s0 else Marked(s0)]
      {
        ghost var before := Found();
        DupsInRange(dups, x.at + k);
        FindFirst(i, x.at + k);
        MetStep(g, found0, before, Found(), all, x, k);
        if dups == [] || head == prefix {
          FoundEverything(dups, prefix, head);
          MetPrefix(g, found0, Found(), all, x, k + 1);
          return true;
        }
      }
      stop := false;
    }

    /** Pass 1b's walk of one inode. */
    method Pass1bInode(i: nat, runs: seq<Extent>) returns (stop: bool)
      requires Valid() && i < |state| && Markable(state[i]) && (dups == [] || head < prefix)
      modifies this`dups, this`head, this`state
      ensures Valid() && Elems(dups) == old(Elems(dups)) && |dups| == |old(dups)|
      ensures Met(old(Found()), Found(), Elems(dups), Claims(g, runs), stop)
      ensures state == old(state)[i := if Found() == old(Found()) then old(state)[i] else Marked(old(state)[i])]
      ensures !stop ==> dups == [] || head < prefix
    {
      hide Tally, MetadataFits, Superblock.Valid, PopCount, OutRange, Marked, Prefixed, Elems, RunClaims, InRange;
      ghost var found0, all, s0, states := Found(), Elems(dups), state[i], state;
      MarkedTwice(s0);
      assert runs[..0] == [];
      for k := 0 to |runs|
        invariant Valid() && Elems(dups) == all && |dups| == |old(dups)| && (dups == [] || head < prefix)
        invariant Met(found0, Found(), all, Claims(g, runs[..k]), false)
        invariant state == states[i := if Found() == found0 then s0 else Marked(s0)]
      {
        assert runs[..k + 1][..k] == runs[..k];
        ghost var before := Found();
        stop := Pass1bCheck(i, runs[k]);
        MetAppend(found0, before, Found(), all, Claims(g, runs[..k]), RunClaims(g, runs[k].at, runs[k].n), stop);
        if stop {
          ClaimsPrefix(g, runs, k + 1);
          return;
        }
      }
      assert runs[..|runs|] == runs;
      stop := false;
    }

    /** Pass 1b: walk the inodes again until every duplicated fragment has been met once. */
    method Pass1b(walks: seq<seq<Extent>>)
      requires Valid() && |walks| == |state| && forall i | 0 <= i < |state| :: state[i] != DirFound
      modifies this`dups, this`head, this`state
      ensures Valid() && Elems(dups) == old(Elems(dups)) && |state| == |walks|
      ensures forall i | 0 <= i < |walks| :: AfterPass1b(g, walks, Elems(dups), old(state), state, i)
    {
      hide Tally, MetadataFits, Superblock.Valid, PopCount, OutRange, Marked, Prefixed, Elems, Claims, InRange, AfterPass1b;
      ghost var states, all := state, Elems(dups);
      head := 0;
      NoneFound(dups);
      NoClaimsUpto(g, walks, state);
      StartOver(dups, prefix);
      if dups == [] {
        NothingDuplicated(g, walks, all, states);
        return;
      }
      for i := 0 to |walks|
        invariant Valid() && Elems(dups) == all && |state| == |walks| && |dups| == |old(dups)| && head < prefix
        invariant Met({}, Found(), all, ClaimsUpto(g, walks, states, i), false)
        invariant forall k | 0 <= k < i :: AfterPass1b(g, walks, all, states, state, k)
        invariant forall k | i <= k < |walks| :: state[k] == states[k]
      {
        ghost var before, found := state, Found();
        ClaimsNext(g, walks, states, i);
        if i >= ROOTINO && state[i] != Unallocated {
          MarkableWalked(state[i]);
          var stop := Pass1bInode(i, walks[i]);
          InodeRescanned(g, walks, all, found, Found(), states, state, i, stop);
          MetAppend({}, found, Found(), all, ClaimsUpto(g, walks, states, i), Claims(g, walks[i]), stop);
          OthersSame(g, walks, all, states, before, state, i);
          if stop {
            RestFound(g, walks, all, Found(), states, state, i + 1);
            return;
          }
        } else {
          NotRescanned(g, walks, all, states, state, i);
        }
      }
    }

    /** Passes 1 and 1b on fresh state; pass 1b may walk an inode otherwise than pass 1 did. Unless an
        inode was cut off, and if both passes claim the same or nothing is claimed twice, an inode
        ends up marked for clearing exactly when it names a fragment it cannot have or shares one. */
    method FindDuplicates(walks: seq<seq<Extent>>, again: seq<seq<Extent>>) returns (cut: bool)
      requires Valid() && |walks| == |again| == |state| && owed == SetAsideBag(g)
      requires forall i | 0 <= i < |state| :: state[i] == Unallocated || state[i] == File || state[i] == Dir
      modifies this
      ensures Valid() && |state| == |walks|
      ensures cut ==> exists i | 0 <= i < |walks| ::
                Walked(old(state), i) && (HasBadRun(g, walks[i]) || SharesFragment(g, walks, old(state), i))
      ensures !cut ==> owed == Plus(SetAsideBag(g), ClaimsUpto(g, walks, state, |walks|))
      ensures !cut && (Alike(g, walks, again, old(state)) || NoneTwiceOwed(owed)) ==>
                forall i | 0 <= i < |walks| && Walked(old(state), i) ::
                  Bad(state[i]) <==> HasBadRun(g, walks[i]) || SharesFragment(g, walks, old(state), i)
      ensures forall i | 0 <= i < |walks| :: Rested(old(state)[i], state[i])
    {
      hide Tally, MetadataFits, Superblock.Valid, PopCount, OutRange, Prefixed, Elems, Claims, AfterPass1, AfterPass1b,
        HasBadRun, SharesFragment, Plus, SetAsideBag, Faulty, Alike;
      ghost var states := state;
      cut := Pass1(walks);
      if cut { FaultyMeans(g, walks, states); }
      ghost var mid := state;
      Pass1b(again);
      SameWalks(g, walks, states, mid);
      DupsAreShared(used, dups, owed);
      if !cut && (Alike(g, walks, again, states) || NoneTwiceOwed(owed)) {
        forall i | 0 <= i < |walks| && Walked(states, i)
          ensures Bad(state[i]) <==> HasBadRun(g, walks[i]) || SharesFragment(g, walks, states, i)
        {
          assert AfterPass1b(g, again, Elems(dups), mid, state, i);
          if Alike(g, walks, again, states) {
            RescannedAlike(g, walks, again, Elems(dups), states, mid, state, i);
          } else {
            RescannedNothing(g, walks, again, Elems(dups), mid, state, i);
          }
          MarksExact(g, walks, Elems(dups), owed, states, mid, state, i);
          SharedMeans(g, walks, states, i);
        }
      }
      assert forall i | 0 <= i < |walks| :: AfterPass1b(g, again, Elems(dups), mid, state, i);
      RestedTwice(g, again, Elems(dups), states, mid, state);
      SameWalks(g, walks, states, state);
    }

    /** What pass 4 needs and keeps: the list's order no longer matters. */
    ghost predicate Balanced()
      reads this
    {
      && MetadataFits(g) && |used| == g.fragCount
      && Tally(used, dups, owed) && nBlks + setAside == PopCount(used)
    }

    /** pass4check for one fragment: a claim is taken off the list, the last one off the map; where
        none is left nothing happens. */
    method Unclaim(f: nat)
      requires Balanced() && InRange(g, f)
      modifies this`used, this`dups, this`nBlks, this`owed
      ensures Balanced() && owed == old(owed) - multiset{f}
    {
      hide PopCount, MetadataFits, Tally, OutRange;
      TallyAt(used, dups, owed, f);
      owed := owed - multiset{f};
      EndsOnDisk(g, f, 1);
      if !used[f] {
        assert old(owed)[f] == 0 && owed == old(owed);
      }
      if used[f] {
        var j := 0;
        while j < |dups| && dups[j] != f
          invariant 0 <= j <= |dups| && f !in dups[..j]
        {
          j := j + 1;
        }
        if j < |dups| {
          DupTaken(used, dups, old(owed), f, j);
          dups := dups[j := dups[0]];
          dups := dups[1..];
        } else {
          assert dups[..j] == dups;
          LastTaken(used, dups, old(owed), f);
          PopCountUpdate(used, f, false);
          used := used[f := false];
          nBlks := nBlks - 1;
        }
      }
    }

    /** pass4check over one run. */
    method Pass4Check(x: Extent)
      requires Balanced()
      modifies this`used, this`dups, this`nBlks, this`owed
      ensures Balanced() && owed == Minus(old(owed), RunClaims(g, x.at, x.n))
    {
      hide PopCount, MetadataFits, Tally, OutRange, RunClaims, Minus;
      ghost var owed0 := owed;
      MinusNone(owed);
      NoClaims(g, x.at);
      for k := 0 to x.n
        invariant Balanced() && owed == Minus(owed0, RunClaims(g, x.at, k))
      {
        RunClaimsNext(g, x.at, k);
        if !OutRange(g, x.at + k, 1) {
          MinusOne(owed0, RunClaims(g, x.at, k), x.at + k);
          Unclaim(x.at + k);
        }
      }
    }

    /** The walk of clri: everything the inode claims is given up. */
    method GiveUp(runs: seq<Extent>)
      requires Balanced()
      modifies this`used, this`dups, this`nBlks, this`owed
      ensures Balanced() && owed == Minus(old(owed), Claims(g, runs))
    {
      hide PopCount, MetadataFits, Tally, OutRange, RunClaims, Minus;
      ghost var owed0 := owed;
      MinusNone(owed);
      assert runs[..0] == [];
      for k := 0 to |runs|
        invariant Balanced() && owed == Minus(owed0, Claims(g, runs[..k]))
      {
        assert runs[..k + 1][..k] == runs[..k];
        MinusTwice(owed0, Claims(g, runs[..k]), RunClaims(g, runs[k].at, runs[k].n));
        Pass4Check(runs[k]);
      }
      assert runs[..|runs|] == runs;
    }

    /** Pass 4's decisions, lost telling which unnamed inodes lost+found had no room for: what is bad,
        unreachable or unreferenced goes, and its walk gives up what it names. Afterwards the map has
        the fragments with a claim left; where every inode that goes gives up what it claimed, those
        are exactly the fragments that a reserved area or a surviving inode still claims. */
    method Pass4(ghost walks: seq<seq<Extent>>, again: seq<seq<Extent>>, lncnt: seq<int>, zero: seq<bool>, lost: seq<bool>)
      requires Balanced() && |walks| == |again| == |state| == |lncnt| == |zero| == |lost|
      modifies this`used, this`dups, this`nBlks, this`owed, this`state
      ensures Balanced() && |state| == |walks|
      ensures forall i | 0 <= i < |walks| ::
                state[i] == if i >= ROOTINO && Doomed(old(state)[i], lncnt[i], zero[i], lost[i]) then Unallocated else old(state)[i]
      ensures owed == Minus(old(owed), GivenUp(g, again, old(state), lncnt, zero, lost, |again|))
      ensures forall f | 0 <= f < g.fragCount :: used[f] <==> owed[f] > 0
      ensures old(owed) == Plus(SetAsideBag(g), ClaimsUpto(g, walks, old(state), |walks|))
              && GivesUpOwn(g, walks, again, old(state), lncnt, zero, lost) ==>
                forall f | 0 <= f < g.fragCount ::
                  used[f] <==> SetAside(g, f) || exists i | 0 <= i < |walks| :: Walked(state, i) && f in Claims(g, walks[i])
    {
      hide PopCount, MetadataFits, Tally, OutRange, Claims, ClaimsUpto, Plus, SetAsideBag, SetAside, Minus, GivenUp;
      ghost var owed0, state0 := owed, state;
      ghost var own := owed == Plus(SetAsideBag(g), ClaimsUpto(g, walks, state, |walks|))
                       && GivesUpOwn(g, walks, again, state, lncnt, zero, lost);
      MinusNone(owed);
      NothingGivenUp(g, again, state, lncnt, zero, lost);
      for i := 0 to |again|
        invariant Balanced() && |state| == |walks|
        invariant owed == Minus(owed0, GivenUp(g, again, state0, lncnt, zero, lost, i))
        invariant own ==> owed == Plus(SetAsideBag(g), ClaimsUpto(g, walks, state, |walks|))
        invariant forall k | 0 <= k < |walks| ::
                    state[k] == if ROOTINO <= k < i && Doomed(state0[k], lncnt[k], zero[k], lost[k]) then Unallocated else state0[k]
      {
        GivenUpNext(g, again, state0, lncnt, zero, lost, i);
        if i >= ROOTINO && Doomed(state[i], lncnt[i], zero[i], lost[i]) {
          Dropped(g, walks, state, i);
          MinusTwice(owed0, GivenUp(g, again, state0, lncnt, zero, lost, i), Claims(g, again[i]));
          GiveUp(again[i]);
          state := state[i := Unallocated];
        }
      }
      forall f | 0 <= f < g.fragCount
        ensures used[f] <==> owed[f] > 0
        ensures own ==> (used[f] <==> SetAside(g, f) || exists i | 0 <= i < |walks| :: Walked(state, i) && f in Claims(g, walks[i]))
      {
        TallyAt(used, dups, owed, f);
        PlusAt(SetAsideBag(g), ClaimsUpto(g, walks, state, |walks|), f);
        SomeoneClaims(g, walks, state, |walks|, f);
        SetAsideAt(g, f);
      }
    }

    /** Duplicated fragments whose first claimant pass 1b has met. */
    ghost function Found(): set<nat>
      reads this
      requires head <= |dups|
    {
      Elems(dups[..head])
    }
  }

  ghost function Elems(xs: seq<nat>): set<nat> {
    set x | x in xs
  }

  /** The node with value f, between two positions, traded places with the one at head. */
  ghost predicate Swapped(dups: seq<nat>, now: seq<nat>, head: nat, end: nat, f: nat) {
    exists k | head <= k < end :: end <= |dups| && dups[k] == f && now == dups[head := f][k := dups[head]]
  }

  /** pass1bcheck's loop: a node with the value swaps it to the front of the unfound part. */
  method SwapFound(dups: seq<nat>, prefix: nat, head: nat, f: nat) returns (now: seq<nat>, next: nat, hit: bool)
    requires Prefixed(dups, prefix) && head <= prefix && (dups == [] || head < prefix)
    ensures hit <==> f in dups[head..prefix]
    ensures if hit then next == head + 1 && Swapped(dups, now, head, prefix, f)
            else now == dups && next == head
  {
    now, next, hit := dups, head, false;
    var j := head;
    while j < |now|
      invariant head <= j <= prefix && |now| == |dups| && (dups != [] ==> j < prefix)
      invariant hit <==> f in dups[head..j]
      invariant if hit then next == head + 1 && Swapped(dups, now, head, j, f)
                else now == dups && next == head
      decreases |now| - j
    {
      ghost var was := hit;
      assert dups[head..j + 1] == dups[head..j] + [dups[j]];
      SecondHit(dups, prefix, head, j, f, now, hit);
      if now[j] == f {
        now := now[j := now[next]];
        now := now[next := f];
        next := next + 1;
        hit := true;
        assert dups[j] == f && now == dups[head := f][j := dups[head]];
      }
      if j == prefix - 1 {
        return;
      }
      j := j + 1;
    }
  }

  lemma NoClaimsUpto(g: Geometry, walks: seq<seq<Extent>>, state: seq<State>)
    requires |walks| == |state|
    ensures ClaimsUpto(g, walks, state, 0) == []
  {
  }

  lemma ClaimsNext(g: Geometry, walks: seq<seq<Extent>>, state: seq<State>, k: nat)
    requires k < |walks| == |state|
    ensures ClaimsUpto(g, walks, state, k + 1)
         == if Walked(state, k) then ClaimsUpto(g, walks, state, k) + Claims(g, walks[k]) else ClaimsUpto(g, walks, state, k)
  {
  }

  /** After a hit no later node of the prefix has the value. */
  lemma SecondHit(dups: seq<nat>, prefix: nat, head: nat, j: nat, f: nat, now: seq<nat>, hit: bool)
    requires Prefixed(dups, prefix) && head <= j < prefix && |now| == |dups|
    requires if hit then Swapped(dups, now, head, j, f) else now == dups
    ensures hit ==> now[j] != f && dups[j] != f
    ensures !hit ==> now[j] == dups[j]
  {
    if hit {
      var k :| head <= k < j && dups[k] == f && now == dups[head := f][k := dups[head]];
      assert dups[..prefix][k] == f && dups[..prefix][j] == dups[j];
    }
  }

  lemma TallyKept(used: seq<bool>, dups: seq<nat>, now: seq<nat>, owed: multiset<nat>)
    requires Tally(used, dups, owed) && multiset(now) == multiset(dups)
    ensures Tally(used, now, owed)
  {
    assert forall x :: x in now <==> x in multiset(now);
    assert forall x :: x in dups <==> x in multiset(dups);
  }

  /** Each step of pass 1's outcome for an inode: its mark is exact for the claims made so far. */
  ghost predicate AfterPass1(g: Geometry, walks: seq<seq<Extent>>, owed: multiset<nat>, was: seq<State>, now: seq<State>, i: nat)
    requires |walks| == |was| == |now| && i < |walks|
  {
    Walked(was, i) ==>
      (Bad(now[i]) <==> HasBadRun(g, walks[i]) || Late(Plus(owed, ClaimsUpto(g, walks, was, i + 1)), Claims(g, walks[i])))
  }

  predicate Walked(state: seq<State>, i: nat)
    requires i < |state|
  {
    i >= ROOTINO && state[i] != Unallocated
  }

  /** The duplicated fragments met after a list of claims; a stop means all have been. */
  ghost predicate Met(was: set<nat>, now: set<nat>, all: set<nat>, claims: seq<nat>, stop: bool) {
    && was <= now && (forall f | f in now :: f in was || (f in all && f in claims))
    && if stop then all <= now else forall f | f in claims && f in all :: f in now
  }

  lemma DupsInRange(dups: seq<nat>, f: nat)
    ensures f in Elems(dups) <==> f in dups
  {
  }

  lemma MetStep(g: Geometry, was: set<nat>, before: set<nat>, now: set<nat>, all: set<nat>, x: Extent, k: nat)
    requires k < x.n && Met(was, before, all, RunClaims(g, x.at, k), false)
    requires now == before + (if x.at + k in all then {x.at + k} else {})
    requires x.at + k in all ==> InRange(g, x.at + k)
    ensures Met(was, now, all, RunClaims(g, x.at, k + 1), false)
    ensures before != now ==> was != now
  {
    hide InRange;
  }

  lemma MetPrefix(g: Geometry, was: set<nat>, now: set<nat>, all: set<nat>, x: Extent, k: nat)
    requires k <= x.n && Met(was, now, all, RunClaims(g, x.at, k), false) && all <= now
    ensures Met(was, now, all, RunClaims(g, x.at, x.n), true)
  {
    hide InRange;
    RunClaimsGrow(g, x.at, k, x.n);
  }

  lemma {:induction false} RunClaimsGrow(g: Geometry, f: nat, k: nat, n: nat)
    requires k <= n
    ensures forall x | x in RunClaims(g, f, k) :: x in RunClaims(g, f, n)
  {
    if k < n {
      RunClaimsGrow(g, f, k, n - 1);
    }
  }

  lemma FoundEverything(dups: seq<nat>, prefix: nat, head: nat)
    requires Prefixed(dups, prefix) && (dups == [] || head == prefix) && head <= prefix
    ensures head <= |dups| && Elems(dups) <= Elems(dups[..head])
  {
  }

  lemma MetAppend(was: set<nat>, before: set<nat>, now: set<nat>, all: set<nat>, a: seq<nat>, b: seq<nat>, stop: bool)
    requires Met(was, before, all, a, false) && Met(before, now, all, b, stop)
    ensures Met(was, now, all, a + b, stop)
    ensures before != now ==> was != now
  {
  }

  lemma {:induction false} ClaimsPrefix(g: Geometry, runs: seq<Extent>, k: nat)
    requires k <= |runs|
    ensures forall x | x in Claims(g, runs[..k]) :: x in Claims(g, runs)
    decreases |runs|
  {
    hide RunClaims;
    if k == |runs| {
      assert runs[..k] == runs;
    } else {
      ClaimsPrefix(g, runs[..|runs| - 1], k);
      assert runs[..|runs| - 1][..k] == runs[..k];
    }
  }

  /** Pass 1b's outcome for an inode: marked if it is the first claimant of a duplicated fragment,
      and only inodes that claim one are marked. */
  ghost predicate AfterPass1b(g: Geometry, walks: seq<seq<Extent>>, all: set<nat>, was: seq<State>, now: seq<State>, i: nat)
    requires |walks| == |was| == |now| && i < |walks|
  {
    && (Walked(was, i) && (exists f :: f in Claims(g, walks[i]) && f in all && f !in ClaimsUpto(g, walks, was, i)) ==> Bad(now[i]))
    && (now[i] != was[i] ==>
          Walked(was, i) && now[i] == Marked(was[i]) && exists f :: f in Claims(g, walks[i]) && f in all)
  }

  lemma MarkableWalked(s: State)
    ensures Markable(s) <==> s != Unallocated && s != DirFound
  {
  }

  lemma NoneFound(dups: seq<nat>)
    ensures dups[..0] == [] && Elems([]) == {}
  {
  }

  lemma StartOver(dups: seq<nat>, prefix: nat)
    requires Prefixed(dups, prefix)
    ensures dups != [] ==> 0 < prefix <= |dups|
  {
  }

  lemma NothingDuplicated(g: Geometry, walks: seq<seq<Extent>>, all: set<nat>, states: seq<State>)
    requires |walks| == |states| && all == {}
    ensures forall i | 0 <= i < |walks| :: AfterPass1b(g, walks, all, states, states, i)
  {
    hide Claims, ClaimsUpto;
  }

  lemma NotRescanned(g: Geometry, walks: seq<seq<Extent>>, all: set<nat>, was: seq<State>, now: seq<State>, i: nat)
    requires |walks| == |was| == |now| && i < |walks| && now[i] == was[i] && !Walked(was, i)
    ensures AfterPass1b(g, walks, all, was, now, i)
  {
    hide Claims, ClaimsUpto;
  }

  lemma InodeRescanned(g: Geometry, walks: seq<seq<Extent>>, all: set<nat>, found: set<nat>, found': set<nat>,
                       was: seq<State>, now: seq<State>, i: nat, stop: bool)
    requires |walks| == |was| == |now| && i < |walks| && Walked(was, i) && Markable(was[i])
    requires Met({}, found, all, ClaimsUpto(g, walks, was, i), false)
    requires Met(found, found', all, Claims(g, walks[i]), stop)
    requires now[i] == if found' == found then was[i] else Marked(was[i])
    ensures AfterPass1b(g, walks, all, was, now, i)
  {
    hide Claims, ClaimsUpto;
    MarkedTwice(was[i]);
    if found' != found {
      var f :| f in found' && f !in found;
      assert f in Claims(g, walks[i]) && f in all;
    }
  }

  lemma OthersSame(g: Geometry, walks: seq<seq<Extent>>, all: set<nat>, was: seq<State>, before: seq<State>, now: seq<State>, i: nat)
    requires |walks| == |was| == |now| == |before| && i < |walks|
    requires forall k | 0 <= k < |walks| && k != i :: now[k] == before[k]
    requires forall k | 0 <= k < i :: AfterPass1b(g, walks, all, was, before, k)
    ensures forall k | 0 <= k < i :: AfterPass1b(g, walks, all, was, now, k)
  {
    hide Claims, ClaimsUpto;
    forall k | 0 <= k < i ensures AfterPass1b(g, walks, all, was, now, k) {
      assert AfterPass1b(g, walks, all, was, before, k);
    }
  }

  /** Inodes after an early stop are nobody's first claimant. */
  lemma RestFound(g: Geometry, walks: seq<seq<Extent>>, all: set<nat>, found: set<nat>, was: seq<State>, now: seq<State>, i: nat)
    requires |walks| == |was| == |now| && i <= |walks|
    requires Met({}, found, all, ClaimsUpto(g, walks, was, i), true)
    requires forall k | 0 <= k < i :: AfterPass1b(g, walks, all, was, now, k)
    requires forall k | i <= k < |walks| :: now[k] == was[k]
    ensures forall k | 0 <= k < |walks| :: AfterPass1b(g, walks, all, was, now, k)
  {
    hide Claims, ClaimsUpto;
    forall k | i <= k < |walks| ensures AfterPass1b(g, walks, all, was, now, k) {
      ClaimsUptoGrow(g, walks, was, i, k);
    }
  }

  lemma {:induction false} ClaimsUptoGrow(g: Geometry, walks: seq<seq<Extent>>, was: seq<State>, i: nat, k: nat)
    requires |walks| == |was| && i <= k <= |walks|
    ensures forall f | f in ClaimsUpto(g, walks, was, i) :: f in ClaimsUpto(g, walks, was, k)
  {
    hide Claims;
    if i < k {
      ClaimsUptoGrow(g, walks, was, i, k - 1);
    }
  }

  /** Both walks of every inode claim the same. */
  ghost predicate Alike(g: Geometry, walks: seq<seq<Extent>>, again: seq<seq<Extent>>, state: seq<State>)
    requires |walks| == |again| == |state|
  {
    forall i | 0 <= i < |walks| && Walked(state, i) :: Claims(g, again[i]) == Claims(g, walks[i])
  }

  ghost predicate NoneTwiceOwed(owed: multiset<nat>) {
    forall f: nat :: owed[f] <= 1
  }

  lemma {:induction false} UptoAlike(g: Geometry, walks: seq<seq<Extent>>, again: seq<seq<Extent>>, state: seq<State>, k: nat)
    requires |walks| == |again| == |state| && k <= |walks| && Alike(g, walks, again, state)
    ensures ClaimsUpto(g, again, state, k) == ClaimsUpto(g, walks, state, k)
  {
    hide Claims;
    if k > 0 {
      UptoAlike(g, walks, again, state, k - 1);
    }
  }

  lemma RescannedAlike(g: Geometry, walks: seq<seq<Extent>>, again: seq<seq<Extent>>, all: set<nat>,
                       was: seq<State>, mid: seq<State>, now: seq<State>, i: nat)
    requires |walks| == |again| == |was| == |mid| == |now| && i < |walks| && Alike(g, walks, again, was)
    requires forall k | 0 <= k < |walks| :: Walked(mid, k) <==> Walked(was, k)
    requires Walked(was, i) && AfterPass1b(g, again, all, mid, now, i)
    ensures AfterPass1b(g, walks, all, mid, now, i)
  {
    hide Claims, ClaimsUpto, Walked;
    assert Alike(g, walks, again, mid);
    UptoAlike(g, walks, again, mid, i);
    assert Claims(g, again[i]) == Claims(g, walks[i]);
  }

  lemma RescannedNothing(g: Geometry, walks: seq<seq<Extent>>, again: seq<seq<Extent>>, all: set<nat>,
                         mid: seq<State>, now: seq<State>, i: nat)
    requires |walks| == |again| == |mid| == |now| && i < |walks| && all == {} && AfterPass1b(g, again, all, mid, now, i)
    ensures AfterPass1b(g, walks, all, mid, now, i)
  {
    hide Claims, ClaimsUpto;
  }

  /** A state is as it was or marked for clearing. */
  predicate Rested(was: State, now: State) {
    now == was || (was != Unallocated && now == Marked(was))
  }

  /** The claims of the inodes below k, in the order they are made. */
  ghost function ClaimsUpto(g: Geometry, walks: seq<seq<Extent>>, state: seq<State>, k: nat): seq<nat>
    requires k <= |walks| == |state|
  {
    if k == 0 then [] else ClaimsUpto(g, walks, state, k - 1) + if Walked(state, k - 1) then Claims(g, walks[k - 1]) else []
  }

  predicate Markable(s: State) {
    s == File || s == Dir || Bad(s)
  }

  /** Some fragment of the list is claimed more than once. */
  ghost predicate Late(owed: multiset<nat>, claims: seq<nat>) {
    exists f :: f in claims && owed[f] > 1
  }

  /** Once the list is claimed too, one of its fragments is claimed more than once. */
  ghost predicate LateIn(owed: multiset<nat>, claims: seq<nat>) {
    Late(Plus(owed, claims), claims)
  }

  lemma LateWhenDup(g: Geometry, owed: multiset<nat>, x: Extent, k: nat)
    requires k < x.n && InRange(g, x.at + k) && Plus(owed, RunClaims(g, x.at, k))[x.at + k] > 0
    ensures LateIn(owed, RunClaims(g, x.at, x.n))
  {
    hide OutRange, RunClaims;
    var f, claims := x.at + k, RunClaims(g, x.at, k);
    RunClaimsNext(g, x.at, k);
    RunClaimsBag(g, x.at, k + 1, x.n);
    PlusPlus(owed, claims, [f]);
    MoreIsLate(owed, claims + [f], RunClaims(g, x.at, x.n), f);
  }

  lemma MoreIsLate(owed: multiset<nat>, a: seq<nat>, b: seq<nat>, f: nat)
    requires multiset(a) <= multiset(b) && f in a && Plus(owed, a)[f] > 1
    ensures LateIn(owed, b)
  {
    assert multiset(a)[f] <= multiset(b)[f];
    assert f in b && Plus(owed, b)[f] > 1;
  }

  lemma StopMeans(g: Geometry, owed: multiset<nat>, runs: seq<Extent>, k: nat)
    requires k < |runs|
    requires OutRange(g, runs[k].at, runs[k].n) || LateIn(Plus(owed, Claims(g, runs[..k])), RunClaims(g, runs[k].at, runs[k].n))
    ensures HasBadRun(g, runs) || LateIn(owed, Claims(g, runs))
  {
    hide OutRange, RunClaims, Late;
    if !OutRange(g, runs[k].at, runs[k].n) {
      var a, b := Claims(g, runs[..k]), RunClaims(g, runs[k].at, runs[k].n);
      PlusPlus(owed, a, b);
      var f := LateWitness(Plus(owed, a + b), b);
      assert runs[..k + 1][..k] == runs[..k];
      assert Claims(g, runs[..k + 1]) == a + b;
      ClaimsBag(g, runs, k + 1);
      MoreIsLate(owed, a + b, Claims(g, runs), f);
    }
  }

  /** Some inode names a fragment it cannot have, or one that is claimed more than once. */
  ghost predicate Faulty(g: Geometry, walks: seq<seq<Extent>>, owed: multiset<nat>, state: seq<State>)
    requires |walks| == |state|
  {
    exists i | 0 <= i < |walks| ::
      Walked(state, i) && (HasBadRun(g, walks[i]) || Late(Plus(owed, ClaimsUpto(g, walks, state, |walks|)), Claims(g, walks[i])))
  }

  lemma FaultyAt(g: Geometry, walks: seq<seq<Extent>>, owed: multiset<nat>, state: seq<State>, i: nat)
    requires |walks| == |state| && i < |walks| && Walked(state, i)
    requires HasBadRun(g, walks[i]) || LateIn(Plus(owed, ClaimsUpto(g, walks, state, i)), Claims(g, walks[i]))
    ensures Faulty(g, walks, owed, state)
  {
    hide HasBadRun, Claims, ClaimsUpto, Late;
    if !HasBadRun(g, walks[i]) {
      var a, b, all := ClaimsUpto(g, walks, state, i), Claims(g, walks[i]), ClaimsUpto(g, walks, state, |walks|);
      PlusPlus(owed, a, b);
      ClaimsNext(g, walks, state, i);
      var f := LateWitness(Plus(owed, a + b), b);
      UptoCountGrow(g, walks, state, i + 1, |walks|, f);
      PlusAt(owed, a + b, f);
      PlusAt(owed, all, f);
      LateIs(Plus(owed, all), b, f);
    }
  }

  lemma FaultyMeans(g: Geometry, walks: seq<seq<Extent>>, state: seq<State>)
    requires |walks| == |state| && Faulty(g, walks, SetAsideBag(g), state)
    ensures exists i | 0 <= i < |walks| :: Walked(state, i) && (HasBadRun(g, walks[i]) || SharesFragment(g, walks, state, i))
  {
    hide HasBadRun, Claims, ClaimsUpto, Late, SharesFragment;
    var i :| 0 <= i < |walks| && Walked(state, i)
             && (HasBadRun(g, walks[i]) || Late(Plus(SetAsideBag(g), ClaimsUpto(g, walks, state, |walks|)), Claims(g, walks[i])));
    SharedMeans(g, walks, state, i);
  }

  lemma InRangeOrOut(g: Geometry, x: Extent, k: nat)
    requires MetadataFits(g) && k < x.n
    ensures !OutRange(g, x.at, x.n) ==> InRange(g, x.at + k)
    ensures RunClaims(g, x.at, k + 1) == if InRange(g, x.at + k) then RunClaims(g, x.at, k) + [x.at + k] else RunClaims(g, x.at, k)
  {
    hide OutRange, MetadataFits;
    if !OutRange(g, x.at, x.n) {
      InRangeParts(g, x.at, x.n, k);
    }
  }

  lemma NoClaims(g: Geometry, f: nat)
    ensures RunClaims(g, f, 0) == []
  {
  }

  lemma InRangeBound(g: Geometry, f: nat)
    requires InRange(g, f)
    ensures f < g.fragCount
  {
  }

  lemma MarkedTwice(s: State)
    ensures Marked(Marked(s)) == Marked(s) && (Markable(s) ==> Markable(Marked(s)) && Bad(Marked(s)))
    ensures Bad(s) ==> Marked(s) == s
  {
  }

  lemma NeverLate(owed: multiset<nat>)
    ensures !Late(owed, [])
  {
  }

  lemma NeverBad(g: Geometry)
    ensures !HasBadRun(g, [])
  {
  }

  lemma ClaimsOwed(owed: multiset<nat>, claims: seq<nat>)
    ensures forall x | x in claims :: Plus(owed, claims)[x] > 0
  {
  }

  /** Outstanding claims after further ones. */
  ghost function Plus(owed: multiset<nat>, claims: seq<nat>): multiset<nat> {
    owed + multiset(claims)
  }

  lemma PlusPlus(owed: multiset<nat>, a: seq<nat>, b: seq<nat>)
    ensures Plus(Plus(owed, a), b) == Plus(owed, a + b)
  {
  }

  lemma PlusNone(owed: multiset<nat>)
    ensures Plus(owed, []) == owed
  {
  }

  lemma LateStep(owed: multiset<nat>, claims: seq<nat>, f: nat)
    requires forall x | x in claims :: owed[x] > 0
    ensures Late(Plus(owed, [f]), claims + [f]) <==> Late(owed, claims) || owed[f] > 0
  {
    var now := Plus(owed, [f]);
    if Late(owed, claims) {
      var x :| x in claims && owed[x] > 1;
      assert x in claims + [f] && now[x] > 1;
    }
    if owed[f] > 0 {
      assert f in claims + [f] && now[f] > 1;
    }
    if Late(now, claims + [f]) && owed[f] == 0 {
      var x :| x in claims + [f] && now[x] > 1;
      assert x != f;
    }
  }

  /** The new node goes behind muldup; muldup moves to it if no node up to muldup has its value. */
  method InsertDup(dups: seq<nat>, prefix: nat, f: nat) returns (now: seq<nat>, next: nat)
    requires prefix <= |dups| && (prefix == 0 ==> dups == [])
    ensures now == dups[..prefix] + [f] + dups[prefix..]
    ensures next == if f in dups[..prefix] then prefix else prefix + 1
  {
    if prefix == 0 {
      return [f], 1;
    }
    now := dups[..prefix] + [f] + dups[prefix..];
    var at := 0;
    while at < prefix - 1 && now[at] != f
      invariant 0 <= at <= prefix - 1 && f !in dups[..at]
    {
      at := at + 1;
    }
    assert dups[..prefix] == dups[..prefix - 1] + [dups[prefix - 1]];
    next := if at == prefix - 1 && now[at] != f then prefix + 1 else prefix;
    assert now[at] == dups[at];
  }

  function Marked(s: State): State {
    match s
    case File => FileClear
    case Dir => DirClear
    case _ => s
  }

  ghost function SetAsideUpto(g: Geometry, k: nat): (m: multiset<nat>)
    ensures forall f: nat :: m[f] == if f < k && SetAside(g, f) then 1 else 0
  {
    if k == 0 then multiset{} else SetAsideUpto(g, k - 1) + if SetAside(g, k - 1) then multiset{k - 1} else multiset{}
  }

  ghost function SetAsideBag(g: Geometry): (m: multiset<nat>)
    ensures forall f: nat :: m[f] == if SetAside(g, f) then 1 else 0
  {
    SetAsideUpto(g, g.fragCount)
  }

  lemma BadRunStep(g: Geometry, runs: seq<Extent>, k: nat)
    requires k < |runs|
    ensures HasBadRun(g, runs[..k + 1]) <==> HasBadRun(g, runs[..k]) || OutRange(g, runs[k].at, runs[k].n)
  {
    hide OutRange;
    if HasBadRun(g, runs[..k]) {
      var j :| 0 <= j < k && OutRange(g, runs[..k][j].at, runs[..k][j].n);
      assert runs[..k + 1][j] == runs[..k][j];
    }
    if HasBadRun(g, runs[..k + 1]) {
      var j :| 0 <= j < k + 1 && OutRange(g, runs[..k + 1][j].at, runs[..k + 1][j].n);
      assert j < k ==> runs[..k][j] == runs[j];
    }
    if OutRange(g, runs[k].at, runs[k].n) {
      assert runs[..k + 1][k] == runs[k];
    }
  }

  lemma LateAppend(owed: multiset<nat>, a: seq<nat>, b: seq<nat>)
    requires forall x | x in a :: owed[x] > 0
    ensures Late(Plus(owed, b), a + b) <==> Late(owed, a) || Late(Plus(owed, b), b)
  {
    var now := Plus(owed, b);
    if Late(owed, a) {
      var x :| x in a && owed[x] > 1;
      assert x in a + b && now[x] > 1;
    }
    if Late(now, b) {
      var x :| x in b && now[x] > 1;
      assert x in a + b;
    }
    if Late(now, a + b) {
      var x :| x in a + b && now[x] > 1;
      assert x in a || x in b;
      assert x !in b ==> multiset(b)[x] == 0;
    }
  }

  /** The swap moves one value into the found part and keeps the prefix in order. */
  lemma FoundAfter(dups: seq<nat>, now: seq<nat>, prefix: nat, head: nat, next: nat, f: nat, hit: bool)
    requires Prefixed(dups, prefix) && head <= prefix
    requires hit <==> f in dups[head..prefix]
    requires if hit then next == head + 1 && Swapped(dups, now, head, prefix, f)
             else now == dups && next == head
    ensures |now| == |dups| && Prefixed(now, prefix) && next <= prefix && Elems(now) == Elems(dups)
    ensures multiset(now) == multiset(dups)
    ensures Elems(now[..next]) == Elems(dups[..head]) + if f in Elems(dups) then {f} else {}
    ensures hit <==> f in Elems(now[..next]) && f !in Elems(dups[..head])
    ensures forall x | x in now :: x in dups
  {
    assert dups[..prefix] == dups[..head] + dups[head..prefix];
    if hit {
      var j :| head <= j < prefix && dups[j] == f && now == dups[head := f][j := dups[head]];
      BagSwap(dups, head, j);
      assert now == dups[head := dups[j]][j := dups[head]];
      PrefixSwap(dups, prefix, head, j);
      assert now[..next] == dups[..head] + [f];
      NotBefore(dups[..prefix], head, j);
    }
  }

  lemma NotBefore(xs: seq<nat>, head: nat, j: nat)
    requires NoRepeats(xs) && head <= j < |xs|
    ensures xs[j] !in xs[..head]
  {
  }

  lemma PrefixSwap(dups: seq<nat>, prefix: nat, i: nat, j: nat)
    requires Prefixed(dups, prefix) && i <= j < prefix
    ensures Prefixed(dups[i := dups[j]][j := dups[i]], prefix)
  {
    var xs, now := dups[..prefix], dups[i := dups[j]][j := dups[i]];
    BagSwap(dups, i, j);
    BagSwap(xs, i, j);
    assert now[..prefix] == xs[i := xs[j]][j := xs[i]];
    assert forall f | f in now :: f in xs;
    forall a, b | 0 <= a < b < prefix ensures now[a] != now[b] {
      var a' := if a == i then j else if a == j then i else a;
      var b' := if b == i then j else if b == j then i else b;
      assert now[a] == xs[a'] && now[b] == xs[b'] && a' != b';
    }
  }

  // ---- what the marks mean ----

  /** Another claim on one of the inode's fragments: a reserved area's, another inode's, or a
      second one of its own. */
  ghost predicate SharesFragment(g: Geometry, walks: seq<seq<Extent>>, state: seq<State>, i: nat)
    requires i < |walks| == |state|
  {
    exists f :: f in Claims(g, walks[i]) && SharedClaim(g, walks, state, i, f)
  }

  ghost predicate SharedClaim(g: Geometry, walks: seq<seq<Extent>>, state: seq<State>, i: nat, f: nat)
    requires i < |walks| == |state|
  {
    || SetAside(g, f)
    || (exists j | 0 <= j < |walks| && j != i :: Walked(state, j) && f in Claims(g, walks[j]))
    || multiset(Claims(g, walks[i]))[f] > 1
  }

  /** Marks do not change which inodes are walked. */
  lemma SameWalks(g: Geometry, walks: seq<seq<Extent>>, a: seq<State>, b: seq<State>)
    requires |walks| == |a| == |b| && forall i | 0 <= i < |a| :: Rested(a[i], b[i])
    ensures forall k | 0 <= k <= |walks| :: ClaimsUpto(g, walks, a, k) == ClaimsUpto(g, walks, b, k)
    ensures forall k | 0 <= k < |walks| :: Walked(a, k) == Walked(b, k)
  {
    hide Claims;
    for k := 0 to |walks|
      invariant forall j | 0 <= j <= k :: ClaimsUpto(g, walks, a, j) == ClaimsUpto(g, walks, b, j)
    {
      assert Rested(a[k], b[k]);
    }
  }

  lemma DupsAreShared(used: seq<bool>, dups: seq<nat>, owed: multiset<nat>)
    requires Tally(used, dups, owed)
    ensures forall f: nat :: f in Elems(dups) <==> owed[f] > 1
  {
  }

  lemma PlusAt(owed: multiset<nat>, claims: seq<nat>, f: nat)
    ensures Plus(owed, claims)[f] == owed[f] + multiset(claims)[f]
    ensures f in claims <==> multiset(claims)[f] > 0
  {
  }

  lemma UptoNextCount(g: Geometry, walks: seq<seq<Extent>>, state: seq<State>, i: nat, f: nat)
    requires i < |walks| == |state| && Walked(state, i)
    ensures multiset(ClaimsUpto(g, walks, state, i + 1))[f]
         == multiset(ClaimsUpto(g, walks, state, i))[f] + multiset(Claims(g, walks[i]))[f]
  {
    hide Claims;
    ClaimsNext(g, walks, state, i);
  }

  lemma {:induction false} UptoCountGrow(g: Geometry, walks: seq<seq<Extent>>, state: seq<State>, i: nat, k: nat, f: nat)
    requires i <= k <= |walks| == |state|
    ensures multiset(ClaimsUpto(g, walks, state, i))[f] <= multiset(ClaimsUpto(g, walks, state, k))[f]
  {
    hide Claims;
    if i < k {
      UptoCountGrow(g, walks, state, i, k - 1, f);
      ClaimsNext(g, walks, state, k - 1);
    }
  }

  /** The marks of the two passes together are exact. */
  lemma MarksExact(g: Geometry, walks: seq<seq<Extent>>, all: set<nat>, owed: multiset<nat>,
                   was: seq<State>, mid: seq<State>, now: seq<State>, i: nat)
    requires |walks| == |was| == |mid| == |now| && i < |walks| && Walked(was, i) && Walked(mid, i)
    requires owed == Plus(SetAsideBag(g), ClaimsUpto(g, walks, was, |walks|))
    requires forall f: nat :: f in all <==> owed[f] > 1
    requires forall k | 0 <= k <= |walks| :: ClaimsUpto(g, walks, was, k) == ClaimsUpto(g, walks, mid, k)
    requires AfterPass1(g, walks, SetAsideBag(g), was, mid, i) && AfterPass1b(g, walks, all, mid, now, i)
    requires Markable(mid[i])
    ensures Bad(now[i]) <==> HasBadRun(g, walks[i]) || Late(owed, Claims(g, walks[i]))
  {
    hide Claims, ClaimsUpto, SetAsideBag, HasBadRun, Plus, Late;
    var owed1 := Plus(SetAsideBag(g), ClaimsUpto(g, walks, was, i + 1));
    MarkedTwice(mid[i]);
    LateGrows(g, walks, was, i);
    if Late(owed, Claims(g, walks[i])) && !Bad(mid[i]) {
      var f := LateWitness(owed, Claims(g, walks[i]));
      if f in ClaimsUpto(g, walks, was, i) {
        UptoNextCount(g, walks, was, i, f);
        PlusAt(SetAsideBag(g), ClaimsUpto(g, walks, was, i + 1), f);
        PlusAt(SetAsideBag(g), ClaimsUpto(g, walks, was, i), f);
        PlusAt(SetAsideBag(g), Claims(g, walks[i]), f);
        LateIs(owed1, Claims(g, walks[i]), f);
      }
    }
    if now[i] != mid[i] {
      var f :| f in Claims(g, walks[i]) && f in all;
      LateIs(owed, Claims(g, walks[i]), f);
    }
  }

  lemma LateWitness(owed: multiset<nat>, claims: seq<nat>) returns (f: nat)
    requires Late(owed, claims)
    ensures f in claims && owed[f] > 1
  {
    f :| f in claims && owed[f] > 1;
  }

  lemma LateIs(owed: multiset<nat>, claims: seq<nat>, f: nat)
    requires f in claims && owed[f] > 1
    ensures Late(owed, claims)
  {
  }

  lemma LateGrows(g: Geometry, walks: seq<seq<Extent>>, was: seq<State>, i: nat)
    requires i < |walks| == |was|
    ensures Late(Plus(SetAsideBag(g), ClaimsUpto(g, walks, was, i + 1)), Claims(g, walks[i]))
            ==> Late(Plus(SetAsideBag(g), ClaimsUpto(g, walks, was, |walks|)), Claims(g, walks[i]))
  {
    hide Claims, ClaimsUpto, SetAsideBag, Plus, Late;
    var a, b := Plus(SetAsideBag(g), ClaimsUpto(g, walks, was, i + 1)), Plus(SetAsideBag(g), ClaimsUpto(g, walks, was, |walks|));
    if Late(a, Claims(g, walks[i])) {
      var f := LateWitness(a, Claims(g, walks[i]));
      UptoCountGrow(g, walks, was, i + 1, |walks|, f);
      PlusAt(SetAsideBag(g), ClaimsUpto(g, walks, was, i + 1), f);
      PlusAt(SetAsideBag(g), ClaimsUpto(g, walks, was, |walks|), f);
      LateIs(b, Claims(g, walks[i]), f);
    }
  }

  /** Claimed more than once means shared. */
  lemma SharedMeans(g: Geometry, walks: seq<seq<Extent>>, state: seq<State>, i: nat)
    requires i < |walks| == |state| && Walked(state, i)
    ensures Late(Plus(SetAsideBag(g), ClaimsUpto(g, walks, state, |walks|)), Claims(g, walks[i]))
            <==> SharesFragment(g, walks, state, i)
  {
    hide Claims, ClaimsUpto, SetAsideBag, Plus, Late, SetAside;
    var owed := Plus(SetAsideBag(g), ClaimsUpto(g, walks, state, |walks|));
    if Late(owed, Claims(g, walks[i])) {
      var f := LateWitness(owed, Claims(g, walks[i]));
      SharedIff(g, walks, state, i, f);
    }
    if SharesFragment(g, walks, state, i) {
      var f :| f in Claims(g, walks[i]) && SharedClaim(g, walks, state, i, f);
      SharedIff(g, walks, state, i, f);
      LateIs(owed, Claims(g, walks[i]), f);
    }
  }

  lemma SharedIff(g: Geometry, walks: seq<seq<Extent>>, state: seq<State>, i: nat, f: nat)
    requires i < |walks| == |state| && Walked(state, i) && f in Claims(g, walks[i])
    ensures Plus(SetAsideBag(g), ClaimsUpto(g, walks, state, |walks|))[f] > 1 <==> SharedClaim(g, walks, state, i, f)
  {
    hide Claims, ClaimsUpto, Plus, SetAside;
    PlusAt(SetAsideBag(g), ClaimsUpto(g, walks, state, |walks|), f);
    PlusAt(SetAsideBag(g), Claims(g, walks[i]), f);
    CountWithout(g, walks, state, i, |walks|, f);
  }

  /** Claims of the inodes below k, inode i's own aside, are those of the other inodes. */
  lemma {:induction false} CountWithout(g: Geometry, walks: seq<seq<Extent>>, state: seq<State>, i: nat, k: nat, f: nat)
    requires i < |walks| == |state| && Walked(state, i) && k <= |walks|
    ensures multiset(ClaimsUpto(g, walks, state, k))[f] >= if i < k then multiset(Claims(g, walks[i]))[f] else 0
    ensures multiset(ClaimsUpto(g, walks, state, k))[f] > (if i < k then multiset(Claims(g, walks[i]))[f] else 0)
            <==> exists j | 0 <= j < k && j != i :: Walked(state, j) && f in Claims(g, walks[j])
    decreases k
  {
    hide Claims, ClaimsUpto;
    if k == 0 {
      NoClaimsUpto(g, walks, state);
    } else {
      CountWithout(g, walks, state, i, k - 1, f);
      ClaimsNext(g, walks, state, k - 1);
      if Walked(state, k - 1) {
        UptoNextCount(g, walks, state, k - 1, f);
        PlusAt(multiset{}, Claims(g, walks[k - 1]), f);
      }
    }
  }

  lemma RestedTwice(g: Geometry, walks: seq<seq<Extent>>, all: set<nat>, was: seq<State>, mid: seq<State>, now: seq<State>)
    requires |walks| == |was| == |mid| == |now|
    requires forall i | 0 <= i < |walks| :: Rested(was[i], mid[i]) && AfterPass1b(g, walks, all, mid, now, i)
    ensures forall i | 0 <= i < |walks| :: Rested(was[i], now[i])
  {
    hide Claims, ClaimsUpto;
    forall i | 0 <= i < |walks| ensures Rested(was[i], now[i]) {
      assert Rested(was[i], mid[i]);
      MarkedTwice(was[i]);
    }
  }

  // ---- giving claims up ----

  /** pass4: bad inodes, directories never found, inodes without a link that nothing names, and
      unnamed inodes that adjust could not put into lost+found. */
  predicate Doomed(s: State, lncnt: int, zero: bool, lost: bool) {
    s == Dir || Bad(s) || ((s == File || s == DirFound) && if lncnt == 0 then zero else lost)
  }

  ghost function Minus(owed: multiset<nat>, claims: seq<nat>): multiset<nat> {
    owed - multiset(claims)
  }

  lemma MinusNone(owed: multiset<nat>)
    ensures Minus(owed, []) == owed
  {
  }

  lemma MinusOne(owed: multiset<nat>, claims: seq<nat>, f: nat)
    ensures Minus(owed, claims) - multiset{f} == Minus(owed, claims + [f])
  {
    assert multiset(claims + [f]) == multiset(claims) + multiset{f};
  }

  lemma MinusTwice(owed: multiset<nat>, a: seq<nat>, b: seq<nat>)
    ensures Minus(Minus(owed, a), b) == Minus(owed, a + b)
  {
    assert multiset(a + b) == multiset(a) + multiset(b);
  }

  /** What the walks of the inodes below k that pass 4 clears name. */
  ghost function GivenUp(g: Geometry, again: seq<seq<Extent>>, state: seq<State>, lncnt: seq<int>, zero: seq<bool>, lost: seq<bool>, k: nat): seq<nat>
    requires k <= |again| == |state| == |lncnt| == |zero| == |lost|
  {
    if k == 0 then []
    else GivenUp(g, again, state, lncnt, zero, lost, k - 1)
         + if k - 1 >= ROOTINO && Doomed(state[k - 1], lncnt[k - 1], zero[k - 1], lost[k - 1]) then Claims(g, again[k - 1]) else []
  }

  lemma NothingGivenUp(g: Geometry, again: seq<seq<Extent>>, state: seq<State>, lncnt: seq<int>, zero: seq<bool>, lost: seq<bool>)
    requires |again| == |state| == |lncnt| == |zero| == |lost|
    ensures GivenUp(g, again, state, lncnt, zero, lost, 0) == []
  {
  }

  lemma GivenUpNext(g: Geometry, again: seq<seq<Extent>>, state: seq<State>, lncnt: seq<int>, zero: seq<bool>, lost: seq<bool>, k: nat)
    requires k < |again| == |state| == |lncnt| == |zero| == |lost|
    ensures var was := GivenUp(g, again, state, lncnt, zero, lost, k);
            GivenUp(g, again, state, lncnt, zero, lost, k + 1)
            == if k >= ROOTINO && Doomed(state[k], lncnt[k], zero[k], lost[k]) then was + Claims(g, again[k]) else was
  {
    hide Claims;
  }

  /** Every inode that pass 4 clears gives up what pass 1 claimed for it. */
  ghost predicate GivesUpOwn(g: Geometry, walks: seq<seq<Extent>>, again: seq<seq<Extent>>, state: seq<State>,
                             lncnt: seq<int>, zero: seq<bool>, lost: seq<bool>)
    requires |walks| == |again| == |state| == |lncnt| == |zero| == |lost|
  {
    forall i | ROOTINO <= i < |walks| && Doomed(state[i], lncnt[i], zero[i], lost[i]) :: Claims(g, again[i]) == Claims(g, walks[i])
  }

  /** The node's value is overwritten by the head's and the head freed. */
  lemma DupTaken(used: seq<bool>, dups: seq<nat>, owed: multiset<nat>, f: nat, j: nat)
    requires Tally(used, dups, owed) && j < |dups| && dups[j] == f
    ensures Tally(used, dups[j := dups[0]][1..], owed - multiset{f})
  {
    var now := dups[j := dups[0]][1..];
    BagSwap(dups, 0, j);
    var swapped := dups[0 := dups[j]][j := dups[0]];
    assert swapped == [f] + now;
    assert multiset(dups) == multiset{f} + multiset(now);
    forall x | x in now ensures x in dups {
      assert x in swapped;
    }
  }

  lemma LastTaken(used: seq<bool>, dups: seq<nat>, owed: multiset<nat>, f: nat)
    requires Tally(used, dups, owed) && f < |used| && used[f] && f !in dups
    ensures Tally(used[f := false], dups, owed - multiset{f})
  {
    assert multiset(dups)[f] == 0;
  }

  lemma RunClaimsNext(g: Geometry, f: nat, k: nat)
    ensures RunClaims(g, f, k + 1) == if InRange(g, f + k) then RunClaims(g, f, k) + [f + k] else RunClaims(g, f, k)
  {
    hide OutRange;
  }

  lemma {:induction false} RunClaimsBag(g: Geometry, f: nat, k: nat, n: nat)
    requires k <= n
    ensures multiset(RunClaims(g, f, k)) <= multiset(RunClaims(g, f, n))
  {
    hide RunClaims;
    if k < n {
      RunClaimsBag(g, f, k, n - 1);
      RunClaimsNext(g, f, n - 1);
    }
  }

  lemma {:induction false} ClaimsBag(g: Geometry, runs: seq<Extent>, k: nat)
    requires k <= |runs|
    ensures multiset(Claims(g, runs[..k])) <= multiset(Claims(g, runs))
    decreases |runs|
  {
    hide RunClaims;
    if k == |runs| {
      assert runs[..k] == runs;
    } else {
      ClaimsBag(g, runs[..|runs| - 1], k);
      assert runs[..|runs| - 1][..k] == runs[..k];
    }
  }

  /** What is owed once inode i counts no more. */
  lemma Dropped(g: Geometry, walks: seq<seq<Extent>>, state: seq<State>, i: nat)
    requires i < |walks| == |state| && Walked(state, i)
    ensures var owed := Plus(SetAsideBag(g), ClaimsUpto(g, walks, state, |walks|));
            Minus(owed, Claims(g, walks[i])) == Plus(SetAsideBag(g), ClaimsUpto(g, walks, state[i := Unallocated], |walks|))
  {
    hide Claims, ClaimsUpto, SetAsideBag;
    DroppedUpto(g, walks, state, i, |walks|);
  }

  lemma {:induction false} DroppedUpto(g: Geometry, walks: seq<seq<Extent>>, state: seq<State>, i: nat, k: nat)
    requires i < |walks| == |state| && Walked(state, i) && k <= |walks|
    ensures multiset(ClaimsUpto(g, walks, state, k))
         == multiset(ClaimsUpto(g, walks, state[i := Unallocated], k)) + if i < k then multiset(Claims(g, walks[i])) else multiset{}
    decreases k
  {
    hide Claims, ClaimsUpto;
    if k == 0 {
      NoClaimsUpto(g, walks, state);
      NoClaimsUpto(g, walks, state[i := Unallocated]);
    } else {
      DroppedUpto(g, walks, state, i, k - 1);
      ClaimsNext(g, walks, state, k - 1);
      ClaimsNext(g, walks, state[i := Unallocated], k - 1);
    }
  }

  lemma {:induction false} SomeoneClaims(g: Geometry, walks: seq<seq<Extent>>, state: seq<State>, k: nat, f: nat)
    requires k <= |walks| == |state|
    ensures multiset(ClaimsUpto(g, walks, state, k))[f] > 0 <==> exists i | 0 <= i < k :: Walked(state, i) && f in Claims(g, walks[i])
  {
    hide Claims, ClaimsUpto;
    if k == 0 {
      NoClaimsUpto(g, walks, state);
    } else {
      SomeoneClaims(g, walks, state, k - 1, f);
      ClaimsNext(g, walks, state, k - 1);
      PlusAt(multiset{}, Claims(g, walks[k - 1]), f);
      if Walked(state, k - 1) {
        UptoNextCount(g, walks, state, k - 1, f);
      }
    }
  }

  lemma SetAsideAt(g: Geometry, f: nat)
    ensures SetAsideBag(g)[f] == if SetAside(g, f) then 1 else 0
  {
  }

  /** When every marked inode is cleared, the inodes that remain hold their fragments alone. */
  lemma SurvivorsExclusive(g: Geometry, walks: seq<seq<Extent>>, was: seq<State>, marked: seq<State>, left: seq<State>, i: nat, f: nat)
    requires |walks| == |was| == |marked| == |left| && i < |walks| && Walked(was, i)
    requires forall k | 0 <= k < |walks| && Walked(was, k) ::
               Bad(marked[k]) <==> HasBadRun(g, walks[k]) || SharesFragment(g, walks, was, k)
    requires forall k | 0 <= k < |walks| && Walked(was, k) :: Bad(marked[k]) ==> left[k] == Unallocated
    requires forall k | 0 <= k < |walks| :: left[k] != Unallocated ==> was[k] != Unallocated
    requires Walked(left, i) && f in Claims(g, walks[i])
    ensures !SetAside(g, f) && multiset(Claims(g, walks[i]))[f] == 1
    ensures forall j | 0 <= j < |walks| && j != i && Walked(left, j) :: f !in Claims(g, walks[j])
    ensures !HasBadRun(g, walks[i])
  {
    hide Claims, SetAside, HasBadRun;
    PlusAt(multiset{}, Claims(g, walks[i]), f);
    assert !SharedClaim(g, walks, was, i, f);
  }
}
