/** fsck's directory descent: pass 2 turns any directory graph into a tree and counts down links;
    pass 4 adjusts the counts. */
module FsckTree {
  import opened Image
  import opened Dirents
  import opened FsckClaims

  // ---- the image as pass 1 left it ----

  /** Inode states, link counts, and the records of every directory. */
  datatype Base = Base(state: seq<State>, lncnt: seq<int>, dirs: seq<seq<Dirent>>)
  {
    ghost predicate Valid() {
      && |state| == |lncnt| == |dirs| > ROOTINO
      && (forall i | 0 <= i < |state| :: state[i] != DirFound)
      && (forall i | 0 <= i < ROOTINO :: state[i] == Unallocated)
      && (forall i | 0 <= i < |state| && state[i] == Dir && dirs[i] != [] :: Dotted(dirs[i]))
    }
  }

  /** The first two records are "." and ".." in use, and the first has no room for another. */
  predicate Dotted(es: seq<Dirent>) {
    && |es| >= 2
    && es[0].ino != 0 && es[0].name == DOT && es[0].reclen < DirentSize(1) + DirentSize(2)
    && es[1].ino != 0 && es[1].name == DOTDOT
  }

  /** A record past the dots that pass 2 keeps if what it names is sound. */
  predicate Live(es: Dirent, n: nat) {
    es.ino != 0 && es.name != DOT && es.name != DOTDOT && es.ino < n
  }

  /** A record by which pass 2 descends. */
  ghost predicate Follows(b: Base, e: Dirent) {
    Live(e, |b.state|) && b.state[e.ino] == Dir
  }

  ghost predicate Edge(b: Base, i: nat, j: nat) {
    i < |b.dirs| && exists k | 2 <= k < |b.dirs[i]| :: Follows(b, b.dirs[i][k]) && b.dirs[i][k].ino == j
  }

  ghost predicate Path(b: Base, path: seq<nat>) {
    && path != [] && path[0] == ROOTINO
    && forall t | 0 <= t < |path| - 1 :: Edge(b, path[t], path[t + 1])
  }

  ghost predicate Reach(b: Base, j: nat) {
    exists path :: Path(b, path) && path[|path| - 1] == j
  }

  lemma ReachRoot(b: Base)
    ensures Reach(b, ROOTINO)
  {
    assert Path(b, [ROOTINO]);
  }

  lemma ReachStep(b: Base, i: nat, j: nat)
    requires Reach(b, i) && Edge(b, i, j)
    ensures Reach(b, j)
  {
    hide Edge;
    var path :| Path(b, path) && path[|path| - 1] == i;
    assert Path(b, path + [j]);
  }

  // ---- a moment of the descent ----

  /** What pass 2 has in hand, with the ghosts that explain it: how many records of each directory
      are settled, the directories entered whose own entry is not settled yet, from where and when
      each was entered. */
  datatype Snap = Snap(state: seq<State>, lncnt: seq<int>, dirs: seq<seq<Dirent>>,
                       pos: seq<nat>, open: set<nat>, par: seq<nat>, birth: seq<nat>, clock: nat)

  /** Inode numbers of the records in use. */
  ghost function Bag(es: seq<Dirent>): multiset<nat> {
    if es == [] then multiset{}
    else Bag(es[..|es| - 1]) + if es[|es| - 1].ino != 0 then multiset{es[|es| - 1].ino} else multiset{}
  }

  /** Inodes named by the first p records of a directory, from the given index on. */
  ghost function NamesIn(es: seq<Dirent>, p: nat, from: nat): multiset<nat>
    requires p <= |es|
  {
    if from <= p then Bag(es[from..p]) else multiset{}
  }

  /** The same over all directories. */
  ghost function NamesFrom(dirs: seq<seq<Dirent>>, pos: seq<nat>, from: nat, n: nat): multiset<nat>
    requires n <= |dirs| == |pos| && forall i | 0 <= i < |dirs| :: pos[i] <= |dirs[i]|
  {
    if n == 0 then multiset{} else NamesFrom(dirs, pos, from, n - 1) + NamesIn(dirs[n - 1], pos[n - 1], from)
  }

  ghost predicate Sized(b: Base, s: Snap) {
    && b.Valid()
    && |s.state| == |s.lncnt| == |s.dirs| == |s.pos| == |s.par| == |s.birth| == |b.state|
    && (forall i | 0 <= i < |s.dirs| :: s.pos[i] <= |s.dirs[i]| == |b.dirs[i]|)
  }

  /** Only directories change state, and only once; what was entered was reachable. */
  ghost predicate StatesOk(b: Base, s: Snap)
    requires Sized(b, s)
  {
    forall i | 0 <= i < |s.state| :: StateOk(b, s, i)
  }

  ghost predicate StateOk(b: Base, s: Snap, i: nat)
    requires Sized(b, s) && i < |s.state|
  {
    && (if b.state[i] == Dir then
          && (s.state[i] == Dir || s.state[i] == DirFound || s.state[i] == DirClear)
          && (s.state[i] != Dir ==> Reach(b, i) && (s.state[i] == DirClear <==> b.dirs[i] == []))
        else s.state[i] == b.state[i])
    && (s.state[i] != DirFound ==> s.pos[i] == 0 && i !in s.open)
    && (s.state[i] == DirFound ==> s.birth[i] < s.clock && s.par[i] < |s.state|)
  }

  /** What became of record k of directory i. */
  ghost predicate Settled(b: Base, s: Snap, i: nat, k: nat)
    requires Sized(b, s) && i < |s.dirs| && k < |s.dirs[i]|
  {
    var e, e0 := s.dirs[i][k], b.dirs[i][k];
    && e == e0.(ino := e.ino)
    && (k == 0 ==> e.ino == i)
    && (k == 1 ==> e.ino == s.par[i] && s.par[i] < |s.state| && s.state[s.par[i]] == DirFound)
    && (k >= 2 && e.ino != 0 ==> e == e0 && Live(e0, |s.state|) && KeptState(s, i, e.ino))
    && (k >= 2 && Follows(b, e0) ==> s.state[e0.ino] != Dir)
    && (k >= 2 && Live(e0, |s.state|) && b.state[e0.ino] == File ==> e == e0)
  }

  /** A kept record names a file, or a directory entered through it. */
  ghost predicate KeptState(s: Snap, i: nat, j: nat)
    requires i < |s.birth| && j < |s.state| == |s.par| == |s.birth|
  {
    s.state[j] == File || (s.state[j] == DirFound && s.par[j] == i && s.birth[i] < s.birth[j] && j != ROOTINO)
  }

  ghost predicate RecordsOk(b: Base, s: Snap)
    requires Sized(b, s)
  {
    forall i, k | 0 <= i < |s.dirs| && 0 <= k < |s.dirs[i]| ::
      if k < s.pos[i] then Settled(b, s, i, k) else s.dirs[i][k] == b.dirs[i][k]
  }

  /** Every settled record in use has taken one off a link count. */
  ghost predicate Counted(b: Base, s: Snap)
    requires Sized(b, s)
  {
    forall j: nat | j < |s.lncnt| :: s.lncnt[j] == b.lncnt[j] - NamesFrom(s.dirs, s.pos, 0, |s.dirs|)[j]
  }

  /** One record past the dots names each directory found, once its entry is settled. */
  ghost predicate NamedOnce(b: Base, s: Snap)
    requires Sized(b, s)
  {
    forall j: nat | j < |s.state| && b.state[j] == Dir ::
      NamesFrom(s.dirs, s.pos, 2, |s.dirs|)[j] == if s.state[j] == DirFound && j != ROOTINO && j !in s.open then 1 else 0
  }

  ghost predicate Inv(b: Base, s: Snap) {
    && Sized(b, s) && StatesOk(b, s) && RecordsOk(b, s) && Counted(b, s) && NamedOnce(b, s)
  }

  // ---- counting names ----

  lemma BagAppend(es: seq<Dirent>, e: Dirent)
    ensures Bag(es + [e]) == Bag(es) + if e.ino != 0 then multiset{e.ino} else multiset{}
  {
    assert (es + [e])[..|es|] == es;
  }

  lemma NamesInStep(es: seq<Dirent>, k: nat, from: nat, e: Dirent)
    requires k < |es|
    ensures NamesIn(es[k := e], k + 1, from)
         == NamesIn(es, k, from) + if from <= k && e.ino != 0 then multiset{e.ino} else multiset{}
  {
    if from <= k {
      assert es[k := e][from..k + 1] == es[from..k] + [e];
      BagAppend(es[from..k], e);
    } else if from == k + 1 {
      assert es[k := e][from..k + 1] == [];
    }
  }

  /** One more settled record adds its name and nothing else. */
  lemma {:induction false} NamesStep(dirs: seq<seq<Dirent>>, pos: seq<nat>, from: nat, n: nat, i: nat, e: Dirent)
    requires n <= |dirs| == |pos| && i < |dirs| && pos[i] < |dirs[i]|
    requires forall a | 0 <= a < |dirs| :: pos[a] <= |dirs[a]|
    ensures var k := pos[i];
            NamesFrom(dirs[i := dirs[i][k := e]], pos[i := k + 1], from, n)
            == NamesFrom(dirs, pos, from, n) + if i < n && from <= k && e.ino != 0 then multiset{e.ino} else multiset{}
  {
    hide NamesIn;
    if n > 0 {
      NamesStep(dirs, pos, from, n - 1, i, e);
      NamesInStep(dirs[i], pos[i], from, e);
    }
  }

  // ---- the three steps ----

  /** Directory i is entered from parent. */
  ghost function Opened(s: Snap, i: nat, parent: nat): Snap
    requires i < |s.state| == |s.par| == |s.birth|
  {
    s.(state := s.state[i := DirFound], open := s.open + {i}, par := s.par[i := parent],
       birth := s.birth[i := s.clock], clock := s.clock + 1)
  }

  /** Settled records stay settled while what has been entered stays as it is. */
  lemma RecordsKept(b: Base, s: Snap, t: Snap)
    requires Sized(b, s) && Sized(b, t) && StatesOk(b, s) && RecordsOk(b, s) && t.dirs == s.dirs && t.pos == s.pos
    requires forall j | 0 <= j < |s.state| && s.state[j] != Dir ::
               t.state[j] == s.state[j] && t.par[j] == s.par[j] && t.birth[j] == s.birth[j]
    ensures RecordsOk(b, t)
  {
    hide Follows;
    forall a, k | 0 <= a < |t.dirs| && 0 <= k < |t.dirs[a]|
      ensures if k < t.pos[a] then Settled(b, t, a, k) else t.dirs[a][k] == b.dirs[a][k]
    {
      assert StateOk(b, s, a);
      if k < t.pos[a] {
        assert Settled(b, s, a, k);
        SettledKept(b, s, t, a, k);
      }
    }
  }

  lemma SettledKept(b: Base, s: Snap, t: Snap, a: nat, k: nat)
    requires Sized(b, s) && Sized(b, t) && a < |s.dirs| && k < |s.dirs[a]| && t.dirs == s.dirs
    requires s.state[a] == DirFound && Settled(b, s, a, k)
    requires forall j | 0 <= j < |s.state| && s.state[j] != Dir ::
               t.state[j] == s.state[j] && t.par[j] == s.par[j] && t.birth[j] == s.birth[j]
    ensures Settled(b, t, a, k)
  {
  }

  lemma OpenedInv(b: Base, s: Snap, i: nat, parent: nat)
    requires Inv(b, s) && i < |s.state| && s.state[i] == Dir && b.dirs[i] != [] && Reach(b, i)
    requires parent < |s.state| && (s.state[parent] == DirFound || parent == i)
    ensures Inv(b, Opened(s, i, parent))
  {
    hide Reach, NamesFrom, Follows;
    var t := Opened(s, i, parent);
    assert Sized(b, t);
    forall a | 0 <= a < |t.state| ensures StateOk(b, t, a) {
      assert StateOk(b, s, a);
    }
    RecordsKept(b, s, t);
    assert StateOk(b, s, i);
  }

  /** An empty directory is given up as soon as it is entered. */
  lemma EmptiedInv(b: Base, s: Snap, i: nat)
    requires Inv(b, s) && i < |s.state| && s.state[i] == Dir && b.dirs[i] == [] && Reach(b, i)
    ensures Inv(b, s.(state := s.state[i := DirClear]))
  {
    hide Reach, NamesFrom, Follows;
    var t := s.(state := s.state[i := DirClear]);
    assert Sized(b, t);
    forall a | 0 <= a < |t.state| ensures StateOk(b, t, a) {
      assert StateOk(b, s, a);
    }
    RecordsKept(b, s, t);
    assert StateOk(b, s, i);
  }

  /** The next record of directory i is settled with inode number v, 0 if it goes; the entry of the
      directory it names, if it led there, is settled too. */
  ghost function Settle(s: Snap, i: nat, v: nat, closes: bool): Snap
    requires i < |s.dirs| == |s.pos| && s.pos[i] < |s.dirs[i]| && v < |s.lncnt|
  {
    var k := s.pos[i];
    s.(dirs := s.dirs[i := s.dirs[i][k := s.dirs[i][k].(ino := v)]], pos := s.pos[i := k + 1],
       lncnt := if v != 0 then s.lncnt[v := s.lncnt[v] - 1] else s.lncnt,
       open := if closes then s.open - {v} else s.open)
  }

  /** The conditions under which a record may be settled with v. */
  ghost predicate CanSettle(b: Base, s: Snap, i: nat, v: nat, closes: bool)
    requires i < |s.dirs| == |s.pos| && s.pos[i] < |s.dirs[i]| && v < |s.lncnt| == |s.state|
  {
    && Sized(b, Settle(s, i, v, closes)) && Settled(b, Settle(s, i, v, closes), i, s.pos[i])
    && if closes then v in s.open && s.pos[i] >= 2 && v != 0 && b.state[v] == Dir && s.state[v] == DirFound && v != ROOTINO
       else s.pos[i] >= 2 && v != 0 ==> b.state[v] != Dir
  }

  lemma SettleInv(b: Base, s: Snap, i: nat, v: nat, closes: bool)
    requires Inv(b, s) && i < |s.state| && s.state[i] == DirFound && s.pos[i] < |s.dirs[i]| && v < |s.state|
    requires CanSettle(b, s, i, v, closes)
    ensures Inv(b, Settle(s, i, v, closes))
  {
    hide Reach, NamesFrom, Follows, StateOk, Counted, NamedOnce, Settled;
    var t := Settle(s, i, v, closes);
    SettleStates(b, s, i, v, closes);
    OthersSettled(b, s, t, i, s.pos[i]);
    SettleCounts(b, s, i, v, closes);
  }

  lemma SettleStates(b: Base, s: Snap, i: nat, v: nat, closes: bool)
    requires Inv(b, s) && i < |s.state| && s.state[i] == DirFound && s.pos[i] < |s.dirs[i]| && v < |s.state|
    requires CanSettle(b, s, i, v, closes)
    ensures StatesOk(b, Settle(s, i, v, closes))
  {
    hide Reach, NamesFrom, Follows, Settled, Counted, NamedOnce, RecordsOk;
    var t := Settle(s, i, v, closes);
    forall a | 0 <= a < |t.state| ensures StateOk(b, t, a) {
      assert StateOk(b, s, a);
    }
  }

  lemma SettleCounts(b: Base, s: Snap, i: nat, v: nat, closes: bool)
    requires Inv(b, s) && i < |s.state| && s.state[i] == DirFound && s.pos[i] < |s.dirs[i]| && v < |s.state|
    requires CanSettle(b, s, i, v, closes)
    ensures Counted(b, Settle(s, i, v, closes)) && NamedOnce(b, Settle(s, i, v, closes))
  {
    hide Reach, NamesFrom, Follows, Settled, RecordsOk;
    var k := s.pos[i];
    var e := s.dirs[i][k].(ino := v);
    NamesStep(s.dirs, s.pos, 0, |s.dirs|, i, e);
    NamesStep(s.dirs, s.pos, 2, |s.dirs|, i, e);
  }

  lemma OthersSettled(b: Base, s: Snap, t: Snap, i: nat, k: nat)
    requires Sized(b, s) && Sized(b, t) && RecordsOk(b, s) && i < |s.dirs| && k < |s.dirs[i]| && k == s.pos[i]
    requires t.state == s.state && t.par == s.par && t.birth == s.birth && t.pos == s.pos[i := k + 1]
    requires t.dirs == s.dirs[i := s.dirs[i][k := t.dirs[i][k]]] && Settled(b, t, i, k)
    ensures RecordsOk(b, t)
  {
    hide Follows, Live;
    forall a, c | 0 <= a < |t.dirs| && 0 <= c < |t.dirs[a]|
      ensures if c < t.pos[a] then Settled(b, t, a, c) else t.dirs[a][c] == b.dirs[a][c]
    {
      if a != i || c != k {
        assert t.dirs[a][c] == s.dirs[a][c];
        assert if c < s.pos[a] then Settled(b, s, a, c) else s.dirs[a][c] == b.dirs[a][c];
      }
    }
  }

  // ---- how far a call gets ----

  /** Directories not entered yet. */
  ghost function Unentered(state: seq<State>): nat {
    |DirSet(state)|
  }

  ghost function DirSet(state: seq<State>): set<nat> {
    set i: nat | i < |state| && state[i] == Dir
  }

  lemma EnteredOne(state: seq<State>, i: nat, v: State)
    requires i < |state| && state[i] == Dir && v != Dir
    ensures Unentered(state[i := v]) == Unentered(state) - 1
  {
    assert DirSet(state[i := v]) == DirSet(state) - {i};
  }

  /** What stays and what is finished between two moments: directories entered before are left
      alone, those entered since are settled in full, except the one at hand. */
  ghost predicate Onward(s: Snap, t: Snap, hand: nat) {
    && |t.state| == |s.state| == |t.dirs| == |s.dirs| == |t.pos| == |s.pos|
    && |t.par| == |s.par| == |t.birth| == |s.birth| == |s.state|
    && (forall a | 0 <= a < |s.state| && s.state[a] != Dir :: t.state[a] == s.state[a] && t.par[a] == s.par[a])
    && (forall a | 0 <= a < |s.state| && s.state[a] != Dir && a != hand :: t.dirs[a] == s.dirs[a] && t.pos[a] == s.pos[a])
    && (forall a | 0 <= a < |s.state| && s.state[a] == Dir && t.state[a] == DirFound && a != hand :: t.pos[a] == |t.dirs[a]|)
    && Unentered(t.state) <= Unentered(s.state)
  }

  lemma OnwardTrans(s: Snap, t: Snap, u: Snap, hand: nat)
    requires Onward(s, t, hand) && Onward(t, u, hand)
    ensures Onward(s, u, hand)
  {
    hide Unentered;
  }

  class Descent {
    ghost const base: Base
    var state: seq<State>
    var lncnt: seq<int>
    var dirs: seq<seq<Dirent>>
    ghost var pos: seq<nat>
    ghost var open: set<nat>
    ghost var par: seq<nat>
    ghost var birth: seq<nat>
    ghost var clock: nat

    constructor (b: Base)
      requires b.Valid()
      ensures base == b && state == b.state && lncnt == b.lncnt && dirs == b.dirs && open == {}
      ensures forall i | 0 <= i < |b.state| :: |pos| == |b.state| && pos[i] == 0
      ensures Inv(b, Now())
    {
      base, state, lncnt, dirs := b, b.state, b.lncnt, b.dirs;
      pos, open := seq(|b.state|, _ => 0), {};
      par, birth, clock := seq(|b.state|, _ => 0), seq(|b.state|, _ => 0), 0;
      new;
      NothingSettled(dirs, pos, 0, |dirs|);
      NothingSettled(dirs, pos, 2, |dirs|);
      assert forall i | 0 <= i < |state| :: StateOk(b, Now(), i);
    }

    ghost function Now(): Snap
      reads this
    {
      Snap(state, lncnt, dirs, pos, open, par, birth, clock)
    }

    /** descend: enter a directory and check each of its records. */
    method Descend(parent: nat, i: nat)
      requires Inv(base, Now()) && i < |state| && state[i] == Dir && Reach(base, i)
      requires parent < |state| && (state[parent] == DirFound || parent == i) && (i == ROOTINO || state[ROOTINO] != Dir)
      modifies this
      ensures Inv(base, Now()) && Onward(old(Now()), Now(), |state|)
      ensures Unentered(state) < old(Unentered(state))
      ensures if base.dirs[i] == [] then state[i] == DirClear && open == old(open)
              else state[i] == DirFound && open == old(open) + {i} && par[i] == parent && birth[i] >= old(clock)
      ensures clock >= old(clock) && forall a | 0 <= a < |state| && old(state[a]) != Dir :: birth[a] == old(birth[a])
      decreases Unentered(state), 0, 0
    {
      hide Inv, Reach, Unentered, Onward;
      ghost var s := Now();
      SizedNow(base, s);
      OnwardSame(s);
      assert StateOk(base, s, i);
      state := state[i := DirFound];
      EnteredOne(s.state, i, DirFound);
      if dirs[i] == [] {
        state := state[i := DirClear];
        EnteredOne(s.state, i, DirClear);
        EmptiedInv(base, s, i);
        assert Now() == s.(state := s.state[i := DirClear]);
        OnwardCleared(base, s, i);
        return;
      }
      open, par, birth, clock := open + {i}, par[i := parent], birth[i := clock], clock + 1;
      OpenedInv(base, s, i, parent);
      assert Now() == Opened(s, i, parent);
      OnwardOpened(base, s, i, parent);
      SizedNow(base, Now());
      var k := 0;
      while k < |dirs[i]|
        invariant Inv(base, Now()) && Sized(base, Now()) && Onward(s, Now(), i)
        invariant |state| == |s.state| && state[i] == DirFound && pos[i] == k && par[i] == parent && birth[i] >= s.clock
        invariant state[parent] == DirFound && open == s.open + {i} && clock >= s.clock && state[ROOTINO] != Dir
        invariant forall a | 0 <= a < |state| && s.state[a] != Dir :: birth[a] == s.birth[a]
        invariant Unentered(state) < Unentered(s.state)
        invariant |dirs| == |s.dirs| && |dirs[i]| == |s.dirs[i]|
        decreases |dirs[i]| - k
      {
        ghost var t := Now();
        SizedNow(base, t);
        Pass2Check(parent, i, k);
        SizedNow(base, Now());
        OnwardTrans(s, t, Now(), i);
        OnwardStates(s, t);
        OnwardStates(t, Now());
        k := k + 1;
      }
      OnwardFinished(s, Now(), i);
    }

    /** pass2check on record k of directory i. */
    method Pass2Check(parent: nat, i: nat, k: nat)
      requires Inv(base, Now()) && i < |state| && state[i] == DirFound && pos[i] == k < |dirs[i]| && state[ROOTINO] != Dir
      requires parent == par[i] < |state| && state[parent] == DirFound
      modifies this
      ensures Inv(base, Now()) && Onward(old(Now()), Now(), i)
      ensures |state| == |old(state)| && state[i] == DirFound && pos[i] == k + 1 && |dirs[i]| == |old(dirs)[i]|
      ensures |par| == |old(par)| && par[i] == old(par)[i]
      ensures open == old(open) && clock >= old(clock)
      ensures forall a | 0 <= a < |state| && old(state[a]) != Dir :: birth[a] == old(birth[a])
      decreases Unentered(state), 1, 0
    {
      hide Inv, Reach, Unentered, Onward, CanSettle;
      SizedNow(base, Now());
      var e := dirs[i][k];
      RecordsIntact(base, Now(), i, k);
      if k == 0 {
        CanKeepDot(base, Now(), i);
        Keep(i, k, i, false);
      } else if k == 1 {
        CanKeepDot(base, Now(), i);
        Keep(i, k, parent, false);
      } else if e.ino == 0 || e.name == DOT || e.name == DOTDOT || e.ino >= |state| {
        CanDrop(base, Now(), i, k);
        Remove(i, k);
      } else {
        match state[e.ino]
        case File =>
          CanKeepFile(base, Now(), i, k);
          Keep(i, k, e.ino, false);
        case Dir =>
          Follow(i, k);
        case _ => // unallocated, marked bad, or found already
          CanDrop(base, Now(), i, k);
          Remove(i, k);
      }
    }

    /** The record stays, with the given inode number, and takes one off its count. */
    method Keep(i: nat, k: nat, v: nat, ghost closes: bool)
      requires Inv(base, Now()) && i < |state| && state[i] == DirFound && pos[i] == k < |dirs[i]| && 0 < v < |state|
      requires CanSettle(base, Now(), i, v, closes)
      modifies this
      ensures Inv(base, Now()) && Now() == Settle(old(Now()), i, v, closes)
      ensures Onward(old(Now()), Now(), i)
    {
      hide Inv, CanSettle, Onward;
      ghost var s := Now();
      SizedNow(base, s);
      SettleInv(base, s, i, v, closes);
      SettleOnward(base, s, i, v, closes);
      dirs := dirs[i := dirs[i][k := dirs[i][k].(ino := v)]];
      lncnt := lncnt[v := lncnt[v] - 1];
      pos := pos[i := k + 1];
      if closes {
        open := open - {v};
      }
      assert Now() == Settle(s, i, v, closes);
    }

    /** The record is cleared. */
    method Remove(i: nat, k: nat)
      requires Inv(base, Now()) && i < |state| && state[i] == DirFound && pos[i] == k < |dirs[i]|
      requires CanSettle(base, Now(), i, 0, false)
      modifies this
      ensures Inv(base, Now()) && Now() == Settle(old(Now()), i, 0, false)
      ensures Onward(old(Now()), Now(), i)
    {
      hide Inv, CanSettle, Onward;
      ghost var s := Now();
      SizedNow(base, s);
      SettleInv(base, s, i, 0, false);
      SettleOnward(base, s, i, 0, false);
      dirs := dirs[i := dirs[i][k := dirs[i][k].(ino := 0)]];
      pos := pos[i := k + 1];
      assert Now() == Settle(s, i, 0, false);
    }

    /** The record names a directory nobody has entered: enter it, and keep the record if there is
        something in it. */
    method Follow(i: nat, k: nat)
      requires Inv(base, Now()) && i < |state| && state[i] == DirFound && 2 <= k == pos[i] < |dirs[i]| && state[ROOTINO] != Dir
      requires Live(dirs[i][k], |state|) && state[dirs[i][k].ino] == Dir
      modifies this
      ensures Inv(base, Now()) && Onward(old(Now()), Now(), i)
      ensures |state| == |old(state)| && state[i] == DirFound && pos[i] == k + 1 && |dirs[i]| == |old(dirs)[i]|
      ensures |par| == |old(par)| && par[i] == old(par)[i]
      ensures open == old(open) && clock >= old(clock)
      ensures forall a | 0 <= a < |state| && old(state[a]) != Dir :: birth[a] == old(birth[a])
      decreases Unentered(state), 0, 1
    {
      hide Inv, Reach, Unentered, Onward, CanSettle;
      ghost var s := Now();
      SizedNow(base, s);
      RecordsIntact(base, s, i, k);
      var j := dirs[i][k].ino;
      EdgeHere(base, s, i, k);
      Descend(i, j);
      ghost var t := Now();
      OnwardHand(s, t, i);
      SizedNow(base, t);
      RecordsIntact(base, t, i, k);
      if state[j] == DirFound {
        CanClose(base, t, i, k, j);
        Keep(i, k, j, true);
      } else {
        CanDrop(base, t, i, k);
        Remove(i, k);
      }
      OnwardTrans(s, t, Now(), i);
    }

    /** pass2 from an allocated root directory. */
    method Pass2()
      requires Inv(base, Now()) && open == {} && Fresh()
      requires base.state[ROOTINO] == Dir && base.dirs[ROOTINO] != []
      modifies this
      ensures Inv(base, Now()) && Done(base, Now()) && par[ROOTINO] == ROOTINO
      ensures forall i | 0 <= i < |base.state| && base.state[i] == Dir ::
                && (state[i] == DirFound <==> Reach(base, i) && base.dirs[i] != [])
                && (state[i] == DirClear <==> Reach(base, i) && base.dirs[i] == [])
      ensures forall j: nat | j < |lncnt| :: lncnt[j] == base.lncnt[j] - KeptNames(state, dirs, 0, |dirs|)[j]
      ensures forall j: nat | j < |state| && state[j] == DirFound && j != ROOTINO ::
                KeptNames(state, dirs, 2, |dirs|)[j] == 1 && Hangs(Now(), j)
      ensures forall i, k | 0 <= i < |dirs| && state[i] == DirFound && 0 <= k < |dirs[i]| && dirs[i][k].ino != 0 ::
                dirs[i][k].ino < |state| && (state[dirs[i][k].ino] == File || state[dirs[i][k].ino] == DirFound)
    {
      hide Inv, Reach, Unentered, Onward, NamesFrom, KeptNames, Hangs;
      ghost var s := Now();
      SizedNow(base, s);
      ReachRoot(base);
      assert StateOk(base, s, ROOTINO);
      Descend(ROOTINO, ROOTINO);
      SizedNow(base, Now());
      AllDone(base, s, Now());
      forall i | 0 <= i < |base.state| && base.state[i] == Dir
        ensures Reach(base, i) ==> state[i] != Dir
        ensures StateOk(base, Now(), i)
      {
        if Reach(base, i) {
          ReachedEntered(base, Now(), i);
        }
      }
      KeptIsSettled(base, Now(), 0, |dirs|);
      KeptIsSettled(base, Now(), 2, |dirs|);
      CountsAt(base, Now());
      forall j: nat | j < |state| && state[j] == DirFound && j != ROOTINO ensures Hangs(Now(), j) {
        FoundHangs(base, Now(), j);
      }
      KeptSound(base, Now());
    }

    /** No directory has been entered. */
    ghost predicate Fresh()
      reads this
    {
      forall i | 0 <= i < |state| :: state[i] != DirFound
    }
  }

  /** Every directory found is settled in full. */
  ghost predicate Done(b: Base, s: Snap) {
    && Sized(b, s) && s.open == {ROOTINO} && s.state[ROOTINO] == DirFound
    && forall i | 0 <= i < |s.state| :: s.pos[i] == if s.state[i] == DirFound then |s.dirs[i]| else 0
  }

  /** Inodes named by the records of the directories found, from the given index on. */
  ghost function KeptNames(state: seq<State>, dirs: seq<seq<Dirent>>, from: nat, n: nat): multiset<nat>
    requires n <= |dirs| == |state|
  {
    if n == 0 then multiset{}
    else KeptNames(state, dirs, from, n - 1)
         + if state[n - 1] == DirFound && from <= |dirs[n - 1]| then Bag(dirs[n - 1][from..]) else multiset{}
  }

  /** The directory hangs in the tree: its ".." names the directory that names it, and that one was
      entered before it. */
  ghost predicate Hangs(s: Snap, j: nat)
    requires j < |s.par| == |s.state| == |s.dirs| == |s.birth|
  {
    var p := s.par[j];
    && p < |s.state| && s.state[p] == DirFound && s.birth[p] < s.birth[j]
    && |s.dirs[j]| >= 2 && s.dirs[j][1].ino == p && s.dirs[j][0].ino == j
    && exists k | 2 <= k < |s.dirs[p]| :: s.dirs[p][k].ino == j
  }

  lemma {:induction false} NothingSettled(dirs: seq<seq<Dirent>>, pos: seq<nat>, from: nat, n: nat)
    requires n <= |dirs| == |pos| && forall i | 0 <= i < |dirs| :: pos[i] == 0
    ensures NamesFrom(dirs, pos, from, n) == multiset{}
  {
    if n > 0 {
      NothingSettled(dirs, pos, from, n - 1);
    }
  }

  lemma OnwardSame(s: Snap)
    requires |s.state| == |s.dirs| == |s.pos| == |s.par| == |s.birth|
    ensures forall h :: Onward(s, s, h)
  {
  }

  lemma SizedNow(b: Base, s: Snap)
    requires Inv(b, s)
    ensures Sized(b, s) && forall i | 0 <= i < |s.state| :: StateOk(b, s, i)
  {
  }

  /** Records not settled yet are as pass 1 left them. */
  lemma RecordsIntact(b: Base, s: Snap, i: nat, k: nat)
    requires Inv(b, s) && i < |s.state| && s.state[i] == DirFound && s.pos[i] == k && k < |s.dirs[i]|
    ensures Sized(b, s) && s.dirs[i][k] == b.dirs[i][k] && b.state[i] == Dir && Dotted(b.dirs[i]) && i >= ROOTINO
    ensures s.birth[i] < s.clock && Reach(b, i) && s.par[i] < |s.state|
  {
    hide Reach, NamesFrom;
    assert StateOk(b, s, i);
  }

  lemma SettleOnward(b: Base, s: Snap, i: nat, v: nat, closes: bool)
    requires Inv(b, s) && i < |s.state| && s.state[i] == DirFound && s.pos[i] < |s.dirs[i]| && v < |s.state|
    ensures Onward(s, Settle(s, i, v, closes), i)
  {
    hide Reach, NamesFrom, StatesOk, RecordsOk, Counted, NamedOnce;
  }

  lemma OnwardHand(s: Snap, t: Snap, i: nat)
    requires Onward(s, t, |t.state|) && i < |s.state| && s.state[i] != Dir
    ensures Onward(s, t, i) && |t.state| == |s.state| && t.state[i] == s.state[i] && t.dirs[i] == s.dirs[i] && t.pos[i] == s.pos[i]
    ensures t.par[i] == s.par[i]
  {
    hide Unentered;
  }

  lemma OnwardOpened(b: Base, s: Snap, i: nat, parent: nat)
    requires Inv(b, s) && i < |s.state| && s.state[i] == Dir && parent < |s.state|
    ensures Onward(s, Opened(s, i, parent), i)
  {
    hide Reach, NamesFrom, StatesOk, RecordsOk, Counted, NamedOnce, Unentered;
    EnteredOne(s.state, i, DirFound);
  }

  lemma OnwardCleared(b: Base, s: Snap, i: nat)
    requires Inv(b, s) && i < |s.state| && s.state[i] == Dir
    ensures Onward(s, s.(state := s.state[i := DirClear]), |s.state|)
  {
    hide Reach, NamesFrom, StatesOk, RecordsOk, Counted, NamedOnce, Unentered;
    EnteredOne(s.state, i, DirClear);
  }

  lemma OnwardStates(s: Snap, t: Snap)
    ensures forall h :: Onward(s, t, h) ==> |t.state| == |s.state| && forall a | 0 <= a < |s.state| && s.state[a] != Dir :: t.state[a] == s.state[a]
    ensures forall h :: Onward(s, t, h) ==> Unentered(t.state) <= Unentered(s.state)
  {
    hide Unentered;
  }

  lemma OnwardFinished(s: Snap, t: Snap, i: nat)
    requires Onward(s, t, i) && i < |s.state| && s.state[i] == Dir && t.state[i] == DirFound && t.pos[i] == |t.dirs[i]|
    ensures Onward(s, t, |t.state|)
  {
    hide Unentered;
  }

  lemma EdgeHere(b: Base, s: Snap, i: nat, k: nat)
    requires Inv(b, s) && i < |s.state| && s.state[i] == DirFound && 2 <= k == s.pos[i] && k < |s.dirs[i]|
    requires Live(s.dirs[i][k], |s.state|) && s.state[s.dirs[i][k].ino] == Dir
    ensures Reach(b, s.dirs[i][k].ino) && Sized(b, s) && s.dirs[i][k].ino !in s.open
  {
    hide Reach, NamesFrom, Counted, NamedOnce;
    RecordsIntact(b, s, i, k);
    var j := s.dirs[i][k].ino;
    assert StateOk(b, s, j);
    assert Follows(b, b.dirs[i][k]);
    ReachStep(b, i, j);
  }

  lemma CanKeepDot(b: Base, s: Snap, i: nat)
    requires Inv(b, s) && i < |s.state| && s.state[i] == DirFound && s.pos[i] < 2 && s.pos[i] < |s.dirs[i]|
    requires s.par[i] < |s.state| && s.state[s.par[i]] == DirFound
    ensures i > 0 && s.par[i] > 0
    ensures s.pos[i] == 0 ==> CanSettle(b, s, i, i, false)
    ensures s.pos[i] == 1 ==> CanSettle(b, s, i, s.par[i], false)
  {
    hide Reach, NamesFrom, Counted, NamedOnce;
    RecordsIntact(b, s, i, s.pos[i]);
    assert StateOk(b, s, i) && StateOk(b, s, s.par[i]);
  }

  lemma CanKeepFile(b: Base, s: Snap, i: nat, k: nat)
    requires Inv(b, s) && i < |s.state| && s.state[i] == DirFound && 2 <= k == s.pos[i] && k < |s.dirs[i]|
    requires Live(s.dirs[i][k], |s.state|) && s.state[s.dirs[i][k].ino] == File
    ensures CanSettle(b, s, i, s.dirs[i][k].ino, false)
  {
    hide Reach, NamesFrom, Counted, NamedOnce;
    RecordsIntact(b, s, i, k);
    var e := s.dirs[i][k];
    assert StateOk(b, s, e.ino);
    assert e.(ino := e.ino) == e;
  }

  lemma CanDrop(b: Base, s: Snap, i: nat, k: nat)
    requires Inv(b, s) && i < |s.state| && s.state[i] == DirFound && 2 <= k == s.pos[i] && k < |s.dirs[i]|
    requires Live(s.dirs[i][k], |s.state|) ==> s.state[s.dirs[i][k].ino] != File && s.state[s.dirs[i][k].ino] != Dir
    ensures CanSettle(b, s, i, 0, false)
  {
    hide Reach, NamesFrom, Counted, NamedOnce;
    RecordsIntact(b, s, i, k);
    var e := s.dirs[i][k];
    if Live(e, |s.state|) {
      assert StateOk(b, s, e.ino);
    }
  }

  lemma CanClose(b: Base, s: Snap, i: nat, k: nat, j: nat)
    requires Inv(b, s) && i < |s.state| && s.state[i] == DirFound && 2 <= k == s.pos[i] && k < |s.dirs[i]|
    requires Live(s.dirs[i][k], |s.state|) && s.dirs[i][k].ino == j && s.state[j] == DirFound
    requires j in s.open && s.par[j] == i && s.birth[i] < s.birth[j] && j != ROOTINO
    ensures CanSettle(b, s, i, j, true)
  {
    hide Reach, NamesFrom, Counted, NamedOnce;
    RecordsIntact(b, s, i, k);
    assert StateOk(b, s, j);
    assert s.dirs[i][k].(ino := j) == s.dirs[i][k];
  }

  // ---- the outcome ----

  lemma AllDone(b: Base, s: Snap, t: Snap)
    requires Inv(b, s) && Inv(b, t) && Onward(s, t, |t.state|) && s.open == {} && ROOTINO < |s.state|
    requires forall i | 0 <= i < |s.state| :: s.state[i] != DirFound
    requires t.state[ROOTINO] == DirFound && t.open == s.open + {ROOTINO}
    ensures Done(b, t)
  {
    hide Reach, NamesFrom, RecordsOk, Counted, NamedOnce, Unentered;
    forall i | 0 <= i < |t.state| ensures t.pos[i] == if t.state[i] == DirFound then |t.dirs[i]| else 0 {
      assert StateOk(b, t, i);
      assert s.state[i] != Dir ==> t.state[i] == s.state[i];
    }
  }

  /** Everything reachable has been entered: settled records lead nowhere new. */
  lemma ReachedEntered(b: Base, s: Snap, j: nat)
    requires Inv(b, s) && Done(b, s) && Reach(b, j) && j < |s.state| && b.state[j] == Dir
    ensures s.state[j] != Dir
  {
    hide Edge, Inv, Done;
    var path :| Path(b, path) && path[|path| - 1] == j;
    PathEntered(b, s, path, |path| - 1);
  }

  lemma {:induction false} PathEntered(b: Base, s: Snap, path: seq<nat>, t: nat)
    requires Inv(b, s) && Done(b, s) && Path(b, path) && t < |path|
    ensures path[t] < |s.state| && s.state[path[t]] != Dir
  {
    hide Reach, NamesFrom, Counted, NamedOnce;
    if t > 0 {
      PathEntered(b, s, path, t - 1);
      var i := path[t - 1];
      assert Edge(b, i, path[t]);
      var k :| 2 <= k < |b.dirs[i]| && Follows(b, b.dirs[i][k]) && b.dirs[i][k].ino == path[t];
      assert StateOk(b, s, i);
      EdgeSource(b, s, path, t - 1);
      assert Settled(b, s, i, k);
    }
  }

  /** The source of an edge on the way from the root is a directory with records. */
  lemma EdgeSource(b: Base, s: Snap, path: seq<nat>, t: nat)
    requires Inv(b, s) && Done(b, s) && Path(b, path) && t < |path| - 1 && path[t] < |s.state| && s.state[path[t]] != Dir
    ensures s.state[path[t]] == DirFound
  {
    hide Reach, NamesFrom, Counted, NamedOnce, RecordsOk;
    assert Edge(b, path[t], path[t + 1]);
    assert StateOk(b, s, path[t]);
    if t > 0 {
      assert Edge(b, path[t - 1], path[t]);
      var k :| 2 <= k < |b.dirs[path[t - 1]]| && Follows(b, b.dirs[path[t - 1]][k]) && b.dirs[path[t - 1]][k].ino == path[t];
    }
  }

  lemma {:induction false} KeptIsSettled(b: Base, s: Snap, from: nat, n: nat)
    requires Done(b, s) && n <= |s.dirs| && from <= 2
    ensures KeptNames(s.state, s.dirs, from, n) == NamesFrom(s.dirs, s.pos, from, n)
  {
    hide NamesIn, Bag;
    if n > 0 {
      KeptIsSettled(b, s, from, n - 1);
      NamesOfOne(s.dirs[n - 1], s.pos[n - 1], from);
      assert s.state[n - 1] == DirFound || s.pos[n - 1] == 0;
    }
  }

  /** A directory settled in full gives all its names, an untouched one none. */
  lemma NamesOfOne(es: seq<Dirent>, p: nat, from: nat)
    requires p <= |es|
    ensures p == |es| ==> NamesIn(es, p, from) == if from <= |es| then Bag(es[from..]) else multiset{}
    ensures p == 0 ==> NamesIn(es, p, from) == multiset{}
  {
    assert from <= |es| ==> es[from..|es|] == es[from..];
    assert es[0..0] == [];
  }

  lemma CountsAt(b: Base, s: Snap)
    requires Inv(b, s) && Done(b, s)
    ensures forall j: nat | j < |s.lncnt| :: s.lncnt[j] == b.lncnt[j] - NamesFrom(s.dirs, s.pos, 0, |s.dirs|)[j]
    ensures forall j: nat | j < |s.state| && s.state[j] == DirFound && j != ROOTINO ::
              NamesFrom(s.dirs, s.pos, 2, |s.dirs|)[j] == 1
  {
    hide Reach, NamesFrom, RecordsOk;
    forall j: nat | j < |s.state| && s.state[j] == DirFound && j != ROOTINO
      ensures NamesFrom(s.dirs, s.pos, 2, |s.dirs|)[j] == 1
    {
      assert StateOk(b, s, j);
    }
  }

  lemma {:induction false} BagWitness(es: seq<Dirent>, j: nat) returns (k: nat)
    requires Bag(es)[j] > 0
    ensures k < |es| && es[k].ino == j && j != 0
  {
    k := |es| - 1;
    if es[k].ino != j || j == 0 {
      k := BagWitness(es[..k], j);
    }
  }

  lemma NamesInWitness(es: seq<Dirent>, p: nat, from: nat, j: nat) returns (k: nat)
    requires p <= |es| && NamesIn(es, p, from)[j] > 0
    ensures from <= k < p && es[k].ino == j && j != 0
  {
    k := BagWitness(es[from..p], j);
    k := from + k;
  }

  lemma {:induction false} NamesWitness(dirs: seq<seq<Dirent>>, pos: seq<nat>, from: nat, n: nat, j: nat) returns (i: nat, k: nat)
    requires n <= |dirs| == |pos| && forall a | 0 <= a < |dirs| :: pos[a] <= |dirs[a]|
    requires NamesFrom(dirs, pos, from, n)[j] > 0
    ensures i < n && from <= k < pos[i] && dirs[i][k].ino == j && j != 0
  {
    hide NamesIn;
    i := n - 1;
    if NamesIn(dirs[i], pos[i], from)[j] > 0 {
      k := NamesInWitness(dirs[i], pos[i], from, j);
    } else {
      i, k := NamesWitness(dirs, pos, from, i, j);
    }
  }

  lemma FoundHangs(b: Base, s: Snap, j: nat)
    requires Inv(b, s) && Done(b, s) && j < |s.state| && s.state[j] == DirFound && j != ROOTINO
    ensures Hangs(s, j)
  {
    hide Reach, NamesFrom;
    CountsAt(b, s);
    var i, k := NamesWitness(s.dirs, s.pos, 2, |s.dirs|, j);
    assert Settled(b, s, i, k);
    assert StateOk(b, s, j) && StateOk(b, s, i);
    assert Settled(b, s, j, 0) && Settled(b, s, j, 1);
  }

  lemma KeptSound(b: Base, s: Snap)
    requires Inv(b, s) && Done(b, s)
    ensures forall i, k | 0 <= i < |s.dirs| && s.state[i] == DirFound && 0 <= k < |s.dirs[i]| && s.dirs[i][k].ino != 0 ::
              s.dirs[i][k].ino < |s.state| && (s.state[s.dirs[i][k].ino] == File || s.state[s.dirs[i][k].ino] == DirFound)
  {
    hide Reach, NamesFrom, Follows, Counted, NamedOnce;
    forall i, k | 0 <= i < |s.dirs| && s.state[i] == DirFound && 0 <= k < |s.dirs[i]| && s.dirs[i][k].ino != 0
      ensures s.dirs[i][k].ino < |s.state| && (s.state[s.dirs[i][k].ino] == File || s.state[s.dirs[i][k].ino] == DirFound)
    {
      assert Settled(b, s, i, k);
    }
  }

  // ---- pass 4: link counts ----

  datatype Fate = Stays | Orphan | Gone

  /** Pass 4's decision for one inode; an orphan is handed to lost+found. */
  ghost function FateOf(s: State, lncnt: int, nlink: int, zero: bool): Fate {
    match s
    case Unallocated => Stays
    case Dir => Gone
    case DirClear => Gone
    case FileClear => Gone
    case _ => if lncnt == 0 then (if zero then Gone else Stays) else if nlink == lncnt then Orphan else Stays
  }

  /** The link decisions of pass 4 and adjust over all inodes; zl lists the inodes pass 1 saw
      without a link. */
  method Pass4Links(state: seq<State>, lncnt: seq<int>, nlink: seq<int>, zl: seq<nat>) returns (now: seq<int>, fate: seq<Fate>)
    requires |state| == |lncnt| == |nlink| && NoRepeats(zl)
    ensures |now| == |fate| == |state|
    ensures forall i | ROOTINO <= i < |state| ::
              && fate[i] == FateOf(state[i], lncnt[i], nlink[i], i in zl)
              && now[i] == if fate[i] == Stays && (state[i] == File || state[i] == DirFound) then nlink[i] - lncnt[i] else nlink[i]
  {
    now, fate := nlink, seq(|state|, _ => Stays);
    var left := zl;
    for i := ROOTINO to if |state| < ROOTINO then ROOTINO else |state|
      invariant |now| == |fate| == |state| && NoRepeats(left)
      invariant forall k | i <= k :: k in left <==> k in zl
      invariant forall k | i <= k < |state| :: now[k] == nlink[k]
      invariant forall k | ROOTINO <= k < i && k < |state| ::
              && fate[k] == FateOf(state[k], lncnt[k], nlink[k], k in zl)
              && now[k] == if fate[k] == Stays && (state[k] == File || state[k] == DirFound) then nlink[k] - lncnt[k] else nlink[k]
    {
      match state[i]
      case Unallocated =>
        fate := fate[i := Stays];
      case Dir =>
        fate := fate[i := Gone];
      case DirClear =>
        fate := fate[i := Gone];
      case FileClear =>
        fate := fate[i := Gone];
      case _ =>
        if lncnt[i] != 0 {
          if nlink[i] == lncnt[i] {
            fate := fate[i := Orphan];
          } else {
            now := now[i := nlink[i] - lncnt[i]];
            fate := fate[i := Stays];
          }
        } else {
          var found;
          found, left := TakeZero(left, i);
          fate := fate[i := if found then Gone else Stays];
        }
    }
  }

  /** The node's value gives way to the head's, and the head goes. */
  method TakeZero(zl: seq<nat>, i: nat) returns (found: bool, left: seq<nat>)
    requires NoRepeats(zl)
    ensures found <==> i in zl
    ensures NoRepeats(left) && forall k :: k in left <==> k in zl && k != i
  {
    var j := 0;
    while j < |zl| && zl[j] != i
      invariant 0 <= j <= |zl| && i !in zl[..j]
    {
      j := j + 1;
    }
    found := j < |zl|;
    left := zl;
    if found {
      left := left[j := left[0]];
      left := left[1..];
      HeadTaken(zl, j);
    } else {
      assert zl[..j] == zl;
    }
  }

  lemma HeadTaken(zl: seq<nat>, j: nat)
    requires NoRepeats(zl) && j < |zl|
    ensures var left := zl[j := zl[0]][1..];
            NoRepeats(left) && forall k :: k in left <==> k in zl && k != zl[j]
  {
    var left := zl[j := zl[0]][1..];
    assert forall a | 0 <= a < |left| :: left[a] == if a + 1 == j then zl[0] else zl[a + 1];
    forall k | k in zl && k != zl[j] ensures k in left {
      var a :| 0 <= a < |zl| && zl[a] == k;
      assert left[if a == 0 then j - 1 else a - 1] == k;
    }
  }

  /** Pass 2's countdown makes pass 4's counts right: an inode that a kept record names stays, with
      one link for each of them; one that nothing names goes to lost+found, or, without a link to
      begin with, is cleared. */
  lemma LinksAdjusted(s: State, nlink: int, kept: nat, zero: bool)
    requires s == File || s == DirFound
    requires zero <==> nlink <= 0
    ensures var lncnt := nlink - kept; var fate := FateOf(s, lncnt, nlink, zero);
            && (kept > 0 ==> fate == Stays && nlink - lncnt == kept)
            && (kept == 0 && nlink != 0 ==> fate == Orphan)
            && (kept == 0 && nlink == 0 ==> fate == Gone)
  {
  }

  /** Passes 2 and 4 together on one image. */
  method CheckLinks(b: Base, zl: seq<nat>) returns (d: Descent, now: seq<int>, fate: seq<Fate>)
    requires b.Valid() && b.state[ROOTINO] == Dir && b.dirs[ROOTINO] != [] && NoRepeats(zl)
    requires forall i | 0 <= i < |b.state| && b.state[i] != Unallocated :: i in zl <==> b.lncnt[i] <= 0
    ensures |d.state| == |d.dirs| == |d.lncnt| == |b.state| == |now| == |fate|
    ensures Inv(b, d.Now()) && Done(b, d.Now()) && |d.par| > ROOTINO && d.par[ROOTINO] == ROOTINO
    ensures forall i | 0 <= i < |b.state| && b.state[i] == Dir :: d.state[i] == DirFound <==> Reach(b, i) && b.dirs[i] != []
    ensures forall j: nat | j < |d.lncnt| :: d.lncnt[j] == b.lncnt[j] - KeptNames(d.state, d.dirs, 0, |d.dirs|)[j]
    ensures forall i | ROOTINO <= i < |b.state| && d.state[i] == Unallocated :: fate[i] == Stays && now[i] == b.lncnt[i]
    ensures forall i | ROOTINO <= i < |b.state| && (d.state[i] == File || d.state[i] == DirFound) ::
              var kept := KeptNames(d.state, d.dirs, 0, |d.dirs|)[i];
              if kept > 0 then fate[i] == Stays && now[i] == kept
              else fate[i] == if b.lncnt[i] != 0 then Orphan else Gone
    ensures forall i | ROOTINO <= i < |b.state| :: (d.state[i] == Dir || Bad(d.state[i])) ==> fate[i] == Gone
  {
    hide Inv, Reach, Unentered, Onward, NamesFrom, KeptNames, Hangs, NoRepeats, StateOk;
    d := new Descent(b);
    d.Pass2();
    SizedNow(b, d.Now());
    now, fate := Pass4Links(d.state, d.lncnt, b.lncnt, zl);
    forall i | ROOTINO <= i < |b.state| && (d.state[i] == File || d.state[i] == DirFound)
      ensures var kept := KeptNames(d.state, d.dirs, 0, |d.dirs|)[i];
              if kept > 0 then fate[i] == Stays && now[i] == kept
              else fate[i] == if b.lncnt[i] != 0 then Orphan else Gone
    {
      StillAllocated(b, d.Now(), i);
      LinksAdjusted(d.state[i], b.lncnt[i], KeptNames(d.state, d.dirs, 0, |d.dirs|)[i], i in zl);
    }
  }

  lemma StillAllocated(b: Base, s: Snap, i: nat)
    requires Inv(b, s) && i < |s.state| && s.state[i] != Unallocated
    ensures Sized(b, s) && b.state[i] != Unallocated
  {
    hide Reach, NamesFrom, Counted, NamedOnce, RecordsOk;
    assert StateOk(b, s, i);
  }
}
