/** Two runs in which a replica that has pruned fails where one that has not does not: a released
    chain delivered again, and a proposal through a stripped uncle. Both among four replicas, in
    either build, after executing a chain of any height. */
module PruneWitness {
  import opened Blocks
  import opened Quorums
  import opened ReplicaModel
  import opened BlockStore
  import opened Pruning
  import opened StoreProtocol
  import opened WitnessBlocks
  import opened WitnessRun
  import opened Options
  import StoreTheorems
  import Live = StoreModel

  type State = Live.State

  // ---- pruning from the executed block -----------------------------------------------------

  lemma ReachesItself(store: Store, b: Block)
    requires b in store
    ensures Reachable(store, b, b)
  {
    assert ParentPath(store, [b]);
  }

  lemma {:induction false} BelowIsReachable(u: nat, n: nat, x: nat, store: Store, h: nat, i: nat)
    requires Holds(u, u, n, x, store) && i <= h <= n
    ensures Reachable(store, Main(u, h), Main(u, i))
    decreases h - i
  {
    hide Holds, Reachable, Main;
    Link(u, n, x, store, i);
    if i == h {
      ReachesItself(store, Main(u, h));
    } else {
      BelowIsReachable(u, n, x, store, h, i + 1);
      Link(u, n, x, store, i + 1);
      ReachableStep(store, Main(u, h), Main(u, i + 1), Main(u, i));
    }
  }

  /** prune(0) at replica 0. */
  lemma PruneReached(mode: Mode, events: seq<Event>, t: StoreSystem, released: set<Block>, st': State) returns (t': StoreSystem)
    requires Four(mode).Valid() && Reached(Four(mode), TheKeys, events, t) && 0 in t.replicas
    requires Prunes(t.replicas[0].st, t.replicas[0].tail, 0, released, st')
    ensures Reached(Four(mode), TheKeys, events + [PruneEvent(0, 0, released)], t')
    ensures t' == t.(replicas := t.replicas[0 := Local(st', t.replicas[0].tail)])
  {
    hide Reached, Prunes;
    t' := t.(replicas := t.replicas[0 := Local(st', t.replicas[0].tail)]);
    ReachedNext(Four(mode), TheKeys, events, t, t', PruneEvent(0, 0, released));
  }

  // ---- a released chain comes back ---------------------------------------------------------

  /** The executed blocks below the highest, genesis aside. */
  function Old(h: nat): set<Block> {
    set i | 1 <= i < h :: Main(0, i)
  }

  ghost function Shrunk(st: State, h: nat): State {
    st.(store := Stripped(st.store, Main(0, h)) - Old(h))
  }

  lemma InOld(h: nat, b: Block)
    ensures b in Old(h) <==> 1 <= Height(b) < h && b == Main(0, Height(b))
  {
    if b in Old(h) {
      var i :| 1 <= i < h && b == Main(0, i);
    }
    assert 1 <= Height(b) < h ==> Main(0, Height(b)) in Old(h);
  }

  lemma StrippedCases(store: Store, start: Block, x: Block)
    requires x in store
    ensures var e := Stripped(store, start)[x];
      || (e.parents == [] && e.qcRef == None)
      || (e == store[x] && !(x == start && Reachable(store, start, start)))
  {
    hide Reachable;
  }

  /** What is left refers to none of them. */
  lemma LeftRefersNot(n: nat, h: nat, store: Store, x: Block, b: Block)
    requires Holds(0, 0, n, h, store) && 1 <= h <= n && b in Old(h) && x in Stripped(store, Main(0, h)) - Old(h)
    ensures var e := (Stripped(store, Main(0, h)) - Old(h))[x];
      b !in e.parents && e.qcRef != Some(b)
  {
    hide Reachable, Old, Main, Stripped, Holds, Complete, CertOf, Kind;
    InOld(h, b);
    InOld(h, x);
    assert x in store by {
      StrippedFields(store, Main(0, h));
    }
    HoldsSeen(0, 0, n, h, store, x);
    var i := Height(x);
    assert x == Main(0, i) && (i == 0 || i >= h);
    BelowIsReachable(0, n, h, store, h, h);
    StrippedCases(store, Main(0, h), x);
    RefersDown(h, i);
    if i > 0 {
      MainParts(0, i - 1);
    }
  }

  /** What an entry of the chain refers to. */
  lemma RefersDown(x: nat, i: nat)
    ensures var e, p := Complete(x, Main(0, i)), Main(0, if i > 0 then i - 1 else 0);
      (forall q :: q in e.parents ==> q == p) && e.qcRef == Some(p)
  {
    hide Main;
    MainParts(0, i);
    if i > 0 {
      MainParents(0, i);
    }
  }

  /** prune(0) may release them all. */
  lemma MayRelease(mode: Mode, m: nat, l: Local)
    requires Stands(mode, 0, 0, m, l) && m > Lag(mode)
    ensures Prunes(l.st, l.tail, 0, Old(m - Lag(mode)), Shrunk(l.st, m - Lag(mode)))
  {
    hide Holds, Main, CertOf, Reachable, Referenced, Stripped, Old;
    var h := m - Lag(mode);
    forall b | b in Old(h)
      ensures Reachable(l.st.store, Main(0, h), b) && !HeldByCore(l.st, l.tail, b) && !Referenced(Shrunk(l.st, h).store, b)
    {
      InOld(h, b);
      BelowIsReachable(0, m, h, l.st.store, h, Height(b));
      OldNotHeld(mode, m, l, b);
      OldUnreferenced(m, h, l.st, b);
    }
  }

  lemma OldNotHeld(mode: Mode, m: nat, l: Local, b: Block)
    requires Stands(mode, 0, 0, m, l) && m > Lag(mode) && b in Old(m - Lag(mode))
    ensures !HeldByCore(l.st, l.tail, b)
  {
    hide Holds, Main, CertOf, Old, Height;
    InOld(m - Lag(mode), b);
    var i := Height(b);
    MainsDiffer(0, i, 0);
    MainsDiffer(0, i, m);
    MainsDiffer(0, i, m - 1);
    MainsDiffer(0, i, m - Lag(mode));
    MainsDiffer(0, i, m - (Lag(mode) - 1));
    MainParts(0, 0);
  }

  lemma OldUnreferenced(n: nat, h: nat, st: State, b: Block)
    requires Holds(0, 0, n, h, st.store) && 1 <= h <= n && b in Old(h)
    ensures !Referenced(Shrunk(st, h).store, b)
  {
    hide Holds, Main, Old, Stripped;
    forall x | x in Shrunk(st, h).store
      ensures b !in Shrunk(st, h).store[x].parents && Shrunk(st, h).store[x].qcRef != Some(b)
    {
      LeftRefersNot(n, h, st.store, x, b);
    }
  }

  /** Fetching and delivering the first n blocks of the chain again. */
  function Again(n: nat): seq<Event> {
    if n == 0 then [] else Again(n - 1) + Visit(0, Main(0, n))
  }

  /** The first n are back as fresh entries, the others below h are gone. */
  ghost predicate Restored(h: nat, n: nat, st: State) {
    && (forall b :: b in st.store ==> Known(0, b))
    && Delivered(st.store, Genesis) && HeightOf(st.store, Genesis) == 0
    && st.bExec == Main(0, h) && HeightOf(st.store, Main(0, h)) == h
    && (forall i :: 1 <= i <= n ==> Main(0, i) in st.store && st.store[Main(0, i)] == Anew(Main(0, i)))
    && (forall i :: n < i < h ==> Main(0, i) !in st.store)
  }

  lemma ShrunkHolds(mode: Mode, m: nat, l: Local)
    requires Stands(mode, 0, 0, m, l) && m > Lag(mode)
    ensures Restored(m - Lag(mode), 0, Shrunk(l.st, m - Lag(mode)))
  {
    hide Stripped, Main, Holds, Old, Complete, CertOf;
    var h, store := m - Lag(mode), l.st.store;
    var st := Shrunk(l.st, h);
    StrippedFields(store, Main(0, h));
    Link(0, m, h, store, 0);
    Link(0, m, h, store, h);
    MainParts(0, h);
    MainParts(0, 0);
    InOld(h, Main(0, 0));
    InOld(h, Main(0, h));
    forall i | 0 < i < h ensures Main(0, i) !in st.store {
      InOld(h, Main(0, i));
      MainParts(0, i);
    }
    forall b | b in st.store ensures Known(0, b) {
      assert Seen(0, 0, m, b) by {
        assert b in store;
        HoldsSeen(0, 0, m, h, store, b);
      }
      SeenKnown(0, 0, m, b);
    }
  }

  /** One more of them comes back. */
  lemma RestoredNext(h: nat, n: nat, st: State)
    requires 1 <= n < h && Restored(h, n - 1, st)
    ensures Restored(h, n, With(st, Main(0, n)))
  {
    hide Anew, Main, Known, Parents;
    forall i | i != n ensures Main(0, i) != Main(0, n) {
      MainsDiffer(0, i, n);
    }
    MainParts(0, n);
    MainKnown(0, n);
  }

  lemma MainKnown(u: nat, n: nat)
    ensures Known(u, Main(u, n))
  {
  }

  lemma MayReturn(h: nat, n: nat, st: State)
    requires 1 <= n < h && Restored(h, n - 1, st)
    ensures var b := Main(0, n);
      && b !in st.store && b.Node? && Live.AllDelivered(st.store, Parents(b)) && b.justify in st.store
      && HeightOf(st.store, b.parent) == Height(b.parent) && Distinct(TheKeys, st.store, b)
  {
    hide Main, Known, Distinct, Kind, CertOf;
    MainKnown(0, n);
    KnownDistinct(0, st.store, Main(0, n));
    MainParents(0, n);
    MainParts(0, n);
    MainParts(0, n - 1);
    assert n == 1 ==> Main(0, n - 1) == Genesis;
    assert Delivered(st.store, Main(0, n - 1)) && HeightOf(st.store, Main(0, n - 1)) == n - 1;
  }

  lemma {:induction false} Redelivered(mode: Mode, m: nat, n: nat, events: seq<Event>, t: StoreSystem) returns (t': StoreSystem)
    requires Four(mode).Valid() && Reached(Four(mode), TheKeys, events, t) && m > Lag(mode) && n < m - Lag(mode)
    requires 0 in t.replicas && Restored(m - Lag(mode), 0, t.replicas[0].st)
    requires Voted(0, m, 0, t.votes) && Voted(0, m, 1, t.votes) && Voted(0, m, 3, t.votes)
    ensures Reached(Four(mode), TheKeys, events + Again(n), t')
    ensures OnlyMoves(0, t, t') && t'.votes == t.votes && Restored(m - Lag(mode), n, t'.replicas[0].st)
  {
    hide Reached, Restored, Main, Verified, Distinct, Live.AllDelivered, With, Visit;
    if n == 0 {
      assert events + [] == events;
      t' := t;
    } else {
      var b := Main(0, n);
      var t1 := Redelivered(mode, m, n - 1, events, t);
      MayReturn(m - Lag(mode), n, t1.replicas[0].st);
      MainVerified(mode, t.votes, 0, n);
      t' := VisitDelivers(Four(mode), TheKeys, events + Again(n - 1), t1, 0, b);
      RestoredNext(m - Lag(mode), n, t1.replicas[0].st);
      assert events + Again(n - 1) + Visit(0, b) == events + Again(n);
    }
  }

  lemma AnewLink(store: Store, i: nat)
    requires i >= 2 && Main(0, i) in store && store[Main(0, i)] == Anew(Main(0, i))
    requires Main(0, i - 1) in store && store[Main(0, i - 1)] == Anew(Main(0, i - 1))
    ensures Live.UndecidedRef(store, Main(0, i)) == Some(Main(0, i - 1)) && Direct(store, Main(0, i), Main(0, i - 1))
    ensures HeightOf(store, Main(0, i - 1)) == i - 1 && Delivered(store, Main(0, i))
  {
  }

  /** update would commit block 1, long executed. */
  lemma LostChain(mode: Mode, h: nat, st: State)
    requires h >= 1 && Restored(h, Lag(mode) + 1, st)
    ensures Live.CommitsBelow(mode, st, Main(0, Lag(mode) + 1)) && Delivered(st.store, Main(0, Lag(mode) + 1))
  {
    hide Main, Anew, Live.UndecidedRef, Direct, HeightOf, Delivered, Known;
    AnewLink(st.store, 2);
    AnewLink(st.store, 3);
    if mode == ThreeStep {
      AnewLink(st.store, 4);
    }
  }

  /** An old proposal with everything decided. */
  lemma Unharmed(mode: Mode, m: nat, l: Local, i: nat, enabled: bool)
    requires Stands(mode, 0, 0, m, l) && m > Lag(mode) && 1 <= i <= m - Lag(mode)
    ensures Live.ReceiveProposal(mode, l.st, Main(0, i), enabled) == Live.Result(l.st, false, NoError)
  {
    hide Holds, Main, CertOf, Live.UndecidedRef, Live.UpdateHqc, Live.FromHqc, HeightOf, Delivered, Direct, QcRef;
    var h := m - Lag(mode);
    Link(0, m, h, l.st.store, i);
    Link(0, m, h, l.st.store, m - 1);
  }

  lemma BreachHere(mode: Mode, events: seq<Event>, t: StoreSystem, h: nat, enabled: bool)
    requires Four(mode).Valid() && Reached(Four(mode), TheKeys, events, t) && h >= 1
    requires 0 in t.replicas && Restored(h, Lag(mode) + 1, t.replicas[0].st)
    ensures Live.ReceiveProposal(mode, t.replicas[0].st, Main(0, Lag(mode) + 1), enabled).error == SafetyBreach
  {
    hide IsStoreRun, Restored, Main, Live.CommitsBelow, Live.ReceiveProposal, Live.Stumbles;
    var run := ReachedRun(Four(mode), TheKeys, events, t);
    FourIsValid(mode);
    LostChain(mode, h, t.replicas[0].st);
    var _ := StoreTheorems.ReceiveExactly(Four(mode), TheKeys, run, events, |events|, 0, Main(0, Lag(mode) + 1), enabled);
  }

  /** A replica that has executed up to some height prunes, releases the chain below and has the
      first blocks of it delivered again; on receiving the last of these once more it throws, where
      it did nothing before pruning. */
  lemma ReleaseThenBreach(mode: Mode, m: nat, enabled: bool) returns (t: StoreSystem, t': StoreSystem)
    requires m - Lag(mode) >= Lag(mode) + 2
    ensures Four(mode).Valid() && Reached(Four(mode), TheKeys, Rounds(0, m), t) && 0 in t.replicas
    ensures Reached(Four(mode), TheKeys,
      Rounds(0, m) + [PruneEvent(0, 0, Old(m - Lag(mode)))] + Again(Lag(mode) + 1), t') && 0 in t'.replicas
    ensures Live.ReceiveProposal(mode, t'.replicas[0].st, Main(0, Lag(mode) + 1), enabled).error == SafetyBreach
    ensures Live.ReceiveProposal(mode, t.replicas[0].st, Main(0, Lag(mode) + 1), enabled)
      == Live.Result(t.replicas[0].st, false, NoError)
  {
    hide Reached, Stands, Prunes, Shrunk, Restored, Main, Rounds, Old, Again, Live.ReceiveProposal;
    FourIsValid(mode);
    var h := m - Lag(mode);
    t := RoundsReach(mode, 0, m);
    var l := t.replicas[0];
    Unharmed(mode, m, l, Lag(mode) + 1, enabled);
    MayRelease(mode, m, l);
    var t1 := PruneReached(mode, Rounds(0, m), t, Old(h), Shrunk(l.st, h));
    ShrunkHolds(mode, m, l);
    t' := Redelivered(mode, m, Lag(mode) + 1, Rounds(0, m) + [PruneEvent(0, 0, Old(h))], t1);
    BreachHere(mode, Rounds(0, m) + [PruneEvent(0, 0, Old(h))] + Again(Lag(mode) + 1), t', h, enabled);
  }

  // ---- a proposal through a stripped uncle -------------------------------------------------

  lemma {:induction false} ForkIsReachable(u: nat, n: nat, x: nat, store: Store, h: nat, i: nat)
    requires Holds(u, u, n, x, store) && 1 <= h <= n && 1 <= i <= u
    ensures Reachable(store, Main(u, h), Fork(i))
    decreases u - i
  {
    hide Holds, Reachable, Main, Fork, Complete;
    ForkLink(u, n, x, store, i);
    if i == u {
      BelowIsReachable(u, n, x, store, h, 1);
      MainParents(u, 1);
      Link(u, n, x, store, 1);
      HoldsSeen(u, u, n, x, store, Main(u, 1));
      ListsParents(x, Main(u, 1));
      ReachableStep(store, Main(u, h), Main(u, 1), Fork(u));
    } else {
      ForkIsReachable(u, n, x, store, h, i + 1);
      ForkLink(u, n, x, store, i + 1);
      ReachableStep(store, Main(u, h), Fork(i + 1), Fork(i));
    }
  }

  lemma ListsParents(x: nat, b: Block)
    ensures Complete(x, b).parents == Parents(b)
  {
  }

  /** Unpruned, with one block more, no walk from the branch is cut. */
  lemma {:induction false} DescendFork(u: nat, n: nat, x: nat, store: Store, p: Block, e: Entry, i: nat, to: nat)
    requires Holds(u, u, n, x, store) && i <= u && p !in store
    ensures Descend(store[p := e], Fork(i), to).Some?
  {
    hide Holds, Fork;
    ForkLink(u, n, x, store, i);
    if i > 0 {
      DescendFork(u, n, x, store, p, e, i - 1, to);
    }
  }

  /** A replica that is about to receive the proposal on the branch. */
  ghost predicate Facing(mode: Mode, u: nat, m: nat, st: State) {
    && (forall b :: b in st.store ==> Known(u, b)) && OnFork(u) !in st.store
    && Delivered(st.store, Genesis) && Decision(st.store, Genesis) && HeightOf(st.store, Genesis) == 0
    && Delivered(st.store, Fork(u)) && HeightOf(st.store, Fork(u)) == u
    && HeightOf(st.store, st.hqc) == m - 1 && HeightOf(st.store, st.bLock) == Sub(m, Lag(mode) - 1) && st.vheight == m
    && st.hqc in st.store && st.bLock in st.store
  }

  lemma OnForkParts(u: nat)
    ensures var p := OnFork(u);
      && p.Node? && p.parent == Fork(u) && Parents(p) == [Fork(u)] && p.justify == Genesis && p.payload.qc == GenesisCert
      && Height(p) == u + 1 && Height(Fork(u)) == u && Known(u, p)
  {
  }

  lemma ProposalArrives(mode: Mode, u: nat, m: nat, events: seq<Event>, t: StoreSystem) returns (t': StoreSystem)
    requires Four(mode).Valid() && Reached(Four(mode), TheKeys, events, t) && m > 0
    requires 0 in t.replicas && Facing(mode, u, m, t.replicas[0].st)
    ensures Reached(Four(mode), TheKeys, events + Visit(0, OnFork(u)), t')
    ensures OnlyMoves(0, t, t') && t'.replicas[0].st == With(t.replicas[0].st, OnFork(u)) && t'.votes == t.votes
  {
    hide Reached, Known, OnFork, Fork, Distinct, Verified, With, Delivered, HeightOf;
    var st := t.replicas[0].st;
    OnForkParts(u);
    KnownDistinct(u, st.store, OnFork(u));
    ForkVerified(mode, t.votes, OnFork(u));
    assert Live.AllDelivered(st.store, [Fork(u)]);
    assert Genesis in st.store by {
      assert Delivered(st.store, Genesis);
      InStore(st.store, Genesis);
    }
    t' := VisitDelivers(Four(mode), TheKeys, events, t, 0, OnFork(u));
  }

  /** Receiving it reads out of bounds exactly when a walk from the uncle to hqc or, above the last
      vote, to the lock is cut. */
  lemma ReceiveOnFork(mode: Mode, u: nat, m: nat, st: State, enabled: bool)
    requires m > Lag(mode) && Facing(mode, u, m, st)
    ensures var s := With(st, OnFork(u));
      Live.ReceiveProposal(mode, s, OnFork(u), enabled).error
        == if Descend(s.store, Fork(u), m - 1).None?
            || (u >= m && Descend(s.store, Fork(u), m - (Lag(mode) - 1)).None?) then OutOfBounds else NoError
  {
    hide Fork, Known, Main;
    var s, p := With(st, OnFork(u)), OnFork(u);
    assert Live.UndecidedRef(s.store, p) == None;
    assert HeightOf(s.store, p) == u + 1 && Direct(s.store, p, Fork(u));
    assert forall to :: Descend(s.store, p, to) == if u + 1 <= to then Some(p) else Descend(s.store, Fork(u), to);
  }

  lemma StandsFacing(mode: Mode, u: nat, m: nat, l: Local)
    requires Stands(mode, u, u, m, l) && m > Lag(mode)
    ensures Facing(mode, u, m, l.st)
  {
    hide Holds, Main, Fork, CertOf, Known, Seen, Complete, OnFork;
    var x, store := Sub(m, Lag(mode)), l.st.store;
    Link(u, m, x, store, 0);
    Link(u, m, x, store, m - 1);
    Link(u, m, x, store, m - (Lag(mode) - 1));
    ForkLink(u, m, x, store, u);
    forall b | b in store ensures Known(u, b) && b != OnFork(u) {
      HoldsSeen(u, u, m, x, store, b);
      SeenKnown(u, u, m, b);
      SeenNotOnFork(u, m, b);
    }
    MainParts(u, 0);
  }

  lemma SeenNotOnFork(u: nat, n: nat, b: Block)
    requires Seen(u, u, n, b)
    ensures b != OnFork(u)
  {
    hide CertOf;
  }

  /** prune(0), releasing nothing. */
  ghost function Emptied(st: State): State {
    st.(store := Stripped(st.store, st.bExec))
  }

  lemma MayEmpty(st: State, tail: Block)
    ensures Prunes(st, tail, 0, {}, Emptied(st))
  {
    hide Stripped, Reachable;
    assert Stripped(st.store, st.bExec) - {} == Stripped(st.store, st.bExec);
  }

  lemma EmptiedFacing(mode: Mode, u: nat, m: nat, l: Local)
    requires Stands(mode, u, u, m, l) && m > Lag(mode) && u >= 1
    ensures Facing(mode, u, m, Emptied(l.st)) && Emptied(l.st).store[Fork(u)].parents == []
  {
    hide Holds, Main, Fork, CertOf, Known, OnFork, Reachable;
    var x := Sub(m, Lag(mode));
    StandsFacing(mode, u, m, l);
    StrippedFields(l.st.store, l.st.bExec);
    ForkLink(u, m, x, l.st.store, u);
    ForkIsReachable(u, m, x, l.st.store, x, u);
  }

  /** The run, and the same after prune(0). */
  lemma PrunedRun(mode: Mode, u: nat, m: nat) returns (t: StoreSystem, t': StoreSystem)
    requires Four(mode).Valid()
    ensures Reached(Four(mode), TheKeys, Rounds(u, m), t) && Stage(mode, u, u, m, t)
    ensures Reached(Four(mode), TheKeys, Rounds(u, m) + [PruneEvent(0, 0, {})], t')
    ensures t' == t.(replicas := t.replicas[0 := Local(Emptied(t.replicas[0].st), t.replicas[0].tail)])
  {
    hide Reached, Stands, Prunes, Emptied, Main, Rounds;
    t := RoundsReach(mode, u, m);
    MayEmpty(t.replicas[0].st, t.replicas[0].tail);
    t' := PruneReached(mode, Rounds(u, m), t, {}, Emptied(t.replicas[0].st));
  }

  /** prune follows uncles too: a chain whose first block took the top of a branch as an uncle is
      executed and pruned, and then a proposal on that branch arrives. It is read out of bounds for
      exactly when the uncle is higher than hqc; without pruning it is received. */
  lemma StrippedUncle(mode: Mode, u: nat, m: nat, enabled: bool) returns (t: StoreSystem, t': StoreSystem)
    requires m > Lag(mode) && u >= 1
    ensures Four(mode).Valid() && Reached(Four(mode), TheKeys, Rounds(u, m) + Visit(0, OnFork(u)), t) && 0 in t.replicas
    ensures Reached(Four(mode), TheKeys, Rounds(u, m) + [PruneEvent(0, 0, {})] + Visit(0, OnFork(u)), t') && 0 in t'.replicas
    ensures Live.ReceiveProposal(mode, t.replicas[0].st, OnFork(u), enabled).error == NoError
    ensures Live.ReceiveProposal(mode, t'.replicas[0].st, OnFork(u), enabled).error == if u > m - 1 then OutOfBounds else NoError
  {
    hide Reached, Stands, Prunes, Emptied, Facing, With, Main, Fork, OnFork, Rounds, Visit, Live.ReceiveProposal;
    FourIsValid(mode);
    var t0, t1 := PrunedRun(mode, u, m);
    var l := t0.replicas[0];
    StandsFacing(mode, u, m, l);
    t := ProposalArrives(mode, u, m, Rounds(u, m), t0);
    UnprunedIsReceived(mode, u, m, l, enabled);
    EmptiedFacing(mode, u, m, l);
    t' := ProposalArrives(mode, u, m, Rounds(u, m) + [PruneEvent(0, 0, {})], t1);
    EmptiedIsCut(mode, u, m, l, enabled);
  }

  lemma UnprunedIsReceived(mode: Mode, u: nat, m: nat, l: Local, enabled: bool)
    requires Stands(mode, u, u, m, l) && m > Lag(mode)
    ensures Live.ReceiveProposal(mode, With(l.st, OnFork(u)), OnFork(u), enabled).error == NoError
  {
    hide Holds, Main, Fork, CertOf, Known, OnFork, Live.ReceiveProposal, Anew;
    var x := Sub(m, Lag(mode));
    StandsFacing(mode, u, m, l);
    DescendFork(u, m, x, l.st.store, OnFork(u), Anew(OnFork(u)), u, m - 1);
    DescendFork(u, m, x, l.st.store, OnFork(u), Anew(OnFork(u)), u, m - (Lag(mode) - 1));
    ReceiveOnFork(mode, u, m, l.st, enabled);
  }

  lemma EmptiedIsCut(mode: Mode, u: nat, m: nat, l: Local, enabled: bool)
    requires Stands(mode, u, u, m, l) && m > Lag(mode) && u >= 1
    ensures Live.ReceiveProposal(mode, With(Emptied(l.st), OnFork(u)), OnFork(u), enabled).error
      == if u > m - 1 then OutOfBounds else NoError
  {
    hide Stands, Emptied, Main, Known, Live.ReceiveProposal;
    EmptiedFacing(mode, u, m, l);
    ReceiveOnFork(mode, u, m, Emptied(l.st), enabled);
    CutAtFork(u, With(Emptied(l.st), OnFork(u)).store, m - 1);
    CutAtFork(u, With(Emptied(l.st), OnFork(u)).store, m - (Lag(mode) - 1));
  }

  lemma CutAtFork(u: nat, store: Store, to: nat)
    requires Delivered(store, Fork(u)) && store[Fork(u)].parents == [] && HeightOf(store, Fork(u)) == u
    ensures Descend(store, Fork(u), to).None? <==> u > to
  {
  }

  // ---- that proposal as a tail -------------------------------------------------------------

  /** The pruned store still has the newest block of the chain, undecided, and not the next one. */
  ghost predicate Newest(u: nat, m: nat, st: State) {
    var b := Main(u, m);
    && Delivered(st.store, b) && HeightOf(st.store, b) == m && !Decision(st.store, b)
    && Main(u, m + 1) !in st.store && st.tails == {b}
  }

  lemma EmptiedNewest(mode: Mode, u: nat, m: nat, l: Local)
    requires Stands(mode, u, u, m, l) && m > Lag(mode)
    ensures Newest(u, m, Emptied(l.st))
  {
    hide Holds, Main, CertOf, Stripped, Complete;
    var x := Sub(m, Lag(mode));
    StrippedFields(l.st.store, l.st.bExec);
    Link(u, m, x, l.st.store, m);
    MainIsNew(u, m, x, l.st.store);
  }

  /** The proposal on the branch and the next block of the chain, both delivered. */
  ghost predicate BothTails(u: nat, m: nat, st: State) {
    var b, p := Main(u, m), Main(u, m + 1);
    && (forall x :: x in st.store ==> Known(u, x)) && st.tails == {p, OnFork(u)}
    && Delivered(st.store, b) && HeightOf(st.store, b) == m && !Decision(st.store, b)
    && p in st.store && st.store[p] == Anew(p)
    && OnFork(u) in st.store && st.store[OnFork(u)] == Anew(OnFork(u))
    && Delivered(st.store, Fork(u)) && HeightOf(st.store, Fork(u)) == u && st.store[Fork(u)].parents == []
  }

  lemma NextReady(mode: Mode, u: nat, m: nat, st: State)
    requires m > 0 && Facing(mode, u, m, st) && Newest(u, m, st)
    ensures var s, p := With(st, OnFork(u)), Main(u, m + 1);
      && p !in s.store && p.Node? && Live.AllDelivered(s.store, Parents(p)) && p.justify in s.store
      && HeightOf(s.store, p.parent) == Height(p.parent) && Distinct(TheKeys, s.store, p)
  {
    hide Main, Fork, Known, Kind, CertOf, OnFork, Distinct, Anew, Parents;
    BranchApart(u, m);
    MainParents(u, m + 1);
    MainParts(u, m + 1);
    MainParts(u, m);
    NextDistinct(mode, u, m, st);
  }

  lemma NextDistinct(mode: Mode, u: nat, m: nat, st: State)
    requires Facing(mode, u, m, st)
    ensures Distinct(TheKeys, With(st, OnFork(u)).store, Main(u, m + 1))
  {
    hide Main, Fork, Known, OnFork, Distinct, Anew, Parents;
    OnForkParts(u);
    MainKnown(u, m + 1);
    KnownDistinct(u, With(st, OnFork(u)).store, Main(u, m + 1));
  }

  /** Blocks of different families. */
  lemma BranchApart(u: nat, m: nat)
    requires m > 0
    ensures Main(u, m) != Fork(u) && Main(u, m) != OnFork(u) && Main(u, m + 1) != OnFork(u) && Main(u, m + 1) != Fork(u)
    ensures Fork(u) != OnFork(u)
  {
    hide CertOf;
  }

  lemma NextDelivered(mode: Mode, u: nat, m: nat, st: State)
    requires m > 0 && Facing(mode, u, m, st) && Newest(u, m, st) && st.store[Fork(u)].parents == []
    ensures BothTails(u, m, With(With(st, OnFork(u)), Main(u, m + 1)))
  {
    hide Main, Fork, Known, Kind, CertOf, OnFork, Parents, Height, Anew;
    var b, p, f := Main(u, m), Main(u, m + 1), OnFork(u);
    BranchApart(u, m);
    OnForkParts(u);
    MainParents(u, m + 1);
    MainKnown(u, m + 1);
    MainsDiffer(u, m, m + 1);
    assert With(With(st, f), p).store == st.store[f := Anew(f)][p := Anew(p)];
    TwoTails(b, p, f, Fork(u), st.tails);
  }

  lemma TwoTails(b: Block, p: Block, f: Block, below: Block, tails: set<Block>)
    requires tails == {b} && Parents(p) == [b] && Parents(f) == [below] && b != below && b != f && f != p
    ensures tails - Elements(Parents(f)) + {f} - Elements(Parents(p)) + {p} == {p, f}
  {
    assert Elements([below]) == {below} && Elements([b]) == {b};
  }

  /** The certificate of the next block brings a new hqc, and the walk from the branch is cut. */
  lemma BranchTail(u: nat, m: nat, st: State)
    requires m > 0 && BothTails(u, m, st)
    ensures Live.UndecidedRef(st.store, Main(u, m + 1)) == Some(Main(u, m)) && HeightOf(st.store, Main(u, m)) == m
    ensures Live.TailsCut(st.(hqc := Main(u, m))) <==> u > m
  {
    hide Main, Fork, Known, Kind, CertOf, OnFork, Parents;
    var b, p, f := Main(u, m), Main(u, m + 1), OnFork(u);
    MainParents(u, m + 1);
    MainParts(u, m + 1);
    OnForkParts(u);
    OneDown(st.store, p, m);
    assert Descend(st.store, f, m) == if u + 1 <= m then Some(f) else Descend(st.store, Fork(u), m);
    CutAtFork(u, st.store, m);
    assert f in st.tails && p in st.tails;
  }

  /** The run goes on with prune(0) and the delivery of both blocks. */
  lemma BothDelivered(mode: Mode, u: nat, m: nat) returns (t: StoreSystem)
    requires Four(mode).Valid() && m > Lag(mode) && u >= 1
    ensures Reached(Four(mode), TheKeys,
      Rounds(u, m) + [PruneEvent(0, 0, {})] + Visit(0, OnFork(u)) + Visit(0, Main(u, m + 1)), t)
    ensures 0 in t.replicas && var st := t.replicas[0].st;
      BothTails(u, m, st) && st.hqc == Main(u, m - 1) && st.bExec == Main(u, m - Lag(mode)) && HeightOf(st.store, st.hqc) == m - 1
  {
    hide Reached, Prunes, Emptied, Facing, Newest, BothTails, With, Main, Fork, OnFork, Rounds, Visit, Holds, Verified,
      Distinct, CertOf;
    var t0, t1 := PrunedRun(mode, u, m);
    var l, st := t0.replicas[0], Emptied(t0.replicas[0].st);
    EmptiedFacing(mode, u, m, l);
    EmptiedNewest(mode, u, m, l);
    var t2 := ProposalArrives(mode, u, m, Rounds(u, m) + [PruneEvent(0, 0, {})], t1);
    NextReady(mode, u, m, st);
    MainVerified(mode, t2.votes, u, m + 1);
    t := VisitDelivers(Four(mode), TheKeys, Rounds(u, m) + [PruneEvent(0, 0, {})] + Visit(0, OnFork(u)), t2, 0, Main(u, m + 1));
    NextDelivered(mode, u, m, st);
    KeepsHqc(mode, u, m, l);
  }

  lemma KeepsHqc(mode: Mode, u: nat, m: nat, l: Local)
    requires Stands(mode, u, u, m, l) && m > Lag(mode) && Facing(mode, u, m, Emptied(l.st))
    ensures var s := With(With(Emptied(l.st), OnFork(u)), Main(u, m + 1));
      s.hqc == Main(u, m - 1) && s.bExec == Main(u, m - Lag(mode)) && HeightOf(s.store, s.hqc) == m - 1
  {
    hide Holds, Main, Fork, CertOf, OnFork, Stripped, Known, Anew, Parents, HeightOf;
    MainsDiffer(u, m - 1, m + 1);
    BranchApart(u, m - 1);
    SameHeight(With(Emptied(l.st), OnFork(u)), Main(u, m + 1), Main(u, m - 1));
    SameHeight(Emptied(l.st), OnFork(u), Main(u, m - 1));
  }

  lemma SameHeight(st: State, p: Block, b: Block)
    requires b != p
    ensures HeightOf(With(st, p).store, b) == HeightOf(st.store, b)
  {
    hide Anew;
  }

  /** Also where no walk from the received block is cut: the chain's next block, whose certificate is
      high, reads out of bounds from the branch exactly when the uncle is higher than the new hqc. */
  lemma StrippedTail(mode: Mode, u: nat, m: nat, enabled: bool) returns (t: StoreSystem)
    requires m > Lag(mode) && u >= 1
    ensures Four(mode).Valid() && Reached(Four(mode), TheKeys,
      Rounds(u, m) + [PruneEvent(0, 0, {})] + Visit(0, OnFork(u)) + Visit(0, Main(u, m + 1)), t)
    ensures 0 in t.replicas && Height(Justify(Main(u, m + 1))) > Height(t.replicas[0].st.bExec)
    ensures Live.ReceiveProposal(mode, t.replicas[0].st, Main(u, m + 1), enabled).error == OutOfBounds <==> u > m
  {
    hide Reached, BothTails, Main, Fork, OnFork, Rounds, Visit, IsStoreRun, Live.ReceiveProposal, Live.CommitsBelow,
      Live.MeetsEmptied, Live.TailsCut, Live.UndecidedRef, CertOf, Kind;
    FourIsValid(mode);
    t := BothDelivered(mode, u, m);
    var st, p := t.replicas[0].st, Main(u, m + 1);
    var events := Rounds(u, m) + [PruneEvent(0, 0, {})] + Visit(0, OnFork(u)) + Visit(0, p);
    MainParts(u, m + 1);
    MainParts(u, m);
    MainParts(u, m - Lag(mode));
    BranchTail(u, m, st);
    TailDelivered(u, m, st);
    var run := ReachedRun(Four(mode), TheKeys, events, t);
    var _ := StoreTheorems.ReceiveExactly(Four(mode), TheKeys, run, events, |events|, 0, p, enabled);
    StoreTheorems.HighCertificateIsSafe(Four(mode), TheKeys, run, events, |events|, 0, p);
  }

  lemma TailDelivered(u: nat, m: nat, st: State)
    requires BothTails(u, m, st)
    ensures Delivered(st.store, Main(u, m + 1))
  {
  }
}
