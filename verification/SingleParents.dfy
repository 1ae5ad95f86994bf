/** Chains of single parents: pruning then empties only ancestors of the executed block, and no
    handler ever reads out of bounds. */
module SingleParents {
  import opened Bytes
  import opened Blocks
  import opened Quorums
  import opened Signatures
  import opened Certificates
  import opened ReplicaModel
  import opened Protocol
  import opened BlockStore
  import opened Pruning
  import opened Mirror
  import opened StoreProtocol
  import opened Refinement
  import opened StoreTheorems
  import opened Options
  import StoreProofs
  import Live = StoreModel

  ghost predicate UncleFree(store: Store) {
    forall b :: b in store && b.Node? ==> b.uncles == []
  }

  /** Only ancestors of the executed block have been emptied. */
  ghost predicate EmptiedBelow(st: State) {
    forall b :: Delivered(st.store, b) && st.store[b].parents == [] ==> Extends(st.bExec, b)
  }

  /** Then nothing is ever read out of bounds. */
  lemma NothingEmptiedAbove(c: Config, votes: set<Vote>, r: nat, x: Replica, l: Local, b: Block)
    requires Standing(c, votes, r, x, l) && Delivered(l.st.store, b) && EmptiedBelow(l.st)
    requires forall t :: t in l.st.tails ==> Delivered(l.st.store, t)
    ensures !Live.Stumbles(l.st, b)
  {
    var st := l.st;
    InvBacks(c, votes, r, x);
    MirrorHeights(x.core, st);
    NotCut(st, b, HeightOf(st.store, st.hqc));
    NotCut(st, b, HeightOf(st.store, st.bLock));
    var q := Live.UndecidedRef(st.store, b);
    if q.Some? && HeightOf(st.store, q.value) > HeightOf(st.store, st.hqc) {
      forall t | t in st.tails ensures Descend(st.store, t, HeightOf(st.store, q.value)).Some? {
        NotCut(st, t, HeightOf(st.store, q.value));
      }
    }
  }

  lemma NotCut(st: State, b: Block, h: nat)
    requires Sound(st.store) && Delivered(st.store, b) && EmptiedBelow(st) && h >= Height(st.bExec)
    ensures Descend(st.store, b, h).Some?
  {
    CutByEmptied(st.store, b, h);
    forall x | Extends(st.bExec, x) ensures Height(x) <= Height(st.bExec) {
      ExtendsHeight(st.bExec, x);
    }
  }

  // ---- every event keeps it ----------------------------------------------------------------

  ghost predicate Tidy(st: State) {
    Live.StateOk(st) && EmptiedBelow(st) && Delivered(st.store, st.bExec) && forall t :: t in st.tails ==> Delivered(st.store, t)
  }

  /** Parents of delivered blocks stay, the executed block moves up, tails are delivered blocks. */
  ghost predicate Grows(st: State, st': State) {
    && Extends(st'.bExec, st.bExec)
    && (forall b :: Delivered(st.store, b) ==> Delivered(st'.store, b))
    && (forall b :: Delivered(st'.store, b) ==>
      st'.store[b].parents != [] || (Delivered(st.store, b) && st'.store[b].parents == st.store[b].parents))
    && (forall t :: t in st'.tails ==> t in st.tails || Delivered(st'.store, t))
  }

  lemma GrowsTidy(st: State, st': State)
    requires Tidy(st) && Live.StateOk(st') && Grows(st, st') && Delivered(st'.store, st'.bExec)
    ensures Tidy(st')
  {
    forall b | Delivered(st'.store, b) && st'.store[b].parents == [] ensures Extends(st'.bExec, b) {
      ExtendsTransitive(st'.bExec, st.bExec, b);
    }
  }

  lemma UpdateGrows(mode: Mode, st: State, b: Block)
    requires Live.StateOk(st)
    ensures Grows(st, Live.Update(mode, st, b).st) && Live.StateOk(Live.Update(mode, st, b).st)
  {
    StoreProofs.UpdateKeeps(mode, st, b);
    UpdateExtends(mode, st, b);
    hide Live.Update, Live.StateOk, Extends;
  }

  lemma VoteGrows(st: State, b: Block, enabled: bool)
    requires Live.StateOk(st)
    ensures Grows(st, Live.CastVote(st, b, enabled).st) && Live.StateOk(Live.CastVote(st, b, enabled).st)
  {
    StoreProofs.CastVoteKeeps(st, b, enabled);
    hide Live.CastVote, Live.StateOk;
  }

  lemma GrowsTwice(st: State, st1: State, st2: State)
    requires Grows(st, st1) && Grows(st1, st2)
    ensures Grows(st, st2)
  {
    ExtendsTransitive(st2.bExec, st1.bExec, st.bExec);
  }

  lemma ReceiveGrows(mode: Mode, st: State, b: Block, enabled: bool)
    requires Live.StateOk(st)
    ensures Grows(st, Live.ReceiveProposal(mode, st, b, enabled).st)
  {
    var u := Live.Update(mode, st, b).st;
    UpdateGrows(mode, st, b);
    VoteGrows(u, b, enabled);
    GrowsTwice(st, u, Live.CastVote(u, b, enabled).st);
    assert Grows(st, st);
    hide Grows, Live.Update, Live.CastVote, Live.StateOk;
  }

  lemma FinishGrows(mode: Mode, st: State, b: Block, enabled: bool)
    requires Live.StateOk(st)
    ensures Grows(st, Live.Finish(mode, st, b, enabled).st)
  {
    var u := Live.Update(mode, st, b).st;
    UpdateGrows(mode, st, b);
    VoteGrows(u, b, enabled);
    GrowsTwice(st, u, Live.CastVote(u, b, enabled).st);
    hide Grows, Live.Update, Live.CastVote, Live.StateOk;
  }

  lemma CountGrows(n: nat, majority: nat, hashOf: BlockHash, st: State, v: Vote, sig: Data)
    requires v.voter < |Live.SelfQc(n, hashOf, st.store, v.blk).rids|
    ensures Grows(st, Live.ReceiveVote(n, majority, hashOf, st, v, sig).st)
  {
    hide Extends;
    assert Extends(st.bExec, st.bExec) by {
      ExtendsSelf(st.bExec);
    }
  }

  lemma ExtendsSelf(b: Block)
    ensures Extends(b, b)
  {
  }

  lemma BuiltGrows(n: nat, hashOf: BlockHash, st: State, tail: Block, b: Block)
    requires Live.StateOk(st) && Delivered(st.store, tail) && b.Node? && Parents(b) == [tail] && b.justify == st.hqc
    ensures Grows(st, Live.Built(n, hashOf, st, tail, b)) && Live.StateOk(Live.Built(n, hashOf, st, tail, b))
  {
    hide Live.StateOk, Live.Deliver, EmptyCert, Extends;
    StoreProofs.BuiltKeeps(n, hashOf, st, tail, b);
    var s := Live.Fetch(st.(tails := st.tails - {tail}), b);
    DeliveredParents(s.(store := s.store[b := s.store[b].(selfQc := Some(EmptyCert(n, hashOf(b))))]), b);
    ExtendsSelf(st.bExec);
  }

  lemma ProposeGrows(mode: Mode, n: nat, hashOf: BlockHash, st: State, tail: Block, cmds: seq<nat>, enabled: bool)
    requires Live.StateOk(st) && Delivered(st.store, tail)
    ensures Grows(st, Live.Propose(mode, n, hashOf, st, tail, cmds, enabled).st)
  {
    var b := Live.NewBlock(st, tail, cmds);
    var e := Live.Built(n, hashOf, st, tail, b);
    BuiltGrows(n, hashOf, st, tail, b);
    FinishGrows(mode, e, b, enabled);
    GrowsTwice(st, e, Live.Finish(mode, e, b, enabled).st);
    hide Grows, Live.Built, Live.Finish, Live.StateOk;
  }

  lemma UpdateExtends(mode: Mode, st: State, b: Block)
    ensures Extends(Live.Update(mode, st, b).st.bExec, st.bExec)
  {
    forall s: State, blk ensures Extends(Live.Commit(s, blk).st.bExec, s.bExec) {
      DescendExtends(s.store, blk, HeightOf(s.store, s.bExec));
    }
    hide Live.Commit, Extends;
    assert forall s: State, c1, direct :: Extends(Live.FromLock(s, c1, direct).st.bExec, s.bExec);
    hide Live.FromLock;
    assert forall s: State, c1 :: Extends(Live.FromHqc(mode, s, c1).st.bExec, s.bExec);
  }

  lemma DeliverGrows(st: State, b: Block)
    requires Live.StateOk(st) && b in st.store
    ensures Grows(st, Live.Deliver(st, b).st)
  {
    hide Live.Deliver, Live.StateOk, Extends;
    StoreProofs.DeliverKeeps(st, b);
    DeliveredParents(st, b);
    ExtendsSelf(st.bExec);
  }

  lemma FetchGrows(st: State, b: Block)
    ensures Grows(st, Live.Fetch(st, b))
  {
    ExtendsSelf(st.bExec);
    hide Extends;
  }

  lemma DeliveredParents(st: State, b: Block)
    requires b in st.store
    ensures var d := Live.Deliver(st, b);
      && (d.valid ==> d.st.store[b].parents != [] && d.st.tails == st.tails - Elements(Parents(b)) + {b})
      && (!d.valid ==> d.st.tails == st.tails)
      && (forall x :: x in st.store && x != b ==> d.st.store[x] == st.store[x]) && d.st.store.Keys == st.store.Keys
      && (st.store[b].delivered ==> d.st == st) && d.st.bExec == st.bExec
      && (d.st.store[b].delivered <==> st.store[b].delivered || d.valid)
  {
  }

  lemma {:induction false} SinglePath(store: Store, path: seq<Block>)
    requires Sound(store) && UncleFree(store) && ParentPath(store, path)
    ensures Extends(path[0], path[|path| - 1])
  {
    if |path| > 1 {
      var b := path[|path| - 2];
      SinglePath(store, path[..|path| - 1]);
      assert EntryOk(store, b);
      assert path[|path| - 2 + 1] in store[b].parents;
      assert path[|path| - 1] in Parents(b);
      ExtendsTransitive(path[0], b, b.parent);
    }
  }

  lemma PruneTidy(st: State, tail: Block, staleness: nat, released: set<Block>, st': State)
    requires Tidy(st) && UncleFree(st.store) && Prunes(st, tail, staleness, released, st')
    ensures Tidy(st')
  {
    PruneKeeps(st, tail, staleness, released, st');
    SkipDown(st.store, st.bExec, staleness);
    match Skip(st.store, st.bExec, staleness)
    case None =>
    case Some(start) =>
      StrippedFields(st.store, start);
      forall b | Reachable(st.store, start, b) ensures Extends(st.bExec, b) {
        var path :| ParentPath(st.store, path) && path[0] == start && path[|path| - 1] == b;
        SinglePath(st.store, path);
        ExtendsTransitive(st.bExec, start, b);
      }
      hide Reachable;
  }

  // ---- over runs ---------------------------------------------------------------------------

  ghost predicate AllTidy(t: StoreSystem) {
    forall r :: r in t.replicas ==> Tidy(t.replicas[r].st)
  }

  ghost predicate NoUncles(t: StoreSystem) {
    forall r :: r in t.replicas ==> UncleFree(t.replicas[r].st.store)
  }

  /** One event at one replica. */
  lemma EventTidy(c: Config, k: Keys, t: StoreSystem, t': StoreSystem, e: Event)
    requires c.Valid() && ByReplica(e) && e.r in t.replicas && e.r in t'.replicas && StoreNextBy(c, k, t, t', e)
    requires var l, l' := t.replicas[e.r], t'.replicas[e.r];
      && Tidy(l.st) && UncleFree(l.st.store) && Delivered(l.st.store, l.tail)
      && Live.StateOk(l'.st) && Delivered(l'.st.store, l'.st.bExec)
    ensures Tidy(t'.replicas[e.r].st)
  {
    var st, st' := t.replicas[e.r].st, t'.replicas[e.r].st;
    hide Tidy, Grows, UncleFree, Live.Fetch, Live.Deliver, Live.ReceiveProposal, Live.ReceiveVote, Live.Propose, Live.SelfQc,
      Live.TailAfterHqc, Live.TailAfterProposal, Verified, Signed, Prunes, Live.StateOk;
    assert Live.StateOk(st) by {
      TidyOk(st);
    }
    match e
    case FetchEvent(_, b) =>
      FetchGrows(st, b);
      GrowsTidy(st, st');
    case DeliverEvent(_, b) =>
      DeliverGrows(st, b);
      GrowsTidy(st, st');
    case ReceiveEvent(_, b, enabled, _) =>
      ReceiveGrows(c.mode, st, b, enabled);
      GrowsTidy(st, st');
    case CountEvent(_, v, sig, _) =>
      CountGrows(c.n, c.Majority(), k.hashOf, st, v, sig);
      GrowsTidy(st, st');
    case ProposeEvent(_, cmds, enabled, _) =>
      ProposeGrows(c.mode, c.n, k.hashOf, st, t.replicas[e.r].tail, cmds, enabled);
      GrowsTidy(st, st');
    case PruneEvent(_, staleness, released) =>
      PruneTidy(st, t.replicas[e.r].tail, staleness, released, st');
  }

  lemma TidyOk(st: State)
    requires Tidy(st)
    ensures Live.StateOk(st)
  {
  }

  lemma AlikeOk(c: Config, votes: set<Vote>, x: Replica, l: Local)
    requires Alike(c, votes, x, l)
    ensures Live.StateOk(l.st) && Delivered(l.st.store, l.st.bExec) && Delivered(l.st.store, l.tail)
  {
  }

  lemma InitTidy(c: Config, k: Keys, t: StoreSystem)
    requires c.Valid() && StoreInit(c, k, t)
    ensures AllTidy(t)
  {
    StoreProofs.InitialOk(c.n, k.hashOf);
  }

  lemma {:induction false} RunTidy(c: Config, k: Keys, run: seq<StoreSystem>, events: seq<Event>,
                                  ideal: seq<System>, i: nat)
    requires c.Valid() && IsStoreRun(c, k, run, events) && |ideal| == |run| && i < |run|
    requires forall j :: 0 <= j < |run| ==> SystemsAlike(c, ideal[j], run[j])
    requires forall j :: 0 <= j < |run| ==> NoUncles(run[j])
    ensures AllTidy(run[i])
  {
    hide StoreInit, StoreNext, SystemsAlike, NoUncles, AllTidy;
    if i == 0 {
      InitTidy(c, k, run[0]);
    } else {
      RunTidy(c, k, run, events, ideal, i - 1);
      var e := events[i - 1];
      assert StoreNext(c, k, run[i - 1], run[i], events[i - 1]);
      assert SystemsAlike(c, ideal[i - 1], run[i - 1]) && SystemsAlike(c, ideal[i], run[i]) && NoUncles(run[i - 1]);
      StepTidy(c, k, ideal[i - 1], ideal[i], run[i - 1], run[i], e);
    }
  }

  lemma StepTidy(c: Config, k: Keys, s: System, s': System, t: StoreSystem, t': StoreSystem, e: Event)
    requires c.Valid() && StoreNext(c, k, t, t', e) && SystemsAlike(c, s, t) && SystemsAlike(c, s', t')
    requires AllTidy(t) && NoUncles(t)
    ensures AllTidy(t')
  {
    hide Tidy, UncleFree, Alike, StoreNextBy, SystemsAlike;
    if ByReplica(e) {
      OnlyOne(c, k, t, t', e);
      SystemOk(c, s, t, e.r);
      SystemOk(c, s', t', e.r);
      EventTidy(c, k, t, t', e);
    }
  }

  lemma SystemOk(c: Config, s: System, t: StoreSystem, r: nat)
    requires SystemsAlike(c, s, t) && r in t.replicas
    ensures var l := t.replicas[r];
      Live.StateOk(l.st) && Delivered(l.st.store, l.st.bExec) && Delivered(l.st.store, l.tail)
  {
    AlikeOk(c, s.votes, s.replicas[r], t.replicas[r]);
  }

  lemma OnlyOne(c: Config, k: Keys, t: StoreSystem, t': StoreSystem, e: Event)
    requires c.Valid() && ByReplica(e) && e.r in t.replicas && StoreNextBy(c, k, t, t', e)
    ensures e.r in t'.replicas && t'.replicas.Keys == t.replicas.Keys
    ensures forall q :: q in t.replicas && q != e.r ==> t'.replicas[q] == t.replicas[q]
  {
    hide Live.Fetch, Live.Deliver, Live.ReceiveProposal, Live.ReceiveVote, Live.Propose, Live.SelfQc,
      Live.TailAfterHqc, Live.TailAfterProposal, Verified, Signed, Prunes;
  }

  /** In a run without uncles nothing is ever read out of bounds: receiving a proposal acts as if
      nothing had been pruned exactly when update would not commit at or below the executed block. */
  lemma SingleParentsAreSafe(c: Config, k: Keys, run: seq<StoreSystem>, events: seq<Event>, i: nat, r: nat, b: Block,
                             enabled: bool) returns (x: Replica)
    requires c.Valid() && IsStoreRun(c, k, run, events) && i < |run| && c.Correct(r)
    requires forall j :: 0 <= j < |run| ==> NoUncles(run[j])
    requires r in run[i].replicas && Delivered(run[i].replicas[r].st.store, b)
    ensures Standing(c, run[i].votes, r, x, run[i].replicas[r])
    ensures var st := run[i].replicas[r].st;
      && !Live.Stumbles(st, b) && Live.ReceiveProposal(c.mode, st, b, enabled).error != OutOfBounds
      && (ActsAlike(c.mode, x.core, st, b, enabled) <==> !Live.CommitsBelow(c.mode, st, b))
  {
    var ideal, steps := RunRefines(c, k, run, events);
    RunTidy(c, k, run, events, ideal, i);
    x := Unpruned(c, k, run, events, i, r);
    hide IsStoreRun, Standing, ActsAlike, Live.ReceiveProposal, Live.CommitsBelow, Live.Stumbles;
    NothingEmptiedAbove(c, run[i].votes, r, x, run[i].replicas[r], b);
    ReceiveCases(c, run[i].votes, r, x, run[i].replicas[r], b, enabled);
  }
}
