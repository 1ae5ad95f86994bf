/** The remaining handlers on a pruned store: delivery, votes, own proposals, pruning itself. */
module MirrorSteps {
  import opened Bytes
  import opened Blocks
  import opened Quorums
  import opened Signatures
  import opened Certificates
  import opened ReplicaModel
  import opened ReplicaProofs
  import opened PaceMakerModel
  import opened Agreement
  import opened Safety
  import opened BlockStore
  import opened Pruning
  import opened Mirror
  import opened Options
  import StoreProofs
  import Live = StoreModel

  // ---- delivery ----------------------------------------------------------------------------

  /** A change to entries of undelivered blocks goes unnoticed. */
  lemma UndeliveredMirrors(s: Core, st: State, b: Block, e: Entry)
    requires Mirrors(s, st) && !Delivered(st.store, b) && !e.delivered
    requires !e.decision || Decision(st.store, b)
    requires Live.StateOk(st.(store := st.store[b := e]))
    ensures Mirrors(s, st.(store := st.store[b := e]))
  {
    hide Sound, VotedFor, Extends;
  }

  lemma FetchMirrors(s: Core, st: State, b: Block)
    requires Mirrors(s, st)
    ensures Mirrors(s, Live.Fetch(st, b))
  {
    StoreProofs.FetchKeeps(st, b);
    if b !in st.store {
      UndeliveredMirrors(s, st, b, Fetched);
    }
  }

  /** Delivery here is delivery there, unless the block is refused; what was released and is
      delivered again was delivered there all along. */
  lemma DeliverMirrors(s: Core, st: State, b: Block)
    requires Mirrors(s, st) && b in st.store
    requires b in s.delivered ==> forall p :: p in Parents(b) ==> p !in s.tails
    ensures var d := Live.Deliver(st, b);
      Mirrors(if d.valid then Deliver(s, b) else s, d.st)
  {
    StoreProofs.DeliverKeeps(st, b);
    if !st.store[b].delivered {
      StoreProofs.DeliveredEntryOk(st, b);
      StoreProofs.FetchedVotes(st.store, b);
      var d := Live.Deliver(st, b);
      DeliverFields(st, b);
      hide Mirrors, Sound, EntryOk, Live.StateOk, Live.Deliver, Deliver;
      if d.valid {
        DeliveredMirrors(s, st, b, d.st);
      } else {
        UndeliveredMirrors(s, st, b, d.st.store[b]);
      }
    }
  }

  lemma DeliverFields(st: State, b: Block)
    requires b in st.store
    ensures var d := Live.Deliver(st, b);
      && b in d.st.store && Decision(d.st.store, b) == Decision(st.store, b) == d.st.store[b].decision
      && d.st.store[b].voted == st.store[b].voted
      && d.st == st.(store := d.st.store, tails := if d.valid then st.tails - Elements(Parents(b)) + {b} else st.tails)
  {
  }

  lemma DeliveredMirrors(s: Core, st: State, b: Block, st': State)
    requires Mirrors(s, st) && !Delivered(st.store, b) && Live.StateOk(st') && b in st'.store
    requires b in s.delivered ==> forall p :: p in Parents(b) ==> p !in s.tails
    requires st' == st.(store := st.store[b := st'.store[b]], tails := st.tails - Elements(Parents(b)) + {b})
    requires st'.store[b].delivered && st'.store[b].qcRef.Some? && st'.store[b].voted == {}
    requires Decision(st'.store, b) == Decision(st.store, b)
    ensures Mirrors(Deliver(s, b), st')
  {
    hide Sound, Extends, Above;
    var s' := Deliver(s, b);
    assert forall x :: VotedFor(s', x) == VotedFor(s, x);
    assert DeliveredAlike(s', st');
    assert DecidedAlike(s', st');
    assert IntactAbove(s', st');
    assert TailsAlike(s', st');
    assert VotesAlike(s', st');
  }

  // ---- votes -------------------------------------------------------------------------------

  /** Changing the votes of one delivered block, alike if it is the executed block or above. */
  lemma VotedMirrors(s: Core, st: State, b: Block, s': Core, e: Entry)
    requires Mirrors(s, st) && Delivered(st.store, b)
    requires e == st.store[b].(voted := e.voted, selfQc := e.selfQc)
    requires s' == s.(voted := s'.voted) && forall x :: x != b ==> VotedFor(s', x) == VotedFor(s, x)
    requires Extends(b, s.bExec) ==> VotedFor(s', b) == e.voted
    ensures Mirrors(s', st.(store := st.store[b := e]))
  {
    StoreProofs.ChangeSound(st.store, b, e.voted, e.selfQc);
    ChangeShape(st.store, b, e);
    hide Extends, Sound, Above, VotesAlike, DeliveredAlike, DecidedAlike, IntactAbove, SameShape, VotedFor, Delivered, TailsAlike;
    var st' := st.(store := st.store[b := e]);
    MirrorsParts(s, st, b);
    VotedAlike(s, st, b, s', e);
    SameShapeAlike(s, st, s', st');
    FieldsStay(s, st, s', st');
  }

  lemma ChangeShape(store: Store, b: Block, e: Entry)
    requires b in store && e == store[b].(voted := e.voted, selfQc := e.selfQc)
    ensures SameShape(store, store[b := e])
  {
  }

  lemma MirrorsParts(s: Core, st: State, b: Block)
    requires Mirrors(s, st) && Delivered(st.store, b)
    ensures VotesAlike(s, st) && DeliveredAlike(s, st) && DecidedAlike(s, st) && IntactAbove(s, st)
    ensures b in s.delivered && b in st.store && st.store[b].delivered
  {
  }

  lemma FieldsStay(s: Core, st: State, s': Core, st': State)
    requires Mirrors(s, st) && SameShape(st.store, st'.store) && s' == s.(voted := s'.voted) && st' == st.(store := st'.store)
    requires Sound(st'.store) && st'.store.Keys == st.store.Keys
    ensures Live.StateOk(st') && CoreDelivered(st') && SameFields(s', st') && TailsAlike(s', st')
  {
    hide Sound, Extends;
  }

  lemma VotedAlike(s: Core, st: State, b: Block, s': Core, e: Entry)
    requires VotesAlike(s, st) && Delivered(st.store, b) && b in s.delivered && e.delivered
    requires s' == s.(voted := s'.voted) && forall x :: x != b ==> VotedFor(s', x) == VotedFor(s, x)
    requires Extends(b, s.bExec) ==> VotedFor(s', b) == e.voted
    ensures VotesAlike(s', st.(store := st.store[b := e]))
  {
    hide Extends, VotedFor;
  }

  /** Votes cast for a block that is not on the executed block's side cannot move hqc to it. */
  lemma CertifiedElsewhere(c: Config, votes: set<Vote>, s: Core, b: Block)
    requires Backed(c, votes, s) && Certified(c, votes, b) && !Extends(b, s.bExec)
    ensures Height(b) <= Height(s.hqc)
  {
    if Height(b) >= Height(s.bExec) {
      CertifiedIsAbove(c, votes, s, b);
    }
  }

  lemma CountedCertify(c: Config, votes: set<Vote>, st: State, v: Vote)
    requires c.Valid() && CountedAreCast(c, votes, st) && Delivered(st.store, v.blk) && v in votes && v.voter < c.n
    requires v.voter !in st.store[v.blk].voted && |st.store[v.blk].voted| + 1 == c.Majority()
    ensures Certified(c, votes, v.blk)
  {
    if v.blk.Node? {
      SubsetSize(st.store[v.blk].voted + {v.voter}, Voters(c, votes, v.blk));
    }
  }

  ghost predicate VoteCounted(c: Config, hashOf: BlockHash, s: Core, st: State, v: Vote, sig: Data)
    requires c.Valid() && v.voter < |Live.SelfQc(c.n, hashOf, st.store, v.blk).rids|
  {
    var o, u := ReceiveVote(s, c.Majority(), v), Live.ReceiveVote(c.n, c.Majority(), hashOf, st, v, sig);
    && !u.voted && u.error == (if u.st.hqc != st.hqc && Live.TailsCut(u.st) then OutOfBounds else NoError)
    && Mirrors(o.core, u.st)
  }

  /** There the votes may differ, and counting moves nothing else. */
  lemma CountElsewhere(c: Config, votes: set<Vote>, s: Core, v: Vote)
    requires Backed(c, votes, s) && v.blk in s.delivered && !Extends(v.blk, s.bExec)
    requires CollectedAreCast(c, votes, s) && v in votes && v.voter < c.n
    ensures var o := ReceiveVote(s, c.Majority(), v).core;
      o == s.(voted := o.voted) && forall x :: x != v.blk ==> VotedFor(o, x) == VotedFor(s, x)
  {
    if |VotedFor(s, v.blk)| + 1 == c.Majority() && v.voter !in VotedFor(s, v.blk) {
      CollectedCertify(c, votes, s, v);
      CertifiedElsewhere(c, votes, s, v.blk);
    }
    hide Extends, Certified, CollectedAreCast, Backed;
  }

  lemma LiveCountElsewhere(c: Config, votes: set<Vote>, hashOf: BlockHash, s: Core, st: State, v: Vote, sig: Data)
    requires Backed(c, votes, s) && Mirrors(s, st) && Delivered(st.store, v.blk) && !Extends(v.blk, s.bExec)
    requires CountedAreCast(c, votes, st) && v in votes && v.voter < c.n
    requires v.voter < |Live.SelfQc(c.n, hashOf, st.store, v.blk).rids|
    ensures var u := Live.ReceiveVote(c.n, c.Majority(), hashOf, st, v, sig);
      u == Live.Result(st, false, NoError) || exists qc :: u == Live.Result(Live.Counted(st, v, qc), false, NoError)
  {
    var e := st.store[v.blk];
    assert EntryOk(st.store, v.blk) && EntryOk(st.store, st.hqc);
    if |e.voted| + 1 == c.Majority() && v.voter !in e.voted {
      CountedCertify(c, votes, st, v);
      CertifiedElsewhere(c, votes, s, v.blk);
    }
    assert s.hqc == st.hqc;
    hide Extends, Certified, CountedAreCast, Backed, Mirrors, EntryOk, Live.TailsCut;
  }

  lemma VoteElsewhere(c: Config, votes: set<Vote>, hashOf: BlockHash, s: Core, st: State, v: Vote, sig: Data)
    requires Backed(c, votes, s) && Mirrors(s, st) && Delivered(st.store, v.blk) && !Extends(v.blk, s.bExec)
    requires CollectedAreCast(c, votes, s) && CountedAreCast(c, votes, st) && v in votes && v.voter < c.n
    requires v.voter < |Live.SelfQc(c.n, hashOf, st.store, v.blk).rids|
    ensures VoteCounted(c, hashOf, s, st, v, sig)
  {
    assert v.blk in s.delivered;
    hide Mirrors, VotesInv, CoreInv, CertificatesHold, Extends, ReceiveVote, Live.ReceiveVote, VotedFor, CollectedAreCast, CountedAreCast;
    CountElsewhere(c, votes, s, v);
    LiveCountElsewhere(c, votes, hashOf, s, st, v, sig);
    var o, u := ReceiveVote(s, c.Majority(), v).core, Live.ReceiveVote(c.n, c.Majority(), hashOf, st, v, sig).st;
    assert st == st.(store := st.store[v.blk := st.store[v.blk]]);
    VotedMirrors(s, st, v.blk, o, u.store[v.blk]);
  }

  lemma VoteOnChain(c: Config, hashOf: BlockHash, s: Core, st: State, v: Vote, sig: Data)
    requires c.Valid() && Mirrors(s, st) && Delivered(st.store, v.blk) && Extends(v.blk, s.bExec)
    requires v.voter < |Live.SelfQc(c.n, hashOf, st.store, v.blk).rids|
    ensures VoteCounted(c, hashOf, s, st, v, sig)
  {
    var e := st.store[v.blk];
    assert v.blk in s.delivered && e.voted == VotedFor(s, v.blk);
    var s1 := s.(voted := s.voted[v.blk := e.voted + {v.voter}]);
    assert VotedFor(s1, v.blk) == e.voted + {v.voter} && forall x :: x != v.blk ==> VotedFor(s1, x) == VotedFor(s, x);
    var qc := AddPart(Live.SelfQc(c.n, hashOf, st.store, v.blk), v.voter, sig);
    var st1 := Live.Counted(st, v, qc);
    VoteUnfolds(c, hashOf, s, st, v, sig);
    hide Mirrors, Extends, VotedFor, UpdateHqc, Live.UpdateHqc, Live.TailsCut, AddPart, ReceiveVote, Live.ReceiveVote;
    VotedMirrors(s, st, v.blk, s1, st1.store[v.blk]);
    HqcMirrors(s1, st1, v.blk, qc);
  }

  lemma VoteUnfolds(c: Config, hashOf: BlockHash, s: Core, st: State, v: Vote, sig: Data)
    requires c.Valid() && Delivered(st.store, v.blk) && v.blk in s.delivered
    requires st.store[v.blk].voted == VotedFor(s, v.blk)
    requires v.voter < |Live.SelfQc(c.n, hashOf, st.store, v.blk).rids|
    ensures var have := st.store[v.blk].voted;
      var o, u := ReceiveVote(s, c.Majority(), v), Live.ReceiveVote(c.n, c.Majority(), hashOf, st, v, sig);
      var s1 := s.(voted := s.voted[v.blk := have + {v.voter}]);
      var qc := AddPart(Live.SelfQc(c.n, hashOf, st.store, v.blk), v.voter, sig);
      var st1 := Live.Counted(st, v, qc);
      if |have| >= c.Majority() || v.voter in have then o.core == s && u == Live.Result(st, false, NoError)
      else if |have| + 1 == c.Majority() then o.core == UpdateHqc(s1, v.blk) && u == Live.UpdateHqc(st1, v.blk, qc)
      else o.core == s1 && u == Live.Result(st1, false, NoError)
  {
    hide UpdateHqc, Live.UpdateHqc;
  }

  /** Counting a vote for a delivered block: alike on the executed block's side of the tree; on
      the other side no count can move hqc. */
  lemma ReceiveVoteExactly(c: Config, votes: set<Vote>, hashOf: BlockHash, s: Core, st: State, v: Vote, sig: Data)
    requires Backed(c, votes, s) && Mirrors(s, st) && Delivered(st.store, v.blk)
    requires CollectedAreCast(c, votes, s) && CountedAreCast(c, votes, st) && v in votes && v.voter < c.n
    requires v.voter < |Live.SelfQc(c.n, hashOf, st.store, v.blk).rids|
    ensures VoteCounted(c, hashOf, s, st, v, sig)
  {
    hide Mirrors, VoteCounted, Extends, VotesInv, CoreInv, CertificatesHold;
    if Extends(v.blk, s.bExec) {
      VoteOnChain(c, hashOf, s, st, v, sig);
    } else {
      VoteElsewhere(c, votes, hashOf, s, st, v, sig);
    }
  }

  // ---- own proposals -----------------------------------------------------------------------

  lemma BuiltMirrors(c: Config, votes: set<Vote>, hashOf: BlockHash, s: Core, st: State, tail: Block, cmds: seq<nat>)
    requires Backed(c, votes, s) && Mirrors(s, st) && Delivered(st.store, tail) && TailInv(s, tail)
    ensures var b := Live.NewBlock(st, tail, cmds);
      && b == NewBlock(s, tail, b.payload) && Backed(c, votes, Deliver(s, b))
      && Mirrors(Deliver(s, b), Live.Built(c.n, hashOf, st, tail, b))
  {
    var b := Live.NewBlock(st, tail, cmds);
    assert s.hqc == st.hqc;
    NewBlockExtendsJustify(s, tail, b.payload);
    DeliverOnTail(s, tail, b);
    BuiltBacked(c, votes, s, b);
    OwnParents(s, tail, b);
    var s0 := s.(tails := s.tails - {tail});
    var st2 := Prepared(c.n, hashOf, st, tail, b);
    PreparedMirrors(c.n, hashOf, s, st, tail, b);
    hide Mirrors, Backed, Live.AllDelivered;
    DeliverMirrors(s0, st2, b);
    OwnDelivered(s0, st2, b);
  }

  /** The new block's entry before delivery. */
  function Prepared(n: nat, hashOf: BlockHash, st: State, tail: Block, b: Block): (st2: State)
    ensures b in st2.store
    ensures Live.Built(n, hashOf, st, tail, b) == Live.Deliver(st2, b).st
  {
    var s := Live.Fetch(st.(tails := st.tails - {tail}), b);
    s.(store := s.store[b := s.store[b].(selfQc := Some(EmptyCert(n, hashOf(b))))])
  }

  lemma PreparedMirrors(n: nat, hashOf: BlockHash, s: Core, st: State, tail: Block, b: Block)
    requires Mirrors(s, st) && b.Node? && Parents(b) == [tail] && Delivered(st.store, tail) && b.justify == st.hqc
    ensures var st2 := Prepared(n, hashOf, st, tail, b);
      Mirrors(s.(tails := s.tails - {tail}), st2) && AllKnown(st2, b)
  {
    var s0 := s.(tails := s.tails - {tail});
    var st0 := st.(tails := st.tails - {tail});
    LessTailMirrors(s, st, tail);
    PreparedKnows(n, hashOf, st, tail, b);
    hide Mirrors, Live.StateOk, AllKnown, EmptyCert;
    FetchMirrors(s0, st0, b);
    FetchHas(st0, b);
    ResetMirrors(s0, Live.Fetch(st0, b), b, Some(EmptyCert(n, hashOf(b))));
  }

  lemma FetchHas(st: State, b: Block)
    ensures b in Live.Fetch(st, b).store
  {
  }

  lemma PreparedKnows(n: nat, hashOf: BlockHash, st: State, tail: Block, b: Block)
    requires Live.StateOk(st) && b.Node? && Parents(b) == [tail] && Delivered(st.store, tail) && b.justify == st.hqc
    ensures AllKnown(Prepared(n, hashOf, st, tail, b), b)
  {
    hide Sound, EmptyCert;
  }

  lemma LessTailMirrors(s: Core, st: State, tail: Block)
    requires Mirrors(s, st)
    ensures Mirrors(s.(tails := s.tails - {tail}), st.(tails := st.tails - {tail}))
  {
    var s', st' := s.(tails := s.tails - {tail}), st.(tails := st.tails - {tail});
    hide Sound, Extends, Delivered, Decision;
    assert forall x :: VotedFor(s', x) == VotedFor(s, x);
  }

  lemma BuiltBacked(c: Config, votes: set<Vote>, s: Core, b: Block)
    requires Backed(c, votes, s) && b.Node? && CoreInv(Deliver(s, b)) && b.justify == s.hqc
    ensures Backed(c, votes, Deliver(s, b))
  {
  }

  /** Starting a certificate anew. */
  lemma ResetMirrors(s: Core, st: State, b: Block, selfQc: Option<Cert>)
    requires Mirrors(s, st) && b in st.store
    ensures var st' := st.(store := st.store[b := st.store[b].(selfQc := selfQc)]);
      Mirrors(s, st') && Live.StateOk(st')
  {
    StoreProofs.FetchedVotes(st.store, b);
    StoreProofs.ChangeSound(st.store, b, st.store[b].voted, selfQc);
    var e := st.store[b].(selfQc := selfQc);
    var st' := st.(store := st.store[b := e]);
    ChangeShape(st.store, b, e);
    assert VotesAlike(s, st') by {
      hide Extends, VotedFor;
    }
    hide Extends, Sound, Above, VotesAlike, DeliveredAlike, DecidedAlike, IntactAbove, SameShape, TailsAlike, Delivered;
    SameShapeAlike(s, st, s, st');
    FieldsStay(s, st, s, st');
  }

  lemma OwnParents(s: Core, tail: Block, b: Block)
    requires CoreInv(s) && b.Node? && Parents(b) == [tail]
    ensures forall p :: p in Parents(b) ==> p !in s.tails - {tail}
  {
  }

  /** Nothing an own proposal refers to is missing. */
  lemma OwnDelivered(s: Core, st: State, b: Block)
    requires Mirrors(s, st) && b in st.store && b.Node? && AllKnown(st, b)
    ensures var d := Live.Deliver(st, b);
      Deliver(s, b) == if d.valid then Deliver(s, b) else s
  {
  }

  predicate AllKnown(st: State, b: Block)
    requires b.Node?
  {
    Live.AllDelivered(st.store, Parents(b)) && b.justify in st.store
  }

  /** update on a block that names hqc itself: nothing to fetch from below, hqc stays. */
  lemma OwnUpdate(c: Config, votes: set<Vote>, s: Core, st: State, b: Block)
    requires Backed(c, votes, s) && Mirrors(s, st) && Delivered(st.store, b) && Justify(b) == s.hqc
    ensures var o, u := Update(c.mode, s, b), Live.Update(c.mode, st, b);
      && o.error == NoError && u == Live.Result(u.st, false, NoError) && Mirrors(o.core, u.st)
      && Backed(c, votes, o.core) && o.core.hqc == s.hqc && u.st.hqcQc == st.hqcQc && o.core.delivered == s.delivered
      && Delivered(u.st.store, b)
  {
    var o := Update(c.mode, s, b);
    UpdateExactly(c, votes, s, st, b);
    UpdateKeeps(c.mode, s, b);
    UpdateIsSafe(c, votes, s, b);
    StoreProofs.UpdateKeeps(c.mode, st, b);
    assert o.core.hqc == s.hqc && o.core.delivered == s.delivered;
    hide Mirrors, Backed, Update, Live.Update, Live.CommitsBelow, CoreInv, CertificatesHold, Certified;
    HqcNotBelow(c, votes, s, st, b);
  }

  lemma HqcNotBelow(c: Config, votes: set<Vote>, s: Core, st: State, b: Block)
    requires Backed(c, votes, s) && Mirrors(s, st) && Delivered(st.store, b) && Justify(b) == s.hqc
    ensures !Live.CommitsBelow(c.mode, st, b)
  {
    hide Mirrors, Backed, Live.CommitsBelow, Height;
    if Height(s.hqc) > Height(s.bExec) {
      TargetAbove(c, votes, s, st, b);
    } else {
      HqcExecuted(c, votes, s, st, b);
    }
  }

  lemma HqcExecuted(c: Config, votes: set<Vote>, s: Core, st: State, b: Block)
    requires Backed(c, votes, s) && Mirrors(s, st) && Delivered(st.store, b) && Justify(b) == s.hqc
    requires Height(s.hqc) <= Height(s.bExec)
    ensures !Live.CommitsBelow(c.mode, st, b)
  {
    CertifiedIsAbove(c, votes, s, s.hqc);
    ExtendsHeight(s.hqc, s.bExec);
    assert EntryOk(st.store, b) && Decision(st.store, s.hqc);
    assert Live.UndecidedRef(st.store, b) == None;
    hide Extends, Sound, EntryOk, Live.UndecidedRef, Mirrors, Backed;
  }

  /** The walks from a block above hqc meet nothing emptied. */
  lemma OwnWalks(c: Config, votes: set<Vote>, s: Core, st: State, b: Block)
    requires Backed(c, votes, s) && Mirrors(s, st) && Delivered(st.store, b) && Extends(b, s.hqc)
    ensures !Live.MeetsEmptied(st, b)
  {
    MirrorHeights(s, st);
    CertifiedIsAbove(c, votes, s, s.hqc);
    ExtendsTransitive(b, s.hqc, s.bExec);
    DescendAbove(s, st, b, HeightOf(st.store, st.hqc));
    DescendAbove(s, st, b, HeightOf(st.store, st.bLock));
  }

  /** Proposing is exactly what it is there. */
  lemma ProposeExactly(c: Config, votes: set<Vote>, hashOf: BlockHash, s: Core, st: State, tail: Block,
                       cmds: seq<nat>, enabled: bool)
    requires Backed(c, votes, s) && Mirrors(s, st) && Delivered(st.store, tail) && TailInv(s, tail)
    ensures var b := Live.NewBlock(st, tail, cmds);
      var o := Propose(c.mode, s, tail, b.payload, enabled);
      var u := Live.Propose(c.mode, c.n, hashOf, st, tail, cmds, enabled);
      && b == NewBlock(s, tail, b.payload) && u.error == o.error && (u.error == NoError || u.error == NotHigher)
      && u.voted == o.voted && Mirrors(o.core, u.st) && Backed(c, votes, o.core)
  {
    var b := Live.NewBlock(st, tail, cmds);
    assert s.hqc == st.hqc;
    BuiltMirrors(c, votes, hashOf, s, st, tail, cmds);
    OwnBlock(c.mode, c.n, hashOf, s, st, tail, b, enabled);
    hide Mirrors, Finish, Live.Finish, Deliver, Live.Built, Extends, Propose, Live.Propose, VotesInv, CoreInv, CertificatesHold;
    OwnVote(c, votes, Deliver(s, b), Live.Built(c.n, hashOf, st, tail, b), b, enabled);
  }

  lemma OwnBlock(mode: Mode, n: nat, hashOf: BlockHash, s: Core, st: State, tail: Block, b: Block, enabled: bool)
    requires CoreInv(s) && Mirrors(s, st) && Delivered(st.store, tail) && TailInv(s, tail)
    requires b.Node? && b == Live.NewBlock(st, tail, b.payload.cmds) == NewBlock(s, tail, b.payload)
    ensures Delivered(Live.Built(n, hashOf, st, tail, b).store, b)
    ensures Justify(b) == s.hqc == Deliver(s, b).hqc && Extends(b, s.hqc)
    ensures Propose(mode, s, tail, b.payload, enabled) == Finish(mode, Deliver(s, b), b, enabled)
    ensures Live.Propose(mode, n, hashOf, st, tail, b.payload.cmds, enabled)
      == Live.Finish(mode, Live.Built(n, hashOf, st, tail, b), b, enabled)
  {
    hide Finish, Live.Finish, Live.Built, CoreInv, Deliver;
    DeliverOnTail(s, tail, b);
    StoreProofs.BuiltKeeps(n, hashOf, st, tail, b);
    DeliverHqc(s, b);
    hide Mirrors;
  }

  lemma DeliverHqc(s: Core, b: Block)
    ensures Deliver(s, b).hqc == s.hqc
  {
  }

  lemma OwnVote(c: Config, votes: set<Vote>, s: Core, st: State, b: Block, enabled: bool)
    requires Backed(c, votes, s) && Mirrors(s, st) && Delivered(st.store, b) && Justify(b) == s.hqc && Extends(b, s.hqc)
    ensures var o, u := Finish(c.mode, s, b, enabled), Live.Finish(c.mode, st, b, enabled);
      && u.error == o.error && (u.error == NoError || u.error == NotHigher)
      && u.voted == o.voted && Mirrors(o.core, u.st) && Backed(c, votes, o.core)
  {
    hide Mirrors, Backed, Update, Live.Update, CastVote, Live.CastVote, Height, HeightOf, Extends, Live.MeetsEmptied;
    OwnUpdate(c, votes, s, st, b);
    var s1, st1 := Update(c.mode, s, b).core, Live.Update(c.mode, st, b).st;
    OwnWalks(c, votes, s1, st1, b);
    CastVoteExactly(c, votes, s1, st1, b, enabled);
    VoteReads(c, votes, s1, st1, b);
    SameVheight(s1, st1);
    CastVoteErrors(s1, b, enabled);
    VotedBacked(c, votes, s1, b, enabled);
  }

  lemma VotedBacked(c: Config, votes: set<Vote>, s: Core, b: Block, enabled: bool)
    requires Backed(c, votes, s)
    ensures Backed(c, votes, CastVote(s, b, enabled).core)
  {
  }

  lemma CastVoteErrors(s: Core, b: Block, enabled: bool)
    ensures CastVote(s, b, enabled).error == NoError
  {
  }

  lemma SameVheight(s: Core, st: State)
    requires Mirrors(s, st)
    ensures s.vheight == st.vheight
  {
  }

  // ---- pruning -----------------------------------------------------------------------------

  lemma PruneMirrors(s: Core, st: State, tail: Block, staleness: nat, released: set<Block>, st': State)
    requires CoreInv(s) && Mirrors(s, st) && Delivered(st.store, tail)
    requires Prunes(st, tail, staleness, released, st')
    ensures Mirrors(s, st') && Delivered(st'.store, tail)
  {
    PruneKeeps(st, tail, staleness, released, st');
    SkipDown(st.store, st.bExec, staleness);
    match Skip(st.store, st.bExec, staleness)
    case None =>
    case Some(start) =>
      forall b | Reachable(st.store, start, b) && Extends(b, st.bExec) ensures b == st.bExec {
        ReachesNothingAbove(st.store, st.bExec, start, b);
      }
      StrippedFields(st.store, start);
      PrunedMirrors(s, st, tail, start, released, st');
  }

  lemma PrunedMirrors(s: Core, st: State, tail: Block, start: Block, released: set<Block>, st': State)
    requires Mirrors(s, st) && Delivered(st.store, tail) && Live.StateOk(st')
    requires st' == st.(store := Stripped(st.store, start) - released)
    requires forall r :: r in released ==> Reachable(st.store, start, r) && !HeldByCore(st, tail, r)
    requires forall b :: Reachable(st.store, start, b) && Extends(b, st.bExec) ==> b == st.bExec
    ensures Mirrors(s, st') && Delivered(st'.store, tail)
  {
    hide Reachable, Extends, Sound, VotedFor;
    PrunedEntries(st, tail, start, released, st');
    assert SameFields(s, st') && TailsAlike(s, st');
    hide Stripped, HeldByCore;
    assert DeliveredAlike(s, st');
    assert DecidedAlike(s, st');
    assert IntactAbove(s, st');
    assert VotesAlike(s, st');
  }

  /** Entry by entry: what goes and what stays. */
  lemma PrunedEntries(st: State, tail: Block, start: Block, released: set<Block>, st': State)
    requires st' == st.(store := Stripped(st.store, start) - released)
    requires forall r :: r in released ==> Reachable(st.store, start, r) && !HeldByCore(st, tail, r)
    requires forall b :: Reachable(st.store, start, b) && Extends(b, st.bExec) ==> b == st.bExec
    ensures forall b :: Delivered(st'.store, b) ==> Delivered(st.store, b) && st'.store[b].voted == st.store[b].voted
    ensures forall b :: Decision(st'.store, b) ==> Decision(st.store, b)
    ensures forall b :: Delivered(st.store, b) && (HeldByCore(st, tail, b) || Extends(b, st.bExec)) ==> Delivered(st'.store, b)
    ensures forall b :: Decision(st.store, b) && HeldByCore(st, tail, b) ==> Decision(st'.store, b)
    ensures forall b :: Delivered(st'.store, b) && Extends(b, st.bExec) && b != st.bExec ==> QcRef(st'.store, b) == QcRef(st.store, b)
    ensures HeldByCore(st, tail, st.hqc) && HeldByCore(st, tail, st.bLock) && HeldByCore(st, tail, st.bExec) && HeldByCore(st, tail, tail)
  {
    hide Reachable, Extends;
  }
}
