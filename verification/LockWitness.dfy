/** A run in which a locked replica leaves its locked branch: it has voted on one branch up to height
    three, and then votes on another at height four, because that one certifies a higher block. */
module LockWitness {
  import opened Bytes
  import opened Blocks
  import opened Quorums
  import opened Signatures
  import opened Certificates
  import opened ReplicaModel
  import opened BlockStore
  import opened StoreProtocol
  import opened WitnessBlocks
  import opened WitnessRun
  import opened Options
  import Live = StoreModel

  /** The certificate that replicas 1, 2 and 3 make for the branch's third block. */
  const BranchCert: Cert :=
    AddPart(AddPart(AddPart(EmptyCert(4, Fill(0, 3)), 1, Sig(1)), 2, Sig(2)), 3, Sig(3))

  function Fourth(): (b: Block)
    ensures b.Node? && b.parent == b.justify == Fork(3) && b.uncles == [] && b.payload.qc == BranchCert && Height(b) == 4
  {
    Node(Fork(3), [], Fork(3), Payload(BranchCert, [3]))
  }

  /** Replica 0 has received the chain up to 3, replica 1 up to 2; the branch reaches replica 2, and 1,
      2 and 3 vote for its third block; then its fourth is delivered at replica 0. */
  function Before(): seq<Event> {
    Rounds(3, 2) + Turn(3, 0, 3) + Visit(2, Fork(1)) + Visit(2, Fork(2)) + Visit(2, Fork(3))
      + [ReceiveEvent(1, Fork(3), true, Main(3, 2))] + [ReceiveEvent(2, Fork(3), true, Genesis)]
      + [FaultyVoteEvent(Vote(3, Fork(3)))] + Visit(0, Fourth())
  }

  // ---- voting for the branch without a lock ------------------------------------------------

  lemma {:induction false} ForkWalk(u: nat, n: nat, x: nat, store: Store, i: nat, to: nat)
    requires Holds(u, u, n, x, store) && i <= u
    ensures Descend(store, Fork(i), to) == Some(Fork(if i <= to then i else to))
  {
    hide Holds, Fork;
    ForkLink(u, n, x, store, i);
    if i > to {
      ForkWalk(u, n, x, store, i - 1, to);
    }
  }

  lemma ForkRef(u: nat, n: nat, x: nat, store: Store, i: nat)
    requires Holds(u, u, n, x, store) && 1 <= i <= u
    ensures QcRef(store, Fork(i)) == Some(Genesis) && !Decision(store, Fork(i)) && Decision(store, Genesis)
    ensures HeightOf(store, Genesis) == 0 && Live.UndecidedRef(store, Fork(i)) == None
  {
    hide Main, Kind;
    ForkKind(i);
    assert Seen(u, u, n, Fork(i));
    assert Seen(u, u, n, Genesis) by {
      MainParts(u, 0);
    }
  }

  lemma BranchVote(u: nat, m: nat, st: Live.State)
    requires m < u && m <= 2 && Stands(ThreeStep, u, u, m, Local(st, Main(u, m)))
    ensures Live.ReceiveProposal(ThreeStep, st, Fork(u), true) == Live.Result(st.(vheight := u), true, NoError)
  {
    hide Holds, Main, Fork, CertOf, Live.UndecidedRef, Descend, QcRef;
    ForkLink(u, m, 0, st.store, u);
    ForkRef(u, m, 0, st.store, u);
    MainParts(u, 0);
    ForkWalk(u, m, 0, st.store, u, 0);
    ForkLink(u, m, 0, st.store, 0);
    Link(u, m, 0, st.store, if m > 0 then m - 1 else 0);
    ForkWalk(u, m, 0, st.store, u, if m > 0 then m - 1 else 0);
  }

  /** As a step of a run. */
  lemma BranchVoted(m: nat, r: nat, events: seq<Event>, t: StoreSystem) returns (t': StoreSystem)
    requires Four(ThreeStep).Valid() && Reached(Four(ThreeStep), TheKeys, events, t) && m <= 2
    requires r in t.replicas && Stands(ThreeStep, 3, 3, m, t.replicas[r])
    ensures Reached(Four(ThreeStep), TheKeys, events + [ReceiveEvent(r, Fork(3), true, Main(3, m))], t')
    ensures OnlyMoves(r, t, t') && t'.votes == t.votes + {Vote(r, Fork(3))}
  {
    hide Reached, Main, Fork, Live.ReceiveProposal, Live.TailAfterProposal, Holds, CertOf;
    var st, b := t.replicas[r].st, Fork(3);
    BranchVote(3, m, st);
    t' := StoreSystem(t.replicas[r := Local(st.(vheight := 3), Live.TailAfterProposal(st.(vheight := 3), b, Main(3, m)))],
      t.votes + {Vote(r, b)});
    ReceivedNext(Four(ThreeStep), t, t', r, b, Main(3, m));
    ReachedNext(Four(ThreeStep), TheKeys, events, t, t', ReceiveEvent(r, b, true, Main(3, m)));
  }

  // ---- leaving the locked branch -----------------------------------------------------------

  lemma BranchCertProves(votes: set<Vote>)
    requires Four(ThreeStep).Valid()
    requires Vote(1, Fork(3)) in votes && Vote(2, Fork(3)) in votes && Vote(3, Fork(3)) in votes
    ensures Proves(Four(ThreeStep), TheKeys, votes, Fork(3), BranchCert)
  {
    FourIsValid(ThreeStep);
    ForkKind(3);
    assert Height(Fork(3)) == 3;
    hide Fork, Kind, Sig, AddPart, VerifyBlock, Verify;
    BranchSigners();
    assert HashOf(Fork(3)) == Fill(0, 3) && HashOf(Genesis) == Fill(0, 0) == [] by {
      assert Kind(Genesis) == 0;
    }
    var q := BranchCert;
    assert q.sigs.Keys == {1, 2, 3} && |{1, 2, 3}| == 3;
    AcceptedMeansMajority(q, 4, 3, TheKeys.oracle);
    BlockVerifies(q, HashOf(Genesis), 4, 3, TheKeys.oracle);
    assert SignaturesAreVotes(Four(ThreeStep), votes, Fork(3), q, TheKeys.oracle);
  }

  lemma BranchSigners()
    ensures InStep(BranchCert) && BranchCert.objHash == Fill(0, 3) && SetBits(BranchCert.rids) == {1, 2, 3}
    ensures BranchCert.sigs == map[1 := Sig(1), 2 := Sig(2), 3 := Sig(3)]
  {
    var q0 := EmptyCert(4, Fill(0, 3));
    assert SetBits(q0.rids) == {};
    AddPartSigners(q0, 1, Sig(1));
    var q1 := AddPart(q0, 1, Sig(1));
    AddPartSigners(q1, 2, Sig(2));
    AddPartSigners(AddPart(q1, 2, Sig(2)), 3, Sig(3));
  }

  /** The fourth block is new at replica 0, and told apart. */
  lemma FourthIsNew(st: Live.State)
    requires Stands(ThreeStep, 3, 3, 3, Local(st, Main(3, 3)))
    ensures var b := Fourth();
      && b !in st.store && Live.AllDelivered(st.store, Parents(b)) && b.justify in st.store && Parents(b) == [Fork(3)]
      && HeightOf(st.store, b.parent) == Height(b.parent) && Distinct(TheKeys, st.store, b)
  {
    hide Holds, Main, CertOf, Fork;
    ForkLink(3, 3, 0, st.store, 3);
    var b := Fourth();
    assert Height(Fork(3)) == 3;
    forall y | y in st.store ensures HashOf(y) != HashOf(b) {
      HoldsSeen(3, 3, 3, 0, st.store, y);
      assert |HashOf(y)| == Height(y) < 4 == |HashOf(b)|;
    }
  }

  /** The block that the certificate names is high enough, on whatever branch: hqc goes there, the lock
      stays where it is, and the vote is cast. */
  lemma FourthVote(st: Live.State)
    requires Stands(ThreeStep, 3, 3, 3, Local(st, Main(3, 3)))
    ensures var s, b := With(st, Fourth()), Fourth();
      var after := s.(hqc := Fork(3), hqcQc := BranchCert, vheight := 4);
      && Live.ReceiveProposal(ThreeStep, s, b, true) == Live.Result(after, true, NoError)
      && Live.TailAfterHqc(s, after, Main(3, 3), b) && Live.TailAfterProposal(after, b, b) == b
  {
    hide Holds, Main, Fork, CertOf, Kind;
    FourthIsNew(st);
    FourthReads(st);
    var s, b := With(st, Fourth()), Fourth();
    OneDown(s.store, b, 3);
    assert s.tails == {Main(3, 3), b};
  }

  /** What is read of the store. */
  lemma FourthReads(st: Live.State)
    requires Stands(ThreeStep, 3, 3, 3, Local(st, Main(3, 3))) && Fourth() !in st.store && Parents(Fourth()) == [Fork(3)]
    ensures var s, b := With(st, Fourth()), Fourth();
      && Delivered(s.store, b) && HeightOf(s.store, b) == 4 && Direct(s.store, b, Fork(3)) && QcRef(s.store, b) == Some(Fork(3))
      && Fork(3) in s.store && HeightOf(s.store, Fork(3)) == 3
      && Live.UndecidedRef(s.store, b) == Some(Fork(3)) && Live.UndecidedRef(s.store, Fork(3)) == None
      && s.tails == {Main(3, 3), b} && s.vheight == 3
      && HeightOf(s.store, Main(3, 3)) == 3 && HeightOf(s.store, s.hqc) == 2 && HeightOf(s.store, s.bLock) == 1
      && Main(3, 3) != Fork(3) && Main(3, 3) != b && s.bLock == Main(3, 1) && s.hqc != Fork(3)
  {
    hide Holds, Main, Fork, CertOf, Kind;
    ForkLink(3, 3, 0, st.store, 3);
    ForkRef(3, 3, 0, st.store, 3);
    Link(3, 3, 0, st.store, 1);
    Link(3, 3, 0, st.store, 2);
    Link(3, 3, 0, st.store, 3);
    Apart();
    assert Elements([Fork(3)]) == {Fork(3)};
  }

  lemma Apart()
    ensures Main(3, 3) != Fork(3) && Main(3, 2) != Fork(3)
    ensures Height(Main(3, 3)) == 3 && Height(Fork(3)) == 3
  {
    MainParts(3, 3);
    ForkKind(3);
  }

  lemma {:induction false} ForkExtends(i: nat, b: Block)
    ensures Extends(Fork(i), b) ==> b == Fork(Height(b))
  {
    if i > 0 {
      ForkExtends(i - 1, b);
    }
  }

  lemma OffBranch()
    ensures !Extends(Fourth(), Main(3, 1)) && !Extends(Main(3, 3), Fork(3))
  {
    ForkExtends(3, Main(3, 1));
    MainParts(3, 1);
    ForkKind(1);
    Apart();
    if Extends(Main(3, 3), Fork(3)) {
      ExtendsHeight(Main(3, 3), Fork(3));
    }
  }

  // ---- the run -----------------------------------------------------------------------------

  /** The branch reaches replica 2 while 0 is locked on the chain. */
  lemma BranchReaches() returns (t: StoreSystem)
    requires Four(ThreeStep).Valid()
    ensures Reached(Four(ThreeStep), TheKeys,
      Rounds(3, 2) + Turn(3, 0, 3) + Visit(2, Fork(1)) + Visit(2, Fork(2)) + Visit(2, Fork(3)), t)
    ensures Here(ThreeStep, 3, 3, 3, 0, t) && Here(ThreeStep, 3, 3, 2, 1, t) && Here(ThreeStep, 3, 3, 0, 2, t)
  {
    hide Reached, Stands, Fork, Main, Rounds, Turn, Visit, Live.Initial;
    var t1 := RoundsReach(ThreeStep, 3, 2);
    var t2 := Turned(ThreeStep, 3, 2, 0, Rounds(3, 2), t1);
    InitialStands(ThreeStep, 3);
    var t3 := ForkArrives(ThreeStep, 3, 0, 2, Rounds(3, 2) + Turn(3, 0, 3), t2);
    var t4 := ForkArrives(ThreeStep, 3, 1, 2, Rounds(3, 2) + Turn(3, 0, 3) + Visit(2, Fork(1)), t3);
    t := ForkArrives(ThreeStep, 3, 2, 2, Rounds(3, 2) + Turn(3, 0, 3) + Visit(2, Fork(1)) + Visit(2, Fork(2)), t4);
  }

  /** 1, 2 and 3 vote for its third block. */
  lemma BranchCertified() returns (t: StoreSystem)
    requires Four(ThreeStep).Valid()
    ensures Reached(Four(ThreeStep), TheKeys,
      Rounds(3, 2) + Turn(3, 0, 3) + Visit(2, Fork(1)) + Visit(2, Fork(2)) + Visit(2, Fork(3))
        + [ReceiveEvent(1, Fork(3), true, Main(3, 2))] + [ReceiveEvent(2, Fork(3), true, Genesis)]
        + [FaultyVoteEvent(Vote(3, Fork(3)))], t)
    ensures Here(ThreeStep, 3, 3, 3, 0, t)
    ensures Vote(1, Fork(3)) in t.votes && Vote(2, Fork(3)) in t.votes && Vote(3, Fork(3)) in t.votes
  {
    MainParts(3, 0);
    hide Reached, Stands, Fork, Main, Rounds, Turn, Visit;
    var events := Rounds(3, 2) + Turn(3, 0, 3) + Visit(2, Fork(1)) + Visit(2, Fork(2)) + Visit(2, Fork(3));
    var t1 := BranchReaches();
    var t2 := BranchVoted(2, 1, events, t1);
    events := events + [ReceiveEvent(1, Fork(3), true, Main(3, 2))];
    var t3 := BranchVoted(0, 2, events, t2);
    events := events + [ReceiveEvent(2, Fork(3), true, Genesis)];
    t := t3.(votes := t3.votes + {Vote(3, Fork(3))});
    ReachedNext(Four(ThreeStep), TheKeys, events, t3, t, FaultyVoteEvent(Vote(3, Fork(3))));
  }

  /** Replica 0 has voted for the chain up to height 3 and is locked on its first block. It receives a
      block of height 4 on another branch, does not extend its lock, and votes: the certificate names a
      block above the lock. */
  lemma LeavesLockedBranch() returns (t: StoreSystem, t': StoreSystem)
    ensures Four(ThreeStep).Valid() && Reached(Four(ThreeStep), TheKeys, Before(), t) && 0 in t.replicas
    ensures Reached(Four(ThreeStep), TheKeys, Before() + [ReceiveEvent(0, Fourth(), true, Fourth())], t') && 0 in t'.replicas
    ensures Vote(0, Main(3, 3)) in t.votes && t.replicas[0].st.vheight == 3
    ensures Vote(0, Fourth()) in t'.votes && t'.replicas[0].st.vheight == 4 && t'.replicas[0].st.hqc == Fork(3)
    ensures t.replicas[0].st.bLock == t'.replicas[0].st.bLock == Main(3, 1)
    ensures !Extends(Fourth(), Main(3, 1)) && !Extends(Main(3, 3), Fork(3))
  {
    hide Reached, Fork, Main, Fourth, Verified, With, Distinct, Live.ReceiveProposal, Live.TailAfterHqc, Live.TailAfterProposal,
      Holds, CertOf;
    var c := Four(ThreeStep);
    FourIsValid(ThreeStep);
    var t1 := BranchCertified();
    var st := t1.replicas[0].st;
    var events := Rounds(3, 2) + Turn(3, 0, 3) + Visit(2, Fork(1)) + Visit(2, Fork(2)) + Visit(2, Fork(3))
      + [ReceiveEvent(1, Fork(3), true, Main(3, 2))] + [ReceiveEvent(2, Fork(3), true, Genesis)]
      + [FaultyVoteEvent(Vote(3, Fork(3)))];
    FourthIsNew(st);
    FourthVerified(t1.votes);
    t := VisitDelivers(c, TheKeys, events, t1, 0, Fourth());
    FourthVote(st);
    var after := With(st, Fourth()).(hqc := Fork(3), hqcQc := BranchCert, vheight := 4);
    t' := StoreSystem(t.replicas[0 := Local(after, Fourth())], t.votes + {Vote(0, Fourth())});
    ReceivedNext(c, t, t', 0, Fourth(), Fourth());
    ReachedNext(c, TheKeys, Before(), t, t', ReceiveEvent(0, Fourth(), true, Fourth()));
    OffBranch();
    KeepsLock(st);
  }

  lemma FourthVerified(votes: set<Vote>)
    requires Four(ThreeStep).Valid()
    requires Vote(1, Fork(3)) in votes && Vote(2, Fork(3)) in votes && Vote(3, Fork(3)) in votes
    ensures Verified(Four(ThreeStep), TheKeys, votes, Fourth()) && Fourth().Node?
  {
    hide Proves, Fork;
    BranchCertProves(votes);
  }

  lemma KeepsLock(st: Live.State)
    ensures With(st, Fourth()).bLock == st.bLock && With(st, Fourth()).vheight == st.vheight
  {
  }
}
