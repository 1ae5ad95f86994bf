/** A run in which the certificate of hqc does not verify: a replica proposes a block that it already
    has a vote for, because another proposed the same commands on the same parent. */
module CertificateWitness {
  import opened Bytes
  import opened Blocks
  import opened Quorums
  import opened Signatures
  import opened Certificates
  import opened ReplicaModel
  import opened BlockStore
  import opened StoreProtocol
  import opened WitnessBlocks
  import opened WitnessRun
  import opened Options
  import Live = StoreModel

  type State = Live.State

  /** The block on genesis with command 1. */
  const First: Block := Main(0, 1)

  /** Replica 1 proposes it; replica 0 has it delivered, counts that vote, proposes it too and
      counts the votes of itself and replica 3. */
  const Twice: seq<Event> := [
    ProposeEvent(1, [1], true, Genesis),
    FetchEvent(0, First),
    DeliverEvent(0, First),
    CountEvent(0, Vote(1, First), Sig(1), Genesis),
    ProposeEvent(0, [1], true, Genesis),
    CountEvent(0, Vote(0, First), Sig(0), First),
    FaultyVoteEvent(Vote(3, First)),
    CountEvent(0, Vote(3, First), Sig(3), First)]

  function Start(): State {
    Live.Initial(4, TheKeys.hashOf)
  }

  /** A replica with the block delivered, its votes and its certificate under construction. */
  function Holding(voted: set<nat>, q: Option<Cert>, vheight: nat): State {
    Live.State(Start().store[First := Anew(First).(voted := voted, selfQc := q)],
      Genesis, GenesisCert, Genesis, Genesis, vheight, {First}, [])
  }

  const Bare: Cert := EmptyCert(4, HashOf(First))

  lemma FirstParts()
    ensures First.Node? && First.parent == First.justify == Genesis && Parents(First) == [Genesis] && Height(First) == 1
    ensures First.payload == Payload(GenesisCert, [1]) && HashOf(First) == Fill(1, 1) && HashOf(First) != HashOf(Genesis)
  {
    MainHash(0, 1);
  }

  lemma StartParts()
    ensures Start() == Live.State(map[Genesis := Complete(0, Genesis)], Genesis, GenesisCert, Genesis, Genesis, 0, {Genesis}, [])
  {
    assert HashOf(Genesis) == [];
    assert EmptyCert(4, HashOf(Genesis)) == GenesisCert;
  }

  /** Delivering it. */
  lemma Delivers()
    ensures With(Start(), First) == Holding({}, None, 0)
  {
    hide Main, Start;
    StartParts();
    FirstParts();
    assert {Genesis} - Elements([Genesis]) + {First} == {First};
  }

  /** Proposing it the first time. */
  lemma ProposesFresh(mode: Mode)
    ensures Live.NewBlock(Start(), Genesis, [1]) == First
    ensures Live.Propose(mode, 4, TheKeys.hashOf, Start(), Genesis, [1], true)
      == Live.Result(Holding({}, Some(Bare), 1), true, NoError)
  {
    hide Main, Start, EmptyCert, Live.Finish;
    StartParts();
    FirstParts();
    BuiltFresh();
    Finishes(mode, {}, Some(Bare));
  }

  lemma BuiltFresh()
    ensures Live.Built(4, TheKeys.hashOf, Start(), Genesis, First) == Holding({}, Some(Bare), 0)
  {
    hide Main, Start, HashOf;
    StartParts();
    FirstParts();
  }

  /** Proposing it with votes counted: they stay, the certificate starts anew. */
  lemma ProposesAgain(mode: Mode, voted: set<nat>, q: Option<Cert>)
    ensures Live.NewBlock(Holding(voted, q, 0), Genesis, [1]) == First
    ensures Live.Propose(mode, 4, TheKeys.hashOf, Holding(voted, q, 0), Genesis, [1], true)
      == Live.Result(Holding(voted, Some(Bare), 1), true, NoError)
  {
    hide Main, Start, EmptyCert, Live.Finish;
    StartParts();
    FirstParts();
    BuiltAgain(voted, q);
    Finishes(mode, voted, Some(Bare));
  }

  lemma BuiltAgain(voted: set<nat>, q: Option<Cert>)
    ensures Live.Built(4, TheKeys.hashOf, Holding(voted, q, 0), Genesis, First) == Holding(voted, Some(Bare), 0)
  {
    hide Main, Start, HashOf;
    StartParts();
    FirstParts();
    assert {First} - {Genesis} == {First};
  }

  lemma Finishes(mode: Mode, voted: set<nat>, q: Option<Cert>)
    ensures Live.Finish(mode, Holding(voted, q, 0), First, true) == Live.Result(Holding(voted, q, 1), true, NoError)
  {
    hide Main, Start;
    StartParts();
    FirstParts();
    OneDown(Holding(voted, q, 0).store, First, 0);
  }

  /** The certificate under construction, made or not. */
  function UnderWay(q: Option<Cert>): Cert {
    if q.Some? then q.value else Bare
  }

  lemma Holds(voted: set<nat>, q: Option<Cert>, vheight: nat)
    ensures var store := Holding(voted, q, vheight).store;
      && Delivered(store, First) && HeightOf(store, First) == 1 && HeightOf(store, Genesis) == 0
      && store[First].voted == voted && Live.SelfQc(4, TheKeys.hashOf, store, First) == UnderWay(q)
  {
    hide Main, Start, HashOf;
    StartParts();
    FirstParts();
  }

  lemma CountedIs(voted: set<nat>, q: Option<Cert>, vheight: nat, i: nat, qc: Cert)
    requires First in Holding(voted, q, vheight).store
    ensures Live.Counted(Holding(voted, q, vheight), Vote(i, First), qc) == Holding(voted + {i}, Some(qc), vheight)
  {
    hide Main, Start;
    var store := Start().store;
    assert store[First := Anew(First).(voted := voted, selfQc := q)][First := Anew(First).(voted := voted + {i}, selfQc := Some(qc))]
      == store[First := Anew(First).(voted := voted + {i}, selfQc := Some(qc))];
  }

  lemma Completes(voted: set<nat>, q: Cert, vheight: nat)
    ensures var st := Holding(voted, Some(q), vheight);
      Live.UpdateHqc(st, First, q) == Live.Result(st.(hqc := First, hqcQc := q), false, NoError)
  {
    hide Main, Start;
    Holds(voted, Some(q), vheight);
  }

  /** Counting a vote, before and at the quorum. */
  lemma Counts(voted: set<nat>, q: Option<Cert>, vheight: nat, i: nat)
    requires i !in voted && i < |UnderWay(q).rids| && |voted| < 3
    ensures i < |Live.SelfQc(4, TheKeys.hashOf, Holding(voted, q, vheight).store, First).rids|
    ensures var r := Live.ReceiveVote(4, 3, TheKeys.hashOf, Holding(voted, q, vheight), Vote(i, First), Sig(i));
      var qc := AddPart(UnderWay(q), i, Sig(i));
      var st := Holding(voted + {i}, Some(qc), vheight);
      r == Live.Result(if |voted| == 2 then st.(hqc := First, hqcQc := qc) else st, false, NoError)
  {
    hide Main, Holding, UnderWay, AddPart, Sig, Live.SelfQc, Live.Counted, Live.UpdateHqc, Delivered;
    Holds(voted, q, vheight);
    var qc := AddPart(UnderWay(q), i, Sig(i));
    InStore(Holding(voted, q, vheight).store, First);
    CountedIs(voted, q, vheight, i, qc);
    Completes(voted + {i}, qc, vheight);
  }

  // ---- the run -----------------------------------------------------------------------------

  /** What the keys sign. */
  lemma Signs(mode: Mode, votes: set<Vote>, i: nat)
    requires i < 4 && Vote(i, First) in votes
    ensures Signed(Four(mode), TheKeys, votes, Vote(i, First), Sig(i))
  {
  }

  lemma CountReached(mode: Mode, events: seq<Event>, t: StoreSystem, voted: set<nat>, q: Option<Cert>, vheight: nat,
                     tail: Block, i: nat) returns (t': StoreSystem)
    requires Four(mode).Valid() && Reached(Four(mode), TheKeys, events, t)
    requires 0 in t.replicas && t.replicas[0] == Local(Holding(voted, q, vheight), tail)
    requires i < 4 && i !in voted && |UnderWay(q).rids| == 4 && |voted| < 3 && Vote(i, First) in t.votes
    requires |voted| == 2 ==> tail == First
    ensures Reached(Four(mode), TheKeys, events + [CountEvent(0, Vote(i, First), Sig(i), tail)], t') && t'.votes == t.votes
    ensures var qc := AddPart(UnderWay(q), i, Sig(i));
      var st := Holding(voted + {i}, Some(qc), vheight);
      OnlyMoves(0, t, t') && t'.replicas[0] == Local(if |voted| == 2 then st.(hqc := First, hqcQc := qc) else st, tail)
  {
    hide Reached, Main, Holding, UnderWay, AddPart, Sig, Live.SelfQc, Live.ReceiveVote, Signed;
    var st, v := Holding(voted, q, vheight), Vote(i, First);
    FourIsValid(mode);
    Counts(voted, q, vheight, i);
    Signs(mode, t.votes, i);
    var u := Live.ReceiveVote(4, 3, TheKeys.hashOf, st, v, Sig(i));
    HoldingHqc(voted, q, vheight);
    TailStays(st, voted + {i}, AddPart(UnderWay(q), i, Sig(i)), vheight, |voted| == 2, tail);
    t' := t.(replicas := t.replicas[0 := Local(u.st, tail)]);
    ReachedNext(Four(mode), TheKeys, events, t, t', CountEvent(0, v, Sig(i), tail));
  }

  /** The callback on hqc picks the block itself. */
  lemma TailStays(before: State, voted: set<nat>, qc: Cert, vheight: nat, moves: bool, tail: Block)
    requires before.hqc == Genesis && (moves ==> tail == First)
    ensures var st := Holding(voted, Some(qc), vheight);
      Live.TailAfterHqc(before, if moves then st.(hqc := First, hqcQc := qc) else st, tail, tail)
  {
    hide Main, Start;
    FirstParts();
    Holds(voted, Some(qc), vheight);
  }

  lemma HoldingHqc(voted: set<nat>, q: Option<Cert>, vheight: nat)
    ensures Holding(voted, q, vheight).hqc == Genesis
  {
  }

  /** on_propose of the block at r, from either state. */
  lemma ProposeReached(mode: Mode, events: seq<Event>, t: StoreSystem, r: nat, voted: set<nat>) returns (t': StoreSystem)
    requires Four(mode).Valid() && Reached(Four(mode), TheKeys, events, t) && r in t.replicas && t.replicas[r].tail == Genesis
    requires var st := t.replicas[r].st;
      && Distinct(TheKeys, st.store, First) && st.hqc == Genesis && Live.NewBlock(st, Genesis, [1]) == First
      && Live.Propose(mode, 4, TheKeys.hashOf, st, Genesis, [1], true) == Live.Result(Holding(voted, Some(Bare), 1), true, NoError)
    ensures Reached(Four(mode), TheKeys, events + [ProposeEvent(r, [1], true, Genesis)], t')
    ensures OnlyMoves(r, t, t') && t'.replicas[r] == Local(Holding(voted, Some(Bare), 1), First)
    ensures t'.votes == t.votes + {Vote(r, First)}
  {
    hide Reached, StoreNext;
    t' := StoreSystem(t.replicas[r := Local(Holding(voted, Some(Bare), 1), First)], t.votes + {Vote(r, First)});
    ProposedNext(mode, t, t', r, voted);
    ReachedNext(Four(mode), TheKeys, events, t, t', ProposeEvent(r, [1], true, Genesis));
  }

  lemma ProposedNext(mode: Mode, t: StoreSystem, t': StoreSystem, r: nat, voted: set<nat>)
    requires Four(mode).Valid() && r in t.replicas && t.replicas[r].tail == Genesis
    requires var st := t.replicas[r].st;
      && Distinct(TheKeys, st.store, First) && st.hqc == Genesis && Live.NewBlock(st, Genesis, [1]) == First
      && Live.Propose(mode, 4, TheKeys.hashOf, st, Genesis, [1], true) == Live.Result(Holding(voted, Some(Bare), 1), true, NoError)
    requires t' == StoreSystem(t.replicas[r := Local(Holding(voted, Some(Bare), 1), First)], t.votes + {Vote(r, First)})
    ensures StoreNext(Four(mode), TheKeys, t, t', ProposeEvent(r, [1], true, Genesis))
  {
    hide Main, Holding, Live.Propose, Distinct, EmptyCert, Live.NewBlock;
    HoldingHqc(voted, Some(Bare), 1);
  }

  /** The certificate after the reset: replicas 0 and 3, but not 1. */
  const Short: Cert := AddPart(AddPart(Bare, 0, Sig(0)), 3, Sig(3))

  lemma ShortIsRejected(c: Config, votes: set<Vote>)
    requires c.Valid() && c.Majority() == 3
    ensures SetBits(Short.rids) == {0, 3} && InStep(Short)
    ensures VerifyBlock(Short, HashOf(Genesis), 4, 3, TheKeys.oracle) == Rejected
  {
    assert SetBits(Bare.rids) == {};
    AddPartSigners(Bare, 0, Sig(0));
    AddPartSigners(AddPart(Bare, 0, Sig(0)), 3, Sig(3));
    assert |Short.sigs| == |Short.sigs.Keys|;
    assert |{0, 3}| == 2;
    FirstParts();
    hide Verify;
  }

  /** The start, replica 1's proposal, and its delivery at replica 0. */
  lemma Proposed(mode: Mode) returns (t: StoreSystem)
    requires Four(mode).Valid()
    ensures Reached(Four(mode), TheKeys, Twice[..3], t) && t.replicas.Keys == {0, 1, 2}
    ensures t.replicas[0] == Local(Holding({}, None, 0), Genesis) && t.votes == {Vote(1, First)}
  {
    hide Reached, Main, Start, Holding, Distinct, Verified, With, Live.Propose, EmptyCert;
    var t0 := AtStart(mode);
    StartReady(mode);
    ProposesFresh(mode);
    var t1 := ProposeReached(mode, [], t0, 1, {});
    FirstVerified(mode, t1.votes);
    Delivers();
    t := VisitDelivers(Four(mode), TheKeys, [] + [ProposeEvent(1, [1], true, Genesis)], t1, 0, First);
    assert [] + [ProposeEvent(1, [1], true, Genesis)] + Visit(0, First) == Twice[..3];
  }

  lemma AtStart(mode: Mode) returns (t: StoreSystem)
    requires Four(mode).Valid()
    ensures Reached(Four(mode), TheKeys, [], t) && t.replicas.Keys == {0, 1, 2} && t.votes == {}
    ensures t.replicas[0] == t.replicas[1] == Local(Start(), Genesis)
  {
    FourIsValid(mode);
    hide Live.Initial;
    var l := Local(Start(), Genesis);
    t := StoreSystem(map[0 := l, 1 := l, 2 := l], {});
    ReachedFirst(Four(mode), TheKeys, t);
  }

  lemma StartReady(mode: Mode)
    ensures var st := Start();
      && First !in st.store && First.Node? && Live.AllDelivered(st.store, Parents(First)) && First.justify in st.store
      && HeightOf(st.store, First.parent) == Height(First.parent)
      && Distinct(TheKeys, st.store, First) && st.hqc == Genesis
  {
    hide Main, Start;
    FirstParts();
    StartParts();
  }

  lemma FirstVerified(mode: Mode, votes: set<Vote>)
    requires Four(mode).Valid()
    ensures Verified(Four(mode), TheKeys, votes, First)
  {
    MainVerified(mode, votes, 0, 1);
  }

  lemma HoldingDistinct(voted: set<nat>, q: Option<Cert>, vheight: nat)
    ensures Distinct(TheKeys, Holding(voted, q, vheight).store, First)
  {
    hide Main, Start;
    FirstParts();
    StartParts();
  }

  lemma BareParts()
    ensures |Bare.rids| == 4 && UnderWay(None) == Bare && UnderWay(Some(Bare)) == Bare
    ensures |AddPart(Bare, 0, Sig(0)).rids| == 4
  {
  }

  /** The votes of replicas 0 and 3 are counted after the proposal. */
  lemma Completed(mode: Mode, t: StoreSystem) returns (t': StoreSystem)
    requires Four(mode).Valid() && Reached(Four(mode), TheKeys, Twice[..5], t)
    requires 0 in t.replicas && t.replicas[0] == Local(Holding({1}, Some(Bare), 1), First) && Vote(0, First) in t.votes
    ensures Reached(Four(mode), TheKeys, Twice, t') && 0 in t'.replicas && t'.votes == t.votes + {Vote(3, First)}
    ensures t'.replicas[0] == Local(Holding({0, 1, 3}, Some(Short), 1).(hqc := First, hqcQc := Short), First)
  {
    BareParts();
    hide Reached, Main, Holding, EmptyCert, AddPart, Sig;
    assert 0 !in {1} && |{1}| == 1;
    var t6 := CountReached(mode, Twice[..5], t, {1}, Some(Bare), 1, First, 0);
    assert Twice[..5] + [Twice[5]] == Twice[..6];
    var t7 := t6.(votes := t6.votes + {Vote(3, First)});
    FourIsValid(mode);
    ReachedNext(Four(mode), TheKeys, Twice[..6], t6, t7, Twice[6]);
    assert Twice[..6] + [Twice[6]] == Twice[..7];
    assert {1} + {0} == {0, 1} && |{0, 1}| == 2 && {0, 1} + {3} == {0, 1, 3};
    t' := CountReached(mode, Twice[..7], t7, {0, 1}, Some(AddPart(Bare, 0, Sig(0))), 1, First, 3);
    assert Twice[..7] + [Twice[7]] == Twice;
  }

  /** Its next proposals carry that certificate. */
  lemma NotVerified(mode: Mode, votes: set<Vote>, st: State, tail: Block, cmds: seq<nat>)
    requires Four(mode).Valid() && st.hqcQc == Short
    ensures !Verified(Four(mode), TheKeys, votes, Live.NewBlock(st, tail, cmds))
  {
    FourIsValid(mode);
    hide Verify, EmptyCert, AddPart, Sig;
    ShortIsRejected(Four(mode), votes);
  }

  /** Votes of a majority are counted at replica 0, all of them valid, and the block becomes hqc; but
      its certificate lacks the one counted before the proposal. Nothing replica 0 proposes on it
      can be delivered anywhere, whoever votes for what. */
  lemma ProposedTwice(mode: Mode) returns (t: StoreSystem)
    ensures Four(mode).Valid() && Reached(Four(mode), TheKeys, Twice, t) && 0 in t.replicas
    ensures Vote(0, First) in t.votes && Vote(1, First) in t.votes && Vote(3, First) in t.votes
    ensures var Local(st, tail) := t.replicas[0];
      && First in st.store && st.store[First].voted == {0, 1, 3} && st.hqc == First
      && SetBits(st.hqcQc.rids) == {0, 3} && InStep(st.hqcQc)
      && VerifyBlock(st.hqcQc, HashOf(Genesis), 4, Four(mode).Majority(), TheKeys.oracle) == Rejected
      && forall votes, cmds :: !Verified(Four(mode), TheKeys, votes, Live.NewBlock(st, tail, cmds))
  {
    FourIsValid(mode);
    BareParts();
    hide Reached, Main, Holding, Distinct, Live.Propose, EmptyCert, AddPart, Verify, Sig, Verified, Live.NewBlock, InStep;
    var t3 := Proposed(mode);
    var t4 := CountReached(mode, Twice[..3], t3, {}, None, 0, Genesis, 1);
    assert Twice[..3] + [Twice[3]] == Twice[..4];
    var first := Some(AddPart(Bare, 1, Sig(1)));
    HoldingDistinct({1}, first, 0);
    HoldingHqc({1}, first, 0);
    ProposesAgain(mode, {1}, first);
    var t5 := ProposeReached(mode, Twice[..4], t4, 0, {1});
    assert Twice[..4] + [Twice[4]] == Twice[..5];
    t := Completed(mode, t5);
    ShortIsRejected(Four(mode), t.votes);
    Holds({0, 1, 3}, Some(Short), 1);
    var Local(st, tail) := t.replicas[0];
    forall votes, cmds ensures !Verified(Four(mode), TheKeys, votes, Live.NewBlock(st, tail, cmds)) {
      NotVerified(mode, votes, st, tail, cmds);
    }
  }
}
