/** The certificates a replica holds: the one it builds for each block, and hqc's, which goes into
    its next proposal (src/consensus.cpp `on_receive_vote`, `update_hqc`, `on_propose`). */
module CertificateFlow {
  import opened Bytes
  import opened Blocks
  import opened Quorums
  import opened Signatures
  import opened Certificates
  import opened BlockStore
  import opened Pruning
  import opened StoreProtocol
  import opened Options
  import StoreProofs
  import Live = StoreModel

  type State = Live.State

  /** Every signature verifies and stands for a cast vote; the signers are among the counted
      voters, or exactly those. */
  ghost predicate SignersOk(c: Config, k: Keys, votes: set<Vote>, exact: bool, b: Block, e: Entry) {
    match e.selfQc
    case None => exact ==> e.voted == {}
    case Some(q) =>
      && InStep(q) && q.objHash == k.hashOf(b) && |q.rids| == c.n
      && (forall i :: i in q.sigs ==> i < c.n && k.oracle(i, q.objHash, q.sigs[i]) && Vote(i, b) in votes)
      && SetBits(q.rids) <= e.voted && (exact ==> SetBits(q.rids) == e.voted)
  }

  /** The certificates in a replica's hands. Where signers are exactly the counted voters, hqc's
      certificate verifies, and so does that of every delivered block. */
  ghost predicate CertsOk(c: Config, k: Keys, votes: set<Vote>, exact: bool, st: State)
    requires c.Valid()
  {
    && Live.StateOk(st)
    && (forall b :: b in st.store ==> !PosesAsGenesis(k.hashOf, b))
    && (forall b :: b in st.store && b.Node? ==> SignersOk(c, k, votes, exact, b, st.store[b]))
    && |st.store[Genesis].voted| >= c.Majority()
    && (exact ==> Proves(c, k, votes, st.hqc, st.hqcQc))
    && (exact ==> forall b :: Delivered(st.store, b) && b.Node? ==> Proves(c, k, votes, b.justify, b.payload.qc))
  }

  // ---- votes only grow ---------------------------------------------------------------------

  lemma SignersMonotone(c: Config, k: Keys, votes: set<Vote>, votes': set<Vote>, exact: bool, b: Block, e: Entry)
    requires SignersOk(c, k, votes, exact, b, e) && votes <= votes'
    ensures SignersOk(c, k, votes', exact, b, e)
  {
  }

  lemma ProvesMonotone(c: Config, k: Keys, votes: set<Vote>, votes': set<Vote>, b: Block, q: Cert)
    requires c.Valid() && Proves(c, k, votes, b, q) && votes <= votes'
    ensures Proves(c, k, votes', b, q)
  {
  }

  lemma CertsMonotone(c: Config, k: Keys, votes: set<Vote>, votes': set<Vote>, exact: bool, st: State)
    requires c.Valid() && CertsOk(c, k, votes, exact, st) && votes <= votes'
    ensures CertsOk(c, k, votes', exact, st)
  {
    hide Proves, SignersOk, Live.StateOk;
    forall b | b in st.store && b.Node? ensures SignersOk(c, k, votes', exact, b, st.store[b]) {
      SignersMonotone(c, k, votes, votes', exact, b, st.store[b]);
    }
    if exact {
      ProvesMonotone(c, k, votes, votes', st.hqc, st.hqcQc);
      forall b | Delivered(st.store, b) && b.Node? ensures Proves(c, k, votes', b.justify, b.payload.qc) {
        ProvesMonotone(c, k, votes, votes', b.justify, b.payload.qc);
      }
    }
  }

  // ---- events ------------------------------------------------------------------------------

  lemma InitialCerts(c: Config, k: Keys, exact: bool)
    requires c.Valid()
    ensures CertsOk(c, k, {}, exact, Live.Initial(c.n, k.hashOf))
  {
    StoreProofs.InitialOk(c.n, k.hashOf);
    AllReplicasSize(c.n);
    assert SetBits(EmptyCert(c.n, k.hashOf(Genesis)).rids) == {};
  }

  /** The same blocks with the same votes and certificates, or fewer. */
  ghost predicate SameSigners(store: Store, store': Store) {
    && Genesis in store && Genesis in store' && store'[Genesis].voted == store[Genesis].voted
    && forall b :: b in store' ==>
      && b in store && (Delivered(store', b) ==> Delivered(store, b))
      && store'[b].voted == store[b].voted && store'[b].selfQc == store[b].selfQc
  }

  lemma SameSignersKeep(c: Config, k: Keys, votes: set<Vote>, exact: bool, st: State, st': State)
    requires c.Valid() && CertsOk(c, k, votes, exact, st) && Live.StateOk(st') && SameSigners(st.store, st'.store)
    requires exact ==> Proves(c, k, votes, st'.hqc, st'.hqcQc)
    ensures CertsOk(c, k, votes, exact, st')
  {
    hide Proves, Live.StateOk;
  }

  lemma FetchCerts(c: Config, k: Keys, votes: set<Vote>, exact: bool, st: State, b: Block)
    requires c.Valid() && CertsOk(c, k, votes, exact, st) && Distinct(k, st.store, b)
    ensures CertsOk(c, k, votes, exact, Live.Fetch(st, b))
  {
    StoreProofs.FetchKeeps(st, b);
    hide Proves;
  }

  lemma DeliverCerts(c: Config, k: Keys, votes: set<Vote>, exact: bool, st: State, b: Block)
    requires c.Valid() && CertsOk(c, k, votes, exact, st) && b in st.store
    requires exact && b.Node? ==> Proves(c, k, votes, b.justify, b.payload.qc)
    ensures CertsOk(c, k, votes, exact, Live.Deliver(st, b).st)
  {
    StoreProofs.DeliverKeeps(st, b);
    DeliverSigners(st, b);
    var d := Live.Deliver(st, b).st;
    hide Proves, Live.Deliver, Live.StateOk;
    forall x | x in d.store && x.Node? ensures SignersOk(c, k, votes, exact, x, d.store[x]) {
      SameSignersOk(c, k, votes, exact, x, st.store[x], d.store[x]);
    }
  }

  lemma SameSignersOk(c: Config, k: Keys, votes: set<Vote>, exact: bool, b: Block, e: Entry, e': Entry)
    requires SignersOk(c, k, votes, exact, b, e) && e'.voted == e.voted && e'.selfQc == e.selfQc
    ensures SignersOk(c, k, votes, exact, b, e')
  {
  }

  lemma DeliverSigners(st: State, b: Block)
    requires b in st.store
    ensures var d := Live.Deliver(st, b).st;
      && d.store.Keys == st.store.Keys && d.hqc == st.hqc && d.hqcQc == st.hqcQc
      && forall x :: x in st.store ==> d.store[x].voted == st.store[x].voted && d.store[x].selfQc == st.store[x].selfQc
  {
  }

  lemma UpdateCerts(c: Config, k: Keys, votes: set<Vote>, exact: bool, st: State, b: Block)
    requires c.Valid() && CertsOk(c, k, votes, exact, st)
    ensures CertsOk(c, k, votes, exact, Live.Update(c.mode, st, b).st)
  {
    StoreProofs.UpdateKeeps(c.mode, st, b);
    var u := Live.Update(c.mode, st, b).st;
    hide Proves, Live.Update, SignersOk, Sound;
    SameSignersKeep(c, k, votes, exact, st, u);
  }

  lemma CastVoteCerts(c: Config, k: Keys, votes: set<Vote>, exact: bool, st: State, b: Block, enabled: bool)
    requires c.Valid() && CertsOk(c, k, votes, exact, st)
    ensures CertsOk(c, k, votes, exact, Live.CastVote(st, b, enabled).st)
  {
    StoreProofs.CastVoteKeeps(st, b, enabled);
    hide Proves, Live.CastVote, SignersOk, Sound;
    SameSignersKeep(c, k, votes, exact, st, Live.CastVote(st, b, enabled).st);
  }

  lemma ReceiveCerts(c: Config, k: Keys, votes: set<Vote>, exact: bool, st: State, b: Block, enabled: bool)
    requires c.Valid() && CertsOk(c, k, votes, exact, st)
    ensures CertsOk(c, k, votes, exact, Live.ReceiveProposal(c.mode, st, b, enabled).st)
  {
    UpdateCerts(c, k, votes, exact, st, b);
    hide CertsOk, Live.Update, Live.CastVote;
    CastVoteCerts(c, k, votes, exact, Live.Update(c.mode, st, b).st, b, enabled);
  }

  lemma FinishCerts(c: Config, k: Keys, votes: set<Vote>, exact: bool, st: State, b: Block, enabled: bool)
    requires c.Valid() && CertsOk(c, k, votes, exact, st)
    ensures CertsOk(c, k, votes, exact, Live.Finish(c.mode, st, b, enabled).st)
  {
    UpdateCerts(c, k, votes, exact, st, b);
    hide CertsOk, Live.Update, Live.CastVote;
    CastVoteCerts(c, k, votes, exact, Live.Update(c.mode, st, b).st, b, enabled);
  }

  // ---- counting a vote ---------------------------------------------------------------------

  /** Adding a verified vote keeps signers and voters in step. */
  lemma CountSigners(c: Config, k: Keys, votes: set<Vote>, exact: bool, st: State, v: Vote, sig: Data)
    requires c.Valid() && CertsOk(c, k, votes, exact, st) && Signed(c, k, votes, v, sig)
    requires v.blk in st.store && v.blk.Node? && v.voter !in st.store[v.blk].voted
    ensures var q := Live.SelfQc(c.n, k.hashOf, st.store, v.blk);
      && |q.rids| == c.n && v.voter !in q.sigs
      && SignersOk(c, k, votes, exact, v.blk, Live.Counted(st, v, AddPart(q, v.voter, sig)).store[v.blk])
  {
    assert SignersOk(c, k, votes, exact, v.blk, st.store[v.blk]);
    hide Proves, CertsOk, SignersOk, AddPart;
    SelfSigners(c, k, votes, exact, st, v.blk);
    var q := Live.SelfQc(c.n, k.hashOf, st.store, v.blk);
    SignersAdd(c, k, votes, exact, v, sig, st.store[v.blk].(selfQc := Some(q)));
  }

  /** What the certificate under construction holds, made or not. */
  lemma SelfSigners(c: Config, k: Keys, votes: set<Vote>, exact: bool, st: State, b: Block)
    requires b in st.store && SignersOk(c, k, votes, exact, b, st.store[b])
    ensures SignersOk(c, k, votes, exact, b, st.store[b].(selfQc := Some(Live.SelfQc(c.n, k.hashOf, st.store, b))))
  {
    if st.store[b].selfQc.None? {
      assert SetBits(EmptyCert(c.n, k.hashOf(b)).rids) == {};
    }
  }

  lemma SignersAdd(c: Config, k: Keys, votes: set<Vote>, exact: bool, v: Vote, sig: Data, e: Entry)
    requires e.selfQc.Some? && SignersOk(c, k, votes, exact, v.blk, e) && Signed(c, k, votes, v, sig) && v.voter !in e.voted
    ensures var q := e.selfQc.value;
      && |q.rids| == c.n && v.voter !in q.sigs
      && SignersOk(c, k, votes, exact, v.blk, e.(voted := e.voted + {v.voter}, selfQc := Some(AddPart(q, v.voter, sig))))
  {
    var q := e.selfQc.value;
    assert v.voter !in SetBits(q.rids);
    AddPartSigners(q, v.voter, sig);
    hide SetBits;
  }

  /** The vote that completes a quorum completes a certificate that verifies, exactly when the
      signers are all the counted voters. */
  lemma CompletedVerifies(c: Config, k: Keys, votes: set<Vote>, st: State, v: Vote, sig: Data)
    requires c.Valid() && CertsOk(c, k, votes, false, st) && Signed(c, k, votes, v, sig)
    requires v.blk in st.store && v.blk.Node? && v.voter !in st.store[v.blk].voted
    requires |st.store[v.blk].voted| + 1 == c.Majority()
    ensures var q := Live.SelfQc(c.n, k.hashOf, st.store, v.blk);
      && v.voter < |q.rids|
      && (Proves(c, k, votes, v.blk, AddPart(q, v.voter, sig)) <==> SetBits(q.rids) == st.store[v.blk].voted)
  {
    var q := Live.SelfQc(c.n, k.hashOf, st.store, v.blk);
    var e := st.store[v.blk];
    CountSigners(c, k, votes, false, st, v, sig);
    assert SignersOk(c, k, votes, false, v.blk, e);
    assert !PosesAsGenesis(k.hashOf, v.blk);
    if e.selfQc.None? {
      assert SetBits(q.rids) == {};
    }
    var q' := AddPart(q, v.voter, sig);
    AddPartSigners(q, v.voter, sig);
    AcceptedMeansMajority(q', c.n, c.Majority(), k.oracle);
    assert SetBits(q.rids) <= e.voted;
    SubsetSize(SetBits(q.rids), e.voted);
    if |SetBits(q.rids)| == |e.voted| {
      SameSize(SetBits(q.rids), e.voted);
    }
    hide CertsOk, Live.SelfQc;
  }

  lemma SameSize(a: set<nat>, b: set<nat>)
    requires a <= b && |a| == |b|
    ensures a == b
  {
    if x :| x in b && x !in a {
      SubsetSize(a + {x}, b);
    }
  }

  lemma CountCerts(c: Config, k: Keys, votes: set<Vote>, exact: bool, st: State, v: Vote, sig: Data)
    requires c.Valid() && CertsOk(c, k, votes, exact, st) && Signed(c, k, votes, v, sig)
    requires v.voter < |Live.SelfQc(c.n, k.hashOf, st.store, v.blk).rids|
    ensures CertsOk(c, k, votes, exact, Live.ReceiveVote(c.n, c.Majority(), k.hashOf, st, v, sig).st)
  {
    StoreProofs.ReceiveVoteKeeps(c.n, c.Majority(), k.hashOf, st, v, sig);
    if Delivered(st.store, v.blk) && |st.store[v.blk].voted| < c.Majority() && v.voter !in st.store[v.blk].voted {
      assert v.blk.Node?;
      CountSigners(c, k, votes, exact, st, v, sig);
      CountedCerts(c, k, votes, exact, st, v, sig);
      var qc := AddPart(Live.SelfQc(c.n, k.hashOf, st.store, v.blk), v.voter, sig);
      var st1 := Live.Counted(st, v, qc);
      if |st.store[v.blk].voted| + 1 == c.Majority() && exact {
        ExactSigners(c, k, votes, st, v.blk);
        WeakCerts(c, k, votes, st);
        CompletedVerifies(c, k, votes, st, v, sig);
      }
      HqcCerts(c, k, votes, exact, st1, v.blk, qc);
      hide CertsOk, Signed, Proves;
    }
  }

  lemma CountedCerts(c: Config, k: Keys, votes: set<Vote>, exact: bool, st: State, v: Vote, sig: Data)
    requires c.Valid() && CertsOk(c, k, votes, exact, st) && Delivered(st.store, v.blk) && v.blk.Node?
    requires v.voter < |Live.SelfQc(c.n, k.hashOf, st.store, v.blk).rids|
    requires var qc := AddPart(Live.SelfQc(c.n, k.hashOf, st.store, v.blk), v.voter, sig);
      SignersOk(c, k, votes, exact, v.blk, Live.Counted(st, v, qc).store[v.blk])
    ensures var qc := AddPart(Live.SelfQc(c.n, k.hashOf, st.store, v.blk), v.voter, sig);
      CertsOk(c, k, votes, exact, Live.Counted(st, v, qc))
  {
    var qc := AddPart(Live.SelfQc(c.n, k.hashOf, st.store, v.blk), v.voter, sig);
    var e := st.store[v.blk];
    StoreProofs.ChangeSound(st.store, v.blk, e.voted + {v.voter}, Some(qc));
    hide Proves, SignersOk, Sound, AddPart, Live.SelfQc;
  }

  lemma ExactSigners(c: Config, k: Keys, votes: set<Vote>, st: State, b: Block)
    requires c.Valid() && CertsOk(c, k, votes, true, st) && b in st.store && b.Node?
    ensures SetBits(Live.SelfQc(c.n, k.hashOf, st.store, b).rids) == st.store[b].voted
  {
    assert SignersOk(c, k, votes, true, b, st.store[b]);
    assert SetBits(EmptyCert(c.n, k.hashOf(b)).rids) == {};
  }

  lemma WeakCerts(c: Config, k: Keys, votes: set<Vote>, st: State)
    requires c.Valid() && CertsOk(c, k, votes, true, st)
    ensures CertsOk(c, k, votes, false, st)
  {
    forall b | b in st.store && b.Node? ensures SignersOk(c, k, votes, false, b, st.store[b]) {
      assert SignersOk(c, k, votes, true, b, st.store[b]);
    }
  }

  lemma HqcCerts(c: Config, k: Keys, votes: set<Vote>, exact: bool, st: State, b: Block, qc: Cert)
    requires c.Valid() && CertsOk(c, k, votes, exact, st) && b in st.store
    ensures (exact ==> Proves(c, k, votes, b, qc)) ==> CertsOk(c, k, votes, exact, Live.UpdateHqc(st, b, qc).st)
  {
    hide Proves, SignersOk, Sound;
  }

  // ---- proposing ---------------------------------------------------------------------------

  /** on_propose starts the block's certificate anew but keeps the votes counted for it, so signers
      and voters stay in step exactly when there are none. */
  lemma ProposingResets(c: Config, k: Keys, votes: set<Vote>, st: State, tail: Block, b: Block)
    requires c.Valid() && CertsOk(c, k, votes, true, st) && Delivered(st.store, tail) && Distinct(k, st.store, b)
    requires b.Node? && Parents(b) == [tail] && b.justify == st.hqc && b.payload.qc == st.hqcQc
    ensures CertsOk(c, k, votes, true, Live.Built(c.n, k.hashOf, st, tail, b)) <==> VotesHeld(st.store, b) == {}
  {
    var u := Live.Built(c.n, k.hashOf, st, tail, b);
    BuiltFields(c.n, k.hashOf, st, tail, b);
    assert SetBits(EmptyCert(c.n, k.hashOf(b)).rids) == {};
    if VotesHeld(st.store, b) == {} {
      BuiltCerts(c, k, votes, true, st, tail, b);
    } else {
      assert !SignersOk(c, k, votes, true, b, u.store[b]);
    }
    hide Live.Built, Proves, Live.StateOk;
  }

  /** Such a block can come about: a vote for the very block that is then proposed, say because an
      earlier attempt at it was given up. */
  lemma VoteThenPropose(c: Config, k: Keys, votes: set<Vote>, st: State, tail: Block, cmds: seq<nat>, v: Vote, sig: Data)
    requires c.Valid() && CertsOk(c, k, votes, true, st) && Signed(c, k, votes, v, sig) && Delivered(st.store, tail)
    requires v.blk == Live.NewBlock(st, tail, cmds) && Delivered(st.store, v.blk) && Distinct(k, st.store, v.blk)
    requires v.voter !in st.store[v.blk].voted && |st.store[v.blk].voted| + 1 < c.Majority()
    requires v.voter < |Live.SelfQc(c.n, k.hashOf, st.store, v.blk).rids|
    ensures var st1 := Live.ReceiveVote(c.n, c.Majority(), k.hashOf, st, v, sig).st;
      var u := Live.Built(c.n, k.hashOf, st1, tail, v.blk);
      && CertsOk(c, k, votes, true, st1) && Live.NewBlock(st1, tail, cmds) == v.blk
      && !CertsOk(c, k, votes, true, u) && Lacking(u.store, v.blk)
  {
    hide CertsOk, Live.Built, Live.StateOk, EmptyCert, Proves;
    CountCerts(c, k, votes, true, st, v, sig);
    var st1 := Live.ReceiveVote(c.n, c.Majority(), k.hashOf, st, v, sig).st;
    assert v.voter in VotesHeld(st1.store, v.blk);
    CertsState(c, k, votes, true, st1);
    ProposingResets(c, k, votes, st1, tail, v.blk);
    BuiltFields(c.n, k.hashOf, st1, tail, v.blk);
    EmptySigners(c.n, k.hashOf(v.blk));
  }

  lemma CertsState(c: Config, k: Keys, votes: set<Vote>, exact: bool, st: State)
    requires c.Valid() && CertsOk(c, k, votes, exact, st)
    ensures Live.StateOk(st)
  {
  }

  lemma EmptySigners(n: nat, hash: Data)
    ensures SetBits(EmptyCert(n, hash).rids) == {}
  {
  }

  /** A counted voter is missing among the signers. */
  predicate Lacking(store: Store, b: Block) {
    b in store && store[b].selfQc.Some? && SetBits(store[b].selfQc.value.rids) < store[b].voted
  }

  /** It stays so while votes are counted, and then the certificate a quorum completes does not verify. */
  lemma LackingStays(c: Config, k: Keys, votes: set<Vote>, st: State, v: Vote, sig: Data, b: Block)
    requires c.Valid() && CertsOk(c, k, votes, false, st) && Signed(c, k, votes, v, sig)
    requires v.voter < |Live.SelfQc(c.n, k.hashOf, st.store, v.blk).rids|
    requires b.Node? && Delivered(st.store, b) && Lacking(st.store, b)
    ensures var s := Live.ReceiveVote(c.n, c.Majority(), k.hashOf, st, v, sig).st;
      && Lacking(s.store, b)
      && (v.blk == b && |st.store[b].voted| + 1 == |s.store[b].voted| == c.Majority() ==>
        !Proves(c, k, votes, b, s.store[b].selfQc.value))
  {
    hide CertsOk, Proves, Signed, Lacking, AddPart;
    StillLacking(c.n, c.Majority(), k.hashOf, st, v, sig, b);
    var e := st.store[b];
    if v.blk == b && |e.voted| + 1 == c.Majority() && v.voter !in e.voted {
      LackingSigners(c.n, k.hashOf, st.store, b);
      CompletedVerifies(c, k, votes, st, v, sig);
    }
  }

  lemma LackingSigners(n: nat, hashOf: BlockHash, store: Store, b: Block)
    requires Lacking(store, b)
    ensures SetBits(Live.SelfQc(n, hashOf, store, b).rids) < store[b].voted
  {
  }

  lemma StillLacking(n: nat, majority: nat, hashOf: BlockHash, st: State, v: Vote, sig: Data, b: Block)
    requires v.voter < |Live.SelfQc(n, hashOf, st.store, v.blk).rids| && Delivered(st.store, b) && Lacking(st.store, b)
    ensures var s := Live.ReceiveVote(n, majority, hashOf, st, v, sig).st;
      && Lacking(s.store, b)
      && (if v.blk == b && |st.store[b].voted| < majority && v.voter !in st.store[b].voted
        then s.store[b].voted == st.store[b].voted + {v.voter}
          && s.store[b].selfQc == Some(AddPart(Live.SelfQc(n, hashOf, st.store, b), v.voter, sig))
        else s.store[b] == st.store[b])
  {
    hide AddPart, Live.TailsCut;
    if v.blk == b {
      AddPartSigners(st.store[b].selfQc.value, v.voter, sig);
    }
  }

  function VotesHeld(store: Store, b: Block): set<nat> {
    if b in store then store[b].voted else {}
  }

  lemma BuiltFields(n: nat, hashOf: BlockHash, st: State, tail: Block, b: Block)
    requires Live.StateOk(st) && Delivered(st.store, tail) && b.Node? && Parents(b) == [tail] && b.justify == st.hqc
    ensures var u := Live.Built(n, hashOf, st, tail, b);
      && Live.StateOk(u) && u.store.Keys == st.store.Keys + {b} && u.hqc == st.hqc && u.hqcQc == st.hqcQc
      && u.store[b].voted == VotesHeld(st.store, b) && u.store[b].selfQc == Some(EmptyCert(n, hashOf(b)))
      && (forall x :: x in st.store && x != b ==> u.store[x] == st.store[x])
      && (forall x :: Delivered(u.store, x) <==> Delivered(st.store, x) || x == b)
  {
    hide Live.StateOk, Live.Deliver, EmptyCert, Sound;
    StoreProofs.BuiltKeeps(n, hashOf, st, tail, b);
    var s := Live.Fetch(st.(tails := st.tails - {tail}), b);
    var s2 := s.(store := s.store[b := s.store[b].(selfQc := Some(EmptyCert(n, hashOf(b))))]);
    DeliverSigners(s2, b);
    StoreProofs.DeliverOthers(s2, b);
  }

  lemma BuiltCerts(c: Config, k: Keys, votes: set<Vote>, exact: bool, st: State, tail: Block, b: Block)
    requires c.Valid() && CertsOk(c, k, votes, exact, st) && Delivered(st.store, tail) && Distinct(k, st.store, b)
    requires b.Node? && Parents(b) == [tail] && b.justify == st.hqc && b.payload.qc == st.hqcQc
    requires exact ==> VotesHeld(st.store, b) == {}
    ensures CertsOk(c, k, votes, exact, Live.Built(c.n, k.hashOf, st, tail, b))
  {
    var u := Live.Built(c.n, k.hashOf, st, tail, b);
    BuiltFields(c.n, k.hashOf, st, tail, b);
    assert Genesis in st.store && Genesis != b;
    ResetSigners(c, k, votes, exact, b, u.store[b]);
    assert !PosesAsGenesis(k.hashOf, b);
    hide Live.Built, CertsOk, Proves, Live.StateOk, SignersOk, EmptyCert, PosesAsGenesis, Distinct;
    PutCerts(c, k, votes, exact, st, u, b);
  }

  /** One more block, or one entry changed. */
  lemma PutCerts(c: Config, k: Keys, votes: set<Vote>, exact: bool, st: State, u: State, b: Block)
    requires c.Valid() && CertsOk(c, k, votes, exact, st) && Live.StateOk(u) && b.Node?
    requires u.hqc == st.hqc && u.hqcQc == st.hqcQc && u.store.Keys == st.store.Keys + {b}
    requires forall x :: x in st.store && x != b ==> u.store[x] == st.store[x]
    requires SignersOk(c, k, votes, exact, b, u.store[b]) && !PosesAsGenesis(k.hashOf, b)
    requires b.justify == st.hqc && b.payload.qc == st.hqcQc
    ensures CertsOk(c, k, votes, exact, u)
  {
    assert Genesis in st.store && u.store[Genesis] == st.store[Genesis];
    hide Proves, SignersOk, PosesAsGenesis, Live.StateOk, InStep, SetBits;
    forall x | x in u.store ensures !PosesAsGenesis(k.hashOf, x) {
      assert x in st.store || x == b;
    }
    forall x | x in u.store && x.Node? ensures SignersOk(c, k, votes, exact, x, u.store[x]) {
      assert x in st.store || x == b;
    }
    if exact {
      forall x | Delivered(u.store, x) && x.Node? ensures Proves(c, k, votes, x.justify, x.payload.qc) {
        assert x == b || Delivered(st.store, x);
      }
    }
  }

  lemma ResetSigners(c: Config, k: Keys, votes: set<Vote>, exact: bool, b: Block, e: Entry)
    requires e.selfQc == Some(EmptyCert(c.n, k.hashOf(b))) && (exact ==> e.voted == {})
    ensures SignersOk(c, k, votes, exact, b, e)
  {
    assert SetBits(EmptyCert(c.n, k.hashOf(b)).rids) == {};
  }

  lemma PruneCerts(c: Config, k: Keys, votes: set<Vote>, exact: bool, st: State, tail: Block, staleness: nat,
                   released: set<Block>, st': State)
    requires c.Valid() && CertsOk(c, k, votes, exact, st) && Prunes(st, tail, staleness, released, st')
    ensures CertsOk(c, k, votes, exact, st')
  {
    PruneKeeps(st, tail, staleness, released, st');
    match Skip(st.store, st.bExec, staleness)
    case None =>
    case Some(start) =>
      StrippedFields(st.store, start);
      hide Proves, SignersOk, Stripped, Reachable, Live.StateOk, Referenced;
      assert Genesis in st'.store;
      SameSignersKeep(c, k, votes, exact, st, st');
  }
}
