/** Blocks, certificates and keys for concrete runs among four replicas, one of them faulty. */
module WitnessBlocks {
  import opened Bytes
  import opened Blocks
  import opened Quorums
  import opened Signatures
  import opened Certificates
  import opened StoreProtocol

  /** Replicas 0, 1 and 2 are correct, 3 is faulty. */
  function Four(mode: Mode): Config {
    Config(4, {3}, mode)
  }

  lemma FourIsValid(mode: Mode)
    ensures Four(mode).Valid() && Four(mode).Majority() == 3
    ensures forall r :: Four(mode).Correct(r) <==> r < 3
  {
    assert |{3}| == 1;
  }

  // ---- keys --------------------------------------------------------------------------------

  /** Which family a block belongs to. */
  function Kind(b: Block): byte {
    if b.Genesis? || b.payload.cmds == [] then 0 else (b.payload.cmds[0] % 256) as byte
  }

  /** A hash that tells the families and their members apart. */
  function HashOf(b: Block): Data {
    Fill(Kind(b), Height(b))
  }

  function Sig(i: nat): Data {
    Fill((i % 256) as byte, 64)
  }

  const TheKeys: Keys := Keys((b: Block) => HashOf(b), (i: nat, hash: Data, sig: Data) => sig == Sig(i))

  /** The certificate that the parts of replicas 0, 1 and 3 make. */
  function Quorum(hash: Data): (q: Cert)
    ensures |q.rids| == 4
  {
    AddPart(AddPart(AddPart(EmptyCert(4, hash), 0, Sig(0)), 1, Sig(1)), 3, Sig(3))
  }

  const GenesisCert: Cert := EmptyCert(4, [])

  /** The certificate of block i of the main chain. */
  function CertOf(i: nat): Cert {
    if i == 0 then GenesisCert else Quorum(Fill(1, i))
  }

  // ---- blocks ------------------------------------------------------------------------------

  /** A branch of blocks that all carry genesis' certificate. */
  function Fork(i: nat): (b: Block)
    ensures Height(b) == i && (i > 0 ==> b.Node? && b.payload.cmds == [0])
  {
    if i == 0 then Genesis else Node(Fork(i - 1), [], Genesis, Payload(GenesisCert, [0]))
  }

  /** A chain where each block certifies its parent; its first block takes Fork(u) as an uncle. */
  function Main(u: nat, i: nat): (b: Block)
    ensures Height(b) == i && (i > 0 ==> b.Node? && b.payload.cmds == [1])
  {
    if i == 0 then Genesis
    else Node(Main(u, i - 1), if i > 1 || u == 0 then [] else [Fork(u)], Main(u, i - 1), Payload(CertOf(i - 1), [1]))
  }

  /** A proposal on the branch. */
  function OnFork(u: nat): Block {
    Node(Fork(u), [], Genesis, Payload(GenesisCert, [2]))
  }

  predicate Known(u: nat, b: Block) {
    b == Fork(Height(b)) || b == Main(u, Height(b)) || b == OnFork(u)
  }

  /** Among these blocks no two share a hash. */
  lemma HashesDiffer(u: nat, a: Block, b: Block)
    requires Known(u, a) && Known(u, b) && HashOf(a) == HashOf(b)
    ensures a == b
  {
    assert |HashOf(a)| == Height(a) && |HashOf(b)| == Height(b);
    if Height(a) > 0 {
      assert HashOf(a)[0] == Kind(a) && HashOf(b)[0] == Kind(b);
    }
  }

  // ---- certificates verify -----------------------------------------------------------------

  lemma QuorumHolds(hash: Data)
    ensures var q := Quorum(hash);
      && InStep(q) && q.objHash == hash && SetBits(q.rids) == {0, 1, 3}
      && q.sigs == map[0 := Sig(0), 1 := Sig(1), 3 := Sig(3)]
  {
    var q0 := EmptyCert(4, hash);
    assert SetBits(q0.rids) == {};
    AddPartSigners(q0, 0, Sig(0));
    var q1 := AddPart(q0, 0, Sig(0));
    AddPartSigners(q1, 1, Sig(1));
    var q2 := AddPart(q1, 1, Sig(1));
    AddPartSigners(q2, 3, Sig(3));
  }

  lemma GenesisProves(mode: Mode, votes: set<Vote>)
    requires Four(mode).Valid()
    ensures Proves(Four(mode), TheKeys, votes, Genesis, GenesisCert)
  {
    assert HashOf(Genesis) == [];
    assert SetBits(GenesisCert.rids) == {};
  }

  lemma QuorumAccepted(hash: Data)
    ensures InStep(Quorum(hash)) && Verify(Quorum(hash), 4, 3, TheKeys.oracle) == Accepted
  {
    hide Quorum, Verify;
    QuorumHolds(hash);
    var q := Quorum(hash);
    AcceptedMeansMajority(q, 4, 3, TheKeys.oracle);
    assert |{0, 1, 3}| == 3;
  }

  /** A certificate of those three verifies once they have voted. */
  lemma QuorumProves(mode: Mode, votes: set<Vote>, b: Block)
    requires Four(mode).Valid() && HashOf(b) != HashOf(Genesis)
    requires Vote(0, b) in votes && Vote(1, b) in votes && Vote(3, b) in votes
    ensures Proves(Four(mode), TheKeys, votes, b, Quorum(HashOf(b)))
  {
    hide Quorum, Verify, HashOf, Sig;
    var q := Quorum(HashOf(b));
    QuorumHolds(HashOf(b));
    QuorumAccepted(HashOf(b));
    FourIsValid(mode);
    assert q.sigs.Keys == {0, 1, 3};
    assert SignaturesAreVotes(Four(mode), votes, b, q, TheKeys.oracle);
  }

  /** The chain's certificates verify once replicas 0, 1 and 3 have voted. */
  lemma CertProves(mode: Mode, votes: set<Vote>, u: nat, i: nat)
    requires Four(mode).Valid()
    requires i > 0 ==> Vote(0, Main(u, i)) in votes && Vote(1, Main(u, i)) in votes && Vote(3, Main(u, i)) in votes
    ensures Proves(Four(mode), TheKeys, votes, Main(u, i), CertOf(i))
  {
    hide Quorum, Proves, HashOf;
    if i == 0 {
      GenesisProves(mode, votes);
    } else {
      MainHash(u, i);
      QuorumProves(mode, votes, Main(u, i));
    }
  }

  lemma MainHash(u: nat, i: nat)
    requires i > 0
    ensures HashOf(Main(u, i)) == Fill(1, i) && |HashOf(Genesis)| == 0
    ensures Main(u, i) != Genesis && HashOf(Main(u, i)) != HashOf(Genesis)
  {
    assert Kind(Main(u, i)) == 1;
    assert |Fill(1, i)| == i;
  }

  /** Every block of the families may be delivered once its certificate's block has those votes. */
  lemma MainVerified(mode: Mode, votes: set<Vote>, u: nat, i: nat)
    requires Four(mode).Valid() && i > 0
    requires i > 1 ==> Vote(0, Main(u, i - 1)) in votes && Vote(1, Main(u, i - 1)) in votes && Vote(3, Main(u, i - 1)) in votes
    ensures Verified(Four(mode), TheKeys, votes, Main(u, i))
  {
    CertProves(mode, votes, u, i - 1);
    hide Proves;
  }

  lemma ForkVerified(mode: Mode, votes: set<Vote>, b: Block)
    requires Four(mode).Valid() && b.Node? && b.justify == Genesis && b.payload.qc == GenesisCert
    ensures Verified(Four(mode), TheKeys, votes, b)
  {
    GenesisProves(mode, votes);
    ExtendsGenesis(b.parent);
    hide Proves;
  }
}
