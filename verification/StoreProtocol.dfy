/** The system with replicas as the program keeps them: blocks are fetched, delivered after their
    certificate verified, pruned, released and delivered again. A run ends where a handler reads
    out of bounds; a handler that throws leaves its replica as the throw left it. */
module StoreProtocol {
  import opened Bytes
  import opened Blocks
  import opened Quorums
  import opened Signatures
  import opened Certificates
  import opened ReplicaModel
  import opened BlockStore
  import opened Pruning
  import Live = StoreModel

  datatype Local = Local(st: Live.State, tail: Block)

  datatype StoreSystem = StoreSystem(replicas: map<nat, Local>, votes: set<Vote>)

  /** The hash over blocks and the verification of signatures. */
  datatype Keys = Keys(hashOf: BlockHash, oracle: Oracle)

  datatype Event =
    | FetchEvent(r: nat, b: Block)
    | DeliverEvent(r: nat, b: Block)
    | ReceiveEvent(r: nat, b: Block, enabled: bool, tail: Block)
    | CountEvent(r: nat, v: Vote, sig: Data, tail: Block)
    | ProposeEvent(r: nat, cmds: seq<nat>, enabled: bool, tail: Block)
    | PruneEvent(r: nat, staleness: nat, released: set<Block>)
    | FaultyVoteEvent(v: Vote)

  ghost predicate StoreInit(c: Config, k: Keys, s: StoreSystem) {
    && (forall r :: r in s.replicas <==> c.Correct(r))
    && (forall r :: r in s.replicas ==> s.replicas[r] == Local(Live.Initial(c.n, k.hashOf), Genesis))
    && s.votes == {}
  }

  /** A certificate that verifies and names b; what signatures in it verify are votes. As the store
      looks blocks up by hash and always holds genesis, only genesis goes by its hash. */
  ghost predicate Proves(c: Config, k: Keys, votes: set<Vote>, b: Block, q: Cert)
    requires c.Valid()
  {
    && InStep(q) && q.objHash == k.hashOf(b) && !PosesAsGenesis(k.hashOf, b)
    && VerifyBlock(q, k.hashOf(Genesis), c.n, c.Majority(), k.oracle) == Accepted
    && SignaturesAreVotes(c, votes, b, q, k.oracle)
  }

  /** What is assumed or verified of a block before delivery. */
  ghost predicate Verified(c: Config, k: Keys, votes: set<Vote>, b: Block)
    requires c.Valid()
  {
    b.Node? && Proves(c, k, votes, b.justify, b.payload.qc) && Extends(b.parent, b.justify)
  }

  /** The store is a map from hashes: a block that collides with one it holds is not added. */
  ghost predicate Distinct(k: Keys, store: Store, b: Block) {
    forall x :: x in store && k.hashOf(x) == k.hashOf(b) ==> x == b
  }

  /** A vote whose signature verifies. */
  ghost predicate Signed(c: Config, k: Keys, votes: set<Vote>, v: Vote, sig: Data) {
    v in votes && v.voter < c.n && k.oracle(v.voter, k.hashOf(v.blk), sig)
  }

  /** Replica r ends as l after handling b, having voted for b or not. */
  ghost predicate Becomes(s: StoreSystem, s': StoreSystem, r: nat, l: Local, voted: bool, b: Block) {
    && s'.replicas == s.replicas[r := l]
    && s'.votes == if voted then s.votes + {Vote(r, b)} else s.votes
  }

  predicate ByReplica(e: Event) {
    !e.FaultyVoteEvent?
  }

  ghost predicate FetchNext(k: Keys, s: StoreSystem, s': StoreSystem, r: nat, b: Block)
    requires r in s.replicas
  {
    var Local(st, tail) := s.replicas[r];
    Distinct(k, st.store, b) && Becomes(s, s', r, Local(Live.Fetch(st, b), tail), false, b)
  }

  ghost predicate DeliverNext(c: Config, k: Keys, s: StoreSystem, s': StoreSystem, r: nat, b: Block)
    requires c.Valid() && r in s.replicas
  {
    var Local(st, tail) := s.replicas[r];
    && b in st.store && Verified(c, k, s.votes, b)
    && Becomes(s, s', r, Local(Live.Deliver(st, b).st, tail), false, b)
  }

  ghost predicate ReceiveNext(c: Config, s: StoreSystem, s': StoreSystem, r: nat, b: Block, enabled: bool, tail': Block)
    requires r in s.replicas
  {
    var Local(st, tail) := s.replicas[r];
    var u := Live.ReceiveProposal(c.mode, st, b, enabled);
    && u.error != OutOfBounds && Live.TailAfterHqc(st, u.st, tail, tail')
    && var last := if u.error == NoError then Live.TailAfterProposal(u.st, b, tail') else tail';
       Becomes(s, s', r, Local(u.st, last), u.voted, b)
  }

  ghost predicate CountNext(c: Config, k: Keys, s: StoreSystem, s': StoreSystem, r: nat, v: Vote, sig: Data, tail': Block)
    requires c.Valid() && r in s.replicas
  {
    var Local(st, tail) := s.replicas[r];
    && Signed(c, k, s.votes, v, sig) && v.voter < |Live.SelfQc(c.n, k.hashOf, st.store, v.blk).rids|
    && var u := Live.ReceiveVote(c.n, c.Majority(), k.hashOf, st, v, sig);
    && u.error != OutOfBounds && Live.TailAfterHqc(st, u.st, tail, tail')
    && Becomes(s, s', r, Local(u.st, tail'), false, v.blk)
  }

  ghost predicate ProposeNext(c: Config, k: Keys, s: StoreSystem, s': StoreSystem, r: nat, cmds: seq<nat>,
    enabled: bool, tail': Block)
    requires r in s.replicas
  {
    var Local(st, tail) := s.replicas[r];
    var b := Live.NewBlock(st, tail, cmds);
    var u := Live.Propose(c.mode, c.n, k.hashOf, st, tail, cmds, enabled);
    && Distinct(k, st.store, b) && u.error != OutOfBounds && Live.TailAfterHqc(st, u.st, tail, tail')
    && Becomes(s, s', r, Local(u.st, if u.error == NoError then b else tail'), u.voted, b)
  }

  ghost predicate PruneNext(s: StoreSystem, s': StoreSystem, r: nat, staleness: nat, released: set<Block>)
    requires r in s.replicas
  {
    var Local(st, tail) := s.replicas[r];
    exists st' :: Prunes(st, tail, staleness, released, st') && Becomes(s, s', r, Local(st', tail), false, Genesis)
  }

  ghost predicate StoreNextBy(c: Config, k: Keys, s: StoreSystem, s': StoreSystem, e: Event)
    requires c.Valid() && ByReplica(e) && e.r in s.replicas
  {
    match e
    case FetchEvent(r, b) => FetchNext(k, s, s', r, b)
    case DeliverEvent(r, b) => DeliverNext(c, k, s, s', r, b)
    case ReceiveEvent(r, b, enabled, tail') => ReceiveNext(c, s, s', r, b, enabled, tail')
    case CountEvent(r, v, sig, tail') => CountNext(c, k, s, s', r, v, sig, tail')
    case ProposeEvent(r, cmds, enabled, tail') => ProposeNext(c, k, s, s', r, cmds, enabled, tail')
    case PruneEvent(r, staleness, released) => PruneNext(s, s', r, staleness, released)
  }

  ghost predicate StoreNext(c: Config, k: Keys, s: StoreSystem, s': StoreSystem, e: Event)
    requires c.Valid()
  {
    if e.FaultyVoteEvent? then e.v.voter in c.faulty && s' == s.(votes := s.votes + {e.v})
    else e.r in s.replicas && StoreNextBy(c, k, s, s', e)
  }

  ghost predicate IsStoreRun(c: Config, k: Keys, run: seq<StoreSystem>, events: seq<Event>)
    requires c.Valid()
  {
    && |run| == |events| + 1
    && StoreInit(c, k, run[0])
    && forall i {:trigger events[i]} :: 0 <= i < |events| ==> StoreNext(c, k, run[i], run[i + 1], events[i])
  }

  /** Some run with these events ends in t. */
  ghost predicate Reached(c: Config, k: Keys, events: seq<Event>, t: StoreSystem)
    requires c.Valid()
  {
    exists run :: IsStoreRun(c, k, run, events) && run[|events|] == t
  }

  lemma ReachedRun(c: Config, k: Keys, events: seq<Event>, t: StoreSystem) returns (run: seq<StoreSystem>)
    requires c.Valid() && Reached(c, k, events, t)
    ensures IsStoreRun(c, k, run, events) && |run| == |events| + 1 && run[|events|] == t
  {
    run :| IsStoreRun(c, k, run, events) && run[|events|] == t;
  }

  lemma ReachedFirst(c: Config, k: Keys, t: StoreSystem)
    requires c.Valid() && StoreInit(c, k, t)
    ensures Reached(c, k, [], t)
  {
    assert IsStoreRun(c, k, [t], []);
  }

  lemma ReachedNext(c: Config, k: Keys, events: seq<Event>, t: StoreSystem, t': StoreSystem, e: Event)
    requires c.Valid() && Reached(c, k, events, t) && StoreNext(c, k, t, t', e)
    ensures Reached(c, k, events + [e], t')
  {
    hide StoreInit, StoreNext;
    var run :| IsStoreRun(c, k, run, events) && run[|events|] == t;
    var longer, more := run + [t'], events + [e];
    forall i {:trigger more[i]} | 0 <= i < |more| ensures StoreNext(c, k, longer[i], longer[i + 1], more[i]) {
      assert i < |events| ==> more[i] == events[i];
    }
    assert IsStoreRun(c, k, longer, more);
  }
}
