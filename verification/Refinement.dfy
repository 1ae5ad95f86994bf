/** Every run of replicas that prune, release and redeliver is a run of replicas that never do,
    in which proposals that throw were lost. */
module Refinement {
  import opened Bytes
  import opened Blocks
  import opened Quorums
  import opened Certificates
  import opened ReplicaModel
  import opened ReplicaProofs
  import opened PaceMakerModel
  import opened Protocol
  import opened Agreement
  import opened Safety
  import opened BlockStore
  import opened Pruning
  import opened Mirror
  import opened MirrorSteps
  import opened StoreProtocol
  import StoreProofs
  import Theorems
  import Live = StoreModel

  /** Replica l mirrors x. */
  ghost predicate Alike(c: Config, votes: set<Vote>, x: Replica, l: Local) {
    && Mirrors(x.core, l.st) && l.tail == x.tail && Delivered(l.st.store, l.tail)
    && CountedAreCast(c, votes, l.st)
  }

  ghost predicate SystemsAlike(c: Config, s: System, t: StoreSystem) {
    && t.votes == s.votes && t.replicas.Keys == s.replicas.Keys
    && forall r :: r in s.replicas ==> Alike(c, s.votes, s.replicas[r], t.replicas[r])
  }

  lemma InvBacks(c: Config, votes: set<Vote>, r: nat, x: Replica)
    requires c.Valid() && VotesInv(c, votes) && ReplicaInv(c, votes, r, x)
    ensures Backed(c, votes, x.core) && TailInv(x.core, x.tail) && CollectedAreCast(c, votes, x.core)
  {
  }

  // ---- initially ---------------------------------------------------------------------------

  lemma InitialMirrors(n: nat, hashOf: BlockHash)
    requires n > 0
    ensures Mirrors(Initial(n), Live.Initial(n, hashOf))
  {
    var s, st := Initial(n), Live.Initial(n, hashOf);
    assert EntryOk(st.store, Genesis);
    assert Live.StateOk(st);
    assert DeliveredAlike(s, st) && DecidedAlike(s, st) && IntactAbove(s, st) && TailsAlike(s, st);
    assert VotesAlike(s, st);
  }

  lemma InitAlike(c: Config, k: Keys, t: StoreSystem) returns (s: System)
    requires c.Valid() && StoreInit(c, k, t)
    ensures Init(c, s) && SystemsAlike(c, s, t)
  {
    s := System(map r | r in t.replicas :: Replica(Initial(c.n), Genesis), {});
    InitialMirrors(c.n, k.hashOf);
    hide Mirrors;
    forall r | r in s.replicas ensures Alike(c, {}, s.replicas[r], t.replicas[r]) {
    }
  }

  // ---- PMHighTail's choice -----------------------------------------------------------------

  /** The callback on a new hqc may pick the same tails, and what it picks is delivered. */
  lemma BestTailAlike(c: Config, votes: set<Vote>, s: Core, st: State, t: Block)
    requires Backed(c, votes, s) && Mirrors(s, st)
    ensures Live.BestTail(st, t) ==> BestTail(s.hqc, s.tails, t) && Delivered(st.store, t)
  {
    CertifiedIsAbove(c, votes, s, s.hqc);
    MirrorHeights(s, st);
    forall u | u in st.tails || u in s.tails
      ensures u in st.tails && Live.EndsOnHqc(st, u) <==> u in s.tails && Extends(u, s.hqc)
      ensures u in s.tails && Extends(u, s.hqc) ==> Delivered(st.store, u) && HeightOf(st.store, u) == Height(u)
    {
      TailEnds(c, votes, s, st, u);
    }
    assert EntryOk(st.store, st.hqc);
    hide Mirrors, Backed, Extends, Live.EndsOnHqc;
  }

  lemma TailEnds(c: Config, votes: set<Vote>, s: Core, st: State, u: Block)
    requires Backed(c, votes, s) && Mirrors(s, st) && Extends(s.hqc, s.bExec)
    ensures u in st.tails && Live.EndsOnHqc(st, u) <==> u in s.tails && Extends(u, s.hqc)
    ensures u in s.tails && Extends(u, s.hqc) ==> Delivered(st.store, u) && HeightOf(st.store, u) == Height(u)
  {
    MirrorHeights(s, st);
    assert EntryOk(st.store, st.hqc);
    DescendExtends(st.store, u, Height(s.hqc));
    if Extends(u, s.hqc) {
      ExtendsTransitive(u, s.hqc, s.bExec);
      if u in s.tails {
        assert u in s.delivered && Delivered(st.store, u);
        assert EntryOk(st.store, u);
        DescendAbove(s, st, u, Height(s.hqc));
        WalkFindsAncestor(u, s.hqc);
      }
    }
  }

  lemma TailAfterHqcAlike(c: Config, votes: set<Vote>, s: Core, st: State, s': Core, st': State, tail: Block, tail': Block)
    requires Backed(c, votes, s') && Mirrors(s, st) && Mirrors(s', st') && Delivered(st.store, tail)
    requires forall b :: Delivered(st.store, b) ==> Delivered(st'.store, b)
    requires Live.TailAfterHqc(st, st', tail, tail')
    ensures TailAfterHqc(s, s', tail, tail') && Delivered(st'.store, tail')
  {
    BestTailAlike(c, votes, s', st', tail');
    assert s.hqc == st.hqc && s'.hqc == st'.hqc;
    hide Mirrors, Backed, BestTail, Live.BestTail;
  }

  // ---- counted votes -----------------------------------------------------------------------

  /** Entries keep their votes or lose them. */
  lemma CountedKeep(c: Config, votes: set<Vote>, st: State, st': State)
    requires CountedAreCast(c, votes, st)
    requires forall b :: Delivered(st'.store, b) ==>
      st'.store[b].voted == {} || (Delivered(st.store, b) && st'.store[b].voted == st.store[b].voted)
    ensures CountedAreCast(c, votes, st')
  {
  }

  // ---- one replica's events ----------------------------------------------------------------

  /** The invariants the events start from. */
  ghost predicate Standing(c: Config, votes: set<Vote>, r: nat, x: Replica, l: Local) {
    c.Valid() && VotesInv(c, votes) && ReplicaInv(c, votes, r, x) && Alike(c, votes, x, l)
  }

  lemma FetchRefines(c: Config, votes: set<Vote>, r: nat, x: Replica, l: Local, b: Block)
    requires Standing(c, votes, r, x, l)
    ensures Alike(c, votes, x, Local(Live.Fetch(l.st, b), l.tail))
  {
    StoreProofs.FetchKeeps(l.st, b);
    FetchMirrors(x.core, l.st, b);
    CountedKeep(c, votes, l.st, Live.Fetch(l.st, b));
    hide Mirrors, CountedAreCast, ReplicaInv, VotesInv;
  }

  lemma DeliverRefines(c: Config, k: Keys, votes: set<Vote>, r: nat, x: Replica, l: Local, b: Block)
    requires Standing(c, votes, r, x, l) && b in l.st.store && Verified(c, k, votes, b)
    ensures var d := Live.Deliver(l.st, b);
      && (d.valid ==> Deliverable(c, votes, x.core, b))
      && Alike(c, votes, if d.valid then x.(core := Deliver(x.core, b)) else x, Local(d.st, l.tail))
  {
    StoreProofs.DeliverStays(l.st, b);
    DeliverMirrors(x.core, l.st, b);
    DeliverCounts(c, votes, l.st, b);
    MayDeliver(c, k, votes, x, l, b);
    hide Mirrors, CountedAreCast, ReplicaInv, VotesInv, Deliver, Live.Deliver, Deliverable, Verified;
  }

  lemma DeliverCounts(c: Config, votes: set<Vote>, st: State, b: Block)
    requires Live.StateOk(st) && b in st.store && CountedAreCast(c, votes, st)
    ensures CountedAreCast(c, votes, Live.Deliver(st, b).st)
  {
    StoreProofs.DeliverKeeps(st, b);
    StoreProofs.DeliverOthers(st, b);
    DeliverFields(st, b);
    if !Delivered(st.store, b) {
      StoreProofs.FetchedVotes(st.store, b);
    }
    hide Live.Deliver, Sound;
    CountedKeep(c, votes, st, Live.Deliver(st, b).st);
  }

  lemma MayDeliver(c: Config, k: Keys, votes: set<Vote>, x: Replica, l: Local, b: Block)
    requires c.Valid() && Mirrors(x.core, l.st) && b in l.st.store && Verified(c, k, votes, b)
    ensures Live.Deliver(l.st, b).valid ==> Deliverable(c, votes, x.core, b)
  {
    VerifiedIsCertified(c, votes, b.justify, b.payload.qc, k.oracle, k.hashOf);
    assert Live.Deliver(l.st, b).valid ==> forall p :: p in Parents(b) ==> Delivered(l.st.store, p);
  }

  ghost predicate ReceiveRefined(c: Config, votes: set<Vote>, r: nat, x: Replica, l: Local, b: Block, enabled: bool, tail': Block)
    requires c.Valid()
  {
    var o, u := ReceiveProposal(c.mode, x.core, b, enabled), Live.ReceiveProposal(c.mode, l.st, b, enabled);
    if u.error == NoError then
      && u.voted == o.voted && o.error == NoError
      && TailAfterHqc(x.core, o.core, x.tail, tail')
      && Alike(c, votes, Replica(o.core, TailAfterProposal(o.core, b, tail')),
        Local(u.st, Live.TailAfterProposal(u.st, b, tail')))
    else u == Live.Result(l.st, false, u.error) && tail' == l.tail
  }

  /** Counted votes and delivered blocks survive update and vote. */
  lemma ReceiveFrame(c: Config, votes: set<Vote>, st: State, b: Block, enabled: bool)
    requires Live.StateOk(st) && CountedAreCast(c, votes, st)
    ensures var u := Live.ReceiveProposal(c.mode, st, b, enabled).st;
      CountedAreCast(c, votes, u) && forall x :: Delivered(st.store, x) ==> Delivered(u.store, x)
  {
    StoreProofs.UpdateKeeps(c.mode, st, b);
    var u := Live.Update(c.mode, st, b).st;
    StoreProofs.CastVoteKeeps(u, b, enabled);
    hide Live.Update, Live.CastVote, Live.StateOk;
  }

  lemma ReceiveRefines(c: Config, votes: set<Vote>, r: nat, x: Replica, l: Local, b: Block, enabled: bool, tail': Block)
    requires Standing(c, votes, r, x, l)
    requires var u := Live.ReceiveProposal(c.mode, l.st, b, enabled);
      u.error != OutOfBounds && Live.TailAfterHqc(l.st, u.st, l.tail, tail')
    ensures ReceiveRefined(c, votes, r, x, l, b, enabled, tail')
  {
    var s, st := x.core, l.st;
    InvBacks(c, votes, r, x);
    ReceiveFrame(c, votes, st, b, enabled);
    if Delivered(st.store, b) {
      assert b in s.delivered;
      UpdateExactly(c, votes, s, st, b);
      if !Live.CommitsBelow(c.mode, st, b) {
        UpdateIsSafe(c, votes, s, b);
        UpdateKeeps(c.mode, s, b);
        StoreProofs.UpdateKeeps(c.mode, st, b);
        VoteRefines(c, votes, r, x, l, b, enabled, tail');
      }
    }
    hide Mirrors, CountedAreCast, ReplicaInv, VotesInv, CastVote, Live.CastVote, Backed;
  }

  lemma VoteRefines(c: Config, votes: set<Vote>, r: nat, x: Replica, l: Local, b: Block, enabled: bool, tail': Block)
    requires Standing(c, votes, r, x, l) && Delivered(l.st.store, b) && b in x.core.delivered
    requires UpdateMirrors(c.mode, x.core, l.st, b) && Backed(c, votes, Update(c.mode, x.core, b).core)
    requires var u := Live.ReceiveProposal(c.mode, l.st, b, enabled);
      && u.error != OutOfBounds && Live.TailAfterHqc(l.st, u.st, l.tail, tail') && CountedAreCast(c, votes, u.st)
      && forall y :: Delivered(l.st.store, y) ==> Delivered(u.st.store, y)
    requires Delivered(Live.Update(c.mode, l.st, b).st.store, b)
    ensures ReceiveRefined(c, votes, r, x, l, b, enabled, tail')
  {
    var s1, st1 := Update(c.mode, x.core, b).core, Live.Update(c.mode, l.st, b).st;
    hide Mirrors, CountedAreCast, ReplicaInv, VotesInv, CastVote, Live.CastVote, Update, Live.Update, Delivered, Backed;
    CastVoteExactly(c, votes, s1, st1, b, enabled);
    var o, u := CastVote(s1, b, enabled).core, Live.CastVote(st1, b, enabled).st;
    CastVoteErrors(s1, b, enabled);
    VotedBacked(c, votes, s1, b, enabled);
    TailAfterHqcAlike(c, votes, x.core, l.st, o, u, l.tail, tail');
    SeenTails(st1, u, b);
    TailMirrors(o, u, b, tail');
  }

  lemma SeenTails(st: State, st': State, b: Block)
    requires st' == st.(vheight := st'.vheight) && !Live.MeetsEmptied(st, b)
    ensures Descend(st'.store, b, HeightOf(st'.store, st'.hqc)).Some?
  {
  }

  lemma CountBacked(c: Config, votes: set<Vote>, s: Core, v: Vote)
    requires Backed(c, votes, s) && CollectedAreCast(c, votes, s) && v in votes && v.voter < c.n
    ensures Backed(c, votes, ReceiveVote(s, c.Majority(), v).core)
  {
    var t := ReceiveVote(s, c.Majority(), v).core;
    ReceiveVoteKeeps(s, c.Majority(), v);
    if t.hqc != s.hqc {
      CollectedCertify(c, votes, s, v);
    }
    assert t == s.(hqc := t.hqc, voted := t.voted);
    hide CoreInv, VotesInv, Certified, CollectedAreCast;
  }

  ghost predicate CountRefined(c: Config, k: Keys, votes: set<Vote>, x: Replica, l: Local, v: Vote, sig: Data, tail': Block)
    requires c.Valid() && v.voter < |Live.SelfQc(c.n, k.hashOf, l.st.store, v.blk).rids|
  {
    var o, u := ReceiveVote(x.core, c.Majority(), v), Live.ReceiveVote(c.n, c.Majority(), k.hashOf, l.st, v, sig);
    if Delivered(l.st.store, v.blk) then
      TailAfterHqc(x.core, o.core, x.tail, tail') && Alike(c, votes, Replica(o.core, tail'), Local(u.st, tail'))
    else u.st == l.st && tail' == l.tail
  }

  lemma CountFrame(c: Config, votes: set<Vote>, hashOf: BlockHash, st: State, v: Vote, sig: Data)
    requires c.Valid() && CountedAreCast(c, votes, st) && v in votes && v.voter < c.n
    requires v.voter < |Live.SelfQc(c.n, hashOf, st.store, v.blk).rids|
    ensures var u := Live.ReceiveVote(c.n, c.Majority(), hashOf, st, v, sig).st;
      CountedAreCast(c, votes, u) && forall x :: Delivered(st.store, x) ==> Delivered(u.store, x)
  {
  }

  lemma CountRefines(c: Config, k: Keys, votes: set<Vote>, r: nat, x: Replica, l: Local, v: Vote, sig: Data, tail': Block)
    requires Standing(c, votes, r, x, l) && Signed(c, k, votes, v, sig)
    requires v.voter < |Live.SelfQc(c.n, k.hashOf, l.st.store, v.blk).rids|
    requires var u := Live.ReceiveVote(c.n, c.Majority(), k.hashOf, l.st, v, sig);
      u.error != OutOfBounds && Live.TailAfterHqc(l.st, u.st, l.tail, tail')
    ensures CountRefined(c, k, votes, x, l, v, sig, tail')
  {
    var s, st := x.core, l.st;
    InvBacks(c, votes, r, x);
    CountFrame(c, votes, k.hashOf, st, v, sig);
    if Delivered(st.store, v.blk) {
      ReceiveVoteExactly(c, votes, k.hashOf, s, st, v, sig);
      CountBacked(c, votes, s, v);
      var o, u := ReceiveVote(s, c.Majority(), v).core, Live.ReceiveVote(c.n, c.Majority(), k.hashOf, st, v, sig).st;
      hide CountedAreCast, ReplicaInv, VotesInv, ReceiveVote, Live.ReceiveVote, Backed, CoreInv;
      TailAfterHqcAlike(c, votes, s, st, o, u, l.tail, tail');
    }
  }

  lemma ProposeFrame(c: Config, votes: set<Vote>, hashOf: BlockHash, st: State, tail: Block, cmds: seq<nat>, enabled: bool)
    requires Live.StateOk(st) && Delivered(st.store, tail) && CountedAreCast(c, votes, st)
    ensures var u := Live.Propose(c.mode, c.n, hashOf, st, tail, cmds, enabled).st;
      && CountedAreCast(c, votes, u) && Delivered(u.store, Live.NewBlock(st, tail, cmds))
      && forall x :: Delivered(st.store, x) ==> Delivered(u.store, x)
  {
    var b := Live.NewBlock(st, tail, cmds);
    var e := Live.Built(c.n, hashOf, st, tail, b);
    StoreProofs.BuiltKeeps(c.n, hashOf, st, tail, b);
    StoreProofs.BuiltVotes(c.n, hashOf, st, tail, b);
    CountedKeep(c, votes, st, e);
    hide Live.Built, Live.Finish, Live.StateOk, CountedAreCast;
    FinishFrame(c, votes, e, b, enabled);
  }

  lemma FinishFrame(c: Config, votes: set<Vote>, st: State, b: Block, enabled: bool)
    requires Live.StateOk(st) && CountedAreCast(c, votes, st)
    ensures var u := Live.Finish(c.mode, st, b, enabled).st;
      CountedAreCast(c, votes, u) && forall x :: Delivered(st.store, x) ==> Delivered(u.store, x)
  {
    StoreProofs.UpdateKeeps(c.mode, st, b);
    hide Live.Update, Live.CastVote, Live.StateOk;
    StoreProofs.CastVoteKeeps(Live.Update(c.mode, st, b).st, b, enabled);
  }

  ghost predicate ProposeRefined(c: Config, k: Keys, votes: set<Vote>, x: Replica, l: Local, cmds: seq<nat>,
    enabled: bool, tail': Block)
  {
    var b := Live.NewBlock(l.st, l.tail, cmds);
    var o := Propose(c.mode, x.core, x.tail, b.payload, enabled);
    var u := Live.Propose(c.mode, c.n, k.hashOf, l.st, l.tail, cmds, enabled);
    && b == NewBlock(x.core, x.tail, b.payload) && u.error == o.error && u.voted == o.voted
    && TailAfterHqc(x.core, o.core, x.tail, tail')
    && var last := if o.error == NoError then b else tail';
      Alike(c, votes, Replica(o.core, last), Local(u.st, last))
  }

  lemma ProposeRefines(c: Config, k: Keys, votes: set<Vote>, r: nat, x: Replica, l: Local, cmds: seq<nat>,
                       enabled: bool, tail': Block)
    requires Standing(c, votes, r, x, l)
    requires Live.TailAfterHqc(l.st, Live.Propose(c.mode, c.n, k.hashOf, l.st, l.tail, cmds, enabled).st, l.tail, tail')
    ensures ProposeRefined(c, k, votes, x, l, cmds, enabled, tail')
  {
    InvBacks(c, votes, r, x);
    ProposeExactly(c, votes, k.hashOf, x.core, l.st, l.tail, cmds, enabled);
    ProposeFrame(c, votes, k.hashOf, l.st, l.tail, cmds, enabled);
    var b := Live.NewBlock(l.st, l.tail, cmds);
    var o := Propose(c.mode, x.core, x.tail, b.payload, enabled).core;
    var u := Live.Propose(c.mode, c.n, k.hashOf, l.st, l.tail, cmds, enabled).st;
    hide Mirrors, CountedAreCast, ReplicaInv, VotesInv, Propose, Live.Propose, Backed, CoreInv;
    TailAfterHqcAlike(c, votes, x.core, l.st, o, u, l.tail, tail');
  }

  lemma PruneRefines(c: Config, votes: set<Vote>, r: nat, x: Replica, l: Local, staleness: nat, released: set<Block>, st': State)
    requires Standing(c, votes, r, x, l) && Prunes(l.st, l.tail, staleness, released, st')
    ensures Alike(c, votes, x, Local(st', l.tail))
  {
    PruneMirrors(x.core, l.st, l.tail, staleness, released, st');
    PrunedVotes(l.st, l.tail, staleness, released, st');
    CountedKeep(c, votes, l.st, st');
    hide Mirrors, CountedAreCast, ReplicaInv, VotesInv, Prunes;
  }

  lemma PrunedVotes(st: State, tail: Block, staleness: nat, released: set<Block>, st': State)
    requires Prunes(st, tail, staleness, released, st')
    ensures forall b :: Delivered(st'.store, b) ==> Delivered(st.store, b) && st'.store[b].voted == st.store[b].voted
  {
    var start := Skip(st.store, st.bExec, staleness);
    if start.Some? {
      StrippedFields(st.store, start.value);
      hide Stripped, Reachable;
    }
  }

  // ---- steps and runs ----------------------------------------------------------------------

  /** The unpruned system after replica r's step. */
  function Moved(s: System, r: nat, x: Replica, voted: bool, b: Block): System {
    System(s.replicas[r := x], if voted then s.votes + {Vote(r, b)} else s.votes)
  }

  lemma AlikeMonotone(c: Config, votes: set<Vote>, votes': set<Vote>, x: Replica, l: Local)
    requires Alike(c, votes, x, l) && votes <= votes'
    ensures Alike(c, votes', x, l)
  {
  }

  lemma MovedAlike(c: Config, s: System, t: StoreSystem, t': StoreSystem, r: nat, x: Replica, l: Local, voted: bool, b: Block)
    requires SystemsAlike(c, s, t) && r in s.replicas && StoreProtocol.Becomes(t, t', r, l, voted, b)
    requires Alike(c, s.votes, x, l)
    ensures SystemsAlike(c, Moved(s, r, x, voted, b), t')
  {
    var s' := Moved(s, r, x, voted, b);
    hide Alike;
    forall q | q in s'.replicas ensures Alike(c, s'.votes, s'.replicas[q], t'.replicas[q]) {
      AlikeMonotone(c, s.votes, s'.votes, s'.replicas[q], t'.replicas[q]);
    }
  }

  /** The unpruned system takes the same step, or none. */
  lemma EventRefines(c: Config, k: Keys, s: System, t: StoreSystem, t': StoreSystem, e: Event) returns (s': System, step: Step)
    requires c.Valid() && SystemInv(c, s) && SystemsAlike(c, s, t)
    requires ByReplica(e) && e.r in t.replicas && StoreNextBy(c, k, t, t', e)
    ensures Next(c, s, s', step) && SystemsAlike(c, s', t')
  {
    hide SystemInv, ReplicaInv, VotesInv, Alike, SystemsAlike, Standing, Next, FetchNext, DeliverNext, ReceiveNext, CountNext,
      ProposeNext, PruneNext;
    var r := e.r;
    SystemStands(c, s, t, r);
    match e
    case FetchEvent(_, b) => s', step := FetchEventRefines(c, k, s, t, t', r, b);
    case DeliverEvent(_, b) => s', step := DeliverEventRefines(c, k, s, t, t', r, b);
    case ReceiveEvent(_, b, enabled, tail') => s', step := ReceiveEventRefines(c, s, t, t', r, b, enabled, tail');
    case CountEvent(_, v, sig, tail') => s', step := CountEventRefines(c, k, s, t, t', r, v, sig, tail');
    case ProposeEvent(_, cmds, enabled, tail') => s', step := ProposeEventRefines(c, k, s, t, t', r, cmds, enabled, tail');
    case PruneEvent(_, staleness, released) => s', step := PruneEventRefines(c, s, t, t', r, staleness, released);
  }

  lemma SystemStands(c: Config, s: System, t: StoreSystem, r: nat)
    requires c.Valid() && SystemInv(c, s) && SystemsAlike(c, s, t) && r in t.replicas
    ensures r in s.replicas && Standing(c, s.votes, r, s.replicas[r], t.replicas[r])
  {
    hide ReplicaInv, VotesInv, Alike;
  }

  lemma FetchEventRefines(c: Config, k: Keys, s: System, t: StoreSystem, t': StoreSystem, r: nat, b: Block)
    returns (s': System, step: Step)
    requires c.Valid() && SystemsAlike(c, s, t) && r in s.replicas && r in t.replicas
    requires Standing(c, s.votes, r, s.replicas[r], t.replicas[r])
    requires FetchNext(k, t, t', r, b)
    ensures Next(c, s, s', step) && SystemsAlike(c, s', t')
  {
    hide ReplicaInv, VotesInv, Alike, SystemsAlike, Standing, Next, Live.Fetch, StoreProtocol.Becomes;
    var l := t.replicas[r];
    FetchRefines(c, s.votes, r, s.replicas[r], l, b);
    s' := Idles(c, s, t, t', r, Local(Live.Fetch(l.st, b), l.tail), b);
    step := IdleStep;
    NextIdles(c, s);
  }

  lemma PruneEventRefines(c: Config, s: System, t: StoreSystem, t': StoreSystem, r: nat, staleness: nat,
                          released: set<Block>)
    returns (s': System, step: Step)
    requires c.Valid() && SystemsAlike(c, s, t) && r in s.replicas && r in t.replicas
    requires Standing(c, s.votes, r, s.replicas[r], t.replicas[r])
    requires PruneNext(t, t', r, staleness, released)
    ensures Next(c, s, s', step) && SystemsAlike(c, s', t')
  {
    hide ReplicaInv, VotesInv, Alike, SystemsAlike, Standing, Next, Prunes, StoreProtocol.Becomes;
    var l := t.replicas[r];
    var st' :| Prunes(l.st, l.tail, staleness, released, st')
      && StoreProtocol.Becomes(t, t', r, Local(st', l.tail), false, Genesis);
    PruneRefines(c, s.votes, r, s.replicas[r], l, staleness, released, st');
    s' := Idles(c, s, t, t', r, Local(st', l.tail), Genesis);
    step := IdleStep;
    NextIdles(c, s);
  }

  lemma NextIdles(c: Config, s: System)
    requires c.Valid()
    ensures Next(c, s, s, IdleStep)
  {
  }

  lemma DeliverEventRefines(c: Config, k: Keys, s: System, t: StoreSystem, t': StoreSystem, r: nat, b: Block)
    returns (s': System, step: Step)
    requires c.Valid() && SystemsAlike(c, s, t) && r in s.replicas && r in t.replicas
    requires Standing(c, s.votes, r, s.replicas[r], t.replicas[r])
    requires DeliverNext(c, k, t, t', r, b)
    ensures Next(c, s, s', step) && SystemsAlike(c, s', t')
  {
    var x, l := s.replicas[r], t.replicas[r];
    SameVotes(c, s, t);
    hide ReplicaInv, VotesInv, Alike, SystemsAlike, Standing, Next, NextByReplica, Verified;
    DeliverRefines(c, k, s.votes, r, x, l, b);
    var d := Live.Deliver(l.st, b);
    hide Deliver, Live.Deliver, Deliverable;
    if d.valid {
      var x' := x.(core := Deliver(x.core, b));
      s' := Moves(c, s, t, t', r, x', Local(d.st, l.tail), false, b);
      step := DeliverStep(r, b);
      FoldDeliver(c, s, s', r, b);
    } else {
      s' := Idles(c, s, t, t', r, Local(d.st, l.tail), b);
      step := IdleStep;
      NextIdles(c, s);
    }
  }

  lemma FoldDeliver(c: Config, s: System, s': System, r: nat, b: Block)
    requires c.Valid() && r in s.replicas && Deliverable(c, s.votes, s.replicas[r].core, b)
    requires Protocol.Becomes(s, s', r, s.replicas[r].(core := Deliver(s.replicas[r].core, b)), false, b)
    ensures Next(c, s, s', DeliverStep(r, b))
  {
    hide Deliverable, Deliver;
  }

  lemma ReceiveEventRefines(c: Config, s: System, t: StoreSystem, t': StoreSystem, r: nat, b: Block,
                            enabled: bool, tail': Block)
    returns (s': System, step: Step)
    requires c.Valid() && SystemsAlike(c, s, t) && r in s.replicas && r in t.replicas
    requires Standing(c, s.votes, r, s.replicas[r], t.replicas[r])
    requires ReceiveNext(c, t, t', r, b, enabled, tail')
    ensures Next(c, s, s', step) && SystemsAlike(c, s', t')
  {
    var x, l := s.replicas[r], t.replicas[r];
    hide ReplicaInv, VotesInv, Alike, SystemsAlike, Standing, Next, NextByReplica;
    ReceiveRefines(c, s.votes, r, x, l, b, enabled, tail');
    var u := Live.ReceiveProposal(c.mode, l.st, b, enabled);
    hide ReceiveProposal, Live.ReceiveProposal, TailAfterProposal, Live.TailAfterProposal, TailAfterHqc, Live.TailAfterHqc;
    if u.error == NoError {
      var o := ReceiveProposal(c.mode, x.core, b, enabled);
      var x' := Replica(o.core, TailAfterProposal(o.core, b, tail'));
      s' := Moves(c, s, t, t', r, x', Local(u.st, Live.TailAfterProposal(u.st, b, tail')), u.voted, b);
      step := ReceiveProposalStep(r, b, enabled, tail');
      FoldReceive(c, s, s', r, b, enabled, tail');
    } else {
      StandingAlike(c, s.votes, r, x, l);
      s' := Idles(c, s, t, t', r, l, b);
      step := IdleStep;
      NextIdles(c, s);
    }
  }

  lemma FoldReceive(c: Config, s: System, s': System, r: nat, b: Block, enabled: bool, tail': Block)
    requires c.Valid() && r in s.replicas
    requires var Replica(core, tail) := s.replicas[r];
      var o := ReceiveProposal(c.mode, core, b, enabled);
      && o.error == NoError && TailAfterHqc(core, o.core, tail, tail')
      && Protocol.Becomes(s, s', r, Replica(o.core, TailAfterProposal(o.core, b, tail')), o.voted, b)
    ensures Next(c, s, s', ReceiveProposalStep(r, b, enabled, tail'))
  {
    hide ReceiveProposal, TailAfterHqc, TailAfterProposal;
  }

  lemma CountEventRefines(c: Config, k: Keys, s: System, t: StoreSystem, t': StoreSystem, r: nat, v: Vote,
                          sig: Data, tail': Block)
    returns (s': System, step: Step)
    requires c.Valid() && SystemsAlike(c, s, t) && r in s.replicas && r in t.replicas
    requires Standing(c, s.votes, r, s.replicas[r], t.replicas[r])
    requires CountNext(c, k, t, t', r, v, sig, tail')
    ensures Next(c, s, s', step) && SystemsAlike(c, s', t')
  {
    var x, l := s.replicas[r], t.replicas[r];
    SameVotes(c, s, t);
    hide ReplicaInv, VotesInv, Alike, SystemsAlike, Standing, Next, NextByReplica;
    CountRefines(c, k, s.votes, r, x, l, v, sig, tail');
    var u := Live.ReceiveVote(c.n, c.Majority(), k.hashOf, l.st, v, sig);
    hide ReceiveVote, Live.ReceiveVote, TailAfterHqc, Live.TailAfterHqc;
    if Delivered(l.st.store, v.blk) {
      var o := ReceiveVote(x.core, c.Majority(), v);
      s' := Moves(c, s, t, t', r, Replica(o.core, tail'), Local(u.st, tail'), false, v.blk);
      step := ReceiveVoteStep(r, v, tail');
      FoldCount(c, s, s', r, v, tail');
    } else {
      StandingAlike(c, s.votes, r, x, l);
      s' := Idles(c, s, t, t', r, l, v.blk);
      step := IdleStep;
      NextIdles(c, s);
    }
  }

  lemma FoldCount(c: Config, s: System, s': System, r: nat, v: Vote, tail': Block)
    requires c.Valid() && r in s.replicas && v in s.votes && v.voter < c.n
    requires var Replica(core, tail) := s.replicas[r];
      var o := ReceiveVote(core, c.Majority(), v);
      TailAfterHqc(core, o.core, tail, tail') && Protocol.Becomes(s, s', r, Replica(o.core, tail'), false, v.blk)
    ensures Next(c, s, s', ReceiveVoteStep(r, v, tail'))
  {
    hide ReceiveVote, TailAfterHqc;
  }

  lemma ProposeEventRefines(c: Config, k: Keys, s: System, t: StoreSystem, t': StoreSystem, r: nat,
                            cmds: seq<nat>, enabled: bool, tail': Block)
    returns (s': System, step: Step)
    requires c.Valid() && SystemsAlike(c, s, t) && r in s.replicas && r in t.replicas
    requires Standing(c, s.votes, r, s.replicas[r], t.replicas[r])
    requires ProposeNext(c, k, t, t', r, cmds, enabled, tail')
    ensures Next(c, s, s', step) && SystemsAlike(c, s', t')
  {
    var x, l := s.replicas[r], t.replicas[r];
    hide ReplicaInv, VotesInv, Alike, SystemsAlike, Standing, Next, NextByReplica;
    ProposeRefines(c, k, s.votes, r, x, l, cmds, enabled, tail');
    hide Propose, Live.Propose, TailAfterHqc, Live.TailAfterHqc;
    var b := Live.NewBlock(l.st, l.tail, cmds);
    var o := Propose(c.mode, x.core, x.tail, b.payload, enabled);
    var u := Live.Propose(c.mode, c.n, k.hashOf, l.st, l.tail, cmds, enabled);
    var last := if o.error == NoError then b else tail';
    s' := Moves(c, s, t, t', r, Replica(o.core, last), Local(u.st, last), o.voted, b);
    step := ProposeStep(r, b.payload, enabled, tail');
    FoldPropose(c, s, s', r, b.payload, enabled, tail');
  }

  lemma FoldPropose(c: Config, s: System, s': System, r: nat, payload: Payload, enabled: bool, tail': Block)
    requires c.Valid() && r in s.replicas
    requires var Replica(core, tail) := s.replicas[r];
      var b := NewBlock(core, tail, payload);
      var o := Propose(c.mode, core, tail, payload, enabled);
      && TailAfterHqc(core, o.core, tail, tail')
      && Protocol.Becomes(s, s', r, Replica(o.core, if o.error == NoError then b else tail'), o.voted, b)
    ensures Next(c, s, s', ProposeStep(r, payload, enabled, tail'))
  {
    hide Propose, TailAfterHqc;
  }

  lemma SameVotes(c: Config, s: System, t: StoreSystem)
    requires SystemsAlike(c, s, t)
    ensures s.votes == t.votes
  {
  }

  lemma StandingAlike(c: Config, votes: set<Vote>, r: nat, x: Replica, l: Local)
    requires Standing(c, votes, r, x, l)
    ensures Alike(c, votes, x, l)
  {
  }

  lemma Moves(c: Config, s: System, t: StoreSystem, t': StoreSystem, r: nat, x: Replica, l: Local, voted: bool, b: Block)
    returns (s': System)
    requires SystemsAlike(c, s, t) && r in s.replicas && StoreProtocol.Becomes(t, t', r, l, voted, b)
    requires Alike(c, s.votes, x, l)
    ensures s' == Moved(s, r, x, voted, b) && Protocol.Becomes(s, s', r, x, voted, b) && SystemsAlike(c, s', t')
  {
    s' := Moved(s, r, x, voted, b);
    MovedAlike(c, s, t, t', r, x, l, voted, b);
  }

  lemma Idles(c: Config, s: System, t: StoreSystem, t': StoreSystem, r: nat, l: Local, b: Block) returns (s': System)
    requires SystemsAlike(c, s, t) && r in s.replicas && StoreProtocol.Becomes(t, t', r, l, false, b)
    requires Alike(c, s.votes, s.replicas[r], l)
    ensures s' == s && SystemsAlike(c, s', t')
  {
    s' := s;
    hide Alike, SystemsAlike;
    MovedAlike(c, s, t, t', r, s.replicas[r], l, false, b);
    assert Moved(s, r, s.replicas[r], false, b) == s;
  }

  lemma StepRefines(c: Config, k: Keys, s: System, t: StoreSystem, t': StoreSystem, e: Event)
    returns (s': System, step: Step)
    requires c.Valid() && SystemInv(c, s) && SystemsAlike(c, s, t) && StoreNext(c, k, t, t', e)
    ensures Next(c, s, s', step) && SystemsAlike(c, s', t') && SystemInv(c, s')
  {
    if e.FaultyVoteEvent? {
      s', step := s.(votes := s.votes + {e.v}), FaultyVoteStep(e.v);
      forall q | q in s'.replicas ensures Alike(c, s'.votes, s'.replicas[q], t'.replicas[q]) {
        AlikeMonotone(c, s.votes, s'.votes, s'.replicas[q], t'.replicas[q]);
      }
    } else {
      s', step := EventRefines(c, k, s, t, t', e);
    }
    hide SystemInv, SystemsAlike, Next;
    Theorems.StepKeeps(c, s, s', step);
  }

  /** The unpruned run beside a run. */
  lemma {:induction false} RunRefines(c: Config, k: Keys, run: seq<StoreSystem>, events: seq<Event>)
    returns (ideal: seq<System>, steps: seq<Step>)
    requires c.Valid() && IsStoreRun(c, k, run, events)
    ensures IsRun(c, ideal, steps) && |ideal| == |run|
    ensures forall i :: 0 <= i < |run| ==> SystemsAlike(c, ideal[i], run[i])
    decreases |events|
  {
    hide SystemInv, SystemsAlike, Next, StoreNext;
    if events == [] {
      var s := InitAlike(c, k, run[0]);
      ideal, steps := [s], [];
    } else {
      var n := |events| - 1;
      assert IsStoreRun(c, k, run[..n + 1], events[..n]) by {
        assert forall i {:trigger events[..n][i]} :: 0 <= i < n ==> events[..n][i] == events[i];
      }
      ideal, steps := RunRefines(c, k, run[..n + 1], events[..n]);
      assert events[n] == events[n];
      Theorems.RunKeeps(c, ideal, steps, n);
      assert SystemsAlike(c, ideal[n], run[n]);
      var s', step := StepRefines(c, k, ideal[n], run[n], run[n + 1], events[n]);
      steps := steps + [step];
      ideal := ideal + [s'];
    }
  }
}
