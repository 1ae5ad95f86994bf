/** The results about whole runs of replicas that prune, release and redeliver. */
module StoreTheorems {
  import opened Blocks
  import opened Quorums
  import opened ReplicaModel
  import opened ReplicaProofs
  import opened Protocol
  import opened Agreement
  import opened Safety
  import opened BlockStore
  import opened Mirror
  import opened MirrorSteps
  import opened StoreProtocol
  import opened Refinement
  import opened Options
  import Progress
  import StoreProofs
  import Theorems
  import Live = StoreModel

  /** Beside every correct replica of a run stands one that never pruned and keeps all invariants. */
  lemma Unpruned(c: Config, k: Keys, run: seq<StoreSystem>, events: seq<Event>, i: nat, r: nat) returns (x: Replica)
    requires c.Valid() && IsStoreRun(c, k, run, events) && i < |run| && c.Correct(r)
    ensures r in run[i].replicas && Standing(c, run[i].votes, r, x, run[i].replicas[r])
  {
    var ideal, steps := RunRefines(c, k, run, events);
    Theorems.RunKeeps(c, ideal, steps, i);
    assert SystemsAlike(c, ideal[i], run[i]);
    x := ideal[i].replicas[r];
    hide ReplicaInv, Alike, VotesInv, IsRun;
  }

  /** Agreement, pruning or not: at any two moments the executed blocks of any two correct
      replicas lie on one chain, and one's log is a prefix of the other's. */
  lemma AgreementWithPruning(c: Config, k: Keys, run: seq<StoreSystem>, events: seq<Event>, i: nat, j: nat, p: nat, q: nat)
    requires c.Valid() && IsStoreRun(c, k, run, events) && i < |run| && j < |run|
    requires c.Correct(p) && c.Correct(q)
    ensures p in run[i].replicas && q in run[j].replicas
    ensures var a, b := run[i].replicas[p].st, run[j].replicas[q].st;
      OnOneChain(a.bExec, b.bExec) && (a.log <= b.log || b.log <= a.log)
  {
    var ideal, steps := RunRefines(c, k, run, events);
    Theorems.AgreementOverRuns(c, ideal, steps, i, j, p, q);
    assert SystemsAlike(c, ideal[i], run[i]) && SystemsAlike(c, ideal[j], run[j]);
    AlikeFields(c, ideal[i].votes, ideal[i].replicas[p], run[i].replicas[p]);
    AlikeFields(c, ideal[j].votes, ideal[j].replicas[q], run[j].replicas[q]);
    hide Alike, IsRun, Extends;
  }

  lemma AlikeFields(c: Config, votes: set<Vote>, x: Replica, l: Local)
    requires Alike(c, votes, x, l)
    ensures x.core.bExec == l.st.bExec && x.core.log == l.st.log
  {
  }

  /** While hqc is the same, hqc_tail never gets lower, pruning or not. */
  lemma TailNeverLowerWithPruning(c: Config, k: Keys, run: seq<StoreSystem>, events: seq<Event>, i: nat, j: nat, r: nat)
    requires c.Valid() && IsStoreRun(c, k, run, events) && i <= j < |run| && c.Correct(r)
    ensures r in run[i].replicas && r in run[j].replicas
    ensures var a, b := run[i].replicas[r], run[j].replicas[r];
      && Height(a.st.hqc) <= Height(b.st.hqc)
      && (a.st.hqc == b.st.hqc ==> Height(a.tail) <= Height(b.tail))
  {
    var ideal, steps := RunRefines(c, k, run, events);
    Progress.HqcRises(c, ideal, steps, i, j, r);
    assert SystemsAlike(c, ideal[i], run[i]) && SystemsAlike(c, ideal[j], run[j]);
    AlikeTails(c, ideal[i].votes, ideal[i].replicas[r], run[i].replicas[r]);
    AlikeTails(c, ideal[j].votes, ideal[j].replicas[r], run[j].replicas[r]);
    hide Alike, IsRun;
  }

  lemma AlikeTails(c: Config, votes: set<Vote>, x: Replica, l: Local)
    requires Alike(c, votes, x, l)
    ensures x.core.hqc == l.st.hqc && x.tail == l.tail
  {
  }

  // ---- receiving a proposal, exactly -------------------------------------------------------

  /** What the two replicas make of a proposal is the same. */
  ghost predicate ActsAlike(mode: Mode, s: Core, st: State, b: Block, enabled: bool) {
    var o, u := ReceiveProposal(mode, s, b, enabled), Live.ReceiveProposal(mode, st, b, enabled);
    u.error == o.error && u.voted == o.voted && Mirrors(o.core, u.st)
  }

  /** A block with a high certificate, after its update: its walks are still complete. */
  lemma HighWalks(c: Config, votes: set<Vote>, s: Core, st: State, s': Core, st': State, b: Block)
    requires Backed(c, votes, s') && Mirrors(s', st') && Delivered(st'.store, b) && Certified(c, votes, Justify(b))
    requires Height(Justify(b)) >= Height(s'.bExec)
    ensures !Live.MeetsEmptied(st', b)
  {
    CertifiedIsAbove(c, votes, s', Justify(b));
    MirrorHeights(s', st');
    JustifyBelow(s'.delivered, b);
    ExtendsTransitive(b, Justify(b), s'.bExec);
    DescendAbove(s', st', b, HeightOf(st'.store, st'.hqc));
    DescendAbove(s', st', b, HeightOf(st'.store, st'.bLock));
  }

  lemma StumblesExactly(c: Config, votes: set<Vote>, s: Core, st: State, b: Block, enabled: bool)
    requires Backed(c, votes, s) && Mirrors(s, st) && Delivered(st.store, b) && !Live.CommitsBelow(c.mode, st, b)
    ensures if Live.Stumbles(st, b) then Live.ReceiveProposal(c.mode, st, b, enabled).error == OutOfBounds
      else ActsAlike(c.mode, s, st, b, enabled) && Live.ReceiveProposal(c.mode, st, b, enabled).error == NoError
  {
    assert b in s.delivered && s.hqc == st.hqc;
    if Height(Justify(b)) > Height(s.bExec) {
      HighStumbles(c, votes, s, st, b, enabled);
    } else {
      LowStumbles(c, votes, s, st, b, enabled);
    }
  }

  lemma LowStumbles(c: Config, votes: set<Vote>, s: Core, st: State, b: Block, enabled: bool)
    requires Backed(c, votes, s) && Mirrors(s, st) && Delivered(st.store, b) && !Live.CommitsBelow(c.mode, st, b)
    requires b in s.delivered && Height(Justify(b)) <= Height(s.bExec)
    ensures if Live.Stumbles(st, b) then Live.ReceiveProposal(c.mode, st, b, enabled).error == OutOfBounds
      else ActsAlike(c.mode, s, st, b, enabled) && Live.ReceiveProposal(c.mode, st, b, enabled).error == NoError
  {
    LowCertificate(c, votes, s, b);
    UpdateBelow(c.mode, s, st, b);
    CastVoteExactly(c, votes, s, st, b, enabled);
    CastVoteErrors(s, b, enabled);
    LowHqc(s, st, b);
    hide Mirrors, Backed, Update, Live.Update, CastVote, Live.CastVote, Live.CommitsBelow, Live.MeetsEmptied, Live.TailsCut,
      Live.UndecidedRef, HeightOf, Height;
  }

  lemma LowHqc(s: Core, st: State, b: Block)
    requires CoreInv(s) && Mirrors(s, st) && Height(Justify(b)) <= Height(s.bExec)
    ensures var r := Live.UndecidedRef(st.store, b);
      r.Some? ==> HeightOf(st.store, r.value) <= HeightOf(st.store, st.hqc)
  {
    MirrorHeights(s, st);
    if Live.UndecidedRef(st.store, b).Some? {
      RefBelow(s, st, b);
    }
  }

  lemma HighStumbles(c: Config, votes: set<Vote>, s: Core, st: State, b: Block, enabled: bool)
    requires Backed(c, votes, s) && Mirrors(s, st) && Delivered(st.store, b) && !Live.CommitsBelow(c.mode, st, b)
    requires b in s.delivered && s.hqc == st.hqc && Height(Justify(b)) > Height(s.bExec)
    ensures if Live.Stumbles(st, b) then Live.ReceiveProposal(c.mode, st, b, enabled).error == OutOfBounds
      else ActsAlike(c.mode, s, st, b, enabled) && Live.ReceiveProposal(c.mode, st, b, enabled).error == NoError
  {
    HighCertificate(c, votes, s, b);
    HighWalks(c, votes, s, st, s, st, b);
    HighHqc(c, votes, s, st, b);
    UpdateExactly(c, votes, s, st, b);
    var o, u := Update(c.mode, s, b), Live.Update(c.mode, st, b);
    if u.error == NoError {
      HighUpdate(c, votes, s, st, b);
      HighWalks(c, votes, s, st, o.core, u.st, b);
      CastVoteExactly(c, votes, o.core, u.st, b, enabled);
      CastVoteErrors(o.core, b, enabled);
    }
    hide Mirrors, Backed, Update, Live.Update, CastVote, Live.CastVote, Live.CommitsBelow, Live.MeetsEmptied, Live.TailsCut,
      Live.UndecidedRef, HeightOf, Height, Extends, Certified, Above;
  }

  /** When b brings a new hqc, and which tails are then walked. */
  lemma HighHqc(c: Config, votes: set<Vote>, s: Core, st: State, b: Block)
    requires Backed(c, votes, s) && Mirrors(s, st) && Delivered(st.store, b) && b in s.delivered
    requires Height(Justify(b)) > Height(s.bExec)
    ensures Live.UndecidedRef(st.store, b) == Some(Justify(b))
    ensures HeightOf(st.store, Justify(b)) > HeightOf(st.store, st.hqc) <==> Update(c.mode, s, b).core.hqc != s.hqc
    ensures Update(c.mode, s, b).core.hqc != s.hqc ==> Update(c.mode, s, b).core.hqc == Justify(b)
    ensures forall qc :: Live.TailsCut(st.(hqc := Justify(b), hqcQc := qc)) <==> Live.TailsCut(st.(hqc := Justify(b)))
  {
    HighCertificate(c, votes, s, b);
    RefAbove(c, votes, s, st, b);
    UpdateSplits(c.mode, s, st, b);
    FromHqcKeepsHqc(c.mode, UpdateHqc(s, Justify(b)), Justify(b));
    assert EntryOk(st.store, Justify(b)) && EntryOk(st.store, st.hqc);
  }

  lemma FromHqcKeepsHqc(mode: Mode, s: Core, c1: Block)
    ensures Mirror.FromHqc(mode, s, c1).core.hqc == s.hqc
  {
  }

  lemma HighUpdate(c: Config, votes: set<Vote>, s: Core, st: State, b: Block)
    requires Backed(c, votes, s) && Mirrors(s, st) && Delivered(st.store, b) && b in s.delivered
    requires Height(Justify(b)) > Height(s.bExec)
    ensures var o := Update(c.mode, s, b).core;
      && Backed(c, votes, o) && Height(Justify(b)) >= Height(o.bExec)
      && Delivered(Live.Update(c.mode, st, b).st.store, b)
  {
    UpdateIsSafe(c, votes, s, b);
    UpdateKeeps(c.mode, s, b);
    JustifyBelow(s.delivered, b);
    JustifyBelow(s.delivered, Justify(b));
    JustifyBelow(s.delivered, Justify(Justify(b)));
    StoreProofs.UpdateKeeps(c.mode, st, b);
  }

  /** In every reachable state, for every delivered block: a replica that pruned and released
      throws "safety breached" exactly when update would commit a block no higher than the executed
      one, reads out of bounds exactly when a walk meets an emptied list, and otherwise does what
      the replica beside it does that never pruned. That one does not throw. */
  lemma ReceiveExactly(c: Config, k: Keys, run: seq<StoreSystem>, events: seq<Event>, i: nat, r: nat, b: Block, enabled: bool)
    returns (x: Replica)
    requires c.Valid() && IsStoreRun(c, k, run, events) && i < |run| && c.Correct(r)
    requires r in run[i].replicas && Delivered(run[i].replicas[r].st.store, b)
    ensures Standing(c, run[i].votes, r, x, run[i].replicas[r])
    ensures var st := run[i].replicas[r].st;
      var o, u := ReceiveProposal(c.mode, x.core, b, enabled), Live.ReceiveProposal(c.mode, st, b, enabled);
      && o.error == NoError
      && (u.error == SafetyBreach <==> Live.CommitsBelow(c.mode, st, b))
      && (u.error == OutOfBounds <==> !Live.CommitsBelow(c.mode, st, b) && Live.Stumbles(st, b))
      && (ActsAlike(c.mode, x.core, st, b, enabled) <==> !Live.CommitsBelow(c.mode, st, b) && !Live.Stumbles(st, b))
  {
    x := Unpruned(c, k, run, events, i, r);
    hide ReplicaInv, IsStoreRun, VotesInv;
    ReceiveCases(c, run[i].votes, r, x, run[i].replicas[r], b, enabled);
  }

  lemma ReceiveCases(c: Config, votes: set<Vote>, r: nat, x: Replica, l: Local, b: Block, enabled: bool)
    requires Standing(c, votes, r, x, l) && Delivered(l.st.store, b)
    ensures var o, u := ReceiveProposal(c.mode, x.core, b, enabled), Live.ReceiveProposal(c.mode, l.st, b, enabled);
      && o.error == NoError
      && (u.error == SafetyBreach <==> Live.CommitsBelow(c.mode, l.st, b))
      && (u.error == OutOfBounds <==> !Live.CommitsBelow(c.mode, l.st, b) && Live.Stumbles(l.st, b))
      && (ActsAlike(c.mode, x.core, l.st, b, enabled) <==> !Live.CommitsBelow(c.mode, l.st, b) && !Live.Stumbles(l.st, b))
  {
    InvBacks(c, votes, r, x);
    assert b in x.core.delivered;
    UpdateIsSafe(c, votes, x.core, b);
    CastVoteErrors(Update(c.mode, x.core, b).core, b, enabled);
    if Live.CommitsBelow(c.mode, l.st, b) {
      UpdateExactly(c, votes, x.core, l.st, b);
    } else {
      StumblesExactly(c, votes, x.core, l.st, b, enabled);
    }
    hide Mirrors, Backed, ReplicaInv, VotesInv, Update, Live.Update, CastVote, Live.CastVote, Live.CommitsBelow, Live.Stumbles;
  }

  /** Where receiving does not fail, a replica that prunes votes by the same rule as one that does not:
      for a block above its last vote that certifies one above its lock or extends its lock. */
  lemma VotesExactlyWithPruning(c: Config, k: Keys, run: seq<StoreSystem>, events: seq<Event>, i: nat, r: nat, b: Block,
                                enabled: bool)
    requires c.Valid() && IsStoreRun(c, k, run, events) && i < |run| && c.Correct(r)
    requires r in run[i].replicas && Delivered(run[i].replicas[r].st.store, b)
    ensures var st := run[i].replicas[r].st;
      var u := Live.ReceiveProposal(c.mode, st, b, enabled);
      var fit := Height(b) > st.vheight && (Height(Justify(b)) > Height(u.st.bLock) || Extends(b, u.st.bLock));
      if Live.CommitsBelow(c.mode, st, b) || Live.Stumbles(st, b) then !u.voted
      else (u.voted <==> fit && enabled) && u.st.vheight == (if fit then Height(b) else st.vheight)
  {
    var x := ReceiveExactly(c, k, run, events, i, r, b, enabled);
    var st := run[i].replicas[r].st;
    StoreVotes(c.mode, st, b, enabled);
    if !Live.CommitsBelow(c.mode, st, b) && !Live.Stumbles(st, b) {
      VotesLikeUnpruned(c, run[i].votes, r, x, run[i].replicas[r], b, enabled);
    }
    hide IsStoreRun, Standing, ActsAlike, Live.ReceiveProposal, Live.CommitsBelow, Live.Stumbles, ReceiveProposal;
  }

  lemma VotesLikeUnpruned(c: Config, votes: set<Vote>, r: nat, x: Replica, l: Local, b: Block, enabled: bool)
    requires Standing(c, votes, r, x, l) && Delivered(l.st.store, b) && ActsAlike(c.mode, x.core, l.st, b, enabled)
    requires ReceiveProposal(c.mode, x.core, b, enabled).error == NoError
    ensures var u := Live.ReceiveProposal(c.mode, l.st, b, enabled);
      var fit := Height(b) > l.st.vheight && (Height(Justify(b)) > Height(u.st.bLock) || Extends(b, u.st.bLock));
      (u.voted <==> fit && enabled) && u.st.vheight == if fit then Height(b) else l.st.vheight
  {
    hide ReceiveProposal, Live.ReceiveProposal, Extends;
    assert b in x.core.delivered;
    VotesExactly(c.mode, x.core, b, enabled);
  }

  lemma StoreVotes(mode: Mode, st: State, b: Block, enabled: bool)
    ensures var u := Live.ReceiveProposal(mode, st, b, enabled);
      u.voted ==> u.error == NoError
  {
    hide Live.Update;
    UpdateNeverVotes(mode, st, b);
  }

  lemma UpdateNeverVotes(mode: Mode, st: State, b: Block)
    ensures !Live.Update(mode, st, b).voted
  {
  }

  /** The guard: a certificate for a block above the executed one rules both out, up to the walks
      from the tails when it brings a new hqc. */
  lemma HighCertificateIsSafe(c: Config, k: Keys, run: seq<StoreSystem>, events: seq<Event>, i: nat, r: nat, b: Block)
    requires c.Valid() && IsStoreRun(c, k, run, events) && i < |run| && c.Correct(r)
    requires r in run[i].replicas && Delivered(run[i].replicas[r].st.store, b)
    requires Height(Justify(b)) > Height(run[i].replicas[r].st.bExec)
    ensures var st := run[i].replicas[r].st;
      !Live.CommitsBelow(c.mode, st, b) && !Live.MeetsEmptied(st, b)
  {
    var x := Unpruned(c, k, run, events, i, r);
    hide IsStoreRun;
    HighIsSafe(c, run[i].votes, r, x, run[i].replicas[r], b);
  }

  lemma HighIsSafe(c: Config, votes: set<Vote>, r: nat, x: Replica, l: Local, b: Block)
    requires Standing(c, votes, r, x, l) && Delivered(l.st.store, b) && Height(Justify(b)) > Height(l.st.bExec)
    ensures !Live.CommitsBelow(c.mode, l.st, b) && !Live.MeetsEmptied(l.st, b)
  {
    InvBacks(c, votes, r, x);
    assert b in x.core.delivered && x.core.bExec == l.st.bExec;
    TargetAbove(c, votes, x.core, l.st, b);
    HighCertificate(c, votes, x.core, b);
    HighWalks(c, votes, x.core, l.st, x.core, l.st, b);
  }

  /** And those walks are complete when every tail above that block extends the executed one: then
      receiving is what it is without pruning. */
  lemma HighTailsAreSafe(c: Config, k: Keys, run: seq<StoreSystem>, events: seq<Event>, i: nat, r: nat, b: Block, enabled: bool)
    returns (x: Replica)
    requires c.Valid() && IsStoreRun(c, k, run, events) && i < |run| && c.Correct(r)
    requires r in run[i].replicas && Delivered(run[i].replicas[r].st.store, b)
    requires var st := run[i].replicas[r].st;
      && Height(Justify(b)) > Height(st.bExec)
      && forall t :: t in st.tails && HeightOf(st.store, t) > Height(Justify(b)) ==> Delivered(st.store, t) && Extends(t, st.bExec)
    ensures var st := run[i].replicas[r].st;
      && Live.ReceiveProposal(c.mode, st, b, enabled).error == NoError
      && Standing(c, run[i].votes, r, x, run[i].replicas[r]) && ActsAlike(c.mode, x.core, st, b, enabled)
  {
    hide IsStoreRun, Standing, Live.ReceiveProposal, Live.CommitsBelow, Live.MeetsEmptied, Mirrors;
    x := ReceiveExactly(c, k, run, events, i, r, b, enabled);
    HighIsSafe(c, run[i].votes, r, x, run[i].replicas[r], b);
    HighTails(c, run[i].votes, r, x, run[i].replicas[r], b);
  }

  lemma HighTails(c: Config, votes: set<Vote>, r: nat, x: Replica, l: Local, b: Block)
    requires Standing(c, votes, r, x, l) && Delivered(l.st.store, b) && Height(Justify(b)) > Height(l.st.bExec)
    requires forall t :: t in l.st.tails && HeightOf(l.st.store, t) > Height(Justify(b)) ==>
      Delivered(l.st.store, t) && Extends(t, l.st.bExec)
    ensures var q := Live.UndecidedRef(l.st.store, b);
      q.Some? ==> !Live.TailsCut(l.st.(hqc := q.value))
  {
    var st := l.st;
    InvBacks(c, votes, r, x);
    assert b in x.core.delivered && x.core.bExec == st.bExec;
    HighCertificate(c, votes, x.core, b);
    HighHqc(c, votes, x.core, st, b);
    RefAbove(c, votes, x.core, st, b);
    assert EntryOk(st.store, Justify(b));
    forall t | t in st.tails ensures Descend(st.store, t, Height(Justify(b))).Some? {
      if HeightOf(st.store, t) > Height(Justify(b)) {
        DescendAbove(x.core, st, t, Height(Justify(b)));
      }
    }
  }

  /** A replica's own proposals never throw for pruning's sake. */
  lemma OwnProposalsActAlike(c: Config, k: Keys, run: seq<StoreSystem>, events: seq<Event>, i: nat, r: nat,
                             cmds: seq<nat>, enabled: bool) returns (x: Replica)
    requires c.Valid() && IsStoreRun(c, k, run, events) && i < |run| && c.Correct(r)
    ensures r in run[i].replicas && Standing(c, run[i].votes, r, x, run[i].replicas[r])
    ensures var Local(st, tail) := run[i].replicas[r];
      var b := Live.NewBlock(st, tail, cmds);
      var o := Propose(c.mode, x.core, x.tail, b.payload, enabled);
      var u := Live.Propose(c.mode, c.n, k.hashOf, st, tail, cmds, enabled);
      && b == NewBlock(x.core, x.tail, b.payload) && u.error == o.error && (u.error == NoError || u.error == NotHigher)
      && u.voted == o.voted && Mirrors(o.core, u.st)
  {
    x := Unpruned(c, k, run, events, i, r);
    hide IsStoreRun, Propose, Live.Propose;
    var l := run[i].replicas[r];
    InvBacks(c, run[i].votes, r, x);
    ProposeExactly(c, run[i].votes, k.hashOf, x.core, l.st, l.tail, cmds, enabled);
  }
}
