/** The results about whole runs. */
module Theorems {
  import opened Blocks
  import opened Quorums
  import opened ReplicaModel
  import opened ReplicaProofs
  import opened Protocol
  import opened Agreement
  import opened Safety
  import opened Signatures
  import opened Certificates

  lemma InitKeeps(c: Config, s: System)
    requires c.Valid() && Init(c, s)
    ensures SystemInv(c, s)
  {
    InitialInv(c.n);
  }

  lemma StepKeeps(c: Config, s: System, s': System, step: Step)
    requires c.Valid() && SystemInv(c, s) && Next(c, s, s', step)
    ensures SystemInv(c, s') && s.votes <= s'.votes
  {
    if step.FaultyVoteStep? {
      AddVote(c, s.votes, step.v);
      forall q | q in s'.replicas ensures ReplicaInv(c, s'.votes, q, s'.replicas[q]) {
        OthersKeep(c, s.votes, s'.votes, q, s.replicas[q]);
      }
    } else if !step.IdleStep? {
      ReplicaStepKeeps(c, s, s', step);
    }
  }

  lemma ReplicaStepKeeps(c: Config, s: System, s': System, step: Step)
    requires c.Valid() && SystemInv(c, s)
    requires step.ByReplica() && step.r in s.replicas && NextByReplica(c, s, s', step)
    ensures SystemInv(c, s') && s.votes <= s'.votes
  {
    var r := step.r;
    var x := s.replicas[r];
    match step
    case DeliverStep(_, b) =>
      DeliverStepKeeps(c, s.votes, r, x, b);
      BecomesKeeps(c, s, s', r, s'.replicas[r], false, b);
    case ReceiveProposalStep(_, b, enabled, tail') =>
      var votes' := ReceiveProposalStepKeeps(c, s.votes, r, x, b, enabled, tail');
      BecomesKeeps(c, s, s', r, s'.replicas[r], ReceiveProposal(c.mode, x.core, b, enabled).voted, b);
    case ReceiveVoteStep(_, v, tail') =>
      ReceiveVoteStepKeeps(c, s.votes, r, x, v, tail');
      BecomesKeeps(c, s, s', r, s'.replicas[r], false, v.blk);
    case ProposeStep(_, payload, enabled, tail') =>
      var votes' := ProposeStepKeeps(c, s.votes, r, x, payload, enabled, tail');
      BecomesKeeps(c, s, s', r, s'.replicas[r], Propose(c.mode, x.core, x.tail, payload, enabled).voted,
        NewBlock(x.core, x.tail, payload));
  }

  lemma RunStep(c: Config, run: seq<System>, steps: seq<Step>, i: nat)
    requires c.Valid() && IsRun(c, run, steps) && i < |steps| && SystemInv(c, run[i])
    ensures SystemInv(c, run[i + 1]) && run[i].votes <= run[i + 1].votes
  {
    hide Init, Next, SystemInv;
    StepKeeps(c, run[i], run[i + 1], steps[i]);
  }

  lemma {:induction false} RunKeeps(c: Config, run: seq<System>, steps: seq<Step>, i: nat)
    requires c.Valid() && IsRun(c, run, steps) && i < |run|
    ensures SystemInv(c, run[i])
  {
    hide Init, Next, SystemInv;
    if i == 0 {
      InitKeeps(c, run[0]);
    } else {
      RunKeeps(c, run, steps, i - 1);
      RunStep(c, run, steps, i - 1);
    }
  }

  lemma {:induction false} VotesGrow(c: Config, run: seq<System>, steps: seq<Step>, i: nat, j: nat)
    requires c.Valid() && IsRun(c, run, steps) && i <= j < |run|
    ensures run[i].votes <= run[j].votes
  {
    hide Init, Next, SystemInv;
    if i < j {
      VotesGrow(c, run, steps, i, j - 1);
      RunKeeps(c, run, steps, j - 1);
      RunStep(c, run, steps, j - 1);
    }
  }

  lemma CommittedMonotone(c: Config, votes: set<Vote>, votes': set<Vote>, b: Block)
    requires c.Valid() && votes <= votes' && Committed(c, votes, b)
    ensures Committed(c, votes', b)
  {
    if b.Node? {
      var t :| Certified(c, votes, t) && Commits(c.mode, t, b);
      CertifiedMonotone(c, votes, votes', t);
    }
  }

  /** Agreement: at any two moments of any run, the executed blocks of any two correct replicas
      lie on one chain, and their do_consensus logs are prefixes of one another. */
  lemma AgreementOverRuns(c: Config, run: seq<System>, steps: seq<Step>, i: nat, j: nat, p: nat, q: nat)
    requires c.Valid() && IsRun(c, run, steps) && i < |run| && j < |run|
    requires c.Correct(p) && c.Correct(q)
    ensures p in run[i].replicas && q in run[j].replicas
    ensures var a, b := run[i].replicas[p].core, run[j].replicas[q].core;
      OnOneChain(a.bExec, b.bExec) && (a.log <= b.log || b.log <= a.log)
  {
    RunKeeps(c, run, steps, i);
    RunKeeps(c, run, steps, j);
    var k := if i <= j then j else i;
    RunKeeps(c, run, steps, k);
    VotesGrow(c, run, steps, i, k);
    VotesGrow(c, run, steps, j, k);
    var a, b := run[i].replicas[p].core, run[j].replicas[q].core;
    CommittedMonotone(c, run[i].votes, run[k].votes, a.bExec);
    CommittedMonotone(c, run[j].votes, run[k].votes, b.bExec);
    CommittedOnOneChain(c, run[k].votes, a.bExec, b.bExec);
    if Extends(a.bExec, b.bExec) {
      PathSplits(a.bExec, b.bExec);
    } else {
      PathSplits(b.bExec, a.bExec);
    }
  }

  lemma ReceiveIsSafe(c: Config, votes: set<Vote>, r: nat, x: Replica, b: Block, enabled: bool)
    requires c.Valid() && VotesInv(c, votes) && ReplicaInv(c, votes, r, x)
    ensures ReceiveProposal(c.mode, x.core, b, enabled).error != SafetyBreach
  {
    if b in x.core.delivered {
      UpdateIsSafe(c, votes, x.core, b);
    }
  }

  /** The "safety breached" throw is dead code: no handler of a correct replica reaches it,
      in any state of any run, for any delivered block or own proposal. */
  lemma BreachUnreachable(c: Config, run: seq<System>, steps: seq<Step>, i: nat, r: nat,
                          b: Block, payload: Payload, enabled: bool)
    requires c.Valid() && IsRun(c, run, steps) && i < |run| && c.Correct(r)
    ensures r in run[i].replicas
    ensures var x := run[i].replicas[r];
      && ReceiveProposal(c.mode, x.core, b, enabled).error != SafetyBreach
      && Propose(c.mode, x.core, x.tail, payload, enabled).error != SafetyBreach
  {
    RunKeeps(c, run, steps, i);
    var x := run[i].replicas[r];
    ReceiveIsSafe(c, run[i].votes, r, x, b, enabled);
    ProposeIsReceive(c, run[i].votes, r, x, payload, enabled);
    var bnew := NewBlock(x.core, x.tail, payload);
    ReceiveIsSafe(c, run[i].votes, r, Replica(Deliver(x.core, bnew), x.tail), bnew, enabled);
  }

  /** The commit log: one do_consensus call per height, ascending without gaps, and the decided
      blocks are exactly genesis and the logged blocks. */
  lemma LogIsGapless(c: Config, run: seq<System>, steps: seq<Step>, i: nat, r: nat, k: nat)
    requires c.Valid() && IsRun(c, run, steps) && i < |run| && c.Correct(r)
    ensures r in run[i].replicas
    ensures var s := run[i].replicas[r].core;
      && (k < |s.log| ==> Height(s.log[k]) == k + 1)
      && (forall b :: b in s.decided <==> b == Genesis || b in s.log)
  {
    RunKeeps(c, run, steps, i);
    var s := run[i].replicas[r].core;
    if k < |s.log| {
      PathHeights(s.bExec, k);
    }
    ExtendsGenesis(s.bExec);
    forall b ensures b in s.decided <==> b == Genesis || b in s.log {
      PathMembers(s.bExec, Genesis, b);
    }
  }

  /** At most one block per height is ever certified, in any run. */
  lemma OneCertificatePerHeight(c: Config, run: seq<System>, steps: seq<Step>, i: nat, j: nat, a: Block, b: Block)
    requires c.Valid() && IsRun(c, run, steps) && i < |run| && j < |run|
    requires Certified(c, run[i].votes, a) && Certified(c, run[j].votes, b) && Height(a) == Height(b)
    ensures a == b
  {
    var k := if i <= j then j else i;
    RunKeeps(c, run, steps, k);
    VotesGrow(c, run, steps, i, k);
    VotesGrow(c, run, steps, j, k);
    CertifiedMonotone(c, run[i].votes, run[k].votes, a);
    CertifiedMonotone(c, run[j].votes, run[k].votes, b);
    OneCertifiedPerHeight(c, run[k].votes, a, b);
  }

  /** The same for certificates as replicas verify them, whenever and wherever they do: equal
      heights mean equal blocks, unless one of the two collides with genesis. */
  lemma OneAcceptedPerHeight(c: Config, run: seq<System>, steps: seq<Step>, i: nat, j: nat, a: Block, b: Block,
                             qa: Cert, qb: Cert, oracle: Oracle, hashOf: BlockHash)
    requires c.Valid() && IsRun(c, run, steps) && i < |run| && j < |run|
    requires InStep(qa) && InStep(qb) && qa.objHash == hashOf(a) && qb.objHash == hashOf(b)
    requires SignaturesAreVotes(c, run[i].votes, a, qa, oracle) && SignaturesAreVotes(c, run[j].votes, b, qb, oracle)
    requires VerifyBlock(qa, hashOf(Genesis), c.n, c.Majority(), oracle) == Accepted
    requires VerifyBlock(qb, hashOf(Genesis), c.n, c.Majority(), oracle) == Accepted
    requires Height(a) == Height(b)
    ensures a == b || PosesAsGenesis(hashOf, a) || PosesAsGenesis(hashOf, b)
  {
    VerifiedIsCertified(c, run[i].votes, a, qa, oracle, hashOf);
    VerifiedIsCertified(c, run[j].votes, b, qb, oracle, hashOf);
    if !PosesAsGenesis(hashOf, a) && !PosesAsGenesis(hashOf, b) {
      OneCertificatePerHeight(c, run, steps, i, j, a, b);
    }
  }

  /** Every block a correct replica proposes extends the block its certificate names and
      is deliverable wherever its parent is. */
  lemma ProposalsExtendJustify(c: Config, run: seq<System>, steps: seq<Step>, i: nat, r: nat, payload: Payload)
    requires c.Valid() && IsRun(c, run, steps) && i < |run| && c.Correct(r)
    ensures r in run[i].replicas
    ensures var x := run[i].replicas[r];
      Extends(x.tail, x.core.hqc) && Deliverable(c, run[i].votes, x.core, NewBlock(x.core, x.tail, payload))
  {
    RunKeeps(c, run, steps, i);
  }

  /** In every reachable state the early returns on decided blocks lose nothing. */
  lemma EarlyReturnsOverRuns(c: Config, run: seq<System>, steps: seq<Step>, i: nat, r: nat, b: Block)
    requires c.Valid() && IsRun(c, run, steps) && i < |run| && c.Correct(r)
    requires r in run[i].replicas && b in run[i].replicas[r].core.delivered
    ensures Update(c.mode, run[i].replicas[r].core, b) == UpdateEager(c.mode, run[i].replicas[r].core, b)
  {
    RunKeeps(c, run, steps, i);
    EarlyReturnsLoseNothing(c.mode, run[i].replicas[r].core, b);
  }

  /** In every reachable state, for every delivered block: update moves hqc, lock and executed block as
      the certificates say, and the vote follows the rule, never failing. */
  lemma ReceiveOverRuns(c: Config, run: seq<System>, steps: seq<Step>, i: nat, r: nat, b: Block, enabled: bool)
    requires c.Valid() && IsRun(c, run, steps) && i < |run| && c.Correct(r)
    requires r in run[i].replicas && b in run[i].replicas[r].core.delivered
    ensures var s := run[i].replicas[r].core;
      var o := ReceiveProposal(c.mode, s, b, enabled);
      var c1 := Justify(b);
      var c2 := if c.mode.ThreeStep? then Justify(c1) else c1;
      var fit := Height(b) > s.vheight && (Height(c1) > Height(o.core.bLock) || Extends(b, o.core.bLock));
      && o.error == NoError && (o.voted <==> fit && enabled)
      && o.core.vheight == (if fit then Height(b) else s.vheight)
      && o.core.hqc == (if Height(c1) > Height(s.hqc) then c1 else s.hqc)
      && o.core.bLock == (if Height(c2) > Height(s.bLock) then c2 else s.bLock)
      && o.core.bExec == (if Height(Justify(c2)) > Height(s.bExec) && Parent(c2) == Justify(c2)
           && (c.mode.ThreeStep? ==> Parent(c1) == c2) then Justify(c2) else s.bExec)
  {
    hide IsRun, Extends;
    RunKeeps(c, run, steps, i);
    var s := run[i].replicas[r].core;
    UpdateIsSafe(c, run[i].votes, s, b);
    UpdateMoves(c.mode, s, b);
    VotesExactly(c.mode, s, b, enabled);
  }
}
