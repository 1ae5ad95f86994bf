/** What moves forward: hqc_tail while hqc stays, and hqc when the votes of the correct replicas come. */
module Progress {
  import opened Blocks
  import opened Quorums
  import opened ReplicaModel
  import opened ReplicaProofs
  import opened PaceMakerModel
  import opened Protocol
  import opened Agreement
  import opened Safety
  import Theorems

  // ---- the tail ----------------------------------------------------------------------------

  /** After a received proposal hqc_tail is that block, if it extends hqc and is higher, and else
      what it was before this callback. */
  lemma ProposalTail(c: Config, s: System, s': System, step: Step)
    requires c.Valid() && SystemInv(c, s) && Next(c, s, s', step) && step.ReceiveProposalStep?
    requires step.b in s.replicas[step.r].core.delivered
    ensures step.r in s'.replicas
    ensures var Replica(core, tail) := s'.replicas[step.r];
      && tail in {step.b, step.tail} && Height(tail) >= Height(step.tail)
      && (Extends(step.b, core.hqc) ==> Height(tail) >= Height(step.b))
      && (Height(step.b) <= Height(step.tail) || !Extends(step.b, core.hqc) ==> tail == step.tail)
  {
    hide VotesInv, ReplicaInv, ReceiveProposal, TailAfterHqc, Extends;
    var x := s.replicas[step.r];
    ReceivedFine(c, s.votes, step.r, x, step.b, step.enabled);
    var o := ReceiveProposal(c.mode, x.core, step.b, step.enabled).core;
    WalkFindsAncestor(step.b, o.hqc);
  }

  lemma ReceivedFine(c: Config, votes: set<Vote>, r: nat, x: Replica, b: Block, enabled: bool)
    requires c.Valid() && VotesInv(c, votes) && ReplicaInv(c, votes, r, x) && b in x.core.delivered
    ensures ReceiveProposal(c.mode, x.core, b, enabled).error == NoError
  {
    UpdateIsSafe(c, votes, x.core, b);
  }

  /** One step: hqc stays or goes up; while it stays the tail does not get lower, and when it moves
      no tail above it is higher than the new choice. */
  ghost predicate TailMoves(x: Replica, x': Replica) {
    if x'.core.hqc == x.core.hqc then Height(x'.tail) >= Height(x.tail)
    else
      && Height(x'.core.hqc) > Height(x.core.hqc)
      && forall t :: t in x'.core.tails && Extends(t, x'.core.hqc) ==> Height(t) <= Height(x'.tail)
  }

  lemma StepTail(c: Config, s: System, s': System, step: Step, r: nat)
    requires c.Valid() && SystemInv(c, s) && Next(c, s, s', step) && r in s.replicas
    ensures r in s'.replicas && TailMoves(s.replicas[r], s'.replicas[r])
  {
    hide VotesInv, ReplicaInv, ReceiveProposal, Propose, Extends;
    if step.ByReplica() && step.r == r {
      var x := s.replicas[r];
      match step
      case DeliverStep(_, b) =>
      case ReceiveProposalStep(_, b, enabled, _) =>
        ReceiveTail(c, s.votes, r, x, b, enabled);
      case ReceiveVoteStep(_, v, _) =>
      case ProposeStep(_, payload, enabled, _) =>
        ProposeTail(c, s.votes, r, x, payload, enabled);
    }
  }

  lemma ReceiveTail(c: Config, votes: set<Vote>, r: nat, x: Replica, b: Block, enabled: bool)
    requires c.Valid() && VotesInv(c, votes) && ReplicaInv(c, votes, r, x)
    ensures var o := ReceiveProposal(c.mode, x.core, b, enabled);
      o.core.voted == x.core.voted && (o.core.hqc == x.core.hqc || Height(o.core.hqc) > Height(x.core.hqc))
  {
    if b in x.core.delivered {
      UpdateKeeps(c.mode, x.core, b);
    }
  }

  /** A replica's own proposal leaves hqc and is one higher than the tail. */
  lemma ProposeTail(c: Config, votes: set<Vote>, r: nat, x: Replica, payload: Payload, enabled: bool)
    requires c.Valid() && VotesInv(c, votes) && ReplicaInv(c, votes, r, x)
    ensures var o := Propose(c.mode, x.core, x.tail, payload, enabled);
      o.core.voted == x.core.voted && o.core.hqc == x.core.hqc && Height(NewBlock(x.core, x.tail, payload)) == Height(x.tail) + 1
  {
    var b := NewBlock(x.core, x.tail, payload);
    ProposeIsReceive(c, votes, r, x, payload, enabled);
    UpdateKeeps(c.mode, Deliver(x.core, b), b);
  }

  /** Over runs hqc is at the same or a greater height later on, and at the same height the same. */
  lemma {:induction false} HqcRises(c: Config, run: seq<System>, steps: seq<Step>, i: nat, j: nat, r: nat)
    requires c.Valid() && IsRun(c, run, steps) && i <= j < |run| && c.Correct(r)
    ensures r in run[i].replicas && r in run[j].replicas
    ensures var a, b := run[i].replicas[r], run[j].replicas[r];
      && Height(a.core.hqc) <= Height(b.core.hqc)
      && (Height(a.core.hqc) == Height(b.core.hqc) ==> a.core.hqc == b.core.hqc && Height(a.tail) <= Height(b.tail))
  {
    hide Init, Next, ReplicaInv, VotesInv;
    Theorems.RunKeeps(c, run, steps, i);
    if i < j {
      HqcRises(c, run, steps, i, j - 1, r);
      Theorems.RunKeeps(c, run, steps, j - 1);
      Theorems.RunKeeps(c, run, steps, j);
      StepTail(c, run[j - 1], run[j], steps[j - 1], r);
    }
  }

  /** While hqc is the same, hqc_tail never gets lower. */
  lemma TailNeverLower(c: Config, run: seq<System>, steps: seq<Step>, i: nat, j: nat, r: nat)
    requires c.Valid() && IsRun(c, run, steps) && i <= j < |run| && c.Correct(r)
    requires r in run[i].replicas && r in run[j].replicas && run[i].replicas[r].core.hqc == run[j].replicas[r].core.hqc
    ensures Height(run[i].replicas[r].tail) <= Height(run[j].replicas[r].tail)
  {
    HqcRises(c, run, steps, i, j, r);
  }

  // ---- counting votes ----------------------------------------------------------------------

  /** No more than a majority of votes is counted for a block, and a block with as many is no
      higher than hqc. */
  ghost predicate QuorumsRaise(majority: nat, s: Core) {
    forall b: Block :: (b.Node? ==> |VotedFor(s, b)| <= majority) && (|VotedFor(s, b)| >= majority ==> Height(b) <= Height(s.hqc))
  }

  lemma VoteRaises(s: Core, majority: nat, v: Vote)
    requires QuorumsRaise(majority, s)
    ensures QuorumsRaise(majority, ReceiveVote(s, majority, v).core)
    ensures Height(s.hqc) <= Height(ReceiveVote(s, majority, v).core.hqc)
  {
    var t := ReceiveVote(s, majority, v).core;
    forall b | b != v.blk ensures VotedFor(t, b) == VotedFor(s, b) {}
  }

  lemma SameVotesRaise(majority: nat, s: Core, s': Core)
    requires QuorumsRaise(majority, s) && s'.voted == s.voted && Height(s.hqc) <= Height(s'.hqc)
    ensures QuorumsRaise(majority, s')
  {
    assert forall b :: VotedFor(s', b) == VotedFor(s, b);
  }

  lemma StepRaises(c: Config, s: System, s': System, step: Step, r: nat)
    requires c.Valid() && SystemInv(c, s) && Next(c, s, s', step) && r in s.replicas
    requires QuorumsRaise(c.Majority(), s.replicas[r].core)
    ensures r in s'.replicas && QuorumsRaise(c.Majority(), s'.replicas[r].core)
  {
    hide VotesInv, ReplicaInv, ReceiveProposal, Propose, QuorumsRaise, ReceiveVote;
    if step.ByReplica() && step.r == r {
      var x := s.replicas[r];
      match step
      case DeliverStep(_, b) =>
        SameVotesRaise(c.Majority(), x.core, Deliver(x.core, b));
      case ReceiveProposalStep(_, b, enabled, _) =>
        ReceiveTail(c, s.votes, r, x, b, enabled);
        SameVotesRaise(c.Majority(), x.core, s'.replicas[r].core);
      case ReceiveVoteStep(_, v, _) =>
        VoteRaises(x.core, c.Majority(), v);
      case ProposeStep(_, payload, enabled, _) =>
        ProposeTail(c, s.votes, r, x, payload, enabled);
        SameVotesRaise(c.Majority(), x.core, s'.replicas[r].core);
    }
  }

  /** In every reachable state. */
  lemma {:induction false} QuorumsRaiseOverRuns(c: Config, run: seq<System>, steps: seq<Step>, i: nat, r: nat)
    requires c.Valid() && IsRun(c, run, steps) && i < |run| && c.Correct(r)
    ensures r in run[i].replicas && QuorumsRaise(c.Majority(), run[i].replicas[r].core)
  {
    hide Next, ReplicaInv, VotesInv, QuorumsRaise;
    if i == 0 {
      InitialRaises(c);
    } else {
      QuorumsRaiseOverRuns(c, run, steps, i - 1, r);
      Theorems.RunKeeps(c, run, steps, i - 1);
      StepRaises(c, run[i - 1], run[i], steps[i - 1], r);
    }
  }

  lemma InitialRaises(c: Config)
    requires c.Valid()
    ensures QuorumsRaise(c.Majority(), Initial(c.n))
  {
    assert forall b: Block :: VotedFor(Initial(c.n), b) == if b.Genesis? then AllReplicas(c.n) else {};
  }

  /** on_receive_vote for one vote after the other. */
  function CountAll(s: Core, majority: nat, votes: seq<Vote>): Core {
    if votes == [] then s
    else ReceiveVote(CountAll(s, majority, votes[..|votes| - 1]), majority, votes[|votes| - 1]).core
  }

  /** Either the quorum is full, or the voters for b among the votes are all counted. */
  lemma {:induction false} CountedSoFar(s: Core, majority: nat, votes: seq<Vote>, b: Block)
    requires QuorumsRaise(majority, s) && b in s.delivered
    ensures var t := CountAll(s, majority, votes);
      && QuorumsRaise(majority, t) && t.delivered == s.delivered && Height(s.hqc) <= Height(t.hqc)
      && (|VotedFor(t, b)| >= majority || forall v :: v in votes && v.blk == b ==> v.voter in VotedFor(t, b))
  {
    if votes != [] {
      var earlier, last := votes[..|votes| - 1], votes[|votes| - 1];
      assert votes == earlier + [last];
      CountedSoFar(s, majority, earlier, b);
      hide QuorumsRaise;
      var t := CountAll(s, majority, earlier);
      VoteRaises(t, majority, last);
      CountedOne(t, majority, last, b);
    }
  }

  lemma CountedOne(s: Core, majority: nat, v: Vote, b: Block)
    requires b in s.delivered
    ensures var t := ReceiveVote(s, majority, v).core;
      && t.delivered == s.delivered
      && (|VotedFor(s, b)| >= majority ==> |VotedFor(t, b)| >= majority)
      && VotedFor(s, b) <= VotedFor(t, b)
      && (v.blk == b ==> v.voter in VotedFor(t, b) || |VotedFor(t, b)| >= majority)
  {
  }

  /** When the votes of all correct replicas for a delivered block have come, in any order, repeated
      or among others, hqc is at least as high as that block. */
  lemma CorrectVotesRaise(c: Config, run: seq<System>, steps: seq<Step>, i: nat, r: nat, votes: seq<Vote>, b: Block)
    requires c.Valid() && IsRun(c, run, steps) && i < |run| && c.Correct(r)
    requires r in run[i].replicas && b in run[i].replicas[r].core.delivered
    requires forall q :: c.Correct(q) ==> Vote(q, b) in votes
    ensures Height(b) <= Height(CountAll(run[i].replicas[r].core, c.Majority(), votes).hqc)
  {
    hide IsRun, QuorumsRaise;
    QuorumsRaiseOverRuns(c, run, steps, i, r);
    var s := run[i].replicas[r].core;
    var t := CountAll(s, c.Majority(), votes);
    CountedSoFar(s, c.Majority(), votes, b);
    if |VotedFor(t, b)| < c.Majority() {
      forall q | q in AllReplicas(c.n) - c.faulty ensures q in VotedFor(t, b) {
        assert c.Correct(q) && Vote(q, b).voter == q;
      }
      SubsetSize(AllReplicas(c.n) - c.faulty, VotedFor(t, b));
      CorrectAreQuorum(c);
    }
    RaisedBy(c.Majority(), t, b);
  }

  lemma RaisedBy(majority: nat, s: Core, b: Block)
    requires QuorumsRaise(majority, s) && |VotedFor(s, b)| >= majority
    ensures Height(b) <= Height(s.hqc)
  {
  }
}
