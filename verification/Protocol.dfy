/** The whole system: correct replicas as values, one growing set of votes, and steps that let
    messages be lost, repeated and reordered and let faulty replicas vote for anything. */
module Protocol {
  import opened Blocks
  import opened Quorums
  import opened ReplicaModel
  import opened PaceMakerModel

  datatype Replica = Replica(core: Core, tail: Block)

  /** One entry per correct replica, and every vote ever signed. */
  datatype System = System(replicas: map<nat, Replica>, votes: set<Vote>)

  datatype Step =
    | DeliverStep(r: nat, b: Block)
    | ReceiveProposalStep(r: nat, b: Block, enabled: bool, tail: Block)
    | ReceiveVoteStep(r: nat, v: Vote, tail: Block)
    | ProposeStep(r: nat, payload: Payload, enabled: bool, tail: Block)
    | FaultyVoteStep(v: Vote)
    | IdleStep
  {
    predicate ByReplica() {
      !FaultyVoteStep? && !IdleStep?
    }
  }

  ghost predicate Init(c: Config, s: System) {
    && (forall r :: r in s.replicas <==> c.Correct(r))
    && (forall r :: r in s.replicas ==> s.replicas[r] == Replica(Initial(c.n), Genesis))
    && s.votes == {}
  }

  /** Block b may be delivered: its parents are delivered, its certificate verifies,
      and it extends the block that certificate names. */
  ghost predicate Deliverable(c: Config, votes: set<Vote>, s: Core, b: Block)
    requires c.Valid()
  {
    && b.Node?
    && (forall p :: p in Parents(b) ==> p in s.delivered)
    && Certified(c, votes, b.justify)
    && Extends(b.parent, b.justify)
  }

  /** Replica r ends as x after handling b, having voted for b or not. */
  ghost predicate Becomes(s: System, s': System, r: nat, x: Replica, voted: bool, b: Block) {
    && s'.replicas == s.replicas[r := x]
    && s'.votes == if voted then s.votes + {Vote(r, b)} else s.votes
  }

  ghost predicate NextByReplica(c: Config, s: System, s': System, step: Step)
    requires c.Valid() && step.ByReplica() && step.r in s.replicas
  {
    var r := step.r;
    var Replica(core, tail) := s.replicas[r];
    match step
    case DeliverStep(_, b) =>
      && Deliverable(c, s.votes, core, b)
      && Becomes(s, s', r, Replica(Deliver(core, b), tail), false, b)
    case ReceiveProposalStep(_, b, enabled, tail') =>
      var o := ReceiveProposal(c.mode, core, b, enabled);
      && TailAfterHqc(core, o.core, tail, tail')
      && var last := if o.error == NoError then TailAfterProposal(o.core, b, tail') else tail';
         Becomes(s, s', r, Replica(o.core, last), o.voted, b)
    case ReceiveVoteStep(_, v, tail') =>
      var o := ReceiveVote(core, c.Majority(), v);
      && v in s.votes && v.voter < c.n
      && TailAfterHqc(core, o.core, tail, tail')
      && Becomes(s, s', r, Replica(o.core, tail'), false, v.blk)
    case ProposeStep(_, payload, enabled, tail') =>
      var b := NewBlock(core, tail, payload);
      var o := Propose(c.mode, core, tail, payload, enabled);
      && TailAfterHqc(core, o.core, tail, tail')
      && Becomes(s, s', r, Replica(o.core, if o.error == NoError then b else tail'), o.voted, b)
  }

  ghost predicate Next(c: Config, s: System, s': System, step: Step)
    requires c.Valid()
  {
    if step.FaultyVoteStep? then
      step.v.voter in c.faulty && s' == s.(votes := s.votes + {step.v})
    else if step.IdleStep? then s' == s
    else
      step.r in s.replicas && NextByReplica(c, s, s', step)
  }

  ghost predicate IsRun(c: Config, run: seq<System>, steps: seq<Step>)
    requires c.Valid()
  {
    && |run| == |steps| + 1
    && Init(c, run[0])
    && forall i {:trigger steps[i]} :: 0 <= i < |steps| ==> Next(c, run[i], run[i + 1], steps[i])
  }
}
