/** The inductive invariant of the system, and agreement over every run. */
module Safety {
  import opened Blocks
  import opened Quorums
  import opened ReplicaModel
  import opened ReplicaProofs
  import opened PaceMakerModel
  import opened Protocol
  import opened Agreement

  /** Delivered certificates verified; hqc and the lock are certified; the executed block is committed. */
  ghost predicate CertificatesHold(c: Config, votes: set<Vote>, s: Core)
    requires c.Valid()
  {
    && (forall b :: b in s.delivered && b.Node? ==> Certified(c, votes, b.justify))
    && Certified(c, votes, s.hqc)
    && Certified(c, votes, s.bLock)
    && Committed(c, votes, s.bExec)
  }

  /** What replica r remembers of its own votes. */
  ghost predicate VotesRemembered(c: Config, votes: set<Vote>, r: nat, s: Core) {
    forall v :: v in votes && v.voter == r ==>
      && v.blk in s.delivered
      && Height(v.blk) <= s.vheight
      && Height(LockTarget(c.mode, v.blk)) <= Height(s.bLock)
  }

  /** Votes collected for a block other than genesis were really cast. */
  ghost predicate CollectedAreCast(c: Config, votes: set<Vote>, s: Core) {
    forall b :: b in s.voted && b.Node? ==> forall q :: q in s.voted[b] ==> q < c.n && Vote(q, b) in votes
  }

  ghost predicate ReplicaInv(c: Config, votes: set<Vote>, r: nat, x: Replica)
    requires c.Valid()
  {
    && CoreInv(x.core) && LockBelowVote(x.core) && TailInv(x.core, x.tail)
    && CertificatesHold(c, votes, x.core)
    && VotesRemembered(c, votes, r, x.core)
    && CollectedAreCast(c, votes, x.core)
  }

  ghost predicate SystemInv(c: Config, s: System)
    requires c.Valid()
  {
    && (forall r :: r in s.replicas <==> c.Correct(r))
    && VotesInv(c, s.votes)
    && (forall r :: r in s.replicas ==> ReplicaInv(c, s.votes, r, s.replicas[r]))
  }

  // ---- votes only grow ---------------------------------------------------------------------

  lemma CertificatesMonotone(c: Config, votes: set<Vote>, votes': set<Vote>, s: Core)
    requires c.Valid() && votes <= votes' && CertificatesHold(c, votes, s)
    ensures CertificatesHold(c, votes', s)
  {
    forall b | Certified(c, votes, b) ensures Certified(c, votes', b) {
      CertifiedMonotone(c, votes, votes', b);
    }
  }

  lemma ExtendsCertifiedMonotone(c: Config, votes: set<Vote>, votes': set<Vote>, w: Block, h: nat)
    requires c.Valid() && votes <= votes' && ExtendsCertified(c, votes, w, h)
    ensures ExtendsCertified(c, votes', w, h)
  {
    var l :| Certified(c, votes, l) && Extends(w, l) && h <= Height(l) < Height(w);
    CertifiedMonotone(c, votes, votes', l);
  }

  /** A new vote that, if by a correct replica, is higher than that replica's earlier votes,
      respects their locks and is sound, keeps the votes' invariant. */
  lemma AddVote(c: Config, votes: set<Vote>, v: Vote)
    requires c.Valid() && VotesInv(c, votes)
    requires c.Correct(v.voter) ==>
      && v.blk.Node? && Extends(v.blk.parent, v.blk.justify) && Certified(c, votes, v.blk.justify)
      && forall u :: u in votes && u.voter == v.voter ==>
        Height(u.blk) < Height(v.blk) && ExtendsCertified(c, votes, v.blk, Height(LockTarget(c.mode, u.blk)))
    ensures VotesInv(c, votes + {v})
  {
    var votes' := votes + {v};
    forall u, w | u in votes' && w in votes' && u.voter == w.voter && c.Correct(u.voter) && Height(u.blk) < Height(w.blk)
      ensures ExtendsCertified(c, votes', w.blk, Height(LockTarget(c.mode, u.blk)))
    {
      ExtendsCertifiedMonotone(c, votes, votes', w.blk, Height(LockTarget(c.mode, u.blk)));
    }
    forall u | u in votes' && c.Correct(u.voter)
      ensures u.blk.Node? && Extends(u.blk.parent, u.blk.justify) && Certified(c, votes', u.blk.justify)
    {
      CertifiedMonotone(c, votes, votes', u.blk.justify);
    }
  }

  // ---- one handler -------------------------------------------------------------------------

  /** update keeps the certificates, and under them never throws. */
  lemma UpdateIsSafe(c: Config, votes: set<Vote>, s: Core, b: Block)
    requires c.Valid() && VotesInv(c, votes) && CoreInv(s) && CertificatesHold(c, votes, s) && b in s.delivered
    ensures Update(c.mode, s, b).error == NoError
    ensures CertificatesHold(c, votes, Update(c.mode, s, b).core)
  {
    var t := Justify(b);
    var target := LockTarget(c.mode, t);
    UpdateKeeps(c.mode, s, b);
    JustifyBelow(s.delivered, b);
    JustifyBelow(s.delivered, t);
    if Commits(c.mode, t, target) && target !in s.decided {
      assert Committed(c, votes, target);
      CommittedOnOneChain(c, votes, s.bExec, target);
    }
  }

  /** A vote that passes Opinion rests on a certified ancestor at least as high as the lock. */
  lemma OpinionRespectsLock(c: Config, votes: set<Vote>, s: Core, b: Block)
    requires c.Valid() && CoreInv(s) && CertificatesHold(c, votes, s) && b in s.delivered
    requires Opinion(s, b) && Height(s.bLock) < Height(b)
    ensures b.Node? && ExtendsCertified(c, votes, b, Height(s.bLock))
  {
    JustifyBelow(s.delivered, b);
    WalkFindsAncestor(b, s.bLock);
  }

  /** What the state after update must offer for the vote to be recorded. */
  ghost predicate ReadyToVote(c: Config, votes: set<Vote>, r: nat, u: Core, b: Block)
    requires c.Valid()
  {
    && CoreInv(u) && CertificatesHold(c, votes, u)
    && VotesRemembered(c, votes, r, u) && CollectedAreCast(c, votes, u)
    && b in u.delivered && Height(LockTarget(c.mode, b)) <= Height(u.bLock)
  }

  lemma ExtendsCertifiedLower(c: Config, votes: set<Vote>, w: Block, h: nat, h': nat)
    requires c.Valid() && ExtendsCertified(c, votes, w, h) && h' <= h
    ensures ExtendsCertified(c, votes, w, h')
  {
  }

  lemma RecordVote(c: Config, votes: set<Vote>, r: nat, u: Core, b: Block)
    requires c.Valid() && VotesInv(c, votes) && c.Correct(r)
    requires ReadyToVote(c, votes, r, u, b) && Opinion(u, b) && Height(u.bLock) < Height(b)
    ensures VotesInv(c, votes + {Vote(r, b)})
  {
    JustifyBelow(u.delivered, b);
    OpinionRespectsLock(c, votes, u, b);
    forall v | v in votes && v.voter == r
      ensures Height(v.blk) < Height(b) && ExtendsCertified(c, votes, b, Height(LockTarget(c.mode, v.blk)))
    {
      ExtendsCertifiedLower(c, votes, b, Height(u.bLock), Height(LockTarget(c.mode, v.blk)));
    }
    AddVote(c, votes, Vote(r, b));
  }

  lemma RememberVote(c: Config, votes: set<Vote>, r: nat, u: Core, b: Block)
    requires c.Valid() && ReadyToVote(c, votes, r, u, b) && Height(b) > u.vheight
    ensures ReadyToVote(c, votes + {Vote(r, b)}, r, u.(vheight := Height(b)), b)
  {
    var u' := u.(vheight := Height(b));
    var votes' := votes + {Vote(r, b)};
    assert CoreInv(u');
    assert CertificatesHold(c, votes, u');
    CertificatesMonotone(c, votes, votes', u');
    assert VotesRemembered(c, votes', r, u') by {
      forall v | v in votes' && v.voter == r ensures v.blk in u'.delivered && Height(v.blk) <= u'.vheight {
      }
    }
    assert CollectedAreCast(c, votes', u');
  }

  /** Voting, if at all, after a safe update of a delivered block. */
  lemma VoteStep(c: Config, votes: set<Vote>, r: nat, s: Core, b: Block, enabled: bool) returns (votes': set<Vote>)
    requires c.Valid() && VotesInv(c, votes) && c.Correct(r)
    requires CoreInv(s) && LockBelowVote(s) && CertificatesHold(c, votes, s) && b in s.delivered
    requires VotesRemembered(c, votes, r, s) && CollectedAreCast(c, votes, s)
    ensures var o := CastVote(Update(c.mode, s, b).core, b, enabled);
      && votes' == (if o.voted then votes + {Vote(r, b)} else votes)
      && VotesInv(c, votes') && LockBelowVote(o.core)
      && ReadyToVote(c, votes', r, o.core, b)
  {
    var u := Update(c.mode, s, b).core;
    UpdateIsSafe(c, votes, s, b);
    UpdateKeeps(c.mode, s, b);
    CastVoteKeeps(c.mode, s, b, enabled);
    assert ReadyToVote(c, votes, r, u, b);
    votes' := votes;
    if Opinion(u, b) && enabled {
      LockBelowBlock(c.mode, s, b);
      RecordVote(c, votes, r, u, b);
      RememberVote(c, votes, r, u, b);
      votes' := votes + {Vote(r, b)};
    }
  }

  // ---- every step keeps the invariant ------------------------------------------------------

  lemma OthersKeep(c: Config, votes: set<Vote>, votes': set<Vote>, r: nat, x: Replica)
    requires c.Valid() && votes <= votes' && ReplicaInv(c, votes, r, x)
    requires forall v :: v in votes' && v.voter == r ==> v in votes
    ensures ReplicaInv(c, votes', r, x)
  {
    CertificatesMonotone(c, votes, votes', x.core);
  }

  /** From what one replica's handler keeps to what the system keeps. */
  lemma BecomesKeeps(c: Config, s: System, s': System, r: nat, x: Replica, voted: bool, b: Block)
    requires c.Valid() && SystemInv(c, s) && c.Correct(r)
    requires Becomes(s, s', r, x, voted, b)
    requires VotesInv(c, s'.votes) && ReplicaInv(c, s'.votes, r, x)
    ensures SystemInv(c, s')
  {
    hide VotesInv, ReplicaInv;
    forall q | q in s'.replicas ensures ReplicaInv(c, s'.votes, q, s'.replicas[q]) {
      if q != r {
        OthersKeep(c, s.votes, s'.votes, q, s.replicas[q]);
      }
    }
  }

  lemma DeliverStepKeeps(c: Config, votes: set<Vote>, r: nat, x: Replica, b: Block)
    requires c.Valid() && ReplicaInv(c, votes, r, x) && Deliverable(c, votes, x.core, b)
    ensures ReplicaInv(c, votes, r, x.(core := Deliver(x.core, b)))
  {
    DeliverKeeps(x.core, b);
  }

  lemma ReceiveProposalStepKeeps(c: Config, votes: set<Vote>, r: nat, x: Replica, b: Block, enabled: bool, tail': Block)
    returns (votes': set<Vote>)
    requires c.Valid() && VotesInv(c, votes) && c.Correct(r) && ReplicaInv(c, votes, r, x)
    requires TailAfterHqc(x.core, ReceiveProposal(c.mode, x.core, b, enabled).core, x.tail, tail')
    ensures var o := ReceiveProposal(c.mode, x.core, b, enabled);
      && o.error == (if b in x.core.delivered then NoError else NotDelivered)
      && votes' == (if o.voted then votes + {Vote(r, b)} else votes)
      && VotesInv(c, votes')
      && ReplicaInv(c, votes', r, Replica(o.core, if o.error == NoError then TailAfterProposal(o.core, b, tail') else tail'))
  {
    votes' := votes;
    if b in x.core.delivered {
      var o := ReceiveProposal(c.mode, x.core, b, enabled);
      UpdateIsSafe(c, votes, x.core, b);
      UpdateKeeps(c.mode, x.core, b);
      votes' := VoteStep(c, votes, r, x.core, b, enabled);
      HqcCallbackKeeps(x.core, o.core, x.tail, tail');
      ProposalCallbackKeeps(o.core, b, tail');
    }
  }

  /** A block whose collected votes reach the majority is certified. */
  lemma CollectedCertify(c: Config, votes: set<Vote>, s: Core, v: Vote)
    requires c.Valid() && CollectedAreCast(c, votes, s) && v in votes && v.voter < c.n
    requires v.voter !in VotedFor(s, v.blk) && |VotedFor(s, v.blk)| + 1 == c.Majority()
    ensures Certified(c, votes, v.blk)
  {
    if v.blk.Node? {
      SubsetSize(VotedFor(s, v.blk) + {v.voter}, Voters(c, votes, v.blk));
    }
  }

  lemma ReceiveVoteStepKeeps(c: Config, votes: set<Vote>, r: nat, x: Replica, v: Vote, tail': Block)
    requires c.Valid() && ReplicaInv(c, votes, r, x) && v in votes && v.voter < c.n
    requires TailAfterHqc(x.core, ReceiveVote(x.core, c.Majority(), v).core, x.tail, tail')
    ensures ReplicaInv(c, votes, r, Replica(ReceiveVote(x.core, c.Majority(), v).core, tail'))
  {
    var s := x.core;
    var t := ReceiveVote(s, c.Majority(), v).core;
    ReceiveVoteKeeps(s, c.Majority(), v);
    if t.hqc != s.hqc {
      CollectedCertify(c, votes, s, v);
    }
    HqcCallbackKeeps(s, t, x.tail, tail');
    assert CertificatesHold(c, votes, t);
    assert VotesRemembered(c, votes, r, t);
    assert CollectedAreCast(c, votes, t);
  }

  /** A proposal that stops short of its vote still keeps the invariant: the lock cannot
      pass the last vote. */
  lemma GivenUpKeeps(c: Config, votes: set<Vote>, r: nat, x: Replica, b: Block, tail': Block)
    requires c.Valid() && VotesInv(c, votes) && ReplicaInv(c, votes, r, x)
    requires b in x.core.delivered && Height(b) <= x.core.vheight
    requires TailAfterHqc(x.core, Update(c.mode, x.core, b).core, x.tail, tail')
    ensures ReplicaInv(c, votes, r, Replica(Update(c.mode, x.core, b).core, tail'))
  {
    UpdateIsSafe(c, votes, x.core, b);
    UpdateKeeps(c.mode, x.core, b);
    LockOfLower(c.mode, x.core, b);
    HqcCallbackKeeps(x.core, Update(c.mode, x.core, b).core, x.tail, tail');
  }

  /** Handling one's own proposal does not move hqc, so the new block extends it. */
  lemma OwnProposalExtendsHqc(mode: Mode, s: Core, tail: Block, payload: Payload)
    requires CoreInv(s) && TailInv(s, tail)
    ensures var b := NewBlock(s, tail, payload);
      var u := Update(mode, Deliver(s, b), b).core;
      TailInv(u, b) && u.vheight == s.vheight
  {
    var b := NewBlock(s, tail, payload);
    NewBlockExtendsJustify(s, tail, payload);
    UpdateKeeps(mode, Deliver(s, b), b);
  }

  /** Proposing is delivering the new block and receiving it, up to the height check. */
  lemma ProposeIsReceive(c: Config, votes: set<Vote>, r: nat, x: Replica, payload: Payload, enabled: bool)
    requires c.Valid() && VotesInv(c, votes) && ReplicaInv(c, votes, r, x)
    ensures var b := NewBlock(x.core, x.tail, payload);
      var d := Deliver(x.core, b);
      && ReplicaInv(c, votes, r, Replica(d, x.tail))
      && TailInv(Propose(c.mode, x.core, x.tail, payload, enabled).core, b)
      && Propose(c.mode, x.core, x.tail, payload, enabled) ==
        if Height(b) <= x.core.vheight then Outcome(Update(c.mode, d, b).core, false, NotHigher)
        else ReceiveProposal(c.mode, d, b, enabled)
  {
    var b := NewBlock(x.core, x.tail, payload);
    DeliverOnTail(x.core, x.tail, b);
    DeliverStepKeeps(c, votes, r, x, b);
    UpdateIsSafe(c, votes, Deliver(x.core, b), b);
    OwnProposalExtendsHqc(c.mode, x.core, x.tail, payload);
  }

  lemma ProposeStepKeeps(c: Config, votes: set<Vote>, r: nat, x: Replica, payload: Payload, enabled: bool, tail': Block)
    returns (votes': set<Vote>)
    requires c.Valid() && VotesInv(c, votes) && c.Correct(r) && ReplicaInv(c, votes, r, x)
    requires TailAfterHqc(x.core, Propose(c.mode, x.core, x.tail, payload, enabled).core, x.tail, tail')
    ensures var b := NewBlock(x.core, x.tail, payload);
      var o := Propose(c.mode, x.core, x.tail, payload, enabled);
      && o.error != SafetyBreach
      && votes' == (if o.voted then votes + {Vote(r, b)} else votes)
      && VotesInv(c, votes')
      && ReplicaInv(c, votes', r, Replica(o.core, if o.error == NoError then b else tail'))
  {
    var b := NewBlock(x.core, x.tail, payload);
    var y := Replica(Deliver(x.core, b), x.tail);
    votes' := votes;
    if Height(b) <= x.core.vheight {
      ProposeIsReceive(c, votes, r, x, payload, enabled);
      GivenUpKeeps(c, votes, r, y, b, tail');
    } else {
      votes' := ProposedKeeps(c, votes, r, x, payload, enabled, tail');
    }
  }

  lemma ProposedKeeps(c: Config, votes: set<Vote>, r: nat, x: Replica, payload: Payload, enabled: bool, tail': Block)
    returns (votes': set<Vote>)
    requires c.Valid() && VotesInv(c, votes) && c.Correct(r) && ReplicaInv(c, votes, r, x)
    requires Height(NewBlock(x.core, x.tail, payload)) > x.core.vheight
    requires TailAfterHqc(x.core, Propose(c.mode, x.core, x.tail, payload, enabled).core, x.tail, tail')
    ensures var b := NewBlock(x.core, x.tail, payload);
      var o := Propose(c.mode, x.core, x.tail, payload, enabled);
      && o.error == NoError
      && votes' == (if o.voted then votes + {Vote(r, b)} else votes)
      && VotesInv(c, votes') && ReplicaInv(c, votes', r, Replica(o.core, b))
  {
    var b := NewBlock(x.core, x.tail, payload);
    ProposeIsReceive(c, votes, r, x, payload, enabled);
    votes' := ReceiveProposalStepKeeps(c, votes, r, Replica(Deliver(x.core, b), x.tail), b, enabled, tail');
  }
}
