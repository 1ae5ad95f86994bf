/** What every handler of one replica keeps, whatever the other replicas do. */
module ReplicaProofs {
  import opened Blocks
  import opened Quorums
  import opened ReplicaModel

  lemma {:induction false} AncestorsDelivered(delivered: set<Block>, b: Block, a: Block)
    requires DeliveredClosed(delivered) && b in delivered && Extends(b, a)
    ensures a in delivered
  {
    if b != a {
      assert b.parent in Parents(b);
      AncestorsDelivered(delivered, b.parent, a);
    }
  }

  /** A delivered block extends the block its certificate names, which is delivered and lower. */
  lemma JustifyBelow(delivered: set<Block>, b: Block)
    requires DeliveredClosed(delivered) && b in delivered
    ensures Justify(b) in delivered && Extends(b, Justify(b))
    ensures b.Node? ==> Height(Justify(b)) < Height(b)
  {
    if b.Node? {
      assert b.parent in Parents(b);
      AncestorsDelivered(delivered, b.parent, b.justify);
      ExtendsHeight(b.parent, b.justify);
    }
  }

  /** Being decided passes down to the block named by the certificate. */
  lemma DecidedDown(s: Core, b: Block)
    requires CoreInv(s) && b in s.decided
    ensures Justify(b) in s.decided && Height(b) <= Height(s.bExec)
  {
    AncestorsDelivered(s.delivered, s.bExec, b);
    JustifyBelow(s.delivered, b);
    ExtendsTransitive(s.bExec, b, Justify(b));
    ExtendsHeight(s.bExec, b);
  }

  lemma InitialInv(n: nat)
    ensures CoreInv(Initial(n)) && LockBelowVote(Initial(n))
  {
    assert Parents(Genesis) == [];
    assert !HasChild(Initial(n).delivered, Genesis);
  }

  lemma DeliverKeeps(s: Core, b: Block)
    requires CoreInv(s) && b.Node?
    requires (forall p :: p in Parents(b) ==> p in s.delivered) && Extends(b.parent, b.justify)
    ensures CoreInv(Deliver(s, b))
  {
    if b !in s.delivered {
      var d := Deliver(s, b);
      forall x ensures x in d.tails <==> x in d.delivered && !HasChild(d.delivered, x) {
        if HasChild(s.delivered, x) {
          var c :| c in s.delivered && x in Parents(c);
          assert c in d.delivered;
        }
        if x in Parents(b) {
          assert b in d.delivered;
        }
      }
    }
  }

  /** Taking a tail that is about to get a child out of tails early changes nothing. */
  lemma DeliverOnTail(s: Core, tail: Block, b: Block)
    requires CoreInv(s) && b.Node? && tail == b.parent
    ensures Deliver(s.(tails := s.tails - {tail}), b) == Deliver(s, b)
  {
    assert tail in Parents(b);
    if b in s.delivered {
      assert HasChild(s.delivered, tail);
      assert s.tails - {tail} == s.tails;
    } else {
      assert s.tails - {tail} - Elements(Parents(b)) + {b} == s.tails - Elements(Parents(b)) + {b};
    }
  }

  lemma CommitKeeps(s: Core, blk: Block)
    requires CoreInv(s) && blk in s.delivered && blk !in s.decided && Height(blk) <= Height(s.bLock)
    ensures CoreInv(Commit(s, blk).core)
    ensures Commit(s, blk).error == SafetyBreach <==> !Extends(blk, s.bExec)
    ensures Commit(s, blk).error != SafetyBreach ==> Commit(s, blk).core.bExec == blk
  {
    WalkFindsAncestor(blk, s.bExec);
    if Extends(blk, s.bExec) {
      var t := Commit(s, blk).core;
      PathSplits(blk, s.bExec);
      forall b ensures b in t.decided <==> Extends(blk, b) {
        PathMembers(blk, s.bExec, b);
        if Extends(s.bExec, b) {
          ExtendsTransitive(blk, s.bExec, b);
        }
        if Extends(blk, b) && Height(b) <= Height(s.bExec) {
          AncestorsComparable(blk, b, s.bExec);
        }
      }
    }
  }

  // ---- the early returns -------------------------------------------------------------------

  function RaiseLock(mode: Mode, s: Core, c1: Block): Core {
    UpdateLock(UpdateHqc(s, c1), if mode.ThreeStep? then Justify(c1) else c1)
  }

  /** update without the returns on blk2->decision and blk1->decision. */
  function UpdateEager(mode: Mode, s: Core, nblk: Block): Outcome {
    var c1 := Justify(nblk);
    var s2 := RaiseLock(mode, s, c1);
    var target := LockTarget(mode, c1);
    if target in s2.decided || !Commits(mode, c1, target) then Outcome(s2, false, NoError)
    else Commit(s2, target)
  }

  /** The early returns on decided blocks lose nothing. */
  lemma EarlyReturnsLoseNothing(mode: Mode, s: Core, b: Block)
    requires CoreInv(s) && b in s.delivered
    ensures Update(mode, s, b) == UpdateEager(mode, s, b)
  {
    var c1 := Justify(b);
    JustifyBelow(s.delivered, b);
    JustifyBelow(s.delivered, c1);
    JustifyBelow(s.delivered, Justify(c1));
    ExtendsGenesis(s.bExec);
    if c1 in s.decided {
      DecidedDown(s, c1);
    }
    if Justify(c1) in s.decided {
      DecidedDown(s, Justify(c1));
    }
  }

  /** Everything update promises for a delivered block: the invariant, which fields move
      and to what, and what a thrown breach means. */
  ghost predicate UpdatePost(mode: Mode, s: Core, b: Block, u: Outcome) {
    var t := Justify(b);
    var target := LockTarget(mode, t);
    && CoreInv(u.core)
    && u.core.(hqc := s.hqc, bLock := s.bLock, bExec := s.bExec, decided := s.decided, log := s.log) == s
    && (u.core.hqc == s.hqc || (u.core.hqc == t && Height(t) > Height(s.hqc)))
    && (u.core.bLock == s.bLock || (u.core.bLock == LockTarget(mode, b) && Height(u.core.bLock) > Height(s.bLock)))
    && (u.core.bExec == s.bExec || (u.core.bExec == target && Commits(mode, t, target)))
    && Height(LockTarget(mode, b)) <= Height(u.core.bLock)
    && (u.error == NoError || u.error == SafetyBreach) && !u.voted
    && (u.error == NoError ==> Extends(u.core.bExec, s.bExec))
    && (u.error == SafetyBreach ==> Commits(mode, t, target) && target !in s.decided && !Extends(target, s.bExec))
  }

  lemma RaiseLockKeeps(mode: Mode, s: Core, b: Block)
    requires CoreInv(s) && b in s.delivered
    ensures UpdatePost(mode, s, b, Outcome(RaiseLock(mode, s, Justify(b)), false, NoError))
  {
    var s2 := RaiseLock(mode, s, Justify(b));
    assert s2 == s.(hqc := s2.hqc, bLock := s2.bLock);
    assert CoreInv(s2) by {
      JustifyBelow(s.delivered, b);
      JustifyBelow(s.delivered, Justify(b));
    }
  }

  lemma CommitAfterRaise(mode: Mode, s: Core, b: Block, s2: Core)
    requires CoreInv(s) && b in s.delivered && UpdatePost(mode, s, b, Outcome(s2, false, NoError))
    requires s2.bExec == s.bExec && s2.decided == s.decided && s2.log == s.log
    requires var target := LockTarget(mode, Justify(b));
      target !in s.decided && Commits(mode, Justify(b), target) && Height(target) <= Height(LockTarget(mode, b))
    ensures UpdatePost(mode, s, b, Commit(s2, LockTarget(mode, Justify(b))))
  {
    JustifyBelow(s.delivered, b);
    JustifyBelow(s.delivered, Justify(b));
    JustifyBelow(s.delivered, Justify(Justify(b)));
    CommitKeeps(s2, LockTarget(mode, Justify(b)));
  }

  lemma UpdateEagerKeeps(mode: Mode, s: Core, b: Block)
    requires CoreInv(s) && b in s.delivered
    ensures UpdatePost(mode, s, b, UpdateEager(mode, s, b))
  {
    var c1 := Justify(b);
    var target := LockTarget(mode, c1);
    RaiseLockKeeps(mode, s, b);
    if target !in s.decided && Commits(mode, c1, target) {
      JustifyBelow(s.delivered, b);
      JustifyBelow(s.delivered, c1);
      JustifyBelow(s.delivered, Justify(c1));
      CommitAfterRaise(mode, s, b, RaiseLock(mode, s, c1));
    }
  }

  lemma UpdateKeeps(mode: Mode, s: Core, b: Block)
    requires CoreInv(s) && b in s.delivered
    ensures UpdatePost(mode, s, b, Update(mode, s, b))
  {
    EarlyReturnsLoseNothing(mode, s, b);
    UpdateEagerKeeps(mode, s, b);
  }

  /** What the certificates of b come to, however update returns: hqc and the lock go to the first
      and second block of the chain they form if those are higher, and the last block is executed
      exactly when it is above the executed one and the links to it are direct parents. */
  lemma UpdateMoves(mode: Mode, s: Core, b: Block)
    requires CoreInv(s) && b in s.delivered && Update(mode, s, b).error == NoError
    ensures var u := Update(mode, s, b).core;
      var c1 := Justify(b);
      var c2 := if mode.ThreeStep? then Justify(c1) else c1;
      && u.hqc == (if Height(c1) > Height(s.hqc) then c1 else s.hqc)
      && u.bLock == (if Height(c2) > Height(s.bLock) then c2 else s.bLock)
      && u.bExec == (if Height(Justify(c2)) > Height(s.bExec) && Parent(c2) == Justify(c2)
           && (mode.ThreeStep? ==> Parent(c1) == c2) then Justify(c2) else s.bExec)
      && u.vheight == s.vheight && u.delivered == s.delivered && u.tails == s.tails && u.voted == s.voted
  {
    EarlyReturnsLoseNothing(mode, s, b);
    var c1 := Justify(b);
    var target := LockTarget(mode, c1);
    JustifyBelow(s.delivered, b);
    JustifyBelow(s.delivered, c1);
    JustifyBelow(s.delivered, Justify(c1));
    ExtendsGenesis(s.bExec);
    if target in s.decided {
      DecidedDown(s, target);
    } else if Commits(mode, c1, target) {
      NewlyExecuted(s, target);
    }
  }

  /** An undecided block that extends the executed one is higher. */
  lemma NewlyExecuted(s: Core, b: Block)
    requires CoreInv(s) && b !in s.decided
    ensures Walk(b, Height(s.bExec)) == s.bExec ==> Height(b) > Height(s.bExec)
  {
    WalkFindsAncestor(b, s.bExec);
    if Extends(b, s.bExec) {
      ExtendsHeight(b, s.bExec);
    }
  }

  /** A replica votes for a delivered block exactly when it is above its last vote and either
      certifies a block above the lock or extends the lock; only then does vheight move. The lock
      is the one update leaves. In the two-step build the lock is never below the certified block. */
  lemma VotesExactly(mode: Mode, s: Core, b: Block, enabled: bool)
    requires CoreInv(s) && b in s.delivered && ReceiveProposal(mode, s, b, enabled).error == NoError
    ensures var o := ReceiveProposal(mode, s, b, enabled);
      var fit := Height(b) > s.vheight && (Height(Justify(b)) > Height(o.core.bLock) || Extends(b, o.core.bLock));
      && (o.voted <==> fit && enabled)
      && o.core.vheight == (if fit then Height(b) else s.vheight)
      && (mode.TwoStep? ==> Height(Justify(b)) <= Height(o.core.bLock))
  {
    UpdateKeeps(mode, s, b);
    WalkFindsAncestor(b, Update(mode, s, b).core.bLock);
  }

  /** update on a block at or below the last vote leaves the lock below the last vote. */
  lemma LockOfLower(mode: Mode, s: Core, b: Block)
    requires CoreInv(s) && LockBelowVote(s) && b in s.delivered && Height(b) <= s.vheight
    ensures LockBelowVote(Update(mode, s, b).core)
  {
    UpdateKeeps(mode, s, b);
    JustifyBelow(s.delivered, b);
    JustifyBelow(s.delivered, Justify(b));
  }

  /** After update on a block above the last vote, the lock is still below that block. */
  lemma LockBelowBlock(mode: Mode, s: Core, b: Block)
    requires CoreInv(s) && LockBelowVote(s) && b in s.delivered && Height(b) > s.vheight
    ensures Height(Update(mode, s, b).core.bLock) < Height(b)
  {
    UpdateKeeps(mode, s, b);
    JustifyBelow(s.delivered, b);
    JustifyBelow(s.delivered, Justify(b));
  }

  /** Voting after an update restores the order between lock and last vote. */
  lemma CastVoteKeeps(mode: Mode, s: Core, b: Block, enabled: bool)
    requires CoreInv(s) && b in s.delivered && LockBelowVote(s)
    requires Update(mode, s, b).error == NoError
    ensures var v := CastVote(Update(mode, s, b).core, b, enabled);
      && CoreInv(v.core) && LockBelowVote(v.core)
      && (v.voted ==> b.Node? && v.core.vheight == Height(b) > s.vheight)
  {
    UpdateKeeps(mode, s, b);
    var u := Update(mode, s, b).core;
    JustifyBelow(s.delivered, b);
    JustifyBelow(s.delivered, Justify(b));
    if Height(b) > u.vheight && u.bLock != s.bLock {
      WalkFindsAncestor(b, u.bLock);
    }
  }

  lemma ReceiveVoteKeeps(s: Core, majority: nat, v: Vote)
    requires CoreInv(s)
    ensures CoreInv(ReceiveVote(s, majority, v).core)
    ensures Height(s.hqc) <= Height(ReceiveVote(s, majority, v).core.hqc)
  {
    var t := ReceiveVote(s, majority, v).core;
    assert t == s.(hqc := t.hqc, voted := t.voted);
  }
}
