/** Agreement from the votes alone: once a commit chain is certified, every certified block
    at least as high extends the committed one. */
module Agreement {
  import opened Blocks
  import opened Quorums
  import opened ReplicaModel

  /** A correct replica votes at most once per height. */
  ghost predicate OneVotePerHeight(c: Config, votes: set<Vote>) {
    forall u, v | u in votes && v in votes && u.voter == v.voter && c.Correct(u.voter) ::
      Height(u.blk) == Height(v.blk) ==> u.blk == v.blk
  }

  /** w is above a certified ancestor of height at least h. */
  ghost predicate ExtendsCertified(c: Config, votes: set<Vote>, w: Block, h: nat)
    requires c.Valid()
  {
    exists l :: Certified(c, votes, l) && Extends(w, l) && h <= Height(l) < Height(w)
  }

  /** A correct replica that voted for u and then higher for v kept to the lock u gave it. */
  ghost predicate VotesRespectLocks(c: Config, votes: set<Vote>)
    requires c.Valid()
  {
    forall u, v | u in votes && v in votes && u.voter == v.voter && c.Correct(u.voter) ::
      Height(u.blk) < Height(v.blk) ==> ExtendsCertified(c, votes, v.blk, Height(LockTarget(c.mode, u.blk)))
  }

  /** Correct replicas vote only for blocks above the certified block they name. */
  ghost predicate VotedAreSound(c: Config, votes: set<Vote>)
    requires c.Valid()
  {
    forall v :: v in votes && c.Correct(v.voter) ==>
      v.blk.Node? && Extends(v.blk.parent, v.blk.justify) && Certified(c, votes, v.blk.justify)
  }

  ghost predicate VotesInv(c: Config, votes: set<Vote>)
    requires c.Valid()
  {
    OneVotePerHeight(c, votes) && VotesRespectLocks(c, votes) && VotedAreSound(c, votes)
  }

  /** At most one block per height is certified. */
  lemma OneCertifiedPerHeight(c: Config, votes: set<Vote>, a: Block, b: Block)
    requires c.Valid() && OneVotePerHeight(c, votes)
    requires Certified(c, votes, a) && Certified(c, votes, b) && Height(a) == Height(b)
    ensures a == b
  {
    if a.Node? {
      var r := CertifiedShareVoter(c, votes, a, b);
      assert Vote(r, a).voter == Vote(r, b).voter;
    }
  }

  /** A certified block names a certified block below it. */
  lemma CertifiedDown(c: Config, votes: set<Vote>, t: Block)
    requires c.Valid() && VotesInv(c, votes) && Certified(c, votes, t)
    ensures Certified(c, votes, Justify(t)) && Extends(t, Justify(t))
  {
    if t.Node? {
      var r := CertifiedShareVoter(c, votes, t, t);
      assert Vote(r, t) in votes;
    }
  }

  /** Both chain lengths at once: t certified and committing b makes every certified block at
      b's height or above extend b. */
  lemma {:induction false} CertifiedExtendsCommitted(c: Config, votes: set<Vote>, t: Block, b: Block, w: Block)
    requires c.Valid() && VotesInv(c, votes)
    requires Certified(c, votes, t) && Commits(c.mode, t, b)
    requires Certified(c, votes, w) && Height(w) >= Height(b)
    ensures Extends(w, b)
    decreases Height(w)
  {
    CertifiedDown(c, votes, t);
    CertifiedDown(c, votes, Justify(t));
    if Height(w) == Height(t) {
      OneCertifiedPerHeight(c, votes, w, t);
      ExtendsTransitive(t, Justify(t), b);
    } else if Height(w) == Height(t) - 1 {
      OneCertifiedPerHeight(c, votes, w, t.justify);
    } else if Height(w) == Height(b) {
      OneCertifiedPerHeight(c, votes, w, b);
    } else {
      var r := CertifiedShareVoter(c, votes, t, w);
      assert Vote(r, t).voter == Vote(r, w).voter;
      var l :| Certified(c, votes, l) && Extends(w, l) && Height(b) <= Height(l) < Height(w);
      CertifiedExtendsCommitted(c, votes, t, b, l);
      ExtendsTransitive(w, l, b);
    }
  }

  /** b is genesis or ends a certified commit chain. */
  ghost predicate Committed(c: Config, votes: set<Vote>, b: Block)
    requires c.Valid()
  {
    b.Genesis? || exists t :: Certified(c, votes, t) && Commits(c.mode, t, b)
  }

  lemma CommittedIsCertified(c: Config, votes: set<Vote>, b: Block)
    requires c.Valid() && VotesInv(c, votes) && Committed(c, votes, b)
    ensures Certified(c, votes, b)
  {
    if b.Node? {
      var t :| Certified(c, votes, t) && Commits(c.mode, t, b);
      CertifiedDown(c, votes, t);
      CertifiedDown(c, votes, Justify(t));
    }
  }

  lemma CertifiedAboveCommitted(c: Config, votes: set<Vote>, b: Block, w: Block)
    requires c.Valid() && VotesInv(c, votes)
    requires Committed(c, votes, b) && Certified(c, votes, w) && Height(w) >= Height(b)
    ensures Extends(w, b)
  {
    if b.Genesis? {
      ExtendsGenesis(w);
    } else {
      var t :| Certified(c, votes, t) && Commits(c.mode, t, b);
      CertifiedExtendsCommitted(c, votes, t, b, w);
    }
  }

  /** Any two committed blocks lie on one parents[0] chain. */
  lemma CommittedOnOneChain(c: Config, votes: set<Vote>, a: Block, b: Block)
    requires c.Valid() && VotesInv(c, votes)
    requires Committed(c, votes, a) && Committed(c, votes, b)
    ensures OnOneChain(a, b)
  {
    CommittedIsCertified(c, votes, a);
    CommittedIsCertified(c, votes, b);
    if Height(a) >= Height(b) {
      CertifiedAboveCommitted(c, votes, b, a);
    } else {
      CertifiedAboveCommitted(c, votes, a, b);
    }
  }
}
