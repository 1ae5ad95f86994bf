/** Votes, quorum certificates and the counting argument behind them
    (src/hotstuff.cpp `start`, src/consensus.cpp `on_init`). */
module Quorums {
  import opened Blocks

  datatype Vote = Vote(voter: nat, blk: Block)

  /** How many steps of certificates a commit needs: the HOTSTUFF_TWO_STEP switch. */
  datatype Mode = TwoStep | ThreeStep

  datatype Config = Config(n: nat, faulty: set<nat>, mode: Mode) {
    /** nfaulty: the peers are all replicas but this one. */
    function MaxFaulty(): nat
      requires n > 0
    {
      (n - 1) / 3
    }

    /** config.nmajority */
    function Majority(): nat
      requires n > 0
    {
      n - MaxFaulty()
    }

    ghost predicate Valid() {
      && n > 0
      && (forall r :: r in faulty ==> r < n)
      && |faulty| <= MaxFaulty()
    }

    ghost predicate Correct(r: nat) {
      r < n && r !in faulty
    }
  }

  function AllReplicas(n: nat): (s: set<nat>)
    ensures forall r: nat :: r in s <==> r < n
  {
    if n == 0 then {} else AllReplicas(n - 1) + {n - 1}
  }

  function Voters(c: Config, votes: set<Vote>, b: Block): set<nat> {
    set r | 0 <= r < c.n && Vote(r, b) in votes
  }

  /** What a verified certificate shows: a majority voted for b. Genesis needs no votes
      (src/entity.cpp, Block::verify). */
  ghost predicate Certified(c: Config, votes: set<Vote>, b: Block)
    requires c.Valid()
  {
    b.Genesis? || |Voters(c, votes, b)| >= c.Majority()
  }

  lemma {:induction false} AllReplicasSize(n: nat)
    ensures |AllReplicas(n)| == n
  {
    if n > 0 {
      AllReplicasSize(n - 1);
      assert n - 1 !in AllReplicas(n - 1);
    }
  }

  /** The correct replicas alone are a quorum; when as many have failed as may, just one. */
  lemma CorrectAreQuorum(c: Config)
    requires c.Valid()
    ensures |AllReplicas(c.n) - c.faulty| >= c.Majority()
    ensures |c.faulty| == c.MaxFaulty() ==> |AllReplicas(c.n) - c.faulty| == c.Majority()
  {
    AllReplicasSize(c.n);
    assert c.faulty <= AllReplicas(c.n);
    assert |AllReplicas(c.n) - c.faulty| == c.n - |c.faulty|;
  }

  /** Any number of replicas below a third may fail. */
  lemma MostFaulty(n: nat, faulty: set<nat>, mode: Mode)
    requires forall r :: r in faulty ==> r < n
    ensures Config(n, faulty, mode).Valid() <==> 3 * |faulty| < n
  {
  }

  /** So a block that every correct replica voted for is certified. */
  lemma CorrectCertify(c: Config, votes: set<Vote>, b: Block)
    requires c.Valid() && forall r :: c.Correct(r) ==> Vote(r, b) in votes
    ensures Certified(c, votes, b)
  {
    CorrectAreQuorum(c);
    SubsetSize(AllReplicas(c.n) - c.faulty, Voters(c, votes, b));
  }

  lemma SubsetSize(a: set<nat>, b: set<nat>)
    requires a <= b
    ensures |a| <= |b|
  {
    if a != {} {
      var x :| x in a;
      SubsetSize(a - {x}, b - {x});
    }
  }

  lemma {:induction false} RangeSize(s: set<nat>, n: nat)
    requires forall r :: r in s ==> r < n
    ensures |s| <= n
  {
    if n > 0 {
      RangeSize(s - {n - 1}, n - 1);
    } else {
      assert s == {};
    }
  }

  lemma CertifiedMonotone(c: Config, votes: set<Vote>, votes': set<Vote>, b: Block)
    requires c.Valid() && votes <= votes'
    requires Certified(c, votes, b)
    ensures Certified(c, votes', b)
  {
    SubsetSize(Voters(c, votes, b), Voters(c, votes', b));
  }

  /** Any two quorums share a correct replica. */
  lemma QuorumsShareCorrect(c: Config, p: set<nat>, q: set<nat>) returns (r: nat)
    requires c.Valid()
    requires forall x :: x in p + q ==> x < c.n
    requires |p| >= c.Majority() && |q| >= c.Majority()
    ensures r in p && r in q && c.Correct(r)
  {
    RangeSize(p + q, c.n);
    assert |p + q| + |p * q| == |p| + |q|;
    if p * q <= c.faulty {
      SubsetSize(p * q, c.faulty);
      assert false;
    }
    r :| r in p * q && r !in c.faulty;
  }

  /** Two certified blocks, neither of them genesis, were both voted for by one correct replica. */
  lemma CertifiedShareVoter(c: Config, votes: set<Vote>, a: Block, b: Block) returns (r: nat)
    requires c.Valid() && a.Node? && b.Node?
    requires Certified(c, votes, a) && Certified(c, votes, b)
    ensures c.Correct(r) && Vote(r, a) in votes && Vote(r, b) in votes
  {
    r := QuorumsShareCorrect(c, Voters(c, votes, a), Voters(c, votes, b));
  }
}
