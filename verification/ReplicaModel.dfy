/** One replica as a value: what the HotStuff core decides on each event
    (src/consensus.cpp), before pruning is taken into account. */
module ReplicaModel {
  import opened Blocks
  import opened Quorums

  datatype Core = Core(
    delivered: set<Block>,
    decided: set<Block>,
    hqc: Block,
    bLock: Block,
    bExec: Block,
    vheight: nat,
    tails: set<Block>,
    voted: map<Block, set<nat>>,
    log: seq<Block>) // the do_consensus calls so far

  datatype Error =
    | NoError
    | NotDelivered  // "block not delivered"
    | SafetyBreach  // "safety breached"
    | NotHigher     // "new block should be higher than vheight"
    | QcNotFetched  // "block referred by qc not fetched"
    | OutOfBounds   // parents[0] of an emptied list, undefined in the source

  /** The state a handler leaves behind, whether it sent a vote, and what it threw. */
  datatype Outcome = Outcome(core: Core, voted: bool, error: Error)

  /** After on_init, with every replica recorded as a voter for genesis. */
  function Initial(n: nat): Core {
    Core({Genesis}, {Genesis}, Genesis, Genesis, Genesis, 0, {Genesis}, map[Genesis := AllReplicas(n)], [])
  }

  function Deliver(s: Core, b: Block): Core {
    if b in s.delivered then s
    else s.(delivered := s.delivered + {b},
            tails := s.tails - Elements(Parents(b)) + {b})
  }

  function UpdateHqc(s: Core, b: Block): Core {
    if Height(b) > Height(s.hqc) then s.(hqc := b) else s
  }

  function UpdateLock(s: Core, b: Block): Core {
    if Height(b) > Height(s.bLock) then s.(bLock := b) else s
  }

  /** The commit loop, from blk down to the executed block. */
  function Commit(s: Core, blk: Block): Outcome {
    var path := Path(blk, Height(s.bExec));
    if Walk(blk, Height(s.bExec)) != s.bExec then Outcome(s, false, SafetyBreach)
    else Outcome(s.(decided := s.decided + Elements(path), bExec := blk, log := s.log + path), false, NoError)
  }

  function Update(mode: Mode, s: Core, nblk: Block): Outcome {
    match mode
    case ThreeStep =>
      var blk2 := Justify(nblk);
      if blk2 in s.decided then Outcome(s, false, NoError) else
      var s1 := UpdateHqc(s, blk2);
      var blk1 := Justify(blk2);
      if blk1 in s1.decided then Outcome(s1, false, NoError) else
      var s2 := UpdateLock(s1, blk1);
      var blk := Justify(blk1);
      if blk in s2.decided then Outcome(s2, false, NoError)
      else if Parent(blk2) != blk1 || Parent(blk1) != blk then Outcome(s2, false, NoError)
      else Commit(s2, blk)
    case TwoStep =>
      var blk1 := Justify(nblk);
      if blk1 in s.decided then Outcome(s, false, NoError) else
      var s1 := UpdateHqc(s, blk1);
      var s2 := UpdateLock(s1, blk1);
      var blk := Justify(blk1);
      if blk in s2.decided then Outcome(s2, false, NoError)
      else if Parent(blk1) != blk then Outcome(s2, false, NoError)
      else Commit(s2, blk)
  }

  /** The opinion on_receive_proposal forms: the liveness condition, else the safety condition. */
  predicate Opinion(s: Core, b: Block) {
    && Height(b) > s.vheight
    && (Height(Justify(b)) > Height(s.bLock) || Walk(b, Height(s.bLock)) == s.bLock)
  }

  function CastVote(s: Core, b: Block, enabled: bool): Outcome {
    if Opinion(s, b) then Outcome(s.(vheight := Height(b)), enabled, NoError)
    else Outcome(s, false, NoError)
  }

  function ReceiveProposal(mode: Mode, s: Core, b: Block, enabled: bool): Outcome {
    if b !in s.delivered then Outcome(s, false, NotDelivered) else
    var u := Update(mode, s, b);
    if u.error != NoError then u else CastVote(u.core, b, enabled)
  }

  function VotedFor(s: Core, b: Block): set<nat> {
    if b in s.voted then s.voted[b] else {}
  }

  function ReceiveVote(s: Core, majority: nat, v: Vote): Outcome {
    if v.blk !in s.delivered then Outcome(s, false, NotDelivered) else
    var have := VotedFor(s, v.blk);
    if |have| >= majority || v.voter in have then Outcome(s, false, NoError) else
    var s1 := s.(voted := s.voted[v.blk := have + {v.voter}]);
    Outcome(if |have| + 1 == majority then UpdateHqc(s1, v.blk) else s1, false, NoError)
  }

  /** The block on_propose builds on the tail that PMHighTail picked. */
  function NewBlock(s: Core, tail: Block, payload: Payload): Block {
    Node(tail, [], s.hqc, payload)
  }

  function Propose(mode: Mode, s: Core, tail: Block, payload: Payload, enabled: bool): Outcome {
    var b := NewBlock(s, tail, payload);
    Finish(mode, Deliver(s.(tails := s.tails - {tail}), b), b, enabled)
  }

  /** The part of on_propose behind delivery. */
  function Finish(mode: Mode, s: Core, b: Block, enabled: bool): Outcome {
    var u := Update(mode, s, b);
    if u.error != NoError then u
    else if Height(b) <= u.core.vheight then Outcome(u.core, false, NotHigher)
    else CastVote(u.core, b, enabled)
  }

  // ---- what every handler keeps -----------------------------------------------------------

  /** Delivered blocks have delivered parents and extend the delivered block their certificate names. */
  ghost predicate DeliveredClosed(delivered: set<Block>) {
    && Genesis in delivered
    && forall b :: b in delivered && b.Node? ==>
      && (forall p :: p in Parents(b) ==> p in delivered)
      && Extends(b.parent, b.justify)
  }

  /** tails: the delivered blocks that no delivered block has as a parent. */
  ghost predicate TailsExact(delivered: set<Block>, tails: set<Block>) {
    forall b {:trigger b in tails} :: b in tails <==> b in delivered && !HasChild(delivered, b)
  }

  ghost predicate HasChild(delivered: set<Block>, b: Block) {
    exists c :: c in delivered && b in Parents(c)
  }

  /** The decided set is the executed chain and the log lists it in order. */
  ghost predicate DecidedIsChain(decided: set<Block>, bExec: Block, log: seq<Block>) {
    && (forall b :: b in decided <==> Extends(bExec, b))
    && log == Path(bExec, 0)
  }

  ghost predicate HeightsOrdered(s: Core) {
    Height(s.bExec) <= Height(s.bLock) <= Height(s.hqc)
  }

  ghost predicate CoreInv(s: Core) {
    && DeliveredClosed(s.delivered)
    && TailsExact(s.delivered, s.tails)
    && DecidedIsChain(s.decided, s.bExec, s.log)
    && HeightsOrdered(s)
    && s.hqc in s.delivered && s.bLock in s.delivered && s.bExec in s.delivered
  }

  /** Between handlers the lock is no higher than the last vote. */
  ghost predicate LockBelowVote(s: Core) {
    Height(s.bLock) <= s.vheight
  }

  /** The block whose lock a voter for b has taken. */
  function LockTarget(mode: Mode, b: Block): Block {
    match mode
    case ThreeStep => Justify(Justify(b))
    case TwoStep => Justify(b)
  }

  /** t ends a chain of direct parents that commits b once t is certified. */
  predicate Commits(mode: Mode, t: Block, b: Block) {
    && b == LockTarget(mode, t)
    && t.Node? && t.parent == t.justify
    && (mode.ThreeStep? ==> t.justify.Node? && t.justify.parent == t.justify.justify)
  }
}
