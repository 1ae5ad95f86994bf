/** One replica as the program keeps it: a store of entries in place of block sets, certificates
    beside the blocks they name. What its handlers read may have been pruned. */
module StoreModel {
  import opened Bytes
  import opened Blocks
  import opened Quorums
  import opened Signatures
  import opened Certificates
  import opened BlockStore
  import opened Options
  import opened ReplicaModel

  datatype State = State(
    store: Store,
    hqc: Block,
    hqcQc: Cert,
    bLock: Block,
    bExec: Block,
    vheight: nat,
    tails: set<Block>,
    log: seq<Block>) // the do_consensus calls so far

  datatype Result = Result(st: State, voted: bool, error: Error)

  datatype Delivery = Delivery(st: State, valid: bool, error: Error)

  function Initial(n: nat, hashOf: BlockHash): State {
    State(map[Genesis := Entry([], Some(Genesis), 0, true, true, AllReplicas(n), None)],
      Genesis, EmptyCert(n, hashOf(Genesis)), Genesis, Genesis, 0, {Genesis}, [])
  }

  // ---- delivery ----------------------------------------------------------------------------

  /** add_blk: the first entry for a block stays. */
  function Fetch(st: State, b: Block): State {
    if b in st.store then st else st.(store := st.store[b := Fetched])
  }

  predicate AllDelivered(store: Store, ps: seq<Block>) {
    forall p :: p in ps ==> Delivered(store, p)
  }

  /** The delivered blocks in front of the first undelivered one. */
  function DeliveredPrefix(store: Store, ps: seq<Block>): (prefix: seq<Block>)
    ensures prefix <= ps
    ensures forall p :: p in prefix ==> Delivered(store, p)
    ensures prefix == ps <==> AllDelivered(store, ps)
  {
    if ps == [] || !Delivered(store, ps[0]) then []
    else
      var rest := DeliveredPrefix(store, ps[1..]);
      assert ps == [ps[0]] + ps[1..];
      [ps[0]] + rest
  }

  /** on_deliver_blk */
  function Deliver(st: State, b: Block): Delivery
    requires b in st.store
  {
    var e := st.store[b];
    if e.delivered || b.Genesis? then Delivery(st, false, NoError)
    else if !AllDelivered(st.store, Parents(b)) then
      Delivery(st.(store := st.store[b := e.(parents := DeliveredPrefix(st.store, Parents(b)))]), false, NotDelivered)
    else
      var e1 := e.(parents := Parents(b), height := HeightOf(st.store, b.parent) + 1);
      if b.justify !in st.store then Delivery(st.(store := st.store[b := e1]), false, QcNotFetched)
      else Delivery(
        st.(store := st.store[b := e1.(qcRef := Some(b.justify), delivered := true)],
            tails := st.tails - Elements(Parents(b)) + {b}),
        true, NoError)
  }

  // ---- update ------------------------------------------------------------------------------

  /** A walk of PMHighTail's callback on a new hqc runs into an emptied list. */
  predicate TailsCut(st: State) {
    exists t :: t in st.tails && Descend(st.store, t, HeightOf(st.store, st.hqc)).None?
  }

  /** update_hqc with its callback. */
  function UpdateHqc(st: State, b: Block, qc: Cert): Result {
    if HeightOf(st.store, b) <= HeightOf(st.store, st.hqc) then Result(st, false, NoError) else
    var s := st.(hqc := b, hqcQc := qc);
    Result(s, false, if TailsCut(s) then OutOfBounds else NoError)
  }

  function UpdateLock(st: State, b: Block): State {
    if HeightOf(st.store, b) > HeightOf(st.store, st.bLock) then st.(bLock := b) else st
  }

  /** The commit loops. */
  function Commit(st: State, blk: Block): Result {
    match Descend(st.store, blk, HeightOf(st.store, st.bExec))
    case None => Result(st, false, OutOfBounds)
    case Some(b) =>
      if b != st.bExec then Result(st, false, SafetyBreach) else
      var path := Visited(st.store, blk, HeightOf(st.store, st.bExec));
      Result(st.(store := Decide(st.store, Elements(path)), bExec := blk, log := st.log + path), false, NoError)
  }

  function QcOf(b: Block): Cert {
    if b.Genesis? then EmptyCert(0, []) else b.payload.qc
  }

  /** qc_ref, unless it is null or decided. */
  function UndecidedRef(store: Store, b: Block): Option<Block> {
    var r := QcRef(store, b);
    if r.Some? && !Decision(store, r.value) then r else None
  }

  /** update: the block the certificate names is offered to hqc. */
  function Update(mode: Mode, st: State, nblk: Block): Result {
    var r := UndecidedRef(st.store, nblk);
    if r.None? then Result(st, false, NoError) else
    var u := UpdateHqc(st, r.value, QcOf(nblk));
    if u.error != NoError then u else FromHqc(mode, u.st, r.value)
  }

  /** The two builds: the lock goes to the block named next, or to the same one. */
  function FromHqc(mode: Mode, st: State, c1: Block): Result {
    match mode
    case ThreeStep =>
      var r := UndecidedRef(st.store, c1);
      if r.None? then Result(st, false, NoError)
      else FromLock(UpdateLock(st, r.value), r.value, Direct(st.store, c1, r.value))
    case TwoStep => FromLock(UpdateLock(st, c1), c1, true)
  }

  /** The end of update in both builds: a direct parent is required at every link. */
  function FromLock(st: State, blk1: Block, direct: bool): Result {
    var blk := UndecidedRef(st.store, blk1);
    if blk.None? || !direct || !Direct(st.store, blk1, blk.value) then Result(st, false, NoError)
    else Commit(st, blk.value)
  }

  /** The block update comes to commit: three, or two, undecided links of direct parents down. */
  function CommitTarget(mode: Mode, store: Store, nblk: Block): Option<Block> {
    match mode
    case ThreeStep =>
      var blk2 :- UndecidedRef(store, nblk);
      var blk1 :- UndecidedRef(store, blk2);
      var blk :- UndecidedRef(store, blk1);
      if Direct(store, blk2, blk1) && Direct(store, blk1, blk) then Some(blk) else None
    case TwoStep =>
      var blk1 :- UndecidedRef(store, nblk);
      var blk :- UndecidedRef(store, blk1);
      if Direct(store, blk1, blk) then Some(blk) else None
  }

  /** That block is no higher than the executed one: its entry has lost its decision flag. */
  predicate CommitsBelow(mode: Mode, st: State, nblk: Block) {
    var blk := CommitTarget(mode, st.store, nblk);
    blk.Some? && HeightOf(st.store, blk.value) <= HeightOf(st.store, st.bExec)
  }

  // ---- proposals and votes -----------------------------------------------------------------

  /** The opinion on_receive_proposal forms; None where the walk runs into an emptied list. */
  function Opinion(st: State, b: Block): Option<bool> {
    if HeightOf(st.store, b) <= st.vheight then Some(false)
    else if QcRef(st.store, b).Some? && HeightOf(st.store, QcRef(st.store, b).value) > HeightOf(st.store, st.bLock)
    then Some(true)
    else match Descend(st.store, b, HeightOf(st.store, st.bLock))
      case None => None
      case Some(x) => Some(x == st.bLock)
  }

  /** Opinion, PMHighTail's callback on the proposal, vote. */
  function CastVote(st: State, b: Block, enabled: bool): Result {
    match Opinion(st, b)
    case None => Result(st, false, OutOfBounds)
    case Some(opinion) =>
      var s := if opinion then st.(vheight := HeightOf(st.store, b)) else st;
      if Descend(st.store, b, HeightOf(st.store, st.hqc)).None? then Result(s, false, OutOfBounds)
      else Result(s, opinion && enabled, NoError)
  }

  function ReceiveProposal(mode: Mode, st: State, b: Block, enabled: bool): Result {
    if !Delivered(st.store, b) then Result(st, false, NotDelivered) else
    var u := Update(mode, st, b);
    if u.error != NoError then u else CastVote(u.st, b, enabled)
  }

  /** A walk down from b, to hqc or to the lock, meets a list of parents that pruning emptied. */
  predicate MeetsEmptied(st: State, b: Block) {
    || Descend(st.store, b, HeightOf(st.store, st.hqc)).None?
    || (HeightOf(st.store, b) > st.vheight && Descend(st.store, b, HeightOf(st.store, st.bLock)).None?)
  }

  /** Receiving b reads out of bounds: on a walk from b, or, if b brings a new hqc, on one from a tail. */
  predicate Stumbles(st: State, b: Block) {
    || MeetsEmptied(st, b)
    || var r := UndecidedRef(st.store, b);
       r.Some? && HeightOf(st.store, r.value) > HeightOf(st.store, st.hqc) && TailsCut(st.(hqc := r.value))
  }

  /** hqc_tail after that callback. */
  function TailAfterProposal(st: State, b: Block, tail: Block): Block {
    if Descend(st.store, b, HeightOf(st.store, st.hqc)) == Some(st.hqc)
      && HeightOf(st.store, b) > HeightOf(st.store, tail) then b else tail
  }

  /** What the callback on a new hqc may pick: hqc or the highest tail whose walk ends on it. */
  ghost predicate BestTail(st: State, t: Block) {
    && (t == st.hqc || (t in st.tails && EndsOnHqc(st, t)))
    && (forall u :: u in st.tails && EndsOnHqc(st, u) ==> HeightOf(st.store, u) <= HeightOf(st.store, t))
    && HeightOf(st.store, st.hqc) <= HeightOf(st.store, t)
  }

  predicate EndsOnHqc(st: State, t: Block) {
    Descend(st.store, t, HeightOf(st.store, st.hqc)) == Some(st.hqc)
  }

  /** hqc_tail after that callback, which fires only when hqc moved. */
  ghost predicate TailAfterHqc(before: State, after: State, tail: Block, tail': Block) {
    if after.hqc == before.hqc then tail' == tail else BestTail(after, tail')
  }

  /** The certificate under construction for b, made when the first vote comes. */
  function SelfQc(n: nat, hashOf: BlockHash, store: Store, b: Block): Cert {
    if b in store && store[b].selfQc.Some? then store[b].selfQc.value else EmptyCert(n, hashOf(b))
  }

  /** on_receive_vote, for a vote whose signature has been verified. */
  function ReceiveVote(n: nat, majority: nat, hashOf: BlockHash, st: State, v: Vote, sig: Data): Result
    requires v.voter < |SelfQc(n, hashOf, st.store, v.blk).rids|
  {
    if !Delivered(st.store, v.blk) then Result(st, false, NotDelivered) else
    var e := st.store[v.blk];
    if |e.voted| >= majority || v.voter in e.voted then Result(st, false, NoError) else
    var qc := AddPart(SelfQc(n, hashOf, st.store, v.blk), v.voter, sig);
    var s := Counted(st, v, qc);
    if |e.voted| + 1 == majority then UpdateHqc(s, v.blk, qc) else Result(s, false, NoError)
  }

  function Counted(st: State, v: Vote, qc: Cert): State
    requires v.blk in st.store
  {
    var e := st.store[v.blk];
    st.(store := st.store[v.blk := e.(voted := e.voted + {v.voter}, selfQc := Some(qc))])
  }

  /** The block on_propose builds, with hqc's certificate in it. */
  function NewBlock(st: State, tail: Block, cmds: seq<nat>): Block {
    Node(tail, [], st.hqc, Payload(st.hqcQc, cmds))
  }

  /** on_propose up to delivery. The entry is new or the one already there; in both its
      certificate starts anew. */
  function Built(n: nat, hashOf: BlockHash, st: State, tail: Block, b: Block): State {
    var s := Fetch(st.(tails := st.tails - {tail}), b);
    Deliver(s.(store := s.store[b := s.store[b].(selfQc := Some(EmptyCert(n, hashOf(b))))]), b).st
  }

  function Propose(mode: Mode, n: nat, hashOf: BlockHash, st: State, tail: Block, cmds: seq<nat>, enabled: bool): Result {
    var b := NewBlock(st, tail, cmds);
    Finish(mode, Built(n, hashOf, st, tail, b), b, enabled)
  }

  /** The part of on_propose behind delivery. */
  function Finish(mode: Mode, st: State, b: Block, enabled: bool): Result {
    var u := Update(mode, st, b);
    if u.error != NoError then u
    else if HeightOf(u.st.store, b) <= u.st.vheight then Result(u.st, false, NotHigher)
    else CastVote(u.st, b, enabled)
  }

  // ---- what every handler keeps ------------------------------------------------------------

  ghost predicate StateOk(st: State) {
    && Sound(st.store)
    && st.hqc in st.store && st.bLock in st.store && st.bExec in st.store
    && forall t :: t in st.tails ==> t in st.store
  }
}
