/** What the handlers keep on any store, pruned or not: the store's soundness, and that what the
    core holds is delivered. */
module StoreProofs {
  import opened Bytes
  import opened Blocks
  import opened Quorums
  import opened Signatures
  import opened Certificates
  import opened BlockStore
  import opened StoreModel
  import opened Options
  import opened ReplicaModel

  lemma InitialOk(n: nat, hashOf: BlockHash)
    requires n > 0
    ensures StateOk(StoreModel.Initial(n, hashOf))
  {
  }

  /** Changing one entry soundly, without taking its delivery back, keeps the store sound. */
  lemma PutSound(store: Store, b: Block, e: Entry)
    requires Sound(store) && b != Genesis
    requires b in store ==> (store[b].delivered ==> e.delivered)
    requires EntryOk(store[b := e], b)
    ensures Sound(store[b := e])
    ensures forall x :: Delivered(store, x) ==> Delivered(store[b := e], x)
  {
    var store' := store[b := e];
    forall x | x in store' ensures EntryOk(store', x) {
      if x != b {
        assert EntryOk(store, x);
      }
    }
  }

  lemma FetchKeeps(st: State, b: Block)
    requires StateOk(st)
    ensures StateOk(Fetch(st, b)) && b in Fetch(st, b).store
    ensures forall x :: Delivered(Fetch(st, b).store, x) <==> Delivered(st.store, x)
  {
    if b !in st.store {
      PutSound(st.store, b, Fetched);
    }
  }

  lemma DeliverKeeps(st: State, b: Block)
    requires StateOk(st) && b in st.store
    ensures var d := StoreModel.Deliver(st, b);
      && StateOk(d.st)
      && (forall x :: Delivered(d.st.store, x) <==> Delivered(st.store, x) || (x == b && d.valid))
      && (d.valid ==> d.st.store[b].qcRef.Some?)
  {
    if !st.store[b].delivered {
      DeliveredEntryOk(st, b);
      hide EntryOk, Sound;
      PutSound(st.store, b, StoreModel.Deliver(st, b).st.store[b]);
    }
  }

  /** What on_deliver_blk comes to for an undelivered block, entry by entry. */
  lemma DeliverCases(st: State, b: Block)
    requires StateOk(st) && b in st.store && !st.store[b].delivered
    ensures b.Node? && Parents(b) != [] && Parents(b)[0] == b.parent
    ensures AllDelivered(st.store, Parents(b)) ==>
      b.parent in st.store && DeliveredPrefix(st.store, Parents(b)) == Parents(b)
    ensures var e := st.store[b];
      var d := StoreModel.Deliver(st, b);
      var e1 := e.(parents := Parents(b), height := HeightOf(st.store, b.parent) + 1);
      if !AllDelivered(st.store, Parents(b)) then
        d == Delivery(st.(store := st.store[b := e.(parents := DeliveredPrefix(st.store, Parents(b)))]), false, NotDelivered)
      else if b.justify !in st.store then d == Delivery(st.(store := st.store[b := e1]), false, QcNotFetched)
      else d == Delivery(st.(store := st.store[b := e1.(qcRef := Some(b.justify), delivered := true)],
        tails := st.tails - Elements(Parents(b)) + {b}), true, NoError)
  {
    assert b.Node? by {
      assert Delivered(st.store, Genesis);
    }
    assert b.parent in Parents(b);
    hide Sound, AllDelivered, DeliveredPrefix;
    if AllDelivered(st.store, Parents(b)) {
      AllGiveOne(st.store, b);
    }
  }

  lemma AllGiveOne(store: Store, b: Block)
    requires b.Node? && AllDelivered(store, Parents(b))
    ensures Delivered(store, b.parent)
  {
    assert b.parent in Parents(b);
  }

  lemma DeliveredEntryOk(st: State, b: Block)
    requires StateOk(st) && b in st.store && !st.store[b].delivered
    ensures var d := StoreModel.Deliver(st, b);
      && b.Node? && d.st.store == st.store[b := d.st.store[b]] && EntryOk(d.st.store, b)
      && d.st.store[b].delivered == d.valid && (d.valid ==> d.st.store[b].qcRef.Some?)
  {
    hide StoreModel.Deliver, Sound, EntryOk, DeliveredPrefix, AllDelivered, Parents, HeightOf, Height;
    DeliverCases(st, b);
    UndeliveredEntry(st.store, b);
    if !AllDelivered(st.store, Parents(b)) {
      PartialOk(st.store, b, DeliveredPrefix(st.store, Parents(b)));
    } else {
      AllGiveOne(st.store, b);
      WholeOk(st.store, b);
    }
  }

  lemma UndeliveredEntry(store: Store, b: Block)
    requires Sound(store) && b in store && !store[b].delivered
    ensures store[b].voted == {} && store[b].height <= Height(b) && store[b].qcRef == None
    ensures forall p :: Delivered(store, p) ==> HeightOf(store, p) == Height(p)
  {
    assert EntryOk(store, b);
    forall p | Delivered(store, p) ensures HeightOf(store, p) == Height(p) {
      assert EntryOk(store, p);
    }
  }

  lemma PartialOk(store: Store, b: Block, ps: seq<Block>)
    requires b in store && !store[b].delivered && ps <= Parents(b) && forall p :: p in ps ==> Delivered(store, p)
    requires store[b].voted == {} && store[b].height <= Height(b) && store[b].qcRef == None
    ensures EntryOk(store[b := store[b].(parents := ps)], b)
  {
  }

  lemma WholeOk(store: Store, b: Block)
    requires b in store && !store[b].delivered && b.Node? && AllDelivered(store, Parents(b))
    requires store[b].voted == {} && store[b].qcRef == None && HeightOf(store, b.parent) == Height(b.parent)
    ensures var e1 := store[b].(parents := Parents(b), height := HeightOf(store, b.parent) + 1);
      && EntryOk(store[b := e1], b)
      && (b.justify in store ==> EntryOk(store[b := e1.(qcRef := Some(b.justify), delivered := true)], b))
  {
  }

  /** Same entries but for decision flags. */
  ghost predicate SameEntries(store: Store, store': Store) {
    store'.Keys == store.Keys && forall b :: b in store ==> store'[b] == store[b].(decision := store'[b].decision)
  }

  /** What no part of update touches. */
  ghost predicate UpdateFrame(st: State, st': State) {
    st'.vheight == st.vheight && st'.tails == st.tails && SameEntries(st.store, st'.store)
  }

  lemma CommitKeeps(st: State, blk: Block)
    requires StateOk(st) && blk in st.store
    ensures !StoreModel.Commit(st, blk).voted
    ensures var u := StoreModel.Commit(st, blk).st;
      StateOk(u) && UpdateFrame(st, u) && u.hqc == st.hqc && u.hqcQc == st.hqcQc
  {
    DecideSound(st.store, Elements(Visited(st.store, blk, HeightOf(st.store, st.bExec))));
    hide Sound, Descend, Visited;
  }

  lemma DecideSound(store: Store, xs: set<Block>)
    requires Sound(store)
    ensures Sound(Decide(store, xs)) && SameEntries(store, Decide(store, xs))
  {
    var store' := Decide(store, xs);
    forall b | b in store' ensures EntryOk(store', b) {
      assert EntryOk(store, b);
    }
  }

  lemma FromLockKeeps(st: State, b: Block, direct: bool)
    requires StateOk(st)
    ensures !StoreModel.FromLock(st, b, direct).voted
    ensures var u := StoreModel.FromLock(st, b, direct).st;
      StateOk(u) && UpdateFrame(st, u) && u.hqc == st.hqc && u.hqcQc == st.hqcQc
  {
    RefInStore(st, b);
    if UndecidedRef(st.store, b).Some? {
      CommitKeeps(st, UndecidedRef(st.store, b).value);
    }
  }

  lemma RefInStore(st: State, b: Block)
    requires StateOk(st)
    ensures UndecidedRef(st.store, b).Some? ==>
      && UndecidedRef(st.store, b).value in st.store && UndecidedRef(st.store, b).value == Justify(b)
      && Delivered(st.store, b) && b.Node?
  {
    if b in st.store {
      assert EntryOk(st.store, b);
    }
  }

  /** update changes decision flags, hqc with its certificate, lock, executed block and log only,
      and the certificate it takes is the block's own. */
  lemma UpdateKeeps(mode: Mode, st: State, b: Block)
    requires StateOk(st)
    ensures var u := StoreModel.Update(mode, st, b).st;
      && StateOk(u) && UpdateFrame(st, u) && !StoreModel.Update(mode, st, b).voted
      && ((u.hqc == st.hqc && u.hqcQc == st.hqcQc)
        || (b.Node? && u.hqc == Justify(b) && u.hqcQc == QcOf(b) && Delivered(st.store, b)))
  {
    hide StateOk, StoreModel.FromHqc, UndecidedRef, StoreModel.UpdateHqc, SameEntries;
    RefInStore(st, b);
    SameOnce(st.store);
    var r := UndecidedRef(st.store, b);
    if r.Some? {
      var u := StoreModel.UpdateHqc(st, r.value, QcOf(b)).st;
      HqcKeeps(st, r.value, QcOf(b));
      InStoreStill(st.store, u.store, r.value);
      FromHqcKeeps(mode, u, r.value);
      SameTwice(st.store, u.store, StoreModel.FromHqc(mode, u, r.value).st.store);
    }
  }

  lemma SameOnce(a: Store)
    ensures SameEntries(a, a)
  {
  }

  lemma InStoreStill(a: Store, b: Store, x: Block)
    requires SameEntries(a, b) && x in a
    ensures x in b
  {
  }

  lemma SameTwice(a: Store, b: Store, c: Store)
    requires SameEntries(a, b) && SameEntries(b, c)
    ensures SameEntries(a, c)
  {
  }

  lemma HqcKeeps(st: State, b: Block, qc: Cert)
    requires StateOk(st) && b in st.store
    ensures !StoreModel.UpdateHqc(st, b, qc).voted
    ensures var u := StoreModel.UpdateHqc(st, b, qc).st;
      StateOk(u) && UpdateFrame(st, u) && (u == st || u == st.(hqc := b, hqcQc := qc))
  {
    hide Sound;
  }

  lemma FromHqcKeeps(mode: Mode, st: State, c1: Block)
    requires StateOk(st) && c1 in st.store
    ensures !StoreModel.FromHqc(mode, st, c1).voted
    ensures var u := StoreModel.FromHqc(mode, st, c1).st;
      StateOk(u) && UpdateFrame(st, u) && u.hqc == st.hqc && u.hqcQc == st.hqcQc
  {
    hide Sound, StoreModel.FromLock, UndecidedRef;
    RefInStore(st, c1);
    match mode
    case TwoStep => FromLockKeeps(StoreModel.UpdateLock(st, c1), c1, true);
    case ThreeStep =>
      var r := UndecidedRef(st.store, c1);
      if r.Some? {
        FromLockKeeps(StoreModel.UpdateLock(st, r.value), r.value, Direct(st.store, c1, r.value));
      }
  }

  lemma CastVoteKeeps(st: State, b: Block, enabled: bool)
    requires StateOk(st)
    ensures var u := StoreModel.CastVote(st, b, enabled).st;
      StateOk(u) && u == st.(vheight := u.vheight)
  {
  }

  lemma ReceiveVoteKeeps(n: nat, majority: nat, hashOf: BlockHash, st: State, v: Vote, sig: Data)
    requires StateOk(st) && v.voter < |SelfQc(n, hashOf, st.store, v.blk).rids|
    ensures StateOk(StoreModel.ReceiveVote(n, majority, hashOf, st, v, sig).st)
  {
    if Delivered(st.store, v.blk) {
      var e := st.store[v.blk];
      var qc := AddPart(SelfQc(n, hashOf, st.store, v.blk), v.voter, sig);
      ChangeSound(st.store, v.blk, e.voted + {v.voter}, Some(qc));
    }
  }

  /** Votes and certificate under construction of a delivered block may change freely. */
  lemma ChangeSound(store: Store, b: Block, voted: set<nat>, selfQc: Option<Cert>)
    requires Sound(store) && b in store && (Delivered(store, b) || voted == {})
    ensures var store' := store[b := store[b].(voted := voted, selfQc := selfQc)];
      && Sound(store')
      && (forall x :: Delivered(store', x) <==> Delivered(store, x))
      && (forall x :: Decision(store', x) <==> Decision(store, x))
  {
    var store' := store[b := store[b].(voted := voted, selfQc := selfQc)];
    forall x | x in store' ensures EntryOk(store', x) {
      assert EntryOk(store, x);
    }
  }

  lemma FetchedVotes(store: Store, b: Block)
    requires Sound(store) && b in store
    ensures Delivered(store, b) || store[b].voted == {}
  {
    assert EntryOk(store, b);
  }

  /** on_propose up to delivery leaves the new block delivered. */
  lemma BuiltKeeps(n: nat, hashOf: BlockHash, st: State, tail: Block, b: Block)
    requires StateOk(st) && Delivered(st.store, tail) && b.Node? && Parents(b) == [tail] && b.justify == st.hqc
    ensures StateOk(Built(n, hashOf, st, tail, b))
    ensures forall x :: Delivered(Built(n, hashOf, st, tail, b).store, x) <==> Delivered(st.store, x) || x == b
  {
    hide Sound, EntryOk;
    var s := Fetch(st.(tails := st.tails - {tail}), b);
    FetchKeeps(st.(tails := st.tails - {tail}), b);
    FetchedVotes(s.store, b);
    ChangeSound(s.store, b, s.store[b].voted, Some(EmptyCert(n, hashOf(b))));
    DeliverKeeps(s.(store := s.store[b := s.store[b].(selfQc := Some(EmptyCert(n, hashOf(b))))]), b);
  }

  lemma BuiltVotes(n: nat, hashOf: BlockHash, st: State, tail: Block, b: Block)
    requires StateOk(st)
    ensures var u := Built(n, hashOf, st, tail, b).store;
      forall x :: Delivered(u, x) ==>
        u[x].voted == {} || (Delivered(st.store, x) && u[x].voted == st.store[x].voted)
  {
    if b in st.store {
      FetchedVotes(st.store, b);
    }
  }

  lemma DeliverOthers(st: State, b: Block)
    requires b in st.store
    ensures forall x :: x in st.store && x != b ==> StoreModel.Deliver(st, b).st.store[x] == st.store[x]
    ensures StoreModel.Deliver(st, b).st.store.Keys == st.store.Keys
  {
  }

  lemma BuiltHqc(n: nat, hashOf: BlockHash, st: State, tail: Block, b: Block)
    ensures Built(n, hashOf, st, tail, b).hqc == st.hqc
  {
  }

  lemma ResetKeeps(st: State, b: Block, selfQc: Option<Cert>)
    requires StateOk(st) && b in st.store
    ensures StateOk(st.(store := st.store[b := st.store[b].(selfQc := selfQc)]))
  {
    FetchedVotes(st.store, b);
    ChangeSound(st.store, b, st.store[b].voted, selfQc);
  }

  lemma DeliverStays(st: State, b: Block)
    requires StateOk(st) && b in st.store
    ensures StateOk(StoreModel.Deliver(st, b).st) && forall x :: Delivered(st.store, x) ==> Delivered(StoreModel.Deliver(st, b).st.store, x)
    ensures st.store[b].delivered ==> StoreModel.Deliver(st, b) == Delivery(st, false, NoError)
  {
    DeliverKeeps(st, b);
    DeliverOthers(st, b);
  }

  /** Under the liveness condition the walk to the lock is not made: whether it is cut plays no part. */
  lemma LivenessSkipsLock(st: State, b: Block, enabled: bool)
    requires StateOk(st) && QcRef(st.store, b).Some? && Height(b) > st.vheight
    requires HeightOf(st.store, Justify(b)) > HeightOf(st.store, st.bLock)
    ensures StoreModel.CastVote(st, b, enabled) == if Descend(st.store, b, HeightOf(st.store, st.hqc)).None?
      then Result(st.(vheight := Height(b)), false, OutOfBounds)
      else Result(st.(vheight := Height(b)), enabled, NoError)
  {
    assert EntryOk(st.store, b);
  }
}
