/** What ShardsContainer stores, as functions, and the simple map it stands for
    (rse-merkle/ShardsContainer.cpp). */
module ShardTable {
  import opened Bytes
  import opened Options
  import opened ErasureCode

  /** One block's slots, an empty slot meaning not received, and the insert counter. */
  datatype Entry = Entry(slots: seq<Data>, count: nat)

  type Table = map<Data, Entry>

  datatype Op = Insert(hash: Data, index: nat, data: Data) | Remove(hash: Data)

  function NewBlock(n: nat): Entry {
    Entry(seq(n, i => []), 0)
  }

  function EntryOf(n: nat, t: Table, hash: Data): Entry {
    if hash in t then t[hash] else NewBlock(n)
  }

  ghost predicate Shaped(n: nat, t: Table) {
    forall h :: h in t ==> |t[h].slots| == n
  }

  predicate Taken(n: nat, t: Table, hash: Data, index: nat)
    requires hash in t ==> index < |t[hash].slots|
  {
    hash in t && t[hash].slots[index] != []
  }

  function InsertShard(n: nat, t: Table, hash: Data, index: nat, data: Data): Table
    requires index < n && (hash in t ==> |t[hash].slots| == n)
  {
    var e := EntryOf(n, t, hash);
    if Taken(n, t, hash, index) then t
    else t[hash := Entry(e.slots[index := data], e.count + 1)]
  }

  function RemoveBlock(t: Table, hash: Data): Table {
    t - {hash}
  }

  function GetBlock(t: Table, threshold: nat, hash: Data): Option<seq<Data>> {
    if hash in t && t[hash].count >= threshold then Some(t[hash].slots) else None
  }

  // ---- the map it stands for ---------------------------------------------------------------

  function Filled(slots: seq<Data>): map<nat, Data> {
    map i: nat | i < |slots| && slots[i] != [] :: slots[i]
  }

  function View(t: Table): map<Data, map<nat, Data>> {
    map h | h in t :: Filled(t[h].slots)
  }

  function Held(v: map<Data, map<nat, Data>>, hash: Data): map<nat, Data> {
    if hash in v then v[hash] else map[]
  }

  /** The first write to an index stays. */
  function InsertFirst(v: map<Data, map<nat, Data>>, hash: Data, index: nat, data: Data): map<Data, map<nat, Data>> {
    if index in Held(v, hash) then v else v[hash := Held(v, hash)[index := data]]
  }

  predicate InRange(n: nat, op: Op) {
    op.Insert? ==> op.index < n
  }

  predicate NonEmpty(op: Op) {
    op.Insert? ==> op.data != []
  }

  function Apply(n: nat, t: Table, op: Op): Table
    requires op.Insert? ==> op.index < n && (op.hash in t ==> |t[op.hash].slots| == n)
  {
    match op
    case Insert(hash, index, data) => InsertShard(n, t, hash, index, data)
    case Remove(hash) => RemoveBlock(t, hash)
  }

  function ApplyView(v: map<Data, map<nat, Data>>, op: Op): map<Data, map<nat, Data>> {
    match op
    case Insert(hash, index, data) => InsertFirst(v, hash, index, data)
    case Remove(hash) => v - {hash}
  }

  /** Every counter equals the number of filled slots. */
  ghost predicate Exact(t: Table) {
    forall h :: h in t ==> t[h].count == Present(t[h].slots)
  }

  lemma {:induction false} PresentSet(slots: seq<Data>, i: nat, data: Data)
    requires i < |slots| && slots[i] == []
    ensures Present(slots[i := data]) == Present(slots) + if data == [] then 0 else 1
  {
    if i > 0 {
      PresentSet(slots[1..], i - 1, data);
      assert slots[i := data][1..] == slots[1..][i - 1 := data];
    } else {
      assert slots[i := data][1..] == slots[1..];
    }
  }

  lemma {:induction false} PresentFresh(n: nat)
    ensures Present(NewBlock(n).slots) == 0
  {
    if n > 0 {
      PresentFresh(n - 1);
      assert NewBlock(n).slots[1..] == NewBlock(n - 1).slots;
    }
  }

  /** The number of filled slots is the size of the map they stand for. */
  lemma {:induction false} PresentIsSize(slots: seq<Data>)
    ensures Present(slots) == |Filled(slots)|
  {
    if slots != [] {
      var n := |slots| - 1;
      PresentIsSize(slots[..n]);
      PresentLast(slots);
      if slots[n] == [] {
        assert Filled(slots) == Filled(slots[..n]);
      } else {
        assert Filled(slots) == Filled(slots[..n])[n := slots[n]];
      }
    } else {
      assert Filled(slots) == map[];
    }
  }

  lemma InsertCounts(n: nat, t: Table, hash: Data, index: nat, data: Data)
    requires Shaped(n, t) && Exact(t) && index < n
    ensures Shaped(n, InsertShard(n, t, hash, index, data))
    ensures Exact(InsertShard(n, t, hash, index, data)) <==> data != [] || Taken(n, t, hash, index)
  {
    PresentFresh(n);
    var e := EntryOf(n, t, hash);
    if !Taken(n, t, hash, index) {
      PresentSet(e.slots, index, data);
      var t' := InsertShard(n, t, hash, index, data);
      assert hash in t' && t'[hash].count == Present(e.slots) + 1;
    }
  }

  lemma InsertViews(n: nat, t: Table, hash: Data, index: nat, data: Data)
    requires Shaped(n, t) && index < n && data != []
    ensures View(InsertShard(n, t, hash, index, data)) == InsertFirst(View(t), hash, index, data)
  {
    var slots := EntryOf(n, t, hash).slots;
    assert Filled(slots) == Held(View(t), hash);
    if !Taken(n, t, hash, index) {
      assert Filled(slots[index := data]) == Filled(slots)[index := data];
    }
  }

  /** One insert or removal acts on the map as it should; a counter goes wrong exactly when an
      empty shard is inserted into an open slot. */
  lemma ApplyRefines(n: nat, t: Table, op: Op)
    requires Shaped(n, t) && Exact(t) && InRange(n, op)
    ensures Shaped(n, Apply(n, t, op))
    ensures Exact(Apply(n, t, op)) <==> NonEmpty(op) || Taken(n, t, op.hash, op.index)
    ensures NonEmpty(op) ==> View(Apply(n, t, op)) == ApplyView(View(t), op)
  {
    match op
    case Remove(hash) =>
      assert View(RemoveBlock(t, hash)) == View(t) - {hash};
    case Insert(hash, index, data) =>
      InsertCounts(n, t, hash, index, data);
      if data != [] {
        InsertViews(n, t, hash, index, data);
      }
  }

  function Run(n: nat, ops: seq<Op>): (t: Table)
    requires forall op :: op in ops ==> InRange(n, op)
    ensures forall h :: h in t ==> |t[h].slots| == n
  {
    if ops == [] then map[] else
    var last := ops[|ops| - 1];
    assert last in ops && InRange(n, last);
    Apply(n, Run(n, ops[..|ops| - 1]), last)
  }

  function RunView(ops: seq<Op>): map<Data, map<nat, Data>> {
    if ops == [] then map[] else ApplyView(RunView(ops[..|ops| - 1]), ops[|ops| - 1])
  }

  /** Over any sequence of inserts of non-empty shards and removals, the container stands for the
      map of first-written shards and its counters count them. */
  lemma {:induction false} RunRefines(n: nat, ops: seq<Op>)
    requires (forall op :: op in ops ==> InRange(n, op)) && (forall op :: op in ops ==> NonEmpty(op))
    ensures Shaped(n, Run(n, ops)) && Exact(Run(n, ops)) && View(Run(n, ops)) == RunView(ops)
  {
    if ops != [] {
      var last := ops[|ops| - 1];
      assert last in ops && InRange(n, last) && NonEmpty(last);
      RunRefines(n, ops[..|ops| - 1]);
      ApplyRefines(n, Run(n, ops[..|ops| - 1]), last);
    }
  }

  /** get_block succeeds exactly when enough distinct indices are held, and returns them in place. */
  lemma GetBlockCounts(n: nat, ops: seq<Op>, threshold: nat, hash: Data)
    requires (forall op :: op in ops ==> InRange(n, op)) && (forall op :: op in ops ==> NonEmpty(op))
    requires threshold > 0
    ensures GetBlock(Run(n, ops), threshold, hash).Some? <==> |Held(RunView(ops), hash)| >= threshold
    ensures GetBlock(Run(n, ops), threshold, hash).Some? ==>
      Filled(GetBlock(Run(n, ops), threshold, hash).value) == Held(RunView(ops), hash)
  {
    RunRefines(n, ops);
    var t := Run(n, ops);
    if hash in t {
      PresentIsSize(t[hash].slots);
    }
  }
}
