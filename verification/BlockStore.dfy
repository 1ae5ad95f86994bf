/** EntityStorage: the blocks a replica has fetched and the fields it updates in them. A block
    may leave the store when pruning releases it, and be fetched and delivered afresh later. */
module BlockStore {
  import opened Blocks
  import opened Signatures
  import opened Options

  /** The fields of a fetched block that the core writes. */
  datatype Entry = Entry(
    parents: seq<Block>,
    qcRef: Option<Block>,
    height: nat,
    delivered: bool,
    decision: bool,
    voted: set<nat>,
    selfQc: Option<Cert>)

  type Store = map<Block, Entry>

  /** The entry of a block that was only parsed. */
  const Fetched: Entry := Entry([], None, 0, false, false, {}, None)

  predicate Delivered(store: Store, b: Block) {
    b in store && store[b].delivered
  }

  predicate Decision(store: Store, b: Block) {
    b in store && store[b].decision
  }

  function QcRef(store: Store, b: Block): Option<Block> {
    if b in store then store[b].qcRef else None
  }

  function HeightOf(store: Store, b: Block): nat {
    if b in store then store[b].height else 0
  }

  predicate Direct(store: Store, b: Block, p: Block) {
    b in store && store[b].parents != [] && store[b].parents[0] == p
  }

  /** Down parents[0] until height h; None where a list of parents has been emptied. */
  function Descend(store: Store, b: Block, h: nat): Option<Block> {
    if HeightOf(store, b) <= h then Some(b)
    else if b.Genesis? || !Direct(store, b, b.parent) then None
    else Descend(store, b.parent, h)
  }

  /** The blocks on that walk above height h, lowest first. */
  function Visited(store: Store, b: Block, h: nat): (path: seq<Block>)
    ensures forall x :: x in path ==> x in store
  {
    if HeightOf(store, b) <= h || b.Genesis? || !Direct(store, b, b.parent) then []
    else Visited(store, b.parent, h) + [b]
  }

  /** Delivered entries know their height; certificate blocks are known only while the parents
      are complete; what an entry refers to is in the store. */
  ghost predicate EntryOk(store: Store, b: Block)
    requires b in store
  {
    var e := store[b];
    && e.parents <= Parents(b) && (forall p :: p in e.parents ==> Delivered(store, p))
    && (if e.delivered then e.height == Height(b) else e.voted == {} && e.height <= Height(b))
    && (e.qcRef.Some? ==>
      e.delivered && e.parents == Parents(b) && e.qcRef.value == Justify(b) && Justify(b) in store)
  }

  ghost predicate Sound(store: Store) {
    && Delivered(store, Genesis) && Decision(store, Genesis)
    && forall b :: b in store ==> EntryOk(store, b)
  }

  /** Setting the decision flag on some blocks. */
  function Decide(store: Store, xs: set<Block>): Store {
    map b | b in store :: if b in xs then store[b].(decision := true) else store[b]
  }

  /** A walk that is not cut short ends where it would in the full tree. */
  lemma {:induction false} DescendIsWalk(store: Store, b: Block, h: nat)
    requires Sound(store) && Delivered(store, b)
    ensures Descend(store, b, h).Some? ==>
      Descend(store, b, h).value == Walk(b, h) && Delivered(store, Walk(b, h))
    ensures Descend(store, b, h).Some? ==> Visited(store, b, h) == Path(b, h)
  {
    assert EntryOk(store, b);
    if Height(b) > h && Direct(store, b, b.parent) {
      assert b.parent in store[b].parents;
      DescendIsWalk(store, b.parent, h);
    }
  }

  /** A walk is cut short exactly by a delivered ancestor above its end that has lost its parents. */
  lemma {:induction false} CutByEmptied(store: Store, b: Block, h: nat)
    requires Sound(store) && Delivered(store, b)
    ensures Descend(store, b, h).None? <==>
      exists x :: Extends(b, x) && Height(x) > h && Delivered(store, x) && store[x].parents == []
        && Descend(store, b, Height(x)) == Some(x)
  {
    assert EntryOk(store, b);
    if Height(b) <= h {
      forall x | Extends(b, x) ensures Height(x) <= Height(b) {
        ExtendsHeight(b, x);
      }
    } else if store[b].parents == [] {
      assert Extends(b, b);
    } else {
      assert store[b].parents[0] == b.parent && b.parent in store[b].parents;
      CutByEmptied(store, b.parent, h);
      forall x | Extends(b.parent, x) ensures Descend(store, b, Height(x)) == Descend(store, b.parent, Height(x)) {
        ExtendsHeight(b.parent, x);
      }
    }
  }

  lemma {:induction false} DescendExtends(store: Store, b: Block, h: nat)
    ensures Descend(store, b, h).Some? ==> Extends(b, Descend(store, b, h).value)
  {
    if HeightOf(store, b) > h && b.Node? && Direct(store, b, b.parent) {
      DescendExtends(store, b.parent, h);
    }
  }
}
