/** What prune does to the store: it strips the blocks reachable from its start and releases
    some of them (src/consensus.cpp, include/hotstuff/entity.h `try_release_blk`). */
module Pruning {
  import opened Blocks
  import opened BlockStore
  import opened StoreModel
  import opened Options

  // ---- the result --------------------------------------------------------------------------

  /** The first loop: k steps down parents[0]; None at a block without parents. */
  function Skip(store: Store, b: Block, k: nat): Option<Block> {
    if k == 0 then Some(b)
    else if b.Genesis? || !Direct(store, b, b.parent) then None
    else Skip(store, b.parent, k - 1)
  }

  /** A path along the parent edges of the store, uncles included. */
  ghost predicate ParentPath(store: Store, path: seq<Block>) {
    && path != []
    && (forall i :: 0 <= i < |path| ==> path[i] in store)
    && forall i :: 0 <= i < |path| - 1 ==> path[i + 1] in store[path[i]].parents
  }

  ghost predicate Reachable(store: Store, start: Block, b: Block) {
    exists path :: ParentPath(store, path) && path[0] == start && path[|path| - 1] == b
  }

  /** What is reachable loses parents and certificate block; blocks that had no parents and all
      others stay as they were. */
  ghost function Stripped(store: Store, start: Block): Store {
    map b | b in store :: if Reachable(store, start, b) && (b == start || store[b].parents != [])
      then store[b].(parents := [], qcRef := None) else store[b]
  }

  /** An entry of the store refers to b. */
  predicate Referenced(store: Store, b: Block) {
    exists x :: x in store && (b in store[x].parents || store[x].qcRef == Some(b))
  }

  /** The core or its pace maker holds b. */
  predicate HeldByCore(st: State, tail: Block, b: Block) {
    b in {Genesis, st.hqc, st.bLock, st.bExec, tail} || b in st.tails
  }

  /** prune, with any choice of unreferenced stripped blocks to release: what else holds a block
      besides the core and the store, and so keeps it there, is left open. */
  ghost predicate Prunes(st: State, tail: Block, staleness: nat, released: set<Block>, st': State) {
    match Skip(st.store, st.bExec, staleness)
    case None => st' == st && released == {}
    case Some(start) =>
      && st' == st.(store := Stripped(st.store, start) - released)
      && forall r :: r in released ==>
        Reachable(st.store, start, r) && !HeldByCore(st, tail, r) && !Referenced(st'.store, r)
  }

  // ---- reachability ------------------------------------------------------------------------

  lemma {:induction false} SkipDown(store: Store, b: Block, k: nat)
    requires Sound(store) && Delivered(store, b)
    ensures match Skip(store, b, k)
      case None => true
      case Some(start) => Extends(b, start) && Height(start) + k == Height(b) && Delivered(store, start)
  {
    assert EntryOk(store, b);
    if k > 0 && b.Node? && Direct(store, b, b.parent) {
      assert b.parent in store[b].parents;
      SkipDown(store, b.parent, k - 1);
    }
  }

  lemma ReachableStep(store: Store, start: Block, b: Block, p: Block)
    requires Reachable(store, start, b) && b in store && p in store[b].parents && p in store
    ensures Reachable(store, start, p)
  {
    var path :| ParentPath(store, path) && path[0] == start && path[|path| - 1] == b;
    var longer := path + [p];
    assert ParentPath(store, longer) && longer[|longer| - 1] == p;
  }

  /** What is reachable is delivered and contained in the start. */
  lemma {:induction false} PathInside(store: Store, path: seq<Block>)
    requires Sound(store) && ParentPath(store, path) && Delivered(store, path[0])
    ensures Delivered(store, path[|path| - 1]) && Contains(path[0], path[|path| - 1])
  {
    if |path| > 1 {
      var b := path[|path| - 2];
      PathInside(store, path[..|path| - 1]);
      assert EntryOk(store, b);
      assert path[|path| - 2 + 1] in store[b].parents;
      var p := path[|path| - 1];
      assert p in Parents(b);
      assert Contains(p, p);
      assert Contains(b, p);
      ContainsTransitive(path[0], b, p);
    }
  }

  lemma ReachableInside(store: Store, start: Block, b: Block)
    requires Sound(store) && Delivered(store, start) && Reachable(store, start, b)
    ensures Delivered(store, b) && Contains(start, b)
  {
    var path :| ParentPath(store, path) && path[0] == start && path[|path| - 1] == b;
    PathInside(store, path);
  }

  /** Pruning from an ancestor of the executed block reaches nothing that extends the executed
      block, except that block itself when it is the start. */
  lemma ReachesNothingAbove(store: Store, bExec: Block, start: Block, b: Block)
    requires Sound(store) && Delivered(store, start) && Extends(bExec, start)
    requires Reachable(store, start, b) && Extends(b, bExec)
    ensures b == bExec
  {
    ReachableInside(store, start, b);
    ExtendsContains(bExec, start);
    ExtendsContains(b, bExec);
    ContainsTransitive(bExec, start, b);
    ContainsAntisymmetric(bExec, b);
  }

  // ---- what pruning keeps ------------------------------------------------------------------

  lemma StrippedSound(store: Store, start: Block)
    requires Sound(store)
    ensures Sound(Stripped(store, start))
  {
    hide Reachable;
    var s := Stripped(store, start);
    forall b | b in s ensures EntryOk(s, b) {
      assert EntryOk(store, b);
      assert store[b].parents != [] || store[b] == s[b] || b == start;
    }
  }

  /** Stripping touches only parents and certificate blocks. */
  lemma StrippedFields(store: Store, start: Block)
    ensures var s := Stripped(store, start);
      s.Keys == store.Keys && forall b :: b in store ==>
        s[b] == store[b].(parents := s[b].parents, qcRef := s[b].qcRef)
  {
    hide Reachable;
  }

  lemma ReleasedSound(store: Store, released: set<Block>)
    requires Sound(store) && Genesis !in released
    requires forall r :: r in released ==> !Referenced(store - released, r)
    ensures Sound(store - released)
  {
    var s := store - released;
    forall b | b in s ensures EntryOk(s, b) {
      assert EntryOk(store, b);
      forall p | p in s[b].parents ensures Delivered(s, p) {
        assert Referenced(s, p);
      }
      if s[b].qcRef.Some? {
        assert Referenced(s, Justify(b));
      }
    }
  }

  lemma PruneKeeps(st: State, tail: Block, staleness: nat, released: set<Block>, st': State)
    requires StateOk(st) && Prunes(st, tail, staleness, released, st')
    ensures StateOk(st')
    ensures forall b :: b in st.store && HeldByCore(st, tail, b) ==> b in st'.store
  {
    hide Reachable, Stripped, Sound, Referenced;
    match Skip(st.store, st.bExec, staleness)
    case None =>
    case Some(start) =>
      StrippedSound(st.store, start);
      StrippedFields(st.store, start);
      ReleasedSound(Stripped(st.store, start), released);
  }
}
