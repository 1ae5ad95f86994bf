/** The stack loop of prune, step by step: what it has stripped so far, and what it has released. */
module PruneLoop {
  import opened Blocks
  import opened BlockStore
  import opened Pruning
  import opened Options
  import Live = StoreModel

  /** Entry e' is e with some parents popped and perhaps its certificate block forgotten. */
  ghost predicate Popped(e: Entry, e': Entry) {
    && e' == e.(parents := e'.parents, qcRef := e'.qcRef)
    && e'.parents <= e.parents
    && (e'.qcRef == e.qcRef || e'.qcRef == None)
  }

  ghost predicate StorePopped(before: Store, store: Store) {
    && store.Keys == before.Keys
    && forall b :: b in before ==> Popped(before[b], store[b])
  }

  /** The parent edges still in the store. */
  ghost function Edges(store: Store): set<(Block, int)> {
    set b, i | b in store && 0 <= i < |store[b].parents| :: (b, i)
  }

  /** A popped parent has itself been emptied, or is waiting on the stack. */
  ghost predicate ParentsHandled(before: Store, store: Store, stack: seq<Block>)
    requires store.Keys == before.Keys
  {
    forall b :: b in before && |store[b].parents| < |before[b].parents| ==>
      && (store[b].parents == [] || b in stack)
      && forall j :: |store[b].parents| <= j < |before[b].parents| ==>
        before[b].parents[j] in before && (store[before[b].parents[j]].parents == [] || before[b].parents[j] in stack)
  }

  /** The finished store: start has no parents, and emptying spreads to every former parent. */
  ghost predicate Pruned(before: Store, store: Store, start: Block) {
    && StorePopped(before, store)
    && start in store && store[start].parents == []
    && forall b :: b in before && store[b].parents != before[b].parents ==>
      && store[b].parents == []
      && forall p :: p in before[b].parents ==> p in store && store[p].parents == []
  }

  /** After pruning every block reachable from start has no parents. */
  lemma {:induction false} ReachableHaveNoParents(before: Store, store: Store, start: Block, path: seq<Block>)
    requires Pruned(before, store, start)
    requires ParentPath(before, path) && path[0] == start
    ensures path[|path| - 1] in store && store[path[|path| - 1]].parents == []
    decreases |path|
  {
    if |path| > 1 {
      var init := path[..|path| - 1];
      var last := init[|init| - 1];
      ReachableHaveNoParents(before, store, start, init);
      assert path[|path| - 2 + 1] in before[path[|path| - 2]].parents;
    }
  }

  /** The invariant of the stack loop of prune. */
  ghost predicate PruneState(before: Store, store: Store, stack: seq<Block>, start: Block) {
    && StorePopped(before, store) && ParentsHandled(before, store, stack)
    && start in store && (start in stack || store[start].parents == [])
    && (forall x :: x in stack ==> x in store && Reachable(before, start, x))
    && TouchedReachable(before, store, start)
    && Cleared(before, store, start)
  }

  /** Exactly the start and the blocks that lost a parent have forgotten their certificate block. */
  ghost predicate Cleared(before: Store, store: Store, start: Block)
    requires store.Keys == before.Keys && start in before
  {
    && store[start].qcRef == None
    && forall b :: b in before && b != start ==>
      if store[b].parents == before[b].parents then store[b] == before[b] else store[b].qcRef == None
  }

  lemma FinishedIsStripped(before: Store, store: Store, start: Block)
    requires PruneState(before, store, [], start)
    ensures store == Stripped(before, start)
  {
    StackEmpty(before, store, start);
    forall b | b in before ensures store[b] == Stripped(before, start)[b] {
      assert Popped(before[b], store[b]);
      if Reachable(before, start, b) {
        var path :| ParentPath(before, path) && path[0] == start && path[|path| - 1] == b;
        ReachableHaveNoParents(before, store, start, path);
      }
    }
  }

  ghost predicate TouchedReachable(before: Store, store: Store, start: Block)
    requires store.Keys == before.Keys
  {
    forall b :: b in before && store[b] != before[b] ==> Reachable(before, start, b)
  }

  lemma StartState(before: Store, start: Block)
    requires start in before
    ensures PruneState(before, before[start := before[start].(qcRef := None)], [start], start)
  {
    assert ParentPath(before, [start]) && [start][0] == start;
    assert Reachable(before, start, start);
  }

  lemma TopInStore(before: Store, store: Store, stack: seq<Block>, start: Block)
    requires PruneState(before, store, stack, start) && stack != []
    ensures stack[|stack| - 1] in store
  {
    assert stack[|stack| - 1] in stack;
  }

  lemma StackEmpty(before: Store, store: Store, start: Block)
    requires PruneState(before, store, [], start)
    ensures Pruned(before, store, start)
  {
    forall b, p | b in before && store[b].parents != before[b].parents && p in before[b].parents
      ensures p in store && store[p].parents == []
    {
      assert |store[b].parents| < |before[b].parents|;
      var j :| 0 <= j < |before[b].parents| && before[b].parents[j] == p;
      assert before[b].parents[j] in before;
    }
  }

  lemma PopEdge(store: Store, b: Block)
    requires b in store && store[b].parents != []
    ensures Edges(store[b := PopParent(store[b])]) < Edges(store)
  {
    assert (b, |store[b].parents| - 1) in Edges(store);
    assert (b, |store[b].parents| - 1) !in Edges(store[b := PopParent(store[b])]);
  }

  function PopParent(e: Entry): Entry
    requires e.parents != []
  {
    e.(parents := e.parents[..|e.parents| - 1], qcRef := None)
  }

  function LastParent(e: Entry): Block
    requires e.parents != []
  {
    e.parents[|e.parents| - 1]
  }

  lemma PopKeeps(before: Store, store: Store, stack: seq<Block>, b: Block)
    requires StorePopped(before, store) && ParentsHandled(before, store, stack)
    requires b in store && b in stack && store[b].parents != [] && LastParent(store[b]) in before
    ensures var store' := store[b := PopParent(store[b])];
      StorePopped(before, store') && ParentsHandled(before, store', stack + [LastParent(store[b])])
  {
    var store' := store[b := PopParent(store[b])];
    var stack' := stack + [LastParent(store[b])];
    forall x, j | x in before && |store'[x].parents| <= j < |before[x].parents|
      ensures before[x].parents[j] in before
      ensures store'[before[x].parents[j]].parents == [] || before[x].parents[j] in stack'
    {
      if x == b && j == |store'[x].parents| {
        assert before[x].parents[j] == LastParent(store[b]);
      } else {
        assert before[x].parents[j] in before;
      }
    }
  }

  /** The last parent of a stacked block is reachable too. */
  lemma LastParentReachable(before: Store, store: Store, start: Block, b: Block)
    requires StorePopped(before, store) && Sound(before) && Delivered(before, start) && Reachable(before, start, b)
    requires b in store && store[b].parents != []
    ensures LastParent(store[b]) in before && Reachable(before, start, LastParent(store[b]))
  {
    ReachableInside(before, start, b);
    var p := LastParent(store[b]);
    assert EntryOk(before, b) && p in before[b].parents;
    ReachableStep(before, start, b, p);
  }

  /** One turn of the loop on a block that still has parents. */
  lemma PushStep(before: Store, store: Store, stack: seq<Block>, start: Block)
    requires PruneState(before, store, stack, start) && stack != []
    requires Sound(before) && Delivered(before, start)
    requires stack[|stack| - 1] in store && store[stack[|stack| - 1]].parents != []
    ensures var b := stack[|stack| - 1];
      var store' := store[b := PopParent(store[b])];
      && PruneState(before, store', stack + [LastParent(store[b])], start)
      && Edges(store') < Edges(store)
  {
    hide Sound, EntryOk, Edges, Reachable, StorePopped, ParentsHandled, Cleared, TouchedReachable;
    var b := stack[|stack| - 1];
    assert b in stack;
    LastParentReachable(before, store, start, b);
    PopEdge(store, b);
    PopKeeps(before, store, stack, b);
    PopClears(before, store, start, b);
  }

  lemma PopClears(before: Store, store: Store, start: Block, b: Block)
    requires StorePopped(before, store) && start in before && Cleared(before, store, start)
    requires TouchedReachable(before, store, start) && Reachable(before, start, b)
    requires b in store && store[b].parents != []
    ensures var store' := store[b := PopParent(store[b])];
      store'.Keys == before.Keys && Cleared(before, store', start) && TouchedReachable(before, store', start)
  {
    hide Reachable;
    assert Popped(before[b], store[b]);
  }

  /** One turn of the loop on a block without parents. */
  lemma UnstackStep(before: Store, store: Store, stack: seq<Block>, start: Block)
    requires PruneState(before, store, stack, start) && stack != []
    requires stack[|stack| - 1] in store && store[stack[|stack| - 1]].parents == []
    ensures PruneState(before, store, stack[..|stack| - 1], start)
  {
    hide Reachable, StorePopped;
    assert stack == stack[..|stack| - 1] + [stack[|stack| - 1]];
  }

  // ---- releasing ---------------------------------------------------------------------------

  /** The store is what was stripped without what was released; released blocks are reachable,
      off the stack and held by nobody. */
  ghost predicate ReleaseState(before: Store, kept: Store, stack: seq<Block>, start: Block, released: set<Block>) {
    && PruneState(before, kept, stack, start)
    && forall r :: r in released ==> r !in stack && Reachable(before, start, r) && !Referenced(kept - released, r)
  }

  lemma ReleasedStart(before: Store, start: Block)
    requires start in before
    ensures ReleaseState(before, before[start := before[start].(qcRef := None)], [start], start, {})
  {
    StartState(before, start);
  }

  lemma ReleasedPush(before: Store, kept: Store, stack: seq<Block>, start: Block, released: set<Block>)
    requires ReleaseState(before, kept, stack, start, released) && stack != [] && Sound(before) && Delivered(before, start)
    requires stack[|stack| - 1] in kept && kept[stack[|stack| - 1]].parents != []
    ensures var b := stack[|stack| - 1];
      var kept' := kept[b := PopParent(kept[b])];
      && ReleaseState(before, kept', stack + [LastParent(kept[b])], start, released) && Edges(kept') < Edges(kept)
      && b !in released && (kept - released)[b := PopParent(kept[b])] == kept' - released
  {
    hide Sound, Edges, PruneState, Reachable;
    var b := stack[|stack| - 1];
    assert b in stack;
    PushStep(before, kept, stack, start);
    var p := LastParent(kept[b]);
    var kept' := kept[b := PopParent(kept[b])];
    assert p in (kept - released)[b].parents;
    assert p !in released;
    forall r | r in released ensures !Referenced(kept' - released, r) {
      assert !Referenced(kept - released, r);
      forall x | x in kept' - released ensures r !in kept'[x].parents && kept'[x].qcRef != Some(r) {
        assert x in kept - released && (kept - released)[x] == kept[x];
        assert r !in (kept - released)[x].parents && (kept - released)[x].qcRef != Some(r);
      }
    }
  }

  lemma ReleasedPop(before: Store, kept: Store, stack: seq<Block>, start: Block, released: set<Block>)
    requires ReleaseState(before, kept, stack, start, released) && stack != []
    requires stack[|stack| - 1] in kept && kept[stack[|stack| - 1]].parents == []
    ensures ReleaseState(before, kept, stack[..|stack| - 1], start, released)
  {
    UnstackStep(before, kept, stack, start);
    hide PruneState, Reachable, Referenced;
  }

  /** Releasing the popped block, if nothing refers to it and it is not on the stack again. */
  lemma ReleasedOne(before: Store, kept: Store, stack: seq<Block>, start: Block, released: set<Block>, b: Block)
    requires ReleaseState(before, kept, stack, start, released) && b !in stack && Reachable(before, start, b)
    requires !Referenced(kept - released, b)
    ensures ReleaseState(before, kept, stack, start, released + {b})
    ensures (kept - released) - {b} == kept - (released + {b})
  {
    hide PruneState, Reachable;
    assert (kept - released) - {b} == kept - (released + {b});
  }

  // ---- nothing that could be released stays ------------------------------------------------

  /** No reachable block has uncles. */
  ghost predicate Single(before: Store, start: Block) {
    forall b :: b in before && Reachable(before, start, b) ==> |before[b].parents| <= 1
  }

  /** On the way down: nothing has been taken off the stack, and below its top all is emptied. */
  ghost predicate Descending(before: Store, kept: Store, stack: seq<Block>, start: Block) {
    && stack != [] && start in stack && (forall b :: b in stack ==> b in kept)
    && (forall i :: 0 <= i < |stack| - 1 ==> kept[stack[i]].parents == [])
    && forall b, p :: b in before && b in kept && p in before[b].parents ==> p in kept[b].parents || p in stack
  }

  /** On the way up: all is stripped, and what is off the stack is released unless something keeps it. */
  ghost predicate Ascending(before: Store, kept: Store, stack: seq<Block>, start: Block, released: set<Block>,
                            pinned: set<Block>) {
    && kept == Stripped(before, start)
    && forall r :: Reachable(before, start, r) ==> r in stack || r in released || r in pinned || Referenced(kept - released, r)
  }

  /** The turns of a loop over blocks with single parents. */
  ghost predicate Thorough(before: Store, kept: Store, stack: seq<Block>, start: Block, released: set<Block>,
                           pinned: set<Block>) {
    Single(before, start) ==>
      (released == {} && Descending(before, kept, stack, start)) || Ascending(before, kept, stack, start, released, pinned)
  }

  lemma ThoroughStart(before: Store, start: Block, pinned: set<Block>)
    requires start in before
    ensures Thorough(before, before[start := before[start].(qcRef := None)], [start], start, {}, pinned)
  {
  }

  lemma DescendPush(before: Store, kept: Store, stack: seq<Block>, start: Block)
    requires Descending(before, kept, stack, start) && kept.Keys == before.Keys
    requires var b := stack[|stack| - 1];
      b in kept && |kept[b].parents| == 1 && LastParent(kept[b]) in kept
    ensures var b := stack[|stack| - 1];
      Descending(before, kept[b := PopParent(kept[b])], stack + [LastParent(kept[b])], start)
  {
    var b := stack[|stack| - 1];
    var p := LastParent(kept[b]);
    var kept', stack' := kept[b := PopParent(kept[b])], stack + [p];
    assert kept[b].parents == [p] && kept'[b].parents == [];
    assert p in stack' && forall x :: x in stack ==> x in stack';
    forall x, q | x in before && x in kept' && q in before[x].parents ensures q in kept'[x].parents || q in stack' {
      assert q in kept[x].parents || q in stack;
    }
  }

  /** Going down one parent. */
  lemma ThoroughPush(before: Store, kept: Store, stack: seq<Block>, start: Block, released: set<Block>, pinned: set<Block>)
    requires ReleaseState(before, kept, stack, start, released) && Thorough(before, kept, stack, start, released, pinned)
    requires stack != [] && stack[|stack| - 1] in kept && kept[stack[|stack| - 1]].parents != []
    requires Sound(before) && Delivered(before, start)
    ensures var b := stack[|stack| - 1];
      Thorough(before, kept[b := PopParent(kept[b])], stack + [LastParent(kept[b])], start, released, pinned)
  {
    hide Reachable, Referenced, Sound, Descending;
    var b := stack[|stack| - 1];
    assert b in stack && Reachable(before, start, b);
    LastParentReachable(before, kept, start, b);
    if Single(before, start) {
      assert Popped(before[b], kept[b]);
      if Descending(before, kept, stack, start) && released == {} {
        DescendPush(before, kept, stack, start);
      }
    }
  }

  /** What is reachable and stripped refers to nothing, genesis aside. */
  lemma StrippedRefersNot(before: Store, start: Block, x: Block)
    requires Sound(before) && Delivered(before, start) && Reachable(before, start, x) && x in before && x != Genesis
    ensures Stripped(before, start)[x].parents == [] && Stripped(before, start)[x].qcRef == None
  {
    hide Reachable;
    ReachableInside(before, start, x);
    assert EntryOk(before, x);
    assert Parents(x) != [];
  }

  /** The bottom is reached: everything reachable is on the stack and stripped. */
  lemma Turning(before: Store, kept: Store, stack: seq<Block>, start: Block, pinned: set<Block>)
    requires PruneState(before, kept, stack, start) && Descending(before, kept, stack, start)
    requires kept[stack[|stack| - 1]].parents == []
    ensures Ascending(before, kept, stack, start, {}, pinned)
  {
    hide Reachable, Referenced;
    forall x | x in stack ensures kept[x].parents == [] {
      var i :| 0 <= i < |stack| && stack[i] == x;
    }
    assert PruneState(before, kept, [], start);
    FinishedIsStripped(before, kept, start);
    forall r | Reachable(before, start, r) ensures r in stack {
      AllStacked(before, kept, stack, start, r);
    }
  }

  lemma AllStacked(before: Store, kept: Store, stack: seq<Block>, start: Block, r: Block)
    requires Descending(before, kept, stack, start) && kept.Keys == before.Keys && Reachable(before, start, r)
    requires forall x :: x in stack ==> kept[x].parents == []
    ensures r in stack
  {
    var path :| ParentPath(before, path) && path[0] == start && path[|path| - 1] == r;
    PathStacked(before, kept, stack, start, path);
  }

  lemma {:induction false} PathStacked(before: Store, kept: Store, stack: seq<Block>, start: Block, path: seq<Block>)
    requires Descending(before, kept, stack, start) && kept.Keys == before.Keys
    requires forall x :: x in stack ==> kept[x].parents == []
    requires ParentPath(before, path) && path[0] == start
    ensures path[|path| - 1] in stack
    decreases |path|
  {
    if |path| > 1 {
      PathStacked(before, kept, stack, start, path[..|path| - 1]);
      assert path[|path| - 2 + 1] in before[path[|path| - 2]].parents;
    }
  }

  /** Taking the top off the stack, released or kept by something. */
  lemma ThoroughPop(before: Store, kept: Store, stack: seq<Block>, start: Block, released: set<Block>, pinned: set<Block>,
                    gone: bool)
    requires ReleaseState(before, kept, stack, start, released) && Thorough(before, kept, stack, start, released, pinned)
    requires Sound(before) && Delivered(before, start) && Genesis in pinned
    requires stack != [] && stack[|stack| - 1] in kept && kept[stack[|stack| - 1]].parents == []
    requires var b := stack[|stack| - 1];
      gone <==> b !in pinned && b !in stack[..|stack| - 1] && !Referenced(kept - released, b)
    ensures var b := stack[|stack| - 1];
      Thorough(before, kept, stack[..|stack| - 1], start, if gone then released + {b} else released, pinned)
  {
    hide Reachable, Referenced, Sound, Descending, PruneState, Stripped;
    if Single(before, start) {
      if !Ascending(before, kept, stack, start, released, pinned) {
        Turning(before, kept, stack, start, pinned);
      }
      var b, rest := stack[|stack| - 1], stack[..|stack| - 1];
      assert stack == rest + [b];
      if gone {
        StackReachable(before, kept, stack, start, b);
        forall r | Referenced(kept - released, r) ensures Referenced(kept - (released + {b}), r) {
          StillReferenced(before, start, released, b, r);
        }
      }
    }
  }

  lemma StackReachable(before: Store, kept: Store, stack: seq<Block>, start: Block, b: Block)
    requires PruneState(before, kept, stack, start) && b in stack
    ensures Reachable(before, start, b) && b in before
  {
    hide Reachable;
  }

  lemma StillReferenced(before: Store, start: Block, released: set<Block>, b: Block, r: Block)
    requires Sound(before) && Delivered(before, start) && Reachable(before, start, b) && b in before && b != Genesis
    requires Referenced(Stripped(before, start) - released, r)
    ensures Referenced(Stripped(before, start) - (released + {b}), r)
  {
    hide Reachable, Stripped;
    StrippedRefersNot(before, start, b);
    var s := Stripped(before, start) - released;
    var x :| x in s && (r in s[x].parents || s[x].qcRef == Some(r));
    assert x in Stripped(before, start) - (released + {b});
  }

  /** At the end: what is reachable is gone, unless it is pinned or referred to. */
  lemma ThoroughEnd(before: Store, kept: Store, start: Block, released: set<Block>, pinned: set<Block>)
    requires Thorough(before, kept, [], start, released, pinned) && Single(before, start)
    ensures forall r :: Reachable(before, start, r) && r !in pinned && !Referenced(kept - released, r) ==> r in released
  {
    hide Reachable, Referenced;
  }
}
