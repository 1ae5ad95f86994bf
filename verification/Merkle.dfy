/** Merkle tree and proofs (rse-merkle/MerkleTree.cpp). The hash is a parameter with 64-byte
    results (hex of SHA-256); it is never assumed to be free of collisions. */
module Merkle {
  import opened Bytes

  type Hash = Data -> Data

  ghost predicate HexDigest(h: Hash) {
    forall x :: |h(x)| == 64
  }

  /** EMPTY_HASH: 64 characters '0'. */
  const EMPTY_HASH: Data := Fill(48, 64)

  datatype Proof = Proof(data: Data, index: int, root: Data, branch: seq<Data>)

  // ---- the tree as a function --------------------------------------------------------------

  function Pad(level: seq<Data>): (padded: seq<Data>)
    ensures |padded| % 2 == 0 && |level| <= |padded| <= |level| + 1 && level <= padded
  {
    if |level| % 2 == 1 then level + [EMPTY_HASH] else level
  }

  /** The level above: one hash per pair. */
  function PairUp(h: Hash, level: seq<Data>): (up: seq<Data>)
    ensures |up| == |level| / 2
  {
    if |level| < 2 then [] else [h(level[0] + level[1])] + PairUp(h, level[2..])
  }

  lemma {:induction false} PairUpAt(h: Hash, level: seq<Data>, i: nat)
    requires i < |level| / 2
    ensures PairUp(h, level)[i] == h(level[2 * i] + level[2 * i + 1])
  {
    if i > 0 {
      PairUpAt(h, level[2..], i - 1);
    }
  }

  /** The level above a level that may need padding. */
  function Up(h: Hash, level: seq<Data>): (up: seq<Data>)
    ensures |level| <= 2 * |up| <= |level| + 1
  {
    PairUp(h, Pad(level))
  }

  /** m_levels: every level but the root's is stored padded. */
  function Levels(h: Hash, level: seq<Data>): (levels: seq<seq<Data>>)
    requires level != []
    ensures levels != [] && |levels[|levels| - 1]| == 1
    decreases |level|
  {
    if |level| == 1 then [level] else [Pad(level)] + Levels(h, Up(h, level))
  }

  function Leaves(h: Hash, shards: seq<Data>): (leaves: seq<Data>)
    ensures |leaves| == |shards|
    ensures forall i :: 0 <= i < |shards| ==> leaves[i] == h(shards[i])
  {
    seq(|shards|, i requires 0 <= i < |shards| => h(shards[i]))
  }

  function Root(h: Hash, level: seq<Data>): Data
    requires level != []
  {
    var levels := Levels(h, level);
    levels[|levels| - 1][0]
  }

  /** Each index has its sibling on every level below the root. */
  predicate SiblingsInBounds(levels: seq<seq<Data>>, index: nat)
    decreases |levels|
  {
    |levels| <= 1 || (Sibling(index) < |levels[0]| && SiblingsInBounds(levels[1..], index / 2))
  }

  function Sibling(index: nat): nat {
    if index % 2 == 0 then index + 1 else index - 1
  }

  function Branch(levels: seq<seq<Data>>, index: nat): (branch: seq<Data>)
    requires SiblingsInBounds(levels, index)
    ensures |branch| == if levels == [] then 0 else |levels| - 1
    decreases |levels|
  {
    if |levels| <= 1 then [] else [levels[0][Sibling(index)]] + Branch(levels[1..], index / 2)
  }

  /** C++ division by two, which rounds toward zero. */
  function Half(i: int): int {
    if i >= 0 then i / 2 else -((-i) / 2)
  }

  /** The hash validate works its way up to. */
  function Climb(h: Hash, cur: Data, index: int, branch: seq<Data>): Data
    decreases |branch|
  {
    if branch == [] then cur
    else Climb(h, if index % 2 == 0 then h(cur + branch[0]) else h(branch[0] + cur), Half(index), branch[1..])
  }

  predicate Validates(h: Hash, p: Proof) {
    Climb(h, h(p.data), p.index, p.branch) == p.root
  }

  function ProofFor(h: Hash, shards: seq<Data>, index: nat): Proof
    requires index < |shards|
  {
    AllInBounds(h, Leaves(h, shards), index);
    Proof(shards[index], index, Root(h, Leaves(h, shards)), Branch(Levels(h, Leaves(h, shards)), index))
  }

  // ---- completeness ------------------------------------------------------------------------

  /** The stored padding keeps every sibling lookup inside its level. */
  lemma {:induction false} AllInBounds(h: Hash, level: seq<Data>, index: nat)
    requires index < |level|
    ensures SiblingsInBounds(Levels(h, level), index)
    decreases |level|
  {
    if |level| > 1 {
      AllInBounds(h, Up(h, level), index / 2);
      assert Levels(h, level)[1..] == Levels(h, Up(h, level));
    }
  }

  lemma UpAt(h: Hash, level: seq<Data>, index: nat)
    requires index < |level|
    ensures index / 2 < |Up(h, level)| && Sibling(index) < |Pad(level)| && Half(index) == index / 2
    ensures Pad(level)[index] == level[index]
    ensures Up(h, level)[index / 2] == if index % 2 == 0 then h(level[index] + Pad(level)[Sibling(index)])
      else h(Pad(level)[Sibling(index)] + level[index])
  {
    var i := index / 2;
    PairUpAt(h, Pad(level), i);
  }

  /** The branch of a node is its sibling in front of its parent's branch. */
  lemma BranchUp(h: Hash, level: seq<Data>, index: nat)
    requires |level| > 1 && index < |level| && SiblingsInBounds(Levels(h, level), index)
    ensures Sibling(index) < |Pad(level)| && index / 2 < |Up(h, level)|
    ensures SiblingsInBounds(Levels(h, Up(h, level)), index / 2)
    ensures Branch(Levels(h, level), index)
      == [Pad(level)[Sibling(index)]] + Branch(Levels(h, Up(h, level)), index / 2)
    ensures Root(h, level) == Root(h, Up(h, level))
  {
    hide Pad, PairUp, Up, Sibling, Root;
    LevelsUp(h, level);
    UpAt(h, level, index);
  }

  /** Climbing the tree's own branch from a node of a level ends at the root. */
  lemma {:induction false} ClimbReachesRoot(h: Hash, level: seq<Data>, index: nat)
    requires index < |level| && SiblingsInBounds(Levels(h, level), index)
    ensures Climb(h, level[index], index, Branch(Levels(h, level), index)) == Root(h, level)
    decreases |level|
  {
    hide Pad, PairUp, Up, Half, Sibling;
    if |level| > 1 {
      BranchUp(h, level, index);
      UpAt(h, level, index);
      hide Levels, Root, Branch, SiblingsInBounds;
      ClimbReachesRoot(h, Up(h, level), index / 2);
    }
  }

  lemma OneLevel(h: Hash, level: seq<Data>)
    requires |level| == 1
    ensures Levels(h, level) == [level]
  {
  }

  lemma LevelsUp(h: Hash, level: seq<Data>)
    requires |level| > 1
    ensures Up(h, level) != [] && Levels(h, level) == [Pad(level)] + Levels(h, Up(h, level))
    ensures Levels(h, level)[1..] == Levels(h, Up(h, level))
    ensures Root(h, level) == Root(h, Up(h, level))
  {
  }

  /** Every proof the tree gives validates. */
  lemma ProofsValidate(h: Hash, shards: seq<Data>, index: nat)
    requires index < |shards|
    ensures Validates(h, ProofFor(h, shards, index))
  {
    AllInBounds(h, Leaves(h, shards), index);
    ClimbReachesRoot(h, Leaves(h, shards), index);
  }

  function Pow2(e: nat): (p: nat)
    ensures p > 0
  {
    if e == 0 then 1 else 2 * Pow2(e - 1)
  }

  /** The branch length L of a tree over n shards satisfies n <= 2^L < 2n. */
  lemma {:induction false} Depth(h: Hash, level: seq<Data>)
    requires level != []
    ensures |level| <= Pow2(|Levels(h, level)| - 1) < 2 * |level|
    decreases |level|
  {
    if |level| == 1 {
      OneLevel(h, level);
    } else {
      hide Levels, Up, Pad, PairUp, Pow2;
      OneMore(h, level);
      Depth(h, Up(h, level));
      DoubleBound(|level|, |Up(h, level)|, |Levels(h, Up(h, level))| - 1);
    }
  }

  lemma OneMore(h: Hash, level: seq<Data>)
    requires |level| > 1
    ensures Up(h, level) != [] && |Levels(h, level)| == 1 + |Levels(h, Up(h, level))|
  {
    hide Up, Pad, PairUp;
    LevelsUp(h, level);
  }

  lemma DoubleBound(n: nat, half: nat, depth: nat)
    requires n > 1 && n <= 2 * half <= n + 1 && half <= Pow2(depth) < 2 * half
    ensures n <= Pow2(depth + 1) < 2 * n
  {
    assert Pow2(depth + 1) == 2 * Pow2(depth);
    if depth > 0 {
      assert Pow2(depth) == 2 * Pow2(depth - 1);
      EvenBound(n, half, Pow2(depth - 1));
    }
  }

  lemma EvenBound(n: nat, half: nat, q: nat)
    requires 2 * half <= n + 1 && 2 * q < 2 * half
    ensures 2 * q < n
  {
    assert half >= q + 1;
  }

  // ---- binding -----------------------------------------------------------------------------

  ghost predicate Collision(h: Hash, x: Data, y: Data) {
    x != y && h(x) == h(y)
  }

  lemma SameHalves(a: Data, b: Data, c: Data, d: Data)
    requires a + b == c + d && (|a| == |c| || |b| == |d|)
    ensures a == c && b == d
  {
    assert |a + b| == |c + d|;
    assert a == (a + b)[..|a|] && c == (c + d)[..|c|];
    assert b == (a + b)[|a|..] && d == (c + d)[|c|..];
  }

  ghost predicate AllDigests(level: seq<Data>) {
    forall i :: 0 <= i < |level| ==> |level[i]| == 64
  }

  /** A climb of the right length that ends at the root started at the level's own node, or at the
      padding if it started right of the level, or passed two inputs with one hash or one that
      hashes to the padding. */
  lemma {:induction false} ClimbBinds(h: Hash, level: seq<Data>, cur: Data, index: nat, branch: seq<Data>)
    returns (x: Data, y: Data)
    requires HexDigest(h) && AllDigests(level) && |cur| == 64 && level != []
    requires |branch| == |Levels(h, level)| - 1 && index < Pow2(|branch|)
    requires Climb(h, cur, index, branch) == Root(h, level)
    ensures Collision(h, x, y) || Starts(h, level, cur, index, x)
    decreases |level|
  {
    x, y := [], [];
    if |level| > 1 {
      hide Pad, PairUp, Up, Half, Sibling, Starts;
      var up := Up(h, level);
      LevelsUp(h, level);
      UpDigests(h, level);
      HalfBelow(index, |branch|);
      var given := if index % 2 == 0 then cur + branch[0] else branch[0] + cur;
      x, y := ClimbBinds(h, up, h(given), index / 2, branch[1..]);
      if !Collision(h, x, y) {
        x, y := StartsBelow(h, level, cur, index, branch[0], x);
      }
    } else {
      OneLevel(h, level);
    }
  }

  /** Where a climb started: at a node of the level, or right of it with an input x to the padding. */
  ghost predicate Starts(h: Hash, level: seq<Data>, cur: Data, index: nat, x: Data) {
    if index < |level| then cur == level[index] else cur == EMPTY_HASH || h(x) == EMPTY_HASH
  }

  /** From where a climb starts on one level to where it started on the level below. */
  lemma StartsBelow(h: Hash, level: seq<Data>, cur: Data, index: nat, sibling: Data, x: Data) returns (x': Data, y': Data)
    requires HexDigest(h) && AllDigests(level) && |cur| == 64 && |level| > 1
    requires Starts(h, Up(h, level), h(if index % 2 == 0 then cur + sibling else sibling + cur), index / 2, x)
    ensures Collision(h, x', y') || Starts(h, level, cur, index, x')
  {
    var given := if index % 2 == 0 then cur + sibling else sibling + cur;
    x', y' := x, [];
    if index < |Pad(level)| {
      PadDigests(level);
      UpOf(h, level, index);
      var own, other := Pad(level)[index], Pad(level)[Sibling(index)];
      var pair := if index % 2 == 0 then own + other else other + own;
      if given == pair {
        if index % 2 == 0 {
          SameHalves(cur, sibling, own, other);
        } else {
          SameHalves(sibling, cur, other, own);
        }
      } else {
        x', y' := given, pair;
      }
    } else if h(given) == EMPTY_HASH {
      x' := given;
    }
  }

  lemma PadDigests(level: seq<Data>)
    requires AllDigests(level)
    ensures AllDigests(Pad(level))
  {
  }

  /** The node above an entry of a padded level. */
  lemma UpOf(h: Hash, level: seq<Data>, index: nat)
    requires index < |Pad(level)|
    ensures index / 2 < |Up(h, level)| && Sibling(index) < |Pad(level)|
    ensures Pad(level)[index] == if index < |level| then level[index] else EMPTY_HASH
    ensures Up(h, level)[index / 2] == if index % 2 == 0 then h(Pad(level)[index] + Pad(level)[Sibling(index)])
      else h(Pad(level)[Sibling(index)] + Pad(level)[index])
  {
    PairUpAt(h, Pad(level), index / 2);
  }

  lemma HalfBelow(index: nat, d: nat)
    requires d > 0 && index < Pow2(d)
    ensures Half(index) == index / 2 < Pow2(d - 1)
  {
  }

  lemma UpDigests(h: Hash, level: seq<Data>)
    requires HexDigest(h)
    ensures AllDigests(Up(h, level))
  {
    forall i | 0 <= i < |Up(h, level)| ensures |Up(h, level)[i]| == 64 {
      PairUpAt(h, Pad(level), i);
    }
  }

  /** Of an index validate sees only the path: as many of its low bits as there are levels. */
  function Place(index: int, depth: nat): (place: nat)
    ensures place < Pow2(depth)
    decreases depth
  {
    if depth == 0 then 0 else index % 2 + 2 * Place(Half(index), depth - 1)
  }

  lemma {:induction false} ClimbPlace(h: Hash, cur: Data, index: int, branch: seq<Data>)
    ensures Climb(h, cur, index, branch) == Climb(h, cur, Place(index, |branch|), branch)
    decreases |branch|
  {
    if branch != [] {
      ClimbPlace(h, if index % 2 == 0 then h(cur + branch[0]) else h(branch[0] + cur), Half(index), branch[1..]);
    }
  }

  lemma {:induction false} SmallPlace(index: nat, depth: nat)
    requires index < Pow2(depth)
    ensures Place(index, depth) == index
  {
    if depth > 0 {
      SmallPlace(Half(index), depth - 1);
    }
  }

  /** Binding: a proof with the tree's depth that validates against its root carries exactly the shard
      at its place, or shows two inputs with one hash, or, at a place behind the last shard, an input
      that hashes to the padding. */
  lemma ProofBinds(h: Hash, shards: seq<Data>, p: Proof) returns (x: Data, y: Data)
    requires HexDigest(h) && shards != []
    requires p.root == Root(h, Leaves(h, shards)) && |p.branch| == |Levels(h, Leaves(h, shards))| - 1
    requires Validates(h, p)
    ensures var place := Place(p.index, |p.branch|);
      Collision(h, x, y) || if place < |shards| then p.data == shards[place] else h(x) == EMPTY_HASH
    ensures 0 <= p.index < Pow2(|p.branch|) ==> Place(p.index, |p.branch|) == p.index
    ensures |shards| <= Pow2(|p.branch|)
  {
    hide Place, Pow2, Levels, Root, Climb;
    var leaves, place := Leaves(h, shards), Place(p.index, |p.branch|);
    ClimbPlace(h, h(p.data), p.index, p.branch);
    Depth(h, leaves);
    if 0 <= p.index < Pow2(|p.branch|) {
      SmallPlace(p.index, |p.branch|);
    }
    x, y := ClimbBinds(h, leaves, h(p.data), place, p.branch);
    if !Collision(h, x, y) {
      if place < |shards| {
        x, y := p.data, shards[place];
      } else if h(p.data) == EMPTY_HASH {
        x := p.data;
      }
    }
  }

  // ---- the tree by its nodes ---------------------------------------------------------------

  /** The hash at place i of depth d above the leaves: right of the last leaf the padding, else the
      leaf or the hash of the two nodes below. */
  function Node(h: Hash, level: seq<Data>, d: nat, i: nat): Data {
    if i * Pow2(d) >= |level| then EMPTY_HASH
    else if d == 0 then level[i]
    else h(Node(h, level, d - 1, 2 * i) + Node(h, level, d - 1, 2 * i + 1))
  }

  lemma Twice(q: nat, i: nat)
    ensures i * (2 * q) == 2 * (i * q)
  {
  }

  /** What is right of the last node is right of the last leaf. */
  lemma RightOfUp(h: Hash, level: seq<Data>, d: nat, i: nat)
    ensures i * Pow2(d) >= |Up(h, level)| <==> i * Pow2(d + 1) >= |level|
  {
    hide Up;
    Twice(Pow2(d), i);
  }

  lemma {:induction false} NodeOfUp(h: Hash, level: seq<Data>, d: nat, i: nat)
    requires |level| > 1
    ensures Node(h, Up(h, level), d, i) == Node(h, level, d + 1, i)
    decreases d
  {
    hide Up, Pow2;
    RightOfUp(h, level, d, i);
    if i * Pow2(d) < |Up(h, level)| {
      if d == 0 {
        NodeOfPair(h, level, i);
      } else {
        NodeOfUp(h, level, d - 1, 2 * i);
        NodeOfUp(h, level, d - 1, 2 * i + 1);
      }
    }
  }

  lemma NodeOfPair(h: Hash, level: seq<Data>, i: nat)
    requires i * Pow2(0) < |Up(h, level)|
    ensures Up(h, level)[i] == h(Node(h, level, 0, 2 * i) + Node(h, level, 0, 2 * i + 1))
  {
    hide Up;
    UpOf(h, level, 2 * i);
    UpOf(h, level, 2 * i + 1);
  }

  /** The root is the node over all leaves. */
  lemma {:induction false} RootIsNode(h: Hash, level: seq<Data>)
    requires level != []
    ensures Root(h, level) == Node(h, level, |Levels(h, level)| - 1, 0)
    decreases |level|
  {
    if |level| == 1 {
      OneLevel(h, level);
    } else {
      LevelsUp(h, level);
      RootIsNode(h, Up(h, level));
      NodeOfUp(h, level, |Levels(h, Up(h, level))| - 1, 0);
    }
  }
}
