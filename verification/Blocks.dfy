/** The block tree (include/hotstuff/entity.h). A block is named by its content, which is what
    a collision-free hash gives: equal values are one block. */
module Blocks {
  import opened Signatures

  /** Besides its links a block carries its certificate and, folded into numbers, commands and
      extra bytes. */
  datatype Payload = Payload(qc: Cert, cmds: seq<nat>)

  /** Genesis is b0. A node lists its direct parent (parents[0]), its uncles (parents[1..]) and
      the block its quorum certificate names. */
  datatype Block =
    | Genesis
    | Node(parent: Block, uncles: seq<Block>, justify: Block, payload: Payload)

  function Height(b: Block): nat {
    if b.Genesis? then 0 else 1 + Height(b.parent)
  }

  function Parents(b: Block): seq<Block> {
    if b.Genesis? then [] else [b.parent] + b.uncles
  }

  /** The block named by b's certificate; on_init makes genesis name itself. */
  function Justify(b: Block): Block {
    if b.Genesis? then b else b.justify
  }

  function Parent(b: Block): Block {
    if b.Genesis? then b else b.parent
  }

  /** a is b or one of its parents[0]-ancestors. */
  predicate Extends(b: Block, a: Block) {
    b == a || (b.Node? && Extends(b.parent, a))
  }

  /** x is b or reachable from it along parents, uncles included. */
  ghost predicate Contains(b: Block, x: Block) {
    b == x || (b.Node? && (Contains(b.parent, x) || exists u :: u in b.uncles && Contains(u, x)))
  }

  /** The ancestor walk `for (; b->height > h; b = b->parents[0])`. */
  function Walk(b: Block, h: nat): Block {
    if Height(b) > h then Walk(b.parent, h) else b
  }

  /** The blocks above height h on the way from b down, lowest first. */
  function Path(b: Block, h: nat): seq<Block> {
    if Height(b) > h then Path(b.parent, h) + [b] else []
  }

  function Elements(s: seq<Block>): set<Block> {
    set b | b in s
  }

  ghost predicate OnOneChain(a: Block, b: Block) {
    Extends(a, b) || Extends(b, a)
  }

  lemma ExtendsHeight(b: Block, a: Block)
    requires Extends(b, a)
    ensures Height(a) <= Height(b)
    ensures Height(a) == Height(b) ==> a == b
  {
  }

  lemma ExtendsTransitive(c: Block, b: Block, a: Block)
    requires Extends(c, b) && Extends(b, a)
    ensures Extends(c, a)
  {
  }

  lemma ExtendsGenesis(b: Block)
    ensures Extends(b, Genesis)
  {
  }

  /** The walk decides ancestry: it stops on a exactly when b extends a. */
  lemma {:induction false} WalkFindsAncestor(b: Block, a: Block)
    ensures Walk(b, Height(a)) == a <==> Extends(b, a)
  {
    if Height(b) > Height(a) {
      WalkFindsAncestor(b.parent, a);
    } else if b != a && Extends(b, a) {
      ExtendsHeight(b, a);
    }
  }

  /** Two ancestors of one block lie on one chain, the lower below the higher. */
  lemma {:induction false} AncestorsComparable(c: Block, a: Block, b: Block)
    requires Extends(c, a) && Extends(c, b) && Height(a) <= Height(b)
    ensures Extends(b, a)
  {
    if c != b {
      if c == a {
        ExtendsHeight(c, b);
        ExtendsHeight(c.parent, b);
      } else {
        AncestorsComparable(c.parent, a, b);
      }
    }
  }

  lemma {:induction false} PathMembers(b: Block, a: Block, x: Block)
    requires Extends(b, a)
    ensures x in Path(b, Height(a)) <==> Extends(b, x) && Height(x) > Height(a)
  {
    if Height(b) > Height(a) {
      PathMembers(b.parent, a, x);
    } else if Extends(b, x) {
      ExtendsHeight(b, x);
    }
    if b.Node? && Height(b) > Height(a) && Extends(b, x) && x != b {
      ExtendsHeight(b.parent, x);
    }
  }

  /** Paths compose, and the path from genesis to an ancestor is a prefix. */
  lemma {:induction false} PathSplits(b: Block, a: Block)
    requires Extends(b, a)
    ensures Path(b, 0) == Path(a, 0) + Path(b, Height(a))
  {
    ExtendsHeight(b, a);
    if b != a {
      PathSplits(b.parent, a);
      ExtendsHeight(b.parent, a);
    }
  }

  /** A path holds one block per height, in ascending order without gaps. */
  lemma {:induction false} PathHeights(b: Block, i: nat)
    requires i < |Path(b, 0)|
    ensures |Path(b, 0)| == Height(b)
    ensures Height(Path(b, 0)[i]) == i + 1
  {
    if i < |Path(b.parent, 0)| {
      PathHeights(b.parent, i);
    } else {
      PathLength(b);
    }
  }

  lemma PathLength(b: Block)
    ensures |Path(b, 0)| == Height(b)
  {
  }

  lemma ExtendsContains(b: Block, a: Block)
    requires Extends(b, a)
    ensures Contains(b, a)
  {
  }

  lemma {:induction false} ContainsTransitive(a: Block, b: Block, c: Block)
    requires Contains(a, b) && Contains(b, c)
    ensures Contains(a, c)
  {
    if a != b {
      if Contains(a.parent, b) {
        ContainsTransitive(a.parent, b, c);
      } else {
        var u :| u in a.uncles && Contains(u, b);
        ContainsTransitive(u, b, c);
      }
    }
  }

  /** No block is its own ancestor, uncles included. */
  lemma {:induction false} ContainsAntisymmetric(a: Block, b: Block)
    requires Contains(a, b) && Contains(b, a)
    ensures a == b
    decreases a
  {
    if a != b {
      var p: Block;
      if Contains(a.parent, b) {
        p := a.parent;
      } else {
        p :| p in a.uncles && Contains(p, b);
      }
      assert Contains(a, p) by {
        assert Contains(p, p);
      }
      ContainsTransitive(b, a, p);
      ContainsAntisymmetric(p, b);
      ContainsAntisymmetric(p, a);
    }
  }
}
