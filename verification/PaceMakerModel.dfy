/** PMHighTail: which tail the next proposal is built on (include/hotstuff/liveness.h). */
module PaceMakerModel {
  import opened Blocks
  import opened ReplicaModel
  import opened ReplicaProofs

  /** What the callback on a new hqc may pick: the highest tail above hqc, else hqc itself.
      Among equally high tails the choice follows pointer order, so it is left open. */
  ghost predicate BestTail(hqc: Block, tails: set<Block>, t: Block) {
    && (t == hqc || (t in tails && Extends(t, hqc)))
    && forall u :: u in tails && Extends(u, hqc) ==> Height(u) <= Height(t)
  }

  /** hqc_tail after the hqc callback, which fires only when hqc moved. */
  ghost predicate TailAfterHqc(before: Core, after: Core, tail: Block, tail': Block) {
    if after.hqc == before.hqc then tail' == tail
    else BestTail(after.hqc, after.tails, tail')
  }

  /** hqc_tail after the callback on a received proposal. */
  function TailAfterProposal(s: Core, b: Block, tail: Block): Block {
    if Walk(b, Height(s.hqc)) == s.hqc && Height(b) > Height(tail) then b else tail
  }

  /** hqc_tail is delivered and extends hqc. */
  ghost predicate TailInv(s: Core, tail: Block) {
    tail in s.delivered && Extends(tail, s.hqc)
  }

  lemma HqcCallbackKeeps(before: Core, after: Core, tail: Block, tail': Block)
    requires TailInv(before, tail) && CoreInv(after) && before.delivered <= after.delivered
    requires TailAfterHqc(before, after, tail, tail')
    ensures TailInv(after, tail')
  {
  }

  lemma ProposalCallbackKeeps(s: Core, b: Block, tail: Block)
    requires TailInv(s, tail) && b in s.delivered
    ensures TailInv(s, TailAfterProposal(s, b, tail))
  {
    WalkFindsAncestor(b, s.hqc);
  }

  /** Every block proposed on hqc_tail extends the block named by its own certificate,
      and may be delivered at once. */
  lemma NewBlockExtendsJustify(s: Core, tail: Block, payload: Payload)
    requires CoreInv(s) && TailInv(s, tail)
    ensures var b := NewBlock(s, tail, payload);
      Extends(b.parent, b.justify) && Height(b.justify) < Height(b) && CoreInv(Deliver(s, b))
  {
    var b := NewBlock(s, tail, payload);
    ExtendsHeight(tail, s.hqc);
    DeliverKeeps(s, b);
  }
}
