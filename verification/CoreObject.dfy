/** The core as the program runs it (src/consensus.cpp, include/hotstuff/liveness.h): an object
    whose handlers update its fields, each proved to do what StoreModel's function does. */
module CoreObject {
  import opened Bytes
  import opened Blocks
  import opened Quorums
  import opened Signatures
  import opened Certificates
  import opened ReplicaModel
  import opened BlockStore
  import opened StoreProofs
  import opened Pruning
  import opened PruneLoop
  import opened Options
  import Live = StoreModel

  type State = Live.State

  class HotStuffCore {
    const mode: Mode
    const n: nat
    const majority: nat
    const hashOf: BlockHash
    var store: Store
    var hqc: Block
    var hqcQc: Cert       // the certificate of hqc
    var bLock: Block
    var bExec: Block
    var vheight: nat
    var tails: set<Block>
    var log: seq<Block>   // the do_consensus calls so far
    var hqcTail: Block    // PMHighTail's choice

    ghost function St(): State
      reads this
    {
      Live.State(store, hqc, hqcQc, bLock, bExec, vheight, tails, log)
    }

    ghost predicate Valid()
      reads this
    {
      Live.StateOk(St()) && hqcTail in store
    }

    /** The constructor and on_init. */
    constructor (mode: Mode, n: nat, hashOf: BlockHash)
      requires n > 0
      ensures Valid() && St() == Live.Initial(n, hashOf) && hqcTail == Genesis
      ensures this.mode == mode && this.n == n && this.hashOf == hashOf && majority == Config(n, {}, mode).Majority()
    {
      this.mode, this.n, this.hashOf := mode, n, hashOf;
      majority := n - (n - 1) / 3;
      store := map[Genesis := Entry([], Some(Genesis), 0, true, true, AllReplicas(n), None)];
      hqc, bLock, bExec, vheight := Genesis, Genesis, Genesis, 0;
      hqcQc := EmptyCert(n, hashOf(Genesis));
      tails, hqcTail, log := {Genesis}, Genesis, [];
      new;
      InitialOk(n, hashOf);
    }

    // ---- walking the tree ------------------------------------------------------------------

    /** Down parents[0] to height h, or into an emptied list. */
    method WalkDown(b: Block, h: nat) returns (r: Option<Block>)
      requires Sound(store) && b in store
      ensures r == Descend(store, b, h)
    {
      hide Sound;
      var x := b;
      while store[x].height > h
        invariant x in store && Descend(store, x, h) == Descend(store, b, h)
        decreases x
      {
        ParentStep(store, x);
        if store[x].parents == [] {
          return None;
        }
        x := store[x].parents[0];
      }
      r := Some(x);
    }

    /** PMHighTail::check_ancestry */
    method CheckAncestry(a: Block, b: Block) returns (r: Option<bool>)
      requires Sound(store) && a in store && b in store
      ensures r == match Descend(store, b, HeightOf(store, a)) case None => None case Some(x) => Some(x == a)
    {
      var x := WalkDown(b, store[a].height);
      match x
      case None => r := None;
      case Some(y) => r := Some(y == a);
    }

    // ---- hqc -------------------------------------------------------------------------------

    /** PMHighTail's callback on a new hqc: the highest tail above it. */
    method OnHqcUpdate() returns (ok: bool)
      requires Live.StateOk(St())
      modifies this`hqcTail
      ensures ok <==> !Live.TailsCut(St())
      ensures hqcTail in store && (ok ==> Live.BestTail(St(), hqcTail))
    {
      hqcTail := hqc;
      var rest := tails;
      while rest != {}
        invariant rest <= tails && hqcTail in store && HeightOf(store, hqc) <= HeightOf(store, hqcTail)
        invariant hqcTail == hqc || (hqcTail in tails && Live.EndsOnHqc(St(), hqcTail))
        invariant forall u :: u in tails - rest ==> Descend(store, u, HeightOf(store, hqc)).Some?
        invariant forall u :: u in tails - rest && Live.EndsOnHqc(St(), u) ==> HeightOf(store, u) <= HeightOf(store, hqcTail)
        decreases rest
      {
        var t :| t in rest;
        rest := rest - {t};
        var above := CheckAncestry(hqc, t);
        if above == None {
          return false;
        }
        if above == Some(true) && store[t].height > store[hqcTail].height {
          hqcTail := t;
        }
      }
      ok := true;
    }

    method UpdateHqc(b: Block, qc: Cert) returns (error: Error)
      requires Valid() && b in store
      modifies this`hqc, this`hqcQc, this`hqcTail
      ensures Valid()
      ensures var u := Live.UpdateHqc(old(St()), b, qc); St() == u.st && error == u.error
      ensures error == NoError || error == OutOfBounds
      ensures error == NoError ==> Live.TailAfterHqc(old(St()), St(), old(hqcTail), hqcTail)
    {
      error := NoError;
      if store[b].height > store[hqc].height {
        hqc, hqcQc := b, qc;
        var ok := OnHqcUpdate();
        if !ok {
          error := OutOfBounds;
        }
      }
    }

    // ---- update ----------------------------------------------------------------------------

    /** First commit loop: the blocks from blk down to the height of the executed block. */
    method Collect(blk: Block) returns (queue: seq<Block>, b: Option<Block>)
      requires Sound(store) && blk in store && bExec in store
      ensures b == Descend(store, blk, HeightOf(store, bExec))
      ensures b.Some? ==> Visited(store, blk, HeightOf(store, bExec)) == Reversed(queue)
    {
      queue := [];
      var x := blk;
      ghost var h := HeightOf(store, bExec);
      while store[x].height > store[bExec].height
        invariant x in store && Descend(store, x, h) == Descend(store, blk, h)
        invariant Visited(store, blk, h) == Visited(store, x, h) + Reversed(queue)
        decreases x
      {
        ParentStep(store, x);
        if store[x].parents == [] {
          return queue, None;
        }
        QueueStep(Visited(store, blk, h), store, x, h, queue);
        queue := queue + [x];
        x := store[x].parents[0];
      }
      b := Some(x);
    }

    /** Second commit loop: decide the queued blocks from the back of the queue. */
    method DecideAll(queue: seq<Block>)
      requires forall x :: x in queue ==> x in store
      modifies this`store, this`log
      ensures store == Decide(old(store), Elements(Reversed(queue)))
      ensures log == old(log) + Reversed(queue)
    {
      hide Decide, Elements, Reversed;
      ghost var path := Reversed(queue);
      ReversedAt(queue);
      DecideNone(store, path);
      for i := |queue| downto 0
        invariant store == Decide(old(store), Elements(path[..|queue| - i]))
        invariant log == old(log) + path[..|queue| - i]
      {
        var x := queue[i];
        assert x in queue && path[|queue| - i - 1] == x;
        DecideNext(old(store), path, |queue| - i - 1);
        store := store[x := store[x].(decision := true)];
        log := log + [x];
      }
      assert path[..|queue|] == path;
    }

    method CommitTo(blk: Block) returns (error: Error)
      requires Valid() && blk in store
      modifies this`store, this`log, this`bExec
      ensures Valid()
      ensures var u := Live.Commit(old(St()), blk); St() == u.st && error == u.error
    {
      CommitKeeps(St(), blk);
      hide Sound, Reversed, Descend, Visited, SameEntries;
      var queue, b := Collect(blk);
      if b == None {
        return OutOfBounds;
      }
      if b != Some(bExec) {
        return SafetyBreach;
      }
      ReversedAt(queue);
      DecideAll(queue);
      bExec := blk;
      error := NoError;
    }

    /** The repeated `qc_ref; if null return; if decided return`. */
    method UndecidedQcRef(b: Block) returns (r: Option<Block>)
      requires Sound(store) && b in store
      ensures r == Live.UndecidedRef(store, b) && (r.Some? ==> r.value in store)
    {
      assert EntryOk(store, b);
      r := store[b].qcRef;
      if r != None && store[r.value].decision {
        r := None;
      }
    }

    method RaiseLockTo(b: Block)
      requires Valid() && b in store
      modifies this`bLock
      ensures Valid() && St() == Live.UpdateLock(old(St()), b)
    {
      if store[b].height > store[bLock].height {
        bLock := b;
      }
    }

    /** update up to update_hqc; the rest branches where the source has its #ifdef. */
    method Update(nblk: Block) returns (error: Error)
      requires Valid() && nblk in store
      modifies this`store, this`log, this`bExec, this`bLock, this`hqc, this`hqcQc, this`hqcTail
      ensures Valid()
      ensures var u := Live.Update(mode, old(St()), nblk); St() == u.st && error == u.error && !u.voted
      ensures store.Keys == old(store.Keys)
      ensures error != OutOfBounds ==> Live.TailAfterHqc(old(St()), St(), old(hqcTail), hqcTail)
    {
      UpdateKeeps(mode, St(), nblk);
      hide Live.StateOk, Live.FromHqc, Live.UpdateHqc, Live.BestTail;
      var c1 := FirstRef(nblk);
      if c1 == None {
        return NoError;
      }
      ghost var st := St();
      error := UpdateHqc(c1.value, Live.QcOf(nblk));
      if error != NoError { return; }
      ghost var st1, tail1 := St(), hqcTail;
      error := UpdateFrom(c1.value);
      TailStays(st, st1, St(), old(hqcTail), tail1);
    }

    method FirstRef(b: Block) returns (r: Option<Block>)
      requires Valid() && b in store
      ensures r == Live.UndecidedRef(store, b) && (r.Some? ==> r.value in store)
    {
      r := UndecidedQcRef(b);
    }

    method UpdateFrom(c1: Block) returns (error: Error)
      requires Valid() && c1 in store
      modifies this`store, this`log, this`bExec, this`bLock
      ensures Valid() && SameWalks(old(St()), St())
      ensures var u := Live.FromHqc(mode, old(St()), c1); St() == u.st && error == u.error
    {
      FromHqcKeeps(mode, St(), c1);
      FrameWalks(St(), Live.FromHqc(mode, St(), c1).st);
      hide Sound, Live.FromLock, SameWalks;
      if mode == ThreeStep {
        var blk1 := UndecidedQcRef(c1);
        if blk1 == None {
          return NoError;
        }
        RaiseLockTo(blk1.value);
        var direct := IsDirect(c1, blk1.value);
        error := CommitFrom(blk1.value, direct);
      } else {
        RaiseLockTo(c1);
        error := CommitFrom(c1, true);
      }
    }

    method IsDirect(b: Block, p: Block) returns (direct: bool)
      requires b in store
      ensures direct == Direct(store, b, p)
    {
      direct := store[b].parents != [] && store[b].parents[0] == p;
    }

    /** Commit when every link has been to a direct parent. */
    method CommitFrom(blk1: Block, direct: bool) returns (error: Error)
      requires Valid() && blk1 in store
      modifies this`store, this`log, this`bExec
      ensures Valid()
      ensures var u := Live.FromLock(old(St()), blk1, direct); St() == u.st && error == u.error
    {
      var blk := UndecidedQcRef(blk1);
      if blk == None {
        return NoError;
      }
      var last := IsDirect(blk1, blk.value);
      if !direct || !last {
        return NoError;
      }
      hide Live.Commit;
      error := CommitTo(blk.value);
    }

    // ---- proposals -------------------------------------------------------------------------

    /** The two voting conditions of on_receive_proposal. */
    method FormOpinion(b: Block) returns (opinion: Option<bool>)
      requires Valid() && b in store
      modifies this`vheight
      ensures opinion == Live.Opinion(old(St()), b)
      ensures Valid() && St() == if opinion == Some(true) then old(St()).(vheight := HeightOf(store, b)) else old(St())
    {
      opinion := Some(false);
      if store[b].height > vheight {
        assert EntryOk(store, b);
        var q := store[b].qcRef;
        if q != None && store[q.value].height > store[bLock].height {
          opinion := Some(true);   // liveness condition
          vheight := store[b].height;
        } else {
          opinion := CheckAncestry(bLock, b);
          if opinion == Some(true) {   // safety condition: on the locked branch
            vheight := store[b].height;
          }
        }
      }
    }

    /** PMHighTail's callback on a received proposal. */
    method OnProposalSeen(b: Block) returns (ok: bool)
      requires Valid() && b in store
      modifies this`hqcTail
      ensures Valid() && (ok <==> Descend(store, b, HeightOf(store, hqc)).Some?)
      ensures hqcTail == if ok then Live.TailAfterProposal(St(), b, old(hqcTail)) else old(hqcTail)
    {
      var above := CheckAncestry(hqc, b);
      if above == None {
        return false;
      }
      if above == Some(true) && store[b].height > store[hqcTail].height {
        hqcTail := b;
      }
      ok := true;
    }

    /** Opinion, callback and whether to vote. */
    method CastVote(b: Block, enabled: bool) returns (voted: bool, error: Error)
      requires Valid() && b in store
      modifies this`vheight, this`hqcTail
      ensures Valid()
      ensures var u := Live.CastVote(old(St()), b, enabled); St() == u.st && voted == u.voted && error == u.error
      ensures St() == old(St()).(vheight := vheight) && (error == NoError || error == OutOfBounds)
      ensures error == NoError ==> hqcTail == Live.TailAfterProposal(St(), b, old(hqcTail))
    {
      var opinion := FormOpinion(b);
      if opinion == None {
        return false, OutOfBounds;
      }
      var ok := OnProposalSeen(b);
      if !ok {
        return false, OutOfBounds;
      }
      voted, error := opinion.value && enabled, NoError;
    }

    /** on_receive_proposal for another replica's proposal. tail' is PMHighTail's choice before its
        callback on the proposal. */
    method OnReceiveProposal(b: Block, enabled: bool) returns (voted: bool, error: Error, ghost tail': Block)
      requires Valid()
      modifies this
      ensures Valid()
      ensures var u := Live.ReceiveProposal(mode, old(St()), b, enabled); St() == u.st && voted == u.voted && error == u.error
      ensures error != OutOfBounds ==> Live.TailAfterHqc(old(St()), St(), old(hqcTail), tail')
      ensures error != OutOfBounds ==> hqcTail == if error == NoError then Live.TailAfterProposal(St(), b, tail') else tail'
    {
      voted, tail' := false, hqcTail;
      if b !in store || !store[b].delivered {
        return false, NotDelivered, tail';
      }
      hide Live.StateOk, Live.Update, Live.CastVote, Live.BestTail, Live.TailAfterProposal;
      ghost var st := St();
      error := Update(b);
      tail' := hqcTail;
      if error != NoError { return; }
      ghost var st1 := St();
      voted, error := CastVote(b, enabled);
      TailKept(st, st1, St(), old(hqcTail), tail');
    }

    /** on_receive_vote, for a vote whose signature has been verified. */
    method OnReceiveVote(v: Vote, sig: Data) returns (error: Error)
      requires Valid() && v.voter < |Live.SelfQc(n, hashOf, store, v.blk).rids|
      modifies this
      ensures Valid()
      ensures var u := Live.ReceiveVote(n, majority, hashOf, old(St()), v, sig); St() == u.st && error == u.error
      ensures error == NoError ==> Live.TailAfterHqc(old(St()), St(), old(hqcTail), hqcTail)
    {
      if v.blk !in store || !store[v.blk].delivered {
        return NotDelivered;
      }
      error := NoError;
      var e := store[v.blk];
      if |e.voted| >= majority || v.voter in e.voted { return; }
      var qc := match e.selfQc case Some(q) => q case None => EmptyCert(n, hashOf(v.blk));
      qc := AddPart(qc, v.voter, sig);
      ChangeSound(store, v.blk, e.voted + {v.voter}, Some(qc));
      hide Sound, Live.TailsCut, Live.BestTail, AddPart;
      store := store[v.blk := e.(voted := e.voted + {v.voter}, selfQc := Some(qc))];
      assert St() == Live.Counted(old(St()), v, qc);
      if |e.voted| + 1 == majority {
        error := UpdateHqc(v.blk, qc);
      }
    }

    // ---- delivery --------------------------------------------------------------------------

    /** EntityStorage::add_blk on a parsed block: the first entry for a block stays. */
    method AddBlk(b: Block)
      requires Valid()
      modifies this`store
      ensures Valid() && St() == Live.Fetch(old(St()), b) && b in store
    {
      FetchKeeps(St(), b);
      if b !in store {
        store := store[b := Fetched];
      }
    }

    /** The first loop of on_deliver_blk; it throws at the first parent not delivered. */
    method LookUpParents(b: Block) returns (found: bool)
      requires b in store && !store[b].delivered && b !in Parents(b)
      modifies this`store
      ensures found == Live.AllDelivered(old(store), Parents(b))
      ensures store == old(store)[b := old(store)[b].(parents := Live.DeliveredPrefix(old(store), Parents(b)))]
    {
      ghost var before := store;
      var hashes := Parents(b);
      hide Live.DeliveredPrefix, Parents;
      store := store[b := store[b].(parents := [])];
      for i := 0 to |hashes|
        invariant store == before[b := before[b].(parents := hashes[..i])]
        invariant forall j :: 0 <= j < i ==> Delivered(before, hashes[j])
      {
        var p := hashes[i];
        assert p in hashes && p != b;
        if p !in store || !store[p].delivered {
          PrefixEnds(before, hashes, i);
          return false;
        }
        assert hashes[..i + 1] == hashes[..i] + [p];
        Overwrite(before, b, store[b], store[b].(parents := store[b].parents + [p]));
        store := store[b := store[b].(parents := store[b].parents + [p])];
      }
      assert hashes[..|hashes|] == hashes;
      PrefixEnds(before, hashes, |hashes|);
      found := true;
    }

    method EraseTails(b: Block)
      modifies this`tails
      ensures tails == old(tails) - Elements(Parents(b)) + {b}
    {
      var hashes := Parents(b);
      for i := 0 to |hashes|
        invariant tails == old(tails) - Elements(hashes[..i])
      {
        assert hashes[..i + 1] == hashes[..i] + [hashes[i]];
        tails := tails - {hashes[i]};
      }
      assert hashes[..|hashes|] == hashes;
      tails := tails + {b};
    }

    /** on_deliver_blk */
    method OnDeliverBlk(b: Block) returns (valid: bool, error: Error)
      requires Valid() && b in store
      modifies this`store, this`tails
      ensures Valid()
      ensures var d := Live.Deliver(old(St()), b); St() == d.st && valid == d.valid && error == d.error
    {
      hide Live.Deliver, Live.StateOk, Live.AllDelivered, Live.DeliveredPrefix, Elements, Parents;
      DeliverStays(St(), b);
      if store[b].delivered {
        return false, NoError;
      }
      DeliverCases(St(), b);
      NoOwnParent(b);
      ghost var before := store;
      var found := LookUpParents(b);
      if !found {
        return false, NotDelivered;
      }
      assert Parents(b)[0] in Parents(b) && b.parent != b;
      valid := Link(b);
      error := if valid then NoError else QcNotFetched;
      Overwrite(before, b, before[b].(parents := Parents(b)), store[b]);
    }

    /** The rest of on_deliver_blk: height, certificate block, tails. */
    method Link(b: Block) returns (linked: bool)
      requires b.Node? && b in store && store[b].parents == Parents(b) && b.parent in store
      modifies this`store, this`tails
      ensures linked <==> b.justify in old(store)
      ensures var e := old(store[b]).(height := old(store)[b.parent].height + 1);
        store == old(store)[b := if linked then e.(qcRef := Some(b.justify), delivered := true) else e]
      ensures tails == if linked then old(tails) - Elements(Parents(b)) + {b} else old(tails)
    {
      var e := store[b].(height := store[store[b].parents[0]].height + 1);
      if b.justify !in store {
        store := store[b := e];
        return false;
      }
      EraseTails(b);
      store := store[b := e.(qcRef := Some(b.justify), delivered := true)];
      linked := true;
    }

    /** on_propose on the tail PMHighTail picked; tail' is its choice before the last callback. */
    method OnPropose(cmds: seq<nat>, enabled: bool) returns (bnew: Block, voted: bool, error: Error, ghost tail': Block)
      requires Valid() && Delivered(store, hqcTail)
      modifies this
      ensures bnew == old(Live.NewBlock(St(), hqcTail, cmds))
      ensures Valid()
      ensures var u := Live.Propose(mode, n, hashOf, old(St()), old(hqcTail), cmds, enabled);
        St() == u.st && voted == u.voted && error == u.error
      ensures error != OutOfBounds ==> Live.TailAfterHqc(old(St()), St(), old(hqcTail), tail')
      ensures error != OutOfBounds ==> hqcTail == if error == NoError then bnew else tail'
    {
      ghost var st := St();
      bnew := BuildBlock(cmds);
      BuiltHqc(n, hashOf, st, hqcTail, bnew);
      hide Live.Built, Live.Finish, Live.BestTail, Sound;
      voted, error, tail' := ReceiveOwn(bnew, enabled);
    }

    /** The part of on_propose up to delivery. A fresh entry's parents, height and qc_ref, which the
        source sets beforehand, are set again by on_deliver_blk. */
    method BuildBlock(cmds: seq<nat>) returns (bnew: Block)
      requires Valid() && Delivered(store, hqcTail)
      modifies this`tails, this`store
      ensures bnew == old(Live.NewBlock(St(), hqcTail, cmds)) && bnew in store
      ensures Valid() && St() == Live.Built(n, hashOf, old(St()), hqcTail, bnew)
    {
      ghost var st := St();
      bnew := Node(hqcTail, [], hqc, Payload(hqcQc, cmds));
      BuiltKeeps(n, hashOf, st, hqcTail, bnew);
      tails := tails - {hqcTail};
      AddBlk(bnew);
      ResetKeeps(St(), bnew, Some(EmptyCert(n, hashOf(bnew))));
      store := store[bnew := store[bnew].(selfQc := Some(EmptyCert(n, hashOf(bnew))))];
      hide Live.StateOk, Live.Deliver, Sound;
      var valid, error := OnDeliverBlk(bnew);
    }

    /** The part of on_propose after delivery: update, the height check, receiving the proposal. */
    method ReceiveOwn(bnew: Block, enabled: bool) returns (voted: bool, error: Error, ghost tail': Block)
      requires Valid() && bnew in store
      modifies this
      ensures Valid()
      ensures var u := Live.Finish(mode, old(St()), bnew, enabled); St() == u.st && voted == u.voted && error == u.error
      ensures error != OutOfBounds ==> Live.TailAfterHqc(old(St()), St(), old(hqcTail), tail')
      ensures error != OutOfBounds ==> hqcTail == if error == NoError then bnew else tail'
    {
      hide Live.StateOk, Live.Update, Live.CastVote, Live.BestTail, Live.TailAfterProposal;
      ghost var st := St();
      voted := false;
      error := Update(bnew);
      tail' := hqcTail;
      if error != NoError { return; }
      if store[bnew].height <= vheight {
        error := NotHigher;
        return;
      }
      ghost var st1 := St();
      voted, error := CastVote(bnew, enabled);
      TailKept(st, st1, St(), old(hqcTail), tail');
      if error == NoError {
        hqcTail := bnew;
      }
    }

    // ---- pruning ---------------------------------------------------------------------------

    /** The first loop of prune: down from the executed block, giving up at a block without parents. */
    method SkipBlocks(staleness: nat) returns (start: Option<Block>)
      requires Sound(store) && bExec in store
      ensures start == Skip(store, bExec, staleness) && (start.Some? ==> start.value in store)
    {
      var b := bExec;
      for k := 0 to staleness
        invariant b in store && Skip(store, bExec, staleness) == Skip(store, b, staleness - k)
      {
        ParentStep(store, b);
        if store[b].parents == [] {
          return None;
        }
        b := store[b].parents[0];
      }
      start := Some(b);
    }

    /** prune. What keeps a block in the store besides the core and other blocks is in held. */
    method Prune(staleness: nat, held: set<Block>) returns (ghost released: set<Block>)
      requires Valid() && Delivered(store, bExec)
      modifies this`store
      ensures Valid() && released !! held
      ensures Prunes(old(St()), hqcTail, staleness, released, St())
      ensures var start := Skip(old(store), bExec, staleness);
        start.Some? && Single(old(store), start.value) ==> Thoroughly(old(store), start.value, held, released)
    {
      hide Reachable, Referenced, Stripped, Single, Sound, Skip;
      released := {};
      SkipDown(store, bExec, staleness);
      var start := SkipBlocks(staleness);
      if start != None {
        released := PruneFrom(start.value, held);
        PruneKeeps(old(St()), hqcTail, staleness, released, St());
      }
    }

    /** Whatever was reachable has been released, unless something keeps it. */
    ghost predicate Thoroughly(before: Store, start: Block, held: set<Block>, released: set<Block>)
      reads this
    {
      forall r :: Reachable(before, start, r) && !HeldByCore(St(), hqcTail, r) && r !in held && !Referenced(store, r)
        ==> r in released
    }

    ghost function Pinned(held: set<Block>): set<Block>
      reads this
    {
      held + {Genesis, hqc, bLock, bExec, hqcTail} + tails
    }

    method PruneFrom(start: Block, held: set<Block>) returns (ghost released: set<Block>)
      requires Valid() && Delivered(store, start)
      modifies this`store
      ensures store == Stripped(old(store), start) - released && released !! held
      ensures forall r :: r in released ==>
        Reachable(old(store), start, r) && !HeldByCore(St(), hqcTail, r) && !Referenced(store, r)
      ensures Single(old(store), start) ==> Thoroughly(old(store), start, held, released)
    {
      hide Sound, Reachable, Referenced, Stripped, PruneState, Thorough, Single;
      ghost var before := store;
      ReleasedStart(before, start);
      store := store[start := store[start].(qcRef := None)];
      ghost var kept;
      ThoroughStart(before, start, Pinned(held));
      kept, released := DrainStack(before, start, held);
      FinishedIsStripped(before, kept, start);
      if Single(before, start) {
        ThoroughEnd(before, kept, start, released, Pinned(held));
      }
    }

    /** The second loop, over the stack. */
    method DrainStack(ghost before: Store, start: Block, held: set<Block>) returns (ghost kept: Store, ghost released: set<Block>)
      requires ReleaseState(before, store, [start], start, {}) && Sound(before) && Delivered(before, start)
      requires Thorough(before, store, [start], start, {}, Pinned(held))
      modifies this`store
      ensures ReleaseState(before, kept, [], start, released) && store == kept - released && released !! held
      ensures forall r :: r in released ==> !HeldByCore(St(), hqcTail, r)
      ensures Thorough(before, kept, [], start, released, Pinned(held))
    {
      hide Sound, Edges, PruneState, Reachable, Referenced, Thorough;
      var s := [start];
      kept, released := store, {};
      assert kept - {} == kept;
      while s != []
        invariant ReleaseState(before, kept, s, start, released) && store == kept - released && released !! held
        invariant forall r :: r in released ==> !HeldByCore(St(), hqcTail, r)
        invariant Thorough(before, kept, s, start, released, Pinned(held))
        decreases Edges(kept), |s|
      {
        s, kept, released := PruneTurn(before, kept, s, start, released, held);
      }
    }

    /** One turn of the loop. */
    method PruneTurn(ghost before: Store, ghost kept: Store, s: seq<Block>, ghost start: Block, ghost released: set<Block>,
                     held: set<Block>)
      returns (s': seq<Block>, ghost kept': Store, ghost released': set<Block>)
      requires s != [] && ReleaseState(before, kept, s, start, released) && Sound(before) && Delivered(before, start)
      requires store == kept - released && released !! held && forall r :: r in released ==> !HeldByCore(St(), hqcTail, r)
      requires Thorough(before, kept, s, start, released, Pinned(held))
      modifies this`store
      ensures ReleaseState(before, kept', s', start, released') && store == kept' - released' && released' !! held
      ensures forall r :: r in released' ==> !HeldByCore(St(), hqcTail, r)
      ensures Edges(kept') < Edges(kept) || (kept' == kept && |s'| < |s|)
      ensures Thorough(before, kept', s', start, released', Pinned(held))
    {
      hide Sound, Edges, PruneState, Reachable, Referenced, Thorough;
      var blk := s[|s| - 1];
      TopKept(before, kept, s, start, released);
      kept', released' := kept, released;
      if store[blk].parents == [] {
        ReleasedPop(before, kept, s, start, released);
        s' := s[..|s| - 1];
        var gone := TryRelease(blk, s', held);
        ThoroughPop(before, kept, s, start, released, Pinned(held), gone);
        if gone {
          ReleasedOne(before, kept, s', start, released, blk);
          released' := released + {blk};
        }
      } else {
        ReleasedPush(before, kept, s, start, released);
        ThoroughPush(before, kept, s, start, released, Pinned(held));
        s' := s + [LastParent(store[blk])];
        kept' := kept[blk := PopParent(kept[blk])];
        store := store[blk := PopParent(store[blk])];
      }
    }

    /** try_release_blk on the block taken off the stack: it leaves the store exactly when nothing
        else holds it. */
    method TryRelease(blk: Block, rest: seq<Block>, held: set<Block>) returns (gone: bool)
      modifies this`store
      ensures gone <==> !old(HeldByCore(St(), hqcTail, blk)) && blk !in held && blk !in rest && !old(Referenced(store, blk))
      ensures store == if gone then old(store) - {blk} else old(store)
    {
      gone := !(blk == Genesis || blk == hqc || blk == bLock || blk == bExec || blk == hqcTail || blk in tails)
        && blk !in held && blk !in rest && !Referenced(store, blk);
      if gone {
        store := store - {blk};
      }
    }
  }

  // ---- tails and walks ---------------------------------------------------------------------

  /** Nothing a walk reads has changed. */
  ghost predicate SameWalks(st: State, st': State) {
    && st'.hqc == st.hqc && st'.tails == st.tails
    && (forall b :: HeightOf(st'.store, b) == HeightOf(st.store, b))
    && (forall b, h :: Descend(st'.store, b, h) == Descend(st.store, b, h))
  }

  lemma {:induction false} DescendSame(store: Store, store': Store, b: Block, h: nat)
    requires SameEntries(store, store')
    ensures Descend(store', b, h) == Descend(store, b, h) && HeightOf(store', b) == HeightOf(store, b)
  {
    if b.Node? {
      DescendSame(store, store', b.parent, h);
    }
  }

  lemma FrameWalks(st: State, st': State)
    requires UpdateFrame(st, st') && st'.hqc == st.hqc
    ensures SameWalks(st, st')
  {
    forall b, h ensures Descend(st'.store, b, h) == Descend(st.store, b, h) && HeightOf(st'.store, b) == HeightOf(st.store, b) {
      DescendSame(st.store, st'.store, b, h);
    }
  }

  lemma TailStays(st: State, st1: State, st2: State, tail: Block, tail': Block)
    requires Live.TailAfterHqc(st, st1, tail, tail') && SameWalks(st1, st2)
    ensures Live.TailAfterHqc(st, st2, tail, tail')
  {
  }

  lemma TailKept(st: State, st1: State, st2: State, tail: Block, tail': Block)
    requires Live.TailAfterHqc(st, st1, tail, tail') && st2 == st1.(vheight := st2.vheight)
    ensures Live.TailAfterHqc(st, st2, tail, tail')
  {
  }

  lemma Overwrite(store: Store, b: Block, x: Entry, y: Entry)
    ensures store[b := x][b := y] == store[b := y]
  {
  }

  lemma DecideNone(store: Store, path: seq<Block>)
    ensures Decide(store, Elements(path[..0])) == store
  {
  }

  lemma DecideNext(store: Store, path: seq<Block>, k: nat)
    requires k < |path| && path[k] in store
    ensures var before := Decide(store, Elements(path[..k]));
      path[k] in before && path[..k + 1] == path[..k] + [path[k]]
      && Decide(store, Elements(path[..k + 1])) == before[path[k] := before[path[k]].(decision := true)]
  {
    assert path[..k + 1] == path[..k] + [path[k]];
    assert Elements(path[..k + 1]) == Elements(path[..k]) + {path[k]};
  }

  /** The prefix ends at the first undelivered block. */
  lemma {:induction false} PrefixEnds(store: Store, ps: seq<Block>, i: nat)
    requires i <= |ps| && (forall k :: 0 <= k < i ==> Delivered(store, ps[k])) && (i < |ps| ==> !Delivered(store, ps[i]))
    ensures Live.DeliveredPrefix(store, ps) == ps[..i]
  {
    if i > 0 {
      PrefixEnds(store, ps[1..], i - 1);
      assert ps[..i] == [ps[0]] + ps[1..][..i - 1];
    }
  }

  /** A step down parents[0] stays in the store. */
  lemma ParentStep(store: Store, b: Block)
    requires Sound(store) && b in store
    ensures b.Genesis? ==> store[b].parents == []
    ensures store[b].parents != [] ==> b.Node? && store[b].parents[0] == b.parent && b.parent in store
  {
    assert EntryOk(store, b);
    if store[b].parents != [] {
      assert store[b].parents[0] in store[b].parents;
    }
  }

  lemma NoOwnParent(b: Block)
    ensures b !in Parents(b)
  {
  }

  /** The top of the stack is still in the store. */
  lemma TopKept(before: Store, kept: Store, s: seq<Block>, start: Block, released: set<Block>)
    requires s != [] && ReleaseState(before, kept, s, start, released)
    ensures var b := s[|s| - 1]; b in s && b in kept && b !in released && Reachable(before, start, b)
  {
    TopInStore(before, kept, s, start);
    hide Reachable;
  }

  // ---- the commit queue --------------------------------------------------------------------

  function Reversed(s: seq<Block>): seq<Block> {
    if s == [] then [] else [s[|s| - 1]] + Reversed(s[..|s| - 1])
  }

  lemma QueueStep(path: seq<Block>, store: Store, b: Block, h: nat, queue: seq<Block>)
    requires b.Node? && HeightOf(store, b) > h && Direct(store, b, b.parent) && path == Visited(store, b, h) + Reversed(queue)
    ensures path == Visited(store, b.parent, h) + Reversed(queue + [b])
  {
    assert (queue + [b])[..|queue|] == queue;
  }

  lemma {:induction false} ReversedAt(s: seq<Block>)
    ensures |Reversed(s)| == |s|
    ensures forall k :: 0 <= k < |s| ==> Reversed(s)[k] == s[|s| - 1 - k]
    ensures forall x :: x in s <==> x in Reversed(s)
  {
    if s != [] {
      ReversedAt(s[..|s| - 1]);
    }
  }
}
