/** A replica that prunes and releases blocks beside one that never does: what the two share,
    and what the first one's handlers do in terms of the second's. */
module Mirror {
  import opened Blocks
  import opened Quorums
  import opened ReplicaModel
  import opened ReplicaProofs
  import opened PaceMakerModel
  import opened Agreement
  import opened Safety
  import opened Signatures
  import opened BlockStore
  import opened Options
  import StoreProofs
  import Live = StoreModel

  type State = Live.State

  ghost predicate SameFields(s: Core, st: State) {
    s.hqc == st.hqc && s.bLock == st.bLock && s.bExec == st.bExec && s.vheight == st.vheight && s.log == st.log
  }

  /** Delivered there is delivered here; here may be more, but not above the executed block. */
  ghost predicate DeliveredAlike(s: Core, st: State) {
    && (forall b :: Delivered(st.store, b) ==> b in s.delivered)
    && (forall b :: b in s.delivered && Extends(b, s.bExec) ==> Delivered(st.store, b))
  }

  /** A decision flag may be lost with its block, but not the executed block's. */
  ghost predicate DecidedAlike(s: Core, st: State) {
    && (forall b :: Decision(st.store, b) ==> b in s.decided)
    && Decision(st.store, s.bExec)
  }

  ghost predicate Above(bExec: Block, b: Block) {
    Extends(b, bExec) && b != bExec
  }

  /** Nothing above the executed block has been stripped. */
  ghost predicate IntactAbove(s: Core, st: State) {
    forall b :: Delivered(st.store, b) && Above(s.bExec, b) ==> QcRef(st.store, b).Some?
  }

  ghost predicate TailsAlike(s: Core, st: State) {
    forall t :: Extends(t, s.bExec) ==> (t in st.tails <==> t in s.tails)
  }

  ghost predicate VotesAlike(s: Core, st: State) {
    && (forall b :: Delivered(st.store, b) && Extends(b, s.bExec) ==> st.store[b].voted == VotedFor(s, b))
    && (forall b :: b !in s.delivered ==> VotedFor(s, b) == {})
  }

  ghost predicate CoreDelivered(st: State) {
    Delivered(st.store, st.hqc) && Delivered(st.store, st.bLock) && Delivered(st.store, st.bExec)
  }

  /** st is s, but for what pruning may have taken away. */
  ghost predicate Mirrors(s: Core, st: State) {
    && Live.StateOk(st) && CoreDelivered(st) && SameFields(s, st)
    && DeliveredAlike(s, st) && DecidedAlike(s, st) && IntactAbove(s, st) && TailsAlike(s, st) && VotesAlike(s, st)
  }

  /** Votes counted were cast. */
  ghost predicate CountedAreCast(c: Config, votes: set<Vote>, st: State) {
    forall b, q :: Delivered(st.store, b) && b.Node? && q in st.store[b].voted ==> q < c.n && Vote(q, b) in votes
  }

  /** What the other replicas' votes say about s. */
  ghost predicate Backed(c: Config, votes: set<Vote>, s: Core) {
    c.Valid() && VotesInv(c, votes) && CoreInv(s) && CertificatesHold(c, votes, s)
  }

  /** Blocks are known, decided and complete alike in two stores. */
  ghost predicate SameShape(store: Store, store': Store) {
    && (forall x {:trigger Delivered(store', x)} :: Delivered(store', x) <==> Delivered(store, x))
    && (forall x {:trigger Decision(store', x)} :: Decision(store', x) <==> Decision(store, x))
    && (forall x {:trigger QcRef(store', x)} :: QcRef(store', x) == QcRef(store, x))
  }

  lemma SameShapeAlike(s: Core, st: State, s': Core, st': State)
    requires DeliveredAlike(s, st) && DecidedAlike(s, st) && IntactAbove(s, st)
    requires SameShape(st.store, st'.store)
    requires s'.delivered == s.delivered && s'.decided == s.decided && s'.bExec == s.bExec
    ensures DeliveredAlike(s', st') && DecidedAlike(s', st') && IntactAbove(s', st')
  {
    hide Delivered, Decision, QcRef, Extends, Above;
  }

  // ---- facts about certified blocks --------------------------------------------------------

  lemma CertifiedIsAbove(c: Config, votes: set<Vote>, s: Core, w: Block)
    requires Backed(c, votes, s) && Certified(c, votes, w) && Height(w) >= Height(s.bExec)
    ensures Extends(w, s.bExec)
  {
    CertifiedAboveCommitted(c, votes, s.bExec, w);
  }

  /** A block whose certificate names a block above the executed one is itself above it. */
  lemma HighCertificate(c: Config, votes: set<Vote>, s: Core, b: Block)
    requires Backed(c, votes, s) && b in s.delivered && Height(Justify(b)) > Height(s.bExec)
    ensures Above(s.bExec, Justify(b)) && Above(s.bExec, b)
    ensures Justify(b) in s.delivered && Justify(b) !in s.decided && Certified(c, votes, Justify(b))
  {
    var j := Justify(b);
    CertifiedIsAbove(c, votes, s, j);
    JustifyBelow(s.delivered, b);
    ExtendsTransitive(b, j, s.bExec);
    ExtendsHeight(b, j);
    if j in s.decided {
      ExtendsHeight(s.bExec, j);
    }
  }

  /** update does nothing for a block whose certificate names nothing above the executed block. */
  lemma LowCertificate(c: Config, votes: set<Vote>, s: Core, b: Block)
    requires Backed(c, votes, s) && b in s.delivered && Height(Justify(b)) <= Height(s.bExec)
    ensures Update(c.mode, s, b) == Outcome(s, false, NoError)
  {
    var t := Justify(b);
    var target := LockTarget(c.mode, t);
    EarlyReturnsLoseNothing(c.mode, s, b);
    UpdateIsSafe(c, votes, s, b);
    UpdateKeeps(c.mode, s, b);
    JustifyBelow(s.delivered, b);
    JustifyBelow(s.delivered, t);
    JustifyBelow(s.delivered, Justify(t));
    if target !in s.decided && Commits(c.mode, t, target) {
      ExtendsHeight(target, s.bExec);
    }
  }

  // ---- reading a pruned store --------------------------------------------------------------

  lemma {:induction false} DescendAbove(s: Core, st: State, b: Block, h: nat)
    requires Mirrors(s, st) && Delivered(st.store, b) && Extends(b, s.bExec) && h >= Height(s.bExec)
    ensures Descend(st.store, b, h) == Some(Walk(b, h))
  {
    assert EntryOk(st.store, b);
    if Height(b) > h {
      assert Above(s.bExec, b);
      assert b.parent in st.store[b].parents;
      DescendAbove(s, st, b.parent, h);
    }
  }

  /** The certificate block of a block above the executed one. */
  lemma RefAbove(c: Config, votes: set<Vote>, s: Core, st: State, b: Block)
    requires Backed(c, votes, s) && Mirrors(s, st) && Delivered(st.store, b) && Above(s.bExec, b)
    ensures st.store[b].parents == Parents(b) && b in s.delivered && Height(b) > Height(s.bExec)
    ensures Height(Justify(b)) > Height(s.bExec) ==>
      Live.UndecidedRef(st.store, b) == Some(Justify(b)) && Delivered(st.store, Justify(b)) && Above(s.bExec, Justify(b))
      && Justify(b) !in s.decided
    ensures Height(Justify(b)) == Height(s.bExec) ==>
      Live.UndecidedRef(st.store, b) == None && Justify(b) in s.decided
    ensures Live.UndecidedRef(st.store, b).Some? ==> Live.UndecidedRef(st.store, b).value == Justify(b)
  {
    assert EntryOk(st.store, b);
    ExtendsHeight(b, s.bExec);
    if Height(Justify(b)) > Height(s.bExec) {
      HighCertificate(c, votes, s, b);
    } else if Height(Justify(b)) == Height(s.bExec) {
      CertifiedIsAbove(c, votes, s, Justify(b));
      ExtendsHeight(Justify(b), s.bExec);
    }
  }

  // ---- update ------------------------------------------------------------------------------

  /** The reference of an entry goes to a lower block, at most as high as its entry says. */
  lemma RefBelow(s: Core, st: State, b: Block)
    requires CoreInv(s) && Mirrors(s, st) && Live.UndecidedRef(st.store, b).Some?
    ensures var r := Live.UndecidedRef(st.store, b).value;
      r == Justify(b) && HeightOf(st.store, r) <= Height(r) <= Height(b) && r != s.bExec && b in s.delivered
  {
    assert EntryOk(st.store, b);
    assert EntryOk(st.store, Justify(b));
    JustifyBelow(s.delivered, b);
  }

  /** With a low certificate update does nothing, unless it comes to commit below. */
  lemma UpdateBelow(mode: Mode, s: Core, st: State, b: Block)
    requires CoreInv(s) && Mirrors(s, st) && Height(Justify(b)) <= Height(s.bExec)
    ensures Live.Update(mode, st, b) ==
      Live.Result(st, false, if Live.CommitsBelow(mode, st, b) then SafetyBreach else NoError)
  {
    hide Mirrors, CoreInv, Extends, Height, HeightOf, Live.FromLock, Live.UpdateHqc, Live.UpdateLock, Live.UndecidedRef, Direct;
    if Live.UndecidedRef(st.store, b).Some? {
      var c1 := Justify(b);
      LinkBelow(s, st, b);
      FromLockBelow(s, st, c1, true);
      if Live.UndecidedRef(st.store, c1).Some? {
        LinkBelow(s, st, c1);
        FromLockBelow(s, st, Justify(c1), Direct(st.store, c1, Justify(c1)));
      }
    }
  }

  /** A reference that is no higher than the executed block moves neither hqc nor lock. */
  lemma LinkBelow(s: Core, st: State, b: Block)
    requires CoreInv(s) && Mirrors(s, st) && Live.UndecidedRef(st.store, b).Some?
    requires Height(Justify(b)) <= Height(s.bExec)
    ensures Live.UndecidedRef(st.store, b) == Some(Justify(b))
    ensures Height(Justify(Justify(b))) <= Height(s.bExec)
    ensures forall qc :: Live.UpdateHqc(st, Justify(b), qc) == Live.Result(st, false, NoError)
    ensures Live.UpdateLock(st, Justify(b)) == st
  {
    MirrorHeights(s, st);
    RefBelow(s, st, b);
    JustifyBelow(s.delivered, b);
    JustifyBelow(s.delivered, Justify(b));
  }

  lemma FromLockBelow(s: Core, st: State, b: Block, direct: bool)
    requires CoreInv(s) && Mirrors(s, st) && Height(Justify(b)) <= Height(s.bExec)
    ensures var r := Live.UndecidedRef(st.store, b);
      && (r.Some? ==> r.value == Justify(b) && HeightOf(st.store, r.value) <= HeightOf(st.store, st.bExec))
      && Live.FromLock(st, b, direct) == Live.Result(st, false,
        if r.Some? && direct && Direct(st.store, b, r.value) then SafetyBreach else NoError)
  {
    MirrorHeights(s, st);
    if Live.UndecidedRef(st.store, b).Some? {
      RefBelow(s, st, b);
    }
  }

  lemma MirrorHeights(s: Core, st: State)
    requires CoreInv(s) && Mirrors(s, st)
    ensures s.bExec == st.bExec
    ensures HeightOf(st.store, st.bExec) == Height(s.bExec) <= HeightOf(st.store, st.bLock) <= HeightOf(st.store, st.hqc)
  {
    assert EntryOk(st.store, st.hqc) && EntryOk(st.store, st.bLock) && EntryOk(st.store, st.bExec);
  }

  /** Moving hqc, lock and vheight alike. */
  lemma MovedMirrors(s: Core, st: State, hqc: Block, qc: Cert, bLock: Block, vheight: nat)
    requires Mirrors(s, st) && Delivered(st.store, hqc) && Delivered(st.store, bLock)
    ensures Mirrors(s.(hqc := hqc, bLock := bLock, vheight := vheight),
      st.(hqc := hqc, hqcQc := qc, bLock := bLock, vheight := vheight))
  {
    var s' := s.(hqc := hqc, bLock := bLock, vheight := vheight);
    var st' := st.(hqc := hqc, hqcQc := qc, bLock := bLock, vheight := vheight);
    assert hqc in st.store && bLock in st.store;
    hide Sound, Above, Extends, Delivered, Decision;
    assert forall x :: VotedFor(s', x) == VotedFor(s, x);
  }

  lemma HqcMirrors(s: Core, st: State, b: Block, qc: Cert)
    requires Mirrors(s, st) && Delivered(st.store, b)
    ensures var u := Live.UpdateHqc(st, b, qc);
      && Mirrors(UpdateHqc(s, b), u.st) && u.st.store == st.store && u.st.tails == st.tails && !u.voted
      && u.st.hqc == UpdateHqc(s, b).hqc
      && u.error == (if u.st.hqc != st.hqc && Live.TailsCut(u.st) then OutOfBounds else NoError)
  {
    assert EntryOk(st.store, b) && EntryOk(st.store, st.hqc);
    MovedMirrors(s, st, b, qc, st.bLock, st.vheight);
    assert s.(hqc := b) == s.(hqc := b, bLock := st.bLock, vheight := st.vheight);
    hide Mirrors, Live.TailsCut;
  }

  lemma LockMirrors(s: Core, st: State, b: Block)
    requires Mirrors(s, st) && Delivered(st.store, b)
    ensures Mirrors(UpdateLock(s, b), Live.UpdateLock(st, b))
    ensures Live.UpdateLock(st, b) == st.(bLock := UpdateLock(s, b).bLock)
  {
    assert EntryOk(st.store, b) && EntryOk(st.store, st.bLock);
    MovedMirrors(s, st, st.hqc, st.hqcQc, b, st.vheight);
    assert s.(bLock := b) == s.(hqc := st.hqc, bLock := b, vheight := st.vheight);
    hide Mirrors;
  }

  /** Committing a block above the executed one. */
  lemma CommitMirrors(s: Core, st: State, blk: Block)
    requires Mirrors(s, st) && Delivered(st.store, blk) && Above(s.bExec, blk)
    ensures var o, u := Commit(s, blk), Live.Commit(st, blk);
      && o.error == NoError && u == Live.Result(u.st, false, NoError) && Mirrors(o.core, u.st)
      && u.st.hqc == st.hqc && u.st.hqcQc == st.hqcQc
  {
    var path := Path(blk, Height(s.bExec));
    CommitReads(s, st, blk);
    StoreProofs.DecideSound(st.store, Elements(path));
    CommittedMirrors(s, st, blk, path);
    hide Mirrors, Path, Walk, Descend, Visited, Height, HeightOf, Decide;
  }

  lemma CommitReads(s: Core, st: State, blk: Block)
    requires Mirrors(s, st) && Delivered(st.store, blk) && Above(s.bExec, blk)
    ensures var h := Height(s.bExec);
      && s.bExec == st.bExec && HeightOf(st.store, st.bExec) == h && Sound(st.store)
      && Descend(st.store, blk, h) == Some(s.bExec) && Walk(blk, h) == s.bExec
      && Visited(st.store, blk, h) == Path(blk, h) && blk in Path(blk, h)
  {
    assert EntryOk(st.store, st.bExec);
    WalkFindsAncestor(blk, s.bExec);
    DescendAbove(s, st, blk, Height(s.bExec));
    DescendIsWalk(st.store, blk, Height(s.bExec));
    ExtendsHeight(blk, s.bExec);
    PathMembers(blk, s.bExec, blk);
  }

  lemma CommittedMirrors(s: Core, st: State, blk: Block, path: seq<Block>)
    requires Mirrors(s, st) && Delivered(st.store, blk) && Above(s.bExec, blk) && blk in path
    requires Sound(Decide(st.store, Elements(path)))
    ensures Mirrors(s.(decided := s.decided + Elements(path), bExec := blk, log := s.log + path),
      st.(store := Decide(st.store, Elements(path)), bExec := blk, log := st.log + path))
  {
    var s' := s.(decided := s.decided + Elements(path), bExec := blk, log := s.log + path);
    var st' := st.(store := Decide(st.store, Elements(path)), bExec := blk, log := st.log + path);
    hide Sound;
    forall b | Extends(b, blk) ensures Extends(b, s.bExec) && (b != blk ==> Above(s.bExec, b)) {
      ExtendsTransitive(b, blk, s.bExec);
      if b == s.bExec {
        ExtendsHeight(blk, s.bExec);
        ExtendsHeight(b, blk);
      }
    }
    assert DeliveredAlike(s', st');
    assert DecidedAlike(s', st');
    assert IntactAbove(s', st');
    assert TailsAlike(s', st');
    assert VotesAlike(s', st');
  }

  /** The end of update as the unpruned replica does it. */
  function FromLock(s: Core, b: Block, direct: bool): Outcome {
    if Justify(b) in s.decided || !direct || Parent(b) != Justify(b) then Outcome(s, false, NoError)
    else Commit(s, Justify(b))
  }

  lemma FromLockMirrors(c: Config, votes: set<Vote>, s: Core, st: State, b: Block, direct: bool)
    requires Backed(c, votes, s) && Mirrors(s, st) && Delivered(st.store, b) && Above(s.bExec, b)
    ensures var o, u := FromLock(s, b, direct), Live.FromLock(st, b, direct);
      && o.error == NoError && u == Live.Result(u.st, false, NoError) && Mirrors(o.core, u.st)
      && u.st.hqc == st.hqc && u.st.hqcQc == st.hqcQc
  {
    hide Mirrors, Backed, Commit, Live.Commit, Extends, Above, Certified, Height, Direct;
    RefAbove(c, votes, s, st, b);
    DirectIsParent(st.store, b);
    var j := Justify(b);
    if Height(j) > Height(s.bExec) && direct && Parent(b) == j {
      CommitMirrors(s, st, j);
    }
  }

  lemma DirectIsParent(store: Store, b: Block)
    requires b in store && store[b].parents == Parents(b) && Height(b) > 0
    ensures Height(b) == Height(Parent(b)) + 1
    ensures forall p :: Direct(store, b, p) <==> Parent(b) == p
  {
  }

  lemma HqcBacked(c: Config, votes: set<Vote>, s: Core, b: Block)
    requires Backed(c, votes, s) && b in s.delivered && Certified(c, votes, b)
    ensures Backed(c, votes, UpdateHqc(s, b)) && Height(b) <= Height(UpdateHqc(s, b).hqc)
  {
  }

  lemma LockBacked(c: Config, votes: set<Vote>, s: Core, b: Block)
    requires Backed(c, votes, s) && b in s.delivered && Certified(c, votes, b) && Height(b) <= Height(s.hqc)
    ensures Backed(c, votes, UpdateLock(s, b))
  {
  }

  /** update behind update_hqc, from the block c1 that hqc was offered, in the two builds. */
  function FromHqc(mode: Mode, s: Core, c1: Block): Outcome {
    match mode
    case ThreeStep =>
      if Justify(c1) in s.decided then Outcome(s, false, NoError)
      else FromLock(UpdateLock(s, Justify(c1)), Justify(c1), Parent(c1) == Justify(c1))
    case TwoStep => FromLock(UpdateLock(s, c1), c1, true)
  }

  lemma FromHqcMirrors(c: Config, votes: set<Vote>, s: Core, st: State, c1: Block)
    requires Backed(c, votes, s) && Mirrors(s, st) && Delivered(st.store, c1) && Above(s.bExec, c1)
    requires Certified(c, votes, c1) && Height(c1) <= Height(s.hqc)
    ensures var o, u := FromHqc(c.mode, s, c1), Live.FromHqc(c.mode, st, c1);
      && o.error == NoError && u == Live.Result(u.st, false, NoError) && Mirrors(o.core, u.st)
      && u.st.hqc == st.hqc == o.core.hqc && u.st.hqcQc == st.hqcQc
  {
    RefAbove(c, votes, s, st, c1);
    match c.mode
    case TwoStep =>
      LockMirrors(s, st, c1);
      LockBacked(c, votes, s, c1);
      FromLockMirrors(c, votes, UpdateLock(s, c1), Live.UpdateLock(st, c1), c1, true);
    case ThreeStep =>
      var j := Justify(c1);
      DirectIsParent(st.store, c1);
      if Height(j) > Height(s.bExec) {
        HighCertificate(c, votes, s, c1);
        JustifyBelow(s.delivered, c1);
        LockMirrors(s, st, j);
        LockBacked(c, votes, s, j);
        FromLockMirrors(c, votes, UpdateLock(s, j), Live.UpdateLock(st, j), j, Parent(c1) == j);
      } else if Height(j) < Height(s.bExec) {
        LowLock(s, st, j);
        hide Mirrors, Backed;
      }
  }

  lemma LowLock(s: Core, st: State, j: Block)
    requires CoreInv(s) && Mirrors(s, st) && Height(j) < Height(s.bExec)
    ensures UpdateLock(s, j) == s
    ensures j in st.store ==> Live.UpdateLock(st, j) == st
  {
    MirrorHeights(s, st);
    if j in st.store {
      assert EntryOk(st.store, j);
    }
  }

  /** With a high certificate update does what it does there, as long as PMHighTail's callback,
      if hqc moves, meets no emptied list. It then commits nothing below. */
  lemma UpdateAbove(c: Config, votes: set<Vote>, s: Core, st: State, b: Block)
    requires Backed(c, votes, s) && Mirrors(s, st) && Delivered(st.store, b)
    requires Height(Justify(b)) > Height(s.bExec)
    ensures UpdateMirrors(c.mode, s, st, b)
  {
    HqcMoves(s, st, Justify(b), Live.QcOf(b));
    UpdateSplits(c.mode, s, st, b);
    hide Mirrors, Backed, Extends, Above, Certified, Height, Delivered, FromHqc, Live.FromHqc, Update, Live.Update,
      UpdateHqc, Live.UpdateHqc, Live.TailsCut, Live.UndecidedRef;
    HighCertificate(c, votes, s, b);
    RefAbove(c, votes, s, st, b);
    var c1 := Justify(b);
    HqcMirrors(s, st, c1, Live.QcOf(b));
    HqcBacked(c, votes, s, c1);
    FromHqcMirrors(c, votes, UpdateHqc(s, c1), Live.UpdateHqc(st, c1, Live.QcOf(b)).st, c1);
  }

  lemma UpdateSplits(mode: Mode, s: Core, st: State, b: Block)
    ensures var c1 := Justify(b);
      c1 !in s.decided ==> Update(mode, s, b) == FromHqc(mode, UpdateHqc(s, c1), c1)
    ensures var r := Live.UndecidedRef(st.store, b);
      r.Some? ==> var u := Live.UpdateHqc(st, r.value, Live.QcOf(b));
        Live.Update(mode, st, b) == if u.error != NoError then u else Live.FromHqc(mode, u.st, r.value)
  {
  }

  lemma HqcMoves(s: Core, st: State, b: Block, qc: Cert)
    requires Mirrors(s, st)
    ensures forall x :: Delivered(st.store, x) ==> x in s.delivered
    ensures s.hqc == st.hqc && UpdateHqc(s, b) == s.(hqc := UpdateHqc(s, b).hqc)
    ensures var u := Live.UpdateHqc(st, b, qc);
      u.st == (if u.st.hqc == st.hqc then st else st.(hqc := u.st.hqc, hqcQc := qc))
  {
  }

  ghost predicate UpdateMirrors(mode: Mode, s: Core, st: State, b: Block) {
    var o, u := Update(mode, s, b), Live.Update(mode, st, b);
    var moved := st.(hqc := o.core.hqc, hqcQc := Live.QcOf(b));
    && o.error == NoError && !u.voted
    && u.error == (if o.core.hqc != s.hqc && Live.TailsCut(moved) then OutOfBounds else NoError)
    && (u.error == NoError ==>
      && Mirrors(o.core, u.st) && u.st.hqcQc == if o.core.hqc != s.hqc then Live.QcOf(b) else st.hqcQc)
  }

  lemma TargetAbove(c: Config, votes: set<Vote>, s: Core, st: State, b: Block)
    requires Backed(c, votes, s) && Mirrors(s, st) && Delivered(st.store, b)
    requires Height(Justify(b)) > Height(s.bExec)
    ensures !Live.CommitsBelow(c.mode, st, b)
  {
    HqcMoves(s, st, b, Live.QcOf(b));
    hide Mirrors, Backed, Extends, Above, Certified, Height, Delivered, HeightOf, Live.UndecidedRef, Direct;
    HighCertificate(c, votes, s, b);
    RefAbove(c, votes, s, st, b);
    if c.mode.ThreeStep? {
      SecondAbove(c, votes, s, st, Justify(b));
    } else {
      NextAbove(c, votes, s, st, Justify(b));
    }
  }

  lemma SecondAbove(c: Config, votes: set<Vote>, s: Core, st: State, b: Block)
    requires Backed(c, votes, s) && Mirrors(s, st) && Delivered(st.store, b) && Above(s.bExec, b)
    ensures match Live.UndecidedRef(st.store, b)
      case None => true
      case Some(r) => match Live.UndecidedRef(st.store, r)
        case None => true
        case Some(q) => Direct(st.store, b, r) && Direct(st.store, r, q) ==>
          HeightOf(st.store, q) > HeightOf(st.store, st.bExec)
  {
    hide Mirrors, Backed, Extends, Above, Certified, Height, Delivered, HeightOf, Live.UndecidedRef, Direct;
    RefAbove(c, votes, s, st, b);
    NextAbove(c, votes, s, st, b);
    if Height(Justify(b)) > Height(s.bExec) {
      NextAbove(c, votes, s, st, Justify(b));
    }
  }

  /** A direct undecided link from above the executed block stays above it. */
  lemma NextAbove(c: Config, votes: set<Vote>, s: Core, st: State, b: Block)
    requires Backed(c, votes, s) && Mirrors(s, st) && Delivered(st.store, b) && Above(s.bExec, b)
    ensures var r := Live.UndecidedRef(st.store, b);
      r.Some? && Direct(st.store, b, r.value) ==>
        r.value == Justify(b) && Height(Justify(b)) > Height(s.bExec) && HeightOf(st.store, r.value) > HeightOf(st.store, st.bExec)
  {
    MirrorHeights(s, st);
    RefAbove(c, votes, s, st, b);
    DirectIsParent(st.store, b);
    if Height(Justify(b)) > Height(s.bExec) {
      assert EntryOk(st.store, Justify(b));
    }
  }

  /** update on a pruned store, exactly: it throws when it comes to commit below, where the
      unpruned replica does nothing; else both do the same, up to PMHighTail's callback. */
  lemma UpdateExactly(c: Config, votes: set<Vote>, s: Core, st: State, b: Block)
    requires Backed(c, votes, s) && Mirrors(s, st) && Delivered(st.store, b)
    ensures if Live.CommitsBelow(c.mode, st, b) then
        && Live.Update(c.mode, st, b) == Live.Result(st, false, SafetyBreach)
        && Update(c.mode, s, b) == Outcome(s, false, NoError)
      else UpdateMirrors(c.mode, s, st, b)
  {
    HqcMoves(s, st, b, Live.QcOf(b));
    hide Mirrors, Backed, Update, Live.Update, Live.CommitsBelow, Height;
    if Height(Justify(b)) > Height(s.bExec) {
      UpdateAbove(c, votes, s, st, b);
      TargetAbove(c, votes, s, st, b);
    } else {
      LowCertificate(c, votes, s, b);
      UpdateBelow(c.mode, s, st, b);
    }
  }

  // ---- voting ------------------------------------------------------------------------------

  /** Opinion, callback and vote, exactly: both replicas do the same unless a walk meets an
      emptied list. */
  lemma CastVoteExactly(c: Config, votes: set<Vote>, s: Core, st: State, b: Block, enabled: bool)
    requires Backed(c, votes, s) && Mirrors(s, st) && Delivered(st.store, b)
    ensures var o, u := CastVote(s, b, enabled), Live.CastVote(st, b, enabled);
      && u.error == (if Live.MeetsEmptied(st, b) then OutOfBounds else NoError)
      && (u.error == NoError ==>
        Mirrors(o.core, u.st) && u.voted == o.voted && u.st == st.(vheight := u.st.vheight))
  {
    VoteReads(c, votes, s, st, b);
    MovedMirrors(s, st, st.hqc, st.hqcQc, st.bLock, Height(b));
    assert s.(vheight := Height(b)) == s.(hqc := st.hqc, bLock := st.bLock, vheight := Height(b));
    assert st.(vheight := Height(b)) == st.(hqc := st.hqc, hqcQc := st.hqcQc, bLock := st.bLock, vheight := Height(b));
    hide Mirrors, Backed, Height, HeightOf, Descend, Opinion, Live.Opinion;
  }

  lemma VoteReads(c: Config, votes: set<Vote>, s: Core, st: State, b: Block)
    requires Backed(c, votes, s) && Mirrors(s, st) && Delivered(st.store, b)
    ensures HeightOf(st.store, b) == Height(b) && b in s.delivered && s.hqc == st.hqc && s.bLock == st.bLock
    ensures Live.Opinion(st, b).None? ==> Live.MeetsEmptied(st, b)
    ensures !Live.MeetsEmptied(st, b) ==> Live.Opinion(st, b) == Some(Opinion(s, b))
    ensures Live.MeetsEmptied(st, b) ==>
      Live.Opinion(st, b).None? || Descend(st.store, b, HeightOf(st.store, st.hqc)).None?
  {
    MirrorHeights(s, st);
    KnownHeights(s, st, b);
    DescendIsWalk(st.store, b, Height(s.bLock));
    LivenessReads(c, votes, s, st, b);
    hide Extends, Walk, Descend, Mirrors, Backed, HeightOf, QcRef, Height;
  }

  lemma KnownHeights(s: Core, st: State, b: Block)
    requires CoreInv(s) && Mirrors(s, st) && Delivered(st.store, b)
    ensures b in s.delivered && s.hqc == st.hqc && s.bLock == st.bLock && s.vheight == st.vheight
    ensures HeightOf(st.store, b) == Height(b)
    ensures HeightOf(st.store, st.hqc) == Height(s.hqc) && HeightOf(st.store, st.bLock) == Height(s.bLock)
    ensures Height(s.bLock) <= Height(s.hqc)
    ensures forall x, y, z :: y <= z && Descend(st.store, x, z).None? ==> Descend(st.store, x, y).None?
  {
    assert EntryOk(st.store, b) && EntryOk(st.store, st.bLock) && EntryOk(st.store, st.hqc);
    forall x, y, z | y <= z && Descend(st.store, x, z).None? ensures Descend(st.store, x, y).None? {
      DescendLower(st.store, x, y, z);
    }
  }

  lemma {:induction false} DescendLower(store: Store, b: Block, y: nat, z: nat)
    requires y <= z && Descend(store, b, z).None?
    ensures Descend(store, b, y).None?
  {
    if b.Node? && Direct(store, b, b.parent) {
      DescendLower(store, b.parent, y, z);
    }
  }

  /** The liveness condition reads alike, and where it holds the walks are complete. */
  lemma LivenessReads(c: Config, votes: set<Vote>, s: Core, st: State, b: Block)
    requires Backed(c, votes, s) && Mirrors(s, st) && Delivered(st.store, b)
    ensures var q := QcRef(st.store, b);
      Height(Justify(b)) > Height(s.bLock) <==> q.Some? && HeightOf(st.store, q.value) > Height(s.bLock)
    ensures Height(Justify(b)) > Height(s.bLock) ==>
      Descend(st.store, b, Height(s.bLock)).Some? && Descend(st.store, b, Height(s.hqc)).Some?
  {
    var j := Justify(b);
    assert EntryOk(st.store, b);
    if Height(j) > Height(s.bLock) {
      HighCertificate(c, votes, s, b);
      assert EntryOk(st.store, j);
      DescendAbove(s, st, b, Height(s.bLock));
      DescendAbove(s, st, b, Height(s.hqc));
    } else if st.store[b].qcRef.Some? {
      assert EntryOk(st.store, j);
    }
  }

  /** PMHighTail's callback on a proposal picks alike. */
  lemma TailMirrors(s: Core, st: State, b: Block, tail: Block)
    requires Mirrors(s, st) && Delivered(st.store, b) && Delivered(st.store, tail)
    requires Descend(st.store, b, HeightOf(st.store, st.hqc)).Some?
    ensures Live.TailAfterProposal(st, b, tail) == TailAfterProposal(s, b, tail)
    ensures Delivered(st.store, Live.TailAfterProposal(st, b, tail))
  {
    assert EntryOk(st.store, b) && EntryOk(st.store, tail) && EntryOk(st.store, st.hqc);
    DescendIsWalk(st.store, b, Height(s.hqc));
  }
}
