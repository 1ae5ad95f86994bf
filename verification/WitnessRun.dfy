/** A run of any length in either build: replicas 0 and 1 receive a branch and then a chain, and
    with replica 3 they vote for every block of the chain. */
module WitnessRun {
  import opened Blocks
  import opened Quorums
  import opened Signatures
  import opened ReplicaModel
  import opened BlockStore
  import opened StoreProtocol
  import opened WitnessBlocks
  import opened Options
  import Live = StoreModel

  // ---- events ------------------------------------------------------------------------------

  function Visit(r: nat, b: Block): seq<Event> {
    [FetchEvent(r, b), DeliverEvent(r, b)]
  }

  /** Both replicas fetch and deliver the branch up to height u. */
  function Setup(u: nat): seq<Event> {
    if u == 0 then [] else Setup(u - 1) + Visit(0, Fork(u)) + Visit(1, Fork(u))
  }

  /** Block i of the chain reaches replica r, which votes for it. */
  function Turn(u: nat, r: nat, i: nat): seq<Event> {
    Visit(r, Main(u, i)) + [ReceiveEvent(r, Main(u, i), true, if i == 1 then Genesis else Main(u, i))]
  }

  /** After the branch the chain up to height m, one round a block. */
  function Rounds(u: nat, m: nat): seq<Event> {
    if m == 0 then Setup(u)
    else Rounds(u, m - 1) + Turn(u, 0, m) + Turn(u, 1, m) + [FaultyVoteEvent(Vote(3, Main(u, m)))]
  }

  // ---- the state they lead to --------------------------------------------------------------

  /** How far execution is behind the newest block. */
  function Lag(mode: Mode): nat {
    if mode == ThreeStep then 3 else 2
  }

  function Sub(a: nat, b: nat): nat {
    if a > b then a - b else 0
  }

  /** The entry of a delivered block, with the chain executed up to height x. */
  function Complete(x: nat, b: Block): Entry {
    Entry(Parents(b), Some(Justify(b)), Height(b), true, b.Genesis? || (Height(b) <= x && Kind(b) == 1),
      if b.Genesis? then AllReplicas(4) else {}, None)
  }

  /** The branch up to height f and the chain up to height n. */
  predicate Seen(u: nat, f: nat, n: nat, b: Block) {
    (Height(b) <= n && b == Main(u, Height(b))) || (1 <= Height(b) <= f && b == Fork(Height(b)))
  }

  ghost predicate Holds(u: nat, f: nat, n: nat, x: nat, store: Store) {
    && (forall b :: b in store <==> Seen(u, f, n, b))
    && (forall b :: b in store ==> store[b] == Complete(x, b))
  }

  /** A replica that has seen the branch up to f and received the chain up to m. */
  ghost predicate Stands(mode: Mode, u: nat, f: nat, m: nat, l: Local) {
    var st, d := l.st, Lag(mode);
    && Holds(u, f, m, Sub(m, d), st.store)
    && st.hqc == Main(u, Sub(m, 1)) && st.hqcQc == CertOf(Sub(m, 1))
    && st.bLock == Main(u, Sub(m, d - 1)) && st.bExec == Main(u, Sub(m, d)) && st.vheight == m
    && st.tails == (if m == 0 then {Fork(f)} else {Main(u, m)})
    && l.tail == Main(u, m)
  }

  /** The replicas that have voted for the chain up to m. */
  ghost predicate Voted(u: nat, m: nat, r: nat, votes: set<Vote>) {
    forall i :: 1 <= i <= m ==> Vote(r, Main(u, i)) in votes
  }

  ghost predicate Here(mode: Mode, u: nat, f: nat, m: nat, r: nat, t: StoreSystem) {
    r in t.replicas && Stands(mode, u, f, m, t.replicas[r]) && Voted(u, m, r, t.votes)
  }

  // ---- delivery ----------------------------------------------------------------------------

  /** The entry delivery makes, with no decision flag. */
  function Anew(b: Block): Entry {
    Entry(Parents(b), Some(Justify(b)), Height(b), true, false, {}, None)
  }

  function With(st: Live.State, b: Block): Live.State {
    st.(store := st.store[b := Anew(b)], tails := st.tails - Elements(Parents(b)) + {b})
  }

  /** Delivering a block that is not in the store, with its parents delivered. */
  lemma DeliverFresh(st: Live.State, b: Block)
    requires b !in st.store && b.Node? && Live.AllDelivered(st.store, Parents(b)) && b.justify in st.store
    requires HeightOf(st.store, b.parent) == Height(b.parent)
    ensures b in Live.Fetch(st, b).store && Live.Deliver(Live.Fetch(st, b), b).st == With(st, b)
  {
    var s := Live.Fetch(st, b);
    assert b.parent in Parents(b);
    assert Live.AllDelivered(s.store, Parents(b));
    assert HeightOf(s.store, b.parent) == Height(b.parent);
    assert s.store[b := Anew(b)] == st.store[b := Anew(b)];
  }

  /** Fetching and delivering it, as two steps of a run. */
  lemma VisitDelivers(c: Config, k: Keys, events: seq<Event>, t: StoreSystem, r: nat, b: Block) returns (t': StoreSystem)
    requires c.Valid() && Reached(c, k, events, t) && r in t.replicas
    requires var st := t.replicas[r].st;
      && b !in st.store && b.Node? && Live.AllDelivered(st.store, Parents(b)) && b.justify in st.store
      && HeightOf(st.store, b.parent) == Height(b.parent)
    requires Distinct(k, t.replicas[r].st.store, b) && Verified(c, k, t.votes, b)
    ensures Reached(c, k, events + Visit(r, b), t')
    ensures t' == t.(replicas := t.replicas[r := Local(With(t.replicas[r].st, b), t.replicas[r].tail)])
  {
    var Local(st, tail) := t.replicas[r];
    DeliverFresh(st, b);
    hide Reached, Distinct, Verified, With, Live.Deliver, Live.Fetch;
    var t1 := t.(replicas := t.replicas[r := Local(Live.Fetch(st, b), tail)]);
    ReachedNext(c, k, events, t, t1, FetchEvent(r, b));
    t' := t.(replicas := t.replicas[r := Local(With(st, b), tail)]);
    assert t1.replicas[r := Local(With(st, b), tail)] == t'.replicas;
    ReachedNext(c, k, events + [FetchEvent(r, b)], t1, t', DeliverEvent(r, b));
    assert events + [FetchEvent(r, b)] + [DeliverEvent(r, b)] == events + Visit(r, b);
  }

  // ---- what the store answers --------------------------------------------------------------

  lemma MainParts(u: nat, i: nat)
    ensures Height(Main(u, i)) == i && (Main(u, i).Genesis? <==> i == 0)
    ensures i > 0 ==> var b, p := Main(u, i), Main(u, i - 1);
      b.parent == p && Justify(b) == p && b.payload.qc == CertOf(i - 1) && Kind(b) == 1
  {
    hide CertOf;
  }

  lemma MainParents(u: nat, i: nat)
    requires i > 0
    ensures Parents(Main(u, i)) == if i == 1 && u > 0 then [Main(u, 0), Fork(u)] else [Main(u, i - 1)]
  {
    hide CertOf;
  }

  lemma Link(u: nat, n: nat, x: nat, store: Store, i: nat)
    requires Holds(u, u, n, x, store) && i <= n
    ensures var b := Main(u, i);
      && b in store && Delivered(store, b) && HeightOf(store, b) == i && (Decision(store, b) <==> i <= x)
      && (b.Genesis? <==> i == 0)
    ensures i > 0 ==> var b, p := Main(u, i), Main(u, i - 1);
      && b.parent == p && Direct(store, b, p) && QcRef(store, b) == Some(p) && b.payload.qc == CertOf(i - 1)
      && Live.UndecidedRef(store, b) == if i - 1 <= x then None else Some(p)
  {
    MainParts(u, i);
    assert Seen(u, u, n, Main(u, i));
    if i > 0 {
      MainParts(u, i - 1);
      assert Seen(u, u, n, Main(u, i - 1));
    }
    hide CertOf, Main, Kind, Seen;
  }

  lemma OneDown(store: Store, b: Block, h: nat)
    requires b.Node? && Direct(store, b, b.parent) && HeightOf(store, b) == h + 1 && HeightOf(store, b.parent) == h
    ensures Descend(store, b, h) == Some(b.parent) && Visited(store, b, h) == [b]
  {
    assert Descend(store, b.parent, h) == Some(b.parent);
    assert Visited(store, b.parent, h) == [];
  }

  lemma HoldsSeen(u: nat, f: nat, n: nat, x: nat, store: Store, b: Block)
    requires Holds(u, f, n, x, store) && b in store
    ensures Seen(u, f, n, b) && store[b] == Complete(x, b)
  {
  }

  lemma ForkLink(u: nat, n: nat, x: nat, store: Store, i: nat)
    requires Holds(u, u, n, x, store) && i <= u
    ensures var b := Fork(i); b in store && Delivered(store, b) && HeightOf(store, b) == i && (b.Genesis? <==> i == 0)
    ensures i > 0 ==> var b, p := Fork(i), Fork(i - 1);
      b.parent == p && store[b].parents == [p] && Direct(store, b, p)
  {
    hide Main, Kind;
    assert Seen(u, u, n, Fork(i)) by {
      assert i == 0 ==> Main(u, 0) == Genesis by {
        MainParts(u, 0);
      }
    }
  }

  lemma InStore(store: Store, b: Block)
    requires Delivered(store, b)
    ensures b in store && store[b].delivered
  {
  }

  lemma MainsDiffer(u: nat, i: nat, j: nat)
    requires i != j
    ensures Main(u, i) != Main(u, j)
  {
    assert Height(Main(u, i)) != Height(Main(u, j));
  }

  // ---- receiving the next block of the chain -----------------------------------------------

  /** Block m + 1 is delivered and not yet received. */
  ghost predicate Ready(mode: Mode, u: nat, m: nat, st: Live.State) {
    var d := Lag(mode);
    && Holds(u, u, m + 1, Sub(m, d), st.store)
    && st.hqc == Main(u, Sub(m, 1)) && st.hqcQc == CertOf(Sub(m, 1))
    && st.bLock == Main(u, Sub(m, d - 1)) && st.bExec == Main(u, Sub(m, d)) && st.vheight == m
    && st.tails == {Main(u, m + 1)}
  }

  /** And update has run. */
  ghost predicate Updated(mode: Mode, u: nat, m: nat, st: Live.State) {
    var d := Lag(mode);
    && Holds(u, u, m + 1, Sub(m + 1, d), st.store)
    && st.hqc == Main(u, m) && st.hqcQc == CertOf(m)
    && st.bLock == Main(u, Sub(m + 1, d - 1)) && st.bExec == Main(u, Sub(m + 1, d)) && st.vheight == m
    && st.tails == {Main(u, m + 1)}
  }

  lemma UpdateHqcHere(mode: Mode, u: nat, m: nat, st: Live.State)
    requires m > 0 && Ready(mode, u, m, st)
    ensures Live.UpdateHqc(st, Main(u, m), CertOf(m)) == Live.Result(st.(hqc := Main(u, m), hqcQc := CertOf(m)), false, NoError)
  {
    hide Holds, Main, CertOf, Direct, HeightOf;
    var x := Sub(m, Lag(mode));
    Link(u, m + 1, x, st.store, m - 1);
    Link(u, m + 1, x, st.store, m);
    Link(u, m + 1, x, st.store, m + 1);
    OneDown(st.store, Main(u, m + 1), m);
  }

  lemma ForkKind(i: nat)
    ensures Kind(Fork(i)) == 0
  {
  }

  /** Which entries deciding the next block of the chain changes. */
  lemma NextComplete(u: nat, n: nat, x: nat, b: Block)
    requires Seen(u, u, n, b)
    ensures Complete(x + 1, b) == if b == Main(u, x + 1) then Complete(x, b).(decision := true) else Complete(x, b)
  {
    MainParts(u, Height(b));
    MainParts(u, x + 1);
    ForkKind(Height(b));
    hide Main, Fork, Kind;
  }

  lemma Decides(u: nat, n: nat, x: nat, store: Store)
    requires Holds(u, u, n, x, store) && x < n
    ensures Holds(u, u, n, x + 1, Decide(store, {Main(u, x + 1)}))
  {
    hide Main, Complete, Seen;
    var after := Decide(store, {Main(u, x + 1)});
    forall b | b in store ensures after[b] == Complete(x + 1, b) {
      NextComplete(u, n, x, b);
    }
  }

  lemma CommitHere(u: nat, n: nat, x: nat, st: Live.State)
    requires Holds(u, u, n, x, st.store) && x < n && st.bExec == Main(u, x)
    ensures var r := Live.Commit(st, Main(u, x + 1));
      && r.error == NoError && r.st == st.(store := r.st.store, bExec := Main(u, x + 1), log := r.st.log) && !r.voted
      && Holds(u, u, n, x + 1, r.st.store)
  {
    hide Holds, Main, Decide, Descend, Visited, HeightOf, Direct;
    Decides(u, n, x, st.store);
    Link(u, n, x, st.store, x);
    Link(u, n, x, st.store, x + 1);
    var b := Main(u, x + 1);
    OneDown(st.store, b, x);
    assert Elements([b]) == {b};
  }

  /** The end of update: the block to commit is the next one of the chain, if there is one. */
  lemma FromLockHere(mode: Mode, u: nat, m: nat, st: Live.State, i: nat)
    requires m > 0 && i == Sub(m + 1, Lag(mode)) + 1 && i <= m
    requires Holds(u, u, m + 1, Sub(m, Lag(mode)), st.store) && st.bExec == Main(u, Sub(m, Lag(mode)))
    ensures var r := Live.FromLock(st, Main(u, i), true);
      && r.error == NoError && !r.voted
      && r.st == st.(store := r.st.store, bExec := Main(u, Sub(m + 1, Lag(mode))), log := r.st.log)
      && Holds(u, u, m + 1, Sub(m + 1, Lag(mode)), r.st.store)
  {
    hide Holds, Main, Direct, Live.UndecidedRef, Live.Commit;
    var x := Sub(m, Lag(mode));
    Link(u, m + 1, x, st.store, i);
    if i - 1 > x {
      CommitHere(u, m + 1, x, st);
    }
  }

  /** update on the new block: one certificate more, one block executed once there are enough. */
  lemma UpdateHere(mode: Mode, u: nat, m: nat, st: Live.State)
    requires Ready(mode, u, m, st)
    ensures var r := Live.Update(mode, st, Main(u, m + 1));
      r.error == NoError && !r.voted && Updated(mode, u, m, r.st)
  {
    hide Holds, Main, CertOf, Direct, HeightOf, Live.UndecidedRef, Live.UpdateHqc, Live.FromLock;
    var x := Sub(m, Lag(mode));
    Link(u, m + 1, x, st.store, m + 1);
    if m > 0 {
      UpdateHqcHere(mode, u, m, st);
      FromHqcHere(mode, u, m, st.(hqc := Main(u, m), hqcQc := CertOf(m)));
    }
  }

  lemma FromHqcHere(mode: Mode, u: nat, m: nat, st: Live.State)
    requires m > 0 && st.hqc == Main(u, m) && st.hqcQc == CertOf(m)
    requires Ready(mode, u, m, st.(hqc := Main(u, Sub(m, 1)), hqcQc := CertOf(Sub(m, 1))))
    ensures var r := Live.FromHqc(mode, st, Main(u, m));
      r.error == NoError && !r.voted && Updated(mode, u, m, r.st)
  {
    hide Holds, Main, CertOf, Direct, HeightOf, Live.UndecidedRef, Live.FromLock;
    var x := Sub(m, Lag(mode));
    Link(u, m + 1, x, st.store, m);
    Link(u, m + 1, x, st.store, m - 1);
    Link(u, m + 1, x, st.store, Sub(m, Lag(mode) - 1));
    match mode
    case ThreeStep =>
      if m > 1 {
        FromLockHere(mode, u, m, Live.UpdateLock(st, Main(u, m - 1)), m - 1);
      }
    case TwoStep =>
      FromLockHere(mode, u, m, Live.UpdateLock(st, Main(u, m)), m);
  }

  /** The opinion is positive, by the certificate or by the lock, and no walk is cut. */
  lemma CastVoteHere(mode: Mode, u: nat, m: nat, st: Live.State)
    requires Updated(mode, u, m, st)
    ensures Live.CastVote(st, Main(u, m + 1), true) == Live.Result(st.(vheight := m + 1), true, NoError)
    ensures Descend(st.store, Main(u, m + 1), HeightOf(st.store, st.hqc)) == Some(st.hqc)
    ensures HeightOf(st.store, Main(u, m + 1)) == m + 1 && HeightOf(st.store, st.hqc) == m
  {
    hide Holds, Main, CertOf, Direct, HeightOf;
    var x := Sub(m + 1, Lag(mode));
    Link(u, m + 1, x, st.store, m);
    Link(u, m + 1, x, st.store, m + 1);
    Link(u, m + 1, x, st.store, Sub(m + 1, Lag(mode) - 1));
    OneDown(st.store, Main(u, m + 1), m);
  }

  lemma ReceiveHere(mode: Mode, u: nat, m: nat, st: Live.State)
    requires Ready(mode, u, m, st)
    ensures var r := Live.ReceiveProposal(mode, st, Main(u, m + 1), true);
      && r.error == NoError && r.voted
      && Stands(mode, u, u, m + 1, Local(r.st, Main(u, m + 1)))
      && Live.TailAfterHqc(st, r.st, Main(u, m), if m == 0 then Genesis else Main(u, m + 1))
      && Live.TailAfterProposal(r.st, Main(u, m + 1), if m == 0 then Genesis else Main(u, m + 1)) == Main(u, m + 1)
  {
    hide Holds, Main, CertOf, Direct, HeightOf, Live.Update, Live.CastVote, Descend;
    Link(u, m + 1, Sub(m, Lag(mode)), st.store, m + 1);
    UpdateHere(mode, u, m, st);
    var s := Live.Update(mode, st, Main(u, m + 1)).st;
    CastVoteHere(mode, u, m, s);
    MainParts(u, m);
    Link(u, m + 1, Sub(m + 1, Lag(mode)), s.store, 0);
    if m > 0 {
      MainsDiffer(u, m, m - 1);
    }
  }

  // ---- the next block arrives --------------------------------------------------------------

  /** In this run hashes tell the blocks of a store apart. */
  lemma KnownDistinct(u: nat, store: Store, b: Block)
    requires (forall y :: y in store ==> Known(u, y)) && Known(u, b)
    ensures Distinct(TheKeys, store, b)
  {
    hide HashOf, Known;
    forall y | y in store && TheKeys.hashOf(y) == TheKeys.hashOf(b) ensures y == b {
      HashesDiffer(u, y, b);
    }
  }

  lemma SeenDistinct(u: nat, f: nat, n: nat, x: nat, store: Store, b: Block)
    requires f <= u && Holds(u, f, n, x, store) && Known(u, b)
    ensures Distinct(TheKeys, store, b)
  {
    hide HashOf, Main, Fork, Complete, Seen, Known;
    forall y | y in store ensures Known(u, y) {
      SeenKnown(u, f, n, y);
    }
    KnownDistinct(u, store, b);
  }

  lemma SeenKnown(u: nat, f: nat, n: nat, b: Block)
    requires Seen(u, f, n, b)
    ensures Known(u, b)
  {
  }

  /** The next block of the chain is new and its parents are delivered. */
  lemma MainIsNew(u: nat, m: nat, x: nat, store: Store)
    requires Holds(u, u, m, x, store)
    ensures var b := Main(u, m + 1);
      && b !in store && b.Node? && Live.AllDelivered(store, Parents(b)) && b.justify in store
      && HeightOf(store, b.parent) == Height(b.parent)
  {
    var b := Main(u, m + 1);
    MainParts(u, m + 1);
    ForkKind(m + 1);
    Link(u, m, x, store, m);
    hide Kind, CertOf;
    assert m == 0 && u > 0 ==> Seen(u, u, m, Fork(u));
    MainParents(u, m + 1);
    assert Height(Main(u, m)) == m;
  }

  /** A new block enters the store. */
  lemma HoldsMain(u: nat, f: nat, n: nat, x: nat, store: Store)
    requires Holds(u, f, n, x, store) && x <= n
    ensures Holds(u, f, n + 1, x, store[Main(u, n + 1) := Anew(Main(u, n + 1))])
  {
    hide Main, Fork, Complete, Anew;
    MainParts(u, n + 1);
    NewComplete(x, Main(u, n + 1));
  }

  lemma HoldsFork(u: nat, f: nat, n: nat, x: nat, store: Store)
    requires Holds(u, f, n, x, store)
    ensures Holds(u, f + 1, n, x, store[Fork(f + 1) := Anew(Fork(f + 1))])
  {
    hide Main, Fork, Complete, Anew;
    ForkKind(f + 1);
    NewComplete(x, Fork(f + 1));
  }

  lemma NewComplete(x: nat, b: Block)
    requires b.Node? && (Height(b) > x || Kind(b) != 1)
    ensures Complete(x, b) == Anew(b)
  {
    hide Kind;
  }

  lemma MainReady(mode: Mode, u: nat, m: nat, l: Local)
    requires Stands(mode, u, u, m, l)
    ensures Ready(mode, u, m, With(l.st, Main(u, m + 1)))
  {
    hide Holds, Main, Fork, CertOf, Anew, Parents;
    HoldsMain(u, u, m, Sub(m, Lag(mode)), l.st.store);
    TailTaken(u, m, l.st.tails);
  }

  lemma TailTaken(u: nat, m: nat, tails: set<Block>)
    requires tails == (if m == 0 then {Fork(u)} else {Main(u, m)})
    ensures tails - Elements(Parents(Main(u, m + 1))) == {}
  {
    hide Main, Fork;
    MainParents(u, m + 1);
    assert m == 0 && u == 0 ==> Fork(u) == Genesis == Main(u, 0);
  }

  /** Replica r moves on, the others stay. */
  ghost predicate OnlyMoves(r: nat, t: StoreSystem, t': StoreSystem) {
    r in t'.replicas && t'.replicas == t.replicas[r := t'.replicas[r]]
  }

  /** The next block is fetched and delivered. */
  lemma Arrives(mode: Mode, u: nat, m: nat, r: nat, events: seq<Event>, t: StoreSystem) returns (t': StoreSystem)
    requires Four(mode).Valid() && Reached(Four(mode), TheKeys, events, t) && Here(mode, u, u, m, r, t)
    requires Voted(u, m, 0, t.votes) && Voted(u, m, 1, t.votes) && Voted(u, m, 3, t.votes)
    ensures Reached(Four(mode), TheKeys, events + Visit(r, Main(u, m + 1)), t')
    ensures OnlyMoves(r, t, t') && t'.votes == t.votes
    ensures t'.replicas[r].tail == Main(u, m) && Ready(mode, u, m, t'.replicas[r].st)
  {
    hide Reached, Holds, Main, Fork, CertOf, Distinct, Verified, With, Live.AllDelivered, HeightOf, Ready;
    var b, x, l := Main(u, m + 1), Sub(m, Lag(mode)), t.replicas[r];
    MainIsNew(u, m, x, l.st.store);
    MainParts(u, m + 1);
    SeenDistinct(u, u, m, x, l.st.store, b);
    MainVerified(mode, t.votes, u, m + 1);
    t' := VisitDelivers(Four(mode), TheKeys, events, t, r, b);
    MainReady(mode, u, m, l);
  }

  /** And received with a vote. */
  lemma Votes(mode: Mode, u: nat, m: nat, r: nat, events: seq<Event>, t: StoreSystem) returns (t': StoreSystem)
    requires Four(mode).Valid() && Reached(Four(mode), TheKeys, events, t)
    requires r in t.replicas && t.replicas[r].tail == Main(u, m) && Ready(mode, u, m, t.replicas[r].st)
    ensures var tail := if m == 0 then Genesis else Main(u, m + 1);
      Reached(Four(mode), TheKeys, events + [ReceiveEvent(r, Main(u, m + 1), true, tail)], t')
    ensures OnlyMoves(r, t, t') && t'.votes == t.votes + {Vote(r, Main(u, m + 1))}
    ensures Stands(mode, u, u, m + 1, t'.replicas[r])
  {
    hide Reached, Main, Ready, Stands, Live.ReceiveProposal, Live.TailAfterHqc, Live.TailAfterProposal;
    var st, b := t.replicas[r].st, Main(u, m + 1);
    ReceiveHere(mode, u, m, st);
    var tail := if m == 0 then Genesis else b;
    t' := StoreSystem(t.replicas[r := Local(Live.ReceiveProposal(mode, st, b, true).st, b)], t.votes + {Vote(r, b)});
    ReceivedNext(Four(mode), t, t', r, b, tail);
    ReachedNext(Four(mode), TheKeys, events, t, t', ReceiveEvent(r, b, true, tail));
  }

  lemma Turned(mode: Mode, u: nat, m: nat, r: nat, events: seq<Event>, t: StoreSystem) returns (t': StoreSystem)
    requires Four(mode).Valid() && Reached(Four(mode), TheKeys, events, t) && Here(mode, u, u, m, r, t)
    requires Voted(u, m, 0, t.votes) && Voted(u, m, 1, t.votes) && Voted(u, m, 3, t.votes)
    ensures Reached(Four(mode), TheKeys, events + Turn(u, r, m + 1), t')
    ensures OnlyMoves(r, t, t') && t'.votes == t.votes + {Vote(r, Main(u, m + 1))}
    ensures Here(mode, u, u, m + 1, r, t')
  {
    hide Reached, Main, Ready, Stands;
    var t1 := Arrives(mode, u, m, r, events, t);
    t' := Votes(mode, u, m, r, events + Visit(r, Main(u, m + 1)), t1);
    var e := ReceiveEvent(r, Main(u, m + 1), true, if m == 0 then Genesis else Main(u, m + 1));
    assert events + Visit(r, Main(u, m + 1)) + [e] == events + Turn(u, r, m + 1);
    assert t'.replicas == t.replicas[r := t'.replicas[r]];
  }

  lemma ReceivedNext(c: Config, t: StoreSystem, t': StoreSystem, r: nat, b: Block, tail: Block)
    requires r in t.replicas
    requires var Local(st, old0) := t.replicas[r];
      var u := Live.ReceiveProposal(c.mode, st, b, true);
      && u.error == NoError && u.voted && Live.TailAfterHqc(st, u.st, old0, tail)
      && t' == StoreSystem(t.replicas[r := Local(u.st, Live.TailAfterProposal(u.st, b, tail))], t.votes + {Vote(r, b)})
    ensures ReceiveNext(c, t, t', r, b, true, tail)
  {
  }

  // ---- the run -----------------------------------------------------------------------------

  /** Where the branch is known up to f and the chain up to m, with votes of replicas 0, 1 and 3.
      Replica 2 has not begun. */
  ghost predicate Stage(mode: Mode, u: nat, f: nat, m: nat, t: StoreSystem) {
    && Here(mode, u, f, m, 0, t) && Here(mode, u, f, m, 1, t) && Voted(u, m, 3, t.votes)
    && 2 in t.replicas && t.replicas[2] == Local(Live.Initial(4, TheKeys.hashOf), Genesis)
  }

  lemma InitialStands(mode: Mode, u: nat)
    ensures Stands(mode, u, 0, 0, Local(Live.Initial(4, TheKeys.hashOf), Genesis))
  {
    assert HashOf(Genesis) == [];
    assert EmptyCert(4, HashOf(Genesis)) == GenesisCert;
  }

  lemma Begin(mode: Mode, u: nat) returns (t: StoreSystem)
    requires Four(mode).Valid()
    ensures Reached(Four(mode), TheKeys, [], t) && Stage(mode, u, 0, 0, t)
  {
    FourIsValid(mode);
    InitialStands(mode, u);
    hide Stands, Live.Initial, HashOf;
    var l := Local(Live.Initial(4, TheKeys.hashOf), Genesis);
    t := StoreSystem(map[0 := l, 1 := l, 2 := l], {});
    ReachedFirst(Four(mode), TheKeys, t);
  }

  lemma ForkIsNew(u: nat, f: nat, x: nat, store: Store)
    requires Holds(u, f, 0, x, store)
    ensures var b := Fork(f + 1);
      && b !in store && b.Node? && b.justify in store && Parents(b) == [Fork(f)] && Live.AllDelivered(store, Parents(b))
      && HeightOf(store, b.parent) == Height(b.parent)
  {
    ForkKind(f + 1);
    assert Seen(u, f, 0, Genesis) && Seen(u, f, 0, Fork(f));
    hide Kind;
  }

  lemma ForkStands(mode: Mode, u: nat, f: nat, l: Local)
    requires Stands(mode, u, f, 0, l) && Parents(Fork(f + 1)) == [Fork(f)]
    ensures Stands(mode, u, f + 1, 0, Local(With(l.st, Fork(f + 1)), l.tail))
  {
    hide Holds, Main, Fork, CertOf, Anew, Parents;
    HoldsFork(u, f, 0, 0, l.st.store);
    assert Elements([Fork(f)]) == {Fork(f)};
  }

  /** The next block of the branch is fetched and delivered. */
  lemma ForkArrives(mode: Mode, u: nat, f: nat, r: nat, events: seq<Event>, t: StoreSystem) returns (t': StoreSystem)
    requires Four(mode).Valid() && Reached(Four(mode), TheKeys, events, t) && Here(mode, u, f, 0, r, t) && f < u
    ensures Reached(Four(mode), TheKeys, events + Visit(r, Fork(f + 1)), t')
    ensures OnlyMoves(r, t, t') && t'.votes == t.votes && Here(mode, u, f + 1, 0, r, t')
  {
    hide Reached, Holds, Main, Fork, CertOf, Distinct, Verified, With, Live.AllDelivered, HeightOf;
    var b, l := Fork(f + 1), t.replicas[r];
    ForkIsNew(u, f, 0, l.st.store);
    SeenDistinct(u, f, 0, 0, l.st.store, b);
    ForkParts(f);
    ForkVerified(mode, t.votes, b);
    t' := VisitDelivers(Four(mode), TheKeys, events, t, r, b);
    ForkStands(mode, u, f, l);
  }

  lemma ForkParts(f: nat)
    ensures var b := Fork(f + 1); b.Node? && b.justify == Genesis && b.payload.qc == GenesisCert && Height(b) == f + 1
  {
  }

  lemma {:induction false} BranchKnown(mode: Mode, u: nat, f: nat) returns (t: StoreSystem)
    requires Four(mode).Valid() && f <= u
    ensures Reached(Four(mode), TheKeys, Setup(f), t) && Stage(mode, u, f, 0, t)
  {
    hide Reached, Stands, Fork, Main;
    if f == 0 {
      t := Begin(mode, u);
    } else {
      var t0 := BranchKnown(mode, u, f - 1);
      var t1 := ForkArrives(mode, u, f - 1, 0, Setup(f - 1), t0);
      t := ForkArrives(mode, u, f - 1, 1, Setup(f - 1) + Visit(0, Fork(f)), t1);
    }
  }

  /** The run of any length. */
  lemma {:induction false} RoundsReach(mode: Mode, u: nat, m: nat) returns (t: StoreSystem)
    ensures Four(mode).Valid() && Reached(Four(mode), TheKeys, Rounds(u, m), t) && Stage(mode, u, u, m, t)
  {
    hide Reached, Stands, Fork, Main, OnlyMoves;
    FourIsValid(mode);
    if m == 0 {
      t := BranchKnown(mode, u, u);
    } else {
      var t0 := RoundsReach(mode, u, m - 1);
      t := RoundDone(mode, u, m - 1, Rounds(u, m - 1), t0);
    }
  }

  /** One round: both replicas vote for the next block, and so does replica 3. */
  lemma RoundDone(mode: Mode, u: nat, m: nat, events: seq<Event>, t: StoreSystem) returns (t': StoreSystem)
    requires Four(mode).Valid() && Reached(Four(mode), TheKeys, events, t) && Stage(mode, u, u, m, t)
    ensures Reached(Four(mode), TheKeys,
      events + Turn(u, 0, m + 1) + Turn(u, 1, m + 1) + [FaultyVoteEvent(Vote(3, Main(u, m + 1)))], t')
    ensures Stage(mode, u, u, m + 1, t')
  {
    hide Reached, Stands, Fork, Main, Turn;
    var t1 := Turned(mode, u, m, 0, events, t);
    var t2 := Turned(mode, u, m, 1, events + Turn(u, 0, m + 1), t1);
    var v := Vote(3, Main(u, m + 1));
    t' := t2.(votes := t2.votes + {v});
    ReachedNext(Four(mode), TheKeys, events + Turn(u, 0, m + 1) + Turn(u, 1, m + 1), t2, t', FaultyVoteEvent(v));
  }
}
