/** What the certificates are worth, over whole runs. */
module CertificateTheorems {
  import opened Blocks
  import opened Quorums
  import opened Protocol
  import opened BlockStore
  import opened Pruning
  import opened StoreProtocol
  import opened Refinement
  import opened StoreTheorems
  import opened CertificateFlow
  import Live = StoreModel

  /** No replica proposes a block that it already counts votes for. */
  ghost predicate FreshProposal(t: StoreSystem, e: Event) {
    e.ProposeEvent? && e.r in t.replicas ==>
      var Local(st, tail) := t.replicas[e.r];
      VotesHeld(st.store, Live.NewBlock(st, tail, e.cmds)) == {}
  }

  ghost predicate FreshProposals(run: seq<StoreSystem>, events: seq<Event>) {
    |run| == |events| + 1 && forall i {:trigger events[i]} :: 0 <= i < |events| ==> FreshProposal(run[i], events[i])
  }

  ghost predicate AllCertsOk(c: Config, k: Keys, exact: bool, t: StoreSystem)
    requires c.Valid()
  {
    forall r :: r in t.replicas ==> CertsOk(c, k, t.votes, exact, t.replicas[r].st)
  }

  lemma ProposeCerts(c: Config, k: Keys, votes: set<Vote>, exact: bool, st: State, tail: Block, cmds: seq<nat>, enabled: bool)
    requires c.Valid() && CertsOk(c, k, votes, exact, st) && Delivered(st.store, tail)
    requires Distinct(k, st.store, Live.NewBlock(st, tail, cmds))
    requires exact ==> VotesHeld(st.store, Live.NewBlock(st, tail, cmds)) == {}
    ensures CertsOk(c, k, votes, exact, Live.Propose(c.mode, c.n, k.hashOf, st, tail, cmds, enabled).st)
  {
    var b := Live.NewBlock(st, tail, cmds);
    BuiltCerts(c, k, votes, exact, st, tail, b);
    hide CertsOk, Live.Built, Live.Finish;
    FinishCerts(c, k, votes, exact, Live.Built(c.n, k.hashOf, st, tail, b), b, enabled);
  }

  /** One event at one replica. */
  lemma EventCerts(c: Config, k: Keys, exact: bool, t: StoreSystem, t': StoreSystem, e: Event)
    requires c.Valid() && ByReplica(e) && e.r in t.replicas && e.r in t'.replicas && StoreNextBy(c, k, t, t', e)
    requires CertsOk(c, k, t.votes, exact, t.replicas[e.r].st) && Delivered(t.replicas[e.r].st.store, t.replicas[e.r].tail)
    requires exact ==> FreshProposal(t, e)
    ensures CertsOk(c, k, t.votes, exact, t'.replicas[e.r].st)
  {
    var st := t.replicas[e.r].st;
    hide CertsOk, Live.Fetch, Live.Deliver, Live.ReceiveProposal, Live.ReceiveVote, Live.Propose, Live.SelfQc,
      Live.TailAfterHqc, Live.TailAfterProposal, Signed, Prunes, Proves, Distinct, VotesHeld;
    match e
    case FetchEvent(_, b) => FetchCerts(c, k, t.votes, exact, st, b);
    case DeliverEvent(_, b) => DeliverCerts(c, k, t.votes, exact, st, b);
    case ReceiveEvent(_, b, enabled, _) => ReceiveCerts(c, k, t.votes, exact, st, b, enabled);
    case CountEvent(_, v, sig, _) => CountCerts(c, k, t.votes, exact, st, v, sig);
    case ProposeEvent(_, cmds, enabled, _) =>
      ProposeCerts(c, k, t.votes, exact, st, t.replicas[e.r].tail, cmds, enabled);
    case PruneEvent(_, staleness, released) =>
      PruneCerts(c, k, t.votes, exact, st, t.replicas[e.r].tail, staleness, released, t'.replicas[e.r].st);
  }

  lemma VotesGrow(c: Config, k: Keys, t: StoreSystem, t': StoreSystem, e: Event)
    requires c.Valid() && StoreNext(c, k, t, t', e)
    ensures t.votes <= t'.votes && t'.replicas.Keys == t.replicas.Keys
    ensures ByReplica(e) ==> e.r in t.replicas && StoreNextBy(c, k, t, t', e)
    ensures forall q :: q in t.replicas && !(ByReplica(e) && q == e.r) ==> t'.replicas[q] == t.replicas[q]
  {
    hide Live.Fetch, Live.Deliver, Live.ReceiveProposal, Live.ReceiveVote, Live.Propose, Live.SelfQc,
      Live.TailAfterHqc, Live.TailAfterProposal, Verified, Signed, Prunes;
  }

  lemma StepCerts(c: Config, k: Keys, exact: bool, s: System, t: StoreSystem, t': StoreSystem, e: Event)
    requires c.Valid() && StoreNext(c, k, t, t', e) && SystemsAlike(c, s, t)
    requires AllCertsOk(c, k, exact, t) && (exact ==> FreshProposal(t, e))
    ensures AllCertsOk(c, k, exact, t')
  {
    VotesGrow(c, k, t, t', e);
    hide CertsOk, StoreNextBy, FreshProposal;
    forall q | q in t'.replicas ensures CertsOk(c, k, t'.votes, exact, t'.replicas[q].st) {
      if ByReplica(e) && q == e.r {
        AlikeTail(c, s, t, q);
        EventCerts(c, k, exact, t, t', e);
      }
      CertsMonotone(c, k, t.votes, t'.votes, exact, t'.replicas[q].st);
    }
  }

  lemma AlikeTail(c: Config, s: System, t: StoreSystem, r: nat)
    requires SystemsAlike(c, s, t) && r in t.replicas
    ensures Delivered(t.replicas[r].st.store, t.replicas[r].tail)
  {
    assert Alike(c, s.votes, s.replicas[r], t.replicas[r]);
  }

  lemma {:induction false} RunCerts(c: Config, k: Keys, exact: bool, run: seq<StoreSystem>, events: seq<Event>,
                                   ideal: seq<System>, i: nat)
    requires c.Valid() && IsStoreRun(c, k, run, events) && |ideal| == |run| && i < |run|
    requires forall j :: 0 <= j < |run| ==> SystemsAlike(c, ideal[j], run[j])
    requires exact ==> FreshProposals(run, events)
    ensures AllCertsOk(c, k, exact, run[i])
  {
    hide StoreNext, SystemsAlike, FreshProposal, CertsOk;
    if i == 0 {
      InitialCerts(c, k, exact);
    } else {
      RunCerts(c, k, exact, run, events, ideal, i - 1);
      var e := events[i - 1];
      assert StoreNext(c, k, run[i - 1], run[i], events[i - 1]) && SystemsAlike(c, ideal[i - 1], run[i - 1]);
      hide AllCertsOk, StoreInit;
      StepCerts(c, k, exact, ideal[i - 1], run[i - 1], run[i], e);
    }
  }

  /** In every reachable state the signers of a certificate under construction are among the counted
      voters. If no replica proposes a block it already counts votes for, they are exactly those,
      and hqc's certificate names hqc and verifies. */
  lemma CertificatesOverRuns(c: Config, k: Keys, exact: bool, run: seq<StoreSystem>, events: seq<Event>, i: nat, r: nat)
    requires c.Valid() && IsStoreRun(c, k, run, events) && i < |run| && c.Correct(r)
    requires exact ==> FreshProposals(run, events)
    ensures r in run[i].replicas && CertsOk(c, k, run[i].votes, exact, run[i].replicas[r].st)
  {
    var x := Unpruned(c, k, run, events, i, r);
    var ideal, steps := RunRefines(c, k, run, events);
    hide CertsOk, IsStoreRun, IsRun, SystemsAlike, FreshProposals;
    RunCerts(c, k, exact, run, events, ideal, i);
  }

  /** Then what a correct replica proposes verifies everywhere. */
  lemma ProposalsVerify(c: Config, k: Keys, run: seq<StoreSystem>, events: seq<Event>, i: nat, r: nat, cmds: seq<nat>)
    requires c.Valid() && IsStoreRun(c, k, run, events) && i < |run| && c.Correct(r) && FreshProposals(run, events)
    ensures r in run[i].replicas
    ensures var Local(st, tail) := run[i].replicas[r];
      Verified(c, k, run[i].votes, Live.NewBlock(st, tail, cmds))
  {
    CertificatesOverRuns(c, k, true, run, events, i, r);
    var x := Unpruned(c, k, run, events, i, r);
    hide IsStoreRun, FreshProposals;
    StandingTail(c, run[i].votes, r, x, run[i].replicas[r]);
    hide Standing, Proves;
  }

  lemma StandingTail(c: Config, votes: set<Vote>, r: nat, x: Replica, l: Local)
    requires Standing(c, votes, r, x, l)
    ensures Extends(l.tail, l.st.hqc)
  {
  }
}
