/** What a quorum certificate holds and when it verifies (include/hotstuff/crypto.h, src/crypto.cpp). */
module Signatures {
  import opened Bytes

  /** A certificate for an object hash: a bit per replica and a signature per set bit. */
  datatype Cert = Cert(objHash: Data, rids: seq<bool>, sigs: map<nat, Data>)

  /** sig verifies objHash under replica i's key. */
  type Oracle = (nat, Data, Data) -> bool

  function SetBits(rids: seq<bool>): set<nat> {
    set i: nat | i < |rids| && rids[i]
  }

  /** The two representations agree: one signature per set bit. */
  ghost predicate InStep(q: Cert) {
    q.sigs.Keys == SetBits(q.rids)
  }

  /** create_quorum_cert: no part yet. */
  function EmptyCert(n: nat, objHash: Data): Cert {
    Cert(objHash, seq(n, i => false), map[])
  }

  /** add_part for a part with the certificate's own hash: the first signature of a replica stays. */
  function AddPart(q: Cert, rid: nat, sig: Data): Cert
    requires rid < |q.rids|
  {
    q.(rids := q.rids[rid := true], sigs := if rid in q.sigs then q.sigs else q.sigs[rid := sig])
  }

  lemma AddPartSigners(q: Cert, rid: nat, sig: Data)
    requires rid < |q.rids|
    ensures SetBits(AddPart(q, rid, sig).rids) == SetBits(q.rids) + {rid}
    ensures InStep(q) ==> InStep(AddPart(q, rid, sig))
  {
    assert forall i: nat :: i in SetBits(AddPart(q, rid, sig).rids) <==> i in SetBits(q.rids) + {rid};
  }

  /** A replica's first signature stays, and no other's is touched; adding again changes nothing. */
  lemma AddPartOnce(q: Cert, rid: nat, sig: Data, again: Data)
    requires rid < |q.rids| && InStep(q)
    ensures var q' := AddPart(q, rid, sig);
      && q'.objHash == q.objHash && |q'.rids| == |q.rids|
      && (forall i :: i in q.sigs ==> i in q'.sigs && q'.sigs[i] == q.sigs[i])
      && (rid !in SetBits(q.rids) ==> rid in q'.sigs && q'.sigs[rid] == sig)
      && AddPart(q', rid, again) == q'
  {
    assert AddPart(q, rid, sig).rids[rid := true] == AddPart(q, rid, sig).rids;
  }

  datatype Verdict = Accepted | Rejected | UnknownReplica

  /** The verification loop from bit i on; looking up an unknown replica throws. */
  function VerifyFrom(q: Cert, n: nat, oracle: Oracle, i: nat): Verdict
    requires i <= |q.rids| && SetBits(q.rids) <= q.sigs.Keys
    decreases |q.rids| - i
  {
    if i == |q.rids| then Accepted
    else if !q.rids[i] then VerifyFrom(q, n, oracle, i + 1)
    else if i >= n then UnknownReplica
    else if !oracle(i, q.objHash, q.sigs[i]) then Rejected
    else VerifyFrom(q, n, oracle, i + 1)
  }

  function Verify(q: Cert, n: nat, majority: nat, oracle: Oracle): Verdict
    requires SetBits(q.rids) <= q.sigs.Keys
  {
    if |q.sigs| < majority then Rejected else VerifyFrom(q, n, oracle, 0)
  }

  lemma {:induction false} AcceptedFrom(q: Cert, n: nat, oracle: Oracle, i: nat)
    requires i <= |q.rids| && SetBits(q.rids) <= q.sigs.Keys
    ensures VerifyFrom(q, n, oracle, i) == Accepted <==>
      forall j :: i <= j < |q.rids| && q.rids[j] ==> j < n && oracle(j, q.objHash, q.sigs[j])
    decreases |q.rids| - i
  {
    if i < |q.rids| {
      assert q.rids[i] ==> i in SetBits(q.rids);
      AcceptedFrom(q, n, oracle, i + 1);
    }
  }

  /** A certificate is accepted exactly when its signers are at least a majority of known
      replicas, each with a signature that verifies. */
  lemma AcceptedMeansMajority(q: Cert, n: nat, majority: nat, oracle: Oracle)
    requires InStep(q)
    ensures Verify(q, n, majority, oracle) == Accepted <==>
      && |SetBits(q.rids)| >= majority
      && forall j :: j in SetBits(q.rids) ==> j < n && oracle(j, q.objHash, q.sigs[j])
  {
    AcceptedFrom(q, n, oracle, 0);
    assert |q.sigs| == |q.sigs.Keys|;
    forall j: nat ensures j in SetBits(q.rids) <==> j < |q.rids| && q.rids[j] {}
  }
}
