/** QuorumCertSecp256k1: what a verified certificate certifies, its wire format and its class
    (include/hotstuff/crypto.h, src/crypto.cpp). */
module Certificates {
  import opened Bytes
  import opened Options
  import opened Blocks
  import opened Quorums
  import opened Signatures
  import opened Wire
  import opened Streams

  /** The certificate's signatures that verify come from votes already cast for b. */
  ghost predicate SignaturesAreVotes(c: Config, votes: set<Vote>, b: Block, q: Cert, oracle: Oracle) {
    forall i :: i in q.sigs && i < c.n && oracle(i, q.objHash, q.sigs[i]) ==> Vote(i, b) in votes
  }

  /** An accepted certificate certifies the block it names. */
  lemma AcceptedCertifies(c: Config, votes: set<Vote>, b: Block, q: Cert, oracle: Oracle)
    requires c.Valid() && InStep(q) && SignaturesAreVotes(c, votes, b, q, oracle)
    requires Verify(q, c.n, c.Majority(), oracle) == Accepted
    ensures Certified(c, votes, b)
  {
    AcceptedMeansMajority(q, c.n, c.Majority(), oracle);
    forall i | i in SetBits(q.rids) ensures i in Voters(c, votes, b) {
      assert i in q.sigs;
    }
    SubsetSize(SetBits(q.rids), Voters(c, votes, b));
  }

  type BlockHash = Block -> Data

  /** A block other than genesis that hashes like genesis. */
  ghost predicate PosesAsGenesis(hashOf: BlockHash, b: Block) {
    b != Genesis && hashOf(b) == hashOf(Genesis)
  }

  /** Block::verify: a certificate for genesis needs no signatures. */
  function VerifyBlock(q: Cert, genesisHash: Data, n: nat, majority: nat, oracle: Oracle): Verdict
    requires SetBits(q.rids) <= q.sigs.Keys
  {
    if q.objHash == genesisHash then Accepted else Verify(q, n, majority, oracle)
  }

  /** What verification on delivery establishes: the block named is genesis or certified, or it
      is a collision with genesis. */
  lemma VerifiedIsCertified(c: Config, votes: set<Vote>, b: Block, q: Cert, oracle: Oracle, hashOf: BlockHash)
    requires c.Valid() && InStep(q) && q.objHash == hashOf(b)
    requires SignaturesAreVotes(c, votes, b, q, oracle)
    requires VerifyBlock(q, hashOf(Genesis), c.n, c.Majority(), oracle) == Accepted
    ensures Certified(c, votes, b) || PosesAsGenesis(hashOf, b)
  {
    if q.objHash != hashOf(Genesis) {
      AcceptedCertifies(c, votes, b, q, oracle);
    }
  }

  /** A block passes exactly when its certificate is genesis' or carries verifying signatures of a
      majority of known replicas. */
  lemma BlockVerifies(q: Cert, genesisHash: Data, n: nat, majority: nat, oracle: Oracle)
    requires InStep(q)
    ensures VerifyBlock(q, genesisHash, n, majority, oracle) == Accepted <==>
      || q.objHash == genesisHash
      || (|SetBits(q.rids)| >= majority && forall j :: j in SetBits(q.rids) ==> j < n && oracle(j, q.objHash, q.sigs[j]))
  {
    AcceptedMeansMajority(q, n, majority, oracle);
  }

  // ---- the wire format ---------------------------------------------------------------------

  /** Printing of the bit vector, and which 64 bytes parse as a signature. */
  datatype Formats = Formats(bits: QcCodec<seq<bool>>, wellFormed: Data -> bool)

  /** The signatures of the set bits from i on, in order. */
  function SigsFrom(q: Cert, i: nat): Data
    requires i <= |q.rids| && SetBits(q.rids) <= q.sigs.Keys
    decreases |q.rids| - i
  {
    if i == |q.rids| then [] else
    var rest := SigsFrom(q, i + 1);
    if q.rids[i] then (assert i in SetBits(q.rids); q.sigs[i]) + rest else rest
  }

  function ParseSigs(f: Formats, rids: seq<bool>, i: nat, s: Data): Option<(map<nat, Data>, Data)>
    requires i <= |rids|
    decreases |rids| - i
  {
    if i == |rids| then Some((map[], s))
    else if !rids[i] then ParseSigs(f, rids, i + 1, s)
    else
      var (sig, more) :- Take(s, 64);
      if !f.wellFormed(sig) then None else
      var (sigs, rest) :- ParseSigs(f, rids, i + 1, more);
      Some((sigs[i := sig], rest))
  }

  function EmitCert(f: Formats, q: Cert): Data {
    if SetBits(q.rids) <= q.sigs.Keys then q.objHash + (f.bits.emit(q.rids) + SigsFrom(q, 0)) else []
  }

  function ParseCert(f: Formats, s: Data): Option<(Cert, Data)> {
    var (objHash, s1) :- Take(s, 32);
    var (rids, s2) :- f.bits.parse(s1);
    var (sigs, s3) :- ParseSigs(f, rids, 0, s2);
    Some((Cert(objHash, rids, sigs), s3))
  }

  function CertCodec(f: Formats): QcCodec<Cert> {
    QcCodec(q => EmitCert(f, q), s => ParseCert(f, s))
  }

  /** A certificate as add_part builds it, from well-formed signatures. */
  ghost predicate CertOk(f: Formats, q: Cert) {
    && InStep(q) && |q.objHash| == 32 && QcBack(f.bits, q.rids)
    && forall i :: i in q.sigs ==> |q.sigs[i]| == 64 && f.wellFormed(q.sigs[i])
  }

  function SigsOnly(q: Cert, i: nat): map<nat, Data>
    requires SetBits(q.rids) <= q.sigs.Keys
  {
    map j | j in SetBits(q.rids) && i <= j :: q.sigs[j]
  }

  lemma {:induction false} SigsBack(f: Formats, q: Cert, i: nat, rest: Data)
    requires i <= |q.rids| && CertOk(f, q)
    ensures ParseSigs(f, q.rids, i, SigsFrom(q, i) + rest) == Some((SigsOnly(q, i), rest))
    decreases |q.rids| - i
  {
    if i == |q.rids| {
      assert SigsOnly(q, i) == map[];
      assert SigsFrom(q, i) + rest == rest;
    } else {
      SigsBack(f, q, i + 1, rest);
      assert q.rids[i] <==> i in SetBits(q.rids);
      if q.rids[i] {
        Associate(q.sigs[i], SigsFrom(q, i + 1), rest);
        TakeBack(q.sigs[i], SigsFrom(q, i + 1) + rest);
        assert SigsOnly(q, i) == SigsOnly(q, i + 1)[i := q.sigs[i]];
      } else {
        assert SigsOnly(q, i) == SigsOnly(q, i + 1);
      }
    }
  }

  /** A certificate parses back with every signature, whatever follows it. */
  lemma CertBack(f: Formats, q: Cert)
    requires CertOk(f, q)
    ensures QcBack(CertCodec(f), q)
  {
    forall rest ensures ParseCert(f, EmitCert(f, q) + rest) == Some((q, rest)) {
      var r2 := SigsFrom(q, 0);
      var r1 := f.bits.emit(q.rids) + r2;
      Associate(q.objHash, r1, rest);
      TakeBack(q.objHash, r1 + rest);
      Associate(f.bits.emit(q.rids), r2, rest);
      assert f.bits.parse(f.bits.emit(q.rids) + (r2 + rest)) == Some((q.rids, r2 + rest));
      SigsBack(f, q, 0, rest);
      assert SigsOnly(q, 0) == q.sigs;
    }
  }

  lemma {:induction false} ParsedKeys(f: Formats, rids: seq<bool>, i: nat, s: Data)
    requires i <= |rids|
    ensures match ParseSigs(f, rids, i, s)
      case None => true
      case Some((sigs, _)) => sigs.Keys == set j: nat | i <= j < |rids| && rids[j]
    decreases |rids| - i
  {
    if i < |rids| {
      ParsedKeys(f, rids, i + 1, if rids[i] && |s| >= 64 then s[64..] else s);
    }
  }

  /** Whatever the bytes, a certificate that parses has exactly one signature per set bit. */
  lemma ParsedInStep(f: Formats, s: Data)
    ensures match ParseCert(f, s) case None => true case Some((q, _)) => InStep(q)
  {
    var hash := Take(s, 32);
    if hash.Some? {
      var bits := f.bits.parse(hash.value.1);
      if bits.Some? {
        ParsedKeys(f, bits.value.0, 0, bits.value.1);
      }
    }
  }

  lemma {:induction false} SigsParsed(f: Formats, q: Cert, i: nat, s: Data)
    requires i <= |q.rids| && InStep(q) && ParseSigs(f, q.rids, i, s).Some?
    requires forall j :: j in ParseSigs(f, q.rids, i, s).value.0 ==> j in q.sigs && ParseSigs(f, q.rids, i, s).value.0[j] == q.sigs[j]
    ensures var (sigs, rest) := ParseSigs(f, q.rids, i, s).value;
      && s == SigsFrom(q, i) + rest
      && forall j :: i <= j && j in SetBits(q.rids) ==> |q.sigs[j]| == 64 && f.wellFormed(q.sigs[j])
    decreases |q.rids| - i
  {
    if i < |q.rids| {
      ParsedKeys(f, q.rids, i, s);
      if q.rids[i] {
        assert i in SetBits(q.rids);
        ParsedKeys(f, q.rids, i + 1, s[64..]);
        SigsParsed(f, q, i + 1, s[64..]);
        assert q.sigs[i] == s[..64];
        Associate(s[..64], SigsFrom(q, i + 1), ParseSigs(f, q.rids, i, s).value.1);
      } else {
        SigsParsed(f, q, i + 1, s);
      }
    }
  }

  /** Only what a certificate prints parses to it, if that holds of the bit vector. */
  lemma CertExact(f: Formats)
    requires QcExact(f.bits)
    ensures QcExact(CertCodec(f))
  {
    forall q, s, rest | ParseCert(f, s) == Some((q, rest)) ensures QcBack(CertCodec(f), q) && s == EmitCert(f, q) + rest {
      CertParsed(f, s, q, rest);
      CertBack(f, q);
    }
  }

  lemma CertParsed(f: Formats, s: Data, q: Cert, rest: Data)
    requires QcExact(f.bits) && ParseCert(f, s) == Some((q, rest))
    ensures CertOk(f, q) && s == EmitCert(f, q) + rest
  {
    ParsedInStep(f, s);
    var s1 := s[32..];
    var s2 := f.bits.parse(s1).value.1;
    assert QcBack(f.bits, q.rids) && s1 == f.bits.emit(q.rids) + s2;
    SigsParsed(f, q, 0, s2);
    FiveParts([], [], s[..32], f.bits.emit(q.rids), SigsFrom(q, 0), rest);
    assert s == s[..32] + s1;
  }

  /** How many bits are set. */
  function Ones(rids: seq<bool>): nat {
    if rids == [] then 0 else Ones(rids[1..]) + if rids[0] then 1 else 0
  }

  /** Where the bytes are: the hash, the bit vector, then 64 bytes for each signer in ascending order. */
  lemma CertLayout(f: Formats, q: Cert, j: nat)
    requires CertOk(f, q) && j in SetBits(q.rids)
    ensures var s, start := EmitCert(f, q), 32 + |f.bits.emit(q.rids)|;
      var at := start + 64 * Ones(q.rids[..j]);
      && start <= at && at + 64 <= |s|
      && s[..32] == q.objHash && s[32..start] == f.bits.emit(q.rids) && s[at..at + 64] == q.sigs[j]
  {
    SigAt(f, q, 0, j);
    assert q.rids[0..j] == q.rids[..j];
    assert EmitCert(f, q) == (q.objHash + f.bits.emit(q.rids)) + SigsFrom(q, 0);
  }

  lemma {:induction false} SigAt(f: Formats, q: Cert, i: nat, j: nat)
    requires CertOk(f, q) && i <= j && j in SetBits(q.rids)
    ensures var at := 64 * Ones(q.rids[i..j]);
      at + 64 <= |SigsFrom(q, i)| && SigsFrom(q, i)[at..at + 64] == q.sigs[j]
    decreases j - i
  {
    if i < j {
      SigAt(f, q, i + 1, j);
      assert q.rids[i..j][1..] == q.rids[i + 1..j];
      var at, rest := 64 * Ones(q.rids[i + 1..j]), SigsFrom(q, i + 1);
      if q.rids[i] {
        assert i in SetBits(q.rids);
        assert SigsFrom(q, i)[64 + at..64 + at + 64] == rest[at..at + 64];
      }
    }
  }

  /** After the bits below i: reading on completes the map read so far. */
  ghost predicate SigsSoFar(f: Formats, rids: seq<bool>, i: nat, start: Data, others: map<nat, Data>,
    buf: Data, sigs: map<nat, Data>)
    requires i <= |rids|
  {
    match ParseSigs(f, rids, i, buf)
    case None => ParseSigs(f, rids, 0, start).None?
    case Some((more, rest)) =>
      && ParseSigs(f, rids, 0, start).Some? && ParseSigs(f, rids, 0, start).value.1 == rest
      && others + ParseSigs(f, rids, 0, start).value.0 == sigs + more
  }

  lemma NextSig(f: Formats, rids: seq<bool>, i: nat, start: Data, others: map<nat, Data>,
    buf: Data, sigs: map<nat, Data>, sig: Data, rest: Data)
    requires i < |rids| && rids[i] && SigsSoFar(f, rids, i, start, others, buf, sigs)
    requires Take(buf, 64) == Some((sig, rest)) && f.wellFormed(sig)
    ensures SigsSoFar(f, rids, i + 1, start, others, rest, sigs[i := sig])
  {
    ParsedKeys(f, rids, i + 1, rest);
    var later := ParseSigs(f, rids, i + 1, rest);
    if later.Some? {
      assert sigs[i := sig] + later.value.0 == sigs + later.value.0[i := sig];
    }
  }

  class QuorumCert {
    var objHash: Data
    var rids: seq<bool>
    var sigs: map<nat, Data>

    ghost function Value(): Cert
      reads this
    {
      Cert(objHash, rids, sigs)
    }

    constructor (n: nat, objHash: Data)
      ensures InStep(Value()) && Value() == EmptyCert(n, objHash)
    {
      this.objHash := objHash;
      rids := seq(n, i => false);
      sigs := map[];
    }

    /** add_part: a part for another hash throws. */
    method AddPart(rid: nat, partHash: Data, sig: Data) returns (ok: bool)
      requires InStep(Value()) && rid < |rids|
      modifies this
      ensures ok <==> partHash == objHash
      ensures InStep(Value()) && Value() == if ok then Signatures.AddPart(old(Value()), rid, sig) else old(Value())
    {
      if partHash != objHash {
        return false;
      }
      AddPartSigners(Value(), rid, sig);
      if rid !in sigs {
        sigs := sigs[rid := sig];
      }
      rids := rids[rid := true];
      ok := true;
    }

    method Serialize(f: Formats, s: DataStream)
      requires InStep(Value())
      modifies s
      ensures s.buf == old(s.buf) + EmitCert(f, Value())
    {
      ghost var start := s.buf;
      s.Put(objHash);
      s.Put(f.bits.emit(rids));
      ghost var head := start + objHash + f.bits.emit(rids);
      for i := 0 to |rids|
        invariant s.buf + SigsFrom(Value(), i) == head + SigsFrom(Value(), 0)
      {
        if rids[i] {
          assert i in SetBits(rids);
          ghost var before, more := s.buf, SigsFrom(Value(), i + 1);
          s.Put(sigs[i]);
          Associate(before, sigs[i], more);
        }
      }
      assert s.buf + [] == s.buf;
      assert s.buf == start + EmitCert(f, Value());
    }

    /** Signatures read from the stream replace or join those already there. */
    method Unserialize(f: Formats, s: DataStream) returns (ok: bool)
      modifies this, s
      ensures ok <==> ParseCert(f, old(s.buf)).Some?
      ensures ok ==> ParseCert(f, old(s.buf)) == Some((Cert(objHash, rids, ParseCert(f, old(s.buf)).value.0.sigs), s.buf))
      ensures ok ==> sigs == old(sigs) + ParseCert(f, old(s.buf)).value.0.sigs
      ensures ok && old(sigs) == map[] ==> InStep(Value())
    {
      ParsedInStep(f, s.buf);
      ok, objHash := s.Get(32);
      if !ok { return; }
      var parsed := f.bits.parse(s.buf);
      if parsed.None? {
        return false;
      }
      rids := parsed.value.0;
      s.buf := parsed.value.1;
      ghost var start, others := s.buf, sigs;
      for i := 0 to |rids|
        invariant rids == parsed.value.0 && objHash == old(s.buf)[..32]
        invariant SigsSoFar(f, rids, i, start, others, s.buf, sigs)
      {
        ghost var here, had := s.buf, sigs;
        if rids[i] {
          var sig;
          ok, sig := s.Get(64);
          if !ok { return; }
          if !f.wellFormed(sig) {
            return false;
          }
          sigs := sigs[i := sig];
          NextSig(f, rids, i, start, others, here, had, sig, s.buf);
        }
      }
      assert sigs + map[] == sigs;
      ok := true;
    }

    method VerifySigs(n: nat, majority: nat, oracle: Oracle) returns (v: Verdict)
      requires InStep(Value())
      ensures v == Verify(Value(), n, majority, oracle)
    {
      if |sigs| < majority {
        return Rejected;
      }
      for i := 0 to |rids|
        invariant VerifyFrom(Value(), n, oracle, 0) == VerifyFrom(Value(), n, oracle, i)
      {
        if rids[i] {
          assert i in SetBits(rids);
          if i >= n {
            return UnknownReplica;
          }
          if !oracle(i, objHash, sigs[i]) {
            return Rejected;
          }
        }
      }
      v := Accepted;
    }
  }
}
