/** Message formats as functions: slices, blocks and proposals (include/hotstuff/consensus.h,
    src/entity.cpp). Parsing consumes a prefix and hands back the rest; None is a throw or an
    aborted assertion. */
module Wire {
  import opened Bytes
  import opened Options
  import opened Merkle

  datatype Slice = Slice(proof: Proof, blkHash: Data)

  /** A block as sent: hashes of parents, command hashes, certificate, extra bytes. */
  datatype BlockMsg<Q> = BlockMsg(parents: seq<Data>, cmds: seq<Data>, qc: Q, extra: Data)

  datatype ProposalMsg<Q> = ProposalMsg(proposer: nat, sliceHash: Data, slice: Slice, blk: BlockMsg<Q>)

  datatype QcCodec<!Q> = QcCodec(emit: Q -> Data, parse: Data -> Option<(Q, Data)>)

  /** The format gives this certificate back and leaves what follows it. */
  ghost predicate QcBack<Q>(codec: QcCodec<Q>, q: Q) {
    forall rest :: codec.parse(codec.emit(q) + rest) == Some((q, rest))
  }

  const U32_LIMIT: nat := 0x1_0000_0000

  // ---- primitives --------------------------------------------------------------------------

  function Take(s: Data, n: nat): Option<(Data, Data)> {
    if n <= |s| then Some((s[..n], s[n..])) else None
  }

  function Number(n: nat): Data {
    LittleEndian(n, 4)
  }

  function ParseNumber(s: Data): Option<(nat, Data)> {
    var (bytes, rest) :- Take(s, 4);
    Some((FromLittleEndian(bytes), rest))
  }

  /** A 32-bit int in two's complement. */
  function Signed(i: int): Data {
    Number(i % U32_LIMIT)
  }

  function ParseSigned(s: Data): Option<(int, Data)> {
    var (n, rest) :- ParseNumber(s);
    Some((if n < 0x8000_0000 then n else n - U32_LIMIT, rest))
  }

  /** A byte string behind its length. */
  function Blob(d: Data): Data {
    Number(|d|) + d
  }

  function ParseBlob(s: Data): Option<(Data, Data)> {
    var (n, rest) :- ParseNumber(s);
    Take(rest, n)
  }

  /** A list of 32-byte hashes behind its length. */
  function Hashes(hs: seq<Data>): Data {
    Number(|hs|) + Flatten(hs)
  }

  function ParseWords(s: Data, count: nat): Option<(seq<Data>, Data)> {
    if count == 0 then Some(([], s)) else
    var (word, more) :- Take(s, 32);
    var (words, rest) :- ParseWords(more, count - 1);
    Some(([word] + words, rest))
  }

  function ParseHashes(s: Data): Option<(seq<Data>, Data)> {
    var (n, rest) :- ParseNumber(s);
    ParseWords(rest, n)
  }

  // ---- messages ----------------------------------------------------------------------------

  ghost predicate SliceOk(s: Slice) {
    && |s.proof.data| < U32_LIMIT && -0x8000_0000 <= s.proof.index < 0x8000_0000
    && |s.blkHash| == 32 && |s.proof.root| < U32_LIMIT
    && AllSized(s.proof.branch, 64) && 64 * |s.proof.branch| < U32_LIMIT
  }

  function SliceBytes(s: Slice): Data {
    Blob(s.proof.data) + (Signed(s.proof.index) + (s.blkHash + (Blob(s.proof.root) + Blob(Flatten(s.proof.branch)))))
  }

  function ParseSlice(s: Data): Option<(Slice, Data)> {
    var (data, s1) :- ParseBlob(s);
    var (index, s2) :- ParseSigned(s1);
    var (blkHash, s3) :- Take(s2, 32);
    var (root, s4) :- ParseBlob(s3);
    var (branch, s5) :- ParseBlob(s4);
    if |branch| % 64 != 0 then None
    else Some((Slice(Proof(data, index, root, Words(branch, 64)), blkHash), s5))
  }

  ghost predicate BlockOk<Q>(b: BlockMsg<Q>) {
    && AllSized(b.parents, 32) && |b.parents| < U32_LIMIT
    && AllSized(b.cmds, 32) && |b.cmds| < U32_LIMIT
    && |b.extra| < U32_LIMIT
  }

  function BlockBytes<Q>(codec: QcCodec<Q>, b: BlockMsg<Q>): Data {
    Hashes(b.parents) + (Hashes(b.cmds) + (codec.emit(b.qc) + Blob(b.extra)))
  }

  function ParseBlock<Q>(codec: QcCodec<Q>, s: Data): Option<(BlockMsg<Q>, Data)> {
    var (parents, s1) :- ParseHashes(s);
    var (cmds, s2) :- ParseHashes(s1);
    var (qc, s3) :- codec.parse(s2);
    var (extra, s4) :- ParseBlob(s3);
    Some((BlockMsg(parents, cmds, qc, extra), s4))
  }

  ghost predicate ProposalOk<Q>(p: ProposalMsg<Q>) {
    p.proposer < 0x1_0000 && |p.sliceHash| == 32 && SliceOk(p.slice) && BlockOk(p.blk)
  }

  function ProposalBytes<Q>(codec: QcCodec<Q>, p: ProposalMsg<Q>): Data {
    LittleEndian(p.proposer, 2) + (p.sliceHash + (SliceBytes(p.slice) + BlockBytes(codec, p.blk)))
  }

  function ParseProposal<Q>(codec: QcCodec<Q>, s: Data): Option<(ProposalMsg<Q>, Data)> {
    var (proposer, s1) :- Take(s, 2);
    var (sliceHash, s2) :- Take(s1, 32);
    var (slice, s3) :- ParseSlice(s2);
    var (blk, s4) :- ParseBlock(codec, s3);
    Some((ProposalMsg(FromLittleEndian(proposer), sliceHash, slice, blk), s4))
  }

  // ---- parsing undoes printing -------------------------------------------------------------

  lemma TakeBack(d: Data, rest: Data)
    ensures Take(d + rest, |d|) == Some((d, rest))
  {
  }

  lemma NumberBack(n: nat, rest: Data)
    requires n < U32_LIMIT
    ensures ParseNumber(Number(n) + rest) == Some((n, rest))
  {
    TakeBack(Number(n), rest);
    Pow256At4();
    LittleEndianRoundTrip(n, 4);
  }

  lemma Pow256At4()
    ensures Pow256(4) == U32_LIMIT && Pow256(2) == 0x1_0000
  {
    assert Pow256(1) == 256 && Pow256(2) == 256 * Pow256(1);
    assert Pow256(3) == 256 * Pow256(2) && Pow256(4) == 256 * Pow256(3);
  }

  lemma SignedBack(i: int, rest: Data)
    requires -0x8000_0000 <= i < 0x8000_0000
    ensures ParseSigned(Signed(i) + rest) == Some((i, rest))
  {
    NumberBack(i % U32_LIMIT, rest);
  }

  lemma BlobBack(d: Data, rest: Data)
    requires |d| < U32_LIMIT
    ensures ParseBlob(Blob(d) + rest) == Some((d, rest))
  {
    assert Blob(d) + rest == Number(|d|) + (d + rest);
    NumberBack(|d|, d + rest);
    TakeBack(d, rest);
  }

  lemma {:induction false} WordsBack(words: seq<Data>, rest: Data)
    requires AllSized(words, 32)
    ensures ParseWords(Flatten(words) + rest, |words|) == Some((words, rest))
  {
    if words == [] {
      assert Flatten(words) + rest == rest;
    } else {
      var more := Flatten(words[1..]) + rest;
      assert Flatten(words) + rest == words[0] + more;
      TakeBack(words[0], more);
      WordsBack(words[1..], rest);
      assert [words[0]] + words[1..] == words;
    }
  }

  lemma HashesBack(hs: seq<Data>, rest: Data)
    requires AllSized(hs, 32) && |hs| < U32_LIMIT
    ensures ParseHashes(Hashes(hs) + rest) == Some((hs, rest))
  {
    assert Hashes(hs) + rest == Number(|hs|) + (Flatten(hs) + rest);
    NumberBack(|hs|, Flatten(hs) + rest);
    WordsBack(hs, rest);
  }

  /** A slice parses back field for field, whatever follows it. */
  lemma SliceBack(s: Slice, rest: Data)
    requires SliceOk(s)
    ensures ParseSlice(SliceBytes(s) + rest) == Some((s, rest))
  {
    hide Blob, Signed, ParseBlob, ParseSigned, Take, Words, Flatten, AllSized;
    var branch := Flatten(s.proof.branch);
    var r4 := Blob(branch);
    var r3 := Blob(s.proof.root) + r4;
    var r2 := s.blkHash + r3;
    var r1 := Signed(s.proof.index) + r2;
    FlattenSize(s.proof.branch, 64);
    WordsOfFlatten(s.proof.branch, 64);
    Associate(Blob(s.proof.data), r1, rest);
    BlobBack(s.proof.data, r1 + rest);
    Associate(Signed(s.proof.index), r2, rest);
    SignedBack(s.proof.index, r2 + rest);
    Associate(s.blkHash, r3, rest);
    TakeBack(s.blkHash, r3 + rest);
    Associate(Blob(s.proof.root), r4, rest);
    BlobBack(s.proof.root, r4 + rest);
    BlobBack(branch, rest);
  }

  lemma BlockBack<Q>(codec: QcCodec<Q>, b: BlockMsg<Q>, rest: Data)
    requires QcBack(codec, b.qc) && BlockOk(b)
    ensures ParseBlock(codec, BlockBytes(codec, b) + rest) == Some((b, rest))
  {
    hide Blob, ParseBlob, Hashes, ParseHashes;
    var r3 := Blob(b.extra);
    var r2 := codec.emit(b.qc) + r3;
    var r1 := Hashes(b.cmds) + r2;
    Associate(Hashes(b.parents), r1, rest);
    HashesBack(b.parents, r1 + rest);
    Associate(Hashes(b.cmds), r2, rest);
    HashesBack(b.cmds, r2 + rest);
    Associate(codec.emit(b.qc), r3, rest);
    assert codec.parse(codec.emit(b.qc) + (r3 + rest)) == Some((b.qc, r3 + rest));
    BlobBack(b.extra, rest);
  }

  /** The concatenation in a proposal parses back field for field. */
  lemma ProposalBack<Q>(codec: QcCodec<Q>, p: ProposalMsg<Q>, rest: Data)
    requires QcBack(codec, p.blk.qc) && ProposalOk(p)
    ensures ParseProposal(codec, ProposalBytes(codec, p) + rest) == Some((p, rest))
  {
    var r3 := BlockBytes(codec, p.blk);
    var r2 := SliceBytes(p.slice) + r3;
    var r1 := p.sliceHash + r2;
    Pow256At4();
    LittleEndianRoundTrip(p.proposer, 2);
    Associate(LittleEndian(p.proposer, 2), r1, rest);
    TakeBack(LittleEndian(p.proposer, 2), r1 + rest);
    Associate(p.sliceHash, r2, rest);
    TakeBack(p.sliceHash, r2 + rest);
    Associate(SliceBytes(p.slice), r3, rest);
    SliceBack(p.slice, r3 + rest);
    BlockBack(codec, p.blk, rest);
  }

  /** No two proposals print the same. */
  lemma ProposalBytesInjective<Q>(codec: QcCodec<Q>, p: ProposalMsg<Q>, q: ProposalMsg<Q>)
    requires QcBack(codec, p.blk.qc) && ProposalOk(p) && QcBack(codec, q.blk.qc) && ProposalOk(q)
    requires ProposalBytes(codec, p) == ProposalBytes(codec, q)
    ensures p == q
  {
    ProposalBack(codec, p, []);
    ProposalBack(codec, q, []);
  }

  // ---- only what was printed parses --------------------------------------------------------

  /** The format's parser accepts only what its printer gives. */
  ghost predicate QcExact<Q(!new)>(codec: QcCodec<Q>) {
    forall q, s, rest :: codec.parse(s) == Some((q, rest)) ==> QcBack(codec, q) && s == codec.emit(q) + rest
  }

  lemma NumberParsed(s: Data)
    ensures match ParseNumber(s)
      case None => |s| < 4
      case Some((n, rest)) => n < U32_LIMIT && s == Number(n) + rest
  {
    if |s| >= 4 {
      Pow256At4();
      FromLittleEndianRoundTrip(s[..4]);
    }
  }

  lemma SignedParsed(s: Data)
    ensures match ParseSigned(s)
      case None => true
      case Some((i, rest)) => -0x8000_0000 <= i < 0x8000_0000 && s == Signed(i) + rest
  {
    NumberParsed(s);
  }

  lemma BlobParsed(s: Data)
    ensures match ParseBlob(s)
      case None => true
      case Some((d, rest)) => |d| < U32_LIMIT && s == Blob(d) + rest
  {
    NumberParsed(s);
    if ParseBlob(s).Some? {
      var (n, more) := ParseNumber(s).value;
      assert more == more[..n] + more[n..];
      Associate(Number(n), more[..n], more[n..]);
    }
  }

  lemma {:induction false} WordsParsed(s: Data, count: nat)
    ensures match ParseWords(s, count)
      case None => true
      case Some((words, rest)) => |words| == count && AllSized(words, 32) && s == Flatten(words) + rest
  {
    if count > 0 && ParseWords(s, count).Some? {
      WordsParsed(s[32..], count - 1);
      var (words, rest) := ParseWords(s, count).value;
      assert words[1..] == ParseWords(s[32..], count - 1).value.0;
      Associate(s[..32], Flatten(words[1..]), rest);
    }
  }

  lemma HashesParsed(s: Data)
    ensures match ParseHashes(s)
      case None => true
      case Some((hs, rest)) => AllSized(hs, 32) && |hs| < U32_LIMIT && s == Hashes(hs) + rest
  {
    NumberParsed(s);
    if ParseHashes(s).Some? {
      var (n, more) := ParseNumber(s).value;
      WordsParsed(more, n);
      var (hs, rest) := ParseHashes(s).value;
      Associate(Number(n), Flatten(hs), rest);
    }
  }

  /** The bytes of a slice are exactly those that parse to it. */
  lemma SliceExactly(bytes: Data, s: Slice, rest: Data)
    ensures ParseSlice(bytes) == Some((s, rest)) <==> SliceOk(s) && bytes == SliceBytes(s) + rest
  {
    if SliceOk(s) {
      SliceBack(s, rest);
    }
    if ParseSlice(bytes) == Some((s, rest)) {
      SliceParsed(bytes);
    }
  }

  lemma SliceParsed(bytes: Data)
    ensures match ParseSlice(bytes)
      case None => true
      case Some((s, rest)) => SliceOk(s) && bytes == SliceBytes(s) + rest
  {
    hide ParseBlob, Blob, ParseSigned, Signed, Words, Flatten, AllSized;
    if ParseSlice(bytes).Some? {
      var (s, rest) := ParseSlice(bytes).value;
      BlobParsed(bytes);
      var (data, s1) := ParseBlob(bytes).value;
      SignedParsed(s1);
      var (index, s2) := ParseSigned(s1).value;
      var s3 := s2[32..];
      BlobParsed(s3);
      var (root, s4) := ParseBlob(s3).value;
      BlobParsed(s4);
      var branch := ParseBlob(s4).value.0;
      FlattenOfWords(branch, 64, |branch| / 64);
      FiveParts(Blob(data), Signed(index), s2[..32], Blob(root), Blob(branch), rest);
      assert s2 == s2[..32] + s3;
    }
  }

  lemma BlockParsed<Q(!new)>(codec: QcCodec<Q>, bytes: Data)
    requires QcExact(codec)
    ensures match ParseBlock(codec, bytes)
      case None => true
      case Some((b, rest)) => BlockOk(b) && QcBack(codec, b.qc) && bytes == BlockBytes(codec, b) + rest
  {
    hide ParseBlob, Blob, ParseHashes, Hashes, AllSized, QcBack;
    if ParseBlock(codec, bytes).Some? {
      HashesParsed(bytes);
      var (parents, s1) := ParseHashes(bytes).value;
      HashesParsed(s1);
      var (cmds, s2) := ParseHashes(s1).value;
      var (qc, s3) := codec.parse(s2).value;
      assert QcBack(codec, qc) && s2 == codec.emit(qc) + s3;
      BlobParsed(s3);
      var (extra, rest) := ParseBlob(s3).value;
      FiveParts([], Hashes(parents), Hashes(cmds), codec.emit(qc), Blob(extra), rest);
    }
  }

  /** The bytes of a block are exactly those that parse to it, for a certificate format of that kind. */
  lemma BlockExactly<Q(!new)>(codec: QcCodec<Q>, bytes: Data, b: BlockMsg<Q>, rest: Data)
    requires QcExact(codec) && QcBack(codec, b.qc)
    ensures ParseBlock(codec, bytes) == Some((b, rest)) <==> BlockOk(b) && bytes == BlockBytes(codec, b) + rest
  {
    BlockParsed(codec, bytes);
    if BlockOk(b) {
      BlockBack(codec, b, rest);
    }
  }

  /** And those of a proposal. */
  lemma ProposalExactly<Q(!new)>(codec: QcCodec<Q>, bytes: Data, p: ProposalMsg<Q>, rest: Data)
    requires QcExact(codec) && QcBack(codec, p.blk.qc)
    ensures ParseProposal(codec, bytes) == Some((p, rest)) <==> ProposalOk(p) && bytes == ProposalBytes(codec, p) + rest
  {
    hide ParseSlice, SliceBytes, ParseBlock, BlockBytes, QcExact, QcBack, SliceOk, BlockOk;
    if ProposalOk(p) {
      ProposalBack(codec, p, rest);
    }
    if ParseProposal(codec, bytes) == Some((p, rest)) {
      Pow256At4();
      FromLittleEndianRoundTrip(bytes[..2]);
      var s2 := bytes[2..][32..];
      SliceParsed(s2);
      var s3 := ParseSlice(s2).value.1;
      BlockParsed(codec, s3);
      FiveParts([], LittleEndian(p.proposer, 2), p.sliceHash, SliceBytes(p.slice), BlockBytes(codec, p.blk), rest);
      assert bytes == bytes[..2] + (bytes[2..][..32] + s2);
    }
  }

  lemma FiveParts(a: Data, b: Data, c: Data, d: Data, e: Data, rest: Data)
    ensures a + (b + (c + (d + (e + rest)))) == (a + (b + (c + (d + e)))) + rest
  {
  }

  // ---- where the bytes are -----------------------------------------------------------------

  lemma NumberValue(n: nat)
    requires n < U32_LIMIT
    ensures |Number(n)| == 4 && FromLittleEndian(Number(n)) == n
  {
    Pow256At4();
    LittleEndianRoundTrip(n, 4);
  }

  /** A slice: length and shard, index, block hash, length and root, length and branch. */
  lemma SliceLayout(s: Slice)
    requires SliceOk(s)
    ensures var b, d, r, n := SliceBytes(s), |s.proof.data|, |s.proof.root|, |s.proof.branch|;
      && |b| == 48 + d + r + 64 * n
      && FromLittleEndian(b[..4]) == d && b[4..4 + d] == s.proof.data
      && FromLittleEndian(b[4 + d..8 + d]) == (if s.proof.index >= 0 then s.proof.index else s.proof.index + U32_LIMIT)
      && b[8 + d..40 + d] == s.blkHash
      && FromLittleEndian(b[40 + d..44 + d]) == r && b[44 + d..44 + d + r] == s.proof.root
      && FromLittleEndian(b[44 + d + r..48 + d + r]) == 64 * n && b[48 + d + r..] == Flatten(s.proof.branch)
  {
    hide LittleEndian, FromLittleEndian, Flatten, AllSized, Number;
    var d, r, branch := |s.proof.data|, |s.proof.root|, Flatten(s.proof.branch);
    FlattenSize(s.proof.branch, 64);
    NumberValue(d);
    NumberValue(s.proof.index % U32_LIMIT);
    NumberValue(r);
    NumberValue(|branch|);
    var p1 := Number(d) + s.proof.data;
    var p2 := Signed(s.proof.index) + s.blkHash;
    var p3 := Number(r) + s.proof.root;
    var p4 := Number(|branch|) + branch;
    var b := SliceBytes(s);
    assert b == p1 + (p2 + (p3 + p4));
    assert b[..4] == Number(d) && b[4 + d..8 + d] == Signed(s.proof.index);
    assert b[40 + d..44 + d] == Number(r) && b[44 + d + r..48 + d + r] == Number(|branch|);
  }

  /** A block: number of parents and their hashes, number of commands and their hashes, certificate,
      length and extra bytes. */
  lemma BlockLayout<Q>(codec: QcCodec<Q>, m: BlockMsg<Q>)
    requires BlockOk(m)
    ensures var b, p, c, q, e := BlockBytes(codec, m), 32 * |m.parents|, 32 * |m.cmds|, |codec.emit(m.qc)|, |m.extra|;
      && |b| == 12 + p + c + q + e
      && FromLittleEndian(b[..4]) == |m.parents| && b[4..4 + p] == Flatten(m.parents)
      && FromLittleEndian(b[4 + p..8 + p]) == |m.cmds| && b[8 + p..8 + p + c] == Flatten(m.cmds)
      && b[8 + p + c..8 + p + c + q] == codec.emit(m.qc)
      && FromLittleEndian(b[8 + p + c + q..12 + p + c + q]) == e && b[12 + p + c + q..] == m.extra
  {
    hide LittleEndian, FromLittleEndian, Flatten, AllSized, Number;
    var p, c, q := 32 * |m.parents|, 32 * |m.cmds|, |codec.emit(m.qc)|;
    FlattenSize(m.parents, 32);
    FlattenSize(m.cmds, 32);
    NumberValue(|m.parents|);
    NumberValue(|m.cmds|);
    NumberValue(|m.extra|);
    var p1 := Number(|m.parents|) + Flatten(m.parents);
    var p2 := Number(|m.cmds|) + Flatten(m.cmds);
    var b := BlockBytes(codec, m);
    assert b == p1 + (p2 + (codec.emit(m.qc) + (Number(|m.extra|) + m.extra)));
    assert b[..4] == Number(|m.parents|) && b[4 + p..8 + p] == Number(|m.cmds|);
    assert b[8 + p + c + q..12 + p + c + q] == Number(|m.extra|);
  }

  /** A proposal: two bytes of proposer, the slice's block hash, the slice, the block. */
  lemma ProposalLayout<Q>(codec: QcCodec<Q>, p: ProposalMsg<Q>)
    requires ProposalOk(p)
    ensures var b, n := ProposalBytes(codec, p), 34 + |SliceBytes(p.slice)|;
      && n <= |b| && FromLittleEndian(b[..2]) == p.proposer && b[2..34] == p.sliceHash
      && b[34..n] == SliceBytes(p.slice) && b[n..] == BlockBytes(codec, p.blk)
  {
    hide FromLittleEndian, SliceBytes, BlockBytes;
    Pow256At4();
    LittleEndianRoundTrip(p.proposer, 2);
    var b := ProposalBytes(codec, p);
    assert b[..2] == LittleEndian(p.proposer, 2);
  }
}
