/** The pipeline as the program runs it: cutting a proposal into slices, taking slices in,
    decoding commands (src/consensus.cpp). */
module Pipeline {
  import opened Bytes
  import opened Options
  import opened ErasureCode
  import opened Merkle
  import opened Wire
  import opened Dissemination
  import RSE
  import MerkleTree
  import ShardsContainer

  /** The part of on_propose behind update: one slice per replica. */
  method MakeSlices(codec: Codec, h: Hash, n: nat, cmds: seq<Data>, blkHash: Data) returns (slices: seq<Slice>)
    requires n > 0 && SliceSize(OriginalCount(n), |Flatten(cmds)|) < 0x1_0000_0000
    ensures |slices| == |Shards(codec, n, cmds)|
    ensures forall i :: 0 <= i < |slices| ==> slices[i] == SliceFor(h, Shards(codec, n, cmds), blkHash, i)
  {
    hide Encoded, ProofFor, OriginalCount, SliceSize, Lawful, Flatten;
    var input := Concatenate(cmds);
    var shards := RSE.Encode(codec, OriginalCount(n), input);
    var mt := new MerkleTree.MerkleTree(h, shards);
    var proofs := mt.Proofs();
    slices := WithBlock(proofs, blkHash);
  }

  method WithBlock(proofs: seq<Proof>, blkHash: Data) returns (slices: seq<Slice>)
    ensures |slices| == |proofs| && forall i :: 0 <= i < |slices| ==> slices[i] == Slice(proofs[i], blkHash)
  {
    slices := [];
    for i := 0 to |proofs|
      invariant |slices| == i
      invariant forall j :: 0 <= j < i ==> slices[j] == Slice(proofs[j], blkHash)
    {
      slices := slices + [Slice(proofs[i], blkHash)];
    }
  }

  /** on_receive_slice: a slice that fails its proof is dropped, a repeated one ignored; not inside
      where the index leaves the slots. */
  method OnReceiveSlice(h: Hash, sc: ShardsContainer.ShardsContainer, s: Slice) returns (inside: bool)
    requires sc.Valid()
    modifies sc`shards
    ensures sc.Valid() && (inside <==> AcceptSlice(h, sc.nodenum, old(sc.shards), s).Some?)
    ensures inside ==> AcceptSlice(h, sc.nodenum, old(sc.shards), s) == Some(sc.shards)
  {
    var ok := MerkleTree.Validate(h, s.proof);
    if !ok {
      return true;
    }
    var r := sc.InsertShard(s.blkHash, s.proof.index, s.proof.data);
    inside := r.Some?;
  }

  /** async_decode: cut the decoded bytes into 32-byte commands. */
  method DecodeCommands(codec: Codec, k: nat, m: nat, input: seq<Data>) returns (r: Commands)
    requires k > 0
    ensures r == AsyncDecode(codec, k, m, input)
  {
    var output := RSE.DecodeBuffers(codec, k, m, input);
    match output
    case Failed => return DecodeFailed;
    case OutOfBounds => return Broken;
    case Decoded(data) =>
      if |data| % 32 != 0 {
        return Broken;
      }
      var cmds := CutWords(data, 32);
      r := Commands(cmds);
  }
}
