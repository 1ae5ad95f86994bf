/** The whole way of a proposal's commands: encoded, proved, sent as slices, collected, decoded
    (src/consensus.cpp: on_propose, on_receive_slice, async_decode). */
module Dissemination {
  import opened Bytes
  import opened Options
  import opened ErasureCode
  import opened ParityCodec
  import opened ShardTable
  import opened Merkle
  import opened Wire
  import opened Quorums

  // ---- the proposer ------------------------------------------------------------------------

  /** Slice i of a proposal: shard i, its Merkle proof and the block's hash. */
  function SliceFor(h: Hash, shards: seq<Data>, blkHash: Data, i: nat): Slice
    requires i < |shards|
  {
    Slice(ProofFor(h, shards, i), blkHash)
  }

  function Shards(codec: Codec, n: nat, cmds: seq<Data>): seq<Data>
    requires n > 0
  {
    Encoded(codec, OriginalCount(n), Flatten(cmds))
  }

  // ---- a receiver --------------------------------------------------------------------------

  /** on_receive_slice; None where the source leaves its slot vector. */
  function AcceptSlice(h: Hash, n: nat, t: Table, s: Slice): Option<Table> {
    if !Validates(h, s.proof) then Some(t)
    else if s.proof.index < 0 || s.proof.index >= n || (s.blkHash in t && |t[s.blkHash].slots| != n) then None
    else Some(InsertShard(n, t, s.blkHash, s.proof.index, s.proof.data))
  }

  /** A message as it came in. Where parsing throws the handler is not reached. */
  function ReceiveSlice(h: Hash, n: nat, t: Table, message: Data): Option<Table> {
    match ParseSlice(message)
    case None => Some(t)
    case Some((s, _)) => AcceptSlice(h, n, t, s)
  }

  /** Receiving messages one after the other. */
  function ReceiveAll(h: Hash, n: nat, t: Table, messages: seq<Data>): Option<Table> {
    if messages == [] then Some(t) else
    var before :- ReceiveAll(h, n, t, messages[..|messages| - 1]);
    ReceiveSlice(h, n, before, messages[|messages| - 1])
  }

  datatype Commands = Commands(cmds: seq<Data>) | DecodeFailed | Broken

  /** async_decode: 32-byte words of the decoded bytes; Broken where the source leaves a buffer or
      its length assertion fails. */
  function AsyncDecode(codec: Codec, k: nat, m: nat, input: seq<Data>): Commands
    requires k > 0
  {
    match Decode(codec, k, m, input)
    case Decoded(data) => if |data| % 32 != 0 then Broken else Commands(Words(data, 32))
    case Failed => DecodeFailed
    case OutOfBounds => Broken
  }

  // ---- what a receiver holds ---------------------------------------------------------------

  function Received(shards: seq<Data>, got: set<nat>): (slots: seq<Data>)
    ensures |slots| == |shards|
    ensures forall i :: 0 <= i < |shards| ==> slots[i] == if i in got then shards[i] else []
  {
    seq(|shards|, i requires 0 <= i < |shards| => if i in got then shards[i] else [])
  }

  /** Slice i as sent. */
  function Message(h: Hash, shards: seq<Data>, blkHash: Data, i: nat): Data
    requires i < |shards|
  {
    SliceBytes(SliceFor(h, shards, blkHash, i))
  }

  /** Which of the block's slices are among the messages. */
  ghost function Indices(h: Hash, shards: seq<Data>, blkHash: Data, messages: seq<Data>): set<nat> {
    set i | 0 <= i < |shards| && Message(h, shards, blkHash, i) in messages
  }

  /** A message that does not parse, a slice that fails its proof, or one of another block. */
  predicate Unrelated(h: Hash, n: nat, blkHash: Data, message: Data) {
    match ParseSlice(message)
    case None => true
    case Some((s, _)) => !Validates(h, s.proof) || (s.blkHash != blkHash && 0 <= s.proof.index < n)
  }

  ghost predicate Traffic(h: Hash, n: nat, shards: seq<Data>, blkHash: Data, messages: seq<Data>) {
    forall m :: m in messages ==>
      Unrelated(h, n, blkHash, m) || exists i :: 0 <= i < |shards| && m == Message(h, shards, blkHash, i)
  }

  ghost predicate Holds(t: Table, shards: seq<Data>, blkHash: Data, got: set<nat>) {
    if got == {} then blkHash !in t
    else blkHash in t && t[blkHash].slots == Received(shards, got) && t[blkHash].count == |got|
  }

  ghost predicate SlicesOk(h: Hash, shards: seq<Data>, blkHash: Data) {
    forall i :: 0 <= i < |shards| ==> SliceOk(SliceFor(h, shards, blkHash, i))
  }

  /** One honest slice: it parses back, validates and lands in its slot, unless it is there already. */
  lemma ReceiveHonest(h: Hash, t: Table, shards: seq<Data>, blkHash: Data, got: set<nat>, i: nat)
    requires i < |shards| && SlicesOk(h, shards, blkHash) && [] !in shards
    requires Shaped(|shards|, t) && Holds(t, shards, blkHash, got)
    ensures var r := ReceiveSlice(h, |shards|, t, Message(h, shards, blkHash, i));
      r.Some? && Shaped(|shards|, r.value) && Holds(r.value, shards, blkHash, got + {i})
  {
    var s := SliceFor(h, shards, blkHash, i);
    SliceBack(s, []);
    assert SliceBytes(s) + [] == SliceBytes(s);
    ProofsValidate(h, shards, i);
    InsertHonest(t, shards, blkHash, got, i);
  }

  lemma InsertHonest(t: Table, shards: seq<Data>, blkHash: Data, got: set<nat>, i: nat)
    requires i < |shards| && [] !in shards && Holds(t, shards, blkHash, got)
    ensures Holds(InsertShard(|shards|, t, blkHash, i, shards[i]), shards, blkHash, got + {i})
  {
    var t' := InsertShard(|shards|, t, blkHash, i, shards[i]);
    if i in got {
      assert got + {i} == got;
    } else {
      var e := EntryOf(|shards|, t, blkHash);
      assert e.slots == Received(shards, got);
      assert t'[blkHash].slots == Received(shards, got + {i});
    }
  }

  /** Honest slices parse back to their own index. */
  lemma MessagesDiffer(h: Hash, shards: seq<Data>, blkHash: Data, i: nat, j: nat)
    requires i < |shards| && j < |shards| && SlicesOk(h, shards, blkHash)
    requires Message(h, shards, blkHash, i) == Message(h, shards, blkHash, j)
    ensures i == j
  {
    var a, b := SliceFor(h, shards, blkHash, i), SliceFor(h, shards, blkHash, j);
    SliceBack(a, []);
    SliceBack(b, []);
    assert a.proof.index == b.proof.index;
  }

  lemma ReceiveUnrelated(h: Hash, t: Table, shards: seq<Data>, blkHash: Data, got: set<nat>, m: Data)
    requires Shaped(|shards|, t) && Holds(t, shards, blkHash, got) && Unrelated(h, |shards|, blkHash, m)
    ensures var r := ReceiveSlice(h, |shards|, t, m);
      r.Some? && Shaped(|shards|, r.value) && Holds(r.value, shards, blkHash, got)
  {
  }

  /** Any traffic: the block's slices in any order, repeated or missing, among foreign ones. */
  lemma {:induction false} CollectHolds(h: Hash, t: Table, shards: seq<Data>, blkHash: Data, messages: seq<Data>)
    requires SlicesOk(h, shards, blkHash) && [] !in shards
    requires Traffic(h, |shards|, shards, blkHash, messages) && Shaped(|shards|, t) && blkHash !in t
    ensures var r := ReceiveAll(h, |shards|, t, messages);
      r.Some? && Shaped(|shards|, r.value) && Holds(r.value, shards, blkHash, Indices(h, shards, blkHash, messages))
  {
    NoneYet(h, t, shards, blkHash);
    hide ReceiveSlice, Shaped, Holds, Unrelated, SlicesOk, Message, Traffic, Indices;
    if messages != [] {
      var earlier, last := messages[..|messages| - 1], messages[|messages| - 1];
      assert messages == earlier + [last];
      TrafficSplits(h, shards, blkHash, earlier, last);
      CollectHolds(h, t, shards, blkHash, earlier);
      var before := ReceiveAll(h, |shards|, t, earlier).value;
      ReceiveOne(h, before, shards, blkHash, earlier, last);
    }
  }

  lemma NoneYet(h: Hash, t: Table, shards: seq<Data>, blkHash: Data)
    requires blkHash !in t
    ensures Holds(t, shards, blkHash, Indices(h, shards, blkHash, []))
  {
    assert Indices(h, shards, blkHash, []) == {};
  }

  lemma TrafficSplits(h: Hash, shards: seq<Data>, blkHash: Data, earlier: seq<Data>, last: Data)
    requires Traffic(h, |shards|, shards, blkHash, earlier + [last])
    ensures Traffic(h, |shards|, shards, blkHash, earlier)
    ensures Unrelated(h, |shards|, blkHash, last)
      || exists i :: 0 <= i < |shards| && last == Message(h, shards, blkHash, i)
  {
    hide Unrelated, Message;
    assert forall m :: m in earlier ==> m in earlier + [last];
    assert last in earlier + [last];
  }

  lemma ReceiveOne(h: Hash, t: Table, shards: seq<Data>, blkHash: Data, earlier: seq<Data>, last: Data)
    requires SlicesOk(h, shards, blkHash) && [] !in shards && Shaped(|shards|, t)
    requires Holds(t, shards, blkHash, Indices(h, shards, blkHash, earlier))
    requires Unrelated(h, |shards|, blkHash, last)
      || exists i :: 0 <= i < |shards| && last == Message(h, shards, blkHash, i)
    ensures var r := ReceiveSlice(h, |shards|, t, last);
      r.Some? && Shaped(|shards|, r.value)
      && Holds(r.value, shards, blkHash, Indices(h, shards, blkHash, earlier + [last]))
  {
    hide ReceiveSlice, Shaped, Holds, Unrelated, SlicesOk, Message;
    var got := Indices(h, shards, blkHash, earlier);
    if i: nat :| i < |shards| && last == Message(h, shards, blkHash, i) {
      ReceiveHonest(h, t, shards, blkHash, got, i);
      forall j | 0 <= j < |shards| && last == Message(h, shards, blkHash, j) ensures j == i {
        MessagesDiffer(h, shards, blkHash, i, j);
      }
      assert Indices(h, shards, blkHash, earlier + [last]) == got + {i};
    } else {
      ReceiveUnrelated(h, t, shards, blkHash, got, last);
      assert Indices(h, shards, blkHash, earlier + [last]) == got;
    }
  }

  // ---- any traffic -------------------------------------------------------------------------

  /** The slots are left exactly by a slice that validates and has an index outside them. */
  lemma OutsideExactly(h: Hash, n: nat, t: Table, message: Data)
    requires Shaped(n, t)
    ensures ReceiveSlice(h, n, t, message).None? <==>
      match ParseSlice(message)
      case None => false
      case Some((s, _)) => Validates(h, s.proof) && !(0 <= s.proof.index < n)
  {
  }

  /** What a message would put into slot i of the block: a validating slice counts for its slot
      whatever root it carries. */
  function Offered(h: Hash, blkHash: Data, message: Data, i: nat): Data {
    match ParseSlice(message)
    case None => []
    case Some((s, _)) => if Validates(h, s.proof) && s.blkHash == blkHash && s.proof.index == i then s.proof.data else []
  }

  /** The first shard offered for slot i. */
  function FirstOffered(h: Hash, blkHash: Data, messages: seq<Data>, i: nat): Data {
    if messages == [] then [] else
    var before := FirstOffered(h, blkHash, messages[..|messages| - 1], i);
    if before != [] then before else Offered(h, blkHash, messages[|messages| - 1], i)
  }

  function Slot(t: Table, blkHash: Data, i: nat): Data {
    if blkHash in t && i < |t[blkHash].slots| then t[blkHash].slots[i] else []
  }

  /** Over any traffic that stays inside the slots, the first validating slice takes its slot, be its
      root the proposer's or not; a later one for that slot changes nothing. */
  lemma {:induction false} FirstTakesSlot(h: Hash, n: nat, t: Table, blkHash: Data, messages: seq<Data>, i: nat)
    requires Shaped(n, t) && blkHash !in t && i < n
    ensures match ReceiveAll(h, n, t, messages)
      case None => true
      case Some(t') => Shaped(n, t') && Slot(t', blkHash, i) == FirstOffered(h, blkHash, messages, i)
  {
    if messages != [] {
      var earlier := messages[..|messages| - 1];
      FirstTakesSlot(h, n, t, blkHash, earlier, i);
      hide ReceiveSlice, Offered, Slot, Shaped;
      if ReceiveAll(h, n, t, earlier).Some? {
        OfferedOnce(h, n, ReceiveAll(h, n, t, earlier).value, blkHash, messages[|messages| - 1], i);
      }
    }
  }

  lemma OfferedOnce(h: Hash, n: nat, t: Table, blkHash: Data, message: Data, i: nat)
    requires Shaped(n, t) && i < n
    ensures match ReceiveSlice(h, n, t, message)
      case None => true
      case Some(t') =>
        && Shaped(n, t')
        && Slot(t', blkHash, i) == if Slot(t, blkHash, i) != [] then Slot(t, blkHash, i) else Offered(h, blkHash, message, i)
  {
  }

  /** As many slots are filled as indices were received. */
  lemma PresentReceived(shards: seq<Data>, got: set<nat>)
    requires [] !in shards && forall i :: i in got ==> i < |shards|
    ensures Present(Received(shards, got)) == |got|
  {
    var slots := Received(shards, got);
    PresentIsSize(slots);
    assert Filled(slots).Keys == got;
    assert |Filled(slots)| == |Filled(slots).Keys|;
  }

  // ---- what the proposer's slices look like -------------------------------------------------

  lemma {:induction false} DigestTree(h: Hash, level: seq<Data>, index: nat)
    requires HexDigest(h) && AllDigests(level) && index < |level| && SiblingsInBounds(Levels(h, level), index)
    ensures |Root(h, level)| == 64 && AllSized(Branch(Levels(h, level), index), 64)
    decreases |level|
  {
    if |level| > 1 {
      hide Pad, PairUp, Up, Half, Sibling;
      BranchUp(h, level, index);
      UpDigests(h, level);
      PadDigests(level);
      hide Levels, Root, HexDigest, Branch, SiblingsInBounds;
      DigestTree(h, Up(h, level), index / 2);
    } else {
      OneLevel(h, level);
    }
  }

  /** The conditions the pipeline works under: enough replicas for a recovery buffer and few
      enough for a 16-bit id, a lawful codec, hex digests, 32-byte commands, 32-bit sizes. */
  ghost predicate Setting(codec: Codec, h: Hash, n: nat, cmds: seq<Data>, blkHash: Data) {
    && 4 <= n < 0x1_0000 && Lawful(codec, OriginalCount(n), RecoveryCount(n)) && HexDigest(h)
    && AllSized(cmds, 32) && |blkHash| == 32 && BufferBytes(SliceSize(OriginalCount(n), 32 * |cmds|)) < U32_LIMIT
  }

  lemma ShardsSized(codec: Codec, h: Hash, n: nat, cmds: seq<Data>, blkHash: Data)
    requires Setting(codec, h, n, cmds, blkHash)
    ensures |Flatten(cmds)| == 32 * |cmds| && Fits(OriginalCount(n), Flatten(cmds))
    ensures var size := BufferBytes(SliceSize(OriginalCount(n), 32 * |cmds|));
      size > 0 && Buffers(Shards(codec, n, cmds), n, size)
    ensures [] !in Shards(codec, n, cmds)
  {
    NotEmpty(Shards(codec, n, cmds));
    hide Lawful, Flatten, SliceSize, BufferBytes, Original, AllSized, Pow256;
    var k, data := OriginalCount(n), Flatten(cmds);
    FlattenSize(cmds, 32);
    ShardSize(codec, k, RecoveryCount(n), data);
    SmallFits(k, data);
  }

  lemma NotEmpty(parts: seq<Data>)
    ensures forall size | size > 0 && AllSized(parts, size) :: [] !in parts
  {
  }

  lemma ShardSize(codec: Codec, k: nat, m: nat, data: Data)
    requires k > 0 && Lawful(codec, k, m)
    ensures var size := BufferBytes(SliceSize(k, |data|));
      size > 0 && Buffers(Encoded(codec, k, data), k + m, size)
  {
    var parts := Originals(k, data);
    var size := BufferBytes(SliceSize(k, |data|));
    FirstOriginal(k, data);
    hide SliceSize, Original, Framed;
    assert Buffers(parts, k, size);
    assert Buffers(codec.encode(parts), m, size);
  }

  lemma SmallFits(k: nat, data: Data)
    requires 0 < k < 0x1_0000 && BufferBytes(SliceSize(k, |data|)) < U32_LIMIT
    ensures Fits(k, data)
  {
    var slice := SliceSize(k, |data|);
    assert |data| + 16 <= k * slice;
    assert slice < U32_LIMIT;
    MulBound(k, slice, U32_LIMIT);
    Pow256At8();
  }

  lemma MulBound(k: nat, x: nat, bound: nat)
    requires x < bound && k < bound
    ensures k * x < bound * bound
  {
    assert k * x <= k * bound;
    assert k * bound <= bound * bound;
  }

  lemma Pow256At8()
    ensures Pow256(8) == U32_LIMIT * U32_LIMIT
  {
    Pow256At4();
    assert Pow256(5) == 256 * Pow256(4) && Pow256(6) == 256 * Pow256(5);
    assert Pow256(7) == 256 * Pow256(6) && Pow256(8) == 256 * Pow256(7);
  }

  lemma {:induction false} Pow2Above(e: nat)
    ensures Pow2(e) > e
  {
    if e > 0 {
      Pow2Above(e - 1);
    }
  }

  lemma ShortBranch(h: Hash, level: seq<Data>)
    requires level != []
    ensures |Levels(h, level)| - 1 < 2 * |level|
  {
    hide Levels, Pow2;
    Depth(h, level);
    Pow2Above(|Levels(h, level)| - 1);
  }

  lemma TreeSliceOk(h: Hash, shards: seq<Data>, blkHash: Data, i: nat)
    requires HexDigest(h) && i < |shards| < 0x1_0000 && |shards[i]| < U32_LIMIT && |blkHash| == 32
    ensures SliceOk(SliceFor(h, shards, blkHash, i))
  {
    LeavesDigests(h, shards);
    hide Levels, Leaves, Root, Branch, SiblingsInBounds, HexDigest, AllDigests, AllSized;
    var leaves := Leaves(h, shards);
    ShortBranch(h, leaves);
    AllInBounds(h, leaves, i);
    DigestTree(h, leaves, i);
  }

  lemma LeavesDigests(h: Hash, shards: seq<Data>)
    requires HexDigest(h)
    ensures AllDigests(Leaves(h, shards))
  {
  }

  lemma ProposedSlicesOk(codec: Codec, h: Hash, n: nat, cmds: seq<Data>, blkHash: Data)
    requires Setting(codec, h, n, cmds, blkHash)
    ensures SlicesOk(h, Shards(codec, n, cmds), blkHash)
  {
    hide Lawful, HexDigest, SliceFor, SliceOk;
    var shards := Shards(codec, n, cmds);
    ShardsSized(codec, h, n, cmds, blkHash);
    forall i | 0 <= i < |shards| ensures SliceOk(SliceFor(h, shards, blkHash, i)) {
      TreeSliceOk(h, shards, blkHash, i);
    }
  }

  // ---- the whole way -----------------------------------------------------------------------

  /** Whatever arrives of a proposal's slices, in any order, repeated, among foreign slices:
      get_block succeeds exactly from n - (n-1)/3 different ones on, and decoding what it
      returns gives the proposed commands in order, unless there were too few commands to frame. */
  lemma EndToEnd(codec: Codec, h: Hash, n: nat, cmds: seq<Data>, blkHash: Data, t: Table, messages: seq<Data>)
    requires Setting(codec, h, n, cmds, blkHash) && Shaped(n, t) && blkHash !in t
    requires Traffic(h, n, Shards(codec, n, cmds), blkHash, messages)
    ensures |Shards(codec, n, cmds)| == n
    ensures var k, r := OriginalCount(n), ReceiveAll(h, n, t, messages);
      && r.Some?
      && var block := GetBlock(r.value, k, blkHash);
        && (block.Some? <==> |Indices(h, Shards(codec, n, cmds), blkHash, messages)| >= k)
        && (block.Some? ==> |block.value| == n)
        && (block.Some? ==>
          AsyncDecode(codec, k, RecoveryCount(n), block.value) == if 32 * |cmds| + 16 > 8 * k then Commands(cmds) else Broken)
  {
    hide Lawful, Encoded, AllSized, HexDigest, SlicesOk, Traffic, AsyncDecode, ReceiveAll, Present, Indices, Decode, Flatten;
    var k, shards := OriginalCount(n), Shards(codec, n, cmds);
    ShardsSized(codec, h, n, cmds, blkHash);
    ProposedSlicesOk(codec, h, n, cmds, blkHash);
    CollectHolds(h, t, shards, blkHash, messages);
    var got := Indices(h, shards, blkHash, messages);
    if |got| >= k {
      hide ShardTable.GetBlock;
      IndicesBelow(h, shards, blkHash, messages);
      PresentReceived(shards, got);
      RoundTrip(codec, k, RecoveryCount(n), Flatten(cmds), Received(shards, got));
      Words32(codec, k, RecoveryCount(n), cmds, Received(shards, got));
    }
  }

  /** Over any traffic that stays inside the slots, foreign roots included: what get_block returns are
      the first shards offered. If none of them is foreign and k slots are filled, decoding gives the
      proposed commands, unless there were too few to frame. */
  lemma FirstSlicesDecide(codec: Codec, h: Hash, n: nat, cmds: seq<Data>, blkHash: Data, t: Table, messages: seq<Data>)
    requires Setting(codec, h, n, cmds, blkHash) && Shaped(n, t) && blkHash !in t
    requires ReceiveAll(h, n, t, messages).Some?
    ensures var k, block := OriginalCount(n), GetBlock(ReceiveAll(h, n, t, messages).value, OriginalCount(n), blkHash);
      block.Some? ==>
        && |block.value| == n == |Shards(codec, n, cmds)|
        && (forall i :: 0 <= i < n ==> block.value[i] == FirstOffered(h, blkHash, messages, i))
        && (Present(block.value) < k
          || (exists i :: 0 <= i < n && block.value[i] !in {[], Shards(codec, n, cmds)[i]})
          || AsyncDecode(codec, k, RecoveryCount(n), block.value) == if 32 * |cmds| + 16 > 8 * k then Commands(cmds) else Broken)
  {
    hide Encoded, AllSized, HexDigest, AsyncDecode, ReceiveAll, Present, Decode, Flatten, FirstOffered;
    var k, shards, t' := OriginalCount(n), Shards(codec, n, cmds), ReceiveAll(h, n, t, messages).value;
    ShardsSized(codec, h, n, cmds, blkHash);
    FirstTakesSlot(h, n, t, blkHash, messages, 0);
    if GetBlock(t', k, blkHash).Some? {
      var slots := t'[blkHash].slots;
      forall i | 0 <= i < n ensures slots[i] == FirstOffered(h, blkHash, messages, i) {
        FirstTakesSlot(h, n, t, blkHash, messages, i);
      }
      if Present(slots) >= k && Survives(shards, slots) {
        RoundTrip(codec, k, RecoveryCount(n), Flatten(cmds), slots);
        Words32(codec, k, RecoveryCount(n), cmds, slots);
      }
    }
  }

  /** The threshold is the quorum: the slices that the correct replicas forward are enough. */
  lemma CorrectReachThreshold(c: Config)
    requires c.Valid()
    ensures OriginalCount(c.n) == c.Majority()
    ensures OriginalCount(c.n) <= |AllReplicas(c.n) - c.faulty|
    ensures OriginalCount(c.n) + RecoveryCount(c.n) == c.n
  {
    CorrectAreQuorum(c);
  }

  /** If the slice of every correct replica comes, in any such traffic, get_block succeeds and the
      commands come out, unless there were too few to frame; whatever the faulty ones withhold. */
  lemma CorrectSlicesDecode(c: Config, codec: Codec, h: Hash, cmds: seq<Data>, blkHash: Data, t: Table, messages: seq<Data>)
    requires c.Valid() && Setting(codec, h, c.n, cmds, blkHash) && Shaped(c.n, t) && blkHash !in t
    requires Traffic(h, c.n, Shards(codec, c.n, cmds), blkHash, messages)
    requires forall r: nat :: c.Correct(r) && r < |Shards(codec, c.n, cmds)| ==>
      Message(h, Shards(codec, c.n, cmds), blkHash, r) in messages
    ensures var k, received := OriginalCount(c.n), ReceiveAll(h, c.n, t, messages);
      && received.Some? && GetBlock(received.value, k, blkHash).Some?
      && AsyncDecode(codec, k, RecoveryCount(c.n), GetBlock(received.value, k, blkHash).value)
        == if 32 * |cmds| + 16 > 8 * k then Commands(cmds) else Broken
  {
    hide Setting, Traffic, Shaped, Shards, Message, ReceiveAll, AsyncDecode;
    var shards := Shards(codec, c.n, cmds);
    EndToEnd(codec, h, c.n, cmds, blkHash, t, messages);
    CorrectReachThreshold(c);
    SubsetSize(AllReplicas(c.n) - c.faulty, Indices(h, shards, blkHash, messages));
  }

  lemma IndicesBelow(h: Hash, shards: seq<Data>, blkHash: Data, messages: seq<Data>)
    ensures forall i :: i in Indices(h, shards, blkHash, messages) ==> i < |shards|
  {
  }

  lemma Words32(codec: Codec, k: nat, m: nat, cmds: seq<Data>, input: seq<Data>)
    requires k > 0 && AllSized(cmds, 32)
    ensures Decode(codec, k, m, input) == Decoded(Flatten(cmds)) ==> AsyncDecode(codec, k, m, input) == Commands(cmds)
    ensures Decode(codec, k, m, input) == OutOfBounds ==> AsyncDecode(codec, k, m, input) == Broken
  {
    hide Decode;
    FlattenSize(cmds, 32);
    WordsOfFlatten(cmds, 32);
  }

  /** Commands come out exactly when what was decoded is a whole number of 32-byte commands, these. */
  lemma CommandsExactly(codec: Codec, k: nat, m: nat, input: seq<Data>, cmds: seq<Data>)
    requires k > 0
    ensures AsyncDecode(codec, k, m, input) == Commands(cmds)
      <==> AllSized(cmds, 32) && Decode(codec, k, m, input) == Decoded(Flatten(cmds))
  {
    hide Decode;
    if AllSized(cmds, 32) {
      Words32(codec, k, m, cmds, input);
    }
    match Decode(codec, k, m, input)
    case Decoded(data) =>
      if |data| % 32 == 0 {
        FlattenOfWords(data, 32, |data| / 32);
      }
    case _ =>
  }

  /** Eight replicas and one command are too few: whatever slices are collected, decoding breaks. */
  lemma OneCommandOfEight(codec: Codec, h: Hash, cmd: Data, blkHash: Data, t: Table, messages: seq<Data>)
    requires Setting(codec, h, 8, [cmd], blkHash) && Shaped(8, t) && blkHash !in t
    requires Traffic(h, 8, Shards(codec, 8, [cmd]), blkHash, messages)
    requires |Indices(h, Shards(codec, 8, [cmd]), blkHash, messages)| >= 6
    ensures var r := ReceiveAll(h, 8, t, messages);
      && r.Some? && GetBlock(r.value, 6, blkHash).Some?
      && AsyncDecode(codec, 6, 2, GetBlock(r.value, 6, blkHash).value) == Broken
  {
    hide Setting, Shaped, Traffic, Shards, Indices, ReceiveAll, GetBlock, AsyncDecode;
    assert OriginalCount(8) == 6 && RecoveryCount(8) == 2;
    EndToEnd(codec, h, 8, [cmd], blkHash, t, messages);
  }

  /** The same for a proposal without commands among four replicas, with the parity code, and no
      assumption on a codec left: all three originals arrive, and decoding breaks. */
  lemma EmptyOfFour(h: Hash, blkHash: Data)
    requires HexDigest(h) && |blkHash| == 32
    ensures Setting(Parity(3), h, 4, [], blkHash)
    ensures var shards := Shards(Parity(3), 4, []);
      |shards| == 4 && AsyncDecode(Parity(3), 3, 1, shards) == Broken
  {
    ParityIsLawful(3);
    hide Lawful, HexDigest;
    assert BufferBytes(SliceSize(3, 0)) == 64;
    ShardsSized(Parity(3), h, 4, [], blkHash);
    var shards := Shards(Parity(3), 4, []);
    AllPresent(shards);
    RoundTrip(Parity(3), 3, 1, Flatten([]), shards);
    Words32(Parity(3), 3, 1, [], shards);
  }

  lemma {:induction false} AllPresent(shards: seq<Data>)
    requires [] !in shards
    ensures Present(shards) == |shards|
  {
    if shards != [] {
      AllPresent(shards[1..]);
    }
  }

  /** Both assertions on a received proposal hold for one an honest proposer sent, and its slice
      is the one that was sent. */
  lemma HonestProposalPasses<Q>(h: Hash, shaOf: Hash, qcCodec: QcCodec<Q>, p: ProposalMsg<Q>,
    shards: seq<Data>, blkHash: Data, i: nat, rest: Data)
    requires i < |shards| && ProposalOk(p) && QcBack(qcCodec, p.blk.qc)
    requires p.slice == SliceFor(h, shards, blkHash, i) && p.sliceHash == shaOf(SliceBytes(p.slice))
    ensures match ParseProposal(qcCodec, ProposalBytes(qcCodec, p) + rest)
      case None => false
      case Some((q, _)) =>
        q.slice == p.slice && q.sliceHash == shaOf(SliceBytes(q.slice)) && Validates(h, q.slice.proof)
  {
    ProposalBack(qcCodec, p, rest);
    ProofsValidate(h, shards, i);
  }
}
