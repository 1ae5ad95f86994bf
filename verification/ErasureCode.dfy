/** Framing and erasure coding of a block's commands (rse-merkle/RSE.cpp). */
module ErasureCode {
  import opened Bytes
  import opened Options

  /** The leopard library: recovery buffers for the originals, and the originals that are
      missing from a received vector (an empty entry is a missing buffer). */
  datatype Codec = Codec(encode: seq<Data> -> seq<Data>, recover: seq<Data> -> Option<seq<Data>>)

  ghost predicate Buffers(parts: seq<Data>, count: nat, size: nat) {
    |parts| == count && AllSized(parts, size)
  }

  /** How many entries of a received vector are present. */
  function Present(received: seq<Data>): nat {
    if received == [] then 0 else (if received[0] == [] then 0 else 1) + Present(received[1..])
  }

  /** received holds some entries of sent, unchanged and in place. */
  ghost predicate Survives(sent: seq<Data>, received: seq<Data>) {
    && |received| == |sent|
    && forall i :: 0 <= i < |sent| ==> received[i] == [] || received[i] == sent[i]
  }

  /** What leopard promises: any k of the k+m buffers recover the missing originals. */
  ghost predicate Lawful(codec: Codec, k: nat, m: nat) {
    && (forall parts, size :: Buffers(parts, k, size) && size > 0 && size % 64 == 0 ==>
      Buffers(codec.encode(parts), m, size))
    && (forall parts, size, received | Survives(parts + codec.encode(parts), received) && Present(received) >= k ::
      Buffers(parts, k, size) && size > 0 && size % 64 == 0 ==> Recovers(codec, parts, received))
  }

  ghost predicate Recovers(codec: Codec, parts: seq<Data>, received: seq<Data>)
    requires |parts| <= |received|
  {
    && codec.recover(received).Some?
    && var work := codec.recover(received).value;
      |work| >= |parts| && forall i :: 0 <= i < |parts| && received[i] == [] ==> work[i] == parts[i]
  }

  // ---- parameters --------------------------------------------------------------------------

  /** set_params: recovery and original counts for n nodes. */
  function RecoveryCount(n: nat): nat
    requires n > 0
  {
    (n - 1) / 3
  }

  function OriginalCount(n: nat): (k: nat)
    requires n > 0
    ensures k > 0
  {
    n - RecoveryCount(n)
  }

  function SliceSize(k: nat, size: nat): (s: nat)
    requires k > 0
    ensures k * (s - 1) < size + 16 <= k * s
  {
    (size + 16 + k - 1) / k
  }

  function BufferBytes(slice: nat): (b: nat)
    ensures slice <= b < slice + 64 && b % 64 == 0 && (slice > 0 ==> b >= 64)
  {
    (slice + 63) / 64 * 64
  }

  // ---- encoding ----------------------------------------------------------------------------

  /** The framed input: data size, slice size, the data, zeros up to k slices. */
  function Framed(k: nat, data: Data): (s: Data)
    requires k > 0
    ensures |s| == k * SliceSize(k, |data|)
  {
    var slice := SliceSize(k, |data|);
    LittleEndian(|data|, 8) + LittleEndian(slice, 8) + data + Zeros(k * slice - |data| - 16)
  }

  /** Original buffer i: slice i of the framed input, padded with zeros. */
  function Original(k: nat, data: Data, i: nat): (s: Data)
    requires k > 0 && i < k
    ensures |s| == BufferBytes(SliceSize(k, |data|))
  {
    var slice := SliceSize(k, |data|);
    SliceInside(i, k, slice);
    Framed(k, data)[i * slice..(i + 1) * slice] + Zeros(BufferBytes(slice) - slice)
  }

  lemma SliceInside(i: nat, k: nat, slice: nat)
    requires i < k
    ensures 0 <= i * slice <= (i + 1) * slice <= k * slice
    ensures (i + 1) * slice - i * slice == slice
  {
  }

  function Originals(k: nat, data: Data): (parts: seq<Data>)
    requires k > 0
    ensures |parts| == k
    ensures forall i :: 0 <= i < k ==> parts[i] == Original(k, data, i)
  {
    seq(k, i requires 0 <= i < k => Original(k, data, i))
  }

  function Encoded(codec: Codec, k: nat, data: Data): (parts: seq<Data>)
    requires k > 0
    ensures |parts| >= k
  {
    Originals(k, data) + codec.encode(Originals(k, data))
  }

  // ---- decoding ----------------------------------------------------------------------------

  /** OutOfBounds stands for the reads and erasures that leave a buffer, undefined in the source. */
  datatype Decoded = Decoded(data: Data) | Failed | OutOfBounds

  /** The size of the last buffer present. */
  function LastSize(input: seq<Data>): nat {
    if input == [] then 0
    else if input[|input| - 1] != [] then |input[|input| - 1]|
    else LastSize(input[..|input| - 1])
  }

  /** Of buffers of different sizes the last one present decides. */
  lemma {:induction false} LastPresent(input: seq<Data>, i: nat)
    requires i < |input| && forall j :: i < j < |input| ==> input[j] == []
    ensures input[i] != [] ==> LastSize(input) == |input[i]|
    ensures i == 0 && input[0] == [] ==> LastSize(input) == 0
  {
    if i < |input| - 1 {
      LastPresent(input[..|input| - 1], i);
    } else if i == 0 {
      assert input[..|input| - 1] == [];
    }
  }

  /** Take the slices together, drop the header, keep the data. */
  function Unframe(buffers: seq<Data>): Decoded
    requires buffers != []
  {
    if |buffers[0]| < 16 then OutOfBounds else
    var size := FromLittleEndian(buffers[0][..8]);
    var slice := FromLittleEndian(buffers[0][8..16]);
    if exists i :: 0 <= i < |buffers| && |buffers[i]| < slice then OutOfBounds else
    var joined := Joined(buffers, slice);
    if |joined| < 16 || |joined| - 16 < size then OutOfBounds
    else Decoded(joined[16..16 + size])
  }

  function Joined(buffers: seq<Data>, slice: nat): Data
    requires forall i :: 0 <= i < |buffers| ==> |buffers[i]| >= slice
  {
    if buffers == [] then [] else buffers[0][..slice] + Joined(buffers[1..], slice)
  }

  /** Originals as received or as recovered. */
  function Completed(k: nat, input: seq<Data>, work: seq<Data>): (buffers: seq<Data>)
    requires k <= |input|
    requires forall i :: 0 <= i < k && input[i] == [] ==> i < |work|
    ensures |buffers| == k
  {
    seq(k, i requires 0 <= i < k => if input[i] == [] then work[i] else input[i])
  }

  /** Where the first empty entry is. */
  function FirstMissing(parts: seq<Data>): (i: nat)
    ensures i <= |parts| && (i < |parts| ==> parts[i] == [])
    ensures forall j :: 0 <= j < i ==> parts[j] != []
  {
    if parts == [] || parts[0] == [] then 0 else 1 + FirstMissing(parts[1..])
  }

  /** The slices in front of the first missing original are taken before anything is recovered. */
  predicate PrefixOverruns(k: nat, input: seq<Data>)
    requires 0 < k <= |input|
  {
    input[0] != [] &&
    (|input[0]| < 16 ||
     exists i :: 0 <= i < FirstMissing(input[..k]) && |input[i]| < FromLittleEndian(input[0][8..16]))
  }

  /** decode, for any vector of buffers; too short a one is read past its end. */
  function Decode(codec: Codec, k: nat, m: nat, input: seq<Data>): Decoded
    requires k > 0
  {
    var size := LastSize(input);
    if size == 0 || size % 64 != 0 then Failed
    else if |input| < k || PrefixOverruns(k, input) then OutOfBounds
    else if FirstMissing(input[..k]) == k then Unframe(input[..k])
    else if |input| < k + m then OutOfBounds
    else DecodeLost(codec, k, input[..k + m], size)
  }

  /** The part behind the first missing original. */
  function DecodeLost(codec: Codec, k: nat, input: seq<Data>, size: nat): Decoded
    requires 0 < k <= |input|
  {
    if exists i :: 0 <= i < |input| && 0 < |input[i]| < size then OutOfBounds
    else match codec.recover(input)
      case None => Failed
      case Some(work) =>
        if |work| < k then OutOfBounds else Unframe(Completed(k, input, work))
  }

  // ---- joining the slices ------------------------------------------------------------------

  lemma {:induction false} JoinedSize(buffers: seq<Data>, slice: nat)
    requires forall b :: 0 <= b < |buffers| ==> |buffers[b]| >= slice
    ensures |Joined(buffers, slice)| == |buffers| * slice
  {
    if buffers != [] {
      JoinedSize(buffers[1..], slice);
    }
  }

  lemma {:induction false} JoinedAppend(buffers: seq<Data>, last: Data, slice: nat)
    requires forall b :: 0 <= b < |buffers| ==> |buffers[b]| >= slice
    requires |last| >= slice
    ensures Joined(buffers + [last], slice) == Joined(buffers, slice) + last[..slice]
  {
    if buffers != [] {
      JoinedAppend(buffers[1..], last, slice);
      assert (buffers + [last])[1..] == buffers[1..] + [last];
    }
  }

  /** Buffers that begin with consecutive slices of s join to the rest of s. */
  lemma {:induction false} JoinedSlices(s: Data, buffers: seq<Data>, slice: nat, i: nat)
    requires i <= |buffers| && |s| == |buffers| * slice
    requires forall b :: 0 <= b < |buffers| ==> |buffers[b]| >= slice
    requires forall b :: i <= b < |buffers| ==> BeginsWith(s, buffers[b], slice, b)
    ensures i * slice <= |s| && Joined(buffers[i..], slice) == s[i * slice..]
    decreases |buffers| - i
  {
    if i < |buffers| {
      JoinedSlices(s, buffers, slice, i + 1);
      assert BeginsWith(s, buffers[i], slice, i);
      assert buffers[i..][1..] == buffers[i + 1..];
      assert s[i * slice..] == s[i * slice..(i + 1) * slice] + s[(i + 1) * slice..];
    }
  }

  ghost predicate BeginsWith(s: Data, buffer: Data, slice: nat, i: nat) {
    && i * slice <= (i + 1) * slice <= |s| && |buffer| >= slice
    && buffer[..slice] == s[i * slice..(i + 1) * slice]
  }

  /** Joining the slices of the originals gives the framed input back. */
  lemma JoinedOriginals(k: nat, data: Data)
    requires k > 0
    ensures Joined(Originals(k, data), SliceSize(k, |data|)) == Framed(k, data)
  {
    var slice := SliceSize(k, |data|);
    var parts := Originals(k, data);
    forall i | 0 <= i < k ensures BeginsWith(Framed(k, data), parts[i], slice, i) {
      SliceInside(i, k, slice);
    }
    JoinedSlices(Framed(k, data), parts, slice, 0);
  }

  // ---- the header --------------------------------------------------------------------------

  /** Bytes 8 to 16 of the framed input are the slice size. */
  lemma FramedHeader(k: nat, data: Data)
    requires k > 0
    ensures var f := Framed(k, data);
      && |f| >= 16
      && f[..8] == LittleEndian(|data|, 8)
      && f[8..16] == LittleEndian(SliceSize(k, |data|), 8)
      && f[16..16 + |data|] == data
  {
  }

  lemma FirstOriginal(k: nat, data: Data)
    requires k > 0
    ensures var slice := SliceSize(k, |data|);
      slice <= |Framed(k, data)| && slice > 0
      && Original(k, data, 0) == Framed(k, data)[..slice] + Zeros(BufferBytes(slice) - slice)
  {
    var slice := SliceSize(k, |data|);
    SliceInside(0, k, slice);
    assert 0 * slice == 0 && (0 + 1) * slice == slice;
  }

  /** A slice of nine bytes or more, padded with zeros, shows the whole header: what the
      slice cuts off of its own size is zero. */
  lemma PaddedHeader(f: Data, slice: nat, pad: nat)
    requires |f| >= 16 && 9 <= slice <= |f| && slice + pad >= 16 && f[8..16] == LittleEndian(slice, 8)
    ensures var b := f[..slice] + Zeros(pad);
      b[..8] == f[..8] && b[8..16] == f[8..16]
  {
    var b := f[..slice] + Zeros(pad);
    if slice < 16 {
      LittleEndianSmall(slice, 8);
      forall i | 0 <= i < 8 ensures b[8..16][i] == f[8..16][i] {
        assert b[8..16][i] == b[8 + i];
      }
    }
  }

  /** From nine bytes a slice on, the first buffer holds the header, across the padding if need be. */
  lemma HeaderInFirstBuffer(k: nat, data: Data)
    requires k > 0 && SliceSize(k, |data|) >= 9
    ensures var b := Original(k, data, 0);
      b[..8] == LittleEndian(|data|, 8) && b[8..16] == LittleEndian(SliceSize(k, |data|), 8)
  {
    hide Framed, Original, SliceSize, LittleEndian;
    var slice := SliceSize(k, |data|);
    FramedHeader(k, data);
    FirstOriginal(k, data);
    PaddedHeader(Framed(k, data), slice, BufferBytes(slice) - slice);
  }

  /** Below nine bytes the slice size reads as zero: it lies in the padding. */
  lemma NoHeaderInFirstBuffer(k: nat, data: Data)
    requires k > 0 && SliceSize(k, |data|) < 9
    ensures FromLittleEndian(Original(k, data, 0)[8..16]) == 0
  {
    FirstOriginal(k, data);
    assert Original(k, data, 0)[8..16] == Zeros(8);
    ZerosAreZero(8);
  }

  // ---- the round trip ----------------------------------------------------------------------

  /** The slice size survives its cast to 32 bits, the data size its 8-byte field. */
  predicate Fits(k: nat, data: Data)
    requires k > 0
  {
    SliceSize(k, |data|) < 0x1_0000_0000 && |data| + 16 < Pow256(8)
  }

  lemma UnframeOriginals(k: nat, data: Data)
    requires k > 0 && Fits(k, data)
    ensures if |data| + 16 > 8 * k then Unframe(Originals(k, data)) == Decoded(data)
      else Unframe(Originals(k, data)) == OutOfBounds
  {
    var slice := SliceSize(k, |data|);
    var parts := Originals(k, data);
    if |data| + 16 > 8 * k {
      SliceAtLeast(k, |data|);
      HeaderInFirstBuffer(k, data);
      SliceAtMost(k, |data|);
      LittleEndianRoundTrip(|data|, 8);
      LittleEndianRoundTrip(slice, 8);
      JoinedOriginals(k, data);
      FramedHeader(k, data);
    } else {
      SliceAtLeast(k, |data|);
      NoHeaderInFirstBuffer(k, data);
      JoinedNothing(parts);
    }
  }

  lemma SliceAtLeast(k: nat, size: nat)
    requires k > 0
    ensures SliceSize(k, size) >= 9 <==> size + 16 > 8 * k
  {
    var s := SliceSize(k, size);
    if s >= 9 {
      assert k * (s - 1) >= k * 8;
    } else {
      assert k * s <= k * 8;
    }
  }

  lemma SliceAtMost(k: nat, size: nat)
    requires k > 0
    ensures SliceSize(k, size) <= size + 16
  {
    TimesAtLeast(k, SliceSize(k, size) - 1);
  }

  lemma TimesAtLeast(k: nat, x: nat)
    requires k > 0
    ensures k * x >= x
  {
  }

  lemma {:induction false} JoinedNothing(buffers: seq<Data>)
    ensures Joined(buffers, 0) == []
  {
    if buffers != [] {
      JoinedNothing(buffers[1..]);
    }
  }

  // ---- decode inverts encode ---------------------------------------------------------------

  lemma {:induction false} LastSizeUniform(input: seq<Data>, size: nat)
    requires forall i :: 0 <= i < |input| && input[i] != [] ==> |input[i]| == size
    requires Present(input) > 0
    ensures LastSize(input) == size
  {
    var n := |input| - 1;
    PresentLast(input);
    if input[n] == [] {
      LastSizeUniform(input[..n], size);
    }
  }

  lemma {:induction false} PresentLast(input: seq<Data>)
    requires input != []
    ensures Present(input) == Present(input[..|input| - 1]) + if input[|input| - 1] == [] then 0 else 1
  {
    if |input| > 1 {
      PresentLast(input[1..]);
      assert input[..|input| - 1][1..] == input[1..][..|input| - 2];
    }
  }

  /** From any k of the n buffers, along all three paths of decode, the data comes back exactly
      when the slices have at least nine bytes; below that decode leaves its buffers. */
  lemma RoundTrip(codec: Codec, k: nat, m: nat, data: Data, received: seq<Data>)
    requires k > 0 && Lawful(codec, k, m) && Fits(k, data)
    requires Survives(Encoded(codec, k, data), received) && Present(received) >= k
    ensures Decode(codec, k, m, received) == if |data| + 16 > 8 * k then Decoded(data) else OutOfBounds
  {
    var parts := Originals(k, data);
    var size := BufferBytes(SliceSize(k, |data|));
    FirstOriginal(k, data);
    assert Buffers(parts, k, size) && Buffers(codec.encode(parts), m, size);
    assert received[..k + m] == received;
    LastSizeUniform(received, size);
    UnframeOriginals(k, data);
    NoPrefixOverrun(k, data, received);
    if FirstMissing(received[..k]) == k {
      assert received[..k] == parts;
    } else {
      assert Recovers(codec, parts, received);
      assert Completed(k, received, codec.recover(received).value) == parts;
    }
  }

  lemma NoPrefixOverrun(k: nat, data: Data, received: seq<Data>)
    requires 0 < k <= |received| && Fits(k, data)
    requires forall i :: 0 <= i < k ==> received[i] == [] || received[i] == Original(k, data, i)
    ensures !PrefixOverruns(k, received)
  {
    var slice := SliceSize(k, |data|);
    FirstOriginal(k, data);
    SliceAtLeast(k, |data|);
    SliceAtMost(k, |data|);
    LittleEndianRoundTrip(slice, 8);
    if slice >= 9 {
      HeaderInFirstBuffer(k, data);
    } else {
      NoHeaderInFirstBuffer(k, data);
    }
  }
}
