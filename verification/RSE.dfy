/** RSE::encode and RSE::decode as the program runs them, proved to compute ErasureCode's functions. */
module RSE {
  import opened Bytes
  import opened ErasureCode
  import opened Options

  /** memset and the three memcpy calls that build the framed input. */
  method Frame(k: nat, input: Data) returns (framed: array<byte>)
    requires k > 0
    ensures fresh(framed) && framed[..] == Framed(k, input)
  {
    var size := |input|;
    var slice := (size + 16 + k - 1) / k;
    assert slice == SliceSize(k, size);
    framed := new byte[slice * k](_ => 0);
    assert framed.Length == k * slice;
    var sizeBytes, sliceBytes := LittleEndian(size, 8), LittleEndian(slice, 8);
    forall i | 0 <= i < 8 {
      framed[i] := sizeBytes[i];
    }
    forall i | 0 <= i < 8 {
      framed[8 + i] := sliceBytes[i];
    }
    forall i | 0 <= i < size {
      framed[16 + i] := input[i];
    }
  }

  lemma OriginalFromFrame(k: nat, data: Data, i: nat)
    requires k > 0 && i < k
    ensures var slice := SliceSize(k, |data|);
      && 0 <= i * slice <= (i + 1) * slice <= |Framed(k, data)|
      && slice <= BufferBytes(slice)
      && Original(k, data, i) == Framed(k, data)[i * slice..(i + 1) * slice] + Zeros(BufferBytes(slice) - slice)
  {
    SliceInside(i, k, SliceSize(k, |data|));
  }

  lemma ArraySlice(a: array<byte>, lo: nat, hi: nat)
    requires lo <= hi <= |a[..]|
    ensures a[lo..hi] == a[..][lo..hi]
  {
  }

  /** One slice of the framed input in a zeroed buffer. */
  method CopySlice(k: nat, input: Data, i: nat, framed: array<byte>, slice: nat) returns (original: Data)
    requires i < k && framed[..] == Framed(k, input) && slice == SliceSize(k, |input|)
    ensures original == Original(k, input, i)
  {
    hide SliceSize, BufferBytes, Framed, Original;
    OriginalFromFrame(k, input, i);
    ArraySlice(framed, i * slice, (i + 1) * slice);
    original := framed[i * slice..(i + 1) * slice] + Zeros(BufferBytes(slice) - slice);
  }

  /** A slice size beyond 32 bits would be cut off and overrun the framed buffer. */
  method Encode(codec: Codec, k: nat, input: Data) returns (output: seq<Data>)
    requires k > 0 && SliceSize(k, |input|) < 0x1_0000_0000
    ensures output == Encoded(codec, k, input)
  {
    var slice := (|input| + 16 + k - 1) / k;
    assert slice == SliceSize(k, |input|);
    hide SliceSize, BufferBytes, Framed, Original;
    var framed := Frame(k, input);
    var originals: seq<Data> := [];
    for i := 0 to k
      invariant framed[..] == Framed(k, input) && |originals| == i
      invariant forall j :: 0 <= j < i ==> originals[j] == Original(k, input, j)
    {
      var original := CopySlice(k, input, i, framed, slice);
      originals := originals + [original];
    }
    assert originals == Originals(k, input);
    output := originals + codec.encode(originals);
  }

  /** The scan for a buffer size: the last buffer present decides. */
  method BufferSize(input: seq<Data>) returns (size: nat)
    ensures size == LastSize(input)
  {
    size := 0;
    for i := 0 to |input|
      invariant size == LastSize(input[..i])
    {
      assert input[..i + 1][..i] == input[..i];
      if |input[i]| != 0 {
        size := |input[i]|;
      }
    }
    assert input[..|input|] == input;
  }

  /** Appending the slices of buffers[from..to] to output, unless one is too short. */
  method AppendSlices(buffers: seq<Data>, slice: nat, from: nat, to: nat, output: Data) returns (ok: bool, output': Data)
    requires from <= to <= |buffers|
    requires forall i :: 0 <= i < from ==> |buffers[i]| >= slice
    requires output == Joined(buffers[..from], slice)
    ensures ok <==> forall i :: 0 <= i < to ==> |buffers[i]| >= slice
    ensures ok ==> output' == Joined(buffers[..to], slice)
  {
    output' := output;
    for i := from to to
      invariant forall j :: 0 <= j < i ==> |buffers[j]| >= slice
      invariant output' == Joined(buffers[..i], slice)
    {
      if |buffers[i]| < slice {
        return false, output';
      }
      JoinedAppend(buffers[..i], buffers[i], slice);
      assert buffers[..i + 1] == buffers[..i] + [buffers[i]];
      output' := output' + buffers[i][..slice];
    }
    ok := true;
  }

  /** The two erasures at the end: 16 header bytes, then everything past the data. */
  method Trim(output: Data, size: nat) returns (r: Decoded)
    ensures r == if |output| < 16 || |output| - 16 < size then OutOfBounds else Decoded(output[16..16 + size])
  {
    if |output| < 16 {
      return OutOfBounds;
    }
    var data := output[16..];
    if |data| < size {
      return OutOfBounds;
    }
    assert data[..size] == output[16..16 + size];
    r := Decoded(data[..size]);
  }

  /** lost_index as the first loop of decode leaves it. */
  method FirstLost(parts: seq<Data>) returns (lost: nat)
    ensures lost == FirstMissing(parts)
  {
    lost := 0;
    while lost < |parts| && parts[lost] != []
      invariant lost <= |parts| && forall j :: 0 <= j < lost ==> parts[j] != []
    {
      lost := lost + 1;
    }
  }

  method DecodeBuffers(codec: Codec, k: nat, m: nat, input: seq<Data>) returns (r: Decoded)
    requires k > 0
    ensures r == Decode(codec, k, m, input)
  {
    hide LastSize, FirstMissing, FromLittleEndian;
    var bufferSize := BufferSize(input);
    if bufferSize == 0 || bufferSize % 64 != 0 {
      return Failed;
    }
    if |input| < k {
      return OutOfBounds;
    }
    var lost, size, slice := 0, 0, 0;
    var output: Data := [];
    if |input[0]| != 0 {
      if |input[0]| < 16 {
        return OutOfBounds;
      }
      size := FromLittleEndian(input[0][..8]);
      slice := FromLittleEndian(input[0][8..16]);
      lost := FirstLost(input[..k]);
      var ok;
      ok, output := AppendSlices(input[..k], slice, 0, lost, output);
      if !ok {
        return OutOfBounds;
      }
      if lost == k {
        assert input[..k][..k] == input[..k];
        r := Trim(output, size);
        return;
      }
    }
    assert input[..k][0] == input[0] && input[..k][..lost] == input[..lost];
    if |input| < k + m {
      return OutOfBounds;
    }
    assert input[..k + m][..k] == input[..k] && input[..k + m][..lost] == input[..lost];
    r := RecoverLost(codec, k, input[..k + m], bufferSize, lost, size, slice, output);
  }

  /** The part of decode behind the first missing original. */
  method RecoverLost(codec: Codec, k: nat, input: seq<Data>, bufferSize: nat, lost: nat, size0: nat, slice0: nat,
    output: Data) returns (r: Decoded)
    requires 0 < k <= |input| && lost == FirstMissing(input[..k]) < k
    requires if lost == 0 then output == [] else
      && |input[0]| >= 16
      && size0 == FromLittleEndian(input[0][..8]) && slice0 == FromLittleEndian(input[0][8..16])
      && (forall i :: 0 <= i < lost ==> |input[i]| >= slice0)
      && output == Joined(input[..lost], slice0)
    ensures r == DecodeLost(codec, k, input, bufferSize)
  {
    hide LastSize, FirstMissing, FromLittleEndian;
    if exists i :: 0 <= i < |input| && 0 < |input[i]| < bufferSize {
      return OutOfBounds;
    }
    var recovered := codec.recover(input);
    if recovered == None {
      return Failed;
    }
    var work := recovered.value;
    if |work| < k {
      return OutOfBounds;
    }
    var buffers := Completed(k, input, work);
    assert input[..k][0] == input[0];
    assert forall i :: 0 <= i < lost ==> input[..k][i] == input[i];
    var output', size, slice := output, size0, slice0;
    if |input[0]| == 0 {
      if |work[0]| < 16 {
        return OutOfBounds;
      }
      size := FromLittleEndian(work[0][..8]);
      slice := FromLittleEndian(work[0][8..16]);
    }
    assert buffers[..lost] == input[..lost];
    var ok;
    ok, output' := AppendSlices(buffers, slice, lost, k, output');
    if !ok {
      return OutOfBounds;
    }
    assert buffers[..k] == buffers;
    r := Trim(output', size);
  }
}
