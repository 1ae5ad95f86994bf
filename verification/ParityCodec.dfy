/** A codec that keeps leopard's promise for one recovery buffer: bytewise sums.
    It shows that the promise asked of leopard can be met. */
module ParityCodec {
  import opened Bytes
  import opened ErasureCode
  import opened Options

  function ByteAt(part: Data, j: nat): nat {
    if j < |part| then part[j] as nat else 0
  }

  function ColumnSum(parts: seq<Data>, j: nat): nat {
    if parts == [] then 0 else ByteAt(parts[0], j) + ColumnSum(parts[1..], j)
  }

  function Sums(parts: seq<Data>, size: nat): (s: Data)
    ensures |s| == size
    ensures forall j :: 0 <= j < size ==> s[j] as nat == ColumnSum(parts, j) % 256
  {
    seq(size, j requires 0 <= j < size => (ColumnSum(parts, j) % 256) as byte)
  }

  /** The only buffer that can be missing: parity minus everything received. */
  function Difference(parity: Data, parts: seq<Data>): Data {
    seq(|parity|, j requires 0 <= j < |parity| => ((parity[j] as int - ColumnSum(parts, j)) % 256) as byte)
  }

  function Parity(k: nat): Codec
    requires k > 0
  {
    Codec(
      parts => if parts == [] then [] else [Sums(parts, |parts[0]|)],
      received => if |received| <= k then None
        else Some(seq(k, i => Difference(received[k], received[..k]))))
  }

  /** Leaving one buffer out lowers each column sum by that buffer's byte. */
  lemma {:induction false} ColumnWithout(parts: seq<Data>, received: seq<Data>, i: nat, j: nat)
    requires |received| == |parts| && i < |parts| && received[i] == []
    requires forall x :: 0 <= x < |parts| && x != i ==> received[x] == parts[x]
    ensures ColumnSum(parts, j) == ColumnSum(received, j) + ByteAt(parts[i], j)
  {
    if i > 0 {
      ColumnWithout(parts[1..], received[1..], i - 1, j);
    } else {
      assert parts[1..] == received[1..];
    }
  }

  lemma {:induction false} PresentAtMost(received: seq<Data>)
    ensures Present(received) <= |received|
    ensures Present(received) == |received| ==> forall i :: 0 <= i < |received| ==> received[i] != []
  {
    if received != [] {
      PresentAtMost(received[1..]);
    }
  }

  /** With k of k+1 present, a missing one is the only one. */
  lemma {:induction false} OnlyMissing(received: seq<Data>, i: nat)
    requires i < |received| && received[i] == [] && Present(received) >= |received| - 1
    ensures forall x :: 0 <= x < |received| && x != i ==> received[x] != []
  {
    PresentAtMost(received[1..]);
    if i > 0 {
      OnlyMissing(received[1..], i - 1);
    }
  }

  lemma ParityRecovers(k: nat, parts: seq<Data>, size: nat, received: seq<Data>)
    requires k > 0 && Buffers(parts, k, size) && size > 0
    requires Survives(parts + Parity(k).encode(parts), received) && Present(received) >= k
    ensures Recovers(Parity(k), parts, received)
  {
    var work := Parity(k).recover(received).value;
    forall i | 0 <= i < k && received[i] == [] ensures work[i] == parts[i] {
      OnlyMissing(received, i);
      assert received[k] == Sums(parts, size);
      assert work[i] == Difference(received[k], received[..k]);
      DifferenceIsMissing(parts, size, received[..k], i);
    }
  }

  lemma DifferenceIsMissing(parts: seq<Data>, size: nat, received: seq<Data>, i: nat)
    requires AllSized(parts, size) && |received| == |parts| && i < |parts| && received[i] == []
    requires forall x :: 0 <= x < |parts| && x != i ==> received[x] == parts[x]
    ensures Difference(Sums(parts, size), received) == parts[i]
  {
    forall j | 0 <= j < size ensures Difference(Sums(parts, size), received)[j] == parts[i][j] {
      ColumnWithout(parts, received, i, j);
      SubtractBack(ColumnSum(parts, j), ColumnSum(received, j), parts[i][j] as nat);
    }
  }

  lemma SubtractBack(total: nat, others: nat, x: nat)
    requires total == others + x && x < 256
    ensures (total % 256 - others) % 256 == x
  {
    var q := total / 256;
    assert total % 256 - others == x - 256 * q;
    ShiftMod(x, q);
  }

  lemma {:induction false} ShiftMod(x: nat, q: nat)
    requires x < 256
    ensures (x - 256 * q) % 256 == x
  {
    if q > 0 {
      ShiftMod(x, q - 1);
      assert x - 256 * q == (x - 256 * (q - 1)) - 256;
    }
  }

  /** The promise RoundTrip asks of leopard is met by the parity code when m is 1. */
  lemma ParityIsLawful(k: nat)
    requires k > 0
    ensures Lawful(Parity(k), k, 1)
  {
    forall parts, size, received |
      Buffers(parts, k, size) && size > 0
      && Survives(parts + Parity(k).encode(parts), received) && Present(received) >= k
      ensures Recovers(Parity(k), parts, received)
    {
      ParityRecovers(k, parts, size, received);
    }
  }
}
