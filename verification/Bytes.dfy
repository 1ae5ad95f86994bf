/** Bytes, little-endian numbers and slicing, as the dissemination code uses them. */
module Bytes {
  newtype byte = x: int | 0 <= x < 256

  type Data = seq<byte>

  function Fill(b: byte, n: nat): (s: Data)
    ensures |s| == n
    ensures forall i :: 0 <= i < n ==> s[i] == b
  {
    seq(n, i => b)
  }

  function Zeros(n: nat): (s: Data)
    ensures |s| == n
    ensures forall i :: 0 <= i < n ==> s[i] == 0
  {
    Fill(0, n)
  }

  /** n as width bytes, lowest first, higher digits cut off: what memcpy and htole give. */
  function LittleEndian(n: nat, width: nat): (s: Data)
    ensures |s| == width
  {
    if width == 0 then [] else [(n % 256) as byte] + LittleEndian(n / 256, width - 1)
  }

  function FromLittleEndian(s: Data): nat {
    if s == [] then 0 else s[0] as nat + 256 * FromLittleEndian(s[1..])
  }

  function Pow256(e: nat): (p: nat)
    ensures p > 0
  {
    if e == 0 then 1 else 256 * Pow256(e - 1)
  }

  lemma {:induction false} LittleEndianRoundTrip(n: nat, width: nat)
    requires n < Pow256(width)
    ensures FromLittleEndian(LittleEndian(n, width)) == n
  {
    if width > 0 {
      LittleEndianRoundTrip(n / 256, width - 1);
      assert LittleEndian(n, width)[1..] == LittleEndian(n / 256, width - 1);
    }
  }

  lemma {:induction false} ZerosAreZero(n: nat)
    ensures FromLittleEndian(Zeros(n)) == 0
  {
    if n > 0 {
      ZerosAreZero(n - 1);
      assert Zeros(n)[1..] == Zeros(n - 1);
    }
  }

  lemma {:induction false} LittleEndianZero(width: nat)
    ensures LittleEndian(0, width) == Zeros(width)
  {
    if width > 0 {
      LittleEndianZero(width - 1);
    }
  }

  /** A number below 256 is its first byte followed by zeros. */
  lemma LittleEndianSmall(n: nat, width: nat)
    requires n < 256 && width > 0
    ensures LittleEndian(n, width) == [n as byte] + Zeros(width - 1)
  {
    LittleEndianZero(width - 1);
  }

  function Flatten(parts: seq<Data>): Data {
    if parts == [] then [] else parts[0] + Flatten(parts[1..])
  }

  ghost predicate AllSized(parts: seq<Data>, n: nat) {
    forall i :: 0 <= i < |parts| ==> |parts[i]| == n
  }

  lemma Associate(a: Data, b: Data, rest: Data)
    ensures (a + b) + rest == a + (b + rest)
  {
  }

  lemma {:induction false} FlattenAppend(a: seq<Data>, b: seq<Data>)
    ensures Flatten(a + b) == Flatten(a) + Flatten(b)
  {
    if a == [] {
      assert a + b == b;
      assert [] + Flatten(b) == Flatten(b);
    } else {
      FlattenAppend(a[1..], b);
      assert (a + b)[1..] == a[1..] + b;
      Associate(a[0], Flatten(a[1..]), Flatten(b));
    }
  }

  lemma FlattenNext(parts: seq<Data>, i: nat)
    requires i < |parts|
    ensures Flatten(parts[..i + 1]) == Flatten(parts[..i]) + parts[i]
  {
    FlattenAppend(parts[..i], [parts[i]]);
    assert parts[..i + 1] == parts[..i] + [parts[i]];
    assert Flatten([parts[i]]) == parts[i] + [];
  }

  lemma {:induction false} FlattenSize(parts: seq<Data>, n: nat)
    requires AllSized(parts, n)
    ensures |Flatten(parts)| == |parts| * n
  {
    if parts != [] {
      FlattenSize(parts[1..], n);
    }
  }

  /** Cutting into words of n bytes. */
  function Words(s: Data, n: nat): (parts: seq<Data>)
    requires n > 0
    decreases |s|
  {
    if |s| < n then [] else [s[..n]] + Words(s[n..], n)
  }

  /** Cutting in a loop. */
  method CutWords(s: Data, n: nat) returns (parts: seq<Data>)
    requires n > 0
    ensures parts == Words(s, n)
  {
    parts := [];
    var rest := s;
    while |rest| >= n
      invariant parts + Words(rest, n) == Words(s, n)
      decreases |rest|
    {
      assert parts + ([rest[..n]] + Words(rest[n..], n)) == (parts + [rest[..n]]) + Words(rest[n..], n);
      parts := parts + [rest[..n]];
      rest := rest[n..];
    }
    assert parts + [] == parts;
  }

  /** Putting parts together in a loop. */
  method Concatenate(parts: seq<Data>) returns (s: Data)
    ensures s == Flatten(parts)
  {
    s := [];
    for i := 0 to |parts|
      invariant s == Flatten(parts[..i])
    {
      FlattenNext(parts, i);
      s := s + parts[i];
    }
    assert parts[..|parts|] == parts;
  }

  /** Cutting a concatenation of n-byte words gives the words back. */
  lemma {:induction false} WordsOfFlatten(parts: seq<Data>, n: nat)
    requires n > 0 && AllSized(parts, n)
    ensures Words(Flatten(parts), n) == parts
  {
    if parts != [] {
      WordsOfFlatten(parts[1..], n);
      var s := Flatten(parts);
      assert s[..n] == parts[0] && s[n..] == Flatten(parts[1..]);
    }
  }

  /** And a whole number of words put together again is what was cut. */
  lemma {:induction false} FlattenOfWords(s: Data, n: nat, count: nat)
    requires n > 0 && |s| == n * count
    ensures AllSized(Words(s, n), n) && Flatten(Words(s, n)) == s && |Words(s, n)| == count
  {
    if count > 0 {
      Less(n, count);
      FlattenOfWords(s[n..], n, count - 1);
      assert s == s[..n] + s[n..];
    } else {
      assert s == [];
    }
  }

  lemma Less(n: nat, count: nat)
    requires count > 0
    ensures n * count == n + n * (count - 1)
  {
  }

  /** Reading a number and writing it in as many bytes gives the bytes back. */
  lemma {:induction false} FromLittleEndianRoundTrip(s: Data)
    ensures LittleEndian(FromLittleEndian(s), |s|) == s && FromLittleEndian(s) < Pow256(|s|)
  {
    if s != [] {
      FromLittleEndianRoundTrip(s[1..]);
    }
  }
}
