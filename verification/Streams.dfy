/** serialize and unserialize as the program runs them, on a DataStream that grows and is consumed. */
module Streams {
  import opened Bytes
  import opened Options
  import opened Merkle
  import opened Wire

  class DataStream {
    var buf: Data

    constructor (s: Data)
      ensures buf == s
    {
      buf := s;
    }

    method Put(d: Data)
      modifies this
      ensures buf == old(buf) + d
    {
      buf := buf + d;
    }

    /** Reading throws, consuming nothing, when too little is left. */
    method Get(n: nat) returns (ok: bool, d: Data)
      modifies this
      ensures ok <==> Take(old(buf), n).Some?
      ensures if ok then Take(old(buf), n) == Some((d, buf)) else buf == old(buf)
    {
      if |buf| < n {
        return false, [];
      }
      ok, d := true, buf[..n];
      buf := buf[n..];
    }

    method GetNumber() returns (ok: bool, n: nat)
      modifies this
      ensures ok <==> ParseNumber(old(buf)).Some?
      ensures ok ==> ParseNumber(old(buf)) == Some((n, buf))
    {
      var bytes;
      ok, bytes := Get(4);
      n := FromLittleEndian(bytes);
    }

    method GetBlob() returns (ok: bool, d: Data)
      modifies this
      ensures ok <==> ParseBlob(old(buf)).Some?
      ensures ok ==> ParseBlob(old(buf)) == Some((d, buf))
    {
      d := [];
      var n;
      ok, n := GetNumber();
      if ok && n != 0 {
        ok, d := Get(n);
      }
    }

    /** resize(n) and a loop of n reads. */
    method GetHashes() returns (ok: bool, hs: seq<Data>)
      modifies this
      ensures ok <==> ParseHashes(old(buf)).Some?
      ensures ok ==> ParseHashes(old(buf)) == Some((hs, buf))
    {
      hs := [];
      var n;
      ok, n := GetNumber();
      if !ok { return; }
      ghost var start := buf;
      NoWords(start, n);
      for i := 0 to n
        invariant WordsSoFar(start, n, i, hs, buf)
      {
        ghost var before := buf;
        var word;
        ok, word := Get(32);
        if !ok { return; }
        NextWord(start, n, i, hs, before, word, buf);
        hs := hs + [word];
      }
      assert hs + [] == hs;
    }

    method PutHashes(hs: seq<Data>)
      modifies this
      ensures buf == old(buf) + Hashes(hs)
    {
      ghost var start := buf;
      Put(Number(|hs|));
      for i := 0 to |hs|
        invariant buf == start + (Number(|hs|) + Flatten(hs[..i]))
      {
        FlattenNext(hs, i);
        Put(hs[i]);
      }
      assert hs[..|hs|] == hs;
    }
  }

  /** After i of n reads: what is left to parse completes what has been read. */
  ghost predicate WordsSoFar(start: Data, n: nat, i: nat, hs: seq<Data>, buf: Data)
    requires i <= n
  {
    match ParseWords(buf, n - i)
    case None => ParseWords(start, n).None?
    case Some((words, rest)) => ParseWords(start, n) == Some((hs + words, rest))
  }

  lemma NoWords(start: Data, n: nat)
    ensures WordsSoFar(start, n, 0, [], start)
  {
    if ParseWords(start, n).Some? {
      assert [] + ParseWords(start, n).value.0 == ParseWords(start, n).value.0;
    }
  }

  lemma NextWord(start: Data, n: nat, i: nat, hs: seq<Data>, buf: Data, word: Data, more: Data)
    requires i < n && WordsSoFar(start, n, i, hs, buf) && Take(buf, 32) == Some((word, more))
    ensures WordsSoFar(start, n, i + 1, hs + [word], more)
  {
    var tail := ParseWords(more, n - i - 1);
    if tail.Some? {
      assert hs + ([word] + tail.value.0) == (hs + [word]) + tail.value.0;
    }
  }

  lemma SlicePieces(start: Data, v: Slice)
    ensures start + Number(|v.proof.data|) + v.proof.data + Signed(v.proof.index) + v.blkHash
      + Number(|v.proof.root|) + v.proof.root
      + Number(|Flatten(v.proof.branch)|) + Flatten(v.proof.branch) == start + SliceBytes(v)
  {
    hide Number, Signed, Flatten;
  }

  /** The fields of a Slice. */
  class SliceObject {
    var data: Data
    var index: int
    var root: Data
    var branch: seq<Data>
    var blkHash: Data

    constructor (s: Slice)
      ensures Value() == s
    {
      data, index, root, branch, blkHash := s.proof.data, s.proof.index, s.proof.root, s.proof.branch, s.blkHash;
    }

    ghost function Value(): Slice
      reads this
    {
      Slice(Proof(data, index, root, branch), blkHash)
    }

    /** Not ok where the source's assertion on an entry's length aborts. */
    method Serialize(s: DataStream) returns (ok: bool)
      modifies s
      ensures ok <==> AllSized(branch, 64)
      ensures ok ==> s.buf == old(s.buf) + SliceBytes(Value())
    {
      ghost var start := s.buf;
      s.Put(Number(|data|));
      s.Put(data);
      s.Put(Signed(index));
      s.Put(blkHash);
      s.Put(Number(|root|));
      s.Put(root);
      for i := 0 to |branch|
        invariant AllSized(branch[..i], 64)
      {
        if |branch[i]| != 64 {
          return false;
        }
      }
      var joined := Concatenate(branch);
      s.Put(Number(|joined|));
      s.Put(joined);
      SlicePieces(start, Value());
      ok := true;
    }

    /** On success the fields hold the parsed slice and the stream the rest. */
    method Unserialize(s: DataStream) returns (ok: bool)
      modifies this, s
      ensures ok <==> ParseSlice(old(s.buf)).Some?
      ensures ok ==> ParseSlice(old(s.buf)) == Some((Value(), s.buf))
    {
      hide ParseBlob, ParseNumber, Take, Words;
      ok, data := s.GetBlob();
      if !ok { return; }
      var n;
      ok, n := s.GetNumber();
      if !ok { return; }
      index := if n < 0x8000_0000 then n else n - U32_LIMIT;
      ok, blkHash := s.Get(32);
      if !ok { return; }
      ok, root := s.GetBlob();
      if !ok { return; }
      var joined;
      ok, joined := s.GetBlob();
      if !ok { return; }
      if |joined| % 64 != 0 {
        return false;
      }
      branch := Words(joined, 64);
    }
  }

  /** The serialized fields of a Block, over any certificate format. */
  class BlockObject<Q> {
    var parents: seq<Data>
    var cmds: seq<Data>
    var qc: Q
    var extra: Data

    constructor (b: BlockMsg<Q>)
      ensures Value() == b
    {
      parents, cmds, qc, extra := b.parents, b.cmds, b.qc, b.extra;
    }

    ghost function Value(): BlockMsg<Q>
      reads this
    {
      BlockMsg(parents, cmds, qc, extra)
    }

    method Serialize(codec: QcCodec<Q>, s: DataStream)
      modifies s
      ensures s.buf == old(s.buf) + BlockBytes(codec, Value())
    {
      ghost var start := s.buf;
      s.PutHashes(parents);
      s.PutHashes(cmds);
      s.Put(codec.emit(qc));
      s.Put(Number(|extra|));
      s.Put(extra);
      assert s.buf == start + BlockBytes(codec, Value());
    }

    method Unserialize(codec: QcCodec<Q>, s: DataStream) returns (ok: bool)
      modifies this, s
      ensures ok <==> ParseBlock(codec, old(s.buf)).Some?
      ensures ok ==> ParseBlock(codec, old(s.buf)) == Some((Value(), s.buf))
    {
      ok, parents := s.GetHashes();
      if !ok { return; }
      ok, cmds := s.GetHashes();
      if !ok { return; }
      var parsed := codec.parse(s.buf);
      if parsed.None? {
        return false;
      }
      qc := parsed.value.0;
      s.buf := parsed.value.1;
      ok, extra := s.GetBlob();
    }
  }
}
