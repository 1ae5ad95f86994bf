/** MerkleTree and MerkleProof::validate as the program runs them. */
module MerkleTree {
  import opened Bytes
  import opened Merkle

  class MerkleTree {
    const hash: Hash
    var data: seq<Data>
    var rootHash: Data
    var levels: seq<seq<Data>>

    ghost predicate Valid()
      reads this
    {
      && data != []
      && levels == Levels(hash, Leaves(hash, data))
      && rootHash == Root(hash, Leaves(hash, data))
    }

    /** The constructor's nested loops. On an empty list the source never leaves its loop. */
    constructor (hash: Hash, shards: seq<Data>)
      requires shards != []
      ensures Valid() && data == shards && this.hash == hash
    {
      this.hash := hash;
      data := shards;
      levels := [];
      rootHash := [];
      new;
      Build();
    }

    method Build()
      requires data != [] && levels == []
      modifies this`levels, this`rootHash
      ensures Valid()
    {
      var first := HashShards();
      levels := [first];
      var cur := BuildUp();
      rootHash := levels[cur][0];
    }

    method HashShards() returns (leaves: seq<Data>)
      ensures leaves == Leaves(hash, data)
    {
      leaves := [];
      for i := 0 to |data|
        invariant leaves == Leaves(hash, data)[..i]
      {
        leaves := leaves + [hash(data[i])];
      }
    }

    /** The outer loop: levels until one holds a single hash. */
    method BuildUp() returns (cur: nat)
      requires |levels| == 1 && levels[0] != []
      modifies this`levels
      ensures levels == Levels(hash, old(levels[0])) && |levels| == cur + 1
    {
      ghost var leaves := levels[0];
      cur := 0;
      BuiltNone(hash, leaves, levels);
      while |levels[cur]| != 1
        invariant BuiltSoFar(hash, leaves, levels, cur)
        decreases |levels[cur]|
      {
        hide Pad, Up, Levels;
        ghost var before := levels;
        AddLevel(cur);
        BuiltNext(hash, leaves, before, levels, cur);
        cur := cur + 1;
      }
      BuiltAll(hash, leaves, levels, cur);
    }

    /** One turn of the outer loop: pad the current level, hash its pairs into a new one. */
    method AddLevel(cur: nat)
      requires |levels| == cur + 1
      modifies this`levels
      ensures |levels| == cur + 2 && levels[cur + 1] == Up(hash, old(levels[cur]))
      ensures levels[..cur + 1] == old(levels[..cur]) + [Pad(old(levels[cur]))]
    {
      if |levels[cur]| % 2 == 1 {
        levels := levels[cur := levels[cur] + [EMPTY_HASH]];
      }
      var up := HashPairs(levels[cur]);
      levels := levels + [up];
    }

    /** The inner loop: one pass over a level, two entries at a time. */
    method HashPairs(level: seq<Data>) returns (up: seq<Data>)
      ensures up == PairUp(hash, level)
    {
      up := [];
      var j := 0;
      while j + 1 < |level|
        invariant 0 <= j <= |level| && up + PairUp(hash, level[j..]) == PairUp(hash, level)
      {
        PairNext(hash, level, j, up);
        up := up + [hash(level[j] + level[j + 1])];
        j := j + 2;
      }
      assert up + [] == up;
    }

    /** proof_i */
    method ProofAt(index: nat) returns (p: Proof)
      requires Valid() && index < |data|
      ensures p == ProofFor(hash, data, index)
    {
      hide Levels, Leaves, Branch, SiblingsInBounds, Climb, Pad, PairUp;
      AllInBounds(hash, Leaves(hash, data), index);
      var cur, at := 0, index;
      var branch: seq<Data> := [];
      while cur < |levels| - 1
        invariant 0 <= cur <= |levels| - 1
        invariant at >= 0 && SiblingsInBounds(levels[cur..], at)
        invariant branch + Branch(levels[cur..], at) == Branch(levels, index)
      {
        BranchNext(levels, cur, at, branch);
        branch := branch + [levels[cur][if at % 2 == 0 then at + 1 else at - 1]];
        cur := cur + 1;
        at := at / 2;
      }
      BranchEnd(levels[cur..], at, branch);
      p := Proof(data[index], index, rootHash, branch);
    }

    method Proofs() returns (ps: seq<Proof>)
      requires Valid()
      ensures |ps| == |data|
      ensures forall i :: 0 <= i < |data| ==> ps[i] == ProofFor(hash, data, i)
    {
      ps := [];
      for i := 0 to |data|
        invariant |ps| == i
        invariant forall j :: 0 <= j < i ==> ps[j] == ProofFor(hash, data, j)
      {
        var p := ProofAt(i);
        ps := ps + [p];
      }
    }
  }

  lemma PairNext(hash: Hash, level: seq<Data>, j: nat, up: seq<Data>)
    requires j + 1 < |level|
    ensures up + PairUp(hash, level[j..]) == (up + [hash(level[j] + level[j + 1])]) + PairUp(hash, level[j + 2..])
  {
    assert level[j..][2..] == level[j + 2..];
  }

  /** Continuing from the last level gives the whole tree. */
  ghost predicate BuiltSoFar(hash: Hash, leaves: seq<Data>, levels: seq<seq<Data>>, cur: nat)
    requires leaves != []
  {
    && |levels| == cur + 1 && levels[cur] != []
    && levels[..cur] + Levels(hash, levels[cur]) == Levels(hash, leaves)
  }

  lemma BuiltNone(hash: Hash, leaves: seq<Data>, levels: seq<seq<Data>>)
    requires leaves != [] && levels == [leaves]
    ensures BuiltSoFar(hash, leaves, levels, 0)
  {
    hide Levels;
    assert levels[..0] + Levels(hash, leaves) == Levels(hash, leaves);
  }

  lemma BuiltNext(hash: Hash, leaves: seq<Data>, before: seq<seq<Data>>, levels: seq<seq<Data>>, cur: nat)
    requires leaves != [] && BuiltSoFar(hash, leaves, before, cur) && |before[cur]| > 1
    requires |levels| == cur + 2 && levels[cur + 1] == Up(hash, before[cur])
    requires levels[..cur + 1] == before[..cur] + [Pad(before[cur])]
    ensures BuiltSoFar(hash, leaves, levels, cur + 1) && |levels[cur + 1]| < |before[cur]|
  {
    hide Pad, Up, Levels;
    LevelsUp(hash, before[cur]);
    ConcatAssociates(before[..cur], [Pad(before[cur])], Levels(hash, Up(hash, before[cur])));
  }

  lemma BuiltAll(hash: Hash, leaves: seq<Data>, levels: seq<seq<Data>>, cur: nat)
    requires leaves != [] && BuiltSoFar(hash, leaves, levels, cur) && |levels[cur]| == 1
    ensures levels == Levels(hash, leaves)
  {
    OneLevel(hash, levels[cur]);
    assert levels == levels[..cur] + [levels[cur]];
  }

  lemma ConcatAssociates(a: seq<seq<Data>>, b: seq<seq<Data>>, c: seq<seq<Data>>)
    ensures (a + b) + c == a + (b + c)
  {
  }

  lemma BranchNext(levels: seq<seq<Data>>, cur: nat, at: nat, branch: seq<Data>)
    requires cur < |levels| - 1 && SiblingsInBounds(levels[cur..], at)
    ensures Sibling(at) < |levels[cur]| && SiblingsInBounds(levels[cur + 1..], at / 2)
    ensures branch + Branch(levels[cur..], at)
      == (branch + [levels[cur][Sibling(at)]]) + Branch(levels[cur + 1..], at / 2)
  {
    assert levels[cur..][1..] == levels[cur + 1..];
  }

  lemma BranchEnd(levels: seq<seq<Data>>, at: nat, branch: seq<Data>)
    requires |levels| == 1 && SiblingsInBounds(levels, at)
    ensures branch + Branch(levels, at) == branch
  {
  }

  /** MerkleProof::validate */
  method Validate(hash: Hash, p: Proof) returns (ok: bool)
    ensures ok == Validates(hash, p)
  {
    var cur := hash(p.data);
    var at := p.index;
    for i := 0 to |p.branch|
      invariant Climb(hash, cur, at, p.branch[i..]) == Climb(hash, hash(p.data), p.index, p.branch)
    {
      assert p.branch[i..][1..] == p.branch[i + 1..];
      if at % 2 == 0 {
        cur := hash(cur + p.branch[i]);
      } else {
        cur := hash(p.branch[i] + cur);
      }
      at := Half(at);
    }
    ok := cur == p.root;
  }
}
