/** ShardsContainer as the program runs it. */
module ShardsContainer {
  import opened Bytes
  import opened Options
  import opened ErasureCode
  import opened ShardTable

  class ShardsContainer {
    var shards: Table
    var threshold: nat
    var nodenum: nat

    ghost predicate Valid()
      reads this
    {
      nodenum > 0 && threshold == OriginalCount(nodenum) && Shaped(nodenum, shards)
    }

    constructor (n: nat)
      requires n > 0
      ensures Valid() && shards == map[] && nodenum == n
    {
      nodenum := n;
      threshold := n - (n - 1) / 3;
      shards := map[];
    }

    method NewBlockFor(hash: Data)
      requires hash !in shards
      modifies this`shards
      ensures shards == old(shards)[hash := NewBlock(nodenum)]
    {
      shards := shards[hash := NewBlock(nodenum)];
    }

    /** insert_shard: 0, or -1 for a slot already filled; None for an index outside the slots, which
        the source does not check. */
    method InsertShard(hash: Data, index: int, data: Data) returns (r: Option<int>)
      requires Valid()
      modifies this`shards
      ensures Valid() && (r.Some? <==> 0 <= index < nodenum)
      ensures r.Some? ==>
        shards == ShardTable.InsertShard(nodenum, old(shards), hash, index, data)
      ensures r.Some? ==>
        r.value == if old(Taken(nodenum, shards, hash, index)) then -1 else 0
    {
      if hash !in shards {
        NewBlockFor(hash);
      }
      if index < 0 || index >= |shards[hash].slots| {
        return None;
      }
      if |shards[hash].slots[index]| != 0 {
        return Some(-1);
      }
      shards := shards[hash := shards[hash].(slots := shards[hash].slots[index := data])];
      shards := shards[hash := shards[hash].(count := shards[hash].count + 1)];
      r := Some(0);
    }

    /** get_block: -1 unknown, -2 too few. */
    method GetBlock(hash: Data) returns (r: int, slots: seq<Data>)
      requires Valid()
      ensures r == if hash !in shards then -1 else if ShardTable.GetBlock(shards, threshold, hash).None? then -2 else 0
      ensures r == 0 ==> ShardTable.GetBlock(shards, threshold, hash) == Some(slots)
    {
      if hash !in shards {
        return -1, [];
      }
      if shards[hash].count < threshold {
        return -2, [];
      }
      return 0, shards[hash].slots;
    }

    method Remove(hash: Data) returns (r: int)
      requires Valid()
      modifies this`shards
      ensures Valid() && shards == RemoveBlock(old(shards), hash)
      ensures r == if hash in old(shards) then 0 else -1
    {
      r := if hash in shards then 0 else -1;
      shards := shards - {hash};
    }

    method Enough(hash: Data) returns (ok: bool)
      requires Valid()
      ensures ok <==> ShardTable.GetBlock(shards, threshold, hash).Some?
    {
      ok := hash in shards && shards[hash].count >= threshold;
    }
  }
}
