/** The sharded FIFO block cache that all raw-device readers share. */
module BlockCache {
  import opened Bytes
  import opened Sequences

  const SHARDS: nat := 16

  /** The last `n` elements of `s`, or all of it when it is shorter. */
  function Last<T>(s: seq<T>, n: nat): seq<T>
  {
    if |s| <= n then s else s[|s| - n..]
  }

  /** `data` is the device's block at `off`. */
  predicate TrueBlock(device: seq<Byte>, off: nat, data: seq<Byte>)
  {
    off + |data| <= |device| && device[off..off + |data|] == data
  }

  /** The map holds exactly the queued keys, each queued once. */
  ghost predicate InStep(order: seq<nat>, m: map<nat, seq<Byte>>)
  {
    NoDup(order) && m.Keys == (set k | k in order)
  }

  lemma PopStep(order: seq<nat>, m: map<nat, seq<Byte>>)
    requires InStep(order, m) && order != []
    ensures InStep(order[1..], map k | k in m && k != order[0] :: m[k])
  {
    assert forall k :: k in order <==> k == order[0] || k in order[1..];
  }

  lemma PushStep(order: seq<nat>, m: map<nat, seq<Byte>>, off: nat, data: seq<Byte>)
    requires InStep(order, m) && off !in order
    ensures InStep(order + [off], m[off := data])
  {
    assert forall k :: k in order + [off] <==> k in order || k == off;
  }

  /** One shard: a map of blocks and the order in which they were inserted. */
  class Shard {
    var map_: map<nat, seq<Byte>>
    var order: seq<nat>
    const capacity: nat
    const block: nat
    /** Every accepted insertion, oldest first. */
    ghost var log: seq<nat>

    /** A shard holds exactly its latest `Room()` accepted insertions. With capacity 0 the
        eviction loop stops on an empty queue and still inserts, so the bound is 1. */
    ghost function Room(): nat { if capacity == 0 then 1 else capacity }

    ghost predicate Valid()
      reads this
    {
      && InStep(order, map_)
      && order == Last(log, Room())
      && (forall k :: k in map_ ==> |map_[k]| == block)
    }

    constructor (capacity: nat, block: nat)
      ensures Valid() && log == [] && order == [] && map_ == map[]
      ensures this.capacity == capacity && this.block == block
    {
      this.capacity, this.block := capacity, block;
      map_, order, log := map[], [], [];
    }

    method Get(off: nat) returns (r: Option<seq<Byte>>)
      ensures r == if off in map_ then Some(map_[off]) else None
    {
      r := if off in map_ then Some(map_[off]) else None;
    }

    /** Wrong-sized data and known blocks are ignored; otherwise the oldest blocks make room. */
    method Put(off: nat, data: seq<Byte>)
      requires Valid()
      modifies this
      ensures Valid()
      ensures |data| != block || off in old(map_) ==> map_ == old(map_) && order == old(order) && log == old(log)
      ensures |data| == block && off !in old(map_) ==>
                && map_.Keys == (set k | k in order)
                && log == old(log) + [off]
                && order == Last(old(order), Room() - 1) + [off]
                && map_[off] == data
                && (forall k :: k in order && k != off ==> map_[k] == old(map_)[k])
    {
      if |data| != block {
        return;
      }
      if off in map_ {
        return;
      }
      MakeRoom();
      LastAppend(log, off, Room());
      assert off !in order by {
        assert forall k :: k in order ==> k in old(order);
      }
      PushStep(order, map_, off, data);
      map_ := map_[off := data];
      order := order + [off];
      log := log + [off];
    }

    /** Evicts from the front until there is room for one more. */
    method MakeRoom()
      requires Valid()
      modifies this
      ensures order == Last(old(order), Room() - 1) && log == old(log)
      ensures InStep(order, map_)
      ensures forall k :: k in map_ ==> k in old(map_) && map_[k] == old(map_)[k]
    {
      hide InStep;
      ghost var popped := 0;
      while |order| >= capacity
        invariant 0 <= popped <= |old(order)| && order == old(order)[popped..]
        invariant popped > 0 ==> |order| >= Room() - 1
        invariant InStep(order, map_)
        invariant forall k :: k in map_ ==> k in old(map_) && map_[k] == old(map_)[k]
        invariant log == old(log)
        decreases |order|
      {
        if |order| > 0 {
          PopStep(order, map_);
          var oldest := order[0];
          order := order[1..];
          map_ := map k | k in map_ && k != oldest :: map_[k];
          popped := popped + 1;
        } else {
          break;
        }
      }
    }
  }

  lemma LastAppend(log: seq<nat>, off: nat, n: nat)
    requires n >= 1
    ensures Last(log + [off], n) == Last(Last(log, n), n - 1) + [off]
  {
  }

  /** A put that some other reader performs. */
  datatype PutOp = PutOp(off: nat, data: seq<Byte>)

  /** All shards. `peers` is what the other readers do: before each lock is taken here, they
      get to run one more batch of puts. Any interleaving is some value of `peers`. */
  class SharedBlockCache {
    const shards: seq<Shard>
    const block: nat
    var peers: seq<seq<PutOp>>
    /** The offsets that this reader has put, in order. */
    ghost var puts: seq<nat>

    /** The source shifts by log2 of the block size, which is this division. */
    function ShardIndex(off: nat): (i: nat)
      requires block > 0 && |shards| > 0
      ensures i < |shards|
    {
      (off / block) % |shards|
    }

    ghost predicate Valid()
      reads this, shards
    {
      && block > 0 && |shards| == 16
      && (forall i, j :: 0 <= i < j < |shards| ==> shards[i] != shards[j])
      && (forall i :: 0 <= i < |shards| ==> ShardOk(i))
    }

    /** Shard `i` is well formed and holds only keys that belong to it. */
    ghost predicate ShardOk(i: nat)
      requires block > 0 && i < |shards|
      reads shards[i]
    {
      && shards[i].Valid() && shards[i].block == block
      && forall k :: k in shards[i].map_ ==> ShardIndex(k) == i
    }

    ghost predicate ShardTrue(i: nat, device: seq<Byte>)
      requires i < |shards|
      reads shards[i]
    {
      forall k :: k in shards[i].map_ ==> TrueBlock(device, k, shards[i].map_[k])
    }

    /** Every cached block, and every block the other readers are about to cache, is the
        device's own. */
    ghost predicate Truthful(device: seq<Byte>)
      reads this, shards
    {
      && (forall i :: 0 <= i < |shards| ==> ShardTrue(i, device))
      && (forall b, j :: 0 <= b < |peers| && 0 <= j < |peers[b]| ==>
         TrueBlock(device, peers[b][j].off, peers[b][j].data))
    }

    /** A block can only be in the shard whose number is that of the block modulo 16. */
    lemma ShardOf(i: nat, off: nat)
      requires Valid() && i < 16 && off in shards[i].map_
      ensures (off / block) % 16 == i
    {
      assert ShardOk(i);
    }

    /** What is cached for `off`, in its own shard. */
    ghost function Lookup(off: nat): Option<seq<Byte>>
      requires Valid()
      reads this, shards
    {
      var m := shards[ShardIndex(off)].map_;
      if off in m then Some(m[off]) else None
    }

    constructor (totalBlocks: nat, block: nat, peers: seq<seq<PutOp>>)
      requires block > 0
      ensures Valid() && (forall s :: s in shards ==> fresh(s)) && this.block == block && this.peers == peers
      ensures forall i :: 0 <= i < |shards| ==>
              shards[i].map_ == map[] && shards[i].capacity == Max(totalBlocks / 16, 1)
    {
      var perShard := Max(totalBlocks / SHARDS, 1);
      var all: seq<Shard> := [];
      while |all| < SHARDS
        invariant |all| <= SHARDS
        invariant forall i :: 0 <= i < |all| ==> fresh(all[i]) && all[i].Valid() && all[i].map_ == map[]
        invariant forall i :: 0 <= i < |all| ==> all[i].capacity == perShard && all[i].block == block
        invariant forall i, j :: 0 <= i < j < |all| ==> all[i] != all[j]
        decreases SHARDS - |all|
      {
        var s := new Shard(perShard, block);
        all := all + [s];
      }
      this.block, this.peers, this.puts := block, peers, [];
      this.shards := all;
    }

    method PutOne(off: nat, data: seq<Byte>, ghost device: seq<Byte>)
      requires Valid() && Truthful(device) && TrueBlock(device, off, data)
      modifies shards
      ensures Valid() && Truthful(device)
      ensures |data| == block ==> Lookup(off).Some?
    {
      var i := ShardIndex(off);
      assert ShardOk(i) && ShardTrue(i, device);
      shards[i].Put(off, data);
      assert ShardOk(i) && ShardTrue(i, device);
    }

    /** The other readers take their turn. */
    method RunPeers(ghost device: seq<Byte>)
      requires Valid() && Truthful(device)
      modifies this`peers, shards
      ensures Valid() && Truthful(device)
      ensures old(peers) == [] ==> peers == [] && forall k :: Lookup(k) == old(Lookup(k))
    {
      if |peers| > 0 {
        var batch := peers[0];
        peers := peers[1..];
        for n := 0 to |batch|
          invariant Valid() && Truthful(device)
          invariant forall j :: 0 <= j < |batch| ==> TrueBlock(device, batch[j].off, batch[j].data)
        {
          PutOne(batch[n].off, batch[n].data, device);
        }
      }
    }

    method Get(off: nat, ghost device: seq<Byte>) returns (r: Option<seq<Byte>>)
      requires Valid() && Truthful(device)
      modifies this`peers, shards
      ensures Valid() && Truthful(device)
      ensures r == Lookup(off)
      ensures r.Some? ==> |r.value| == block && TrueBlock(device, off, r.value)
      ensures old(peers) == [] ==> peers == [] && r == old(Lookup(off))
    {
      RunPeers(device);
      assert ShardOk(ShardIndex(off)) && ShardTrue(ShardIndex(off), device);
      r := shards[ShardIndex(off)].Get(off);
    }

    method Put(off: nat, data: seq<Byte>, ghost device: seq<Byte>)
      requires Valid() && Truthful(device) && TrueBlock(device, off, data)
      modifies this, shards
      ensures Valid() && Truthful(device)
      ensures |data| == block ==> Lookup(off).Some?
      ensures puts == old(puts) + [off]
    {
      RunPeers(device);
      PutOne(off, data, device);
      puts := puts + [off];
    }
  }
}
