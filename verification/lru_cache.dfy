/** The striped cache: keys are spread over shards by a hash, each shard with its share of the capacity. */
module LruCache {
  import opened Options
  import opened LruShards

  const DEFAULT_WEIGHT := 8 * 0x10_0000
  const STRIPE_FROM := 0x10_0000
  const SHARD_COUNT := 16

  function Capacity(maxWeight: int): nat {
    if maxWeight <= 0 then DEFAULT_WEIGHT else maxWeight
  }

  function ShardsFor(maxWeight: int): (n: nat)
    ensures n == 1 || n == SHARD_COUNT
  {
    if Capacity(maxWeight) >= STRIPE_FROM then SHARD_COUNT else 1
  }

  function Share(maxWeight: int): nat {
    Capacity(maxWeight) / ShardsFor(maxWeight)
  }

  type Hash = string -> nat

  /** The entries of every shard in recency order. */
  type Contents<V> = seq<Recency<string, V>>

  datatype Op<V> =
    | Look(key: string, now: int)
    | Save(key: string, value: Option<V>, weight: int, now: int)
    | SaveNegative(key: string, now: int)
    | Forget(key: string)
    | Wipe

  datatype Settings = Settings(maxWeight: int, ttl: int, negTTL: int)

  function Expiry(ttl: int, now: int): Option<int> {
    if ttl <= 0 then None else Some(now + ttl)
  }

  /** Absence is remembered for its own time, or for the regular one; never without a time limit. */
  function NegativeTTL(cfg: Settings): int {
    if cfg.negTTL <= 0 then cfg.ttl else cfg.negTTL
  }

  /** What an operation does to the shard of its key. */
  function Touched<V>(r: Recency<string, V>, op: Op<V>, cfg: Settings): Recency<string, V> {
    match op
    case Look(key, now) => Got(r, key, now).1
    case Save(key, value, weight, now) =>
      Stored(r, Item(key, value, Charged(|key|, weight), Expiry(cfg.ttl, now)), Share(cfg.maxWeight))
    case SaveNegative(key, now) =>
      if NegativeTTL(cfg) <= 0 then r
      else Stored(r, Item(key, None, Charged(|key|, 1), Some(now + NegativeTTL(cfg))), Share(cfg.maxWeight))
    case Forget(key) => Without(r, key)
    case Wipe => []
  }

  function Step<V>(c: Contents<V>, op: Op<V>, cfg: Settings, hash: Hash): Contents<V>
    requires c != []
  {
    if op.Wipe? then seq(|c|, _ => [])
    else
      var k := hash(op.key) % |c|;
      c[k := Touched(c[k], op, cfg)]
  }

  // ---------------------------------------------------------------------------------------------
  // The cache as its callers use it

  class Cache<V> {
    const shards: seq<Shard<string, V>>
    const cfg: Settings
    const hash: Hash

    ghost predicate Valid()
      reads this, shards
    {
      && |shards| == ShardsFor(cfg.maxWeight)
      && (forall i, j :: 0 <= i < j < |shards| ==> shards[i] != shards[j])
      && (forall i :: 0 <= i < |shards| ==> shards[i].Valid() && shards[i].max == Share(cfg.maxWeight))
    }

    ghost function Value(): (c: Contents<V>)
      requires Valid()
      reads this, shards
      ensures |c| == |shards|
    {
      seq(|shards|, i requires 0 <= i < |shards| reads shards => shards[i].entries)
    }

    constructor (cfg: Settings, hash: Hash)
      ensures Valid() && this.cfg == cfg && this.hash == hash && fresh(shards)
      ensures Value() == seq(|shards|, _ => [])
    {
      var made: seq<Shard<string, V>> := [];
      for n := 0 to ShardsFor(cfg.maxWeight)
        invariant |made| == n && fresh(made)
        invariant forall i, j :: 0 <= i < j < n ==> made[i] != made[j]
        invariant forall i :: 0 <= i < n ==>
            made[i].Valid() && made[i].entries == [] && made[i].max == Share(cfg.maxWeight)
      {
        var shard := new Shard(Share(cfg.maxWeight));
        made := made + [shard];
      }
      this.shards, this.cfg, this.hash := made, cfg, hash;
    }

    function ShardOf(key: string): (k: nat)
      requires shards != []
      ensures k < |shards|
    {
      hash(key) % |shards|
    }

    method Get(key: string, now: int) returns (hit: Option<Option<V>>)
      requires Valid()
      modifies shards
      ensures Valid() && Value() == Step(old(Value()), Look(key, now), cfg, hash)
      ensures hit == Got(old(Value())[ShardOf(key)], key, now).0
    {
      var k := ShardOf(key);
      hit := shards[k].Get(key, now);
      assert Value() == old(Value())[k := shards[k].entries];
    }

    method Put(key: string, value: Option<V>, weight: int, now: int)
      requires Valid()
      modifies shards
      ensures Valid() && Value() == Step(old(Value()), Save(key, value, weight, now), cfg, hash)
    {
      var k := ShardOf(key);
      shards[k].Put(key, |key|, value, weight, Expiry(cfg.ttl, now));
      assert Value() == old(Value())[k := shards[k].entries];
    }

    method PutNegative(key: string, now: int)
      requires Valid()
      modifies shards
      ensures Valid() && Value() == Step(old(Value()), SaveNegative(key, now), cfg, hash)
    {
      var ttl := if cfg.negTTL <= 0 then cfg.ttl else cfg.negTTL;
      if ttl > 0 {
        var k := ShardOf(key);
        shards[k].Put(key, |key|, None, 1, Some(now + ttl));
        assert Value() == old(Value())[k := shards[k].entries];
      }
    }

    method Remove(key: string)
      requires Valid()
      modifies shards
      ensures Valid() && Value() == Step(old(Value()), Forget(key), cfg, hash)
    {
      var k := ShardOf(key);
      shards[k].Remove(key);
      assert shards[k].entries == Touched(old(Value())[k], Forget(key), cfg);
      assert Value() == old(Value())[k := shards[k].entries];
    }

    method Clear()
      requires Valid()
      modifies shards
      ensures Valid() && Value() == Step(old(Value()), Wipe, cfg, hash)
    {
      for n := 0 to |shards|
        invariant Valid() && forall i :: 0 <= i < n ==> shards[i].entries == []
      {
        shards[n].Clear();
      }
    }

    method Weight() returns (total: int)
      requires Valid()
      ensures total == TotalWeight(Value())
    {
      total := 0;
      for n := 0 to |shards|
        invariant total == TotalWeight(Value()[..n])
      {
        assert Value()[..n + 1][..n] == Value()[..n];
        total := total + shards[n].weight;
      }
      assert Value()[..|shards|] == Value();
    }
  }

  function TotalWeight<V>(c: Contents<V>): int {
    if c == [] then 0 else TotalWeight(c[..|c| - 1]) + LruShards.Weight(c[|c| - 1])
  }
}
