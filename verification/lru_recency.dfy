/** The order of a shard is recency of use, over any sequence of operations, and what is evicted was used longest ago. */
module LruRecency {
  import opened Options
  import opened LruShards
  import opened LruCache
  import opened LruRuns

  /** A store under the key, or a lookup of it that hits. */
  ghost predicate Uses<V>(r: Recency<string, V>, op: Op<V>, key: string, cfg: Settings) {
    match op
    case Look(k, now) => k == key && Got(r, key, now).0.Some?
    case Save(k, _, _, _) => k == key
    case SaveNegative(k, _) => k == key && NegativeTTL(cfg) > 0
    case Forget(_) => false
    case Wipe => false
  }

  /** When the key was last used, as a place in the run. */
  ghost function LastUse<V>(run: seq<Op<V>>, key: string, cfg: Settings, hash: Hash): (n: int)
    ensures -1 <= n < |run|
  {
    if run == [] then -1
    else
      var front, c := run[..|run| - 1], After(run[..|run| - 1], cfg, hash);
      if Uses(c[hash(key) % |c|], run[|run| - 1], key, cfg) then |run| - 1 else LastUse(front, key, cfg, hash)
  }

  ghost predicate ByRecency<V>(r: Recency<string, V>, run: seq<Op<V>>, cfg: Settings, hash: Hash) {
    forall i, j :: 0 <= i < j < |r| ==> LastUse(run, r[i].key, cfg, hash) > LastUse(run, r[j].key, cfg, hash)
  }

  lemma ByRecencyDistinct<V>(r: Recency<string, V>, run: seq<Op<V>>, cfg: Settings, hash: Hash)
    requires ByRecency(r, run, cfg, hash)
    ensures Distinct(r)
  {
    forall i, j | 0 <= i < j < |r| ensures r[i].key != r[j].key {
      assert LastUse(run, r[i].key, cfg, hash) > LastUse(run, r[j].key, cfg, hash);
    }
  }

  lemma LastUseSnoc<V>(run: seq<Op<V>>, op: Op<V>, key: string, cfg: Settings, hash: Hash)
    ensures var c := After(run, cfg, hash);
            LastUse(run + [op], key, cfg, hash) ==
            if Uses(c[hash(key) % |c|], op, key, cfg) then |run| else LastUse(run, key, cfg, hash)
  {
    assert (run + [op])[..|run|] == run;
  }

  /** An operation does not move entries under keys it does not use. */
  lemma StillByRecency<V>(r: Recency<string, V>, run: seq<Op<V>>, op: Op<V>, cfg: Settings, hash: Hash)
    requires ByRecency(r, run, cfg, hash)
    requires forall i :: 0 <= i < |r| ==> LastUse(run + [op], r[i].key, cfg, hash) == LastUse(run, r[i].key, cfg, hash)
    ensures ByRecency(r, run + [op], cfg, hash)
  {}

  lemma DropByRecency<V>(r: Recency<string, V>, i: nat, run: seq<Op<V>>, cfg: Settings, hash: Hash)
    requires ByRecency(r, run, cfg, hash) && i < |r|
    ensures ByRecency(Drop(r, i), run, cfg, hash)
  {}

  lemma FrontByRecency<V>(item: Item<string, V>, r: Recency<string, V>, run: seq<Op<V>>, cfg: Settings, hash: Hash)
    requires ByRecency(r, run, cfg, hash)
    requires forall i :: 0 <= i < |r| ==> LastUse(run, item.key, cfg, hash) > LastUse(run, r[i].key, cfg, hash)
    ensures ByRecency([item] + r, run, cfg, hash)
  {}

  /** The entries under other keys, in the order they had. */
  lemma WithoutByRecency<V>(r: Recency<string, V>, op: Op<V>, run: seq<Op<V>>, cfg: Settings, hash: Hash)
    requires ByRecency(r, run, cfg, hash) && !op.Wipe?
    ensures ByRecency(Without(r, op.key), run + [op], cfg, hash)
    ensures forall i :: 0 <= i < |Without(r, op.key)| ==>
              LastUse(run + [op], Without(r, op.key)[i].key, cfg, hash) < |run|
  {
    var rest := Without(r, op.key);
    ByRecencyDistinct(r, run, cfg, hash);
    if Holds(r, op.key) {
      var i :| 0 <= i < |r| && r[i].key == op.key;
      WithoutAt(r, i);
      assert rest == Drop(r, i);
      DropByRecency(r, i, run, cfg, hash);
    } else {
      WithoutAbsent(r, op.key);
    }
    WithoutKeeps(r, op.key);
    forall i | 0 <= i < |rest|
      ensures LastUse(run + [op], rest[i].key, cfg, hash) == LastUse(run, rest[i].key, cfg, hash)
    {
      LastUseSnoc(run, op, rest[i].key, cfg, hash);
    }
    StillByRecency(rest, run, op, cfg, hash);
  }

  /** A used entry goes in front of them. */
  lemma UsedByRecency<V>(r: Recency<string, V>, item: Item<string, V>, op: Op<V>, run: seq<Op<V>>, cfg: Settings, hash: Hash)
    requires ByRecency(r, run, cfg, hash) && !op.Wipe? && item.key == op.key
    requires LastUse(run + [op], op.key, cfg, hash) == |run|
    ensures ByRecency([item] + Without(r, op.key), run + [op], cfg, hash)
  {
    WithoutByRecency(r, op, run, cfg, hash);
    FrontByRecency(item, Without(r, op.key), run + [op], cfg, hash);
  }

  lemma StoredByRecency<V>(r: Recency<string, V>, item: Item<string, V>, max: nat, op: Op<V>, run: seq<Op<V>>,
                           cfg: Settings, hash: Hash)
    requires ByRecency(r, run, cfg, hash) && !op.Wipe? && item.key == op.key
    requires LastUse(run + [op], op.key, cfg, hash) == |run|
    ensures ByRecency(Stored(r, item, max), run + [op], cfg, hash)
  {
    UsedByRecency(r, item, op, run, cfg, hash);
    TrimKeepsLongest([item] + Without(r, item.key), max);
  }

  /** The operation is a use of its key exactly when it says so of the shard. */
  ghost predicate UseKnown<V>(r: Recency<string, V>, op: Op<V>, run: seq<Op<V>>, cfg: Settings, hash: Hash)
    requires !op.Wipe?
  {
    LastUse(run + [op], op.key, cfg, hash) == if Uses(r, op, op.key, cfg) then |run| else LastUse(run, op.key, cfg, hash)
  }

  lemma LookedByRecency<V>(r: Recency<string, V>, op: Op<V>, run: seq<Op<V>>, cfg: Settings, hash: Hash)
    requires ByRecency(r, run, cfg, hash) && op.Look? && UseKnown(r, op, run, cfg, hash)
    ensures ByRecency(Got(r, op.key, op.now).1, run + [op], cfg, hash)
  {
    ByRecencyDistinct(r, run, cfg, hash);
    if !Holds(r, op.key) {
      FindAbsent(r, op.key);
      WithoutAbsent(r, op.key);
      WithoutByRecency(r, op, run, cfg, hash);
    } else {
      var i :| 0 <= i < |r| && r[i].key == op.key;
      FindAt(r, i);
      if Expired(r[i], op.now) {
        WithoutByRecency(r, op, run, cfg, hash);
      } else {
        UsedByRecency(r, r[i], op, run, cfg, hash);
      }
    }
  }

  lemma TouchedByRecency<V>(r: Recency<string, V>, op: Op<V>, run: seq<Op<V>>, cfg: Settings, hash: Hash)
    requires ByRecency(r, run, cfg, hash) && !op.Wipe? && UseKnown(r, op, run, cfg, hash)
    ensures ByRecency(Touched(r, op, cfg), run + [op], cfg, hash)
  {
    match op
    case Look(key, now) => LookedByRecency(r, op, run, cfg, hash);
    case Save(key, value, weight, now) =>
      StoredByRecency(r, Item(key, value, Charged(|key|, weight), Expiry(cfg.ttl, now)), Share(cfg.maxWeight),
                      op, run, cfg, hash);
    case SaveNegative(key, now) =>
      if NegativeTTL(cfg) > 0 {
        StoredByRecency(r, Item(key, None, Charged(|key|, 1), Some(now + NegativeTTL(cfg))), Share(cfg.maxWeight),
                        op, run, cfg, hash);
      } else {
        UnusedByRecency(r, op, run, cfg, hash);
      }
    case Forget(key) => WithoutByRecency(r, op, run, cfg, hash);
  }

  lemma UnusedByRecency<V>(r: Recency<string, V>, op: Op<V>, run: seq<Op<V>>, cfg: Settings, hash: Hash)
    requires ByRecency(r, run, cfg, hash) && op.SaveNegative? && NegativeTTL(cfg) <= 0
    ensures ByRecency(r, run + [op], cfg, hash)
  {
    forall i | 0 <= i < |r| ensures LastUse(run + [op], r[i].key, cfg, hash) == LastUse(run, r[i].key, cfg, hash) {
      LastUseSnoc(run, op, r[i].key, cfg, hash);
    }
    StillByRecency(r, run, op, cfg, hash);
  }

  lemma OtherShardByRecency<V>(run: seq<Op<V>>, op: Op<V>, k: nat, cfg: Settings, hash: Hash)
    requires !op.Wipe?
    requires var c := After(run, cfg, hash);
             k < |c| && hash(op.key) % |c| != k && Placed(c, hash) && ByRecency(c[k], run, cfg, hash)
    ensures ByRecency(After(run, cfg, hash)[k], run + [op], cfg, hash)
  {
    var r := After(run, cfg, hash)[k];
    forall i | 0 <= i < |r| ensures LastUse(run + [op], r[i].key, cfg, hash) == LastUse(run, r[i].key, cfg, hash) {
      LastUseSnoc(run, op, r[i].key, cfg, hash);
    }
    StillByRecency(r, run, op, cfg, hash);
  }

  /** After every run, of two keys in a shard the one used later comes first. */
  lemma {:induction false} ShardsByRecency<V>(run: seq<Op<V>>, cfg: Settings, hash: Hash, k: nat)
    requires k < |After(run, cfg, hash)|
    ensures ByRecency(After(run, cfg, hash)[k], run, cfg, hash)
  {
    if run != [] {
      var front, op := run[..|run| - 1], run[|run| - 1];
      var c := After(front, cfg, hash);
      assert run == front + [op];
      if !op.Wipe? {
        ShardsByRecency(front, cfg, hash, k);
        if k == hash(op.key) % |c| {
          LastUseSnoc(front, op, op.key, cfg, hash);
          TouchedByRecency(c[k], op, front, cfg, hash);
        } else {
          AfterUpToDate(front, cfg, hash);
          OtherShardByRecency(front, op, k, cfg, hash);
        }
      }
    }
  }

  lemma WithoutStillHolds<V>(r: Recency<string, V>, key: string, i: nat)
    requires Distinct(r) && i < |r| && r[i].key != key
    ensures Holds(Without(r, key), r[i].key)
  {
    assert Holds(r, r[i].key);
    if Holds(r, key) {
      var k :| 0 <= k < |r| && r[k].key == key;
      WithoutAt(r, k);
      DropDistinct(r, k);
    } else {
      WithoutAbsent(r, key);
    }
  }

  lemma TrimHolds<V>(r: Recency<string, V>, max: nat, p: nat)
    requires p < |Trim(r, max)|
    ensures p < |r| && Holds(Trim(r, max), r[p].key)
  {
    TrimKeepsLongest(r, max);
    assert Trim(r, max)[p] == r[p];
  }

  lemma TrimmedIsOldest<V>(r: Recency<string, V>, max: nat, p: nat, j: nat, run: seq<Op<V>>, cfg: Settings, hash: Hash)
    requires ByRecency(r, run, cfg, hash) && p < |r| && !Holds(Trim(r, max), r[p].key) && j < |Trim(r, max)|
    ensures LastUse(run, r[p].key, cfg, hash) < LastUse(run, Trim(r, max)[j].key, cfg, hash)
  {
    if p < |Trim(r, max)| {
      TrimHolds(r, max, p);
      assert false;
    }
    TrimKeepsLongest(r, max);
    assert Trim(r, max)[j] == r[j];
  }

  lemma EvictedByStore<V>(was: Recency<string, V>, item: Item<string, V>, op: Op<V>, run: seq<Op<V>>, i: nat, j: nat,
                          cfg: Settings, hash: Hash)
    requires ByRecency(was, run, cfg, hash) && !op.Wipe? && item.key == op.key
    requires LastUse(run + [op], op.key, cfg, hash) == |run|
    requires var now := Stored(was, item, Share(cfg.maxWeight));
             i < |was| && was[i].key != op.key && !Holds(now, was[i].key) && j < |now|
    ensures var now := Stored(was, item, Share(cfg.maxWeight));
            LastUse(run + [op], was[i].key, cfg, hash) < LastUse(run + [op], now[j].key, cfg, hash)
  {
    var all := [item] + Without(was, op.key);
    UsedByRecency(was, item, op, run, cfg, hash);
    ByRecencyDistinct(was, run, cfg, hash);
    var p := PlaceBehind(was, item, i);
    TrimmedIsOldest(all, Share(cfg.maxWeight), p, j, run + [op], cfg, hash);
  }

  lemma PlaceBehind<V>(was: Recency<string, V>, item: Item<string, V>, i: nat) returns (p: nat)
    requires Distinct(was) && i < |was| && was[i].key != item.key
    ensures var all := [item] + Without(was, item.key); p < |all| && all[p].key == was[i].key
  {
    var rest := Without(was, item.key);
    WithoutStillHolds(was, item.key, i);
    var q :| 0 <= q < |rest| && rest[q].key == was[i].key;
    p := q + 1;
  }

  lemma EvictedFromShard<V>(was: Recency<string, V>, op: Op<V>, run: seq<Op<V>>, i: nat, j: nat, cfg: Settings, hash: Hash)
    requires (op.Save? || op.SaveNegative?) && ByRecency(was, run, cfg, hash) && UseKnown(was, op, run, cfg, hash)
    requires var now := Touched(was, op, cfg);
             i < |was| && was[i].key != op.key && !Holds(now, was[i].key) && j < |now|
    ensures LastUse(run + [op], was[i].key, cfg, hash) < LastUse(run + [op], Touched(was, op, cfg)[j].key, cfg, hash)
  {
    if op.Save? {
      EvictedByStore(was, Item(op.key, op.value, Charged(|op.key|, op.weight), Expiry(cfg.ttl, op.now)),
                     op, run, i, j, cfg, hash);
    } else if NegativeTTL(cfg) > 0 {
      EvictedByStore(was, Item(op.key, None, Charged(|op.key|, 1), Some(op.now + NegativeTTL(cfg))),
                     op, run, i, j, cfg, hash);
    } else {
      assert Holds(was, was[i].key);
    }
  }

  lemma AfterTouched<V>(run: seq<Op<V>>, op: Op<V>, cfg: Settings, hash: Hash)
    requires !op.Wipe?
    ensures var c := After(run, cfg, hash);
            After(run + [op], cfg, hash)[hash(op.key) % |c|] == Touched(c[hash(op.key) % |c|], op, cfg)
  {
    assert (run + [op])[..|run|] == run;
  }

  /** The shard of an operation's key, before and after it. */
  ghost function ShardOf<V>(run: seq<Op<V>>, key: string, cfg: Settings, hash: Hash): Recency<string, V> {
    var c := After(run, cfg, hash); c[hash(key) % |c|]
  }

  /** A store evicts what was used longest ago: every entry it leaves in the shard was used later than one it evicts. */
  lemma EvictedIsOldest<V>(run: seq<Op<V>>, op: Op<V>, i: nat, j: nat, cfg: Settings, hash: Hash)
    requires op.Save? || op.SaveNegative?
    requires var was, now := ShardOf(run, op.key, cfg, hash), ShardOf(run + [op], op.key, cfg, hash);
             i < |was| && was[i].key != op.key && !Holds(now, was[i].key) && j < |now|
    ensures var was, now := ShardOf(run, op.key, cfg, hash), ShardOf(run + [op], op.key, cfg, hash);
            LastUse(run + [op], was[i].key, cfg, hash) < LastUse(run + [op], now[j].key, cfg, hash)
  {
    ShardsByRecency(run, cfg, hash, hash(op.key) % |After(run, cfg, hash)|);
    LastUseSnoc(run, op, op.key, cfg, hash);
    AfterTouched(run, op, cfg, hash);
    EvictedFromShard(ShardOf(run, op.key, cfg, hash), op, run, i, j, cfg, hash);
  }
}
