/** What the cache keeps over any sequence of operations. */
module LruRuns {
  import opened Options
  import opened LruShards
  import opened LruCache

  ghost function After<V>(run: seq<Op<V>>, cfg: Settings, hash: Hash): (c: Contents<V>)
    ensures |c| == ShardsFor(cfg.maxWeight)
  {
    if run == [] then seq(ShardsFor(cfg.maxWeight), _ => [])
    else Step(After(run[..|run| - 1], cfg, hash), run[|run| - 1], cfg, hash)
  }

  /** The value of the last store under a key, unless the key was dropped since, and the last moment it may be served. */
  ghost function LastPut<V>(run: seq<Op<V>>, key: string, cfg: Settings): Option<(Option<V>, Option<int>)> {
    if run == [] then None
    else
      var before := LastPut(run[..|run| - 1], key, cfg);
      match run[|run| - 1]
      case Save(k, value, _, now) =>
        if k != key then before else Some((value, if cfg.ttl <= 0 then None else Some(now + cfg.ttl)))
      case SaveNegative(k, now) =>
        if k != key || (cfg.negTTL <= 0 && cfg.ttl <= 0) then before
        else Some((None, Some(now + if cfg.negTTL > 0 then cfg.negTTL else cfg.ttl)))
      case Forget(k) => if k == key then None else before
      case Wipe => None
      case Look(_, _) => before
  }

  // ---------------------------------------------------------------------------------------------
  // A hit is the last value stored

  ghost predicate UpToDate<V>(item: Item<string, V>, run: seq<Op<V>>, cfg: Settings) {
    LastPut(run, item.key, cfg) == Some((item.value, item.expires))
  }

  ghost predicate AllUpToDate<V>(r: Recency<string, V>, run: seq<Op<V>>, cfg: Settings) {
    forall i :: 0 <= i < |r| ==> UpToDate(r[i], run, cfg)
  }

  lemma LastPutSnoc<V>(run: seq<Op<V>>, op: Op<V>, key: string, cfg: Settings)
    ensures (op.Look? || (!op.Wipe? && op.key != key)) ==> LastPut(run + [op], key, cfg) == LastPut(run, key, cfg)
    ensures op.SaveNegative? && NegativeTTL(cfg) <= 0 ==> LastPut(run + [op], key, cfg) == LastPut(run, key, cfg)
    ensures op.Save? && op.key == key ==> LastPut(run + [op], key, cfg) == Some((op.value, Expiry(cfg.ttl, op.now)))
    ensures op.SaveNegative? && op.key == key && NegativeTTL(cfg) > 0 ==>
              LastPut(run + [op], key, cfg) == Some((None, Some(op.now + NegativeTTL(cfg))))
  {
    assert (run + [op])[..|run|] == run;
  }

  /** Entries left standing by an operation that does not concern their keys stay up to date. */
  lemma WithoutUpToDate<V>(r: Recency<string, V>, op: Op<V>, run: seq<Op<V>>, cfg: Settings)
    requires AllUpToDate(r, run, cfg) && !op.Wipe?
    ensures AllUpToDate(Without(r, op.key), run + [op], cfg)
  {
    WithoutKeeps(r, op.key);
    forall i | 0 <= i < |Without(r, op.key)| ensures UpToDate(Without(r, op.key)[i], run + [op], cfg) {
      LastPutSnoc(run, op, Without(r, op.key)[i].key, cfg);
    }
  }

  lemma StoredUpToDate<V>(r: Recency<string, V>, item: Item<string, V>, op: Op<V>, run: seq<Op<V>>,
                          cfg: Settings, max: nat)
    requires AllUpToDate(r, run, cfg) && !op.Wipe? && item.key == op.key && UpToDate(item, run + [op], cfg)
    ensures AllUpToDate(Stored(r, item, max), run + [op], cfg)
  {
    WithoutUpToDate(r, op, run, cfg);
    TrimKeepsLongest([item] + Without(r, item.key), max);
  }

  lemma {:induction false} FindFinds<V>(r: Recency<string, V>, key: string)
    ensures Find(r, key).Some? ==> Find(r, key).value in r && Find(r, key).value.key == key
  {
    if r != [] {
      FindFinds(r[1..], key);
    }
  }

  lemma GotUpToDate<V>(r: Recency<string, V>, key: string, now: int, run: seq<Op<V>>, cfg: Settings)
    requires AllUpToDate(r, run, cfg)
    ensures AllUpToDate(Got(r, key, now).1, run + [Look(key, now)], cfg)
  {
    var op: Op<V> := Look(key, now);
    WithoutUpToDate(r, op, run, cfg);
    FindFinds(r, key);
    forall i | 0 <= i < |r| ensures UpToDate(r[i], run + [op], cfg) {
      LastPutSnoc(run, op, r[i].key, cfg);
    }
  }

  lemma TouchedUpToDate<V>(r: Recency<string, V>, op: Op<V>, run: seq<Op<V>>, cfg: Settings)
    requires AllUpToDate(r, run, cfg)
    ensures AllUpToDate(Touched(r, op, cfg), run + [op], cfg)
  {
    match op
    case Look(key, now) => GotUpToDate(r, key, now, run, cfg);
    case Save(key, value, weight, now) =>
      LastPutSnoc(run, op, key, cfg);
      StoredUpToDate(r, Item(key, value, Charged(|key|, weight), Expiry(cfg.ttl, now)), op, run, cfg, Share(cfg.maxWeight));
    case SaveNegative(key, now) =>
      if NegativeTTL(cfg) <= 0 {
        forall i | 0 <= i < |r| ensures UpToDate(r[i], run + [op], cfg) {
          LastPutSnoc(run, op, r[i].key, cfg);
        }
      } else {
        LastPutSnoc(run, op, key, cfg);
        StoredUpToDate(r, Item(key, None, Charged(|key|, 1), Some(now + NegativeTTL(cfg))), op, run, cfg, Share(cfg.maxWeight));
      }
    case Forget(key) => WithoutUpToDate(r, op, run, cfg);
    case Wipe =>
  }

  /** Every key is in the shard its hash names. */
  ghost predicate Placed<V>(c: Contents<V>, hash: Hash) {
    forall k, i :: 0 <= k < |c| && 0 <= i < |c[k]| ==> hash(c[k][i].key) % |c| == k
  }

  lemma OtherShardUpToDate<V>(c: Contents<V>, k: nat, op: Op<V>, run: seq<Op<V>>, cfg: Settings, hash: Hash)
    requires k < |c| && Placed(c, hash) && AllUpToDate(c[k], run, cfg) && !op.Wipe? && hash(op.key) % |c| != k
    ensures AllUpToDate(c[k], run + [op], cfg)
  {
    forall i | 0 <= i < |c[k]| ensures UpToDate(c[k][i], run + [op], cfg) {
      LastPutSnoc(run, op, c[k][i].key, cfg);
    }
  }

  ghost predicate KeysFrom<V>(now: Recency<string, V>, r: Recency<string, V>, key: string) {
    forall i :: 0 <= i < |now| ==> now[i].key == key || now[i] in r
  }

  lemma StoredKeys<V>(r: Recency<string, V>, item: Item<string, V>, max: nat)
    ensures KeysFrom(Stored(r, item, max), r, item.key)
  {
    WithoutKeeps(r, item.key);
    TrimKeepsLongest([item] + Without(r, item.key), max);
  }

  lemma TouchedKeys<V>(r: Recency<string, V>, op: Op<V>, cfg: Settings)
    requires !op.Wipe?
    ensures KeysFrom(Touched(r, op, cfg), r, op.key)
  {
    match op
    case Look(key, now) =>
      WithoutKeeps(r, key);
      FindFinds(r, key);
    case Save(key, value, weight, now) =>
      StoredKeys(r, Item(key, value, Charged(|key|, weight), Expiry(cfg.ttl, now)), Share(cfg.maxWeight));
    case SaveNegative(key, now) =>
      StoredKeys(r, Item(key, None, Charged(|key|, 1), Some(now + NegativeTTL(cfg))), Share(cfg.maxWeight));
    case Forget(key) => WithoutKeeps(r, key);
  }

  lemma StepPlaced<V>(c: Contents<V>, op: Op<V>, cfg: Settings, hash: Hash)
    requires c != [] && Placed(c, hash)
    ensures Placed(Step(c, op, cfg, hash), hash)
  {
    if !op.Wipe? {
      TouchedKeys(c[hash(op.key) % |c|], op, cfg);
    }
  }

  lemma {:induction false} AfterUpToDate<V>(run: seq<Op<V>>, cfg: Settings, hash: Hash)
    ensures Placed(After(run, cfg, hash), hash)
    ensures forall k :: 0 <= k < |After(run, cfg, hash)| ==> AllUpToDate(After(run, cfg, hash)[k], run, cfg)
  {
    if run != [] {
      var front, op := run[..|run| - 1], run[|run| - 1];
      var c := After(front, cfg, hash);
      AfterUpToDate(front, cfg, hash);
      StepPlaced(c, op, cfg, hash);
      assert run == front + [op];
      if !op.Wipe? {
        forall k | 0 <= k < |c| ensures AllUpToDate(Step(c, op, cfg, hash)[k], run, cfg) {
          if k == hash(op.key) % |c| {
            TouchedUpToDate(c[k], op, front, cfg);
          } else {
            OtherShardUpToDate(c, k, op, front, cfg, hash);
          }
        }
      }
    }
  }

  /** A hit returns the last value stored under the key, and not after its time; nothing dropped is ever returned. */
  lemma HitIsLastPut<V>(run: seq<Op<V>>, key: string, now: int, cfg: Settings, hash: Hash)
    ensures var c := After(run, cfg, hash);
            var hit := Got(c[hash(key) % |c|], key, now).0;
            hit.Some? ==> var last := LastPut(run, key, cfg);
                          last.Some? && last.value.0 == hit.value && (last.value.1.Some? ==> now <= last.value.1.value)
  {
    AfterUpToDate(run, cfg, hash);
    var c := After(run, cfg, hash);
    FindFinds(c[hash(key) % |c|], key);
  }

  /** And a value that fits its shard is found right after it was stored, until its time is over. */
  lemma PutThenHit<V>(run: seq<Op<V>>, key: string, value: Option<V>, weight: int, now: int, later: int,
                      cfg: Settings, hash: Hash)
    requires Charged(|key|, weight) <= Share(cfg.maxWeight) && (cfg.ttl > 0 ==> later <= now + cfg.ttl)
    ensures var c := After(run + [Save(key, value, weight, now)], cfg, hash);
            Got(c[hash(key) % |c|], key, later).0 == Some(value)
  {
    var op: Op<V> := Save(key, value, weight, now);
    assert (run + [op])[..|run|] == run;
    var c := After(run, cfg, hash);
    StoredFits(c[hash(key) % |c|], Item(key, value, Charged(|key|, weight), Expiry(cfg.ttl, now)), Share(cfg.maxWeight));
  }

  // ---------------------------------------------------------------------------------------------
  // The capacity holds

  ghost predicate Charges<V>(r: Recency<string, V>) {
    forall i :: 0 <= i < |r| ==> 0 <= r[i].weight
  }

  lemma WeightSnoc<V>(r: Recency<string, V>, item: Item<string, V>)
    ensures LruShards.Weight(r + [item]) == LruShards.Weight(r) + item.weight
  {
    assert (r + [item])[..|r|] == r;
  }

  /** Taking entries out of a list of non-negative weights does not make it heavier. */
  lemma {:induction false} WithoutLighter<V>(r: Recency<string, V>, key: string)
    requires Charges(r)
    ensures LruShards.Weight(Without(r, key)) <= LruShards.Weight(r)
  {
    if r != [] {
      var front, last := r[..|r| - 1], r[|r| - 1];
      WithoutLighter(front, key);
      if last.key != key {
        WeightSnoc(Without(front, key), last);
      } else {
        assert Without(front, key) + [] == Without(front, key);
      }
    }
  }

  lemma {:induction false} WithoutItemLighter<V>(r: Recency<string, V>, item: Item<string, V>)
    requires Charges(r) && item in r
    ensures LruShards.Weight(Without(r, item.key)) + item.weight <= LruShards.Weight(r)
  {
    var front, last := r[..|r| - 1], r[|r| - 1];
    if last == item {
      WithoutLighter(front, item.key);
      assert Without(front, item.key) + [] == Without(front, item.key);
    } else {
      assert r == front + [last];
      WithoutItemLighter(front, item);
      if last.key != item.key {
        WeightSnoc(Without(front, item.key), last);
      } else {
        assert Without(front, item.key) + [] == Without(front, item.key);
      }
    }
  }

  lemma StoredBounded<V>(r: Recency<string, V>, item: Item<string, V>, max: nat)
    requires Charges(r) && 0 <= item.weight
    ensures Charges(Stored(r, item, max)) && LruShards.Weight(Stored(r, item, max)) <= max
  {
    WithoutKeeps(r, item.key);
    TrimKeepsLongest([item] + Without(r, item.key), max);
  }

  lemma GotBounded<V>(r: Recency<string, V>, key: string, now: int)
    requires Charges(r)
    ensures Charges(Got(r, key, now).1) && LruShards.Weight(Got(r, key, now).1) <= LruShards.Weight(r)
  {
    WithoutKeeps(r, key);
    FindFinds(r, key);
    var found := Find(r, key);
    if found.Some? {
      WithoutItemLighter(r, found.value);
      WeightFirst(found.value, Without(r, key));
    }
  }

  /** The callers' part: a stored weight is not negative, once the footprint is added. */
  ghost predicate Sane<V>(op: Op<V>) {
    op.Save? ==> 0 <= Charged(|op.key|, op.weight)
  }

  lemma TouchedBounded<V>(r: Recency<string, V>, op: Op<V>, cfg: Settings)
    requires Charges(r) && LruShards.Weight(r) <= Share(cfg.maxWeight) && Sane(op)
    ensures Charges(Touched(r, op, cfg)) && LruShards.Weight(Touched(r, op, cfg)) <= Share(cfg.maxWeight)
  {
    match op
    case Look(key, now) => GotBounded(r, key, now);
    case Save(key, value, weight, now) =>
      StoredBounded(r, Item(key, value, Charged(|key|, weight), Expiry(cfg.ttl, now)), Share(cfg.maxWeight));
    case SaveNegative(key, now) =>
      if NegativeTTL(cfg) > 0 {
        StoredBounded(r, Item(key, None, Charged(|key|, 1), Some(now + NegativeTTL(cfg))), Share(cfg.maxWeight));
      }
    case Forget(key) =>
      WithoutKeeps(r, key);
      WithoutLighter(r, key);
    case Wipe =>
  }

  ghost predicate Bounded<V>(c: Contents<V>, share: nat) {
    forall k :: 0 <= k < |c| ==> Charges(c[k]) && LruShards.Weight(c[k]) <= share
  }

  lemma StepBounded<V>(c: Contents<V>, op: Op<V>, cfg: Settings, hash: Hash)
    requires c != [] && Bounded(c, Share(cfg.maxWeight)) && Sane(op)
    ensures Bounded(Step(c, op, cfg, hash), Share(cfg.maxWeight))
  {
    if !op.Wipe? {
      var k := hash(op.key) % |c|;
      TouchedBounded(c[k], op, cfg);
    }
  }

  lemma {:induction false} AfterBounded<V>(run: seq<Op<V>>, cfg: Settings, hash: Hash)
    requires forall i :: 0 <= i < |run| ==> Sane(run[i])
    ensures Bounded(After(run, cfg, hash), Share(cfg.maxWeight))
  {
    if run != [] {
      AfterBounded(run[..|run| - 1], cfg, hash);
      StepBounded(After(run[..|run| - 1], cfg, hash), run[|run| - 1], cfg, hash);
    }
  }

  lemma SharesFit(maxWeight: int)
    ensures ShardsFor(maxWeight) * Share(maxWeight) <= Capacity(maxWeight)
  {
    if ShardsFor(maxWeight) == 1 {
      assert Share(maxWeight) == Capacity(maxWeight);
    } else {
      assert Share(maxWeight) == Capacity(maxWeight) / 16;
    }
  }

  lemma {:induction false} TotalOfShares<V>(c: Contents<V>, share: nat)
    requires Bounded(c, share)
    ensures TotalWeight(c) <= |c| * share
  {
    if c != [] {
      TotalOfShares(c[..|c| - 1], share);
    }
  }

  /** The total over all shards never exceeds the capacity asked for. */
  lemma TotalBounded<V>(run: seq<Op<V>>, cfg: Settings, hash: Hash)
    requires forall i :: 0 <= i < |run| ==> Sane(run[i])
    ensures TotalWeight(After(run, cfg, hash)) <= Capacity(cfg.maxWeight)
  {
    AfterBounded(run, cfg, hash);
    TotalOfShares(After(run, cfg, hash), Share(cfg.maxWeight));
    SharesFit(cfg.maxWeight);
  }

  // ---------------------------------------------------------------------------------------------
  // Negative weights: only a store evicts

  function Burden(weight: int): nat {
    if weight < 0 then 0 else weight
  }

  /** The weight of a list without regard to its negative entries. */
  function Positive<V>(r: Recency<string, V>): nat {
    if r == [] then 0 else Positive(r[..|r| - 1]) + Burden(r[|r| - 1].weight)
  }

  lemma {:induction false} WeightAtMostPositive<V>(r: Recency<string, V>)
    ensures LruShards.Weight(r) <= Positive(r)
    ensures Charges(r) ==> LruShards.Weight(r) == Positive(r)
  {
    if r != [] {
      WeightAtMostPositive(r[..|r| - 1]);
    }
  }

  lemma {:induction false} PositiveFirst<V>(item: Item<string, V>, r: Recency<string, V>)
    ensures Positive([item] + r) == Burden(item.weight) + Positive(r)
  {
    if r == [] {
      assert [item] + r == [item] && Positive([item]) == Positive<V>([]) + Burden(item.weight);
    } else {
      assert ([item] + r)[..|r|] == [item] + r[..|r| - 1];
      PositiveFirst(item, r[..|r| - 1]);
    }
  }

  lemma {:induction false} PositiveDrop<V>(r: Recency<string, V>, i: nat)
    requires i < |r|
    ensures Positive(r) == Positive(Drop(r, i)) + Burden(r[i].weight)
  {
    if i == |r| - 1 {
      assert Drop(r, i) == r[..i];
    } else {
      var front, rest := r[..|r| - 1], Drop(r, i);
      PositiveDrop(front, i);
      assert rest[..|rest| - 1] == Drop(front, i) && rest[|rest| - 1] == r[|r| - 1];
    }
  }

  /** Lookups and removals: the operations that run no eviction. */
  predicate Passive<V>(op: Op<V>) {
    op.Look? || op.Forget?
  }

  /** They leave the list as it is, drop an entry, or bring one to the front. */
  lemma PassiveForms<V>(r: Recency<string, V>, op: Op<V>, cfg: Settings)
    requires Distinct(r) && Passive(op)
    ensures var now := Touched(r, op, cfg);
            now == r || exists i :: 0 <= i < |r| && (now == Drop(r, i) || now == [r[i]] + Drop(r, i))
  {
    if Holds(r, op.key) {
      var i :| 0 <= i < |r| && r[i].key == op.key;
      WithoutAt(r, i);
      FindAt(r, i);
    } else {
      WithoutAbsent(r, op.key);
      FindAbsent(r, op.key);
    }
  }

  lemma DroppedKeeps<V>(r: Recency<string, V>, i: nat)
    requires Distinct(r) && i < |r|
    ensures Distinct(Drop(r, i)) && Positive(Drop(r, i)) <= Positive(r)
    ensures Distinct([r[i]] + Drop(r, i)) && Positive([r[i]] + Drop(r, i)) == Positive(r)
  {
    DropDistinct(r, i);
    PositiveDrop(r, i);
    PositiveFirst(r[i], Drop(r, i));
  }

  lemma PassiveKeeps<V>(r: Recency<string, V>, op: Op<V>, cfg: Settings)
    requires Distinct(r) && Passive(op)
    ensures Distinct(Touched(r, op, cfg)) && Positive(Touched(r, op, cfg)) <= Positive(r)
  {
    var now := Touched(r, op, cfg);
    PassiveForms(r, op, cfg);
    if now != r {
      var i :| 0 <= i < |r| && (now == Drop(r, i) || now == [r[i]] + Drop(r, i));
      DroppedKeeps(r, i);
    }
  }

  ghost function Left<V>(r: Recency<string, V>, ops: seq<Op<V>>, cfg: Settings): Recency<string, V>
    decreases |ops|
  {
    if ops == [] then r else Left(Touched(r, ops[0], cfg), ops[1..], cfg)
  }

  ghost predicate AllPassive<V>(ops: seq<Op<V>>) {
    forall i :: 0 <= i < |ops| ==> Passive(ops[i])
  }

  lemma {:induction false} PassiveBounded<V>(r: Recency<string, V>, ops: seq<Op<V>>, cfg: Settings)
    requires Distinct(r) && AllPassive(ops)
    ensures LruShards.Weight(Left(r, ops, cfg)) <= Positive(r)
    decreases |ops|
  {
    if ops == [] {
      WeightAtMostPositive(r);
    } else {
      PassiveKeeps(r, ops[0], cfg);
      PassiveBounded(Touched(r, ops[0], cfg), ops[1..], cfg);
    }
  }

  /** Removing every negative entry leaves just the others. */
  lemma {:induction false} NegativesForgotten<V>(r: Recency<string, V>, cfg: Settings) returns (ops: seq<Op<V>>)
    requires Distinct(r)
    ensures AllPassive(ops) && LruShards.Weight(Left(r, ops, cfg)) == Positive(r)
    decreases |r|
  {
    if Charges(r) {
      ops := [];
      WeightAtMostPositive(r);
    } else {
      var i :| 0 <= i < |r| && r[i].weight < 0;
      var rest := Drop(r, i);
      DropDistinct(r, i);
      PositiveDrop(r, i);
      var more := NegativesForgotten(rest, cfg);
      ops := [Forget(r[i].key)] + more;
      WithoutAt(r, i);
      assert Touched(r, ops[0], cfg) == rest && ops[1..] == more;
    }
  }

  /** No lookups and removals take the shard over `max`. */
  ghost predicate StaysWithin<V(!new)>(r: Recency<string, V>, max: int, cfg: Settings) {
    forall ops :: AllPassive(ops) ==> LruShards.Weight(Left(r, ops, cfg)) <= max
  }

  /** Between two stores a shard is sure to stay within bounds exactly when its non-negative weights alone fit. */
  lemma StaysWithinIff<V(!new)>(r: Recency<string, V>, max: int, cfg: Settings)
    requires Distinct(r)
    ensures StaysWithin(r, max, cfg) <==> Positive(r) <= max
  {
    if StaysWithin(r, max, cfg) {
      var ops := NegativesForgotten(r, cfg);
    }
    if Positive(r) <= max {
      forall ops: seq<Op<V>> | AllPassive(ops) ensures LruShards.Weight(Left(r, ops, cfg)) <= max {
        PassiveBounded(r, ops, cfg);
      }
    }
  }

  /** With a negative weight the bound can be broken by removing the entry that carried it. */
  lemma NegativeWeightBreaksBound() returns (r: Recency<string, int>)
    ensures LruShards.Weight(r) <= 100 && LruShards.Weight(Without(r, "a")) > 100
    ensures r == Stored(Stored([], Item("a", Some(1), Charged(1, -200), None), 100), Item("b", Some(2), Charged(1, 100), None), 100)
  {
    var a, b := Item("a", Some(1), -135, None), Item("b", Some(2), 165, None);
    assert Without<string, int>([], "a") == [] && [a] + [] == [a];
    assert LruShards.Weight([a]) == LruShards.Weight<string, int>([]) + a.weight;
    assert Stored([], a, 100) == [a];
    WithoutAbsent([a], "b");
    r := [b, a];
    assert [b] + [a] == r && r[..1] == [b];
    assert LruShards.Weight([b]) == LruShards.Weight<string, int>([]) + b.weight;
    assert LruShards.Weight(r) == 30;
    WithoutAt(r, 1);
    assert r[..1] + r[2..] == [b];
  }
}
