/**
 A shard of the weighted cache: a list of keys, most recently used first, a map from key to entry, and a running weight.
 The specification works on the entries in recency order; the list elements are named by their keys.
 */
module LruShards {
  import opened Options

  /** A cached entry; no value means "known absent". */
  datatype Item<K, V> = Item(key: K, value: Option<V>, weight: int, expires: Option<int>)

  type Recency<K, V> = seq<Item<K, V>>

  function Weight<K(==), V>(r: Recency<K, V>): int {
    if r == [] then 0 else Weight(r[..|r| - 1]) + r[|r| - 1].weight
  }

  function Without<K(==), V>(r: Recency<K, V>, key: K): Recency<K, V> {
    if r == [] then []
    else Without(r[..|r| - 1], key) + if r[|r| - 1].key == key then [] else [r[|r| - 1]]
  }

  /** Drops least recently used entries until the rest is light enough. */
  function Trim<K(==), V>(r: Recency<K, V>, max: int): Recency<K, V> {
    if r == [] || Weight(r) <= max then r else Trim(r[..|r| - 1], max)
  }

  predicate Distinct<K(==), V>(r: Recency<K, V>) {
    forall i, j :: 0 <= i < j < |r| ==> r[i].key != r[j].key
  }

  predicate Holds<K(==), V>(r: Recency<K, V>, key: K) {
    exists i :: 0 <= i < |r| && r[i].key == key
  }

  function Stored<K(==), V>(r: Recency<K, V>, item: Item<K, V>, max: int): Recency<K, V> {
    Trim([item] + Without(r, item.key), max)
  }

  // ---------------------------------------------------------------------------------------------
  // Trimming

  /** Trimming keeps the longest run of recently used entries that is light enough: the shortest tail goes. */
  lemma {:induction false} TrimKeepsLongest<K, V>(r: Recency<K, V>, max: nat)
    ensures var n := |Trim(r, max)|;
            n <= |r| && Trim(r, max) == r[..n] && Weight(r[..n]) <= max && forall m :: n < m <= |r| ==>
                Weight(r[..m]) > max
  {
    if r == [] || Weight(r) <= max {
      assert r[..|r|] == r;
    } else {
      var front := r[..|r| - 1];
      TrimKeepsLongest(front, max);
      forall m | |Trim(front, max)| < m <= |r| ensures Weight(r[..m]) > max {
        assert m == |r| ==> r[..m] == r;
        assert m < |r| ==> r[..m] == front[..m];
      }
      assert r[..|Trim(front, max)|] == front[..|Trim(front, max)|];
    }
  }

  lemma WeightFirst<K, V>(item: Item<K, V>, r: Recency<K, V>)
    ensures Weight([item] + r) == item.weight + Weight(r)
    decreases |r|
  {
    if r == [] {
      assert [item] + r == [item] && Weight([item]) == Weight<K, V>([]) + item.weight;
    } else {
      assert ([item] + r)[..|r|] == [item] + r[..|r| - 1];
      WeightFirst(item, r[..|r| - 1]);
    }
  }

  lemma {:induction false} WeightWithout<K, V>(r: Recency<K, V>, i: nat)
    requires i < |r|
    ensures Weight(r) == Weight(r[..i] + r[i + 1..]) + r[i].weight
  {
    if i == |r| - 1 {
      assert r[..i] + r[i + 1..] == r[..i];
    } else {
      var front := r[..|r| - 1];
      WeightWithout(front, i);
      var rest := r[..i] + r[i + 1..];
      assert rest[..|rest| - 1] == front[..i] + front[i + 1..] && rest[|rest| - 1] == r[|r| - 1];
    }
  }

  lemma {:induction false} WithoutAt<K, V>(r: Recency<K, V>, i: nat)
    requires i < |r| && Distinct(r)
    ensures Without(r, r[i].key) == r[..i] + r[i + 1..]
  {
    var front := r[..|r| - 1];
    if i == |r| - 1 {
      WithoutAbsent(front, r[i].key);
      assert r[..i] + r[i + 1..] == front;
    } else {
      WithoutAt(front, i);
      assert front[..i] + front[i + 1..] + [r[|r| - 1]] == r[..i] + r[i + 1..];
    }
  }

  lemma {:induction false} WithoutAbsent<K, V>(r: Recency<K, V>, key: K)
    requires forall i :: 0 <= i < |r| ==> r[i].key != key
    ensures Without(r, key) == r
  {
    if r != [] {
      WithoutAbsent(r[..|r| - 1], key);
    }
  }

  lemma {:induction false} WithoutKeeps<K, V>(r: Recency<K, V>, key: K)
    ensures forall i :: 0 <= i < |Without(r, key)| ==> Without(r, key)[i] in r && Without(r, key)[i].key != key
  {
    if r != [] {
      WithoutKeeps(r[..|r| - 1], key);
    }
  }

  /** An entry that fits on its own survives its own arrival, in front. */
  lemma StoredFits<K, V>(r: Recency<K, V>, item: Item<K, V>, max: nat)
    requires item.weight <= max
    ensures Stored(r, item, max) != [] && Stored(r, item, max)[0] == item
  {
    var all := [item] + Without(r, item.key);
    TrimKeepsLongest(all, max);
    assert all[..1] == [item] && Weight([item]) == Weight<K, V>([]) + item.weight;
  }

  lemma {:induction false} WeightNonNegative<K, V>(r: Recency<K, V>)
    requires forall i :: 0 <= i < |r| ==> 0 <= r[i].weight
    ensures 0 <= Weight(r)
  {
    if r != [] {
      WeightNonNegative(r[..|r| - 1]);
    }
  }

  /** An entry heavier than the shard empties it. */
  lemma StoredOversized<K, V>(r: Recency<K, V>, item: Item<K, V>, max: nat)
    requires item.weight > max && forall i :: 0 <= i < |r| ==> 0 <= r[i].weight
    ensures Stored(r, item, max) == []
  {
    var all := [item] + Without(r, item.key);
    WithoutKeeps(r, item.key);
    TrimKeepsLongest(all, max);
    var n := |Trim(all, max)|;
    if n > 0 {
      assert all[..n] == [item] + all[1..n];
      WeightFirst(item, all[1..n]);
      WeightNonNegative(all[1..n]);
    }
  }

  // ---------------------------------------------------------------------------------------------
  // The shard

  /** The fixed footprint charged on top of a value, with the length of its key. */
  function Charged(length: nat, weight: int): int {
    weight + 64 + length
  }

  predicate Expired<K(==), V>(item: Item<K, V>, now: int) {
    item.expires.Some? && now > item.expires.value
  }

  /** List and map in bijection, showing the entries `r` in list order. */
  ghost predicate Shows<K, V>(ll: seq<K>, items: map<K, Item<K, V>>, r: Recency<K, V>) {
    && |ll| == |r| && Distinct(r)
    && (forall i :: 0 <= i < |r| ==> ll[i] == r[i].key && r[i].key in items && items[r[i].key] == r[i])
    && (forall k :: k in items ==> Holds(r, k))
  }

  /** The list without its element `i`. */
  function Drop<T>(s: seq<T>, i: nat): (rest: seq<T>)
    requires i < |s|
    ensures |rest| == |s| - 1 && forall j :: 0 <= j < |rest| ==> rest[j] == s[if j < i then j else j + 1]
  {
    s[..i] + s[i + 1..]
  }

  lemma DropDistinct<K, V>(r: Recency<K, V>, i: nat)
    requires Distinct(r) && i < |r|
    ensures Distinct(Drop(r, i)) && !Holds(Drop(r, i), r[i].key)
    ensures forall k :: Holds(r, k) ==> Holds(Drop(r, i), k) || k == r[i].key
  {
    forall k | Holds(r, k) ensures Holds(Drop(r, i), k) || k == r[i].key {
      var j :| 0 <= j < |r| && r[j].key == k;
      if j != i {
        assert Drop(r, i)[if j < i then j else j - 1].key == k;
      }
    }
  }

  lemma ShowsDropped<K, V>(ll: seq<K>, items: map<K, Item<K, V>>, r: Recency<K, V>, i: nat)
    requires Shows(ll, items, r) && i < |r|
    ensures Shows(Drop(ll, i), items - {r[i].key}, Drop(r, i))
  {
    DropDistinct(r, i);
  }

  lemma ShowsPushed<K, V>(ll: seq<K>, items: map<K, Item<K, V>>, r: Recency<K, V>, item: Item<K, V>)
    requires Shows(ll, items, r) && item.key !in items
    ensures Shows([item.key] + ll, items[item.key := item], [item] + r)
  {
    var r' := [item] + r;
    assert forall j :: 0 < j < |r'| ==> r'[j] == r[j - 1] && r[j - 1].key != item.key;
    forall k | k in items[item.key := item] ensures Holds(r', k) {
      if k == item.key {
        assert r'[0].key == k;
      } else {
        var j :| 0 <= j < |r| && r[j].key == k;
        assert r'[j + 1].key == k;
      }
    }
  }

  lemma ShowsMoved<K, V>(ll: seq<K>, items: map<K, Item<K, V>>, r: Recency<K, V>, i: nat, item: Item<K, V>)
    requires Shows(ll, items, r) && i < |r| && item.key == r[i].key
    ensures Shows([item.key] + Drop(ll, i), items[item.key := item], [item] + Drop(r, i))
  {
    ShowsDropped(ll, items, r, i);
    ShowsPushed(Drop(ll, i), items - {item.key}, Drop(r, i), item);
    assert (items - {item.key})[item.key := item] == items[item.key := item];
  }

  lemma DropWeighs<K, V>(r: Recency<K, V>, i: nat)
    requires Distinct(r) && i < |r|
    ensures Drop(r, i) == Without(r, r[i].key) && Weight(Drop(r, i)) == Weight(r) - r[i].weight
  {
    WithoutAt(r, i);
    WeightWithout(r, i);
  }

  lemma Moved<K, V>(ll: seq<K>, items: map<K, Item<K, V>>, r: Recency<K, V>, i: nat, item: Item<K, V>,
                    moved: seq<K>, r': Recency<K, V>)
    requires Shows(ll, items, r) && i < |r| && item.key == r[i].key
    requires moved == [item.key] + Drop(ll, i) && r' == [item] + Without(r, item.key)
    ensures Shows(moved, items[item.key := item], r') && Weight(r') == Weight(r) + item.weight - r[i].weight
  {
    DropWeighs(r, i);
    ShowsMoved(ll, items, r, i, item);
    WeightFirst(item, Drop(r, i));
  }

  lemma ShowsAbsent<K, V>(ll: seq<K>, items: map<K, Item<K, V>>, r: Recency<K, V>, key: K)
    requires Shows(ll, items, r) && key !in items
    ensures Without(r, key) == r && Find(r, key) == None
  {
    WithoutAbsent(r, key);
    FindAbsent(r, key);
  }

  class Shard<K(==), V> {
    const max: nat
    var ll: seq<K>
    var items: map<K, Item<K, V>>
    var weight: int

    ghost var entries: Recency<K, V>

    /** List and map in bijection, and the running weight the sum of the entries'. */
    ghost predicate Valid()
      reads this
    {
      Shows(ll, items, entries) && weight == Weight(entries)
    }

    constructor (max: nat)
      ensures Valid() && entries == [] && weight == 0 && this.max == max
    {
      this.max, ll, items, weight, entries := max, [], map[], 0, [];
    }

    method Position(key: K) returns (i: nat)
      requires Valid() && key in items
      ensures i < |entries| && entries[i].key == key && entries[i] == items[key]
    {
      assert Holds(entries, key);
      i := 0;
      while ll[i] != key
        invariant i < |ll| && exists j :: i <= j < |entries| && entries[j].key == key
        decreases |ll| - i
      {
        i := i + 1;
      }
    }

    method RemoveLocked(key: K)
      requires Valid() && key in items
      modifies this
      ensures Valid() && entries == Without(old(entries), key) && |entries| == |old(entries)| - 1
    {
      var i := Position(key);
      ShowsDropped(ll, items, entries, i);
      DropWeighs(entries, i);
      weight := weight - items[key].weight;
      ll, items, entries := Drop(ll, i), items - {key}, Drop(entries, i);
    }

    /** The cached value unless it is missing or has expired; a hit becomes the most recently used entry. */
    method Get(key: K, now: int) returns (hit: Option<Option<V>>)
      requires Valid()
      modifies this
      ensures Valid() && (hit, entries) == Got(old(entries), key, now)
      ensures hit.Some? ==>
                exists i :: 0 <= i < |old(entries)| && old(entries)[i].key == key && InFront(old(entries), i, entries)
    {
      if key !in items {
        ShowsAbsent(ll, items, entries, key);
        return None;
      }
      var i := Position(key);
      FindAt(entries, i);
      if Expired(items[key], now) {
        RemoveLocked(key);
        return None;
      }
      HitMovesUp(entries, i, now);
      MoveToFront(key, i, items[key]);
      hit := Some(items[key].value);
    }

    /** Sets the entry of a key the shard has and moves it to the front. */
    method MoveToFront(key: K, i: nat, item: Item<K, V>)
      requires Valid() && i < |entries| && key == entries[i].key == item.key
      modifies this
      ensures Valid() && entries == [item] + Without(old(entries), key) && items == old(items)[key := item]
    {
      var moved := [key] + Drop(ll, i);
      ghost var r := [item] + Without(entries, key);
      Moved(ll, items, entries, i, item, moved, r);
      Become(moved, items[key := item], weight + item.weight - items[key].weight, r);
    }

    method Become(ll: seq<K>, items: map<K, Item<K, V>>, weight: int, ghost r: Recency<K, V>)
      requires Shows(ll, items, r) && weight == Weight(r)
      modifies this
      ensures Valid() && entries == r && this.items == items
    {
      this.ll, this.items, this.weight, entries := ll, items, weight, r;
    }

    method PushFront(item: Item<K, V>)
      requires Valid() && item.key !in items
      modifies this
      ensures Valid() && entries == [item] + Without(old(entries), item.key)
    {
      ShowsPushed(ll, items, entries, item);
      ShowsAbsent(ll, items, entries, item.key);
      WeightFirst(item, entries);
      weight := weight + item.weight;
      ll, items, entries := [item.key] + ll, items[item.key := item], [item] + entries;
    }

    /** Stores an entry in front and evicts from the back until the shard is light enough. */
    method Put(key: K, length: nat, value: Option<V>, bare: int, expires: Option<int>)
      requires Valid()
      modifies this
      ensures Valid() && weight <= max
      ensures entries == Stored(old(entries), Item(key, value, Charged(length, bare), expires), max)
    {
      var item := Item(key, value, Charged(length, bare), expires);
      if key in items {
        var i := Position(key);
        MoveToFront(key, i, item);
      } else {
        PushFront(item);
      }
      Evict();
    }

    method Evict()
      requires Valid()
      modifies this
      ensures Valid() && weight <= max && entries == Trim(old(entries), max)
    {
      while weight > max
        invariant Valid() && Trim(entries, max) == Trim(old(entries), max)
        decreases |entries|
      {
        ghost var r := entries;
        assert r != [];
        WithoutAt(r, |r| - 1);
        assert r[..|r| - 1] + r[|r|..] == r[..|r| - 1];
        RemoveLocked(ll[|ll| - 1]);
      }
    }

    method Remove(key: K)
      requires Valid()
      modifies this
      ensures Valid() && entries == Without(old(entries), key)
    {
      if key in items {
        RemoveLocked(key);
      } else {
        ShowsAbsent(ll, items, entries, key);
      }
    }

    method Clear()
      requires Valid()
      modifies this
      ensures Valid() && entries == []
    {
      ll, items, weight, entries := [], map[], 0, [];
    }
  }

  // ---------------------------------------------------------------------------------------------
  // Lookups on the recency list

  /** The first entry under a key. */
  function Find<K(==), V>(r: Recency<K, V>, key: K): Option<Item<K, V>> {
    if r == [] then None else if r[0].key == key then Some(r[0]) else Find(r[1..], key)
  }

  /** What a lookup returns and how it leaves the list. */
  function Got<K(==), V>(r: Recency<K, V>, key: K, now: int): (Option<Option<V>>, Recency<K, V>) {
    var found := Find(r, key);
    if found.None? then (None, r)
    else if Expired(found.value, now) then (None, Without(r, key))
    else (Some(found.value.value), [found.value] + Without(r, key))
  }

  lemma {:induction false} FindAt<K, V>(r: Recency<K, V>, i: nat)
    requires Distinct(r) && i < |r|
    ensures Find(r, r[i].key) == Some(r[i])
  {
    if i > 0 {
      FindAt(r[1..], i - 1);
    }
  }

  lemma {:induction false} FindAbsent<K, V>(r: Recency<K, V>, key: K)
    requires forall i :: 0 <= i < |r| ==> r[i].key != key
    ensures Find(r, key) == None
  {
    if r != [] {
      FindAbsent(r[1..], key);
    }
  }

  /** `after` has entry `i` of `before` first and all the others behind it, in the order they had. */
  ghost predicate InFront<K, V>(before: Recency<K, V>, i: nat, after: Recency<K, V>)
    requires i < |before|
  {
    && |after| == |before| && after[0] == before[i]
    && (forall j :: 0 <= j < i ==> after[j + 1] == before[j])
    && (forall j :: i < j < |before| ==> after[j] == before[j])
  }

  /** A hit is the most recently used entry from then on; the others keep their order. */
  lemma HitMovesUp<K, V>(r: Recency<K, V>, i: nat, now: int)
    requires Distinct(r) && i < |r| && !Expired(r[i], now)
    ensures Got(r, r[i].key, now).0 == Some(r[i].value) && InFront(r, i, Got(r, r[i].key, now).1)
  {
    FindAt(r, i);
    WithoutAt(r, i);
  }

  /** A miss leaves the list as it is, or without the entry whose time is over. */
  lemma MissLeavesRest<K, V>(r: Recency<K, V>, key: K, now: int)
    requires Distinct(r) && Got(r, key, now).0.None?
    ensures var after := Got(r, key, now).1;
            || (after == r && !Holds(r, key))
            || exists i :: 0 <= i < |r| && r[i].key == key && Expired(r[i], now) && after == r[..i] + r[i + 1..]
  {
    if Holds(r, key) {
      var i :| 0 <= i < |r| && r[i].key == key;
      FindAt(r, i);
      WithoutAt(r, i);
    } else {
      FindAbsent(r, key);
    }
  }
}
