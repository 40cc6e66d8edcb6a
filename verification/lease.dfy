/**
 A named lease in the KV store: whoever finds it free, expired or its own writes a record with a new expiry, inside one
 transaction. Owners use one time to live each.
 */
module Leases {
  import opened Options

  type Owner = nat

  datatype Record = Record(owner: Owner, until: int)

  const MINUTE := 60_000_000_000

  /** A time to live that is not positive would disable the lease; it becomes a minute. */
  function Clamped(ttl: int): (t: int)
    ensures t > 0
  {
    if ttl <= 0 then MINUTE else ttl
  }

  /** A foreign holder that has not expired. */
  predicate Blocked(cur: Option<Record>, owner: Owner, now: int) {
    cur.Some? && cur.value.owner != owner && cur.value.until > now
  }

  function Acquired(cur: Option<Record>, owner: Owner, ttl: int, now: int): Option<Record> {
    if Blocked(cur, owner, now) then cur else Some(Record(owner, now + Clamped(ttl)))
  }

  function Released(cur: Option<Record>, owner: Owner): Option<Record> {
    if cur.Some? && cur.value.owner == owner then None else cur
  }

  /** The lease record and the transactions on it. */
  class Store {
    var record: Option<Record>

    constructor ()
      ensures record == None
    {
      record := None;
    }

    method Acquire(owner: Owner, ttl: int, now: int) returns (held: bool)
      modifies this
      ensures held == !Blocked(old(record), owner, now)
      ensures record == Acquired(old(record), owner, ttl, now)
    {
      held := false;
      if record.Some? {
        if record.value.owner != owner && record.value.until > now {
          return;
        }
      }
      record := Some(Record(owner, now + Clamped(ttl)));
      held := true;
    }

    method Release(owner: Owner)
      modifies this
      ensures record == Released(old(record), owner)
    {
      if record.None? {
        return;
      }
      if record.value.owner != owner {
        return;
      }
      record := None;
    }
  }

  // ---------------------------------------------------------------------------------------------
  // Runs

  datatype Action = Acquire(owner: Owner, now: int) | Release(owner: Owner)

  /** The record after the first `k` actions. */
  ghost function After(run: seq<Action>, ttl: Owner -> int, k: nat): Option<Record>
    requires k <= |run|
  {
    if k == 0 then None
    else
      var before := After(run, ttl, k - 1);
      match run[k - 1]
      case Acquire(owner, now) => Acquired(before, owner, ttl(owner), now)
      case Release(owner) => Released(before, owner)
  }

  ghost predicate Succeeds(run: seq<Action>, ttl: Owner -> int, k: nat)
    requires k < |run|
  {
    run[k].Acquire? && !Blocked(After(run, ttl, k), run[k].owner, run[k].now)
  }

  /** One clock that does not run backwards. */
  ghost predicate Clocked(run: seq<Action>) {
    forall i, j :: 0 <= i < j < |run| && run[i].Acquire? && run[j].Acquire? ==> run[i].now <= run[j].now
  }

  ghost predicate NoRelease(run: seq<Action>, i: nat, j: nat, owner: Owner)
    requires j <= |run|
  {
    forall k :: i < k < j ==> run[k] != Release(owner)
  }

  /** Until its term is over the record stays the holder's, and is only extended. */
  lemma {:induction false} StaysHeld(run: seq<Action>, ttl: Owner -> int, i: nat, k: nat, end: int)
    requires Clocked(run) && i < k <= |run| && Succeeds(run, ttl, i) && NoRelease(run, i, k, run[i].owner)
    requires end == run[i].now + Clamped(ttl(run[i].owner))
    requires forall j :: i < j < k && run[j].Acquire? ==> run[j].now < end
    ensures var cur := After(run, ttl, k); cur.Some? && cur.value.owner == run[i].owner && cur.value.until >= end
    decreases k
  {
    if i + 1 < k {
      StaysHeld(run, ttl, i, k - 1, end);
    }
  }

  /** After an owner acquires at `t` and does not release, nobody else acquires with a reading below `t + ttl`. */
  lemma Exclusion(run: seq<Action>, ttl: Owner -> int, i: nat, j: nat)
    requires Clocked(run) && i < j < |run| && Succeeds(run, ttl, i) && NoRelease(run, i, j, run[i].owner)
    requires run[j].Acquire? && run[j].owner != run[i].owner && run[j].now < run[i].now + Clamped(ttl(run[i].owner))
    ensures !Succeeds(run, ttl, j)
  {
    StaysHeld(run, ttl, i, j, run[i].now + Clamped(ttl(run[i].owner)));
  }

  /** And the bound is exact: alone in between, another owner acquires from `t + ttl` on. */
  lemma ExpiryFrees(run: seq<Action>, ttl: Owner -> int, i: nat)
    requires i + 1 < |run| && Succeeds(run, ttl, i) && run[i + 1].Acquire?
    requires run[i + 1].now >= run[i].now + Clamped(ttl(run[i].owner))
    ensures Succeeds(run, ttl, i + 1)
  {
    assert After(run, ttl, i + 1) == Some(Record(run[i].owner, run[i].now + Clamped(ttl(run[i].owner))));
  }

  /** A release takes away nobody else's record, and makes the lease free for all when it was the owner's. */
  lemma ReleaseIsOwn(run: seq<Action>, ttl: Owner -> int, k: nat, other: Owner, now: int)
    requires k < |run| && run[k].Release?
    ensures var cur := After(run, ttl, k);
            if cur.Some? && cur.value.owner == run[k].owner then !Blocked(After(run, ttl, k + 1), other, now)
            else After(run, ttl, k + 1) == cur
  {}

  /** The holder always renews. */
  lemma HolderRenews(run: seq<Action>, ttl: Owner -> int, i: nat, j: nat)
    requires Clocked(run) && i < j < |run| && Succeeds(run, ttl, i) && NoRelease(run, i, j, run[i].owner)
    requires run[j].Acquire? && run[j].owner == run[i].owner && run[j].now < run[i].now + Clamped(ttl(run[i].owner))
    ensures Succeeds(run, ttl, j)
  {
    StaysHeld(run, ttl, i, j, run[i].now + Clamped(ttl(run[i].owner)));
  }
}
