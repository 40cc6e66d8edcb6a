/**
 The memoised mailbox lists of the metadata cache. A list is an object; the memo keeps the very one that the caller of a
 miss is given, and hands out copies after that.
 */
module CachedLists {
  import opened Options

  datatype Row = Row(mailbox: string, attrs: seq<string>)

  class List {
    var rows: seq<Row>

    constructor (rows: seq<Row>)
      ensures this.rows == rows
    {
      this.rows := rows;
    }
  }

  class Lists {
    var inner: map<string, seq<Row>>
    var memo: map<string, List>

    /** No two accounts share a memoised list. */
    ghost predicate Valid()
      reads this
    {
      forall a, b :: a in memo && b in memo && memo[a] == memo[b] ==> a == b
    }

    /** The memo holds this very list. */
    ghost predicate Shared(l: List)
      reads this
    {
      exists a :: a in memo && memo[a] == l
    }

    /** What the next caller would be given. */
    ghost function Answer(account: string): Option<seq<Row>>
      reads this, memo.Values
    {
      if account in memo then Some(memo[account].rows)
      else if account in inner then Some(inner[account])
      else None
    }

    /** Every memoised list is the store's. */
    ghost predicate Current()
      reads this, memo.Values
    {
      forall a :: a in memo ==> a in inner && memo[a].rows == inner[a]
    }

    constructor ()
      ensures Valid() && inner == map[] && memo == map[]
    {
      inner, memo := map[], map[];
    }

    /** A new list with the answer in it, which the memo shares exactly when it had none for the account. */
    method ListMailboxes(account: string) returns (r: Option<List>)
      requires Valid()
      modifies this`memo
      ensures Valid() && (r.Some? <==> old(Answer(account)).Some?)
      ensures r.Some? ==> fresh(r.value) && Some(r.value.rows) == old(Answer(account))
      ensures r.Some? ==> (Shared(r.value) <==> account !in old(memo))
      ensures memo == if r.None? || account in old(memo) then old(memo) else old(memo)[account := r.value]
      ensures old(Current()) ==> Current()
    {
      if account in memo {
        var copy := new List(memo[account].rows);
        return Some(copy);
      }
      if account !in inner {
        return None;
      }
      var l := new List(inner[account]);
      memo := memo[account := l];
      assert account in memo && memo[account] == l;
      r := Some(l);
    }

    /** A write that may change an account's mailboxes drops their list. */
    method Write(account: string, rows: seq<Row>)
      requires Valid()
      modifies this
      ensures Valid() && inner == old(inner)[account := rows] && memo == old(memo) - {account}
      ensures old(Current()) ==> Current()
    {
      inner, memo := inner[account := rows], memo - {account};
    }

    /** Capacity and time limits. */
    method Evict(accounts: set<string>)
      requires Valid()
      modifies this`memo
      ensures Valid() && memo == old(memo) - accounts
      ensures old(Current()) ==> Current()
    {
      memo := memo - accounts;
    }

    /**
     A caller changes a list it holds. Later answers change exactly for the account, if any, whose memo is that list, and
     the memo stays the store's exactly when no such account has other mailboxes.
     */
    method CallerWrites(l: List, rows: seq<Row>)
      requires Valid()
      modifies l
      ensures Valid() && l.rows == rows
      ensures forall a :: Answer(a) == if a in memo && memo[a] == l then Some(rows) else old(Answer(a))
      ensures old(Current()) ==> (Current() <==> forall a :: a in memo && memo[a] == l ==> rows == inner[a])
    {
      l.rows := rows;
    }
  }

  /** What a caller does to its list reaches the next caller exactly when its own call was a miss. */
  method NextCallerSees(c: Lists, account: string, rows: seq<Row>) returns (next: Option<List>)
    requires c.Valid() && c.Answer(account).Some?
    modifies c`memo
    ensures next.Some?
    ensures next.value.rows == if account in old(c.memo) then old(c.memo[account].rows) else rows
  {
    var first := c.ListMailboxes(account);
    c.CallerWrites(first.value, rows);
    next := c.ListMailboxes(account);
  }
}
