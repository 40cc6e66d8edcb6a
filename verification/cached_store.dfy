/**
 The metadata cache in front of the mailbox store. Message lists are memoised per mailbox and dropped by every write that
 can change them; entries may also vanish at any time. Messages are objects: the memo keeps its own, and callers get
 theirs. A call the store refuses changes nothing.
 */
module CachedStore {
  import opened Options

  // ---------------------------------------------------------------------------------------------
  // Keys

  predicate NulFree(s: string) {
    '\0' !in s
  }

  function MsgsKey(account: string, mailbox: string): string {
    "msgs\0" + account + "\0" + mailbox
  }

  function MboxKey(account: string, mailbox: string): string {
    "mbox\0" + account + "\0" + mailbox
  }

  function MboxesKey(account: string): string {
    "mboxes\0" + account
  }

  lemma {:induction false} SplitsOnce(a: string, m: string, a': string, m': string)
    requires NulFree(a) && NulFree(a') && a + "\0" + m == a' + "\0" + m'
    ensures a == a' && m == m'
  {
    var s := a + "\0" + m;
    assert s[|a|] == '\0' && s[|a'|] == '\0';
    assert forall i :: 0 <= i < |a| ==> s[i] == a[i];
    assert forall i :: 0 <= i < |a'| ==> s[i] == a'[i];
    assert |a| == |a'|;
    assert a == s[..|a|] == a' && m == s[|a| + 1..] == m';
  }

  /** Different mailboxes have different keys, and the three kinds of entry never meet. */
  lemma KeysTellApart(a: string, m: string, a': string, m': string)
    requires NulFree(a) && NulFree(a')
    ensures MsgsKey(a, m) == MsgsKey(a', m') <==> a == a' && m == m'
    ensures MboxKey(a, m) == MboxKey(a', m') <==> a == a' && m == m'
    ensures MsgsKey(a, m) != MboxKey(a', m') && MsgsKey(a, m) != MboxesKey(a') && MboxKey(a, m) != MboxesKey(a')
  {
    assert MsgsKey(a, m)[1] == 's' && MboxKey(a', m')[1] == 'b' && MboxesKey(a')[1] == 'b';
    assert MboxKey(a, m)[4] == '\0' && MboxesKey(a')[4] == 'e';
    if MsgsKey(a, m) == MsgsKey(a', m') {
      assert MsgsKey(a, m)[5..] == a + "\0" + m && MsgsKey(a', m')[5..] == a' + "\0" + m';
      SplitsOnce(a, m, a', m');
    }
    if MboxKey(a, m) == MboxKey(a', m') {
      assert MboxKey(a, m)[5..] == a + "\0" + m && MboxKey(a', m')[5..] == a' + "\0" + m';
      SplitsOnce(a, m, a', m');
    }
  }

  /** With a NUL in an account name two mailboxes share an entry. */
  lemma NulCollides()
    ensures MsgsKey("a\0b", "c") == MsgsKey("a", "b\0c")
  {
    assert "a\0b" + "\0" + "c" == "a" + "\0" + "b\0c";
  }

  ghost predicate Shares(a: string, m: string, a': string, m': string) {
    (a, m) != (a', m') && MsgsKey(a, m) == MsgsKey(a', m')
  }

  lemma Moved(x: string, y: string, m: string)
    ensures Shares(x + "\0" + y, m, x, y + "\0" + m)
  {
    assert x + "\0" + y + "\0" + m == x + "\0" + (y + "\0" + m);
    assert MsgsKey(x + "\0" + y, m) == "msgs\0" + (x + "\0" + y + "\0" + m);
    assert MsgsKey(x, y + "\0" + m) == "msgs\0" + (x + "\0" + (y + "\0" + m));
  }

  lemma SplitAtNul(s: string) returns (x: string, y: string)
    requires !NulFree(s)
    ensures s == x + "\0" + y
  {
    var i :| 0 <= i < |s| && s[i] == '\0';
    x, y := s[..i], s[i + 1..];
  }

  lemma OneNul(a: string, m: string, a': string, m': string)
    requires NulFree(a) && NulFree(m) && a + "\0" + m == a' + "\0" + m'
    ensures a == a' && m == m'
  {
    var s := a + "\0" + m;
    assert s[|a'|] == '\0';
    assert forall i :: 0 <= i < |s| && s[i] == '\0' ==> i == |a|;
    assert a == s[..|a|] == a' && m == s[|a| + 1..] == m';
  }

  /** A mailbox shares its entry with no other exactly when neither of its names holds a NUL. */
  lemma KeyUniqueIff(a: string, m: string)
    ensures (forall a', m' :: !Shares(a, m, a', m')) <==> NulFree(a) && NulFree(m)
  {
    if !NulFree(a) {
      var x, y := SplitAtNul(a);
      Moved(x, y, m);
    } else if !NulFree(m) {
      var x, y := SplitAtNul(m);
      Moved(a, x, y);
      assert Shares(a, m, a + "\0" + x, y);
    } else {
      forall a', m' ensures !Shares(a, m, a', m') {
        if MsgsKey(a, m) == MsgsKey(a', m') {
          assert MsgsKey(a, m)[5..] == a + "\0" + m && MsgsKey(a', m')[5..] == a' + "\0" + m';
          OneNul(a, m, a', m');
        }
      }
    }
  }

  // ---------------------------------------------------------------------------------------------
  // The store behind the cache

  datatype MsgValue = MsgValue(uid: nat, flags: seq<string>, keywords: seq<string>)

  class Msg {
    var uid: nat
    var flags: seq<string>
    var keywords: seq<string>

    function Value(): MsgValue
      reads this
    {
      MsgValue(uid, flags, keywords)
    }

    constructor (v: MsgValue)
      ensures Value() == v
    {
      uid, flags, keywords := v.uid, v.flags, v.keywords;
    }
  }

  ghost function Values(ms: seq<Msg>): (vs: seq<MsgValue>)
    reads ms
    ensures |vs| == |ms| && forall i :: 0 <= i < |ms| ==> vs[i] == ms[i].Value()
  {
    seq(|ms|, i requires 0 <= i < |ms| reads ms => ms[i].Value())
  }

  /** Account and mailbox. */
  type Name = (string, string)

  datatype Box = Box(msgs: seq<MsgValue>, subscribed: bool)

  type Boxes = map<Name, Box>

  const DEFAULTS: set<string> := {"Trash", "Drafts", "Sent", "Junk"}

  /** Writes, with the contents they leave behind. */
  datatype Write =
    | Deliver(name: Name, msgs: seq<MsgValue>)                       // also Append: creates the mailbox when missing
    | Update(name: Name, msgs: seq<MsgValue>)                        // SetFlags, SetFlagsBatch, Expunge, DeleteUIDs
    | Create(name: Name)
    | Delete(name: Name)
    | Rename(account: string, from: string, to: string)
    // Copy and Move: nothing reaches the target when nothing is selected, else it is created when missing
    | Transfer(account: string, src: string, dst: string, srcMsgs: seq<MsgValue>, dstMsgs: Option<seq<MsgValue>>)
    | Subscribe(name: Name, subscribed: bool)
    | EnsureDefaults(account: string)
    | DeleteAccount(account: string)

  function Named(account: string, mailboxes: set<string>): set<Name> {
    set m | m in mailboxes :: (account, m)
  }

  /** The store after a write, or nothing when the store refuses it. */
  function Applied(boxes: Boxes, w: Write): Option<Boxes> {
    match w
    case Deliver(n, msgs) => Some(boxes[n := Box(msgs, n in boxes && boxes[n].subscribed)])
    case Update(n, msgs) => if n !in boxes then None else Some(boxes[n := boxes[n].(msgs := msgs)])
    case Create(n) => if n in boxes then None else Some(boxes[n := Box([], false)])
    case Delete(n) => if n !in boxes then None else Some(boxes - {n})
    case Rename(a, from, to) =>
      if (a, from) !in boxes || (a, to) in boxes then None
      else Some((boxes - {(a, from)})[(a, to) := boxes[(a, from)]])
    case Transfer(a, src, dst, srcMsgs, dstMsgs) =>
      if (a, src) !in boxes then None
      else
        var left := boxes[(a, src) := boxes[(a, src)].(msgs := srcMsgs)];
        Some(if dstMsgs.None? then left
             else left[(a, dst) := Box(dstMsgs.value, (a, dst) in boxes && boxes[(a, dst)].subscribed)])
    case Subscribe(n, subscribed) => if n !in boxes then None else Some(boxes[n := boxes[n].(subscribed := subscribed)])
    case EnsureDefaults(a) =>
      Some(map n | n in boxes.Keys + Named(a, DEFAULTS) ::
             var box := if n in boxes then boxes[n] else Box([], false);
             if n.0 == a && n.1 in DEFAULTS then box.(subscribed := true) else box)
    case DeleteAccount(a) => Some(map n | n in boxes && n.0 != a :: boxes[n])
  }

  /** The mailboxes whose message lists and statuses a write drops from the cache. */
  function Forgets(w: Write, n: Name): bool {
    match w
    case Deliver(m, _) => n == m
    case Update(m, _) => n == m
    case Delete(m) => n == m
    case Rename(a, from, to) => n == (a, from) || n == (a, to)
    case Transfer(a, src, dst, _, _) => n == (a, src) || n == (a, dst)
    case DeleteAccount(_) => true
    case Create(_) => false
    case Subscribe(_, _) => false
    case EnsureDefaults(_) => false
  }

  /** A list that is not dropped is still the mailbox's list: no other write changes it. */
  lemma KeptListIsCurrent(boxes: Boxes, w: Write, n: Name)
    requires n in boxes && Applied(boxes, w).Some? && !Forgets(w, n)
    ensures n in Applied(boxes, w).value && Applied(boxes, w).value[n].msgs == boxes[n].msgs
  {}

  lemma KeptListsAreCurrent(boxes: Boxes, w: Write, after: Boxes)
    requires Applied(boxes, w) == Some(after)
    ensures forall n :: n in boxes && !Forgets(w, n) ==> n in after && after[n].msgs == boxes[n].msgs
  {
    forall n | n in boxes && !Forgets(w, n) ensures n in after && after[n].msgs == boxes[n].msgs {
      KeptListIsCurrent(boxes, w, n);
    }
  }

  class Inner {
    var boxes: Boxes

    constructor ()
      ensures boxes == map[]
    {
      boxes := map[];
    }

    method Do(w: Write) returns (ok: bool)
      modifies this
      ensures ok == Applied(old(boxes), w).Some?
      ensures boxes == if ok then Applied(old(boxes), w).value else old(boxes)
    {
      var after := Applied(boxes, w);
      ok := after.Some?;
      if ok {
        boxes := after.value;
      }
    }

    /** A fresh list of the mailbox's messages. */
    method ListMessages(n: Name) returns (r: Option<seq<Msg>>)
      ensures r.Some? <==> n in boxes
      ensures r.Some? ==> Values(r.value) == boxes[n].msgs && fresh(r.value)
    {
      if n !in boxes {
        return None;
      }
      var ms := Build(boxes[n].msgs);
      r := Some(ms);
    }

    method MessageByUID(n: Name, uid: nat) returns (r: Option<Msg>)
      ensures r.Some? <==> n in boxes && Find(boxes[n].msgs, uid).Some?
      ensures r.Some? ==> Some(r.value.Value()) == Find(boxes[n].msgs, uid) && fresh(r.value)
    {
      if n !in boxes || Find(boxes[n].msgs, uid).None? {
        return None;
      }
      var m := new Msg(Find(boxes[n].msgs, uid).value);
      r := Some(m);
    }
  }

  /** The first message with a UID. */
  function Find(msgs: seq<MsgValue>, uid: nat): Option<MsgValue> {
    if msgs == [] then None else if msgs[0].uid == uid then Some(msgs[0]) else Find(msgs[1..], uid)
  }

  /** A message is found if and only if the list has one with the UID, and it is the first such. */
  lemma {:induction false} FindIsFirst(msgs: seq<MsgValue>, uid: nat)
    ensures Find(msgs, uid).None? <==> forall i :: 0 <= i < |msgs| ==> msgs[i].uid != uid
    ensures forall i :: 0 <= i < |msgs| && msgs[i].uid == uid && (forall j :: 0 <= j < i ==> msgs[j].uid != uid) ==>
              Find(msgs, uid) == Some(msgs[i])
  {
    if msgs != [] {
      FindIsFirst(msgs[1..], uid);
      forall i | 0 < i < |msgs| ensures msgs[i] == msgs[1..][i - 1] {}
    }
  }

  method Build(values: seq<MsgValue>) returns (ms: seq<Msg>)
    ensures Values(ms) == values && fresh(ms)
  {
    ms := [];
    for i := 0 to |values|
      invariant |ms| == i && fresh(ms) && forall j :: 0 <= j < i ==> ms[j].Value() == values[j]
    {
      var m := new Msg(values[i]);
      ms := ms + [m];
    }
  }

  /** Copies of messages, sharing nothing with them. */
  method CloneMessages(ms: seq<Msg>) returns (copies: seq<Msg>)
    ensures Values(copies) == Values(ms) && fresh(copies)
  {
    copies := [];
    for i := 0 to |ms|
      invariant |copies| == i && fresh(copies) && forall j :: 0 <= j < i ==> copies[j].Value() == ms[j].Value()
    {
      var m := new Msg(ms[i].Value());
      copies := copies + [m];
    }
  }

  // ---------------------------------------------------------------------------------------------
  // The cache

  datatype Status = Status(messages: nat, subscribed: bool)

  function StatusOf(box: Box): Status {
    Status(|box.msgs|, box.subscribed)
  }

  class Cached {
    const inner: Inner
    var lists: map<Name, seq<Msg>>
    var statuses: map<Name, Status>
    ghost var owned: set<Msg>

    /** Every memoised list is the store's, held in objects of the cache's own; statuses count the messages right. */
    ghost predicate Valid()
      reads this, inner, owned
    {
      && (forall n :: n in lists ==>
            && n in inner.boxes && (forall i :: 0 <= i < |lists[n]| ==> lists[n][i] in owned)
            && Values(lists[n]) == inner.boxes[n].msgs)
      && (forall n :: n in statuses ==> n in inner.boxes && statuses[n].messages == |inner.boxes[n].msgs|)
    }

    constructor (inner: Inner)
      ensures Valid() && this.inner == inner && owned == {} && lists == map[] && statuses == map[]
    {
      this.inner, lists, statuses, owned := inner, map[], map[], {};
    }

    /** What the cache's capacity and time limits may do at any moment. */
    method Evict(names: set<Name>)
      requires Valid()
      modifies this
      ensures Valid() && owned == old(owned)
      ensures lists == old(lists) - names && statuses == old(statuses) - names
    {
      lists, statuses := lists - names, statuses - names;
    }

    /** A write through the cache; on success what it may have changed is forgotten. */
    method Do(w: Write) returns (ok: bool)
      requires Valid()
      modifies this, inner
      ensures Valid() && owned == old(owned)
      ensures ok == Applied(old(inner.boxes), w).Some?
      ensures inner.boxes == if ok then Applied(old(inner.boxes), w).value else old(inner.boxes)
    {
      ghost var before := inner.boxes;
      ok := inner.Do(w);
      if ok {
        KeptListsAreCurrent(before, w, inner.boxes);
        var names := set n | n in lists.Keys + statuses.Keys && Forgets(w, n);
        Forget(names, before);
      }
    }

    method Forget(names: set<Name>, ghost before: Boxes)
      requires forall n :: n in lists ==>
                 && n in before && (forall i :: 0 <= i < |lists[n]| ==> lists[n][i] in owned)
                 && Values(lists[n]) == before[n].msgs
      requires forall n :: n in statuses ==> n in before && statuses[n].messages == |before[n].msgs|
      requires forall n :: (n in lists || n in statuses) && n !in names ==>
          n in inner.boxes && inner.boxes[n].msgs == before[n].msgs
      modifies this`lists, this`statuses
      ensures Valid() && lists == old(lists) - names && statuses == old(statuses) - names
    {
      lists, statuses := lists - names, statuses - names;
    }

    /** The messages of a mailbox, as the store would list them, in objects nobody else holds. */
    method ListMessages(n: Name) returns (r: Option<seq<Msg>>)
      requires Valid()
      modifies this
      ensures Valid() && old(owned) <= owned && fresh(owned - old(owned))
      ensures r.Some? <==> n in inner.boxes
      ensures r.Some? ==> Values(r.value) == inner.boxes[n].msgs && fresh(r.value)
      ensures r.Some? ==> forall i :: 0 <= i < |r.value| ==> r.value[i] !in owned
    {
      if n in lists {
        var copies := CloneMessages(lists[n]);
        return Some(copies);
      }
      r := inner.ListMessages(n);
      if r.None? {
        return;
      }
      var kept := CloneMessages(r.value);
      Keep(n, kept);
    }

    method Keep(n: Name, kept: seq<Msg>)
      requires Valid() && n in inner.boxes && Values(kept) == inner.boxes[n].msgs
      modifies this
      ensures Valid() && owned == old(owned) + (set i | 0 <= i < |kept| :: kept[i])
    {
      ghost var mine := set i | 0 <= i < |kept| :: kept[i];
      lists := lists[n := kept];
      owned := owned + mine;
    }

    /** One message, as the store would find it, in an object nobody else holds. */
    method MessageByUID(n: Name, uid: nat) returns (r: Option<Msg>)
      requires Valid()
      ensures r.Some? <==> n in inner.boxes && Find(inner.boxes[n].msgs, uid).Some?
      ensures r.Some? ==> Some(r.value.Value()) == Find(inner.boxes[n].msgs, uid) && fresh(r.value)
    {
      if n in lists {
        ghost var vs := Values(lists[n]);
        for i := 0 to |lists[n]|
          invariant Find(vs, uid) == Find(vs[i..], uid)
        {
          assert vs[i..][1..] == vs[i + 1..];
          if lists[n][i].uid == uid {
            var m := new Msg(lists[n][i].Value());
            return Some(m);
          }
        }
      }
      r := inner.MessageByUID(n, uid);
    }

    /** A mailbox's status; only its message count is kept current. */
    method MailboxStatus(n: Name) returns (r: Option<Status>)
      requires Valid()
      modifies this
      ensures Valid() && owned == old(owned) && (r.Some? <==> n in inner.boxes)
      ensures r.Some? ==> r.value.messages == |inner.boxes[n].msgs|
      ensures r.Some? && n !in old(statuses) ==>
          r.value == StatusOf(inner.boxes[n]) && n in statuses && statuses[n] == r.value
    {
      if n in statuses {
        return Some(statuses[n]);
      }
      if n !in inner.boxes {
        return None;
      }
      r := Some(StatusOf(inner.boxes[n]));
      statuses := statuses[n := r.value];
    }

    /** Changing a message a caller was given reaches neither the memo nor the store. */
    method CallerWrites(m: Msg, flags: seq<string>, keywords: seq<string>)
      requires Valid() && m !in owned
      modifies m
      ensures Valid() && m.Value() == MsgValue(old(m.uid), flags, keywords)
      ensures forall n :: n in lists ==> Values(lists[n]) == old(Values(lists[n]))
    {
      m.flags, m.keywords := flags, keywords;
    }
  }

  // ---------------------------------------------------------------------------------------------
  // The subscription in a memoised status

  /** Writes that turn a mailbox's subscription over. */
  predicate Resubscribes(w: Write, n: Name, subscribed: bool) {
    || w == Subscribe(n, !subscribed)
    || (w == EnsureDefaults(n.0) && n.1 in DEFAULTS && !subscribed)
  }

  /** A status kept across a write is right exactly when the write does not turn the subscription over. */
  lemma KeptStatusRightIff(boxes: Boxes, w: Write, n: Name)
    requires n in boxes && Applied(boxes, w).Some? && !Forgets(w, n)
    ensures n in Applied(boxes, w).value
    ensures StatusOf(Applied(boxes, w).value[n]) == StatusOf(boxes[n]) <==> !Resubscribes(w, n, boxes[n].subscribed)
  {
    KeptListIsCurrent(boxes, w, n);
  }

  /** And turning a subscription over does not drop the memoised status. */
  lemma SubscribeLeavesStatusStale(boxes: Boxes, n: Name)
    requires n in boxes
    ensures var w := Subscribe(n, !boxes[n].subscribed);
            Applied(boxes, w).Some? && !Forgets(w, n) && StatusOf(Applied(boxes, w).value[n]) != StatusOf(boxes[n])
  {}
}
