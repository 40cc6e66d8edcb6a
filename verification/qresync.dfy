/**
 The resynchronisation payload of a SELECT (section 3.2.5 of RFC 7162): VANISHED UIDs read from the tombstone log by
 one range scan over big-endian keys, and flag updates taken from the listing.
 */
module QResync {
  import opened Options
  import opened ByteKeys
  import opened Sorting
  import opened Mailbox

  // ---------------------------------------------------------------------------------------------
  // The tombstone log

  function TombKey(prefix: Bytes, modSeq: nat, uid: nat): Bytes {
    prefix + (BigEndian(modSeq, 8) + BigEndian(uid, 8))
  }

  /** One past the mark, in 64-bit arithmetic. */
  function NextModSeq(since: nat): nat {
    (since + 1) % (MAX_U64 + 1)
  }

  function ScanStart(prefix: Bytes, since: nat): Bytes {
    prefix + (BigEndian(NextModSeq(since), 8) + [])
  }

  const ALL_ONES: Bytes := [255, 255, 255, 255, 255, 255, 255, 255]

  function ScanEnd(prefix: Bytes): Bytes {
    prefix + (ALL_ONES + [])
  }

  lemma BigEndianSnoc(n: nat, x: Byte, w: nat)
    ensures BigEndian(256 * n + x, w + 1) == BigEndian(n, w) + [x]
  {}

  lemma AllOnesIsMax()
    ensures BigEndian(MAX_U64, 8) == ALL_ONES
  {
    assert BigEndian(0xFF, 1) == [255];
    BigEndianSnoc(0xFF, 255, 1);
    BigEndianSnoc(0xFFFF, 255, 2);
    BigEndianSnoc(0xFF_FFFF, 255, 3);
    BigEndianSnoc(0xFFFF_FFFF, 255, 4);
    BigEndianSnoc(0xFF_FFFF_FFFF, 255, 5);
    BigEndianSnoc(0xFFFF_FFFF_FFFF, 255, 6);
    BigEndianSnoc(0xFF_FFFF_FFFF_FFFF, 255, 7);
  }

  /** Exactly which tombstones the scan from a mark visits: the largest mark wraps, the largest number is cut off. */
  lemma TombInRange(prefix: Bytes, modSeq: nat, uid: nat, since: nat)
    requires modSeq <= MAX_U64 && uid <= MAX_U64 && since <= MAX_U64
    ensures AtOrAfter(TombKey(prefix, modSeq, uid), ScanStart(prefix, since))
            && Before(TombKey(prefix, modSeq, uid), ScanEnd(prefix))
       <==> NextModSeq(since) <= modSeq < MAX_U64
  {
    var tail := BigEndian(uid, 8);
    AllOnesIsMax();
    BeforeSamePrefix(prefix, BigEndian(modSeq, 8) + tail, BigEndian(NextModSeq(since), 8) + []);
    BeforeSamePrefix(prefix, BigEndian(modSeq, 8) + tail, ALL_ONES + []);
    ExtendedOrder(modSeq, tail, NextModSeq(since));
    ExtendedOrder(modSeq, tail, MAX_U64);
  }

  /** The keys under a mailbox's tombstone prefix are its tombstones, each holding its UID. */
  ghost predicate Logs(kv: map<Bytes, Bytes>, prefix: Bytes, tombs: set<Tomb>) {
    && (forall t :: t in tombs ==> t.modSeq <= MAX_U64 && t.uid <= MAX_U64)
    && (forall t :: t in tombs ==> TombKey(prefix, t.modSeq, t.uid) in kv
                                   && kv[TombKey(prefix, t.modSeq, t.uid)] == BigEndian(t.uid, 8))
    && (forall k :: k in kv && prefix <= k ==> exists t :: t in tombs && k == TombKey(prefix, t.modSeq, t.uid))
  }

  /** The keys of a half-open range. */
  ghost predicate IsScan(kv: map<Bytes, Bytes>, lo: Bytes, hi: Bytes, keys: seq<Bytes>) {
    forall k :: k in keys <==> k in kv && AtOrAfter(k, lo) && Before(k, hi)
  }

  ghost predicate ScannedTomb(t: Tomb, since: nat, uid: int) {
    NextModSeq(since) <= t.modSeq < MAX_U64 && t.uid % 0x1_0000_0000 == uid
  }

  lemma ScanSeesTombs(kv: map<Bytes, Bytes>, prefix: Bytes, tombs: set<Tomb>, since: nat, keys: seq<Bytes>, k: Bytes)
    requires Logs(kv, prefix, tombs) && since <= MAX_U64
    requires IsScan(kv, ScanStart(prefix, since), ScanEnd(prefix), keys) && k in keys
    ensures k in kv && |kv[k]| == 8
    ensures exists t :: t in tombs && ScannedTomb(t, since, Number(kv[k]) % 0x1_0000_0000)
  {
    BetweenSamePrefix(prefix, BigEndian(NextModSeq(since), 8) + [], k, ALL_ONES + []);
    var t :| t in tombs && k == TombKey(prefix, t.modSeq, t.uid);
    TombInRange(prefix, t.modSeq, t.uid, since);
    U64RoundTrip(t.uid);
    assert ScannedTomb(t, since, Number(kv[k]) % 0x1_0000_0000);
  }

  lemma TombIsScanned(kv: map<Bytes, Bytes>, prefix: Bytes, tombs: set<Tomb>, since: nat, keys: seq<Bytes>, t: Tomb)
    requires Logs(kv, prefix, tombs) && since <= MAX_U64 && t in tombs
    requires IsScan(kv, ScanStart(prefix, since), ScanEnd(prefix), keys)
    requires NextModSeq(since) <= t.modSeq < MAX_U64
    ensures exists k :: k in keys && k in kv && Number(kv[k]) == t.uid
  {
    var k := TombKey(prefix, t.modSeq, t.uid);
    TombInRange(prefix, t.modSeq, t.uid, since);
    U64RoundTrip(t.uid);
    assert k in keys && Number(kv[k]) == t.uid;
  }

  /** Collects the UIDs behind a scan of the log, ascending. */
  method ReadExpunged(kv: map<Bytes, Bytes>, prefix: Bytes, ghost tombs: set<Tomb>, since: nat, keys: seq<Bytes>)
      returns (uids: seq<int>)
    requires Logs(kv, prefix, tombs) && since <= MAX_U64
    requires IsScan(kv, ScanStart(prefix, since), ScanEnd(prefix), keys)
    ensures Ascending(uids)
    ensures forall u :: u in uids <==> exists t :: t in tombs && ScannedTomb(t, since, u)
  {
    var found: seq<int> := [];
    for i := 0 to |keys|
      invariant forall u :: u in found ==> exists t :: t in tombs && ScannedTomb(t, since, u)
      invariant forall j :: 0 <= j < i ==> keys[j] in kv && Number(kv[keys[j]]) % 0x1_0000_0000 in found
    {
      ScanSeesTombs(kv, prefix, tombs, since, keys, keys[i]);
      var v := kv[keys[i]];
      if |v| == 8 {
        found := found + [Number(v) % 0x1_0000_0000];
      }
    }
    forall t | t in tombs && NextModSeq(since) <= t.modSeq < MAX_U64 ensures t.uid % 0x1_0000_0000 in found {
      TombIsScanned(kv, prefix, tombs, since, keys, t);
      var k :| k in keys && k in kv && Number(kv[k]) == t.uid;
    }
    uids := Sort(found);
    SortSorts(found);
    forall u ensures u in uids <==> u in found {
      SortMembers(found, u);
    }
  }

  /**
   The scan answers "expunged after the mark" for every mailbox exactly when the mark is below 2^64 - 1: at that mark
   the successor wraps to zero and the whole log comes back.
   */
  lemma ScanAnswersSince(b: Box, since: nat)
    requires since <= MAX_U64
    requires forall t :: t in b.tombs ==> t.modSeq < MAX_U64 && t.uid <= 0xFFFF_FFFF
    ensures since < MAX_U64 ==>
              forall u :: u in ExpungedSince(b, since) <==> exists t :: t in b.tombs && ScannedTomb(t, since, u)
    ensures since == MAX_U64 ==> forall t :: t in b.tombs ==>
        ScannedTomb(t, since, t.uid) && t.uid !in ExpungedSince(b, since)
  {
    if since < MAX_U64 {
      forall u ensures u in ExpungedSince(b, since) <==> exists t :: t in b.tombs && ScannedTomb(t, since, u) {
        if u in ExpungedSince(b, since) {
          var t :| t in b.tombs && since < t.modSeq && t.uid == u;
          assert ScannedTomb(t, since, u);
        }
        if exists t :: t in b.tombs && ScannedTomb(t, since, u) {
          var t :| t in b.tombs && ScannedTomb(t, since, u);
          assert t.uid == u;
        }
      }
    }
  }

  // ---------------------------------------------------------------------------------------------
  // The payload and the client

  datatype Listed = Listed(uid: nat, mail: Mail)

  datatype FlagUpdate = FlagUpdate(seqNum: nat, uid: nat, mail: Mail)

  /** The listing shows each message of the mailbox once, by ascending UID. */
  ghost predicate ListsExactly(listing: seq<Listed>, mails: map<nat, Mail>) {
    && (forall i :: 0 <= i < |listing| ==> listing[i].uid in mails && mails[listing[i].uid] == listing[i].mail)
    && (forall uid :: uid in mails ==> Listed(uid, mails[uid]) in listing)
    && (forall i, j :: 0 <= i < j < |listing| ==> listing[i].uid < listing[j].uid)
  }

  /** One update, under its sequence number and in that order, for each listed message changed after the mark. */
  ghost predicate UpdatesSince(updates: seq<FlagUpdate>, listing: seq<Listed>, since: nat) {
    && (forall i, j :: 0 <= i < j < |updates| ==> updates[i].seqNum < updates[j].seqNum)
    && (forall u :: u in updates ==>
          1 <= u.seqNum <= |listing| && since < u.mail.modSeq && listing[u.seqNum - 1] == Listed(u.uid, u.mail))
    && (forall i :: 0 <= i < |listing| && since < listing[i].mail.modSeq ==>
          FlagUpdate(i + 1, listing[i].uid, listing[i].mail) in updates)
  }

  method SelectPayload(uidValidity: nat, cachedValidity: nat, since: nat, expunged: seq<int>, listing: seq<Listed>)
      returns (vanished: seq<int>, updates: seq<FlagUpdate>)
    ensures cachedValidity != uidValidity ==> vanished == [] && updates == []
    ensures cachedValidity == uidValidity ==> vanished == expunged && UpdatesSince(updates, listing, since)
  {
    if cachedValidity != uidValidity {
      return [], [];
    }
    vanished := expunged;
    updates := [];
    for i := 0 to |listing|
      invariant UpdatesSince(updates, listing[..i], since)
    {
      assert forall k :: 0 <= k < |updates| ==> updates[k] in updates;
      assert listing[..i + 1] == listing[..i] + [listing[i]];
      if since < listing[i].mail.modSeq {
        updates := updates + [FlagUpdate(i + 1, listing[i].uid, listing[i].mail)];
      }
    }
    assert listing[..|listing|] == listing;
  }

  /** The client applies the payload: vanished UIDs first, then the updates one by one. */
  function Applied(cache: map<nat, Mail>, vanished: seq<int>, updates: seq<FlagUpdate>): map<nat, Mail> {
    if updates == [] then map uid | uid in cache && uid !in vanished :: cache[uid]
    else
      var u := updates[|updates| - 1];
      Applied(cache, vanished, updates[..|updates| - 1])[u.uid := u.mail]
  }

  /** Updates that agree with the mailbox land where the mailbox has them, in whatever order they come. */
  lemma {:induction false} AppliedLookup(cache: map<nat, Mail>, vanished: seq<int>, updates: seq<FlagUpdate>,
                                         mails: map<nat, Mail>, uid: nat)
    requires forall u :: u in updates ==> u.uid in mails && mails[u.uid] == u.mail
    ensures var got := Applied(cache, vanished, updates);
            if exists u :: u in updates && u.uid == uid then uid in got && got[uid] == mails[uid]
            else (uid in got <==> uid in cache && uid !in vanished) && (uid in got ==> got[uid] == cache[uid])
  {
    if updates != [] {
      var front, last := updates[..|updates| - 1], updates[|updates| - 1];
      assert updates == front + [last];
      AppliedLookup(cache, vanished, front, mails, uid);
      assert last in updates;
    }
  }

  /** What the client holds of a message: a vanished one is dropped unless the listing still brings it up to date. */
  lemma AppliedUid(cache: map<nat, Mail>, since: nat, mails: map<nat, Mail>, vanished: seq<int>, updates: seq<FlagUpdate>,
                   listing: seq<Listed>, uid: nat)
    requires ListsExactly(listing, mails) && UpdatesSince(updates, listing, since)
    ensures var got := Applied(cache, vanished, updates);
            if uid in mails && since < mails[uid].modSeq then uid in got && got[uid] == mails[uid]
            else (uid in got <==> uid in cache && uid !in vanished) && (uid in got ==> got[uid] == cache[uid])
  {
    AppliedLookup(cache, vanished, updates, mails, uid);
    if uid in mails && since < mails[uid].modSeq {
      var i :| 0 <= i < |listing| && listing[i] == Listed(uid, mails[uid]);
      assert FlagUpdate(i + 1, uid, mails[uid]) in updates;
    }
  }

  ghost predicate Agree(got: map<nat, Mail>, want: map<nat, Mail>, uid: nat) {
    (uid in got <==> uid in want) && (uid in got && uid in want ==> got[uid] == want[uid])
  }

  lemma AgreeEverywhere(got: map<nat, Mail>, want: map<nat, Mail>)
    ensures got == want <==> forall uid :: Agree(got, want, uid)
  {
    if forall uid :: Agree(got, want, uid) {
      forall uid ensures uid in got <==> uid in want {
        assert Agree(got, want, uid);
      }
      forall uid | uid in got ensures got[uid] == want[uid] {
        assert Agree(got, want, uid);
      }
    }
  }

  /** A message of the copy that the listing shows unchanged, removed before the log was read. */
  ghost predicate RemovedBetween(c: Box, listed: Box, logged: Box, uid: nat) {
    uid in c.mails && uid in listed.mails && listed.mails[uid].modSeq <= c.modSeq && uid !in logged.mails
  }

  /** The log has the messages of the copy that are gone from the mailbox, and no others of the copy. */
  lemma LogHasGone(c: Box, logged: Box, uid: nat)
    requires Sound(logged) && Follows(c, logged) && uid in c.mails
    ensures uid in ExpungedSince(logged, c.modSeq) <==> uid !in logged.mails
  {
    if uid !in logged.mails {
      var t :| t in logged.tombs && t.uid == uid && c.modSeq < t.modSeq;
      assert t.uid in ExpungedSince(logged, c.modSeq);
    }
  }

  lemma AppliedIsListed(c: Box, listed: Box, logged: Box, vanished: seq<int>, updates: seq<FlagUpdate>,
                        listing: seq<Listed>, uid: nat)
    requires Sound(c) && Sound(listed) && Follows(c, listed) && Sound(logged) && Follows(c, logged)
    requires ListsExactly(listing, listed.mails) && UpdatesSince(updates, listing, c.modSeq)
    requires forall u: nat :: u in vanished <==> u in ExpungedSince(logged, c.modSeq)
    requires uid in c.mails && uid !in listed.mails ==> uid !in logged.mails
    ensures Agree(Applied(c.mails, vanished, updates), listed.mails, uid) <==> !RemovedBetween(c, listed, logged, uid)
  {
    AppliedUid(c.mails, c.modSeq, listed.mails, vanished, updates, listing, uid);
    if uid in c.mails {
      LogHasGone(c, logged, uid);
    }
  }

  /** What left the mailbox does not come back. */
  lemma {:induction false} StaysGone(b: Box, run: seq<Action>, b': Box, uid: nat)
    requires Sound(b) && After(b, run) == Some(b') && uid <= b.lastUid && uid !in b.mails
    ensures uid !in b'.mails && uid <= b'.lastUid
    decreases |run|
  {
    if run != [] {
      StaysGone(b, run[..|run| - 1], After(b, run[..|run| - 1]).value, uid);
    }
  }

  /** Two stretches of a run make one. */
  lemma {:induction false} AfterJoin(c: Box, run: seq<Action>, b: Box, more: seq<Action>, b': Box)
    requires After(c, run) == Some(b) && After(b, more) == Some(b')
    ensures After(c, run + more) == Some(b')
    decreases |more|
  {
    if more == [] {
      assert run + more == run;
    } else {
      var front := more[..|more| - 1];
      AfterJoin(c, run, b, front, After(b, front).value);
      assert (run + more)[..|run + more| - 1] == run + front;
    }
  }

  /**
   End to end, with the listing taken first and the log read after any further commands: a client whose copy was taken
   with no command in flight, at a mark below 2^64 - 1, holds exactly the listed mailbox after applying the payload if
   and only if no message that the listing shows unchanged since the mark was removed in between.
   */
  lemma PayloadRestoresMailbox(past: seq<Action>, c: Box, future: seq<Action>, listed: Box, between: seq<Action>,
                               logged: Box, vanished: seq<int>, updates: seq<FlagUpdate>, listing: seq<Listed>)
    requires After(EMPTY, past) == Some(c) && Quiescent(c)
    requires After(c, future) == Some(listed) && After(listed, between) == Some(logged)
    requires ListsExactly(listing, listed.mails) && UpdatesSince(updates, listing, c.modSeq) && c.modSeq < MAX_U64
    requires forall t :: t in logged.tombs ==> t.modSeq < MAX_U64 && t.uid <= 0xFFFF_FFFF
    requires forall u :: u in vanished <==> exists t :: t in logged.tombs && ScannedTomb(t, c.modSeq, u)
    ensures Applied(c.mails, vanished, updates) == listed.mails <==> forall uid :: !RemovedBetween(c, listed, logged, uid)
    ensures between == [] ==> Applied(c.mails, vanished, updates) == listed.mails
  {
    AfterSound(past, c);
    RunFollows(c, future, listed);
    AfterJoin(c, future, listed, between, logged);
    RunFollows(c, future + between, logged);
    forall u: nat ensures u in vanished <==> u in ExpungedSince(logged, c.modSeq) {
      ScanAnswersSince(logged, c.modSeq);
    }
    var got := Applied(c.mails, vanished, updates);
    forall uid: nat ensures Agree(got, listed.mails, uid) <==> !RemovedBetween(c, listed, logged, uid) {
      if uid in c.mails && uid !in listed.mails {
        StaysGone(listed, between, logged, uid);
      }
      AppliedIsListed(c, listed, logged, vanished, updates, listing, uid);
    }
    AgreeEverywhere(got, listed.mails);
  }

  /** And every message of every copy can be lost that way: another session removes it between listing and log. */
  lemma RemovalBetweenHappens(c: Box, uid: nat) returns (between: seq<Action>, logged: Box)
    requires Sound(c) && uid in c.mails
    ensures After(c, between) == Some(logged) && RemovedBetween(c, c, logged, uid)
  {
    var token := FreshToken(c.running.Keys);
    var begin := Begin(token, Remove(false), {uid});
    var mid := Apply(c, begin);
    Then(c, [], c, begin);
    Then(c, [] + [begin], mid, RemoveOne(token, uid));
    between, logged := [] + [begin] + [RemoveOne(token, uid)], Apply(mid, RemoveOne(token, uid));
  }
}
