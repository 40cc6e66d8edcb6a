/**
 One mailbox under concurrent commands: the modification sequence, message UIDs and flags, and the tombstones of
 removed messages. A command other than a delivery first bumps the sequence in one transaction and then writes under
 the number it drew, one transaction per write; other sessions act in between.
 */
module Mailbox {
  import opened Options

  datatype Mail = Mail(flags: seq<string>, modSeq: nat)

  datatype Tomb = Tomb(modSeq: nat, uid: nat)

  const DELETED := "\\Deleted"

  /**
   What an in-flight command may still write: flags of its targets, or their removal. Targets are looked up before the
   sequence is bumped, so some may be gone by then.
   */
  datatype Kind = Store | Remove(onlyDeleted: bool)

  datatype Command = Command(kind: Kind, modSeq: nat, targets: set<nat>)

  datatype Box = Box(modSeq: nat, lastUid: nat, mails: map<nat, Mail>, tombs: set<Tomb>, running: map<nat, Command>)

  datatype Action =
    | Deliver(flags: seq<string>)
    | Begin(token: nat, kind: Kind, targets: set<nat>)
    | WriteFlags(token: nat, updates: map<nat, seq<string>>)
    | RemoveOne(token: nat, uid: nat)
    | End(token: nat)

  const EMPTY: Box := Box(0, 0, map[], {}, map[])

  predicate Removable(b: Box, c: Command, uid: nat) {
    uid in b.mails && c.kind.Remove? && (c.kind.onlyDeleted ==> DELETED in b.mails[uid].flags)
  }

  predicate Enabled(b: Box, a: Action) {
    match a
    case Deliver(_) => true
    case Begin(token, _, targets) => token !in b.running && forall uid :: uid in targets ==> uid <= b.lastUid
    case WriteFlags(token, updates) => token in b.running && b.running[token].kind.Store? &&
        updates.Keys <= b.running[token].targets
    case RemoveOne(token, uid) => token in b.running && b.running[token].kind.Remove? && uid in b.running[token].targets
    case End(token) => token in b.running
  }

  /** Messages gone since the command chose its targets are skipped. */
  function Rewritten(mails: map<nat, Mail>, updates: map<nat, seq<string>>, modSeq: nat): map<nat, Mail> {
    map uid | uid in mails :: if uid in updates then Mail(updates[uid], modSeq) else mails[uid]
  }

  function Apply(b: Box, a: Action): Box
    requires Enabled(b, a)
  {
    match a
    case Deliver(flags) =>
      b.(modSeq := b.modSeq + 1, lastUid := b.lastUid + 1, mails := b.mails[b.lastUid + 1 := Mail(flags, b.modSeq + 1)])
    case Begin(token, kind, targets) =>
      b.(modSeq := b.modSeq + 1, running := b.running[token := Command(kind, b.modSeq + 1, targets)])
    case WriteFlags(token, updates) =>
      b.(mails := Rewritten(b.mails, updates, b.running[token].modSeq))
    case RemoveOne(token, uid) =>
      if Removable(b, b.running[token], uid)
      then b.(mails := b.mails - {uid}, tombs := b.tombs + {Tomb(b.running[token].modSeq, uid)})
      else b
    case End(token) => b.(running := b.running - {token})
  }

  ghost function After(b: Box, run: seq<Action>): Option<Box>
    decreases |run|
  {
    if run == [] then Some(b)
    else
      var before := After(b, run[..|run| - 1]);
      if before.Some? && Enabled(before.value, run[|run| - 1]) then Some(Apply(before.value, run[|run| - 1])) else None
  }

  /** What every reachable mailbox satisfies: UIDs are never reused and numbers never run ahead of the sequence. */
  ghost predicate Sound(b: Box) {
    && (forall uid :: uid in b.mails ==> uid <= b.lastUid && b.mails[uid].modSeq <= b.modSeq)
    && (forall t :: t in b.tombs ==> t.uid <= b.lastUid && t.uid !in b.mails && t.modSeq <= b.modSeq)
    && (forall k :: k in b.running ==> b.running[k].modSeq <= b.modSeq)
    && (forall k, uid :: k in b.running && uid in b.running[k].targets ==> uid <= b.lastUid)
  }

  lemma StepSound(b: Box, a: Action)
    requires Sound(b) && Enabled(b, a)
    ensures Sound(Apply(b, a))
  {}

  lemma {:induction false} AfterSound(run: seq<Action>, b: Box)
    requires After(EMPTY, run) == Some(b)
    ensures Sound(b)
  {
    if run != [] {
      AfterSound(run[..|run| - 1], After(EMPTY, run[..|run| - 1]).value);
      StepSound(After(EMPTY, run[..|run| - 1]).value, run[|run| - 1]);
    }
  }

  // ---------------------------------------------------------------------------------------------
  // Resynchronisation

  function ExpungedSince(b: Box, since: nat): set<nat> {
    set t | t in b.tombs && since < t.modSeq :: t.uid
  }

  function ChangedSince(b: Box, since: nat): map<nat, Mail> {
    map uid | uid in b.mails && since < b.mails[uid].modSeq :: b.mails[uid]
  }

  /** A client drops what vanished after its mark and takes over every message changed after it. */
  function Resync(cache: map<nat, Mail>, since: nat, b: Box): map<nat, Mail> {
    (cache - ExpungedSince(b, since)) + ChangedSince(b, since)
  }

  /** No command that drew its number at or before the mark can still touch a message that is there. */
  ghost predicate Quiescent(b: Box) {
    forall k :: k in b.running ==> b.running[k].targets !! b.mails.Keys
  }

  /** How a later mailbox relates to the one a client took its copy from. */
  ghost predicate Follows(c: Box, b: Box) {
    && c.modSeq <= b.modSeq && c.lastUid <= b.lastUid
    && (forall uid :: uid in c.mails ==>
          || (uid in b.mails && (b.mails[uid] == c.mails[uid] || c.modSeq < b.mails[uid].modSeq))
          || (exists t :: t in b.tombs && t.uid == uid && c.modSeq < t.modSeq))
    && (forall uid :: uid in b.mails && uid !in c.mails ==> c.lastUid < uid && c.modSeq < b.mails[uid].modSeq)
    && (forall k :: k in b.running ==>
          || c.modSeq < b.running[k].modSeq
          || (forall uid :: uid in b.running[k].targets ==> uid <= c.lastUid && uid !in c.mails))
  }

  lemma StepFollows(c: Box, b: Box, a: Action)
    requires Sound(c) && Sound(b) && Follows(c, b) && Enabled(b, a)
    ensures Follows(c, Apply(b, a))
  {
    var b' := Apply(b, a);
    forall uid | uid in c.mails
      ensures || (uid in b'.mails && (b'.mails[uid] == c.mails[uid] || c.modSeq < b'.mails[uid].modSeq))
              || (exists t :: t in b'.tombs && t.uid == uid && c.modSeq < t.modSeq)
    {
      if uid in b.mails {
        if a.RemoveOne? && a.uid == uid && Removable(b, b.running[a.token], uid) {
          assert Tomb(b.running[a.token].modSeq, uid) in b'.tombs;
        }
      } else {
        var t :| t in b.tombs && t.uid == uid && c.modSeq < t.modSeq;
        assert t in b'.tombs;
      }
    }
  }

  lemma {:induction false} RunFollows(c: Box, run: seq<Action>, b: Box)
    requires Sound(c) && Quiescent(c) && After(c, run) == Some(b)
    ensures Sound(b) && Follows(c, b)
    decreases |run|
  {
    if run != [] {
      var before := After(c, run[..|run| - 1]).value;
      RunFollows(c, run[..|run| - 1], before);
      StepSound(before, run[|run| - 1]);
      StepFollows(c, before, run[|run| - 1]);
    }
  }

  lemma FollowsResyncs(c: Box, b: Box)
    requires Sound(c) && Sound(b) && Follows(c, b)
    ensures Resync(c.mails, c.modSeq, b) == b.mails
  {
    var r := Resync(c.mails, c.modSeq, b);
    forall uid ensures uid in r <==> uid in b.mails {
      if uid in c.mails && uid !in b.mails {
        var t :| t in b.tombs && t.uid == uid && c.modSeq < t.modSeq;
        assert t.uid in ExpungedSince(b, c.modSeq);
      }
    }
  }

  /**
   Completeness of resynchronisation: for every history and every continuation, a copy taken while no command was
   between its bump and its writes resynchronises to exactly the current mailbox.
   */
  lemma ResyncComplete(past: seq<Action>, c: Box, future: seq<Action>, b: Box)
    requires After(EMPTY, past) == Some(c) && Quiescent(c) && After(c, future) == Some(b)
    ensures Resync(c.mails, c.modSeq, b) == b.mails
  {
    AfterSound(past, c);
    RunFollows(c, future, b);
    FollowsResyncs(c, b);
  }

  // ---------------------------------------------------------------------------------------------
  // The condition is exact

  ghost predicate AlwaysResyncs(c: Box) {
    forall future, b :: After(c, future) == Some(b) ==> Resync(c.mails, c.modSeq, b) == b.mails
  }

  lemma Then(c: Box, run: seq<Action>, b: Box, a: Action)
    requires After(c, run) == Some(b) && Enabled(b, a)
    ensures After(c, run + [a]) == Some(Apply(b, a))
  {
    assert (run + [a])[..|run|] == run;
  }

  /** A flag write under an old number changes a message behind the client's mark. */
  lemma LateStoreMissed(c: Box, token: nat, uid: nat)
    requires Sound(c) && token in c.running && c.running[token].kind.Store?
    requires uid in c.running[token].targets && uid in c.mails
    ensures !AlwaysResyncs(c)
  {
    var flags := c.mails[uid].flags + ["x"];
    var a := WriteFlags(token, map[uid := flags]);
    var b := Apply(c, a);
    Then(c, [], c, a);
    assert b.mails[uid].flags == flags && uid !in ChangedSince(b, c.modSeq);
    assert uid !in ExpungedSince(b, c.modSeq);
    assert Resync(c.mails, c.modSeq, b)[uid] == c.mails[uid];
  }

  /** A removal under an old number leaves a tombstone behind the client's mark. */
  lemma LateRemoveMissed(c: Box, token: nat, uid: nat)
    requires Sound(c) && token in c.running && c.running[token].kind.Remove?
    requires uid in c.running[token].targets && uid in c.mails
    ensures !AlwaysResyncs(c)
  {
    if c.running[token].kind.onlyDeleted && DELETED !in c.mails[uid].flags {
      var other := FreshToken(c.running.Keys);
      LateRemoveAfterMark(c, token, uid, other);
    } else {
      Then(c, [], c, RemoveOne(token, uid));
      var b := Apply(c, RemoveOne(token, uid));
      RemovedBehindMark(c, c, token, uid, b);
    }
  }

  lemma RemovedBehindMark(c: Box, before: Box, token: nat, uid: nat, b: Box)
    requires Sound(c) && Sound(before) && uid in c.mails && token in before.running && token in c.running
    requires before.running[token] == c.running[token] && before.tombs == c.tombs
    requires uid in before.mails
    requires b == before.(mails := before.mails - {uid}, tombs := before.tombs + {Tomb(before.running[token].modSeq, uid)})
    ensures Resync(c.mails, c.modSeq, b) != b.mails
  {
    assert uid !in ExpungedSince(b, c.modSeq);
    assert uid in Resync(c.mails, c.modSeq, b);
  }

  lemma FreshToken(used: set<nat>) returns (token: nat)
    ensures token !in used
  {
    token := 0;
    var below: set<nat> := {};
    while token in used
      invariant forall k :: k in below ==> k < token
      invariant below <= used
      decreases used - below
    {
      below := below + {token};
      token := token + 1;
    }
  }

  /** Another session marks the message deleted while the old command is still in flight. */
  lemma Marked(c: Box, uid: nat, other: nat) returns (run: seq<Action>, b: Box)
    requires Sound(c) && other !in c.running && uid in c.mails
    ensures After(c, run) == Some(b) && Sound(b) && b.tombs == c.tombs
    ensures forall k :: k in c.running ==> k in b.running && b.running[k] == c.running[k]
    ensures uid in b.mails && b.mails[uid].flags == [DELETED]
  {
    var begin := Begin(other, Store, {uid});
    var mark := WriteFlags(other, map[uid := [DELETED]]);
    var mid := Apply(c, begin);
    Then(c, [], c, begin);
    StepSound(c, begin);
    Then(c, [] + [begin], mid, mark);
    StepSound(mid, mark);
    run, b := [] + [begin] + [mark], Apply(mid, mark);
  }

  lemma LateRemoveAfterMark(c: Box, token: nat, uid: nat, other: nat)
    requires Sound(c) && token in c.running && c.running[token].kind.Remove? && other !in c.running
    requires uid in c.running[token].targets && uid in c.mails
    ensures !AlwaysResyncs(c)
  {
    var run, b := Marked(c, uid, other);
    Then(c, run, b, RemoveOne(token, uid));
    assert Removable(b, b.running[token], uid);
    RemovedBehindMark(c, b, token, uid, Apply(b, RemoveOne(token, uid)));
  }

  /** A copy resynchronises after every continuation exactly when no in-flight command can still touch its messages. */
  lemma ResyncExact(past: seq<Action>, c: Box)
    requires After(EMPTY, past) == Some(c)
    ensures AlwaysResyncs(c) <==> Quiescent(c)
  {
    AfterSound(past, c);
    if Quiescent(c) {
      forall future, b | After(c, future) == Some(b) ensures Resync(c.mails, c.modSeq, b) == b.mails {
        ResyncComplete(past, c, future, b);
      }
    } else {
      var k :| k in c.running && !(c.running[k].targets !! c.mails.Keys);
      var uid :| uid in c.running[k].targets && uid in c.mails.Keys;
      if c.running[k].kind.Store? {
        LateStoreMissed(c, k, uid);
      } else {
        LateRemoveMissed(c, k, uid);
      }
    }
  }
}
