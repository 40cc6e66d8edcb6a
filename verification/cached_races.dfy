/**
 Concurrent calls to the metadata cache, seen from one mailbox. A list is read from the store in one step and memoised in
 a later one; a write changes the store in one step and drops what it may have changed in a later one.
 */
module CachedRaces {
  import opened Options
  import opened CachedStore

  /** A list on its way into the memo. `overtaken`: a write that landed since the read has dropped its mailbox already. */
  datatype Reading = Reading(list: seq<MsgValue>, from: nat, overtaken: bool)

  /** `pending` holds the writes that have landed and not dropped anything yet, numbered as they landed. */
  datatype State = State(
    boxes: Boxes,
    landed: nat,
    pending: map<nat, Write>,
    memo: Option<seq<MsgValue>>,
    readers: map<nat, Reading>)

  datatype Action = Land(write: Write) | Drop(ticket: nat) | Read(reader: nat) | Fill(reader: nat) | Evict

  predicate Enabled(s: State, n: Name, a: Action) {
    match a
    case Land(_) => true
    case Drop(t) => t in s.pending
    case Read(r) => r !in s.readers && n in s.boxes
    case Fill(r) => r in s.readers
    case Evict => true
  }

  function Overtake(readers: map<nat, Reading>, t: nat): map<nat, Reading> {
    map r | r in readers :: if readers[r].from <= t then readers[r].(overtaken := true) else readers[r]
  }

  function Apply(s: State, n: Name, a: Action): State
    requires Enabled(s, n, a)
  {
    match a
    case Land(w) =>
      var after := Applied(s.boxes, w);
      if after.None? then s
      else s.(boxes := after.value, landed := s.landed + 1, pending := s.pending[s.landed := w])
    case Drop(t) =>
      var rest := s.pending - {t};
      if Forgets(s.pending[t], n) then s.(pending := rest, memo := None, readers := Overtake(s.readers, t))
      else s.(pending := rest)
    case Read(r) => s.(readers := s.readers[r := Reading(s.boxes[n].msgs, s.landed, false)])
    case Fill(r) => s.(memo := Some(s.readers[r].list), readers := s.readers - {r})
    case Evict => s.(memo := None)
  }

  ghost predicate Current(s: State, n: Name, list: seq<MsgValue>) {
    n in s.boxes && s.boxes[n].msgs == list
  }

  /** A write that landed as number `from` or later has yet to drop the mailbox. */
  ghost predicate Awaited(s: State, n: Name, from: nat) {
    exists t :: from <= t && t in s.pending && Forgets(s.pending[t], n)
  }

  ghost predicate ReadingOk(s: State, n: Name, r: Reading) {
    r.from <= s.landed && (!r.overtaken ==> Current(s, n, r.list) || Awaited(s, n, r.from))
  }

  ghost predicate Inv(s: State, n: Name) {
    && (forall t :: t in s.pending ==> t < s.landed)
    && (forall r :: r in s.readers ==> ReadingOk(s, n, s.readers[r]))
  }

  /** The memo is right, or about to be dropped. */
  ghost predicate MemoOk(s: State, n: Name) {
    s.memo.Some? ==> Current(s, n, s.memo.value) || Awaited(s, n, 0)
  }

  /** A list that is right, or awaits a drop, stays so when a write lands. */
  lemma LandKeeps(s: State, n: Name, w: Write, list: seq<MsgValue>, from: nat)
    requires (forall t :: t in s.pending ==> t < s.landed) && from <= s.landed
    requires Current(s, n, list) || Awaited(s, n, from)
    ensures var s' := Apply(s, n, Land(w)); Current(s', n, list) || Awaited(s', n, from)
  {
    var s' := Apply(s, n, Land(w));
    if Applied(s.boxes, w).Some? {
      if Awaited(s, n, from) {
        var t :| from <= t && t in s.pending && Forgets(s.pending[t], n);
        assert t in s'.pending && s'.pending[t] == s.pending[t];
      } else if Forgets(w, n) {
        assert s.landed in s'.pending && s'.pending[s.landed] == w;
      } else {
        KeptListIsCurrent(s.boxes, w, n);
      }
    }
  }

  /** And when a drop does not concern it. */
  lemma DropKeeps(s: State, n: Name, t: nat, list: seq<MsgValue>, from: nat)
    requires t in s.pending && (t < from || !Forgets(s.pending[t], n))
    requires Current(s, n, list) || Awaited(s, n, from)
    ensures var s' := Apply(s, n, Drop(t)); Current(s', n, list) || Awaited(s', n, from)
  {
    var s' := Apply(s, n, Drop(t));
    if Awaited(s, n, from) {
      var u :| from <= u && u in s.pending && Forgets(s.pending[u], n);
      assert u in s'.pending && s'.pending[u] == s.pending[u];
    }
  }

  lemma StepInv(s: State, n: Name, a: Action)
    requires Inv(s, n) && Enabled(s, n, a)
    ensures Inv(Apply(s, n, a), n)
  {
    var s' := Apply(s, n, a);
    forall r | r in s'.readers ensures ReadingOk(s', n, s'.readers[r]) {
      if r in s.readers {
        var old' := s.readers[r];
        assert ReadingOk(s, n, old');
        if a.Land? && !old'.overtaken {
          LandKeeps(s, n, a.write, old'.list, old'.from);
        } else if a.Drop? && !s'.readers[r].overtaken {
          DropKeeps(s, n, a.ticket, old'.list, old'.from);
        }
      }
    }
  }

  /** Nobody memoises a list that a completed write has overtaken. */
  ghost predicate Clean(s: State, n: Name, a: Action) {
    a.Fill? && a.reader in s.readers ==> !s.readers[a.reader].overtaken
  }

  lemma StepMemo(s: State, n: Name, a: Action)
    requires Inv(s, n) && MemoOk(s, n) && Enabled(s, n, a) && Clean(s, n, a)
    ensures MemoOk(Apply(s, n, a), n)
  {
    if a.Fill? {
      assert ReadingOk(s, n, s.readers[a.reader]);
    } else if s.memo.Some? && a.Land? {
      LandKeeps(s, n, a.write, s.memo.value, 0);
    } else if s.memo.Some? && a.Drop? && !Forgets(s.pending[a.ticket], n) {
      DropKeeps(s, n, a.ticket, s.memo.value, 0);
    }
  }

  ghost function After(s: State, n: Name, run: seq<Action>): Option<State>
    decreases |run|
  {
    if run == [] then Some(s)
    else if Enabled(s, n, run[0]) then After(Apply(s, n, run[0]), n, run[1..]) else None
  }

  ghost predicate CleanRun(s: State, n: Name, run: seq<Action>)
    decreases |run|
  {
    run != [] && Enabled(s, n, run[0]) ==> Clean(s, n, run[0]) && CleanRun(Apply(s, n, run[0]), n, run[1..])
  }

  lemma {:induction false} AfterInv(s: State, n: Name, run: seq<Action>, t: State)
    requires Inv(s, n) && MemoOk(s, n) && CleanRun(s, n, run) && After(s, n, run) == Some(t)
    ensures Inv(t, n) && MemoOk(t, n)
    decreases |run|
  {
    if run != [] {
      StepInv(s, n, run[0]);
      StepMemo(s, n, run[0]);
      AfterInv(Apply(s, n, run[0]), n, run[1..], t);
    }
  }

  /** An empty cache in front of a store. */
  function Start(boxes: Boxes): State {
    State(boxes, 0, map[], None, map[])
  }

  /**
   However reads, fills, writes and drops interleave: as long as no overtaken list is memoised, the memo is the mailbox's
   list whenever no landed write has yet to drop the mailbox.
   */
  lemma MemoCurrent(boxes: Boxes, n: Name, run: seq<Action>, t: State)
    requires CleanRun(Start(boxes), n, run) && After(Start(boxes), n, run) == Some(t)
    ensures t.memo.Some? && !Awaited(t, n, 0) ==> Current(t, n, t.memo.value)
  {
    AfterInv(Start(boxes), n, run, t);
  }

  // ---------------------------------------------------------------------------------------------
  // Which lists may be memoised

  /** Writes landing and drops only. */
  ghost predicate WritesOnly(run: seq<Action>) {
    forall i :: 0 <= i < |run| ==> run[i].Land? || run[i].Drop?
  }

  /** Once every write has done its drop, the memo is gone or right, whatever was written in between. */
  ghost predicate SettlesRight(s: State, n: Name) {
    forall run, t :: WritesOnly(run) && After(s, n, run) == Some(t) && t.pending == map[] && t.memo.Some? ==>
                       Current(t, n, t.memo.value)
  }

  lemma {:induction false} WritesKeepMemoOk(s: State, n: Name, run: seq<Action>, t: State)
    requires Inv(s, n) && MemoOk(s, n) && WritesOnly(run) && After(s, n, run) == Some(t)
    ensures MemoOk(t, n)
    decreases |run|
  {
    if run != [] {
      StepInv(s, n, run[0]);
      StepMemo(s, n, run[0]);
      WritesKeepMemoOk(Apply(s, n, run[0]), n, run[1..], t);
    }
  }

  /** Drops that do not concern the mailbox leave its memo and its list alone. */
  lemma {:induction false} OtherDrops(s: State, n: Name) returns (run: seq<Action>, t: State)
    requires !Awaited(s, n, 0)
    ensures WritesOnly(run) && After(s, n, run) == Some(t) && t.pending == map[]
    ensures t.boxes == s.boxes && t.memo == s.memo
    decreases |s.pending|
  {
    if s.pending == map[] {
      run, t := [], s;
    } else {
      var k :| k in s.pending;
      var s' := Apply(s, n, Drop(k));
      assert |s'.pending| < |s.pending| by {
        assert s'.pending.Keys == s.pending.Keys - {k};
      }
      assert forall u :: u in s'.pending ==> s'.pending[u] == s.pending[u];
      var rest;
      rest, t := OtherDrops(s', n);
      run := [Drop(k)] + rest;
      assert run[1..] == rest;
    }
  }

  /**
   A memoised list is sure to be right or gone once all drops are done exactly when it is right at the moment, or some
   landed write has yet to drop the mailbox.
   */
  lemma SettlesRightIff(s: State, n: Name)
    requires Inv(s, n)
    ensures SettlesRight(s, n) <==> MemoOk(s, n)
  {
    if MemoOk(s, n) {
      forall run, t | WritesOnly(run) && After(s, n, run) == Some(t) && t.pending == map[] && t.memo.Some?
        ensures Current(t, n, t.memo.value)
      {
        WritesKeepMemoOk(s, n, run, t);
      }
    } else {
      var run, t := OtherDrops(s, n);
    }
  }

  /**
   A write that lands and drops within a read leaves the old list memoised, with nothing left to drop it: the
   window between the two halves of ListMessages.
   */
  lemma OvertakenFillIsStale(boxes: Boxes, n: Name, msgs: seq<MsgValue>) returns (t: State)
    requires n in boxes && msgs != boxes[n].msgs
    ensures After(Start(boxes), n, [Read(0), Land(Update(n, msgs)), Drop(0), Fill(0)]) == Some(t)
    ensures t.memo == Some(boxes[n].msgs) && t.pending == map[] && !Current(t, n, boxes[n].msgs)
  {
    var w := Update(n, msgs);
    var after := boxes[n := boxes[n].(msgs := msgs)];
    var run := [Read(0), Land(w), Drop(0), Fill(0)];
    var r := Reading(boxes[n].msgs, 0, false);
    var s0 := Start(boxes);
    var s1 := State(boxes, 0, map[], None, map[0 := r]);
    var s2 := State(after, 1, map[0 := w], None, map[0 := r]);
    var s3 := State(after, 1, map[], None, map[0 := r.(overtaken := true)]);
    t := State(after, 1, map[], Some(boxes[n].msgs), map[]);
    assert Apply(s0, n, Read(0)) == s1 && Apply(s1, n, Land(w)) == s2;
    assert Apply(s2, n, Drop(0)) == s3 by {
      assert map[0 := w] - {0} == map[] && Overtake(map[0 := r], 0) == map[0 := r.(overtaken := true)];
    }
    assert Apply(s3, n, Fill(0)) == t by {
      assert s3.readers - {0} == map[];
    }
    assert run[1..] == [Land(w), Drop(0), Fill(0)] && run[1..][1..] == [Drop(0), Fill(0)];
    assert [Drop(0), Fill(0)][1..] == [Fill(0)] && [Fill(0)][1..] == [];
    assert After(s3, n, [Fill(0)]) == Some(t);
    assert After(s2, n, [Drop(0), Fill(0)]) == Some(t);
    assert After(s1, n, [Land(w), Drop(0), Fill(0)]) == Some(t);
  }
}
