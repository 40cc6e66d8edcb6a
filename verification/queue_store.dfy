/**
 The queue's transactions over the shared key-value store: message rows and the due index of
 (due second, message id), always rewritten together.
 */
module QueueStore {
  import opened Options
  import opened QueueRow

  datatype DueKey = DueKey(sec: int, id: nat)

  datatype KV = KV(rows: map<nat, Message>, due: set<DueKey>)

  /** Where the index must hold a message. */
  function Pos(m: Message): DueKey {
    DueKey(Unix(DuePos(m)), m.id)
  }

  /** The index a set of rows calls for: one entry per row that is not finished, at its due second. */
  function IndexOf(rows: map<nat, Message>): set<DueKey> {
    set id | id in rows && !Terminal(rows[id].state) :: Pos(rows[id])
  }

  /** No lost message and no ghost entry. */
  predicate DueExact(kv: KV) {
    kv.due == IndexOf(kv.rows)
  }

  /** A row is finished exactly when no recipient is pending, and a bounced row has someone to report. */
  predicate RowOk(id: nat, m: Message) {
    && m.id == id && 0 <= m.attempts && 1 <= m.maxAttempts
    && (Terminal(m.state) <==> !AnyPending(m.recipients))
    && (m.state.Bounced? ==> AnyWith(m.recipients, Status.Bounced))
  }

  predicate RowsOk(rows: map<nat, Message>) {
    forall id :: id in rows ==> RowOk(id, rows[id])
  }

  predicate Live(kv: KV, id: nat) {
    id in kv.rows && !Terminal(kv.rows[id].state)
  }

  // ---------------------------------------------------------------------------------------------
  // Transactions

  /** Unconditional write of a row, maintaining the index from the position the caller believes it had. */
  function SaveTxn(kv: KV, msg: Message, oldDue: Time, now: Time): KV {
    var m := msg.(updatedAt := now);
    var prev := DueKey(Unix(oldDue), m.id);
    KV(kv.rows[m.id := m],
       if Terminal(m.state) then kv.due - {prev}
       else if oldDue == ZERO_TIME then kv.due + {Pos(m)}
       else if oldDue != DuePos(m) then kv.due - {prev} + {Pos(m)}
       else kv.due)
  }

  /** The row a successful claim writes. */
  function ClaimRow(cur: Message, node: string, now: Time, lease: Time): Message {
    var noted := if cur.state.Active? then cur.(lastError := "claim expired") else cur;
    noted.(state := State.Active, owner := node, leaseUntil := now + lease, attempts := cur.attempts + 1)
  }

  predicate Claimable(cur: Message, now: Time) {
    !Terminal(cur.state) && !(cur.state.Active? && cur.leaseUntil > now)
  }

  function ClaimTxn(kv: KV, id: nat, node: string, now: Time, lease: Time): KV {
    if id !in kv.rows then kv
    else
      var cur := kv.rows[id];
      if Terminal(cur.state) then
        kv.(due := kv.due - {DueKey(Unix(DuePos(cur)), id), DueKey(Unix(cur.leaseUntil), id)})
      else if !Claimable(cur, now) then kv
      else
        var next := ClaimRow(cur, node, now, lease);
        KV(kv.rows[id := next],
           kv.due - {DueKey(Unix(DuePos(cur)), id)} + {DueKey(Unix(next.leaseUntil), id)})
  }

  /** The fence: the row must still be an active claim of this node. */
  predicate OwnsClaim(kv: KV, id: nat, node: string) {
    id in kv.rows && kv.rows[id].state.Active? && kv.rows[id].owner == node
  }

  function CommitTxn(kv: KV, node: string, msg: Message, now: Time): KV {
    if !OwnsClaim(kv, msg.id, node) then kv
    else
      var m := msg.(updatedAt := now);
      var prev := DueKey(Unix(msg.leaseUntil), m.id);
      KV(kv.rows[m.id := m],
         if Terminal(m.state) then kv.due - {prev} else kv.due - {prev} + {Pos(m)})
  }

  predicate Retryable(kv: KV, id: nat) {
    id in kv.rows && !kv.rows[id].state.Active? && !Terminal(kv.rows[id].state)
  }

  function RetryTxn(kv: KV, id: nat, now: Time): KV {
    if !Retryable(kv, id) then kv
    else
      var cur := kv.rows[id];
      var next := cur.(state := State.Queued, attempts := 0, nextAttempt := now, owner := "",
                       leaseUntil := ZERO_TIME, updatedAt := now);
      KV(kv.rows[id := next],
         kv.due - {DueKey(Unix(DuePos(cur)), id)} + {DueKey(Unix(now), id)})
  }

  predicate Cancellable(kv: KV, id: nat) {
    id in kv.rows && !kv.rows[id].state.Active?
  }

  function CancelTxn(kv: KV, id: nat): KV {
    if !Cancellable(kv, id) then kv
    else
      var cur := kv.rows[id];
      KV(kv.rows - {id}, kv.due - {DueKey(Unix(DuePos(cur)), id), DueKey(Unix(cur.leaseUntil), id)})
  }

  predicate Prunable(kv: KV, id: nat, cutoff: Time) {
    id in kv.rows && Terminal(kv.rows[id].state) && kv.rows[id].updatedAt <= cutoff
  }

  function PruneTxn(kv: KV, id: nat, cutoff: Time): KV {
    if !Prunable(kv, id, cutoff) then kv
    else
      var cur := kv.rows[id];
      var due := kv.due - {DueKey(Unix(DuePos(cur)), id)};
      KV(kv.rows - {id},
         if cur.leaseUntil == ZERO_TIME then due else due - {DueKey(Unix(cur.leaseUntil), id)})
  }

  // ---------------------------------------------------------------------------------------------
  // The index stays exact

  lemma DueExactElement(kv: KV, k: DueKey)
    requires DueExact(kv) && RowsOk(kv.rows)
    ensures k in kv.due <==> Live(kv, k.id) && k == Pos(kv.rows[k.id])
  {
    if k in kv.due {
      var id :| id in kv.rows && !Terminal(kv.rows[id].state) && k == Pos(kv.rows[id]);
      assert RowOk(id, kv.rows[id]);
    }
    if Live(kv, k.id) && k == Pos(kv.rows[k.id]) {
      assert k in IndexOf(kv.rows);
    }
  }

  /** Rewriting one row is exact when every entry of that id goes and the new position, if any, comes. */
  lemma ReplaceKeepsExact(kv: KV, id: nat, m: Message, due: set<DueKey>)
    requires DueExact(kv) && RowsOk(kv.rows) && m.id == id
    requires forall k :: k in due <==> (k in kv.due && k.id != id) || (!Terminal(m.state) && k == Pos(m))
    ensures DueExact(KV(kv.rows[id := m], due))
  {
    var rows := kv.rows[id := m];
    forall k ensures k in due <==> k in IndexOf(rows) {
      DueExactElement(kv, k);
      if k in due {
        assert rows[k.id] == if k.id == id then m else kv.rows[k.id];
        assert k == Pos(rows[k.id]);
      }
      if k in IndexOf(rows) {
        var j :| j in rows && !Terminal(rows[j].state) && k == Pos(rows[j]);
        assert j != id ==> RowOk(j, kv.rows[j]);
      }
    }
  }

  lemma RemoveKeepsExact(kv: KV, id: nat, due: set<DueKey>)
    requires DueExact(kv) && RowsOk(kv.rows)
    requires forall k :: k in due <==> k in kv.due && k.id != id
    ensures DueExact(KV(kv.rows - {id}, due))
  {
    var rows := kv.rows - {id};
    forall k ensures k in due <==> k in IndexOf(rows) {
      DueExactElement(kv, k);
      if k in due {
        assert k.id in rows && k == Pos(rows[k.id]);
      }
      if k in IndexOf(rows) {
        var j :| j in rows && !Terminal(rows[j].state) && k == Pos(rows[j]);
        assert RowOk(j, kv.rows[j]);
      }
    }
  }

  lemma SaveNewKeepsExact(kv: KV, msg: Message, now: Time)
    requires DueExact(kv) && RowsOk(kv.rows)
    requires msg.id !in kv.rows && !Terminal(msg.state)
    ensures DueExact(SaveTxn(kv, msg, ZERO_TIME, now))
  {
    var m := msg.(updatedAt := now);
    forall k ensures k in kv.due + {Pos(m)} <==> (k in kv.due && k.id != m.id) || k == Pos(m) {
      DueExactElement(kv, k);
    }
    ReplaceKeepsExact(kv, m.id, m, kv.due + {Pos(m)});
  }

  lemma ClaimKeepsExact(kv: KV, id: nat, node: string, now: Time, lease: Time)
    requires DueExact(kv) && RowsOk(kv.rows)
    ensures DueExact(ClaimTxn(kv, id, node, now, lease))
    ensures RowsOk(ClaimTxn(kv, id, node, now, lease).rows)
  {
    if id in kv.rows {
      assert RowOk(id, kv.rows[id]);
      var cur := kv.rows[id];
      var kv' := ClaimTxn(kv, id, node, now, lease);
      forall k ensures Terminal(cur.state) ==> (k in kv.due <==> k in kv'.due) {
        DueExactElement(kv, k);
      }
      if Claimable(cur, now) {
        var next := ClaimRow(cur, node, now, lease);
        forall k ensures k in kv'.due <==> (k in kv.due && k.id != id) || k == Pos(next) {
          DueExactElement(kv, k);
        }
        ReplaceKeepsExact(kv, id, next, kv'.due);
      }
    }
  }

  /** A commit whose outcome belongs to the claim that the row still holds. */
  lemma CommitKeepsExact(kv: KV, node: string, claim: Message, msg: Message, now: Time)
    requires DueExact(kv) && RowsOk(kv.rows)
    requires OwnsClaim(kv, claim.id, node) ==> kv.rows[claim.id] == claim && IsOutcome(claim, msg)
    requires msg.id == claim.id
    ensures DueExact(CommitTxn(kv, node, msg, now))
    ensures RowsOk(CommitTxn(kv, node, msg, now).rows)
  {
    if OwnsClaim(kv, msg.id, node) {
      var id, m := msg.id, msg.(updatedAt := now);
      assert RowOk(id, kv.rows[id]);
      var kv' := CommitTxn(kv, node, msg, now);
      forall k ensures k in kv'.due <==> (k in kv.due && k.id != id) || (!Terminal(m.state) && k == Pos(m)) {
        DueExactElement(kv, k);
      }
      ReplaceKeepsExact(kv, id, m, kv'.due);
    }
  }

  lemma RetryKeepsExact(kv: KV, id: nat, now: Time)
    requires DueExact(kv) && RowsOk(kv.rows)
    ensures DueExact(RetryTxn(kv, id, now))
    ensures RowsOk(RetryTxn(kv, id, now).rows)
  {
    if Retryable(kv, id) {
      assert RowOk(id, kv.rows[id]);
      var kv' := RetryTxn(kv, id, now);
      forall k ensures k in kv'.due <==> (k in kv.due && k.id != id) || k == Pos(kv'.rows[id]) {
        DueExactElement(kv, k);
      }
      ReplaceKeepsExact(kv, id, kv'.rows[id], kv'.due);
    }
  }

  lemma CancelKeepsExact(kv: KV, id: nat)
    requires DueExact(kv) && RowsOk(kv.rows)
    ensures DueExact(CancelTxn(kv, id))
  {
    if Cancellable(kv, id) {
      assert RowOk(id, kv.rows[id]);
      var kv' := CancelTxn(kv, id);
      forall k ensures k in kv'.due <==> k in kv.due && k.id != id {
        DueExactElement(kv, k);
      }
      RemoveKeepsExact(kv, id, kv'.due);
    }
  }

  lemma PruneKeepsExact(kv: KV, id: nat, cutoff: Time)
    requires DueExact(kv) && RowsOk(kv.rows)
    ensures DueExact(PruneTxn(kv, id, cutoff))
  {
    if Prunable(kv, id, cutoff) {
      assert RowOk(id, kv.rows[id]);
      var kv' := PruneTxn(kv, id, cutoff);
      forall k ensures k in kv'.due <==> k in kv.due && k.id != id {
        DueExactElement(kv, k);
      }
      RemoveKeepsExact(kv, id, kv'.due);
    }
  }

  /**
   The unfenced rewrite of a deferred row (the delay-warning stamp) keeps the index exact exactly when the stored row
   is still waiting at the second the writer remembers: rewriting a row that was claimed, finished or withdrawn
   in between leaves a ghost entry or a lost message.
   */
  lemma WarnSaveExactIff(kv: KV, msg: Message, now: Time)
    requires DueExact(kv) && RowsOk(kv.rows)
    requires msg.state.Deferred? && msg.nextAttempt != ZERO_TIME
    ensures DueExact(SaveTxn(kv, msg, msg.nextAttempt, now))
       <==> Live(kv, msg.id) && Unix(DuePos(kv.rows[msg.id])) == Unix(msg.nextAttempt)
  {
    var m := msg.(updatedAt := now);
    var id := m.id;
    var kv' := SaveTxn(kv, msg, msg.nextAttempt, now);
    assert kv' == KV(kv.rows[id := m], kv.due);
    if Live(kv, id) && Unix(DuePos(kv.rows[id])) == Unix(msg.nextAttempt) {
      assert RowOk(id, kv.rows[id]);
      forall k ensures k in kv.due <==> (k in kv.due && k.id != id) || k == Pos(m) {
        DueExactElement(kv, k);
      }
      ReplaceKeepsExact(kv, id, m, kv.due);
    }
    if DueExact(kv') {
      assert kv'.rows[id] == m;
      assert Pos(m) in IndexOf(kv'.rows);
      DueExactElement(kv, Pos(m));
    }
  }

  // ---------------------------------------------------------------------------------------------
  // The transactions as the managers run them

  /** The second as the index key stores it: the 64-bit pattern, compared byte by byte. */
  function Stored(sec: int): int {
    sec % 0x1_0000_0000_0000_0000
  }

  predicate KeyBefore(a: DueKey, b: DueKey) {
    Stored(a.sec) < Stored(b.sec) || (Stored(a.sec) == Stored(b.sec) && a.id < b.id)
  }

  /** The due entries, in key order, up to the first one in the future. */
  method ScanDue(keys: seq<DueKey>, now: int) returns (picked: seq<DueKey>)
    requires forall i, j :: 0 <= i < j < |keys| ==> KeyBefore(keys[i], keys[j])
    requires forall i :: 0 <= i < |keys| ==> -0x8000_0000_0000_0000 <= keys[i].sec < 0x8000_0000_0000_0000
    ensures picked <= keys && forall i, j :: 0 <= i < j < |picked| ==> picked[i] != picked[j]
    ensures (forall k :: k in keys ==> 0 <= k.sec) ==> forall k :: k in picked <==> k in keys && k.sec <= now
  {
    picked := [];
    for i := 0 to |keys|
      invariant picked == keys[..i]
      invariant forall k :: k in picked ==> k.sec <= now
    {
      if keys[i].sec > now {
        assert forall j :: i <= j < |keys| && 0 <= keys[i].sec && 0 <= keys[j].sec ==> keys[j].sec > now;
        return;
      }
      assert keys[..i + 1] == keys[..i] + [keys[i]];
      picked := picked + [keys[i]];
    }
    assert keys[..|keys|] == keys;
  }

  /** What a claim makes of a row: one more attempt, for this node, until the lease is over; the envelope stays. */
  ghost predicate ClaimedFrom(cur: Message, claim: Message, node: string, now: Time, lease: Time) {
    && claim == cur.(state := State.Active, owner := node, leaseUntil := now + lease, attempts := cur.attempts + 1,
                     lastError := claim.lastError)
    && claim.lastError == if cur.state.Active? then "claim expired" else cur.lastError
  }

  /** What a retry makes of a row: due at once with all its attempts, held by nobody; the envelope stays. */
  ghost predicate Requeued(cur: Message, next: Message, now: Time) {
    && next.state.Queued? && next.attempts == 0 && next.nextAttempt == now && next.updatedAt == now
    && next.owner == "" && next.leaseUntil == ZERO_TIME
    && next.id == cur.id && next.recipients == cur.recipients && next.maxAttempts == cur.maxAttempts
    && next.lastError == cur.lastError && next.createdAt == cur.createdAt && next.lastWarningAt == cur.lastWarningAt
  }

  datatype Outcome = Missing | Refused | Done

  /** One shared store; each method body is one transaction. */
  class SharedQueue {
    var rows: map<nat, Message>
    var due: set<DueKey>
    var counter: nat

    function Value(): KV
      reads this
    {
      KV(rows, due)
    }

    constructor ()
      ensures Value() == KV(map[], {}) && counter == 0
    {
      rows, due, counter := map[], {}, 0;
    }

    method NextId() returns (id: nat)
      modifies this`counter
      ensures id == counter == old(counter) + 1
    {
      counter := counter + 1;
      id := counter;
    }

    method Save(msg: Message, oldDue: Time, now: Time)
      modifies this`rows, this`due
      ensures Value() == SaveTxn(old(Value()), msg, oldDue, now)
    {
      var m := msg.(updatedAt := now);
      rows := rows[m.id := m];
      var newDue := DuePos(m);
      if Terminal(m.state) {
        due := due - {DueKey(Unix(oldDue), m.id)};
      } else if oldDue == ZERO_TIME {
        due := due + {DueKey(Unix(newDue), m.id)};
      } else if oldDue != newDue {
        due := due - {DueKey(Unix(oldDue), m.id)};
        due := due + {DueKey(Unix(newDue), m.id)};
      }
    }

    method Claim(id: nat, node: string, now: Time, lease: Time) returns (found: bool, claimed: Option<Message>)
      modifies this`rows, this`due
      ensures Value() == ClaimTxn(old(Value()), id, node, now, lease)
      ensures found <==> id in old(rows)
      ensures claimed.Some? <==> found && (|| old(rows)[id].state.Queued? || old(rows)[id].state.Deferred?
                                           || (old(rows)[id].state.Active? && old(rows)[id].leaseUntil <= now))
      ensures claimed.Some? ==> OwnsClaim(Value(), id, node) && rows == old(rows)[id := claimed.value]
      ensures claimed.Some? ==> ClaimedFrom(old(rows)[id], claimed.value, node, now, lease)
      ensures claimed.Some? ==> DueKey(Unix(now + lease), id) in due
      ensures found && !claimed.Some? ==> rows == old(rows)
    {
      if id !in rows {
        return false, None;
      }
      var cur := rows[id];
      if Terminal(cur.state) {
        due := due - {DueKey(Unix(DuePos(cur)), id), DueKey(Unix(cur.leaseUntil), id)};
        return true, None;
      }
      if cur.state.Active? && cur.leaseUntil > now {
        return true, None;
      }
      if cur.state.Active? {
        cur := cur.(lastError := "claim expired");
      }
      var oldDue := DuePos(cur);
      cur := cur.(state := State.Active, owner := node, leaseUntil := now + lease);
      cur := cur.(attempts := cur.attempts + 1);
      rows := rows[id := cur];
      due := due - {DueKey(Unix(oldDue), id)};
      due := due + {DueKey(Unix(cur.leaseUntil), id)};
      return true, Some(cur);
    }

    /** Records an outcome, fenced by the claim: a row claimed away in the meantime is left alone. */
    method CommitOutcome(node: string, msg: Message, now: Time) returns (outcome: Outcome)
      modifies this`rows, this`due
      ensures Value() == CommitTxn(old(Value()), node, msg, now)
      ensures outcome.Missing? <==> msg.id !in old(rows)
      ensures outcome.Done? <==> msg.id in old(rows) && old(rows)[msg.id].state.Active? && old(rows)[msg.id].owner == node
      ensures outcome.Done? ==> rows == old(rows)[msg.id := msg.(updatedAt := now)]
      ensures outcome.Done? && !Terminal(msg.state) ==> DueKey(Unix(DuePos(msg)), msg.id) in due
      ensures outcome.Done? && Terminal(msg.state) ==> due == old(due) - {DueKey(Unix(msg.leaseUntil), msg.id)}
      ensures !outcome.Done? ==> Value() == old(Value())
    {
      var oldDue := msg.leaseUntil;
      if msg.id !in rows {
        return Missing;
      }
      var cur := rows[msg.id];
      if !cur.state.Active? || cur.owner != node {
        return Refused;
      }
      var m := msg.(updatedAt := now);
      rows := rows[m.id := m];
      due := due - {DueKey(Unix(oldDue), m.id)};
      if !Terminal(m.state) {
        due := due + {DueKey(Unix(DuePos(m)), m.id)};
      }
      return Done;
    }

    method Retry(id: nat, now: Time) returns (outcome: Outcome)
      modifies this`rows, this`due
      ensures Value() == RetryTxn(old(Value()), id, now)
      ensures outcome.Missing? <==> id !in old(rows)
      ensures outcome.Done? <==> id in old(rows) && (old(rows)[id].state.Queued? || old(rows)[id].state.Deferred?)
      ensures outcome.Done? ==> id in rows && rows == old(rows)[id := rows[id]] && Requeued(old(rows)[id], rows[id], now)
      ensures outcome.Done? ==> DueKey(Unix(now), id) in due
      ensures !outcome.Done? ==> Value() == old(Value())
    {
      if id !in rows {
        return Missing;
      }
      var cur := rows[id];
      if cur.state.Active? {
        return Refused;
      }
      if Terminal(cur.state) {
        return Refused;
      }
      var oldDue := DuePos(cur);
      cur := cur.(state := State.Queued, attempts := 0, nextAttempt := now, owner := "");
      cur := cur.(leaseUntil := ZERO_TIME, updatedAt := now);
      rows := rows[id := cur];
      due := due - {DueKey(Unix(oldDue), id)};
      due := due + {DueKey(Unix(now), id)};
      return Done;
    }

    /** Withdraws a message; `reclaim` says whether the caller goes on to delete the body. */
    method Cancel(id: nat) returns (outcome: Outcome, reclaim: bool)
      modifies this`rows, this`due
      ensures Value() == CancelTxn(old(Value()), id)
      ensures outcome.Missing? <==> id !in old(rows)
      ensures outcome.Done? <==> id in old(rows) && !old(rows)[id].state.Active?
      ensures outcome.Done? ==> rows == old(rows) - {id} && DueKey(Unix(DuePos(old(rows)[id])), id) !in due
      ensures !outcome.Done? ==> Value() == old(Value())
      ensures reclaim <==> outcome.Done? && (old(rows)[id].state.Queued? || old(rows)[id].state.Deferred?)
    {
      if id !in rows {
        return Missing, false;
      }
      var cur := rows[id];
      if cur.state.Active? {
        return Refused, false;
      }
      rows := rows - {id};
      due := due - {DueKey(Unix(DuePos(cur)), id)};
      due := due - {DueKey(Unix(cur.leaseUntil), id)};
      return Done, !Terminal(cur.state);
    }

    method PruneOne(id: nat, cutoff: Time) returns (outcome: Outcome)
      modifies this`rows, this`due
      ensures Value() == PruneTxn(old(Value()), id, cutoff)
      ensures outcome.Missing? <==> id !in old(rows)
      ensures outcome.Done? <==> && id in old(rows) && old(rows)[id].updatedAt <= cutoff
                                 && (|| old(rows)[id].state.Delivered? || old(rows)[id].state.Bounced?
                                     || old(rows)[id].state.Failed?)
      ensures outcome.Done? ==> rows == old(rows) - {id}
      ensures !outcome.Done? ==> Value() == old(Value())
    {
      if id !in rows {
        return Missing;
      }
      var cur := rows[id];
      if !Terminal(cur.state) || cur.updatedAt > cutoff {
        return Refused;
      }
      rows := rows - {id};
      due := due - {DueKey(Unix(DuePos(cur)), id)};
      if cur.leaseUntil != ZERO_TIME {
        due := due - {DueKey(Unix(cur.leaseUntil), id)};
      }
      return Done;
    }
  }
}
