/**
 What the stored outcome of a recipient goes back to. Every run of the queue hands deliverers' verdicts to workers; a row
 says delivered, or bounced before its attempts are spent, only of recipients that such a verdict was about.
 */
module QueueVerdicts {
  import opened Options
  import opened QueueRow
  import opened QueueStore
  import opened QueueSystem
  import opened QueueRuns

  /** A delivery round of the message accepted the address, or failed it for good. */
  ghost predicate Said(a: Action, id: nat, address: string, ok: bool) {
    && a.Results? && a.job.due.id == id && address in a.results
    && (if ok then a.results[address].ok else !a.results[address].ok && a.results[address].permanent)
  }

  ghost predicate EverSaid(run: seq<Action>, id: nat, address: string, ok: bool) {
    exists n :: 0 <= n < |run| && Said(run[n], id, address, ok)
  }

  /** `spent` says that the message was bounced with its attempts used up. */
  ghost predicate Earned(run: seq<Action>, id: nat, spent: bool, r: Recipient) {
    && (r.status.Delivered? ==> EverSaid(run, id, r.address, true))
    && (r.status.Bounced? ==> spent || EverSaid(run, id, r.address, false))
  }

  ghost predicate Spent(m: Message) {
    m.state.Bounced? && m.attempts >= m.maxAttempts
  }

  ghost predicate Vouched(run: seq<Action>, id: nat, m: Message) {
    forall i :: 0 <= i < |m.recipients| ==> Earned(run, id, Spent(m), m.recipients[i])
  }

  ghost predicate PhaseVouched(run: seq<Action>, id: nat, p: Phase) {
    match p
    case Spawned => true
    case Claimed(claim) => Vouched(run, id, claim)
    case Handed(claim) => Vouched(run, id, claim)
    case Decided(claim, msg) => Vouched(run, id, claim) && Vouched(run, id, msg)
    case Committed(msg) => Vouched(run, id, msg)
    case Reclaimed(msg) => Vouched(run, id, msg)
  }

  ghost predicate AllVouched(run: seq<Action>, s: Sys) {
    && (forall id :: id in s.kv.rows ==> Vouched(run, id, s.kv.rows[id]))
    && (forall j :: j in s.jobs ==> PhaseVouched(run, j.due.id, s.jobs[j]))
  }

  lemma SaidLater(run: seq<Action>, a: Action, id: nat, address: string, ok: bool)
    requires EverSaid(run, id, address, ok)
    ensures EverSaid(run + [a], id, address, ok)
  {
    var n :| 0 <= n < |run| && Said(run[n], id, address, ok);
    assert (run + [a])[n] == run[n];
  }

  lemma EarnedLater(run: seq<Action>, a: Action, id: nat, spent: bool, r: Recipient)
    requires Earned(run, id, spent, r)
    ensures Earned(run + [a], id, spent, r)
  {
    if r.status.Delivered? {
      SaidLater(run, a, id, r.address, true);
    } else if r.status.Bounced? && !spent {
      SaidLater(run, a, id, r.address, false);
    }
  }

  lemma VouchedLater(run: seq<Action>, a: Action, id: nat, m: Message)
    requires Vouched(run, id, m)
    ensures Vouched(run + [a], id, m)
  {
    forall i | 0 <= i < |m.recipients| ensures Earned(run + [a], id, Spent(m), m.recipients[i]) {
      EarnedLater(run, a, id, Spent(m), m.recipients[i]);
    }
  }

  lemma PhaseVouchedLater(run: seq<Action>, a: Action, id: nat, p: Phase)
    requires PhaseVouched(run, id, p)
    ensures PhaseVouched(run + [a], id, p)
  {
    match p
    case Spawned =>
    case Claimed(claim) => VouchedLater(run, a, id, claim);
    case Handed(claim) => VouchedLater(run, a, id, claim);
    case Decided(claim, msg) => VouchedLater(run, a, id, claim); VouchedLater(run, a, id, msg);
    case Committed(msg) => VouchedLater(run, a, id, msg);
    case Reclaimed(msg) => VouchedLater(run, a, id, msg);
  }

  lemma AllVouchedLater(run: seq<Action>, a: Action, s: Sys)
    requires AllVouched(run, s)
    ensures AllVouched(run + [a], s)
  {
    forall id | id in s.kv.rows ensures Vouched(run + [a], id, s.kv.rows[id]) {
      VouchedLater(run, a, id, s.kv.rows[id]);
    }
    forall j | j in s.jobs ensures PhaseVouched(run + [a], j.due.id, s.jobs[j]) {
      PhaseVouchedLater(run, a, j.due.id, s.jobs[j]);
    }
  }

  // ---------------------------------------------------------------------------------------------
  // Outcomes

  /** The same recipients under another state that is not a spent one, when the state before was not either. */
  lemma VouchedSame(run: seq<Action>, id: nat, m: Message, next: Message)
    requires Vouched(run, id, m) && next.recipients == m.recipients && (Spent(m) ==> Spent(next))
    ensures Vouched(run, id, next)
  {
    forall i | 0 <= i < |next.recipients| ensures Earned(run, id, Spent(next), next.recipients[i]) {
      assert Earned(run, id, Spent(m), m.recipients[i]);
    }
  }

  /** Giving up bounces the pending of a message whose attempts are spent. */
  lemma FinalizedVouched(run: seq<Action>, id: nat, m: Message, now: Time, delay: Time)
    requires Vouched(run, id, m) && !m.state.Bounced?
    ensures Vouched(run, id, Finalized(m, now, delay))
  {
    var f := Finalized(m, now, delay);
    FinalizedBy(m, now, delay);
    forall i | 0 <= i < |f.recipients| ensures Earned(run, id, Spent(f), f.recipients[i]) {
      assert Earned(run, id, false, m.recipients[i]);
    }
  }

  lemma ResolvedVouched(run: seq<Action>, a: Action, claim: Message, now: Time)
    requires a.Results? && Vouched(run, a.job.due.id, claim) && !claim.state.Bounced?
    ensures Vouched(run + [a], a.job.due.id, Resolved(claim, a.results, now, a.delay))
  {
    var id, settled := a.job.due.id, claim.(recipients := SettleAll(claim.recipients, a.results));
    SettledByVerdict(claim.recipients, a.results);
    forall i | 0 <= i < |claim.recipients| ensures Earned(run + [a], id, false, settled.recipients[i]) {
      var before, after := claim.recipients[i], settled.recipients[i];
      assert ByVerdict(before, after, a.results) && Earned(run, id, false, before);
      EarnedLater(run, a, id, false, before);
      assert (run + [a])[|run|] == a;
      assert after.status.Delivered? && before.status.Pending? ==> Said(a, id, after.address, true);
      assert after.status.Bounced? && before.status.Pending? ==> Said(a, id, after.address, false);
    }
    FinalizedVouched(run + [a], id, settled, now, a.delay);
  }

  lemma TransportFailedVouched(run: seq<Action>, id: nat, claim: Message, err: string, now: Time, delay: Time)
    requires Vouched(run, id, claim) && !claim.state.Bounced?
    ensures Vouched(run, id, TransportFailed(claim, err, now, delay))
  {
    var f := TransportFailed(claim, err, now, delay);
    TransportFailedBy(claim, err, now, delay);
    forall i | 0 <= i < |f.recipients| ensures Earned(run, id, Spent(f), f.recipients[i]) {
      assert Earned(run, id, false, claim.recipients[i]);
    }
  }

  // ---------------------------------------------------------------------------------------------
  // Steps

  /** A worker's step that writes nothing: its own phase is what has to be accounted for. */
  lemma MoveVouched(run: seq<Action>, s: Sys, j: Job, p: Phase)
    requires AllVouched(run, s) && PhaseVouched(run, j.due.id, p)
    ensures AllVouched(run, Move(s, j, p))
  {}

  /** The round of a worker with its claim. */
  lemma RoundVouched(run: seq<Action>, s: Sys, a: Action)
    requires AllVouched(run, s) && Inv(s) && Enabled(s, a)
    requires a.HandOver? || a.BodyUnreadable? || a.TransportError? || a.Results?
    ensures AllVouched(run + [a], Apply(s, a))
  {
    var j, claim := a.job, s.jobs[a.job].claim;
    assert PhaseOk(s, j, s.jobs[j]) && PhaseVouched(run, j.due.id, s.jobs[j]);
    AllVouchedLater(run, a, s);
    VouchedLater(run, a, j.due.id, claim);
    match a
    case HandOver(_, delay) =>
      FinalizedVouched(run + [a], j.due.id, claim, s.clock, delay);
      MoveVouched(run + [a], s, j, Apply(s, a).jobs[j]);
    case BodyUnreadable(_, error, delay) =>
      TransportFailedVouched(run + [a], j.due.id, claim, "blob read: " + error, s.clock, delay);
      MoveVouched(run + [a], s, j, Apply(s, a).jobs[j]);
    case TransportError(_, error, delay) =>
      TransportFailedVouched(run + [a], j.due.id, claim, error, s.clock, delay);
      MoveVouched(run + [a], s, j, Apply(s, a).jobs[j]);
    case Results(_, _, _) =>
      ResolvedVouched(run, a, claim, s.clock);
      MoveVouched(run + [a], s, j, Apply(s, a).jobs[j]);
  }

  lemma ClaimVouched(run: seq<Action>, s: Sys, j: Job, reading: Time, lease: Time)
    requires AllVouched(run, s) && j in s.jobs
    ensures AllVouched(run, ApplyClaim(s, j, reading, lease))
  {
    var id := j.due.id;
    if id in s.kv.rows && Claimable(s.kv.rows[id], reading) {
      VouchedSame(run, id, s.kv.rows[id], ClaimRow(s.kv.rows[id], j.node, reading, lease));
    }
  }

  lemma CommitVouched(run: seq<Action>, s: Sys, j: Job)
    requires AllVouched(run, s) && j in s.jobs && s.jobs[j].Decided? && s.jobs[j].msg.id == j.due.id
    ensures AllVouched(run, ApplyCommit(s, j))
  {
    var msg := s.jobs[j].msg;
    assert PhaseVouched(run, j.due.id, s.jobs[j]);
    VouchedSame(run, j.due.id, msg, msg.(updatedAt := s.clock));
  }

  lemma StampVouched(run: seq<Action>, s: Sys, j: Job)
    requires AllVouched(run, s) && j in s.jobs && s.jobs[j].Committed? && s.jobs[j].msg.id == j.due.id
    ensures AllVouched(run, ApplyStampWarning(s, j))
  {
    var msg := s.jobs[j].msg;
    assert PhaseVouched(run, j.due.id, s.jobs[j]);
    VouchedSame(run, j.due.id, msg, msg.(lastWarningAt := s.clock, updatedAt := s.clock));
  }

  lemma RetryVouched(run: seq<Action>, s: Sys, id: nat, reading: Time)
    requires AllVouched(run, s) && Enabled(s, Retry(id, reading))
    ensures AllVouched(run, Apply(s, Retry(id, reading)))
  {
    var s' := Apply(s, Retry(id, reading));
    if Retryable(s.kv, id) {
      VouchedSame(run, id, s.kv.rows[id], s'.kv.rows[id]);
    }
  }

  /** Steps that leave every row and worker as it is, or drop them, or add one that nothing happened to yet. */
  lemma PlainVouched(run: seq<Action>, s: Sys, s': Sys)
    requires AllVouched(run, s)
    requires forall id :: id in s'.kv.rows ==>
               (id in s.kv.rows && s'.kv.rows[id] == s.kv.rows[id]) || NobodySettled(s'.kv.rows[id])
    requires forall j :: j in s'.jobs ==>
               || s'.jobs[j].Spawned?
               || (j in s.jobs && s'.jobs[j] == s.jobs[j])
               || (j in s.jobs && s.jobs[j].Committed? && s'.jobs[j] == Reclaimed(s.jobs[j].msg))
    ensures AllVouched(run, s')
  {
    forall j | j in s'.jobs ensures PhaseVouched(run, j.due.id, s'.jobs[j]) {
      assert j in s.jobs ==> PhaseVouched(run, j.due.id, s.jobs[j]);
    }
  }

  ghost predicate NobodySettled(m: Message) {
    forall i :: 0 <= i < |m.recipients| ==> m.recipients[i].status.Pending?
  }

  lemma StepVouched(run: seq<Action>, s: Sys, a: Action)
    requires AllVouched(run, s) && Inv(s) && Enabled(s, a)
    ensures AllVouched(run + [a], Apply(s, a))
  {
    if a.HandOver? || a.BodyUnreadable? || a.TransportError? || a.Results? {
      RoundVouched(run, s, a);
    } else {
      AllVouchedLater(run, a, s);
      OtherVouched(run + [a], s, a);
    }
  }

  lemma OtherVouched(run: seq<Action>, s: Sys, a: Action)
    requires AllVouched(run, s) && Inv(s) && Enabled(s, a)
    requires !a.HandOver? && !a.BodyUnreadable? && !a.TransportError? && !a.Results?
    ensures AllVouched(run, Apply(s, a))
  {
    if a.Claim? {
      ClaimVouched(run, s, a.job, a.reading, a.lease);
    } else if a.Commit? {
      assert PhaseOk(s, a.job, s.jobs[a.job]);
      CommitVouched(run, s, a.job);
    } else if a.StampWarning? {
      assert PhaseOk(s, a.job, s.jobs[a.job]);
      StampVouched(run, s, a.job);
    } else if a.Retry? {
      RetryVouched(run, s, a.id, a.reading);
    } else {
      if a.SaveNew? {
        FreshRowPending(a.id, a.to, a.maxAttempts, s.clock);
      }
      PlainVouched(run, s, Apply(s, a));
    }
  }

  lemma {:induction false} ReachedVouched(run: seq<Action>, s: Sys)
    requires Reached(run, s)
    ensures AllVouched(run, s)
  {
    if run != [] {
      var front, a := run[..|run| - 1], run[|run| - 1];
      var before := After(front).value;
      ReachedVouched(front, before);
      ReachedInv(front, before);
      StepVouched(front, before, a);
      assert run == front + [a];
    }
  }

  /**
   After every run: a recipient stored as delivered was accepted in some round of its message, and one stored as bounced
   failed for good in some round, unless the whole message was given up with its attempts spent.
   */
  lemma OutcomesWereSaid(run: seq<Action>, s: Sys, id: nat, i: nat)
    requires Reached(run, s) && id in s.kv.rows && i < |s.kv.rows[id].recipients|
    ensures var m := s.kv.rows[id];
            var r := m.recipients[i];
            && (r.status.Delivered? ==> EverSaid(run, id, r.address, true))
            && (r.status.Bounced? && !(m.state.Bounced? && m.attempts >= m.maxAttempts) ==>
                  EverSaid(run, id, r.address, false))
  {
    ReachedVouched(run, s);
    assert Vouched(run, id, s.kv.rows[id]);
    assert Earned(run, id, Spent(s.kv.rows[id]), s.kv.rows[id].recipients[i]);
  }
}
