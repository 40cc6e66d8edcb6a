/**
 The outbound queue as a whole: any number of managers over one store, their workers, the clock and the spooled
 bodies, with a crash possible between any two transactions.

 A worker is named by its node and the due-index entry that made the node start it. That one node never runs two
 workers on one message is not assumed: it follows from the index being exact when the node scans it.
 */
module QueueSystem {
  import opened Options
  import opened QueueRow
  import opened QueueStore

  datatype Job = Job(node: string, due: DueKey)

  /** How far a worker has come. `claim` is the row its own claim wrote. */
  datatype Phase =
    | Spawned
    | Claimed(claim: Message)
    | Handed(claim: Message)
    | Decided(claim: Message, msg: Message)
    | Committed(msg: Message)
    | Reclaimed(msg: Message)

  datatype BounceReport = BounceReport(id: nat, to: seq<string>)

  /**
   `submits` holds the ids handed out to submissions that have not saved their row yet; `doomed` the bodies that a
   cancel or a prune is about to delete; `reports` the calls made to the bounce handler; `deferrals` counts, per
   message, the deferrals committed since its last retry.
   */
  datatype Sys = Sys(
    kv: KV,
    counter: nat,
    submits: set<nat>,
    blobs: set<nat>,
    doomed: set<nat>,
    clock: Time,
    jobs: map<Job, Phase>,
    reports: seq<BounceReport>,
    deferrals: map<nat, nat>)

  datatype Action =
    | Tick(now: Time)
    | AllocId
    | Spool(id: nat)
    | SaveNew(id: nat, to: seq<string>, maxAttempts: int)
    | AbandonSubmit(id: nat)
    | Scan(node: string)
    | Claim(job: Job, reading: Time, lease: Time)
    | HandOver(job: Job, delay: Time)
    | BodyUnreadable(job: Job, error: string, delay: Time)
    | TransportError(job: Job, error: string, delay: Time)
    | Results(job: Job, results: map<string, Result>, delay: Time)
    | Commit(job: Job)
    | ReclaimBody(job: Job)
    | ReportBounce(job: Job)
    | StampWarning(job: Job)
    | EndJob(job: Job)
    | Retry(id: nat, reading: Time)
    | Cancel(id: nat)
    | Prune(id: nat, cutoff: Time)
    | DeleteBody(id: nat)
    | ForgetBody(id: nat)

  const INITIAL: Sys := Sys(KV(map[], {}), 0, {}, {}, {}, 0, map[], [], map[])

  predicate Enabled(s: Sys, a: Action) {
    match a
    case Tick(now) => s.clock <= now
    case AllocId => true
    case Spool(id) => id in s.submits
    case SaveNew(id, to, maxAttempts) => id in s.submits && id in s.blobs && to != [] && 1 <= maxAttempts
    case AbandonSubmit(id) => id in s.submits
    case Scan(node) => forall j :: j in s.jobs ==> j.node != node
    case Claim(j, reading, lease) => j in s.jobs && s.jobs[j].Spawned? && reading <= s.clock && 0 < lease
    case HandOver(j, _) => j in s.jobs && s.jobs[j].Claimed? && s.jobs[j].claim.id in s.blobs
    case BodyUnreadable(j, _, _) => j in s.jobs && s.jobs[j].Claimed?
    case TransportError(j, _, _) => j in s.jobs && s.jobs[j].Handed?
    case Results(j, _, _) => j in s.jobs && s.jobs[j].Handed?
    case Commit(j) => j in s.jobs && s.jobs[j].Decided?
    case ReclaimBody(j) => j in s.jobs && s.jobs[j].Committed? && Terminal(s.jobs[j].msg.state)
    case ReportBounce(j) => j in s.jobs && s.jobs[j].Reclaimed? && s.jobs[j].msg.state.Bounced?
    case StampWarning(j) => j in s.jobs && s.jobs[j].Committed? && s.jobs[j].msg.state.Deferred?
    case EndJob(j) => j in s.jobs
    case Retry(_, reading) => reading <= s.clock
    case Cancel(_) => true
    case Prune(_, _) => true
    case DeleteBody(id) => id in s.doomed
    case ForgetBody(id) => id in s.doomed
  }

  function FreshRow(id: nat, to: seq<string>, maxAttempts: int, now: Time): Message {
    Message(id, seq(|to|, i requires 0 <= i < |to| => Recipient(to[i], Status.Pending, "")), State.Queued,
            0, maxAttempts, now, "", now, now, ZERO_TIME, "", ZERO_TIME)
  }

  /** A submitted message waits for one recipient per address, in order, and may be started at once. */
  lemma FreshRowPending(id: nat, to: seq<string>, maxAttempts: int, now: Time)
    ensures var m := FreshRow(id, to, maxAttempts, now);
            && m.id == id && m.state.Queued? && m.attempts == 0 && m.maxAttempts == maxAttempts && DuePos(m) == now
            && |m.recipients| == |to|
            && forall i :: 0 <= i < |to| ==> m.recipients[i] == Recipient(to[i], Status.Pending, "")
  {}

  function DueNow(s: Sys): set<DueKey> {
    set k | k in s.kv.due && k.sec <= Unix(s.clock)
  }

  /** The workers one scheduling round of a node starts: one per index entry that is due. */
  function Starts(s: Sys, node: string): set<Job> {
    set k | k in DueNow(s) :: Job(node, k)
  }

  function Move(s: Sys, j: Job, p: Phase): Sys {
    s.(jobs := s.jobs[j := p])
  }

  function Finish(s: Sys, j: Job): Sys {
    s.(jobs := s.jobs - {j})
  }

  function Deferrals(s: Sys, id: nat): nat {
    if id in s.deferrals then s.deferrals[id] else 0
  }

  function ApplyScan(s: Sys, node: string): Sys {
    s.(jobs := s.jobs + map j | j in Starts(s, node) :: Spawned)
  }

  function ApplyClaim(s: Sys, j: Job, reading: Time, lease: Time): Sys {
    var id := j.due.id;
    var s' := s.(kv := ClaimTxn(s.kv, id, j.node, reading, lease));
    if id in s.kv.rows && Claimable(s.kv.rows[id], reading)
    then Move(s', j, Claimed(ClaimRow(s.kv.rows[id], j.node, reading, lease)))
    else Finish(s', j)
  }

  function ApplyCommit(s: Sys, j: Job): Sys
    requires j in s.jobs && s.jobs[j].Decided?
  {
    var msg := s.jobs[j].msg;
    if OwnsClaim(s.kv, msg.id, j.node) then
      var s' := Move(s.(kv := CommitTxn(s.kv, j.node, msg, s.clock)), j, Committed(msg.(updatedAt := s.clock)));
      if msg.state.Deferred? then s'.(deferrals := s.deferrals[msg.id := Deferrals(s, msg.id) + 1]) else s'
    else Finish(s, j)
  }

  function ApplyStampWarning(s: Sys, j: Job): Sys
    requires j in s.jobs && s.jobs[j].Committed?
  {
    var msg := s.jobs[j].msg.(lastWarningAt := s.clock);
    Finish(s.(kv := SaveTxn(s.kv, msg, msg.nextAttempt, s.clock)), j)
  }

  function Apply(s: Sys, a: Action): Sys
    requires Enabled(s, a)
  {
    match a
    case Tick(now) => s.(clock := now)
    case AllocId => s.(counter := s.counter + 1, submits := s.submits + {s.counter + 1})
    case Spool(id) => s.(blobs := s.blobs + {id})
    case SaveNew(id, to, maxAttempts) => ApplySaveNew(s, id, to, maxAttempts)
    case AbandonSubmit(id) => s.(submits := s.submits - {id})
    case Scan(node) => ApplyScan(s, node)
    case Claim(j, reading, lease) => ApplyClaim(s, j, reading, lease)
    case HandOver(j, delay) =>
      var claim := s.jobs[j].claim;
      if AnyPending(claim.recipients) then Move(s, j, Handed(claim))
      else Move(s, j, Decided(claim, Finalized(claim, s.clock, delay)))
    case BodyUnreadable(j, error, delay) =>
      Move(s, j, Decided(s.jobs[j].claim, TransportFailed(s.jobs[j].claim, "blob read: " + error, s.clock, delay)))
    case TransportError(j, error, delay) =>
      Move(s, j, Decided(s.jobs[j].claim, TransportFailed(s.jobs[j].claim, error, s.clock, delay)))
    case Results(j, results, delay) =>
      Move(s, j, Decided(s.jobs[j].claim, Resolved(s.jobs[j].claim, results, s.clock, delay)))
    case Commit(j) => ApplyCommit(s, j)
    case ReclaimBody(j) => Move(s.(blobs := s.blobs - {s.jobs[j].msg.id}), j, Reclaimed(s.jobs[j].msg))
    case ReportBounce(j) =>
      var failures := AddressesWith(s.jobs[j].msg.recipients, Status.Bounced);
      if failures == [] then Finish(s, j)
      else Finish(s.(reports := s.reports + [BounceReport(s.jobs[j].msg.id, failures)]), j)
    case StampWarning(j) => ApplyStampWarning(s, j)
    case EndJob(j) => Finish(s, j)
    case Retry(id, reading) =>
      if Retryable(s.kv, id) then s.(kv := RetryTxn(s.kv, id, reading), deferrals := s.deferrals[id := 0]) else s
    case Cancel(id) =>
      s.(kv := CancelTxn(s.kv, id),
         doomed := if Cancellable(s.kv, id) && Live(s.kv, id) then s.doomed + {id} else s.doomed)
    case Prune(id, cutoff) =>
      s.(kv := PruneTxn(s.kv, id, cutoff), doomed := if Prunable(s.kv, id, cutoff) then s.doomed + {id} else s.doomed)
    case DeleteBody(id) => s.(blobs := s.blobs - {id}, doomed := s.doomed - {id})
    case ForgetBody(id) => s.(doomed := s.doomed - {id})
  }

  /** The delay-warning stamp found its own deferred row untouched. Every other action is quiet as it is. */
  predicate Quiet(s: Sys, a: Action)
    requires Enabled(s, a)
  {
    a.StampWarning? ==>
      var m := s.jobs[a.job].msg; m.id in s.kv.rows && s.kv.rows[m.id] == m
  }

  // ---------------------------------------------------------------------------------------------
  // Invariant

  /** Nothing but the past can happen to this id: it is not being submitted and has no unfinished row. */
  ghost predicate Settled(s: Sys, id: nat) {
    id <= s.counter && id !in s.submits && !Live(s.kv, id)
  }

  ghost predicate IdsOk(s: Sys) {
    && (forall id :: id in s.kv.rows ==> id <= s.counter && id !in s.submits)
    && (forall id :: id in s.submits ==> id <= s.counter)
    && (forall id :: id in s.doomed ==> Settled(s, id))
  }

  ghost predicate BodiesOk(s: Sys) {
    forall id :: Live(s.kv, id) ==> id in s.blobs
  }

  ghost predicate OneWorkerPerNode(s: Sys) {
    forall j, j' :: j in s.jobs && j' in s.jobs && j.node == j'.node && j.due.id == j'.due.id ==> j == j'
  }

  ghost predicate HasClaim(p: Phase) {
    p.Claimed? || p.Handed? || p.Decided?
  }

  /** A worker that has not committed: its claim is the stored row for as long as the row is its node's active claim. */
  ghost predicate ClaimOk(s: Sys, j: Job, claim: Message) {
    && claim.id == j.due.id && claim.state.Active? && claim.owner == j.node
    && AnyPending(claim.recipients) && 1 <= claim.attempts
    && claim.id <= s.counter && claim.id !in s.submits
    && (OwnsClaim(s.kv, claim.id, j.node) ==> s.kv.rows[claim.id] == claim)
    && (s.clock < claim.leaseUntil ==> claim.id in s.kv.rows && s.kv.rows[claim.id] == claim)
  }

  /** A worker past its commit: a terminal outcome is there to stay. */
  ghost predicate DoneOk(s: Sys, j: Job, msg: Message) {
    && msg.id == j.due.id
    && (Terminal(msg.state) ==>
          && Settled(s, msg.id)
          && (msg.id in s.kv.rows ==> s.kv.rows[msg.id] == msg))
    && (msg.state.Bounced? ==> AnyWith(msg.recipients, Status.Bounced))
  }

  ghost predicate PhaseOk(s: Sys, j: Job, p: Phase) {
    match p
    case Spawned => true
    case Claimed(claim) => ClaimOk(s, j, claim)
    case Handed(claim) => ClaimOk(s, j, claim)
    case Decided(claim, msg) => ClaimOk(s, j, claim) && IsOutcome(claim, msg)
    case Committed(msg) => DoneOk(s, j, msg)
    case Reclaimed(msg) => DoneOk(s, j, msg) && Terminal(msg.state)
  }

  ghost predicate PhasesOk(s: Sys) {
    forall j :: j in s.jobs ==> PhaseOk(s, j, s.jobs[j])
  }

  ghost predicate PastCommit(p: Phase) {
    (p.Committed? || p.Reclaimed?) && Terminal(p.msg.state)
  }

  /** At most one worker ever carries a message past its terminal commit. */
  ghost predicate OneFinisher(s: Sys) {
    forall j, j' :: j in s.jobs && j' in s.jobs && j.due.id == j'.due.id && PastCommit(s.jobs[j]) && PastCommit(s.jobs[j'])
      ==> j == j'
  }

  ghost predicate Reported(s: Sys, id: nat) {
    exists i :: 0 <= i < |s.reports| && s.reports[i].id == id
  }

  ghost predicate ReportOk(s: Sys, r: BounceReport) {
    && Settled(s, r.id) && r.to != []
    && (r.id in s.kv.rows ==>
          s.kv.rows[r.id].state.Bounced? && r.to == AddressesWith(s.kv.rows[r.id].recipients, Status.Bounced))
  }

  ghost predicate ReportsOk(s: Sys) {
    && (forall i :: 0 <= i < |s.reports| ==> ReportOk(s, s.reports[i]))
    && (forall i, i' :: 0 <= i < i' < |s.reports| ==> s.reports[i].id != s.reports[i'].id)
    && (forall j :: j in s.jobs && PastCommit(s.jobs[j]) ==> !Reported(s, j.due.id))
  }

  /** Every committed deferral used up an attempt of its own. */
  ghost predicate DeferralOk(s: Sys, id: nat, m: Message) {
    && Deferrals(s, id) <= m.maxAttempts - 1
    && (!Terminal(m.state) ==> Deferrals(s, id) + (if m.state.Active? then 1 else 0) <= m.attempts)
  }

  ghost predicate DeferralsOk(s: Sys) {
    && (forall id :: id in s.kv.rows ==> DeferralOk(s, id, s.kv.rows[id]))
    && (forall id :: id in s.deferrals ==> id <= s.counter && id !in s.submits)
  }

  ghost predicate Inv(s: Sys) {
    && RowsOk(s.kv.rows) && DueExact(s.kv)
    && IdsOk(s) && BodiesOk(s)
    && OneWorkerPerNode(s) && PhasesOk(s) && OneFinisher(s)
    && ReportsOk(s) && DeferralsOk(s)
  }

  // ---------------------------------------------------------------------------------------------
  // Every action keeps the invariant

  /** Only the row and the index entries of `id` may differ; ids, bodies and clock are as before. */
  ghost predicate TouchesOnly(s: Sys, s': Sys, id: nat) {
    && s'.counter == s.counter && s'.submits == s.submits && s'.clock == s.clock
    && (forall k :: k != id ==> (k in s'.kv.rows <==> k in s.kv.rows))
    && (forall k :: k != id && k in s.kv.rows ==> s'.kv.rows[k] == s.kv.rows[k])
  }

  /** What a transaction on `id` may do to its row, to the workers and to the books around it. */
  ghost predicate Transacts(s: Sys, s': Sys, id: nat, actor: Option<Job>) {
    && TouchesOnly(s, s', id)
    && s'.blobs == s.blobs && s'.reports == s.reports
    && (forall d :: d in s'.doomed ==> d in s.doomed || (d == id && Settled(s', d)))
    && s'.jobs.Keys <= s.jobs.Keys
    && (forall j :: j in s'.jobs && PastCommit(s'.jobs[j]) ==>
          PastCommit(s.jobs[j]) || (actor == Some(j) && j.due.id == id && Live(s.kv, id)))
    && (id in s'.kv.rows ==> id in s.kv.rows)
    && (!Live(s.kv, id) && id in s'.kv.rows ==> s'.kv.rows[id] == s.kv.rows[id])
    && (forall k :: k != id ==> Deferrals(s', k) == Deferrals(s, k))
    && (forall k :: k in s'.deferrals ==> k in s.deferrals || (k == id && id in s.kv.rows))
    && (id in s'.kv.rows ==> DeferralOk(s', id, s'.kv.rows[id]))
  }

  lemma TransactsIds(s: Sys, s': Sys, id: nat, actor: Option<Job>)
    requires Transacts(s, s', id, actor) && IdsOk(s) && BodiesOk(s) && OneWorkerPerNode(s)
    ensures IdsOk(s') && BodiesOk(s') && OneWorkerPerNode(s')
    ensures forall k :: Settled(s, k) ==> Settled(s', k)
  {}

  lemma TransactsReports(s: Sys, s': Sys, id: nat, actor: Option<Job>)
    requires Transacts(s, s', id, actor) && ReportsOk(s)
    ensures ReportsOk(s')
  {
    forall i | 0 <= i < |s'.reports| ensures ReportOk(s', s'.reports[i]) {
      assert ReportOk(s, s.reports[i]);
    }
  }

  lemma TransactsFinisher(s: Sys, s': Sys, id: nat, actor: Option<Job>)
    requires Transacts(s, s', id, actor) && PhasesOk(s) && OneFinisher(s)
    ensures OneFinisher(s')
  {
    forall j | j in s.jobs && PastCommit(s.jobs[j]) ensures !Live(s.kv, j.due.id) {
      assert PhaseOk(s, j, s.jobs[j]);
    }
  }

  lemma TransactsDeferrals(s: Sys, s': Sys, id: nat, actor: Option<Job>)
    requires Transacts(s, s', id, actor) && DeferralsOk(s) && IdsOk(s)
    ensures DeferralsOk(s')
  {
    forall k | k in s'.kv.rows ensures DeferralOk(s', k, s'.kv.rows[k]) {
      if k != id {
        assert DeferralOk(s, k, s.kv.rows[k]);
      }
    }
  }

  /** A transaction keeps the invariant once its own row, its index and the workers' phases are accounted for. */
  lemma TransactsInv(s: Sys, s': Sys, id: nat, actor: Option<Job>)
    requires Inv(s) && Transacts(s, s', id, actor)
    requires RowsOk(s'.kv.rows) && DueExact(s'.kv) && PhasesOk(s')
    ensures Inv(s')
  {
    TransactsIds(s, s', id, actor);
    TransactsReports(s, s', id, actor);
    TransactsFinisher(s, s', id, actor);
    TransactsDeferrals(s, s', id, actor);
  }

  lemma ClaimPhaseOther(s: Sys, j: Job, reading: Time, lease: Time, j': Job, p: Phase)
    requires RowsOk(s.kv.rows) && reading <= s.clock
    requires PhaseOk(s, j', p) && (j'.due.id == j.due.id ==> j'.node != j.node)
    ensures PhaseOk(ApplyClaim(s, j, reading, lease), j', p)
  {}

  lemma ClaimPhases(s: Sys, j: Job, reading: Time, lease: Time)
    requires RowsOk(s.kv.rows) && PhasesOk(s) && OneWorkerPerNode(s) && IdsOk(s)
    requires j in s.jobs && reading <= s.clock
    ensures PhasesOk(ApplyClaim(s, j, reading, lease))
  {
    var s' := ApplyClaim(s, j, reading, lease);
    var id := j.due.id;
    forall j' | j' in s'.jobs ensures PhaseOk(s', j', s'.jobs[j']) {
      if j' != j {
        assert PhaseOk(s, j', s.jobs[j']);
        ClaimPhaseOther(s, j, reading, lease, j', s.jobs[j']);
      } else {
        assert RowOk(id, s.kv.rows[id]);
      }
    }
  }

  lemma ClaimTransacts(s: Sys, j: Job, reading: Time, lease: Time)
    requires RowsOk(s.kv.rows) && DeferralsOk(s) && j in s.jobs
    ensures Transacts(s, ApplyClaim(s, j, reading, lease), j.due.id, None)
  {
    var id := j.due.id;
    assert id in s.kv.rows ==> RowOk(id, s.kv.rows[id]) && DeferralOk(s, id, s.kv.rows[id]);
  }

  lemma ClaimInv(s: Sys, j: Job, reading: Time, lease: Time)
    requires Inv(s) && j in s.jobs && reading <= s.clock
    ensures Inv(ApplyClaim(s, j, reading, lease))
  {
    ClaimKeepsExact(s.kv, j.due.id, j.node, reading, lease);
    ClaimPhases(s, j, reading, lease);
    ClaimTransacts(s, j, reading, lease);
    TransactsInv(s, ApplyClaim(s, j, reading, lease), j.due.id, None);
  }

  lemma CommitPhaseOther(s: Sys, j: Job, j': Job, p: Phase)
    requires j in s.jobs && s.jobs[j].Decided? && PhaseOk(s, j, s.jobs[j])
    requires PhaseOk(s, j', p) && (j'.due.id == j.due.id ==> j'.node != j.node)
    ensures PhaseOk(ApplyCommit(s, j), j', p)
  {}

  lemma CommitPhases(s: Sys, j: Job)
    requires PhasesOk(s) && OneWorkerPerNode(s) && j in s.jobs && s.jobs[j].Decided?
    ensures PhasesOk(ApplyCommit(s, j))
  {
    var s' := ApplyCommit(s, j);
    assert PhaseOk(s, j, s.jobs[j]);
    forall j' | j' in s'.jobs ensures PhaseOk(s', j', s'.jobs[j']) {
      if j' != j {
        assert PhaseOk(s, j', s.jobs[j']);
        CommitPhaseOther(s, j, j', s.jobs[j']);
      }
    }
  }

  lemma CommitTransacts(s: Sys, j: Job)
    requires RowsOk(s.kv.rows) && DeferralsOk(s) && j in s.jobs && s.jobs[j].Decided? && PhaseOk(s, j, s.jobs[j])
    ensures Transacts(s, ApplyCommit(s, j), j.due.id, Some(j))
  {
    var id := j.due.id;
    assert id in s.kv.rows ==> RowOk(id, s.kv.rows[id]) && DeferralOk(s, id, s.kv.rows[id]);
  }

  lemma CommitInv(s: Sys, j: Job)
    requires Inv(s) && j in s.jobs && s.jobs[j].Decided?
    ensures Inv(ApplyCommit(s, j))
  {
    assert PhaseOk(s, j, s.jobs[j]);
    CommitKeepsExact(s.kv, j.node, s.jobs[j].claim, s.jobs[j].msg, s.clock);
    CommitPhases(s, j);
    CommitTransacts(s, j);
    TransactsInv(s, ApplyCommit(s, j), j.due.id, Some(j));
  }

  /** A row that no worker holds may be rewritten or withdrawn under every worker's nose. */
  lemma UnclaimedPhases(s: Sys, s': Sys, id: nat)
    requires TouchesOnly(s, s', id) && PhasesOk(s)
    requires forall j :: j in s'.jobs ==> j in s.jobs && s'.jobs[j] == s.jobs[j]
    requires id in s.kv.rows && !s.kv.rows[id].state.Active?
    requires id in s'.kv.rows ==> Live(s.kv, id) && !s'.kv.rows[id].state.Active?
    ensures PhasesOk(s')
  {
    forall j | j in s'.jobs ensures PhaseOk(s', j, s'.jobs[j]) {
      assert PhaseOk(s, j, s.jobs[j]);
    }
  }

  lemma RetryInv(s: Sys, id: nat, reading: Time)
    requires Inv(s) && Enabled(s, Retry(id, reading))
    ensures Inv(Apply(s, Retry(id, reading)))
  {
    var s' := Apply(s, Retry(id, reading));
    RetryKeepsExact(s.kv, id, reading);
    if Retryable(s.kv, id) {
      assert RowOk(id, s.kv.rows[id]) && DeferralOk(s, id, s.kv.rows[id]);
      UnclaimedPhases(s, s', id);
      assert Transacts(s, s', id, None);
      TransactsInv(s, s', id, None);
    }
  }

  lemma CancelInv(s: Sys, id: nat)
    requires Inv(s)
    ensures Inv(Apply(s, Cancel(id)))
  {
    var s' := Apply(s, Cancel(id));
    CancelKeepsExact(s.kv, id);
    if Cancellable(s.kv, id) {
      UnclaimedPhases(s, s', id);
      assert Transacts(s, s', id, None);
      TransactsInv(s, s', id, None);
    }
  }

  lemma PruneInv(s: Sys, id: nat, cutoff: Time)
    requires Inv(s)
    ensures Inv(Apply(s, Prune(id, cutoff)))
  {
    var s' := Apply(s, Prune(id, cutoff));
    PruneKeepsExact(s.kv, id, cutoff);
    if Prunable(s.kv, id, cutoff) {
      UnclaimedPhases(s, s', id);
      assert Transacts(s, s', id, None);
      TransactsInv(s, s', id, None);
    }
  }

  lemma StampWarningInv(s: Sys, j: Job)
    requires Inv(s) && Enabled(s, StampWarning(j)) && Quiet(s, StampWarning(j))
    ensures Inv(ApplyStampWarning(s, j))
  {
    var s' := ApplyStampWarning(s, j);
    var msg := s.jobs[j].msg;
    var id := msg.id;
    assert RowOk(id, s.kv.rows[id]) && DeferralOk(s, id, s.kv.rows[id]);
    StampKeepsExact(s.kv, msg.(lastWarningAt := s.clock), s.clock);
    UnclaimedPhases(s, s', id);
    StampTransacts(s, j);
    TransactsInv(s, s', id, None);
  }

  lemma StampTransacts(s: Sys, j: Job)
    requires j in s.jobs && s.jobs[j].Committed? && s.jobs[j].msg.state.Deferred?
    requires var m := s.jobs[j].msg; m.id in s.kv.rows && s.kv.rows[m.id] == m && DeferralOk(s, m.id, m)
    ensures Transacts(s, ApplyStampWarning(s, j), s.jobs[j].msg.id, None)
  {}

  lemma StampKeepsExact(kv: KV, msg: Message, now: Time)
    requires DueExact(kv) && RowsOk(kv.rows) && msg.state.Deferred?
    requires msg.id in kv.rows && Pos(kv.rows[msg.id]) == Pos(msg) && Live(kv, msg.id)
    ensures DueExact(SaveTxn(kv, msg, msg.nextAttempt, now))
  {
    var m := msg.(updatedAt := now);
    var kv' := SaveTxn(kv, msg, msg.nextAttempt, now);
    assert RowOk(m.id, kv.rows[m.id]);
    forall k ensures k in kv'.due <==> (k in kv.due && k.id != m.id) || k == Pos(m) {
      DueExactElement(kv, k);
    }
    ReplaceKeepsExact(kv, m.id, m, kv'.due);
  }

  // Actions that leave the stored rows alone.

  ghost predicate SameBooks(s: Sys, s': Sys) {
    && s'.kv == s.kv && s'.counter == s.counter && s'.submits == s.submits && s'.deferrals == s.deferrals
    && s'.doomed <= s.doomed && s.clock <= s'.clock
  }

  /** A worker's step, or its disappearance, that writes nothing to the store. */
  lemma WorkerStepInv(s: Sys, s': Sys)
    requires Inv(s) && SameBooks(s, s') && s'.reports == s.reports
    requires forall id :: id in s.blobs && Live(s.kv, id) ==> id in s'.blobs
    requires s'.jobs.Keys <= s.jobs.Keys
    requires forall j :: j in s'.jobs ==>
               s'.jobs[j] == s.jobs[j] || (PhaseOk(s, j, s'.jobs[j]) && (PastCommit(s'.jobs[j]) ==> PastCommit(s.jobs[j])))
    ensures Inv(s')
  {
    forall j | j in s'.jobs ensures PhaseOk(s', j, s'.jobs[j]) {
      assert PhaseOk(s, j, s.jobs[j]);
    }
    forall i | 0 <= i < |s'.reports| ensures ReportOk(s', s'.reports[i]) {
      assert ReportOk(s, s.reports[i]);
    }
    forall id | id in s'.kv.rows ensures DeferralOk(s', id, s'.kv.rows[id]) {
      assert DeferralOk(s, id, s.kv.rows[id]);
    }
  }

  lemma MoveInv(s: Sys, j: Job, p: Phase)
    requires Inv(s) && j in s.jobs && PhaseOk(s, j, p) && (PastCommit(p) ==> PastCommit(s.jobs[j]))
    ensures Inv(Move(s, j, p))
  {
    WorkerStepInv(s, Move(s, j, p));
  }

  ghost predicate Working(s: Sys, j: Job, claim: Message) {
    j in s.jobs && (s.jobs[j] == Claimed(claim) || s.jobs[j] == Handed(claim))
  }

  /** A claim always has somebody left to deliver to. */
  lemma ClaimHasPending(s: Sys, j: Job, claim: Message)
    requires PhasesOk(s) && Working(s, j, claim)
    ensures AnyPending(claim.recipients)
  {
    assert PhaseOk(s, j, s.jobs[j]);
  }

  lemma HandedInv(s: Sys, j: Job, claim: Message)
    requires Inv(s) && Working(s, j, claim)
    ensures Inv(Move(s, j, Handed(claim)))
  {
    assert PhaseOk(s, j, s.jobs[j]);
    MoveInv(s, j, Handed(claim));
  }

  lemma DecidedInv(s: Sys, j: Job, claim: Message, msg: Message)
    requires Inv(s) && Working(s, j, claim) && IsOutcome(claim, msg)
    ensures Inv(Move(s, j, Decided(claim, msg)))
  {
    assert PhaseOk(s, j, s.jobs[j]);
    MoveInv(s, j, Decided(claim, msg));
  }

  lemma RoundInv(s: Sys, a: Action)
    requires Inv(s) && Enabled(s, a)
    requires a.HandOver? || a.BodyUnreadable? || a.TransportError? || a.Results?
    ensures Inv(Apply(s, a))
  {
    var j := a.job;
    var claim := s.jobs[j].claim;
    ClaimHasPending(s, j, claim);
    if a.HandOver? {
      HandedInv(s, j, claim);
    } else if a.Results? {
      ResolvedIsOutcome(claim, a.results, s.clock, a.delay);
      DecidedInv(s, j, claim, Resolved(claim, a.results, s.clock, a.delay));
    } else {
      var error := if a.BodyUnreadable? then "blob read: " + a.error else a.error;
      TransportFailedIsOutcome(claim, error, s.clock, a.delay);
      DecidedInv(s, j, claim, TransportFailed(claim, error, s.clock, a.delay));
    }
  }

  lemma ReclaimBodyInv(s: Sys, j: Job)
    requires Inv(s) && Enabled(s, ReclaimBody(j))
    ensures Inv(Apply(s, ReclaimBody(j)))
  {
    assert PhaseOk(s, j, s.jobs[j]);
    WorkerStepInv(s, Apply(s, ReclaimBody(j)));
  }

  lemma ReportBounceInv(s: Sys, j: Job)
    requires Inv(s) && Enabled(s, ReportBounce(j))
    ensures Inv(Apply(s, ReportBounce(j)))
  {
    var msg := s.jobs[j].msg;
    assert PhaseOk(s, j, s.jobs[j]);
    AddressesWithNonEmpty(msg.recipients, Status.Bounced);
    var ended := Finish(s, j);
    WorkerStepInv(s, ended);
    var r := BounceReport(msg.id, AddressesWith(msg.recipients, Status.Bounced));
    assert !Reported(s, msg.id);
    AddReportInv(ended, r);
  }

  lemma AddReportInv(s: Sys, r: BounceReport)
    requires Inv(s) && ReportOk(s, r) && !Reported(s, r.id)
    requires forall j :: j in s.jobs && PastCommit(s.jobs[j]) ==> j.due.id != r.id
    ensures Inv(s.(reports := s.reports + [r]))
  {
    var s' := s.(reports := s.reports + [r]);
    forall i | 0 <= i < |s'.reports| ensures ReportOk(s', s'.reports[i]) {
      assert i < |s.reports| ==> ReportOk(s, s.reports[i]);
    }
    forall j | j in s.jobs ensures PhaseOk(s', j, s.jobs[j]) {
      assert PhaseOk(s, j, s.jobs[j]);
    }
    forall id | id in s.kv.rows ensures DeferralOk(s', id, s.kv.rows[id]) {
      assert DeferralOk(s, id, s.kv.rows[id]);
    }
  }

  /** Scanning an exact index starts at most one worker per message. */
  lemma ScanStartsOneEach(s: Sys, node: string)
    requires RowsOk(s.kv.rows) && DueExact(s.kv) && OneWorkerPerNode(s)
    requires forall j :: j in s.jobs ==> j.node != node
    ensures OneWorkerPerNode(ApplyScan(s, node))
  {
    forall j, j' | j in Starts(s, node) && j' in Starts(s, node) && j.due.id == j'.due.id ensures j == j' {
      DueExactElement(s.kv, j.due);
      DueExactElement(s.kv, j'.due);
    }
  }

  lemma ScanPhases(s: Sys, node: string)
    requires PhasesOk(s) && ReportsOk(s) && DeferralsOk(s)
    requires forall j :: j in s.jobs ==> j.node != node
    ensures PhasesOk(ApplyScan(s, node))
    ensures ReportsOk(ApplyScan(s, node)) && DeferralsOk(ApplyScan(s, node))
  {
    var s' := ApplyScan(s, node);
    forall j | j in s'.jobs ensures PhaseOk(s', j, s'.jobs[j]) {
      assert j in s.jobs ==> PhaseOk(s, j, s.jobs[j]);
    }
    forall i | 0 <= i < |s'.reports| ensures ReportOk(s', s'.reports[i]) {
      assert ReportOk(s, s.reports[i]);
    }
    forall id | id in s'.kv.rows ensures DeferralOk(s', id, s'.kv.rows[id]) {
      assert DeferralOk(s, id, s.kv.rows[id]);
    }
  }

  lemma ScanBooks(s: Sys, node: string)
    requires IdsOk(s) && BodiesOk(s) && OneFinisher(s)
    requires forall j :: j in s.jobs ==> j.node != node
    ensures IdsOk(ApplyScan(s, node)) && BodiesOk(ApplyScan(s, node)) && OneFinisher(ApplyScan(s, node))
  {
    var s' := ApplyScan(s, node);
    forall j | j in s'.jobs && PastCommit(s'.jobs[j]) ensures j in s.jobs && s'.jobs[j] == s.jobs[j] {}
  }

  lemma ScanInv(s: Sys, node: string)
    requires Inv(s)
    requires forall j :: j in s.jobs ==> j.node != node
    ensures Inv(ApplyScan(s, node))
  {
    var s' := ApplyScan(s, node);
    ScanStartsOneEach(s, node);
    ScanPhases(s, node);
    ScanBooks(s, node);
    assert s'.kv == s.kv;
  }

  // Submission.

  /** Ids come and go for submissions without touching any message already stored. */
  lemma SubmitBooksInv(s: Sys, s': Sys)
    requires Inv(s)
    requires s' == s.(counter := s'.counter, submits := s'.submits, blobs := s'.blobs)
    requires s.counter <= s'.counter && s.blobs <= s'.blobs
    requires forall id :: id in s'.submits ==> id <= s'.counter && (id in s.submits || id > s.counter)
    ensures Inv(s')
  {
    forall j | j in s'.jobs ensures PhaseOk(s', j, s'.jobs[j]) {
      assert PhaseOk(s, j, s.jobs[j]);
    }
    forall i | 0 <= i < |s'.reports| ensures ReportOk(s', s'.reports[i]) {
      assert ReportOk(s, s.reports[i]);
    }
    forall id | id in s'.kv.rows ensures DeferralOk(s', id, s'.kv.rows[id]) {
      assert DeferralOk(s, id, s.kv.rows[id]);
    }
  }

  function ApplySaveNew(s: Sys, id: nat, to: seq<string>, maxAttempts: int): Sys {
    s.(kv := SaveTxn(s.kv, FreshRow(id, to, maxAttempts, s.clock), ZERO_TIME, s.clock), submits := s.submits - {id})
  }

  lemma SaveNewPhases(s: Sys, id: nat, to: seq<string>, maxAttempts: int)
    requires PhasesOk(s) && ReportsOk(s) && id in s.submits && id !in s.kv.rows && id <= s.counter
    ensures PhasesOk(ApplySaveNew(s, id, to, maxAttempts)) && ReportsOk(ApplySaveNew(s, id, to, maxAttempts))
  {
    var s' := ApplySaveNew(s, id, to, maxAttempts);
    forall j | j in s'.jobs ensures PhaseOk(s', j, s'.jobs[j]) {
      assert PhaseOk(s, j, s.jobs[j]);
    }
    forall i | 0 <= i < |s'.reports| ensures ReportOk(s', s'.reports[i]) {
      assert ReportOk(s, s.reports[i]);
    }
  }

  lemma SaveNewInv(s: Sys, id: nat, to: seq<string>, maxAttempts: int)
    requires Inv(s) && id in s.submits && id in s.blobs && to != [] && 1 <= maxAttempts
    ensures Inv(ApplySaveNew(s, id, to, maxAttempts))
  {
    var s' := ApplySaveNew(s, id, to, maxAttempts);
    var row := FreshRow(id, to, maxAttempts, s.clock);
    assert row.recipients[0].status == Status.Pending;
    assert id !in s.kv.rows;
    SaveNewKeepsExact(s.kv, row, s.clock);
    SaveNewPhases(s, id, to, maxAttempts);
    forall k | k in s'.kv.rows ensures DeferralOk(s', k, s'.kv.rows[k]) {
      assert k != id ==> DeferralOk(s, k, s.kv.rows[k]);
    }
  }

  // ---------------------------------------------------------------------------------------------
  // Runs

  lemma StoreStepInv(s: Sys, a: Action)
    requires Inv(s) && Enabled(s, a) && Quiet(s, a)
    requires a.SaveNew? || a.Claim? || a.Commit? || a.StampWarning? || a.Retry? || a.Cancel? || a.Prune?
    ensures Inv(Apply(s, a))
  {
    match a
    case SaveNew(id, to, maxAttempts) => SaveNewInv(s, id, to, maxAttempts);
    case Claim(j, reading, lease) => ClaimInv(s, j, reading, lease);
    case Commit(j) => CommitInv(s, j);
    case StampWarning(j) => StampWarningInv(s, j);
    case Retry(id, reading) => RetryInv(s, id, reading);
    case Cancel(id) => CancelInv(s, id);
    case Prune(id, cutoff) => PruneInv(s, id, cutoff);
  }

  lemma SubmitStepInv(s: Sys, a: Action)
    requires Inv(s) && Enabled(s, a) && (a.AllocId? || a.Spool? || a.AbandonSubmit?)
    ensures Inv(Apply(s, a))
  {
    SubmitBooksInv(s, Apply(s, a));
  }

  lemma IdleStepInv(s: Sys, a: Action)
    requires Inv(s) && Enabled(s, a) && (a.Tick? || a.EndJob? || a.DeleteBody? || a.ForgetBody?)
    ensures Inv(Apply(s, a))
  {
    WorkerStepInv(s, Apply(s, a));
  }

  lemma StepInv(s: Sys, a: Action)
    requires Inv(s) && Enabled(s, a) && Quiet(s, a)
    ensures Inv(Apply(s, a))
  {
    if a.AllocId? || a.Spool? || a.AbandonSubmit? {
      SubmitStepInv(s, a);
    } else if a.Tick? || a.EndJob? || a.DeleteBody? || a.ForgetBody? {
      IdleStepInv(s, a);
    } else if a.HandOver? || a.BodyUnreadable? || a.TransportError? || a.Results? {
      RoundInv(s, a);
    } else if a.Scan? {
      ScanInv(s, a.node);
    } else if a.ReclaimBody? {
      ReclaimBodyInv(s, a.job);
    } else if a.ReportBounce? {
      ReportBounceInv(s, a.job);
    } else {
      StoreStepInv(s, a);
    }
  }
}
