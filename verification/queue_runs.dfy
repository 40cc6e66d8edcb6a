/**
 What holds over whole runs of the outbound queue. A run is the list of actions taken from the empty queue; every
 interleaving of every number of managers, with crashes, is such a list.
 */
module QueueRuns {
  import opened Options
  import opened QueueRow
  import opened QueueStore
  import opened QueueSystem

  /** The state a run leads to, when each of its actions was possible in its turn. */
  ghost function After(run: seq<Action>): Option<Sys> {
    if run == [] then Some(INITIAL)
    else
      var before := After(run[..|run| - 1]);
      var a := run[|run| - 1];
      if before.Some? && Enabled(before.value, a) then Some(Apply(before.value, a)) else None
  }

  /** No delay-warning stamp of this run overwrote a row that had moved on. */
  ghost predicate QuietRun(run: seq<Action>) {
    run == [] ||
    (QuietRun(run[..|run| - 1]) &&
     match After(run[..|run| - 1])
     case None => true
     case Some(s) => Enabled(s, run[|run| - 1]) ==> Quiet(s, run[|run| - 1]))
  }

  /** The states that quiet runs reach. */
  ghost predicate Reached(run: seq<Action>, s: Sys) {
    QuietRun(run) && After(run) == Some(s)
  }

  lemma {:induction false} ReachedInv(run: seq<Action>, s: Sys)
    requires Reached(run, s)
    ensures Inv(s)
  {
    if run == [] {
      assert IndexOf(map[]) == {};
    } else {
      var before := After(run[..|run| - 1]).value;
      ReachedInv(run[..|run| - 1], before);
      StepInv(before, run[|run| - 1]);
    }
  }

  /** The due index is exactly one entry per unfinished row, at that row's due second: nothing lost, no ghost. */
  lemma DueIndexIsExact(run: seq<Action>, s: Sys)
    requires Reached(run, s)
    ensures s.kv.due == set id | id in s.kv.rows && !Terminal(s.kv.rows[id].state) ::
                          DueKey(Unix(DuePos(s.kv.rows[id])), id)
  {
    ReachedInv(run, s);
    forall k ensures k in s.kv.due <==> Live(s.kv, k.id) && k == DueKey(Unix(DuePos(s.kv.rows[k.id])), k.id) {
      DueExactElement(s.kv, k);
    }
  }

  /** A scheduling round starts a worker on exactly the unfinished messages whose lease or waiting time is over. */
  lemma ScanStartsDue(run: seq<Action>, s: Sys, node: string, id: nat)
    requires Reached(run, s)
    ensures (exists j :: j in Starts(s, node) && j.due.id == id) <==>
            && id in s.kv.rows
            && match s.kv.rows[id].state
               case Active => s.kv.rows[id].leaseUntil / NANOS_PER_SECOND <= s.clock / NANOS_PER_SECOND
               case Queued => s.kv.rows[id].nextAttempt / NANOS_PER_SECOND <= s.clock / NANOS_PER_SECOND
               case Deferred => s.kv.rows[id].nextAttempt / NANOS_PER_SECOND <= s.clock / NANOS_PER_SECOND
               case _ => false
  {
    ReachedInv(run, s);
    if id in s.kv.rows {
      assert RowOk(id, s.kv.rows[id]);
      var k := Pos(s.kv.rows[id]);
      DueExactElement(s.kv, k);
      assert k in DueNow(s) ==> Job(node, k) in Starts(s, node);
    }
    if j :| j in Starts(s, node) && j.due.id == id {
      DueExactElement(s.kv, j.due);
    }
  }

  /** A row is finished exactly when nobody is pending, and an unfinished row still has its body. */
  lemma RowsAreSound(run: seq<Action>, s: Sys, id: nat)
    requires Reached(run, s) && id in s.kv.rows
    ensures Terminal(s.kv.rows[id].state) <==>
              forall i :: 0 <= i < |s.kv.rows[id].recipients| ==> s.kv.rows[id].recipients[i].status != Status.Pending
    ensures !Terminal(s.kv.rows[id].state) ==> id in s.blobs
  {
    ReachedInv(run, s);
    assert RowOk(id, s.kv.rows[id]);
    assert !Terminal(s.kv.rows[id].state) ==> Live(s.kv, id);
  }

  /** The worker holds an uncommitted claim whose lease has not run out. */
  ghost predicate InLease(s: Sys, j: Job) {
    j in s.jobs && HasClaim(s.jobs[j]) && s.clock < s.jobs[j].claim.leaseUntil
  }

  lemma InLeaseHoldsRow(run: seq<Action>, s: Sys, j: Job)
    requires Reached(run, s) && InLease(s, j)
    ensures j.due.id in s.kv.rows && s.kv.rows[j.due.id] == s.jobs[j].claim
    ensures s.kv.rows[j.due.id].state.Active? && s.kv.rows[j.due.id].owner == j.node
    ensures s.kv.rows[j.due.id].leaseUntil == s.jobs[j].claim.leaseUntil
  {
    ReachedInv(run, s);
    assert PhaseOk(s, j, s.jobs[j]);
  }

  /** Fencing: no two workers on one message are in lease at once, on one node or on several. */
  lemma OneWorkerInLease(run: seq<Action>, s: Sys, j: Job, j': Job)
    requires Reached(run, s) && InLease(s, j) && InLease(s, j') && j.due.id == j'.due.id
    ensures j == j'
  {
    ReachedInv(run, s);
    InLeaseHoldsRow(run, s, j);
    InLeaseHoldsRow(run, s, j');
  }

  /** An outcome lands only on the very row its own claim wrote; otherwise the store is untouched. */
  lemma CommitLandsOnOwnClaim(run: seq<Action>, s: Sys, j: Job)
    requires Reached(run, s) && Enabled(s, Commit(j))
    ensures var claim, msg, s' := s.jobs[j].claim, s.jobs[j].msg, Apply(s, Commit(j));
            if OwnsClaim(s.kv, claim.id, j.node)
            then s.kv.rows[claim.id] == claim && s'.kv.rows == s.kv.rows[claim.id := msg.(updatedAt := s.clock)]
            else s'.kv == s.kv
  {
    ReachedInv(run, s);
    assert PhaseOk(s, j, s.jobs[j]);
  }

  /** While its lease lasts, a worker hands over exactly the recipients the stored row still has pending. */
  lemma InLeaseHandsOverPendingOnly(run: seq<Action>, s: Sys, j: Job)
    requires Reached(run, s) && InLease(s, j)
    ensures j.due.id in s.kv.rows
    ensures var handed := AddressesWith(s.jobs[j].claim.recipients, Status.Pending);
            Names(handed, s.kv.rows[j.due.id].recipients, Status.Pending) && handed != []
  {
    InLeaseHoldsRow(run, s, j);
    RowsAreSound(run, s, j.due.id);
    AddressesWithNonEmpty(s.jobs[j].claim.recipients, Status.Pending);
    AddressesWithNames(s.jobs[j].claim.recipients, Status.Pending,
                       AddressesWith(s.jobs[j].claim.recipients, Status.Pending));
  }

  /** A recipient the stored row has resolved is handed over again only by a worker whose lease ran out. */
  lemma RepeatNeedsExpiredLease(run: seq<Action>, s: Sys, j: Job, i: nat)
    requires Reached(run, s) && Enabled(s, HandOver(j, 0)) && j.due.id in s.kv.rows
    requires i < |s.jobs[j].claim.recipients| && s.jobs[j].claim.recipients[i].status.Pending?
    requires i < |s.kv.rows[j.due.id].recipients| && !s.kv.rows[j.due.id].recipients[i].status.Pending?
    ensures s.jobs[j].claim.leaseUntil <= s.clock
    ensures !OwnsClaim(s.kv, j.due.id, j.node)
  {
    ReachedInv(run, s);
    assert PhaseOk(s, j, s.jobs[j]);
  }

  // ---------------------------------------------------------------------------------------------
  // How a row may change

  /** A finished id is not reopened, and a recipient moves only out of Pending. */
  ghost predicate Advanced(s: Sys, s': Sys, id: nat) {
    && (id in s.kv.rows && id in s'.kv.rows ==>
          && AllAdvance(s.kv.rows[id].recipients, s'.kv.rows[id].recipients)
          && (Terminal(s.kv.rows[id].state) ==> s'.kv.rows[id] == s.kv.rows[id]))
    && (id <= s.counter && id !in s.submits && id !in s.kv.rows ==>
          id <= s'.counter && id !in s'.submits && id !in s'.kv.rows)
    && (id in s.kv.rows ==> id <= s'.counter && id !in s'.submits)
  }

  lemma CommitAdvances(s: Sys, j: Job, id: nat)
    requires j in s.jobs && s.jobs[j].Decided? && PhaseOk(s, j, s.jobs[j]) && IdsOk(s)
    ensures Advanced(s, ApplyCommit(s, j), id)
  {}

  lemma StepAdvances(s: Sys, a: Action, id: nat)
    requires Inv(s) && Enabled(s, a) && Quiet(s, a)
    ensures Advanced(s, Apply(s, a), id)
  {
    if a.Commit? {
      assert PhaseOk(s, a.job, s.jobs[a.job]);
      CommitAdvances(s, a.job, id);
    } else {
      OtherAdvances(s, a, id);
    }
  }

  lemma OtherAdvances(s: Sys, a: Action, id: nat)
    requires IdsOk(s) && Enabled(s, a) && Quiet(s, a) && !a.Commit?
    ensures Advanced(s, Apply(s, a), id)
  {
    match a {
      case SaveNew(_, _, _) => assert Apply(s, a).kv.rows.Keys == s.kv.rows.Keys + {a.id};
      case Claim(j, reading, lease) => ClaimAdvances(s, j, reading, lease, id);
      case StampWarning(j) => assert s.kv.rows[s.jobs[j].msg.id] == s.jobs[j].msg;
      case _ =>
    }
  }

  lemma ClaimAdvances(s: Sys, j: Job, reading: Time, lease: Time, id: nat)
    requires IdsOk(s)
    ensures Advanced(s, ApplyClaim(s, j, reading, lease), id)
  {}

  lemma ReachedStepAdvances(run: seq<Action>, s: Sys, a: Action, id: nat)
    requires Reached(run, s) && Enabled(s, a) && Quiet(s, a)
    ensures Advanced(s, Apply(s, a), id)
  {
    ReachedInv(run, s);
    StepAdvances(s, a, id);
  }

  /** Over any stretch of a run, a stored row only advances or disappears, and a finished one never changes again. */
  lemma {:induction false} RowsOnlyAdvance(run: seq<Action>, more: seq<Action>, s: Sys, t: Sys, id: nat)
    requires Reached(run, s) && Reached(run + more, t) && id in s.kv.rows
    ensures id in t.kv.rows ==>
              && AllAdvance(s.kv.rows[id].recipients, t.kv.rows[id].recipients)
              && (Terminal(s.kv.rows[id].state) ==> t.kv.rows[id] == s.kv.rows[id])
    ensures id <= t.counter && id !in t.submits
    decreases |more|
  {
    if more == [] {
      assert run + more == run;
      ReachedInv(run, s);
    } else {
      var front, last := more[..|more| - 1], more[|more| - 1];
      assert (run + more)[..|run + more| - 1] == run + front;
      var u := After(run + front).value;
      RowsOnlyAdvance(run, front, s, u, id);
      ReachedStepAdvances(run + front, u, last, id);
      if id in u.kv.rows && id in t.kv.rows {
        AllAdvanceTransitive(s.kv.rows[id].recipients, u.kv.rows[id].recipients, t.kv.rows[id].recipients);
      }
    }
  }

  // ---------------------------------------------------------------------------------------------
  // Bounce reports and deferrals

  /** At some moment of the run the store held this very row. */
  ghost predicate WasStored(run: seq<Action>, m: Message) {
    exists n :: 0 <= n <= |run| && StoredAt(run[..n], m)
  }

  ghost predicate StoredAt(run: seq<Action>, m: Message) {
    match After(run)
    case None => false
    case Some(s) => m.id in s.kv.rows && s.kv.rows[m.id] == m
  }

  /** The report names exactly the recipients that bounced in a bounced row of its message. */
  ghost predicate ReportsRow(r: BounceReport, m: Message) {
    m.id == r.id && m.state.Bounced? && Names(r.to, m.recipients, Status.Bounced)
  }

  ghost predicate Explained(run: seq<Action>, r: BounceReport) {
    exists m :: WasStored(run, m) && ReportsRow(r, m)
  }

  ghost predicate Traced(run: seq<Action>, s: Sys) {
    && (forall j :: j in s.jobs && PastCommit(s.jobs[j]) ==> WasStored(run, s.jobs[j].msg))
    && (forall i :: 0 <= i < |s.reports| ==> Explained(run, s.reports[i]))
  }

  lemma WasStoredLater(run: seq<Action>, m: Message)
    requires run != [] && WasStored(run[..|run| - 1], m)
    ensures WasStored(run, m)
  {
    var front := run[..|run| - 1];
    var n :| 0 <= n <= |front| && StoredAt(front[..n], m);
    assert run[..n] == front[..n];
  }

  /** What one step adds: a commit stores what its worker carries on, and a report speaks of what its worker carries. */
  lemma StepTraces(s: Sys, a: Action, s': Sys)
    requires Enabled(s, a) && s' == Apply(s, a)
    ensures forall j :: j in s'.jobs && PastCommit(s'.jobs[j]) ==>
              || (j in s.jobs && PastCommit(s.jobs[j]) && s'.jobs[j].msg == s.jobs[j].msg)
              || (var m := s'.jobs[j].msg; m.id in s'.kv.rows && s'.kv.rows[m.id] == m)
    ensures forall i :: 0 <= i < |s'.reports| ==>
              || (i < |s.reports| && s'.reports[i] == s.reports[i])
              || exists j :: j in s.jobs && PastCommit(s.jobs[j]) && ReportsRow(s'.reports[i], s.jobs[j].msg)
  {
    if a.ReportBounce? {
      var rs := s.jobs[a.job].msg.recipients;
      assert Terminal(s.jobs[a.job].msg.state);
      AddressesWithNames(rs, Status.Bounced, AddressesWith(rs, Status.Bounced));
      assert |s.reports| < |s'.reports| ==> ReportsRow(s'.reports[|s.reports|], s.jobs[a.job].msg);
    } else {
      assert s'.reports == s.reports;
    }
  }

  lemma {:induction false} ReachedTraced(run: seq<Action>, s: Sys)
    requires After(run) == Some(s)
    ensures Traced(run, s)
  {
    if run != [] {
      var front, a := run[..|run| - 1], run[|run| - 1];
      var before := After(front).value;
      ReachedTraced(front, before);
      StepTraces(before, a, s);
      assert run[..|run|] == run;
      forall j | j in s.jobs && PastCommit(s.jobs[j]) ensures WasStored(run, s.jobs[j].msg) {
        var m := s.jobs[j].msg;
        if m.id in s.kv.rows && s.kv.rows[m.id] == m {
          assert StoredAt(run[..|run|], m);
        } else {
          WasStoredLater(run, m);
        }
      }
      forall i | 0 <= i < |s.reports| ensures Explained(run, s.reports[i]) {
        ReportTraced(run, before, s, i);
      }
    }
  }

  lemma ReportTraced(run: seq<Action>, before: Sys, s: Sys, i: nat)
    requires run != [] && Traced(run[..|run| - 1], before) && i < |s.reports|
    requires || (i < |before.reports| && s.reports[i] == before.reports[i])
             || exists j :: j in before.jobs && PastCommit(before.jobs[j]) && ReportsRow(s.reports[i], before.jobs[j].msg)
    ensures Explained(run, s.reports[i])
  {
    var front := run[..|run| - 1];
    var m :| WasStored(front, m) && ReportsRow(s.reports[i], m);
    WasStoredLater(run, m);
  }

  /**
   The bounce handler is called at most once per message, and names exactly the recipients that bounced: in the bounced
   row that some step of the run stored, and in the row that is still there, if it is.
   */
  lemma BounceReportedOnce(run: seq<Action>, s: Sys, i: nat)
    requires Reached(run, s) && i < |s.reports|
    ensures forall k :: 0 <= k < |s.reports| && k != i ==> s.reports[k].id != s.reports[i].id
    ensures s.reports[i].to != []
    ensures Explained(run, s.reports[i])
    ensures var id := s.reports[i].id;
            id in s.kv.rows ==>
              && s.kv.rows[id].state.Bounced?
              && Names(s.reports[i].to, s.kv.rows[id].recipients, Status.Bounced)
  {
    ReachedInv(run, s);
    ReachedTraced(run, s);
    assert ReportOk(s, s.reports[i]);
    var id := s.reports[i].id;
    if id in s.kv.rows {
      AddressesWithNames(s.kv.rows[id].recipients, Status.Bounced, s.reports[i].to);
    }
  }

  /** Between two retries a message commits at most one deferral fewer than it has attempts. */
  lemma DeferralsAreBounded(run: seq<Action>, s: Sys, id: nat)
    requires Reached(run, s) && id in s.kv.rows
    ensures Deferrals(s, id) <= s.kv.rows[id].maxAttempts - 1
  {
    ReachedInv(run, s);
    assert DeferralOk(s, id, s.kv.rows[id]);
  }

  // ---------------------------------------------------------------------------------------------
  // Where the guarantees end

  ghost predicate NoStamps(run: seq<Action>) {
    forall i :: 0 <= i < |run| ==> !run[i].StampWarning?
  }

  lemma Then(run: seq<Action>, s: Sys, a: Action) returns (longer: seq<Action>, s': Sys)
    requires After(run) == Some(s) && Enabled(s, a)
    ensures After(longer) == Some(s') && s' == Apply(s, a)
    ensures NoStamps(run) && !a.StampWarning? ==> NoStamps(longer)
  {
    longer, s' := run + [a], Apply(s, a);
    assert longer[..|run|] == run;
  }

  /** A message for one recipient, submitted at the epoch. */
  lemma Submitted() returns (run: seq<Action>, s: Sys)
    ensures After(run) == Some(s) && NoStamps(run)
    ensures s == Sys(KV(map[1 := FreshRow(1, ["a"], 10, 0)], {DueKey(0, 1)}), 1, {}, {1}, {}, 0, map[], [], map[])
  {
    run, s := Then([], INITIAL, AllocId);
    run, s := Then(run, s, Spool(1));
    run, s := Then(run, s, SaveNew(1, ["a"], 10));
  }

  const JOB_A := Job("A", DueKey(0, 1))

  function ClaimOfA(): Message {
    ClaimRow(FreshRow(1, ["a"], 10, 0), "A", 0, NANOS_PER_SECOND)
  }

  /** The same message, claimed by node A under a one-second lease. */
  lemma ClaimedByA() returns (run: seq<Action>, s: Sys)
    ensures After(run) == Some(s) && NoStamps(run)
    ensures s == Sys(KV(map[1 := ClaimOfA()], {DueKey(1, 1)}), 1, {}, {1}, {}, 0, map[JOB_A := Claimed(ClaimOfA())],
                     [], map[])
  {
    run, s := Submitted();
    assert Starts(s, "A") == {JOB_A};
    run, s := Then(run, s, Scan("A"));
    assert s.jobs == map[JOB_A := Spawned];
    run, s := Then(run, s, Claim(JOB_A, 0, NANOS_PER_SECOND));
  }

  /** A worker with its claim hands it over and the round ends in outcome `msg`. */
  lemma DecidedRun(run: seq<Action>, s: Sys, j: Job, claim: Message, a: Action, msg: Message)
      returns (longer: seq<Action>, s': Sys)
    requires After(run) == Some(s) && j in s.jobs && s.jobs[j] == Claimed(claim) && claim.id in s.blobs
    requires AnyPending(claim.recipients)
    requires || (a.TransportError? && a.job == j && msg == TransportFailed(claim, a.error, s.clock, a.delay))
             || (a.Results? && a.job == j && msg == Resolved(claim, a.results, s.clock, a.delay))
    ensures After(longer) == Some(s') && s' == Move(s, j, Decided(claim, msg))
    ensures NoStamps(run) ==> NoStamps(longer)
  {
    longer, s' := Then(run, s, HandOver(j, 0));
    longer, s' := Then(longer, s', a);
    assert s.jobs[j := Handed(claim)][j := Decided(claim, msg)] == s.jobs[j := Decided(claim, msg)];
  }

  /** A worker alone with its claim meets a transport failure and commits a deferral. */
  lemma DeferralRun(run: seq<Action>, s: Sys, j: Job, claim: Message, delay: Time)
      returns (longer: seq<Action>, s': Sys, msg: Message)
    requires After(run) == Some(s) && s.jobs == map[j := Claimed(claim)] && s.kv.rows == map[claim.id := claim]
    requires s.kv.due == {DueKey(Unix(claim.leaseUntil), claim.id)} && claim.id in s.blobs
    requires claim.state.Active? && claim.owner == j.node
    requires AnyPending(claim.recipients) && claim.attempts < claim.maxAttempts
    ensures After(longer) == Some(s') && s'.jobs == map[j := Committed(msg)] && msg.state.Deferred? && msg.id == claim.id
    ensures s'.kv == KV(map[claim.id := msg], {DueKey(Unix(s.clock + delay), claim.id)}) && s'.blobs == s.blobs
    ensures msg.nextAttempt == s.clock + delay && s'.doomed == s.doomed
  {
    msg := TransportFailed(claim, "down", s.clock, delay);
    longer, s' := DecidedRun(run, s, j, claim, TransportError(j, "down", delay), msg);
    longer, s' := Then(longer, s', Commit(j));
    msg := msg.(updatedAt := s.clock);
  }

  /**
   The unfenced delay-warning stamp can resurrect a withdrawn message: an unfinished row with neither a due entry nor
   a body, which no scheduler will ever look at again.
   */
  lemma StampCanLoseMessage()
    ensures exists run, s, id :: After(run) == Some(s) && Live(s.kv, id) && s.kv.due == {} && id !in s.blobs
  {
    var run, s := ClaimedByA();
    assert ClaimOfA().recipients[0].status == Status.Pending;
    var msg;
    run, s, msg := DeferralRun(run, s, JOB_A, ClaimOfA(), 5 * NANOS_PER_SECOND);
    run, s := CancelledThenStamped(run, s, JOB_A, msg);
  }

  lemma CancelledThenStamped(run: seq<Action>, s: Sys, j: Job, msg: Message) returns (longer: seq<Action>, s': Sys)
    requires After(run) == Some(s) && s.jobs == map[j := Committed(msg)] && s.doomed == {}
    requires s.kv == KV(map[msg.id := msg], {DueKey(Unix(msg.nextAttempt), msg.id)})
    requires msg.state.Deferred? && msg.nextAttempt != ZERO_TIME
    ensures After(longer) == Some(s') && Live(s'.kv, msg.id) && s'.kv.due == {} && msg.id !in s'.blobs
  {
    longer, s' := Then(run, s, Cancel(msg.id));
    assert s' == s.(kv := KV(map[], {}), doomed := {msg.id});
    longer, s' := Then(longer, s', DeleteBody(msg.id));
    assert s' == s.(kv := KV(map[], {}), blobs := s.blobs - {msg.id}, doomed := {});
    longer, s' := Then(longer, s', StampWarning(j));
  }

  // ---------------------------------------------------------------------------------------------
  // When a recipient can be sent to twice

  lemma {:induction false} NoStampsQuiet(run: seq<Action>)
    requires NoStamps(run)
    ensures QuietRun(run)
  {
    if run != [] {
      NoStampsQuiet(run[..|run| - 1]);
    }
  }

  /** A quiet run, longer by a stretch without stamps. */
  ghost predicate Continues(run: seq<Action>, more: seq<Action>, t: Sys) {
    Reached(run + more, t) && NoStamps(more)
  }

  lemma Next(run: seq<Action>, more: seq<Action>, t: Sys, a: Action) returns (more': seq<Action>, t': Sys)
    requires Continues(run, more, t) && Enabled(t, a) && !a.StampWarning?
    ensures Continues(run, more', t') && t' == Apply(t, a)
  {
    more', t' := more + [a], Apply(t, a);
    assert (run + more')[..|run + more|] == run + more;
  }

  lemma {:induction false} LengthBound(names: set<string>) returns (n: nat)
    ensures forall x :: x in names ==> |x| < n
    decreases |names|
  {
    if names == {} {
      n := 0;
    } else {
      var x :| x in names;
      n := LengthBound(names - {x});
      n := if n <= |x| then |x| + 1 else n;
    }
  }

  /** There is always another node that runs no worker. */
  lemma FreshNode(s: Sys) returns (node: string)
    ensures forall j :: j in s.jobs ==> j.node != node
  {
    var names := set j | j in s.jobs :: j.node;
    var n := LengthBound(names);
    node := seq(n, _ => 'n');
    assert forall j :: j in s.jobs ==> j.node in names;
  }

  /** Another node's scan finds the claim once its lease is over. */
  lemma ScannedByOther(run: seq<Action>, s: Sys, j: Job, now: Time) returns (more: seq<Action>, t: Sys, j': Job)
    requires Reached(run, s) && j in s.jobs && s.jobs[j].Claimed? && s.clock <= now
    requires j.due.id in s.kv.rows && s.kv.rows[j.due.id] == s.jobs[j].claim && s.jobs[j].claim.leaseUntil <= now
    ensures Continues(run, more, t) && t.kv == s.kv && t.blobs == s.blobs && t.clock == now
    ensures j in t.jobs && t.jobs[j] == s.jobs[j] && j' != j && j'.due.id == j.due.id && j' in t.jobs && t.jobs[j'] == Spawned
    ensures j.due.id in s.blobs && t.jobs[j].claim.state.Active?
  {
    var claim := s.jobs[j].claim;
    ReachedInv(run, s);
    assert PhaseOk(s, j, s.jobs[j]) && Live(s.kv, claim.id);
    var node := FreshNode(s);
    j' := Job(node, Pos(claim));
    DueExactElement(s.kv, j'.due);
    assert run + [] == run;
    more, t := Next(run, [], s, Tick(now));
    assert j' in Starts(t, node);
    more, t := Next(run, more, t, Scan(node));
  }

  function Welcome(rs: seq<Recipient>): map<string, Result> {
    map r | r in rs :: r.address := Result(true, false, "")
  }

  function Welcomed(rs: seq<Recipient>): seq<Recipient> {
    SettleAll(rs, Welcome(rs))
  }

  /** The other node steals the claim and hands it over. */
  lemma Stolen(run: seq<Action>, before: seq<Action>, s: Sys, j': Job, claim: Message)
      returns (more: seq<Action>, t: Sys, next: Message)
    requires Continues(run, before, s) && j' in s.jobs && s.jobs[j'] == Spawned
    requires j'.due.id in s.kv.rows && s.kv.rows[j'.due.id] == claim && claim.id == j'.due.id && claim.id in s.blobs
    requires claim.state.Active? && claim.leaseUntil <= s.clock && AnyPending(claim.recipients)
    ensures Continues(run, more, t) && t.blobs == s.blobs && t.clock == s.clock && t.jobs == s.jobs[j' := Handed(next)]
    ensures next == ClaimRow(claim, j'.node, s.clock, NANOS_PER_SECOND)
    ensures claim.id in t.kv.rows && t.kv.rows[claim.id] == next
  {
    next := ClaimRow(claim, j'.node, s.clock, NANOS_PER_SECOND);
    more, t := Next(run, before, s, Claim(j', s.clock, NANOS_PER_SECOND));
    assert t == Move(s.(kv := t.kv), j', Claimed(next)) && t.kv.rows[claim.id] == next;
    more, t := Next(run, more, t, HandOver(j', 0));
  }

  /** A round that delivers to everybody still pending. */
  lemma DeliveredToAll(run: seq<Action>, before: seq<Action>, s: Sys, j': Job, claim: Message)
      returns (more: seq<Action>, t: Sys)
    requires Continues(run, before, s) && j' in s.jobs && s.jobs[j'] == Handed(claim)
    requires OwnsClaim(s.kv, claim.id, j'.node)
    ensures Continues(run, more, t) && t.blobs == s.blobs && t.clock == s.clock
    ensures forall j :: j in s.jobs && j != j' ==> j in t.jobs && t.jobs[j] == s.jobs[j]
    ensures claim.id in t.kv.rows && t.kv.rows[claim.id].recipients == Welcomed(claim.recipients)
  {
    var msg := Resolved(claim, Welcome(claim.recipients), s.clock, 0);
    AllWelcomed(claim.recipients);
    assert msg.id == claim.id && msg.recipients == Welcomed(claim.recipients);
    more, t := Next(run, before, s, Results(j', Welcome(claim.recipients), 0));
    assert t == Move(s, j', Decided(claim, msg));
    more, t := Next(run, more, t, Commit(j'));
  }

  lemma AllWelcomed(rs: seq<Recipient>)
    ensures !AnyPending(Welcomed(rs))
  {}

  /** A worker about to hand over recipient `i`, of whom the stored row says that it is settled. */
  ghost predicate Repeats(s: Sys, j: Job, i: nat) {
    && Enabled(s, HandOver(j, 0)) && j.due.id in s.kv.rows
    && i < |s.jobs[j].claim.recipients| && s.jobs[j].claim.recipients[i].status.Pending?
    && i < |s.kv.rows[j.due.id].recipients| && !s.kv.rows[j.due.id].recipients[i].status.Pending?
  }

  /** By time `until` the same worker, with the same claim, may come to repeat recipient `i`. */
  ghost predicate MayRepeat(run: seq<Action>, s: Sys, j: Job, i: nat, until: Time) {
    exists more, t ::
      && Reached(run + more, t) && t.clock <= until
      && j in t.jobs && j in s.jobs && t.jobs[j] == s.jobs[j] && Repeats(t, j, i)
  }

  /**
   A worker that holds the stored claim can come to repeat a recipient exactly when its lease can run out first:
   the queue delivers at least once, and the lease is all that bounds when the second copy can be sent.
   */
  lemma RepeatIffLeaseOver(run: seq<Action>, s: Sys, j: Job, i: nat, until: Time)
    requires Reached(run, s) && j in s.jobs && s.jobs[j].Claimed? && s.clock <= until
    requires j.due.id in s.kv.rows && s.kv.rows[j.due.id] == s.jobs[j].claim
    requires i < |s.jobs[j].claim.recipients| && s.jobs[j].claim.recipients[i].status.Pending?
    ensures MayRepeat(run, s, j, i, until) <==> s.jobs[j].claim.leaseUntil <= until
  {
    if MayRepeat(run, s, j, i, until) {
      var more, t :|
        && Reached(run + more, t) && t.clock <= until
        && j in t.jobs && j in s.jobs && t.jobs[j] == s.jobs[j] && Repeats(t, j, i);
      RepeatNeedsExpiredLease(run + more, t, j, i);
    }
    if s.jobs[j].claim.leaseUntil <= until {
      var more, t := RepeatedBy(run, s, j, until);
      assert Repeats(t, j, i);
    }
  }

  /** The run that repeats: every recipient pending in the claim is delivered, and the claim can still be handed over. */
  lemma RepeatedBy(run: seq<Action>, s: Sys, j: Job, until: Time) returns (more: seq<Action>, t: Sys)
    requires Reached(run, s) && j in s.jobs && s.jobs[j].Claimed? && s.clock <= until
    requires j.due.id in s.kv.rows && s.kv.rows[j.due.id] == s.jobs[j].claim && s.jobs[j].claim.leaseUntil <= until
    ensures Continues(run, more, t) && t.clock == until && j in t.jobs && t.jobs[j] == s.jobs[j]
    ensures Enabled(t, HandOver(j, 0)) && j.due.id in t.kv.rows
    ensures t.kv.rows[j.due.id].recipients == Welcomed(s.jobs[j].claim.recipients)
    ensures forall i :: 0 <= i < |t.kv.rows[j.due.id].recipients| ==> !t.kv.rows[j.due.id].recipients[i].status.Pending?
  {
    var claim := s.jobs[j].claim;
    ReachedInv(run, s);
    assert PhaseOk(s, j, s.jobs[j]);
    var j';
    more, t, j' := ScannedByOther(run, s, j, until);
    var next;
    more, t, next := Stolen(run, more, t, j', claim);
    more, t := DeliveredToAll(run, more, t, j', next);
    AllWelcomed(claim.recipients);
  }

  /** One such run from the empty queue: node A's one recipient is delivered by another node, and A may still send. */
  lemma ExpiredWorkerCanRepeat()
    ensures exists run, s, j ::
              && After(run) == Some(s) && NoStamps(run) && Enabled(s, HandOver(j, 0)) && j.due.id in s.kv.rows
              && AddressesWith(s.jobs[j].claim.recipients, Status.Pending) == ["a"]
              && AddressesWith(s.kv.rows[j.due.id].recipients, Status.Delivered) == ["a"]
  {
    var run, s := ClaimedByA();
    NoStampsQuiet(run);
    var more, t := RepeatedBy(run, s, JOB_A, NANOS_PER_SECOND);
    var rs := ClaimOfA().recipients;
    assert rs == [Recipient("a", Status.Pending, "")];
    assert Welcomed(rs) == [Recipient("a", Status.Delivered, "")];
    assert AddressesWith(Welcomed(rs), Status.Delivered) == ["a"];
    assert AddressesWith(rs, Status.Pending) == ["a"];
    assert Enabled(t, HandOver(JOB_A, 0));
    assert NoStamps(run + more);
  }
}
