/** What holds after any run of the delivery batcher, and what a failing commit can do. */
module GroupCommitRuns {
  import opened Options
  import opened GroupCommit

  lemma OneLeader(run: seq<Action>, s: Sys)
    requires After(run) == Some(s)
    ensures forall l, m :: l in s.leaders && m in s.leaders ==> l == m
    ensures s.leaders != map[] ==> s.batcher.active
  {
    AfterInv(run, s);
  }

  // ---------------------------------------------------------------------------------------------
  // Every request is in one place

  ghost predicate InBatch(s: Sys, r: Request) {
    exists l :: l in s.leaders && (r in Undecided(l, s.leaders[l]) || r in Owed(s.leaders[l]))
  }

  function One(b: bool): nat {
    if b then 1 else 0
  }

  lemma PlacesInLine(s: Sys, taken: seq<Request>, owed: seq<Request>, r: Request)
    requires Line(s, taken, owed)
    ensures r in s.arrived ==>
              One(r in s.batcher.queue) + One(r in taken || r in owed) + One(|Sent(s.sent, r)| == 1) == 1
    ensures r !in s.arrived ==> r !in s.batcher.queue && r !in taken && r !in owed
    ensures |Sent(s.sent, r)| <= 1 && (r !in s.arrived ==> Sent(s.sent, r) == [])
  {
    MiddleFresh(s.arrived, s.settled, taken, s.batcher.queue);
    assert s.arrived == (s.settled + taken) + s.batcher.queue + [];
    MiddleFresh(s.arrived, s.settled + taken, s.batcher.queue, []);
    assert r in s.arrived <==> r in s.settled || r in taken || r in s.batcher.queue;
  }

  /** A request is queued, in the leader's hands or answered: exactly one of the three, and answered at most once. */
  lemma OnePlace(run: seq<Action>, s: Sys, r: Request)
    requires After(run) == Some(s)
    ensures r in s.arrived ==> One(r in s.batcher.queue) + One(InBatch(s, r)) + One(|Sent(s.sent, r)| == 1) == 1
    ensures r !in s.arrived ==> r !in s.batcher.queue && !InBatch(s, r) && Sent(s.sent, r) == []
    ensures |Sent(s.sent, r)| <= 1
  {
    AfterInv(run, s);
    if NoLeader(s) {
      PlacesInLine(s, [], [], r);
    } else {
      var l :| l in s.leaders && LedBy(s, l, s.leaders[l]);
      var p := s.leaders[l];
      PlacesInLine(s, Undecided(l, p), Owed(p), r);
      assert InBatch(s, r) <==> r in Undecided(l, p) || r in Owed(p);
    }
  }

  // ---------------------------------------------------------------------------------------------
  // Arrival order and whose UID is whose

  /** Each commit took the requests settled next, and commits do not overlap. */
  ghost predicate CommitsOk(commits: seq<Commit>, settled: seq<Request>) {
    && (forall c :: 0 <= c < |commits| ==>
          && |commits[c].uids| == |commits[c].batch| && commits[c].at + |commits[c].batch| <= |settled|
          && commits[c].batch == settled[commits[c].at..commits[c].at + |commits[c].batch|])
    && (forall c, d :: 0 <= c < d < |commits| ==> commits[c].at + |commits[c].batch| <= commits[d].at)
  }

  lemma CommitsGrow(commits: seq<Commit>, settled: seq<Request>, batch: seq<Request>)
    requires CommitsOk(commits, settled)
    ensures CommitsOk(commits, settled + batch)
  {
    forall c | 0 <= c < |commits|
      ensures commits[c].batch == (settled + batch)[commits[c].at..commits[c].at + |commits[c].batch|]
    {
      assert (settled + batch)[..|settled|] == settled;
    }
  }

  lemma CommitsAppend(commits: seq<Commit>, settled: seq<Request>, batch: seq<Request>, uids: seq<nat>)
    requires CommitsOk(commits, settled) && |uids| == |batch|
    ensures CommitsOk(commits + [Commit(|settled|, batch, uids)], settled + batch)
  {
    CommitsGrow(commits, settled, batch);
    assert (settled + batch)[|settled|..|settled| + |batch|] == batch;
  }

  lemma StepCommits(s: Sys, a: Action)
    requires CommitsOk(s.commits, s.settled) && Enabled(s, a)
    ensures CommitsOk(Apply(s, a).commits, Apply(s, a).settled)
  {
    var s' := Apply(s, a);
    match a
    case CommitOk(l, uids) => CommitsAppend(s.commits, s.settled, s.leaders[l].batch, uids);
    case CommitFail(l) => CommitsGrow(s.commits, s.settled, s.leaders[l].batch);
    case Drain(l) => CommitsGrow(s.commits, s.settled, TakeFrom(s.batcher, DRAIN_LIMIT).0);
    case _ =>
  }

  lemma {:induction false} AfterCommits(run: seq<Action>, s: Sys)
    requires After(run) == Some(s)
    ensures CommitsOk(s.commits, s.settled)
  {
    if run != [] {
      var before := After(run[..|run| - 1]).value;
      AfterCommits(run[..|run| - 1], before);
      StepCommits(before, run[|run| - 1]);
    }
  }

  lemma SettledFirst(s: Sys)
    requires Inv(s)
    ensures s.settled <= s.arrived && AllDistinct(s.arrived)
  {}

  lemma CommitPosition(commits: seq<Commit>, settled: seq<Request>, arrived: seq<Request>, c: nat, i: nat)
    requires CommitsOk(commits, settled) && settled <= arrived && c < |commits| && i < |commits[c].batch|
    ensures commits[c].at + i < |arrived| && arrived[commits[c].at + i] == commits[c].batch[i]
  {
    assert settled[commits[c].at..commits[c].at + |commits[c].batch|][i] == settled[commits[c].at + i];
  }

  lemma CommitSpacing(commits: seq<Commit>, settled: seq<Request>, c: nat, i: nat, d: nat, j: nat)
    requires CommitsOk(commits, settled) && c < |commits| && d < |commits|
    requires i < |commits[c].batch| && j < |commits[d].batch| && (c < d || (c == d && i < j))
    ensures commits[c].at + i < commits[d].at + j
  {}

  /** Requests commit in arrival order, within a batch and from batch to batch. */
  lemma ArrivalOrder(run: seq<Action>, s: Sys, c: nat, i: nat, d: nat, j: nat)
    requires After(run) == Some(s) && c < |s.commits| && d < |s.commits|
    requires i < |s.commits[c].batch| && j < |s.commits[d].batch| && (c < d || (c == d && i < j))
    ensures exists p, q :: 0 <= p < q < |s.arrived| && s.arrived[p] == s.commits[c].batch[i]
                           && s.arrived[q] == s.commits[d].batch[j]
  {
    assert CommitsOk(s.commits, s.settled) && s.settled <= s.arrived by {
      AfterInv(run, s);
      AfterCommits(run, s);
      SettledFirst(s);
    }
    CommitPosition(s.commits, s.settled, s.arrived, c, i);
    CommitPosition(s.commits, s.settled, s.arrived, d, j);
    CommitSpacing(s.commits, s.settled, c, i, d, j);
  }

  lemma CommittedOnce(run: seq<Action>, s: Sys, c: nat, i: nat, d: nat, j: nat)
    requires After(run) == Some(s) && c < |s.commits| && d < |s.commits|
    requires i < |s.commits[c].batch| && j < |s.commits[d].batch| && s.commits[c].batch[i] == s.commits[d].batch[j]
    ensures c == d && i == j
  {
    assert AllDistinct(s.arrived) by {
      AfterInv(run, s);
      SettledFirst(s);
    }
    if c < d || (c == d && i < j) {
      ArrivalOrder(run, s, c, i, d, j);
    } else if d < c || j < i {
      ArrivalOrder(run, s, d, j, c, i);
    }
  }

  lemma SentVerdict(s: Sys, r: Request)
    requires Inv(s) && |Sent(s.sent, r)| == 1
    ensures Verdict(s.commits, r, Sent(s.sent, r)[0])
  {}

  /** A UID on a done channel is the one the store returned at that request's own, only index. */
  lemma AnswerIsOwnUid(run: seq<Action>, s: Sys, r: Request, u: nat) returns (c: nat, i: nat)
    requires After(run) == Some(s) && Uid(u) in Sent(s.sent, r)
    ensures c < |s.commits| && i < |s.commits[c].batch| == |s.commits[c].uids|
    ensures s.commits[c].batch[i] == r && s.commits[c].uids[i] == u && Sent(s.sent, r) == [Uid(u)]
    ensures forall d, j :: 0 <= d < |s.commits| && 0 <= j < |s.commits[d].batch| && s.commits[d].batch[j] == r ==>
        d == c && j == i
  {
    OnePlace(run, s, r);
    assert Verdict(s.commits, r, Uid(u)) by {
      AfterInv(run, s);
      SentVerdict(s, r);
    }
    c, i :| 0 <= c < |s.commits| && 0 <= i < |s.commits[c].batch| == |s.commits[c].uids|
            && s.commits[c].batch[i] == r && s.commits[c].uids[i] == u;
    forall d, j | 0 <= d < |s.commits| && 0 <= j < |s.commits[d].batch| && s.commits[d].batch[j] == r ensures d == c && j == i {
      CommittedOnce(run, s, d, j, c, i);
    }
  }

  /** A leader that returns a UID returns its own request's. */
  lemma LeaderReturnsOwnUid(run: seq<Action>, s: Sys, l: Request)
    requires After(run) == Some(s) && l in s.returned && s.returned[l].Uid?
    ensures Sent(s.sent, l) == [s.returned[l]]
  {
    AfterInv(run, s);
  }

  // ---------------------------------------------------------------------------------------------
  // While commits succeed, everybody is served

  ghost predicate NoneFailed(s: Sys) {
    && (forall l :: l in s.leaders ==> !s.leaders[l].Leaving?)
    && (forall l :: l in s.leaders && s.leaders[l].Replying? ==> !s.leaders[l].failed && Error !in s.leaders[l].answers)
    && (forall r :: Error !in Sent(s.sent, r))
  }

  lemma StepNoneFailed(s: Sys, a: Action)
    requires NoneFailed(s) && Enabled(s, a) && !a.CommitFail?
    ensures NoneFailed(Apply(s, a)) && (Apply(s, a).abandoned ==> s.abandoned)
  {
    if a.Reply? {
      var p := s.leaders[a.leader];
      var s' := Apply(s, a);
      assert p.answers[0] in p.answers;
      forall r ensures Error !in Sent(s'.sent, r) {
        assert Sent(s'.sent, r) == if r == p.batch[0] then Sent(s.sent, r) + [p.answers[0]] else Sent(s.sent, r);
      }
    }
  }

  ghost predicate Succeeds(run: seq<Action>) {
    forall k :: 0 <= k < |run| ==> !run[k].CommitFail?
  }

  lemma {:induction false} AfterNoneFailed(run: seq<Action>, s: Sys)
    requires After(run) == Some(s) && Succeeds(run)
    ensures NoneFailed(s) && !s.abandoned
  {
    if run != [] {
      var before := After(run[..|run| - 1]).value;
      AfterNoneFailed(run[..|run| - 1], before);
      StepNoneFailed(before, run[|run| - 1]);
    }
  }

  lemma IdleAnswered(s: Sys, r: Request)
    requires Inv(s) && s.leaders == map[] && !s.abandoned && r in s.arrived
    ensures |Sent(s.sent, r)| == 1
  {
    assert s.arrived == s.settled + [] + [];
  }

  lemma IdleServed(s: Sys, r: Request)
    requires Inv(s) && NoneFailed(s) && s.leaders == map[] && !s.abandoned && r in s.arrived
    ensures |Sent(s.sent, r)| == 1 && Sent(s.sent, r)[0].Uid?
  {
    assert |Sent(s.sent, r)| == 1 by {
      IdleAnswered(s, r);
    }
    assert Sent(s.sent, r)[0] in Sent(s.sent, r);
  }

  /** As long as commits succeed a queue never stands without a leader. */
  lemma QueueIsLed(run: seq<Action>, s: Sys)
    requires After(run) == Some(s) && Succeeds(run)
    ensures s.batcher.queue != [] ==> s.leaders != map[]
    ensures s.leaders == map[] ==> !s.batcher.active
  {
    AfterNoneFailed(run, s);
    AfterInv(run, s);
  }

  /** And once nobody leads, every request that arrived has been answered with a UID. */
  lemma NobodyLeftBehind(run: seq<Action>, s: Sys, r: Request)
    requires After(run) == Some(s) && Succeeds(run) && s.leaders == map[] && r in s.arrived
    ensures |Sent(s.sent, r)| == 1 && Sent(s.sent, r)[0].Uid?
  {
    AfterNoneFailed(run, s);
    AfterInv(run, s);
    IdleServed(s, r);
  }

  // ---------------------------------------------------------------------------------------------
  // A failing commit

  /** A leader leaving after a failure wedges the account exactly when a request joined after its last drain. */
  lemma LeaveWedgesIff(run: seq<Action>, s: Sys, l: Request)
    requires After(run) == Some(s) && Enabled(s, Leave(l))
    ensures Wedged(Apply(s, Leave(l))) <==> s.batcher.queue != []
    ensures s.batcher.queue == [] ==> !Apply(s, Leave(l)).batcher.active
  {
    AfterInv(run, s);
    assert Apply(s, Leave(l)).leaders == map[] by {
      SoleLeader(s, l);
    }
  }

  /** The flag says somebody leads, nobody does, and requests are waiting. */
  ghost predicate Wedged(s: Sys) {
    s.batcher.active && s.leaders == map[] && s.batcher.queue != []
  }

  lemma StepWedged(s: Sys, a: Action)
    requires Wedged(s) && Enabled(s, a)
    ensures Wedged(Apply(s, a)) && s.batcher.queue <= Apply(s, a).batcher.queue && Apply(s, a).sent == s.sent
  {}

  /** No continuation serves a wedged account: what is queued stays queued and unanswered. */
  lemma {:induction false} WedgedForever(run: seq<Action>, s: Sys, more: seq<Action>, s': Sys)
    requires After(run) == Some(s) && Wedged(s) && After(run + more) == Some(s')
    ensures Wedged(s') && s.batcher.queue <= s'.batcher.queue
    ensures forall r :: r in s.batcher.queue ==> Sent(s'.sent, r) == []
    decreases |more|
  {
    if more == [] {
      assert run + more == run;
      forall r | r in s.batcher.queue ensures Sent(s'.sent, r) == [] {
        assert r in s.arrived by { AfterInv(run, s); }
        OnePlace(run, s, r);
      }
    } else {
      var front := more[..|more| - 1];
      assert (run + more)[..|run + more| - 1] == run + front;
      var before := After(run + front).value;
      WedgedForever(run, s, front, before);
      StepWedged(before, more[|more| - 1]);
    }
  }

  lemma Then(run: seq<Action>, s: Sys, a: Action, s': Sys)
    requires After(run) == Some(s) && Enabled(s, a) && Apply(s, a) == s'
    ensures After(run + [a]) == Some(s')
  {
    assert (run + [a])[..|run|] == run;
  }

  /** A run whose only leader is request 1. */
  function Alone(b: Batcher, p: Leader, arrived: seq<Request>, settled: seq<Request>, commits: seq<Commit>,
                 sent: map<Request, seq<Answer>>): Sys {
    Sys(b, map[1 := p], arrived, settled, commits, sent, map[], false)
  }

  /** The leader sends the last answer it owes. */
  lemma LastReply(run: seq<Action>, s: Sys, r: Request, a: Answer, s': Sys)
    requires 1 in s'.leaders && s'.leaders[1].Replying? && s'.leaders[1].batch == [] && s'.leaders[1].answers == []
    requires After(run) == Some(s) && s.leaders == map[1 := s'.leaders[1].(batch := [r], answers := [a])] && r !in s.sent
    requires s' == s.(leaders := map[1 := s'.leaders[1]], sent := s.sent[r := [a]])
    ensures After(run + [Reply(1)]) == Some(s')
  {
    assert [r][1..] == [] && [a][1..] == [] && Sent(s.sent, r) + [a] == [a];
    Then(run, s, Reply(1), s');
  }

  lemma FirstCommitFails() returns (run: seq<Action>)
    ensures After(run) == Some(Alone(Batcher([], true), Leaving(None), [1], [1], [], map[1 := [Error]]))
  {
    var b := Batcher([], true);
    var s1 := Alone(b, Elected, [1], [], [], map[]);
    Then([], INITIAL, Submit(1), s1);
    var s2 := Alone(b, Committing([1], None), [1], [], [], map[]);
    assert [1] + TakeFrom(b, 256).0 == [1];
    Then([] + [Submit(1)], s1, TakeFirst(1, 256), s2);
    var s3 := Alone(b, Replying([1], [Error], None, true), [1], [1], [], map[]);
    assert Errors(1) == [Error];
    Then([] + [Submit(1)] + [TakeFirst(1, 256)], s2, CommitFail(1), s3);
    run := FailedAlone([] + [Submit(1)] + [TakeFirst(1, 256)] + [CommitFail(1)], s3);
  }

  lemma FailedAlone(run: seq<Action>, s: Sys) returns (longer: seq<Action>)
    requires s == Alone(Batcher([], true), Replying([1], [Error], None, true), [1], [1], [], map[]) &&
        After(run) == Some(s)
    ensures After(longer) == Some(Alone(Batcher([], true), Leaving(None), [1], [1], [], map[1 := [Error]]))
  {
    var s4 := Alone(s.batcher, Replying([], [], None, true), [1], [1], [], map[1 := [Error]]);
    LastReply(run, s, 1, Error, s4);
    Then(run + [Reply(1)], s4, Drain(1), Alone(s.batcher, Leaving(None), [1], [1], [], map[1 := [Error]]));
    longer := run + [Reply(1)] + [Drain(1)];
  }

  /** One failing commit and one submit between the last drain and the resignation wedge an account. */
  lemma FailureCanWedge() returns (run: seq<Action>, s: Sys)
    ensures After(run) == Some(s) && Wedged(s) && s.batcher.queue == [2]
  {
    var failed := FirstCommitFails();
    var s1 := Alone(Batcher([], true), Leaving(None), [1], [1], [], map[1 := [Error]]);
    var s2 := Alone(Batcher([2], true), Leaving(None), [1, 2], [1], [], map[1 := [Error]]);
    Then(failed, s1, Submit(2), s2);
    s := Apply(s2, Leave(1));
    Then(failed + [Submit(2)], s2, Leave(1), s);
    LeaveWedgesIff(failed + [Submit(2)], s2, 1);
    run := failed + [Submit(2)] + [Leave(1)];
  }

  /** A leader leaving after a failure reports an error: its own request's answer exactly when that never committed. */
  lemma LeaverAnswer(run: seq<Action>, s: Sys, l: Request)
    requires After(run) == Some(s) && Enabled(s, Leave(l))
    ensures Apply(s, Leave(l)).returned[l] == Error
    ensures Sent(s.sent, l) == [Error] <==> s.leaders[l].mine.None?
    ensures s.leaders[l].mine.Some? ==> exists u :: Sent(s.sent, l) == [Uid(u)]
  {
    AfterInv(run, s);
    SoleLeader(s, l);
    if s.leaders[l].mine.Some? {
      assert Sent(s.sent, l) == [Uid(s.leaders[l].mine.value.uid)];
    }
  }

  /** The batch that fails holds the leader's own request exactly when none of its batches committed before. */
  lemma FailingBatchIsOwn(run: seq<Action>, s: Sys, l: Request)
    requires After(run) == Some(s) && Enabled(s, CommitFail(l))
    ensures l in s.leaders[l].batch <==> s.leaders[l].mine.None?
    ensures Apply(s, CommitFail(l)).leaders[l].mine == s.leaders[l].mine
  {
    AfterInv(run, s);
    SoleLeader(s, l);
    var p := s.leaders[l];
    OnePlace(run, s, l);
    if l in p.batch && p.mine.Some? {
      assert InBatch(s, l);
    }
  }

  const FIRST: Commit := Commit(0, [1], [7])

  lemma FirstCommits() returns (run: seq<Action>)
    ensures After(run) == Some(Alone(Batcher([2], true), Replying([1], [Uid(7)], Some(Uid(7)), false), [1, 2], [1], [FIRST], map[]))
  {
    var b := Batcher([], true);
    var s1 := Alone(b, Elected, [1], [], [], map[]);
    Then([], INITIAL, Submit(1), s1);
    var s2 := Alone(b, Committing([1], None), [1], [], [], map[]);
    assert [1] + TakeFrom(b, 256).0 == [1];
    Then([] + [Submit(1)], s1, TakeFirst(1, 256), s2);
    var s3 := Alone(Batcher([2], true), Committing([1], None), [1, 2], [], [], map[]);
    Then([] + [Submit(1)] + [TakeFirst(1, 256)], s2, Submit(2), s3);
    run := [] + [Submit(1)] + [TakeFirst(1, 256)] + [Submit(2)];
    assert Uids([7]) == [Uid(7)];
    Then(run, s3, CommitOk(1, [7]),
         Alone(Batcher([2], true), Replying([1], [Uid(7)], Some(Uid(7)), false), [1, 2], [1], [FIRST], map[]));
    run := run + [CommitOk(1, [7])];
  }

  lemma SecondTaken() returns (run: seq<Action>)
    ensures After(run) == Some(Alone(Batcher([], true), Committing([2], Some(Uid(7))), [1, 2], [1], [FIRST], map[1 := [Uid(7)]]))
  {
    var b, mine, sent := Batcher([2], true), Some(Uid(7)), map[1 := [Uid(7)]];
    run := FirstCommits();
    var s4 := Alone(b, Replying([1], [Uid(7)], mine, false), [1, 2], [1], [FIRST], map[]);
    var s5 := Alone(b, Replying([], [], mine, false), [1, 2], [1], [FIRST], sent);
    LastReply(run, s4, 1, Uid(7), s5);
    var s6 := Alone(b, Looping(mine), [1, 2], [1], [FIRST], sent);
    Then(run + [Reply(1)], s5, Resign(1), s6);
    assert [2][..1] == [2] && [2][1..] == [] && TakeFrom(b, 256) == ([2], Batcher([], true));
    Then(run + [Reply(1)] + [Resign(1)], s6, TakeNext(1, 256), Alone(Batcher([], true), Committing([2], mine), [1, 2], [1], [FIRST], sent));
    run := run + [Reply(1)] + [Resign(1)] + [TakeNext(1, 256)];
  }

  /** A leader whose own message was stored can report the failure of a later batch. */
  lemma LeaderCanReportLaterFailure() returns (run: seq<Action>, s: Sys)
    ensures After(run) == Some(s) && s.returned == map[1 := Error] && Sent(s.sent, 1) == [Uid(7)]
  {
    var b, mine, sent := Batcher([], true), Some(Uid(7)), map[1 := [Uid(7)]];
    run := SecondTaken();
    var s7 := Alone(b, Committing([2], mine), [1, 2], [1], [FIRST], sent);
    var s8 := Alone(b, Replying([2], [Error], mine, true), [1, 2], [1, 2], [FIRST], sent);
    assert Errors(1) == [Error];
    Then(run, s7, CommitFail(1), s8);
    var s9 := Alone(b, Replying([], [], mine, true), [1, 2], [1, 2], [FIRST], sent[2 := [Error]]);
    LastReply(run + [CommitFail(1)], s8, 2, Error, s9);
    var s10 := Alone(b, Leaving(mine), [1, 2], [1, 2], [FIRST], sent[2 := [Error]]);
    Then(run + [CommitFail(1)] + [Reply(1)], s9, Drain(1), s10);
    s := Apply(s10, Leave(1));
    Then(run + [CommitFail(1)] + [Reply(1)] + [Drain(1)], s10, Leave(1), s);
    run := run + [CommitFail(1)] + [Reply(1)] + [Drain(1)] + [Leave(1)];
  }
}
