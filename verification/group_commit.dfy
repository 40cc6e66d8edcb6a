/**
 Per-account delivery batching. The first request to arrive leads: it commits itself together with whatever queued,
 hands every request its result, and keeps serving arrivals until it can resign with an empty queue. Each lock
 section, store commit and channel send is one step; any number of submitters interleave between them.
 */
module GroupCommit {
  import opened Options

  /** A staged delivery, named by a number of its own. */
  type Request = nat

  datatype Answer = Uid(uid: nat) | Error

  datatype Batcher = Batcher(queue: seq<Request>, active: bool)

  /** Joins the queue behind a leader; without one the newcomer leads and is not queued. */
  function Admit(b: Batcher, r: Request): Batcher {
    if b.active then b.(queue := b.queue + [r]) else b.(active := true)
  }

  function TakeFrom(b: Batcher, limit: nat): (seq<Request>, Batcher) {
    var n := if |b.queue| > limit then limit else |b.queue|;
    (b.queue[..n], b.(queue := b.queue[n..]))
  }

  function Resigned(b: Batcher): Batcher {
    if b.queue == [] then b.(active := false) else b
  }

  /** The batcher as the callers lock it. */
  class AccountBatch {
    var queue: seq<Request>
    var active: bool

    function Value(): Batcher
      reads this
    {
      Batcher(queue, active)
    }

    constructor ()
      ensures Value() == Batcher([], false)
    {
      queue, active := [], false;
    }

    method Submit(r: Request) returns (queued: bool)
      modifies this
      ensures Value() == Admit(old(Value()), r)
      ensures queued == old(active) && active && queue == if queued then old(queue) + [r] else old(queue)
    {
      if active {
        queue := queue + [r];
        return true;
      }
      active := true;
      return false;
    }

    method Take(limit: nat) returns (batch: seq<Request>)
      modifies this`queue
      ensures (batch, Value()) == TakeFrom(old(Value()), limit)
      ensures batch + queue == old(queue) && |batch| <= limit && (queue == [] || |batch| == limit)
    {
      var n := |queue|;
      if n > limit {
        n := limit;
      }
      batch := queue[..n];
      queue := queue[n..];
    }

    method ResignIfEmpty() returns (resigned: bool)
      modifies this`active
      ensures Value() == Resigned(old(Value()))
      ensures resigned == (queue == []) && active == (old(active) && !resigned)
    {
      if |queue| == 0 {
        active := false;
        return true;
      }
      return false;
    }
  }

  // ---------------------------------------------------------------------------------------------
  // The protocol

  /** Where a leader stands. While it replies, `batch` and `answers` hold what is left to send; `mine` is its own UID. */
  datatype Leader =
    | Elected
    | Committing(batch: seq<Request>, mine: Option<Answer>)
    | Replying(batch: seq<Request>, answers: seq<Answer>, mine: Option<Answer>, failed: bool)
    | Looping(mine: Option<Answer>)
    | Leaving(mine: Option<Answer>)

  /** A committed batch with the UIDs the store returned, and how many requests were settled before it. */
  datatype Commit = Commit(at: nat, batch: seq<Request>, uids: seq<nat>)

  /**
   `arrived` and `settled` are the requests in the order the batcher admitted them and the store decided on them;
   `sent` logs every send on a done channel; `returned` what each leader's own call returned; `abandoned` records a
   leader that left after a failure while requests were queued.
   */
  datatype Sys = Sys(
    batcher: Batcher,
    leaders: map<Request, Leader>,
    arrived: seq<Request>,
    settled: seq<Request>,
    commits: seq<Commit>,
    sent: map<Request, seq<Answer>>,
    returned: map<Request, Answer>,
    abandoned: bool)

  /** What a commit-path abort takes from the queue at a time. */
  const DRAIN_LIMIT := 0x4000_0000

  const INITIAL: Sys := Sys(Batcher([], false), map[], [], [], [], map[], map[], false)

  datatype Action =
    | Submit(r: Request)
    | TakeFirst(leader: Request, limit: nat)
    | CommitOk(leader: Request, uids: seq<nat>)
    | CommitFail(leader: Request)
    | Reply(leader: Request)
    | Resign(leader: Request)
    | TakeNext(leader: Request, limit: nat)
    | Drain(leader: Request)
    | Leave(leader: Request)

  predicate Enabled(s: Sys, a: Action) {
    match a
    case Submit(r) => r !in s.arrived
    case TakeFirst(l, limit) => l in s.leaders && s.leaders[l].Elected? && 0 < limit
    case CommitOk(l, uids) => l in s.leaders && s.leaders[l].Committing? && |uids| == |s.leaders[l].batch|
    case CommitFail(l) => l in s.leaders && s.leaders[l].Committing?
    case Reply(l) => l in s.leaders && s.leaders[l].Replying? && 0 < |s.leaders[l].batch| == |s.leaders[l].answers|
    case Resign(l) => l in s.leaders && s.leaders[l].Replying? && s.leaders[l].batch == [] && !s.leaders[l].failed
    case TakeNext(l, limit) => l in s.leaders && s.leaders[l].Looping? && 0 < limit
    case Drain(l) => l in s.leaders && s.leaders[l].Replying? && s.leaders[l].batch == [] && s.leaders[l].failed
    case Leave(l) => l in s.leaders && s.leaders[l].Leaving?
  }

  function Sent(sent: map<Request, seq<Answer>>, r: Request): seq<Answer> {
    if r in sent then sent[r] else []
  }

  function Lead(s: Sys, l: Request, p: Leader): Sys {
    s.(leaders := s.leaders[l := p])
  }

  function Uids(uids: seq<nat>): (answers: seq<Answer>)
    ensures |answers| == |uids| && forall i :: 0 <= i < |uids| ==> answers[i] == Uid(uids[i])
  {
    seq(|uids|, i requires 0 <= i < |uids| => Uid(uids[i]))
  }

  function Errors(n: nat): (answers: seq<Answer>)
    ensures |answers| == n && forall i :: 0 <= i < n ==> answers[i] == Error
  {
    seq(n, _ => Error)
  }

  function Apply(s: Sys, a: Action): Sys
    requires Enabled(s, a)
  {
    match a
    case Submit(r) =>
      var s' := s.(arrived := s.arrived + [r], batcher := Admit(s.batcher, r));
      if s.batcher.active then s' else Lead(s', r, Elected)
    case TakeFirst(l, limit) =>
      var (batch, b) := TakeFrom(s.batcher, limit);
      Lead(s.(batcher := b), l, Committing([l] + batch, None))
    case CommitOk(l, uids) =>
      var batch := s.leaders[l].batch;
      var mine := if s.leaders[l].mine.None? && uids != [] then Some(Uid(uids[0])) else s.leaders[l].mine;
      Lead(s.(settled := s.settled + batch, commits := s.commits + [Commit(|s.settled|, batch, uids)]), l,
           Replying(batch, Uids(uids), mine, false))
    case CommitFail(l) =>
      var batch := s.leaders[l].batch;
      Lead(s.(settled := s.settled + batch), l, Replying(batch, Errors(|batch|), s.leaders[l].mine, true))
    case Reply(l) =>
      var p := s.leaders[l];
      var r := p.batch[0];
      Lead(s.(sent := s.sent[r := Sent(s.sent, r) + [p.answers[0]]]), l, p.(batch := p.batch[1..], answers := p.answers[1..]))
    case Resign(l) =>
      var mine := s.leaders[l].mine;
      if s.batcher.queue == []
      then s.(batcher := Resigned(s.batcher), leaders := s.leaders - {l},
              returned := s.returned[l := if mine.Some? then mine.value else Error])
      else Lead(s, l, Looping(mine))
    case TakeNext(l, limit) =>
      var (batch, b) := TakeFrom(s.batcher, limit);
      Lead(s.(batcher := b), l, Committing(batch, s.leaders[l].mine))
    case Drain(l) =>
      var (batch, b) := TakeFrom(s.batcher, DRAIN_LIMIT);
      if batch == [] then Lead(s, l, Leaving(s.leaders[l].mine))
      else Lead(s.(batcher := b, settled := s.settled + batch), l,
                Replying(batch, Errors(|batch|), s.leaders[l].mine, true))
    case Leave(l) =>
      s.(batcher := Resigned(s.batcher), leaders := s.leaders - {l},
         returned := s.returned[l := Error], abandoned := s.abandoned || s.batcher.queue != [])
  }

  ghost function After(run: seq<Action>): Option<Sys> {
    if run == [] then Some(INITIAL)
    else
      var before := After(run[..|run| - 1]);
      if before.Some? && Enabled(before.value, run[|run| - 1]) then Some(Apply(before.value, run[|run| - 1])) else None
  }

  // ---------------------------------------------------------------------------------------------
  // Invariant

  ghost predicate AllDistinct(s: seq<Request>) {
    forall i, j :: 0 <= i < j < |s| ==> s[i] != s[j]
  }

  /** Requests a leader has taken but the store has not decided on. */
  function Undecided(l: Request, p: Leader): seq<Request> {
    match p
    case Elected => [l]
    case Committing(batch, _) => batch
    case _ => []
  }

  /** Decided requests still waiting for their answer. */
  function Owed(p: Leader): seq<Request> {
    if p.Replying? then p.batch else []
  }

  /** An answer the store stands behind: a UID is the one it assigned to that very request. */
  ghost predicate Verdict(commits: seq<Commit>, r: Request, a: Answer) {
    a.Uid? ==> exists c, i :: 0 <= c < |commits| && 0 <= i < |commits[c].batch| == |commits[c].uids|
                              && commits[c].batch[i] == r && commits[c].uids[i] == a.uid
  }

  /** The answer of a leader's own request: the UID it got, or the error of the batch it was in. */
  function Own(mine: Option<Answer>): Answer {
    if mine.Some? then mine.value else Error
  }

  ghost predicate LeaderOk(s: Sys, l: Request, p: Leader) {
    && (p.Elected? || (p.mine.Some? ==> p.mine.value.Uid?))
    && match p
       case Elected => true
       case Committing(batch, mine) => batch != [] &&
           (if mine.None? then batch[0] == l else Sent(s.sent, l) == [Own(mine)])
       case Replying(batch, answers, mine, failed) =>
         && Pending(s.commits, batch, answers) && (mine.None? ==> failed)
         && OwnAnswer(s.sent, batch, answers, l, mine)
       case Looping(mine) => mine.Some? && Sent(s.sent, l) == [Own(mine)] && s.batcher.queue != []
       case Leaving(mine) => Sent(s.sent, l) == [Own(mine)]
  }

  /** A leader's own request is answered already, or it is the next to be. */
  ghost predicate OwnAnswer(sent: map<Request, seq<Answer>>, batch: seq<Request>, answers: seq<Answer>,
                            l: Request, mine: Option<Answer>)
    requires |answers| == |batch|
  {
    Sent(sent, l) == [Own(mine)] || (batch != [] && batch[0] == l && answers[0] == Own(mine))
  }

  ghost predicate Pending(commits: seq<Commit>, batch: seq<Request>, answers: seq<Answer>) {
    |answers| == |batch| && AllDistinct(batch) && forall i :: 0 <= i < |batch| ==> Verdict(commits, batch[i], answers[i])
  }

  /** Everything admitted is settled, taken or queued, in arrival order; the settled are answered once, or owed. */
  ghost predicate Line(s: Sys, taken: seq<Request>, owed: seq<Request>) {
    s.arrived == s.settled + taken + s.batcher.queue && AllDistinct(s.arrived) &&
        Answered(s.settled, s.sent, s.commits, owed)
  }

  ghost predicate Answered(settled: seq<Request>, sent: map<Request, seq<Answer>>, commits: seq<Commit>,
                           owed: seq<Request>) {
    && (forall r :: r in owed ==> r in settled && Sent(sent, r) == [])
    && (forall r :: r !in settled ==> Sent(sent, r) == [])
    && (forall r :: r in settled && r !in owed ==> |Sent(sent, r)| == 1 && Verdict(commits, r, Sent(sent, r)[0]))
  }

  ghost predicate NoLeader(s: Sys) {
    && s.leaders == map[] && Line(s, [], [])
    && s.batcher.active == s.abandoned && (s.abandoned <==> s.batcher.queue != [])
  }

  ghost predicate LedBy(s: Sys, l: Request, p: Leader) {
    && s.leaders == map[l := p] && s.batcher.active && !s.abandoned
    && l in s.arrived && LeaderOk(s, l, p) && Line(s, Undecided(l, p), Owed(p))
  }

  ghost predicate ReturnedOk(s: Sys) {
    forall l :: l in s.returned && s.returned[l].Uid? ==> Sent(s.sent, l) == [s.returned[l]]
  }

  ghost predicate Inv(s: Sys) {
    ReturnedOk(s) && (NoLeader(s) || exists l :: l in s.leaders && LedBy(s, l, s.leaders[l]))
  }

  // ---------------------------------------------------------------------------------------------
  // Every step keeps the invariant

  lemma SoleLeader(s: Sys, l: Request)
    requires Inv(s) && l in s.leaders
    ensures LedBy(s, l, s.leaders[l])
  {}

  lemma SubmitLine(s: Sys, s': Sys, taken: seq<Request>, owed: seq<Request>, r: Request)
    requires Line(s, taken, owed) && r !in s.arrived
    requires s' == s.(arrived := s.arrived + [r], batcher := s.batcher.(queue := s.batcher.queue + [r]))
    ensures Line(s', taken, owed)
  {
    assert s'.arrived == s.settled + taken + s'.batcher.queue;
  }

  lemma SubmitQueued(s: Sys, r: Request)
    requires Inv(s) && r !in s.arrived && s.batcher.active
    ensures Inv(Apply(s, Submit(r)))
  {
    var s' := Apply(s, Submit(r));
    if NoLeader(s) {
      SubmitLine(s, s', [], [], r);
    } else {
      var l :| l in s.leaders && LedBy(s, l, s.leaders[l]);
      SubmitLine(s, s', Undecided(l, s.leaders[l]), Owed(s.leaders[l]), r);
      assert LedBy(s', l, s'.leaders[l]);
    }
  }

  lemma SubmitLeads(s: Sys, r: Request)
    requires Inv(s) && r !in s.arrived && !s.batcher.active
    ensures Inv(Apply(s, Submit(r)))
  {
    var s' := Apply(s, Submit(r));
    assert NoLeader(s);
    assert s'.arrived == s.settled + [r] + [];
    assert LedBy(s', r, s'.leaders[r]);
  }

  /** The leader takes from the head of the queue. */
  lemma TakeLine(s: Sys, s': Sys, taken: seq<Request>, batch: seq<Request>)
    requires Line(s, taken, []) && batch + s'.batcher.queue == s.batcher.queue
    requires s'.arrived == s.arrived && s'.settled == s.settled && s'.sent == s.sent && s'.commits == s.commits
    ensures Line(s', taken + batch, [])
  {
    assert s'.arrived == s'.settled + (taken + batch) + s'.batcher.queue;
  }

  lemma TakeFirstInv(s: Sys, l: Request, limit: nat)
    requires Inv(s) && Enabled(s, TakeFirst(l, limit))
    ensures Inv(Apply(s, TakeFirst(l, limit)))
  {
    var s' := Apply(s, TakeFirst(l, limit));
    SoleLeader(s, l);
    var (batch, b) := TakeFrom(s.batcher, limit);
    TakeLine(s, s', [l], batch);
    assert LedBy(s', l, Committing([l] + batch, None));
  }

  lemma TakeNextInv(s: Sys, l: Request, limit: nat)
    requires Inv(s) && Enabled(s, TakeNext(l, limit))
    ensures Inv(Apply(s, TakeNext(l, limit)))
  {
    var s' := Apply(s, TakeNext(l, limit));
    SoleLeader(s, l);
    var (batch, b) := TakeFrom(s.batcher, limit);
    TakeLine(s, s', [], batch);
    assert [] + batch == batch;
    assert LedBy(s', l, Committing(batch, s.leaders[l].mine));
  }

  lemma MiddleFresh(s: seq<Request>, a: seq<Request>, b: seq<Request>, c: seq<Request>)
    requires AllDistinct(s) && s == a + b + c
    ensures AllDistinct(b) && forall r :: r in b ==> r !in a
  {
    forall r | r in b ensures r !in a {
      var i :| 0 <= i < |b| && b[i] == r;
      assert s[|a| + i] == r;
      assert forall j :: 0 <= j < |a| ==> s[j] == a[j];
    }
    forall j, k | 0 <= j < k < |b| ensures b[j] != b[k] {
      assert s[|a| + j] == b[j] && s[|a| + k] == b[k];
    }
  }

  lemma VerdictKept(commits: seq<Commit>, more: seq<Commit>, r: Request, a: Answer)
    requires Verdict(commits, r, a) && commits <= more
    ensures Verdict(more, r, a)
  {
    if a.Uid? {
      var c, i :| 0 <= c < |commits| && 0 <= i < |commits[c].batch| == |commits[c].uids|
                  && commits[c].batch[i] == r && commits[c].uids[i] == a.uid;
      assert more[c] == commits[c];
    }
  }

  /** The store has decided on a batch: nobody in it has been answered before, and everybody in it is owed. */
  lemma DecideLine(s: Sys, s': Sys, batch: seq<Request>)
    requires s.arrived == s.settled + batch + s'.batcher.queue && AllDistinct(s.arrived)
    requires Answered(s.settled, s.sent, s.commits, [])
    requires s'.settled == s.settled + batch && s'.sent == s.sent && s'.arrived == s.arrived && s.commits <= s'.commits
    ensures Line(s', [], batch) && AllDistinct(batch)
  {
    MiddleFresh(s.arrived, s.settled, batch, s'.batcher.queue);
    forall r, a | Verdict(s.commits, r, a) ensures Verdict(s'.commits, r, a) {
      VerdictKept(s.commits, s'.commits, r, a);
    }
    assert s'.arrived == s'.settled + [] + s'.batcher.queue;
  }

  lemma CommitPending(commits: seq<Commit>, at: nat, batch: seq<Request>, uids: seq<nat>)
    requires |uids| == |batch| && AllDistinct(batch)
    ensures Pending(commits + [Commit(at, batch, uids)], batch, Uids(uids))
  {
    var more := commits + [Commit(at, batch, uids)];
    forall i | 0 <= i < |batch| ensures Verdict(more, batch[i], Uids(uids)[i]) {
      assert more[|commits|] == Commit(at, batch, uids);
    }
  }

  lemma CommitOkInv(s: Sys, l: Request, uids: seq<nat>)
    requires Inv(s) && Enabled(s, CommitOk(l, uids))
    ensures Inv(Apply(s, CommitOk(l, uids)))
  {
    SoleLeader(s, l);
    CommitOkLed(s, Apply(s, CommitOk(l, uids)), l, s.leaders[l].batch, uids, s.leaders[l].mine);
  }

  lemma CommitOkLed(s: Sys, s': Sys, l: Request, batch: seq<Request>, uids: seq<nat>, before: Option<Answer>)
    requires LedBy(s, l, Committing(batch, before)) && |uids| == |batch|
    requires s' == Apply(s, CommitOk(l, uids))
    ensures l in s'.leaders && LedBy(s', l, s'.leaders[l])
  {
    var mine := if before.None? then Uid(uids[0]) else before.value;
    assert s'.leaders == map[l := Replying(batch, Uids(uids), Some(mine), false)];
    DecideLine(s, s', batch);
    CommitPending(s.commits, |s.settled|, batch, uids);
  }

  /** A batch is failed as a whole, be it the one that did not commit or one drained from the queue after it. */
  lemma FailedInv(s: Sys, l: Request, batch: seq<Request>, s': Sys, mine: Option<Answer>)
    requires ReturnedOk(s) && l in s.leaders && LedBy(s, l, s.leaders[l]) && Owed(s.leaders[l]) == []
    requires s.arrived == s.settled + batch + s'.batcher.queue && s'.batcher.active
    requires s.leaders[l].Committing? || s.leaders[l].Replying?
    requires batch != [] && mine == s.leaders[l].mine && (s.leaders[l].Committing? ==> batch == s.leaders[l].batch)
    requires s' == Lead(s.(batcher := s'.batcher, settled := s.settled + batch), l,
                        Replying(batch, Errors(|batch|), mine, true))
    ensures Inv(s')
  {
    DecideLine(s, s', batch);
    assert LedBy(s', l, s'.leaders[l]);
  }

  /** One send: the head of what is owed gets its answer, and no other channel is touched. */
  lemma ReplyAnswered(settled: seq<Request>, sent: map<Request, seq<Answer>>, commits: seq<Commit>, r: Request,
                      a: Answer, owed: seq<Request>)
    requires Answered(settled, sent, commits, [r] + owed) && Verdict(commits, r, a) && r !in owed
    ensures Sent(sent, r) == [] && Answered(settled, sent[r := Sent(sent, r) + [a]], commits, owed)
  {
    assert r in [r] + owed;
    var sent' := sent[r := Sent(sent, r) + [a]];
    assert forall q :: Sent(sent', q) == if q == r then [a] else Sent(sent, q);
    assert forall q :: q in owed ==> q in [r] + owed;
  }

  lemma PendingRest(commits: seq<Commit>, batch: seq<Request>, answers: seq<Answer>)
    requires Pending(commits, batch, answers) && batch != []
    ensures batch == [batch[0]] + batch[1..] && answers == [answers[0]] + answers[1..]
    ensures batch[0] !in batch[1..] && Verdict(commits, batch[0], answers[0])
    ensures Pending(commits, batch[1..], answers[1..])
  {}

  lemma ReplyOwn(sent: map<Request, seq<Answer>>, l: Request, own: Answer, r: Request, a: Answer)
    requires Sent(sent, r) == [] && (Sent(sent, l) == [own] || (r == l && a == own))
    ensures Sent(sent[r := Sent(sent, r) + [a]], l) == [own]
  {}

  lemma ReplyReturned(s: Sys, s': Sys, r: Request, a: Answer)
    requires ReturnedOk(s) && s'.returned == s.returned && Sent(s.sent, r) == []
    requires s'.sent == s.sent[r := Sent(s.sent, r) + [a]]
    ensures ReturnedOk(s')
  {}

  lemma ReplyLeader(s: Sys, s': Sys, l: Request, p: Leader, r: Request, a: Answer, batch: seq<Request>,
                    answers: seq<Answer>)
    requires p.Replying? && LeaderOk(s, l, p) && p.batch == [r] + batch && p.answers == [a] + answers
    requires Sent(s.sent, r) == [] && Pending(s.commits, batch, answers)
    requires s'.sent == s.sent[r := Sent(s.sent, r) + [a]] && s'.commits == s.commits
    ensures LeaderOk(s', l, p.(batch := batch, answers := answers))
  {
    assert p.batch[0] == r && p.answers[0] == a;
    ReplyOwn(s.sent, l, Own(p.mine), r, a);
  }

  lemma ReplyLed(s: Sys, l: Request, p: Leader, r: Request, a: Answer, batch: seq<Request>, answers: seq<Answer>)
    requires ReturnedOk(s) && s.leaders == map[l := p] && s.batcher.active && !s.abandoned && l in s.arrived
    requires p.Replying? && LeaderOk(s, l, p) && p.batch == [r] + batch && p.answers == [a] + answers
    requires s.arrived == s.settled + [] + s.batcher.queue && AllDistinct(s.arrived)
    requires Answered(s.settled, s.sent, s.commits, p.batch)
    requires r !in batch && Verdict(s.commits, r, a) && Pending(s.commits, batch, answers)
    ensures Inv(Lead(s.(sent := s.sent[r := Sent(s.sent, r) + [a]]), l, p.(batch := batch, answers := answers)))
  {
    ReplyAnswered(s.settled, s.sent, s.commits, r, a, batch);
    var p' := p.(batch := batch, answers := answers);
    var s' := Lead(s.(sent := s.sent[r := Sent(s.sent, r) + [a]]), l, p');
    ReplyLeader(s, s', l, p, r, a, batch, answers);
    ReplyReturned(s, s', r, a);
    assert s'.leaders == map[l := p'];
    LedReplying(s', l, p');
  }

  lemma LedReplying(s: Sys, l: Request, p: Leader)
    requires p.Replying? && s.leaders == map[l := p] && s.batcher.active && !s.abandoned && l in s.arrived
    requires LeaderOk(s, l, p) && s.arrived == s.settled + [] + s.batcher.queue && AllDistinct(s.arrived)
    requires Answered(s.settled, s.sent, s.commits, p.batch) && ReturnedOk(s)
    ensures Inv(s)
  {
    assert LedBy(s, l, s.leaders[l]);
  }

  lemma ReplyFrom(s: Sys, l: Request, p: Leader)
    requires ReturnedOk(s) && s.leaders == map[l := p] && s.batcher.active && !s.abandoned && l in s.arrived
    requires p.Replying? && p.batch != [] && LeaderOk(s, l, p)
    requires s.arrived == s.settled + [] + s.batcher.queue && AllDistinct(s.arrived)
    requires Answered(s.settled, s.sent, s.commits, p.batch)
    ensures Enabled(s, Reply(l)) && Inv(Apply(s, Reply(l)))
  {
    PendingRest(s.commits, p.batch, p.answers);
    ReplyLed(s, l, p, p.batch[0], p.answers[0], p.batch[1..], p.answers[1..]);
  }

  lemma ReplyInv(s: Sys, l: Request)
    requires Inv(s) && Enabled(s, Reply(l))
    ensures Inv(Apply(s, Reply(l)))
  {
    SoleLeader(s, l);
    ReplyFrom(s, l, s.leaders[l]);
  }

  lemma ResignInv(s: Sys, l: Request)
    requires Inv(s) && Enabled(s, Resign(l))
    ensures Inv(Apply(s, Resign(l)))
  {
    var s' := Apply(s, Resign(l));
    SoleLeader(s, l);
    if s.batcher.queue == [] {
      assert s'.leaders == map[];
    } else {
      assert LedBy(s', l, s'.leaders[l]);
    }
  }

  lemma DrainInv(s: Sys, l: Request)
    requires Inv(s) && Enabled(s, Drain(l))
    ensures Inv(Apply(s, Drain(l)))
  {
    var s' := Apply(s, Drain(l));
    SoleLeader(s, l);
    var p := s.leaders[l];
    assert Owed(p) == [];
    var (batch, b) := TakeFrom(s.batcher, DRAIN_LIMIT);
    if batch == [] {
      LeaveLine(s, s');
      assert LedBy(s', l, Leaving(p.mine));
    } else {
      assert s.settled + [] + s.batcher.queue == s.settled + batch + b.queue;
      FailedInv(s, l, batch, s', p.mine);
    }
  }

  lemma LeaveLine(s: Sys, s': Sys)
    requires Line(s, [], [])
    requires s'.arrived == s.arrived && s'.settled == s.settled && s'.sent == s.sent && s'.commits == s.commits
    requires s'.batcher.queue == s.batcher.queue
    ensures Line(s', [], [])
  {
  }

  lemma LeaveInv(s: Sys, l: Request)
    requires Inv(s) && Enabled(s, Leave(l))
    ensures Inv(Apply(s, Leave(l)))
  {
    var s' := Apply(s, Leave(l));
    SoleLeader(s, l);
    LeaveLine(s, s');
    assert s'.leaders == map[];
  }

  lemma StepInv(s: Sys, a: Action)
    requires Inv(s) && Enabled(s, a)
    ensures Inv(Apply(s, a))
  {
    match a
    case Submit(r) =>
      if s.batcher.active { SubmitQueued(s, r); } else { SubmitLeads(s, r); }
    case TakeFirst(l, limit) => TakeFirstInv(s, l, limit);
    case CommitOk(l, uids) => CommitOkInv(s, l, uids);
    case CommitFail(l) =>
      SoleLeader(s, l);
      FailedInv(s, l, s.leaders[l].batch, Apply(s, a), s.leaders[l].mine);
    case Reply(l) => ReplyInv(s, l);
    case Resign(l) => ResignInv(s, l);
    case TakeNext(l, limit) => TakeNextInv(s, l, limit);
    case Drain(l) => DrainInv(s, l);
    case Leave(l) => LeaveInv(s, l);
  }

  lemma {:induction false} AfterInv(run: seq<Action>, s: Sys)
    requires After(run) == Some(s)
    ensures Inv(s)
  {
    if run == [] {
      assert NoLeader(s);
    } else {
      AfterInv(run[..|run| - 1], After(run[..|run| - 1]).value);
      StepInv(After(run[..|run| - 1]).value, run[|run| - 1]);
    }
  }
}
