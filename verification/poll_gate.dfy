/**
 The version gate in front of a session's poll, and the listing memo the sessions share, over the mailbox of module
 `Mailbox`: a command bumps the version in one step and writes in later ones. Reading the version and reading the
 listing are separate steps as well; commands, other sessions and evictions act in between.
 */
module PollGate {
  import opened Options
  import M = Mailbox

  /** What a listing shows: flags by UID, in UID order. */
  type View = map<nat, seq<string>>

  function Shown(b: M.Box): View {
    map uid | uid in b.mails :: b.mails[uid].flags
  }

  // ---------------------------------------------------------------------------------------------
  // How long a captured listing can be trusted

  /** No command that has drawn its number can still change the listing without drawing another. */
  ghost predicate Settled(b: M.Box) {
    forall k, uid :: k in b.running && uid in b.running[k].targets && uid in b.mails ==>
      b.running[k].kind == M.Remove(true) && M.DELETED !in b.mails[uid].flags
  }

  /** A listing filed under a version is right whenever the mailbox is at that version, from now on. */
  ghost predicate AlwaysShows(b: M.Box, version: nat, l: View) {
    forall future, b' :: M.After(b, future) == Some(b') && b'.modSeq == version ==> Shown(b') == l
  }

  ghost predicate Trusted(b: M.Box, version: nat, l: View) {
    version < b.modSeq || (version == b.modSeq && l == Shown(b) && Settled(b))
  }

  lemma StepSettled(b: M.Box, a: M.Action)
    requires Settled(b) && M.Enabled(b, a) && M.Apply(b, a).modSeq == b.modSeq
    ensures Shown(M.Apply(b, a)) == Shown(b) && Settled(M.Apply(b, a))
  {
    if a.WriteFlags? {
      assert M.Apply(b, a).mails == b.mails;
    }
  }

  lemma StepTrusted(b: M.Box, a: M.Action, version: nat, l: View)
    requires Trusted(b, version, l) && M.Enabled(b, a)
    ensures Trusted(M.Apply(b, a), version, l)
  {
    if version == b.modSeq && M.Apply(b, a).modSeq == b.modSeq {
      StepSettled(b, a);
    }
  }

  lemma {:induction false} RunTrusted(b: M.Box, future: seq<M.Action>, b': M.Box, version: nat, l: View)
    requires Trusted(b, version, l) && M.After(b, future) == Some(b')
    ensures Trusted(b', version, l)
    decreases |future|
  {
    if future != [] {
      var before := M.After(b, future[..|future| - 1]).value;
      RunTrusted(b, future[..|future| - 1], before, version, l);
      StepTrusted(before, future[|future| - 1], version, l);
    }
  }

  lemma {:induction false} Climb(b: M.Box, version: nat) returns (future: seq<M.Action>, b': M.Box)
    requires b.modSeq <= version
    ensures M.After(b, future) == Some(b') && b'.modSeq == version
    decreases version - b.modSeq
  {
    if b.modSeq == version {
      future, b' := [], b;
    } else {
      future, b' := Climb(b, version - 1);
      M.Then(b, future, b', M.Deliver([]));
      future, b' := future + [M.Deliver([])], M.Apply(b', M.Deliver([]));
    }
  }

  /** A version still ahead is reached with a listing other than any given one. */
  lemma ClimbElsewhere(b: M.Box, version: nat, l: View)
    requires b.modSeq < version
    ensures !AlwaysShows(b, version, l)
  {
    var future, at := Climb(b, version - 1);
    var plain, marked := M.Apply(at, M.Deliver([])), M.Apply(at, M.Deliver(["x"]));
    M.Then(b, future, at, M.Deliver([]));
    M.Then(b, future, at, M.Deliver(["x"]));
    assert Shown(plain)[at.lastUid + 1] != Shown(marked)[at.lastUid + 1];
  }

  /** A command in flight changes the listing and leaves the version as it is. */
  lemma LateWrite(b: M.Box, k: nat, uid: nat)
    requires k in b.running && uid in b.running[k].targets && uid in b.mails
    requires b.running[k].kind != M.Remove(true) || M.DELETED in b.mails[uid].flags
    ensures !AlwaysShows(b, b.modSeq, Shown(b))
  {
    var a := if b.running[k].kind.Store? then M.WriteFlags(k, map[uid := b.mails[uid].flags + ["x"]]) else M.RemoveOne(k, uid);
    M.Then(b, [], b, a);
    var b' := M.Apply(b, a);
    if a.WriteFlags? {
      assert Shown(b')[uid] == b.mails[uid].flags + ["x"];
    } else {
      assert uid !in Shown(b');
    }
  }

  /**
   Exactly when a listing can be trusted at the version it is filed under, whatever commands follow: the version is
   past, or the listing is the mailbox's and no command that has bumped can still change it.
   */
  lemma TrustExact(b: M.Box, version: nat, l: View)
    ensures AlwaysShows(b, version, l) <==> Trusted(b, version, l)
  {
    if Trusted(b, version, l) {
      forall future, b' | M.After(b, future) == Some(b') && b'.modSeq == version ensures Shown(b') == l {
        RunTrusted(b, future, b', version, l);
      }
    } else if b.modSeq < version {
      ClimbElsewhere(b, version, l);
    } else if l != Shown(b) {
      assert M.After(b, []) == Some(b);
    } else {
      var k, uid :| k in b.running && uid in b.running[k].targets && uid in b.mails
                    && !(b.running[k].kind == M.Remove(true) && M.DELETED !in b.mails[uid].flags);
      LateWrite(b, k, uid);
    }
  }

  // ---------------------------------------------------------------------------------------------
  // Sessions and the memo

  /** The mailbox of that name as it is now. */
  datatype Live = Live(uidValidity: nat, box: M.Box)

  datatype MemoKey = MemoKey(uidValidity: nat, modSeq: nat)

  /** Where a session stands between its reads. `adopt` says that the listing replaces the snapshot outright. */
  datatype Phase =
    | Unselected
    | GotMeta(meta: nat)
    | Selecting(meta: nat, version: nat)
    | Idle
    | Fetching(version: nat, adopt: bool)

  datatype Session = Session(uidValidity: nat, snap: View, snapModSeq: nat, phase: Phase)

  datatype World = World(live: Option<Live>, nextValidity: nat, memo: map<MemoKey, View>, sessions: map<nat, Session>)

  const MAX_CACHED := 2000

  datatype Action =
    | Connect(sid: nat)
    | Create
    | Delete
    | Act(a: M.Action)
    | ReadMeta(sid: nat)
    | ReadVersion(sid: nat)
    | Poll(sid: nat)
    | Refresh(sid: nat)
    | ReadListing(sid: nat, allowExpunge: bool)
    | Evict(key: MemoKey)

  const EMPTY: World := World(None, 1, map[], map[])

  /** The gate: the version is the one the snapshot was filed under. */
  predicate Skips(w: World, sid: nat)
    requires sid in w.sessions && w.live.Some?
  {
    w.live.value.box.modSeq == w.sessions[sid].snapModSeq
  }

  predicate Enabled(w: World, a: Action) {
    match a
    case Connect(sid) => sid !in w.sessions
    case Create => w.live.None?
    case Delete => w.live.Some?
    case Act(a) => w.live.Some? && M.Enabled(w.live.value.box, a)
    case ReadMeta(sid) => sid in w.sessions && w.live.Some?
    case ReadVersion(sid) => sid in w.sessions && w.sessions[sid].phase.GotMeta? && w.live.Some?
    case Poll(sid) => sid in w.sessions && w.sessions[sid].phase.Idle? && w.live.Some?
    case Refresh(sid) => sid in w.sessions && w.sessions[sid].phase.Idle? && w.live.Some?
    case ReadListing(sid, _) => sid in w.sessions && (w.sessions[sid].phase.Selecting? || w.sessions[sid].phase.Fetching?)
    case Evict(key) => key in w.memo
  }

  /** The session after its listing arrived; without leave to expunge a snapshot with vanished messages is kept. */
  function Arrived(s: Session, l: View, allowExpunge: bool): Session
    requires s.phase.Selecting? || s.phase.Fetching?
  {
    match s.phase
    case Selecting(meta, version) => Session(meta, l, version, Idle)
    case Fetching(version, adopt) =>
      if adopt || allowExpunge || s.snap.Keys <= l.Keys
      then s.(snap := l, snapModSeq := version, phase := Idle)
      else s.(phase := Idle)
  }

  function KeyOf(s: Session): MemoKey
    requires s.phase.Selecting? || s.phase.Fetching?
  {
    match s.phase
    case Selecting(meta, version) => MemoKey(meta, version)
    case Fetching(version, _) => MemoKey(s.uidValidity, version)
  }

  function Put(w: World, sid: nat, s: Session): World {
    w.(sessions := w.sessions[sid := s])
  }

  function ApplyListing(w: World, sid: nat, allowExpunge: bool): World
    requires Enabled(w, ReadListing(sid, allowExpunge))
  {
    var s := w.sessions[sid];
    var key := KeyOf(s);
    if key in w.memo then Put(w, sid, Arrived(s, w.memo[key], allowExpunge))
    else if w.live.None? then Put(w, sid, s.(phase := Unselected))
    else
      var l := Shown(w.live.value.box);
      var w' := if |l| <= MAX_CACHED then w.(memo := w.memo[key := l]) else w;
      Put(w', sid, Arrived(s, l, allowExpunge))
  }

  function Apply(w: World, a: Action): World
    requires Enabled(w, a)
  {
    match a
    case Connect(sid) => Put(w, sid, Session(0, map[], 0, Unselected))
    case Create => w.(live := Some(Live(w.nextValidity, M.EMPTY)), nextValidity := w.nextValidity + 1)
    case Delete => w.(live := None)
    case Act(a) => w.(live := Some(w.live.value.(box := M.Apply(w.live.value.box, a))))
    case ReadMeta(sid) => Put(w, sid, w.sessions[sid].(phase := GotMeta(w.live.value.uidValidity)))
    case ReadVersion(sid) =>
      Put(w, sid, w.sessions[sid].(phase := Selecting(w.sessions[sid].phase.meta, w.live.value.box.modSeq)))
    case Poll(sid) =>
      if Skips(w, sid) then w
      else Put(w, sid, w.sessions[sid].(phase := Fetching(w.live.value.box.modSeq, false)))
    case Refresh(sid) => Put(w, sid, w.sessions[sid].(phase := Fetching(w.live.value.box.modSeq, true)))
    case ReadListing(sid, allowExpunge) => ApplyListing(w, sid, allowExpunge)
    case Evict(key) => w.(memo := w.memo - {key})
  }

  ghost function After(w: World, run: seq<Action>): Option<World>
    decreases |run|
  {
    if run == [] then Some(w)
    else
      var before := After(w, run[..|run| - 1]);
      if before.Some? && Enabled(before.value, run[|run| - 1]) then Some(Apply(before.value, run[|run| - 1])) else None
  }

  // ---------------------------------------------------------------------------------------------
  // Runs without a listing read in the middle of a command

  /** A listing read from the store at its current version finds no command that could still change it. */
  ghost predicate Clean(w: World, a: Action)
    requires Enabled(w, a)
  {
    a.ReadListing? && w.live.Some? && KeyOf(w.sessions[a.sid]) == MemoKey(w.live.value.uidValidity, w.live.value.box.modSeq)
      && KeyOf(w.sessions[a.sid]) !in w.memo
    ==> Settled(w.live.value.box)
  }

  ghost predicate CleanRun(run: seq<Action>) {
    run == [] ||
    (CleanRun(run[..|run| - 1]) &&
     match After(EMPTY, run[..|run| - 1])
     case None => true
     case Some(w) => Enabled(w, run[|run| - 1]) ==> Clean(w, run[|run| - 1]))
  }

  ghost predicate IsLive(w: World, uidValidity: nat) {
    w.live.Some? && w.live.value.uidValidity == uidValidity
  }

  ghost predicate SessionOk(w: World, s: Session) {
    && s.uidValidity < w.nextValidity
    && (match s.phase
        case Unselected => true
        case GotMeta(meta) => meta < w.nextValidity
        case Selecting(meta, version) => meta < w.nextValidity && (IsLive(w, meta) ==> version <= w.live.value.box.modSeq)
        case Idle => true
        case Fetching(version, _) => IsLive(w, s.uidValidity) ==> version <= w.live.value.box.modSeq)
    && ((s.phase.Idle? || s.phase.Fetching?) && IsLive(w, s.uidValidity) ==>
          Trusted(w.live.value.box, s.snapModSeq, s.snap))
  }

  ghost predicate Inv(w: World) {
    && 0 < w.nextValidity && (w.live.Some? ==> w.live.value.uidValidity < w.nextValidity)
    && (forall k :: k in w.memo ==> k.uidValidity < w.nextValidity)
    && (forall k :: k in w.memo && IsLive(w, k.uidValidity) ==> Trusted(w.live.value.box, k.modSeq, w.memo[k]))
    && (forall sid :: sid in w.sessions ==> SessionOk(w, w.sessions[sid]))
  }

  lemma ActInv(w: World, a: M.Action)
    requires Inv(w) && Enabled(w, Act(a))
    ensures Inv(Apply(w, Act(a)))
  {
    var w', b := Apply(w, Act(a)), w.live.value.box;
    forall k | k in w'.memo && IsLive(w', k.uidValidity) ensures Trusted(w'.live.value.box, k.modSeq, w'.memo[k]) {
      StepTrusted(b, a, k.modSeq, w.memo[k]);
    }
    forall sid | sid in w'.sessions ensures SessionOk(w', w'.sessions[sid]) {
      var s := w.sessions[sid];
      assert SessionOk(w, s);
      if (s.phase.Idle? || s.phase.Fetching?) && IsLive(w, s.uidValidity) {
        StepTrusted(b, a, s.snapModSeq, s.snap);
      }
    }
  }

  lemma ArrivedOk(w: World, w': World, s: Session, l: View, allowExpunge: bool)
    requires SessionOk(w, s) && (s.phase.Selecting? || s.phase.Fetching?)
    requires w'.live == w.live && w'.nextValidity == w.nextValidity
    requires IsLive(w, KeyOf(s).uidValidity) ==> Trusted(w.live.value.box, KeyOf(s).modSeq, l)
    ensures SessionOk(w', Arrived(s, l, allowExpunge))
  {}

  /** Whichever way the listing comes, it can be trusted. */
  lemma ArrivalTrusted(w: World, sid: nat, allowExpunge: bool)
    requires Inv(w) && Enabled(w, ReadListing(sid, allowExpunge)) && Clean(w, ReadListing(sid, allowExpunge))
    ensures var key := KeyOf(w.sessions[sid]);
            IsLive(w, key.uidValidity) ==>
              Trusted(w.live.value.box, key.modSeq, if key in w.memo then w.memo[key] else Shown(w.live.value.box))
  {
    assert SessionOk(w, w.sessions[sid]);
  }

  lemma ListingInv(w: World, sid: nat, allowExpunge: bool)
    requires Inv(w) && Enabled(w, ReadListing(sid, allowExpunge)) && Clean(w, ReadListing(sid, allowExpunge))
    ensures Inv(ApplyListing(w, sid, allowExpunge))
  {
    var w' := ApplyListing(w, sid, allowExpunge);
    var s := w.sessions[sid];
    var key := KeyOf(s);
    assert SessionOk(w, s);
    ArrivalTrusted(w, sid, allowExpunge);
    if key in w.memo {
      ArrivedOk(w, w', s, w.memo[key], allowExpunge);
    } else if w.live.Some? {
      ArrivedOk(w, w', s, Shown(w.live.value.box), allowExpunge);
    }
    forall k | k in w'.sessions ensures SessionOk(w', w'.sessions[k]) {
      assert SessionOk(w, w.sessions[k]);
    }
  }

  lemma StepInv(w: World, a: Action)
    requires Inv(w) && Enabled(w, a) && Clean(w, a)
    ensures Inv(Apply(w, a))
  {
    match a
    case Act(a) => ActInv(w, a);
    case ReadListing(sid, allowExpunge) => ListingInv(w, sid, allowExpunge);
    case Connect(sid) => SessionInv(w, sid, Session(0, map[], 0, Unselected));
    case ReadMeta(sid) => SessionInv(w, sid, Apply(w, a).sessions[sid]);
    case ReadVersion(sid) => SessionInv(w, sid, Apply(w, a).sessions[sid]);
    case Poll(sid) => SessionInv(w, sid, Apply(w, a).sessions[sid]);
    case Refresh(sid) => SessionInv(w, sid, Apply(w, a).sessions[sid]);
    case _ => MailboxInv(w, a);
  }

  lemma SessionInv(w: World, sid: nat, s: Session)
    requires Inv(w) && SessionOk(w, s)
    ensures Inv(Put(w, sid, s))
  {
    var w' := Put(w, sid, s);
    forall k | k in w'.sessions ensures SessionOk(w', w'.sessions[k]) {
      assert k != sid ==> SessionOk(w, w.sessions[k]);
    }
  }

  lemma MailboxInv(w: World, a: Action)
    requires Inv(w) && Enabled(w, a) && (a.Create? || a.Delete? || a.Evict?)
    ensures Inv(Apply(w, a))
  {
    var w' := Apply(w, a);
    forall k | k in w'.sessions ensures SessionOk(w', w'.sessions[k]) {
      assert SessionOk(w, w.sessions[k]);
    }
  }

  lemma {:induction false} AfterInv(run: seq<Action>, w: World)
    requires After(EMPTY, run) == Some(w) && CleanRun(run)
    ensures Inv(w)
  {
    if run != [] {
      AfterInv(run[..|run| - 1], After(EMPTY, run[..|run| - 1]).value);
      StepInv(After(EMPTY, run[..|run| - 1]).value, run[|run| - 1]);
    }
  }

  /**
   In every interleaving in which no listing is read while a command that has bumped can still change it, a poll that
   skips finds its snapshot equal to the live listing, as long as the mailbox is still the one the session selected.
   */
  lemma GateSound(run: seq<Action>, w: World, sid: nat)
    requires After(EMPTY, run) == Some(w) && CleanRun(run) && Enabled(w, Poll(sid)) && Skips(w, sid)
    requires w.sessions[sid].uidValidity == w.live.value.uidValidity
    ensures w.sessions[sid].snap == Shown(w.live.value.box)
  {
    AfterInv(run, w);
    assert SessionOk(w, w.sessions[sid]);
  }

  /** No listing is read between a command's bump and its end, as if commands were single steps. */
  ghost predicate Unsplit(run: seq<Action>) {
    run == [] ||
    (Unsplit(run[..|run| - 1]) &&
     match After(EMPTY, run[..|run| - 1])
     case None => true
     case Some(w) => run[|run| - 1].ReadListing? && w.live.Some? ==> w.live.value.box.running == map[])
  }

  lemma {:induction false} UnsplitIsClean(run: seq<Action>)
    requires Unsplit(run)
    ensures CleanRun(run)
  {
    if run != [] {
      UnsplitIsClean(run[..|run| - 1]);
    }
  }

  /** With commands as single steps the gate is sound in every interleaving. */
  lemma GateSoundUnsplit(run: seq<Action>, w: World, sid: nat)
    requires After(EMPTY, run) == Some(w) && Unsplit(run) && Enabled(w, Poll(sid)) && Skips(w, sid)
    requires w.sessions[sid].uidValidity == w.live.value.uidValidity
    ensures w.sessions[sid].snap == Shown(w.live.value.box)
  {
    UnsplitIsClean(run);
    GateSound(run, w, sid);
  }

  /** And a memo entry can be trusted at the version it is filed under, though it may be newer. */
  lemma MemoNotStale(run: seq<Action>, w: World, key: MemoKey)
    requires After(EMPTY, run) == Some(w) && CleanRun(run) && key in w.memo && IsLive(w, key.uidValidity)
    ensures AlwaysShows(w.live.value.box, key.modSeq, w.memo[key])
    ensures key.modSeq == w.live.value.box.modSeq ==> w.memo[key] == Shown(w.live.value.box)
  {
    AfterInv(run, w);
    TrustExact(w.live.value.box, key.modSeq, w.memo[key]);
  }

  // ---------------------------------------------------------------------------------------------
  // The conditions are exact

  ghost function Acts(acts: seq<M.Action>): (run: seq<Action>)
    ensures |run| == |acts| && forall i :: 0 <= i < |acts| ==> run[i] == Act(acts[i])
  {
    seq(|acts|, i requires 0 <= i < |acts| => Act(acts[i]))
  }

  /** Whatever commands follow, a poll that skips over this snapshot is right to. */
  ghost predicate HoldsUp(w: World, sid: nat)
    requires sid in w.sessions
  {
    forall acts, w' :: After(w, Acts(acts)) == Some(w') && w'.live.Some? && sid in w'.sessions && Skips(w', sid) ==>
      w'.sessions[sid].snap == Shown(w'.live.value.box)
  }

  /** Commands move the mailbox and nothing else. */
  lemma {:induction false} ActsMove(w: World, acts: seq<M.Action>)
    requires w.live.Some?
    ensures var b := M.After(w.live.value.box, acts);
            After(w, Acts(acts)) == if b.None? then None else Some(w.(live := Some(w.live.value.(box := b.value))))
    decreases |acts|
  {
    if acts != [] {
      ActsMove(w, acts[..|acts| - 1]);
      assert Acts(acts)[..|acts| - 1] == Acts(acts[..|acts| - 1]);
    }
  }

  lemma HoldsUpIsAlwaysShows(w: World, sid: nat)
    requires w.live.Some? && sid in w.sessions
    ensures HoldsUp(w, sid) <==> AlwaysShows(w.live.value.box, w.sessions[sid].snapModSeq, w.sessions[sid].snap)
  {
    var b, s := w.live.value.box, w.sessions[sid];
    if HoldsUp(w, sid) {
      forall future, b' | M.After(b, future) == Some(b') && b'.modSeq == s.snapModSeq ensures Shown(b') == s.snap {
        ActsMove(w, future);
        assert Skips(w.(live := Some(w.live.value.(box := b'))), sid);
      }
    }
    if AlwaysShows(b, s.snapModSeq, s.snap) {
      forall acts, w' | After(w, Acts(acts)) == Some(w') && w'.live.Some? && sid in w'.sessions && Skips(w', sid)
        ensures w'.sessions[sid].snap == Shown(w'.live.value.box)
      {
        ActsMove(w, acts);
      }
    }
  }

  /**
   For every world and every snapshot, of this mailbox or of one deleted since: the gate is right to skip over it
   after any commands exactly when the version has passed it, or it is the listing and no command in flight can
   change that.
   */
  lemma SnapshotHoldsUpIff(w: World, sid: nat)
    requires w.live.Some? && sid in w.sessions
    ensures HoldsUp(w, sid) <==> Trusted(w.live.value.box, w.sessions[sid].snapModSeq, w.sessions[sid].snap)
  {
    HoldsUpIsAlwaysShows(w, sid);
    TrustExact(w.live.value.box, w.sessions[sid].snapModSeq, w.sessions[sid].snap);
  }

  /** In runs without a read in the middle of a command, an idle session's snapshot of the live mailbox holds up. */
  lemma OwnSnapshotHoldsUp(run: seq<Action>, w: World, sid: nat)
    requires After(EMPTY, run) == Some(w) && CleanRun(run) && sid in w.sessions && w.sessions[sid].phase.Idle?
    requires IsLive(w, w.sessions[sid].uidValidity)
    ensures HoldsUp(w, sid)
  {
    AfterInv(run, w);
    assert SessionOk(w, w.sessions[sid]);
    SnapshotHoldsUpIff(w, sid);
  }

  /** A snapshot just taken from the store holds up exactly when its version is past or no command can still write. */
  lemma CaptureExact(w: World, sid: nat, allowExpunge: bool)
    requires Enabled(w, ReadListing(sid, allowExpunge)) && w.live.Some? && KeyOf(w.sessions[sid]) !in w.memo
    requires var s := w.sessions[sid];
             s.phase.Selecting? || s.phase.adopt || allowExpunge || s.snap.Keys <= Shown(w.live.value.box).Keys
    ensures var version, b := KeyOf(w.sessions[sid]).modSeq, w.live.value.box;
            HoldsUp(ApplyListing(w, sid, allowExpunge), sid) <==> version < b.modSeq || (version == b.modSeq && Settled(b))
  {
    SnapshotHoldsUpIff(ApplyListing(w, sid, allowExpunge), sid);
  }

  /**
   Across a deletion and re-creation, where the version restarts, the gate is right to skip after any commands exactly
   when the snapshot is the empty one at version zero.
   */
  lemma RecreationFoolsIff(w: World, sid: nat)
    requires w.live.Some? && sid in w.sessions
    ensures var w' := Apply(Apply(w, Delete), Create);
            HoldsUp(w', sid) <==> w.sessions[sid].snapModSeq == 0 && w.sessions[sid].snap == map[]
  {
    var w' := Apply(Apply(w, Delete), Create);
    SnapshotHoldsUpIff(w', sid);
    assert Shown(M.EMPTY) == map[];
  }

  // ---------------------------------------------------------------------------------------------
  // A run that fools the gate

  lemma Then(run: seq<Action>, w: World, a: Action) returns (longer: seq<Action>, w': World)
    requires After(EMPTY, run) == Some(w) && Enabled(w, a)
    ensures After(EMPTY, longer) == Some(w') && w' == Apply(w, a) && longer == run + [a]
  {
    longer, w' := run + [a], Apply(w, a);
    assert longer[..|run|] == run;
  }

  const ONE: M.Box := M.Box(1, 1, map[1 := M.Mail([], 1)], {}, map[])
  const MEMO: map<MemoKey, View> := map[MemoKey(1, 1) := map[1 := []]]
  const BUMPED: M.Box := ONE.(modSeq := 2, running := map[9 := M.Command(M.Store, 2, {1})])

  lemma OneDelivered() returns (run: seq<Action>, w: World)
    ensures After(EMPTY, run) == Some(w) && Delete !in run
    ensures w == World(Some(Live(1, ONE)), 2, map[], map[0 := Session(0, map[], 0, Unselected)])
  {
    run, w := Then([], EMPTY, Connect(0));
    run, w := Then(run, w, Create);
    assert M.Apply(M.EMPTY, M.Deliver([])) == ONE;
    run, w := Then(run, w, Act(M.Deliver([])));
  }

  lemma VersionTaken() returns (run: seq<Action>, w: World)
    ensures After(EMPTY, run) == Some(w) && Delete !in run
    ensures w == World(Some(Live(1, ONE)), 2, map[], map[0 := Session(0, map[], 0, Selecting(1, 1))])
  {
    run, w := OneDelivered();
    run, w := Then(run, w, ReadMeta(0));
    assert w.sessions == map[0 := Session(0, map[], 0, GotMeta(1))];
    run, w := Then(run, w, ReadVersion(0));
    assert w.sessions == map[0 := Session(0, map[], 0, Selecting(1, 1))];
  }

  lemma Selected() returns (run: seq<Action>, w: World)
    ensures After(EMPTY, run) == Some(w) && Delete !in run
    ensures w == World(Some(Live(1, ONE)), 2, MEMO, map[0 := Session(1, map[1 := []], 1, Idle)])
  {
    run, w := VersionTaken();
    var l := Shown(ONE);
    assert l == map[1 := []] && |l| == 1;
    run, w := Then(run, w, ReadListing(0, true));
    assert w.memo == MEMO && w.sessions == map[0 := Session(1, map[1 := []], 1, Idle)];
  }

  const SEEN: M.Box := BUMPED.(mails := map[1 := M.Mail(["\\Seen"], 2)])

  /** A flag command bumps, and the session reads the new version. */
  lemma VersionRead() returns (run: seq<Action>, w: World)
    ensures After(EMPTY, run) == Some(w) && Delete !in run
    ensures w == World(Some(Live(1, BUMPED)), 2, MEMO, map[0 := Session(1, map[1 := []], 1, Fetching(2, false))])
  {
    run, w := Selected();
    var begin := M.Begin(9, M.Store, {1});
    assert M.Apply(ONE, begin) == BUMPED;
    run, w := Then(run, w, Act(begin));
    run, w := Then(run, w, Poll(0));
    assert w.sessions == map[0 := Session(1, map[1 := []], 1, Fetching(2, false))];
  }

  /** It then reads the listing, before the command writes. */
  lemma PolledBetween() returns (run: seq<Action>, w: World)
    ensures After(EMPTY, run) == Some(w) && Delete !in run
    ensures w.live == Some(Live(1, BUMPED)) && w.sessions == map[0 := Session(1, map[1 := []], 2, Idle)]
  {
    run, w := VersionRead();
    assert MemoKey(1, 2) !in w.memo;
    var l := Shown(BUMPED);
    assert l == map[1 := []] && Arrived(w.sessions[0], l, true) == Session(1, map[1 := []], 2, Idle);
    run, w := Then(run, w, ReadListing(0, true));
  }

  /** The write then lands at the version the snapshot is filed under: nobody deletes anything, and the gate skips it. */
  lemma SplitWriteFoolsGate() returns (run: seq<Action>, w: World)
    ensures After(EMPTY, run) == Some(w) && Delete !in run && Enabled(w, Poll(0)) && Skips(w, 0)
    ensures w.sessions[0].uidValidity == w.live.value.uidValidity && w.sessions[0].snap != Shown(w.live.value.box)
  {
    run, w := PolledBetween();
    var write := M.WriteFlags(9, map[1 := ["\\Seen"]]);
    assert M.Apply(BUMPED, write).mails == SEEN.mails;
    run, w := Then(run, w, Act(write));
    assert w.live == Some(Live(1, SEEN));
    assert Shown(SEEN)[1] == ["\\Seen"];
  }
}
