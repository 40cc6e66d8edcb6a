/**
 A session's poll: the diff of its snapshot against the current listing, the EXPUNGE numbering the client applies
 (section 7.4.1 of RFC 3501), and what a run of polls reports in all.
 */
module Poll {
  import opened Options
  import opened Sorting

  datatype Entry = Entry(uid: nat, flags: seq<string>)

  type Listing = seq<Entry>

  function Uids(l: Listing): set<nat> {
    set i | 0 <= i < |l| :: l[i].uid
  }

  predicate DistinctUids(l: Listing) {
    forall i, j :: 0 <= i < j < |l| ==> l[i].uid != l[j].uid
  }

  /** Order does not matter in a flag list. */
  predicate SameFlags(a: seq<string>, b: seq<string>) {
    |a| == |b| && forall i :: 0 <= i < |a| ==> a[i] in b
  }

  predicate NoRepeats(flags: seq<string>) {
    forall i, j :: 0 <= i < j < |flags| ==> flags[i] != flags[j]
  }

  function FlagSet(flags: seq<string>): set<string> {
    set f | f in flags
  }

  lemma {:induction false} FlagSetSize(flags: seq<string>)
    ensures |FlagSet(flags)| <= |flags|
    ensures NoRepeats(flags) ==> |FlagSet(flags)| == |flags|
  {
    if flags != [] {
      var front, last := flags[..|flags| - 1], flags[|flags| - 1];
      FlagSetSize(front);
      assert flags == front + [last];
      assert FlagSet(flags) == FlagSet(front) + {last};
      assert NoRepeats(flags) ==> last !in front;
    }
  }

  lemma SmallSubset(a: set<string>, b: set<string>)
    requires a <= b && |b| <= |a|
    ensures a == b
  {
    assert b == a + (b - a);
  }

  /** The comparison decides whether two flag lists without repeats hold the same flags. */
  lemma SameFlagsIff(a: seq<string>, b: seq<string>)
    requires NoRepeats(a) && NoRepeats(b)
    ensures SameFlags(a, b) <==> FlagSet(a) == FlagSet(b)
  {
    FlagSetSize(a);
    FlagSetSize(b);
    if SameFlags(a, b) {
      SmallSubset(FlagSet(a), FlagSet(b));
    }
    if FlagSet(a) == FlagSet(b) {
      forall i | 0 <= i < |a| ensures a[i] in b {
        assert a[i] in FlagSet(a);
      }
    }
  }

  /** With a repeat in the first it can miss a change. */
  lemma RepeatsHideChange()
    ensures SameFlags(["a", "a"], ["a", "b"]) && FlagSet(["a", "a"]) != FlagSet(["a", "b"])
  {
    assert "b" in FlagSet(["a", "b"]);
  }

  // ---------------------------------------------------------------------------------------------
  // The client's side of EXPUNGE

  /** One EXPUNGE: the message with that number goes and everything after it moves up. */
  function Expunged(l: Listing, n: int): Listing {
    if 1 <= n <= |l| then l[..n - 1] + l[n..] else l
  }

  function ExpungedAll(l: Listing, nums: seq<int>): Listing {
    if nums == [] then l else ExpungedAll(Expunged(l, nums[0]), nums[1..])
  }

  /** The messages whose number is not among `nums`, in order. */
  function Unnumbered(l: Listing, nums: seq<int>): Listing {
    if l == [] then []
    else Unnumbered(l[..|l| - 1], nums) + (if |l| in nums then [] else [l[|l| - 1]])
  }

  /** The messages of `l` that `cur` still lists, in order. */
  function Survivors(l: Listing, cur: Listing): Listing {
    if l == [] then []
    else Survivors(l[..|l| - 1], cur) + (if l[|l| - 1].uid in Uids(cur) then [l[|l| - 1]] else [])
  }

  predicate Descending(nums: seq<int>) {
    forall i, j :: 0 <= i < j < |nums| ==> nums[i] > nums[j]
  }

  lemma {:induction false} UnnumberedAbove(l: Listing, nums: seq<int>, more: seq<int>)
    requires forall n :: 1 <= n <= |l| ==> (n in nums <==> n in more)
    ensures Unnumbered(l, nums) == Unnumbered(l, more)
  {
    if l != [] {
      UnnumberedAbove(l[..|l| - 1], nums, more);
    }
  }

  /** Removing the highest number first leaves the lower numbers meaning what they meant. */
  lemma {:induction false} ExpungeHighest(l: Listing, nums: seq<int>)
    requires nums != [] && Descending(nums) && 1 <= nums[0] <= |l|
    ensures Unnumbered(Expunged(l, nums[0]), nums[1..]) == Unnumbered(l, nums)
    decreases |l|
  {
    var n := nums[0];
    var front, last := l[..|l| - 1], l[|l| - 1];
    assert nums == [n] + nums[1..];
    if n == |l| {
      assert Expunged(l, n) == front;
      UnnumberedAbove(front, nums[1..], nums);
    } else {
      ExpungeHighest(front, nums);
      var gone := Expunged(l, n);
      assert gone == Expunged(front, n) + [last];
      assert gone[..|gone| - 1] == Expunged(front, n);
      assert forall i :: 0 < i < |nums| ==> nums[0] > nums[i];
      assert |gone| !in nums[1..] && |l| !in nums;
    }
  }

  lemma {:induction false} ExpungedAllKeepsRest(l: Listing, nums: seq<int>)
    requires Descending(nums) && forall i :: 0 <= i < |nums| ==> 1 <= nums[i] <= |l|
    ensures ExpungedAll(l, nums) == Unnumbered(l, nums)
    decreases |nums|
  {
    if nums == [] {
      UnnumberedNothing(l);
    } else {
      var shorter, rest := Expunged(l, nums[0]), nums[1..];
      forall i | 0 <= i < |rest| ensures 1 <= rest[i] <= |shorter| {
        assert nums[0] > nums[i + 1];
      }
      ExpungeHighest(l, nums);
      ExpungedAllKeepsRest(shorter, rest);
    }
  }

  lemma {:induction false} UnnumberedNothing(l: Listing)
    ensures Unnumbered(l, []) == l
  {
    if l != [] {
      UnnumberedNothing(l[..|l| - 1]);
      assert l == l[..|l| - 1] + [l[|l| - 1]];
    }
  }

  /** The numbers of the messages that are gone. */
  ghost predicate NumbersGone(nums: seq<int>, l: Listing, cur: Listing) {
    forall n :: n in nums <==> 1 <= n <= |l| && l[n - 1].uid !in Uids(cur)
  }

  lemma {:induction false} UnnumberedSurvive(l: Listing, nums: seq<int>, cur: Listing)
    requires forall n :: 1 <= n <= |l| ==> (n in nums <==> l[n - 1].uid !in Uids(cur))
    ensures Unnumbered(l, nums) == Survivors(l, cur)
  {
    if l != [] {
      var front := l[..|l| - 1];
      assert forall i :: 0 <= i < |front| ==> front[i] == l[i];
      UnnumberedSurvive(front, nums, cur);
    }
  }

  /** Descending EXPUNGEs of exactly the vanished messages leave the client with the survivors, in order. */
  lemma ExpungeNumbering(l: Listing, nums: seq<int>, cur: Listing)
    requires NumbersGone(nums, l, cur) && Descending(nums)
    ensures ExpungedAll(l, nums) == Survivors(l, cur)
  {
    forall i | 0 <= i < |nums| ensures 1 <= nums[i] <= |l| {
      assert nums[i] in nums;
    }
    ExpungedAllKeepsRest(l, nums);
    UnnumberedSurvive(l, nums, cur);
  }

  // ---------------------------------------------------------------------------------------------
  // The poll

  datatype FlagReport = FlagReport(seqNum: nat, uid: nat, flags: seq<string>)

  /** One flag report, under the snapshot's number, for each message on both sides whose flags differ, and no other. */
  ghost predicate ReportsFlags(reports: seq<FlagReport>, snap: Listing, cur: Listing) {
    ReportsFlagsOf(reports, snap, cur, |cur|)
  }

  predicate Adopts(snap: Listing, cur: Listing, allowExpunge: bool) {
    allowExpunge || Uids(snap) <= Uids(cur)
  }

  function Reversed(s: seq<int>): (r: seq<int>)
    ensures |r| == |s| && forall i :: 0 <= i < |s| ==> r[i] == s[|s| - 1 - i]
  {
    seq(|s|, i requires 0 <= i < |s| => s[|s| - 1 - i])
  }

  /** Sequence numbers by UID. */
  ghost predicate Numbers(seqOf: map<nat, nat>, l: Listing, n: nat)
    requires n <= |l|
  {
    && (forall i :: 0 <= i < n ==> l[i].uid in seqOf)
    && (forall u {:trigger seqOf[u]} :: u in seqOf ==> 1 <= seqOf[u] <= n && l[seqOf[u] - 1].uid == u)
  }

  lemma NumbersSnoc(seqOf: map<nat, nat>, l: Listing, n: nat)
    requires n < |l| && Numbers(seqOf, l, n)
    ensures Numbers(seqOf[l[n].uid := n + 1], l, n + 1)
  {
    var now := seqOf[l[n].uid := n + 1];
    forall u | u in now ensures 1 <= now[u] <= n + 1 && l[now[u] - 1].uid == u {
      if u != l[n].uid {
        assert now[u] == seqOf[u];
      }
    }
  }

  method NumberListing(l: Listing) returns (seqOf: map<nat, nat>)
    ensures Numbers(seqOf, l, |l|)
  {
    seqOf := map[];
    for i := 0 to |l|
      invariant Numbers(seqOf, l, i)
    {
      NumbersSnoc(seqOf, l, i);
      seqOf := seqOf[l[i].uid := i + 1];
    }
  }

  /** The reports for the first `n` messages of the current listing, one for each UID. */
  ghost predicate ReportsFlagsOf(reports: seq<FlagReport>, snap: Listing, cur: Listing, n: nat)
    requires n <= |cur|
  {
    && (forall r :: r in reports ==> ReportFits(r, snap, cur[..n]))
    && (DistinctUids(cur) ==> forall a, b :: 0 <= a < b < |reports| ==> reports[a].uid != reports[b].uid)
    && (forall k, i :: 0 <= k < |snap| && 0 <= i < n && Differs(snap[k], cur[i]) ==> ReportOf(k, cur[i]) in reports)
  }

  predicate Differs(a: Entry, b: Entry) {
    a.uid == b.uid && !SameFlags(a.flags, b.flags)
  }

  function ReportOf(k: nat, m: Entry): FlagReport {
    FlagReport(k + 1, m.uid, m.flags)
  }

  predicate ReportFits(r: FlagReport, snap: Listing, cur: Listing) {
    1 <= r.seqNum <= |snap| && Entry(r.uid, r.flags) in cur && Differs(snap[r.seqNum - 1], Entry(r.uid, r.flags))
  }

  lemma SameUidSameIndex(l: Listing, i: nat, j: nat)
    requires DistinctUids(l) && i < |l| && j < |l| && l[i].uid == l[j].uid
    ensures i == j
  {}

  /** One more message of the current listing adds the report it calls for, if any. */
  lemma ReportsSnoc(reports: seq<FlagReport>, snap: Listing, cur: Listing, i: nat, more: seq<FlagReport>)
    requires i < |cur| && ReportsFlagsOf(reports, snap, cur, i)
    requires || (more == [] && forall k :: 0 <= k < |snap| ==> !Differs(snap[k], cur[i]))
             || exists k :: 0 <= k < |snap| && Differs(snap[k], cur[i]) && more == [ReportOf(k, cur[i])] &&
                            forall k' :: 0 <= k' < |snap| && snap[k'].uid == cur[i].uid ==> k' == k
    ensures ReportsFlagsOf(reports + more, snap, cur, i + 1)
  {
    var now := cur[..i + 1];
    assert now == cur[..i] + [cur[i]];
    forall r | r in reports + more ensures ReportFits(r, snap, now) {
      if r in reports {
        assert ReportFits(r, snap, cur[..i]);
      } else {
        assert Entry(r.uid, r.flags) == cur[i] && cur[i] in now;
      }
    }
    if DistinctUids(cur) && more != [] {
      forall a | 0 <= a < |reports| ensures reports[a].uid != cur[i].uid {
        assert reports[a] in reports && ReportFits(reports[a], snap, cur[..i]);
      }
    }
  }

  /**
   Of messages on both sides: a changed set of flags is reported with the new flags, under the number the message has in
   the snapshot, and an unchanged one is not.
   */
  ghost predicate ReportsChanges(reports: seq<FlagReport>, snap: Listing, cur: Listing) {
    forall k, i :: 0 <= k < |snap| && 0 <= i < |cur| && snap[k].uid == cur[i].uid
                   && NoRepeats(snap[k].flags) && NoRepeats(cur[i].flags) ==>
                     if FlagSet(snap[k].flags) != FlagSet(cur[i].flags)
                     then FlagReport(k + 1, cur[i].uid, cur[i].flags) in reports
                     else forall r :: r in reports ==> r.uid != cur[i].uid
  }

  lemma FlagsMeanChanges(reports: seq<FlagReport>, snap: Listing, cur: Listing)
    requires ReportsFlags(reports, snap, cur) && DistinctUids(snap) && DistinctUids(cur)
    ensures ReportsChanges(reports, snap, cur)
  {
    assert cur[..|cur|] == cur;
    forall k, i | 0 <= k < |snap| && 0 <= i < |cur| && snap[k].uid == cur[i].uid
                  && NoRepeats(snap[k].flags) && NoRepeats(cur[i].flags)
      ensures if FlagSet(snap[k].flags) != FlagSet(cur[i].flags)
              then FlagReport(k + 1, cur[i].uid, cur[i].flags) in reports
              else forall r :: r in reports ==> r.uid != cur[i].uid
    {
      SameFlagsIff(snap[k].flags, cur[i].flags);
      if FlagSet(snap[k].flags) != FlagSet(cur[i].flags) {
        assert Differs(snap[k], cur[i]);
        assert ReportOf(k, cur[i]) in reports;
      } else {
        forall r | r in reports ensures r.uid != cur[i].uid {
          UnchangedUnreported(r, snap, cur, k, i);
        }
      }
    }
  }

  lemma UnchangedUnreported(r: FlagReport, snap: Listing, cur: Listing, k: nat, i: nat)
    requires ReportFits(r, snap, cur) && DistinctUids(snap) && DistinctUids(cur)
    requires k < |snap| && i < |cur| && snap[k].uid == cur[i].uid && SameFlags(snap[k].flags, cur[i].flags)
    ensures r.uid != cur[i].uid
  {
    var n :| 0 <= n < |cur| && cur[n] == Entry(r.uid, r.flags);
    if r.uid == cur[i].uid {
      SameUidSameIndex(cur, n, i);
      SameUidSameIndex(snap, r.seqNum - 1, k);
      assert false;
    }
  }

  method DiffFlags(snap: Listing, current: Listing) returns (reports: seq<FlagReport>)
    requires DistinctUids(snap)
    ensures ReportsFlags(reports, snap, current)
    ensures DistinctUids(current) ==> ReportsChanges(reports, snap, current)
  {
    var seqOf := NumberListing(snap);
    reports := [];
    for i := 0 to |current|
      invariant ReportsFlagsOf(reports, snap, current, i)
    {
      var m, more := current[i], [];
      if m.uid in seqOf {
        var k := seqOf[m.uid] - 1;
        forall k' | 0 <= k' < |snap| && snap[k'].uid == m.uid ensures k' == k {
          SameUidSameIndex(snap, k, k');
        }
        if !SameFlags(snap[k].flags, m.flags) {
          more := [ReportOf(k, m)];
        }
      }
      ReportsSnoc(reports, snap, current, i, more);
      reports := reports + more;
    }
    assert current[..|current|] == current;
    if DistinctUids(current) {
      FlagsMeanChanges(reports, snap, current);
    }
  }

  /** Numbers of the vanished messages, highest first. */
  method DiffRemoved(snap: Listing, current: Listing) returns (nums: seq<int>)
    ensures NumbersGone(nums, snap, current) && Descending(nums)
  {
    var cur: set<nat> := Uids(current);
    var removed: seq<int> := [];
    for i := 0 to |snap|
      invariant forall n :: n in removed <==> 1 <= n <= i && snap[n - 1].uid !in cur
      invariant forall a, b :: 0 <= a < b < |removed| ==> removed[a] < removed[b]
      invariant forall a :: 0 <= a < |removed| ==> removed[a] <= i
    {
      if snap[i].uid !in cur {
        removed := removed + [i + 1];
      }
    }
    nums := Reversed(removed);
    forall n ensures n in nums <==> n in removed {
      if n in removed {
        var a :| 0 <= a < |removed| && removed[a] == n;
        assert nums[|removed| - 1 - a] == n;
      }
    }
  }

  /** Whether some message of the snapshot is gone. */
  method AnyGone(snap: Listing, current: Listing) returns (gone: bool)
    ensures gone <==> !(Uids(snap) <= Uids(current))
  {
    for i := 0 to |snap|
      invariant forall k :: 0 <= k < i ==> snap[k].uid in Uids(current)
    {
      if snap[i].uid !in Uids(current) {
        assert snap[i].uid in Uids(snap);
        return true;
      }
    }
    return false;
  }

  /**
   What moves a session's snapshot: a poll past the gate, or the refresh after a command of its own. The refresh adopts
   the listing outright, and `told` is what the command itself reports as gone.
   */
  datatype Event =
    | Round(current: Listing, allowExpunge: bool)
    | Refreshed(current: Listing, told: set<nat>)

  predicate Moves(snap: Listing, e: Event) {
    e.Refreshed? || Adopts(snap, e.current, e.allowExpunge)
  }

  function NextSnap(snap: Listing, e: Event): Listing {
    if Moves(snap, e) then e.current else snap
  }

  /** The UIDs the client is told are gone, as EXPUNGEs or in VANISHED. */
  function Told(snap: Listing, e: Event): set<nat> {
    match e
    case Round(current, allowExpunge) => if allowExpunge then Uids(snap) - Uids(current) else {}
    case Refreshed(_, told) => told
  }

  /** The messages that EXPUNGE numbers name. */
  ghost function Named(l: Listing, nums: seq<int>): set<nat> {
    set n | n in nums && 1 <= n <= |l| :: l[n - 1].uid
  }

  lemma GoneAreNamed(nums: seq<int>, l: Listing, cur: Listing)
    requires NumbersGone(nums, l, cur)
    ensures Named(l, nums) == Uids(l) - Uids(cur)
  {
    forall u | u in Uids(l) - Uids(cur) ensures u in Named(l, nums) {
      var i :| 0 <= i < |l| && l[i].uid == u;
      assert i + 1 in nums && l[i + 1 - 1].uid == u;
    }
  }

  class Session {
    var snap: Listing
    var snapModSeq: int

    constructor (snap: Listing, snapModSeq: int)
      ensures this.snap == snap && this.snapModSeq == snapModSeq
    {
      this.snap := snap;
      this.snapModSeq := snapModSeq;
    }

    /** One round past the gate. */
    method Diff(modSeq: int, current: Listing, allowExpunge: bool, qresync: bool)
        returns (exists_: Option<nat>, flags: seq<FlagReport>, expunges: seq<int>, vanished: set<nat>)
      requires DistinctUids(snap) && DistinctUids(current)
      modifies this
      ensures exists_ == if |current| > |old(snap)| then Some(|current|) else None
      ensures ReportsFlags(flags, old(snap), current) && ReportsChanges(flags, old(snap), current)
      ensures if allowExpunge && !qresync
              then && NumbersGone(expunges, old(snap), current) && Descending(expunges)
                   && ExpungedAll(old(snap), expunges) == Survivors(old(snap), current)
              else expunges == []
      ensures Named(old(snap), expunges) + vanished == Told(old(snap), Round(current, allowExpunge))
      ensures !qresync ==> vanished == {}
      ensures snap == NextSnap(old(snap), Round(current, allowExpunge))
      ensures snapModSeq == if Adopts(old(snap), current, allowExpunge) then modSeq else old(snapModSeq)
    {
      exists_ := if |current| > |snap| then Some(|current|) else None;
      flags := DiffFlags(snap, current);
      expunges, vanished := [], {};
      if allowExpunge {
        if qresync {
          vanished := Uids(snap) - Uids(current);
        } else {
          expunges := DiffRemoved(snap, current);
          ExpungeNumbering(snap, expunges, current);
          GoneAreNamed(expunges, snap, current);
        }
        snap, snapModSeq := current, modSeq;
        return;
      }
      var gone := AnyGone(snap, current);
      if gone {
        return;
      }
      snap, snapModSeq := current, modSeq;
    }

    /** After a command of the session itself. */
    method Refresh(modSeq: int, current: Listing, ghost told: set<nat>)
      modifies this
      ensures snap == NextSnap(old(snap), Refreshed(current, told)) && snapModSeq == modSeq
    {
      snap, snapModSeq := current, modSeq;
    }
  }

  // ---------------------------------------------------------------------------------------------
  // Runs of polls and of the session's own commands

  function SnapAfter(snap: Listing, events: seq<Event>): Listing {
    if events == [] then snap else NextSnap(SnapAfter(snap, events[..|events| - 1]), events[|events| - 1])
  }

  function TimesTold(snap: Listing, events: seq<Event>, uid: nat): nat {
    if events == [] then 0
    else
      var front, last := events[..|events| - 1], events[|events| - 1];
      TimesTold(snap, front, uid) + (if uid in Told(SnapAfter(snap, front), last) then 1 else 0)
  }

  /** How often a UID entered the snapshot during the run. */
  function TimesEntered(snap: Listing, events: seq<Event>, uid: nat): nat {
    if events == [] then 0
    else
      var front, last := events[..|events| - 1], events[|events| - 1];
      var before := SnapAfter(snap, front);
      TimesEntered(snap, front, uid) +
      (if uid !in Uids(before) && uid in Uids(NextSnap(before, last)) then 1 else 0)
  }

  /** A refresh adopts a listing without the message, and the session's own command does not report it. */
  predicate Swallows(snap: Listing, e: Event, uid: nat) {
    e.Refreshed? && uid in Uids(snap) && uid !in Uids(e.current) && uid !in e.told
  }

  function TimesSwallowed(snap: Listing, events: seq<Event>, uid: nat): nat {
    if events == [] then 0
    else
      var front, last := events[..|events| - 1], events[|events| - 1];
      TimesSwallowed(snap, front, uid) + (if Swallows(SnapAfter(snap, front), last, uid) then 1 else 0)
  }

  /** A command reports a message as gone that its refresh still lists, or that the snapshot did not hold. */
  predicate Strays(snap: Listing, e: Event, uid: nat) {
    e.Refreshed? && uid in e.told && !(uid in Uids(snap) && uid !in Uids(e.current))
  }

  function TimesStrayed(snap: Listing, events: seq<Event>, uid: nat): nat {
    if events == [] then 0
    else
      var front, last := events[..|events| - 1], events[|events| - 1];
      TimesStrayed(snap, front, uid) + (if Strays(SnapAfter(snap, front), last, uid) then 1 else 0)
  }

  function Held(l: Listing, uid: nat): nat {
    if uid in Uids(l) then 1 else 0
  }

  /** In every run a UID that leaves the snapshot is told gone or swallowed, and told otherwise only as a stray. */
  lemma {:induction false} ReportsBalance(snap: Listing, events: seq<Event>, uid: nat)
    ensures Held(snap, uid) + TimesEntered(snap, events, uid) + TimesStrayed(snap, events, uid)
         == TimesTold(snap, events, uid) + TimesSwallowed(snap, events, uid) + Held(SnapAfter(snap, events), uid)
  {
    if events != [] {
      ReportsBalance(snap, events[..|events| - 1], uid);
    }
  }

  /** Once a UID is gone from the listings it never comes back (UIDs are not reused). */
  ghost predicate NeverReturns(events: seq<Event>, uid: nat) {
    forall i, j :: 0 <= i < j < |events| && uid !in Uids(events[i].current) ==> uid !in Uids(events[j].current)
  }

  lemma {:induction false} NeverReenters(snap: Listing, events: seq<Event>, uid: nat)
    requires uid in Uids(snap) && NeverReturns(events, uid)
    ensures TimesEntered(snap, events, uid) == 0
    ensures uid !in Uids(SnapAfter(snap, events)) ==> exists i :: 0 <= i < |events| && uid !in Uids(events[i].current)
  {
    if events != [] {
      var front, last := events[..|events| - 1], events[|events| - 1];
      NeverReenters(snap, front, uid);
      if uid !in Uids(SnapAfter(snap, front)) {
        var i :| 0 <= i < |front| && uid !in Uids(front[i].current);
        assert events[i] == front[i];
      } else if uid !in Uids(SnapAfter(snap, events)) {
        assert uid !in Uids(last.current);
      }
    }
  }

  ghost predicate SwallowedAt(snap: Listing, events: seq<Event>, i: nat, uid: nat) {
    i < |events| && Swallows(SnapAfter(snap, events[..i]), events[i], uid)
  }

  /** Some refresh of the run swallowed the message. */
  ghost predicate Swallowed(snap: Listing, events: seq<Event>, uid: nat) {
    exists i: nat :: SwallowedAt(snap, events, i, uid)
  }

  lemma SwallowedBefore(snap: Listing, events: seq<Event>, i: nat, uid: nat)
    requires i < |events| - 1
    ensures SwallowedAt(snap, events, i, uid) <==> SwallowedAt(snap, events[..|events| - 1], i, uid)
  {
    assert events[..|events| - 1][..i] == events[..i];
  }

  lemma {:induction false} SwallowedCounts(snap: Listing, events: seq<Event>, uid: nat)
    ensures Swallowed(snap, events, uid) <==> TimesSwallowed(snap, events, uid) > 0
  {
    if events != [] {
      var n := |events| - 1;
      var front := events[..n];
      SwallowedCounts(snap, front, uid);
      assert SwallowedAt(snap, events, n, uid) <==> Swallows(SnapAfter(snap, front), events[n], uid);
      if Swallowed(snap, front, uid) {
        var i: nat :| SwallowedAt(snap, front, i, uid);
        SwallowedBefore(snap, events, i, uid);
      }
      if Swallowed(snap, events, uid) {
        var i: nat :| SwallowedAt(snap, events, i, uid);
        if i < n {
          SwallowedBefore(snap, events, i, uid);
        }
      }
    }
  }

  ghost predicate PollsOnly(events: seq<Event>) {
    forall i :: 0 <= i < |events| ==> events[i].Round?
  }

  lemma {:induction false} PollsReportRightly(snap: Listing, events: seq<Event>, uid: nat)
    requires PollsOnly(events)
    ensures TimesSwallowed(snap, events, uid) == 0 && TimesStrayed(snap, events, uid) == 0
  {
    if events != [] {
      PollsReportRightly(snap, events[..|events| - 1], uid);
    }
  }

  /**
   A message the client was shown stays in the snapshot through every poll without leave to expunge. Over polls alone it
   is told gone exactly once by the time it has left. With commands of the session in between, that holds if and only
   if no refresh swallowed it, strays apart; and a swallowed one is never told gone at all.
   */
  lemma VanishedToldOnce(snap: Listing, events: seq<Event>, uid: nat)
    requires uid in Uids(snap) && NeverReturns(events, uid)
    ensures var left, swallowed := uid !in Uids(SnapAfter(snap, events)), Swallowed(snap, events, uid);
            && (swallowed ==> left)
            && TimesTold(snap, events, uid) == TimesStrayed(snap, events, uid) + (if left && !swallowed then 1 else 0)
            && (left && TimesStrayed(snap, events, uid) == 0 ==> (TimesTold(snap, events, uid) == 1 <==> !swallowed))
            && (PollsOnly(events) ==> TimesTold(snap, events, uid) == if left then 1 else 0)
  {
    NeverReenters(snap, events, uid);
    ReportsBalance(snap, events, uid);
    SwallowedCounts(snap, events, uid);
    if PollsOnly(events) {
      PollsReportRightly(snap, events, uid);
    }
  }

  /** What another session expunged before a command of this one is swallowed by the refresh: no later poll tells it. */
  lemma RefreshSwallows(snap: Listing, cur: Listing, uid: nat)
    requires uid in Uids(snap) && uid !in Uids(cur)
    ensures var events := [Refreshed(cur, {}), Round(cur, true)];
            SnapAfter(snap, events) == cur && TimesTold(snap, events, uid) == 0
  {
    var events := [Refreshed(cur, {}), Round(cur, true)];
    assert events[..1] == [Refreshed(cur, {})] && events[..1][..0] == [];
    assert SnapAfter(snap, events[..1]) == NextSnap(snap, events[0]);
    assert TimesTold(snap, events[..1], uid) == 0;
  }

  lemma WithheldUntilAllowed(snap: Listing, current: Listing, allowExpunge: bool, uid: nat)
    requires uid in Uids(snap) && uid !in Uids(current)
    ensures var e := Round(current, allowExpunge);
            (uid in Uids(NextSnap(snap, e)) <==> !allowExpunge) && (uid in Told(snap, e) <==> allowExpunge)
  {}

  // ---------------------------------------------------------------------------------------------
  // The message count

  /** The client's count after an event: EXISTS first when the listing outgrew the snapshot, then one less per EXPUNGE. */
  function Counted(count: int, snap: Listing, e: Event): int {
    (if e.Round? && |e.current| > |snap| then |e.current| else count) - |Told(snap, e) * Uids(snap)|
  }

  lemma {:induction false} UidsCount(l: Listing)
    requires DistinctUids(l)
    ensures |Uids(l)| == |l|
  {
    if l != [] {
      var front, last := l[..|l| - 1], l[|l| - 1];
      UidsCount(front);
      UidsSnoc(front, last);
      assert l == front + [last];
    }
  }

  lemma UidsSnoc(l: Listing, e: Entry)
    ensures Uids(l + [e]) == Uids(l) + {e.uid}
  {
    var all := l + [e];
    assert all[|l|] == e && forall i :: 0 <= i < |l| ==> all[i] == l[i];
    forall u | u in Uids(l) ensures u in Uids(all) {
      var i :| 0 <= i < |l| && l[i].uid == u;
      assert all[i].uid == u;
    }
  }

  lemma SplitCount(a: set<nat>, b: set<nat>)
    ensures |a| == |a - b| + |a * b|
    ensures |a - b| == 0 <==> a <= b
    ensures |a + b| == |a - b| + |b|
  {
    assert a == (a - b) + (a * b);
    assert a + b == (a - b) + b;
    assert a - b == {} <==> a <= b;
  }

  /** The count of one poll that may expunge comes out right exactly when it does not both add and remove messages. */
  lemma CountRightIff(snap: Listing, cur: Listing)
    requires DistinctUids(snap) && DistinctUids(cur)
    ensures Counted(|snap|, snap, Round(cur, true)) == |cur| <==> Uids(cur) <= Uids(snap) || Uids(snap) <= Uids(cur)
  {
    UidsCount(snap);
    UidsCount(cur);
    SplitCount(Uids(snap), Uids(cur));
    SplitCount(Uids(cur), Uids(snap));
    assert Uids(snap) * Uids(cur) == Uids(cur) * Uids(snap);
    assert (Uids(snap) - Uids(cur)) * Uids(snap) == Uids(snap) - Uids(cur);
  }

  function CountAfter(snap: Listing, events: seq<Event>): int {
    if events == [] then |snap|
    else Counted(CountAfter(snap, events[..|events| - 1]), SnapAfter(snap, events[..|events| - 1]), events[|events| - 1])
  }

  /** The count the client holds if all was right when the snapshot last moved: EXISTS of withheld polls included. */
  function Announced(snap: Listing, events: seq<Event>): int {
    if events == [] then |snap|
    else
      var front, e := events[..|events| - 1], events[|events| - 1];
      var before := SnapAfter(snap, front);
      if Moves(before, e) || |e.current| > |before| then |e.current| else Announced(snap, front)
  }

  /**
   When an event that moves the snapshot leaves the client's count right: a poll that outgrew the snapshot must not
   have removed anything, another must have had exactly its old and new messages announced, and a refresh exactly its
   listing with what the command reports.
   */
  predicate Fits(snap: Listing, announced: int, e: Event) {
    match e
    case Round(cur, _) =>
      if |cur| > |snap| then Uids(snap) <= Uids(cur) else announced == |Uids(snap) + Uids(cur)|
    case Refreshed(cur, told) => announced == |cur| + |told * Uids(snap)|
  }

  lemma FitsCount(snap: Listing, announced: int, e: Event)
    requires DistinctUids(snap) && DistinctUids(e.current) && Moves(snap, e)
    ensures Counted(announced, snap, e) == |e.current| <==> Fits(snap, announced, e)
  {
    var a, b := Uids(snap), Uids(e.current);
    UidsCount(snap);
    UidsCount(e.current);
    SplitCount(a, b);
    if e.Round? {
      assert (a - b) * a == a - b;
      assert !e.allowExpunge ==> a - b == {};
    }
  }

  /** After each event that moved the snapshot, the client counted as many messages as it holds. */
  ghost predicate CountsRight(snap: Listing, events: seq<Event>) {
    events == [] ||
    (var front, e := events[..|events| - 1], events[|events| - 1];
     && CountsRight(snap, front)
     && (Moves(SnapAfter(snap, front), e) ==> CountAfter(snap, events) == |e.current|))
  }

  ghost predicate AllFits(snap: Listing, events: seq<Event>) {
    events == [] ||
    (var front, e := events[..|events| - 1], events[|events| - 1];
     && AllFits(snap, front)
     && (Moves(SnapAfter(snap, front), e) ==> Fits(SnapAfter(snap, front), Announced(snap, front), e)))
  }

  lemma {:induction false} AfterDistinct(snap: Listing, events: seq<Event>)
    requires DistinctUids(snap) && forall i :: 0 <= i < |events| ==> DistinctUids(events[i].current)
    ensures DistinctUids(SnapAfter(snap, events))
  {
    if events != [] {
      AfterDistinct(snap, events[..|events| - 1]);
    }
  }

  /**
   Over every run of polls, withheld or not, and refreshes: the client's count is right each time the snapshot moves if
   and only if each of those events fits what was announced before it.
   */
  lemma {:induction false} CountRightThroughout(snap: Listing, events: seq<Event>)
    requires DistinctUids(snap) && forall i :: 0 <= i < |events| ==> DistinctUids(events[i].current)
    ensures CountsRight(snap, events) <==> AllFits(snap, events)
    ensures CountsRight(snap, events) ==> CountAfter(snap, events) == Announced(snap, events)
  {
    if events != [] {
      var front, e := events[..|events| - 1], events[|events| - 1];
      CountRightThroughout(snap, front);
      AfterDistinct(snap, front);
      if Moves(SnapAfter(snap, front), e) {
        FitsCount(SnapAfter(snap, front), Announced(snap, front), e);
      } else {
        assert Told(SnapAfter(snap, front), e) * Uids(SnapAfter(snap, front)) == {};
      }
    }
  }
}
