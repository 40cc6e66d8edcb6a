/**
 One queued message and the in-place edits a delivery worker makes to its own copy of it:
 per-recipient outcomes, the transport-failure path, the post-round state and the retry delay.
 */
module QueueRow {

  /** Nanoseconds since the Unix epoch; the due index keeps whole seconds only. */
  type Time = int

  const NANOS_PER_SECOND := 1_000_000_000

  /** The zero instant that an unset time field holds (1 January of year 1). */
  const ZERO_TIME: Time := -62135596800 * NANOS_PER_SECOND

  function Unix(t: Time): int {
    t / NANOS_PER_SECOND
  }

  datatype Status = Pending | Delivered | Bounced

  datatype Recipient = Recipient(address: string, status: Status, lastError: string)

  datatype State = Queued | Active | Delivered | Deferred | Bounced | Failed

  datatype Message = Message(
    id: nat,
    recipients: seq<Recipient>,
    state: State,
    attempts: int,
    maxAttempts: int,
    nextAttempt: Time,
    lastError: string,
    createdAt: Time,
    updatedAt: Time,
    lastWarningAt: Time,
    owner: string,
    leaseUntil: Time)

  /** The remote verdict on one recipient of one delivery round. */
  datatype Result = Result(ok: bool, permanent: bool, error: string)

  predicate Terminal(s: State) {
    s.Delivered? || s.Bounced? || s.Failed?
  }

  /** When the scheduler next has to look at the message. */
  function DuePos(m: Message): Time {
    if m.state.Active? then m.leaseUntil else m.nextAttempt
  }

  predicate AnyWith(rs: seq<Recipient>, s: Status) {
    exists i :: 0 <= i < |rs| && rs[i].status == s
  }

  predicate AnyPending(rs: seq<Recipient>) {
    AnyWith(rs, Status.Pending)
  }

  function CountWith(rs: seq<Recipient>, s: Status): nat {
    if rs == [] then 0 else CountWith(rs[..|rs| - 1], s) + (if rs[|rs| - 1].status == s then 1 else 0)
  }

  /** Addresses of the recipients with status `s`, in envelope order. */
  function AddressesWith(rs: seq<Recipient>, s: Status): seq<string> {
    if rs == [] then []
    else AddressesWith(rs[..|rs| - 1], s) + (if rs[|rs| - 1].status == s then [rs[|rs| - 1].address] else [])
  }

  lemma {:induction false} CountWithZero(rs: seq<Recipient>, s: Status)
    ensures CountWith(rs, s) == 0 <==> !AnyWith(rs, s)
  {
    if rs != [] {
      var front := rs[..|rs| - 1];
      CountWithZero(front, s);
      if AnyWith(front, s) {
        var i :| 0 <= i < |front| && front[i].status == s;
        assert rs[i].status == s;
      }
      if AnyWith(rs, s) && rs[|rs| - 1].status != s {
        var i :| 0 <= i < |rs| && rs[i].status == s;
        assert front[i].status == s;
      }
    }
  }

  /** A status list is non-empty exactly when some recipient has the status. */
  lemma {:induction false} AddressesWithNonEmpty(rs: seq<Recipient>, s: Status)
    ensures |AddressesWith(rs, s)| == CountWith(rs, s)
    ensures AddressesWith(rs, s) != [] <==> AnyWith(rs, s)
  {
    CountWithZero(rs, s);
    if rs != [] {
      AddressesWithNonEmpty(rs[..|rs| - 1], s);
    }
  }

  /** `at` are the places of the recipients with status `s`, ascending, and `out` their addresses in that order. */
  ghost predicate Selects(at: seq<nat>, rs: seq<Recipient>, s: Status, out: seq<string>) {
    && |at| == |out| && (forall a, b :: 0 <= a < b < |at| ==> at[a] < at[b])
    && (forall a :: 0 <= a < |at| ==> at[a] < |rs| && rs[at[a]].status == s && out[a] == rs[at[a]].address)
    && (forall i :: 0 <= i < |rs| && rs[i].status == s ==> i in at)
  }

  /** The addresses of exactly the recipients with status `s`, each in its place in the envelope. */
  ghost predicate Names(out: seq<string>, rs: seq<Recipient>, s: Status) {
    exists at :: Selects(at, rs, s, out)
  }

  lemma {:induction false} AddressesSelect(rs: seq<Recipient>, s: Status) returns (at: seq<nat>)
    ensures Selects(at, rs, s, AddressesWith(rs, s))
  {
    at := [];
    if rs != [] {
      var front, n := rs[..|rs| - 1], |rs| - 1;
      at := AddressesSelect(front, s);
      assert forall i :: 0 <= i < n ==> front[i] == rs[i];
      if rs[n].status == s {
        var more := at + [n];
        assert forall i :: i in at ==> i in more;
        assert more[|at|] == n;
        at := more;
      }
    }
  }

  /** Two such lists of places are the same. */
  lemma {:induction false} SelectsOne(at: seq<nat>, bt: seq<nat>, rs: seq<Recipient>, s: Status,
                                      out: seq<string>, alt: seq<string>)
    requires Selects(at, rs, s, out) && Selects(bt, rs, s, alt)
    ensures at == bt && out == alt
  {
    forall k: nat | k < |at| && k < |bt| ensures at[k] == bt[k] {
      SamePlace(at, bt, k);
    }
    if |at| < |bt| {
      NextIsNew(at, bt);
      assert false;
    }
    if |bt| < |at| {
      NextIsNew(bt, at);
      assert false;
    }
  }

  lemma NextIsNew(at: seq<nat>, bt: seq<nat>)
    requires |at| < |bt| && forall a, b :: 0 <= a < b < |bt| ==> bt[a] < bt[b]
    requires forall k :: 0 <= k < |at| ==> at[k] == bt[k]
    ensures exists x :: x in bt && x !in at
  {
    var x := bt[|at|];
    assert x in bt && forall k :: 0 <= k < |at| ==> at[k] < x;
  }

  lemma {:induction false} SamePlace(at: seq<nat>, bt: seq<nat>, k: nat)
    requires (forall a, b :: 0 <= a < b < |at| ==> at[a] < at[b]) && (forall a, b :: 0 <= a < b < |bt| ==> bt[a] < bt[b])
    requires (forall i :: i in at <==> i in bt) && k < |at| && k < |bt|
    ensures at[k] == bt[k]
    decreases k
  {
    if k > 0 {
      SamePlace(at, bt, k - 1);
    }
    assert at[k] in bt && bt[k] in at;
    var a :| 0 <= a < |at| && at[a] == bt[k];
    var b :| 0 <= b < |bt| && bt[b] == at[k];
    if a < k {
      SamePlace(at, bt, a);
    }
    if b < k {
      SamePlace(at, bt, b);
    }
  }

  /** The list the code builds is that selection and no other. */
  lemma AddressesWithNames(rs: seq<Recipient>, s: Status, out: seq<string>)
    ensures out == AddressesWith(rs, s) <==> Names(out, rs, s)
  {
    var at := AddressesSelect(rs, s);
    if Names(out, rs, s) {
      var bt :| Selects(bt, rs, s, out);
      assert forall i :: i in at <==> i in bt;
      SelectsOne(at, bt, rs, s, AddressesWith(rs, s), out);
    }
  }

  /** How a recipient may change over the life of a message: only out of Pending. */
  predicate Advances(a: Recipient, b: Recipient) {
    && a.address == b.address
    && (!a.status.Pending? ==> a == b)
  }

  predicate AllAdvance(a: seq<Recipient>, b: seq<Recipient>) {
    |a| == |b| && forall i :: 0 <= i < |a| ==> Advances(a[i], b[i])
  }

  lemma AllAdvanceTransitive(a: seq<Recipient>, b: seq<Recipient>, c: seq<Recipient>)
    requires AllAdvance(a, b) && AllAdvance(b, c)
    ensures AllAdvance(a, c)
  {
    forall i | 0 <= i < |a| ensures Advances(a[i], c[i]) {
      assert Advances(a[i], b[i]) && Advances(b[i], c[i]);
    }
  }

  function Settle(r: Recipient, results: map<string, Result>): Recipient {
    if !r.status.Pending? || r.address !in results then r
    else
      var res := results[r.address];
      if res.ok then r.(status := Status.Delivered)
      else if res.permanent then r.(lastError := res.error, status := Status.Bounced)
      else r.(lastError := res.error)
  }

  function Blame(r: Recipient, err: string): Recipient {
    if r.status.Pending? then r.(lastError := err) else r
  }

  function GiveUp(r: Recipient): Recipient {
    if r.status.Pending? then r.(status := Status.Bounced) else r
  }

  function SettleAll(rs: seq<Recipient>, results: map<string, Result>): (out: seq<Recipient>)
    ensures AllAdvance(rs, out)
  {
    seq(|rs|, i requires 0 <= i < |rs| => Settle(rs[i], results))
  }

  /** What a recipient is after a round, by its verdict if it was pending and got one. */
  ghost predicate ByVerdict(before: Recipient, after: Recipient, results: map<string, Result>) {
    if before.status.Pending? && before.address in results then
      var res := results[before.address];
      && after.address == before.address
      && (after.status.Delivered? <==> res.ok)
      && (after.status.Bounced? <==> !res.ok && res.permanent)
      && (after.status.Pending? <==> !res.ok && !res.permanent)
      && after.lastError == if res.ok then before.lastError else res.error
    else after == before
  }

  /** Acceptance delivers, a permanent failure bounces, a temporary one leaves pending; nobody else is touched. */
  lemma SettledByVerdict(rs: seq<Recipient>, results: map<string, Result>)
    ensures |SettleAll(rs, results)| == |rs|
    ensures forall i :: 0 <= i < |rs| ==> ByVerdict(rs[i], SettleAll(rs, results)[i], results)
  {
    forall i | 0 <= i < |rs| ensures ByVerdict(rs[i], SettleAll(rs, results)[i], results) {
      assert SettleAll(rs, results)[i] == Settle(rs[i], results);
    }
  }

  function BlameAll(rs: seq<Recipient>, err: string): (out: seq<Recipient>)
    ensures AllAdvance(rs, out)
    ensures AnyPending(rs) ==> AnyPending(out)
  {
    var out := seq(|rs|, i requires 0 <= i < |rs| => Blame(rs[i], err));
    assert AnyPending(rs) ==> AnyPending(out) by {
      if AnyPending(rs) {
        var i :| 0 <= i < |rs| && rs[i].status == Status.Pending;
        assert out[i].status == Status.Pending;
      }
    }
    out
  }

  function GiveUpAll(rs: seq<Recipient>): (out: seq<Recipient>)
    ensures AllAdvance(rs, out)
    ensures !AnyPending(out)
    ensures AnyPending(rs) ==> AnyWith(out, Status.Bounced)
  {
    var out := seq(|rs|, i requires 0 <= i < |rs| => GiveUp(rs[i]));
    assert AnyPending(rs) ==> AnyWith(out, Status.Bounced) by {
      if AnyPending(rs) {
        var i :| 0 <= i < |rs| && rs[i].status == Status.Pending;
        assert out[i].status == Status.Bounced;
      }
    }
    out
  }

  /** The message after a whole-round failure: pending recipients wait, or bounce once the attempts are spent. */
  function TransportFailed(m: Message, err: string, now: Time, delay: Time): Message {
    var blamed := m.(recipients := BlameAll(m.recipients, err), lastError := err);
    if m.attempts >= m.maxAttempts then
      blamed.(recipients := GiveUpAll(blamed.recipients), state := State.Bounced)
    else
      blamed.(state := State.Deferred, nextAttempt := now + delay)
  }

  /** The message after a round whose per-recipient outcomes are already in place. */
  function Finalized(m: Message, now: Time, delay: Time): Message {
    if !AnyPending(m.recipients) then
      if !AnyWith(m.recipients, Status.Bounced) then m.(state := State.Delivered, lastError := "")
      else m.(state := State.Bounced)
    else if m.attempts >= m.maxAttempts then
      m.(recipients := GiveUpAll(m.recipients), state := State.Bounced)
    else
      m.(state := State.Deferred, nextAttempt := now + delay)
  }

  function Resolved(m: Message, results: map<string, Result>, now: Time, delay: Time): Message {
    Finalized(m.(recipients := SettleAll(m.recipients, results)), now, delay)
  }

  /**
   What every decided outcome is, whichever path computed it, for a claim that had something to deliver.
   */
  predicate IsOutcome(claim: Message, m: Message) {
    && m.id == claim.id && m.attempts == claim.attempts && m.maxAttempts == claim.maxAttempts
    && m.owner == claim.owner && m.leaseUntil == claim.leaseUntil
    && AllAdvance(claim.recipients, m.recipients)
    && (m.state.Deferred? || m.state.Delivered? || m.state.Bounced?)
    && (m.state.Deferred? <==> AnyPending(m.recipients))
    && (m.state.Deferred? ==> m.attempts < m.maxAttempts)
    && (m.state.Bounced? ==> AnyWith(m.recipients, Status.Bounced))
    && (m.state.Delivered? ==> !AnyWith(m.recipients, Status.Bounced))
  }

  lemma TransportFailedIsOutcome(m: Message, err: string, now: Time, delay: Time)
    requires AnyPending(m.recipients)
    ensures IsOutcome(m, TransportFailed(m, err, now, delay))
  {
    var blamed := BlameAll(m.recipients, err);
    AllAdvanceTransitive(m.recipients, blamed, GiveUpAll(blamed));
  }

  lemma ResolvedIsOutcome(m: Message, results: map<string, Result>, now: Time, delay: Time)
    ensures IsOutcome(m, Resolved(m, results, now, delay))
  {
    var settled := SettleAll(m.recipients, results);
    AllAdvanceTransitive(m.recipients, settled, GiveUpAll(settled));
  }

  /** Recipients who were pending are bounced, the others as they were. */
  ghost predicate GivenUp(before: seq<Recipient>, after: seq<Recipient>) {
    |after| == |before| && forall i :: 0 <= i < |before| ==>
      after[i] == if before[i].status.Pending? then before[i].(status := Status.Bounced) else before[i]
  }

  /**
   The state after a round whose verdicts are in: somebody pending with attempts left is deferred to the given delay with
   nobody changed; with the attempts spent the pending bounce; with nobody pending it is delivered unless
   somebody bounced.
   */
  lemma FinalizedBy(m: Message, now: Time, delay: Time)
    ensures var f := Finalized(m, now, delay);
            var pending := exists i :: 0 <= i < |m.recipients| && m.recipients[i].status.Pending?;
            var bounced := exists i :: 0 <= i < |m.recipients| && m.recipients[i].status.Bounced?;
            && (pending && m.attempts < m.maxAttempts ==>
                  f == m.(state := State.Deferred, nextAttempt := now + delay))
            && (pending && m.attempts >= m.maxAttempts ==>
                  f == m.(state := State.Bounced, recipients := f.recipients) && GivenUp(m.recipients, f.recipients))
            && (!pending && bounced ==> f == m.(state := State.Bounced))
            && (!pending && !bounced ==> f == m.(state := State.Delivered, lastError := ""))
  {}

  /** A failed round blames the pending; then they wait for the given delay, or bounce once the attempts are spent. */
  lemma TransportFailedBy(m: Message, err: string, now: Time, delay: Time)
    ensures var f := TransportFailed(m, err, now, delay);
            && |f.recipients| == |m.recipients|
            && (forall i :: 0 <= i < |m.recipients| && !m.recipients[i].status.Pending? ==>
                  f.recipients[i] == m.recipients[i])
            && (forall i :: 0 <= i < |m.recipients| && m.recipients[i].status.Pending? ==>
                  f.recipients[i] == Recipient(m.recipients[i].address,
                                               if m.attempts >= m.maxAttempts then Status.Bounced else Status.Pending, err))
            && f == m.(recipients := f.recipients, lastError := err,
                       state := if m.attempts >= m.maxAttempts then State.Bounced else State.Deferred,
                       nextAttempt := if m.attempts >= m.maxAttempts then m.nextAttempt else now + delay)
  {}

  /** A worker's private copy of the message it claimed, edited in place until the outcome is committed. */
  class Worker {
    var msg: Message

    constructor (claim: Message)
      ensures msg == claim
    {
      msg := claim;
    }

    /** Applies the deliverer's verdicts to the recipients that are still pending. */
    method ApplyResults(results: map<string, Result>)
      modifies this
      ensures msg == old(msg).(recipients := SettleAll(old(msg).recipients, results))
      ensures forall i :: 0 <= i < |msg.recipients| ==> ByVerdict(old(msg).recipients[i], msg.recipients[i], results)
    {
      var i := 0;
      while i < |msg.recipients|
        invariant 0 <= i <= |msg.recipients|
        invariant msg == old(msg).(recipients := msg.recipients)
        invariant |msg.recipients| == |old(msg).recipients|
        invariant forall k :: 0 <= k < i ==> msg.recipients[k] == Settle(old(msg).recipients[k], results)
        invariant forall k :: i <= k < |msg.recipients| ==> msg.recipients[k] == old(msg).recipients[k]
      {
        var r := msg.recipients[i];
        if r.status.Pending? && r.address in results {
          var res := results[r.address];
          if res.ok {
            r := r.(status := Status.Delivered);
          } else {
            r := r.(lastError := res.error);
            if res.permanent {
              r := r.(status := Status.Bounced);
            }
          }
          msg := msg.(recipients := msg.recipients[i := r]);
        }
        i := i + 1;
      }
      assert msg.recipients == SettleAll(old(msg).recipients, results);
      SettledByVerdict(old(msg).recipients, results);
    }

    /** Bounces every recipient that is still pending. */
    method BouncePending()
      modifies this
      ensures msg == old(msg).(recipients := GiveUpAll(old(msg).recipients))
      ensures GivenUp(old(msg).recipients, msg.recipients)
    {
      var i := 0;
      while i < |msg.recipients|
        invariant 0 <= i <= |msg.recipients|
        invariant msg == old(msg).(recipients := msg.recipients)
        invariant |msg.recipients| == |old(msg).recipients|
        invariant forall k :: 0 <= k < i ==> msg.recipients[k] == GiveUp(old(msg).recipients[k])
        invariant forall k :: i <= k < |msg.recipients| ==> msg.recipients[k] == old(msg).recipients[k]
      {
        if msg.recipients[i].status.Pending? {
          msg := msg.(recipients := msg.recipients[i := msg.recipients[i].(status := Status.Bounced)]);
        }
        i := i + 1;
      }
      assert msg.recipients == GiveUpAll(old(msg).recipients);
    }

    method ApplyTransportFailure(err: string, now: Time, delay: Time)
      modifies this
      ensures msg == TransportFailed(old(msg), err, now, delay)
    {
      var i := 0;
      while i < |msg.recipients|
        invariant 0 <= i <= |msg.recipients|
        invariant msg == old(msg).(recipients := msg.recipients)
        invariant |msg.recipients| == |old(msg).recipients|
        invariant forall k :: 0 <= k < i ==> msg.recipients[k] == Blame(old(msg).recipients[k], err)
        invariant forall k :: i <= k < |msg.recipients| ==> msg.recipients[k] == old(msg).recipients[k]
      {
        if msg.recipients[i].status.Pending? {
          msg := msg.(recipients := msg.recipients[i := msg.recipients[i].(lastError := err)]);
        }
        i := i + 1;
      }
      assert msg.recipients == BlameAll(old(msg).recipients, err);
      msg := msg.(lastError := err);
      if msg.attempts >= msg.maxAttempts {
        BouncePending();
        msg := msg.(state := State.Bounced);
        return;
      }
      msg := msg.(state := State.Deferred, nextAttempt := now + delay);
    }

    method FinalizeState(now: Time, delay: Time)
      modifies this
      ensures msg == Finalized(old(msg), now, delay)
    {
      var bounced, pendingLeft := 0, 0;
      var i := 0;
      while i < |msg.recipients|
        invariant 0 <= i <= |msg.recipients| && msg == old(msg)
        invariant bounced == CountWith(msg.recipients[..i], Status.Bounced)
        invariant pendingLeft == CountWith(msg.recipients[..i], Status.Pending)
      {
        assert msg.recipients[..i + 1][..i] == msg.recipients[..i];
        match msg.recipients[i].status {
          case Pending => pendingLeft := pendingLeft + 1;
          case Bounced => bounced := bounced + 1;
          case Delivered =>
        }
        i := i + 1;
      }
      assert msg.recipients[..i] == msg.recipients;
      CountWithZero(msg.recipients, Status.Bounced);
      CountWithZero(msg.recipients, Status.Pending);
      if pendingLeft == 0 && bounced == 0 {
        msg := msg.(state := State.Delivered, lastError := "");
      } else if pendingLeft == 0 {
        msg := msg.(state := State.Bounced);
      } else if msg.attempts >= msg.maxAttempts {
        BouncePending();
        msg := msg.(state := State.Bounced);
      } else {
        msg := msg.(state := State.Deferred, nextAttempt := now + delay);
      }
    }
  }

  function Pow2(n: nat): (p: nat)
    ensures p >= 1
  {
    if n == 0 then 1 else 2 * Pow2(n - 1)
  }

  lemma {:induction false} Pow2Monotone(m: nat, n: nat)
    requires m <= n
    ensures Pow2(m) <= Pow2(n)
    decreases n
  {
    if m < n {
      Pow2Monotone(m, n - 1);
    }
  }

  /** Truncation of a non-negative duration scaled by a real factor, as the jitter step does. */
  function Scaled(d: nat, factor: real): int {
    (d as real * factor).Floor
  }

  /** The base doubled once per attempt after the first, capped. */
  function Doubled(base: nat, max: nat, attempt: int): nat {
    if attempt <= 1 || base >= max then base
    else if base * Pow2(attempt - 1) >= max then max
    else base * Pow2(attempt - 1)
  }

  /** The first delay is the base, and each further attempt doubles it as far as the cap lets it. */
  lemma DoubledNext(base: nat, max: nat, attempt: int)
    requires base <= max
    ensures attempt <= 1 ==> Doubled(base, max, attempt) == base
    ensures var now, next := Doubled(base, max, attempt), Doubled(base, max, attempt + 1);
            1 <= attempt ==> next == if 2 * now <= max then 2 * now else max
  {
    if 1 <= attempt {
      assert Pow2(attempt) == 2 * Pow2(attempt - 1);
      assert base * Pow2(attempt) == 2 * (base * Pow2(attempt - 1));
    }
  }

  /**
   The retry delay: the base doubled once per attempt after the first and capped, then jittered by up to a fifth
   either way. `jitter` is the random draw in [0, 1).
   */
  method Backoff(base: nat, max: nat, attempt: int, jitter: real) returns (delay: int)
    requires 0 < base && 0 < max && 0.0 <= jitter < 1.0
    ensures delay == Scaled(Doubled(base, max, attempt), 0.8 + jitter * 0.4)
    ensures 4 * Doubled(base, max, attempt) <= 5 * delay + 4 && 5 * delay <= 6 * Doubled(base, max, attempt)
    ensures base <= max ==> base <= Doubled(base, max, attempt) <= max
  {
    var cur := base;
    var i := 1;
    while i < attempt && cur < max
      invariant 1 <= i && (attempt >= 1 ==> i <= attempt)
      invariant base <= cur && (base <= max ==> cur <= max)
      invariant base >= max ==> cur == base
      invariant attempt <= 1 ==> cur == base
      invariant base < max ==> cur == if base * Pow2(i - 1) >= max then max else base * Pow2(i - 1)
    {
      cur := cur * 2;
      if cur > max {
        cur := max;
      }
      assert base * Pow2(i) == 2 * (base * Pow2(i - 1));
      i := i + 1;
    }
    if base < max && 1 < attempt {
      Pow2Monotone(i - 1, attempt - 1);
      MulMonotone(base, Pow2(i - 1), Pow2(attempt - 1));
    }
    JitterBounds(cur, jitter);
    delay := Scaled(cur, 0.8 + jitter * 0.4);
  }

  lemma MulMonotone(a: nat, x: nat, y: nat)
    requires x <= y
    ensures a * x <= a * y
  {}

  lemma JitterBounds(d: nat, jitter: real)
    requires 0.0 <= jitter < 1.0
    ensures 4 * d <= 5 * Scaled(d, 0.8 + jitter * 0.4) + 4
    ensures 5 * Scaled(d, 0.8 + jitter * 0.4) <= 6 * d
  {
    var dr := d as real;
    var f := 0.8 + jitter * 0.4;
    assert 0.8 <= f <= 1.2;
    RealMulMonotone(dr, 0.8, f);
    RealMulMonotone(dr, f, 1.2);
    var x := dr * f;
    assert x.Floor as real <= x < x.Floor as real + 1.0;
  }

  lemma RealMulMonotone(a: real, x: real, y: real)
    requires 0.0 <= a && x <= y
    ensures a * x <= a * y
  {}
}
