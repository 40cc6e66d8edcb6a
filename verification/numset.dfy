/**
 Sequence sets: sorted lists of number ranges with "*" stored as zero, merged in place on insertion and searched by
 bisection (the sequence-set rule of section 9 of RFC 3501).
 */
module NumSets {
  import opened Options

  const MAX_U32 := 0xFFFF_FFFF

  type U32 = x: int | 0 <= x <= MAX_U32

  /** A number (start == stop), a range, "n:*" (stop == 0) or "*" (both zero). */
  datatype Range = Range(start: U32, stop: U32)

  predicate Contains(r: Range, q: U32) {
    if q == 0 then r.stop == 0
    else r.start != 0 && r.start <= q && (q <= r.stop || r.stop == 0)
  }

  /** `r` precedes `q` and does not contain it. */
  predicate Less(r: Range, q: U32) {
    (r.stop < q || q == 0) && r.stop != 0
  }

  /** The 32-bit successor, which wraps. */
  function Succ(x: U32): U32 {
    if x == MAX_U32 then 0 else x + 1
  }

  function Merge(a: Range, b: Range): Option<Range> {
    if a == b then Some(a)
    else if a.start != 0 && b.start != 0 then
      var (s, t) := if a.start > b.start then (b, a) else (a, b);
      if (s.stop >= t.stop && t.stop != 0) || s.stop == 0 then Some(s)
      else if Succ(s.stop) >= t.start || s.stop == MAX_U32 then Some(Range(s.start, t.stop))
      else None
    else if a.start == 0 then
      if b.stop == 0 then Some(b) else None
    else if a.stop == 0 then Some(a)
    else None
  }

  predicate ValidRange(r: Range) {
    if r.start == 0 then r.stop == 0 else r.stop == 0 || r.start <= r.stop
  }

  /** The range between two ends given in either order. */
  function Ordered(a: U32, b: U32): (r: Range)
    ensures ValidRange(r)
    ensures ValidRange(Range(a, b)) ==> r == Range(a, b)
  {
    if (b < a && b != 0) || a == 0 then Range(b, a) else Range(a, b)
  }

  /** `a` lies wholly before `b` with at least one number between them. */
  predicate Apart(a: Range, b: Range) {
    a.stop != 0 && (b.start == 0 || a.stop + 1 < b.start)
  }

  /** Sorted, disjoint, nothing left to merge, and anything with "*" in it last. */
  predicate WellFormed(s: seq<Range>) {
    && (forall i :: 0 <= i < |s| ==> ValidRange(s[i]))
    && (forall i, j :: 0 <= i < j < |s| ==> Apart(s[i], s[j]))
  }

  predicate Has(s: seq<Range>, q: U32) {
    exists i :: 0 <= i < |s| && Contains(s[i], q)
  }

  predicate Dynamic(s: seq<Range>) {
    |s| > 0 && s[|s| - 1].stop == 0
  }

  lemma MergeFails(a: Range, b: Range)
    requires ValidRange(a) && ValidRange(b)
    ensures Merge(a, b).None? <==> Apart(a, b) || Apart(b, a)
    ensures Merge(a, b).Some? ==> ValidRange(Merge(a, b).value)
  {}

  /** Two ranges merge exactly when neither lies apart from the other, into exactly their union. */
  lemma MergeIsUnion(a: Range, b: Range)
    requires ValidRange(a) && ValidRange(b)
    ensures Merge(a, b).None? <==> Apart(a, b) || Apart(b, a)
    ensures Merge(a, b).Some? ==> forall q: U32 :: Contains(Merge(a, b).value, q) <==> Contains(a, q) || Contains(b, q)
  {}

  /** Nothing in a well-formed list merges with anything else in it, and only the last range can be open. */
  lemma WellFormedShape(s: seq<Range>)
    requires WellFormed(s)
    ensures forall i, j :: 0 <= i < j < |s| ==> Merge(s[i], s[j]).None?
    ensures forall i :: 0 <= i < |s| - 1 ==> s[i].stop != 0
    ensures Dynamic(s) <==> Has(s, 0)
  {
    forall i, j | 0 <= i < j < |s| ensures Merge(s[i], s[j]).None? {
      MergeIsUnion(s[i], s[j]);
    }
    forall i | 0 <= i < |s| - 1 ensures s[i].stop != 0 {
      assert Apart(s[i], s[i + 1]);
    }
    if Dynamic(s) {
      assert Contains(s[|s| - 1], 0);
    }
  }

  // ---------------------------------------------------------------------------------------------
  // Insertion, the simple way: walk the list, absorbing whatever merges

  function Inserted(s: seq<Range>, v: Range): seq<Range> {
    if s == [] then [v]
    else if Merge(s[0], v).Some? then Inserted(s[1..], Merge(s[0], v).value)
    else if Apart(s[0], v) then [s[0]] + Inserted(s[1..], v)
    else [v] + s
  }

  /** Everything in `s` lies after `r`. */
  predicate AllAfter(r: Range, s: seq<Range>) {
    forall i :: 0 <= i < |s| ==> Apart(r, s[i])
  }

  lemma WellFormedTail(s: seq<Range>)
    requires WellFormed(s) && s != []
    ensures WellFormed(s[1..]) && AllAfter(s[0], s[1..]) && ValidRange(s[0])
  {}

  lemma {:induction false} InsertedAfter(s: seq<Range>, v: Range, r: Range)
    requires WellFormed(s) && ValidRange(v) && ValidRange(r) && AllAfter(r, s) && Apart(r, v)
    ensures AllAfter(r, Inserted(s, v))
    decreases |s|
  {
    if s != [] {
      WellFormedTail(s);
      MergeFails(s[0], v);
      if Merge(s[0], v).Some? {
        InsertedAfter(s[1..], Merge(s[0], v).value, r);
      } else if Apart(s[0], v) {
        InsertedAfter(s[1..], v, r);
      }
    }
  }

  lemma {:induction false} InsertedWellFormed(s: seq<Range>, v: Range)
    requires WellFormed(s) && ValidRange(v)
    ensures WellFormed(Inserted(s, v))
    decreases |s|
  {
    if s != [] {
      WellFormedTail(s);
      MergeFails(s[0], v);
      if Merge(s[0], v).Some? {
        InsertedWellFormed(s[1..], Merge(s[0], v).value);
      } else if Apart(s[0], v) {
        InsertedWellFormed(s[1..], v);
        InsertedAfter(s[1..], v, s[0]);
      } else {
        forall i | 0 <= i < |s| ensures Apart(v, s[i]) {
          assert i > 0 ==> Apart(s[0], s[i]);
        }
      }
    }
  }

  lemma HasCons(s: seq<Range>, q: U32)
    requires s != []
    ensures Has(s, q) <==> Contains(s[0], q) || Has(s[1..], q)
  {
    if Has(s, q) && !Contains(s[0], q) {
      var i :| 0 <= i < |s| && Contains(s[i], q);
      assert s[1..][i - 1] == s[i];
    }
    if Has(s[1..], q) {
      var i :| 0 <= i < |s[1..]| && Contains(s[1..][i], q);
      assert s[i + 1] == s[1..][i];
    }
  }

  /** The members after an insertion are the old members and the new range, "*" included. */
  lemma {:induction false} InsertedHas(s: seq<Range>, v: Range, q: U32)
    requires WellFormed(s) && ValidRange(v)
    ensures Has(Inserted(s, v), q) <==> Has(s, q) || Contains(v, q)
    decreases |s|
  {
    if s == [] {
      HasCons([v], q);
    } else {
      WellFormedTail(s);
      MergeFails(s[0], v);
      HasCons(s, q);
      if Merge(s[0], v).Some? {
        MergeIsUnion(s[0], v);
        InsertedHas(s[1..], Merge(s[0], v).value, q);
      } else if Apart(s[0], v) {
        InsertedHas(s[1..], v, q);
        var rest := Inserted(s[1..], v);
        HasCons([s[0]] + rest, q);
        assert ([s[0]] + rest)[1..] == rest;
      } else {
        HasCons([v] + s, q);
        assert ([v] + s)[1..] == s;
      }
    }
  }

  /** Ranges that lie before the new one are passed over. */
  lemma {:induction false} InsertedSkips(s: seq<Range>, v: Range, i: nat)
    requires WellFormed(s) && ValidRange(v) && i <= |s|
    requires forall k :: 0 <= k < i ==> Apart(s[k], v)
    ensures Inserted(s, v) == s[..i] + Inserted(s[i..], v)
    decreases i
  {
    if i == 0 {
      assert s[0..] == s;
    } else {
      InsertedSkips(s, v, i - 1);
      var rest := s[i - 1..];
      MergeFails(rest[0], v);
      assert rest[1..] == s[i..];
      assert Inserted(rest, v) == [rest[0]] + Inserted(s[i..], v);
      assert s[..i] == s[..i - 1] + [rest[0]];
    }
  }

  lemma MergeCommutes(a: Range, b: Range)
    requires ValidRange(a) && ValidRange(b)
    ensures Merge(a, b) == Merge(b, a)
  {}

  /** Ranges before the bisection point exclude `q`, and so do those after it. */
  lemma LessExcludes(s: seq<Range>, q: U32, i: nat)
    requires WellFormed(s) && i <= |s|
    requires forall k :: 0 <= k < i ==> Less(s[k], q)
    requires i < |s| ==> !Less(s[i], q)
    ensures Has(s, q) <==> i < |s| && Contains(s[i], q)
  {
    if Has(s, q) {
      var k :| 0 <= k < |s| && Contains(s[k], q);
      assert k > i ==> Apart(s[i], s[k]);
    }
  }

  /** What the bisection point for a range's start says about inserting the range. */
  lemma InsertionPoint(s: seq<Range>, v: Range, i: nat)
    requires WellFormed(s) && ValidRange(v) && i <= |s|
    requires forall k :: 0 <= k < i ==> Less(s[k], v.start)
    requires i < |s| ==> !Less(s[i], v.start)
    ensures forall k :: i <= k < |s| ==> !Apart(s[k], v)
    ensures if i > 0 && Merge(s[i - 1], v).Some?
            then Inserted(s, v) == s[..i - 1] + Inserted(s[i..], Merge(s[i - 1], v).value)
            else Inserted(s, v) == s[..i] + Inserted(s[i..], v)
  {
    forall k | i <= k < |s| ensures !Apart(s[k], v) {
      assert k > i ==> Apart(s[i], s[k]);
    }
    forall k | 0 <= k < i - 1 ensures Apart(s[k], v) {
      assert Apart(s[k], s[i - 1]);
    }
    if i > 0 {
      MergeIsUnion(s[i - 1], v);
      if Merge(s[i - 1], v).Some? {
        InsertedSkips(s, v, i - 1);
        assert s[i - 1..][0] == s[i - 1] && s[i - 1..][1..] == s[i..];
        return;
      }
    }
    InsertedSkips(s, v, i);
  }

  /** A range that has absorbed `r` still does not lie after anything that `r` lies before. */
  lemma AbsorbedStaysBefore(r: Range, m: Range, later: Range)
    requires ValidRange(r) && ValidRange(m) && ValidRange(later) && Apart(r, later)
    requires forall q: U32 :: Contains(r, q) ==> Contains(m, q)
    ensures !Apart(later, m)
  {
    assert Contains(m, r.start);
  }

  // ---------------------------------------------------------------------------------------------
  // Insertion and lookup, as the program does them

  /** Swallows the ranges after position `i` that the range at `i` now reaches. */
  method Absorb(given: seq<Range>, i: nat) returns (s: seq<Range>)
    requires i < |given| && ValidRange(given[i]) && WellFormed(given[i + 1..])
    requires forall k :: i < k < |given| ==> !Apart(given[k], given[i])
    ensures s == given[..i] + Inserted(given[i + 1..], given[i])
  {
    s := given;
    var j := i + 1;
    while j < |s|
      invariant i < j <= |s| == |given|
      invariant s == given[i := s[i]]
      invariant ValidRange(s[i]) && WellFormed(given[j..])
      invariant Inserted(given[i + 1..], given[i]) == Inserted(given[j..], s[i])
      invariant forall k :: j <= k < |given| ==> !Apart(given[k], s[i])
    {
      AbsorbStep(given[j..], s[i]);
      assert given[j..][0] == s[j] && given[j..][1..] == given[j + 1..];
      var m := Merge(s[i], s[j]);
      if m.None? {
        s := s[..i + 1] + s[j..];
        return;
      }
      forall k | j + 1 <= k < |given| ensures !Apart(given[k], m.value) {
        assert given[k] == given[j..][k - j];
      }
      s := s[i := m.value];
      j := j + 1;
    }
    s := s[..i + 1];
    assert given[|given|..] == [];
  }

  /** One step of the swallowing loop, against the simple insertion of `cur` into what is left. */
  lemma AbsorbStep(rest: seq<Range>, cur: Range)
    requires WellFormed(rest) && rest != [] && ValidRange(cur) && !Apart(rest[0], cur)
    ensures WellFormed(rest[1..])
    ensures Merge(cur, rest[0]).None? ==> Inserted(rest, cur) == [cur] + rest
    ensures Merge(cur, rest[0]).Some? ==>
              && ValidRange(Merge(cur, rest[0]).value)
              && Inserted(rest, cur) == Inserted(rest[1..], Merge(cur, rest[0]).value)
              && forall k :: 1 <= k < |rest| ==> !Apart(rest[k], Merge(cur, rest[0]).value)
  {
    WellFormedTail(rest);
    MergeFails(cur, rest[0]);
    MergeCommutes(cur, rest[0]);
    var m := Merge(cur, rest[0]);
    if m.Some? {
      MergeIsUnion(cur, rest[0]);
      forall k | 1 <= k < |rest| ensures !Apart(rest[k], m.value) {
        AbsorbedStaysBefore(rest[0], m.value, rest[k]);
      }
    }
  }

  /** The range at `i` took in `v`: what follows it can still only be reached from the left. */
  lemma MergedInPlace(s: seq<Range>, i: nat, v: Range)
    requires WellFormed(s) && ValidRange(v) && i < |s| && Merge(s[i], v).Some?
    ensures var t := s[i := Merge(s[i], v).value];
            && ValidRange(t[i]) && t[..i] == s[..i] && t[i + 1..] == s[i + 1..] && WellFormed(t[i + 1..])
            && forall k :: i < k < |t| ==> !Apart(t[k], t[i])
  {
    MergeFails(s[i], v);
    MergeIsUnion(s[i], v);
    forall k | i < k < |s| ensures !Apart(s[k], Merge(s[i], v).value) {
      AbsorbedStaysBefore(s[i], Merge(s[i], v).value, s[k]);
    }
  }

  /** The range before the bisection point took in `v`. */
  method MergeLeft(given: seq<Range>, v: Range, i: nat) returns (s: seq<Range>)
    requires WellFormed(given) && ValidRange(v) && 0 < i <= |given| && Merge(given[i - 1], v).Some?
    ensures s == given[..i - 1] + Inserted(given[i..], Merge(given[i - 1], v).value)
  {
    MergedInPlace(given, i - 1, v);
    s := given[i - 1 := Merge(given[i - 1], v).value];
    if i == |s| {
      assert given[i..] == [];
      return;
    }
    s := Absorb(s, i - 1);
  }

  class NumSet {
    var ranges: seq<Range>

    ghost predicate Valid()
      reads this
    {
      WellFormed(ranges)
    }

    constructor ()
      ensures Valid() && ranges == []
    {
      ranges := [];
    }

    /** Bisection for the first range that does not precede `q`. */
    method Search(q: U32) returns (i: nat, ok: bool)
      requires Valid()
      ensures i <= |ranges|
      ensures forall k :: 0 <= k < i ==> Less(ranges[k], q)
      ensures i < |ranges| ==> !Less(ranges[i], q) && (ok <==> Contains(ranges[i], q))
      ensures ok <==> Has(ranges, q)
    {
      var min, max := 0, |ranges| - 1;
      while min < max
        invariant if ranges == [] then min == 0 && max == -1 else 0 <= min <= max < |ranges|
        invariant forall k :: 0 <= k < min ==> Less(ranges[k], q)
        invariant max < |ranges| - 1 ==> !Less(ranges[max], q)
      {
        var mid := (min + max) / 2;
        if Less(ranges[mid], q) {
          forall k | 0 <= k < mid ensures Less(ranges[k], q) {
            assert Apart(ranges[k], ranges[mid]);
          }
          min := mid + 1;
        } else {
          max := mid;
        }
      }
      if max < 0 || Less(ranges[min], q) {
        LessExcludes(ranges, q, |ranges|);
        return |ranges|, false;
      }
      LessExcludes(ranges, q, min);
      return min, Contains(ranges[min], q);
    }

    method Lookup(q: U32) returns (yes: bool)
      requires Valid()
      ensures yes <==> q != 0 && Has(ranges, q)
    {
      var _, ok := Search(q);
      yes := ok && q != 0;
    }

    /** Inserts the range between two ends given in either order, "*" counting as the larger. */
    method AddRange(start: U32, stop: U32)
      requires Valid()
      modifies this
      ensures Valid() && ranges == Inserted(old(ranges), Ordered(start, stop))
      ensures forall q: U32 :: Has(ranges, q) <==> Has(old(ranges), q) || Contains(Ordered(start, stop), q)
    {
      InsertedWellFormed(ranges, Ordered(start, stop));
      forall q: U32 ensures Has(Inserted(ranges, Ordered(start, stop)), q)
                       <==> Has(ranges, q) || Contains(Ordered(start, stop), q)
      {
        InsertedHas(ranges, Ordered(start, stop), q);
      }
      if (stop < start && stop != 0) || start == 0 {
        Insert(Range(stop, start));
      } else {
        Insert(Range(start, stop));
      }
    }

    method InsertAt(i: nat, v: Range)
      requires i <= |ranges|
      modifies this
      ensures ranges == old(ranges)[..i] + [v] + old(ranges)[i..]
    {
      ranges := ranges[..i] + [v] + ranges[i..];
    }

    /** Bisects for the place, merges with a neighbour if it can, then swallows what the merged range reaches. */
    method Insert(v: Range)
      requires Valid() && ValidRange(v)
      modifies this
      ensures ranges == Inserted(old(ranges), v)
    {
      var i, _ := Search(v.start);
      InsertionPoint(ranges, v, i);
      if i > 0 && Merge(ranges[i - 1], v).Some? {
        ranges := MergeLeft(ranges, v, i);
      } else if i == |ranges| {
        assert ranges[..i] == ranges && ranges[i..] == [];
        InsertAt(i, v);
      } else {
        assert ranges[i..][0] == ranges[i] && ranges[i..][1..] == ranges[i + 1..];
        MergeFails(ranges[i], v);
        if Merge(ranges[i], v).None? {
          InsertAt(i, v);
        } else {
          MergedInPlace(ranges, i, v);
          ranges := Absorb(ranges[i := Merge(ranges[i], v).value], i);
        }
      }
    }
  }
}
