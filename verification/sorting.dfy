/** Ascending order of number lists, as the library sort leaves them. */
module Sorting {

  predicate Ascending(s: seq<int>) {
    forall i, j :: 0 <= i < j < |s| ==> s[i] <= s[j]
  }

  function InsertNumber(x: int, s: seq<int>): seq<int> {
    if s == [] || x <= s[0] then [x] + s else [s[0]] + InsertNumber(x, s[1..])
  }

  /** The list in ascending order. */
  function Sort(s: seq<int>): seq<int> {
    if s == [] then [] else InsertNumber(s[0], Sort(s[1..]))
  }

  lemma {:induction false} InsertNumberKeeps(x: int, s: seq<int>)
    ensures multiset(InsertNumber(x, s)) == multiset(s) + multiset{x}
  {
    if s != [] && s[0] < x {
      InsertNumberKeeps(x, s[1..]);
      assert s == [s[0]] + s[1..];
    }
  }

  lemma {:induction false} InsertNumberAbove(x: int, s: seq<int>, low: int)
    requires low <= x && forall i :: 0 <= i < |s| ==> low <= s[i]
    ensures forall i :: 0 <= i < |InsertNumber(x, s)| ==> low <= InsertNumber(x, s)[i]
  {
    if s != [] && s[0] < x {
      InsertNumberAbove(x, s[1..], low);
    }
  }

  lemma {:induction false} InsertNumberSorts(x: int, s: seq<int>)
    requires Ascending(s)
    ensures Ascending(InsertNumber(x, s))
  {
    if s != [] && s[0] < x {
      InsertNumberSorts(x, s[1..]);
      InsertNumberAbove(x, s[1..], s[0]);
    }
  }

  /** Sorting orders the list and neither drops, repeats nor invents a number. */
  lemma {:induction false} SortSorts(s: seq<int>)
    ensures Ascending(Sort(s)) && multiset(Sort(s)) == multiset(s)
  {
    if s != [] {
      SortSorts(s[1..]);
      InsertNumberSorts(s[0], Sort(s[1..]));
      InsertNumberKeeps(s[0], Sort(s[1..]));
      assert s == [s[0]] + s[1..];
    }
  }

  lemma SortMembers(s: seq<int>, x: int)
    ensures x in Sort(s) <==> x in s
  {
    SortSorts(s);
    assert x in Sort(s) <==> x in multiset(Sort(s));
  }
}
