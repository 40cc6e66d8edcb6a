/**
 Sequence sets on the wire: rendering, parsing, the compressed UID lists of VANISHED responses, and what a written
 set selects in a mailbox (sections 6.4.8 and 9 of RFC 3501).
 */
module NumSetText {
  import opened Options
  import opened NumSets

  // ---------------------------------------------------------------------------------------------
  // Decimal numbers

  function Digit(d: nat): char
    requires d < 10
  {
    '0' + d as char
  }

  predicate IsDigit(c: char) {
    '0' <= c <= '9'
  }

  function Decimal(n: nat): string {
    if n < 10 then [Digit(n)] else Decimal(n / 10) + [Digit(n % 10)]
  }

  predicate AllDigits(s: string) {
    forall i :: 0 <= i < |s| ==> IsDigit(s[i])
  }

  function Value(s: string): nat
    requires AllDigits(s)
  {
    if s == [] then 0 else 10 * Value(s[..|s| - 1]) + (s[|s| - 1] - '0') as nat
  }

  function ParseUint32(s: string): Option<U32> {
    if s != [] && AllDigits(s) && Value(s) <= MAX_U32 then Some(Value(s)) else None
  }

  lemma {:induction false} DecimalReads(n: nat)
    ensures Decimal(n) != [] && AllDigits(Decimal(n)) && Value(Decimal(n)) == n
    ensures 0 < n ==> Decimal(n)[0] != '0'
  {
    if n < 10 {
      assert Decimal(n)[..0] == [];
    } else {
      DecimalReads(n / 10);
      assert Decimal(n)[..|Decimal(n)| - 1] == Decimal(n / 10);
    }
  }

  // ---------------------------------------------------------------------------------------------
  // Splitting and joining

  function IndexOf(s: string, c: char): (i: int)
    ensures -1 <= i < |s|
    ensures i == -1 <==> c !in s
    ensures i >= 0 ==> s[i] == c && c !in s[..i]
  {
    if s == [] then -1
    else if s[0] == c then 0
    else
      var k := IndexOf(s[1..], c);
      if k < 0 then -1
      else
        assert s[..k + 1] == [s[0]] + s[1..][..k];
        k + 1
  }

  function Split(s: string, c: char): (parts: seq<string>)
    ensures parts != []
  {
    var i := IndexOf(s, c);
    if i < 0 then [s] else [s[..i]] + Split(s[i + 1..], c)
  }

  function Join(parts: seq<string>, c: char): string
    requires parts != []
  {
    if |parts| == 1 then parts[0] else parts[0] + [c] + Join(parts[1..], c)
  }

  lemma FirstIndex(a: string, c: char, b: string)
    requires c !in a
    ensures IndexOf(a + [c] + b, c) == |a|
  {
    var s := a + [c] + b;
    assert s[|a|] == c;
  }

  lemma {:induction false} SplitJoin(parts: seq<string>, c: char)
    requires parts != [] && forall i :: 0 <= i < |parts| ==> c !in parts[i]
    ensures Split(Join(parts, c), c) == parts
  {
    if |parts| > 1 {
      var rest := Join(parts[1..], c);
      FirstIndex(parts[0], c, rest);
      SplitJoin(parts[1..], c);
      var s := parts[0] + [c] + rest;
      assert s[..|parts[0]|] == parts[0] && s[|parts[0]| + 1..] == rest;
    }
  }

  lemma {:induction false} JoinSnoc(parts: seq<string>, c: char, last: string)
    requires parts != []
    ensures Join(parts + [last], c) == Join(parts, c) + [c] + last
  {
    if |parts| > 1 {
      JoinSnoc(parts[1..], c, last);
      assert (parts + [last])[1..] == parts[1..] + [last];
    } else {
      assert (parts + [last])[1..] == [last];
    }
  }

  // ---------------------------------------------------------------------------------------------
  // Parsing

  function ParseNum(v: string): Option<U32> {
    if ParseUint32(v).Some? && v[0] != '0' then ParseUint32(v)
    else if v == "*" then Some(0)
    else None
  }

  /** The two ends of a written range, in the order written; a single number is both ends. */
  function ParseEnds(v: string): Option<(U32, U32)> {
    var sep := IndexOf(v, ':');
    if sep < 0 then
      var n := ParseNum(v);
      if n.None? then None else Some((n.value, n.value))
    else
      var a, b := ParseNum(v[..sep]), ParseNum(v[sep + 1..]);
      if a.None? || b.None? then None else Some((a.value, b.value))
  }

  function ParseRange(v: string): Option<Range> {
    var ends := ParseEnds(v);
    if ends.None? then None else Some(Ordered(ends.value.0, ends.value.1))
  }

  /** Parses and inserts piece after piece; any bad piece spoils the whole. */
  function ParsePieces(pieces: seq<string>, acc: seq<Range>): Option<seq<Range>> {
    if pieces == [] then Some(acc)
    else
      var r := ParseRange(pieces[0]);
      if r.None? then None else ParsePieces(pieces[1..], Inserted(acc, r.value))
  }

  function ParsedText(text: string): Option<seq<Range>> {
    ParsePieces(Split(text, ','), [])
  }

  lemma {:induction false} ParsePiecesSnoc(pieces: seq<string>, last: string, acc: seq<Range>)
    ensures ParsePieces(pieces + [last], acc) ==
            match ParsePieces(pieces, acc)
            case None => None
            case Some(s) => (match ParseRange(last)
                             case None => None
                             case Some(r) => Some(Inserted(s, r)))
    decreases |pieces|
  {
    if pieces == [] {
      assert (pieces + [last])[1..] == [];
    } else {
      assert (pieces + [last])[1..] == pieces[1..] + [last];
      var r := ParseRange(pieces[0]);
      if r.Some? {
        ParsePiecesSnoc(pieces[1..], last, Inserted(acc, r.value));
      }
    }
  }

  lemma {:induction false} BadPieceSpoils(pieces: seq<string>, i: nat, acc: seq<Range>)
    requires i < |pieces| && ParseRange(pieces[i]).None?
    ensures ParsePieces(pieces, acc).None?
    decreases |pieces|
  {
    if i > 0 && ParseRange(pieces[0]).Some? {
      BadPieceSpoils(pieces[1..], i - 1, Inserted(acc, ParseRange(pieces[0]).value));
    }
  }

  method ParseSet(text: string) returns (ok: bool, s: NumSet)
    ensures s.Valid() && (ok <==> ParsedText(text).Some?)
    ensures ok ==> s.ranges == ParsedText(text).value
  {
    s := new NumSet();
    var pieces := Split(text, ',');
    for i := 0 to |pieces|
      invariant fresh(s) && s.Valid()
      invariant ParsePieces(pieces[..i], []) == Some(s.ranges)
    {
      var r := ParseRange(pieces[i]);
      ParsePiecesSnoc(pieces[..i], pieces[i], []);
      assert pieces[..i + 1] == pieces[..i] + [pieces[i]];
      if r.None? {
        BadPieceSpoils(pieces, i, []);
        return false, s;
      }
      s.AddRange(r.value.start, r.value.stop);
    }
    assert pieces[..|pieces|] == pieces;
    return true, s;
  }

  // ---------------------------------------------------------------------------------------------
  // Rendering

  function RangeText(r: Range): string {
    if r.start == 0 then "*"
    else if r.start == r.stop then Decimal(r.start)
    else if r.stop == 0 then Decimal(r.start) + ":*"
    else Decimal(r.start) + [':'] + Decimal(r.stop)
  }

  /** One number stands alone, a range has one colon, and a star stands for the open end. */
  lemma RangeTextForm(r: Range)
    requires ValidRange(r)
    ensures ':' in RangeText(r) <==> r.start != r.stop
    ensures '*' in RangeText(r) <==> r.stop == 0
    ensures r.start == r.stop != 0 ==> RangeText(r) == Decimal(r.start)
  {
    DecimalReads(r.start);
    DecimalReads(r.stop);
    assert forall i :: 0 <= i < |Decimal(r.start)| ==> IsDigit(Decimal(r.start)[i]);
    assert forall i :: 0 <= i < |Decimal(r.stop)| ==> IsDigit(Decimal(r.stop)[i]);
  }

  function RangeTexts(s: seq<Range>): (texts: seq<string>)
    ensures |texts| == |s| && forall i :: 0 <= i < |s| ==> texts[i] == RangeText(s[i])
  {
    seq(|s|, i requires 0 <= i < |s| => RangeText(s[i]))
  }

  method AppendRange(b: string, v: Range) returns (longer: string)
    ensures longer == b + [','] + RangeText(v)
  {
    longer := b + [','];
    if v.start == 0 {
      longer := longer + ['*'];
      return;
    }
    longer := longer + Decimal(v.start);
    if v.start != v.stop {
      if v.stop == 0 {
        longer := longer + [':', '*'];
        assert longer == b + [','] + (Decimal(v.start) + ":*");
        return;
      }
      longer := longer + [':'] + Decimal(v.stop);
    }
  }

  method SetText(s: seq<Range>) returns (text: string)
    ensures text == if s == [] then "" else Join(RangeTexts(s), ',')
  {
    if s == [] {
      return "";
    }
    var b := [];
    for i := 0 to |s|
      invariant b == if i == 0 then [] else [','] + Join(RangeTexts(s[..i]), ',')
    {
      if i > 0 {
        JoinSnoc(RangeTexts(s[..i]), ',', RangeText(s[i]));
      }
      assert RangeTexts(s[..i + 1]) == RangeTexts(s[..i]) + [RangeText(s[i])];
      b := AppendRange(b, s[i]);
    }
    assert s[..|s|] == s;
    text := b[1..];
  }

  lemma DecimalParses(n: U32)
    requires n != 0
    ensures ParseNum(Decimal(n)) == Some(n) && ':' !in Decimal(n) && ',' !in Decimal(n)
  {
    DecimalReads(n);
  }

  lemma PairReads(a: string, b: string)
    requires ':' !in a && ParseNum(a).Some? && ParseNum(b).Some?
    ensures ParseEnds(a + [':'] + b) == Some((ParseNum(a).value, ParseNum(b).value))
  {
    var v := a + [':'] + b;
    FirstIndex(a, ':', b);
    assert v[..|a|] == a && v[|a| + 1..] == b;
  }

  /** A rendered range reads back as itself. */
  lemma RangeTextReads(r: Range)
    requires ValidRange(r)
    ensures ParseRange(RangeText(r)) == Some(r) && ',' !in RangeText(r)
  {
    if r.start != 0 {
      DecimalParses(r.start);
      if r.stop == 0 {
        PairReads(Decimal(r.start), "*");
        assert RangeText(r) == Decimal(r.start) + [':'] + "*";
      } else if r.start != r.stop {
        DecimalParses(r.stop);
        PairReads(Decimal(r.start), Decimal(r.stop));
      }
    }
  }

  /** Inserting a list of ranges one by one. */
  function InsertAll(acc: seq<Range>, rs: seq<Range>): seq<Range>
    decreases |rs|
  {
    if rs == [] then acc else InsertAll(Inserted(acc, rs[0]), rs[1..])
  }

  predicate AllValid(rs: seq<Range>) {
    forall i :: 0 <= i < |rs| ==> ValidRange(rs[i])
  }

  lemma {:induction false} InsertAllHas(acc: seq<Range>, rs: seq<Range>, q: U32)
    requires WellFormed(acc) && AllValid(rs)
    ensures WellFormed(InsertAll(acc, rs))
    ensures Has(InsertAll(acc, rs), q) <==> Has(acc, q) || Has(rs, q)
    decreases |rs|
  {
    if rs != [] {
      InsertedWellFormed(acc, rs[0]);
      InsertedHas(acc, rs[0], q);
      InsertAllHas(Inserted(acc, rs[0]), rs[1..], q);
      HasCons(rs, q);
    }
  }

  /** A well-formed list is its own normal form. */
  lemma {:induction false} InsertAllWellFormed(acc: seq<Range>, rs: seq<Range>)
    requires WellFormed(acc + rs)
    ensures InsertAll(acc, rs) == acc + rs
    decreases |rs|
  {
    if rs == [] {
      assert acc + rs == acc;
    } else {
      var whole := acc + rs;
      assert forall i :: 0 <= i < |acc| ==> whole[i] == acc[i];
      assert whole[|acc|] == rs[0];
      assert WellFormed(acc);
      forall k | 0 <= k < |acc| ensures Apart(acc[k], rs[0]) {
        assert Apart(whole[k], whole[|acc|]);
      }
      InsertedSkips(acc, rs[0], |acc|);
      assert acc[..|acc|] == acc && acc[|acc|..] == [];
      assert Inserted(acc, rs[0]) == acc + [rs[0]];
      assert acc + [rs[0]] + rs[1..] == whole;
      InsertAllWellFormed(acc + [rs[0]], rs[1..]);
    }
  }

  lemma {:induction false} ParseTexts(rs: seq<Range>, acc: seq<Range>)
    requires AllValid(rs)
    ensures ParsePieces(RangeTexts(rs), acc) == Some(InsertAll(acc, rs))
    decreases |rs|
  {
    if rs != [] {
      RangeTextReads(rs[0]);
      assert RangeTexts(rs)[1..] == RangeTexts(rs[1..]);
      ParseTexts(rs[1..], Inserted(acc, rs[0]));
    }
  }

  /** Any rendered list of ranges reads back as the set of its members. */
  lemma RenderedReads(rs: seq<Range>)
    requires rs != [] && AllValid(rs)
    ensures ParsedText(Join(RangeTexts(rs), ',')) == Some(InsertAll([], rs))
  {
    forall i | 0 <= i < |rs| ensures ',' !in RangeTexts(rs)[i] {
      RangeTextReads(rs[i]);
    }
    SplitJoin(RangeTexts(rs), ',');
    ParseTexts(rs, []);
  }

  /** Parsing the text of a set gives the set back. */
  lemma TextRoundTrip(s: seq<Range>)
    requires WellFormed(s) && s != []
    ensures ParsedText(Join(RangeTexts(s), ',')) == Some(s)
  {
    RenderedReads(s);
    assert [] + s == s;
    InsertAllWellFormed([], s);
  }

  // ---------------------------------------------------------------------------------------------
  // VANISHED

  lemma HasSnoc(rs: seq<Range>, r: Range, q: U32)
    ensures Has(rs + [r], q) <==> Has(rs, q) || Contains(r, q)
  {
    var all := rs + [r];
    assert all[|rs|] == r && forall i :: 0 <= i < |rs| ==> all[i] == rs[i];
  }

  /** The runs written so far and the open one from `start` to `prev` hold exactly the UIDs seen. */
  ghost predicate Covers(seen: seq<U32>, runs: seq<Range>, start: U32, prev: U32) {
    forall q: U32 :: q in seen <==> Has(runs, q) || Contains(Range(start, prev), q)
  }

  lemma CoversNext(seen: seq<U32>, runs: seq<Range>, start: U32, prev: U32, u: U32)
    requires Covers(seen, runs, start, prev) && 0 < start <= prev && u != 0
    ensures u == Succ(prev) ==> Covers(seen + [u], runs, start, u)
    ensures Covers(seen + [u], runs + [Range(start, prev)], u, u)
  {
    forall q: U32 ensures q in seen + [u] <==> Has(runs + [Range(start, prev)], q) || Contains(Range(u, u), q) {
      HasSnoc(runs, Range(start, prev), q);
    }
  }

  /** Renders UIDs with runs of consecutive ones compressed; the text reads back as exactly those UIDs. */
  method UidRangesText(uids: seq<U32>) returns (text: string)
    requires forall i :: 0 <= i < |uids| ==> uids[i] != 0
    ensures uids == [] ==> text == ""
    ensures uids != [] ==> ParsedText(text).Some? && forall q: U32 :: Has(ParsedText(text).value, q) <==> q in uids
  {
    if uids == [] {
      return "";
    }
    text := "";
    ghost var runs: seq<Range> := [];
    var start, prev := uids[0], uids[0];
    for i := 1 to |uids|
      invariant 0 < start <= prev == uids[i - 1]
      invariant AllValid(runs) && text == (if runs == [] then "" else Join(RangeTexts(runs), ','))
      invariant runs != [] ==> text != ""
      invariant Covers(uids[..i], runs, start, prev)
    {
      var u := uids[i];
      CoversNext(uids[..i], runs, start, prev, u);
      assert uids[..i + 1] == uids[..i] + [u];
      if u == Succ(prev) {
        prev := u;
      } else {
        text, runs := Flush(text, runs, start, prev);
        start, prev := u, u;
      }
    }
    assert uids[..|uids|] == uids;
    text, runs := Flush(text, runs, start, prev);
    RenderedReads(runs);
    forall q: U32 ensures Has(InsertAll([], runs), q) <==> q in uids {
      InsertAllHas([], runs, q);
      HasSnoc(runs[..|runs| - 1], Range(start, prev), q);
    }
  }

  method Flush(b: string, ghost runs: seq<Range>, start: U32, prev: U32) returns (text: string, ghost all: seq<Range>)
    requires 0 < start <= prev
    requires AllValid(runs) && b == (if runs == [] then "" else Join(RangeTexts(runs), ','))
    requires runs != [] ==> b != ""
    ensures AllValid(all) && all == runs + [Range(start, prev)]
    ensures text == Join(RangeTexts(all), ',') && text != ""
  {
    var r := Range(start, prev);
    all := runs + [r];
    assert RangeTexts(all) == RangeTexts(runs) + [RangeText(r)];
    DecimalReads(start);
    text := b;
    if |text| > 0 {
      text := text + [','];
    }
    if start == prev {
      text := text + Decimal(start);
    } else {
      text := text + (Decimal(start) + [':'] + Decimal(prev));
    }
    if runs != [] {
      JoinSnoc(RangeTexts(runs), ',', RangeText(r));
      assert text == b + [','] + RangeText(r);
    }
  }

  // ---------------------------------------------------------------------------------------------
  // What a set selects in a mailbox

  /** The program's test: listed outright, or the last message when the set is open-ended. */
  predicate Matches(s: seq<Range>, x: U32, last: U32) {
    (x != 0 && Has(s, x)) || (Dynamic(s) && x == last)
  }

  function Star(n: U32, last: U32): U32 {
    if n == 0 then last else n
  }

  /** The standard's reading of "a:b": every number between the two ends in either order, "*" being the last one. */
  predicate Between(a: U32, b: U32, x: U32, last: U32) {
    var lo, hi := Star(a, last), Star(b, last);
    lo <= x <= hi || hi <= x <= lo
  }

  lemma BetweenByMembers(a: U32, b: U32, x: U32, last: U32)
    requires 0 < x <= last
    ensures Between(a, b, x, last) <==> Contains(Ordered(a, b), x) || (Contains(Ordered(a, b), 0) && x == last)
  {}

  predicate AnyPieceSelects(pieces: seq<string>, x: U32, last: U32) {
    exists i :: 0 <= i < |pieces| && ParseEnds(pieces[i]).Some?
                && Between(ParseEnds(pieces[i]).value.0, ParseEnds(pieces[i]).value.1, x, last)
  }

  lemma {:induction false} ParsedSelects(pieces: seq<string>, acc: seq<Range>, x: U32, last: U32)
    requires 0 < x <= last && WellFormed(acc) && ParsePieces(pieces, acc).Some?
    ensures var s := ParsePieces(pieces, acc).value;
            && WellFormed(s)
            && (Has(s, x) || (Has(s, 0) && x == last) <==>
                Has(acc, x) || (Has(acc, 0) && x == last) || AnyPieceSelects(pieces, x, last))
    decreases |pieces|
  {
    if pieces != [] {
      var ends := ParseEnds(pieces[0]).value;
      var r := Ordered(ends.0, ends.1);
      InsertedWellFormed(acc, r);
      InsertedHas(acc, r, x);
      InsertedHas(acc, r, 0);
      BetweenByMembers(ends.0, ends.1, x, last);
      ParsedSelects(pieces[1..], Inserted(acc, r), x, last);
      SelectsCons(pieces, x, last);
    }
  }

  lemma SelectsCons(pieces: seq<string>, x: U32, last: U32)
    requires pieces != [] && ParseEnds(pieces[0]).Some?
    ensures AnyPieceSelects(pieces, x, last) <==>
            Between(ParseEnds(pieces[0]).value.0, ParseEnds(pieces[0]).value.1, x, last)
            || AnyPieceSelects(pieces[1..], x, last)
  {
    var rest := pieces[1..];
    assert forall i :: 0 <= i < |rest| ==> rest[i] == pieces[i + 1];
  }

  /**
   For every set text and every message of a non-empty mailbox, the program's test on the merged set agrees with the
   standard's reading of the pieces as they were written.
   */
  lemma MatchesAsWritten(text: string, x: U32, last: U32)
    requires 0 < x <= last && ParsedText(text).Some?
    ensures WellFormed(ParsedText(text).value)
    ensures Matches(ParsedText(text).value, x, last) <==> AnyPieceSelects(Split(text, ','), x, last)
  {
    ParsedSelects(Split(text, ','), [], x, last);
    WellFormedShape(ParsedText(text).value);
  }

  /** The set kinds a command may name: message sequence numbers or UIDs. */
  datatype NumSetArg = SeqSet(ranges: seq<Range>) | UidSet(ranges: seq<Range>)

  function NumMatches(arg: NumSetArg, seqNum: U32, uid: U32, maxSeq: U32, maxUid: U32): bool {
    var listed := match arg
      case SeqSet(rs) => seqNum != 0 && Has(rs, seqNum)
      case UidSet(rs) => uid != 0 && Has(rs, uid);
    if listed then true
    else if !Dynamic(arg.ranges) then false
    else match arg
      case UidSet(_) => uid == maxUid
      case SeqSet(_) => seqNum == maxSeq
  }

  /** Each kind is matched against its own number and its own maximum, and only against those. */
  lemma NumMatchesByKind(rs: seq<Range>, seqNum: U32, uid: U32, maxSeq: U32, maxUid: U32)
    ensures NumMatches(SeqSet(rs), seqNum, uid, maxSeq, maxUid) <==> Matches(rs, seqNum, maxSeq)
    ensures NumMatches(UidSet(rs), seqNum, uid, maxSeq, maxUid) <==> Matches(rs, uid, maxUid)
  {}
}
