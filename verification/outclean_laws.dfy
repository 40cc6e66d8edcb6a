/** What the outbound filter guarantees: which lines go, that the body stays, and that a second pass changes nothing. */
module OutcleanLaws {
  import opened Outclean

  // ---------------------------------------------------------------------------------------------
  // Which lines go, under any rules

  function HeaderEnd(rules: Rules, lines: seq<string>): (n: nat)
    ensures n <= |lines| && (n < |lines| ==> rules.ends(lines[n])) && forall i :: 0 <= i < n ==> !rules.ends(lines[i])
  {
    if lines == [] || rules.ends(lines[0]) then 0 else 1 + HeaderEnd(rules, lines[1..])
  }

  /** A line goes when it starts an unwanted field, or folds a line that goes. */
  predicate Dropped(rules: Rules, lines: seq<string>, i: nat)
    requires i < |lines|
  {
    rules.ignored(lines[i]) || (i > 0 && rules.folded(lines[i]) && Dropped(rules, lines, i - 1))
  }

  /** The lines from `i` up to `n` that stay, in order. */
  function Kept(rules: Rules, lines: seq<string>, i: nat, n: nat): seq<string>
    requires i <= n <= |lines|
    decreases n - i
  {
    if i == n then []
    else (if Dropped(rules, lines, i) then [] else [rules.cleaned(lines[i])]) + Kept(rules, lines, i + 1, n)
  }

  /** The line that ends the headers folds nothing. */
  ghost predicate EndsApart(rules: Rules, lines: seq<string>) {
    forall i :: 0 <= i < |lines| && rules.ends(lines[i]) ==> !rules.folded(lines[i])
  }

  lemma SkipFoldedOne(rules: Rules, lines: seq<string>, i: nat)
    requires i < |lines| && rules.folded(lines[i])
    ensures SkipFolded(rules, lines[i..]) == SkipFolded(rules, lines[i + 1..])
  {
    assert lines[i..][1..] == lines[i + 1..];
  }

  lemma {:induction false} SkipsTo(rules: Rules, lines: seq<string>, i: nat) returns (j: nat)
    requires i <= |lines|
    ensures i <= j <= |lines| && SkipFolded(rules, lines[i..]) == lines[j..]
    ensures (forall k :: i <= k < j ==> rules.folded(lines[k])) && (j < |lines| ==> !rules.folded(lines[j]))
    decreases |lines| - i
  {
    if i < |lines| && rules.folded(lines[i]) {
      SkipFoldedOne(rules, lines, i);
      j := SkipsTo(rules, lines, i + 1);
    } else {
      j := i;
    }
  }

  lemma KeptStep(rules: Rules, lines: seq<string>, i: nat, n: nat)
    requires i < n <= |lines|
    ensures Dropped(rules, lines, i) ==> Kept(rules, lines, i, n) == Kept(rules, lines, i + 1, n)
    ensures !Dropped(rules, lines, i) ==>
        Kept(rules, lines, i, n) == [rules.cleaned(lines[i])] + Kept(rules, lines, i + 1, n)
  {
    assert [] + Kept(rules, lines, i + 1, n) == Kept(rules, lines, i + 1, n);
  }

  lemma {:induction false} FoldedDrop(rules: Rules, lines: seq<string>, i: nat, j: nat, n: nat)
    requires 0 < i <= j <= n <= |lines| && Dropped(rules, lines, i - 1) && forall k :: i <= k < j ==>
        rules.folded(lines[k])
    ensures Kept(rules, lines, i, n) == Kept(rules, lines, j, n)
    decreases j - i
  {
    if i < j {
      KeptStep(rules, lines, i, n);
      FoldedDrop(rules, lines, i + 1, j, n);
    }
  }

  ghost predicate HeadersUpTo(rules: Rules, lines: seq<string>, n: nat) {
    n <= |lines| && (n < |lines| ==> rules.ends(lines[n])) && forall i :: 0 <= i < n ==> !rules.ends(lines[i])
  }

  lemma {:induction false} FilterFrom(rules: Rules, lines: seq<string>, i: nat, n: nat)
    requires EndsApart(rules, lines) && i <= n && HeadersUpTo(rules, lines, n)
    requires i < n ==> i == 0 || !rules.folded(lines[i]) || !Dropped(rules, lines, i - 1)
    ensures Filter(rules, lines[i..]) == Kept(rules, lines, i, n) + lines[n..]
    decreases n - i
  {
    if i == n {
      BodyStays(rules, lines, n);
    } else if rules.ignored(lines[i]) {
      var j := IgnoredFrom(rules, lines, i, n);
      FilterFrom(rules, lines, j, n);
    } else {
      FilterFrom(rules, lines, i + 1, n);
      KeptFrom(rules, lines, i, n);
    }
  }

  lemma BodyStays(rules: Rules, lines: seq<string>, n: nat)
    requires n <= |lines| && (n < |lines| ==> rules.ends(lines[n]))
    ensures Filter(rules, lines[n..]) == Kept(rules, lines, n, n) + lines[n..]
  {
    assert [] + lines[n..] == lines[n..];
  }

  lemma KeptFrom(rules: Rules, lines: seq<string>, i: nat, n: nat)
    requires i < n <= |lines| && !rules.ends(lines[i]) && !rules.ignored(lines[i]) && !Dropped(rules, lines, i)
    requires Filter(rules, lines[i + 1..]) == Kept(rules, lines, i + 1, n) + lines[n..]
    ensures Filter(rules, lines[i..]) == Kept(rules, lines, i, n) + lines[n..]
  {
    assert lines[i..] == [lines[i]] + lines[i + 1..];
    FilterFirst(rules, lines[i], lines[i + 1..]);
    KeptStep(rules, lines, i, n);
    KeptJoin(rules.cleaned(lines[i]), Kept(rules, lines, i + 1, n), lines[n..]);
  }

  /** An unwanted field goes together with the folded lines behind it. */
  lemma IgnoredFrom(rules: Rules, lines: seq<string>, i: nat, n: nat) returns (j: nat)
    requires EndsApart(rules, lines) && i < n && HeadersUpTo(rules, lines, n) && rules.ignored(lines[i])
    ensures i < j <= n && (j < n ==> !rules.folded(lines[j]))
    ensures Filter(rules, lines[i..]) == Filter(rules, lines[j..]) && Kept(rules, lines, i, n) == Kept(rules, lines, j, n)
  {
    assert lines[i..] == [lines[i]] + lines[i + 1..];
    FilterFirst(rules, lines[i], lines[i + 1..]);
    KeptStep(rules, lines, i, n);
    j := SkipsTo(rules, lines, i + 1);
    FoldedDrop(rules, lines, i + 1, j, n);
  }

  lemma KeptJoin(line: string, kept: seq<string>, rest: seq<string>)
    ensures [line] + (kept + rest) == [line] + kept + rest
  {}

  /** The filter keeps, in order, the header lines that are not dropped, and everything from the first blank line on. */
  lemma FilterIsKept(rules: Rules, lines: seq<string>)
    requires EndsApart(rules, lines)
    ensures Filter(rules, lines) == Kept(rules, lines, 0, HeaderEnd(rules, lines)) + lines[HeaderEnd(rules, lines)..]
  {
    FilterFrom(rules, lines, 0, HeaderEnd(rules, lines));
    assert lines[0..] == lines;
  }

  // ---------------------------------------------------------------------------------------------
  // Twice is once, under rules that settle

  /** A line left standing is told and treated the same way again. */
  ghost predicate Settles(rules: Rules, line: string) {
    !rules.ends(line) && !rules.ignored(line) ==>
      var c := rules.cleaned(line); !rules.ends(c) && !rules.ignored(c) && rules.cleaned(c) == c
  }

  ghost predicate AllSettle(rules: Rules, lines: seq<string>) {
    forall i :: 0 <= i < |lines| ==> Settles(rules, lines[i])
  }

  lemma SkipsSome(rules: Rules, lines: seq<string>) returns (j: nat)
    requires lines != []
    ensures 1 <= j <= |lines| && SkipFolded(rules, lines[1..]) == lines[j..]
  {
    j := |lines| - |SkipFolded(rules, lines[1..])|;
    assert lines[1..][j - 1..] == lines[j..];
  }

  lemma {:induction false} FilterTwice(rules: Rules, lines: seq<string>)
    requires AllSettle(rules, lines)
    ensures Filter(rules, Filter(rules, lines)) == Filter(rules, lines)
    decreases |lines|
  {
    if lines != [] && !rules.ends(lines[0]) {
      if rules.ignored(lines[0]) {
        var j := SkipsSome(rules, lines);
        FilterTwice(rules, lines[j..]);
      } else {
        FilterTwice(rules, lines[1..]);
        assert Settles(rules, lines[0]);
        FilterFirst(rules, rules.cleaned(lines[0]), Filter(rules, lines[1..]));
      }
    }
  }

  /** No unwanted field is left among the header lines of the result. */
  lemma {:induction false} NoneIgnoredLeft(rules: Rules, lines: seq<string>, k: nat)
    requires AllSettle(rules, lines) && k < HeaderEnd(rules, Filter(rules, lines))
    ensures !rules.ignored(Filter(rules, lines)[k])
    decreases |lines|
  {
    if rules.ignored(lines[0]) {
      var j := SkipsSome(rules, lines);
      NoneIgnoredLeft(rules, lines[j..], k);
    } else {
      assert Settles(rules, lines[0]);
      if k > 0 {
        assert Filter(rules, lines)[1..] == Filter(rules, lines[1..]);
        NoneIgnoredLeft(rules, lines[1..], k - 1);
      }
    }
  }

  /** Lines stay lines when those left standing keep their endings. */
  ghost predicate KeepsLine(rules: Rules, line: string) {
    !rules.ends(line) && !rules.ignored(line) ==>
      IsLine(rules.cleaned(line)) && (Ended(line) ==> Ended(rules.cleaned(line)))
  }

  lemma LinedTail(lines: seq<string>, j: nat)
    requires Lined(lines) && j <= |lines|
    ensures Lined(lines[j..])
  {}

  lemma PrependLined(line: string, lines: seq<string>)
    requires IsLine(line) && Lined(lines) && (lines != [] ==> Ended(line))
    ensures Lined([line] + lines)
  {
    var all := [line] + lines;
    assert forall i :: 0 < i < |all| ==> all[i] == lines[i - 1];
  }

  /** What the filter writes is lines again, so the next reader cuts it the same way. */
  lemma {:induction false} FilterLined(rules: Rules, lines: seq<string>)
    requires Lined(lines) && forall i :: 0 <= i < |lines| ==> KeepsLine(rules, lines[i])
    ensures Lined(Filter(rules, lines)) && (Filter(rules, lines) != [] ==> lines != [])
    decreases |lines|
  {
    if lines != [] && !rules.ends(lines[0]) {
      if rules.ignored(lines[0]) {
        var j := SkipsSome(rules, lines);
        LinedTail(lines, j);
        FilterLined(rules, lines[j..]);
      } else {
        LinedTail(lines, 1);
        FilterLined(rules, lines[1..]);
        assert KeepsLine(rules, lines[0]);
        PrependLined(rules.cleaned(lines[0]), Filter(rules, lines[1..]));
      }
    }
  }

  lemma CleanTextTwice(rules: Rules, text: string)
    requires AllSettle(rules, Lines(text)) && forall i :: 0 <= i < |Lines(text)| ==> KeepsLine(rules, Lines(text)[i])
    ensures var once := Concat(Filter(rules, Lines(text))); Concat(Filter(rules, Lines(once))) == once
  {
    LinesLined(text);
    FilterLined(rules, Lines(text));
    LinesConcat(Filter(rules, Lines(text)));
    FilterTwice(rules, Lines(text));
  }

  // ---------------------------------------------------------------------------------------------
  // Cleaning a version line

  lemma {:induction false} TrimLower(s: string)
    ensures TrimLeft(LowerAll(s)) == LowerAll(TrimLeft(s))
  {
    if s != "" && IsBlank(s[0]) {
      assert LowerAll(s)[1..] == LowerAll(s[1..]);
      TrimLower(s[1..]);
    } else if s != "" {
      assert LowerAll(s)[0] == Lower(s[0]);
    }
  }

  lemma {:induction false} TrimLead(s: string)
    ensures forall i :: 0 <= i < |s| - |TrimLeft(s)| ==> IsBlank(s[i])
    ensures TrimLeft(s) != "" ==> !IsBlank(TrimLeft(s)[0])
  {
    if s != "" && IsBlank(s[0]) {
      TrimLead(s[1..]);
      forall i | 0 <= i < |s| - |TrimLeft(s)| ensures IsBlank(s[i]) {
        assert i > 0 ==> s[i] == s[1..][i - 1];
      }
    }
  }

  ghost predicate Blanks(s: string) {
    forall i :: 0 <= i < |s| ==> IsBlank(s[i])
  }

  lemma {:induction false} TrimPast(lead: string, s: string)
    requires Blanks(lead) && (s == "" || !IsBlank(s[0]))
    ensures TrimLeft(lead + s) == s
  {
    if lead == "" {
      assert lead + s == s;
    } else {
      assert (lead + s)[1..] == lead[1..] + s;
      TrimPast(lead[1..], s);
    }
  }

  lemma {:induction false} AfterColonOf(a: string, s: string)
    requires ':' !in a
    ensures AfterColon(a + ":" + s) == TrimLeft(s) && ':' in a + ":" + s
  {
    if a == "" {
      assert "" + ":" + s == ":" + s && (":" + s)[1..] == s;
    } else {
      assert (a + ":" + s)[1..] == a[1..] + ":" + s;
      AfterColonOf(a[1..], s);
    }
  }

  lemma {:induction false} UpToBlankAll(v: string)
    requires forall i :: 0 <= i < |v| ==> !IsBlank(v[i])
    ensures UpToBlank(v) == v
  {
    if v != "" {
      UpToBlankAll(v[1..]);
    }
  }

  lemma MimeValue(v: string)
    requires forall i :: 0 <= i < |v| ==> !IsBlank(v[i])
    ensures UpToBlank(Value(MIME + v)) == v
  {
    var a := "Mime-Version";
    assert ':' !in a;
    assert MIME + v == a + ":" + (" " + v);
    AfterColonOf(a, " " + v);
    TrimPast(" ", v);
    UpToBlankAll(v);
  }

  /** A rebuilt version line is left as it is. */
  lemma MimeFixed(lead: string, v: string, e: string)
    requires Blanks(lead) && forall i :: 0 <= i < |v| ==> !IsBlank(v[i])
    requires Eol(lead + MIME + v + e) == e
    ensures CleanMimeVersion(lead + MIME + v + e) == lead + MIME + v + e
  {
    var line := lead + MIME + v + e;
    var stem := line[..|line| - |e|];
    assert stem == lead + (MIME + v);
    TrimPast(lead, MIME + v);
    MimeValue(v);
    assert stem[..|lead|] == lead;
  }

  lemma CleanMimeFixed(lead: string, v: string, e: string)
    requires Blanks(lead) && v != "" && '\n' !in v && (forall i :: 0 <= i < |v| ==> !IsBlank(v[i]))
    requires e == "" || e == "\n" || e == "\r\n"
    ensures CleanMimeVersion(lead + MIME + v + e) == lead + MIME + v + e
  {
    var line := lead + MIME + v + e;
    assert line[|line| - |e| - 1] == v[|v| - 1];
    if e == "\n" && v[|v| - 1] == '\r' {
      var w := v[..|v| - 1];
      assert line == lead + MIME + w + "\r\n";
      MimeFixed(lead, w, "\r\n");
    } else {
      MimeFixed(lead, v, e);
    }
  }

  /** Free of line feeds, piece by piece. */
  lemma {:induction false} AfterColonClear(s: string)
    requires '\n' !in s
    ensures '\n' !in AfterColon(s)
  {
    if s != "" && s[0] != ':' {
      AfterColonClear(s[1..]);
    }
  }

  lemma StemClear(line: string)
    requires IsLine(line)
    ensures '\n' !in line[..|line| - |Eol(line)|]
  {}

  lemma VersionClear(s: string)
    requires '\n' !in s
    ensures '\n' !in UpToBlank(Value(s))
  {
    AfterColonClear(s);
    var v := Value(s);
    assert UpToBlank(v) <= v;
  }

  lemma TrimClear(s: string)
    requires '\n' !in s
    ensures '\n' !in TrimLeft(s)
  {
    var t := TrimLeft(s);
    assert t == s[|s| - |t|..];
  }

  lemma LeadBlank(s: string)
    ensures Blanks(s[..|s| - |TrimLeft(s)|])
  {
    TrimLead(s);
  }

  lemma MimeParts(line: string) returns (lead: string, v: string, e: string)
    requires IsLine(line)
    ensures Blanks(lead) && '\n' !in v && (forall i :: 0 <= i < |v| ==> !IsBlank(v[i]))
    ensures e == Eol(line) && CleanMimeVersion(line) == if v == "" then line else lead + MIME + v + e
  {
    e := Eol(line);
    var stem := line[..|line| - |e|];
    var trimmed := TrimLeft(stem);
    lead := stem[..|stem| - |trimmed|];
    v := UpToBlank(Value(trimmed));
    LeadBlank(stem);
    assert '\n' !in v by {
      StemClear(line);
      TrimClear(stem);
      VersionClear(trimmed);
    }
  }

  lemma MimeLetter(s: string)
    requires IsMimeVersion(s)
    ensures var t := TrimLeft(s); t != "" && (t[0] == 'm' || t[0] == 'M') && LowerAll(t) != "" && LowerAll(t)[0] == 'm'
  {
    var t := TrimLeft(s);
    assert LowerAll(t)[0] == "mime-version:"[0] == 'm';
    assert LowerAll(t)[0] == Lower(t[0]);
  }

  lemma MimeIsKept(s: string)
    requires IsMimeVersion(s)
    ensures !Ignored(s) && !EndsHeaders(s)
  {
    var t := TrimLeft(s);
    MimeLetter(s);
    TrimLower(s);
    NotIgnoredByLetter(LowerAll(t));
    assert s[|s| - |t|] == t[0];
  }

  lemma NotIgnoredByLetter(lower: string)
    requires lower != "" && lower[0] == 'm'
    ensures !MatchIgnore(lower)
  {
    forall i | 0 <= i < |IGNORE| ensures !(IGNORE[i] <= lower) {
      assert IGNORE[i][0] != 'm';
    }
  }

  lemma LowerConcat(a: string, b: string)
    ensures LowerAll(a + b) == LowerAll(a) + LowerAll(b)
  {}

  lemma LowerMime()
    ensures "mime-version:" <= LowerAll(MIME)
  {
    assert LowerAll(MIME) == "mime-version: ";
  }

  lemma RebuiltIsMime(lead: string, v: string, e: string)
    requires Blanks(lead)
    ensures IsMimeVersion(lead + MIME + v + e)
  {
    var rest := v + e;
    assert lead + MIME + v + e == lead + (MIME + rest);
    TrimPast(lead, MIME + rest);
    LowerConcat(MIME, rest);
    LowerMime();
  }

  /** A cleaned line keeps its ending, is no ignored field, does not end the headers and cleans to itself. */
  lemma CleanedLine(line: string)
    requires IsLine(line) && !Ignored(line) && !EndsHeaders(line)
    ensures var c := Cleaned(line);
            IsLine(c) && (Ended(line) ==> Ended(c)) && !Ignored(c) && !EndsHeaders(c) && Cleaned(c) == c
  {
    if IsMimeVersion(line) {
      var lead, v, e := MimeParts(line);
      if v != "" {
        Rebuilt(lead, v, e, lead + MIME + v + e);
      }
    }
  }

  lemma Rebuilt(lead: string, v: string, e: string, c: string)
    requires Blanks(lead) && v != "" && '\n' !in v && (forall i :: 0 <= i < |v| ==> !IsBlank(v[i]))
    requires (e == "" || e == "\n" || e == "\r\n") && c == lead + MIME + v + e
    ensures IsLine(c) && (e != "" ==> Ended(c)) && !Ignored(c) && !EndsHeaders(c) && Cleaned(c) == c
  {
    RebuiltIsMime(lead, v, e);
    MimeIsKept(c);
    CleanMimeFixed(lead, v, e);
    RebuiltLine(lead, v, e);
  }

  lemma RebuiltLine(lead: string, v: string, e: string)
    requires Blanks(lead) && '\n' !in v && (e == "" || e == "\n" || e == "\r\n")
    ensures IsLine(lead + MIME + v + e) && (e != "" ==> Ended(lead + MIME + v + e))
  {
    assert '\n' !in MIME;
    var c, n := lead + MIME + v + e, |lead + MIME + v|;
    forall i | 0 <= i < |c| - 1 ensures c[i] != '\n' {
      if i < |lead| {
        assert c[i] == lead[i];
      } else if i < |lead| + |MIME| {
        assert c[i] == MIME[i - |lead|];
      } else if i < n {
        assert c[i] == v[i - |lead| - |MIME|];
      } else {
        assert c[i] == e[i - n];
      }
    }
  }

  // ---------------------------------------------------------------------------------------------
  // The rules for outbound mail

  lemma MailLine(line: string)
    requires IsLine(line)
    ensures Settles(MAIL, line) && KeepsLine(MAIL, line)
  {
    if !EndsHeaders(line) && !Ignored(line) {
      CleanedLine(line);
    }
  }

  lemma MailLines(lines: seq<string>)
    requires Lined(lines)
    ensures AllSettle(MAIL, lines) && EndsApart(MAIL, lines) && forall i :: 0 <= i < |lines| ==> KeepsLine(MAIL, lines[i])
  {
    forall i | 0 <= i < |lines| ensures Settles(MAIL, lines[i]) && KeepsLine(MAIL, lines[i]) {
      MailLine(lines[i]);
    }
  }

  /** The outbound filter on a text, as the reader and writer see it. */
  function Clean(text: string): string {
    Concat(Filter(MAIL, Lines(text)))
  }

  /** Filtering twice is filtering once. */
  lemma CleanTwice(text: string)
    ensures Clean(Clean(text)) == Clean(text)
  {
    LinesLined(text);
    MailLines(Lines(text));
    CleanTextTwice(MAIL, text);
  }

  /** Nothing but line end characters. */
  predicate BlankLine(line: string) {
    forall i :: 0 <= i < |line| ==> line[i] == '\r' || line[i] == '\n'
  }

  /**
   From the first blank line on the text is untouched, and of the header lines before it those not dropped stay,
   in order.
   */
  lemma CleanKeeps(text: string)
    ensures var lines, n := Lines(text), HeaderEnd(MAIL, Lines(text));
            && (n < |lines| ==> BlankLine(lines[n])) && (forall i :: 0 <= i < n ==> !BlankLine(lines[i]))
            && Filter(MAIL, lines) == Kept(MAIL, lines, 0, n) + lines[n..]
  {
    LinesLined(text);
    MailLines(Lines(text));
    FilterIsKept(MAIL, Lines(text));
  }

  /** The line is of the named field, whatever the case of its letters and the blanks before it. */
  ghost predicate HasField(line: string, name: string) {
    exists n :: 0 <= n <= |line| - |name| && FieldAt(line, n, name)
  }

  ghost predicate FieldAt(line: string, n: nat, name: string)
    requires n + |name| <= |line|
  {
    (forall i :: 0 <= i < n ==> IsBlank(line[i])) && forall i :: 0 <= i < |name| ==> Lower(line[n + i]) == name[i]
  }

  lemma LowerPrefix(rest: string, name: string)
    ensures name <= LowerAll(rest) <==> |name| <= |rest| && forall i :: 0 <= i < |name| ==> Lower(rest[i]) == name[i]
  {
    if |name| <= |rest| && forall i :: 0 <= i < |name| ==> Lower(rest[i]) == name[i] {
      assert name == LowerAll(rest)[..|name|];
    }
    if name <= LowerAll(rest) {
      forall i | 0 <= i < |name| ensures Lower(rest[i]) == name[i] {
        assert LowerAll(rest)[i] == name[i];
      }
    }
  }

  lemma FieldThere(line: string, n: nat, name: string)
    requires name != "" && !IsBlank(name[0]) && n + |name| <= |line| && FieldAt(line, n, name)
    ensures name <= LowerAll(TrimLeft(line))
  {
    var lead, rest := line[..n], line[n..];
    forall i | 0 <= i < |name| ensures Lower(rest[i]) == name[i] {
      assert rest[i] == line[n + i];
    }
    assert !IsBlank(rest[0]) by {
      assert Lower(rest[0]) == name[0];
    }
    PastBlanks(line, n);
    LowerPrefix(rest, name);
  }

  lemma PastBlanks(line: string, n: nat)
    requires n < |line| && (forall i :: 0 <= i < n ==> IsBlank(line[i])) && !IsBlank(line[n])
    ensures TrimLeft(line) == line[n..]
  {
    assert line == line[..n] + line[n..];
    TrimPast(line[..n], line[n..]);
  }

  lemma FieldFound(line: string, name: string)
    requires name <= LowerAll(TrimLeft(line))
    ensures HasField(line, name)
  {
    var rest := TrimLeft(line);
    var n := |line| - |rest|;
    TrimLead(line);
    LowerPrefix(rest, name);
    forall i | 0 <= i < |name| ensures Lower(line[n + i]) == name[i] {
      assert line[n + i] == rest[i];
    }
    assert FieldAt(line, n, name);
  }

  lemma FieldIff(line: string, name: string)
    requires name != "" && !IsBlank(name[0])
    ensures HasField(line, name) <==> name <= LowerAll(TrimLeft(line))
  {
    if HasField(line, name) {
      var n :| 0 <= n <= |line| - |name| && FieldAt(line, n, name);
      FieldThere(line, n, name);
    }
    if name <= LowerAll(TrimLeft(line)) {
      FieldFound(line, name);
    }
  }

  /** The fields that give the sender's machine and software away. */
  ghost predicate Telltale(line: string) {
    || HasField(line, "received:") || HasField(line, "user-agent:") || HasField(line, "x-enigmail:")
    || HasField(line, "x-mailer:") || HasField(line, "x-originating-ip:") || HasField(line, "x-pgp-agent:")
  }

  lemma MatchesOne(lower: string)
    ensures MatchIgnore(lower) <==>
            || "received:" <= lower || "user-agent:" <= lower || "x-enigmail:" <= lower
            || "x-mailer:" <= lower || "x-originating-ip:" <= lower || "x-pgp-agent:" <= lower
  {
    assert MatchIgnore(lower) <==>
           || IGNORE[0] <= lower || IGNORE[1] <= lower || IGNORE[2] <= lower
           || IGNORE[3] <= lower || IGNORE[4] <= lower || IGNORE[5] <= lower;
  }

  /** The filter drops exactly those. */
  lemma IgnoredIff(line: string)
    ensures Ignored(line) <==> Telltale(line)
  {
    TrimLower(line);
    MatchesOne(LowerAll(TrimLeft(line)));
    TelltaleNames(line);
  }

  lemma TelltaleNames(line: string)
    ensures var lower := LowerAll(TrimLeft(line));
            && (HasField(line, "received:") <==> "received:" <= lower)
            && (HasField(line, "user-agent:") <==> "user-agent:" <= lower)
            && (HasField(line, "x-enigmail:") <==> "x-enigmail:" <= lower)
            && (HasField(line, "x-mailer:") <==> "x-mailer:" <= lower)
            && (HasField(line, "x-originating-ip:") <==> "x-originating-ip:" <= lower)
            && (HasField(line, "x-pgp-agent:") <==> "x-pgp-agent:" <= lower)
  {
    FieldIff(line, "received:");
    FieldIff(line, "user-agent:");
    FieldIff(line, "x-enigmail:");
    FieldIff(line, "x-mailer:");
    FieldIff(line, "x-originating-ip:");
    FieldIff(line, "x-pgp-agent:");
  }

  /** No such field is left in the headers. */
  lemma CleanLeavesNoneIgnored(text: string, k: nat)
    requires k < |Filter(MAIL, Lines(text))| && forall i :: 0 <= i <= k ==> !BlankLine(Filter(MAIL, Lines(text))[i])
    ensures !Telltale(Filter(MAIL, Lines(text))[k])
  {
    LinesLined(text);
    MailLines(Lines(text));
    NoneIgnoredLeft(MAIL, Lines(text), k);
    IgnoredIff(Filter(MAIL, Lines(text))[k]);
  }

  /** The line continues the one before it. */
  predicate Continues(line: string) {
    line != "" && (line[0] == ' ' || line[0] == '\t')
  }

  /** Line `i` belongs to the unwanted field that starts at line `j`. */
  ghost predicate BelongsTo(lines: seq<string>, i: nat, j: nat)
    requires i < |lines|
  {
    j <= i && Telltale(lines[j]) && forall k :: j < k <= i ==> Continues(lines[k])
  }

  ghost predicate StartsFor(rules: Rules, lines: seq<string>, i: nat, j: nat)
    requires i < |lines|
  {
    j <= i && rules.ignored(lines[j]) && forall k :: j < k <= i ==> rules.folded(lines[k])
  }

  lemma {:induction false} DroppedStarts(rules: Rules, lines: seq<string>, i: nat)
    requires i < |lines|
    ensures Dropped(rules, lines, i) <==> exists j: nat :: StartsFor(rules, lines, i, j)
  {
    if rules.ignored(lines[i]) {
      assert StartsFor(rules, lines, i, i);
    } else if i > 0 {
      DroppedStarts(rules, lines, i - 1);
      if Dropped(rules, lines, i) {
        var j: nat :| StartsFor(rules, lines, i - 1, j);
        assert StartsFor(rules, lines, i, j);
      }
      if j: nat :| StartsFor(rules, lines, i, j) {
        assert StartsFor(rules, lines, i - 1, j);
      }
    }
  }

  lemma StartsBelongs(lines: seq<string>, i: nat, j: nat)
    requires i < |lines|
    ensures StartsFor(MAIL, lines, i, j) <==> BelongsTo(lines, i, j)
  {
    if j <= i {
      IgnoredIff(lines[j]);
    }
  }

  /** The header lines that go are those of unwanted fields, with their continuation lines, and no others. */
  lemma DroppedIff(lines: seq<string>, i: nat)
    requires i < |lines|
    ensures Dropped(MAIL, lines, i) <==> exists j: nat :: BelongsTo(lines, i, j)
  {
    DroppedStarts(MAIL, lines, i);
    forall j: nat ensures StartsFor(MAIL, lines, i, j) <==> BelongsTo(lines, i, j) {
      StartsBelongs(lines, i, j);
    }
  }

  // ---------------------------------------------------------------------------------------------
  // What becomes of a version line

  lemma {:induction false} FirstWord(v: string, junk: string)
    requires (forall i :: 0 <= i < |v| ==> !IsBlank(v[i])) && (junk == "" || IsBlank(junk[0]))
    ensures UpToBlank(v + junk) == v
  {
    if v == "" {
      assert v + junk == junk;
    } else {
      assert (v + junk)[1..] == v[1..] + junk;
      FirstWord(v[1..], junk);
      assert v == [v[0]] + v[1..];
    }
  }

  lemma VersionOf(name: string, gap: string, v: string, junk: string)
    requires ':' !in name && Blanks(gap) && v != "" && (forall i :: 0 <= i < |v| ==> !IsBlank(v[i]))
    requires junk == "" || IsBlank(junk[0])
    ensures UpToBlank(Value(name + ":" + (gap + (v + junk)))) == v
  {
    AfterColonOf(name, gap + (v + junk));
    TrimPast(gap, v + junk);
    FirstWord(v, junk);
  }

  lemma EolOf(stem: string, e: string)
    requires '\n' !in stem && stem != "" && (e == "" || e == "\n" || e == "\r\n")
    requires e == "\n" ==> stem[|stem| - 1] != '\r'
    ensures Eol(stem + e) == e
  {
    var line, last := stem + e, stem[|stem| - 1];
    assert last in stem && line[|stem| - 1] == last;
    assert e != "" ==> line[|line| - 1] == '\n';
    assert |e| == 2 ==> line[|line| - 2] == '\r';
  }

  lemma NameClear(name: string)
    requires LowerAll(name) == "mime-version"
    ensures name != "" && !IsBlank(name[0]) && ':' !in name && LowerAll(name + ":") == "mime-version:"
  {
    assert |name| == 12;
    forall i | 0 <= i < |name| ensures name[i] != ':' && !IsBlank(name[i]) {
      assert Lower(name[i]) == LowerAll(name)[i];
    }
    LowerConcat(name, ":");
    assert LowerAll(":") == ":";
  }

  lemma NamedIsMime(lead: string, field: string, rest: string)
    requires Blanks(lead) && LowerAll(field) == "mime-version:" && !IsBlank(field[0])
    ensures IsMimeVersion(lead + (field + rest))
  {
    TrimPast(lead, field + rest);
    LowerConcat(field, rest);
  }

  lemma CleanParts(line: string, lead: string, tail: string, v: string, e: string)
    requires line == lead + tail + e && Eol(line) == e && TrimLeft(lead + tail) == tail
    requires UpToBlank(Value(tail)) == v && v != ""
    ensures CleanMimeVersion(line) == lead + MIME + v + e
  {
    FrontOf(lead + tail, e);
    FrontOf(lead, tail);
  }

  lemma FrontOf(a: string, b: string)
    ensures (a + b)[..|a + b| - |b|] == a
  {}

  lemma Regroup(lead: string, field: string, rest: string, e: string)
    ensures lead + (field + rest) + e == lead + (field + (rest + e))
  {}

  /**
   Of a version line only the first word of its value stays, under the canonical field name, behind the same blanks and
   before the same line end.
   */
  lemma VersionRewritten(lead: string, name: string, gap: string, v: string, junk: string, e: string, tail: string)
    requires Blanks(lead) && LowerAll(name) == "mime-version" && Blanks(gap)
    requires v != "" && (forall i :: 0 <= i < |v| ==> !IsBlank(v[i])) && (junk == "" || IsBlank(junk[0]))
    requires tail == name + ":" + (gap + (v + junk)) && '\n' !in lead + tail
    requires (e == "" || e == "\n" || e == "\r\n") && (e == "\n" ==> tail[|tail| - 1] != '\r')
    ensures Cleaned(lead + tail + e) == lead + "Mime-Version: " + v + e
  {
    var stem := lead + tail;
    NameClear(name);
    assert tail[0] == name[0] && stem[|stem| - 1] == tail[|tail| - 1];
    EolOf(stem, e);
    TrimPast(lead, tail);
    VersionOf(name, gap, v, junk);
    CleanParts(stem + e, lead, tail, v, e);
    Regroup(lead, name + ":", gap + (v + junk), e);
    NamedIsMime(lead, name + ":", gap + (v + junk) + e);
  }

  /** A line of any other field stays as it is. */
  lemma OthersStay(line: string)
    requires !HasField(line, "mime-version:")
    ensures Cleaned(line) == line
  {
    FieldIff(line, "mime-version:");
  }
}
