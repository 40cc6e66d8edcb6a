/**
 The outbound privacy filter. The stream is read line by line with one line put back; what it writes is a filter on the
 list of lines: fingerprinting header fields go with their folded lines, the body stays as it is. Texts are byte strings,
 one character to a byte, and letters are folded as ASCII.
 */
module Outclean {

  // ---------------------------------------------------------------------------------------------
  // Lines

  function LineEnd(t: string): (n: nat)
    ensures n <= |t| && (t != "" ==> n > 0) && (forall i :: 0 <= i < n - 1 ==> t[i] != '\n')
    ensures n < |t| ==> n > 0 && t[n - 1] == '\n'
  {
    if t == "" then 0 else if t[0] == '\n' then 1 else 1 + LineEnd(t[1..])
  }

  function Lines(t: string): seq<string> {
    if t == "" then [] else [t[..LineEnd(t)]] + Lines(t[LineEnd(t)..])
  }

  function Concat(lines: seq<string>): string {
    if lines == [] then "" else lines[0] + Concat(lines[1..])
  }

  /** A line: its only line feed, if it has one, at its end. */
  predicate IsLine(l: string) {
    l != "" && forall i :: 0 <= i < |l| - 1 ==> l[i] != '\n'
  }

  predicate Ended(l: string) {
    l != "" && l[|l| - 1] == '\n'
  }

  /** A text cut into lines: only the last one may lack its line feed. */
  ghost predicate Lined(lines: seq<string>) {
    && (forall i :: 0 <= i < |lines| ==> IsLine(lines[i]))
    && (forall i :: 0 <= i < |lines| - 1 ==> Ended(lines[i]))
  }

  lemma {:induction false} LinesLined(t: string)
    ensures Lined(Lines(t))
    decreases |t|
  {
    if t != "" {
      LinesLined(t[LineEnd(t)..]);
    }
  }

  lemma LineEndOf(l: string, rest: string)
    requires IsLine(l) && (rest != "" ==> Ended(l))
    ensures LineEnd(l + rest) == |l|
    decreases |l|
  {
    var t := l + rest;
    if |l| == 1 {
      assert t[0] == l[0];
      if l[0] != '\n' {
        assert t[1..] == "";
      }
    } else {
      assert t[1..] == l[1..] + rest && l[0] != '\n';
      LineEndOf(l[1..], rest);
    }
  }

  lemma {:induction false} LinesConcat(lines: seq<string>)
    requires Lined(lines)
    ensures Lines(Concat(lines)) == lines
  {
    if lines != [] {
      var rest := Concat(lines[1..]);
      LinesConcat(lines[1..]);
      if |lines| == 1 {
        assert rest == "";
      } else {
        assert Ended(lines[0]);
      }
      LineEndOf(lines[0], rest);
      var t := lines[0] + rest;
      assert t[..|lines[0]|] == lines[0] && t[|lines[0]|..] == rest && lines == [lines[0]] + lines[1..];
    }
  }

  // ---------------------------------------------------------------------------------------------
  // What a line is

  function Lower(c: char): char {
    if 'A' <= c <= 'Z' then c - 'A' + 'a' else c
  }

  function LowerAll(s: string): (r: string)
    ensures |r| == |s|
  {
    seq(|s|, i requires 0 <= i < |s| => Lower(s[i]))
  }

  predicate IsBlank(c: char) {
    c == ' ' || c == '\t'
  }

  function TrimLeft(s: string): (r: string)
    ensures |r| <= |s| && r == s[|s| - |r|..]
  {
    if s != "" && IsBlank(s[0]) then TrimLeft(s[1..]) else s
  }

  /** Only line-ending characters. */
  predicate EndsHeaders(line: string) {
    forall i :: 0 <= i < |line| ==> line[i] == '\r' || line[i] == '\n'
  }

  const IGNORE: seq<string> := ["received:", "user-agent:", "x-enigmail:", "x-mailer:", "x-originating-ip:", "x-pgp-agent:"]

  predicate MatchIgnore(lower: string) {
    exists i :: 0 <= i < |IGNORE| && IGNORE[i] <= lower
  }

  predicate Ignored(line: string) {
    MatchIgnore(TrimLeft(LowerAll(line)))
  }

  predicate Folded(line: string) {
    line != "" && IsBlank(line[0])
  }

  predicate IsMimeVersion(line: string) {
    "mime-version:" <= LowerAll(TrimLeft(line))
  }

  function Eol(line: string): (e: string)
    ensures |e| <= |line| && e == line[|line| - |e|..] && (e == "" || e == "\n" || e == "\r\n")
  {
    if !Ended(line) then ""
    else if |line| > 1 && line[|line| - 2] == '\r' then "\r\n"
    else "\n"
  }

  /** What follows the first colon, blanks skipped. */
  function AfterColon(s: string): string {
    if s == "" then s else if s[0] == ':' then TrimLeft(s[1..]) else AfterColon(s[1..])
  }

  function Value(s: string): string {
    if ':' in s then AfterColon(s) else s
  }

  function UpToBlank(s: string): (v: string)
    ensures v <= s && forall i :: 0 <= i < |v| ==> !IsBlank(v[i])
  {
    if s == "" || IsBlank(s[0]) then "" else [s[0]] + UpToBlank(s[1..])
  }

  const MIME: string := "Mime-Version: "

  function CleanMimeVersion(line: string): string {
    var stem := line[..|line| - |Eol(line)|];
    var trimmed := TrimLeft(stem);
    var version := UpToBlank(Value(trimmed));
    if version == "" then line else stem[..|stem| - |trimmed|] + MIME + version + Eol(line)
  }

  function Cleaned(line: string): string {
    if IsMimeVersion(line) then CleanMimeVersion(line) else line
  }

  // ---------------------------------------------------------------------------------------------
  // The filter

  /** How to tell and treat lines. */
  datatype Rules = Rules(ends: string -> bool, ignored: string -> bool, folded: string -> bool, cleaned: string -> string)

  const MAIL: Rules := Rules(EndsHeaders, Ignored, Folded, Cleaned)

  function SkipFolded(rules: Rules, lines: seq<string>): (rest: seq<string>)
    ensures |rest| <= |lines| && rest == lines[|lines| - |rest|..]
  {
    if lines != [] && rules.folded(lines[0]) then SkipFolded(rules, lines[1..]) else lines
  }

  function Filter(rules: Rules, lines: seq<string>): seq<string>
    decreases |lines|
  {
    if lines == [] || rules.ends(lines[0]) then lines
    else if rules.ignored(lines[0]) then Filter(rules, SkipFolded(rules, lines[1..]))
    else [rules.cleaned(lines[0])] + Filter(rules, lines[1..])
  }

  /** A line reader over a text. */
  class LineReader {
    const data: string
    var pos: nat
    ghost var lines: seq<string>

    /** `lines` are the lines not read yet. */
    ghost predicate Valid()
      reads this
    {
      pos <= |data| && lines == Lines(data[pos..])
    }

    constructor (data: string)
      ensures Valid() && lines == Lines(data)
    {
      this.data, pos, lines := data, 0, Lines(data);
      new;
      assert data[0..] == data;
    }

    /** Up to and including the next line feed; at the end, what is left and the end-of-file mark. */
    method ReadString() returns (line: string, eof: bool)
      requires Valid()
      modifies this
      ensures Valid() && eof == !Ended(line) && (eof ==> lines == [])
      ensures if old(lines) == [] then line == "" && lines == [] else line != "" && old(lines) == [line] + lines
    {
      var start := pos;
      while pos < |data| && data[pos] != '\n'
        invariant start <= pos <= |data| && LineEnd(data[start..]) == pos - start + LineEnd(data[pos..])
        invariant lines == old(lines)
      {
        assert data[pos..][1..] == data[pos + 1..];
        pos := pos + 1;
      }
      if pos < |data| {
        pos := pos + 1;
      }
      line := data[start..pos];
      eof := line == "" || line[|line| - 1] != '\n';
      TakeLine(data, start, pos);
      lines := Lines(data[pos..]);
    }
  }

  lemma TakeLine(data: string, start: nat, end: nat)
    requires start <= end <= |data| && LineEnd(data[start..]) == end - start
    ensures start == end ==> Lines(data[start..]) == []
    ensures start < end ==> Lines(data[start..]) == [data[start..end]] + Lines(data[end..])
    ensures !Ended(data[start..end]) ==> Lines(data[end..]) == []
  {
    var t := data[start..];
    assert t[..end - start] == data[start..end] && t[end - start..] == data[end..];
  }

  lemma ConcatFirst(line: string, lines: seq<string>)
    ensures Concat([line] + lines) == line + Concat(lines)
  {
    assert ([line] + lines)[1..] == lines;
  }

  lemma WriteOne(w: string, line: string, more: seq<string>, all: string)
    requires w + Concat([line] + more) == all
    ensures (w + line) + Concat(more) == all
  {
    ConcatFirst(line, more);
    assert (w + line) + Concat(more) == w + (line + Concat(more));
  }

  /** The line put back, if any, and the lines not read yet. */
  function Ahead(pending: string, lines: seq<string>): seq<string> {
    if pending == "" then lines else [pending] + lines
  }

  lemma SkipStep(rules: Rules, next: string, lines: seq<string>)
    requires next == "" ==> lines == []
    ensures next != "" && rules.folded(next) ==>
              SkipFolded(rules, Ahead(next, lines)) == SkipFolded(rules, lines) && |Ahead(next, lines)| == |lines| + 1
    ensures next == "" || !rules.folded(next) ==> SkipFolded(rules, Ahead(next, lines)) == Ahead(next, lines)
  {
    assert ([next] + lines)[1..] == lines;
  }

  lemma AheadOf(before: seq<string>, line: string, lines: seq<string>)
    requires if before == [] then line == "" && lines == [] else line != "" && before == [line] + lines
    ensures Ahead(line, lines) == before
  {}

  /** Skips the folded lines of a dropped field and returns the line that follows them. */
  method DropFolded(r: LineReader, rules: Rules) returns (next: string, eof: bool)
    requires r.Valid()
    modifies r
    ensures r.Valid() && eof == !Ended(next) && (eof ==> r.lines == [])
    ensures Ahead(next, r.lines) == SkipFolded(rules, old(r.lines))
  {
    ghost var ahead := r.lines;
    next, eof := r.ReadString();
    AheadOf(ahead, next, r.lines);
    while next != "" && rules.folded(next)
      invariant r.Valid() && eof == !Ended(next) && (eof ==> r.lines == []) && ahead == Ahead(next, r.lines)
      invariant next == "" ==> r.lines == []
      invariant SkipFolded(rules, ahead) == SkipFolded(rules, old(r.lines))
      decreases |ahead|
    {
      SkipStep(rules, next, r.lines);
      ahead := r.lines;
      next, eof := r.ReadString();
      AheadOf(ahead, next, r.lines);
    }
    SkipStep(rules, next, r.lines);
  }

  /** The lines to write for the lines ahead. */
  function Outgoing(rules: Rules, inHeaders: bool, lines: seq<string>): seq<string> {
    if inHeaders then Filter(rules, lines) else lines
  }

  lemma FilterFirst(rules: Rules, line: string, lines: seq<string>)
    ensures rules.ends(line) ==> Filter(rules, [line] + lines) == [line] + lines
    ensures !rules.ends(line) && rules.ignored(line) ==>
        Filter(rules, [line] + lines) == Filter(rules, SkipFolded(rules, lines))
    ensures !rules.ends(line) && !rules.ignored(line) ==>
        Filter(rules, [line] + lines) == [rules.cleaned(line)] + Filter(rules, lines)
  {
    assert ([line] + lines)[1..] == lines;
  }

  /** The line put back, or else the next one read. */
  method NextLine(r: LineReader, pending: string, pendingEof: bool) returns (line: string, last: bool)
    requires r.Valid() && (pending == "" ==> !pendingEof)
    requires pending != "" ==> pendingEof == !Ended(pending) && (pendingEof ==> r.lines == [])
    modifies r
    ensures r.Valid() && last == !Ended(line) && (last ==> r.lines == [])
    ensures if line == "" then old(Ahead(pending, r.lines)) == [] else old(Ahead(pending, r.lines)) == [line] + r.lines
  {
    if pending != "" || pendingEof {
      return pending, pendingEof;
    }
    line, last := r.ReadString();
  }

  lemma NothingLeft(rules: Rules, inHeaders: bool, w: string, all: string)
    requires w + Concat(Outgoing(rules, inHeaders, [])) == all
    ensures w == all
  {
    assert w + "" == w;
  }

  lemma WriteNext(rules: Rules, inHeaders: bool, w: string, line: string, lines: seq<string>, all: string)
    requires w + Concat(Outgoing(rules, inHeaders, [line] + lines)) == all
    ensures inHeaders && rules.ends(line) ==> (w + line) + Concat(lines) == all
    ensures inHeaders && !rules.ends(line) && rules.ignored(line) ==>
        w + Concat(Filter(rules, SkipFolded(rules, lines))) == all
    ensures inHeaders && !rules.ends(line) && !rules.ignored(line) ==>
        (w + rules.cleaned(line)) + Concat(Filter(rules, lines)) == all
    ensures !inHeaders ==> (w + line) + Concat(lines) == all
  {
    FilterFirst(rules, line, lines);
    if !inHeaders || rules.ends(line) {
      WriteOne(w, line, lines, all);
    } else if !rules.ignored(line) {
      WriteOne(w, rules.cleaned(line), Filter(rules, lines), all);
    }
  }

  /** Copies a message, filtering its header block by the given rules. */
  method FilterTo(r: LineReader, rules: Rules) returns (w: string)
    requires r.Valid()
    modifies r
    ensures r.Valid() && w == Concat(Filter(rules, old(r.lines)))
  {
    w := "";
    var inHeaders, pending, pendingEof := true, "", false;
    ghost var all := Concat(Filter(rules, r.lines));
    while true
      invariant r.Valid() && (pending == "" ==> !pendingEof)
      invariant pending != "" ==> pendingEof == !Ended(pending) && (pendingEof ==> r.lines == [])
      invariant w + Concat(Outgoing(rules, inHeaders, Ahead(pending, r.lines))) == all
      decreases |Ahead(pending, r.lines)|
    {
      ghost var ahead := Ahead(pending, r.lines);
      var line, last := NextLine(r, pending, pendingEof);
      pending, pendingEof := "", false;
      if line == "" { // the end of the input: nothing left to write
        NothingLeft(rules, inHeaders, w, all);
        return;
      }
      WriteNext(rules, inHeaders, w, line, r.lines, all);
      if inHeaders && rules.ends(line) {
        inHeaders := false;
        w := w + line;
      } else if inHeaders && rules.ignored(line) {
        pending, pendingEof := DropFolded(r, rules);
        if pending == "" && pendingEof {
          NothingLeft(rules, inHeaders, w, all);
          return;
        }
        continue;
      } else {
        w := w + if inHeaders then rules.cleaned(line) else line;
      }
      if last {
        NothingLeft(rules, inHeaders, w, all);
        return;
      }
    }
  }

  /** The outbound filter: `FilterTo` by the rules for outbound mail. */
  method OutcleanTo(r: LineReader) returns (w: string)
    requires r.Valid()
    modifies r
    ensures r.Valid() && w == Concat(Filter(MAIL, old(r.lines)))
  {
    w := FilterTo(r, MAIL);
  }
}
