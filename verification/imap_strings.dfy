/**
 IMAP strings (section 4.3 of RFC 3501): quoted or literal, as the encoder writes them and the decoder reads them. Texts
 are byte strings, one character to a byte.
 */
module ImapStrings {
  import opened Options
  import opened NumSetText

  datatype Side = Client | Server

  const MAX_I64 := 0x7FFF_FFFF_FFFF_FFFF
  const QUOTED_LIMIT := 4096

  // ---------------------------------------------------------------------------------------------
  // The written forms

  predicate Escapes(c: char) {
    c == '"' || c == '\\'
  }

  function Escaped(s: string): string {
    if s == "" then "" else (if Escapes(s[0]) then ['\\', s[0]] else [s[0]]) + Escaped(s[1..])
  }

  function QuotedText(s: string): string {
    "\"" + Escaped(s) + "\""
  }

  /** The announcement of a literal. */
  function HeaderText(size: nat, plus: bool): string {
    "{" + Decimal(size) + (if plus then "+" else "") + "}\r\n"
  }

  function LiteralText(s: string, plus: bool): string {
    HeaderText(|s|, plus) + s
  }

  /** Who writes, and what is agreed on. `continues` says the peer answers a continuation request. */
  datatype Mode = Mode(side: Side, quotedUtf8: bool, literalMinus: bool, literalPlus: bool, continues: bool)

  predicate QuotedChar(m: Mode, c: char) {
    c != '\0' && c != '\r' && c != '\n' && (m.quotedUtf8 || c as int <= 127)
  }

  predicate FitsQuoted(m: Mode, s: string) {
    |s| <= QUOTED_LIMIT && forall i :: 0 <= i < |s| ==> QuotedChar(m, s[i])
  }

  /** A client that may not send its literal at once has to ask first. */
  predicate Synchronizes(m: Mode, s: string) {
    m.side == Client && (!m.literalMinus || |s| > QUOTED_LIMIT) && !m.literalPlus
  }

  /** What the encoder writes for `s`, or nothing when it may neither quote nor send a literal. */
  function Wire(m: Mode, s: string): Option<string> {
    if FitsQuoted(m, s) then Some(QuotedText(s))
    else if Synchronizes(m, s) then if m.continues then Some(LiteralText(s, false)) else None
    else Some(LiteralText(s, m.side == Client))
  }

  // ---------------------------------------------------------------------------------------------
  // Encoder

  class Encoder {
    const mode: Mode
    var out: string
    var err: bool
    var literal: bool

    constructor (mode: Mode)
      ensures this.mode == mode && out == "" && !err && !literal
    {
      this.mode, out, err, literal := mode, "", false, false;
    }

    /** Writes unless something failed before; a literal must be complete first. */
    method WriteString(s: string)
      modifies this
      ensures literal == old(literal) && err == (old(err) || old(literal))
      ensures out == if err then old(out) else old(out) + s
    {
      if err {
        return;
      }
      if literal {
        err := true;
        return;
      }
      out := out + s;
    }

    method Quoted(s: string)
      requires !err && !literal
      modifies this
      ensures !err && !literal && out == old(out) + QuotedText(s)
    {
      var sb := "\"";
      for i := 0 to |s|
        invariant sb + Escaped(s[i..]) == "\"" + Escaped(s)
      {
        var ch := s[i];
        assert s[i..][1..] == s[i + 1..];
        var written := if Escapes(ch) then "\\" + [ch] else [ch];
        assert sb + (written + Escaped(s[i + 1..])) == sb + written + Escaped(s[i + 1..]);
        sb := sb + written;
      }
      assert s[|s|..] == "";
      sb := sb + "\"";
      WriteString(sb);
    }

    method ValidQuoted(s: string) returns (ok: bool)
      ensures ok == FitsQuoted(mode, s)
    {
      if |s| > QUOTED_LIMIT {
        return false;
      }
      for i := 0 to |s|
        invariant forall j :: 0 <= j < i ==> QuotedChar(mode, s[j])
      {
        var ch := s[i];
        if ch == '\0' || ch == '\r' || ch == '\n' {
          return false;
        }
        if !mode.quotedUtf8 && ch as int > 127 {
          return false;
        }
      }
      return true;
    }

    /** Announces a literal of the given size and opens it. */
    method Literal(size: nat, sync: bool)
      requires !err && !literal && (sync ==> mode.side == Client && mode.continues)
      modifies this
      ensures !err && literal
      ensures out == old(out) + HeaderText(size, !sync && mode.side == Client)
    {
      WriteString("{");
      WriteString(Decimal(size));
      if !sync && mode.side == Client {
        WriteString("+");
      }
      WriteString("}");
      WriteString("\r\n");
      literal := true;
    }

    method StringLiteral(s: string)
      requires !err && !literal
      modifies this
      ensures !literal && err == (Synchronizes(mode, s) && !mode.continues)
      ensures out == if err then old(out) else old(out) + LiteralText(s, !Synchronizes(mode, s) && mode.side == Client)
    {
      var sync := mode.side == Client && (!mode.literalMinus || |s| > QUOTED_LIMIT) && !mode.literalPlus;
      if sync && !mode.continues {
        err := true;
        return;
      }
      Literal(|s|, sync);
      out := out + s;
      literal := false;
    }

    /** Writes a string in whichever form it allows. */
    method String(s: string)
      requires !err && !literal
      modifies this
      ensures !literal && err == Wire(mode, s).None?
      ensures out == if err then old(out) else old(out) + Wire(mode, s).value
    {
      var quoted := ValidQuoted(s);
      if !quoted {
        StringLiteral(s);
      } else {
        Quoted(s);
      }
    }
  }

  // ---------------------------------------------------------------------------------------------
  // What a text reads as

  /** The rest of a quoted string behind its opening quote: its contents and what follows it. */
  function ReadQuoted(t: string): (r: Option<(string, string)>)
    ensures r.Some? ==> |r.value.1| < |t|
  {
    if t == "" then None
    else if t[0] == '"' then Some(("", t[1..]))
    else if t[0] == '\\' then
      if |t| == 1 then None
      else
        var more := ReadQuoted(t[2..]);
        if more.None? then None else Some(([t[1]] + more.value.0, more.value.1))
    else
      var more := ReadQuoted(t[1..]);
      if more.None? then None else Some(([t[0]] + more.value.0, more.value.1))
  }

  lemma {:induction false} EscapedReads(s: string, more: string)
    ensures ReadQuoted(Escaped(s) + "\"" + more) == Some((s, more))
  {
    var t := Escaped(s) + "\"" + more;
    if s == "" {
      assert t == "\"" + more && t[1..] == more;
    } else {
      var rest := Escaped(s[1..]) + "\"" + more;
      EscapedReads(s[1..], more);
      assert s == [s[0]] + s[1..];
      if Escapes(s[0]) {
        assert t == ['\\', s[0]] + rest && t[2..] == rest;
      } else {
        assert t == [s[0]] + rest && t[1..] == rest;
      }
    }
  }

  function Digits(t: string): (n: nat)
    ensures n <= |t| && AllDigits(t[..n]) && (n < |t| ==> !IsDigit(t[n]))
  {
    if t == "" || !IsDigit(t[0]) then 0
    else
      var n := Digits(t[1..]);
      assert t[..n + 1] == [t[0]] + t[1..][..n];
      1 + n
  }

  function Skip(t: string, c: char): (r: string)
    ensures |r| <= |t|
  {
    if t != "" && t[0] == c then t[1..] else t
  }

  /** A line end: a stray space and a missing carriage return are forgiven. */
  function ReadLineEnd(t: string): (r: Option<string>)
    ensures r.Some? ==> |r.value| < |t|
  {
    var u := Skip(Skip(t, ' '), '\r');
    if u != "" && u[0] == '\n' then Some(u[1..]) else None
  }

  datatype Header = Header(size: nat, nonSync: bool, rest: string)

  /** The end of a literal's announcement: closing brace and line end; only a server takes a plus sign before them. */
  function ReadClose(t: string, side: Side): (r: Option<(bool, string)>)
    ensures r.Some? ==> |r.value.1| < |t|
  {
    var nonSync := side == Server && t != "" && t[0] == '+';
    var u := if nonSync then t[1..] else t;
    if u == "" || u[0] != '}' then None
    else
      var rest := ReadLineEnd(u[1..]);
      if rest.None? then None else Some((nonSync, rest.value))
  }

  /** A number in 63 bits and what follows it, which is not nothing. */
  function ReadNumber(t: string): (r: Option<(nat, string)>)
    ensures r.Some? ==> 0 < |r.value.1| < |t|
  {
    var n := Digits(t);
    if n == 0 || n == |t| || Value(t[..n]) > MAX_I64 then None else Some((Value(t[..n]), t[n..]))
  }

  /** The rest of a literal's announcement behind its opening brace. */
  function ReadHeader(t: string, side: Side): (r: Option<Header>)
    ensures r.Some? ==> |r.value.rest| < |t|
  {
    var size := ReadNumber(t);
    if size.None? then None
    else
      var close := ReadClose(size.value.1, side);
      if close.None? then None else Some(Header(size.value.0, close.value.0, close.value.1))
  }

  /** The bytes of a literal: as many as announced, or all there are. */
  function Taken(size: nat, t: string): (n: nat)
    ensures n <= |t|
  {
    if size <= |t| then size else |t|
  }

  /** `sb` has been read of the quoted string `all`, and `t` is left of it. */
  ghost predicate QuotedSoFar(all: string, sb: string, t: string) {
    var r := ReadQuoted(t);
    if r.None? then ReadQuoted(all).None? else ReadQuoted(all) == Some((sb + r.value.0, r.value.1))
  }

  lemma QuotedStart(all: string)
    ensures QuotedSoFar(all, "", all)
  {
    if ReadQuoted(all).Some? {
      assert "" + ReadQuoted(all).value.0 == ReadQuoted(all).value.0;
    }
  }

  lemma QuotedStep(all: string, sb: string, t: string)
    requires QuotedSoFar(all, sb, t) && t != "" && t[0] != '"'
    ensures t[0] != '\\' ==> QuotedSoFar(all, sb + [t[0]], t[1..])
    ensures t[0] == '\\' && |t| > 1 ==> QuotedSoFar(all, sb + [t[1]], t[2..])
  {
    var escaped := t[0] == '\\';
    if !escaped || |t| > 1 {
      var c, more := if escaped then t[1] else t[0], ReadQuoted(if escaped then t[2..] else t[1..]);
      if more.Some? {
        assert sb + ([c] + more.value.0) == sb + [c] + more.value.0;
      }
    }
  }

  // ---------------------------------------------------------------------------------------------
  // Decoder

  class Decoder {
    const data: string
    const side: Side
    const maxSize: int
    const accepts: (nat, bool) -> bool
    var pos: nat
    var readBytes: int
    var err: bool
    var literal: bool

    ghost predicate Valid()
      reads this
    {
      pos <= |data|
    }

    ghost function Rest(): string
      requires Valid()
      reads this
    {
      data[pos..]
    }

    /** Whether one more byte may be read, and whether all bytes before position `end` may. */
    predicate MayRead()
      reads this
    {
      maxSize <= 0 || readBytes <= maxSize
    }

    ghost predicate RoomTo(end: int)
      reads this
    {
      maxSize <= 0 || readBytes - pos + end - 1 <= maxSize
    }

    constructor (data: string, side: Side, maxSize: int, accepts: (nat, bool) -> bool)
      ensures Valid() && Rest() == data && !err && !literal && readBytes == 0
      ensures this.data == data && this.side == side && this.maxSize == maxSize && this.accepts == accepts
    {
      this.data, this.side, this.maxSize, this.accepts := data, side, maxSize, accepts;
      pos, readBytes, err, literal := 0, 0, false, false;
    }

    method ReadByte() returns (b: Option<char>)
      requires Valid() && !literal
      modifies this
      ensures Valid() && !literal && readBytes - pos == old(readBytes - pos)
      ensures b.Some? <==> old(MayRead()) && old(Rest()) != ""
      ensures b.Some? ==> b.value == old(Rest())[0] && Rest() == old(Rest())[1..] && err == old(err)
      ensures b.None? ==> pos == old(pos) && err
    {
      if maxSize > 0 && readBytes > maxSize {
        err := true;
        return None;
      }
      if pos == |data| {
        err := true;
        return None;
      }
      b := Some(data[pos]);
      pos, readBytes := pos + 1, readBytes + 1;
    }

    method Unread()
      requires Valid() && !literal && pos > 0
      modifies this
      ensures Valid() && !literal && readBytes - pos == old(readBytes - pos) && pos == old(pos) - 1 && err == old(err)
    {
      pos, readBytes := pos - 1, readBytes - 1;
    }

    method AcceptByte(want: char) returns (ok: bool)
      requires Valid() && !literal
      modifies this
      ensures Valid() && !literal && readBytes - pos == old(readBytes - pos)
      ensures ok <==> old(MayRead()) && old(Rest()) != "" && old(Rest())[0] == want
      ensures pos == if ok then old(pos) + 1 else old(pos)
      ensures old(MayRead()) && old(Rest()) != "" ==> err == old(err)
      ensures !(old(MayRead()) && old(Rest()) != "") ==> err
    {
      var got := ReadByte();
      if got.None? {
        return false;
      }
      if got.value != want {
        Unread();
        return false;
      }
      return true;
    }

    /** A quoted string. On failure behind the quote nothing more can be read. */
    method Quoted() returns (got: Option<string>)
      requires Valid() && !literal
      modifies this
      ensures Valid() && !literal && readBytes - pos == old(readBytes - pos)
      ensures var t := old(Rest());
              if t == "" || t[0] != '"' then got == None && pos == old(pos) && (old(MayRead()) && t != "" ==> err == old(err))
              else
                var r := ReadQuoted(t[1..]);
                && (got.Some? <==> r.Some? && old(RoomTo(|data| - |r.value.1|)))
                && (got.Some? ==> got.value == r.value.0 && Rest() == r.value.1 && err == old(err))
                && (got.None? ==> Rest() == "" || !MayRead())
    {
      ghost var t := Rest();
      var open := AcceptByte('"');
      if !open {
        return None;
      }
      var sb := "";
      ghost var behind := t[1..];
      assert Rest() == behind;
      QuotedStart(behind);
      while true
        invariant Valid() && !literal && readBytes - pos == old(readBytes - pos) && err == old(err) && pos > old(pos)
        invariant QuotedSoFar(behind, sb, Rest())
        decreases |data| - pos
      {
        ghost var now := Rest();
        var ch := ReadByte();
        if ch.None? {
          return None;
        }
        if ch.value == '"' {
          assert sb + "" == sb;
          return Some(sb);
        }
        QuotedStep(behind, sb, now);
        if ch.value == '\\' {
          ch := ReadByte();
          if ch.None? {
            return None;
          }
          assert Rest() == now[2..];
        }
        sb := sb + [ch.value];
      }
    }

    /** The digits ahead; the byte behind them decides where they end, so there has to be one. */
    method NumberStr() returns (ok: bool, sb: string)
      requires Valid() && !literal
      modifies this
      ensures Valid() && !literal && readBytes - pos == old(readBytes - pos)
      ensures var t, n := old(Rest()), Digits(old(Rest()));
              && (ok <==> n < |t| && old(RoomTo(pos + n + 1)))
              && (ok ==> sb == t[..n] && Rest() == t[n..] && err == old(err))
    {
      ghost var t, n := Rest(), Digits(Rest());
      var start := pos;
      ok, sb := false, "";
      while true
        invariant Valid() && !literal && readBytes - pos == old(readBytes - pos) && err == old(err)
        invariant start <= pos <= start + n && sb == data[start..pos]
        decreases |data| - pos
      {
        assert pos < |data| ==> data[pos] == t[pos - start];
        assert pos < start + n ==> IsDigit(t[..n][pos - start]);
        var ch := ReadByte();
        if ch.None? {
          return;
        }
        if !IsDigit(ch.value) {
          Unread();
          assert sb == t[..n] && Rest() == t[n..];
          return true, sb;
        }
        sb := sb + [ch.value];
      }
    }

    method Number64() returns (got: Option<nat>)
      requires Valid() && !literal
      modifies this
      ensures Valid() && !literal && readBytes - pos == old(readBytes - pos)
      ensures var r := ReadNumber(old(Rest()));
              && (got.Some? <==> r.Some? && old(RoomTo(|data| - |r.value.1| + 1)))
              && (got.Some? ==> r.value == (got.value, Rest()) && err == old(err))
    {
      var ok, sb := NumberStr();
      if !ok || sb == "" || Value(sb) > MAX_I64 {
        return None;
      }
      got := Some(Value(sb));
    }

    method LineEnd() returns (ok: bool)
      requires Valid() && !literal
      modifies this
      ensures Valid() && !literal && readBytes - pos == old(readBytes - pos)
      ensures var r := ReadLineEnd(old(Rest()));
              && (ok <==> r.Some? && old(RoomTo(|data| - |r.value|)))
              && (ok ==> Rest() == r.value && err == old(err))
    {
      var space := AcceptByte(' ');
      var cr := AcceptByte('\r');
      ok := AcceptByte('\n');
    }

    method Close() returns (nonSync: Option<bool>)
      requires Valid() && !literal
      modifies this
      ensures Valid() && !literal && readBytes - pos == old(readBytes - pos)
      ensures var r := ReadClose(old(Rest()), side);
              && (nonSync.Some? <==> r.Some? && old(RoomTo(|data| - |r.value.1|)))
              && (nonSync.Some? ==> nonSync.value == r.value.0 && Rest() == r.value.1 && err == old(err))
    {
      var plus := false;
      if side == Server {
        plus := AcceptByte('+');
      }
      ghost var u := Rest();
      var close := AcceptByte('}');
      if !close {
        err := true;
        return None;
      }
      assert Rest() == u[1..];
      var end := LineEnd();
      if !end {
        err := true;
        return None;
      }
      nonSync := Some(plus);
    }

    /** The announcement of a literal, which is then open. */
    method LiteralHeader() returns (h: Option<(nat, bool)>)
      requires Valid() && !literal
      modifies this
      ensures Valid() && readBytes - pos == old(readBytes - pos) && literal == h.Some?
      ensures var t := old(Rest());
              if t == "" || t[0] != '{' then h == None && pos == old(pos)
              else
                var r := ReadHeader(t[1..], side);
                && (h.Some? <==> r.Some? && old(RoomTo(|data| - |r.value.rest|)))
                && (h.Some? ==> h.value == (r.value.size, r.value.nonSync) && Rest() == r.value.rest && err == old(err))
    {
      var open := AcceptByte('{');
      if !open {
        return None;
      }
      assert Rest() == old(Rest())[1..];
      var size := Number64();
      if size.None? {
        err := true;
        return None;
      }
      var nonSync := Close();
      if nonSync.None? {
        return None;
      }
      literal := true;
      h := Some((size.value, nonSync.value));
    }

    /** A literal: its bytes are handed over, and counted against no limit but the caller's. */
    method Literal() returns (got: Option<string>)
      requires Valid() && !literal
      modifies this
      ensures Valid() && !literal
      ensures var t := old(Rest());
              if t == "" || t[0] != '{' then got == None && pos == old(pos)
              else
                var r := ReadHeader(t[1..], side);
                && (got.Some? <==> r.Some? && old(RoomTo(|data| - |r.value.rest|)) && accepts(r.value.size, r.value.nonSync))
                && (got.Some? ==> var n := Taken(r.value.size, r.value.rest);
                                  got.value == r.value.rest[..n] && Rest() == r.value.rest[n..] && err == old(err))
    {
      var h := LiteralHeader();
      if h.None? {
        return None;
      }
      literal := false;
      if !accepts(h.value.0, h.value.1) {
        return None;
      }
      var text := TakeBytes(h.value.0);
      got := Some(text);
    }

    /** Up to `size` bytes past the limit's count. */
    method TakeBytes(size: nat) returns (text: string)
      requires Valid() && !literal
      modifies this`pos
      ensures Valid() && text == old(Rest())[..Taken(size, old(Rest()))] &&
          Rest() == old(Rest())[Taken(size, old(Rest()))..]
    {
      ghost var rest := Rest();
      var n := Taken(size, data[pos..]);
      text := data[pos..pos + n];
      pos := pos + n;
      assert rest[..n] == text && rest[n..] == Rest();
    }

    /** A string in either form. */
    method String() returns (got: Option<string>)
      requires Valid() && !literal
      modifies this
      ensures Valid() && !literal
      ensures var r := ReadString(old(Rest()), side, accepts);
              && (got.Some? <==> r.Some? && old(RoomTo(|data| - |r.value.rest|)))
              && (got.Some? ==> got.value == r.value.text && Rest() == r.value.more && err == old(err))
    {
      got := Quoted();
      if got.Some? {
        return;
      }
      got := Literal();
    }
  }

  /** A string read: its text, the input behind its framing, and the input behind all of it. */
  datatype StringRead = StringRead(text: string, rest: string, more: string)

  /** What a text reads as: a quoted string, or a literal the caller accepts. */
  function ReadString(t: string, side: Side, accepts: (nat, bool) -> bool): Option<StringRead> {
    if t == "" then None
    else if t[0] == '"' then
      var r := ReadQuoted(t[1..]);
      if r.None? then None else Some(StringRead(r.value.0, r.value.1, r.value.1))
    else if t[0] == '{' then
      var h := ReadHeader(t[1..], side);
      if h.None? || !accepts(h.value.size, h.value.nonSync) then None
      else
        var n := Taken(h.value.size, h.value.rest);
        Some(StringRead(h.value.rest[..n], h.value.rest, h.value.rest[n..]))
    else None
  }

  // ---------------------------------------------------------------------------------------------
  // Round trip

  lemma {:induction false} DigitsOf(d: string, t: string)
    requires AllDigits(d) && (t == "" || !IsDigit(t[0]))
    ensures Digits(d + t) == |d|
  {
    if d == "" {
      assert d + t == t;
    } else {
      assert (d + t)[1..] == d[1..] + t;
      DigitsOf(d[1..], t);
    }
  }

  lemma NumberReads(n: nat, t: string)
    requires n <= MAX_I64 && t != "" && !IsDigit(t[0])
    ensures ReadNumber(Decimal(n) + t) == Some((n, t))
  {
    DecimalReads(n);
    DigitsOf(Decimal(n), t);
    assert (Decimal(n) + t)[..|Decimal(n)|] == Decimal(n) && (Decimal(n) + t)[|Decimal(n)|..] == t;
  }

  lemma CloseReads(plus: bool, side: Side, rest: string)
    ensures ReadClose((if plus then "+" else "") + "}\r\n" + rest, side) ==
            if plus && side == Client then None else Some((plus, rest))
  {
    var tail := "}\r\n" + rest;
    assert tail[1..] == "\r\n" + rest;
    var line := "\r\n" + rest;
    assert line[1..] == "\n" + rest && ("\n" + rest)[1..] == rest;
    assert ReadLineEnd(line) == Some(rest);
    if plus {
      assert "+" + "}\r\n" + rest == "+" + tail && ("+" + tail)[1..] == tail;
    } else {
      assert "" + "}\r\n" + rest == tail;
    }
  }

  lemma Reassociate(a: string, b: string, c: string, d: string, e: string)
    ensures a + b + c + d + e == a + (b + (c + d + e))
  {}

  /** A literal's announcement reads back, except that a client does not take the plus sign. */
  lemma HeaderReads(size: nat, plus: bool, side: Side, rest: string)
    requires size <= MAX_I64
    ensures HeaderText(size, plus) + rest != "" && (HeaderText(size, plus) + rest)[0] == '{'
    ensures ReadHeader((HeaderText(size, plus) + rest)[1..], side) ==
            if plus && side == Client then None else Some(Header(size, plus, rest))
  {
    var close := (if plus then "+" else "") + "}\r\n" + rest;
    Reassociate("{", Decimal(size), if plus then "+" else "", "}\r\n", rest);
    assert ("{" + (Decimal(size) + close))[1..] == Decimal(size) + close;
    NumberReads(size, close);
    CloseReads(plus, side, rest);
  }

  lemma QuotedTextReads(s: string, more: string, side: Side, accepts: (nat, bool) -> bool)
    ensures ReadString(QuotedText(s) + more, side, accepts) == Some(StringRead(s, more, more))
  {
    var t := QuotedText(s) + more;
    assert t[0] == '"' && t[1..] == Escaped(s) + "\"" + more;
    EscapedReads(s, more);
  }

  /** A literal reads back exactly when the reader takes its form and accepts its size. */
  lemma LiteralReadsIff(s: string, plus: bool, more: string, side: Side, accepts: (nat, bool) -> bool)
    requires |s| <= MAX_I64
    ensures var r := ReadString(LiteralText(s, plus) + more, side, accepts);
            && (r.Some? <==> !(plus && side == Client) && accepts(|s|, plus))
            && (r.Some? ==> r.value == StringRead(s, s + more, more))
  {
    assert LiteralText(s, plus) + more == HeaderText(|s|, plus) + (s + more);
    HeaderReads(|s|, plus, side, s + more);
    assert (s + more)[..|s|] == s && (s + more)[|s|..] == more;
  }

  function Other(side: Side): Side {
    if side == Client then Server else Client
  }

  /**
   Whatever the encoder writes for a string, quoted or literal, the peer's decoder reads as that string, leaving exactly
   the input that follows, provided it accepts literals of that size.
   */
  lemma StringRoundTrip(m: Mode, s: string, more: string, accepts: (nat, bool) -> bool)
    requires |s| <= MAX_I64 && Wire(m, s).Some? &&
        (FitsQuoted(m, s) || accepts(|s|, m.side == Client && !Synchronizes(m, s)))
    ensures var r := ReadString(Wire(m, s).value + more, Other(m.side), accepts);
            r.Some? && r.value.text == s && r.value.more == more
  {
    if FitsQuoted(m, s) {
      QuotedTextReads(s, more, Other(m.side), accepts);
    } else {
      LiteralReadsIff(s, m.side == Client && !Synchronizes(m, s), more, Other(m.side), accepts);
    }
  }

  /** A literal cut short by the end of the input is read as if it were whole, by a reader that accepts its size. */
  lemma CutLiteralReads(s: string, n: nat, plus: bool, side: Side, accepts: (nat, bool) -> bool)
    requires n <= |s| <= MAX_I64 && !(plus && side == Client)
    ensures HeaderText(|s|, plus) + s[..n] <= LiteralText(s, plus)
    ensures ReadString(HeaderText(|s|, plus) + s[..n], side, accepts) ==
            if accepts(|s|, plus) then Some(StringRead(s[..n], s[..n], "")) else None
  {
    CutConcat(HeaderText(|s|, plus), s, n);
    ShortBodyReads(|s|, s[..n], plus, side, accepts);
  }

  lemma ShortBodyReads(size: nat, cut: string, plus: bool, side: Side, accepts: (nat, bool) -> bool)
    requires |cut| <= size <= MAX_I64 && !(plus && side == Client)
    ensures ReadString(HeaderText(size, plus) + cut, side, accepts) ==
            if accepts(size, plus) then Some(StringRead(cut, cut, "")) else None
  {
    HeaderReads(size, plus, side, cut);
    assert Taken(size, cut) == |cut| && cut[..|cut|] == cut && cut[|cut|..] == "";
  }

  lemma CutConcat(h: string, s: string, n: nat)
    requires n <= |s|
    ensures h + s[..n] <= h + s && (h + s)[..|h| + n] == h + s[..n]
  {
    assert (h + s)[..|h| + n] == h + s[..n];
  }

  /** A quoted string wants its closing quote. */
  lemma {:induction false} CutQuotedRefused(s: string, k: nat)
    requires k <= |Escaped(s)|
    ensures ReadQuoted(Escaped(s)[..k]).None?
  {
    var t := Escaped(s)[..k];
    if k > 0 {
      var width := if Escapes(s[0]) then 2 else 1;
      if width <= k {
        assert t[width..] == Escaped(s[1..])[..k - width];
        CutQuotedRefused(s[1..], k - width);
      }
    }
  }

  lemma CutCloseRefused(plus: bool, side: Side, j: nat)
    requires j < |(if plus then "+" else "") + "}\r\n"|
    ensures ReadClose(((if plus then "+" else "") + "}\r\n")[..j], side).None?
  {
    var t := ((if plus then "+" else "") + "}\r\n")[..j];
    if plus {
      assert t == "+}\r"[..j] && (j > 0 ==> t[1..] == "}\r"[..j - 1]);
      assert j > 1 ==> t[1..][1..] == "\r"[..j - 2];
    } else {
      assert t == "}\r"[..j] && (j > 0 ==> t[1..] == "\r"[..j - 1]);
    }
  }

  lemma AllDigitsRefused(d: string)
    requires AllDigits(d)
    ensures ReadNumber(d).None?
  {
    assert d + "" == d;
    DigitsOf(d, "");
  }

  /** An announcement wants its digits, its brace and its line end. */
  lemma CutHeaderRefused(size: nat, plus: bool, side: Side, k: nat)
    requires size <= MAX_I64 && 0 < k < |HeaderText(size, plus)|
    ensures ReadHeader(HeaderText(size, plus)[1..k], side).None?
  {
    var d, close, t := Decimal(size), (if plus then "+" else "") + "}\r\n", HeaderText(size, plus)[1..k];
    DecimalReads(size);
    assert HeaderText(size, plus) == "{" + (d + close);
    if k - 1 <= |d| {
      assert t == d[..k - 1];
      AllDigitsRefused(t);
    } else {
      var j := k - 1 - |d|;
      assert t == d + close[..j];
      NumberReads(size, close[..j]);
      CutCloseRefused(plus, side, j);
    }
  }

  lemma CutQuotedTextRefused(s: string, k: nat, side: Side, accepts: (nat, bool) -> bool)
    requires k < |QuotedText(s)|
    ensures ReadString(QuotedText(s)[..k], side, accepts).None?
  {
    var t := QuotedText(s)[..k];
    if k > 0 {
      assert t[0] == '"' && t[1..] == Escaped(s)[..k - 1];
      CutQuotedRefused(s, k - 1);
    }
  }

  /** A cut literal reads as its announcement does. */
  lemma CutByHeader(header: string, s: string, k: nat, h: Header, side: Side, accepts: (nat, bool) -> bool)
    requires header != "" && header[0] == '{' && k <= |header + s|
    requires 0 < k < |header| ==> ReadHeader(header[1..k], side).None?
    requires |header| <= k ==> ReadHeader((header + s[..k - |header|])[1..], side) == Some(h)
    ensures ReadString((header + s)[..k], side, accepts).Some? <==> |header| <= k && accepts(h.size, h.nonSync)
  {
    var t := (header + s)[..k];
    if 0 < k < |header| {
      assert t[1..] == header[1..k];
    } else if |header| <= k {
      assert t == header + s[..k - |header|];
    }
  }

  lemma CutLiteralTextIff(s: string, plus: bool, k: nat, side: Side, accepts: (nat, bool) -> bool)
    requires |s| <= MAX_I64 && k < |LiteralText(s, plus)| && !(plus && side == Client)
    ensures ReadString(LiteralText(s, plus)[..k], side, accepts).Some? <==>
            |HeaderText(|s|, plus)| <= k && accepts(|s|, plus)
  {
    var header, h := HeaderText(|s|, plus), Header(|s|, plus, "");
    if k < |header| {
      if 0 < k {
        CutHeaderRefused(|s|, plus, side, k);
      }
    } else {
      h := Header(|s|, plus, s[..k - |header|]);
      HeaderReads(|s|, plus, side, h.rest);
    }
    CutByHeader(header, s, k, h, side, accepts);
  }

  /**
   What the peer makes of a written string that the end of the input cuts short: it takes the cut for a whole string
   exactly when a literal was written, all of its announcement came through, and it accepts literals of that size.
   */
  lemma CutReadsIff(m: Mode, s: string, k: nat, accepts: (nat, bool) -> bool)
    requires |s| <= MAX_I64 && Wire(m, s).Some? && k < |Wire(m, s).value|
    ensures var plus := m.side == Client && !Synchronizes(m, s);
            ReadString(Wire(m, s).value[..k], Other(m.side), accepts).Some? <==>
            !FitsQuoted(m, s) && |HeaderText(|s|, plus)| <= k && accepts(|s|, plus)
  {
    if FitsQuoted(m, s) {
      CutQuotedTextRefused(s, k, Other(m.side), accepts);
    } else {
      CutLiteralTextIff(s, m.side == Client && !Synchronizes(m, s), k, Other(m.side), accepts);
    }
  }

  // ---------------------------------------------------------------------------------------------
  // What may stand on the wire

  /** Quotes and backslashes, and only they, get a backslash before them. */
  lemma EscapedOne(c: char)
    ensures Escaped([c]) == if c == '"' || c == '\\' then ['\\', c] else [c]
  {
    assert [c][1..] == "";
  }

  lemma {:induction false} EscapedConcat(a: string, b: string)
    ensures Escaped(a + b) == Escaped(a) + Escaped(b)
  {
    if a == "" {
      assert a + b == b;
    } else {
      assert (a + b)[1..] == a[1..] + b;
      EscapedConcat(a[1..], b);
    }
  }

  lemma {:induction false} EscapedChars(s: string, k: nat)
    requires k < |Escaped(s)|
    ensures Escaped(s)[k] == '\\' || Escaped(s)[k] in s
  {
    var width := if Escapes(s[0]) then 2 else 1;
    if width <= k {
      EscapedChars(s[1..], k - width);
    }
  }

  /** A quoted string is one line of text: no CR, LF or NUL, and bytes above 127 only where UTF-8 was agreed on. */
  lemma QuotedIsOneLine(m: Mode, s: string, k: nat)
    requires FitsQuoted(m, s) && k < |QuotedText(s)|
    ensures var c := QuotedText(s)[k]; c != '\r' && c != '\n' && c != '\0' && (c as int <= 127 || m.quotedUtf8)
    ensures |s| <= 4096
  {
    var c := QuotedText(s)[k];
    if 0 < k < |QuotedText(s)| - 1 {
      assert c == Escaped(s)[k - 1];
      EscapedChars(s, k - 1);
      if c in s {
        var i :| 0 <= i < |s| && s[i] == c;
        assert QuotedChar(m, s[i]);
      }
    }
  }

  /**
   A literal that does not wait is sent by a client only where LITERAL+ was agreed on, or LITERAL- and it has at most
   4096 bytes (RFC 7888), and then says so with a plus sign; otherwise it is sent only to a peer that answered. A server
   never waits and never writes the sign.
   */
  lemma LiteralIsAgreed(m: Mode, s: string)
    requires !FitsQuoted(m, s)
    ensures var plus := m.side == Client && (m.literalPlus || (m.literalMinus && |s| <= 4096));
            && (m.side == Client && !plus && !m.continues ==> Wire(m, s).None?)
            && (m.side == Server || plus || m.continues ==>
                  Wire(m, s) == Some("{" + Decimal(|s|) + (if plus then "+" else "") + "}\r\n" + s))
  {}
}
