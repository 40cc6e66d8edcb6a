/**
 The archive stream: a magic, KV and blob records, an end marker and a manifest, with big-endian lengths. Reading what
 was written gives the records back, and a stream that stops early is recognised wherever it stops.
 */
module BackupFormat {
  import opened ByteKeys
  import opened Options

  const MAGIC: Bytes := [0x4D, 0x5A, 0x42, 0x41, 0x43, 0x4B, 0x01]

  const REC_KV: Byte := 0x6B
  const REC_BLOB: Byte := 0x62
  const REC_END: Byte := 0x78
  const REC_MANIFEST: Byte := 0x6D

  const U32 := 0x1_0000_0000
  const I64 := 0x8000_0000_0000_0000

  /** A record. `size` is the framed size of a body, a signed 64-bit number; nothing is read for a negative one. */
  datatype Item =
    | Entry(key: Bytes, value: Bytes)
    | Body(id: Bytes, size: int, content: Bytes)

  function Int64(n: nat): int {
    if n < I64 then n else n - 2 * I64
  }

  function Joined(parts: seq<Bytes>): Bytes {
    if parts == [] then [] else parts[0] + Joined(parts[1..])
  }

  /** The pieces of a record: type, two lengths, name and contents. */
  function Parts(item: Item): (parts: seq<Bytes>)
    ensures |parts| == 5
  {
    match item
    case Entry(k, v) => [[REC_KV], BigEndian(|k|, 4), BigEndian(|v|, 4), k, v]
    case Body(id, _, content) => [[REC_BLOB], BigEndian(|id|, 4), BigEndian(|content|, 8), id, content]
  }

  function EncodeItem(item: Item): Bytes {
    Joined(Parts(item))
  }

  lemma JoinedOne(a: Bytes, more: seq<Bytes>)
    ensures Joined([a] + more) == a + Joined(more)
  {
    assert ([a] + more)[1..] == more;
  }

  lemma JoinedFive(a: Bytes, b: Bytes, c: Bytes, d: Bytes, e: Bytes)
    ensures Joined([a, b, c, d, e]) == a + b + c + d + e
  {
    JoinedOne(e, []);
    JoinedOne(d, [e] + []);
    JoinedOne(c, [d] + ([e] + []));
    JoinedOne(b, [c] + ([d] + ([e] + [])));
    JoinedOne(a, [b] + ([c] + ([d] + ([e] + []))));
    assert [a, b, c, d, e] == [a] + ([b] + ([c] + ([d] + ([e] + []))));
  }

  lemma EncodedEntry(k: Bytes, v: Bytes)
    ensures EncodeItem(Entry(k, v)) == [REC_KV] + BigEndian(|k|, 4) + BigEndian(|v|, 4) + k + v
  {
    JoinedFive([REC_KV], BigEndian(|k|, 4), BigEndian(|v|, 4), k, v);
  }

  lemma EncodedBody(id: Bytes, size: int, content: Bytes)
    ensures EncodeItem(Body(id, size, content)) == [REC_BLOB] + BigEndian(|id|, 4) + BigEndian(|content|, 8) + id + content
  {
    JoinedFive([REC_BLOB], BigEndian(|id|, 4), BigEndian(|content|, 8), id, content);
  }

  function Encoded(items: seq<Item>): Bytes {
    if items == [] then [] else EncodeItem(items[0]) + Encoded(items[1..])
  }

  function ManifestRecord(raw: Bytes): Bytes {
    [REC_MANIFEST] + BigEndian(|raw|, 4) + raw
  }

  /** The bytes the checksum covers. */
  function Payload(items: seq<Item>): Bytes {
    Encoded(items) + [REC_END]
  }

  function Archive(items: seq<Item>, raw: Bytes): Bytes {
    MAGIC + Payload(items) + ManifestRecord(raw)
  }

  // ---------------------------------------------------------------------------------------------
  // Reading

  datatype Step = Got(item: Item, rest: Bytes) | End(rest: Bytes) | Cut | Unknown(typ: Byte)

  /** The first `n` bytes and what follows, or nothing when the stream is shorter. */
  function Chop(s: Bytes, n: nat): Option<(Bytes, Bytes)> {
    if |s| < n then None else Some((s[..n], s[n..]))
  }

  /** The rest of an entry whose type byte has been read. */
  function NextEntry(s: Bytes): (r: Step)
    ensures r.Cut? || (r.Got? && r.item.Entry? && |r.rest| < |s|)
  {
    var header := Chop(s, 8);
    if header.None? then Cut
    else
      var k := Chop(header.value.1, Number(header.value.0[..4]));
      if k.None? then Cut
      else
        var v := Chop(k.value.1, Number(header.value.0[4..]));
        if v.None? then Cut else Got(Entry(k.value.0, v.value.0), v.value.1)
  }

  function NextBody(s: Bytes): (r: Step)
    ensures r.Cut? || (r.Got? && r.item.Body? && |r.rest| < |s|)
  {
    var header := Chop(s, 12);
    if header.None? then Cut
    else
      var id, size := Chop(header.value.1, Number(header.value.0[..4])), Int64(Number(header.value.0[4..]));
      if id.None? then Cut
      else
        var content := Chop(id.value.1, Length(size));
        if content.None? then Cut else Got(Body(id.value.0, size, content.value.0), content.value.1)
  }

  /** How many bytes a framed size makes the reader take. */
  function Length(size: int): nat {
    if size < 0 then 0 else size
  }

  /** One record read from the head of `s`. */
  function Next(s: Bytes): (r: Step)
    ensures r.Got? ==> |r.rest| < |s|
  {
    if s == [] then Cut
    else if s[0] == REC_KV then NextEntry(s[1..])
    else if s[0] == REC_BLOB then NextBody(s[1..])
    else if s[0] == REC_END then End(s[1..])
    else Unknown(s[0])
  }

  datatype Stop = AtEnd(tail: Bytes) | Short | Garbled(typ: Byte)

  datatype Scan = Scan(items: seq<Item>, stop: Stop)

  function ScanItems(s: Bytes): Scan
    decreases |s|
  {
    match Next(s)
    case Got(item, rest) => var more := ScanItems(rest); Scan([item] + more.items, more.stop)
    case End(rest) => Scan([], AtEnd(rest))
    case Cut => Scan([], Short)
    case Unknown(typ) => Scan([], Garbled(typ))
  }

  datatype RawManifest = Raw(raw: Bytes) | RawShort | RawGarbled(typ: Byte)

  function ReadManifest(s: Bytes): RawManifest {
    if |s| < 5 then RawShort
    else if s[0] != REC_MANIFEST then RawGarbled(s[0])
    else
      var n := Number(s[1..5]);
      if |s| < 5 + n then RawShort else Raw(s[5..5 + n])
  }

  // ---------------------------------------------------------------------------------------------
  // One record

  ghost predicate Fits(item: Item) {
    match item
    case Entry(k, v) => |k| < U32 && |v| < U32
    case Body(id, size, content) => |id| < U32 && |content| < I64 && size == |content|
  }

  lemma U32Number(n: nat)
    requires n < U32
    ensures Number(BigEndian(n, 4)) == n
  {
    NumberOfBigEndian(n, 4);
  }

  lemma U32Bound(b: Bytes)
    requires |b| == 4
    ensures Number(b) < U32
  {
    NumberBound(b);
  }

  lemma ChopJoin(a: Bytes, t: Bytes)
    ensures Chop(a + t, |a|) == Some((a, t))
  {}

  /** A type byte, a header of two numbers and two pieces, put together in the order they are read. */
  lemma Reassociate(t: Byte, a: Bytes, b: Bytes, c: Bytes, d: Bytes, rest: Bytes)
    ensures [t] + a + b + c + d + rest == [t] + ((a + b) + (c + (d + rest)))
    ensures ([t] + a + b + c + d + rest)[1..] == (a + b) + (c + (d + rest))
    ensures (a + b)[..|a|] == a && (a + b)[|a|..] == b
  {}

  lemma EntryReads(k: Bytes, v: Bytes, rest: Bytes)
    requires |k| < U32 && |v| < U32
    ensures Next(EncodeItem(Entry(k, v)) + rest) == Got(Entry(k, v), rest)
  {
    EncodedEntry(k, v);
    Reassociate(REC_KV, BigEndian(|k|, 4), BigEndian(|v|, 4), k, v, rest);
    ChopJoin(BigEndian(|k|, 4) + BigEndian(|v|, 4), k + (v + rest));
    ChopJoin(k, v + rest);
    ChopJoin(v, rest);
    U32Number(|k|);
    U32Number(|v|);
  }

  lemma BodyReads(id: Bytes, content: Bytes, rest: Bytes)
    requires |id| < U32 && |content| < I64
    ensures Next(EncodeItem(Body(id, |content|, content)) + rest) == Got(Body(id, |content|, content), rest)
  {
    EncodedBody(id, |content|, content);
    Reassociate(REC_BLOB, BigEndian(|id|, 4), BigEndian(|content|, 8), id, content, rest);
    ChopJoin(BigEndian(|id|, 4) + BigEndian(|content|, 8), id + (content + rest));
    ChopJoin(id, content + rest);
    ChopJoin(content, rest);
    U32Number(|id|);
    U64RoundTrip(|content|);
  }

  lemma ItemReads(item: Item, rest: Bytes)
    requires Fits(item)
    ensures Next(EncodeItem(item) + rest) == Got(item, rest)
  {
    match item
    case Entry(k, v) => EntryReads(k, v, rest);
    case Body(id, _, content) => BodyReads(id, content, rest);
  }

  /** Lengths are written in 32 bits: an entry reads back exactly when neither its key nor its value is longer. */
  lemma EntryReadsIff(k: Bytes, v: Bytes, rest: Bytes)
    ensures Next(EncodeItem(Entry(k, v)) + rest) == Got(Entry(k, v), rest) <==> |k| < U32 && |v| < U32
  {
    if |k| < U32 && |v| < U32 {
      EntryReads(k, v, rest);
    } else {
      EncodedEntry(k, v);
      var s := (EncodeItem(Entry(k, v)) + rest)[1..];
      U32Bound(s[..8][..4]);
      U32Bound(s[..8][4..]);
    }
  }

  /** A proper prefix of `a + b` stops inside `a`, or has all of `a` and stops inside `b`. */
  lemma CutConcat(p: Bytes, a: Bytes, b: Bytes) returns (q: Bytes)
    requires p < a + b
    ensures |p| < |a| ==> p < a
    ensures |a| <= |p| ==> p == a + q && q < b && Chop(p, |a|) == Some((a, q))
  {
    if |p| < |a| {
      assert p == (a + b)[..|p|] == a[..|p|];
      q := [];
    } else {
      q := p[|a|..];
      assert p[..|a|] == (a + b)[..|a|] == a && p == a + q;
      assert q == (a + b)[|a|..|p|] == b[..|q|];
    }
  }

  /** Cut anywhere before its end, a record does not read. */
  lemma CutItem(item: Item, p: Bytes)
    requires Fits(item) && p < EncodeItem(item)
    ensures Next(p) == Cut
  {
    match item
    case Entry(k, v) => CutEntry(k, v, p);
    case Body(id, _, content) => CutBody(id, content, p);
  }

  lemma CutEntry(k: Bytes, v: Bytes, p: Bytes)
    requires |k| < U32 && |v| < U32 && p < EncodeItem(Entry(k, v))
    ensures Next(p) == Cut
  {
    if p != [] {
      EncodedEntry(k, v);
      var a, b := BigEndian(|k|, 4), BigEndian(|v|, 4);
      Reassociate(REC_KV, a, b, k, v, []);
      assert [REC_KV] + a + b + k + v + [] == [REC_KV] + a + b + k + v && v + [] == v;
      var q := CutConcat(p, [REC_KV], (a + b) + (k + v));
      assert p[0] == REC_KV && p[1..] == q;
      var t := CutConcat(q, a + b, k + v);
      if |q| >= 8 {
        U32Number(|k|);
        U32Number(|v|);
        var u := CutConcat(t, k, v);
      }
    }
  }

  lemma CutBody(id: Bytes, content: Bytes, p: Bytes)
    requires |id| < U32 && |content| < I64 && p < EncodeItem(Body(id, |content|, content))
    ensures Next(p) == Cut
  {
    if p != [] {
      EncodedBody(id, |content|, content);
      var a, b := BigEndian(|id|, 4), BigEndian(|content|, 8);
      Reassociate(REC_BLOB, a, b, id, content, []);
      assert [REC_BLOB] + a + b + id + content + [] == [REC_BLOB] + a + b + id + content && content + [] == content;
      var q := CutConcat(p, [REC_BLOB], (a + b) + (id + content));
      assert p[0] == REC_BLOB && p[1..] == q;
      var t := CutConcat(q, a + b, id + content);
      if |q| >= 12 {
        U32Number(|id|);
        U64RoundTrip(|content|);
        var u := CutConcat(t, id, content);
      }
    }
  }

  // ---------------------------------------------------------------------------------------------
  // The whole stream

  ghost predicate AllFit(items: seq<Item>) {
    forall i :: 0 <= i < |items| ==> Fits(items[i])
  }

  lemma {:induction false} PayloadReads(items: seq<Item>, tail: Bytes)
    requires AllFit(items)
    ensures ScanItems(Payload(items) + tail) == Scan(items, AtEnd(tail))
  {
    var s := Payload(items) + tail;
    if items == [] {
      assert s[0] == REC_END && s[1..] == tail;
    } else {
      assert s == EncodeItem(items[0]) + (Payload(items[1..]) + tail);
      ItemReads(items[0], Payload(items[1..]) + tail);
      ScanGot(s, items[0], Payload(items[1..]) + tail);
      PayloadReads(items[1..], tail);
      assert items == [items[0]] + items[1..];
    }
  }

  lemma ScanGot(s: Bytes, item: Item, rest: Bytes)
    requires Next(s) == Got(item, rest)
    ensures ScanItems(s) == Scan([item] + ScanItems(rest).items, ScanItems(rest).stop)
  {}

  lemma {:induction false} CutPayload(items: seq<Item>, p: Bytes)
    requires AllFit(items) && p < Payload(items)
    ensures ScanItems(p).stop == Short
  {
    if items == [] {
      assert p == [];
    } else {
      var first := EncodeItem(items[0]);
      assert Payload(items) == first + Payload(items[1..]);
      var rest := CutConcat(p, first, Payload(items[1..]));
      if |p| < |first| {
        CutItem(items[0], p);
      } else {
        ItemReads(items[0], rest);
        ScanGot(p, items[0], rest);
        CutPayload(items[1..], rest);
      }
    }
  }

  lemma ManifestReads(raw: Bytes)
    requires |raw| < U32
    ensures ReadManifest(ManifestRecord(raw)) == Raw(raw)
  {
    U32Number(|raw|);
    var s := ManifestRecord(raw);
    assert s[1..5] == BigEndian(|raw|, 4) && s[5..5 + |raw|] == raw;
  }

  lemma CutManifest(raw: Bytes, p: Bytes)
    requires |raw| < U32 && p < ManifestRecord(raw)
    ensures ReadManifest(p) == RawShort
  {
    if |p| >= 5 {
      U32Number(|raw|);
      assert p[1..5] == ManifestRecord(raw)[1..5] == BigEndian(|raw|, 4);
    }
  }

  // ---------------------------------------------------------------------------------------------
  // What reads is what is framed

  /** The 64 bits of a signed number, as a number. */
  function Unsigned(size: int): nat {
    if 0 <= size then size else if -2 * I64 <= size then size + 2 * I64 else 0
  }

  /** A record as the reader takes it: the size in the frame may be negative, and then no body follows. */
  ghost predicate Frames(item: Item) {
    match item
    case Entry(k, v) => |k| < U32 && |v| < U32
    case Body(id, size, content) => |id| < U32 && -I64 <= size < I64 && |content| == if size < 0 then 0 else size
  }

  function Framed(item: Item): Bytes {
    match item
    case Entry(k, v) => [REC_KV] + BigEndian(|k|, 4) + BigEndian(|v|, 4) + k + v
    case Body(id, size, content) => [REC_BLOB] + BigEndian(|id|, 4) + BigEndian(Unsigned(size), 8) + id + content
  }

  ghost predicate AllFrame(items: seq<Item>) {
    forall i :: 0 <= i < |items| ==> Frames(items[i])
  }

  function FramedAll(items: seq<Item>): Bytes {
    if items == [] then [] else Framed(items[0]) + FramedAll(items[1..])
  }

  /** Header and two pieces, put back together. */
  lemma Unchop(t: Byte, s: Bytes, a: Bytes, b: Bytes, c: Bytes, d: Bytes, rest: Bytes)
    requires s != [] && s[0] == t && s[1..] == (a + b) + (c + (d + rest))
    ensures s == [t] + a + b + c + d + rest
  {
    Reassociate(t, a, b, c, d, rest);
    assert s == [t] + s[1..];
  }

  lemma ChopSplits(s: Bytes, n: nat)
    requires n <= |s|
    ensures s == s[..n] + s[n..] && |s[..n]| == n
  {}

  lemma NextEntryFramed(s: Bytes)
    requires s != [] && s[0] == REC_KV && NextEntry(s[1..]).Got?
    ensures var r := Next(s); r.Got? && Frames(r.item) && s == Framed(r.item) + r.rest
  {
    var r, u := Next(s), s[1..];
    var a, b := u[..8][..4], u[..8][4..];
    ChopSplits(u, 8);
    ChopSplits(u[..8], 4);
    var t := u[8..];
    ChopSplits(t, Number(a));
    var w := t[Number(a)..];
    ChopSplits(w, Number(b));
    U32Bound(a);
    U32Bound(b);
    BigEndianOfNumber(a);
    BigEndianOfNumber(b);
    Unchop(REC_KV, s, a, b, r.item.key, r.item.value, r.rest);
  }

  lemma Int64Unsigned(n: nat)
    requires n <= MAX_U64
    ensures Unsigned(Int64(n)) == n && -I64 <= Int64(n) < I64
  {}

  lemma NextBodyFramed(s: Bytes)
    requires s != [] && s[0] == REC_BLOB && NextBody(s[1..]).Got?
    ensures var r := Next(s); r.Got? && Frames(r.item) && s == Framed(r.item) + r.rest
  {
    var r, u := Next(s), s[1..];
    var a, b := u[..12][..4], u[..12][4..];
    ChopSplits(u, 12);
    ChopSplits(u[..12], 4);
    var t := u[12..];
    ChopSplits(t, Number(a));
    var w := t[Number(a)..];
    ChopSplits(w, Length(Int64(Number(b))));
    U32Bound(a);
    NumberBound(b);
    Pow256Of8();
    Int64Unsigned(Number(b));
    BigEndianOfNumber(a);
    BigEndianOfNumber(b);
    Unchop(REC_BLOB, s, a, b, r.item.id, r.item.content, r.rest);
  }

  lemma FramedEntryNext(k: Bytes, v: Bytes, rest: Bytes)
    requires |k| < U32 && |v| < U32
    ensures Next(Framed(Entry(k, v)) + rest) == Got(Entry(k, v), rest)
  {
    EncodedEntry(k, v);
    EntryReads(k, v, rest);
  }

  lemma FramedBodyNext(id: Bytes, size: int, content: Bytes, rest: Bytes)
    requires Frames(Body(id, size, content))
    ensures Next(Framed(Body(id, size, content)) + rest) == Got(Body(id, size, content), rest)
  {
    var n := Unsigned(size);
    Reassociate(REC_BLOB, BigEndian(|id|, 4), BigEndian(n, 8), id, content, rest);
    ChopJoin(BigEndian(|id|, 4) + BigEndian(n, 8), id + (content + rest));
    ChopJoin(id, content + rest);
    ChopJoin(content, rest);
    U32Number(|id|);
    U64RoundTrip(n);
  }

  lemma FramedNext(item: Item, rest: Bytes)
    requires Frames(item)
    ensures Next(Framed(item) + rest) == Got(item, rest)
  {
    match item
    case Entry(k, v) => FramedEntryNext(k, v, rest);
    case Body(id, size, content) => FramedBodyNext(id, size, content, rest);
  }

  lemma NextFramed(s: Bytes)
    requires Next(s).Got?
    ensures Frames(Next(s).item) && s == Framed(Next(s).item) + Next(s).rest
  {
    if Next(s).item.Entry? {
      NextEntryFramed(s);
    } else {
      NextBodyFramed(s);
    }
  }

  lemma Shift(a: Bytes, b: Bytes, c: Bytes, d: Bytes)
    ensures a + ((b + c) + d) == ((a + b) + c) + d
  {}

  /** One record in front of framed ones. */
  lemma FramedFirst(item: Item, more: seq<Item>, tail: Bytes)
    ensures FramedAll([item] + more) == Framed(item) + FramedAll(more)
    ensures Framed(item) + ((FramedAll(more) + [REC_END]) + tail) == (FramedAll([item] + more) + [REC_END]) + tail
  {
    assert ([item] + more)[1..] == more;
    Shift(Framed(item), FramedAll(more), [REC_END], tail);
  }

  /** Records read up to an end marker are framed one after the other. */
  lemma {:induction false} ScanIsFramed(s: Bytes)
    requires ScanItems(s).stop.AtEnd?
    ensures AllFrame(ScanItems(s).items) && s == (FramedAll(ScanItems(s).items) + [REC_END]) + ScanItems(s).stop.tail
    decreases |s|
  {
    if Next(s).Got? {
      var item, rest := Next(s).item, Next(s).rest;
      NextFramed(s);
      ScanGot(s, item, rest);
      ScanIsFramed(rest);
      FramedFirst(item, ScanItems(rest).items, ScanItems(rest).stop.tail);
    } else {
      assert s == ([] + [REC_END]) + s[1..];
    }
  }

  /** And framed records read as what they are. */
  lemma {:induction false} FramedScans(items: seq<Item>, tail: Bytes)
    requires AllFrame(items)
    ensures ScanItems((FramedAll(items) + [REC_END]) + tail) == Scan(items, AtEnd(tail))
  {
    if items == [] {
      var s := ([] + [REC_END]) + tail;
      assert s[0] == REC_END && s[1..] == tail;
    } else {
      var item, more := items[0], items[1..];
      assert items == [item] + more;
      FramedFirst(item, more, tail);
      FramedScans(more, tail);
      var rest := (FramedAll(more) + [REC_END]) + tail;
      FramedNext(item, rest);
      ScanGot(Framed(item) + rest, item, rest);
    }
  }

  /** What a backup writes is framed that way. */
  lemma {:induction false} FitFramed(items: seq<Item>)
    requires AllFit(items)
    ensures AllFrame(items) && FramedAll(items) == Encoded(items)
  {
    if items != [] {
      ItemFramed(items[0]);
      FitFramed(items[1..]);
      assert forall i :: 0 < i < |items| ==> items[i] == items[1..][i - 1];
    }
  }

  lemma ItemFramed(item: Item)
    requires Fits(item)
    ensures Frames(item) && Framed(item) == EncodeItem(item)
  {
    match item
    case Entry(k, v) => EncodedEntry(k, v);
    case Body(id, size, content) => EncodedBody(id, size, content);
  }

  lemma ManifestReadsOn(raw: Bytes, rest: Bytes)
    requires |raw| < U32
    ensures ReadManifest(ManifestRecord(raw) + rest) == Raw(raw)
  {
    U32Number(|raw|);
    var s := ManifestRecord(raw) + rest;
    assert s[1..5] == BigEndian(|raw|, 4) && s[5..5 + |raw|] == raw;
  }

  lemma ManifestFramed(s: Bytes) returns (rest: Bytes)
    requires ReadManifest(s).Raw?
    ensures |ReadManifest(s).raw| < U32 && s == ManifestRecord(ReadManifest(s).raw) + rest
  {
    var n := Number(s[1..5]);
    U32Bound(s[1..5]);
    BigEndianOfNumber(s[1..5]);
    rest := s[5 + n..];
    assert s == [s[0]] + s[1..5] + s[5..5 + n] + rest;
  }
}
