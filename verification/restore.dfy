/**
 Restoring an archive: records are read one by one, entries go to the store in batches, bodies to the blob store, and
 success is reported only after digest, counts and completeness check out. `Expected` is the verdict an archive
 deserves; the reader reaches it however much of a body the blob store chooses to read.
 */
module Restores {
  import opened ByteKeys
  import opened Options
  import opened BackupFormat
  import opened Backups

  datatype Refusal =
    | NoMagic | BadMagic | NotEmpty | Truncated | Corrupt(typ: Byte)
    | BadManifest | ChecksumMismatch | CountMismatch | Incomplete

  datatype Outcome = Restored(manifest: Manifest) | Refused(why: Refusal)

  /** The verdict on the manifest, given what was read and the digest of it. */
  function Checked(raw: Bytes, items: seq<Item>, digest: Bytes, dec: Bytes -> Option<Manifest>): Outcome {
    var m := dec(raw);
    if m.None? then Refused(BadManifest)
    else if digest != m.value.sha then Refused(ChecksumMismatch)
    else if |Entries(items)| != m.value.kvEntries || BodyCount(items) != m.value.blobs || BodySizes(items) != m.value.blobBytes
    then Refused(CountMismatch)
    else if !m.value.complete then Refused(Incomplete)
    else Restored(m.value)
  }

  /** The part of a stream the digest covers: all before the manifest. */
  function Covered(s: Bytes, stop: Stop): Bytes {
    if stop.AtEnd? && |stop.tail| <= |s| then s[..|s| - |stop.tail|] else []
  }

  /** The verdict on what was read, given the bytes the digest covers. */
  function ScanJudged(scan: Scan, covered: Bytes, sha: Bytes -> Bytes, dec: Bytes -> Option<Manifest>): Outcome {
    match scan.stop
    case Short => Refused(Truncated)
    case Garbled(typ) => Refused(Corrupt(typ))
    case AtEnd(tail) =>
      match ReadManifest(tail)
      case RawShort => Refused(Truncated)
      case RawGarbled(typ) => Refused(Corrupt(typ))
      case Raw(raw) => Checked(raw, scan.items, sha(covered), dec)
  }

  /** The verdict on the stream behind the magic. */
  function Judged(s: Bytes, sha: Bytes -> Bytes, dec: Bytes -> Option<Manifest>): Outcome {
    ScanJudged(ScanItems(s), Covered(s, ScanItems(s).stop), sha, dec)
  }

  function Expected(data: Bytes, mayWrite: bool, sha: Bytes -> Bytes, dec: Bytes -> Option<Manifest>): Outcome {
    if |data| < |MAGIC| then Refused(NoMagic)
    else if data[..|MAGIC|] != MAGIC then Refused(BadMagic)
    else if !mayWrite then Refused(NotEmpty)
    else Judged(data[|MAGIC|..], sha, dec)
  }

  // ---------------------------------------------------------------------------------------------
  // The stream

  /** A stream read through the digest, or past it. */
  class Input {
    const data: Bytes
    var pos: nat
    var hashed: Bytes

    ghost predicate Valid()
      reads this
    {
      pos <= |data|
    }

    ghost function Rest(): Bytes
      requires Valid()
      reads this
    {
      data[pos..]
    }

    constructor (data: Bytes)
      ensures Valid() && this.data == data && Rest() == data && hashed == []
    {
      this.data, pos, hashed := data, 0, [];
    }

    /** Up to `n` bytes through the digest. */
    method Read(n: nat) returns (b: Bytes)
      requires Valid()
      modifies this
      ensures Valid() && b == old(Rest())[..if n <= |old(Rest())| then n else |old(Rest())|]
      ensures Rest() == old(Rest())[|b|..] && hashed + Rest() == old(hashed) + old(Rest())
    {
      var m := if n <= |data| - pos then n else |data| - pos;
      b := data[pos..pos + m];
      pos, hashed := pos + m, hashed + b;
    }

    /** Exactly `n` bytes through the digest, or none for a stream that ends before. */
    method ReadFull(n: nat) returns (b: Option<Bytes>)
      requires Valid()
      modifies this
      ensures Valid() && hashed + Rest() == old(hashed) + old(Rest())
      ensures b.Some? <==> Chop(old(Rest()), n).Some?
      ensures b.Some? ==> Chop(old(Rest()), n) == Some((b.value, Rest()))
    {
      var got := Read(n);
      return if |got| == n then Some(got) else None;
    }

    /** Exactly `n` bytes past the digest. */
    method ReadPlain(n: nat) returns (b: Option<Bytes>)
      requires Valid()
      modifies this`pos
      ensures Valid() && (b.Some? <==> Chop(old(Rest()), n).Some?)
      ensures b.Some? ==> Chop(old(Rest()), n) == Some((b.value, Rest()))
    {
      if |data| - pos < n {
        pos := |data|;
        return None;
      }
      b := Some(data[pos..pos + n]);
      pos := pos + n;
      assert old(Rest())[..n] == b.value && old(Rest())[n..] == Rest();
    }

    method ReadKVEntry() returns (r: Option<(Bytes, Bytes)>)
      requires Valid()
      modifies this
      ensures Valid() && hashed + Rest() == old(hashed) + old(Rest())
      ensures r.Some? <==> NextEntry(old(Rest())).Got?
      ensures r.Some? ==>
          var next := NextEntry(old(Rest())); next.item == Entry(r.value.0, r.value.1) && Rest() == next.rest
    {
      var header := ReadFull(8);
      if header.None? {
        return None;
      }
      var k := ReadFull(Number(header.value[..4]));
      if k.None? {
        return None;
      }
      var v := ReadFull(Number(header.value[4..]));
      return if v.None? then None else Some((k.value, v.value));
    }

    method ReadBlobHeader() returns (r: Option<(Bytes, int)>)
      requires Valid()
      modifies this
      ensures Valid() && hashed + Rest() == old(hashed) + old(Rest())
      ensures r.None? ==> NextBody(old(Rest())).Cut?
      ensures r.Some? ==>
                var content := Chop(Rest(), Length(r.value.1));
                NextBody(old(Rest())) ==
                if content.None? then Cut else Got(Body(r.value.0, r.value.1, content.value.0), content.value.1)
    {
      var header := ReadFull(12);
      if header.None? {
        return None;
      }
      var id := ReadFull(Number(header.value[..4]));
      return if id.None? then None else Some((id.value, Int64(Number(header.value[4..]))));
    }

    method ReadManifestRecord() returns (r: RawManifest)
      requires Valid()
      modifies this`pos
      ensures Valid() && r == ReadManifest(old(Rest()))
    {
      ghost var s := Rest();
      var header := ReadPlain(5);
      if header.None? {
        return RawShort;
      }
      assert header.value[0] == s[0] && header.value[1..] == s[1..5];
      if header.value[0] != REC_MANIFEST {
        return RawGarbled(header.value[0]);
      }
      var raw := ReadPlain(Number(header.value[1..]));
      return if raw.None? then RawShort else Raw(raw.value);
    }
  }

  // ---------------------------------------------------------------------------------------------
  // The target

  class Target {
    var kv: KV
    var blobs: KV
    /** Whether the blob store leaves an id it already has alone, as a content-addressed one does. */
    const keeps: bool

    constructor (kv: KV, blobs: KV, keeps: bool)
      ensures this.kv == kv && this.blobs == blobs && this.keeps == keeps
    {
      this.kv, this.blobs, this.keeps := kv, blobs, keeps;
    }

    /** Applies a batch of writes at once. */
    method Batch(ops: Pairs)
      modifies this`kv
      ensures kv == Upserted(old(kv), ops)
    {
      for i := 0 to |ops|
        invariant kv == Upserted(old(kv), ops[..i])
      {
        assert ops[..i + 1][..i] == ops[..i];
        kv := kv[ops[i].0 := ops[i].1];
      }
      assert ops[..|ops|] == ops;
    }

    /** Stores a body of `n` bytes; a store that has the id may read any part of it, `want` bytes or fewer. */
    method Put(inp: Input, id: Bytes, n: nat, want: nat) returns (read: nat)
      requires inp.Valid()
      modifies this`blobs, inp
      ensures inp.Valid() && inp.hashed + inp.Rest() == old(inp.hashed) + old(inp.Rest())
      ensures read <= n && read <= |old(inp.Rest())| && inp.Rest() == old(inp.Rest())[read..]
      ensures n <= |old(inp.Rest())| ==> blobs == PutBlob(old(blobs), id, old(inp.Rest())[..n], keeps)
    {
      if keeps && id in blobs {
        var part := inp.Read(if want < n then want else n);
        return |part|;
      }
      var content := inp.Read(n);
      blobs := blobs[id := content];
      read := |content|;
    }
  }

  // ---------------------------------------------------------------------------------------------
  // The records

  /** A body record behind its type byte: checked only, or handed to the blob store and drained past what that read. */
  method TakeBody(inp: Input, t: Target, verifyOnly: bool, want: nat) returns (size: Option<int>)
    requires inp.Valid()
    modifies inp, t`blobs
    ensures inp.Valid() && inp.hashed + inp.Rest() == old(inp.hashed) + old(inp.Rest())
    ensures size.Some? <==> NextBody(old(inp.Rest())).Got?
    ensures size.Some? ==> var next := NextBody(old(inp.Rest())); next.item.size == size.value && next.rest == inp.Rest()
    ensures verifyOnly ==> t.blobs == old(t.blobs)
    ensures size.Some? && !verifyOnly ==>
              var item := NextBody(old(inp.Rest())).item;
              t.blobs == PutBlob(old(t.blobs), item.id, item.content, t.keeps)
  {
    var header := inp.ReadBlobHeader();
    if header.None? {
      return None;
    }
    var n := Length(header.value.1);
    if verifyOnly {
      var content := inp.ReadFull(n);
      return if content.None? then None else Some(header.value.1);
    }
    ghost var s := inp.Rest();
    var read := t.Put(inp, header.value.0, n, want);
    if read < n {
      var drained := inp.ReadFull(n - read);
      if drained.None? {
        return None;
      }
      assert s[read..][n - read..] == s[n..];
    }
    size := Some(header.value.1);
  }

  /** `done` has been read of the stream `s0`, and `s` is what is left of it. */
  ghost predicate ReadSoFar(s0: Bytes, done: seq<Item>, s: Bytes) {
    ScanItems(s0).items == done + ScanItems(s).items && ScanItems(s0).stop == ScanItems(s).stop
  }

  lemma ReadOn(s0: Bytes, done: seq<Item>, s: Bytes)
    requires ReadSoFar(s0, done, s)
    ensures Next(s).Got? ==> ReadSoFar(s0, done + [Next(s).item], Next(s).rest)
    ensures Next(s).End? ==> ScanItems(s0) == Scan(done, AtEnd(Next(s).rest))
    ensures Next(s).Cut? ==> ScanItems(s0) == Scan(done, Short)
    ensures Next(s).Unknown? ==> ScanItems(s0) == Scan(done, Garbled(Next(s).typ))
  {
    if Next(s).Got? {
      var rest := Next(s).rest;
      ScanGot(s, Next(s).item, rest);
      assert done + ([Next(s).item] + ScanItems(rest).items) == done + [Next(s).item] + ScanItems(rest).items;
    } else {
      assert ScanItems(s).items == [] && done + [] == done;
    }
  }

  /** Some of the writes are in the store, the others pending. */
  ghost predicate Flushed(kv0: KV, kv: KV, ops: Pairs, pairs: Pairs) {
    exists f :: 0 <= f <= |pairs| && kv == Upserted(kv0, pairs[..f]) && ops == pairs[f..]
  }

  lemma FlushedMore(kv0: KV, kv: KV, ops: Pairs, pairs: Pairs, pair: (Bytes, Bytes))
    requires Flushed(kv0, kv, ops, pairs)
    ensures Flushed(kv0, kv, ops + [pair], pairs + [pair])
  {
    var f :| 0 <= f <= |pairs| && kv == Upserted(kv0, pairs[..f]) && ops == pairs[f..];
    assert (pairs + [pair])[..f] == pairs[..f] && (pairs + [pair])[f..] == pairs[f..] + [pair];
  }

  lemma FlushedAll(kv0: KV, kv: KV, ops: Pairs, pairs: Pairs)
    requires Flushed(kv0, kv, ops, pairs)
    ensures Upserted(kv, ops) == Upserted(kv0, pairs)
  {
    var f :| 0 <= f <= |pairs| && kv == Upserted(kv0, pairs[..f]) && ops == pairs[f..];
    var flushed := pairs[..f];
    assert pairs == flushed + ops;
    UpsertedConcat(kv0, flushed, ops);
  }

  lemma AllFlushed(kv0: KV, pairs: Pairs)
    ensures Flushed(kv0, Upserted(kv0, pairs), [], pairs)
  {
    assert pairs[..|pairs|] == pairs && pairs[|pairs|..] == [];
  }

  const BATCH := 512

  /** Entries not yet written, and what has been counted. */
  datatype Tally = Tally(ops: Pairs, entries: nat, bodies: nat, bytes: int)

  /** What has been counted and written is what the records `done` call for. */
  ghost predicate Right(tally: Tally, kv0: KV, kv: KV, blobs0: KV, blobs: KV, keeps: bool, verifyOnly: bool,
                        done: seq<Item>) {
    && tally.entries == |Entries(done)| && tally.bodies == BodyCount(done) && tally.bytes == BodySizes(done)
    && if verifyOnly then kv == kv0 && blobs == blobs0 && tally.ops == []
       else Flushed(kv0, kv, tally.ops, Entries(done)) && blobs == Stored(blobs0, done, keeps)
  }

  lemma RightEntry(tally: Tally, kv0: KV, kv: KV, blobs0: KV, blobs: KV, keeps: bool, verifyOnly: bool,
                   done: seq<Item>, pair: (Bytes, Bytes))
    requires Right(tally, kv0, kv, blobs0, blobs, keeps, verifyOnly, done)
    ensures var next, t := done + [Entry(pair.0, pair.1)], tally.(entries := tally.entries + 1);
            if verifyOnly then Right(t, kv0, kv, blobs0, blobs, keeps, verifyOnly, next)
            else
              && Right(t.(ops := tally.ops + [pair]), kv0, kv, blobs0, blobs, keeps, verifyOnly, next)
              && Right(t.(ops := []), kv0, Upserted(kv, tally.ops + [pair]), blobs0, blobs, keeps, verifyOnly, next)
  {
    Snoc(done, Entry(pair.0, pair.1), blobs0, keeps);
    TallySnoc(done, Entry(pair.0, pair.1));
    if !verifyOnly {
      FlushedMore(kv0, kv, tally.ops, Entries(done), pair);
      FlushedAll(kv0, kv, tally.ops + [pair], Entries(done) + [pair]);
      AllFlushed(kv0, Entries(done) + [pair]);
    }
  }

  lemma RightBody(tally: Tally, kv0: KV, kv: KV, blobs0: KV, blobs: KV, keeps: bool, verifyOnly: bool,
                  done: seq<Item>, item: Item)
    requires Right(tally, kv0, kv, blobs0, blobs, keeps, verifyOnly, done) && item.Body?
    ensures Right(tally.(bodies := tally.bodies + 1, bytes := tally.bytes + item.size), kv0, kv, blobs0,
                  if verifyOnly then blobs else PutBlob(blobs, item.id, item.content, keeps), keeps, verifyOnly, done + [item])
  {
    Snoc(done, item, blobs0, keeps);
    TallySnoc(done, item);
    assert Entries(done) + [] == Entries(done);
  }

  datatype Reading = More | Finished | Broken(why: Refusal)

  /** Takes an entry behind its type byte; entries are written out in batches. */
  method TakeEntry(inp: Input, t: Target, verifyOnly: bool, tally: Tally, ghost kv0: KV, ghost blobs0: KV,
                   ghost done: seq<Item>)
    returns (ok: bool, next: Tally)
    requires inp.Valid() && Right(tally, kv0, t.kv, blobs0, t.blobs, t.keeps, verifyOnly, done)
    modifies inp, t`kv
    ensures inp.Valid() && inp.hashed + inp.Rest() == old(inp.hashed) + old(inp.Rest())
    ensures ok <==> NextEntry(old(inp.Rest())).Got?
    ensures ok ==> var r := NextEntry(old(inp.Rest()));
                   inp.Rest() == r.rest && Right(next, kv0, t.kv, blobs0, t.blobs, t.keeps, verifyOnly, done + [r.item])
    ensures verifyOnly ==> t.kv == old(t.kv)
  {
    var pair := inp.ReadKVEntry();
    if pair.None? {
      return false, tally;
    }
    RightEntry(tally, kv0, t.kv, blobs0, t.blobs, t.keeps, verifyOnly, done, pair.value);
    ok, next := true, tally.(entries := tally.entries + 1);
    if !verifyOnly {
      next := next.(ops := tally.ops + [pair.value]);
      if |next.ops| >= BATCH {
        t.Batch(next.ops);
        next := next.(ops := []);
      }
    }
  }

  method ReadRecord(inp: Input, t: Target, verifyOnly: bool, want: nat, tally: Tally, ghost kv0: KV,
                    ghost blobs0: KV, ghost done: seq<Item>)
    returns (r: Reading, next: Tally)
    requires inp.Valid() && Right(tally, kv0, t.kv, blobs0, t.blobs, t.keeps, verifyOnly, done)
    modifies inp, t
    ensures inp.Valid() && inp.hashed + inp.Rest() == old(inp.hashed) + old(inp.Rest())
    ensures match Next(old(inp.Rest()))
            case Got(item, rest) =>
              r.More? && inp.Rest() == rest && Right(next, kv0, t.kv, blobs0, t.blobs, t.keeps, verifyOnly, done + [item])
            case End(rest) =>
              r.Finished? && inp.Rest() == rest && Right(next, kv0, t.kv, blobs0, t.blobs, t.keeps, verifyOnly, done)
            case Cut => r == Broken(Truncated)
            case Unknown(typ) => r == Broken(Corrupt(typ))
    ensures verifyOnly ==> t.kv == old(t.kv) && t.blobs == old(t.blobs)
  {
    ghost var s := inp.Rest();
    var typ := inp.ReadFull(1);
    if typ.None? {
      return Broken(Truncated), tally;
    }
    if typ.value[0] == REC_KV {
      var ok, taken := TakeEntry(inp, t, verifyOnly, tally, kv0, blobs0, done);
      return if ok then More else Broken(Truncated), taken;
    }
    if typ.value[0] == REC_BLOB {
      ghost var item := if Next(s).Got? then Next(s).item else Body([], 0, []);
      RightBody(tally, kv0, t.kv, blobs0, t.blobs, t.keeps, verifyOnly, done, item);
      var size := TakeBody(inp, t, verifyOnly, want);
      if size.None? {
        return Broken(Truncated), tally;
      }
      return More, tally.(bodies := tally.bodies + 1, bytes := tally.bytes + size.value);
    }
    return if typ.value[0] == REC_END then Finished else Broken(Corrupt(typ.value[0])), tally;
  }

  /** Reads records up to the end marker, or to where the stream breaks off. */
  method ReadRecords(inp: Input, t: Target, verifyOnly: bool, want: nat -> nat) returns (why: Option<Refusal>,
                     tally: Tally)
    requires inp.Valid()
    modifies inp, t
    ensures inp.Valid() && inp.hashed + inp.Rest() == old(inp.hashed) + old(inp.Rest())
    ensures match ScanItems(old(inp.Rest())).stop
            case AtEnd(tail) => why == None && inp.Rest() == tail
            case Short => why == Some(Truncated)
            case Garbled(typ) => why == Some(Corrupt(typ))
    ensures verifyOnly ==> t.kv == old(t.kv) && t.blobs == old(t.blobs)
    ensures why == None ==>
              Right(tally, old(t.kv), t.kv, old(t.blobs), t.blobs, t.keeps, verifyOnly, ScanItems(old(inp.Rest())).items)
  {
    tally := Tally([], 0, 0, 0);
    ghost var s0, done := inp.Rest(), [];
    AllFlushed(t.kv, []);
    while true
      invariant inp.Valid() && inp.hashed + inp.Rest() == old(inp.hashed) + old(inp.Rest())
      invariant ReadSoFar(s0, done, inp.Rest())
      invariant Right(tally, old(t.kv), t.kv, old(t.blobs), t.blobs, t.keeps, verifyOnly, done)
      decreases |inp.Rest()|
    {
      ghost var s := inp.Rest();
      ReadOn(s0, done, s);
      var r;
      r, tally := ReadRecord(inp, t, verifyOnly, want(tally.bodies), tally, old(t.kv), old(t.blobs), done);
      match r
      case More => done := done + [Next(s).item];
      case Finished => return None, tally;
      case Broken(e) => return Some(e), tally;
    }
  }

  /** Writes what is pending and checks the manifest against what was read. */
  method Conclude(t: Target, tally: Tally, raw: Bytes, digest: Bytes, dec: Bytes -> Option<Manifest>,
                  ghost kv0: KV, ghost blobs0: KV, ghost verifyOnly: bool, ghost items: seq<Item>)
    returns (r: Outcome)
    requires Right(tally, kv0, t.kv, blobs0, t.blobs, t.keeps, verifyOnly, items)
    modifies t`kv
    ensures r == Checked(raw, items, digest, dec)
    ensures verifyOnly ==> t.kv == old(t.kv)
    ensures !verifyOnly && r.Restored? ==>
        t.kv == Upserted(kv0, Entries(items)) && t.blobs == Stored(blobs0, items, t.keeps)
  {
    var m := dec(raw);
    if m.None? {
      return Refused(BadManifest);
    }
    if !verifyOnly {
      FlushedAll(kv0, t.kv, tally.ops, Entries(items));
    }
    t.Batch(tally.ops);
    if digest != m.value.sha {
      return Refused(ChecksumMismatch);
    }
    if tally.entries != m.value.kvEntries || tally.bodies != m.value.blobs || tally.bytes != m.value.blobBytes {
      return Refused(CountMismatch);
    }
    return if m.value.complete then Restored(m.value) else Refused(Incomplete);
  }

  lemma DigestCovers(hashed: Bytes, tail: Bytes, s: Bytes)
    requires hashed + tail == [] + s
    ensures |tail| <= |s| && hashed == s[..|s| - |tail|]
  {
    assert [] + s == s && (hashed + tail)[..|hashed|] == hashed;
  }

  /** Everything behind the magic. */
  method ReadArchive(inp: Input, t: Target, verifyOnly: bool, want: nat -> nat, sha: Bytes -> Bytes,
                     dec: Bytes -> Option<Manifest>)
    returns (r: Outcome)
    requires inp.Valid() && inp.hashed == []
    modifies inp, t
    ensures r == Judged(old(inp.Rest()), sha, dec)
    ensures verifyOnly ==> t.kv == old(t.kv) && t.blobs == old(t.blobs)
    ensures r.Restored? && !verifyOnly ==>
              var items := ScanItems(old(inp.Rest())).items;
              t.kv == Upserted(old(t.kv), Entries(items)) && t.blobs == Stored(old(t.blobs), items, t.keeps)
  {
    ghost var s := inp.Rest();
    var why, tally := ReadRecords(inp, t, verifyOnly, want);
    if why.Some? {
      return Refused(why.value);
    }
    DigestCovers(inp.hashed, inp.Rest(), s);
    var raw := inp.ReadManifestRecord();
    match raw
    case RawShort => return Refused(Truncated);
    case RawGarbled(typ) => return Refused(Corrupt(typ));
    case Raw(bytes) =>
      r := Conclude(t, tally, bytes, sha(inp.hashed), dec, old(t.kv), old(t.blobs), verifyOnly, ScanItems(s).items);
  }

  /**
   Restores an archive. The verdict is the one the archive deserves, whatever part of a body the blob store reads; a
   reported success means all entries and bodies are in, and a check alone writes nothing.
   */
  method Restore(inp: Input, t: Target, overwrite: bool, verifyOnly: bool, want: nat -> nat,
                 sha: Bytes -> Bytes, dec: Bytes -> Option<Manifest>)
    returns (r: Outcome)
    requires inp.Valid() && inp.pos == 0 && inp.hashed == []
    modifies inp, t
    ensures r == Expected(inp.data, overwrite || verifyOnly || old(t.kv) == map[], sha, dec)
    ensures verifyOnly ==> t.kv == old(t.kv) && t.blobs == old(t.blobs)
    ensures r.Restored? && !verifyOnly ==>
              var items := ScanItems(inp.data[|MAGIC|..]).items;
              t.kv == Upserted(old(t.kv), Entries(items)) && t.blobs == Stored(old(t.blobs), items, t.keeps)
  {
    assert inp.Rest() == inp.data;
    var magic := inp.ReadPlain(|MAGIC|);
    if magic.None? {
      return Refused(NoMagic);
    }
    if magic.value != MAGIC {
      return Refused(BadMagic);
    }
    if !overwrite && !verifyOnly && t.kv != map[] {
      return Refused(NotEmpty);
    }
    r := ReadArchive(inp, t, verifyOnly, want, sha, dec);
  }
}
