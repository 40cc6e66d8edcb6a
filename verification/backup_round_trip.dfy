/** A completed backup restores to the same store, and no part of it passes for the whole. */
module BackupRoundTrip {
  import opened ByteKeys
  import opened Options
  import opened BackupFormat
  import opened Backups
  import opened Restores

  // ---------------------------------------------------------------------------------------------
  // Cut archives

  lemma ArchivePrefix(items: seq<Item>, raw: Bytes, p: Bytes) returns (q: Bytes)
    requires p < Archive(items, raw) && |MAGIC| <= |p|
    ensures p == MAGIC + q && p[..|MAGIC|] == MAGIC && p[|MAGIC|..] == q && q < Payload(items) + ManifestRecord(raw)
  {
    Join(MAGIC, Payload(items), ManifestRecord(raw));
    q := CutConcat(p, MAGIC, Payload(items) + ManifestRecord(raw));
  }

  lemma CutStream(items: seq<Item>, raw: Bytes, q: Bytes, sha: Bytes -> Bytes, dec: Bytes -> Option<Manifest>)
    requires AllFit(items) && |raw| < U32 && q < Payload(items) + ManifestRecord(raw)
    ensures Judged(q, sha, dec) == Refused(Truncated)
  {
    var t := CutConcat(q, Payload(items), ManifestRecord(raw));
    if |q| < |Payload(items)| {
      CutPayload(items, q);
    } else {
      PayloadReads(items, t);
      CutManifest(raw, t);
    }
  }

  /** An archive cut anywhere before its last byte is refused. */
  lemma CutArchiveRefused(items: seq<Item>, raw: Bytes, p: Bytes, mayWrite: bool, sha: Bytes -> Bytes,
                          dec: Bytes -> Option<Manifest>)
    requires AllFit(items) && |raw| < U32 && p < Archive(items, raw)
    ensures Expected(p, mayWrite, sha, dec) ==
            Refused(if |p| < |MAGIC| then NoMagic else if mayWrite then Truncated else NotEmpty)
  {
    if |p| >= |MAGIC| {
      var q := ArchivePrefix(items, raw, p);
      CutStream(items, raw, q, sha, dec);
    }
  }

  // ---------------------------------------------------------------------------------------------
  // Whole archives

  lemma WholeStream(items: seq<Item>, raw: Bytes, sha: Bytes -> Bytes, dec: Bytes -> Option<Manifest>)
    requires AllFit(items) && |raw| < U32
    ensures ScanItems(Payload(items) + ManifestRecord(raw)).items == items
    ensures Judged(Payload(items) + ManifestRecord(raw), sha, dec) == Checked(raw, items, sha(Payload(items)), dec)
  {
    var s, tail := Payload(items) + ManifestRecord(raw), ManifestRecord(raw);
    PayloadReads(items, tail);
    ManifestReads(raw);
    assert s[..|s| - |tail|] == Payload(items);
  }

  lemma WholeArchive(items: seq<Item>, raw: Bytes, sha: Bytes -> Bytes, dec: Bytes -> Option<Manifest>)
    requires AllFit(items) && |raw| < U32
    ensures var data := Archive(items, raw);
            && |MAGIC| <= |data| && ScanItems(data[|MAGIC|..]).items == items
            && Expected(data, true, sha, dec) == Checked(raw, items, sha(Payload(items)), dec)
  {
    var s := Payload(items) + ManifestRecord(raw);
    Join(MAGIC, Payload(items), ManifestRecord(raw));
    assert (MAGIC + s)[..|MAGIC|] == MAGIC && (MAGIC + s)[|MAGIC|..] == s;
    WholeStream(items, raw, sha, dec);
  }

  // ---------------------------------------------------------------------------------------------
  // What a verdict means

  /** A stream of framed records, an end marker and a manifest record; what follows that is not looked at. */
  ghost predicate IsArchive(data: Bytes, items: seq<Item>, raw: Bytes, rest: Bytes) {
    AllFrame(items) && |raw| < U32 && data == MAGIC + ((FramedAll(items) + [REC_END]) + (ManifestRecord(raw) + rest))
  }

  /** The manifest is complete, has the digest of the records up to the end marker, and counts what they are. */
  ghost predicate Attests(m: Manifest, items: seq<Item>, sha: Bytes -> Bytes) {
    && m.complete && m.sha == sha(FramedAll(items) + [REC_END])
    && m.kvEntries == |Entries(items)| && m.blobs == BodyCount(items) && m.blobBytes == BodySizes(items)
  }

  lemma ArchiveVerdict(data: Bytes, items: seq<Item>, raw: Bytes, rest: Bytes, sha: Bytes -> Bytes,
                       dec: Bytes -> Option<Manifest>, m: Manifest)
    requires IsArchive(data, items, raw, rest) && dec(raw) == Some(m)
    ensures ScanItems(data[|MAGIC|..]).items == items
    ensures Expected(data, true, sha, dec) ==
            if m.sha != sha(FramedAll(items) + [REC_END]) then Refused(ChecksumMismatch)
            else if m.kvEntries != |Entries(items)| || m.blobs != BodyCount(items) || m.blobBytes != BodySizes(items)
            then Refused(CountMismatch)
            else if !m.complete then Refused(Incomplete)
            else Restored(m)
  {
    var covered, tail := FramedAll(items) + [REC_END], ManifestRecord(raw) + rest;
    var s := covered + tail;
    assert data[..|MAGIC|] == MAGIC && data[|MAGIC|..] == s;
    FramedScans(items, tail);
    ManifestReadsOn(raw, rest);
    assert s[..|s| - |tail|] == covered;
  }

  lemma {:induction false} TailIsSuffix(s: Bytes)
    requires ScanItems(s).stop.AtEnd?
    ensures |ScanItems(s).stop.tail| < |s|
    decreases |s|
  {
    if Next(s).Got? {
      TailIsSuffix(Next(s).rest);
    }
  }

  /** Whatever passes is such an archive. */
  lemma RestoredIsArchive(data: Bytes, mayWrite: bool, sha: Bytes -> Bytes, dec: Bytes -> Option<Manifest>)
      returns (items: seq<Item>, raw: Bytes, rest: Bytes)
    requires Expected(data, mayWrite, sha, dec).Restored?
    ensures mayWrite && IsArchive(data, items, raw, rest) && dec(raw).Some?
    ensures items == ScanItems(data[|MAGIC|..]).items
  {
    var s := data[|MAGIC|..];
    var scan := ScanItems(s);
    items := scan.items;
    raw := ReadManifest(scan.stop.tail).raw;
    rest := ManifestFramed(scan.stop.tail);
    ScanIsFramed(s);
    assert data == MAGIC + s;
  }

  /**
   An archive is accepted with a manifest if and only if it may be written, it is framed records up to an end marker and
   a manifest record that spells the manifest, and the manifest attests the records.
   */
  lemma RestoredIff(data: Bytes, mayWrite: bool, sha: Bytes -> Bytes, dec: Bytes -> Option<Manifest>, m: Manifest)
    ensures Expected(data, mayWrite, sha, dec) == Restored(m) <==>
            mayWrite && exists items, raw, rest ::
                          IsArchive(data, items, raw, rest) && dec(raw) == Some(m) && Attests(m, items, sha)
  {
    if Expected(data, mayWrite, sha, dec) == Restored(m) {
      var items, raw, rest := RestoredIsArchive(data, mayWrite, sha, dec);
      ArchiveVerdict(data, items, raw, rest, sha, dec, dec(raw).value);
    }
    if mayWrite && exists items, raw, rest ::
         IsArchive(data, items, raw, rest) && dec(raw) == Some(m) && Attests(m, items, sha) {
      var items, raw, rest :| IsArchive(data, items, raw, rest) && dec(raw) == Some(m) && Attests(m, items, sha);
      ArchiveVerdict(data, items, raw, rest, sha, dec, m);
    }
  }

  /** How a stream is refused that does not come to a verdict on its manifest. */
  lemma RefusedEarly(data: Bytes, mayWrite: bool, sha: Bytes -> Bytes, dec: Bytes -> Option<Manifest>)
    ensures |data| < |MAGIC| ==> Expected(data, mayWrite, sha, dec) == Refused(NoMagic)
    ensures |MAGIC| <= |data| && !(MAGIC <= data) ==> Expected(data, mayWrite, sha, dec) == Refused(BadMagic)
    ensures MAGIC <= data && !mayWrite ==> Expected(data, mayWrite, sha, dec) == Refused(NotEmpty)
    ensures forall items, raw, rest :: IsArchive(data, items, raw, rest) && mayWrite && dec(raw).None? ==>
              Expected(data, mayWrite, sha, dec) == Refused(BadManifest)
  {
    forall items, raw, rest | IsArchive(data, items, raw, rest) && mayWrite && dec(raw).None?
      ensures Expected(data, mayWrite, sha, dec) == Refused(BadManifest)
    {
      var covered, tail := FramedAll(items) + [REC_END], ManifestRecord(raw) + rest;
      assert data[..|MAGIC|] == MAGIC && data[|MAGIC|..] == covered + tail;
      FramedScans(items, tail);
      ManifestReadsOn(raw, rest);
    }
  }

  /** Behind any records, a byte that starts none is refused by its name. */
  lemma GarbledRefused(items: seq<Item>, typ: Byte, rest: Bytes, sha: Bytes -> Bytes, dec: Bytes -> Option<Manifest>)
    requires AllFrame(items) && typ != 0x6B && typ != 0x62 && typ != 0x78
    ensures Expected(MAGIC + (FramedAll(items) + ([typ] + rest)), true, sha, dec) == Refused(Corrupt(typ))
  {
    var s := FramedAll(items) + ([typ] + rest);
    assert (MAGIC + s)[..|MAGIC|] == MAGIC && (MAGIC + s)[|MAGIC|..] == s;
    GarbledScans(items, typ, rest);
  }

  lemma {:induction false} GarbledScans(items: seq<Item>, typ: Byte, rest: Bytes)
    requires AllFrame(items) && typ != REC_KV && typ != REC_BLOB && typ != REC_END
    ensures ScanItems(FramedAll(items) + ([typ] + rest)).stop == Garbled(typ)
  {
    var tail := [typ] + rest;
    if items == [] {
      assert [] + tail == tail && tail[0] == typ;
    } else {
      var item, more := items[0], items[1..];
      assert Framed(item) + FramedAll(more) + tail == Framed(item) + (FramedAll(more) + tail);
      FramedNext(item, FramedAll(more) + tail);
      ScanGot(Framed(item) + (FramedAll(more) + tail), item, FramedAll(more) + tail);
      GarbledScans(more, typ, rest);
    }
  }

  /** A completed archive with other records in the place of its own is refused, unless they have the same digest. */
  lemma ReplacedRecordsRefused(items: seq<Item>, others: seq<Item>, raw: Bytes, sha: Bytes -> Bytes,
                               dec: Bytes -> Option<Manifest>, m: Manifest)
    requires AllFit(others) && |raw| < U32 && dec(raw) == Some(m) && m.sha == sha(Payload(items))
    requires sha(Payload(others)) != sha(Payload(items))
    ensures Expected(Archive(others, raw), true, sha, dec) == Refused(ChecksumMismatch)
  {
    FitFramed(others);
    Join(MAGIC, Payload(others), ManifestRecord(raw));
    assert ManifestRecord(raw) + [] == ManifestRecord(raw);
    ArchiveVerdict(Archive(others, raw), others, raw, [], sha, dec, m);
  }

  // ---------------------------------------------------------------------------------------------
  // What comes back

  lemma {:induction false} EntriesOfListing(listing: Pairs)
    ensures Entries(EntryItems(listing)) == listing && BodyCount(EntryItems(listing)) == 0
    ensures BodySizes(EntryItems(listing)) == 0 && |EntryItems(listing)| == |listing|
  {
    if listing != [] {
      var front, last := listing[..|listing| - 1], listing[|listing| - 1];
      EntriesOfListing(front);
      Snoc(EntryItems(front), Entry(last.0, last.1), map[], false);
      TallySnoc(EntryItems(front), Entry(last.0, last.1));
    }
  }

  lemma {:induction false} StoredEntries(blobs: KV, listing: Pairs, keeps: bool)
    ensures Stored(blobs, EntryItems(listing), keeps) == blobs
  {
    if listing != [] {
      var front, last := listing[..|listing| - 1], listing[|listing| - 1];
      StoredEntries(blobs, front, keeps);
      Snoc(EntryItems(front), Entry(last.0, last.1), blobs, keeps);
    }
  }

  /** Bodies behind other records add to the tallies and to the blob store, and nothing to the entries. */
  lemma {:induction false} BodiesBehind(before: seq<Item>, ids: seq<Bytes>, sizes: map<Bytes, nat>, bodies: KV)
    ensures var items := BodyItems(ids, sizes, bodies);
            && Entries(before + items) == Entries(before)
            && BodyCount(before + items) == BodyCount(before) + BodyCount(items)
            && BodySizes(before + items) == BodySizes(before) + BodySizes(items)
  {
    if ids == [] {
      assert before + [] == before;
    } else {
      var front, last := ids[..|ids| - 1], ids[|ids| - 1];
      BodiesBehind(before, front, sizes, bodies);
      if last in sizes && last in bodies {
        var items, item := BodyItems(front, sizes, bodies), Body(last, sizes[last], bodies[last]);
        assert before + (items + [item]) == before + items + [item];
        Snoc(before + items, item, map[], false);
        TallySnoc(before + items, item);
        TallySnoc(items, item);
      } else {
        assert BodyItems(front, sizes, bodies) + [] == BodyItems(front, sizes, bodies);
      }
    }
  }

  /** The blobs among `ids` that the store has. */
  ghost function Present(ids: seq<Bytes>, sizes: map<Bytes, nat>, bodies: KV): KV {
    map id | id in ids && id in sizes && id in bodies :: bodies[id]
  }

  lemma PresentSnoc(front: seq<Bytes>, last: Bytes, sizes: map<Bytes, nat>, bodies: KV)
    ensures Present(front + [last], sizes, bodies) ==
            if last in sizes && last in bodies then Present(front, sizes, bodies)[last := bodies[last]] else Present(front, sizes, bodies)
  {}

  lemma {:induction false} StoredBodies(before: seq<Item>, ids: seq<Bytes>, sizes: map<Bytes, nat>, bodies: KV,
                                        keeps: bool)
    requires AscendingIds(ids) && Stored(map[], before, keeps) == map[]
    ensures Stored(map[], before + BodyItems(ids, sizes, bodies), keeps) == Present(ids, sizes, bodies)
  {
    if ids == [] {
      assert before + [] == before;
    } else {
      var front, last := ids[..|ids| - 1], ids[|ids| - 1];
      var items := BodyItems(front, sizes, bodies);
      StoredBodies(before, front, sizes, bodies, keeps);
      assert ids == front + [last];
      LastIsNew(front, last);
      PresentSnoc(front, last, sizes, bodies);
      if last in sizes && last in bodies {
        var item := Body(last, sizes[last], bodies[last]);
        assert before + (items + [item]) == before + items + [item];
        Snoc(before + items, item, map[], keeps);
      } else {
        assert items + [] == items;
      }
    }
  }

  lemma LastIsNew(front: seq<Bytes>, last: Bytes)
    requires AscendingIds(front + [last])
    ensures last !in front
  {
    if last in front {
      var i :| 0 <= i < |front| && front[i] == last;
      assert (front + [last])[i] == last && (front + [last])[|front|] == last;
      BeforeTotal(last, last);
    }
  }

  /** A scan of the whole store: every key once, ascending, with its value. */
  ghost predicate Lists(listing: Pairs, kv: KV) {
    && (forall i, j :: 0 <= i < j < |listing| ==> Before(listing[i].0, listing[j].0))
    && (forall i :: 0 <= i < |listing| ==> listing[i].0 in kv && kv[listing[i].0] == listing[i].1)
    && (forall k :: k in kv ==> exists i :: 0 <= i < |listing| && listing[i].0 == k)
  }

  lemma {:induction false} UpsertedListing(listing: Pairs, n: nat, kv: KV)
    requires n <= |listing| && forall i :: 0 <= i < |listing| ==> listing[i].0 in kv && kv[listing[i].0] == listing[i].1
    ensures forall k :: k in Upserted(map[], listing[..n]) <==> exists i :: 0 <= i < n && listing[i].0 == k
    ensures forall k :: k in Upserted(map[], listing[..n]) ==> k in kv && Upserted(map[], listing[..n])[k] == kv[k]
  {
    if n > 0 {
      UpsertedListing(listing, n - 1, kv);
      assert listing[..n][..n - 1] == listing[..n - 1];
    }
  }

  lemma SameEntries(a: KV, b: KV)
    requires (forall k :: k in b ==> k in a) && (forall k :: k in a ==> k in b && a[k] == b[k])
    ensures a == b
  {}

  lemma ListingRestores(listing: Pairs, kv: KV)
    requires Lists(listing, kv)
    ensures Upserted(map[], listing) == kv
  {
    var got := Upserted(map[], listing);
    assert (forall k :: k in kv ==> k in got) && (forall k :: k in got ==> k in kv && got[k] == kv[k]) by {
      UpsertedListing(listing, |listing|, kv);
      assert listing[..|listing|] == listing;
    }
    SameEntries(got, kv);
  }

  // ---------------------------------------------------------------------------------------------
  // Round trip

  /** Lengths the format can carry. */
  ghost predicate Carries(listing: Pairs, bodies: KV) {
    && (forall i :: 0 <= i < |listing| ==> |listing[i].0| < U32 && |listing[i].1| < U32)
    && (forall id :: id in bodies ==> |bodies[id]| < I64)
  }

  lemma {:induction false} EntryItemsFit(listing: Pairs)
    requires forall i :: 0 <= i < |listing| ==> |listing[i].0| < U32 && |listing[i].1| < U32
    ensures AllFit(EntryItems(listing))
  {
    if listing != [] {
      EntryItemsFit(listing[..|listing| - 1]);
    }
  }

  lemma {:induction false} BodyItemsFit(ids: seq<Bytes>, sizes: map<Bytes, nat>, bodies: KV)
    requires forall id :: id in ids ==> |id| < U32 && !Drifts(id, sizes, bodies)
    requires forall id :: id in bodies ==> |bodies[id]| < I64
    ensures AllFit(BodyItems(ids, sizes, bodies))
  {
    if ids != [] {
      BodyItemsFit(ids[..|ids| - 1], sizes, bodies);
      assert ids[|ids| - 1] in ids;
    }
  }

  lemma LinkedIdsFit(listing: Pairs, ids: seq<Bytes>)
    requires forall i :: 0 <= i < |listing| ==> |listing[i].0| < U32
    requires forall id :: id in ids ==> Linked(listing, id)
    ensures forall id :: id in ids ==> |id| < U32
  {
    forall id | id in ids ensures |id| < U32 {
      var i :| 0 <= i < |listing| && IsLink(listing[i].0) && listing[i].0[5..] == id;
    }
  }

  lemma ArchiveFits(listing: Pairs, ids: seq<Bytes>, sizes: map<Bytes, nat>, bodies: KV)
    requires Carries(listing, bodies) && forall id :: id in ids ==> Linked(listing, id) && !Drifts(id, sizes, bodies)
    ensures AllFit(EntryItems(listing) + BodyItems(ids, sizes, bodies))
  {
    LinkedIdsFit(listing, ids);
    EntryItemsFit(listing);
    BodyItemsFit(ids, sizes, bodies);
  }

  /**
   The archive a completed backup writes, restored into an empty store, gives back exactly the entries, and of the blobs
   exactly the linked ones that were there; the manifest reported is the one the backup reported.
   */
  lemma BackupRestores(about: string, listing: Pairs, kv: KV, ids: seq<Bytes>, sizes: map<Bytes, nat>, bodies: KV,
                       m: Manifest, sha: Bytes -> Bytes, enc: Manifest -> Bytes, dec: Bytes -> Option<Manifest>, keeps: bool)
    requires Lists(listing, kv) && Carries(listing, bodies)
    requires AscendingIds(ids) && forall id :: id in ids <==> Linked(listing, id)
    requires forall id :: id in ids ==> !Drifts(id, sizes, bodies)
    requires BodyCount(BodyItems(ids, sizes, bodies)) <= |ids|
    requires m == ManifestOf(about, listing, ids, BodyItems(ids, sizes, bodies),
                             sha(Payload(EntryItems(listing) + BodyItems(ids, sizes, bodies))))
    requires dec(enc(m)) == Some(m) && |enc(m)| < U32
    ensures var data := Archive(EntryItems(listing) + BodyItems(ids, sizes, bodies), enc(m));
            && |MAGIC| <= |data| && Expected(data, true, sha, dec) == Restored(m)
            && Upserted(map[], Entries(ScanItems(data[|MAGIC|..]).items)) == kv
            && Stored(map[], ScanItems(data[|MAGIC|..]).items, keeps) == Present(ids, sizes, bodies)
  {
    var entries, blobs := EntryItems(listing), BodyItems(ids, sizes, bodies);
    ArchiveFits(listing, ids, sizes, bodies);
    WholeArchive(entries + blobs, enc(m), sha, dec);
    EntriesOfListing(listing);
    BodiesBehind(entries, ids, sizes, bodies);
    ListingRestores(listing, kv);
    StoredEntries(map[], listing, keeps);
    StoredBodies(entries, ids, sizes, bodies, keeps);
  }

  // ---------------------------------------------------------------------------------------------
  // Failed backups

  /** What a failed backup leaves behind the magic: whole records, then a blob announced with a wrong size. */
  function FailedStream(items: seq<Item>, id: Bytes, size: nat, content: Bytes): Bytes {
    Encoded(items) + (BlobHeader(id, size) + content)
  }

  function BlobHeader(id: Bytes, size: nat): Bytes {
    [REC_BLOB] + BigEndian(|id|, 4) + BigEndian(size, 8) + id
  }

  lemma JoinItems(item: Item, a: seq<Item>, b: seq<Item>)
    ensures [item] + (a + b) == [item] + a + b
  {}

  lemma {:induction false} EncodedReads(items: seq<Item>, s: Bytes)
    requires AllFit(items)
    ensures ScanItems(Encoded(items) + s) == Scan(items + ScanItems(s).items, ScanItems(s).stop)
  {
    if items == [] {
      assert [] + s == s && [] + ScanItems(s).items == ScanItems(s).items;
    } else {
      var first, rest := items[0], items[1..];
      EncodedReads(rest, s);
      assert Encoded(items) + s == EncodeItem(first) + (Encoded(rest) + s) by {
        Join(EncodeItem(first), Encoded(rest), s);
      }
      ItemReads(first, Encoded(rest) + s);
      ScanGot(Encoded(items) + s, first, Encoded(rest) + s);
      JoinItems(first, rest, ScanItems(s).items);
      assert items == [first] + rest;
    }
  }

  lemma HeaderThenBody(id: Bytes, size: nat, content: Bytes, rest: Bytes)
    requires size == |content|
    ensures EncodeItem(Body(id, size, content)) == BlobHeader(id, size) + content
    ensures EncodeItem(Body(id, size, content)) + rest == BlobHeader(id, size) + (content + rest)
  {
    EncodedBody(id, size, content);
    Join(BlobHeader(id, size), content, rest);
  }

  /** A body announced shorter than it is: its first bytes are read as the body, the surplus as more records. */
  lemma SurplusReads(id: Bytes, size: nat, content: Bytes)
    requires |id| < U32 && size < I64 && size <= |content|
    ensures var surplus := ScanItems(content[size..]);
            ScanItems(BlobHeader(id, size) + content) == Scan([Body(id, size, content[..size])] + surplus.items, surplus.stop)
  {
    var head, surplus := content[..size], content[size..];
    assert content == head + surplus;
    HeaderThenBody(id, size, head, surplus);
    BodyReads(id, head, surplus);
    ScanGot(BlobHeader(id, size) + content, Body(id, size, head), surplus);
  }

  lemma PrefixOfBody(h: Bytes, content: Bytes, pad: Bytes)
    requires pad != []
    ensures h + content < h + (content + pad)
  {
    assert (h + (content + pad))[..|h + content|] == h + content;
  }

  /** A body announced longer than it is ends the stream. */
  lemma ShortfallReads(id: Bytes, size: nat, content: Bytes)
    requires |id| < U32 && size < I64 && |content| < size
    ensures ScanItems(BlobHeader(id, size) + content).stop == Short
  {
    var pad: Bytes := seq(size - |content|, _ => 0);
    HeaderThenBody(id, size, content + pad, []);
    PrefixOfBody(BlobHeader(id, size), content, pad);
    CutItem(Body(id, size, content + pad), BlobHeader(id, size) + content);
  }

  /** The surplus of a body reads as records, an end marker and a manifest that fits everything read. */
  ghost predicate Passes(items: seq<Item>, id: Bytes, size: nat, content: Bytes,
                         sha: Bytes -> Bytes, dec: Bytes -> Option<Manifest>)
  {
    && size <= |content|
    && var scan := ScanItems(content[size..]);
       var all := items + ([Body(id, size, content[..size])] + scan.items);
       ScanJudged(Scan(all, scan.stop), FailedStream(items, id, size, Covered(content, scan.stop)), sha, dec).Restored?
  }

  lemma HashedPart(a: Bytes, h: Bytes, content: Bytes, n: nat)
    requires n <= |content|
    ensures (a + (h + content))[..|a + (h + content)| - n] == a + (h + content[..|content| - n])
  {}

  /** The records of a failed backup, those before the blob that drifted included. */
  lemma FailedScan(items: seq<Item>, id: Bytes, size: nat, content: Bytes)
    requires AllFit(items) && |id| < U32 && size < I64
    ensures var got := ScanItems(FailedStream(items, id, size, content));
            if |content| < size then got.stop == Short
            else var surplus := ScanItems(content[size..]);
                 got == Scan(items + ([Body(id, size, content[..size])] + surplus.items), surplus.stop)
  {
    EncodedReads(items, BlobHeader(id, size) + content);
    if |content| < size {
      ShortfallReads(id, size, content);
    } else {
      SurplusReads(id, size, content);
    }
  }

  /** The digest of a failed backup covers what it covers of the body, and all before it. */
  lemma FailedCovered(items: seq<Item>, id: Bytes, size: nat, content: Bytes, stream: Bytes, stop: Stop)
    requires stream == FailedStream(items, id, size, content) && stop.AtEnd? && |stop.tail| <= |content|
    ensures Covered(stream, stop) == FailedStream(items, id, size, Covered(content, stop))
  {
    HashedPart(Encoded(items), BlobHeader(id, size), content, |stop.tail|);
  }

  lemma JudgedAs(scan: Scan, a: Bytes, b: Bytes, sha: Bytes -> Bytes, dec: Bytes -> Option<Manifest>)
    requires scan.stop.AtEnd? ==> a == b
    ensures ScanJudged(scan, a, sha, dec) == ScanJudged(scan, b, sha, dec)
  {}

  lemma FailedJudged(items: seq<Item>, id: Bytes, size: nat, content: Bytes, stream: Bytes,
                     sha: Bytes -> Bytes, dec: Bytes -> Option<Manifest>)
    requires AllFit(items) && |id| < U32 && size < I64 && stream == FailedStream(items, id, size, content)
    ensures Judged(stream, sha, dec).Restored? <==> Passes(items, id, size, content, sha, dec)
  {
    var got := ScanItems(stream);
    FailedScan(items, id, size, content);
    if size <= |content| {
      var stop := ScanItems(content[size..]).stop;
      if stop.AtEnd? {
        TailIsSuffix(content[size..]);
        FailedCovered(items, id, size, content, stream, stop);
      }
      JudgedAs(got, Covered(stream, stop), FailedStream(items, id, size, Covered(content, stop)), sha, dec);
    }
  }

  /**
   What a backup leaves behind that failed on a blob, whichever way its size was wrong, is accepted exactly when the
   surplus of the body spells the end of an archive that fits; in particular a missing or too short body is refused.
   */
  lemma FailedBackupAcceptedIff(items: seq<Item>, id: Bytes, size: nat, content: Bytes,
                                sha: Bytes -> Bytes, dec: Bytes -> Option<Manifest>)
    requires AllFit(items) && |id| < U32 && size < I64
    ensures Expected(MAGIC + FailedStream(items, id, size, content), true, sha, dec).Restored? <==>
            Passes(items, id, size, content, sha, dec)
    ensures |content| <= size ==> Expected(MAGIC + FailedStream(items, id, size, content), true, sha, dec).Refused?
  {
    var stream := FailedStream(items, id, size, content);
    assert (MAGIC + stream)[..|MAGIC|] == MAGIC && (MAGIC + stream)[|MAGIC|..] == stream;
    FailedJudged(items, id, size, content, stream, sha, dec);
    if |content| == size {
      assert content[size..] == [];
    }
  }

  /** Every failure of a backup is such a stream, of records that fit. */
  lemma FailedBackupIsSuch(listing: Pairs, ids: seq<Bytes>, sizes: map<Bytes, nat>, bodies: KV, n: nat,
                           sha: Bytes -> Bytes, dec: Bytes -> Option<Manifest>)
    requires Carries(listing, bodies) && (forall id :: id in ids ==> Linked(listing, id))
    requires n < |ids| && Drifts(ids[n], sizes, bodies) && (forall i :: 0 <= i < n ==> !Drifts(ids[i], sizes, bodies))
    requires sizes[ids[n]] < I64
    ensures var items, id := EntryItems(listing) + BodyItems(ids[..n], sizes, bodies), ids[n];
            var content := if id in bodies then bodies[id] else [];
            Expected(MAGIC + (Encoded(items) + BodyStart(id, sizes[id], bodies)), true, sha, dec).Restored? <==>
            Passes(items, id, sizes[id], content, sha, dec)
  {
    var items, id := EntryItems(listing) + BodyItems(ids[..n], sizes, bodies), ids[n];
    ArchiveFits(listing, ids[..n], sizes, bodies);
    LinkedIdsFit(listing, ids);
    FailedBackupAcceptedIff(items, id, sizes[id], if id in bodies then bodies[id] else [], sha, dec);
  }

  // ---------------------------------------------------------------------------------------------
  // A failed backup that passes

  const LINKED: Item := Entry([0x62, 0, 0, 0, 1, 0x61], [])

  /** A body that spells an end marker and a manifest. */
  function Surplus(raw: Bytes): Bytes {
    Payload([]) + ManifestRecord(raw)
  }

  lemma SurplusScan(raw: Bytes)
    ensures ScanItems(Surplus(raw)) == Scan([], AtEnd(ManifestRecord(raw)))
    ensures Covered(Surplus(raw), AtEnd(ManifestRecord(raw))) == Payload([])
    ensures Surplus(raw)[0..] == Surplus(raw) && Surplus(raw)[..0] == []
  {
    PayloadReads([], ManifestRecord(raw));
    assert Surplus(raw)[..|Payload([])|] == Payload([]);
  }

  lemma TwoItems()
    ensures var all := [LINKED, Body([0x61], 0, [])];
            |Entries(all)| == 1 && BodyCount(all) == 1 && BodySizes(all) == 0
  {
    var body := Body([0x61], 0, []);
    Snoc([], LINKED, map[], false);
    TallySnoc([], LINKED);
    Snoc([] + [LINKED], body, map[], false);
    TallySnoc([] + [LINKED], body);
    assert [] + [LINKED] + [body] == [LINKED, body];
  }

  /** The manifest such a body has to spell for a given digest. */
  function SurplusManifest(sha: Bytes -> Bytes): Manifest {
    Manifest("", 1, 0, 1, 0, 0, true, sha(FailedStream([LINKED], [0x61], 0, Payload([]))))
  }

  /**
   A blob announced as empty whose body is such a surplus: whatever the digest, the backup of it fails and the stream
   it leaves behind is accepted, if only this one manifest has a text form that reads back.
   */
  lemma FailedBackupCanPass(sha: Bytes -> Bytes, enc: Manifest -> Bytes, dec: Bytes -> Option<Manifest>)
    requires var m := SurplusManifest(sha); dec(enc(m)) == Some(m) && |enc(m)| < U32
    ensures var m := SurplusManifest(sha);
            && Expected(MAGIC + FailedStream([LINKED], [0x61], 0, Surplus(enc(m))), true, sha, dec) == Restored(m)
            && Drifts([0x61], map[[0x61] := 0], map[[0x61] := Surplus(enc(m))])
  {
    var m := SurplusManifest(sha);
    var raw, content := enc(m), Surplus(enc(m));
    var stream := FailedStream([LINKED], [0x61], 0, content);
    SurplusScan(raw);
    FailedScan([LINKED], [0x61], 0, content);
    assert [LINKED] + ([Body([0x61], 0, [])] + []) == [LINKED, Body([0x61], 0, [])];
    FailedCovered([LINKED], [0x61], 0, content, stream, AtEnd(ManifestRecord(raw)));
    ManifestReads(raw);
    TwoItems();
    assert (MAGIC + stream)[..|MAGIC|] == MAGIC && (MAGIC + stream)[|MAGIC|..] == stream;
  }

  /** There are such text forms for every digest, so that the failure is a real one. */
  lemma SurplusCanBeSpelled(sha: Bytes -> Bytes) returns (enc: Manifest -> Bytes, dec: Bytes -> Option<Manifest>)
    ensures var m := SurplusManifest(sha); dec(enc(m)) == Some(m) && |enc(m)| < U32
    ensures var m := SurplusManifest(sha);
            Expected(MAGIC + FailedStream([LINKED], [0x61], 0, Surplus(enc(m))), true, sha, dec) == Restored(m)
  {
    var m := SurplusManifest(sha);
    enc, dec := _ => [0x7B, 0x7D], _ => Some(m);
    FailedBackupCanPass(sha, enc, dec);
  }
}
