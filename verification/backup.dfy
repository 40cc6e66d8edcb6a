/**
 Full backup and restore of a store: every KV entry and every blob the link registry names. The digest and the manifest's
 text form are parameters; the manifest's text form reads back.
 */
module Backups {
  import opened ByteKeys
  import opened Options
  import opened BackupFormat

  /** What the manifest records; `about` stands for format, version, engine, creation time, backend and drift. */
  datatype Manifest = Manifest(
    about: string,
    kvEntries: nat,
    kvBytes: nat,
    blobs: nat,
    blobBytes: int,
    missing: nat,
    complete: bool,
    sha: Bytes)

  type KV = map<Bytes, Bytes>

  type Pairs = seq<(Bytes, Bytes)>

  // ---------------------------------------------------------------------------------------------
  // Accounts of a record list

  function Entries(items: seq<Item>): Pairs {
    if items == [] then []
    else
      var last := items[|items| - 1];
      Entries(items[..|items| - 1]) + if last.Entry? then [(last.key, last.value)] else []
  }

  function BodyCount(items: seq<Item>): nat {
    if items == [] then 0 else BodyCount(items[..|items| - 1]) + if items[|items| - 1].Body? then 1 else 0
  }

  function BodySizes(items: seq<Item>): int {
    if items == [] then 0
    else BodySizes(items[..|items| - 1]) + if items[|items| - 1].Body? then items[|items| - 1].size else 0
  }

  /** The store after a batch of writes, the last write to a key winning. */
  function Upserted(kv: KV, pairs: Pairs): KV {
    if pairs == [] then kv
    else Upserted(kv, pairs[..|pairs| - 1])[pairs[|pairs| - 1].0 := pairs[|pairs| - 1].1]
  }

  /** A blob store that keeps what it has under an id skips the write; the other kind overwrites. */
  function PutBlob(blobs: KV, id: Bytes, content: Bytes, keeps: bool): KV {
    if keeps && id in blobs then blobs else blobs[id := content]
  }

  function Stored(blobs: KV, items: seq<Item>, keeps: bool): KV {
    if items == [] then blobs
    else
      var before, last := Stored(blobs, items[..|items| - 1], keeps), items[|items| - 1];
      if last.Body? then PutBlob(before, last.id, last.content, keeps) else before
  }

  lemma TallySnoc(items: seq<Item>, item: Item)
    ensures BodyCount(items + [item]) == BodyCount(items) + if item.Body? then 1 else 0
    ensures BodySizes(items + [item]) == BodySizes(items) + if item.Body? then item.size else 0
  {
    assert (items + [item])[..|items|] == items;
  }

  lemma Snoc(items: seq<Item>, item: Item, kv: KV, keeps: bool)
    ensures Entries(items + [item]) == Entries(items) + if item.Entry? then [(item.key, item.value)] else []
    ensures Stored(kv, items + [item], keeps) ==
            if item.Body? then PutBlob(Stored(kv, items, keeps), item.id, item.content, keeps) else Stored(kv, items, keeps)
  {
    assert (items + [item])[..|items|] == items;
  }

  lemma {:induction false} UpsertedConcat(kv: KV, a: Pairs, b: Pairs)
    ensures Upserted(kv, a + b) == Upserted(Upserted(kv, a), b)
  {
    if b == [] {
      assert a + b == a;
    } else {
      assert (a + b)[..|a + b| - 1] == a + b[..|b| - 1];
      UpsertedConcat(kv, a, b[..|b| - 1]);
    }
  }

  /** What the manifest counts: entries in their order, bodies one each, and the framed sizes of the bodies. */
  lemma {:induction false} TalliesOf(items: seq<Item>, more: seq<Item>)
    ensures Entries(items + more) == Entries(items) + Entries(more)
    ensures BodyCount(items + more) == BodyCount(items) + BodyCount(more)
    ensures BodySizes(items + more) == BodySizes(items) + BodySizes(more)
  {
    if more == [] {
      assert items + more == items;
    } else {
      var front, last := more[..|more| - 1], more[|more| - 1];
      TalliesOf(items, front);
      assert items + more == (items + front) + [last];
      Snoc(items + front, last, map[], false);
      TallySnoc(items + front, last);
    }
  }

  lemma TallyOfOne(item: Item)
    ensures Entries([item]) == match item case Entry(k, v) => [(k, v)] case Body(_, _, _) => []
    ensures BodyCount([item]) == match item case Entry(_, _) => 0 case Body(_, _, _) => 1
    ensures BodySizes([item]) == match item case Entry(_, _) => 0 case Body(_, size, _) => size
  {
    assert [] + [item] == [item];
    Snoc([], item, map[], false);
    TallySnoc([], item);
  }

  /** A key that a batch does not write holds what it held. */
  lemma {:induction false} UpsertedElsewhere(kv: KV, pairs: Pairs, k: Bytes)
    requires forall i :: 0 <= i < |pairs| ==> pairs[i].0 != k
    ensures (k in Upserted(kv, pairs) <==> k in kv) && (k in kv ==> Upserted(kv, pairs)[k] == kv[k])
  {
    if pairs != [] {
      UpsertedElsewhere(kv, pairs[..|pairs| - 1], k);
    }
  }

  /** A key holds what was last written to it. */
  lemma {:induction false} UpsertedHolds(kv: KV, pairs: Pairs, i: nat)
    requires i < |pairs| && forall j :: i < j < |pairs| ==> pairs[j].0 != pairs[i].0
    ensures pairs[i].0 in Upserted(kv, pairs) && Upserted(kv, pairs)[pairs[i].0] == pairs[i].1
  {
    if i < |pairs| - 1 {
      UpsertedHolds(kv, pairs[..|pairs| - 1], i);
    }
  }

  predicate IsBodyOf(item: Item, id: Bytes) {
    item.Body? && item.id == id
  }

  /** A store that keeps its bodies goes on holding them, and any store those that no record writes. */
  lemma {:induction false} StoredElsewhere(blobs: KV, items: seq<Item>, keeps: bool, id: Bytes)
    requires (keeps && id in blobs) || forall i :: 0 <= i < |items| ==> !IsBodyOf(items[i], id)
    ensures var now := Stored(blobs, items, keeps); (id in now <==> id in blobs) && (id in now ==> now[id] == blobs[id])
  {
    if items != [] {
      StoredElsewhere(blobs, items[..|items| - 1], keeps, id);
    }
  }

  /** One that keeps holds the first body that came, one that overwrites the last. */
  lemma {:induction false} StoredHolds(blobs: KV, items: seq<Item>, keeps: bool, i: nat)
    requires i < |items| && items[i].Body?
    requires if keeps then items[i].id !in blobs && forall j :: 0 <= j < i ==> !IsBodyOf(items[j], items[i].id)
             else forall j :: i < j < |items| ==> !IsBodyOf(items[j], items[i].id)
    ensures items[i].id in Stored(blobs, items, keeps) && Stored(blobs, items, keeps)[items[i].id] == items[i].content
  {
    var front := items[..|items| - 1];
    if i < |items| - 1 {
      StoredHolds(blobs, front, keeps, i);
    } else if keeps {
      StoredElsewhere(blobs, front, keeps, items[i].id);
    }
  }

  // ---------------------------------------------------------------------------------------------
  // Backup

  lemma Join(a: Bytes, b: Bytes, c: Bytes)
    ensures a + b + c == a + (b + c)
  {}

  lemma {:induction false} EncodedSnoc(items: seq<Item>, item: Item)
    ensures Encoded(items + [item]) == Encoded(items) + EncodeItem(item)
  {
    if items == [] {
      assert [] + [item] == [item] && Encoded([item]) == EncodeItem(item) + Encoded([]);
    } else {
      assert (items + [item])[1..] == items[1..] + [item];
      EncodedSnoc(items[1..], item);
      Join(EncodeItem(items[0]), Encoded(items[1..]), EncodeItem(item));
    }
  }

  /** What stands in the stream of a blob whose body could not be had, or was not of the announced size. */
  function BodyStart(id: Bytes, size: nat, bodies: KV): Bytes {
    [REC_BLOB] + BigEndian(|id|, 4) + BigEndian(size, 8) + id + if id in bodies then bodies[id] else []
  }

  /** A writer that feeds the archive, begun with the magic, and the digest. */
  class Sink {
    var out: Bytes
    var hashed: Bytes
    ghost var items: seq<Item>

    ghost predicate Valid()
      reads this
    {
      hashed == Encoded(items) && out == MAGIC + hashed
    }

    constructor ()
      ensures Valid() && items == []
    {
      out, hashed, items := MAGIC, [], [];
    }

    method Write(b: Bytes)
      modifies this`out, this`hashed
      ensures hashed == old(hashed) + b
      ensures old(out == MAGIC + hashed) ==> out == MAGIC + hashed
    {
      Join(MAGIC, hashed, b);
      out, hashed := out + b, hashed + b;
    }

    /** Past the digest. */
    method WritePlain(b: Bytes)
      modifies this`out
      ensures out == old(out) + b
    {
      out := out + b;
    }

    method WriteKVEntry(k: Bytes, v: Bytes)
      requires Valid()
      modifies this
      ensures Valid() && items == old(items) + [Entry(k, v)]
    {
      var header := [REC_KV] + BigEndian(|k|, 4) + BigEndian(|v|, 4);
      Write(header);
      Write(k);
      Write(v);
      Join(old(hashed), header, k);
      Join(old(hashed), header + k, v);
      EncodedEntry(k, v);
      EncodedSnoc(items, Entry(k, v));
      items := items + [Entry(k, v)];
    }

    method WriteBlobHeader(id: Bytes, size: nat)
      modifies this`out, this`hashed
      ensures hashed == old(hashed) + ([REC_BLOB] + BigEndian(|id|, 4) + BigEndian(size, 8) + id)
      ensures old(out == MAGIC + hashed) ==> out == MAGIC + hashed
    {
      var header := [REC_BLOB] + BigEndian(|id|, 4) + BigEndian(size, 8);
      Write(header);
      Write(id);
      Join(old(hashed), header, id);
    }

    /** One blob, header and body; false when its body cannot be had or is not of the announced size. */
    method WriteBody(id: Bytes, size: nat, bodies: KV) returns (ok: bool)
      requires Valid()
      modifies this
      ensures ok == (id in bodies && |bodies[id]| == size)
      ensures ok ==> Valid() && items == old(items) + [Body(id, size, bodies[id])]
      ensures !ok ==> items == old(items) && out == MAGIC + (Encoded(items) + BodyStart(id, size, bodies))
    {
      WriteBlobHeader(id, size);
      ghost var header := [REC_BLOB] + BigEndian(|id|, 4) + BigEndian(size, 8) + id;
      if id !in bodies {
        assert header + [] == header;
        return false;
      }
      Write(bodies[id]);
      Join(old(hashed), header, bodies[id]);
      ok := |bodies[id]| == size;
      if ok {
        EncodedBody(id, size, bodies[id]);
        EncodedSnoc(items, Body(id, size, bodies[id]));
        items := items + [Body(id, size, bodies[id])];
      }
    }

    method WriteEnd()
      requires Valid()
      modifies this`out, this`hashed
      ensures hashed == Payload(items) && out == MAGIC + Payload(items)
    {
      Write([REC_END]);
    }

    method WriteManifest(raw: Bytes)
      modifies this`out
      ensures out == old(out) + ManifestRecord(raw)
    {
      WritePlain([REC_MANIFEST] + BigEndian(|raw|, 4));
      WritePlain(raw);
      Join(old(out), [REC_MANIFEST] + BigEndian(|raw|, 4), raw);
    }
  }

  /** The link registry: keys 'b', four account bytes, the blob id. */
  predicate IsLink(k: Bytes) {
    |k| > 5 && k[0] == 0x62
  }

  ghost predicate Linked(listing: Pairs, id: Bytes) {
    exists i :: 0 <= i < |listing| && IsLink(listing[i].0) && listing[i].0[5..] == id
  }

  predicate AscendingIds(ids: seq<Bytes>) {
    forall i, j :: 0 <= i < j < |ids| ==> Before(ids[i], ids[j])
  }

  lemma {:induction false} BeforeTransitive(a: Bytes, b: Bytes, c: Bytes)
    requires Before(a, b) && Before(b, c)
    ensures Before(a, c)
  {
    if a != [] && a[0] == b[0] && b[0] == c[0] {
      BeforeTransitive(a[1..], b[1..], c[1..]);
    }
  }

  /** Places an id among ascending ones, once. */
  method InsertId(ids: seq<Bytes>, id: Bytes) returns (more: seq<Bytes>)
    requires AscendingIds(ids)
    ensures AscendingIds(more) && forall x :: x in more <==> x in ids || x == id
  {
    var i := 0;
    while i < |ids| && Before(ids[i], id)
      invariant 0 <= i <= |ids| && forall j :: 0 <= j < i ==> Before(ids[j], id)
    {
      i := i + 1;
    }
    if i < |ids| && ids[i] == id {
      return ids;
    }
    more := ids[..i] + [id] + ids[i..];
    forall j | i <= j < |ids| ensures Before(id, ids[j]) {
      BeforeTotal(id, ids[i]);
      if i < j {
        BeforeTransitive(id, ids[i], ids[j]);
      }
    }
    assert forall x :: x in ids <==> x in ids[..i] || x in ids[i..];
  }

  /** The distinct linked blob ids, ascending. */
  method LinkedBlobIds(listing: Pairs) returns (ids: seq<Bytes>)
    ensures AscendingIds(ids) && forall id :: id in ids <==> Linked(listing, id)
  {
    ids := [];
    for n := 0 to |listing|
      invariant AscendingIds(ids) && forall id :: id in ids <==> Linked(listing[..n], id)
    {
      var k := listing[n].0;
      LinkedSnoc(listing, n);
      if IsLink(k) {
        ids := InsertId(ids, k[5..]);
      }
    }
    assert listing[..|listing|] == listing;
  }

  lemma LinkedSnoc(listing: Pairs, n: nat)
    requires n < |listing|
    ensures forall id :: Linked(listing[..n + 1], id) <==>
                         Linked(listing[..n], id) || (IsLink(listing[n].0) && id == listing[n].0[5..])
  {
    var upTo, now := listing[..n], listing[..n + 1];
    assert now == upTo + [listing[n]];
    forall id ensures Linked(now, id) <==> Linked(upTo, id) || (IsLink(listing[n].0) && id == listing[n].0[5..]) {
      if Linked(upTo, id) {
        var i :| 0 <= i < |upTo| && IsLink(upTo[i].0) && upTo[i].0[5..] == id;
        assert now[i] == upTo[i];
      }
      if IsLink(listing[n].0) && id == listing[n].0[5..] {
        assert now[n] == listing[n];
      }
    }
  }

  function EntryItems(listing: Pairs): seq<Item> {
    if listing == [] then []
    else EntryItems(listing[..|listing| - 1]) + [Entry(listing[|listing| - 1].0, listing[|listing| - 1].1)]
  }

  /** The blobs of `ids` that the blob store has, by what it says their sizes are and what it hands out. */
  function BodyItems(ids: seq<Bytes>, sizes: map<Bytes, nat>, bodies: KV): seq<Item> {
    if ids == [] then []
    else
      var last := ids[|ids| - 1];
      BodyItems(ids[..|ids| - 1], sizes, bodies) + if last in sizes && last in bodies then [Body(last, sizes[last], bodies[last])] else []
  }

  function PairBytes(listing: Pairs): nat {
    if listing == [] then 0
    else PairBytes(listing[..|listing| - 1]) + |listing[|listing| - 1].0| + |listing[|listing| - 1].1|
  }

  /** The byte count of a listing is that of its keys and values. */
  lemma {:induction false} PairBytesOf(a: Pairs, b: Pairs)
    ensures PairBytes(a + b) == PairBytes(a) + PairBytes(b)
    ensures forall k: Bytes, v: Bytes :: PairBytes([(k, v)]) == |k| + |v|
  {
    forall k: Bytes, v: Bytes ensures PairBytes([(k, v)]) == |k| + |v| {
      assert PairBytes([(k, v)]) == PairBytes([]) + |k| + |v|;
    }
    if b == [] {
      assert a + b == a;
    } else {
      assert (a + b)[..|a + b| - 1] == a + b[..|b| - 1];
      PairBytesOf(a, b[..|b| - 1]);
    }
  }

  datatype BackupResult = Done(manifest: Manifest) | Failed(id: Bytes)

  /** A blob whose body cannot be had, or is not as long as the store says. */
  predicate Drifts(id: Bytes, sizes: map<Bytes, nat>, bodies: KV) {
    id in sizes && (id !in bodies || |bodies[id]| != sizes[id])
  }

  method WriteEntries(w: Sink, listing: Pairs) returns (bytes: nat)
    requires w.Valid()
    modifies w
    ensures w.Valid() && w.items == old(w.items) + EntryItems(listing)
    ensures bytes == PairBytes(listing)
  {
    bytes := 0;
    for n := 0 to |listing|
      invariant w.Valid() && w.items == old(w.items) + EntryItems(listing[..n])
      invariant bytes == PairBytes(listing[..n])
    {
      w.WriteKVEntry(listing[n].0, listing[n].1);
      bytes := bytes + |listing[n].0| + |listing[n].1|;
      assert listing[..n + 1][..n] == listing[..n];
      assert EntryItems(listing[..n + 1]) == EntryItems(listing[..n]) + [Entry(listing[n].0, listing[n].1)];
    }
    assert listing[..|listing|] == listing;
  }

  ghost predicate NoneDrift(ids: seq<Bytes>, sizes: map<Bytes, nat>, bodies: KV) {
    ids == [] || (NoneDrift(ids[..|ids| - 1], sizes, bodies) && !Drifts(ids[|ids| - 1], sizes, bodies))
  }

  lemma {:induction false} NoneDriftMeans(ids: seq<Bytes>, sizes: map<Bytes, nat>, bodies: KV)
    ensures NoneDrift(ids, sizes, bodies) <==> forall id :: id in ids ==> !Drifts(id, sizes, bodies)
  {
    if ids != [] {
      NoneDriftMeans(ids[..|ids| - 1], sizes, bodies);
      assert ids == ids[..|ids| - 1] + [ids[|ids| - 1]];
    }
  }

  /** The bodies of `ids`, none of which drifts, are written behind what was there, and counted. */
  ghost predicate Written(items: seq<Item>, before: seq<Item>, ids: seq<Bytes>, sizes: map<Bytes, nat>, bodies: KV,
                          t: Tallies)
  {
    var done := BodyItems(ids, sizes, bodies);
    && NoneDrift(ids, sizes, bodies)
    && items == before + done && t.count == BodyCount(done) && t.total == BodySizes(done) && t.count + t.missing == |ids|
  }

  /** One more id that does not drift: it adds its body to the list and to the tallies, or is missing. */
  lemma WrittenSnoc(items: seq<Item>, before: seq<Item>, ids: seq<Bytes>, id: Bytes, sizes: map<Bytes, nat>, bodies: KV,
                    t: Tallies)
    requires Written(items, before, ids, sizes, bodies, t)
    ensures id !in sizes ==> Written(items, before, ids + [id], sizes, bodies, t.(missing := t.missing + 1))
    ensures id in sizes && !Drifts(id, sizes, bodies) ==>
              Written(items + [Body(id, sizes[id], bodies[id])], before, ids + [id], sizes, bodies,
                      t.(count := t.count + 1, total := t.total + sizes[id]))
  {
    var more := ids + [id];
    assert more[..|more| - 1] == ids;
    if id in sizes && !Drifts(id, sizes, bodies) {
      var done, item := BodyItems(ids, sizes, bodies), Body(id, sizes[id], bodies[id]);
      TallySnoc(done, item);
      assert before + (done + [item]) == before + done + [item];
    } else if id !in sizes {
      assert BodyItems(more, sizes, bodies) == BodyItems(ids, sizes, bodies);
    }
  }

  /** The stream ends within the `n`th blob, the first that drifts; those before it are complete. */
  ghost predicate StoppedAt(w: Sink, before: seq<Item>, ids: seq<Bytes>, sizes: map<Bytes, nat>, bodies: KV, n: nat)
    reads w
  {
    && n < |ids| && Drifts(ids[n], sizes, bodies) && NoneDrift(ids[..n], sizes, bodies)
    && w.items == before + BodyItems(ids[..n], sizes, bodies)
    && w.out == MAGIC + (Encoded(w.items) + BodyStart(ids[n], sizes[ids[n]], bodies))
  }

  /** How many bodies were written, of what size, and how many were not there. */
  datatype Tallies = Tallies(count: nat, total: nat, missing: nat)

  /** One linked blob, passed over when the store does not have it. */
  method WriteLinked(w: Sink, id: Bytes, sizes: map<Bytes, nat>, bodies: KV, was: Tallies,
                     ghost before: seq<Item>, ghost ids: seq<Bytes>)
    returns (ok: bool, now: Tallies)
    requires w.Valid() && Written(w.items, before, ids, sizes, bodies, was)
    modifies w
    ensures ok == !Drifts(id, sizes, bodies)
    ensures ok ==> w.Valid() && Written(w.items, before, ids + [id], sizes, bodies, now)
    ensures !ok ==> w.items == old(w.items) && w.out == MAGIC + (Encoded(w.items) + BodyStart(id, sizes[id], bodies))
  {
    ok, now := true, was.(missing := was.missing + 1);
    WrittenSnoc(w.items, before, ids, id, sizes, bodies, was);
    if id in sizes {
      ok := w.WriteBody(id, sizes[id], bodies);
      now := was.(count := was.count + 1, total := was.total + sizes[id]);
    }
  }

  method WriteBodies(w: Sink, ids: seq<Bytes>, sizes: map<Bytes, nat>, bodies: KV)
    returns (failed: Option<Bytes>, t: Tallies, ghost at: nat)
    requires w.Valid()
    modifies w
    ensures failed.Some? ==> StoppedAt(w, old(w.items), ids, sizes, bodies, at) && ids[at] == failed.value
    ensures failed.None? ==> w.Valid() && Written(w.items, old(w.items), ids, sizes, bodies, t)
  {
    failed, t, at := None, Tallies(0, 0, 0), 0;
    ghost var before, done := w.items, [];
    assert before + [] == before;
    for n := 0 to |ids|
      invariant done == ids[..n] && w.Valid() && Written(w.items, before, done, sizes, bodies, t)
    {
      var ok, now := WriteLinked(w, ids[n], sizes, bodies, t, before, done);
      if !ok {
        return Some(ids[n]), t, n;
      }
      t, done := now, done + [ids[n]];
    }
    assert done == ids;
  }

  /** What a completed archive says of itself. */
  function ManifestOf(about: string, listing: Pairs, ids: seq<Bytes>, bodies: seq<Item>, sha: Bytes): Manifest
    requires BodyCount(bodies) <= |ids|
  {
    Manifest(about, |listing|, PairBytes(listing), BodyCount(bodies), BodySizes(bodies), |ids| - BodyCount(bodies), true, sha)
  }

  /** End marker, digest and manifest. */
  method Seal(w: Sink, about: string, entries: nat, bytes: nat, count: nat, total: int, missing: nat,
              sha: Bytes -> Bytes, enc: Manifest -> Bytes)
    returns (m: Manifest)
    requires w.Valid()
    modifies w`out, w`hashed
    ensures m == Manifest(about, entries, bytes, count, total, missing, true, sha(Payload(w.items)))
    ensures w.out == Archive(w.items, enc(m))
  {
    w.WriteEnd();
    m := Manifest(about, entries, bytes, count, total, missing, true, sha(w.hashed));
    w.WriteManifest(enc(m));
  }

  /**
   Writes an archive of the store whose entries a scan lists. It completes exactly when no linked blob drifts: the
   stored size must be the length of the body handed out.
   */
  method BackUp(w: Sink, about: string, listing: Pairs, sizes: map<Bytes, nat>, bodies: KV,
                sha: Bytes -> Bytes, enc: Manifest -> Bytes)
    returns (r: BackupResult, ids: seq<Bytes>)
    requires w.Valid() && w.items == []
    modifies w
    ensures AscendingIds(ids) && forall id :: id in ids <==> Linked(listing, id)
    ensures r.Done? <==> forall id :: id in ids ==> !Drifts(id, sizes, bodies)
    ensures r.Failed? ==> exists n: nat :: StoppedAt(w, EntryItems(listing), ids, sizes, bodies, n) && ids[n] == r.id
    ensures r.Done? ==>
              && w.items == EntryItems(listing) + BodyItems(ids, sizes, bodies)
              && BodyCount(BodyItems(ids, sizes, bodies)) <= |ids|
              && r.manifest == ManifestOf(about, listing, ids, BodyItems(ids, sizes, bodies), sha(Payload(w.items)))
              && w.out == Archive(w.items, enc(r.manifest))
  {
    var bytes := WriteEntries(w, listing);
    assert w.items == EntryItems(listing);
    ids := LinkedBlobIds(listing);
    var failed, t, at := WriteBodies(w, ids, sizes, bodies);
    if failed.Some? {
      return Failed(failed.value), ids;
    }
    NoneDriftMeans(ids, sizes, bodies);
    var m := Seal(w, about, |listing|, bytes, t.count, t.total, t.missing, sha, enc);
    r := Done(m);
  }
}
