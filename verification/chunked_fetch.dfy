/**
 Listing a mailbox: the index names documents in UID order, the documents are fetched with range scans over runs of
 neighbouring ids, and each scan groups field cells into documents as they stream by.
 */
module ChunkedFetch {
  import opened ByteKeys
  import opened Sorting

  type Fields = map<Byte, Bytes>

  /** One stored field of a document. */
  datatype Cell = Cell(doc: nat, field: Byte, value: Bytes)

  /** A document as it was read. */
  type Document = (nat, Fields)

  /** The field that marks a document as live. */
  const META: Byte := 0

  /** Cells in key order: by document, then by field. */
  ghost predicate Ordered(cells: seq<Cell>) {
    forall i, j :: 0 <= i < j < |cells| ==>
                     cells[i].doc < cells[j].doc || (cells[i].doc == cells[j].doc && cells[i].field < cells[j].field)
  }

  /** The key of a field: the collection's prefix, the document id in eight bytes, the field. */
  function FieldKey(prefix: Bytes, cell: Cell): Bytes {
    prefix + (BigEndian(cell.doc, 8) + [cell.field])
  }

  /** Key order is document order, then field order. */
  lemma FieldKeyOrder(prefix: Bytes, a: Cell, b: Cell)
    requires a.doc <= MAX_U64 && b.doc <= MAX_U64
    ensures Before(FieldKey(prefix, a), FieldKey(prefix, b)) <==> a.doc < b.doc || (a.doc == b.doc && a.field < b.field)
  {
    var x, y := BigEndian(a.doc, 8), BigEndian(b.doc, 8);
    BeforeSamePrefix(prefix, x + [a.field], y + [b.field]);
    U64RoundTrip(a.doc);
    U64RoundTrip(b.doc);
    OrderIsNumeric(x, y);
    BeforeSnoc(x, a.field, y, b.field);
  }

  /** Ids are 64-bit numbers. */
  predicate WideIds(cells: seq<Cell>) {
    forall i :: 0 <= i < |cells| ==> cells[i].doc <= MAX_U64
  }

  /** Cells as a store hands them out: by ascending key. */
  ghost predicate ByKey(prefix: Bytes, cells: seq<Cell>) {
    && WideIds(cells)
    && forall i, j :: 0 <= i < j < |cells| ==> Before(FieldKey(prefix, cells[i]), FieldKey(prefix, cells[j]))
  }

  lemma ByKeyIsOrdered(prefix: Bytes, cells: seq<Cell>)
    requires ByKey(prefix, cells)
    ensures Ordered(cells)
  {
    forall i, j | 0 <= i < j < |cells|
      ensures cells[i].doc < cells[j].doc || (cells[i].doc == cells[j].doc && cells[i].field < cells[j].field)
    {
      FieldKeyOrder(prefix, cells[i], cells[j]);
    }
  }

  /** All fields stored for a document. */
  function FieldsOf(cells: seq<Cell>, doc: nat): Fields {
    if cells == [] then map[]
    else
      var before, last := FieldsOf(cells[..|cells| - 1], doc), cells[|cells| - 1];
      if last.doc == doc then before[last.field := last.value] else before
  }

  predicate Live(cells: seq<Cell>, doc: nat) {
    META in FieldsOf(cells, doc)
  }

  /** The key of a document, and the first key behind it: at the last id that is the end of the collection. */
  function DocumentKey(prefix: Bytes, doc: nat): Bytes {
    prefix + (BigEndian(doc, 8) + [])
  }

  function RangeEnd(prefix: Bytes, hi: nat): Bytes {
    if hi == MAX_U64 then PrefixEnd(prefix) else DocumentKey(prefix, hi + 1)
  }

  predicate InScan(prefix: Bytes, k: Bytes, lo: nat, hi: nat) {
    AtOrAfter(k, DocumentKey(prefix, lo)) && Before(k, RangeEnd(prefix, hi))
  }

  /** A collection's prefix starts with the byte of the document space, so something comes behind it. */
  predicate Bounded(prefix: Bytes) {
    exists i :: 0 <= i < |prefix| && prefix[i] < 255
  }

  lemma KeyAgainstDocument(prefix: Bytes, cell: Cell, doc: nat)
    requires cell.doc <= MAX_U64 && doc <= MAX_U64
    ensures Before(FieldKey(prefix, cell), DocumentKey(prefix, doc)) <==> cell.doc < doc
  {
    BeforeSamePrefix(prefix, BigEndian(cell.doc, 8) + [cell.field], BigEndian(doc, 8) + []);
    ExtendedOrder(cell.doc, [cell.field], doc);
  }

  /** The key range of a scan holds exactly the fields of the documents from `lo` to `hi`, the last id included. */
  lemma FieldInScan(prefix: Bytes, cell: Cell, lo: nat, hi: nat)
    requires cell.doc <= MAX_U64 && lo <= MAX_U64 && hi <= MAX_U64 && Bounded(prefix)
    ensures InScan(prefix, FieldKey(prefix, cell), lo, hi) <==> lo <= cell.doc <= hi
  {
    KeyAgainstDocument(prefix, cell, lo);
    if hi == MAX_U64 {
      UnderPrefixBefore(prefix, BigEndian(cell.doc, 8) + [cell.field]);
    } else {
      KeyAgainstDocument(prefix, cell, hi + 1);
    }
  }

  /** And no key of another collection, or of another space. */
  lemma ScanStaysInside(prefix: Bytes, k: Bytes, lo: nat, hi: nat)
    requires Bounded(prefix) && InScan(prefix, k, lo, hi)
    ensures prefix <= k
  {
    if hi == MAX_U64 {
      PrefixEndBounds(prefix, BigEndian(lo, 8) + [], k);
    } else {
      BetweenSamePrefix(prefix, BigEndian(lo, 8) + [], k, BigEndian(hi + 1, 8) + []);
    }
  }

  /** The cells a range scan visits: those whose keys lie between its bounds. */
  function Between(prefix: Bytes, cells: seq<Cell>, lo: nat, hi: nat): seq<Cell> {
    if cells == [] then []
    else
      var before, last := Between(prefix, cells[..|cells| - 1], lo, hi), cells[|cells| - 1];
      if InScan(prefix, FieldKey(prefix, last), lo, hi) then before + [last] else before
  }

  lemma {:induction false} BetweenOrdered(prefix: Bytes, cells: seq<Cell>, lo: nat, hi: nat)
    requires Ordered(cells)
    ensures Ordered(Between(prefix, cells, lo, hi)) && forall c :: c in Between(prefix, cells, lo, hi) ==> c in cells
  {
    if cells != [] {
      var front, last := cells[..|cells| - 1], cells[|cells| - 1];
      BetweenOrdered(prefix, front, lo, hi);
      assert cells == front + [last];
      var before := Between(prefix, front, lo, hi);
      forall i | 0 <= i < |before|
        ensures before[i].doc < last.doc || (before[i].doc == last.doc && before[i].field < last.field)
      {
        assert before[i] in front;
      }
    }
  }

  lemma {:induction false} BetweenFields(prefix: Bytes, cells: seq<Cell>, lo: nat, hi: nat, doc: nat)
    requires WideIds(cells) && lo <= MAX_U64 && hi <= MAX_U64 && Bounded(prefix)
    ensures FieldsOf(Between(prefix, cells, lo, hi), doc) == if lo <= doc <= hi then FieldsOf(cells, doc) else map[]
  {
    if cells != [] {
      BetweenFields(prefix, cells[..|cells| - 1], lo, hi, doc);
      var before, last := Between(prefix, cells[..|cells| - 1], lo, hi), cells[|cells| - 1];
      FieldInScan(prefix, last, lo, hi);
      assert (before + [last])[..|before|] == before;
    }
  }

  lemma {:induction false} NoFields(cells: seq<Cell>, doc: nat)
    requires forall i :: 0 <= i < |cells| ==> cells[i].doc != doc
    ensures FieldsOf(cells, doc) == map[]
  {
    if cells != [] {
      NoFields(cells[..|cells| - 1], doc);
    }
  }

  predicate InIdOrder(docs: seq<Document>) {
    forall i, j :: 0 <= i < j < |docs| ==> docs[i].0 < docs[j].0
  }

  /** The live documents below `end`, each once with all its fields, by ascending id. */
  ghost predicate Surfaced(docs: seq<Document>, cells: seq<Cell>, end: nat) {
    && InIdOrder(docs)
    && forall d: Document :: d in docs <==> d.0 < end && Live(cells, d.0) && d.1 == FieldsOf(cells, d.0)
  }

  lemma SurfacedAll(docs: seq<Document>, cells: seq<Cell>, end: nat, more: nat)
    requires Surfaced(docs, cells, end) && end <= more && forall d :: end <= d < more ==> !Live(cells, d)
    ensures Surfaced(docs, cells, more)
  {}

  lemma SurfacedOne(docs: seq<Document>, cells: seq<Cell>, doc: nat)
    requires Surfaced(docs, cells, doc) && Live(cells, doc)
    ensures Surfaced(docs + [(doc, FieldsOf(cells, doc))], cells, doc + 1)
  {
    assert forall i :: 0 <= i < |docs| ==> docs[i] in docs;
  }

  /** Fields of a document are complete once the cells have moved past it. */
  lemma {:induction false} PastFields(cells: seq<Cell>, n: nat, doc: nat)
    requires n <= |cells| && forall i :: n <= i < |cells| ==> cells[i].doc != doc
    ensures FieldsOf(cells, doc) == FieldsOf(cells[..n], doc)
    decreases |cells|
  {
    if n == |cells| {
      assert cells[..n] == cells;
    } else {
      var front := cells[..|cells| - 1];
      PastFields(front, n, doc);
      assert front[..n] == cells[..n];
    }
  }

  lemma NotLiveBetween(cells: seq<Cell>, n: nat, doc: nat)
    requires Ordered(cells) && 0 < n < |cells| && cells[n - 1].doc < doc < cells[n].doc
    ensures !Live(cells, doc)
  {
    NoFields(cells, doc);
  }

  lemma SurfacedGap(docs: seq<Document>, cells: seq<Cell>, n: nat)
    requires Ordered(cells) && 0 < n < |cells| && cells[n - 1].doc < cells[n].doc
    requires Surfaced(docs, cells, cells[n - 1].doc + 1)
    ensures Surfaced(docs, cells, cells[n].doc)
  {
    forall d | cells[n - 1].doc + 1 <= d < cells[n].doc ensures !Live(cells, d) {
      NotLiveBetween(cells, n, d);
    }
    SurfacedAll(docs, cells, cells[n - 1].doc + 1, cells[n].doc);
  }

  /** Passes on a complete document if it is live. */
  method Flush(docs: seq<Document>, cur: nat, fields: Fields, ghost cells: seq<Cell>) returns (more: seq<Document>)
    requires Surfaced(docs, cells, cur) && fields == FieldsOf(cells, cur)
    ensures Surfaced(more, cells, cur + 1)
  {
    if META !in fields {
      SurfacedAll(docs, cells, cur, cur + 1);
      return docs;
    }
    SurfacedOne(docs, cells, cur);
    more := docs + [(cur, fields)];
  }

  /** Groups an ordered cell stream into documents and passes on the live ones, in order. */
  method GroupDocuments(cells: seq<Cell>) returns (docs: seq<Document>)
    requires Ordered(cells)
    ensures InIdOrder(docs)
    ensures forall d: Document :: d in docs <==> Live(cells, d.0) && d.1 == FieldsOf(cells, d.0)
  {
    docs := [];
    if cells == [] {
      return;
    }
    var cur, fields: Fields := cells[0].doc, map[];
    forall d: nat | d < cur ensures !Live(cells, d) {
      NoFields(cells, d);
    }
    NoFields(cells[..0], cur);
    for n := 0 to |cells|
      invariant n < |cells| ==> cur <= cells[n].doc
      invariant n > 0 ==> cur == cells[n - 1].doc
      invariant n == 0 ==> cur == cells[0].doc
      invariant fields == FieldsOf(cells[..n], cur) && Surfaced(docs, cells, cur)
    {
      var cell := cells[n];
      if cell.doc != cur {
        PastFields(cells, n, cur);
        docs := Flush(docs, cur, fields, cells);
        SurfacedGap(docs, cells, n);
        cur, fields := cell.doc, map[];
        NoFields(cells[..n], cur);
      }
      fields := fields[cell.field := cell.value];
      assert cells[..n + 1][..n] == cells[..n];
    }
    assert cells[..|cells|] == cells;
    docs := Flush(docs, cur, fields, cells);
    forall d | cur < d ensures !Live(cells, d) {
      NoFields(cells, d);
    }
  }

  /** The live documents with ids from `lo` to `hi`, each once by ascending id. */
  method ScanDocumentRange(prefix: Bytes, cells: seq<Cell>, lo: nat, hi: nat) returns (docs: seq<Document>)
    requires ByKey(prefix, cells) && lo <= MAX_U64 && hi <= MAX_U64 && Bounded(prefix)
    ensures InIdOrder(docs)
    ensures forall d: Document :: d in docs <==> lo <= d.0 <= hi && Live(cells, d.0) && d.1 == FieldsOf(cells, d.0)
  {
    if hi < lo {
      return [];
    }
    ByKeyIsOrdered(prefix, cells);
    BetweenOrdered(prefix, cells, lo, hi);
    docs := GroupDocuments(Between(prefix, cells, lo, hi));
    forall d: Document {:trigger d in docs} | true
      ensures d in docs <==> lo <= d.0 <= hi && Live(cells, d.0) && d.1 == FieldsOf(cells, d.0)
    {
      BetweenFields(prefix, cells, lo, hi, d.0);
    }
  }

  // ---------------------------------------------------------------------------------------------
  // The listing

  const MAX_SPAN := 512
  const U64 := MAX_U64 + 1

  /** The document ids the index holds, in UID order; entries of the wrong size are passed over. */
  function IndexIds(values: seq<Bytes>): seq<int> {
    if values == [] then []
    else
      var last := values[|values| - 1];
      IndexIds(values[..|values| - 1]) + if |last| == 8 then [Number(last)] else []
  }

  /** Reading the documents one by one in the given order, skipping those that are gone. */
  function ReadEach(cells: seq<Cell>, ids: seq<int>): seq<Document> {
    if ids == [] then []
    else
      var last := ids[|ids| - 1];
      ReadEach(cells, ids[..|ids| - 1]) + if 0 <= last && Live(cells, last) then [(last, FieldsOf(cells, last))] else []
  }

  lemma {:induction false} IndexIdsWide(values: seq<Bytes>)
    ensures forall i :: 0 <= i < |IndexIds(values)| ==> 0 <= IndexIds(values)[i] <= MAX_U64
  {
    if values != [] {
      IndexIdsWide(values[..|values| - 1]);
      NumberBound(values[|values| - 1]);
      Pow256Of8();
    }
  }

  /** What has been fetched is right, and the first `n` of the sorted ids have been tried. */
  ghost predicate Fetched(byId: map<int, Fields>, cells: seq<Cell>, ids: seq<int>, n: nat)
    requires n <= |ids|
  {
    && (forall id :: id in byId ==> 0 <= id)
    && (forall id :: id in byId ==> Live(cells, id) && byId[id] == FieldsOf(cells, id))
    && (forall k :: 0 <= k < n && 0 <= ids[k] && Live(cells, ids[k]) ==> ids[k] in byId)
  }

  /** Adds the wanted documents of one scan. */
  method Collect(byId: map<int, Fields>, docs: seq<Document>, want: set<int>) returns (more: map<int, Fields>)
    ensures forall id :: id in more <==> id in byId || (id in want && exists d :: d in docs && d.0 == id)
    ensures forall id :: id in more ==>
        (id in byId && more[id] == byId[id]) || (exists d :: d in docs && d.0 == id && more[id] == d.1)
  {
    more := byId;
    for n := 0 to |docs|
      invariant forall id :: id in more <==> id in byId || (id in want && exists d :: d in docs[..n] && d.0 == id)
      invariant forall id :: id in more ==>
                               (id in byId && more[id] == byId[id]) || (exists d :: d in docs[..n] && d.0 == id && more[id] == d.1)
    {
      var d := docs[n];
      assert docs[..n + 1] == docs[..n] + [d];
      assert forall e :: e in docs[..n + 1] <==> e in docs[..n] || e == d;
      if d.0 in want {
        more := more[d.0 := d.1];
      }
    }
    assert docs[..|docs|] == docs;
  }

  lemma RunFetched(byId: map<int, Fields>, more: map<int, Fields>, docs: seq<Document>, want: set<int>,
                   cells: seq<Cell>, ids: seq<int>, i: nat, j: nat)
    requires i <= j < |ids| && Fetched(byId, cells, ids, i) && Ascending(ids) && 0 <= ids[i]
    requires forall d: Document :: d in docs <==>
        ids[i] <= d.0 <= ids[j] && Live(cells, d.0) && d.1 == FieldsOf(cells, d.0)
    requires want == set k | i <= k <= j :: ids[k]
    requires forall id :: id in more <==> id in byId || (id in want && exists d :: d in docs && d.0 == id)
    requires forall id :: id in more ==>
        (id in byId && more[id] == byId[id]) || (exists d :: d in docs && d.0 == id && more[id] == d.1)
    ensures Fetched(more, cells, ids, j + 1)
  {
    forall k | 0 <= k < j + 1 && 0 <= ids[k] && Live(cells, ids[k]) ensures ids[k] in more {
      if i <= k {
        assert (ids[k], FieldsOf(cells, ids[k])) in docs;
      }
    }
  }

  /** Fetches the documents of ascending ids, one range scan for each run of ids that lie close together. */
  method FetchSorted(prefix: Bytes, cells: seq<Cell>, ids: seq<int>) returns (byId: map<int, Fields>)
    requires ByKey(prefix, cells) && Bounded(prefix)
    requires Ascending(ids) && forall k :: 0 <= k < |ids| ==> 0 <= ids[k] <= MAX_U64
    ensures Fetched(byId, cells, ids, |ids|)
  {
    byId := map[];
    var i := 0;
    while i < |ids|
      invariant 0 <= i <= |ids| && Fetched(byId, cells, ids, i)
    {
      var j := i;
      while j + 1 < |ids| && ids[j + 1] <= (ids[i] + MAX_SPAN) % U64
        invariant i <= j < |ids|
      {
        j := j + 1;
      }
      var want := set k | i <= k <= j :: ids[k];
      var docs := ScanDocumentRange(prefix, cells, ids[i], ids[j]);
      var more := Collect(byId, docs, want);
      RunFetched(byId, more, docs, want, cells, ids, i, j);
      byId := more;
      i := j + 1;
    }
  }

  method ReadIndex(values: seq<Bytes>) returns (order: seq<int>)
    ensures order == IndexIds(values)
  {
    order := [];
    for n := 0 to |values|
      invariant order == IndexIds(values[..n])
    {
      assert values[..n + 1][..n] == values[..n];
      if |values[n]| == 8 {
        order := order + [Number(values[n])];
      }
    }
    assert values[..|values|] == values;
  }

  /** Lays fetched documents out in index order. */
  method InOrder(cells: seq<Cell>, order: seq<int>, byId: map<int, Fields>) returns (out: seq<Document>)
    requires forall id :: id in byId ==> 0 <= id
    requires forall id :: id in byId ==> Live(cells, id) && byId[id] == FieldsOf(cells, id)
    requires forall k :: 0 <= k < |order| && 0 <= order[k] && Live(cells, order[k]) ==> order[k] in byId
    ensures out == ReadEach(cells, order)
  {
    out := [];
    for n := 0 to |order|
      invariant out == ReadEach(cells, order[..n])
    {
      assert order[..n + 1][..n] == order[..n];
      var id := order[n];
      if id in byId {
        var fields := byId[id];
        assert fields == FieldsOf(cells, id);
        out := out + [(id, fields)];
      }
    }
    assert order[..|order|] == order;
  }

  lemma FetchedInOrder(byId: map<int, Fields>, cells: seq<Cell>, order: seq<int>)
    requires Fetched(byId, cells, Sort(order), |Sort(order)|)
    ensures forall k :: 0 <= k < |order| && 0 <= order[k] && Live(cells, order[k]) ==> order[k] in byId
  {
    forall k | 0 <= k < |order| && 0 <= order[k] && Live(cells, order[k]) ensures order[k] in byId {
      SortMembers(order, order[k]);
    }
  }

  /** The messages of a mailbox: the documents the index names, in UID order, those that are gone left out. */
  method MailboxEmails(prefix: Bytes, values: seq<Bytes>, cells: seq<Cell>) returns (out: seq<Document>)
    requires ByKey(prefix, cells) && Bounded(prefix)
    ensures out == ReadEach(cells, IndexIds(values))
  {
    var order := ReadIndex(values);
    if order == [] {
      return [];
    }
    var ids := Sort(order);
    SortSorts(order);
    IndexIdsWide(values);
    forall k | 0 <= k < |ids| ensures 0 <= ids[k] <= MAX_U64 {
      SortMembers(order, ids[k]);
    }
    var byId := FetchSorted(prefix, cells, ids);
    FetchedInOrder(byId, cells, order);
    out := InOrder(cells, order, byId);
  }
}
