/**
 The ID-assigning loop of the ingestion script's `main`: every document text
 is paired with its metadata (`zip`, so the shorter list wins), chunked with
 the defaults 700/120, and each chunk is handed to the vector store as one
 record `(chunk, meta, "doc-N")`, where `N` is a single counter running over
 all chunks of all documents. The vector store itself is not modelled: the
 result is the list of records the loop hands it, in call order, together
 with the final counter.
 */
module Ingest {
  import opened Text
  import opened Decimal
  import opened Chunker

  /** A document's metadata dictionary, e.g. `{"source": "faq.txt"}`. */
  type Meta = map<string, string>

  /** One `collection.add(documents=[chunk], metadatas=[meta], ids=[id])`. */
  datatype Record = Record(id: string, chunk: string, meta: Meta)

  /** The two ways `main` ends: the early return when no document was read,
      or the ingestion of `count` chunks. */
  datatype Outcome =
    | NoDocuments
    | Ingested(records: seq<Record>, count: nat)

  /** A document after chunking: its chunks, in order, and its metadata. */
  datatype Document = Document(chunks: seq<string>, meta: Meta)

  /** `f"doc-{n}"`. */
  function ChunkId(n: nat): (id: string)
    ensures |id| > 4 && id[..4] == "doc-" && AllDigits(id[4..])
  {
    "doc-" + Show(n)
  }

  /** Two counters give the same ID exactly when they are equal. */
  lemma {:induction false} ChunkIdInjective(a: nat, b: nat)
    ensures ChunkId(a) == ChunkId(b) <==> a == b
  {
    if ChunkId(a) == ChunkId(b) {
      assert Show(a) == ChunkId(a)[4..] == ChunkId(b)[4..] == Show(b);
      ShowInjective(a, b);
    }
  }

  /** `zip(texts, metas)` followed by `chunk_text(text)` on each text: one
      document per pair, as many as the shorter list has entries. */
  function Documents(texts: seq<string>, metas: seq<Meta>): (docs: seq<Document>)
    ensures |docs| == Min(|texts|, |metas|)
    ensures forall d :: 0 <= d < |docs| ==>
      docs[d] == Document(ChunkText(texts[d], DefaultChunkSize, DefaultOverlap), metas[d])
    decreases |texts|
  {
    if |texts| == 0 || |metas| == 0 then []
    else
      [Document(ChunkText(texts[0], DefaultChunkSize, DefaultOverlap), metas[0])]
      + Documents(texts[1..], metas[1..])
  }

  /** How many chunks the documents hold altogether. */
  function TotalChunks(docs: seq<Document>): nat
  {
    if |docs| == 0 then 0 else |docs[0].chunks| + TotalChunks(docs[1..])
  }

  /** The counter value when document `d` starts: the chunks of the documents
      before it. */
  function Offset(docs: seq<Document>, d: nat): nat
    requires d <= |docs|
  {
    TotalChunks(docs[..d])
  }

  /** The records of one document whose first chunk gets counter `next`. */
  function DocRecords(doc: Document, next: nat): seq<Record>
  {
    seq(|doc.chunks|, c requires 0 <= c < |doc.chunks| =>
      Record(ChunkId(next + c), doc.chunks[c], doc.meta))
  }

  /** The records of all documents, the counter starting at `next` and
      carried from each document to the next. */
  function Records(docs: seq<Document>, next: nat): (records: seq<Record>)
    ensures |records| == TotalChunks(docs)
  {
    if |docs| == 0 then []
    else DocRecords(docs[0], next) + Records(docs[1..], next + |docs[0].chunks|)
  }

  /** The counting function is additive over concatenation. */
  lemma {:induction false} TotalChunksAppend(a: seq<Document>, b: seq<Document>)
    ensures TotalChunks(a + b) == TotalChunks(a) + TotalChunks(b)
    decreases |a|
  {
    if |a| > 0 {
      assert (a + b)[1..] == a[1..] + b;
      TotalChunksAppend(a[1..], b);
    } else {
      assert a + b == b;
    }
  }

  /** Records of a concatenation: the second part's counter starts where the
      first part's ended. */
  lemma {:induction false} RecordsAppend(a: seq<Document>, b: seq<Document>, next: nat)
    ensures Records(a + b, next) == Records(a, next) + Records(b, next + TotalChunks(a))
    decreases |a|
  {
    if |a| > 0 {
      assert (a + b)[1..] == a[1..] + b;
      RecordsAppend(a[1..], b, next + |a[0].chunks|);
    } else {
      assert a + b == b;
    }
  }

  /** Adding one more document to the prefix of those already ingested. */
  lemma {:induction false} RecordsSnoc(docs: seq<Document>, d: nat)
    requires d < |docs|
    ensures Records(docs[..d + 1], 0) == Records(docs[..d], 0) + DocRecords(docs[d], TotalChunks(docs[..d]))
    ensures TotalChunks(docs[..d + 1]) == TotalChunks(docs[..d]) + |docs[d].chunks|
  {
    assert docs[..d + 1] == docs[..d] + [docs[d]];
    RecordsAppend(docs[..d], [docs[d]], 0);
    TotalChunksAppend(docs[..d], [docs[d]]);
    assert Records([docs[d]], TotalChunks(docs[..d])) == DocRecords(docs[d], TotalChunks(docs[..d])) by {
      assert [docs[d]][1..] == [];
    }
    assert TotalChunks([docs[d]]) == |docs[d].chunks| by {
      assert [docs[d]][1..] == [];
    }
  }

  /** `main` after `read_texts_from_docs`: the early return on an empty text
      list, otherwise the loop over `zip(texts, metas)`. */
  method Ingest(texts: seq<string>, metas: seq<Meta>) returns (outcome: Outcome)
    ensures outcome.NoDocuments? <==> |texts| == 0
    ensures outcome.Ingested? ==> outcome.records == Records(Documents(texts, metas), 0)
    ensures outcome.Ingested? ==> outcome.count == |outcome.records| == TotalChunks(Documents(texts, metas))
    ensures outcome.Ingested? ==>
      forall j :: 0 <= j < |outcome.records| ==> outcome.records[j].id == ChunkId(j)
    ensures (forall d :: 0 <= d < |texts| ==> Blank(texts[d])) ==>
      outcome.NoDocuments? || outcome == Ingested([], 0)
  {
    if |texts| == 0 {
      return NoDocuments;
    }
    var records, count := AddDocuments(Documents(texts, metas));
    outcome := Ingested(records, count);
    ghost var allBlank := forall d :: 0 <= d < |texts| ==> Blank(texts[d]);
    if allBlank {
      BlankTextsGiveNoRecords(texts, metas);
    }
  }

  /** The outer loop: the counter `doc_id` starts at 0 and runs on across
      documents. */
  method AddDocuments(docs: seq<Document>) returns (records: seq<Record>, count: nat)
    ensures records == Records(docs, 0)
    ensures count == |records| == TotalChunks(docs)
    ensures forall j :: 0 <= j < |records| ==> records[j].id == ChunkId(j)
  {
    records := [];
    count := 0;
    for d := 0 to |docs|
      invariant records == Records(docs[..d], 0)
      invariant count == |records| == TotalChunks(docs[..d])
    {
      records, count := AddChunks(records, count, docs[d]);
      RecordsSnoc(docs, d);
    }
    assert docs[..|docs|] == docs;
    RecordIds(docs, 0);
  }

  /** The inner loop: one record per chunk of `doc`, each taking the current
      counter value as its ID and then advancing the counter. */
  method AddChunks(records: seq<Record>, count: nat, doc: Document) returns (records': seq<Record>, count': nat)
    ensures records' == records + DocRecords(doc, count)
    ensures count' == count + |doc.chunks|
  {
    records' := records;
    count' := count;
    for c := 0 to |doc.chunks|
      invariant records' == records + DocRecords(doc, count)[..c]
      invariant count' == count + c
    {
      records' := records' + [Record(ChunkId(count'), doc.chunks[c], doc.meta)];
      count' := count' + 1;
    }
    assert DocRecords(doc, count)[..|doc.chunks|] == DocRecords(doc, count);
  }

  /** The records carry the IDs `doc-next`, `doc-(next+1)`, ... in order. */
  lemma {:induction false} RecordIds(docs: seq<Document>, next: nat)
    ensures forall j :: 0 <= j < |Records(docs, next)| ==> Records(docs, next)[j].id == ChunkId(next + j)
    decreases |docs|
  {
    if |docs| > 0 {
      var first := DocRecords(docs[0], next);
      var rest := Records(docs[1..], next + |docs[0].chunks|);
      RecordIds(docs[1..], next + |docs[0].chunks|);
      forall j | 0 <= j < |Records(docs, next)|
        ensures Records(docs, next)[j].id == ChunkId(next + j)
      {
        if j >= |first| {
          assert Records(docs, next)[j] == rest[j - |first|];
        }
      }
    }
  }

  /** No two records share an ID. */
  lemma {:induction false} IdsDistinct(docs: seq<Document>, i: nat, j: nat)
    requires i < j < |Records(docs, 0)|
    ensures Records(docs, 0)[i].id != Records(docs, 0)[j].id
  {
    RecordIds(docs, 0);
    ChunkIdInjective(i, j);
  }

  /** Chunk `c` of document `d` is record `Offset(d) + c`: it carries the
      counter value at that point, the chunk itself, and its own document's
      metadata. */
  lemma {:induction false} RecordAt(docs: seq<Document>, d: nat, c: nat)
    requires d < |docs| && c < |docs[d].chunks|
    ensures Offset(docs, d) + c < |Records(docs, 0)|
    ensures Records(docs, 0)[Offset(docs, d) + c] ==
      Record(ChunkId(Offset(docs, d) + c), docs[d].chunks[c], docs[d].meta)
  {
    assert docs == docs[..d] + docs[d..];
    RecordsAppend(docs[..d], docs[d..], 0);
    TotalChunksAppend(docs[..d], docs[d..]);
    assert docs[d..][0] == docs[d];
  }

  /** The documents' blocks of records follow one another: document `d + 1`
      starts right after the last chunk of document `d`. */
  lemma {:induction false} OffsetNext(docs: seq<Document>, d: nat)
    requires d < |docs|
    ensures Offset(docs, d + 1) == Offset(docs, d) + |docs[d].chunks|
  {
    RecordsSnoc(docs, d);
  }

  /** Every record is some document's chunk: record `j` is chunk `c` of
      document `d`, with `j == Offset(d) + c`. Together with `RecordAt` this
      says the records are exactly the chunks in document order, then chunk
      order. */
  lemma {:induction false} RecordOwner(docs: seq<Document>, j: nat) returns (d: nat, c: nat)
    requires j < |Records(docs, 0)|
    ensures d < |docs| && c < |docs[d].chunks|
    ensures j == Offset(docs, d) + c
  {
    d := 0;
    assert docs[..0] == [];
    while d + 1 < |docs| && Offset(docs, d) + |docs[d].chunks| <= j
      invariant d < |docs| && Offset(docs, d) <= j
      decreases |docs| - d
    {
      OffsetNext(docs, d);
      d := d + 1;
    }
    if d + 1 == |docs| {
      OffsetNext(docs, d);
      assert docs[..d + 1] == docs;
    }
    c := j - Offset(docs, d);
  }

  /** Metadata `m` is stored with one of the records. */
  ghost predicate Stored(records: seq<Record>, m: Meta) {
    exists j :: 0 <= j < |records| && records[j].meta == m
  }

  /** Metadata stored with a record is the metadata of the document the
      record was cut from. */
  lemma {:induction false} StoredOwner(docs: seq<Document>, m: Meta) returns (d: nat)
    requires Stored(Records(docs, 0), m)
    ensures d < |docs| && docs[d].meta == m
  {
    var j :| 0 <= j < |Records(docs, 0)| && Records(docs, 0)[j].meta == m;
    var c;
    d, c := RecordOwner(docs, j);
    RecordAt(docs, d, c);
  }

  /** Texts that are all blank produce no records, even though the list is
      not empty and the early return is not taken. */
  lemma {:induction false} BlankTextsGiveNoRecords(texts: seq<string>, metas: seq<Meta>)
    requires forall d :: 0 <= d < |texts| ==> Blank(texts[d])
    ensures Records(Documents(texts, metas), 0) == []
  {
    var docs := Documents(texts, metas);
    NoChunksNoRecords(docs, 0);
  }

  lemma {:induction false} NoChunksNoRecords(docs: seq<Document>, next: nat)
    requires forall d :: 0 <= d < |docs| ==> docs[d].chunks == []
    ensures Records(docs, next) == []
    decreases |docs|
  {
    if |docs| > 0 {
      NoChunksNoRecords(docs[1..], next);
    }
  }

  /** Chunk `c` of text `d` is stored with its own text's metadata, under the
      ID that counts every chunk of the texts before it. */
  lemma {:induction false} TextChunkRecord(texts: seq<string>, metas: seq<Meta>, d: nat, c: nat)
    requires d < |texts| && d < |metas|
    requires c < |ChunkText(texts[d], DefaultChunkSize, DefaultOverlap)|
    ensures Offset(Documents(texts, metas), d) + c < |Records(Documents(texts, metas), 0)|
    ensures Records(Documents(texts, metas), 0)[Offset(Documents(texts, metas), d) + c] ==
      Record(ChunkId(Offset(Documents(texts, metas), d) + c),
             ChunkText(texts[d], DefaultChunkSize, DefaultOverlap)[c], metas[d])
  {
    assert Documents(texts, metas)[d] == Document(ChunkText(texts[d], DefaultChunkSize, DefaultOverlap), metas[d]);
    RecordAt(Documents(texts, metas), d, c);
  }

  /** One 1500-word document: three records, `doc-0` to `doc-2`, holding its
      three chunks in order, each with the document's metadata. */
  lemma {:induction false} OneLongDocument(text: string, meta: Meta)
    requires |Split(text)| == 1500
    ensures |ChunkText(text, DefaultChunkSize, DefaultOverlap)| == 3
    ensures Records(Documents([text], [meta]), 0) == [
      Record("doc-0", ChunkText(text, DefaultChunkSize, DefaultOverlap)[0], meta),
      Record("doc-1", ChunkText(text, DefaultChunkSize, DefaultOverlap)[1], meta),
      Record("doc-2", ChunkText(text, DefaultChunkSize, DefaultOverlap)[2], meta)]
  {
    DefaultsOn1500Words(text);
    var doc := Document(ChunkText(text, DefaultChunkSize, DefaultOverlap), meta);
    assert Documents([text], [meta]) == [doc];
    SingleDocument(doc, 0);
    ThreeChunks(doc);
  }

  /** A single document's records are just its own. */
  lemma {:induction false} SingleDocument(doc: Document, next: nat)
    ensures Records([doc], next) == DocRecords(doc, next)
  {
  }

  lemma {:induction false} ThreeChunks(doc: Document)
    requires |doc.chunks| == 3
    ensures DocRecords(doc, 0) == [
      Record("doc-0", doc.chunks[0], doc.meta),
      Record("doc-1", doc.chunks[1], doc.meta),
      Record("doc-2", doc.chunks[2], doc.meta)]
  {
    assert ChunkId(0) == "doc-0" && ChunkId(1) == "doc-1" && ChunkId(2) == "doc-2";
  }
}
