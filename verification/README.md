# Local RAG "chat with your documents": a Dafny model of its core

The system ingests local documents into a vector store and answers questions
about them with a small text generator. This project models its pure core in
Dafny and proves properties of that model:

- **the word-window chunker** `chunk_text`. It splits a text into
  whitespace-delimited words and emits windows of `chunk_size` words, each
  re-joined with single spaces. A new window starts every
  `max(1, chunk_size - overlap)` words.
- **the ID assignment of the ingestion loop** in `main`. Texts are paired with
  their metadata by `zip` and chunked with the defaults 700/120. Every chunk
  becomes one `collection.add` record `(chunk, meta, "doc-N")`, and one counter
  runs over all chunks of all documents. An empty text list takes the early
  return.
- **the answering page**:
  - the `make_prompt` template;
  - the blank-question guard;
  - reading `documents` and `metadatas` out of the store's reply;
  - the "no results" warning, with the generator never called;
  - the `"\n\n"` join of the retrieved texts into the context;
  - the 256-token generation budget;
  - the sources list with its `"unknown"` fallback.

Modules:

- `Text` (`text.dfy`) models Python's `str.isspace`, `str.split()`,
  `str.strip()` and `sep.join`.
- `Decimal` (`decimal.dfy`) models `str(n)` for `n >= 0`, together with the
  parse that undoes it.
- `Chunker` (`chunker.dfy`) models `chunk_text`. It keeps Python's slice
  semantics, so it is defined for every `chunk_size` and `overlap`, exactly as
  `chunk_text` is.
- `Ingest` (`ingest.dfy`) models the ingestion loop. `AddDocuments` is the
  outer loop and is proved to build the recursive reference `Records`.
  `AddChunks` is the inner loop and is proved to append one document's
  reference records, `DocRecords`.
- `App` (`app.dfy`) models the prompt and one rerun of the page. The store's
  reply is an input and the generator is a function parameter. `Answer`
  returns the calls made to the two collaborators, in order, next to what the
  page shows.

Two behaviours of the code that the model keeps:

- `chunk_text` does not reject `chunk_size <= 0`. With size 0 and overlap 0,
  every word yields one empty chunk (`Chunker.ZeroSizeEmitsEmptyChunks`).
- `top_k` is not checked before the query. Only the slider's bounds keep it
  in [2, 10], so it is the subset type `App.TopK`.

## Model

| member | source | states |
|---|---|---|
| Text.IsSpace | ingest.py:29 | the characters `str.isspace()` accepts, which `split()` and `strip()` treat as whitespace: U+0009-U+000D, U+001C-U+001F, U+0020, U+0085, U+00A0, U+1680, U+2000-U+200A, U+2028, U+2029, U+202F, U+205F and U+3000 |
| Text.Split | ingest.py:29 | `split()` yields only non-empty runs of non-whitespace, and yields none exactly when the text is empty or all whitespace |
| Text.SplitLayout | ingest.py:29 | every text is exactly its `split()` words, in order, laid out between whitespace runs; the inner runs are non-empty and the two outer ones may be empty |
| Text.SplitInterleave | ingest.py:29 | words laid out between any such whitespace runs split back into exactly those words, so together with `SplitLayout` the words and the layout determine each other |
| Text.SplitJoinSpace | ingest.py:29-34 | joining words with one space and splitting again gives back exactly those words |
| Text.SplitIdempotent | ingest.py:29-34 | re-joining what `split()` produced and splitting again gives the same words |
| Text.Strip | app.py:50 | `query.strip()`: the text with its leading and then its trailing whitespace removed |
| Text.StripEmptyIffBlank | app.py:50 | `query.strip()` is empty exactly when the query is empty or all whitespace |
| Text.Join | ingest.py:34 | `sep.join(xs)`: the empty string for no pieces, the piece itself for one, and otherwise the pieces in order with `sep` between neighbours |
| Text.JoinAround | app.py:59 | every piece stands verbatim in `sep.join`, in list order, with the separator between it and each neighbour; with `"\n\n"` this places every retrieved text in the context, in rank order, a blank line from its neighbours |
| Decimal.Show | ingest.py:54 | `f"{n}"` for a counter: at least one ASCII digit, most significant first, and no leading zero unless the counter is 0 |
| Decimal.ReadShow | ingest.py:54 | reading back the decimal rendering of a counter gives the counter |
| Decimal.ShowInjective | ingest.py:54 | different counters render to different decimal strings |
| Chunker.SliceBound | ingest.py:33 | a slice bound past the end is clamped to the length, one inside the list is kept as it is, and the result always lies inside the list |
| Chunker.PySliceAt | ingest.py:33 | `words[i:i+chunk_size]` holds the elements between the two normalised bounds, in order and with none skipped, and is empty when the bounds cross |
| Chunker.Window | ingest.py:33-34 | one iteration's chunk: the words of `words[i:i+chunk_size]` under Python's slice rules, re-joined with single spaces |
| Chunker.ChunksFrom | ingest.py:30-36 | the `while` loop from cursor `i`: one window per iteration while the cursor is below the word count, the cursor advancing by the step each time |
| Chunker.Step | ingest.py:35 | the cursor advances by at least one word per iteration, so the loop ends; the step is `chunk_size - overlap` when that is positive and at most `chunk_size` when `chunk_size >= 1` and the overlap is not negative |
| Chunker.ChunkText | ingest.py:28-36 | the chunk list is empty exactly when the text is blank |
| Chunker.ChunksFromCount | ingest.py:32-35 | the loop stops at the first cursor position at or past the word count: the last window starts inside the text |
| Chunker.ChunkAt | ingest.py:32-35 | chunk k is the window of `chunk_size` words from word `Start(k)`, and that start lies inside the text |
| Chunker.StartIsMultiple | ingest.py:35 | chunk k starts at word `k * max(1, chunk_size - overlap)` |
| Chunker.ChunkCount | ingest.py:32-35 | the number of chunks is the word count divided by the step, rounded up |
| Chunker.ChunkWords | ingest.py:29-35 | chunk k splits back into exactly the words from `k*step` to `min(k*step + chunk_size, n)`, which is between 1 and `chunk_size` words |
| Chunker.EveryWordCovered | ingest.py:32-35 | with `overlap >= 0`, every word of the text stands, at its own position, in some chunk |
| Chunker.LastChunkReachesEnd | ingest.py:32-35 | with `overlap >= 0`, the last chunk runs to the final word of the text |
| Chunker.ConsecutiveChunksOverlap | ingest.py:33-35 | two consecutive chunks, the first one full, share exactly `overlap` words: the tail of one is the head of the next |
| Chunker.DefaultsOn1500Words | ingest.py:28-36 | with 700/120, a 1500-word text gives three chunks covering words 0-700, 580-1280 and 1160-1500 |
| Chunker.ZeroSizeEmitsEmptyChunks | ingest.py:28-36 | `chunk_size == 0` is not rejected: it yields one empty chunk per word |
| Ingest.ChunkId | ingest.py:54 | every ID starts with `doc-` followed by digits |
| Ingest.ChunkIdInjective | ingest.py:54 | two counter values give the same ID exactly when they are equal |
| Ingest.Documents | ingest.py:52-53 | `zip` pairs text d with metadata d and stops at the shorter list; each text is chunked with 700/120 |
| Ingest.Records | ingest.py:51-55 | one record per chunk of every document |
| Ingest.Ingest | ingest.py:46-57 | an empty text list takes the early return; otherwise the records are the reference records, the count equals their number and the total chunk count, record j has ID `doc-j`, and all-blank texts add nothing without taking the early return |
| Ingest.AddDocuments | ingest.py:51-55 | the outer loop adds the records of every document, with the counter running on across documents |
| Ingest.AddChunks | ingest.py:53-55 | the inner loop adds one record per chunk of the document, numbered from the current counter, and advances the counter by the chunk count |
| Ingest.RecordIds | ingest.py:51-55 | the records carry the IDs `doc-next`, `doc-(next+1)`, and so on, in order |
| Ingest.IdsDistinct | ingest.py:51-55 | no two records share an ID |
| Ingest.RecordAt | ingest.py:51-55 | chunk c of document d is record `Offset(d) + c`, with that ID, that chunk and document d's own metadata |
| Ingest.RecordOwner | ingest.py:51-55 | every record is chunk c of some document d, at position `Offset(d) + c` |
| Ingest.StoredOwner | ingest.py:51-55 | metadata stored with any record is the metadata of the document that record was cut from |
| Ingest.OffsetNext | ingest.py:51-55 | document d+1's records start right after document d's last chunk |
| Ingest.TextChunkRecord | ingest.py:51-55 | chunk c of text d is stored with metadata d, under the ID that counts every chunk of the texts before it |
| Ingest.BlankTextsGiveNoRecords | ingest.py:51-55 | blank texts produce no records |
| Ingest.OneLongDocument | ingest.py:51-55 | one 1500-word document gives records `doc-0`, `doc-1`, `doc-2` holding its three chunks, each with its metadata |
| App.MakePrompt | app.py:37-42 | the template adds a fixed number of characters around the two slots |
| App.PromptLayout | app.py:37-42 | the prompt begins with the instruction and ends with `"\nAnswer:"`; the context and then the question stand verbatim between them, separated by the question label |
| App.PromptRoundTrip | app.py:37-42 | given the context's length, both slots can be read back out of the prompt unchanged |
| App.PromptAmbiguous | app.py:37-42 | without that length the prompt is ambiguous: a context containing the question label reads as a different context/question pair |
| App.Context | app.py:59 | a single retrieved text is its own context |
| App.SourceOf | app.py:69 | `m.get("source", "unknown")`: the metadata's `source` entry, or `"unknown"` when it has none |
| App.Sources | app.py:67-69 | one source per retrieved metadata, in order, duplicates kept: its `source` entry, or `"unknown"` when absent |
| App.FirstList | app.py:53-54 | a missing key reads as one empty list; a present outer list yields its first inner list, and raises exactly when it is empty |
| App.IndexErrorWhen | app.py:50-54 | a pressed, non-blank query ends in `IndexError` exactly when `documents` or `metadatas` came back as an empty outer list, even if the other entry holds results |
| App.Answer | app.py:47-69 | nothing is called and nothing is shown unless the button is pressed and the question is not blank; the first call is the retrieval with the slider's `top_k`; the generator is called at most once, only when the reply is an answer, with a budget of 256 tokens, and the answer is its output |
| App.AnsweredFromRetrieved | app.py:56-69 | when documents come back, the generator gets the prompt built from their `"\n\n"` join and the question, and the sources list their metadata |
| App.EmptyRetrievalSkipsGenerator | app.py:53-57 | with no documents, whether the list is empty or the key is missing, only the warning is shown and the generator is never called, unless `metadatas` came back as an empty outer list (then `IndexError`, see `App.IndexErrorWhen`) |
| App.SourcesAreIngested | app.py:67-69 | when every ingested metadata names its source, every listed source of retrieved ingested metadata is the source of an ingested document |

## Left out

- `read_texts_from_docs` (ingest.py:11-26): file globbing, PDF text extraction and lossy UTF-8 decoding. Its result is an input of two lists.
- The whole of `make_healthcare_pdfs.py`: it only generates sample PDFs.
- Startup auto-ingest (app.py:7-14): a directory check, a subprocess call and a printed message.
- The vector store, its embedding function and its similarity search (ingest.py:39-44, app.py:20-27, 52): the store's reply is an input of `App.Answer`, and `collection.add` is the record list.
- The generator's model and tokenizer (app.py:29-35): the generator is an arbitrary function from prompt to text.
- Streamlit widgets, page layout and `st.cache_resource` caching (app.py:20, 29, 44-48, 64-69): `App.Answer` returns what the page shows, not how it is drawn.
- Printed messages in `main` (ingest.py:48, 57): the final counter is returned instead.
- Exceptions raised by the store or the generator: no collaborator failure is modelled.
- A failed `collection.add` (ingest.py:54) is not caught: it raises out of `main` after the records before it were already added, and skips the final print. The model has no failure path; `Ingest.Ingest` always adds every record.
- `None` entries in the returned metadata list: `m.get` would raise on them. Every ingested chunk carries a metadata dictionary, so the model types metadata as a string-to-string map.
- Chunker.EveryWordCovered and Chunker.LastChunkReachesEnd: stated only for `chunk_size >= 1` and `overlap >= 0`. With a negative overlap the windows skip words.
- Chunker.ConsecutiveChunksOverlap: stated only for `0 <= overlap < chunk_size`. With `overlap >= chunk_size` the step is 1, so consecutive full chunks share `chunk_size - 1` words rather than `overlap`.
- Chunker.ChunkWords: stated only for `chunk_size >= 1`. With size 0 every chunk is empty (`Chunker.ZeroSizeEmitsEmptyChunks`), and with a negative size Python's slice bounds count from the end of the list.
