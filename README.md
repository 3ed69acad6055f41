# Ingestion and retrieval core of a small RAG service, in Dafny

This project models the document-ingestion and retrieval core of a small
retrieval-augmented question-answering service. It covers three pieces:

- **Character-window chunker** (`chunk_text`, app/chunker.py). It strips the
  text, then cuts windows of at most `chunk_size` characters. Each next
  window starts `overlap` characters before the end of the previous one.
- **Chunk indexing and query shaping** (vector_store.py).
  - `add_chunks` drops blank chunks. It builds four position-aligned lists
    (ids, texts, embeddings, metadata) and writes them to the Chroma
    collection in one `add`, followed by one `persist`.
  - `query_chunks` builds the optional `document_id` filter and unwraps the
    store's nested answer.
- **Parser registry, extension dispatch and PDF page assembly**
  (app/file_parser.py).
  - `ParserFactory` keeps a table from normalised extension to parser class.
  - `FileParser` dispatches on `os.path.splitext`.
  - `PdfParser.parse` keeps each page's extracted text and falls back to OCR
    on blank pages. It joins the pages with newlines, strips the result, and
    turns every failure into `""`.

Modules:

- `Wrappers`: `Option` and `Result`.
- `Text`: Python's `str.strip`/`str.isspace`, `"sep".join` and `str(int)`.
- `Chunker`, `VectorStore` and `FileParsing`: one per source file.
- `Ingestion`: the indexing step of the upload route (app/main.py:80-84).

How the model treats each part of the source:

- **Loops become methods.** Each loop of the source is a method with a loop,
  proved against a specification function:
  - `CutWindows` against the step function `Run`;
  - `BuildBatch` against `Retained` and `BatchOf`;
  - `PdfParse` against `PdfText` and `BlankPages`.
- **Mutated state becomes classes.** The Chroma collection is the class
  `Store`, whose `records` field `Add` extends. The class-level parser table
  is the `parsers` field of `ParserFactory`.
- **Foreign calls become parameters.**
  - `embed_text` is a function `embed` from text to an optional vector;
    `None` means the call raised.
  - `uuid.uuid4().hex` is a function `uuidHex` that gives the k-th hex
    string drawn.
  - The store's similarity search is a function `search` from the stored
    records and the request to the store's answer.
  - PyPDF2 extraction and OCR outcomes are data: `Page` and `PdfFile`.

**The chunker as written does not terminate.** The loop sets
`start = end - overlap` after each window, clamped to 0. When `overlap > 0`,
the window that reaches the end of the text sets `start` to
`max(len - overlap, 0)`, which is still below `len`. The `break` therefore
never fires, and the last window is appended forever.

- `Chunker.Run` gives the loop's state after `k` passes.
- `Chunker.ChunkText` runs the source loop. When the next start would not
  move past the current one, it reports `Hangs` instead of looping. From
  that point the state repeats forever, as `LastWindowRepeats` and
  `RepeatsForever` prove.
- `Chunker.ChunkTextChecked` is the intended chunker. It stops after the
  window that reaches the end. It rejects `overlap` outside
  `[0, chunk_size)` with `InvalidConfiguration`.

The intended chunker terminates for every `overlap < chunk_size` and
rejects any other overlap with `InvalidConfiguration`. The model follows
the code, which differs from that intent. The code:

- loops forever for every `overlap > 0` on non-blank text;
- has no configuration check.

On 2500 characters with (1200, 200), `ChunkTextChecked` gives chunks of
lengths 1200, 1200 and 500 (`DefaultsCoverLengths`).

## Model

| member | source | states |
|---|---|---|
| Text.Strip | app/chunker.py:5 | `str.strip()`: the result is empty exactly when the text is empty or all white space, and otherwise begins and ends with a non-space |
| Text.StripKeepsMiddle | app/chunker.py:5 | `str.strip()` removes only white space, and only at the two ends: the result is the slice of the text that starts after its leading spaces, and every character outside that slice is white space |
| Chunker.End | app/chunker.py:12 | a window that starts inside the text ends after its start, at most `chunk_size` later and at most at `len(t)`; it ends at `len(t)` exactly when `start + chunk_size >= len(t)` |
| Chunker.Next | app/chunker.py:14-16 | the next start is never negative; when positive it is exactly `overlap` before the previous end; it never increases when `overlap >= chunk_size`; it advances when `overlap <= 0`; it stays below `len(t)` when `overlap > 0` |
| Chunker.RunShape | app/chunker.py:10-13 | chunk `i` is the window `t[start_i:end_i]` of the stripped text, non-empty and at most `chunk_size` long, with `start_0 = 0`; while the loop runs, pass `k` has made `k` chunks |
| Chunker.StartsNonDecreasing | app/chunker.py:11-18 | the window start never moves backwards from one pass to the next |
| Chunker.StuckAtZero | app/chunker.py:12-16 | with `overlap >= chunk_size`, every window starts at 0 |
| Chunker.NoOverlapHalts | app/chunker.py:11-18 | with `overlap <= 0`, after `k` passes the start is at least `min(k, len(t))`, so the loop exits within `len(t)` passes |
| Chunker.OverlapNeverHalts | app/chunker.py:11-18 | with `overlap > 0` on a non-empty stripped text, the start stays below `len(t)` after any number of passes: the loop never exits |
| Chunker.LastWindowRepeats | app/chunker.py:12-18 | with `overlap > 0`, once a window reaches the end the next start is `max(len(t) - overlap, 0)`, the start after that is the same, and the same last window is appended again |
| Chunker.RepeatsForever | app/chunker.py:11-18 | once a pass leaves the start unchanged, every later pass has that start and appends the same window |
| Chunker.ConsecutiveWindowsOverlap | app/chunker.py:12-16 | when the next window starts after 0, it starts exactly `overlap` before the previous end, and the last `overlap` characters of a chunk are the first `overlap` characters of the next |
| Chunker.NoOverlapConcat | app/chunker.py:11-18 | with `overlap == 0`, after any number of passes the chunks concatenate to the text consumed so far, `t[:start]` |
| Chunker.NoOverlapFull | app/chunker.py:11-18 | with `overlap == 0`, every chunk is `chunk_size` long except a last one whose window reached the end of the text |
| Chunker.NoOverlapResult | app/chunker.py:11-19 | with `overlap == 0`, once the loop has exited the chunks concatenate to the whole stripped text and all but the last are full |
| Chunker.CutWindows | app/chunker.py:9-19 | the loop on non-empty stripped text returns exactly when `overlap <= 0`, with the chunks of the step function at exit; otherwise it reports a pass that leaves `start` unchanged, and the loop never exits |
| Chunker.ChunkText | app/chunker.py:1-19 | blank text gives `[]`; the call returns exactly when the stripped text is blank or `overlap <= 0`, with the chunks of the loop at exit; with `overlap == 0` they concatenate to the stripped text and all but the last are full; otherwise the loop state repeats forever |
| Chunker.DefaultsRepeatLastWindow | app/chunker.py:11-18 | with the defaults 1200 and 200 on 2500 characters, windows start at 0, 1000, 2000 and then 2300 for ever, appending `t[2300:]` again on each pass |
| Chunker.CutCovering | app/chunker.py:9-19 | the intended loop on non-empty stripped text terminates with non-empty chunks that cover the text with `overlap` characters shared between neighbours; with `overlap == 0` its chunks are those of the source loop at exit |
| Chunker.CoverLength | app/chunker.py:12-14 | chunks that are full except the last and that each overlap the previous one by `overlap` spell `(n - 1) * (chunk_size - overlap)` characters plus the last chunk's length |
| Chunker.DefaultsCoverLengths | app/chunker.py:1 | with the default `chunk_size` 1200 and `overlap` 200, every covering chunking of 2500 characters (the intended result) is three chunks of lengths 1200, 1200 and 500 |
| Chunker.ChunkTextChecked | app/chunker.py:1-19 | rejects an overlap outside `[0, chunk_size)`; otherwise terminates with `[]` exactly for blank text; chunks are non-empty, at most `chunk_size` long, all but the last full, neighbours share `overlap` characters, and removing the overlaps gives back the stripped text; with `overlap == 0` it equals the source loop's result |
| VectorStore.SkipsChunk | vector_store.py:48 | `not chunk or not chunk.strip()` holds exactly for empty or all-white-space chunks |
| VectorStore.RetainedSpec | vector_store.py:47-49 | the kept positions are exactly those of the non-blank chunks, each once, strictly increasing |
| Text.DecimalRoundTrip | vector_store.py:51 | the decimal form of `str(i)` in a chunk id reads back as `i` |
| VectorStore.ChunkIdsDistinct | vector_store.py:51 | ids built for two different positions of one document differ, whatever their random suffixes |
| VectorStore.BatchIdsDistinct | vector_store.py:47-52 | the ids of one `add_chunks` call are pairwise distinct |
| VectorStore.BatchOfAppend | vector_store.py:47-55 | keeping one more chunk appends exactly one id, text, embedding and metadata entry, each at the same position |
| VectorStore.BuildBatch | vector_store.py:41-56 | the loop embeds exactly the kept chunks in input order and stops at the first failure, naming that chunk's position; it succeeds exactly when every kept chunk embeds, and then the four lists are `BatchOf` the kept positions: position-aligned, entry `k` holding the `k`-th kept chunk's unstripped text, its embedding, metadata `{document_id, chunk_index = position}` and id `document_id_chunk_<position>_<8 hex>` |
| VectorStore.Store.Add | vector_store.py:60 | one bulk write appends the batch's records, aligned by position, and counts one add |
| VectorStore.Store.Persist | vector_store.py:61 | counts one persist and changes no record |
| VectorStore.AddChunks | vector_store.py:41-62 | an embedding failure propagates and leaves the store untouched; with no kept chunk it returns 0 with no add and no persist; otherwise it makes one add and one persist, appends the kept chunks' records in input order and returns their number; a store holding only non-blank texts keeps that property |
| VectorStore.WhereFilter | vector_store.py:68 | the filter `{"document_id": id}` exists exactly when the id is given and non-empty |
| VectorStore.QueryChunks | vector_store.py:65-78 | a failing query embedding is the only error; the store is asked for `top_k` results for the one query vector with the filter, and the answer is the first list of `documents`, or `[]` when it is absent or empty |
| VectorStore.EmptyIdIsUnfiltered | vector_store.py:68 | an empty `document_id` queries exactly as no `document_id` does |
| FileParsing.LStripDotsSpec | app/file_parser.py:102 | `lstrip(".")` removes exactly the leading dots: the rest is a suffix that does not start with a dot |
| FileParsing.NormalizeShape | app/file_parser.py:106 | a normalised key has no upper-case ASCII letter and does not start with a dot |
| FileParsing.NormalizeSkipsDot | app/file_parser.py:106 | a leading dot does not change the key, so `.pdf`, `..pdf` and `pdf` share one entry |
| FileParsing.NormalizeIgnoresCase | app/file_parser.py:106 | an extension and its lower-case form share one key |
| FileParsing.NormalizeIdempotent | app/file_parser.py:106 | normalising a key again leaves it unchanged |
| FileParsing.Lookup | app/file_parser.py:106-109 | a parser is found exactly when the normalised key is registered, and it is that entry; otherwise `ValueError` with the extension as given |
| FileParsing.RegisterThenLookup | app/file_parser.py:101-110 | after registering under an extension, every extension with the same key finds the new parser and every other extension finds what it found before |
| FileParsing.InitialLookup | app/file_parser.py:113-114 | at start-up keys `txt` and `pdf` find the TXT and PDF parsers and every other key fails |
| FileParsing.ParserFactory.constructor | app/file_parser.py:113-114 | the registry starts as exactly `{txt: TxtParser, pdf: PdfParser}` |
| FileParsing.ParserFactory.RegisterParser | app/file_parser.py:101-102 | sets or overwrites the one entry under the normalised key and leaves all others |
| FileParsing.ParserFactory.GetParser | app/file_parser.py:104-110 | returns a fresh instance of the class registered under the normalised key, or `ValueError` naming the extension |
| FileParsing.SplitExtShape | app/file_parser.py:126 | an extension found by `splitext` is a dot followed by characters that are neither dots nor slashes |
| FileParsing.SplitExtFound | app/file_parser.py:126 | `splitext` finds no extension exactly when every dot of the last path component is preceded only by dots of that component |
| FileParsing.SelectParser | app/file_parser.py:125-129 | a path without extension is a `ValueError`; otherwise the registry decides on the extension |
| FileParsing.PdfPathsDispatch | app/file_parser.py:125-129 | with the start-up registry, `<dir>/<name>.PDF` gets the PDF parser |
| FileParsing.NewFileParser | app/file_parser.py:120-129 | constructing a `FileParser` fails exactly as dispatch fails, and otherwise records the path and a fresh parser of the dispatched class |
| FileParsing.PageText | app/file_parser.py:60-71 | a page keeps its extracted text verbatim when it is not blank; otherwise it takes the OCR text, and a failed OCR gives `""` |
| FileParsing.PageTexts | app/file_parser.py:59-71 | one part per page, in page order |
| FileParsing.BlankPages | app/file_parser.py:68-69 | OCR is run on exactly the pages whose extracted text is blank, or whose extraction raised: each such page is listed, no other page is, and the page numbers strictly increase |
| FileParsing.BlankPagesAppend | app/file_parser.py:58-69 | one more loop pass adds the new page's number to the OCR list exactly when its text is blank |
| FileParsing.PdfTextEmpty | app/file_parser.py:44-78 | the result is `""` exactly when the file is unreadable, cannot be decrypted, a page fetch raises, or every page part is blank (so for zero pages); otherwise it has no surrounding white space |
| FileParsing.PdfParse | app/file_parser.py:44-78 | the page loop returns the parts joined with newlines and stripped, and runs OCR on exactly the blank pages, in order; when fetching a page raises, the result is `""` but OCR has already run on the blank pages before it; a file that cannot be opened or decrypted runs no OCR |
| Ingestion.Ingest | app/main.py:80-84 | indexing blank text stores nothing and returns 0; any other text indexes at least one chunk, and the count is the number of kept chunks of a covering chunking with window 1200 and overlap 200; it succeeds exactly when every kept chunk embeds, and then appends after the old records one record per kept chunk with its id, text, vector and position metadata, with one add and one persist; a failed embedding leaves the store unchanged |

## Left out

- Chunker.ChunkText: requires `chunk_size > 0`. With `chunk_size <= 0`, Python's slicing of empty and negative windows is not modelled.
- Chunker.ChunkText: the non-terminating run is reported as the outcome `Hangs` together with proofs that the loop state repeats forever. The method does not loop forever.
- Ingestion.Ingest: uses the terminating chunker `ChunkTextChecked`. app/main.py:81 calls the as-written `chunk_text`, which never returns on non-blank text (see Findings).
- FileParsing.Normalize: `str.lower()` is modelled for ASCII letters only. Other characters are kept unchanged.
- FileParsing.SplitExt: POSIX `os.path.splitext` only. The Windows variant with `\` and drive letters is not modelled.
- FileParsing.ParserFactory: the class-level table shared by all users is modelled as the field of one factory object.
- FileParsing.PdfParse: what PyPDF2 and OCR produce is given as data (`PdfFile`, `Page`).
  - `Unreadable` stands for an exception raised while opening, reading or counting pages before the loop. None of these runs OCR.
  - `PageFetchFails` stands for `reader.pages[i]` raising inside the loop, after the earlier pages (and OCR on their blank ones) have been processed. A close that raises after the loop has the same outcome, so it is `PageFetchFails` of all the pages.
  - `DecryptFails` stands for `decrypt("")` raising.
  - PyPDF2's own behaviour on an encrypted file it cannot decrypt is not modelled.
- `TxtParser.parse` and `FileParser.parse` are left out. They read the file system, and the existence check is a file-system query.
- `_ocr_page` (PyMuPDF, Pillow, tesseract) is left out. Its result is the `ocr` field of a `Page`.
- `embed_text` and `get_openai_client` are left out. They are the OpenAI client, and the model takes embedding outcomes as the parameter `embed`, with no claim about vector values or dimension.
- uuid randomness is left out. Suffixes come from the parameter `uuidHex`, one draw per kept chunk.
- Chroma internals are left out. Similarity ranking, `where` evaluation, the effect of `persist`, `get_or_create_collection`, duplicate-id handling and exceptions raised by `add`, `persist` or `query` belong to a library outside this model. The store is records appended by `Add`, and queries go through the parameter `search`.
- VectorStore.QueryChunks: `top_k` is passed through unchecked, as the source does. That the store returns at most `top_k` documents is Chroma's promise and is not stated.
- The rest of app/main.py is left out: the HTTP routes, upload checks, file writes, file naming and the chat call are web and I/O plumbing.
- Logging and environment loading are left out. They have no effect on results.

## Findings

| source | as written | input that shows it | evidently intended | confidence | as-written member | corrected member |
|---|---|---|---|---|---|---|
| app/chunker.py:14-18 | after the window that reaches the end, `start = end - overlap` is below `len(text)` whenever `overlap > 0`, so the `break` never fires and the last window is appended forever; the defaults (1200, 200) used at app/main.py:81 hang on every non-blank text | `chunk_text("A" * 2500)`: windows start at 0, 1000, 2000, then 2300 on every later pass | stop after the window that reaches the end of the text, and reject an overlap that is negative or not below `chunk_size` | high; not executed | Chunker.OverlapNeverHalts | Chunker.ChunkTextChecked |
