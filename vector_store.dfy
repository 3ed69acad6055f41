/**
 * Chunk indexing and query shaping of vector_store.py.
 *
 * The Chroma collection is a class whose `records` field the bulk `Add`
 * appends to. `embed_text` (an OpenAI call) is an oracle `embed` that maps a
 * text to a vector or fails (`None`, the call raised); `uuid.uuid4().hex` is
 * an oracle `uuidHex` that gives the hex string of the `k`-th call; the
 * store's similarity search is an oracle `search` from the stored records
 * and the request to the store's response.
 */
module VectorStore {
  import opened Wrappers
  import opened Text

  /** An embedding; its values and dimension are the embedding service's business. */
  type Vector = seq<real>

  predicate IsHexDigit(c: char) {
    '0' <= c <= '9' || 'a' <= c <= 'f'
  }

  /** `uuid.uuid4().hex`: 32 lower-case hexadecimal digits. */
  type UuidHex = s: string | |s| == 32 && forall i :: 0 <= i < |s| ==> IsHexDigit(s[i])
    witness "00000000000000000000000000000000"

  /** The metadata stored with a chunk: `{"document_id": ..., "chunk_index": ...}`. */
  datatype Metadata = Metadata(documentId: string, chunkIndex: nat)

  datatype Record = Record(id: string, document: string, embedding: Vector, metadata: Metadata)

  /** The four parallel lists handed to one `collection.add`. */
  datatype Batch = Batch(ids: seq<string>, documents: seq<string>, embeddings: seq<Vector>, metadatas: seq<Metadata>)
  {
    predicate Parallel() {
      |ids| == |documents| == |embeddings| == |metadatas|
    }

    /** Position `k` of each list, as one record. */
    function Records(): (rs: seq<Record>)
      requires Parallel()
      ensures |rs| == |ids|
    {
      seq(|ids|, k requires 0 <= k < |ids| => Record(ids[k], documents[k], embeddings[k], metadatas[k]))
    }
  }

  /** `embed_text` raised while indexing the chunk at this position of the input list. */
  datatype StoreError = EmbeddingFailed(chunkIndex: nat)

  /** `f"{document_id}_chunk_{i}_{suffix}"`. */
  function ChunkId(documentId: string, index: nat, suffix: string): string
  {
    documentId + "_chunk_" + Decimal(index) + "_" + suffix
  }

  /**
   * Ids of two different chunk positions of one document differ, whatever
   * their random suffixes: the decimal index is cut off by the first `_`
   * after `_chunk_`, and decimal printing is injective.
   */
  lemma ChunkIdsDistinct(documentId: string, i: nat, j: nat, a: string, b: string)
    requires i != j
    ensures ChunkId(documentId, i, a) != ChunkId(documentId, j, b)
  {
    var p := documentId + "_chunk_";
    var x, y := Decimal(i) + "_" + a, Decimal(j) + "_" + b;
    assert ChunkId(documentId, i, a) == p + x;
    assert ChunkId(documentId, j, b) == p + y;
    if p + x == p + y {
      assert x == (p + x)[|p|..] && y == (p + y)[|p|..];
      var di, dj := Decimal(i), Decimal(j);
      assert x[|di|] == '_' && y[|dj|] == '_';
      // a digit is never '_', so both numbers end at the same place
      if |di| < |dj| {
        assert false;
      } else if |dj| < |di| {
        assert false;
      } else {
        assert di == x[..|di|] && dj == y[..|dj|];
        DecimalInjective(i, j);
      }
    }
  }

  /**
   * The positions of the chunks `add_chunks` keeps, in input order: the
   * chunks for which `not chunk or not chunk.strip()` is false, that is
   * (see `Text.Strip`) the chunks that are not empty and not whitespace only.
   */
  function Retained(chunks: seq<string>): (r: seq<nat>)
    ensures forall k :: 0 <= k < |r| ==> r[k] < |chunks|
  {
    if chunks == [] then []
    else
      var init := chunks[..|chunks| - 1];
      var last := chunks[|chunks| - 1];
      Retained(init) + (if IsBlank(last) then [] else [|chunks| - 1])
  }

  /**
   * `Retained` lists exactly the positions of the non-blank chunks, each
   * once, in increasing order: a blank chunk gets no id, no embedding and no
   * record, and `chunk_index` values rise with gaps where blanks were skipped.
   */
  lemma {:induction false} RetainedSpec(chunks: seq<string>)
    ensures forall k :: 0 <= k < |Retained(chunks)| ==>
      Retained(chunks)[k] < |chunks| && !IsBlank(chunks[Retained(chunks)[k]])
    ensures forall k, l :: 0 <= k < l < |Retained(chunks)| ==> Retained(chunks)[k] < Retained(chunks)[l]
    ensures forall i :: 0 <= i < |chunks| && !IsBlank(chunks[i]) ==> i in Retained(chunks)
  {
    if chunks != [] {
      var init := chunks[..|chunks| - 1];
      var last := |chunks| - 1;
      RetainedSpec(init);
      var r, ri := Retained(chunks), Retained(init);
      var tail := if IsBlank(chunks[last]) then [] else [last];
      assert r == ri + tail;
      forall k | 0 <= k < |r| ensures r[k] < |chunks| && !IsBlank(chunks[r[k]]) {
        if k < |ri| {
          assert r[k] == ri[k] && init[ri[k]] == chunks[ri[k]];
        }
      }
      forall i | 0 <= i < |chunks| && !IsBlank(chunks[i]) ensures i in r {
        if i < last {
          assert init[i] == chunks[i];
          assert i in ri;
        } else {
          assert r[|r| - 1] == i;
        }
      }
    }
  }

  /** The chunk texts at positions `kept`, in that order. */
  function Texts(chunks: seq<string>, kept: seq<nat>): (ts: seq<string>)
    requires forall k :: 0 <= k < |kept| ==> kept[k] < |chunks|
    ensures |ts| == |kept|
  {
    seq(|kept|, k requires 0 <= k < |kept| => chunks[kept[k]])
  }

  /** The texts `add_chunks` sends to `embed_text`, in input order, when every call succeeds. */
  function RetainedTexts(chunks: seq<string>): (r: seq<string>)
    ensures |r| == |Retained(chunks)|
  {
    Texts(chunks, Retained(chunks))
  }

  /** The eight-character suffix `uuid.uuid4().hex[:8]`. */
  function Suffix(u: UuidHex): string
  {
    u[..8]
  }

  /** Every chunk at positions `kept` exists and `embed` gives it a vector. */
  predicate Embeddable(chunks: seq<string>, kept: seq<nat>, embed: string -> Option<Vector>)
  {
    forall k :: 0 <= k < |kept| ==> kept[k] < |chunks| && embed(chunks[kept[k]]).Some?
  }

  /**
   * The four lists `add_chunks` builds from the chunks at positions `kept`:
   * entry `k` is the `k`-th kept chunk's id (with the `k`-th uuid drawn),
   * its unstripped text, its embedding and its metadata.
   */
  function BatchOf(documentId: string, chunks: seq<string>, kept: seq<nat>,
                   embed: string -> Option<Vector>, uuidHex: nat -> UuidHex): (b: Batch)
    requires Embeddable(chunks, kept, embed)
    ensures b.Parallel() && |b.ids| == |kept|
  {
    Batch(BatchIds(documentId, kept, uuidHex),
          Texts(chunks, kept),
          seq(|kept|, k requires 0 <= k < |kept| => embed(chunks[kept[k]]).value),
          seq(|kept|, k requires 0 <= k < |kept| => Metadata(documentId, kept[k])))
  }

  /** Keeping one more chunk appends one entry to each of the four lists. */
  lemma BatchOfAppend(documentId: string, chunks: seq<string>, kept: seq<nat>, i: nat,
                      embed: string -> Option<Vector>, uuidHex: nat -> UuidHex)
    requires Embeddable(chunks, kept, embed) && i < |chunks| && embed(chunks[i]).Some?
    ensures Embeddable(chunks, kept + [i], embed)
    ensures var b, b' := BatchOf(documentId, chunks, kept, embed, uuidHex), BatchOf(documentId, chunks, kept + [i], embed, uuidHex);
      b' == Batch(b.ids + [ChunkId(documentId, i, Suffix(uuidHex(|kept|)))], b.documents + [chunks[i]],
                  b.embeddings + [embed(chunks[i]).value], b.metadatas + [Metadata(documentId, i)])
  {
    BatchIdsAppend(documentId, kept, i, uuidHex);
  }

  /**
   * The loop of `add_chunks`: blank chunks are skipped; for every other chunk
   * an id, the unstripped text, its embedding and its metadata go to
   * position `k` of the four lists, where `k` counts the chunks kept so far.
   * `requested` lists the texts sent to `embed_text`, in order; the first
   * failing call ends the loop with its exception.
   */
  method BuildBatch(documentId: string, chunks: seq<string>, embed: string -> Option<Vector>, uuidHex: nat -> UuidHex)
    returns (r: Result<Batch, StoreError>, requested: seq<string>)
    ensures requested <= RetainedTexts(chunks)
    ensures r.Success? <==> Embeddable(chunks, Retained(chunks), embed)
    ensures r.Success? ==> requested == RetainedTexts(chunks)
    ensures r.Failure? ==>
      |requested| > 0 && embed(requested[|requested| - 1]).None? &&
      r.error == EmbeddingFailed(Retained(chunks)[|requested| - 1])
    ensures r.Success? ==> r.value == BatchOf(documentId, chunks, Retained(chunks), embed, uuidHex)
  {
    var ids: seq<string> := [];
    var docs: seq<string> := [];
    var embs: seq<Vector> := [];
    var metadatas: seq<Metadata> := [];
    requested := [];
    ghost var kept: seq<nat> := [];
    for i := 0 to |chunks|
      invariant kept == Retained(chunks[..i]) && Embeddable(chunks, kept, embed)
      invariant Batch(ids, docs, embs, metadatas) == BatchOf(documentId, chunks, kept, embed, uuidHex)
      invariant requested == docs
    {
      assert chunks[..i + 1][..i] == chunks[..i];
      var chunk := chunks[i];
      var blank := SkipsChunk(chunk);
      if blank {
        continue;
      }
      var chunkId := ChunkId(documentId, i, Suffix(uuidHex(|ids|)));
      requested := requested + [chunk];
      var e := embed(chunk);
      if e.None? {
        EmbeddingFailure(chunks, i, docs, embed);
        return Failure(EmbeddingFailed(i)), requested;
      }
      BatchOfAppend(documentId, chunks, kept, i, embed, uuidHex);
      kept := kept + [i];
      ids := ids + [chunkId];
      docs := docs + [chunk];
      embs := embs + [e.value];
      metadatas := metadatas + [Metadata(documentId, i)];
    }
    assert chunks[..|chunks|] == chunks;
    r := Success(Batch(ids, docs, embs, metadatas));
  }

  /**
   * The ids of one batch: the `k`-th kept chunk, at input position
   * `kept[k]`, is named with the suffix of the `k`-th uuid drawn.
   */
  function BatchIds(documentId: string, kept: seq<nat>, uuidHex: nat -> UuidHex): (ids: seq<string>)
    ensures |ids| == |kept|
  {
    seq(|kept|, k requires 0 <= k < |kept| => ChunkId(documentId, kept[k], Suffix(uuidHex(k))))
  }

  lemma BatchIdsAppend(documentId: string, kept: seq<nat>, i: nat, uuidHex: nat -> UuidHex)
    ensures BatchIds(documentId, kept + [i], uuidHex) ==
      BatchIds(documentId, kept, uuidHex) + [ChunkId(documentId, i, Suffix(uuidHex(|kept|)))]
  {
  }

  /**
   * When the embedding of the chunk at position `i` fails, the texts
   * requested so far, ending with it, are a prefix of the kept texts, and
   * the kept chunks are not all embeddable.
   */
  lemma EmbeddingFailure(chunks: seq<string>, i: nat, docs: seq<string>, embed: string -> Option<Vector>)
    requires i < |chunks| && !IsBlank(chunks[i]) && embed(chunks[i]).None?
    requires docs == Texts(chunks, Retained(chunks[..i]))
    ensures var requested := docs + [chunks[i]];
      requested <= RetainedTexts(chunks) &&
      |docs| < |Retained(chunks)| && Retained(chunks)[|docs|] == i &&
      !Embeddable(chunks, Retained(chunks), embed)
  {
    assert chunks[..i + 1][..i] == chunks[..i];
    RetainedPrefix(chunks, i + 1);
    var kept := Retained(chunks[..i + 1]);
    assert kept == Retained(chunks[..i]) + [i];
    var requested := docs + [chunks[i]];
    assert forall k :: 0 <= k < |requested| ==> RetainedTexts(chunks)[k] == chunks[kept[k]] == requested[k];
    assert Retained(chunks)[|kept| - 1] == i;
  }

  /** The test `not chunk or not chunk.strip()`: the chunk is empty or whitespace only. */
  method SkipsChunk(chunk: string) returns (skip: bool)
    ensures skip <==> IsBlank(chunk)
  {
    skip := chunk == [] || Strip(chunk) == [];
  }

  /** Keeping chunks position by position: the positions kept in a prefix open the positions kept in the whole. */
  lemma {:induction false} RetainedPrefix(chunks: seq<string>, i: nat)
    requires i <= |chunks|
    ensures Retained(chunks[..i]) <= Retained(chunks)
  {
    if i < |chunks| {
      RetainedPrefix(chunks[..|chunks| - 1], i);
      assert chunks[..|chunks| - 1][..i] == chunks[..i];
    } else {
      assert chunks[..i] == chunks;
    }
  }

  /**
   * Ids of one batch are pairwise distinct, whatever the random suffixes:
   * the kept positions are distinct and the position is part of the id.
   */
  lemma BatchIdsDistinct(documentId: string, chunks: seq<string>, uuidHex: nat -> UuidHex)
    ensures var ids := BatchIds(documentId, Retained(chunks), uuidHex);
      forall k, l :: 0 <= k < l < |ids| ==> ids[k] != ids[l]
  {
    var kept := Retained(chunks);
    var ids := BatchIds(documentId, kept, uuidHex);
    RetainedSpec(chunks);
    forall k, l | 0 <= k < l < |ids| ensures ids[k] != ids[l] {
      ChunkIdsDistinct(documentId, kept[k], kept[l], Suffix(uuidHex(k)), Suffix(uuidHex(l)));
    }
  }

  /**
   * The Chroma client with its `chunks` collection: the records added so
   * far, and how many times `add` and `persist` were called.
   */
  class Store {
    var records: seq<Record>
    var addCalls: nat
    var persistCalls: nat

    constructor()
      ensures records == [] && addCalls == 0 && persistCalls == 0
    {
      records := [];
      addCalls := 0;
      persistCalls := 0;
    }

    /** Every stored chunk text is non-blank. */
    predicate NonBlank()
      reads this
    {
      forall k :: 0 <= k < |records| ==> !IsBlank(records[k].document)
    }

    /** `collection.add(ids=..., documents=..., embeddings=..., metadatas=...)`: one bulk write of position-aligned lists. */
    method Add(b: Batch)
      requires b.Parallel()
      modifies this
      ensures records == old(records) + b.Records()
      ensures addCalls == old(addCalls) + 1 && persistCalls == old(persistCalls)
    {
      records := records + b.Records();
      addCalls := addCalls + 1;
    }

    /** `chroma_client.persist()`. */
    method Persist()
      modifies this
      ensures persistCalls == old(persistCalls) + 1
      ensures records == old(records) && addCalls == old(addCalls)
    {
      persistCalls := persistCalls + 1;
    }
  }

  /**
   * `add_chunks`. The first failing `embed_text` call propagates its
   * exception and leaves the store as it was. When no chunk survives the
   * blank filter, the result is 0 and the store is not touched; otherwise
   * there is exactly one `add` (of the kept chunks, in input order) and one
   * `persist`, and the result is the number of kept chunks.
   */
  method AddChunks(store: Store, documentId: string, chunks: seq<string>,
                   embed: string -> Option<Vector>, uuidHex: nat -> UuidHex)
    returns (r: Result<nat, StoreError>, requested: seq<string>)
    modifies store
    ensures requested <= RetainedTexts(chunks)
    ensures r.Success? <==> Embeddable(chunks, Retained(chunks), embed)
    ensures r.Success? ==> requested == RetainedTexts(chunks) && r.value == |Retained(chunks)|
    ensures r.Failure? ==>
      |requested| > 0 && embed(requested[|requested| - 1]).None? &&
      r.error == EmbeddingFailed(Retained(chunks)[|requested| - 1])
    ensures r.Failure? || Retained(chunks) == [] ==> unchanged(store)
    ensures r.Success? && Retained(chunks) != [] ==>
      store.addCalls == old(store.addCalls) + 1 && store.persistCalls == old(store.persistCalls) + 1
    ensures r.Success? ==>
      var kept, ids, n := Retained(chunks), BatchIds(documentId, Retained(chunks), uuidHex), |old(store.records)|;
      |store.records| == n + |kept| && store.records[..n] == old(store.records) &&
      forall k :: 0 <= k < |kept| ==>
        store.records[n + k].id == ids[k] &&
        store.records[n + k].document == chunks[kept[k]] &&
        Some(store.records[n + k].embedding) == embed(chunks[kept[k]]) &&
        store.records[n + k].metadata == Metadata(documentId, kept[k])
    ensures old(store.NonBlank()) ==> store.NonBlank()
  {
    var batch;
    batch, requested := BuildBatch(documentId, chunks, embed, uuidHex);
    if batch.Failure? {
      return Failure(batch.error), requested;
    }
    var b := batch.value;
    if |b.ids| == 0 {
      return Success(0), requested;
    }
    ghost var before := store.records;
    store.Add(b);
    store.Persist();
    RetainedSpec(chunks);
    assert store.records[..|before|] == before;
    return Success(|b.ids|), requested;
  }

  /** The `where` argument of the query: a filter on `document_id` only when the id is given and non-empty. */
  function WhereFilter(documentId: Option<string>): (w: Option<map<string, string>>)
    ensures w.Some? <==> documentId.Some? && documentId.value != ""
    ensures w.Some? ==> w.value == map["document_id" := documentId.value]
  {
    match documentId
    case Some(id) => if id != "" then Some(map["document_id" := id]) else None
    case None => None
  }

  /** What `query_chunks` asks of the store. */
  datatype QueryRequest = QueryRequest(queryEmbeddings: seq<Vector>, nResults: int, where: Option<map<string, string>>)

  /** The part of the store's answer `query_chunks` reads: the `documents` entry, one list per query embedding, possibly absent. */
  datatype QueryResponse = QueryResponse(documents: Option<seq<seq<string>>>)

  /** `embed_text` raised on the query. */
  datatype QueryError = QueryEmbeddingFailed

  /** `docs = res.get("documents") or []` followed by `docs[0] if docs else []`. */
  function FirstDocuments(res: QueryResponse): (docs: seq<string>)
  {
    match res.documents
    case None => []
    case Some(lists) => if lists == [] then [] else lists[0]
  }

  /**
   * `query_chunks`. `search` is the store's similarity query over the
   * records it holds; the model fixes only what is asked of it and how its
   * answer is unwrapped.
   */
  function QueryChunks(store: Store, query: string, topK: int, documentId: Option<string>,
                       embed: string -> Option<Vector>, search: (seq<Record>, QueryRequest) -> QueryResponse)
    : (r: Result<seq<string>, QueryError>)
    reads store
    ensures r.Failure? <==> embed(query).None?
    ensures r.Success? ==>
      var res := search(store.records, QueryRequest([embed(query).value], topK, WhereFilter(documentId)));
      (res.documents.Some? && res.documents.value != [] ==> r.value == res.documents.value[0]) &&
      (res.documents.None? || res.documents.value == [] ==> r.value == [])
  {
    match embed(query)
    case None => Failure(QueryEmbeddingFailed)
    case Some(q) =>
      Success(FirstDocuments(search(store.records, QueryRequest([q], topK, WhereFilter(documentId)))))
  }

  /** An empty `document_id` is no filter at all: it queries exactly as `None` does. */
  lemma EmptyIdIsUnfiltered(store: Store, query: string, topK: int,
                            embed: string -> Option<Vector>, search: (seq<Record>, QueryRequest) -> QueryResponse)
    ensures QueryChunks(store, query, topK, Some(""), embed, search) == QueryChunks(store, query, topK, None, embed, search)
  {
  }
}
