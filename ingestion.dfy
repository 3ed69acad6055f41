/**
 * The indexing step of the upload route in app/main.py: the extracted text
 * is chunked with the default window and overlap, and the chunks are added
 * to the store under the stored file name as document id. The chunker used
 * is `Chunker.ChunkTextChecked`, the terminating one.
 */
module Ingestion {
  import opened Wrappers
  import opened Text
  import Chunker
  import VectorStore

  /** `chunk_text`'s default window and overlap. */
  const DefaultChunkSize := 1200
  const DefaultOverlap := 200

  /**
   * Chunk `text` and index the chunks. Blank text indexes nothing and leaves
   * the store as it was. Any other text, when every kept chunk embeds, adds
   * one record per kept chunk (id, text, vector and metadata with its
   * position) after the records already stored, with one add and one
   * persist; the count is the number of chunks kept. A failed embedding
   * leaves the store as it was.
   */
  method Ingest(store: VectorStore.Store, documentId: string, text: string,
                embed: string -> Option<VectorStore.Vector>, uuidHex: nat -> VectorStore.UuidHex)
    returns (r: Result<nat, VectorStore.StoreError>, chunks: seq<string>)
    modifies store
    ensures chunks == [] <==> Strip(text) == []
    ensures Chunker.Covers(Strip(text), DefaultChunkSize, DefaultOverlap, chunks)
    ensures r.Success? ==> r.value == |VectorStore.Retained(chunks)|
    ensures r.Success? ==> (r.value == 0 <==> Strip(text) == [])
    ensures Strip(text) == [] ==> r == Success(0) && unchanged(store)
    ensures r.Success? <==> VectorStore.Embeddable(chunks, VectorStore.Retained(chunks), embed)
    ensures r.Failure? ==> unchanged(store)
    ensures r.Success? && Strip(text) != [] ==>
      store.addCalls == old(store.addCalls) + 1 && store.persistCalls == old(store.persistCalls) + 1
    ensures r.Success? ==>
      var kept, n := VectorStore.Retained(chunks), |old(store.records)|;
      var ids := VectorStore.BatchIds(documentId, kept, uuidHex);
      |store.records| == n + r.value && store.records[..n] == old(store.records) &&
      forall k :: 0 <= k < |kept| ==>
        store.records[n + k].id == ids[k] &&
        store.records[n + k].document == chunks[kept[k]] &&
        Some(store.records[n + k].embedding) == embed(chunks[kept[k]]) &&
        store.records[n + k].metadata == VectorStore.Metadata(documentId, kept[k])
    ensures old(store.NonBlank()) ==> store.NonBlank()
  {
    var c := Chunker.ChunkTextChecked(text, DefaultChunkSize, DefaultOverlap);
    if c.Failure? {
      assert false;
    }
    chunks := c.value;
    if chunks != [] {
      FirstChunkKept(Strip(text), chunks);
    }
    var requested;
    r, requested := VectorStore.AddChunks(store, documentId, chunks, embed, uuidHex);
  }

  /** The first window of a non-empty stripped text starts with its first, non-space, character, so it is never skipped. */
  lemma FirstChunkKept(t: string, chunks: seq<string>)
    requires chunks != [] && t != [] && !IsSpace(t[0])
    requires Chunker.Covers(t, DefaultChunkSize, DefaultOverlap, chunks)
    ensures |VectorStore.Retained(chunks)| > 0
  {
    Chunker.ReassembleStartsWithFirst(chunks, DefaultOverlap);
    assert chunks[0][0] == t[0];
    assert !IsBlank(chunks[0]);
    VectorStore.RetainedSpec(chunks);
    assert 0 in VectorStore.Retained(chunks);
  }
}
