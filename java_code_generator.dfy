/** The chunking step of the guideline-summarising agent script: the fetched guidelines are
    cut into chunks of `ChunkSize` characters before each is summarised. */
module JavaCodeGenerator {
  import opened Chunking

  const ChunkSize: nat := 4000

  /** With the default size a text is cut into ⌈|text| / 4000⌉ chunks that join back to it,
      each of 4000 characters except possibly the last. */
  lemma DefaultChunking(text: string)
    ensures |Chunks(text, ChunkSize)| == (|text| + 3999) / 4000
    ensures text == "" <==> Chunks(text, ChunkSize) == []
    ensures Text.Concat(Chunks(text, ChunkSize)) == text
    ensures forall k :: 0 <= k < |Chunks(text, ChunkSize)| - 1 ==> |Chunks(text, ChunkSize)[k]| == 4000
  {
    ChunkCount(text, ChunkSize);
    ChunksConcat(text, ChunkSize);
    ChunksShape(text, ChunkSize);
  }
}
