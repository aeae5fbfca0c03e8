// The chunk limit that both directions of a Git stream share (internal/gitservice/chunk.go), and what chunks say
// together.
module Chunks {
  import opened Text

  const MAX_CHUNK_BYTES := 0x1_0000

  function Concat(chunks: seq<Bytes>): Bytes {
    if chunks == [] then "" else chunks[0] + Concat(chunks[1..])
  }

  lemma {:induction false} ConcatAppend(chunks: seq<Bytes>, data: Bytes)
    ensures Concat(chunks + [data]) == Concat(chunks) + data
  {
    if chunks == [] {
      assert chunks + [data] == [data] && [data][1..] == [];
    } else {
      assert (chunks + [data])[1..] == chunks[1..] + [data];
      ConcatAppend(chunks[1..], data);
    }
  }
}
