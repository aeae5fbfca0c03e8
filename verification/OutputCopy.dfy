// How provider output is cut into chunks for the send pump: copyOutputToFrames (internal/gitservice/copy.go) and
// sendBytes (internal/gitservice/receive.go).
module OutputCopy {
  import opened Text
  import opened Chunks
  import opened BoundedReaders

  /** The pump as its caller sees it: each Send is offered in order and may fail, which `failed` records. */
  class Sender {
    var offered: seq<Bytes>
    ghost var failed: bool

    constructor ()
      ensures offered == [] && !failed
    {
      offered, failed := [], false;
    }

    method Send(data: Bytes) returns (ok: bool)
      modifies this
      ensures offered == old(offered) + [data]
      ensures failed == (old(failed) || !ok)
    {
      offered := offered + [data];
      ok := *;
      failed := failed || !ok;
    }
  }

  datatype Outcome = Done | BadChunkSize | SendFailed | ReadFailed(error: Error)

  predicate ChunkSizeOk(chunkSize: int) {
    0 < chunkSize <= MAX_CHUNK_BYTES
  }

  /** What the pump accepts as one read of provider output. */
  predicate ChunksOf(chunks: seq<Bytes>, chunkSize: int) {
    forall i :: 0 <= i < |chunks| ==> 0 < |chunks[i]| <= chunkSize
  }

  lemma ChunksAppend(chunks: seq<Bytes>, data: Bytes, chunkSize: int)
    requires ChunksOf(chunks, chunkSize) && 0 < |data| <= chunkSize
    ensures ChunksOf(chunks + [data], chunkSize)
  {
  }

  lemma Cut(done: Bytes, rest: Bytes, size: nat)
    requires size <= |rest|
    ensures (done + rest[..size]) + rest[size..] == done + rest
  {
    assert rest == rest[..size] + rest[size..];
  }

  /** The chunks offered are the data from its beginning on, none empty and none too large; all of it unless a send
      failed. */
  method SendBytes(sender: Sender, data: Bytes, chunkSize: int) returns (r: Outcome, ghost chunks: seq<Bytes>)
    modifies sender
    ensures sender.offered == old(sender.offered) + chunks
    ensures r == BadChunkSize <==> !ChunkSizeOk(chunkSize)
    ensures r == BadChunkSize ==> chunks == []
    ensures r in {Done, BadChunkSize, SendFailed}
    ensures Concat(chunks) <= data && ChunksOf(chunks, chunkSize)
    ensures r == Done ==> Concat(chunks) == data
    ensures sender.failed == (old(sender.failed) || r == SendFailed)
  {
    chunks := [];
    if chunkSize <= 0 || chunkSize > MAX_CHUNK_BYTES {
      return BadChunkSize, chunks;
    }
    var rest := data;
    assert Concat(chunks) == "";
    hide Concat, ChunksOf;
    while |rest| > 0
      invariant sender.offered == old(sender.offered) + chunks && sender.failed == old(sender.failed)
      invariant Concat(chunks) + rest == data && ChunksOf(chunks, chunkSize)
      decreases |rest|
    {
      var size := if |rest| > chunkSize then chunkSize else |rest|;
      var chunk := rest[..size];
      ConcatAppend(chunks, chunk);
      ChunksAppend(chunks, chunk, chunkSize);
      Cut(Concat(chunks), rest, size);
      chunks := chunks + [chunk];
      var ok := sender.Send(chunk);
      if !ok {
        return SendFailed, chunks;
      }
      rest := rest[size..];
    }
    return Done, chunks;
  }

  /** The same for a process's output: whatever sizes its reads have, the chunks are its bytes in order, all of them
      unless a send failed, and the total counts them. */
  method CopyOutputToFrames(output: RawReader, sender: Sender, chunkSize: int)
    returns (total: nat, r: Outcome, ghost chunks: seq<Bytes>)
    requires output as object != sender as object
    modifies output, sender
    ensures sender.offered == old(sender.offered) + chunks
    ensures r == BadChunkSize <==> !ChunkSizeOk(chunkSize)
    ensures Concat(chunks) <= old(output.rest) && total == |Concat(chunks)| && ChunksOf(chunks, chunkSize)
    ensures r == Done || r.ReadFailed? ==> Concat(chunks) == old(output.rest)
    ensures r == Done ==> output.end == Eof
    ensures r.ReadFailed? ==> r.error == output.end != Eof
    ensures sender.failed == (old(sender.failed) || r == SendFailed)
  {
    chunks := [];
    if chunkSize <= 0 || chunkSize > MAX_CHUNK_BYTES {
      return 0, BadChunkSize, chunks;
    }
    total := 0;
    while true
      invariant sender.offered == old(sender.offered) + chunks && sender.failed == old(sender.failed)
      invariant Concat(chunks) + output.rest == old(output.rest) && total == |Concat(chunks)| &&
          ChunksOf(chunks, chunkSize)
      decreases |output.rest|, output.idle
    {
      var data, err := output.Read(chunkSize);
      if |data| > 0 {
        ConcatAppend(chunks, data);
        ChunksAppend(chunks, data, chunkSize);
        chunks := chunks + [data];
        total := total + |data|;
        var ok := sender.Send(data);
        if !ok {
          return total, SendFailed, chunks;
        }
      }
      if err.Some? {
        return total, if err.value == Eof then Done else Outcome.ReadFailed(err.value), chunks;
      }
    }
  }
}
