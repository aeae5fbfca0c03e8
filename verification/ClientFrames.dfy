/** The client half of a Git stream: the frame sequence the service accepts, and the byte reader over it. */
module ClientFrames {
  import opened Text
  import opened Chunks
  import opened PktLine

  datatype ClientFrame =
    | NilFrame
    | OpenFrame(hasRepository: bool)
    | DataFrame(data: Option<Bytes>)
    | OtherFrame

  /** A fault of the stream itself. An orderly end is no fault: it is the end of the events. */
  type Breakage = f: StreamFault | f != Eof witness Transport

  /** What one Recv yields: a frame, or a failure of the transport, the deadline or the context. */
  datatype Event = Received(frame: ClientFrame) | Broken(fault: Breakage)

  datatype ClientState = ClientState(isOpen: bool, failed: bool)

  /** clientFrameState.Accept: the next state, and the error if the frame is refused. */
  function Accept(st: ClientState, frame: ClientFrame): (ClientState, Option<StreamFault>) {
    var refused := (st.(failed := true), Some(InvalidFrame));
    if st.failed then refused
    else
      match frame
      case OpenFrame(hasRepository) => if st.isOpen || !hasRepository then refused else (st.(isOpen := true), None)
      case DataFrame(Some(data)) =>
        if !st.isOpen then refused
        else if |data| > MAX_CHUNK_BYTES then (st.(failed := true), Some(ChunkLimit))
        else (st, None)
      case _ => refused
  }

  function FrameData(frame: ClientFrame): Bytes {
    match frame
    case DataFrame(Some(data)) => data
    case _ => ""
  }

  /** Everything the client's data frames say. */
  function Payload(events: seq<Event>): Bytes {
    if events == [] then ""
    else (if events[0].Received? then FrameData(events[0].frame) else "") + Payload(events[1..])
  }

  /** What the stream will deliver from here: the payload up to the first refusal, and how it ends. */
  function Deliverable(events: seq<Event>, st: ClientState, total: nat, maxBytes: int): Source
    decreases |events|
  {
    if events == [] then Source("", if st.failed || !st.isOpen then InvalidFrame else Eof)
    else
      match events[0]
      case Broken(fault) => Source("", fault)
      case Received(frame) =>
        var (next, refusal) := Accept(st, frame);
        var data := FrameData(frame);
        if refusal.Some? then Source("", refusal.value)
        else if |data| > maxBytes - total then Source("", InputLimit)
        else
          var rest := Deliverable(events[1..], next, total + |data|, maxBytes);
          Source(data + rest.data, rest.end)
  }

  /** Nothing is invented or reordered: the deliverable bytes are a prefix of the payload, and all of it at an orderly
      end. */
  lemma {:induction false} DeliverableIsPayload(events: seq<Event>, st: ClientState, total: nat, maxBytes: int)
    ensures Deliverable(events, st, total, maxBytes).data <= Payload(events)
    ensures Deliverable(events, st, total, maxBytes).end == Eof ==>
            Deliverable(events, st, total, maxBytes).data == Payload(events)
    decreases |events|
  {
    hide Accept, FrameData;
    if events != [] && events[0].Received? {
      RefusalIsNoEnd(st, events[0].frame);
    }
    if events != [] && events[0].Received? {
      var (next, refusal) := Accept(st, events[0].frame);
      var data := FrameData(events[0].frame);
      if refusal.None? && |data| <= maxBytes - total {
        DeliverableIsPayload(events[1..], next, total + |data|, maxBytes);
      }
    }
  }

  lemma RefusalIsNoEnd(st: ClientState, frame: ClientFrame)
    ensures Accept(st, frame).1 != Some(Eof)
  {
  }

  function DataEvents(chunks: seq<Bytes>): seq<Event> {
    if chunks == [] then [] else [Received(DataFrame(Some(chunks[0])))] + DataEvents(chunks[1..])
  }

  predicate ChunksOk(chunks: seq<Bytes>) {
    forall i :: 0 <= i < |chunks| ==> |chunks[i]| <= MAX_CHUNK_BYTES
  }

  /** However a client cuts its data into frames within the chunk and total limits, the same bytes come out. */
  lemma {:induction false} FramingIrrelevant(chunks: seq<Bytes>, total: nat, maxBytes: int)
    requires ChunksOk(chunks) && total + |Concat(chunks)| <= maxBytes
    ensures Deliverable(DataEvents(chunks), ClientState(true, false), total, maxBytes) == Source(Concat(chunks), Eof)
    decreases |chunks|
  {
    if chunks != [] {
      var events := DataEvents(chunks);
      assert events[1..] == DataEvents(chunks[1..]);
      FramingIrrelevant(chunks[1..], total + |chunks[0]|, maxBytes);
    }
  }

  /** No stream delivers more than the limit. */
  lemma {:induction false} WithinLimit(events: seq<Event>, st: ClientState, total: nat, maxBytes: int)
    requires total <= maxBytes
    ensures |Deliverable(events, st, total, maxBytes).data| <= maxBytes - total
    decreases |events|
  {
    hide Accept, FrameData;
    if events != [] && events[0].Received? {
      var (next, refusal) := Accept(st, events[0].frame);
      var data := FrameData(events[0].frame);
      if refusal.None? && |data| <= maxBytes - total {
        WithinLimit(events[1..], next, total + |data|, maxBytes);
      }
    }
  }

  /** Frames that together go over the limit end in the limit error, at the first frame that does not fit: exactly the
      frames before it are delivered. */
  lemma {:induction false} OverLimit(chunks: seq<Bytes>, total: nat, maxBytes: int) returns (n: nat)
    requires ChunksOk(chunks) && total <= maxBytes < total + |Concat(chunks)|
    ensures n < |chunks|
    ensures total + |Concat(chunks[..n])| <= maxBytes < total + |Concat(chunks[..n])| + |chunks[n]|
    ensures Deliverable(DataEvents(chunks), ClientState(true, false), total, maxBytes) ==
            Source(Concat(chunks[..n]), InputLimit)
    decreases |chunks|
  {
    var events := DataEvents(chunks);
    assert events[1..] == DataEvents(chunks[1..]);
    if |chunks[0]| > maxBytes - total {
      n := 0;
    } else {
      var m := OverLimit(chunks[1..], total + |chunks[0]|, maxBytes);
      n := m + 1;
      assert chunks[..n][1..] == chunks[1..][..m] && chunks[..n][0] == chunks[0];
    }
  }

  /** What the service takes from a client: one Open with a repository, then data frames within the chunk limit. */
  predicate GoodFrame(isOpen: bool, frame: ClientFrame) {
    if isOpen then frame.DataFrame? && frame.data.Some? && |frame.data.value| <= 0x1_0000
    else frame == OpenFrame(true)
  }

  /** A frame is accepted exactly when it is good for a stream that has not failed; a refused one fails the stream for
      ever, with the chunk limit for a data frame that is only too large, and as invalid otherwise. */
  lemma AcceptIff(st: ClientState, frame: ClientFrame)
    ensures var (next, refusal) := Accept(st, frame);
            && (refusal.None? <==> !st.failed && GoodFrame(st.isOpen, frame))
            && (refusal.None? ==> next == ClientState(true, false))
            && (refusal.Some? ==> next.failed && refusal.value in {InvalidFrame, ChunkLimit})
            && (refusal == Some(ChunkLimit) <==>
                  && !st.failed && st.isOpen && frame.DataFrame? && frame.data.Some?
                  && |frame.data.value| > 0x1_0000)
  {
  }

  /** The first frame that is not good ends the stream with its fault, after everything before it. */
  lemma {:induction false} BadFrameEnds(chunks: seq<Bytes>, bad: ClientFrame, more: seq<Event>, total: nat,
      maxBytes: int)
    requires ChunksOk(chunks) && total + |Concat(chunks)| <= maxBytes && !GoodFrame(true, bad)
    ensures Deliverable(DataEvents(chunks) + [Received(bad)] + more, ClientState(true, false), total, maxBytes) ==
            Source(Concat(chunks), if bad.DataFrame? && bad.data.Some? then ChunkLimit else InvalidFrame)
    decreases |chunks|
  {
    var events := DataEvents(chunks) + [Received(bad)] + more;
    if chunks == [] {
      assert events[0] == Received(bad);
    } else {
      assert events[0] == Received(DataFrame(Some(chunks[0])));
      assert events[1..] == DataEvents(chunks[1..]) + [Received(bad)] + more;
      BadFrameEnds(chunks[1..], bad, more, total + |chunks[0]|, maxBytes);
    }
  }

  /** clientDataReader, and the stream it receives from. */
  class ClientDataReader {
    var incoming: seq<Event>
    var state: ClientState
    var pending: Bytes
    var total: nat
    const maxBytes: int

    ghost function Rest(): Source
      reads this
    {
      var rest := Deliverable(incoming, state, total, maxBytes);
      Source(pending + rest.data, rest.end)
    }

    /** The reader of a stream whose Open frame has been accepted. */
    constructor (incoming: seq<Event>, maxBytes: int)
      ensures Rest() == Deliverable(incoming, ClientState(true, false), 0, maxBytes)
      ensures this.incoming == incoming && this.maxBytes == maxBytes && pending == ""
    {
      this.incoming := incoming;
      this.maxBytes := maxBytes;
      state := ClientState(true, false);
      pending := "";
      total := 0;
    }

    /** At least one of the bytes still to come, in order, or the error that ends them. */
    method Read(size: nat) returns (data: Bytes, err: Option<StreamFault>)
      modifies this
      ensures err.None? ==> |data| <= size && (size > 0 ==> data != "")
      ensures err.None? ==> old(Rest()) == Source(data + Rest().data, Rest().end)
      ensures err.Some? ==> data == "" && old(Rest()) == Source("", err.value)
    {
      while pending == ""
        invariant Rest() == old(Rest())
        decreases |incoming|
      {
        if incoming == [] {
          return "", Some(if state.failed || !state.isOpen then InvalidFrame else Eof);
        }
        var event := incoming[0];
        if event.Broken? {
          return "", Some(event.fault);
        }
        incoming := incoming[1..];
        var (next, refusal) := Accept(state, event.frame);
        state := next;
        if refusal.Some? {
          return "", Some(refusal.value);
        }
        var chunk := FrameData(event.frame);
        if |chunk| > maxBytes - total {
          return "", Some(InputLimit);
        }
        total := total + |chunk|;
        pending := chunk;
      }
      var n := if size < |pending| then size else |pending|;
      data := pending[..n];
      assert pending == data + pending[n..];
      pending := pending[n..];
      err := None;
    }

    /** io.ReadFull: exactly `size` bytes, or the reason why there are not so many. */
    method ReadFull(size: nat) returns (data: Bytes, err: Option<StreamFault>)
      modifies this
      ensures err.None? <==> size <= |old(Rest()).data|
      ensures err.None? ==> |data| == size && old(Rest()) == Source(data + Rest().data, Rest().end)
      ensures err.Some? ==> err.value == ShortRead(|old(Rest()).data|, old(Rest()).end)
    {
      data := "";
      while |data| < size
        invariant |data| <= size
        invariant old(Rest()) == Source(data + Rest().data, Rest().end)
      {
        ghost var before := Rest();
        var more, fault := Read(size - |data|);
        if fault.Some? {
          err := Some(if data != "" && fault.value == Eof then UnexpectedEof else fault.value);
          return;
        }
        assert data + before.data == (data + more) + Rest().data;
        data := data + more;
      }
      err := None;
    }
  }
}
