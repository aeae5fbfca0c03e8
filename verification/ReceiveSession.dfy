/** A push through the broker: nothing reaches the provider before the request is parsed and allowed, and what reaches
    it is what the client sent. */
module ReceiveSession {
  import opened Text
  import opened PktLine
  import opened PushPolicy
  import opened Chunks
  import opened ClientFrames
  import M = ReceiveMachine
  import P = ReceiveParse
  import R = ReceiveParser
  import T = Terminals

  /** The provider's standard input. A write may fall short or fail, which `faulty` records; what was taken is
      appended. */
  class ProviderInput {
    var received: Bytes
    var closed: bool
    ghost var faulty: bool

    constructor ()
      ensures received == "" && !closed && !faulty
    {
      received, closed, faulty := "", false, false;
    }

    method Write(data: Bytes) returns (n: nat, failed: bool)
      modifies this`received, this`faulty
      ensures n <= |data| && received == old(received) + data[..n]
      ensures faulty == (old(faulty) || failed || n != |data|)
    {
      n, failed := *, *;
      if n > |data| {
        n := |data|;
      }
      received := received + data[..n];
      faulty := faulty || failed || n != |data|;
    }

    method Close()
      modifies this`closed
      ensures closed
    {
      closed := true;
    }
  }

  datatype InputError = WriteFailed | ShortWrite | Stream(fault: StreamFault)

  /** How relaying reports the end of the client's stream. */
  function EndError(end: StreamFault): Option<InputError> {
    if end == Eof then None else Some(Stream(end))
  }

  const COPY_BUFFER := 32768

  /** io.Copy: everything the client still delivers, as far as the provider takes it. */
  method CopyRemaining(input: ProviderInput, client: ClientDataReader) returns (total: nat, err: Option<InputError>)
    modifies input`received, input`faulty, client
    ensures old(input.received) <= input.received && total == |input.received| - |old(input.received)|
    ensures input.received <= old(input.received) + old(client.Rest()).data
    ensures err.None? ==> input.received == old(input.received) + old(client.Rest()).data
    ensures input.faulty ==> old(input.faulty) || err.Some?
    ensures !input.faulty ==> err == EndError(old(client.Rest()).end)
    ensures !input.faulty ==> input.received == old(input.received) + old(client.Rest()).data
    ensures err.None? ==> old(client.Rest()).end == Eof
  {
    hide Deliverable;
    ghost var all := input.received + client.Rest().data;
    total := 0;
    while true
      invariant old(input.received) <= input.received && total == |input.received| - |old(input.received)|
      invariant all == input.received + client.Rest().data && client.Rest().end == old(client.Rest()).end
      invariant input.faulty ==> old(input.faulty)
      decreases |client.Rest().data|
    {
      ghost var rest := client.Rest().data;
      var data, fault := client.Read(COPY_BUFFER);
      if fault.Some? {
        assert rest == "" && all == input.received;
        return total, if fault.value == Eof then None else Some(Stream(fault.value));
      }
      var n, failed := input.Write(data);
      total := total + n;
      SplitWrite(all, input.received, data, n, client.Rest().data);
      if failed {
        return total, Some(WriteFailed);
      }
      if n != |data| {
        return total, Some(ShortWrite);
      }
    }
  }

  lemma SplitWrite(all: Bytes, received: Bytes, data: Bytes, n: nat, rest: Bytes)
    requires n <= |data| && n <= |received| && received[|received| - n..] == data[..n]
    requires all == received[..|received| - n] + (data + rest)
    ensures received <= all && (n == |data| ==> all == received + rest)
  {
    assert received == received[..|received| - n] + data[..n] && data == data[..n] + data[n..];
    assert all == received + (data[n..] + rest);
  }

  /** writeValidatedInput: the stored prefix, then the rest of the stream. */
  method WriteValidatedInput(input: ProviderInput, prefix: Bytes, client: ClientDataReader)
    returns (total: nat, err: Option<InputError>)
    modifies input, client
    ensures input.closed
    ensures old(input.received) <= input.received && total == |input.received| - |old(input.received)|
    ensures input.received <= old(input.received) + (prefix + old(client.Rest()).data)
    ensures err.None? ==> input.received == old(input.received) + (prefix + old(client.Rest()).data)
    ensures err.None? ==> old(client.Rest()).end == Eof
    ensures input.faulty ==> old(input.faulty) || err.Some?
    ensures !input.faulty ==> err == EndError(old(client.Rest()).end)
    ensures !input.faulty ==> input.received == old(input.received) + (prefix + old(client.Rest()).data)
  {
    hide Deliverable;
    var n, failed := input.Write(prefix);
    total := n;
    SplitWrite(old(input.received) + (prefix + old(client.Rest()).data), input.received, prefix, n,
        old(client.Rest()).data);
    if failed {
      input.Close();
      return total, Some(WriteFailed);
    }
    if n != |prefix| {
      input.Close();
      return total, Some(ShortWrite);
    }
    var copied;
    copied, err := CopyRemaining(input, client);
    total := total + copied;
    input.Close();
  }

  /** The error class the client is told, classifyReceiveRequestError. */
  datatype RequestError =
    | RefPolicy(updates: seq<Update>)
    | StreamError(stream: StreamFault)
    | InvalidArgument(fault: Option<Fault>)

  function Classify(r: P.Result): RequestError
    requires !r.Parsed?
  {
    match r
    case Denied(updates) => RefPolicy(updates)
    case Failed(ReadFailed(cause)) =>
      if cause in {InvalidFrame, ChunkLimit, InputLimit, Cancelled, DeadlineExceeded} then StreamError(cause)
      else InvalidArgument(Some(ReadFailed(cause)))
    case Failed(fault) => InvalidArgument(Some(fault))
    case BadLimits => InvalidArgument(None)
  }

  /** The error chain a refused request ends in. */
  function FailureOf(e: RequestError): T.Failure {
    T.Failure(
      match e
      case RefPolicy(_) => {T.RefPolicy}
      case StreamError(InvalidFrame) => {T.InvalidFrame}
      case StreamError(ChunkLimit) => {T.ChunkLimit}
      case StreamError(InputLimit) => {T.InputLimit}
      case StreamError(Cancelled) => {T.Canceled}
      case StreamError(DeadlineExceeded) => {T.Deadline}
      case StreamError(_) => {}
      case InvalidArgument(_) => {T.InvalidArgument},
      None)
  }

  /** What the client of a refused push is told: its limits, its deadline or its cancellation when those ended it, and
      an invalid request for everything else, malformed or denied; always with exit code one. */
  lemma RefusalTerminal(r: P.Result)
    requires !r.Parsed?
    ensures var t := T.TerminalOf(Some(FailureOf(Classify(r))));
            && T.ValidTerminal(t) && t.exitCode == 1
            && (t.category == T.LimitExceeded <==>
                   r in {P.Failed(ReadFailed(ChunkLimit)), P.Failed(ReadFailed(InputLimit))})
            && (t.category == T.DeadlineExceeded <==> r == P.Failed(ReadFailed(DeadlineExceeded)))
            && (t.category == T.Unavailable <==> r == P.Failed(ReadFailed(Cancelled)))
            && t.category in {T.LimitExceeded, T.DeadlineExceeded, T.Unavailable, T.InvalidRequest}
  {
    var w := FailureOf(Classify(r)).wraps;
    var invalid, limits := {T.InvalidFrame, T.InvalidArgument, T.RefPolicy},
        {T.ChunkLimit, T.InputLimit, T.OutputLimit, T.ResourceExhausted};
    var provider := {T.StartFailed, T.CommandFailed, T.CleanupFailed};
    var s :| s in w;
    assert w == {s};
    OneSentinel(s, invalid);
    OneSentinel(s, limits);
    OneSentinel(s, provider);
  }

  lemma OneSentinel(s: T.Sentinel, group: set<T.Sentinel>)
    ensures {s} * group != {} <==> s in group
  {
    if s in group {
      assert s in {s} * group;
    }
  }

  datatype SessionResult =
    | Refused(error: RequestError)
    | Relayed(updates: seq<Update>, inputBytes: nat, inputError: Option<InputError>)

  /** The gate of receivePack, from a started provider and an open client stream.

      The provider's input stays empty unless the request parses and policy allows it; otherwise it is, at every moment,
      a prefix of the concatenated client payload, and all of it unless a write to the provider failed. */
  method ReceivePack(client: ClientDataReader, options: M.Options, input: ProviderInput) returns (r: SessionResult)
    requires input.received == ""
    modifies client, input
    ensures input.closed
    ensures r.Refused? <==> !P.Parse(options, old(client.Rest())).Parsed?
    ensures r.Refused? ==> input.received == "" && r.error == Classify(P.Parse(options, old(client.Rest())))
    ensures r.Relayed? ==>
            var parsed := P.Parse(options, old(client.Rest()));
            && r.updates == parsed.updates && r.inputBytes == |input.received|
            && input.received <= old(client.Rest()).data
            && (r.inputError.None? ==> input.received == old(client.Rest()).data && old(client.Rest()).end == Eof)
            && (!input.faulty ==>
                   input.received == old(client.Rest()).data && r.inputError == EndError(old(client.Rest()).end))
  {
    hide P.Parse, Deliverable;
    ghost var source := client.Rest();
    var parsed := R.ParseReceivePack(client, options);
    if !parsed.Parsed? {
      input.Close();
      return Refused(Classify(parsed));
    }
    var total, err := WriteValidatedInput(input, parsed.prefix, client);
    return Relayed(parsed.updates, total, err);
  }

  /** From the frames themselves: for a stream opened in order, what a push writes to the provider is a prefix
      of the payload of the client's data frames, and a written byte means a well-formed and allowed request
      stands in front. */
  method Push(events: seq<Event>, maxBytes: int, options: M.Options)
    returns (r: SessionResult, written: Bytes, ghost faulty: bool)
    ensures written <= Payload(events)
    ensures maxBytes >= 0 ==> |written| <= maxBytes
    ensures written != "" ==>
            var source := Deliverable(events, ClientState(true, false), 0, maxBytes);
            && P.Parse(options, source).Parsed? && PushAllowed(options.policy, P.Parse(options, source).updates)
            && P.Parse(options, source).prefix <= Payload(events)
    ensures r.Relayed? && r.inputError.None? ==> written == Payload(events)
    ensures var source := Deliverable(events, ClientState(true, false), 0, maxBytes);
            P.Parse(options, source).Parsed? && source.end == Eof && !faulty ==>
              r.Relayed? && r.inputError.None? && r.updates == P.Parse(options, source).updates &&
                  written == Payload(events)
  {
    hide Deliverable, Payload, P.Parse, PushAllowed;
    DeliverableIsPayload(events, ClientState(true, false), 0, maxBytes);
    if maxBytes >= 0 {
      WithinLimit(events, ClientState(true, false), 0, maxBytes);
    }
    var client := new ClientDataReader(events, maxBytes);
    var input := new ProviderInput();
    ghost var source := client.Rest();
    r := ReceivePack(client, options, input);
    written, faulty := input.received, input.faulty;
    if written != "" {
      P.ParsedAllowed(options, source);
    }
  }

  /** Two clients that say the same bytes in differently cut frames, within the limits, are treated alike. */
  lemma CutsAgree(options: M.Options, one: seq<Bytes>, other: seq<Bytes>, maxBytes: int)
    requires ChunksOk(one) && ChunksOk(other) && Concat(one) == Concat(other) && |Concat(one)| <= maxBytes
    ensures P.Parse(options, Deliverable(DataEvents(one), ClientState(true, false), 0, maxBytes)) ==
            P.Parse(options, Deliverable(DataEvents(other), ClientState(true, false), 0, maxBytes)) ==
            P.Parse(options, Source(Concat(one), Eof))
  {
    FramingIrrelevant(one, 0, maxBytes);
    FramingIrrelevant(other, 0, maxBytes);
  }
}
