/** ParseReceivePack on a byte source: what it accepts, what it returns, and what it leaves unread. */
module ReceiveParse {
  import opened Text
  import opened PktLine
  import opened Capabilities
  import opened PushPolicy
  import opened ReceiveMachine
  import opened ReceiveGrammar
  import opened ReceiveInverse

  datatype Outcome = Accepted(core: Core, end: nat) | Rejected(fault: Fault)

  /** Feeding the machine packets read from `source` at `pos`, within the byte budget. */
  function Run(o: Options, st: State, source: Source, pos: nat): (r: Outcome)
    requires pos <= |source.data|
    ensures r.Accepted? ==> pos <= r.end <= |source.data|
    decreases |source.data| - pos
  {
    if st.Done? then Accepted(st.core, pos)
    else if st.Reject? then Rejected(st.fault)
    else
      match ReadPacket(source, pos, o.maxBytes)
      case Bad(fault) => Rejected(fault)
      case Got(packet, next) => Run(o, Step(o, st, packet), source, next)
  }

  datatype Result =
    | BadLimits
    | Failed(fault: Fault)
    | Denied(updates: seq<Update>)
    | Parsed(prefix: Bytes, updates: seq<Update>, caps: Caps)

  /** The meaning of ParseReceivePack: it depends on the bytes of the source and on how they end, and on nothing
      else. */
  function Parse(o: Options, source: Source): Result {
    if o.maxCommands < 1 || o.maxBytes < 4 then BadLimits
    else
      match Run(o, Preamble([]), source, 0)
      case Rejected(fault) => Failed(fault)
      case Accepted(core, end) =>
        if PushDenial(o.policy, core.updates).Some? then Denied(core.updates)
        else Parsed(source.data[..end], core.updates, core.caps)
  }

  // ----- bytes and packets -----

  /** An accepting run consumed a packet list that the machine accepts, and stayed within the budget. */
  lemma {:induction false} RunPackets(o: Options, st: State, source: Source, pos: nat) returns (packets: seq<Packet>)
    requires pos <= |source.data| && Run(o, st, source, pos).Accepted?
    ensures var r := Run(o, st, source, pos);
            && Decodes(source.data[pos..r.end], packets)
            && Feed(o, st, packets) == Done(r.core)
            && (pos <= o.maxBytes ==> r.end <= o.maxBytes)
    decreases |source.data| - pos
  {
    hide Step, IsPacket, ReadPacket;
    if st.Done? {
      packets := [];
    } else {
      var r := ReadPacket(source, pos, o.maxBytes);
      var end := Run(o, st, source, pos).end;
      ReadIsPacket(source, pos, o.maxBytes);
      var rest := RunPackets(o, Step(o, st, r.packet), source, r.next);
      packets := [r.packet] + rest;
      assert packets[1..] == rest;
      var wire, n := source.data[pos..end], r.next - pos;
      SliceSplits(source.data, pos, r.next, end);
    }
  }

  lemma SliceSplits(data: Bytes, start: nat, cut: nat, end: nat)
    requires start <= cut <= end <= |data|
    ensures data[start..end][..cut - start] == data[start..cut]
    ensures data[start..end][cut - start..] == data[cut..end]
  {
  }

  /** Whatever packet list stands on the wire within the budget is what the run reads. */
  lemma {:induction false} PacketsRun(o: Options, st: State, source: Source, pos: nat, end: nat, packets: seq<Packet>)
    requires pos <= end <= |source.data| && end <= o.maxBytes
    requires Decodes(source.data[pos..end], packets) && Feed(o, st, packets).Done?
    ensures Run(o, st, source, pos) == Accepted(Feed(o, st, packets).core, end)
    decreases |packets|
  {
    hide Step, IsPacket, ReadPacket;
    if st.Done? {
      DoneIsLast(o, st.core, packets);
    } else {
      Uncons(o, st, packets);
      var wire := source.data[pos..end];
      var n :| 0 <= n <= |wire| && IsPacket(wire[..n], packets[0]) && Decodes(wire[n..], packets[1..]);
      SliceSplits(source.data, pos, pos + n, end);
      ReadBack(source, pos, n, packets[0], o.maxBytes);
      RejectIsFinal(o, st, packets);
      PacketsRun(o, Step(o, st, packets[0]), source, pos + n, end, packets[1..]);
    }
  }

  lemma RejectIsFinal(o: Options, st: State, packets: seq<Packet>)
    requires Feed(o, st, packets).Done?
    ensures !st.Reject?
  {
    if st.Reject? {
      RejectStays(o, st.fault, packets);
    }
  }

  /** More input after the request changes nothing. */
  lemma RunExtends(o: Options, source: Source, more: Source)
    requires source.data <= more.data && o.maxBytes >= 0
    requires Run(o, Preamble([]), source, 0).Accepted?
    ensures Run(o, Preamble([]), more, 0) == Run(o, Preamble([]), source, 0)
  {
    var end := Run(o, Preamble([]), source, 0).end;
    var packets := RunPackets(o, Preamble([]), source, 0);
    assert source.data[0..end] == more.data[0..end];
    PacketsRun(o, Preamble([]), more, 0, end, packets);
  }

  // ----- the parser accepts exactly the grammar -----

  /** Soundness: a parsed prefix is the wire form of a well-formed, allowed request, and stands at the head of the
      input. */
  lemma ParseSound(o: Options, source: Source) returns (req: Request)
    requires Parse(o, source).Parsed?
    ensures var r := Parse(o, source);
            && WellFormed(o, req) && Decodes(r.prefix, Packets(req))
            && r.prefix <= source.data && |r.prefix| <= o.maxBytes
            && r.updates == req.updates && PushAllowed(o.policy, r.updates)
            && Denotes(r.caps, req.tokens)
  {
    hide Step, WellFormed, CapsOf, UpdatesOk;
    var r := Run(o, Preamble([]), source, 0);
    var packets := RunPackets(o, Preamble([]), source, 0);
    req := GrammarSound(o, packets);
    assert source.data[0..r.end] == source.data[..r.end];
    PushDenialIff(o.policy, r.core.updates);
    AcceptedCaps(o, req);
  }

  lemma ParsedAllowed(o: Options, source: Source)
    requires Parse(o, source).Parsed?
    ensures PushAllowed(o.policy, Parse(o, source).updates) && Parse(o, source).prefix <= source.data
  {
    hide Run, PushAllowed;
    PushDenialIff(o.policy, Run(o, Preamble([]), source, 0).core.updates);
  }

  lemma AcceptedCaps(o: Options, req: Request)
    requires WellFormed(o, req)
    ensures Denotes(CoreOf(o, req).caps, req.tokens) && CoreOf(o, req).updates == req.updates
  {
    hide CapsOf, UpdatesOk, ShallowsOk, BodyOk;
    PrintParse(req.tokens, req.lead);
  }

  /** Completeness: parsing any wire form of a well-formed, allowed request that fits the budget returns that request,
      its exact bytes, and leaves the tail unread. */
  lemma ParseComplete(o: Options, req: Request, wire: Bytes, tail: Bytes, end: StreamFault)
    requires WellFormed(o, req) && Decodes(wire, Packets(req))
    requires 4 <= o.maxBytes && |wire| <= o.maxBytes && PushAllowed(o.policy, req.updates)
    ensures Parse(o, Source(wire + tail, end)) == Parsed(wire, req.updates, CoreOf(o, req).caps)
    ensures Denotes(CoreOf(o, req).caps, req.tokens)
  {
    hide CapsOf, UpdatesOk, ShallowsOk, BodyOk, Negotiated, TokenList, Run, Decodes, PushDenial, PushAllowed, Denotes;
    RunRequest(o, req, wire, tail, end);
    PushDenialIff(o.policy, req.updates);
    AcceptedCaps(o, req);
    assert (wire + tail)[..|wire|] == wire;
  }

  lemma RunRequest(o: Options, req: Request, wire: Bytes, tail: Bytes, end: StreamFault)
    requires WellFormed(o, req) && Decodes(wire, Packets(req)) && |wire| <= o.maxBytes
    ensures o.maxCommands >= 1
    ensures Run(o, Preamble([]), Source(wire + tail, end), 0) == Accepted(CoreOf(o, req), |wire|)
  {
    assert o.maxCommands >= 1 by {
      assert UpdatesOk(o, CoreOf(o, req).width, req.updates) && req.updates != [];
    }
    hide Step, WellFormed;
    GrammarComplete(o, req);
    assert (wire + tail)[0..|wire|] == wire;
    PacketsRun(o, Preamble([]), Source(wire + tail, end), 0, |wire|, Packets(req));
  }

  /** Round trip through Git's own encoding. */
  lemma RoundTrip(o: Options, req: Request, tail: Bytes, end: StreamFault)
    requires WellFormed(o, req) && Encodable(Packets(req))
    requires 4 <= o.maxBytes && |Encode(Packets(req))| <= o.maxBytes && PushAllowed(o.policy, req.updates)
    ensures Parse(o, Source(Encode(Packets(req)) + tail, end)) ==
            Parsed(Encode(Packets(req)), req.updates, CoreOf(o, req).caps)
  {
    EncodeDecodes(Packets(req));
    ParseComplete(o, req, Encode(Packets(req)), tail, end);
  }

  /** A request cut short anywhere is refused, whether or not policy would allow it. */
  lemma TruncatedFails(o: Options, req: Request, wire: Bytes, k: nat, end: StreamFault)
    requires WellFormed(o, req) && Decodes(wire, Packets(req))
    requires 4 <= o.maxBytes && |wire| <= o.maxBytes && k < |wire|
    ensures Parse(o, Source(wire[..k], end)).Failed?
  {
    hide WellFormed, Packets, Step;
    var cut := Source(wire[..k], end);
    RunRequest(o, req, wire, "", end);
    if Run(o, Preamble([]), cut, 0).Accepted? {
      RunExtends(o, cut, Source(wire + "", end));
    }
  }

  /** The negotiated width: 64 exactly when the client asked for sha256, and every id has it. */
  lemma NegotiatedWidth(o: Options, req: Request)
    requires WellFormed(o, req)
    ensures var core := CoreOf(o, req);
            && (core.width == 64 <==> Value(core.caps, "object-format") == "sha256") &&
                   (core.width == 40 || core.width == 64)
            && (forall i :: 0 <= i < |req.shallows| ==> |req.shallows[i]| == core.width)
            && (forall u :: u in req.updates ==> |u.oldOID| == core.width && |u.newOID| == core.width)
            && (forall i, j :: 0 <= i < j < |req.updates| ==> req.updates[i].ref != req.updates[j].ref)
  {
    hide CapsOf, Negotiated, TokenList, BodyOk, Word, PushableRef, ShallowsOk;
    var core := CoreOf(o, req);
    if "object-format" in core.caps {
      assert core.caps["object-format"] == "sha1" || core.caps["object-format"] == "sha256";
      assert "sha1" != "sha256" && "" != "sha256";
    }
    forall u | u in req.updates
      ensures |u.oldOID| == core.width && |u.newOID| == core.width
    {
      var i :| 0 <= i < |req.updates| && req.updates[i] == u;
      assert Admissible(o, core.width, req.updates[i]);
    }
  }

  /** A push the parser understood is refused by policy for its size, a denied ref or a denied deletion, never as
      malformed. */
  lemma DeniedMeansPolicy(o: Options, source: Source)
    requires Parse(o, source).Denied?
    ensures PushDenial(o.policy, Parse(o, source).updates) in {Some(TooManyUpdates), Some(DeniedRef),
        Some(DeniedDeletion)}
  {
    hide Step, CapsOf, PushableRef, Negotiated, BodyOk;
    var core := Run(o, Preamble([]), source, 0).core;
    var packets := RunPackets(o, Preamble([]), source, 0);
    var req := GrammarSound(o, packets);
    forall u | u in core.updates
      ensures ParsedUpdate(u, core.width)
    {
      var i :| 0 <= i < |core.updates| && core.updates[i] == u;
      assert Admissible(o, core.width, req.updates[i]);
    }
    ParsedNeverMalformed(o.policy, core.updates, core.width);
  }

  // ----- the command bound -----

  function UpdatesIn(st: State): seq<Update> {
    match st
    case Preamble(_) => []
    case Reject(_) => []
    case Commands(core) => core.updates
    case CertVersion(core) => core.updates
    case CertHeaders(core, _, _) => core.updates
    case CertBody(core, _, _) => core.updates
    case CertFlush(core, _) => core.updates
    case PushOptions(core, _, _, _) => core.updates
    case Done(core) => core.updates
  }

  /** An accepted command takes at least 88 bytes: two object IDs, two spaces and a ref. */
  lemma CommandLength(o: Options, core: Core, line: Bytes)
    ensures AddCommand(o, core, line).Ok? ==> |line| >= 88
    ensures AddCommand(o, core, line).Ok? ==> |AddCommand(o, core, line).core.updates| == |core.updates| + 1
    ensures AddCommand(o, core, line) == No(CommandLimit) ==> |core.updates| >= o.maxCommands
  {
    hide Fields, PushableRef;
    if AddCommand(o, core, line).Ok? {
      var fields := Fields(line);
      GrammarsAgree(fields[2]);
      assert fields[1..][1..] == [fields[2]];
      assert |line| == |fields[0] + " " + Join(fields[1..], " ")|;
      assert |Join(fields[1..], " ")| == |fields[1] + " " + fields[2]|;
    }
  }

  predicate NotCommandLimit(st: State) {
    st != Reject(CommandLimit)
  }

  lemma StartWeight(o: Options, shallows: seq<Bytes>, first: Bytes)
    requires o.maxCommands >= 1
    ensures var next := StartRequest(o, shallows, first);
            NotCommandLimit(next) && 92 * |UpdatesIn(next)| <= |first| + 4
  {
    hide AddCommand, CapsOf, Negotiated, NegotiateWidth;
    var n := IndexOf(first, '\0');
    if !(PUSH_CERT <= first) && n < |first| && Negotiate(o, shallows, first[n + 1..]).Some? {
      CommandLength(o, Negotiate(o, shallows, first[n + 1..]).value, first[..n]);
    }
  }

  lemma BodyWeight(o: Options, core: Core, headers: seq<Bytes>, sig: SignatureState, line: Bytes)
    requires |core.updates| < o.maxCommands
    ensures var next := BodyLine(o, core, headers, sig, line);
            NotCommandLimit(next) && 92 * |UpdatesIn(next)| <= 92 * |core.updates| + |line| + 4
  {
    hide AddCommand, IsCommandLine, SignatureEnd;
    CommandLength(o, core, line);
  }

  /** A step adds at most one command, and pays at least 92 bytes for it. */
  lemma StepWeight(o: Options, st: State, packet: Packet)
    requires |UpdatesIn(st)| < o.maxCommands && NotCommandLimit(st)
    ensures var next := Step(o, st, packet);
            && NotCommandLimit(next)
            && 92 * |UpdatesIn(next)| <= 92 * |UpdatesIn(st)| + (match packet case Flush => 0 case Line(p) => |p| + 4)
  {
    hide AddCommand, StartRequest, BodyLine, ParseHeader, CertificateLine, ValidPushOption;
    match (st, packet)
    case (Preamble(shallows), Line(payload)) => StartWeight(o, shallows, payload);
    case (Commands(core), Line(payload)) => CommandLength(o, core, payload);
    case (CertBody(core, headers, sig), Line(payload)) =>
      if CertificateLine(payload) {
        assert payload != "" by { CertificateNonEmpty(payload); }
        BodyWeight(o, core, headers, sig, payload[..|payload| - 1]);
      }
    case _ =>
  }

  lemma CertificateNonEmpty(payload: Bytes)
    requires CertificateLine(payload)
    ensures payload != ""
  {
  }

  lemma {:induction false} RunWeight(o: Options, st: State, source: Source, pos: nat)
    requires pos <= |source.data| && pos <= o.maxBytes <= o.maxCommands
    requires 92 * |UpdatesIn(st)| <= pos && NotCommandLimit(st)
    ensures Run(o, st, source, pos) != Rejected(CommandLimit)
    ensures Run(o, st, source, pos).Accepted? ==>
            92 * |Run(o, st, source, pos).core.updates| <= Run(o, st, source, pos).end <= o.maxBytes
    decreases |source.data| - pos
  {
    hide Step;
    if !st.Done? && !st.Reject? {
      var r := ReadPacket(source, pos, o.maxBytes);
      if r.Got? {
        StepWeight(o, st, r.packet);
        RunWeight(o, Step(o, st, r.packet), source, r.next);
      }
    }
  }

  /** With a command limit no smaller than the byte limit, as the service sets it, the command-count error cannot occur:
      an accepted request holds at most one command for every 92 bytes. */
  lemma CommandBoundUnreachable(o: Options, source: Source)
    requires o.maxBytes <= o.maxCommands
    ensures Parse(o, source) != Failed(CommandLimit)
    ensures Parse(o, source).Parsed? ==> 92 * |Parse(o, source).updates| <= |Parse(o, source).prefix| <= o.maxBytes
  {
    if Parse(o, source) != BadLimits {
      RunWeight(o, Preamble([]), source, 0);
    }
  }
}
