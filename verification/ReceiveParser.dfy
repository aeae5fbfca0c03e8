/** The receive-pack parser as the service runs it: a byte-budgeted packet reader over the client's frames, and a
    parser whose fields change while its loops read packets. Each method is proved against the machine's run. */
module ReceiveParser {
  import opened Text
  import opened PktLine
  import opened Capabilities
  import opened PushPolicy
  import opened ClientFrames
  import M = ReceiveMachine
  import P = ReceiveParse

  // ----- one step of a run -----

  lemma RunStep(o: M.Options, st: M.State, source: Source, pos: nat)
    requires pos <= |source.data| && !st.Done? && !st.Reject?
    ensures match ReadPacket(source, pos, o.maxBytes)
            case Bad(fault) => P.Run(o, st, source, pos) == P.Rejected(fault)
            case Got(packet, next) => P.Run(o, st, source, pos) == P.Run(o, M.Step(o, st, packet), source, next)
  {
  }

  lemma RunEnds(o: M.Options, st: M.State, source: Source, pos: nat)
    requires pos <= |source.data|
    ensures st.Done? ==> P.Run(o, st, source, pos) == P.Accepted(st.core, pos)
    ensures st.Reject? ==> P.Run(o, st, source, pos) == P.Rejected(st.fault)
  {
  }

  /** The command and the capability text of a first line, when it has a NUL and no line feed before it. */
  predicate Splits(first: Bytes, command: Bytes, text: Bytes) {
    && IndexOf(first, '\0') < |first| && '\n' !in first[..IndexOf(first, '\0')]
    && command == first[..IndexOf(first, '\0')] && text == first[IndexOf(first, '\0') + 1..]
  }

  ghost predicate Unsplit(first: Bytes) {
    forall command, text :: !Splits(first, command, text)
  }

  lemma UnsignedUnsplit(o: M.Options, shallows: seq<Bytes>, first: Bytes)
    requires Unsplit(first)
    ensures M.StartUnsigned(o, shallows, first) == M.Reject(Malformed)
  {
    hide M.AddCommand, M.Negotiate;
    var n := IndexOf(first, '\0');
    if n < |first| {
      assert !Splits(first, first[..n], first[n + 1..]);
    }
  }

  lemma UnsignedSplit(o: M.Options, shallows: seq<Bytes>, first: Bytes, command: Bytes, text: Bytes)
    requires Splits(first, command, text)
    ensures M.StartUnsigned(o, shallows, first) ==
            match M.Negotiate(o, shallows, text)
            case None => M.Reject(Malformed)
            case Some(core) => M.AfterCommand(M.AddCommand(o, core, command))
  {
    hide M.AddCommand, M.Negotiate;
  }

  /** The cut of parseFirstCommand. */
  method SplitFirst(first: Bytes) returns (command: Bytes, text: Bytes, found: bool)
    ensures found ==> Splits(first, command, text)
    ensures !found ==> Unsplit(first)
  {
    var n := IndexOf(first, '\0');
    if n == |first| || '\n' in first[..n] {
      return "", "", false;
    }
    return first[..n], first[n + 1..], true;
  }

  /** packetReader: the bytes consumed so far are kept in `raw`. */
  class PacketReader {
    const client: ClientDataReader
    const limit: int
    var raw: Bytes
    ghost const source: Source

    /** `raw` is what has been read of `source`, and the client will deliver the rest. */
    ghost predicate Valid()
      reads this, client
    {
      && raw <= source.data && |raw| <= limit
      && client.Rest() == Source(source.data[|raw|..], source.end)
    }

    constructor (client: ClientDataReader, limit: int)
      requires limit >= 4
      ensures Valid() && raw == "" && source == client.Rest()
      ensures this.client == client && this.limit == limit
    {
      this.client := client;
      this.limit := limit;
      raw := "";
      source := client.Rest();
    }

    method ReadExact(size: nat) returns (data: Bytes, fault: Option<Fault>)
      requires Valid()
      modifies this, client
      ensures fault.None? <==> size <= limit - old(|raw|) && size <= |source.data| - old(|raw|)
      ensures fault.None? ==> Valid() && raw == old(raw) + data && |data| == size
      ensures fault.Some? ==>
              fault.value == if size > limit - old(|raw|) then PrefixTooLong
                             else ReadFailed(ShortRead(|source.data| - old(|raw|), source.end))
    {
      if size > limit - |raw| {
        return "", Some(PrefixTooLong);
      }
      var err;
      data, err := client.ReadFull(size);
      if err.Some? {
        return "", Some(ReadFailed(err.value));
      }
      fault := None;
      assert source.data[|raw|..] == data + client.Rest().data;
      assert source.data == raw + source.data[|raw|..];
      raw := raw + data;
      assert source.data == raw + client.Rest().data;
    }

    method Read() returns (r: PacketRead)
      requires Valid()
      modifies this, client
      ensures old(|raw|) <= |source.data| && r == ReadPacket(source, old(|raw|), limit)
      ensures r.Got? ==> Valid() && |raw| == r.next
    {
      ghost var pos := |raw|;
      var header, fault := ReadExact(4);
      if fault.Some? {
        return Bad(fault.value);
      }
      assert header == source.data[pos..pos + 4];
      var length := ParsePacketLength(header);
      if length.None? {
        return Bad(BadPacketLength);
      }
      if length.value == 0 {
        return Got(Flush, |raw|);
      }
      if length.value < 4 || length.value > MAXIMUM_PACKET_LENGTH {
        return Bad(BadPacketLength);
      }
      if length.value - 4 > limit - |raw| {
        return Bad(PrefixTooLong);
      }
      var payload;
      payload, fault := ReadExact(length.value - 4);
      if fault.Some? {
        return Bad(fault.value);
      }
      assert payload == source.data[pos + 4..pos + length.value];
      return Got(Line(payload), |raw|);
    }
  }

  /** receiveParser. */
  class Parser {
    const reader: PacketReader
    const options: M.Options
    var updates: seq<Update>
    var capabilities: Caps
    var seenRefs: set<Bytes>
    var seenShallows: set<Bytes>
    var shallowIDs: seq<Bytes>
    var oidWidth: nat

    ghost predicate Valid()
      reads this, reader, reader.client
    {
      && reader.Valid() && reader.limit == options.maxBytes
      && seenRefs == M.Refs(updates) && seenShallows == M.LowerIDs(shallowIDs)
    }

    ghost function Core(): M.Core
      reads this
    {
      M.Core(shallowIDs, capabilities, oidWidth, updates)
    }

    /** What the run of the machine from `st`, at the reader's position, will come to. */
    ghost function Run(st: M.State): P.Outcome
      requires Valid()
      reads this, reader, reader.client
    {
      P.Run(options, st, reader.source, |reader.raw|)
    }

    constructor (reader: PacketReader, options: M.Options)
      requires reader.Valid() && reader.limit == options.maxBytes
      ensures Valid() && this.reader == reader && this.options == options
      ensures updates == [] && shallowIDs == []
    {
      this.reader := reader;
      this.options := options;
      updates, capabilities, shallowIDs, oidWidth := [], map[], [], 0;
      seenRefs, seenShallows := {}, {};
    }

    // ----- state changes -----

    method AddShallow(line: Bytes) returns (fault: Option<Fault>)
      requires Valid()
      modifies this`seenShallows, this`shallowIDs
      ensures fault.None? ==> Valid() && M.AddShallow(old(shallowIDs), line) == M.Preamble(shallowIDs)
      ensures fault.Some? ==> M.AddShallow(old(shallowIDs), line) == M.Reject(fault.value)
    {
      if !(M.SHALLOW <= line) || !M.CertificateLine(line) {
        return Some(Malformed);
      }
      var objectID := M.ShallowID(line);
      if !ValidObjectID(objectID) {
        return Some(Malformed);
      }
      if ToLower(objectID) in seenShallows {
        return Some(Malformed);
      }
      seenShallows := seenShallows + {ToLower(objectID)};
      shallowIDs := shallowIDs + [objectID];
      return None;
    }

    /** Fixes the object ID width, which must be that of every shallow line read before. */
    method NegotiateObjectIDWidth(requested: Caps) returns (fault: Option<Fault>)
      modifies this`oidWidth
      ensures fault.None? <==> M.NegotiateWidth(options, requested, shallowIDs).Some?
      ensures fault.None? ==> oidWidth == M.NegotiateWidth(options, requested, shallowIDs).value && oidWidth != 0
      ensures fault.Some? ==> fault.value == Malformed
    {
      var width := 40;
      if "object-format" in requested {
        var format := requested["object-format"];
        if format == "sha1" {
          if Value(options.advertised, "object-format") != "sha1" {
            return Some(Malformed);
          }
        } else if format == "sha256" {
          if Value(options.advertised, "object-format") != "sha256" {
            return Some(Malformed);
          }
          width := 64;
        } else {
          return Some(Malformed);
        }
      }
      var i := 0;
      while i < |shallowIDs|
        invariant 0 <= i <= |shallowIDs|
        invariant M.AllWide(shallowIDs[..i], width)
      {
        if |shallowIDs[i]| != width {
          return Some(Malformed);
        }
        i := i + 1;
      }
      assert shallowIDs[..i] == shallowIDs;
      oidWidth := width;
      return None;
    }

    /** The common opening of parseRequest and parseCertificate: capabilities, their negotiation, and the width. */
    method Negotiate(text: Bytes) returns (fault: Option<Fault>)
      requires updates == []
      modifies this`oidWidth, this`capabilities
      ensures fault.None? ==> M.Negotiate(options, shallowIDs, text) == Some(Core()) && oidWidth != 0
      ensures fault.Some? ==> fault.value == Malformed && M.Negotiate(options, shallowIDs, text) == None
    {
      var caps := ParseCapabilities(text);
      if caps.None? {
        return Some(Malformed);
      }
      var covered := ValidateRequested(caps.value, options.advertised);
      if !covered {
        return Some(Malformed);
      }
      fault := NegotiateObjectIDWidth(caps.value);
      if fault.Some? {
        return;
      }
      capabilities := caps.value;
    }

    /** Appends one ref update. The width is negotiated before the first command, so it is never still unset here. */
    method AddCommand(line: Bytes) returns (fault: Option<Fault>)
      requires Valid() && oidWidth != 0
      modifies this`updates, this`seenRefs
      ensures fault.None? ==> Valid() && M.AddCommand(options, old(Core()), line) == M.Ok(Core())
      ensures fault.Some? ==> M.AddCommand(options, old(Core()), line) == M.No(fault.value)
    {
      hide Fields, PushableRef, ValidObjectID, ZeroObjectID, Join, Deliverable;
      if |updates| >= options.maxCommands {
        return Some(CommandLimit);
      }
      var fields := Fields(line);
      if |fields| != 3 || Join(fields, " ") != line {
        return Some(Malformed);
      }
      var oldID, newID, ref := fields[0], fields[1], fields[2];
      if !ValidObjectID(oldID) || !ValidObjectID(newID) || |oldID| != oidWidth || |newID| != oidWidth {
        return Some(Malformed);
      }
      if ZeroObjectID(newID) && "delete-refs" !in options.advertised {
        return Some(Malformed);
      }
      if !PushableRef(ref) {
        return Some(Malformed);
      }
      if ref in seenRefs {
        return Some(Malformed);
      }
      seenRefs := seenRefs + {ref};
      updates := updates + [Update(oldID, newID, ref)];
      return None;
    }

    // ----- push options -----

    method ParsePushOptions(headers: seq<Bytes>, signed: bool) returns (fault: Option<Fault>)
      requires Valid()
      modifies this, reader, reader.client
      ensures Core() == old(Core())
      ensures fault.None? ==>
          Valid() && old(Run(M.StartOptions(options, Core(), signed, headers))) == P.Accepted(Core(), |reader.raw|)
      ensures fault.Some? ==> old(Run(M.StartOptions(options, Core(), signed, headers))) == P.Rejected(fault.value)
    {
      hide P.Run, M.ValidPushOption, M.Refs, M.LowerIDs, Deliverable;
      ghost var start := M.StartOptions(options, Core(), signed, headers);
      RunEnds(options, start, reader.source, |reader.raw|);
      if "push-options" !in capabilities {
        if signed && headers != [] {
          return Some(Malformed);
        }
        return None;
      }
      if "push-options" !in options.advertised {
        return Some(Malformed);
      }
      fault := ReadPushOptions(headers, signed);
    }

    method ReadPushOptions(headers: seq<Bytes>, signed: bool) returns (fault: Option<Fault>)
      requires Valid()
      modifies reader, reader.client
      ensures fault.None? ==>
          Valid() && old(Run(M.PushOptions(Core(), signed, headers, []))) == P.Accepted(Core(), |reader.raw|)
      ensures fault.Some? ==> old(Run(M.PushOptions(Core(), signed, headers, []))) == P.Rejected(fault.value)
    {
      hide P.Run, M.ValidPushOption, M.Refs, M.LowerIDs, Deliverable;
      var trailing: seq<Bytes> := [];
      while true
        invariant Valid()
        invariant Run(M.PushOptions(Core(), signed, headers, trailing)) ==
            old(Run(M.PushOptions(Core(), signed, headers, [])))
        decreases |reader.source.data| - |reader.raw|
      {
        ghost var st := M.PushOptions(Core(), signed, headers, trailing);
        RunStep(options, st, reader.source, |reader.raw|);
        var r := reader.Read();
        if r.Bad? {
          return Some(r.fault);
        }
        RunEnds(options, M.Step(options, st, r.packet), reader.source, |reader.raw|);
        if r.packet.Flush? {
          if signed && headers != trailing {
            return Some(Malformed);
          }
          return None;
        }
        if !M.ValidPushOption(r.packet.payload) {
          return Some(Malformed);
        }
        trailing := trailing + [r.packet.payload];
      }
    }

    // ----- unsigned requests -----

    method ParseCommands() returns (fault: Option<Fault>)
      requires Valid() && oidWidth != 0
      modifies this, reader, reader.client
      ensures fault.None? ==> Valid() && old(Run(M.Commands(Core()))) == P.Accepted(Core(), |reader.raw|)
      ensures fault.Some? ==> old(Run(M.Commands(Core()))) == P.Rejected(fault.value)
    {
      hide P.Run, M.AddCommand, M.StartOptions;
      while true
        invariant Valid() && oidWidth != 0
        invariant Run(M.Commands(Core())) == old(Run(M.Commands(Core())))
        decreases |reader.source.data| - |reader.raw|
      {
        ghost var st := M.Commands(Core());
        RunStep(options, st, reader.source, |reader.raw|);
        var r := reader.Read();
        if r.Bad? {
          return Some(r.fault);
        }
        RunEnds(options, M.Step(options, st, r.packet), reader.source, |reader.raw|);
        if r.packet.Flush? {
          fault := ParsePushOptions([], false);
          return;
        }
        fault := AddCommand(r.packet.payload);
        if fault.Some? {
          return;
        }
      }
    }

    method ParseRequest(first: Bytes) returns (fault: Option<Fault>)
      requires Valid() && updates == []
      modifies this, reader, reader.client
      ensures fault.None? ==>
          Valid() && old(Run(M.StartRequest(options, shallowIDs, first))) == P.Accepted(Core(), |reader.raw|)
      ensures fault.Some? ==> old(Run(M.StartRequest(options, shallowIDs, first))) == P.Rejected(fault.value)
    {
      hide P.Run, M.StartUnsigned, M.StartCertificate, Deliverable;
      if M.PUSH_CERT <= first {
        fault := ParseCertificate(first);
      } else {
        fault := ParseUnsigned(first);
      }
    }

    method ParseUnsigned(first: Bytes) returns (fault: Option<Fault>)
      requires Valid() && updates == []
      modifies this, reader, reader.client
      ensures fault.None? ==>
          Valid() && old(Run(M.StartUnsigned(options, shallowIDs, first))) == P.Accepted(Core(), |reader.raw|)
      ensures fault.Some? ==> old(Run(M.StartUnsigned(options, shallowIDs, first))) == P.Rejected(fault.value)
    {
      hide P.Run, M.StartUnsigned, M.AddCommand, M.Negotiate, M.Refs, M.LowerIDs, Splits, Unsplit, Deliverable;
      ghost var start := M.StartUnsigned(options, shallowIDs, first);
      RunEnds(options, start, reader.source, |reader.raw|);
      var command, text, found := SplitFirst(first);
      if !found {
        UnsignedUnsplit(options, shallowIDs, first);
        return Some(Malformed);
      }
      UnsignedSplit(options, shallowIDs, first, command, text);
      fault := Negotiate(text);
      if fault.Some? {
        assert start == M.Reject(Malformed);
        return;
      }
      fault := AddCommand(command);
      if fault.Some? {
        assert start == M.Reject(fault.value);
        return;
      }
      assert start == M.Commands(Core());
      fault := ParseCommands();
    }

    // ----- certificates -----

    method ParseCertificate(first: Bytes) returns (fault: Option<Fault>)
      requires Valid() && updates == [] && M.PUSH_CERT <= first
      modifies this, reader, reader.client
      ensures fault.None? ==>
              Valid() && old(Run(M.StartCertificate(options, shallowIDs, first[|M.PUSH_CERT|..]))) ==
                  P.Accepted(Core(), |reader.raw|)
      ensures fault.Some? ==>
          old(Run(M.StartCertificate(options, shallowIDs, first[|M.PUSH_CERT|..]))) == P.Rejected(fault.value)
    {
      ghost var start := M.StartCertificate(options, shallowIDs, first[|M.PUSH_CERT|..]);
      ghost var was := Run(start);
      RunEnds(options, start, reader.source, |reader.raw|);
      hide P.Run, M.Negotiate;
      fault := Negotiate(first[|M.PUSH_CERT|..]);
      if fault.Some? {
        return;
      }
      if Value(options.advertised, "push-cert") == "" {
        return Some(Malformed);
      }
      assert Run(M.CertVersion(Core())) == was;
      fault := ExpectVersion();
      if fault.Some? {
        return;
      }
      var headers;
      headers, fault := ParseCertificateHeaders();
      if fault.Some? {
        return;
      }
      fault := ParseCertificateBody(headers);
      if fault.Some? {
        return;
      }
      fault := ExpectFlush(headers);
      if fault.Some? {
        return;
      }
      fault := ParsePushOptions(headers, true);
    }

    method ExpectVersion() returns (fault: Option<Fault>)
      requires Valid()
      modifies reader, reader.client
      ensures fault.None? ==> Valid() && Run(M.CertHeaders(Core(), 0, [])) == old(Run(M.CertVersion(Core())))
      ensures fault.Some? ==> old(Run(M.CertVersion(Core()))) == P.Rejected(fault.value)
    {
      ghost var st := M.CertVersion(Core());
      hide P.Run;
      RunStep(options, st, reader.source, |reader.raw|);
      var r := reader.Read();
      if r.Bad? {
        return Some(r.fault);
      }
      RunEnds(options, M.Step(options, st, r.packet), reader.source, |reader.raw|);
      return if r.packet == Line(M.CERT_VERSION) then None else Some(Malformed);
    }

    method ExpectFlush(headers: seq<Bytes>) returns (fault: Option<Fault>)
      requires Valid()
      modifies reader, reader.client
      ensures fault.None? ==>
              Valid() && Run(M.StartOptions(options, Core(), true, headers)) == old(Run(M.CertFlush(Core(), headers)))
      ensures fault.Some? ==> old(Run(M.CertFlush(Core(), headers))) == P.Rejected(fault.value)
    {
      ghost var st := M.CertFlush(Core(), headers);
      hide P.Run, M.StartOptions;
      RunStep(options, st, reader.source, |reader.raw|);
      var r := reader.Read();
      if r.Bad? {
        return Some(r.fault);
      }
      RunEnds(options, M.Step(options, st, r.packet), reader.source, |reader.raw|);
      return if r.packet.Flush? then None else Some(Malformed);
    }

    method ParseCertificateHeaders() returns (headers: seq<Bytes>, fault: Option<Fault>)
      requires Valid()
      modifies reader, reader.client
      ensures fault.None? ==>
              Valid() && Run(M.CertBody(Core(), headers, M.NO_SIGNATURE)) == old(Run(M.CertHeaders(Core(), 0, [])))
      ensures fault.Some? ==> old(Run(M.CertHeaders(Core(), 0, []))) == P.Rejected(fault.value)
    {
      hide P.Run, M.ParseHeader, M.ValidRequiredHeader;
      var required := 0;
      headers := [];
      while true
        invariant Valid() && 0 <= required <= 3
        invariant Run(M.CertHeaders(Core(), required, headers)) == old(Run(M.CertHeaders(Core(), 0, [])))
        decreases |reader.source.data| - |reader.raw|
      {
        ghost var st := M.CertHeaders(Core(), required, headers);
        RunStep(options, st, reader.source, |reader.raw|);
        var r := reader.Read();
        if r.Bad? {
          return headers, Some(r.fault);
        }
        RunEnds(options, M.Step(options, st, r.packet), reader.source, |reader.raw|);
        if r.packet.Flush? {
          return headers, Some(Malformed);
        }
        var payload := r.packet.payload;
        if payload == "\n" {
          return headers, if required != 3 then Some(Malformed) else None;
        }
        var header := M.ParseHeader(payload);
        if header.None? {
          return headers, Some(Malformed);
        }
        var (field, value) := header.value;
        if required < 3 {
          if field != M.RequiredField(required) || !M.ValidRequiredHeader(field, value) {
            return headers, Some(Malformed);
          }
          if field == "nonce" && value != Value(options.advertised, "push-cert") {
            return headers, Some(Malformed);
          }
          required := required + 1;
        } else {
          if field != "push-option" || "push-options" !in capabilities || "push-options" !in options.advertised
             || !M.ValidPushOption(value) {
            return headers, Some(Malformed);
          }
          headers := headers + [value];
        }
      }
    }

    method ParseCertificateBody(headers: seq<Bytes>) returns (fault: Option<Fault>)
      requires Valid() && oidWidth != 0
      modifies this, reader, reader.client
      ensures fault.None? ==>
              Valid() && Run(M.CertFlush(Core(), headers)) == old(Run(M.CertBody(Core(), headers, M.NO_SIGNATURE)))
      ensures fault.Some? ==> old(Run(M.CertBody(Core(), headers, M.NO_SIGNATURE))) == P.Rejected(fault.value)
    {
      hide P.Run, M.AddCommand, M.IsCommandLine, M.SignatureEnd, M.CertificateLine, Deliverable;
      var commandsSeen, signatureEnd, signatureEnded, signatureContent := false, "", false, false;
      while true
        invariant Valid() && oidWidth != 0
        invariant Run(M.CertBody(Core(), headers,
            M.SignatureState(commandsSeen, signatureEnd, signatureEnded, signatureContent)))
                  == old(Run(M.CertBody(Core(), headers, M.NO_SIGNATURE)))
        decreases |reader.source.data| - |reader.raw|
      {
        ghost var st :=
          M.CertBody(Core(), headers, M.SignatureState(commandsSeen, signatureEnd, signatureEnded, signatureContent));
        RunStep(options, st, reader.source, |reader.raw|);
        var r := reader.Read();
        if r.Bad? {
          return Some(r.fault);
        }
        RunEnds(options, M.Step(options, st, r.packet), reader.source, |reader.raw|);
        if r.packet.Flush? || !M.CertificateLine(r.packet.payload) {
          return Some(Malformed);
        }
        P.CertificateNonEmpty(r.packet.payload);
        var line := r.packet.payload[..|r.packet.payload| - 1];
        if line == M.CERT_END {
          if !commandsSeen || signatureEnd == "" || !signatureEnded || !signatureContent {
            return Some(Malformed);
          }
          return None;
        }
        if signatureEnd == "" {
          if M.IsCommandLine(line) {
            fault := AddCommand(line);
            if fault.Some? {
              return;
            }
            commandsSeen := true;
          } else {
            var end := M.SignatureEnd(line);
            if end.None? {
              return Some(Malformed);
            }
            signatureEnd := end.value;
          }
        } else if line == signatureEnd {
          if signatureEnded {
            return Some(Malformed);
          }
          signatureEnded := true;
        } else {
          if signatureEnded {
            return Some(Malformed);
          }
          if line != "" {
            signatureContent := true;
          }
        }
      }
    }

    // ----- the whole request -----

    method Parse() returns (fault: Option<Fault>)
      requires Valid() && updates == [] && shallowIDs == []
      modifies this, reader, reader.client
      ensures fault.None? ==> Valid() && old(Run(M.Preamble([]))) == P.Accepted(Core(), |reader.raw|)
      ensures fault.Some? ==> old(Run(M.Preamble([]))) == P.Rejected(fault.value)
    {
      hide P.Run, M.AddShallow, M.StartRequest;
      while true
        invariant Valid() && updates == []
        invariant Run(M.Preamble(shallowIDs)) == old(Run(M.Preamble([])))
        decreases |reader.source.data| - |reader.raw|
      {
        ghost var st := M.Preamble(shallowIDs);
        RunStep(options, st, reader.source, |reader.raw|);
        var r := reader.Read();
        if r.Bad? {
          return Some(r.fault);
        }
        RunEnds(options, M.Step(options, st, r.packet), reader.source, |reader.raw|);
        if r.packet.Flush? {
          return Some(Malformed);
        }
        if !(M.SHALLOW <= r.packet.payload) {
          fault := ParseRequest(r.packet.payload);
          return;
        }
        fault := AddShallow(r.packet.payload);
        if fault.Some? {
          return;
        }
      }
    }
  }

  lemma PrefixSplits(prefix: Bytes, data: Bytes)
    requires prefix <= data
    ensures prefix == data[..|prefix|] && data == prefix + data[|prefix|..]
  {
  }

  /** ParseReceivePack over the client's frames. The result is a function of the bytes the client has yet to
      deliver, so it does not depend on how frames cut them; on success exactly the returned prefix has been
      taken from the client. */
  method ParseReceivePack(client: ClientDataReader, options: M.Options) returns (r: P.Result)
    modifies client
    ensures r == P.Parse(options, old(client.Rest()))
    ensures r.Parsed? ==> old(client.Rest()) == Source(r.prefix + client.Rest().data, client.Rest().end)
  {
    if options.maxCommands < 1 {
      return P.BadLimits;
    }
    if options.maxBytes < 4 {
      return P.BadLimits;
    }
    var reader := new PacketReader(client, options.maxBytes);
    var parser := new Parser(reader, options);
    hide P.Run, PushDenial, FirstDenial, Deliverable, M.Refs, M.LowerIDs, M.Step;
    var fault := parser.Parse();
    if fault.Some? {
      return P.Failed(fault.value);
    }
    var denial := ValidatePush(options.policy, parser.updates);
    if denial.Some? {
      return P.Denied(parser.updates);
    }
    PrefixSplits(reader.raw, reader.source.data);
    return P.Parsed(reader.raw, parser.updates, parser.capabilities);
  }
}
