/** Soundness of the receive-pack machine: whatever it accepts is the packet form of a well-formed request. */
module ReceiveInverse {
  import opened Text
  import opened PktLine
  import opened Capabilities
  import opened PushPolicy
  import opened ReceiveMachine
  import opened ReceiveGrammar

  /** An accepting run from a state that is not final has a first packet, and it is not refused. */
  lemma Uncons(o: Options, st: State, packets: seq<Packet>)
    requires Feed(o, st, packets).Done? && !st.Done?
    ensures packets != [] && packets == [packets[0]] + packets[1..]
    ensures !Step(o, st, packets[0]).Reject?
    ensures st.Preamble? || st.CertVersion? || st.CertHeaders? || st.CertBody? ==> packets[0].Line?
    ensures Feed(o, st, packets) == Feed(o, Step(o, st, packets[0]), packets[1..])
  {
    if packets != [] && Step(o, st, packets[0]).Reject? {
      RejectStays(o, Step(o, st, packets[0]).fault, packets[1..]);
    }
  }

  /** A certificate line is its text and a line feed. */
  lemma LineText(payload: Bytes)
    requires CertificateLine(payload)
    ensures payload == payload[..|payload| - 1] + "\n"
  {
  }

  lemma LinesCons(prefix: Bytes, item: Bytes, items: seq<Bytes>, suffix: Bytes)
    ensures Lines(prefix, [item] + items, suffix) == [Line(prefix + item + suffix)] + Lines(prefix, items, suffix)
  {
    assert ([item] + items)[1..] == items;
  }

  lemma CommandLinesCons(u: Update, updates: seq<Update>, suffix: Bytes)
    ensures Lines("", CommandLines([u] + updates), suffix) ==
            [Line(CommandLine(u) + suffix)] + Lines("", CommandLines(updates), suffix)
  {
    assert ([u] + updates)[1..] == updates;
    LinesCons("", CommandLine(u), CommandLines(updates), suffix);
    assert "" + CommandLine(u) + suffix == CommandLine(u) + suffix;
  }

  // ----- push options -----

  lemma {:induction false} OptionsInverse(o: Options, core: Core, signed: bool, headers: seq<Bytes>,
      before: seq<Bytes>, packets: seq<Packet>)
    returns (options: seq<Bytes>)
    requires Feed(o, PushOptions(core, signed, headers, before), packets).Done?
    ensures Feed(o, PushOptions(core, signed, headers, before), packets) == Done(core)
    ensures packets == Lines("", options, "") + [Flush]
    ensures OptionsOk(options) && (signed ==> headers == before + options)
    decreases |packets|
  {
    var st := PushOptions(core, signed, headers, before);
    Uncons(o, st, packets);
    match packets[0]
    case Flush =>
      DoneIsLast(o, core, packets[1..]);
      options := [];
      assert before + options == before;
    case Line(payload) =>
      var rest := OptionsInverse(o, core, signed, headers, before + [payload], packets[1..]);
      options := [payload] + rest;
      assert "" + payload + "" == payload && options[1..] == rest;
      assert (before + [payload]) + rest == before + options;
  }

  lemma TailInverse(o: Options, core: Core, signed: bool, headers: seq<Bytes>, packets: seq<Packet>)
    returns (options: seq<Bytes>)
    requires Feed(o, StartOptions(o, core, signed, headers), packets).Done?
    ensures Feed(o, StartOptions(o, core, signed, headers), packets) == Done(core)
    ensures packets == OptionPackets(core.caps, options)
    ensures OptionsOk(options) && (options != [] ==> "push-options" in core.caps) && (signed ==> headers == options)
  {
    hide Step;
    if "push-options" !in core.caps {
      RejectStays(o, Malformed, packets);
      DoneIsLast(o, core, packets);
      options := [];
    } else {
      RejectStays(o, Malformed, packets);
      options := OptionsInverse(o, core, signed, headers, [], packets);
      assert [] + options == options;
    }
  }

  // ----- unsigned commands -----

  lemma CommandStep(o: Options, core: Core, payload: Bytes) returns (u: Update)
    requires UpdatesOk(o, core.width, core.updates) && !Step(o, Commands(core), Line(payload)).Reject?
    ensures payload == CommandLine(u) && UpdatesOk(o, core.width, core.updates + [u])
    ensures Step(o, Commands(core), Line(payload)) == Commands(core.(updates := core.updates + [u]))
  {
    u := AddCommandSound(o, core, payload);
  }

  lemma FlushSteps(o: Options, core: Core, headers: seq<Bytes>)
    ensures Step(o, Commands(core), Flush) == StartOptions(o, core, false, [])
    ensures Step(o, CertHeaders(core, 3, headers), Line("\n")) == CertBody(core, headers, NO_SIGNATURE)
    ensures Step(o, CertFlush(core, headers), Flush) == StartOptions(o, core, true, headers)
  {
  }

  lemma StartStep(o: Options, shallows: seq<Bytes>, payload: Bytes)
    requires !(SHALLOW <= payload)
    ensures Step(o, Preamble(shallows), Line(payload)) == StartRequest(o, shallows, payload)
  {
  }

  lemma VersionStep(o: Options, core: Core, packet: Packet)
    requires !Step(o, CertVersion(core), packet).Reject?
    ensures packet == Line(CERT_VERSION) && Step(o, CertVersion(core), packet) == CertHeaders(core, 0, [])
  {
  }

  lemma {:induction false} CommandsInverse(o: Options, core: Core, packets: seq<Packet>)
    returns (updates: seq<Update>, rest: seq<Packet>)
    requires UpdatesOk(o, core.width, core.updates)
    requires Feed(o, Commands(core), packets).Done?
    ensures packets == Lines("", CommandLines(updates), "") + ([Flush] + rest)
    ensures UpdatesOk(o, core.width, core.updates + updates)
    ensures Feed(o, Commands(core), packets) ==
            Feed(o, StartOptions(o, core.(updates := core.updates + updates), false, []), rest)
    decreases |packets|
  {
    hide Step, StartOptions, CommandLine, UpdatesOk;
    Uncons(o, Commands(core), packets);
    FlushSteps(o, core, []);
    if packets[0].Flush? {
      updates, rest := [], packets[1..];
      assert core.updates + updates == core.updates;
    } else {
      var u := CommandStep(o, core, packets[0].payload);
      var next, more := core.(updates := core.updates + [u]), [];
      more, rest := CommandsInverse(o, next, packets[1..]);
      updates := [u] + more;
      CommandLinesCons(u, more, "");
      assert CommandLine(u) + "" == CommandLine(u);
      assert next.updates + more == core.updates + updates;
    }
  }

  // ----- certificate headers -----

  lemma HeaderInverse(payload: Bytes)
    requires ParseHeader(payload).Some?
    ensures var (field, value) := ParseHeader(payload).value; payload == field + " " + value + "\n"
  {
    LineText(payload);
    var line := payload[..|payload| - 1];
    var n := IndexOf(line, ' ');
    assert line == line[..n] + " " + line[n + 1..];
  }

  lemma RequiredInverse(o: Options, core: Core, n: nat, name: Bytes, packets: seq<Packet>) returns (value: Bytes)
    requires n < 3 && name == RequiredField(n) + " "
    requires Feed(o, CertHeaders(core, n, []), packets).Done?
    ensures packets != [] && packets[0] == Line(name + value + "\n")
    ensures ValidRequiredHeader(RequiredField(n), value)
    ensures n == 2 ==> value == Value(o.advertised, "push-cert")
    ensures Feed(o, CertHeaders(core, n, []), packets) == Feed(o, CertHeaders(core, n + 1, []), packets[1..])
  {
    Uncons(o, CertHeaders(core, n, []), packets);
    var payload := packets[0].payload;
    HeaderInverse(payload);
    value := ParseHeader(payload).value.1;
  }

  lemma OptionHeaderStep(o: Options, core: Core, before: seq<Bytes>, payload: Bytes) returns (value: Bytes)
    requires payload != "\n" && !Step(o, CertHeaders(core, 3, before), Line(payload)).Reject?
    ensures payload == "push-option " + value + "\n"
    ensures Step(o, CertHeaders(core, 3, before), Line(payload)) == CertHeaders(core, 3, before + [value])
  {
    HeaderInverse(payload);
    value := ParseHeader(payload).value.1;
    assert "push-option" + " " == "push-option ";
  }

  lemma {:induction false} OptionHeadersInverse(o: Options, core: Core, before: seq<Bytes>, packets: seq<Packet>)
    returns (options: seq<Bytes>, rest: seq<Packet>)
    requires Feed(o, CertHeaders(core, 3, before), packets).Done?
    ensures packets == Lines("push-option ", options, "\n") + ([Line("\n")] + rest)
    ensures Feed(o, CertHeaders(core, 3, before), packets) ==
        Feed(o, CertBody(core, before + options, NO_SIGNATURE), rest)
    decreases |packets|
  {
    hide Step;
    Uncons(o, CertHeaders(core, 3, before), packets);
    FlushSteps(o, core, before);
    if packets[0].payload == "\n" {
      options, rest := [], packets[1..];
      assert before + options == before;
    } else {
      var value := OptionHeaderStep(o, core, before, packets[0].payload);
      var more := [];
      more, rest := OptionHeadersInverse(o, core, before + [value], packets[1..]);
      options := [value] + more;
      LinesCons("push-option ", value, more, "\n");
      assert (before + [value]) + more == before + options;
    }
  }

  lemma HeadersInverse(o: Options, core: Core, packets: seq<Packet>)
    returns (pusher: Bytes, pushee: Bytes, nonce: Bytes, options: seq<Bytes>, rest: seq<Packet>)
    requires Feed(o, CertVersion(core), packets).Done?
    ensures PusherIdent(pusher) && CertificateText(pushee) && CertificateText(nonce)
    ensures nonce == Value(o.advertised, "push-cert")
    ensures packets == HeaderPackets(Signed(pusher, pushee, nonce, "", []), options) + rest
    ensures Feed(o, CertVersion(core), packets) == Feed(o, CertBody(core, options, NO_SIGNATURE), rest)
  {
    hide Step, PusherIdent, CertificateText, Value, Lines;
    Uncons(o, CertVersion(core), packets);
    VersionStep(o, core, packets[0]);
    var p1 := packets[1..];
    pusher := RequiredInverse(o, core, 0, "pusher ", p1);
    var p2 := p1[1..];
    pushee := RequiredInverse(o, core, 1, "pushee ", p2);
    var p3 := p2[1..];
    nonce := RequiredInverse(o, core, 2, "nonce ", p3);
    var p4 := p3[1..];
    options, rest := OptionHeadersInverse(o, core, [], p4);
    assert [] + options == options;
    Unroll4(packets, p4);
  }

  lemma Unroll4(packets: seq<Packet>, rest: seq<Packet>)
    requires |packets| >= 4 && packets[1..][1..][1..][1..] == rest
    ensures packets == [packets[0], packets[1], packets[2], packets[3]] + rest
  {
    assert packets[4..] == rest;
  }

  // ----- certificate body -----

  /** In a body without an open signature a line is a command or opens the signature. */
  lemma BodyStep(o: Options, core: Core, headers: seq<Bytes>, seen: bool, payload: Bytes)
    returns (updates: seq<Update>, line: Bytes)
    requires UpdatesOk(o, core.width, core.updates)
    requires !Step(o, CertBody(core, headers, NO_SIGNATURE.(commandsSeen := seen)), Line(payload)).Reject?
    ensures payload == line + "\n"
    ensures updates == [] ==>
            && SignatureEnd(line).Some?
            && Step(o, CertBody(core, headers, NO_SIGNATURE.(commandsSeen := seen)), Line(payload)) ==
               CertBody(core, headers, SignatureState(seen, SignatureEnd(line).value, false, false))
    ensures updates != [] ==>
            && |updates| == 1 && line == CommandLine(updates[0])
            && UpdatesOk(o, core.width, core.updates + [updates[0]])
            && Step(o, CertBody(core, headers, NO_SIGNATURE.(commandsSeen := seen)), Line(payload)) ==
               CertBody(core.(updates := core.updates + [updates[0]]), headers, NO_SIGNATURE.(commandsSeen := true))
  {
    LineText(payload);
    line := payload[..|payload| - 1];
    if IsCommandLine(line) {
      var u := AddCommandSound(o, core, line);
      updates := [u];
    } else {
      updates := [];
    }
  }

  lemma {:induction false} CertCommandsInverse(o: Options, core: Core, headers: seq<Bytes>, seen: bool,
      packets: seq<Packet>)
    returns (updates: seq<Update>, begin: Bytes, rest: seq<Packet>)
    requires UpdatesOk(o, core.width, core.updates)
    requires Feed(o, CertBody(core, headers, NO_SIGNATURE.(commandsSeen := seen)), packets).Done?
    ensures packets == Lines("", CommandLines(updates), "\n") + ([Line(begin + "\n")] + rest)
    ensures UpdatesOk(o, core.width, core.updates + updates) && SignatureEnd(begin).Some?
    ensures Feed(o, CertBody(core, headers, NO_SIGNATURE.(commandsSeen := seen)), packets) ==
            Feed(o, CertBody(core.(updates := core.updates + updates), headers,
                             SignatureState(seen || updates != [], SignatureEnd(begin).value, false, false)), rest)
    decreases |packets|
  {
    hide Step, SignatureEnd;
    Uncons(o, CertBody(core, headers, NO_SIGNATURE.(commandsSeen := seen)), packets);
    var first, line := BodyStep(o, core, headers, seen, packets[0].payload);
    if first == [] {
      updates, begin, rest := [], line, packets[1..];
      assert core.updates + updates == core.updates;
    } else {
      var u, more := first[0], [];
      var next := core.(updates := core.updates + [u]);
      more, begin, rest := CertCommandsInverse(o, next, headers, true, packets[1..]);
      updates := [u] + more;
      CommandLinesCons(u, more, "\n");
      assert next.updates + more == core.updates + updates;
    }
  }

  /** Past the end of the envelope only the end of the certificate and its flush are accepted. */
  lemma ClosingInverse(o: Options, core: Core, headers: seq<Bytes>, sig: SignatureState, packets: seq<Packet>)
    returns (rest: seq<Packet>)
    requires sig.end != "" && sig.ended && Feed(o, CertBody(core, headers, sig), packets).Done?
    ensures packets == [Line(CERT_END + "\n"), Flush] + rest
    ensures sig.commandsSeen && sig.content
    ensures Feed(o, CertBody(core, headers, sig), packets) == Feed(o, StartOptions(o, core, true, headers), rest)
  {
    Uncons(o, CertBody(core, headers, sig), packets);
    LineText(packets[0].payload);
    Uncons(o, CertFlush(core, headers), packets[1..]);
    rest := packets[1..][1..];
    assert packets == [packets[0]] + ([packets[1]] + rest);
  }

  lemma EnvelopeStep(o: Options, core: Core, headers: seq<Bytes>, sig: SignatureState, payload: Bytes)
    returns (line: Bytes)
    requires sig.end != "" && !sig.ended && !Step(o, CertBody(core, headers, sig), Line(payload)).Reject?
    ensures payload == line + "\n"
    ensures Step(o, CertBody(core, headers, sig), Line(payload)) ==
            CertBody(core, headers, if line == sig.end then sig.(ended := true)
                else sig.(content := sig.content || line != ""))
    ensures line != sig.end ==> SignatureLine(line, sig.end)
  {
    LineText(payload);
    line := payload[..|payload| - 1];
  }

  lemma {:induction false} EnvelopeInverse(o: Options, core: Core, headers: seq<Bytes>, sig: SignatureState,
      packets: seq<Packet>)
    returns (lines: seq<Bytes>, rest: seq<Packet>)
    requires sig.end != "" && !sig.ended && Feed(o, CertBody(core, headers, sig), packets).Done?
    ensures packets == Lines("", lines, "\n") + ([Line(sig.end + "\n")] + ([Line(CERT_END + "\n"), Flush] + rest))
    ensures forall i :: 0 <= i < |lines| ==> SignatureLine(lines[i], sig.end)
    ensures sig.commandsSeen && (sig.content || SomeText(lines))
    ensures Feed(o, CertBody(core, headers, sig), packets) == Feed(o, StartOptions(o, core, true, headers), rest)
    decreases |packets|
  {
    hide Step, StartOptions, SignatureLine, SomeText;
    Uncons(o, CertBody(core, headers, sig), packets);
    var line := EnvelopeStep(o, core, headers, sig, packets[0].payload);
    if line == sig.end {
      lines := [];
      rest := ClosingInverse(o, core, headers, sig.(ended := true), packets[1..]);
    } else {
      var next, more := sig.(content := sig.content || line != ""), [];
      more, rest := EnvelopeInverse(o, core, headers, next, packets[1..]);
      lines := [line] + more;
      LinesCons("", line, more, "\n");
      assert "" + line + "\n" == line + "\n" && lines[1..] == more;
      SomeTextCons(lines);
    }
  }

  lemma CertificateInverse(o: Options, core: Core, packets: seq<Packet>)
    returns (updates: seq<Update>, body: Body, headers: seq<Bytes>, rest: seq<Packet>)
    requires core.updates == [] && o.maxCommands >= 0 && Feed(o, CertVersion(core), packets).Done?
    ensures body.Signed? && BodyOk(o, body)
    ensures updates != [] && UpdatesOk(o, core.width, updates)
    ensures packets == HeaderPackets(body, headers)
                       + (Lines("", CommandLines(updates), "\n") + SignaturePackets(body.begin, body.signature)) + rest
    ensures Feed(o, CertVersion(core), packets) ==
            Feed(o, StartOptions(o, core.(updates := updates), true, headers), rest)
  {
    hide Step, Feed, StartOptions, SignatureEnd, PusherIdent, CertificateText, CertificateLine, HeaderPackets;
    hide SignaturePackets, Lines, CommandLines;
    var pusher, pushee, nonce, p1;
    pusher, pushee, nonce, headers, p1 := HeadersInverse(o, core, packets);
    var begin, p2;
    updates, begin, p2 := CertCommandsInverse(o, core, headers, false, p1);
    assert [] + updates == updates;
    var end := SignatureEnd(begin).value;
    EnvelopeText(begin);
    var lines;
    lines, rest := EnvelopeInverse(o, core.(updates := updates), headers,
        SignatureState(updates != [], end, false, false), p2);
    body := Signed(pusher, pushee, nonce, begin, lines);
    CertificateShape(packets, body, headers, updates, p1, p2, rest);
  }

  lemma CertificateShape(packets: seq<Packet>, body: Body, headers: seq<Bytes>, updates: seq<Update>,
                         p1: seq<Packet>, p2: seq<Packet>, rest: seq<Packet>)
    requires body.Signed? && SignatureEnd(body.begin).Some?
    requires packets == HeaderPackets(Signed(body.pusher, body.pushee, body.nonce, "", []), headers) + p1
    requires p1 == Lines("", CommandLines(updates), "\n") + ([Line(body.begin + "\n")] + p2)
    requires p2 == Lines("", body.signature, "\n")
                   + ([Line(SignatureEnd(body.begin).value + "\n")] + ([Line(CERT_END + "\n"), Flush] + rest))
    ensures packets == HeaderPackets(body, headers)
                       + (Lines("", CommandLines(updates), "\n") + SignaturePackets(body.begin, body.signature)) + rest
  {
    hide SignatureEnd, Lines, CommandLines;
    var end := SignatureEnd(body.begin).value;
    assert p2 == Lines("", body.signature, "\n") + [Line(end + "\n"), Line(CERT_END + "\n"), Flush] + rest;
    assert [Line(body.begin + "\n")] + p2 == SignaturePackets(body.begin, body.signature) + rest;
    assert HeaderPackets(Signed(body.pusher, body.pushee, body.nonce, "", []), headers) == HeaderPackets(body, headers);
  }

  // ----- the whole request -----

  lemma ShallowStep(o: Options, before: seq<Bytes>, payload: Bytes) returns (id: Bytes)
    requires ShallowsOk(before) && SHALLOW <= payload && !Step(o, Preamble(before), Line(payload)).Reject?
    ensures payload == SHALLOW + id + "\n" && ShallowsOk(before + [id])
    ensures Step(o, Preamble(before), Line(payload)) == Preamble(before + [id])
  {
    id := ShallowID(payload);
    LineText(payload);
    forall i | 0 <= i < |before|
      ensures ToLower(before[i]) != ToLower(id)
    {
      assert ToLower(before[i]) in LowerIDs(before);
    }
  }

  lemma {:induction false} PreambleInverse(o: Options, before: seq<Bytes>, packets: seq<Packet>)
    returns (ids: seq<Bytes>, first: Bytes, rest: seq<Packet>)
    requires ShallowsOk(before) && Feed(o, Preamble(before), packets).Done?
    ensures ShallowsOk(before + ids)
    ensures packets == Lines(SHALLOW, ids, "\n") + ([Line(first)] + rest)
    ensures Feed(o, Preamble(before), packets) == Feed(o, StartRequest(o, before + ids, first), rest)
    decreases |packets|
  {
    hide Step, StartRequest;
    Uncons(o, Preamble(before), packets);
    if SHALLOW <= packets[0].payload {
      var id := ShallowStep(o, before, packets[0].payload);
      var more := [];
      more, first, rest := PreambleInverse(o, before + [id], packets[1..]);
      ids := [id] + more;
      LinesCons(SHALLOW, id, more, "\n");
      assert (before + [id]) + more == before + ids;
    } else {
      ids, first, rest := [], packets[0].payload, packets[1..];
      StartStep(o, before, first);
      assert before + ids == before;
    }
  }

  lemma CertificateStart(o: Options, shallows: seq<Bytes>, first: Bytes)
    requires PUSH_CERT <= first && !StartRequest(o, shallows, first).Reject?
    ensures first == PUSH_CERT + first[|PUSH_CERT|..]
    ensures Negotiate(o, shallows, first[|PUSH_CERT|..]).Some?
    ensures StartRequest(o, shallows, first) == CertVersion(Negotiate(o, shallows, first[|PUSH_CERT|..]).value)
  {
  }

  lemma UnsignedStart(o: Options, shallows: seq<Bytes>, first: Bytes) returns (text: Bytes, start: Core, u: Update)
    requires !(PUSH_CERT <= first) && o.maxCommands >= 0 && !StartRequest(o, shallows, first).Reject?
    ensures Negotiate(o, shallows, text) == Some(start) && start.updates == []
    ensures first == CommandLine(u) + "\0" + text && UpdatesOk(o, start.width, [u])
    ensures StartRequest(o, shallows, first) == Commands(start.(updates := [u]))
  {
    hide AddCommand, CapsOf, Negotiated, NegotiateWidth;
    var n := IndexOf(first, '\0');
    text := first[n + 1..];
    start := Negotiate(o, shallows, text).value;
    u := AddCommandSound(o, start, first[..n]);
    assert first == first[..n] + "\0" + text && [] + [u] == [u];
  }

  /** The opening line: its capability text prints back, and its negotiation succeeded. */
  lemma StartInverse(o: Options, shallows: seq<Bytes>, first: Bytes, packets: seq<Packet>)
    returns (text: Bytes, core: Core, body: Body, headers: seq<Bytes>, rest: seq<Packet>)
    requires o.maxCommands >= 0 && Feed(o, StartRequest(o, shallows, first), packets).Done?
    ensures Negotiate(o, shallows, text) == Some(core.(updates := []))
    ensures core.updates != [] && UpdatesOk(o, core.width, core.updates) && BodyOk(o, body)
    ensures body.Unsigned? ==> headers == []
    ensures [Line(first)] + packets == BodyPackets(text, core.updates, body, headers) + rest
    ensures Feed(o, StartRequest(o, shallows, first), packets) ==
        Feed(o, StartOptions(o, core, body.Signed?, headers), rest)
  {
    hide Step, Feed, StartRequest, StartOptions, SignatureEnd, PusherIdent, CertificateText, SignatureOk, CapsOf;
    hide Negotiated, NegotiateWidth, UpdatesOk, Lines, CommandLines, CommandLine, HeaderPackets, SignaturePackets;
    if StartRequest(o, shallows, first).Reject? {
      RejectStays(o, StartRequest(o, shallows, first).fault, packets);
    }
    if PUSH_CERT <= first {
      text := first[|PUSH_CERT|..];
      CertificateStart(o, shallows, first);
      var start := Negotiate(o, shallows, text).value;
      assert start.updates == [];
      var updates;
      updates, body, headers, rest := CertificateInverse(o, start, packets);
      core := start.(updates := updates);
    } else {
      var start: Core, u: Update, more: seq<Update>;
      text, start, u := UnsignedStart(o, shallows, first);
      more, rest := CommandsInverse(o, start.(updates := [u]), packets);
      core, body, headers := start.(updates := [u] + more), Unsigned, [];
      assert core.updates[1..] == more;
    }
  }

  /** Soundness: every accepted packet list is the packet form of a well-formed request, and decodes to it. */
  lemma GrammarSound(o: Options, packets: seq<Packet>) returns (req: Request)
    requires o.maxCommands >= 0 && Feed(o, Preamble([]), packets).Done?
    ensures WellFormed(o, req) && Packets(req) == packets
    ensures Feed(o, Preamble([]), packets) == Done(CoreOf(o, req))
  {
    var shallows, first, p1 := PreambleInverse(o, [], packets);
    assert [] + shallows == shallows;
    var text, core, body, headers, p2 := StartInverse(o, shallows, first, p1);
    var options := TailInverse(o, core, body.Signed?, headers, p2);
    var tokens, lead := ParsePrint(text);
    req := Request(shallows, tokens, lead, core.updates, body, options);
    assert BodyPackets(text, core.updates, body, headers) == BodyPackets(text, core.updates, body, options);
  }
}
