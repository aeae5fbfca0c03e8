/** The receive-pack request grammar of gitprotocol-pack(5), and the proof that the machine accepts exactly it. */
module ReceiveGrammar {
  import opened Text
  import opened PktLine
  import opened Capabilities
  import opened PushPolicy
  import opened ReceiveMachine

  /** A request as a client means it, with no parsing state. */
  datatype Request = Request(
    shallows: seq<Bytes>, tokens: seq<Bytes>, lead: bool, updates: seq<Update>, body: Body, options: seq<Bytes>)

  datatype Body =
    | Unsigned
    | Signed(pusher: Bytes, pushee: Bytes, nonce: Bytes, begin: Bytes, signature: seq<Bytes>)

  // ----- well-formed requests -----

  predicate ShallowsOk(ids: seq<Bytes>) {
    && (forall i :: 0 <= i < |ids| ==> ValidObjectID(ids[i]))
    && (forall i, j :: 0 <= i < j < |ids| ==> ToLower(ids[i]) != ToLower(ids[j]))
  }

  predicate Admissible(o: Options, width: nat, u: Update) {
    ParsedUpdate(u, width) && Word(u.ref) && (ZeroObjectID(u.newOID) ==> "delete-refs" in o.advertised)
  }

  predicate UpdatesOk(o: Options, width: nat, updates: seq<Update>) {
    && |updates| <= o.maxCommands
    && (forall i :: 0 <= i < |updates| ==> Admissible(o, width, updates[i]))
    && (forall i, j :: 0 <= i < j < |updates| ==> updates[i].ref != updates[j].ref)
  }

  predicate OptionsOk(options: seq<Bytes>) {
    forall i :: 0 <= i < |options| ==> ValidPushOption(options[i])
  }

  /** A line of a signature envelope: neither its end nor the end of the certificate. */
  predicate SignatureLine(line: Bytes, end: Bytes) {
    CertificateLine(line + "\n") && line != end && line != CERT_END
  }

  predicate SignatureOk(lines: seq<Bytes>, end: Bytes) {
    && (forall i :: 0 <= i < |lines| ==> SignatureLine(lines[i], end))
    && (exists i :: 0 <= i < |lines| && lines[i] != "")
  }

  predicate BodyOk(o: Options, body: Body) {
    match body
    case Unsigned => true
    case Signed(pusher, pushee, nonce, begin, signature) =>
      && nonce == Value(o.advertised, "push-cert")
      && PusherIdent(pusher) && CertificateText(pushee) && CertificateText(nonce)
      && SignatureEnd(begin).Some? && SignatureOk(signature, SignatureEnd(begin).value)
  }

  function CapsText(req: Request): Bytes {
    Print(req.tokens, req.lead)
  }

  predicate WellFormed(o: Options, req: Request) {
    && TokenList(req.tokens)
    && CapsOf(CapsText(req)).Some?
    && var caps := CapsOf(CapsText(req)).value;
    && Negotiated(caps, o.advertised)
    && FormatWidth(caps, o.advertised).Some?
    && var width := FormatWidth(caps, o.advertised).value;
    && ShallowsOk(req.shallows) && AllWide(req.shallows, width)
    && req.updates != [] && UpdatesOk(o, width, req.updates)
    && OptionsOk(req.options) && (req.options != [] ==> "push-options" in caps)
    && BodyOk(o, req.body)
  }

  function CoreOf(o: Options, req: Request): Core
    requires WellFormed(o, req)
  {
    var caps := CapsOf(CapsText(req)).value;
    Core(req.shallows, caps, FormatWidth(caps, o.advertised).value, req.updates)
  }

  // ----- the packets of a request -----

  function Lines(prefix: Bytes, items: seq<Bytes>, suffix: Bytes): (packets: seq<Packet>)
    ensures |packets| == |items|
  {
    if items == [] then [] else [Line(prefix + items[0] + suffix)] + Lines(prefix, items[1..], suffix)
  }

  function CommandLine(u: Update): Bytes {
    u.oldOID + " " + u.newOID + " " + u.ref
  }

  function CommandLines(updates: seq<Update>): (lines: seq<Bytes>)
    ensures |lines| == |updates|
  {
    if updates == [] then [] else [CommandLine(updates[0])] + CommandLines(updates[1..])
  }

  function OptionPackets(caps: Caps, options: seq<Bytes>): seq<Packet> {
    if "push-options" in caps then Lines("", options, "") + [Flush] else []
  }

  function HeaderPackets(body: Body, options: seq<Bytes>): seq<Packet>
    requires body.Signed?
  {
    [Line(CERT_VERSION), Line("pusher " + body.pusher + "\n"), Line("pushee " + body.pushee + "\n"),
     Line("nonce " + body.nonce + "\n")] + Lines("push-option ", options, "\n") + [Line("\n")]
  }

  function SignaturePackets(begin: Bytes, lines: seq<Bytes>): seq<Packet>
    requires SignatureEnd(begin).Some?
  {
    [Line(begin + "\n")] + Lines("", lines, "\n")
    + [Line(SignatureEnd(begin).value + "\n"), Line(CERT_END + "\n"), Flush]
  }

  /** From the line that carries the capabilities to the flush that ends the command list. */
  function BodyPackets(text: Bytes, updates: seq<Update>, body: Body, options: seq<Bytes>): seq<Packet>
    requires updates != [] && (body.Signed? ==> SignatureEnd(body.begin).Some?)
  {
    match body
    case Unsigned =>
      [Line(CommandLine(updates[0]) + "\0" + text)] + (Lines("", CommandLines(updates[1..]), "") + [Flush])
    case Signed(_, _, _, begin, signature) =>
      [Line(PUSH_CERT + text)]
      + (HeaderPackets(body, options) + (Lines("", CommandLines(updates), "\n") + SignaturePackets(begin, signature)))
  }

  function Packets(req: Request): seq<Packet>
    requires req.updates != [] && (req.body.Signed? ==> SignatureEnd(req.body.begin).Some?)
    requires CapsOf(CapsText(req)).Some?
  {
    Lines(SHALLOW, req.shallows, "\n")
    + (BodyPackets(CapsText(req), req.updates, req.body, req.options)
       + OptionPackets(CapsOf(CapsText(req)).value, req.options))
  }

  // ----- commands -----

  lemma {:induction false} HexWord(id: Bytes)
    requires forall i :: 0 <= i < |id| ==> HexByte(id[i])
    ensures WordLen(id) == |id|
  {
    if id != "" {
      HexWord(id[1..]);
    }
  }

  /** The command line of an admissible update splits back into its three fields. */
  lemma CommandFields(o: Options, width: nat, u: Update)
    requires Admissible(o, width, u)
    ensures Fields(CommandLine(u)) == [u.oldOID, u.newOID, u.ref]
    ensures Join(Fields(CommandLine(u)), " ") == CommandLine(u)
    ensures IsCommandLine(CommandLine(u))
  {
    HexWord(u.oldOID);
    HexWord(u.newOID);
    assert CommandLine(u) == u.oldOID + " " + (u.newOID + " " + u.ref);
    FieldsCons(u.oldOID, u.newOID + " " + u.ref);
    FieldsCons(u.newOID, u.ref);
    FieldsOfOne(u.ref);
    var fields := [u.oldOID, u.newOID, u.ref];
    assert fields[1..] == [u.newOID, u.ref] && fields[1..][1..] == [u.ref];
    assert Join(fields[1..], " ") == u.newOID + " " + u.ref;
  }

  lemma AddCommandComplete(o: Options, core: Core, u: Update)
    requires UpdatesOk(o, core.width, core.updates + [u])
    ensures AddCommand(o, core, CommandLine(u)) == Ok(core.(updates := core.updates + [u]))
  {
    var all := core.updates + [u];
    assert all[|core.updates|] == u;
    assert Admissible(o, core.width, u);
    CommandFields(o, core.width, u);
    assert u.ref !in Refs(core.updates) by {
      forall v | v in core.updates
        ensures v.ref != u.ref
      {
        var i :| 0 <= i < |core.updates| && core.updates[i] == v;
        assert all[i] == v;
      }
    }
  }

  lemma AddCommandSound(o: Options, core: Core, line: Bytes) returns (u: Update)
    requires UpdatesOk(o, core.width, core.updates)
    requires AddCommand(o, core, line).Ok?
    ensures AddCommand(o, core, line) == Ok(core.(updates := core.updates + [u]))
    ensures line == CommandLine(u)
    ensures UpdatesOk(o, core.width, core.updates + [u])
  {
    hide Fields, PushableRef, ZeroObjectID;
    var fields := Fields(line);
    u := Update(fields[0], fields[1], fields[2]);
    FieldsAreWords(line, 2);
    assert fields == [u.oldOID, u.newOID, u.ref];
    assert fields[1..] == [u.newOID, u.ref] && fields[1..][1..] == [u.ref];
    assert Join(fields[1..], " ") == u.newOID + " " + u.ref;
    assert line == u.oldOID + " " + (u.newOID + " " + u.ref) == CommandLine(u);
    assert Admissible(o, core.width, u);
    forall i | 0 <= i < |core.updates|
      ensures core.updates[i].ref != u.ref
    {
      assert core.updates[i].ref in Refs(core.updates);
    }
  }

  // ----- completeness: the machine accepts the packets of every well-formed request -----

  lemma FeedCons(o: Options, st: State, packet: Packet, rest: seq<Packet>)
    ensures Feed(o, st, [packet] + rest) == Feed(o, Step(o, st, packet), rest)
  {
    assert ([packet] + rest)[1..] == rest;
  }

  predicate Printable(s: Bytes) {
    forall i :: 0 <= i < |s| ==> s[i] >= ' '
  }

  /** A printable line with its line feed is a certificate line, and loses nothing but the line feed. */
  lemma PrintableLine(line: Bytes)
    requires Printable(line)
    ensures CertificateLine(line + "\n")
    ensures (line + "\n")[..|line + "\n"| - 1] == line
  {
    var payload := line + "\n";
    assert payload[..|payload| - 1] == line;
  }

  lemma StepShallow(o: Options, before: seq<Bytes>, id: Bytes)
    requires ValidObjectID(id) && ToLower(id) !in LowerIDs(before)
    ensures Step(o, Preamble(before), Line(SHALLOW + id + "\n")) == Preamble(before + [id])
  {
    var line := SHALLOW + id + "\n";
    PrintableLine(SHALLOW + id);
    assert SHALLOW <= line && ShallowID(line) == id;
  }

  lemma {:induction false} FeedShallows(o: Options, before: seq<Bytes>, ids: seq<Bytes>)
    requires ShallowsOk(before + ids)
    ensures Feed(o, Preamble(before), Lines(SHALLOW, ids, "\n")) == Preamble(before + ids)
    decreases |ids|
  {
    hide Step;
    if ids == [] {
      assert before + ids == before;
    } else {
      var all, id := before + ids, ids[0];
      assert all[|before|] == id;
      assert ToLower(id) !in LowerIDs(before) by {
        forall other | other in before
          ensures ToLower(other) != ToLower(id)
        {
          var i :| 0 <= i < |before| && before[i] == other;
          assert all[i] == other;
        }
      }
      StepShallow(o, before, id);
      FeedCons(o, Preamble(before), Line(SHALLOW + id + "\n"), Lines(SHALLOW, ids[1..], "\n"));
      assert (before + [id]) + ids[1..] == before + ids;
      FeedShallows(o, before + [id], ids[1..]);
    }
  }

  lemma {:induction false} FeedCommands(o: Options, core: Core, updates: seq<Update>)
    requires UpdatesOk(o, core.width, core.updates + updates)
    ensures Feed(o, Commands(core), Lines("", CommandLines(updates), "")) ==
            Commands(core.(updates := core.updates + updates))
    decreases |updates|
  {
    hide AddCommand;
    if updates == [] {
      assert core.updates + updates == core.updates;
    } else {
      var next := core.(updates := core.updates + [updates[0]]);
      assert core.updates + updates == next.updates + updates[1..];
      UpdatesPrefix(o, core.width, next.updates, updates[1..]);
      AddCommandComplete(o, core, updates[0]);
      assert "" + CommandLine(updates[0]) + "" == CommandLine(updates[0]);
      FeedCommands(o, next, updates[1..]);
    }
  }

  lemma UpdatesPrefix(o: Options, width: nat, a: seq<Update>, b: seq<Update>)
    requires UpdatesOk(o, width, a + b)
    ensures UpdatesOk(o, width, a)
  {
    assert forall i :: 0 <= i < |a| ==> (a + b)[i] == a[i];
  }

  lemma CommandPrintable(o: Options, width: nat, u: Update)
    requires Admissible(o, width, u)
    ensures Printable(CommandLine(u)) && HexByte(CommandLine(u)[0])
  {
    assert CommandLine(u)[0] == u.oldOID[0];
  }

  lemma StepCertCommand(o: Options, core: Core, headers: seq<Bytes>, seen: bool, u: Update)
    requires UpdatesOk(o, core.width, core.updates + [u])
    ensures Step(o, CertBody(core, headers, NO_SIGNATURE.(commandsSeen := seen)), Line(CommandLine(u) + "\n")) ==
            CertBody(core.(updates := core.updates + [u]), headers, NO_SIGNATURE.(commandsSeen := true))
  {
    hide AddCommand, CommandLine, SignatureEnd, CertificateLine, Fields, ValidObjectID, PushableRef;
    assert (core.updates + [u])[|core.updates|] == u;
    AddCommandComplete(o, core, u);
    CommandFields(o, core.width, u);
    CommandPrintable(o, core.width, u);
    PrintableLine(CommandLine(u));
    assert CERT_END[0] == 'p' && !HexByte('p');
  }

  lemma {:induction false} FeedCertCommands(o: Options, core: Core, headers: seq<Bytes>, seen: bool,
      updates: seq<Update>)
    requires UpdatesOk(o, core.width, core.updates + updates)
    ensures Feed(o, CertBody(core, headers, NO_SIGNATURE.(commandsSeen := seen)),
        Lines("", CommandLines(updates), "\n")) ==
            CertBody(core.(updates := core.updates + updates), headers,
                     NO_SIGNATURE.(commandsSeen := seen || updates != []))
    decreases |updates|
  {
    hide Step;
    if updates == [] {
      assert core.updates + updates == core.updates;
    } else {
      var u := updates[0];
      var next := core.(updates := core.updates + [u]);
      assert core.updates + updates == next.updates + updates[1..];
      UpdatesPrefix(o, core.width, next.updates, updates[1..]);
      StepCertCommand(o, core, headers, seen, u);
      assert "" + CommandLine(u) + "\n" == CommandLine(u) + "\n";
      FeedCons(o, CertBody(core, headers, NO_SIGNATURE.(commandsSeen := seen)),
               Line(CommandLine(u) + "\n"), Lines("", CommandLines(updates[1..]), "\n"));
      FeedCertCommands(o, next, headers, true, updates[1..]);
    }
  }

  /** A header line is read back as its field and value. */
  lemma HeaderReadBack(field: Bytes, value: Bytes)
    requires field != "" && ' ' !in field && CertificateLine(field + " " + value + "\n") && value != ""
    ensures ParseHeader(field + " " + value + "\n") == Some((field, value))
  {
    var payload := field + " " + value + "\n";
    var line := payload[..|payload| - 1];
    assert line == field + [' '] + value;
    IndexOfAfter(field, ' ', value);
    assert line[..|field|] == field && line[|field| + 1..] == value;
  }

  lemma HeaderText(field: Bytes, value: Bytes)
    requires field != "" && Printable(field) && ' ' !in field && value != "" && Printable(value)
    ensures field + " " + value + "\n" != "\n"
    ensures ParseHeader(field + " " + value + "\n") == Some((field, value))
  {
    PrintableLine(field + " " + value);
    HeaderReadBack(field, value);
  }

  lemma StepOptionHeader(o: Options, core: Core, headers: seq<Bytes>, value: Bytes)
    requires ValidPushOption(value) && "push-options" in core.caps && "push-options" in o.advertised
    ensures Step(o, CertHeaders(core, 3, headers), Line("push-option " + value + "\n")) ==
        CertHeaders(core, 3, headers + [value])
  {
    hide ParseHeader;
    HeaderText("push-option", value);
    assert "push-option " + value + "\n" == "push-option" + " " + value + "\n";
  }

  lemma {:induction false} FeedOptionHeaders(o: Options, core: Core, headers: seq<Bytes>, options: seq<Bytes>)
    requires OptionsOk(options)
    requires options != [] ==> "push-options" in core.caps && "push-options" in o.advertised
    ensures Feed(o, CertHeaders(core, 3, headers), Lines("push-option ", options, "\n")) ==
            CertHeaders(core, 3, headers + options)
    decreases |options|
  {
    hide Step, ValidPushOption;
    if options == [] {
      assert headers + options == headers;
    } else {
      var value := options[0];
      StepOptionHeader(o, core, headers, value);
      FeedCons(o, CertHeaders(core, 3, headers), Line("push-option " + value + "\n"),
          Lines("push-option ", options[1..], "\n"));
      assert (headers + [value]) + options[1..] == headers + options;
      FeedOptionHeaders(o, core, headers + [value], options[1..]);
    }
  }

  lemma RequiredHeader(o: Options, core: Core, n: nat, value: Bytes)
    requires n < 3 && ValidRequiredHeader(RequiredField(n), value)
    requires n == 2 ==> value == Value(o.advertised, "push-cert")
    ensures HeaderLine(o, core, n, [], RequiredField(n) + " " + value + "\n") == CertHeaders(core, n + 1, [])
    ensures RequiredField(n) + " " + value + "\n" != "\n"
  {
    hide ParseHeader, CertificateText, PusherIdent, ValidRequiredHeader;
    RequiredText(n, value);
    HeaderText(RequiredField(n), value);
  }

  lemma RequiredText(n: nat, value: Bytes)
    requires n < 3 && ValidRequiredHeader(RequiredField(n), value)
    ensures Printable(value) && value != ""
    ensures RequiredField(n) != "" && Printable(RequiredField(n)) && ' ' !in RequiredField(n)
  {
    assert CertificateText(value);
  }

  lemma StepRequired(o: Options, core: Core, n: nat, name: Bytes, value: Bytes)
    requires n < 3 && name == RequiredField(n) + " " && ValidRequiredHeader(RequiredField(n), value)
    requires n == 2 ==> value == Value(o.advertised, "push-cert")
    ensures Step(o, CertHeaders(core, n, []), Line(name + value + "\n")) == CertHeaders(core, n + 1, [])
  {
    RequiredHeader(o, core, n, value);
  }

  lemma FeedRequired(o: Options, core: Core, body: Body)
    requires body.Signed? && BodyOk(o, body)
    ensures Feed(o, CertVersion(core),
                 [Line(CERT_VERSION), Line("pusher " + body.pusher + "\n"), Line("pushee " + body.pushee + "\n"),
                  Line("nonce " + body.nonce + "\n")]) == CertHeaders(core, 3, [])
  {
    hide Feed, ParseHeader, PusherIdent, CertificateText, HeaderLine;
    StepRequired(o, core, 0, "pusher ", body.pusher);
    StepRequired(o, core, 1, "pushee ", body.pushee);
    StepRequired(o, core, 2, "nonce ", body.nonce);
    Feed4(o, CertVersion(core), Line(CERT_VERSION), Line("pusher " + body.pusher + "\n"),
          Line("pushee " + body.pushee + "\n"), Line("nonce " + body.nonce + "\n"));
  }

  lemma FeedHeaders(o: Options, core: Core, body: Body, options: seq<Bytes>)
    requires body.Signed? && BodyOk(o, body) && OptionsOk(options)
    requires options != [] ==> "push-options" in core.caps && "push-options" in o.advertised
    ensures Feed(o, CertVersion(core), HeaderPackets(body, options)) == CertBody(core, options, NO_SIGNATURE)
  {
    hide PusherIdent, CertificateText, ParseHeader;
    var required := [Line(CERT_VERSION), Line("pusher " + body.pusher + "\n"), Line("pushee " + body.pushee + "\n"),
                     Line("nonce " + body.nonce + "\n")];
    var extra := Lines("push-option ", options, "\n");
    FeedRequired(o, core, body);
    FeedOptionHeaders(o, core, [], options);
    assert [] + options == options;
    FeedAppend(o, CertVersion(core), required, extra);
    FeedAppend(o, CertVersion(core), required + extra, [Line("\n")]);
    FeedCons(o, CertHeaders(core, 3, options), Line("\n"), []);
  }

  lemma Feed3(o: Options, st: State, a: Packet, b: Packet, c: Packet)
    ensures Feed(o, st, [a, b, c]) == Step(o, Step(o, Step(o, st, a), b), c)
  {
    assert [a, b, c] == [a] + ([b] + ([c] + []));
    FeedCons(o, st, a, [b] + ([c] + []));
    FeedCons(o, Step(o, st, a), b, [c] + []);
    FeedCons(o, Step(o, Step(o, st, a), b), c, []);
  }

  lemma Feed4(o: Options, st: State, a: Packet, b: Packet, c: Packet, d: Packet)
    ensures Feed(o, st, [a, b, c, d]) == Step(o, Step(o, Step(o, Step(o, st, a), b), c), d)
  {
    assert [a, b, c, d] == [a] + [b, c, d];
    FeedCons(o, st, a, [b, c, d]);
    Feed3(o, Step(o, st, a), b, c, d);
  }

  predicate SomeText(lines: seq<Bytes>) {
    exists i :: 0 <= i < |lines| && lines[i] != ""
  }

  lemma StepSignatureLine(o: Options, core: Core, headers: seq<Bytes>, sig: SignatureState, line: Bytes)
    requires sig.end != "" && !sig.ended && SignatureLine(line, sig.end)
    ensures Step(o, CertBody(core, headers, sig), Line(line + "\n")) ==
            CertBody(core, headers, sig.(content := sig.content || line != ""))
  {
    assert (line + "\n")[..|line + "\n"| - 1] == line;
  }

  lemma {:induction false} FeedSignature(o: Options, core: Core, headers: seq<Bytes>, sig: SignatureState,
      lines: seq<Bytes>)
    requires sig.end != "" && !sig.ended
    requires forall i :: 0 <= i < |lines| ==> SignatureLine(lines[i], sig.end)
    ensures Feed(o, CertBody(core, headers, sig), Lines("", lines, "\n")) ==
            CertBody(core, headers, sig.(content := sig.content || SomeText(lines)))
    decreases |lines|
  {
    hide Step, SignatureLine;
    if lines != [] {
      var line, rest := lines[0], lines[1..];
      var next := sig.(content := sig.content || line != "");
      StepSignatureLine(o, core, headers, sig, line);
      assert "" + line + "\n" == line + "\n";
      FeedCons(o, CertBody(core, headers, sig), Line(line + "\n"), Lines("", rest, "\n"));
      FeedSignature(o, core, headers, next, rest);
      SomeTextCons(lines);
    }
  }

  lemma SomeTextCons(lines: seq<Bytes>)
    requires lines != []
    ensures SomeText(lines) <==> lines[0] != "" || SomeText(lines[1..])
  {
    var rest := lines[1..];
    if SomeText(rest) {
      var i :| 0 <= i < |rest| && rest[i] != "";
      assert lines[i + 1] != "";
    }
  }

  /** A line that starts with a dash is neither a command nor the end of the certificate. */
  lemma DashIsNoCommand(line: Bytes)
    requires line != "" && line[0] == '-'
    ensures !IsCommandLine(line) && line != CERT_END
  {
    var fields := Fields(line);
    assert SpaceLen(line) == 0 && fields[0][0] == '-';
    assert !HexByte('-');
    assert CERT_END[0] == 'p';
  }

  lemma FenceText(word: Bytes, kind: Bytes)
    requires Printable(word) && Printable(kind)
    ensures var line := Fence(word, kind); line != "" && line[0] == '-' && Printable(line)
  {
  }

  lemma EnvelopeText(begin: Bytes)
    requires SignatureEnd(begin).Some?
    ensures begin != "" && begin[0] == '-' && Printable(begin)
    ensures var end := SignatureEnd(begin).value; end != "" && end[0] == '-' && Printable(end)
  {
    hide Printable;
    var kind :| kind in {"PGP SIGNATURE", "PGP MESSAGE", "SSH SIGNATURE", "SIGNED MESSAGE"}
              && begin == Fence("BEGIN", kind) && SignatureEnd(begin).value == Fence("END", kind);
    FenceText("BEGIN", kind);
    FenceText("END", kind);
  }

  lemma StepBegin(o: Options, core: Core, headers: seq<Bytes>, begin: Bytes)
    requires SignatureEnd(begin).Some?
    ensures Step(o, CertBody(core, headers, NO_SIGNATURE.(commandsSeen := true)), Line(begin + "\n")) ==
            CertBody(core, headers, SignatureState(true, SignatureEnd(begin).value, false, false))
  {
    EnvelopeText(begin);
    DashIsNoCommand(begin);
    PrintableLine(begin);
  }

  lemma StepEnd(o: Options, core: Core, headers: seq<Bytes>, end: Bytes)
    requires end != "" && end[0] == '-' && Printable(end)
    ensures Step(o, CertBody(core, headers, SignatureState(true, end, false, true)), Line(end + "\n")) ==
            CertBody(core, headers, SignatureState(true, end, true, true))
  {
    hide AddCommand, CertificateText;
    DashIsNoCommand(end);
    PrintableLine(end);
  }

  lemma StepClose(o: Options, core: Core, headers: seq<Bytes>, end: Bytes)
    requires end != ""
    ensures Step(o, CertBody(core, headers, SignatureState(true, end, true, true)), Line(CERT_END + "\n")) ==
            CertFlush(core, headers)
    ensures Step(o, CertFlush(core, headers), Flush) == StartOptions(o, core, true, headers)
  {
    hide AddCommand, CertificateText;
    PrintableLine(CERT_END);
  }

  lemma FeedEnvelope(o: Options, core: Core, headers: seq<Bytes>, begin: Bytes, lines: seq<Bytes>)
    requires SignatureEnd(begin).Some? && SignatureOk(lines, SignatureEnd(begin).value)
    ensures Feed(o, CertBody(core, headers, NO_SIGNATURE.(commandsSeen := true)), SignaturePackets(begin, lines)) ==
            StartOptions(o, core, true, headers)
  {
    hide Step, StartOptions, SignatureEnd, SignatureLine, Lines;
    var end := SignatureEnd(begin).value;
    var inside := SignatureState(true, end, false, false);
    var st := CertBody(core, headers, NO_SIGNATURE.(commandsSeen := true));
    var first, last := Line(begin + "\n"), [Line(end + "\n"), Line(CERT_END + "\n"), Flush];
    var content := Lines("", lines, "\n");
    EnvelopeText(begin);
    StepBegin(o, core, headers, begin);
    StepEnd(o, core, headers, end);
    StepClose(o, core, headers, end);
    FeedSignature(o, core, headers, inside, lines);
    assert SomeText(lines);
    FeedCons(o, st, first, content);
    FeedAppend(o, st, [first] + content, last);
    Feed3(o, CertBody(core, headers, inside.(content := true)), last[0], last[1], last[2]);
  }

  lemma {:induction false} FeedOptions(o: Options, core: Core, signed: bool, headers: seq<Bytes>, before: seq<Bytes>,
      options: seq<Bytes>)
    requires OptionsOk(options)
    ensures Feed(o, PushOptions(core, signed, headers, before), Lines("", options, "")) ==
            PushOptions(core, signed, headers, before + options)
    decreases |options|
  {
    if options == [] {
      assert before + options == before;
    } else {
      assert "" + options[0] + "" == options[0];
      assert (before + [options[0]]) + options[1..] == before + options;
      FeedOptions(o, core, signed, headers, before + [options[0]], options[1..]);
    }
  }

  lemma FeedTail(o: Options, core: Core, signed: bool, options: seq<Bytes>)
    requires OptionsOk(options) && Negotiated(core.caps, o.advertised)
    requires options != [] ==> "push-options" in core.caps
    ensures Feed(o, StartOptions(o, core, signed, if signed then options else []),
        OptionPackets(core.caps, options)) == Done(core)
  {
    if "push-options" in core.caps {
      var headers := if signed then options else [];
      assert Negotiable("push-options", core.caps["push-options"], o.advertised);
      FeedOptions(o, core, signed, headers, [], options);
      assert [] + options == options;
      FeedAppend(o, PushOptions(core, signed, headers, []), Lines("", options, ""), [Flush]);
    }
  }

  lemma FeedUnsigned(o: Options, shallows: seq<Bytes>, text: Bytes, final: Core)
    requires Negotiate(o, shallows, text) == Some(final.(updates := []))
    requires final.updates != [] && UpdatesOk(o, final.width, final.updates)
    ensures Feed(o, Preamble(shallows), BodyPackets(text, final.updates, Unsigned, [])) ==
        StartOptions(o, final, false, [])
  {
    hide AddCommand, CommandLine, UpdatesOk;
    var u, rest := final.updates[0], final.updates[1..];
    var core, packets := final.(updates := [u]), Lines("", CommandLines(rest), "");
    assert final.updates == [u] + rest;
    UpdatesPrefix(o, core.width, [u], rest);
    StepFirst(o, shallows, core, u, text);
    FeedCommands(o, core, rest);
    FeedAppend(o, Commands(core), packets, [Flush]);
    FeedCons(o, Commands(final), Flush, []);
    FeedCons(o, Preamble(shallows), Line(CommandLine(u) + "\0" + text), packets + [Flush]);
  }

  lemma NegotiateOk(o: Options, req: Request)
    requires WellFormed(o, req)
    ensures Negotiate(o, req.shallows, CapsText(req)) == Some(CoreOf(o, req).(updates := []))
    ensures req.body.Signed? ==> Value(o.advertised, "push-cert") != ""
  {
  }

  lemma StepFirst(o: Options, shallows: seq<Bytes>, core: Core, u: Update, text: Bytes)
    requires Negotiate(o, shallows, text) == Some(core.(updates := [])) && core.updates == [u]
    requires UpdatesOk(o, core.width, [u])
    ensures Step(o, Preamble(shallows), Line(CommandLine(u) + "\0" + text)) == Commands(core)
  {
    hide AddCommand, Negotiate, CommandLine, PushableRef, ValidObjectID, Word;
    var start := core.(updates := []);
    assert start.updates + [u] == [u] && [u][0] == u;
    AddCommandComplete(o, start, u);
    FirstLine(o, core.width, u, text);
  }

  lemma CertificateOpening(text: Bytes)
    ensures var first := PUSH_CERT + text;
            PUSH_CERT <= first && first[|PUSH_CERT|..] == text && !(SHALLOW <= first)
  {
    assert PUSH_CERT[0] == 'p' && SHALLOW[0] == 's';
  }

  lemma StepPreambleCert(o: Options, shallows: seq<Bytes>, core: Core, text: Bytes)
    requires Negotiate(o, shallows, text) == Some(core) && Value(o.advertised, "push-cert") != ""
    ensures Step(o, Preamble(shallows), Line(PUSH_CERT + text)) == CertVersion(core)
  {
    var first := PUSH_CERT + text;
    CertificateOpening(text);
    assert StartCertificate(o, shallows, text) == CertVersion(core);
    assert StartRequest(o, shallows, first) == StartCertificate(o, shallows, first[|PUSH_CERT|..]);
  }

  lemma FeedSigned(o: Options, req: Request)
    requires WellFormed(o, req) && req.body.Signed?
    ensures Feed(o, Preamble(req.shallows), BodyPackets(CapsText(req), req.updates, req.body, req.options)) ==
            StartOptions(o, CoreOf(o, req), true, req.options)
  {
    hide Step, Feed, Lines, CommandLines, HeaderPackets, SignaturePackets, UpdatesOk, CapsOf, ShallowsOk, PusherIdent;
    hide CertificateText, SignatureEnd;
    var final, options := CoreOf(o, req), req.options;
    var core := final.(updates := []);
    var headers := HeaderPackets(req.body, options);
    var commands := Lines("", CommandLines(req.updates), "\n");
    var tail := SignaturePackets(req.body.begin, req.body.signature);
    if options != [] {
      assert Negotiable("push-options", core.caps["push-options"], o.advertised);
    }
    NegotiateOk(o, req);
    StepPreambleCert(o, req.shallows, core, CapsText(req));
    FeedHeaders(o, core, req.body, options);
    assert [] + req.updates == req.updates;
    FeedCertCommands(o, core, options, false, req.updates);
    FeedEnvelope(o, final, options, req.body.begin, req.body.signature);
    FeedAppend(o, CertBody(core, options, NO_SIGNATURE), commands, tail);
    FeedAppend(o, CertVersion(core), headers, commands + tail);
    FeedCons(o, Preamble(req.shallows), Line(PUSH_CERT + CapsText(req)), headers + (commands + tail));
  }

  /** The first line of an unsigned request splits at the NUL that ends its command. */
  lemma FirstLine(o: Options, width: nat, u: Update, text: Bytes)
    requires Admissible(o, width, u)
    ensures var first := CommandLine(u) + "\0" + text;
            && !(SHALLOW <= first) && !(PUSH_CERT <= first)
            && IndexOf(first, '\0') == |CommandLine(u)| && '\n' !in first[..|CommandLine(u)|]
            && first[..|CommandLine(u)|] == CommandLine(u) && first[|CommandLine(u)| + 1..] == text
  {
    CommandPrintable(o, width, u);
    var line := CommandLine(u);
    var first := line + "\0" + text;
    IndexOfAfter(line, '\0', text);
    assert first == line + ['\0'] + text;
    assert first[0] == u.oldOID[0] && HexByte(first[0]);
    assert first[..|line|] == line;
    assert SHALLOW[0] == 's' && PUSH_CERT[0] == 'p';
  }

  /** Completeness: the machine accepts every well-formed request and decodes exactly it. */
  lemma GrammarComplete(o: Options, req: Request)
    requires WellFormed(o, req)
    ensures Feed(o, Preamble([]), Packets(req)) == Done(CoreOf(o, req))
  {
    hide Step, UpdatesOk, Negotiated, PusherIdent, CertificateText, SignatureOk, Lines, CommandLines, HeaderPackets;
    hide SignaturePackets, OptionPackets, CapsOf, SignatureEnd;
    var shallows, body := Lines(SHALLOW, req.shallows, "\n"),
        BodyPackets(CapsText(req), req.updates, req.body, req.options);
    var tail := OptionPackets(CapsOf(CapsText(req)).value, req.options);
    assert [] + req.shallows == req.shallows;
    FeedShallows(o, [], req.shallows);
    if req.body.Signed? {
      FeedSigned(o, req);
    } else {
      NegotiateOk(o, req);
      FeedUnsigned(o, req.shallows, CapsText(req), CoreOf(o, req));
    }
    FeedTail(o, CoreOf(o, req), req.body.Signed?, req.options);
    FeedAppend(o, Preamble(req.shallows), body, tail);
    FeedAppend(o, Preamble([]), shallows, body + tail);
  }
}
