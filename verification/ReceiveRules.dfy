/** The rules of the receive-pack request, spelled out: digits, lines, capabilities, commands, certificates. Each is a
    requirement on what the parser accepts, stated with the protocol's own literals. */
module ReceiveRules {
  import opened Text
  import opened PktLine
  import opened Capabilities
  import opened PushPolicy
  import opened ReceiveMachine
  import opened ReceiveGrammar
  import opened RefRules

  // ----- pkt-line -----

  const LOWER := "0123456789abcdef"
  const UPPER := "0123456789ABCDEF"

  lemma LowerDigit(d: nat)
    requires d < 16
    ensures LOWER[d] == if d < 10 then (48 + d) as char else (87 + d) as char
  {
    var digits := LOWER;
    assert digits[0] == '0' && digits[1] == '1' && digits[2] == '2' && digits[3] == '3';
    assert digits[4] == '4' && digits[5] == '5' && digits[6] == '6' && digits[7] == '7';
    assert digits[8] == '8' && digits[9] == '9' && digits[10] == 'a' && digits[11] == 'b';
    assert digits[12] == 'c' && digits[13] == 'd' && digits[14] == 'e' && digits[15] == 'f';
  }

  lemma UpperDigit(d: nat)
    requires d < 16
    ensures UPPER[d] == if d < 10 then (48 + d) as char else (55 + d) as char
  {
    var digits := UPPER;
    assert digits[0] == '0' && digits[1] == '1' && digits[2] == '2' && digits[3] == '3';
    assert digits[4] == '4' && digits[5] == '5' && digits[6] == '6' && digits[7] == '7';
    assert digits[8] == '8' && digits[9] == '9' && digits[10] == 'A' && digits[11] == 'B';
    assert digits[12] == 'C' && digits[13] == 'D' && digits[14] == 'E' && digits[15] == 'F';
  }

  /** A digit's value is its place among the sixteen, in either case; nothing else is a digit. */
  lemma HexDigitIs(c: char, d: nat)
    ensures HexDigit(c) == Some(d) <==> d < 16 && (c == LOWER[d] || c == UPPER[d])
  {
    if d < 16 {
      LowerDigit(d);
      UpperDigit(d);
    }
  }

  /** The header Git writes is the length in four hexadecimal digits. */
  lemma HeaderIs(n: nat)
    requires n < 0x1_0000
    ensures |Header(n)| == 4
    ensures Header(n)[0] == LOWER[n / 4096] && Header(n)[1] == LOWER[n / 256 % 16]
    ensures Header(n)[2] == LOWER[n / 16 % 16] && Header(n)[3] == LOWER[n % 16]
  {
    LowerDigit(n / 4096);
    LowerDigit(n / 256 % 16);
    LowerDigit(n / 16 % 16);
    LowerDigit(n % 16);
    hide LOWER;
  }

  /** Git's own packets: four zeros for a flush, and for a line its length with the four header bytes, and the text. */
  lemma EncodedPacket(payload: Bytes)
    requires |payload| + 4 <= 65520
    ensures EncodePacket(Flush) == "0000"
    ensures EncodePacket(Line(payload)) == Header(|payload| + 4) + payload
  {
    assert Header(0) == "0000";
  }

  /** Lengths from one to three, and above 65520, are refused. */
  lemma BadLengths(n: nat, rest: Bytes, end: StreamFault, limit: int)
    requires (0 < n < 4 || 65520 < n < 0x1_0000) && limit >= 4
    ensures ReadPacket(Source(Header(n) + rest, end), 0, limit) == Bad(BadPacketLength)
  {
    HeaderRoundTrip(n);
    assert (Header(n) + rest)[0..4] == Header(n);
  }

  // ----- texts -----

  /** No text that reaches the provider's argument-like fields holds a control byte. */
  lemma NoControls(s: Bytes, i: nat)
    requires i < |s|
    requires CertificateText(s) || PusherIdent(s) || ValidPushOption(s) || PushableRef(s) ||
        (ValidToken(s) && s[i] != '=')
    ensures s[i] >= ' ' && s[i] != '\U{7F}'
  {
    if ValidToken(s) {
      var n := IndexOf(s, '=');
      if i < n {
        assert TokenName(s)[i] == s[i];
      } else if i > n {
        assert TokenParameter(s)[i - n - 1] == s[i];
      }
    }
  }

  /** Certificate text is non-empty UTF-8 without control bytes. */
  lemma CertificateTextIff(s: Bytes)
    ensures CertificateText(s) <==>
            s != "" && ValidUtf8(s) && forall i :: 0 <= i < |s| ==> s[i] as int >= 0x20 && s[i] as int != 0x7F
  {
  }

  /** A certificate line is a text without line feeds, carriage returns or NULs, and its line feed. */
  lemma CertificateLineIff(payload: Bytes)
    ensures CertificateLine(payload) <==>
            exists text: Bytes :: payload == text + "\n" && '\n' !in text && '\r' !in text && '\0' !in text
  {
    if CertificateLine(payload) {
      var text := payload[..|payload| - 1];
      assert payload == text + "\n";
    }
    if text: Bytes :| payload == text + "\n" && '\n' !in text && '\r' !in text && '\0' !in text {
      assert payload[..|payload| - 1] == text;
    }
  }

  /** Push options are printable ASCII. */
  lemma PushOptionIff(s: Bytes)
    ensures ValidPushOption(s) <==> s != "" && forall i :: 0 <= i < |s| ==> 0x20 <= s[i] as int <= 0x7E
  {
  }

  // ----- capabilities -----

  predicate Part(s: Bytes) {
    s != "" && '=' !in s && forall i :: 0 <= i < |s| ==> s[i] as int > 0x20 && s[i] as int != 0x7F
  }

  /** A capability is a name, or a name and a value with `=` between them. */
  lemma TokenIs(name: Bytes, value: Bytes)
    requires Part(name) && value != "" && forall i :: 0 <= i < |value| ==>
        value[i] as int > 0x20 && value[i] as int != 0x7F
    ensures ValidToken(name) && TokenName(name) == name && TokenParameter(name) == ""
    ensures var token := name + "=" + value;
            ValidToken(token) && TokenName(token) == name && TokenParameter(token) == value
    ensures !ValidToken(name + "=") && !ValidToken("=" + value) && !ValidToken("")
  {
    IndexOfAfter(name, '=', value);
    IndexOfAfter(name, '=', "");
    IndexOfAfter("", '=', value);
    assert name + "=" + value == name + ['='] + value;
    assert name + "=" == name + ['='] + "";
    assert "=" + value == "" + ['='] + value;
    assert (name + "=" + value)[|name| + 1..] == value;
    assert (name + "=" + value)[..|name|] == name;
    assert (name + "=")[|name| + 1..] == "";
  }

  /** Everything requested is advertised, with the same value; only agent and session-id may differ, as long as both
      sides give one, and push-cert and object-format must have one. */
  lemma NegotiatedIff(requested: Caps, advertised: Caps)
    ensures Negotiated(requested, advertised) <==>
            forall name :: name in requested ==>
              && name in advertised
              && (name in {"agent", "session-id"} ==> requested[name] != "" && advertised[name] != "")
              && (name !in {"agent", "session-id"} ==> requested[name] == advertised[name])
              && (name in {"push-cert", "object-format"} ==> requested[name] != "")
  {
  }

  /** What a client calls itself never changes the verdict. */
  lemma AgentNeverMatters(requested: Caps, advertised: Caps, name: Bytes, value: Bytes)
    requires Negotiated(requested, advertised) && name in requested && name in {"agent", "session-id"} && value != ""
    ensures Negotiated(requested[name := value], advertised)
  {
  }

  /** A negotiated request always has a width: its object format is absent, sha1 or sha256 as the server's, and only
      another name is refused. */
  lemma WidthOfFormat(requested: Caps, advertised: Caps)
    requires Negotiated(requested, advertised)
    ensures FormatWidth(requested, advertised) ==
            if "object-format" !in requested || requested["object-format"] == "sha1" then Some(40)
            else if requested["object-format"] == "sha256" then Some(64)
            else None
  {
  }

  // ----- commands -----

  /** A deletion needs the server's delete-refs: the same line is refused without it and taken with it. */
  lemma DeletionNeedsCapability(o: Options, core: Core, oldOID: Bytes, ref: Bytes)
    requires core.width == 40 || core.width == 64
    requires ValidObjectID(oldOID) && |oldOID| == core.width && PushableRef(ref) && Word(ref)
    requires UpdatesOk(o, core.width, core.updates) && |core.updates| < o.maxCommands && ref !in Refs(core.updates)
    ensures var line := oldOID + " " + NullID(core.width) + " " + ref;
            AddCommand(o, core, line) ==
            if "delete-refs" in o.advertised
            then Ok(core.(updates := core.updates + [Update(oldOID, NullID(core.width), ref)]))
            else No(Malformed)
  {
    hide PushableRef, Fields, WordLen;
    NullIsValid(core.width);
    var u := Update(oldOID, NullID(core.width), ref);
    var granting := o.(advertised := o.advertised["delete-refs" := ""]);
    CommandFields(granting, core.width, u);
    assert |[u.oldOID, u.newOID, u.ref]| == 3;
  }

  /** An id with any other digit is taken for an update, whatever the server allows. */
  lemma UpdateNeedsNothing(o: Options, core: Core, u: Update)
    requires ParsedUpdate(u, core.width) && Word(u.ref) && (core.width == 40 || core.width == 64)
    requires u.newOID != NullID(40) && u.newOID != NullID(64)
    requires |core.updates| < o.maxCommands && u.ref !in Refs(core.updates)
    ensures AddCommand(o, core, u.oldOID + " " + u.newOID + " " + u.ref) == Ok(core.(updates := core.updates + [u]))
  {
    hide PushableRef, Fields, WordLen;
    NullIff(u.newOID);
    CommandFields(o, core.width, u);
    assert |[u.oldOID, u.newOID, u.ref]| == 3;
  }

  // ----- certificates -----

  predicate Kind(kind: Bytes) {
    kind == "PGP SIGNATURE" || kind == "PGP MESSAGE" || kind == "SSH SIGNATURE" || kind == "SIGNED MESSAGE"
  }

  lemma KindEnds(kind: Bytes)
    requires Kind(kind)
    ensures SignatureEnd(Fence("BEGIN", kind)) == Some(Fence("END", kind))
  {
    KindsDiffer();
    hide Fence;
  }

  /** The four kinds of signature, each with its own end line. */
  lemma PgpSignatureEnds()
    ensures SignatureEnd("-----BEGIN PGP SIGNATURE-----") == Some("-----END PGP SIGNATURE-----")
  {
    hide Fence, SignatureEnd;
    FenceIs("BEGIN", "PGP SIGNATURE", "-----BEGIN PGP SIGNATURE-----");
    FenceIs("END", "PGP SIGNATURE", "-----END PGP SIGNATURE-----");
    KindEnds("PGP SIGNATURE");
  }

  lemma PgpMessageEnds()
    ensures SignatureEnd("-----BEGIN PGP MESSAGE-----") == Some("-----END PGP MESSAGE-----")
  {
    hide Fence, SignatureEnd;
    FenceIs("BEGIN", "PGP MESSAGE", "-----BEGIN PGP MESSAGE-----");
    FenceIs("END", "PGP MESSAGE", "-----END PGP MESSAGE-----");
    KindEnds("PGP MESSAGE");
  }

  lemma SshSignatureEnds()
    ensures SignatureEnd("-----BEGIN SSH SIGNATURE-----") == Some("-----END SSH SIGNATURE-----")
  {
    hide Fence, SignatureEnd;
    FenceIs("BEGIN", "SSH SIGNATURE", "-----BEGIN SSH SIGNATURE-----");
    FenceIs("END", "SSH SIGNATURE", "-----END SSH SIGNATURE-----");
    KindEnds("SSH SIGNATURE");
  }

  lemma SignedMessageEnds()
    ensures SignatureEnd("-----BEGIN SIGNED MESSAGE-----") == Some("-----END SIGNED MESSAGE-----")
  {
    hide Fence, SignatureEnd;
    FenceIs("BEGIN", "SIGNED MESSAGE", "-----BEGIN SIGNED MESSAGE-----");
    FenceIs("END", "SIGNED MESSAGE", "-----END SIGNED MESSAGE-----");
    KindEnds("SIGNED MESSAGE");
  }

  /** Nothing else opens an envelope. */
  lemma OnlyFourSignatures(begin: Bytes)
    requires SignatureEnd(begin).Some?
    ensures exists kind: Bytes :: begin == "-----BEGIN " + kind + "-----" &&
              kind in ["PGP SIGNATURE", "PGP MESSAGE", "SSH SIGNATURE", "SIGNED MESSAGE"]
  {
    var kind :=
      if begin == Fence("BEGIN", "PGP SIGNATURE") then "PGP SIGNATURE"
      else if begin == Fence("BEGIN", "PGP MESSAGE") then "PGP MESSAGE"
      else if begin == Fence("BEGIN", "SSH SIGNATURE") then "SSH SIGNATURE"
      else "SIGNED MESSAGE";
    FenceBegins(kind);
    assert begin == Fence("BEGIN", kind);
  }

  lemma FenceBegins(kind: Bytes)
    ensures Fence("BEGIN", kind) == "-----BEGIN " + kind + "-----"
  {
    assert "-----" + "BEGIN" + " " == "-----BEGIN ";
  }

  lemma KindsDiffer()
    ensures Fence("BEGIN", "PGP SIGNATURE") != Fence("BEGIN", "PGP MESSAGE")
    ensures Fence("BEGIN", "PGP SIGNATURE") != Fence("BEGIN", "SSH SIGNATURE")
    ensures Fence("BEGIN", "PGP SIGNATURE") != Fence("BEGIN", "SIGNED MESSAGE")
    ensures Fence("BEGIN", "PGP MESSAGE") != Fence("BEGIN", "SSH SIGNATURE")
    ensures Fence("BEGIN", "PGP MESSAGE") != Fence("BEGIN", "SIGNED MESSAGE")
    ensures Fence("BEGIN", "SSH SIGNATURE") != Fence("BEGIN", "SIGNED MESSAGE")
  {
    FenceAt("BEGIN", "PGP SIGNATURE");
    FenceAt("BEGIN", "PGP MESSAGE");
    FenceAt("BEGIN", "SSH SIGNATURE");
    FenceAt("BEGIN", "SIGNED MESSAGE");
    hide Fence;
  }

  lemma FenceAt(word: Bytes, kind: Bytes)
    requires |word| == 5 && |kind| >= 5
    ensures |Fence(word, kind)| == |kind| + 16
    ensures Fence(word, kind)[11] == kind[0] && Fence(word, kind)[12] == kind[1]
  {
    assert Fence(word, kind) == ("-----" + word + " ") + kind + "-----";
    assert |"-----" + word + " "| == 11;
  }

  lemma FenceIs(word: Bytes, kind: Bytes, line: Bytes)
    requires line == "-----" + word + " " + kind + "-----"
    ensures Fence(word, kind) == line
  {
  }

  // ----- who pushes -----

  lemma {:induction false} LastIndexFromIs(s: Bytes, sub: Bytes, i: nat, n: nat)
    requires n <= i <= |s| && sub <= s[n..] && forall m :: n < m <= i ==> !(sub <= s[m..])
    ensures LastIndexFrom(s, sub, i) == n
    decreases i
  {
    if i > n {
      LastIndexFromIs(s, sub, i - 1, n);
    }
  }

  lemma {:induction false} LastIndexFromLast(s: Bytes, sub: Bytes, i: int)
    requires i <= |s|
    ensures forall m :: 0 <= m <= i && m > LastIndexFrom(s, sub, i) ==> !(sub <= s[m..])
    decreases i + 1
  {
    if i >= 0 && !(sub <= s[i..]) {
      LastIndexFromLast(s, sub, i - 1);
    }
  }

  /** A last space: what follows it has none. */
  lemma LastSpace(a: Bytes, b: Bytes)
    requires ' ' !in b
    ensures LastIndex(a + " " + b, " ") == |a|
    ensures (a + " " + b)[..|a|] == a && (a + " " + b)[|a| + 1..] == b
  {
    var s := a + " " + b;
    assert s == a + (" " + b) && s[|a|..] == " " + b;
    assert forall k :: 0 <= k < |b| ==> s[|a| + 1 + k] == b[k];
    forall m | |a| < m <= |s|
      ensures !(" " <= s[m..])
    {
      assert m < |s| ==> s[m] == b[m - |a| - 1];
    }
    LastIndexFromIs(s, " ", |s|, |a|);
  }

  /** A last " <": the text from there on has no other `<`. */
  lemma LastOpening(a: Bytes, b: Bytes)
    requires '<' !in b
    ensures LastIndex(a + " <" + b, " <") == |a|
    ensures (a + " <" + b)[..|a|] == a && (a + " <" + b)[|a| + 2..] == b
  {
    var s := a + " <" + b;
    assert s == a + (" <" + b) && s[|a|..] == " <" + b;
    assert forall k :: 0 <= k < |b| ==> s[|a| + 2 + k] == b[k];
    forall m | |a| < m <= |s|
      ensures !(" <" <= s[m..])
    {
      assert m < |s| - 1 ==> s[m..][1] == s[m + 1] == b[m + 1 - |a| - 2];
    }
    LastIndexFromIs(s, " <", |s|, |a|);
  }

  predicate Who(name: Bytes, email: Bytes, time: Bytes, zone: Bytes) {
    && CertificateText(name) && CertificateText(email) && ' ' !in email && '<' !in email && '>' !in email
    && time != "" && (forall i :: 0 <= i < |time| ==> '0' <= time[i] <= '9')
    && |zone| == 5 && zone[0] in {'+', '-'} && forall i :: 1 <= i < 5 ==> '0' <= zone[i] <= '9'
  }

  function Ident(name: Bytes, email: Bytes, time: Bytes, zone: Bytes): Bytes {
    name + " <" + (email + ">") + " " + time + " " + zone
  }

  lemma DigitsOnly(s: Bytes)
    requires Decimal(s)
    ensures ' ' !in s && '<' !in s
  {
  }

  /** A pusher is a name, an address in angle brackets, a decimal time and a signed four-digit zone. */
  lemma PusherComplete(name: Bytes, email: Bytes, time: Bytes, zone: Bytes)
    requires Who(name, email, time, zone) && CertificateText(Ident(name, email, time, zone))
    ensures PusherIdent(Ident(name, email, time, zone))
  {
    hide CertificateText, LastIndex;
    var value := Ident(name, email, time, zone);
    var ident := name + " <" + (email + ">");
    var dated := ident + " " + time;
    assert Decimal(time) && Decimal(zone[1..]);
    DigitsOnly(time);
    DigitsOnly(zone[1..]);
    assert zone == [zone[0]] + zone[1..];
    assert value == dated + " " + zone;
    LastSpace(dated, zone);
    LastSpace(ident, time);
    LastOpening(name, email + ">");
    assert name != "" by { CertificateTextNonEmpty(name); }
    assert value[..|dated|] == dated && dated[..|ident|] == ident && value[..|ident|] == ident;
    assert dated[|ident| + 1..] == time && value[|ident| + 1..|dated|] == time;
    assert value[|dated| + 1..] == zone && ident[..|name|] == name;
    assert ident[|name| + 2..|ident| - 1] == email;
    assert HasSuffix(ident, ">");
  }

  lemma CertificateTextNonEmpty(s: Bytes)
    requires CertificateText(s)
    ensures s != ""
  {
  }

  lemma PusherSound(value: Bytes) returns (name: Bytes, email: Bytes, time: Bytes, zone: Bytes)
    requires PusherIdent(value)
    ensures Who(name, email, time, zone) && value == Ident(name, email, time, zone)
  {
    hide CertificateText;
    var zoneAt := LastIndex(value, " ");
    zone := value[zoneAt + 1..];
    assert value[zoneAt] == value[zoneAt..][0] == ' ';
    var dated := value[..zoneAt];
    var timeAt := LastIndex(dated, " ");
    time := value[timeAt + 1..zoneAt];
    assert dated[timeAt] == dated[timeAt..][0] == ' ';
    var ident := value[..timeAt];
    var nameAt := LastIndex(ident, " <");
    name := ident[..nameAt];
    assert ident[nameAt] == ident[nameAt..][0] == ' ' && ident[nameAt + 1] == ident[nameAt..][1] == '<';
    assert ident[|ident| - 1] == ident[|ident| - 1..][0] == '>';
    email := ident[nameAt + 2..|ident| - 1];
    assert ident == name + " <" + (email + ">");
    assert dated == ident + " " + time;
    assert value == dated + " " + zone;
    assert Decimal(zone[1..]) && forall i :: 1 <= i < 5 ==> zone[i] == zone[1..][i - 1];
  }

  // ----- whole requests -----

  /** An unsigned push of one ref with one shallow line and one option, packet by packet. */
  lemma UnsignedPackets(o: Options, req: Request, s: Bytes, u: Update, option: Bytes)
    requires WellFormed(o, req) && req.body == Unsigned
    requires req.shallows == [s] && req.updates == [u] && req.options == [option]
    ensures "push-options" in CapsOf(CapsText(req)).value
    ensures Packets(req) ==
            [Line("shallow " + s + "\n"),
             Line(u.oldOID + " " + u.newOID + " " + u.ref + "\0" + CapsText(req)),
             Flush,
             Line(option),
             Flush]
  {
    hide CapsOf, CapsText, UpdatesOk, ShallowsOk, TokenList, Negotiated, FormatWidth, OptionsOk;
    OneLine("shallow ", s, "\n");
    OneLine("", option, "");
    assert "" + option + "" == option;
    assert CommandLines([u][1..]) == [] && Lines("", [], "") == [];
  }

  lemma OneLine(prefix: Bytes, item: Bytes, suffix: Bytes)
    ensures Lines(prefix, [item], suffix) == [Line(prefix + item + suffix)]
  {
    assert [item][1..] == [] && Lines(prefix, [], suffix) == [];
  }

  /** A signed push of one ref, packet by packet. */
  lemma SignedPackets(o: Options, req: Request, u: Update, line: Bytes)
    requires WellFormed(o, req) && req.body.Signed? && req.body.signature == [line]
    requires req.shallows == [] && req.updates == [u] && req.options == []
    requires "push-options" !in CapsOf(CapsText(req)).value
    ensures var b := req.body;
            Packets(req) ==
            [Line("push-cert\0" + CapsText(req)),
             Line("certificate version 0.1\n"),
             Line("pusher " + b.pusher + "\n"), Line("pushee " + b.pushee + "\n"), Line("nonce " + b.nonce + "\n"),
             Line("\n"),
             Line(u.oldOID + " " + u.newOID + " " + u.ref + "\n"),
             Line(b.begin + "\n"), Line(line + "\n"), Line(SignatureEnd(b.begin).value + "\n"),
             Line("push-cert-end\n"),
             Flush]
  {
    hide CapsOf, CapsText, UpdatesOk, ShallowsOk, TokenList, Negotiated, FormatWidth, OptionsOk, SignatureEnd;
    hide SignatureOk;
    hide PusherIdent, CertificateText;
    OneLine("", line, "\n");
    OneLine("", CommandLine(u), "\n");
    assert "" + line + "\n" == line + "\n" && "" + CommandLine(u) + "\n" == CommandLine(u) + "\n";
    assert CommandLines([u]) == [CommandLine(u)] by { assert CommandLines([u][1..]) == []; }
    assert CERT_END + "\n" == "push-cert-end\n";
  }
}
