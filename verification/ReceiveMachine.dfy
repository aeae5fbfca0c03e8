/** The receive-pack request reader as a machine that takes one packet at a time.

    The machine is the control flow of internal/gitproto/{receive,certificate,signature,validate}.go with the
    packet reader taken out: a state names the loop the parser is in and the values it holds there. */
module ReceiveMachine {
  import opened Text
  import opened PktLine
  import opened Capabilities
  import opened PushPolicy

  datatype Options = Options(maxBytes: int, maxCommands: int, policy: Policy, advertised: Caps)

  /** What the parser has decoded so far. */
  datatype Core = Core(shallows: seq<Bytes>, caps: Caps, width: nat, updates: seq<Update>)

  datatype State =
    | Preamble(shallows: seq<Bytes>)
    | Commands(core: Core)
    | CertVersion(core: Core)
    | CertHeaders(core: Core, required: nat, headers: seq<Bytes>)
    | CertBody(core: Core, headers: seq<Bytes>, sig: SignatureState)
    | CertFlush(core: Core, headers: seq<Bytes>)
    | PushOptions(core: Core, signed: bool, headers: seq<Bytes>, trailing: seq<Bytes>)
    | Done(core: Core)
    | Reject(fault: Fault)

  /** The four variables of parseCertificateBody. */
  datatype SignatureState = SignatureState(commandsSeen: bool, end: Bytes, ended: bool, content: bool)

  const NO_SIGNATURE := SignatureState(false, "", false, false)

  datatype Added = Ok(core: Core) | No(fault: Fault)

  const SHALLOW: Bytes := "shallow "
  const PUSH_CERT: Bytes := "push-cert\0"
  const CERT_VERSION: Bytes := "certificate version 0.1\n"
  const CERT_END: Bytes := "push-cert-end"

  // ----- lines -----

  /** One line feed, at the end. */
  predicate SingleTerminalLF(payload: Bytes) {
    payload != "" && payload[|payload| - 1] == '\n' && '\n' !in payload[..|payload| - 1]
  }

  predicate CertificateLine(payload: Bytes) {
    SingleTerminalLF(payload) && '\0' !in payload && '\r' !in payload
  }

  predicate ValidPushOption(value: Bytes) {
    value != "" && forall i :: 0 <= i < |value| ==> ' ' <= value[i] <= '~'
  }

  // ----- shallow lines -----

  function LowerIDs(ids: seq<Bytes>): set<Bytes> {
    set id | id in ids :: ToLower(id)
  }

  function ShallowID(line: Bytes): Bytes
    requires SHALLOW <= line && line != SHALLOW
  {
    line[|SHALLOW|..|line| - 1]
  }

  function AddShallow(shallows: seq<Bytes>, line: Bytes): State {
    if !(SHALLOW <= line) || !CertificateLine(line) then Reject(Malformed)
    else if !ValidObjectID(ShallowID(line)) then Reject(Malformed)
    else if ToLower(ShallowID(line)) in LowerIDs(shallows) then Reject(Malformed)
    else Preamble(shallows + [ShallowID(line)])
  }

  // ----- negotiation -----

  function FormatWidth(caps: Caps, advertised: Caps): Option<nat> {
    if "object-format" !in caps then Some(40)
    else if caps["object-format"] == "sha1" && Value(advertised, "object-format") == "sha1" then Some(40)
    else if caps["object-format"] == "sha256" && Value(advertised, "object-format") == "sha256" then Some(64)
    else None
  }

  predicate AllWide(ids: seq<Bytes>, width: nat) {
    forall i :: 0 <= i < |ids| ==> |ids[i]| == width
  }

  function NegotiateWidth(o: Options, caps: Caps, shallows: seq<Bytes>): Option<nat> {
    match FormatWidth(caps, o.advertised)
    case None => None
    case Some(width) => if AllWide(shallows, width) then Some(width) else None
  }

  /** The decoded state once the capabilities of the first line are accepted. */
  function Negotiate(o: Options, shallows: seq<Bytes>, text: Bytes): Option<Core> {
    match CapsOf(text)
    case None => None
    case Some(caps) =>
      if !Negotiated(caps, o.advertised) then None
      else
        match NegotiateWidth(o, caps, shallows)
        case None => None
        case Some(width) => Some(Core(shallows, caps, width, []))
  }

  // ----- commands -----

  function Refs(updates: seq<Update>): set<Bytes> {
    set u | u in updates :: u.ref
  }

  function AddCommand(o: Options, core: Core, line: Bytes): Added {
    if |core.updates| >= o.maxCommands then No(CommandLimit)
    else
      var fields := Fields(line);
      if |fields| != 3 || Join(fields, " ") != line then No(Malformed)
      else
        var u := Update(fields[0], fields[1], fields[2]);
        if !ValidObjectID(u.oldOID) || !ValidObjectID(u.newOID) then No(Malformed)
        else if |u.oldOID| != core.width || |u.newOID| != core.width then No(Malformed)
        else if ZeroObjectID(u.newOID) && "delete-refs" !in o.advertised then No(Malformed)
        else if !PushableRef(u.ref) then No(Malformed)
        else if u.ref in Refs(core.updates) then No(Malformed)
        else Ok(core.(updates := core.updates + [u]))
  }

  predicate IsCommandLine(line: Bytes) {
    |Fields(line)| == 3 && ValidObjectID(Fields(line)[0]) && ValidObjectID(Fields(line)[1])
  }

  // ----- certificate -----

  /** Field and value of a certificate header line. */
  function ParseHeader(payload: Bytes): Option<(Bytes, Bytes)> {
    if !CertificateLine(payload) then None
    else
      var line := payload[..|payload| - 1];
      var n := IndexOf(line, ' ');
      if n == |line| || n == 0 || n + 1 == |line| then None else Some((line[..n], line[n + 1..]))
  }

  function RequiredField(n: nat): Bytes {
    if n == 0 then "pusher" else if n == 1 then "pushee" else "nonce"
  }

  function LastIndexFrom(s: Bytes, sub: Bytes, i: int): (n: int)
    requires i <= |s|
    ensures -1 <= n <= i || n == -1
    ensures n >= 0 ==> sub <= s[n..]
    decreases i + 1
  {
    if i < 0 then -1 else if sub <= s[i..] then i else LastIndexFrom(s, sub, i - 1)
  }

  function LastIndex(s: Bytes, sub: Bytes): (n: int)
    ensures -1 <= n <= |s|
    ensures n >= 0 ==> sub <= s[n..]
  {
    LastIndexFrom(s, sub, |s|)
  }

  predicate CertificateText(value: Bytes) {
    value != "" && ValidUtf8(value) && forall i :: 0 <= i < |value| ==> value[i] >= ' ' && value[i] != '\U{7F}'
  }

  predicate Decimal(value: Bytes) {
    value != "" && forall i :: 0 <= i < |value| ==> '0' <= value[i] <= '9'
  }

  predicate Timezone(value: Bytes) {
    |value| == 5 && (value[0] == '+' || value[0] == '-') && Decimal(value[1..])
  }

  /** `name <email> timestamp timezone`. */
  predicate PusherIdent(value: Bytes) {
    && CertificateText(value)
    && var zoneAt := LastIndex(value, " ");
    && zoneAt > 0 && Timezone(value[zoneAt + 1..])
    && var timeAt := LastIndex(value[..zoneAt], " ");
    && timeAt > 0 && Decimal(value[timeAt + 1..zoneAt])
    && var ident := value[..timeAt];
    && var nameAt := LastIndex(ident, " <");
    && nameAt > 0 && HasSuffix(ident, ">")
    && var email :=
         assert ident[nameAt + 1] == ident[nameAt..][1] == '<';
         assert ident[|ident| - 1] == ident[|ident| - 1..][0] == '>';
         ident[nameAt + 2..|ident| - 1];
    && CertificateText(ident[..nameAt]) && CertificateText(email)
    && ' ' !in email && '<' !in email && '>' !in email
  }

  predicate ValidRequiredHeader(field: Bytes, value: Bytes) {
    if field == "pusher" then PusherIdent(value)
    else (field == "pushee" || field == "nonce") && CertificateText(value)
  }

  function HeaderLine(o: Options, core: Core, required: nat, headers: seq<Bytes>, payload: Bytes): State {
    match ParseHeader(payload)
    case None => Reject(Malformed)
    case Some((field, value)) =>
      if required < 3 then
        if field != RequiredField(required) || !ValidRequiredHeader(field, value) then Reject(Malformed)
        else if field == "nonce" && value != Value(o.advertised, "push-cert") then Reject(Malformed)
        else CertHeaders(core, required + 1, headers)
      else if field != "push-option" || "push-options" !in core.caps || "push-options" !in o.advertised
           || !ValidPushOption(value) then Reject(Malformed)
      else CertHeaders(core, required, headers + [value])
  }

  function Fence(word: Bytes, kind: Bytes): Bytes {
    "-----" + word + " " + kind + "-----"
  }

  /** The line that closes the signature envelope opened by `begin`. */
  function SignatureEnd(begin: Bytes): Option<Bytes> {
    if begin == Fence("BEGIN", "PGP SIGNATURE") then Some(Fence("END", "PGP SIGNATURE"))
    else if begin == Fence("BEGIN", "PGP MESSAGE") then Some(Fence("END", "PGP MESSAGE"))
    else if begin == Fence("BEGIN", "SSH SIGNATURE") then Some(Fence("END", "SSH SIGNATURE"))
    else if begin == Fence("BEGIN", "SIGNED MESSAGE") then Some(Fence("END", "SIGNED MESSAGE"))
    else None
  }

  function BodyLine(o: Options, core: Core, headers: seq<Bytes>, sig: SignatureState, line: Bytes): State {
    if line == CERT_END then
      if !sig.commandsSeen || sig.end == "" || !sig.ended || !sig.content then Reject(Malformed)
      else CertFlush(core, headers)
    else if sig.end == "" then
      if IsCommandLine(line) then
        match AddCommand(o, core, line)
        case No(fault) => Reject(fault)
        case Ok(next) => CertBody(next, headers, sig.(commandsSeen := true))
      else
        match SignatureEnd(line)
        case None => Reject(Malformed)
        case Some(end) => CertBody(core, headers, sig.(end := end))
    else if line == sig.end then
      if sig.ended then Reject(Malformed) else CertBody(core, headers, sig.(ended := true))
    else if sig.ended then Reject(Malformed)
    else CertBody(core, headers, if line != "" then sig.(content := true) else sig)
  }

  // ----- the machine -----

  function StartCertificate(o: Options, shallows: seq<Bytes>, text: Bytes): State {
    match Negotiate(o, shallows, text)
    case None => Reject(Malformed)
    case Some(core) => if Value(o.advertised, "push-cert") == "" then Reject(Malformed) else CertVersion(core)
  }

  function AfterCommand(added: Added): State {
    match added
    case No(fault) => Reject(fault)
    case Ok(core) => Commands(core)
  }

  function StartUnsigned(o: Options, shallows: seq<Bytes>, first: Bytes): State {
    var n := IndexOf(first, '\0');
    if n == |first| || '\n' in first[..n] then Reject(Malformed)
    else
      match Negotiate(o, shallows, first[n + 1..])
      case None => Reject(Malformed)
      case Some(core) => AfterCommand(AddCommand(o, core, first[..n]))
  }

  function StartRequest(o: Options, shallows: seq<Bytes>, first: Bytes): State {
    if PUSH_CERT <= first then StartCertificate(o, shallows, first[|PUSH_CERT|..])
    else StartUnsigned(o, shallows, first)
  }

  function StartOptions(o: Options, core: Core, signed: bool, headers: seq<Bytes>): State {
    if "push-options" !in core.caps then
      if signed && headers != [] then Reject(Malformed) else Done(core)
    else if "push-options" !in o.advertised then Reject(Malformed)
    else PushOptions(core, signed, headers, [])
  }

  /** One packet. */
  function Step(o: Options, st: State, packet: Packet): State {
    match (st, packet)
    case (Preamble(_), Flush) => Reject(Malformed)
    case (Preamble(shallows), Line(payload)) =>
      if SHALLOW <= payload then AddShallow(shallows, payload) else StartRequest(o, shallows, payload)
    case (Commands(core), Flush) => StartOptions(o, core, false, [])
    case (Commands(core), Line(payload)) => AfterCommand(AddCommand(o, core, payload))
    case (CertVersion(core), _) => if packet == Line(CERT_VERSION) then CertHeaders(core, 0, []) else Reject(Malformed)
    case (CertHeaders(_, _, _), Flush) => Reject(Malformed)
    case (CertHeaders(core, required, headers), Line(payload)) =>
      if payload == "\n" then
        if required != 3 then Reject(Malformed) else CertBody(core, headers, NO_SIGNATURE)
      else HeaderLine(o, core, required, headers, payload)
    case (CertBody(_, _, _), Flush) => Reject(Malformed)
    case (CertBody(core, headers, sig), Line(payload)) =>
      if !CertificateLine(payload) then Reject(Malformed)
      else BodyLine(o, core, headers, sig, payload[..|payload| - 1])
    case (CertFlush(core, headers), _) =>
      if packet.Flush? then StartOptions(o, core, true, headers) else Reject(Malformed)
    case (PushOptions(core, signed, headers, trailing), Flush) =>
      if signed && headers != trailing then Reject(Malformed) else Done(core)
    case (PushOptions(core, signed, headers, trailing), Line(payload)) =>
      if ValidPushOption(payload) then PushOptions(core, signed, headers, trailing + [payload]) else Reject(Malformed)
    case (Done(_), _) => Reject(Malformed)
    case (Reject(_), _) => st
  }

  /** A list of packets. */
  function Feed(o: Options, st: State, packets: seq<Packet>): State
    decreases |packets|
  {
    if packets == [] then st else Feed(o, Step(o, st, packets[0]), packets[1..])
  }

  lemma {:induction false} FeedAppend(o: Options, st: State, a: seq<Packet>, b: seq<Packet>)
    ensures Feed(o, st, a + b) == Feed(o, Feed(o, st, a), b)
    decreases |a|
  {
    if a == [] {
      assert a + b == b;
    } else {
      assert (a + b)[1..] == a[1..] + b;
      FeedAppend(o, Step(o, st, a[0]), a[1..], b);
    }
  }

  lemma {:induction false} RejectStays(o: Options, fault: Fault, packets: seq<Packet>)
    ensures Feed(o, Reject(fault), packets) == Reject(fault)
  {
    if packets != [] {
      RejectStays(o, fault, packets[1..]);
    }
  }

  /** Nothing follows the end of a request. */
  lemma DoneIsLast(o: Options, core: Core, packets: seq<Packet>)
    requires Feed(o, Done(core), packets).Done?
    ensures packets == []
  {
    if packets != [] {
      RejectStays(o, Malformed, packets[1..]);
    }
  }
}
