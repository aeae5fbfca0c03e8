/** The pkt-line framing of gitprotocol-common(5), read under a byte budget. */
module PktLine {
  import opened Text

  const MAXIMUM_PACKET_LENGTH := 65520

  /** A pkt-line: the flush packet `0000` or a line with its payload. */
  datatype Packet = Flush | Line(payload: Bytes)

  /** Why a stream stopped delivering bytes. */
  datatype StreamFault =
    | Eof | UnexpectedEof | InvalidFrame | ChunkLimit | InputLimit | Cancelled | DeadlineExceeded | Transport

  /** Everything a reader will deliver, and how it ends. */
  datatype Source = Source(data: Bytes, end: StreamFault)

  datatype Fault =
    | ReadFailed(cause: StreamFault)
    | PrefixTooLong
    | BadPacketLength
    | CommandLimit
    | Malformed

  datatype PacketRead = Got(packet: Packet, next: nat) | Bad(fault: Fault)

  // ----- header -----

  function HexDigit(c: char): (r: Option<nat>)
    ensures r.Some? ==> r.value < 16
  {
    if '0' <= c <= '9' then Some((c as int) - ('0' as int))
    else if 'a' <= c <= 'f' then Some((c as int) - ('a' as int) + 10)
    else if 'A' <= c <= 'F' then Some((c as int) - ('A' as int) + 10)
    else None
  }

  /** The value of a run of hexadecimal digits, most significant first. */
  function HexValue(digits: Bytes): (r: Option<nat>) {
    if digits == "" then Some(0)
    else
      var last := |digits| - 1;
      match (HexValue(digits[..last]), HexDigit(digits[last]))
      case (Some(high), Some(low)) => Some(16 * high + low)
      case _ => None
  }

  /** The loop of parsePacketLength. */
  method ParsePacketLength(header: Bytes) returns (length: Option<nat>)
    requires |header| == 4
    ensures length == HexValue(header)
  {
    var value := 0;
    var i := 0;
    while i < 4
      invariant 0 <= i <= 4
      invariant HexValue(header[..i]) == Some(value)
    {
      assert header[..i + 1][..i] == header[..i];
      var digit := HexDigit(header[i]);
      if digit.None? {
        HexValuePrefix(header, i + 1);
        return None;
      }
      value := 16 * value + digit.value;
      i := i + 1;
    }
    assert header[..4] == header;
    return Some(value);
  }

  /** A bad digit anywhere spoils the whole number. */
  lemma {:induction false} HexValuePrefix(digits: Bytes, n: nat)
    requires n <= |digits| && HexValue(digits[..n]) == None
    ensures HexValue(digits) == None
  {
    if n < |digits| {
      var last := |digits| - 1;
      assert digits[..last][..n] == digits[..n];
      HexValuePrefix(digits[..last], n);
    } else {
      assert digits[..n] == digits;
    }
  }

  function HexChar(d: nat): (c: char)
    requires d < 16
    ensures HexDigit(c) == Some(d)
  {
    if d < 10 then (('0' as int) + d) as char else (('a' as int) + d - 10) as char
  }

  /** The four digit header Git itself writes. */
  function Header(length: nat): (h: Bytes)
    requires length < 0x1_0000
    ensures |h| == 4
  {
    [HexChar(length / 4096), HexChar(length / 256 % 16), HexChar(length / 16 % 16), HexChar(length % 16)]
  }

  lemma HeaderDigits(length: nat)
    ensures length == 16 * (length / 16) + length % 16
    ensures length / 16 == 16 * (length / 256) + length / 16 % 16
    ensures length / 256 == 16 * (length / 4096) + length / 256 % 16
  {
    assert length / 16 / 16 == length / 256;
    assert length / 256 / 16 == length / 4096;
  }

  lemma HeaderRoundTrip(length: nat)
    requires length < 0x1_0000
    ensures HexValue(Header(length)) == Some(length)
  {
    hide HexChar, HexDigit;
    var h := Header(length);
    HeaderDigits(length);
    assert h[..3][..2] == h[..2] && h[..2][..1] == h[..1] && h[..1][..0] == "";
    assert HexValue(h[..1]) == Some(length / 4096);
    assert HexValue(h[..2]) == Some(length / 256);
    assert HexValue(h[..3]) == Some(length / 16);
  }

  // ----- one packet -----

  /** The error of io.ReadFull when the source runs dry with `left` bytes delivered. */
  function ShortRead(left: nat, end: StreamFault): StreamFault {
    if end == Eof && left > 0 then UnexpectedEof else end
  }

  /** What packetReader.read does at offset `pos` of `source` under `limit`. */
  function ReadPacket(source: Source, pos: nat, limit: int): (r: PacketRead)
    requires pos <= |source.data|
    ensures r.Got? ==> pos + 4 <= r.next <= |source.data| && r.next <= limit
  {
    var left := |source.data| - pos;
    if 4 > limit - pos then Bad(PrefixTooLong)
    else if left < 4 then Bad(ReadFailed(ShortRead(left, source.end)))
    else
      match HexValue(source.data[pos..pos + 4])
      case None => Bad(BadPacketLength)
      case Some(length) =>
        if length == 0 then Got(Flush, pos + 4)
        else if length < 4 || length > MAXIMUM_PACKET_LENGTH then Bad(BadPacketLength)
        else if length > limit - pos then Bad(PrefixTooLong)
        else if length > left then Bad(ReadFailed(ShortRead(left - 4, source.end)))
        else Got(Line(source.data[pos + 4..pos + length]), pos + length)
  }

  // ----- packet lists on the wire -----

  /** `wire` is one packet: any header spelling of the right length, upper or lower case. */
  predicate IsPacket(wire: Bytes, packet: Packet) {
    && |wire| >= 4
    && match HexValue(wire[..4])
       case None => false
       case Some(length) =>
         match packet
         case Flush => length == 0 && |wire| == 4
         case Line(payload) => 4 <= length <= MAXIMUM_PACKET_LENGTH && |wire| == length && wire[4..] == payload
  }

  /** The packets that `wire` is made of, when it is made of packets. */
  predicate Decodes(wire: Bytes, packets: seq<Packet>) {
    if packets == [] then wire == ""
    else exists n :: 0 <= n <= |wire| && IsPacket(wire[..n], packets[0]) && Decodes(wire[n..], packets[1..])
  }

  /** Git's own encoding. */
  function Encode(packets: seq<Packet>): Bytes
    requires Encodable(packets)
  {
    if packets == [] then "" else EncodePacket(packets[0]) + Encode(packets[1..])
  }

  function EncodePacket(packet: Packet): Bytes
    requires Fits(packet)
  {
    match packet
    case Flush => "0000"
    case Line(payload) => Header(|payload| + 4) + payload
  }

  predicate Fits(packet: Packet) {
    packet.Line? ==> |packet.payload| + 4 <= MAXIMUM_PACKET_LENGTH
  }

  predicate Encodable(packets: seq<Packet>) {
    forall p :: p in packets ==> Fits(p)
  }

  lemma PacketRoundTrip(packet: Packet)
    requires Fits(packet)
    ensures IsPacket(EncodePacket(packet), packet)
  {
    match packet
    case Flush => HeaderRoundTrip(0);
      assert "0000" == Header(0) && "0000"[..4] == "0000";
    case Line(payload) =>
      HeaderRoundTrip(|payload| + 4);
      assert EncodePacket(packet)[..4] == Header(|payload| + 4);
  }

  /** Decoding undoes encoding. */
  lemma {:induction false} EncodeDecodes(packets: seq<Packet>)
    requires Encodable(packets)
    ensures Decodes(Encode(packets), packets)
  {
    if packets != [] {
      var head, wire := EncodePacket(packets[0]), Encode(packets);
      PacketRoundTrip(packets[0]);
      EncodeDecodes(packets[1..]);
      assert wire[..|head|] == head && wire[|head|..] == Encode(packets[1..]);
    }
  }

  /** Every packet on the wire fits a pkt-line. */
  lemma {:induction false} DecodesEncodable(wire: Bytes, packets: seq<Packet>)
    requires Decodes(wire, packets)
    ensures Encodable(packets)
  {
    if packets != [] {
      var n :| 0 <= n <= |wire| && IsPacket(wire[..n], packets[0]) && Decodes(wire[n..], packets[1..]);
      DecodesEncodable(wire[n..], packets[1..]);
      assert packets == [packets[0]] + packets[1..];
    }
  }

  /** Reading a packet off the wire returns that packet exactly, within the budget. */
  lemma ReadBack(source: Source, pos: nat, n: nat, packet: Packet, limit: int)
    requires pos + n <= |source.data| && pos + n <= limit
    requires IsPacket(source.data[pos..pos + n], packet)
    ensures ReadPacket(source, pos, limit) == Got(packet, pos + n)
  {
    assert source.data[pos..pos + n][..4] == source.data[pos..pos + 4];
    if packet.Line? {
      assert source.data[pos..pos + n][4..] == source.data[pos + 4..pos + n];
    }
  }

  /** What was read is what stood on the wire. */
  lemma ReadIsPacket(source: Source, pos: nat, limit: int)
    requires pos <= |source.data| && ReadPacket(source, pos, limit).Got?
    ensures var r := ReadPacket(source, pos, limit); IsPacket(source.data[pos..r.next], r.packet)
  {
    var n := ReadPacket(source, pos, limit).next;
    assert source.data[pos..n][..4] == source.data[pos..pos + 4];
    assert source.data[pos..n][4..] == source.data[pos + 4..n];
  }
}
