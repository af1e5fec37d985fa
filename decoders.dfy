/**
 * The buffer decoders: the `(byte[] buffer, ...)` constructors and the
 * `fromBuffer` factories of the packets the client receives (and of
 * CONNECT and PUBLISH, which have one too).
 *
 * Each reads the type nibble of octet 0, then the remaining length, then
 * a variable header and a payload whose sizes it derives from what it has
 * read. Whatever runtime exception the Java code would run into on a
 * short or inconsistent buffer is `Err(MalformedBuffer)`. Fields a decoder
 * does not touch keep the values the object is born with.
 */
module Decoders {
  import opened Wire
  import opened Constants
  import opened Helper
  import opened RemainingLength
  import opened Packets

  /** Which decoder reads the buffer. */
  datatype DecoderKind =
    | ConnectDecoder(lineage: Lineage)
    | PublishDecoder(lineage: Lineage)
    | TwoOctetDecoder(packet: TwoOctetPacket)
    | PingrespDecoder

  /** The packets whose variable header is two octets. */
  datatype TwoOctetPacket = PubackPacket | PubrecPacket | PubrelPacket | ConnackPacket | UnsubackPacket

  /** The will topic and will message a CONNECT object is born with. */
  const DEFAULT_WILL_TOPIC: bytes := [0x77, 0x74, 0x6F, 0x70, 0x69, 0x63]                  // "wtopic"
  const DEFAULT_WILL_MESSAGE: bytes := [0x77, 0x6D, 0x65, 0x73, 0x73, 0x61, 0x67, 0x65]    // "wmessage"

  /**
   * CONNECT after the remaining length `rl`, whose last digit ends before
   * index `i`: a 10-octet variable header, `rl - 10` payload octets, and
   * from the variable header the protocol name (its length taken from the
   * low length octet only), level, flags and keep-alive. The payload is not
   * parsed, so client identifier, will and credentials keep their
   * initial values.
   */
  function DecodeConnect(buffer: bytes, t: byte, rl: nat, i: nat, lineage: Lineage): Result<Fields>
  {
    if i + 10 > |buffer| || rl < 10 || i + rl > |buffer| then Err(MalformedBuffer)
    else
      var len := LowByteDecode(buffer[i], buffer[i + 1]) as int;
      var vh := buffer[i..i + 10];
      if len > 4 then Err(MalformedBuffer)
      else
        Ok(Fields(vh[3 + len], 0, None, Some(vh), Some(buffer[i + 10..i + rl]), t, rl,
                  Connect(lineage, None, vh[2 + len], Some(vh[2..2 + len]), false, true,
                          Some(DEFAULT_WILL_TOPIC), Some(DEFAULT_WILL_MESSAGE), AT_MOST_ONCE,
                          None, None, false, LowByteDecode(vh[4 + len], vh[5 + len]) as int)))
  }

  /**
   * PUBLISH: flags from octet 0, the topic length (low octet only, read as
   * a signed byte), a variable header of topic length + 2 (QoS 0) or + 4
   * octets, the payload, and for QoS 1 and 2 the identifier as the OR of
   * the last two variable-header octets, both sign-extended.
   *
   * The current decoder has no variable header at all for QoS 3 and takes
   * the payload right after the variable header. The older one always
   * reserves topic length + 4 octets, copies the payload from the start of
   * the variable header, and reads an identifier for every QoS above 0.
   */
  function DecodePublish(buffer: bytes, t: byte, rl: nat, i: nat, lineage: Lineage): Result<Fields>
    requires |buffer| > 0
  {
    var b0 := buffer[0];
    var qos: byte := (b0 / 2) % 4;
    if i + 2 > |buffer| then Err(MalformedBuffer)
    else if lineage == Current && qos == 3 then Err(MalformedBuffer)
    else PublishAfterFlags(buffer, t, rl, i, lineage, (b0 / 8) % 2 == 1, qos, b0 % 2 == 1,
                           SignedByte(LowByteDecode(buffer[i], buffer[i + 1])))
  }

  /**
   * The rest of the PUBLISH decoder, once flags and the topic length
   * `len` are read: the variable header of topic length + 2 (current
   * decoder at QoS 0) or + 4 octets, the payload, the identifier.
   */
  function PublishAfterFlags(buffer: bytes, t: byte, rl: nat, i: nat, lineage: Lineage,
                             dup: bool, qos: byte, retain: bool, len: int): Result<Fields>
  {
    var size := if lineage == Current && qos == 0 then len + 2 else len + 4;
    if len < 0 || i + size > |buffer| || rl < size then Err(MalformedBuffer)
    else
      var vh := buffer[i..i + size];
      var start := if lineage == Current then i + size else i;
      var plen := rl - size;
      if plen > 0 && start + plen > |buffer| then Err(MalformedBuffer)
      else
        var hasId := if lineage == Current then qos == 1 || qos == 2 else qos > 0;
        var id := if hasId then SignedOr(vh[size - 1], vh[size - 2]) else 0;
        Ok(Fields(0, id, None, Some(vh), Some(buffer[start..start + plen]), t, rl,
                  Publish(dup, qos, retain, vh[2..2 + len])))
  }

  /**
   * The two-octet decoders of PUBACK, PUBREC, PUBREL, UNSUBACK and CONNACK:
   * a 2-octet variable header and `rl - 2` payload octets, copied (when
   * there are any) from after the variable header, or for PUBREC and
   * PUBREL from its start. PUBACK and UNSUBACK keep only the low identifier
   * octet; PUBREC and PUBREL OR the two octets, both sign-extended; CONNACK
   * splits them into the reserved octet and the return code.
   */
  function DecodeTwoOctet(packet: TwoOctetPacket, buffer: bytes, t: byte, rl: nat, i: nat): Result<Fields>
  {
    if i + 2 > |buffer| || rl < 2 then Err(MalformedBuffer)
    else
      var vh := buffer[i..i + 2];
      var start := if packet.PubrecPacket? || packet.PubrelPacket? then i else i + 2;
      var plen := rl - 2;
      if plen > 0 && start + plen > |buffer| then Err(MalformedBuffer)
      else
        var pl := buffer[start..start + plen];
        match packet
        case ConnackPacket => Ok(Fields(0, 0, None, Some(vh), Some(pl), t, rl, Connack(vh[0], vh[1])))
        case PubackPacket => Ok(Fields(0, LowByteDecode(vh[0], vh[1]) as int, None, Some(vh), Some(pl), t, rl, Puback))
        case UnsubackPacket => Ok(Fields(0, LowByteDecode(vh[0], vh[1]) as int, None, Some(vh), Some(pl), t, rl, Unsuback))
        case PubrecPacket => Ok(Fields(0, SignedOr(vh[1], vh[0]), None, Some(vh), Some(pl), t, rl, Pubrec))
        case PubrelPacket => Ok(Fields(0, SignedOr(vh[1], vh[0]), None, Some(vh), Some(pl), t, rl, Pubrel))
  }

  /**
   * The object a decoder builds from `buffer`. PINGRESP reads octet 0
   * only and sets remaining length 0 and both buffers to null.
   */
  function DecodeOf(kind: DecoderKind, buffer: bytes): Result<Fields>
  {
    if |buffer| == 0 then Err(MalformedBuffer)
    else
      var t := buffer[0] / 16;
      match kind
      case PingrespDecoder => Ok(Fields(0, 0, None, None, None, t, 0, Pingresp))
      case ConnectDecoder(lineage) =>
        (match DecodeRL(buffer, 1)
         case None => Err(MalformedBuffer)
         case Some((rl, i)) => DecodeConnect(buffer, t, rl, i, lineage))
      case PublishDecoder(lineage) =>
        (match DecodeRL(buffer, 1)
         case None => Err(MalformedBuffer)
         case Some((rl, i)) => DecodePublish(buffer, t, rl, i, lineage))
      case TwoOctetDecoder(packet) =>
        (match DecodeRL(buffer, 1)
         case None => Err(MalformedBuffer)
         case Some((rl, i)) => DecodeTwoOctet(packet, buffer, t, rl, i))
  }
}
