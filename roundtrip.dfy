/**
 * What the decoders make of the frames the generators write, and of the
 * frames a broker sends. They do not invert the encoders in general: the
 * two-octet fields lose their high octet and are sign-extended, and the
 * older PUBLISH decoder copies its payload from the wrong place. Each
 * round trip is stated exactly where it holds, together with the reason
 * it fails elsewhere.
 */
module RoundTrip {
  import opened Wire
  import opened Constants
  import opened Helper
  import opened RemainingLength
  import opened Packets
  import opened Decoders
  import opened PacketProperties

  // ---------------------------------------------------------------------
  // Decoding two-octet fields
  // ---------------------------------------------------------------------

  /**
   * `(hi >> 8 & 0xFF) | (lo & 0xFF)` on the octets of a 16-bit value
   * gives back the value exactly when it is below 256.
   */
  lemma LowByteRoundTrip(v: int)
    requires 0 <= v < 65536
    ensures LowByteDecode(MSB(v), LSB(v)) as int == v <==> v < 256
  {
  }

  /**
   * `lo | hi` of the two sign-extended octets of a 16-bit value gives it
   * back exactly when it is below 128.
   */
  lemma SignedOrRoundTrip(v: int)
    requires 0 <= v < 65536
    ensures SignedOr(LSB(v), MSB(v)) == v <==> v < 128
  {
  }

  /**
   * The topic length as the PUBLISH decoder reads it, a signed byte built
   * from the low length octet, is the length exactly below 128.
   */
  lemma TopicLengthRoundTrip(n: int)
    requires 0 <= n < 65536
    ensures SignedByte(LowByteDecode(MSB(n), LSB(n))) == n <==> n < 128
  {
  }

  // ---------------------------------------------------------------------
  // The fixed header of any frame
  // ---------------------------------------------------------------------

  /** Octet 0 followed by the remaining length: the decoders read `n` and continue after it. */
  lemma FixedHeaderRoundTrip(first: byte, n: nat, rest: bytes)
    ensures DecodeRL([first] + EncodeRL(n) + rest, 1) == Some((n, 1 + |EncodeRL(n)|))
    ensures ([first] + EncodeRL(n) + rest)[1 + |EncodeRL(n)|..] == rest
  {
    DecodeEncodeRL(n, [first], rest);
  }

  /**
   * Every decoder takes the packet type from the high nibble of octet 0,
   * and sizes variable header and payload from the remaining length: 10
   * and `rl - 10` for CONNECT, 2 and `rl - 2` for the two-octet packets,
   * together `rl` for the current PUBLISH decoder; PINGRESP records
   * remaining length 0 and no buffers.
   */
  lemma DecoderSizes(kind: DecoderKind, buffer: bytes)
    requires DecodeOf(kind, buffer).Ok?
    ensures var f := DecodeOf(kind, buffer).value;
      && DecodeType(buffer) == Ok(f.packetType)
      && (kind.PingrespDecoder? ==> f.remainingLength == 0 && f.variableHeader.None? && f.payload.None?)
      && (kind.ConnectDecoder? ==>
            |f.variableHeader.value| == 10 && |f.payload.value| == f.remainingLength - 10)
      && (kind.TwoOctetDecoder? ==>
            |f.variableHeader.value| == 2 && |f.payload.value| == f.remainingLength - 2)
      && (kind == PublishDecoder(Current) ==>
            |f.variableHeader.value| + |f.payload.value| == f.remainingLength)
  {
    match kind
    case PingrespDecoder =>
    case ConnectDecoder(lineage) => ConnectDecoderSizes(lineage, buffer);
    case PublishDecoder(lineage) => PublishDecoderSizes(lineage, buffer);
    case TwoOctetDecoder(packet) => TwoOctetDecoderSizes(packet, buffer);
  }

  lemma ConnectDecoderSizes(lineage: Lineage, buffer: bytes)
    requires DecodeOf(ConnectDecoder(lineage), buffer).Ok?
    ensures var f := DecodeOf(ConnectDecoder(lineage), buffer).value;
      && DecodeType(buffer) == Ok(f.packetType)
      && |f.variableHeader.value| == 10 && |f.payload.value| == f.remainingLength - 10
  {
  }

  lemma PublishDecoderSizes(lineage: Lineage, buffer: bytes)
    requires DecodeOf(PublishDecoder(lineage), buffer).Ok?
    ensures var f := DecodeOf(PublishDecoder(lineage), buffer).value;
      && DecodeType(buffer) == Ok(f.packetType)
      && (lineage == Current ==> |f.variableHeader.value| + |f.payload.value| == f.remainingLength)
  {
  }

  lemma TwoOctetDecoderSizes(packet: TwoOctetPacket, buffer: bytes)
    requires DecodeOf(TwoOctetDecoder(packet), buffer).Ok?
    ensures var f := DecodeOf(TwoOctetDecoder(packet), buffer).value;
      && DecodeType(buffer) == Ok(f.packetType)
      && |f.variableHeader.value| == 2 && |f.payload.value| == f.remainingLength - 2
  {
  }

  /** PINGRESP reads octet 0 and nothing else. */
  lemma PingrespReadsFirstOctet(first: byte, rest1: bytes, rest2: bytes)
    ensures DecodeOf(PingrespDecoder, [first] + rest1) == DecodeOf(PingrespDecoder, [first] + rest2)
    ensures DecodeOf(PingrespDecoder, [first] + rest1) == Ok(Fields(0, 0, None, None, None, first / 16, 0, Pingresp))
  {
  }

  // ---------------------------------------------------------------------
  // Two-octet packets
  // ---------------------------------------------------------------------

  /** The identifier each two-octet decoder reads from its variable header. */
  function DecodedIdentifier(packet: TwoOctetPacket, hi: byte, lo: byte): int
  {
    match packet
    case PubrecPacket => SignedOr(lo, hi)
    case PubrelPacket => SignedOr(lo, hi)
    case ConnackPacket => 0
    case PubackPacket => LowByteDecode(hi, lo) as int
    case UnsubackPacket => LowByteDecode(hi, lo) as int
  }

  function DecodedBody(packet: TwoOctetPacket, hi: byte, lo: byte): Body
  {
    match packet
    case PubrecPacket => Pubrec
    case PubrelPacket => Pubrel
    case ConnackPacket => Connack(hi, lo)
    case PubackPacket => Puback
    case UnsubackPacket => Unsuback
  }

  /**
   * A four-octet frame `first, 2, hi, lo` decodes to remaining length 2,
   * the variable header `hi, lo`, an empty payload and the fields read
   * from the variable header.
   */
  lemma TwoOctetFrame(packet: TwoOctetPacket, first: byte, hi: byte, lo: byte)
    ensures DecodeOf(TwoOctetDecoder(packet), [first, 2, hi, lo])
         == Ok(Fields(0, DecodedIdentifier(packet, hi, lo), None, Some([hi, lo]), Some([]), first / 16, 2,
                      DecodedBody(packet, hi, lo)))
  {
    var buffer: bytes := [first, 2, hi, lo];
    assert DecodeRL(buffer, 1) == Some((2, 2));
    assert buffer[2..4] == [hi, lo];
    assert buffer[2..2] == [] && buffer[4..4] == [];
    assert DecodeOf(TwoOctetDecoder(packet), buffer) == DecodeTwoOctet(packet, buffer, first / 16, 2, 2);
  }

  /**
   * PUBACK, PUBREC and PUBREL as the client writes them decode to the
   * same type, remaining length 2 and no payload; the identifier comes
   * back exactly below 256 (PUBACK: the low octet survives) or below 128
   * (PUBREC and PUBREL: the OR of the sign-extended octets).
   */
  lemma AcknowledgementRoundTrip(b: Body, id: int)
    requires b.Puback? || b.Pubrec? || b.Pubrel?
    requires 0 <= id < 65536
    ensures var packet := if b.Puback? then PubackPacket else if b.Pubrec? then PubrecPacket else PubrelPacket;
      var r := GetOf(NewAcknowledgement(b, id)).0;
      r.Ok? && DecodeOf(TwoOctetDecoder(packet), r.value).Ok?
      && var d := DecodeOf(TwoOctetDecoder(packet), r.value).value;
      d.packetType == NewAcknowledgement(b, id).packetType && d.remainingLength == 2 && d.payload == Some([])
      && d.body == b
      && (d.packageIdentifier == id <==> id < (if b.Puback? then 256 else 128))
  {
    var packet := if b.Puback? then PubackPacket else if b.Pubrec? then PubrecPacket else PubrelPacket;
    var first: byte := if b.Puback? then 0x40 else if b.Pubrec? then 0x50 else 0x62;
    AcknowledgementFrames(b, id);
    TwoOctetFrame(packet, first, MSB(id), LSB(id));
    LowByteRoundTrip(id);
    SignedOrRoundTrip(id);
  }

  /** UNSUBACK `B0 02 MSB LSB` from a broker: its identifier survives exactly below 256. */
  lemma UnsubackRoundTrip(id: int)
    requires 0 <= id < 65536
    ensures var r := DecodeOf(TwoOctetDecoder(UnsubackPacket), [0xB0, 0x02, MSB(id), LSB(id)]);
      r.Ok? && r.value.packetType == UNSUBACK && r.value.body == Unsuback
      && (r.value.packageIdentifier == id <==> id < 256)
  {
    TwoOctetFrame(UnsubackPacket, 0xB0, MSB(id), LSB(id));
    LowByteRoundTrip(id);
  }

  /** `20 02 00 00` decodes to a CONNACK accepting the connection, remaining length 2. */
  lemma ConnackExample()
    ensures DecodeType([0x20, 0x02, 0x00, 0x00]) == Ok(CONNACK)
    ensures var r := DecodeOf(TwoOctetDecoder(ConnackPacket), [0x20, 0x02, 0x00, 0x00]);
      r.Ok? && r.value.packetType == CONNACK && r.value.remainingLength == 2
      && r.value.body == Connack(0, CONNECTION_ACCEPTED)
  {
    TwoOctetFrame(ConnackPacket, 0x20, 0, 0);
  }

  // ---------------------------------------------------------------------
  // PUBLISH
  // ---------------------------------------------------------------------

  /** A PUBLISH object the client can encode and the current decoder reads back. */
  predicate Decodable(f: Fields)
  {
    && f.packetType == PUBLISH && f.body.Publish? && f.payload.Some?
    && !HasWildcards(f.body.topicName) && |f.body.topicName| < 128
    && f.body.qos <= EXACTLY_ONCE
    && (f.body.qos > AT_MOST_ONCE ==> 0 < f.packageIdentifier < 128)
  }

  /** dup, QoS and retain come back from the first octet for QoS 0..3. */
  lemma PublishFlagsRoundTrip(dup: bool, qos: byte, retain: bool)
    requires qos < 4
    ensures var b0 := PublishFixedByte(PUBLISH, dup, qos, retain);
      (b0 % 2 == 1 <==> retain) && (b0 / 2) % 4 == qos && ((b0 / 8) % 2 == 1 <==> dup) && b0 / 16 == PUBLISH
  {
    PublishFixedByteLayout(PUBLISH, dup, qos, retain);
  }

  /** The PUBLISH variable header of a decodable object: topic, then the identifier at QoS 1 and 2. */
  function PublishHeader(f: Fields): bytes
    requires Decodable(f)
  {
    LengthPrefixed(f.body.topicName)
    + (if f.body.qos > 0 then [MSB(f.packageIdentifier), LSB(f.packageIdentifier)] else [])
  }

  /** The frame `get()` writes for a decodable PUBLISH, with its variable header. */
  lemma PublishFrame(f: Fields)
    requires Decodable(f)
    ensures var (r, g) := GetOf(f);
      var vh := PublishHeader(f);
      r.Ok? && g.variableHeader == Some(vh)
      && r.value == [PublishFixedByte(PUBLISH, f.body.dup, f.body.qos, f.body.retain)]
                    + EncodeRL(|vh| + |f.payload.value|) + (vh + f.payload.value)
  {
    var vh := PublishHeader(f);
    assert PayloadOf(f) == Ok(f.payload);
    assert SignedByte(f.body.qos) == f.body.qos;
    if f.body.qos > 0 {
      assert PublishVariableHeader(f.body, f.packageIdentifier)
          == Ok(LengthPrefixed(f.body.topicName) + [MSB(f.packageIdentifier), LSB(f.packageIdentifier)]);
    } else {
      assert vh == LengthPrefixed(f.body.topicName);
    }
    assert PublishVariableHeader(f.body, f.packageIdentifier) == Ok(vh);
    GetFromParts(f, f.payload.value, vh);
  }

  /** A frame of a first octet, a remaining length and a body splits back into its parts. */
  lemma FrameSplit(b0: byte, vh: bytes, p: bytes, buffer: bytes)
    requires buffer == [b0] + EncodeRL(|vh| + |p|) + (vh + p)
    ensures DecodeRL(buffer, 1) == Some((|vh| + |p|, 1 + |EncodeRL(|vh| + |p|)|))
    ensures buffer[1 + |EncodeRL(|vh| + |p|)|..] == vh + p
  {
    FixedHeaderRoundTrip(b0, |vh| + |p|, vh + p);
  }

  /**
   * What a PUBLISH decoder reads from a frame `get()` wrote: octet 0 and
   * the remaining length, then the topic length, the topic and the
   * identifier from where the variable header starts.
   */
  lemma PublishFrameFields(f: Fields, buffer: bytes)
    requires Decodable(f)
    requires buffer == [PublishFixedByte(PUBLISH, f.body.dup, f.body.qos, f.body.retain)]
                       + EncodeRL(|PublishHeader(f)| + |f.payload.value|) + (PublishHeader(f) + f.payload.value)
    ensures var vh := PublishHeader(f);
      var i := 1 + |EncodeRL(|vh| + |f.payload.value|)|;
      var b0 := buffer[0];
      && DecodeRL(buffer, 1) == Some((|vh| + |f.payload.value|, i))
      && buffer[i..] == vh + f.payload.value
      && (b0 % 2 == 1 <==> f.body.retain) && (b0 / 2) % 4 == f.body.qos
      && ((b0 / 8) % 2 == 1 <==> f.body.dup) && b0 / 16 == PUBLISH
  {
    var vh := PublishHeader(f);
    var p := f.payload.value;
    var b0 := PublishFixedByte(PUBLISH, f.body.dup, f.body.qos, f.body.retain);
    FrameSplit(b0, vh, p, buffer);
    PublishFlagsRoundTrip(f.body.dup, f.body.qos, f.body.retain);
  }

  /** The topic length and, at QoS 1 and 2, the identifier read back from a PUBLISH variable header. */
  lemma PublishHeaderReadBack(f: Fields, buffer: bytes, i: nat)
    requires Decodable(f)
    requires i <= |buffer| && buffer[i..] == PublishHeader(f) + f.payload.value
    ensures var vh := PublishHeader(f);
      && SignedByte(LowByteDecode(buffer[i], buffer[i + 1])) == |f.body.topicName|
      && (f.body.qos > 0 ==>
            SignedOr(buffer[i + |vh| - 1], buffer[i + |vh| - 2]) == f.packageIdentifier)
  {
    var vh := PublishHeader(f);
    var t := f.body.topicName;
    assert buffer[i] == vh[0] == MSB(|t|) && buffer[i + 1] == vh[1] == LSB(|t|);
    TopicLengthRoundTrip(|t|);
    if f.body.qos > 0 {
      assert buffer[i + |vh| - 1] == vh[|vh| - 1] == LSB(f.packageIdentifier);
      assert buffer[i + |vh| - 2] == vh[|vh| - 2] == MSB(f.packageIdentifier);
      SignedOrRoundTrip(f.packageIdentifier);
    }
  }

  /**
   * A buffer holding, from index `i`, a PUBLISH variable header `vh` for
   * topic `t` followed by payload `p`, whose octet 0 carries `qos` and
   * whose topic-length and identifier octets read back as |t| and `id`.
   */
  predicate PublishAt(buffer: bytes, i: nat, vh: bytes, p: bytes, t: bytes, qos: byte, id: int)
  {
    && |buffer| > 0 && (buffer[0] / 2) % 4 == qos && qos <= EXACTLY_ONCE
    && i <= |buffer| && buffer[i..] == vh + p
    && |vh| == |t| + (if qos > 0 then 4 else 2) && vh[2..2 + |t|] == t
    && SignedByte(LowByteDecode(buffer[i], buffer[i + 1])) == |t|
    && (qos > 0 ==> SignedOr(buffer[i + |vh| - 1], buffer[i + |vh| - 2]) == id)
  }

  /** The PUBLISH body a decoder builds: dup and retain from octet 0, and the topic it read. */
  function DecodedPublish(buffer: bytes, t: bytes, qos: byte): Body
    requires |buffer| > 0
  {
    Publish((buffer[0] / 8) % 2 == 1, qos, buffer[0] % 2 == 1, t)
  }

  /** The bounds checks `DecodePublish` makes, all passing. */
  predicate PublishChecksPass(buffer: bytes, rl: nat, i: nat, lineage: Lineage, len: int, size: nat, start: nat)
  {
    && |buffer| > 0 && i + 2 <= |buffer|
    && !(lineage == Current && (buffer[0] / 2) % 4 == 3)
    && len == SignedByte(LowByteDecode(buffer[i], buffer[i + 1])) && len >= 0
    && size == (if lineage == Current && (buffer[0] / 2) % 4 == 0 then len + 2 else len + 4)
    && i + size <= |buffer| && rl >= size
    && start == (if lineage == Current then i + size else i) && start + (rl - size) <= |buffer|
  }

  /** `DecodePublish` past its first two checks: flags and topic length handed on. */
  lemma DecodePublishSplit(buffer: bytes, rl: nat, i: nat, lineage: Lineage)
    requires |buffer| > 0 && i + 2 <= |buffer| && !(lineage == Current && (buffer[0] / 2) % 4 == 3)
    ensures DecodePublish(buffer, PUBLISH, rl, i, lineage)
         == PublishAfterFlags(buffer, PUBLISH, rl, i, lineage, (buffer[0] / 8) % 2 == 1, (buffer[0] / 2) % 4,
                              buffer[0] % 2 == 1, SignedByte(LowByteDecode(buffer[i], buffer[i + 1])))
  {
  }

  /** The rest of the PUBLISH decoder once its bounds checks pass. */
  lemma PublishAfterFlagsIs(buffer: bytes, rl: nat, i: nat, lineage: Lineage, dup: bool, qos: byte, retain: bool,
                            len: int, size: nat, start: nat, vh: bytes, pl: bytes, id: int, topic: bytes)
    requires len >= 0 && size == (if lineage == Current && qos == 0 then len + 2 else len + 4)
    requires i + size <= |buffer| && rl >= size
    requires start == (if lineage == Current then i + size else i) && start + (rl - size) <= |buffer|
    requires vh == buffer[i..i + size] && pl == buffer[start..start + (rl - size)] && topic == vh[2..2 + len]
    requires id == if (if lineage == Current then qos == 1 || qos == 2 else qos > 0)
                   then SignedOr(vh[size - 1], vh[size - 2]) else 0
    ensures PublishAfterFlags(buffer, PUBLISH, rl, i, lineage, dup, qos, retain, len)
         == Ok(Fields(0, id, None, Some(vh), Some(pl), PUBLISH, rl, Publish(dup, qos, retain, topic)))
  {
  }

  /**
   * `DecodePublish` once its bounds checks pass: the variable header of
   * `size` octets from `i`, the payload from `start`, the identifier from
   * the last two variable-header octets, and the topic after the two
   * length octets.
   */
  lemma DecodePublishIs(buffer: bytes, rl: nat, i: nat, lineage: Lineage, len: int, size: nat, start: nat,
                        vh: bytes, pl: bytes, id: int, body: Body)
    requires PublishChecksPass(buffer, rl, i, lineage, len, size, start)
    requires vh == buffer[i..i + size] && pl == buffer[start..start + (rl - size)]
    requires id == if (if lineage == Current then (buffer[0] / 2) % 4 == 1 || (buffer[0] / 2) % 4 == 2
                      else (buffer[0] / 2) % 4 > 0)
                   then SignedOr(buffer[i + size - 1], buffer[i + size - 2]) else 0
    requires body == Publish((buffer[0] / 8) % 2 == 1, (buffer[0] / 2) % 4, buffer[0] % 2 == 1, buffer[i + 2..i + 2 + len])
    ensures DecodePublish(buffer, PUBLISH, rl, i, lineage) == Ok(Fields(0, id, None, Some(vh), Some(pl), PUBLISH, rl, body))
  {
    DecodePublishSplit(buffer, rl, i, lineage);
    SliceOfSlice(buffer, i, i + size, 2, 2 + len);
    assert vh[size - 1] == buffer[i + size - 1] && vh[size - 2] == buffer[i + size - 2];
    PublishAfterFlagsIs(buffer, rl, i, lineage, (buffer[0] / 8) % 2 == 1, (buffer[0] / 2) % 4, buffer[0] % 2 == 1,
                        len, size, start, vh, pl, id, buffer[i + 2..i + 2 + len]);
  }

  /** A slice of a slice is a slice. */
  lemma SliceOfSlice(buffer: bytes, i: nat, j: nat, lo: nat, hi: nat)
    requires i <= j <= |buffer| && lo <= hi <= j - i
    ensures buffer[i..j][lo..hi] == buffer[i + lo..i + hi]
  {
    assert forall k :: 0 <= k < hi - lo ==> buffer[i..j][lo..hi][k] == buffer[i + lo + k];
  }

  /** A slice of a buffer that holds `s` from index `i` is the matching slice of `s`. */
  lemma InnerSlice(buffer: bytes, i: nat, s: bytes, lo: nat, hi: nat)
    requires i <= |buffer| && buffer[i..] == s && lo <= hi <= |s|
    ensures buffer[i + lo..i + hi] == s[lo..hi]
  {
    assert forall k :: i + lo <= k < i + hi ==> buffer[k] == buffer[i..][k - i];
  }

  /** The PUBLISH variable header: two length octets, the topic, and two identifier octets at QoS 1 and 2. */
  lemma PublishHeaderShape(f: Fields)
    requires Decodable(f)
    ensures |PublishHeader(f)| == |f.body.topicName| + (if f.body.qos > 0 then 4 else 2)
    ensures PublishHeader(f)[2..2 + |f.body.topicName|] == f.body.topicName
  {
  }

  /** Where the pieces of a PUBLISH frame sit in the buffer, and that the current decoder's checks pass on it. */
  lemma CurrentPublishPieces(buffer: bytes, i: nat, vh: bytes, p: bytes, t: bytes, qos: byte, id: int)
    requires PublishAt(buffer, i, vh, p, t, qos, id)
    ensures PublishChecksPass(buffer, |vh| + |p|, i, Current, |t|, |vh|, i + |vh|)
    ensures vh == buffer[i..i + |vh|] && p == buffer[i + |vh|..i + |vh| + |p|]
    ensures t == buffer[i + 2..i + 2 + |t|]
  {
    InnerSlice(buffer, i, vh + p, 0, |vh|);
    InnerSlice(buffer, i, vh + p, |vh|, |vh| + |p|);
    InnerSlice(buffer, i, vh + p, 2, 2 + |t|);
    assert (vh + p)[0..|vh|] == vh && (vh + p)[|vh|..|vh| + |p|] == p;
    assert (vh + p)[2..2 + |t|] == vh[2..2 + |t|];
  }

  /** The current PUBLISH decoder on such a buffer reads variable header, payload, topic and identifier. */
  lemma CurrentPublishDecodeAt(buffer: bytes, i: nat, vh: bytes, p: bytes, t: bytes, qos: byte, id: int)
    requires PublishAt(buffer, i, vh, p, t, qos, id)
    ensures DecodePublish(buffer, PUBLISH, |vh| + |p|, i, Current)
         == Ok(Fields(0, if qos > 0 then id else 0, None, Some(vh), Some(p), PUBLISH, |vh| + |p|,
                      DecodedPublish(buffer, t, qos)))
  {
    CurrentPublishPieces(buffer, i, vh, p, t, qos, id);
    DecodePublishIs(buffer, |vh| + |p|, i, Current, |t|, |vh|, i + |vh|, vh, p,
                    if qos > 0 then id else 0, DecodedPublish(buffer, t, qos));
  }

  /** Where the older decoder looks for the pieces of a PUBLISH frame at QoS 1 or 2, and that its checks pass. */
  lemma LegacyPublishPieces(buffer: bytes, i: nat, vh: bytes, p: bytes, t: bytes, qos: byte, id: int)
    requires PublishAt(buffer, i, vh, p, t, qos, id) && qos > 0
    ensures PublishChecksPass(buffer, |vh| + |p|, i, Legacy, |t|, |vh|, i)
    ensures vh == buffer[i..i + |vh|] && (vh + p)[..|p|] == buffer[i..i + |p|]
    ensures t == buffer[i + 2..i + 2 + |t|]
  {
    InnerSlice(buffer, i, vh + p, 0, |vh|);
    InnerSlice(buffer, i, vh + p, 0, |p|);
    InnerSlice(buffer, i, vh + p, 2, 2 + |t|);
    assert (vh + p)[0..|vh|] == vh;
    assert (vh + p)[2..2 + |t|] == vh[2..2 + |t|];
  }

  /** The older PUBLISH decoder on such a buffer at QoS 1 or 2: the payload from the wrong offset. */
  lemma LegacyPublishDecodeAt(buffer: bytes, i: nat, vh: bytes, p: bytes, t: bytes, qos: byte, id: int)
    requires PublishAt(buffer, i, vh, p, t, qos, id) && qos > 0
    ensures DecodePublish(buffer, PUBLISH, |vh| + |p|, i, Legacy)
         == Ok(Fields(0, id, None, Some(vh), Some((vh + p)[..|p|]), PUBLISH, |vh| + |p|,
                      DecodedPublish(buffer, t, qos)))
  {
    LegacyPublishPieces(buffer, i, vh, p, t, qos, id);
    DecodePublishIs(buffer, |vh| + |p|, i, Legacy, |t|, |vh|, i, vh, (vh + p)[..|p|], id,
                    DecodedPublish(buffer, t, qos));
  }

  /** Where the older decoder looks for the pieces of a PUBLISH frame at QoS 0, and that its checks pass. */
  lemma LegacyPublishPiecesQoS0(buffer: bytes, i: nat, vh: bytes, p: bytes, t: bytes, id: int)
    requires PublishAt(buffer, i, vh, p, t, 0, id) && |p| >= 2
    ensures PublishChecksPass(buffer, |vh| + |p|, i, Legacy, |t|, |vh| + 2, i)
    ensures (vh + p)[..|vh| + 2] == buffer[i..i + |vh| + 2] && (vh + p)[..|p| - 2] == buffer[i..i + |p| - 2]
    ensures t == buffer[i + 2..i + 2 + |t|]
  {
    InnerSlice(buffer, i, vh + p, 0, |vh| + 2);
    InnerSlice(buffer, i, vh + p, 0, |p| - 2);
    InnerSlice(buffer, i, vh + p, 2, 2 + |t|);
    assert (vh + p)[2..2 + |t|] == vh[2..2 + |t|];
  }

  /** The older PUBLISH decoder on such a buffer at QoS 0: two octets too many for the variable header. */
  lemma LegacyPublishDecodeAtQoS0(buffer: bytes, i: nat, vh: bytes, p: bytes, t: bytes, id: int)
    requires PublishAt(buffer, i, vh, p, t, 0, id)
    ensures |p| < 2 ==> DecodePublish(buffer, PUBLISH, |vh| + |p|, i, Legacy) == Err(MalformedBuffer)
    ensures |p| >= 2 ==>
              DecodePublish(buffer, PUBLISH, |vh| + |p|, i, Legacy)
                == Ok(Fields(0, 0, None, Some((vh + p)[..|vh| + 2]), Some((vh + p)[..|p| - 2]),
                             PUBLISH, |vh| + |p|, DecodedPublish(buffer, t, 0)))
  {
    if |p| >= 2 {
      LegacyPublishPiecesQoS0(buffer, i, vh, p, t, id);
      DecodePublishIs(buffer, |vh| + |p|, i, Legacy, |t|, |vh| + 2, i, (vh + p)[..|vh| + 2], (vh + p)[..|p| - 2], 0,
                      DecodedPublish(buffer, t, 0));
    }
  }

  /** A buffer whose first octet carries the PUBLISH type and whose remaining length reads back goes to `decodePublish`. */
  lemma DecodeOfPublish(buffer: bytes, lineage: Lineage, rl: nat, i: nat)
    requires |buffer| > 0 && buffer[0] / 16 == PUBLISH && DecodeRL(buffer, 1) == Some((rl, i))
    ensures DecodeOf(PublishDecoder(lineage), buffer) == DecodePublish(buffer, PUBLISH, rl, i, lineage)
  {
  }

  /**
   * The current PUBLISH decoder inverts `get()` for a topic below 128
   * octets, QoS 0..2 and an identifier 1..127: it rebuilds flags, topic,
   * identifier and payload, and keeps the variable header it read.
   */
  lemma PublishRoundTrip(f: Fields)
    requires Decodable(f)
    ensures var (r, g) := GetOf(f);
      r.Ok? && DecodeOf(PublishDecoder(Current), r.value)
        == Ok(Fields(0, if f.body.qos > 0 then f.packageIdentifier else 0, None, g.variableHeader, f.payload,
                     PUBLISH, |g.variableHeader.value| + |f.payload.value|, f.body))
  {
    PublishFrame(f);
    var buffer := GetOf(f).0.value;
    PublishFrameFields(f, buffer);
    PublishHeaderShape(f);
    var vh, p, t := PublishHeader(f), f.payload.value, f.body.topicName;
    var i := 1 + |EncodeRL(|vh| + |p|)|;
    PublishHeaderReadBack(f, buffer, i);
    DecodeOfPublish(buffer, Current, |vh| + |p|, i);
    CurrentPublishDecodeAt(buffer, i, vh, p, t, f.body.qos, f.packageIdentifier);
    assert DecodedPublish(buffer, t, f.body.qos) == f.body;
  }

  /**
   * The older PUBLISH decoder, on the same frame at QoS 1 or 2, reads
   * flags, topic and identifier right but copies the payload from the
   * start of the variable header: what it calls the payload is the first
   * |payload| octets of variable header and payload together.
   */
  lemma LegacyPublishPayload(f: Fields)
    requires Decodable(f) && f.body.qos > 0
    ensures var (r, g) := GetOf(f);
      r.Ok? && DecodeOf(PublishDecoder(Legacy), r.value)
        == Ok(Fields(0, f.packageIdentifier, None, g.variableHeader,
                     Some((g.variableHeader.value + f.payload.value)[..|f.payload.value|]),
                     PUBLISH, |g.variableHeader.value| + |f.payload.value|, f.body))
  {
    PublishFrame(f);
    var buffer := GetOf(f).0.value;
    PublishFrameFields(f, buffer);
    PublishHeaderShape(f);
    var vh, p, t := PublishHeader(f), f.payload.value, f.body.topicName;
    var i := 1 + |EncodeRL(|vh| + |p|)|;
    PublishHeaderReadBack(f, buffer, i);
    DecodeOfPublish(buffer, Legacy, |vh| + |p|, i);
    LegacyPublishDecodeAt(buffer, i, vh, p, t, f.body.qos, f.packageIdentifier);
    assert DecodedPublish(buffer, t, f.body.qos) == f.body;
  }

  /**
   * At QoS 0 the older decoder still reserves two identifier octets: a
   * payload of fewer than two octets makes it fail, and otherwise it
   * takes two payload octets into the variable header and its payload
   * is two octets short, starting with the topic prefix.
   */
  lemma LegacyPublishQoS0(f: Fields)
    requires Decodable(f) && f.body.qos == 0
    ensures var (r, g) := GetOf(f);
      r.Ok? &&
      var d := DecodeOf(PublishDecoder(Legacy), r.value);
      (|f.payload.value| < 2 ==> d == Err(MalformedBuffer))
      && (|f.payload.value| >= 2 ==>
            d.Ok? && d.value.payload == Some((g.variableHeader.value + f.payload.value)[..|f.payload.value| - 2])
            && d.value.packageIdentifier == 0 && d.value.body == f.body)
  {
    PublishFrame(f);
    var buffer := GetOf(f).0.value;
    PublishFrameFields(f, buffer);
    PublishHeaderShape(f);
    var vh, p, t := PublishHeader(f), f.payload.value, f.body.topicName;
    var i := 1 + |EncodeRL(|vh| + |p|)|;
    PublishHeaderReadBack(f, buffer, i);
    DecodeOfPublish(buffer, Legacy, |vh| + |p|, i);
    LegacyPublishDecodeAtQoS0(buffer, i, vh, p, t, f.packageIdentifier);
    assert DecodedPublish(buffer, t, f.body.qos) == f.body;
  }

  // ---------------------------------------------------------------------
  // CONNECT
  // ---------------------------------------------------------------------

  /** The object the CONNECT decoder builds from a variable header written for `b` and payload `p`. */
  function DecodedConnect(b: Body, p: bytes, lineage: Lineage): Fields
    requires b.Connect?
  {
    Fields(ConnectFlags(b), 0, None, Some(ConnectVariableHeader(b)), Some(p), CONNECT,
           |ConnectVariableHeader(b)| + |p|,
           Connect(lineage, None, VERSION_311, Some(NAME_311), false, true,
                   Some(DEFAULT_WILL_TOPIC), Some(DEFAULT_WILL_MESSAGE), AT_MOST_ONCE, None, None, false,
                   LowByteDecode(MSB(b.keepAlive), LSB(b.keepAlive)) as int))
  }

  /** The ten octets of a CONNECT variable header for the 3.1.1 protocol name, one by one. */
  lemma ConnectHeaderOctets(b: Body)
    requires b.Connect? && (b.lineage == Legacy || b.protocolName.None?)
    ensures var vh := ConnectVariableHeader(b);
      |vh| == 10 && vh[0] == 0 && vh[1] == 4 && vh[2..6] == NAME_311 && vh[6] == VERSION_311
      && vh[7] == ConnectFlags(b) && vh[8] == MSB(b.keepAlive) && vh[9] == LSB(b.keepAlive)
  {
    ProtocolOctets();
    var vh := ConnectVariableHeader(b);
    assert vh == Protocol() + [ConnectFlags(b), MSB(b.keepAlive), LSB(b.keepAlive)];
    assert vh[2..6] == Protocol()[2..6];
  }

  /** What `decodeConnect` reads from a ten-octet header with a four-octet name, followed by the payload. */
  lemma DecodeConnectIs(buffer: bytes, i: nat, vh: bytes, p: bytes, lineage: Lineage)
    requires i <= |buffer| && buffer[i..] == vh + p
    requires |vh| == 10 && vh[0] == 0 && vh[1] == 4
    ensures DecodeConnect(buffer, CONNECT, 10 + |p|, i, lineage)
         == Ok(Fields(vh[7], 0, None, Some(vh), Some(p), CONNECT, 10 + |p|,
                      Connect(lineage, None, vh[6], Some(vh[2..6]), false, true,
                              Some(DEFAULT_WILL_TOPIC), Some(DEFAULT_WILL_MESSAGE), AT_MOST_ONCE,
                              None, None, false, LowByteDecode(vh[8], vh[9]) as int)))
  {
    InnerSlice(buffer, i, vh + p, 0, 10);
    InnerSlice(buffer, i, vh + p, 10, 10 + |p|);
    assert (vh + p)[0..10] == vh && (vh + p)[10..10 + |p|] == p;
    assert buffer[i] == 0 && buffer[i + 1] == 4;
  }

  lemma ConnectDecodeAt(b: Body, p: bytes, buffer: bytes, i: nat, lineage: Lineage)
    requires b.Connect? && (b.lineage == Legacy || b.protocolName.None?)
    requires i <= |buffer| && buffer[i..] == ConnectVariableHeader(b) + p
    ensures DecodeConnect(buffer, CONNECT, |ConnectVariableHeader(b)| + |p|, i, lineage)
         == Ok(DecodedConnect(b, p, lineage))
  {
    ConnectHeaderOctets(b);
    DecodeConnectIs(buffer, i, ConnectVariableHeader(b), p, lineage);
  }

  /**
   * The CONNECT decoder on a frame `get()` wrote (protocol "MQTT") reads
   * back protocol name, level, flags octet, variable header and payload
   * octets, the keep-alive only when it is below 256, and nothing of the
   * payload's fields, which keep their initial values.
   */
  lemma ConnectRoundTrip(f: Fields, lineage: Lineage)
    requires f.packetType == CONNECT && f.body.Connect? && ConnectPayload(f.body).Ok?
    requires f.body.lineage == Legacy || f.body.protocolName.None?
    requires 0 <= f.body.keepAlive < 65536
    ensures var (r, g) := GetOf(f);
      r.Ok? && DecodeOf(ConnectDecoder(lineage), r.value) == Ok(DecodedConnect(f.body, g.payload.value, lineage))
      && g.variableHeader == Some(ConnectVariableHeader(f.body))
      && g.remainingLength == DecodedConnect(f.body, g.payload.value, lineage).remainingLength
    ensures DecodedConnect(f.body, ConnectPayload(f.body).value, lineage).body.keepAlive == f.body.keepAlive
        <==> f.body.keepAlive < 256
  {
    var vh := ConnectVariableHeader(f.body);
    var p := ConnectPayload(f.body).value;
    ConnectFrame(f);
    TypeNibble(CONNECT);
    assert VariableHeaderOf(f.(payload := Some(p))) == Ok(Some(vh));
    GetFromParts(f, p, vh);
    var buffer := [0x10] + EncodeRL(|vh| + |p|) + (vh + p);
    assert GetOf(f).0.value == buffer;
    FixedHeaderRoundTrip(0x10, |vh| + |p|, vh + p);
    ConnectDecodeAt(f.body, p, buffer, 1 + |EncodeRL(|vh| + |p|)|, lineage);
    LowByteRoundTrip(f.body.keepAlive);
  }
}
