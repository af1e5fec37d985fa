/**
 * The protocol constants of MQTT 3.1.1 as the client library declares
 * them: control packet types, QoS levels, CONNACK return codes, SUBACK
 * return codes and the bounds on a length-prefixed string.
 *
 * Every constant is a Java `byte` (or `int` for the length bounds); it is
 * kept here as its unsigned bit pattern, so SUBSCRIBE_FAILURE, which Java
 * sees as -128, is 0x80.
 */
module Constants {
  import opened Wire

  // Control packet types (the high nibble of the first octet).
  const CONNECT: byte := 0x01
  const CONNACK: byte := 0x02
  const PUBLISH: byte := 0x03
  const PUBACK: byte := 0x04
  const PUBREC: byte := 0x05
  const PUBREL: byte := 0x06
  const PUBCOMP: byte := 0x07
  const SUBSCRIBE: byte := 0x08
  const SUBACK: byte := 0x09
  const UNSUBSCRIBE: byte := 0x0a
  const UNSUBACK: byte := 0x0b
  const PINGREQ: byte := 0x0c
  const PINGRESP: byte := 0x0d
  const DISCONNECT: byte := 0x0e

  // Quality of service levels.
  const AT_MOST_ONCE: byte := 0x00
  const AT_LEAST_ONCE: byte := 0x01
  const EXACTLY_ONCE: byte := 0x02

  // CONNACK return codes.
  const CONNECTION_ACCEPTED: byte := 0x00
  const CONNECTION_REFUSED_VERSION: byte := 0x01
  const CONNECTION_REFUSED_IDENTIFIER: byte := 0x02
  const CONNECTION_REFUSED_SERVER: byte := 0x03
  const CONNECTION_REFUSED_USER: byte := 0x04
  const CONNECTION_REFUSED_AUTH: byte := 0x05

  // SUBACK return codes.
  const SUBSCRIBE_SUCCESS_AT_MOST_ONCE: byte := AT_MOST_ONCE
  const SUBSCRIBE_SUCCESS_AT_LEAST_ONCE: byte := AT_LEAST_ONCE
  const SUBSCRIBE_SUCCESS_EXACTLY_ONCE: byte := EXACTLY_ONCE
  const SUBSCRIBE_FAILURE: byte := 0x80

  // Byte-length bounds of a length-prefixed string.
  const MIN_LENGTH: int := 0
  const MAX_LENGTH: int := 65535

  /**
   * Protocol name and level of MQTT 3.1.1 (the `MQTTVersion` interface,
   * which is not part of this model): "MQTT" and level 4.
   */
  const NAME_311: bytes := [0x4D, 0x51, 0x54, 0x54]
  const VERSION_311: byte := 0x04

  /** The fourteen packet types of MQTT 3.1.1, in order of their code. */
  const PacketTypes: seq<byte> := [CONNECT, CONNACK, PUBLISH, PUBACK, PUBREC, PUBREL, PUBCOMP,
                                   SUBSCRIBE, SUBACK, UNSUBSCRIBE, UNSUBACK, PINGREQ, PINGRESP, DISCONNECT]

  predicate IsPacketType(t: int)
  {
    t in PacketTypes
  }

  /** The packet types are exactly the codes 1..14, consecutive, and each fits a nibble. */
  lemma PacketTypesConsecutive()
    ensures |PacketTypes| == 14
    ensures forall k :: 0 <= k < |PacketTypes| ==> PacketTypes[k] == k + 1 && PacketTypes[k] < 16
    ensures forall t :: IsPacketType(t) <==> 1 <= t <= 14
  {
    forall t | 1 <= t <= 14 ensures IsPacketType(t) {
      assert PacketTypes[t - 1] == t;
    }
  }

  /** Distinct packet types have distinct codes. */
  lemma PacketTypesDistinct()
    ensures forall j, k :: 0 <= j < k < |PacketTypes| ==> PacketTypes[j] != PacketTypes[k]
  {
    PacketTypesConsecutive();
  }

  /** The three QoS levels, in order. */
  const QoSLevelList: seq<byte> := [AT_MOST_ONCE, AT_LEAST_ONCE, EXACTLY_ONCE]

  /**
   * The QoS levels are exactly the values below 3 of the two QoS bits, in
   * increasing order, so 3 is the value those bits must never hold.
   */
  lemma QoSLevels()
    ensures forall q: int :: q in QoSLevelList <==> 0 <= q < 3
    ensures forall k :: 0 <= k < |QoSLevelList| ==> QoSLevelList[k] == k
  {
    forall q: int | 0 <= q < 3 ensures q in QoSLevelList {
      assert QoSLevelList[q] == q;
    }
  }

  /** The six CONNACK return codes, accepted first, then the refusals in order of their reason. */
  const ReturnCodeList: seq<byte> := [CONNECTION_ACCEPTED, CONNECTION_REFUSED_VERSION, CONNECTION_REFUSED_IDENTIFIER,
                                      CONNECTION_REFUSED_SERVER, CONNECTION_REFUSED_USER, CONNECTION_REFUSED_AUTH]

  /**
   * One code per reason: the codes are pairwise distinct and together they
   * are exactly 0..5, the values that section 3.2.2.3 of MQTT 3.1.1 does
   * not reserve.
   */
  lemma ReturnCodes()
    ensures forall c: int :: c in ReturnCodeList <==> 0 <= c <= 5
    ensures forall j, k :: 0 <= j < k < |ReturnCodeList| ==> ReturnCodeList[j] != ReturnCodeList[k]
  {
    forall c: int | 0 <= c <= 5 ensures c in ReturnCodeList {
      assert ReturnCodeList[c] == c;
    }
  }

  /**
   * A SUBACK success code is the QoS granted; the failure code has only
   * bit 7 set, so it is below zero as a Java byte and apart from every QoS.
   */
  lemma SubackCodes()
    ensures [SUBSCRIBE_SUCCESS_AT_MOST_ONCE, SUBSCRIBE_SUCCESS_AT_LEAST_ONCE, SUBSCRIBE_SUCCESS_EXACTLY_ONCE]
         == QoSLevelList
    ensures SignedByte(SUBSCRIBE_FAILURE) == -128
    ensures forall q :: q in QoSLevelList ==> q != SUBSCRIBE_FAILURE && SignedByte(q) >= 0
  {
  }
}
