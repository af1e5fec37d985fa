/**
 * The state of a control packet object and what its three generators and
 * `get()` produce from it.
 *
 * `Fields` is a snapshot of an `MQTTMessage`: the base-class fields
 * (flags, packet identifier, the three header buffers, type, remaining
 * length) and a `Body` holding the fields of its concrete class. A Java
 * `null` buffer or string is `None`. The functions here are the
 * specification the class `Messages.Message` is proved against.
 */
module Packets {
  import opened Wire
  import opened Constants
  import opened Helper
  import opened RemainingLength

  /**
   * Which copy of a packet class an object comes from: the current
   * `se.wetcat` classes or the older `se.goransson` ones. Only CONNECT
   * (its variable header) and PUBLISH (its decoder) behave differently.
   */
  datatype Lineage = Current | Legacy

  /** The fields of each concrete packet class. */
  datatype Body =
    | Connect(lineage: Lineage, clientIdentifier: Option<bytes>, protocolVersion: byte,
              protocolName: Option<bytes>, willRetain: bool, willFlag: bool,
              willTopic: Option<bytes>, willMessage: Option<bytes>, willQoS: byte,
              username: Option<bytes>, password: Option<bytes>, cleanSession: bool, keepAlive: int)
    | Connack(reserved: byte, returnCode: byte)
    | Publish(dup: bool, qos: byte, retain: bool, topicName: bytes)
    | Puback
    | Pubrec
    | Pubrel
    | Subscribe(topicFilters: seq<bytes>, qoss: seq<byte>)
    | Unsubscribe(topicFilters: seq<bytes>)
    | Unsuback
    | Pingreq
    | Pingresp
    | Disconnect

  /** The base-class fields of `MQTTMessage` together with the concrete class's fields. */
  datatype Fields = Fields(
    flags: byte,
    packageIdentifier: int,
    fixedHeader: Option<bytes>,
    variableHeader: Option<bytes>,
    payload: Option<bytes>,
    packetType: byte,
    remainingLength: int,
    body: Body)

  /** The client only decodes CONNACK, UNSUBACK and PINGRESP: their generators return null. */
  predicate Generates(b: Body)
  {
    !(b.Connack? || b.Unsuback? || b.Pingresp?)
  }

  /** A freshly allocated object: every base field holds Java's default value. */
  function Blank(b: Body): (f: Fields)
    ensures f.body == b && f.packetType == 0 && f.packageIdentifier == 0 && f.remainingLength == 0
    ensures f.fixedHeader.None? && f.variableHeader.None? && f.payload.None?
  {
    Fields(0, 0, None, None, None, 0, 0, b)
  }

  // ---------------------------------------------------------------------
  // Constructors
  // ---------------------------------------------------------------------

  /**
   * The nine-argument CONNECT constructor. The will flag is set exactly
   * when both will topic and will message are given, and the will QoS is
   * forced to AT_MOST_ONCE whatever the caller passes.
   */
  function NewConnect(lineage: Lineage, clientIdentifier: Option<bytes>, username: Option<bytes>,
                      password: Option<bytes>, willRetain: bool, willQoS: byte, willTopic: Option<bytes>,
                      willMessage: Option<bytes>, cleanSession: bool, keepAlive: int): (f: Fields)
    ensures f.packetType == CONNECT && f.body.Connect?
    ensures f.body.willFlag <==> willTopic.Some? && willMessage.Some?
    ensures f.body.willQoS == AT_MOST_ONCE
  {
    Blank(Connect(lineage, clientIdentifier, 0, None, willRetain, willTopic.Some? && willMessage.Some?,
                  willTopic, willMessage, AT_MOST_ONCE, username, password, cleanSession, keepAlive))
      .(packetType := CONNECT)
  }

  /** `MQTTConnect(clientIdentifier, username, password, cleanSession)`: no will, keep-alive 10. */
  function NewConnectSession(lineage: Lineage, clientIdentifier: Option<bytes>, username: Option<bytes>,
                             password: Option<bytes>, cleanSession: bool): Fields
  {
    NewConnect(lineage, clientIdentifier, username, password, false, AT_MOST_ONCE, None, None, cleanSession, 10)
  }

  /** `MQTTConnect(clientIdentifier, username, password)`: clean session off. */
  function NewConnectCredentials(lineage: Lineage, clientIdentifier: Option<bytes>, username: Option<bytes>,
                                 password: Option<bytes>): Fields
  {
    NewConnectSession(lineage, clientIdentifier, username, password, false)
  }

  /** `MQTTConnect(clientIdentifier)`: no credentials. */
  function NewConnectIdentifier(lineage: Lineage, clientIdentifier: Option<bytes>): Fields
  {
    NewConnectCredentials(lineage, clientIdentifier, None, None)
  }

  /** `MQTTConnect()`: the empty client identifier. */
  function NewConnectDefault(lineage: Lineage): Fields
  {
    NewConnectIdentifier(lineage, Some([]))
  }

  /**
   * `MQTTPublish(topic, payload, QoS)`. A QoS above AT_MOST_ONCE (a signed
   * comparison) takes a fresh packet identifier, which the library asks of
   * a helper that does not exist; the model takes it as the argument
   * `identifier`.
   */
  function NewPublish(topic: bytes, payload: bytes, qos: byte, identifier: int): (f: Fields)
    ensures f.packetType == PUBLISH && f.payload == Some(payload)
    ensures f.body == Publish(false, qos, false, topic)
    ensures f.packageIdentifier == if SignedByte(qos) > 0 then identifier else 0
  {
    Blank(Publish(false, qos, false, topic))
      .(packetType := PUBLISH, payload := Some(payload),
        packageIdentifier := if SignedByte(qos) > AT_MOST_ONCE then identifier else 0)
  }

  /** `MQTTPuback(packageIdentifier)`, `MQTTPubrec(...)`, `MQTTPubrel(...)`. */
  function NewAcknowledgement(b: Body, packageIdentifier: int): (f: Fields)
    requires b.Puback? || b.Pubrec? || b.Pubrel?
    ensures f.packetType == (if b.Puback? then PUBACK else if b.Pubrec? then PUBREC else PUBREL)
    ensures f.packageIdentifier == packageIdentifier && f.body == b
  {
    Blank(b).(packetType := if b.Puback? then PUBACK else if b.Pubrec? then PUBREC else PUBREL,
              packageIdentifier := packageIdentifier)
  }

  /** `MQTTSubscribe(topicFilters, QoSs)`, with the fresh identifier as an argument. */
  function NewSubscribe(topicFilters: seq<bytes>, qoss: seq<byte>, identifier: int): (f: Fields)
    ensures f.packetType == SUBSCRIBE && f.packageIdentifier == identifier
    ensures f.body == Subscribe(topicFilters, qoss)
  {
    Blank(Subscribe(topicFilters, qoss)).(packetType := SUBSCRIBE, packageIdentifier := identifier)
  }

  /** `MQTTUnsubscribe.newInstance(identifier, topicFilters...)`. */
  function NewUnsubscribe(identifier: int, topicFilters: seq<bytes>): (f: Fields)
    ensures f.packetType == UNSUBSCRIBE && f.packageIdentifier == identifier
    ensures f.body == Unsubscribe(topicFilters)
  {
    Blank(Unsubscribe(topicFilters)).(packetType := UNSUBSCRIBE, packageIdentifier := identifier)
  }

  /** `MQTTPingreq.newInstance()` and the older public constructor. */
  function NewPingreq(): (f: Fields)
    ensures f.packetType == PINGREQ && f.body == Pingreq
  {
    Blank(Pingreq).(packetType := PINGREQ)
  }

  /** `MQTTDisconnect()`. */
  function NewDisconnect(): (f: Fields)
    ensures f.packetType == DISCONNECT && f.body == Disconnect
  {
    Blank(Disconnect).(packetType := DISCONNECT)
  }

  // ---------------------------------------------------------------------
  // Generators
  // ---------------------------------------------------------------------

  /** `getProtocol()`: the length-prefixed protocol name "MQTT", then protocol level 4. */
  function Protocol(): (r: bytes)
    ensures |r| == |NAME_311| + 3
  {
    LengthPrefixed(NAME_311) + [VERSION_311]
  }

  /**
   * The CONNECT flags octet: username, password, will retain, will QoS
   * (shifted into bits 4..3), will flag and clean session, bit 0 reserved.
   * The code puts `willRetain && willFlag` into the will-flag bit.
   */
  function ConnectFlagsByte(username: bool, password: bool, willRetain: bool, willQoS: byte,
                            willBit: bool, cleanSession: bool): byte
  {
    (((Bit(username) as bv8) << 7) | ((Bit(password) as bv8) << 6) | ((Bit(willRetain) as bv8) << 5)
     | ((willQoS as bv8) << 3) | ((Bit(willBit) as bv8) << 2) | ((Bit(cleanSession) as bv8) << 1)) as int
  }

  function ConnectFlags(b: Body): byte
    requires b.Connect?
  {
    ConnectFlagsByte(b.username.Some?, b.password.Some?, b.willRetain, b.willQoS,
                     b.willRetain && b.willFlag, b.cleanSession)
  }

  /**
   * CONNECT variable header: protocol name and level, flags, keep-alive.
   * The current class writes a protocol name it was given (one a decoder
   * filled in) instead of "MQTT"; the older class always writes "MQTT".
   */
  function ConnectVariableHeader(b: Body): bytes
    requires b.Connect?
  {
    var protocol :=
      if b.lineage == Legacy || b.protocolName.None? then Protocol()
      else LengthPrefixed(b.protocolName.value) + [VERSION_311];
    protocol + [ConnectFlags(b), MSB(b.keepAlive), LSB(b.keepAlive)]
  }

  function OptionalString(s: Option<bytes>): bytes
  {
    if s.Some? then LengthPrefixed(s.value) else []
  }

  /**
   * CONNECT payload: client identifier; will topic and will message when
   * the will flag is set; username and password when present. The client
   * identifier and the password must fit a two-octet length; the will
   * topic, will message and username are written unchecked.
   */
  function ConnectPayload(b: Body): Result<bytes>
    requires b.Connect?
  {
    if b.clientIdentifier.None? then Err(ClientIdentifierMissing)
    else if |b.clientIdentifier.value| > MAX_LENGTH then Err(ClientIdentifierTooLong)
    else if b.willFlag && b.willTopic.None? then Err(WillTopicMissing)
    else if b.willFlag && b.willMessage.None? then Err(WillMessageMissing)
    else if b.password.Some? && |b.password.value| > MAX_LENGTH then Err(PasswordTooLong)
    else
      Ok(LengthPrefixed(b.clientIdentifier.value)
         + (if b.willFlag then LengthPrefixed(b.willTopic.value) + LengthPrefixed(b.willMessage.value) else [])
         + OptionalString(b.username)
         + OptionalString(b.password))
  }

  /**
   * The PUBLISH fixed-header octet `type << 4 | dup << 3 | QoS << 1 | retain`,
   * truncated to eight bits by the `(byte)` cast.
   */
  function PublishFixedByte(packetType: byte, dup: bool, qos: byte, retain: bool): byte
  {
    (((packetType as bv8) << 4) | ((Bit(dup) as bv8) << 3) | ((qos as bv8) << 1) | (Bit(retain) as bv8)) as int
  }

  /**
   * PUBLISH variable header: the length-prefixed topic, then the packet
   * identifier when QoS is above AT_MOST_ONCE. A topic with a wildcard and
   * a zero identifier at QoS 1 or more are refused.
   */
  function PublishVariableHeader(b: Body, packageIdentifier: int): Result<bytes>
    requires b.Publish?
  {
    if HasWildcards(b.topicName) then Err(TopicHasWildcards)
    else if SignedByte(b.qos) > AT_MOST_ONCE && packageIdentifier == 0 then Err(ZeroPackageIdentifier)
    else if SignedByte(b.qos) > AT_MOST_ONCE then
      Ok(LengthPrefixed(b.topicName) + [MSB(packageIdentifier), LSB(packageIdentifier)])
    else Ok(LengthPrefixed(b.topicName))
  }

  /** The SUBSCRIBE payload entries: each filter length-prefixed, followed by its QoS octet. */
  function SubscriptionEntries(filters: seq<bytes>, qoss: seq<byte>): bytes
    requires |filters| == |qoss|
  {
    if |filters| == 0 then []
    else LengthPrefixed(filters[0]) + [qoss[0]] + SubscriptionEntries(filters[1..], qoss[1..])
  }

  /** The UNSUBSCRIBE payload entries: each filter length-prefixed. */
  function FilterEntries(filters: seq<bytes>): bytes
  {
    if |filters| == 0 then [] else LengthPrefixed(filters[0]) + FilterEntries(filters[1..])
  }

  /** SUBSCRIBE payload: at least one filter and one QoS, as many of each. */
  function SubscribePayload(filters: seq<bytes>, qoss: seq<byte>): Result<bytes>
  {
    if |filters| == 0 || |qoss| == 0 then Err(NoTopicFilters)
    else if |filters| != |qoss| then Err(FilterCountMismatch)
    else Ok(SubscriptionEntries(filters, qoss))
  }

  /** UNSUBSCRIBE payload: at least one filter. */
  function UnsubscribePayload(filters: seq<bytes>): Result<bytes>
  {
    if |filters| == 0 then Err(NoTopicFilters) else Ok(FilterEntries(filters))
  }

  /** What `generatePayload()` returns; `None` is its `null`. */
  function PayloadOf(f: Fields): Result<Option<bytes>>
  {
    var b := f.body;
    if b.Connect? then
      (match ConnectPayload(b) case Ok(p) => Ok(Some(p)) case Err(e) => Err(e))
    else if b.Publish? then Ok(f.payload)
    else if b.Subscribe? then
      (match SubscribePayload(b.topicFilters, b.qoss) case Ok(p) => Ok(Some(p)) case Err(e) => Err(e))
    else if b.Unsubscribe? then
      (match UnsubscribePayload(b.topicFilters) case Ok(p) => Ok(Some(p)) case Err(e) => Err(e))
    else if !Generates(b) then Ok(None)
    else Ok(Some([]))
  }

  /** The two-octet packet identifier: its low 16 bits, big-endian. */
  function IdentifierOctets(packageIdentifier: int): bytes
  {
    [MSB(packageIdentifier), LSB(packageIdentifier)]
  }

  /** What `generateVariableHeader()` returns; `None` is its `null`. */
  function VariableHeaderOf(f: Fields): Result<Option<bytes>>
  {
    var b := f.body;
    if b.Connect? then Ok(Some(ConnectVariableHeader(b)))
    else if b.Publish? then
      (match PublishVariableHeader(b, f.packageIdentifier) case Ok(v) => Ok(Some(v)) case Err(e) => Err(e))
    else if b.Puback? || b.Pubrec? || b.Pubrel? || b.Subscribe? || b.Unsubscribe? then
      Ok(Some(IdentifierOctets(f.packageIdentifier)))
    else if !Generates(b) then Ok(None)
    else Ok(Some([]))
  }

  /**
   * The first octet of the fixed header: the type nibble, then the
   * PUBLISH flags, the reserved bits 0010 of PUBREL, SUBSCRIBE and
   * UNSUBSCRIBE, or 0000.
   */
  function FirstOctet(packetType: byte, b: Body): byte
  {
    if b.Publish? then PublishFixedByte(packetType, b.dup, b.qos, b.retain)
    else if b.Pubrel? || b.Subscribe? || b.Unsubscribe? then (((packetType as bv8) << 4) | 2) as int
    else ((packetType as bv8) << 4) as int
  }

  /**
   * What `generateFixedHeader()` returns: the first octet and the
   * remaining length |variableHeader| + |payload| of the buffers already
   * stored. Using a buffer that is null is a `NullPointerException`.
   */
  function FixedHeaderOf(f: Fields): Result<Option<bytes>>
  {
    if !Generates(f.body) then Ok(None)
    else if f.variableHeader.None? || f.payload.None? then Err(NullReference)
    else Ok(Some([FirstOctet(f.packetType, f.body)] + EncodeRL(|f.variableHeader.value| + |f.payload.value|)))
  }

  /** The state after `generateFixedHeader()`: it records the remaining length it wrote. */
  function AfterFixedHeader(f: Fields): Fields
  {
    if Generates(f.body) && f.variableHeader.Some? && f.payload.Some?
    then f.(remainingLength := |f.variableHeader.value| + |f.payload.value|)
    else f
  }

  /**
   * `get()`: generate and store the payload, then the variable header,
   * then the fixed header, and answer their concatenation. An exception
   * leaves the fields stored so far in place.
   */
  function GetOf(f: Fields): (Result<bytes>, Fields)
  {
    match PayloadOf(f)
    case Err(e) => (Err(e), f)
    case Ok(pl) =>
      var f1 := f.(payload := pl);
      match VariableHeaderOf(f1)
      case Err(e) => (Err(e), f1)
      case Ok(vh) =>
        var f2 := f1.(variableHeader := vh);
        match FixedHeaderOf(f2)
        case Err(e) => (Err(e), f2)
        case Ok(fh) =>
          var f3 := AfterFixedHeader(f2).(fixedHeader := fh);
          if fh.None? || vh.None? || pl.None? then (Err(NullReference), f3)
          else (Ok(fh.value + vh.value + pl.value), f3)
  }
}
