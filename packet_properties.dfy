/**
 * What the generators promise: the bit layout of the CONNECT flags and of
 * the PUBLISH first octet, the reserved bits of the fixed header, the
 * layout of the CONNECT variable header, the contents of the CONNECT,
 * SUBSCRIBE and UNSUBSCRIBE payloads (checked against reference readers
 * of those payloads), their error conditions, and the frame `get()`
 * assembles.
 */
module PacketProperties {
  import opened Wire
  import opened Constants
  import opened Helper
  import opened RemainingLength
  import opened Packets

  // ---------------------------------------------------------------------
  // Flag octets
  // ---------------------------------------------------------------------

  /**
   * The CONNECT flags octet, for a will QoS of at most 3, is the sum of
   * its fields at their positions, with bit 0 clear.
   */
  lemma ConnectFlagsLayout(username: bool, password: bool, willRetain: bool, willQoS: byte,
                           willBit: bool, cleanSession: bool)
    ensures willQoS < 4 ==>
      ConnectFlagsByte(username, password, willRetain, willQoS, willBit, cleanSession)
        == 128 * Bit(username) + 64 * Bit(password) + 32 * Bit(willRetain) + 8 * willQoS
           + 4 * Bit(willBit) + 2 * Bit(cleanSession)
  {
  }

  /**
   * Each field of a CONNECT body sits in its own bit of the flags octet;
   * the will-flag bit is `willRetain && willFlag`, so a will set without
   * the retain flag goes into the payload while the flags announce none.
   */
  lemma ConnectWillBit(b: Body)
    requires b.Connect?
    ensures BitSet(ConnectFlags(b), 2) <==> b.willRetain && b.willFlag
    ensures BitSet(ConnectFlags(b), 1) <==> b.cleanSession
    ensures !BitSet(ConnectFlags(b), 0)
    ensures b.willQoS < 4 ==> (BitSet(ConnectFlags(b), 5) <==> b.willRetain)
    ensures b.willQoS < 4 ==> (BitSet(ConnectFlags(b), 6) <==> b.password.Some?)
    ensures b.willQoS < 4 ==> (BitSet(ConnectFlags(b), 7) <==> b.username.Some?)
  {
    FlagsByteLowBits(b.username.Some?, b.password.Some?, b.willRetain, b.willQoS,
                     b.willRetain && b.willFlag, b.cleanSession);
    if b.willQoS < 4 {
      FlagsByteHighBits(b.username.Some?, b.password.Some?, b.willRetain, b.willQoS,
                        b.willRetain && b.willFlag, b.cleanSession);
    }
  }

  /** The flags octet as a bit-vector, whatever the QoS. */
  lemma FlagsByteVector(username: bool, password: bool, willRetain: bool, willQoS: byte, willBit: bool, cleanSession: bool)
    ensures ConnectFlagsByte(username, password, willRetain, willQoS, willBit, cleanSession) as bv8
         == ((Bit(username) as bv8) << 7) | ((Bit(password) as bv8) << 6) | ((Bit(willRetain) as bv8) << 5)
            | ((willQoS as bv8) << 3) | ((Bit(willBit) as bv8) << 2) | ((Bit(cleanSession) as bv8) << 1)
  {
    var x := ((Bit(username) as bv8) << 7) | ((Bit(password) as bv8) << 6) | ((Bit(willRetain) as bv8) << 5)
            | ((willQoS as bv8) << 3) | ((Bit(willBit) as bv8) << 2) | ((Bit(cleanSession) as bv8) << 1);
    OctetRoundTrip(x);
  }

  /** An octet survives the trip to an integer and back. */
  lemma OctetRoundTrip(x: bv8)
    ensures (x as int) as bv8 == x
  {
  }

  /** Bits 2, 1 and 0 of the flags octet: will bit, clean session, reserved. */
  lemma FlagsByteLowBits(username: bool, password: bool, willRetain: bool, willQoS: byte, willBit: bool, cleanSession: bool)
    ensures BitSet(ConnectFlagsByte(username, password, willRetain, willQoS, willBit, cleanSession), 2) <==> willBit
    ensures BitSet(ConnectFlagsByte(username, password, willRetain, willQoS, willBit, cleanSession), 1) <==> cleanSession
    ensures !BitSet(ConnectFlagsByte(username, password, willRetain, willQoS, willBit, cleanSession), 0)
  {
  }

  /** Bits 7, 6 and 5 of the flags octet when the QoS fits its two bits: username, password, will retain. */
  lemma FlagsByteHighBits(username: bool, password: bool, willRetain: bool, willQoS: byte, willBit: bool, cleanSession: bool)
    requires willQoS < 4
    ensures BitSet(ConnectFlagsByte(username, password, willRetain, willQoS, willBit, cleanSession), 7) <==> username
    ensures BitSet(ConnectFlagsByte(username, password, willRetain, willQoS, willBit, cleanSession), 6) <==> password
    ensures BitSet(ConnectFlagsByte(username, password, willRetain, willQoS, willBit, cleanSession), 5) <==> willRetain
  {
  }

  /**
   * The PUBLISH first octet for a type nibble and a QoS of at most 3 is
   * `16 * type + 8 * dup + 2 * QoS + retain`: dup, QoS and retain sit in
   * bits 3, 2..1 and 0.
   */
  lemma PublishFixedByteLayout(packetType: byte, dup: bool, qos: byte, retain: bool)
    requires packetType < 16 && qos < 4
    ensures PublishFixedByte(packetType, dup, qos, retain) == 16 * packetType + 8 * Bit(dup) + 2 * qos + Bit(retain)
  {
    NibbleAsBits(packetType);
    NibbleAsBits(Bit(dup));
    NibbleAsBits(qos);
    NibbleAsBits(Bit(retain));
    FlagBits(Octet(packetType), Octet(Bit(dup)), Octet(qos), Octet(Bit(retain)));
  }

  /** Four fields that fit their places OR together into their weighted sum. */
  lemma FlagBits(t: bv8, d: bv8, q: bv8, r: bv8)
    ensures t < 16 && d < 2 && q < 4 && r < 2 ==>
      ((t << 4) | (d << 3) | (q << 1) | r) as int == t as int * 16 + d as int * 8 + q as int * 2 + r as int
  {
    if t < 16 && d < 2 && q < 4 && r < 2 {
      assert (t << 4) | (d << 3) | (q << 1) | r == t * 16 + d * 8 + q * 2 + r;
    }
  }

  /** The type nibble shifted into the high half, with or without the reserved bits 0010. */
  lemma TypeNibble(packetType: byte)
    requires packetType < 16
    ensures (((packetType as bv8) << 4) | 2) as int == 16 * packetType + 2
    ensures ((packetType as bv8) << 4) as int == 16 * packetType
  {
    var t := packetType as bv8;
    assert t < 16;
    assert (t << 4) | 2 == t * 16 + 2;
    assert (t * 16 + 2) as int == 16 * packetType + 2;
  }

  /** dup set, QoS 1 and retain set give 0x3B. */
  lemma PublishFixedByteExample()
    ensures PublishFixedByte(PUBLISH, true, AT_LEAST_ONCE, true) == 0x3B
  {
  }

  /**
   * The first octet of each fixed header: the type nibble over 0000, the
   * PUBLISH flags, or the reserved bits 0010 that sections 3.6.1, 3.8.1
   * and 3.10.1 of MQTT 3.1.1 require of PUBREL, SUBSCRIBE and UNSUBSCRIBE.
   */
  lemma FirstOctetReservedBits(f: Fields)
    requires f.packetType < 16
    ensures f.body.Pubrel? || f.body.Subscribe? || f.body.Unsubscribe? ==> FirstOctet(f.packetType, f.body) == 16 * f.packetType + 2
    ensures f.body.Publish? && f.body.qos < 4 ==>
      FirstOctet(f.packetType, f.body) == 16 * f.packetType + 8 * Bit(f.body.dup) + 2 * f.body.qos + Bit(f.body.retain)
    ensures !(f.body.Publish? || f.body.Pubrel? || f.body.Subscribe? || f.body.Unsubscribe?) ==>
      FirstOctet(f.packetType, f.body) == 16 * f.packetType
  {
    if f.body.Publish? && f.body.qos < 4 {
      PublishFixedByteLayout(f.packetType, f.body.dup, f.body.qos, f.body.retain);
    }
    TypeNibble(f.packetType);
  }

  // ---------------------------------------------------------------------
  // CONNECT
  // ---------------------------------------------------------------------

  /** The protocol block is 00 04 'M' 'Q' 'T' 'T' 04. */
  lemma ProtocolOctets()
    ensures Protocol() == [0x00, 0x04, 0x4D, 0x51, 0x54, 0x54, 0x04]
  {
  }

  /**
   * Unless it was given its own protocol name, CONNECT's variable header is
   * the 10 octets protocol block, flags, keep-alive MSB and LSB; the
   * older class never writes another protocol name.
   */
  lemma ConnectVariableHeaderLayout(b: Body)
    requires b.Connect? && (b.lineage == Legacy || b.protocolName.None?)
    ensures var vh := ConnectVariableHeader(b);
      |vh| == 10 && vh[..7] == Protocol() && vh[7] == ConnectFlags(b)
      && 256 * (vh[8] as int) + vh[9] as int == b.keepAlive % 65536
  {
    MSBLSBRecompose(b.keepAlive);
  }

  /** The fields a CONNECT payload carries, as a reader of the payload sees them. */
  datatype ConnectContents = ConnectContents(
    clientIdentifier: bytes, willTopic: Option<bytes>, willMessage: Option<bytes>,
    username: Option<bytes>, password: Option<bytes>)

  /** A string the flags announce is read length-prefixed; one they do not is absent. */
  function ReadOptional(present: bool, p: bytes): Option<(Option<bytes>, bytes)>
  {
    if !present then Some((None, p))
    else
      match ReadLengthPrefixed(p)
      case None => None
      case Some((s, rest)) => Some((Some(s), rest))
  }

  /**
   * Reference reader of a CONNECT payload: the fields the flags octet
   * announces, in order, each length-prefixed, and nothing after them.
   */
  function ReadConnectPayload(flags: byte, p: bytes): Option<ConnectContents>
  {
    match ReadLengthPrefixed(p)
    case None => None
    case Some((id, p1)) =>
      match ReadOptional(BitSet(flags, 2), p1)
      case None => None
      case Some((topic, p2)) =>
        match ReadOptional(BitSet(flags, 2), p2)
        case None => None
        case Some((message, p3)) =>
          match ReadOptional(BitSet(flags, 7), p3)
          case None => None
          case Some((user, p4)) =>
            match ReadOptional(BitSet(flags, 6), p4)
            case None => None
            case Some((pass, p5)) =>
              if p5 != [] then None else Some(ConnectContents(id, topic, message, user, pass))
  }

  /** A string that fits a two-octet length prefix (or is absent). */
  predicate Fits(s: Option<bytes>)
  {
    s.Some? ==> |s.value| <= MAX_LENGTH
  }

  /** `generatePayload()` of CONNECT fails exactly in the cases it throws for, in that order. */
  lemma ConnectPayloadErrors(b: Body)
    requires b.Connect?
    ensures ConnectPayload(b) == Err(ClientIdentifierMissing) <==> b.clientIdentifier.None?
    ensures ConnectPayload(b) == Err(ClientIdentifierTooLong) <==>
      b.clientIdentifier.Some? && |b.clientIdentifier.value| > MAX_LENGTH
    ensures ConnectPayload(b).Ok? <==>
      b.clientIdentifier.Some? && Fits(b.clientIdentifier) && Fits(b.password)
      && (b.willFlag ==> b.willTopic.Some? && b.willMessage.Some?)
  {
  }

  /** The CONNECT payload as its five optional parts, will topic and message only with the will flag. */
  lemma ConnectPayloadShape(b: Body)
    requires b.Connect? && ConnectPayload(b).Ok?
    ensures var topic := if b.willFlag then b.willTopic else None;
      var message := if b.willFlag then b.willMessage else None;
      ConnectPayload(b).value
        == LengthPrefixed(b.clientIdentifier.value)
           + (OptionalString(topic) + (OptionalString(message)
           + (OptionalString(b.username) + (OptionalString(b.password) + []))))
  {
  }

  /** An optional string is read back when the flag says it is present and it fits. */
  lemma ReadOptionalInverse(s: Option<bytes>, rest: bytes)
    requires Fits(s)
    ensures ReadOptional(s.Some?, OptionalString(s) + rest) == Some((s, rest))
  {
    if s.Some? {
      ReadLengthPrefixedInverse(s.value, rest);
    } else {
      assert OptionalString(s) + rest == rest;
    }
  }

  /**
   * A reader that follows the flags octet gets back client identifier,
   * will, username and password from the generated payload, provided the
   * strings the code does not check fit their length prefix and the will
   * is not set without will retain.
   */
  lemma ConnectPayloadReadBack(b: Body)
    requires b.Connect? && ConnectPayload(b).Ok? && b.willQoS < 4
    requires b.willFlag ==> b.willRetain && Fits(b.willTopic) && Fits(b.willMessage)
    requires Fits(b.username)
    ensures ReadConnectPayload(ConnectFlags(b), ConnectPayload(b).value)
         == Some(ConnectContents(b.clientIdentifier.value,
                                 if b.willFlag then b.willTopic else None,
                                 if b.willFlag then b.willMessage else None,
                                 b.username, b.password))
  {
    ConnectWillBit(b);
    var topic := if b.willFlag then b.willTopic else None;
    var message := if b.willFlag then b.willMessage else None;
    var p5: bytes := [];
    var p4 := OptionalString(b.password) + p5;
    var p3 := OptionalString(b.username) + p4;
    var p2 := OptionalString(message) + p3;
    var p1 := OptionalString(topic) + p2;
    ConnectPayloadShape(b);
    ReadLengthPrefixedInverse(b.clientIdentifier.value, p1);
    ReadOptionalInverse(topic, p2);
    ReadOptionalInverse(message, p3);
    ReadOptionalInverse(b.username, p4);
    ReadOptionalInverse(b.password, p5);
  }

  /**
   * The library's own default: a will given without will retain is
   * written into the payload but not announced, so a reader that follows
   * the flags misreads the payload.
   */
  lemma ConnectUnannouncedWill()
    ensures var f := NewConnect(Current, Some([0x63]), None, None, false, AT_MOST_ONCE,
                                Some([0x74]), Some([0x6D]), false, 10);
      f.body.willFlag && !BitSet(ConnectFlags(f.body), 2)
      && ConnectPayload(f.body) == Ok([0, 1, 0x63, 0, 1, 0x74, 0, 1, 0x6D])
      && ReadConnectPayload(ConnectFlags(f.body), ConnectPayload(f.body).value) == None
  {
    var f := NewConnect(Current, Some([0x63]), None, None, false, AT_MOST_ONCE,
                        Some([0x74]), Some([0x6D]), false, 10);
    assert f.body == Connect(Current, Some([0x63]), 0, None, false, true, Some([0x74]), Some([0x6D]),
                             AT_MOST_ONCE, None, None, false, 10);
    ConnectWillBit(f.body);
    UnannouncedWillPayload(f.body);
    IdentifierOnlyLeftover(ConnectFlags(f.body), [0, 1, 0x63, 0, 1, 0x74, 0, 1, 0x6D]);
  }

  /** The payload of that CONNECT: the client identifier, the will topic and the will message, each length-prefixed. */
  lemma UnannouncedWillPayload(b: Body)
    requires b == Connect(Current, Some([0x63]), 0, None, false, true, Some([0x74]), Some([0x6D]),
                          AT_MOST_ONCE, None, None, false, 10)
    ensures ConnectPayload(b) == Ok([0, 1, 0x63, 0, 1, 0x74, 0, 1, 0x6D])
  {
    assert LengthPrefixed([0x63]) == [0, 1, 0x63];
    assert LengthPrefixed([0x74]) == [0, 1, 0x74];
    assert LengthPrefixed([0x6D]) == [0, 1, 0x6D];
    assert OptionalString(b.username) == [] && OptionalString(b.password) == [];
    assert ConnectPayload(b).value == LengthPrefixed([0x63]) + (LengthPrefixed([0x74]) + LengthPrefixed([0x6D])) + [] + [];
    assert ConnectPayload(b).value == [0, 1, 0x63, 0, 1, 0x74, 0, 1, 0x6D];
  }

  /** With the will, username and password flags clear, octets after the client identifier make the payload unreadable. */
  lemma IdentifierOnlyLeftover(flags: byte, p: bytes)
    requires !BitSet(flags, 2) && !BitSet(flags, 6) && !BitSet(flags, 7)
    requires |p| >= 2 && 2 + 256 * (p[0] as int) + p[1] as int < |p|
    ensures ReadConnectPayload(flags, p) == None
  {
    var n: int := 256 * (p[0] as int) + p[1] as int;
    assert ReadLengthPrefixed(p) == Some((p[2..2 + n], p[2 + n..]));
  }

  /**
   * The nine-argument constructor ignores its will QoS argument, and the
   * shorter constructors leave the will unset, keep-alive at 10 and clean
   * session off unless asked for.
   */
  lemma ConnectConstructors(lineage: Lineage, id: Option<bytes>, user: Option<bytes>, pass: Option<bytes>,
                            willRetain: bool, q1: byte, q2: byte, topic: Option<bytes>, message: Option<bytes>,
                            cleanSession: bool, keepAlive: int)
    ensures NewConnect(lineage, id, user, pass, willRetain, q1, topic, message, cleanSession, keepAlive)
         == NewConnect(lineage, id, user, pass, willRetain, q2, topic, message, cleanSession, keepAlive)
    ensures var b := NewConnectSession(lineage, id, user, pass, cleanSession).body;
      !b.willFlag && !b.willRetain && b.keepAlive == 10 && b.cleanSession == cleanSession
      && b.clientIdentifier == id && b.username == user && b.password == pass
    ensures !NewConnectCredentials(lineage, id, user, pass).body.cleanSession
    ensures NewConnectIdentifier(lineage, id).body.username.None? && NewConnectIdentifier(lineage, id).body.password.None?
    ensures NewConnectDefault(lineage).body.clientIdentifier == Some([])
  {
  }

  // ---------------------------------------------------------------------
  // SUBSCRIBE and UNSUBSCRIBE payloads
  // ---------------------------------------------------------------------

  /** Reference reader of SUBSCRIBE entries: length-prefixed filter, QoS octet, until the end. */
  function ReadSubscriptions(p: bytes): Option<(seq<bytes>, seq<byte>)>
    decreases |p|
  {
    if |p| == 0 then Some(([], []))
    else
      match ReadLengthPrefixed(p)
      case None => None
      case Some((filter, rest)) =>
        if |rest| == 0 then None
        else
          match ReadSubscriptions(rest[1..])
          case None => None
          case Some((fs, qs)) => Some(([filter] + fs, [rest[0]] + qs))
  }

  /** Reference reader of UNSUBSCRIBE entries: length-prefixed filters until the end. */
  function ReadFilters(p: bytes): Option<seq<bytes>>
    decreases |p|
  {
    if |p| == 0 then Some([])
    else
      match ReadLengthPrefixed(p)
      case None => None
      case Some((filter, rest)) =>
        match ReadFilters(rest)
        case None => None
        case Some(fs) => Some([filter] + fs)
  }

  predicate AllFit(filters: seq<bytes>)
  {
    forall k :: 0 <= k < |filters| ==> |filters[k]| <= MAX_LENGTH
  }

  /** Reading the SUBSCRIBE entries back gives the filters and QoS octets, in order. */
  lemma {:induction false} SubscriptionEntriesReadBack(filters: seq<bytes>, qoss: seq<byte>)
    requires |filters| == |qoss| && AllFit(filters)
    ensures ReadSubscriptions(SubscriptionEntries(filters, qoss)) == Some((filters, qoss))
    decreases |filters|
  {
    if |filters| > 0 {
      var tail := SubscriptionEntries(filters[1..], qoss[1..]);
      var p := SubscriptionEntries(filters, qoss);
      assert p == LengthPrefixed(filters[0]) + ([qoss[0]] + tail);
      ReadLengthPrefixedInverse(filters[0], [qoss[0]] + tail);
      assert ([qoss[0]] + tail)[1..] == tail;
      SubscriptionEntriesReadBack(filters[1..], qoss[1..]);
      assert [filters[0]] + filters[1..] == filters;
      assert [qoss[0]] + qoss[1..] == qoss;
    }
  }

  /** Reading the UNSUBSCRIBE entries back gives the filters, in order. */
  lemma {:induction false} FilterEntriesReadBack(filters: seq<bytes>)
    requires AllFit(filters)
    ensures ReadFilters(FilterEntries(filters)) == Some(filters)
    decreases |filters|
  {
    if |filters| > 0 {
      ReadLengthPrefixedInverse(filters[0], FilterEntries(filters[1..]));
      FilterEntriesReadBack(filters[1..]);
      assert [filters[0]] + filters[1..] == filters;
    }
  }

  /** Total size of the SUBSCRIBE entries: 3 octets of overhead per filter. */
  function EntriesSize(filters: seq<bytes>, overhead: nat): nat
  {
    if |filters| == 0 then 0 else |filters[0]| + overhead + EntriesSize(filters[1..], overhead)
  }

  lemma {:induction false} EntriesLength(filters: seq<bytes>, qoss: seq<byte>)
    requires |filters| == |qoss|
    ensures |SubscriptionEntries(filters, qoss)| == EntriesSize(filters, 3)
    ensures |FilterEntries(filters)| == EntriesSize(filters, 2)
    decreases |filters|
  {
    if |filters| > 0 {
      EntriesLength(filters[1..], qoss[1..]);
    }
  }

  /**
   * SUBSCRIBE refuses no filters or no QoS octets, then lists of different
   * lengths; filters are not checked for wildcards. UNSUBSCRIBE refuses
   * only an empty list.
   */
  lemma SubscribePayloadErrors(filters: seq<bytes>, qoss: seq<byte>)
    ensures SubscribePayload(filters, qoss) == Err(NoTopicFilters) <==> |filters| == 0 || |qoss| == 0
    ensures SubscribePayload(filters, qoss) == Err(FilterCountMismatch) <==>
      |filters| > 0 && |qoss| > 0 && |filters| != |qoss|
    ensures SubscribePayload(filters, qoss).Ok? <==> 0 < |filters| == |qoss|
    ensures UnsubscribePayload(filters).Ok? <==> |filters| > 0
  {
  }

  /** A wildcard filter is accepted by SUBSCRIBE, unlike a wildcard PUBLISH topic. */
  lemma SubscribeAcceptsWildcards()
    ensures SubscribePayload([[HASH]], [AT_MOST_ONCE]) == Ok([0, 1, HASH, AT_MOST_ONCE])
    ensures PublishVariableHeader(Publish(false, AT_MOST_ONCE, false, [HASH]), 0) == Err(TopicHasWildcards)
  {
    assert LengthPrefixed([HASH]) == [0, 1, HASH];
    var filters: seq<bytes> := [[HASH]];
    var qoss: seq<byte> := [AT_MOST_ONCE];
    assert SubscriptionEntries(filters[1..], qoss[1..]) == [];
    var expected: bytes := [0, 1, HASH, AT_MOST_ONCE];
    assert SubscriptionEntries(filters, qoss) == [0, 1, HASH] + [AT_MOST_ONCE] + [] == expected;
  }

  // ---------------------------------------------------------------------
  // PUBLISH variable header
  // ---------------------------------------------------------------------

  /**
   * PUBLISH variable header: refused for a wildcard or for identifier 0
   * at QoS 1..127 (as a signed byte); otherwise the length-prefixed topic,
   * followed by the identifier octets exactly when QoS is above 0.
   */
  lemma PublishVariableHeaderContents(b: Body, id: int)
    requires b.Publish?
    ensures PublishVariableHeader(b, id) == Err(TopicHasWildcards) <==> HasWildcards(b.topicName)
    ensures PublishVariableHeader(b, id) == Err(ZeroPackageIdentifier) <==>
      !HasWildcards(b.topicName) && 0 < b.qos < 128 && id == 0
    ensures PublishVariableHeader(b, id).Ok? ==>
      var vh := PublishVariableHeader(b, id).value;
      vh[..|b.topicName| + 2] == LengthPrefixed(b.topicName)
      && |vh| == |b.topicName| + (if 0 < b.qos < 128 then 4 else 2)
      && (0 < b.qos < 128 ==> 256 * (vh[|vh| - 2] as int) + vh[|vh| - 1] as int == id % 65536)
  {
    MSBLSBRecompose(id);
  }

  // ---------------------------------------------------------------------
  // get()
  // ---------------------------------------------------------------------

  /**
   * `get()` of a packet the client sends, when it succeeds, answers the
   * fixed header, variable header and payload back to back. It stores the
   * three in their fields, the fixed header is the first octet followed
   * by the remaining length |variableHeader| + |payload|, and that length
   * is recorded too. Nothing else changes.
   */
  lemma GetFrame(f: Fields)
    requires GetOf(f).0.Ok?
    ensures var (r, g) := GetOf(f);
      g.payload.Some? && g.variableHeader.Some? && g.fixedHeader.Some?
      && r.value == g.fixedHeader.value + g.variableHeader.value + g.payload.value
      && g.fixedHeader.value == [FirstOctet(f.packetType, f.body)] + EncodeRL(|g.variableHeader.value| + |g.payload.value|)
      && g.remainingLength == |g.variableHeader.value| + |g.payload.value|
      && g.payload == PayloadOf(f).value
      && g.variableHeader == VariableHeaderOf(f.(payload := g.payload)).value
      && g == f.(payload := g.payload, variableHeader := g.variableHeader, fixedHeader := g.fixedHeader,
                 remainingLength := g.remainingLength)
  {
  }

  /**
   * `get()` when both generators return a buffer: the frame and the state
   * follow from the payload and variable header alone.
   */
  lemma GetFromParts(f: Fields, p: bytes, v: bytes)
    requires Generates(f.body)
    requires PayloadOf(f) == Ok(Some(p)) && VariableHeaderOf(f.(payload := Some(p))) == Ok(Some(v))
    ensures GetOf(f).0 == Ok([FirstOctet(f.packetType, f.body)] + EncodeRL(|v| + |p|) + v + p)
    ensures GetOf(f).1 == f.(payload := Some(p), variableHeader := Some(v),
                             fixedHeader := Some([FirstOctet(f.packetType, f.body)] + EncodeRL(|v| + |p|)), remainingLength := |v| + |p|)
  {
    var f2 := f.(payload := Some(p), variableHeader := Some(v));
    var fh := [FirstOctet(f.packetType, f.body)] + EncodeRL(|v| + |p|);
    FixedHeaderSteps(f2, p, v);
    GetSteps(f, Some(p), Some(v), Some(fh));
    assert GetOf(f).0 == Ok(fh + v + p);
    assert GetOf(f).1 == f2.(remainingLength := |v| + |p|).(fixedHeader := Some(fh));
  }

  /** `generateFixedHeader()` once both buffers are in place. */
  lemma FixedHeaderSteps(f: Fields, p: bytes, v: bytes)
    requires Generates(f.body) && f.payload == Some(p) && f.variableHeader == Some(v)
    ensures FixedHeaderOf(f) == Ok(Some([FirstOctet(f.packetType, f.body)] + EncodeRL(|v| + |p|)))
    ensures AfterFixedHeader(f) == f.(remainingLength := |v| + |p|)
  {
  }

  /** `get()` unfolded once all three generators have answered. */
  lemma GetSteps(f: Fields, pl: Option<bytes>, vh: Option<bytes>, fh: Option<bytes>)
    requires PayloadOf(f) == Ok(pl) && VariableHeaderOf(f.(payload := pl)) == Ok(vh)
    requires FixedHeaderOf(f.(payload := pl, variableHeader := vh)) == Ok(fh)
    ensures GetOf(f).1 == AfterFixedHeader(f.(payload := pl, variableHeader := vh)).(fixedHeader := fh)
    ensures GetOf(f).0 == if fh.None? || vh.None? || pl.None? then Err(NullReference) else Ok(fh.value + vh.value + pl.value)
  {
    assert f.(payload := pl).(variableHeader := vh) == f.(payload := pl, variableHeader := vh);
  }

  /**
   * The packets the client only receives cannot be encoded: `get()` runs
   * into the null its generators return, after clearing all three buffers.
   */
  lemma GetReceivedOnly(f: Fields)
    requires !Generates(f.body)
    ensures GetOf(f) == (Err(NullReference), f.(payload := None, variableHeader := None, fixedHeader := None))
  {
  }

  /** A generator that throws leaves everything generated before it in place, and nothing after. */
  lemma GetFailureOrder(f: Fields)
    ensures PayloadOf(f).Err? ==> GetOf(f) == (Err(PayloadOf(f).error), f)
    ensures PayloadOf(f).Ok? && VariableHeaderOf(f.(payload := PayloadOf(f).value)).Err? ==>
      GetOf(f) == (Err(VariableHeaderOf(f.(payload := PayloadOf(f).value)).error), f.(payload := PayloadOf(f).value))
  {
  }

  /**
   * The acknowledgements are `[type << 4 | flags, 2, MSB(id), LSB(id)]`:
   * 0x40 for PUBACK, 0x50 for PUBREC and 0x62 for PUBREL, with remaining
   * length 2.
   */
  lemma AcknowledgementFrames(b: Body, id: int)
    requires b.Puback? || b.Pubrec? || b.Pubrel?
    ensures var (r, g) := GetOf(NewAcknowledgement(b, id));
      r == Ok([if b.Puback? then 0x40 else if b.Pubrec? then 0x50 else 0x62, 0x02, MSB(id), LSB(id)])
      && g.remainingLength == 2 && g.payload == Some([])
  {
    var f := NewAcknowledgement(b, id);
    TypeNibble(f.packetType);
    assert PayloadOf(f) == Ok(Some([]));
    assert VariableHeaderOf(f.(payload := Some([]))) == Ok(Some([MSB(id), LSB(id)]));
    var first: byte := if b.Puback? then 0x40 else if b.Pubrec? then 0x50 else 0x62;
    assert FirstOctet(f.packetType, f.body) == first;
    GetFromParts(f, [], [MSB(id), LSB(id)]);
    assert EncodeRL(2) == [2];
    assert [first] + EncodeRL(2) + [MSB(id), LSB(id)] + [] == [first, 0x02, MSB(id), LSB(id)];
  }

  /** SUBSCRIBE starts with 0x82 and carries the identifier octets, then the subscription entries. */
  lemma SubscribeFrame(filters: seq<bytes>, qoss: seq<byte>, id: int)
    requires 0 < |filters| == |qoss|
    ensures var (r, g) := GetOf(NewSubscribe(filters, qoss, id));
      r.Ok? && r.value[0] == 0x82
      && g.variableHeader == Some([MSB(id), LSB(id)])
      && g.payload == Some(SubscriptionEntries(filters, qoss))
      && g.remainingLength == 2 + |SubscriptionEntries(filters, qoss)|
  {
  }

  /** UNSUBSCRIBE starts with 0xA2 and carries the identifier octets, then the filter entries. */
  lemma UnsubscribeFrame(filters: seq<bytes>, id: int)
    requires 0 < |filters|
    ensures var (r, g) := GetOf(NewUnsubscribe(id, filters));
      r.Ok? && r.value[0] == 0xA2
      && g.variableHeader == Some([MSB(id), LSB(id)])
      && g.payload == Some(FilterEntries(filters))
      && g.remainingLength == 2 + |FilterEntries(filters)|
  {
  }

  /** PINGREQ is `C0 00` and DISCONNECT is `E0 00`; both record remaining length 0. */
  lemma EmptyFrames()
    ensures GetOf(NewPingreq()).0 == Ok([0xC0, 0x00]) && GetOf(NewPingreq()).1.remainingLength == 0
    ensures GetOf(NewPingreq()).1.variableHeader == Some([]) && GetOf(NewPingreq()).1.payload == Some([])
    ensures GetOf(NewDisconnect()).0 == Ok([0xE0, 0x00]) && GetOf(NewDisconnect()).1.remainingLength == 0
    ensures GetOf(NewDisconnect()).1.variableHeader == Some([]) && GetOf(NewDisconnect()).1.payload == Some([])
  {
    TypeNibble(PINGREQ);
    TypeNibble(DISCONNECT);
    assert FirstOctet(PINGREQ, Pingreq) == 0xC0 && FirstOctet(DISCONNECT, Disconnect) == 0xE0;
    assert EncodeRL(0) == [0];
    assert PayloadOf(NewPingreq()) == Ok(Some([])) && PayloadOf(NewDisconnect()) == Ok(Some([]));
    GetFromParts(NewPingreq(), [], []);
    GetFromParts(NewDisconnect(), [], []);
    assert [0xC0] + EncodeRL(0) + [] + [] == [0xC0, 0x00];
    assert [0xE0] + EncodeRL(0) + [] + [] == [0xE0, 0x00];
  }

  /** CONNECT starts with 0x10; its remaining length counts variable header and payload. */
  lemma ConnectFrame(f: Fields)
    requires f.packetType == CONNECT && f.body.Connect? && ConnectPayload(f.body).Ok?
    ensures var (r, g) := GetOf(f);
      r.Ok? && r.value[0] == 0x10
      && g.payload == Some(ConnectPayload(f.body).value)
      && g.variableHeader == Some(ConnectVariableHeader(f.body))
      && g.remainingLength == |ConnectVariableHeader(f.body)| + |ConnectPayload(f.body).value|
  {
  }
}
