/**
 * A control packet object: the fields of `MQTTMessage` and of its
 * concrete class, updated in place by the setters, by `get()` and by the
 * three generators it calls, each proved against the functions of
 * `Packets`. The generators write to an output stream, modelled as a
 * sequence they append to; the buffer decoders build a new object.
 */
module Messages {
  import opened Wire
  import opened Constants
  import opened Helper
  import opened RemainingLength
  import opened Packets
  import opened Decoders

  // ---------------------------------------------------------------------
  // Stream writers used by the generators
  // ---------------------------------------------------------------------

  /** CONNECT `generatePayload()`: each check just before the field it guards is written. */
  method WriteConnectPayload(b: Body) returns (r: Result<bytes>)
    requires b.Connect?
    ensures r == ConnectPayload(b)
  {
    if b.clientIdentifier.None? {
      return Err(ClientIdentifierMissing);
    }
    var id := b.clientIdentifier.value;
    if |id| < MIN_LENGTH as int || |id| > MAX_LENGTH {
      return Err(ClientIdentifierTooLong);
    }
    var out := LengthPrefixed(id);
    ghost var will: bytes := [];
    if b.willFlag {
      if b.willTopic.None? {
        return Err(WillTopicMissing);
      }
      out := out + LengthPrefixed(b.willTopic.value);
      if b.willMessage.None? {
        return Err(WillMessageMissing);
      }
      out := out + LengthPrefixed(b.willMessage.value);
      will := LengthPrefixed(b.willTopic.value) + LengthPrefixed(b.willMessage.value);
    }
    assert out == LengthPrefixed(id) + will;
    if b.username.Some? {
      out := out + LengthPrefixed(b.username.value);
    }
    assert out == LengthPrefixed(id) + will + OptionalString(b.username);
    if b.password.Some? {
      var pw := b.password.value;
      if |pw| < MIN_LENGTH as int || |pw| > MAX_LENGTH {
        return Err(PasswordTooLong);
      }
      out := out + LengthPrefixed(pw);
    }
    assert out == LengthPrefixed(id) + will + OptionalString(b.username) + OptionalString(b.password);
    return Ok(out);
  }

  /** CONNECT `generateVariableHeader()`: protocol block, flags octet, keep-alive. */
  method WriteConnectVariableHeader(b: Body) returns (out: bytes)
    requires b.Connect?
    ensures out == ConnectVariableHeader(b)
  {
    if b.lineage == Legacy || b.protocolName.None? {
      out := Protocol();
    } else {
      out := LengthPrefixed(b.protocolName.value) + [VERSION_311];
    }
    var flags := ConnectFlagsByte(b.username.Some?, b.password.Some?, b.willRetain, b.willQoS,
                                  b.willRetain && b.willFlag, b.cleanSession);
    out := out + [flags];
    out := out + [MSB(b.keepAlive), LSB(b.keepAlive)];
  }

  /** PUBLISH `generateVariableHeader()`: the topic checks, the topic, then the identifier. */
  method WritePublishVariableHeader(b: Body, packageIdentifier: int) returns (r: Result<bytes>)
    requires b.Publish?
    ensures r == PublishVariableHeader(b, packageIdentifier)
  {
    if HasWildcards(b.topicName) {
      return Err(TopicHasWildcards);
    }
    var out := LengthPrefixed(b.topicName);
    if SignedByte(b.qos) > AT_MOST_ONCE {
      if packageIdentifier == 0 {
        return Err(ZeroPackageIdentifier);
      }
      out := out + [MSB(packageIdentifier), LSB(packageIdentifier)];
    }
    return Ok(out);
  }

  /** Appending one filter and its QoS octet extends the SUBSCRIBE entries by one entry. */
  lemma {:induction false} SubscriptionEntriesSnoc(filters: seq<bytes>, qoss: seq<byte>, filter: bytes, qos: byte)
    requires |filters| == |qoss|
    ensures SubscriptionEntries(filters + [filter], qoss + [qos])
         == SubscriptionEntries(filters, qoss) + LengthPrefixed(filter) + [qos]
    decreases |filters|
  {
    if |filters| == 0 {
      assert filters + [filter] == [filter];
      assert qoss + [qos] == [qos];
      assert SubscriptionEntries([filter], [qos]) == LengthPrefixed(filter) + [qos] + SubscriptionEntries([], []);
    } else {
      assert (filters + [filter])[1..] == filters[1..] + [filter];
      assert (qoss + [qos])[1..] == qoss[1..] + [qos];
      SubscriptionEntriesSnoc(filters[1..], qoss[1..], filter, qos);
    }
  }

  /** Appending one filter extends the UNSUBSCRIBE entries by one entry. */
  lemma {:induction false} FilterEntriesSnoc(filters: seq<bytes>, filter: bytes)
    ensures FilterEntries(filters + [filter]) == FilterEntries(filters) + LengthPrefixed(filter)
    decreases |filters|
  {
    if |filters| == 0 {
      assert filters + [filter] == [filter];
      assert FilterEntries([filter]) == LengthPrefixed(filter) + FilterEntries([]);
    } else {
      assert (filters + [filter])[1..] == filters[1..] + [filter];
      FilterEntriesSnoc(filters[1..], filter);
    }
  }

  /** SUBSCRIBE `generatePayload()`: the two checks, then the loop over the filters. */
  method WriteSubscribePayload(filters: seq<bytes>, qoss: seq<byte>) returns (r: Result<bytes>)
    ensures r == SubscribePayload(filters, qoss)
  {
    if |filters| <= 0 || |qoss| <= 0 {
      return Err(NoTopicFilters);
    }
    if |filters| != |qoss| {
      return Err(FilterCountMismatch);
    }
    var out := [];
    for i := 0 to |filters|
      invariant out == SubscriptionEntries(filters[..i], qoss[..i])
    {
      SubscriptionEntriesSnoc(filters[..i], qoss[..i], filters[i], qoss[i]);
      assert filters[..i + 1] == filters[..i] + [filters[i]];
      assert qoss[..i + 1] == qoss[..i] + [qoss[i]];
      out := out + [MSB(|filters[i]|), LSB(|filters[i]|)];
      out := out + filters[i];
      out := out + [qoss[i]];
    }
    assert filters[..|filters|] == filters && qoss[..|qoss|] == qoss;
    return Ok(out);
  }

  /** UNSUBSCRIBE `generatePayload()`: the check, then the loop over the filters. */
  method WriteUnsubscribePayload(filters: seq<bytes>) returns (r: Result<bytes>)
    ensures r == UnsubscribePayload(filters)
  {
    if |filters| <= 0 {
      return Err(NoTopicFilters);
    }
    var out := [];
    for i := 0 to |filters|
      invariant out == FilterEntries(filters[..i])
    {
      FilterEntriesSnoc(filters[..i], filters[i]);
      assert filters[..i + 1] == filters[..i] + [filters[i]];
      out := out + [MSB(|filters[i]|), LSB(|filters[i]|)];
      out := out + filters[i];
    }
    assert filters[..|filters|] == filters;
    return Ok(out);
  }

  /**
   * The buffer decoders: octet 0, the remaining-length loop, then the
   * variable header and payload of the packet the decoder is for.
   */
  method DecodeBuffer(kind: DecoderKind, buffer: bytes) returns (r: Result<Fields>)
    ensures r == DecodeOf(kind, buffer)
  {
    if |buffer| == 0 {
      return Err(MalformedBuffer);
    }
    var i := 0;
    var t: byte := buffer[i] / 16;
    i := i + 1;
    if kind.PingrespDecoder? {
      return Ok(Fields(0, 0, None, None, None, t, 0, Pingresp));
    }
    var header := ReadRemainingLength(buffer, i);
    if header.None? {
      return Err(MalformedBuffer);
    }
    var (rl, next) := header.value;
    match kind {
      case ConnectDecoder(lineage) =>
        r := DecodeConnect(buffer, t, rl, next, lineage);
      case PublishDecoder(lineage) =>
        r := DecodePublish(buffer, t, rl, next, lineage);
      case TwoOctetDecoder(packet) =>
        r := DecodeTwoOctet(packet, buffer, t, rl, next);
    }
  }

  // ---------------------------------------------------------------------
  // The packet object
  // ---------------------------------------------------------------------

  class Message {
    var flags: byte
    var packageIdentifier: int
    var fixedHeader: Option<bytes>
    var variableHeader: Option<bytes>
    var payload: Option<bytes>
    var packetType: byte
    var remainingLength: int
    var body: Body

    /** The object's fields as a value. */
    function State(): Fields
      reads this
    {
      Fields(flags, packageIdentifier, fixedHeader, variableHeader, payload, packetType, remainingLength, body)
    }

    /** An object holding the fields one of the constructors of `Packets` gives. */
    constructor (f: Fields)
      ensures State() == f
    {
      flags := f.flags;
      packageIdentifier := f.packageIdentifier;
      fixedHeader := f.fixedHeader;
      variableHeader := f.variableHeader;
      payload := f.payload;
      packetType := f.packetType;
      remainingLength := f.remainingLength;
      body := f.body;
    }

    /** A buffer decoder: the object it builds, or the exception it runs into. */
    static method FromBuffer(kind: DecoderKind, buffer: bytes) returns (r: Result<Message>)
      ensures r.Ok? <==> DecodeOf(kind, buffer).Ok?
      ensures r.Ok? ==> fresh(r.value) && r.value.State() == DecodeOf(kind, buffer).value
      ensures r.Err? ==> r.error == DecodeOf(kind, buffer).error
    {
      var f := DecodeBuffer(kind, buffer);
      if f.Err? {
        return Err(f.error);
      }
      var m := new Message(f.value);
      return Ok(m);
    }

    // Setters of `MQTTMessage`: each changes its own field and nothing else.

    method SetPackageIdentifier(packageIdentifier: int)
      modifies this
      ensures State() == old(State()).(packageIdentifier := packageIdentifier)
    {
      this.packageIdentifier := packageIdentifier;
    }

    method SetFixedHeader(fixedHeader: Option<bytes>)
      modifies this
      ensures State() == old(State()).(fixedHeader := fixedHeader)
    {
      this.fixedHeader := fixedHeader;
    }

    method SetVariableHeader(variableHeader: Option<bytes>)
      modifies this
      ensures State() == old(State()).(variableHeader := variableHeader)
    {
      this.variableHeader := variableHeader;
    }

    method SetPayload(payload: Option<bytes>)
      modifies this
      ensures State() == old(State()).(payload := payload)
    {
      this.payload := payload;
    }

    method SetType(packetType: byte)
      modifies this
      ensures State() == old(State()).(packetType := packetType)
    {
      this.packetType := packetType;
    }

    method SetRemainingLength(remainingLength: int)
      modifies this
      ensures State() == old(State()).(remainingLength := remainingLength)
    {
      this.remainingLength := remainingLength;
    }

    /**
     * CONNECT `setWill`: sets the will flag and replaces topic, message
     * and QoS; the `willRetain` argument is ignored.
     */
    method SetWill(willTopic: Option<bytes>, willMessage: Option<bytes>, willRetain: bool, willQoS: byte)
      requires body.Connect?
      modifies this
      ensures State() == old(State()).(body := old(body).(willFlag := true, willTopic := willTopic,
                                                          willMessage := willMessage, willQoS := willQoS))
    {
      body := body.(willFlag := true, willTopic := willTopic, willMessage := willMessage, willQoS := willQoS);
    }

    /** PUBLISH `setDup()`: marks the message as a duplicate. */
    method SetDup()
      requires body.Publish?
      modifies this
      ensures State() == old(State()).(body := old(body).(dup := true))
    {
      body := body.(dup := true);
    }

    /**
     * PUBLISH `setRetain`. Only the current PUBLISH class has this setter;
     * the older one has `setDup` but no `setRetain`, and a PUBLISH body does
     * not record which of the two classes it comes from.
     */
    method SetRetain(retain: bool)
      requires body.Publish?
      modifies this
      ensures State() == old(State()).(body := old(body).(retain := retain))
    {
      body := body.(retain := retain);
    }

    // The three generators and `get()`.

    /** `generatePayload()` of the object's class; `None` is its `null`. */
    method GeneratePayload() returns (r: Result<Option<bytes>>)
      ensures r == PayloadOf(State())
    {
      match body {
        case Connect(_, _, _, _, _, _, _, _, _, _, _, _, _) =>
          var p := WriteConnectPayload(body);
          if p.Err? {
            return Err(p.error);
          }
          return Ok(Some(p.value));
        case Publish(_, _, _, _) =>
          return Ok(payload);
        case Subscribe(filters, qoss) =>
          var p := WriteSubscribePayload(filters, qoss);
          if p.Err? {
            return Err(p.error);
          }
          return Ok(Some(p.value));
        case Unsubscribe(filters) =>
          var p := WriteUnsubscribePayload(filters);
          if p.Err? {
            return Err(p.error);
          }
          return Ok(Some(p.value));
        case Connack(_, _) =>
          return Ok(None);
        case Unsuback =>
          return Ok(None);
        case Pingresp =>
          return Ok(None);
        case Puback =>
          return Ok(Some([]));
        case Pubrec =>
          return Ok(Some([]));
        case Pubrel =>
          return Ok(Some([]));
        case Pingreq =>
          return Ok(Some([]));
        case Disconnect =>
          return Ok(Some([]));
      }
    }

    /** `generateVariableHeader()` of the object's class; `None` is its `null`. */
    method GenerateVariableHeader() returns (r: Result<Option<bytes>>)
      ensures r == VariableHeaderOf(State())
    {
      match body {
        case Connect(_, _, _, _, _, _, _, _, _, _, _, _, _) =>
          var v := WriteConnectVariableHeader(body);
          return Ok(Some(v));
        case Publish(_, _, _, _) =>
          var v := WritePublishVariableHeader(body, packageIdentifier);
          if v.Err? {
            return Err(v.error);
          }
          return Ok(Some(v.value));
        case Connack(_, _) =>
          return Ok(None);
        case Unsuback =>
          return Ok(None);
        case Pingresp =>
          return Ok(None);
        case Pingreq =>
          return Ok(Some([]));
        case Disconnect =>
          return Ok(Some([]));
        case _ =>
          return Ok(Some([MSB(packageIdentifier), LSB(packageIdentifier)]));
      }
    }

    /**
     * `generateFixedHeader()`: the first octet, then the remaining length
     * |variableHeader| + |payload|, which it also stores.
     */
    method GenerateFixedHeader() returns (r: Result<Option<bytes>>)
      modifies this
      ensures r == FixedHeaderOf(old(State()))
      ensures State() == AfterFixedHeader(old(State()))
    {
      if !Generates(body) {
        return Ok(None);
      }
      var out := [FirstOctet(packetType, body)];
      if variableHeader.None? || payload.None? {
        return Err(NullReference);
      }
      var length := |variableHeader.value| + |payload.value|;
      remainingLength := length;
      var digits := WriteRemainingLength(length);
      out := out + digits;
      return Ok(Some(out));
    }

    /**
     * `get()`: payload, variable header and fixed header, each stored as it
     * is generated, then written out back to back.
     */
    method Get() returns (r: Result<bytes>)
      modifies this
      ensures (r, State()) == GetOf(old(State()))
    {
      var pl := GeneratePayload();
      if pl.Err? {
        return Err(pl.error);
      }
      payload := pl.value;
      var vh := GenerateVariableHeader();
      if vh.Err? {
        return Err(vh.error);
      }
      variableHeader := vh.value;
      var fh := GenerateFixedHeader();
      if fh.Err? {
        return Err(fh.error);
      }
      fixedHeader := fh.value;
      if fixedHeader.None? || variableHeader.None? || payload.None? {
        return Err(NullReference);
      }
      var out := fixedHeader.value;
      out := out + variableHeader.value;
      out := out + payload.value;
      return Ok(out);
    }
  }
}
