# Qatja MQTT 3.1.1 packet codec, modelled in Dafny

Qatja is a Java MQTT 3.1.1 client library. This project models its codec
core:

- the constants;
- the byte helpers;
- the Remaining Length variable-length integer;
- the control packet classes, with their constructors, setters, the three
  generators (`generatePayload`, `generateVariableHeader`,
  `generateFixedHeader`), `get()` and the buffer decoders;
- the packet-identifier registry `MQTTIdentifierHelper`.

The project then proves what the encoders write, what the decoders read back,
and where the two disagree.

The repository has two copies of most packet classes. The current ones live in
`se.wetcat`, the older ones in `se.goransson`. Both are modelled. Only two
places differ in behaviour, and `Packets.Lineage` chooses between the copies:

- the CONNECT variable header;
- the PUBLISH decoder.

How the Java is represented:

- An octet is its unsigned bit pattern (`Wire.byte`, 0..255).
- Java's sign extension of `byte` is written out where the code relies on it:
  `SignedByte`, `LowByteDecode` for `(hi >> 8 & 0xFF) | (lo & 0xFF)`, and
  `SignedOr` for `a | b`.
- A Java `String` is its byte sequence.
- `null` is `None`.
- An `MQTTException` or runtime exception is an `Err` of `Wire.Error`.

Every packet object is one `Messages.Message` class. It has the base fields of
`MQTTMessage` plus a `Body` value holding the fields of the concrete class. Its
methods are proved against pure functions of a `Packets.Fields` snapshot:

- `PayloadOf`, `VariableHeaderOf` and `FixedHeaderOf` for the three generators;
- `GetOf` for `get()`;
- `DecodeOf` for the decoders.

The loops of the source are methods with loop invariants:

- the remaining-length encode and decode loops (`RemainingLength`);
- the SUBSCRIBE and UNSUBSCRIBE payload loops (`Messages`);
- the identifier scan (`Registry`).

Modules, in dependency order:

- `Wire`
- `Constants`
- `Helper`
- `RemainingLength`
- `Packets`
- `Decoders`
- `Messages`
- `Registry`
- `PacketProperties` (encoder facts)
- `RoundTrip` (encoder against decoder)

## Model

| member | source | states |
|---|---|---|
| Constants.PacketTypesConsecutive | src/main/java/se/wetcat/qatja/MQTTConstants.java:31-96 | The fourteen packet types are 1..14 in order. Each fits the four-bit type nibble. A value is a packet type exactly when it lies in 1..14 |
| Constants.PacketTypesDistinct | src/main/java/se/wetcat/qatja/MQTTConstants.java:31-96 | No two packet types share a code |
| Constants.QoSLevels | src/main/java/se/wetcat/qatja/MQTTConstants.java:101-111 | The QoS levels are exactly the values below 3 of the two QoS bits, one per level in increasing order. So 3 is never a QoS level |
| Constants.ReturnCodes | src/main/java/se/wetcat/qatja/MQTTConstants.java:116-142 | The six CONNACK codes are pairwise distinct, one per reason. Together they are exactly 0..5, the codes section 3.2.2.3 of MQTT 3.1.1 does not reserve |
| Constants.SubackCodes | src/main/java/se/wetcat/qatja/MQTTConstants.java:147-150 | Each SUBACK success code is the QoS it grants. The failure octet 0x80 is -128 as a Java byte, so it differs from every QoS level, each of which is non-negative as a Java byte |
| Helper.StringLengthBounds | src/main/java/se/wetcat/qatja/MQTTConstants.java:155-160 | MIN_LENGTH..MAX_LENGTH are exactly the integers `n` with `256*MSB(n) + LSB(n) == n`. So MAX_LENGTH is the largest length a two-octet prefix carries without loss |
| Helper.HasWildcardsConcat | src/main/java/se/wetcat/qatja/MQTTHelper.java:67-70 | A concatenation has a wildcard iff one of its parts has one. Inserting '/' never adds one |
| Helper.MSBLSBRecompose | src/main/java/se/wetcat/qatja/MQTTHelper.java:102-114 | `256*MSB(v) + LSB(v)` is `v mod 65536`, and is `v` itself for 0..65535 |
| Helper.MSBLSBInjective | src/main/java/se/wetcat/qatja/MQTTHelper.java:102-114 | Two ints have the same MSB and LSB iff they agree modulo 65536 |
| Helper.LengthMSB | src/main/java/se/wetcat/qatja/MQTTHelper.java:82-84 | `MSB(byte[])` is the int `MSB` of the buffer's length |
| Helper.LengthLSB | src/main/java/se/wetcat/qatja/MQTTHelper.java:92-94 | `LSB(byte[])` is the int `LSB` of the buffer's length |
| Helper.LengthPrefixed | src/main/java/se/wetcat/qatja/MQTTHelper.java:82-94 | A length-prefixed string is two octets longer than the string, and the string follows the prefix unchanged |
| Helper.ReadLengthPrefixedInverse | src/main/java/se/wetcat/qatja/MQTTHelper.java:82-94 | A reader of the two-octet length gets the string, then the rest of the buffer, back exactly when the string has at most 65535 bytes |
| Helper.DecodeType | src/main/java/se/wetcat/qatja/MQTTHelper.java:130-132 | On a non-empty buffer the result is the high nibble of octet 0, in 0..15. An empty buffer is an error |
| Helper.DecodeTypeInverse | src/main/java/se/wetcat/qatja/MQTTHelper.java:130-132 | `decodeType` reads back the type written as `type << 4 \| flags` |
| Helper.DecodePackageNameDistinct | src/main/java/se/wetcat/qatja/MQTTHelper.java:150-183 | Types 1..14 get pairwise different names. Every other value is "Unknown message type" |
| RemainingLength.EncodeRLDigits | src/main/java/se/wetcat/qatja/messages/MQTTConnect.java:171-179 | Every octet but the last has bit 7 set and the last has it clear. The first octet's low seven bits are `n mod 128` |
| RemainingLength.WriteRemainingLength | src/main/java/se/wetcat/qatja/messages/MQTTConnect.java:171-179 | The do-while loop writes the base-128 digits `EncodeRL(length)` |
| RemainingLength.ReadRemainingLength | src/main/java/se/wetcat/qatja/messages/MQTTConnect.java:130-138 | The do-while loop returns the value `DecodeRL` reads and the offset after its last digit. It fails when the buffer ends mid-number |
| RemainingLength.DecodeEncodeRL | src/main/java/se/wetcat/qatja/messages/MQTTConnect.java:130-138 | Decoding at the start of an encoding embedded in any buffer gives back `n` and the offset just past the encoding |
| RemainingLength.EncodeRLSize | src/main/java/se/wetcat/qatja/messages/MQTTConnect.java:171-179 | 1, 2, 3 or 4 octets exactly below 128, 16384, 2097152 and up to 268435455 |
| RemainingLength.EncodeRLBeyondLimit | src/main/java/se/wetcat/qatja/messages/MQTTConnect.java:171-179 | One past 268435455 is written as five octets, with no error |
| RemainingLength.EncodeRLExamples | src/main/java/se/wetcat/qatja/messages/MQTTConnect.java:171-179 | 0, 127, 128, 16383, 16384 and 268435455 encode as the standard's examples |
| Packets.NewConnect | src/main/java/se/wetcat/qatja/messages/MQTTConnect.java:87-106 | The will flag is set iff both will topic and will message are given. The will QoS is AT_MOST_ONCE whatever was passed |
| PacketProperties.ConnectConstructors | src/main/java/se/wetcat/qatja/messages/MQTTConnect.java:64-106 | The will QoS argument is ignored. The shorter constructors set no will, keep-alive 10 and clean session off, and keep identifier and credentials as given; the no-argument one uses the empty identifier |
| Packets.NewPublish | src/main/java/se/wetcat/qatja/messages/MQTTPublish.java:54-79 | The type is PUBLISH. Topic, payload and QoS are kept. dup and retain are off. The identifier is taken only for a QoS above 0 as a signed byte |
| Packets.NewAcknowledgement | src/main/java/se/goransson/qatja/messages/MQTTPuback.java:34-37 | PUBACK, PUBREC and PUBREL carry their own type and the given identifier |
| Packets.NewSubscribe | src/main/java/se/wetcat/qatja/messages/MQTTSubscribe.java:44-50 | The type is SUBSCRIBE. Filters, QoS list and identifier are kept as given |
| Packets.NewUnsubscribe | src/main/java/se/wetcat/qatja/messages/MQTTUnsubscribe.java:39-53 | The type is UNSUBSCRIBE. Identifier and filters are kept as given |
| Packets.NewPingreq | src/main/java/se/wetcat/qatja/messages/MQTTPingreq.java:40-49 | The new message has type PINGREQ |
| Packets.NewDisconnect | src/main/java/se/wetcat/qatja/messages/MQTTDisconnect.java:39-41 | The new message has type DISCONNECT |
| Packets.Protocol | src/main/java/se/wetcat/qatja/messages/MQTTMessage.java:140-152 | The protocol block is the name plus three octets |
| PacketProperties.ProtocolOctets | src/main/java/se/goransson/qatja/messages/MQTTMessage.java:161-173 | The protocol block is `00 04 'M' 'Q' 'T' 'T' 04` |
| Messages.WriteConnectPayload | src/main/java/se/wetcat/qatja/messages/MQTTConnect.java:229-302 | The stream-writing payload generator gives the reference `ConnectPayload`: the same octets, or the same error in the same order of checks |
| Messages.WriteConnectVariableHeader | src/main/java/se/wetcat/qatja/messages/MQTTConnect.java:185-226 | Writes the reference CONNECT variable header: the given protocol name or `getProtocol()`, then flags and keep-alive |
| Messages.WritePublishVariableHeader | src/main/java/se/wetcat/qatja/messages/MQTTPublish.java:180-205 | Writes the reference PUBLISH variable header, or refuses with the same error |
| Messages.WriteSubscribePayload | src/main/java/se/wetcat/qatja/messages/MQTTSubscribe.java:89-112 | The checks and the loop over the filters give `SubscribePayload` |
| Messages.WriteUnsubscribePayload | src/main/java/se/wetcat/qatja/messages/MQTTUnsubscribe.java:91-107 | The check and the loop over the filters give `UnsubscribePayload` |
| Messages.DecodeBuffer | src/main/java/se/wetcat/qatja/messages/MQTTConnack.java:43-74 | A buffer decoder, with its remaining-length loop, builds exactly the fields `DecodeOf` describes, or fails where it does |
| Messages.Message.constructor | src/main/java/se/wetcat/qatja/messages/MQTTMessage.java:33-42 | The new object holds the given fields |
| Messages.Message.FromBuffer | src/main/java/se/wetcat/qatja/messages/MQTTUnsuback.java:31-33 | A fresh object holding the decoded fields when the decoder succeeds. Otherwise its error |
| Messages.Message.SetPackageIdentifier | src/main/java/se/wetcat/qatja/messages/MQTTMessage.java:61-63 | Only the packet identifier changes, to the value given |
| Messages.Message.SetFixedHeader | src/main/java/se/wetcat/qatja/messages/MQTTMessage.java:76-78 | Only the fixed header changes |
| Messages.Message.SetVariableHeader | src/main/java/se/wetcat/qatja/messages/MQTTMessage.java:91-93 | Only the variable header changes |
| Messages.Message.SetPayload | src/main/java/se/wetcat/qatja/messages/MQTTMessage.java:106-108 | Only the payload changes |
| Messages.Message.SetType | src/main/java/se/wetcat/qatja/messages/MQTTMessage.java:121-123 | Only the type changes |
| Messages.Message.SetRemainingLength | src/main/java/se/wetcat/qatja/messages/MQTTMessage.java:136-138 | Only the remaining length changes |
| Messages.Message.SetWill | src/se/goransson/qatja/messages/MQTTConnect.java:108-114 | Sets the will flag and replaces will topic, message and QoS. Will retain and every other field are unchanged |
| Messages.Message.SetDup | src/main/java/se/wetcat/qatja/messages/MQTTPublish.java:215-217 | Only the dup flag changes, to set |
| Messages.Message.SetRetain | src/main/java/se/wetcat/qatja/messages/MQTTPublish.java:243-245 | Only the retain flag changes |
| Messages.Message.GeneratePayload | src/main/java/se/wetcat/qatja/messages/MQTTMessage.java:44-48 | The payload generator of the object's class, without changing the object |
| Messages.Message.GenerateVariableHeader | src/main/java/se/wetcat/qatja/messages/MQTTMessage.java:44-48 | The variable-header generator of the object's class, without changing the object |
| Messages.Message.GenerateFixedHeader | src/main/java/se/wetcat/qatja/messages/MQTTPubrel.java:83-105 | Returns the first octet and the remaining length of the stored buffers. Records that length, and nothing else changes |
| Messages.Message.Get | src/main/java/se/wetcat/qatja/messages/MQTTMessage.java:154-166 | The answer and the new state are `GetOf` of the old state |
| PacketProperties.ConnectFlagsLayout | src/main/java/se/wetcat/qatja/messages/MQTTConnect.java:202-216 | For a will QoS up to 3 the flags octet is `128u + 64p + 32r + 8q + 4w + 2c`, with bit 0 clear |
| PacketProperties.ConnectWillBit | src/main/java/se/wetcat/qatja/messages/MQTTConnect.java:202-216 | Each CONNECT field sits in its own bit of the flags octet. The will bit is set iff will retain and will flag are both set. Bit 0 is clear |
| PacketProperties.FlagsByteLowBits | src/se/goransson/qatja/messages/MQTTConnect.java:194-202 | Bits 2, 1 and 0 are the will bit, clean session and the reserved 0, in both copies |
| PacketProperties.FlagsByteHighBits | src/se/goransson/qatja/messages/MQTTConnect.java:194-202 | When the will QoS fits its two bits, bits 7, 6 and 5 are username, password and will retain |
| PacketProperties.PublishFixedByteLayout | src/main/java/se/wetcat/qatja/messages/MQTTPublish.java:154-161 | For QoS up to 3 the PUBLISH first octet is `16*type + 8*dup + 2*QoS + retain` |
| PacketProperties.PublishFixedByteExample | src/se/goransson/qatja/messages/MQTTPublish.java:136-137 | dup set, QoS 1 and retain set give 0x3B |
| PacketProperties.FirstOctetReservedBits | src/main/java/se/wetcat/qatja/messages/MQTTPubrel.java:88 | PUBREL, SUBSCRIBE and UNSUBSCRIBE have flags 0010 (sections 3.6.1, 3.8.1 and 3.10.1 of MQTT 3.1.1). PUBLISH has its flags. Every other packet has 0000 |
| PacketProperties.ConnectVariableHeaderLayout | src/se/goransson/qatja/messages/MQTTConnect.java:185-212 | Without a protocol name of its own, the CONNECT variable header is 10 octets: protocol block, flags, then keep-alive modulo 65536 in big-endian order |
| PacketProperties.ConnectPayloadErrors | src/main/java/se/wetcat/qatja/messages/MQTTConnect.java:229-302 | Fails exactly for: a missing or over-long client identifier; a will with its topic or message missing; an over-long password |
| PacketProperties.ConnectPayloadShape | src/se/goransson/qatja/messages/MQTTConnect.java:215-288 | The payload is the client identifier, then the will topic and message iff the will flag is set, then the username if present, then the password if present, each length-prefixed |
| PacketProperties.ConnectPayloadReadBack | src/main/java/se/wetcat/qatja/messages/MQTTConnect.java:229-302 | A reader guided by the flags octet recovers every payload field. This needs every string to fit a two-octet length and no will without will retain |
| PacketProperties.ConnectUnannouncedWill | src/main/java/se/wetcat/qatja/messages/MQTTConnect.java:87-106 | A will given without will retain is written into the payload but not announced in the flags, so a reader guided by the flags cannot parse the payload |
| PacketProperties.SubscriptionEntriesReadBack | src/main/java/se/wetcat/qatja/messages/MQTTSubscribe.java:100-109 | Reading the SUBSCRIBE entries gives back the filters and QoS octets, in order |
| PacketProperties.FilterEntriesReadBack | src/main/java/se/wetcat/qatja/messages/MQTTUnsubscribe.java:97-104 | Reading the UNSUBSCRIBE entries gives back the filters, in order |
| PacketProperties.EntriesLength | src/main/java/se/wetcat/qatja/messages/MQTTSubscribe.java:100-109 | The SUBSCRIBE payload is the sum of \|filter\|+3. The UNSUBSCRIBE payload is the sum of \|filter\|+2 |
| PacketProperties.SubscribePayloadErrors | src/main/java/se/wetcat/qatja/messages/MQTTSubscribe.java:92-98 | SUBSCRIBE fails with no filters or no QoS, and then for lists of different lengths. It succeeds otherwise. UNSUBSCRIBE fails only on an empty list |
| PacketProperties.SubscribeAcceptsWildcards | src/main/java/se/wetcat/qatja/messages/MQTTSubscribe.java:100-109 | A `#` filter is written by SUBSCRIBE but refused as a PUBLISH topic |
| PacketProperties.PublishVariableHeaderContents | src/main/java/se/wetcat/qatja/messages/MQTTPublish.java:180-205 | Refused iff the topic has a wildcard, or the QoS is above 0 with identifier 0. Otherwise: the prefixed topic, then the identifier's two octets exactly when the QoS is above 0 |
| PacketProperties.GetFrame | src/main/java/se/wetcat/qatja/messages/MQTTMessage.java:154-166 | A successful `get()` returns fixed header, variable header and payload back to back. It stores the generated payload and variable header, plus the fixed header made of the first octet and the remaining length. It records that length. Nothing else changes |
| PacketProperties.GetFromParts | src/main/java/se/goransson/qatja/messages/MQTTMessage.java:175-187 | The older `get()` gives the same frame and state from the payload and variable header its generators return |
| PacketProperties.GetReceivedOnly | src/main/java/se/wetcat/qatja/messages/MQTTConnack.java:84-99 | CONNACK, UNSUBACK and PINGRESP cannot be encoded: `get()` fails on null after clearing all three buffers |
| PacketProperties.GetFailureOrder | src/main/java/se/wetcat/qatja/messages/MQTTMessage.java:157-159 | A generator that throws leaves everything generated before it stored, and nothing after |
| PacketProperties.AcknowledgementFrames | src/main/java/se/goransson/qatja/messages/MQTTPuback.java:82-121 | PUBACK, PUBREC and PUBREL are the frames `40 02 MSB LSB`, `50 02 MSB LSB` and `62 02 MSB LSB`, with remaining length 2 and an empty payload |
| PacketProperties.SubscribeFrame | src/main/java/se/wetcat/qatja/messages/MQTTSubscribe.java:53-86 | SUBSCRIBE starts with 0x82, its variable header is the identifier octets, and its remaining length counts the entries |
| PacketProperties.UnsubscribeFrame | src/main/java/se/wetcat/qatja/messages/MQTTUnsubscribe.java:56-88 | UNSUBSCRIBE starts with 0xA2, its variable header is the identifier octets, and its remaining length counts the entries |
| PacketProperties.EmptyFrames | src/main/java/se/wetcat/qatja/messages/MQTTPingreq.java:52-86 | PINGREQ is `C0 00` and DISCONNECT is `E0 00`. Both have empty buffers and remaining length 0 |
| PacketProperties.ConnectFrame | src/main/java/se/wetcat/qatja/messages/MQTTConnect.java:161-182 | CONNECT starts with 0x10. It stores the generated payload and variable header, and its remaining length is their total size |
| RoundTrip.LowByteRoundTrip | src/main/java/se/goransson/qatja/messages/MQTTPuback.java:77-78 | `(hi >> 8 & 0xFF) \| (lo & 0xFF)` gives a 16-bit value back iff it is below 256 |
| RoundTrip.SignedOrRoundTrip | src/main/java/se/wetcat/qatja/messages/MQTTPubrec.java:86 | `vh[1] \| vh[0]` gives a 16-bit value back iff it is below 128 |
| RoundTrip.TopicLengthRoundTrip | src/main/java/se/wetcat/qatja/messages/MQTTPublish.java:110 | The PUBLISH topic length, read as a signed low octet, comes back iff it is below 128 |
| RoundTrip.FixedHeaderRoundTrip | src/main/java/se/wetcat/qatja/messages/MQTTPubrel.java:53-64 | After octet 0, the decode loop reads back the remaining length that was written and stops just after it |
| RoundTrip.DecoderSizes | src/main/java/se/wetcat/qatja/messages/MQTTUnsuback.java:40-71 | Every successful decoder takes its type from octet 0. CONNECT has 10 + (rl-10) octets, the two-octet packets 2 + (rl-2), the current PUBLISH rl. PINGRESP has no buffers and length 0 |
| RoundTrip.PingrespReadsFirstOctet | src/main/java/se/wetcat/qatja/messages/MQTTPingresp.java:34-57 | PINGRESP depends on octet 0 only: type from its high nibble, remaining length 0, both buffers null |
| RoundTrip.TwoOctetFrame | src/main/java/se/wetcat/qatja/messages/MQTTConnack.java:43-74 | `first 02 hi lo` decodes to length 2, variable header `hi lo` and an empty payload. The identifier or CONNACK fields are read as each class reads them |
| RoundTrip.AcknowledgementRoundTrip | src/main/java/se/wetcat/qatja/messages/MQTTPubrec.java:55-87 | PUBACK, PUBREC and PUBREL decode back to their type, length 2 and an empty payload. The identifier returns iff it is below 256 (PUBACK) or below 128 (PUBREC, PUBREL) |
| RoundTrip.UnsubackRoundTrip | src/main/java/se/wetcat/qatja/messages/MQTTUnsuback.java:40-71 | A broker's UNSUBACK identifier survives iff it is below 256 |
| RoundTrip.ConnackExample | src/se/goransson/qatja/messages/MQTTConnack.java:35-69 | `20 02 00 00` is a CONNACK that accepts the connection, with remaining length 2 |
| RoundTrip.PublishFlagsRoundTrip | src/main/java/se/wetcat/qatja/messages/MQTTPublish.java:94-97 | The decoder recovers retain, QoS, dup and the type from the octet the encoder packs, for QoS 0..3 |
| RoundTrip.PublishRoundTrip | src/main/java/se/wetcat/qatja/messages/MQTTPublish.java:89-147 | The current decoder fully inverts `get()` when the topic is under 128 octets without wildcards, the QoS is 0..2 and the identifier is 1..127. It rebuilds flags, topic, identifier, payload and remaining length |
| RoundTrip.LegacyPublishPayload | src/se/goransson/qatja/messages/MQTTPublish.java:82-128 | At QoS 1 and 2 the older decoder reads flags, topic and identifier right. Its payload is the first \|payload\| octets of variable header plus payload |
| RoundTrip.LegacyPublishQoS0 | src/se/goransson/qatja/messages/MQTTPublish.java:106-121 | At QoS 0 the older decoder fails on a payload under two octets. Otherwise its payload starts at the variable header and is two octets short |
| RoundTrip.ConnectRoundTrip | src/main/java/se/wetcat/qatja/messages/MQTTConnect.java:121-158 | On a frame `get()` wrote, the CONNECT decoder gets back protocol name, level, flags octet, both buffers and the remaining length. It does not read the payload fields. Keep-alive survives iff it is below 256 |
| Wire.SignedOr | src/main/java/se/wetcat/qatja/messages/MQTTPublish.java:142 | `a \| b` of two sign-extended bytes lies in -128..127, and its low octet is their bitwise OR |
| Registry.NextIdentifierAsWritten | src/main/java/se/wetcat/qatja/MQTTIdentifierHelper.java:127-133 | The loop exactly as written computes `ScanAsWritten`, which restarts at index 1 after a hit |
| Registry.NextFreeIdentifier | src/main/java/se/wetcat/qatja/MQTTIdentifierHelper.java:127-133 | The same loop, restarting at index 0, computes `ScanFrom` |
| Registry.LeastFreeIdentifier | src/main/java/se/wetcat/qatja/MQTTIdentifierHelper.java:127-133 | The corrected scan returns the least positive identifier not in use, whatever order the keys are listed in |
| Registry.AsWrittenFacts | src/main/java/se/wetcat/qatja/MQTTIdentifierHelper.java:127-133 | The scan as written returns at least 1 and steps only over identifiers in use. It never returns a key listed after the first. It returns one in use only when that is the first key listed, and never when the first key is the smallest |
| Registry.AsWrittenAgrees | src/main/java/se/wetcat/qatja/MQTTIdentifierHelper.java:127-133 | When the smallest key is listed first, the scan as written equals the corrected scan |
| Registry.AsWrittenOneFirst | src/main/java/se/wetcat/qatja/MQTTIdentifierHelper.java:127-133 | When identifier 1, if in use, is listed first, the scan as written equals the corrected scan. It can go wrong only when 1 is in use and listed later |
| Registry.AsWrittenWrongNeedsKeys | src/main/java/se/wetcat/qatja/MQTTIdentifierHelper.java:127-133 | If the scan as written returns an identifier `r` that is already in use, at least `r` distinct identifiers are in use |
| Registry.KeysOutOfOrder | src/main/java/se/wetcat/qatja/MQTTIdentifierHelper.java:128-132 | Keys listed as [2, 1]: the scan as written returns 2, which is in use. The corrected scan returns 3 |
| Registry.IdentifierRegistry.constructor | src/main/java/se/wetcat/qatja/MQTTIdentifierHelper.java:33-36 | Both maps and the free list start empty |
| Registry.IdentifierRegistry.AddSentPackage | src/main/java/se/wetcat/qatja/MQTTIdentifierHelper.java:47-51 | Files the message under its identifier in the sent map, overwriting. The received map and free list are unchanged |
| Registry.IdentifierRegistry.RemoveSentPackage | src/main/java/se/wetcat/qatja/MQTTIdentifierHelper.java:60-65 | Drops the identifier from the sent map and appends it to the free list, whether it was filed or not |
| Registry.IdentifierRegistry.AddReceivedPackage | src/main/java/se/wetcat/qatja/MQTTIdentifierHelper.java:85-89 | Files the message in the received map, overwriting. Nothing else changes |
| Registry.IdentifierRegistry.RemoveReceivedPackage | src/main/java/se/wetcat/qatja/MQTTIdentifierHelper.java:97-101 | Drops the identifier from the received map. Nothing else changes |
| Registry.IdentifierRegistry.GetIdentifier | src/main/java/se/wetcat/qatja/MQTTIdentifierHelper.java:106-142 | With a non-empty free list it takes the first element off that list (first in, first out). Otherwise it returns the least positive identifier not in the sent map, which is 1 when that map is empty. Both maps are unchanged and the identifier is not filed anywhere |

## Left out

- `MQTTHelper.isUTF8` calls the juniversalchardet detector, a library that is not part of this model. Every call site throws when it answers true, and it answers false for pure ASCII. The model drops those checks, so it matches the code for ASCII strings only.
- Strings are their byte sequences. The length prefixes of topics and topic filters use `String.length()` (characters), which equals the byte length only for ASCII.
- `MQTTHelper.decodeFlags` and `MQTTMessage.toString`: printing and string formatting only.
- `MQTTHelper.getNewPackageIdentifier` is commented out in the source. The PUBLISH and SUBSCRIBE constructors take the identifier as an argument instead.
- `MQTTVersion` is not part of this model. `NAME_311` and `VERSION_311` are taken as "MQTT" and 4, as section 3.1.2 of MQTT 3.1.1 fixes them.
- `MQTTConnectionConstants` is not part of this model; the core uses none of it.
- The getters are not separate members. Every field is visible through `Message.State()`, and a getter followed by a setter is stated by the setters' contracts.
- The individual CONNECT setters (`setWillRetain`, `setWillFlag`, `setProtocolName` and so on) are single field assignments like the base-class setters, and are not modelled one by one.
- `getReturnCode` reads `body.returnCode` and is not a separate member.
- A `null` topic, topic-filter array or QoS array (a `NullPointerException` in the generators) is not represented: `Body` holds sequences.
- The `bufferLength` argument of the buffer decoders is unused by the code and left out.
- PUBCOMP and SUBACK have no packet class in the library, so they have no generator or decoder here.
- Concurrency of the registry is left out: `synchronized`, the lock object and `ConcurrentHashMap`. The operations are modelled one at a time.
- `getSentPackages` and `getReceivedPackages` return the raw maps. They are the fields `sentPackages` and `receivedPackages`.
- Registry.IdentifierRegistry.GetIdentifier: the key listing of the `ConcurrentHashMap` is an argument `keys`, since its order is not specified.
- Messages.Message.SetRetain: only the current PUBLISH class has `setRetain`; the older one has `setDup` only. A PUBLISH body does not record its class, so the model offers the setter on every PUBLISH message.
- Registry.IdentifierRegistry.GetIdentifier: it uses the corrected scan, `NextFreeIdentifier`. The loop as written is `NextIdentifierAsWritten` (see Findings).
- RemainingLength.ReadRemainingLength: integers are unbounded. The Java `int` overflow of `len` from the fifth digit on is not modelled. For example, the digits FF FF FF FF 08 give a negative `len` in Java and 9·2^28 − 1 here, and no limit on the number of digits is imposed because the code imposes none.
- Where the code departs from MQTT 3.1.1, the model follows the code:
  - the encoder does not refuse lengths above 268435455; it writes five or more octets (`EncodeRLBeyondLimit`);
  - the decoder accepts more than four digits;
  - no decoder checks the type nibble;
  - the CONNECT decoder never parses the payload, so client identifier, username, password and clean session are not recovered (`ConnectRoundTrip`);
  - the will-flag bit is `willRetain && willFlag`;
  - decoded two-octet fields lose their high octet (`LowByteRoundTrip`, `SignedOrRoundTrip`).
- The doc comment of `MQTTConnect()` says clean session is set to true, but the code passes false. The model follows the code (`ConnectConstructors`).
- The legacy PUBLISH decoder copies its payload from the start of the variable header. That is modelled and stated (`LegacyPublishPayload`, `LegacyPublishQoS0`), not corrected.

## Findings

| source | as written | input that shows it | evidently intended | confidence | as-written member | corrected member |
|---|---|---|---|---|---|---|
| src/main/java/se/wetcat/qatja/MQTTIdentifierHelper.java:128-132 | After a hit the loop sets `i = 0`, and its `i++` then resumes the scan at index 1, so the first key listed is never checked again | Empty free list, sent identifiers listed as [2, 1]: the loop returns 2, which is already in use (`Registry.KeysOutOfOrder`). The defect is latent: it depends on an order the map does not specify. The result is wrong only when it is listed first and 1 is in use and listed after it (`Registry.AsWrittenFacts`, `Registry.AsWrittenOneFirst`). Then at least as many identifiers as the result are in use (`Registry.AsWrittenWrongNeedsKeys`). OpenJDK's `ConcurrentHashMap` keeps more bins than entries, so such a result would sit in its own bin, which is listed after the bin of 1. For that reason no duplicate identifier is claimed for the real map | The least positive identifier not in use (3 here), proved for any listing order in `Registry.LeastFreeIdentifier` | not executed | Registry.NextIdentifierAsWritten | Registry.NextFreeIdentifier |
