/**
 * The static helpers every packet uses: the wildcard test on topic names,
 * the split of a 16-bit quantity into its most and least significant
 * octets, the two-octet length prefix of a string, the packet-type nibble
 * of a buffer and the human-readable name of a packet type.
 */
module Helper {
  import opened Wire
  import opened Constants

  const HASH: byte := 0x23  // '#', the multi-level wildcard
  const PLUS: byte := 0x2B  // '+', the single-level wildcard
  const SLASH: byte := 0x2F // '/', the topic level separator

  /** Whether a topic contains a wildcard character ('/' is not one). */
  predicate HasWildcards(topic: bytes)
  {
    HASH in topic || PLUS in topic
  }

  /** A topic has wildcards iff one of its parts has; '/' separators never add one. */
  lemma HasWildcardsConcat(a: bytes, b: bytes)
    ensures HasWildcards(a + b) <==> HasWildcards(a) || HasWildcards(b)
    ensures HasWildcards(a + [SLASH] + b) <==> HasWildcards(a + b)
  {
    assert forall x :: x in a + b <==> x in a || x in b;
    assert forall x :: x in a + [SLASH] + b <==> x in a || x == SLASH || x in b;
  }

  /** Most significant octet of the low 16 bits of an int: `(v & 0xffff) >> 8 & 0xFF`. */
  function MSB(v: int): byte
  {
    (v % 65536) / 256
  }

  /** Least significant octet of an int: `v & 0xFF`. */
  function LSB(v: int): byte
  {
    v % 256
  }

  /** The two octets are the big-endian form of the low 16 bits of `v`. */
  lemma MSBLSBRecompose(v: int)
    ensures 256 * MSB(v) + LSB(v) == v % 65536
    ensures 0 <= v < 65536 ==> 256 * MSB(v) + LSB(v) == v
  {
  }

  /** Two values agree on MSB and LSB exactly when they agree modulo 65536. */
  lemma MSBLSBInjective(v: int, w: int)
    ensures (MSB(v) == MSB(w) && LSB(v) == LSB(w)) <==> v % 65536 == w % 65536
  {
    MSBLSBRecompose(v);
    MSBLSBRecompose(w);
    if v % 65536 == w % 65536 {
      assert LSB(v) == (v % 65536) % 256;
      assert LSB(w) == (w % 65536) % 256;
    }
  }

  /**
   * MIN_LENGTH..MAX_LENGTH are exactly the lengths that two octets, MSB
   * then LSB, carry without loss.
   */
  lemma StringLengthBounds()
    ensures forall n: int :: 256 * MSB(n) + LSB(n) == n <==> MIN_LENGTH <= n <= MAX_LENGTH
  {
    forall n: int ensures 256 * MSB(n) + LSB(n) == n <==> MIN_LENGTH <= n <= MAX_LENGTH {
      MSBLSBRecompose(n);
    }
  }

  /** MSB of a buffer's length: `buffer.length >> 8 & 0xFF`. */
  function LengthMSB(buffer: bytes): (r: byte)
    ensures r == MSB(|buffer|)
  {
    (|buffer| / 256) % 256
  }

  /** LSB of a buffer's length: `buffer.length & 0xFF`. */
  function LengthLSB(buffer: bytes): (r: byte)
    ensures r == LSB(|buffer|)
  {
    |buffer| % 256
  }

  /** A string as the codec writes it: two-octet big-endian length, then its bytes. */
  function LengthPrefixed(s: bytes): (r: bytes)
    ensures |r| == |s| + 2
    ensures r[2..] == s
  {
    [LengthMSB(s), LengthLSB(s)] + s
  }

  /**
   * Reference reader for a length-prefixed string: the bytes it announces
   * and what follows them, or `None` when the buffer is too short.
   */
  function ReadLengthPrefixed(buffer: bytes): Option<(bytes, bytes)>
  {
    if |buffer| < 2 then None
    else
      var n := 256 * (buffer[0] as int) + buffer[1] as int;
      if |buffer| < 2 + n then None else Some((buffer[2..2 + n], buffer[2 + n..]))
  }

  /** The length prefix is read back exactly when the string has at most 65535 bytes. */
  lemma ReadLengthPrefixedInverse(s: bytes, rest: bytes)
    ensures |s| <= MAX_LENGTH ==> ReadLengthPrefixed(LengthPrefixed(s) + rest) == Some((s, rest))
    ensures |s| > MAX_LENGTH ==> ReadLengthPrefixed(LengthPrefixed(s) + rest) != Some((s, rest))
  {
    var buf := LengthPrefixed(s) + rest;
    MSBLSBRecompose(|s|);
    assert buf[0] == MSB(|s|) && buf[1] == LSB(|s|);
    if |s| <= MAX_LENGTH {
      assert buf[2..2 + |s|] == s;
      assert buf[2 + |s|..] == rest;
    }
  }

  /** `decodeType`: the packet type in the high nibble of the first octet. */
  function DecodeType(buffer: bytes): (r: Result<byte>)
    ensures r.Ok? <==> |buffer| > 0
    ensures r.Ok? ==> r.value < 16 && 16 * r.value <= buffer[0] < 16 * r.value + 16
  {
    if |buffer| == 0 then Err(MalformedBuffer) else Ok(buffer[0] / 16)
  }

  /** The type nibble written as `type << 4 | flags` is the one `decodeType` reads back. */
  lemma DecodeTypeInverse(t: byte, flags: byte, rest: bytes)
    requires t < 16 && flags < 16
    ensures DecodeType([16 * t + flags] + rest) == Ok(t)
  {
  }

  /** `decodePackageName`: the name of a packet type, or "Unknown message type". */
  function DecodePackageName(t: int): string
  {
    if t == CONNECT as int then "CONNECT"
    else if t == CONNACK as int then "CONNACK"
    else if t == PUBLISH as int then "PUBLISH"
    else if t == PUBACK as int then "PUBACK"
    else if t == PUBREC as int then "PUBREC"
    else if t == PUBREL as int then "PUBREL"
    else if t == PUBCOMP as int then "PUBCOMP"
    else if t == SUBSCRIBE as int then "SUBSCRIBE"
    else if t == SUBACK as int then "SUBACK"
    else if t == UNSUBSCRIBE as int then "UNSUBSCRIBE"
    else if t == UNSUBACK as int then "UNSUBACK"
    else if t == PINGREQ as int then "PINGREQ"
    else if t == PINGRESP as int then "PINGRESP"
    else if t == DISCONNECT as int then "DISCONNECT"
    else "Unknown message type"
  }

  /** Each packet type gets its own name, and exactly the other values are unknown. */
  lemma DecodePackageNameDistinct(s: int, t: int)
    ensures DecodePackageName(t) == "Unknown message type" <==> !(1 <= t <= 14)
    ensures 1 <= s <= 14 && 1 <= t <= 14 && s != t ==> DecodePackageName(s) != DecodePackageName(t)
  {
  }
}
