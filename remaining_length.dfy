/**
 * The Remaining Length field of the fixed header (section 2.2.3 of
 * MQTT 3.1.1): a variable-length integer of base-128 digits, least
 * significant first, where bit 7 of every octet but the last is set.
 *
 * Every packet class of the library carries its own copy of the same
 * do-while encode loop and decode loop; they are modelled once here.
 */
module RemainingLength {
  import opened Wire

  /** The largest value the standard allows in four octets. */
  const MAX_REMAINING_LENGTH: nat := 268435455

  /** The digits the encode loop writes for `n`; never empty. */
  function EncodeRL(n: nat): (r: bytes)
    ensures 1 <= |r|
    decreases n
  {
    if n < 128 then [n] else [n % 128 + 128] + EncodeRL(n / 128)
  }

  /**
   * Every octet of the encoding but the last carries the continuation bit,
   * the last does not, and the low seven bits of octet k are base-128
   * digit k of `n`.
   */
  lemma {:induction false} EncodeRLDigits(n: nat)
    ensures EncodeRL(n)[|EncodeRL(n)| - 1] < 128
    ensures forall k :: 0 <= k < |EncodeRL(n)| - 1 ==> EncodeRL(n)[k] >= 128
    ensures EncodeRL(n)[0] % 128 == n % 128
    decreases n
  {
    if n >= 128 {
      EncodeRLDigits(n / 128);
      var tail := EncodeRL(n / 128);
      assert EncodeRL(n) == [n % 128 + 128] + tail;
      forall k | 1 <= k < |EncodeRL(n)| - 1 ensures EncodeRL(n)[k] >= 128 {
        assert EncodeRL(n)[k] == tail[k - 1];
      }
    }
  }

  /**
   * The value the decode loop reads starting at `offset`, with the offset
   * just past its last digit; `None` when the buffer ends while a digit is
   * still expected (the loop would index past the end).
   */
  function DecodeRL(buffer: bytes, offset: nat): Option<(nat, nat)>
    decreases |buffer| - offset
  {
    if offset >= |buffer| then None
    else if buffer[offset] < 128 then Some((buffer[offset] as nat, offset + 1))
    else
      match DecodeRL(buffer, offset + 1)
      case None => None
      case Some((v, next)) => Some(((buffer[offset] - 128) + 128 * v, next))
  }

  /** `length` as the do-while loop of every `generateFixedHeader` writes it. */
  method WriteRemainingLength(length: nat) returns (out: bytes)
    ensures out == EncodeRL(length)
  {
    var rest := length;
    out := [];
    while true
      invariant out + EncodeRL(rest) == EncodeRL(length)
      decreases rest
    {
      var digit: byte := rest % 128;
      ghost var before := rest;
      rest := rest / 128;
      assert rest > 0 <==> before >= 128;
      if rest > 0 {
        digit := digit + 128;
        assert EncodeRL(before) == [digit] + EncodeRL(rest);
      } else {
        assert EncodeRL(before) == [digit];
      }
      out := out + [digit];
      if rest == 0 {
        return;
      }
    }
  }

  /**
   * The do-while loop of every buffer decoder, started at `offset`: the
   * remaining length and the index of the first octet after it.
   */
  method ReadRemainingLength(buffer: bytes, offset: nat) returns (r: Option<(nat, nat)>)
    ensures r == DecodeRL(buffer, offset)
  {
    var i := offset;
    var multiplier: nat := 1;
    var len: nat := 0;
    while true
      invariant offset <= i
      invariant DecodeRL(buffer, offset) == Shifted(DecodeRL(buffer, i), len, multiplier)
      decreases |buffer| - i
    {
      if i >= |buffer| {
        return None;
      }
      var digit := buffer[i];
      i := i + 1;
      if digit < 128 {
        assert DecodeRL(buffer, i - 1) == Some((digit as nat, i));
        ShiftedLast(digit, i, len, multiplier);
        len := len + digit * multiplier;
        return Some((len, i));
      }
      ShiftedStep(DecodeRL(buffer, i), digit - 128, len, multiplier);
      len := len + (digit - 128) * multiplier;
      multiplier := multiplier * 128;
    }
  }

  /** The value of the digits still to read, seen through the digits already read. */
  function Shifted(tail: Option<(nat, nat)>, low: nat, multiplier: nat): Option<(nat, nat)>
  {
    match tail
    case None => None
    case Some((v, next)) => Some((low + multiplier * v, next))
  }

  lemma ShiftedLast(digit: nat, next: nat, low: nat, multiplier: nat)
    ensures Shifted(Some((digit, next)), low, multiplier) == Some((low + digit * multiplier, next))
  {
    assert multiplier * digit == digit * multiplier;
  }

  lemma ShiftedStep(tail: Option<(nat, nat)>, digit: nat, low: nat, multiplier: nat)
    ensures Shifted(Shifted(tail, digit, 128), low, multiplier)
         == Shifted(tail, low + digit * multiplier, multiplier * 128)
  {
    match tail
    case None =>
    case Some((v, next)) =>
      calc {
        low + multiplier * (digit + 128 * v);
        low + digit * multiplier + (multiplier * 128) * v;
      }
  }

  /**
   * Decoding inverts encoding: whatever precedes and follows the field, the
   * decoder reads back `n` and stops right after the last digit.
   */
  lemma {:induction false} DecodeEncodeRL(n: nat, prefix: bytes, suffix: bytes)
    ensures DecodeRL(prefix + EncodeRL(n) + suffix, |prefix|) == Some((n, |prefix| + |EncodeRL(n)|))
    decreases n
  {
    var buf := prefix + EncodeRL(n) + suffix;
    if n < 128 {
      assert buf[|prefix|] == n;
    } else {
      var head := [n % 128 + 128];
      assert EncodeRL(n) == head + EncodeRL(n / 128);
      assert buf[|prefix|] == n % 128 + 128;
      DecodeEncodeRL(n / 128, prefix + head, suffix);
      assert prefix + head + EncodeRL(n / 128) + suffix == buf;
    }
  }

  /** The number of digits: at most four exactly up to the standard's limit. */
  lemma {:induction false} EncodeRLSize(n: nat)
    ensures n < 128 <==> |EncodeRL(n)| == 1
    ensures n < 16384 <==> |EncodeRL(n)| <= 2
    ensures n < 2097152 <==> |EncodeRL(n)| <= 3
    ensures n <= MAX_REMAINING_LENGTH <==> |EncodeRL(n)| <= 4
    decreases n
  {
    if n >= 128 {
      EncodeRLSize(n / 128);
    }
  }

  /**
   * Nothing stops the encoder above the standard's limit: it writes a
   * fifth digit instead of failing.
   */
  lemma EncodeRLBeyondLimit()
    ensures EncodeRL(MAX_REMAINING_LENGTH + 1) == [0x80, 0x80, 0x80, 0x80, 0x01]
  {
    assert EncodeRL(2097152) == [0x80, 0x80, 0x80, 0x01];
  }

  /** The encodings listed in section 2.2.3 of MQTT 3.1.1 for the boundary values. */
  lemma EncodeRLExamples()
    ensures EncodeRL(0) == [0x00]
    ensures EncodeRL(127) == [0x7F]
    ensures EncodeRL(128) == [0x80, 0x01]
    ensures EncodeRL(16383) == [0xFF, 0x7F]
    ensures EncodeRL(16384) == [0x80, 0x80, 0x01]
    ensures EncodeRL(MAX_REMAINING_LENGTH) == [0xFF, 0xFF, 0xFF, 0x7F]
  {
  }
}
