/** Fractions of a second in sntp_client (sdk/src/TimeSyncModule.c), taken as unsigned 32-bit numbers: a
    transmit timestamp counts units of 2^-32 seconds (RFC 4330, section 3), which the code approximates by
    4295 units to the microsecond. */
module SntpFraction {

  const TWO_32 := 0x1_0000_0000
  const UNITS := 4295

  type U32 = x: int | 0 <= x < TWO_32

  /** `tp.tv_usec * 4295` in 32 bits. */
  function Encode(usec: nat): U32 {
    usec * UNITS % TWO_32
  }

  /** `ntohl(pkt.txtime[1]) / 4295`. */
  function Decode(fraction: U32): nat {
    fraction / UNITS
  }

  /** The microseconds a fraction stands for. */
  function Exact(fraction: U32): nat {
    fraction * 1_000_000 / TWO_32
  }

  /** Encoding and decoding again is the identity exactly up to 999992 microseconds. */
  lemma RoundTripIff(usec: nat)
    requires usec < 1_000_000
    ensures Decode(Encode(usec)) == usec <==> usec <= 999_992
  {
  }

  /** Whatever fraction arrives, the result is a legal number of microseconds that is never above the exact value
      and at most 8 below it. */
  lemma DecodeError(fraction: U32)
    ensures Decode(fraction) <= 999_992
    ensures 0 <= Exact(fraction) - Decode(fraction) <= 8
  {
  }

  /** The bound is attained. */
  lemma DecodeErrorIsSharp()
    ensures exists fraction: U32 :: Exact(fraction) - Decode(fraction) == 8
  {
    var f: U32 := 4_289_967_955;
    assert Exact(f) - Decode(f) == 8;
  }
}
