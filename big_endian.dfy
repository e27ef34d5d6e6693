/** The byte layout `java.nio.ByteBuffer` uses for `putLong`/`getLong` and
    `putInt`/`getInt`: two's complement, most significant byte first (the
    default big-endian order). */
module BigEndian {
  import opened Java

  function Pow256(n: nat): (r: nat)
    ensures r >= 1
  {
    if n == 0 then 1 else 256 * Pow256(n - 1)
  }

  lemma Pow256Values()
    ensures Pow256(4) == 0x1_0000_0000
    ensures Pow256(8) == LONG_MODULUS
  {
    assert Pow256(1) == 256;
    assert Pow256(2) == 0x1_0000;
    assert Pow256(3) == 0x100_0000;
    assert Pow256(4) == 0x1_0000_0000;
    assert Pow256(5) == 0x100_0000_0000;
    assert Pow256(6) == 0x1_0000_0000_0000;
    assert Pow256(7) == 0x100_0000_0000_0000;
  }

  /** The n-byte big-endian representation of x modulo 256^n. */
  function Unsigned(x: nat, n: nat): (s: Bytes)
    ensures |s| == n
    decreases n
  {
    if n == 0 then [] else Unsigned(x / 256, n - 1) + [x % 256]
  }

  /** The number a big-endian byte sequence denotes. */
  function FromUnsigned(s: Bytes): nat
  {
    if |s| == 0 then 0 else FromUnsigned(s[..|s| - 1]) * 256 + s[|s| - 1]
  }

  lemma {:induction false} FromUnsignedBound(s: Bytes)
    ensures FromUnsigned(s) < Pow256(|s|)
  {
    if |s| > 0 {
      FromUnsignedBound(s[..|s| - 1]);
    }
  }

  lemma LongBound(s: Bytes)
    requires |s| == 8
    ensures FromUnsigned(s) < LONG_MODULUS
  {
    FromUnsignedBound(s);
    Pow256Values();
  }

  lemma IntBound(s: Bytes)
    requires |s| == 4
    ensures FromUnsigned(s) < 0x1_0000_0000
  {
    FromUnsignedBound(s);
    Pow256Values();
  }

  lemma {:induction false} UnsignedRoundTrip(x: nat, n: nat)
    requires x < Pow256(n)
    ensures FromUnsigned(Unsigned(x, n)) == x
    decreases n
  {
    if n > 0 {
      var s := Unsigned(x, n);
      assert s[..n - 1] == Unsigned(x / 256, n - 1);
      UnsignedRoundTrip(x / 256, n - 1);
    }
  }

  lemma {:induction false} FromUnsignedRoundTrip(s: Bytes)
    ensures Unsigned(FromUnsigned(s), |s|) == s
  {
    if |s| > 0 {
      var init, last := s[..|s| - 1], s[|s| - 1];
      var x := FromUnsigned(s);
      assert x == FromUnsigned(init) * 256 + last;
      assert x / 256 == FromUnsigned(init) && x % 256 == last;
      FromUnsignedRoundTrip(init);
      assert s == init + [last];
    }
  }

  /** All-zero bytes (a fresh page) denote 0. */
  lemma {:induction false} FromUnsignedZeros(s: Bytes)
    requires forall k | 0 <= k < |s| :: s[k] == 0
    ensures FromUnsigned(s) == 0
  {
    if |s| > 0 {
      FromUnsignedZeros(s[..|s| - 1]);
    }
  }

  /** `putLong`: 8 bytes. */
  function EncodeLong(x: int): (s: Bytes)
    requires IsLong(x)
    ensures |s| == 8
  {
    Unsigned(if x < 0 then x + LONG_MODULUS else x, 8)
  }

  /** `getLong`. */
  function DecodeLong(s: Bytes): (x: int)
    requires |s| == 8
    ensures IsLong(x)
  {
    LongBound(s);
    var u := FromUnsigned(s);
    if u > LONG_MAX then u - LONG_MODULUS else u
  }

  /** `putInt`: 4 bytes. */
  function EncodeInt(x: int): (s: Bytes)
    requires IsInt(x)
    ensures |s| == 4
  {
    Unsigned(if x < 0 then x + 0x1_0000_0000 else x, 4)
  }

  /** `getInt`. */
  function DecodeInt(s: Bytes): (x: int)
    requires |s| == 4
    ensures IsInt(x)
  {
    IntBound(s);
    var u := FromUnsigned(s);
    if u > INT_MAX then u - 0x1_0000_0000 else u
  }

  lemma LongRoundTrip(x: int)
    requires IsLong(x)
    ensures DecodeLong(EncodeLong(x)) == x
  {
    Pow256Values();
    UnsignedRoundTrip(if x < 0 then x + LONG_MODULUS else x, 8);
  }

  /** Every 8-byte pattern is the encoding of the long it decodes to. */
  lemma LongBytesRoundTrip(s: Bytes)
    requires |s| == 8
    ensures EncodeLong(DecodeLong(s)) == s
  {
    LongBound(s);
    FromUnsignedRoundTrip(s);
  }

  lemma IntRoundTrip(x: int)
    requires IsInt(x)
    ensures DecodeInt(EncodeInt(x)) == x
  {
    Pow256Values();
    UnsignedRoundTrip(if x < 0 then x + 0x1_0000_0000 else x, 4);
  }
}
