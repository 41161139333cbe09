/** src/canonical.js, the padded buffer of `sha256Hex`. */
module JsPadding {
  import opened Fips180
  import opened Prelude
  import opened JsNumbers

  /** The padded buffer, or None where the source throws a RangeError: the shifts work on 32 bits. */
  method PadBuffer(bytes: seq<Byte>) returns (r: Option<seq<Byte>>)
    ensures r.Some? <==> |bytes| < HALF - 72
    ensures r.Some? ==> r.value == Pad(bytes)
  {
    hide ToUint32, BigEndian, ShiftLeft, ShiftRight6, ZeroCount;
    var bitLength := |bytes| * 8;
    var paddedLength := ShiftLeft(ShiftRight6(|bytes| + 9 + 63), 6);
    PaddedLength(|bytes|);
    if paddedLength < 0 || |bytes| > paddedLength {
      return None;
    }
    var padded := new Byte[paddedLength](i => if 0 <= i < |bytes| then bytes[i] else 0);
    padded[|bytes|] := 0x80;
    assert padded[..] == Front(bytes) + Zeros(8) by {
      assert padded[..|bytes|] == bytes;
    }
    WriteLength(padded, bitLength, Front(bytes));
    return Some(padded[..]);
  }

  ghost function Front(bytes: seq<Byte>): seq<Byte> { bytes + [0x80] + Zeros(ZeroCount(|bytes|)) }

  method WriteLength(padded: array<Byte>, bitLength: nat, ghost front: seq<Byte>)
    requires bitLength < M * M
    requires padded[..] == front + Zeros(8)
    modifies padded
    ensures padded[..] == front + BigEndian(bitLength, 8)
  {
    hide ToUint32, BigEndian;
    var high, low := bitLength / M, ToUint32(bitLength);
    SetUint32(padded, padded.Length - 8, high);
    SetUint32(padded, padded.Length - 4, low);
    LengthBytes(bitLength);
    var text := BigEndian(ToUint32(high), 4) + BigEndian(ToUint32(low), 4);
    assert padded[..] == front + text;
  }

  lemma LengthBytes(x: nat)
    requires x < M * M
    ensures BigEndian(ToUint32(x / M), 4) + BigEndian(ToUint32(ToUint32(x)), 4) == BigEndian(x, 8)
  {
    Pow2Of32();
    assert Pow2(8 * 4) == Pow2(32);
    BigEndianSplit(x / M, x % M, 4);
    WordIsUnchanged(x / M);
    WordIsUnchanged(x % M);
  }

  lemma {:induction false} BigEndianSplit(hi: nat, lo: nat, k: nat)
    requires lo < Pow2(8 * k)
    ensures BigEndian(hi * Pow2(8 * k) + lo, 4 + k) == BigEndian(hi, 4) + BigEndian(lo, k)
  {
    if k > 0 {
      var t := hi * Pow2(8 * k - 8);
      Pow2Of8(8 * k - 8);
      Scaled(hi, Pow2(8 * k - 8), lo);
      BigEndianSplit(hi, lo / 256, k - 1);
      BigEndianStep(256 * t + lo, 3 + k);
      BigEndianStep(lo, k - 1);
      hide BigEndian, Pow2;
    } else {
      assert lo == 0 && BigEndian(lo, 0) == [];
    }
  }

  lemma Scaled(hi: nat, p: nat, lo: nat)
    ensures hi * (256 * p) == 256 * (hi * p)
    ensures (256 * (hi * p) + lo) / 256 == hi * p + lo / 256 && (256 * (hi * p) + lo) % 256 == lo % 256
  {
    Multiple(hi * p, lo);
  }

  lemma Multiple(t: nat, lo: nat)
    ensures (256 * t + lo) / 256 == t + lo / 256 && (256 * t + lo) % 256 == lo % 256
  {}

  lemma BigEndianStep(x: nat, n: nat)
    ensures BigEndian(x, n + 1) == BigEndian(x / 256, n) + [x % 256]
  {}

  lemma PaddedLength(n: nat)
    ensures var p := ShiftLeft(ShiftRight6(n + 9 + 63), 6);
      if n < HALF - 72 then p == n + 9 + ZeroCount(n) else p < 0 || p < n
  {
    var s := ToInt32(n + 72);
    var q := s / 64;
    SignedForm(n + 72);
    SmallIsUnchanged(q);
    SmallIsUnchanged(64 * q);
    assert Pow2(6) == 64;
    assert ShiftLeft(ShiftRight6(n + 9 + 63), 6) == 64 * q;
    if n < HALF - 72 {
      SmallIsUnchanged(n + 72);
      assert 64 * q == n + 72 - (n + 72) % 64;
    } else if n + 72 < M {
      assert s < 0;
    }
  }

  method SetUint32(buffer: array<Byte>, at: nat, value: nat)
    requires at + 4 <= buffer.Length
    modifies buffer
    ensures buffer[..] == old(buffer[..at]) + BigEndian(ToUint32(value), 4) + old(buffer[at + 4..])
  {
    hide BigEndian;
    var b := BigEndian(ToUint32(value), 4);
    buffer[at], buffer[at + 1], buffer[at + 2], buffer[at + 3] := b[0], b[1], b[2], b[3];
  }
}
