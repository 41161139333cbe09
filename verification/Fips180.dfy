/** SHA-256 as FIPS 180-4 defines it: 32-bit words as numbers below 2^32, the functions of
    section 4.1.2, the constants of 4.2.2 and 5.3.3, the padding of 5.1.1 and the hash
    computation of 6.2.2.  The Rust and the JavaScript implementations are proved equal to it. */
module Fips180 {
  import opened Prelude

  const M: nat := 0x1_0000_0000

  type Byte = n: nat | n < 256
  type Word = n: nat | n < 0x1_0000_0000

  function Pow2(n: nat): (p: nat)
    ensures p > 0
  {
    if n == 0 then 1 else 2 * Pow2(n - 1)
  }

  // ----- Operations on words -----

  /** Applies `f` to the lowest `n` bits of `a` and `b`. */
  function Bitwise(f: (bool, bool) -> bool, a: nat, b: nat, n: nat): (r: nat)
    ensures r < Pow2(n)
  {
    if n == 0 then 0
    else 2 * Bitwise(f, a / 2, b / 2, n - 1) + if f(a % 2 == 1, b % 2 == 1) then 1 else 0
  }

  lemma Pow2Of32()
    ensures Pow2(32) == M
  {
    assert Pow2(8) == 256;
    assert Pow2(16) == 65536;
    assert Pow2(24) == 0x100_0000;
  }

  function Bits32(f: (bool, bool) -> bool, a: Word, b: Word): Word {
    Pow2Of32();
    Bitwise(f, a, b, 32)
  }

  function And(a: Word, b: Word): Word { Bits32((x, y) => x && y, a, b) }
  function Or(a: Word, b: Word): Word { Bits32((x, y) => x || y, a, b) }
  function Xor(a: Word, b: Word): Word { Bits32((x, y) => x != y, a, b) }
  function Not(a: Word): Word { M - 1 - a }
  function Add(a: Word, b: Word): Word { (a + b) % M }

  function Shr(x: Word, n: nat): Word
    decreases n
  {
    if n == 0 then x else Shr(x / 2, n - 1)
  }

  function Shl(x: Word, n: nat): Word
    decreases n
  {
    if n == 0 then x else Shl((2 * x) % M, n - 1)
  }

  function Rotr(x: Word, n: nat): Word
    requires n <= 32
  {
    Or(Shr(x, n), Shl(x, 32 - n))
  }

  // ----- Section 4.1.2 -----

  function Ch(x: Word, y: Word, z: Word): Word { Xor(And(x, y), And(Not(x), z)) }
  function Maj(x: Word, y: Word, z: Word): Word { Xor(Xor(And(x, y), And(x, z)), And(y, z)) }
  function BigSigma0(x: Word): Word { Xor(Xor(Rotr(x, 2), Rotr(x, 13)), Rotr(x, 22)) }
  function BigSigma1(x: Word): Word { Xor(Xor(Rotr(x, 6), Rotr(x, 11)), Rotr(x, 25)) }
  function SmallSigma0(x: Word): Word { Xor(Xor(Rotr(x, 7), Rotr(x, 18)), Shr(x, 3)) }
  function SmallSigma1(x: Word): Word { Xor(Xor(Rotr(x, 17), Rotr(x, 19)), Shr(x, 10)) }

  // ----- Sections 4.2.2 and 5.3.3 -----

  const K: seq<Word> := [
    0x428a2f98, 0x71374491, 0xb5c0fbcf, 0xe9b5dba5, 0x3956c25b, 0x59f111f1, 0x923f82a4, 0xab1c5ed5,
    0xd807aa98, 0x12835b01, 0x243185be, 0x550c7dc3, 0x72be5d74, 0x80deb1fe, 0x9bdc06a7, 0xc19bf174,
    0xe49b69c1, 0xefbe4786, 0x0fc19dc6, 0x240ca1cc, 0x2de92c6f, 0x4a7484aa, 0x5cb0a9dc, 0x76f988da,
    0x983e5152, 0xa831c66d, 0xb00327c8, 0xbf597fc7, 0xc6e00bf3, 0xd5a79147, 0x06ca6351, 0x14292967,
    0x27b70a85, 0x2e1b2138, 0x4d2c6dfc, 0x53380d13, 0x650a7354, 0x766a0abb, 0x81c2c92e, 0x92722c85,
    0xa2bfe8a1, 0xa81a664b, 0xc24b8b70, 0xc76c51a3, 0xd192e819, 0xd6990624, 0xf40e3585, 0x106aa070,
    0x19a4c116, 0x1e376c08, 0x2748774c, 0x34b0bcb5, 0x391c0cb3, 0x4ed8aa4a, 0x5b9cca4f, 0x682e6ff3,
    0x748f82ee, 0x78a5636f, 0x84c87814, 0x8cc70208, 0x90befffa, 0xa4506ceb, 0xbef9a3f7, 0xc67178f2
  ]

  datatype State = State(a: Word, b: Word, c: Word, d: Word, e: Word, f: Word, g: Word, h: Word)

  const H0 := State(0x6a09e667, 0xbb67ae85, 0x3c6ef372, 0xa54ff53a, 0x510e527f, 0x9b05688c, 0x1f83d9ab, 0x5be0cd19)

  // ----- Section 5.1.1 -----

  /** The number of zero bytes: the least k with |message| + 1 + k congruent to 56 modulo 64. */
  function ZeroCount(length: nat): (k: nat)
    ensures k < 64
    ensures (length + 1 + k) % 64 == 56
  {
    if length % 64 <= 55 then 55 - length % 64 else 119 - length % 64
  }

  function Zeros(n: nat): (z: seq<Byte>)
    ensures |z| == n
  {
    seq(n, _ => 0)
  }

  /** The `n` lowest base-256 digits of `x`, most significant first. */
  function BigEndian(x: nat, n: nat): (bytes: seq<Byte>)
    ensures |bytes| == n
  {
    if n == 0 then [] else BigEndian(x / 256, n - 1) + [x % 256]
  }

  function Pad(message: seq<Byte>): (padded: seq<Byte>)
    ensures |padded| % 64 == 0
    ensures |padded| == |message| + 9 + ZeroCount(|message|)
  {
    hide BigEndian;
    message + [0x80] + Zeros(ZeroCount(|message|)) + BigEndian(8 * |message|, 8)
  }

  // ----- Section 6.2.2 -----

  function WordAt(bytes: seq<Byte>, i: nat): Word
    requires i + 4 <= |bytes|
  {
    var b0: nat, b1: nat, b2: nat, b3: nat := bytes[i], bytes[i + 1], bytes[i + 2], bytes[i + 3];
    b0 * 0x100_0000 + b1 * 0x1_0000 + b2 * 0x100 + b3
  }

  function Schedule(block: seq<Byte>, t: nat): Word
    requires |block| == 64 && t < 64
  {
    if t < 16 then WordAt(block, 4 * t)
    else (SmallSigma1(Schedule(block, t - 2)) + Schedule(block, t - 7)
          + SmallSigma0(Schedule(block, t - 15)) + Schedule(block, t - 16)) % M
  }

  function Round(s: State, k: Word, w: Word): State {
    var t1 := (s.h + BigSigma1(s.e) + Ch(s.e, s.f, s.g) + k + w) % M;
    var t2 := (BigSigma0(s.a) + Maj(s.a, s.b, s.c)) % M;
    State(Add(t1, t2), s.a, s.b, s.c, Add(s.d, t1), s.e, s.f, s.g)
  }

  function Rounds(s: State, block: seq<Byte>, t: nat): State
    requires |block| == 64 && t <= 64
  {
    if t == 0 then s else Round(Rounds(s, block, t - 1), K[t - 1], Schedule(block, t - 1))
  }

  function AddStates(s: State, r: State): State {
    State(Add(s.a, r.a), Add(s.b, r.b), Add(s.c, r.c), Add(s.d, r.d),
          Add(s.e, r.e), Add(s.f, r.f), Add(s.g, r.g), Add(s.h, r.h))
  }

  function Compress(s: State, block: seq<Byte>): State
    requires |block| == 64
  {
    AddStates(s, Rounds(s, block, 64))
  }

  /** The intermediate hash value after the first `n` blocks. */
  function Blocks(padded: seq<Byte>, n: nat): State
    requires 64 * n <= |padded|
  {
    if n == 0 then H0 else Compress(Blocks(padded, n - 1), padded[64 * (n - 1)..64 * n])
  }

  function Words(s: State): (w: seq<Word>)
    ensures |w| == 8
  {
    [s.a, s.b, s.c, s.d, s.e, s.f, s.g, s.h]
  }

  lemma EightWords(w: seq<nat>, s: State)
    requires |w| == 8 && w[0] == s.a && w[1] == s.b && w[2] == s.c && w[3] == s.d
    requires w[4] == s.e && w[5] == s.f && w[6] == s.g && w[7] == s.h
    ensures w == Words(s)
  {}

  function Hash(message: seq<Byte>): State {
    var padded := Pad(message);
    Blocks(padded, |padded| / 64)
  }

  function WordBytes(words: seq<Word>): (bytes: seq<Byte>)
    ensures |bytes| == 4 * |words|
  {
    if words == [] then [] else WordBytes(words[..|words| - 1]) + BigEndian(words[|words| - 1], 4)
  }

  function Digest(message: seq<Byte>): (digest: seq<Byte>)
    ensures |digest| == 32
  {
    WordBytes(Words(Hash(message)))
  }

  // ----- Hexadecimal text -----

  function HexOfBytes(bytes: seq<Byte>): (text: string)
    ensures |text| == 2 * |bytes|
  {
    if bytes == [] then "" else HexOfBytes(bytes[..|bytes| - 1]) + Hex(bytes[|bytes| - 1], 2)
  }

  function HexDigest(message: seq<Byte>): (text: string)
    ensures |text| == 64
  {
    HexOfBytes(Digest(message))
  }

  // ----- The padding determines the message -----

  lemma {:induction false} BigEndianInjective(x: nat, y: nat, n: nat)
    requires BigEndian(x, n) == BigEndian(y, n)
    requires x < Pow2(8 * n) && y < Pow2(8 * n)
    ensures x == y
  {
    if n > 0 {
      var p, q := BigEndian(x / 256, n - 1), BigEndian(y / 256, n - 1);
      assert (p + [x % 256])[..n - 1] == p && (q + [y % 256])[..n - 1] == q;
      assert (p + [x % 256])[n - 1] == x % 256 && (q + [y % 256])[n - 1] == y % 256;
      Pow2Of8(8 * n - 8);
      BigEndianInjective(x / 256, y / 256, n - 1);
    }
  }

  lemma Pow2Of8(n: nat)
    ensures Pow2(n + 8) == 256 * Pow2(n)
  {
    assert Pow2(n + 2) == 4 * Pow2(n);
    assert Pow2(n + 4) == 16 * Pow2(n);
    assert Pow2(n + 6) == 64 * Pow2(n);
  }

  /** Two messages shorter than 2^64 bits with the same padded form are the same message. */
  lemma PadInjective(m: seq<Byte>, n: seq<Byte>)
    requires 8 * |m| < Pow2(64) && 8 * |n| < Pow2(64)
    requires Pad(m) == Pad(n)
    ensures m == n
  {
    var p := Pad(m);
    assert p[|p| - 8..] == BigEndian(8 * |m|, 8);
    assert p[|p| - 8..] == BigEndian(8 * |n|, 8);
    BigEndianInjective(8 * |m|, 8 * |n|, 8);
    assert p[..|m|] == m && p[..|m|] == n;
  }

  /** Fewer zero bytes never reach the required length, so `ZeroCount` is the least. */
  lemma ZeroCountIsLeast(length: nat, k: nat)
    requires (length + 1 + k) % 64 == 56
    ensures ZeroCount(length) <= k
  {
    assert (length + 1 + ZeroCount(length)) % 64 == 56;
  }
}
