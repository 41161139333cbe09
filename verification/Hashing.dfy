/** continuity-core/src/hashing.rs: SHA-256 over u32 words with wrapping additions. */
module Hashing {
  import opened Fips180
  import opened Prelude

  /** The loop that pushes 0x80, zero bytes and the 64-bit length. */
  method PadMessage(input: seq<Byte>) returns (msg: seq<Byte>)
    requires 8 * |input| < Pow2(64)
    ensures msg == Pad(input)
  {
    hide Pow2, BigEndian, ZeroCount;
    var bitLen := |input| * 8;
    msg := input + [0x80];
    ghost var zeros := 0;
    while |msg| % 64 != 56
      invariant msg == input + [0x80] + Zeros(zeros)
      invariant zeros <= ZeroCount(|input|)
      decreases ZeroCount(|input|) - zeros
    {
      msg := msg + [0];
      zeros := zeros + 1;
    }
    ZeroCountIsLeast(|input|, zeros);
    msg := msg + BigEndian(bitLen, 8);
  }

  method FillSchedule(w: array<Word>, chunk: seq<Byte>)
    requires w.Length == 64 && |chunk| == 64
    modifies w
    ensures forall j :: 0 <= j < 64 ==> w[j] == Schedule(chunk, j)
  {
    hide SmallSigma0, SmallSigma1, Add, WordAt;
    for i := 0 to 16
      invariant forall j :: 0 <= j < i ==> w[j] == Schedule(chunk, j)
    {
      w[i] := WordAt(chunk, i * 4);
    }
    for i := 16 to 64
      invariant forall j :: 0 <= j < i ==> w[j] == Schedule(chunk, j)
    {
      var s0 := SmallSigma0(w[i - 15]);
      var s1 := SmallSigma1(w[i - 2]);
      AddFour(w[i - 16], s0, w[i - 7], s1);
      w[i] := Add(Add(Add(w[i - 16], s0), w[i - 7]), s1);
    }
  }

  lemma AddTwo(a: Word, b: Word)
    ensures Add(a, b) == (a + b) % M
  {}

  lemma AddNext(sum: nat, b: Word)
    ensures Add(sum % M, b) == (sum + b) % M
  {}

  /** Wrapping after each addition is wrapping once at the end. */
  lemma AddFour(a: Word, b: Word, c: Word, d: Word)
    ensures Add(Add(Add(a, b), c), d) == (d + c + b + a) % M
  {
    AddNext(a + b, c);
    AddNext(a + b + c, d);
  }

  lemma AddFive(a: Word, b: Word, c: Word, d: Word, e: Word)
    ensures Add(Add(Add(Add(a, b), c), d), e) == (a + b + c + d + e) % M
  {
    AddFour(a, b, c, d);
    AddNext(a + b + c + d, e);
  }

  method RunRounds(s: State, w: array<Word>, ghost chunk: seq<Byte>) returns (r: State)
    requires w.Length == 64 && |chunk| == 64
    requires forall j :: 0 <= j < 64 ==> w[j] == Schedule(chunk, j)
    ensures r == Rounds(s, chunk, 64)
  {
    hide BigSigma0, BigSigma1, Ch, Maj, Add, Schedule;
    var a, b, c, d, e, f, g, hh := s.a, s.b, s.c, s.d, s.e, s.f, s.g, s.h;
    for i := 0 to 64
      invariant State(a, b, c, d, e, f, g, hh) == Rounds(s, chunk, i)
    {
      var s1, ch := BigSigma1(e), Ch(e, f, g);
      AddFive(hh, s1, ch, K[i], w[i]);
      var temp1 := Add(Add(Add(Add(hh, s1), ch), K[i]), w[i]);
      var temp2 := Add(BigSigma0(a), Maj(a, b, c));
      assert temp2 == (BigSigma0(a) + Maj(a, b, c)) % M by { AddTwo(BigSigma0(a), Maj(a, b, c)); }
      hh := g;
      g := f;
      f := e;
      e := Add(d, temp1);
      d := c;
      c := b;
      b := a;
      a := Add(temp1, temp2);
    }
    r := State(a, b, c, d, e, f, g, hh);
  }

  method CompressChunk(h: array<Word>, chunk: seq<Byte>, ghost s: State)
    requires h.Length == 8 && |chunk| == 64
    requires h[..] == Words(s)
    modifies h
    ensures h[..] == Words(Compress(s, chunk))
  {
    hide Add, Rounds, Schedule;
    var w := new Word[64];
    FillSchedule(w, chunk);
    var before := State(h[0], h[1], h[2], h[3], h[4], h[5], h[6], h[7]);
    assert before == s by {
      assert h[..][0] == s.a && h[..][1] == s.b && h[..][2] == s.c && h[..][3] == s.d;
      assert h[..][4] == s.e && h[..][5] == s.f && h[..][6] == s.g && h[..][7] == s.h;
    }
    var r := RunRounds(before, w, chunk);
    h[0] := Add(h[0], r.a);
    h[1] := Add(h[1], r.b);
    h[2] := Add(h[2], r.c);
    h[3] := Add(h[3], r.d);
    h[4] := Add(h[4], r.e);
    h[5] := Add(h[5], r.f);
    h[6] := Add(h[6], r.g);
    h[7] := Add(h[7], r.h);
  }

  method CompressAll(h: array<Word>, msg: seq<Byte>)
    requires h.Length == 8 && |msg| % 64 == 0
    requires h[..] == Words(H0)
    modifies h
    ensures h[..] == Words(Blocks(msg, |msg| / 64))
  {
    hide Compress, Words;
    for n := 0 to |msg| / 64
      invariant h[..] == Words(Blocks(msg, n))
    {
      CompressChunk(h, msg[64 * n..64 * (n + 1)], Blocks(msg, n));
    }
  }

  method WriteWords(h: array<Word>, out: array<Byte>)
    requires h.Length == 8 && out.Length == 32
    modifies out
    ensures out[..] == WordBytes(h[..])
  {
    for i := 0 to 8
      invariant out[..4 * i] == WordBytes(h[..i])
    {
      var bytes := BigEndian(h[i], 4);
      out[4 * i], out[4 * i + 1], out[4 * i + 2], out[4 * i + 3] := bytes[0], bytes[1], bytes[2], bytes[3];
      assert h[..i + 1][..i] == h[..i];
      assert out[..4 * (i + 1)] == out[..4 * i] + bytes;
    }
    assert out[..32] == out[..] && h[..8] == h[..];
  }

  method Sha256(input: seq<Byte>) returns (out: array<Byte>)
    requires 8 * |input| < Pow2(64)
    ensures fresh(out) && out[..] == Digest(input)
  {
    hide *;
    var msg := PadMessage(input);
    var h := InitialWords();
    CompressAll(h, msg);
    out := new Byte[32];
    WriteWords(h, out);
    DigestIs(input);
  }

  method InitialWords() returns (h: array<Word>)
    ensures fresh(h) && h.Length == 8 && h[..] == Words(H0)
  {
    h := new Word[8];
    h[0], h[1], h[2], h[3] := H0.a, H0.b, H0.c, H0.d;
    h[4], h[5], h[6], h[7] := H0.e, H0.f, H0.g, H0.h;
    hide Words;
    EightWords(h[..], H0);
  }

  lemma DigestIs(input: seq<Byte>)
    ensures Digest(input) == WordBytes(Words(Blocks(Pad(input), |Pad(input)| / 64)))
  {}

  lemma HexNext(bytes: seq<Byte>, i: nat)
    requires i < |bytes|
    ensures HexOfBytes(bytes[..i + 1]) == HexOfBytes(bytes[..i]) + Hex(bytes[i], 2)
  {
    assert bytes[..i + 1][..i] == bytes[..i];
  }

  method Sha256Hex(bytes: seq<Byte>) returns (text: string)
    requires 8 * |bytes| < Pow2(64)
    ensures text == HexDigest(bytes)
  {
    var digest := Sha256(bytes);
    text := "";
    hide Digest, Hex, HexOfBytes, Pow2;
    assert HexOfBytes(digest[..0]) == "" by { NoHex(); }
    for i := 0 to digest.Length
      invariant text == HexOfBytes(digest[..i])
      invariant digest[..] == Digest(bytes)
    {
      HexNext(digest[..], i);
      assert digest[..][..i] == digest[..i] && digest[..][..i + 1] == digest[..i + 1];
      text := text + Hex(digest[i], 2);
    }
    assert digest[..digest.Length] == digest[..];
  }

  lemma NoHex()
    ensures HexOfBytes([]) == ""
  {}
}
