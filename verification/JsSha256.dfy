/** src/canonical.js, `sha256Hex`: the block loop over signed, unsigned and double arithmetic. */
module JsSha256 {
  import opened Fips180
  import opened Prelude
  import opened JsHex
  import opened JsNumbers
  import opened JsPadding

  method FillSchedule(w: array<int>, block: seq<Byte>)
    requires w.Length == 64 && |block| == 64
    modifies w
    ensures forall j :: 0 <= j < 64 ==> w[j] == Schedule(block, j)
  {
    hide SmallSigma, SmallSigma0, SmallSigma1, WordAt, ToUint32;
    for i := 0 to 16
      invariant forall j :: 0 <= j < i ==> w[j] == Schedule(block, j)
    {
      w[i] := WordAt(block, i * 4);
    }
    for i := 16 to 64
      invariant forall j :: 0 <= j < i ==> w[j] == Schedule(block, j)
    {
      w[i] := NextWord(w[i - 16], w[i - 15], w[i - 7], w[i - 2]);
    }
  }

  method NextWord(w16: Word, w15: Word, w7: Word, w2: Word) returns (w: Word)
    ensures w == (SmallSigma1(w2) + w7 + SmallSigma0(w15) + w16) % M
  {
    hide SmallSigma, SmallSigma0, SmallSigma1, ToInt32, ToUint32;
    var s0, s1 := SmallSigma(w15, 7, 18, 3), SmallSigma(w2, 17, 19, 10);
    SmallSigmaRange(w15, 7, 18, 3);
    SmallSigmaRange(w2, 17, 19, 10);
    w := ToUint32(Plus(Plus(Plus(w16, s0), w7), s1));
    SmallSigmasAgree(w15, w2);
    SumAgrees(w16 + w7, s0, s1);
    assert w == ToUint32(w16 + w7 + s0 + s1);
  }

  lemma SmallSigmasAgree(w15: Word, w2: Word)
    ensures ToUint32(SmallSigma(w15, 7, 18, 3)) == SmallSigma0(w15)
    ensures ToUint32(SmallSigma(w2, 17, 19, 10)) == SmallSigma1(w2)
  {
    hide SmallSigma, ToUint32, Xor, Rotr, Shr;
    SigmaAgrees(w15, 7, 18, 3);
    SigmaAgrees(w2, 17, 19, 10);
  }

  lemma SmallSigmaRange(x: int, p: nat, q: nat, r: nat)
    requires p <= 32 && q <= 32
    ensures -HALF <= SmallSigma(x, p, q, r) < HALF
  {
    SignedForm(Xor(ToUint32(BitXor(RightRotate(x, p), RightRotate(x, q))), ToUint32(ShiftRightUnsigned(x, r))));
  }

  lemma SigmaRange(x: int, p: nat, q: nat, r: nat)
    requires p <= 32 && q <= 32 && r <= 32
    ensures -HALF <= Sigma(x, p, q, r) < HALF
  {
    SignedForm(Xor(ToUint32(BitXor(RightRotate(x, p), RightRotate(x, q))), ToUint32(RightRotate(x, r))));
  }

  method Temporaries(s: State, k: Word, w: Word) returns (temp1: Word, temp2: Word)
    ensures temp1 == (s.h + BigSigma1(s.e) + Ch(s.e, s.f, s.g) + k + w) % M
    ensures temp2 == (BigSigma0(s.a) + Maj(s.a, s.b, s.c)) % M
  {
    hide Sigma, Choose, Majority, ToInt32, ToUint32, BigSigma0, BigSigma1, Ch, Maj;
    var s1, ch := Sigma(s.e, 6, 11, 25), Choose(s.e, s.f, s.g);
    SigmaRange(s.e, 6, 11, 25);
    LogicalRange(s);
    temp1 := ToUint32(Plus(Plus(Plus(Plus(s.h, s1), ch), k), w));
    var s0, maj := Sigma(s.a, 2, 13, 22), Majority(s.a, s.b, s.c);
    SigmaRange(s.a, 2, 13, 22);
    temp2 := ToUint32(Plus(s0, maj));
    BigSigmasAgree(s);
    ChooseAgrees(s.e, s.f, s.g);
    MajorityAgrees(s.a, s.b, s.c);
    SumAgrees(s.h + k + w, s1, ch);
    SumAgrees(0, s0, maj);
  }

  lemma BigSigmasAgree(s: State)
    ensures ToUint32(Sigma(s.e, 6, 11, 25)) == BigSigma1(s.e)
    ensures ToUint32(Sigma(s.a, 2, 13, 22)) == BigSigma0(s.a)
  {
    hide Sigma, ToUint32, Xor, Rotr;
    SigmaAgrees(s.e, 6, 11, 25);
    SigmaAgrees(s.a, 2, 13, 22);
  }

  lemma LogicalRange(s: State)
    ensures -HALF <= Choose(s.e, s.f, s.g) < HALF
    ensures -HALF <= Majority(s.a, s.b, s.c) < HALF
  {
    hide Xor, And, BitAnd, BitNot;
    SignedForm(Xor(ToUint32(BitAnd(s.e, s.f)), ToUint32(BitAnd(BitNot(s.e), s.g))));
    SignedForm(Xor(ToUint32(BitXor(BitAnd(s.a, s.b), BitAnd(s.a, s.c))), ToUint32(BitAnd(s.b, s.c))));
  }

  method RunRounds(s: State, w: array<int>, ghost block: seq<Byte>) returns (r: State)
    requires w.Length == 64 && |block| == 64
    requires forall j :: 0 <= j < 64 ==> w[j] == Schedule(block, j)
    ensures r == Rounds(s, block, 64)
  {
    hide BigSigma0, BigSigma1, Ch, Maj, Schedule;
    var a, b, c, d, e, f, g, hh := s.a, s.b, s.c, s.d, s.e, s.f, s.g, s.h;
    for i := 0 to 64
      invariant State(a, b, c, d, e, f, g, hh) == Rounds(s, block, i)
    {
      var temp1, temp2 := Temporaries(State(a, b, c, d, e, f, g, hh), K[i], w[i]);
      hh := g;
      g := f;
      f := e;
      e := ToUint32(Plus(d, temp1));
      d := c;
      c := b;
      b := a;
      a := ToUint32(Plus(temp1, temp2));
    }
    r := State(a, b, c, d, e, f, g, hh);
  }

  method CompressBlock(h: array<int>, w: array<int>, block: seq<Byte>, ghost s: State)
    requires h.Length == 8 && w.Length == 64 && h != w && |block| == 64
    requires h[..] == Words(s)
    modifies h, w
    ensures h[..] == Words(Compress(s, block))
  {
    hide Rounds, Schedule, Words, AddStates;
    FillSchedule(w, block);
    assert h[..] == Words(s);
    var r := RunRoundsFrom(h, w, block, s);
    AddInto(h, s, r);
  }

  method RunRoundsFrom(h: array<int>, w: array<int>, ghost block: seq<Byte>, ghost s: State) returns (r: State)
    requires h.Length == 8 && w.Length == 64 && |block| == 64
    requires h[..] == Words(s)
    requires forall j :: 0 <= j < 64 ==> w[j] == Schedule(block, j)
    ensures r == Rounds(s, block, 64)
  {
    hide Rounds, Schedule, Words;
    var before := Unpack(h, s);
    r := RunRounds(before, w, block);
  }

  /** The eight additions that close a block. */
  method AddInto(h: array<int>, ghost s: State, r: State)
    requires h.Length == 8 && h[..] == Words(s)
    modifies h
    ensures h[..] == Words(AddStates(s, r))
  {
    hide Words, AddStates;
    var before := Unpack(h, s);
    AddFirst(h, before, r);
    AddLast(h, before, r);
    SumsAgree(before, r);
    EightNumbers(h[..], AddStates(before, r));
  }

  method AddFirst(h: array<int>, ghost s: State, r: State)
    requires h.Length == 8 && h[0] == s.a && h[1] == s.b && h[2] == s.c && h[3] == s.d
    modifies h
    ensures h[0] == ToUint32(s.a + r.a) && h[1] == ToUint32(s.b + r.b) && h[2] == ToUint32(s.c + r.c) && h[3] == ToUint32(s.d + r.d)
    ensures forall i :: 4 <= i < 8 ==> h[i] == old(h[i])
  {
    h[0] := ToUint32(Plus(h[0], r.a));
    h[1] := ToUint32(Plus(h[1], r.b));
    h[2] := ToUint32(Plus(h[2], r.c));
    h[3] := ToUint32(Plus(h[3], r.d));
  }

  method AddLast(h: array<int>, ghost s: State, r: State)
    requires h.Length == 8 && h[4] == s.e && h[5] == s.f && h[6] == s.g && h[7] == s.h
    modifies h
    ensures h[4] == ToUint32(s.e + r.e) && h[5] == ToUint32(s.f + r.f) && h[6] == ToUint32(s.g + r.g) && h[7] == ToUint32(s.h + r.h)
    ensures forall i :: 0 <= i < 4 ==> h[i] == old(h[i])
  {
    h[4] := ToUint32(Plus(h[4], r.e));
    h[5] := ToUint32(Plus(h[5], r.f));
    h[6] := ToUint32(Plus(h[6], r.g));
    h[7] := ToUint32(Plus(h[7], r.h));
  }

  lemma EightNumbers(w: seq<int>, s: State)
    requires |w| == 8 && w[0] == s.a && w[1] == s.b && w[2] == s.c && w[3] == s.d
    requires w[4] == s.e && w[5] == s.f && w[6] == s.g && w[7] == s.h
    ensures w == Words(s)
  {}

  lemma SumsAgree(s: State, r: State)
    ensures AddStates(s, r) == State(ToUint32(s.a + r.a), ToUint32(s.b + r.b), ToUint32(s.c + r.c), ToUint32(s.d + r.d),
                                     ToUint32(s.e + r.e), ToUint32(s.f + r.f), ToUint32(s.g + r.g), ToUint32(s.h + r.h))
  {}

  method Unpack(h: array<int>, ghost s: State) returns (before: State)
    requires h.Length == 8 && h[..] == Words(s)
    ensures before == s
    ensures h[0] == s.a && h[1] == s.b && h[2] == s.c && h[3] == s.d
    ensures h[4] == s.e && h[5] == s.f && h[6] == s.g && h[7] == s.h
  {
    assert h[..][0] == s.a && h[..][1] == s.b && h[..][2] == s.c && h[..][3] == s.d;
    assert h[..][4] == s.e && h[..][5] == s.f && h[..][6] == s.g && h[..][7] == s.h;
    before := State(h[0], h[1], h[2], h[3], h[4], h[5], h[6], h[7]);
  }

  // ----- Output -----

  /** None exactly where the source throws; otherwise the FIPS 180-4 digest. */
  method Sha256Hex(bytes: seq<Byte>) returns (r: Option<string>)
    ensures r.Some? <==> |bytes| < HALF - 72
    ensures r.Some? ==> r.value == HexDigest(bytes)
  {
    hide Words, Blocks, HexOfBytes, WordBytes;
    var buffer := PadBuffer(bytes);
    if buffer == None {
      return None;
    }
    var padded := buffer.value;
    var h := new int[8];
    h[0], h[1], h[2], h[3] := H0.a, H0.b, H0.c, H0.d;
    h[4], h[5], h[6], h[7] := H0.e, H0.f, H0.g, H0.h;
    EightNumbers(h[..], H0);
    CompressAll(h, padded);
    assert h[..] == Words(Hash(bytes));
    var text := JoinHex(h, Words(Hash(bytes)));
    return Some(text);
  }

  method JoinHex(h: array<int>, ghost words: seq<Word>) returns (text: string)
    requires h[..] == words
    ensures text == HexOfBytes(WordBytes(words))
  {
    hide HexOfBytes, WordBytes, ToBase16, PadStart;
    text := "";
    EmptyHex();
    for i := 0 to h.Length
      invariant text == HexOfBytes(WordBytes(words[..i]))
    {
      assert h[i] == words[i];
      text := text + PadStart(ToBase16(h[i]), 8);
      AppendWord(words, i);
    }
    assert words[..h.Length] == words;
  }

  lemma EmptyHex()
    ensures HexOfBytes(WordBytes([])) == ""
  {}

  lemma AppendWord(words: seq<Word>, i: nat)
    requires i < |words|
    ensures HexOfBytes(WordBytes(words[..i + 1])) == HexOfBytes(WordBytes(words[..i])) + PadStart(ToBase16(words[i]), 8)
  {
    assert words[..i + 1][..i] == words[..i];
    HexOfConcat(WordBytes(words[..i]), BigEndian(words[i], 4));
    HexOfWord(words[i]);
    Pow2Of32();
    assert Pow2(4 * 8) == Pow2(32);
    PadStartIsHex(words[i], 8);
  }

  method CompressAll(h: array<int>, padded: seq<Byte>)
    requires h.Length == 8 && |padded| % 64 == 0
    requires h[..] == Words(H0)
    modifies h
    ensures h[..] == Words(Blocks(padded, |padded| / 64))
  {
    hide Compress, Words;
    var w := new int[64];
    for n := 0 to |padded| / 64
      invariant h[..] == Words(Blocks(padded, n))
    {
      CompressBlock(h, w, padded[64 * n..64 * (n + 1)], Blocks(padded, n));
    }
  }
}
