/** The number arithmetic of src/canonical.js.  A JavaScript number is an `int`; the bitwise
    operators convert their operands to 32 bits and give signed results (ToInt32, ToUint32 of
    ECMA-262, sections 7.1.6 and 7.1.7); `+` is exact only up to 2^53, which `Plus` demands. */
module JsNumbers {
  import opened Fips180

  const HALF := 0x8000_0000
  const MAX_EXACT := 0x20_0000_0000_0000

  function ToUint32(x: int): Word { x % M }
  function ToInt32(x: int): int { if x % M >= HALF then x % M - M else x % M }

  function Plus(x: int, y: int): int
    requires -MAX_EXACT <= x + y <= MAX_EXACT
  {
    x + y
  }

  function BitAnd(x: int, y: int): int { ToInt32(And(ToUint32(x), ToUint32(y))) }
  function BitOr(x: int, y: int): int { ToInt32(Or(ToUint32(x), ToUint32(y))) }
  function BitXor(x: int, y: int): int { ToInt32(Xor(ToUint32(x), ToUint32(y))) }
  function BitNot(x: int): int { -ToInt32(x) - 1 }
  function ShiftLeft(x: int, n: nat): int { ToInt32(ToInt32(x) * Pow2(n)) }
  function ShiftRight6(x: int): int { ToInt32(x) / 64 }
  function ShiftRightUnsigned(x: int, n: nat): Word { Shr(ToUint32(x), n) }

  function RightRotate(value: int, amount: nat): int
    requires amount <= 32
  {
    BitOr(ShiftRightUnsigned(value, amount), ShiftLeft(value, 32 - amount))
  }

  // ----- Signed results carry the unsigned word -----

  lemma Congruent(x: int, y: int, k: int)
    requires x == y - k * M
    ensures x % M == y % M
  {}

  /** The signed form differs from the word by nothing or by 2^32. */
  lemma SignedForm(x: int)
    ensures ToInt32(x) == ToUint32(x) || ToInt32(x) == ToUint32(x) - M
    ensures ToUint32(ToInt32(x)) == ToUint32(x)
    ensures -HALF <= ToInt32(x) < HALF
  {}

  lemma SmallIsUnchanged(x: int)
    requires -HALF <= x < HALF
    ensures ToInt32(x) == x
  {}

  lemma DoubledProduct(x: int, n: nat)
    requires n > 0
    ensures x * Pow2(n) == 2 * x * Pow2(n - 1)
  {
    var p := Pow2(n - 1);
    assert x * (2 * p) == 2 * x * p;
  }

  lemma DoubledWord(x: int)
    ensures ToUint32(2 * ToUint32(x)) == ToUint32(2 * x)
  {
    Congruent(2 * (x % M), 2 * x, 2 * (x / M));
  }

  lemma {:induction false} ShlIsProduct(x: int, n: nat)
    ensures ToUint32(x * Pow2(n)) == Shl(ToUint32(x), n)
    decreases n
  {
    if n > 0 {
      hide Pow2;
      DoubledProduct(x, n);
      DoubledWord(x);
      ShlIsProduct(2 * x, n - 1);
    }
  }

  lemma ShiftLeftAgrees(value: Word, n: nat)
    ensures ToUint32(ShiftLeft(value, n)) == Shl(value, n)
  {
    hide Shl, Pow2, ToUint32, ToInt32;
    SignedForm(value);
    ShlIsProduct(ToInt32(value), n);
    SignedForm(ToInt32(value) * Pow2(n));
    WordIsUnchanged(value);
  }

  lemma WordIsUnchanged(value: Word)
    ensures ToUint32(value) == value
    ensures ToUint32(ToInt32(value)) == value
  {}

  lemma RotateAgrees(value: Word, amount: nat)
    requires amount <= 32
    ensures ToUint32(RightRotate(value, amount)) == Rotr(value, amount)
  {
    hide Or, Shr, Shl, ToUint32, ToInt32, ShiftLeft;
    ShiftLeftAgrees(value, 32 - amount);
    WordIsUnchanged(value);
    WordIsUnchanged(Shr(value, amount));
    WordIsUnchanged(Or(Shr(value, amount), Shl(value, 32 - amount)));
  }

  lemma Xor3Agrees(x: int, y: int, z: int)
    ensures ToUint32(BitXor(BitXor(x, y), z)) == Xor(Xor(ToUint32(x), ToUint32(y)), ToUint32(z))
  {
    hide Xor, ToInt32, ToUint32;
    WordIsUnchanged(Xor(ToUint32(x), ToUint32(y)));
    WordIsUnchanged(Xor(Xor(ToUint32(x), ToUint32(y)), ToUint32(z)));
  }

  function Sigma(x: int, p: nat, q: nat, r: nat): int
    requires p <= 32 && q <= 32 && r <= 32
  {
    BitXor(BitXor(RightRotate(x, p), RightRotate(x, q)), RightRotate(x, r))
  }

  function SmallSigma(x: int, p: nat, q: nat, r: nat): int
    requires p <= 32 && q <= 32
  {
    BitXor(BitXor(RightRotate(x, p), RightRotate(x, q)), ShiftRightUnsigned(x, r))
  }

  lemma SigmaAgrees(x: Word, p: nat, q: nat, r: nat)
    requires p <= 32 && q <= 32 && r <= 32
    ensures ToUint32(Sigma(x, p, q, r)) == Xor(Xor(Rotr(x, p), Rotr(x, q)), Rotr(x, r))
    ensures ToUint32(SmallSigma(x, p, q, r)) == Xor(Xor(Rotr(x, p), Rotr(x, q)), Shr(x, r))
  {
    hide Xor, Rotr, Shr, RightRotate, BitXor, ToUint32;
    WordIsUnchanged(x);
    WordIsUnchanged(Shr(x, r));
    RotateAgrees(x, p);
    RotateAgrees(x, q);
    RotateAgrees(x, r);
    Xor3Agrees(RightRotate(x, p), RightRotate(x, q), RightRotate(x, r));
    Xor3Agrees(RightRotate(x, p), RightRotate(x, q), Shr(x, r));
  }

  function Choose(e: int, f: int, g: int): int { BitXor(BitAnd(e, f), BitAnd(BitNot(e), g)) }

  function Majority(a: int, b: int, c: int): int { BitXor(BitXor(BitAnd(a, b), BitAnd(a, c)), BitAnd(b, c)) }

  lemma NotAgrees(e: Word)
    ensures ToUint32(BitNot(e)) == Not(e)
  {}

  lemma ChooseAgrees(e: Word, f: Word, g: Word)
    ensures ToUint32(Choose(e, f, g)) == Ch(e, f, g)
  {
    hide Xor, And, ToInt32, ToUint32, Not, BitNot;
    NotAgrees(e);
    WordIsUnchanged(e);
    WordIsUnchanged(f);
    WordIsUnchanged(g);
    WordIsUnchanged(And(e, f));
    WordIsUnchanged(And(Not(e), g));
    WordIsUnchanged(Xor(And(e, f), And(Not(e), g)));
  }

  lemma MajorityAgrees(a: Word, b: Word, c: Word)
    ensures ToUint32(Majority(a, b, c)) == Maj(a, b, c)
  {
    hide Xor, And, BitXor, ToInt32, ToUint32;
    WordIsUnchanged(a);
    WordIsUnchanged(b);
    WordIsUnchanged(c);
    WordIsUnchanged(And(a, b));
    WordIsUnchanged(And(a, c));
    WordIsUnchanged(And(b, c));
    Xor3Agrees(BitAnd(a, b), BitAnd(a, c), BitAnd(b, c));
  }

  /** A sum with signed terms, wrapped once, is the sum of the words. */
  lemma SumAgrees(words: int, x: int, y: int)
    ensures ToUint32(words + x + y) == (words + ToUint32(x) + ToUint32(y)) % M
  {
    Congruent(words + x % M + y % M, words + x + y, x / M + y / M);
  }
}
