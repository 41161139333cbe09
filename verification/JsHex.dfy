/** src/canonical.js, the hexadecimal text of `sha256Hex`. */
module JsHex {
  import opened Fips180
  import opened Prelude

  function ToBase16(x: nat): string { if x < 16 then [HexDigit(x)] else ToBase16(x / 16) + [HexDigit(x % 16)] }

  function PadStart(text: string, n: nat): string
    decreases n - |text|
  {
    if |text| >= n then text else PadStart("0" + text, n)
  }

  lemma {:induction false} PadStartIsHex(x: nat, n: nat)
    requires n > 0 && x < Pow2(4 * n)
    ensures |ToBase16(x)| <= n
    ensures PadStart(ToBase16(x), n) == Hex(x, n)
  {
    if x < 16 {
      LeadingZeros([HexDigit(x)], x, 1, n);
    } else {
      Pow2Of4(4 * n - 4);
      assert n > 1;
      PadStartIsHex(x / 16, n - 1);
      PadStartAppend(ToBase16(x / 16), HexDigit(x % 16), n);
    }
  }

  lemma Pow2Of4(n: nat)
    ensures Pow2(n + 4) == 16 * Pow2(n)
  {
    assert Pow2(n + 2) == 4 * Pow2(n);
  }

  lemma {:induction false} PadStartAppend(text: string, c: char, n: nat)
    requires 0 < n && |text| < n
    ensures PadStart(text + [c], n) == PadStart(text, n - 1) + [c]
    decreases n - |text|
  {
    if |text| < n - 1 {
      assert "0" + (text + [c]) == ("0" + text) + [c];
      PadStartAppend("0" + text, c, n);
    }
  }

  lemma {:induction false} LeadingZeros(text: string, x: nat, k: nat, n: nat)
    requires x < 16 && 0 < k <= n && text == Hex(x, k)
    ensures PadStart(text, n) == Hex(x, n)
    decreases n - k
  {
    if k < n {
      HexLeadingZero(x, k);
      LeadingZeros("0" + text, x, k + 1, n);
    }
  }

  lemma HexStep(x: nat, k: nat)
    requires x < 16
    ensures Hex(x, k + 1) == Hex(0, k) + [HexDigit(x)]
  {
    assert x / 16 == 0 && x % 16 == x;
  }

  lemma {:induction false} HexLeadingZero(x: nat, k: nat)
    requires x < 16 && 0 < k
    ensures Hex(x, k + 1) == "0" + Hex(x, k)
  {
    HexStep(x, k);
    HexStep(x, k - 1);
    if k == 1 {
      HexStep(0, 0);
    } else {
      HexLeadingZero(0, k - 1);
    }
  }

  lemma HexOfWord(w: Word)
    ensures HexOfBytes(BigEndian(w, 4)) == Hex(w, 8)
  {
    HexByBytes(w, 4);
  }

  /** Two hexadecimal digits are one byte. */
  lemma TwoDigits(x: nat, n: nat)
    ensures Hex(x, n + 2) == Hex(x / 256, n) + Hex(x % 256, 2)
  {
    assert x / 16 / 16 == x / 256 && x % 256 / 16 == x / 16 % 16 && x % 256 % 16 == x % 16;
    LastDigit(x, n + 1);
    LastDigit(x / 16, n);
    LastDigit(x % 256, 1);
    LastDigit(x % 256 / 16, 0);
    hide Hex, HexDigit;
    assert Hex(x % 256 / 16 / 16, 0) == "";
  }

  lemma LastDigit(x: nat, n: nat)
    ensures Hex(x, n + 1) == Hex(x / 16, n) + [HexDigit(x % 16)]
  {}

  lemma LastByte(x: nat, n: nat)
    ensures HexOfBytes(BigEndian(x, n + 1)) == HexOfBytes(BigEndian(x / 256, n)) + Hex(x % 256, 2)
  {
    var b := BigEndian(x, n + 1);
    assert b[..|b| - 1] == BigEndian(x / 256, n) && b[|b| - 1] == x % 256;
    hide Hex, BigEndian;
  }

  lemma {:induction false} HexByBytes(x: nat, n: nat)
    ensures HexOfBytes(BigEndian(x, n)) == Hex(x, 2 * n)
  {
    NoBytes(x);
    hide *;
    if n > 0 {
      HexByBytes(x / 256, n - 1);
      LastByte(x, n - 1);
      TwoDigits(x, 2 * (n - 1));
    }
  }

  lemma NoBytes(x: nat)
    ensures HexOfBytes(BigEndian(x, 0)) == Hex(x, 0) && HexOfBytes([]) == ""
  {}

  lemma HexLast(front: seq<Byte>, last: Byte)
    ensures HexOfBytes(front + [last]) == HexOfBytes(front) + Hex(last, 2)
  {
    assert (front + [last])[..|front|] == front;
  }

  lemma Regroup(a: string, b: string, c: string)
    ensures (a + b) + c == a + (b + c)
  {}

  lemma {:induction false} HexOfConcat(a: seq<Byte>, b: seq<Byte>)
    ensures HexOfBytes(a + b) == HexOfBytes(a) + HexOfBytes(b)
  {
    NoBytes(0);
    hide *;
    if b == [] {
      assert a + b == a;
      assert HexOfBytes(a) + "" == HexOfBytes(a);
    } else {
      var front, last := b[..|b| - 1], b[|b| - 1];
      assert b == front + [last];
      assert a + b == (a + front) + [last];
      HexOfConcat(a, front);
      HexLast(a + front, last);
      HexLast(front, last);
      Regroup(HexOfBytes(a), HexOfBytes(front), Hex(last, 2));
    }
  }
}
