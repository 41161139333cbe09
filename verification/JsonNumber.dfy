/** continuity-core/src/canonicalization.rs, `is_valid_json_number`, against the number grammar of
    RFC 8259, section 6. */
module JsonNumber {
  predicate IsDigit(c: char) { '0' <= c <= '9' }

  predicate AllDigits(s: string) { forall i :: 0 <= i < |s| ==> IsDigit(s[i]) }

  predicate Digits(s: string) { s != "" && AllDigits(s) }

  /** int = zero / ( digit1-9 *DIGIT ) */
  predicate IsInt(s: string) { s == "0" || (Digits(s) && s[0] != '0') }

  /** [ frac ], where frac = decimal-point 1*DIGIT */
  predicate IsFrac(s: string) { s == "" || (s[0] == '.' && Digits(s[1..])) }

  /** [ exp ], where exp = e [ minus / plus ] 1*DIGIT */
  predicate IsExp(s: string) {
    s == "" || ((s[0] == 'e' || s[0] == 'E') && (Digits(s[1..]) || (|s| > 2 && (s[1] == '+' || s[1] == '-') && Digits(s[2..]))))
  }

  /** The cuts at `m`, `a` and `b` split `s` as [ minus ] int [ frac ] [ exp ]. */
  predicate Splits(s: string, m: nat, a: nat, b: nat) {
    && m <= a <= b <= |s|
    && (s[..m] == "" || s[..m] == "-")
    && IsInt(s[m..a])
    && IsFrac(s[a..b])
    && IsExp(s[b..])
  }

  ghost predicate IsNumber(s: string) {
    exists m, a, b :: Splits(s, m, a, b)
  }

  // ----- A split is unique -----

  function SignLength(s: string): nat { if s != "" && s[0] == '-' then 1 else 0 }

  function DigitsEnd(s: string, i: nat): (end: nat)
    requires i <= |s|
    ensures i <= end <= |s|
    ensures AllDigits(s[i..end])
    ensures end < |s| ==> !IsDigit(s[end])
    decreases |s| - i
  {
    if i < |s| && IsDigit(s[i]) then
      var end := DigitsEnd(s, i + 1);
      assert s[i..end] == [s[i]] + s[i + 1..end];
      end
    else i
  }

  lemma DigitRunEnds(s: string, i: nat, j: nat)
    requires i <= j <= |s| && AllDigits(s[i..j])
    requires j < |s| ==> !IsDigit(s[j])
    ensures j == DigitsEnd(s, i)
  {
    EachIsDigit(s, i, j);
    EachIsDigit(s, i, DigitsEnd(s, i));
  }

  lemma EachIsDigit(s: string, i: nat, j: nat)
    requires i <= j <= |s| && AllDigits(s[i..j])
    ensures forall k :: i <= k < j ==> IsDigit(s[k])
  {
    forall k | i <= k < j ensures IsDigit(s[k]) {
      assert s[i..j][k - i] == s[k];
    }
  }

  lemma SplitSign(s: string, m: nat, a: nat, b: nat)
    requires Splits(s, m, a, b)
    ensures m == SignLength(s) && m < a && IsDigit(s[m])
  {
    assert s[m..a][0] == s[m];
    if m == 1 {
      assert s[..1][0] == s[0];
    }
  }

  lemma SplitInt(s: string, m: nat, a: nat, b: nat)
    requires Splits(s, m, a, b)
    ensures m < |s|
    ensures s[m] == '0' ==> a == m + 1
    ensures s[m] != '0' ==> a == DigitsEnd(s, m)
    ensures a < |s| ==> s[a] == '.' || s[a] == 'e' || s[a] == 'E'
  {
    SplitSign(s, m, a, b);
    assert s[m..a][0] == s[m];
    if a < |s| {
      if a < b { assert s[a..b][0] == s[a]; } else { assert s[b..][0] == s[a]; }
    }
    if s[m] != '0' {
      DigitRunEnds(s, m, a);
    }
  }

  lemma SplitFrac(s: string, m: nat, a: nat, b: nat)
    requires Splits(s, m, a, b)
    ensures a < |s| && s[a] == '.' ==> b > a + 1 && b == DigitsEnd(s, a + 1)
    ensures !(a < |s| && s[a] == '.') ==> b == a
  {
    if a < b {
      assert s[a..b][0] == s[a] && s[a..b][1..] == s[a + 1..b];
      if b < |s| { assert s[b..][0] == s[b]; }
      DigitRunEnds(s, a + 1, b);
    } else if a < |s| {
      assert s[b..][0] == s[a];
    }
  }

  // ----- The scanner -----

  /** Every index the scanner reads is in bounds, and it accepts exactly the grammar. */
  method IsValidJsonNumber(bytes: string) returns (valid: bool)
    ensures valid <==> IsNumber(bytes)
  {
    hide IsInt, IsFrac, IsExp;
    if bytes == "" || bytes == "-" {
      forall m, a, b | Splits(bytes, m, a, b) ensures false { SplitSign(bytes, m, a, b); }
      return false;
    }
    var index := 0;
    if bytes[index] == '-' {
      index := index + 1;
      if index == |bytes| {
        return false;
      }
    }
    ghost var sign := index;
    var ok;
    ok, index := ScanInt(bytes, index);
    if !ok {
      return false;
    }
    ghost var point := index;
    ok, index := ScanFrac(bytes, sign, index);
    if !ok {
      return false;
    }
    valid := ScanExponent(bytes, index);
    assert valid ==> Splits(bytes, sign, point, index);
  }

  method ScanInt(bytes: string, start: nat) returns (ok: bool, index: nat)
    requires start == SignLength(bytes) < |bytes|
    ensures ok ==> start <= index <= |bytes| && IsInt(bytes[start..index])
    ensures forall m, a, b :: Splits(bytes, m, a, b) ==> ok && m == start && a == index
  {
    hide IsFrac, IsExp;
    ok, index := true, start;
    if bytes[index] == '0' {
      index := index + 1;
    } else if IsDigit(bytes[index]) && bytes[index] != '0' {
      index := index + 1;
      index := SkipDigits(bytes, index);
      assert bytes[start..index] == [bytes[start]] + bytes[start + 1..index];
      DigitRunEnds(bytes, start, index);
    } else {
      ok := false;
    }
    forall m, a, b | Splits(bytes, m, a, b) ensures ok && m == start && a == index {
      SplitSign(bytes, m, a, b);
      SplitInt(bytes, m, a, b);
    }
  }

  method ScanFrac(bytes: string, ghost sign: nat, start: nat) returns (ok: bool, index: nat)
    requires start <= |bytes|
    requires forall m, a, b :: Splits(bytes, m, a, b) ==> m == sign && a == start
    ensures ok ==> start <= index <= |bytes| && IsFrac(bytes[start..index])
    ensures forall m, a, b :: Splits(bytes, m, a, b) ==> ok && b == index
  {
    hide IsInt, IsExp;
    ok, index := true, start;
    if index < |bytes| && bytes[index] == '.' {
      index := index + 1;
      var digits := index;
      index := SkipDigits(bytes, index);
      ok := index != digits;
      assert bytes[start..index][1..] == bytes[digits..index];
    }
    forall m, a, b | Splits(bytes, m, a, b) ensures ok && b == index { SplitFrac(bytes, m, a, b); }
  }

  method SkipDigits(bytes: string, start: nat) returns (index: nat)
    requires start <= |bytes|
    ensures index == DigitsEnd(bytes, start)
  {
    index := start;
    while index < |bytes| && IsDigit(bytes[index])
      invariant start <= index <= |bytes|
      invariant DigitsEnd(bytes, index) == DigitsEnd(bytes, start)
    {
      index := index + 1;
    }
  }

  method ScanExponent(bytes: string, from: nat) returns (valid: bool)
    requires from <= |bytes|
    ensures valid <==> IsExp(bytes[from..])
  {
    var index := from;
    ghost var exp := bytes[from..];
    if index < |bytes| && (bytes[index] == 'e' || bytes[index] == 'E') {
      index := index + 1;
      if index < |bytes| && (bytes[index] == '+' || bytes[index] == '-') {
        index := index + 1;
        assert exp[1] == bytes[from + 1];
      }
      var start := index;
      index := SkipDigits(bytes, index);
      assert exp[start - from..] == bytes[start..];
      DigitSuffix(bytes, start);
      if index == start {
        assert !Digits(bytes[start..]) by { if start < |bytes| { assert bytes[start..][0] == bytes[start]; } }
        return false;
      }
    }
    valid := index == |bytes|;
  }

  lemma DigitSuffix(s: string, i: nat)
    requires i <= |s|
    ensures AllDigits(s[i..]) <==> DigitsEnd(s, i) == |s|
  {
    assert s[i..|s|] == s[i..];
    if AllDigits(s[i..]) {
      DigitRunEnds(s, i, |s|);
    }
  }

  // ----- What a reader of a longer text needs -----

  predicate IsNumberChar(c: char) { IsDigit(c) || c == '-' || c == '+' || c == '.' || c == 'e' || c == 'E' }

  lemma NumberChars(s: string)
    requires IsNumber(s)
    ensures s != "" && (IsDigit(s[0]) || s[0] == '-')
    ensures forall i :: 0 <= i < |s| ==> IsNumberChar(s[i])
  {
    var m: nat, a: nat, b: nat :| Splits(s, m, a, b);
    SplitSign(s, m, a, b);
    forall i | 0 <= i < |s| ensures IsNumberChar(s[i]) {
      if i < m {
        assert s[..m][i] == s[i];
      } else if i < a {
        assert s[m..a][i - m] == s[i];
      } else if i < b {
        assert s[a..b][i - a] == s[i];
        if i > a { assert s[a..b][1..][i - a - 1] == s[i]; }
      } else {
        var e := s[b..];
        assert e[i - b] == s[i];
        if i > b { assert e[1..][i - b - 1] == s[i]; }
        if i > b + 1 { assert e[2..][i - b - 2] == s[i]; }
      }
    }
  }
}
