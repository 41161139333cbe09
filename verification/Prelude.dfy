/** Types and sequence facts that several components share. */
module Prelude {
  datatype Option<+T> = None | Some(value: T)

  /** A hash whose texts are 64 characters, as SHA-256 in hexadecimal. */
  ghost predicate DigestSized(hash: string -> string) { forall text :: |hash(text)| == 64 }

  predicate Distinct<T(==)>(s: seq<T>) {
    forall i, j :: 0 <= i < j < |s| ==> s[i] != s[j]
  }

  lemma DistinctAppend<T>(s: seq<T>, x: T)
    requires Distinct(s) && x !in s
    ensures Distinct(s + [x])
  {}

  lemma DistinctSingle<T>(x: T)
    ensures Distinct([x])
  {}

  lemma DistinctTail<T>(s: seq<T>)
    requires Distinct(s) && s != []
    ensures Distinct(s[1..]) && forall x :: x in s[1..] <==> x in s && x != s[0]
  {
    forall x | x in s && x != s[0] ensures x in s[1..] {
      var i :| 0 <= i < |s| && s[i] == x;
      assert s[1..][i - 1] == x;
    }
  }

  lemma DistinctCardinality<T>(s: seq<T>)
    requires Distinct(s)
    ensures |(set x | x in s)| == |s|
  {
    if s != [] {
      var n := |s| - 1;
      assert (set x | x in s) == (set x | x in s[..n]) + {s[n]};
      assert s[n] !in s[..n];
      DistinctCardinality(s[..n]);
    }
  }

  /** As many distinct numbers below the length as the length itself: each occurs. */
  lemma Pigeonhole(s: seq<nat>)
    requires Distinct(s) && forall k :: k in s ==> k < |s|
    ensures forall k: nat :: k in s <==> k < |s|
  {
    DistinctCardinality(s);
    var image := set k | k in s;
    assert forall k: nat :: k in image <==> k in s;
    assert image <= NumbersBelow(|s|) && |image| == |s|;
    SubsetCardinality(image, NumbersBelow(|s|));
    assert image == NumbersBelow(|s|);
  }

  lemma SubsetCardinality<T>(a: set<T>, b: set<T>)
    requires a <= b
    ensures |a| <= |b|
    ensures |a| == |b| ==> a == b
  {
    if a != {} {
      var x :| x in a;
      SubsetCardinality(a - {x}, b - {x});
    }
  }

  /** The numbers from 0 up to, but not including, `n`. */
  function NumbersBelow(n: nat): (s: set<nat>)
    ensures |s| == n && forall k: nat :: k in s <==> k < n
  {
    if n == 0 then {} else NumbersBelow(n - 1) + {n - 1}
  }

  function HexDigit(n: nat): char
    requires n < 16
  {
    "0123456789abcdef"[n]
  }

  /** The `n` lowest hexadecimal digits of `x`, most significant first. */
  function Hex(x: nat, n: nat): (text: string)
    ensures |text| == n
  {
    if n == 0 then "" else Hex(x / 16, n - 1) + [HexDigit(x % 16)]
  }
}
