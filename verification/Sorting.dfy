/** Sorting as a specification: a sorted permutation, which a total order makes unique. */
module Sorting {
  import opened Prelude

  ghost predicate Transitive<T(!new)>(le: (T, T) -> bool) { forall x, y, z :: le(x, y) && le(y, z) ==> le(x, z) }

  ghost predicate Connected<T(!new)>(le: (T, T) -> bool) { forall x, y :: le(x, y) || le(y, x) }

  ghost predicate AntisymmetricOn<T(!new)>(le: (T, T) -> bool, s: seq<T>) {
    forall x, y :: x in s && y in s && le(x, y) && le(y, x) ==> x == y
  }

  ghost predicate Preorder<T(!new)>(le: (T, T) -> bool) { Transitive(le) && Connected(le) }

  predicate Sorted<T>(s: seq<T>, le: (T, T) -> bool) {
    forall i, j :: 0 <= i < j < |s| ==> le(s[i], s[j])
  }

  lemma SortedPrefix<T>(s: seq<T>, n: nat, le: (T, T) -> bool)
    requires Sorted(s, le) && n < |s|
    ensures Sorted(s[..n], le) && forall x :: x in s[..n] ==> le(x, s[n])
  {
    forall x | x in s[..n] ensures le(x, s[n]) {
      var i :| 0 <= i < n && s[..n][i] == x;
      assert le(s[i], s[n]);
    }
  }

  lemma SortedAppend<T>(s: seq<T>, x: T, le: (T, T) -> bool)
    requires Sorted(s, le) && forall y :: y in s ==> le(y, x)
    ensures Sorted(s + [x], le)
  {}

  function Insert<T>(x: T, s: seq<T>, le: (T, T) -> bool): seq<T> {
    if s == [] || le(x, s[0]) then [x] + s else [s[0]] + Insert(x, s[1..], le)
  }

  function Sort<T>(s: seq<T>, le: (T, T) -> bool): seq<T> {
    if s == [] then [] else Insert(s[0], Sort(s[1..], le), le)
  }

  lemma {:induction false} InsertPermutes<T>(x: T, s: seq<T>, le: (T, T) -> bool)
    ensures multiset(Insert(x, s, le)) == multiset(s) + multiset{x}
  {
    if s != [] && !le(x, s[0]) {
      InsertPermutes(x, s[1..], le);
      assert s == [s[0]] + s[1..];
    }
  }

  lemma {:induction false} SortPermutes<T>(s: seq<T>, le: (T, T) -> bool)
    ensures multiset(Sort(s, le)) == multiset(s)
    ensures |Sort(s, le)| == |s| && forall x :: x in Sort(s, le) <==> x in s
  {
    if s != [] {
      SortPermutes(s[1..], le);
      InsertPermutes(s[0], Sort(s[1..], le), le);
      assert s == [s[0]] + s[1..];
    }
    PermutationsAgree(Sort(s, le), s);
  }

  lemma PermutationsAgree<T>(a: seq<T>, b: seq<T>)
    requires multiset(a) == multiset(b)
    ensures |a| == |b| && forall x :: x in a <==> x in b
  {
    assert |multiset(a)| == |multiset(b)|;
    assert forall x :: (x in a <==> x in multiset(a)) && (x in b <==> x in multiset(b));
  }

  lemma {:induction false} InsertSorts<T(!new)>(x: T, s: seq<T>, le: (T, T) -> bool)
    requires Preorder(le) && Sorted(s, le)
    ensures Sorted(Insert(x, s, le), le)
  {
    if s != [] {
      if le(x, s[0]) {
        assert forall j :: 0 <= j < |s| ==> le(x, s[j]);
      } else {
        assert forall j :: 0 <= j < |s[1..]| ==> s[1..][j] == s[j + 1];
        InsertSorts(x, s[1..], le);
        InsertPermutes(x, s[1..], le);
        var rest := Insert(x, s[1..], le);
        forall j | 0 <= j < |rest| ensures le(s[0], rest[j]) {
          assert rest[j] in multiset(rest);
          assert rest[j] == x || rest[j] in s[1..];
        }
      }
    }
  }

  lemma {:induction false} SortSorts<T(!new)>(s: seq<T>, le: (T, T) -> bool)
    requires Preorder(le)
    ensures Sorted(Sort(s, le), le)
  {
    if s != [] {
      SortSorts(s[1..], le);
      InsertSorts(s[0], Sort(s[1..], le), le);
    }
  }

  lemma FirstIsLeast<T(!new)>(s: seq<T>, x: T, le: (T, T) -> bool)
    requires Sorted(s, le) && x in s
    ensures x == s[0] || le(s[0], x)
  {
    var i :| 0 <= i < |s| && s[i] == x;
  }

  lemma FirstsAgree<T(!new)>(a: seq<T>, b: seq<T>, le: (T, T) -> bool)
    requires Sorted(a, le) && Sorted(b, le) && AntisymmetricOn(le, a)
    requires a != [] && b != [] && forall x :: x in a <==> x in b
    ensures a[0] == b[0]
  {
    assert a[0] in b && b[0] in a;
    FirstIsLeast(a, b[0], le);
    FirstIsLeast(b, a[0], le);
  }

  lemma TailsAgree<T>(a: seq<T>, b: seq<T>)
    requires a != [] && b != [] && a[0] == b[0] && multiset(a) == multiset(b)
    ensures multiset(a[1..]) == multiset(b[1..])
  {
    assert a == [a[0]] + a[1..] && b == [b[0]] + b[1..];
    assert multiset(a[1..]) == multiset(a) - multiset{a[0]};
    assert multiset(b[1..]) == multiset(b) - multiset{b[0]};
  }

  /** Two sorted arrangements of the same elements are the same sequence. */
  lemma {:induction false} SortedIsUnique<T(!new)>(a: seq<T>, b: seq<T>, le: (T, T) -> bool)
    requires Sorted(a, le) && Sorted(b, le) && AntisymmetricOn(le, a)
    requires multiset(a) == multiset(b)
    ensures a == b
  {
    PermutationsAgree(a, b);
    if a != [] {
      FirstsAgree(a, b, le);
      TailsAgree(a, b);
      SortedIsUnique(a[1..], b[1..], le);
      assert a == [a[0]] + a[1..] && b == [b[0]] + b[1..];
    }
  }

  lemma SortIsCanonical<T(!new)>(a: seq<T>, b: seq<T>, le: (T, T) -> bool)
    requires Preorder(le) && AntisymmetricOn(le, a) && multiset(a) == multiset(b)
    ensures Sort(a, le) == Sort(b, le)
  {
    SortPermutes(a, le);
    SortPermutes(b, le);
    SortSorts(a, le);
    SortSorts(b, le);
    SortedIsUnique(Sort(a, le), Sort(b, le), le);
  }

  lemma SortOfSorted<T(!new)>(a: seq<T>, le: (T, T) -> bool)
    requires Preorder(le) && AntisymmetricOn(le, a) && Sorted(a, le)
    ensures Sort(a, le) == a
  {
    SortPermutes(a, le);
    SortSorts(a, le);
    SortedIsUnique(a, Sort(a, le), le);
  }

  /** The elements of `s` that compare equal with `x`, in their order. */
  function Ties<T>(s: seq<T>, x: T, le: (T, T) -> bool): seq<T> {
    if s == [] then [] else (if le(s[0], x) && le(x, s[0]) then [s[0]] else []) + Ties(s[1..], x, le)
  }

  lemma TiesOfFirst<T>(y: T, s: seq<T>, x: T, le: (T, T) -> bool)
    ensures Ties([y] + s, x, le) == (if le(y, x) && le(x, y) then [y] else []) + Ties(s, x, le)
  {
    assert ([y] + s)[1..] == s;
  }

  lemma {:induction false} InsertIsStable<T(!new)>(y: T, s: seq<T>, x: T, le: (T, T) -> bool)
    requires Transitive(le)
    ensures Ties(Insert(y, s, le), x, le) == Ties([y] + s, x, le)
  {
    hide Ties;
    if s != [] && !le(y, s[0]) {
      var first, rest := s[0], s[1..];
      assert s == [first] + rest;
      InsertIsStable(y, rest, x, le);
      TiesOfFirst(first, Insert(y, rest, le), x, le);
      TiesOfFirst(y, rest, x, le);
      TiesOfFirst(y, s, x, le);
      TiesOfFirst(first, rest, x, le);
      assert le(y, x) && le(x, first) ==> le(y, first);
    }
  }

  /** Elements that compare equal keep their order. */
  lemma {:induction false} SortIsStable<T(!new)>(s: seq<T>, x: T, le: (T, T) -> bool)
    requires Transitive(le)
    ensures Ties(Sort(s, le), x, le) == Ties(s, x, le)
  {
    if s != [] {
      SortIsStable(s[1..], x, le);
      InsertIsStable(s[0], Sort(s[1..], le), x, le);
      TiesOfFirst(s[0], Sort(s[1..], le), x, le);
    }
  }

  /** Two different elements that compare equal can be sorted in either order. */
  lemma TiesShow<T(!new)>(x: T, y: T, rest: seq<T>, le: (T, T) -> bool)
    requires Preorder(le) && le(x, y) && le(y, x) && x != y
    ensures Sort([x, y] + rest, le) != Sort([y, x] + rest, le)
  {
    SortIsStable([x, y] + rest, x, le);
    SortIsStable([y, x] + rest, x, le);
    assert le(x, x);
    FirstTie(x, y, rest, le);
    FirstTie(y, x, rest, le);
    TiesAgree(x, y, [y, x] + rest, le);
    assert Ties([x, y] + rest, x, le)[0] == x && Ties([y, x] + rest, x, le)[0] == y;
  }

  lemma FirstTie<T>(x: T, y: T, rest: seq<T>, le: (T, T) -> bool)
    requires le(x, x)
    ensures Ties([x, y] + rest, x, le) != [] && Ties([x, y] + rest, x, le)[0] == x
  {}

  lemma {:induction false} TiesAgree<T(!new)>(x: T, y: T, s: seq<T>, le: (T, T) -> bool)
    requires Preorder(le) && le(x, y) && le(y, x)
    ensures Ties(s, x, le) == Ties(s, y, le)
  {
    if s != [] {
      TiesAgree(x, y, s[1..], le);
    }
  }

  /** Sequences without repeats and with the same elements are permutations of each other. */
  lemma {:induction false} SameElements<T>(a: seq<T>, b: seq<T>)
    requires Distinct(a) && Distinct(b) && forall x :: x in a <==> x in b
    ensures multiset(a) == multiset(b)
  {
    forall x ensures multiset(a)[x] == multiset(b)[x] {
      DistinctCount(a, x);
      DistinctCount(b, x);
    }
  }

  lemma {:induction false} DistinctCount<T>(s: seq<T>, x: T)
    requires Distinct(s)
    ensures multiset(s)[x] == if x in s then 1 else 0
  {
    if s != [] {
      assert s == [s[0]] + s[1..];
      DistinctTail(s);
      DistinctCount(s[1..], x);
    }
  }

  lemma RepeatCount<T>(s: seq<T>, i: nat, j: nat)
    requires i < j < |s| && s[i] == s[j]
    ensures multiset(s)[s[i]] >= 2
  {
    assert s == s[..j] + [s[j]] + s[j + 1..];
    assert s[..j][i] in multiset(s[..j]);
  }

  lemma PermutationIsDistinct<T>(a: seq<T>, b: seq<T>)
    requires Distinct(a) && multiset(a) == multiset(b)
    ensures Distinct(b)
  {
    forall i, j | 0 <= i < j < |b| ensures b[i] != b[j] {
      DistinctCount(a, b[i]);
      if b[i] == b[j] {
        RepeatCount(b, i, j);
      }
    }
  }

  // ----- Strings in lexicographic order -----

  /** The rank of a character among UTF-16 code units: surrogate pairs come before U+E000. */
  function Utf16Rank(c: char): nat {
    var n := c as nat;
    if 0xE000 <= n < 0x1_0000 then n + 0x11_0000 else n
  }

  /** The order of Array.prototype.sort on strings. */
  predicate KeyLe(a: string, b: string) {
    a == "" || (b != "" && (Utf16Rank(a[0]) < Utf16Rank(b[0]) || (a[0] == b[0] && KeyLe(a[1..], b[1..]))))
  }

  lemma {:induction false} KeyLeTransitive(a: string, b: string, c: string)
    requires KeyLe(a, b) && KeyLe(b, c)
    ensures KeyLe(a, c)
  {
    if a != "" && a[0] == b[0] == c[0] {
      KeyLeTransitive(a[1..], b[1..], c[1..]);
    }
  }

  lemma {:induction false} KeyLeConnected(a: string, b: string)
    ensures KeyLe(a, b) || KeyLe(b, a)
  {
    if a != "" && b != "" && a[0] == b[0] {
      KeyLeConnected(a[1..], b[1..]);
    }
  }

  lemma {:induction false} KeyLeAntisymmetric(a: string, b: string)
    requires KeyLe(a, b) && KeyLe(b, a)
    ensures a == b
  {
    if a != "" {
      KeyLeAntisymmetric(a[1..], b[1..]);
      assert a == [a[0]] + a[1..] && b == [b[0]] + b[1..];
    }
  }
}
