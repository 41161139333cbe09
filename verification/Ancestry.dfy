/** Walking up a parent map, any number of steps, on data that may contain cycles. */
module Ancestry {
  import opened Prelude
  import opened ContinuityRegistry

  type Links = map<Id, Id>

  /** The id reached from `x` after `n` parent steps. */
  function Up(links: Links, x: Id, n: nat): Option<Id>
    decreases n
  {
    if n == 0 then Some(x) else if x in links then Up(links, links[x], n - 1) else None
  }

  /** `r` is a proper ancestor of `x`, at any distance. */
  ghost predicate Below(links: Links, r: Id, x: Id) {
    exists n: nat :: n >= 1 && Up(links, x, n) == Some(r)
  }

  /** `n` is the least number of steps from `x` to `r`. */
  ghost predicate Hits(links: Links, x: Id, r: Id, n: nat) {
    Up(links, x, n) == Some(r) && forall k: nat :: k < n ==> Up(links, x, k) != Some(r)
  }

  lemma {:induction false} UpNext(links: Links, x: Id, n: nat)
    ensures Up(links, x, n + 1) ==
            match Up(links, x, n) case None => None case Some(y) => if y in links then Some(links[y]) else None
    decreases n
  {
    if n > 0 && x in links {
      UpNext(links, links[x], n - 1);
    }
  }

  lemma {:induction false} UpAdd(links: Links, x: Id, m: nat, n: nat)
    ensures Up(links, x, m + n) == match Up(links, x, m) case None => None case Some(y) => Up(links, y, n)
    decreases m
  {
    if m > 0 && x in links {
      UpAdd(links, links[x], m - 1, n);
    }
  }

  lemma {:induction false} FirstHit(links: Links, x: Id, r: Id, n: nat) returns (m: nat)
    requires Up(links, x, n) == Some(r)
    ensures m <= n && Hits(links, x, r, m)
  {
    if exists k: nat :: k < n && Up(links, x, k) == Some(r) {
      var k: nat :| k < n && Up(links, x, k) == Some(r);
      m := FirstHit(links, x, r, k);
    } else {
      m := n;
    }
  }

  lemma HitsUnique(links: Links, x: Id, r: Id, m: nat, n: nat)
    requires Hits(links, x, r, m) && Hits(links, x, r, n)
    ensures m == n
  {}

  lemma HitsParent(links: Links, x: Id, r: Id, n: nat)
    requires n > 0 && Hits(links, x, r, n)
    ensures x != r && x in links && Hits(links, links[x], r, n - 1)
  {
    assert Up(links, x, 0) == Some(x);
    forall k: nat | k < n - 1 ensures Up(links, links[x], k) != Some(r) {
      assert Up(links, x, k + 1) == Up(links, links[x], k);
    }
  }

  lemma HitsChild(links: Links, x: Id, r: Id, n: nat)
    requires x in links && x != r && Hits(links, links[x], r, n)
    ensures Hits(links, x, r, n + 1)
  {
    forall k: nat | k < n + 1 ensures Up(links, x, k) != Some(r) {
      if k > 0 {
        assert Up(links, x, k) == Up(links, links[x], k - 1);
      }
    }
  }

  /** After a repeat at steps `j` and `m`, every later step repeats one of steps j+1 to m. */
  lemma {:induction false} UpRepeats(links: Links, x: Id, j: nat, m: nat, n: nat) returns (k: nat)
    requires j < m <= n && Up(links, x, j) == Up(links, x, m)
    ensures j < k <= m && Up(links, x, k) == Up(links, x, n)
    decreases n
  {
    if n == m {
      k := m;
    } else {
      UpAdd(links, x, m, n - m);
      UpAdd(links, x, j, n - m);
      var earlier := j + (n - m);
      if earlier <= m {
        k := earlier;
      } else {
        k := UpRepeats(links, x, j, m, earlier);
      }
    }
  }

  lemma {:induction false} UpStaysNone(links: Links, x: Id, m: nat, n: nat)
    requires m <= n && Up(links, x, m) == None
    ensures Up(links, x, n) == None
  {
    UpAdd(links, x, m, n - m);
  }
}
