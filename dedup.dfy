/**
 * The two duplicate tests of the clean-up script, stated on plain sequences:
 * pass 1 keeps the first occurrence of each element, pass 2 the last.
 */
module Dedup {

  ghost predicate Increasing(ps: seq<nat>) {
    forall a, b :: 0 <= a < b < |ps| ==> ps[a] < ps[b]
  }

  ghost predicate Distinct<T>(s: seq<T>) {
    forall a, b :: 0 <= a < b < |s| ==> s[a] != s[b]
  }

  /** Python's `list.index`: the first position of `s` holding `x`. */
  function IndexOf<T(==)>(s: seq<T>, x: T): (r: nat)
    requires x in s
    ensures r < |s| && s[r] == x
    ensures x !in s[..r]
  {
    if s[0] == x then 0
    else
      var r := 1 + IndexOf(s[1..], x);
      assert s[..r] == [s[0]] + s[1..][..r - 1];
      r
  }

  /** The positions p < n whose element has no copy before p, in ascending order. */
  function FirstPositions<T(==)>(s: seq<T>, n: nat): (r: seq<nat>)
    requires n <= |s|
    ensures |r| <= n && Increasing(r)
    ensures forall k :: 0 <= k < |r| ==> r[k] < n
    ensures n > 0 ==> |r| > 0 && r[0] == 0
  {
    if n == 0 then []
    else FirstPositions(s, n - 1) + (if s[n - 1] in s[..n - 1] then [] else [n - 1])
  }

  /** Pass 1 keeps position p exactly when no earlier position holds an equal element. */
  lemma {:induction false} FirstPositionsIff<T>(s: seq<T>, n: nat, p: nat)
    requires n <= |s|
    ensures p in FirstPositions(s, n) <==> p < n && s[p] !in s[..p]
  {
    if n > 0 {
      FirstPositionsIff(s, n - 1, p);
    }
  }

  /**
   * The test pass 1 makes on position i: the first index of s[i] is among the
   * positions kept so far exactly when s[i] has an earlier copy; otherwise that
   * first index is i itself.
   */
  lemma FirstIndexKept<T>(s: seq<T>, i: nat)
    requires i < |s|
    ensures IndexOf(s, s[i]) in FirstPositions(s, i) <==> s[i] in s[..i]
    ensures s[i] !in s[..i] ==> IndexOf(s, s[i]) == i
  {
    var e := IndexOf(s, s[i]);
    if e > i {
      assert false;
    }
    FirstPositionsIff(s, i, e);
    if e < i {
      assert s[..i][e] == s[i];
    }
  }

  /** The positions p < n whose element has no copy after p, in ascending order. */
  function LastPositions<T(==)>(s: seq<T>, n: nat): (r: seq<nat>)
    requires n <= |s|
    ensures |r| <= n && Increasing(r)
    ensures forall k :: 0 <= k < |r| ==> r[k] < n
  {
    if n == 0 then []
    else LastPositions(s, n - 1) + (if s[n - 1] in s[n..] then [] else [n - 1])
  }

  /** Pass 2 keeps position p exactly when no later position holds an equal element. */
  lemma {:induction false} LastPositionsIff<T>(s: seq<T>, n: nat, p: nat)
    requires n <= |s|
    ensures p in LastPositions(s, n) <==> p < n && s[p] !in s[p + 1..]
  {
    if n > 0 {
      LastPositionsIff(s, n - 1, p);
    }
  }

  /** The elements of `s` at positions `ps`, in the order of `ps`. */
  function Pick<T>(s: seq<T>, ps: seq<nat>): (r: seq<T>)
    requires forall k :: 0 <= k < |ps| ==> ps[k] < |s|
  {
    seq(|ps|, k requires 0 <= k < |ps| => s[ps[k]])
  }

  /** What pass 2 leaves of `s`: the last occurrence of each element, order kept. */
  function KeepLast<T(==)>(s: seq<T>): seq<T> {
    Pick(s, LastPositions(s, |s|))
  }

  /** Pass 2 leaves no two equal elements. */
  lemma KeepLastDistinct<T>(s: seq<T>)
    ensures Distinct(KeepLast(s))
  {
    var ps := LastPositions(s, |s|);
    forall a, b | 0 <= a < b < |ps| ensures s[ps[a]] != s[ps[b]] {
      LastPositionsIff(s, |s|, ps[a]);
      assert s[ps[a] + 1..][ps[b] - ps[a] - 1] == s[ps[b]];
    }
  }

  /** The position of the last copy of `x` in `s`. */
  function LastIndex<T(==)>(s: seq<T>, x: T): (r: nat)
    requires x in s
    ensures r < |s| && s[r] == x && x !in s[r + 1..]
  {
    var n := |s| - 1;
    if s[n] == x then n
    else
      assert s == s[..n] + [s[n]];
      var r := LastIndex(s[..n], x);
      assert s[r + 1..] == s[..n][r + 1..] + [s[n]];
      r
  }

  /** Every element of `s` survives pass 2 (and pass 2 invents none). */
  lemma KeepLastCovers<T>(s: seq<T>)
    ensures forall x :: x in KeepLast(s) <==> x in s
  {
    var ps := LastPositions(s, |s|);
    forall x | x in s ensures x in KeepLast(s) {
      var p := LastIndex(s, x);
      LastPositionsIff(s, |s|, p);
      var k :| 0 <= k < |ps| && ps[k] == p;
      assert KeepLast(s)[k] == x;
    }
  }

  /** On a sequence without repeats, every position survives pass 2. */
  lemma {:induction false} LastPositionsOfDistinct<T>(s: seq<T>, n: nat)
    requires n <= |s| && Distinct(s)
    ensures LastPositions(s, n) == seq(n, i => i)
  {
    if n > 0 {
      LastPositionsOfDistinct(s, n - 1);
      if s[n - 1] in s[n..] {
        assert false;
      }
    }
  }

  /** Pass 2 is idempotent: applied to its own output it changes nothing. */
  lemma KeepLastIdempotent<T>(s: seq<T>)
    ensures KeepLast(KeepLast(s)) == KeepLast(s)
  {
    var r := KeepLast(s);
    KeepLastDistinct(s);
    LastPositionsOfDistinct(r, |r|);
  }

  /** If all n positions below n survive, they are exactly 0, 1, ..., n - 1. */
  lemma {:induction false} AllSurvive<T>(s: seq<T>, n: nat)
    requires n <= |s| && |LastPositions(s, n)| == n
    ensures LastPositions(s, n) == seq(n, i => i)
  {
    if n > 0 {
      AllSurvive(s, n - 1);
    }
  }

  /**
   * Pass 2 changes the sequence exactly when it shortens it, so comparing the
   * lists and comparing their lengths decide the same thing.
   */
  lemma KeepLastChangedIffShorter<T>(s: seq<T>)
    ensures |KeepLast(s)| <= |s|
    ensures KeepLast(s) != s <==> |KeepLast(s)| < |s|
  {
    if |KeepLast(s)| == |s| {
      AllSurvive(s, |s|);
    }
  }

  /** The number of positions p < n whose element appears again after p. */
  function RepeatCount<T(==)>(s: seq<T>, n: nat): nat
    requires n <= |s|
  {
    if n == 0 then 0
    else RepeatCount(s, n - 1) + (if s[n - 1] in s[n..] then 1 else 0)
  }

  /** Pass 2 removes exactly one element per position whose element reappears later. */
  lemma {:induction false} KeepLastRemoved<T>(s: seq<T>, n: nat)
    requires n <= |s|
    ensures |LastPositions(s, n)| + RepeatCount(s, n) == n
  {
    if n > 0 {
      KeepLastRemoved(s, n - 1);
    }
  }
}
