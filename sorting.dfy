/**
 * Sorting a vector in place by a key, as `sort_by_key` and
 * `sort_unstable_by` do.  Keys are sequences of integers compared
 * lexicographically, which covers both orders the discovery step sorts by: a
 * single number (a core's index) and a file name (compared code point by code
 * point, which for UTF-8 text is the byte order `OsString` uses).
 */
module Sorting {

  /** Lexicographic order: a prefix comes first; otherwise the first difference decides. */
  predicate LexLe(a: seq<int>, b: seq<int>)
    decreases |a|
  {
    a == [] || (b != [] && (a[0] < b[0] || (a[0] == b[0] && LexLe(a[1..], b[1..]))))
  }

  lemma {:induction false} LexLeRefl(a: seq<int>)
    ensures LexLe(a, a)
    decreases |a|
  {
    if a != [] {
      LexLeRefl(a[1..]);
    }
  }

  lemma {:induction false} LexLeTotal(a: seq<int>, b: seq<int>)
    ensures LexLe(a, b) || LexLe(b, a)
    decreases |a|
  {
    if a != [] && b != [] && a[0] == b[0] {
      LexLeTotal(a[1..], b[1..]);
    }
  }

  lemma {:induction false} LexLeTrans(a: seq<int>, b: seq<int>, c: seq<int>)
    requires LexLe(a, b) && LexLe(b, c)
    ensures LexLe(a, c)
    decreases |a|
  {
    if a != [] && a[0] == b[0] && b[0] == c[0] {
      LexLeTrans(a[1..], b[1..], c[1..]);
    }
  }

  /** Two keys that precede each other are equal. */
  lemma {:induction false} LexLeAntisymmetric(a: seq<int>, b: seq<int>)
    requires LexLe(a, b) && LexLe(b, a)
    ensures a == b
    decreases |a|
  {
    if a != [] {
      LexLeAntisymmetric(a[1..], b[1..]);
      assert a == [a[0]] + a[1..] && b == [b[0]] + b[1..];
    }
  }

  /** One-element keys are ordered as their elements. */
  lemma LexLeSingle(x: int, y: int)
    ensures LexLe([x], [y]) <==> x <= y
  {
    assert [x][1..] == [] && [y][1..] == [];
  }

  /** Every element's key is at most every later one's. */
  ghost predicate SortedBy<T>(s: seq<T>, key: T -> seq<int>) {
    forall p, q :: 0 <= p < q < |s| ==> LexLe(key(s[p]), key(s[q]))
  }

  /** Exchanges the elements at `j - 1` and `j`. */
  method SwapDown<T>(a: array<T>, j: nat)
    requires 0 < j < a.Length
    modifies a
    ensures a[..] == old(a[..])[j - 1 := old(a[j])][j := old(a[j - 1])]
    ensures multiset(a[..]) == multiset(old(a[..]))
  {
    var x := a[j];
    a[j] := a[j - 1];
    a[j - 1] := x;
  }

  /**
   * Insertion sort: each element moves down past every larger one by adjacent
   * exchanges.  The result is sorted by `key` and a permutation of the input;
   * elements with equal keys may end in any order, as `sort_unstable_by`
   * allows.
   */
  method SortBy<T>(a: array<T>, key: T -> seq<int>)
    modifies a
    ensures SortedBy(a[..], key)
    ensures multiset(a[..]) == multiset(old(a[..]))
  {
    var i := 0;
    while i < a.Length
      invariant i <= a.Length
      invariant forall p, q :: 0 <= p < q < i ==> LexLe(key(a[p]), key(a[q]))
      invariant multiset(a[..]) == multiset(old(a[..]))
    {
      var j := i;
      while j > 0 && !LexLe(key(a[j - 1]), key(a[j]))
        invariant 0 <= j <= i < a.Length
        invariant forall p, q :: 0 <= p < q <= i && p != j && q != j ==> LexLe(key(a[p]), key(a[q]))
        invariant forall q :: j < q <= i ==> LexLe(key(a[j]), key(a[q]))
        invariant multiset(a[..]) == multiset(old(a[..]))
      {
        LexLeTotal(key(a[j - 1]), key(a[j]));
        SwapDown(a, j);
        j := j - 1;
      }
      if j > 0 {
        forall p | 0 <= p < j
          ensures LexLe(key(a[p]), key(a[j]))
        {
          if p < j - 1 {
            LexLeTrans(key(a[p]), key(a[j - 1]), key(a[j]));
          }
        }
      }
      i := i + 1;
    }
  }
}
