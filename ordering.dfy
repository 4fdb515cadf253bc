/** Lexicographic order on integer sequences and the in-place sort the
    snapshot handlers run (`Array.prototype.sort` with a comparator).

    Both comparators of the application reduce to this order: tee times
    compare by the key [year, month, day, hour, minute], courses by the
    character codes of their names.
 */
module Ordering {

  /** `a` is lexicographically at most `b`; a proper prefix comes first. */
  predicate LexLe(a: seq<int>, b: seq<int>)
    decreases |a|
  {
    a == [] || (b != [] && (a[0] < b[0] || (a[0] == b[0] && LexLe(a[1..], b[1..]))))
  }

  /** `a` is lexicographically strictly before `b`. */
  predicate LexLess(a: seq<int>, b: seq<int>)
  {
    !LexLe(b, a)
  }

  lemma {:induction false} LexLeReflexive(a: seq<int>)
    ensures LexLe(a, a)
    decreases |a|
  {
    if a != [] {
      LexLeReflexive(a[1..]);
    }
  }

  lemma {:induction false} LexLeTotal(a: seq<int>, b: seq<int>)
    ensures LexLe(a, b) || LexLe(b, a)
    decreases |a|
  {
    if a != [] && b != [] && a[0] == b[0] {
      LexLeTotal(a[1..], b[1..]);
    }
  }

  lemma {:induction false} LexLeTransitive(a: seq<int>, b: seq<int>, c: seq<int>)
    requires LexLe(a, b) && LexLe(b, c)
    ensures LexLe(a, c)
    decreases |a|
  {
    if a != [] && a[0] == b[0] && b[0] == c[0] {
      LexLeTransitive(a[1..], b[1..], c[1..]);
    }
  }

  lemma {:induction false} LexLeAntisymmetric(a: seq<int>, b: seq<int>)
    requires LexLe(a, b) && LexLe(b, a)
    ensures a == b
    decreases |a|
  {
    if a != [] {
      LexLeAntisymmetric(a[1..], b[1..]);
      assert a == [a[0]] + a[1..] && b == [b[0]] + b[1..];
    }
  }

  /** Comparing two non-empty sequences compares their heads, then their tails. */
  lemma LexLeCons(x: int, s: seq<int>, y: int, t: seq<int>)
    ensures LexLe([x] + s, [y] + t) <==> x < y || (x == y && LexLe(s, t))
  {
    assert ([x] + s)[1..] == s && ([y] + t)[1..] == t;
  }

  /** LexLe is a total order on sequences, stated once for every triple. */
  lemma LexLeIsTotalOrder()
    ensures forall a: seq<int> :: LexLe(a, a)
    ensures forall a: seq<int>, b: seq<int> :: LexLe(a, b) || LexLe(b, a)
    ensures forall a: seq<int>, b: seq<int>, c: seq<int> :: LexLe(a, b) && LexLe(b, c) ==> LexLe(a, c)
    ensures forall a: seq<int>, b: seq<int> :: LexLe(a, b) && LexLe(b, a) ==> a == b
  {
    forall a: seq<int> ensures LexLe(a, a) {
      LexLeReflexive(a);
    }
    forall a: seq<int>, b: seq<int> ensures LexLe(a, b) || LexLe(b, a) {
      LexLeTotal(a, b);
    }
    forall a: seq<int>, b: seq<int>, c: seq<int> | LexLe(a, b) && LexLe(b, c) ensures LexLe(a, c) {
      LexLeTransitive(a, b, c);
    }
    forall a: seq<int>, b: seq<int> | LexLe(a, b) && LexLe(b, a) ensures a == b {
      LexLeAntisymmetric(a, b);
    }
  }

  /** `s` is in ascending order of `key`. */
  ghost predicate SortedBy<T>(s: seq<T>, key: T -> seq<int>)
  {
    forall i, j :: 0 <= i < j < |s| ==> LexLe(key(s[i]), key(s[j]))
  }

  /** Sorts `a` in place, ascending by `key`; the result is a permutation. */
  method SortByKey<T>(a: array<T>, key: T -> seq<int>)
    modifies a
    ensures SortedBy(a[..], key)
    ensures multiset(a[..]) == multiset(old(a[..]))
  {
    LexLeIsTotalOrder();
    var i := 0;
    while i < a.Length
      invariant 0 <= i <= a.Length
      invariant forall k, l :: 0 <= k < l < i ==> LexLe(key(a[k]), key(a[l]))
      invariant multiset(a[..]) == multiset(old(a[..]))
    {
      var j := i;
      while j > 0 && LexLess(key(a[j]), key(a[j - 1]))
        invariant 0 <= j <= i
        invariant forall k, l :: 0 <= k < l <= i && l != j ==> LexLe(key(a[k]), key(a[l]))
        invariant forall l :: j < l <= i ==> LexLess(key(a[j]), key(a[l]))
        invariant multiset(a[..]) == multiset(old(a[..]))
      {
        a[j - 1], a[j] := a[j], a[j - 1];
        j := j - 1;
      }
      i := i + 1;
    }
  }
}
