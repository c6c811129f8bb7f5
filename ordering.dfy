/** Ordering of query results by an integer key, used for the store's
    `orderBy` clauses.  The store only promises the order of the keys; the
    relative order of rows with equal keys is left open, and the insertion
    sort below is one admissible choice. */
module Ordering {

  /** `s` is in non-decreasing order of `key`. */
  ghost predicate SortedBy<T>(s: seq<T>, key: T -> int) {
    forall i, j :: 0 <= i < j < |s| ==> key(s[i]) <= key(s[j])
  }

  /** Inserts `x` into a sorted sequence in front of the first element whose
      key is not smaller. */
  function Insert<T>(x: T, s: seq<T>, key: T -> int): (r: seq<T>)
    requires SortedBy(s, key)
    ensures SortedBy(r, key)
    ensures multiset(r) == multiset(s) + multiset{x}
    ensures |r| == |s| + 1
  {
    if s == [] then [x]
    else if key(x) <= key(s[0]) then
      SortedCons(x, s, key);
      [x] + s
    else
      var rest := Insert(x, s[1..], key);
      assert s == [s[0]] + s[1..];
      HeadBoundsTail(x, s, key);
      KeysBoundedBelow(rest, multiset(s[1..]) + multiset{x}, key, key(s[0]));
      SortedCons(s[0], rest, key);
      [s[0]] + rest
  }

  /** Every element of `s` has a key of at least `bound` when every element
      of the multiset it is drawn from does. */
  lemma KeysBoundedBelow<T>(s: seq<T>, m: multiset<T>, key: T -> int, bound: int)
    requires multiset(s) == m
    requires forall y :: y in m ==> bound <= key(y)
    ensures forall i :: 0 <= i < |s| ==> bound <= key(s[i])
  {
    forall i | 0 <= i < |s| ensures bound <= key(s[i]) {
      assert s[i] in multiset(s);
    }
  }

  lemma HeadBoundsTail<T>(x: T, s: seq<T>, key: T -> int)
    requires SortedBy(s, key) && s != [] && key(s[0]) < key(x)
    ensures forall y :: y in multiset(s[1..]) + multiset{x} ==> key(s[0]) <= key(y)
  {
    forall y | y in multiset(s[1..]) + multiset{x} ensures key(s[0]) <= key(y) {
      if y != x {
        var j :| 0 <= j < |s[1..]| && s[1..][j] == y;
        assert s[j + 1] == y;
      }
    }
  }

  lemma SortedCons<T>(h: T, s: seq<T>, key: T -> int)
    requires SortedBy(s, key)
    requires forall i :: 0 <= i < |s| ==> key(h) <= key(s[i])
    ensures SortedBy([h] + s, key)
  {
    var r := [h] + s;
    forall i, j | 0 <= i < j < |r| ensures key(r[i]) <= key(r[j]) {
      if i > 0 { assert r[i] == s[i - 1]; }
      assert r[j] == s[j - 1];
    }
  }

  /** `s` rearranged into non-decreasing order of `key`. */
  function SortBy<T>(s: seq<T>, key: T -> int): (r: seq<T>)
    ensures SortedBy(r, key)
    ensures multiset(r) == multiset(s)
    ensures |r| == |s|
  {
    if s == [] then []
    else
      assert s == [s[0]] + s[1..];
      Insert(s[0], SortBy(s[1..], key), key)
  }

  /** Rearranging keeps exactly the same elements. */
  lemma SameElements<T>(a: seq<T>, b: seq<T>)
    requires multiset(a) == multiset(b)
    ensures forall x :: x in a <==> x in b
  {
    forall x ensures x in a <==> x in b {
      assert x in a <==> x in multiset(a);
      assert x in b <==> x in multiset(b);
    }
  }
}
