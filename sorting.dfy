/**
 * `Array.prototype.sort` with a numeric comparator `(a, b) => key(a) - key(b)`,
 * as the pages use it: the array is reordered in place so that the keys
 * ascend. Modelled by an insertion sort of adjacent swaps.
 */
module ArraySort {

  /** The keys ascend along `s`. */
  ghost predicate SortedBy<T>(s: seq<T>, key: T -> real) {
    forall i, j :: 0 <= i < j < |s| ==> key(s[i]) <= key(s[j])
  }

  method SortBy<T>(a: array<T>, key: T -> real)
    modifies a
    ensures SortedBy(a[..], key)
    ensures multiset(a[..]) == multiset(old(a[..]))
  {
    var i := 0;
    while i < a.Length
      invariant 0 <= i <= a.Length
      invariant SortedBy(a[..i], key)
      invariant multiset(a[..]) == multiset(old(a[..]))
    {
      InsertAt(a, i, key);
      i := i + 1;
    }
    assert a[..] == a[..a.Length];
  }

  /** Moves `a[i]` left past every larger key, so that `a[..i + 1]` becomes sorted. */
  method InsertAt<T>(a: array<T>, i: nat, key: T -> real)
    requires i < a.Length && SortedBy(a[..i], key)
    modifies a
    ensures SortedBy(a[..i + 1], key)
    ensures multiset(a[..]) == multiset(old(a[..]))
  {
    var j := i;
    while j > 0 && key(a[j]) < key(a[j - 1])
      invariant 0 <= j <= i
      invariant forall p, q :: 0 <= p < q <= i && p != j && q != j ==> key(a[p]) <= key(a[q])
      invariant forall q :: j < q <= i ==> key(a[j]) <= key(a[q])
      invariant multiset(a[..]) == multiset(old(a[..]))
    {
      Swap(a, j - 1, j);
      j := j - 1;
    }
  }

  method Swap<T>(a: array<T>, i: nat, j: nat)
    requires i < a.Length && j < a.Length
    modifies a
    ensures a[i] == old(a[j]) && a[j] == old(a[i])
    ensures forall k :: 0 <= k < a.Length && k != i && k != j ==> a[k] == old(a[k])
    ensures multiset(a[..]) == multiset(old(a[..]))
  {
    a[i], a[j] := a[j], a[i];
  }

  /**
   * The last elements of a sorted rearrangement of `s`: drawn from `s`,
   * sorted, and no element of `s` left out has a larger key than one kept.
   */
  lemma SortedSuffix<T>(s: seq<T>, sorted: seq<T>, key: T -> real, cut: nat)
    requires multiset(sorted) == multiset(s) && SortedBy(sorted, key) && cut <= |sorted|
    ensures multiset(sorted[cut..]) <= multiset(s)
    ensures SortedBy(sorted[cut..], key)
    ensures forall x, y :: x in s && x !in sorted[cut..] && y in sorted[cut..] ==> key(x) <= key(y)
  {
    assert sorted == sorted[..cut] + sorted[cut..];
    forall x, y | x in s && x !in sorted[cut..] && y in sorted[cut..]
      ensures key(x) <= key(y)
    {
      assert x in multiset(s);
      var i :| 0 <= i < |sorted| && sorted[i] == x;
      var j :| cut <= j < |sorted| && sorted[j] == y;
      assert i < cut;
    }
  }

  /**
   * The first elements of a sorted rearrangement of `s`: drawn from `s`,
   * sorted, and no element of `s` left out has a smaller key than one kept.
   */
  lemma SortedPrefix<T>(s: seq<T>, sorted: seq<T>, key: T -> real, cut: nat)
    requires multiset(sorted) == multiset(s) && SortedBy(sorted, key) && cut <= |sorted|
    ensures multiset(sorted[..cut]) <= multiset(s)
    ensures SortedBy(sorted[..cut], key)
    ensures forall x, y :: x in s && x !in sorted[..cut] && y in sorted[..cut] ==> key(y) <= key(x)
  {
    assert sorted == sorted[..cut] + sorted[cut..];
    forall x, y | x in s && x !in sorted[..cut] && y in sorted[..cut]
      ensures key(y) <= key(x)
    {
      assert x in multiset(s);
      var i :| 0 <= i < |sorted| && sorted[i] == x;
      var j :| 0 <= j < cut && sorted[j] == y;
      assert i >= cut;
    }
  }
}
