/**
 * The order in which an object store keeps string keys: lexicographic by
 * character, a proper prefix before every extension. `getAll` returns an
 * object store's records in this order.
 */
module KeyOrder {

  predicate Less(a: string, b: string)
    decreases |a|
  {
    if |a| == 0 then |b| > 0
    else if |b| == 0 then false
    else a[0] < b[0] || (a[0] == b[0] && Less(a[1..], b[1..]))
  }

  lemma {:induction false} Irreflexive(a: string)
    ensures !Less(a, a)
    decreases |a|
  {
    if |a| > 0 {
      Irreflexive(a[1..]);
    }
  }

  lemma {:induction false} Transitive(a: string, b: string, c: string)
    requires Less(a, b) && Less(b, c)
    ensures Less(a, c)
    decreases |a|
  {
    if |a| > 0 && a[0] == b[0] && b[0] == c[0] {
      Transitive(a[1..], b[1..], c[1..]);
    }
  }

  lemma {:induction false} Trichotomy(a: string, b: string)
    ensures Less(a, b) || a == b || Less(b, a)
    decreases |a|
  {
    if |a| > 0 && |b| > 0 && a[0] == b[0] {
      Trichotomy(a[1..], b[1..]);
      if a[1..] == b[1..] {
        assert a == [a[0]] + a[1..] && b == [b[0]] + b[1..];
      }
    }
  }

  /** `k` is the smallest key of `keys`. */
  predicate IsLeast(k: string, keys: set<string>) {
    k in keys && forall k' :: k' in keys && k' != k ==> Less(k, k')
  }

  /** Every finite non-empty set of keys has a smallest one. */
  lemma {:induction false} LeastExists(keys: set<string>)
    requires keys != {}
    ensures exists k :: IsLeast(k, keys)
    decreases |keys|
  {
    var x :| x in keys;
    var rest := keys - {x};
    if rest == {} {
      assert keys == {x};
      assert IsLeast(x, keys);
    } else {
      LeastExists(rest);
      var m :| IsLeast(m, rest);
      Trichotomy(x, m);
      if Less(x, m) {
        forall k' | k' in keys && k' != x
          ensures Less(x, k')
        {
          if k' != m {
            Transitive(x, m, k');
          }
        }
        assert IsLeast(x, keys);
      } else {
        assert IsLeast(m, keys);
      }
    }
  }

  /** A set of keys has only one smallest key. */
  lemma LeastUnique(k1: string, k2: string, keys: set<string>)
    requires IsLeast(k1, keys) && IsLeast(k2, keys)
    ensures k1 == k2
  {
    if k1 != k2 {
      Transitive(k1, k2, k1);
      Irreflexive(k1);
    }
  }
}
