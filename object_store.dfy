/**
 * One object store of the durable database, as a map from key to record.
 * The request semantics are those of the Indexed Database API 3.0:
 * `add` uses the no-overwrite flag of the object-store storage operation
 * (section 5.1) and fails with a ConstraintError on an existing key, `put`
 * inserts or replaces, `delete` removes the key if it is there (section 5.4),
 * `get` answers "absent" for a missing key and `getAll` lists the records in
 * ascending key order.
 */
module ObjectStore {
  import opened Records
  import KeyOrder

  /** Every record is stored under its own key path (`keyPath: 'id'`). */
  ghost predicate KeyedBy<T>(m: map<string, T>, key: T -> string) {
    forall k :: k in m ==> key(m[k]) == k
  }

  /** `store.add(v)` with key `k`: never overwrites. */
  function Add<T>(m: map<string, T>, k: string, v: T): (r: Result<map<string, T>>)
    ensures r.Err? <==> k in m
    ensures r.Err? ==> r.error == ConstraintError
    ensures r.Ok? ==> r.value.Keys == m.Keys + {k} && r.value[k] == v
    ensures r.Ok? ==> forall k' :: k' in m ==> r.value[k'] == m[k']
  {
    if k in m then Err(ConstraintError) else Ok(m[k := v])
  }

  /** `store.put(v)` with key `k`: inserts or replaces. */
  function Put<T>(m: map<string, T>, k: string, v: T): (r: map<string, T>)
    ensures r.Keys == m.Keys + {k} && r[k] == v
    ensures forall k' :: k' in m && k' != k ==> r[k'] == m[k']
  {
    m[k := v]
  }

  /** `store.delete(k)`: removes the key if present, and is a no-op otherwise. */
  function Delete<T>(m: map<string, T>, k: string): (r: map<string, T>)
    ensures r.Keys == m.Keys - {k}
    ensures forall k' :: k' in r ==> r[k'] == m[k']
    ensures k !in m ==> r == m
  {
    m - {k}
  }

  /** `store.get(k)`: the stored record, or absent. */
  function Get<T>(m: map<string, T>, k: string): (r: Option<T>)
    ensures r.Some? <==> k in m
    ensures r.Some? ==> r.value == m[k]
  {
    if k in m then Some(m[k]) else None
  }

  lemma AddThenGet<T>(m: map<string, T>, k: string, v: T)
    requires k !in m
    ensures Add(m, k, v).Ok? && Get(Add(m, k, v).value, k) == Some(v)
  {
  }

  lemma PutThenGet<T>(m: map<string, T>, k: string, v: T, other: string)
    ensures Get(Put(m, k, v), k) == Some(v)
    ensures other != k ==> Get(Put(m, k, v), other) == Get(m, other)
  {
  }

  /** A put of the record already stored changes nothing; two puts of one key keep the last. */
  lemma PutOverwrites<T>(m: map<string, T>, k: string, v: T, w: T)
    ensures k in m && m[k] == v ==> Put(m, k, v) == m
    ensures Put(Put(m, k, v), k, w) == Put(m, k, w)
  {
  }

  lemma DeleteThenGet<T>(m: map<string, T>, k: string)
    ensures Get(Delete(m, k), k) == None
    ensures Delete(Delete(m, k), k) == Delete(m, k)
  {
  }

  /** Adding the key that was just added is rejected and leaves the store as it was. */
  lemma AddTwiceRejected<T>(m: map<string, T>, k: string, v: T, w: T)
    requires k !in m
    ensures Add(m, k, v).Ok?
    ensures Add(Add(m, k, v).value, k, w) == Err(ConstraintError)
  {
  }

  /** Keeping every record under its own key survives add, put and delete. */
  lemma KeyedByPreserved<T>(m: map<string, T>, key: T -> string, v: T, k: string)
    requires KeyedBy(m, key)
    ensures Add(m, key(v), v).Ok? ==> KeyedBy(Add(m, key(v), v).value, key)
    ensures KeyedBy(Put(m, key(v), v), key)
    ensures KeyedBy(Delete(m, k), key)
  {
  }

  /**
   * `r` is what `getAll` answers for `m`: every stored record exactly once,
   * in ascending key order.
   */
  ghost predicate Enumerates<T>(r: seq<T>, m: map<string, T>, key: T -> string) {
    && (forall i :: 0 <= i < |r| ==> key(r[i]) in m && m[key(r[i])] == r[i])
    && (forall i, j :: 0 <= i < j < |r| ==> KeyOrder.Less(key(r[i]), key(r[j])))
    && (forall k :: k in m ==> exists i :: 0 <= i < |r| && key(r[i]) == k)
  }

  /** The record store side of `getAll`: walks the keys from the smallest up. */
  method GetAll<T>(m: map<string, T>, key: T -> string) returns (r: seq<T>)
    requires KeyedBy(m, key)
    ensures Enumerates(r, m, key)
  {
    var rest := m.Keys;
    r := [];
    while rest != {}
      invariant Walked(r, rest, m, key)
      decreases |rest|
    {
      KeyOrder.LeastExists(rest);
      var k :| KeyOrder.IsLeast(k, rest);
      WalkStep(r, rest, m, key, k);
      r := r + [m[k]];
      rest := rest - {k};
    }
  }

  /**
   * The walk so far: `r` lists, in ascending order, the records of the keys
   * already taken, each of them below every key still in `rest`.
   */
  ghost predicate Walked<T>(r: seq<T>, rest: set<string>, m: map<string, T>, key: T -> string) {
    && rest <= m.Keys
    && (forall i :: 0 <= i < |r| ==> key(r[i]) in m && m[key(r[i])] == r[i] && key(r[i]) !in rest)
    && (forall i, j :: 0 <= i < j < |r| ==> KeyOrder.Less(key(r[i]), key(r[j])))
    && (forall i, k :: 0 <= i < |r| && k in rest ==> KeyOrder.Less(key(r[i]), k))
    && (forall k :: k in m && k !in rest ==> exists i :: 0 <= i < |r| && key(r[i]) == k)
  }

  /** Taking the smallest remaining key extends the walk. */
  lemma WalkStep<T>(r: seq<T>, rest: set<string>, m: map<string, T>, key: T -> string, k: string)
    requires KeyedBy(m, key) && Walked(r, rest, m, key) && KeyOrder.IsLeast(k, rest)
    ensures Walked(r + [m[k]], rest - {k}, m, key)
  {
    var r' := r + [m[k]];
    forall k' | k' in m && k' !in rest - {k}
      ensures exists i :: 0 <= i < |r'| && key(r'[i]) == k'
    {
      if k' == k {
        assert key(r'[|r|]) == k';
      } else {
        var i :| 0 <= i < |r| && key(r[i]) == k';
        assert r'[i] == r[i];
      }
    }
  }

  /** The smallest key of a store is the key of the first record `getAll` lists. */
  lemma {:induction false} FirstIsLeast<T>(r: seq<T>, m: map<string, T>, key: T -> string)
    requires Enumerates(r, m, key) && |r| > 0
    ensures KeyOrder.IsLeast(key(r[0]), m.Keys)
  {
    forall k | k in m.Keys && k != key(r[0])
      ensures KeyOrder.Less(key(r[0]), k)
    {
      var j :| 0 <= j < |r| && key(r[j]) == k;
      assert j != 0;
    }
  }

  /** `getAll` is determined by the store: two enumerations of one store are equal. */
  lemma {:induction false} EnumerationUnique<T>(r1: seq<T>, r2: seq<T>, m: map<string, T>, key: T -> string)
    requires Enumerates(r1, m, key) && Enumerates(r2, m, key)
    ensures r1 == r2
    decreases |r1|
  {
    if |r1| > 0 {
      var k1 := key(r1[0]);
      assert k1 in m;
      var j :| 0 <= j < |r2| && key(r2[j]) == k1;
      FirstIsLeast(r1, m, key);
      FirstIsLeast(r2, m, key);
      KeyOrder.LeastUnique(k1, key(r2[0]), m.Keys);
      assert r1[0] == r2[0];
      var m' := m - {k1};
      TailEnumerates(r1, m, key);
      TailEnumerates(r2, m, key);
      EnumerationUnique(r1[1..], r2[1..], m', key);
      assert r1 == [r1[0]] + r1[1..] && r2 == [r2[0]] + r2[1..];
    }
  }

  /** Dropping the first record of an enumeration enumerates the store without its smallest key. */
  lemma {:induction false} TailEnumerates<T>(r: seq<T>, m: map<string, T>, key: T -> string)
    requires Enumerates(r, m, key) && |r| > 0
    ensures Enumerates(r[1..], m - {key(r[0])}, key)
  {
    var k0 := key(r[0]);
    var t := r[1..];
    forall i | 0 <= i < |t|
      ensures key(t[i]) in m - {k0} && (m - {k0})[key(t[i])] == t[i]
    {
      assert KeyOrder.Less(k0, key(r[i + 1]));
      KeyOrder.Irreflexive(k0);
    }
    forall k | k in m - {k0}
      ensures exists i :: 0 <= i < |t| && key(t[i]) == k
    {
      var j :| 0 <= j < |r| && key(r[j]) == k;
      assert j != 0 && key(t[j - 1]) == k;
    }
  }
}
