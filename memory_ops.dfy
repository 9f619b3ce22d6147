/**
 * The new values the state manager builds before each `set(...)`:
 * append for inserts, `map` replacing matching ids for updates, `filter`
 * for deletes, the spread merge of a settings patch, the dark-mode flip;
 * and `Mirrors`, the relation between an in-memory collection and the
 * object store behind it that write-through is meant to keep.
 */
module MemoryOps {
  import opened Records
  import ObjectStore
  import KeyOrder

  /** `s.map(e => key(e) === key(x) ? x : e)` */
  function ReplaceById<T>(s: seq<T>, key: T -> string, x: T): (r: seq<T>)
    ensures |r| == |s|
    ensures forall i :: 0 <= i < |s| ==> r[i] == (if key(s[i]) == key(x) then x else s[i])
  {
    if s == [] then []
    else ReplaceById(s[..|s| - 1], key, x) + [if key(s[|s| - 1]) == key(x) then x else s[|s| - 1]]
  }

  /** `s.filter(e => key(e) !== id)` */
  function RemoveById<T>(s: seq<T>, key: T -> string, id: string): (r: seq<T>)
    ensures |r| <= |s|
    ensures forall i :: 0 <= i < |r| ==> key(r[i]) != id
    ensures forall e :: e in r ==> e in s
    ensures forall e :: e in s && key(e) != id ==> e in r
  {
    if s == [] then []
    else RemoveById(s[..|s| - 1], key, id) + (if key(s[|s| - 1]) != id then [s[|s| - 1]] else [])
  }

  /** An update whose id is in no element leaves the collection as it was. */
  lemma ReplaceAbsentIsIdentity<T>(s: seq<T>, key: T -> string, x: T)
    requires forall i :: 0 <= i < |s| ==> key(s[i]) != key(x)
    ensures ReplaceById(s, key, x) == s
  {
  }

  /** A delete whose id is in no element leaves the collection as it was. */
  lemma {:induction false} RemoveAbsentIsIdentity<T>(s: seq<T>, key: T -> string, id: string)
    requires forall i :: 0 <= i < |s| ==> key(s[i]) != id
    ensures RemoveById(s, key, id) == s
  {
    if s != [] {
      RemoveAbsentIsIdentity(s[..|s| - 1], key, id);
      assert s == s[..|s| - 1] + [s[|s| - 1]];
    }
  }

  /** Filtering distributes over concatenation, so the survivors keep their relative order. */
  lemma {:induction false} RemoveConcat<T>(a: seq<T>, b: seq<T>, key: T -> string, id: string)
    ensures RemoveById(a + b, key, id) == RemoveById(a, key, id) + RemoveById(b, key, id)
    decreases |b|
  {
    if b != [] {
      var b' := b[..|b| - 1];
      RemoveConcat(a, b', key, id);
      assert (a + b)[..|a + b| - 1] == a + b';
    } else {
      assert a + b == a;
    }
  }

  ghost predicate DistinctKeys<T, K>(s: seq<T>, key: T -> K) {
    forall i, j :: 0 <= i < j < |s| ==> key(s[i]) != key(s[j])
  }

  /**
   * The in-memory collection `s` shows exactly the records of the object
   * store `m`, each once: the relation write-through is meant to keep.
   */
  ghost predicate Mirrors<T>(s: seq<T>, m: map<string, T>, key: T -> string) {
    && (forall i :: 0 <= i < |s| ==> key(s[i]) in m && m[key(s[i])] == s[i])
    && DistinctKeys(s, key)
    && (forall k :: k in m ==> exists i :: 0 <= i < |s| && key(s[i]) == k)
  }

  /** What `getAll` answers mirrors the store it reads. */
  lemma EnumerationMirrors<T>(r: seq<T>, m: map<string, T>, key: T -> string)
    requires ObjectStore.Enumerates(r, m, key)
    ensures Mirrors(r, m, key)
  {
    forall i, j | 0 <= i < j < |r|
      ensures key(r[i]) != key(r[j])
    {
      KeyOrder.Irreflexive(key(r[i]));
    }
  }

  /** A mirror holds as many records as the store. */
  lemma {:induction false} MirrorSize<T>(s: seq<T>, m: map<string, T>, key: T -> string)
    requires Mirrors(s, m, key)
    ensures |s| == |m|
    decreases |s|
  {
    if s != [] {
      var n := |s| - 1;
      var k := key(s[n]);
      MirrorDropLast(s, m, key);
      MirrorSize(s[..n], m - {k}, key);
      assert m.Keys == (m - {k}).Keys + {k};
    }
  }

  /** Dropping the last record on both sides keeps the mirror. */
  lemma MirrorDropLast<T>(s: seq<T>, m: map<string, T>, key: T -> string)
    requires Mirrors(s, m, key) && s != []
    ensures Mirrors(s[..|s| - 1], m - {key(s[|s| - 1])}, key)
  {
    var n := |s| - 1;
    var s', m' := s[..n], m - {key(s[n])};
    forall i | 0 <= i < |s'|
      ensures key(s'[i]) in m' && m'[key(s'[i])] == s'[i]
    {
      assert key(s[i]) != key(s[n]);
    }
    forall k' | k' in m'
      ensures exists i :: 0 <= i < |s'| && key(s'[i]) == k'
    {
      var i :| 0 <= i < |s| && key(s[i]) == k';
      assert i != n && key(s'[i]) == k';
    }
  }

  /** Appending a record whose key is new to the store keeps the mirror. */
  lemma AppendKeepsMirror<T>(s: seq<T>, m: map<string, T>, key: T -> string, x: T)
    requires Mirrors(s, m, key) && key(x) !in m
    ensures Mirrors(s + [x], m[key(x) := x], key)
  {
    var s', m' := s + [x], m[key(x) := x];
    forall k | k in m'
      ensures exists i :: 0 <= i < |s'| && key(s'[i]) == k
    {
      if k == key(x) {
        assert key(s'[|s|]) == k;
      } else {
        var i :| 0 <= i < |s| && key(s[i]) == k;
        assert s'[i] == s[i];
      }
    }
  }

  /** Replacing by id a record the store already holds, on both sides, keeps the mirror. */
  lemma ReplacePresentKeepsMirror<T>(s: seq<T>, m: map<string, T>, key: T -> string, x: T)
    requires Mirrors(s, m, key) && key(x) in m
    ensures Mirrors(ReplaceById(s, key, x), m[key(x) := x], key)
  {
    var r, m' := ReplaceById(s, key, x), m[key(x) := x];
    forall k | k in m'
      ensures exists i :: 0 <= i < |r| && key(r[i]) == k
    {
      var i :| 0 <= i < |s| && key(s[i]) == k;
      assert key(r[i]) == k;
    }
  }

  /**
   * Updating an id the memory does not hold: memory stays as it is while the
   * store's upsert inserts the record, so the two no longer agree.
   */
  lemma ReplaceAbsentBreaksMirror<T>(s: seq<T>, m: map<string, T>, key: T -> string, x: T)
    requires Mirrors(s, m, key) && key(x) !in m
    ensures ReplaceById(s, key, x) == s
    ensures !Mirrors(ReplaceById(s, key, x), m[key(x) := x], key)
  {
    ReplaceAbsentIsIdentity(s, key, x);
    var m' := m[key(x) := x];
    assert key(x) in m';
  }

  /** Deleting an id on both sides keeps the mirror. */
  lemma RemoveKeepsMirror<T>(s: seq<T>, m: map<string, T>, key: T -> string, id: string)
    requires Mirrors(s, m, key)
    ensures Mirrors(RemoveById(s, key, id), ObjectStore.Delete(m, id), key)
  {
    var r := RemoveById(s, key, id);
    var m' := ObjectStore.Delete(m, id);
    RemoveDistinct(s, key, id);
    forall k | k in m'
      ensures exists i :: 0 <= i < |r| && key(r[i]) == k
    {
      var j :| 0 <= j < |s| && key(s[j]) == k;
      assert s[j] in r;
      var i :| 0 <= i < |r| && r[i] == s[j];
    }
  }

  /** Filtering keeps keys pairwise distinct. */
  lemma {:induction false} RemoveDistinct<T>(s: seq<T>, key: T -> string, id: string)
    requires DistinctKeys(s, key)
    ensures DistinctKeys(RemoveById(s, key, id), key)
  {
    if s != [] {
      var s' := s[..|s| - 1];
      RemoveDistinct(s', key, id);
      var last := s[|s| - 1];
      var r' := RemoveById(s', key, id);
      forall i | 0 <= i < |r'|
        ensures key(r'[i]) != key(last)
      {
        assert r'[i] in s';
        var j :| 0 <= j < |s'| && s'[j] == r'[i];
        assert s[j] == s'[j];
      }
      if key(last) != id {
        var r := RemoveById(s, key, id);
        assert r == r' + [last];
        forall i, j | 0 <= i < j < |r|
          ensures key(r[i]) != key(r[j])
        {
          if j < |r'| {
            assert r[i] == r'[i] && r[j] == r'[j];
          } else {
            assert r[i] == r'[i] && r[j] == last;
          }
        }
      } else {
        assert RemoveById(s, key, id) == r';
      }
    }
  }

  /** Reordering a mirror in place keeps it a mirror: the same records, still each once. */
  lemma PermutedMirror<T>(s: seq<T>, t: seq<T>, m: map<string, T>, key: T -> string)
    requires Mirrors(s, m, key) && multiset(s) == multiset(t)
    ensures Mirrors(t, m, key)
  {
    forall i | 0 <= i < |t|
      ensures key(t[i]) in m && m[key(t[i])] == t[i]
    {
      assert t[i] in multiset(s);
    }
    forall i, j | 0 <= i < j < |t|
      ensures key(t[i]) != key(t[j])
    {
      if key(t[i]) == key(t[j]) {
        assert t[i] == t[j];
        RepeatCount(t, i, j);
        DistinctCount(s, key, t[i]);
        assert false;
      }
    }
    forall k | k in m
      ensures exists i :: 0 <= i < |t| && key(t[i]) == k
    {
      var j :| 0 <= j < |s| && key(s[j]) == k;
      assert s[j] in multiset(t);
      var i :| 0 <= i < |t| && t[i] == s[j];
    }
  }

  /** With distinct keys no record occurs twice. */
  lemma {:induction false} DistinctCount<T, K>(s: seq<T>, key: T -> K, x: T)
    requires DistinctKeys(s, key)
    ensures multiset(s)[x] <= 1
  {
    if s != [] {
      var n := |s| - 1;
      var s' := s[..n];
      assert s == s' + [s[n]];
      DistinctCount(s', key, x);
      if s[n] == x {
        assert x !in s' by {
          forall i | 0 <= i < n
            ensures s'[i] != x
          {
            assert key(s[i]) != key(s[n]);
          }
        }
      }
    }
  }

  /** A record at two positions occurs at least twice. */
  lemma RepeatCount<T>(s: seq<T>, i: nat, j: nat)
    requires i < j < |s| && s[i] == s[j]
    ensures multiset(s)[s[i]] >= 2
  {
    assert s == s[..j] + [s[j]] + s[j + 1..];
    assert s[i] in s[..j];
  }

  /** The settings as a patch that carries each of their fields (`lastSync` only when it is set). */
  function PatchOf(s: AppSettings): SettingsPatch {
    SettingsPatch(Some(s.darkMode), Some(s.currency), Some(s.pinEnabled),
                  Some(s.biometricEnabled), Some(s.syncEnabled), s.lastSync)
  }

  /** Every field that `p` carries, `q` carries with the same value. */
  predicate Agrees(p: SettingsPatch, q: SettingsPatch) {
    && (p.darkMode.Some? ==> q.darkMode == p.darkMode)
    && (p.currency.Some? ==> q.currency == p.currency)
    && (p.pinEnabled.Some? ==> q.pinEnabled == p.pinEnabled)
    && (p.biometricEnabled.Some? ==> q.biometricEnabled == p.biometricEnabled)
    && (p.syncEnabled.Some? ==> q.syncEnabled == p.syncEnabled)
    && (p.lastSync.Some? ==> q.lastSync == p.lastSync)
  }

  /** The patch carries every field. */
  predicate IsFull(p: SettingsPatch) {
    p.darkMode.Some? && p.currency.Some? && p.pinEnabled.Some? &&
    p.biometricEnabled.Some? && p.syncEnabled.Some? && p.lastSync.Some?
  }

  /** `{ ...p, ...q }` on two partial objects: a field `q` carries wins over `p`'s. */
  function Overlay(p: SettingsPatch, q: SettingsPatch): SettingsPatch {
    SettingsPatch(
      if q.darkMode.Some? then q.darkMode else p.darkMode,
      if q.currency.Some? then q.currency else p.currency,
      if q.pinEnabled.Some? then q.pinEnabled else p.pinEnabled,
      if q.biometricEnabled.Some? then q.biometricEnabled else p.biometricEnabled,
      if q.syncEnabled.Some? then q.syncEnabled else p.syncEnabled,
      if q.lastSync.Some? then q.lastSync else p.lastSync)
  }

  /**
   * `{ ...current, ...patch }`: every field the patch carries wins, and a
   * patch that carries every field replaces the settings outright.
   */
  function MergeSettings(current: AppSettings, patch: SettingsPatch): (r: AppSettings)
    ensures Agrees(patch, PatchOf(r))
    ensures IsFull(patch) ==> PatchOf(r) == patch
  {
    var r := AppSettings(
      Pick(patch.darkMode, current.darkMode),
      Pick(patch.currency, current.currency),
      Pick(patch.pinEnabled, current.pinEnabled),
      Pick(patch.biometricEnabled, current.biometricEnabled),
      Pick(patch.syncEnabled, current.syncEnabled),
      if patch.lastSync.Some? then patch.lastSync else current.lastSync);
    r
  }

  /** The field value a patch carries, or the current one. */
  function Pick<T>(carried: Option<T>, current: T): T {
    if carried.Some? then carried.value else current
  }

  const EmptyPatch: SettingsPatch := SettingsPatch(None, None, None, None, None, None)

  /**
   * The merge is the spread of the patch over all of the current fields; a
   * patch with no fields changes nothing; applying one patch twice is
   * applying it once.
   */
  lemma MergeLaws(current: AppSettings, patch: SettingsPatch)
    ensures PatchOf(MergeSettings(current, patch)) == Overlay(PatchOf(current), patch)
    ensures MergeSettings(current, EmptyPatch) == current
    ensures MergeSettings(MergeSettings(current, patch), patch) == MergeSettings(current, patch)
  {
  }

  /** A patch that carries only the current values changes nothing. */
  lemma MergeNoop(current: AppSettings, patch: SettingsPatch)
    requires Agrees(patch, PatchOf(current))
    ensures MergeSettings(current, patch) == current
  {
    var r := MergeSettings(current, patch);
    assert r.darkMode == current.darkMode && r.currency == current.currency;
    assert r.pinEnabled == current.pinEnabled && r.biometricEnabled == current.biometricEnabled;
    assert r.syncEnabled == current.syncEnabled && r.lastSync == current.lastSync;
  }

  /** Two updates in a row are one update with the second patch spread over the first. */
  lemma MergeCompose(current: AppSettings, p: SettingsPatch, q: SettingsPatch)
    ensures MergeSettings(MergeSettings(current, p), q) == MergeSettings(current, Overlay(p, q))
  {
  }

  /** `{ ...settings, darkMode: !settings.darkMode }` */
  function ToggleDarkMode(s: AppSettings): (r: AppSettings)
    ensures r.darkMode != s.darkMode
    ensures r.(darkMode := s.darkMode) == s
  {
    s.(darkMode := !s.darkMode)
  }

  /** Toggling twice restores the settings; a toggle is the merge of a one-field patch. */
  lemma ToggleLaws(s: AppSettings)
    ensures ToggleDarkMode(ToggleDarkMode(s)) == s
    ensures ToggleDarkMode(s) == MergeSettings(s, EmptyPatch.(darkMode := Some(!s.darkMode)))
  {
  }
}
