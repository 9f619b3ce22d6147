/**
 * The first-run seeding rule: when the category store is empty, the seven
 * predefined categories are inserted one awaited `addCategory` at a time,
 * each under a fresh id and with its own creation time.
 */
module Seeding {
  import opened Records
  import ObjectStore
  import MemoryOps
  import opened BudgetDb
  import BudgetStore

  /** The predefined table, in its order; each entry is a category without id and creation time. */
  const PredefinedCategories: seq<CategoryDraft> := [
    CategoryDraft("Gehalt", Gehalt, Income, Some("\U{1F4B0}"), Some("#10b981"), false),
    CategoryDraft("Kindergeld", Kindergeld, Income, Some("\U{1F476}"), Some("#3b82f6"), false),
    CategoryDraft("Kredit", Kredit, Expense, Some("\U{1F3E6}"), Some("#ef4444"), false),
    CategoryDraft("Versicherung", Versicherung, Expense, Some("\U{1F6E1}\U{FE0F}"), Some("#f59e0b"), false),
    CategoryDraft("Tanken", Tanken, Expense, Some("\U{26FD}"), Some("#8b5cf6"), false),
    CategoryDraft("Einkauf", Einkauf, Expense, Some("\U{1F6D2}"), Some("#ec4899"), false),
    CategoryDraft("Unterhaltung", Unterhaltung, Expense, Some("\U{1F3AC}"), Some("#14b8a6"), false)
  ]

  function CountOf(s: seq<CategoryDraft>, t: TransactionType): nat {
    if s == [] then 0 else (if s[0].transactionType == t then 1 else 0) + CountOf(s[1..], t)
  }

  /** Seven entries: two income entries and five expense entries. */
  lemma TableCounts()
    ensures |PredefinedCategories| == 7
    ensures CountOf(PredefinedCategories, Income) == 2
    ensures CountOf(PredefinedCategories, Expense) == 5
  {
    var p := PredefinedCategories;
    assert p[6..][1..] == [];
    assert p[5..][1..] == p[6..];
    assert p[4..][1..] == p[5..];
    assert p[3..][1..] == p[4..];
    assert p[2..][1..] == p[3..];
    assert p[1..][1..] == p[2..];
    assert CountOf(p[6..], Income) == 0 && CountOf(p[6..], Expense) == 1;
    assert CountOf(p[5..], Income) == 0 && CountOf(p[5..], Expense) == 2;
    assert CountOf(p[4..], Income) == 0 && CountOf(p[4..], Expense) == 3;
    assert CountOf(p[3..], Income) == 0 && CountOf(p[3..], Expense) == 4;
    assert CountOf(p[2..], Income) == 0 && CountOf(p[2..], Expense) == 5;
    assert CountOf(p[1..], Income) == 1 && CountOf(p[1..], Expense) == 5;
  }

  /** One entry per predefined kind, none of them custom. */
  lemma TableKinds()
    ensures forall i, j :: 0 <= i < j < |PredefinedCategories| ==>
      PredefinedCategories[i].kind != PredefinedCategories[j].kind
    ensures forall i :: 0 <= i < |PredefinedCategories| ==>
      !PredefinedCategories[i].isCustom && PredefinedCategories[i].kind != Custom
  {
  }

  /** The record inserted for table entry `i`: `{ ...category, id, createdAt }`. */
  function SeedRecords(ids: seq<string>, times: seq<Date>): (r: seq<Category>)
    requires |ids| == |PredefinedCategories| && |times| == |PredefinedCategories|
    ensures |r| == |PredefinedCategories|
    ensures forall i :: 0 <= i < |r| ==> r[i] == BudgetStore.NewCategory(PredefinedCategories[i], ids[i], times[i])
  {
    seq(|PredefinedCategories|, i requires 0 <= i < |PredefinedCategories| =>
      BudgetStore.NewCategory(PredefinedCategories[i], ids[i], times[i]))
  }

  /** The store after a run of awaited inserts, and how the run settled. */
  datatype Seeded = Seeded(store: map<string, Category>, outcome: Outcome)

  /** Awaited `add`s in order: the first rejected one ends the run, the earlier ones stay. */
  function AddAll(m: map<string, Category>, recs: seq<Category>): (r: Seeded)
    ensures r.outcome.Pass? || r.outcome == Fail(ConstraintError)
    ensures m.Keys <= r.store.Keys && forall k :: k in m ==> r.store[k] == m[k]
    decreases |recs|
  {
    if recs == [] then Seeded(m, Pass)
    else match ObjectStore.Add(m, recs[0].id, recs[0])
      case Err(e) => Seeded(m, Fail(e))
      case Ok(m') => AddAll(m', recs[1..])
  }

  /** `initializePredefinedCategories` on a category store `m`. */
  function SeedPlan(m: map<string, Category>, ids: seq<string>, times: seq<Date>): Seeded
    requires |ids| == |PredefinedCategories| && |times| == |PredefinedCategories|
  {
    if |m| == 0 then AddAll(m, SeedRecords(ids, times)) else Seeded(m, Pass)
  }

  /** A store that already holds any category, custom ones included, is left alone. */
  lemma NonEmptyIsNoop(m: map<string, Category>, ids: seq<string>, times: seq<Date>)
    requires |ids| == |PredefinedCategories| && |times| == |PredefinedCategories|
    requires |m| > 0
    ensures SeedPlan(m, ids, times) == Seeded(m, Pass)
  {
  }

  /**
   * Inserting records with pairwise distinct new keys succeeds, stores each
   * one under its key, and adds no other key.
   */
  lemma {:induction false} AddAllFresh(m: map<string, Category>, recs: seq<Category>)
    requires forall i, j :: 0 <= i < j < |recs| ==> recs[i].id != recs[j].id
    requires forall i :: 0 <= i < |recs| ==> recs[i].id !in m
    ensures AddAll(m, recs).outcome == Pass
    ensures forall i :: 0 <= i < |recs| ==>
      recs[i].id in AddAll(m, recs).store && AddAll(m, recs).store[recs[i].id] == recs[i]
    ensures forall k :: k in AddAll(m, recs).store ==> k in m || exists i :: 0 <= i < |recs| && recs[i].id == k
    decreases |recs|
  {
    if recs != [] {
      var m' := m[recs[0].id := recs[0]];
      var t := recs[1..];
      forall i | 0 <= i < |t|
        ensures t[i].id !in m'
      {
        assert t[i] == recs[i + 1];
      }
      AddAllFresh(m', t);
      var r := AddAll(m, recs);
      assert r == AddAll(m', t);
      forall i | 0 <= i < |recs|
        ensures recs[i].id in r.store && r.store[recs[i].id] == recs[i]
      {
        if i > 0 {
          assert recs[i] == t[i - 1];
        }
      }
      forall k | k in r.store
        ensures k in m || exists i :: 0 <= i < |recs| && recs[i].id == k
      {
        if k !in m && k != recs[0].id {
          var i :| 0 <= i < |t| && t[i].id == k;
          assert recs[i + 1].id == k;
        }
      }
    }
  }

  /**
   * From an empty store with distinct ids, seeding inserts exactly the seven
   * table entries, each under its own id, none custom.
   */
  lemma SeedFromEmpty(ids: seq<string>, times: seq<Date>)
    requires |ids| == |PredefinedCategories| && |times| == |PredefinedCategories|
    requires forall i, j :: 0 <= i < j < |ids| ==> ids[i] != ids[j]
    ensures var s := SeedPlan(map[], ids, times);
      && s.outcome == Pass
      && (forall k :: k in s.store <==> k in ids)
      && |s.store| == 7
      && forall i :: 0 <= i < |ids| ==>
           s.store[ids[i]] == BudgetStore.NewCategory(PredefinedCategories[i], ids[i], times[i])
           && !s.store[ids[i]].isCustom
  {
    var recs := SeedRecords(ids, times);
    RunFromEmpty(recs, ids);
    assert SeedPlan(map[], ids, times) == AddAll(map[], recs);
    TableKinds();
  }

  /** Inserting records with distinct ids `ids` into an empty store stores exactly them. */
  lemma RunFromEmpty(recs: seq<Category>, ids: seq<string>)
    requires |recs| == |ids| && forall i :: 0 <= i < |recs| ==> recs[i].id == ids[i]
    requires forall i, j :: 0 <= i < j < |ids| ==> ids[i] != ids[j]
    ensures var s := AddAll(map[], recs);
      && s.outcome == Pass
      && (forall k :: k in s.store <==> k in ids)
      && |s.store| == |recs|
      && forall i :: 0 <= i < |recs| ==> ids[i] in s.store && s.store[ids[i]] == recs[i]
  {
    AddAllFresh(map[], recs);
    var s := AddAll(map[], recs);
    StoredAreIds(recs, ids, s.store);
    assert |s.store| == |recs| by {
      MirrorOfRun(recs, s.store);
      MemoryOps.MirrorSize(recs, s.store, CategoryKey);
    }
  }

  lemma StoredAreIds(recs: seq<Category>, ids: seq<string>, store: map<string, Category>)
    requires |recs| == |ids| && forall i :: 0 <= i < |recs| ==> recs[i].id == ids[i]
    requires forall i :: 0 <= i < |recs| ==> recs[i].id in store
    requires forall k :: k in store ==> exists i :: 0 <= i < |recs| && recs[i].id == k
    ensures forall k :: k in store <==> k in ids
  {
    forall k | k in store
      ensures k in ids
    {
      var i :| 0 <= i < |recs| && recs[i].id == k;
      assert ids[i] == k;
    }
    forall k | k in ids
      ensures k in store
    {
      var i :| 0 <= i < |ids| && ids[i] == k;
      assert recs[i].id == k;
    }
  }

  /** A run of fresh inserts stores exactly the inserted records. */
  lemma MirrorOfRun(recs: seq<Category>, store: map<string, Category>)
    requires forall i, j :: 0 <= i < j < |recs| ==> recs[i].id != recs[j].id
    requires forall i :: 0 <= i < |recs| ==> recs[i].id in store && store[recs[i].id] == recs[i]
    requires forall k :: k in store ==> exists i :: 0 <= i < |recs| && recs[i].id == k
    ensures MemoryOps.Mirrors(recs, store, CategoryKey)
  {
  }

  /** Seeding twice from empty leaves seven categories, not fourteen. */
  lemma SeedTwice(ids: seq<string>, times: seq<Date>, ids2: seq<string>, times2: seq<Date>)
    requires |ids| == |PredefinedCategories| && |times| == |PredefinedCategories|
    requires |ids2| == |PredefinedCategories| && |times2| == |PredefinedCategories|
    requires forall i, j :: 0 <= i < j < |ids| ==> ids[i] != ids[j]
    ensures var once := SeedPlan(map[], ids, times);
      SeedPlan(once.store, ids2, times2) == once && |once.store| == 7
  {
    SeedFromEmpty(ids, times);
  }

  /**
   * `initializePredefinedCategories`: reads the category store, and only
   * when it is empty runs the inserts. It writes to the durable store only.
   */
  method InitializePredefinedCategories(db: Database, ids: seq<string>, times: seq<Date>) returns (r: Outcome)
    requires db.Valid()
    requires |ids| == |PredefinedCategories| && |times| == |PredefinedCategories|
    modifies db
    ensures db.Valid() && db.Connected()
    ensures !old(db.Openable()) ==> r == Fail(db.OpenError()) && db.categories == old(db.categories)
    ensures old(db.Openable()) ==> Seeded(db.categories, r) == SeedPlan(old(db.categories), ids, times)
    ensures db.transactions == old(db.transactions) && db.credits == old(db.credits)
    ensures db.settings == old(db.settings)
  {
    var existing := db.GetAllCategories();
    if existing.Err? {
      return Fail(existing.error);
    }
    MemoryOps.EnumerationMirrors(existing.value, db.categories, CategoryKey);
    MemoryOps.MirrorSize(existing.value, db.categories, CategoryKey);
    if |existing.value| != 0 {
      return Pass;
    }
    r := AddEach(db, SeedRecords(ids, times));
  }

  /** The awaited `addCategory` calls of the seeding loop, one after the other, on an open database. */
  method AddEach(db: Database, recs: seq<Category>) returns (r: Outcome)
    requires db.Valid() && db.connected
    modifies db
    ensures db.Valid() && db.Connected()
    ensures Seeded(db.categories, r) == AddAll(old(db.categories), recs)
    ensures db.transactions == old(db.transactions) && db.credits == old(db.credits)
    ensures db.settings == old(db.settings)
  {
    var i := 0;
    while i < |recs|
      invariant 0 <= i <= |recs|
      invariant db.Valid() && db.connected && db.Connected()
      invariant AddAll(db.categories, recs[i..]) == AddAll(old(db.categories), recs)
      invariant db.transactions == old(db.transactions) && db.credits == old(db.credits)
      invariant db.settings == old(db.settings)
    {
      r := db.AddCategory(recs[i]);
      if r.Fail? {
        return;
      }
      assert recs[i..][1..] == recs[i + 1..];
      i := i + 1;
    }
    r := Pass;
  }
}
