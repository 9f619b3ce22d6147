/**
 * The application bootstrap: on first render with `initialized` false, the
 * provider awaits `initialize()` and then `initializePredefinedCategories()`.
 * `InitAsWritten` keeps that order; `InitSeedFirst` seeds first, so that
 * the categories `initialize` loads include the seeded ones.
 */
module Providers {
  import opened Records
  import ObjectStore
  import MemoryOps
  import opened BudgetDb
  import opened BudgetStore
  import Seeding

  /** Initialize, then seed (the order of the provider's effect). */
  method InitAsWritten(store: Store, ids: seq<string>, times: seq<Date>)
    requires store.Valid() && !store.initialized
    requires |ids| == |Seeding.PredefinedCategories| && |times| == |Seeding.PredefinedCategories|
    modifies store, store.db
    ensures store.Valid()
    ensures old(store.db.Openable()) ==>
      && store.initialized
      && ObjectStore.Enumerates(store.categories, old(store.db.categories), CategoryKey)
      && store.db.categories == Seeding.SeedPlan(old(store.db.categories), ids, times).store
    ensures !old(store.db.Openable()) ==> !store.initialized && store.categories == old(store.categories)
    // first launch: the seeded categories reach the store but not memory
    ensures old(store.db.Openable()) && old(store.db.categories) == map[] &&
            (forall i, j :: 0 <= i < j < |ids| ==> ids[i] != ids[j]) ==>
      store.categories == [] && |store.db.categories| == 7 && !store.InSync()
  {
    store.Initialize();
    ghost var loaded := store.db.categories;
    var _ := Seeding.InitializePredefinedCategories(store.db, ids, times);
    if old(store.db.Openable()) && loaded == map[] && forall i, j :: 0 <= i < j < |ids| ==> ids[i] != ids[j] {
      MemoryOps.EnumerationMirrors(store.categories, loaded, CategoryKey);
      MemoryOps.MirrorSize(store.categories, loaded, CategoryKey);
      Seeding.SeedFromEmpty(ids, times);
      FirstLaunchDiverges(ids, times);
      assert !MemoryOps.Mirrors(store.categories, store.db.categories, CategoryKey);
    }
  }

  /** On a first launch, an empty in-memory category list does not mirror the seeded store. */
  lemma FirstLaunchDiverges(ids: seq<string>, times: seq<Date>)
    requires |ids| == |Seeding.PredefinedCategories| && |times| == |Seeding.PredefinedCategories|
    requires forall i, j :: 0 <= i < j < |ids| ==> ids[i] != ids[j]
    ensures !MemoryOps.Mirrors([], Seeding.SeedPlan(map[], ids, times).store, CategoryKey)
  {
    Seeding.SeedFromEmpty(ids, times);
    var m := Seeding.SeedPlan(map[], ids, times).store;
    assert ids[0] in m;
  }

  /** Seed, then initialize: memory then shows the seeded categories. */
  method InitSeedFirst(store: Store, ids: seq<string>, times: seq<Date>)
    requires store.Valid() && !store.initialized
    requires |ids| == |Seeding.PredefinedCategories| && |times| == |Seeding.PredefinedCategories|
    modifies store, store.db
    ensures store.Valid()
    ensures old(store.db.Openable()) ==>
      && store.initialized
      && store.db.categories == Seeding.SeedPlan(old(store.db.categories), ids, times).store
      && ObjectStore.Enumerates(store.categories, store.db.categories, CategoryKey)
      && store.InSync()
    ensures !old(store.db.Openable()) ==> !store.initialized && store.categories == old(store.categories)
    ensures old(store.db.Openable()) && old(store.db.categories) == map[] &&
            (forall i, j :: 0 <= i < j < |ids| ==> ids[i] != ids[j]) ==>
      |store.categories| == 7
  {
    var _ := Seeding.InitializePredefinedCategories(store.db, ids, times);
    store.Initialize();
    if old(store.db.Openable()) && old(store.db.categories) == map[] &&
       forall i, j :: 0 <= i < j < |ids| ==> ids[i] != ids[j] {
      Seeding.SeedFromEmpty(ids, times);
      MemoryOps.EnumerationMirrors(store.categories, store.db.categories, CategoryKey);
      MemoryOps.MirrorSize(store.categories, store.db.categories, CategoryKey);
    }
  }
}
