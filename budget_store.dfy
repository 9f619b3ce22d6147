/**
 * The application state manager (`useBudgetStore`): in-memory copies of the
 * transactions, credits and categories, the current settings and the
 * `initialized` flag, over the durable database. Every action first awaits
 * its store request and only then replaces the in-memory value; a rejected
 * request leaves memory as it was.
 */
module BudgetStore {
  import opened Records
  import ObjectStore
  import MemoryOps
  import opened BudgetDb

  /**
   * `{ ...draft, id, createdAt: new Date(), updatedAt: new Date(), synced: false }`:
   * the clock is read twice, so the two times are separate inputs.
   */
  function NewTransaction(d: TransactionDraft, id: string, created: Date, updated: Date): Transaction {
    Transaction(id, d.amount, d.kind, d.categoryId, d.description, d.date, created, updated, Some(false))
  }

  /** As `NewTransaction`, for a credit. */
  function NewCredit(d: CreditDraft, id: string, created: Date, updated: Date): Credit {
    Credit(id, d.creditor, d.debtor, d.totalAmount, d.termMonths, d.monthlyRate,
           d.effectiveInterestRate, d.startDate, d.description, created, updated, Some(false))
  }

  /** `{ ...draft, id, createdAt: now }` */
  function NewCategory(d: CategoryDraft, id: string, now: Date): Category {
    Category(id, d.name, d.kind, d.transactionType, d.icon, d.color, d.isCustom, now)
  }

  /** The settings that `initialize` loads from a settings store. */
  function StoredOrDefault(m: map<string, AppSettings>): AppSettings {
    if SettingsKey in m then m[SettingsKey] else DefaultSettings
  }

  /** The inserted record keeps the caller's fields and gets the given id, both timestamps and `synced = false`. */
  lemma NewRecordFields(d: TransactionDraft, c: CreditDraft, k: CategoryDraft, id: string, now: Date, later: Date)
    ensures var t := NewTransaction(d, id, now, later);
      t.id == id && t.synced == Some(false) && t.createdAt == now && t.updatedAt == later &&
      TransactionDraft(t.amount, t.kind, t.categoryId, t.description, t.date, d.synced) == d
    ensures var r := NewCredit(c, id, now, later);
      r.id == id && r.synced == Some(false) && r.createdAt == now && r.updatedAt == later &&
      CreditDraft(r.creditor, r.debtor, r.totalAmount, r.termMonths, r.monthlyRate,
                  r.effectiveInterestRate, r.startDate, r.description, c.synced) == c
    ensures var g := NewCategory(k, id, now);
      g.id == id && g.createdAt == now &&
      CategoryDraft(g.name, g.kind, g.transactionType, g.icon, g.color, g.isCustom) == k
  {
  }

  class Store {
    const db: Database
    var transactions: seq<Transaction>
    var credits: seq<Credit>
    var categories: seq<Category>
    var settings: AppSettings
    var initialized: bool

    ghost predicate Valid()
      reads this, db
    {
      db.Valid()
    }

    /** Memory shows exactly what the durable store holds. */
    ghost predicate InSync()
      reads this, db
    {
      && MemoryOps.Mirrors(transactions, db.transactions, TransactionKey)
      && MemoryOps.Mirrors(credits, db.credits, CreditKey)
      && MemoryOps.Mirrors(categories, db.categories, CategoryKey)
      && settings == StoredOrDefault(db.settings)
    }

    twostate predicate MemoryUnchanged()
      reads this
    {
      && transactions == old(transactions)
      && credits == old(credits)
      && categories == old(categories)
      && settings == old(settings)
      && initialized == old(initialized)
    }

    /** The initial state of the store, before `initialize`. */
    constructor (db: Database)
      requires db.Valid()
      ensures this.db == db && Valid()
      ensures transactions == [] && credits == [] && categories == []
      ensures settings == DefaultSettings && !initialized
    {
      this.db := db;
      transactions, credits, categories := [], [], [];
      settings := DefaultSettings;
      initialized := false;
    }

    /**
     * `initialize`: opens the database, reads all four stores and replaces
     * memory wholesale. A failure is logged and swallowed: nothing changes
     * and `initialized` keeps its value.
     */
    method Initialize()
      requires Valid()
      modifies this, db
      ensures Valid() && db.Connected() && db.DataUnchanged()
      ensures old(db.Openable()) ==>
        && initialized
        && ObjectStore.Enumerates(transactions, db.transactions, TransactionKey)
        && ObjectStore.Enumerates(credits, db.credits, CreditKey)
        && ObjectStore.Enumerates(categories, db.categories, CategoryKey)
        && settings == StoredOrDefault(db.settings)
        && InSync()
      ensures !old(db.Openable()) ==> unchanged(this)
    {
      var start := db.InitDb();
      if start.Fail? {
        return;
      }
      var ts := db.GetAllTransactions();
      var cs := db.GetAllCredits();
      var ks := db.GetAllCategories();
      var st := db.GetSettings();
      if ts.Err? || cs.Err? || ks.Err? || st.Err? {
        return;
      }
      transactions, credits, categories := ts.value, cs.value, ks.value;
      settings := if st.value.Some? then st.value.value else DefaultSettings;
      initialized := true;
      MemoryOps.EnumerationMirrors(transactions, db.transactions, TransactionKey);
      MemoryOps.EnumerationMirrors(credits, db.credits, CreditKey);
      MemoryOps.EnumerationMirrors(categories, db.categories, CategoryKey);
    }

    // Transactions

    method AddTransaction(draft: TransactionDraft, id: string, created: Date, updated: Date) returns (r: Outcome)
      requires Valid()
      modifies this, db
      ensures Valid() && db.Connected()
      ensures r == if !old(db.Openable()) then Fail(db.OpenError())
                   else if id in old(db.transactions) then Fail(ConstraintError)
                   else Pass
      ensures r.Pass? ==> var t := NewTransaction(draft, id, created, updated);
        transactions == old(transactions) + [t] && db.transactions == old(db.transactions)[id := t]
      ensures r.Fail? ==> transactions == old(transactions) && db.transactions == old(db.transactions)
      ensures credits == old(credits) && categories == old(categories)
      ensures settings == old(settings) && initialized == old(initialized)
      ensures db.credits == old(db.credits) && db.categories == old(db.categories) && db.settings == old(db.settings)
      ensures old(InSync()) ==> InSync()
    {
      var t := NewTransaction(draft, id, created, updated);
      r := db.AddTransaction(t);
      if r.Fail? {
        return;
      }
      if old(InSync()) {
        MemoryOps.AppendKeepsMirror(transactions, old(db.transactions), TransactionKey, t);
      }
      transactions := transactions + [t];
    }

    method UpdateTransaction(t: Transaction, now: Date) returns (r: Outcome)
      requires Valid()
      modifies this, db
      ensures Valid() && db.Connected()
      ensures r == if old(db.Openable()) then Pass else Fail(db.OpenError())
      ensures r.Pass? ==> var u := t.(updatedAt := now);
        && transactions == MemoryOps.ReplaceById(old(transactions), TransactionKey, u)
        && db.transactions == ObjectStore.Put(old(db.transactions), t.id, u)
      ensures r.Fail? ==> transactions == old(transactions) && db.transactions == old(db.transactions)
      ensures credits == old(credits) && categories == old(categories)
      ensures settings == old(settings) && initialized == old(initialized)
      ensures db.credits == old(db.credits) && db.categories == old(db.categories) && db.settings == old(db.settings)
      // updating an id memory does not hold inserts it in the store only
      ensures old(InSync()) && r.Pass? ==> (InSync() <==> t.id in old(db.transactions))
    {
      var u := t.(updatedAt := now);
      r := db.UpdateTransaction(u);
      if r.Fail? {
        return;
      }
      if old(InSync()) {
        if t.id in old(db.transactions) {
          MemoryOps.ReplacePresentKeepsMirror(transactions, old(db.transactions), TransactionKey, u);
        } else {
          MemoryOps.ReplaceAbsentBreaksMirror(transactions, old(db.transactions), TransactionKey, u);
        }
      }
      transactions := MemoryOps.ReplaceById(transactions, TransactionKey, u);
    }

    method DeleteTransaction(id: string) returns (r: Outcome)
      requires Valid()
      modifies this, db
      ensures Valid() && db.Connected()
      ensures r == if old(db.Openable()) then Pass else Fail(db.OpenError())
      ensures r.Pass? ==>
        && transactions == MemoryOps.RemoveById(old(transactions), TransactionKey, id)
        && db.transactions == ObjectStore.Delete(old(db.transactions), id)
      ensures r.Fail? ==> transactions == old(transactions) && db.transactions == old(db.transactions)
      ensures credits == old(credits) && categories == old(categories)
      ensures settings == old(settings) && initialized == old(initialized)
      ensures db.credits == old(db.credits) && db.categories == old(db.categories) && db.settings == old(db.settings)
      ensures old(InSync()) ==> InSync()
    {
      r := db.DeleteTransaction(id);
      if r.Fail? {
        return;
      }
      if old(InSync()) {
        MemoryOps.RemoveKeepsMirror(transactions, old(db.transactions), TransactionKey, id);
      }
      transactions := MemoryOps.RemoveById(transactions, TransactionKey, id);
    }

    // Credits

    method AddCredit(draft: CreditDraft, id: string, created: Date, updated: Date) returns (r: Outcome)
      requires Valid()
      modifies this, db
      ensures Valid() && db.Connected()
      ensures r == if !old(db.Openable()) then Fail(db.OpenError())
                   else if id in old(db.credits) then Fail(ConstraintError)
                   else Pass
      ensures r.Pass? ==> var c := NewCredit(draft, id, created, updated);
        credits == old(credits) + [c] && db.credits == old(db.credits)[id := c]
      ensures r.Fail? ==> credits == old(credits) && db.credits == old(db.credits)
      ensures transactions == old(transactions) && categories == old(categories)
      ensures settings == old(settings) && initialized == old(initialized)
      ensures db.transactions == old(db.transactions) && db.categories == old(db.categories)
      ensures db.settings == old(db.settings)
      ensures old(InSync()) ==> InSync()
    {
      var c := NewCredit(draft, id, created, updated);
      r := db.AddCredit(c);
      if r.Fail? {
        return;
      }
      if old(InSync()) {
        MemoryOps.AppendKeepsMirror(credits, old(db.credits), CreditKey, c);
      }
      credits := credits + [c];
    }

    method UpdateCredit(c: Credit, now: Date) returns (r: Outcome)
      requires Valid()
      modifies this, db
      ensures Valid() && db.Connected()
      ensures r == if old(db.Openable()) then Pass else Fail(db.OpenError())
      ensures r.Pass? ==> var u := c.(updatedAt := now);
        && credits == MemoryOps.ReplaceById(old(credits), CreditKey, u)
        && db.credits == ObjectStore.Put(old(db.credits), c.id, u)
      ensures r.Fail? ==> credits == old(credits) && db.credits == old(db.credits)
      ensures transactions == old(transactions) && categories == old(categories)
      ensures settings == old(settings) && initialized == old(initialized)
      ensures db.transactions == old(db.transactions) && db.categories == old(db.categories)
      ensures db.settings == old(db.settings)
      ensures old(InSync()) && r.Pass? ==> (InSync() <==> c.id in old(db.credits))
    {
      var u := c.(updatedAt := now);
      r := db.UpdateCredit(u);
      if r.Fail? {
        return;
      }
      if old(InSync()) {
        if c.id in old(db.credits) {
          MemoryOps.ReplacePresentKeepsMirror(credits, old(db.credits), CreditKey, u);
        } else {
          MemoryOps.ReplaceAbsentBreaksMirror(credits, old(db.credits), CreditKey, u);
        }
      }
      credits := MemoryOps.ReplaceById(credits, CreditKey, u);
    }

    method DeleteCredit(id: string) returns (r: Outcome)
      requires Valid()
      modifies this, db
      ensures Valid() && db.Connected()
      ensures r == if old(db.Openable()) then Pass else Fail(db.OpenError())
      ensures r.Pass? ==>
        && credits == MemoryOps.RemoveById(old(credits), CreditKey, id)
        && db.credits == ObjectStore.Delete(old(db.credits), id)
      ensures r.Fail? ==> credits == old(credits) && db.credits == old(db.credits)
      ensures transactions == old(transactions) && categories == old(categories)
      ensures settings == old(settings) && initialized == old(initialized)
      ensures db.transactions == old(db.transactions) && db.categories == old(db.categories)
      ensures db.settings == old(db.settings)
      ensures old(InSync()) ==> InSync()
    {
      r := db.DeleteCredit(id);
      if r.Fail? {
        return;
      }
      if old(InSync()) {
        MemoryOps.RemoveKeepsMirror(credits, old(db.credits), CreditKey, id);
      }
      credits := MemoryOps.RemoveById(credits, CreditKey, id);
    }

    // Categories

    method AddCategory(draft: CategoryDraft, id: string, now: Date) returns (r: Outcome)
      requires Valid()
      modifies this, db
      ensures Valid() && db.Connected()
      ensures r == if !old(db.Openable()) then Fail(db.OpenError())
                   else if id in old(db.categories) then Fail(ConstraintError)
                   else Pass
      ensures r.Pass? ==> var c := NewCategory(draft, id, now);
        categories == old(categories) + [c] && db.categories == old(db.categories)[id := c]
      ensures r.Fail? ==> categories == old(categories) && db.categories == old(db.categories)
      ensures transactions == old(transactions) && credits == old(credits)
      ensures settings == old(settings) && initialized == old(initialized)
      ensures db.transactions == old(db.transactions) && db.credits == old(db.credits)
      ensures db.settings == old(db.settings)
      ensures old(InSync()) ==> InSync()
    {
      var c := NewCategory(draft, id, now);
      r := db.AddCategory(c);
      if r.Fail? {
        return;
      }
      if old(InSync()) {
        MemoryOps.AppendKeepsMirror(categories, old(db.categories), CategoryKey, c);
      }
      categories := categories + [c];
    }

    /** Categories are stored as given: no timestamp is touched. */
    method UpdateCategory(c: Category) returns (r: Outcome)
      requires Valid()
      modifies this, db
      ensures Valid() && db.Connected()
      ensures r == if old(db.Openable()) then Pass else Fail(db.OpenError())
      ensures r.Pass? ==>
        && categories == MemoryOps.ReplaceById(old(categories), CategoryKey, c)
        && db.categories == ObjectStore.Put(old(db.categories), c.id, c)
      ensures r.Fail? ==> categories == old(categories) && db.categories == old(db.categories)
      ensures transactions == old(transactions) && credits == old(credits)
      ensures settings == old(settings) && initialized == old(initialized)
      ensures db.transactions == old(db.transactions) && db.credits == old(db.credits)
      ensures db.settings == old(db.settings)
      ensures old(InSync()) && r.Pass? ==> (InSync() <==> c.id in old(db.categories))
    {
      r := db.UpdateCategory(c);
      if r.Fail? {
        return;
      }
      if old(InSync()) {
        if c.id in old(db.categories) {
          MemoryOps.ReplacePresentKeepsMirror(categories, old(db.categories), CategoryKey, c);
        } else {
          MemoryOps.ReplaceAbsentBreaksMirror(categories, old(db.categories), CategoryKey, c);
        }
      }
      categories := MemoryOps.ReplaceById(categories, CategoryKey, c);
    }

    method DeleteCategory(id: string) returns (r: Outcome)
      requires Valid()
      modifies this, db
      ensures Valid() && db.Connected()
      ensures r == if old(db.Openable()) then Pass else Fail(db.OpenError())
      ensures r.Pass? ==>
        && categories == MemoryOps.RemoveById(old(categories), CategoryKey, id)
        && db.categories == ObjectStore.Delete(old(db.categories), id)
      ensures r.Fail? ==> categories == old(categories) && db.categories == old(db.categories)
      ensures transactions == old(transactions) && credits == old(credits)
      ensures settings == old(settings) && initialized == old(initialized)
      ensures db.transactions == old(db.transactions) && db.credits == old(db.credits)
      ensures db.settings == old(db.settings)
      ensures old(InSync()) ==> InSync()
    {
      r := db.DeleteCategory(id);
      if r.Fail? {
        return;
      }
      if old(InSync()) {
        MemoryOps.RemoveKeepsMirror(categories, old(db.categories), CategoryKey, id);
      }
      categories := MemoryOps.RemoveById(categories, CategoryKey, id);
    }

    // Settings

    /** Read-modify-write: merge onto the in-memory settings, store the whole record, then set it. */
    method UpdateSettings(patch: SettingsPatch) returns (r: Outcome)
      requires Valid()
      modifies this, db
      ensures Valid() && db.Connected()
      ensures r == if old(db.Openable()) then Pass else Fail(db.OpenError())
      ensures r.Pass? ==> var merged := MemoryOps.MergeSettings(old(settings), patch);
        settings == merged && db.settings == map[SettingsKey := merged]
      ensures r.Fail? ==> settings == old(settings) && db.settings == old(db.settings)
      ensures transactions == old(transactions) && credits == old(credits) && categories == old(categories)
      ensures initialized == old(initialized)
      ensures db.transactions == old(db.transactions) && db.credits == old(db.credits)
      ensures db.categories == old(db.categories)
      ensures old(InSync()) ==> InSync()
    {
      var merged := MemoryOps.MergeSettings(settings, patch);
      r := db.UpdateSettings(merged);
      if r.Pass? {
        settings := merged;
      }
    }

    method ToggleDarkMode() returns (r: Outcome)
      requires Valid()
      modifies this, db
      ensures Valid() && db.Connected()
      ensures r == if old(db.Openable()) then Pass else Fail(db.OpenError())
      ensures r.Pass? ==> var flipped := MemoryOps.ToggleDarkMode(old(settings));
        settings == flipped && db.settings == map[SettingsKey := flipped]
      ensures r.Fail? ==> settings == old(settings) && db.settings == old(db.settings)
      ensures transactions == old(transactions) && credits == old(credits) && categories == old(categories)
      ensures initialized == old(initialized)
      ensures db.transactions == old(db.transactions) && db.credits == old(db.credits)
      ensures db.categories == old(db.categories)
      ensures old(InSync()) ==> InSync()
    {
      var flipped := MemoryOps.ToggleDarkMode(settings);
      r := db.UpdateSettings(flipped);
      if r.Pass? {
        settings := flipped;
      }
    }
  }
}
