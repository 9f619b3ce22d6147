/**
 * The durable record store: the IndexedDB database `mein-budget-db` at
 * schema version 1 with its four object stores, together with the module's
 * memoised connection `dbInstance`. Every exported operation first obtains
 * the connection (`getDB`, which opens it through `initDB` if needed) and
 * then issues one request against one object store.
 */
module BudgetDb {
  import opened Records
  import ObjectStore

  const DbVersion: nat := 1

  datatype StoreName = Transactions | Credits | Categories | Settings

  const AllStores: set<StoreName> := {Transactions, Credits, Categories, Settings}

  /** A set of store names holding all four names is the whole schema. */
  lemma AllStoresComplete(names: set<StoreName>)
    requires Transactions in names && Credits in names && Categories in names && Settings in names
    ensures names == AllStores
  {
    forall n | n in names
      ensures n in AllStores
    {
      match n
      case Transactions =>
      case Credits =>
      case Categories =>
      case Settings =>
    }
  }

  class Database {
    /** Whether the environment lets the database be opened at all. */
    const available: bool
    /** `dbInstance !== null`: a connection was opened and is memoised. */
    var connected: bool
    // What the browser keeps across sessions.
    var version: nat
    var storeNames: set<StoreName>
    var transactions: map<string, Transaction>
    var credits: map<string, Credit>
    var categories: map<string, Category>
    var settings: map<string, AppSettings>

    ghost predicate Valid()
      reads this
    {
      && (Transactions !in storeNames ==> transactions == map[])
      && (Credits !in storeNames ==> credits == map[])
      && (Categories !in storeNames ==> categories == map[])
      && (Settings !in storeNames ==> settings == map[])
      && (version == DbVersion ==> storeNames == AllStores)
      && (connected ==> version == DbVersion)
      && ObjectStore.KeyedBy(transactions, TransactionKey)
      && ObjectStore.KeyedBy(credits, CreditKey)
      && ObjectStore.KeyedBy(categories, CategoryKey)
      // the settings store only ever holds the record under the fixed key
      && settings.Keys <= {SettingsKey}
    }

    /** Whether `getDB()` resolves from this state. */
    ghost predicate Openable()
      reads this
    {
      connected || (available && version <= DbVersion)
    }

    /** The error `getDB()` rejects with when the database cannot be opened. */
    ghost function OpenError(): DbError
      reads this
    {
      if !available then OpenFailed else VersionError
    }

    /** After `getDB()`: open at the current schema if it could be, untouched otherwise. */
    twostate predicate Connected()
      reads this
    {
      && (old(Openable()) ==> connected && version == DbVersion && storeNames == AllStores)
      && (!old(Openable()) ==>
            connected == old(connected) && version == old(version) && storeNames == old(storeNames))
    }

    twostate predicate DataUnchanged()
      reads this
    {
      && transactions == old(transactions)
      && credits == old(credits)
      && categories == old(categories)
      && settings == old(settings)
    }

    /** A database that has never been opened in this browser. */
    constructor (available: bool)
      ensures Valid() && this.available == available
      ensures !connected && version == 0 && storeNames == {}
      ensures transactions == map[] && credits == map[] && categories == map[] && settings == map[]
    {
      this.available := available;
      connected := false;
      version := 0;
      storeNames := {};
      transactions, credits, categories := map[], map[], map[];
      settings := map[];
    }

    /**
     * The `upgrade` callback: creates each object store that is missing and
     * leaves every existing store, with its records, as it is.
     */
    method Upgrade()
      requires Valid() && version < DbVersion
      modifies this
      ensures Valid()
      ensures storeNames == AllStores
      ensures DataUnchanged()
      ensures version == old(version) && connected == old(connected)
    {
      CreateStore(Transactions);
      CreateStore(Credits);
      CreateStore(Categories);
      CreateStore(Settings);
      AllStoresComplete(storeNames);
    }

    /** `if (!db.objectStoreNames.contains(n)) db.createObjectStore(n, …)` */
    method CreateStore(n: StoreName)
      requires Valid()
      modifies this
      ensures Valid() && storeNames == old(storeNames) + {n}
      ensures DataUnchanged()
      ensures version == old(version) && connected == old(connected)
    {
      if n !in storeNames {
        storeNames := storeNames + {n};
        match n
        case Transactions => transactions := map[];
        case Credits => credits := map[];
        case Categories => categories := map[];
        case Settings => settings := map[];
      }
    }

    /**
     * `initDB()`: returns the memoised connection if there is one, changing
     * nothing; otherwise opens the database at version 1, running the upgrade
     * only when the stored version is older.
     */
    method InitDb() returns (r: Outcome)
      requires Valid()
      modifies this
      ensures Valid() && Connected() && DataUnchanged()
      ensures r == if old(Openable()) then Pass else Fail(OpenError())
      ensures old(connected) ==> unchanged(this)
    {
      if connected {
        return Pass;
      }
      if !available {
        return Fail(OpenFailed);
      }
      if version > DbVersion {
        return Fail(VersionError);
      }
      if version < DbVersion {
        Upgrade();
        version := DbVersion;
      }
      connected := true;
      return Pass;
    }

    /** `getDB()` */
    method GetDb() returns (r: Outcome)
      requires Valid()
      modifies this
      ensures Valid() && Connected() && DataUnchanged()
      ensures r == if old(Openable()) then Pass else Fail(OpenError())
    {
      if !connected {
        r := InitDb();
      } else {
        r := Pass;
      }
    }

    // Transactions

    method AddTransaction(t: Transaction) returns (r: Outcome)
      requires Valid()
      modifies this
      ensures Valid() && Connected()
      ensures r == if !old(Openable()) then Fail(OpenError())
                   else if t.id in old(transactions) then Fail(ConstraintError)
                   else Pass
      ensures transactions == if r.Pass? then old(transactions)[t.id := t] else old(transactions)
      ensures credits == old(credits) && categories == old(categories) && settings == old(settings)
    {
      r := GetDb();
      if r.Fail? {
        return;
      }
      var w := ObjectStore.Add(transactions, t.id, t);
      if w.Err? {
        return Fail(w.error);
      }
      transactions := w.value;
    }

    method GetAllTransactions() returns (r: Result<seq<Transaction>>)
      requires Valid()
      modifies this
      ensures Valid() && Connected() && DataUnchanged()
      ensures r.Ok? <==> old(Openable())
      ensures r.Err? ==> r.error == OpenError()
      ensures r.Ok? ==> ObjectStore.Enumerates(r.value, transactions, TransactionKey)
    {
      var o := GetDb();
      if o.Fail? {
        return Err(o.error);
      }
      var all := ObjectStore.GetAll(transactions, TransactionKey);
      return Ok(all);
    }

    method GetTransactionById(id: string) returns (r: Result<Option<Transaction>>)
      requires Valid()
      modifies this
      ensures Valid() && Connected() && DataUnchanged()
      ensures r == if old(Openable()) then Ok(ObjectStore.Get(transactions, id)) else Err(OpenError())
    {
      var o := GetDb();
      if o.Fail? {
        return Err(o.error);
      }
      return Ok(ObjectStore.Get(transactions, id));
    }

    /** `put`: inserts or replaces, whether or not the id was stored. */
    method UpdateTransaction(t: Transaction) returns (r: Outcome)
      requires Valid()
      modifies this
      ensures Valid() && Connected()
      ensures r == if old(Openable()) then Pass else Fail(OpenError())
      ensures transactions == if r.Pass? then ObjectStore.Put(old(transactions), t.id, t) else old(transactions)
      ensures credits == old(credits) && categories == old(categories) && settings == old(settings)
    {
      r := GetDb();
      if r.Pass? {
        transactions := ObjectStore.Put(transactions, t.id, t);
      }
    }

    method DeleteTransaction(id: string) returns (r: Outcome)
      requires Valid()
      modifies this
      ensures Valid() && Connected()
      ensures r == if old(Openable()) then Pass else Fail(OpenError())
      ensures transactions == if r.Pass? then ObjectStore.Delete(old(transactions), id) else old(transactions)
      ensures credits == old(credits) && categories == old(categories) && settings == old(settings)
    {
      r := GetDb();
      if r.Pass? {
        transactions := ObjectStore.Delete(transactions, id);
      }
    }

    // Credits

    method AddCredit(c: Credit) returns (r: Outcome)
      requires Valid()
      modifies this
      ensures Valid() && Connected()
      ensures r == if !old(Openable()) then Fail(OpenError())
                   else if c.id in old(credits) then Fail(ConstraintError)
                   else Pass
      ensures credits == if r.Pass? then old(credits)[c.id := c] else old(credits)
      ensures transactions == old(transactions) && categories == old(categories) && settings == old(settings)
    {
      r := GetDb();
      if r.Fail? {
        return;
      }
      var w := ObjectStore.Add(credits, c.id, c);
      if w.Err? {
        return Fail(w.error);
      }
      credits := w.value;
    }

    method GetAllCredits() returns (r: Result<seq<Credit>>)
      requires Valid()
      modifies this
      ensures Valid() && Connected() && DataUnchanged()
      ensures r.Ok? <==> old(Openable())
      ensures r.Err? ==> r.error == OpenError()
      ensures r.Ok? ==> ObjectStore.Enumerates(r.value, credits, CreditKey)
    {
      var o := GetDb();
      if o.Fail? {
        return Err(o.error);
      }
      var all := ObjectStore.GetAll(credits, CreditKey);
      return Ok(all);
    }

    method GetCreditById(id: string) returns (r: Result<Option<Credit>>)
      requires Valid()
      modifies this
      ensures Valid() && Connected() && DataUnchanged()
      ensures r == if old(Openable()) then Ok(ObjectStore.Get(credits, id)) else Err(OpenError())
    {
      var o := GetDb();
      if o.Fail? {
        return Err(o.error);
      }
      return Ok(ObjectStore.Get(credits, id));
    }

    method UpdateCredit(c: Credit) returns (r: Outcome)
      requires Valid()
      modifies this
      ensures Valid() && Connected()
      ensures r == if old(Openable()) then Pass else Fail(OpenError())
      ensures credits == if r.Pass? then ObjectStore.Put(old(credits), c.id, c) else old(credits)
      ensures transactions == old(transactions) && categories == old(categories) && settings == old(settings)
    {
      r := GetDb();
      if r.Pass? {
        credits := ObjectStore.Put(credits, c.id, c);
      }
    }

    method DeleteCredit(id: string) returns (r: Outcome)
      requires Valid()
      modifies this
      ensures Valid() && Connected()
      ensures r == if old(Openable()) then Pass else Fail(OpenError())
      ensures credits == if r.Pass? then ObjectStore.Delete(old(credits), id) else old(credits)
      ensures transactions == old(transactions) && categories == old(categories) && settings == old(settings)
    {
      r := GetDb();
      if r.Pass? {
        credits := ObjectStore.Delete(credits, id);
      }
    }

    // Categories

    method AddCategory(c: Category) returns (r: Outcome)
      requires Valid()
      modifies this
      ensures Valid() && Connected()
      ensures r == if !old(Openable()) then Fail(OpenError())
                   else if c.id in old(categories) then Fail(ConstraintError)
                   else Pass
      ensures categories == if r.Pass? then old(categories)[c.id := c] else old(categories)
      ensures transactions == old(transactions) && credits == old(credits) && settings == old(settings)
    {
      r := GetDb();
      if r.Fail? {
        return;
      }
      var w := ObjectStore.Add(categories, c.id, c);
      if w.Err? {
        return Fail(w.error);
      }
      categories := w.value;
    }

    method GetAllCategories() returns (r: Result<seq<Category>>)
      requires Valid()
      modifies this
      ensures Valid() && Connected() && DataUnchanged()
      ensures r.Ok? <==> old(Openable())
      ensures r.Err? ==> r.error == OpenError()
      ensures r.Ok? ==> ObjectStore.Enumerates(r.value, categories, CategoryKey)
    {
      var o := GetDb();
      if o.Fail? {
        return Err(o.error);
      }
      var all := ObjectStore.GetAll(categories, CategoryKey);
      return Ok(all);
    }

    method GetCategoryById(id: string) returns (r: Result<Option<Category>>)
      requires Valid()
      modifies this
      ensures Valid() && Connected() && DataUnchanged()
      ensures r == if old(Openable()) then Ok(ObjectStore.Get(categories, id)) else Err(OpenError())
    {
      var o := GetDb();
      if o.Fail? {
        return Err(o.error);
      }
      return Ok(ObjectStore.Get(categories, id));
    }

    method UpdateCategory(c: Category) returns (r: Outcome)
      requires Valid()
      modifies this
      ensures Valid() && Connected()
      ensures r == if old(Openable()) then Pass else Fail(OpenError())
      ensures categories == if r.Pass? then ObjectStore.Put(old(categories), c.id, c) else old(categories)
      ensures transactions == old(transactions) && credits == old(credits) && settings == old(settings)
    {
      r := GetDb();
      if r.Pass? {
        categories := ObjectStore.Put(categories, c.id, c);
      }
    }

    method DeleteCategory(id: string) returns (r: Outcome)
      requires Valid()
      modifies this
      ensures Valid() && Connected()
      ensures r == if old(Openable()) then Pass else Fail(OpenError())
      ensures categories == if r.Pass? then ObjectStore.Delete(old(categories), id) else old(categories)
      ensures transactions == old(transactions) && credits == old(credits) && settings == old(settings)
    {
      r := GetDb();
      if r.Pass? {
        categories := ObjectStore.Delete(categories, id);
      }
    }

    // Settings: one record under the fixed key

    method GetSettings() returns (r: Result<Option<AppSettings>>)
      requires Valid()
      modifies this
      ensures Valid() && Connected() && DataUnchanged()
      ensures r == if old(Openable()) then Ok(ObjectStore.Get(settings, SettingsKey)) else Err(OpenError())
    {
      var o := GetDb();
      if o.Fail? {
        return Err(o.error);
      }
      return Ok(ObjectStore.Get(settings, SettingsKey));
    }

    /** `put({ ...settings, id: 'app-settings' })` */
    method UpdateSettings(s: AppSettings) returns (r: Outcome)
      requires Valid()
      modifies this
      ensures Valid() && Connected()
      ensures r == if old(Openable()) then Pass else Fail(OpenError())
      ensures settings == if r.Pass? then map[SettingsKey := s] else old(settings)
      ensures transactions == old(transactions) && credits == old(credits) && categories == old(categories)
    {
      r := GetDb();
      if r.Pass? {
        settings := ObjectStore.Put(settings, SettingsKey, s);
      }
    }
  }
}
