# MeinBudget core in Dafny

MeinBudget is a browser budget book. It records income and expense
transactions, credits and categories. This project models the part of it
that holds and derives data:

- **The durable record store** (`BudgetDb`, over `ObjectStore` and `KeyOrder`).
  - It is the IndexedDB database `mein-budget-db` at schema version 1.
  - It has four object stores keyed by `id`; settings are one record under the fixed key `app-settings`.
  - It keeps the memoised connection `dbInstance`.
  - Its request semantics follow the Indexed Database API 3.0:
    - `add` sets the no-overwrite flag of the object-store storage operation (section 5.1) and fails with a ConstraintError on an existing key;
    - `put` inserts or replaces;
    - `delete` removes a key if present and is a no-op otherwise (section 5.4);
    - `getAll` lists records in ascending key order.
- **The in-memory state manager** (`BudgetStore`, over `MemoryOps`).
  - It holds sequences of transactions, credits and categories, the settings, and the `initialized` flag, all over a `Database`.
  - Every action first awaits its store request and only then replaces memory. A rejected request (a failed open, or an `add` of an id already stored) leaves memory as it was.
  - `InSync` holds when memory mirrors the store: every record once, nothing else. Each action is proved to keep it, except the update of an id that memory does not hold, which is proved to break it.
- **Seeding** (`Seeding`, `Providers`). The seven predefined categories are added one awaited `add` at a time, and only when the category store is empty. `Providers` models the bootstrap order of the application provider.
- **The credit formula** (`CreditCalc`). The annuity payment and the total interest, each rounded to cents.
  - Arithmetic is over exact reals.
  - The payment is proved to solve the annuity equation and to pay the loan off in exactly `n` months.
- **The page computations** (`Totals`, `ArraySort`, `Statistics`, `HomePage`).
  - Both pages' `stats` memos.
  - The statistics page's monthly buckets, six-month trend and top-five categories.
  - The home page's recent-five list. It sorts the store's own transaction list in place.

Nondeterministic inputs are parameters of the operations that use them:

- `crypto.randomUUID()` becomes an `id` parameter (a sequence of ids for seeding).
- `new Date()` becomes a `now` parameter (a sequence of times for seeding).
- Whether the browser lets the database be opened becomes the `available` field of `Database`.

Ids carry no freshness precondition. A duplicate id is modelled as the ConstraintError path that `add` takes.

## Model

| member | source | states |
|---|---|---|
| ObjectStore.Add | webapp/lib/db/index.ts:81 | `add` fails with ConstraintError exactly when the key is present; otherwise it stores the record under the key and keeps every other entry |
| ObjectStore.Put | webapp/lib/db/index.ts:96 | `put` stores the record under its key whether or not the key was present; no other key changes |
| ObjectStore.Delete | webapp/lib/db/index.ts:101 | `delete` removes exactly the key; the other records are kept; a missing key leaves the store as it was |
| ObjectStore.Get | webapp/lib/db/index.ts:91 | `get` answers the stored record for a present key and absent otherwise |
| ObjectStore.AddThenGet | webapp/lib/db/index.ts:89-92 | after a successful `add`, `get` of that key returns the added record |
| ObjectStore.PutThenGet | webapp/lib/db/index.ts:96 | after `put`, `get` of the key returns the new record and `get` of any other key is unaffected |
| ObjectStore.PutOverwrites | webapp/lib/db/index.ts:96 | putting the stored record changes nothing; of two puts on one key the last wins |
| ObjectStore.DeleteThenGet | webapp/lib/db/index.ts:101 | after `delete` the key is absent, and deleting again changes nothing |
| ObjectStore.AddTwiceRejected | webapp/lib/db/index.ts:81 | a second `add` of the key just added is rejected with ConstraintError |
| ObjectStore.KeyedByPreserved | webapp/lib/db/index.ts:37-39 | `add`, `put` and `delete` keep every record under its own `id` (the key path) |
| ObjectStore.GetAll | webapp/lib/db/index.ts:86 | `getAll` lists every stored record exactly once, in strictly ascending key order |
| ObjectStore.FirstIsLeast | webapp/lib/db/index.ts:86 | the first record `getAll` lists has the smallest key of the store |
| ObjectStore.EnumerationUnique | webapp/lib/db/index.ts:86 | two listings of one store in ascending key order are equal: `getAll` is determined by the store |
| KeyOrder.Irreflexive | webapp/lib/db/index.ts:86 | no key is below itself in the key order |
| KeyOrder.Transitive | webapp/lib/db/index.ts:86 | the key order is transitive |
| KeyOrder.Trichotomy | webapp/lib/db/index.ts:86 | any two keys are equal or one is below the other |
| KeyOrder.LeastExists | webapp/lib/db/index.ts:86 | every non-empty set of keys has a smallest key |
| KeyOrder.LeastUnique | webapp/lib/db/index.ts:86 | the smallest key of a set is unique |
| BudgetDb.AllStoresComplete | webapp/lib/db/index.ts:4-23 | a set of store names that holds all four names is exactly the schema |
| BudgetDb.Database.constructor | webapp/lib/db/index.ts:28 | a never-opened database has no connection, version 0, no object stores and no records |
| BudgetDb.Database.CreateStore | webapp/lib/db/index.ts:36-42 | creating a store adds its name only if missing; an existing store keeps its records |
| BudgetDb.Database.Upgrade | webapp/lib/db/index.ts:34-65 | the upgrade leaves all four stores present and every record of an existing store untouched |
| BudgetDb.Database.InitDb | webapp/lib/db/index.ts:30-69 | with a memoised connection nothing changes; otherwise an openable database opens at version 1 with all four stores, and an unopenable one fails with its error, unchanged |
| BudgetDb.Database.GetDb | webapp/lib/db/index.ts:71-76 | `getDB` succeeds exactly when the database is openable and changes no record |
| BudgetDb.Database.AddTransaction | webapp/lib/db/index.ts:79-82 | fails when the database cannot be opened or the id is stored; otherwise adds the transaction; the other stores are unchanged |
| BudgetDb.Database.GetAllTransactions | webapp/lib/db/index.ts:84-87 | on an open database answers the store's listing in key order; otherwise the open error |
| BudgetDb.Database.GetTransactionById | webapp/lib/db/index.ts:89-92 | on an open database answers `get` of the id; changes no record |
| BudgetDb.Database.UpdateTransaction | webapp/lib/db/index.ts:94-97 | on an open database upserts the transaction; the other stores are unchanged |
| BudgetDb.Database.DeleteTransaction | webapp/lib/db/index.ts:99-102 | on an open database deletes the id, a no-op when absent; the other stores are unchanged |
| BudgetDb.Database.AddCredit | webapp/lib/db/index.ts:105-108 | as `addTransaction`, for credits |
| BudgetDb.Database.GetAllCredits | webapp/lib/db/index.ts:110-113 | as `getAllTransactions`, for credits |
| BudgetDb.Database.GetCreditById | webapp/lib/db/index.ts:115-118 | as `getTransactionById`, for credits |
| BudgetDb.Database.UpdateCredit | webapp/lib/db/index.ts:120-123 | as `updateTransaction`, for credits |
| BudgetDb.Database.DeleteCredit | webapp/lib/db/index.ts:125-128 | as `deleteTransaction`, for credits |
| BudgetDb.Database.AddCategory | webapp/lib/db/index.ts:131-134 | as `addTransaction`, for categories |
| BudgetDb.Database.GetAllCategories | webapp/lib/db/index.ts:136-139 | as `getAllTransactions`, for categories |
| BudgetDb.Database.GetCategoryById | webapp/lib/db/index.ts:141-144 | as `getTransactionById`, for categories |
| BudgetDb.Database.UpdateCategory | webapp/lib/db/index.ts:146-149 | as `updateTransaction`, for categories |
| BudgetDb.Database.DeleteCategory | webapp/lib/db/index.ts:151-154 | as `deleteTransaction`, for categories |
| BudgetDb.Database.GetSettings | webapp/lib/db/index.ts:157-160 | answers `get` of the fixed key `app-settings` |
| BudgetDb.Database.UpdateSettings | webapp/lib/db/index.ts:166-169 | the settings store then holds exactly one record, the given settings under `app-settings`, so a following `getSettings` returns them |
| BudgetStore.NewRecordFields | webapp/lib/stores/budget-store.ts:78-84 | a new record keeps every field of the caller's draft, takes the given id, takes the two clock readings as `createdAt` and `updatedAt`, and `synced` is false whatever the caller passed |
| BudgetStore.Store.constructor | webapp/lib/stores/budget-store.ts:35-46 | the initial state is empty lists, the default settings and `initialized` false |
| BudgetStore.Store.Initialize | webapp/lib/stores/budget-store.ts:48-75 | on success memory is replaced by the four stores' contents (default settings when none are stored), `initialized` is set and memory mirrors the store; on failure nothing changes |
| BudgetStore.Store.AddTransaction | webapp/lib/stores/budget-store.ts:77-90 | after a successful write exactly one record is appended and the store holds it under the new id; a failed write leaves memory and the store as they were; the mirror is kept |
| BudgetStore.Store.UpdateTransaction | webapp/lib/stores/budget-store.ts:92-104 | after the write, memory replaces each element with the id by the record stamped with the new `updatedAt`, and the store upserts it; starting in sync, the mirror survives exactly when the id was stored |
| BudgetStore.Store.DeleteTransaction | webapp/lib/stores/budget-store.ts:106-111 | after the write, memory drops every element with the id and the store deletes it; a failed write changes nothing; the mirror is kept |
| BudgetStore.Store.AddCredit | webapp/lib/stores/budget-store.ts:113-126 | as `addTransaction`, for credits |
| BudgetStore.Store.UpdateCredit | webapp/lib/stores/budget-store.ts:128-138 | as `updateTransaction`, for credits |
| BudgetStore.Store.DeleteCredit | webapp/lib/stores/budget-store.ts:140-145 | as `deleteTransaction`, for credits |
| BudgetStore.Store.AddCategory | webapp/lib/stores/budget-store.ts:147-158 | as `addTransaction`, for categories (no `updatedAt`, no `synced`) |
| BudgetStore.Store.UpdateCategory | webapp/lib/stores/budget-store.ts:160-167 | as `updateTransaction`, but the category is stored as given, with no timestamp touched |
| BudgetStore.Store.DeleteCategory | webapp/lib/stores/budget-store.ts:169-174 | as `deleteTransaction`, for categories |
| BudgetStore.Store.UpdateSettings | webapp/lib/stores/budget-store.ts:176-184 | after the write, memory and the store hold the current settings merged with the patch; a failed write changes neither |
| BudgetStore.Store.ToggleDarkMode | webapp/lib/stores/budget-store.ts:186-195 | after the write, memory and the store hold the settings with `darkMode` flipped; a failed write changes neither |
| MemoryOps.ReplaceById | webapp/lib/stores/budget-store.ts:100-102 | the update keeps the length and order; each element with the id becomes the record, every other element stays |
| MemoryOps.ReplaceAbsentIsIdentity | webapp/lib/stores/budget-store.ts:100-102 | updating an id no element has leaves the list as it was |
| MemoryOps.RemoveById | webapp/lib/stores/budget-store.ts:109 | the delete keeps exactly the elements whose id differs |
| MemoryOps.RemoveAbsentIsIdentity | webapp/lib/stores/budget-store.ts:109 | deleting an id no element has leaves the list as it was |
| MemoryOps.RemoveConcat | webapp/lib/stores/budget-store.ts:109 | the filter distributes over concatenation, so the survivors keep their relative order |
| MemoryOps.RemoveDistinct | webapp/lib/stores/budget-store.ts:109 | filtering a list of distinct ids keeps the ids distinct |
| MemoryOps.EnumerationMirrors | webapp/lib/stores/budget-store.ts:59-62 | what `getAll` answers mirrors the store it read |
| MemoryOps.MirrorSize | webapp/lib/stores/budget-store.ts:59-62 | a mirror has as many elements as the store has records |
| MemoryOps.AppendKeepsMirror | webapp/lib/stores/budget-store.ts:86-89 | appending in memory what `add` stored under a new key keeps the mirror |
| MemoryOps.ReplacePresentKeepsMirror | webapp/lib/stores/budget-store.ts:98-103 | updating in memory an id the store holds, after `put`, keeps the mirror |
| MemoryOps.ReplaceAbsentBreaksMirror | webapp/lib/stores/budget-store.ts:98-103 | updating an id the store lacks leaves memory as it was while `put` inserts it, so memory no longer mirrors the store |
| MemoryOps.RemoveKeepsMirror | webapp/lib/stores/budget-store.ts:107-110 | deleting an id on both sides keeps the mirror |
| MemoryOps.PermutedMirror | webapp/app/page.tsx:168 | reordering a mirror keeps it a mirror |
| MemoryOps.MergeSettings | webapp/lib/stores/budget-store.ts:177-180 | the merged settings carry every field of the patch with the patch's value, and a patch that carries every field replaces the settings outright |
| MemoryOps.MergeLaws | webapp/lib/stores/budget-store.ts:177-180 | the merge is the patch spread over all of the current fields, so every field the patch lacks keeps its value; an empty patch changes nothing; merging one patch twice is merging it once |
| MemoryOps.MergeNoop | webapp/lib/stores/budget-store.ts:177-180 | a patch that carries only the current values changes nothing |
| MemoryOps.MergeCompose | webapp/lib/stores/budget-store.ts:176-184 | two settings updates in a row are one update with the second patch spread over the first |
| MemoryOps.ToggleDarkMode | webapp/lib/stores/budget-store.ts:188-191 | `darkMode` is negated and every other field is kept |
| MemoryOps.ToggleLaws | webapp/lib/stores/budget-store.ts:188-191 | toggling twice restores the settings; a toggle is the merge of a one-field patch |
| Seeding.TableCounts | webapp/lib/utils.ts:3-60 | the table has seven entries: two income and five expense |
| Seeding.TableKinds | webapp/lib/utils.ts:3-60 | the entries have pairwise distinct kinds; none is marked custom or has the `Custom` kind |
| Seeding.SeedRecords | webapp/lib/utils.ts:68-72 | record `i` is table entry `i` with the `i`-th id and creation time |
| Seeding.AddAll | webapp/lib/utils.ts:67-73 | a run of awaited adds only ever grows the store, keeps every existing record, and ends in success or a ConstraintError |
| Seeding.NonEmptyIsNoop | webapp/lib/utils.ts:64-66 | a category store holding any category, custom ones included, is left as it is |
| Seeding.AddAllFresh | webapp/lib/utils.ts:67-73 | adds with distinct new ids all succeed, each record is stored under its id, and no other key appears |
| Seeding.RunFromEmpty | webapp/lib/utils.ts:67-73 | from an empty store the run stores exactly the given records, as many as there are |
| Seeding.SeedFromEmpty | webapp/lib/utils.ts:62-75 | from an empty store with distinct ids, seeding stores exactly the seven table entries under their ids, none custom |
| Seeding.SeedTwice | webapp/lib/utils.ts:64-66 | seeding a second time after seeding from empty changes nothing: seven categories, not fourteen |
| Seeding.InitializePredefinedCategories | webapp/lib/utils.ts:62-75 | on an openable database the category store ends as the seeding plan says, with the outcome of the run; otherwise the open error and no change; no other store is touched |
| Seeding.AddEach | webapp/lib/utils.ts:67-73 | the loop of awaited adds ends where the run of adds ends, with the same outcome |
| Providers.InitAsWritten | webapp/app/providers.tsx:11-14 | initialize, then seed: memory holds the categories as they were before seeding; on a first launch memory shows none while the store holds seven, so memory does not mirror the store |
| Providers.FirstLaunchDiverges | webapp/app/providers.tsx:12-13 | an empty category list does not mirror the store that seeding from empty produced |
| Providers.InitSeedFirst | webapp/app/providers.tsx:11-14 | seed, then initialize: memory mirrors the seeded store, seven categories on a first launch |
| CreditCalc.CalculateCreditDetails | webapp/lib/utils.ts:88-103 | no finite result exactly when the rate or the term is 0 (NaN, or an infinite payment with a NaN interest); for every other term, negative ones included, both outputs are whole cents within half a cent of the unrounded payment and of the unrounded interest `m·n − P` |
| CreditCalc.Round2Bounds | webapp/lib/utils.ts:100-101 | rounding lands on a whole cent, within half a cent, and leaves a whole cent unchanged |
| CreditCalc.Discount | webapp/lib/utils.ts:95 | for a non-zero term, the denominator `1 − (1+r)^−n` is never zero; at a positive rate it is positive for a positive term and negative for a negative one |
| CreditCalc.NegativeTermPayment | webapp/lib/utils.ts:93-95 | a negative term at a positive rate gives a negative monthly payment |
| CreditCalc.AnnuityEquation | webapp/lib/utils.ts:93-95 | for every non-zero term the payment m solves m·(1 − (1+r)^−n) = P·r, and is the only value that does |
| CreditCalc.PaymentTimesGrowth | webapp/lib/utils.ts:93-95 | m·((1+r)^n − 1) = P·r·(1+r)^n |
| CreditCalc.BalanceClosedForm | webapp/lib/utils.ts:93-95 | the balance after k payments has the closed form r·B(k) = r·P·(1+r)^k − m·((1+r)^k − 1) |
| CreditCalc.PaysOff | webapp/lib/utils.ts:93-95 | paying m every month leaves nothing owed after exactly n months |
| CreditCalc.PowNotOne | webapp/lib/utils.ts:95 | a positive base other than one keeps its side of one under a positive power |
| CreditCalc.PowGrowth | webapp/lib/utils.ts:97 | (1+r)^n − 1 < n·r·(1+r)^n for r > 0 and n ≥ 1 |
| CreditCalc.InterestPositive | webapp/lib/utils.ts:97 | at a positive rate the unrounded interest m·n − P is positive |
| CreditCalc.ZeroRateReachesNaN | webapp/app/credits/new/page.tsx:28-36 | the form's guard lets the rate "0" through, and the formula then has no value |
| CreditCalc.ZeroTermReachesNaN | webapp/app/credits/new/page.tsx:27-36 | the preview's guard lets the term "0" through, and the formula then has no finite value |
| CreditCalc.CalculateCreditDetailsSafe | webapp/lib/utils.ts:88-103 | has no value only for a term of 0; agrees with the formula for every non-zero rate; at rate 0 the payment is the principal spread evenly, to the cent, and the interest is 0 |
| CreditCalc.CreditPreview | webapp/app/credits/new/page.tsx:27-36 | details exactly for a term of at least one month, and then, at every rate including 0, a monthly rate that is a whole cent within half a cent of the payment that clears the loan in exactly that many months |
| CreditCalc.ZeroRatePaysOff | webapp/lib/utils.ts:88-103 | at rate 0 the even payment pays the loan off in n months |
| Totals.OfTypeMembers | webapp/app/page.tsx:15-17 | the type filter keeps exactly the transactions of that type |
| Totals.SumAppend | webapp/app/page.tsx:17 | the sum of a concatenation is the sum of the sums |
| Totals.TotalsPartition | webapp/app/page.tsx:15-23 | income plus expenses is the sum of all amounts, and income minus expenses is the sum of the signed amounts |
| Totals.AppendOne | webapp/app/page.tsx:15-21 | a new transaction adds its amount to exactly one of the two totals |
| Totals.SumPermutation | webapp/app/page.tsx:168 | a sum does not depend on the order of its terms |
| Totals.FilterPermutation | webapp/app/page.tsx:168 | reordering the list reorders what the type filter keeps |
| Totals.FilterConcat | webapp/app/page.tsx:15-21 | the type filter distributes over concatenation |
| Totals.TotalsPermutation | webapp/app/page.tsx:168 | reordering the transactions changes neither total |
| Statistics.InCategory | webapp/app/statistics/page.tsx:31-33 | the category filter is no longer than its input |
| Statistics.InCategoryMembers | webapp/app/statistics/page.tsx:31-33 | the category filter keeps exactly the transactions booked on that category |
| Statistics.CategoryStats | webapp/app/statistics/page.tsx:30-43 | no more entries than categories, and every entry's value is positive |
| Statistics.CategoryStatsConcat | webapp/app/statistics/page.tsx:30-43 | the breakdown of two runs of categories is their two breakdowns one after the other, so each category contributes in its own place |
| Statistics.CategoryStatsOne | webapp/app/statistics/page.tsx:30-43 | one category contributes exactly its stat when its sum is positive, and nothing otherwise (a category without transactions is dropped) |
| Statistics.CategoryStatsMembers | webapp/app/statistics/page.tsx:30-43 | an entry is exactly the stat (name, sum, icon, colour, count) of some category whose sum is positive |
| Statistics.CategoryStatsInOrder | webapp/app/statistics/page.tsx:30-43 | when every category has a positive sum there is one entry per category, in category order |
| Statistics.SameStats | webapp/app/statistics/page.tsx:30-43 | the breakdown depends on the transactions only through the per-category stats |
| Statistics.UnmatchedIgnored | webapp/app/statistics/page.tsx:30-83 | a transaction of no known category changes no entry but still adds to the income or expense total |
| Statistics.RankInjective | webapp/app/statistics/page.tsx:50 | two months have the same position in calendar order exactly when they are the same month |
| Statistics.Deposit | webapp/app/statistics/page.tsx:57-61 | a transaction adds its amount to the bucket's combined total and leaves the field its type does not name as it was: `expenses` for income, `income` for an expense |
| Statistics.CollectMonthlyData | webapp/app/statistics/page.tsx:48-62 | the `forEach` loop builds the map the transactions determine, with keys in insertion order |
| Statistics.MonthlyWellFormed | webapp/app/statistics/page.tsx:52-54 | each month of the map is listed once, and only those months |
| Statistics.MonthsPresent | webapp/app/statistics/page.tsx:48-62 | the map holds a bucket for exactly the months some transaction falls in |
| Statistics.BucketsAreMonthTotals | webapp/app/statistics/page.tsx:48-62 | each month's bucket holds the income and expense totals of exactly that month's transactions |
| Statistics.BucketsAddUp | webapp/app/statistics/page.tsx:48-83 | the bucket incomes add up to `totalIncome` and the bucket expenses to `totalExpenses` |
| Statistics.Entries | webapp/app/statistics/page.tsx:64 | one entry per listed month, in insertion order |
| Statistics.MonthlyTrend | webapp/app/statistics/page.tsx:64-66 | the trend has min(6, n) points in ascending month order, drawn from the entries, and no entry left out is later than one kept |
| Statistics.TrendOfMonths | webapp/app/statistics/page.tsx:64-66 | the trend shows the latest min(6, n) months that have transactions, in strictly ascending order, each with its month's totals; every month left out is earlier than each shown |
| Statistics.TopCategories | webapp/app/statistics/page.tsx:245-247 | min(5, n) entries drawn from the stats, by value descending, and no entry left out has a larger value than one kept |
| Statistics.ComputeStats | webapp/app/statistics/page.tsx:28-92 | the memo's breakdown, its trend of the latest six months with transactions with their totals, and income and expenses that add up to all amounts, with balance as their difference and as the signed sum |
| ArraySort.SortBy | webapp/app/statistics/page.tsx:65 | the in-place sort leaves the array sorted by the key and a permutation of what it held |
| ArraySort.SortedSuffix | webapp/app/statistics/page.tsx:64-66 | the last elements of a sorted permutation are drawn from the input, sorted, and at least as large as any element left out |
| ArraySort.SortedPrefix | webapp/app/statistics/page.tsx:245-247 | the first elements of a sorted permutation are drawn from the input, sorted, and at most as large as any element left out |
| HomePage.HomeStats | webapp/app/page.tsx:14-35 | the balance is income minus expenses and the signed sum of the transactions; income plus expenses is the sum of all amounts |
| HomePage.HomeStatsGrow | webapp/app/page.tsx:23-26 | a new transaction moves the balance by its signed amount; a new credit adds its amount and monthly rate to the credit sums |
| HomePage.SortLatestFirst | webapp/app/page.tsx:168 | the sort is a permutation with dates descending, and leaves both totals unchanged |
| HomePage.RecentTransactions | webapp/app/page.tsx:167-169 | the store's transaction list is reordered, newest first, with the same records and the same totals, and still mirrors the store if it did; the list shows its first min(5, n) entries |
| HomePage.FindCategory | webapp/app/page.tsx:171 | absent exactly when no category has the id; otherwise the first category with the id |
| HomePage.Label | webapp/app/page.tsx:184 | the category's name, or `Unbekannt` when there is no category or its name is empty |
| HomePage.Icon | webapp/app/page.tsx:178 | never empty: the category's icon, or 💰 when there is no category or icon or the icon is empty |
| HomePage.Sign | webapp/app/page.tsx:196 | `+` exactly for income, `-` exactly for expense |
| HomePage.UnmatchedFallsBack | webapp/app/page.tsx:171-184 | a transaction whose category is gone shows `Unbekannt` and 💰 |
| HomePage.MatchedShowsCategory | webapp/app/page.tsx:171-184 | a transaction whose category is present shows that category's non-empty name and icon |

## Left out

- Object-store indexes (`by-date`, `by-category`): they are declared but nothing queries them.
- The internals of `openDB` and of the upgrade transaction: only the outcomes open, VersionError for a newer stored version, and failure to open are modelled.
- Asynchrony: `Promise.all` in `initialize` runs its four reads one after the other here, and actions are never interleaved.
- IEEE-754 arithmetic: amounts and the credit formula are exact reals, and the NaN of `0/0` is the `None` case.
- `Math.round` on negative halves: it rounds toward +∞, and `Round2` does the same through `Floor` of `x + 0.5`.
- Month keys: the key is the (year, month) of a transaction's date, taken as given. The local time zone is not modelled.
- `Statistics.Rank` orders months by `year·12 + month`. This agrees with `localeCompare` on the zero-padded `YYYY-MM` strings for four-digit years; other years are not modelled.
- `toLocaleDateString` labels of the trend and of the recent list, and `formatCurrency`.
- Sort stability: the model's sorts promise an order on keys only, so ties may come out in any order.
- Statistics.TopCategories: `stats.categoryStats.sort(...)` reorders the memoised array in place. The model sorts a fresh array and returns a new list, so the reorder of the memo's own array is not captured.
- Seeding.InitializePredefinedCategories: the source takes a new `crypto.randomUUID()` and a new `new Date()` for each entry. Here they are the sequences `ids` and `times`.
- `generateId` is not modelled: it only draws a UUID, which is an `id` parameter here.
- Patch fields set explicitly to `undefined` in `updateSettings`: a spread copies them, and the patch model has no such value.
- The dark-mode class on the document, and the provider's re-entry guard on `initialized` (it holds the first launch to one `init`).
- Request failures on a database that is open (a full quota, an aborted transaction, a closed connection): `put`, `delete` and the settings write always succeed here, and `add` fails only on a duplicate key.
- Monthly interest rates at or below −100 %: `MonthlyInterest(rate) > -1` is required, so that `(1+r)^−n` is defined.
- The form and list pages. This includes the interest recomputed from the rounded rate on the credits list page.
- HomePage.Sign returns a character where the page renders a one-character string.
- The ordering of keys compares Unicode scalar values, where IndexedDB compares UTF-16 code units. They differ only for characters outside the Basic Multilingual Plane, which UUID keys never contain.

## Findings

| source | as written | input that shows it | evidently intended | confidence | as-written member | corrected member |
|---|---|---|---|---|---|---|
| webapp/lib/utils.ts:93-95 | the formula divides `P·0` by `1 − 1^−n = 0` when the rate is 0, which the credit form accepts (`min="0"`, non-empty guard) | totalAmount "10000", termMonths "12", rate "0" | a zero-rate credit pays `P/n` a month with no interest | not executed | CreditCalc.ZeroRateReachesNaN | CreditCalc.CalculateCreditDetailsSafe |
| webapp/app/credits/new/page.tsx:27-36 | the preview checks only that the fields are non-empty, so the term "0" reaches the formula, whose denominator `1 − (1+r)^0` is 0; `min="1"` holds back only the submission, while the preview still renders | totalAmount "10000", termMonths "0", rate "5" | details only for a term of at least one month, showing the payment that clears the loan | not executed | CreditCalc.ZeroTermReachesNaN | CreditCalc.CreditPreview |
| webapp/app/providers.tsx:12-13 | `initialize()` loads memory before `initializePredefinedCategories()` writes the seven categories, and the seeding writes bypass the state manager | first launch: an empty database that can be opened, with distinct ids | the seeded categories appear in memory on first launch | not executed | Providers.InitAsWritten | Providers.InitSeedFirst |
