/**
 * The home page: the `stats` memo (income, expenses, balance and the two
 * credit sums) and the "Letzte Transaktionen" list, which sorts the
 * store's transaction list in place, newest first, and shows the first
 * five with their category's name and icon.
 */
module HomePage {
  import opened Records
  import opened Totals
  import MemoryOps
  import ArraySort
  import opened BudgetStore

  /** The home page's `stats`. */
  datatype Overview = Overview(
    totalIncome: real,
    totalExpenses: real,
    balance: real,
    totalCreditAmount: real,
    totalMonthlyPayments: real)

  /** The `stats` memo over the transactions and credits of the store. */
  function HomeStats(ts: seq<Transaction>, cs: seq<Credit>): (r: Overview)
    ensures r.balance == r.totalIncome - r.totalExpenses
    ensures r.balance == SumOf(ts, SignedAmount)
    ensures r.totalIncome + r.totalExpenses == SumOf(ts, Amount)
  {
    TotalsPartition(ts);
    var income := TotalIncome(ts);
    var expenses := TotalExpenses(ts);
    Overview(income, expenses, income - expenses, SumOf(cs, TotalAmountOf), SumOf(cs, MonthlyRateOf))
  }

  /**
   * A new transaction moves the balance by its signed amount, and a new
   * credit adds its amount and its monthly rate to the credit sums.
   */
  lemma HomeStatsGrow(ts: seq<Transaction>, cs: seq<Credit>, t: Transaction, c: Credit)
    ensures HomeStats(ts + [t], cs).balance == HomeStats(ts, cs).balance + SignedAmount(t)
    ensures HomeStats(ts, cs + [c]).totalCreditAmount == HomeStats(ts, cs).totalCreditAmount + c.totalAmount
    ensures HomeStats(ts, cs + [c]).totalMonthlyPayments == HomeStats(ts, cs).totalMonthlyPayments + c.monthlyRate
  {
    AppendOne(ts, t);
    var s := cs + [c];
    assert s[..|s| - 1] == cs;
  }

  // Recent transactions

  function LatestFirstKey(t: Transaction): real {
    -(t.date.millis as real)
  }

  /** `transactions.sort((a, b) => b.date.getTime() - a.date.getTime())` */
  method SortLatestFirst(ts: seq<Transaction>) returns (sorted: seq<Transaction>)
    ensures multiset(sorted) == multiset(ts)
    ensures forall i, j :: 0 <= i < j < |sorted| ==> sorted[i].date.millis >= sorted[j].date.millis
    ensures TotalIncome(sorted) == TotalIncome(ts) && TotalExpenses(sorted) == TotalExpenses(ts)
  {
    var a := new Transaction[|ts|](i requires 0 <= i < |ts| => ts[i]);
    assert a[..] == ts;
    ArraySort.SortBy(a, LatestFirstKey);
    sorted := a[..];
    forall i, j | 0 <= i < j < |sorted|
      ensures sorted[i].date.millis >= sorted[j].date.millis
    {
      assert LatestFirstKey(sorted[i]) <= LatestFirstKey(sorted[j]);
    }
    TotalsPermutation(sorted, ts);
  }

  /**
   * The list's data: the in-place sort reorders the store's transactions
   * (the array the store holds, so memory keeps the new order) and the
   * first five are shown. The durable store is not touched.
   */
  method RecentTransactions(store: Store) returns (recent: seq<Transaction>)
    requires store.Valid()
    modifies store
    ensures store.Valid()
    ensures multiset(store.transactions) == multiset(old(store.transactions))
    ensures forall i, j :: 0 <= i < j < |store.transactions| ==>
      store.transactions[i].date.millis >= store.transactions[j].date.millis
    ensures recent == store.transactions[..Min(5, |store.transactions|)]
    ensures HomeStats(store.transactions, store.credits) == old(HomeStats(store.transactions, store.credits))
    ensures old(store.InSync()) ==> store.InSync()
    ensures store.credits == old(store.credits) && store.categories == old(store.categories)
    ensures store.settings == old(store.settings) && store.initialized == old(store.initialized)
  {
    var sorted := SortLatestFirst(store.transactions);
    ghost var inSync := store.InSync();
    assert inSync ==> MemoryOps.Mirrors(sorted, store.db.transactions, TransactionKey) by {
      if inSync {
        MemoryOps.PermutedMirror(store.transactions, sorted, store.db.transactions, TransactionKey);
      }
    }
    assert HomeStats(sorted, store.credits) == HomeStats(store.transactions, store.credits);
    store.transactions := sorted;
    recent := sorted[..Min(5, |sorted|)];
  }

  /** `categories.find(c => c.id === id)`: the first category with the id. */
  function FindCategory(cats: seq<Category>, id: string): (r: Option<Category>)
    ensures r.None? <==> forall c :: c in cats ==> c.id != id
    ensures r.Some? ==>
      exists i :: 0 <= i < |cats| && cats[i] == r.value && r.value.id == id && (forall j :: 0 <= j < i ==> cats[j].id != id)
  {
    if cats == [] then None
    else if cats[0].id == id then Some(cats[0])
    else
      var r := FindCategory(cats[1..], id);
      assert forall c :: c in cats[1..] ==> c in cats;
      if r.Some? then
        var i :| 0 <= i < |cats[1..]| && cats[1..][i] == r.value && r.value.id == id &&
          (forall j :: 0 <= j < i ==> cats[1..][j].id != id);
        assert cats[i + 1] == r.value;
        r
      else
        r
  }

  const UnknownCategory: string := "Unbekannt"
  const FallbackIcon: string := "\U{1F4B0}"

  /** `category?.name || 'Unbekannt'`: an empty name is as good as none. */
  function Label(c: Option<Category>): (r: string)
    ensures c.Some? && c.value.name != "" ==> r == c.value.name
    ensures c.None? || c.value.name == "" ==> r == UnknownCategory
  {
    if c.Some? && c.value.name != "" then c.value.name else UnknownCategory
  }

  /** `category?.icon || '💰'`: a missing or empty icon falls back. */
  function Icon(c: Option<Category>): (r: string)
    ensures r != ""
    ensures c.Some? && c.value.icon.Some? && c.value.icon.value != "" ==> r == c.value.icon.value
    ensures c.None? || c.value.icon.None? || c.value.icon.value == "" ==> r == FallbackIcon
  {
    if c.Some? && c.value.icon.Some? && c.value.icon.value != "" then c.value.icon.value else FallbackIcon
  }

  /** The sign shown before the amount. */
  function Sign(t: Transaction): (r: char)
    ensures r == '+' <==> t.kind == Income
    ensures r == '-' <==> t.kind == Expense
  {
    if t.kind.Income? then '+' else '-'
  }

  /** One line of the list (the formatted date and amount are left out). */
  datatype Row = Row(description: string, categoryName: string, icon: string, sign: char, amount: real)

  function RowOf(t: Transaction, cats: seq<Category>): Row {
    var c := FindCategory(cats, t.categoryId);
    Row(t.description, Label(c), Icon(c), Sign(t), t.amount)
  }

  /** A transaction whose category is gone is shown as "Unbekannt" with the fallback icon. */
  lemma UnmatchedFallsBack(t: Transaction, cats: seq<Category>)
    requires forall c :: c in cats ==> c.id != t.categoryId
    ensures RowOf(t, cats).categoryName == UnknownCategory && RowOf(t, cats).icon == FallbackIcon
  {
  }

  /** A transaction whose category is present shows that category's name and icon, when they are not empty. */
  lemma MatchedShowsCategory(t: Transaction, cats: seq<Category>, i: nat)
    requires i < |cats| && cats[i].id == t.categoryId
    requires forall j :: 0 <= j < i ==> cats[j].id != t.categoryId
    ensures cats[i].name != "" ==> RowOf(t, cats).categoryName == cats[i].name
    ensures cats[i].icon.Some? && cats[i].icon.value != "" ==> RowOf(t, cats).icon == cats[i].icon.value
  {
    var r := FindCategory(cats, t.categoryId);
    assert cats[i] in cats;
    var k :| 0 <= k < |cats| && cats[k] == r.value && r.value.id == t.categoryId &&
      (forall j :: 0 <= j < k ==> cats[j].id != t.categoryId);
    assert k == i;
  }
}
