/**
 * The statistics page's `stats` memo and its "Top Kategorien" list:
 * per-category sums and counts, monthly income/expense buckets and the
 * six-month trend, the totals and the balance.
 */
module Statistics {
  import opened Records
  import opened Totals
  import ArraySort
  import MemoryOps

  // Category breakdown

  /** One entry of `categoryStats`. */
  datatype CategoryStat = CategoryStat(
    name: string,
    value: real,
    icon: Option<string>,
    color: Option<string>,
    count: nat)

  /** `transactions.filter(t => t.categoryId === id)` */
  function InCategory(ts: seq<Transaction>, id: string): (r: seq<Transaction>)
    ensures |r| <= |ts|
  {
    if ts == [] then []
    else InCategory(ts[..|ts| - 1], id) + (if ts[|ts| - 1].categoryId == id then [ts[|ts| - 1]] else [])
  }

  /** The filter keeps exactly the transactions booked on the category. */
  lemma {:induction false} InCategoryMembers(ts: seq<Transaction>, id: string)
    ensures forall t :: t in InCategory(ts, id) <==> t in ts && t.categoryId == id
  {
    if ts != [] {
      var ts' := ts[..|ts| - 1];
      InCategoryMembers(ts', id);
      assert ts == ts' + [ts[|ts| - 1]];
    }
  }

  /** The entry `categories.map` builds for one category. */
  function StatOf(c: Category, ts: seq<Transaction>): CategoryStat {
    var mine := InCategory(ts, c.id);
    CategoryStat(c.name, SumOf(mine, Amount), c.icon, c.color, |mine|)
  }

  /** `categories.map(StatOf).filter(stat => stat.value > 0)` */
  function CategoryStats(cats: seq<Category>, ts: seq<Transaction>): (r: seq<CategoryStat>)
    ensures |r| <= |cats|
    ensures forall i :: 0 <= i < |r| ==> r[i].value > 0.0
  {
    if cats == [] then []
    else
      var s := StatOf(cats[|cats| - 1], ts);
      CategoryStats(cats[..|cats| - 1], ts) + (if s.value > 0.0 then [s] else [])
  }

  /** An entry is exactly the stat of some category whose sum is positive. */
  lemma {:induction false} CategoryStatsMembers(cats: seq<Category>, ts: seq<Transaction>)
    ensures forall s :: s in CategoryStats(cats, ts) <==>
      exists c :: c in cats && s == StatOf(c, ts) && s.value > 0.0
  {
    if cats != [] {
      var cats' := cats[..|cats| - 1];
      CategoryStatsMembers(cats', ts);
      assert cats == cats' + [cats[|cats| - 1]];
    }
  }

  /**
   * The breakdown of two runs of categories is their two breakdowns, one
   * after the other: every category contributes in its own place, and only
   * its own entry.
   */
  lemma {:induction false} CategoryStatsConcat(a: seq<Category>, b: seq<Category>, ts: seq<Transaction>)
    ensures CategoryStats(a + b, ts) == CategoryStats(a, ts) + CategoryStats(b, ts)
    decreases |b|
  {
    if b == [] {
      assert a + b == a;
    } else {
      var b', x := b[..|b| - 1], b[|b| - 1];
      var ab := a + b;
      assert ab[..|ab| - 1] == a + b' && ab[|ab| - 1] == x;
      CategoryStatsSnoc(ab, ts);
      CategoryStatsSnoc(b, ts);
      CategoryStatsConcat(a, b', ts);
    }
  }

  /** The last category's contribution comes last. */
  lemma CategoryStatsSnoc(cats: seq<Category>, ts: seq<Transaction>)
    requires cats != []
    ensures CategoryStats(cats, ts) == CategoryStats(cats[..|cats| - 1], ts) + CategoryStats([cats[|cats| - 1]], ts)
  {
    CategoryStatsOne(cats[|cats| - 1], ts);
  }

  /** A single category contributes its stat when its sum is positive, and nothing otherwise. */
  lemma CategoryStatsOne(c: Category, ts: seq<Transaction>)
    ensures CategoryStats([c], ts) == if StatOf(c, ts).value > 0.0 then [StatOf(c, ts)] else []
  {
    assert [c][..0] == [];
  }

  /** When every category has a positive sum, there is one entry per category, in category order. */
  lemma {:induction false} CategoryStatsInOrder(cats: seq<Category>, ts: seq<Transaction>)
    requires forall c :: c in cats ==> StatOf(c, ts).value > 0.0
    ensures |CategoryStats(cats, ts)| == |cats|
    ensures forall i :: 0 <= i < |cats| ==> CategoryStats(cats, ts)[i] == StatOf(cats[i], ts)
  {
    if cats != [] {
      var n := |cats| - 1;
      var cats' := cats[..n];
      var r', x := CategoryStats(cats', ts), StatOf(cats[n], ts);
      assert x.value > 0.0 by {
        assert cats[n] in cats;
      }
      assert |r'| == n && forall i :: 0 <= i < n ==> r'[i] == StatOf(cats[i], ts) by {
        assert forall c :: c in cats' ==> c in cats;
        CategoryStatsInOrder(cats', ts);
        assert forall i :: 0 <= i < n ==> cats'[i] == cats[i];
      }
      assert CategoryStats(cats, ts) == r' + [x];
    }
  }

  /**
   * A transaction whose category id matches no category adds to no entry,
   * but it still counts towards the totals.
   */
  lemma UnmatchedIgnored(cats: seq<Category>, ts: seq<Transaction>, t: Transaction)
    requires forall c :: c in cats ==> c.id != t.categoryId
    ensures CategoryStats(cats, ts + [t]) == CategoryStats(cats, ts)
    ensures TotalIncome(ts + [t]) == TotalIncome(ts) + (if t.kind == Income then t.amount else 0.0)
    ensures TotalExpenses(ts + [t]) == TotalExpenses(ts) + (if t.kind == Expense then t.amount else 0.0)
  {
    AppendOne(ts, t);
    forall c | c in cats
      ensures StatOf(c, ts + [t]) == StatOf(c, ts)
    {
      InCategoryOther(ts, t, c.id);
    }
    SameStats(cats, ts, ts + [t]);
  }

  lemma InCategoryOther(ts: seq<Transaction>, t: Transaction, id: string)
    requires t.categoryId != id
    ensures InCategory(ts + [t], id) == InCategory(ts, id)
  {
    assert (ts + [t])[..|ts|] == ts;
  }

  /** The breakdown depends on the transactions only through the per-category stats. */
  lemma {:induction false} SameStats(cats: seq<Category>, ts: seq<Transaction>, us: seq<Transaction>)
    requires forall c :: c in cats ==> StatOf(c, ts) == StatOf(c, us)
    ensures CategoryStats(cats, ts) == CategoryStats(cats, us)
  {
    if cats != [] {
      var cats' := cats[..|cats| - 1];
      assert forall c :: c in cats' ==> c in cats;
      SameStats(cats', ts, us);
      assert cats[|cats| - 1] in cats;
    }
  }

  // Monthly buckets

  /** The `YYYY-MM` key of a month: the year and the zero-based month of the date. */
  datatype MonthKey = MonthKey(year: int, month: MonthOfYear)

  function MonthOf(t: Transaction): MonthKey {
    MonthKey(t.date.year, t.date.month)
  }

  /** Months in calendar order: the order of their zero-padded keys. */
  function Rank(k: MonthKey): int {
    k.year * 12 + k.month
  }

  lemma RankInjective(a: MonthKey, b: MonthKey)
    ensures Rank(a) == Rank(b) <==> a == b
  {
  }

  /** `{ income, expenses }` of one month. */
  datatype Bucket = Bucket(income: real, expenses: real)

  const EmptyBucket: Bucket := Bucket(0.0, 0.0)

  function Plus(a: Bucket, b: Bucket): Bucket {
    Bucket(a.income + b.income, a.expenses + b.expenses)
  }

  /**
   * A transaction adds its amount to the bucket, and leaves the field that
   * its type does not name as it was: `expenses` for income, `income` for
   * an expense.
   */
  function Deposit(b: Bucket, t: Transaction): (r: Bucket)
    ensures r.income + r.expenses == b.income + b.expenses + t.amount
    ensures t.kind == Income ==> r.expenses == b.expenses
    ensures t.kind == Expense ==> r.income == b.income
  {
    if t.kind == Income then b.(income := b.income + t.amount)
    else b.(expenses := b.expenses + t.amount)
  }

  /** A `Map` of buckets: its keys in insertion order, which is the order `entries()` lists them in. */
  datatype Monthly = Monthly(keys: seq<MonthKey>, buckets: map<MonthKey, Bucket>)

  /** The `forEach` body: create the month's bucket if it is missing, then deposit. */
  function Record(d: Monthly, t: Transaction): Monthly {
    var k := MonthOf(t);
    if k in d.buckets then Monthly(d.keys, d.buckets[k := Deposit(d.buckets[k], t)])
    else Monthly(d.keys + [k], d.buckets[k := Deposit(EmptyBucket, t)])
  }

  /** `monthlyData` after the `forEach` has visited every transaction of `ts`. */
  function MonthlyData(ts: seq<Transaction>): Monthly {
    if ts == [] then Monthly([], map[]) else Record(MonthlyData(ts[..|ts| - 1]), ts[|ts| - 1])
  }

  /** The `forEach` loop that fills `monthlyData`. */
  method CollectMonthlyData(ts: seq<Transaction>) returns (keys: seq<MonthKey>, buckets: map<MonthKey, Bucket>)
    ensures Monthly(keys, buckets) == MonthlyData(ts)
  {
    keys, buckets := [], map[];
    var i := 0;
    while i < |ts|
      invariant 0 <= i <= |ts|
      invariant Monthly(keys, buckets) == MonthlyData(ts[..i])
    {
      var t := ts[i];
      var k := MonthOf(t);
      if k !in buckets {
        keys := keys + [k];
        buckets := buckets[k := EmptyBucket];
      }
      buckets := buckets[k := Deposit(buckets[k], t)];
      assert ts[..i + 1][..i] == ts[..i];
      i := i + 1;
    }
    assert ts[..i] == ts;
  }

  /** Every month of the map is listed once, and only those. */
  ghost predicate WellFormed(d: Monthly) {
    && (forall k :: k in d.buckets <==> k in d.keys)
    && (forall i, j :: 0 <= i < j < |d.keys| ==> d.keys[i] != d.keys[j])
  }

  lemma RecordWellFormed(d: Monthly, t: Transaction)
    requires WellFormed(d)
    ensures WellFormed(Record(d, t))
  {
    var k := MonthOf(t);
    if k !in d.buckets {
      var keys := d.keys + [k];
      forall i, j | 0 <= i < j < |keys|
        ensures keys[i] != keys[j]
      {
        if j == |d.keys| {
          assert keys[i] == d.keys[i];
        } else {
          assert keys[i] == d.keys[i] && keys[j] == d.keys[j];
        }
      }
    }
  }

  /** The map lists each month it holds exactly once. */
  lemma {:induction false} MonthlyWellFormed(ts: seq<Transaction>)
    ensures WellFormed(MonthlyData(ts))
  {
    if ts != [] {
      MonthlyWellFormed(ts[..|ts| - 1]);
      RecordWellFormed(MonthlyData(ts[..|ts| - 1]), ts[|ts| - 1]);
    }
  }

  /** The months some transaction of `ts` falls in. */
  ghost function Months(ts: seq<Transaction>): set<MonthKey> {
    set i | 0 <= i < |ts| :: MonthOf(ts[i])
  }

  lemma MonthsSnoc(ts: seq<Transaction>)
    requires ts != []
    ensures Months(ts) == Months(ts[..|ts| - 1]) + {MonthOf(ts[|ts| - 1])}
  {
    var n := |ts| - 1;
    var ts' := ts[..n];
    forall k | k in Months(ts)
      ensures k in Months(ts') + {MonthOf(ts[n])}
    {
      var i :| 0 <= i < |ts| && MonthOf(ts[i]) == k;
      if i < n {
        assert MonthOf(ts'[i]) == k;
      }
    }
    forall k | k in Months(ts')
      ensures k in Months(ts)
    {
      var i :| 0 <= i < n && MonthOf(ts'[i]) == k;
      assert MonthOf(ts[i]) == k;
    }
    assert MonthOf(ts[n]) in Months(ts);
  }

  /** The map holds a bucket for exactly the months some transaction falls in. */
  lemma {:induction false} MonthsPresent(ts: seq<Transaction>)
    ensures MonthlyData(ts).buckets.Keys == Months(ts)
  {
    if ts != [] {
      MonthsPresent(ts[..|ts| - 1]);
      MonthsSnoc(ts);
    } else {
      assert Months(ts) == {};
    }
  }

  /** The transactions dated in month `k`. */
  function InMonth(ts: seq<Transaction>, k: MonthKey): (r: seq<Transaction>)
    ensures |r| <= |ts|
  {
    if ts == [] then []
    else InMonth(ts[..|ts| - 1], k) + (if MonthOf(ts[|ts| - 1]) == k then [ts[|ts| - 1]] else [])
  }

  /** The income and expense totals of the transactions of month `k`. */
  function MonthTotals(ts: seq<Transaction>, k: MonthKey): Bucket {
    Bucket(TotalIncome(InMonth(ts, k)), TotalExpenses(InMonth(ts, k)))
  }

  /**
   * The map holds a bucket for exactly the months some transaction falls
   * in, and the bucket of a month holds the income and expense totals of
   * exactly that month's transactions.
   */
  lemma {:induction false} BucketsAreMonthTotals(ts: seq<Transaction>)
    ensures var d := MonthlyData(ts);
      && (forall k :: k in d.buckets ==> d.buckets[k] == MonthTotals(ts, k))
      && (forall k :: k !in d.buckets ==> InMonth(ts, k) == [])
  {
    if ts != [] {
      var ts' := ts[..|ts| - 1];
      var t := ts[|ts| - 1];
      BucketsAreMonthTotals(ts');
      var d' := MonthlyData(ts');
      var d := Record(d', t);
      forall k | k in d.buckets
        ensures d.buckets[k] == MonthTotals(ts, k)
      {
        if k == MonthOf(t) {
          MonthStep(ts);
          if k !in d'.buckets {
            assert MonthTotals(ts', k) == EmptyBucket;
          }
        } else {
          assert InMonth(ts, k) == InMonth(ts', k);
        }
      }
      forall k | k !in d.buckets
        ensures InMonth(ts, k) == []
      {
        assert InMonth(ts, k) == InMonth(ts', k);
      }
    }
  }

  /** The last transaction adds its deposit to the totals of its own month. */
  lemma MonthStep(ts: seq<Transaction>)
    requires ts != []
    ensures var t := ts[|ts| - 1];
      MonthTotals(ts, MonthOf(t)) == Deposit(MonthTotals(ts[..|ts| - 1], MonthOf(t)), t)
  {
    var ts' := ts[..|ts| - 1];
    var t := ts[|ts| - 1];
    assert InMonth(ts, MonthOf(t)) == InMonth(ts', MonthOf(t)) + [t];
    DepositTotals(InMonth(ts', MonthOf(t)), t);
  }

  /** Appending a transaction to a list deposits it into the list's totals. */
  lemma DepositTotals(s: seq<Transaction>, t: Transaction)
    ensures Bucket(TotalIncome(s + [t]), TotalExpenses(s + [t])) == Deposit(Bucket(TotalIncome(s), TotalExpenses(s)), t)
  {
    AppendOne(s, t);
    DepositFields(Bucket(TotalIncome(s), TotalExpenses(s)), t, TotalIncome(s + [t]), TotalExpenses(s + [t]));
  }

  lemma DepositFields(b: Bucket, t: Transaction, income: real, expenses: real)
    requires income == b.income + (if t.kind == Income then t.amount else 0.0)
    requires expenses == b.expenses + (if t.kind == Expense then t.amount else 0.0)
    ensures Bucket(income, expenses) == Deposit(b, t)
  {
  }

  /** The last transaction of a list deposits into the totals of the ones before it. */
  lemma TotalsStep(ts: seq<Transaction>)
    requires ts != []
    ensures Bucket(TotalIncome(ts), TotalExpenses(ts)) ==
      Deposit(Bucket(TotalIncome(ts[..|ts| - 1]), TotalExpenses(ts[..|ts| - 1])), ts[|ts| - 1])
  {
    var ts', t := ts[..|ts| - 1], ts[|ts| - 1];
    assert ts == ts' + [t];
    DepositTotals(ts', t);
  }

  lemma PlusDeposit(b: Bucket, t: Transaction)
    ensures Plus(b, Deposit(EmptyBucket, t)) == Deposit(b, t)
  {
  }

  /** The buckets of `keys`, added up. */
  function SumBuckets(keys: seq<MonthKey>, buckets: map<MonthKey, Bucket>): Bucket {
    if keys == [] then EmptyBucket
    else
      var k := keys[|keys| - 1];
      Plus(SumBuckets(keys[..|keys| - 1], buckets), if k in buckets then buckets[k] else EmptyBucket)
  }

  /** Over all months, the bucket incomes add up to `totalIncome` and the bucket expenses to `totalExpenses`. */
  lemma {:induction false} BucketsAddUp(ts: seq<Transaction>)
    ensures var d := MonthlyData(ts);
      SumBuckets(d.keys, d.buckets) == Bucket(TotalIncome(ts), TotalExpenses(ts))
  {
    if ts != [] {
      var ts' := ts[..|ts| - 1];
      var t := ts[|ts| - 1];
      var d' := MonthlyData(ts');
      var before := Bucket(TotalIncome(ts'), TotalExpenses(ts'));
      assert SumBuckets(Record(d', t).keys, Record(d', t).buckets) == Plus(before, Deposit(EmptyBucket, t)) by {
        BucketsAddUp(ts');
        MonthlyWellFormed(ts');
        RecordAddsUp(d', t);
      }
      TotalsStep(ts);
      PlusDeposit(before, t);
    }
  }

  /** One visit adds the transaction's deposit to the sum of all buckets. */
  lemma RecordAddsUp(d: Monthly, t: Transaction)
    requires WellFormed(d)
    ensures SumBuckets(Record(d, t).keys, Record(d, t).buckets) ==
      Plus(SumBuckets(d.keys, d.buckets), Deposit(EmptyBucket, t))
  {
    var k := MonthOf(t);
    var delta := Deposit(EmptyBucket, t);
    if k in d.buckets {
      assert Deposit(d.buckets[k], t) == Plus(d.buckets[k], delta);
      SumUpdate(d.keys, d.buckets, k, delta);
    } else {
      SumFrame(d.keys, d.buckets, k, delta);
      SumAppendKey(d.keys, d.buckets[k := delta], k);
    }
  }

  lemma SumAppendKey(keys: seq<MonthKey>, buckets: map<MonthKey, Bucket>, k: MonthKey)
    requires k in buckets
    ensures SumBuckets(keys + [k], buckets) == Plus(SumBuckets(keys, buckets), buckets[k])
  {
    var s := keys + [k];
    assert s[..|s| - 1] == keys && s[|s| - 1] == k;
  }

  /** Adding to the bucket of a key listed once adds as much to the sum. */
  lemma {:induction false} SumUpdate(keys: seq<MonthKey>, buckets: map<MonthKey, Bucket>, k: MonthKey, delta: Bucket)
    requires k in keys && k in buckets
    requires forall i, j :: 0 <= i < j < |keys| ==> keys[i] != keys[j]
    ensures SumBuckets(keys, buckets[k := Plus(buckets[k], delta)]) == Plus(SumBuckets(keys, buckets), delta)
  {
    var n := |keys| - 1;
    var keys' := keys[..n];
    var b' := buckets[k := Plus(buckets[k], delta)];
    if keys[n] == k {
      assert k !in keys' by {
        forall i | 0 <= i < n
          ensures keys'[i] != k
        {
          assert keys[i] != keys[n];
        }
      }
      SumFrame(keys', buckets, k, Plus(buckets[k], delta));
    } else {
      assert k in keys' by {
        var i :| 0 <= i < |keys| && keys[i] == k;
        assert i < n && keys'[i] == k;
      }
      SumUpdate(keys', buckets, k, delta);
    }
  }

  /** A key not listed does not enter the sum. */
  lemma {:induction false} SumFrame(keys: seq<MonthKey>, buckets: map<MonthKey, Bucket>, k: MonthKey, v: Bucket)
    requires k !in keys
    ensures SumBuckets(keys, buckets[k := v]) == SumBuckets(keys, buckets)
  {
    if keys != [] {
      var keys' := keys[..|keys| - 1];
      assert k !in keys' by {
        forall i | 0 <= i < |keys'|
          ensures keys'[i] != k
        {
          assert keys'[i] == keys[i];
        }
      }
      SumFrame(keys', buckets, k, v);
    }
  }

  // Monthly trend

  /** One entry of `Array.from(monthlyData.entries())`; the display label is left out. */
  datatype TrendPoint = TrendPoint(month: MonthKey, bucket: Bucket)

  function Entries(d: Monthly): (r: seq<TrendPoint>)
    ensures |r| == |d.keys|
    ensures forall i :: 0 <= i < |r| ==> r[i].month == d.keys[i]
  {
    seq(|d.keys|, i requires 0 <= i < |d.keys| =>
      TrendPoint(d.keys[i], if d.keys[i] in d.buckets then d.buckets[d.keys[i]] else EmptyBucket))
  }

  /** The position of the entry's month in calendar order. */
  function MonthRank(p: TrendPoint): real {
    Rank(p.month) as real
  }

  /** `.sort((a, b) => a[0].localeCompare(b[0])).slice(-6)` */
  method MonthlyTrend(entries: seq<TrendPoint>) returns (trend: seq<TrendPoint>)
    ensures |trend| == Min(6, |entries|)
    ensures forall i, j :: 0 <= i < j < |trend| ==> MonthRank(trend[i]) <= MonthRank(trend[j])
    ensures multiset(trend) <= multiset(entries)
    ensures forall p, q :: p in entries && p !in trend && q in trend ==> MonthRank(p) <= MonthRank(q)
  {
    var a := new TrendPoint[|entries|](i requires 0 <= i < |entries| => entries[i]);
    assert a[..] == entries;
    ArraySort.SortBy(a, MonthRank);
    var sorted := a[..];
    trend := sorted[|sorted| - Min(6, |sorted|)..];
    ArraySort.SortedSuffix(entries, sorted, MonthRank, |sorted| - Min(6, |sorted|));
  }

  function NegValue(s: CategoryStat): real {
    -s.value
  }

  /** `.sort((a, b) => b.value - a.value).slice(0, 5)` */
  method TopCategories(stats: seq<CategoryStat>) returns (top: seq<CategoryStat>)
    ensures |top| == Min(5, |stats|)
    ensures forall i, j :: 0 <= i < j < |top| ==> top[i].value >= top[j].value
    ensures multiset(top) <= multiset(stats)
    ensures forall s, t :: s in stats && s !in top && t in top ==> s.value <= t.value
  {
    var a := new CategoryStat[|stats|](i requires 0 <= i < |stats| => stats[i]);
    assert a[..] == stats;
    ArraySort.SortBy(a, NegValue);
    var sorted := a[..];
    top := sorted[..Min(5, |sorted|)];
    ArraySort.SortedPrefix(stats, sorted, NegValue, Min(5, |sorted|));
  }

  function PointMonth(p: TrendPoint): MonthKey {
    p.month
  }

  /** The trend shows month `k`. */
  ghost predicate Shows(trend: seq<TrendPoint>, k: MonthKey) {
    exists p :: p in trend && p.month == k
  }

  /** A sequence without repeats has as many distinct elements as it is long. */
  lemma {:induction false} DistinctCard<T>(s: seq<T>)
    requires forall i, j :: 0 <= i < j < |s| ==> s[i] != s[j]
    ensures |set x | x in s| == |s|
  {
    if s != [] {
      var n := |s| - 1;
      var s' := s[..n];
      DistinctCard(s');
      assert (set x | x in s) == (set x | x in s') + {s[n]};
      assert s[n] !in s' by {
        forall i | 0 <= i < n
          ensures s'[i] != s[n]
        {
          assert s[i] != s[n];
        }
      }
    } else {
      assert (set x | x in s) == {};
    }
  }

  /** There is one entry per month that has transactions. */
  lemma EntriesCount(ts: seq<Transaction>)
    ensures |Entries(MonthlyData(ts))| == |Months(ts)|
  {
    var d := MonthlyData(ts);
    MonthlyWellFormed(ts);
    MonthsPresent(ts);
    assert (set x | x in d.keys) == Months(ts);
    DistinctCard(d.keys);
  }

  /** No two entries are of the same month. */
  lemma EntriesDistinct(ts: seq<Transaction>)
    ensures MemoryOps.DistinctKeys(Entries(MonthlyData(ts)), PointMonth)
  {
    MonthlyWellFormed(ts);
  }

  /** Each entry is a month that has transactions, with that month's totals. */
  lemma EntriesTotals(ts: seq<Transaction>)
    ensures forall p :: p in Entries(MonthlyData(ts)) ==> p.month in Months(ts) && p.bucket == MonthTotals(ts, p.month)
  {
    var d := MonthlyData(ts);
    MonthlyWellFormed(ts);
    MonthsPresent(ts);
    BucketsAreMonthTotals(ts);
  }

  /** Each month that has transactions has an entry. */
  lemma EntriesCover(ts: seq<Transaction>)
    ensures forall k :: k in Months(ts) ==> exists p :: p in Entries(MonthlyData(ts)) && p.month == k
  {
    var d := MonthlyData(ts);
    var entries := Entries(d);
    MonthlyWellFormed(ts);
    MonthsPresent(ts);
    forall k | k in Months(ts)
      ensures exists p :: p in entries && p.month == k
    {
      var i :| 0 <= i < |d.keys| && d.keys[i] == k;
      assert entries[i].month == k;
    }
  }

  /** Points drawn from entries of distinct months, in ascending order, are in strictly ascending order. */
  lemma TrendStrict(entries: seq<TrendPoint>, trend: seq<TrendPoint>)
    requires MemoryOps.DistinctKeys(entries, PointMonth) && multiset(trend) <= multiset(entries)
    requires forall i, j :: 0 <= i < j < |trend| ==> MonthRank(trend[i]) <= MonthRank(trend[j])
    ensures forall i, j :: 0 <= i < j < |trend| ==> Rank(trend[i].month) < Rank(trend[j].month)
  {
    forall i, j | 0 <= i < j < |trend|
      ensures Rank(trend[i].month) < Rank(trend[j].month)
    {
      assert trend[i] in multiset(trend) && trend[j] in multiset(trend);
      if trend[i].month == trend[j].month {
        var a :| 0 <= a < |entries| && entries[a] == trend[i];
        var b :| 0 <= b < |entries| && entries[b] == trend[j];
        assert a == b;
        MemoryOps.RepeatCount(trend, i, j);
        MemoryOps.DistinctCount(entries, PointMonth, trend[i]);
        assert false;
      }
      RankInjective(trend[i].month, trend[j].month);
    }
  }

  /** A month with an entry that the trend does not show is earlier than every month it shows. */
  lemma TrendLatest(entries: seq<TrendPoint>, trend: seq<TrendPoint>, months: set<MonthKey>)
    requires forall k :: k in months ==> exists p :: p in entries && p.month == k
    requires forall p, q :: p in entries && p !in trend && q in trend ==> MonthRank(p) <= MonthRank(q)
    ensures forall k, q :: k in months && !Shows(trend, k) && q in trend ==> Rank(k) < Rank(q.month)
  {
    forall k, q | k in months && !Shows(trend, k) && q in trend
      ensures Rank(k) < Rank(q.month)
    {
      var p :| p in entries && p.month == k;
      assert p !in trend;
      RankInjective(k, q.month);
    }
  }

  /**
   * The six points `MonthlyTrend` keeps out of the entries are the latest
   * six months that have transactions, in calendar order, each with its
   * month's totals.
   */
  lemma TrendOfMonths(ts: seq<Transaction>, trend: seq<TrendPoint>)
    requires var entries := Entries(MonthlyData(ts));
      && |trend| == Min(6, |entries|)
      && (forall i, j :: 0 <= i < j < |trend| ==> MonthRank(trend[i]) <= MonthRank(trend[j]))
      && multiset(trend) <= multiset(entries)
      && (forall p, q :: p in entries && p !in trend && q in trend ==> MonthRank(p) <= MonthRank(q))
    ensures |trend| == Min(6, |Months(ts)|)
    ensures forall i, j :: 0 <= i < j < |trend| ==> Rank(trend[i].month) < Rank(trend[j].month)
    ensures forall p :: p in trend ==> p.month in Months(ts) && p.bucket == MonthTotals(ts, p.month)
    ensures forall k, q :: k in Months(ts) && !Shows(trend, k) && q in trend ==> Rank(k) < Rank(q.month)
  {
    var entries := Entries(MonthlyData(ts));
    EntriesCount(ts);
    EntriesDistinct(ts);
    TrendStrict(entries, trend);
    assert forall p :: p in trend ==> p.month in Months(ts) && p.bucket == MonthTotals(ts, p.month) by {
      EntriesTotals(ts);
      forall p | p in trend
        ensures p in entries
      {
        assert p in multiset(trend);
      }
    }
    EntriesCover(ts);
    TrendLatest(entries, trend, Months(ts));
  }

  // The memo

  datatype PageStats = PageStats(
    categoryStats: seq<CategoryStat>,
    monthlyTrend: seq<TrendPoint>,
    totalIncome: real,
    totalExpenses: real,
    balance: real)

  /** The `stats` memo of the statistics page. */
  method ComputeStats(cats: seq<Category>, ts: seq<Transaction>) returns (s: PageStats)
    ensures s.categoryStats == CategoryStats(cats, ts)
    ensures |s.monthlyTrend| == Min(6, |Months(ts)|)
    ensures forall i, j :: 0 <= i < j < |s.monthlyTrend| ==>
      Rank(s.monthlyTrend[i].month) < Rank(s.monthlyTrend[j].month)
    ensures forall p :: p in s.monthlyTrend ==> p.month in Months(ts) && p.bucket == MonthTotals(ts, p.month)
    ensures forall k, q :: k in Months(ts) && !Shows(s.monthlyTrend, k) && q in s.monthlyTrend ==>
      Rank(k) < Rank(q.month)
    ensures s.totalIncome + s.totalExpenses == SumOf(ts, Amount)
    ensures s.balance == s.totalIncome - s.totalExpenses
    ensures s.balance == SumOf(ts, SignedAmount)
  {
    var keys, buckets := CollectMonthlyData(ts);
    var entries := Entries(Monthly(keys, buckets));
    var trend := MonthlyTrend(entries);
    TrendOfMonths(ts, trend);
    var income := TotalIncome(ts);
    var expenses := TotalExpenses(ts);
    TotalsPartition(ts);
    s := PageStats(CategoryStats(cats, ts), trend, income, expenses, income - expenses);
  }
}
