/**
 * The folds both pages compute over the store's collections:
 * `filter(t => t.type === …).reduce((sum, t) => sum + t.amount, 0)` and the
 * credit sums. Amounts are exact reals, so the sums are exact.
 */
module Totals {
  import opened Records

  /** `s.reduce((sum, e) => sum + f(e), 0)`: a left fold from zero. */
  function SumOf<T>(s: seq<T>, f: T -> real): real {
    if s == [] then 0.0 else SumOf(s[..|s| - 1], f) + f(s[|s| - 1])
  }

  function Amount(t: Transaction): real { t.amount }
  function TotalAmountOf(c: Credit): real { c.totalAmount }
  function MonthlyRateOf(c: Credit): real { c.monthlyRate }

  /** The amount as it counts towards the balance: income adds, an expense subtracts. */
  function SignedAmount(t: Transaction): real {
    if t.kind == Income then t.amount else -t.amount
  }

  /** `s.filter(t => t.type === kind)` */
  function OfType(s: seq<Transaction>, kind: TransactionType): (r: seq<Transaction>)
    ensures |r| <= |s|
  {
    if s == [] then []
    else OfType(s[..|s| - 1], kind) + (if s[|s| - 1].kind == kind then [s[|s| - 1]] else [])
  }

  /** The filter keeps exactly the transactions of the given type. */
  lemma {:induction false} OfTypeMembers(s: seq<Transaction>, kind: TransactionType)
    ensures forall t :: t in OfType(s, kind) <==> t in s && t.kind == kind
  {
    if s != [] {
      var s' := s[..|s| - 1];
      OfTypeMembers(s', kind);
      assert s == s' + [s[|s| - 1]];
    }
  }

  function TotalIncome(s: seq<Transaction>): real {
    SumOf(OfType(s, Income), Amount)
  }

  function TotalExpenses(s: seq<Transaction>): real {
    SumOf(OfType(s, Expense), Amount)
  }

  lemma {:induction false} SumAppend<T>(a: seq<T>, b: seq<T>, f: T -> real)
    ensures SumOf(a + b, f) == SumOf(a, f) + SumOf(b, f)
    decreases |b|
  {
    if b == [] {
      assert a + b == a;
    } else {
      SumAppend(a, b[..|b| - 1], f);
      assert (a + b)[..|a + b| - 1] == a + b[..|b| - 1];
    }
  }

  /** Income and expense totals split the sum of all amounts: every transaction is one or the other. */
  lemma {:induction false} TotalsPartition(s: seq<Transaction>)
    ensures TotalIncome(s) + TotalExpenses(s) == SumOf(s, Amount)
    ensures TotalIncome(s) - TotalExpenses(s) == SumOf(s, SignedAmount)
  {
    if s != [] {
      var s' := s[..|s| - 1];
      TotalsPartition(s');
      AppendOne(s', s[|s| - 1]);
      assert s == s' + [s[|s| - 1]];
    }
  }

  /** A transaction appended to the list adds its amount to exactly one of the two totals. */
  lemma AppendOne(s: seq<Transaction>, t: Transaction)
    ensures TotalIncome(s + [t]) == TotalIncome(s) + (if t.kind == Income then t.amount else 0.0)
    ensures TotalExpenses(s + [t]) == TotalExpenses(s) + (if t.kind == Expense then t.amount else 0.0)
  {
    assert (s + [t])[..|s + [t]| - 1] == s;
    var i, e := OfType(s, Income), OfType(s, Expense);
    assert OfType(s + [t], Income) == i + (if t.kind == Income then [t] else []);
    assert OfType(s + [t], Expense) == e + (if t.kind == Expense then [t] else []);
    if t.kind == Income {
      assert (i + [t])[..|i + [t]| - 1] == i;
      assert OfType(s + [t], Expense) == e;
    } else {
      assert (e + [t])[..|e + [t]| - 1] == e;
      assert OfType(s + [t], Income) == i;
    }
  }

  /** Removing the element at `j`. */
  function Without<T>(s: seq<T>, j: nat): seq<T>
    requires j < |s|
  {
    s[..j] + s[j + 1..]
  }

  lemma SumWithout<T>(s: seq<T>, j: nat, f: T -> real)
    requires j < |s|
    ensures SumOf(s, f) == SumOf(Without(s, j), f) + f(s[j])
  {
    var x, p, q := s[j], s[..j], s[j + 1..];
    assert s == p + ([x] + q);
    SumAppend(p, [x] + q, f);
    SumAppend([x], q, f);
    SumAppend(p, q, f);
    assert SumOf([x], f) == f(x) by {
      assert [x][..0] == [];
    }
  }

  lemma MultisetWithout<T>(s: seq<T>, j: nat)
    requires j < |s|
    ensures multiset(Without(s, j)) == multiset(s) - multiset{s[j]}
  {
    assert s == s[..j] + [s[j]] + s[j + 1..];
  }

  /** A sum does not depend on the order of its terms. */
  lemma {:induction false} SumPermutation<T>(a: seq<T>, b: seq<T>, f: T -> real)
    requires multiset(a) == multiset(b)
    ensures SumOf(a, f) == SumOf(b, f)
    decreases |a|
  {
    if a != [] {
      var x := a[|a| - 1];
      assert x in multiset(b);
      var j :| 0 <= j < |b| && b[j] == x;
      var a', b' := Without(a, |a| - 1), Without(b, j);
      assert multiset(a') == multiset(b') by {
        MultisetWithout(a, |a| - 1);
        MultisetWithout(b, j);
      }
      SumPermutation(a', b', f);
      assert SumOf(a, f) == SumOf(a', f) + f(x) by {
        SumWithout(a, |a| - 1, f);
      }
      assert SumOf(b, f) == SumOf(b', f) + f(x) by {
        SumWithout(b, j, f);
      }
    } else {
      assert b == [];
    }
  }

  lemma {:induction false} FilterPermutation(a: seq<Transaction>, b: seq<Transaction>, kind: TransactionType)
    requires multiset(a) == multiset(b)
    ensures multiset(OfType(a, kind)) == multiset(OfType(b, kind))
    decreases |a|
  {
    if a != [] {
      var x := a[|a| - 1];
      assert x in multiset(b);
      var j :| 0 <= j < |b| && b[j] == x;
      MultisetWithout(a, |a| - 1);
      MultisetWithout(b, j);
      FilterPermutation(Without(a, |a| - 1), Without(b, j), kind);
      FilterWithout(a, |a| - 1, kind);
      FilterWithout(b, j, kind);
    } else {
      assert b == [];
    }
  }

  /** Filtering after removing one element removes that element from the filtered list, if it was kept. */
  lemma FilterWithout(s: seq<Transaction>, j: nat, kind: TransactionType)
    requires j < |s|
    ensures multiset(OfType(s, kind)) ==
      multiset(OfType(Without(s, j), kind)) + (if s[j].kind == kind then multiset{s[j]} else multiset{})
  {
    FilterSplit(s, j, kind);
    FilterOne(s[j], kind);
    var fp, fx, fq := OfType(s[..j], kind), OfType([s[j]], kind), OfType(s[j + 1..], kind);
    assert multiset(fp + (fx + fq)) == multiset(fp + fq) + multiset(fx);
  }

  lemma FilterSplit(s: seq<Transaction>, j: nat, kind: TransactionType)
    requires j < |s|
    ensures OfType(s, kind) == OfType(s[..j], kind) + (OfType([s[j]], kind) + OfType(s[j + 1..], kind))
    ensures OfType(Without(s, j), kind) == OfType(s[..j], kind) + OfType(s[j + 1..], kind)
  {
    var x, p, q := s[j], s[..j], s[j + 1..];
    assert s == p + ([x] + q);
    FilterConcat(p, [x] + q, kind);
    FilterConcat([x], q, kind);
    FilterConcat(p, q, kind);
  }

  lemma FilterOne(x: Transaction, kind: TransactionType)
    ensures OfType([x], kind) == if x.kind == kind then [x] else []
  {
    assert [x][..0] == [];
  }

  lemma {:induction false} FilterConcat(a: seq<Transaction>, b: seq<Transaction>, kind: TransactionType)
    ensures OfType(a + b, kind) == OfType(a, kind) + OfType(b, kind)
    decreases |b|
  {
    if b == [] {
      assert a + b == a;
    } else {
      var b' := b[..|b| - 1];
      var x := b[|b| - 1];
      FilterConcat(a, b', kind);
      assert (a + b)[..|a + b| - 1] == a + b';
      assert (a + b)[|a + b| - 1] == x;
      var tail := if x.kind == kind then [x] else [];
      assert OfType(a + b, kind) == OfType(a + b', kind) + tail;
      assert OfType(b, kind) == OfType(b', kind) + tail;
    }
  }

  /** Reordering the transactions changes neither total. */
  lemma TotalsPermutation(a: seq<Transaction>, b: seq<Transaction>)
    requires multiset(a) == multiset(b)
    ensures TotalIncome(a) == TotalIncome(b) && TotalExpenses(a) == TotalExpenses(b)
  {
    FilterPermutation(a, b, Income);
    FilterPermutation(a, b, Expense);
    SumPermutation(OfType(a, Income), OfType(b, Income), Amount);
    SumPermutation(OfType(a, Expense), OfType(b, Expense), Amount);
  }
}
