/** What `updateSummary` computes from the ledger (the income total, the
    expense total and the balance), and the sign `renderTransactions` shows
    in front of each amount. Amounts are reals: the floating-point rounding
    of JavaScript's numbers is not modelled. */
module Summary {
  import opened Records
  import opened Sequences

  /** `reduce((a, b) => a + b.amount, 0)`: the amounts added up from the
      first record to the last. */
  function Total(s: seq<Transaction>): (r: real)
    ensures s == [] ==> r == 0.0
    ensures |s| == 1 ==> r == s[0].amount
  {
    if s == [] then 0.0 else Total(s[..|s| - 1]) + s[|s| - 1].amount
  }

  predicate IsIncome(t: Transaction)
  {
    t.kind == "income"
  }

  predicate IsExpense(t: Transaction)
  {
    t.kind == "expense"
  }

  datatype Totals = Totals(income: real, expense: real, balance: real)

  /** `updateSummary`: the income total, the expense total, and the balance,
      their difference. */
  function Summarize(s: seq<Transaction>): (r: Totals)
    ensures r.balance == r.income - r.expense
    ensures s == [] ==> r == Totals(0.0, 0.0, 0.0)
  {
    var income := Total(Filter(s, IsIncome));
    var expense := Total(Filter(s, IsExpense));
    Totals(income, expense, income - expense)
  }

  /** The sign shown before a rendered amount: "+" for an income record and
      "-" for a record of any other type. */
  function Sign(t: Transaction): (r: string)
    ensures r == "+" <==> IsIncome(t)
    ensures r == "-" <==> !IsIncome(t)
  {
    if t.kind == "income" then "+" else "-"
  }

  /** The total of two lists one after the other is the sum of their totals. */
  lemma {:induction false} TotalAppend(a: seq<Transaction>, b: seq<Transaction>)
    ensures Total(a + b) == Total(a) + Total(b)
  {
    if b == [] {
      assert a + b == a;
    } else {
      assert (a + b)[..|a + b| - 1] == a + b[..|b| - 1];
      TotalAppend(a, b[..|b| - 1]);
    }
  }

  /** Summing from the first record is summing from the last: the total is
      the first amount plus the total of the rest. */
  lemma {:induction false} TotalFront(s: seq<Transaction>)
    requires s != []
    ensures Total(s) == s[0].amount + Total(s[1..])
  {
    TotalAppend([s[0]], s[1..]);
    assert s == [s[0]] + s[1..];
  }

  /** Taking one record out of a list lowers its total by that record's amount. */
  lemma TotalWithout(b: seq<Transaction>, k: nat)
    requires k < |b|
    ensures Total(b) == Total(b[..k] + b[k + 1..]) + b[k].amount
  {
    var left, x, right := b[..k], b[k], b[k + 1..];
    assert b == (left + [x]) + right;
    TotalAppend(left + [x], right);
    assert (left + [x])[..|left + [x]| - 1] == left;
    TotalAppend(left, right);
  }

  /** The total does not depend on the order of the records. */
  lemma {:induction false} TotalPermutation(a: seq<Transaction>, b: seq<Transaction>)
    requires multiset(a) == multiset(b)
    ensures Total(a) == Total(b)
    decreases |a|
  {
    if a == [] {
      assert |b| == |multiset(b)| == 0;
    } else {
      var init, x := a[..|a| - 1], a[|a| - 1];
      assert a == init + [x];
      assert x in multiset(b);
      var k :| 0 <= k < |b| && b[k] == x;
      var rest := b[..k] + b[k + 1..];
      MultisetWithout(b, k);
      assert multiset(a) == multiset(init) + multiset{x};
      TotalPermutation(init, rest);
      TotalWithout(b, k);
    }
  }

  /** Records of positive amount add up to a total that is positive, or
      zero for no records. */
  lemma {:induction false} TotalOfPositive(s: seq<Transaction>)
    requires forall t :: t in s ==> t.amount > 0.0
    ensures Total(s) >= 0.0
    ensures s != [] ==> Total(s) > 0.0
  {
    if s != [] {
      assert s[|s| - 1] in s;
      assert forall t :: t in s[..|s| - 1] ==> t in s;
      TotalOfPositive(s[..|s| - 1]);
    }
  }

  /** The summary does not depend on the order of the records, so re-sorting
      the ledger leaves it unchanged. */
  lemma SummaryOfPermutation(a: seq<Transaction>, b: seq<Transaction>)
    requires multiset(a) == multiset(b)
    ensures Summarize(a) == Summarize(b)
  {
    FilterPermutation(a, b, IsIncome);
    FilterPermutation(a, b, IsExpense);
    TotalPermutation(Filter(a, IsIncome), Filter(b, IsIncome));
    TotalPermutation(Filter(a, IsExpense), Filter(b, IsExpense));
  }

  /** One more record raises the total of its own type by its amount and
      leaves the other total alone; a record of any other type changes
      neither. */
  lemma SummaryAppend(s: seq<Transaction>, t: Transaction)
    ensures var before, after := Summarize(s), Summarize(s + [t]);
            && after.income == before.income + (if IsIncome(t) then t.amount else 0.0)
            && after.expense == before.expense + (if IsExpense(t) then t.amount else 0.0)
  {
    FilterAppend(s, [t], IsIncome);
    FilterAppend(s, [t], IsExpense);
    TotalAppend(Filter(s, IsIncome), Filter([t], IsIncome));
    TotalAppend(Filter(s, IsExpense), Filter([t], IsExpense));
    assert Total([t]) == t.amount by {
      assert [t][..0] == [];
    }
  }

  /** With positive amounts, as the add handler admits them, neither total is
      negative. */
  lemma SummaryNonNegative(s: seq<Transaction>)
    requires forall t :: t in s ==> t.amount > 0.0
    ensures Summarize(s).income >= 0.0 && Summarize(s).expense >= 0.0
  {
    TotalOfPositive(Filter(s, IsIncome));
    TotalOfPositive(Filter(s, IsExpense));
  }

  /** When every record is an income or an expense, the two totals together
      account for every amount in the ledger. */
  lemma {:induction false} SummaryCoversAll(s: seq<Transaction>)
    requires forall t :: t in s ==> IsIncome(t) || IsExpense(t)
    ensures Summarize(s).income + Summarize(s).expense == Total(s)
  {
    if s != [] {
      var init, last := s[..|s| - 1], s[|s| - 1];
      assert s == init + [last];
      assert last in s;
      assert forall t :: t in init ==> t in s;
      SummaryCoversAll(init);
      SummaryAppend(init, last);
    }
  }
}
