/** The order the add handler keeps the ledger in: most recent date first,
    as `transactions.sort((a, b) => new Date(b.date) - new Date(a.date))`
    leaves it. A date is the "YYYY-MM-DD" text of the form's date field; for
    such texts the calendar order that `new Date` compares is the
    character-by-character order of the text, which is what `Earlier`
    states. `Array.prototype.sort` is stable, so records of the same date
    keep the order they had; `SortByDate` is that stable sort, written as an
    insertion sort. */
module DateOrder {
  import opened Records
  import opened Sequences

  /** `a` comes strictly before `b` in the lexicographic order of texts. */
  predicate Earlier(a: string, b: string)
    ensures Earlier(a, b) ==> a != b
    ensures |a| < |b| && a == b[..|a|] ==> Earlier(a, b)
  {
    if a == [] then b != []
    else if b == [] then false
    else if a[0] != b[0] then a[0] < b[0]
    else Earlier(a[1..], b[1..])
  }

  /** The first position where two texts differ decides their order. */
  lemma {:induction false} EarlierAt(a: string, b: string, k: nat)
    requires k < |a| && k < |b| && a[..k] == b[..k] && a[k] < b[k]
    ensures Earlier(a, b)
  {
    if k > 0 {
      assert a[0] == a[..k][0] == b[..k][0] == b[0];
      assert a[1..][..k - 1] == a[..k][1..] == b[..k][1..] == b[1..][..k - 1];
      EarlierAt(a[1..], b[1..], k - 1);
    }
  }

  lemma {:induction false} EarlierIrreflexive(a: string)
    ensures !Earlier(a, a)
  {
    if a != [] {
      EarlierIrreflexive(a[1..]);
    }
  }

  lemma {:induction false} EarlierTransitive(a: string, b: string, c: string)
    requires Earlier(a, b) && Earlier(b, c)
    ensures Earlier(a, c)
  {
    if a != [] && a[0] == b[0] && b[0] == c[0] {
      EarlierTransitive(a[1..], b[1..], c[1..]);
    }
  }

  /** Any two different texts are ordered one way or the other. */
  lemma {:induction false} EarlierTotal(a: string, b: string)
    ensures a == b || Earlier(a, b) || Earlier(b, a)
  {
    if a != [] && b != [] && a[0] == b[0] {
      EarlierTotal(a[1..], b[1..]);
      assert a == [a[0]] + a[1..] && b == [b[0]] + b[1..];
    }
  }

  lemma EarlierAsymmetric(a: string, b: string)
    requires Earlier(a, b)
    ensures !Earlier(b, a)
  {
    if Earlier(b, a) {
      EarlierTransitive(a, b, a);
      EarlierIrreflexive(a);
    }
  }

  /** Not later than `b` and before `c` means before `c`. */
  lemma NotLaterThenEarlier(a: string, b: string, c: string)
    requires !Earlier(b, a) && Earlier(b, c)
    ensures Earlier(a, c)
  {
    EarlierTotal(a, b);
    if a != b {
      EarlierTransitive(a, b, c);
    }
  }

  /** Most recent first: no record is dated before a record that follows it. */
  predicate Descending(s: seq<Transaction>)
  {
    forall i, j :: 0 <= i < j < |s| ==> !Earlier(s[i].date, s[j].date)
  }

  lemma DescendingCons(a: Transaction, r: seq<Transaction>)
    ensures Descending([a] + r) <==>
            Descending(r) && forall y :: y in r ==> !Earlier(a.date, y.date)
  {
    var s := [a] + r;
    if Descending(r) && forall y :: y in r ==> !Earlier(a.date, y.date) {
      forall i, j | 0 <= i < j < |s| ensures !Earlier(s[i].date, s[j].date) {
        if i == 0 {
          assert s[j] in r;
        } else {
          assert s[i] == r[i - 1] && s[j] == r[j - 1];
        }
      }
    }
    if Descending(s) {
      forall y | y in r ensures !Earlier(a.date, y.date) {
        var j :| 0 <= j < |r| && r[j] == y;
        assert s[0] == a && s[j + 1] == y;
      }
      assert r == s[1..];
    }
  }

  /** Places `x` after every record that is not earlier than it and before
      the first one that is: into a most-recent-first list, after the records
      of its own date. */
  function Insert(s: seq<Transaction>, x: Transaction): (r: seq<Transaction>)
    ensures multiset(r) == multiset(s) + multiset{x}
  {
    if s == [] then [x]
    else if Earlier(s[0].date, x.date) then [x] + s
    else
      assert s == [s[0]] + s[1..];
      [s[0]] + Insert(s[1..], x)
  }

  /** The stable sort of `s` into most-recent-first order: each record in
      turn, from first to last, is inserted into the sorted records before it. */
  function SortByDate(s: seq<Transaction>): (r: seq<Transaction>)
    ensures multiset(r) == multiset(s)
  {
    if s == [] then []
    else
      assert s == s[..|s| - 1] + [s[|s| - 1]];
      Insert(SortByDate(s[..|s| - 1]), s[|s| - 1])
  }

  lemma {:induction false} InsertDescending(s: seq<Transaction>, x: Transaction)
    requires Descending(s)
    ensures Descending(Insert(s, x))
  {
    if s == [] {
    } else if Earlier(s[0].date, x.date) {
      AllEarlier(s, x);
      forall y | y in s ensures !Earlier(x.date, y.date) {
        EarlierAsymmetric(y.date, x.date);
      }
      DescendingCons(x, s);
    } else {
      DescendingCons(s[0], s[1..]);
      assert s == [s[0]] + s[1..];
      InsertDescending(s[1..], x);
      var rest := Insert(s[1..], x);
      forall y | y in rest ensures !Earlier(s[0].date, y.date) {
        assert y in multiset(rest);
      }
      DescendingCons(s[0], rest);
    }
  }

  /** When the first record of a most-recent-first list is earlier than `x`,
      every record of it is. */
  lemma AllEarlier(s: seq<Transaction>, x: Transaction)
    requires Descending(s) && s != [] && Earlier(s[0].date, x.date)
    ensures forall y :: y in s ==> Earlier(y.date, x.date)
  {
    forall y | y in s ensures Earlier(y.date, x.date) {
      var j :| 0 <= j < |s| && s[j] == y;
      if j > 0 {
        NotLaterThenEarlier(y.date, s[0].date, x.date);
      }
    }
  }

  /** The sorted list is most recent first. */
  lemma {:induction false} SortDescending(s: seq<Transaction>)
    ensures Descending(SortByDate(s))
  {
    if s != [] {
      SortDescending(s[..|s| - 1]);
      InsertDescending(SortByDate(s[..|s| - 1]), s[|s| - 1]);
    }
  }

  /** The test "is dated `d`". */
  function IsOn(d: string): Transaction -> bool
  {
    (t: Transaction) => t.date == d
  }

  /** The records dated `d`, in list order. */
  function OnDate(s: seq<Transaction>, d: string): (r: seq<Transaction>)
    ensures forall y :: y in r <==> y in s && y.date == d
  {
    Filter(s, IsOn(d))
  }

  /** Inserting `x` into a sorted list puts it after every record of its own
      date and leaves the order of the records of every other date alone. */
  lemma {:induction false} InsertStable(s: seq<Transaction>, x: Transaction, d: string)
    requires Descending(s)
    ensures OnDate(Insert(s, x), d) == OnDate(s, d) + if x.date == d then [x] else []
  {
    var p := IsOn(d);
    FilterOne(x, p);
    if s == [] {
      assert Insert(s, x) == [x];
    } else if Earlier(s[0].date, x.date) {
      FilterAppend([x], s, p);
      if x.date == d {
        AllEarlier(s, x);
        EarlierIrreflexive(x.date);
        FilterDropsAll(s, p);
      }
    } else {
      DescendingTail(s);
      InsertStable(s[1..], x, d);
      InsertStableStep(s[0], s[1..], x, d);
      assert s == [s[0]] + s[1..];
    }
  }

  lemma DescendingTail(s: seq<Transaction>)
    requires Descending(s) && s != []
    ensures Descending(s[1..])
  {
    forall i, j | 0 <= i < j < |s| - 1 ensures !Earlier(s[1..][i].date, s[1..][j].date) {
      assert s[1..][i] == s[i + 1] && s[1..][j] == s[j + 1];
    }
  }

  /** Inserting behind a record that is not earlier than `x` keeps that
      record in front of whatever inserting into the rest gives. */
  lemma InsertStableStep(head: Transaction, rest: seq<Transaction>, x: Transaction, d: string)
    requires !Earlier(head.date, x.date)
    requires OnDate(Insert(rest, x), d) == OnDate(rest, d) + if x.date == d then [x] else []
    ensures OnDate(Insert([head] + rest, x), d) ==
            OnDate([head] + rest, d) + if x.date == d then [x] else []
  {
    var p, tail := IsOn(d), if x.date == d then [x] else [];
    assert ([head] + rest)[0] == head && ([head] + rest)[1..] == rest;
    assert Insert([head] + rest, x) == [head] + Insert(rest, x);
    FilterAppend([head], rest, p);
    FilterAppend([head], Insert(rest, x), p);
    AppendAssoc(Filter([head], p), Filter(rest, p), tail);
  }

  /** The sort is stable: for every date, the records of that date appear in
      the sorted list in the order they had before. */
  lemma {:induction false} SortStable(s: seq<Transaction>, d: string)
    ensures OnDate(SortByDate(s), d) == OnDate(s, d)
  {
    if s != [] {
      var init, last := s[..|s| - 1], s[|s| - 1];
      var tail := if last.date == d then [last] else [];
      assert s == init + [last];
      assert SortByDate(s) == Insert(SortByDate(init), last);
      SortStable(init, d);
      SortDescending(init);
      InsertStable(SortByDate(init), last, d);
      assert OnDate(SortByDate(s), d) == OnDate(init, d) + tail;
      FilterAppend(init, [last], IsOn(d));
      assert Filter([last], IsOn(d)) == tail;
    }
  }

  /** Pushing a record and sorting: the result is most recent first, and for
      every date it lists the records of that date in their old order with
      the new record, if it is of that date, last. */
  lemma SortAfterPush(s: seq<Transaction>, x: Transaction)
    ensures Descending(SortByDate(s + [x]))
    ensures forall d :: OnDate(SortByDate(s + [x]), d) ==
                        OnDate(s, d) + if x.date == d then [x] else []
  {
    SortDescending(s + [x]);
    forall d ensures OnDate(SortByDate(s + [x]), d) == OnDate(s, d) + if x.date == d then [x] else [] {
      SortStable(s + [x], d);
      FilterAppend(s, [x], IsOn(d));
      assert Filter([x], IsOn(d)) == if x.date == d then [x] else [];
    }
  }

  /** Sorting a list that is already most recent first changes nothing. */
  lemma {:induction false} SortOfDescending(s: seq<Transaction>)
    requires Descending(s)
    ensures SortByDate(s) == s
  {
    if s != [] {
      var init, last := s[..|s| - 1], s[|s| - 1];
      assert s == init + [last];
      forall i, j | 0 <= i < j < |init| ensures !Earlier(init[i].date, init[j].date) {
        assert init[i] == s[i] && init[j] == s[j];
      }
      SortOfDescending(init);
      forall y | y in init ensures !Earlier(y.date, last.date) {
        var j :| 0 <= j < |init| && init[j] == y;
        assert s[j] == y;
      }
      InsertLast(init, last);
    }
  }

  /** A record not later than any record of a list goes to its end. */
  lemma {:induction false} InsertLast(s: seq<Transaction>, x: Transaction)
    requires forall y :: y in s ==> !Earlier(y.date, x.date)
    ensures Insert(s, x) == s + [x]
  {
    if s != [] {
      var rest := s[1..];
      assert s == [s[0]] + rest;
      assert s[0] in s;
      forall y | y in rest ensures !Earlier(y.date, x.date) {
        assert y in s;
      }
      InsertLast(rest, x);
      assert [s[0]] + (rest + [x]) == s + [x];
    }
  }

  lemma OnDateCons(x: Transaction, s: seq<Transaction>, d: string)
    ensures OnDate([x] + s, d) == (if x.date == d then [x] else []) + OnDate(s, d)
  {
    FilterAppend([x], s, IsOn(d));
  }

  /** The first record of a most-recent-first list is not earlier than any
      record listed under any date. */
  lemma FirstNotEarlier(a: seq<Transaction>, y: Transaction)
    requires Descending(a) && a != []
    requires y in a
    ensures !Earlier(a[0].date, y.date)
  {
    var j :| 0 <= j < |a| && a[j] == y;
    EarlierIrreflexive(a[0].date);
  }

  /** Two non-empty most-recent-first lists that list the records of every
      date alike begin with the same record, and what follows it in each
      lists the records of every date alike too. */
  lemma SameHead(a: seq<Transaction>, b: seq<Transaction>)
    requires a != [] && b != []
    requires Descending(a) && Descending(b)
    requires forall d :: OnDate(a, d) == OnDate(b, d)
    ensures a[0] == b[0]
    ensures forall d :: OnDate(a[1..], d) == OnDate(b[1..], d)
  {
    var da, db := a[0].date, b[0].date;
    assert a == [a[0]] + a[1..] && b == [b[0]] + b[1..];
    assert a[0] in OnDate(b, da);
    FirstNotEarlier(b, a[0]);
    assert b[0] in OnDate(a, db);
    FirstNotEarlier(a, b[0]);
    EarlierTotal(da, db);
    OnDateCons(a[0], a[1..], da);
    OnDateCons(b[0], b[1..], da);
    assert a[0] == OnDate(a, da)[0] == OnDate(b, da)[0] == b[0];
    forall d ensures OnDate(a[1..], d) == OnDate(b[1..], d) {
      OnDateCons(a[0], a[1..], d);
      OnDateCons(b[0], b[1..], d);
      var head := if a[0].date == d then [a[0]] else [];
      assert OnDate(a[1..], d) == OnDate(a, d)[|head|..];
      assert OnDate(b[1..], d) == OnDate(b, d)[|head|..];
    }
  }

  /** Two most-recent-first arrangements of the same records that list the
      records of every date alike are the same list. */
  lemma {:induction false} DescendingDeterminedByDates(a: seq<Transaction>, b: seq<Transaction>)
    requires multiset(a) == multiset(b)
    requires Descending(a) && Descending(b)
    requires forall d :: OnDate(a, d) == OnDate(b, d)
    ensures a == b
    decreases |a|
  {
    assert |a| == |multiset(a)| == |multiset(b)| == |b|;
    if a != [] {
      SameHead(a, b);
      assert a == [a[0]] + a[1..] && b == [b[0]] + b[1..];
      assert multiset(a[1..]) == multiset(a) - multiset{a[0]} == multiset(b[1..]);
      DescendingTail(a);
      DescendingTail(b);
      DescendingDeterminedByDates(a[1..], b[1..]);
    }
  }

  /** What the sort is, independently of how it is computed: the one
      permutation of `s` that is most recent first and keeps the records of
      each date in their order in `s`. */
  lemma SortUnique(s: seq<Transaction>, r: seq<Transaction>)
    requires multiset(r) == multiset(s)
    requires Descending(r)
    requires forall d :: OnDate(r, d) == OnDate(s, d)
    ensures r == SortByDate(s)
  {
    SortDescending(s);
    forall d ensures OnDate(r, d) == OnDate(SortByDate(s), d) {
      SortStable(s, d);
    }
    DescendingDeterminedByDates(r, SortByDate(s));
  }
}
