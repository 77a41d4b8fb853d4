/** The page's `transactions` array and the two handlers that change it: the
    add button's (validate the form, push a record, re-sort by date, save)
    and `deleteTransaction` (filter out an id, save). The browser's
    `localStorage` is the field `saved`, the list as last written; the
    millisecond clock that gives a new record its id is a parameter of `Add`. */
module TransactionLedger {
  import opened Records
  import opened Sequences
  import opened Text
  import opened DateOrder
  import opened Summary

  /** The test "has an id other than `id`". */
  function HasOtherId(id: int): Transaction -> bool
  {
    (t: Transaction) => t.id != id
  }

  /** `transactions.filter(t => t.id !== id)`: every record whose id is not
      `id`, in list order. */
  function RemoveId(s: seq<Transaction>, id: int): (r: seq<Transaction>)
    ensures forall t :: t in r <==> t in s && t.id != id
  {
    Filter(s, HasOtherId(id))
  }

  /** The record the add handler builds from the form and the clock. */
  function NewRecord(form: Form, id: int): (t: Transaction)
    requires form.amount.Some?
    ensures t.id == id && t.description == Trim(form.description) && t.amount == form.amount.value
    ensures t.kind == form.kind && t.date == form.date
    ensures t.description != [] ==> !IsSpace(t.description[0]) && !IsSpace(t.description[|t.description| - 1])
    ensures t.description == [] <==> AllSpace(form.description)
  {
    Transaction(id, Trim(form.description), form.amount.value, form.kind, form.date)
  }

  /** The checks the add handler makes before it touches the list: a
      description that is not blank once trimmed, an amount that is a number
      above zero, and a date. */
  predicate Acceptable(form: Form)
    ensures Acceptable(form) <==>
              && (exists k :: 0 <= k < |form.description| && !IsSpace(form.description[k]))
              && form.amount.Some? && form.amount.value > 0.0 && form.date != []
  {
    Trim(form.description) != [] && form.amount.Some? && form.amount.value > 0.0
    && form.date != []
  }

  class Ledger {
    var transactions: seq<Transaction>
    /** The list as last written to browser storage, `None` before any write. */
    var saved: Option<seq<Transaction>>

    /** The page's start-up: the stored list, or the empty list when nothing
        is stored. */
    constructor Load(stored: Option<seq<Transaction>>)
      ensures transactions == if stored.Some? then stored.value else []
      ensures saved == stored
    {
      transactions := if stored.Some? then stored.value else [];
      saved := stored;
    }

    /** The add button. A form that fails a check is refused and nothing
        changes. Otherwise the new record is pushed, the whole list is sorted
        most recent first (stably, so records of one date keep their order and
        the new one comes after those already there), and the list is saved. */
    method Add(form: Form, id: int) returns (added: bool)
      modifies this
      ensures added <==> Acceptable(form)
      ensures !added ==> transactions == old(transactions) && saved == old(saved)
      ensures added ==>
                && transactions == SortByDate(old(transactions) + [NewRecord(form, id)])
                && saved == Some(transactions)
      ensures added ==>
                && |transactions| == |old(transactions)| + 1
                && multiset(transactions) == multiset(old(transactions)) + multiset{NewRecord(form, id)}
                && Descending(transactions)
      ensures added ==>
                forall d :: OnDate(transactions, d) ==
                  OnDate(old(transactions), d) + if form.date == d then [NewRecord(form, id)] else []
    {
      var desc := Trim(form.description);
      if desc == [] || form.amount.None? || form.amount.value <= 0.0 || form.date == [] {
        return false;
      }
      var t := Transaction(id, desc, form.amount.value, form.kind, form.date);
      SortAfterPush(transactions, t);
      transactions := transactions + [t];
      transactions := SortByDate(transactions);
      saved := Some(transactions);
      added := true;
    }

    /** `deleteTransaction`: every record with the given id is dropped, the
        others keep their order, and the list is saved. */
    method Delete(id: int)
      modifies this
      ensures transactions == RemoveId(old(transactions), id)
      ensures saved == Some(transactions)
    {
      transactions := RemoveId(transactions, id);
      saved := Some(transactions);
    }
  }

  /** Deleting an id no record carries leaves the list exactly as it was. */
  lemma DeleteAbsent(s: seq<Transaction>, id: int)
    requires forall t :: t in s ==> t.id != id
    ensures RemoveId(s, id) == s
  {
    FilterKeepsAll(s, HasOtherId(id));
  }

  /** Deleting the same id twice is deleting it once. */
  lemma DeleteIdempotent(s: seq<Transaction>, id: int)
    ensures RemoveId(RemoveId(s, id), id) == RemoveId(s, id)
  {
    FilterIdempotent(s, HasOtherId(id));
  }

  /** The survivors keep their relative order: deleting from two lists one
      after the other is deleting from each. */
  lemma DeleteKeepsOrder(a: seq<Transaction>, b: seq<Transaction>, id: int)
    ensures RemoveId(a + b, id) == RemoveId(a, id) + RemoveId(b, id)
  {
    FilterAppend(a, b, HasOtherId(id));
  }

  /** A most-recent-first list stays most recent first after a delete. */
  lemma {:induction false} DeleteKeepsDescending(s: seq<Transaction>, id: int)
    requires Descending(s)
    ensures Descending(RemoveId(s, id))
  {
    if s != [] {
      DescendingCons(s[0], s[1..]);
      assert s == [s[0]] + s[1..];
      DeleteKeepsDescending(s[1..], id);
      DeleteKeepsOrder([s[0]], s[1..], id);
      if s[0].id != id {
        assert RemoveId([s[0]], id) == [s[0]];
        DescendingCons(s[0], RemoveId(s[1..], id));
      } else {
        assert RemoveId([s[0]], id) == [];
      }
    }
  }

  /** When ids are distinct, deleting the id of a record that is there
      shortens the list by exactly one. */
  lemma {:induction false} DeleteOne(s: seq<Transaction>, id: int)
    requires forall i, j :: 0 <= i < j < |s| ==> s[i].id != s[j].id
    requires exists i :: 0 <= i < |s| && s[i].id == id
    ensures |RemoveId(s, id)| == |s| - 1
  {
    assert s == [s[0]] + s[1..];
    DeleteKeepsOrder([s[0]], s[1..], id);
    if s[0].id == id {
      assert RemoveId([s[0]], id) == [];
      DeleteAbsent(s[1..], id);
    } else {
      assert RemoveId([s[0]], id) == [s[0]];
      var i :| 0 <= i < |s| && s[i].id == id;
      assert s[1..][i - 1].id == id;
      DeleteOne(s[1..], id);
    }
  }

  /** Deleting, right after it was added, a record whose id no other record
      shares gives back a most-recent-first list exactly as it was. */
  lemma DeleteUndoesAdd(s: seq<Transaction>, t: Transaction)
    requires Descending(s)
    requires forall u :: u in s ==> u.id != t.id
    ensures RemoveId(SortByDate(s + [t]), t.id) == s
  {
    assert (s + [t])[..|s|] == s;
    SortOfDescending(s);
    RemoveInserted(s, t);
  }

  lemma {:induction false} RemoveInserted(s: seq<Transaction>, x: Transaction)
    requires forall u :: u in s ==> u.id != x.id
    ensures RemoveId(Insert(s, x), x.id) == s
  {
    if s == [] {
      assert RemoveId([x], x.id) == [];
    } else if Earlier(s[0].date, x.date) {
      DeleteKeepsOrder([x], s, x.id);
      assert RemoveId([x], x.id) == [];
      DeleteAbsent(s, x.id);
    } else {
      assert s == [s[0]] + s[1..];
      assert forall u :: u in s[1..] ==> u in s;
      RemoveInserted(s[1..], x);
      DeleteKeepsOrder([s[0]], Insert(s[1..], x), x.id);
      assert RemoveId([s[0]], x.id) == [s[0]];
    }
  }

  /** What a successful add does to the summary: the total of the new
      record's type grows by its amount, the other total stays, and the
      balance moves by the same amount up for income, down for an expense. */
  lemma AddShiftsSummary(s: seq<Transaction>, t: Transaction)
    ensures var before, after := Summarize(s), Summarize(SortByDate(s + [t]));
            && after.income == before.income + (if IsIncome(t) then t.amount else 0.0)
            && after.expense == before.expense + (if IsExpense(t) then t.amount else 0.0)
            && after.balance == before.balance + (if IsIncome(t) then t.amount else 0.0)
                                               - (if IsExpense(t) then t.amount else 0.0)
  {
    SummaryOfPermutation(SortByDate(s + [t]), s + [t]);
    SummaryAppend(s, t);
  }
}
