# Personal Finance Dashboard — the transaction ledger

This project models the ledger behind the Personal Finance Dashboard page in `script.js`:

- the `transactions` array, loaded from browser storage at start-up;
- the add button's handler, which:
  - trims the description;
  - checks the description, amount and date;
  - pushes a record;
  - re-sorts the list most recent first;
  - saves the list;
- `deleteTransaction`, which filters out an id and saves;
- `updateSummary`'s income total, expense total and balance;
- the "+"/"-" sign that `renderTransactions` puts before an amount;
- the CSV export: a header line plus one line per record, joined with line feeds.

Modules:

- `Records`: the transaction record, the add form, and `Option`.
- `Sequences`: `Array.prototype.filter` and its laws.
- `Text`: `String.prototype.trim`, `Array.prototype.join`, and `String.prototype.split` as the inverse of the join.
- `DateOrder`: the stable most-recent-first sort and its characterisation.
- `Summary`: the totals and the sign.
- `TransactionLedger`: the `Ledger` class, whose fields the handlers update, and the delete laws.
- `CsvExport`: the export.
- `Scenarios`: a worked example.

Modelling decisions:

- Three things are parameters:
  - the millisecond clock that supplies a new record's id is a parameter of `Add`;
  - browser storage is the field `saved`, the list as last written;
  - JavaScript's number-to-text conversion used in the CSV is a parameter `show` of the export.
- Amounts are reals. `parseFloat`'s NaN is `None` in the form's amount.
- A record's type is any text. It counts toward income only when it is exactly `"income"`, and toward expenses only when it is exactly `"expense"`.
- Dates are the `YYYY-MM-DD` text of the date field. The comparator `new Date(b.date) - new Date(a.date)` orders such texts exactly as their character order does, so `Earlier` is that order.
- The validation raises a single alert, "Please fill all fields correctly.", for any failed check. The model follows that: there is one refusal (`Add` returns `false`) with no distinction between the causes.

## Model

| member | source | states |
|---|---|---|
| Text.Trim | script.js:83 | The trimmed description is a slice of the input. Everything cut from either end is white space. Its own ends are not white space. It is empty exactly when the input is all white space. |
| Text.IsSpace | script.js:83 | The characters `trim` removes. Among ASCII characters they are exactly tab, line feed, vertical tab, form feed, carriage return and space. None of them lies outside the range from tab to the byte order mark. |
| Text.FirstNonSpace | script.js:83 | The position found is the first one, from the start position on, that is not white space, with only white space before it. |
| Text.EndOfNonSpace | script.js:83 | The position found ends the last stretch that is not white space, with only white space after it. |
| Text.TrimUnpadded | script.js:83 | A text with no white space at either end is its own trim. |
| Text.TrimIdempotent | script.js:83 | Trimming an already trimmed text changes nothing. |
| Text.Split | script.js:182 | Splitting at a character gives one piece more than the character's occurrences, and no piece contains it. |
| Text.SplitJoin | script.js:182 | Splitting a join at its separator gives back the joined pieces, when no piece contains the separator. |
| Text.Join | script.js:182 | The joined text. Its meaning is fixed by `JoinCons` (one separator between neighbours), `JoinSeparators` (one fewer separator than pieces) and `SplitJoin` (splitting gives the pieces back). |
| Text.JoinCons | script.js:182 | Joining a string in front of a non-empty list puts exactly one separator between it and the join of the rest. |
| Text.JoinSeparators | script.js:182 | Joining pieces that do not contain the separator puts one fewer separator in the text than there are pieces, that is, one between each pair of neighbours. |
| Sequences.Filter | script.js:126 | The filtered list is no longer than the input and holds exactly the input's elements that pass the test. |
| Sequences.FilterAppend | script.js:126 | Filtering a concatenation is concatenating the filtered parts, so survivors keep their order. |
| Sequences.FilterOne | script.js:126 | A one-element list keeps its element exactly when it passes the test. |
| Sequences.FilterKeepsAll | script.js:126 | A filter that every element passes returns the list unchanged. |
| Sequences.FilterDropsAll | script.js:126 | A filter that no element passes returns the empty list. |
| Sequences.FilterIdempotent | script.js:126 | Filtering twice with the same test is filtering once. |
| Sequences.FilterCount | script.js:134-135 | Each element occurs in the filtered list as often as in the input if it passes, and not at all otherwise. |
| Sequences.FilterPermutation | script.js:134-135 | Filtering two permutations of one another gives permutations of one another. |
| Sequences.MultisetWithout | script.js:134-135 | Removing the element at one position removes one occurrence of it from the multiset. |
| DateOrder.EarlierAt | script.js:102 | The first position where two dates differ decides their order. |
| DateOrder.Earlier | script.js:102 | The comparator's order on date texts is the character-by-character order. No date is before itself, and a proper prefix is before any text it begins. |
| DateOrder.EarlierIrreflexive | script.js:102 | No date is before itself. |
| DateOrder.EarlierTransitive | script.js:102 | The date order is transitive. |
| DateOrder.EarlierTotal | script.js:102 | Any two different dates are ordered one way or the other. |
| DateOrder.EarlierAsymmetric | script.js:102 | Two dates are never each before the other. |
| DateOrder.NotLaterThenEarlier | script.js:102 | A date not after `b`, where `b` is before `c`, is itself before `c`. |
| DateOrder.DescendingCons | script.js:102 | A list with a record in front is most recent first iff the rest is, and the front record is not earlier than any record of the rest. |
| DateOrder.DescendingTail | script.js:102 | What follows the first record of a most-recent-first list is most recent first. |
| DateOrder.AllEarlier | script.js:102 | When the first record of a most-recent-first list is earlier than a date, every record of it is. |
| DateOrder.Insert | script.js:102 | Inserting a record adds exactly that record to the multiset of the list. |
| DateOrder.SortByDate | script.js:102 | The sort returns a permutation of its input. |
| DateOrder.InsertDescending | script.js:102 | Inserting into a most-recent-first list keeps it most recent first. |
| DateOrder.SortDescending | script.js:102 | The sorted list is most recent first. |
| DateOrder.OnDate | script.js:102 | The records of one date are exactly the list's records carrying that date. |
| DateOrder.InsertStable | script.js:102 | Inserting keeps the records of every date in their order, and the new record comes after those of its own date. |
| DateOrder.InsertStableStep | script.js:102 | Inserting behind a record not earlier than the new one keeps that record's place in its date's order. |
| DateOrder.SortStable | script.js:102 | The sort is stable: for every date, the records of that date appear in their input order. |
| DateOrder.SortAfterPush | script.js:101-102 | After a push and a sort, the list is most recent first. The new record follows the records of its date that were there before, and every other date is unchanged. |
| DateOrder.SortOfDescending | script.js:102 | Sorting a list that is already most recent first changes nothing. |
| DateOrder.InsertLast | script.js:102 | A record not later than any record of the list goes to its end. |
| DateOrder.OnDateCons | script.js:102 | The records of a date in a list with a record in front are that record, if it has the date, followed by those of the rest. |
| DateOrder.FirstNotEarlier | script.js:102 | The first record of a most-recent-first list is not earlier than any of its records. |
| DateOrder.SameHead | script.js:102 | Two most-recent-first lists with the same per-date order start with the same record, and their tails again agree date by date. |
| DateOrder.DescendingDeterminedByDates | script.js:102 | Two most-recent-first permutations of each other with the same per-date order are equal. |
| DateOrder.SortUnique | script.js:102 | The sort's result is the only permutation of the input that is most recent first and stable date by date. |
| Summary.Summarize | script.js:133-136 | The balance is income minus expense, and an empty ledger shows zero for all three. |
| Summary.Total | script.js:134-135 | The `reduce` sum starts at 0: an empty list totals 0, and a single record totals its amount. |
| Summary.TotalFront | script.js:134-135 | Summing from the first record gives the same total: the first amount plus the total of the rest. |
| Summary.Sign | script.js:117 | The sign is "+" exactly for an income record and "-" exactly for any other type. |
| Summary.TotalAppend | script.js:134-135 | The total of two lists one after the other is the sum of their totals. |
| Summary.TotalWithout | script.js:134-135 | Taking one record out lowers the total by its amount. |
| Summary.TotalPermutation | script.js:134-135 | The total does not depend on the order of the records. |
| Summary.TotalOfPositive | script.js:134-135 | Positive amounts add up to a total that is never negative, and positive when there is at least one. |
| Summary.SummaryOfPermutation | script.js:133-136 | Re-ordering the ledger, as the sort does, leaves the summary unchanged. |
| Summary.SummaryAppend | script.js:133-136 | One more record raises the total of its own type by its amount and leaves the other total alone. A record of any other type changes neither. |
| Summary.SummaryNonNegative | script.js:133-136 | With positive amounts, as the add handler admits, neither total is negative. |
| Summary.SummaryCoversAll | script.js:133-136 | When every record is income or expense, the two totals add up to the total of all amounts. |
| TransactionLedger.RemoveId | script.js:126 | The records left are exactly those whose id differs from the deleted one. |
| TransactionLedger.Acceptable | script.js:88 | A form passes the guard iff its description has a character that is not white space, its amount is a number above zero, and its date is not empty. |
| TransactionLedger.NewRecord | script.js:93-99 | The record built takes the given id, the trim of the form's description, and the form's amount, type and date. Its description has no white space at either end, and it is empty exactly when the form's description is all white space. |
| TransactionLedger.Ledger.Load | script.js:14 | At start-up the list is the stored list, or empty when nothing is stored. |
| TransactionLedger.Ledger.Add | script.js:82-104 | The add succeeds iff the trimmed description is non-empty, the amount is a number above zero and the date is non-empty. A refusal changes nothing. A success makes the list the stable most-recent-first sort of the old list plus the new record and saves it. The list then has one more record, the new record among the old ones, and is most recent first. The new record follows the earlier records of its date, and every date's records keep their order. |
| TransactionLedger.Ledger.Delete | script.js:125-127 | The list becomes the old list without the records of that id, and it is saved. |
| TransactionLedger.DeleteAbsent | script.js:126 | Deleting an id no record has leaves the list as it was. |
| TransactionLedger.DeleteIdempotent | script.js:126 | Deleting the same id twice is deleting it once. |
| TransactionLedger.DeleteKeepsOrder | script.js:126 | Delete acts on each part of a list separately, so survivors keep their relative order. |
| TransactionLedger.DeleteKeepsDescending | script.js:126 | A delete keeps the list most recent first. |
| TransactionLedger.DeleteOne | script.js:126 | With distinct ids, deleting the id of a present record removes exactly one record. |
| TransactionLedger.DeleteUndoesAdd | script.js:101-102 | Deleting a freshly added record with an unshared id restores the most-recent-first list exactly. |
| TransactionLedger.RemoveInserted | script.js:101-102 | Removing the id of a record just inserted, which no other record shares, gives the list before the insert. |
| TransactionLedger.AddShiftsSummary | script.js:101-106 | After an add, the new record's total moves by its amount. The other total stays put. The balance rises for income and falls for an expense. |
| CsvExport.Rows | script.js:180-181 | The file's lines are the header followed by one line per record, in list order. |
| CsvExport.Line | script.js:181 | A record's line is its four fields, in the order description, amount text, type and date, joined with commas, so its length is theirs plus three. |
| CsvExport.Export | script.js:179-182 | There is no file exactly when the ledger is empty. Otherwise the file is the header and the record lines joined with line feeds. |
| CsvExport.LineFieldCount | script.js:181 | A line splits at its commas into four pieces plus one per comma inside a field. |
| CsvExport.LineFields | script.js:181 | With no comma in any field, a line splits back into exactly its four fields. |
| CsvExport.FileLines | script.js:182 | With no line feed in any field, the file splits back into exactly its lines. |
| Scenarios.RentFirst | script.js:101-102 | A rent dated the 2nd, added after a salary dated the 1st, is listed first. |
| Scenarios.SalaryLessRent | script.js:133-136 | A salary of 1000 and a rent of 400 give income 1000, expense 400 and balance 600. |

## Left out

- The DOM is not modelled: rendering the list, the legend, the doughnut chart, dark mode, the form reset, alerts and the PDF export. Of rendering, only the sign shown before an amount is modelled.
- `toFixed(2)` on displayed amounts and the number-to-text conversion in the CSV are not modelled. The CSV conversion is the parameter `show`.
- JSON serialisation of browser storage is not modelled. The stored list is taken as already decoded, so a corrupt stored value, which makes the page's `JSON.parse` throw, is not modelled.
- `parseFloat`'s reading of the amount field is not modelled: the form carries its result directly.
- TransactionLedger.Ledger.Add: amounts are reals, so floating-point rounding and an infinite amount (which passes the page's checks) are not modelled.
- TransactionLedger.Ledger.Add: the id is a parameter. Two adds within one millisecond would share an id on the page, so uniqueness is never assumed; `DeleteOne` and `DeleteUndoesAdd` state it as a precondition.
- DateOrder.Earlier: a date is ordered by its text. This matches `new Date` only for four-digit-year `YYYY-MM-DD` dates. A non-empty date that `new Date` cannot parse yields NaN and an inconsistent comparator, so it is not modelled.
- Summary.Summarize: the totals are summed in list order as reals, so floating-point rounding is not modelled.
- CsvExport.Export: the Blob, the object URL and the download link are not modelled. The result is the file's text.
