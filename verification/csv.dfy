/** The CSV export button: nothing for an empty ledger, otherwise a header
    line and one comma-separated line per record, in list order, joined with
    line feeds. Fields are written as they are, without quoting. The text of
    an amount is JavaScript's conversion of a number to a string; that
    conversion is a parameter here, `show`. */
module CsvExport {
  import opened Records
  import opened Text

  const Header: string := "Description,Amount,Type,Date"

  /** The line `${t.description},${t.amount},${t.type},${t.date}`: the four
      fields of a record joined with commas. */
  function Line(t: Transaction, show: real -> string): (line: string)
    ensures line == Join([t.description, show(t.amount), t.kind, t.date], ',')
    ensures |line| == |t.description| + |show(t.amount)| + |t.kind| + |t.date| + 3
  {
    var d, m, k, e := t.description, show(t.amount), t.kind, t.date;
    assert [d, m, k, e] == [d] + ([m] + ([k] + [e]));
    assert Join([e], ',') == e;
    JoinCons(k, [e], ',');
    JoinCons(m, [k] + [e], ',');
    JoinCons(d, [m] + ([k] + [e]), ',');
    d + "," + m + "," + k + "," + e
  }

  /** The lines of the file: the header, then one line per record. */
  function Rows(ts: seq<Transaction>, show: real -> string): (rows: seq<string>)
    ensures |rows| == |ts| + 1 && rows[0] == Header
    ensures forall i :: 0 <= i < |ts| ==> rows[i + 1] == Line(ts[i], show)
  {
    [Header] + seq(|ts|, i requires 0 <= i < |ts| => Line(ts[i], show))
  }

  lemma RowsPush(ts: seq<Transaction>, show: real -> string)
    requires ts != []
    ensures Rows(ts, show) == Rows(ts[..|ts| - 1], show) + [Line(ts[|ts| - 1], show)]
  {
  }

  /** The export button: `None` (an alert and no file) for an empty list,
      otherwise the text of the file. */
  method Export(ts: seq<Transaction>, show: real -> string) returns (file: Option<string>)
    ensures ts == [] <==> file.None?
    ensures file.Some? ==> file.value == Join(Rows(ts, show), '\n')
  {
    if |ts| == 0 {
      return None;
    }
    var rows := [Header];
    var i := 0;
    while i < |ts|
      invariant 0 <= i <= |ts|
      invariant rows == Rows(ts[..i], show)
    {
      RowsPush(ts[..i + 1], show);
      assert ts[..i + 1][..i] == ts[..i];
      rows := rows + [Line(ts[i], show)];
      i := i + 1;
    }
    assert ts[..i] == ts;
    file := Some(Join(rows, '\n'));
  }

  /** How many pieces a line splits into at its commas: four, plus one for
      every comma inside a field. A description with a comma in it therefore
      reads back as more than four fields. */
  lemma LineFieldCount(t: Transaction, show: real -> string)
    ensures |Split(Line(t, show), ',')| ==
            4 + multiset(t.description)[','] + multiset(show(t.amount))[',']
              + multiset(t.kind)[','] + multiset(t.date)[',']
  {
    assert Line(t, show) ==
           t.description + [','] + show(t.amount) + [','] + t.kind + [','] + t.date;
  }

  /** When no field holds a comma, a line splits back into exactly its four
      fields. */
  lemma LineFields(t: Transaction, show: real -> string)
    requires ',' !in t.description && ',' !in show(t.amount)
    requires ',' !in t.kind && ',' !in t.date
    ensures Split(Line(t, show), ',') == [t.description, show(t.amount), t.kind, t.date]
  {
    var fields := [t.description, show(t.amount), t.kind, t.date];
    forall i | 0 <= i < |fields| ensures ',' !in fields[i] {
    }
    SplitJoin(fields, ',');
  }

  /** When no field holds a line feed, the exported text splits back into
      exactly its lines: `|ts| + 1` of them, the header first, then the
      records' lines in list order. */
  lemma FileLines(ts: seq<Transaction>, show: real -> string)
    requires forall t :: t in ts ==>
               '\n' !in t.description && '\n' !in show(t.amount)
               && '\n' !in t.kind && '\n' !in t.date
    ensures Split(Join(Rows(ts, show), '\n'), '\n') == Rows(ts, show)
  {
    var rows := Rows(ts, show);
    forall k | 0 <= k < |rows| ensures '\n' !in rows[k] {
      if k > 0 {
        var t := ts[k - 1];
        assert t in ts;
        assert rows[k] == t.description + [','] + show(t.amount) + [','] + t.kind + [','] + t.date;
      }
    }
    SplitJoin(rows, '\n');
  }
}
