/** A worked example: a salary on the 1st of January and the rent on the
    2nd, added in that order, whatever their descriptions. */
module Scenarios {
  import opened Records
  import opened DateOrder
  import opened Summary

  function Salary(text: string): Transaction
  {
    Transaction(1, text, 1000.0, "income", "2024-01-01")
  }

  function Rent(text: string): Transaction
  {
    Transaction(2, text, 400.0, "expense", "2024-01-02")
  }

  /** The rent, dated the 2nd, sorts before the salary, dated the 1st. */
  lemma RentFirst(salaryText: string, rentText: string)
    ensures SortByDate([Salary(salaryText)] + [Rent(rentText)]) == [Rent(rentText), Salary(salaryText)]
  {
    var d1, d2 := "2024-01-01", "2024-01-02";
    assert d1[..9] == d2[..9];
    EarlierAt(d1, d2, 9);
    assert ([Salary(salaryText)] + [Rent(rentText)])[..1] == [Salary(salaryText)];
  }

  /** The salary and the rent leave a balance of 600. */
  lemma SalaryLessRent(salaryText: string, rentText: string)
    ensures Summarize([Rent(rentText), Salary(salaryText)]) == Totals(1000.0, 400.0, 600.0)
  {
    var salary, rent := Salary(salaryText), Rent(rentText);
    SummaryAppend([], rent);
    SummaryAppend([rent], salary);
    assert [] + [rent] == [rent] && [rent] + [salary] == [rent, salary];
  }
}
