/** The ledger's data: one transaction record, and the raw values of the
    add form from which a record is built. */
module Records {

  datatype Option<T> = None | Some(value: T)

  /** One recorded income or expense, as the page keeps it in its
      `transactions` array. `id` is the creation time in milliseconds that
      the add handler reads from the clock; `kind` is the form's type field
      ("income" or "expense" from the page's selector, but never checked);
      `date` is the date field's text, "YYYY-MM-DD". */
  datatype Transaction = Transaction(
    id: int,
    description: string,
    amount: real,
    kind: string,
    date: string)

  /** What the add handler reads from the form: the description as typed,
      the amount after `parseFloat` (`None` when it is NaN), the type and the
      date field's text ("" when no date was picked). */
  datatype Form = Form(
    description: string,
    amount: Option<real>,
    kind: string,
    date: string)
}
