/** The record shape and sort state shared by the front end. */
module Types {
  import opened Wrappers
  import opened Ordering

  /** One row of the table. Money amounts are whole numbers here. */
  datatype Data = Data(
    date: string,
    revenue: int,
    netIncome: int,
    grossProfit: int,
    eps: int,
    operatingIncome: int)

  /** The columns a user can sort or filter by. */
  datatype OperationalColumn = Date | Revenue | NetIncome

  /** The active sort: a column and a direction, or neither. */
  datatype SortedColumn = SortedColumn(name: Option<OperationalColumn>, asc: Option<bool>)

  /** The column's key in a record, as sent in query strings. */
  function ColumnName(c: OperationalColumn): string {
    match c
    case Date => "date"
    case Revenue => "revenue"
    case NetIncome => "netIncome"
  }

  /** `x[column]`: the date is text, the other two columns numbers. */
  function Value(x: Data, c: OperationalColumn): Key {
    match c
    case Date => Str(x.date)
    case Revenue => Num(x.revenue)
    case NetIncome => Num(x.netIncome)
  }

  function ValueOf(c: OperationalColumn): Data -> Key {
    (x: Data) => Value(x, c)
  }
}
