/**
 * Cells, rows and timestamps of the catalog spreadsheet, as the scheduler and
 * the catalog manager read them once the loader has filled in missing columns
 * and coerced the date columns.
 */
module Table {
  import opened Wrappers
  import opened Text

  /** Seconds in a day: `timedelta(days=1)`. Instants are whole seconds. */
  const Day: int := 86400

  /** A non-empty cell: text, a whole number, a boolean or an instant. */
  datatype Value = Str(s: string) | Number(n: int) | Flag(b: bool) | Stamp(t: int)

  /** One spreadsheet row: column name to cell, `None` being an empty (Python `None`) cell. */
  type Row = map<string, Option<Value>>

  /** `row.get(col)`: a column the row does not have reads as `None`. */
  function Get(row: Row, col: string): Option<Value> {
    if col in row then row[col] else None
  }

  /** `str(v)`; an instant is rendered as its number of seconds. */
  function ToText(v: Value): string {
    match v
    case Str(s) => s
    case Number(n) => ShowInt(n)
    case Flag(b) => if b then "True" else "False"
    case Stamp(t) => ShowInt(t)
  }

  /** `str(cell)`, which renders an empty cell as `"None"`. */
  function CellText(c: Option<Value>): string {
    match c
    case None => "None"
    case Some(v) => ToText(v)
  }

  /** Python truthiness of a cell, as used by `cell or default`. */
  predicate Truthy(c: Option<Value>) {
    match c
    case None => false
    case Some(Str(s)) => s != ""
    case Some(Number(n)) => n != 0
    case Some(Flag(b)) => b
    case Some(Stamp(_)) => true
  }

  /** `pd.to_datetime(cell, errors="coerce")` on a date column: an instant, or `None` for NaT. */
  function AsTime(c: Option<Value>): Option<int> {
    match c
    case Some(Stamp(t)) => Some(t)
    case _ => None
  }
}
