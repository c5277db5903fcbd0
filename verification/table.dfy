/** The in-memory game table: a data frame whose rows map column names to
    cells, in a fixed column order. */
module Table {
  import opened Sequences

  datatype Option<T> = None | Some(value: T)

  /** The option that stands for "no filter" (and "no sorting"). */
  const NoFilter := "None"

  /** One cell of the table: pandas' missing value (NaN), a string, a number
      or a boolean (the platform columns). */
  datatype Cell = Missing | Text(text: string) | Number(number: real) | Flag(flag: bool)

  type Row = map<string, Cell>

  /** A data frame: its column names in order and its rows in order. */
  datatype Frame = Frame(columns: seq<string>, rows: seq<Row>)

  /** The frame `pd.DataFrame()` builds: no columns, no rows. */
  const EmptyFrame := Frame([], [])

  /** Every row has exactly the frame's columns. */
  predicate WellFormed(f: Frame)
  {
    forall k :: 0 <= k < |f.rows| ==> f.rows[k].Keys == set c | c in f.columns
  }

  /** Every column of `cols` is a column of `f`; looking up any other column
      raises `KeyError`. */
  predicate HasColumns(f: Frame, cols: seq<string>)
  {
    forall c :: c in cols ==> c in f.columns
  }

  /** The cell of column `c`, missing when the row has no such column. */
  function Field(row: Row, c: string): Cell
  {
    if c in row then row[c] else Missing
  }

  /** The row as `to_numpy().tolist()` gives it: its cells in column order. */
  function Values(columns: seq<string>, row: Row): seq<Cell>
  {
    Map(columns, c => Field(row, c))
  }

  /** The row that `pd.DataFrame(values, columns=columns)` builds from one
      list of values. */
  function FromValues(columns: seq<string>, values: seq<Cell>): (row: Row)
    requires Distinct(columns) && |values| == |columns|
    ensures row.Keys == set c | c in columns
  {
    map i | 0 <= i < |columns| :: columns[i] := values[i]
  }

  /** Reading back a row built from values gives the values. */
  lemma ValuesOfFromValues(columns: seq<string>, values: seq<Cell>)
    requires Distinct(columns) && |values| == |columns|
    ensures Values(columns, FromValues(columns, values)) == values
  {
    var row := FromValues(columns, values);
    forall i | 0 <= i < |columns|
      ensures Values(columns, row)[i] == values[i]
    {
      assert columns[i] in row;
    }
  }

  /** Building a row from its values in column order gives the row back. */
  lemma FromValuesOfValues(columns: seq<string>, row: Row)
    requires Distinct(columns) && row.Keys == set c | c in columns
    ensures FromValues(columns, Values(columns, row)) == row
  {
    var back := FromValues(columns, Values(columns, row));
    forall c | c in row
      ensures c in back && back[c] == row[c]
    {
      var i :| 0 <= i < |columns| && columns[i] == c;
    }
  }
}
