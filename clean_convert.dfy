/** `clean_and_convert`: keep the columns DATE, TEMP, MAX and MIN under new
    names, parse the date and the three readings leniently, drop the rows
    whose date is missing, and stamp every row with the station id. A table
    without one of the four columns gives the empty table.

    The date and number parsers (`pd.to_datetime` and `pd.to_numeric` with
    `errors='coerce'`) are parameters: a failed parse is `None`. */
module CleanConvert {
  import opened Wrappers

  /** One raw row: column name to raw text; an absent key is an empty cell. */
  type Row = map<string, string>

  /** A raw table as `pd.read_csv` returns it: its header and its rows. */
  datatype RawTable = RawTable(columns: seq<string>, rows: seq<Row>)

  /** One normalised row. The date is always present: a row without one is
      never kept. A reading that did not parse is `None`. */
  datatype Record<D, N> = Record(date: D, temp: Option<N>, maxTemp: Option<N>, minTemp: Option<N>, stationId: string)

  /** A normalised table: its column names and its rows. */
  datatype Table<D, N> = Table(columns: seq<string>, rows: seq<Record<D, N>>) {
    /** `DataFrame.empty`: one of the two axes has length zero. */
    predicate IsEmpty() {
      |columns| == 0 || |rows| == 0
    }
  }

  const RequiredColumns: seq<string> := ["DATE", "TEMP", "MAX", "MIN"]
  const OutputColumns: seq<string> := ["date", "temp", "max_temp", "min_temp", "station_id"]

  /** Selecting the four columns succeeds: none of them is missing. */
  predicate HasRequiredColumns(raw: RawTable) {
    forall c :: c in RequiredColumns ==> c in raw.columns
  }

  /** The parsed value of one cell; an empty cell is missing. */
  function Cell<T>(parse: string -> Option<T>, row: Row, column: string): Option<T> {
    if column in row then parse(row[column]) else None
  }

  /** The normalised form of one row, or None when its date is missing. */
  function ConvertRow<D, N>(row: Row, stationId: string, parseDate: string -> Option<D>, parseNum: string -> Option<N>): Option<Record<D, N>> {
    match Cell(parseDate, row, "DATE")
    case None => None
    case Some(d) => Some(Record(d, Cell(parseNum, row, "TEMP"), Cell(parseNum, row, "MAX"), Cell(parseNum, row, "MIN"), stationId))
  }

  /** Converts every row and keeps those with a date, in their order. */
  function ConvertRows<D, N>(rows: seq<Row>, stationId: string, parseDate: string -> Option<D>, parseNum: string -> Option<N>): seq<Record<D, N>> {
    if rows == [] then []
    else
      var rest := ConvertRows(rows[1..], stationId, parseDate, parseNum);
      match ConvertRow(rows[0], stationId, parseDate, parseNum)
      case None => rest
      case Some(r) => [r] + rest
  }

  /** `clean_and_convert(df, station_id)` */
  function CleanAndConvert<D, N>(raw: RawTable, stationId: string, parseDate: string -> Option<D>, parseNum: string -> Option<N>): (t: Table<D, N>)
    ensures HasRequiredColumns(raw) ==> t.columns == OutputColumns
    ensures !HasRequiredColumns(raw) ==> t == Table([], [])
    ensures forall k :: 0 <= k < |t.rows| ==> t.rows[k].stationId == stationId
  {
    if !HasRequiredColumns(raw) then Table([], [])
    else
      var rows := ConvertRows(raw.rows, stationId, parseDate, parseNum);
      ConvertRowsStation(raw.rows, stationId, parseDate, parseNum);
      Table(OutputColumns, rows)
  }

  lemma {:induction false} ConvertRowsStation<D, N>(rows: seq<Row>, stationId: string, parseDate: string -> Option<D>, parseNum: string -> Option<N>)
    ensures forall k :: 0 <= k < |ConvertRows(rows, stationId, parseDate, parseNum)| ==>
              ConvertRows(rows, stationId, parseDate, parseNum)[k].stationId == stationId
  {
    if rows != [] {
      ConvertRowsStation(rows[1..], stationId, parseDate, parseNum);
    }
  }

  /** Reference definition of the filter: the indices of the rows whose
      date parses, in increasing order. */
  function KeptIndices<D>(rows: seq<Row>, parseDate: string -> Option<D>): (idx: seq<nat>)
    ensures forall k :: 0 <= k < |idx| ==> idx[k] < |rows|
    ensures forall k, l :: 0 <= k < l < |idx| ==> idx[k] < idx[l]
    ensures forall i :: 0 <= i < |rows| ==> (i in idx <==> Cell(parseDate, rows[i], "DATE").Some?)
    decreases |rows|
  {
    if rows == [] then []
    else
      var last := |rows| - 1;
      var front := KeptIndices(rows[..last], parseDate);
      if Cell(parseDate, rows[last], "DATE").Some? then front + [last] else front
  }

  /** The conversion of a concatenation is the concatenation of the
      conversions: rows are neither reordered nor merged. */
  lemma {:induction false} ConvertRowsAppend<D, N>(a: seq<Row>, b: seq<Row>, stationId: string, parseDate: string -> Option<D>, parseNum: string -> Option<N>)
    ensures ConvertRows(a + b, stationId, parseDate, parseNum)
         == ConvertRows(a, stationId, parseDate, parseNum) + ConvertRows(b, stationId, parseDate, parseNum)
    decreases |a|
  {
    if a == [] {
      assert a + b == b;
    } else {
      assert (a + b)[0] == a[0];
      assert (a + b)[1..] == a[1..] + b;
      ConvertRowsAppend(a[1..], b, stationId, parseDate, parseNum);
    }
  }

  /** The converted rows are exactly the conversions of the rows listed by
      KeptIndices, in that order: a stable filter. */
  lemma {:induction false} ConvertRowsKept<D, N>(rows: seq<Row>, stationId: string, parseDate: string -> Option<D>, parseNum: string -> Option<N>)
    ensures |ConvertRows(rows, stationId, parseDate, parseNum)| == |KeptIndices(rows, parseDate)|
    ensures forall k :: 0 <= k < |KeptIndices(rows, parseDate)| ==>
              ConvertRow(rows[KeptIndices(rows, parseDate)[k]], stationId, parseDate, parseNum)
              == Some(ConvertRows(rows, stationId, parseDate, parseNum)[k])
    decreases |rows|
  {
    if rows != [] {
      var last := |rows| - 1;
      var front := rows[..last];
      var conv, convFront := ConvertRows(rows, stationId, parseDate, parseNum), ConvertRows(front, stationId, parseDate, parseNum);
      var idx, idxFront := KeptIndices(rows, parseDate), KeptIndices(front, parseDate);
      assert rows == front + [rows[last]];
      ConvertRowsKept(front, stationId, parseDate, parseNum);
      ConvertRowsAppend(front, [rows[last]], stationId, parseDate, parseNum);
      assert [rows[last]][1..] == [];
      forall k | 0 <= k < |idxFront|
        ensures rows[idxFront[k]] == front[idxFront[k]]
      {
      }
      if Cell(parseDate, rows[last], "DATE").Some? {
        assert idx == idxFront + [last];
        assert conv == convFront + [ConvertRow(rows[last], stationId, parseDate, parseNum).value];
      } else {
        assert idx == idxFront;
        assert conv == convFront;
      }
    }
  }

  /** The rows of the normalised table are exactly those input rows whose
      date parses, in their original order, each with its parsed readings
      and the station id. */
  lemma CleanAndConvertRows<D, N>(raw: RawTable, stationId: string, parseDate: string -> Option<D>, parseNum: string -> Option<N>)
    requires HasRequiredColumns(raw)
    ensures var t := CleanAndConvert(raw, stationId, parseDate, parseNum);
            var idx := KeptIndices(raw.rows, parseDate);
            |t.rows| == |idx| &&
            forall k :: 0 <= k < |idx| ==> ConvertRow(raw.rows[idx[k]], stationId, parseDate, parseNum) == Some(t.rows[k])
  {
    ConvertRowsKept(raw.rows, stationId, parseDate, parseNum);
  }

  /** A row whose date parses is kept, whatever its readings: a reading that
      did not parse is missing, the others keep their parsed values. */
  lemma RowWithDateKept<D, N>(raw: RawTable, stationId: string, parseDate: string -> Option<D>, parseNum: string -> Option<N>, i: nat)
    requires HasRequiredColumns(raw)
    requires i < |raw.rows| && Cell(parseDate, raw.rows[i], "DATE").Some?
    ensures var t := CleanAndConvert(raw, stationId, parseDate, parseNum);
            var row := raw.rows[i];
            exists k :: 0 <= k < |t.rows| && t.rows[k] ==
              Record(Cell(parseDate, row, "DATE").value, Cell(parseNum, row, "TEMP"),
                     Cell(parseNum, row, "MAX"), Cell(parseNum, row, "MIN"), stationId)
  {
    CleanAndConvertRows(raw, stationId, parseDate, parseNum);
    var idx := KeptIndices(raw.rows, parseDate);
    var k :| 0 <= k < |idx| && idx[k] == i;
    assert ConvertRow(raw.rows[idx[k]], stationId, parseDate, parseNum) == Some(CleanAndConvert(raw, stationId, parseDate, parseNum).rows[k]);
  }

  /** The normalised table is empty exactly when a required column is
      missing or no row has a date that parses. */
  lemma CleanAndConvertEmpty<D, N>(raw: RawTable, stationId: string, parseDate: string -> Option<D>, parseNum: string -> Option<N>)
    ensures CleanAndConvert(raw, stationId, parseDate, parseNum).IsEmpty() <==>
            (!HasRequiredColumns(raw) || forall i :: 0 <= i < |raw.rows| ==> Cell(parseDate, raw.rows[i], "DATE").None?)
  {
    if HasRequiredColumns(raw) {
      CleanAndConvertRows(raw, stationId, parseDate, parseNum);
      var idx := KeptIndices(raw.rows, parseDate);
      if |idx| > 0 {
        assert idx[0] in idx;
      }
    }
  }
}
