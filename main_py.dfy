/**
 * The Python extractor, `MsPCLatencyAnalyzer.process_csv_file`: the file is
 * read through `csv.DictReader`, the latency column is chosen by name with
 * `MsPCLatency` preferred, and every row whose cell converts with `float()`
 * contributes one value. A conversion that fails with `ValueError` skips the
 * row; any other exception abandons the whole file.
 */
module PyLatency {
  import opened Wrappers
  import opened Latency

  /**
   * A row as `csv.DictReader` yields it: field name to cell text, where a row
   * shorter than the header gets `None` for each missing cell.
   */
  type Row = map<string, Option<string>>

  /**
   * The column read: `MsPCLatency` whenever it is a field name, otherwise
   * `AllInputToPhotonLatency` when that is one, otherwise none.
   */
  function ChooseColumn(fieldnames: seq<string>): (r: Option<string>)
    ensures r == Some(MsPCLatency) <==> MsPCLatency in fieldnames
    ensures r == Some(AllInputToPhotonLatency)
            <==> MsPCLatency !in fieldnames && AllInputToPhotonLatency in fieldnames
    ensures r.None? <==> MsPCLatency !in fieldnames && AllInputToPhotonLatency !in fieldnames
  {
    if MsPCLatency in fieldnames then Some(MsPCLatency)
    else if AllInputToPhotonLatency in fieldnames then Some(AllInputToPhotonLatency)
    else None
  }

  /** What `float(row[col])` does. */
  datatype Conversion =
    | Converted(value: real)
    | ValueError     // the cell is text that is not a number
    | OtherError     // any other exception: no such key, or a missing cell (`float(None)`)

  function ConvertCell(row: Row, col: string, float: string -> Option<real>): (r: Conversion)
    ensures r.OtherError? <==> col !in row || row[col].None?
    ensures r.Converted? ==> col in row && row[col].Some? && float(row[col].value) == Some(r.value)
    ensures r.ValueError? <==> col in row && row[col].Some? && float(row[col].value).None?
  {
    if col !in row then OtherError
    else
      match row[col]
      case None => OtherError
      case Some(text) =>
        match float(text)
        case None => ValueError
        case Some(v) => Converted(v)
  }

  /** The converted values of `rows` in order, or `None` once a row raised anything but `ValueError`. */
  function Convert(rows: seq<Row>, col: string, float: string -> Option<real>): (r: Option<seq<real>>)
    ensures r.Some? ==> |r.value| <= |rows|
    ensures r.Some? ==> forall i :: 0 <= i < |rows| ==> !ConvertCell(rows[i], col, float).OtherError?
  {
    if |rows| == 0 then Some([])
    else
      match Convert(rows[..|rows| - 1], col, float)
      case None => None
      case Some(values) =>
        match ConvertCell(rows[|rows| - 1], col, float)
        case OtherError => None
        case ValueError => Some(values)
        case Converted(v) => Some(values + [v])
  }

  /** The value a row contributes when the file is not abandoned. */
  function RowValue(col: string, float: string -> Option<real>): Row -> Option<real> {
    row => match ConvertCell(row, col, float) { case Converted(v) => Some(v) case _ => None }
  }

  /**
   * What `process_csv_file` computes. `fieldnames` is `None` for an empty file,
   * where the membership test on `None` raises `TypeError`.
   */
  function Analyze(fieldnames: Option<seq<string>>, rows: seq<Row>, float: string -> Option<real>): (r: Outcome)
    ensures r != EmptyOrHeaderOnly
    ensures fieldnames.None? ==> r == UnexpectedFailure
    ensures r.Success? ==> r.result.min <= r.result.mean <= r.result.max
  {
    match fieldnames
    case None => UnexpectedFailure
    case Some(names) =>
      match ChooseColumn(names)
      case None => LatencyColumnNotFound
      case Some(col) =>
        match Convert(rows, col, float)
        case None => UnexpectedFailure
        case Some(values) =>
          if |values| == 0 then NoValidNumericValues else Success(Summarize(values))
  }

  /** Once a row has abandoned the file, later rows cannot bring it back. */
  lemma {:induction false} ConvertAbandoned(rows: seq<Row>, more: seq<Row>, col: string, float: string -> Option<real>)
    requires Convert(rows, col, float).None?
    ensures Convert(rows + more, col, float).None?
  {
    if |more| == 0 {
      assert rows + more == rows;
    } else {
      var more' := more[..|more| - 1];
      assert (rows + more)[..|rows + more| - 1] == rows + more';
      ConvertAbandoned(rows, more', col, float);
    }
  }

  /**
   * The file is abandoned exactly when some row raises an exception other than
   * `ValueError`; otherwise the values are those of the rows that converted, in order.
   */
  lemma {:induction false} ConvertCases(rows: seq<Row>, col: string, float: string -> Option<real>)
    ensures Convert(rows, col, float).None? <==> exists i :: 0 <= i < |rows| && ConvertCell(rows[i], col, float).OtherError?
    ensures Convert(rows, col, float).Some? ==> Convert(rows, col, float).value == Collect(rows, RowValue(col, float))
  {
    if |rows| > 0 {
      var rows' := rows[..|rows| - 1];
      ConvertCases(rows', col, float);
      assert forall i :: 0 <= i < |rows'| ==> rows'[i] == rows[i];
      if ConvertCell(rows[|rows| - 1], col, float).OtherError? {
        assert Convert(rows, col, float).None?;
      } else if exists i :: 0 <= i < |rows| && ConvertCell(rows[i], col, float).OtherError? {
        var i :| 0 <= i < |rows| && ConvertCell(rows[i], col, float).OtherError?;
        assert rows'[i] == rows[i];
      }
    }
  }

  /**
   * `process_csv_file` over the rows `DictReader` yields: `fieldnames` as in
   * `Analyze`, `float` stands for Python's `float()` on text, with `None` where it
   * raises `ValueError`.
   */
  method ProcessCsvFile(fieldnames: Option<seq<string>>, rows: seq<Row>, float: string -> Option<real>)
    returns (r: Outcome)
    ensures r == Analyze(fieldnames, rows, float)
  {
    if fieldnames.None? {
      return UnexpectedFailure;
    }
    var latencyColumn: string;
    if MsPCLatency in fieldnames.value {
      latencyColumn := MsPCLatency;
    } else if AllInputToPhotonLatency in fieldnames.value {
      latencyColumn := AllInputToPhotonLatency;
    } else {
      return LatencyColumnNotFound;
    }

    var values: seq<real> := [];
    for i := 0 to |rows|
      invariant Convert(rows[..i], latencyColumn, float) == Some(values)
    {
      var row := rows[i];
      assert rows[..i + 1][..i] == rows[..i];
      if latencyColumn !in row || row[latencyColumn].None? {
        ConvertAbandoned(rows[..i + 1], rows[i + 1..], latencyColumn, float);
        assert rows[..i + 1] + rows[i + 1..] == rows;
        return UnexpectedFailure;
      }
      var latency := float(row[latencyColumn].value);
      if latency.Some? {
        values := values + [latency.value];
      }
    }
    assert rows[..|rows|] == rows;

    if |values| == 0 {
      return NoValidNumericValues;
    }
    return Success(Summarize(values));
  }

  /**
   * Each outcome happens exactly when its cause is present. An empty file
   * fails unexpectedly, a file without either column is reported as such, a
   * row that raises anything but `ValueError` abandons the file, and a file
   * whose every row raised `ValueError`, or that has no rows, has no values.
   * The header-only failure of the C# version never happens here.
   */
  lemma AnalyzeOutcomes(fieldnames: Option<seq<string>>, rows: seq<Row>, float: string -> Option<real>)
    ensures Analyze(fieldnames, rows, float) != EmptyOrHeaderOnly
    ensures Analyze(fieldnames, rows, float) == LatencyColumnNotFound
            <==> fieldnames.Some? && MsPCLatency !in fieldnames.value && AllInputToPhotonLatency !in fieldnames.value
    ensures Analyze(fieldnames, rows, float) == UnexpectedFailure
            <==> || fieldnames.None?
                 || (&& ChooseColumn(fieldnames.value).Some?
                     && exists i :: 0 <= i < |rows| && ConvertCell(rows[i], ChooseColumn(fieldnames.value).value, float).OtherError?)
    ensures Analyze(fieldnames, rows, float) == NoValidNumericValues
            <==> && fieldnames.Some?
                 && ChooseColumn(fieldnames.value).Some?
                 && forall i :: 0 <= i < |rows| ==> ConvertCell(rows[i], ChooseColumn(fieldnames.value).value, float).ValueError?
  {
    if fieldnames.Some? && ChooseColumn(fieldnames.value).Some? {
      var col := ChooseColumn(fieldnames.value).value;
      ConvertCases(rows, col, float);
      if Convert(rows, col, float).Some? {
        var cell := RowValue(col, float);
        CollectEmpty(rows, cell);
        assert forall i :: 0 <= i < |rows| ==> (cell(rows[i]).None? <==> !ConvertCell(rows[i], col, float).Converted?);
      }
    }
  }

  /**
   * A row whose cell is missing (`None`, which `float()` rejects with
   * `TypeError`) abandons the whole file, whatever the other rows hold.
   */
  lemma MissingCellAbandonsFile(names: seq<string>, rows: seq<Row>, i: nat, float: string -> Option<real>)
    requires ChooseColumn(names).Some? && i < |rows|
    requires ChooseColumn(names).value in rows[i] && rows[i][ChooseColumn(names).value] == None
    ensures Analyze(Some(names), rows, float) == UnexpectedFailure
  {
  }

  /**
   * On success the minimum and the maximum are converted cells of some rows,
   * every converted cell lies between them, and so does the mean.
   */
  lemma AnalyzeSuccess(fieldnames: Option<seq<string>>, rows: seq<Row>, float: string -> Option<real>)
    requires Analyze(fieldnames, rows, float).Success?
    ensures fieldnames.Some? && ChooseColumn(fieldnames.value).Some?
    ensures var res, col := Analyze(fieldnames, rows, float).result, ChooseColumn(fieldnames.value).value;
      && (exists i :: 0 <= i < |rows| && ConvertCell(rows[i], col, float) == Converted(res.min))
      && (exists i :: 0 <= i < |rows| && ConvertCell(rows[i], col, float) == Converted(res.max))
      && (forall i :: 0 <= i < |rows| && ConvertCell(rows[i], col, float).Converted? ==>
            res.min <= ConvertCell(rows[i], col, float).value <= res.max)
      && res.min <= res.mean <= res.max
  {
    var res, col := Analyze(fieldnames, rows, float).result, ChooseColumn(fieldnames.value).value;
    var cell := RowValue(col, float);
    ConvertCases(rows, col, float);
    var values := Collect(rows, cell);
    assert res == Summarize(values);
    CollectMember(rows, cell, res.min);
    CollectMember(rows, cell, res.max);
    forall i | 0 <= i < |rows| && ConvertCell(rows[i], col, float).Converted?
      ensures res.min <= ConvertCell(rows[i], col, float).value <= res.max
    {
      var v := ConvertCell(rows[i], col, float).value;
      assert cell(rows[i]) == Some(v);
      CollectMember(rows, cell, v);
    }
  }

  /** A row raising `ValueError` changes nothing about the conversion, wherever it stands. */
  lemma {:induction false} ConvertSkipsValueError(s: seq<Row>, x: Row, t: seq<Row>, col: string, float: string -> Option<real>)
    requires ConvertCell(x, col, float).ValueError?
    ensures Convert(s + [x] + t, col, float) == Convert(s + t, col, float)
  {
    if |t| == 0 {
      assert (s + [x] + t)[..|s|] == s;
      assert s + t == s;
    } else {
      var t' := t[..|t| - 1];
      ConvertSkipsValueError(s, x, t', col, float);
      assert (s + [x] + t)[..|s + [x] + t| - 1] == s + [x] + t';
      assert (s + t)[..|s + t| - 1] == s + t';
    }
  }

  /** A row whose cell raises `ValueError` may be inserted anywhere without changing the outcome. */
  lemma ValueErrorRowIgnored(names: seq<string>, rows: seq<Row>, k: nat, row: Row, float: string -> Option<real>)
    requires k <= |rows|
    requires ChooseColumn(names).Some? ==> ConvertCell(row, ChooseColumn(names).value, float).ValueError?
    ensures Analyze(Some(names), rows[..k] + [row] + rows[k..], float) == Analyze(Some(names), rows, float)
  {
    if ChooseColumn(names).Some? {
      assert rows == rows[..k] + rows[k..];
      ConvertSkipsValueError(rows[..k], row, rows[k..], ChooseColumn(names).value, float);
    }
  }
}
