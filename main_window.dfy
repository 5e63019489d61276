/**
 * The C# extractor, `MainWindow.ProcessCsvFile`: the lines of a CSV file are
 * split on commas, the latency column is the first header that names one of
 * the two recognised columns once its quotes are trimmed, and every data row
 * whose cell in that column is present, not `NA` and parses contributes one
 * value.
 */
module CsLatency {
  import opened Wrappers
  import opened Text
  import opened Latency

  /** A quote-trimmed header that names the latency column. */
  predicate IsLatencyHeader(header: string) {
    header == AllInputToPhotonLatency || header == MsPCLatency
  }

  /** `field.Trim('"')`. */
  function Unquote(field: string): string {
    Trim(field, '"')
  }

  /** A raw header field that names the latency column once unquoted. */
  predicate IsLatencyField(field: string) {
    IsLatencyHeader(Unquote(field))
  }

  /**
   * The index of the first header field whose unquoted text names the latency
   * column; later matches are ignored. `None` when no field matches.
   */
  function LatencyColumn(headers: seq<string>): (r: Option<nat>)
    ensures r.Some? ==> r.value < |headers| && IsLatencyField(headers[r.value])
    ensures r.Some? ==> forall j :: 0 <= j < r.value ==> !IsLatencyField(headers[j])
    ensures r.None? <==> forall j :: 0 <= j < |headers| ==> !IsLatencyField(headers[j])
  {
    FirstMatch(headers, IsLatencyField)
  }

  /**
   * The value a data line contributes: nothing when it has too few fields,
   * when its unquoted cell is the missing-value marker `NA`, or when the cell
   * does not parse.
   */
  function CellValue(line: string, col: nat, tryParse: string -> Option<real>): (r: Option<real>)
    ensures r.None? <==> Skipped(line, col, tryParse)
    ensures r.Some? ==> col < |Split(line, ',')| && r == tryParse(Unquote(Split(line, ',')[col]))
  {
    var columns := Split(line, ',');
    if |columns| <= col then None
    else
      var value := Unquote(columns[col]);
      if value == "NA" then None else tryParse(value)
  }

  function CellOf(col: nat, tryParse: string -> Option<real>): string -> Option<real> {
    line => CellValue(line, col, tryParse)
  }

  /** The header fields of a file: its first line split on commas. */
  function Headers(lines: seq<string>): seq<string>
    requires |lines| > 0
  {
    Split(lines[0], ',')
  }

  /** The values of the latency column `col`, from lines 1 onwards, in order. */
  function ColumnValues(lines: seq<string>, col: nat, tryParse: string -> Option<real>): seq<real>
    requires |lines| > 0
  {
    Collect(lines[1..], CellOf(col, tryParse))
  }

  /** What `ProcessCsvFile` computes from the lines of a file that could be read. */
  function Extract(lines: seq<string>, tryParse: string -> Option<real>): (r: Outcome)
    ensures r != UnexpectedFailure
    ensures r.Success? ==> |lines| >= 2 && r.result.min <= r.result.mean <= r.result.max
  {
    if |lines| < 2 then EmptyOrHeaderOnly
    else
      match LatencyColumn(Headers(lines))
      case None => LatencyColumnNotFound
      case Some(col) =>
        var values := ColumnValues(lines, col, tryParse);
        if |values| == 0 then NoValidNumericValues else Success(Summarize(values))
  }

  /**
   * A data line that contributes nothing: it has no field at `col`, or its
   * unquoted cell there is `NA`, or that cell does not parse.
   */
  predicate Skipped(line: string, col: nat, tryParse: string -> Option<real>) {
    var columns := Split(line, ',');
    col >= |columns| || Unquote(columns[col]) == "NA" || tryParse(Unquote(columns[col])).None?
  }

  /**
   * Each failure kind happens exactly when its cause is present: too few
   * lines; no header names the latency column; or no data line has an accepted
   * cell in that column.
   */
  lemma ExtractFailures(lines: seq<string>, tryParse: string -> Option<real>)
    ensures Extract(lines, tryParse) == EmptyOrHeaderOnly <==> |lines| < 2
    ensures Extract(lines, tryParse) == LatencyColumnNotFound
            <==> |lines| >= 2 && forall j :: 0 <= j < |Headers(lines)| ==> !IsLatencyField(Headers(lines)[j])
    ensures Extract(lines, tryParse) == NoValidNumericValues
            <==> && |lines| >= 2
                 && LatencyColumn(Headers(lines)).Some?
                 && forall i :: 1 <= i < |lines| ==> Skipped(lines[i], LatencyColumn(Headers(lines)).value, tryParse)
    ensures Extract(lines, tryParse) != UnexpectedFailure
  {
    if |lines| >= 2 && LatencyColumn(Headers(lines)).Some? {
      var col := LatencyColumn(Headers(lines)).value;
      var cell := CellOf(col, tryParse);
      CollectEmpty(lines[1..], cell);
      assert forall i :: 1 <= i < |lines| ==> (cell(lines[1..][i - 1]).None? <==> Skipped(lines[i], col, tryParse));
      assert forall k :: 0 <= k < |lines[1..]| ==> (cell(lines[1..][k]).None? <==> Skipped(lines[k + 1], col, tryParse));
    }
  }

  /**
   * On success the minimum and the maximum are values of accepted cells of data
   * lines, every accepted cell lies between them, and so does the mean.
   */
  lemma ExtractSuccess(lines: seq<string>, tryParse: string -> Option<real>)
    requires Extract(lines, tryParse).Success?
    ensures |lines| >= 2 && LatencyColumn(Headers(lines)).Some?
    ensures var res, col := Extract(lines, tryParse).result, LatencyColumn(Headers(lines)).value;
      && (exists i :: 1 <= i < |lines| && CellValue(lines[i], col, tryParse) == Some(res.min))
      && (exists i :: 1 <= i < |lines| && CellValue(lines[i], col, tryParse) == Some(res.max))
      && (forall i :: 1 <= i < |lines| && CellValue(lines[i], col, tryParse).Some? ==>
            res.min <= CellValue(lines[i], col, tryParse).value <= res.max)
      && res.min <= res.mean <= res.max
  {
    var res, col := Extract(lines, tryParse).result, LatencyColumn(Headers(lines)).value;
    var cell := CellOf(col, tryParse);
    var data := lines[1..];
    var values := Collect(data, cell);
    assert res == Summarize(values);
    CollectMember(data, cell, res.min);
    CollectMember(data, cell, res.max);
    var k :| 0 <= k < |data| && cell(data[k]) == Some(res.min);
    assert CellValue(lines[k + 1], col, tryParse) == Some(res.min);
    var m :| 0 <= m < |data| && cell(data[m]) == Some(res.max);
    assert CellValue(lines[m + 1], col, tryParse) == Some(res.max);
    forall i | 1 <= i < |lines| && CellValue(lines[i], col, tryParse).Some?
      ensures res.min <= CellValue(lines[i], col, tryParse).value <= res.max
    {
      var v := CellValue(lines[i], col, tryParse).value;
      assert cell(data[i - 1]) == Some(v);
      CollectMember(data, cell, v);
    }
  }

  /**
   * When every data line has an accepted cell, the summary covers all of them:
   * one value per data line, in line order.
   */
  lemma AllCellsAccepted(lines: seq<string>, tryParse: string -> Option<real>)
    requires |lines| >= 2 && LatencyColumn(Headers(lines)).Some?
    requires forall i :: 1 <= i < |lines| ==> !Skipped(lines[i], LatencyColumn(Headers(lines)).value, tryParse)
    ensures var col := LatencyColumn(Headers(lines)).value; var values := ColumnValues(lines, col, tryParse);
      && |values| == |lines| - 1
      && (forall k :: 0 <= k < |values| ==> Some(values[k]) == CellValue(lines[k + 1], col, tryParse))
      && Extract(lines, tryParse) == Success(Summarize(values))
  {
    var col := LatencyColumn(Headers(lines)).value;
    var cell := CellOf(col, tryParse);
    assert forall k :: 0 <= k < |lines[1..]| ==> cell(lines[1..][k]) == CellValue(lines[k + 1], col, tryParse);
    CollectAll(lines[1..], cell);
  }

  /**
   * Inserting a data line that contributes nothing (too short, `NA`, or not a
   * number) anywhere after the header leaves the outcome unchanged.
   */
  lemma SkippedLineIgnored(lines: seq<string>, k: nat, line: string, tryParse: string -> Option<real>)
    requires |lines| >= 2 && 1 <= k <= |lines|
    requires LatencyColumn(Headers(lines)).Some? ==> Skipped(line, LatencyColumn(Headers(lines)).value, tryParse)
    ensures Extract(lines[..k] + [line] + lines[k..], tryParse) == Extract(lines, tryParse)
  {
    var lines' := lines[..k] + [line] + lines[k..];
    assert lines'[0] == lines[0];
    if LatencyColumn(Headers(lines)).Some? {
      var col := LatencyColumn(Headers(lines)).value;
      assert lines'[1..] == lines[1..k] + [line] + lines[k..];
      assert lines[1..] == lines[1..k] + lines[k..];
      CollectSkip(lines[1..k], line, lines[k..], CellOf(col, tryParse));
    }
  }

  /** A line with no more than `col` fields, that is fewer than `col` commas, is skipped. */
  lemma ShortLineSkipped(line: string, col: nat, tryParse: string -> Option<real>)
    requires multiset(line)[','] < col
    ensures Skipped(line, col, tryParse) && CellValue(line, col, tryParse).None?
  {
    SplitCount(line, ',');
  }

  /** Surrounding a header field with quotes does not move the latency column. */
  lemma QuotedHeaderSameColumn(headers: seq<string>, i: nat)
    requires i < |headers|
    ensures LatencyColumn(headers[i := "\"" + headers[i] + "\""]) == LatencyColumn(headers)
  {
    var quoted := headers[i := "\"" + headers[i] + "\""];
    TrimPadded("\"", headers[i], "\"", '"');
    assert forall j :: 0 <= j < |headers| ==> IsLatencyField(quoted[j]) == IsLatencyField(headers[j]);
    FirstMatchPointwise(quoted, headers, IsLatencyField);
  }

  /**
   * The header scan of `ProcessCsvFile`: the index of the first field that
   * names the latency column once unquoted, or -1 when there is none.
   */
  method FindLatencyColumn(headers: seq<string>) returns (latencyColumnIndex: int)
    ensures -1 <= latencyColumnIndex < |headers|
    ensures latencyColumnIndex == match LatencyColumn(headers) case None => -1 case Some(k) => k
  {
    latencyColumnIndex := -1;
    for i := 0 to |headers|
      invariant latencyColumnIndex == -1
      invariant forall j :: 0 <= j < i ==> !IsLatencyField(headers[j])
    {
      var header := Trim(headers[i], '"');
      if header == AllInputToPhotonLatency || header == MsPCLatency {
        latencyColumnIndex := i;
        break;
      }
    }
  }

  /**
   * The row loop of `ProcessCsvFile`: the values of column `col` from line 1
   * onwards, skipping short rows, `NA` cells and cells that do not parse.
   */
  method ReadLatencies(lines: seq<string>, col: nat, tryParse: string -> Option<real>)
    returns (values: seq<real>)
    requires |lines| > 0
    ensures values == ColumnValues(lines, col, tryParse)
  {
    values := [];
    ghost var cell := CellOf(col, tryParse);
    for i := 1 to |lines|
      invariant values == Collect(lines[1..i], cell)
    {
      var columns := Split(lines[i], ',');
      if |columns| > col {
        var value := Trim(columns[col], '"');
        if value != "NA" {
          var latency := tryParse(value);
          if latency.Some? {
            values := values + [latency.value];
          }
        }
      }
      assert cell(lines[i]) == CellValue(lines[i], col, tryParse);
      CollectSnoc(lines[1..i], lines[i], cell);
      assert lines[1..i + 1] == lines[1..i] + [lines[i]];
    }
    assert lines[1..|lines|] == lines[1..];
  }

  class MainWindow {
    /** The folder whose CSV files are listed; the window changes it, the extractor only reads it. */
    var currentDirectory: string

    constructor (baseDirectory: string)
      ensures currentDirectory == baseDirectory
    {
      currentDirectory := baseDirectory;
    }

    /**
     * Reads `fileName` in the current folder and summarises its latency
     * column. `readAllLines(folder, name)` stands for `Path.Combine` followed by
     * `File.ReadAllLines`, with `None` when reading throws; `tryParse` stands for
     * `double.TryParse` with the invariant culture. The method changes no field.
     */
    method ProcessCsvFile(fileName: string, readAllLines: (string, string) -> Option<seq<string>>,
                          tryParse: string -> Option<real>)
      returns (r: Outcome)
      ensures r == match readAllLines(currentDirectory, fileName)
                   case None => UnexpectedFailure
                   case Some(lines) => Extract(lines, tryParse)
    {
      var contents := readAllLines(currentDirectory, fileName);
      if contents.None? {
        return UnexpectedFailure;
      }
      var lines := contents.value;
      if |lines| < 2 {
        return EmptyOrHeaderOnly;
      }

      var headers := Split(lines[0], ',');
      var latencyColumnIndex := FindLatencyColumn(headers);
      if latencyColumnIndex == -1 {
        return LatencyColumnNotFound;
      }

      var values := ReadLatencies(lines, latencyColumnIndex, tryParse);
      if |values| == 0 {
        return NoValidNumericValues;
      }
      return Success(Summarize(values));
    }
  }
}
