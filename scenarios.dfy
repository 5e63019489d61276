/**
 * Worked files for the C# extractor, and the short-row file on which the two
 * versions part ways. Number parsing is only assumed to read the few cells
 * that occur.
 */
module Scenarios {
  import opened Wrappers
  import opened Text
  import opened Latency
  import CsLatency
  import PyLatency

  /** The CSV line holding the two fields `a` and `b`. */
  function Line(a: string, b: string): string {
    a + "," + b
  }

  /** A line of two comma-free fields splits into exactly those fields. */
  lemma SplitTwo(a: string, b: string)
    requires ',' !in a && ',' !in b
    ensures Split(Line(a, b), ',') == [a, b]
  {
    SplitJoin([a, b], ',');
    assert Join([a, b], ',') == a + "," + b;
  }

  /** A field that neither starts nor ends with a quote is its own unquoted text. */
  lemma UnquotePlain(s: string)
    requires |s| > 0 && s[0] != '"' && s[|s| - 1] != '"'
    ensures CsLatency.Unquote(s) == s
  {
  }

  /** The cell in the second field of the line `a,b`. */
  lemma SecondCell(a: string, b: string, tryParse: string -> Option<real>)
    requires ',' !in a && ',' !in b
    requires |b| > 0 && b[0] != '"' && b[|b| - 1] != '"'
    ensures CsLatency.CellOf(1, tryParse)(Line(a, b)) == if b == "NA" then None else tryParse(b)
  {
    SplitTwo(a, b);
    UnquotePlain(b);
  }

  /** The header `Frame,<name>` puts the latency column second when `<name>` is recognised. */
  lemma FrameHeader(name: string)
    requires name == AllInputToPhotonLatency || name == MsPCLatency
    ensures CsLatency.LatencyColumn(Split(Line("Frame", name), ',')) == Some(1)
  {
    SplitTwo("Frame", name);
    UnquotePlain("Frame");
    UnquotePlain(name);
    var headers := ["Frame", name];
    assert !CsLatency.IsLatencyField(headers[0]);
    assert CsLatency.IsLatencyField(headers[1..][0]);
    assert FirstMatch(headers[1..], CsLatency.IsLatencyField) == Some(0);
  }

  /** The outcome of a file once its column and its values are known. */
  lemma ExtractKnown(lines: seq<string>, col: nat, values: seq<real>, tryParse: string -> Option<real>)
    requires |lines| >= 2 && CsLatency.LatencyColumn(Split(lines[0], ',')) == Some(col)
    requires CsLatency.ColumnValues(lines, col, tryParse) == values
    ensures CsLatency.Extract(lines, tryParse) == if values == [] then NoValidNumericValues else Success(Summarize(values))
  {
  }

  /** The values of a single data line. */
  lemma CollectOne(a: string, cell: string -> Option<real>)
    ensures Collect([a], cell) == match cell(a) { case Some(v) => [v] case None => [] }
  {
    assert [a][..0] == [];
  }

  /** The values of two data lines are those of the first, then those of the second. */
  lemma CollectTwo(a: string, b: string, cell: string -> Option<real>)
    ensures Collect([a, b], cell) == Collect([a], cell) + Collect([b], cell)
  {
    CollectConcat([a], [b], cell);
    assert [a] + [b] == [a, b];
  }

  /** The values of three data lines are those of the first two, then those of the third. */
  lemma CollectThree(a: string, b: string, c: string, cell: string -> Option<real>)
    ensures Collect([a, b, c], cell) == Collect([a, b], cell) + Collect([c], cell)
  {
    CollectConcat([a, b], [c], cell);
    assert [a, b] + [c] == [a, b, c];
  }

  /** Three readings 10, 20, 30 give minimum 10, mean 20 and maximum 30. */
  lemma ThreeReadings(tryParse: string -> Option<real>)
    requires tryParse("10.0") == Some(10.0) && tryParse("20.0") == Some(20.0) && tryParse("30.0") == Some(30.0)
    ensures CsLatency.Extract([Line("Frame", AllInputToPhotonLatency), Line("1", "10.0"),
                               Line("2", "20.0"), Line("3", "30.0")], tryParse)
            == Success(LatencyResult(10.0, 20.0, 30.0))
  {
    var lines := [Line("Frame", AllInputToPhotonLatency), Line("1", "10.0"), Line("2", "20.0"), Line("3", "30.0")];
    var values := [10.0, 20.0, 30.0];
    assert CsLatency.ColumnValues(lines, 1, tryParse) == values by {
      var cell := CsLatency.CellOf(1, tryParse);
      SecondCell("1", "10.0", tryParse);
      SecondCell("2", "20.0", tryParse);
      SecondCell("3", "30.0", tryParse);
      CollectOne(lines[1], cell);
      CollectOne(lines[2], cell);
      CollectOne(lines[3], cell);
      CollectTwo(lines[1], lines[2], cell);
      CollectThree(lines[1], lines[2], lines[3], cell);
      assert lines[1..] == [lines[1], lines[2], lines[3]];
    }
    assert Summarize(values) == LatencyResult(10.0, 20.0, 30.0) by {
      assert Min(values[1..]) == 20.0 && Max(values[1..]) == 30.0;
      assert Sum(values) == 60.0;
    }
    FrameHeader(AllInputToPhotonLatency);
    ExtractKnown(lines, 1, values, tryParse);
  }

  /** An `NA` cell is passed over and the one remaining reading is the whole summary. */
  lemma MissingMarker(tryParse: string -> Option<real>)
    requires tryParse("5.5") == Some(5.5)
    ensures CsLatency.Extract([Line("Frame", MsPCLatency), Line("1", "NA"), Line("2", "5.5")], tryParse)
            == Success(LatencyResult(5.5, 5.5, 5.5))
  {
    var lines := [Line("Frame", MsPCLatency), Line("1", "NA"), Line("2", "5.5")];
    FrameHeader(MsPCLatency);
    var cell := CsLatency.CellOf(1, tryParse);
    SecondCell("1", "NA", tryParse);
    SecondCell("2", "5.5", tryParse);
    CollectOne(lines[1], cell);
    CollectOne(lines[2], cell);
    CollectTwo(lines[1], lines[2], cell);
    assert lines[1..] == [lines[1], lines[2]];
    ExtractKnown(lines, 1, [5.5], tryParse);
    assert Sum([5.5]) == 5.5;
  }

  /** A header without either recognised name is reported as such. */
  lemma NoLatencyColumn(tryParse: string -> Option<real>)
    ensures CsLatency.Extract([Line("Frame", "Other"), Line("1", "5.0")], tryParse) == LatencyColumnNotFound
  {
    SplitTwo("Frame", "Other");
    UnquotePlain("Frame");
    UnquotePlain("Other");
    assert !CsLatency.IsLatencyField("Frame") && !CsLatency.IsLatencyField("Other");
  }

  /** Cells that are `NA` or not numbers leave nothing to summarise. */
  lemma NothingNumeric(tryParse: string -> Option<real>)
    requires tryParse("abc").None?
    ensures CsLatency.Extract([Line("Frame", AllInputToPhotonLatency), Line("1", "NA"), Line("2", "abc")], tryParse)
            == NoValidNumericValues
  {
    var lines := [Line("Frame", AllInputToPhotonLatency), Line("1", "NA"), Line("2", "abc")];
    FrameHeader(AllInputToPhotonLatency);
    var cell := CsLatency.CellOf(1, tryParse);
    SecondCell("1", "NA", tryParse);
    SecondCell("2", "abc", tryParse);
    CollectOne(lines[1], cell);
    CollectOne(lines[2], cell);
    CollectTwo(lines[1], lines[2], cell);
    assert lines[1..] == [lines[1], lines[2]];
    ExtractKnown(lines, 1, [], tryParse);
  }

  /**
   * The same short file read by both versions: C# passes over the line that
   * lacks the latency field and summarises the other, while Python gets `None`
   * for the missing cell, `float(None)` raises `TypeError`, and the whole file fails.
   */
  lemma ShortRowDiverges(tryParse: string -> Option<real>, float: string -> Option<real>)
    requires tryParse("5.5") == Some(5.5) && float("5.5") == Some(5.5)
    ensures CsLatency.Extract([Line("Frame", MsPCLatency), Line("1", "5.5"), "2"], tryParse)
            == Success(LatencyResult(5.5, 5.5, 5.5))
    ensures PyLatency.Analyze(Some(["Frame", MsPCLatency]),
                              [map["Frame" := Some("1"), MsPCLatency := Some("5.5")],
                               map["Frame" := Some("2"), MsPCLatency := None]],
                              float)
            == UnexpectedFailure
  {
    var lines := [Line("Frame", MsPCLatency), Line("1", "5.5"), "2"];
    FrameHeader(MsPCLatency);
    var cell := CsLatency.CellOf(1, tryParse);
    SecondCell("1", "5.5", tryParse);
    assert cell(lines[2]) == None by {
      SplitJoin(["2"], ',');
    }
    CollectOne(lines[1], cell);
    CollectOne(lines[2], cell);
    CollectTwo(lines[1], lines[2], cell);
    assert lines[1..] == [lines[1], lines[2]];
    ExtractKnown(lines, 1, [5.5], tryParse);
    assert Sum([5.5]) == 5.5;
    var rows := [map["Frame" := Some("1"), MsPCLatency := Some("5.5")],
                 map["Frame" := Some("2"), MsPCLatency := None]];
    PyLatency.MissingCellAbandonsFile(["Frame", MsPCLatency], rows, 1, float);
  }
}
