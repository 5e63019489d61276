# PC latency extraction, modelled in Dafny

The repository is a small desktop viewer (a WPF window in C# and a Qt window in
Python) that lists the CSV files of a folder and, for the selected file, shows
the minimum, mean and maximum of its latency column, named
`AllInputToPhotonLatency` or `MsPCLatency`. Everything around that is window and
folder handling. This project models the two versions of the extraction routine
and proves what they compute.

- **C#, `MainWindow.ProcessCsvFile`.** It splits the file's lines on commas and
  trims every leading and trailing `"` from the header fields. The latency
  column is the first field that names either column. Each later line adds its
  cell when the line has that field, the unquoted cell is not `NA`, and
  `double.TryParse` accepts it. No value at all is a failure; otherwise the
  result is `Min`/`Average`/`Max`.
- **Python, `process_csv_file`.** It reads rows through `csv.DictReader`. It
  prefers `MsPCLatency` whenever that is a field name, and otherwise uses
  `AllInputToPhotonLatency`. Each row adds `float(row[column])`. A `ValueError`
  skips the row. Any other exception abandons the whole file, for instance the
  `TypeError` from `float(None)` on a row too short to hold the latency cell.

Modules, one per concern:

- `Wrappers` (`wrappers.dfy`): `Option`.
- `Text` (`text.dfy`): `String.Split(',')` and `String.Trim('"')`, with the
  round trip between `Split` and `Join`.
- `Latency` (`latency.dfy`): the result and outcome types (the datatype
  `LatencyResult` holds the three reals min, mean and max of a success, as the
  C# class `LatencyResult` does, `pc_latency/MainWindow.xaml.cs:171-176`), the min/mean/max
  reductions, the first-match scan and the order-preserving filter `Collect`.
- `CsLatency` (`main_window.dfy`): the C# routine. `Extract` specifies it.
  Class `MainWindow` holds the field `currentDirectory` and the method
  `ProcessCsvFile`. The method's header loop and row loop are the methods
  `FindLatencyColumn` and `ReadLatencies`.
- `PyLatency` (`main_py.dfy`): the Python routine. `Analyze` specifies it, and
  the method `ProcessCsvFile` runs the row loop.
- `Divergence` (`divergence.dfy`): where the two versions disagree on the same file.
- `Scenarios` (`scenarios.dfy`): worked example files.

Modelling choices:

- Number parsing (`double.TryParse` with the invariant culture, Python's
  `float()` on text) is a function parameter `string -> Option<real>`. `None`
  means the text is rejected.
- Values are `real`, so the mean is exact: the sum divided by the count.
- The C# file read (`Path.Combine` followed by `File.ReadAllLines`) is a
  parameter `readAllLines(folder, name)`. It returns `None` when reading throws,
  which the catch-all turns into `UnexpectedFailure`. `ProcessCsvFile` has no
  `modifies` clause: it only reads `currentDirectory`.
- Python's reader is given as its results. `fieldnames` is `None` for an empty
  file, and then `'MsPCLatency' in None` raises `TypeError`. Each row maps
  field names to `Option<string>`, with `None` standing for the filler
  `DictReader` puts in for missing cells.
- Both programs report every failure by showing a message and returning
  nothing. Here each failure is its own constructor of `Outcome`.

Behaviours of the code that the model keeps as written:

- `Trim('"')` strips every leading and every trailing quote
  (`pc_latency/MainWindow.xaml.cs:109`, `:133`).
- The Python version reads `MsPCLatency` whenever that field name is present,
  and `AllInputToPhotonLatency` only otherwise (`pc_latency/main.py:92-95`).
  The C# version reads whichever of the two comes first in the header
  (`pc_latency/MainWindow.xaml.cs:107-115`).
- The Python version has no test for the `NA` marker (`pc_latency/main.py:104-109`)
  and no test for a file of fewer than two lines (`pc_latency/main.py:87-95`).
- In the Python version, a row too short to hold the latency cell aborts the
  whole file (`pc_latency/main.py:106-109`), while the C# version skips such a
  row (`pc_latency/MainWindow.xaml.cs:131`). A row that is short only in other
  columns is read normally by both.

## Model

| member | source | states |
|---|---|---|
| `Text.Split` | pc_latency/MainWindow.xaml.cs:104 | splitting on `,` always yields at least one field, and no field contains a comma |
| `Text.JoinSplit` | pc_latency/MainWindow.xaml.cs:104 | joining the fields with `,` gives back the line, so splitting loses nothing |
| `Text.SplitJoin` | pc_latency/MainWindow.xaml.cs:130 | splitting comma-free fields joined by `,` gives back exactly those fields |
| `Text.SplitCount` | pc_latency/MainWindow.xaml.cs:130-131 | a line has one more field than it has commas |
| `Text.Trim` | pc_latency/MainWindow.xaml.cs:109 | `Trim('"')` never lengthens a field, and what is left neither starts nor ends with `"` |
| `Text.TrimSlice` | pc_latency/MainWindow.xaml.cs:109 | `Trim('"')` leaves a contiguous slice that neither starts nor ends with `"`, and everything removed on either side is `"` |
| `Text.TrimIdempotent` | pc_latency/MainWindow.xaml.cs:133 | trimming quotes twice is the same as trimming once |
| `Text.TrimPadded` | pc_latency/MainWindow.xaml.cs:109 | runs of quotes around a field do not change its trimmed text |
| `Latency.Min` | pc_latency/MainWindow.xaml.cs:155 | the minimum is one of the values and no value is smaller |
| `Latency.Max` | pc_latency/MainWindow.xaml.cs:157 | the maximum is one of the values and no value is larger |
| `Latency.Mean` | pc_latency/MainWindow.xaml.cs:156 | the mean times the number of values is their sum |
| `Latency.MeanBetween` | pc_latency/MainWindow.xaml.cs:155-157 | the mean lies between the minimum and the maximum |
| `Latency.Summarize` | pc_latency/main.py:119-123 | min and max are values that bound every value; mean is sum over count and lies between them |
| `Latency.FirstMatch` | pc_latency/MainWindow.xaml.cs:107-115 | the scan returns an index whose element matches with no earlier match, or `None` exactly when nothing matches |
| `Latency.Collect` | pc_latency/MainWindow.xaml.cs:126-142 | the row filter yields at most one value per row |
| `Latency.CollectConcat` | pc_latency/MainWindow.xaml.cs:128-142 | the values of two stretches of rows are their values in row order |
| `Latency.CollectMember` | pc_latency/MainWindow.xaml.cs:134-139 | a value is collected exactly when some row's cell yields it |
| `Latency.CollectEmpty` | pc_latency/MainWindow.xaml.cs:144 | nothing is collected exactly when no row's cell is accepted |
| `Latency.CollectAll` | pc_latency/MainWindow.xaml.cs:128-142 | when every row is accepted there is one value per row, in row order |
| `Latency.CollectSkip` | pc_latency/MainWindow.xaml.cs:131-134 | a row whose cell is not accepted can be inserted anywhere without changing the values |
| `CsLatency.LatencyColumn` | pc_latency/MainWindow.xaml.cs:104-115 | the column is the first header field whose unquoted text names a latency column; `None` exactly when no field does |
| `CsLatency.CellValue` | pc_latency/MainWindow.xaml.cs:130-141 | a data line yields nothing exactly when it is skipped (too few fields, `NA`, or not parsed); otherwise it yields the parse of its unquoted cell |
| `CsLatency.Extract` | pc_latency/MainWindow.xaml.cs:95-158 | extracting from lines that were read never ends in an unexpected failure, and a success comes from at least two lines with min <= mean <= max |
| `CsLatency.FindLatencyColumn` | pc_latency/MainWindow.xaml.cs:104-115 | the loop with `break` yields the first header index whose unquoted field names a latency column, or -1 when none does |
| `CsLatency.ReadLatencies` | pc_latency/MainWindow.xaml.cs:126-142 | the row loop's list is exactly the accepted cells of lines 1 onwards, in order |
| `CsLatency.MainWindow.constructor` | pc_latency/MainWindow.xaml.cs:22 | the window starts in the given base directory |
| `CsLatency.MainWindow.ProcessCsvFile` | pc_latency/MainWindow.xaml.cs:88-168 | a read failure gives `UnexpectedFailure`; otherwise the outcome is `Extract` of the file's lines; no field changes |
| `CsLatency.ExtractFailures` | pc_latency/MainWindow.xaml.cs:95-151 | each failure happens exactly when its cause does: under two lines; no header names a latency column; every data line skipped |
| `CsLatency.ExtractSuccess` | pc_latency/MainWindow.xaml.cs:153-158 | on success min and max are accepted cells of data lines, every accepted cell lies between them, and so does the mean |
| `CsLatency.AllCellsAccepted` | pc_latency/MainWindow.xaml.cs:126-158 | when no data line is skipped, the values are one per data line in order and the file succeeds with their summary |
| `CsLatency.SkippedLineIgnored` | pc_latency/MainWindow.xaml.cs:128-142 | in a file of at least two lines, inserting a short, `NA` or unparsable data line anywhere after the header leaves the outcome unchanged |
| `CsLatency.ShortLineSkipped` | pc_latency/MainWindow.xaml.cs:130-131 | a line with fewer commas than the column index contributes nothing |
| `CsLatency.QuotedHeaderSameColumn` | pc_latency/MainWindow.xaml.cs:109-110 | quoting a header field does not move the latency column |
| `PyLatency.ChooseColumn` | pc_latency/main.py:92-102 | `MsPCLatency` is chosen exactly when present; `AllInputToPhotonLatency` exactly when it alone is present; none when neither is |
| `PyLatency.ConvertCell` | pc_latency/main.py:107-109 | `float(row[col])` raises something other than `ValueError` exactly when the key or the cell is missing; it raises `ValueError` exactly when the cell is present and `float()` rejects it; a cell `float()` parses is converted to that value |
| `PyLatency.Convert` | pc_latency/main.py:104-109 | a file that is not abandoned has no row raising anything but `ValueError`, and at most one value per row |
| `PyLatency.Analyze` | pc_latency/main.py:87-126 | the outcome is never "empty or header only"; no field names (an empty file) is an unexpected failure; a success has min <= mean <= max |
| `PyLatency.ConvertAbandoned` | pc_latency/main.py:105-109 | once a row has raised a non-`ValueError` exception, no later row can recover the file |
| `PyLatency.ConvertCases` | pc_latency/main.py:104-109 | the file is abandoned exactly when some row raises something other than `ValueError`; otherwise the values are the converted cells in row order |
| `PyLatency.ProcessCsvFile` | pc_latency/main.py:83-126 | the loop and its early exit compute `Analyze` of the field names and rows |
| `PyLatency.AnalyzeOutcomes` | pc_latency/main.py:87-126 | empty file or a non-`ValueError` row means unexpected failure; neither name means column not found; every row a `ValueError` means no values; never header-only |
| `PyLatency.MissingCellAbandonsFile` | pc_latency/main.py:106-109 | a row whose latency cell is missing makes the whole file fail, whatever the other rows hold |
| `PyLatency.AnalyzeSuccess` | pc_latency/main.py:119-123 | on success min and max are converted cells of rows, every converted cell lies between them, and so does the mean |
| `PyLatency.ConvertSkipsValueError` | pc_latency/main.py:105-109 | inserting a row whose cell raises `ValueError` anywhere leaves the conversion (abandoned or the list of values) unchanged |
| `PyLatency.ValueErrorRowIgnored` | pc_latency/main.py:106-109 | a row whose cell raises `ValueError` can be inserted anywhere without changing the outcome |
| `Divergence.ColumnChoicesAgree` | pc_latency/main.py:92-95 | on unquoted headers both versions read the same column unless `AllInputToPhotonLatency` comes first and `MsPCLatency` is also present |
| `Divergence.BothNamesPresent` | pc_latency/MainWindow.xaml.cs:107-115 | on any header of unquoted fields holding both names, C# reads whichever comes first and Python always reads `MsPCLatency` |
| `Divergence.HeaderOnlyFiles` | pc_latency/MainWindow.xaml.cs:95-102 | an empty file, or a header-only file whose header names a latency column, is "empty or header only" to C#, but an unexpected failure or "no values" to Python |
| `Scenarios.ThreeReadings` | pc_latency/MainWindow.xaml.cs:153-158 | readings 10, 20 and 30 give minimum 10, mean 20 and maximum 30 |
| `Scenarios.MissingMarker` | pc_latency/MainWindow.xaml.cs:134 | an `NA` cell is passed over and the single remaining reading is min, mean and max |
| `Scenarios.NoLatencyColumn` | pc_latency/MainWindow.xaml.cs:117-124 | the header `Frame,Other` is reported as lacking the latency column |
| `Scenarios.NothingNumeric` | pc_latency/MainWindow.xaml.cs:144-151 | a file whose cells are `NA` and `abc` has no valid values |
| `Scenarios.ShortRowDiverges` | pc_latency/main.py:105-109 | on a file with a row too short to hold the latency cell, C# summarises the other row while Python fails the whole file |

## Left out

- Window construction, the folder text and dialog, and the directory listing
  (`pc_latency/MainWindow.xaml.cs:19-72`, `pc_latency/main.py:11-81`) are user
  interface and file-system I/O.
- The message-box texts and the two-decimal display of the result are
  presentation only. Failures are `Outcome` constructors.
- `File.ReadAllLines` and `open` are I/O. The C# read is a parameter. The
  Python file arrives as `DictReader`'s field names and rows.
- `csv.DictReader`'s own parsing is not modelled: quoted fields, embedded
  commas, skipped blank lines, and extra cells stored under `restkey`. So the
  Python and C# versions are compared only on headers whose fields carry no
  quotes.
- The internals of `double.TryParse` and `float()` are not modelled, including
  their acceptance of `NaN`, `Infinity` and surrounding white space. Both are a
  parser parameter that yields a real or nothing.
- IEEE-754 rounding in `values.Average()` and `statistics.mean` is not
  modelled. The model's values are exact reals.
- The catch-all handlers are modelled only for a failed C# read, an empty
  Python file, and a Python row that raises something other than `ValueError`.
  Failures inside the libraries are not modelled.
- `get_base_path` and `main` are process start-up and environment.
