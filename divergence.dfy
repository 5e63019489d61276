/**
 * Where the C# and the Python extractors differ on the same file: the choice
 * of column when both recognised names are present, files of fewer than two
 * lines, and rows that lack the latency cell.
 */
module Divergence {
  import opened Wrappers
  import opened Text
  import opened Latency
  import CsLatency
  import PyLatency

  /** The name of the column the C# version reads, once unquoted. */
  function CsColumnName(headers: seq<string>): Option<string> {
    match CsLatency.LatencyColumn(headers)
    case None => None
    case Some(k) => Some(CsLatency.Unquote(headers[k]))
  }

  /**
   * On a header whose fields carry no quotes (so that the field names Python
   * sees are the C# fields), both versions read the same column except exactly
   * when `AllInputToPhotonLatency` comes first and `MsPCLatency` is also
   * present: then C# reads the former, Python the latter.
   */
  lemma ColumnChoicesAgree(headers: seq<string>)
    requires forall j :: 0 <= j < |headers| ==> CsLatency.Unquote(headers[j]) == headers[j]
    ensures CsColumnName(headers) == PyLatency.ChooseColumn(headers)
            <==> !(MsPCLatency in headers && CsColumnName(headers) == Some(AllInputToPhotonLatency))
  {
  }

  /**
   * On a header whose fields carry no quotes and hold both names, at first
   * indices `a` (`AllInputToPhotonLatency`) and `m` (`MsPCLatency`), C# reads
   * whichever comes first and Python always reads `MsPCLatency`.
   */
  lemma BothNamesPresent(headers: seq<string>, a: nat, m: nat)
    requires forall j :: 0 <= j < |headers| ==> CsLatency.Unquote(headers[j]) == headers[j]
    requires a < |headers| && headers[a] == AllInputToPhotonLatency
    requires forall j :: 0 <= j < a ==> headers[j] != AllInputToPhotonLatency
    requires m < |headers| && headers[m] == MsPCLatency
    requires forall j :: 0 <= j < m ==> headers[j] != MsPCLatency
    ensures PyLatency.ChooseColumn(headers) == Some(MsPCLatency)
    ensures CsColumnName(headers) == Some(if a < m then AllInputToPhotonLatency else MsPCLatency)
  {
  }

  /**
   * A file that is empty, or holds only a header naming a latency column, is
   * "empty or header only" to C#. To Python the empty file is an unexpected
   * failure and the header-only file has no numeric values.
   */
  lemma HeaderOnlyFiles(header: string, tryParse: string -> Option<real>, float: string -> Option<real>)
    requires PyLatency.ChooseColumn(Split(header, ',')).Some?
    ensures CsLatency.Extract([], tryParse) == EmptyOrHeaderOnly
    ensures PyLatency.Analyze(None, [], float) == UnexpectedFailure
    ensures CsLatency.Extract([header], tryParse) == EmptyOrHeaderOnly
    ensures PyLatency.Analyze(Some(Split(header, ',')), [], float) == NoValidNumericValues
  {
  }
}
