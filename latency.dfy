/**
 * What both extractors produce: the latency summary of one file or the kind of
 * failure, the min/mean/max reductions over the accepted values, and the
 * order-preserving filter that turns rows into accepted values.
 */
module Latency {
  import opened Wrappers

  /** The summary shown for a file (`LatencyResult` in C#, the result dict in Python). */
  datatype LatencyResult = LatencyResult(min: real, mean: real, max: real)

  /**
   * The outcome of processing one file. Every failure is a distinct kind here;
   * the programs show a message box for it and return nothing.
   */
  datatype Outcome =
    | Success(result: LatencyResult)
    | EmptyOrHeaderOnly          // fewer than two lines
    | LatencyColumnNotFound      // no recognised latency header
    | NoValidNumericValues       // no cell was accepted
    | UnexpectedFailure          // an exception reached the catch-all handler

  const AllInputToPhotonLatency: string := "AllInputToPhotonLatency"
  const MsPCLatency: string := "MsPCLatency"

  /** Smallest element (`values.Min()`, `min(values)`). */
  function Min(s: seq<real>): (m: real)
    requires |s| > 0
    ensures m in s
    ensures forall x :: x in s ==> m <= x
  {
    if |s| == 1 then s[0]
    else
      var t := Min(s[1..]);
      assert forall x :: x in s ==> x == s[0] || x in s[1..];
      if s[0] <= t then s[0] else t
  }

  /** Largest element (`values.Max()`, `max(values)`). */
  function Max(s: seq<real>): (m: real)
    requires |s| > 0
    ensures m in s
    ensures forall x :: x in s ==> x <= m
  {
    if |s| == 1 then s[0]
    else
      var t := Max(s[1..]);
      assert forall x :: x in s ==> x == s[0] || x in s[1..];
      if t <= s[0] then s[0] else t
  }

  function Sum(s: seq<real>): real {
    if |s| == 0 then 0.0 else s[0] + Sum(s[1..])
  }

  /** Arithmetic mean, exact over the reals (`values.Average()`, `statistics.mean`). */
  function Mean(s: seq<real>): (r: real)
    requires |s| > 0
    ensures r * (|s| as real) == Sum(s)
  {
    Sum(s) / (|s| as real)
  }

  /** A sum of `n` values, each between `lo` and `hi`, lies between `n * lo` and `n * hi`. */
  lemma {:induction false} SumBounds(s: seq<real>, lo: real, hi: real)
    requires forall k :: 0 <= k < |s| ==> lo <= s[k] <= hi
    ensures lo * (|s| as real) <= Sum(s) <= hi * (|s| as real)
  {
    if |s| > 0 {
      SumBounds(s[1..], lo, hi);
      assert lo * (|s| as real) == lo * ((|s| - 1) as real) + lo;
      assert hi * (|s| as real) == hi * ((|s| - 1) as real) + hi;
    }
  }

  /** A quantity whose `n`-fold lies between `n * lo` and `n * hi` lies between `lo` and `hi`. */
  lemma ScaledBetween(lo: real, x: real, hi: real, n: real, total: real)
    requires n > 0.0
    requires lo * n <= total <= hi * n && x * n == total
    ensures lo <= x <= hi
  {
  }

  /** Every element lies between `Min` and `Max`. */
  lemma ElementsBetween(s: seq<real>)
    requires |s| > 0
    ensures forall k :: 0 <= k < |s| ==> Min(s) <= s[k] <= Max(s)
  {
  }

  /** The mean of values that all lie between `lo` and `hi` lies between them too. */
  lemma MeanWithin(s: seq<real>, lo: real, hi: real)
    requires |s| > 0
    requires forall k :: 0 <= k < |s| ==> lo <= s[k] <= hi
    ensures lo <= Mean(s) <= hi
  {
    SumBounds(s, lo, hi);
    ScaledBetween(lo, Mean(s), hi, |s| as real, Sum(s));
  }

  /** The mean lies between the smallest and the largest value. */
  lemma MeanBetween(s: seq<real>)
    requires |s| > 0
    ensures Min(s) <= Mean(s) <= Max(s)
  {
    ElementsBetween(s);
    MeanWithin(s, Min(s), Max(s));
  }

  /**
   * The summary of a non-empty list of values: `min` and `max` are values of
   * the list bounding every value, and `mean` is the sum divided by the count,
   * hence between the two.
   */
  function Summarize(values: seq<real>): (r: LatencyResult)
    requires |values| > 0
    ensures r.min in values && r.max in values
    ensures forall v :: v in values ==> r.min <= v <= r.max
    ensures r.mean == Sum(values) / (|values| as real)
    ensures r.min <= r.mean <= r.max
  {
    MeanBetween(values);
    LatencyResult(Min(values), Mean(values), Max(values))
  }

  /**
   * The index of the first element satisfying `p`, or `None` when no element
   * does: a scan that stops at the first hit.
   */
  function FirstMatch<T>(s: seq<T>, p: T -> bool): (r: Option<nat>)
    ensures r.Some? ==> r.value < |s| && p(s[r.value])
    ensures r.Some? ==> forall j :: 0 <= j < r.value ==> !p(s[j])
    ensures r.None? ==> forall j :: 0 <= j < |s| ==> !p(s[j])
  {
    if |s| == 0 then None
    else if p(s[0]) then Some(0)
    else
      match FirstMatch(s[1..], p)
      case None => None
      case Some(k) => Some(k + 1)
  }

  /** Two sequences on which `p` agrees element by element have the same first match. */
  lemma {:induction false} FirstMatchPointwise<T>(s: seq<T>, t: seq<T>, p: T -> bool)
    requires |s| == |t|
    requires forall j :: 0 <= j < |s| ==> p(s[j]) == p(t[j])
    ensures FirstMatch(s, p) == FirstMatch(t, p)
  {
    if |s| > 0 {
      FirstMatchPointwise(s[1..], t[1..], p);
    }
  }

  /**
   * The accepted values of `items` in order: every item whose `cell` is
   * `Some(v)` contributes `v`, every other item contributes nothing.
   */
  function Collect<T>(items: seq<T>, cell: T -> Option<real>): (r: seq<real>)
    ensures |r| <= |items|
  {
    if |items| == 0 then []
    else
      Collect(items[..|items| - 1], cell)
        + match cell(items[|items| - 1]) { case Some(v) => [v] case None => [] }
  }

  /** One more row adds its value, if it has one, at the end. */
  lemma CollectSnoc<T>(s: seq<T>, x: T, cell: T -> Option<real>)
    ensures Collect(s + [x], cell)
            == Collect(s, cell) + match cell(x) { case Some(v) => [v] case None => [] }
  {
  }

  /** Collecting over two stretches of rows is collecting over each in turn. */
  lemma {:induction false} CollectConcat<T>(s: seq<T>, t: seq<T>, cell: T -> Option<real>)
    ensures Collect(s + t, cell) == Collect(s, cell) + Collect(t, cell)
  {
    if |t| == 0 {
      assert s + t == s;
    } else {
      var t' := t[..|t| - 1];
      assert (s + t)[..|s + t| - 1] == s + t';
      CollectConcat(s, t', cell);
    }
  }

  /** A row that is not accepted may be inserted anywhere without changing the values. */
  lemma CollectSkip<T>(s: seq<T>, x: T, t: seq<T>, cell: T -> Option<real>)
    requires cell(x).None?
    ensures Collect(s + [x] + t, cell) == Collect(s + t, cell)
  {
    CollectConcat(s + [x], t, cell);
    CollectConcat(s, [x], cell);
    CollectConcat(s, t, cell);
    assert [x][..0] == [];
  }

  /** A value is collected exactly when some row's cell yields it. */
  lemma {:induction false} CollectMember<T>(s: seq<T>, cell: T -> Option<real>, v: real)
    ensures v in Collect(s, cell) <==> exists k :: 0 <= k < |s| && cell(s[k]) == Some(v)
  {
    if |s| > 0 {
      var s' := s[..|s| - 1];
      CollectMember(s', cell, v);
      if exists k :: 0 <= k < |s'| && cell(s'[k]) == Some(v) {
        var k :| 0 <= k < |s'| && cell(s'[k]) == Some(v);
        assert s[k] == s'[k];
      }
      if exists k :: 0 <= k < |s| && cell(s[k]) == Some(v) {
        var k :| 0 <= k < |s| && cell(s[k]) == Some(v);
        if k < |s| - 1 { assert s'[k] == s[k]; }
      }
    }
  }

  /** Nothing is collected exactly when no row's cell is accepted. */
  lemma {:induction false} CollectEmpty<T>(s: seq<T>, cell: T -> Option<real>)
    ensures Collect(s, cell) == [] <==> forall k :: 0 <= k < |s| ==> cell(s[k]).None?
  {
    if |s| > 0 {
      var s' := s[..|s| - 1];
      CollectEmpty(s', cell);
      if forall k :: 0 <= k < |s| ==> cell(s[k]).None? {
        assert forall k :: 0 <= k < |s'| ==> s'[k] == s[k];
      }
      if Collect(s, cell) == [] {
        assert forall k :: 0 <= k < |s'| ==> s'[k] == s[k];
      }
    }
  }

  /** When every row is accepted, the values are the rows' values one for one. */
  lemma {:induction false} CollectAll<T>(s: seq<T>, cell: T -> Option<real>)
    requires forall k :: 0 <= k < |s| ==> cell(s[k]).Some?
    ensures |Collect(s, cell)| == |s|
    ensures forall k :: 0 <= k < |s| ==> Collect(s, cell)[k] == cell(s[k]).value
  {
    if |s| > 0 {
      var s' := s[..|s| - 1];
      assert forall k :: 0 <= k < |s'| ==> s'[k] == s[k];
      CollectAll(s', cell);
    }
  }
}
