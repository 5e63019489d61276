/**
 * The two .NET string operations the C# extractor relies on:
 * `String.Split(char)` and `String.Trim(char)`.
 */
module Text {

  /** Every character of `s` is `c`. */
  predicate AllChar(s: string, c: char) {
    forall i :: 0 <= i < |s| ==> s[i] == c
  }

  /** Concatenates `parts` with `sep` between neighbours (the inverse of `Split`). */
  function Join(parts: seq<string>, sep: char): string {
    if |parts| == 0 then ""
    else if |parts| == 1 then parts[0]
    else parts[0] + [sep] + Join(parts[1..], sep)
  }

  /**
   * `s.Split(sep)`: cuts `s` at every occurrence of `sep`. There is always at
   * least one field, an empty string gives one empty field, and no field
   * contains the separator (`JoinSplit` shows that nothing is lost).
   */
  function Split(s: string, sep: char): (r: seq<string>)
    ensures |r| >= 1
    ensures forall k :: 0 <= k < |r| ==> sep !in r[k]
  {
    if |s| == 0 then [""]
    else
      var rest := Split(s[1..], sep);
      if s[0] == sep then [""] + rest
      else [[s[0]] + rest[0]] + rest[1..]
  }

  /** Joining the fields of `Split` gives back the original string. */
  lemma {:induction false} JoinSplit(s: string, sep: char)
    ensures Join(Split(s, sep), sep) == s
  {
    if |s| > 0 {
      var rest := Split(s[1..], sep);
      JoinSplit(s[1..], sep);
      if s[0] == sep {
        assert Join(Split(s, sep), sep) == [sep] + Join(rest, sep);
      } else if |rest| == 1 {
        assert Join(Split(s, sep), sep) == [s[0]] + rest[0];
      } else {
        assert Join(rest, sep) == rest[0] + [sep] + Join(rest[1..], sep);
        assert Join(Split(s, sep), sep) == ([s[0]] + rest[0]) + [sep] + Join(rest[1..], sep);
      }
      assert s == [s[0]] + s[1..];
    }
  }

  /** There is one more field than there are separators. */
  lemma {:induction false} SplitCount(s: string, sep: char)
    ensures |Split(s, sep)| == multiset(s)[sep] + 1
  {
    if |s| > 0 {
      SplitCount(s[1..], sep);
      assert s == [s[0]] + s[1..];
      assert multiset(s) == multiset([s[0]]) + multiset(s[1..]);
    }
  }

  /** Splitting a field that holds no separator, followed by anything. */
  lemma {:induction false} SplitPrefix(w: string, t: string, sep: char)
    requires sep !in w
    ensures Split(w + t, sep) == [w + Split(t, sep)[0]] + Split(t, sep)[1..]
  {
    if |w| > 0 {
      assert (w + t)[1..] == w[1..] + t;
      SplitPrefix(w[1..], t, sep);
      assert [w[0]] + (w[1..] + Split(t, sep)[0]) == w + Split(t, sep)[0];
    } else {
      assert w + t == t;
      assert w + Split(t, sep)[0] == Split(t, sep)[0];
    }
  }

  /** `Split` undoes `Join` on fields that hold no separator. */
  lemma {:induction false} SplitJoin(parts: seq<string>, sep: char)
    requires |parts| >= 1
    requires forall k :: 0 <= k < |parts| ==> sep !in parts[k]
    ensures Split(Join(parts, sep), sep) == parts
  {
    if |parts| == 1 {
      SplitPrefix(parts[0], "", sep);
      assert parts[0] + "" == parts[0];
    } else {
      var t := [sep] + Join(parts[1..], sep);
      SplitJoin(parts[1..], sep);
      assert Split(t, sep) == [""] + Split(Join(parts[1..], sep), sep) by {
        assert t[1..] == Join(parts[1..], sep);
      }
      SplitPrefix(parts[0], t, sep);
      assert Join(parts, sep) == parts[0] + t;
      assert parts[0] + "" == parts[0];
      assert parts == [parts[0]] + parts[1..];
    }
  }

  /** Drops every leading `c`. */
  function TrimStart(s: string, c: char): string {
    if |s| > 0 && s[0] == c then TrimStart(s[1..], c) else s
  }

  /** Drops every trailing `c`. */
  function TrimEnd(s: string, c: char): string {
    if |s| > 0 && s[|s| - 1] == c then TrimEnd(s[..|s| - 1], c) else s
  }

  /**
   * `s.Trim(c)`: drops every leading and every trailing `c`, not just one
   * layer, so what is left neither starts nor ends with `c`.
   */
  function Trim(s: string, c: char): (r: string)
    ensures |r| <= |s|
    ensures |r| == 0 || (r[0] != c && r[|r| - 1] != c)
  {
    TrimStartShape(s, c);
    TrimEndShape(TrimStart(s, c), c);
    TrimEnd(TrimStart(s, c), c)
  }

  /** `TrimStart` keeps a suffix that does not start with `c` and cuts off only `c`s. */
  lemma {:induction false} TrimStartShape(s: string, c: char)
    ensures var r := TrimStart(s, c);
      && |r| <= |s| && r == s[|s| - |r|..]
      && AllChar(s[..|s| - |r|], c)
      && (r == [] || r[0] != c)
  {
    if |s| > 0 && s[0] == c {
      TrimStartShape(s[1..], c);
      var r := TrimStart(s, c);
      assert s[..|s| - |r|] == [c] + s[1..][..|s| - 1 - |r|];
    }
  }

  /** `TrimEnd` keeps a prefix that does not end with `c` and cuts off only `c`s. */
  lemma {:induction false} TrimEndShape(s: string, c: char)
    ensures var r := TrimEnd(s, c);
      && |r| <= |s| && r == s[..|r|]
      && AllChar(s[|r|..], c)
      && (r == [] || r[|r| - 1] != c)
  {
    if |s| > 0 && s[|s| - 1] == c {
      TrimEndShape(s[..|s| - 1], c);
      var r := TrimEnd(s, c);
      assert s[|r|..] == s[..|s| - 1][|r|..] + [c];
    }
  }

  /**
   * What is left after `Trim` is a contiguous slice of `s` that neither starts
   * nor ends with `c`, and everything cut off on either side is `c`.
   */
  lemma TrimSlice(s: string, c: char)
    ensures var r := Trim(s, c);
      && (r == [] || (r[0] != c && r[|r| - 1] != c))
      && exists i :: 0 <= i <= |s| - |r| && r == s[i..i + |r|]
                     && AllChar(s[..i], c) && AllChar(s[i + |r|..], c)
  {
    var t := TrimStart(s, c);
    var r := TrimEnd(t, c);
    TrimStartShape(s, c);
    TrimEndShape(t, c);
    var i := |s| - |t|;
    assert r == s[i..i + |r|];
    assert s[i + |r|..] == t[|r|..];
    assert AllChar(s[i + |r|..], c);
  }

  /** Trimming twice is trimming once. */
  lemma TrimIdempotent(s: string, c: char)
    ensures Trim(Trim(s, c), c) == Trim(s, c)
  {
  }

  /** Leading runs of `c` are invisible to `TrimStart`. */
  lemma {:induction false} TrimStartPadded(p: string, s: string, c: char)
    requires AllChar(p, c)
    ensures TrimStart(p + s, c) == TrimStart(s, c)
  {
    if |p| > 0 {
      assert (p + s)[1..] == p[1..] + s;
      TrimStartPadded(p[1..], s, c);
    } else {
      assert p + s == s;
    }
  }

  /** Trailing runs of `c` are invisible to `TrimEnd`. */
  lemma {:induction false} TrimEndPadded(s: string, q: string, c: char)
    requires AllChar(q, c)
    ensures TrimEnd(s + q, c) == TrimEnd(s, c)
  {
    if |q| > 0 {
      assert (s + q)[..|s + q| - 1] == s + q[..|q| - 1];
      TrimEndPadded(s, q[..|q| - 1], c);
    } else {
      assert s + q == s;
    }
  }

  /** Appending to a string that is not all `c` commutes with `TrimStart`. */
  lemma {:induction false} TrimStartAppend(s: string, q: string, c: char)
    requires !AllChar(s, c)
    ensures TrimStart(s + q, c) == TrimStart(s, c) + q
  {
    if s[0] == c {
      assert (s + q)[1..] == s[1..] + q;
      TrimStartAppend(s[1..], q, c);
    }
  }

  /** Wrapping `s` in runs of `c` on either side does not change `Trim(s, c)`. */
  lemma TrimPadded(p: string, s: string, q: string, c: char)
    requires AllChar(p, c) && AllChar(q, c)
    ensures Trim(p + s + q, c) == Trim(s, c)
  {
    assert p + s + q == p + (s + q);
    TrimStartPadded(p, s + q, c);
    if AllChar(s, c) {
      assert AllChar(s + q, c);
      TrimStartPadded(s, q, c);
      TrimStartPadded(q, "", c);
      TrimStartPadded(s, "", c);
      assert s + "" == s && q + "" == q;
    } else {
      TrimStartAppend(s, q, c);
      TrimEndPadded(TrimStart(s, c), q, c);
    }
  }
}
