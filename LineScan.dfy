/**
 * The line scan of `clean_recipe_text` (main.py:171-185), over any three line
 * tests: `header` (the line sets the flag and is kept), `unwanted` (the line
 * clears the flag) and `blank` (the line is empty after trimming). The scan
 * goes top to bottom with one flag, initially false; a header is always kept,
 * the unwanted test runs only on other lines, and a non-header line is kept
 * when it is not blank and the flag is still set after the unwanted test.
 * RecipeFilter supplies the tests the application uses.
 */
module LineScan {
  import opened Text

  /** The three tests the scan applies to each line. */
  datatype Tests = Tests(header: string -> bool, unwanted: string -> bool, blank: string -> bool)

  /** A line that decides the flag: a header opens, an unwanted line closes. */
  predicate IsMarker(t: Tests, line: string) {
    t.header(line) || t.unwanted(line)
  }

  /** The value of `keep` after the scan has consumed `prefix`. */
  function FlagAfter(t: Tests, prefix: seq<string>): bool {
    if prefix == [] then false
    else
      var line := prefix[|prefix| - 1];
      if t.header(line) then true
      else if t.unwanted(line) then false
      else FlagAfter(t, prefix[..|prefix| - 1])
  }

  /** Whether the scan appends `line` when it reaches it with flag `keep`. */
  predicate Appends(t: Tests, keep: bool, line: string) {
    t.header(line) || (keep && !t.unwanted(line) && !t.blank(line))
  }

  /** The list `filtered` once the scan has consumed `lines`. */
  function FilterLines(t: Tests, lines: seq<string>): seq<string> {
    if lines == [] then []
    else
      var prefix := lines[..|lines| - 1];
      var line := lines[|lines| - 1];
      FilterLines(t, prefix) + (if Appends(t, FlagAfter(t, prefix), line) then [line] else [])
  }

  /** One step of the scan: how the flag and the output change with the next line. */
  lemma ScanStep(t: Tests, prefix: seq<string>, line: string)
    ensures FlagAfter(t, prefix + [line]) ==
            (if t.header(line) then true else if t.unwanted(line) then false else FlagAfter(t, prefix))
    ensures FilterLines(t, prefix + [line]) ==
            FilterLines(t, prefix) + (if Appends(t, FlagAfter(t, prefix), line) then [line] else [])
  {
    assert (prefix + [line])[..|prefix|] == prefix;
  }

  /** `ScanStep` at position `i` of `lines`. */
  lemma ScanAt(t: Tests, lines: seq<string>, i: nat)
    requires i < |lines|
    ensures FlagAfter(t, lines[..i + 1]) ==
            (if t.header(lines[i]) then true else if t.unwanted(lines[i]) then false else FlagAfter(t, lines[..i]))
    ensures FilterLines(t, lines[..i + 1]) ==
            FilterLines(t, lines[..i]) + (if Appends(t, FlagAfter(t, lines[..i]), lines[i]) then [lines[i]] else [])
  {
    assert lines[..i + 1] == lines[..i] + [lines[i]];
    ScanStep(t, lines[..i], lines[i]);
  }

  /** Line `j` of `prefix` is a header and no marker follows it. */
  ghost predicate OpensAt(t: Tests, prefix: seq<string>, j: nat)
    requires j < |prefix|
  {
    t.header(prefix[j]) && forall k :: j < k < |prefix| ==> !IsMarker(t, prefix[k])
  }

  /** The nearest marker line in `prefix` exists and is a header. */
  ghost predicate LastMarkerIsHeader(t: Tests, prefix: seq<string>) {
    exists j :: 0 <= j < |prefix| && OpensAt(t, prefix, j)
  }

  /** Line `i` is kept: it is a header, or it is non-blank, carries no unwanted
      keyword, and the nearest marker above it is a header. */
  ghost predicate KeptAt(t: Tests, lines: seq<string>, i: nat)
    requires i < |lines|
  {
    t.header(lines[i]) ||
    (!t.blank(lines[i]) && !t.unwanted(lines[i]) && LastMarkerIsHeader(t, lines[..i]))
  }

  /** The lines `KeptAt` selects among the first `n`, in order. */
  ghost function KeptLines(t: Tests, lines: seq<string>, n: nat): seq<string>
    requires n <= |lines|
  {
    if n == 0 then []
    else KeptLines(t, lines, n - 1) + (if KeptAt(t, lines, n - 1) then [lines[n - 1]] else [])
  }

  /** The flag is set exactly when the nearest marker so far is a header. */
  lemma {:induction false} FlagAfterIsLastMarker(t: Tests, prefix: seq<string>)
    ensures FlagAfter(t, prefix) <==> LastMarkerIsHeader(t, prefix)
  {
    if prefix != [] {
      var n := |prefix| - 1;
      var q := prefix[..n];
      var line := prefix[n];
      if t.header(line) {
        assert OpensAt(t, prefix, n);
      } else if t.unwanted(line) {
        forall j | 0 <= j < |prefix| ensures !OpensAt(t, prefix, j) {
          if j < n {
            assert IsMarker(t, prefix[n]);
          }
        }
      } else {
        FlagAfterIsLastMarker(t, q);
        forall j | 0 <= j < n ensures OpensAt(t, q, j) <==> OpensAt(t, prefix, j) {
          assert forall k :: j < k < n ==> q[k] == prefix[k];
        }
        assert !OpensAt(t, prefix, n);
        if LastMarkerIsHeader(t, prefix) {
          var j :| 0 <= j < |prefix| && OpensAt(t, prefix, j);
          assert OpensAt(t, q, j);
        }
        if LastMarkerIsHeader(t, q) {
          var j :| 0 <= j < |q| && OpensAt(t, q, j);
          assert OpensAt(t, prefix, j);
        }
      }
    }
  }

  /** Reaching line `i`, the scan appends it exactly when `KeptAt` holds. */
  lemma FilterStep(t: Tests, lines: seq<string>, i: nat)
    requires i < |lines|
    ensures FilterLines(t, lines[..i + 1]) ==
            FilterLines(t, lines[..i]) + (if KeptAt(t, lines, i) then [lines[i]] else [])
  {
    assert lines[..i + 1][..i] == lines[..i];
    FlagAfterIsLastMarker(t, lines[..i]);
  }

  /** The scan keeps exactly the lines `KeptAt` describes, in their original order. */
  lemma {:induction false} FilterIsKeptLines(t: Tests, lines: seq<string>, n: nat)
    requires n <= |lines|
    ensures FilterLines(t, lines[..n]) == KeptLines(t, lines, n)
  {
    if n > 0 {
      FilterIsKeptLines(t, lines, n - 1);
      FilterStep(t, lines, n - 1);
    }
  }

  /** The output for a prefix of the lines is a prefix of the output. */
  lemma {:induction false} FilterPrefix(t: Tests, lines: seq<string>, n: nat)
    requires n <= |lines|
    ensures FilterLines(t, lines[..n]) <= FilterLines(t, lines)
    decreases |lines| - n
  {
    if n == |lines| {
      assert lines[..n] == lines;
    } else {
      FilterPrefix(t, lines, n + 1);
      FilterStep(t, lines, n);
    }
  }

  /** Where the output stands after line `i`: a kept line is appended right
      after what the lines above produced, a dropped line adds nothing. */
  lemma KeptLinePlace(t: Tests, lines: seq<string>, i: nat)
    requires i < |lines|
    ensures KeptAt(t, lines, i) ==> FilterLines(t, lines[..i]) + [lines[i]] <= FilterLines(t, lines)
    ensures !KeptAt(t, lines, i) ==> FilterLines(t, lines[..i + 1]) == FilterLines(t, lines[..i])
  {
    FilterStep(t, lines, i);
    FilterPrefix(t, lines, i + 1);
  }

  /** A header line is kept even when it also carries an unwanted keyword. */
  lemma HeaderKept(t: Tests, lines: seq<string>, i: nat)
    requires i < |lines| && t.header(lines[i])
    ensures FilterLines(t, lines[..i]) + [lines[i]] <= FilterLines(t, lines)
    ensures lines[i] in FilterLines(t, lines)
  {
    KeptLinePlace(t, lines, i);
    var out := FilterLines(t, lines);
    var k := |FilterLines(t, lines[..i])|;
    assert out[k] == (FilterLines(t, lines[..i]) + [lines[i]])[k];
  }

  /** Nothing above the first header survives. */
  lemma {:induction false} NothingBeforeFirstHeader(t: Tests, lines: seq<string>, n: nat)
    requires n <= |lines|
    requires forall k :: 0 <= k < n ==> !t.header(lines[k])
    ensures FilterLines(t, lines[..n]) == []
  {
    if n > 0 {
      NothingBeforeFirstHeader(t, lines, n - 1);
      FilterStep(t, lines, n - 1);
      var p := lines[..n - 1];
      forall j | 0 <= j < n - 1 ensures !OpensAt(t, p, j) {
        assert p[j] == lines[j];
      }
    }
  }

  /** The shape of a filter output: it is empty or opens with a header, and
      every line is a header or a non-blank line without unwanted keywords. */
  predicate Cleaned(t: Tests, out: seq<string>) {
    (out == [] || t.header(out[0])) &&
    forall k :: 0 <= k < |out| ==> t.header(out[k]) || (!t.unwanted(out[k]) && !t.blank(out[k]))
  }

  /** Every filter output has that shape, and an open flag means a header was kept. */
  lemma {:induction false} FilterIsCleaned(t: Tests, lines: seq<string>)
    ensures Cleaned(t, FilterLines(t, lines))
    ensures FlagAfter(t, lines) ==> FilterLines(t, lines) != []
  {
    if lines != [] {
      var q := lines[..|lines| - 1];
      FilterIsCleaned(t, q);
    }
  }

  /** Dropping the last line of a cleaned list leaves a cleaned list. */
  lemma CleanedPrefix(t: Tests, out: seq<string>)
    requires Cleaned(t, out) && out != []
    ensures Cleaned(t, out[..|out| - 1])
  {
    var q := out[..|out| - 1];
    forall k | 0 <= k < |q|
      ensures t.header(q[k]) || (!t.unwanted(q[k]) && !t.blank(q[k]))
    {
      assert q[k] == out[k];
    }
    assert q != [] ==> q[0] == out[0];
  }

  /** The filter leaves a cleaned list alone, and ends it with the flag open. */
  lemma {:induction false} CleanedIsFixed(t: Tests, out: seq<string>)
    requires Cleaned(t, out)
    ensures FilterLines(t, out) == out
    ensures FlagAfter(t, out) <==> out != []
  {
    if out != [] {
      var q := out[..|out| - 1];
      var last := out[|out| - 1];
      assert q + [last] == out;
      CleanedPrefix(t, out);
      CleanedIsFixed(t, q);
      ScanStep(t, q, last);
    }
  }

  /** Filtering filtered lines changes nothing. */
  lemma FilterIdempotent(t: Tests, lines: seq<string>)
    ensures FilterLines(t, FilterLines(t, lines)) == FilterLines(t, lines)
  {
    FilterIsCleaned(t, lines);
    CleanedIsFixed(t, FilterLines(t, lines));
  }

  /** The filter only deletes lines: what is left is verbatim and in order. */
  lemma {:induction false} FilterSubseq(t: Tests, lines: seq<string>)
    ensures Subseq(FilterLines(t, lines), lines)
  {
    if lines == [] {
      SubseqEmpty(lines);
    } else {
      var q := lines[..|lines| - 1];
      var line := lines[|lines| - 1];
      FilterSubseq(t, q);
      var tail := if Appends(t, FlagAfter(t, q), line) then [line] else [];
      if tail == [] {
        SubseqEmpty([line]);
      } else {
        SubseqRefl([line]);
      }
      SubseqConcat(FilterLines(t, q), q, tail, [line]);
      assert q + [line] == lines;
    }
  }

}
