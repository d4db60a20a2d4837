/**
 * The recipe text filter, `RecipeAppLayout.clean_recipe_text` (main.py:170-185).
 *
 * The text is split into lines and scanned top to bottom with one flag,
 * `keep`, initially false. A header line (its lowercased, trimmed form
 * contains "title:", "ingredients:" or "instructions:") sets the flag and is
 * always kept. Any other line that contains one of the unwanted keywords
 * clears the flag; then a non-blank line is kept while the flag is set.
 * The kept lines are joined with "\n".
 */
module RecipeFilter {
  import opened Text
  import opened LineScan

  /** `line.lower().strip()` */
  function Normalized(line: string): string {
    Strip(Lower(line))
  }

  const HeaderWords: seq<string> := ["title:", "ingredients:", "instructions:"]
  const UnwantedKeywords: seq<string> := ["suggest", "tip", "note", "serving", "enjoy", "conclusion"]

  /** `any(k in s for k in words)` */
  predicate ContainsAny(s: string, words: seq<string>) {
    words != [] && (Contains(s, words[0]) || ContainsAny(s, words[1..]))
  }

  predicate HasHeaderWord(lower: string) {
    ContainsAny(lower, HeaderWords)
  }

  predicate HasUnwantedWord(lower: string) {
    ContainsAny(lower, UnwantedKeywords)
  }

  predicate IsHeader(line: string) {
    HasHeaderWord(Normalized(line))
  }

  predicate IsUnwanted(line: string) {
    HasUnwantedWord(Normalized(line))
  }

  /** `not line.strip()` */
  predicate IsBlank(line: string) {
    Strip(line) == []
  }

  /** The tests `clean_recipe_text` applies to each line. */
  const RecipeTests: Tests := Tests(IsHeader, IsUnwanted, IsBlank)

  /** What `clean_recipe_text(text)` returns. */
  function CleanText(text: string): string {
    JoinWith(FilterLines(RecipeTests, SplitOn(text, '\n')), "\n")
  }

  /** `clean_recipe_text` as the loop it is. */
  method CleanRecipeText(text: string) returns (cleaned: string)
    ensures cleaned == CleanText(text)
  {
    var lines := SplitOn(text, '\n');
    var filtered: seq<string> := [];
    var keep := false;
    for i := 0 to |lines|
      invariant filtered == FilterLines(RecipeTests, lines[..i])
      invariant keep == FlagAfter(RecipeTests, lines[..i])
    {
      var line := lines[i];
      ScanAt(RecipeTests, lines, i);
      var lower := Normalized(line);
      if HasHeaderWord(lower) {
        keep := true;
        filtered := filtered + [line];
        continue;
      }
      if HasUnwantedWord(lower) {
        keep := false;
      }
      if keep && Strip(line) != [] {
        filtered := filtered + [line];
      }
    }
    assert lines[..|lines|] == lines;
    cleaned := JoinWith(filtered, "\n");
  }

  /** The cleaned text is some input lines, rejoined: its own lines are a
      subsequence of the input's lines. */
  lemma CleanTextLines(text: string)
    ensures var kept := FilterLines(RecipeTests, SplitOn(text, '\n'));
      Subseq(kept, SplitOn(text, '\n')) &&
      CleanText(text) == JoinWith(kept, "\n") &&
      (kept != [] ==> SplitOn(CleanText(text), '\n') == kept)
    ensures CleanText(text) != [] ==> Subseq(SplitOn(CleanText(text), '\n'), SplitOn(text, '\n'))
  {
    var lines := SplitOn(text, '\n');
    var kept := FilterLines(RecipeTests, lines);
    FilterSubseq(RecipeTests, lines);
    SubseqElements(kept, lines);
    SplitOnPieces(text, '\n');
    if kept != [] {
      SplitJoin(kept, '\n');
    }
  }

  /** The empty text cleans to itself: its one empty line is no header. */
  lemma CleanEmpty()
    ensures CleanText("") == ""
  {
    assert SplitOn("", '\n') == [""];
    assert Normalized("") == "";
    assert !IsHeader("");
    ScanStep(RecipeTests, [], "");
    assert [] + [""] == [""];
  }

  /** `clean_recipe_text` is idempotent. */
  lemma CleanIdempotent(text: string)
    ensures CleanText(CleanText(text)) == CleanText(text)
  {
    var lines := SplitOn(text, '\n');
    var kept := FilterLines(RecipeTests, lines);
    CleanTextLines(text);
    if kept == [] {
      CleanEmpty();
    } else {
      FilterIdempotent(RecipeTests, lines);
    }
  }

  lemma AnyCons(s: string, w: string, ws: seq<string>)
    ensures ContainsAny(s, [w] + ws) <==> Contains(s, w) || ContainsAny(s, ws)
  {
    assert ([w] + ws)[1..] == ws;
  }

  /** The header test spelled out word by word. */
  lemma HeaderWordsCases(s: string)
    ensures HasHeaderWord(s) <==>
      Contains(s, "title:") || Contains(s, "ingredients:") || Contains(s, "instructions:")
  {
    assert HeaderWords == ["title:"] + (["ingredients:"] + (["instructions:"] + []));
    AnyCons(s, "title:", ["ingredients:"] + (["instructions:"] + []));
    AnyCons(s, "ingredients:", ["instructions:"] + []);
    AnyCons(s, "instructions:", []);
  }

  /** The unwanted-keyword test spelled out word by word. */
  lemma UnwantedCases(s: string)
    ensures HasUnwantedWord(s) <==>
      Contains(s, "suggest") || Contains(s, "tip") || Contains(s, "note") ||
      Contains(s, "serving") || Contains(s, "enjoy") || Contains(s, "conclusion")
  {
    var w5: seq<string> := ["conclusion"] + [];
    var w4 := ["enjoy"] + w5;
    var w3 := ["serving"] + w4;
    var w2 := ["note"] + w3;
    var w1 := ["tip"] + w2;
    assert UnwantedKeywords == ["suggest"] + w1;
    AnyCons(s, "suggest", w1);
    AnyCons(s, "tip", w2);
    AnyCons(s, "note", w3);
    AnyCons(s, "serving", w4);
    AnyCons(s, "enjoy", w5);
    AnyCons(s, "conclusion", []);
  }

  /** Every header word ends in a colon, so a header line has one. */
  lemma HeaderHasColon(line: string)
    ensures IsHeader(line) ==> ':' in line
  {
    if ':' !in line {
      var n := Normalized(line);
      if ':' in Lower(line) {
        InLower(line, ':');
      }
      StripLacks(Lower(line), ':');
      HeaderWordsCases(n);
      NotContainsChar(n, "title:", ':');
      NotContainsChar(n, "ingredients:", ':');
      NotContainsChar(n, "instructions:", ':');
    }
  }

  /** A letter missing from the line in both cases is missing from its normalized form. */
  lemma AbsentLetter(line: string, c: char)
    requires 'a' <= c <= 'z' && c !in line && (c as int - 32) as char !in line
    ensures c !in Normalized(line)
  {
    if c in Lower(line) {
      InLower(line, c);
    }
    StripLacks(Lower(line), c);
  }

  /** A word with a letter the line lacks in both cases does not occur in the normalized line. */
  lemma WordAbsent(line: string, w: string, c: char)
    requires 'a' <= c <= 'z' && c in w && c !in line && (c as int - 32) as char !in line
    ensures !Contains(Normalized(line), w)
  {
    AbsentLetter(line, c);
    NotContainsChar(Normalized(line), w, c);
  }

  /** A line whose lowered form has no surrounding whitespace and carries a
      header word is a header. */
  lemma HeaderByLower(line: string)
    requires Trimmed(Lower(line)) && HasHeaderWord(Lower(line))
    ensures IsHeader(line)
  {
    StripTrimmed(Lower(line));
  }

  /** Likewise for an unwanted keyword. */
  lemma UnwantedByLower(line: string)
    requires Trimmed(Lower(line)) && HasUnwantedWord(Lower(line))
    ensures IsUnwanted(line)
  {
    StripTrimmed(Lower(line));
  }

  /** A visible line without a colon and without any of the letters g, t, n, s, e, c
      is an ordinary line: no header, no unwanted keyword, not blank. */
  lemma PlainLine(l: string)
    requires l != [] && !IsSpace(l[0])
    requires ':' !in l
    requires 'g' !in l && 't' !in l && 'n' !in l && 's' !in l && 'e' !in l && 'c' !in l
    requires 'G' !in l && 'T' !in l && 'N' !in l && 'S' !in l && 'E' !in l && 'C' !in l
    ensures !IsHeader(l) && !IsUnwanted(l) && !IsBlank(l)
  {
    HeaderHasColon(l);
    StripEmpty(l);
    var n := Normalized(l);
    AbsentLetter(l, 'g');
    AbsentLetter(l, 't');
    AbsentLetter(l, 'n');
    AbsentLetter(l, 's');
    AbsentLetter(l, 'e');
    AbsentLetter(l, 'c');
    UnwantedCases(n);
    NotContainsChar(n, "suggest", 'g');
    NotContainsChar(n, "tip", 't');
    NotContainsChar(n, "note", 'n');
    NotContainsChar(n, "serving", 's');
    NotContainsChar(n, "enjoy", 'e');
    NotContainsChar(n, "conclusion", 'c');
  }

  /** The scan on seven lines shaped like the worked example below: a preamble,
      three headers, an ordinary line, an unwanted line, and a final ordinary line. */
  lemma ScanShape(t: Tests, l0: string, l1: string, l2: string, l3: string, l4: string, l5: string, l6: string)
    requires !t.header(l0)
    requires t.header(l1) && t.header(l2) && t.header(l5)
    requires !t.header(l3) && !t.unwanted(l3) && !t.blank(l3)
    requires !t.header(l4) && t.unwanted(l4)
    requires !t.header(l6) && !t.unwanted(l6) && !t.blank(l6)
    ensures FilterLines(t, [l0, l1, l2, l3, l4, l5, l6]) == [l1, l2, l3, l5, l6]
  {
    var p1 := [] + [l0];
    var p2 := p1 + [l1];
    var p3 := p2 + [l2];
    var p4 := p3 + [l3];
    var p5 := p4 + [l4];
    var p6 := p5 + [l5];
    var p7 := p6 + [l6];
    assert p7 == [l0, l1, l2, l3, l4, l5, l6];
    ScanStep(t, [], l0);
    ScanStep(t, p1, l1);
    ScanStep(t, p2, l2);
    ScanStep(t, p3, l3);
    ScanStep(t, p4, l4);
    ScanStep(t, p5, l5);
    ScanStep(t, p6, l6);
  }
}
