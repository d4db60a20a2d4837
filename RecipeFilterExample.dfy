/**
 * The worked example of `clean_recipe_text`: the introduction before the
 * first header and the tip are dropped, and the tip keeps the flag closed
 * until "Instructions:" reopens it. The texts are written as concatenations
 * of their lines.
 */
module RecipeFilterExample {
  import opened Text
  import opened LineScan
  import opened RecipeFilter


  const ExampleText := "Intro text" + "\n" + "Title: X" + "\n" + "Ingredients:" + "\n" + "- a" + "\n" +
    "Tip: use fresh a" + "\n" + "Instructions:" + "\n" + "1. do"
  const ExampleLines: seq<string> :=
    ["Intro text", "Title: X", "Ingredients:", "- a", "Tip: use fresh a", "Instructions:", "1. do"]
  const ExampleKept: seq<string> := ["Title: X", "Ingredients:", "- a", "Instructions:", "1. do"]
  const ExampleCleaned := "Title: X" + "\n" + "Ingredients:" + "\n" + "- a" + "\n" + "Instructions:" + "\n" + "1. do"

  lemma IntroLine(l: string)
    requires l == "Intro text"
    ensures !IsHeader(l)
  {
    IntroLetters(l);
    HeaderHasColon(l);
  }

  lemma IntroLetters(l: string)
    requires l == "Intro text"
    ensures ':' !in l
  {
  }

  lemma TitleLine(l: string)
    requires l == "Title: X"
    ensures IsHeader(l)
  {
    var low := Lower(l);
    assert "title:" <= low && Trimmed(low);
    assert Contains(low, "title:");
    HeaderWordsCases(low);
    HeaderByLower(l);
  }

  lemma IngredientsLine(l: string)
    requires l == "Ingredients:"
    ensures IsHeader(l)
  {
    var low := Lower(l);
    assert "ingredients:" <= low && Trimmed(low);
    assert Contains(low, "ingredients:");
    HeaderWordsCases(low);
    HeaderByLower(l);
  }

  lemma InstructionsLine(l: string)
    requires l == "Instructions:"
    ensures IsHeader(l)
  {
    var low := Lower(l);
    assert "instructions:" <= low && Trimmed(low);
    assert Contains(low, "instructions:");
    HeaderWordsCases(low);
    HeaderByLower(l);
  }

  /** The ingredient item and the step are ordinary lines. */
  lemma OrdinaryLine(l: string)
    requires l == "- a" || l == "1. do"
    ensures !IsHeader(l) && !IsUnwanted(l) && !IsBlank(l)
  {
    if l == "- a" {
      PlainLine(l);
    } else {
      PlainLine(l);
    }
  }

  lemma TipUnwanted(l: string)
    requires l == "Tip: use fresh a"
    ensures IsUnwanted(l)
  {
    var low := Lower(l);
    assert "tip" <= low && Trimmed(low);
    assert Contains(low, "tip");
    UnwantedCases(low);
    UnwantedByLower(l);
  }

  lemma TipLetters(l: string)
    requires l == "Tip: use fresh a"
    ensures 'l' !in l && 'L' !in l && 'g' !in l && 'G' !in l && 'c' !in l && 'C' !in l
  {
    assert 'l' !in l && 'L' !in l;
    assert 'g' !in l && 'G' !in l;
  }

  lemma TipNotHeader(l: string)
    requires l == "Tip: use fresh a"
    ensures !IsHeader(l)
  {
    TipLetters(l);
    WordAbsent(l, "title:", 'l');
    WordAbsent(l, "ingredients:", 'g');
    WordAbsent(l, "instructions:", 'c');
    HeaderWordsCases(Normalized(l));
  }

  lemma JoinFive(l0: string, l1: string, l2: string, l3: string, l4: string, sep: string)
    ensures JoinWith([l0, l1, l2, l3, l4], sep) == l0 + sep + l1 + sep + l2 + sep + l3 + sep + l4
  {
    JoinCons(l3, [l4], sep);
    assert [l2, l3, l4] == [l2] + [l3, l4];
    JoinCons(l2, [l3, l4], sep);
    assert [l1, l2, l3, l4] == [l1] + [l2, l3, l4];
    JoinCons(l1, [l2, l3, l4], sep);
    assert [l0, l1, l2, l3, l4] == [l0] + [l1, l2, l3, l4];
    JoinCons(l0, [l1, l2, l3, l4], sep);
  }

  lemma JoinSeven(l0: string, l1: string, l2: string, l3: string, l4: string, l5: string, l6: string, sep: string)
    ensures JoinWith([l0, l1, l2, l3, l4, l5, l6], sep) ==
            l0 + sep + l1 + sep + l2 + sep + l3 + sep + l4 + sep + l5 + sep + l6
  {
    JoinFive(l2, l3, l4, l5, l6, sep);
    assert [l1, l2, l3, l4, l5, l6] == [l1] + [l2, l3, l4, l5, l6];
    JoinCons(l1, [l2, l3, l4, l5, l6], sep);
    assert [l0, l1, l2, l3, l4, l5, l6] == [l0] + [l1, l2, l3, l4, l5, l6];
    JoinCons(l0, [l1, l2, l3, l4, l5, l6], sep);
  }

  lemma ExampleNoNewline()
    ensures forall p :: p in ExampleLines ==> '\n' !in p
  {
  }

  lemma ExampleSplit()
    ensures SplitOn(ExampleText, '\n') == ExampleLines
  {
    JoinSeven("Intro text", "Title: X", "Ingredients:", "- a", "Tip: use fresh a", "Instructions:", "1. do", "\n");
    ExampleNoNewline();
    SplitJoin(ExampleLines, '\n');
  }

  lemma ExampleFilter()
    ensures FilterLines(RecipeTests, ExampleLines) == ExampleKept
  {
    IntroLine("Intro text");
    TitleLine("Title: X");
    IngredientsLine("Ingredients:");
    OrdinaryLine("- a");
    OrdinaryLine("1. do");
    TipUnwanted("Tip: use fresh a");
    TipNotHeader("Tip: use fresh a");
    InstructionsLine("Instructions:");
    ScanShape(RecipeTests, "Intro text", "Title: X", "Ingredients:", "- a", "Tip: use fresh a", "Instructions:", "1. do");
  }

  /** The worked example end to end. */
  lemma CleanExample()
    ensures CleanText(ExampleText) == ExampleCleaned
  {
    ExampleSplit();
    ExampleFilter();
    JoinFive("Title: X", "Ingredients:", "- a", "Instructions:", "1. do", "\n");
  }
}
