/**
 * Parsing the model's reply into dish names (main.py:112): newlines count as
 * commas, the text is split on commas, every piece is trimmed, and empty
 * pieces are dropped.
 */
module Dishes {
  import opened Text

  /** `[p.strip() for p in pieces if p.strip()]` */
  function TrimPieces(pieces: seq<string>): seq<string> {
    if pieces == [] then []
    else
      var d := Strip(pieces[0]);
      (if d != [] then [d] else []) + TrimPieces(pieces[1..])
  }

  /** The dish list built from the reply `text`. */
  function ParseDishes(text: string): seq<string> {
    TrimPieces(SplitOn(ReplaceChar(text, '\n', ','), ','))
  }

  /** A name as the parser produces it: non-empty, trimmed, with no comma and no newline. */
  predicate IsDishName(d: string) {
    d != [] && Trimmed(d) && ',' !in d && '\n' !in d
  }

  lemma TrimCons(p: string, ps: seq<string>)
    ensures TrimPieces([p] + ps) == (if Strip(p) != [] then [Strip(p)] else []) + TrimPieces(ps)
  {
    assert ([p] + ps)[1..] == ps;
  }

  /** A piece lacking `x` that trims to something non-empty trims to a name lacking `x`. */
  lemma TrimmedLacking(p: string, x: char)
    requires x !in p && Strip(p) != []
    ensures var d := Strip(p); d != [] && Trimmed(d) && x !in d
  {
    StripLacks(p, x);
  }

  /** Trimming pieces that lack a character yields names that lack it. */
  lemma {:induction false} TrimPiecesShape(pieces: seq<string>, x: char)
    requires forall p :: p in pieces ==> x !in p
    ensures forall d :: d in TrimPieces(pieces) ==> d != [] && Trimmed(d) && x !in d
  {
    if pieces != [] {
      var p := pieces[0];
      assert pieces == [p] + pieces[1..];
      TrimCons(p, pieces[1..]);
      assert p in pieces;
      if Strip(p) != [] {
        TrimmedLacking(p, x);
      }
      forall q | q in pieces[1..] ensures x !in q {
        assert q in pieces;
      }
      TrimPiecesShape(pieces[1..], x);
    }
  }

  /** Every parsed dish is a well-formed name. */
  lemma ParsedAreNames(text: string)
    ensures forall d :: d in ParseDishes(text) ==> IsDishName(d)
  {
    var replaced := ReplaceChar(text, '\n', ',');
    var pieces := SplitOn(replaced, ',');
    SplitOnPieces(replaced, ',');
    TrimPiecesShape(pieces, ',');
    ReplaceRemoves(text, '\n', ',');
    SplitOnLacks(replaced, ',', '\n');
    TrimPiecesShape(pieces, '\n');
  }

  /** A reply without commas or newlines is at most one dish: itself, trimmed. */
  lemma SingleDish(text: string)
    requires ',' !in text && '\n' !in text
    ensures ParseDishes(text) == if Strip(text) == [] then [] else [Strip(text)]
  {
    ReplaceAbsent(text, '\n', ',');
    SplitOnNoSep(text, ',');
    TrimCons(text, []);
  }

  /** What the parser sees of the first name: optionally one leading space, no comma. */
  lemma FirstPiece(pre: string, n: string)
    requires pre == "" || pre == " "
    requires IsDishName(n)
    ensures Strip(pre + n) == n && ',' !in pre + n
  {
    StripTrimmed(n);
    if pre == "" {
      assert pre + n == n;
    } else {
      assert pre + n == [' '] + n;
      StripSpaceCons(' ', n);
    }
  }

  /** Nothing, or a lone space, parses to no dishes. */
  lemma NoPieces(pre: string)
    requires pre == "" || pre == " "
    ensures TrimPieces(SplitOn(pre, ',')) == []
  {
    if pre == "" {
      assert Strip("") == [];
    } else {
      assert Strip(" ") == [];
      SplitOnNoSep(" ", ',');
    }
    TrimCons(pre, []);
    assert [pre] + [] == [pre];
  }

  /** The first name and the separator ", " split off the rest. */
  lemma SplitFirst(pre: string, names: seq<string>)
    requires |names| > 1 && ',' !in pre + names[0]
    ensures SplitOn(pre + JoinWith(names, ", "), ',') ==
            [pre + names[0]] + SplitOn(" " + JoinWith(names[1..], ", "), ',')
  {
    var n := names[0];
    var rest := JoinWith(names[1..], ", ");
    assert names == [n] + names[1..];
    JoinCons(n, names[1..], ", ");
    assert pre + JoinWith(names, ", ") == (pre + n) + [','] + (" " + rest);
    SplitOnAt(pre + n, ',', " " + rest);
  }

  lemma OneName(pre: string, names: seq<string>)
    requires pre == "" || pre == " "
    requires |names| == 1 && IsDishName(names[0])
    ensures TrimPieces(SplitOn(pre + JoinWith(names, ", "), ',')) == names
  {
    var n := names[0];
    FirstPiece(pre, n);
    assert pre + JoinWith(names, ", ") == pre + n;
    SplitOnNoSep(pre + n, ',');
    TrimCons(pre + n, []);
  }

  lemma MoreNames(pre: string, names: seq<string>)
    requires pre == "" || pre == " "
    requires |names| > 1 && IsDishName(names[0])
    requires TrimPieces(SplitOn(" " + JoinWith(names[1..], ", "), ',')) == names[1..]
    ensures TrimPieces(SplitOn(pre + JoinWith(names, ", "), ',')) == names
  {
    var n := names[0];
    assert names == [n] + names[1..];
    var tail := SplitOn(" " + JoinWith(names[1..], ", "), ',');
    FirstPiece(pre, n);
    SplitFirst(pre, names);
    assert SplitOn(pre + JoinWith(names, ", "), ',') == [pre + n] + tail;
    TrimCons(pre + n, tail);
    assert TrimPieces([pre + n] + tail) == [n] + names[1..];
  }

  /** Parsing `pre + ", ".join(names)` gives the names back, for `pre` empty or one space. */
  lemma {:induction false} ParseJoinedFrom(names: seq<string>, pre: string)
    requires forall d :: d in names ==> IsDishName(d)
    requires pre == "" || pre == " "
    ensures TrimPieces(SplitOn(pre + JoinWith(names, ", "), ',')) == names
  {
    if names == [] {
      assert pre + JoinWith(names, ", ") == pre;
      NoPieces(pre);
    } else {
      assert names[0] in names;
      if |names| == 1 {
        OneName(pre, names);
      } else {
        forall d | d in names[1..] ensures IsDishName(d) {
          assert d in names;
        }
        ParseJoinedFrom(names[1..], " ");
        MoreNames(pre, names);
      }
    }
  }

  /** The round trip: names joined with ", " (the format the prompt asks for) parse back unchanged. */
  lemma ParseJoined(names: seq<string>)
    requires forall d :: d in names ==> IsDishName(d)
    ensures ParseDishes(JoinWith(names, ", ")) == names
  {
    var text := JoinWith(names, ", ");
    NoNewlineInJoin(names);
    ReplaceAbsent(text, '\n', ',');
    ParseJoinedFrom(names, "");
    assert "" + text == text;
  }

  lemma {:induction false} NoNewlineInJoin(names: seq<string>)
    requires forall d :: d in names ==> IsDishName(d)
    ensures '\n' !in JoinWith(names, ", ")
  {
    if names != [] {
      assert names[0] in names;
      if |names| > 1 {
        forall d | d in names[1..] ensures IsDishName(d) {
          assert d in names;
        }
        NoNewlineInJoin(names[1..]);
      }
    }
  }

  lemma TrimThree(x: string, y: string, z: string)
    requires Strip(x) != [] && Strip(y) != [] && Strip(z) != []
    ensures TrimPieces([x, y, z]) == [Strip(x), Strip(y), Strip(z)]
  {
    assert [x, y, z] == [x] + [y, z];
    assert [y, z] == [y] + [z];
    assert [z] == [z] + [];
    TrimCons(z, []);
    TrimCons(y, [z]);
    TrimCons(x, [y, z]);
  }

  lemma ReplaceInThree(a: string, b: string, c: string)
    requires '\n' !in a && '\n' !in b && '\n' !in c
    ensures ReplaceChar(a + ", " + b + "\n" + c, '\n', ',') == a + [','] + ((" " + b) + [','] + c)
  {
    ReplaceConcat(a + ", " + b, "\n" + c, '\n', ',');
    ReplaceConcat(a + ", ", b, '\n', ',');
    ReplaceConcat(a, ", ", '\n', ',');
    ReplaceConcat("\n", c, '\n', ',');
    ReplaceAbsent(a, '\n', ',');
    ReplaceAbsent(b, '\n', ',');
    ReplaceAbsent(c, '\n', ',');
    ReplaceAbsent(", ", '\n', ',');
  }

  lemma SplitThree(a: string, b: string, c: string)
    requires ',' !in a && ',' !in b && ',' !in c
    ensures SplitOn(a + [','] + ((" " + b) + [','] + c), ',') == [a, " " + b, c]
  {
    assert ',' !in " " + b;
    SplitOnAt(a, ',', (" " + b) + [','] + c);
    SplitOnAt(" " + b, ',', c);
    SplitOnNoSep(c, ',');
  }

  /** Three names, the first two separated by ", ", the last two by a newline. */
  lemma ThreeNames(a: string, b: string, c: string)
    requires IsDishName(a) && IsDishName(b) && IsDishName(c)
    ensures ParseDishes(a + ", " + b + "\n" + c) == [a, b, c]
  {
    ReplaceInThree(a, b, c);
    SplitThree(a, b, c);
    FirstPiece(" ", b);
    StripTrimmed(a);
    StripTrimmed(c);
    TrimThree(a, " " + b, c);
  }

  /** A non-empty word of ASCII letters is a dish name. */
  lemma LetterWord(w: string)
    requires w != [] && forall i :: 0 <= i < |w| ==> 'A' <= w[i] <= 'Z' || 'a' <= w[i] <= 'z'
    ensures IsDishName(w)
  {
  }

  /** "Pasta, Salad" and a newline, then "Soup": three dishes in reply order. */
  lemma DishesExample()
    ensures ParseDishes("Pasta" + ", " + "Salad" + "\n" + "Soup") == ["Pasta", "Salad", "Soup"]
  {
    LetterWord("Pasta");
    LetterWord("Salad");
    LetterWord("Soup");
    ThreeNames("Pasta", "Salad", "Soup");
  }
}
