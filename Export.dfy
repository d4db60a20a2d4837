/**
 * The text `download_recipe_pdf` hands to the PDF builder (main.py:196, 215-216):
 * the label text is trimmed, every markup tag matched by the non-greedy
 * pattern `\[.*?\]` is deleted (the pattern's `.` does not match a newline,
 * so a tag never spans two lines), and every newline becomes "<br/>".
 */
module Export {
  import opened Wrappers
  import opened Text

  /** Where the non-greedy pattern closes a tag whose "[" sits just before `t`:
      the index of the first "]" in `t`, unless a newline comes first. */
  function CloseIn(t: string): (r: Option<nat>)
    ensures r.Some? ==> r.value < |t|
  {
    if t == [] then None
    else if t[0] == ']' then Some(0)
    else if t[0] == '\n' then None
    else
      match CloseIn(t[1..])
      case Some(j) => Some(j + 1)
      case None => None
  }

  /** `CloseIn` finds the first "]" and nothing on the way is a newline. */
  lemma {:induction false} CloseInSome(t: string)
    requires CloseIn(t).Some?
    ensures var j := CloseIn(t).value;
      t[j] == ']' && forall k :: 0 <= k < j ==> t[k] != ']' && t[k] != '\n'
  {
    if t[0] != ']' {
      CloseInSome(t[1..]);
    }
  }

  /** `CloseIn` fails exactly when a newline comes before every "]". */
  lemma {:induction false} CloseInNone(t: string)
    ensures CloseIn(t).None? <==>
      forall k :: 0 <= k < |t| && t[k] == ']' ==> exists m :: 0 <= m < k && t[m] == '\n'
  {
    if t != [] && t[0] != ']' && t[0] != '\n' {
      CloseInNone(t[1..]);
      if CloseIn(t).None? {
        forall k | 0 <= k < |t| && t[k] == ']' ensures exists m :: 0 <= m < k && t[m] == '\n' {
          assert t[1..][k - 1] == ']';
          var m :| 0 <= m < k - 1 && t[1..][m] == '\n';
          assert t[m + 1] == '\n';
        }
      } else {
        var j := CloseIn(t[1..]).value;
        CloseInSome(t[1..]);
        assert t[j + 1] == ']';
        assert forall m :: 0 <= m < j + 1 ==> t[m] != '\n';
      }
    } else if t != [] && t[0] == ']' {
      assert t[0] == ']';
    }
  }

  /** `re.sub(r"\[.*?\]", "", s)`: at a "[" with a "]" later on the same line the
      tag up to that first "]" is dropped; any other character is kept. */
  function StripMarkup(s: string): string
    decreases |s|
  {
    if s == [] then []
    else if s[0] == '[' && CloseIn(s[1..]).Some? then StripMarkup(s[CloseIn(s[1..]).value + 2..])
    else [s[0]] + StripMarkup(s[1..])
  }

  /** No "[" of `r` opens a tag: each one lacks a "]" later on its line. */
  ghost predicate Unbracketed(r: string) {
    forall i :: 0 <= i < |r| && r[i] == '[' ==> CloseIn(r[i + 1..]).None?
  }

  /** Tag removal only deletes characters: the result is a subsequence of the text. */
  lemma {:induction false} StripMarkupSubseq(s: string)
    ensures Subseq(StripMarkup(s), s)
    decreases |s|
  {
    if s == [] {
      SubseqEmpty(s);
    } else if s[0] == '[' && CloseIn(s[1..]).Some? {
      var j := CloseIn(s[1..]).value;
      StripMarkupSubseq(s[j + 2..]);
      SubseqSkip(StripMarkup(s[j + 2..]), s[..j + 2], s[j + 2..]);
      assert s[..j + 2] + s[j + 2..] == s;
    } else {
      StripMarkupSubseq(s[1..]);
      SubseqConcat([s[0]], [s[0]], StripMarkup(s[1..]), s[1..]);
      SubseqRefl([s[0]]);
      assert [s[0]] + s[1..] == s;
    }
  }

  /** The search for "]" stops at a newline. */
  lemma {:induction false} CloseInLine(u: string, v: string)
    requires '\n' !in u
    ensures CloseIn(u + "\n" + v) == CloseIn(u)
  {
    if u == [] {
      assert (u + "\n" + v)[0] == '\n';
    } else {
      assert (u + "\n" + v)[1..] == u[1..] + "\n" + v;
      assert u[0] == (u + "\n" + v)[0];
      if u[0] != ']' {
        CloseInLine(u[1..], v);
      }
    }
  }

  /** Tags never span lines: the text is stripped line by line. */
  lemma {:induction false} StripMarkupLine(a: string, b: string)
    requires '\n' !in a
    ensures StripMarkup(a + "\n" + b) == StripMarkup(a) + "\n" + StripMarkup(b)
    decreases |a|
  {
    var s := a + "\n" + b;
    if a == [] {
      assert s == ['\n'] + b;
      assert s[1..] == b;
    } else {
      assert s[1..] == a[1..] + "\n" + b;
      assert '\n' !in a[1..];
      if a[0] == '[' {
        CloseInLine(a[1..], b);
      }
      if a[0] == '[' && CloseIn(a[1..]).Some? {
        var j := CloseIn(a[1..]).value;
        assert s[j + 2..] == a[j + 2..] + "\n" + b;
        assert '\n' !in a[j + 2..];
        StripMarkupLine(a[j + 2..], b);
      } else {
        StripMarkupLine(a[1..], b);
      }
    }
  }

  /** A text whose first line has no "]" keeps that line: its result still has no "]" before a newline. */
  lemma {:induction false} StripMarkupNoClose(t: string)
    requires CloseIn(t).None?
    ensures CloseIn(StripMarkup(t)).None?
    decreases |t|
  {
    if t != [] && t[0] != '\n' {
      assert t[0] != ']';
      assert CloseIn(t[1..]).None?;
      StripMarkupNoClose(t[1..]);
      var r := [t[0]] + StripMarkup(t[1..]);
      assert r[1..] == StripMarkup(t[1..]);
    }
  }

  /** Putting a character in front of an unbracketed text keeps it unbracketed,
      unless the character is a "[" that the text closes. */
  lemma UnbracketedCons(c: char, r: string)
    requires Unbracketed(r)
    requires c == '[' ==> CloseIn(r).None?
    ensures Unbracketed([c] + r)
  {
    var cr := [c] + r;
    forall i | 0 <= i < |cr| && cr[i] == '[' ensures CloseIn(cr[i + 1..]).None? {
      if i == 0 {
        assert cr[1..] == r;
      } else {
        assert cr[i + 1..] == r[i..];
        assert r[i - 1] == '[';
      }
    }
  }

  /** After tag removal no tag is left. */
  lemma {:induction false} StripMarkupUnbracketed(s: string)
    ensures Unbracketed(StripMarkup(s))
    decreases |s|
  {
    if s != [] {
      if s[0] == '[' && CloseIn(s[1..]).Some? {
        StripMarkupUnbracketed(s[CloseIn(s[1..]).value + 2..]);
      } else {
        StripMarkupUnbracketed(s[1..]);
        if s[0] == '[' {
          StripMarkupNoClose(s[1..]);
        }
        UnbracketedCons(s[0], StripMarkup(s[1..]));
      }
    }
  }

  /** Tag removal adds no newline. */
  lemma StripMarkupNoNewline(s: string)
    requires '\n' !in s
    ensures '\n' !in StripMarkup(s)
  {
    StripMarkupSubseq(s);
    SubseqElements(StripMarkup(s), s);
  }

  /** Each line with its tags removed. */
  function EachStripped(ls: seq<string>): (r: seq<string>)
    ensures |r| == |ls|
  {
    seq(|ls|, i requires 0 <= i < |ls| => StripMarkup(ls[i]))
  }

  /** Stripping joined lines strips each line. */
  lemma {:induction false} StripMarkupJoin(ls: seq<string>)
    requires forall p :: p in ls ==> '\n' !in p
    ensures StripMarkup(JoinWith(ls, "\n")) == JoinWith(EachStripped(ls), "\n")
  {
    if |ls| == 1 {
      assert EachStripped(ls) == [StripMarkup(ls[0])];
    } else if |ls| > 1 {
      var tail := ls[1..];
      assert ls == [ls[0]] + tail;
      assert EachStripped(ls) == [StripMarkup(ls[0])] + EachStripped(tail);
      assert ls[0] in ls;
      forall p | p in tail ensures '\n' !in p {
        assert p in ls;
      }
      JoinCons(ls[0], tail, "\n");
      JoinCons(StripMarkup(ls[0]), EachStripped(tail), "\n");
      StripMarkupLine(ls[0], JoinWith(tail, "\n"));
      StripMarkupJoin(tail);
    }
  }

  /** Tags never cross a newline: the stripped text has the same number of
      lines, and each is the matching input line with its tags removed. */
  lemma StripMarkupPerLine(s: string)
    ensures SplitOn(StripMarkup(s), '\n') == EachStripped(SplitOn(s, '\n'))
  {
    var lines := SplitOn(s, '\n');
    JoinSplit(s, '\n');
    SplitOnPieces(s, '\n');
    StripMarkupJoin(lines);
    var out := EachStripped(lines);
    forall p | p in out ensures '\n' !in p {
      var i :| 0 <= i < |out| && out[i] == p;
      assert lines[i] in lines;
      StripMarkupNoNewline(lines[i]);
    }
    SplitJoin(out, '\n');
  }

  /** A text without tags is left alone. */
  lemma {:induction false} StripMarkupFixed(s: string)
    requires Unbracketed(s)
    ensures StripMarkup(s) == s
  {
    if s != [] {
      assert s[0] == '[' ==> CloseIn(s[1..]).None?;
      forall i | 0 <= i < |s[1..]| && s[1..][i] == '[' ensures CloseIn(s[1..][i + 1..]).None? {
        assert s[i + 1] == '[';
        assert s[1..][i + 1..] == s[i + 2..];
      }
      StripMarkupFixed(s[1..]);
      assert [s[0]] + s[1..] == s;
    }
  }

  /** Removing tags twice is removing them once. */
  lemma StripMarkupIdempotent(s: string)
    ensures StripMarkup(StripMarkup(s)) == StripMarkup(s)
  {
    StripMarkupUnbracketed(s);
    StripMarkupFixed(StripMarkup(s));
  }

  /** A tag: "[", then characters other than "]" and newline, then "]". */
  predicate IsTag(tag: string) {
    |tag| >= 2 && tag[0] == '[' && tag[|tag| - 1] == ']' &&
    forall k :: 1 <= k < |tag| - 1 ==> tag[k] != ']' && tag[k] != '\n'
  }

  /** A tag at the front is dropped whole. */
  lemma TagDropped(tag: string, rest: string)
    requires IsTag(tag)
    ensures StripMarkup(tag + rest) == StripMarkup(rest)
  {
    var s := tag + rest;
    var n := |tag|;
    assert s[1..] == tag[1..n - 1] + ([']'] + rest);
    CloseInFirst(tag[1..n - 1], [']'] + rest);
    assert s[n..] == rest;
  }

  /** `CloseIn` finds the "]" that ends a run without "]" and newline. */
  lemma {:induction false} CloseInFirst(u: string, v: string)
    requires forall k :: 0 <= k < |u| ==> u[k] != ']' && u[k] != '\n'
    requires v != [] && v[0] == ']'
    ensures CloseIn(u + v) == Some(|u|)
  {
    if u == [] {
      assert u + v == v;
    } else {
      assert (u + v)[1..] == u[1..] + v;
      assert (u + v)[0] == u[0];
      CloseInFirst(u[1..], v);
    }
  }

  /** Text without "[" passes through unchanged. */
  lemma {:induction false} PlainKept(body: string, rest: string)
    requires '[' !in body
    ensures StripMarkup(body + rest) == body + StripMarkup(rest)
  {
    if body == [] {
      assert body + rest == rest;
    } else {
      assert (body + rest)[1..] == body[1..] + rest;
      assert (body + rest)[0] == body[0];
      PlainKept(body[1..], rest);
      assert [body[0]] + (body[1..] + StripMarkup(rest)) == body + StripMarkup(rest);
    }
  }

  /** Text between an opening and a closing tag is what remains. */
  lemma Wrapped(open: string, body: string, close: string)
    requires IsTag(open) && IsTag(close) && '[' !in body
    ensures StripMarkup(open + body + close) == body
  {
    assert open + body + close == open + (body + close);
    TagDropped(open, body + close);
    PlainKept(body, close);
    assert close == close + [];
    TagDropped(close, []);
  }

  /** Without "]" and newline nothing closes. */
  lemma {:induction false} CloseInPlain(u: string)
    requires ']' !in u && '\n' !in u
    ensures CloseIn(u).None?
  {
    if u != [] {
      assert u[0] in u;
      assert forall c :: c in u[1..] ==> c in u;
      CloseInPlain(u[1..]);
    }
  }

  /** A "[" that does not close is kept. */
  lemma OpenKept(t: string)
    requires CloseIn(t).None?
    ensures StripMarkup("[" + t) == "[" + StripMarkup(t)
  {
    assert ("[" + t)[0] == '[';
    assert ("[" + t)[1..] == t;
  }

  /** A lone "]" is kept. */
  lemma CloseKept()
    ensures StripMarkup("]") == "]"
  {
    assert "]"[0] == ']';
    assert "]"[1..] == [];
  }

  /** A "[" before a first line without "]" finds no close. */
  lemma SpanNoClose(a: string, b: string)
    requires ']' !in a && '\n' !in a
    ensures CloseIn(a + "\n" + b + "]").None?
  {
    assert a + "\n" + b + "]" == a + "\n" + (b + "]");
    CloseInPlain(a);
    CloseInLine(a, b + "]");
  }

  /** A "[" whose "]" lies on a later line is no tag: the whole span survives
      tag removal, and the newline inside it later becomes "<br/>". */
  lemma SpanAcrossLines(a: string, b: string)
    requires '[' !in a && ']' !in a && '\n' !in a && '[' !in b
    ensures StripMarkup("[" + a + "\n" + b + "]") == "[" + a + "\n" + b + "]"
  {
    var body := a + "\n" + b;
    var t := body + "]";
    assert "[" + a + "\n" + b + "]" == "[" + t;
    SpanNoClose(a, b);
    OpenKept(t);
    assert '[' !in body;
    PlainKept(body, "]");
    CloseKept();
  }

  /** `text.replace("\n", "<br/>")` */
  function ReplaceNewlines(s: string): string {
    if s == [] then []
    else (if s[0] == '\n' then "<br/>" else [s[0]]) + ReplaceNewlines(s[1..])
  }

  /** The replacement joins the text's lines with "<br/>", so no newline is left. */
  lemma {:induction false} ReplaceNewlinesJoin(s: string)
    ensures ReplaceNewlines(s) == JoinWith(SplitOn(s, '\n'), "<br/>")
    ensures '\n' !in ReplaceNewlines(s)
  {
    if s != [] {
      ReplaceNewlinesJoin(s[1..]);
      var rest := SplitOn(s[1..], '\n');
      if s[0] == '\n' {
        JoinCons("", rest, "<br/>");
        assert "" + "<br/>" == "<br/>";
      } else {
        JoinConsHead(s[0], rest, "<br/>");
      }
    }
  }

  /** What goes into the PDF paragraph for the label text `text`. */
  function PrepareExport(text: string): string {
    ReplaceNewlines(StripMarkup(Strip(text)))
  }

  /** The exported text is the trimmed label's lines, each without tags, joined with "<br/>". */
  lemma PrepareExportLines(text: string)
    ensures PrepareExport(text) == JoinWith(SplitOn(StripMarkup(Strip(text)), '\n'), "<br/>")
    ensures '\n' !in PrepareExport(text)
    ensures Unbracketed(StripMarkup(Strip(text)))
  {
    ReplaceNewlinesJoin(StripMarkup(Strip(text)));
    StripMarkupUnbracketed(Strip(text));
  }

  /** A colored title loses its color tags. */
  lemma ExportExample()
    ensures StripMarkup("[color=00aa00]" + "Title: X" + "[/color]") == "Title: X"
  {
    assert IsTag("[color=00aa00]");
    assert IsTag("[/color]");
    Wrapped("[color=00aa00]", "Title: X", "[/color]");
  }
}
