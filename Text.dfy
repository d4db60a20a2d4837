/**
 * The string operations of Python's `str` that the application relies on,
 * restricted to ASCII: `isspace`, `lower`, `strip`, `in` (substring),
 * `split` on one character, `join` and `replace`, plus the
 * subsequence relation used to state what the filters keep.
 */
module Text {

  /** Python's `str.isspace()` on ASCII: space, tab, line feed, vertical tab,
      form feed, carriage return and the four information separators. */
  predicate IsSpace(c: char) {
    c == ' ' || ('\t' <= c <= '\r') || ('\U{1C}' <= c <= '\U{1F}')
  }

  function LowerChar(c: char): char {
    if 'A' <= c <= 'Z' then (c as int + 32) as char else c
  }

  /** `s.lower()`, ASCII letters only. */
  function Lower(s: string): (r: string)
    ensures |r| == |s|
  {
    seq(|s|, i requires 0 <= i < |s| => LowerChar(s[i]))
  }

  /** A character of the lowered text comes from the same character or, for a
      lower-case letter, from its capital. */
  lemma InLower(s: string, c: char)
    requires c in Lower(s)
    ensures c in s || ('a' <= c <= 'z' && (c as int - 32) as char in s)
  {
    var i :| 0 <= i < |s| && Lower(s)[i] == c;
    assert s[i] == c || ('A' <= s[i] <= 'Z' && (s[i] as int + 32) as char == c);
  }

  /** Drops leading whitespace. */
  function StripLeft(s: string): string {
    if s != [] && IsSpace(s[0]) then StripLeft(s[1..]) else s
  }

  /** Drops trailing whitespace. */
  function StripRight(s: string): string {
    if s != [] && IsSpace(s[|s| - 1]) then StripRight(s[..|s| - 1]) else s
  }

  /** `StripLeft` keeps the longest suffix not starting with whitespace. */
  lemma {:induction false} StripLeftShape(s: string)
    ensures var r := StripLeft(s);
      |r| <= |s| && r == s[|s| - |r|..] && (r == [] || !IsSpace(r[0]))
  {
    if s != [] && IsSpace(s[0]) {
      StripLeftShape(s[1..]);
    }
  }

  /** `StripRight` keeps the longest prefix not ending with whitespace. */
  lemma {:induction false} StripRightShape(s: string)
    ensures var r := StripRight(s);
      |r| <= |s| && r == s[..|r|] && (r == [] || !IsSpace(r[|r| - 1]))
  {
    if s != [] && IsSpace(s[|s| - 1]) {
      StripRightShape(s[..|s| - 1]);
    }
  }

  /** What `StripLeft` drops is whitespace. */
  lemma {:induction false} StripLeftSpaces(s: string)
    ensures forall k :: 0 <= k < |s| - |StripLeft(s)| ==> IsSpace(s[k])
  {
    if s != [] && IsSpace(s[0]) {
      StripLeftSpaces(s[1..]);
      StripLeftShape(s[1..]);
    }
  }

  /** What `StripRight` drops is whitespace. */
  lemma {:induction false} StripRightSpaces(s: string)
    ensures forall k :: |StripRight(s)| <= k < |s| ==> IsSpace(s[k])
  {
    if s != [] && IsSpace(s[|s| - 1]) {
      StripRightSpaces(s[..|s| - 1]);
      StripRightShape(s[..|s| - 1]);
    }
  }

  /** Text with no whitespace at either end. */
  predicate Trimmed(s: string) {
    s == [] || (!IsSpace(s[0]) && !IsSpace(s[|s| - 1]))
  }

  /** `s.strip()`. */
  function Strip(s: string): (r: string)
    ensures Trimmed(r)
  {
    StripLeftShape(s);
    StripRightShape(StripLeft(s));
    StripRight(StripLeft(s))
  }

  /** `strip` only removes characters: one missing from the text is missing from the result. */
  lemma StripLacks(s: string, x: char)
    requires x !in s
    ensures x !in Strip(s)
  {
    var l := StripLeft(s);
    StripLeftShape(s);
    StripRightShape(l);
    assert forall c :: c in l ==> c in s;
  }

  /** `strip` returns the empty string exactly on all-whitespace text. */
  lemma StripEmpty(s: string)
    ensures Strip(s) == [] <==> forall k :: 0 <= k < |s| ==> IsSpace(s[k])
  {
    if Strip(s) == [] {
      StripEmptyAllSpace(s);
    } else if forall k :: 0 <= k < |s| ==> IsSpace(s[k]) {
      AllSpaceStripEmpty(s);
    }
  }

  /** What strips to nothing was all whitespace. */
  lemma StripEmptyAllSpace(s: string)
    requires Strip(s) == []
    ensures forall k :: 0 <= k < |s| ==> IsSpace(s[k])
  {
    var l := StripLeft(s);
    StripLeftShape(s);
    StripLeftSpaces(s);
    StripRightSpaces(l);
  }

  /** All whitespace strips to nothing. */
  lemma AllSpaceStripEmpty(s: string)
    requires forall k :: 0 <= k < |s| ==> IsSpace(s[k])
    ensures Strip(s) == []
  {
    StripLeftShape(s);
  }

  /** A string already without surrounding whitespace is left alone by `strip`. */
  lemma StripTrimmed(s: string)
    requires Trimmed(s)
    ensures Strip(s) == s
  {
  }

  /** `strip` is idempotent. */
  lemma StripIdem(s: string)
    ensures Strip(Strip(s)) == Strip(s)
  {
    StripTrimmed(Strip(s));
  }

  /** Leading whitespace makes no difference to `strip`. */
  lemma StripSpaceCons(c: char, s: string)
    requires IsSpace(c)
    ensures Strip([c] + s) == Strip(s)
  {
    assert ([c] + s)[1..] == s;
  }

  /** `w in s` for strings: `w` is a prefix of some suffix of `s`. */
  predicate Contains(s: string, w: string) {
    w <= s || (s != [] && Contains(s[1..], w))
  }

  /** A word with a character the text lacks does not occur in it. */
  lemma {:induction false} NotContainsChar(s: string, w: string, c: char)
    requires c in w && c !in s
    ensures !Contains(s, w)
    decreases |s|
  {
    if s != [] {
      NotContainsChar(s[1..], w, c);
    }
  }

  /** `s.split(sep)`: the pieces between occurrences of `sep`; there is always at least one. */
  function SplitOn(s: string, sep: char): (r: seq<string>)
    ensures |r| >= 1
  {
    if s == [] then [""]
    else
      var rest := SplitOn(s[1..], sep);
      if s[0] == sep then [""] + rest
      else [[s[0]] + rest[0]] + rest[1..]
  }

  /** No piece of a split contains the separator. */
  lemma {:induction false} SplitOnPieces(s: string, sep: char)
    ensures forall p :: p in SplitOn(s, sep) ==> sep !in p
  {
    if s != [] {
      SplitOnPieces(s[1..], sep);
      var rest := SplitOn(s[1..], sep);
      if s[0] != sep {
        assert rest[0] in rest;
        forall p | p in rest[1..] ensures sep !in p {
          assert p in rest;
        }
      }
    }
  }

  /** A character missing from the text is missing from every piece of its split. */
  lemma {:induction false} SplitOnLacks(s: string, sep: char, x: char)
    requires x !in s
    ensures forall p :: p in SplitOn(s, sep) ==> x !in p
  {
    if s != [] {
      assert forall c :: c in s[1..] ==> c in s;
      SplitOnLacks(s[1..], sep, x);
      var rest := SplitOn(s[1..], sep);
      if s[0] != sep {
        assert x !in rest[0];
        forall p | p in rest[1..] ensures x !in p {
          assert p in rest;
        }
      }
    }
  }

  /** `sep.join(ls)`. */
  function JoinWith(ls: seq<string>, sep: string): string {
    if ls == [] then ""
    else if |ls| == 1 then ls[0]
    else ls[0] + sep + JoinWith(ls[1..], sep)
  }

  /** A join with more than one piece: the first piece, the separator, the rest. */
  lemma JoinCons(x: string, ls: seq<string>, sep: string)
    requires ls != []
    ensures JoinWith([x] + ls, sep) == x + sep + JoinWith(ls, sep)
  {
    assert ([x] + ls)[1..] == ls;
  }

  /** Prepending a character to the first piece prepends it to the joined text. */
  lemma JoinConsHead(c: char, ls: seq<string>, sep: string)
    requires ls != []
    ensures JoinWith([[c] + ls[0]] + ls[1..], sep) == [c] + JoinWith(ls, sep)
  {
    var ls' := [[c] + ls[0]] + ls[1..];
    assert ls'[1..] == ls[1..];
  }

  /** Joining the pieces of a split with the separator gives the text back. */
  lemma {:induction false} JoinSplit(s: string, sep: char)
    ensures JoinWith(SplitOn(s, sep), [sep]) == s
  {
    if s != [] {
      var rest := SplitOn(s[1..], sep);
      JoinSplit(s[1..], sep);
      if s[0] == sep {
        assert ([""] + rest)[1..] == rest;
      } else {
        JoinConsHead(s[0], rest, [sep]);
      }
    }
  }

  /** A text without the separator is one piece. */
  lemma {:induction false} SplitOnNoSep(s: string, sep: char)
    requires sep !in s
    ensures SplitOn(s, sep) == [s]
  {
    if s != [] {
      assert s[0] in s;
      assert forall c :: c in s[1..] ==> c in s;
      SplitOnNoSep(s[1..], sep);
      assert [s[0]] + s[1..] == s;
    }
  }

  /** The first separator ends the first piece. */
  lemma {:induction false} SplitOnAt(a: string, sep: char, b: string)
    requires sep !in a
    ensures SplitOn(a + [sep] + b, sep) == [a] + SplitOn(b, sep)
  {
    if a == [] {
      assert ([sep] + b)[1..] == b;
    } else {
      assert (a + [sep] + b)[1..] == a[1..] + [sep] + b;
      SplitOnAt(a[1..], sep, b);
      assert [a[0]] + a[1..] == a;
    }
  }

  /** Splitting a join of separator-free pieces gives the pieces back. */
  lemma {:induction false} SplitJoin(ls: seq<string>, sep: char)
    requires ls != []
    requires forall p :: p in ls ==> sep !in p
    ensures SplitOn(JoinWith(ls, [sep]), sep) == ls
  {
    if |ls| == 1 {
      SplitOnNoSep(ls[0], sep);
    } else {
      assert ls[0] in ls;
      forall p | p in ls[1..] ensures sep !in p {
        assert p in ls;
      }
      SplitJoin(ls[1..], sep);
      SplitOnAt(ls[0], sep, JoinWith(ls[1..], [sep]));
    }
  }

  /** `s.replace(a, b)` for single characters. */
  function ReplaceChar(s: string, a: char, b: char): (r: string)
    ensures |r| == |s|
  {
    seq(|s|, i requires 0 <= i < |s| => if s[i] == a then b else s[i])
  }

  /** After the replacement the replaced character is gone. */
  lemma ReplaceRemoves(s: string, a: char, b: char)
    requires a != b
    ensures a !in ReplaceChar(s, a, b)
  {
  }

  /** Replacing a character the text lacks changes nothing. */
  lemma ReplaceAbsent(s: string, a: char, b: char)
    requires a !in s
    ensures ReplaceChar(s, a, b) == s
  {
  }

  lemma ReplaceConcat(s: string, t: string, a: char, b: char)
    ensures ReplaceChar(s + t, a, b) == ReplaceChar(s, a, b) + ReplaceChar(t, a, b)
  {
  }

  /** `xs` is obtained from `ys` by deleting elements: same order, elements verbatim. */
  predicate Subseq<T(==)>(xs: seq<T>, ys: seq<T>)
    decreases |ys|
  {
    if xs == [] then true
    else if ys == [] then false
    else (xs[0] == ys[0] && Subseq(xs[1..], ys[1..])) || Subseq(xs, ys[1..])
  }

  lemma {:induction false} SubseqEmpty<T>(ys: seq<T>)
    ensures Subseq([], ys)
  {
  }

  lemma {:induction false} SubseqRefl<T>(xs: seq<T>)
    ensures Subseq(xs, xs)
  {
    if xs != [] {
      SubseqRefl(xs[1..]);
    }
  }

  /** Anything kept from `vs` is still kept once `ys` is put in front. */
  lemma {:induction false} SubseqSkip<T>(us: seq<T>, ys: seq<T>, vs: seq<T>)
    requires Subseq(us, vs)
    ensures Subseq(us, ys + vs)
    decreases |ys|
  {
    if ys == [] {
      assert ys + vs == vs;
    } else if us != [] {
      SubseqSkip(us, ys[1..], vs);
      assert (ys + vs)[1..] == ys[1..] + vs;
    }
  }

  /** Subsequences of the two halves give a subsequence of the whole. */
  lemma {:induction false} SubseqConcat<T>(xs: seq<T>, ys: seq<T>, us: seq<T>, vs: seq<T>)
    requires Subseq(xs, ys) && Subseq(us, vs)
    ensures Subseq(xs + us, ys + vs)
    decreases |ys|
  {
    if xs == [] {
      SubseqSkip(us, ys, vs);
      assert xs + us == us;
    } else {
      assert (ys + vs)[1..] == ys[1..] + vs;
      if xs[0] == ys[0] && Subseq(xs[1..], ys[1..]) {
        SubseqConcat(xs[1..], ys[1..], us, vs);
        assert (xs + us)[1..] == xs[1..] + us;
      } else {
        SubseqConcat(xs, ys[1..], us, vs);
      }
    }
  }

  /** Every element of a subsequence is an element of the sequence. */
  lemma {:induction false} SubseqElements<T>(xs: seq<T>, ys: seq<T>)
    requires Subseq(xs, ys)
    ensures forall x :: x in xs ==> x in ys
    decreases |ys|
  {
    if xs != [] {
      if xs[0] == ys[0] && Subseq(xs[1..], ys[1..]) {
        SubseqElements(xs[1..], ys[1..]);
        forall x | x in xs ensures x in ys {
          if x != xs[0] {
            assert x in xs[1..];
            assert x in ys[1..];
          }
        }
      } else {
        SubseqElements(xs, ys[1..]);
        forall x | x in xs ensures x in ys {
          assert x in ys[1..];
        }
      }
    }
  }
}
