/** The assertion helpers tests use on what NVDA said: NvdaTestHelper's normalisation and
    TextContains, and StringExtensions.Contains. */
module TestHelper {
  import opened Text

  // ------------------------------------------------------------ Contains

  /** StringExtensions.Contains: IndexOf under the comparison is not -1. */
  function Contains(text: string, value: string, cmp: Comparison): bool {
    IndexOf(text, value, cmp) >= 0
  }

  /** Contains holds exactly when the value occurs in the text under the comparison; the
      empty value is contained in every text. */
  lemma ContainsSpec(text: string, value: string, cmp: Comparison)
    ensures Contains(text, value, cmp) <==> Occurs(text, value, cmp)
    ensures Contains(text, "", cmp)
    ensures forall i | MatchesAt(text, value, i, cmp) :: Contains(text, value, cmp)
  {
    IndexOfSpec(text, value, cmp);
    IndexOfSpec(text, "", cmp);
    assert MatchesAt(text, "", 0, cmp);
  }

  /** Under OrdinalIgnoreCase, letter case on either side never changes the answer. */
  lemma ContainsIgnoresCase(text: string, value: string)
    ensures Contains(text, value, OrdinalIgnoreCase) == Contains(Upper(text), Upper(value), OrdinalIgnoreCase)
  {
    forall i
      ensures MatchesAt(text, value, i, OrdinalIgnoreCase) <==> MatchesAt(Upper(text), Upper(value), i, OrdinalIgnoreCase)
    {
      if 0 <= i && i + |value| <= |text| {
        forall j | 0 <= j < |value|
          ensures SameChar(text[i + j], value[j], OrdinalIgnoreCase) <==> SameChar(Upper(text)[i + j], Upper(value)[j], OrdinalIgnoreCase)
        {
          UpperIdempotent(text[i + j]);
          UpperIdempotent(value[j]);
        }
      }
    }
    IndexOfSpec(text, value, OrdinalIgnoreCase);
    IndexOfSpec(Upper(text), Upper(value), OrdinalIgnoreCase);
  }

  lemma UpperIdempotent(c: char)
    ensures UpperAscii(UpperAscii(c)) == UpperAscii(c)
  {
  }

  // ------------------------------------------------------- normalisation

  /** NormalizeText before its last step: CR and LF become spaces, every white-space run
      one space, and the ends are trimmed. */
  function Squeezed(text: string): string {
    Trim(CollapseWhiteSpace(ReplaceChar(ReplaceChar(text, '\r', ' '), '\n', ' ')), WhiteSpace)
  }

  /** NormalizeText: then every hyphen becomes a space. */
  function Normalize(text: string): string {
    ReplaceChar(Squeezed(text), '-', ' ')
  }

  /** TextContains: the normalised expected text occurs in the normalised text, ignoring
      case. */
  function TextContains(text: string, expected: string): bool {
    Contains(Normalize(text), Normalize(expected), OrdinalIgnoreCase)
  }

  lemma ReplaceLength(s: string, a: char, b: char)
    ensures |ReplaceChar(s, a, b)| == |s|
    ensures forall i | 0 <= i < |s| :: ReplaceChar(s, a, b)[i] == if s[i] == a then b else s[i]
  {
  }

  /** The white-space step leaves each run as exactly one space and nothing at either end;
      no CR or LF is left in the normalised text; and normalising never makes a text
      longer. */
  lemma NormalizeLaws(text: string)
    ensures Collapsed(Squeezed(text))
    ensures Squeezed(text) == [] || (Squeezed(text)[0] !in WhiteSpace && Squeezed(text)[|Squeezed(text)| - 1] !in WhiteSpace)
    ensures '\r' !in Normalize(text) && '\n' !in Normalize(text)
    ensures |Normalize(text)| <= |text|
  {
    var b := ReplaceChar(ReplaceChar(text, '\r', ' '), '\n', ' ');
    ReplaceLength(text, '\r', ' ');
    ReplaceLength(ReplaceChar(text, '\r', ' '), '\n', ' ');
    var c := CollapseWhiteSpace(b);
    CollapseIsCollapsed(b);
    var t := Trim(c, WhiteSpace);
    var k :| IsSlice(c, t, k);
    SliceCollapsed(c, t, k);
    NoLineBreaks(t);
    ReplaceLength(t, '-', ' ');
  }

  /** A part of a collapsed text is collapsed. */
  lemma SliceCollapsed(c: string, t: string, k: int)
    requires Collapsed(c) && IsSlice(c, t, k)
    ensures Collapsed(t)
  {
    forall i | 0 <= i < |t| && t[i] in WhiteSpace
      ensures t[i] == ' ' && (i + 1 == |t| || t[i + 1] !in WhiteSpace)
    {
      assert t[i] == c[k + i];
      if i + 1 < |t| { assert t[i + 1] == c[k + i + 1]; }
    }
  }

  /** In a collapsed text every white-space character is a space, so the hyphen step
      leaves no CR or LF. */
  lemma NoLineBreaks(t: string)
    requires Collapsed(t)
    ensures '\r' !in ReplaceChar(t, '-', ' ') && '\n' !in ReplaceChar(t, '-', ' ')
  {
    var n := ReplaceChar(t, '-', ' ');
    ReplaceLength(t, '-', ' ');
    assert '\r' in WhiteSpace && '\n' in WhiteSpace;
    forall i | 0 <= i < |n|
      ensures n[i] != '\r' && n[i] != '\n'
    {
      assert t[i] in WhiteSpace ==> t[i] == ' ';
    }
  }

  /** A text with no CR or LF, one space per white-space run and nothing at either end
      only has its hyphens changed. */
  lemma NormalizePlain(s: string)
    requires '\r' !in s && '\n' !in s && Collapsed(s)
    requires s == [] || (s[0] !in WhiteSpace && s[|s| - 1] !in WhiteSpace)
    ensures Normalize(s) == ReplaceChar(s, '-', ' ')
  {
    ReplaceAbsent(s, '\r', ' ');
    ReplaceAbsent(s, '\n', ' ');
    CollapseOfCollapsed(s);
  }

  /** The hyphen step runs after the white-space step, so it can bring spaces back
      together: "a - b" normalises to three spaces between the letters. */
  lemma HyphenJoinsSpaces(x: char, y: char)
    requires x !in WhiteSpace && y !in WhiteSpace && x != '-' && y != '-'
    ensures Normalize([x, ' ', '-', ' ', y]) == [x, ' ', ' ', ' ', y]
  {
    var s := [x, ' ', '-', ' ', y];
    SpacedHyphen(x, y);
    NormalizePlain(s);
  }

  lemma SpacedHyphen(x: char, y: char)
    requires x !in WhiteSpace && y !in WhiteSpace && x != '-' && y != '-'
    ensures var s := [x, ' ', '-', ' ', y];
      '\r' !in s && '\n' !in s && Collapsed(s) && ReplaceChar(s, '-', ' ') == [x, ' ', ' ', ' ', y]
  {
    var s := [x, ' ', '-', ' ', y];
    ReplaceLength(s, '-', ' ');
    assert '\r' in WhiteSpace && '\n' in WhiteSpace && '-' !in WhiteSpace;
    forall i | 0 <= i < |s| && s[i] in WhiteSpace
      ensures s[i] == ' ' && (i + 1 == |s| || s[i + 1] !in WhiteSpace)
    {
      assert i == 1 || i == 3;
    }
  }

  /** Trimming runs before the hyphen step, so a hyphen at either end becomes a leading or
      trailing space: "-a" normalises to " a" and "a-" to "a ". */
  lemma HyphenAtEdges(x: char)
    requires x !in WhiteSpace && x != '-'
    ensures Normalize(['-', x]) == [' ', x]
    ensures Normalize([x, '-']) == [x, ' ']
  {
    EdgeHyphens(x);
    NormalizePlain(['-', x]);
    NormalizePlain([x, '-']);
  }

  lemma EdgeHyphens(x: char)
    requires x !in WhiteSpace && x != '-'
    ensures '\r' !in ['-', x] && '\n' !in ['-', x] && Collapsed(['-', x])
    ensures '\r' !in [x, '-'] && '\n' !in [x, '-'] && Collapsed([x, '-'])
    ensures ReplaceChar(['-', x], '-', ' ') == [' ', x] && ReplaceChar([x, '-'], '-', ' ') == [x, ' ']
  {
    assert '\r' in WhiteSpace && '\n' in WhiteSpace && '-' !in WhiteSpace;
    ReplaceLength(['-', x], '-', ' ');
    ReplaceLength([x, '-'], '-', ' ');
  }

  lemma ReplaceAbsent(s: string, a: char, b: char)
    requires a !in s
    ensures ReplaceChar(s, a, b) == s
  {
  }

  /** Every text contains itself and the empty text. */
  lemma TextContainsReflexive(text: string)
    ensures TextContains(text, text)
    ensures TextContains(text, "")
  {
    var n := Normalize(text);
    assert MatchesAt(n, n, 0, OrdinalIgnoreCase);
    ContainsSpec(n, n, OrdinalIgnoreCase);
    assert Normalize("") == "" by {
      assert ReplaceChar("", '\r', ' ') == "";
      assert ReplaceChar("", '\n', ' ') == "";
      assert ReplaceChar("", '-', ' ') == "";
    }
    ContainsSpec(n, "", OrdinalIgnoreCase);
  }

  /** Texts that normalise alike contain each other. */
  lemma SameNormalForm(text: string, expected: string)
    requires Normalize(text) == Normalize(expected)
    ensures TextContains(text, expected)
  {
    TextContainsReflexive(text);
  }

  /** A run of white space before a word, or at the end, becomes one space. */
  lemma CollapseGap(g: string, r: string)
    requires Gap(g)
    requires r == [] || r[0] !in WhiteSpace
    ensures CollapseWhiteSpace(g + r) == " " + CollapseWhiteSpace(r)
  {
    TrimStartGap(g, r);
  }

  lemma {:induction false} TrimStartGap(g: string, r: string)
    requires forall i | 0 <= i < |g| :: g[i] in WhiteSpace
    requires r == [] || r[0] !in WhiteSpace
    ensures TrimStart(g + r, WhiteSpace) == r
    decreases |g|
  {
    if g == [] {
      assert g + r == r;
    } else {
      assert (g + r)[0] == g[0];
      assert (g + r)[1..] == g[1..] + r;
      assert forall i | 0 <= i < |g[1..]| :: g[1..][i] == g[i + 1];
      TrimStartGap(g[1..], r);
    }
  }

  /** Trimming the front of a text that ends in a kept character never reaches what
      follows it. */
  lemma {:induction false} TrimStartAppend(a: string, r: string, cs: set<char>)
    requires a != [] && a[|a| - 1] !in cs
    ensures TrimStart(a + r, cs) == TrimStart(a, cs) + r
    decreases |a|
  {
    assert (a + r)[0] == a[0];
    if a[0] in cs {
      assert (a + r)[1..] == a[1..] + r;
      TrimStartAppend(a[1..], r, cs);
    }
  }

  /** The white-space step works piece by piece when the first piece ends in a character
      that is not white space. */
  lemma {:induction false} CollapseAppend(a: string, r: string)
    requires a != [] && a[|a| - 1] !in WhiteSpace
    ensures CollapseWhiteSpace(a + r) == CollapseWhiteSpace(a) + CollapseWhiteSpace(r)
    decreases |a|, 1
  {
    if a[0] in WhiteSpace {
      CollapseAppendGap(a, r);
    } else {
      CollapseAppendChar(a, r);
    }
  }

  lemma {:induction false} CollapseAppendGap(a: string, r: string)
    requires a != [] && a[|a| - 1] !in WhiteSpace && a[0] in WhiteSpace
    ensures CollapseWhiteSpace(a + r) == CollapseWhiteSpace(a) + CollapseWhiteSpace(r)
    decreases |a|, 0
  {
    var t := TrimStart(a, WhiteSpace);
    calc {
      CollapseWhiteSpace(a + r);
    == { assert (a + r)[0] == a[0]; }
      " " + CollapseWhiteSpace(TrimStart(a + r, WhiteSpace));
    == { TrimStartAppend(a, r, WhiteSpace); }
      " " + CollapseWhiteSpace(t + r);
    == { assert t != [] && t[|t| - 1] == a[|a| - 1];
         CollapseAppend(t, r); }
      " " + (CollapseWhiteSpace(t) + CollapseWhiteSpace(r));
    ==
      CollapseWhiteSpace(a) + CollapseWhiteSpace(r);
    }
  }

  lemma {:induction false} CollapseAppendChar(a: string, r: string)
    requires a != [] && a[|a| - 1] !in WhiteSpace && a[0] !in WhiteSpace
    ensures CollapseWhiteSpace(a + r) == CollapseWhiteSpace(a) + CollapseWhiteSpace(r)
    decreases |a|, 0
  {
    var rest := a[1..];
    calc {
      CollapseWhiteSpace(a + r);
    == { assert (a + r)[0] == a[0] && (a + r)[1..] == rest + r; }
      [a[0]] + CollapseWhiteSpace(rest + r);
    == { if rest == [] {
           assert rest + r == r;
         } else {
           CollapseAppend(rest, r);
         } }
      [a[0]] + (CollapseWhiteSpace(rest) + CollapseWhiteSpace(r));
    ==
      ([a[0]] + CollapseWhiteSpace(rest)) + CollapseWhiteSpace(r);
    ==
      CollapseWhiteSpace(a) + CollapseWhiteSpace(r);
    }
  }

  lemma ReplaceAppend(a: string, b: string, x: char, y: char)
    ensures ReplaceChar(a + b, x, y) == ReplaceChar(a, x, y) + ReplaceChar(b, x, y)
  {
  }

  /** CR and LF turned into spaces, the first step of NormalizeText. */
  function Unbroken(x: string): (r: string)
    ensures |r| == |x|
    ensures forall i | 0 <= i < |x| :: (r[i] in WhiteSpace <==> x[i] in WhiteSpace) && (x[i] !in WhiteSpace ==> r[i] == x[i])
  {
    assert '\r' in WhiteSpace && '\n' in WhiteSpace && ' ' in WhiteSpace;
    ReplaceChar(ReplaceChar(x, '\r', ' '), '\n', ' ')
  }

  /** The steps of NormalizeText before trimming. */
  function Spread(x: string): string {
    CollapseWhiteSpace(Unbroken(x))
  }

  lemma SqueezedTrimsSpread(x: string)
    ensures Squeezed(x) == Trim(Spread(x), WhiteSpace)
  {
  }

  /** A non-empty run of white space. */
  predicate Gap(g: string) {
    g != [] && forall i | 0 <= i < |g| :: g[i] in WhiteSpace
  }

  /** Visible ASCII characters with single spaces between them: text that the white-space
      steps of NormalizeText leave as it is. */
  predicate Spaced(s: string) {
    && s != [] && s[0] != ' ' && s[|s| - 1] != ' '
    && (forall i | 0 <= i < |s| :: s[i] == ' ' || '!' <= s[i] <= '~')
    && (forall i | 0 <= i < |s| - 1 :: s[i] == ' ' ==> s[i + 1] != ' ')
  }

  /** Two spaced texts joined by one space are spaced. */
  lemma SpacedJoin(a: string, b: string)
    requires Spaced(a) && Spaced(b)
    ensures Spaced(a + " " + b)
  {
    var s := a + " " + b;
    assert forall i | 0 <= i < |s| :: s[i] == if i < |a| then a[i] else if i == |a| then ' ' else b[i - |a| - 1];
  }

  /** Visible ASCII characters are not white space. */
  lemma VisibleNotWhite(c: char)
    requires '!' <= c <= '~'
    ensures c !in WhiteSpace
  {
  }

  /** The white-space steps leave spaced text as it is. */
  lemma SpreadOfSpaced(s: string)
    requires Spaced(s)
    ensures Unbroken(s) == s && Spread(s) == s
    ensures s[0] !in WhiteSpace && s[|s| - 1] !in WhiteSpace
  {
    forall i | 0 <= i < |s|
      ensures s[i] in WhiteSpace ==> s[i] == ' '
    {
      if s[i] != ' ' {
        VisibleNotWhite(s[i]);
      }
    }
    VisibleNotWhite(s[0]);
    VisibleNotWhite(s[|s| - 1]);
    assert Unbroken(s) == s by {
      ReplaceLength(s, '\r', ' ');
      ReplaceLength(ReplaceChar(s, '\r', ' '), '\n', ' ');
    }
    assert Collapsed(s);
    CollapseOfCollapsed(s);
  }

  lemma UnbrokenAppend(x: string, y: string)
    ensures Unbroken(x + y) == Unbroken(x) + Unbroken(y)
  {
    ReplaceAppend(x, y, '\r', ' ');
    ReplaceAppend(ReplaceChar(x, '\r', ' '), ReplaceChar(y, '\r', ' '), '\n', ' ');
  }

  /** A spaced text, a run of white space and the rest: the run becomes one space. */
  lemma SpreadGap(a: string, g: string, b: string)
    requires Spaced(a) && Gap(g) && (b == [] || b[0] !in WhiteSpace)
    ensures Spread(a + g + b) == a + " " + Spread(b)
  {
    var ug, ub := Unbroken(g), Unbroken(b);
    SpreadOfSpaced(a);
    calc {
      Spread(a + g + b);
    == { UnbrokenAppend(a + g, b); UnbrokenAppend(a, g); }
      CollapseWhiteSpace(a + ug + ub);
    == { assert a + ug + ub == a + (ug + ub); }
      CollapseWhiteSpace(a + (ug + ub));
    == { CollapseAppend(a, ug + ub); }
      a + CollapseWhiteSpace(ug + ub);
    == { assert Gap(ug); CollapseGap(ug, ub); }
      a + (" " + Spread(b));
    }
  }

  /** Two texts that, cut at their doubled spaces, have spaced pieces that agree once
      hyphens become spaces: the reading with single spaces contains the text with the
      doubled ones. */
  lemma HyphenatedHeading(text: string, expected: string, t1: string, e1: string, e2: string, e3: string)
    requires Spaced(t1) && Spaced(e1) && Spaced(e2) && Spaced(e3)
    requires ReplaceChar(e1, '-', ' ') == t1
    requires text == t1 + " " + (e2 + " " + e3)
    requires expected == e1 + "  " + (e2 + "  " + e3)
    ensures TextContains(text, expected)
  {
    var tail := e2 + " " + e3;
    SpacedJoin(e2, e3);
    NormalizeSpaced(text, t1, tail);
    NormalizeDoubled(expected, e1, e2, e3);
    ReplaceTwice(e1, '-', ' ');
    SameNormalForm(text, expected);
  }

  /** NormalizeText on two spaced texts joined by one space. */
  lemma NormalizeSpaced(text: string, a: string, b: string)
    requires Spaced(a) && Spaced(b) && text == a + " " + b
    ensures Normalize(text) == ReplaceChar(a, '-', ' ') + " " + ReplaceChar(b, '-', ' ')
  {
    SpacedJoin(a, b);
    SpreadOfSpaced(text);
    NormalizeSpread(text, text);
    ReplaceJoin(a, b);
  }

  /** NormalizeText on three spaced texts joined by doubled spaces. */
  lemma NormalizeDoubled(expected: string, e1: string, e2: string, e3: string)
    requires Spaced(e1) && Spaced(e2) && Spaced(e3)
    requires expected == e1 + "  " + (e2 + "  " + e3)
    ensures Normalize(expected) == ReplaceChar(e1, '-', ' ') + " " + ReplaceChar(e2 + " " + e3, '-', ' ')
  {
    var tail := e2 + " " + e3;
    var spread := e1 + " " + tail;
    assert Spread(expected) == spread by {
      assert Gap("  ");
      assert Spread(e2 + "  " + e3) == tail by {
        SpreadOfSpaced(e3);
        SpreadGap(e2, "  ", e3);
      }
      SpreadOfSpaced(e2);
      SpreadGap(e1, "  ", e2 + "  " + e3);
    }
    SpacedJoin(e2, e3);
    SpacedJoin(e1, tail);
    NormalizeSpread(expected, spread);
    ReplaceJoin(e1, tail);
  }

  /** What NormalizeText makes of a text whose white-space steps give a spaced text. */
  lemma NormalizeSpread(x: string, s: string)
    requires Spread(x) == s && Spaced(s)
    ensures Normalize(x) == ReplaceChar(s, '-', ' ')
  {
    SpreadOfSpaced(s);
    SqueezedTrimsSpread(x);
  }

  lemma ReplaceJoin(a: string, b: string)
    ensures ReplaceChar(a + " " + b, '-', ' ') == ReplaceChar(a, '-', ' ') + " " + ReplaceChar(b, '-', ' ')
  {
    ReplaceAppend(a + " ", b, '-', ' ');
    ReplaceAppend(a, " ", '-', ' ');
  }

  lemma ReplaceTwice(s: string, a: char, b: char)
    ensures ReplaceChar(ReplaceChar(s, a, b), a, b) == ReplaceChar(s, a, b)
  {
  }

  /** The piece of NVDA's reading of the contact page's heading before the doubled
      spaces of the expected text. */
  lemma ContactReadFront(t1: string, e1: string)
    requires t1 == "Contact by e mail collapsed" && e1 == "Contact by e-mail collapsed"
    ensures Spaced(t1) && ReplaceChar(e1, '-', ' ') == t1
  {
  }

  /** The pieces of the contact page's expected heading. */
  lemma ContactExpectedPieces(e1: string, e2: string, e3: string)
    requires e1 == "Contact by e-mail collapsed" && e2 == "link heading" && e3 == "level 3"
    ensures Spaced(e1) && Spaced(e2) && Spaced(e3)
  {
  }

  /** NVDA's reading of the contact page's heading, cut where the expected text has its
      doubled spaces. */
  lemma ContactReadCuts(text: string, t1: string, e2: string, e3: string)
    requires text == "Contact by e mail collapsed link heading level 3"
    requires t1 == "Contact by e mail collapsed" && e2 == "link heading" && e3 == "level 3"
    ensures text == t1 + " " + (e2 + " " + e3)
  {
  }

  /** The contact page's expected heading, cut at its doubled spaces. */
  lemma ContactExpectedCuts(expected: string, e1: string, e2: string, e3: string)
    requires expected == "Contact by e-mail collapsed  link heading  level 3"
    requires e1 == "Contact by e-mail collapsed" && e2 == "link heading" && e3 == "level 3"
    ensures expected == e1 + "  " + (e2 + "  " + e3)
  {
  }

  /** The heading check of the contact page's test, for the texts it compares. */
  lemma ContactHeading(text: string, expected: string, t1: string, e1: string, e2: string, e3: string)
    requires text == "Contact by e mail collapsed link heading level 3"
    requires expected == "Contact by e-mail collapsed  link heading  level 3"
    requires t1 == "Contact by e mail collapsed" && e1 == "Contact by e-mail collapsed"
    requires e2 == "link heading" && e3 == "level 3"
    ensures TextContains(text, expected)
  {
    ContactReadFront(t1, e1);
    ContactExpectedPieces(e1, e2, e3);
    ContactReadCuts(text, t1, e2, e3);
    ContactExpectedCuts(expected, e1, e2, e3);
    HyphenatedHeading(text, expected, t1, e1, e2, e3);
  }

  /** The heading check of the contact page's test: NVDA's reading, with the hyphen it
      drops, contains the expected text written with a hyphen and doubled spaces. */
  lemma ContactHeadingMatches()
    ensures TextContains("Contact by e mail collapsed link heading level 3",
                         "Contact by e-mail collapsed  link heading  level 3")
  {
    ContactHeading("Contact by e mail collapsed link heading level 3",
                   "Contact by e-mail collapsed  link heading  level 3",
                   "Contact by e mail collapsed", "Contact by e-mail collapsed", "link heading", "level 3");
  }

  // ------------------------------------------------------------------ case

  lemma UpperLength(s: string)
    ensures |Upper(s)| == |s|
    ensures forall i | 0 <= i < |s| :: Upper(s)[i] == UpperAscii(s[i])
  {
  }

  lemma UpperAppend(a: string, b: string)
    ensures Upper(a + b) == Upper(a) + Upper(b)
  {
  }

  lemma UpperTail(s: string)
    requires s != []
    ensures Upper(s)[1..] == Upper(s[1..]) && Upper(s)[..|s| - 1] == Upper(s[..|s| - 1])
  {
  }

  /** Upper-casing a letter neither makes nor unmakes white space. */
  lemma UpperKeepsWhiteSpace(c: char)
    ensures UpperAscii(c) in WhiteSpace <==> c in WhiteSpace
    ensures c in WhiteSpace || c == '-' || c == '\r' || c == '\n' ==> UpperAscii(c) == c
  {
  }

  lemma UpperReplace(s: string, a: char, b: char)
    requires !('a' <= a <= 'z') && !('A' <= a <= 'Z') && !('a' <= b <= 'z')
    ensures Upper(ReplaceChar(s, a, b)) == ReplaceChar(Upper(s), a, b)
  {
  }

  lemma {:induction false} UpperTrimStart(s: string)
    ensures Upper(TrimStart(s, WhiteSpace)) == TrimStart(Upper(s), WhiteSpace)
    decreases |s|
  {
    if s != [] {
      UpperKeepsWhiteSpace(s[0]);
      UpperTail(s);
      if s[0] in WhiteSpace {
        UpperTrimStart(s[1..]);
      }
    } else {
      assert Upper(s) == [];
    }
  }

  lemma {:induction false} UpperTrimEnd(s: string)
    ensures Upper(TrimEnd(s, WhiteSpace)) == TrimEnd(Upper(s), WhiteSpace)
    decreases |s|
  {
    if s != [] {
      UpperKeepsWhiteSpace(s[|s| - 1]);
      UpperTail(s);
      if s[|s| - 1] in WhiteSpace {
        UpperTrimEnd(s[..|s| - 1]);
      }
    } else {
      assert Upper(s) == [];
    }
  }

  lemma {:induction false} UpperCollapse(s: string)
    ensures Upper(CollapseWhiteSpace(s)) == CollapseWhiteSpace(Upper(s))
    decreases |s|
  {
    if s == [] {
      assert Upper(s) == [];
    } else {
      UpperKeepsWhiteSpace(s[0]);
      UpperTail(s);
      if s[0] in WhiteSpace {
        var t := TrimStart(s, WhiteSpace);
        UpperCollapse(t);
        UpperTrimStart(s);
        UpperAppend(" ", CollapseWhiteSpace(t));
      } else {
        UpperCollapse(s[1..]);
        UpperAppend([s[0]], CollapseWhiteSpace(s[1..]));
      }
    }
  }

  /** Normalising and upper-casing can be done in either order. */
  lemma NormalizeUpper(text: string)
    ensures Normalize(Upper(text)) == Upper(Normalize(text))
  {
    var a := ReplaceChar(text, '\r', ' ');
    var b := ReplaceChar(a, '\n', ' ');
    var c := CollapseWhiteSpace(b);
    UpperReplace(text, '\r', ' ');
    UpperReplace(a, '\n', ' ');
    UpperCollapse(b);
    UpperTrimStart(c);
    UpperTrimEnd(TrimStart(c, WhiteSpace));
    UpperReplace(Squeezed(text), '-', ' ');
  }

  /** TextContains ignores letter case: texts that upper-case alike give the same answer. */
  lemma TextContainsIgnoresCase(text: string, expected: string, text': string, expected': string)
    requires Upper(text) == Upper(text') && Upper(expected) == Upper(expected')
    ensures TextContains(text, expected) == TextContains(text', expected')
  {
    NormalizeUpper(text);
    NormalizeUpper(expected);
    NormalizeUpper(text');
    NormalizeUpper(expected');
    ContainsIgnoresCase(Normalize(text), Normalize(expected));
    ContainsIgnoresCase(Normalize(text'), Normalize(expected'));
  }
}
