/** The string primitives of .NET the driver builds on, written out:
    Trim, the white-space regexes, string.Join, IndexOf with an ordinal
    comparison, and integer formatting. */
module Text {
  import opened Wrappers

  /** Environment.NewLine on Windows, the only platform the driver accepts. */
  const NewLine: string := "\r\n"

  /** The characters .NET counts as white space (Char.IsWhiteSpace, and `\s` in a
      Regex): TAB to CR, SPACE, NEL, NO-BREAK SPACE and the Unicode separators. */
  const WhiteSpace: set<char> := {
    '\t', '\n', '\U{B}', '\U{C}', '\r', ' ', '\U{85}', '\U{A0}', '\U{1680}',
    '\U{2000}', '\U{2001}', '\U{2002}', '\U{2003}', '\U{2004}', '\U{2005}',
    '\U{2006}', '\U{2007}', '\U{2008}', '\U{2009}', '\U{200A}',
    '\U{2028}', '\U{2029}', '\U{202F}', '\U{205F}', '\U{3000}'
  }

  /** string.IsNullOrWhiteSpace for a non-null string. */
  predicate IsNullOrWhiteSpace(s: string) {
    forall i | 0 <= i < |s| :: s[i] in WhiteSpace
  }

  // ---------------------------------------------------------------- trimming

  /** Removes the longest prefix made of characters in `cs`. */
  function TrimStart(s: string, cs: set<char>): (r: string)
    ensures |r| <= |s| && r == s[|s| - |r|..]
    ensures r == [] || r[0] !in cs
    ensures forall i | 0 <= i < |s| - |r| :: s[i] in cs
    decreases |s|
  {
    if s != [] && s[0] in cs then TrimStart(s[1..], cs) else s
  }

  /** Removes the longest suffix made of characters in `cs`. */
  function TrimEnd(s: string, cs: set<char>): (r: string)
    ensures |r| <= |s| && r == s[..|r|]
    ensures r == [] || r[|r| - 1] !in cs
    ensures forall i | |r| <= i < |s| :: s[i] in cs
    decreases |s|
  {
    if s != [] && s[|s| - 1] in cs then TrimEnd(s[..|s| - 1], cs) else s
  }

  /** string.Trim(chars): both ends stripped of the characters in `cs`. */
  function Trim(s: string, cs: set<char>): (r: string)
    ensures |r| <= |s|
    ensures r == [] || (r[0] !in cs && r[|r| - 1] !in cs)
    ensures exists k :: IsSlice(s, r, k)
    ensures (s == [] || (s[0] !in cs && s[|s| - 1] !in cs)) ==> r == s
  {
    var t := TrimStart(s, cs);
    var r := TrimEnd(t, cs);
    assert IsSlice(s, r, |s| - |t|);
    r
  }

  /** `r` is the part of `s` that starts at index `k`. */
  predicate IsSlice(s: string, r: string, k: int) {
    0 <= k <= |s| - |r| && r == s[k..k + |r|]
  }

  // ------------------------------------------------------ white-space runs

  /** Regex.Replace(s, @"\s+", " "): each maximal run of white space becomes one space. */
  function CollapseWhiteSpace(s: string): (r: string)
    ensures |r| <= |s|
    decreases |s|
  {
    if s == [] then []
    else if s[0] in WhiteSpace then " " + CollapseWhiteSpace(TrimStart(s, WhiteSpace))
    else [s[0]] + CollapseWhiteSpace(s[1..])
  }

  /** Every white-space character is a space, and no two of them are adjacent. */
  predicate Collapsed(s: string) {
    forall i | 0 <= i < |s| && s[i] in WhiteSpace :: s[i] == ' ' && (i + 1 == |s| || s[i + 1] !in WhiteSpace)
  }

  /** The characters of `s` that are not white space, in order. */
  function NonWhite(s: string): (r: string)
    ensures |r| <= |s|
  {
    if s == [] then [] else (if s[0] in WhiteSpace then [] else [s[0]]) + NonWhite(s[1..])
  }

  lemma {:induction false} NonWhiteAppend(a: string, b: string)
    ensures NonWhite(a + b) == NonWhite(a) + NonWhite(b)
    decreases |a|
  {
    if a == [] {
      assert a + b == b;
    } else {
      assert (a + b)[0] == a[0];
      assert (a + b)[1..] == a[1..] + b;
      NonWhiteAppend(a[1..], b);
      var h := if a[0] in WhiteSpace then [] else [a[0]];
      assert NonWhite(a + b) == h + (NonWhite(a[1..]) + NonWhite(b));
      assert NonWhite(a) == h + NonWhite(a[1..]);
      assert h + (NonWhite(a[1..]) + NonWhite(b)) == (h + NonWhite(a[1..])) + NonWhite(b);
    }
  }

  lemma {:induction false} NonWhiteOfTrimStart(s: string)
    ensures NonWhite(TrimStart(s, WhiteSpace)) == NonWhite(s)
    decreases |s|
  {
    if s != [] && s[0] in WhiteSpace {
      NonWhiteOfTrimStart(s[1..]);
    }
  }

  lemma {:induction false} CollapseStartsWith(s: string)
    requires s != [] && s[0] !in WhiteSpace
    ensures CollapseWhiteSpace(s) != [] && CollapseWhiteSpace(s)[0] == s[0]
  {
  }

  /** After the replacement every white-space run is exactly one space. */
  lemma {:induction false} CollapseIsCollapsed(s: string)
    ensures Collapsed(CollapseWhiteSpace(s))
    decreases |s|
  {
    if s == [] {
    } else if s[0] in WhiteSpace {
      var t := TrimStart(s, WhiteSpace);
      CollapseIsCollapsed(t);
      if t != [] { CollapseStartsWith(t); }
      ConsCollapsed(' ', CollapseWhiteSpace(t));
    } else {
      CollapseIsCollapsed(s[1..]);
      ConsCollapsed(s[0], CollapseWhiteSpace(s[1..]));
    }
  }

  /** Putting a character in front of a collapsed string keeps it collapsed, unless it
      makes a white-space run. */
  lemma ConsCollapsed(h: char, c: string)
    requires Collapsed(c)
    requires h in WhiteSpace ==> h == ' ' && (c == [] || c[0] !in WhiteSpace)
    ensures Collapsed([h] + c)
  {
    var r := [h] + c;
    forall i | 0 <= i < |r| && r[i] in WhiteSpace
      ensures r[i] == ' ' && (i + 1 == |r| || r[i + 1] !in WhiteSpace)
    {
      if i > 0 { assert r[i] == c[i - 1]; }
    }
  }

  /** The replacement touches only white space: the other characters survive, in order. */
  lemma {:induction false} CollapseKeepsNonWhite(s: string)
    ensures NonWhite(CollapseWhiteSpace(s)) == NonWhite(s)
    decreases |s|
  {
    if s == [] {
    } else if s[0] in WhiteSpace {
      var t := TrimStart(s, WhiteSpace);
      CollapseKeepsNonWhite(t);
      NonWhiteOfTrimStart(s);
      NonWhiteAppend(" ", CollapseWhiteSpace(t));
    } else {
      CollapseKeepsNonWhite(s[1..]);
      NonWhiteAppend([s[0]], CollapseWhiteSpace(s[1..]));
    }
  }

  /** A string already in collapsed form is left unchanged. */
  lemma {:induction false} CollapseOfCollapsed(s: string)
    requires Collapsed(s)
    ensures CollapseWhiteSpace(s) == s
    decreases |s|
  {
    if s == [] {
    } else {
      assert Collapsed(s[1..]) by {
        forall i | 0 <= i < |s[1..]| && s[1..][i] in WhiteSpace
          ensures s[1..][i] == ' ' && (i + 1 == |s[1..]| || s[1..][i + 1] !in WhiteSpace)
        {
          assert s[1..][i] == s[i + 1];
        }
      }
      CollapseOfCollapsed(s[1..]);
      if s[0] in WhiteSpace {
        assert |s| == 1 || s[1] !in WhiteSpace;
        assert TrimStart(s, WhiteSpace) == TrimStart(s[1..], WhiteSpace);
        assert TrimStart(s[1..], WhiteSpace) == s[1..];
      }
    }
  }

  // ------------------------------------------------------- character replace

  /** string.Replace(a, b) for single characters. */
  function ReplaceChar(s: string, a: char, b: char): (r: string)
  {
    seq(|s|, i requires 0 <= i < |s| => if s[i] == a then b else s[i])
  }

  // ---------------------------------------------------------- join and split

  /** string.Join(sep, parts). */
  function Join(sep: string, parts: seq<string>): (r: string)
    decreases |parts|
  {
    if |parts| == 0 then "" else if |parts| == 1 then parts[0] else parts[0] + sep + Join(sep, parts[1..])
  }

  /** Joining one more part appends the separator and the part. */
  lemma {:induction false} JoinAppend(sep: string, parts: seq<string>, p: string)
    requires |parts| >= 1
    ensures Join(sep, parts + [p]) == Join(sep, parts) + sep + p
    decreases |parts|
  {
    if |parts| == 1 {
      assert parts + [p] == [parts[0], p];
      assert Join(sep, [p]) == p;
    } else {
      assert (parts + [p])[1..] == parts[1..] + [p];
      JoinAppend(sep, parts[1..], p);
    }
  }

  /** A join begins with its first part. */
  lemma JoinStartsWithFirst(sep: string, parts: seq<string>)
    requires |parts| >= 1
    ensures |Join(sep, parts)| >= |parts[0]| && Join(sep, parts)[..|parts[0]|] == parts[0]
  {
    if |parts| > 1 {
      assert Join(sep, parts) == parts[0] + (sep + Join(sep, parts[1..]));
    }
  }

  /** string.Split(sep) for one separator character: never empty. */
  function Split(s: string, sep: char): (parts: seq<string>)
    ensures |parts| >= 1
    decreases |s|
  {
    if s == [] then [""]
    else
      var rest := Split(s[1..], sep);
      if s[0] == sep then [""] + rest else [[s[0]] + rest[0]] + rest[1..]
  }

  lemma {:induction false} SplitAfterPart(p: string, t: string, sep: char)
    requires sep !in p
    ensures Split(p + t, sep) == [p + Split(t, sep)[0]] + Split(t, sep)[1..]
    decreases |p|
  {
    if p == [] {
      var st := Split(t, sep);
      assert p + t == t && p + st[0] == st[0];
      assert st == [st[0]] + st[1..];
    } else {
      assert (p + t)[0] == p[0] && p[0] != sep;
      assert (p + t)[1..] == p[1..] + t;
      SplitAfterPart(p[1..], t, sep);
      assert [p[0]] + (p[1..] + Split(t, sep)[0]) == p + Split(t, sep)[0];
    }
  }

  /** Splitting a join recovers the parts when no part holds the separator. */
  lemma {:induction false} SplitJoin(parts: seq<string>, sep: char)
    requires |parts| >= 1
    requires forall i | 0 <= i < |parts| :: sep !in parts[i]
    ensures Split(Join([sep], parts), sep) == parts
    decreases |parts|
  {
    if |parts| == 1 {
      SplitAfterPart(parts[0], "", sep);
      assert parts[0] + "" == parts[0];
    } else {
      var tail := Join([sep], parts[1..]);
      SplitJoin(parts[1..], sep);
      assert Join([sep], parts) == parts[0] + ([sep] + tail);
      SplitAfterPart(parts[0], [sep] + tail, sep);
      assert ([sep] + tail)[1..] == tail;
      assert Split([sep] + tail, sep) == [""] + parts[1..];
      assert parts[0] + "" == parts[0];
    }
  }

  // -------------------------------------------------- ordinal string search

  /** The two comparisons the driver passes to IndexOf. */
  datatype Comparison = Ordinal | OrdinalIgnoreCase

  /** char.ToUpperInvariant on the ASCII range; other characters are kept. */
  function UpperAscii(c: char): (u: char)
  {
    if 'a' <= c <= 'z' then (c as int - 32) as char else c
  }

  function Upper(s: string): (r: string)
  {
    seq(|s|, i requires 0 <= i < |s| => UpperAscii(s[i]))
  }

  predicate SameChar(a: char, b: char, cmp: Comparison) {
    match cmp
    case Ordinal => a == b
    case OrdinalIgnoreCase => UpperAscii(a) == UpperAscii(b)
  }

  /** `value` occurs in `text` at index `i` under `cmp`. */
  predicate MatchesAt(text: string, value: string, i: int, cmp: Comparison) {
    0 <= i && i + |value| <= |text| &&
    forall j | 0 <= j < |value| :: SameChar(text[i + j], value[j], cmp)
  }

  ghost predicate Occurs(text: string, value: string, cmp: Comparison) {
    exists i :: MatchesAt(text, value, i, cmp)
  }

  function IndexOfFrom(text: string, value: string, cmp: Comparison, i: nat): int
    decreases |text| - i
  {
    if i + |value| > |text| then -1
    else if MatchesAt(text, value, i, cmp) then i
    else IndexOfFrom(text, value, cmp, i + 1)
  }

  /** string.IndexOf(value, comparison): the first index where `value` occurs, or -1. */
  function IndexOf(text: string, value: string, cmp: Comparison): int {
    IndexOfFrom(text, value, cmp, 0)
  }

  lemma {:induction false} IndexOfFromSpec(text: string, value: string, cmp: Comparison, i: nat)
    requires forall k | 0 <= k < i :: !MatchesAt(text, value, k, cmp)
    ensures var r := IndexOfFrom(text, value, cmp, i);
      && (r >= 0 <==> Occurs(text, value, cmp))
      && (r >= 0 ==> MatchesAt(text, value, r, cmp) && forall k | 0 <= k < r :: !MatchesAt(text, value, k, cmp))
      && r >= -1
    decreases |text| - i
  {
    if i + |value| > |text| {
      forall k ensures !MatchesAt(text, value, k, cmp) {
        if k >= i { assert k + |value| > |text|; }
      }
    } else if !MatchesAt(text, value, i, cmp) {
      IndexOfFromSpec(text, value, cmp, i + 1);
    }
  }

  /** IndexOf finds the first occurrence, and returns -1 exactly when there is none. */
  lemma IndexOfSpec(text: string, value: string, cmp: Comparison)
    ensures var r := IndexOf(text, value, cmp);
      && (r >= 0 <==> Occurs(text, value, cmp))
      && (r >= 0 ==> MatchesAt(text, value, r, cmp) && forall k | 0 <= k < r :: !MatchesAt(text, value, k, cmp))
      && r >= -1
  {
    IndexOfFromSpec(text, value, cmp, 0);
  }

  // ------------------------------------------------------ integer formatting

  function DigitChar(d: nat): (c: char)
    requires d < 10
    ensures '0' <= c <= '9'
  {
    ('0' as int + d) as char
  }

  predicate AllDigits(s: string) {
    forall i | 0 <= i < |s| :: '0' <= s[i] <= '9'
  }

  /** Decimal text of a natural number, as int.ToString() writes it. */
  function NatText(n: nat): (r: string)
    ensures |r| >= 1 && AllDigits(r)
    decreases n
  {
    if n < 10 then [DigitChar(n)] else NatText(n / 10) + [DigitChar(n % 10)]
  }

  /** int.ToString(): a leading '-' for negative numbers. */
  function IntText(n: int): (r: string)
    ensures |r| >= 1 && (r[0] == '-' <==> n < 0)
    ensures forall i | 0 <= i < |r| :: r[i] == '-' || '0' <= r[i] <= '9'
  {
    if n < 0 then "-" + NatText(-n) else NatText(n)
  }

  function ParseNat(s: string): nat
    requires AllDigits(s)
    decreases |s|
  {
    if s == [] then 0 else ParseNat(s[..|s| - 1]) * 10 + (s[|s| - 1] as int - '0' as int)
  }

  /** Reads back the text IntText writes; None for anything else. */
  function ParseInt(s: string): Option<int> {
    if |s| >= 2 && s[0] == '-' && AllDigits(s[1..]) then Some(0 - ParseNat(s[1..]) as int)
    else if |s| >= 1 && AllDigits(s) then Some(ParseNat(s))
    else None
  }

  lemma {:induction false} ParseNatText(n: nat)
    ensures ParseNat(NatText(n)) == n
    decreases n
  {
    if n >= 10 {
      ParseNatText(n / 10);
      assert NatText(n)[..|NatText(n)| - 1] == NatText(n / 10);
    }
  }

  /** Formatting an integer and reading it back gives the integer. */
  lemma IntTextRoundTrip(n: int)
    ensures ParseInt(IntText(n)) == Some(n)
  {
    if n < 0 {
      ParseNatText(-n);
      assert IntText(n)[1..] == NatText(-n);
    } else {
      ParseNatText(n);
    }
  }
}
