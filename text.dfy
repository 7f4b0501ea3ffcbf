/** The few Python string operations the pipeline relies on, over `string`
    (a sequence of Unicode code points, as a Python `str` is). */
module Text {

  /** Python's `str.isspace()` for one character. */
  predicate IsSpace(c: char)
  {
    c == ' ' || ('\t' <= c <= '\r') || ('\U{1c}' <= c <= '\U{1f}')
    || c == '\U{85}' || c == '\U{a0}' || c == '\U{1680}'
    || ('\U{2000}' <= c <= '\U{200a}') || c == '\U{2028}' || c == '\U{2029}'
    || c == '\U{202f}' || c == '\U{205f}' || c == '\U{3000}'
  }

  /** The line boundaries recognised by Python's `str.splitlines()`. */
  predicate IsLineBreak(c: char)
  {
    ('\n' <= c <= '\r') || ('\U{1c}' <= c <= '\U{1e}')
    || c == '\U{85}' || c == '\U{2028}' || c == '\U{2029}'
  }

  predicate IsQuote(c: char)
  {
    c == '"' || c == '\''
  }

  /** The characters a strip removes: quotes when `quotes` holds, whitespace otherwise. */
  predicate Dropped(c: char, quotes: bool)
  {
    if quotes then IsQuote(c) else IsSpace(c)
  }

  /** How many leading characters of `s` are dropped. */
  function Leading(s: string, quotes: bool): (k: nat)
    ensures k <= |s|
  {
    if s != [] && Dropped(s[0], quotes) then 1 + Leading(s[1..], quotes) else 0
  }

  /** How many trailing characters of `s` are dropped. */
  function Trailing(s: string, quotes: bool): (k: nat)
    ensures k <= |s|
  {
    if s != [] && Dropped(s[|s| - 1], quotes) then 1 + Trailing(s[..|s| - 1], quotes) else 0
  }

  /** `s` with the dropped characters removed from both ends. */
  function Trim(s: string, quotes: bool): string
  {
    var t := s[Leading(s, quotes)..];
    t[..|t| - Trailing(t, quotes)]
  }

  /** Python's `s.strip()`: whitespace removed from both ends. */
  function Strip(s: string): string
  {
    Trim(s, false)
  }

  /** Python's `s.strip("\"'")`: quote characters removed from both ends. */
  function StripQuotes(s: string): string
  {
    Trim(s, true)
  }

  lemma {:induction false} LeadingDropped(s: string, quotes: bool)
    ensures forall k | 0 <= k < Leading(s, quotes) :: Dropped(s[k], quotes)
    ensures Leading(s, quotes) < |s| ==> !Dropped(s[Leading(s, quotes)], quotes)
  {
    if s != [] && Dropped(s[0], quotes) {
      LeadingDropped(s[1..], quotes);
    }
  }

  lemma {:induction false} TrailingDropped(s: string, quotes: bool)
    ensures forall k | |s| - Trailing(s, quotes) <= k < |s| :: Dropped(s[k], quotes)
    ensures Trailing(s, quotes) < |s| ==> !Dropped(s[|s| - 1 - Trailing(s, quotes)], quotes)
  {
    if s != [] && Dropped(s[|s| - 1], quotes) {
      TrailingDropped(s[..|s| - 1], quotes);
    }
  }

  /** A trim is the middle slice `s[i..j]` of `s`: everything outside it is
      dropped, and its own first and last characters are not. */
  lemma TrimSlice(s: string, quotes: bool) returns (i: nat, j: nat)
    ensures i <= j <= |s| && Trim(s, quotes) == s[i..j]
    ensures forall k | 0 <= k < i :: Dropped(s[k], quotes)
    ensures forall k | j <= k < |s| :: Dropped(s[k], quotes)
    ensures i < j ==> !Dropped(s[i], quotes) && !Dropped(s[j - 1], quotes)
  {
    i := Leading(s, quotes);
    var t := s[i..];
    j := i + |t| - Trailing(t, quotes);
    assert t[..j - i] == s[i..j];
    LeadingDropped(s, quotes);
    SuffixTrailing(s, quotes, i, j);
  }

  /** The characters that the trailing strip drops from the suffix `s[i..]`,
      counted in `s`. */
  lemma SuffixTrailing(s: string, quotes: bool, i: nat, j: nat)
    requires i <= |s| && j == |s| - Trailing(s[i..], quotes)
    ensures forall k | j <= k < |s| :: Dropped(s[k], quotes)
    ensures i < j ==> !Dropped(s[j - 1], quotes)
  {
    var t := s[i..];
    TrailingDropped(t, quotes);
    assert forall k | j <= k < |s| :: s[k] == t[k - i];
    if i < j {
      assert s[j - 1] == t[|t| - 1 - Trailing(t, quotes)];
    }
  }

  /** A string whose ends are kept is its own trim. */
  lemma TrimKeptEnds(s: string, quotes: bool)
    requires s != [] ==> !Dropped(s[0], quotes) && !Dropped(s[|s| - 1], quotes)
    ensures Trim(s, quotes) == s
  {
    assert Leading(s, quotes) == 0;
    assert s[0..] == s;
    assert Trailing(s, quotes) == 0;
  }

  /** Trimming never introduces a character. */
  lemma TrimWithout(s: string, quotes: bool, c: char)
    requires c !in s
    ensures c !in Trim(s, quotes)
  {
    var i, j := TrimSlice(s, quotes);
    assert forall k | 0 <= k < j - i :: s[i..j][k] == s[i + k];
  }

  /** Python's `str.upper()` on ASCII letters; every other character is kept. */
  function UpperChar(c: char): (u: char)
    ensures 'a' <= c <= 'z' ==> 'A' <= u <= 'Z'
    ensures !('a' <= c <= 'z') ==> u == c
  {
    if 'a' <= c <= 'z' then (c as int - 32) as char else c
  }

  function Upper(s: string): (r: string)
    ensures |r| == |s|
    ensures forall k | 0 <= k < |s| :: r[k] == UpperChar(s[k])
  {
    seq(|s|, k requires 0 <= k < |s| => UpperChar(s[k]))
  }

  /** Python's `sub in s`. */
  predicate Contains(s: string, sub: string)
    decreases |s|
  {
    sub <= s || (s != [] && Contains(s[1..], sub))
  }

  lemma {:induction false} ContainsAt(s: string, sub: string, i: nat)
    requires i + |sub| <= |s| && s[i..i + |sub|] == sub
    ensures Contains(s, sub)
    decreases i
  {
    if i > 0 {
      assert s[1..][i - 1..i - 1 + |sub|] == sub;
      ContainsAt(s[1..], sub, i - 1);
    } else {
      assert sub <= s;
    }
  }

  /** Position of the first `c` in `s`, or `|s|`. */
  function IndexOf(s: string, c: char): (i: nat)
    ensures i <= |s|
    ensures forall k | 0 <= k < i :: s[k] != c
    ensures i < |s| ==> s[i] == c
  {
    if s == [] || s[0] == c then 0 else 1 + IndexOf(s[1..], c)
  }

  /** Trimming a string whose first characters `p` start and end with kept
      characters leaves `p` in front. */
  lemma TrimKeepsPrefix(s: string, p: string, quotes: bool)
    requires |p| > 0 && p <= s && !Dropped(p[0], quotes) && !Dropped(p[|p| - 1], quotes)
    ensures p <= Trim(s, quotes)
  {
    var i, j := TrimSlice(s, quotes);
    assert s[0] == p[0] && s[|p| - 1] == p[|p| - 1];
    assert i == 0 && j >= |p|;
    assert s[i..j][..|p|] == p;
  }

  /** Index of the first line boundary of `s`, or `|s|` when there is none. */
  function FirstBreak(s: string): (k: nat)
    ensures k <= |s|
    ensures forall i | 0 <= i < k :: !IsLineBreak(s[i])
    ensures k < |s| ==> IsLineBreak(s[k])
  {
    if s == [] || IsLineBreak(s[0]) then 0 else 1 + FirstBreak(s[1..])
  }

  predicate NoLineBreak(s: string)
  {
    forall i | 0 <= i < |s| :: !IsLineBreak(s[i])
  }

  /** Python's `s.splitlines()`: "\r\n" is one boundary, a final boundary
      does not start an empty line, and "" has no lines. */
  function SplitLines(s: string): (lines: seq<string>)
    ensures forall l <- lines :: NoLineBreak(l)
    ensures s == [] <==> lines == []
    decreases |s|
  {
    if s == [] then []
    else
      var k := FirstBreak(s);
      if k == |s| then [s]
      else
        var next := if s[k] == '\r' && k + 1 < |s| && s[k + 1] == '\n' then k + 2 else k + 1;
        [s[..k]] + SplitLines(s[next..])
  }

  /** A line with no boundary followed by "\n" is split off as one line. */
  lemma SplitLinesCons(line: string, rest: string)
    requires NoLineBreak(line)
    ensures SplitLines(line + "\n" + rest) == [line] + SplitLines(rest)
  {
    var s := line + "\n" + rest;
    assert FirstBreak(s) == |line| by {
      assert s[|line|] == '\n';
      assert forall i | 0 <= i < |line| :: s[i] == line[i];
    }
    assert s[..|line|] == line;
    assert s[|line| + 1..] == rest;
  }

  /** Each line followed by "\n": the inverse of `SplitLines` on lines
      without breaks. */
  function Unlines(lines: seq<string>): (r: string)
    ensures lines == [] <==> r == []
  {
    if lines == [] then "" else lines[0] + "\n" + Unlines(lines[1..])
  }

  lemma {:induction false} SplitUnlines(lines: seq<string>)
    requires forall l <- lines :: NoLineBreak(l)
    ensures SplitLines(Unlines(lines)) == lines
  {
    if lines != [] {
      SplitUnlines(lines[1..]);
      SplitLinesCons(lines[0], Unlines(lines[1..]));
    }
  }

  lemma {:induction false} UnlinesSnoc(lines: seq<string>, line: string)
    ensures Unlines(lines + [line]) == Unlines(lines) + line + "\n"
  {
    if lines != [] {
      assert (lines + [line])[1..] == lines[1..] + [line];
      UnlinesSnoc(lines[1..], line);
    } else {
      assert Unlines([line]) == line + "\n" + Unlines([]);
    }
  }

  // ---------------------------------------------------------------------
  // Decimal integers, as Python's f"{n}" and f"{n:02d}" print them.

  function DigitChar(d: nat): (c: char)
    requires d < 10
    ensures '0' <= c <= '9' && c as int - '0' as int == d
  {
    ('0' as int + d) as char
  }

  predicate IsDigit(c: char)
  {
    '0' <= c <= '9'
  }

  predicate AllDigits(s: string)
  {
    forall i | 0 <= i < |s| :: IsDigit(s[i])
  }

  /** f"{n}" for a natural number: its decimal digits, no leading zero. */
  function NatToString(n: nat): (r: string)
    ensures r != [] && AllDigits(r)
    ensures r[0] == '0' ==> n == 0
  {
    if n < 10 then [DigitChar(n)] else NatToString(n / 10) + [DigitChar(n % 10)]
  }

  /** f"{i}" for any integer. */
  function IntToString(i: int): (r: string)
    ensures r != [] && (r[0] == '-' <==> i < 0)
  {
    if i < 0 then "-" + NatToString(-i) else NatToString(i)
  }

  /** f"{n:02d}" for a natural number: at least two digits. */
  function Pad2(n: nat): (r: string)
    ensures |r| >= 2 && AllDigits(r)
    ensures n < 100 ==> |r| == 2
  {
    if n < 10 then "0" + NatToString(n)
    else
      assert n < 100 ==> |NatToString(n / 10)| == 1;
      NatToString(n)
  }

  /** The value of a string of decimal digits. */
  function ParseNat(s: string): nat
    requires AllDigits(s)
  {
    if s == [] then 0 else ParseNat(s[..|s| - 1]) * 10 + (s[|s| - 1] as int - '0' as int)
  }

  lemma {:induction false} ParseNatToString(n: nat)
    ensures ParseNat(NatToString(n)) == n
  {
    if n >= 10 {
      var r := NatToString(n);
      assert r[..|r| - 1] == NatToString(n / 10);
      ParseNatToString(n / 10);
    }
  }

  lemma {:induction false} ParsePad2(n: nat)
    ensures ParseNat(Pad2(n)) == n
  {
    ParseNatToString(n);
    if n < 10 {
      var r := Pad2(n);
      assert r[..|r| - 1] == "0";
      assert ParseNat("0") == 0 by { assert "0"[..0] == ""; }
    }
  }
}
