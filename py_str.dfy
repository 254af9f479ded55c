/** The few Python `str` operations the application relies on, with the
    semantics CPython gives them: `isspace`, `strip` and `rstrip` with no
    argument, `splitlines`, `startswith`, `endswith`, `replace` of one
    character, `lower` (on ASCII letters) and the prefix slice `s[:k]`. */
module PyStr {

  /** `c.isspace()`: the characters `str.strip()` removes. */
  predicate IsSpace(c: char) {
    ('\t' <= c <= '\r') || ('\U{1c}' <= c <= '\U{1f}') || c == ' ' ||
    c == '\U{85}' || c == '\U{a0}' || c == '\U{1680}' ||
    ('\U{2000}' <= c <= '\U{200a}') || c == '\U{2028}' || c == '\U{2029}' ||
    c == '\U{202f}' || c == '\U{205f}' || c == '\U{3000}'
  }

  /** The characters `str.splitlines()` treats as line boundaries; every one
      of them is also whitespace. */
  predicate IsLineBreak(c: char)
    ensures IsLineBreak(c) ==> IsSpace(c)
  {
    c == '\n' || c == '\r' || c == '\U{0b}' || c == '\U{0c}' ||
    ('\U{1c}' <= c <= '\U{1e}') || c == '\U{85}' || c == '\U{2028}' || c == '\U{2029}'
  }

  ghost predicate AllSpace(s: string) {
    forall i :: 0 <= i < |s| ==> IsSpace(s[i])
  }

  ghost predicate NoLineBreak(s: string) {
    forall i :: 0 <= i < |s| ==> !IsLineBreak(s[i])
  }

  /** No leading and no trailing whitespace. */
  ghost predicate IsTrimmed(s: string) {
    s == "" || (!IsSpace(s[0]) && !IsSpace(s[|s| - 1]))
  }

  /** `s.rstrip()`: the longest prefix of `s` that does not end with
      whitespace, everything after it being whitespace. */
  function RStrip(s: string): (r: string)
    ensures |r| <= |s| && r == s[..|r|]
    ensures AllSpace(s[|r|..])
    ensures r == "" || !IsSpace(r[|r| - 1])
  {
    if s != "" && IsSpace(s[|s| - 1]) then
      var r := RStrip(s[..|s| - 1]);
      assert s[|r|..] == s[..|s| - 1][|r|..] + [s[|s| - 1]];
      r
    else s
  }

  /** `s.strip()`: the leading whitespace goes one character at a time, then
      the trailing whitespace as `rstrip` removes it. The result is empty
      exactly when `s` is all whitespace, and it is trimmed. */
  function Strip(s: string): (r: string)
    ensures |r| <= |s|
    ensures AllSpace(s) <==> r == ""
    ensures IsTrimmed(r)
    ensures NoLineBreak(s) ==> NoLineBreak(r)
    decreases |s|
  {
    if s != "" && IsSpace(s[0]) then
      DropSpace(s);
      Strip(s[1..])
    else
      var r := RStrip(s);
      RStripUnpadded(s, r);
      r
  }

  /** Dropping one leading whitespace character keeps both "all
      whitespace" and "no line boundary". */
  lemma DropSpace(s: string)
    requires s != "" && IsSpace(s[0])
    ensures AllSpace(s) <==> AllSpace(s[1..])
    ensures NoLineBreak(s) ==> NoLineBreak(s[1..])
  {
    if AllSpace(s[1..]) {
      forall i | 1 <= i < |s| ensures IsSpace(s[i]) {
        assert s[i] == s[1..][i - 1];
      }
    }
  }

  /** `rstrip` of a text that does not start with whitespace gives what
      `strip` gives. */
  lemma RStripUnpadded(s: string, r: string)
    requires r == RStrip(s) && (s == "" || !IsSpace(s[0]))
    ensures AllSpace(s) <==> r == ""
    ensures IsTrimmed(r)
    ensures NoLineBreak(s) ==> NoLineBreak(r)
  {
    if r == "" {
      assert s[|r|..] == s;
    } else {
      assert r[0] == s[0];
    }
    if NoLineBreak(s) {
      PrefixKeepsNoLineBreak(s, r);
    }
  }

  lemma PrefixKeepsNoLineBreak(s: string, p: string)
    requires NoLineBreak(s) && |p| <= |s| && p == s[..|p|]
    ensures NoLineBreak(p)
  {
    forall i | 0 <= i < |p| ensures !IsLineBreak(p[i]) {
      assert p[i] == s[i];
    }
  }

  /** Stripping is the inverse of padding a trimmed text with whitespace. */
  lemma {:induction false} StripPadded(lead: string, x: string, trail: string)
    requires AllSpace(lead) && AllSpace(trail) && IsTrimmed(x)
    ensures Strip(lead + x + trail) == x
    decreases |lead|
  {
    var s := lead + x + trail;
    if x == "" {
      assert AllSpace(s) by {
        assert s == lead + trail;
      }
    } else if lead != "" {
      assert s[0] == lead[0];
      assert s[1..] == lead[1..] + x + trail;
      StripPadded(lead[1..], x, trail);
    } else {
      assert s == x + trail;
      assert s[0] == x[0];
      RStripPadded(x, trail);
    }
  }

  lemma {:induction false} RStripPadded(y: string, trail: string)
    requires AllSpace(trail) && (y == "" || !IsSpace(y[|y| - 1]))
    ensures RStrip(y + trail) == y
  {
    if trail != "" {
      var t := trail[..|trail| - 1];
      assert (y + trail)[..|y + trail| - 1] == y + t;
      RStripPadded(y, t);
    } else {
      assert y + trail == y;
    }
  }

  /** Index of the first line boundary in `s`, or `|s|` when there is none. */
  function FirstBreak(s: string): (i: nat)
    ensures i <= |s|
    ensures NoLineBreak(s[..i])
    ensures i < |s| ==> IsLineBreak(s[i])
  {
    if s == "" then 0
    else if IsLineBreak(s[0]) then 0
    else
      var j := FirstBreak(s[1..]);
      assert s[..1 + j] == [s[0]] + s[1..][..j];
      1 + j
  }

  /** Width of the boundary at `i`: "\r\n" counts as one boundary of width 2. */
  function BreakWidth(s: string, i: nat): (w: nat)
    requires i < |s|
    ensures 1 <= w <= |s| - i
  {
    if s[i] == '\r' && i + 1 < |s| && s[i + 1] == '\n' then 2 else 1
  }

  /** `s.splitlines()`: the lines of `s` without their boundaries; a final
      boundary does not start an extra empty line, and "" has no lines. */
  function SplitLines(s: string): (lines: seq<string>)
    ensures forall k :: 0 <= k < |lines| ==> NoLineBreak(lines[k])
    ensures s != "" ==> lines != []
    decreases |s|
  {
    if s == "" then []
    else
      var i := FirstBreak(s);
      if i == |s| then
        assert s[..i] == s;
        [s]
      else [s[..i]] + SplitLines(s[i + BreakWidth(s, i)..])
  }

  /** A text of whitespace only splits into lines of whitespace only. */
  lemma {:induction false} BlankTextHasBlankLines(s: string)
    requires AllSpace(s)
    ensures forall k :: 0 <= k < |SplitLines(s)| ==> AllSpace(SplitLines(s)[k])
    decreases |s|
  {
    if s != "" {
      var i := FirstBreak(s);
      if i < |s| {
        BlankTextHasBlankLines(s[i + BreakWidth(s, i)..]);
      }
    }
  }

  /** Conversely, if every line strips to "" then the whole text is
      whitespace: the boundaries between the lines are whitespace too. */
  lemma {:induction false} BlankLinesMeanBlankText(s: string)
    requires forall k :: 0 <= k < |SplitLines(s)| ==> Strip(SplitLines(s)[k]) == ""
    ensures AllSpace(s)
    decreases |s|
  {
    if s != "" {
      var i := FirstBreak(s);
      FirstLineIsLeading(s);
      assert Strip(s[..i]) == "";
      if i < |s| {
        var rest := s[i + BreakWidth(s, i)..];
        LaterLinesAreRest(s);
        BlankLinesMeanBlankText(rest);
        BlankAroundBreak(s, i, BreakWidth(s, i));
      } else {
        assert s == s[..i];
      }
    }
  }

  /** The first line of a non-empty text is everything before its first
      boundary. */
  lemma FirstLineIsLeading(s: string)
    requires s != ""
    ensures SplitLines(s)[0] == s[..FirstBreak(s)]
  {
    if FirstBreak(s) == |s| {
      assert s[..|s|] == s;
    }
  }

  /** After the first boundary come the remaining lines. */
  lemma LaterLinesAreRest(s: string)
    requires s != "" && FirstBreak(s) < |s|
    ensures var rest := s[FirstBreak(s) + BreakWidth(s, FirstBreak(s))..];
            forall k :: 0 <= k < |SplitLines(rest)| ==> SplitLines(rest)[k] == SplitLines(s)[k + 1]
  {
    var i := FirstBreak(s);
    var later := SplitLines(s[i + BreakWidth(s, i)..]);
    assert SplitLines(s) == [s[..i]] + later;
    forall k | 0 <= k < |later|
      ensures later[k] == SplitLines(s)[k + 1]
    {
      assert ([s[..i]] + later)[k + 1] == later[k];
    }
  }

  /** A text whose first line and whatever follows the first boundary are all
      whitespace is all whitespace, since the boundary is whitespace too. */
  lemma BlankAroundBreak(s: string, i: nat, w: nat)
    requires i < |s| && IsLineBreak(s[i]) && w == BreakWidth(s, i)
    requires AllSpace(s[..i]) && AllSpace(s[i + w..])
    ensures AllSpace(s)
  {
    var head := s[..i];
    var brk := s[i..i + w];
    var rest := s[i + w..];
    assert AllSpace(brk) by {
      assert brk[0] == s[i];
      assert w == 2 ==> brk[1] == '\n';
    }
    AllSpaceConcat(head, brk);
    AllSpaceConcat(head + brk, rest);
    assert s == head + brk + rest;
  }

  lemma AllSpaceConcat(a: string, b: string)
    requires AllSpace(a) && AllSpace(b)
    ensures AllSpace(a + b)
  {
    forall i | |a| <= i < |a + b| ensures IsSpace((a + b)[i]) {
      assert (a + b)[i] == b[i - |a|];
    }
  }

  predicate StartsWith(s: string, prefix: string) {
    |prefix| <= |s| && s[..|prefix|] == prefix
  }

  predicate EndsWith(s: string, suffix: string) {
    |suffix| <= |s| && s[|s| - |suffix|..] == suffix
  }

  /** `s[:k]` for any integer `k`: a negative `k` counts from the end. */
  function PyPrefix(s: string, k: int): (r: string)
    ensures |r| <= |s| && r == s[..|r|]
    ensures k >= 0 ==> |r| == if k < |s| then k else |s|
    ensures k < 0 ==> |r| == if |s| + k > 0 then |s| + k else 0
  {
    if k >= 0 then (if k < |s| then s[..k] else s)
    else (if |s| + k > 0 then s[..|s| + k] else "")
  }

  /** `s.replace(a, b)` for one-character `a` and `b`. */
  function ReplaceChar(s: string, from: char, to: char): (r: string)
    ensures |r| == |s|
    ensures forall i :: 0 <= i < |s| ==> r[i] == (if s[i] == from then to else s[i])
  {
    if s == "" then ""
    else [if s[0] == from then to else s[0]] + ReplaceChar(s[1..], from, to)
  }

  ghost predicate NoAsciiUpper(s: string) {
    forall i :: 0 <= i < |s| ==> !('A' <= s[i] <= 'Z')
  }

  /** An upper-case ASCII letter becomes its lower-case letter, 32 code
      points further; every other character is kept. */
  function LowerChar(c: char): (r: char)
    ensures 'A' <= c <= 'Z' ==> r as int == c as int + 32 && 'a' <= r <= 'z'
    ensures !('A' <= c <= 'Z') ==> r == c
  {
    if 'A' <= c <= 'Z' then (c as int - 'A' as int + 'a' as int) as char else c
  }

  /** `s.lower()` restricted to ASCII letters: each character is lowered on
      its own, so the result has no upper-case ASCII letter, and a text
      without one is left as it is. */
  function Lower(s: string): (r: string)
    ensures |r| == |s| && NoAsciiUpper(r)
    ensures forall i :: 0 <= i < |s| ==> r[i] == LowerChar(s[i])
    ensures NoAsciiUpper(s) ==> r == s
  {
    if s == "" then "" else [LowerChar(s[0])] + Lower(s[1..])
  }
}
