/** The one-line character blurb shown for a generated profile
    (`build_brief`): the first line that is not blank once stripped, cut to a
    maximum length with an ellipsis. */
module Blurb {
  import opened Options
  import opened PyStr

  /** The default maximum length of a blurb. */
  const DEFAULT_MAX_LEN: int := 160

  /** The suffix marking a cut blurb: one horizontal ellipsis, U+2026. */
  const ELLIPSIS: string := "\U{2026}"

  /** The suffix as the source file spells it: the three characters U+201A,
      U+00C4 and U+00B6, which is the UTF-8 encoding of the ellipsis read as
      Mac Roman text. */
  const WRITTEN_SUFFIX: string := "\U{201a}\U{c4}\U{b6}"

  /** Index of the first line at or after `from` that does not strip to "",
      or `|lines|`. */
  function FirstNonBlank(lines: seq<string>, from: nat): (i: nat)
    requires from <= |lines|
    ensures from <= i <= |lines|
    ensures forall j :: from <= j < i ==> Strip(lines[j]) == ""
    ensures i < |lines| ==> Strip(lines[i]) != ""
    decreases |lines| - from
  {
    if from == |lines| then from
    else if Strip(lines[from]) != "" then from
    else
      var i := FirstNonBlank(lines, from + 1);
      BlankRangeExtends(lines, from, i);
      i
  }

  lemma BlankRangeExtends(lines: seq<string>, from: nat, i: nat)
    requires from < i <= |lines| && Strip(lines[from]) == ""
    requires forall j :: from + 1 <= j < i ==> Strip(lines[j]) == ""
    ensures forall j :: from <= j < i ==> Strip(lines[j]) == ""
  {
  }

  /** The stripped first non-blank line of `profile`, if there is one: never
      empty, without surrounding whitespace and without a line boundary. */
  function FirstLine(profile: string): (r: Option<string>)
    ensures r.Some? ==> r.value != "" && IsTrimmed(r.value) && NoLineBreak(r.value)
    ensures r.None? <==> AllSpace(profile)
  {
    var lines := SplitLines(profile);
    var i := FirstNonBlank(lines, 0);
    if i < |lines| then
      BlankLinesSkipped(profile, i);
      Some(Strip(lines[i]))
    else
      BlankLinesMeanBlankText(profile);
      None
  }

  /** A blank text has no non-blank line. */
  lemma BlankLinesSkipped(profile: string, i: nat)
    requires i < |SplitLines(profile)| && Strip(SplitLines(profile)[i]) != ""
    ensures !AllSpace(profile)
  {
    if AllSpace(profile) {
      BlankTextHasBlankLines(profile);
      assert false;
    }
  }

  /** The line the loop of `build_brief` settles on: the first non-blank
      line, or else the stripped profile, which is then "". */
  function Chosen(profile: string): (r: string)
    ensures NoLineBreak(r)
    ensures r == "" <==> AllSpace(profile)
  {
    if FirstLine(profile).Some? then FirstLine(profile).value else Strip(profile)
  }

  /** What `build_brief(profile, maxLen)` returns when a cut blurb ends in
      `suffix`. */
  function BriefWith(profile: string, maxLen: int, suffix: string): string {
    if profile == "" then ""
    else
      var brief := ReplaceChar(Chosen(profile), '\n', ' ');
      if |brief| > maxLen then RStrip(PyPrefix(brief, maxLen - 1)) + suffix else brief
  }

  /** The blurb with the single-character ellipsis. */
  function Brief(profile: string, maxLen: int): string {
    BriefWith(profile, maxLen, ELLIPSIS)
  }

  /** The blurb with the suffix as the source file spells it. */
  function WrittenBrief(profile: string, maxLen: int): string {
    BriefWith(profile, maxLen, WRITTEN_SUFFIX)
  }

  /** `build_brief`: scans the lines for the first non-blank one, falls back
      to the stripped profile, and cuts the result when it is too long. */
  method BuildBrief(profile: string, maxLen: int) returns (brief: string)
    ensures brief == Brief(profile, maxLen)
  {
    if profile == "" {
      return "";
    }
    var lines := SplitLines(profile);
    var found := false;
    var i := 0;
    while i < |lines|
      invariant 0 <= i <= |lines|
      invariant FirstNonBlank(lines, i) == FirstNonBlank(lines, 0)
      decreases |lines| - i
    {
      var candidate := Strip(lines[i]);
      if candidate != "" {
        brief := candidate;
        found := true;
        break;
      }
      i := i + 1;
    }
    if !found {
      brief := Strip(profile);
    }
    assert brief == Chosen(profile) by {
      if found {
        assert FirstNonBlank(lines, 0) == i;
      } else {
        assert FirstNonBlank(lines, 0) == |lines|;
      }
    }
    brief := ReplaceChar(brief, '\n', ' ');
    if |brief| > maxLen {
      brief := RStrip(PyPrefix(brief, maxLen - 1)) + ELLIPSIS;
    }
  }

  /** With a non-negative limit the blurb is empty exactly when the profile is
      empty or all whitespace. */
  lemma BriefEmptyIff(profile: string, maxLen: int)
    requires maxLen >= 0
    ensures Brief(profile, maxLen) == "" <==> AllSpace(profile)
  {
    if profile != "" {
      assert |ReplaceChar(Chosen(profile), '\n', ' ')| == |Chosen(profile)|;
    }
  }

  /** A first line that fits is the blurb, unchanged. */
  lemma BriefFits(profile: string, maxLen: int, line: string)
    requires FirstLine(profile) == Some(line) && |line| <= maxLen
    ensures Brief(profile, maxLen) == line
  {
    NoNewlineUnreplaced(line);
  }

  /** A first line longer than the limit is cut to its first `maxLen - 1`
      characters, stripped on the right, and marked with the ellipsis. */
  lemma BriefCut(profile: string, maxLen: int, line: string)
    requires maxLen >= 1
    requires FirstLine(profile) == Some(line) && |line| > maxLen
    ensures Brief(profile, maxLen) == RStrip(line[..maxLen - 1]) + ELLIPSIS
  {
    NoNewlineUnreplaced(line);
  }

  /** With a positive limit the blurb never exceeds it. */
  lemma BriefWithinLimit(profile: string, maxLen: int)
    requires maxLen >= 1
    ensures |Brief(profile, maxLen)| <= maxLen
  {
    if profile != "" {
      var brief := ReplaceChar(Chosen(profile), '\n', ' ');
      if |brief| > maxLen {
        assert |RStrip(PyPrefix(brief, maxLen - 1))| <= maxLen - 1;
      }
    }
  }

  /** With the suffix as written, a cut blurb whose kept text does not end in
      whitespace is two characters longer than the limit. */
  lemma WrittenBriefOverflows(profile: string, maxLen: int, line: string)
    requires maxLen >= 2
    requires FirstLine(profile) == Some(line) && |line| > maxLen && !IsSpace(line[maxLen - 2])
    ensures |WrittenBrief(profile, maxLen)| == maxLen + 2
  {
    NoNewlineUnreplaced(line);
    var kept := line[..maxLen - 1];
    assert RStrip(kept) == kept by {
      assert kept[|kept| - 1] == line[maxLen - 2];
    }
  }

  /** Whatever the limit, the blurb holds no line boundary. */
  lemma BriefIsOneLine(profile: string, maxLen: int)
    ensures NoLineBreak(Brief(profile, maxLen))
  {
    if profile != "" {
      var chosen := Chosen(profile);
      NoNewlineUnreplaced(chosen);
      if |chosen| > maxLen {
        var prefix := PyPrefix(chosen, maxLen - 1);
        var cut := RStrip(prefix);
        assert NoLineBreak(cut) by {
          PrefixKeepsNoLineBreak(chosen, prefix);
          PrefixKeepsNoLineBreak(prefix, cut);
        }
        assert NoLineBreak(ELLIPSIS) by {
          assert ELLIPSIS[0] == '\U{2026}';
        }
        NoLineBreakConcat(cut, ELLIPSIS);
      }
    }
  }

  lemma NoLineBreakConcat(a: string, b: string)
    requires NoLineBreak(a) && NoLineBreak(b)
    ensures NoLineBreak(a + b)
  {
    forall i | 0 <= i < |a + b| ensures !IsLineBreak((a + b)[i]) {
      if i >= |a| {
        assert (a + b)[i] == b[i - |a|];
      }
    }
  }

  /** The `replace("\n", " ")` step changes nothing in a text without line
      boundaries. */
  lemma NoNewlineUnreplaced(s: string)
    requires NoLineBreak(s)
    ensures ReplaceChar(s, '\n', ' ') == s
  {
    var r := ReplaceChar(s, '\n', ' ');
    forall i | 0 <= i < |s| ensures r[i] == s[i] {
      assert !IsLineBreak(s[i]);
    }
  }
}
