/**
 * The reason heuristic of the report parser (`_extract_reason_from_text`,
 * parse_cucumber_reports.py): an exception token with the rest of its line,
 * or else the first non-blank line, cut to 1000 characters.
 */
module ReasonExtraction {
  import opened Wrappers
  import opened PyText
  import opened ExcPattern

  const MaxReason := 1000

  /** The first line that is not blank, stripped and cut to `MaxReason`. */
  function FirstNonBlank(lines: seq<string>): (r: Option<string>)
    ensures r.Some? ==> |r.value| <= MaxReason
  {
    if lines == [] then None
    else if Strip(lines[0]) != [] then Some(Take(Strip(lines[0]), MaxReason))
    else FirstNonBlank(lines[1..])
  }

  /** Line `j` is the first line that is not blank: it strips to something
      non-empty (see `StripEmptyIffBlank`) and every line before it is blank. */
  predicate IsFirstNonBlank(lines: seq<string>, j: nat) {
    j < |lines| && Strip(lines[j]) != [] && AllBlank(lines[..j])
  }

  /** `FirstNonBlank` finds a line exactly when some line is not blank. */
  lemma {:induction false} FirstNonBlankNone(lines: seq<string>)
    ensures FirstNonBlank(lines).None? <==> AllBlank(lines)
  {
    if lines != [] {
      AllBlankHead(lines);
      StripEmptyIffBlank(lines[0]);
      if Strip(lines[0]) == [] {
        FirstNonBlankNone(lines[1..]);
      }
    }
  }

  /** When it finds one, `FirstNonBlank` gives the first line that is not
      blank, stripped (hence not empty) and cut to `MaxReason`. */
  lemma {:induction false} FirstNonBlankAt(lines: seq<string>) returns (j: nat)
    requires FirstNonBlank(lines).Some?
    ensures IsFirstNonBlank(lines, j)
    ensures FirstNonBlank(lines).value == Take(Strip(lines[j]), MaxReason)
    ensures FirstNonBlank(lines).value != []
  {
    if Strip(lines[0]) != [] {
      j := 0;
      assert lines[..0] == [];
    } else {
      StripEmptyIffBlank(lines[0]);
      var tail := lines[1..];
      var i := FirstNonBlankAt(tail);
      j := i + 1;
      assert lines[..j][1..] == tail[..i];
      AllBlankHead(lines[..j]);
    }
  }

  /** `_extract_reason_from_text(text)`. */
  function ExtractReasonFromText(text: string): Option<string> {
    if text == [] then None
    else match Search(text, ParserSuffixes)
      case Some(m) =>
        var t := Token(text, m);
        var msg := match RestOfLine(text, m.end) case Some(g) => Strip(g) case None => [];
        Some(Take(if msg != [] then t + ": " + msg else t, MaxReason))
      case None => FirstNonBlank(SplitLines(text))
  }

  /** The token the search finds starts with a token character, so a text
      that contains one is not blank. */
  lemma FoundTokenIsNotBlank(text: string)
    requires Search(text, ParserSuffixes).Some?
    ensures !IsSpace(text[Search(text, ParserSuffixes).value.start])
  {
    var p, k := FoundToken(text, 0, ParserSuffixes);
    assert IsTokenChar(text[Search(text, ParserSuffixes).value.start]);
  }

  /** With an exception token, the reason starts with the token. */
  lemma TokenReason(text: string)
    requires Search(text, ParserSuffixes).Some?
    ensures !Blank(text)
    ensures ExtractReasonFromText(text).Some?
    ensures 0 < |ExtractReasonFromText(text).value| <= MaxReason
    ensures Take(Token(text, Search(text, ParserSuffixes).value), MaxReason) <= ExtractReasonFromText(text).value
  {
    var m := Search(text, ParserSuffixes).value;
    FoundTokenIsNotBlank(text);
    var t := Token(text, m);
    var msg := match RestOfLine(text, m.end) case Some(g) => Strip(g) case None => [];
    var full := if msg != [] then t + ": " + msg else t;
    assert ExtractReasonFromText(text) == Some(Take(full, MaxReason));
    assert t <= full;
    assert Take(t, MaxReason) <= Take(full, MaxReason);
  }

  /** Without an exception token, the reason is the first non-blank line. */
  lemma LineReason(text: string)
    requires Search(text, ParserSuffixes).None?
    ensures ExtractReasonFromText(text).None? <==> Blank(text)
    ensures ExtractReasonFromText(text).Some? ==> 0 < |ExtractReasonFromText(text).value| <= MaxReason
    ensures !Blank(text) ==>
              exists j: nat :: && IsFirstNonBlank(SplitLines(text), j)
                               && ExtractReasonFromText(text) == Some(Take(Strip(SplitLines(text)[j]), MaxReason))
  {
    BlankIffLinesBlank(text);
    FirstNonBlankNone(SplitLines(text));
    if !Blank(text) {
      var j := FirstNonBlankAt(SplitLines(text));
    }
  }

  /** No reason for a blank text (empty, or only white space and line
      breaks); otherwise a non-empty reason of at most 1000 characters that
      starts with the exception token when there is one and is otherwise the
      first non-blank line, stripped. */
  lemma ExtractReasonSpec(text: string)
    ensures ExtractReasonFromText(text).None? <==> Blank(text)
    ensures ExtractReasonFromText(text).Some? ==> 0 < |ExtractReasonFromText(text).value| <= MaxReason
    ensures Search(text, ParserSuffixes).Some? ==>
              Take(Token(text, Search(text, ParserSuffixes).value), MaxReason) <= ExtractReasonFromText(text).value
    ensures Search(text, ParserSuffixes).None? && !Blank(text) ==>
              exists j: nat :: && IsFirstNonBlank(SplitLines(text), j)
                               && ExtractReasonFromText(text) == Some(Take(Strip(SplitLines(text)[j]), MaxReason))
  {
    if Search(text, ParserSuffixes).Some? {
      TokenReason(text);
    } else {
      LineReason(text);
    }
  }
}
