/**
 * The pieces of Python's `str` behaviour that the report scripts rely on:
 * `str.isspace` and `str.strip`, `str.splitlines`, ASCII case mapping,
 * slicing `s[:n]`, substring tests, `str(int)` and `sep.join(parts)`.
 * Strings are sequences of Unicode code points, as Python's are.
 */
module PyText {
  import opened Wrappers

  /** The characters for which Python's `str.isspace()` holds; the regular
      expression class `\s` of a `str` pattern is the same set. */
  predicate IsSpace(c: char) {
    || ('\t' <= c <= '\r')             // \t \n \v \f \r
    || ('\U{1C}' <= c <= ' ')          // the four separators 0x1C-0x1F and the space
    || c == '\U{85}' || c == '\U{A0}' || c == '\U{1680}'
    || ('\U{2000}' <= c <= '\U{200A}')
    || c == '\U{2028}' || c == '\U{2029}' || c == '\U{202F}' || c == '\U{205F}'
    || c == '\U{3000}'
  }

  /** The characters at which `str.splitlines()` breaks a line. */
  predicate IsLineBreak(c: char) {
    || c == '\n' || c == '\r' || c == '\U{0B}' || c == '\U{0C}'
    || c == '\U{1C}' || c == '\U{1D}' || c == '\U{1E}'
    || c == '\U{85}' || c == '\U{2028}' || c == '\U{2029}'
  }

  /** No character of `line` is a line break. */
  predicate NoBreaks(line: string) {
    forall i :: 0 <= i < |line| ==> !IsLineBreak(line[i])
  }

  /** Every character of `s` is white space (vacuously so for ""). */
  predicate Blank(s: string) {
    forall i :: 0 <= i < |s| ==> IsSpace(s[i])
  }

  function TrimStart(s: string): (r: string)
    ensures |r| <= |s| && r == s[|s| - |r|..]
    ensures Blank(s[..|s| - |r|])
    ensures r != [] ==> !IsSpace(r[0])
  {
    if s != [] && IsSpace(s[0]) then
      var r := TrimStart(s[1..]);
      assert s[..|s| - |r|] == [s[0]] + s[1..][..|s| - 1 - |r|];
      r
    else s
  }

  function TrimEnd(s: string): (r: string)
    ensures |r| <= |s| && r == s[..|r|]
    ensures Blank(s[|r|..])
    ensures r != [] ==> !IsSpace(r[|r| - 1])
  {
    if s != [] && IsSpace(s[|s| - 1]) then
      var r := TrimEnd(s[..|s| - 1]);
      assert s[|r|..] == s[..|s| - 1][|r|..] + [s[|s| - 1]];
      r
    else s
  }

  /** Python's `s.strip()`: `s` with leading and trailing white space removed. */
  function Strip(s: string): (r: string)
  {
    TrimEnd(TrimStart(s))
  }

  /** `Strip(s)` is empty exactly when `s` is blank. */
  lemma StripEmptyIffBlank(s: string)
    ensures Strip(s) == [] <==> Blank(s)
  {
    var t := TrimStart(s);
    var i := |s| - |t|;
    if Strip(s) == [] {
      forall k | 0 <= k < |s| ensures IsSpace(s[k]) {
        assert s[k] == s[..i][k];
      }
    }
  }

  /** Python's `s.splitlines()`: the lines of `s` without their line breaks,
      where "\r\n" is a single break and a final empty line is not produced. */
  function SplitLines(s: string): (lines: seq<string>)
    ensures s != [] <==> lines != []
    ensures forall j :: 0 <= j < |lines| ==> NoBreaks(lines[j])
    decreases |s|
  {
    if s == [] then []
    else
      var k := LineEnd(s, 0);
      if k == |s| then [s]
      else
        var next := if s[k] == '\r' && k + 1 < |s| && s[k + 1] == '\n' then k + 2 else k + 1;
        var rest := SplitLines(s[next..]);
        assert NoBreaks(s[..k]) by {
          assert forall i :: 0 <= i < k ==> s[..k][i] == s[i];
        }
        assert forall j :: 1 <= j < |rest| + 1 ==> ([s[..k]] + rest)[j] == rest[j - 1];
        [s[..k]] + rest
  }

  /** The index of the first line break at or after `i`, or `|s|` if there is none. */
  function LineEnd(s: string, i: nat): (k: nat)
    requires i <= |s|
    ensures i <= k <= |s|
    ensures forall j :: i <= j < k ==> !IsLineBreak(s[j])
    ensures k < |s| ==> IsLineBreak(s[k])
    decreases |s| - i
  {
    if i == |s| || IsLineBreak(s[i]) then i else LineEnd(s, i + 1)
  }

  lemma LineBreakIsSpace(c: char)
    ensures IsLineBreak(c) ==> IsSpace(c)
  {
  }

  lemma BlankConcat(a: string, b: string)
    ensures Blank(a + b) <==> Blank(a) && Blank(b)
  {
    if Blank(a) && Blank(b) {
      forall i | 0 <= i < |a + b| ensures IsSpace((a + b)[i]) {
        if i >= |a| { assert (a + b)[i] == b[i - |a|]; }
      }
    }
    if Blank(a + b) {
      forall i | 0 <= i < |a| ensures IsSpace(a[i]) { assert a[i] == (a + b)[i]; }
      forall i | 0 <= i < |b| ensures IsSpace(b[i]) { assert b[i] == (a + b)[|a| + i]; }
    }
  }

  /** Every one of `lines` is blank. */
  predicate AllBlank(lines: seq<string>) {
    forall j :: 0 <= j < |lines| ==> Blank(lines[j])
  }

  lemma AllBlankCons(line: string, rest: seq<string>)
    ensures AllBlank([line] + rest) <==> Blank(line) && AllBlank(rest)
  {
    var all := [line] + rest;
    assert forall j :: 0 <= j < |rest| ==> rest[j] == all[j + 1];
    assert all[0] == line;
  }

  lemma AllBlankHead(lines: seq<string>)
    requires lines != []
    ensures AllBlank(lines) <==> Blank(lines[0]) && AllBlank(lines[1..])
  {
    assert forall j :: 0 <= j < |lines| - 1 ==> lines[1..][j] == lines[j + 1];
  }

  lemma BreakIsBlank(s: string, k: nat, next: nat)
    requires k < next <= |s| && next <= k + 2
    requires IsLineBreak(s[k]) && (next == k + 2 ==> s[k + 1] == '\n')
    ensures Blank(s[k..next])
  {
    LineBreakIsSpace(s[k]);
  }

  lemma BlankSplit3(s: string, k: nat, next: nat)
    requires k <= next <= |s|
    ensures Blank(s) <==> Blank(s[..k]) && Blank(s[k..next]) && Blank(s[next..])
  {
    assert s == (s[..k] + s[k..next]) + s[next..];
    BlankConcat(s[..k] + s[k..next], s[next..]);
    BlankConcat(s[..k], s[k..next]);
  }

  /** The first line of a non-empty text and where the rest begins. */
  lemma SplitLinesFirst(s: string) returns (k: nat, next: nat)
    requires s != []
    ensures k == LineEnd(s, 0)
    ensures k == |s| ==> SplitLines(s) == [s]
    ensures k < |s| ==> && k < next <= |s| && next <= k + 2
                        && IsLineBreak(s[k]) && (next == k + 2 ==> s[k + 1] == '\n')
                        && SplitLines(s) == [s[..k]] + SplitLines(s[next..])
  {
    k := LineEnd(s, 0);
    next := if k < |s| && s[k] == '\r' && k + 1 < |s| && s[k + 1] == '\n' then k + 2 else k + 1;
  }

  /** A text is blank exactly when each of its lines is, because every line
      break is itself white space. */
  lemma {:induction false} BlankIffLinesBlank(s: string)
    ensures Blank(s) <==> AllBlank(SplitLines(s))
    decreases |s|
  {
    if s != [] {
      var k, next := SplitLinesFirst(s);
      if k < |s| {
        BlankIffLinesBlank(s[next..]);
        AllBlankCons(s[..k], SplitLines(s[next..]));
        BreakIsBlank(s, k, next);
        BlankSplit3(s, k, next);
      } else {
        AllBlankCons(s, []);
        assert [s] + [] == [s];
      }
    }
  }

  /** Python's ASCII-only view of `c.upper()` and `c.lower()`. */
  function UpperChar(c: char): char {
    if 'a' <= c <= 'z' then (c as int - 32) as char else c
  }

  function LowerChar(c: char): char {
    if 'A' <= c <= 'Z' then (c as int + 32) as char else c
  }

  function Upper(s: string): (r: string)
    ensures |r| == |s| && forall i :: 0 <= i < |s| ==> r[i] == UpperChar(s[i])
  {
    if s == [] then [] else [UpperChar(s[0])] + Upper(s[1..])
  }

  function Lower(s: string): (r: string)
    ensures |r| == |s| && forall i :: 0 <= i < |s| ==> r[i] == LowerChar(s[i])
  {
    if s == [] then [] else [LowerChar(s[0])] + Lower(s[1..])
  }

  /** Python's slice `s[:n]` for `n >= 0`. */
  function Take<T>(s: seq<T>, n: nat): (r: seq<T>)
    ensures |r| == if n < |s| then n else |s|
    ensures r <= s
  {
    if n < |s| then s[..n] else s
  }

  /** Python's `t in s` for strings: `t` occurs in `s` at some index. */
  predicate Contains(s: string, t: string)
    decreases |s|
  {
    t <= s || (s != [] && Contains(s[1..], t))
  }

  /** `t` occurs in `s` right after `prefix`. */
  lemma {:induction false} ContainsAt(s: string, prefix: string, t: string)
    requires prefix + t <= s
    ensures Contains(s, t)
    decreases |prefix|
  {
    if prefix != [] {
      assert prefix[1..] + t <= s[1..] by {
        assert (prefix + t)[1..] == prefix[1..] + t;
      }
      ContainsAt(s[1..], prefix[1..], t);
    }
  }

  /** An occurrence in a suffix is an occurrence in the whole string. */
  lemma {:induction false} ContainsInSuffix(x: string, y: string, t: string)
    requires Contains(y, t)
    ensures Contains(x + y, t)
    decreases |x|
  {
    if x == [] {
      assert x + y == y;
    } else {
      assert (x + y)[1..] == x[1..] + y;
      ContainsInSuffix(x[1..], y, t);
    }
  }

  function DigitChar(d: nat): char
    requires d < 10
  {
    "0123456789"[d]
  }

  function NatToString(n: nat): (r: string)
    ensures r != [] && forall c :: c in r ==> '0' <= c <= '9'
  {
    if n < 10 then [DigitChar(n)] else NatToString(n / 10) + [DigitChar(n % 10)]
  }

  /** Python's `str(n)` for an integer. */
  function IntToString(n: int): string {
    if n < 0 then "-" + NatToString(-n) else NatToString(n)
  }

  /** Python's `sep.join(parts)`. */
  function Join(parts: seq<string>, sep: string): (r: string)
    ensures parts == [] ==> r == []
    ensures |parts| == 1 ==> r == parts[0]
  {
    if parts == [] then []
    else if |parts| == 1 then parts[0]
    else parts[0] + sep + Join(parts[1..], sep)
  }

  /** Every part occurs in the joined text. */
  lemma {:induction false} JoinContainsParts(parts: seq<string>, sep: string, j: nat)
    requires j < |parts|
    ensures Contains(Join(parts, sep), parts[j])
  {
    if j == 0 {
      ContainsAt(Join(parts, sep), [], parts[0]);
    } else {
      JoinContainsParts(parts[1..], sep, j - 1);
      ContainsInSuffix(parts[0] + sep, Join(parts[1..], sep), parts[j]);
    }
  }
}
