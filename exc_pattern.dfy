/**
 * The exception-token regular expression that both scripts search with,
 * under Python's `re.search` and the IGNORECASE flag. Its first group is a
 * run of one or more characters from `[A-Za-z0-9_.]` followed by one of a
 * list of suffixes ("Exception", "Error", "Failure", ...). In the report
 * parser the group is followed by an optional run of ':', '-' and white
 * space and then by an optional second group, the rest of that line.
 *
 * The search follows Python's backtracking matcher: the leftmost start
 * position wins; from that start the greedy `+` is tried from the longest
 * run of token characters down to a single one, and at each length the
 * suffixes are tried in their listed order.
 */
module ExcPattern {
  import opened Wrappers
  import opened PyText

  /** The suffixes of the parser's pattern (parse_cucumber_reports.py). */
  const ParserSuffixes: seq<string> := ["Exception", "Error", "Failure"]

  /** The suffixes of the dashboard's pattern (dashboard_generator.py). */
  const DashboardSuffixes: seq<string> := ["Exception", "Error", "Failure", "Timeout", "AssertionError"]

  /** The character class `[A-Za-z0-9_.]`. */
  predicate IsTokenChar(c: char) {
    ('A' <= c <= 'Z') || ('a' <= c <= 'z') || ('0' <= c <= '9') || c == '_' || c == '.'
  }

  /** The class `[:\s-]` of the separator after the token. */
  predicate IsSeparator(c: char) {
    c == ':' || c == '-' || IsSpace(c)
  }

  /** `t` occurs in `s` at index `p`, ignoring ASCII case. */
  predicate MatchesAt(s: string, p: nat, t: string) {
    p + |t| <= |s| && Lower(s[p..p + |t|]) == Lower(t)
  }

  /** Every character of `s[i..p]` is a token character. */
  predicate AllTokenChars(s: string, i: nat, p: nat) {
    i <= p <= |s| && forall j :: i <= j < p ==> IsTokenChar(s[j])
  }

  /** The declarative reading of the first group: it may start at `i`, end
      its `+` part at `p` and continue with suffix number `k`. */
  ghost predicate TokenAt(s: string, i: nat, p: nat, k: nat, suffixes: seq<string>) {
    i < p && k < |suffixes| && AllTokenChars(s, i, p) && MatchesAt(s, p, suffixes[k])
  }

  /** The first suffix, in listed order, that occurs at `p`. */
  function FirstSuffixAt(s: string, p: nat, suffixes: seq<string>): Option<nat> {
    if suffixes == [] then None
    else if MatchesAt(s, p, suffixes[0]) then Some(0)
    else match FirstSuffixAt(s, p, suffixes[1..])
      case Some(k) => Some(k + 1)
      case None => None
  }

  /** The suffix found at `p` is the first one in listed order that
      occurs there; none is found when none occurs. */
  lemma {:induction false} FirstSuffixAtSpec(s: string, p: nat, suffixes: seq<string>)
    ensures FirstSuffixAt(s, p, suffixes).Some? ==>
              && FirstSuffixAt(s, p, suffixes).value < |suffixes|
              && MatchesAt(s, p, suffixes[FirstSuffixAt(s, p, suffixes).value])
              && forall k' :: 0 <= k' < FirstSuffixAt(s, p, suffixes).value ==> !MatchesAt(s, p, suffixes[k'])
    ensures FirstSuffixAt(s, p, suffixes).None? ==> forall k' :: 0 <= k' < |suffixes| ==> !MatchesAt(s, p, suffixes[k'])
    decreases |suffixes|
  {
    if suffixes != [] && !MatchesAt(s, p, suffixes[0]) {
      var rest := suffixes[1..];
      FirstSuffixAtSpec(s, p, rest);
      forall k' | 1 <= k' < |suffixes| ensures suffixes[k'] == rest[k' - 1] {
      }
    }
  }

  /** The end of the run of token characters that starts at `i`. */
  function RunEnd(s: string, i: nat): (r: nat)
    requires i <= |s|
    ensures AllTokenChars(s, i, r)
    ensures r == |s| || !IsTokenChar(s[r])
    decreases |s| - i
  {
    if i < |s| && IsTokenChar(s[i]) then RunEnd(s, i + 1) else i
  }

  /** Backtracking the greedy `+` that started at `i`: the end positions `p`,
      `p - 1`, ..., `i + 1` are tried in turn for a suffix. */
  function Backtrack(s: string, i: nat, p: nat, suffixes: seq<string>): (r: Option<(nat, nat)>)
    requires i < p
    ensures r.Some? ==> i < r.value.0 <= p && FirstSuffixAt(s, r.value.0, suffixes) == Some(r.value.1)
    decreases p
  {
    match FirstSuffixAt(s, p, suffixes)
    case Some(k) => Some((p, k))
    case None => if p == i + 1 then None else Backtrack(s, i, p - 1, suffixes)
  }

  /** The end positions that backtracking passed over have no suffix: the
      match ends at the longest possible `+` part. */
  lemma {:induction false} BacktrackSkips(s: string, i: nat, p: nat, suffixes: seq<string>)
    requires i < p
    ensures Backtrack(s, i, p, suffixes).Some? ==>
              forall q :: Backtrack(s, i, p, suffixes).value.0 < q <= p ==> FirstSuffixAt(s, q, suffixes).None?
    ensures Backtrack(s, i, p, suffixes).None? ==> forall q :: i < q <= p ==> FirstSuffixAt(s, q, suffixes).None?
    decreases p
  {
    var here := FirstSuffixAt(s, p, suffixes);
    if here.None? {
      if p == i + 1 {
        assert Backtrack(s, i, p, suffixes).None?;
        forall q | i < q <= p ensures FirstSuffixAt(s, q, suffixes).None? {
          assert q == p;
        }
      } else {
        BacktrackSkips(s, i, p - 1, suffixes);
        var b := Backtrack(s, i, p - 1, suffixes);
        assert Backtrack(s, i, p, suffixes) == b;
        if b.Some? {
          forall q | b.value.0 < q <= p ensures FirstSuffixAt(s, q, suffixes).None? {
            if q == p {
            }
          }
        } else {
          forall q | i < q <= p ensures FirstSuffixAt(s, q, suffixes).None? {
            if q == p {
            }
          }
        }
      }
    }
  }

  /** The pattern tried at start position `i`: the end `p` of the `+` part and
      the index `k` of the suffix that follows it. */
  function MatchAt(s: string, i: nat, suffixes: seq<string>): Option<(nat, nat)>
    requires i <= |s|
  {
    var r := RunEnd(s, i);
    if r == i then None else Backtrack(s, i, r, suffixes)
  }

  /** A successful match of the first group: `s[start..end]`. */
  datatype Match = Match(start: nat, end: nat)

  function SearchFrom(s: string, i: nat, suffixes: seq<string>): (m: Option<Match>)
    requires i <= |s|
    ensures m.Some? ==> i <= m.value.start < m.value.end <= |s|
    decreases |s| - i
  {
    if i == |s| then None
    else match MatchAt(s, i, suffixes)
      case Some((p, k)) =>
        FirstSuffixAtSpec(s, p, suffixes);
        Some(Match(i, p + |suffixes[k]|))
      case None => SearchFrom(s, i + 1, suffixes)
  }

  /** `re.search(pattern, s)`, reporting the span of the first group. */
  function Search(s: string, suffixes: seq<string>): (m: Option<Match>)
    ensures m.Some? ==> m.value.start < m.value.end <= |s|
  {
    SearchFrom(s, 0, suffixes)
  }

  /** At one start position the matcher finds exactly the declarative token
      with the longest `+` part and, at that length, the first suffix. */
  lemma MatchAtSpec(s: string, i: nat, suffixes: seq<string>)
    requires i <= |s|
    ensures MatchAt(s, i, suffixes).Some? ==>
              var (p, k) := MatchAt(s, i, suffixes).value;
              && TokenAt(s, i, p, k, suffixes)
              && forall p': nat, k': nat :: TokenAt(s, i, p', k', suffixes) ==> p' < p || (p' == p && k <= k')
    ensures MatchAt(s, i, suffixes).None? ==> forall p: nat, k: nat :: !TokenAt(s, i, p, k, suffixes)
  {
    var r := RunEnd(s, i);
    forall p: nat, k: nat | TokenAt(s, i, p, k, suffixes) ensures i < p <= r {
    }
    if r > i {
      BacktrackSkips(s, i, r, suffixes);
      match Backtrack(s, i, r, suffixes)
      case Some((p, k)) =>
        FirstSuffixAtSpec(s, p, suffixes);
        forall q: nat, k': nat | p < q <= r && k' < |suffixes| ensures !MatchesAt(s, q, suffixes[k']) {
          assert FirstSuffixAt(s, q, suffixes).None?;
          FirstSuffixAtSpec(s, q, suffixes);
        }
        assert AllTokenChars(s, i, p);
      case None =>
        forall q: nat, k': nat | i < q <= r && k' < |suffixes| ensures !MatchesAt(s, q, suffixes[k']) {
          assert FirstSuffixAt(s, q, suffixes).None?;
          FirstSuffixAtSpec(s, q, suffixes);
        }
    }
  }

  /** The search finds a token exactly when one exists; what it finds starts
      at the leftmost position where any token starts, takes the longest
      `+` part from there and, at that length, the first listed suffix. */
  lemma {:induction false} SearchSpec(s: string, suffixes: seq<string>)
    ensures Search(s, suffixes).None? <==> forall i: nat, p: nat, k: nat :: !TokenAt(s, i, p, k, suffixes)
    ensures Search(s, suffixes).Some? ==>
              var m := Search(s, suffixes).value;
              && (forall j: nat, p: nat, k: nat :: j < m.start ==> !TokenAt(s, j, p, k, suffixes))
              && exists p: nat, k: nat :: && TokenAt(s, m.start, p, k, suffixes)
                                && m.end == p + |suffixes[k]|
                                && forall p': nat, k': nat :: TokenAt(s, m.start, p', k', suffixes) ==>
                                                      p' < p || (p' == p && k <= k')
  {
    SearchFromSpec(s, 0, suffixes);
  }

  lemma {:induction false} SearchFromSpec(s: string, i: nat, suffixes: seq<string>)
    requires i <= |s|
    ensures SearchFrom(s, i, suffixes).None? <==> forall j: nat, p: nat, k: nat :: i <= j ==> !TokenAt(s, j, p, k, suffixes)
    ensures SearchFrom(s, i, suffixes).Some? ==>
              var m := SearchFrom(s, i, suffixes).value;
              && (forall j: nat, p: nat, k: nat :: i <= j < m.start ==> !TokenAt(s, j, p, k, suffixes))
              && exists p: nat, k: nat :: && TokenAt(s, m.start, p, k, suffixes)
                                && m.end == p + |suffixes[k]|
                                && forall p': nat, k': nat :: TokenAt(s, m.start, p', k', suffixes) ==>
                                                      p' < p || (p' == p && k <= k')
    decreases |s| - i
  {
    if i == |s| {
      forall j: nat, p: nat, k: nat | i <= j ensures !TokenAt(s, j, p, k, suffixes) {
      }
    } else {
      MatchAtSpec(s, i, suffixes);
      if MatchAt(s, i, suffixes).None? {
        SearchFromSpec(s, i + 1, suffixes);
      }
    }
  }

  /** The first group of a match: the token text. */
  function Token(s: string, m: Match): string
    requires m.start <= m.end <= |s|
  {
    s[m.start..m.end]
  }

  /** `t` is a non-empty run of token characters followed by `suffix`,
      compared without regard to ASCII case. */
  predicate TokenShaped(t: string, suffix: string) {
    && |suffix| < |t|
    && AllTokenChars(t, 0, |t| - |suffix|)
    && Lower(t[|t| - |suffix|..]) == Lower(suffix)
  }

  /** The found token is a run of token characters followed by one of the
      suffixes, compared without regard to ASCII case, with at least one
      character before that suffix. */
  lemma TokenShape(s: string, suffixes: seq<string>)
    requires Search(s, suffixes).Some?
    ensures exists k: nat :: k < |suffixes| && TokenShaped(Token(s, Search(s, suffixes).value), suffixes[k])
  {
    var m := Search(s, suffixes).value;
    var p, k := FoundToken(s, 0, suffixes);
    var t := Token(s, m);
    assert t == s[m.start..p + |suffixes[k]|];
    TokenAtShape(s, m.start, p, k, suffixes, t);
  }

  /** The span a search reports is a token occurrence. */
  lemma {:induction false} FoundToken(s: string, i: nat, suffixes: seq<string>) returns (p: nat, k: nat)
    requires i <= |s| && SearchFrom(s, i, suffixes).Some?
    ensures TokenAt(s, SearchFrom(s, i, suffixes).value.start, p, k, suffixes)
    ensures SearchFrom(s, i, suffixes).value.end == p + |suffixes[k]|
    decreases |s| - i
  {
    MatchAtSpec(s, i, suffixes);
    match MatchAt(s, i, suffixes)
    case Some((p', k')) =>
      p, k := p', k';
    case None =>
      p, k := FoundToken(s, i + 1, suffixes);
  }

  /** The text of a token occurrence has the token's shape. */
  lemma TokenAtShape(s: string, i: nat, p: nat, k: nat, suffixes: seq<string>, t: string)
    requires TokenAt(s, i, p, k, suffixes)
    requires t == s[i..p + |suffixes[k]|]
    ensures TokenShaped(t, suffixes[k])
  {
    assert t[|t| - |suffixes[k]|..] == s[p..p + |suffixes[k]|];
    assert forall j :: 0 <= j < |t| - |suffixes[k]| ==> t[j] == s[i + j];
  }

  /** The optional second group of the parser's pattern: after the token, a
      greedy run of separators, then the rest of that line; absent when that
      rest is empty. */
  function RestOfLine(s: string, e: nat): (g: Option<string>)
    requires e <= |s|
    ensures g.Some? ==> g.value != [] && '\n' !in g.value
  {
    var p := SeparatorEnd(s, e);
    var q := NewlineAt(s, p);
    if p < q then Some(s[p..q]) else None
  }

  function SeparatorEnd(s: string, i: nat): (p: nat)
    requires i <= |s|
    ensures i <= p <= |s|
    decreases |s| - i
  {
    if i < |s| && IsSeparator(s[i]) then SeparatorEnd(s, i + 1) else i
  }

  /** The first '\n' at or after `i` (the character `.` does not match). */
  function NewlineAt(s: string, i: nat): (q: nat)
    requires i <= |s|
    ensures i <= q <= |s| && '\n' !in s[i..q]
    decreases |s| - i
  {
    if i == |s| || s[i] == '\n' then i else NewlineAt(s, i + 1)
  }
}
