/**
  The three regular-expression shapes `extract_case_details` compiles, with the
  semantics of Python's `re.search`:

    Lazy(open, close)  stands for  open(.+?)close
    Date(prefix)       stands for  prefix(\d{2}-\d{2}-\d{4})
    Word(prefix)       stands for  prefix(\w+)

  `MatchesAt` says when the whole pattern CAN match from a position with a group of a
  given length (any backtracking alternative); `IsPythonMatch` says which of those
  `re.search` reports: the leftmost start, and at that start the shortest group for
  the lazy `.+?` and the longest for the greedy `\w+`. `Search` computes it.
 */
module Regex {
  import opened Wrappers
  import opened Str

  datatype Pattern =
    | Lazy(open: string, close: string)
    | Date(prefix: string)
    | Word(prefix: string)

  /** The literal text in front of the group. */
  function Label(p: Pattern): string
  {
    match p
    case Lazy(open, _) => open
    case Date(prefix) => prefix
    case Word(prefix) => prefix
  }

  /** A successful search: where the match starts and what group 1 captured. */
  datatype Match = Match(start: nat, group: string)

  /** `\d{2}-\d{2}-\d{4}`. */
  predicate IsDateShape(d: string)
  {
    |d| == 10 && d[2] == '-' && d[5] == '-'
    && forall x :: 0 <= x < 10 && x != 2 && x != 5 ==> IsDigit(d[x])
  }

  /** No `'\n'` among `s[a..b]`: the characters `.` may consume. */
  predicate NoNewline(s: string, a: nat, b: nat)
    requires b <= |s|
  {
    forall x :: a <= x < b ==> s[x] != '\n'
  }

  /** The pattern matches `s` from position `i`, its group being `s[j..j+k]` with `j == i + |Label(p)|`. */
  predicate MatchesAt(p: Pattern, s: string, i: nat, k: nat)
  {
    var j := i + |Label(p)|;
    j + k <= |s| && s[i..j] == Label(p) &&
    match p
    case Lazy(_, close) =>
      1 <= k && NoNewline(s, j, j + k) && j + k + |close| <= |s| && s[j + k..j + k + |close|] == close
    case Date(_) => k == 10 && IsDateShape(s[j..j + k])
    case Word(_) => 1 <= k && forall x :: j <= x < j + k ==> IsWordChar(s[x])
  }

  ghost predicate HasMatch(p: Pattern, s: string)
  {
    exists i: nat, k: nat :: MatchesAt(p, s, i, k)
  }

  /** Among the group lengths possible at one start, the one the regex engine settles on. */
  predicate Preferred(p: Pattern, k: nat, other: nat)
  {
    match p
    case Lazy(_, _) => k <= other
    case Date(_) => true
    case Word(_) => other <= k
  }

  /** No match starts anywhere in `lo..hi`. */
  ghost predicate NoMatchBetween(p: Pattern, s: string, lo: nat, hi: nat)
  {
    forall i: nat, k: nat :: lo <= i < hi ==> !MatchesAt(p, s, i, k)
  }

  /** `m` is the match the engine settles on at its start position. */
  ghost predicate BestAt(p: Pattern, s: string, m: Match)
  {
    var j := m.start + |Label(p)|;
    MatchesAt(p, s, m.start, |m.group|)
    && m.group == s[j..j + |m.group|]
    && (forall k: nat :: MatchesAt(p, s, m.start, k) ==> Preferred(p, |m.group|, k))
  }

  /** `m` is what `re.search(p, s)` returns: the leftmost start, the preferred group there. */
  ghost predicate IsPythonMatch(p: Pattern, s: string, m: Match)
  {
    BestAt(p, s, m) && NoMatchBetween(p, s, 0, m.start)
  }

  /** `.+?` followed by `close`, tried with group lengths `k`, `k + 1`, ... from `j`. */
  function LazyGroup(s: string, j: nat, k: nat, close: string): (r: Option<nat>)
    requires 1 <= k && j + k - 1 <= |s| && NoNewline(s, j, j + k - 1)
    ensures r.None? ==> forall m: nat :: k <= m ==> !LazyFits(s, j, m, close)
    ensures r.Some? ==> k <= r.value && LazyFits(s, j, r.value, close)
    ensures r.Some? ==> forall m: nat :: k <= m < r.value ==> !LazyFits(s, j, m, close)
    decreases |s| + 1 - j - k
  {
    if j + k > |s| then None
    else if s[j + k - 1] == '\n' then None
    else if j + k + |close| <= |s| && s[j + k..j + k + |close|] == close then Some(k)
    else LazyGroup(s, j, k + 1, close)
  }

  /** A group of length `m` from `j` that `.` can consume and that `close` follows. */
  predicate LazyFits(s: string, j: nat, m: nat, close: string)
  {
    j + m <= |s| && NoNewline(s, j, j + m) && j + m + |close| <= |s| && s[j + m..j + m + |close|] == close
  }

  /** The maximal run of `\w` characters from `j`. */
  function WordRun(s: string, j: nat): (n: nat)
    requires j <= |s|
    ensures j + n <= |s|
    ensures forall x :: j <= x < j + n ==> IsWordChar(s[x])
    ensures j + n == |s| || !IsWordChar(s[j + n])
    decreases |s| - j
  {
    if j < |s| && IsWordChar(s[j]) then 1 + WordRun(s, j + 1) else 0
  }

  /** `open(.+?)close` tried at position `i`: the shortest group that `close` follows. */
  function LazyAt(open: string, close: string, s: string, i: nat): (r: Option<nat>)
    ensures r.None? ==> forall k: nat :: !MatchesAt(Lazy(open, close), s, i, k)
    ensures r.Some? ==> MatchesAt(Lazy(open, close), s, i, r.value)
    ensures r.Some? ==> forall k: nat :: MatchesAt(Lazy(open, close), s, i, k) ==> r.value <= k
  {
    var j := i + |open|;
    if !(j <= |s| && s[i..j] == open) then None
    else
      assert forall k: nat :: MatchesAt(Lazy(open, close), s, i, k) ==> 1 <= k && LazyFits(s, j, k, close);
      LazyGroup(s, j, 1, close)
  }

  /** `prefix(\d{2}-\d{2}-\d{4})` tried at position `i`. */
  function DateAt(prefix: string, s: string, i: nat): (r: Option<nat>)
    ensures r.None? ==> forall k: nat :: !MatchesAt(Date(prefix), s, i, k)
    ensures r.Some? ==> r.value == 10 && MatchesAt(Date(prefix), s, i, r.value)
  {
    var j := i + |prefix|;
    if j + 10 <= |s| && s[i..j] == prefix && IsDateShape(s[j..j + 10]) then Some(10) else None
  }

  /** `prefix(\w+)` tried at position `i`: the longest run of word characters. */
  function WordAt(prefix: string, s: string, i: nat): (r: Option<nat>)
    ensures r.None? ==> forall k: nat :: !MatchesAt(Word(prefix), s, i, k)
    ensures r.Some? ==> MatchesAt(Word(prefix), s, i, r.value)
    ensures r.Some? ==> forall k: nat :: MatchesAt(Word(prefix), s, i, k) ==> k <= r.value
  {
    var j := i + |prefix|;
    if j < |s| && s[i..j] == prefix && IsWordChar(s[j]) then Some(WordRun(s, j)) else None
  }

  /** The group length the engine settles on when it tries the pattern at position `i`. */
  function MatchAt(p: Pattern, s: string, i: nat): (r: Option<nat>)
    ensures r.None? ==> forall k: nat :: !MatchesAt(p, s, i, k)
    ensures r.Some? ==> MatchesAt(p, s, i, r.value)
    ensures r.Some? ==> forall k: nat :: MatchesAt(p, s, i, k) ==> Preferred(p, r.value, k)
  {
    match p
    case Lazy(open, close) => LazyAt(open, close, s, i)
    case Date(prefix) => DateAt(prefix, s, i)
    case Word(prefix) => WordAt(prefix, s, i)
  }

  /** The scan of `re.search` from start position `i` onwards. */
  function SearchFrom(p: Pattern, s: string, i: nat): (r: Option<Match>)
    ensures r.None? ==> NoMatchBetween(p, s, i, |s| + 1)
    ensures r.Some? ==> i <= r.value.start && NoMatchBetween(p, s, i, r.value.start) && BestAt(p, s, r.value)
    decreases |s| + 1 - i
  {
    if i > |s| then None
    else
      match MatchAt(p, s, i)
      case Some(k) =>
        var m := Match(i, s[i + |Label(p)|..i + |Label(p)| + k]);
        assert BestAt(p, s, m);
        Some(m)
      case None =>
        var r := SearchFrom(p, s, i + 1);
        NoMatchExtends(p, s, i, if r.Some? then r.value.start else |s| + 1);
        r
  }

  /** No match at `i` and none in `i+1..hi`: none in `i..hi`. */
  lemma NoMatchExtends(p: Pattern, s: string, i: nat, hi: nat)
    requires forall k: nat :: !MatchesAt(p, s, i, k)
    requires NoMatchBetween(p, s, i + 1, hi)
    ensures NoMatchBetween(p, s, i, hi)
  {
  }

  /** Past the end of `s` nothing matches: a match needs its start inside `s`, or at its end. */
  lemma NoMatchPastEnd(p: Pattern, s: string, i: nat, k: nat)
    requires |s| < i
    ensures !MatchesAt(p, s, i, k)
  {
  }

  /** `re.search(p, s)`: the match Python reports, or `None` exactly when the pattern matches nowhere. */
  function Search(p: Pattern, s: string): (r: Option<Match>)
    ensures r.None? <==> !HasMatch(p, s)
    ensures r.Some? ==> IsPythonMatch(p, s, r.value)
  {
    var r := SearchFrom(p, s, 0);
    assert r.None? ==> !HasMatch(p, s) by {
      if r.None? {
        forall i: nat, k: nat ensures !MatchesAt(p, s, i, k) {
          if i > |s| { NoMatchPastEnd(p, s, i, k); }
        }
      }
    }
    r
  }

  /** What the group of a match is made of: a date, a run of `\w`, or a line fragment. */
  lemma GroupShape(p: Pattern, s: string, m: Match)
    requires BestAt(p, s, m)
    ensures p.Date? ==> IsDateShape(m.group)
    ensures p.Word? ==> |m.group| >= 1 && forall x :: 0 <= x < |m.group| ==> IsWordChar(m.group[x])
    ensures p.Lazy? ==> |m.group| >= 1 && '\n' !in m.group
  {
    var j := m.start + |Label(p)|;
    var k := |m.group|;
    assert MatchesAt(p, s, m.start, k);
    match p
    case Date(_) =>
    case Word(_) =>
      forall x | 0 <= x < k ensures IsWordChar(m.group[x]) {
        assert m.group[x] == s[j + x];
      }
    case Lazy(_, _) =>
      forall x | 0 <= x < k ensures m.group[x] != '\n' {
        assert m.group[x] == s[j + x];
      }
  }

  /** There is only one match `re.search` can report, so `Search` is determined by its contract. */
  lemma PythonMatchUnique(p: Pattern, s: string, m1: Match, m2: Match)
    requires IsPythonMatch(p, s, m1) && IsPythonMatch(p, s, m2)
    ensures m1 == m2
  {
  }
}
