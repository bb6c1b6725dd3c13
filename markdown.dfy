/**
  `to_markdown` in app.py: every bullet `•` becomes `"  *"`, then `textwrap.indent`
  puts `"> "` in front of every line (its predicate accepts every line, blank or not).

  `textwrap.indent` splits with `str.splitlines(keepends=True)`: a line ends after
  `"\r\n"` or after any one of Python's line-boundary characters, keeps its ending,
  and an empty text has no lines at all.
 */
module Markdown {
  import opened Str

  const Bullet: char := '\U{2022}'
  const BulletReplacement: string := "  *"
  const QuotePrefix: string := "> "

  /** The line boundaries of `str.splitlines`. */
  predicate IsLineBreak(c: char)
  {
    c == '\n' || c == '\r' || c == '\U{000B}' || c == '\U{000C}'
    || c == '\U{001C}' || c == '\U{001D}' || c == '\U{001E}'
    || c == '\U{0085}' || c == '\U{2028}' || c == '\U{2029}'
  }

  predicate NoLineBreak(s: string)
  {
    forall x :: 0 <= x < |s| ==> !IsLineBreak(s[x])
  }

  /** The number of occurrences of `c` in `s`. */
  function Count(s: string, c: char): nat
  {
    if s == [] then 0 else (if s[0] == c then 1 else 0) + Count(s[1..], c)
  }

  /** `text.replace('•', '  *')`: each bullet gives way to three characters, nothing else changes. */
  function ReplaceBullets(s: string): (r: string)
    ensures Bullet !in r
    ensures Bullet !in s ==> r == s
    ensures |r| == |s| + 2 * Count(s, Bullet)
  {
    if s == [] then []
    else
      var rest := ReplaceBullets(s[1..]);
      assert Bullet !in s ==> Bullet !in s[1..] && s == [s[0]] + s[1..];
      if s[0] == Bullet then BulletReplacement + rest else [s[0]] + rest
  }

  /**
    The length of the first line of `s`, its ending included: the line runs to the first
    line boundary, or to the end of `s` when there is none, and a `'\r'` takes a `'\n'`
    right after it along.
   */
  function LineLen(s: string): (n: nat)
    ensures s == [] ==> n == 0
    ensures s != [] ==> 0 < n <= |s|
    ensures s != [] ==> n == |s| || IsLineBreak(s[n - 1])
    ensures forall x :: 0 <= x < n - 1 && IsLineBreak(s[x]) ==> x == n - 2 && s[x] == '\r' && s[n - 1] == '\n'
    ensures s != [] && s[n - 1] == '\r' ==> n == |s| || s[n] != '\n'
  {
    if s == [] then 0
    else if |s| >= 2 && s[0] == '\r' && s[1] == '\n' then 2
    else if IsLineBreak(s[0]) then 1
    else
      var m := LineLen(s[1..]);
      assert forall x :: 1 <= x < m + 1 ==> s[x] == s[1..][x - 1];
      1 + m
  }

  /** `s.splitlines(keepends=True)`: non-empty lines that put back together give `s`. */
  function Lines(s: string): (lines: seq<string>)
    ensures forall k :: 0 <= k < |lines| ==> lines[k] != ""
    ensures Concat(lines) == s
    decreases |s|
  {
    if s == [] then []
    else
      var n := LineLen(s);
      assert s[..n] + s[n..] == s;
      [s[..n]] + Lines(s[n..])
  }

  /** `textwrap.indent(text, prefix, predicate=lambda _: True)`. */
  function Indent(text: string, prefix: string): string
  {
    IndentLines(Lines(text), prefix)
  }

  function IndentLines(lines: seq<string>, prefix: string): string
  {
    if lines == [] then "" else prefix + lines[0] + IndentLines(lines[1..], prefix)
  }

  /**
    `to_markdown(text)`: no bullet is left, the lines are those of the bullet-replaced
    input each behind `"> "`, and taking `"> "` off every line gives that input back.
   */
  function ToMarkdown(text: string): (r: string)
    ensures Bullet !in r
    ensures Lines(r) == PrefixEach(Lines(ReplaceBullets(text)), QuotePrefix)
    ensures Dedent(r, QuotePrefix) == ReplaceBullets(text)
  {
    var s := ReplaceBullets(text);
    IndentKeepsOut(s, QuotePrefix, Bullet);
    LinesOfIndent(s, QuotePrefix);
    DropPrefixEachInverse(Lines(s), QuotePrefix);
    Indent(s, QuotePrefix)
  }

  /** Every line with the prefix in front. */
  function PrefixEach(lines: seq<string>, prefix: string): (r: seq<string>)
    ensures |r| == |lines|
    ensures forall k :: 0 <= k < |lines| ==> r[k] == prefix + lines[k]
  {
    if lines == [] then [] else [prefix + lines[0]] + PrefixEach(lines[1..], prefix)
  }

  /** Every line with the prefix taken off its front, where it has it: undoes `PrefixEach` line by line. */
  function DropPrefixEach(lines: seq<string>, prefix: string): (r: seq<string>)
    ensures |r| == |lines|
    ensures forall k :: 0 <= k < |lines| ==>
      r[k] == if StartsWith(lines[k], prefix) then lines[k][|prefix|..] else lines[k]
  {
    if lines == [] then []
    else
      var line := lines[0];
      [if StartsWith(line, prefix) then line[|prefix|..] else line] + DropPrefixEach(lines[1..], prefix)
  }

  function Dedent(text: string, prefix: string): string
  {
    Concat(DropPrefixEach(Lines(text), prefix))
  }

  /** A prefix without line boundaries lengthens the first line by its own length. */
  lemma {:induction false} LineLenAfterPrefix(p: string, x: string)
    requires NoLineBreak(p)
    ensures LineLen(p + x) == |p| + LineLen(x)
  {
    if p != [] {
      assert (p + x)[1..] == p[1..] + x;
      LineLenAfterPrefix(p[1..], x);
    } else {
      assert p + x == x;
    }
  }

  /**
    The first line of `s`, when it ends before `s` does, keeps its extent whatever follows
    it provided that does not start with `'\n'`; with nothing after it, any first line
    keeps its extent.
   */
  lemma {:induction false} LineLenStable(s: string, r: string)
    requires s != []
    requires r == [] || (LineLen(s) < |s| && r[0] != '\n')
    ensures LineLen(s[..LineLen(s)] + r) == LineLen(s)
  {
    var n := LineLen(s);
    var t := s[..n] + r;
    if |s| >= 2 && s[0] == '\r' && s[1] == '\n' {
      assert t[0] == '\r' && t[1] == '\n';
    } else if IsLineBreak(s[0]) {
      assert t[0] == s[0];
    } else if s[1..] == [] {
      assert t == s;
    } else {
      LineLenStable(s[1..], r);
      assert n == 1 + LineLen(s[1..]);
      assert s[..n][1..] == s[1..][..n - 1];
      assert t[0] == s[0];
      assert t[1..] == s[..n][1..] + r;
    }
  }

  /** Indenting puts the prefix in front of the first line and indents the rest after it. */
  lemma IndentFirstLine(s: string, p: string)
    requires s != [] && p != [] && NoLineBreak(p)
    ensures var n := LineLen(s); var t := Indent(s, p);
      LineLen(t) == |p| + n && t[..|p| + n] == p + s[..n] && t[|p| + n..] == Indent(s[n..], p)
  {
    var n := LineLen(s);
    var rest := Indent(s[n..], p);
    assert Lines(s) == [s[..n]] + Lines(s[n..]);
    assert Lines(s)[1..] == Lines(s[n..]);
    var t := Indent(s, p);
    assert t == p + (s[..n] + rest);
    assert rest == [] || rest[0] == p[0] by {
      if s[n..] != [] {
        assert rest == p + Lines(s[n..])[0] + IndentLines(Lines(s[n..])[1..], p);
      }
    }
    LineLenAfterPrefix(p, s[..n] + rest);
    LineLenStable(s, rest);
  }

  /**
    Indenting with a non-empty prefix that has no line boundary keeps the lines: the
    lines of the result are exactly the lines of the input, each with the prefix in front.
   */
  lemma {:induction false} LinesOfIndent(s: string, p: string)
    requires p != [] && NoLineBreak(p)
    ensures Lines(Indent(s, p)) == PrefixEach(Lines(s), p)
    decreases |s|
  {
    if s != [] {
      var n := LineLen(s);
      var t := Indent(s, p);
      IndentFirstLine(s, p);
      var m := LineLen(t);
      assert Lines(t) == [t[..m]] + Lines(t[m..]);
      LinesOfIndent(s[n..], p);
      assert Lines(s) == [s[..n]] + Lines(s[n..]);
    }
  }

  /** Taking the prefix off lines that all carry it gives the lines back. */
  lemma {:induction false} DropPrefixEachInverse(lines: seq<string>, p: string)
    ensures DropPrefixEach(PrefixEach(lines, p), p) == lines
  {
    var r := DropPrefixEach(PrefixEach(lines, p), p);
    forall k | 0 <= k < |lines| ensures r[k] == lines[k] {
      assert (p + lines[k])[..|p|] == p && (p + lines[k])[|p|..] == lines[k];
    }
  }

  /** Characters absent from both the text and the prefix are absent from the indented text. */
  lemma {:induction false} IndentKeepsOut(s: string, p: string, c: char)
    requires c !in s && c !in p
    ensures c !in Indent(s, p)
    decreases |s|
  {
    if s != [] {
      var n := LineLen(s);
      assert s == s[..n] + s[n..];
      IndentKeepsOut(s[n..], p, c);
      assert Indent(s, p) == p + s[..n] + Indent(s[n..], p);
    }
  }

  /**
    Every line of the `to_markdown` output starts with `"> "`, blank and
    whitespace-only lines included, and there are as many lines as in the
    bullet-replaced input.
   */
  lemma QuotesEveryLine(text: string)
    ensures |Lines(ToMarkdown(text))| == |Lines(ReplaceBullets(text))|
    ensures forall k :: 0 <= k < |Lines(ToMarkdown(text))| ==>
      StartsWith(Lines(ToMarkdown(text))[k], QuotePrefix)
  {
  }

  /** `replace` works character by character: the text can be cut anywhere. */
  lemma {:induction false} ReplaceBulletsAppend(a: string, b: string)
    ensures ReplaceBullets(a + b) == ReplaceBullets(a) + ReplaceBullets(b)
  {
    if a != [] {
      assert (a + b)[0] == a[0] && (a + b)[1..] == a[1..] + b;
      ReplaceBulletsAppend(a[1..], b);
    } else {
      assert a + b == b;
    }
  }

  /** A bullet becomes `"  *"` and any other character stays itself. */
  lemma ReplaceBulletsChar(c: char)
    ensures ReplaceBullets([c]) == if c == Bullet then BulletReplacement else [c]
  {
    assert [c][1..] == [];
  }

  /**
    The pieces of `Lines` are the lines of `splitlines`: each is one whole line, each but
    the last ends at a line boundary, and a piece ending in `'\r'` is not followed by one
    starting with `'\n'`, so `"\r\n"` stays together.
   */
  lemma {:induction false} LinesAreWholeLines(s: string)
    ensures forall k :: 0 <= k < |Lines(s)| ==> LineLen(Lines(s)[k]) == |Lines(s)[k]|
    ensures forall k :: 0 <= k < |Lines(s)| - 1 ==> IsLineBreak(Lines(s)[k][|Lines(s)[k]| - 1])
    ensures forall k :: 0 <= k < |Lines(s)| - 1 && Lines(s)[k][|Lines(s)[k]| - 1] == '\r' ==>
      Lines(s)[k + 1][0] != '\n'
    decreases |s|
  {
    if s != [] {
      var n := LineLen(s);
      var rest := s[n..];
      var ls := Lines(s);
      assert ls == [s[..n]] + Lines(rest);
      LineLenStable(s, []);
      assert s[..n] + [] == s[..n];
      LinesAreWholeLines(rest);
      if rest != [] {
        var n2 := LineLen(rest);
        assert Lines(rest)[0] == rest[..n2];
        assert ls[1][0] == s[n];
      }
      forall k | 0 <= k < |ls| ensures LineLen(ls[k]) == |ls[k]| {
        if k > 0 { assert ls[k] == Lines(rest)[k - 1]; }
      }
      forall k | 0 <= k < |ls| - 1 ensures IsLineBreak(ls[k][|ls[k]| - 1]) {
        if k > 0 { assert ls[k] == Lines(rest)[k - 1]; }
      }
      forall k | 0 <= k < |ls| - 1 && ls[k][|ls[k]| - 1] == '\r' ensures ls[k + 1][0] != '\n' {
        if k > 0 { assert ls[k] == Lines(rest)[k - 1] && ls[k + 1] == Lines(rest)[k]; }
      }
    }
  }
}
