/**
 * The two string operations the layout loop relies on: splitting the content
 * on "\n" (strings.Split) and the blank-line test strings.TrimSpace(line) == "".
 */
module Text {

  /** unicode.IsSpace: the Latin-1 spaces and the other Unicode White_Space code points. */
  predicate IsSpace(c: char)
  {
    c == '\t' || c == '\n' || c == '\U{000B}' || c == '\U{000C}' || c == '\r' || c == ' '
    || c == '\U{0085}' || c == '\U{00A0}' || c == '\U{1680}'
    || ('\U{2000}' <= c <= '\U{200A}') || c == '\U{2028}' || c == '\U{2029}'
    || c == '\U{202F}' || c == '\U{205F}' || c == '\U{3000}'
  }

  predicate AllSpace(s: string)
  {
    forall i :: 0 <= i < |s| ==> IsSpace(s[i])
  }

  /** Drops the leading white space. */
  function TrimLeft(s: string): (r: string)
    ensures |r| <= |s| && r == s[|s| - |r|..]
    ensures AllSpace(s[..|s| - |r|])
    ensures r == [] || !IsSpace(r[0])
  {
    if s == [] || !IsSpace(s[0]) then s else TrimLeft(s[1..])
  }

  /** Drops the trailing white space. */
  function TrimRight(s: string): (r: string)
    ensures |r| <= |s| && r == s[..|r|]
    ensures AllSpace(s[|r|..])
    ensures r == [] || !IsSpace(r[|r| - 1])
  {
    if s == [] || !IsSpace(s[|s| - 1]) then s else TrimRight(s[..|s| - 1])
  }

  /** strings.TrimSpace: both ends trimmed, the middle untouched. */
  function TrimSpace(s: string): string
  {
    TrimRight(TrimLeft(s))
  }

  /** A line that only advances the cursor: nothing but white space. */
  predicate IsBlank(line: string)
  {
    AllSpace(line)
  }

  /** strings.TrimSpace(line) == "", the test the layout loop makes, holds exactly for blank lines. */
  lemma TrimSpaceEmptyIffBlank(line: string)
    ensures TrimSpace(line) == [] <==> IsBlank(line)
  {
    var l := TrimLeft(line);
    if TrimSpace(line) == [] {
      assert AllSpace(l[|TrimRight(l)|..]);
      assert l[0..] == l;
    }
  }

  /** The layout loop's test strings.TrimSpace(line) == "", evaluated. */
  method TrimsToEmpty(line: string) returns (empty: bool)
    ensures empty <==> IsBlank(line)
  {
    TrimSpaceEmptyIffBlank(line);
    empty := TrimSpace(line) == [];
  }

  /** The number of line breaks in s. */
  function Newlines(s: string): nat
  {
    if s == [] then 0 else (if s[0] == '\n' then 1 else 0) + Newlines(s[1..])
  }

  /** strings.Split(s, "\n"): the pieces between line breaks, none dropped or merged. */
  function Split(s: string): (lines: seq<string>)
    ensures |lines| >= 1
    ensures forall i :: 0 <= i < |lines| ==> '\n' !in lines[i]
    decreases |s|
  {
    if s == [] then [[]]
    else
      var rest := Split(s[1..]);
      assert s == [s[0]] + s[1..];
      if s[0] == '\n' then [[]] + rest
      else [[s[0]] + rest[0]] + rest[1..]
  }

  /** strings.Join(lines, "\n"), the inverse of Split. */
  function JoinLines(lines: seq<string>): string
    requires |lines| >= 1
  {
    if |lines| == 1 then lines[0] else lines[0] + "\n" + JoinLines(lines[1..])
  }

  /** There is one more piece than there are line breaks. */
  lemma {:induction false} SplitCountsBreaks(s: string)
    ensures |Split(s)| == Newlines(s) + 1
    decreases |s|
  {
    if s != [] {
      SplitCountsBreaks(s[1..]);
    }
  }

  /** Splitting loses nothing: joining the pieces with "\n" gives back the content. */
  lemma {:induction false} JoinSplit(s: string)
    ensures JoinLines(Split(s)) == s
    decreases |s|
  {
    if s != [] {
      JoinSplit(s[1..]);
      JoinSplitStep(s);
    }
  }

  /** One step of JoinSplit: if it holds for the tail, it holds for s. */
  lemma JoinSplitStep(s: string)
    requires s != [] && JoinLines(Split(s[1..])) == s[1..]
    ensures JoinLines(Split(s)) == s
  {
    var rest := Split(s[1..]);
    if s[0] == '\n' {
      assert Split(s) == [[]] + rest;
      JoinAfterBreak(rest, s[1..]);
    } else {
      assert Split(s) == [[s[0]] + rest[0]] + rest[1..];
      JoinGlued(s[0], rest, s[1..]);
    }
    assert [s[0]] + s[1..] == s;
  }

  /** An empty first piece puts a line break in front of the join of the others. */
  lemma JoinAfterBreak(rest: seq<string>, tail: string)
    requires |rest| >= 1 && JoinLines(rest) == tail
    ensures JoinLines([[]] + rest) == "\n" + tail
  {
    assert ([[]] + rest)[1..] == rest;
  }

  /** Gluing a character onto the first piece of a join glues it onto the whole join. */
  lemma JoinGlued(ch: char, rest: seq<string>, tail: string)
    requires |rest| >= 1 && JoinLines(rest) == tail
    ensures JoinLines([[ch] + rest[0]] + rest[1..]) == [ch] + tail
  {
    var pieces := [[ch] + rest[0]] + rest[1..];
    if |rest| > 1 {
      assert pieces[1..] == rest[1..];
      ConcatAssoc([ch], rest[0], "\n" + JoinLines(rest[1..]));
      ConcatAssoc([ch] + rest[0], "\n", JoinLines(rest[1..]));
      ConcatAssoc(rest[0], "\n", JoinLines(rest[1..]));
    }
  }

  lemma ConcatAssoc<T>(a: seq<T>, b: seq<T>, c: seq<T>)
    ensures (a + b) + c == a + (b + c)
  {
  }

  /** A piece without line breaks splits to itself. */
  lemma {:induction false} SplitNoBreak(a: string)
    requires '\n' !in a
    ensures Split(a) == [a]
    decreases |a|
  {
    if a != [] {
      assert '\n' !in a[1..];
      SplitNoBreak(a[1..]);
      assert [a[0]] + a[1..] == a;
    }
  }

  /** Splitting after a piece without line breaks peels that piece off. */
  lemma {:induction false} SplitAfterPiece(a: string, rest: string)
    requires '\n' !in a
    ensures Split(a + "\n" + rest) == [a] + Split(rest)
    decreases |a|
  {
    var s := a + "\n" + rest;
    if a == [] {
      assert s[1..] == rest;
    } else {
      assert s[1..] == a[1..] + "\n" + rest;
      SplitAfterPiece(a[1..], rest);
      assert [a[0]] + a[1..] == a;
    }
  }

  /** Splitting a join of break-free pieces gives back the pieces. */
  lemma {:induction false} SplitJoin(lines: seq<string>)
    requires |lines| >= 1
    requires forall i :: 0 <= i < |lines| ==> '\n' !in lines[i]
    ensures Split(JoinLines(lines)) == lines
  {
    if |lines| == 1 {
      SplitNoBreak(lines[0]);
    } else {
      SplitJoin(lines[1..]);
      SplitAfterPiece(lines[0], JoinLines(lines[1..]));
    }
  }

  /** Empty content splits to a single empty line. */
  lemma SplitEmpty()
    ensures Split("") == [""]
  {
  }
}
