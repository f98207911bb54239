/**
 * The page layout loop of generatePDF as a specification: a cursor (the
 * vertical position y, the page count and the placements made so far) moved
 * line by line. Step is one iteration of the loop body, Run the whole loop.
 */
module Layout {
  import opened Units
  import opened Text
  import opened Backend

  /** Page height and the vertical spacing of the layout, in points. */
  datatype Geometry = Geometry(pageHeight: real, margin: real, bottomMargin: real, lineHeight: real, blankLineGap: real)

  /** The last y at which a line may be drawn without starting a new page. */
  function Threshold(g: Geometry): real
  {
    g.pageHeight - g.bottomMargin - g.lineHeight
  }

  /** Geometry for which the layout is well behaved: a line fits between the margins. */
  predicate Sensible(g: Geometry)
  {
    g.lineHeight > 0.0 && g.blankLineGap >= 0.0 && g.margin <= Threshold(g)
  }

  const PageWidth: real := MmToPt(210.0)

  /** A4 with a 20 mm margin, 6 mm lines and a 5 mm gap for a blank line. */
  const A4: Geometry := Geometry(MmToPt(297.0), MmToPt(20.0), MmToPt(20.0), MmToPt(6.0), MmToPt(5.0))

  /** The A4 layout is sensible; lines may start up to 271 mm from the top. */
  lemma A4IsSensible()
    ensures Sensible(A4) && Threshold(A4) == MmToPt(271.0)
  {
  }

  datatype Cursor = Cursor(y: real, pages: nat, placements: seq<Placement>)

  /** After the first AddPage: one page, nothing drawn, y at the top margin. */
  function Start(g: Geometry): Cursor
  {
    Cursor(g.margin, 1, [])
  }

  /** Next: the loop goes on from this cursor; Stopped: Text failed on line, in this state. */
  datatype Progress = Next(cursor: Cursor) | Stopped(line: string, cursor: Cursor)

  /** One pass of the loop body for one line, drawn in the given font family. */
  function Step(g: Geometry, lib: Library, family: string, c: Cursor, line: string): Progress
  {
    if IsBlank(line) then Next(c.(y := c.y + g.blankLineGap))
    else
      var c' := if c.y > Threshold(g) then Cursor(g.margin, c.pages + 1, c.placements) else c;
      if lib.TextFails(family, line) then Stopped(line, c')
      else Next(Cursor(c'.y + g.lineHeight, c'.pages, c'.placements + [Placement(c'.pages, g.margin, c'.y, line)]))
  }

  /** The loop over all lines, left to right, stopping at the first failed Text. */
  function Run(g: Geometry, lib: Library, family: string, c: Cursor, lines: seq<string>): Progress
    decreases |lines|
  {
    if lines == [] then Next(c)
    else match Step(g, lib, family, c, lines[0])
      case Stopped(line, c') => Stopped(line, c')
      case Next(c') => Run(g, lib, family, c', lines[1..])
  }

  /** The layout of a whole text: split on "\n", then run from the start cursor. */
  function Lay(g: Geometry, lib: Library, family: string, content: string): Progress
  {
    Run(g, lib, family, Start(g), Split(content))
  }

  /** The text of each placement, in order. */
  function Texts(ps: seq<Placement>): seq<string>
  {
    if ps == [] then [] else Texts(ps[..|ps| - 1]) + [ps[|ps| - 1].text]
  }

  /** The lines that are not blank, in order. */
  function NonBlank(lines: seq<string>): seq<string>
  {
    if lines == [] then [] else (if IsBlank(lines[0]) then [] else [lines[0]]) + NonBlank(lines[1..])
  }

  /** The page of the placement before index i; the layout begins on page 1. */
  function PageBefore(ps: seq<Placement>, i: nat): nat
    requires i <= |ps|
  {
    if i == 0 then 1 else ps[i - 1].page
  }

  /** The number of placements that open a new page, that is, of page breaks taken. */
  function Breaks(ps: seq<Placement>): nat
  {
    if ps == [] then 0
    else Breaks(ps[..|ps| - 1]) + (if ps[|ps| - 1].page != PageBefore(ps, |ps| - 1) then 1 else 0)
  }

  /** Placement q can follow p: lower on the same page, or at the top of the next page. */
  predicate Follows(g: Geometry, p: Placement, q: Placement)
  {
    (q.page == p.page && q.y >= p.y + g.lineHeight) || (q.page == p.page + 1 && q.y == g.margin)
  }

  /** Where a line may be drawn: at the left margin, between the top margin and the threshold. */
  predicate InBounds(g: Geometry, p: Placement)
  {
    p.x == g.margin && g.margin <= p.y <= Threshold(g)
  }

  /** What the loop keeps true of the cursor between two lines. */
  ghost predicate Consistent(g: Geometry, c: Cursor)
  {
    var ps := c.placements;
    && c.y >= g.margin
    && c.pages == 1 + Breaks(ps)
    && (forall i :: 0 <= i < |ps| ==> InBounds(g, ps[i]) && 1 <= ps[i].page <= c.pages)
    && (forall i :: 0 < i < |ps| ==> Follows(g, ps[i - 1], ps[i]))
    && (|ps| > 0 ==> ps[0].page == 1 || (ps[0].page == 2 && ps[0].y == g.margin))
    && (|ps| > 0 ==> ps[|ps| - 1].page == c.pages && c.y >= ps[|ps| - 1].y + g.lineHeight)
  }

  /** Appending a placement adds one break exactly when it changes the page. */
  lemma BreaksAppend(ps: seq<Placement>, p: Placement)
    ensures Breaks(ps + [p]) == Breaks(ps) + (if p.page != PageBefore(ps + [p], |ps|) then 1 else 0)
  {
    assert (ps + [p])[..|ps|] == ps;
  }

  /**
   * A blank line only moves y down by the blank-line gap. A content line opens
   * a new page exactly when y is past the threshold, and is then drawn at the
   * top margin; otherwise it is drawn at y. It is drawn untrimmed at the left
   * margin, after which y is one line lower.
   */
  lemma StepEffect(g: Geometry, lib: Library, family: string, c: Cursor, line: string)
    ensures IsBlank(line) ==> Step(g, lib, family, c, line) == Next(Cursor(c.y + g.blankLineGap, c.pages, c.placements))
    ensures !IsBlank(line) ==>
      && Step(g, lib, family, c, line).cursor.pages == (if c.y > Threshold(g) then c.pages + 1 else c.pages)
      && (Step(g, lib, family, c, line).Stopped? <==> lib.TextFails(family, line))
    ensures !IsBlank(line) && Step(g, lib, family, c, line).Next? ==>
      var top := if c.y > Threshold(g) then g.margin else c.y;
      var c' := Step(g, lib, family, c, line).cursor;
      && c'.placements == c.placements + [Placement(c'.pages, g.margin, top, line)]
      && c'.y == top + g.lineHeight
  {
  }

  /** Drawing one more line keeps the invariant, given where it is drawn and where y ends. */
  lemma AppendKeepsConsistent(g: Geometry, c: Cursor, p: Placement, pages: nat)
    requires Sensible(g) && Consistent(g, c)
    requires InBounds(g, p)
    requires (pages == c.pages && p.y == c.y) || (pages == c.pages + 1 && p.y == g.margin)
    requires p.page == pages
    ensures Consistent(g, Cursor(p.y + g.lineHeight, pages, c.placements + [p]))
  {
    var ps := c.placements;
    AppendEnds(g, c, p, pages);
    AppendInBounds(g, ps, p, c.pages, pages);
    if |ps| > 0 {
      assert Follows(g, ps[|ps| - 1], p);
    }
    AppendFollows(g, ps, p);
  }

  /** After one more placement: the page count still counts breaks, and the first and last placements stay in place. */
  lemma AppendEnds(g: Geometry, c: Cursor, p: Placement, pages: nat)
    requires Consistent(g, c)
    requires (pages == c.pages && p.y == c.y) || (pages == c.pages + 1 && p.y == g.margin)
    requires p.page == pages
    ensures pages == 1 + Breaks(c.placements + [p])
    ensures (c.placements + [p])[0].page == 1 || ((c.placements + [p])[0].page == 2 && (c.placements + [p])[0].y == g.margin)
    ensures (c.placements + [p])[|c.placements|] == p
  {
    var ps := c.placements;
    BreaksAppend(ps, p);
    if |ps| > 0 {
      assert (ps + [p])[0] == ps[0];
    }
  }

  /** Every placement stays within bounds and within the page count after one more is appended. */
  lemma AppendInBounds(g: Geometry, ps: seq<Placement>, p: Placement, pages: nat, pages': nat)
    requires forall i :: 0 <= i < |ps| ==> InBounds(g, ps[i]) && 1 <= ps[i].page <= pages
    requires InBounds(g, p) && 1 <= p.page <= pages' && pages <= pages'
    ensures forall i :: 0 <= i < |ps + [p]| ==> InBounds(g, (ps + [p])[i]) && 1 <= (ps + [p])[i].page <= pages'
  {
    forall i | 0 <= i < |ps + [p]| ensures InBounds(g, (ps + [p])[i]) && 1 <= (ps + [p])[i].page <= pages' {
      if i < |ps| {
        assert (ps + [p])[i] == ps[i];
      }
    }
  }

  /** Consecutive placements still follow each other when the new one follows the last. */
  lemma AppendFollows(g: Geometry, ps: seq<Placement>, p: Placement)
    requires forall i :: 0 < i < |ps| ==> Follows(g, ps[i - 1], ps[i])
    requires |ps| > 0 ==> Follows(g, ps[|ps| - 1], p)
    ensures forall i :: 0 < i < |ps + [p]| ==> Follows(g, (ps + [p])[i - 1], (ps + [p])[i])
  {
    forall i | 0 < i < |ps + [p]| ensures Follows(g, (ps + [p])[i - 1], (ps + [p])[i]) {
      assert (ps + [p])[i - 1] == ps[i - 1];
      if i < |ps| {
        assert (ps + [p])[i] == ps[i];
      }
    }
  }

  /** One successful pass of the loop body keeps the layout invariant. */
  lemma StepKeepsConsistent(g: Geometry, lib: Library, family: string, c: Cursor, line: string)
    requires Sensible(g) && Consistent(g, c)
    requires Step(g, lib, family, c, line).Next?
    ensures Consistent(g, Step(g, lib, family, c, line).cursor)
  {
    var c' := Step(g, lib, family, c, line).cursor;
    if IsBlank(line) {
      assert c' == Cursor(c.y + g.blankLineGap, c.pages, c.placements);
    } else if c.y > Threshold(g) {
      var p := Placement(c.pages + 1, g.margin, g.margin, line);
      assert c' == Cursor(p.y + g.lineHeight, c.pages + 1, c.placements + [p]);
      AppendKeepsConsistent(g, c, p, c.pages + 1);
    } else {
      var p := Placement(c.pages, g.margin, c.y, line);
      assert c' == Cursor(p.y + g.lineHeight, c.pages, c.placements + [p]);
      AppendKeepsConsistent(g, c, p, c.pages);
    }
  }

  /** The layout invariant holds after the whole loop, whatever the lines. */
  lemma {:induction false} RunKeepsConsistent(g: Geometry, lib: Library, family: string, c: Cursor, lines: seq<string>)
    requires Sensible(g) && Consistent(g, c)
    requires Run(g, lib, family, c, lines).Next?
    ensures Consistent(g, Run(g, lib, family, c, lines).cursor)
    decreases |lines|
  {
    if lines != [] {
      StepKeepsConsistent(g, lib, family, c, lines[0]);
      RunKeepsConsistent(g, lib, family, Step(g, lib, family, c, lines[0]).cursor, lines[1..]);
    }
  }

  /** A line Text can draw: a blank line (never drawn) or one the library renders. */
  predicate Drawable(lib: Library, family: string, line: string)
  {
    IsBlank(line) || !lib.TextFails(family, line)
  }

  /** What one pass of the loop body draws: the line itself if it is not blank, else nothing. */
  lemma StepDraws(g: Geometry, lib: Library, family: string, c: Cursor, line: string)
    ensures Step(g, lib, family, c, line).Next? <==> Drawable(lib, family, line)
    ensures Step(g, lib, family, c, line).Stopped? ==>
      Step(g, lib, family, c, line).line == line && Step(g, lib, family, c, line).cursor.placements == c.placements
    ensures Step(g, lib, family, c, line).Next? ==>
      Texts(Step(g, lib, family, c, line).cursor.placements) == Texts(c.placements) + NonBlank([line])
  {
    if Step(g, lib, family, c, line).Next? && !IsBlank(line) {
      var ps := Step(g, lib, family, c, line).cursor.placements;
      assert ps[..|ps| - 1] == c.placements;
    }
  }

  /** A completed loop has drawn exactly the non-blank lines, untrimmed and in input order. */
  lemma {:induction false} RunDrawsNonBlank(g: Geometry, lib: Library, family: string, c: Cursor, lines: seq<string>)
    requires Run(g, lib, family, c, lines).Next?
    ensures Texts(Run(g, lib, family, c, lines).cursor.placements) == Texts(c.placements) + NonBlank(lines)
    decreases |lines|
  {
    if lines != [] {
      StepDraws(g, lib, family, c, lines[0]);
      var c' := Step(g, lib, family, c, lines[0]).cursor;
      RunDrawsNonBlank(g, lib, family, c', lines[1..]);
      assert NonBlank(lines) == NonBlank([lines[0]]) + NonBlank(lines[1..]);
      ConcatAssoc(Texts(c.placements), NonBlank([lines[0]]), NonBlank(lines[1..]));
    }
  }

  /** Every line can be drawn or skipped. */
  predicate AllDrawable(lib: Library, family: string, lines: seq<string>)
  {
    forall k :: 0 <= k < |lines| ==> Drawable(lib, family, lines[k])
  }

  /** The loop stops exactly when some non-blank line cannot be drawn. */
  lemma {:induction false} RunStopsIff(g: Geometry, lib: Library, family: string, c: Cursor, lines: seq<string>)
    ensures Run(g, lib, family, c, lines).Stopped? <==> !AllDrawable(lib, family, lines)
    decreases |lines|
  {
    if lines != [] {
      StepDraws(g, lib, family, c, lines[0]);
      var c' := Step(g, lib, family, c, lines[0]).cursor;
      RunStopsIff(g, lib, family, c', lines[1..]);
      assert forall k :: 0 < k < |lines| ==> lines[k] == lines[1..][k - 1];
      if Run(g, lib, family, c, lines).Stopped? && Drawable(lib, family, lines[0]) {
        var k :| 0 <= k < |lines| - 1 && !Drawable(lib, family, lines[1..][k]);
        assert !Drawable(lib, family, lines[k + 1]);
      }
    }
  }

  /** The non-blank lines of a prefix one line longer than a prefix of the tail. */
  lemma NonBlankPrefix(lines: seq<string>, j: nat)
    requires j < |lines|
    ensures NonBlank(lines[..j + 1]) == NonBlank([lines[0]]) + NonBlank(lines[1..][..j])
  {
    assert lines[..j + 1] == [lines[0]] + lines[1..][..j];
  }

  /** The index of the line the loop stopped at: the first line that cannot be drawn. */
  lemma {:induction false} StoppedAt(g: Geometry, lib: Library, family: string, c: Cursor, lines: seq<string>)
    returns (k: nat)
    requires Run(g, lib, family, c, lines).Stopped?
    ensures k < |lines| && lines[k] == Run(g, lib, family, c, lines).line
    ensures !Drawable(lib, family, lines[k])
    ensures forall k' :: 0 <= k' < k ==> Drawable(lib, family, lines[k'])
    decreases |lines|
  {
    StepDraws(g, lib, family, c, lines[0]);
    var step := Step(g, lib, family, c, lines[0]);
    if step.Stopped? {
      k := 0;
    } else {
      var rest := lines[1..];
      assert Run(g, lib, family, c, lines) == Run(g, lib, family, step.cursor, rest);
      var j := StoppedAt(g, lib, family, step.cursor, rest);
      k := j + 1;
      assert lines[k] == rest[j];
      DrawablePrefix(lib, family, lines, j);
    }
  }

  /** A drawable first line followed by j drawable lines of the tail: j + 1 drawable lines. */
  lemma DrawablePrefix(lib: Library, family: string, lines: seq<string>, j: nat)
    requires j < |lines| && Drawable(lib, family, lines[0])
    requires forall k' :: 0 <= k' < j ==> Drawable(lib, family, lines[1..][k'])
    ensures forall k' :: 0 <= k' < j + 1 ==> Drawable(lib, family, lines[k'])
  {
    forall k' | 0 < k' < j + 1 ensures Drawable(lib, family, lines[k']) {
      assert lines[k'] == lines[1..][k' - 1];
    }
  }

  /** A loop that stops at line k has drawn exactly the non-blank lines before it. */
  lemma {:induction false} StoppedDrawsPrefix(g: Geometry, lib: Library, family: string, c: Cursor, lines: seq<string>, k: nat)
    requires k < |lines| && !Drawable(lib, family, lines[k])
    requires forall k' :: 0 <= k' < k ==> Drawable(lib, family, lines[k'])
    ensures Run(g, lib, family, c, lines).Stopped?
    ensures Texts(Run(g, lib, family, c, lines).cursor.placements) == Texts(c.placements) + NonBlank(lines[..k])
    decreases k
  {
    StepDraws(g, lib, family, c, lines[0]);
    var step := Step(g, lib, family, c, lines[0]);
    if k == 0 {
      assert lines[..0] == [];
    } else {
      var rest := lines[1..];
      assert Run(g, lib, family, c, lines) == Run(g, lib, family, step.cursor, rest);
      assert rest[k - 1] == lines[k];
      assert forall k' :: 0 <= k' < k - 1 ==> rest[k'] == lines[k' + 1];
      StoppedDrawsPrefix(g, lib, family, step.cursor, rest, k - 1);
      NonBlankPrefix(lines, k - 1);
      var before, first, after := Texts(c.placements), NonBlank([lines[0]]), NonBlank(rest[..k - 1]);
      assert Texts(Run(g, lib, family, c, lines).cursor.placements) == (before + first) + after;
      ConcatAssoc(before, first, after);
    }
  }

  /**
   * When the loop stops, it stops at the first line that cannot be drawn,
   * having drawn exactly the non-blank lines before it.
   */
  lemma RunStopsAtFirstFailure(g: Geometry, lib: Library, family: string, c: Cursor, lines: seq<string>)
    requires Run(g, lib, family, c, lines).Stopped?
    ensures exists k ::
      && 0 <= k < |lines|
      && lines[k] == Run(g, lib, family, c, lines).line
      && !Drawable(lib, family, lines[k])
      && (forall k' :: 0 <= k' < k ==> Drawable(lib, family, lines[k']))
      && Texts(Run(g, lib, family, c, lines).cursor.placements) == Texts(c.placements) + NonBlank(lines[..k])
  {
    var k := StoppedAt(g, lib, family, c, lines);
    StoppedDrawsPrefix(g, lib, family, c, lines, k);
  }

  /** Blank lines draw nothing and never open a page: each only adds the blank-line gap to y. */
  lemma {:induction false} BlankLinesOnlyAdvance(g: Geometry, lib: Library, family: string, c: Cursor, lines: seq<string>)
    requires forall i :: 0 <= i < |lines| ==> IsBlank(lines[i])
    ensures Run(g, lib, family, c, lines) ==
      Next(Cursor(c.y + (|lines| as real) * g.blankLineGap, c.pages, c.placements))
    decreases |lines|
  {
    if lines != [] {
      assert IsBlank(lines[0]);
      BlankLinesOnlyAdvance(g, lib, family, c.(y := c.y + g.blankLineGap), lines[1..]);
      assert (|lines| as real) * g.blankLineGap == g.blankLineGap + ((|lines| - 1) as real) * g.blankLineGap;
    }
  }

  /** Lines of text an A4 page holds when no line is blank: y = 20 mm + k * 6 mm stays within 271 mm for k < 42. */
  const LinesPerPage: nat := 42

  /** Where the i-th of a run of content lines lands on A4: row i % 42 of page i / 42 + 1. */
  function A4Slot(i: nat, line: string): Placement
  {
    Placement(i / LinesPerPage + 1, A4.margin, A4.margin + (i % LinesPerPage) as real * A4.lineHeight, line)
  }

  /** The cursor after the first j of a run of content lines on A4. */
  ghost function A4Filled(lines: seq<string>, j: nat): Cursor
    requires j <= |lines|
  {
    var rows := if j == 0 then 0 else (j - 1) % LinesPerPage + 1;
    Cursor(A4.margin + rows as real * A4.lineHeight,
           if j == 0 then 1 else (j - 1) / LinesPerPage + 1,
           seq(j, i requires 0 <= i < j => A4Slot(i, lines[i])))
  }

  lemma A4StepFilled(lib: Library, family: string, lines: seq<string>, j: nat)
    requires j < |lines| && !IsBlank(lines[j]) && !lib.TextFails(family, lines[j])
    ensures Step(A4, lib, family, A4Filled(lines, j), lines[j]) == Next(A4Filled(lines, j + 1))
  {
    var c := A4Filled(lines, j);
    var c' := A4Filled(lines, j + 1);
    var r := j % LinesPerPage;
    assert c'.y == A4.margin + r as real * A4.lineHeight + A4.lineHeight;
    assert c'.pages == j / LinesPerPage + 1;
    if j == 0 {
      assert c.y == A4.margin;
    } else if r == 0 {
      assert (j - 1) % LinesPerPage == 41 && (j - 1) / LinesPerPage + 1 == j / LinesPerPage;
      assert c.y > Threshold(A4);
    } else {
      assert (j - 1) % LinesPerPage + 1 == r && (j - 1) / LinesPerPage == j / LinesPerPage;
      assert c.y == A4.margin + r as real * A4.lineHeight;
      assert c.y <= Threshold(A4);
    }
    assert c'.placements == c.placements + [A4Slot(j, lines[j])];
  }

  lemma {:induction false} A4RunFilled(lib: Library, family: string, lines: seq<string>, j: nat)
    requires j <= |lines|
    requires forall i :: 0 <= i < |lines| ==> !IsBlank(lines[i]) && !lib.TextFails(family, lines[i])
    ensures Run(A4, lib, family, A4Filled(lines, j), lines[j..]) == Next(A4Filled(lines, |lines|))
    decreases |lines| - j
  {
    if j < |lines| {
      A4StepFilled(lib, family, lines, j);
      assert lines[j..][1..] == lines[j + 1..];
      A4RunFilled(lib, family, lines, j + 1);
    }
  }

  /**
   * On A4, n content lines that all draw fill ceil(n / 42) pages (one page
   * when n is 0): the i-th line is row i % 42 of page i / 42 + 1, so every
   * page after the first starts at the top margin.
   */
  lemma A4PagesForContentLines(lib: Library, family: string, lines: seq<string>)
    requires forall i :: 0 <= i < |lines| ==> !IsBlank(lines[i]) && !lib.TextFails(family, lines[i])
    ensures Run(A4, lib, family, Start(A4), lines).Next?
    ensures Run(A4, lib, family, Start(A4), lines).cursor.pages ==
      if |lines| == 0 then 1 else (|lines| + LinesPerPage - 1) / LinesPerPage
    ensures Run(A4, lib, family, Start(A4), lines).cursor.placements ==
      seq(|lines|, i requires 0 <= i < |lines| => A4Slot(i, lines[i]))
  {
    assert A4Filled(lines, 0) == Start(A4);
    assert lines[0..] == lines;
    A4RunFilled(lib, family, lines, 0);
  }

  /**
   * y is not kept within the page: blank lines move it without any page
   * check, so 60 leading blank lines leave it below the bottom edge of A4.
   */
  lemma BlankLinesPassPageBottom(lib: Library, family: string)
    ensures var r := Run(A4, lib, family, Start(A4), seq(60, _ => ""));
      r.Next? && r.cursor.y > A4.pageHeight && r.cursor.pages == 1
  {
    var lines := seq(60, _ => "");
    forall i | 0 <= i < |lines| ensures IsBlank(lines[i]) {
      assert lines[i] == "";
    }
    BlankLinesOnlyAdvance(A4, lib, family, Start(A4), lines);
  }

  /** Empty content is one blank line: one page, nothing drawn. */
  lemma LayEmpty(g: Geometry, lib: Library, family: string)
    ensures Lay(g, lib, family, "") == Next(Cursor(g.margin + g.blankLineGap, 1, []))
  {
    SplitEmpty();
    assert IsBlank("");
    assert [""][1..] == [];
  }

  lemma SplitHelloWorld()
    ensures Split("Hello\n\nWorld") == ["Hello", "", "World"]
  {
    var lines := ["Hello", "", "World"];
    assert JoinLines(lines) == "Hello\n\nWorld";
    SplitJoin(lines);
  }

  /** A drawable content line above the threshold is drawn at y on the current page. */
  lemma StepDrawsInPlace(g: Geometry, lib: Library, family: string, c: Cursor, line: string)
    requires !IsBlank(line) && !lib.TextFails(family, line) && c.y <= Threshold(g)
    ensures Step(g, lib, family, c, line) ==
      Next(Cursor(c.y + g.lineHeight, c.pages, c.placements + [Placement(c.pages, g.margin, c.y, line)]))
  {
  }

  /** A drawable content line below the threshold opens a page and is drawn at its top margin. */
  lemma StepDrawsOnNewPage(g: Geometry, lib: Library, family: string, c: Cursor, line: string)
    requires !IsBlank(line) && !lib.TextFails(family, line) && c.y > Threshold(g)
    ensures Step(g, lib, family, c, line) ==
      Next(Cursor(g.margin + g.lineHeight, c.pages + 1, c.placements + [Placement(c.pages + 1, g.margin, g.margin, line)]))
  {
  }

  /** Run goes on from the cursor the first step leaves. */
  lemma RunNext(g: Geometry, lib: Library, family: string, c: Cursor, lines: seq<string>, c': Cursor)
    requires lines != [] && Step(g, lib, family, c, lines[0]) == Next(c')
    ensures Run(g, lib, family, c, lines) == Run(g, lib, family, c', lines[1..])
  {
  }

  /** "Hello\n\nWorld": both words on page 1, the second one line and one blank-line gap lower. */
  lemma LayHelloWorld(lib: Library, family: string)
    requires !lib.TextFails(family, "Hello") && !lib.TextFails(family, "World")
    ensures Lay(A4, lib, family, "Hello\n\nWorld") == Next(Cursor(
      A4.margin + A4.lineHeight + A4.blankLineGap + A4.lineHeight, 1,
      [Placement(1, A4.margin, A4.margin, "Hello"),
       Placement(1, A4.margin, A4.margin + A4.lineHeight + A4.blankLineGap, "World")]))
  {
    var hello, world: string := "Hello", "World";
    var lines := [hello, "", world];
    var p1 := Placement(1, A4.margin, A4.margin, hello);
    var p2 := Placement(1, A4.margin, A4.margin + A4.lineHeight + A4.blankLineGap, world);
    var c1 := Cursor(A4.margin + A4.lineHeight, 1, [p1]);
    var c2 := Cursor(A4.margin + A4.lineHeight + A4.blankLineGap, 1, [p1]);
    var c3 := Cursor(A4.margin + A4.lineHeight + A4.blankLineGap + A4.lineHeight, 1, [p1, p2]);
    assert !IsBlank(hello) by { assert !IsSpace(hello[0]); }
    assert !IsBlank(world) by { assert !IsSpace(world[0]); }
    StepDrawsInPlace(A4, lib, family, Start(A4), hello);
    assert [] + [p1] == [p1];
    assert Run(A4, lib, family, Start(A4), lines) == Run(A4, lib, family, c1, lines[1..]);
    assert Run(A4, lib, family, c1, lines[1..]) == Run(A4, lib, family, c2, lines[2..]);
    StepDrawsInPlace(A4, lib, family, c2, world);
    assert Run(A4, lib, family, c2, lines[2..]) == Next(c3);
    assert Lay(A4, lib, family, "Hello\n\nWorld") == Run(A4, lib, family, Start(A4), lines) by {
      SplitHelloWorld();
    }
  }
}
