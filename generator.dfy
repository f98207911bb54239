/**
 * generatePDF: pick a font (the embedded Japanese font, else helvetica),
 * add the first page, run the layout loop over the content, write the file.
 * GeneratePdf does this against the Pdf object step by step; Generate is the
 * same computation as a function, about which the properties are proved.
 */
module Generator {
  import opened Wrappers
  import opened Units
  import opened Text
  import opened FontSearch
  import opened Backend
  import opened Layout

  const JapaneseFamily: string := "JapaneseFont"
  const Helvetica: string := "helvetica"

  /** The font that ends up active. */
  datatype FontChoice = Embedded(path: Path) | Builtin

  /** The errors generatePDF returns. */
  datatype GenError = DefaultFontFailed | TextFailed(line: string) | WriteFailed

  /** What generatePDF returns, and the state it leaves the document in. */
  datatype Outcome = Outcome(err: Option<GenError>, doc: Doc)

  function FamilyOf(f: FontChoice): string
  {
    match f
    case Embedded(_) => JapaneseFamily
    case Builtin => Helvetica
  }

  /**
   * The font decision: the embedded font when it was found, added and set;
   * otherwise helvetica, and an error only when setting helvetica fails.
   */
  function SelectFont(fontPath: Option<Path>, lib: Library): Result<FontChoice, GenError>
  {
    var fontAdded := fontPath.Some? && !lib.AddTTFFontFails(fontPath.value) && !lib.SetFontFails(JapaneseFamily);
    if fontAdded then Ok(Embedded(fontPath.value))
    else if lib.SetFontFails(Helvetica) then Err(DefaultFontFailed)
    else Ok(Builtin)
  }

  /** generatePDF as a function of the content, $HOME, the existing files and the library's failures. */
  function Generate(content: string, home: string, present: set<Path>, lib: Library): Outcome
  {
    match SelectFont(FindFont(home, present), lib)
    case Err(e) => Outcome(Some(e), Doc("", 0, [], false))
    case Ok(font) =>
      var family := FamilyOf(font);
      match Lay(A4, lib, family, content)
      case Stopped(line, c) => Outcome(Some(TextFailed(line)), Doc(family, c.pages, c.placements, false))
      case Next(c) =>
        if lib.writeFails then Outcome(Some(WriteFailed), Doc(family, c.pages, c.placements, false))
        else Outcome(None, Doc(family, c.pages, c.placements, true))
  }

  /** The font set-up of generatePDF: try the embedded font, fall back to helvetica. */
  method SetUpFont(pdf: Pdf, fontPath: Option<Path>) returns (ok: bool)
    requires pdf.family == ""
    modifies pdf`families, pdf`family
    ensures ok == SelectFont(fontPath, pdf.lib).Ok?
    ensures pdf.family == if ok then FamilyOf(SelectFont(fontPath, pdf.lib).value) else ""
    ensures pdf.families ==
      if fontPath.Some? && !pdf.lib.AddTTFFontFails(fontPath.value) then old(pdf.families) + {JapaneseFamily}
      else old(pdf.families)
  {
    var fontName := JapaneseFamily;
    var fontAdded := false;
    if fontPath.Some? {
      ok := pdf.AddTTFFont(fontName, fontPath.value);
      if ok {
        ok := pdf.SetFont(fontName);
        if ok {
          fontAdded := true;
        }
      }
    }
    if !fontAdded {
      ok := pdf.SetFont(Helvetica);
      if !ok {
        return false;
      }
    }
    return true;
  }

  /** The layout loop of generatePDF, from the first page on; the failed line if Text failed. */
  method LayOutLines(pdf: Pdf, lines: seq<string>) returns (failed: Option<string>)
    requires pdf.pages == 1 && pdf.placements == []
    modifies pdf`pages, pdf`x, pdf`y, pdf`placements
    ensures var r := Run(A4, pdf.lib, pdf.family, Start(A4), lines);
      && (r.Stopped? <==> failed.Some?)
      && (failed.Some? ==> r.line == failed.value)
      && r.cursor.pages == pdf.pages && r.cursor.placements == pdf.placements
  {
    var pageHeight := MmToPt(297.0);
    var margin := MmToPt(20.0);
    var bottomMargin := MmToPt(20.0);
    var lineHeight := MmToPt(6.0);
    var blankLineGap := MmToPt(5.0);
    var y := margin;
    ghost var lib, family := pdf.lib, pdf.family;
    ghost var whole := Run(A4, lib, family, Start(A4), lines);
    for i := 0 to |lines|
      invariant whole == Run(A4, lib, family, Cursor(y, pdf.pages, pdf.placements), lines[i..])
    {
      var line := lines[i];
      ghost var c := Cursor(y, pdf.pages, pdf.placements);
      ghost var rest := lines[i..];
      assert rest[0] == line && rest[1..] == lines[i + 1..];
      var blank := TrimsToEmpty(line);
      if blank {
        y := y + blankLineGap;
        RunNext(A4, lib, family, c, rest, Cursor(y, pdf.pages, pdf.placements));
        continue;
      }
      if y > pageHeight - bottomMargin - lineHeight {
        pdf.AddPage();
        y := margin;
      }
      pdf.SetXY(margin, y);
      var ok := pdf.Text(line);
      if !ok {
        assert whole == Stopped(line, Cursor(y, pdf.pages, pdf.placements));
        return Some(line);
      }
      if c.y > Threshold(A4) {
        StepDrawsOnNewPage(A4, lib, family, c, line);
      } else {
        StepDrawsInPlace(A4, lib, family, c, line);
      }
      y := y + lineHeight;
      RunNext(A4, lib, family, c, rest, Cursor(y, pdf.pages, pdf.placements));
    }
    assert lines[|lines|..] == [];
    return None;
  }

  /** generatePDF, call by call against the PDF library. */
  method GeneratePdf(content: string, home: string, present: set<Path>, lib: Library) returns (err: Option<GenError>, doc: Doc)
    ensures Outcome(err, doc) == Generate(content, home, present, lib)
  {
    var pageWidth := PageWidth;
    var pageHeight := A4.pageHeight;
    var pdf := new Pdf.Start(lib, pageWidth, pageHeight);

    var fontPath := FindJapaneseFont(home, present);
    var fontSet := SetUpFont(pdf, fontPath);
    if !fontSet {
      return Some(DefaultFontFailed), pdf.Snapshot();
    }

    pdf.AddPage();
    var lines := Split(content);
    var failed := LayOutLines(pdf, lines);
    if failed.Some? {
      return Some(TextFailed(failed.value)), pdf.Snapshot();
    }

    var written := pdf.WritePdf();
    if !written {
      return Some(WriteFailed), pdf.Snapshot();
    }
    return None, pdf.Snapshot();
  }

  /**
   * The embedded font is active only when it was found, added and set;
   * otherwise helvetica is set, and the decision is an error only when
   * setting helvetica fails.
   */
  lemma SelectFontFallsBack(fontPath: Option<Path>, lib: Library)
    ensures (SelectFont(fontPath, lib).Ok? && SelectFont(fontPath, lib).value.Embedded?) <==>
      fontPath.Some? && !lib.AddTTFFontFails(fontPath.value) && !lib.SetFontFails(JapaneseFamily)
    ensures SelectFont(fontPath, lib).Ok? && SelectFont(fontPath, lib).value.Embedded? ==>
      SelectFont(fontPath, lib).value.path == fontPath.value
    ensures SelectFont(fontPath, lib) == Ok(Builtin) <==>
      !(fontPath.Some? && !lib.AddTTFFontFails(fontPath.value) && !lib.SetFontFails(JapaneseFamily)) &&
      !lib.SetFontFails(Helvetica)
    ensures SelectFont(fontPath, lib).Err? <==>
      !(fontPath.Some? && !lib.AddTTFFontFails(fontPath.value) && !lib.SetFontFails(JapaneseFamily)) &&
      lib.SetFontFails(Helvetica)
  {
  }

  /** The document carries the Japanese font exactly when the search found one that was added and set. */
  lemma GenerateUsesEmbeddedFontIff(content: string, home: string, present: set<Path>, lib: Library)
    ensures Generate(content, home, present, lib).doc.family == JapaneseFamily <==>
      var found := FindFont(home, present);
      found.Some? && !lib.AddTTFFontFails(found.value) && !lib.SetFontFails(JapaneseFamily)
  {
  }

  /** Without any font file, generation goes on with helvetica; it fails at the font stage only if helvetica cannot be set. */
  lemma GenerateWithoutFontFile(content: string, home: string, present: set<Path>, lib: Library)
    requires forall i, j :: 0 <= i < 5 && 0 <= j < 24 ==> Join(SearchDirs(home)[i], FontNames[j]) !in present
    ensures var out := Generate(content, home, present, lib);
      (out.err == Some(DefaultFontFailed) <==> lib.SetFontFails(Helvetica)) &&
      (!lib.SetFontFails(Helvetica) ==> out.doc.family == Helvetica)
  {
    FindFontIsFirstMatch(home, present);
  }

  /** The file is written exactly when generation reports no error. */
  lemma GenerateSavesIffNoError(content: string, home: string, present: set<Path>, lib: Library)
    ensures Generate(content, home, present, lib).doc.saved <==> Generate(content, home, present, lib).err.None?
  {
  }

  /**
   * A Text failure aborts generation: it happens exactly when the font is
   * set and some non-blank line cannot be drawn; the error names the first
   * such line, the lines before it are drawn, and nothing is written.
   */
  lemma GenerateStopsOnTextFailure(content: string, home: string, present: set<Path>, lib: Library)
    ensures var out := Generate(content, home, present, lib);
      var font := SelectFont(FindFont(home, present), lib);
      (out.err.Some? && out.err.value.TextFailed?) <==>
        font.Ok? && !AllDrawable(lib, FamilyOf(font.value), Split(content))
    ensures var out := Generate(content, home, present, lib);
      var font := SelectFont(FindFont(home, present), lib);
      var lines := Split(content);
      out.err.Some? && out.err.value.TextFailed? ==>
        && !out.doc.saved
        && exists k ::
          && 0 <= k < |lines| && lines[k] == out.err.value.line
          && !Drawable(lib, FamilyOf(font.value), lines[k])
          && (forall k' :: 0 <= k' < k ==> Drawable(lib, FamilyOf(font.value), lines[k']))
          && Texts(out.doc.placements) == NonBlank(lines[..k])
  {
    var font := SelectFont(FindFont(home, present), lib);
    if font.Ok? {
      var family := FamilyOf(font.value);
      var lines := Split(content);
      assert Lay(A4, lib, family, content) == Run(A4, lib, family, Start(A4), lines);
      RunStopsIff(A4, lib, family, Start(A4), lines);
      var out := Generate(content, home, present, lib);
      if Lay(A4, lib, family, content).Stopped? {
        RunStopsAtFirstFailure(A4, lib, family, Start(A4), lines);
        assert out.err == Some(TextFailed(Lay(A4, lib, family, content).line));
      } else {
        assert out.err.None? || out.err == Some(WriteFailed);
      }
    } else {
      assert Generate(content, home, present, lib).err == Some(DefaultFontFailed);
    }
  }

  /**
   * A successful generation writes the file with every non-blank line drawn,
   * untrimmed and in order, each at the left margin between the top margin and
   * the last line position; consecutive lines go down the page by at least one
   * line height or start the next page at the top margin; the page count is one
   * plus the number of page breaks.
   */
  lemma GenerateSucceeds(content: string, home: string, present: set<Path>, lib: Library)
    requires Generate(content, home, present, lib).err.None?
    ensures var doc := Generate(content, home, present, lib).doc;
      && doc.saved
      && Texts(doc.placements) == NonBlank(Split(content))
      && exists y :: Consistent(A4, Cursor(y, doc.pages, doc.placements))
  {
    var font := SelectFont(FindFont(home, present), lib).value;
    var family := FamilyOf(font);
    var lines := Split(content);
    A4IsSensible();
    RunKeepsConsistent(A4, lib, family, Start(A4), lines);
    RunDrawsNonBlank(A4, lib, family, Start(A4), lines);
    var c := Lay(A4, lib, family, content).cursor;
    assert Consistent(A4, Cursor(c.y, c.pages, c.placements));
  }
}
