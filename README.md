# pdf-go-clitools: text-to-PDF layout and font resolution in Dafny

This project models the core of `generatePDF` in `main.go`, the routine that
turns a plain-text file into an A4 PDF, together with its helpers
`findJapaneseFont` and `mmToPt`, and proves what they promise.

- **Units** (`units.dfy`): `MmToPt`, the millimetre-to-point conversion
  `mm * 72 / 25.4` used for every measurement.
- **Text** (`text.dfy`): Go's `strings.Split(content, "\n")` and
  `strings.TrimSpace` over Go's `unicode.IsSpace` table. A line is *blank*
  when every character is white space. This is proved to be the same test as
  `TrimSpace(line) == ""`.
- **FontSearch** (`font_search.dfy`): the 5 search directories and the 24
  candidate font names, in source order. Also the nested search loop
  (`FirstExisting`, `FindJapaneseFont`) and its specification (`FindFont`).
  A path is a (directory, name) pair, and the file system is the set of
  paths that exist.
- **Backend** (`backend.dfy`): the gopdf document as a class `Pdf` whose
  methods change its fields. The calls are `Start`, `AddTTFFont`, `SetFont`,
  `AddPage`, `SetXY`, `Text` and `WritePdf`. A `Library` value says which
  calls fail: a font file that cannot be added, a family that cannot be set,
  a (family, line) pair that cannot be drawn, or a write that fails.
- **Layout** (`layout.dfy`): the layout loop as a specification. A cursor
  holds y, the page count and the placements so far. `Step` is one pass of
  the loop body, `Run` is the whole loop and `Lay` splits the text and runs
  it from the top of page 1. A4 is built from `MmToPt` as in the source:
  297 mm pages, 20 mm top and bottom margins, 6 mm lines and a 5 mm gap for
  a blank line.
- **Generator** (`generator.dfy`):
  - `SelectFont` is the font fallback decision and `Generate` is the whole
    of `generatePDF` as a function.
  - `GeneratePdf` is the imperative version. It creates the `Pdf`, searches
    for the font, sets it up, adds the first page, lays out the lines and
    writes the file. It is proved equal to `Generate`.

The main results:
- The font search returns the first existing candidate, directories before
  names, and returns nothing exactly when no candidate exists.
- The embedded font is used exactly when it was found, added and set.
  Otherwise helvetica is used, and generation fails at the font stage only
  when helvetica cannot be set.
- A successful run writes the file with every non-blank line drawn, in
  order and untrimmed. Each line sits at the left margin between the top
  margin and `pageHeight - bottomMargin - lineHeight`. Consecutive lines
  move down by at least one line height, or start the next page at the top
  margin. The page count is one plus the number of page breaks.
- A `Text` failure aborts generation. It stops at the first line that cannot
  be drawn, and nothing is written.
- With A4, no blank lines and every line drawable, a page holds 42 lines, so
  n lines (n ≥ 1) take `ceil(n / 42)` pages and line i sits in row `i % 42`
  of page `i / 42 + 1`.
- When "Hello" and "World" can both be drawn, the layout of
  `"Hello\n\nWorld"` is exactly two placements on page 1.
  "Hello" sits at the top margin and "World" one line height plus one blank
  gap lower.

The layout's y is not bounded by the page height. Blank lines add their gap
without a page check, so leading blank lines can carry y past the bottom
edge. The next content line then starts a new page and leaves the earlier
page empty. `Layout.BlankLinesPassPageBottom` exhibits this. The code only
guarantees that drawn lines lie within the bounds, and that is what the model
proves.

## Model

| member | source | states |
|---|---|---|
| Units.MmToPt | main.go:252-254 | the conversion maps 0 mm to 0 pt and any positive length to a larger number of points |
| Units.MmToPtInch | main.go:252-254 | 25.4 mm (one inch) is exactly 72 pt |
| Units.MmToPtAdditive | main.go:252-254 | converting a sum of lengths equals summing the converted lengths |
| Units.MmToPtStrictlyIncreasing | main.go:252-254 | the conversion preserves and reflects strict order |
| Text.IsSpace | main.go:152 | Go's unicode.IsSpace: the Latin-1 spaces (tab, newline, vertical tab, form feed, carriage return, space, U+0085, U+00A0) and the Unicode White_Space characters; used by TrimLeft, TrimRight and TrimSpaceEmptyIffBlank |
| Text.TrimSpace | main.go:152 | strings.TrimSpace as TrimRight after TrimLeft; TrimLeft and TrimRight state what each side drops, and TrimSpaceEmptyIffBlank states when the result is empty |
| Text.IsBlank | main.go:152-155 | the loop's blank-line test stated as "every character is white space"; TrimSpaceEmptyIffBlank and TrimsToEmpty prove it equal to TrimSpace(line) == "" |
| Text.TrimLeft | main.go:152 | the result is a suffix of the line, the dropped prefix is all white space, and the result does not start with white space |
| Text.TrimRight | main.go:152 | the result is a prefix of the line, the dropped suffix is all white space, and the result does not end with white space |
| Text.TrimSpaceEmptyIffBlank | main.go:152 | trimming leaves the empty string exactly when every character of the line is white space |
| Text.TrimsToEmpty | main.go:152 | the loop's blank-line test answers true exactly for all-white-space lines |
| Text.Split | main.go:136 | splitting gives at least one piece, and no piece contains a newline |
| Text.SplitCountsBreaks | main.go:136 | there is exactly one more piece than there are newlines |
| Text.JoinSplit | main.go:136 | joining the pieces with newlines gives back the content |
| Text.SplitJoin | main.go:136 | splitting a newline-joined list of newline-free lines gives back the list |
| Text.SplitNoBreak | main.go:136 | text without a newline splits into itself alone |
| Text.SplitAfterPiece | main.go:136 | a newline-free piece followed by a newline splits off as the first line |
| Text.SplitEmpty | main.go:136 | the empty text splits into one empty line |
| FontSearch.SearchDirs | main.go:228-234 | there are five directories: ./font, then ./fonts, then $HOME/Library/Fonts, then the two system directories |
| FontSearch.FirstIn | main.go:238-244 | the inner loop returns only existing paths in the current directory under a candidate name |
| FontSearch.SearchFrom | main.go:237-248 | the nested loops return only existing paths under a search directory and a candidate name |
| FontSearch.FirstInIsFirst | main.go:238-244 | the inner loop finds nothing exactly when no name exists in the directory, and otherwise the first existing name |
| FontSearch.SearchFromNone | main.go:237-248 | the search finds nothing exactly when no (directory, name) pair exists |
| FontSearch.SearchFromFirst | main.go:237-245 | a found path is an existing pair, and no pair earlier in directory-major order exists |
| FontSearch.FindFont | main.go:192-249 | the result of findJapaneseFont: the search over SearchDirs and FontNames; FindFontIsFirstMatch states that it is the first existing candidate or None, and FindJapaneseFont computes it with the loops |
| FontSearch.FindFontIsFirstMatch | main.go:192-249 | over the 5 directories and 24 names: no result exactly when no candidate file exists, and otherwise the first existing candidate |
| FontSearch.FirstExisting | main.go:237-248 | the nested loops with early return compute the first existing pair |
| FontSearch.FindJapaneseFont | main.go:192-249 | the routine returns the first-match result for $HOME and the existing files |
| Backend.Pdf.Start | main.go:83-89 | a new document has the given page size, no fonts, no family, no pages, nothing drawn and is unsaved |
| Backend.Pdf.AddTTFFont | main.go:103 | succeeds unless the library rejects the file, and registers the family only on success |
| Backend.Pdf.SetFont | main.go:109 | succeeds unless the library rejects the family, and otherwise keeps the previous family |
| Backend.Pdf.AddPage | main.go:133 | adds one page |
| Backend.Pdf.SetXY | main.go:167 | moves the drawing position to (x, y) |
| Backend.Pdf.Text | main.go:172 | succeeds unless the library cannot draw the line in the current family, and on success records the line at the current page and position |
| Backend.Pdf.WritePdf | main.go:183 | the document is saved exactly when the write succeeds |
| Layout.A4IsSensible | main.go:139-144 | the A4 geometry has a positive line height and a non-negative gap, and lines may start from the top margin down to 271 mm |
| Layout.Step | main.go:150-178 | one pass of the loop body, defined case by case (blank line, page break, Text failure, draw); StepEffect, StepDraws and StepKeepsConsistent state its effect |
| Layout.Run | main.go:150-179 | the loop over all lines, stopping at the first Text failure; RunKeepsConsistent, RunDrawsNonBlank, RunStopsIff and RunStopsAtFirstFailure state its properties, and LayOutLines computes it |
| Layout.Lay | main.go:136-179 | split the content on newlines, then run the loop from the top of page 1; LayEmpty, LayHelloWorld and A4PagesForContentLines state its results |
| Layout.StepEffect | main.go:150-178 | a blank line only adds the gap to y; a content line opens a new page exactly when y is past the threshold, fails exactly when Text fails, and otherwise is drawn at the margin with y moved one line down |
| Layout.StepDrawsInPlace | main.go:159-178 | a drawable content line above the threshold is drawn at the current y on the current page |
| Layout.StepDrawsOnNewPage | main.go:159-178 | a drawable content line past the threshold is drawn at the top margin of a new page |
| Layout.BreaksAppend | main.go:159-162 | one more placement adds a page break exactly when it changes page |
| Layout.AppendKeepsConsistent | main.go:159-178 | drawing a line at the cursor, or at the top of a new page, keeps the layout invariant |
| Layout.StepKeepsConsistent | main.go:150-178 | one loop pass keeps the invariant: lines within bounds, in reading order, pages counted by breaks |
| Layout.RunKeepsConsistent | main.go:147-179 | the whole loop keeps the invariant |
| Layout.StepDraws | main.go:150-178 | a pass continues exactly when the line is blank or drawable, draws only non-blank lines and fails with the line it could not draw |
| Layout.RunDrawsNonBlank | main.go:150-179 | a completed loop draws exactly the non-blank lines, in order and untrimmed |
| Layout.RunStopsIff | main.go:150-179 | the loop aborts exactly when some non-blank line cannot be drawn |
| Layout.NonBlankPrefix | main.go:152-155 | the non-blank lines of a prefix split into the first line and the rest |
| Layout.StoppedAt | main.go:150-179 | an aborted loop stopped at the line it reports, which cannot be drawn, and every earlier line is drawable |
| Layout.StoppedDrawsPrefix | main.go:150-179 | if line k is the first that cannot be drawn, the loop aborts having drawn exactly the non-blank lines before k |
| Layout.RunStopsAtFirstFailure | main.go:150-179 | an aborted loop reports the first undrawable line, and all non-blank lines before it are drawn |
| Layout.BlankLinesOnlyAdvance | main.go:152-155 | blank lines draw nothing and open no page; each adds the gap to y |
| Layout.BlankLinesPassPageBottom | main.go:152-155 | 60 blank lines carry y past the bottom of an A4 page on page 1 |
| Layout.A4StepFilled | main.go:159-178 | the j-th content line lands in row j mod 42 of page j div 42 + 1 |
| Layout.A4RunFilled | main.go:150-179 | drawing content lines from slot j onward fills the remaining slots in order |
| Layout.A4PagesForContentLines | main.go:136-179 | n non-blank content lines that can all be drawn take one page if n is 0 and otherwise ceil(n / 42) pages, with line i in its slot |
| Layout.LayEmpty | main.go:136-179 | empty content gives one page, no placements and y one gap below the margin |
| Layout.SplitHelloWorld | main.go:136 | "Hello\n\nWorld" splits into "Hello", "" and "World" |
| Layout.RunNext | main.go:150-179 | a pass that continues hands the rest of the lines to the loop |
| Layout.LayHelloWorld | main.go:136-179 | "Hello\n\nWorld" gives two placements on page 1: Hello at the margin, World one line and one gap lower |
| Generator.SetUpFont | main.go:93-130 | font set-up succeeds exactly when the fallback decision does; the active family is the one decided; the Japanese font stays registered whenever AddTTFFont succeeded, even if setting it then failed |
| Generator.LayOutLines | main.go:136-179 | the imperative loop ends with the pages and placements of the layout specification, and reports exactly the line it aborted on |
| Generator.GeneratePdf | main.go:80-188 | the outcome (error and document) equals the functional model of generatePDF |
| Generator.SelectFont | main.go:93-130 | the font decision: embedded font, builtin helvetica, or error; SelectFontFallsBack states the three cases as if-and-only-ifs, and SetUpFont computes it |
| Generator.Generate | main.go:80-188 | generatePDF as a function of content, $HOME, the existing files and the library; GenerateSucceeds, GenerateStopsOnTextFailure, GenerateSavesIffNoError, GenerateUsesEmbeddedFontIff and GenerateWithoutFontFile state its properties, and GeneratePdf computes it |
| Generator.SelectFontFallsBack | main.go:93-130 | the embedded font is chosen exactly when found, added and set; the builtin font exactly when it is not and helvetica can be set; an error otherwise |
| Generator.GenerateUsesEmbeddedFontIff | main.go:93-130 | the document uses the Japanese family exactly when the search found a font that was added and set |
| Generator.GenerateWithoutFontFile | main.go:119-130 | with no candidate file, generation fails at the font stage exactly when helvetica cannot be set, and otherwise uses helvetica |
| Generator.GenerateSavesIffNoError | main.go:172-187 | the file is written exactly when no error is returned |
| Generator.GenerateStopsOnTextFailure | main.go:172-175 | a Text error happens exactly when the font is set and some non-blank line cannot be drawn; the loop stops at the first such line (recorded in the model's TextFailed), earlier lines are drawn, and nothing is written |
| Generator.GenerateSucceeds | main.go:136-187 | on success the file is written, every non-blank line is drawn in order, and the layout invariant holds |

## Left out

- `main`, `readTextFile` and `ensureDirectory` (argument handling, reading the input, creating the output directory) are outside the core.
- Console messages (`fmt.Printf`, `fmt.Println`) are left out.
- gopdf is not part of this model. Its calls are the `Pdf` class, and a `Library` value decides which calls fail. Font metrics, glyph encoding and the PDF bytes are not modelled.
- Error messages are not modelled. The `%w` wrapping with text becomes an error kind (`DefaultFontFailed`, `TextFailed`, `WriteFailed`). `TextFailed` also carries the line the loop stopped at; the source's error does not contain that line.
- Generator.GenerateStopsOnTextFailure: the line it relates to the error is the `TextFailed` payload, which exists only in the model. The source reports gopdf's error wrapped in a fixed message (main.go:174), not the line.
- The output path and the file itself are not modelled. `WritePdf` only records whether the write succeeded.
- `os.Stat` becomes membership in a set of existing paths. `os.Getenv("HOME")` becomes a parameter. `filepath.Join` becomes the pair `Join(dir, name)`, so path cleaning is not modelled.
- `findJapaneseFont` returns `None` where the source returns the empty string.
- Measurements are exact reals, not `float64`. Rounding in `mm * 72 / 25.4` and in the y arithmetic is not modelled.
- `Text.TrimSpace` works on characters, not bytes. The decoding of invalid UTF-8 is not modelled.
- The font size (12) and the style argument of `SetFont` are not modelled. Page width is recorded but not used by the layout, as in the source.
- Generator.SetUpFont and Generator.LayOutLines split `generatePDF` into steps. The statements and their order are those of the source.
