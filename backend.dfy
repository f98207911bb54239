/**
 * The PDF library (gopdf) as seen by the generator: an object that records
 * pages, the current font and the text placed on each page. Which calls fail
 * is not modelled from the library's internals; a Library value says it.
 */
module Backend {
  import opened FontSearch

  /** One Text call that succeeded: the line drawn at (x, y) on a page, pages counted from 1. */
  datatype Placement = Placement(page: nat, x: real, y: real, text: string)

  /** Which library calls return an error. */
  datatype Library = Library(
    unloadableFonts: set<Path>,               // AddTTFFont(name, path) fails for these files
    unsettableFamilies: set<string>,          // SetFont(family, "", 12) fails for these families
    unrenderable: set<(string, string)>,      // Text(line) fails for these (family, line) pairs
    writeFails: bool)                         // WritePdf(outputPath) fails
  {
    predicate AddTTFFontFails(path: Path) { path in unloadableFonts }

    predicate SetFontFails(family: string) { family in unsettableFamilies }

    predicate TextFails(family: string, line: string) { (family, line) in unrenderable }
  }

  /** The library's observable state once generation returns. */
  datatype Doc = Doc(family: string, pages: nat, placements: seq<Placement>, saved: bool)

  class Pdf {
    const lib: Library
    const pageWidth: real
    const pageHeight: real
    var families: set<string>   // fonts registered with AddTTFFont
    var family: string          // the font family in use, "" before any SetFont succeeds
    var pages: nat              // pages added so far; the last one is the current page
    var x: real
    var y: real
    var placements: seq<Placement>
    var saved: bool             // WritePdf has written the document

    /** Start: an empty document with the given page size. */
    constructor Start(lib: Library, pageWidth: real, pageHeight: real)
      ensures this.lib == lib && this.pageWidth == pageWidth && this.pageHeight == pageHeight
      ensures families == {} && family == "" && pages == 0 && placements == [] && !saved
    {
      this.lib := lib;
      this.pageWidth := pageWidth;
      this.pageHeight := pageHeight;
      families, family, pages := {}, "", 0;
      x, y := 0.0, 0.0;
      placements, saved := [], false;
    }

    function Snapshot(): Doc
      reads this
    {
      Doc(family, pages, placements, saved)
    }

    method AddTTFFont(name: string, path: Path) returns (ok: bool)
      modifies this`families
      ensures ok == !lib.AddTTFFontFails(path)
      ensures families == if ok then old(families) + {name} else old(families)
    {
      ok := !lib.AddTTFFontFails(path);
      if ok {
        families := families + {name};
      }
    }

    /** SetFont(family, "", 12): on failure the current family is kept. */
    method SetFont(name: string) returns (ok: bool)
      modifies this`family
      ensures ok == !lib.SetFontFails(name)
      ensures family == if ok then name else old(family)
    {
      ok := !lib.SetFontFails(name);
      if ok {
        family := name;
      }
    }

    method AddPage()
      modifies this`pages
      ensures pages == old(pages) + 1
    {
      pages := pages + 1;
    }

    method SetXY(x: real, y: real)
      modifies this`x, this`y
      ensures this.x == x && this.y == y
    {
      this.x, this.y := x, y;
    }

    /** Text(s): draws s at the current position on the current page; the position is not advanced. */
    method Text(s: string) returns (ok: bool)
      modifies this`placements
      ensures ok == !lib.TextFails(family, s)
      ensures placements == if ok then old(placements) + [Placement(pages, x, y, s)] else old(placements)
    {
      ok := !lib.TextFails(family, s);
      if ok {
        placements := placements + [Placement(pages, x, y, s)];
      }
    }

    method WritePdf() returns (ok: bool)
      modifies this`saved
      ensures ok == !lib.writeFails
      ensures saved == ok
    {
      ok := !lib.writeFails;
      saved := ok;
    }
  }
}
