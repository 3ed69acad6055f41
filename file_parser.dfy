/**
 * Parser registry, extension dispatch and PDF page assembly of
 * app/file_parser.py.
 *
 * The registry is a class with a map field from normalised extension to
 * parser class. Reading files, PyPDF2's page access and the OCR pipeline are
 * foreign code: their outcomes are given to the model as data (`PdfFile`,
 * `Page`).
 */
module FileParsing {
  import opened Wrappers
  import opened Text

  /** The parser classes that exist. */
  datatype ParserKind = TxtParser | PdfParser

  /** The `ValueError`s of dispatch, with the extension as the caller wrote it. */
  datatype ParseError = NoParserFound(extension: string) | NoExtension

  // ---------------------------------------------------------------------
  // Extension normalisation: `extension.lower().lstrip(".")`
  // ---------------------------------------------------------------------

  function LowerChar(c: char): (l: char)
    ensures 'A' <= c <= 'Z' ==> l as int == c as int + 32
    ensures !('A' <= c <= 'Z') ==> l == c
  {
    if 'A' <= c <= 'Z' then (c as int + 32) as char else c
  }

  /** `str.lower()` on ASCII letters; every other character is kept. */
  function Lower(s: string): (r: string)
    ensures |r| == |s|
    ensures forall i :: 0 <= i < |s| ==> r[i] == LowerChar(s[i])
  {
    seq(|s|, i requires 0 <= i < |s| => LowerChar(s[i]))
  }

  /** `str.lstrip(".")`: removes every leading dot. */
  function LStripDots(s: string): (r: string)
  {
    if s != [] && s[0] == '.' then LStripDots(s[1..]) else s
  }

  /** What is left after the leading dots: a suffix of the input that does not start with a dot, and everything cut off was a dot. */
  lemma {:induction false} LStripDotsSpec(s: string)
    ensures var r := LStripDots(s);
      |r| <= |s| && r == s[|s| - |r|..] &&
      (r == [] || r[0] != '.') &&
      forall i :: 0 <= i < |s| - |r| ==> s[i] == '.'
  {
    var r := LStripDots(s);
    if s != [] && s[0] == '.' {
      var tail := s[1..];
      LStripDotsSpec(tail);
      assert r == LStripDots(tail);
      assert tail[|tail| - |r|..] == s[|s| - |r|..];
      forall i | 0 <= i < |s| - |r| ensures s[i] == '.' {
        if i > 0 {
          assert s[i] == tail[i - 1];
        }
      }
    } else {
      assert s[|s| - |r|..] == s;
    }
  }

  /** The key both `register_parser` and `get_parser` use for an extension. */
  function Normalize(extension: string): string
  {
    LStripDots(Lower(extension))
  }

  /** A normalised key is lower case and starts with no dot. */
  lemma NormalizeShape(extension: string)
    ensures var k := Normalize(extension);
      (k == [] || k[0] != '.') && forall i :: 0 <= i < |k| ==> !('A' <= k[i] <= 'Z')
  {
    LStripDotsSpec(Lower(extension));
  }

  /** Leading dots do not matter: `".pdf"` and `"..pdf"` reach the key of `"pdf"`. */
  lemma NormalizeSkipsDot(extension: string)
    ensures Normalize("." + extension) == Normalize(extension)
  {
    assert Lower("." + extension) == "." + Lower(extension);
    assert Lower("." + extension)[1..] == Lower(extension);
  }

  lemma LowerIdempotent(s: string)
    ensures Lower(Lower(s)) == Lower(s)
  {
  }

  /** Case does not matter: an extension and its lower-case form reach the same key. */
  lemma NormalizeIgnoresCase(extension: string)
    ensures Normalize(Lower(extension)) == Normalize(extension)
  {
    LowerIdempotent(extension);
  }

  /** Normalising a key again changes nothing. */
  lemma {:induction false} NormalizeIdempotent(extension: string)
    ensures Normalize(Normalize(extension)) == Normalize(extension)
  {
    var k := Normalize(extension);
    NormalizeShape(extension);
    assert Lower(k) == k;
  }

  // ---------------------------------------------------------------------
  // The registry
  // ---------------------------------------------------------------------

  /** `get_parser`'s lookup in a registry table. */
  function Lookup(table: map<string, ParserKind>, extension: string): (r: Result<ParserKind, ParseError>)
    ensures r.Success? <==> Normalize(extension) in table
    ensures r.Success? ==> r.value == table[Normalize(extension)]
    ensures r.Failure? ==> r.error == NoParserFound(extension)
  {
    var key := Normalize(extension);
    if key in table then Success(table[key]) else Failure(NoParserFound(extension))
  }

  /**
   * After registering `parser` under `extension`, every extension with the
   * same key finds `parser`, and every other extension finds what it found
   * before.
   */
  lemma RegisterThenLookup(table: map<string, ParserKind>, extension: string, parser: ParserKind, other: string)
    ensures var after := table[Normalize(extension) := parser];
      if Normalize(other) == Normalize(extension) then Lookup(after, other) == Success(parser)
      else Lookup(after, other) == Lookup(table, other)
  {
  }

  /** The table after the module's two registrations. */
  function InitialTable(): (table: map<string, ParserKind>)
  {
    map["txt" := TxtParser, "pdf" := PdfParser]
  }

  /** At start-up exactly `txt` and `pdf` have parsers; any other key fails. */
  lemma InitialLookup(extension: string)
    ensures Normalize(extension) == "txt" ==> Lookup(InitialTable(), extension) == Success(TxtParser)
    ensures Normalize(extension) == "pdf" ==> Lookup(InitialTable(), extension) == Success(PdfParser)
    ensures Normalize(extension) != "txt" && Normalize(extension) != "pdf" ==>
      Lookup(InitialTable(), extension) == Failure(NoParserFound(extension))
  {
  }

  /** An instance of a parser class, as `parser_cls()` creates it. */
  class Parser {
    const kind: ParserKind

    constructor(kind: ParserKind)
      ensures this.kind == kind
    {
      this.kind := kind;
    }
  }

  /** `ParserFactory` with its class-level table `_parsers`. */
  class ParserFactory {
    var parsers: map<string, ParserKind>

    /** The table with the registrations of `txt` and `pdf` made at import time. */
    constructor()
      ensures parsers == InitialTable()
    {
      parsers := map[];
      new;
      assert Normalize("txt") == "txt" by {
        assert Lower("txt") == "txt";
      }
      assert Normalize("pdf") == "pdf" by {
        assert Lower("pdf") == "pdf";
      }
      RegisterParser("txt", TxtParser);
      RegisterParser("pdf", PdfParser);
    }

    /** `register_parser`: sets, or overwrites, the one entry under the normalised key. */
    method RegisterParser(extension: string, parser: ParserKind)
      modifies this
      ensures parsers == old(parsers)[Normalize(extension) := parser]
    {
      parsers := parsers[Normalize(extension) := parser];
    }

    /** `get_parser`: a fresh instance of the registered class, or `ValueError` naming the extension. */
    method GetParser(extension: string) returns (r: Result<Parser, ParseError>)
      ensures r.Success? <==> Lookup(parsers, extension).Success?
      ensures r.Success? ==> fresh(r.value) && r.value.kind == Lookup(parsers, extension).value
      ensures r.Failure? ==> r.error == NoParserFound(extension)
    {
      var key := Normalize(extension);
      if key !in parsers {
        return Failure(NoParserFound(extension));
      }
      var p := new Parser(parsers[key]);
      return Success(p);
    }
  }

  // ---------------------------------------------------------------------
  // Dispatch on the file name: `os.path.splitext`
  // ---------------------------------------------------------------------

  /** `s.rfind(c)`: the last position of `c`, or -1. */
  function RFind(s: string, c: char): (i: int)
    ensures -1 <= i < |s|
    ensures i >= 0 ==> s[i] == c
    ensures forall j :: i < j < |s| ==> s[j] != c
  {
    if s == [] then -1
    else if s[|s| - 1] == c then |s| - 1
    else RFind(s[..|s| - 1], c)
  }

  predicate AllDots(s: string) {
    forall i :: 0 <= i < |s| ==> s[i] == '.'
  }

  /**
   * POSIX `os.path.splitext`: the extension is the text from the last dot
   * of the last path component, provided that dot comes after some
   * character other than a dot in that component; otherwise it is empty.
   */
  function SplitExt(path: string): (parts: (string, string))
    ensures parts.0 + parts.1 == path
  {
    var sep := RFind(path, '/');
    var dot := RFind(path, '.');
    if dot > sep && !AllDots(path[sep + 1..dot]) then (path[..dot], path[dot..])
    else (path, "")
  }

  /** An extension is a dot followed by characters that are neither dots nor slashes. */
  lemma SplitExtShape(path: string)
    ensures var ext := SplitExt(path).1;
      ext != [] ==> ext[0] == '.' && forall i :: 1 <= i < |ext| ==> ext[i] != '.' && ext[i] != '/'
  {
    var dot := RFind(path, '.');
    var ext := SplitExt(path).1;
    if ext != [] {
      assert ext == path[dot..];
      forall i | 1 <= i < |ext| ensures ext[i] != '.' && ext[i] != '/' {
        assert ext[i] == path[dot + i];
      }
    }
  }

  /** Every dot of the last component that is preceded only by dots of that component. */
  predicate LeadingDotsOnly(path: string, sep: int)
    requires -1 <= sep < |path|
  {
    forall d :: sep < d < |path| && path[d] == '.' ==> AllDots(path[sep + 1..d])
  }

  /**
   * An extension is found exactly when the last path component has a dot
   * that follows some character other than a dot of that component.
   */
  lemma SplitExtFound(path: string)
    ensures SplitExt(path).1 == [] <==> LeadingDotsOnly(path, RFind(path, '/'))
  {
    var sep := RFind(path, '/');
    var dot := RFind(path, '.');
    if SplitExt(path).1 == [] {
      if dot > sep {
        var seg := path[sep + 1..dot];
        forall d | sep < d < |path| && path[d] == '.' ensures AllDots(path[sep + 1..d]) {
          assert d <= dot;
          var part := path[sep + 1..d];
          forall j | 0 <= j < |part| ensures part[j] == '.' {
            assert part[j] == seg[j];
          }
        }
      }
    } else {
      assert path[dot] == '.' && !AllDots(path[sep + 1..dot]);
    }
  }

  /** `FileParser._get_parser`: no extension is a `ValueError`; otherwise the registry decides. */
  function SelectParser(table: map<string, ParserKind>, filepath: string): (r: Result<ParserKind, ParseError>)
    ensures SplitExt(filepath).1 == [] ==> r == Failure(NoExtension)
    ensures SplitExt(filepath).1 != [] ==> r == Lookup(table, SplitExt(filepath).1)
  {
    var ext := SplitExt(filepath).1;
    if ext == [] then Failure(NoExtension) else Lookup(table, ext)
  }

  /** With the initial table, a path whose extension is `.pdf` in any case gets the PDF parser, wherever it lives. */
  lemma PdfPathsDispatch(dir: string, name: string)
    requires name != [] && forall i :: 0 <= i < |name| ==> name[i] != '.' && name[i] != '/'
    ensures SelectParser(InitialTable(), dir + "/" + name + ".PDF") == Success(PdfParser)
  {
    var path := dir + "/" + name + ".PDF";
    var sep, dot := |dir|, |dir| + 1 + |name|;
    assert path[sep + 1..dot] == name;
    assert path[dot..] == ".PDF";
    RFindLast(path, '/', sep);
    RFindLast(path, '.', dot);
    assert path[sep + 1..dot][0] == name[0] != '.';
    assert Normalize(".PDF") == "pdf" by {
      assert Lower(".PDF") == ".pdf";
      assert Lower(".PDF")[1..] == "pdf";
    }
  }

  /** `rfind` finds a position holding the character when no later position does. */
  lemma {:induction false} RFindLast(s: string, c: char, i: nat)
    requires i < |s| && s[i] == c && forall j :: i < j < |s| ==> s[j] != c
    ensures RFind(s, c) == i
  {
    if i < |s| - 1 {
      var init := s[..|s| - 1];
      RFindLast(init, c, i);
    }
  }

  /** A `FileParser`: the path and the parser chosen for it when it was made. */
  class FileParser {
    const filepath: string
    const parser: Parser

    constructor(filepath: string, parser: Parser)
      ensures this.filepath == filepath && this.parser == parser
    {
      this.filepath := filepath;
      this.parser := parser;
    }
  }

  /** `FileParser(filepath)`: the constructor raises what `_get_parser` raises. */
  method NewFileParser(factory: ParserFactory, filepath: string) returns (r: Result<FileParser, ParseError>)
    ensures r.Success? <==> SelectParser(factory.parsers, filepath).Success?
    ensures r.Success? ==>
      fresh(r.value) && fresh(r.value.parser) && r.value.filepath == filepath &&
      r.value.parser.kind == SelectParser(factory.parsers, filepath).value
    ensures r.Failure? ==> r.error == SelectParser(factory.parsers, filepath).error
  {
    var ext := SplitExt(filepath).1;
    if ext == [] {
      return Failure(NoExtension);
    }
    var p := factory.GetParser(ext);
    if p.Failure? {
      return Failure(p.error);
    }
    var fp := new FileParser(filepath, p.value);
    return Success(fp);
  }

  // ---------------------------------------------------------------------
  // PdfParser.parse
  // ---------------------------------------------------------------------

  /**
   * What the libraries make of one page: the text extraction (`None` when
   * it raised or gave nothing) and the OCR of the rasterised page (`None`
   * when OCR failed).
   */
  datatype Page = Page(extracted: Option<string>, ocr: Option<string>)

  /**
   * The document as PyPDF2 sees it.
   * - `Unreadable`: opening it, reading it or counting its pages raised
   *   before the page loop.
   * - `DecryptFails`: the document is encrypted and `decrypt("")` raised.
   * - `Readable(pages)`: every page can be fetched.
   * - `PageFetchFails(pages)`: `pages` can be fetched, and fetching the next
   *   page, `reader.pages[len(pages)]`, raises inside the page loop. Closing
   *   the file after the loop has the same outcome (`""`, with OCR already
   *   run on the blank pages), so a close that raises is `PageFetchFails`
   *   of all the pages.
   */
  datatype PdfFile = Unreadable | DecryptFails | Readable(pages: seq<Page>) | PageFetchFails(pages: seq<Page>)

  function OrEmpty(s: Option<string>): string {
    if s.Some? then s.value else ""
  }

  /** The page's part: the extracted text unless it is blank, in which case the OCR text. */
  function PageText(p: Page): (t: string)
    ensures !IsBlank(OrEmpty(p.extracted)) ==> t == p.extracted.value
    ensures IsBlank(OrEmpty(p.extracted)) ==> t == OrEmpty(p.ocr)
  {
    var extracted := OrEmpty(p.extracted);
    if !IsBlank(extracted) then extracted else OrEmpty(p.ocr)
  }

  /** The parts, one per page in page order. */
  function PageTexts(pages: seq<Page>): (parts: seq<string>)
    ensures |parts| == |pages|
    ensures forall i :: 0 <= i < |pages| ==> parts[i] == PageText(pages[i])
  {
    seq(|pages|, i requires 0 <= i < |pages| => PageText(pages[i]))
  }

  lemma PageTextsAppend(pages: seq<Page>, n: nat)
    requires n < |pages|
    ensures PageTexts(pages[..n + 1]) == PageTexts(pages[..n]) + [PageText(pages[n])]
  {
  }

  /** The pages whose extracted text is blank, the ones OCR is run on, in order. */
  function BlankPages(pages: seq<Page>): (r: seq<nat>)
    ensures forall k :: 0 <= k < |r| ==> r[k] < |pages| && IsBlank(OrEmpty(pages[r[k]].extracted))
    ensures forall k, l :: 0 <= k < l < |r| ==> r[k] < r[l]
    ensures forall i :: 0 <= i < |pages| && IsBlank(OrEmpty(pages[i].extracted)) ==> i in r
  {
    if pages == [] then []
    else
      var last := |pages| - 1;
      BlankPages(pages[..last]) + (if IsBlank(OrEmpty(pages[last].extracted)) then [last] else [])
  }

  lemma BlankPagesAppend(pages: seq<Page>, n: nat)
    requires n < |pages|
    ensures BlankPages(pages[..n + 1]) ==
      BlankPages(pages[..n]) + (if IsBlank(OrEmpty(pages[n].extracted)) then [n] else [])
  {
    assert pages[..n + 1][..n] == pages[..n];
  }

  /** The text `PdfParser.parse` returns for a document. */
  function PdfText(pdf: PdfFile): string
  {
    match pdf
    case Unreadable => ""
    case DecryptFails => ""
    case Readable(pages) => Strip(Join(PageTexts(pages), "\n"))
    case PageFetchFails(_) => ""
  }

  /**
   * The parse yields `""` exactly when the document cannot be read or
   * decrypted, a page cannot be fetched, or every page's part is blank (in
   * particular when it has no pages); otherwise the result has no
   * surrounding white space.
   */
  lemma PdfTextEmpty(pdf: PdfFile)
    ensures PdfText(pdf) == "" <==>
      !pdf.Readable? || forall i :: 0 <= i < |pdf.pages| ==> IsBlank(PageText(pdf.pages[i]))
    ensures PdfText(pdf) != "" ==> !IsSpace(PdfText(pdf)[0]) && !IsSpace(PdfText(pdf)[|PdfText(pdf)| - 1])
  {
    if pdf.Readable? {
      var parts := PageTexts(pdf.pages);
      assert IsBlank("\n");
      JoinBlank(parts, "\n");
      assert PdfText(pdf) == Strip(Join(parts, "\n"));
      assert (forall i :: 0 <= i < |parts| ==> IsBlank(parts[i])) <==>
        (forall i :: 0 <= i < |pdf.pages| ==> IsBlank(PageText(pdf.pages[i])));
    }
  }

  /**
   * The page loop of `PdfParser.parse`. `ocrCalls` lists the pages OCR was
   * run on, including those run before a later page fails to load.
   */
  method PdfParse(pdf: PdfFile) returns (text: string, ocrCalls: seq<nat>)
    ensures text == PdfText(pdf)
    ensures pdf.Readable? || pdf.PageFetchFails? ==> ocrCalls == BlankPages(pdf.pages)
    ensures pdf.Unreadable? || pdf.DecryptFails? ==> ocrCalls == []
  {
    ocrCalls := [];
    if pdf.Unreadable? || pdf.DecryptFails? {
      return "", ocrCalls;
    }
    var pages := pdf.pages;
    // `len(reader.pages)`: at least one page more than can be fetched when a fetch fails
    var pageCount := if pdf.PageFetchFails? then |pages| + 1 else |pages|;
    var contentParts: seq<string> := [];
    for pageNum := 0 to pageCount
      invariant pageNum <= |pages|
      invariant contentParts == PageTexts(pages[..pageNum])
      invariant ocrCalls == BlankPages(pages[..pageNum])
    {
      if pageNum == |pages| {
        // `reader.pages[page_num]` raised: the outer handler returns ""
        assert pages[..pageNum] == pages;
        return "", ocrCalls;
      }
      assert pages[..pageNum + 1][..pageNum] == pages[..pageNum];
      PageTextsAppend(pages, pageNum);
      BlankPagesAppend(pages, pageNum);
      var page := pages[pageNum];
      var pageText := OrEmpty(page.extracted);
      var blank := IsBlankText(pageText);
      if blank {
        ocrCalls := ocrCalls + [pageNum];
        pageText := OrEmpty(page.ocr);
      }
      contentParts := contentParts + [pageText];
    }
    assert pages[..|pages|] == pages;
    text := Strip(Join(contentParts, "\n"));
  }

  /** `not page_text.strip()`. */
  method IsBlankText(s: string) returns (blank: bool)
    ensures blank <==> IsBlank(s)
  {
    blank := Strip(s) == [];
  }

}
