/** Loading one PDF into the title-to-pages index (`pdfLoader` in
    backend/document/pdf_loader.py). */
module PdfLoader {
  import opened Text
  import opened Docs

  /** `s[:-n]`: all but the last `n` characters, or nothing when `s` is shorter. */
  function DropLast(s: string, n: nat): (r: string)
    ensures |r| == if |s| >= n then |s| - n else 0
    ensures r <= s
  {
    if |s| >= n then s[..|s| - n] else ""
  }

  /** The document title derived from a PDF path: the file name without its last four
      characters (the ".pdf"), stripped, underscores turned into spaces, and one
      left-to-right pass that turns each double space into a single one. */
  function NormaliseTitle(pdfPath: string): (r: string)
    ensures '_' !in r && '/' !in r
    ensures |r| <= |LastSegment(pdfPath, '/')|
  {
    var base := LastSegment(pdfPath, '/');
    var stripped := Strip(DropLast(base, 4));
    var spaced := ReplaceChar(stripped, '_', ' ');
    StrippedBaseAvoids(pdfPath);
    ReplaceAllAvoids(spaced, "  ", " ", '_');
    ReplaceAllAvoids(spaced, "  ", " ", '/');
    ReplaceAllShrinks(spaced, "  ", " ");
    ReplaceAll(spaced, "  ", " ")
  }

  /** The stripped file name holds no '/' and is no longer than the file name. */
  lemma StrippedBaseAvoids(pdfPath: string)
    ensures '/' !in Strip(DropLast(LastSegment(pdfPath, '/'), 4))
    ensures |Strip(DropLast(LastSegment(pdfPath, '/'), 4))| <= |LastSegment(pdfPath, '/')|
  {
    var base := LastSegment(pdfPath, '/');
    LastSegmentSuffix(pdfPath, '/');
    var stem := DropLast(base, 4);
    assert '/' !in stem by {
      forall i | 0 <= i < |stem| ensures stem[i] != '/' {
        assert stem[i] == base[i];
      }
    }
    StripAvoids(stem, '/');
  }

  lemma ExampleBase()
    ensures Strip(DropLast(LastSegment("d/a___b.pdf", '/'), 4)) == "a___b"
  {
    LastSegmentOfJoin("d", '/', "a___b.pdf");
    assert "d" + ['/'] + "a___b.pdf" == "d/a___b.pdf";
    assert DropLast("a___b.pdf", 4) == "a___b";
    StripTrimmed("a___b");
  }

  lemma ExampleReplace()
    ensures ReplaceAll(ReplaceChar("a___b", '_', ' '), "  ", " ") == "a  b"
  {
    var s := ReplaceChar("a___b", '_', ' ');
    assert s == "a   b";
    assert s[..2][0] == 'a' && s[1..] == "   b";
    assert "   b"[..2] == "  " && "   b"[2..] == " b";
    assert " b"[..2][1] == 'b' && " b"[1..] == "b";
    assert ReplaceAll("b", "  ", " ") == "b";
    assert ReplaceAll(" b", "  ", " ") == " b";
    assert ReplaceAll("   b", "  ", " ") == "  b";
  }

  /** A run of three underscores becomes two spaces: the double-space pass is not repeated. */
  lemma NormaliseTitleSinglePass()
    ensures NormaliseTitle("d/a___b.pdf") == "a  b"
  {
    ExampleBase();
    ExampleReplace();
  }

  /** The value `tags.get(key, [])`. */
  function TagOrEmpty(tags: Metadata, key: string): MetaValue
  {
    if key in tags then tags[key] else Tags([])
  }

  /** The metadata one page carries after the tagging loop. */
  function TagPage(page: Document, title: string, tags: Metadata, summary: string): (r: Document)
    ensures r.pageContent == page.pageContent
    ensures r.metadata.Keys == page.metadata.Keys + {TitleKey, AudienceKey, CategoryKey, ResourceTypeKey, TypeKey, SummaryKey}
    ensures r.metadata[TitleKey] == Str(title) && r.metadata[TypeKey] == Str("pdf")
    ensures r.metadata[SummaryKey] == Str(summary)
  {
    Document(page.pageContent, page.metadata
      [TitleKey := Str(title)]
      [AudienceKey := TagOrEmpty(tags, AudienceKey)]
      [CategoryKey := TagOrEmpty(tags, CategoryKey)]
      [ResourceTypeKey := TagOrEmpty(tags, ResourceTypeKey)]
      [TypeKey := Str("pdf")]
      [SummaryKey := Str(summary)])
  }

  /** What a tagged page says: its title, the three tag fields (empty lists when the
      tags lack them), type "pdf" and the shared summary; every other field is kept. */
  lemma TagPageFields(page: Document, title: string, tags: Metadata, summary: string)
    ensures var md := TagPage(page, title, tags, summary).metadata;
      && md[TitleKey] == Str(title)
      && md[TypeKey] == Str("pdf")
      && md[SummaryKey] == Str(summary)
      && (forall key :: IsTagKey(key) ==> md[key] == (if key in tags then tags[key] else Tags([])))
      && (forall key :: key in page.metadata && !IsTagKey(key) && key !in {TitleKey, TypeKey, SummaryKey}
            ==> md[key] == page.metadata[key])
  {
  }

  /** The pages of a newly loaded PDF, tagged. */
  function TagPages(pages: seq<Document>, title: string, tags: Metadata, summary: string): (r: seq<Document>)
    ensures |r| == |pages|
    ensures forall i :: 0 <= i < |pages| ==>
      && r[i] == TagPage(pages[i], title, tags, summary)
      && r[i].pageContent == pages[i].pageContent
      && r[i].metadata[TitleKey] == Str(title) && r[i].metadata[TypeKey] == Str("pdf")
      && r[i].metadata[SummaryKey] == Str(summary)
  {
    seq(|pages|, i requires 0 <= i < |pages| => TagPage(pages[i], title, tags, summary))
  }

  /** `pdfLoader(pdf_path, title_to_chunks)` on values: the new index and the set returned.
      `loadPages`, `summarise` and `generateTags` stand for the PDF loader, the summary
      chain and the tagging chain. */
  function LoadPdf(
    index: map<string, seq<Document>>, pdfPath: string,
    loadPages: string -> seq<Document>, summarise: seq<Document> -> string,
    generateTags: string -> Metadata): (r: (map<string, seq<Document>>, set<string>))
    ensures r.1 <= {NormaliseTitle(pdfPath)}
    ensures r.0.Keys == index.Keys + r.1 && r.1 !! index.Keys
  {
    var title := NormaliseTitle(pdfPath);
    if title in index then (index, {})
    else
      var pages := loadPages(pdfPath);
      var summary := summarise(pages);
      (index[title := TagPages(pages, title, generateTags(summary), summary)], {title})
  }

  /** A title already indexed is skipped; otherwise exactly that title is added, with
      exactly the loaded pages, each tagged with the title, the generated tags and the
      summary of all of them; every other entry is left as it was. */
  lemma LoadPdfSpec(
    index: map<string, seq<Document>>, pdfPath: string,
    loadPages: string -> seq<Document>, summarise: seq<Document> -> string,
    generateTags: string -> Metadata)
    ensures var (index', added) := LoadPdf(index, pdfPath, loadPages, summarise, generateTags);
      var title := NormaliseTitle(pdfPath);
      && (title in index ==> index' == index && added == {})
      && (title !in index ==>
            && added == {title} && index'.Keys == index.Keys + {title}
            && var pages := loadPages(pdfPath);
               index'[title] == TagPages(pages, title, generateTags(summarise(pages)), summarise(pages)))
      && (forall t :: t in index && t != title ==> t in index' && index'[t] == index[t])
  {
  }

  /** Loading the same path twice is the same as loading it once, and the second call
      reports nothing new. */
  lemma LoadPdfIdempotent(
    index: map<string, seq<Document>>, pdfPath: string,
    loadPages: string -> seq<Document>, summarise: seq<Document> -> string,
    generateTags: string -> Metadata)
    ensures var (once, _) := LoadPdf(index, pdfPath, loadPages, summarise, generateTags);
      LoadPdf(once, pdfPath, loadPages, summarise, generateTags) == (once, {})
  {
  }

  /** The title-to-pages dictionary the loader fills in place. */
  class TitleIndex {
    var titleToChunks: map<string, seq<Document>>

    constructor ()
      ensures titleToChunks == map[]
    {
      titleToChunks := map[];
    }

    /** `pdfLoader(pdf_path, self.titleToChunks)`. */
    method PdfLoader(
      pdfPath: string, loadPages: string -> seq<Document>, summarise: seq<Document> -> string,
      generateTags: string -> Metadata)
      returns (newDocs: set<string>)
      modifies this
      ensures (titleToChunks, newDocs) == LoadPdf(old(titleToChunks), pdfPath, loadPages, summarise, generateTags)
    {
      var title := NormaliseTitle(pdfPath);
      if title in titleToChunks {
        return {};
      }
      var pages := loadPages(pdfPath);
      var summary := summarise(pages);
      var tags := generateTags(summary);
      var tagged: seq<Document> := [];
      var i := 0;
      while i < |pages|
        invariant 0 <= i <= |pages|
        invariant tagged == TagPages(pages[..i], title, tags, summary)
      {
        tagged := tagged + [TagPage(pages[i], title, tags, summary)];
        i := i + 1;
      }
      assert pages[..i] == pages;
      titleToChunks := titleToChunks[title := tagged];
      newDocs := {title};
    }
  }
}
