/** The loaders of backend/llm_utils.py: `pdfLoader`, `youtubeLoader` and
    `load_all_documents`, which runs both over the audience, resource-type and content
    folders and tags every PDF page and transcript chunk with the folders it was found in. */
module LlmLoaders {
  import opened Wrappers
  import opened Text
  import opened Docs
  import opened Ingest
  import YoutubeLoader
  import PdfLoader

  /** Transcript chunks of thirty seconds (backend/document/youtube_loader.py uses sixty). */
  const LegacyChunkSeconds := 30

  /** The file system and the document loaders: `glob.glob`, `os.listdir`, `readlines`
      on a path, `PyPDFLoader(path).load_and_split()` and the YouTube transcript loader. */
  datatype Sources = Sources(
    glob: string -> seq<string>,
    listdir: string -> seq<string>,
    readLines: string -> seq<string>,
    loadPages: string -> seq<Document>,
    loadTranscript: YoutubeLoader.TranscriptLoader)

  /** Every path of a folder is titled by its file name; only ".pdf" files are loaded. */
  function PdfRule(loadPages: string -> seq<Document>): Rule
  {
    Rule(p => Ok(LastSegment(p, '/')), p => EndsWith(p, ".pdf"), loadPages)
  }

  /** `pdfLoader(path, existing_docs)` cannot fail: a file name always exists. */
  lemma PdfNeverFails(paths: seq<string>, loadPages: string -> seq<Document>, existing: seq<string>)
    ensures Classified(paths, PdfRule(loadPages), existing).Ok?
  {
    ClassifiedOk(paths, PdfRule(loadPages), existing);
  }

  /** The new PDF titles are the file names of the ".pdf" paths not known before, without
      repeats; the duplicates are the known file names met, whatever their extension. */
  lemma PdfLoaded(paths: seq<string>, loadPages: string -> seq<Document>, existing: seq<string>)
    ensures Classified(paths, PdfRule(loadPages), existing).Ok?
    ensures var r := Classified(paths, PdfRule(loadPages), existing).value;
      && NoDuplicates(r.added)
      && (forall t :: t in r.added <==>
            exists i :: 0 <= i < |paths| && LastSegment(paths[i], '/') == t && t !in existing && EndsWith(paths[i], ".pdf"))
      && (forall t :: t in r.duplicates <==>
            exists i :: 0 <= i < |paths| && LastSegment(paths[i], '/') == t && t in existing)
  {
    var rule := PdfRule(loadPages);
    PdfNeverFails(paths, loadPages, existing);
    ClassifiedSpec(paths, rule, existing);
    forall i | 0 <= i < |paths| ensures rule.titleOf(paths[i]) == Ok(LastSegment(paths[i], '/')) {}
  }

  /** `pdfLoader(path, existing_docs)`: the pages of the new PDFs of the folder, the new
      titles and the known titles met. */
  method LoadPdfs(path: string, existing: seq<string>, src: Sources) returns (r: Intake)
    ensures Classified(src.glob(path + "/*"), PdfRule(src.loadPages), existing) == Ok(r)
  {
    PdfNeverFails(src.glob(path + "/*"), src.loadPages, existing);
    var res := Partition(src.glob(path + "/*"), PdfRule(src.loadPages), existing);
    r := res.value;
  }

  /** `youtubeLoader(path, existing_vids)`: nothing without a URL file, otherwise the
      partition of its lines with thirty-second transcript chunks. */
  method LoadVideos(path: string, existing: seq<string>, src: Sources) returns (r: Result<Intake>)
    ensures YoutubeLoader.UrlFile !in src.listdir(path) ==> r == Ok(Intake([], [], []))
    ensures YoutubeLoader.UrlFile in src.listdir(path) ==>
      r == Classified(src.readLines(path + "/" + YoutubeLoader.UrlFile),
                      YoutubeLoader.YoutubeRule(src.loadTranscript, LegacyChunkSeconds), existing)
  {
    r := YoutubeLoader.LoadListedUrls(path, existing, LegacyChunkSeconds, src.listdir, src.readLines, src.loadTranscript);
  }

  function Videos(path: string, existing: seq<string>, src: Sources): Result<Intake>
  {
    YoutubeLoader.ListedUrls(path, existing, LegacyChunkSeconds, src.listdir, src.readLines, src.loadTranscript)
  }

  /** One of the three folder trees: its glob pattern, the tag key its folder names give,
      and the two other tag keys, which get a blank value where missing. */
  datatype Pass = Pass(pattern: string, key: string, other1: string, other2: string)

  /** The passes in the order `load_all_documents` makes them. */
  const Passes := [
    Pass("docs/by_audience/*", AudienceKey, CategoryKey, ResourceTypeKey),
    Pass("docs/by_resource/*", ResourceTypeKey, CategoryKey, AudienceKey),
    Pass("docs/by_content/*", CategoryKey, ResourceTypeKey, AudienceKey)]

  /** A pass names the three tag keys, each once. */
  predicate ValidPass(p: Pass)
  {
    {p.key, p.other1, p.other2} == {AudienceKey, CategoryKey, ResourceTypeKey}
  }

  predicate AllValid(passes: seq<Pass>)
  {
    forall i :: 0 <= i < |passes| ==> ValidPass(passes[i])
  }

  lemma PassesValid()
    ensures AllValid(Passes)
  {
  }

  /** A missing or empty value, which the duplicate backfill overwrites. */
  predicate Blank(md: Metadata, key: string)
  {
    key !in md || md[key] == Str("")
  }

  /** `if key not in metadata: metadata[key] = ""` */
  function Default(md: Metadata, key: string): Metadata
  {
    if key in md then md else md[key := Str("")]
  }

  /** `if key not in metadata or metadata[key] == "": metadata[key] = v` */
  function FillIfBlank(md: Metadata, key: string, v: MetaValue): Metadata
  {
    if Blank(md, key) then md[key := v] else md
  }

  /** The string a metadata entry holds, as `.split` needs it. */
  function StrValue(md: Metadata, key: string): Result<string>
  {
    if key !in md then Err(KeyError(key))
    else
      match md[key]
      case Str(s) => Ok(s)
      case Int(_) => Err(AttributeError("'int' object has no attribute 'split'"))
      case Tags(_) => Err(AttributeError("'list' object has no attribute 'split'"))
  }

  /** A stored page carries its title and the three tag keys; a stored transcript chunk
      also its start time and the page entry copied from it. */
  predicate Ready(d: Document, video: bool)
  {
    && TitleKey in d.metadata
    && AudienceKey in d.metadata && CategoryKey in d.metadata && ResourceTypeKey in d.metadata
    && (video ==> PageKey in d.metadata && StartSecondsKey in d.metadata)
  }

  predicate AllReady(docs: seq<Document>, video: bool)
  {
    forall k :: 0 <= k < |docs| ==> Ready(docs[k], video)
  }

  /** The tagging of a page or chunk loaded from a folder: the title taken from its
      source (the file name of a PDF, the video id of a transcript chunk, whose source
      is `...watch?v=<id>&t=<n>s`), the folder's tag, the start time as page number for
      a chunk, and blanks for the other two tag keys where missing. */
  function TagNew(d: Document, video: bool, pass: Pass, tag: string): (r: Result<Document>)
    requires ValidPass(pass)
    ensures r.Ok? ==> Ready(r.value, video) && r.value.pageContent == d.pageContent
    ensures r.Ok? ==> r.value.metadata[pass.key] == Str(tag)
    ensures SourceKey !in d.metadata ==> r == Err(KeyError(SourceKey))
    ensures SourceKey in d.metadata && !d.metadata[SourceKey].Str? ==> r.Err? && r.error.AttributeError?
    ensures SourceKey in d.metadata && d.metadata[SourceKey].Str? ==>
      var source := d.metadata[SourceKey].s;
      && (!video ==> r.Ok? && r.value.metadata[TitleKey] == Str(LastSegment(source, '/')))
      && (video && YoutubeLoader.UrlTitle(source).Err? ==> r == Err(IndexError))
      && (video && YoutubeLoader.UrlTitle(source).Ok? && StartSecondsKey !in d.metadata ==>
            r == Err(KeyError(StartSecondsKey)))
      && (video && YoutubeLoader.UrlTitle(source).Ok? && StartSecondsKey in d.metadata ==>
            && r.Ok?
            && r.value.metadata[TitleKey] == Str(PdfLoader.DropLast(YoutubeLoader.UrlTitle(source).value, 2))
            && r.value.metadata[PageKey] == d.metadata[StartSecondsKey])
    ensures r.Ok? ==> forall k :: k in d.metadata && !IsTagKey(k) && k != TitleKey && k != PageKey ==>
      k in r.value.metadata && r.value.metadata[k] == d.metadata[k]
    ensures r.Ok? ==> var md := r.value.metadata;
      && md[pass.other1] == (if pass.other1 in d.metadata then d.metadata[pass.other1] else Str(""))
      && md[pass.other2] == (if pass.other2 in d.metadata then d.metadata[pass.other2] else Str(""))
  {
    match StrValue(d.metadata, SourceKey)
    case Err(e) => Err(e)
    case Ok(source) =>
      if !video then
        Ok(d.(metadata := Tagged(d.metadata, LastSegment(source, '/'), pass, tag)))
      else
        match YoutubeLoader.UrlTitle(source)
        case Err(e) => Err(e)
        case Ok(id) =>
          if StartSecondsKey !in d.metadata then Err(KeyError(StartSecondsKey))
          else
            var md := d.metadata[PageKey := d.metadata[StartSecondsKey]];
            Ok(d.(metadata := Tagged(md, PdfLoader.DropLast(id, 2), pass, tag)))
  }

  function Tagged(md: Metadata, title: string, pass: Pass, tag: string): (r: Metadata)
    requires ValidPass(pass)
    ensures TitleKey in r && AudienceKey in r && CategoryKey in r && ResourceTypeKey in r
    ensures r[pass.key] == Str(tag) && r[TitleKey] == Str(title)
    ensures forall k :: k in md && !IsTagKey(k) && k != TitleKey ==> k in r && r[k] == md[k]
    ensures r[pass.other1] == (if pass.other1 in md then md[pass.other1] else Str(""))
    ensures r[pass.other2] == (if pass.other2 in md then md[pass.other2] else Str(""))
  {
    Default(Default(md[TitleKey := Str(title)][pass.key := Str(tag)], pass.other1), pass.other2)
  }

  /** `after` is `before` with some of its blank entries filled in. */
  predicate Kept(before: Document, after: Document)
  {
    && after.pageContent == before.pageContent
    && after.metadata.Keys == before.metadata.Keys
    && forall key :: key in before.metadata && !Blank(before.metadata, key) ==> after.metadata[key] == before.metadata[key]
  }

  /** The backfill of a duplicate: for a chunk the page number from the start time when
      blank, the folder's tag when blank, and blanks for the other tag keys where missing.
      On a stored page or chunk only blank entries change, so the first folder a document
      was found in keeps its tag. */
  function Fill(d: Document, video: bool, pass: Pass, tag: string): (r: Document)
    requires ValidPass(pass) && Ready(d, video)
    ensures Ready(r, video) && Kept(d, r)
    ensures Blank(d.metadata, pass.key) ==> r.metadata[pass.key] == Str(tag)
    ensures video && Blank(d.metadata, PageKey) ==> r.metadata[PageKey] == d.metadata[StartSecondsKey]
    ensures forall key :: key in d.metadata && key != pass.key && key != PageKey ==> r.metadata[key] == d.metadata[key]
  {
    var md := if video then FillIfBlank(d.metadata, PageKey, d.metadata[StartSecondsKey]) else d.metadata;
    d.(metadata := Default(Default(FillIfBlank(md, pass.key, Str(tag)), pass.other1), pass.other2))
  }

  /** Filling twice is filling once. */
  lemma FillIdempotent(d: Document, video: bool, pass: Pass, tag: string)
    requires ValidPass(pass) && Ready(d, video)
    ensures Fill(Fill(d, video, pass, tag), video, pass, tag) == Fill(d, video, pass, tag)
  {
    var once := Fill(d, video, pass, tag);
    var twice := Fill(once, video, pass, tag);
    assert twice.metadata == once.metadata;
  }

  /** `f` applied to each element in order; the first error ends it and is the result. */
  function MapAll<T>(xs: seq<T>, f: T -> Result<T>): (r: Result<seq<T>>)
    ensures r.Ok? ==> |r.value| == |xs|
    ensures r.Ok? ==> forall k :: 0 <= k < |xs| ==> f(xs[k]).Ok? && r.value[k] == f(xs[k]).value
    ensures r.Err? ==> exists k :: 0 <= k < |xs| && f(xs[k]) == Err(r.error) && forall j :: 0 <= j < k ==> f(xs[j]).Ok?
  {
    if xs == [] then Ok([])
    else
      var n := |xs| - 1;
      match MapAll(xs[..n], f)
      case Err(e) => Err(e)
      case Ok(prev) =>
        match f(xs[n])
        case Err(e) => Err(e)
        case Ok(x) => Ok(prev + [x])
  }

  /** The tagging of one loaded page or chunk, as a function value. */
  function Tagger(video: bool, pass: Pass, tag: string): Document -> Result<Document>
    requires ValidPass(pass)
  {
    d => TagNew(d, video, pass, tag)
  }

  /** Tagging the loaded pages or chunks in order; the first that raises ends it. */
  function TagAll(docs: seq<Document>, video: bool, pass: Pass, tag: string): (r: Result<seq<Document>>)
    requires ValidPass(pass)
    ensures r.Ok? ==> |r.value| == |docs| && AllReady(r.value, video)
    ensures r.Ok? ==> forall k :: 0 <= k < |docs| ==>
      && TagNew(docs[k], video, pass, tag).Ok? && r.value[k] == TagNew(docs[k], video, pass, tag).value
      && r.value[k].metadata[pass.key] == Str(tag) && r.value[k].pageContent == docs[k].pageContent
    ensures r.Err? ==> exists k ::
      && 0 <= k < |docs| && TagNew(docs[k], video, pass, tag) == Err(r.error)
      && forall j :: 0 <= j < k ==> TagNew(docs[j], video, pass, tag).Ok?
  {
    MapAll(docs, Tagger(video, pass, tag))
  }

  /** The backfill of one duplicate title over the stored pages or chunks. */
  function BackfillOne(docs: seq<Document>, title: string, video: bool, pass: Pass, tag: string): (r: seq<Document>)
    requires ValidPass(pass) && AllReady(docs, video)
    ensures |r| == |docs| && AllReady(r, video)
  {
    seq(|docs|, k requires 0 <= k < |docs| =>
      if docs[k].metadata[TitleKey] == Str(title) then Fill(docs[k], video, pass, tag) else docs[k])
  }

  /** The backfill of every duplicate title, in order. */
  function Backfill(docs: seq<Document>, dups: seq<string>, video: bool, pass: Pass, tag: string): (r: seq<Document>)
    requires ValidPass(pass) && AllReady(docs, video)
    ensures |r| == |docs| && AllReady(r, video)
  {
    if dups == [] then docs
    else
      var n := |dups| - 1;
      BackfillOne(Backfill(docs, dups[..n], video, pass, tag), dups[n], video, pass, tag)
  }

  /** The four lists `load_all_documents` accumulates. */
  datatype Library = Library(pdfs: seq<string>, pages: seq<Document>, vids: seq<string>, chunks: seq<Document>)

  predicate Valid(lib: Library)
  {
    AllReady(lib.pages, false) && AllReady(lib.chunks, true)
  }

  /** One folder of a pass: load its PDFs and videos, tag what is new, then backfill the
      stored pages and chunks whose titles came up again. */
  function Step(lib: Library, folder: string, pass: Pass, src: Sources): (r: Result<Library>)
    requires ValidPass(pass) && Valid(lib)
    ensures r.Ok? ==> Valid(r.value)
  {
    var tag := LastSegment(folder, '/');
    match Classified(src.glob(folder + "/*"), PdfRule(src.loadPages), lib.pdfs)
    case Err(e) => Err(e)
    case Ok(pdf) =>
      match Videos(folder, lib.vids, src)
      case Err(e) => Err(e)
      case Ok(vid) =>
        match TagAll(pdf.chunks, false, pass, tag)
        case Err(e) => Err(e)
        case Ok(newPages) =>
          match TagAll(vid.chunks, true, pass, tag)
          case Err(e) => Err(e)
          case Ok(newChunks) =>
            Ok(Library(
              lib.pdfs + pdf.added,
              Backfill(lib.pages + newPages, pdf.duplicates, false, pass, tag),
              lib.vids + vid.added,
              Backfill(lib.chunks + newChunks, vid.duplicates, true, pass, tag)))
  }

  /** The folders of one pass, in glob order; the first that raises ends the load. */
  function Folders(lib: Library, folders: seq<string>, pass: Pass, src: Sources): (r: Result<Library>)
    requires ValidPass(pass) && Valid(lib)
    ensures r.Ok? ==> Valid(r.value)
  {
    if folders == [] then Ok(lib)
    else
      var n := |folders| - 1;
      match Folders(lib, folders[..n], pass, src)
      case Err(e) => Err(e)
      case Ok(prev) => Step(prev, folders[n], pass, src)
  }

  /** The passes in order, each over the folders its pattern matches. */
  function Passed(passes: seq<Pass>, src: Sources): (r: Result<Library>)
    requires AllValid(passes)
    ensures r.Ok? ==> Valid(r.value)
  {
    if passes == [] then Ok(Library([], [], [], []))
    else
      var n := |passes| - 1;
      match Passed(passes[..n], src)
      case Err(e) => Err(e)
      case Ok(prev) => Folders(prev, src.glob(passes[n].pattern), passes[n], src)
  }

  /** What `load_all_documents()` returns: all PDF pages and all transcript chunks, every
      one of them carrying a title and the three tag keys. */
  function LoadAll(src: Sources): (r: Result<(seq<Document>, seq<Document>)>)
    ensures r.Ok? ==> AllReady(r.value.0, false) && AllReady(r.value.1, true)
  {
    PassesValid();
    match Passed(Passes, src)
    case Err(e) => Err(e)
    case Ok(lib) => Ok((lib.pages, lib.chunks))
  }

  lemma MapAllSnoc<T>(xs: seq<T>, n: nat, f: T -> Result<T>)
    requires n < |xs| && MapAll(xs[..n], f).Ok? && f(xs[n]).Ok?
    ensures MapAll(xs[..n + 1], f) == Ok(MapAll(xs[..n], f).value + [f(xs[n]).value])
  {
    assert xs[..n + 1][..n] == xs[..n];
  }

  lemma MapAllSnocErr<T>(xs: seq<T>, n: nat, f: T -> Result<T>)
    requires n < |xs| && MapAll(xs[..n], f).Ok? && f(xs[n]).Err?
    ensures MapAll(xs[..n + 1], f) == Err(f(xs[n]).error)
  {
    assert xs[..n + 1][..n] == xs[..n];
  }

  lemma {:induction false} MapAllErrSticks<T>(xs: seq<T>, k: nat, f: T -> Result<T>)
    requires k <= |xs| && MapAll(xs[..k], f).Err?
    ensures MapAll(xs, f) == MapAll(xs[..k], f)
    decreases |xs|
  {
    if k < |xs| {
      var init := xs[..|xs| - 1];
      assert init[..k] == xs[..k];
      MapAllErrSticks(init, k, f);
    } else {
      assert xs[..k] == xs;
    }
  }

  /** Overwriting the first element after `a + b` moves it to the end of `b`. */
  lemma UpdateAfter<T>(a: seq<T>, b: seq<T>, c: seq<T>, i: nat, x: T)
    requires i < |c|
    ensures (a + b + c[i..])[|a| + |b| := x] == a + (b + [x]) + c[i + 1..]
  {
    assert c[i..][1..] == c[i + 1..];
  }

  /** The mapping stops at the first element `f` fails on. */
  lemma MapAllStops<T>(xs: seq<T>, n: nat, f: T -> Result<T>)
    requires n < |xs| && MapAll(xs[..n], f).Ok? && f(xs[n]).Err?
    ensures MapAll(xs, f) == Err(f(xs[n]).error)
  {
    MapAllSnocErr(xs, n, f);
    MapAllErrSticks(xs, n + 1, f);
  }

  /** The stored elements followed by the mapped ones, or the mapping's error. */
  function After<T>(stored: seq<T>, mapped: Result<seq<T>>): Result<seq<T>>
  {
    match mapped
    case Err(e) => Err(e)
    case Ok(xs) => Ok(stored + xs)
  }

  /** One iteration of the in-place loop keeps its invariant. */
  lemma MapStep<T>(stored: seq<T>, done: seq<T>, appended: seq<T>, i: nat, f: T -> Result<T>, x: T)
    requires i < |appended| && MapAll(appended[..i], f) == Ok(done) && f(appended[i]) == Ok(x)
    ensures MapAll(appended[..i + 1], f) == Ok(done + [x])
    ensures (stored + done + appended[i..])[|stored| + |done| := x] == stored + (done + [x]) + appended[i + 1..]
  {
    MapAllSnoc(appended, i, f);
    UpdateAfter(stored, done, appended, i, x);
  }

  /** The tagging loop over the pages or chunks just appended from `start` on: each is
      updated where it is stored. */
  method TagInPlace(docs: seq<Document>, start: nat, tagger: Document -> Result<Document>)
    returns (r: Result<seq<Document>>)
    requires start <= |docs|
    ensures r == After(docs[..start], MapAll(docs[start..], tagger))
  {
    ghost var appended := docs[start..];
    ghost var done: seq<Document> := [];
    var cur := docs;
    assert appended[..0] == [] && cur == docs[..start] + done + appended;
    for i := 0 to |docs| - start
      invariant |done| == i && cur == docs[..start] + done + appended[i..]
      invariant MapAll(appended[..i], tagger) == Ok(done)
    {
      var k := start + i;
      assert cur[k] == appended[i];
      var t := tagger(cur[k]);
      if t.Err? {
        MapAllStops(appended, i, tagger);
        return Err(t.error);
      }
      MapStep(docs[..start], done, appended, i, tagger, t.value);
      cur := cur[k := t.value];
      done := done + [t.value];
    }
    assert appended[..|docs| - start] == appended && appended[|docs| - start..] == [];
    assert cur == docs[..start] + done;
    r := Ok(cur);
  }

  /** The backfill loops: for every duplicate title, every stored page or chunk of that
      title is filled where it is stored. */
  method BackfillInPlace(docs: seq<Document>, dups: seq<string>, video: bool, pass: Pass, tag: string)
    returns (r: seq<Document>)
    requires ValidPass(pass) && AllReady(docs, video)
    ensures r == Backfill(docs, dups, video, pass, tag)
  {
    r := docs;
    for i := 0 to |dups|
      invariant AllReady(r, video) && r == Backfill(docs, dups[..i], video, pass, tag)
    {
      assert dups[..i + 1][..i] == dups[..i];
      ghost var prev := r;
      ghost var next := BackfillOne(prev, dups[i], video, pass, tag);
      for k := 0 to |r|
        invariant |r| == |prev| && AllReady(r, video)
        invariant forall j :: 0 <= j < k ==> r[j] == next[j]
        invariant forall j :: k <= j < |r| ==> r[j] == prev[j]
      {
        if r[k].metadata[TitleKey] == Str(dups[i]) {
          r := r[k := Fill(r[k], video, pass, tag)];
        }
      }
      assert r == next;
    }
    assert dups[..|dups|] == dups;
  }

  lemma ReadyAppend(a: seq<Document>, b: seq<Document>, video: bool)
    requires AllReady(a, video) && AllReady(b, video)
    ensures AllReady(a + b, video)
  {
    forall k | 0 <= k < |a + b| ensures Ready((a + b)[k], video) {
      if k >= |a| {
        assert (a + b)[k] == b[k - |a|];
      }
    }
  }

  /** One folder of a pass, as `load_all_documents` works through it. */
  method VisitFolder(lib: Library, folder: string, pass: Pass, src: Sources) returns (r: Result<Library>)
    requires ValidPass(pass) && Valid(lib)
    ensures r == Step(lib, folder, pass, src)
  {
    var tag := LastSegment(folder, '/');
    var pdf := LoadPdfs(folder, lib.pdfs, src);
    var pdfs := lib.pdfs + pdf.added;
    var pages := lib.pages + pdf.chunks;
    var vid := LoadVideos(folder, lib.vids, src);
    if vid.Err? {
      return Err(vid.error);
    }
    var vids := lib.vids + vid.value.added;
    var chunks := lib.chunks + vid.value.chunks;
    assert pages[|lib.pages|..] == pdf.chunks && pages[..|lib.pages|] == lib.pages;
    assert chunks[|lib.chunks|..] == vid.value.chunks && chunks[..|lib.chunks|] == lib.chunks;
    var taggedPages := TagInPlace(pages, |lib.pages|, Tagger(false, pass, tag));
    if taggedPages.Err? {
      return Err(taggedPages.error);
    }
    var taggedChunks := TagInPlace(chunks, |lib.chunks|, Tagger(true, pass, tag));
    if taggedChunks.Err? {
      return Err(taggedChunks.error);
    }
    ReadyAppend(lib.pages, TagAll(pdf.chunks, false, pass, tag).value, false);
    ReadyAppend(lib.chunks, TagAll(vid.value.chunks, true, pass, tag).value, true);
    pages := BackfillInPlace(taggedPages.value, pdf.duplicates, false, pass, tag);
    chunks := BackfillInPlace(taggedChunks.value, vid.value.duplicates, true, pass, tag);
    r := Ok(Library(pdfs, pages, vids, chunks));
  }

  lemma {:induction false} FoldersErrSticks(lib: Library, folders: seq<string>, k: nat, pass: Pass, src: Sources)
    requires ValidPass(pass) && Valid(lib) && k <= |folders| && Folders(lib, folders[..k], pass, src).Err?
    ensures Folders(lib, folders, pass, src) == Folders(lib, folders[..k], pass, src)
    decreases |folders|
  {
    if k < |folders| {
      var init := folders[..|folders| - 1];
      assert init[..k] == folders[..k];
      FoldersErrSticks(lib, init, k, pass, src);
    } else {
      assert folders[..k] == folders;
    }
  }

  lemma FoldersSnoc(lib: Library, folders: seq<string>, j: nat, pass: Pass, src: Sources)
    requires ValidPass(pass) && Valid(lib) && j < |folders| && Folders(lib, folders[..j], pass, src).Ok?
    ensures Folders(lib, folders[..j + 1], pass, src) == Step(Folders(lib, folders[..j], pass, src).value, folders[j], pass, src)
  {
    assert folders[..j + 1][..j] == folders[..j];
  }

  lemma PassedSnoc(passes: seq<Pass>, p: nat, src: Sources)
    requires AllValid(passes) && p < |passes| && Passed(passes[..p], src).Ok?
    ensures AllValid(passes[..p + 1])
    ensures Passed(passes[..p + 1], src) == Folders(Passed(passes[..p], src).value, src.glob(passes[p].pattern), passes[p], src)
  {
    assert passes[..p + 1][..p] == passes[..p];
  }

  lemma {:induction false} PassedErrSticks(passes: seq<Pass>, k: nat, src: Sources)
    requires AllValid(passes) && k <= |passes| && Passed(passes[..k], src).Err?
    ensures Passed(passes, src) == Passed(passes[..k], src)
    decreases |passes|
  {
    if k < |passes| {
      var init := passes[..|passes| - 1];
      assert init[..k] == passes[..k];
      PassedErrSticks(init, k, src);
    } else {
      assert passes[..k] == passes;
    }
  }

  /** The loop over the folders of one pass. */
  method VisitFolders(lib: Library, folders: seq<string>, pass: Pass, src: Sources) returns (r: Result<Library>)
    requires ValidPass(pass) && Valid(lib)
    ensures r == Folders(lib, folders, pass, src)
  {
    var cur := lib;
    assert folders[..0] == [];
    for j := 0 to |folders|
      invariant Valid(cur) && Folders(lib, folders[..j], pass, src) == Ok(cur)
    {
      FoldersSnoc(lib, folders, j, pass, src);
      var next := VisitFolder(cur, folders[j], pass, src);
      if next.Err? {
        FoldersErrSticks(lib, folders, j + 1, pass, src);
        return Err(next.error);
      }
      cur := next.value;
    }
    assert folders[..|folders|] == folders;
    r := Ok(cur);
  }

  /** The passes in order. */
  method RunPasses(passes: seq<Pass>, src: Sources) returns (r: Result<Library>)
    requires AllValid(passes)
    ensures r == Passed(passes, src)
  {
    var lib := Library([], [], [], []);
    assert passes[..0] == [];
    for p := 0 to |passes|
      invariant Passed(passes[..p], src) == Ok(lib)
    {
      PassedSnoc(passes, p, src);
      var next := VisitFolders(lib, src.glob(passes[p].pattern), passes[p], src);
      if next.Err? {
        PassedErrSticks(passes, p + 1, src);
        return Err(next.error);
      }
      lib := next.value;
    }
    assert passes[..|passes|] == passes;
    r := Ok(lib);
  }

  /** `load_all_documents()`: the audience, resource-type and content passes. */
  method LoadAllDocuments(src: Sources) returns (r: Result<(seq<Document>, seq<Document>)>)
    ensures r == LoadAll(src)
  {
    PassesValid();
    var lib := RunPasses(Passes, src);
    if lib.Err? {
      return Err(lib.error);
    }
    r := Ok((lib.value.pages, lib.value.chunks));
  }

  /** The backfill changes only blank entries, keeps every title and the folder's own
      tag, and leaves alone every document whose title is not among the duplicates. */
  lemma {:induction false} BackfillKeeps(docs: seq<Document>, dups: seq<string>, video: bool, pass: Pass, tag: string)
    requires ValidPass(pass) && AllReady(docs, video)
    ensures var r := Backfill(docs, dups, video, pass, tag);
      forall k :: 0 <= k < |docs| ==>
        && Kept(docs[k], r[k])
        && r[k].metadata[TitleKey] == docs[k].metadata[TitleKey]
        && (docs[k].metadata[pass.key] == Str(tag) ==> r[k].metadata[pass.key] == Str(tag))
        && (video ==> r[k].metadata[StartSecondsKey] == docs[k].metadata[StartSecondsKey])
        && ((forall t :: t in dups ==> docs[k].metadata[TitleKey] != Str(t)) ==> r[k] == docs[k])
    decreases |dups|
  {
    if dups != [] {
      var n := |dups| - 1;
      var mid := Backfill(docs, dups[..n], video, pass, tag);
      BackfillKeeps(docs, dups[..n], video, pass, tag);
      var r := Backfill(docs, dups, video, pass, tag);
      assert r == BackfillOne(mid, dups[n], video, pass, tag);
      forall k | 0 <= k < |docs|
        ensures Kept(docs[k], r[k])
        ensures (forall t :: t in dups ==> docs[k].metadata[TitleKey] != Str(t)) ==> r[k] == docs[k]
      {
        if forall t :: t in dups ==> docs[k].metadata[TitleKey] != Str(t) {
          assert dups[n] in dups;
          forall t | t in dups[..n] ensures docs[k].metadata[TitleKey] != Str(t) {
            assert t in dups;
          }
        }
      }
    }
  }

  /** A stored page or chunk of a duplicate title whose pass key is missing or empty
      ends up with the folder's tag. */
  lemma {:induction false} BackfillFills(docs: seq<Document>, dups: seq<string>, video: bool, pass: Pass, tag: string, k: nat)
    requires ValidPass(pass) && AllReady(docs, video) && k < |docs|
    requires exists t :: t in dups && docs[k].metadata[TitleKey] == Str(t)
    requires Blank(docs[k].metadata, pass.key)
    ensures Backfill(docs, dups, video, pass, tag)[k].metadata[pass.key] == Str(tag)
    decreases |dups|
  {
    var n := |dups| - 1;
    var mid := Backfill(docs, dups[..n], video, pass, tag);
    if exists t :: t in dups[..n] && docs[k].metadata[TitleKey] == Str(t) {
      BackfillFills(docs, dups[..n], video, pass, tag, k);
    } else {
      BackfillKeeps(docs, dups[..n], video, pass, tag);
    }
  }

  /** A stored chunk of a duplicate title whose page is missing or empty ends up with its
      start time as page. */
  lemma {:induction false} BackfillFillsPage(docs: seq<Document>, dups: seq<string>, pass: Pass, tag: string, k: nat)
    requires ValidPass(pass) && AllReady(docs, true) && k < |docs|
    requires exists t :: t in dups && docs[k].metadata[TitleKey] == Str(t)
    requires Blank(docs[k].metadata, PageKey)
    ensures Backfill(docs, dups, true, pass, tag)[k].metadata[PageKey] == docs[k].metadata[StartSecondsKey]
    decreases |dups|
  {
    var n := |dups| - 1;
    var mid := Backfill(docs, dups[..n], true, pass, tag);
    if exists t :: t in dups[..n] && docs[k].metadata[TitleKey] == Str(t) {
      BackfillFillsPage(docs, dups[..n], pass, tag, k);
      BackfillKeeps(docs, dups[..n], true, pass, tag);
    } else {
      BackfillKeeps(docs, dups[..n], true, pass, tag);
    }
  }

  /** In a folder visit, a stored page whose PDF name came up again and whose pass key is
      missing or empty gets the folder's name as tag. */
  lemma StepFillsPages(lib: Library, folder: string, pass: Pass, src: Sources, k: nat)
    requires ValidPass(pass) && Valid(lib) && Step(lib, folder, pass, src).Ok? && k < |lib.pages|
    requires var pdf := Classified(src.glob(folder + "/*"), PdfRule(src.loadPages), lib.pdfs);
      pdf.Ok? && exists t :: t in pdf.value.duplicates && lib.pages[k].metadata[TitleKey] == Str(t)
    requires Blank(lib.pages[k].metadata, pass.key)
    ensures Step(lib, folder, pass, src).value.pages[k].metadata[pass.key] == Str(LastSegment(folder, '/'))
  {
    var tag := LastSegment(folder, '/');
    var pdf := Classified(src.glob(folder + "/*"), PdfRule(src.loadPages), lib.pdfs).value;
    var vid := Videos(folder, lib.vids, src).value;
    var newPages := TagAll(pdf.chunks, false, pass, tag).value;
    var all := lib.pages + newPages;
    ReadyAppend(lib.pages, newPages, false);
    assert all[k] == lib.pages[k];
    BackfillFills(all, pdf.duplicates, false, pass, tag, k);
  }

  /** In a folder visit, a stored chunk whose video id came up again gets the folder's
      name as tag where its pass key is missing or empty, and its start time as page
      where its page is missing or empty. */
  lemma StepFillsChunks(lib: Library, folder: string, pass: Pass, src: Sources, k: nat)
    requires ValidPass(pass) && Valid(lib) && Step(lib, folder, pass, src).Ok? && k < |lib.chunks|
    requires var vid := Videos(folder, lib.vids, src);
      vid.Ok? && exists t :: t in vid.value.duplicates && lib.chunks[k].metadata[TitleKey] == Str(t)
    ensures var c := Step(lib, folder, pass, src).value.chunks[k].metadata;
      && (Blank(lib.chunks[k].metadata, pass.key) ==> c[pass.key] == Str(LastSegment(folder, '/')))
      && (Blank(lib.chunks[k].metadata, PageKey) ==> c[PageKey] == lib.chunks[k].metadata[StartSecondsKey])
  {
    var tag := LastSegment(folder, '/');
    var pdf := Classified(src.glob(folder + "/*"), PdfRule(src.loadPages), lib.pdfs).value;
    var vid := Videos(folder, lib.vids, src).value;
    var newChunks := TagAll(vid.chunks, true, pass, tag).value;
    var all := lib.chunks + newChunks;
    ReadyAppend(lib.chunks, newChunks, true);
    assert all[k] == lib.chunks[k];
    if Blank(lib.chunks[k].metadata, pass.key) {
      BackfillFills(all, vid.duplicates, true, pass, tag, k);
    }
    if Blank(lib.chunks[k].metadata, PageKey) {
      BackfillFillsPage(all, vid.duplicates, pass, tag, k);
    }
  }

  /** `b` extends `a`: the title lists and the stored pages and chunks only grow, and a
      stored page or chunk only has blank entries filled in. */
  predicate Grows(a: Library, b: Library)
  {
    && a.pdfs <= b.pdfs && a.vids <= b.vids
    && |a.pages| <= |b.pages| && |a.chunks| <= |b.chunks|
    && (forall k :: 0 <= k < |a.pages| ==> Kept(a.pages[k], b.pages[k]))
    && (forall k :: 0 <= k < |a.chunks| ==> Kept(a.chunks[k], b.chunks[k]))
  }

  /** No PDF and no video is loaded twice. */
  predicate Distinct(lib: Library)
  {
    NoDuplicates(lib.pdfs) && NoDuplicates(lib.vids)
  }

  lemma DistinctAppend(a: seq<string>, b: seq<string>)
    requires NoDuplicates(a) && NoDuplicates(b) && forall t :: t in b ==> t !in a
    ensures NoDuplicates(a + b)
  {
    forall i, j | 0 <= i < j < |a + b| ensures (a + b)[i] != (a + b)[j] {
      if i < |a| && j >= |a| {
        assert (a + b)[j] == b[j - |a|];
        assert (a + b)[j] in b;
      } else if i >= |a| {
        assert (a + b)[i] == b[i - |a|] && (a + b)[j] == b[j - |a|];
      }
    }
  }

  /** What the videos of a folder add to the known ones: nothing repeated, nothing known. */
  lemma VideosDistinct(folder: string, existing: seq<string>, src: Sources)
    requires Videos(folder, existing, src).Ok?
    ensures var v := Videos(folder, existing, src).value;
      NoDuplicates(v.added) && forall t :: t in v.added ==> t !in existing
  {
    if YoutubeLoader.UrlFile in src.listdir(folder) {
      ClassifiedSpec(src.readLines(folder + "/" + YoutubeLoader.UrlFile),
                     YoutubeLoader.YoutubeRule(src.loadTranscript, LegacyChunkSeconds), existing);
    }
  }

  /** The stored pages (or chunks) with the new ones appended and the duplicates
      backfilled: the stored ones only have blanks filled in, the new ones keep the tag. */
  lemma AppendBackfill(stored: seq<Document>, added: seq<Document>, dups: seq<string>, video: bool, pass: Pass, tag: string)
    requires ValidPass(pass) && AllReady(stored, video) && AllReady(added, video)
    requires forall k :: 0 <= k < |added| ==> added[k].metadata[pass.key] == Str(tag)
    ensures AllReady(stored + added, video)
    ensures var r := Backfill(stored + added, dups, video, pass, tag);
      && |r| == |stored| + |added|
      && (forall k :: 0 <= k < |stored| ==> Kept(stored[k], r[k]))
      && (forall k :: |stored| <= k < |r| ==> r[k].metadata[pass.key] == Str(tag))
  {
    var all := stored + added;
    ReadyAppend(stored, added, video);
    BackfillKeeps(all, dups, video, pass, tag);
    forall k | |stored| <= k < |all| ensures all[k].metadata[pass.key] == Str(tag) {
      assert all[k] == added[k - |stored|];
    }
    forall k | 0 <= k < |stored| ensures all[k] == stored[k] {}
  }

  /** One folder: everything stored before is kept with only blanks filled in, every page
      and chunk loaded from the folder carries the folder's name under the pass's key,
      and no title is added twice. */
  lemma StepSpec(lib: Library, folder: string, pass: Pass, src: Sources)
    requires ValidPass(pass) && Valid(lib) && Step(lib, folder, pass, src).Ok?
    ensures var r := Step(lib, folder, pass, src).value;
      && Grows(lib, r)
      && (forall k :: |lib.pages| <= k < |r.pages| ==> r.pages[k].metadata[pass.key] == Str(LastSegment(folder, '/')))
      && (forall k :: |lib.chunks| <= k < |r.chunks| ==> r.chunks[k].metadata[pass.key] == Str(LastSegment(folder, '/')))
      && (Distinct(lib) ==> Distinct(r))
  {
    var tag := LastSegment(folder, '/');
    var paths := src.glob(folder + "/*");
    PdfLoaded(paths, src.loadPages, lib.pdfs);
    var pdf := Classified(paths, PdfRule(src.loadPages), lib.pdfs).value;
    var vid := Videos(folder, lib.vids, src).value;
    VideosDistinct(folder, lib.vids, src);
    var newPages := TagAll(pdf.chunks, false, pass, tag).value;
    var newChunks := TagAll(vid.chunks, true, pass, tag).value;
    assert Step(lib, folder, pass, src).value == Library(
      lib.pdfs + pdf.added,
      Backfill(lib.pages + newPages, pdf.duplicates, false, pass, tag),
      lib.vids + vid.added,
      Backfill(lib.chunks + newChunks, vid.duplicates, true, pass, tag));
    AppendBackfill(lib.pages, newPages, pdf.duplicates, false, pass, tag);
    AppendBackfill(lib.chunks, newChunks, vid.duplicates, true, pass, tag);
    if Distinct(lib) {
      DistinctAppend(lib.pdfs, pdf.added);
      DistinctAppend(lib.vids, vid.added);
    }
  }

  lemma GrowsTrans(a: Library, b: Library, c: Library)
    requires Grows(a, b) && Grows(b, c)
    ensures Grows(a, c)
  {
    forall k | 0 <= k < |a.pages| ensures Kept(a.pages[k], c.pages[k]) {
      assert Kept(b.pages[k], c.pages[k]);
    }
    forall k | 0 <= k < |a.chunks| ensures Kept(a.chunks[k], c.chunks[k]) {
      assert Kept(b.chunks[k], c.chunks[k]);
    }
  }

  /** The folders of a pass only add to what is stored, never a title twice. */
  lemma {:induction false} FoldersSpec(lib: Library, folders: seq<string>, pass: Pass, src: Sources)
    requires ValidPass(pass) && Valid(lib) && Folders(lib, folders, pass, src).Ok?
    ensures Grows(lib, Folders(lib, folders, pass, src).value)
    ensures Distinct(lib) ==> Distinct(Folders(lib, folders, pass, src).value)
    decreases |folders|
  {
    if folders != [] {
      var n := |folders| - 1;
      FoldersSpec(lib, folders[..n], pass, src);
      var prev := Folders(lib, folders[..n], pass, src).value;
      StepSpec(prev, folders[n], pass, src);
      GrowsTrans(lib, prev, Folders(lib, folders, pass, src).value);
    }
  }

  /** Over the whole load no PDF and no video is loaded twice. */
  lemma {:induction false} PassedDistinct(passes: seq<Pass>, src: Sources)
    requires AllValid(passes) && Passed(passes, src).Ok?
    ensures Distinct(Passed(passes, src).value)
    decreases |passes|
  {
    if passes != [] {
      var n := |passes| - 1;
      var init := passes[..n];
      PassedDistinct(init, src);
      FoldersSpec(Passed(init, src).value, src.glob(passes[n].pattern), passes[n], src);
    }
  }

  /** Over the whole load a later folder never overwrites an entry an earlier one set, and
      no PDF and no video is loaded twice. */
  lemma {:induction false} PassedSpec(passes: seq<Pass>, m: nat, src: Sources)
    requires AllValid(passes) && m <= |passes| && Passed(passes, src).Ok?
    ensures Passed(passes[..m], src).Ok? && Grows(Passed(passes[..m], src).value, Passed(passes, src).value)
    ensures Distinct(Passed(passes, src).value)
    decreases |passes|
  {
    PassedDistinct(passes, src);
    if m == |passes| {
      assert passes[..m] == passes;
    } else {
      var n := |passes| - 1;
      var init := passes[..n];
      var prev := Passed(init, src).value;
      assert init[..m] == passes[..m];
      PassedSpec(init, m, src);
      FoldersSpec(prev, src.glob(passes[n].pattern), passes[n], src);
      GrowsTrans(Passed(passes[..m], src).value, prev, Passed(passes, src).value);
    }
  }
}
