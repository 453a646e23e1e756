/** Walking the `docs/` tree and loading every tag folder
    (`load_all_documents` in backend/document/loader.py). */
module Loader {
  import opened Wrappers
  import opened Text
  import opened Docs

  /** The metadata field a top-level folder name tags, or "" for any other folder. */
  function TagType(tagTitle: string): (r: string)
    ensures r == AudienceKey <==> tagTitle == "by_audience"
    ensures r == CategoryKey <==> tagTitle == "by_content"
    ensures r == ResourceTypeKey <==> tagTitle == "by_resource"
    ensures r == "" <==> tagTitle !in {"by_audience", "by_content", "by_resource"}
  {
    if tagTitle == "by_audience" then AudienceKey
    else if tagTitle == "by_content" then CategoryKey
    else if tagTitle == "by_resource" then ResourceTypeKey
    else ""
  }

  /** The top-level folder that tags a given field. */
  function TagFolder(key: string): (r: string)
    requires IsTagKey(key)
  {
    if key == AudienceKey then "by_audience"
    else if key == CategoryKey then "by_content"
    else "by_resource"
  }

  /** Every tag field has exactly one folder, and the mapping goes back and forth. */
  lemma TagTypeRoundTrip(key: string, tagTitle: string)
    requires IsTagKey(key)
    ensures TagType(TagFolder(key)) == key
    ensures TagType(tagTitle) != "" ==> IsTagKey(TagType(tagTitle)) && TagFolder(TagType(tagTitle)) == tagTitle
  {
  }

  type Index = map<string, seq<Document>>

  /** One loader call of the inner loop: the folder and its tag field. The tag is the
      folder's own name. */
  datatype Visit = Visit(folder: string, tagType: string, tag: string)

  /** The directories among the entries of `docs/`. */
  function Directories(entries: seq<string>, isDir: string -> bool): (r: seq<string>)
    ensures forall p :: p in r <==> p in entries && isDir(p)
  {
    if entries == [] then []
    else
      var init := Directories(entries[..|entries| - 1], isDir);
      var last := entries[|entries| - 1];
      assert entries == entries[..|entries| - 1] + [last];
      if isDir(last) then init + [last] else init
  }

  /** The loader calls made for one top-level directory: one per entry of its listing,
      tagged by the directory's own name. */
  function VisitsOf(path: string, listing: string -> seq<string>): (r: seq<Visit>)
    ensures |r| == |listing(path)|
  {
    VisitsWith(listing(path), TagType(LastSegment(path, '/')))
  }

  /** One loader call per folder, all with the same tag field. */
  function VisitsWith(folders: seq<string>, tagType: string): (r: seq<Visit>)
    ensures |r| == |folders|
    ensures forall j :: 0 <= j < |folders| ==> r[j] == Visit(folders[j], tagType, LastSegment(folders[j], '/'))
  {
    seq(|folders|, j requires 0 <= j < |folders| => Visit(folders[j], tagType, LastSegment(folders[j], '/')))
  }

  /** The loader calls for a list of top-level directories, directory by directory. */
  function Visits(paths: seq<string>, listing: string -> seq<string>): seq<Visit>
  {
    if paths == [] then []
    else Visits(paths[..|paths| - 1], listing) + VisitsOf(paths[|paths| - 1], listing)
  }

  /** Every loader call is for an entry of a top-level directory's listing, with the
      directory's tag field and the entry's own name as the tag. */
  lemma {:induction false} VisitsFromListings(paths: seq<string>, listing: string -> seq<string>, v: Visit)
    requires v in Visits(paths, listing)
    ensures exists p ::
      && p in paths && v.folder in listing(p)
      && v.tagType == TagType(LastSegment(p, '/'))
  {
    var init := paths[..|paths| - 1];
    var last := paths[|paths| - 1];
    if v in Visits(init, listing) {
      VisitsFromListings(init, listing, v);
      var p :| p in init && v.folder in listing(p) && v.tagType == TagType(LastSegment(p, '/'));
      assert p in paths;
    } else {
      var j :| 0 <= j < |VisitsOf(last, listing)| && VisitsOf(last, listing)[j] == v;
      assert last in paths;
    }
  }

  /** The loader of the call: given a folder, the index, a tag field and a tag, the
      titles it reports as new and the index it leaves behind. */
  type PdfLoaderFn = (string, Index, string, string) -> (set<string>, Index)

  /** `all_documents` and `title_to_chunks` after a sequence of loader calls. */
  function Run(visits: seq<Visit>, index: Index, pdfLoader: PdfLoaderFn): (set<string>, Index)
  {
    if visits == [] then ({}, index)
    else
      var prev := Run(visits[..|visits| - 1], index, pdfLoader);
      var v := visits[|visits| - 1];
      var loaded := pdfLoader(v.folder, prev.1, v.tagType, v.tag);
      (prev.0 + loaded.0, loaded.1)
  }

  /** The title sets the loader calls return, in call order. */
  function Returned(visits: seq<Visit>, index: Index, pdfLoader: PdfLoaderFn): (r: seq<set<string>>)
    ensures |r| == |visits|
  {
    if visits == [] then []
    else
      var idx := Run(visits[..|visits| - 1], index, pdfLoader).1;
      var v := visits[|visits| - 1];
      Returned(visits[..|visits| - 1], index, pdfLoader) + [pdfLoader(v.folder, idx, v.tagType, v.tag).0]
  }

  /** The union of a list of sets. */
  function Union(sets: seq<set<string>>): set<string>
  {
    if sets == [] then {} else Union(sets[..|sets| - 1]) + sets[|sets| - 1]
  }

  lemma {:induction false} UnionMembers(sets: seq<set<string>>, t: string)
    ensures t in Union(sets) <==> exists i :: 0 <= i < |sets| && t in sets[i]
  {
    if sets != [] {
      var init := sets[..|sets| - 1];
      UnionMembers(init, t);
      if t in Union(init) {
        var i :| 0 <= i < |init| && t in init[i];
        assert sets[i] == init[i];
      }
      if exists i :: 0 <= i < |sets| && t in sets[i] {
        var i :| 0 <= i < |sets| && t in sets[i];
        if i < |init| {
          assert init[i] == sets[i];
        }
      }
    }
  }

  /** `all_documents` is the union of the sets the loader calls returned. */
  lemma {:induction false} RunUnion(visits: seq<Visit>, index: Index, pdfLoader: PdfLoaderFn)
    ensures Run(visits, index, pdfLoader).0 == Union(Returned(visits, index, pdfLoader))
  {
    if visits != [] {
      var init := visits[..|visits| - 1];
      RunUnion(init, index, pdfLoader);
      var r := Returned(visits, index, pdfLoader);
      assert r[..|init|] == Returned(init, index, pdfLoader);
    }
  }

  lemma RunSnoc(visits: seq<Visit>, v: Visit, index: Index, pdfLoader: PdfLoaderFn)
    ensures var prev := Run(visits, index, pdfLoader);
      var loaded := pdfLoader(v.folder, prev.1, v.tagType, v.tag);
      Run(visits + [v], index, pdfLoader) == (prev.0 + loaded.0, loaded.1)
  {
    assert (visits + [v])[..|visits|] == visits;
  }

  lemma RunStep(done: seq<Visit>, v: Visit, index0: Index, pdfLoader: PdfLoaderFn,
    docs: set<string>, index: Index, loaded: (set<string>, Index))
    requires (docs, index) == Run(done, index0, pdfLoader)
    requires loaded == pdfLoader(v.folder, index, v.tagType, v.tag)
    ensures (docs + loaded.0, loaded.1) == Run(done + [v], index0, pdfLoader)
  {
    assert (done + [v])[..|done|] == done;
  }

  /** One pass of the inner loop: every folder of one top-level directory, with the
      directory's tag field. */
  method LoadAllInPath(
    folders: seq<string>, tagType: string, pdfLoader: PdfLoaderFn,
    docs: set<string>, index: Index, ghost before: seq<Visit>, ghost index0: Index)
    returns (docs': set<string>, index': Index)
    requires (docs, index) == Run(before, index0, pdfLoader)
    ensures (docs', index') == Run(before + VisitsWith(folders, tagType), index0, pdfLoader)
  {
    ghost var visits := VisitsWith(folders, tagType);
    ghost var done := before;
    docs', index' := docs, index;
    var j := 0;
    while j < |folders|
      invariant 0 <= j <= |folders|
      invariant done == before + visits[..j]
      invariant (docs', index') == Run(done, index0, pdfLoader)
    {
      var v := Visit(folders[j], tagType, LastSegment(folders[j], '/'));
      var loaded := pdfLoader(v.folder, index', v.tagType, v.tag);
      RunStep(done, v, index0, pdfLoader, docs', index', loaded);
      docs', index' := docs' + loaded.0, loaded.1;
      done := done + [v];
      assert visits[..j + 1] == visits[..j] + [v];
      j := j + 1;
    }
    assert visits[..j] == visits;
  }

  /** The chunks of every loaded title, title by title in the set's iteration order
      (which Python leaves unspecified), or the `KeyError` of a title the index lacks. */
  method ChunksOf(documents: set<string>, index: Index) returns (r: Result<seq<Document>>, ghost order: seq<string>)
    ensures r.Ok? <==> documents <= index.Keys
    ensures r.Ok? ==>
      && NoDuplicates(order) && (forall t :: t in order <==> t in documents)
      && r.value == Flatten(seq(|order|, i requires 0 <= i < |order| && order[i] in index => index[order[i]]))
    ensures r.Err? ==> r.error.KeyError? && r.error.key in documents && r.error.key !in index
  {
    var remaining := documents;
    var chunks: seq<Document> := [];
    order := [];
    while remaining != {}
      invariant remaining <= documents
      invariant forall t :: t in order <==> t in documents && t !in remaining
      invariant NoDuplicates(order)
      invariant forall t :: t in order ==> t in index
      invariant chunks == Flatten(seq(|order|, i requires 0 <= i < |order| && order[i] in index => index[order[i]]))
      decreases remaining
    {
      var t :| t in remaining;
      if t !in index {
        return Err(KeyError(t)), order;
      }
      ghost var lists := seq(|order|, i requires 0 <= i < |order| && order[i] in index => index[order[i]]);
      order := order + [t];
      ghost var grown := seq(|order|, i requires 0 <= i < |order| && order[i] in index => index[order[i]]);
      assert grown[..|grown| - 1] == lists;
      chunks := chunks + index[t];
      remaining := remaining - {t};
    }
    r := Ok(chunks);
  }

  /** Every title in `documents` is indexed, and `chunks` is the concatenation of
      their chunk lists, each title taken once, in some order (Python's set
      iteration order). */
  ghost predicate ChunksInSomeOrder(chunks: seq<Document>, documents: set<string>, index: Index)
  {
    && documents <= index.Keys
    && exists order: seq<string> ::
      && NoDuplicates(order) && (forall t :: t in order <==> t in documents)
      && chunks == Flatten(seq(|order|, i requires 0 <= i < |order| && order[i] in index => index[order[i]]))
  }

  /** The documents pass of `load_all_documents` with a four-argument `pdfLoader`:
      every directory directly under `docs/` is walked, each of its entries is handed
      to the loader with the directory's tag field, and the chunks of every new title
      are gathered. `entries` lists `docs`, `isDir` and `listing` stand for
      the file system. */
  method LoadAllDocuments(
    entries: seq<string>, isDir: string -> bool, listing: string -> seq<string>, pdfLoader: PdfLoaderFn)
    returns (r: Result<(seq<Document>, set<string>)>)
    ensures var (allDocuments, index) := Run(Visits(Directories(entries, isDir), listing), map[], pdfLoader);
      && (r.Ok? <==> allDocuments <= index.Keys)
      && (r.Ok? ==> r.value.1 == allDocuments && ChunksInSomeOrder(r.value.0, allDocuments, index))
      && (r.Err? ==> r.error.KeyError? && r.error.key in allDocuments && r.error.key !in index)
  {
    var allPaths := Directories(entries, isDir);
    var docs: set<string> := {};
    var idx: Index := map[];
    var i := 0;
    while i < |allPaths|
      invariant 0 <= i <= |allPaths|
      invariant (docs, idx) == Run(Visits(allPaths[..i], listing), map[], pdfLoader)
    {
      assert allPaths[..i + 1][..i] == allPaths[..i];
      var tagType := TagType(LastSegment(allPaths[i], '/'));
      docs, idx := LoadAllInPath(listing(allPaths[i]), tagType, pdfLoader, docs, idx, Visits(allPaths[..i], listing), map[]);
      i := i + 1;
    }
    assert allPaths[..i] == allPaths;
    var chunks, order := ChunksOf(docs, idx);
    if chunks.Err? {
      return Err(chunks.error);
    }
    r := Ok((chunks.value, docs));
  }

  /** `load_all_documents` as written: its inner loop calls the live two-parameter
      `pdfLoader(pdf_path, title_to_chunks)` with four arguments, which Python rejects
      before the loader runs. The result is a `TypeError` as soon as any top-level
      directory has an entry, and nothing otherwise. */
  function LoadAllDocumentsAsWritten(
    entries: seq<string>, isDir: string -> bool, listing: string -> seq<string>): (r: Result<(seq<Document>, set<string>)>)
    ensures r.Ok? ==> r.value == ([], {})
    ensures r.Err? ==> r.error.TypeError?
    ensures entries == [] ==> r == Ok(([], {}))
  {
    if Visits(Directories(entries, isDir), listing) != [] then
      Err(TypeError("pdfLoader() takes 2 positional arguments but 4 were given"))
    else Ok(([], {}))
  }

  /** Any tag folder at all makes the written call fail. */
  lemma {:induction false} AsWrittenFails(
    entries: seq<string>, isDir: string -> bool, listing: string -> seq<string>, p: string)
    requires p in entries && isDir(p) && listing(p) != []
    ensures LoadAllDocumentsAsWritten(entries, isDir, listing).Err?
  {
    var paths := Directories(entries, isDir);
    assert p in paths;
    var k :| 0 <= k < |paths| && paths[k] == p;
    VisitsContain(paths, k, listing);
  }

  lemma {:induction false} VisitsContain(paths: seq<string>, k: nat, listing: string -> seq<string>)
    requires k < |paths|
    ensures |Visits(paths, listing)| >= |listing(paths[k])|
  {
    var init := paths[..|paths| - 1];
    if k < |init| {
      VisitsContain(init, k, listing);
    }
  }
}
