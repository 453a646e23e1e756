/** The context string handed to the language model (`format_docs` in backend/llm/utils.py). */
module LlmFormat {
  import opened Wrappers
  import opened Text
  import opened Docs

  /** The metadata keys an entry reads, in the order the f-string reads them. */
  const EntryKeys: seq<string> := [SourceKey, PageKey, TitleKey, CategoryKey, ResourceTypeKey, AudienceKey]

  /** The label each of those keys is printed under. */
  const EntryLabels: seq<string> := ["source", "page", "title", "nefac_category", "resource_type", "audience"]

  /** The first key of `keys` that `metadata` lacks, if any. */
  function FirstMissing(metadata: Metadata, keys: seq<string>): (r: Option<string>)
    ensures r.None? <==> forall i :: 0 <= i < |keys| ==> keys[i] in metadata
    ensures r.Some? ==> r.value in keys && r.value !in metadata
  {
    if keys == [] then None
    else if keys[0] !in metadata then Some(keys[0])
    else FirstMissing(metadata, keys[1..])
  }

  /** The key reported is the first missing one. */
  lemma {:induction false} FirstMissingAt(metadata: Metadata, keys: seq<string>, i: nat)
    requires i < |keys| && keys[i] !in metadata
    requires forall j :: 0 <= j < i ==> keys[j] in metadata
    ensures FirstMissing(metadata, keys) == Some(keys[i])
  {
    if i > 0 {
      FirstMissingAt(metadata, keys[1..], i - 1);
    }
  }

  predicate HasEntryKeys(d: Document)
  {
    forall i :: 0 <= i < |EntryKeys| ==> EntryKeys[i] in d.metadata
  }

  /** The seven lines of one document's entry: the content, then each of the six keys
      rendered after its label, in key order (`EntryLinesLabelled`). */
  function EntryLines(d: Document): (r: seq<string>)
    requires HasEntryKeys(d)
    ensures |r| == 1 + |EntryKeys| && r[0] == "content:" + d.pageContent
  {
    assert EntryKeys[0] == SourceKey && EntryKeys[1] == PageKey && EntryKeys[2] == TitleKey;
    assert EntryKeys[3] == CategoryKey && EntryKeys[4] == ResourceTypeKey && EntryKeys[5] == AudienceKey;
    var md := d.metadata;
    [ "content:" + d.pageContent,
      "source:" + Render(md[SourceKey]),
      "page:" + Render(md[PageKey]),
      "title:" + Render(md[TitleKey]),
      "nefac_category:" + Render(md[CategoryKey]),
      "resource_type:" + Render(md[ResourceTypeKey]),
      "audience:" + Render(md[AudienceKey]) ]
  }

  /** After the content line, line `i + 1` is the `i`-th key's label and its rendered value. */
  lemma EntryLinesLabelled(d: Document)
    requires HasEntryKeys(d)
    ensures forall i :: 0 <= i < |EntryKeys| ==>
      EntryLines(d)[i + 1] == EntryLabels[i] + ":" + Render(d.metadata[EntryKeys[i]])
  {
  }

  /** One document's entry, or the `KeyError` of the first metadata key it lacks. */
  function Entry(d: Document): (r: Result<string>)
    ensures r.Ok? <==> HasEntryKeys(d)
    ensures r.Err? ==> r.error.KeyError? && r.error.key in EntryKeys && r.error.key !in d.metadata
  {
    match FirstMissing(d.metadata, EntryKeys)
    case Some(key) => Err(KeyError(key))
    case None => Ok(Unlines(EntryLines(d)))
  }

  /** The entries of `docs` in order, stopping at the first document that raises. */
  function Entries(docs: seq<Document>): (r: Result<seq<string>>)
    ensures r.Ok? ==> |r.value| == |docs|
    ensures r.Err? ==> r.error.KeyError? && r.error.key in EntryKeys
  {
    if docs == [] then Ok([])
    else
      match Entries(docs[..|docs| - 1])
      case Err(e) => Err(e)
      case Ok(init) =>
        match Entry(docs[|docs| - 1])
        case Err(e) => Err(e)
        case Ok(last) => Ok(init + [last])
  }

  /** `format_docs(docs)`: the entries joined by blank lines. */
  function FormatDocs(docs: seq<Document>): (r: Result<string>)
    ensures r.Ok? <==> forall i :: 0 <= i < |docs| ==> HasEntryKeys(docs[i])
    ensures r.Err? ==> r.error.KeyError? && r.error.key in EntryKeys
    ensures docs == [] ==> r == Ok("")
  {
    EntriesOk(docs);
    match Entries(docs)
    case Err(e) => Err(e)
    case Ok(entries) => Ok(Join("\n\n", entries))
  }

  /** Formatting succeeds exactly when every document has the six keys. */
  lemma EntriesOk(docs: seq<Document>)
    ensures Entries(docs).Ok? <==> forall i :: 0 <= i < |docs| ==> HasEntryKeys(docs[i])
  {
    if Entries(docs).Ok? {
      EntriesOkHasKeys(docs);
    } else {
      EntriesErrMissesKeys(docs);
    }
  }

  lemma {:induction false} EntriesOkHasKeys(docs: seq<Document>)
    requires Entries(docs).Ok?
    ensures forall i :: 0 <= i < |docs| ==> HasEntryKeys(docs[i])
  {
    if docs != [] {
      var init := docs[..|docs| - 1];
      EntriesSnoc(docs);
      EntriesOkHasKeys(init);
      forall i | 0 <= i < |docs|
        ensures HasEntryKeys(docs[i])
      {
        if i < |init| {
          assert docs[i] == init[i];
        }
      }
    }
  }

  lemma {:induction false} EntriesErrMissesKeys(docs: seq<Document>)
    requires Entries(docs).Err?
    ensures exists i :: 0 <= i < |docs| && !HasEntryKeys(docs[i])
  {
    var init := docs[..|docs| - 1];
    EntriesSnoc(docs);
    if Entries(init).Err? {
      EntriesErrMissesKeys(init);
      var i :| 0 <= i < |init| && !HasEntryKeys(init[i]);
      assert docs[i] == init[i];
    } else {
      assert !HasEntryKeys(docs[|docs| - 1]);
    }
  }

  lemma EntriesSnoc(docs: seq<Document>)
    requires docs != []
    ensures var r := Entries(docs[..|docs| - 1]); var e := Entry(docs[|docs| - 1]);
      Entries(docs) == if r.Err? then Err(r.error) else if e.Err? then Err(e.error) else Ok(r.value + [e.value])
  {
  }

  /** A successful formatting has one entry per document, in input order. */
  lemma {:induction false} EntriesInOrder(docs: seq<Document>)
    requires Entries(docs).Ok?
    ensures |Entries(docs).value| == |docs|
    ensures forall i :: 0 <= i < |docs| ==> Entry(docs[i]).Ok? && Entries(docs).value[i] == Entry(docs[i]).value
  {
    if docs != [] {
      var init := docs[..|docs| - 1];
      EntriesSnoc(docs);
      EntriesInOrder(init);
      var all := Entries(docs).value;
      var prev := Entries(init).value;
      forall i | 0 <= i < |docs|
        ensures Entry(docs[i]).Ok? && all[i] == Entry(docs[i]).value
      {
        if i < |init| {
          assert docs[i] == init[i] && all[i] == prev[i];
        }
      }
    }
  }

  /** An empty list formats as the empty string. */
  lemma FormatDocsEmpty()
    ensures FormatDocs([]) == Ok("")
  {
  }

  /** A single document formats as its entry alone, with no separator. */
  lemma FormatDocsSingle(d: Document)
    ensures FormatDocs([d]) == Entry(d)
  {
    assert [d][..0] == [] && [d][0] == d;
    EntriesOk([d]);
    if Entry(d).Ok? {
      EntriesInOrder([d]);
      assert Entries([d]).value == [Entry(d).value];
    } else {
      assert Entries([]) == Ok([]);
    }
  }

  /** Appending a document appends a blank line and its entry. */
  lemma FormatDocsAppend(docs: seq<Document>, d: Document)
    requires docs != []
    requires FormatDocs(docs).Ok? && Entry(d).Ok?
    ensures FormatDocs(docs + [d]) == Ok(FormatDocs(docs).value + "\n\n" + Entry(d).value)
  {
    var all := docs + [d];
    assert all[..|all| - 1] == docs;
    JoinAppend("\n\n", Entries(docs).value, Entry(d).value);
    EntriesInOrder(docs);
  }

  /** The error raised for a document that lacks a key names the first missing key
      in field order. */
  lemma EntryMissingKey(d: Document, i: nat)
    requires i < |EntryKeys| && EntryKeys[i] !in d.metadata
    requires forall j :: 0 <= j < i ==> EntryKeys[j] in d.metadata
    ensures Entry(d) == Err(KeyError(EntryKeys[i]))
  {
    FirstMissingAt(d.metadata, EntryKeys, i);
  }

  /** The layout of an entry: when no value spans several lines, splitting it on newlines
      gives back the seven `label:value` lines in field order, then the empty piece after
      the final newline. */
  lemma EntryLayout(d: Document)
    requires HasEntryKeys(d)
    requires forall i :: 0 <= i < |EntryLines(d)| ==> '\n' !in EntryLines(d)[i]
    ensures Split(Entry(d).value, '\n') == EntryLines(d) + [""]
    ensures |Split(Entry(d).value, '\n')| == 8
  {
    SplitUnlines(EntryLines(d));
  }
}
