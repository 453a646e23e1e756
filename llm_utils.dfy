/** The answer parsing of backend/llm_utils.py: `parse_llm_response`, which returns the
    decoded JSON answer or, when the answer is not JSON, builds one search result per
    distinct source title. The loaders of the same file are in `LlmLoaders`. */
module LlmUtils {
  import opened Wrappers
  import opened Text
  import opened Docs

  /** The answer of the retrieval chain: its `result` text and its `source_documents`,
      either of which may be absent. */
  datatype QaResponse = QaResponse(result: Option<string>, sourceDocuments: Option<seq<Document>>)

  /** One fallback result: title and link are whatever the metadata holds. */
  datatype Entry = Entry(title: MetaValue, link: MetaValue, summary: string, citations: seq<Citation>)

  /** What `parse_llm_response` returns: the parsed JSON value, or the fallback results. */
  datatype Parsed<J> = Json(value: J) | Results(entries: seq<Entry>)

  const SummaryUnavailable := "Summary unavailable."

  /** The prompt asking for a summary of one source document. */
  function SummaryPrompt(query: string, content: string): string
  {
    "Based on the following content, provide a concise summary that answers the query: '"
      + query + "'\n\nContent:\n" + content
  }

  /** The title of the `i`-th source document: its metadata title, or "Source i+1". */
  function TitleAt(d: Document, i: nat): MetaValue
  {
    if TitleKey in d.metadata then d.metadata[TitleKey] else Str("Source " + NatToString(i + 1))
  }

  /** The summary of one document's content: the language model's answer to the
      summary prompt, stripped, or a fixed text when the call raises (`summarise`
      returns `None`). */
  function Summary(query: string, content: string, summarise: string -> Option<string>): string
  {
    match summarise(SummaryPrompt(query, content))
    case None => SummaryUnavailable
    case Some(s) => Strip(s)
  }

  /** The link of a document: its metadata source, or "#". */
  function LinkOf(d: Document): MetaValue
  {
    if SourceKey in d.metadata then d.metadata[SourceKey] else Str("#")
  }

  /** The result built from the `i`-th source document: its citation id is `i + 1`,
      its citation context the document's content. */
  function EntryAt(d: Document, i: nat, query: string, summarise: string -> Option<string>): Entry
  {
    Entry(TitleAt(d, i), LinkOf(d), Summary(query, d.pageContent, summarise), [Citation(NatToString(i + 1), d.pageContent)])
  }

  /** The titles of the source documents, defaults included: a document with a title
      keeps it, one without gets "Source i+1". */
  function DocTitles(docs: seq<Document>): (r: seq<MetaValue>)
    ensures |r| == |docs| && forall i :: 0 <= i < |docs| ==> r[i] == TitleAt(docs[i], i)
    ensures forall i :: 0 <= i < |docs| && TitleKey in docs[i].metadata ==> r[i] == docs[i].metadata[TitleKey]
    ensures forall i :: 0 <= i < |docs| && TitleKey !in docs[i].metadata ==> r[i] == Str("Source " + NatToString(i + 1))
  {
    seq(|docs|, i requires 0 <= i < |docs| => TitleAt(docs[i], i))
  }

  /** Two untitled documents never share a default title, so the fallback keeps both. */
  lemma DefaultTitlesDistinct(docs: seq<Document>, i: nat, j: nat)
    requires i < j < |docs| && TitleKey !in docs[i].metadata && TitleKey !in docs[j].metadata
    ensures DocTitles(docs)[i] != DocTitles(docs)[j]
  {
    var p := "Source ";
    var a, b := NatToString(i + 1), NatToString(j + 1);
    if p + a == p + b {
      assert a == (p + a)[|p|..] && b == (p + b)[|p|..];
      NatToStringRoundTrip(i + 1);
      NatToStringRoundTrip(j + 1);
      assert false;
    }
  }

  /** The fallback loop over the titles: the positions it builds a result for (the
      first of each title), or the error of a list-valued title, which cannot be put
      in a set. */
  function Firsts(titles: seq<MetaValue>): (r: Result<seq<nat>>)
    ensures r.Ok? ==> forall k :: 0 <= k < |r.value| ==> r.value[k] < |titles|
  {
    if titles == [] then Ok([])
    else
      var n := |titles| - 1;
      var prev := Firsts(titles[..n]);
      if prev.Err? then prev
      else if titles[n].Tags? then Err(TypeError("unhashable type: 'list'"))
      else if titles[n] in titles[..n] then prev
      else Ok(prev.value + [n])
  }

  /** The results built at the given positions. */
  function EntriesAt(docs: seq<Document>, ks: seq<nat>, query: string, summarise: string -> Option<string>): (r: seq<Entry>)
    requires forall k :: 0 <= k < |ks| ==> ks[k] < |docs|
    ensures |r| == |ks|
  {
    seq(|ks|, k requires 0 <= k < |ks| => EntryAt(docs[ks[k]], ks[k], query, summarise))
  }

  lemma EntriesAtSnoc(docs: seq<Document>, ks: seq<nat>, i: nat, query: string, summarise: string -> Option<string>)
    requires i < |docs| && forall k :: 0 <= k < |ks| ==> ks[k] < |docs|
    ensures EntriesAt(docs, ks + [i], query, summarise) == EntriesAt(docs, ks, query, summarise) + [EntryAt(docs[i], i, query, summarise)]
  {
    var a := EntriesAt(docs, ks + [i], query, summarise);
    var b := EntriesAt(docs, ks, query, summarise) + [EntryAt(docs[i], i, query, summarise)];
    forall k | 0 <= k < |a| ensures a[k] == b[k] {
      if k < |ks| {
        assert (ks + [i])[k] == ks[k];
      }
    }
  }

  /** The fallback results. */
  function Fallback(docs: seq<Document>, query: string, summarise: string -> Option<string>): Result<seq<Entry>>
  {
    match Firsts(DocTitles(docs))
    case Err(e) => Err(e)
    case Ok(ks) => Ok(EntriesAt(docs, ks, query, summarise))
  }

  /** What `parse_llm_response` returns. */
  function ParsedResponse<J>(
    query: string, response: QaResponse, parseJson: string -> Option<J>, summarise: string -> Option<string>)
    : Result<Parsed<J>>
  {
    if response.result.Some? && parseJson(response.result.value).Some? then
      Ok(Json(parseJson(response.result.value).value))
    else
      var docs := if response.sourceDocuments.Some? then response.sourceDocuments.value else [];
      match Fallback(docs, query, summarise)
      case Err(e) => Err(e)
      case Ok(entries) => Ok(Results(entries))
  }

  /** One more title on top of a prefix that did not raise. */
  lemma FirstsSnoc(titles: seq<MetaValue>, i: nat)
    requires i < |titles| && Firsts(titles[..i]).Ok?
    ensures titles[..i + 1] == titles[..i] + [titles[i]]
    ensures Firsts(titles[..i + 1]) ==
      if titles[i].Tags? then Err(TypeError("unhashable type: 'list'"))
      else if titles[i] in titles[..i] then Firsts(titles[..i])
      else Ok(Firsts(titles[..i]).value + [i])
  {
    assert titles[..i + 1][..i] == titles[..i];
  }

  lemma {:induction false} FirstsErrSticks(titles: seq<MetaValue>, k: nat)
    requires k <= |titles| && Firsts(titles[..k]).Err?
    ensures Firsts(titles) == Firsts(titles[..k])
    decreases |titles|
  {
    if k < |titles| {
      var init := titles[..|titles| - 1];
      assert init[..k] == titles[..k];
      FirstsErrSticks(init, k);
    } else {
      assert titles[..k] == titles;
    }
  }

  /** `parse_llm_response(query, response)`: the JSON value of the answer when it parses
      (`parseJson` stands for `json.loads`), otherwise the fallback results built from
      the source documents. */
  method ParseLlmResponse<J>(
    query: string, response: QaResponse, parseJson: string -> Option<J>, summarise: string -> Option<string>)
    returns (r: Result<Parsed<J>>)
    ensures r == ParsedResponse(query, response, parseJson, summarise)
  {
    if response.result.Some? {
      var parsed := parseJson(response.result.value);
      if parsed.Some? {
        return Ok(Json(parsed.value));
      }
    }
    var docs := if response.sourceDocuments.Some? then response.sourceDocuments.value else [];
    var built := BuildResults(docs, query, summarise);
    r := match built case Err(e) => Err(e) case Ok(entries) => Ok(Results(entries));
  }

  /** One iteration of the fallback loop on a title that is not a list. */
  lemma FallbackStep(docs: seq<Document>, ks: seq<nat>, i: nat)
    requires i < |docs| && Firsts(DocTitles(docs)[..i]) == Ok(ks)
    requires forall k :: 0 <= k < |ks| ==> ks[k] < i
    requires !DocTitles(docs)[i].Tags?
    ensures var titles := DocTitles(docs);
      && (forall t :: t in titles[..i + 1] <==> t in titles[..i] || t == titles[i])
      && (titles[i] in titles[..i] ==> Firsts(titles[..i + 1]) == Ok(ks))
      && (titles[i] !in titles[..i] ==> Firsts(titles[..i + 1]) == Ok(ks + [i]))
  {
    FirstsSnoc(DocTitles(docs), i);
  }

  /** The fallback loop stops at the first list-valued title. */
  lemma FallbackStops(docs: seq<Document>, i: nat, query: string, summarise: string -> Option<string>)
    requires i < |docs| && Firsts(DocTitles(docs)[..i]).Ok? && DocTitles(docs)[i].Tags?
    ensures Fallback(docs, query, summarise) == Err(TypeError("unhashable type: 'list'"))
  {
    FirstsSnoc(DocTitles(docs), i);
    FirstsErrSticks(DocTitles(docs), i + 1);
  }

  /** The fallback loop: one result per title not seen before, with the summary the
      language model gives (`summarise` returns `None` when it raises). */
  method BuildResults(docs: seq<Document>, query: string, summarise: string -> Option<string>)
    returns (r: Result<seq<Entry>>)
    ensures r == Fallback(docs, query, summarise)
  {
    ghost var titles := DocTitles(docs);
    ghost var ks: seq<nat> := [];
    var results: seq<Entry> := [];
    var seen: set<MetaValue> := {};
    for i := 0 to |docs|
      invariant Firsts(titles[..i]) == Ok(ks)
      invariant forall k :: 0 <= k < |ks| ==> ks[k] < i
      invariant results == EntriesAt(docs, ks, query, summarise)
      invariant forall t :: t in seen <==> t in titles[..i]
    {
      var title := TitleAt(docs[i], i);
      assert title == titles[i];
      if title.Tags? {
        FallbackStops(docs, i, query, summarise);
        return Err(TypeError("unhashable type: 'list'"));
      }
      FallbackStep(docs, ks, i);
      if title !in seen {
        EntriesAtSnoc(docs, ks, i, query, summarise);
        seen := seen + {title};
        var summary := Summary(query, docs[i].pageContent, summarise);
        var entry := Entry(title, LinkOf(docs[i]), summary, [Citation(NatToString(i + 1), docs[i].pageContent)]);
        assert entry == EntryAt(docs[i], i, query, summarise);
        results := results + [entry];
        ks := ks + [i];
      }
    }
    assert titles[..|docs|] == titles;
    r := Ok(results);
  }

  /** The fallback raises exactly when some title is a list. */
  lemma {:induction false} FirstsFail(titles: seq<MetaValue>)
    ensures Firsts(titles).Err? <==> exists i :: 0 <= i < |titles| && titles[i].Tags?
  {
    if titles != [] {
      var init := titles[..|titles| - 1];
      FirstsFail(init);
      forall i | 0 <= i < |init| ensures init[i] == titles[i] {}
    }
  }

  /** The positions kept are increasing, and a position is kept exactly when its
      title did not occur before it. */
  lemma {:induction false} FirstsSpec(titles: seq<MetaValue>)
    requires Firsts(titles).Ok?
    ensures var ks := Firsts(titles).value;
      && (forall a, b :: 0 <= a < b < |ks| ==> ks[a] < ks[b])
      && (forall i :: 0 <= i < |titles| ==> (i in ks <==> titles[i] !in titles[..i]))
  {
    if titles != [] {
      var n := |titles| - 1;
      var init := titles[..n];
      FirstsSpec(init);
      var prev := Firsts(init).value;
      var ks := Firsts(titles).value;
      assert n !in prev;
      forall i | 0 <= i < n ensures titles[..i] == init[..i] && titles[i] == init[i] {}
      assert titles[..n] == init;
      if titles[n] !in init {
        assert ks == prev + [n];
      }
    }
  }

  /** Every position has a first occurrence of its title at or before it. */
  lemma {:induction false} FirstOccurrence(titles: seq<MetaValue>, i: nat) returns (m: nat)
    requires i < |titles|
    ensures m <= i && titles[m] == titles[i] && titles[m] !in titles[..m]
    decreases i
  {
    if titles[i] in titles[..i] {
      var j :| 0 <= j < i && titles[..i][j] == titles[i];
      m := FirstOccurrence(titles, j);
    } else {
      m := i;
    }
  }

  /** The fallback raises exactly when some source document has a list-valued title. */
  lemma FallbackFails(docs: seq<Document>, query: string, summarise: string -> Option<string>)
    ensures Fallback(docs, query, summarise).Err? <==> exists i :: 0 <= i < |docs| && TitleAt(docs[i], i).Tags?
  {
    var titles := DocTitles(docs);
    FirstsFail(titles);
    if exists i :: 0 <= i < |docs| && TitleAt(docs[i], i).Tags? {
      var i :| 0 <= i < |docs| && TitleAt(docs[i], i).Tags?;
      assert titles[i].Tags?;
    }
  }

  /** The titles of a list of results. */
  function EntryTitles(entries: seq<Entry>): (r: seq<MetaValue>)
    ensures |r| == |entries| && forall k :: 0 <= k < |entries| ==> r[k] == entries[k].title
  {
    seq(|entries|, k requires 0 <= k < |entries| => entries[k].title)
  }

  /** The title of each result is the title of the document it was built from. */
  lemma EntriesTitles(docs: seq<Document>, ks: seq<nat>, query: string, summarise: string -> Option<string>)
    requires forall k :: 0 <= k < |ks| ==> ks[k] < |docs|
    ensures forall k :: 0 <= k < |ks| ==> EntryTitles(EntriesAt(docs, ks, query, summarise))[k] == DocTitles(docs)[ks[k]]
  {
  }

  /** The fallback results have distinct titles. */
  lemma FallbackDistinct(docs: seq<Document>, query: string, summarise: string -> Option<string>)
    requires Fallback(docs, query, summarise).Ok?
    ensures NoDuplicates(EntryTitles(Fallback(docs, query, summarise).value))
  {
    var titles := DocTitles(docs);
    FirstsSpec(titles);
    var ks := Firsts(titles).value;
    EntriesTitles(docs, ks, query, summarise);
    var names := EntryTitles(Fallback(docs, query, summarise).value);
    forall a, b | 0 <= a < b < |names| ensures names[a] != names[b] {
      assert ks[b] in ks;
      assert titles[ks[a]] in titles[..ks[b]];
    }
  }

  /** Each fallback result is built from a source document whose title did not occur
      before it; the document's position gives the citation id. */
  lemma FallbackFirsts(docs: seq<Document>, query: string, summarise: string -> Option<string>)
    requires Fallback(docs, query, summarise).Ok?
    ensures var entries := Fallback(docs, query, summarise).value;
      forall k :: 0 <= k < |entries| ==>
        exists i ::
          && 0 <= i < |docs| && entries[k] == EntryAt(docs[i], i, query, summarise)
          && TitleAt(docs[i], i) !in DocTitles(docs)[..i]
  {
    var titles := DocTitles(docs);
    FirstsSpec(titles);
    var ks := Firsts(titles).value;
    var entries := Fallback(docs, query, summarise).value;
    forall k | 0 <= k < |entries|
      ensures exists i ::
        && 0 <= i < |docs| && entries[k] == EntryAt(docs[i], i, query, summarise)
        && TitleAt(docs[i], i) !in DocTitles(docs)[..i]
    {
      var i := ks[k];
      assert i in ks;
      assert entries[k] == EntryAt(docs[i], i, query, summarise);
    }
  }

  /** Every source document's title has a fallback result. */
  lemma FallbackCovers(docs: seq<Document>, query: string, summarise: string -> Option<string>)
    requires Fallback(docs, query, summarise).Ok?
    ensures forall i :: 0 <= i < |docs| ==> TitleAt(docs[i], i) in EntryTitles(Fallback(docs, query, summarise).value)
  {
    var titles := DocTitles(docs);
    FirstsSpec(titles);
    var ks := Firsts(titles).value;
    EntriesTitles(docs, ks, query, summarise);
    var names := EntryTitles(Fallback(docs, query, summarise).value);
    forall i | 0 <= i < |docs| ensures TitleAt(docs[i], i) in names {
      var m := FirstOccurrence(titles, i);
      var k :| 0 <= k < |ks| && ks[k] == m;
      assert names[k] == titles[i];
    }
  }

  /** Of three titles whose first two agree, the first and the third are kept. */
  lemma FirstsExample(titles: seq<MetaValue>)
    requires |titles| == 3 && titles[0] == titles[1] != titles[2]
    requires !titles[0].Tags? && !titles[2].Tags?
    ensures Firsts(titles).Ok? && Firsts(titles).value == [0, 2]
  {
    assert titles[..0] == [];
    assert Firsts(titles[..0]) == Ok([]);
    FirstsSnoc(titles, 0);
    assert Firsts(titles[..1]).value == [0];
    assert titles[..1] == [titles[0]];
    assert titles[1] in titles[..1];
    FirstsSnoc(titles, 1);
    assert Firsts(titles[..2]).value == [0];
    assert titles[..2] == [titles[0], titles[1]];
    assert titles[2] !in titles[..2];
    FirstsSnoc(titles, 2);
    assert titles[..3] == titles;
  }

  /** Two documents titled "A" and an untitled third: the second "A" is skipped. */
  lemma FallbackExample(a: Document, b: Document, c: Document, query: string, summarise: string -> Option<string>)
    requires TitleKey in a.metadata && TitleKey in b.metadata && TitleKey !in c.metadata
    requires a.metadata[TitleKey] == b.metadata[TitleKey] == Str("A")
    ensures Fallback([a, b, c], query, summarise).Ok?
    ensures Fallback([a, b, c], query, summarise).value == [EntryAt(a, 0, query, summarise), EntryAt(c, 2, query, summarise)]
  {
    var docs := [a, b, c];
    ExampleTitles(a, b, c);
    FirstsExample(DocTitles(docs));
    var entries := EntriesAt(docs, [0, 2], query, summarise);
    assert Fallback(docs, query, summarise) == Ok(entries);
    assert entries == [EntryAt(a, 0, query, summarise), EntryAt(c, 2, query, summarise)];
  }

  lemma ExampleTitles(a: Document, b: Document, c: Document)
    requires TitleKey in a.metadata && TitleKey in b.metadata && TitleKey !in c.metadata
    requires a.metadata[TitleKey] == b.metadata[TitleKey] == Str("A")
    ensures var titles := DocTitles([a, b, c]);
      && |titles| == 3 && titles[0] == titles[1] != titles[2]
      && !titles[0].Tags? && !titles[2].Tags?
  {
    assert |("Source " + NatToString(3))| > 1;
  }

  /** An untitled third source document is titled "Source 3" and cited with id "3", its
      position among the sources rather than among the results. */
  lemma UntitledExample(c: Document, query: string, summarise: string -> Option<string>)
    requires TitleKey !in c.metadata
    ensures EntryAt(c, 2, query, summarise).title == Str("Source 3")
    ensures EntryAt(c, 2, query, summarise).citations == [Citation("3", c.pageContent)]
  {
    assert NatToString(3) == "3";
  }
}
