# NEFAC legal-resource chatbot: a Dafny model of its retrieval and ingestion core

The NEFAC chatbot answers questions about open-government law from a library of
PDF guides and YouTube transcripts. Each document is tagged by audience, content
category and resource type. This project models the parts of the Python back end
that are plain logic, not calls into LangChain, OpenAI, FAISS or AWS:

- **query translation**:
  - reciprocal rank fusion and its empty-result guard (`RagFusion`);
  - the unique union of several retrievals (`MultiQuery`);
  - the sequential sub-question loop of decomposition (`Decomposition`);
- **retrieval filtering**: the metadata filter built from the three optional tag
  constraints (`VectorFilter`);
- **answer shaping**:
  - `format_docs` (`LlmFormat`);
  - the routing of `ask_llm` (`LlmMain`);
  - the JSON-or-fallback parse of an LLM answer, with its de-duplication by title
    (`LlmUtils`);
- **ingestion**:
  - the PDF loaders (`PdfLoader`, the title-index loader of `backend/document`);
  - the `yt_urls.txt` loaders (`YoutubeLoader`, plus the shared classification in
    `Ingest`);
  - the directory walk of `backend/document/loader.py` (`Loader`);
  - the three-pass `load_all_documents` of `backend/llm_utils.py` with its tagging
    and backfilling of duplicates (`LlmLoaders`);
- **the text-processing Lambda**: fixed-size and sentence-packed chunking,
  placeholder embeddings, the PCA guard and the handler's 400/200/500 responses
  (`TextProcessor`).

Shared modules:

- `Wrappers`: `Option`, `Result` and the Python exceptions the model raises.
- `Text`: Python's `split`, `join`, `strip`, `replace` and `str(int)` over
  `seq<char>`.
- `Docs`: `Document` with its metadata map, plus `Flatten` and `Dedup`.

A document is a value: page content plus a map from metadata keys to a string, an
integer or a list of strings.

Anything the code calls but cannot itself decide is a function-typed parameter of
the Dafny member:

- the LLM, the retriever and the PDF and transcript loaders;
- `glob`, `os.listdir` and `readlines`;
- `hash`, `json.loads`, PCA and spaCy's sentence splitter.

Loops that update variables are Dafny methods (`ReciprocalRankFusion`,
`ProcessSubQuestions`, `BuildResults`, `PackSentences`, `Partition`,
`LoadAllDocuments`, …). Each is proved equal to a recursive specification function,
and the properties the code promises are proved about those functions. The
title-to-chunks dictionary that `pdfLoader` updates in place is the field of a class
(`PdfLoader.TitleIndex`).

Where two parts of the code disagree, each part is modelled as written:

- The YouTube chunk length is 60 seconds in `backend/document/youtube_loader.py:29`
  and 30 seconds in `backend/llm_utils.py:256`. Each loader uses its own value.
- `backend/document/loader.py:25` calls a four-argument `pdfLoader` that no longer
  exists (see Findings).

## Model

| member | source | states |
|---|---|---|
| Docs.FlattenMembers | backend/llm/query_translation/multi_query.py:23 | an element is in the flattened list exactly when it is in one of the inner lists |
| Docs.FlattenEmpty | backend/llm/query_translation/multi_query.py:23 | the flattening is empty exactly when every inner list is empty |
| Docs.DedupSnoc | backend/llm/query_translation/rag_fusion.py:33-34 | first-occurrence de-duplication keeps the old list when a repeat arrives and appends a newcomer |
| Docs.DedupMembers | backend/llm/query_translation/multi_query.py:25 | de-duplication keeps exactly the elements of its input |
| Docs.DedupSpec | backend/llm/query_translation/multi_query.py:25 | de-duplication has no repeats, the same members, and is no longer than its input |
| Docs.DistinctLength | backend/llm/query_translation/multi_query.py:25 | a repeat-free list is as long as the set of its elements |
| Docs.RenderShape | backend/llm/utils.py:20 | a string field is printed as it is, a tag list in brackets, `[]` when empty, a single tag as its `repr` |
| Docs.Repr | backend/llm/utils.py:20 | a list element is printed by `repr`: quoted with matching quotes at both ends, on one line, never shorter than the element plus its quotes |
| Docs.ReprApostrophe | backend/llm/utils.py:20 | an element holding `'` and no `"` is printed in double quotes |
| Docs.ReprEscapes | backend/llm/utils.py:20 | a backslash is doubled, and an element with both quote kinds is single-quoted with its `'` escaped |
| Text.JoinAppend | backend/llm/utils.py:20 | joining one more part adds the separator and the part at the end |
| Text.JoinPrepend | backend/llm/utils.py:20 | joining with a part in front puts the part and the separator before the rest |
| Text.Split | backend/llm/query_translation/decomposition.py:26 | Python's `str.split(c)` always yields at least one piece |
| Text.SplitCount | backend/llm/query_translation/decomposition.py:26 | the number of pieces is one more than the number of separators |
| Text.SplitPiecesFree | backend/llm/query_translation/decomposition.py:26 | no piece contains the separator |
| Text.SplitJoin | backend/llm/query_translation/decomposition.py:26 | joining the pieces with the separator gives back the original string |
| Text.SplitWhole | backend/document/youtube_loader.py:21 | a string without the separator splits into itself alone |
| Text.SplitAtFirst | backend/document/youtube_loader.py:21 | splitting cuts at the first separator and splits the remainder |
| Text.SplitUnlines | backend/llm/utils.py:20 | newline-terminated lines without inner newlines split back into those lines and a trailing empty piece |
| Text.LastSegmentSuffix | backend/llm_utils.py:223 | `split(c)[-1]` is a separator-free suffix of the string |
| Text.LastSegmentSnoc | backend/llm_utils.py:223 | appending a non-separator character extends the last segment |
| Text.LastSegmentOfJoin | backend/llm_utils.py:223 | the last segment of `dir/name` is `name` when the name has no separator |
| Text.LStripSpec | backend/document/pdf_loader.py:36 | left strip removes exactly the leading whitespace |
| Text.RStripSpec | backend/document/pdf_loader.py:36 | right strip removes exactly the trailing whitespace |
| Text.StripSlice | backend/document/pdf_loader.py:36 | `strip()` is the middle slice whose ends are not whitespace, with only whitespace cut off on either side |
| Text.StripAvoids | backend/document/pdf_loader.py:36 | stripping introduces no character and never lengthens |
| Text.StripTrimmed | backend/document/pdf_loader.py:36 | a string with non-space ends is its own strip |
| Text.StripIdempotent | backend/document/pdf_loader.py:36 | stripping twice is stripping once |
| Text.ReplaceChar | backend/document/pdf_loader.py:36 | after `replace('_', ' ')` no underscore is left, no character appears that is neither a space nor from the name, the length is kept, and a name without underscores is unchanged |
| Text.ReplaceAllShrinks | backend/document/pdf_loader.py:36 | replacing a pattern by something no longer never lengthens the string |
| Text.ReplaceAllAvoids | backend/document/pdf_loader.py:36 | a character absent from the string and from the replacement is absent from the result |
| Text.DigitChar | backend/llm_utils.py:209 | a digit below ten becomes the character of that digit |
| Text.NatToString | backend/llm_utils.py:209 | `str(n)` is a non-empty run of digits |
| Text.NatToStringRoundTrip | backend/llm_utils.py:209 | reading the digits of `str(n)` gives back `n` |
| Text.NatToStringInjective | backend/llm_utils.py:191 | different positions give different `Source n` labels and citation ids |
| RagFusion.Contribution | backend/llm/query_translation/rag_fusion.py:38 | every `1 / (rank + k)` term is positive |
| RagFusion.ListScoreStep | backend/llm/query_translation/rag_fusion.py:29-38 | scoring one more rank adds `1 / (rank + k)` to that document and nothing to any other |
| RagFusion.ListScoreAbsent | backend/llm/query_translation/rag_fusion.py:33-38 | a document missing from a list gets nothing from it |
| RagFusion.FusedScoreAbsent | backend/llm/query_translation/rag_fusion.py:27-38 | a document retrieved by no query has fused score 0 |
| RagFusion.FusedScoreSnoc | backend/llm/query_translation/rag_fusion.py:27-38 | one more result list adds exactly its own list score to every document |
| RagFusion.FusedScoresComplete | backend/llm/query_translation/rag_fusion.py:24-38 | a dictionary keyed by exactly the seen documents and holding their fused scores is the fused-score table |
| RagFusion.FusedScoresCoverOrder | backend/llm/query_translation/rag_fusion.py:33-34 | every document in first-seen order has a score |
| RagFusion.Fused | backend/llm/query_translation/rag_fusion.py:19-44 | the reranked list is a permutation of the first-seen documents, in non-increasing fused score |
| RagFusion.FusedScorePositive | backend/llm/query_translation/rag_fusion.py:27-38 | fused scores are non-negative, and positive exactly for documents some query retrieved |
| RagFusion.ListScorePositive | backend/llm/query_translation/rag_fusion.py:29-38 | a list score is positive exactly for documents in that list |
| RagFusion.ListScorePair | backend/llm/query_translation/rag_fusion.py:29-38 | the score from a two-element list, worked out |
| RagFusion.Insert | backend/llm/query_translation/rag_fusion.py:41 | inserting into the sorted prefix adds exactly that document (as a multiset) |
| RagFusion.SortByScoreDesc | backend/llm/query_translation/rag_fusion.py:41 | the sort's output is scored like its input |
| RagFusion.SortPermutation | backend/llm/query_translation/rag_fusion.py:41 | `sorted` returns a permutation of the dictionary's items |
| RagFusion.InsertSorted | backend/llm/query_translation/rag_fusion.py:41 | insertion keeps a descending list descending |
| RagFusion.SortSorted | backend/llm/query_translation/rag_fusion.py:41 | the output is in non-increasing score order (`reverse=True`) |
| RagFusion.TiedAppend | backend/llm/query_translation/rag_fusion.py:41 | the documents of one score in a concatenation are those of each part, in order |
| RagFusion.TiedNone | backend/llm/query_translation/rag_fusion.py:41 | a list whose scores are all below `v` has no document of score `v` |
| RagFusion.TiedCons | backend/llm/query_translation/rag_fusion.py:41 | the documents of score `v` in `x + rest` are `x` (if it scores `v`) followed by those of `rest` |
| RagFusion.TiedBehind | backend/llm/query_translation/rag_fusion.py:41 | putting the same document in front of two lists keeps one's tied documents a prefix of the other's |
| RagFusion.SortedBelow | backend/llm/query_translation/rag_fusion.py:41 | a descending list headed below `v` has no document of score `v` |
| RagFusion.SortedTail | backend/llm/query_translation/rag_fusion.py:41 | the tail of a descending list is descending |
| RagFusion.InsertStable | backend/llm/query_translation/rag_fusion.py:41 | insertion puts a document after every document of equal score |
| RagFusion.SortStable | backend/llm/query_translation/rag_fusion.py:41 | Python's sort is stable: documents of equal score keep their first-seen order |
| RagFusion.SortMembers | backend/llm/query_translation/rag_fusion.py:41 | the sort keeps exactly its input's members |
| RagFusion.InsertDistinct | backend/llm/query_translation/rag_fusion.py:41 | inserting a new document into a repeat-free list keeps it repeat-free |
| RagFusion.SortDistinct | backend/llm/query_translation/rag_fusion.py:41 | sorting a repeat-free list keeps it repeat-free |
| RagFusion.AddOneOrder | backend/llm/query_translation/rag_fusion.py:33-34 | adding a key only when it is new keeps the dictionary's order equal to first-seen order |
| RagFusion.AddOneStep | backend/llm/query_translation/rag_fusion.py:29-38 | one inner iteration keeps the table equal to the fused scores of everything seen so far |
| RagFusion.AddListScores | backend/llm/query_translation/rag_fusion.py:29-38 | the inner loop over one result list leaves the table holding the fused scores of all lists so far, keyed in first-seen order |
| RagFusion.ReciprocalRankFusion | backend/llm/query_translation/rag_fusion.py:19-44 | the nested loops and the sort return the first-seen documents stably sorted by fused score, with scores as exact rationals |
| RagFusion.FusedMembers | backend/llm/query_translation/rag_fusion.py:19-44 | the reranked list holds every retrieved document exactly once and nothing else |
| RagFusion.FusedSorted | backend/llm/query_translation/rag_fusion.py:41-44 | the reranked list is in non-increasing fused score |
| RagFusion.FusedStable | backend/llm/query_translation/rag_fusion.py:41-44 | documents of equal fused score appear in the order they were first retrieved |
| RagFusion.ExampleDedup | backend/llm/query_translation/rag_fusion.py:33-34 | a repeat seen later does not move a document |
| RagFusion.ExampleOrder | backend/llm/query_translation/rag_fusion.py:27-34 | results `[[a,b],[b,c]]` are first seen in the order a, b, c |
| RagFusion.ExampleScores | backend/llm/query_translation/rag_fusion.py:38 | with k = 60 these score 1/60 + 1/61, 1/60 and 1/61 |
| RagFusion.ExampleSort | backend/llm/query_translation/rag_fusion.py:41 | three documents of distinct scores are sorted by descending score |
| RagFusion.FusionExample | backend/llm/query_translation/rag_fusion.py:19-44 | the fusion of `[[a,b],[b,c]]` is `[b,a,c]` with the scores above |
| RagFusion.HandleEmptyResults | backend/llm/query_translation/rag_fusion.py:47-51 | when every list is empty the answer is the single placeholder document, otherwise it is the fusion with k = 60 |
| RagFusion.HandleEmptyResultsNonEmpty | backend/llm/query_translation/rag_fusion.py:47-51 | the answer is never empty and holds only the placeholder or retrieved documents |
| MultiQuery.UniqueUnion | backend/llm/query_translation/multi_query.py:19-28 | the union has no repeats, holds exactly the retrieved documents and is no longer than all retrievals together |
| MultiQuery.UniqueUnionLength | backend/llm/query_translation/multi_query.py:23-25 | its length is the number of distinct retrieved documents |
| MultiQuery.UniqueUnionEmpty | backend/llm/query_translation/multi_query.py:19-28 | it is empty exactly when every retrieval is empty |
| MultiQuery.UniqueUnionRegroup | backend/llm/query_translation/multi_query.py:19-28 | regrouping the retrievals without changing what was retrieved gives the same members and length |
| Decomposition.FormatQaPairAt | backend/llm/query_translation/decomposition.py:22-23 | the question sits right after `Question: ` and is followed by the newline before `Answer: ` |
| Decomposition.FormatQaPairInjective | backend/llm/query_translation/decomposition.py:22-23 | for one-line questions, the formatted pair determines the question and the answer |
| Decomposition.FormatQaPair | backend/llm/query_translation/decomposition.py:22-23 | a pair is `Question: `, the question, a newline, `Answer: ` and the answer, in that order and nothing else |
| Decomposition.SubQuestions | backend/llm/query_translation/decomposition.py:26 | the generated text becomes one sub-question per line (newlines plus one), none containing a newline |
| Decomposition.Calls | backend/llm/query_translation/decomposition.py:44-52 | one answering call per sub-question |
| Decomposition.CallsPrefix | backend/llm/query_translation/decomposition.py:44-52 | the calls for the first i sub-questions are the first i calls |
| Decomposition.CallAt | backend/llm/query_translation/decomposition.py:44-52 | call i answers sub-question i with its retrieved context and the pairs of all earlier calls as background |
| Decomposition.CallsSpec | backend/llm/query_translation/decomposition.py:44-52 | the same for every call at once, and there are as many calls as sub-questions |
| Decomposition.PairsPrefix | backend/llm/query_translation/decomposition.py:52 | the background only grows: earlier pairs are a prefix, strictly shorter while calls remain |
| Decomposition.ProcessSubQuestions | backend/llm/query_translation/decomposition.py:39-54 | as evidently intended, the loop makes exactly those calls and returns `{"q_a_pairs": …}` holding all formatted pairs in order |
| Decomposition.ProcessSubQuestionsAsWritten | backend/llm/query_translation/decomposition.py:39-54 | as written the function raises `TypeError` on every input: the first chain is built from a dictionary with plain string values |
| VectorFilter.Contains | backend/vector/utils.py:59 | `target in value` is list membership for a tag list, a substring test for a string, and raises on an integer |
| VectorFilter.Check | backend/vector/utils.py:57-59 | no constraint passes; a constraint on a missing field raises `KeyError`; on a tag list it passes exactly when it is one of the tags |
| VectorFilter.Matches | backend/vector/utils.py:55-73 | the filter accepts exactly when all three tests pass, and then every constrained field is present; it raises only `KeyError` or `TypeError` |
| VectorFilter.NoConstraintsAcceptAll | backend/vector/utils.py:56-73 | with no constraints every metadata passes |
| VectorFilter.MatchesIff | backend/vector/utils.py:56-73 | when the constrained fields are present and hold tag lists, the filter accepts exactly when every given constraint is among its field's tags |
| VectorFilter.RoleMismatchRejects | backend/vector/utils.py:58-60 | an audience constraint missing from the audience tags rejects |
| VectorFilter.ContentMismatchRejects | backend/vector/utils.py:63-65 | a category constraint missing from the category tags rejects, if nothing raised first |
| VectorFilter.ResourceMismatchRejects | backend/vector/utils.py:68-70 | a resource-type constraint missing from its tags rejects, if nothing raised first |
| VectorFilter.MissingKeyRaises | backend/vector/utils.py:58-59 | an audience constraint on metadata without `audience` raises `KeyError('audience')` |
| VectorFilter.UnsetFieldsUnread | backend/vector/utils.py:56-73 | fields with no constraint are never read: changing or removing them changes nothing |
| VectorFilter.CitizenExample | backend/vector/utils.py:58-60 | `citizen` rejects `["lawyer"]` and accepts `["citizen", "lawyer"]` |
| LlmFormat.FirstMissing | backend/llm/utils.py:20 | reports no key exactly when all are present, otherwise a missing one |
| LlmFormat.FirstMissingAt | backend/llm/utils.py:20 | the key reported is the first missing one in reading order |
| LlmFormat.EntryLines | backend/llm/utils.py:20 | an entry has seven lines, the first being the page content after `content:` |
| LlmFormat.EntryLinesLabelled | backend/llm/utils.py:20 | the other six lines are the six keys rendered after their labels, in the f-string's order |
| LlmFormat.Entries | backend/llm/utils.py:20 | on success there is one entry per document; an error is the `KeyError` of one of the six keys |
| LlmFormat.FormatDocs | backend/llm/utils.py:20 | `format_docs` succeeds exactly when every document has the six keys, raises only `KeyError` on one of them, and gives the empty string for no documents |
| LlmFormat.Entry | backend/llm/utils.py:20 | a document formats exactly when it has all six metadata keys |
| LlmFormat.EntriesOk | backend/llm/utils.py:20 | `format_docs` succeeds exactly when every document has all the keys |
| LlmFormat.EntriesSnoc | backend/llm/utils.py:20 | formatting one more document appends its entry or raises its error |
| LlmFormat.EntriesInOrder | backend/llm/utils.py:20 | on success there is one entry per document, in document order |
| LlmFormat.FormatDocsEmpty | backend/llm/utils.py:20 | no documents give the empty string |
| LlmFormat.FormatDocsSingle | backend/llm/utils.py:20 | one document gives just its entry |
| LlmFormat.FormatDocsAppend | backend/llm/utils.py:20 | entries are separated by a blank line |
| LlmFormat.EntryMissingKey | backend/llm/utils.py:20 | the first absent key, in the order the f-string reads them, is the `KeyError` raised |
| LlmFormat.EntryLayout | backend/llm/utils.py:20 | with one-line values an entry is seven labelled lines ending in a newline |
| LlmMain.AskLlm | backend/llm/main.py:3-18 | the middleware is asked once with all arguments, and the structured chain at most once, with the query and filters |
| LlmMain.AskLlmDefault | backend/llm/main.py:3 | the conversation history defaults to the empty string |
| LlmMain.StructuredRoute | backend/llm/main.py:5-17 | the structured chain runs exactly when the middleware answers `"1"`; its results are returned, and `['error']` exactly when it gives none |
| LlmMain.FollowUpRoute | backend/llm/main.py:8-15 | any other middleware reply becomes a single `follow-up` result carrying the reply and the fixed citation |
| LlmMain.FollowUpInjective | backend/llm/main.py:9-15 | different replies give different follow-up results |
| LlmUtils.DocTitles | backend/llm_utils.py:190-191 | a titled document keeps its `title` metadata; an untitled one at position i is named `Source i+1` |
| LlmUtils.DefaultTitlesDistinct | backend/llm_utils.py:191 | two untitled documents never share a default title, so neither is dropped as a repeat |
| LlmUtils.Firsts | backend/llm_utils.py:189-194 | the positions kept by the title set are positions of the input |
| LlmUtils.EntriesAt | backend/llm_utils.py:203-213 | one result entry per kept position |
| LlmUtils.EntriesAtSnoc | backend/llm_utils.py:203-213 | keeping one more position appends its entry |
| LlmUtils.FirstsSnoc | backend/llm_utils.py:192-194 | one iteration skips a seen title and records an unseen one |
| LlmUtils.FirstsErrSticks | backend/llm_utils.py:192 | once an unhashable title raises, later documents do not matter |
| LlmUtils.ParseLlmResponse | backend/llm_utils.py:176-214 | the parse returns the decoded JSON when `result` decodes, otherwise the fallback results |
| LlmUtils.FallbackStep | backend/llm_utils.py:190-213 | one loop iteration either skips a repeated title or records it and appends its entry |
| LlmUtils.FallbackStops | backend/llm_utils.py:192 | a list-valued title before any failure makes the fallback raise `TypeError: unhashable type: 'list'` |
| LlmUtils.BuildResults | backend/llm_utils.py:186-214 | the fallback loop returns exactly the specified result list or error |
| LlmUtils.FirstsFail | backend/llm_utils.py:192 | title de-duplication fails exactly when some title is a tag list |
| LlmUtils.FirstsSpec | backend/llm_utils.py:189-194 | kept positions ascend, and a position is kept exactly when its title did not occur earlier |
| LlmUtils.FirstOccurrence | backend/llm_utils.py:189-194 | every title has a first occurrence at or before it |
| LlmUtils.FallbackFails | backend/llm_utils.py:186-214 | the fallback raises exactly when some document's title is a tag list |
| LlmUtils.EntriesTitles | backend/llm_utils.py:204 | each result entry carries the title of the document it came from |
| LlmUtils.FallbackDistinct | backend/llm_utils.py:189-194 | no two fallback results share a title |
| LlmUtils.FallbackFirsts | backend/llm_utils.py:190-213 | every result is built from the first document carrying its title, with that document's position |
| LlmUtils.FallbackCovers | backend/llm_utils.py:190-213 | every document's title appears among the results |
| LlmUtils.FirstsExample | backend/llm_utils.py:189-194 | titles A, A, B keep positions 0 and 2 |
| LlmUtils.FallbackExample | backend/llm_utils.py:186-214 | two documents titled A and an untitled third give two results, from the first and the third |
| LlmUtils.ExampleTitles | backend/llm_utils.py:191 | the untitled third document is titled `Source 3` |
| LlmUtils.UntitledExample | backend/llm_utils.py:191-211 | the untitled third document is cited with id `3` and its page content |
| PdfLoader.DropLast | backend/document/pdf_loader.py:36 | `[:-n]` is the prefix n shorter, or empty |
| PdfLoader.NormaliseTitle | backend/document/pdf_loader.py:36 | a title has no underscore and no slash and is no longer than the file name |
| PdfLoader.StrippedBaseAvoids | backend/document/pdf_loader.py:36 | the stripped base name has no slash and is no longer than the file name |
| PdfLoader.ExampleBase | backend/document/pdf_loader.py:36 | `d/a___b.pdf` has base `a___b` |
| PdfLoader.ExampleReplace | backend/document/pdf_loader.py:36 | one pass of `replace('  ', ' ')` turns `a   b` into `a  b` |
| PdfLoader.NormaliseTitleSinglePass | backend/document/pdf_loader.py:36 | so a run of three underscores leaves a double space in the title |
| PdfLoader.TagPage | backend/document/pdf_loader.py:43-49 | tagging keeps the page text and adds exactly the six tagging keys |
| PdfLoader.TagPageFields | backend/document/pdf_loader.py:43-49 | title, type `pdf`, summary, each tag key from the generated tags or `[]`, other metadata untouched |
| PdfLoader.TagPages | backend/document/pdf_loader.py:43-49 | page i of the result is page i of the input tagged: same text, the title, type `pdf` and the shared summary |
| PdfLoader.LoadPdf | backend/document/pdf_loader.py:35-51 | at most the file's own title is reported, it is new to the index, and the index grows by exactly the reported titles |
| PdfLoader.LoadPdfSpec | backend/document/pdf_loader.py:35-51 | a known title is skipped with an empty set; a new title is reported and stored with exactly its loaded pages, each tagged with that title, the tags generated from the summary and the summary; other entries are unchanged |
| PdfLoader.LoadPdfIdempotent | backend/document/pdf_loader.py:35-51 | loading the same file a second time changes nothing and reports nothing |
| PdfLoader.TitleIndex.constructor | backend/document/loader.py:17 | the title index starts empty |
| PdfLoader.TitleIndex.PdfLoader | backend/document/pdf_loader.py:35-51 | the in-place update of `title_to_chunks` and the returned set are those of the specification |
| YoutubeLoader.UrlTitle | backend/document/youtube_loader.py:21 | `url.split('=')[1]` raises `IndexError` when there is no second piece |
| YoutubeLoader.UrlTitleFree | backend/document/youtube_loader.py:21 | a video id contains no `=` |
| YoutubeLoader.UrlTitleBetween | backend/document/youtube_loader.py:21 | the id is the text between the first and second `=` |
| YoutubeLoader.UrlTitleLast | backend/document/youtube_loader.py:21 | with one `=` the id is everything after it, trailing newline included |
| YoutubeLoader.UrlTitleMissing | backend/document/youtube_loader.py:21 | a line with no `=` raises `IndexError` |
| YoutubeLoader.SeparatedUrlTitled | backend/document/youtube_loader.py:21 | any line containing `=` has an id |
| YoutubeLoader.LoadListedUrls | backend/document/youtube_loader.py:10-35 | the loop over the URL lines computes the specified classification; no `yt_urls.txt` gives three empty lists |
| YoutubeLoader.YoutubeLoader | backend/document/youtube_loader.py:7-35 | no `yt_urls.txt` gives three empty lists, otherwise the lines are classified with 60-second transcript chunks |
| YoutubeLoader.YoutubeFails | backend/document/youtube_loader.py:20-32 | the loader raises exactly when some line has no `=` |
| YoutubeLoader.PartitionExample | backend/document/youtube_loader.py:20-32 | lines `abc`, `abc`, `def` with `def` already loaded: `abc` is new once and `def` is a duplicate |
| Ingest.ClassifiedSnoc | backend/document/youtube_loader.py:20-32 | one more item is admitted by the duplicate / new / ignore rule |
| Ingest.ClassifiedErrSticks | backend/document/youtube_loader.py:21 | after an item raises, later items do not matter |
| Ingest.Partition | backend/document/youtube_loader.py:20-32 | the loop computes the specified classification |
| Ingest.ClassifiedOk | backend/document/youtube_loader.py:21 | classification succeeds exactly when every item has a title |
| Ingest.ClassifiedSpec | backend/llm_utils.py:222-230 | added titles are distinct and new and come from eligible items; duplicates are exactly the titles already loaded |
| Ingest.IntroducersTitled | backend/llm_utils.py:226 | the items that introduce a title have titles |
| Ingest.ClassifiedChunks | backend/llm_utils.py:226-230 | the added titles and chunks are those of the introducing items, in order |
| Loader.TagType | backend/document/loader.py:23 | `by_audience`, `by_content` and `by_resource` map to their tag keys and anything else to `''` |
| Loader.TagTypeRoundTrip | backend/document/loader.py:23 | the folder-name-to-key mapping is a bijection on the three names |
| Loader.Directories | backend/document/loader.py:14 | the top-level paths kept are exactly the directories |
| Loader.VisitsOf | backend/document/loader.py:20-25 | one loader call per entry of the listing |
| Loader.VisitsWith | backend/document/loader.py:21-25 | each call gets its folder, the path's tag type and the folder's last segment as tag |
| Loader.VisitsFromListings | backend/document/loader.py:19-32 | every loader call comes from a folder listed under a top-level directory, tagged by that directory's name |
| Loader.Returned | backend/document/loader.py:25 | one returned title set per loader call |
| Loader.UnionMembers | backend/document/loader.py:26 | a title is in the union exactly when some call returned it |
| Loader.RunUnion | backend/document/loader.py:25-26 | `all_documents` is the union of every set the loader returned |
| Loader.RunSnoc | backend/document/loader.py:25-26 | one more call adds its titles and replaces the index |
| Loader.RunStep | backend/document/loader.py:25-26 | the loop state after one more call is the specification's |
| Loader.LoadAllInPath | backend/document/loader.py:19-26 | the inner function's loop leaves the state of the specified calls |
| Loader.ChunksOf | backend/document/loader.py:34 | the comprehension succeeds exactly when every title is indexed, giving all their chunks, and otherwise raises `KeyError` on an unindexed title |
| Loader.LoadAllDocuments | backend/document/loader.py:10-34 | returns the titles every loader call over every tag folder reported, with the chunks of each title once, or the `KeyError` of the final comprehension on a title missing from the index |
| Loader.AsWrittenFails | backend/document/loader.py:25 | as written, any tag folder makes the call raise `TypeError` |
| Loader.LoadAllDocumentsAsWritten | backend/document/loader.py:10-34 | as written the function never returns documents: it returns two empty collections or raises `TypeError`, and returns empties when there is no directory |
| Loader.VisitsContain | backend/document/loader.py:31-32 | every directory's listing contributes its calls |
| LlmLoaders.PdfNeverFails | backend/llm_utils.py:222-230 | PDF classification never raises |
| LlmLoaders.PdfLoaded | backend/llm_utils.py:222-230 | new PDFs are the distinct `.pdf` file names not loaded before; duplicates are the file names already loaded |
| LlmLoaders.LoadPdfs | backend/llm_utils.py:216-232 | the loader returns the classification of the glob |
| LlmLoaders.LoadVideos | backend/llm_utils.py:234-262 | no `yt_urls.txt` gives three empty lists, otherwise the lines are classified with 30-second chunks |
| LlmLoaders.PassesValid | backend/llm_utils.py:272-278 | each of the three passes sets one tag key and defaults the other two |
| LlmLoaders.TagNew | backend/llm_utils.py:289-304 | a page is titled with the last `/` segment of its source; a chunk with `split('=')[1][:-2]` of its source and gets page := start_seconds; both keep their text and other metadata and carry the folder's tag; each other tag key is `""` when it was absent and unchanged otherwise; a missing source raises `KeyError('source')`, a non-string source `AttributeError`, a chunk source without `=` `IndexError`, a chunk without start time `KeyError('start_seconds')` |
| LlmLoaders.Tagged | backend/llm_utils.py:290-295 | the title and folder tag are set; each of the other two tag keys becomes `""` when absent and keeps its value otherwise; non-tag metadata is kept |
| LlmLoaders.Fill | backend/llm_utils.py:306-326 | backfill only fills blank entries: the pass key with the folder's tag, a chunk's page with its start time |
| LlmLoaders.FillIdempotent | backend/llm_utils.py:306-326 | backfilling twice is backfilling once |
| LlmLoaders.MapAll | backend/llm_utils.py:289-304 | tagging every document succeeds with each tagged, in order, or raises the error of the first document that fails, every earlier one having succeeded |
| LlmLoaders.TagAll | backend/llm_utils.py:289-304 | on success document k is the tagging of input document k (ready, same text, folder's tag); otherwise the error is that of the first document whose tagging raises |
| LlmLoaders.BackfillOne | backend/llm_utils.py:307-314 | backfill of one duplicate title keeps the list length and readiness |
| LlmLoaders.Backfill | backend/llm_utils.py:306-326 | backfill of all duplicates keeps the list length and readiness (what it fills is stated by BackfillFills and BackfillFillsPage) |
| LlmLoaders.Step | backend/llm_utils.py:280-326 | a folder visit keeps the library ready |
| LlmLoaders.Folders | backend/llm_utils.py:280 | a whole pass keeps the library ready |
| LlmLoaders.Passed | backend/llm_utils.py:280-429 | the three passes keep the library ready |
| LlmLoaders.LoadAll | backend/llm_utils.py:266-431 | the returned pages and chunks all carry title and the three tag keys, and chunks carry page and start time |
| LlmLoaders.MapAllSnoc | backend/llm_utils.py:289-304 | tagging one more document appends it |
| LlmLoaders.MapAllSnocErr | backend/llm_utils.py:289-304 | an error tagging the next document is the result |
| LlmLoaders.MapAllErrSticks | backend/llm_utils.py:289-304 | once tagging raises, later documents do not matter |
| LlmLoaders.MapAllStops | backend/llm_utils.py:289-304 | the first failing document's error is the result |
| LlmLoaders.MapStep | backend/llm_utils.py:289-304 | writing a tagged document back in place extends the tagged prefix |
| LlmLoaders.TagInPlace | backend/llm_utils.py:289-304 | tagging the newly appended pages in place leaves the stored ones and the tagged new ones, or the first error |
| LlmLoaders.BackfillInPlace | backend/llm_utils.py:306-326 | the nested in-place loops compute the specified backfill |
| LlmLoaders.ReadyAppend | backend/llm_utils.py:282-288 | extending a ready list with ready documents keeps it ready |
| LlmLoaders.VisitFolder | backend/llm_utils.py:280-326 | one iteration of the folder loop computes the specified step |
| LlmLoaders.FoldersErrSticks | backend/llm_utils.py:280 | once a folder raises, later folders do not matter |
| LlmLoaders.FoldersSnoc | backend/llm_utils.py:280 | one more folder is one more step |
| LlmLoaders.PassedSnoc | backend/llm_utils.py:276-280 | one more pass runs over its glob |
| LlmLoaders.PassedErrSticks | backend/llm_utils.py:280-429 | once a pass raises, later passes do not matter |
| LlmLoaders.VisitFolders | backend/llm_utils.py:280-326 | the folder loop computes the specified pass |
| LlmLoaders.RunPasses | backend/llm_utils.py:280-429 | the three loops compute the specified passes |
| LlmLoaders.LoadAllDocuments | backend/llm_utils.py:266-431 | the function returns exactly the specified pages and chunks, or the first error |
| LlmLoaders.BackfillKeeps | backend/llm_utils.py:306-326 | backfill keeps every page's text, keys, title, start time and set tags; pages whose title is not a duplicate are untouched |
| LlmLoaders.BackfillFills | backend/llm_utils.py:306-310 | a stored page or chunk of a duplicate title whose pass key is missing or `""` ends up with the folder's tag |
| LlmLoaders.BackfillFillsPage | backend/llm_utils.py:316-320 | a stored chunk of a duplicate video whose page is missing or `""` ends up with its start time as page |
| LlmLoaders.StepFillsPages | backend/llm_utils.py:306-314 | in a folder visit, a stored page whose PDF came up again with a blank pass key gets the folder's name |
| LlmLoaders.StepFillsChunks | backend/llm_utils.py:316-326 | in a folder visit, a stored chunk whose video came up again gets the folder's name for a blank pass key and its start time for a blank page |
| LlmLoaders.DistinctAppend | backend/llm_utils.py:282-286 | extending a repeat-free list by new repeat-free titles keeps it repeat-free |
| LlmLoaders.VideosDistinct | backend/llm_utils.py:247-259 | new video ids are distinct and not loaded before |
| LlmLoaders.AppendBackfill | backend/llm_utils.py:283-326 | backfill after appending keeps every stored page's set values and the new pages' folder tag |
| LlmLoaders.StepSpec | backend/llm_utils.py:280-326 | a folder visit only appends and fills blanks, tags every new page and chunk with the folder's name, and loads no PDF or video twice |
| LlmLoaders.GrowsTrans | backend/llm_utils.py:280-429 | growth (append and fill blanks only) composes |
| LlmLoaders.FoldersSpec | backend/llm_utils.py:280-326 | a pass only grows the library and keeps it repeat-free |
| LlmLoaders.PassedDistinct | backend/llm_utils.py:266-431 | no PDF file name and no video id is loaded twice |
| LlmLoaders.PassedSpec | backend/llm_utils.py:266-431 | every earlier pass's library grows into the final one: a tag set by an earlier pass is never overwritten |
| TextProcessor.FixedChunks | aws/lambda_functions/text_processor.py:33 | the fallback chunking raises exactly on size 0 and is empty on a negative size |
| TextProcessor.PiecesSpec | aws/lambda_functions/text_processor.py:33 | for positive size the pieces concatenate to the text, are non-empty and at most size long, all full but the last |
| TextProcessor.PiecesCount | aws/lambda_functions/text_processor.py:33 | there are ⌈len / size⌉ pieces |
| TextProcessor.Stripped | aws/lambda_functions/text_processor.py:41 | each sentence loses its surrounding whitespace: none is left at either end and no sentence grows |
| TextProcessor.PackSentences | aws/lambda_functions/text_processor.py:37-53 | the packing loop computes the specified chunks |
| TextProcessor.StrippedTrimmed | aws/lambda_functions/text_processor.py:41 | a stripped sentence has no whitespace at either end and is no longer than before |
| TextProcessor.StripKeepsFirst | aws/lambda_functions/text_processor.py:41 | a string starting with a non-space strips to a non-empty string |
| TextProcessor.PackedShape | aws/lambda_functions/text_processor.py:40-51 | each packed chunk is non-empty and at most size + 1 long, unless it is one oversized sentence |
| TextProcessor.SentenceChunksShape | aws/lambda_functions/text_processor.py:36-53 | the same for the chunks returned |
| TextProcessor.PackedJoin | aws/lambda_functions/text_processor.py:40-51 | joining the chunks and the current chunk with spaces gives all sentences joined with spaces |
| TextProcessor.SentenceChunksJoin | aws/lambda_functions/text_processor.py:36-53 | with no blank sentence, no text is lost or reordered: the chunks joined by spaces are the stripped sentences joined by spaces |
| TextProcessor.CreateEqualSizedChunks | aws/lambda_functions/text_processor.py:20-53 | chooses the fallback without a sentence splitter and packing with one |
| TextProcessor.Embeddings | aws/lambda_functions/text_processor.py:68-75 | one 768-wide vector per chunk, every entry `hash(chunk) % 1000` in [0, 1000) |
| TextProcessor.TransformToEmbeddings | aws/lambda_functions/text_processor.py:68-75 | the loop computes those vectors |
| TextProcessor.ApplyPca | aws/lambda_functions/text_processor.py:88-89 | no embeddings give no reduced embeddings |
| TextProcessor.Process | aws/lambda_functions/text_processor.py:125-152 | status 500 with `str(e)` exactly when chunking or PCA raises, that exception's message as body; otherwise 200 with the chunks, their count, the PCA result as embeddings and its row width, 0 when empty |
| TextProcessor.LambdaHandler | aws/lambda_functions/text_processor.py:111-121 | status 400 with `No text provided` exactly when the text is missing or empty, otherwise the pipeline with chunk size 1000 and 256 components by default |
| TextProcessor.ZeroChunkSize | aws/lambda_functions/text_processor.py:126-152 | chunk size 0 without spaCy gives the 500 response of `range()` |
| TextProcessor.HandlerCoversText | aws/lambda_functions/text_processor.py:126-145 | a successful run without spaCy returns chunks that concatenate to the text, and ⌈len / size⌉ of them |

## Left out

- The LLM, the retriever, the PDF and transcript loaders, `glob`, `os.listdir`,
  `readlines`, `hash`, `json.loads`, PCA and spaCy are parameters. Only what the
  code does with their results is modelled.
- Logging and the `async` of `ask_llm` are left out. They do not affect results.
- `dumps`/`loads` in rag_fusion.py and multi_query.py are modelled as the identity,
  with documents compared by value. The model therefore assumes that serialisation
  is injective and round-trips.
- MultiQuery.UniqueUnion: `list(set(...))` has no defined order. The model returns
  first-seen order and states only membership, distinctness and length.
- TextProcessor.ApplyPca: the PCA numbers are an oracle. Only the empty-input guard
  and the component count `min(n, width)` passed to it are modelled, and its contract
  states only the empty case.
- Event fields of a type other than the expected string or integer are not
  modelled. Neither are serialisation errors of `json.dumps`.
- Metadata updated in place on shared page objects is modelled on values. Where
  tagging raises partway through a folder, the model returns the error and drops
  the partly tagged state. That state is visible in Python only to code that
  catches the exception, and none does.
- Python's `in` on a string-valued tag field is a substring test. It is modelled as
  such in VectorFilter.Contains. The loaders of backend/llm_utils.py write string
  tags, so the filter on their output is a substring filter.
- Tag values and video ids are kept exactly as the code computes them. The title
  taken from a chunk source (`split('=')[1][:-2]`) can differ from the id in
  `yt_urls.txt` (which keeps its newline). As a result the duplicate backfill
  matches only when the two agree, which is modelled as written.
- `chunk_documents`, the FAISS store, the final decomposition chain and the
  rag-fusion query-generation chain are LangChain pipelines. They are not part of
  this model.
- The commented-out first version of `pdfLoader` (backend/document/pdf_loader.py:5-29)
  is not modelled.
- YoutubeLoader.UrlTitle: its contract states only the error case. That the id
  holds no `=` is stated by YoutubeLoader.UrlTitleFree.
- Docs.Repr: a non-ASCII character that Python's Unicode tables call non-printable
  (other than U+0080 to U+00A0 and U+00AD) is printed as it is, where Python's
  `repr` escapes it.
- RagFusion.Fused: scores are exact rationals, where Python adds floats. Documents
  whose exact scores tie, or differ by less than a rounding step, can be ordered
  differently by float sums; for example with k = 60, a document ranked 0, 9, 1
  and another ranked 1, 0, 9 in three lists tie exactly but not necessarily in floats.
- Decomposition.ProcessSubQuestions: models the loop as evidently intended, with the
  `answer` parameter standing for the answering chain. The chain as written fails to
  build, which Decomposition.ProcessSubQuestionsAsWritten records (see Findings).
- LlmFormat.Entry: its contract states only when it succeeds. The layout of an
  entry is stated by LlmFormat.EntryLayout.
- LlmLoaders.Step, LlmLoaders.Folders and LlmLoaders.Passed: their own contracts
  state only readiness. Growth and distinctness are stated by LlmLoaders.StepSpec,
  LlmLoaders.FoldersSpec and LlmLoaders.PassedSpec.

## Findings

| source | as written | input that shows it | evidently intended | confidence | as-written member | corrected member |
|---|---|---|---|---|---|---|
| backend/llm/query_translation/decomposition.py:46 | builds each answering chain from `{"context": …, "question": sub_q, "q_a_pairs": q_a_pairs}`, whose last two values are plain strings, which LangChain cannot turn into runnables | any question: the split yields at least one sub-question, so the first iteration raises `TypeError` | each sub-question and the pairs so far passed to the answering chain, as the `invoke` on line 51 does | not executed; rests on LangChain's coercion of dictionary values | Decomposition.ProcessSubQuestionsAsWritten | Decomposition.ProcessSubQuestions |
| backend/document/loader.py:25 | calls `pdfLoader(folder, title_to_chunks, tag_type, tag)`, but the `pdfLoader` it imports (backend/document/pdf_loader.py:35) takes two parameters | any `docs/<dir>/<folder>` entry: the first call raises `TypeError` | one call per folder to a loader matching the call's four arguments, whose returned titles are collected | not executed | Loader.AsWrittenFails | Loader.LoadAllDocuments |
