/** The data model shared by the retrieval and ingestion code: LangChain documents with
    their metadata dictionaries, the result records of backend/validation.py and
    backend/schemas.py, and the sequence operations several modules use. */
module Docs {
  import opened Wrappers
  import opened Text

  /** A metadata value as the loaders store it: a string, an integer (a page number or
      a start time in seconds) or a list of tag strings. */
  datatype MetaValue = Str(s: string) | Int(n: int) | Tags(tags: seq<string>)

  type Metadata = map<string, MetaValue>

  /** A LangChain `Document`. Two documents are the same document exactly when their
      content and metadata are equal, which is what comparing `dumps(doc)` decides. */
  datatype Document = Document(pageContent: string, metadata: Metadata)

  const TitleKey := "title"
  const SourceKey := "source"
  const PageKey := "page"
  const TypeKey := "type"
  const SummaryKey := "summary"
  const StartSecondsKey := "start_seconds"
  const AudienceKey := "audience"
  const CategoryKey := "nefac_category"
  const ResourceTypeKey := "resource_type"

  /** The three tag fields a metadata filter can test. */
  predicate IsTagKey(key: string)
  {
    key == AudienceKey || key == CategoryKey || key == ResourceTypeKey
  }

  /** A lower-case hexadecimal digit. */
  function HexDigit(d: nat): (c: char)
    requires d < 16
    ensures ('0' <= c <= '9') || ('a' <= c <= 'f')
  {
    if d < 10 then ('0' as int + d) as char else ('a' as int + d - 10) as char
  }

  /** A character Python's `repr` writes as a `\xhh` escape: the ASCII controls other
      than tab, newline and carriage return, DEL, the C1 controls, the no-break space
      and the soft hyphen. */
  predicate HexEscaped(c: char)
  {
    (c as int < 32 && c != '\t' && c != '\n' && c != '\r')
    || (127 <= c as int <= 160) || c as int == 173
  }

  /** One character inside a `repr` between the quotes `quote`. */
  function ReprChar(c: char, quote: char): (r: string)
    requires quote == '\'' || quote == '"'
    ensures '\n' !in r && r != []
  {
    if c == quote || c == '\\' then ['\\', c]
    else if c == '\t' then "\\t"
    else if c == '\n' then "\\n"
    else if c == '\r' then "\\r"
    else if HexEscaped(c) then "\\x" + [HexDigit(c as int / 16), HexDigit(c as int % 16)]
    else [c]
  }

  function ReprBody(s: string, quote: char): (r: string)
    requires quote == '\'' || quote == '"'
    ensures '\n' !in r && |r| >= |s|
  {
    if s == [] then [] else ReprChar(s[0], quote) + ReprBody(s[1..], quote)
  }

  /** The quote `repr` picks: double quotes when the string holds a single quote and no
      double quote, single quotes otherwise. */
  function ReprQuote(s: string): (q: char)
    ensures q == '\'' || q == '"'
  {
    if '\'' in s && '"' !in s then '"' else '\''
  }

  /** Python's `repr` of a string, as it prints inside a list: quoted, with the chosen
      quote, backslashes and control characters escaped, so it is always one line. */
  function Repr(s: string): (r: string)
    ensures |r| >= |s| + 2 && r[0] == r[|r| - 1] == ReprQuote(s)
    ensures '\n' !in r
  {
    [ReprQuote(s)] + ReprBody(s, ReprQuote(s)) + [ReprQuote(s)]
  }

  /** How an f-string renders a metadata value: strings as they are, integers in decimal,
      lists of strings as Python prints them (`['a', 'b']`, each element by `repr`). */
  function Render(v: MetaValue): string
  {
    match v
    case Str(s) => s
    case Int(n) => IntToString(n)
    case Tags(ts) => "[" + Join(", ", seq(|ts|, i requires 0 <= i < |ts| => Repr(ts[i]))) + "]"
  }

  /** A string field is printed as it is; a tag list in brackets, `[]` when empty, and a
      single tag as its `repr` alone between them. */
  lemma RenderShape(v: MetaValue)
    ensures v.Str? ==> Render(v) == v.s
    ensures v.Tags? ==> var r := Render(v); |r| >= 2 && r[0] == '[' && r[|r| - 1] == ']'
    ensures v.Tags? && v.tags == [] ==> Render(v) == "[]"
    ensures v.Tags? && |v.tags| == 1 ==> Render(v) == "[" + Repr(v.tags[0]) + "]"
  {
  }

  /** A tag holding an apostrophe and no double quote is printed in double quotes. */
  lemma ReprApostrophe()
    ensures Repr("a'b") == "\"a'b\""
  {
    var s := "a'b";
    assert ReprQuote(s) == '"' by { assert s[1] == '\''; }
    assert s[1..][1..][1..] == [];
    assert ReprBody(s[1..][1..], '"') == "b";
    assert ReprBody(s[1..], '"') == "'b";
  }

  /** A backslash is doubled, and a quote of the chosen kind is escaped. */
  lemma ReprEscapes()
    ensures Repr("a\\b") == "'a\\\\b'"
    ensures Repr("'\"") == "'\\'\"'"
  {
    var s := "a\\b";
    assert ReprQuote(s) == '\'';
    assert s[1..][1..][1..] == [];
    assert ReprBody(s[1..][1..], '\'') == "b";
    assert ReprBody(s[1..], '\'') == "\\\\b";
    var t := "'\"";
    assert ReprQuote(t) == '\'' by { assert t[1] == '"'; }
    assert t[1..][1..] == [];
    assert ReprBody(t[1..], '\'') == "\"";
  }

  /** A citation of backend/validation.py. */
  datatype Citation = Citation(id: string, context: string)

  /** A search result of backend/validation.py. */
  datatype SearchResult = SearchResult(title: string, link: string, summary: string, citations: seq<Citation>)

  /** The streamed result record of backend/schemas.py. */
  datatype StreamResult = StreamResult(
    title: string, link: string, kind: string,
    timestampSeconds: Option<int>, summary: Option<string>, content: Option<string>)

  /** The streamed events of backend/schemas.py. */
  datatype StreamEvent =
    | ContextEvent(order: int, context: seq<StreamResult>)
    | ReformulatedEvent(order: int, reformulated: string)
    | MessageEvent(order: int, message: string)

  predicate NoDuplicates<T(==)>(s: seq<T>)
  {
    forall i, j :: 0 <= i < j < |s| ==> s[i] != s[j]
  }

  /** The elements of a list of lists, in order. */
  function Flatten<T>(ss: seq<seq<T>>): seq<T>
  {
    if ss == [] then [] else Flatten(ss[..|ss| - 1]) + ss[|ss| - 1]
  }

  lemma {:induction false} FlattenMembers<T>(ss: seq<seq<T>>, x: T)
    ensures x in Flatten(ss) <==> exists i :: 0 <= i < |ss| && x in ss[i]
  {
    if ss != [] {
      var init := ss[..|ss| - 1];
      FlattenMembers(init, x);
      if x in Flatten(init) {
        var i :| 0 <= i < |init| && x in init[i];
        assert ss[i] == init[i];
      }
      if exists i :: 0 <= i < |ss| && x in ss[i] {
        var i :| 0 <= i < |ss| && x in ss[i];
        if i < |ss| - 1 { assert init[i] == ss[i]; }
      }
    }
  }

  lemma FlattenEmpty<T>(ss: seq<seq<T>>)
    ensures Flatten(ss) == [] <==> forall i :: 0 <= i < |ss| ==> ss[i] == []
  {
    forall x ensures x in Flatten(ss) <==> exists i :: 0 <= i < |ss| && x in ss[i] {
      FlattenMembers(ss, x);
    }
    if Flatten(ss) != [] {
      assert Flatten(ss)[0] in Flatten(ss);
    }
  }

  /** The distinct elements of `s`, each at the position of its first occurrence. */
  function Dedup<T(==)>(s: seq<T>): seq<T>
  {
    if s == [] then []
    else
      var seen := Dedup(s[..|s| - 1]);
      if s[|s| - 1] in seen then seen else seen + [s[|s| - 1]]
  }

  lemma DedupSnoc<T>(s: seq<T>, x: T)
    ensures Dedup(s + [x]) == if x in Dedup(s) then Dedup(s) else Dedup(s) + [x]
  {
    assert (s + [x])[..|s|] == s;
  }

  /** Deduplication keeps every element and adds none. */
  lemma {:induction false} DedupMembers<T>(s: seq<T>)
    ensures forall x :: x in Dedup(s) <==> x in s
  {
    if s != [] {
      var init := s[..|s| - 1];
      DedupMembers(init);
      assert s == init + [s[|s| - 1]];
    }
  }

  /** Deduplication keeps every element, adds none, and repeats none. */
  lemma {:induction false} DedupSpec<T>(s: seq<T>)
    ensures NoDuplicates(Dedup(s))
    ensures forall x :: x in Dedup(s) <==> x in s
    ensures |Dedup(s)| <= |s|
  {
    if s != [] {
      var init := s[..|s| - 1];
      DedupSpec(init);
      assert s == init + [s[|s| - 1]];
    }
  }

  /** A list without repeats is no longer than the set of its elements. */
  lemma {:induction false} DistinctLength<T>(s: seq<T>)
    requires NoDuplicates(s)
    ensures |s| == |set x | x in s|
  {
    if s != [] {
      var init := s[..|s| - 1];
      var last := s[|s| - 1];
      DistinctLength(init);
      assert s == init + [last];
      assert (set x | x in s) == (set x | x in init) + {last};
      assert last !in (set x | x in init);
    }
  }
}
