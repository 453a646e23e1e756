/** Routing of a query between a follow-up reply and the structured answering chain
    (`ask_llm` in backend/llm/main.py). */
module LlmMain {
  import opened Wrappers
  import opened Docs

  /** The arguments `middleware_qa` receives. */
  datatype MiddlewareCall = MiddlewareCall(
    query: string, convoHistory: string,
    roleFilter: Option<string>, contentType: Option<string>, resourceType: Option<string>)

  /** The arguments `custom_QA_structured` receives. */
  datatype StructuredCall = StructuredCall(
    query: string, roleFilter: Option<string>, contentType: Option<string>, resourceType: Option<string>)

  /** What `ask_llm` returns: a list of search results, or the list `['error']`. */
  datatype AskResponse = Results(results: seq<SearchResult>) | ErrorMarker

  /** The response together with the calls made to the two chains, in order. */
  datatype Asked = Asked(response: AskResponse, middlewareCalls: seq<MiddlewareCall>, structuredCalls: seq<StructuredCall>)

  /** The reply of the middleware chain that selects the structured answer. */
  const AnswerReply := "1"

  /** The single result returned for any other reply, which is a follow-up question. */
  function FollowUp(reply: string): SearchResult
  {
    SearchResult("follow-up", "", reply, [Citation("1", "Follow-up question")])
  }

  /** `ask_llm(_, info, query, convoHistory, roleFilter, contentType, resourceType)`;
      `middleware` and `structured` stand for the two chains (`None` from `structured`
      is a Python `None`). */
  function AskLlm(
    query: string, convoHistory: string,
    roleFilter: Option<string>, contentType: Option<string>, resourceType: Option<string>,
    middleware: MiddlewareCall -> string,
    structured: StructuredCall -> Option<seq<SearchResult>>): (r: Asked)
    ensures r.middlewareCalls == [MiddlewareCall(query, convoHistory, roleFilter, contentType, resourceType)]
    ensures |r.structuredCalls| <= 1
    ensures forall c :: c in r.structuredCalls ==> c == StructuredCall(query, roleFilter, contentType, resourceType)
  {
    var m := MiddlewareCall(query, convoHistory, roleFilter, contentType, resourceType);
    var reply := middleware(m);
    if reply == AnswerReply then
      var s := StructuredCall(query, roleFilter, contentType, resourceType);
      var response := structured(s);
      Asked(if response.None? then ErrorMarker else Results(response.value), [m], [s])
    else
      Asked(Results([FollowUp(reply)]), [m], [])
  }

  /** `ask_llm` with `convoHistory` left at its default, the empty string. */
  function AskLlmDefault(
    query: string, roleFilter: Option<string>, contentType: Option<string>, resourceType: Option<string>,
    middleware: MiddlewareCall -> string,
    structured: StructuredCall -> Option<seq<SearchResult>>): (r: Asked)
    ensures r.middlewareCalls == [MiddlewareCall(query, "", roleFilter, contentType, resourceType)]
  {
    AskLlm(query, "", roleFilter, contentType, resourceType, middleware, structured)
  }

  /** The structured chain runs exactly when the middleware replies "1", and then its
      result is returned, or `['error']` when it returned `None`. */
  lemma StructuredRoute(
    query: string, convoHistory: string,
    roleFilter: Option<string>, contentType: Option<string>, resourceType: Option<string>,
    middleware: MiddlewareCall -> string,
    structured: StructuredCall -> Option<seq<SearchResult>>)
    ensures var r := AskLlm(query, convoHistory, roleFilter, contentType, resourceType, middleware, structured);
      var reply := middleware(MiddlewareCall(query, convoHistory, roleFilter, contentType, resourceType));
      var s := StructuredCall(query, roleFilter, contentType, resourceType);
      && (r.structuredCalls != [] <==> reply == AnswerReply)
      && (reply == AnswerReply && structured(s).Some? ==> r.response == Results(structured(s).value))
      && (r.response == ErrorMarker <==> reply == AnswerReply && structured(s).None?)
  {
  }

  /** Any other reply yields exactly one follow-up result carrying the reply as its summary. */
  lemma FollowUpRoute(
    query: string, convoHistory: string,
    roleFilter: Option<string>, contentType: Option<string>, resourceType: Option<string>,
    middleware: MiddlewareCall -> string,
    structured: StructuredCall -> Option<seq<SearchResult>>)
    requires middleware(MiddlewareCall(query, convoHistory, roleFilter, contentType, resourceType)) != AnswerReply
    ensures var r := AskLlm(query, convoHistory, roleFilter, contentType, resourceType, middleware, structured);
      var reply := middleware(MiddlewareCall(query, convoHistory, roleFilter, contentType, resourceType));
      && r.structuredCalls == []
      && r.response.Results?
      && |r.response.results| == 1
      && r.response.results[0].title == "follow-up"
      && r.response.results[0].link == ""
      && r.response.results[0].summary == reply
      && r.response.results[0].citations == [Citation("1", "Follow-up question")]
  {
  }

  /** The follow-up result and the reply it carries determine each other. */
  lemma FollowUpInjective(a: string, b: string)
    ensures FollowUp(a) == FollowUp(b) <==> a == b
  {
  }
}
