/** Query decomposition: sub-questions answered one after another, each with the
    question/answer pairs of the earlier ones as background
    (backend/llm/query_translation/decomposition.py). */
module Decomposition {
  import opened Wrappers
  import opened Text
  import opened Docs

  /** `format_qa_pair(question, answer)`. */
  function FormatQaPair(question: string, answer: string): (r: string)
    ensures |r| == 10 + |question| + 9 + |answer|
    ensures r[..10] == "Question: " && r[10..10 + |question|] == question
    ensures r[10 + |question|..10 + |question| + 9] == "\nAnswer: " && r[10 + |question| + 9..] == answer
  {
    "Question: " + question + "\nAnswer: " + answer
  }

  /** Character `10 + i` of a pair is the question's `i`-th character, or the newline
      that ends the question. */
  lemma FormatQaPairAt(q: string, a: string, i: nat)
    ensures i <= |q| ==> 10 + i < |FormatQaPair(q, a)|
    ensures i < |q| ==> FormatQaPair(q, a)[10 + i] == q[i]
    ensures i == |q| ==> FormatQaPair(q, a)[10 + i] == '\n'
  {
  }

  /** A formatted pair determines its question and answer, as long as the question
      is a single line. */
  lemma FormatQaPairInjective(q1: string, a1: string, q2: string, a2: string)
    requires '\n' !in q1 && '\n' !in q2
    requires FormatQaPair(q1, a1) == FormatQaPair(q2, a2)
    ensures q1 == q2 && a1 == a2
  {
    var m := if |q1| < |q2| then |q1| else |q2|;
    FormatQaPairAt(q1, a1, m);
    FormatQaPairAt(q2, a2, m);
    if |q1| != |q2| {
      assert false;
    }
    var r := FormatQaPair(q1, a1);
    assert q1 == r[10..10 + |q1|] == q2;
    assert a1 == r[10 + |q1| + 9..] == a2;
  }

  /** The separator put before every pair. */
  const PairSeparator := "\n---\n"

  /** The sub-questions: the generated text split on newlines, blank lines included. */
  function SubQuestions(generated: string): (r: seq<string>)
    ensures |r| == Count(generated, '\n') + 1
    ensures forall i :: 0 <= i < |r| ==> '\n' !in r[i]
  {
    SplitCount(generated, '\n');
    SplitPiecesFree(generated, '\n');
    Split(generated, '\n')
  }

  /** One call of the answering chain: the sub-question, the background pairs it was
      given, the documents the retriever returned for it, and the answer. */
  datatype AnswerCall = AnswerCall(question: string, background: string, context: seq<Document>, answer: string)

  /** The text a sequence of answered calls contributes to `q_a_pairs`. */
  function Pairs(calls: seq<AnswerCall>): string
  {
    if calls == [] then ""
    else
      var last := calls[|calls| - 1];
      Pairs(calls[..|calls| - 1]) + PairSeparator + FormatQaPair(last.question, last.answer)
  }

  /** The answering calls made for `subs`, in order: each sees the pairs of the calls
      before it and the retriever's documents for its own sub-question. */
  function Calls(
    subs: seq<string>, retrieve: string -> seq<Document>,
    answer: (string, string, seq<Document>) -> string): (r: seq<AnswerCall>)
    ensures |r| == |subs|
  {
    if subs == [] then []
    else
      var earlier := Calls(subs[..|subs| - 1], retrieve, answer);
      var q := subs[|subs| - 1];
      var background := Pairs(earlier);
      earlier + [AnswerCall(q, background, retrieve(q), answer(q, background, retrieve(q)))]
  }

  /** Causality: the calls for the first `i` sub-questions do not depend on the
      sub-questions that follow them. */
  lemma {:induction false} CallsPrefix(
    subs: seq<string>, i: nat, retrieve: string -> seq<Document>,
    answer: (string, string, seq<Document>) -> string)
    requires i <= |subs|
    ensures Calls(subs[..i], retrieve, answer) == Calls(subs, retrieve, answer)[..i]
    decreases |subs|
  {
    if i < |subs| {
      var init := subs[..|subs| - 1];
      assert subs[..i] == init[..i];
      CallsPrefix(init, i, retrieve, answer);
      assert Calls(subs, retrieve, answer)[..i] == Calls(init, retrieve, answer)[..i];
    } else {
      assert subs[..i] == subs;
    }
  }

  /** The i-th answering call asks sub-question i, retrieves with it as the query,
      and is given exactly the pairs of calls 0..i-1. */
  lemma CallAt(
    subs: seq<string>, i: nat, retrieve: string -> seq<Document>,
    answer: (string, string, seq<Document>) -> string)
    requires i < |subs|
    ensures var calls := Calls(subs, retrieve, answer);
      && calls[i].question == subs[i]
      && calls[i].context == retrieve(subs[i])
      && calls[i].background == Pairs(calls[..i])
      && calls[i].answer == answer(subs[i], calls[i].background, calls[i].context)
  {
    var calls := Calls(subs, retrieve, answer);
    CallsPrefix(subs, i + 1, retrieve, answer);
    CallsPrefix(subs, i, retrieve, answer);
    assert subs[..i + 1][..i] == subs[..i];
    assert calls[..i + 1][..i] == calls[..i];
    assert calls[i] == calls[..i + 1][i];
  }

  /** One answering call per sub-question, in order, each as `CallAt` describes. */
  lemma CallsSpec(
    subs: seq<string>, retrieve: string -> seq<Document>,
    answer: (string, string, seq<Document>) -> string)
    ensures |Calls(subs, retrieve, answer)| == |subs|
    ensures forall i :: 0 <= i < |subs| ==>
      var c := Calls(subs, retrieve, answer)[i];
      && c.question == subs[i]
      && c.context == retrieve(subs[i])
      && c.background == Pairs(Calls(subs, retrieve, answer)[..i])
      && c.answer == answer(subs[i], c.background, c.context)
  {
    forall i | 0 <= i < |subs| {
      CallAt(subs, i, retrieve, answer);
    }
  }

  /** The background of a later call extends that of an earlier one by the pairs in between. */
  lemma {:induction false} PairsPrefix(calls: seq<AnswerCall>, i: nat)
    requires i <= |calls|
    ensures Pairs(calls[..i]) <= Pairs(calls)
    ensures |Pairs(calls[..i])| < |Pairs(calls)| <==> i < |calls|
    decreases |calls|
  {
    if i < |calls| {
      var init := calls[..|calls| - 1];
      assert calls[..i] == init[..i];
      PairsPrefix(init, i);
      assert init[..|init|] == init;
    } else {
      assert calls[..i] == calls;
    }
  }

  /** The message LangChain gives when a chain is built from a dictionary holding a
      plain string value. */
  const UnsupportedStr := "Expected a Runnable, callable or dict.Instead got an unsupported type: <class 'str'>"

  /** `process_sub_questions` as written: the chain of the first iteration is built from
      a dictionary whose `question` and `q_a_pairs` values are plain strings, which
      LangChain refuses with a `TypeError`. The split always yields a sub-question, so
      the function raises on every input and never returns its pairs. */
  function ProcessSubQuestionsAsWritten(question: string, generate: string -> string): (r: Result<map<string, string>>)
    ensures r == Err(TypeError(UnsupportedStr))
  {
    var subs := SubQuestions(generate(question));
    if subs == [] then Ok(map["q_a_pairs" := ""]) else Err(TypeError(UnsupportedStr))
  }

  /** `process_sub_questions({"question": question}, retriever)` as evidently intended,
      with each sub-question and the pairs so far handed to the answering chain: `generate` stands for
      the sub-question chain, `retrieve` for the retriever and `answer` for the answering
      chain given a sub-question, the background pairs and the retrieved context. */
  method ProcessSubQuestions(
    question: string, generate: string -> string, retrieve: string -> seq<Document>,
    answer: (string, string, seq<Document>) -> string)
    returns (result: map<string, string>, ghost calls: seq<AnswerCall>)
    ensures calls == Calls(SubQuestions(generate(question)), retrieve, answer)
    ensures result.Keys == {"q_a_pairs"}
    ensures result["q_a_pairs"] == Pairs(calls)
  {
    var subQuestions := SubQuestions(generate(question));
    var qaPairs := "";
    calls := [];
    var i := 0;
    while i < |subQuestions|
      invariant 0 <= i <= |subQuestions|
      invariant calls == Calls(subQuestions[..i], retrieve, answer)
      invariant qaPairs == Pairs(calls)
    {
      var subQ := subQuestions[i];
      var context := retrieve(subQ);
      var a := answer(subQ, qaPairs, context);
      ghost var call := AnswerCall(subQ, qaPairs, context, a);
      assert subQuestions[..i + 1][..i] == subQuestions[..i];
      calls := calls + [call];
      qaPairs := qaPairs + PairSeparator + FormatQaPair(subQ, a);
      i := i + 1;
    }
    assert subQuestions[..i] == subQuestions;
    result := map["q_a_pairs" := qaPairs];
  }
}
