/** The text-processing Lambda function of aws/lambda_functions/text_processor.py:
    chunking a text (by fixed size when no sentence model is loaded, otherwise by
    packing sentences), one placeholder embedding per chunk, the PCA reduction, and
    the handler that chains them. The sentence model, Python's `hash` and PCA are
    parameters. */
module TextProcessor {
  import opened Wrappers
  import opened Text
  import opened Docs

  const DefaultChunkSize := 1000
  const DefaultPcaComponents := 256
  const EmbeddingWidth := 768
  const HashModulus := 1000

  /** The sentence model: the sentences of a text, as spaCy segments it. */
  type Sentencizer = string -> seq<string>

  /** PCA on the embeddings with the given number of components, or the error it raises. */
  type Pca = (seq<seq<int>>, int) -> Result<seq<seq<real>>>

  // Fixed-size chunks

  /** `[text[i:i+size] for i in range(0, len(text), size)]` for a positive size. */
  function Pieces(text: string, size: nat): seq<string>
    requires size > 0
    decreases |text|
  {
    if |text| == 0 then []
    else if |text| <= size then [text]
    else [text[..size]] + Pieces(text[size..], size)
  }

  /** The chunking without a sentence model: `range` refuses a zero step, and a
      negative step gives no chunk at all. */
  function FixedChunks(text: string, size: int): (r: Result<seq<string>>)
    ensures size == 0 <==> r.Err?
    ensures size < 0 ==> r == Ok([])
  {
    if size == 0 then Err(ValueError("range() arg 3 must not be zero"))
    else if size < 0 then Ok([])
    else Ok(Pieces(text, size))
  }

  lemma {:induction false} FlattenCons<T>(x: seq<T>, ss: seq<seq<T>>)
    ensures Flatten([x] + ss) == x + Flatten(ss)
    decreases |ss|
  {
    if ss == [] {
      assert Flatten([x]) == Flatten([x][..0]) + x;
    } else {
      var init := ss[..|ss| - 1];
      assert ([x] + ss)[..|ss|] == [x] + init;
      FlattenCons(x, init);
    }
  }

  lemma MulSign(d: int, k: int)
    requires d > 0
    ensures k >= 1 ==> d * k >= d
    ensures k <= -1 ==> d * k <= -d
  {
    if k >= 1 {
      assert d * k == d + d * (k - 1);
    } else if k <= -1 {
      assert d * k == -d + d * (k + 1);
    }
  }

  /** Euclidean division is unique: a quotient with a remainder in [0, d) is `a / d`. */
  lemma DivUnique(a: int, d: int, q: int, r: int)
    requires d > 0 && 0 <= r < d && a == d * q + r
    ensures a / d == q
  {
    var k := a / d - q;
    assert d * k == r - a % d by {
      assert d * (a / d) - d * q == d * k;
    }
    MulSign(d, k);
  }

  /** The pieces put back together are the text, and all are `size` long except a last
      one of 1 to `size` characters. */
  lemma {:induction false} PiecesSpec(text: string, size: nat)
    requires size > 0
    ensures var r := Pieces(text, size);
      && Flatten(r) == text
      && (forall i :: 0 <= i < |r| ==> 0 < |r[i]| <= size)
      && (forall i :: 0 <= i < |r| - 1 ==> |r[i]| == size)
    decreases |text|
  {
    var r := Pieces(text, size);
    if |text| == 0 {
    } else if |text| <= size {
      assert Flatten([text]) == Flatten([text][..0]) + text;
    } else {
      var rest := Pieces(text[size..], size);
      PiecesSpec(text[size..], size);
      assert r == [text[..size]] + rest;
      FlattenCons(text[..size], rest);
      assert text == text[..size] + text[size..];
      forall i | 0 <= i < |r| ensures 0 < |r[i]| <= size {
        if i > 0 {
          assert r[i] == rest[i - 1];
        }
      }
      forall i | 0 <= i < |r| - 1 ensures |r[i]| == size {
        if i > 0 {
          assert r[i] == rest[i - 1];
        }
      }
    }
  }

  /** There are `ceil(len(text) / size)` pieces. */
  lemma {:induction false} PiecesCount(text: string, size: nat)
    requires size > 0
    ensures |Pieces(text, size)| == (|text| + size - 1) / size
    decreases |text|
  {
    var n := |text|;
    if n == 0 {
      DivUnique(size - 1, size, 0, size - 1);
    } else if n <= size {
      DivUnique(n + size - 1, size, 1, n - 1);
    } else {
      PiecesCount(text[size..], size);
      var m := (n - 1) / size;
      assert |text[size..]| + size - 1 == n - 1;
      assert n - 1 == size * m + (n - 1) % size;
      DivUnique(n + size - 1, size, m + 1, (n - 1) % size);
    }
  }

  // Sentence packing

  /** The chunks finished so far and the chunk being built. */
  datatype Packing = Packing(chunks: seq<string>, current: string)

  /** One stripped sentence: appended to the current chunk (after a space) while the two
      lengths add up to at most `size`, otherwise it starts a new chunk and the current
      one, if any, is stripped and finished. The test leaves out the joining space. */
  function AddSentence(p: Packing, t: string, size: int): Packing
  {
    if |p.current| + |t| <= size then
      Packing(p.chunks, if p.current != "" then p.current + " " + t else t)
    else
      Packing(if p.current != "" then p.chunks + [Strip(p.current)] else p.chunks, t)
  }

  function Packed(ts: seq<string>, size: int): Packing
  {
    if ts == [] then Packing([], "")
    else AddSentence(Packed(ts[..|ts| - 1], size), ts[|ts| - 1], size)
  }

  /** The last chunk is added when not empty. */
  function Finish(p: Packing): seq<string>
  {
    if p.current != "" then p.chunks + [Strip(p.current)] else p.chunks
  }

  /** The sentences with surrounding whitespace removed: each one is the trimmed
      middle of its sentence. */
  function Stripped(sentences: seq<string>): (r: seq<string>)
    ensures |r| == |sentences| && forall i :: 0 <= i < |r| ==> r[i] == Strip(sentences[i])
    ensures forall i :: 0 <= i < |r| ==> Trimmed(r[i]) && |r[i]| <= |sentences[i]|
  {
    StrippedTrimmed(sentences);
    seq(|sentences|, i requires 0 <= i < |sentences| => Strip(sentences[i]))
  }

  /** The chunks sentence packing produces. */
  function SentenceChunks(sentences: seq<string>, size: int): seq<string>
  {
    Finish(Packed(Stripped(sentences), size))
  }

  /** The packing loop of `create_equal_sized_chunks`. */
  method PackSentences(sentences: seq<string>, size: int) returns (chunks: seq<string>)
    ensures chunks == SentenceChunks(sentences, size)
  {
    ghost var ts := Stripped(sentences);
    chunks := [];
    var current := "";
    assert ts[..0] == [];
    for i := 0 to |sentences|
      invariant Packed(ts[..i], size) == Packing(chunks, current)
    {
      assert ts[..i + 1][..i] == ts[..i];
      var sentText := Strip(sentences[i]);
      if |current| + |sentText| <= size {
        current := if current != "" then current + " " + sentText else sentText;
      } else {
        if current != "" {
          chunks := chunks + [Strip(current)];
        }
        current := sentText;
      }
    }
    assert ts[..|sentences|] == ts;
    if current != "" {
      chunks := chunks + [Strip(current)];
    }
  }

  /** No whitespace at either end. */
  predicate Trimmed(s: string)
  {
    s == [] || (!IsSpace(s[0]) && !IsSpace(s[|s| - 1]))
  }

  /** Stripping leaves no whitespace at either end and never lengthens a sentence. */
  lemma StrippedTrimmed(sentences: seq<string>)
    ensures forall i :: 0 <= i < |sentences| ==> Trimmed(Strip(sentences[i])) && |Strip(sentences[i])| <= |sentences[i]|
  {
    forall i | 0 <= i < |sentences| ensures Trimmed(Strip(sentences[i])) && |Strip(sentences[i])| <= |sentences[i]| {
      StripSlice(sentences[i]);
    }
  }

  /** A string starting with non-whitespace keeps its first character under `strip`. */
  lemma StripKeepsFirst(s: string)
    requires s != [] && !IsSpace(s[0])
    ensures Strip(s) != [] && |Strip(s)| <= |s|
  {
    StripSlice(s);
    RStripSpec(LStrip(s));
  }

  /** The packing invariant: finished chunks are never empty and are no longer than
      `size + 1` unless they are a single sentence; the current chunk starts with
      non-whitespace and obeys the same bound. */
  lemma {:induction false} PackedShape(ts: seq<string>, size: int)
    requires forall i :: 0 <= i < |ts| ==> Trimmed(ts[i])
    ensures var p := Packed(ts, size);
      && (forall c :: c in p.chunks ==> c != "" && (|c| <= size + 1 || c in ts))
      && (p.current == "" || !IsSpace(p.current[0]))
      && (p.current == "" || |p.current| <= size + 1 || p.current in ts)
  {
    if ts != [] {
      var init := ts[..|ts| - 1];
      var t := ts[|ts| - 1];
      PackedShape(init, size);
      var p := Packed(init, size);
      forall c | c in init ensures c in ts {
        var i :| 0 <= i < |init| && init[i] == c;
        assert ts[i] == c;
      }
      var q := AddSentence(p, t, size);
      assert Packed(ts, size) == q;
      assert t in ts && Trimmed(t) by { assert ts[|ts| - 1] == t; }
      if |p.current| + |t| <= size {
        assert q.chunks == p.chunks;
        if p.current != "" {
          assert q.current[0] == p.current[0];
        }
      } else if p.current != "" {
        var c := Strip(p.current);
        StripKeepsFirst(p.current);
        if p.current in init {
          StripTrimmed(p.current);
        }
        assert c != "" && (|c| <= size + 1 || c in ts);
        assert q.chunks == p.chunks + [c];
        forall d | d in q.chunks ensures d != "" && (|d| <= size + 1 || d in ts) {
          if d != c {
            assert d in p.chunks;
          }
        }
      }
    }
  }

  /** Sentence packing never produces an empty chunk, and a chunk longer than
      `size + 1` is a single stripped sentence. */
  lemma SentenceChunksShape(sentences: seq<string>, size: int)
    ensures forall c :: c in SentenceChunks(sentences, size) ==>
      c != "" && (|c| <= size + 1 || c in Stripped(sentences))
  {
    var ts := Stripped(sentences);
    PackedShape(ts, size);
    var p := Packed(ts, size);
    if p.current != "" {
      StripKeepsFirst(p.current);
      if p.current in ts {
        StripTrimmed(p.current);
      }
    }
  }

  lemma JoinExtendLast(sep: string, parts: seq<string>, x: string, y: string)
    ensures Join(sep, parts + [x + sep + y]) == Join(sep, parts + [x]) + sep + y
  {
    if parts == [] {
      assert [x + sep + y] == parts + [x + sep + y];
    } else {
      JoinAppend(sep, parts, x + sep + y);
      JoinAppend(sep, parts, x);
    }
  }

  /** With non-empty stripped sentences, the chunks joined by single spaces are the
      sentences joined by single spaces: every sentence lands in exactly one chunk, in
      order. */
  lemma {:induction false} PackedJoin(ts: seq<string>, size: int)
    requires forall i :: 0 <= i < |ts| ==> ts[i] != "" && Trimmed(ts[i])
    ensures var p := Packed(ts, size);
      && (ts == [] ==> p == Packing([], ""))
      && (ts != [] ==> p.current != "" && Trimmed(p.current) && Join(" ", p.chunks + [p.current]) == Join(" ", ts))
      && (forall c :: c in p.chunks ==> Trimmed(c))
  {
    if ts != [] {
      var init := ts[..|ts| - 1];
      var t := ts[|ts| - 1];
      PackedJoin(init, size);
      var p := Packed(init, size);
      assert ts == init + [t];
      if init == [] {
        assert Join(" ", [t]) == t;
      } else if |p.current| + |t| <= size {
        JoinExtendLast(" ", p.chunks, p.current, t);
        JoinAppend(" ", init, t);
      } else {
        StripTrimmed(p.current);
        JoinAppend(" ", p.chunks + [p.current], t);
        JoinAppend(" ", init, t);
        assert p.chunks + [p.current] + [t] == (p.chunks + [Strip(p.current)]) + [t];
      }
    }
  }

  lemma SentenceChunksJoin(sentences: seq<string>, size: int)
    requires forall i :: 0 <= i < |sentences| ==> Strip(sentences[i]) != ""
    ensures Join(" ", SentenceChunks(sentences, size)) == Join(" ", Stripped(sentences))
  {
    var ts := Stripped(sentences);
    PackedJoin(ts, size);
    var p := Packed(ts, size);
    if ts != [] {
      StripTrimmed(p.current);
    }
  }

  // Chunking, embeddings, PCA

  /** What `create_equal_sized_chunks(text, size)` returns: fixed-size pieces without a
      sentence model, packed sentences with one. */
  function Chunks(text: string, size: int, nlp: Option<Sentencizer>): Result<seq<string>>
  {
    match nlp
    case None => FixedChunks(text, size)
    case Some(sentencesOf) => Ok(SentenceChunks(sentencesOf(text), size))
  }

  method CreateEqualSizedChunks(text: string, size: int, nlp: Option<Sentencizer>) returns (r: Result<seq<string>>)
    ensures r == Chunks(text, size, nlp)
  {
    if nlp.None? {
      return FixedChunks(text, size);
    }
    var chunks := PackSentences(nlp.value(text), size);
    r := Ok(chunks);
  }

  /** The placeholder embeddings: for each chunk, 768 copies of its hash modulo 1000
      (Python's `%` by a positive number, like Dafny's, lies in [0, 1000)). */
  function Embeddings(chunks: seq<string>, hash: string -> int): (r: seq<seq<int>>)
    ensures |r| == |chunks|
    ensures forall i :: 0 <= i < |r| ==> |r[i]| == EmbeddingWidth
    ensures forall i, j :: 0 <= i < |r| && 0 <= j < |r[i]| ==>
      r[i][j] == hash(chunks[i]) % HashModulus && 0 <= r[i][j] < HashModulus
  {
    seq(|chunks|, i requires 0 <= i < |chunks| => seq(EmbeddingWidth, _ => hash(chunks[i]) % HashModulus))
  }

  method TransformToEmbeddings(chunks: seq<string>, hash: string -> int) returns (embeddings: seq<seq<int>>)
    ensures embeddings == Embeddings(chunks, hash)
  {
    embeddings := [];
    for i := 0 to |chunks|
      invariant embeddings == Embeddings(chunks[..i], hash)
    {
      var embedding := seq(EmbeddingWidth, _ => hash(chunks[i]) % HashModulus);
      assert Embeddings(chunks[..i + 1], hash) == Embeddings(chunks[..i], hash) + [embedding];
      embeddings := embeddings + [embedding];
    }
    assert chunks[..|chunks|] == chunks;
  }

  /** `min(a, b)`. */
  function Min(a: int, b: int): int
  {
    if a <= b then a else b
  }

  /** `apply_pca`: nothing for no embeddings, otherwise PCA with at most as many
      components as an embedding has entries. */
  function ApplyPca(embeddings: seq<seq<int>>, n: int, pca: Pca): (r: Result<seq<seq<real>>>)
    ensures embeddings == [] ==> r == Ok([])
  {
    if |embeddings| == 0 then Ok([])
    else pca(embeddings, Min(n, |embeddings[0]|))
  }

  // The handler

  /** The fields of the event the handler reads; a missing field is `None`. */
  datatype Event = Event(text: Option<string>, chunkSize: Option<int>, pcaComponents: Option<int>)

  datatype Body =
    | Failure(error: string)
    | Processed(chunks: seq<string>, embeddings: seq<seq<real>>, chunkCount: nat, embeddingDimensions: nat)

  datatype Response = Response(statusCode: int, body: Body)

  /** `str(e)` of an exception. */
  function Message(e: Error): string
  {
    match e
    case KeyError(key) => "'" + key + "'"
    case IndexError => "list index out of range"
    case ValueError(m) => m
    case TypeError(m) => m
    case AttributeError(m) => m
    case UpstreamFailure(m) => m
  }

  function GetOr<T>(o: Option<T>, default: T): T
  {
    if o.Some? then o.value else default
  }

  /** The pipeline on a non-empty text: chunks, embeddings, PCA; an exception becomes
      status 500 with its message. */
  function Process(text: string, size: int, components: int, nlp: Option<Sentencizer>, hash: string -> int, pca: Pca): (r: Response)
    ensures r.statusCode == 200 || r.statusCode == 500
    ensures r.statusCode == 200 <==> r.body.Processed?
    ensures r.body.Processed? ==>
      && Chunks(text, size, nlp) == Ok(r.body.chunks)
      && r.body.chunkCount == |r.body.chunks|
      && (r.body.embeddings == [] ==> r.body.embeddingDimensions == 0)
    ensures Chunks(text, size, nlp).Err? ==> r == Response(500, Failure(Message(Chunks(text, size, nlp).error)))
    ensures Chunks(text, size, nlp).Ok? ==>
      var p := ApplyPca(Embeddings(Chunks(text, size, nlp).value, hash), components, pca);
      && (p.Err? ==> r == Response(500, Failure(Message(p.error))))
      && (p.Ok? ==> r.statusCode == 200 && r.body.embeddings == p.value
                    && r.body.embeddingDimensions == (if p.value != [] then |p.value[0]| else 0))
  {
    match Chunks(text, size, nlp)
    case Err(e) => Response(500, Failure(Message(e)))
    case Ok(chunks) =>
      match ApplyPca(Embeddings(chunks, hash), components, pca)
      case Err(e) => Response(500, Failure(Message(e)))
      case Ok(reduced) =>
        Response(200, Processed(chunks, reduced, |chunks|, if reduced != [] then |reduced[0]| else 0))
  }

  /** `lambda_handler(event, context)`: status 400 exactly when the text is missing or
      empty; otherwise the pipeline with chunk size 1000 and 256 PCA components unless
      the event says otherwise. */
  function LambdaHandler(event: Event, nlp: Option<Sentencizer>, hash: string -> int, pca: Pca): (r: Response)
    ensures r.statusCode == 400 <==> event.text.None? || event.text.value == ""
    ensures r.statusCode == 400 ==> r.body == Failure("No text provided")
    ensures event.text.Some? && event.text.value != "" ==>
      r == Process(event.text.value, GetOr(event.chunkSize, DefaultChunkSize),
                   GetOr(event.pcaComponents, DefaultPcaComponents), nlp, hash, pca)
  {
    var text := GetOr(event.text, "");
    if text == "" then Response(400, Failure("No text provided"))
    else Process(text, GetOr(event.chunkSize, DefaultChunkSize), GetOr(event.pcaComponents, DefaultPcaComponents), nlp, hash, pca)
  }

  /** Without a sentence model, a chunk size of 0 is answered with status 500. */
  lemma ZeroChunkSize(text: string, hash: string -> int, pca: Pca)
    requires text != ""
    ensures LambdaHandler(Event(Some(text), Some(0), None), None, hash, pca)
      == Response(500, Failure("range() arg 3 must not be zero"))
  {
  }

  /** Without a sentence model and with a positive chunk size, a successful answer's
      chunks put back together are the text, and there are `ceil(len(text) / size)`. */
  lemma HandlerCoversText(event: Event, hash: string -> int, pca: Pca)
    requires LambdaHandler(event, None, hash, pca).statusCode == 200
    requires GetOr(event.chunkSize, DefaultChunkSize) > 0
    ensures var b := LambdaHandler(event, None, hash, pca).body;
      var size := GetOr(event.chunkSize, DefaultChunkSize);
      && Flatten(b.chunks) == event.text.value
      && b.chunkCount == (|event.text.value| + size - 1) / size
  {
    PiecesSpec(event.text.value, GetOr(event.chunkSize, DefaultChunkSize));
    PiecesCount(event.text.value, GetOr(event.chunkSize, DefaultChunkSize));
  }
}
