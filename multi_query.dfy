/** The unique union of several retrieval results
    (backend/llm/query_translation/multi_query.py). */
module MultiQuery {
  import opened Docs

  /** `get_unique_union(documents)`: every distinct document of every list, once.
      Python builds the result from a `set`, so its order is not determined; the model
      returns first-occurrence order, and nothing below depends on that choice. */
  function UniqueUnion(documents: seq<seq<Document>>): (r: seq<Document>)
    ensures NoDuplicates(r)
    ensures forall d :: d in r <==> exists i :: 0 <= i < |documents| && d in documents[i]
    ensures |r| <= |Flatten(documents)|
  {
    var flat := Flatten(documents);
    DedupSpec(flat);
    forall d ensures d in flat <==> exists i :: 0 <= i < |documents| && d in documents[i] {
      FlattenMembers(documents, d);
    }
    Dedup(flat)
  }

  /** The result has exactly as many elements as there are distinct input documents. */
  lemma UniqueUnionLength(documents: seq<seq<Document>>)
    ensures |UniqueUnion(documents)| == |set d | d in Flatten(documents)|
  {
    var r := UniqueUnion(documents);
    DistinctLength(r);
    DedupMembers(Flatten(documents));
    assert (set x | x in r) == (set d | d in Flatten(documents));
  }

  /** No lists, or only empty lists, give an empty union. */
  lemma UniqueUnionEmpty(documents: seq<seq<Document>>)
    ensures UniqueUnion(documents) == [] <==> forall i :: 0 <= i < |documents| ==> documents[i] == []
  {
    var r := UniqueUnion(documents);
    if r != [] {
      assert r[0] in r;
    }
    if exists i :: 0 <= i < |documents| && documents[i] != [] {
      var i :| 0 <= i < |documents| && documents[i] != [];
      assert documents[i][0] in documents[i];
      assert documents[i][0] in r;
    }
  }

  /** Some list holds `d`. */
  predicate Retrieved(documents: seq<seq<Document>>, d: Document)
  {
    exists i :: 0 <= i < |documents| && d in documents[i]
  }

  /** The union does not depend on how the documents are grouped into lists. */
  lemma UniqueUnionRegroup(documents: seq<seq<Document>>, other: seq<seq<Document>>)
    requires forall d :: Retrieved(documents, d) <==> Retrieved(other, d)
    ensures forall d :: d in UniqueUnion(documents) <==> d in UniqueUnion(other)
    ensures |UniqueUnion(documents)| == |UniqueUnion(other)|
  {
    forall d
      ensures d in Flatten(documents) <==> d in Flatten(other)
      ensures d in UniqueUnion(documents) <==> d in UniqueUnion(other)
    {
      FlattenMembers(documents, d);
      FlattenMembers(other, d);
      assert Retrieved(documents, d) <==> Retrieved(other, d);
    }
    UniqueUnionLength(documents);
    UniqueUnionLength(other);
    assert (set d | d in Flatten(documents)) == (set d | d in Flatten(other));
  }
}
