/** The new-or-duplicate partition that the PDF and YouTube loaders share
    (`youtubeLoader` in backend/document/youtube_loader.py, `pdfLoader` and
    `youtubeLoader` in backend/llm_utils.py): items are read in order, each is given a
    title, a title already known is reported as a duplicate, and the first eligible item
    of every other title is loaded. */
module Ingest {
  import opened Wrappers
  import opened Docs

  /** What a loader returns: the chunks of the new items, the new titles and the
      titles that were already known, each in item order. */
  datatype Intake = Intake(chunks: seq<Document>, added: seq<string>, duplicates: seq<string>)

  /** How one loader reads its items: the title of an item (or the error computing it
      raises), whether an item with an unknown title is loaded, and what loading yields. */
  datatype Rule = Rule(titleOf: string -> Result<string>, eligible: string -> bool, load: string -> seq<Document>)

  /** One item with a title, on top of what the earlier items gave. */
  function Admit(prev: Intake, item: string, title: string, rule: Rule, existing: seq<string>): Intake
  {
    if title in existing then prev.(duplicates := prev.duplicates + [title])
    else if rule.eligible(item) && title !in prev.added then
      Intake(prev.chunks + rule.load(item), prev.added + [title], prev.duplicates)
    else prev
  }

  /** The loop over the items; the first title that cannot be computed ends it. */
  function Classified(items: seq<string>, rule: Rule, existing: seq<string>): Result<Intake>
  {
    if items == [] then Ok(Intake([], [], []))
    else
      var prev := Classified(items[..|items| - 1], rule, existing);
      var item := items[|items| - 1];
      if prev.Err? then prev
      else
        match rule.titleOf(item)
        case Err(e) => Err(e)
        case Ok(title) => Ok(Admit(prev.value, item, title, rule, existing))
  }

  /** One more item: it raises, or it is admitted on top of the earlier items. */
  lemma ClassifiedSnoc(items: seq<string>, x: string, rule: Rule, existing: seq<string>)
    requires Classified(items, rule, existing).Ok? && rule.titleOf(x).Ok?
    ensures Classified(items + [x], rule, existing)
      == Ok(Admit(Classified(items, rule, existing).value, x, rule.titleOf(x).value, rule, existing))
  {
    assert (items + [x])[..|items|] == items;
  }

  /** Once an item raises, later items change nothing. */
  lemma {:induction false} ClassifiedErrSticks(items: seq<string>, k: nat, rule: Rule, existing: seq<string>)
    requires k <= |items| && Classified(items[..k], rule, existing).Err?
    ensures Classified(items, rule, existing) == Classified(items[..k], rule, existing)
    decreases |items|
  {
    if k < |items| {
      var init := items[..|items| - 1];
      assert init[..k] == items[..k];
      ClassifiedErrSticks(init, k, rule, existing);
    } else {
      assert items[..k] == items;
    }
  }

  /** The partition loop: lists are appended to item by item. */
  method Partition(items: seq<string>, rule: Rule, existing: seq<string>) returns (r: Result<Intake>)
    ensures r == Classified(items, rule, existing)
  {
    var chunks: seq<Document> := [];
    var added: seq<string> := [];
    var duplicates: seq<string> := [];
    var i := 0;
    while i < |items|
      invariant 0 <= i <= |items|
      invariant Classified(items[..i], rule, existing) == Ok(Intake(chunks, added, duplicates))
    {
      var item := items[i];
      assert items[..i + 1][..i] == items[..i];
      var title := rule.titleOf(item);
      if title.Err? {
        ClassifiedErrSticks(items, i + 1, rule, existing);
        return Err(title.error);
      }
      if title.value in existing {
        duplicates := duplicates + [title.value];
      } else if rule.eligible(item) && title.value !in added {
        added := added + [title.value];
        chunks := chunks + rule.load(item);
      }
      i := i + 1;
    }
    assert items[..i] == items;
    r := Ok(Intake(chunks, added, duplicates));
  }

  /** The partition fails exactly when some item has no title. */
  lemma {:induction false} ClassifiedOk(items: seq<string>, rule: Rule, existing: seq<string>)
    ensures Classified(items, rule, existing).Ok? <==> forall i :: 0 <= i < |items| ==> rule.titleOf(items[i]).Ok?
  {
    if items != [] {
      var init := items[..|items| - 1];
      ClassifiedOk(init, rule, existing);
      if Classified(init, rule, existing).Err? {
        var i :| 0 <= i < |init| && rule.titleOf(init[i]).Err?;
        assert items[i] == init[i];
      } else if forall i :: 0 <= i < |items| ==> rule.titleOf(items[i]).Ok? {
      } else {
        forall j | 0 <= j < |init| ensures items[j] == init[j] { }
      }
    }
  }

  /** The new titles have no repeats and none of them was known; the duplicates are
      exactly the known titles met, the new titles exactly the unknown titles of
      eligible items. */
  lemma {:induction false} ClassifiedSpec(items: seq<string>, rule: Rule, existing: seq<string>)
    requires Classified(items, rule, existing).Ok?
    ensures var r := Classified(items, rule, existing).value;
      && NoDuplicates(r.added)
      && (forall t :: t in r.added ==> t !in existing)
      && (forall t :: t in r.duplicates ==> t in existing)
      && (forall t :: t in r.added <==>
            exists i :: 0 <= i < |items| && rule.titleOf(items[i]) == Ok(t) && t !in existing && rule.eligible(items[i]))
      && (forall t :: t in r.duplicates <==>
            exists i :: 0 <= i < |items| && rule.titleOf(items[i]) == Ok(t) && t in existing)
  {
    if items != [] {
      var init := items[..|items| - 1];
      var x := items[|items| - 1];
      ClassifiedSpec(init, rule, existing);
      var prev := Classified(init, rule, existing).value;
      var r := Classified(items, rule, existing).value;
      var title := rule.titleOf(x).value;
      assert r == Admit(prev, x, title, rule, existing);
      forall t | t in r.added
        ensures exists i :: 0 <= i < |items| && rule.titleOf(items[i]) == Ok(t) && t !in existing && rule.eligible(items[i])
      {
        if t in prev.added {
          var i :| 0 <= i < |init| && rule.titleOf(init[i]) == Ok(t) && t !in existing && rule.eligible(init[i]);
          assert items[i] == init[i];
        } else {
          assert items[|items| - 1] == x;
        }
      }
      forall t | exists i :: 0 <= i < |items| && rule.titleOf(items[i]) == Ok(t) && t !in existing && rule.eligible(items[i])
        ensures t in r.added
      {
        var i :| 0 <= i < |items| && rule.titleOf(items[i]) == Ok(t) && t !in existing && rule.eligible(items[i]);
        if i < |init| {
          assert init[i] == items[i];
        }
      }
      forall t | t in r.duplicates
        ensures exists i :: 0 <= i < |items| && rule.titleOf(items[i]) == Ok(t) && t in existing
      {
        if t in prev.duplicates {
          var i :| 0 <= i < |init| && rule.titleOf(init[i]) == Ok(t) && t in existing;
          assert items[i] == init[i];
        } else {
          assert items[|items| - 1] == x;
        }
      }
      forall t | exists i :: 0 <= i < |items| && rule.titleOf(items[i]) == Ok(t) && t in existing
        ensures t in r.duplicates
      {
        var i :| 0 <= i < |items| && rule.titleOf(items[i]) == Ok(t) && t in existing;
        if i < |init| {
          assert init[i] == items[i];
        }
      }
    }
  }

  /** An item loads when its title parses, is unknown, it is eligible, and no earlier
      eligible item carried the same title. */
  predicate Introduces(earlier: seq<string>, x: string, rule: Rule, existing: seq<string>)
  {
    && rule.titleOf(x).Ok? && rule.titleOf(x).value !in existing && rule.eligible(x)
    && forall y :: y in earlier && rule.eligible(y) ==> rule.titleOf(y) != rule.titleOf(x)
  }

  /** The items that are loaded, in item order. */
  function Introducers(items: seq<string>, rule: Rule, existing: seq<string>): seq<string>
  {
    if items == [] then []
    else
      var init := items[..|items| - 1];
      var x := items[|items| - 1];
      Introducers(init, rule, existing) + (if Introduces(init, x, rule, existing) then [x] else [])
  }

  function Titles(items: seq<string>, rule: Rule): seq<string>
    requires forall i :: 0 <= i < |items| ==> rule.titleOf(items[i]).Ok?
  {
    seq(|items|, i requires 0 <= i < |items| => rule.titleOf(items[i]).value)
  }

  function Loads(items: seq<string>, rule: Rule): seq<seq<Document>>
  {
    seq(|items|, i requires 0 <= i < |items| => rule.load(items[i]))
  }

  lemma IntroducersTitled(items: seq<string>, rule: Rule, existing: seq<string>)
    ensures forall i :: 0 <= i < |Introducers(items, rule, existing)| ==>
      rule.titleOf(Introducers(items, rule, existing)[i]).Ok?
  {
    if items != [] {
      IntroducersTitled(items[..|items| - 1], rule, existing);
    }
  }

  /** The new titles are the titles of the loaded items, and the chunks are the loads of
      those items concatenated in item order. */
  lemma {:induction false} ClassifiedChunks(items: seq<string>, rule: Rule, existing: seq<string>)
    requires Classified(items, rule, existing).Ok?
    ensures var r := Classified(items, rule, existing).value;
      var loaded := Introducers(items, rule, existing);
      && (forall i :: 0 <= i < |loaded| ==> rule.titleOf(loaded[i]).Ok?)
      && r.added == Titles(loaded, rule)
      && r.chunks == Flatten(Loads(loaded, rule))
  {
    IntroducersTitled(items, rule, existing);
    if items != [] {
      var init := items[..|items| - 1];
      var x := items[|items| - 1];
      ClassifiedChunks(init, rule, existing);
      ClassifiedSpec(init, rule, existing);
      var prev := Classified(init, rule, existing).value;
      var r := Classified(items, rule, existing).value;
      var title := rule.titleOf(x).value;
      var before := Introducers(init, rule, existing);
      var loaded := Introducers(items, rule, existing);
      if Introduces(init, x, rule, existing) {
        forall i | 0 <= i < |init| ensures !(rule.titleOf(init[i]) == Ok(title) && rule.eligible(init[i])) {
          assert init[i] in init;
        }
        assert loaded == before + [x];
        assert Titles(loaded, rule) == Titles(before, rule) + [title];
        assert Loads(loaded, rule)[..|before|] == Loads(before, rule);
      } else {
        if title !in existing && rule.eligible(x) {
          var y :| y in init && rule.eligible(y) && rule.titleOf(y) == rule.titleOf(x);
          var i :| 0 <= i < |init| && init[i] == y;
          assert title in prev.added;
        }
        assert loaded == before;
      }
    }
  }
}
