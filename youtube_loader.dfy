/** Loading the YouTube transcripts a folder lists (`youtubeLoader` in
    backend/document/youtube_loader.py). */
module YoutubeLoader {
  import opened Wrappers
  import opened Text
  import opened Docs
  import opened Ingest

  /** The file of a folder that lists video URLs, one per line. */
  const UrlFile := "yt_urls.txt"

  /** Transcripts are loaded in chunks of this many seconds. */
  const ChunkSeconds := 60

  /** The transcript loader: the chunks of a video URL at a given chunk length. */
  type TranscriptLoader = (string, nat) -> seq<Document>

  /** `url.split('=')[1]`: the text between the first and the second '=', or the
      `IndexError` of a line without any. */
  function UrlTitle(url: string): (r: Result<string>)
    ensures r.Err? ==> r.error == IndexError
  {
    var parts := Split(url, '=');
    if |parts| < 2 then Err(IndexError) else Ok(parts[1])
  }

  /** A title never holds an '='. */
  lemma UrlTitleFree(url: string)
    ensures UrlTitle(url).Ok? ==> '=' !in UrlTitle(url).value
  {
    SplitPiecesFree(url, '=');
  }

  /** The title of a URL with a further '=' is what lies between the first two. */
  lemma UrlTitleBetween(a: string, t: string, b: string)
    requires '=' !in a && '=' !in t
    ensures UrlTitle(a + "=" + t + "=" + b) == Ok(t)
  {
    assert a + "=" + t + "=" + b == a + ['='] + (t + ['='] + b);
    SplitAtFirst(a, '=', t + ['='] + b);
    SplitAtFirst(t, '=', b);
  }

  /** The title of a URL with one '=' is everything after it, a line's newline included. */
  lemma UrlTitleLast(a: string, t: string)
    requires '=' !in a && '=' !in t
    ensures UrlTitle(a + "=" + t) == Ok(t)
  {
    assert a + "=" + t == a + ['='] + t;
    SplitAtFirst(a, '=', t);
    SplitWhole(t, '=');
  }

  /** A line without '=' raises. */
  lemma UrlTitleMissing(url: string)
    requires '=' !in url
    ensures UrlTitle(url) == Err(IndexError)
  {
    SplitWhole(url, '=');
  }

  /** Every URL is loaded when its title is new. */
  function YoutubeRule(load: TranscriptLoader, seconds: nat): Rule
  {
    Rule(UrlTitle, _ => true, url => load(url, seconds))
  }

  /** `youtubeLoader(path, existing_vids)`: nothing when the folder has no URL file,
      otherwise the partition of the file's lines, loaded in chunks of `seconds`.
      `listdir` and `readLines` stand for the file system. */
  method LoadListedUrls(
    path: string, existing: seq<string>, seconds: nat,
    listdir: string -> seq<string>, readLines: string -> seq<string>, load: TranscriptLoader)
    returns (r: Result<Intake>)
    ensures r == ListedUrls(path, existing, seconds, listdir, readLines, load)
    ensures UrlFile !in listdir(path) ==> r == Ok(Intake([], [], []))
  {
    if UrlFile !in listdir(path) {
      return Ok(Intake([], [], []));
    }
    var urls := readLines(path + "/" + UrlFile);
    r := Partition(urls, YoutubeRule(load, seconds), existing);
  }

  /** What `LoadListedUrls` computes. */
  function ListedUrls(
    path: string, existing: seq<string>, seconds: nat,
    listdir: string -> seq<string>, readLines: string -> seq<string>, load: TranscriptLoader): Result<Intake>
  {
    if UrlFile !in listdir(path) then Ok(Intake([], [], []))
    else Classified(readLines(path + "/" + UrlFile), YoutubeRule(load, seconds), existing)
  }

  /** The loader of backend/document/youtube_loader.py, with one-minute chunks. */
  method YoutubeLoader(
    path: string, existing: seq<string>,
    listdir: string -> seq<string>, readLines: string -> seq<string>, load: TranscriptLoader)
    returns (r: Result<Intake>)
    ensures UrlFile !in listdir(path) ==> r == Ok(Intake([], [], []))
    ensures UrlFile in listdir(path) ==>
      r == Classified(readLines(path + "/" + UrlFile), YoutubeRule(load, ChunkSeconds), existing)
  {
    r := LoadListedUrls(path, existing, ChunkSeconds, listdir, readLines, load);
  }

  /** With a URL file, loading fails exactly when some line has no '='. */
  lemma YoutubeFails(urls: seq<string>, existing: seq<string>, load: TranscriptLoader)
    ensures Classified(urls, YoutubeRule(load, ChunkSeconds), existing).Err? <==>
      exists i :: 0 <= i < |urls| && '=' !in urls[i]
  {
    var rule := YoutubeRule(load, ChunkSeconds);
    ClassifiedOk(urls, rule, existing);
    forall i | 0 <= i < |urls| ensures rule.titleOf(urls[i]).Ok? <==> '=' in urls[i] {
      if '=' in urls[i] {
        var k :| 0 <= k < |urls[i]| && urls[i][k] == '=';
        SeparatedUrlTitled(urls[i], k);
      } else {
        UrlTitleMissing(urls[i]);
      }
    }
  }

  /** A line with an '=' anywhere has a title. */
  lemma {:induction false} SeparatedUrlTitled(url: string, k: nat)
    requires k < |url| && url[k] == '='
    ensures UrlTitle(url).Ok?
    decreases k
  {
    var a := url[..k];
    var b := url[k + 1..];
    assert url == a + ['='] + b;
    if '=' in a {
      var j :| 0 <= j < |a| && a[j] == '=';
      SeparatedUrlTitled(url, j);
    } else {
      SplitAtFirst(a, '=', b);
    }
  }

  /** Three lines naming videos "abc", "abc" and "def", with "def" already known: "abc"
      is loaded once, the repeat is skipped, and "def" is reported as a duplicate. */
  lemma PartitionExample(load: TranscriptLoader, abc: string, def: string)
    requires abc == "w?v=abc\n" && def == "w?v=def\n"
    ensures Classified([abc, abc, def], YoutubeRule(load, ChunkSeconds), ["def\n"])
      == Ok(Intake(load(abc, ChunkSeconds), ["abc\n"], ["def\n"]))
  {
    var rule := YoutubeRule(load, ChunkSeconds);
    var existing := ["def\n"];
    UrlTitleLast("w?v", "abc\n");
    UrlTitleLast("w?v", "def\n");
    assert "w?v" + "=" + "abc\n" == abc;
    assert "w?v" + "=" + "def\n" == def;
    assert "abc\n" !in existing;
    var first := Intake(load(abc, ChunkSeconds), ["abc\n"], []);
    var none: seq<string> := [];
    assert rule.titleOf(abc) == Ok("abc\n");
    assert rule.titleOf(def) == Ok("def\n");
    assert rule.load(abc) == load(abc, ChunkSeconds);
    assert Classified(none, rule, existing) == Ok(Intake([], [], []));
    assert Admit(Intake([], [], []), abc, "abc\n", rule, existing) == first;
    ClassifiedSnoc(none, abc, rule, existing);
    assert none + [abc] == [abc];
    assert Classified([abc], rule, existing) == Ok(first);
    ClassifiedSnoc([abc], abc, rule, existing);
    assert [abc] + [abc] == [abc, abc];
    assert Admit(first, abc, "abc\n", rule, existing) == first;
    assert Classified([abc, abc], rule, existing) == Ok(first);
    ClassifiedSnoc([abc, abc], def, rule, existing);
    assert [abc, abc] + [def] == [abc, abc, def];
    assert Admit(first, def, "def\n", rule, existing) == Intake(load(abc, ChunkSeconds), ["abc\n"], ["def\n"]);
  }
}
